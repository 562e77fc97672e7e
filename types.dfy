/** The step kinds of a flow, the option record each kind is declared with,
    and the kind of answer each kind produces. */
module Types {
  import opened Records

  /** The tag stored with every declaration; it names the handler that
      `run` dispatches to. */
  datatype StepType = InputStep | SelectStep | ConfirmStep | CheckStep

  /** The tag as the string the host program stores and compares. */
  function Tag(t: StepType): (s: string)
    ensures s == "input" || s == "select" || s == "confirm" || s == "check"
  {
    match t
    case InputStep => "input"
    case SelectStep => "select"
    case ConfirmStep => "confirm"
    case CheckStep => "check"
  }

  /** Distinct kinds have distinct tags, so a tag test picks exactly one kind. */
  lemma TagInjective(a: StepType, b: StepType)
    ensures Tag(a) == Tag(b) <==> a == b
  {
  }

  datatype InputValueType = StringValue | NumberValue

  /** The option record a step is declared with. Every kind has a `name`
      (the result key) and a `message` (the prompt text). */
  datatype StepOption =
    | InputOption(name: string, message: string, valueType: InputValueType)
    | SelectOption(name: string, message: string, choices: seq<string>)
    | ConfirmOption(name: string, message: string)
    | CheckOption(name: string, message: string, values: seq<string>)

  /** The kind an option record is shaped for. */
  function KindOf(option: StepOption): StepType
  {
    match option
    case InputOption(_, _, _) => InputStep
    case SelectOption(_, _, _) => SelectStep
    case ConfirmOption(_, _) => ConfirmStep
    case CheckOption(_, _, _) => CheckStep
  }

  /** A stored declaration: the option record with its `step` tag added. */
  datatype Decl = Decl(option: StepOption, step: StepType)

  /** An answer value: a string, a number, an array of strings or a boolean.
      Numbers are left opaque. */
  datatype Answer = Str(text: string) | Num(value: real) | Strs(items: seq<string>) | Bool(flag: bool)

  /** The answer type the result type of each option kind allows: a string
      or number input gives a string or a number, a select gives one of its
      choices, a check gives an array of its values, a confirm a boolean. */
  predicate AnswerFits(option: StepOption, answer: Answer)
  {
    match option
    case InputOption(_, _, StringValue) => answer.Str?
    case InputOption(_, _, NumberValue) => answer.Num?
    case SelectOption(_, _, choices) => answer.Str? && answer.text in choices
    case ConfirmOption(_, _) => answer.Bool?
    case CheckOption(_, _, values) => answer.Strs? && forall x :: x in answer.items ==> x in values
  }

  /** Every option kind has an answer of its type, except a select with no
      choices, whose answer type is empty. */
  lemma AnswerFitsInhabited(option: StepOption)
    ensures (exists a :: AnswerFits(option, a)) <==> !(option.SelectOption? && option.choices == [])
  {
    match option
    case InputOption(_, _, StringValue) => assert AnswerFits(option, Str(""));
    case InputOption(_, _, NumberValue) => assert AnswerFits(option, Num(0.0));
    case SelectOption(_, _, choices) =>
      if choices != [] {
        assert AnswerFits(option, Str(choices[0]));
      }
    case ConfirmOption(_, _) => assert AnswerFits(option, Bool(true));
    case CheckOption(_, _, _) => assert AnswerFits(option, Strs([]));
  }

  /** What running one step produces: its answer, or the rejection of the
      prompt it delegates to (a user interrupt, say). */
  datatype Response = Answered(answer: Answer) | Failed(reason: string)

  /** The external prompting collaborator behind every step's `run()`: given
      the number of prompts shown before, the handler kind and the option
      record, it yields the response. */
  type Prompt = (nat, StepType, StepOption) -> Response

  /** The collaborator keeps the promise of each handler's result type: the
      `count`-th prompt, for `option` under its own kind, answers with an
      answer that fits. */
  predicate Honest(prompt: Prompt, count: nat, option: StepOption)
  {
    prompt(count, KindOf(option), option).Answered? ==>
      AnswerFits(option, prompt(count, KindOf(option), option).answer)
  }
}
