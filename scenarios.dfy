/** The two functional scenarios of the flow's test suite, with every
    handler's `run()` replaced by a scripted response. */
module Scenarios {
  import opened Records
  import opened Types
  import opened Inquire

  function PizzaFlow(): Inquire
  {
    var q1 := Input(New(), InputOption("name", "What's your name", StringValue));
    var q2 := Select(q1, SelectOption("job", "What's your job", ["student", "worker", "other"]));
    var q3 := Check(q2, CheckOption("pizza", "What's your favorite pizza?", ["cheese", "pepperoni", "mushrooms"]));
    Confirm(q3, ConfirmOption("confirm", "Do you confirm?"))
  }

  /** Each handler kind answers the same whenever it is invoked. */
  function PizzaAnswers(): Prompt
  {
    (count: nat, kind: StepType, option: StepOption) =>
      match kind
      case InputStep => Answered(Str("John"))
      case SelectStep => Answered(Str("worker"))
      case CheckStep => Answered(Strs(["cheese", "pepperoni"]))
      case ConfirmStep => Answered(Bool(true))
  }

  function PizzaSteps(): seq<(string, Decl)>
  {
    [("name", Decl(InputOption("name", "What's your name", StringValue), InputStep)),
     ("job", Decl(SelectOption("job", "What's your job", ["student", "worker", "other"]), SelectStep)),
     ("pizza", Decl(CheckOption("pizza", "What's your favorite pizza?", ["cheese", "pepperoni", "mushrooms"]), CheckStep)),
     ("confirm", Decl(ConfirmOption("confirm", "Do you confirm?"), ConfirmStep))]
  }

  /** Declaring a step under a name not yet in the table appends it. */
  lemma DeclareNew(q: Inquire, d: Decl, r: Inquire)
    requires Extends(q, d, r) && d.option.name !in Keys(q.steps)
    ensures r.steps == q.steps + [(d.option.name, d)]
    ensures Keys(r.steps) == Keys(q.steps) + [d.option.name]
  {
    StoreKeys(q, d, r);
  }

  /** One step per kind under four distinct names: the table lists the
      declarations in the order they were added, each with its own tag. */
  lemma FourDistinct(name: StepOption, job: StepOption, pizza: StepOption, confirm: StepOption)
    requires name.InputOption? && job.SelectOption? && pizza.CheckOption? && confirm.ConfirmOption?
    requires name.name != job.name && name.name != pizza.name && name.name != confirm.name
    requires job.name != pizza.name && job.name != confirm.name && pizza.name != confirm.name
    ensures Confirm(Check(Select(Input(New(), name), job), pizza), confirm).steps ==
      [(name.name, Decl(name, InputStep)), (job.name, Decl(job, SelectStep)),
       (pizza.name, Decl(pizza, CheckStep)), (confirm.name, Decl(confirm, ConfirmStep))]
  {
    var q1 := Input(New(), name);
    DeclareNew(New(), Decl(name, InputStep), q1);
    var q2 := Select(q1, job);
    DeclareNew(q1, Decl(job, SelectStep), q2);
    var q3 := Check(q2, pizza);
    DeclareNew(q2, Decl(pizza, CheckStep), q3);
    DeclareNew(q3, Decl(confirm, ConfirmStep), Confirm(q3, confirm));
  }

  /** The declarations are stored in the order they were added, each with
      the tag of the operation that added it. */
  lemma PizzaFlowSteps()
    ensures PizzaFlow().steps == PizzaSteps()
  {
    FourDistinct(InputOption("name", "What's your name", StringValue),
      SelectOption("job", "What's your job", ["student", "worker", "other"]),
      CheckOption("pizza", "What's your favorite pizza?", ["cheese", "pepperoni", "mushrooms"]),
      ConfirmOption("confirm", "Do you confirm?"));
  }

  /** Running the four-step table with the scripted answers. */
  lemma PizzaRun(steps: Record<Decl>)
    requires steps == PizzaSteps()
    ensures var x := Execute(steps, PizzaAnswers());
      x.outcome.Resolved? && x.outcome.record ==
        [("name", Str("John")), ("job", Str("worker")),
         ("pizza", Strs(["cheese", "pepperoni"])), ("confirm", Bool(true))] &&
      |x.calls| == 4 &&
      x.calls[0].handler == InputStep && x.calls[1].handler == SelectStep &&
      x.calls[2].handler == CheckStep && x.calls[3].handler == ConfirmStep
  {
    var prompt := PizzaAnswers();
    assert ResponseFor(steps, prompt, 0) == Answered(Str("John"));
    assert ResponseFor(steps, prompt, 1) == Answered(Str("worker"));
    assert ResponseFor(steps, prompt, 2) == Answered(Strs(["cheese", "pepperoni"]));
    assert ResponseFor(steps, prompt, 3) == Answered(Bool(true));
    ExecuteResolves(steps, prompt);
    ExecuteCallsInOrder(steps, prompt);
    var x := Execute(steps, prompt);
    var r := x.outcome.record;
    assert r[0] == ("name", Str("John"));
    assert r[1] == ("job", Str("worker"));
    assert r[2] == ("pizza", Strs(["cheese", "pepperoni"]));
    assert r[3] == ("confirm", Bool(true));
    assert x.calls[0] == CallFor(steps, 0);
    assert x.calls[1] == CallFor(steps, 1);
    assert x.calls[2] == CallFor(steps, 2);
    assert x.calls[3] == CallFor(steps, 3);
  }

  /** One step of each kind: each handler is invoked once, in declaration
      order, and the record holds every answer under its step's name. */
  lemma PizzaScenario()
    ensures var x := Execute(PizzaFlow().steps, PizzaAnswers());
      x.outcome.Resolved? && x.outcome.record ==
        [("name", Str("John")), ("job", Str("worker")),
         ("pizza", Strs(["cheese", "pepperoni"])), ("confirm", Bool(true))] &&
      |x.calls| == 4 &&
      x.calls[0].handler == InputStep && x.calls[1].handler == SelectStep &&
      x.calls[2].handler == CheckStep && x.calls[3].handler == ConfirmStep
  {
    PizzaFlowSteps();
    PizzaRun(PizzaFlow().steps);
  }

  function TwoInputsFlow(): Inquire
  {
    var q1 := Input(New(), InputOption("name", "What's your name", StringValue));
    Input(q1, InputOption("age", "What's your age", NumberValue))
  }

  /** Answers by the order in which the prompts are shown. */
  function TwoInputsAnswers(): Prompt
  {
    (count: nat, kind: StepType, option: StepOption) =>
      if count == 0 then Answered(Str("John")) else Answered(Num(30.0))
  }

  /** Two input steps: the input handler is invoked twice, first for "name",
      then for "age", and each answer lands under its own name. */
  lemma TwoInputsScenario()
    ensures var x := Execute(TwoInputsFlow().steps, TwoInputsAnswers());
      x.outcome.Resolved? && x.outcome.record == [("name", Str("John")), ("age", Num(30.0))] &&
      |x.calls| == 2 &&
      x.calls[0] == Call("name", InputStep, InputOption("name", "What's your name", StringValue)) &&
      x.calls[1] == Call("age", InputStep, InputOption("age", "What's your age", NumberValue))
  {
    var steps := TwoInputsFlow().steps;
    var name := InputOption("name", "What's your name", StringValue);
    var age := InputOption("age", "What's your age", NumberValue);
    var q1 := Input(New(), name);
    DeclareNew(New(), Decl(name, InputStep), q1);
    assert Keys(q1.steps) == ["name"];
    var q2 := Input(q1, age);
    DeclareNew(q1, Decl(age, InputStep), q2);
    assert steps == q2.steps;
    var prompt := TwoInputsAnswers();
    ExecuteResolves(steps, prompt);
    ExecuteCallsInOrder(steps, prompt);
    var x := Execute(steps, prompt);
    assert ResponseFor(steps, prompt, 0) == Answered(Str("John"));
    assert ResponseFor(steps, prompt, 1) == Answered(Num(30.0));
    assert x.calls[0] == CallFor(steps, 0);
    assert x.calls[1] == CallFor(steps, 1);
  }

  /** An input declared as a string under "x", then a confirm under the same
      name: the table keeps one entry, the confirm, so the run calls only the
      confirm handler and "x" holds a boolean, although the flow's static
      result type gives "x" the type string. */
  lemma RedeclaredAsConfirm()
    ensures var q := Confirm(Input(New(), InputOption("x", "m", StringValue)), ConfirmOption("x", "m"));
      var x := Execute(q.steps, PizzaAnswers());
      q.steps == [("x", Decl(ConfirmOption("x", "m"), ConfirmStep))] &&
      x.outcome.Resolved? && x.outcome.record == [("x", Bool(true))] &&
      x.calls == [Call("x", ConfirmStep, ConfirmOption("x", "m"))]
  {
    var first := InputOption("x", "m", StringValue);
    var second := ConfirmOption("x", "m");
    var q1 := Input(New(), first);
    DeclareNew(New(), Decl(first, InputStep), q1);
    var q2 := Confirm(q1, second);
    assert Keys(q1.steps)[0] == "x";
    assert q2.steps[0] == ("x", Decl(second, ConfirmStep));
    assert q2.steps == [("x", Decl(second, ConfirmStep))];
    var prompt := PizzaAnswers();
    assert ResponseFor(q2.steps, prompt, 0) == Answered(Bool(true));
    ExecuteResolves(q2.steps, prompt);
    ExecuteCallsInOrder(q2.steps, prompt);
    var x := Execute(q2.steps, prompt);
    assert x.outcome.record[0] == ("x", Bool(true));
    assert x.calls[0] == CallFor(q2.steps, 0);
  }
}
