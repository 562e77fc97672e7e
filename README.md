# inquire: a verified model of the flow builder

`inquire` is a small TypeScript library for chaining interactive command-line
prompts. A caller builds a flow with `input`, `select`, `check` and `confirm`.
Each call stores a named step declaration and returns a new `Inquire`
instance. `run()` then prompts for every step in declaration order and
collects the answers into one record keyed by step name.

This project models that core in Dafny:

- `records.dfy` (module `Records`): a plain string-keyed object, seen as
  an insertion-ordered record. It is a sequence of `(key, value)` entries
  whose keys are distinct. `Put` gives the semantics of both the object
  spread `{...obj, [k]: v}` and the assignment `obj[k] = v`: an existing key
  keeps its position and takes the new value, and a new key is appended.
  `ToMap` is the dictionary the record stands for.
- `types.dfy` (module `Types`): the step-kind tag `StepType` with its four
  strings, the option record `StepOption` (every kind carries a `name` and a
  `message`), the stored declaration `Decl` (the option plus its `step` tag),
  answers, and `AnswerFits`, the kind-to-answer-type mapping of
  `InferStepResultType`. It also holds the external prompting collaborator,
  a parameter `Prompt`. Given the number of prompts already shown, the
  handler kind and the option, it returns an answer or a rejection.
- `inquire.dfy` (module `Inquire`): the builder. The source only ever writes
  the `steps` field of a freshly constructed instance, so an `Inquire` is a
  value, and "the receiver is not changed" holds by construction. `AddStep`
  and the four public operations are functions. `Run` is a method with the
  source's loop and its four independent tag tests. It returns the outcome
  and the sequence of handler calls it made (what the tests' spies observe).
  Its contract equates both with `Execute`, a recursive reference semantics.
  The lemmas about `Execute` state call order, dispatch by tag, the result's
  keys and values, short-circuiting on rejection, and that each answer fits
  the declaration stored under its key.
- `scenarios.dfy` (module `Scenarios`): the two functional tests of the
  test suite, with scripted prompt responses, and a flow that redeclares a
  name with another kind.

Points of the source's behaviour the model follows:
- The builder operations take one option object (`name`, `message` and the
  kind's parameters), not separate arguments.
- A redeclared name keeps its original position.
- Empty `choices` or `values` are accepted.
- The result type of a number answer adds no finiteness requirement;
  infinities are outside `real` (see "## Left out").

## Model

| member | source | states |
|---|---|---|
| `Records.Put` | src/core/inquire.ts:101-104 | storing under a new key appends the entry after all others; storing under an existing key keeps the length and that key's position, replaces only its value, and leaves every other entry unchanged |
| `Records.GetPut` | src/core/inquire.ts:101-104 | after a store, looking up the key gives the stored value and looking up any other key gives what it gave before |
| `Records.PutIsMapUpdate` | src/core/inquire.ts:101-104 | seen as a dictionary, a store is map update: the last write under a name wins |
| `Types.Tag` | src/core/types.ts:29 | the string stored as a step's tag is one of the four literals "input", "select", "confirm" and "check" of the `StepType` union |
| `Types.TagInjective` | src/core/inquire.ts:120-131 | two kinds have equal tag strings only if they are the same kind, so the string tests in `run` pick one kind |
| `Types.AnswerFits` | src/core/types.ts:37-46 | defines the result type of each option kind as an answer shape: a string input gives a string, a number input a number, a select one of its choices, a check an array of its values, a confirm a boolean |
| `Types.Honest` | src/core/types.ts:26 | defines the promise of a handler's `run()`: when the prompt for an option, under the option's own kind, answers, the answer fits that option's result type |
| `Types.AnswerFitsInhabited` | src/core/types.ts:37-46 | every option kind has an answer of its result type, except a select with no choices, whose result type is empty |
| `Inquire.New` | src/core/inquire.ts:39 | a new builder has an empty step table, and all of its tags agree with their options |
| `Records.Stores` | src/core/inquire.ts:101-104 | defines the positional rule of a store: a new key is appended after all others; an existing key keeps its position and takes the new value, and every other entry stays as it was |
| `Inquire.StoreKeepsTags` | src/core/inquire.ts:101-104 | storing a declaration whose tag agrees with its option keeps every tag of the table in agreement with its option |
| `Inquire.StoreKeys` | src/core/inquire.ts:101-104 | a store under an existing name leaves the key order as it was; under a new name it appends the name after all other keys |
| `Inquire.AddStep` | src/core/inquire.ts:97-110 | the new builder's table is the old one with the option, tagged with the given kind, stored under the option's name by the positional rule of `Stores`; a lookup of the name gives that declaration; as a dictionary it is the old table updated at the name; when the kind is the option's own kind, tag agreement is kept |
| `Inquire.Input` | src/core/inquire.ts:47-51 | stores the input option under its name, tagged input, with the positional rules above; keeps every tag in agreement with its option |
| `Inquire.Select` | src/core/inquire.ts:59-63 | stores the select option under its name, tagged select, with the positional rules above; keeps every tag in agreement with its option |
| `Inquire.Check` | src/core/inquire.ts:71-75 | stores the check option under its name, tagged check, with the positional rules above; keeps every tag in agreement with its option |
| `Inquire.Confirm` | src/core/inquire.ts:83-87 | stores the confirm option under its name, tagged confirm, with the positional rules above; keeps every tag in agreement with its option |
| `Inquire.Execute` | src/core/inquire.ts:117-135 | the reference semantics of a run; a resolved run's record has exactly the table's keys, in the table's order |
| `Inquire.Run` | src/core/inquire.ts:117-135 | the loop with its four tag tests returns the outcome and the call sequence of the reference semantics |
| `Inquire.ExecuteCallsInOrder` | src/core/inquire.ts:119-131 | the handlers are called in table order, at most one call per entry: the i-th call is for the i-th entry, with the handler that entry's tag names and that entry's option |
| `Inquire.ExecuteResolves` | src/core/inquire.ts:118-134 | the run resolves exactly when every entry's handler answers; then there is one call per entry, and the record's i-th entry is the i-th key with the answer of that entry's handler |
| `Inquire.ExecuteStopsAtFailure` | src/core/inquire.ts:119-132 | when the run is rejected, the last call made is the one whose handler rejected, the run is rejected with that same reason, every earlier handler answered, and no later entry is called |
| `Inquire.ExecuteRejectedPrefix` | src/core/inquire.ts:119-132 | once the run of a prefix of the table is rejected, the run of the whole table is that same rejection with the same calls |
| `Inquire.ExecuteFits` | src/core/inquire.ts:117-134 | if all tags agree with their options and every handler answers with its declared result type, a resolved record has the table's keys and each key holds an answer fitting the declaration stored under it (for a redeclared name, the last one) |
| `Inquire.RunNew` | src/core/inquire.ts:117-135 | running a new builder makes no call and resolves with an empty record |
| `Inquire.LastDeclarationWins` | src/core/inquire.ts:101-104 | redeclaring a name keeps the key order of the first declaration, and any call made under that name is the second declaration's handler with the second option |
| `Scenarios.DeclareNew` | src/core/inquire.ts:101-104 | declaring a step under a name not yet in the table appends it, and its name becomes the last key |
| `Scenarios.FourDistinct` | src/core/inquire.ts:47-87 | one input, select, check and confirm step under four distinct names give a table of the four declarations in declaration order, each tagged with its own kind |
| `Scenarios.PizzaFlowSteps` | test/inquire.test.ts:113-128 | the four-step flow stores its declarations in declaration order, each with its own tag |
| `Scenarios.PizzaRun` | test/inquire.test.ts:97-111 | running that table with each handler mocked to a fixed answer resolves with each answer under its step's name, after one call per handler in declaration order |
| `Scenarios.PizzaScenario` | test/inquire.test.ts:96-143 | with one step per kind, each handler is called once, in declaration order, and the record is name "John", job "worker", pizza ["cheese", "pepperoni"], confirm true |
| `Scenarios.TwoInputsScenario` | test/inquire.test.ts:145-162 | with two input steps, the input handler is called twice, for "name" then "age", and the record is name "John", age 30 |
| `Scenarios.RedeclaredAsConfirm` | src/core/inquire.ts:97-110 | a string input under "x" followed by a confirm under "x" leaves one entry, the confirm; the run calls only the confirm handler and "x" holds a boolean |

## Left out

- Terminal prompting (src/steps/input.ts, select.ts, check.ts, confirm.ts): every handler's `run()` delegates to a prompting library that is not part of this model. It is the `Prompt` parameter, and `Honest` states the result-type promise of `Step.run()`.
- The mapping of `choices` and `values` to `{name, value}` pairs in select.ts and check.ts: it only feeds the prompting library.
- The numeric validator and `Number()` coercion of a number input (src/steps/input.ts:36-43): they use floating-point and string-coercion rules (the validator accepts "" and "Infinity"). A number answer is an opaque `real`. NaN and infinities are not modelled.
- The branch of `InputStep.run` for a value type that is neither string nor number (src/steps/input.ts:46) cannot arise, because `InputValueType` has only the two values.
- Promises and `await`: `run` is a sequential loop. Running no two steps at once is built into that loop.
- ExecuteFits: states that each answer fits the declaration stored under its key, not that the record has the static type `InquireResults<T>` the cast at src/core/inquire.ts:134 claims. That static type is built from the intersection `T & { [key in K]: U }` (src/core/inquire.ts:49, 61, 73, 85), so for a name redeclared with another kind it is the first branch of `InferStepResultType` the intersection matches, not the last declaration's type. There the cast is unsound: after a string input and then a confirm under "x", the static type of "x" is string while the value is a boolean (`RedeclaredAsConfirm`). The static types are not modelled.
- The compile-time accumulation of the result type (src/core/inquire.ts:28-30, 36-49) and the type-inference tests (test/inquire.test.ts:9-93): only their runtime content is kept, as `AnswerFits` and the result-type lemma `ExecuteFits`.
- The iteration order of `Object.entries`: keys that look like array indices ("0", "1", ...) come first, in numeric order. The model iterates every key in insertion order, so it ignores that quirk.
- `result["__proto__"] = ...` would set the result's prototype, not add an own key. The model treats that name like any other.
- Structural typing: an option object with extra properties keeps them in the stored declaration. The model's option records have only their declared fields.
