/** The flow builder. An `Inquire` value holds the step table: the declared
    steps, keyed by name, in declaration order. Each builder operation returns
    a new value and leaves its receiver as it was; `Run` executes the steps
    in table order and collects their answers into a result record. */
module Inquire {
  import opened Records
  import opened Types

  datatype Inquire = Inquire(steps: Record<Decl>)

  /** Every stored tag is the kind its option record is shaped for; the four
      public builder operations keep this, the private `AddStep` alone does
      not promise it. */
  predicate WellTagged(q: Inquire)
  {
    forall i :: 0 <= i < |q.steps| ==> q.steps[i].1.step == KindOf(q.steps[i].1.option)
  }

  /** `r` is `q` with `d` stored under its option's name, by the rule of
      `Stores`. */
  ghost predicate Extends(q: Inquire, d: Decl, r: Inquire)
  {
    Stores(q.steps, d.option.name, d, r.steps)
  }

  /** A new builder: its step table is empty. */
  function New(): (q: Inquire)
    ensures q.steps == [] && WellTagged(q)
  {
    Inquire([])
  }

  /** Storing a declaration whose tag agrees with its option keeps every tag
      of the table in agreement. */
  lemma StoreKeepsTags(q: Inquire, d: Decl, r: Inquire)
    requires Extends(q, d, r)
    ensures WellTagged(q) && d.step == KindOf(d.option) ==> WellTagged(r)
  {
    if WellTagged(q) && d.step == KindOf(d.option) {
      if d.option.name in Keys(q.steps) {
        forall i | 0 <= i < |r.steps| ensures r.steps[i].1.step == KindOf(r.steps[i].1.option) {
          assert r.steps[i] == if q.steps[i].0 == d.option.name then (d.option.name, d) else q.steps[i];
        }
      } else {
        assert r.steps == q.steps + [(d.option.name, d)];
      }
    }
  }

  /** A store keeps the key order, and appends the name when it is new. */
  lemma StoreKeys(q: Inquire, d: Decl, r: Inquire)
    requires Extends(q, d, r)
    ensures d.option.name in Keys(q.steps) ==> Keys(r.steps) == Keys(q.steps)
    ensures d.option.name !in Keys(q.steps) ==> Keys(r.steps) == Keys(q.steps) + [d.option.name]
  {
    if d.option.name !in Keys(q.steps) {
      KeysAppend(q.steps, d.option.name, d);
    }
  }

  /** Stores `step` tagged with `kind` under `step.name` in a new builder. */
  function AddStep(q: Inquire, kind: StepType, step: StepOption): (r: Inquire)
    ensures Extends(q, Decl(step, kind), r)
    ensures Get(r.steps, step.name) == Some(Decl(step, kind))
    ensures ToMap(r.steps) == ToMap(q.steps)[step.name := Decl(step, kind)]
    ensures WellTagged(q) && kind == KindOf(step) ==> WellTagged(r)
  {
    var d := Decl(step, kind);
    GetPut(q.steps, step.name, d, step.name);
    PutIsMapUpdate(q.steps, step.name, d);
    var r := Inquire(Put(q.steps, step.name, d));
    StoreKeepsTags(q, d, r);
    r
  }

  function Input(q: Inquire, option: StepOption): (r: Inquire)
    requires option.InputOption?
    ensures Extends(q, Decl(option, InputStep), r)
    ensures WellTagged(q) ==> WellTagged(r)
  {
    assert KindOf(option) == InputStep;
    AddStep(q, InputStep, option)
  }

  function Select(q: Inquire, option: StepOption): (r: Inquire)
    requires option.SelectOption?
    ensures Extends(q, Decl(option, SelectStep), r)
    ensures WellTagged(q) ==> WellTagged(r)
  {
    assert KindOf(option) == SelectStep;
    AddStep(q, SelectStep, option)
  }

  function Check(q: Inquire, option: StepOption): (r: Inquire)
    requires option.CheckOption?
    ensures Extends(q, Decl(option, CheckStep), r)
    ensures WellTagged(q) ==> WellTagged(r)
  {
    assert KindOf(option) == CheckStep;
    AddStep(q, CheckStep, option)
  }

  function Confirm(q: Inquire, option: StepOption): (r: Inquire)
    requires option.ConfirmOption?
    ensures Extends(q, Decl(option, ConfirmStep), r)
    ensures WellTagged(q) ==> WellTagged(r)
  {
    assert KindOf(option) == ConfirmStep;
    AddStep(q, ConfirmStep, option)
  }

  /** One invocation of a handler's `run()`, as a spy would record it. */
  datatype Call = Call(key: string, handler: StepType, option: StepOption)

  /** What `run` settles with: the result record, or the first rejection. */
  datatype Outcome = Resolved(record: Record<Answer>) | Rejected(reason: string)

  datatype Execution = Execution(outcome: Outcome, calls: seq<Call>)

  /** The call `run` makes for entry `i`: the handler its tag names. */
  function CallFor(steps: seq<(string, Decl)>, i: nat): Call
    requires i < |steps|
  {
    Call(steps[i].0, steps[i].1.step, steps[i].1.option)
  }

  /** The response entry `i` gets, being the `i`-th prompt shown. */
  function ResponseFor(steps: seq<(string, Decl)>, prompt: Prompt, i: nat): Response
    requires i < |steps|
  {
    prompt(i, steps[i].1.step, steps[i].1.option)
  }

  /** Reference semantics of `run`: the steps before the last are run first;
      if they all answered, the last entry's handler is invoked and its
      answer is added under the entry's key, and a rejection ends the run. */
  function Execute(steps: Record<Decl>, prompt: Prompt): (x: Execution)
    ensures x.outcome.Resolved? ==> Keys(x.outcome.record) == Keys(steps)
    decreases |steps|
  {
    if steps == [] then Execution(Resolved([]), [])
    else
      var n := |steps| - 1;
      var prior := Execute(steps[..n], prompt);
      match prior.outcome
      case Rejected(_) => prior
      case Resolved(record) =>
        var call := CallFor(steps, n);
        match ResponseFor(steps, prompt, n)
        case Failed(reason) => Execution(Rejected(reason), prior.calls + [call])
        case Answered(a) =>
          NextKeyIsNew(steps, n, record);
          KeysAppend(record, steps[n].0, a);
          KeysPrefix(steps, n);
          assert Keys(steps) == Keys(steps)[..n] + [steps[n].0];
          Execution(Resolved(record + [(steps[n].0, a)]), prior.calls + [call])
  }

  /** The key of entry `n` is not among the keys of a record holding the
      keys of the entries before it. */
  lemma NextKeyIsNew(steps: Record<Decl>, n: nat, record: Record<Answer>)
    requires n < |steps| && Keys(record) == Keys(steps[..n])
    ensures steps[n].0 !in Keys(record)
    ensures forall j :: 0 <= j < |record| ==> record[j].0 != steps[n].0
  {
    forall j | 0 <= j < |record| ensures record[j].0 != steps[n].0 {
      assert Keys(record)[j] == steps[j].0;
    }
  }

  /** Entry `i` is called and answered alike in a prefix holding it. */
  lemma PrefixAgrees(steps: Record<Decl>, prompt: Prompt, n: nat)
    requires n <= |steps|
    ensures forall i :: 0 <= i < n ==>
      CallFor(steps[..n], i) == CallFor(steps, i) &&
      ResponseFor(steps[..n], prompt, i) == ResponseFor(steps, prompt, i)
  {
  }

  /** One more entry: how the execution of a prefix grows by entry `i`. */
  lemma ExecuteStep(steps: Record<Decl>, prompt: Prompt, i: nat, result: Record<Answer>, calls: seq<Call>)
    requires i < |steps|
    requires Execute(steps[..i], prompt) == Execution(Resolved(result), calls)
    ensures var response := ResponseFor(steps, prompt, i);
      Execute(steps[..i + 1], prompt) ==
        if response.Failed? then Execution(Rejected(response.reason), calls + [CallFor(steps, i)])
        else Execution(Resolved(Put(result, steps[i].0, response.answer)), calls + [CallFor(steps, i)])
  {
    assert steps[..i + 1][..i] == steps[..i];
    NextKeyIsNew(steps, i, result);
  }

  /** Once a prefix of the run has been rejected, the whole run has. */
  lemma {:induction false} ExecuteRejectedPrefix(steps: Record<Decl>, prompt: Prompt, j: nat)
    requires j <= |steps|
    requires Execute(steps[..j], prompt).outcome.Rejected?
    ensures Execute(steps, prompt) == Execute(steps[..j], prompt)
    decreases |steps|
  {
    if j < |steps| {
      var n := |steps| - 1;
      assert steps[..n][..j] == steps[..j];
      ExecuteRejectedPrefix(steps[..n], prompt, j);
    } else {
      assert steps[..j] == steps;
    }
  }

  /** The handlers are invoked in table order, one per entry, each being the
      handler the entry's tag names; no entry is visited twice. */
  lemma {:induction false} ExecuteCallsInOrder(steps: Record<Decl>, prompt: Prompt)
    ensures |Execute(steps, prompt).calls| <= |steps|
    ensures forall i :: 0 <= i < |Execute(steps, prompt).calls| ==>
      Execute(steps, prompt).calls[i] == CallFor(steps, i)
    decreases |steps|
  {
    if steps != [] {
      var n := |steps| - 1;
      ExecuteCallsInOrder(steps[..n], prompt);
      ExecuteResolves(steps[..n], prompt);
      PrefixAgrees(steps, prompt, n);
    }
  }

  /** The run resolves exactly when every entry's handler answers; it then
      has made one call per entry, and its record has the table's keys in
      the table's order, each holding the answer of that entry's handler. */
  lemma {:induction false} ExecuteResolves(steps: Record<Decl>, prompt: Prompt)
    ensures Execute(steps, prompt).outcome.Resolved? <==>
      forall i :: 0 <= i < |steps| ==> ResponseFor(steps, prompt, i).Answered?
    ensures Execute(steps, prompt).outcome.Resolved? ==>
      var record := Execute(steps, prompt).outcome.record;
      |Execute(steps, prompt).calls| == |steps| && |record| == |steps| &&
      forall i :: 0 <= i < |steps| ==>
        record[i] == (steps[i].0, ResponseFor(steps, prompt, i).answer)
    decreases |steps|
  {
    if steps != [] {
      var n := |steps| - 1;
      ExecuteResolves(steps[..n], prompt);
      PrefixAgrees(steps, prompt, n);
    }
  }

  /** A rejection ends the run: the last call made is the one whose handler
      rejected, with that very reason, every earlier handler answered, and
      no later entry's handler is invoked. */
  lemma {:induction false} ExecuteStopsAtFailure(steps: Record<Decl>, prompt: Prompt)
    ensures Execute(steps, prompt).outcome.Rejected? ==>
      var x := Execute(steps, prompt);
      var k := |x.calls| - 1;
      0 <= k < |steps| &&
      ResponseFor(steps, prompt, k) == Failed(x.outcome.reason) &&
      forall j :: 0 <= j < k ==> ResponseFor(steps, prompt, j).Answered?
    decreases |steps|
  {
    if steps != [] {
      var n := |steps| - 1;
      ExecuteStopsAtFailure(steps[..n], prompt);
      ExecuteResolves(steps[..n], prompt);
      PrefixAgrees(steps, prompt, n);
    }
  }

  /** When the tags agree with the option shapes and every handler keeps its
      result type, a resolved record has the table's keys and each key holds
      an answer fitting the declaration stored under it, which for a
      redeclared name is the last one. */
  lemma ExecuteFits(q: Inquire, prompt: Prompt)
    requires WellTagged(q)
    requires forall i :: 0 <= i < |q.steps| ==> Honest(prompt, i, q.steps[i].1.option)
    ensures Execute(q.steps, prompt).outcome.Resolved? ==>
      var record := Execute(q.steps, prompt).outcome.record;
      Keys(record) == Keys(q.steps) &&
      forall i :: 0 <= i < |q.steps| ==> AnswerFits(q.steps[i].1.option, record[i].1)
  {
    ExecuteResolves(q.steps, prompt);
  }

  /** Running a new builder prompts nothing and resolves with an empty record. */
  lemma RunNew(prompt: Prompt)
    ensures Execute(New().steps, prompt) == Execution(Resolved([]), [])
  {
  }

  /** Declaring a second step under a name already used replaces the first
      declaration in place: the key order is that of the first declaration,
      and the only handler that can run under that name is the second
      declaration's. */
  lemma LastDeclarationWins(q: Inquire, kind1: StepType, first: StepOption,
                            kind2: StepType, second: StepOption, prompt: Prompt)
    requires first.name == second.name
    ensures var q1 := AddStep(q, kind1, first);
      var q2 := AddStep(q1, kind2, second);
      Keys(q2.steps) == Keys(q1.steps) &&
      (forall c :: c in Execute(q2.steps, prompt).calls && c.key == second.name ==>
         c == Call(second.name, kind2, second))
  {
    var q1 := AddStep(q, kind1, first);
    var q2 := AddStep(q1, kind2, second);
    StoreKeys(q, Decl(first, kind1), q1);
    StoreKeys(q1, Decl(second, kind2), q2);
    var x := Execute(q2.steps, prompt);
    ExecuteCallsInOrder(q2.steps, prompt);
    forall c | c in x.calls && c.key == second.name
      ensures c == Call(second.name, kind2, second)
    {
      var i :| 0 <= i < |x.calls| && x.calls[i] == c;
      assert c == CallFor(q2.steps, i);
    }
  }

  /** `run`: walks the table in order; for each entry the four tag tests
      each may invoke one handler, whose answer is stored under the entry's
      key in a fresh record. A rejection propagates at once. */
  method Run(q: Inquire, prompt: Prompt) returns (outcome: Outcome, calls: seq<Call>)
    ensures Execution(outcome, calls) == Execute(q.steps, prompt)
  {
    var result: Record<Answer> := [];
    calls := [];
    var i := 0;
    while i < |q.steps|
      invariant 0 <= i <= |q.steps| && |calls| == i
      invariant Execute(q.steps[..i], prompt) == Execution(Resolved(result), calls)
    {
      var (key, option) := q.steps[i];
      ExecuteStep(q.steps, prompt, i, result, calls);
      TagInjective(option.step, InputStep);
      TagInjective(option.step, SelectStep);
      TagInjective(option.step, CheckStep);
      TagInjective(option.step, ConfirmStep);
      if Tag(option.step) == "input" {
        var response := prompt(|calls|, InputStep, option.option);
        calls := calls + [Call(key, InputStep, option.option)];
        if response.Failed? {
          outcome := Rejected(response.reason);
          ExecuteRejectedPrefix(q.steps, prompt, i + 1);
          return;
        }
        result := Put(result, key, response.answer);
      }
      if Tag(option.step) == "select" {
        var response := prompt(|calls|, SelectStep, option.option);
        calls := calls + [Call(key, SelectStep, option.option)];
        if response.Failed? {
          outcome := Rejected(response.reason);
          ExecuteRejectedPrefix(q.steps, prompt, i + 1);
          return;
        }
        result := Put(result, key, response.answer);
      }
      if Tag(option.step) == "check" {
        var response := prompt(|calls|, CheckStep, option.option);
        calls := calls + [Call(key, CheckStep, option.option)];
        if response.Failed? {
          outcome := Rejected(response.reason);
          ExecuteRejectedPrefix(q.steps, prompt, i + 1);
          return;
        }
        result := Put(result, key, response.answer);
      }
      if Tag(option.step) == "confirm" {
        var response := prompt(|calls|, ConfirmStep, option.option);
        calls := calls + [Call(key, ConfirmStep, option.option)];
        if response.Failed? {
          outcome := Rejected(response.reason);
          ExecuteRejectedPrefix(q.steps, prompt, i + 1);
          return;
        }
        result := Put(result, key, response.answer);
      }
      i := i + 1;
    }
    assert q.steps[..i] == q.steps;
    outcome := Resolved(result);
  }
}
