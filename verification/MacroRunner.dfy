/**
The sequential interpreter of macro steps (internal/macro/runner.go, Run, and the argument checks of
internal/macro/steps.go). What a step meets outside is an input: for each step number and action, a
value or an error.
*/
module MacroRunner {
  import opened Wrappers
  import opened Template

  // The four cases of a step's `internal` field.
  datatype Kind = Extension | ReadFile | Journalctl | Unknown(name: string)

  datatype Step = Step(kind: Kind, id: string, args: map<string, Value>)

  datatype Action =
    | CallExtension(name: string, tool: string, params: map<string, Value>)
    | ReadLog(path: string, args: map<string, Value>)
    | ReadJournal(args: map<string, Value>)

  datatype Reason = NoExtensions | NoName | NoTool | NoPath | UnknownKind

  // hasExtensions: a dispatcher is there. describe gives the text of an error of the runner's own.
  datatype Setting = Setting(params: map<string, string>, encode: Value -> string, hasExtensions: bool,
                             describe: (Step, Reason) -> string, world: (nat, Action) -> Result<Value>)

  datatype Plan = Do(action: Action) | Refuse(reason: Reason)

  // asked: what was done outside, in order.
  datatype Outcome = Outcome(results: map<string, Value>, failed: Option<nat>, asked: seq<Action>)

  function TextArg(args: map<string, Value>, key: string): string {
    if key in args && args[key].Str? then args[key].text else ""
  }

  // What the step will do, once its arguments are filled in, or why it cannot start.
  function Planned(step: Step, env: Env, hasExtensions: bool): Plan {
    var args := InterpolatedArgs(step.args, env);
    match step.kind
    case Extension =>
      if !hasExtensions then Refuse(NoExtensions)
      else if TextArg(args, "name") == "" then Refuse(NoName)
      else if TextArg(args, "tool") == "" then Refuse(NoTool)
      else Do(CallExtension(TextArg(args, "name"), TextArg(args, "tool"), args - {"name", "tool"}))
    case ReadFile => if TextArg(args, "path") == "" then Refuse(NoPath) else Do(ReadLog(TextArg(args, "path"), args))
    case Journalctl => Do(ReadJournal(args))
    case Unknown(_) => Refuse(UnknownKind)
  }

  function ErrorEntry(message: string): Value { Obj(map["error" := Str(message)]) }

  function EnvOf(g: Setting, results: map<string, Value>): Env { Env(g.params, results, g.encode) }

  function Answer(g: Setting, step: Step, i: nat, plan: Plan): Result<Value> {
    match plan
    case Do(action) => g.world(i, action)
    case Refuse(reason) => Err(g.describe(step, reason))
  }

  function Performed(o: Outcome, g: Setting, step: Step, i: nat): Outcome {
    Noted(o, g, step, i, Planned(step, EnvOf(g, o.results), g.hasExtensions))
  }

  function Noted(o: Outcome, g: Setting, step: Step, i: nat, plan: Plan): Outcome {
    var asked := if plan.Do? then o.asked + [plan.action] else o.asked;
    match Answer(g, step, i, plan)
    case Ok(v) => Outcome(o.results[step.id := v], None, asked)
    case Err(message) => Outcome(o.results[step.id := ErrorEntry(message)], Some(i), asked)
  }

  // The first n steps, stopping at the first that fails.
  function After(steps: seq<Step>, g: Setting, n: nat): Outcome
    requires n <= |steps|
  {
    if n == 0 then Outcome(map[], None, [])
    else
      var o := After(steps, g, n - 1);
      if o.failed.Some? then o else Performed(o, g, steps[n - 1], n - 1)
  }

  lemma {:induction false} FailureStays(steps: seq<Step>, g: Setting, n: nat, m: nat)
    requires n <= m <= |steps| && After(steps, g, n).failed.Some?
    ensures After(steps, g, m) == After(steps, g, n)
    decreases m
  {
    if n < m { FailureStays(steps, g, n, m - 1); }
  }

  // ---- what a run does, from the actions it asked for

  // The results before step i: what the steps before it were answered, the last one with an ID winning.
  function ResultsOf(steps: seq<Step>, g: Setting, asked: seq<Action>, i: nat): map<string, Value>
    requires i <= |steps| && i <= |asked|
  {
    if i == 0 then map[] else
    match g.world(i - 1, asked[i - 1])
    case Ok(v) => ResultsOf(steps, g, asked, i - 1)[steps[i - 1].id := v]
    case Err(_) => ResultsOf(steps, g, asked, i - 1)
  }

  // The strings among the arguments with their leftmost placeholders filled in once, everything else as it is.
  ghost predicate AreFilled(args: map<string, Value>, env: Env, filled: map<string, Value>) {
    filled.Keys == args.Keys && forall k :: k in args ==> IsFilled(args[k], env, filled[k])
  }

  ghost predicate IsFilled(v: Value, env: Env, filled: Value) {
    if v.Str?
    then filled.Str? && exists holes ::
      Leftmost(v.text, 0, holes) && filled.text == Woven(v.text, 0, holes, Values(env))
    else filled == v
  }

  predicate HasText(args: map<string, Value>, key: string, text: string) {
    text != "" && key in args && args[key] == Str(text)
  }

  predicate HasNoText(args: map<string, Value>, key: string) {
    key !in args || !args[key].Str? || args[key].text == ""
  }

  // The action is what the step is for, on its filled arguments.
  ghost predicate IsActionOf(step: Step, env: Env, hasExtensions: bool, action: Action) {
    exists args :: AreFilled(step.args, env, args) && Takes(step.kind, hasExtensions, args, action)
  }

  predicate Takes(kind: Kind, hasExtensions: bool, args: map<string, Value>, action: Action) {
    match action
    case CallExtension(name, tool, params) =>
      kind.Extension? && hasExtensions && HasText(args, "name", name) && HasText(args, "tool", tool) &&
      params == args - {"name", "tool"}
    case ReadLog(path, all) => kind.ReadFile? && HasText(args, "path", path) && all == args
    case ReadJournal(all) => kind.Journalctl? && all == args
  }

  // The step cannot start, for this reason.
  ghost predicate IsRefusalOf(step: Step, env: Env, hasExtensions: bool, reason: Reason) {
    exists args :: AreFilled(step.args, env, args) && Lacks(step.kind, hasExtensions, args, reason)
  }

  predicate Lacks(kind: Kind, hasExtensions: bool, args: map<string, Value>, reason: Reason) {
    match reason
    case NoExtensions => kind.Extension? && !hasExtensions
    case NoName => kind.Extension? && hasExtensions && HasNoText(args, "name")
    case NoTool => kind.Extension? && hasExtensions && !HasNoText(args, "name") && HasNoText(args, "tool")
    case NoPath => kind.ReadFile? && HasNoText(args, "path")
    case UnknownKind => kind.Unknown?
  }

  ghost predicate AskedRight(steps: seq<Step>, g: Setting, asked: seq<Action>, i: nat)
    requires i < |steps| && i < |asked|
  {
    IsActionOf(steps[i], Env(g.params, ResultsOf(steps, g, asked, i), g.encode), g.hasExtensions, asked[i])
  }

  // Step f failed with this message: by what it was answered, or because it could not start.
  ghost predicate FailedWith(steps: seq<Step>, g: Setting, asked: seq<Action>, f: nat, message: string)
    requires f < |steps| && f <= |asked|
  {
    if |asked| > f then g.world(f, asked[f]) == Err(message)
    else exists reason ::
           IsRefusalOf(steps[f], Env(g.params, ResultsOf(steps, g, asked, f), g.encode), g.hasExtensions, reason) &&
           message == g.describe(steps[f], reason)
  }

  ghost predicate AllAskedRight(steps: seq<Step>, g: Setting, asked: seq<Action>)
    requires |asked| <= |steps|
  {
    forall i: nat :: i < |asked| ==> AskedRight(steps, g, asked, i)
  }

  ghost predicate AllAnswered(g: Setting, asked: seq<Action>, n: nat)
    requires n <= |asked|
  {
    forall i: nat :: i < n ==> g.world(i, asked[i]).Ok?
  }

  // n steps were carried out on their filled arguments, each under the results before it, and answered well.
  ghost predicate WentWell(steps: seq<Step>, g: Setting, n: nat, result: map<string, Value>, asked: seq<Action>) {
    && n <= |steps| && |asked| == n && AllAskedRight(steps, g, asked) && AllAnswered(g, asked, n)
    && result == ResultsOf(steps, g, asked, n)
  }

  // So were the steps before f; step f is the one that failed, and its entry is the error.
  ghost predicate FailedAt(steps: seq<Step>, g: Setting, f: nat, message: string, result: map<string, Value>,
                           asked: seq<Action>)
  {
    && f < |steps| && f <= |asked| <= f + 1 && AllAskedRight(steps, g, asked) && AllAnswered(g, asked, f)
    && FailedWith(steps, g, asked, f, message)
    && result == ResultsOf(steps, g, asked, f)[steps[f].id := Obj(map["error" := Str(message)])]
  }

  ghost predicate IsRun(steps: seq<Step>, g: Setting, n: nat, result: map<string, Value>, failed: Option<nat>,
                        asked: seq<Action>)
  {
    match failed
    case None => WentWell(steps, g, n, result, asked)
    case Some(f) => f < n <= |steps| && exists message :: FailedAt(steps, g, f, message, result, asked)
  }

  lemma InterpolatedIsFilled(v: Value, env: Env)
    ensures IsFilled(v, env, InterpolatedArg(v, env))
  {
    if v.Str? {
      HolesAreLeftmost(v.text, 0);
      InterpolationIsExact(v.text, env, HolesFrom(v.text, 0));
    }
  }

  lemma InterpolatedAreFilled(args: map<string, Value>, env: Env)
    ensures AreFilled(args, env, InterpolatedArgs(args, env))
  {
    forall k | k in args
      ensures IsFilled(args[k], env, InterpolatedArgs(args, env)[k])
    {
      InterpolatedIsFilled(args[k], env);
    }
  }

  lemma PlannedRight(step: Step, env: Env, hasExtensions: bool)
    ensures match Planned(step, env, hasExtensions)
            case Do(action) => IsActionOf(step, env, hasExtensions, action)
            case Refuse(reason) => IsRefusalOf(step, env, hasExtensions, reason)
  {
    InterpolatedAreFilled(step.args, env);
  }

  lemma {:induction false} ResultsStay(steps: seq<Step>, g: Setting, asked: seq<Action>, more: seq<Action>, i: nat)
    requires i <= |steps| && i <= |asked| && asked <= more
    ensures ResultsOf(steps, g, asked, i) == ResultsOf(steps, g, more, i)
  {
    if i > 0 { ResultsStay(steps, g, asked, more, i - 1); }
  }

  lemma AskedStaysRight(steps: seq<Step>, g: Setting, asked: seq<Action>, more: seq<Action>, i: nat)
    requires i < |steps| && i < |asked| && asked <= more && AskedRight(steps, g, asked, i)
    ensures AskedRight(steps, g, more, i)
  {
    ResultsStay(steps, g, asked, more, i);
  }

  lemma OneMoreAsked(steps: seq<Step>, g: Setting, n: nat, asked: seq<Action>, action: Action)
    requires n < |steps| && n == |asked| && AllAskedRight(steps, g, asked)
    requires IsActionOf(steps[n], Env(g.params, ResultsOf(steps, g, asked, n), g.encode), g.hasExtensions, action)
    ensures AllAskedRight(steps, g, asked + [action])
    ensures ResultsOf(steps, g, asked + [action], n) == ResultsOf(steps, g, asked, n)
  {
    var more := asked + [action];
    ResultsStay(steps, g, asked, more, n);
    forall i: nat | i < n
      ensures AskedRight(steps, g, more, i)
    {
      AskedStaysRight(steps, g, asked, more, i);
    }
  }

  lemma OneMoreAnswered(g: Setting, n: nat, asked: seq<Action>, action: Action)
    requires n == |asked| && AllAnswered(g, asked, n)
    ensures AllAnswered(g, asked + [action], n)
    ensures g.world(n, action).Ok? ==> AllAnswered(g, asked + [action], n + 1)
  {
  }

  // One step more, once n have succeeded: it is answered well, it is answered with an error, or it cannot start.
  lemma NextSucceeds(steps: seq<Step>, g: Setting, n: nat, r: map<string, Value>, asked: seq<Action>,
                     action: Action, v: Value)
    requires n < |steps| && WentWell(steps, g, n, r, asked)
    requires IsActionOf(steps[n], Env(g.params, r, g.encode), g.hasExtensions, action) && g.world(n, action) == Ok(v)
    ensures WentWell(steps, g, n + 1, r[steps[n].id := v], asked + [action])
  {
    OneMoreAsked(steps, g, n, asked, action);
    OneMoreAnswered(g, n, asked, action);
  }

  lemma NextFails(steps: seq<Step>, g: Setting, n: nat, r: map<string, Value>, asked: seq<Action>,
                  action: Action, message: string)
    requires n < |steps| && WentWell(steps, g, n, r, asked)
    requires IsActionOf(steps[n], Env(g.params, r, g.encode), g.hasExtensions, action)
    requires g.world(n, action) == Err(message)
    ensures var entry := Obj(map["error" := Str(message)]);
            FailedAt(steps, g, n, message, r[steps[n].id := entry], asked + [action])
  {
    OneMoreAsked(steps, g, n, asked, action);
    OneMoreAnswered(g, n, asked, action);
  }

  lemma NextRefused(steps: seq<Step>, g: Setting, n: nat, r: map<string, Value>, asked: seq<Action>, reason: Reason)
    requires n < |steps| && WentWell(steps, g, n, r, asked)
    requires IsRefusalOf(steps[n], Env(g.params, r, g.encode), g.hasExtensions, reason)
    ensures var message := g.describe(steps[n], reason);
            FailedAt(steps, g, n, message, r[steps[n].id := Obj(map["error" := Str(message)])], asked)
  {
  }

  lemma NextIsRun(steps: seq<Step>, g: Setting, n: nat, o: Outcome)
    requires n < |steps| && o.failed.None? && WentWell(steps, g, n, o.results, o.asked)
    ensures var p := Performed(o, g, steps[n], n); IsRun(steps, g, n + 1, p.results, p.failed, p.asked)
  {
    var env := Env(g.params, o.results, g.encode);
    PlannedRight(steps[n], env, g.hasExtensions);
    match Planned(steps[n], env, g.hasExtensions)
    case Do(action) =>
      if g.world(n, action).Ok? {
        NextSucceeds(steps, g, n, o.results, o.asked, action, g.world(n, action).value);
      } else {
        NextFails(steps, g, n, o.results, o.asked, action, g.world(n, action).message);
      }
    case Refuse(reason) => NextRefused(steps, g, n, o.results, o.asked, reason);
  }

  // What After says of the first n steps.
  ghost predicate FirstAreRun(steps: seq<Step>, g: Setting, n: nat)
    requires n <= |steps|
  {
    var o := After(steps, g, n);
    IsRun(steps, g, n, o.results, o.failed, o.asked)
  }

  lemma OneMoreIsRun(steps: seq<Step>, g: Setting, n: nat)
    requires n < |steps| && FirstAreRun(steps, g, n)
    ensures FirstAreRun(steps, g, n + 1)
  {
    var o := After(steps, g, n);
    if o.failed.None? { NextIsRun(steps, g, n, o); }
  }

  // The run does with every step what the step says, in order, until one fails.
  lemma {:induction false} AfterIsRun(steps: seq<Step>, g: Setting, n: nat)
    requires n <= |steps|
    ensures FirstAreRun(steps, g, n)
  {
    if n > 0 {
      AfterIsRun(steps, g, n - 1);
      OneMoreIsRun(steps, g, n - 1);
    }
  }

  method Run(steps: seq<Step>, g: Setting)
    returns (result: map<string, Value>, failed: Option<nat>, ghost asked: seq<Action>)
    ensures var o := After(steps, g, |steps|);
            result == o.results && failed == o.failed
    ensures asked == After(steps, g, |steps|).asked
    ensures IsRun(steps, g, |steps|, result, failed, asked)
  {
    result, failed, asked := map[], None, [];
    for i := 0 to |steps|
      invariant Outcome(result, None, asked) == After(steps, g, i) && failed == None
    {
      var step := steps[i];
      var plan := Planned(step, EnvOf(g, result), g.hasExtensions);
      var out := Answer(g, step, i, plan);
      if plan.Do? {
        asked := asked + [plan.action];
      }
      if out.Err? {
        result := result[step.id := ErrorEntry(out.message)];
        failed := Some(i);
        FailureStays(steps, g, i + 1, |steps|);
        AfterIsRun(steps, g, |steps|);
        return;
      }
      result := result[step.id := out.value];
    }
    AfterIsRun(steps, g, |steps|);
  }

  // ---- what a run leaves

  // The number of steps that were taken up.
  function Reached(o: Outcome, n: nat): nat { if o.failed.Some? then o.failed.value + 1 else n }

  function Ids(steps: seq<Step>, n: nat): set<string>
    requires n <= |steps|
  {
    set i | 0 <= i < n :: steps[i].id
  }

  ghost predicate ErrorAt(o: Outcome, id: string) {
    id in o.results && exists message :: o.results[id] == ErrorEntry(message)
  }

  lemma PerformedAdds(o: Outcome, g: Setting, step: Step, i: nat)
    ensures var p := Performed(o, g, step, i);
            && p.results.Keys == o.results.Keys + {step.id}
            && (p.failed.Some? ==> p.failed.value == i && ErrorAt(p, step.id))
  {
    var plan := Planned(step, EnvOf(g, o.results), g.hasExtensions);
    var answer := Answer(g, step, i, plan);
    if answer.Err? {
      assert Performed(o, g, step, i).results[step.id] == ErrorEntry(answer.message);
    }
  }

  lemma IdsStep(steps: seq<Step>, n: nat)
    requires n < |steps|
    ensures Ids(steps, n + 1) == Ids(steps, n) + {steps[n].id}
  {
  }

  // The keys of the result are the IDs of the steps taken up, and a failing step's entry is its error.
  ghost predicate KeysMatch(steps: seq<Step>, o: Outcome, n: nat) {
    && Reached(o, n) <= n <= |steps| && o.results.Keys == Ids(steps, Reached(o, n))
    && (o.failed.Some? ==> ErrorAt(o, steps[o.failed.value].id))
  }

  lemma OneMoreKey(steps: seq<Step>, g: Setting, o: Outcome, n: nat)
    requires n < |steps| && KeysMatch(steps, o, n)
    ensures KeysMatch(steps, if o.failed.Some? then o else Performed(o, g, steps[n], n), n + 1)
  {
    if o.failed.None? {
      IdsStep(steps, n);
      PerformedAdds(o, g, steps[n], n);
    }
  }

  // The keys are the IDs of the steps up to and including the first that fails, no others; the failing
  // step's entry holds its error.
  lemma {:induction false} KeysAreIds(steps: seq<Step>, g: Setting, n: nat)
    requires n <= |steps|
    ensures KeysMatch(steps, After(steps, g, n), n)
  {
    if n > 0 {
      KeysAreIds(steps, g, n - 1);
      OneMoreKey(steps, g, After(steps, g, n - 1), n - 1);
    }
  }

  // Step i did not fail: it did what its arguments said under the results before it.
  ghost predicate Succeeded(steps: seq<Step>, g: Setting, i: nat, asked: seq<Action>)
    requires i < |steps|
  {
    && i < |asked|
    && Planned(steps[i], EnvOf(g, After(steps, g, i).results), g.hasExtensions) == Do(asked[i])
    && g.world(i, asked[i]).Ok?
  }

  // The steps that succeeded, and what was asked of the world for them.
  ghost predicate InOrder(steps: seq<Step>, g: Setting, o: Outcome, n: nat) {
    var done := if o.failed.Some? then o.failed.value else n;
    && done <= n <= |steps| && done <= |o.asked| <= Reached(o, n)
    && AllSucceeded(steps, g, done, o.asked)
  }

  ghost predicate AllSucceeded(steps: seq<Step>, g: Setting, done: nat, asked: seq<Action>)
    requires done <= |steps|
  {
    forall i: nat :: i < done ==> Succeeded(steps, g, i, asked)
  }

  ghost predicate RunInOrder(steps: seq<Step>, g: Setting, n: nat)
    requires n <= |steps|
  {
    InOrder(steps, g, After(steps, g, n), n)
  }

  lemma OneMoreInOrder(steps: seq<Step>, g: Setting, n: nat)
    requires n < |steps| && RunInOrder(steps, g, n)
    ensures RunInOrder(steps, g, n + 1)
  {
    var before := After(steps, g, n);
    if before.failed.Some? { return; }
    var o := Performed(before, g, steps[n], n);
    AskedMore(before, g, steps[n], n);
    SucceededStay(steps, g, n, before.asked, o.asked);
    if o.failed.None? { assert Succeeded(steps, g, n, o.asked); }
  }

  lemma SucceededStay(steps: seq<Step>, g: Setting, n: nat, asked: seq<Action>, more: seq<Action>)
    requires n <= |steps| && AllSucceeded(steps, g, n, asked) && asked <= more
    ensures AllSucceeded(steps, g, n, more)
  {
    forall i: nat | i < n
      ensures Succeeded(steps, g, i, more)
    {
      assert Succeeded(steps, g, i, asked);
    }
  }

  lemma AskedMore(o: Outcome, g: Setting, step: Step, i: nat)
    ensures var p, n := Performed(o, g, step, i), |o.asked|;
            && o.asked <= p.asked && |p.asked| <= n + 1 && (p.failed.Some? ==> p.failed.value == i)
            && (p.failed.None? ==>
                  && |p.asked| == n + 1 && Planned(step, EnvOf(g, o.results), g.hasExtensions) == Do(p.asked[n])
                  && g.world(i, p.asked[n]).Ok?)
  {
  }

  // Every step before the end, or before the failing one, was asked once, in order, and succeeded;
  // nothing is asked of the world after a failure.
  lemma {:induction false} StepsInOrder(steps: seq<Step>, g: Setting, n: nat)
    requires n <= |steps|
    ensures RunInOrder(steps, g, n)
  {
    if n > 0 {
      StepsInOrder(steps, g, n - 1);
      OneMoreInOrder(steps, g, n - 1);
    }
  }

  lemma OtherEntriesStay(o: Outcome, g: Setting, step: Step, i: nat, id: string)
    requires id in o.results && id != step.id
    ensures var p := Performed(o, g, step, i);
            id in p.results && p.results[id] == o.results[id] && o.asked <= p.asked
  {
  }

  // The entry of an ID is what the last step with it gave: IDs are not checked to be unique.
  lemma {:induction false} LastWins(steps: seq<Step>, g: Setting, n: nat, i: nat)
    requires i < n <= |steps| && After(steps, g, n).failed.None?
    requires forall j :: i < j < n ==> steps[j].id != steps[i].id
    ensures var o := After(steps, g, n);
            i < |o.asked| && steps[i].id in o.results && g.world(i, o.asked[i]) == Ok(o.results[steps[i].id])
  {
    if i < n - 1 {
      LastWins(steps, g, n - 1, i);
      OtherEntriesStay(After(steps, g, n - 1), g, steps[n - 1], n - 1, steps[i].id);
    } else {
      StepsInOrder(steps, g, n - 1);
    }
  }

  // ---- what a step can depend on

  // The worlds give the same answers to all steps before i.
  ghost predicate SameBefore(g: Setting, h: Setting, i: nat) {
    forall k: nat, a :: k < i ==> g.world(k, a) == h.world(k, a)
  }

  ghost predicate SameStart(g: Setting, h: Setting) {
    g.params == h.params && g.encode == h.encode && g.hasExtensions == h.hasExtensions && g.describe == h.describe
  }

  lemma PerformedSame(o: Outcome, g: Setting, h: Setting, step: Step, i: nat)
    requires SameStart(g, h) && forall a :: g.world(i, a) == h.world(i, a)
    ensures Performed(o, g, step, i) == Performed(o, h, step, i)
  {
    assert EnvOf(g, o.results) == EnvOf(h, o.results);
  }

  lemma {:induction false} SameRun(steps: seq<Step>, more: seq<Step>, g: Setting, h: Setting, i: nat)
    requires i <= |steps| && i <= |more| && forall k :: 0 <= k < i ==> steps[k] == more[k]
    requires SameStart(g, h) && SameBefore(g, h, i)
    ensures After(steps, g, i) == After(more, h, i)
  {
    if i > 0 {
      SameRun(steps, more, g, h, i - 1);
      PerformedSame(After(steps, g, i - 1), g, h, steps[i - 1], i - 1);
    }
  }

  // Steps up to i, parameters and earlier answers fix what step i does; later steps do not matter.
  lemma NothingFromTheFuture(steps: seq<Step>, more: seq<Step>, g: Setting, h: Setting, i: nat)
    requires i < |steps| && i < |more| && steps[..i + 1] == more[..i + 1]
    requires SameStart(g, h) && SameBefore(g, h, i)
    ensures After(steps, g, i) == After(more, h, i)
    ensures Planned(steps[i], EnvOf(g, After(steps, g, i).results), g.hasExtensions) ==
            Planned(more[i], EnvOf(h, After(more, h, i).results), h.hasExtensions)
  {
    forall k | 0 <= k <= i ensures steps[k] == more[k] {
      assert steps[..i + 1][k] == more[..i + 1][k];
    }
    SameRun(steps, more, g, h, i);
    assert EnvOf(g, After(steps, g, i).results) == EnvOf(h, After(more, h, i).results);
  }

  predicate SameBut(r: map<string, Value>, t: map<string, Value>, id: string) {
    r - {id} == t - {id}
  }

  lemma PlanReadsNamedOnly(step: Step, g: Setting, h: Setting, r: map<string, Value>, t: map<string, Value>, id: string)
    requires SameStart(g, h) && SameBut(r, t, id) && !NamedInArgs(step.args, id)
    ensures Planned(step, EnvOf(g, r), g.hasExtensions) == Planned(step, EnvOf(h, t), h.hasExtensions)
  {
    forall name | NamedInArgs(step.args, name)
      ensures AgreeOn(name, EnvOf(g, r), EnvOf(h, t))
    {
      assert name in r <==> name in r - {id};
      assert name in t <==> name in t - {id};
      assert name in r ==> r[name] == (r - {id})[name];
      assert name in t ==> t[name] == (t - {id})[name];
    }
    ArgsReadNamedOnly(step.args, EnvOf(g, r), EnvOf(h, t));
  }

  // Only step j is answered differently, and it succeeds either way.
  ghost predicate DifferAt(steps: seq<Step>, g: Setting, h: Setting, j: nat)
    requires j < |steps|
  {
    && SameStart(g, h)
    && (forall k: nat, a :: k != j ==> g.world(k, a) == h.world(k, a))
    && (forall a :: g.world(j, a).Ok? && h.world(j, a).Ok?)
  }

  predicate AlikeBut(a: Outcome, b: Outcome, id: string) {
    a.failed == b.failed && a.asked == b.asked && SameBut(a.results, b.results, id)
  }

  lemma SetBoth(r: map<string, Value>, t: map<string, Value>, id: string, key: string, v: Value)
    requires SameBut(r, t, id)
    ensures SameBut(r[key := v], t[key := v], id)
  {
    assert r[key := v] - {id} == if key == id then r - {id} else (r - {id})[key := v];
    assert t[key := v] - {id} == if key == id then t - {id} else (t - {id})[key := v];
  }

  lemma PerformedAlike(a: Outcome, b: Outcome, g: Setting, h: Setting, step: Step, i: nat, id: string)
    requires SameStart(g, h) && AlikeBut(a, b, id) && !NamedInArgs(step.args, id)
    requires forall x :: g.world(i, x) == h.world(i, x)
    ensures AlikeBut(Performed(a, g, step, i), Performed(b, h, step, i), id)
  {
    PlanReadsNamedOnly(step, g, h, a.results, b.results, id);
    var plan := Planned(step, EnvOf(g, a.results), g.hasExtensions);
    match Answer(g, step, i, plan)
    case Ok(v) => SetBoth(a.results, b.results, id, step.id, v);
    case Err(message) => SetBoth(a.results, b.results, id, step.id, ErrorEntry(message));
  }

  lemma AnsweredApart(o: Outcome, g: Setting, h: Setting, step: Step, j: nat)
    requires SameStart(g, h) && forall x :: g.world(j, x).Ok? && h.world(j, x).Ok?
    ensures AlikeBut(Performed(o, g, step, j), Performed(o, h, step, j), step.id)
  {
    assert EnvOf(g, o.results) == EnvOf(h, o.results);
  }

  ghost predicate RunsAlike(steps: seq<Step>, g: Setting, h: Setting, n: nat, id: string)
    requires n <= |steps|
  {
    AlikeBut(After(steps, g, n), After(steps, h, n), id)
  }

  lemma StepAlike(steps: seq<Step>, g: Setting, h: Setting, n: nat, id: string)
    requires n < |steps| && SameStart(g, h) && RunsAlike(steps, g, h, n, id) && !NamedInArgs(steps[n].args, id)
    requires forall x :: g.world(n, x) == h.world(n, x)
    ensures RunsAlike(steps, g, h, n + 1, id)
  {
    var a, b := After(steps, g, n), After(steps, h, n);
    if a.failed.None? {
      PerformedAlike(a, b, g, h, steps[n], n, id);
    }
  }

  lemma FirstApart(steps: seq<Step>, g: Setting, h: Setting, j: nat)
    requires j < |steps| && DifferAt(steps, g, h, j)
    ensures RunsAlike(steps, g, h, j + 1, steps[j].id)
  {
    SameRun(steps, steps, g, h, j);
    AnsweredApart(After(steps, g, j), g, h, steps[j], j);
  }

  // When no later step names j's ID in a placeholder, a different answer to step j changes nothing but
  // j's own entry: the same actions, the same failure, the same other results.
  lemma {:induction false} UnnamedStepsDoNotMatter(steps: seq<Step>, g: Setting, h: Setting, j: nat, n: nat)
    requires j < n <= |steps| && DifferAt(steps, g, h, j)
    requires forall i :: j < i < n ==> !NamedInArgs(steps[i].args, steps[j].id)
    ensures RunsAlike(steps, g, h, n, steps[j].id)
  {
    if n == j + 1 {
      FirstApart(steps, g, h, j);
    } else {
      UnnamedStepsDoNotMatter(steps, g, h, j, n - 1);
      StepAlike(steps, g, h, n - 1, steps[j].id);
    }
  }
}
