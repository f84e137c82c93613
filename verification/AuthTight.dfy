/**
The bound on the failures in one window is reached (internal/auth/auth.go:96-143).
*/
module AuthTight {
  // Requests without a header fail one after the other until one failure is missing for a block, and then
  // as many as may be in flight pass the check together.

  import opened RateLimit
  import opened Middleware
  import opened AuthRuns

  // One tier is configured. All requests come from one address, at one time.
  datatype Load = Load(tier: Tier, maxFailures: int, window: int, maxInFlight: nat, ip: string, start: int)

  function Cfg(x: Load): Config {
    Config(map[x.tier := TierConfig(x.maxFailures, x.window)], x.maxInFlight)
  }

  function FailuresOf(x: Load, n: nat): seq<Failure> { seq(n, _ => Failure(x.ip, x.start)) }

  function KeptTimes(x: Load, n: nat): RateLimit.Failures {
    if n == 0 then map[] else map[x.ip := seq(n, _ => x.start)]
  }

  function LimiterAt(x: Load, n: nat): Limiter { Limiter(KeptTimes(x, n), FailuresOf(x, n), seq(n, i => i)) }

  function Ids(lo: nat, hi: nat): (ids: set<nat>)
    ensures forall id :: id in ids <==> lo <= id < hi
    ensures |ids| == if lo <= hi then hi - lo else 0
    decreases hi
  {
    if hi <= lo then {} else Ids(lo, hi - 1) + {hi - 1}
  }

  // The first `answered` requests have failed, the next `waiting` ones have passed the check.
  function Requests(x: Load, answered: nat, waiting: nat): map<nat, Request> {
    var ids := Ids(0, answered + waiting);
    map id | id in ids :: Request(x.ip, "", if id < answered then Answered(UNAUTHORIZED) else RecordBurst)
  }

  function StateAt(x: Load, answered: nat, waiting: nat): System {
    System(x.start, map[x.tier := LimiterAt(x, answered)], Requests(x, answered, waiting))
  }

  // The states a run goes through.
  ghost predicate IsTrace(x: Load, events: seq<Event>, states: seq<System>) {
    && |states| == |events| + 1 && states[0] == Init(Cfg(x), x.start)
    && forall i: nat :: i < |events| ==> IsNext(x, events, states, i)
  }

  predicate IsNext(x: Load, events: seq<Event>, states: seq<System>, i: nat) {
    && i < |events| && i + 1 < |states| && states[i].limiters.Keys == Cfg(x).tiers.Keys
    && states[i + 1] == Step(Cfg(x), states[i], events[i])
  }

  ghost predicate LeadsTo(x: Load, events: seq<Event>, s: System) {
    exists states :: IsTrace(x, events, states) && states[|events|] == s
  }

  ghost predicate Arrived(x: Load, events: seq<Event>, answered: nat, waiting: nat) {
    LeadsTo(x, events, StateAt(x, answered, waiting))
  }

  lemma OneEventMore(x: Load, events: seq<Event>, s: System, e: Event) returns (more: seq<Event>)
    requires LeadsTo(x, events, s) && s.limiters.Keys == {x.tier}
    ensures LeadsTo(x, more, Step(Cfg(x), s, e))
  {
    more := events + [e];
    var states :| IsTrace(x, events, states) && states[|events|] == s;
    var states' := states + [Step(Cfg(x), s, e)];
    forall i: nat | i < |more|
      ensures IsNext(x, more, states', i)
    {
      assert i < |events| ==> IsNext(x, events, states, i);
    }
    assert IsTrace(x, more, states') && states'[|more|] == Step(Cfg(x), s, e);
  }

  lemma {:induction false} TraceIsRun(x: Load, events: seq<Event>, states: seq<System>)
    requires IsTrace(x, events, states)
    ensures states[|events|] == AuthRuns.Run(Cfg(x), x.start, events)
  {
    if events != [] {
      var n := |events| - 1;
      var before, passed := events[..n], states[..|events|];
      forall i: nat | i < n
        ensures IsNext(x, before, passed, i)
      {
        assert IsNext(x, events, states, i);
      }
      TraceIsRun(x, before, passed);
      assert IsNext(x, events, states, n);
    }
  }

  function With(s: System, id: nat, ip: string, phase: Phase): System {
    s.(requests := s.requests[id := Request(ip, "", phase)])
  }

  // ---- one request more passes the check

  lemma WaitingInFlight(x: Load, answered: nat, waiting: nat)
    ensures |InFlight(Requests(x, answered, waiting), x.ip)| == waiting
  {
    assert InFlight(Requests(x, answered, waiting), x.ip) == Ids(answered, answered + waiting);
  }

  lemma {:induction false} NothingDropped(n: nat, at: int, cutoff: int)
    requires cutoff <= at
    ensures DropBefore(seq(n, _ => at), cutoff) == seq(n, _ => at)
  {
  }

  lemma KeptStay(x: Load, n: nat)
    requires x.window >= 0
    ensures Pruned(KeptTimes(x, n), x.ip, x.start - x.window) == KeptTimes(x, n)
    ensures |Kept(KeptTimes(x, n), x.ip)| == n
  {
    if n > 0 { NothingDropped(n, x.start, x.start - x.window); }
  }

  lemma CheckPasses(x: Load, s: System, id: nat, n: nat, next: Phase)
    requires x.window >= 0 && n < x.maxFailures && id in s.requests && s.requests[id].ip == x.ip && s.now == x.start
    requires s.limiters == map[x.tier := LimiterAt(x, n)]
    ensures Check(Cfg(x), s, id, x.tier, next) == SetPhase(s, id, next)
  {
    KeptStay(x, n);
    var lim := s.limiters[x.tier];
    assert lim.(failures := KeptTimes(x, n)) == lim;
    assert s.limiters[x.tier := lim] == s.limiters;
  }

  // Two checks, and the missing header is noticed.
  lemma ThreeSteps(x: Load, s: System, id: nat, n: nat, v: Verdict) returns (s1: System, s2: System, s3: System)
    requires x.window >= 0 && n < x.maxFailures && s.now == x.start
    requires s.limiters == map[x.tier := LimiterAt(x, n)] && id in s.requests &&
             s.requests[id] == Request(x.ip, "", CheckBurst)
    ensures s1 == Step(Cfg(x), s, Advance(id, v, 0)) && s2 == Step(Cfg(x), s1, Advance(id, v, 0)) &&
            s3 == Step(Cfg(x), s2, Advance(id, v, 0))
    ensures s3 == With(s, id, x.ip, RecordBurst)
  {
    s1 := With(s, id, x.ip, CheckSustained);
    s2 := With(s, id, x.ip, Authenticating);
    s3 := With(s, id, x.ip, RecordBurst);
    if x.tier == Burst {
      CheckPasses(x, s, id, n, CheckSustained);
    } else {
      CheckPasses(x, s1, id, n, Authenticating);
    }
    assert s1 == SetPhase(s, id, CheckSustained);
    assert s2 == SetPhase(s1, id, Authenticating);
    assert AfterVerdict("", v) == RecordBurst;
    assert s3 == SetPhase(s2, id, RecordBurst);
  }

  lemma Arrives(x: Load, answered: nat, waiting: nat)
    requires waiting < x.maxInFlight
    ensures Step(Cfg(x), StateAt(x, answered, waiting), Arrive(answered + waiting, x.ip, "")) ==
            With(StateAt(x, answered, waiting), answered + waiting, x.ip, CheckBurst)
  {
    WaitingInFlight(x, answered, waiting);
  }

  // The number of waiting requests afterwards is passed in, so that callers name it as they do.
  lemma Admit(x: Load, answered: nat, waiting: nat, more: nat, before: seq<Event>) returns (events: seq<Event>)
    requires x.window >= 0 && answered < x.maxFailures && waiting < x.maxInFlight && more == waiting + 1
    requires Arrived(x, before, answered, waiting)
    ensures Arrived(x, events, answered, more)
  {
    var id, s := answered + waiting, StateAt(x, answered, waiting);
    var arrived := With(s, id, x.ip, CheckBurst);
    events := OneEventMore(x, before, s, Arrive(id, x.ip, ""));
    Arrives(x, answered, waiting);
    var s1, s2, s3 := ThreeSteps(x, arrived, id, answered, Rejected);
    events := OneEventMore(x, events, arrived, Advance(id, Rejected, 0));
    events := OneEventMore(x, events, s1, Advance(id, Rejected, 0));
    events := OneEventMore(x, events, s2, Advance(id, Rejected, 0));
    OneMoreWaits(x, answered, waiting);
  }

  lemma OneMoreWaits(x: Load, answered: nat, waiting: nat)
    ensures var id := answered + waiting;
            With(With(StateAt(x, answered, waiting), id, x.ip, CheckBurst), id, x.ip, RecordBurst) ==
              StateAt(x, answered, waiting + 1)
  {
    var id := answered + waiting;
    assert Requests(x, answered, waiting)[id := Request(x.ip, "", CheckBurst)][id := Request(x.ip, "", RecordBurst)] ==
           Requests(x, answered, waiting + 1);
  }

  // ---- and is recorded

  lemma RecordedOneMore(x: Load, n: nat)
    requires x.window >= 0
    ensures Pruned(Recorded(KeptTimes(x, n), x.ip, x.start), x.ip, x.start - x.window) == KeptTimes(x, n + 1)
  {
    assert Kept(KeptTimes(x, n), x.ip) + [x.start] == seq(n + 1, _ => x.start);
    assert Recorded(KeptTimes(x, n), x.ip, x.start) == KeptTimes(x, n + 1);
    KeptStay(x, n + 1);
  }

  lemma LimiterGrows(x: Load, n: nat)
    requires x.window >= 0
    ensures LimiterAt(x, n + 1) ==
            Limiter(Pruned(Recorded(KeptTimes(x, n), x.ip, x.start), x.ip, x.start - x.window),
                    FailuresOf(x, n) + [Failure(x.ip, x.start)], LimiterAt(x, n).senders + [n])
  {
    RecordedOneMore(x, n);
    assert FailuresOf(x, n + 1) == FailuresOf(x, n) + [Failure(x.ip, x.start)];
    assert LimiterAt(x, n + 1).senders == LimiterAt(x, n).senders + [n];
  }

  lemma AddOne(x: Load, s: System, n: nat, next: Phase)
    requires x.window >= 0 && n in s.requests && s.requests[n].ip == x.ip && s.requests[n].header == "" &&
             s.now == x.start
    requires s.limiters == map[x.tier := LimiterAt(x, n)]
    ensures AddFailure(Cfg(x), s, n, x.tier, next, 0) ==
            With(s.(limiters := map[x.tier := LimiterAt(x, n + 1)]), n, x.ip, next)
  {
    LimiterGrows(x, n);
    assert s.limiters[x.tier := LimiterAt(x, n + 1)] == map[x.tier := LimiterAt(x, n + 1)];
  }

  lemma TwoSteps(x: Load, s: System, n: nat, v: Verdict) returns (s1: System, s2: System)
    requires x.window >= 0 && s.now == x.start
    requires s.limiters == map[x.tier := LimiterAt(x, n)] && n in s.requests &&
             s.requests[n] == Request(x.ip, "", RecordBurst)
    ensures s1 == Step(Cfg(x), s, Advance(n, v, 0)) && s2 == Step(Cfg(x), s1, Advance(n, v, 0))
    ensures s2 == With(s.(limiters := map[x.tier := LimiterAt(x, n + 1)]), n, x.ip, Answered(UNAUTHORIZED))
  {
    s1, s2 := Step(Cfg(x), s, Advance(n, v, 0)), Step(Cfg(x), Step(Cfg(x), s, Advance(n, v, 0)), Advance(n, v, 0));
    if x.tier == Burst {
      AddOne(x, s, n, RecordSustained);
      assert s1 == With(s.(limiters := map[x.tier := LimiterAt(x, n + 1)]), n, x.ip, RecordSustained);
      assert s2 == SetPhase(s1, n, Answered(UNAUTHORIZED));
    } else {
      assert s1 == SetPhase(s, n, RecordSustained) == With(s, n, x.ip, RecordSustained);
      AddOne(x, s1, n, Answered(UNAUTHORIZED));
    }
    assert s2.requests == s.requests[n := Request(x.ip, "", Answered(UNAUTHORIZED))];
  }

  lemma OneMoreAnswered(x: Load, answered: nat, waiting: nat)
    requires waiting > 0
    ensures With(StateAt(x, answered, waiting).(limiters := map[x.tier := LimiterAt(x, answered + 1)]), answered, x.ip,
                 Answered(UNAUTHORIZED)) ==
            StateAt(x, answered + 1, waiting - 1)
  {
    assert Requests(x, answered, waiting)[answered := Request(x.ip, "", Answered(UNAUTHORIZED))] ==
           Requests(x, answered + 1, waiting - 1);
  }

  lemma Finish(x: Load, answered: nat, more: nat, waiting: nat, fewer: nat, before: seq<Event>)
    returns (events: seq<Event>)
    requires x.window >= 0 && more == answered + 1 && waiting == fewer + 1 && Arrived(x, before, answered, waiting)
    ensures Arrived(x, events, more, fewer)
  {
    var s := StateAt(x, answered, waiting);
    var s1, s2 := TwoSteps(x, s, answered, Rejected);
    events := OneEventMore(x, before, s, Advance(answered, Rejected, 0));
    events := OneEventMore(x, events, s1, Advance(answered, Rejected, 0));
    OneMoreAnswered(x, answered, waiting);
  }

  // ---- the run

  lemma Begins(x: Load)
    ensures Arrived(x, [], 0, 0)
  {
    assert Requests(x, 0, 0) == map[] && LimiterAt(x, 0) == Limiter(map[], [], []);
    assert Init(Cfg(x), x.start).limiters == map[x.tier := LimiterAt(x, 0)];
    assert IsTrace(x, [], [Init(Cfg(x), x.start)]);
  }

  lemma OneFails(x: Load, answered: nat, more: nat, before: seq<Event>) returns (events: seq<Event>)
    requires x.window >= 0 && answered < x.maxFailures && more == answered + 1 && x.maxInFlight > 0
    requires Arrived(x, before, answered, 0)
    ensures Arrived(x, events, more, 0)
  {
    events := Admit(x, answered, 0, 1, before);
    events := Finish(x, answered, more, 1, 0, events);
  }

  lemma {:induction false} OneByOne(x: Load, answered: nat) returns (events: seq<Event>)
    requires x.window >= 0 && answered < x.maxFailures && x.maxInFlight > 0
    ensures Arrived(x, events, answered, 0)
  {
    if answered == 0 {
      events := [];
      Begins(x);
    } else {
      events := OneByOne(x, answered - 1);
      events := OneFails(x, answered - 1, answered, events);
    }
  }

  lemma {:induction false} Crowd(x: Load, answered: nat, waiting: nat) returns (events: seq<Event>)
    requires x.window >= 0 && answered < x.maxFailures && x.maxInFlight > 0 && waiting <= x.maxInFlight
    ensures Arrived(x, events, answered, waiting)
  {
    if waiting == 0 {
      events := OneByOne(x, answered);
    } else {
      var before := Crowd(x, answered, waiting - 1);
      events := Admit(x, answered, waiting - 1, waiting, before);
    }
  }

  lemma {:induction false} Drain(x: Load, answered: nat, waiting: nat) returns (events: seq<Event>)
    requires x.window >= 0 && x.maxFailures >= 1 && x.maxInFlight >= 1
    requires answered >= x.maxFailures - 1 && answered + waiting == x.maxFailures - 1 + x.maxInFlight
    ensures Arrived(x, events, answered, waiting)
    decreases answered
  {
    if answered == x.maxFailures - 1 {
      events := Crowd(x, answered, waiting);
    } else {
      var before := Drain(x, answered - 1, waiting + 1);
      events := Finish(x, answered - 1, answered, waiting + 1, waiting, before);
    }
  }

  lemma {:induction false} AllInWindow(x: Load, n: nat, from: int)
    requires from <= x.start <= from + x.window
    ensures CountBetween(Times(FailuresOf(x, n), x.ip), from, from + x.window) == n
  {
    if n > 0 {
      AllInWindow(x, n - 1, from);
      assert FailuresOf(x, n) == FailuresOf(x, n - 1) + [Failure(x.ip, x.start)];
      TimesAppend(FailuresOf(x, n - 1), Failure(x.ip, x.start), x.ip);
      CountOneMore(Times(FailuresOf(x, n - 1), x.ip), x.start, from, from + x.window);
    }
  }

  lemma CountOneMore(times: seq<int>, at: int, lo: int, hi: int)
    ensures CountBetween(times + [at], lo, hi) == CountBetween(times, lo, hi) + if lo <= at <= hi then 1 else 0
  {
    assert (times + [at])[..|times|] == times;
  }

  // The failures of the address in the window that begins with the run.
  ghost function InFirstWindow(x: Load, s: System): nat
    requires x.tier in s.limiters
  {
    |FailedBetween(s.limiters[x.tier].history, x.ip, x.start, x.start + x.window)|
  }

  // For every limit, window and number of requests in flight, and in either tier, there is a run with
  // exactly maxFailures - 1 + maxInFlight recorded failures in one window.
  lemma BoundIsReached(x: Load) returns (events: seq<Event>)
    requires x.window >= 0 && x.maxFailures >= 1 && x.maxInFlight >= 1
    ensures InFirstWindow(x, AuthRuns.Run(Cfg(x), x.start, events)) == x.maxFailures - 1 + x.maxInFlight ==
            Bound(Cfg(x), x.tier)
  {
    var n := x.maxFailures - 1 + x.maxInFlight;
    events := Drain(x, n, 0);
    var states :| IsTrace(x, events, states) && states[|events|] == StateAt(x, n, 0);
    TraceIsRun(x, events, states);
    AllInWindow(x, n, x.start);
    BetweenIsFailed(FailuresOf(x, n), x.ip, x.start, x.start + x.window);
    assert InFirstWindow(x, StateAt(x, n, 0)) == n;
  }
}
