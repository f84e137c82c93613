/**
The sliding-window limiter on failed logins (internal/auth/ratelimit.go). The code keeps pruned
lists; the specification is the full, never pruned history of failures.
*/
module RateLimit {
  type Failures = map<string, seq<int>>

  datatype Failure = Failure(ip: string, at: int)

  // ---- specification

  // The times of an address's failures, oldest first.
  function Times(history: seq<Failure>, ip: string): seq<int> {
    if history == [] then [] else
    var n := |history| - 1;
    Times(history[..n], ip) + if history[n].ip == ip then [history[n].at] else []
  }

  // How many of the times are at cutoff or later.
  function CountFrom(times: seq<int>, cutoff: int): nat {
    if times == [] then 0 else
    var n := |times| - 1;
    CountFrom(times[..n], cutoff) + if times[n] >= cutoff then 1 else 0
  }

  // The failures of an address between two clock readings, both included, by their places in the history.
  ghost function FailedBetween(history: seq<Failure>, ip: string, lo: int, hi: int): set<nat> {
    set j: nat | j < |history| && history[j].ip == ip && lo <= history[j].at <= hi
  }

  predicate Sorted(times: seq<int>) {
    forall i, j :: 0 <= i < j < |times| ==> times[i] <= times[j]
  }

  // ---- what the code does to the map

  function Kept(failures: Failures, ip: string): seq<int> {
    if ip in failures then failures[ip] else []
  }

  function DropBefore(times: seq<int>, cutoff: int): seq<int> {
    if times != [] && times[0] < cutoff then DropBefore(times[1..], cutoff) else times
  }

  function Pruned(failures: Failures, ip: string, cutoff: int): Failures {
    var times := DropBefore(Kept(failures, ip), cutoff);
    if times == [] then failures - {ip} else failures[ip := times]
  }

  function Recorded(failures: Failures, ip: string, at: int): Failures {
    failures[ip := Kept(failures, ip) + [at]]
  }

  // The map stands for the history at clock reading now: from any cutoff a later call can use,
  // the kept times and all times of an address are the same, and no address has an empty list.
  ghost predicate Represents(failures: Failures, history: seq<Failure>, now: int, window: int) {
    && Ordered(history, now)
    && (forall ip :: ip in failures ==> failures[ip] != [])
    && Agree(failures, history, now - window)
  }

  predicate Ordered(history: seq<Failure>, now: int) {
    && (forall i, j :: 0 <= i < j < |history| ==> history[i].at <= history[j].at)
    && (forall i :: 0 <= i < |history| ==> history[i].at <= now)
  }

  ghost predicate Agree(failures: Failures, history: seq<Failure>, since: int) {
    forall ip, cutoff :: cutoff >= since ==> AgreeAt(failures, history, ip, cutoff)
  }

  predicate AgreeAt(failures: Failures, history: seq<Failure>, ip: string, cutoff: int) {
    DropBefore(Kept(failures, ip), cutoff) == DropBefore(Times(history, ip), cutoff)
  }

  // ---- dropping a prefix is filtering, because the times are sorted

  lemma {:induction false} CountConcat(a: seq<int>, b: seq<int>, cutoff: int)
    ensures CountFrom(a + b, cutoff) == CountFrom(a, cutoff) + CountFrom(b, cutoff)
  {
    if b == [] {
      assert a + b == a;
    } else {
      assert (a + b)[..|a + b| - 1] == a + b[..|b| - 1];
      CountConcat(a, b[..|b| - 1], cutoff);
    }
  }

  lemma {:induction false} CountAll(times: seq<int>, cutoff: int)
    requires forall j :: 0 <= j < |times| ==> times[j] >= cutoff
    ensures CountFrom(times, cutoff) == |times|
  {
    if times != [] { CountAll(times[..|times| - 1], cutoff); }
  }

  lemma {:induction false} CountMonotone(times: seq<int>, early: int, late: int)
    requires early <= late
    ensures CountFrom(times, late) <= CountFrom(times, early)
  {
    if times != [] { CountMonotone(times[..|times| - 1], early, late); }
  }

  lemma {:induction false} DropTwice(times: seq<int>, early: int, late: int)
    requires early <= late
    ensures DropBefore(DropBefore(times, early), late) == DropBefore(times, late)
  {
    if times != [] && times[0] < early { DropTwice(times[1..], early, late); }
  }

  lemma {:induction false} DropAppend(times: seq<int>, at: int, cutoff: int)
    ensures var d := DropBefore(times, cutoff);
            DropBefore(times + [at], cutoff) == if d == [] then DropBefore([at], cutoff) else d + [at]
  {
    if times == [] {
      assert times + [at] == [at];
    } else if times[0] < cutoff {
      assert (times + [at])[1..] == times[1..] + [at];
      DropAppend(times[1..], at, cutoff);
    }
  }

  // Dropping the old prefix leaves as many times as filtering would.
  lemma {:induction false} DropCounts(times: seq<int>, cutoff: int)
    requires Sorted(times)
    ensures |DropBefore(times, cutoff)| == CountFrom(times, cutoff)
  {
    if times != [] && times[0] < cutoff {
      assert times == [times[0]] + times[1..];
      CountConcat([times[0]], times[1..], cutoff);
      DropCounts(times[1..], cutoff);
    } else {
      CountAll(times, cutoff);
    }
  }

  lemma {:induction false} TimesSorted(history: seq<Failure>, ip: string)
    requires forall i, j :: 0 <= i < j < |history| ==> history[i].at <= history[j].at
    ensures Sorted(Times(history, ip))
    ensures forall j :: 0 <= j < |Times(history, ip)| ==> Times(history, ip)[j] <= history[|history| - 1].at
  {
    if history != [] {
      var n := |history| - 1;
      TimesSorted(history[..n], ip);
    }
  }

  lemma TimesAppend(history: seq<Failure>, f: Failure, ip: string)
    ensures Times(history + [f], ip) == Times(history, ip) + if f.ip == ip then [f.at] else []
  {
    assert (history + [f])[..|history|] == history;
  }

  lemma OneMoreFailed(history: seq<Failure>, ip: string, lo: int, hi: int)
    requires history != []
    ensures var n := |history| - 1;
            FailedBetween(history, ip, lo, hi) ==
            FailedBetween(history[..n], ip, lo, hi) +
            (if history[n].ip == ip && lo <= history[n].at <= hi then {n} else {})
    ensures |history| - 1 !in FailedBetween(history[..|history| - 1], ip, lo, hi)
  {
  }

  // The times at or after a cutoff, counted in the history.
  lemma {:induction false} CountIsFailed(history: seq<Failure>, ip: string, lo: int, hi: int)
    requires forall j :: 0 <= j < |history| ==> history[j].at <= hi
    ensures CountFrom(Times(history, ip), lo) == |FailedBetween(history, ip, lo, hi)|
  {
    if history != [] {
      var n := |history| - 1;
      CountIsFailed(history[..n], ip, lo, hi);
      OneMoreFailed(history, ip, lo, hi);
      CountConcat(Times(history[..n], ip), [history[n].at], lo);
      assert Times(history[..n], ip) + [] == Times(history[..n], ip);
    }
  }

  // ---- the three steps keep the map and the history together

  lemma SameRepresents(failures: Failures, history: seq<Failure>, now: int, window: int,
                       failures': Failures, history': seq<Failure>, now': int)
    requires Represents(failures, history, now, window)
    requires failures' == failures && history' == history && now' == now
    ensures Represents(failures', history', now', window)
  {
  }

  lemma TickKeeps(failures: Failures, history: seq<Failure>, now: int, later: int, window: int)
    requires Represents(failures, history, now, window) && now <= later
    ensures Represents(failures, history, later, window)
  {
  }

  lemma PrunedKept(failures: Failures, ip: string, cutoff: int, other: string)
    ensures Kept(Pruned(failures, ip, cutoff), other) ==
            if other == ip then DropBefore(Kept(failures, ip), cutoff) else Kept(failures, other)
  {
  }

  lemma PrunedAgrees(failures: Failures, history: seq<Failure>, ip: string, early: int, other: string, cutoff: int)
    requires AgreeAt(failures, history, other, cutoff) && early <= cutoff
    ensures AgreeAt(Pruned(failures, ip, early), history, other, cutoff)
  {
    PrunedKept(failures, ip, early, other);
    DropTwice(Kept(failures, ip), early, cutoff);
  }

  lemma PruneKeeps(failures: Failures, history: seq<Failure>, now: int, window: int, ip: string)
    requires Represents(failures, history, now, window)
    ensures Represents(Pruned(failures, ip, now - window), history, now, window)
  {
    var after := Pruned(failures, ip, now - window);
    forall other, cutoff | cutoff >= now - window
      ensures AgreeAt(after, history, other, cutoff)
    {
      assert AgreeAt(failures, history, other, cutoff);
      PrunedAgrees(failures, history, ip, now - window, other, cutoff);
    }
  }

  lemma PruneCounts(failures: Failures, history: seq<Failure>, now: int, window: int, ip: string)
    requires Represents(failures, history, now, window)
    ensures |Kept(Pruned(failures, ip, now - window), ip)| == CountFrom(Times(history, ip), now - window)
  {
    TimesSorted(history, ip);
    DropCounts(Times(history, ip), now - window);
    assert AgreeAt(failures, history, ip, now - window);
    assert Kept(Pruned(failures, ip, now - window), ip) == DropBefore(Kept(failures, ip), now - window);
  }

  // The same with a clock reading later than the last one.
  lemma PruneLater(failures: Failures, history: seq<Failure>, last: int, now: int, window: int, ip: string)
    requires Represents(failures, history, last, window) && last <= now
    ensures Represents(Pruned(failures, ip, now - window), history, now, window)
    ensures |Kept(Pruned(failures, ip, now - window), ip)| == CountFrom(Times(history, ip), now - window)
  {
    TickKeeps(failures, history, last, now, window);
    PruneKeeps(failures, history, now, window, ip);
    PruneCounts(failures, history, now, window, ip);
  }

  lemma RecordKeeps(failures: Failures, history: seq<Failure>, now: int, window: int, ip: string)
    requires Represents(failures, history, now, window)
    ensures Represents(Recorded(failures, ip, now), history + [Failure(ip, now)], now, window)
  {
    var after, history' := Recorded(failures, ip, now), history + [Failure(ip, now)];
    forall other, cutoff | cutoff >= now - window
      ensures AgreeAt(after, history', other, cutoff)
    {
      assert AgreeAt(failures, history, other, cutoff);
      TimesAppend(history, Failure(ip, now), other);
      if other == ip {
        DropAppend(Kept(failures, ip), now, cutoff);
        DropAppend(Times(history, ip), now, cutoff);
      } else {
        assert Kept(after, other) == Kept(failures, other);
        assert Times(history', other) == Times(history, other);
      }
    }
  }

  lemma RecordLater(failures: Failures, history: seq<Failure>, last: int, at: int, now: int, window: int, ip: string)
    requires Represents(failures, history, last, window) && last <= at <= now
    ensures Represents(Pruned(Recorded(failures, ip, at), ip, now - window), history + [Failure(ip, at)], now, window)
  {
    TickKeeps(failures, history, last, at, window);
    RecordKeeps(failures, history, at, window, ip);
    PruneLater(Recorded(failures, ip, at), history + [Failure(ip, at)], at, now, window, ip);
  }

  // ---- whole runs

  // IsBlocked is one prune and a look at the length; PruneAll is one prune per tracked address.
  datatype Call = Record(ip: string, at: int, prunedAt: int) | Prune(ip: string, at: int)

  function FirstReading(call: Call): int { call.at }

  function EndReading(call: Call): int { if call.Record? then call.prunedAt else call.at }

  function HistoryAfter(history: seq<Failure>, call: Call): seq<Failure> {
    if call.Record? then history + [Failure(call.ip, call.at)] else history
  }

  // Each call reads the clock at or after the readings of the calls before it.
  predicate Monotone(calls: seq<Call>, start: int) {
    calls == [] ||
    var n := |calls| - 1;
    Monotone(calls[..n], start) && LastReading(calls[..n], start) <= FirstReading(calls[n]) <= EndReading(calls[n])
  }

  function LastReading(calls: seq<Call>, start: int): int {
    if calls == [] then start else EndReading(calls[|calls| - 1])
  }

  function HistoryOf(calls: seq<Call>): seq<Failure> {
    if calls == [] then [] else HistoryAfter(HistoryOf(calls[..|calls| - 1]), calls[|calls| - 1])
  }

  function Run(calls: seq<Call>, window: int): Failures {
    if calls == [] then map[] else Perform(Run(calls[..|calls| - 1], window), calls[|calls| - 1], window)
  }

  function Perform(failures: Failures, call: Call, window: int): Failures {
    match call
    case Record(ip, at, prunedAt) => Pruned(Recorded(failures, ip, at), ip, prunedAt - window)
    case Prune(ip, at) => Pruned(failures, ip, at - window)
  }

  lemma RecordPerformed(failures: Failures, history: seq<Failure>, last: int, call: Call, window: int)
    requires Represents(failures, history, last, window) && call.Record? && last <= call.at <= call.prunedAt
    ensures Represents(Perform(failures, call, window), HistoryAfter(history, call), call.prunedAt, window)
  {
    RecordLater(failures, history, last, call.at, call.prunedAt, window, call.ip);
    SameRepresents(Pruned(Recorded(failures, call.ip, call.at), call.ip, call.prunedAt - window),
                   history + [Failure(call.ip, call.at)], call.prunedAt, window,
                   Perform(failures, call, window), HistoryAfter(history, call), call.prunedAt);
  }

  lemma PrunePerformed(failures: Failures, history: seq<Failure>, last: int, call: Call, window: int)
    requires Represents(failures, history, last, window) && call.Prune? && last <= call.at
    ensures Represents(Perform(failures, call, window), history, call.at, window)
  {
    PruneLater(failures, history, last, call.at, window, call.ip);
    SameRepresents(Pruned(failures, call.ip, call.at - window), history, call.at, window,
                   Perform(failures, call, window), history, call.at);
  }

  lemma PerformKeeps(failures: Failures, history: seq<Failure>, last: int, call: Call, window: int)
    requires Represents(failures, history, last, window) && last <= FirstReading(call) <= EndReading(call)
    ensures Represents(Perform(failures, call, window), HistoryAfter(history, call), EndReading(call), window)
  {
    match call
    case Record(_, _, _) => RecordPerformed(failures, history, last, call, window);
    case Prune(_, _) => PrunePerformed(failures, history, last, call, window);
  }

  lemma {:induction false} RunRepresents(calls: seq<Call>, window: int, start: int)
    requires Monotone(calls, start)
    ensures Represents(Run(calls, window), HistoryOf(calls), LastReading(calls, start), window)
  {
    if calls != [] {
      var before, call := calls[..|calls| - 1], calls[|calls| - 1];
      RunRepresents(before, window, start);
      PerformKeeps(Run(before, window), HistoryOf(before), LastReading(before, start), call, window);
    }
  }

  lemma CountedInHistory(failures: Failures, history: seq<Failure>, last: int, now: int, window: int, ip: string)
    requires Represents(failures, history, last, window) && last <= now
    ensures |Kept(Pruned(failures, ip, now - window), ip)| == |FailedBetween(history, ip, now - window, now)|
  {
    PruneLater(failures, history, last, now, window, ip);
    CountIsFailed(history, ip, now - window, now);
  }

  // After any run, what IsBlocked counts is what the full history says about the last window,
  // for every address, and no address is left with an empty list.
  lemma BlockedMatchesHistory(calls: seq<Call>, window: int, start: int, ip: string, now: int)
    requires Monotone(calls, start) && now >= LastReading(calls, start)
    ensures |Kept(Pruned(Run(calls, window), ip, now - window), ip)| ==
            |FailedBetween(HistoryOf(calls), ip, now - window, now)|
    ensures forall other :: other in Run(calls, window) ==> Run(calls, window)[other] != []
  {
    RunRepresents(calls, window, start);
    CountedInHistory(Run(calls, window), HistoryOf(calls), LastReading(calls, start), now, window, ip);
  }

  // ---- pruning every address, each at its own clock reading

  ghost predicate PrunedWithin(before: Failures, after: Failures, ip: string, lo: int, hi: int) {
    exists cutoff :: lo <= cutoff <= hi && Kept(after, ip) == DropBefore(Kept(before, ip), cutoff)
  }

  // Every address outside rest has been pruned with a cutoff between lo and hi; those in rest are untouched.
  ghost predicate AllPruned(before: Failures, after: Failures, rest: set<string>, lo: int, hi: int) {
    && (forall ip :: ip in rest ==> Kept(after, ip) == Kept(before, ip))
    && (forall ip :: ip !in rest ==> PrunedWithin(before, after, ip, lo, hi))
  }

  lemma NothingPruned(before: Failures, lo: int)
    ensures AllPruned(before, before, before.Keys, lo, lo)
  {
    forall ip | ip !in before
      ensures PrunedWithin(before, before, ip, lo, lo)
    {
      assert Kept(before, ip) == DropBefore(Kept(before, ip), lo);
    }
  }

  lemma PruneOne(before: Failures, mid: Failures, after: Failures, rest: set<string>, ip: string, lo: int, hi: int,
                 cutoff: int)
    requires AllPruned(before, mid, rest, lo, hi) && ip in rest && lo <= hi <= cutoff
    requires after == Pruned(mid, ip, cutoff)
    ensures AllPruned(before, after, rest - {ip}, lo, cutoff)
  {
    assert Kept(after, ip) == DropBefore(Kept(before, ip), cutoff);
    forall other | other !in rest
      ensures PrunedWithin(before, after, other, lo, cutoff)
    {
      assert PrunedWithin(before, mid, other, lo, hi);
      var c :| lo <= c <= hi && Kept(mid, other) == DropBefore(Kept(before, other), c);
      assert Kept(after, other) == Kept(mid, other);
    }
  }

  // ---- the code

  class Clock {
    var now: int

    constructor () { now := 0; }

    method Now() returns (t: int)
      modifies this
      ensures t == now >= old(now)
    {
      var passed: int :| passed >= 0;
      now := now + passed;
      t := now;
    }
  }

  class RateLimiter {
    var failures: Failures
    const maxFailures: int
    const window: int
    const clock: Clock
    ghost var history: seq<Failure>
    ghost var last: int

    ghost predicate Valid()
      reads this, clock
    {
      last <= clock.now && Represents(failures, history, last, window)
    }

    constructor (maxFailures: int, window: int, clock: Clock)
      ensures Valid() && history == [] && failures == map[]
      ensures this.maxFailures == maxFailures && this.window == window && this.clock == clock
    {
      this.maxFailures, this.window, this.clock := maxFailures, window, clock;
      failures := map[];
      history := [];
      last := clock.now;
    }

    method Prune(ip: string)
      requires Valid()
      modifies this`failures, this`last, clock
      ensures Valid() && last == clock.now >= old(clock.now)
      ensures failures == Pruned(old(failures), ip, clock.now - window)
      ensures |Kept(failures, ip)| == CountFrom(Times(history, ip), clock.now - window)
    {
      var now := clock.Now();
      PruneLater(failures, history, last, now, window, ip);
      last := now;
      failures := WithoutExpired(failures, ip, now - window);
    }

    static method WithoutExpired(failures: Failures, ip: string, cutoff: int) returns (kept: Failures)
      ensures kept == Pruned(failures, ip, cutoff)
    {
      kept := failures;
      var times := if ip in kept then kept[ip] else [];
      var start := 0;
      while start < |times| && times[start] < cutoff
        invariant 0 <= start <= |times|
        invariant DropBefore(times, cutoff) == DropBefore(times[start..], cutoff)
      {
        start := start + 1;
      }
      if start > 0 {
        kept := kept[ip := times[start..]];
      }
      if ip !in kept || kept[ip] == [] {
        kept := kept - {ip};
      }
    }

    method IsBlocked(ip: string) returns (blocked: bool)
      requires Valid()
      modifies this`failures, this`last, clock
      ensures Valid() && clock.now >= old(clock.now)
      ensures blocked <==> CountFrom(Times(history, ip), clock.now - window) >= maxFailures
      ensures blocked <==> |FailedBetween(history, ip, clock.now - window, clock.now)| >= maxFailures
    {
      Prune(ip);
      blocked := |if ip in failures then failures[ip] else []| >= maxFailures;
      CountIsFailed(history, ip, clock.now - window, clock.now);
    }

    method Record(ip: string)
      requires Valid()
      modifies this, clock
      ensures Valid() && clock.now >= old(clock.now)
      ensures exists at :: old(clock.now) <= at <= clock.now && history == old(history) + [Failure(ip, at)]
    {
      var now := clock.Now();
      TickKeeps(failures, history, last, now, window);
      RecordKeeps(failures, history, now, window, ip);
      assert Represents(Recorded(failures, ip, now), history + [Failure(ip, now)], now, window);
      failures := failures[ip := (if ip in failures then failures[ip] else []) + [now]];
      history := history + [Failure(ip, now)];
      last := now;
      Prune(ip);
    }

    // One turn of the PruneAll loop.
    method PruneNext(ip: string, ghost was: Failures, ghost rest: set<string>, ghost lo: int)
      requires Valid() && ip in rest && lo <= clock.now - window
      requires AllPruned(was, failures, rest, lo, clock.now - window)
      modifies this`failures, this`last, clock
      ensures Valid() && clock.now >= old(clock.now)
      ensures AllPruned(was, failures, rest - {ip}, lo, clock.now - window)
    {
      ghost var before, hi := failures, clock.now - window;
      Prune(ip);
      PruneOne(was, before, failures, rest, ip, lo, hi, clock.now - window);
    }

    method PruneAll()
      requires Valid()
      modifies this`failures, this`last, clock
      ensures Valid() && clock.now >= old(clock.now)
      ensures AllPruned(old(failures), failures, {}, old(clock.now) - window, clock.now - window)
    {
      var rest := failures.Keys;
      ghost var was, lo := failures, clock.now - window;
      NothingPruned(was, lo);
      while rest != {}
        invariant Valid() && clock.now >= old(clock.now)
        invariant AllPruned(was, failures, rest, lo, clock.now - window)
        decreases |rest|
      {
        var ip :| ip in rest;
        PruneNext(ip, was, rest, lo);
        rest := rest - {ip};
      }
    }
  }
}
