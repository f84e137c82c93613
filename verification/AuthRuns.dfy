/**
Any number of requests in the middleware at the same time (internal/auth/auth.go:96-143, 162-170).
*/
module AuthRuns {
  // Each call on a limiter is one atomic step; a request's two checks and its record are separate steps,
  // with steps of others between.

  import opened RateLimit
  import opened Middleware

  datatype Tier = Burst | Sustained

  datatype Phase = CheckBurst | CheckSustained | Authenticating | RecordBurst | RecordSustained | Answered(status: int)

  datatype Request = Request(ip: string, header: string, phase: Phase)

  datatype TierConfig = TierConfig(maxFailures: int, window: int)

  // tiers holds the configured tiers; maxInFlight bounds the requests of one address that are
  // being served at the same time.
  datatype Config = Config(tiers: map<Tier, TierConfig>, maxInFlight: nat)

  // A limiter with its full history; senders names the request behind each failure.
  datatype Limiter = Limiter(failures: Failures, history: seq<Failure>, senders: seq<nat>)

  datatype System = System(now: int, limiters: map<Tier, Limiter>, requests: map<nat, Request>)

  datatype Event =
    | Tick(passed: nat)
    | Arrive(id: nat, ip: string, header: string)
    | Advance(id: nat, verdict: Verdict, passed: nat)   // the request's next step
    | PruneEntry(tier: Tier, ip: string)                // part of the periodic PruneAll

  function Init(cfg: Config, start: int): System {
    System(start, map t | t in cfg.tiers :: Limiter(map[], [], []), map[])
  }

  // The requests of an address that have arrived and have not been answered.
  function InFlight(requests: map<nat, Request>, ip: string): set<nat> {
    set id | id in requests && requests[id].ip == ip && !requests[id].phase.Answered?
  }

  // The phases between a tier's check and its record.
  predicate IsPast(t: Tier, phase: Phase) {
    match t
    case Burst => phase.CheckSustained? || phase.Authenticating? || phase.RecordBurst?
    case Sustained => phase.Authenticating? || phase.RecordBurst? || phase.RecordSustained?
  }

  function Past(requests: map<nat, Request>, t: Tier, ip: string): set<nat> {
    set id | id in requests && requests[id].ip == ip && IsPast(t, requests[id].phase)
  }

  // ---- steps

  function SetPhase(s: System, id: nat, phase: Phase): System
    requires id in s.requests
  {
    s.(requests := s.requests[id := s.requests[id].(phase := phase)])
  }

  function Check(cfg: Config, s: System, id: nat, t: Tier, next: Phase): System
    requires id in s.requests && s.limiters.Keys == cfg.tiers.Keys
  {
    if t !in cfg.tiers then SetPhase(s, id, next) else
    var lim, ip := s.limiters[t], s.requests[id].ip;
    var failures := Pruned(lim.failures, ip, s.now - cfg.tiers[t].window);
    var s' := s.(limiters := s.limiters[t := lim.(failures := failures)]);
    SetPhase(s', id, if |Kept(failures, ip)| >= cfg.tiers[t].maxFailures then Answered(TOO_MANY_REQUESTS) else next)
  }

  function AddFailure(cfg: Config, s: System, id: nat, t: Tier, next: Phase, passed: nat): System
    requires id in s.requests && s.limiters.Keys == cfg.tiers.Keys
  {
    if t !in cfg.tiers then SetPhase(s, id, next) else
    var lim, ip := s.limiters[t], s.requests[id].ip;
    var failures := Pruned(Recorded(lim.failures, ip, s.now), ip, s.now + passed - cfg.tiers[t].window);
    var lim' := Limiter(failures, lim.history + [Failure(ip, s.now)], lim.senders + [id]);
    SetPhase(s.(limiters := s.limiters[t := lim'], now := s.now + passed), id, next)
  }

  function AfterVerdict(header: string, verdict: Verdict): Phase {
    var status := Answer(header, _ => verdict);
    if status == UNAUTHORIZED then RecordBurst else Answered(status)
  }

  function AdvanceRequest(cfg: Config, s: System, id: nat, verdict: Verdict, passed: nat): System
    requires id in s.requests && s.limiters.Keys == cfg.tiers.Keys
  {
    match s.requests[id].phase
    case CheckBurst => Check(cfg, s, id, Burst, CheckSustained)
    case CheckSustained => Check(cfg, s, id, Sustained, Authenticating)
    case Authenticating => SetPhase(s, id, AfterVerdict(s.requests[id].header, verdict))
    case RecordBurst => AddFailure(cfg, s, id, Burst, RecordSustained, passed)
    case RecordSustained => AddFailure(cfg, s, id, Sustained, Answered(UNAUTHORIZED), passed)
    case Answered(_) => s
  }

  // An event that is not possible in a state leaves it as it is.
  function Step(cfg: Config, s: System, e: Event): (s': System)
    requires s.limiters.Keys == cfg.tiers.Keys
    ensures s'.limiters.Keys == cfg.tiers.Keys
  {
    match e
    case Tick(passed) => s.(now := s.now + passed)
    case Arrive(id, ip, header) =>
      if id in s.requests || |InFlight(s.requests, ip)| >= cfg.maxInFlight then s
      else s.(requests := s.requests[id := Request(ip, header, CheckBurst)])
    case Advance(id, verdict, passed) =>
      if id in s.requests then AdvanceRequest(cfg, s, id, verdict, passed) else s
    case PruneEntry(t, ip) =>
      if t !in cfg.tiers then s else
      var lim := s.limiters[t];
      s.(limiters := s.limiters[t := lim.(failures := Pruned(lim.failures, ip, s.now - cfg.tiers[t].window))])
  }

  function Run(cfg: Config, start: int, events: seq<Event>): (s: System)
    ensures s.limiters.Keys == cfg.tiers.Keys
  {
    if events == [] then Init(cfg, start)
    else Step(cfg, Run(cfg, start, events[..|events| - 1]), events[|events| - 1])
  }

  // ---- what every step keeps

  // The most failures of one address that can fall into one window.
  function Bound(cfg: Config, t: Tier): nat
    requires t in cfg.tiers
  {
    if cfg.tiers[t].maxFailures >= 1 then cfg.tiers[t].maxFailures - 1 + cfg.maxInFlight else 0
  }

  // Seen from each failure, the window that ends with it holds at most bound failures.
  predicate WindowsBounded(times: seq<int>, window: int, bound: nat) {
    times == [] ||
    var n := |times| - 1;
    WindowsBounded(times[..n], window, bound) && CountFrom(times, times[n] - window) <= bound
  }

  // The failures that count now, and those the requests past the check can still add.
  predicate Budget(cfg: Config, s: System, t: Tier, ip: string)
    requires t in cfg.tiers && t in s.limiters
  {
    var times, window := Times(s.limiters[t].history, ip), cfg.tiers[t].window;
    && CountFrom(times, s.now - window) + |Past(s.requests, t, ip)| <= Bound(cfg, t)
    && WindowsBounded(times, window, Bound(cfg, t))
  }

  // How often a request has been recorded in a tier, given the phase it is in.
  function Records(t: Tier, phase: Phase): nat {
    if phase == Answered(UNAUTHORIZED) || (t == Burst && phase == RecordSustained) then 1 else 0
  }

  predicate Attributed(s: System, t: Tier, id: nat)
    requires t in s.limiters
  {
    multiset(s.limiters[t].senders)[id] == if id in s.requests then Records(t, s.requests[id].phase) else 0
  }

  ghost predicate Represented(cfg: Config, s: System, t: Tier)
    requires t in cfg.tiers && t in s.limiters
  {
    Represents(s.limiters[t].failures, s.limiters[t].history, s.now, cfg.tiers[t].window)
  }

  // ---- the kept lists stand for the histories

  // A step records a failure, prunes one address, or leaves the kept lists alone.
  predicate LimiterStep(lim: Limiter, lim': Limiter, now: int, later: int, window: int, ip: string) {
    && now <= later
    && ((lim'.failures == Pruned(Recorded(lim.failures, ip, now), ip, later - window) &&
         lim'.history == lim.history + [Failure(ip, now)])
        || (now == later && lim'.failures == Pruned(lim.failures, ip, now - window) && lim'.history == lim.history)
        || (lim'.failures == lim.failures && lim'.history == lim.history))
  }

  lemma LimiterStepKeeps(lim: Limiter, lim': Limiter, now: int, later: int, window: int, ip: string)
    requires LimiterStep(lim, lim', now, later, window, ip) && Represents(lim.failures, lim.history, now, window)
    ensures Represents(lim'.failures, lim'.history, later, window)
  {
    if lim'.history != lim.history {
      RecordLater(lim.failures, lim.history, now, now, later, window, ip);
    } else if lim'.failures != lim.failures {
      PruneLater(lim.failures, lim.history, now, now, window, ip);
    } else {
      TickKeeps(lim.failures, lim.history, now, later, window);
    }
  }

  function AddressOf(s: System, e: Event): string {
    match e
    case Advance(id, _, _) => if id in s.requests then s.requests[id].ip else ""
    case PruneEntry(_, ip) => ip
    case _ => ""
  }

  // What the step from s to s' does to tier t.
  predicate TierStep(cfg: Config, s: System, s': System, t: Tier, ip: string)
    requires t in cfg.tiers && t in s.limiters && t in s'.limiters
  {
    LimiterStep(s.limiters[t], s'.limiters[t], s.now, s'.now, cfg.tiers[t].window, ip)
  }

  lemma CheckStepsTier(cfg: Config, s: System, id: nat, at: Tier, next: Phase, t: Tier)
    requires s.limiters.Keys == cfg.tiers.Keys && t in cfg.tiers && id in s.requests
    ensures TierStep(cfg, s, Check(cfg, s, id, at, next), t, s.requests[id].ip)
  {
  }

  lemma AddStepsTier(cfg: Config, s: System, id: nat, at: Tier, next: Phase, passed: nat, t: Tier)
    requires s.limiters.Keys == cfg.tiers.Keys && t in cfg.tiers && id in s.requests
    ensures TierStep(cfg, s, AddFailure(cfg, s, id, at, next, passed), t, s.requests[id].ip)
  {
  }

  lemma AdvanceStepsTier(cfg: Config, s: System, id: nat, verdict: Verdict, passed: nat, t: Tier)
    requires s.limiters.Keys == cfg.tiers.Keys && t in cfg.tiers && id in s.requests
    ensures TierStep(cfg, s, AdvanceRequest(cfg, s, id, verdict, passed), t, s.requests[id].ip)
  {
    match s.requests[id].phase
    case CheckBurst => CheckStepsTier(cfg, s, id, Burst, CheckSustained, t);
    case CheckSustained => CheckStepsTier(cfg, s, id, Sustained, Authenticating, t);
    case RecordBurst => AddStepsTier(cfg, s, id, Burst, RecordSustained, passed, t);
    case RecordSustained => AddStepsTier(cfg, s, id, Sustained, Answered(UNAUTHORIZED), passed, t);
    case _ =>
  }

  lemma StepsLimiter(cfg: Config, s: System, e: Event, t: Tier)
    requires s.limiters.Keys == cfg.tiers.Keys && t in cfg.tiers
    ensures TierStep(cfg, s, Step(cfg, s, e), t, AddressOf(s, e))
  {
    if e.Advance? && e.id in s.requests {
      AdvanceStepsTier(cfg, s, e.id, e.verdict, e.passed, t);
    }
  }

  lemma RepresentedStep(cfg: Config, s: System, e: Event, t: Tier)
    requires s.limiters.Keys == cfg.tiers.Keys && t in cfg.tiers && Represented(cfg, s, t)
    ensures Represented(cfg, Step(cfg, s, e), t)
  {
    StepsLimiter(cfg, s, e, t);
    LimiterStepKeeps(s.limiters[t], Step(cfg, s, e).limiters[t], s.now, Step(cfg, s, e).now, cfg.tiers[t].window,
                     AddressOf(s, e));
  }

  lemma {:induction false} RunRepresented(cfg: Config, start: int, events: seq<Event>, t: Tier)
    requires t in cfg.tiers
    ensures Represented(cfg, Run(cfg, start, events), t)
  {
    if events != [] {
      var n := |events| - 1;
      RunRepresented(cfg, start, events[..n], t);
      RepresentedStep(cfg, Run(cfg, start, events[..n]), events[n], t);
    }
  }

  // ---- what a step does to one tier

  // The request is about to be recorded in tier t.
  predicate RecordsNow(t: Tier, phase: Phase) {
    match t
    case Burst => phase.RecordBurst?
    case Sustained => phase.RecordSustained?
  }

  predicate MayPass(cfg: Config, s: System, t: Tier, ip: string)
    requires t in cfg.tiers && t in s.limiters
  {
    CountFrom(Times(s.limiters[t].history, ip), s.now - cfg.tiers[t].window) < cfg.tiers[t].maxFailures
  }

  // Request id moves to phase. If tier t is due to record it, one failure of its address is added;
  // otherwise the tier's history stays, and the request gets past the tier's check only if the
  // address has fewer recent failures than the tier allows.
  predicate Moves(cfg: Config, s: System, s': System, t: Tier, id: nat, phase: Phase) {
    && t in cfg.tiers && t in s.limiters && t in s'.limiters && id in s.requests
    && s'.requests == s.requests[id := s.requests[id].(phase := phase)]
    && s'.now >= s.now
    && var lim, lim', r := s.limiters[t], s'.limiters[t], s.requests[id];
       var records := RecordsNow(t, r.phase);
       && Records(t, phase) == Records(t, r.phase) + (if records then 1 else 0)
       && lim'.history == lim.history + (if records then [Failure(r.ip, s.now)] else [])
       && lim'.senders == lim.senders + (if records then [id] else [])
       && (IsPast(t, phase) ==> !records && (IsPast(t, r.phase) || MayPass(cfg, s, t, r.ip)))
  }

  lemma PassesIff(cfg: Config, s: System, t: Tier, ip: string)
    requires t in cfg.tiers && t in s.limiters && Represented(cfg, s, t)
    ensures MayPass(cfg, s, t, ip) <==>
            |Kept(Pruned(s.limiters[t].failures, ip, s.now - cfg.tiers[t].window), ip)| < cfg.tiers[t].maxFailures
  {
    PruneLater(s.limiters[t].failures, s.limiters[t].history, s.now, s.now, cfg.tiers[t].window, ip);
  }

  // A request in this phase goes on to next when it passes the tier's check.
  predicate IsCheck(t: Tier, phase: Phase, next: Phase) {
    match t
    case Burst => phase == CheckBurst && next == CheckSustained
    case Sustained => phase == CheckSustained && next == Authenticating
  }

  // A request in this phase is recorded in the tier and goes on to next.
  predicate IsRecord(t: Tier, phase: Phase, next: Phase) {
    match t
    case Burst => phase == RecordBurst && next == RecordSustained
    case Sustained => phase == RecordSustained && next == Answered(UNAUTHORIZED)
  }

  lemma CheckMoves(cfg: Config, s: System, id: nat, checked: Tier, next: Phase, t: Tier)
    requires s.limiters.Keys == cfg.tiers.Keys && t in cfg.tiers && Represented(cfg, s, t) && id in s.requests
    requires IsCheck(checked, s.requests[id].phase, next)
    ensures var s' := Check(cfg, s, id, checked, next);
            Moves(cfg, s, s', t, id, s'.requests[id].phase)
  {
    PassesIff(cfg, s, t, s.requests[id].ip);
    assert s.limiters[t].history + [] == s.limiters[t].history && s.limiters[t].senders + [] == s.limiters[t].senders;
  }

  lemma AddMoves(cfg: Config, s: System, id: nat, added: Tier, next: Phase, passed: nat, t: Tier)
    requires s.limiters.Keys == cfg.tiers.Keys && t in cfg.tiers && id in s.requests
    requires IsRecord(added, s.requests[id].phase, next)
    ensures Moves(cfg, s, AddFailure(cfg, s, id, added, next, passed), t, id, next)
  {
    assert s.limiters[t].history + [] == s.limiters[t].history && s.limiters[t].senders + [] == s.limiters[t].senders;
  }

  lemma AdvanceMoves(cfg: Config, s: System, id: nat, verdict: Verdict, passed: nat, t: Tier)
    requires s.limiters.Keys == cfg.tiers.Keys && t in cfg.tiers && Represented(cfg, s, t)
    requires id in s.requests && !s.requests[id].phase.Answered?
    ensures var s' := AdvanceRequest(cfg, s, id, verdict, passed);
            Moves(cfg, s, s', t, id, s'.requests[id].phase)
  {
    match s.requests[id].phase
    case CheckBurst => CheckMoves(cfg, s, id, Burst, CheckSustained, t);
    case CheckSustained => CheckMoves(cfg, s, id, Sustained, Authenticating, t);
    case RecordBurst => AddMoves(cfg, s, id, Burst, RecordSustained, passed, t);
    case RecordSustained => AddMoves(cfg, s, id, Sustained, Answered(UNAUTHORIZED), passed, t);
    case Authenticating =>
      var s', lim := AdvanceRequest(cfg, s, id, verdict, passed), s.limiters[t];
      assert lim.history + [] == lim.history && lim.senders + [] == lim.senders;
      assert s'.requests[id].phase == AfterVerdict(s.requests[id].header, verdict);
  }

  // Every other event leaves the tier's history alone and at most adds a request that has not been checked.
  ghost predicate Quiet(s: System, s': System, t: Tier) {
    && t in s.limiters && t in s'.limiters && s'.now >= s.now
    && s'.limiters[t].history == s.limiters[t].history && s'.limiters[t].senders == s.limiters[t].senders
    && (s'.requests == s.requests || exists id, r :: Joins(s, s', id, r))
  }

  predicate Joins(s: System, s': System, id: nat, r: Request) {
    id !in s.requests && r.phase.CheckBurst? && s'.requests == s.requests[id := r]
  }

  predicate Acts(s: System, e: Event) {
    e.Advance? && e.id in s.requests && !s.requests[e.id].phase.Answered?
  }

  lemma OthersQuiet(cfg: Config, s: System, e: Event, t: Tier)
    requires s.limiters.Keys == cfg.tiers.Keys && t in cfg.tiers && !Acts(s, e)
    ensures Quiet(s, Step(cfg, s, e), t)
  {
    if e.Arrive? && Step(cfg, s, e) != s {
      assert Joins(s, Step(cfg, s, e), e.id, Request(e.ip, e.header, CheckBurst));
    }
  }

  // ---- requests in flight and past a check

  lemma {:induction false} Cardinality(a: set<nat>, b: set<nat>)
    requires a <= b
    ensures |a| <= |b|
  {
    if x :| x in a {
      Cardinality(a - {x}, b - {x});
    }
  }

  function Moved(requests: map<nat, Request>, id: nat, phase: Phase): map<nat, Request>
    requires id in requests
  {
    requests[id := requests[id].(phase := phase)]
  }

  lemma PastAfterMove(requests: map<nat, Request>, id: nat, phase: Phase, t: Tier, ip: string)
    requires id in requests
    ensures Past(Moved(requests, id, phase), t, ip) ==
            if requests[id].ip != ip then Past(requests, t, ip)
            else if IsPast(t, phase) then Past(requests, t, ip) + {id}
            else Past(requests, t, ip) - {id}
  {
  }

  lemma PastMoves(requests: map<nat, Request>, id: nat, phase: Phase, t: Tier, ip: string)
    requires id in requests
    ensures var past, past' := Past(requests, t, ip), Past(Moved(requests, id, phase), t, ip);
            && |past'| <= |past| +
               (if requests[id].ip == ip && IsPast(t, phase) && !IsPast(t, requests[id].phase) then 1 else 0)
            && (requests[id].ip == ip && !IsPast(t, phase) && IsPast(t, requests[id].phase) ==> |past'| == |past| - 1)
  {
    PastAfterMove(requests, id, phase, t, ip);
    var past := Past(requests, t, ip);
    assert id in past ==> past + {id} == past;
    assert id !in past ==> past - {id} == past;
  }

  lemma PastWithin(requests: map<nat, Request>, id: nat, t: Tier, ip: string)
    requires id in requests && requests[id].ip == ip && !requests[id].phase.Answered? && !IsPast(t, requests[id].phase)
    ensures |Past(requests, t, ip)| + 1 <= |InFlight(requests, ip)|
  {
    Cardinality(Past(requests, t, ip) + {id}, InFlight(requests, ip));
  }

  lemma AdvanceShape(cfg: Config, s: System, id: nat, verdict: Verdict, passed: nat) returns (phase: Phase)
    requires s.limiters.Keys == cfg.tiers.Keys && id in s.requests
    ensures AdvanceRequest(cfg, s, id, verdict, passed).requests == s.requests[id := s.requests[id].(phase := phase)]
    ensures s.requests[id].phase.Answered? ==> phase.Answered?
  {
    phase := AdvanceRequest(cfg, s, id, verdict, passed).requests[id].phase;
    if s.requests[id].phase.Answered? {
      assert s.requests == s.requests[id := s.requests[id]];
    }
  }

  lemma InFlightMoves(requests: map<nat, Request>, id: nat, phase: Phase, ip: string)
    requires id in requests && (requests[id].phase.Answered? ==> phase.Answered?)
    ensures |InFlight(requests[id := requests[id].(phase := phase)], ip)| <= |InFlight(requests, ip)|
  {
    Cardinality(InFlight(requests[id := requests[id].(phase := phase)], ip), InFlight(requests, ip));
  }

  lemma InFlightJoins(requests: map<nat, Request>, id: nat, r: Request, ip: string)
    requires id !in requests && !r.phase.Answered?
    ensures |InFlight(requests[id := r], ip)| == |InFlight(requests, ip)| + if r.ip == ip then 1 else 0
  {
    assert InFlight(requests[id := r], ip) == InFlight(requests, ip) + if r.ip == ip then {id} else {};
  }

  lemma InFlightStep(cfg: Config, s: System, e: Event, ip: string)
    requires s.limiters.Keys == cfg.tiers.Keys && |InFlight(s.requests, ip)| <= cfg.maxInFlight
    ensures |InFlight(Step(cfg, s, e).requests, ip)| <= cfg.maxInFlight
  {
    var s' := Step(cfg, s, e);
    if e.Advance? && e.id in s.requests {
      var phase := AdvanceShape(cfg, s, e.id, e.verdict, e.passed);
      InFlightMoves(s.requests, e.id, phase, ip);
    } else if e.Arrive? && s' != s {
      InFlightJoins(s.requests, e.id, Request(e.ip, e.header, CheckBurst), ip);
    } else {
      assert s'.requests == s.requests;
    }
  }

  lemma {:induction false} RunInFlight(cfg: Config, start: int, events: seq<Event>, ip: string)
    ensures |InFlight(Run(cfg, start, events).requests, ip)| <= cfg.maxInFlight
  {
    if events == [] {
      assert InFlight(map[], ip) == {};
    } else {
      var n := |events| - 1;
      RunInFlight(cfg, start, events[..n], ip);
      InFlightStep(cfg, Run(cfg, start, events[..n]), events[n], ip);
    }
  }

  // ---- the budget is kept

  lemma TimesMove(cfg: Config, s: System, s': System, t: Tier, id: nat, phase: Phase, ip: string)
    requires Moves(cfg, s, s', t, id, phase)
    ensures var times, r := Times(s.limiters[t].history, ip), s.requests[id];
            Times(s'.limiters[t].history, ip) == if RecordsNow(t, r.phase) && r.ip == ip then times + [s.now] else times
  {
    var history, r := s.limiters[t].history, s.requests[id];
    assert history + [] == history;
    if RecordsNow(t, r.phase) {
      TimesAppend(history, Failure(r.ip, s.now), ip);
      assert Times(history, ip) + [] == Times(history, ip);
    }
  }

  lemma BoundedAppend(times: seq<int>, at: int, window: int, bound: nat)
    requires WindowsBounded(times, window, bound) && CountFrom(times, at - window) < bound
    ensures CountFrom(times + [at], at - window) <= CountFrom(times, at - window) + 1
    ensures WindowsBounded(times + [at], window, bound)
  {
    assert (times + [at])[..|times|] == times;
  }

  lemma BudgetMoves(cfg: Config, s: System, s': System, t: Tier, id: nat, phase: Phase, ip: string)
    requires Moves(cfg, s, s', t, id, phase) && Budget(cfg, s, t, ip)
    requires |InFlight(s.requests, ip)| <= cfg.maxInFlight && !s.requests[id].phase.Answered?
    ensures Budget(cfg, s', t, ip)
  {
    var r, window := s.requests[id], cfg.tiers[t].window;
    var times, times' := Times(s.limiters[t].history, ip), Times(s'.limiters[t].history, ip);
    PastMoves(s.requests, id, phase, t, ip);
    TimesMove(cfg, s, s', t, id, phase, ip);
    CountMonotone(times', s.now - window, s'.now - window);
    if RecordsNow(t, r.phase) && r.ip == ip {
      BoundedAppend(times, s.now, window, Bound(cfg, t));
    } else if r.ip == ip && IsPast(t, phase) && !IsPast(t, r.phase) {
      PastWithin(s.requests, id, t, ip);
    }
  }

  lemma BudgetQuiet(cfg: Config, s: System, s': System, t: Tier, ip: string)
    requires t in cfg.tiers && Quiet(s, s', t) && Budget(cfg, s, t, ip)
    ensures Budget(cfg, s', t, ip)
  {
    CountMonotone(Times(s.limiters[t].history, ip), s.now - cfg.tiers[t].window, s'.now - cfg.tiers[t].window);
    assert Past(s'.requests, t, ip) == Past(s.requests, t, ip);
  }

  lemma {:induction false} RunBudget(cfg: Config, start: int, events: seq<Event>, t: Tier, ip: string)
    requires t in cfg.tiers
    ensures Budget(cfg, Run(cfg, start, events), t, ip)
  {
    if events == [] {
      assert Past(map[], t, ip) == {};
    } else {
      var n := |events| - 1;
      var s, e := Run(cfg, start, events[..n]), events[n];
      RunBudget(cfg, start, events[..n], t, ip);
      if Acts(s, e) {
        RunRepresented(cfg, start, events[..n], t);
        RunInFlight(cfg, start, events[..n], ip);
        AdvanceMoves(cfg, s, e.id, e.verdict, e.passed, t);
        BudgetMoves(cfg, s, Step(cfg, s, e), t, e.id, Step(cfg, s, e).requests[e.id].phase, ip);
      } else {
        OthersQuiet(cfg, s, e, t);
        BudgetQuiet(cfg, s, Step(cfg, s, e), t, ip);
      }
    }
  }

  // ---- main results

  function CountBetween(times: seq<int>, lo: int, hi: int): nat {
    if times == [] then 0 else
    var n := |times| - 1;
    CountBetween(times[..n], lo, hi) + if lo <= times[n] <= hi then 1 else 0
  }

  lemma {:induction false} BetweenBounded(times: seq<int>, window: int, bound: nat, lo: int)
    requires Sorted(times) && WindowsBounded(times, window, bound)
    ensures CountBetween(times, lo, lo + window) <= bound
  {
    if times != [] {
      var n := |times| - 1;
      if times[n] <= lo + window {
        BetweenIsFrom(times, lo, lo + window);
        CountMonotone(times, times[n] - window, lo);
      } else {
        BetweenBounded(times[..n], window, bound, lo);
      }
    }
  }

  lemma {:induction false} BetweenIsFrom(times: seq<int>, lo: int, hi: int)
    requires forall j :: 0 <= j < |times| ==> times[j] <= hi
    ensures CountBetween(times, lo, hi) == CountFrom(times, lo)
  {
    if times != [] { BetweenIsFrom(times[..|times| - 1], lo, hi); }
  }

  lemma {:induction false} BetweenIsFailed(history: seq<Failure>, ip: string, lo: int, hi: int)
    ensures CountBetween(Times(history, ip), lo, hi) == |FailedBetween(history, ip, lo, hi)|
  {
    if history != [] {
      var n := |history| - 1;
      var before := Times(history[..n], ip);
      BetweenIsFailed(history[..n], ip, lo, hi);
      OneMoreFailed(history, ip, lo, hi);
      assert (before + [history[n].at])[..|before|] == before && before + [] == before;
    }
  }

  lemma FailedBounded(history: seq<Failure>, ip: string, window: int, bound: nat, lo: int)
    requires Sorted(Times(history, ip)) && WindowsBounded(Times(history, ip), window, bound)
    ensures |FailedBetween(history, ip, lo, lo + window)| <= bound
  {
    BetweenBounded(Times(history, ip), window, bound, lo);
    BetweenIsFailed(history, ip, lo, lo + window);
  }

  lemma RunWindows(cfg: Config, start: int, events: seq<Event>, t: Tier, ip: string)
    requires t in cfg.tiers
    ensures var times := Times(Run(cfg, start, events).limiters[t].history, ip);
            Sorted(times) && WindowsBounded(times, cfg.tiers[t].window, Bound(cfg, t))
  {
    RunRepresented(cfg, start, events, t);
    TimesSorted(Run(cfg, start, events).limiters[t].history, ip);
    RunBudget(cfg, start, events, t, ip);
  }

  // In every interleaving, any interval of a tier's window length holds at most
  // maxFailures - 1 + maxInFlight recorded failures of one address; none at all if maxFailures < 1.
  lemma FailuresPerWindow(cfg: Config, start: int, events: seq<Event>, t: Tier, ip: string, from: int)
    requires t in cfg.tiers
    ensures var tier, failed := cfg.tiers[t], Run(cfg, start, events).limiters[t].history;
            |FailedBetween(failed, ip, from, from + tier.window)| <=
            if tier.maxFailures >= 1 then tier.maxFailures - 1 + cfg.maxInFlight else 0
  {
    RunWindows(cfg, start, events, t, ip);
    FailedBounded(Run(cfg, start, events).limiters[t].history, ip, cfg.tiers[t].window, Bound(cfg, t), from);
  }

  lemma AttributedMoves(cfg: Config, s: System, s': System, t: Tier, moved: nat, phase: Phase, id: nat)
    requires Moves(cfg, s, s', t, moved, phase) && Attributed(s, t, id)
    ensures Attributed(s', t, id)
  {
  }

  lemma AttributedStep(cfg: Config, s: System, e: Event, t: Tier, id: nat)
    requires s.limiters.Keys == cfg.tiers.Keys && t in cfg.tiers && Represented(cfg, s, t) && Attributed(s, t, id)
    ensures Attributed(Step(cfg, s, e), t, id)
  {
    if Acts(s, e) {
      AdvanceMoves(cfg, s, e.id, e.verdict, e.passed, t);
      var s' := AdvanceRequest(cfg, s, e.id, e.verdict, e.passed);
      AttributedMoves(cfg, s, s', t, e.id, s'.requests[e.id].phase, id);
    } else {
      OthersQuiet(cfg, s, e, t);
    }
  }

  lemma {:induction false} RunAttributed(cfg: Config, start: int, events: seq<Event>, t: Tier, id: nat)
    requires t in cfg.tiers
    ensures Attributed(Run(cfg, start, events), t, id)
  {
    if events != [] {
      var n := |events| - 1;
      RunAttributed(cfg, start, events[..n], t, id);
      RunRepresented(cfg, start, events[..n], t);
      AttributedStep(cfg, Run(cfg, start, events[..n]), events[n], t, id);
    }
  }

  // In every interleaving, each request answered 401 has been recorded exactly once in every
  // configured tier, and a request with any other answer in none.
  lemma RecordedOnce(cfg: Config, start: int, events: seq<Event>, t: Tier, id: nat)
    requires t in cfg.tiers && id in Run(cfg, start, events).requests
    requires Run(cfg, start, events).requests[id].phase.Answered?
    ensures var s := Run(cfg, start, events);
            multiset(s.limiters[t].senders)[id] == if s.requests[id].phase.status == UNAUTHORIZED then 1 else 0
  {
    RunAttributed(cfg, start, events, t, id);
  }

  predicate SendersMatch(s: System, t: Tier)
    requires t in s.limiters
  {
    var lim := s.limiters[t];
    && |lim.senders| == |lim.history|
    && forall i :: 0 <= i < |lim.senders| ==>
         lim.senders[i] in s.requests && s.requests[lim.senders[i]].ip == lim.history[i].ip
  }

  // Each failure in a history is under the address of the request it was recorded for.
  lemma {:induction false} RecordedUnderOwnAddress(cfg: Config, start: int, events: seq<Event>, t: Tier)
    requires t in cfg.tiers
    ensures SendersMatch(Run(cfg, start, events), t)
  {
    if events != [] {
      var n := |events| - 1;
      var s, e := Run(cfg, start, events[..n]), events[n];
      RecordedUnderOwnAddress(cfg, start, events[..n], t);
      if Acts(s, e) {
        RunRepresented(cfg, start, events[..n], t);
        AdvanceMoves(cfg, s, e.id, e.verdict, e.passed, t);
      } else {
        OthersQuiet(cfg, s, e, t);
      }
    }
  }

  // ---- what the answers rest on

  // At event k the request was answered or sent on to be recorded, on this verdict of the verifier.
  ghost predicate DecidedAt(cfg: Config, start: int, events: seq<Event>, id: nat, k: nat, verdict: Verdict) {
    && k < |events| && events[k].Advance? && events[k].id == id && events[k].verdict == verdict
    && id in Run(cfg, start, events[..k]).requests && Run(cfg, start, events[..k]).requests[id].phase.Authenticating?
  }

  // The tier has too many failures of the address within its window.
  ghost predicate HasTooMany(cfg: Config, s: System, t: Tier, ip: string) {
    && t in cfg.tiers && t in s.limiters
    && |FailedBetween(s.limiters[t].history, ip, s.now - cfg.tiers[t].window, s.now)| >= cfg.tiers[t].maxFailures
  }

  ghost predicate BlockedAt(cfg: Config, start: int, events: seq<Event>, ip: string, k: nat, t: Tier) {
    k < |events| && HasTooMany(cfg, Run(cfg, start, events[..k]), t, ip)
  }

  ghost predicate Accounted(cfg: Config, start: int, events: seq<Event>, id: nat, header: string) {
    exists k, verdict: Verdict, token ::
      DecidedAt(cfg, start, events, id, k, verdict) && verdict.Accepted? && Bears(header, token)
  }

  ghost predicate VerifierFailed(cfg: Config, start: int, events: seq<Event>, id: nat, header: string) {
    exists k, token :: DecidedAt(cfg, start, events, id, k, Failed) && Bears(header, token)
  }

  ghost predicate Denied(cfg: Config, start: int, events: seq<Event>, id: nat, header: string) {
    (forall token :: !Bears(header, token)) || exists k :: DecidedAt(cfg, start, events, id, k, Rejected)
  }

  ghost predicate Blocked(cfg: Config, start: int, events: seq<Event>, ip: string) {
    exists k, t :: BlockedAt(cfg, start, events, ip, k, t)
  }

  // What the run must hold for a request to be in this phase.
  ghost predicate Grounded(cfg: Config, start: int, events: seq<Event>, id: nat, r: Request) {
    match r.phase
    case RecordBurst => Denied(cfg, start, events, id, r.header)
    case RecordSustained => Denied(cfg, start, events, id, r.header)
    case Answered(status) =>
      (status == 200 && Accounted(cfg, start, events, id, r.header)) ||
      (status == 401 && Denied(cfg, start, events, id, r.header)) ||
      (status == 429 && Blocked(cfg, start, events, r.ip)) ||
      (status == 500 && VerifierFailed(cfg, start, events, id, r.header))
    case _ => true
  }

  lemma DecidedEarlier(cfg: Config, start: int, events: seq<Event>, e: Event, id: nat, k: nat, verdict: Verdict)
    requires DecidedAt(cfg, start, events, id, k, verdict)
    ensures DecidedAt(cfg, start, events + [e], id, k, verdict)
  {
    assert (events + [e])[..k] == events[..k];
  }

  lemma BlockedEarlier(cfg: Config, start: int, events: seq<Event>, e: Event, ip: string, k: nat, t: Tier)
    requires BlockedAt(cfg, start, events, ip, k, t)
    ensures BlockedAt(cfg, start, events + [e], ip, k, t)
  {
    assert (events + [e])[..k] == events[..k];
  }

  // The grounds stay when the run goes on.
  lemma StaysGrounded(cfg: Config, start: int, events: seq<Event>, e: Event, id: nat, r: Request)
    requires Grounded(cfg, start, events, id, r)
    ensures Grounded(cfg, start, events + [e], id, r)
  {
    if k, verdict: Verdict, token :|
         DecidedAt(cfg, start, events, id, k, verdict) && verdict.Accepted? && Bears(r.header, token) {
      DecidedEarlier(cfg, start, events, e, id, k, verdict);
    }
    if k, token :| DecidedAt(cfg, start, events, id, k, Failed) && Bears(r.header, token) {
      DecidedEarlier(cfg, start, events, e, id, k, Failed);
    }
    if k :| DecidedAt(cfg, start, events, id, k, Rejected) {
      DecidedEarlier(cfg, start, events, e, id, k, Rejected);
    }
    if k, t :| BlockedAt(cfg, start, events, r.ip, k, t) {
      BlockedEarlier(cfg, start, events, e, r.ip, k, t);
    }
  }

  lemma RunStep(cfg: Config, start: int, events: seq<Event>, e: Event)
    ensures Run(cfg, start, events + [e]) == Step(cfg, Run(cfg, start, events), e)
  {
    assert (events + [e])[..|events|] == events;
  }

  predicate Blocks(cfg: Config, s: System, t: Tier, ip: string) {
    t in cfg.tiers && t in s.limiters && !MayPass(cfg, s, t, ip)
  }

  // A check stops the request exactly when the tier's history says so, and leaves the histories alone.
  lemma CheckOutcome(cfg: Config, s: System, id: nat, checked: Tier, next: Phase)
    requires s.limiters.Keys == cfg.tiers.Keys && id in s.requests
    requires checked in cfg.tiers ==> Represented(cfg, s, checked)
    ensures var s', r := Check(cfg, s, id, checked, next), s.requests[id];
            && s'.requests == s.requests[id := r.(phase := if Blocks(cfg, s, checked, r.ip) then Answered(429)
                                                  else next)]
            && s'.now == s.now && s'.limiters.Keys == s.limiters.Keys
            && forall t :: t in s.limiters ==> s'.limiters[t].history == s.limiters[t].history
  {
    if checked in cfg.tiers { PassesIff(cfg, s, checked, s.requests[id].ip); }
  }

  lemma BlocksIffFailed(cfg: Config, s: System, t: Tier, ip: string)
    requires t in s.limiters && Ordered(s.limiters[t].history, s.now)
    ensures Blocks(cfg, s, t, ip) <==> HasTooMany(cfg, s, t, ip)
  {
    if t in cfg.tiers { CountIsFailed(s.limiters[t].history, ip, s.now - cfg.tiers[t].window, s.now); }
  }

  lemma RunOrdered(cfg: Config, start: int, events: seq<Event>, t: Tier)
    requires t in cfg.tiers
    ensures var s := Run(cfg, start, events); Ordered(s.limiters[t].history, s.now)
  {
    RunRepresented(cfg, start, events, t);
  }

  lemma BlockedAtEnd(cfg: Config, start: int, events: seq<Event>, e: Event, t: Tier, ip: string)
    requires HasTooMany(cfg, Run(cfg, start, events), t, ip)
    ensures Blocked(cfg, start, events + [e], ip)
  {
    assert (events + [e])[..|events|] == events;
    assert BlockedAt(cfg, start, events + [e], ip, |events|, t);
  }

  lemma BlockedNow(cfg: Config, start: int, events: seq<Event>, e: Event, t: Tier, ip: string)
    requires Blocks(cfg, Run(cfg, start, events), t, ip)
    ensures Blocked(cfg, start, events + [e], ip)
  {
    RunOrdered(cfg, start, events, t);
    BlocksIffFailed(cfg, Run(cfg, start, events), t, ip);
    BlockedAtEnd(cfg, start, events, e, t, ip);
  }

  lemma CheckGrounded(cfg: Config, start: int, events: seq<Event>, e: Event, checked: Tier, next: Phase)
    requires e.Advance? && e.id in Run(cfg, start, events).requests
    requires IsCheck(checked, Run(cfg, start, events).requests[e.id].phase, next)
    ensures var s' := Check(cfg, Run(cfg, start, events), e.id, checked, next);
            Grounded(cfg, start, events + [e], e.id, s'.requests[e.id])
  {
    var s := Run(cfg, start, events);
    if checked in cfg.tiers { RunRepresented(cfg, start, events, checked); }
    CheckOutcome(cfg, s, e.id, checked, next);
    if Blocks(cfg, s, checked, s.requests[e.id].ip) {
      BlockedNow(cfg, start, events, e, checked, s.requests[e.id].ip);
    }
  }

  lemma VerdictGrounded(cfg: Config, start: int, events: seq<Event>, e: Event)
    requires e.Advance? && e.id in Run(cfg, start, events).requests
    requires Run(cfg, start, events).requests[e.id].phase.Authenticating?
    ensures var r := Run(cfg, start, events).requests[e.id];
            Grounded(cfg, start, events + [e], e.id, r.(phase := AfterVerdict(r.header, e.verdict)))
  {
    var r := Run(cfg, start, events).requests[e.id];
    assert (events + [e])[..|events|] == events;
    assert DecidedAt(cfg, start, events + [e], e.id, |events|, e.verdict);
    AnswerMeans(r.header, _ => e.verdict);
  }

  lemma AdvanceGrounded(cfg: Config, start: int, events: seq<Event>, e: Event)
    requires e.Advance? && e.id in Run(cfg, start, events).requests
    requires Grounded(cfg, start, events, e.id, Run(cfg, start, events).requests[e.id])
    ensures var s' := AdvanceRequest(cfg, Run(cfg, start, events), e.id, e.verdict, e.passed);
            e.id in s'.requests && Grounded(cfg, start, events + [e], e.id, s'.requests[e.id])
  {
    var s := Run(cfg, start, events);
    match s.requests[e.id].phase
    case CheckBurst => CheckGrounded(cfg, start, events, e, Burst, CheckSustained);
    case CheckSustained => CheckGrounded(cfg, start, events, e, Sustained, Authenticating);
    case Authenticating => VerdictGrounded(cfg, start, events, e);
    case _ => StaysGrounded(cfg, start, events, e, e.id, s.requests[e.id]);
  }

  // In every interleaving: a request is answered 200 only when its header bears a token and, at the time it
  // was verified, the verifier accepted; 500 only when the verifier failed on its token; 401 only when there
  // is no token or the verifier rejected; 429 only when a tier had too many failures of its address at its
  // check; and nothing else.
  lemma {:induction false} RunGrounded(cfg: Config, start: int, events: seq<Event>, id: nat)
    requires id in Run(cfg, start, events).requests
    ensures Grounded(cfg, start, events, id, Run(cfg, start, events).requests[id])
  {
    if events != [] {
      var n := |events| - 1;
      var before, e := events[..n], events[n];
      var s := Run(cfg, start, before);
      assert before + [e] == events;
      RunStep(cfg, start, before, e);
      if id in s.requests {
        RunGrounded(cfg, start, before, id);
        if e.Advance? && e.id == id {
          AdvanceGrounded(cfg, start, before, e);
        } else {
          OtherRequestStays(cfg, s, e, id);
          StaysGrounded(cfg, start, before, e, id, s.requests[id]);
        }
      }
    }
  }

  lemma OtherRequestStays(cfg: Config, s: System, e: Event, id: nat)
    requires s.limiters.Keys == cfg.tiers.Keys && id in s.requests && !(e.Advance? && e.id == id)
    ensures id in Step(cfg, s, e).requests && Step(cfg, s, e).requests[id] == s.requests[id]
  {
  }

  // ---- a request that runs alone is handled as the code does it in one go

  // The request's next step, with nothing between.
  function Turn(cfg: Config, s: System, id: nat, verdict: Verdict): (s': System)
    requires s.limiters.Keys == cfg.tiers.Keys && id in s.requests
    ensures s'.limiters.Keys == cfg.tiers.Keys && id in s'.requests
  {
    AdvanceRequest(cfg, s, id, verdict, 0)
  }

  function Turns(cfg: Config, s: System, id: nat, verdict: Verdict): (s': System)
    requires s.limiters.Keys == cfg.tiers.Keys && id in s.requests
    ensures s'.limiters.Keys == cfg.tiers.Keys && id in s'.requests
  {
    ToBeRecorded(cfg, Turn(cfg, Turn(cfg, s, id, verdict), id, verdict), id, verdict)
  }

  // From the verdict on.
  function ToBeRecorded(cfg: Config, s: System, id: nat, verdict: Verdict): (s': System)
    requires s.limiters.Keys == cfg.tiers.Keys && id in s.requests
    ensures s'.limiters.Keys == cfg.tiers.Keys && id in s'.requests
  {
    Turn(cfg, Turn(cfg, Turn(cfg, s, id, verdict), id, verdict), id, verdict)
  }

  ghost predicate SameHistories(cfg: Config, s: System, s': System) {
    && s.limiters.Keys == s'.limiters.Keys == cfg.tiers.Keys
    && forall t :: t in cfg.tiers ==> s'.limiters[t].history == s.limiters[t].history
  }

  ghost predicate AllRepresented(cfg: Config, s: System) {
    s.limiters.Keys == cfg.tiers.Keys && forall t :: t in cfg.tiers ==> Represented(cfg, s, t)
  }

  // Only the request's phase is another; the limiters may have been pruned.
  ghost predicate SameButPhase(cfg: Config, s: System, s': System, id: nat, phase: Phase) {
    && id in s.requests && s'.requests == s.requests[id := s.requests[id].(phase := phase)]
    && s'.now == s.now && SameHistories(cfg, s, s')
  }

  // A step of a request that is checked.
  lemma CheckTurn(cfg: Config, s: System, id: nat, verdict: Verdict, checked: Tier, next: Phase)
    requires AllRepresented(cfg, s) && id in s.requests && IsCheck(checked, s.requests[id].phase, next)
    ensures SameButPhase(cfg, s, Turn(cfg, s, id, verdict), id,
                         if Blocks(cfg, s, checked, s.requests[id].ip) then Answered(429) else next)
  {
    CheckOutcome(cfg, s, id, checked, next);
  }

  lemma TurnRepresented(cfg: Config, s: System, id: nat, verdict: Verdict)
    requires AllRepresented(cfg, s) && id in s.requests
    ensures AllRepresented(cfg, Turn(cfg, s, id, verdict))
  {
    var e := Advance(id, verdict, 0);
    assert Step(cfg, s, e) == Turn(cfg, s, id, verdict);
    forall t | t in cfg.tiers
      ensures Represented(cfg, Turn(cfg, s, id, verdict), t)
    {
      RepresentedStep(cfg, s, e, t);
    }
  }

  // The same histories at the same time block the same.
  lemma BlocksAlike(cfg: Config, s: System, s': System, t: Tier, ip: string)
    requires SameHistories(cfg, s, s') && s.now == s'.now
    ensures Blocks(cfg, s, t, ip) <==> Blocks(cfg, s', t, ip)
  {
  }

  lemma AnsweredStays(cfg: Config, s: System, id: nat, verdict: Verdict)
    requires s.limiters.Keys == cfg.tiers.Keys && id in s.requests && s.requests[id].phase.Answered?
    ensures Turn(cfg, s, id, verdict) == s
  {
  }

  lemma PhaseTwice(cfg: Config, s: System, s1: System, s2: System, id: nat, first: Phase, second: Phase)
    requires SameButPhase(cfg, s, s1, id, first) && SameButPhase(cfg, s1, s2, id, second)
    ensures SameButPhase(cfg, s, s2, id, second)
  {
  }

  lemma BothChecks(cfg: Config, s: System, id: nat, verdict: Verdict)
    requires AllRepresented(cfg, s) && id in s.requests && s.requests[id].phase.CheckBurst?
    ensures var ip := s.requests[id].ip;
            SameButPhase(cfg, s, Turn(cfg, Turn(cfg, s, id, verdict), id, verdict), id,
                         if Blocks(cfg, s, Burst, ip) || Blocks(cfg, s, Sustained, ip) then Answered(429)
                         else Authenticating)
  {
    var s1 := Turn(cfg, s, id, verdict);
    CheckTurn(cfg, s, id, verdict, Burst, CheckSustained);
    if s1.requests[id].phase.CheckSustained? {
      TurnRepresented(cfg, s, id, verdict);
      CheckTurn(cfg, s1, id, verdict, Sustained, Authenticating);
      BlocksAlike(cfg, s, s1, Sustained, s.requests[id].ip);
      var s2 := Turn(cfg, s1, id, verdict);
      PhaseTwice(cfg, s, s1, s2, id, CheckSustained, s2.requests[id].phase);
    } else {
      AnsweredStays(cfg, s1, id, verdict);
    }
  }

  ghost predicate OneFailureMore(cfg: Config, s: System, s': System, ip: string) {
    && s.limiters.Keys == s'.limiters.Keys == cfg.tiers.Keys
    && forall t :: t in cfg.tiers ==> s'.limiters[t].history == s.limiters[t].history + [Failure(ip, s.now)]
  }

  // A record adds a failure to its own tier, if that is configured.
  lemma AddOutcome(cfg: Config, s: System, id: nat, added: Tier, next: Phase)
    requires s.limiters.Keys == cfg.tiers.Keys && id in s.requests
    ensures var s', r := AddFailure(cfg, s, id, added, next, 0), s.requests[id];
            && s'.requests == s.requests[id := r.(phase := next)] && s'.now == s.now
            && s'.limiters.Keys == cfg.tiers.Keys
            && forall t :: t in cfg.tiers ==>
                 s'.limiters[t].history == if t == added then s.limiters[t].history + [Failure(r.ip, s.now)]
                                           else s.limiters[t].history
  {
  }

  // Both tiers record the failure of a request that is to be denied.
  lemma BothRecords(cfg: Config, s: System, id: nat, verdict: Verdict)
    requires s.limiters.Keys == cfg.tiers.Keys && id in s.requests && s.requests[id].phase.RecordBurst?
    ensures var s', r := Turn(cfg, Turn(cfg, s, id, verdict), id, verdict), s.requests[id];
            s'.requests[id] == r.(phase := Answered(401)) && OneFailureMore(cfg, s, s', r.ip)
  {
    var s1 := Turn(cfg, s, id, verdict);
    AddOutcome(cfg, s, id, Burst, RecordSustained);
    AddOutcome(cfg, s1, id, Sustained, Answered(UNAUTHORIZED));
  }

  lemma VerifiedAlone(cfg: Config, s: System, id: nat, verdict: Verdict)
    requires s.limiters.Keys == cfg.tiers.Keys && id in s.requests && s.requests[id].phase.Authenticating?
    ensures var s', r := ToBeRecorded(cfg, s, id, verdict), s.requests[id];
            var status := Answer(r.header, _ => verdict);
            && s'.requests[id].phase == Answered(status) && status != 429
            && if status == 401 then OneFailureMore(cfg, s, s', r.ip) else SameHistories(cfg, s, s')
  {
    var s1 := Turn(cfg, s, id, verdict);
    if s1.requests[id].phase.RecordBurst? {
      BothRecords(cfg, s1, id, verdict);
    } else {
      AnsweredStays(cfg, s1, id, verdict);
    }
  }

  lemma BlocksAsPromised(cfg: Config, s: System, t: Tier, ip: string)
    requires AllRepresented(cfg, s)
    ensures Blocks(cfg, s, t, ip) <==> HasTooMany(cfg, s, t, ip)
  {
    if t in cfg.tiers {
      assert Represented(cfg, s, t);
      BlocksIffFailed(cfg, s, t, ip);
    }
  }

  // A request that is checked, verified and recorded without a break is answered, and leaves the histories, as
  // Middleware.Handle promises.
  lemma AloneIsHandled(cfg: Config, s: System, id: nat, verdict: Verdict)
    requires AllRepresented(cfg, s) && id in s.requests && s.requests[id].phase.CheckBurst?
    ensures var s', r := Turns(cfg, s, id, verdict), s.requests[id];
            && s'.requests[id].phase.Answered?
            && var status := s'.requests[id].phase.status;
               && (status == 429 <==> HasTooMany(cfg, s, Burst, r.ip) || HasTooMany(cfg, s, Sustained, r.ip))
               && (status != 429 ==> status == Answer(r.header, _ => verdict))
               && if status == 401 then OneFailureMore(cfg, s, s', r.ip) else SameHistories(cfg, s, s')
  {
    var s2 := Turn(cfg, Turn(cfg, s, id, verdict), id, verdict);
    BothChecks(cfg, s, id, verdict);
    BlocksAsPromised(cfg, s, Burst, s.requests[id].ip);
    BlocksAsPromised(cfg, s, Sustained, s.requests[id].ip);
    if s2.requests[id].phase.Authenticating? {
      VerifiedAlone(cfg, s2, id, verdict);
    } else {
      AnsweredStays(cfg, s2, id, verdict);
    }
  }
}
