/**
The cache of accepted bearer tokens (internal/auth/cache.go). The verifier behind it may change its
mind at any time, so every one of its answers is an input.
*/
module VerifyCache {
  import opened Wrappers
  import opened Middleware

  datatype Entry = Entry(name: string, scopes: seq<string>, expires: int)

  // ---- the two critical sections, on values

  function Lookup(entries: map<string, Entry>, token: string, now: int): Option<Verdict> {
    if token in entries && now < entries[token].expires
    then Some(Accepted(entries[token].name, entries[token].scopes)) else None
  }

  function Stored(entries: map<string, Entry>, token: string, verdict: Verdict, now: int, ttl: int): map<string, Entry>
  {
    match verdict
    case Accepted(name, scopes) => entries[token := Entry(name, scopes, now + ttl)]
    case _ => entries
  }

  // ---- calls one after the other

  // One call: the time of the lookup, what the verifier answers if it is asked, the time of the store.
  datatype Call = Call(token: string, lookupAt: int, answer: Verdict, storeAt: int)

  function Outcome(entries: map<string, Entry>, c: Call): Verdict {
    Lookup(entries, c.token, c.lookupAt).GetOr(c.answer)
  }

  predicate Asks(entries: map<string, Entry>, c: Call) {
    Lookup(entries, c.token, c.lookupAt).None?
  }

  function After(entries: map<string, Entry>, c: Call, ttl: int): map<string, Entry> {
    if Asks(entries, c) then Stored(entries, c.token, c.answer, c.storeAt, ttl) else entries
  }

  function EntriesAfter(calls: seq<Call>, ttl: int): map<string, Entry> {
    if calls == [] then map[] else After(EntriesAfter(calls[..|calls| - 1], ttl), calls[|calls| - 1], ttl)
  }

  predicate InOrder(calls: seq<Call>) {
    && (forall i :: 0 <= i < |calls| ==> calls[i].lookupAt <= calls[i].storeAt)
    && (forall i, j :: 0 <= i < j < |calls| ==> calls[i].storeAt <= calls[j].lookupAt)
  }

  // Call i asked the verifier and stored its acceptance.
  predicate Stores(calls: seq<Call>, ttl: int, i: nat)
    requires i < |calls|
  {
    Asks(EntriesAfter(calls[..i], ttl), calls[i]) && calls[i].answer.Accepted?
  }

  lemma {:induction false} StoreLasts(calls: seq<Call>, ttl: int, i: nat)
    requires InOrder(calls) && i < |calls| && Stores(calls, ttl, i)
    ensures var entries := EntriesAfter(calls, ttl);
            calls[i].token in entries && entries[calls[i].token].expires >= calls[i].storeAt + ttl
  {
    var n := |calls| - 1;
    if i < n {
      assert calls[..n][..i] == calls[..i];
      StoreLasts(calls[..n], ttl, i);
    }
  }

  // A token accepted and stored by call i is not put to the verifier again by any later call
  // whose lookup falls within ttl of that store.
  lemma NotAskedAgain(calls: seq<Call>, ttl: int, i: nat, j: nat)
    requires InOrder(calls) && i < j < |calls| && Stores(calls, ttl, i)
    requires calls[j].token == calls[i].token && calls[j].lookupAt < calls[i].storeAt + ttl
    ensures !Asks(EntriesAfter(calls[..j], ttl), calls[j])
    ensures Outcome(EntriesAfter(calls[..j], ttl), calls[j]).Accepted?
  {
    assert calls[..j][..i] == calls[..i];
    StoreLasts(calls[..j], ttl, i);
  }

  // ---- calls at the same time

  datatype Phase =
    | Calling(token: string, began: int)                     // waits for the verifier
    | Storing(token: string, verdict: Verdict, began: int)   // has an acceptance to store
    | Done(token: string, verdict: Verdict, cached: bool, began: int, at: int)

  // said: everything the verifier has answered, with the time. storedAt: when each entry was stored.
  // served: the answers given from the cache.
  datatype Said = Said(token: string, verdict: Verdict, at: int)

  datatype Served = Served(token: string, verdict: Verdict, at: int, storedAt: int)

  datatype System = System(now: int, entries: map<string, Entry>, threads: map<nat, Phase>,
                           said: seq<Said>, storedAt: map<string, int>, served: seq<Served>)

  datatype Event =
    | Tick(passed: nat)
    | Begin(thread: nat, token: string)
    | VerifierAnswers(thread: nat, verdict: Verdict)
    | Store(thread: nat)

  function Step(ttl: int, s: System, e: Event): System {
    match e
    case Tick(passed) => s.(now := s.now + passed)
    case Begin(th, token) =>
      if th in s.threads then s else
      (match Lookup(s.entries, token, s.now)
       case Some(v) =>
         var storedAt := if token in s.storedAt then s.storedAt[token] else s.now;
         s.(threads := s.threads[th := Done(token, v, true, s.now, s.now)],
            served := s.served + [Served(token, v, s.now, storedAt)])
       case None => s.(threads := s.threads[th := Calling(token, s.now)]))
    case VerifierAnswers(th, v) =>
      if th !in s.threads || !s.threads[th].Calling? then s else
      var token, began := s.threads[th].token, s.threads[th].began;
      s.(said := s.said + [Said(token, v, s.now)],
         threads := s.threads[th := if v.Accepted? then Storing(token, v, began)
                              else Done(token, v, false, began, s.now)])
    case Store(th) =>
      if th !in s.threads || !s.threads[th].Storing? then s else
      var token, v := s.threads[th].token, s.threads[th].verdict;
      s.(entries := Stored(s.entries, token, v, s.now, ttl), storedAt := s.storedAt[token := s.now],
         threads := s.threads[th := Done(token, v, false, s.threads[th].began, s.now)])
  }

  function Run(ttl: int, start: int, events: seq<Event>): System {
    if events == [] then System(start, map[], map[], [], map[], [])
    else Step(ttl, Run(ttl, start, events[..|events| - 1]), events[|events| - 1])
  }

  // The verifier accepted this token with exactly this identity, at this time or before.
  predicate SaidBy(said: seq<Said>, token: string, verdict: Verdict, until: int) {
    verdict.Accepted? &&
    exists i :: 0 <= i < |said| && said[i].token == token && said[i].verdict == verdict && said[i].at <= until
  }

  predicate EntrySound(ttl: int, s: System, token: string) {
    token in s.entries ==>
      token in s.storedAt && s.storedAt[token] <= s.now &&
      s.entries[token].expires == s.storedAt[token] + ttl &&
      SaidBy(s.said, token, Accepted(s.entries[token].name, s.entries[token].scopes), s.storedAt[token])
  }

  predicate ServedSound(ttl: int, said: seq<Said>, a: Served) {
    a.storedAt <= a.at < a.storedAt + ttl && SaidBy(said, a.token, a.verdict, a.storedAt)
  }

  // The verifier gave this answer in this span of time.
  predicate SaidDuring(said: seq<Said>, token: string, verdict: Verdict, from: int, until: int) {
    exists i :: 0 <= i < |said| && said[i].token == token && said[i].verdict == verdict && from <= said[i].at <= until
  }

  predicate ServedAt(served: seq<Served>, token: string, verdict: Verdict, at: int) {
    exists i :: 0 <= i < |served| && served[i].token == token && served[i].verdict == verdict && served[i].at == at
  }

  // A finished or storing call carries the verifier's answer to it, or one served from the cache.
  predicate PhaseSound(s: System, p: Phase) {
    match p
    case Calling(_, began) => began <= s.now
    case Storing(token, v, began) => v.Accepted? && SaidDuring(s.said, token, v, began, s.now)
    case Done(token, v, true, _, at) => ServedAt(s.served, token, v, at)
    case Done(token, v, false, began, at) => SaidDuring(s.said, token, v, began, at)
  }

  ghost predicate Inv(ttl: int, s: System) {
    && (forall token :: EntrySound(ttl, s, token))
    && (forall i :: 0 <= i < |s.served| ==> ServedSound(ttl, s.said, s.served[i]))
    && (forall th :: th in s.threads ==> PhaseSound(s, s.threads[th]))
  }

  lemma SaidLonger(said: seq<Said>, more: seq<Said>, token: string, verdict: Verdict, until: int, later: int)
    requires SaidBy(said, token, verdict, until) && said <= more && until <= later
    ensures SaidBy(more, token, verdict, later)
  {
    var i :| 0 <= i < |said| && said[i].token == token && said[i].verdict == verdict && said[i].at <= until;
    assert more[i] == said[i];
  }

  lemma DuringLonger(said: seq<Said>, more: seq<Said>, token: string, verdict: Verdict, from: int, until: int,
                     later: int)
    requires SaidDuring(said, token, verdict, from, until) && said <= more && until <= later
    ensures SaidDuring(more, token, verdict, from, later)
  {
    var i :| 0 <= i < |said| && said[i].token == token && said[i].verdict == verdict && from <= said[i].at <= until;
    assert more[i] == said[i];
  }

  lemma ServedLonger(served: seq<Served>, more: seq<Served>, token: string, verdict: Verdict, at: int)
    requires ServedAt(served, token, verdict, at) && served <= more
    ensures ServedAt(more, token, verdict, at)
  {
    var i :| 0 <= i < |served| && served[i].token == token && served[i].verdict == verdict && served[i].at == at;
    assert more[i] == served[i];
  }

  predicate SameEntry(s: System, s': System, token: string) {
    && (token in s.entries <==> token in s'.entries)
    && (token in s.entries ==> s'.entries[token] == s.entries[token])
    && (token in s.storedAt <==> token in s'.storedAt)
    && (token in s.storedAt ==> s'.storedAt[token] == s.storedAt[token])
  }

  // The logs only grow, so what was sound stays sound.
  lemma GrowKeeps(ttl: int, s: System, s': System)
    requires Inv(ttl, s) && s.said <= s'.said && s.served <= s'.served && s.now <= s'.now
    ensures forall token :: SameEntry(s, s', token) ==> EntrySound(ttl, s', token)
    ensures forall i :: 0 <= i < |s.served| ==> ServedSound(ttl, s'.said, s.served[i])
    ensures forall th :: th in s.threads ==> PhaseSound(s', s.threads[th])
  {
    forall token | SameEntry(s, s', token)
      ensures EntrySound(ttl, s', token)
    {
      assert EntrySound(ttl, s, token);
      if token in s.entries {
        var v := Accepted(s.entries[token].name, s.entries[token].scopes);
        SaidLonger(s.said, s'.said, token, v, s.storedAt[token], s.storedAt[token]);
      }
    }
    forall i | 0 <= i < |s.served|
      ensures ServedSound(ttl, s'.said, s.served[i])
    {
      var a := s.served[i];
      assert ServedSound(ttl, s.said, a);
      SaidLonger(s.said, s'.said, a.token, a.verdict, a.storedAt, a.storedAt);
    }
    forall th | th in s.threads
      ensures PhaseSound(s', s.threads[th])
    {
      var p := s.threads[th];
      assert PhaseSound(s, p);
      match p
      case Calling(_, _) =>
      case Storing(token, v, began) => DuringLonger(s.said, s'.said, token, v, began, s.now, s'.now);
      case Done(token, v, true, _, at) => ServedLonger(s.served, s'.served, token, v, at);
      case Done(token, v, false, began, at) => DuringLonger(s.said, s'.said, token, v, began, at, at);
    }
  }

  lemma BeginKeeps(ttl: int, s: System, th: nat, token: string)
    requires Inv(ttl, s)
    ensures Inv(ttl, Step(ttl, s, Begin(th, token)))
  {
    var s' := Step(ttl, s, Begin(th, token));
    GrowKeeps(ttl, s, s');
    EntriesKept(ttl, s, s');
    if th !in s.threads && Lookup(s.entries, token, s.now).Some? {
      assert EntrySound(ttl, s, token);
      var a := s'.served[|s.served|];
      assert ServedSound(ttl, s'.said, a);
      assert ServedAt(s'.served, a.token, a.verdict, s.now);
    }
  }

  lemma EntriesKept(ttl: int, s: System, s': System)
    requires forall token :: SameEntry(s, s', token) ==> EntrySound(ttl, s', token)
    requires s'.entries == s.entries && s'.storedAt == s.storedAt
    ensures forall token :: EntrySound(ttl, s', token)
  {
    forall token
      ensures EntrySound(ttl, s', token)
    {
      assert SameEntry(s, s', token);
    }
  }

  lemma AnswerKeeps(ttl: int, s: System, th: nat, v: Verdict)
    requires Inv(ttl, s)
    ensures Inv(ttl, Step(ttl, s, VerifierAnswers(th, v)))
  {
    var s' := Step(ttl, s, VerifierAnswers(th, v));
    GrowKeeps(ttl, s, s');
    EntriesKept(ttl, s, s');
    if th in s.threads && s.threads[th].Calling? {
      assert PhaseSound(s, s.threads[th]);
      assert s'.said[|s.said|] == Said(s.threads[th].token, v, s.now);
      assert SaidDuring(s'.said, s.threads[th].token, v, s.threads[th].began, s.now);
    }
  }

  lemma StoreKeeps(ttl: int, s: System, th: nat)
    requires Inv(ttl, s) && th in s.threads && s.threads[th].Storing?
    ensures Inv(ttl, Step(ttl, s, Store(th)))
  {
    var s', stored := Step(ttl, s, Store(th)), s.threads[th].token;
    GrowKeeps(ttl, s, s');
    assert PhaseSound(s, s.threads[th]);
    assert SaidBy(s.said, stored, s.threads[th].verdict, s.now);
    forall token
      ensures EntrySound(ttl, s', token)
    {
      if token != stored { assert SameEntry(s, s', token); }
    }
  }

  lemma StepKeeps(ttl: int, s: System, e: Event)
    requires Inv(ttl, s)
    ensures Inv(ttl, Step(ttl, s, e))
  {
    match e
    case Tick(_) =>
      GrowKeeps(ttl, s, Step(ttl, s, e));
      EntriesKept(ttl, s, Step(ttl, s, e));
    case Begin(th, token) => BeginKeeps(ttl, s, th, token);
    case VerifierAnswers(th, v) => AnswerKeeps(ttl, s, th, v);
    case Store(th) => if th in s.threads && s.threads[th].Storing? { StoreKeeps(ttl, s, th); }
  }

  lemma {:induction false} RunKeeps(ttl: int, start: int, events: seq<Event>)
    ensures Inv(ttl, Run(ttl, start, events))
  {
    if events != [] {
      RunKeeps(ttl, start, events[..|events| - 1]);
      StepKeeps(ttl, Run(ttl, start, events[..|events| - 1]), events[|events| - 1]);
    }
  }

  // In every interleaving: an answer from the cache is one the verifier gave for that very token, an
  // acceptance, stored less than ttl earlier and given no later than it was stored.
  lemma ServedWasAccepted(ttl: int, start: int, events: seq<Event>, i: nat)
    requires i < |Run(ttl, start, events).served|
    ensures var s := Run(ttl, start, events);
            var a := s.served[i];
            && a.verdict.Accepted? && a.storedAt <= a.at < a.storedAt + ttl
            && exists j :: 0 <= j < |s.said| && s.said[j].token == a.token && s.said[j].verdict == a.verdict &&
                           s.said[j].at <= a.storedAt
  {
    RunKeeps(ttl, start, events);
    assert ServedSound(ttl, Run(ttl, start, events).said, Run(ttl, start, events).served[i]);
  }

  // Every finished call returns an answer the verifier gave about its token: during the call itself, or,
  // from the cache, an acceptance given by the time it was stored, less than ttl before.
  lemma AnswersAreVerdicts(ttl: int, start: int, events: seq<Event>, th: nat)
    requires th in Run(ttl, start, events).threads && Run(ttl, start, events).threads[th].Done?
    ensures var s := Run(ttl, start, events);
            var p := s.threads[th];
            if p.cached then p.verdict.Accepted? && exists storedAt ::
                   storedAt <= p.at < storedAt + ttl && SaidBy(s.said, p.token, p.verdict, storedAt)
            else SaidDuring(s.said, p.token, p.verdict, p.began, p.at)
  {
    var s := Run(ttl, start, events);
    var p := s.threads[th];
    RunKeeps(ttl, start, events);
    assert PhaseSound(s, p);
    if p.cached {
      var i :| 0 <= i < |s.served| && s.served[i].token == p.token && s.served[i].verdict == p.verdict &&
        s.served[i].at == p.at;
      assert ServedSound(ttl, s.said, s.served[i]);
    }
  }

  // ---- a call that runs alone does what the code does in one go

  // The verifier answers after `waited`, and an acceptance is stored `more` later.
  function Waited(ttl: int, s: System, th: nat, answer: Verdict, waited: nat, more: nat): System {
    var s1 := Step(ttl, Step(ttl, s, Tick(waited)), VerifierAnswers(th, answer));
    Step(ttl, Step(ttl, s1, Tick(more)), Store(th))
  }

  lemma DoneWaits(ttl: int, s: System, th: nat, answer: Verdict, waited: nat, more: nat)
    requires th in s.threads && s.threads[th].Done?
    ensures Waited(ttl, s, th, answer, waited, more) == s.(now := s.now + waited + more)
  {
    var s1 := s.(now := s.now + waited);
    assert Step(ttl, s, Tick(waited)) == s1 == Step(ttl, s1, VerifierAnswers(th, answer));
  }

  lemma CallingWaits(ttl: int, s: System, th: nat, answer: Verdict, waited: nat, more: nat)
    requires th in s.threads && s.threads[th].Calling?
    ensures var s', token := Waited(ttl, s, th, answer, waited, more), s.threads[th].token;
            && th in s'.threads && s'.threads[th].Done? && s'.threads[th].token == token
            && s'.threads[th].verdict == answer
            && s'.entries == Stored(s.entries, token, answer, s.now + waited + more, ttl)
  {
    var s1 := s.(now := s.now + waited);
    var s2 := Step(ttl, s1, VerifierAnswers(th, answer));
    assert Step(ttl, s, Tick(waited)) == s1;
    assert s2.threads[th] == if answer.Accepted? then Storing(s.threads[th].token, answer, s.threads[th].began)
                             else Done(s.threads[th].token, answer, false, s.threads[th].began, s1.now);
  }

  // The steps of a thread with nothing between give the answer and leave the entries that Cache.Verify does.
  lemma AloneIsVerify(ttl: int, s: System, th: nat, token: string, answer: Verdict, waited: nat, more: nat)
    requires th !in s.threads
    ensures var s' := Waited(ttl, Step(ttl, s, Begin(th, token)), th, answer, waited, more);
            var c := Call(token, s.now, answer, s.now + waited + more);
            && th in s'.threads && s'.threads[th].Done? && s'.threads[th].token == token
            && s'.threads[th].verdict == Outcome(s.entries, c) && s'.entries == After(s.entries, c, ttl)
  {
    var s1 := Step(ttl, s, Begin(th, token));
    if Lookup(s.entries, token, s.now).Some? {
      DoneWaits(ttl, s1, th, answer, waited, more);
    } else {
      CallingWaits(ttl, s1, th, answer, waited, more);
    }
  }

  // ---- the code

  // The wrapped verify function: the program it calls, how long it waits for it, and the record of
  // what it was asked.
  class Verifier {
    const command: string
    const timeout: int
    ghost var asked: seq<string>

    constructor (command: string, timeout: int)
      ensures this.command == command && this.timeout == timeout && asked == []
    {
      this.command, this.timeout := command, timeout;
      asked := [];
    }

    method Ask(token: string, answer: Verdict) returns (v: Verdict)
      modifies this
      ensures v == answer && asked == old(asked) + [token]
    {
      asked := asked + [token];
      v := answer;
    }
  }

  class Cache {
    const ttl: int
    const verifier: Verifier
    var entries: map<string, Entry>

    constructor (verifier: Verifier, ttl: int)
      ensures this.verifier == verifier && this.ttl == ttl && entries == map[]
    {
      this.verifier, this.ttl := verifier, ttl;
      entries := map[];
    }

    // c.lookupAt and c.storeAt are the two clock readings, c.answer is what the verifier would say.
    method Verify(c: Call) returns (v: Verdict)
      modifies this, verifier
      ensures c.token in old(entries) && c.lookupAt < old(entries)[c.token].expires ==>
                v == Accepted(old(entries)[c.token].name, old(entries)[c.token].scopes) &&
                entries == old(entries) && verifier.asked == old(verifier.asked)
      ensures c.token !in old(entries) || c.lookupAt >= old(entries)[c.token].expires ==>
                v == c.answer && verifier.asked == old(verifier.asked) + [c.token] &&
                entries == match c.answer
                           case Accepted(name, scopes) =>
                             old(entries)[c.token := Entry(name, scopes, c.storeAt + ttl)]
                           case _ => old(entries)
      ensures v == Outcome(old(entries), c) && entries == After(old(entries), c, ttl)
      ensures verifier.asked == old(verifier.asked) + if Asks(old(entries), c) then [c.token] else []
    {
      if c.token in entries {
        var e := entries[c.token];
        if c.lookupAt < e.expires {
          return Accepted(e.name, e.scopes);
        }
      }
      v := verifier.Ask(c.token, c.answer);
      match v
      case Failed =>
      case Rejected =>
      case Accepted(name, scopes) =>
        entries := entries[c.token := Entry(name, scopes, c.storeAt + ttl)];
    }
  }
}
