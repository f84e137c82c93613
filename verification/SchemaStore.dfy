/**
The per-connection schema caches (internal/database/schema.go, SchemaStore and schemaCache). A fetch
happens under the lock of its cache object, so the steps below are the lock-protected ones.
*/
module SchemaStore {
  import opened Wrappers
  import opened SchemaGroups

  const DEFAULT_TTL := 300_000_000_000

  function Ttl(ttl: int): (r: int)
    ensures r > 0
  {
    if ttl <= 0 then DEFAULT_TTL else ttl
  }

  // The first database of that name: names are distinct.
  function Find(ds: seq<DatabaseSchema>, name: string): Option<DatabaseSchema> {
    if ds == [] then None
    else if ds[0].database == name then Some(ds[0]) else Find(ds[1..], name)
  }

  // What Get returns of the whole schema: all of it, or the one database asked for.
  function Filtered(ds: seq<DatabaseSchema>, dbFilter: string): Result<seq<DatabaseSchema>> {
    if dbFilter == "" then Ok(ds)
    else match Find(ds, dbFilter)
      case Some(d) => Ok([d])
      case None => Err("not found")
  }

  lemma {:induction false} FindExact(ds: seq<DatabaseSchema>, name: string)
    ensures match Find(ds, name)
            case Some(d) => d in ds && d.database == name
            case None => forall d :: d in ds ==> d.database != name
  {
    if ds != [] && ds[0].database != name {
      FindExact(ds[1..], name);
      assert forall d :: d in ds <==> d == ds[0] || d in ds[1..];
    }
  }

  // The answer for what is held: all of it without a filter, else the first database of that name, or an
  // error when there is none.
  ghost predicate Gives(ds: seq<DatabaseSchema>, dbFilter: string, r: Result<seq<DatabaseSchema>>) {
    && (dbFilter == "" ==> r == Ok(ds))
    && (dbFilter != "" && r.Ok? ==>
          exists i :: 0 <= i < |ds| && r.value == [ds[i]] && ds[i].database == dbFilter && NoneNamed(ds, dbFilter, i))
    && (dbFilter != "" && r.Err? ==> NoneNamed(ds, dbFilter, |ds|))
  }

  predicate NoneNamed(ds: seq<DatabaseSchema>, name: string, n: int)
    requires n <= |ds|
  {
    forall j :: 0 <= j < n ==> ds[j].database != name
  }

  lemma {:induction false} FindIsFirst(ds: seq<DatabaseSchema>, name: string, i: nat)
    requires i <= |ds| && NoneNamed(ds, name, i) && (i < |ds| ==> ds[i].database == name)
    ensures Find(ds, name) == if i < |ds| then Some(ds[i]) else None
  {
    if i > 0 { FindIsFirst(ds[1..], name, i - 1); }
  }

  lemma {:induction false} FirstNamed(ds: seq<DatabaseSchema>, name: string, i: nat) returns (k: nat)
    requires i <= |ds| && NoneNamed(ds, name, i)
    ensures k <= |ds| && NoneNamed(ds, name, k) && (k < |ds| ==> ds[k].database == name)
    decreases |ds| - i
  {
    k := i;
    if i < |ds| && ds[i].database != name { k := FirstNamed(ds, name, i + 1); }
  }

  lemma FilteredExact(ds: seq<DatabaseSchema>, dbFilter: string)
    ensures Gives(ds, dbFilter, Filtered(ds, dbFilter))
  {
    var k := FirstNamed(ds, dbFilter, 0);
    FindIsFirst(ds, dbFilter, k);
  }

  // ---- any number of calls at the same time

  // One completed fetch for a connection.
  datatype Fetch = Fetch(name: string, began: int, ended: int, schemas: seq<DatabaseSchema>)

  // busy is the call that holds the lock while it fetches, with the time its fetch began.
  datatype Cache = Cache(name: string, data: Option<Fetch>, busy: Option<(nat, int)>)

  datatype Call = Call(name: string, dbFilter: string, refresh: bool, began: int)

  // Returned carries the fetch the answer is taken from and the time it was handed out.
  datatype Phase =
    | Called(c: Call)
    | ToInvalidate(c: Call, cache: nat)
    | Invalidated(c: Call)
    | ToGet(c: Call, cache: nat)
    | Fetching(c: Call, cache: nat)
    | Returned(c: Call, from: Fetch, at: int)
    | Failed(c: Call)

  // caches holds the cache objects made so far; store maps a connection name to its object.
  datatype System = System(now: int, store: map<string, nat>, caches: seq<Cache>, calls: map<nat, Phase>,
                           log: seq<Fetch>)

  datatype Event =
    | Tick(passed: nat)
    | Begin(id: nat, name: string, dbFilter: string, refresh: bool)
    | Advance(id: nat, fetched: Option<seq<DatabaseSchema>>)    // the call's next step; None: a fetch fails

  // getOrCreate: the cache object of a name, made on first use.
  function Resolved(s: System, name: string): (s': System)
    ensures name in s'.store
  {
    if name in s.store then s
    else s.(store := s.store[name := |s.caches|], caches := s.caches + [Cache(name, None, None)])
  }

  function SetCall(s: System, id: nat, p: Phase): System { s.(calls := s.calls[id := p]) }

  predicate IsFresh(ttl: int, c: Cache, now: int) { c.data.Some? && now - c.data.value.ended < ttl }

  // A lock that is taken keeps the call where it is.
  function AdvanceCall(ttl: int, s: System, id: nat, fetched: Option<seq<DatabaseSchema>>): System
    requires id in s.calls
  {
    match s.calls[id]
    case Called(c) =>
      var s' := Resolved(s, c.name);
      SetCall(s', id, if c.refresh then ToInvalidate(c, s'.store[c.name]) else ToGet(c, s'.store[c.name]))
    case ToInvalidate(c, o) =>
      if o >= |s.caches| || s.caches[o].busy.Some? then s
      else SetCall(s.(caches := s.caches[o := s.caches[o].(data := None)]), id, Invalidated(c))
    case Invalidated(c) =>
      var s' := Resolved(s, c.name);
      SetCall(s', id, ToGet(c, s'.store[c.name]))
    case ToGet(c, o) =>
      if o >= |s.caches| || s.caches[o].busy.Some? then s
      else if IsFresh(ttl, s.caches[o], s.now) then SetCall(s, id, Returned(c, s.caches[o].data.value, s.now))
      else SetCall(s.(caches := s.caches[o := s.caches[o].(busy := Some((id, s.now)))]), id, Fetching(c, o))
    case Fetching(c, o) =>
      if o >= |s.caches| || s.caches[o].busy.None? then s else
      (match fetched
       case None => SetCall(s.(caches := s.caches[o := s.caches[o].(busy := None)]), id, Failed(c))
       case Some(schemas) =>
         var f := Fetch(c.name, s.caches[o].busy.value.1, s.now, schemas);
         var caches := s.caches[o := s.caches[o].(data := Some(f), busy := None)];
         SetCall(s.(caches := caches, log := s.log + [f]), id, Returned(c, f, s.now)))
    case _ => s
  }

  function Step(ttl: int, s: System, e: Event): System {
    match e
    case Tick(passed) => s.(now := s.now + passed)
    case Begin(id, name, dbFilter, refresh) =>
      if id in s.calls then s else SetCall(s, id, Called(Call(name, dbFilter, refresh, s.now)))
    case Advance(id, fetched) => if id in s.calls then AdvanceCall(ttl, s, id, fetched) else s
  }

  function Run(ttl: int, start: int, events: seq<Event>): System {
    if events == [] then System(start, map[], [], map[], [])
    else Step(ttl, Run(ttl, start, events[..|events| - 1]), events[|events| - 1])
  }

  // ---- what every step keeps

  predicate StoreSound(s: System, name: string) {
    name in s.store ==> s.store[name] < |s.caches| && s.caches[s.store[name]].name == name
  }

  // A cache holds a logged fetch for its own connection; a fetch under way began in the past.
  predicate CacheSound(s: System, o: nat) {
    o < |s.caches| ==>
      var c := s.caches[o];
      && c.name in s.store && s.store[c.name] == o
      && (c.data.Some? ==> c.data.value in s.log && c.data.value.name == c.name && c.data.value.ended <= s.now)
      && (c.busy.Some? ==> c.busy.value.1 <= s.now && HeldBy(s, o, c.busy.value.0))
  }

  predicate HeldBy(s: System, o: nat, id: nat) {
    id in s.calls && s.calls[id].Fetching? && s.calls[id].cache == o
  }

  // Whatever cache object o holds or is about to hold was fetched from `since` on.
  predicate NothingOlder(s: System, o: nat, since: int) {
    o < |s.caches| ==>
      && (s.caches[o].data.Some? ==> s.caches[o].data.value.began >= since)
      && (s.caches[o].busy.Some? ==> s.caches[o].busy.value.1 >= since)
  }

  predicate UsesOwn(s: System, c: Call, o: nat) { c.name in s.store && s.store[c.name] == o }

  predicate CallSound(ttl: int, s: System, id: nat) {
    id in s.calls ==>
      s.calls[id].c.began <= s.now &&
      match s.calls[id]
      case Called(_) => true
      case ToInvalidate(c, o) => c.refresh && UsesOwn(s, c, o)
      case Invalidated(c) => c.refresh && c.name in s.store && NothingOlder(s, s.store[c.name], c.began)
      case ToGet(c, o) => UsesOwn(s, c, o) && (c.refresh ==> NothingOlder(s, o, c.began))
      case Fetching(c, o) =>
        UsesOwn(s, c, o) && o < |s.caches| && s.caches[o].busy.Some? && s.caches[o].busy.value.0 == id &&
        s.caches[o].busy.value.1 >= c.began
      case Returned(c, f, at) =>
        f in s.log && f.name == c.name && at - f.ended < ttl && (c.refresh ==> f.began >= c.began)
      case Failed(_) => true
  }

  ghost predicate Inv(ttl: int, s: System) {
    && (forall name {:trigger StoreSound(s, name)} :: StoreSound(s, name))
    && (forall o {:trigger CacheSound(s, o)} :: CacheSound(s, o))
    && (forall id {:trigger CallSound(ttl, s, id)} :: CallSound(ttl, s, id))
  }

  lemma TickKeeps(ttl: int, s: System, passed: nat)
    requires Inv(ttl, s)
    ensures Inv(ttl, Step(ttl, s, Tick(passed)))
  {
    var s' := Step(ttl, s, Tick(passed));
    forall name ensures StoreSound(s', name) { assert StoreSound(s, name); }
    forall o ensures CacheSound(s', o) { assert CacheSound(s, o); }
    forall id ensures CallSound(ttl, s', id) { assert CallSound(ttl, s, id); }
  }

  lemma BeginKeeps(ttl: int, s: System, id: nat, name: string, dbFilter: string, refresh: bool)
    requires Inv(ttl, s)
    ensures Inv(ttl, Step(ttl, s, Begin(id, name, dbFilter, refresh)))
  {
    var s' := Step(ttl, s, Begin(id, name, dbFilter, refresh));
    forall n ensures StoreSound(s', n) { assert StoreSound(s, n); }
    forall o ensures CacheSound(s', o) { assert CacheSound(s, o); }
    forall i ensures CallSound(ttl, s', i) { assert CallSound(ttl, s, i); }
  }

  lemma ResolveKeeps(ttl: int, s: System, name: string)
    requires Inv(ttl, s)
    ensures Inv(ttl, Resolved(s, name))
  {
    var s' := Resolved(s, name);
    if name !in s.store {
      forall n ensures StoreSound(s', n) { assert StoreSound(s, n); }
      forall o ensures CacheSound(s', o) { assert CacheSound(s, o); }
      forall i ensures CallSound(ttl, s', i) {
        assert CallSound(ttl, s, i);
        if i in s.calls { assert StoreSound(s, s.calls[i].c.name); }
      }
    }
  }

  // A call that holds no lock moves on without touching a cache.
  lemma MoveKeeps(ttl: int, s: System, id: nat, p: Phase)
    requires Inv(ttl, s) && id in s.calls && !s.calls[id].Fetching?
    requires CallSound(ttl, SetCall(s, id, p), id)
    ensures Inv(ttl, SetCall(s, id, p))
  {
    var s' := SetCall(s, id, p);
    forall n ensures StoreSound(s', n) { assert StoreSound(s, n); }
    forall o ensures CacheSound(s', o) { assert CacheSound(s, o); }
    forall i ensures CallSound(ttl, s', i) { assert CallSound(ttl, s, i); }
  }

  // The step changes only cache object o and the call that works on it.
  lemma CacheStepKeeps(ttl: int, s: System, o: nat, id: nat, c: Cache, p: Phase, log: seq<Fetch>)
    requires Inv(ttl, s) && id in s.calls && o < |s.caches| && s.log <= log
    requires s.caches[o].busy.None? || s.caches[o].busy.value.0 == id
    requires s.calls[id].Fetching? ==> s.calls[id].cache == o
    requires c.name == s.caches[o].name
    requires var s' := SetCall(s.(caches := s.caches[o := c], log := log), id, p);
             CacheSound(s', o) && CallSound(ttl, s', id)
    requires forall since {:trigger NothingOlder(s, o, since)} ::
               NothingOlder(s, o, since) && since <= s.now ==> NothingOlder(s.(caches := s.caches[o := c]), o, since)
    ensures Inv(ttl, SetCall(s.(caches := s.caches[o := c], log := log), id, p))
  {
    var s' := SetCall(s.(caches := s.caches[o := c], log := log), id, p);
    forall n ensures StoreSound(s', n) { assert StoreSound(s, n); }
    forall k: nat ensures CacheSound(s', k) {
      assert CacheSound(s, k);
      if k != o && k < |s.caches| && s.caches[k].busy.Some? { assert HeldBy(s', k, s.caches[k].busy.value.0); }
    }
    forall i ensures CallSound(ttl, s', i) {
      if i != id {
        assert CallSound(ttl, s, i);
        if i in s.calls {
          assert StoreSound(s, s.calls[i].c.name);
          assert NothingOlder(s, o, s.calls[i].c.began) ==> NothingOlder(s', o, s.calls[i].c.began);
        }
      }
    }
  }

  lemma AdvanceKeeps(ttl: int, s: System, id: nat, fetched: Option<seq<DatabaseSchema>>)
    requires ttl > 0 && Inv(ttl, s) && id in s.calls
    ensures Inv(ttl, AdvanceCall(ttl, s, id, fetched))
  {
    assert CallSound(ttl, s, id);
    assert StoreSound(s, s.calls[id].c.name);
    match s.calls[id]
    case Called(c) =>
      ResolveKeeps(ttl, s, c.name);
      var s' := Resolved(s, c.name);
      assert CallSound(ttl, s', id);
      MoveKeeps(ttl, s', id, AdvanceCall(ttl, s, id, fetched).calls[id]);
    case ToInvalidate(c, o) =>
      assert CacheSound(s, o);
      if o < |s.caches| && s.caches[o].busy.None? {
        CacheStepKeeps(ttl, s, o, id, s.caches[o].(data := None), Invalidated(c), s.log);
      }
    case Invalidated(c) =>
      ResolveKeeps(ttl, s, c.name);
      MoveKeeps(ttl, Resolved(s, c.name), id, AdvanceCall(ttl, s, id, fetched).calls[id]);
    case ToGet(c, o) =>
      assert CacheSound(s, o);
      if o < |s.caches| && s.caches[o].busy.None? {
        if IsFresh(ttl, s.caches[o], s.now) {
          MoveKeeps(ttl, s, id, AdvanceCall(ttl, s, id, fetched).calls[id]);
        } else {
          CacheStepKeeps(ttl, s, o, id, s.caches[o].(busy := Some((id, s.now))), Fetching(c, o), s.log);
        }
      }
    case Fetching(c, o) =>
      assert CacheSound(s, o);
      if fetched.None? {
        CacheStepKeeps(ttl, s, o, id, s.caches[o].(busy := None), Failed(c), s.log);
      } else {
        var f := Fetch(c.name, s.caches[o].busy.value.1, s.now, fetched.value);
        CacheStepKeeps(ttl, s, o, id, s.caches[o].(data := Some(f), busy := None), Returned(c, f, s.now), s.log + [f]);
      }
    case _ =>
  }

  lemma StepKeeps(ttl: int, s: System, e: Event)
    requires ttl > 0 && Inv(ttl, s)
    ensures Inv(ttl, Step(ttl, s, e))
  {
    match e
    case Tick(passed) => TickKeeps(ttl, s, passed);
    case Begin(id, name, dbFilter, refresh) => BeginKeeps(ttl, s, id, name, dbFilter, refresh);
    case Advance(id, fetched) => if id in s.calls { AdvanceKeeps(ttl, s, id, fetched); }
  }

  lemma {:induction false} RunKeeps(ttl: int, start: int, events: seq<Event>)
    requires ttl > 0
    ensures Inv(ttl, Run(ttl, start, events))
  {
    if events != [] {
      RunKeeps(ttl, start, events[..|events| - 1]);
      StepKeeps(ttl, Run(ttl, start, events[..|events| - 1]), events[|events| - 1]);
    }
  }

  // ---- what the callers may rely on, in every interleaving

  // Data handed out was fetched for the name asked for, less than ttl before; a refreshing call gets
  // only data whose fetch began after the call did.
  lemma AnswersAreFresh(ttl: int, start: int, events: seq<Event>, id: nat)
    requires ttl > 0
    requires id in Run(ttl, start, events).calls && Run(ttl, start, events).calls[id].Returned?
    ensures var s := Run(ttl, start, events);
            var p := s.calls[id];
            && p.from in s.log && p.from.name == p.c.name && p.at - p.from.ended < ttl
            && (p.c.refresh ==> p.from.began >= p.c.began)
  {
    RunKeeps(ttl, start, events);
    assert CallSound(ttl, Run(ttl, start, events), id);
  }

  // The call c is still fetching, has failed, or answers with a fetch that began after the call did
  // and ended at the moment of the answer, at `since` or later.
  predicate OwnFetch(s: System, id: nat, c: Call, since: int) {
    && s.now >= since && id in s.calls && s.calls[id].c == c
    && match s.calls[id]
       case Fetching(_, _) => true
       case Failed(_) => true
       case Returned(_, f, at) => f.ended == at >= since && f.began >= c.began
       case _ => false
  }

  lemma OwnFetchKept(ttl: int, s: System, e: Event, id: nat, c: Call, since: int)
    requires Inv(ttl, s) && OwnFetch(s, id, c, since)
    ensures OwnFetch(Step(ttl, s, e), id, c, since)
  {
    assert CallSound(ttl, s, id);
    match e
    case Tick(_) =>
    case Begin(_, _, _, _) =>
    case Advance(i, fetched) =>
      if i in s.calls {
        assert i != id ==> AdvanceCall(ttl, s, i, fetched).calls[id] == s.calls[id];
      }
  }

  // A call that had to fetch answers with what that fetch brought, or fails: it never gets old data.
  lemma {:induction false} FetchersGetNoOldData(ttl: int, start: int, events: seq<Event>, k: nat, id: nat)
    requires ttl > 0 && k <= |events|
    requires id in Run(ttl, start, events[..k]).calls && Run(ttl, start, events[..k]).calls[id].Fetching?
    ensures var before := Run(ttl, start, events[..k]);
            OwnFetch(Run(ttl, start, events), id, before.calls[id].c, before.now)
  {
    if k == |events| {
      assert events[..k] == events;
    } else {
      var n, before := |events| - 1, Run(ttl, start, events[..k]);
      assert events[..n][..k] == events[..k];
      FetchersGetNoOldData(ttl, start, events[..n], k, id);
      RunKeeps(ttl, start, events[..n]);
      OwnFetchKept(ttl, Run(ttl, start, events[..n]), events[n], id, before.calls[id].c, before.now);
    }
  }

  lemma StoreKept(ttl: int, s: System, e: Event, name: string)
    requires name in s.store
    ensures name in Step(ttl, s, e).store && Step(ttl, s, e).store[name] == s.store[name]
  {
  }

  // A connection name keeps one cache object for the whole run, and shares it with no other name.
  lemma {:induction false} OneCacheObject(ttl: int, start: int, events: seq<Event>, k: nat, name: string, other: string)
    requires ttl > 0 && k <= |events| && name in Run(ttl, start, events[..k]).store
    ensures name in Run(ttl, start, events).store
    ensures Run(ttl, start, events).store[name] == Run(ttl, start, events[..k]).store[name]
    ensures other in Run(ttl, start, events).store && other != name ==>
              Run(ttl, start, events).store[other] != Run(ttl, start, events).store[name]
    decreases |events|
  {
    var s := Run(ttl, start, events);
    if k == |events| {
      assert events[..k] == events;
    } else {
      var n := |events| - 1;
      assert events[..n][..k] == events[..k];
      OneCacheObject(ttl, start, events[..n], k, name, other);
      StoreKept(ttl, Run(ttl, start, events[..n]), events[n], name);
    }
    RunKeeps(ttl, start, events);
    assert StoreSound(s, name) && StoreSound(s, other);
  }

  // ---- the code, one call at a time

  // fetchedAt and data of one connection; None is the zero time.
  type Held = Option<(int, seq<DatabaseSchema>)>

  // What a call may still use: nothing after an invalidation, nothing that is ttl old or older.
  function Usable(h: Held, ttl: int, refresh: bool, checkedAt: int): Held {
    if refresh || h.None? || checkedAt - h.value.0 >= ttl then None else h
  }

  // What the cache holds after the call: a failed fetch leaves it as it was, or invalidated.
  function HeldAfter(h: Held, ttl: int, refresh: bool, checkedAt: int, fetched: Result<seq<DatabaseSchema>>,
                     fetchedAt: int): Held
  {
    if Usable(h, ttl, refresh, checkedAt).Some? then h
    else if fetched.Ok? then Some((fetchedAt, fetched.value))
    else if refresh then None else h
  }

  function Answer(h: Held, ttl: int, dbFilter: string, refresh: bool, checkedAt: int,
                  fetched: Result<seq<DatabaseSchema>>)
    : Result<seq<DatabaseSchema>>
  {
    match Usable(h, ttl, refresh, checkedAt)
    case Some((_, ds)) => Filtered(ds, dbFilter)
    case None => if fetched.Ok? then Filtered(fetched.value, dbFilter) else fetched
  }

  // What a call does with what is held: data younger than ttl answers it, unless a refresh is asked for;
  // otherwise the fetch does, and replaces what was held.
  ghost predicate IsGet(h: Held, ttl: int, dbFilter: string, refresh: bool, checkedAt: int,
                        fetched: Result<seq<DatabaseSchema>>, fetchedAt: int, r: Result<seq<DatabaseSchema>>,
                        after: Held)
  {
    if !refresh && h.Some? && checkedAt - h.value.0 < ttl
    then Gives(h.value.1, dbFilter, r) && after == h
    else if fetched.Ok? then Gives(fetched.value, dbFilter, r) && after == Some((fetchedAt, fetched.value))
    else r == fetched && after == if refresh then None else h
  }

  lemma AnswerIsGet(h: Held, ttl: int, dbFilter: string, refresh: bool, checkedAt: int,
                    fetched: Result<seq<DatabaseSchema>>, fetchedAt: int)
    ensures IsGet(h, ttl, dbFilter, refresh, checkedAt, fetched, fetchedAt,
                  Answer(h, ttl, dbFilter, refresh, checkedAt, fetched),
                  HeldAfter(h, ttl, refresh, checkedAt, fetched, fetchedAt))
  {
    if h.Some? { FilteredExact(h.value.1, dbFilter); }
    if fetched.Ok? { FilteredExact(fetched.value, dbFilter); }
  }

  // ---- a call that runs alone does what the code does in one go

  function HeldIn(s: System, name: string): Held {
    if name !in s.store || s.store[name] >= |s.caches| || s.caches[s.store[name]].data.None? then None else
    var f := s.caches[s.store[name]].data.value;
    Some((f.ended, f.schemas))
  }

  function Fetched(fetched: Option<seq<DatabaseSchema>>): Result<seq<DatabaseSchema>> {
    match fetched
    case Some(ds) => Ok(ds)
    case None => Err("fetch")
  }

  // What a finished call answers.
  function AnswerOf(p: Phase): Result<seq<DatabaseSchema>> {
    if p.Returned? then Filtered(p.from.schemas, p.c.dbFilter) else Fetched(None)
  }

  // The call up to the point where it takes the lock to look at the cache.
  function Opened(ttl: int, s: System, id: nat): System
    requires id in s.calls
  {
    var s1 := AdvanceCall(ttl, s, id, None);
    if !s.calls[id].c.refresh || id !in s1.calls then s1 else
    var s2 := AdvanceCall(ttl, s1, id, None);
    if id !in s2.calls then s2 else AdvanceCall(ttl, s2, id, None)
  }

  // The rest of it; a fetch takes `passed` and brings `fetched`.
  function Closed(ttl: int, s: System, id: nat, fetched: Option<seq<DatabaseSchema>>, passed: nat): System
    requires id in s.calls
  {
    var s1 := AdvanceCall(ttl, s, id, None);
    if id !in s1.calls || !s1.calls[id].Fetching? then s1
    else AdvanceCall(ttl, s1.(now := s1.now + passed), id, fetched)
  }

  // Nobody holds the lock of the cache of this name.
  predicate Unlocked(s: System, name: string) {
    name in s.store && s.store[name] < |s.caches| ==> s.caches[s.store[name]].busy.None?
  }

  lemma AloneOpens(ttl: int, s: System, id: nat)
    requires Inv(ttl, s) && id in s.calls && s.calls[id].Called? && Unlocked(s, s.calls[id].c.name)
    ensures var c, s' := s.calls[id].c, Opened(ttl, s, id);
            && s'.now == s.now && c.name in s'.store && s'.store[c.name] < |s'.caches| && Unlocked(s', c.name)
            && id in s'.calls && s'.calls[id] == ToGet(c, s'.store[c.name])
            && HeldIn(s', c.name) == if c.refresh then None else HeldIn(s, c.name)
  {
    assert StoreSound(s, s.calls[id].c.name);
  }

  lemma AloneCloses(ttl: int, s: System, id: nat, fetched: Option<seq<DatabaseSchema>>, passed: nat)
    requires id in s.calls && s.calls[id].ToGet? && UsesOwn(s, s.calls[id].c, s.calls[id].cache)
    requires s.calls[id].cache < |s.caches| && Unlocked(s, s.calls[id].c.name)
    ensures var c, s' := s.calls[id].c, Closed(ttl, s, id, fetched, passed);
            var h := HeldIn(s, c.name);
            && HeldIn(s', c.name) == HeldAfter(h, ttl, false, s.now, Fetched(fetched), s.now + passed)
            && id in s'.calls
            && Answer(h, ttl, c.dbFilter, false, s.now, Fetched(fetched)) ==
               AnswerOf(s'.calls[id])
            && (s'.calls[id].Returned? || s'.calls[id].Failed?)
  {
  }

  // Without other calls the lock-protected steps give the answer and leave the content that Get does.
  lemma AloneIsGet(ttl: int, s: System, id: nat, fetched: Option<seq<DatabaseSchema>>, passed: nat)
    requires Inv(ttl, s) && id in s.calls && s.calls[id].Called? && Unlocked(s, s.calls[id].c.name)
    requires id in Opened(ttl, s, id).calls
    ensures var c, s' := s.calls[id].c, Closed(ttl, Opened(ttl, s, id), id, fetched, passed);
            var h := HeldIn(s, c.name);
            && HeldIn(s', c.name) == HeldAfter(h, ttl, c.refresh, s.now, Fetched(fetched), s.now + passed)
            && id in s'.calls
            && Answer(h, ttl, c.dbFilter, c.refresh, s.now, Fetched(fetched)) ==
               AnswerOf(s'.calls[id])
  {
    AloneOpens(ttl, s, id);
    AloneCloses(ttl, Opened(ttl, s, id), id, fetched, passed);
  }

  class SchemaCache {
    var data: seq<DatabaseSchema>
    var fetchedAt: Option<int>

    constructor ()
      ensures HeldNow() == None
    {
      data, fetchedAt := [], None;
    }

    function HeldNow(): Held
      reads this
    {
      if fetchedAt.None? then None else Some((fetchedAt.value, data))
    }
  }

  class Store {
    const ttl: int
    var cache: map<string, SchemaCache>

    // Each name has a cache object of its own.
    predicate Valid()
      reads this
    {
      ttl > 0 && forall n, m :: n in cache && m in cache && n != m ==> cache[n] != cache[m]
    }

    // What is held for a name; nothing yet for one not asked for before.
    function HeldFor(name: string): Held
      reads this, cache.Values
    {
      if name in cache then cache[name].HeldNow() else None
    }

    constructor (ttl: int)
      ensures Valid() && cache == map[] && this.ttl == if ttl <= 0 then 300_000_000_000 else ttl
    {
      this.ttl := Ttl(ttl);
      cache := map[];
    }

    method GetOrCreate(name: string) returns (c: SchemaCache)
      requires Valid()
      modifies this
      ensures Valid() && name in cache && cache[name] == c
      ensures name in old(cache) ==> cache == old(cache)
      ensures name !in old(cache) ==> fresh(c) && cache == old(cache)[name := c]
      ensures forall n :: HeldFor(n) == old(HeldFor(n))
    {
      if name in cache {
        return cache[name];
      }
      c := new SchemaCache();
      cache := cache[name := c];
    }

    method Invalidate(name: string)
      requires Valid()
      modifies this, cache.Values
      ensures Valid() && name in cache && HeldFor(name) == None
      ensures forall n :: n in old(cache) ==> n in cache && cache[n] == old(cache[n])
      ensures forall n :: n in cache && n !in old(cache) ==> n == name && fresh(cache[n])
      ensures forall n :: n != name ==> HeldFor(n) == old(HeldFor(n))
    {
      var c := GetOrCreate(name);
      c.data, c.fetchedAt := [], None;
    }

    // checkedAt and fetchedAt are the two clock readings; fetched is what the pool and the
    // database would give.
    method Get(name: string, dbFilter: string, refresh: bool, checkedAt: int, fetched: Result<seq<DatabaseSchema>>,
               fetchedAt: int)
      returns (r: Result<seq<DatabaseSchema>>)
      requires Valid()
      modifies this, cache.Values
      ensures Valid()
      ensures r == Answer(old(HeldFor(name)), ttl, dbFilter, refresh, checkedAt, fetched)
      ensures HeldFor(name) == HeldAfter(old(HeldFor(name)), ttl, refresh, checkedAt, fetched, fetchedAt)
      ensures IsGet(old(HeldFor(name)), ttl, dbFilter, refresh, checkedAt, fetched, fetchedAt, r, HeldFor(name))
      ensures forall n :: n in old(cache) ==> n in cache && cache[n] == old(cache[n])
      ensures forall n :: n != name ==> HeldFor(n) == old(HeldFor(n))
    {
      AnswerIsGet(HeldFor(name), ttl, dbFilter, refresh, checkedAt, fetched, fetchedAt);
      if refresh {
        Invalidate(name);
      }
      var c := GetOrCreate(name);
      if c.fetchedAt.None? || checkedAt - c.fetchedAt.value >= ttl {
        if fetched.Err? {
          return fetched;
        }
        c.data, c.fetchedAt := fetched.value, Some(fetchedAt);
      }
      if dbFilter == "" {
        return Ok(c.data);
      }
      var i := 0;
      while i < |c.data|
        invariant 0 <= i <= |c.data|
        invariant Find(c.data, dbFilter) == Find(c.data[i..], dbFilter)
      {
        assert c.data[i..][1..] == c.data[i + 1..];
        if c.data[i].database == dbFilter {
          return Ok([c.data[i]]);
        }
        i := i + 1;
      }
      r := Err("not found");
    }
  }
}
