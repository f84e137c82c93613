/**
Runs of drops and adds on several sources of the vector index (internal/rag/store.go, indexer.go:70-106): which names
keep apart, what no run breaks, what completed pipelines keep, and what a re-index repairs after broken-off ones.
*/
module RagRuns {
  import opened Wrappers
  import opened Chunks
  import opened RagFiles
  import opened RagStore

  // ---- source names

  // Two sources, or one with itself, that do not get into each other's way.
  ghost predicate Apart(s: string, t: string) {
    && s != "idx:" + t
    && !("meta:" <= s && RealId(t, s[5..]))
    && !(s != t && Inside(s, t))
  }

  ghost predicate Compatible(sources: set<string>) {
    forall s, t {:trigger Apart(s, t)} :: s in sources && t in sources ==> Apart(s, t)
  }

  lemma SlashFreeIsNoId(source: string, x: string)
    requires '/' !in x
    ensures !RealId(source, x)
  {
    forall file: string, n: nat
      ensures x != ChunkId(source, file, n)
    {
      assert ChunkId(source, file, n)[|source|] == '/';
    }
  }

  lemma PrefixHasSlash(s: string, t: string)
    requires s + "/" <= t
    ensures '/' in t
  {
    assert t[|s|] == '/';
  }

  // Names without a slash that do not begin like the keys of the id sets are compatible.
  lemma PlainNamesCompatible(sources: set<string>)
    requires forall s :: s in sources ==> '/' !in s && !("idx:" <= s)
    ensures Compatible(sources)
  {
    forall s, t | s in sources && t in sources
      ensures Apart(s, t)
    {
      if s + "/" <= t { PrefixHasSlash(s, t); }
      if "meta:" <= s {
        assert forall c :: c in s[5..] ==> c in s;
        SlashFreeIsNoId(t, s[5..]);
      }
    }
  }

  lemma RealIdUnique(s: string, t: string, id: string)
    requires Apart(s, t) && Apart(t, s) && RealId(s, id) && RealId(t, id)
    ensures s == t
  {
    if s != t { ShareIdIff(s, t); }
  }

  lemma MetaTail(id: string)
    ensures "meta:" <= "meta:" + id && ("meta:" + id)[5..] == id
  {
  }

  lemma KeysApart(p: string, s: string, t: string, id: string)
    requires Apart(s, t) && Apart(t, s) && RealId(t, id)
    ensures VsKey(p, s) != IdxKey(p, t) && VsKey(p, t) != IdxKey(p, s)
    ensures VsKey(p, s) != MetaKey(p, id) && IdxKey(p, s) != MetaKey(p, id)
    ensures s != t ==> VsKey(p, s) != VsKey(p, t) && IdxKey(p, s) != IdxKey(p, t)
  {
    VsMeetsIdxIff(p, s, t);
    VsMeetsIdxIff(p, t, s);
    VsMeetsMetaIff(p, s, id);
    MetaTail(id);
    KeysInjective(p, s, t);
    KeysInjective(p, s, id);
  }

  // executed is how many commands of the pipeline Redis carried out before the connection broke, if it did.
  datatype Operation =
    | Drop(source: string, ids: seq<string>, executed: nat)
    | Add(source: string, chunks: seq<Chunk>, vectors: seq<Vector>, executed: nat)

  // What Add is called with: the chunks of one file, and an embedding for each.
  ghost predicate IsAddition(source: string, chunks: seq<Chunk>, vectors: seq<Vector>) {
    IsDocument(source, chunks) && |chunks| == |vectors| && forall i :: 0 <= i < |vectors| ==> vectors[i] != []
  }

  // Drop gives up before its pipeline when the id set's key holds something else.
  ghost predicate Possible(db: Db, p: string, op: Operation) {
    match op
    case Drop(source, ids, _) =>
      (IdxKey(p, source) in db ==> db[IdxKey(p, source)].Ids?) && Elems(ids) == IdsAt(db, IdxKey(p, source))
    case Add(source, chunks, vectors, _) => IsAddition(source, chunks, vectors)
  }

  function CommandsOf(p: string, op: Operation): seq<Command>
    requires op.Add? ==> |op.chunks| == |op.vectors|
  {
    match op
    case Drop(source, ids, _) => DropCommands(p, source, ids)
    case Add(source, chunks, vectors, _) => AddCommands(p, source, chunks, vectors)
  }

  ghost function Perform(db: Db, p: string, op: Operation): Db {
    if !Possible(db, p, op) then db else
    var cs := CommandsOf(p, op);
    ApplyAll(db, cs[..Min(op.executed, |cs|)])
  }

  ghost function PerformAll(db: Db, p: string, ops: seq<Operation>): Db {
    if ops == [] then db else Perform(PerformAll(db, p, ops[..|ops| - 1]), p, ops[|ops| - 1])
  }

  ghost function RunAll(p: string, ops: seq<Operation>): Db { PerformAll(map[], p, ops) }

  // A run over these sources.
  predicate Over(sources: set<string>, ops: seq<Operation>) {
    forall i :: 0 <= i < |ops| ==> ops[i].source in sources
  }

  predicate Whole(p: string, op: Operation) {
    (op.Add? ==> |op.chunks| == |op.vectors|) && op.executed >= |CommandsOf(p, op)|
  }

  ghost predicate AllWhole(p: string, ops: seq<Operation>) {
    forall i :: 0 <= i < |ops| ==> Whole(p, ops[i])
  }

  lemma PerformMore(db: Db, p: string, ops: seq<Operation>, op: Operation)
    ensures PerformAll(db, p, ops + [op]) == Perform(PerformAll(db, p, ops), p, op)
  {
    assert (ops + [op])[..|ops|] == ops;
  }

  // ---- the kinds of values are never mixed up

  ghost predicate AllReal(source: string, ids: set<string>) {
    forall id :: id in ids ==> RealId(source, id)
  }

  ghost predicate IsOwnKey(p: string, sources: set<string>, key: string, kind: Value) {
    match kind
    case Vectors(_) => exists s :: s in sources && key == VsKey(p, s)
    case Ids(ids) => exists s :: s in sources && key == IdxKey(p, s) && AllReal(s, ids)
    case Hash(c) => key == MetaKey(p, c.id) && exists s :: s in sources && RealId(s, c.id)
  }

  ghost predicate WellTyped(db: Db, p: string, sources: set<string>) {
    forall key {:trigger IsOwnKey(p, sources, key, db[key])} :: key in db ==> IsOwnKey(p, sources, key, db[key])
  }

  ghost predicate WellTypedCommand(p: string, sources: set<string>, c: Command) {
    match c
    case VAdd(key, _, _) => exists s :: s in sources && key == VsKey(p, s)
    case SAdd(key, member) => exists s :: s in sources && key == IdxKey(p, s) && RealId(s, member)
    case HSet(key, chunk) => key == MetaKey(p, chunk.id) && exists s :: s in sources && RealId(s, chunk.id)
    case Del(_) => true
  }

  lemma CommandKeepsTypes(db: Db, p: string, sources: set<string>, c: Command)
    requires WellTyped(db, p, sources) && WellTypedCommand(p, sources, c)
    ensures WellTyped(Apply(db, c), p, sources)
  {
    var after := Apply(db, c);
    forall key | key in after
      ensures IsOwnKey(p, sources, key, after[key])
    {
      assert key in db ==> IsOwnKey(p, sources, key, db[key]);
      if c.SAdd? && key == c.key && Fits(db, c) {
        var s :| s in sources && key == IdxKey(p, s) && RealId(s, c.member);
        if key in db {
          var t :| t in sources && key == IdxKey(p, t) && AllReal(t, db[key].ids);
          KeysInjective(p, s, t);
        }
        assert AllReal(s, after[key].ids);
      }
    }
  }

  lemma {:induction false} CommandsKeepTypes(db: Db, p: string, sources: set<string>, cs: seq<Command>)
    requires WellTyped(db, p, sources)
    requires forall i :: 0 <= i < |cs| ==> WellTypedCommand(p, sources, cs[i])
    ensures WellTyped(ApplyAll(db, cs), p, sources)
    decreases |cs|
  {
    if cs != [] {
      assert WellTypedCommand(p, sources, cs[0]);
      CommandKeepsTypes(db, p, sources, cs[0]);
      CommandsKeepTypes(Apply(db, cs[0]), p, sources, cs[1..]);
    }
  }

  lemma {:induction false} AddCommandsTyped(p: string, sources: set<string>, source: string, chunks: seq<Chunk>,
                                            vectors: seq<Vector>)
    requires |chunks| == |vectors| && source in sources
    requires forall i :: 0 <= i < |chunks| ==> RealId(source, chunks[i].id)
    ensures forall i :: 0 <= i < |AddCommands(p, source, chunks, vectors)| ==>
              WellTypedCommand(p, sources, AddCommands(p, source, chunks, vectors)[i])
  {
    if chunks != [] {
      var n := |chunks| - 1;
      AddCommandsTyped(p, sources, source, chunks[..n], vectors[..n]);
    }
  }

  lemma {:induction false} MetaDelsAreDels(p: string, ids: seq<string>)
    ensures forall i :: 0 <= i < |MetaDels(p, ids)| ==> MetaDels(p, ids)[i].Del?
  {
    if ids != [] { MetaDelsAreDels(p, ids[..|ids| - 1]); }
  }

  lemma PipelineTyped(db: Db, p: string, sources: set<string>, op: Operation)
    requires op.source in sources && Possible(db, p, op)
    ensures forall i :: 0 <= i < |CommandsOf(p, op)| ==> WellTypedCommand(p, sources, CommandsOf(p, op)[i])
  {
    match op
    case Drop(source, ids, _) => MetaDelsAreDels(p, ids);
    case Add(source, chunks, vectors, _) =>
      DocumentIsReal(source, chunks);
      AddCommandsTyped(p, sources, source, chunks, vectors);
  }

  lemma PerformKeepsTypes(db: Db, p: string, sources: set<string>, op: Operation)
    requires WellTyped(db, p, sources) && op.source in sources
    ensures WellTyped(Perform(db, p, op), p, sources)
  {
    if Possible(db, p, op) {
      PipelineTyped(db, p, sources, op);
      var cs := CommandsOf(p, op);
      CommandsKeepTypes(db, p, sources, cs[..Min(op.executed, |cs|)]);
    }
  }

  lemma {:induction false} RunsKeepTypes(p: string, sources: set<string>, ops: seq<Operation>)
    requires Over(sources, ops)
    ensures WellTyped(RunAll(p, ops), p, sources)
  {
    if ops != [] {
      var n := |ops| - 1;
      RunsKeepTypes(p, sources, ops[..n]);
      PerformKeepsTypes(RunAll(p, ops[..n]), p, sources, ops[n]);
    }
  }

  lemma TypedIsReady(db: Db, p: string, sources: set<string>, source: string, id: string)
    requires Compatible(sources) && WellTyped(db, p, sources) && source in sources && RealId(source, id)
    ensures Ready(db, p, source, id)
  {
    forall s | s in sources
      ensures VsKey(p, source) != IdxKey(p, s) && VsKey(p, s) != IdxKey(p, source)
      ensures VsKey(p, s) != MetaKey(p, id) && IdxKey(p, s) != MetaKey(p, id)
      ensures forall other :: RealId(s, other) ==>
                                VsKey(p, source) != MetaKey(p, other) && IdxKey(p, source) != MetaKey(p, other)
    {
      assert Apart(source, s) && Apart(s, source);
      KeysApart(p, s, source, id);
      forall other | RealId(s, other)
        ensures VsKey(p, source) != MetaKey(p, other) && IdxKey(p, source) != MetaKey(p, other)
      {
        KeysApart(p, source, s, other);
      }
    }
    forall key | key in db
      ensures IsOwnKey(p, sources, key, db[key])
    {}
  }

  lemma DocumentReady(db: Db, p: string, sources: set<string>, source: string, chunks: seq<Chunk>)
    requires Compatible(sources) && WellTyped(db, p, sources) && source in sources && IsDocument(source, chunks)
    ensures AllReady(db, p, source, chunks)
  {
    DocumentIsReal(source, chunks);
    forall i | 0 <= i < |chunks|
      ensures Ready(db, p, source, chunks[i].id) && OwnId(source, chunks[i].id)
    {
      RealIsOwn(source, chunks[i].id);
      TypedIsReady(db, p, sources, source, chunks[i].id);
    }
  }

  lemma PipelineFits(db: Db, p: string, sources: set<string>, op: Operation)
    requires Compatible(sources) && WellTyped(db, p, sources) && op.source in sources && Possible(db, p, op)
    ensures AllFit(db, CommandsOf(p, op))
  {
    match op
    case Drop(source, ids, _) => DropEffect(db, p, source, ids);
    case Add(source, chunks, vectors, _) =>
      DocumentReady(db, p, sources, source, chunks);
      AddEffect(db, p, source, chunks, vectors);
  }

  lemma PrefixFits(db: Db, cs: seq<Command>, n: nat)
    requires n <= |cs| && AllFit(db, cs)
    ensures AllFit(db, cs[..n])
  {
    assert cs == cs[..n] + cs[n..];
    ApplyConcat(db, cs[..n], cs[n..]);
  }

  // On compatible names, in any run, pipelines broken off anywhere included: no command of a pipeline
  // ever meets a key of another kind, and no drop gives up because of one.
  lemma NoOtherKindIsMet(p: string, sources: set<string>, ops: seq<Operation>, op: Operation, n: nat)
    requires Compatible(sources) && Over(sources, ops) && op.source in sources
    ensures IdxKey(p, op.source) in RunAll(p, ops) ==> RunAll(p, ops)[IdxKey(p, op.source)].Ids?
    ensures Possible(RunAll(p, ops), p, op) && n <= |CommandsOf(p, op)| ==>
            AllFit(RunAll(p, ops), CommandsOf(p, op)[..n])
  {
    var db := RunAll(p, ops);
    RunsKeepTypes(p, sources, ops);
    SomeRealId(op.source);
    TypedIsReady(db, p, sources, op.source, ChunkId(op.source, "c.md", 0));
    if Possible(db, p, op) && n <= |CommandsOf(p, op)| {
      PipelineFits(db, p, sources, op);
      PrefixFits(db, CommandsOf(p, op), n);
    }
  }

  lemma WholeIsAll(db: Db, p: string, op: Operation)
    requires Possible(db, p, op) && Whole(p, op)
    ensures Perform(db, p, op) == ApplyAll(db, CommandsOf(p, op))
  {
    var cs := CommandsOf(p, op);
    assert cs[..|cs|] == cs;
  }

  lemma WholeDrop(db: Db, p: string, op: Operation)
    requires op.Drop? && Possible(db, p, op) && Whole(p, op)
    ensures Perform(db, p, op) == Dropped(db, p, op.source)
  {
    WholeIsAll(db, p, op);
    DropEffect(db, p, op.source, op.ids);
  }

  lemma WholeAdd(db: Db, p: string, sources: set<string>, op: Operation)
    requires Compatible(sources) && WellTyped(db, p, sources) && op.source in sources
    requires op.Add? && Possible(db, p, op) && Whole(p, op)
    ensures Perform(db, p, op) == WithChunks(db, p, op.source, op.chunks, op.vectors)
  {
    WholeIsAll(db, p, op);
    DocumentReady(db, p, sources, op.source, op.chunks);
    AddEffect(db, p, op.source, op.chunks, op.vectors);
  }

  // ---- re-indexing after failures

  ghost predicate AreAdditions(p: string, source: string, adds: seq<Operation>) {
    forall i :: 0 <= i < |adds| ==>
      adds[i].Add? && adds[i].source == source && IsAddition(source, adds[i].chunks, adds[i].vectors) &&
        Whole(p, adds[i])
  }

  function ChunksIn(adds: seq<Operation>): seq<Chunk>
    requires forall i :: 0 <= i < |adds| ==> adds[i].Add?
  {
    if adds == [] then [] else ChunksIn(adds[..|adds| - 1]) + adds[|adds| - 1].chunks
  }

  function VectorsIn(adds: seq<Operation>): seq<Vector>
    requires forall i :: 0 <= i < |adds| ==> adds[i].Add?
  {
    if adds == [] then [] else VectorsIn(adds[..|adds| - 1]) + adds[|adds| - 1].vectors
  }

  lemma OneMoreAddition(db: Db, p: string, sources: set<string>, mid: Db, add: Operation, cs: seq<Chunk>,
                        vs: seq<Vector>)
    requires Compatible(sources) && WellTyped(mid, p, sources) && add.source in sources
    requires add.Add? && Possible(mid, p, add) && Whole(p, add)
    requires |cs| == |vs| && mid == WithChunks(db, p, add.source, cs, vs)
    ensures |cs + add.chunks| == |vs + add.vectors|
    ensures Perform(mid, p, add) == WithChunks(db, p, add.source, cs + add.chunks, vs + add.vectors)
    ensures WellTyped(Perform(mid, p, add), p, sources)
  {
    WholeAdd(mid, p, sources, add);
    PerformKeepsTypes(mid, p, sources, add);
    WithChunksConcat(db, p, add.source, cs, vs, add.chunks, add.vectors);
  }

  lemma {:induction false} AdditionsAdd(db: Db, p: string, sources: set<string>, source: string, adds: seq<Operation>)
    requires Compatible(sources) && WellTyped(db, p, sources) && source in sources && AreAdditions(p, source, adds)
    ensures |ChunksIn(adds)| == |VectorsIn(adds)| && WellTyped(PerformAll(db, p, adds), p, sources)
    ensures PerformAll(db, p, adds) == WithChunks(db, p, source, ChunksIn(adds), VectorsIn(adds))
    ensures forall i :: 0 <= i < |ChunksIn(adds)| ==> RealId(source, ChunksIn(adds)[i].id)
  {
    if adds != [] {
      var n := |adds| - 1;
      AdditionsAdd(db, p, sources, source, adds[..n]);
      OneMoreAddition(db, p, sources, PerformAll(db, p, adds[..n]), adds[n], ChunksIn(adds[..n]), VectorsIn(adds[..n]));
      DocumentIsReal(source, adds[n].chunks);
    }
  }

  lemma {:induction false} PerformConcat(db: Db, p: string, a: seq<Operation>, b: seq<Operation>)
    ensures PerformAll(db, p, a + b) == PerformAll(PerformAll(db, p, a), p, b)
  {
    if b == [] {
      assert a + b == a;
    } else {
      var n := |b| - 1;
      PerformConcat(db, p, a, b[..n]);
      assert a + b == a + b[..n] + [b[n]];
      PerformMore(db, p, a + b[..n], b[n]);
    }
  }

  // After any run, pipelines broken off anywhere included, a completed drop and completed additions of
  // all files leave exactly their chunks in the source's index.
  lemma RecoversFromFailures(p: string, sources: set<string>, ops: seq<Operation>, drop: Operation,
                             adds: seq<Operation>)
    requires Compatible(sources) && Over(sources, ops) && drop.source in sources
    requires drop.Drop? && Possible(RunAll(p, ops), p, drop) && Whole(p, drop)
    requires AreAdditions(p, drop.source, adds) && IdsDistinct(ChunksIn(adds))
    ensures |ChunksIn(adds)| == |VectorsIn(adds)|
    ensures Indexed(RunAll(p, ops + [drop] + adds), p, drop.source, ChunksIn(adds), VectorsIn(adds))
  {
    var db, source := RunAll(p, ops), drop.source;
    PerformMore(map[], p, ops, drop);
    WholeDrop(db, p, drop);
    RunsKeepTypes(p, sources, ops);
    PerformKeepsTypes(db, p, sources, drop);
    PerformConcat(map[], p, ops + [drop], adds);
    AdditionsAdd(Dropped(db, p, source), p, sources, source, adds);
    forall i | 0 <= i < |ChunksIn(adds)|
      ensures OwnId(source, ChunksIn(adds)[i].id)
    {
      RealIsOwn(source, ChunksIn(adds)[i].id);
    }
    ReindexIsExact(db, p, source, ChunksIn(adds), VectorsIn(adds));
  }

  // ---- runs whose pipelines all complete

  ghost predicate SourceConsistent(db: Db, p: string, source: string) {
    && VectorsAt(db, VsKey(p, source)).Keys == IdsAt(db, IdxKey(p, source))
    && forall id :: id in IdsAt(db, IdxKey(p, source)) ==>
       RealId(source, id) && MetaKey(p, id) in db && db[MetaKey(p, id)].Hash?
  }

  ghost predicate HashOwned(db: Db, p: string, sources: set<string>, key: string)
    requires key in db
  {
    db[key].Hash? ==> exists s :: s in sources && db[key].chunk.id in IdsAt(db, IdxKey(p, s))
  }

  ghost predicate Consistent(db: Db, p: string, sources: set<string>) {
    && WellTyped(db, p, sources)
    && (forall s {:trigger SourceConsistent(db, p, s)} :: s in sources ==> SourceConsistent(db, p, s))
    && (forall key {:trigger HashOwned(db, p, sources, key)} :: key in db ==> HashOwned(db, p, sources, key))
  }

  lemma DropSparesKey(db: Db, p: string, source: string, key: string)
    requires key != VsKey(p, source) && key != IdxKey(p, source)
    requires forall id :: id in IdsAt(db, IdxKey(p, source)) ==> MetaKey(p, id) != key
    ensures key in Dropped(db, p, source) <==> key in db
    ensures key in db ==> Dropped(db, p, source)[key] == db[key]
  {
    assert key !in Metas(p, IdsAt(db, IdxKey(p, source)));
  }

  lemma DropSparesHash(db: Db, p: string, sources: set<string>, source: string, t: string, id: string)
    requires Compatible(sources) && source in sources && t in sources && t != source
    requires SourceConsistent(db, p, source) && SourceConsistent(db, p, t) && id in IdsAt(db, IdxKey(p, t))
    ensures MetaKey(p, id) in Dropped(db, p, source)
  {
    KeysApart(p, source, t, id);
    forall other | other in IdsAt(db, IdxKey(p, source))
      ensures MetaKey(p, other) != MetaKey(p, id)
    {
      KeysInjective(p, other, id);
      if other == id { RealIdUnique(source, t, id); }
    }
    DropSparesKey(db, p, source, MetaKey(p, id));
  }

  // What dropping one source leaves of another.
  lemma DropSpares(db: Db, p: string, sources: set<string>, source: string, t: string)
    requires Compatible(sources) && source in sources && t in sources && t != source && SourceConsistent(db, p, source)
    ensures var after := Dropped(db, p, source);
            VectorsAt(after, VsKey(p, t)) == VectorsAt(db, VsKey(p, t)) &&
              IdsAt(after, IdxKey(p, t)) == IdsAt(db, IdxKey(p, t))
  {
    var some := ChunkId(source, "c.md", 0);
    SomeRealId(source);
    KeysApart(p, t, source, some);
    forall id | id in IdsAt(db, IdxKey(p, source))
      ensures MetaKey(p, id) != VsKey(p, t) && MetaKey(p, id) != IdxKey(p, t)
    {
      KeysApart(p, t, source, id);
    }
    DropSparesKey(db, p, source, VsKey(p, t));
    DropSparesKey(db, p, source, IdxKey(p, t));
  }

  lemma DropConsistent(db: Db, p: string, sources: set<string>, source: string)
    requires Compatible(sources) && Consistent(db, p, sources) && source in sources
    ensures Consistent(Dropped(db, p, source), p, sources)
  {
    var after := Dropped(db, p, source);
    DroppedKeys(db, p, source);
    forall t | t in sources
      ensures SourceConsistent(after, p, t)
    {
      assert SourceConsistent(db, p, t) && SourceConsistent(db, p, source);
      if t != source {
        DropSpares(db, p, sources, source, t);
        forall id | id in IdsAt(db, IdxKey(p, t))
          ensures MetaKey(p, id) in after
        {
          DropSparesHash(db, p, sources, source, t, id);
        }
      }
    }
    forall key | key in after
      ensures HashOwned(after, p, sources, key)
    {
      assert HashOwned(db, p, sources, key) && IsOwnKey(p, sources, key, db[key]);
      if after[key].Hash? {
        var t :| t in sources && db[key].chunk.id in IdsAt(db, IdxKey(p, t));
        if t != source { DropSpares(db, p, sources, source, t); }
      }
    }
    forall key | key in after
      ensures IsOwnKey(p, sources, key, after[key])
    {
      assert IsOwnKey(p, sources, key, db[key]);
    }
  }

  lemma AddSpares(db: Db, p: string, source: string, chunk: Chunk, v: Vector, t: string)
    requires Apart(source, t) && Apart(t, source) && RealId(source, chunk.id) && Ready(db, p, source, chunk.id)
    ensures var after := WithChunk(db, p, source, chunk, v);
            VectorsAt(after, VsKey(p, t)).Keys ==
              VectorsAt(db, VsKey(p, t)).Keys + (if t == source then {chunk.id} else {}) &&
            IdsAt(after, IdxKey(p, t)) == IdsAt(db, IdxKey(p, t)) + (if t == source then {chunk.id} else {})
  {
    KeysApart(p, t, source, chunk.id);
    RealIsOwn(source, chunk.id);
    OwnKeysApart(p, source, chunk.id);
  }

  // A hash stays one, and other keys keep their value.
  lemma AddSparesKey(db: Db, p: string, source: string, chunk: Chunk, v: Vector, key: string)
    requires RealId(source, chunk.id) && key in db && key != VsKey(p, source) && key != IdxKey(p, source)
    ensures var after := WithChunk(db, p, source, chunk, v);
            key in after && after[key] == if key == MetaKey(p, chunk.id) then Hash(chunk) else db[key]
  {
  }

  lemma AddSourceConsistent(db: Db, p: string, source: string, chunk: Chunk, v: Vector, t: string)
    requires Apart(source, t) && Apart(t, source) && RealId(source, chunk.id) && Ready(db, p, source, chunk.id)
    requires SourceConsistent(db, p, t)
    ensures SourceConsistent(WithChunk(db, p, source, chunk, v), p, t)
  {
    AddSpares(db, p, source, chunk, v, t);
    RealIsOwn(source, chunk.id);
    OwnKeysApart(p, source, chunk.id);
    forall id | id in IdsAt(db, IdxKey(p, t))
      ensures MetaKey(p, id) in WithChunk(db, p, source, chunk, v) &&
              WithChunk(db, p, source, chunk, v)[MetaKey(p, id)].Hash?
    {
      KeysApart(p, source, t, id);
      AddSparesKey(db, p, source, chunk, v, MetaKey(p, id));
    }
  }

  lemma AddHashOwned(db: Db, p: string, sources: set<string>, source: string, chunk: Chunk, v: Vector, key: string)
    requires Compatible(sources) && source in sources && RealId(source, chunk.id) && Ready(db, p, source, chunk.id)
    requires key in db && HashOwned(db, p, sources, key) &&
             key !in {VsKey(p, source), IdxKey(p, source), MetaKey(p, chunk.id)}
    ensures key in WithChunk(db, p, source, chunk, v) && HashOwned(WithChunk(db, p, source, chunk, v), p, sources, key)
  {
    AddSparesKey(db, p, source, chunk, v, key);
    if db[key].Hash? {
      var t :| t in sources && db[key].chunk.id in IdsAt(db, IdxKey(p, t));
      assert Apart(source, t) && Apart(t, source);
      AddSpares(db, p, source, chunk, v, t);
    }
  }

  lemma AddTyped(db: Db, p: string, sources: set<string>, source: string, chunk: Chunk, v: Vector)
    requires WellTyped(db, p, sources) && source in sources && RealId(source, chunk.id) &&
             Ready(db, p, source, chunk.id)
    ensures WellTyped(WithChunk(db, p, source, chunk, v), p, sources)
  {
    var cs := ChunkCommands(p, source, chunk, v);
    assert WellTypedCommand(p, sources, cs[0]) && WellTypedCommand(p, sources, cs[1]) &&
           WellTypedCommand(p, sources, cs[2]);
    RealIsOwn(source, chunk.id);
    ChunkEffect(db, p, source, chunk, v);
    CommandsKeepTypes(db, p, sources, cs);
  }

  lemma AddSourcesConsistent(db: Db, p: string, sources: set<string>, source: string, chunk: Chunk, v: Vector)
    requires Compatible(sources) && Consistent(db, p, sources) && source in sources && RealId(source, chunk.id)
    requires Ready(db, p, source, chunk.id)
    ensures forall t :: t in sources ==> SourceConsistent(WithChunk(db, p, source, chunk, v), p, t)
  {
    forall t | t in sources
      ensures SourceConsistent(WithChunk(db, p, source, chunk, v), p, t)
    {
      assert Apart(source, t) && Apart(t, source) && SourceConsistent(db, p, t);
      AddSourceConsistent(db, p, source, chunk, v, t);
    }
  }

  lemma AddHashesOwned(db: Db, p: string, sources: set<string>, source: string, chunk: Chunk, v: Vector)
    requires Compatible(sources) && Consistent(db, p, sources) && source in sources && RealId(source, chunk.id)
    requires Ready(db, p, source, chunk.id)
    ensures var after := WithChunk(db, p, source, chunk, v);
            forall key :: key in after ==> HashOwned(after, p, sources, key)
  {
    var after := WithChunk(db, p, source, chunk, v);
    RealIsOwn(source, chunk.id);
    OwnKeysApart(p, source, chunk.id);
    assert Apart(source, source);
    AddSpares(db, p, source, chunk, v, source);
    forall key | key in after
      ensures HashOwned(after, p, sources, key)
    {
      if key !in {VsKey(p, source), IdxKey(p, source), MetaKey(p, chunk.id)} {
        assert HashOwned(db, p, sources, key);
        AddHashOwned(db, p, sources, source, chunk, v, key);
      }
    }
  }

  lemma AddConsistent(db: Db, p: string, sources: set<string>, source: string, chunk: Chunk, v: Vector)
    requires Compatible(sources) && Consistent(db, p, sources) && source in sources && RealId(source, chunk.id)
    ensures Consistent(WithChunk(db, p, source, chunk, v), p, sources)
  {
    TypedIsReady(db, p, sources, source, chunk.id);
    AddSourcesConsistent(db, p, sources, source, chunk, v);
    AddHashesOwned(db, p, sources, source, chunk, v);
    AddTyped(db, p, sources, source, chunk, v);
  }

  lemma {:induction false} AddsConsistent(db: Db, p: string, sources: set<string>, source: string, chunks: seq<Chunk>,
                                          vectors: seq<Vector>)
    requires Compatible(sources) && Consistent(db, p, sources) && source in sources && |chunks| == |vectors|
    requires forall i :: 0 <= i < |chunks| ==> RealId(source, chunks[i].id)
    ensures Consistent(WithChunks(db, p, source, chunks, vectors), p, sources)
  {
    if chunks != [] {
      var n := |chunks| - 1;
      AddsConsistent(db, p, sources, source, chunks[..n], vectors[..n]);
      AddConsistent(WithChunks(db, p, source, chunks[..n], vectors[..n]), p, sources, source, chunks[n], vectors[n]);
    }
  }

  lemma PerformConsistent(db: Db, p: string, sources: set<string>, op: Operation)
    requires Compatible(sources) && Consistent(db, p, sources) && op.source in sources && Whole(p, op)
    ensures Consistent(Perform(db, p, op), p, sources)
  {
    if Possible(db, p, op) {
      match op {
        case Drop(source, _, _) =>
          WholeDrop(db, p, op);
          DropConsistent(db, p, sources, source);
        case Add(source, chunks, vectors, _) =>
          WholeAdd(db, p, sources, op);
          DocumentIsReal(source, chunks);
          AddsConsistent(db, p, sources, source, chunks, vectors);
      }
    }
  }

  // Over any run of completed drops and adds on compatible sources: each source's vector set has the
  // members of its id set, and every chunk hash belongs to exactly one id set.
  lemma {:induction false} RunConsistent(p: string, sources: set<string>, ops: seq<Operation>)
    requires Compatible(sources) && Over(sources, ops) && AllWhole(p, ops)
    ensures Consistent(RunAll(p, ops), p, sources)
  {
    if ops != [] {
      var n := |ops| - 1;
      RunConsistent(p, sources, ops[..n]);
      PerformConsistent(RunAll(p, ops[..n]), p, sources, ops[n]);
    }
  }

  // The id is in this source's id set and in no other.
  predicate OnlyOwner(db: Db, p: string, sources: set<string>, id: string, owner: string) {
    id in IdsAt(db, IdxKey(p, owner)) && forall s :: s in sources && id in IdsAt(db, IdxKey(p, s)) ==> s == owner
  }

  lemma HashHasOneOwner(p: string, sources: set<string>, ops: seq<Operation>, id: string)
    requires Compatible(sources) && Over(sources, ops) && AllWhole(p, ops)
    requires MetaKey(p, id) in RunAll(p, ops) && RunAll(p, ops)[MetaKey(p, id)].Hash?
    ensures exists owner :: owner in sources && OnlyOwner(RunAll(p, ops), p, sources, id, owner)
  {
    var db, key := RunAll(p, ops), MetaKey(p, id);
    RunConsistent(p, sources, ops);
    assert HashOwned(db, p, sources, key) && IsOwnKey(p, sources, key, db[key]);
    var owner :| owner in sources && db[key].chunk.id in IdsAt(db, IdxKey(p, owner));
    KeysInjective(p, db[key].chunk.id, id);
    forall s | s in sources && id in IdsAt(db, IdxKey(p, s))
      ensures s == owner
    {
      assert SourceConsistent(db, p, s) && SourceConsistent(db, p, owner);
      assert Apart(s, owner) && Apart(owner, s);
      RealIdUnique(s, owner, id);
    }
    assert OnlyOwner(db, p, sources, id, owner);
  }
}
