/**
Source names that get into each other's way break some run of completed pipelines, of nothing but what
indexing does: drops, and additions of documents with their embeddings (internal/rag/store.go,
indexer.go:70-106). The configuration accepts all these names.
*/
module RagClashes {
  import opened Chunks
  import opened RagFiles
  import opened RagStore
  import opened RagRuns

  // The run breaks the index although every pipeline completes.
  ghost predicate Breaks(p: string, sources: set<string>, ops: seq<Operation>) {
    Over(sources, ops) && AllWhole(p, ops) && !Consistent(RunAll(p, ops), p, sources)
  }

  ghost predicate CanBreak(p: string, sources: set<string>) {
    exists ops :: Breaks(p, sources, ops)
  }

  // ---- one source, indexed for the first time

  function Units(n: nat): seq<Vector> { seq(n, _ => [1.0]) }

  lemma {:induction false} CommandCount(p: string, source: string, chunks: seq<Chunk>, vectors: seq<Vector>)
    requires |chunks| == |vectors|
    ensures |AddCommands(p, source, chunks, vectors)| == 3 * |chunks|
  {
    if chunks != [] { CommandCount(p, source, chunks[..|chunks| - 1], vectors[..|chunks| - 1]); }
  }

  lemma DocumentIsAddition(source: string, chunks: seq<Chunk>)
    requires IsDocument(source, chunks)
    ensures IsAddition(source, chunks, Units(|chunks|))
  {
    assert forall i :: 0 <= i < |chunks| ==> Units(|chunks|)[i] == [1.0];
  }

  // Dropping a source that has no id set.
  lemma DropUnknown(db: Db, p: string, source: string) returns (drop: Operation)
    requires IdxKey(p, source) !in db
    ensures drop.source == source && Whole(p, drop)
    ensures Perform(db, p, drop) == db - {VsKey(p, source), IdxKey(p, source)}
  {
    drop := Drop(source, [], 2);
    assert MetaDels(p, []) == [];
    WholeDrop(db, p, drop);
    assert Metas(p, {}) == {};
    var rest := db - {VsKey(p, source), IdxKey(p, source)};
    assert rest - {} == rest;
  }

  lemma AdditionPerforms(db: Db, p: string, source: string, chunks: seq<Chunk>) returns (add: Operation)
    requires IsDocument(source, chunks) && forall i :: 0 <= i < |chunks| ==> Ready(db, p, source, chunks[i].id)
    ensures add.source == source && Whole(p, add)
    ensures Perform(db, p, add) == WithChunks(db, p, source, chunks, Units(|chunks|))
  {
    add := Add(source, chunks, Units(|chunks|), 3 * |chunks|);
    CommandCount(p, source, chunks, Units(|chunks|));
    DocumentIsAddition(source, chunks);
    DocumentIsReal(source, chunks);
    forall i | 0 <= i < |chunks| ensures OwnId(source, chunks[i].id) { RealIsOwn(source, chunks[i].id); }
    WholeIsAll(db, p, add);
    AddEffect(db, p, source, chunks, Units(|chunks|));
  }

  lemma TwoSteps(db: Db, p: string, a: Operation, b: Operation)
    ensures PerformAll(db, p, [a, b]) == Perform(Perform(db, p, a), p, b)
    ensures Whole(p, a) && Whole(p, b) ==> AllWhole(p, [a, b])
    ensures Over({a.source, b.source}, [a, b])
  {
    assert [a, b][..1] == [a] && [a][..0] == [];
    assert PerformAll(db, p, [a]) == Perform(db, p, a);
  }

  lemma NothingLost(db: Db, a: string, b: string)
    requires a !in db && b !in db
    ensures db - {a, b} == db
  {
  }

  // Indexing a source whose keys are free or its own.
  lemma IndexRun(db: Db, p: string, source: string, chunks: seq<Chunk>) returns (ops: seq<Operation>)
    requires IsDocument(source, chunks) && VsKey(p, source) !in db && IdxKey(p, source) !in db
    requires forall i :: 0 <= i < |chunks| ==> Ready(db, p, source, chunks[i].id)
    ensures Over({source}, ops) && AllWhole(p, ops)
    ensures PerformAll(db, p, ops) == WithChunks(db, p, source, chunks, Units(|chunks|))
  {
    var drop := DropUnknown(db, p, source);
    NothingLost(db, VsKey(p, source), IdxKey(p, source));
    var add := AdditionPerforms(db, p, source, chunks);
    TwoSteps(db, p, drop, add);
    ops := [drop, add];
  }

  lemma {:induction false} KeysOfChunks(p: string, source: string, chunks: seq<Chunk>, vectors: seq<Vector>,
                                        key: string)
    requires |chunks| == |vectors|
    requires key in WithChunks(map[], p, source, chunks, vectors)
    ensures key == VsKey(p, source) || key == IdxKey(p, source) ||
            exists i :: 0 <= i < |chunks| && key == MetaKey(p, chunks[i].id)
  {
    if chunks != [] {
      var n := |chunks| - 1;
      if key in WithChunks(map[], p, source, chunks[..n], vectors[..n]) {
        KeysOfChunks(p, source, chunks[..n], vectors[..n], key);
        if i :| 0 <= i < n && key == MetaKey(p, chunks[..n][i].id) {
          assert chunks[..n][i] == chunks[i];
        }
      } else {
        assert key in {VsKey(p, source), IdxKey(p, source), MetaKey(p, chunks[n].id)};
      }
    }
  }

  // What the first indexing of t leaves.
  ghost predicate OnlyHas(db: Db, p: string, t: string, chunks: seq<Chunk>) {
    && Indexed(db, p, t, chunks, Units(|chunks|))
    && (forall s :: s != t && t != "idx:" + s ==> IdxKey(p, s) !in db)
    && (forall s :: s != t && s != "idx:" + t && (forall i :: 0 <= i < |chunks| ==> s != "meta:" + chunks[i].id) ==>
          VsKey(p, s) !in db)
  }

  lemma FirstChunks(p: string, t: string, chunks: seq<Chunk>)
    requires IsDocument(t, chunks)
    ensures OnlyHas(WithChunks(map[], p, t, chunks, Units(|chunks|)), p, t, chunks)
  {
    var vectors := Units(|chunks|);
    var db := WithChunks(map[], p, t, chunks, vectors);
    DocumentIsReal(t, chunks);
    forall i | 0 <= i < |chunks| ensures OwnId(t, chunks[i].id) { RealIsOwn(t, chunks[i].id); }
    AddsAreExact(map[], p, t, chunks, vectors);
    forall s | s != t && t != "idx:" + s
      ensures IdxKey(p, s) !in db
    {
      if IdxKey(p, s) in db {
        KeysOfChunks(p, t, chunks, vectors, IdxKey(p, s));
        NoSuchIdx(p, s, t, chunks);
      }
    }
    forall s | s != t && s != "idx:" + t && (forall i :: 0 <= i < |chunks| ==> s != "meta:" + chunks[i].id)
      ensures VsKey(p, s) !in db
    {
      if VsKey(p, s) in db {
        KeysOfChunks(p, t, chunks, vectors, VsKey(p, s));
        NoSuchVs(p, s, t, chunks);
      }
    }
  }

  // After the first indexing of t: its index is there, and the keys of a source apart from it are free.
  lemma FirstIndexed(p: string, t: string, chunks: seq<Chunk>) returns (ops: seq<Operation>, db: Db)
    requires IsDocument(t, chunks)
    ensures Over({t}, ops) && AllWhole(p, ops) && RunAll(p, ops) == db && OnlyHas(db, p, t, chunks)
  {
    ops := IndexRun(map[], p, t, chunks);
    db := WithChunks(map[], p, t, chunks, Units(|chunks|));
    FirstChunks(p, t, chunks);
  }

  lemma NoSuchIdx(p: string, s: string, t: string, chunks: seq<Chunk>)
    requires s != t && t != "idx:" + s
    ensures IdxKey(p, s) != VsKey(p, t) && IdxKey(p, s) != IdxKey(p, t)
    ensures forall i :: 0 <= i < |chunks| ==> IdxKey(p, s) != MetaKey(p, chunks[i].id)
  {
    VsMeetsIdxIff(p, t, s);
    KeysInjective(p, s, t);
    forall i | 0 <= i < |chunks| ensures IdxKey(p, s) != MetaKey(p, chunks[i].id) {
      KeysInjective(p, s, chunks[i].id);
    }
  }

  lemma NoSuchVs(p: string, s: string, t: string, chunks: seq<Chunk>)
    requires s != t && s != "idx:" + t && forall i :: 0 <= i < |chunks| ==> s != "meta:" + chunks[i].id
    ensures VsKey(p, s) != VsKey(p, t) && VsKey(p, s) != IdxKey(p, t)
    ensures forall i :: 0 <= i < |chunks| ==> VsKey(p, s) != MetaKey(p, chunks[i].id)
  {
    VsMeetsIdxIff(p, s, t);
    KeysInjective(p, s, t);
    forall i | 0 <= i < |chunks| ensures VsKey(p, s) != MetaKey(p, chunks[i].id) {
      VsMeetsMetaIff(p, s, chunks[i].id);
    }
  }

  // ---- the three kinds of clashes

  // A run of completed pipelines, and one more that breaks a source.
  lemma OneMoreBreaks(p: string, sources: set<string>, first: seq<Operation>, db: Db, op: Operation, t: string)
    requires Over(sources, first) && AllWhole(p, first) && RunAll(p, first) == db
    requires op.source in sources && Whole(p, op) && t in sources && !SourceConsistent(Perform(db, p, op), p, t)
    ensures CanBreak(p, sources)
  {
    PerformMore(map[], p, first, op);
    WithOneMore(p, sources, first, op);
    assert Breaks(p, sources, first + [op]);
  }

  lemma WithOneMore(p: string, sources: set<string>, first: seq<Operation>, op: Operation)
    requires Over(sources, first) && AllWhole(p, first) && op.source in sources && Whole(p, op)
    ensures Over(sources, first + [op]) && AllWhole(p, first + [op])
  {
  }

  lemma IdsGone(db: Db, p: string, t: string, chunks: seq<Chunk>, s: string)
    requires chunks != [] && Indexed(db, p, t, chunks, Units(|chunks|)) && s == "idx:" + t
    ensures !SourceConsistent(db - {VsKey(p, s), IdxKey(p, s)}, p, t)
  {
    assert |"idx:" + s| > |t|;
    VsMeetsIdxIff(p, s, t);
    VsMeetsIdxIff(p, t, s);
    KeysInjective(p, s, t);
    assert chunks[0].id in IdSet(chunks);
    assert chunks[0].id in VectorsAt(db - {VsKey(p, s), IdxKey(p, s)}, VsKey(p, t));
  }

  // A source called idx:t keeps its vectors where t keeps its ids: beginning to index it deletes them.
  lemma VectorsOverIds(p: string, sources: set<string>, t: string)
    requires t in sources && "idx:" + t in sources
    ensures CanBreak(p, sources)
  {
    var s := "idx:" + t;
    ExtOfSmallName();
    var chunks := OneChunkWith(t, "c.md");
    var first, db := FirstIndexed(p, t, chunks);
    assert |"idx:" + s| > |t|;
    var drop := DropUnknown(db, p, s);
    IdsGone(db, p, t, chunks, s);
    OneMoreBreaks(p, sources, first, db, drop, t);
  }

  lemma HashGone(db: Db, p: string, t: string, chunks: seq<Chunk>, s: string, id: string)
    requires Indexed(db, p, t, chunks, Units(|chunks|)) && s == "meta:" + id && s != t && id in IdSet(chunks)
    ensures !SourceConsistent(db - {VsKey(p, s), IdxKey(p, s)}, p, t)
  {
    VsMeetsMetaIff(p, s, id);
    KeysInjective(p, t, id);
    KeysInjective(p, s, t);
    assert id in IdsAt(db - {VsKey(p, s), IdxKey(p, s)}, IdxKey(p, t));
  }

  // A source called meta:<chunk id of t> keeps its vectors where t keeps that chunk's hash.
  lemma VectorsOverHash(p: string, sources: set<string>, t: string, id: string)
    requires t in sources && "meta:" + id in sources && RealId(t, id)
    ensures CanBreak(p, sources)
  {
    var s := "meta:" + id;
    var file: string, n: nat :| IsFileName(file) && id == ChunkId(t, file, n);
    var chunks, i := DocumentWith(t, file, n);
    var first, db := FirstIndexed(p, t, chunks);
    RealIdPrefix(t, id);
    assert |s| > |t| && |"idx:" + s| > |t|;
    var drop := DropUnknown(db, p, s);
    assert chunks[i].id in IdSet(chunks);
    HashGone(db, p, t, chunks, s, id);
    OneMoreBreaks(p, sources, first, db, drop, t);
  }

  lemma OneId(chunks: seq<Chunk>, id: string)
    requires |chunks| == 1 && chunks[0].id == id
    ensures IdSet(chunks) == {id}
  {
    assert chunks[0].id in IdSet(chunks);
  }

  lemma OneChunk(db: Db, p: string, t: string, ct: seq<Chunk>)
    requires |ct| == 1
    ensures WithChunks(db, p, t, ct, Units(1)) == WithChunk(db, p, t, ct[0], [1.0])
  {
    assert ct[..0] == [] && Units(1)[..0] == [] && Units(1)[0] == [1.0];
  }

  // What db holds once s and then t were indexed, each with one chunk of the same id.
  ghost predicate BothHave(db: Db, p: string, s: string, t: string, id: string) {
    && IdsAt(db, IdxKey(p, s)) == {id} && IdxKey(p, s) in db && db[IdxKey(p, s)].Ids?
    && id in IdsAt(db, IdxKey(p, t))
  }

  lemma SecondSource(before: Db, p: string, s: string, t: string, cs: seq<Chunk>, ct: seq<Chunk>)
    requires s != t && s != "idx:" + t && t != "idx:" + s && |cs| == |ct| == 1 && cs[0].id == ct[0].id
    requires t != "meta:" + cs[0].id && OnlyHas(before, p, s, cs)
    ensures VsKey(p, t) !in before && IdxKey(p, t) !in before && Ready(before, p, t, ct[0].id)
    ensures BothHave(WithChunk(before, p, t, ct[0], [1.0]), p, s, t, ct[0].id)
  {
    var id := ct[0].id;
    OneId(cs, id);
    VsMeetsIdxIff(p, t, s);
    KeysInjective(p, s, t);
    KeysInjective(p, s, id);
    KeysInjective(p, t, id);
  }

  lemma OneReady(db: Db, p: string, t: string, ct: seq<Chunk>)
    requires |ct| == 1 && Ready(db, p, t, ct[0].id)
    ensures forall i :: 0 <= i < |ct| ==> Ready(db, p, t, ct[i].id)
  {
  }

  lemma OneAfterOther(p: string, s: string, t: string, first: seq<Operation>, before: Db, second: seq<Operation>)
    requires Over({s}, first) && Over({t}, second) && AllWhole(p, first) && AllWhole(p, second) &&
             RunAll(p, first) == before
    ensures Over({s, t}, first + second) && AllWhole(p, first + second)
    ensures RunAll(p, first + second) == PerformAll(before, p, second)
  {
    PerformConcat(map[], p, first, second);
  }

  lemma TwoSources(p: string, s: string, t: string, cs: seq<Chunk>, ct: seq<Chunk>)
    returns (ops: seq<Operation>, db: Db)
    requires s != t && s != "idx:" + t && t != "idx:" + s && |cs| == |ct| == 1 && cs[0].id == ct[0].id
    requires IsDocument(s, cs) && IsDocument(t, ct) && t != "meta:" + cs[0].id
    ensures AllWhole(p, ops) && RunAll(p, ops) == db && BothHave(db, p, s, t, ct[0].id)
    ensures Over({s, t}, ops)
  {
    var first, before := FirstIndexed(p, s, cs);
    SecondSource(before, p, s, t, cs, ct);
    OneReady(before, p, t, ct);
    var second := IndexRun(before, p, t, ct);
    OneChunk(before, p, t, ct);
    OneAfterOther(p, s, t, first, before, second);
    ops := first + second;
    db := WithChunk(before, p, t, ct[0], [1.0]);
  }

  lemma DropListed(db: Db, p: string, s: string, t: string, id: string) returns (drop: Operation)
    requires BothHave(db, p, s, t, id)
    ensures drop.source == s && Whole(p, drop)
    ensures Perform(db, p, drop) == db - {VsKey(p, s), IdxKey(p, s)} - {MetaKey(p, id)}
  {
    drop := Drop(s, [id], 3);
    assert Elems(drop.ids) == {id} by { assert drop.ids[0] == id; }
    assert [id][..0] == [] && MetaDels(p, []) == [];
    assert MetaDels(p, [id]) == [Del(MetaKey(p, id))];
    WholeDrop(db, p, drop);
    assert Metas(p, {id}) == {MetaKey(p, id)};
  }

  lemma OtherHashGone(db: Db, p: string, s: string, t: string, id: string)
    requires s != t && s != "idx:" + t && BothHave(db, p, s, t, id)
    ensures !SourceConsistent(db - {VsKey(p, s), IdxKey(p, s)} - {MetaKey(p, id)}, p, t)
  {
    var after := db - {VsKey(p, s), IdxKey(p, s)} - {MetaKey(p, id)};
    VsMeetsIdxIff(p, s, t);
    KeysInjective(p, s, t);
    KeysInjective(p, t, id);
    assert id in IdsAt(after, IdxKey(p, t)) && MetaKey(p, id) !in after;
  }

  lemma DropBreaks(db: Db, p: string, s: string, t: string, id: string) returns (drop: Operation)
    requires s != t && s != "idx:" + t && BothHave(db, p, s, t, id)
    ensures drop.source == s && Whole(p, drop) && !SourceConsistent(Perform(db, p, drop), p, t)
  {
    drop := DropListed(db, p, s, t, id);
    OtherHashGone(db, p, s, t, id);
  }

  lemma BelowIndexed(p: string, s: string, t: string) returns (ops: seq<Operation>, db: Db, id: string)
    requires s != t && Inside(s, t) && s != "idx:" + t && t != "idx:" + s && !("meta:" <= t && RealId(s, t[5..]))
    ensures AllWhole(p, ops) && RunAll(p, ops) == db && BothHave(db, p, s, t, id)
    ensures Over({s, t}, ops)
  {
    var cs, ct := DocumentsBelow(s, t);
    id := ct[0].id;
    MetaTail(id);
    ops, db := TwoSources(p, s, t, cs, ct);
  }

  // Two sources that can have the same chunk id: dropping one takes away the other's hash.
  lemma SharedHash(p: string, sources: set<string>, s: string, t: string)
    requires s in sources && t in sources && s != t && Inside(s, t)
    requires s != "idx:" + t && t != "idx:" + s && !("meta:" <= t && RealId(s, t[5..]))
    ensures CanBreak(p, sources)
  {
    var first, db, id := BelowIndexed(p, s, t);
    var drop := DropBreaks(db, p, s, t, id);
    OneMoreBreaks(p, sources, first, db, drop, t);
  }

  // ---- exactly the incompatible names

  lemma NotCompatible(p: string, sources: set<string>)
    requires !Compatible(sources)
    ensures CanBreak(p, sources)
  {
    if x, y :| x in sources && y in sources && x == "idx:" + y {
      VectorsOverIds(p, sources, y);
    } else if x, y :| x in sources && y in sources && "meta:" <= x && RealId(y, x[5..]) {
      assert x == "meta:" + x[5..];
      VectorsOverHash(p, sources, y, x[5..]);
    } else {
      var s, t :| s in sources && t in sources && !Apart(s, t);
      SharedHash(p, sources, s, t);
    }
  }

  // Every run of completed drops and additions keeps the index consistent exactly when the source
  // names are compatible. Names without a slash are not enough: see VectorsOverIds.
  lemma ConsistentIffCompatible(p: string, sources: set<string>)
    ensures Compatible(sources) <==> !CanBreak(p, sources)
  {
    if Compatible(sources) {
      forall ops
        ensures !Breaks(p, sources, ops)
      {
        if Over(sources, ops) && AllWhole(p, ops) { RunConsistent(p, sources, ops); }
      }
    } else {
      NotCompatible(p, sources);
    }
  }
}
