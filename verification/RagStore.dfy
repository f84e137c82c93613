/**
The vector index in Redis (internal/rag/store.go, indexer.go): per source a vector set and a set of its chunk ids, and
one hash per chunk. A pipeline can be broken off: any first part may have been executed. Keys do not expire here.
*/
module RagStore {
  import opened Text
  import opened Chunks
  import opened RagFiles

  type Vector = seq<real>

  datatype Value = Vectors(elements: map<string, Vector>) | Ids(ids: set<string>) | Hash(chunk: Chunk)

  type Db = map<string, Value>

  // ---- keys; p is the key prefix

  function VsKey(p: string, source: string): string { p + ":" + source }

  function IdxKey(p: string, source: string): string { p + ":idx:" + source }

  function MetaKey(p: string, id: string): string { p + ":meta:" + id }

  lemma KeyTails(p: string, x: string)
    ensures VsKey(p, x)[|p| + 1..] == x
    ensures IdxKey(p, x)[|p| + 1..] == "idx:" + x && IdxKey(p, x)[|p| + 5..] == x
    ensures MetaKey(p, x)[|p| + 1..] == "meta:" + x && MetaKey(p, x)[|p| + 6..] == x
  {
  }

  // Keys of one kind differ if the names do, and the two sets of a source never share a hash's key.
  lemma KeysInjective(p: string, x: string, y: string)
    ensures VsKey(p, x) == VsKey(p, y) ==> x == y
    ensures IdxKey(p, x) == IdxKey(p, y) ==> x == y
    ensures MetaKey(p, x) == MetaKey(p, y) ==> x == y
    ensures IdxKey(p, x) != MetaKey(p, y)
  {
    KeyTails(p, x);
    KeyTails(p, y);
    assert IdxKey(p, x)[|p| + 1] == 'i' && MetaKey(p, y)[|p| + 1] == 'm';
  }

  // The vector set of one source is stored under the key of another's id set exactly when
  // the first is named after the second like this.
  lemma VsMeetsIdxIff(p: string, source: string, other: string)
    ensures VsKey(p, source) == IdxKey(p, other) <==> source == "idx:" + other
  {
    KeyTails(p, source);
    KeyTails(p, other);
    assert p + ":" + ("idx:" + other) == IdxKey(p, other);
  }

  lemma VsMeetsMetaIff(p: string, source: string, id: string)
    ensures VsKey(p, source) == MetaKey(p, id) <==> source == "meta:" + id
  {
    KeyTails(p, source);
    KeyTails(p, id);
    assert p + ":" + ("meta:" + id) == MetaKey(p, id);
  }

  // ---- commands

  datatype Command =
    | VAdd(key: string, vector: Vector, element: string)
    | SAdd(key: string, member: string)
    | HSet(key: string, chunk: Chunk)
    | Del(key: string)

  // A command on a key that holds a value of another kind is an error and changes nothing.
  predicate Fits(db: Db, c: Command) {
    match c
    case VAdd(key, _, _) => key in db ==> db[key].Vectors?
    case SAdd(key, _) => key in db ==> db[key].Ids?
    case HSet(key, _) => key in db ==> db[key].Hash?
    case Del(_) => true
  }

  function VectorsAt(db: Db, key: string): map<string, Vector> {
    if key in db && db[key].Vectors? then db[key].elements else map[]
  }

  function IdsAt(db: Db, key: string): set<string> {
    if key in db && db[key].Ids? then db[key].ids else {}
  }

  function Apply(db: Db, c: Command): Db {
    if !Fits(db, c) then db else
    match c
    case VAdd(key, v, element) => db[key := Vectors(VectorsAt(db, key)[element := v])]
    case SAdd(key, member) => db[key := Ids(IdsAt(db, key) + {member})]
    case HSet(key, chunk) => db[key := Hash(chunk)]
    case Del(key) => db - {key}
  }

  function ApplyAll(db: Db, cs: seq<Command>): Db
    decreases |cs|
  {
    if cs == [] then db else ApplyAll(Apply(db, cs[0]), cs[1..])
  }

  predicate AllFit(db: Db, cs: seq<Command>)
    decreases |cs|
  {
    cs == [] || (Fits(db, cs[0]) && AllFit(Apply(db, cs[0]), cs[1..]))
  }

  lemma {:induction false} ApplyConcat(db: Db, a: seq<Command>, b: seq<Command>)
    ensures ApplyAll(db, a + b) == ApplyAll(ApplyAll(db, a), b)
    ensures AllFit(db, a + b) <==> AllFit(db, a) && AllFit(ApplyAll(db, a), b)
    decreases |a|
  {
    if a == [] {
      assert a + b == b;
    } else {
      assert (a + b)[1..] == a[1..] + b;
      ApplyConcat(Apply(db, a[0]), a[1..], b);
    }
  }

  function Elems(s: seq<string>): (r: set<string>)
    ensures forall x :: x in r <==> x in s
  {
    set x | x in s
  }

  function MetaDels(p: string, ids: seq<string>): seq<Command> {
    if ids == [] then [] else MetaDels(p, ids[..|ids| - 1]) + [Del(MetaKey(p, ids[|ids| - 1]))]
  }

  // ids lists the source's id set in the order Redis returned it.
  function DropCommands(p: string, source: string, ids: seq<string>): seq<Command> {
    [Del(VsKey(p, source)), Del(IdxKey(p, source))] + MetaDels(p, ids)
  }

  function ChunkCommands(p: string, source: string, chunk: Chunk, v: Vector): seq<Command> {
    [VAdd(VsKey(p, source), v, chunk.id), SAdd(IdxKey(p, source), chunk.id), HSet(MetaKey(p, chunk.id), chunk)]
  }

  function AddCommands(p: string, source: string, chunks: seq<Chunk>, vectors: seq<Vector>): seq<Command>
    requires |chunks| == |vectors|
  {
    if chunks == [] then [] else
    var n := |chunks| - 1;
    AddCommands(p, source, chunks[..n], vectors[..n]) + ChunkCommands(p, source, chunks[n], vectors[n])
  }

  // ---- one source after dropping and adding

  function Metas(p: string, ids: set<string>): set<string> { set id | id in ids :: MetaKey(p, id) }

  function Dropped(db: Db, p: string, source: string): Db {
    db - {VsKey(p, source), IdxKey(p, source)} - Metas(p, IdsAt(db, IdxKey(p, source)))
  }

  // Gone are the source's vector set, its id set, and the hash of every id that was in it; nothing else changed.
  ghost predicate IsDrop(before: Db, after: Db, p: string, source: string) {
    && (forall key :: key in after <==> key in before && !IsDroppedKey(before, p, source, key))
    && (forall key :: key in after ==> after[key] == before[key])
  }

  ghost predicate IsDroppedKey(before: Db, p: string, source: string, key: string) {
    || key == p + ":" + source || key == p + ":idx:" + source
    || exists id :: key == p + ":meta:" + id && p + ":idx:" + source in before &&
                    before[p + ":idx:" + source].Ids? && id in before[p + ":idx:" + source].ids
  }

  lemma DroppedExact(before: Db, p: string, source: string)
    ensures IsDrop(before, Dropped(before, p, source), p, source)
  {
    var ids := IdsAt(before, IdxKey(p, source));
    forall key
      ensures key in Metas(p, ids) <==> exists id :: key == p + ":meta:" + id && id in ids
    {
      if id :| key == p + ":meta:" + id && id in ids { assert key == MetaKey(p, id); }
    }
  }

  lemma {:induction false} DelsDrop(db: Db, p: string, ids: seq<string>)
    ensures ApplyAll(db, MetaDels(p, ids)) == db - Metas(p, Elems(ids))
    ensures AllFit(db, MetaDels(p, ids))
  {
    if ids == [] {
      assert db - Metas(p, {}) == db;
    } else {
      var n := |ids| - 1;
      DelsDrop(db, p, ids[..n]);
      ApplyConcat(db, MetaDels(p, ids[..n]), [Del(MetaKey(p, ids[n]))]);
      assert Elems(ids) == Elems(ids[..n]) + {ids[n]};
      var before, last := Metas(p, Elems(ids[..n])), MetaKey(p, ids[n]);
      assert Metas(p, Elems(ids)) == before + {last};
      assert db - before - {last} == db - (before + {last});
      assert ApplyAll(db - before, [Del(last)]) == Apply(db - before, Del(last));
    }
  }

  lemma DropEffect(db: Db, p: string, source: string, ids: seq<string>)
    requires Elems(ids) == IdsAt(db, IdxKey(p, source))
    ensures ApplyAll(db, DropCommands(p, source, ids)) == Dropped(db, p, source)
    ensures AllFit(db, DropCommands(p, source, ids))
  {
    var vs, idx := Del(VsKey(p, source)), Del(IdxKey(p, source));
    ApplyConcat(db, [vs, idx], MetaDels(p, ids));
    assert [vs, idx][1..] == [idx] && [idx][1..] == [];
    var rest := db - {VsKey(p, source)} - {IdxKey(p, source)};
    assert rest == db - {VsKey(p, source), IdxKey(p, source)};
    var db1 := Apply(db, vs);
    assert ApplyAll(db, [vs, idx]) == ApplyAll(db1, [idx]) == Apply(db1, idx) == rest;
    assert AllFit(db1, [idx]) && AllFit(db, [vs, idx]);
    DelsDrop(rest, p, ids);
  }

  // db with one more chunk in the source's index.
  function WithChunk(db: Db, p: string, source: string, chunk: Chunk, v: Vector): Db {
    var vs, idx := VsKey(p, source), IdxKey(p, source);
    var listed := Ids(IdsAt(db, idx) + {chunk.id});
    db[vs := Vectors(VectorsAt(db, vs)[chunk.id := v])][idx := listed][MetaKey(p, chunk.id) := Hash(chunk)]
  }

  function WithChunks(db: Db, p: string, source: string, chunks: seq<Chunk>, vectors: seq<Vector>): Db
    requires |chunks| == |vectors|
  {
    if chunks == [] then db else
    var n := |chunks| - 1;
    WithChunk(WithChunks(db, p, source, chunks[..n], vectors[..n]), p, source, chunks[n], vectors[n])
  }

  // The keys this chunk needs hold what they should, or nothing.
  predicate Ready(db: Db, p: string, source: string, id: string) {
    && (VsKey(p, source) in db ==> db[VsKey(p, source)].Vectors?)
    && (IdxKey(p, source) in db ==> db[IdxKey(p, source)].Ids?)
    && (MetaKey(p, id) in db ==> db[MetaKey(p, id)].Hash?)
  }

  // An identifier of the form that ChunkMarkdown makes for the source.
  ghost predicate OwnId(source: string, id: string) {
    exists file: string, n: nat :: id == ChunkId(source, file, n)
  }

  lemma RealIsOwn(source: string, id: string)
    requires RealId(source, id)
    ensures OwnId(source, id)
  {
    var file: string, n: nat :| IsFileName(file) && id == ChunkId(source, file, n);
  }

  lemma OwnIdPrefix(source: string, id: string)
    requires OwnId(source, id)
    ensures source + "/" <= id && id[|source|] == '/'
  {
    var file: string, n: nat :| id == ChunkId(source, file, n);
    assert id == source + "/" + (file + "/" + Itoa(n));
  }

  lemma OwnKeysApart(p: string, source: string, id: string)
    requires OwnId(source, id)
    ensures VsKey(p, source) != IdxKey(p, source) && VsKey(p, source) != MetaKey(p, id) &&
            IdxKey(p, source) != MetaKey(p, id)
  {
    KeysInjective(p, source, id);
    OwnIdPrefix(source, id);
    assert |MetaKey(p, id)| > |VsKey(p, source)|;
    assert |IdxKey(p, source)| > |VsKey(p, source)|;
  }

  lemma ChunkEffect(db: Db, p: string, source: string, chunk: Chunk, v: Vector)
    requires Ready(db, p, source, chunk.id) && OwnId(source, chunk.id)
    ensures ApplyAll(db, ChunkCommands(p, source, chunk, v)) == WithChunk(db, p, source, chunk, v)
    ensures AllFit(db, ChunkCommands(p, source, chunk, v))
  {
    OwnKeysApart(p, source, chunk.id);
    var cs := ChunkCommands(p, source, chunk, v);
    assert cs[1..] == [cs[1], cs[2]] && cs[1..][1..] == [cs[2]] && [cs[2]][1..] == [];
    var db1 := Apply(db, cs[0]);
    var db2 := Apply(db1, cs[1]);
    assert IdsAt(db1, IdxKey(p, source)) == IdsAt(db, IdxKey(p, source));
    assert ApplyAll(db2, [cs[2]]) == Apply(db2, cs[2]) && AllFit(db2, [cs[2]]);
    assert ApplyAll(db1, [cs[1], cs[2]]) == ApplyAll(db2, [cs[2]]) && AllFit(db1, [cs[1], cs[2]]);
    assert ApplyAll(db, cs) == ApplyAll(db1, cs[1..]);
  }

  ghost predicate AllReady(db: Db, p: string, source: string, chunks: seq<Chunk>) {
    forall i :: 0 <= i < |chunks| ==> Ready(db, p, source, chunks[i].id) && OwnId(source, chunks[i].id)
  }

  lemma StaysReady(db: Db, p: string, source: string, chunk: Chunk, v: Vector, id: string)
    requires Ready(db, p, source, id) && OwnId(source, id) && OwnId(source, chunk.id)
    ensures Ready(WithChunk(db, p, source, chunk, v), p, source, id)
  {
    OwnKeysApart(p, source, chunk.id);
    OwnKeysApart(p, source, id);
  }

  lemma {:induction false} AddEffect(db: Db, p: string, source: string, chunks: seq<Chunk>, vectors: seq<Vector>)
    requires |chunks| == |vectors| && AllReady(db, p, source, chunks)
    ensures ApplyAll(db, AddCommands(p, source, chunks, vectors)) == WithChunks(db, p, source, chunks, vectors)
    ensures AllFit(db, AddCommands(p, source, chunks, vectors))
    ensures forall id :: Ready(db, p, source, id) && OwnId(source, id) ==>
                           Ready(WithChunks(db, p, source, chunks, vectors), p, source, id)
  {
    if chunks != [] {
      var n := |chunks| - 1;
      AddEffect(db, p, source, chunks[..n], vectors[..n]);
      var before := WithChunks(db, p, source, chunks[..n], vectors[..n]);
      ApplyConcat(db, AddCommands(p, source, chunks[..n], vectors[..n]),
                  ChunkCommands(p, source, chunks[n], vectors[n]));
      assert Ready(db, p, source, chunks[n].id);
      ChunkEffect(before, p, source, chunks[n], vectors[n]);
      forall id | Ready(db, p, source, id) && OwnId(source, id)
        ensures Ready(WithChunk(before, p, source, chunks[n], vectors[n]), p, source, id)
      {
        StaysReady(before, p, source, chunks[n], vectors[n], id);
      }
    }
  }

  // ---- a completed re-index

  function IdSet(chunks: seq<Chunk>): set<string> { set i | 0 <= i < |chunks| :: chunks[i].id }

  // The source's index holds exactly these chunks: vector set, id set and hashes.
  predicate Indexed(db: Db, p: string, source: string, chunks: seq<Chunk>, vectors: seq<Vector>)
    requires |chunks| == |vectors|
  {
    && VectorsAt(db, VsKey(p, source)).Keys == IdSet(chunks)
    && IdsAt(db, IdxKey(p, source)) == IdSet(chunks)
    && (forall i :: 0 <= i < |chunks| ==> VectorsAt(db, VsKey(p, source))[chunks[i].id] == vectors[i])
    && (forall i :: 0 <= i < |chunks| ==>
        MetaKey(p, chunks[i].id) in db && db[MetaKey(p, chunks[i].id)] == Hash(chunks[i]))
  }

  lemma IdSetGrows(chunks: seq<Chunk>, n: nat)
    requires n + 1 == |chunks|
    ensures IdSet(chunks) == IdSet(chunks[..n]) + {chunks[n].id}
  {
    forall id | id in IdSet(chunks)
      ensures id in IdSet(chunks[..n]) + {chunks[n].id}
    {
      var i :| 0 <= i < |chunks| && chunks[i].id == id;
      if i < n { assert chunks[..n][i] == chunks[i]; }
    }
    forall id | id in IdSet(chunks[..n])
      ensures id in IdSet(chunks)
    {
      var i :| 0 <= i < n && chunks[..n][i].id == id;
      assert chunks[i].id == id;
    }
  }

  lemma OneMoreExact(db: Db, p: string, source: string, chunks: seq<Chunk>, vectors: seq<Vector>, chunk: Chunk,
                     v: Vector)
    requires |chunks| == |vectors| && Indexed(db, p, source, chunks, vectors) && chunk.id !in IdSet(chunks)
    requires OwnId(source, chunk.id) && forall i :: 0 <= i < |chunks| ==> OwnId(source, chunks[i].id)
    ensures Indexed(WithChunk(db, p, source, chunk, v), p, source, chunks + [chunk], vectors + [v])
  {
    var after := WithChunk(db, p, source, chunk, v);
    OwnKeysApart(p, source, chunk.id);
    assert (chunks + [chunk])[..|chunks|] == chunks;
    IdSetGrows(chunks + [chunk], |chunks|);
    assert VectorsAt(after, VsKey(p, source)) == VectorsAt(db, VsKey(p, source))[chunk.id := v];
    assert IdsAt(after, IdxKey(p, source)) == IdsAt(db, IdxKey(p, source)) + {chunk.id};
    forall i | 0 <= i < |chunks|
      ensures chunks[i].id != chunk.id && MetaKey(p, chunks[i].id) in after &&
              after[MetaKey(p, chunks[i].id)] == Hash(chunks[i])
    {
      assert chunks[i].id in IdSet(chunks);
      OwnKeysApart(p, source, chunks[i].id);
      KeysInjective(p, chunks[i].id, chunk.id);
    }
  }

  lemma Snoc<T>(s: seq<T>)
    requires s != []
    ensures s[..|s| - 1] + [s[|s| - 1]] == s
  {
  }

  lemma {:induction false} AddsAreExact(db: Db, p: string, source: string, chunks: seq<Chunk>, vectors: seq<Vector>)
    requires |chunks| == |vectors| && IdsDistinct(chunks)
    requires forall i :: 0 <= i < |chunks| ==> OwnId(source, chunks[i].id)
    requires VsKey(p, source) !in db && IdxKey(p, source) !in db
    ensures Indexed(WithChunks(db, p, source, chunks, vectors), p, source, chunks, vectors)
  {
    if chunks != [] {
      var n := |chunks| - 1;
      var cs, vs := chunks[..n], vectors[..n];
      AddsAreExact(db, p, source, cs, vs);
      var before := WithChunks(db, p, source, cs, vs);
      Snoc(chunks);
      Snoc(vectors);
      OneMoreExact(before, p, source, cs, vs, chunks[n], vectors[n]);
      assert WithChunks(db, p, source, chunks, vectors) == WithChunk(before, p, source, chunks[n], vectors[n]);
    }
  }

  lemma DroppedKeys(db: Db, p: string, source: string)
    ensures VsKey(p, source) !in Dropped(db, p, source) && IdxKey(p, source) !in Dropped(db, p, source)
    ensures forall key :: key in Dropped(db, p, source) ==> key in db && Dropped(db, p, source)[key] == db[key]
  {
  }

  // Whatever was in Redis before, dropping a source and adding its chunks leaves exactly those chunks.
  lemma ReindexIsExact(db: Db, p: string, source: string, chunks: seq<Chunk>, vectors: seq<Vector>)
    requires |chunks| == |vectors| && IdsDistinct(chunks)
    requires forall i :: 0 <= i < |chunks| ==> OwnId(source, chunks[i].id)
    ensures Indexed(WithChunks(Dropped(db, p, source), p, source, chunks, vectors), p, source, chunks, vectors)
  {
    DroppedKeys(db, p, source);
    AddsAreExact(Dropped(db, p, source), p, source, chunks, vectors);
  }

  // Adding file by file is adding all the chunks.
  lemma {:induction false} WithChunksConcat(db: Db, p: string, source: string, a: seq<Chunk>, va: seq<Vector>,
                                            b: seq<Chunk>, vb: seq<Vector>)
    requires |a| == |va| && |b| == |vb|
    ensures WithChunks(db, p, source, a + b, va + vb) == WithChunks(WithChunks(db, p, source, a, va), p, source, b, vb)
  {
    if b == [] {
      assert a + b == a && va + vb == va;
    } else {
      var n := |b| - 1;
      assert (a + b)[..|a + b| - 1] == a + b[..n] && (va + vb)[..|a + b| - 1] == va + vb[..n];
      WithChunksConcat(db, p, source, a, va, b[..n], vb[..n]);
    }
  }
}
