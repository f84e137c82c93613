/**
The store and the indexer as they run (internal/rag/store.go, Drop and Add; indexer.go, indexDir and
indexContent). Redis may break off a pipeline after any number of commands, or the connection may be
lost after the last; the embedding model may fail on any text; the directory walk at any entry.
*/
module RagIndexer {
  import opened Wrappers
  import opened Chunks
  import opened RagFiles
  import opened RagStore
  import opened RagRuns

  // ---- files

  // rel is the path below the source's directory; the extension is looked at in the whole path.
  datatype Entry = Directory | WalkError | File(path: string, rel: string, content: Option<string>)

  predicate IsReadable(e: Entry) {
    !e.WalkError? && (e.File? && IsIndexable(e.path) ==> e.content.Some?)
  }

  // The chunks of the indexable files among the entries, in walk order.
  function AllChunks(source: string, entries: seq<Entry>, yaml: string -> Header): seq<Chunk> {
    if entries == [] then [] else
    var n := |entries| - 1;
    AllChunks(source, entries[..n], yaml) + ChunksOfEntry(source, entries[n], yaml)
  }

  function ChunksOfEntry(source: string, e: Entry, yaml: string -> Header): seq<Chunk> {
    if e.File? && IsIndexable(e.path) && e.content.Some? then DocumentChunks(source, e.rel, e.content.value, yaml)
    else []
  }

  // The chunks of a readable file with the name of a note are those of its document; other entries have none.
  ghost predicate AreEntryChunks(source: string, e: Entry, yaml: string -> Header, cs: seq<Chunk>) {
    if e.File? && IsNoteName(e.path) && e.content.Some?
    then AreDocumentChunks(source, e.rel, e.content.value, yaml, cs)
    else cs == []
  }

  // The chunks are those of the entries, one entry after the other.
  ghost predicate AreFileChunks(source: string, entries: seq<Entry>, yaml: string -> Header, cs: seq<Chunk>)
    decreases |entries|
  {
    if entries == [] then cs == [] else
    var n := |entries| - 1;
    exists before, more ::
      cs == before + more && AreFileChunks(source, entries[..n], yaml, before) &&
      AreEntryChunks(source, entries[n], yaml, more)
  }

  lemma EntryIsExact(source: string, e: Entry, yaml: string -> Header)
    ensures AreEntryChunks(source, e, yaml, ChunksOfEntry(source, e, yaml))
  {
    if e.File? {
      IndexableIff(e.path);
      if e.content.Some? { DocumentIsExact(source, e.rel, e.content.value, yaml); }
    }
  }

  lemma {:induction false} FilesAreExact(source: string, entries: seq<Entry>, yaml: string -> Header)
    ensures AreFileChunks(source, entries, yaml, AllChunks(source, entries, yaml))
  {
    if entries != [] {
      var n := |entries| - 1;
      FilesAreExact(source, entries[..n], yaml);
      EntryIsExact(source, entries[n], yaml);
    }
  }

  predicate PathsDistinct(entries: seq<Entry>) {
    forall i, j :: 0 <= i < j < |entries| && entries[i].File? && entries[j].File? ==> entries[i].rel != entries[j].rel
  }

  // What a walk of a directory yields: relative paths in their shortest form, each once.
  predicate Walked(entries: seq<Entry>) {
    PathsDistinct(entries) && forall i :: 0 <= i < |entries| ==> WellNamed(entries[i])
  }

  predicate WellNamed(e: Entry) { e.File? && IsIndexable(e.path) ==> IsFileName(e.rel) }

  lemma EntryChunks(source: string, e: Entry, yaml: string -> Header)
    ensures var cs := ChunksOfEntry(source, e, yaml);
            && IdsDistinct(cs)
            && forall i :: 0 <= i < |cs| ==> e.File? && cs[i].file == e.rel && NumberedInFile(source, cs[i])
  {
    if ChunksOfEntry(source, e, yaml) != [] {
      DocumentIds(source, e.rel, e.content.value, yaml);
    }
  }

  // Chunks with these identifiers come from files among the entries.
  ghost predicate FromEntries(source: string, entries: seq<Entry>, c: Chunk) {
    NumberedInFile(source, c) && exists j :: 0 <= j < |entries| && IsFileOf(entries[j], c)
  }

  predicate IsFileOf(e: Entry, c: Chunk) { e.File? && e.rel == c.file }

  lemma FromMoreEntries(source: string, entries: seq<Entry>, c: Chunk, n: nat)
    requires n <= |entries| && FromEntries(source, entries[..n], c)
    ensures FromEntries(source, entries, c)
  {
    var j :| 0 <= j < n && IsFileOf(entries[..n][j], c);
    assert IsFileOf(entries[j], c);
  }

  lemma OtherFileOtherId(source: string, entries: seq<Entry>, n: nat, c: Chunk, d: Chunk)
    requires n < |entries| && PathsDistinct(entries) && FromEntries(source, entries[..n], c)
    requires IsFileOf(entries[n], d) && NumberedInFile(source, d)
    ensures c.id != d.id
  {
    var j :| 0 <= j < n && IsFileOf(entries[..n][j], c);
    assert entries[j].rel != entries[n].rel;
    var x: nat :| c.id == ChunkId(source, c.file, x);
    var y: nat :| d.id == ChunkId(source, d.file, y);
    if c.id == d.id { ChunkIdInjective(source, c.file, x, d.file, y); }
  }

  // Identifiers are distinct over all files of a source.
  lemma {:induction false} AllChunksDistinct(source: string, entries: seq<Entry>, yaml: string -> Header)
    requires PathsDistinct(entries)
    ensures IdsDistinct(AllChunks(source, entries, yaml))
    ensures forall i :: 0 <= i < |AllChunks(source, entries, yaml)| ==>
            FromEntries(source, entries, AllChunks(source, entries, yaml)[i])
  {
    if entries != [] {
      var n := |entries| - 1;
      var before, more := AllChunks(source, entries[..n], yaml), ChunksOfEntry(source, entries[n], yaml);
      AllChunksDistinct(source, entries[..n], yaml);
      EntryChunks(source, entries[n], yaml);
      forall i, j | 0 <= i < |before| && 0 <= j < |more|
        ensures before[i].id != more[j].id
      {
        OtherFileOtherId(source, entries, n, before[i], more[j]);
      }
      forall i | 0 <= i < |before|
        ensures FromEntries(source, entries, before[i])
      {
        FromMoreEntries(source, entries, before[i], n);
      }
      forall i | 0 <= i < |more|
        ensures FromEntries(source, entries, more[i])
      {
        assert IsFileOf(entries[n], more[i]);
      }
    }
  }

  lemma NumberedIsOwn(source: string, c: Chunk)
    requires NumberedInFile(source, c)
    ensures OwnId(source, c.id)
  {
    var n: nat :| c.id == ChunkId(source, c.file, n);
  }

  // ---- a pipeline without errors had its keys ready

  lemma FitsIsReady(db: Db, p: string, source: string, chunk: Chunk, v: Vector)
    requires OwnId(source, chunk.id) && AllFit(db, ChunkCommands(p, source, chunk, v))
    ensures Ready(db, p, source, chunk.id)
  {
    OwnKeysApart(p, source, chunk.id);
    var cs := ChunkCommands(p, source, chunk, v);
    assert cs[1..] == [cs[1], cs[2]] && cs[1..][1..] == [cs[2]];
    var db1 := Apply(db, cs[0]);
    assert AllFit(db1, [cs[1], cs[2]]) && Fits(db1, cs[1]);
    assert AllFit(Apply(db1, cs[1]), [cs[2]]);
  }

  lemma {:induction false} AddEffectIfFits(db: Db, p: string, source: string, chunks: seq<Chunk>, vectors: seq<Vector>)
    requires |chunks| == |vectors| && AllFit(db, AddCommands(p, source, chunks, vectors))
    requires forall i :: 0 <= i < |chunks| ==> OwnId(source, chunks[i].id)
    ensures ApplyAll(db, AddCommands(p, source, chunks, vectors)) == WithChunks(db, p, source, chunks, vectors)
  {
    if chunks != [] {
      var n := |chunks| - 1;
      ApplyConcat(db, AddCommands(p, source, chunks[..n], vectors[..n]),
                  ChunkCommands(p, source, chunks[n], vectors[n]));
      AddEffectIfFits(db, p, source, chunks[..n], vectors[..n]);
      var before := WithChunks(db, p, source, chunks[..n], vectors[..n]);
      FitsIsReady(before, p, source, chunks[n], vectors[n]);
      ChunkEffect(before, p, source, chunks[n], vectors[n]);
    }
  }

  lemma AddEntryEffect(db: Db, p: string, source: string, e: Entry, yaml: string -> Header, vectors: seq<Vector>)
    requires var cs := ChunksOfEntry(source, e, yaml);
             |cs| == |vectors| && AllFit(db, AddCommands(p, source, cs, vectors))
    ensures var cs := ChunksOfEntry(source, e, yaml);
            ApplyAll(db, AddCommands(p, source, cs, vectors)) == WithChunks(db, p, source, cs, vectors)
  {
    var cs := ChunksOfEntry(source, e, yaml);
    EntryChunks(source, e, yaml);
    forall i | 0 <= i < |cs|
      ensures OwnId(source, cs[i].id)
    {
      NumberedIsOwn(source, cs[i]);
    }
    AddEffectIfFits(db, p, source, cs, vectors);
  }

  function VectorsOf(chunks: seq<Chunk>, embed: string -> Option<Vector>): seq<Vector>
    requires forall i :: 0 <= i < |chunks| ==> embed(chunks[i].text).Some?
  {
    seq(|chunks|, i requires 0 <= i < |chunks| => embed(chunks[i].text).value)
  }

  predicate AllEmbed(chunks: seq<Chunk>, embed: string -> Option<Vector>) {
    forall i :: 0 <= i < |chunks| ==> embed(chunks[i].text).Some?
  }

  lemma VectorsConcat(a: seq<Chunk>, b: seq<Chunk>, embed: string -> Option<Vector>)
    requires AllEmbed(a, embed) && AllEmbed(b, embed)
    ensures AllEmbed(a + b, embed) && VectorsOf(a, embed) + VectorsOf(b, embed) == VectorsOf(a + b, embed)
  {
  }

  // after is base with these chunks added, all of which could be embedded.
  ghost predicate Added(base: Db, after: Db, p: string, source: string, cs: seq<Chunk>, embed: string -> Option<Vector>)
  {
    AllEmbed(cs, embed) && after == WithChunks(base, p, source, cs, VectorsOf(cs, embed))
  }

  ghost predicate IndexedFrom(db: Db, p: string, source: string, cs: seq<Chunk>, embed: string -> Option<Vector>) {
    AllEmbed(cs, embed) && Indexed(db, p, source, cs, VectorsOf(cs, embed))
  }

  // Both sets of the source hold exactly the identifiers of the chunks; each has the vector of its text, and
  // itself as its hash.
  ghost predicate IsIndexOf(db: Db, p: string, source: string, cs: seq<Chunk>, embed: string -> Option<Vector>) {
    var vectors, ids := VectorsAt(db, p + ":" + source), IdsAt(db, p + ":idx:" + source);
    && (forall id :: id in vectors <==> HasId(cs, id)) && (forall id :: id in ids <==> HasId(cs, id))
    && (forall i :: 0 <= i < |cs| ==> cs[i].id in vectors && embed(cs[i].text) == Some(vectors[cs[i].id]))
    && (forall i :: 0 <= i < |cs| ==> p + ":meta:" + cs[i].id in db && db[p + ":meta:" + cs[i].id] == Hash(cs[i]))
  }

  predicate HasId(cs: seq<Chunk>, id: string) { exists i :: 0 <= i < |cs| && cs[i].id == id }

  lemma IndexedIsIndex(db: Db, p: string, source: string, cs: seq<Chunk>, embed: string -> Option<Vector>)
    requires IndexedFrom(db, p, source, cs, embed)
    ensures IsIndexOf(db, p, source, cs, embed)
  {
    forall id
      ensures id in IdSet(cs) <==> HasId(cs, id)
    {
    }
    assert forall i :: 0 <= i < |cs| ==> cs[i].id in IdSet(cs);
    assert forall i :: 0 <= i < |cs| ==> MetaKey(p, cs[i].id) == p + ":meta:" + cs[i].id;
  }

  lemma AddMore(base: Db, mid: Db, after: Db, p: string, source: string, done: seq<Chunk>, more: seq<Chunk>,
                embed: string -> Option<Vector>)
    requires Added(base, mid, p, source, done, embed) && Added(mid, after, p, source, more, embed)
    ensures Added(base, after, p, source, done + more, embed)
  {
    VectorsConcat(done, more, embed);
    WithChunksConcat(base, p, source, done, VectorsOf(done, embed), more, VectorsOf(more, embed));
  }

  lemma AllAddedIsExact(before: Db, after: Db, p: string, source: string, entries: seq<Entry>, yaml: string -> Header,
                        embed: string -> Option<Vector>)
    requires PathsDistinct(entries)
    requires Added(Dropped(before, p, source), after, p, source, AllChunks(source, entries, yaml), embed)
    ensures IndexedFrom(after, p, source, AllChunks(source, entries, yaml), embed)
  {
    var cs := AllChunks(source, entries, yaml);
    AllChunksDistinct(source, entries, yaml);
    forall i | 0 <= i < |cs|
      ensures OwnId(source, cs[i].id)
    {
      NumberedIsOwn(source, cs[i]);
    }
    ReindexIsExact(before, p, source, cs, VectorsOf(cs, embed));
  }

  // ---- the code

  // ops is what has been done to Redis, each operation possible when it was begun.
  ghost predicate DoneBy(before: Db, after: Db, p: string, ops: seq<Operation>) {
    after == PerformAll(before, p, ops) && AllPossible(before, p, ops)
  }

  ghost predicate AllPossible(db: Db, p: string, ops: seq<Operation>) {
    ops == [] ||
    var n := |ops| - 1;
    AllPossible(db, p, ops[..n]) && Possible(PerformAll(db, p, ops[..n]), p, ops[n])
  }

  lemma DoneByMore(a: Db, b: Db, c: Db, p: string, ops: seq<Operation>, op: Operation)
    requires DoneBy(a, b, p, ops) && Possible(b, p, op) && c == Perform(b, p, op)
    ensures DoneBy(a, c, p, ops + [op])
  {
    assert (ops + [op])[..|ops|] == ops;
  }

  lemma OneOperation(before: Db, after: Db, p: string, op: Operation)
    requires Possible(before, p, op) && after == Perform(before, p, op)
    ensures DoneBy(before, after, p, [op])
  {
    assert [op][..0] == [];
  }

  predicate AllAdds(ops: seq<Operation>, source: string) {
    forall i :: 0 <= i < |ops| ==> ops[i].Add? && ops[i].source == source
  }

  // A drop of the source and then additions of these chunks, or nothing at all.
  ghost predicate IsReindex(ops: seq<Operation>, source: string, cs: seq<Chunk>) {
    ops != [] ==> ops[0].Drop? && ops[0].source == source && AllAdds(ops[1..], source) && ChunksIn(ops[1..]) == cs
  }

  // All pipelines completed, except perhaps the last.
  ghost predicate OnlyLastBroken(p: string, ops: seq<Operation>) {
    forall i :: 0 <= i < |ops| - 1 ==> Whole(p, ops[i])
  }

  lemma ChunksInMore(adds: seq<Operation>, source: string, op: Operation)
    requires AllAdds(adds, source) && op.Add? && op.source == source
    ensures AllAdds(adds + [op], source) && ChunksIn(adds + [op]) == ChunksIn(adds) + op.chunks
  {
    assert (adds + [op])[..|adds|] == adds;
  }

  lemma ReindexMore(ops: seq<Operation>, source: string, cs: seq<Chunk>, op: Operation)
    requires ops != [] && IsReindex(ops, source, cs) && op.Add? && op.source == source
    ensures IsReindex(ops + [op], source, cs + op.chunks)
  {
    var more := ops + [op];
    ChunksInMore(ops[1..], source, op);
    assert more[1..] == ops[1..] + [op] && more[0] == ops[0];
  }

  // These operations have replaced the source's index by these chunks, as far as they were carried out.
  ghost predicate Reindexed(before: Db, after: Db, p: string, source: string, cs: seq<Chunk>, ops: seq<Operation>) {
    DoneBy(before, after, p, ops) && IsReindex(ops, source, cs) && OnlyLastBroken(p, ops)
  }

  lemma OneMoreWhole(p: string, ops: seq<Operation>, op: Operation)
    requires AllWhole(p, ops)
    ensures OnlyLastBroken(p, ops + [op]) && (Whole(p, op) ==> AllWhole(p, ops + [op]))
  {
  }

  lemma ReindexedMore(start: Db, before: Db, after: Db, p: string, source: string, cs: seq<Chunk>, ops: seq<Operation>,
                      op: Operation)
    requires ops != [] && AllWhole(p, ops) && Reindexed(start, before, p, source, cs, ops)
    requires op.Add? && op.source == source && Possible(before, p, op) && after == Perform(before, p, op)
    ensures Reindexed(start, after, p, source, cs + op.chunks, ops + [op])
    ensures Whole(p, op) ==> AllWhole(p, ops + [op])
  {
    DoneByMore(start, before, after, p, ops, op);
    ReindexMore(ops, source, cs, op);
    OneMoreWhole(p, ops, op);
  }

  lemma OneDone(before: Db, after: Db, p: string, op: Operation)
    requires DoneBy(before, after, p, [op])
    ensures Possible(before, p, op) && after == Perform(before, p, op)
  {
    assert [op][..0] == [];
  }

  // The embedding loop of indexContent; None as soon as a text cannot be embedded.
  method EmbedAll(chunks: seq<Chunk>, embed: string -> Option<Vector>) returns (r: Option<seq<Vector>>)
    ensures r.Some? <==> AllEmbed(chunks, embed)
    ensures r.Some? ==> r.value == VectorsOf(chunks, embed)
    ensures if r.Some? then |r.value| == |chunks| && forall i ::
            0 <= i < |chunks| ==> embed(chunks[i].text) == Some(r.value[i])
            else exists i :: 0 <= i < |chunks| && embed(chunks[i].text).None?
  {
    var vectors: seq<Vector> := [];
    for i := 0 to |chunks|
      invariant |vectors| == i
      invariant forall j :: 0 <= j < i ==> embed(chunks[j].text) == Some(vectors[j])
    {
      var v := embed(chunks[i].text);
      if v.None? {
        return None;
      }
      vectors := vectors + [v.value];
    }
    r := Some(vectors);
  }

  lemma DropDone(before: Db, after: Db, p: string, source: string, ids: seq<string>, executed: nat)
    returns (ops: seq<Operation>)
    requires (IdxKey(p, source) in before ==> before[IdxKey(p, source)].Ids?) &&
             Elems(ids) == IdsAt(before, IdxKey(p, source))
    requires executed <= |DropCommands(p, source, ids)| &&
             after == ApplyAll(before, DropCommands(p, source, ids)[..executed])
    ensures |ops| == 1 && DoneBy(before, after, p, ops) && IsReindex(ops, source, [])
    ensures executed == |DropCommands(p, source, ids)| ==> AllWhole(p, ops) && after == Dropped(before, p, source)
  {
    var drop := Operation.Drop(source, ids, executed);
    OneOperation(before, after, p, drop);
    ops := [drop];
    if executed == |DropCommands(p, source, ids)| { WholeDrop(before, p, drop); }
  }

  lemma AddDone(before: Db, after: Db, p: string, source: string, chunks: seq<Chunk>, vectors: seq<Vector>,
                executed: nat)
    returns (ops: seq<Operation>)
    requires IsAddition(source, chunks, vectors) && executed <= |AddCommands(p, source, chunks, vectors)|
    requires after == ApplyAll(before, AddCommands(p, source, chunks, vectors)[..executed])
    ensures |ops| == 1 && DoneBy(before, after, p, ops) && AllAdds(ops, source) && ops[0].chunks == chunks
    ensures executed == |AddCommands(p, source, chunks, vectors)| ==> AllWhole(p, ops)
  {
    var add := Operation.Add(source, chunks, vectors, executed);
    OneOperation(before, after, p, add);
    ops := [add];
  }

  // An embedding is never empty.
  ghost predicate NeverEmpty(embed: string -> Option<Vector>) {
    forall text :: embed(text).Some? ==> embed(text).value != []
  }

  lemma EntryIsAddition(source: string, e: Entry, yaml: string -> Header, embed: string -> Option<Vector>)
    requires e.File? && IsIndexable(e.path) && IsFileName(e.rel) && e.content.Some? && NeverEmpty(embed)
    requires ChunksOfEntry(source, e, yaml) != [] && AllEmbed(ChunksOfEntry(source, e, yaml), embed)
    ensures IsAddition(source, ChunksOfEntry(source, e, yaml), VectorsOf(ChunksOfEntry(source, e, yaml), embed))
  {
    DocumentIsDocument(source, e.rel, e.content.value, yaml);
  }

  lemma ContentAdded(before: Db, after: Db, p: string, source: string, e: Entry, yaml: string -> Header,
                     embed: string -> Option<Vector>, executed: nat)
    requires AllEmbed(ChunksOfEntry(source, e, yaml), embed)
    requires var cs := ChunksOfEntry(source, e, yaml);
             var commands := AddCommands(p, source, cs, VectorsOf(cs, embed));
             executed == |commands| && AllFit(before, commands) && after == ApplyAll(before, commands[..executed])
    ensures Added(before, after, p, source, ChunksOfEntry(source, e, yaml), embed)
  {
    var cs := ChunksOfEntry(source, e, yaml);
    var commands := AddCommands(p, source, cs, VectorsOf(cs, embed));
    assert commands[..|commands|] == commands;
    AddEntryEffect(before, p, source, e, yaml, VectorsOf(cs, embed));
  }

  // The pipeline for one file's chunks has been sent, and executed of its commands were carried out.
  lemma FileDone(before: Db, after: Db, p: string, source: string, e: Entry, yaml: string -> Header,
                 embed: string -> Option<Vector>, ok: bool, executed: nat) returns (ops: seq<Operation>)
    requires e.File? && IsIndexable(e.path) && IsFileName(e.rel) && e.content.Some? && NeverEmpty(embed)
    requires ChunksOfEntry(source, e, yaml) != [] && AllEmbed(ChunksOfEntry(source, e, yaml), embed)
    requires var cs := ChunksOfEntry(source, e, yaml);
             var commands := AddCommands(p, source, cs, VectorsOf(cs, embed));
             && executed <= |commands| && after == ApplyAll(before, commands[..executed])
             && (ok ==> executed == |commands| && AllFit(before, commands))
    ensures EntryDone(before, after, p, source, ChunksOfEntry(source, e, yaml), ops) && ops != []
    ensures ok ==> AllWhole(p, ops) && Added(before, after, p, source, ChunksOfEntry(source, e, yaml), embed)
  {
    var cs := ChunksOfEntry(source, e, yaml);
    EntryIsAddition(source, e, yaml, embed);
    ops := AddDone(before, after, p, source, cs, VectorsOf(cs, embed), executed);
    if ok { ContentAdded(before, after, p, source, e, yaml, embed, executed); }
  }

  lemma NothingDone(db: Db, p: string, source: string, cs: seq<Chunk>)
    ensures EntryDone(db, db, p, source, cs, [])
  {
  }

  lemma NothingAdded(db: Db, p: string, source: string, embed: string -> Option<Vector>)
    ensures Added(db, db, p, source, [], embed)
  {
  }

  lemma ChunksMore(source: string, entries: seq<Entry>, i: nat, yaml: string -> Header)
    requires i < |entries|
    ensures AllChunks(source, entries[..i + 1], yaml) ==
            AllChunks(source, entries[..i], yaml) + ChunksOfEntry(source, entries[i], yaml)
  {
    assert entries[..i + 1][..i] == entries[..i];
  }

  // What one entry did: nothing, or one addition of its chunks.
  ghost predicate EntryDone(before: Db, after: Db, p: string, source: string, cs: seq<Chunk>, ops: seq<Operation>) {
    && DoneBy(before, after, p, ops) && |ops| <= 1
    && (ops != [] ==> ops[0].Add? && ops[0].source == source && ops[0].chunks == cs)
  }

  // After an entry with chunks its: the operations so far, and that of the entry if it had one.
  lemma OpsMore(start: Db, before: Db, after: Db, p: string, source: string, cs: seq<Chunk>, its: seq<Chunk>,
                ops: seq<Operation>, more: seq<Operation>) returns (all: seq<Operation>)
    requires ops != [] && AllWhole(p, ops) && Reindexed(start, before, p, source, cs, ops)
    requires EntryDone(before, after, p, source, its, more)
    ensures all != [] && Reindexed(start, after, p, source, if more == [] then cs else cs + its, all)
    ensures AllWhole(p, more) ==> AllWhole(p, all)
  {
    if more == [] {
      all := ops;
    } else {
      var op := more[0];
      assert more == [op];
      OneDone(before, after, p, op);
      ReindexedMore(start, before, after, p, source, cs, ops, op);
      all := ops + [op];
    }
  }

  // What a call has been asked to index.
  datatype Job = Job(source: string, entries: seq<Entry>, yaml: string -> Header, embed: string -> Option<Vector>)

  function ChunksUpTo(job: Job, i: nat): seq<Chunk>
    requires i <= |job.entries|
  {
    AllChunks(job.source, job.entries[..i], job.yaml)
  }

  // The first i entries have been indexed: base is what the drop left.
  ghost predicate SoFar(start: Db, base: Db, now: Db, p: string, job: Job, i: nat, ops: seq<Operation>) {
    && i <= |job.entries| && ops != [] && AllWhole(p, ops)
    && Reindexed(start, now, p, job.source, ChunksUpTo(job, i), ops)
    && Added(base, now, p, job.source, ChunksUpTo(job, i), job.embed)
    && forall j :: 0 <= j < i ==> IsReadable(job.entries[j])
  }

  ghost predicate UpToSome(start: Db, now: Db, p: string, job: Job, ops: seq<Operation>) {
    exists n :: 0 <= n <= |job.entries| && Reindexed(start, now, p, job.source, ChunksUpTo(job, n), ops)
  }

  lemma EntryFailed(start: Db, base: Db, before: Db, after: Db, p: string, job: Job, i: nat, ops: seq<Operation>,
                    more: seq<Operation>)
    returns (all: seq<Operation>)
    requires SoFar(start, base, before, p, job, i, ops) && i < |job.entries|
    requires EntryDone(before, after, p, job.source, ChunksOfEntry(job.source, job.entries[i], job.yaml), more)
    ensures UpToSome(start, after, p, job, all)
  {
    all := OpsMore(start, before, after, p, job.source, ChunksUpTo(job, i),
                   ChunksOfEntry(job.source, job.entries[i], job.yaml), ops, more);
    ChunksMore(job.source, job.entries, i, job.yaml);
    assert Reindexed(start, after, p, job.source, ChunksUpTo(job, if more == [] then i else i + 1), all);
  }

  lemma EntrySucceeded(start: Db, base: Db, before: Db, after: Db, p: string, job: Job, i: nat, ops: seq<Operation>,
                       more: seq<Operation>)
    returns (all: seq<Operation>)
    requires SoFar(start, base, before, p, job, i, ops) && i < |job.entries| && IsReadable(job.entries[i])
    requires EntryDone(before, after, p, job.source, ChunksOfEntry(job.source, job.entries[i], job.yaml), more)
    requires AllWhole(p, more) && (more == [] ==> ChunksOfEntry(job.source, job.entries[i], job.yaml) == [])
    requires Added(base, after, p, job.source,
                   ChunksUpTo(job, i) + ChunksOfEntry(job.source, job.entries[i], job.yaml), job.embed)
    ensures SoFar(start, base, after, p, job, i + 1, all)
  {
    NextChunks(job, i);
    all := OpsMoreWhole(start, before, after, p, job.source, ChunksUpTo(job, i), ChunksUpTo(job, i + 1),
                        ChunksOfEntry(job.source, job.entries[i], job.yaml), ops, more);
  }

  lemma NextChunks(job: Job, i: nat)
    requires i < |job.entries|
    ensures ChunksUpTo(job, i + 1) == ChunksUpTo(job, i) + ChunksOfEntry(job.source, job.entries[i], job.yaml)
  {
    ChunksMore(job.source, job.entries, i, job.yaml);
  }

  lemma OpsMoreWhole(start: Db, before: Db, after: Db, p: string, source: string, cs: seq<Chunk>, next: seq<Chunk>,
                     its: seq<Chunk>, ops: seq<Operation>, more: seq<Operation>) returns (all: seq<Operation>)
    requires ops != [] && AllWhole(p, ops) && Reindexed(start, before, p, source, cs, ops)
    requires EntryDone(before, after, p, source, its, more) && AllWhole(p, more) && (more == [] ==> its == []) &&
             next == cs + its
    ensures all != [] && AllWhole(p, all) && Reindexed(start, after, p, source, next, all)
  {
    all := OpsMore(start, before, after, p, source, cs, its, ops, more);
    assert its == [] ==> next == cs;
  }

  lemma Begun(start: Db, now: Db, p: string, job: Job, ops: seq<Operation>)
    requires DoneBy(start, now, p, ops) && IsReindex(ops, job.source, []) && |ops| <= 1
    ensures UpToSome(start, now, p, job, ops)
    ensures ops != [] && AllWhole(p, ops) ==> SoFar(start, now, now, p, job, 0, ops)
  {
    assert job.entries[..0] == [] && ChunksUpTo(job, 0) == [];
    assert Reindexed(start, now, p, job.source, ChunksUpTo(job, 0), ops);
  }

  lemma Finished(start: Db, base: Db, now: Db, p: string, job: Job, ops: seq<Operation>)
    requires SoFar(start, base, now, p, job, |job.entries|, ops) && base == Dropped(start, p, job.source) &&
             PathsDistinct(job.entries)
    ensures UpToSome(start, now, p, job, ops)
    ensures IndexedFrom(now, p, job.source, AllChunks(job.source, job.entries, job.yaml), job.embed)
  {
    assert job.entries[..|job.entries|] == job.entries;
    AllAddedIsExact(start, now, p, job.source, job.entries, job.yaml, job.embed);
  }

  class Store {
    const p: string
    var db: Db

    constructor (keyPrefix: string, db: Db)
      ensures p == keyPrefix + ":rag" && this.db == db
    {
      p := keyPrefix + ":rag";
      this.db := db;
    }

    // Sends a pipeline. Redis carries out a first part of it, all of it if the connection holds.
    method Exec(cs: seq<Command>) returns (ok: bool, ghost executed: nat)
      modifies this
      ensures executed <= |cs| && db == ApplyAll(old(db), cs[..executed])
      ensures ok ==> executed == |cs| && AllFit(old(db), cs)
    {
      var reached: nat :| reached <= |cs|;
      var answered: bool := *;
      ghost var start := db;
      ok, executed := true, reached;
      for i := 0 to reached
        invariant db == ApplyAll(start, cs[..i])
        invariant ok ==> AllFit(start, cs[..i])
      {
        assert cs[..i + 1] == cs[..i] + [cs[i]];
        ApplyConcat(start, cs[..i], [cs[i]]);
        assert ApplyAll(db, [cs[i]]) == Apply(db, cs[i]) && (AllFit(db, [cs[i]]) <==> Fits(db, cs[i]));
        if !Fits(db, cs[i]) {
          ok := false;
        }
        db := Apply(db, cs[i]);
      }
      assert cs[..|cs|] == cs;
      ok := ok && reached == |cs| && answered;
    }

    // SMEMBERS: an error on a key of another kind or without a connection, nothing for a missing key,
    // else all members in some order.
    method Members(key: string) returns (r: Option<seq<string>>)
      ensures key in db && !db[key].Ids? ==> r.None?
      ensures r.Some? ==> Elems(r.value) == IdsAt(db, key)
    {
      var connected: bool := *;
      if !connected || (key in db && !db[key].Ids?) {
        return None;
      }
      var rest, list := IdsAt(db, key), [];
      while rest != {}
        invariant Elems(list) + rest == IdsAt(db, key)
        decreases |rest|
      {
        var id :| id in rest;
        rest := rest - {id};
        list := list + [id];
      }
      r := Some(list);
    }

    // ops is the drop that was carried out, as far as it went; nothing when the ids could not be read.
    method Drop(source: string) returns (ok: bool, ghost ops: seq<Operation>)
      modifies this
      ensures DoneBy(old(db), db, p, ops) && IsReindex(ops, source, []) && |ops| <= 1
      ensures ok ==> ops != [] && AllWhole(p, ops) && db == Dropped(old(db), p, source)
      ensures ok ==> IsDrop(old(db), db, p, source)
    {
      DroppedExact(db, p, source);
      ops := [];
      var ids := Members(IdxKey(p, source));
      if ids.None? {
        return false, [];
      }
      var cs := [Del(VsKey(p, source)), Del(IdxKey(p, source))];
      assert cs + [] == cs;
      for i := 0 to |ids.value|
        invariant cs == DropCommands(p, source, ids.value[..i]) && db == old(db)
      {
        assert ids.value[..i + 1][..i] == ids.value[..i];
        Assoc([Del(VsKey(p, source)), Del(IdxKey(p, source))], MetaDels(p, ids.value[..i]),
              [Del(MetaKey(p, ids.value[i]))]);
        cs := cs + [Del(MetaKey(p, ids.value[i]))];
      }
      assert ids.value[..|ids.value|] == ids.value;
      ghost var executed;
      ok, executed := Exec(cs);
      ops := DropDone(old(db), db, p, source, ids.value, executed);
    }

    method Add(source: string, chunks: seq<Chunk>, vectors: seq<Vector>) returns (ok: bool, ghost executed: nat)
      requires |chunks| == |vectors|
      modifies this
      ensures executed <= |AddCommands(p, source, chunks, vectors)|
      ensures db == ApplyAll(old(db), AddCommands(p, source, chunks, vectors)[..executed])
      ensures ok ==> executed == |AddCommands(p, source, chunks, vectors)|
      ensures ok ==> AllFit(old(db), AddCommands(p, source, chunks, vectors))
    {
      var cs: seq<Command> := [];
      for i := 0 to |chunks|
        invariant cs == AddCommands(p, source, chunks[..i], vectors[..i])
      {
        assert chunks[..i + 1][..i] == chunks[..i] && vectors[..i + 1][..i] == vectors[..i];
        cs := cs + ChunkCommands(p, source, chunks[i], vectors[i]);
      }
      assert chunks[..|chunks|] == chunks && vectors[..|vectors|] == vectors;
      ok, executed := Exec(cs);
    }

    // Embeds and adds the chunks of one file; nothing is added when a text cannot be embedded. ops is
    // the addition that was carried out, as far as it went; nothing when there was none.
    method IndexContent(source: string, e: Entry, yaml: string -> Header, embed: string -> Option<Vector>)
      returns (ok: bool, ghost ops: seq<Operation>)
      requires e.File? && IsIndexable(e.path) && IsFileName(e.rel) && e.content.Some? && NeverEmpty(embed)
      modifies this
      ensures EntryDone(old(db), db, p, source, ChunksOfEntry(source, e, yaml), ops)
      ensures ok ==> AllWhole(p, ops) && (ops == [] ==> ChunksOfEntry(source, e, yaml) == [])
      ensures ok ==> Added(old(db), db, p, source, ChunksOfEntry(source, e, yaml), embed)
      ensures !AllEmbed(ChunksOfEntry(source, e, yaml), embed) ==> !ok && ops == []
    {
      ops := [];
      var chunks := ChunkMarkdown(source, e.rel, e.content.value, yaml);
      NothingDone(db, p, source, chunks);
      if |chunks| == 0 {
        NothingAdded(db, p, source, embed);
        return true, [];
      }
      var vectors := EmbedAll(chunks, embed);
      if vectors.None? {
        return false, [];
      }
      ghost var executed;
      ok, executed := Add(source, chunks, vectors.value);
      ops := FileDone(old(db), db, p, source, e, yaml, embed, ok, executed);
    }

    // One entry of the walk, after the chunks in done have been added to base.
    method IndexEntry(source: string, e: Entry, yaml: string -> Header, embed: string -> Option<Vector>,
                      ghost base: Db, ghost done: seq<Chunk>)
      returns (ok: bool, ghost ops: seq<Operation>)
      requires Added(base, db, p, source, done, embed) && WellNamed(e) && NeverEmpty(embed)
      modifies this
      ensures EntryDone(old(db), db, p, source, ChunksOfEntry(source, e, yaml), ops)
      ensures ok ==> AllWhole(p, ops) && (ops == [] ==> ChunksOfEntry(source, e, yaml) == [])
      ensures ok ==> IsReadable(e) && Added(base, db, p, source, done + ChunksOfEntry(source, e, yaml), embed)
    {
      ops := [];
      ghost var more := ChunksOfEntry(source, e, yaml);
      match e
      case WalkError =>
        return false, [];
      case Directory =>
        assert done + more == done;
        return true, [];
      case File(path, rel, content) =>
        if !IsIndexable(path) {
          assert done + more == done;
          return true, [];
        }
        if content.None? {
          return false, [];
        }
        ok, ops := IndexContent(source, e, yaml, embed);
        if ok {
          AddMore(base, old(db), db, p, source, done, more, embed);
        }
    }

    // Replaces the index of a source. Whatever Redis held before, a call that reports success leaves
    // exactly the chunks of the files that are there now. In any case it has made a drop and then
    // additions of the first files' chunks, of which only the last may have broken off.
    method IndexDir(source: string, entries: seq<Entry>, yaml: string -> Header, embed: string -> Option<Vector>)
      returns (ok: bool, ghost ops: seq<Operation>)
      requires Walked(entries) && NeverEmpty(embed)
      modifies this
      ensures ok ==> IndexedFrom(db, p, source, AllChunks(source, entries, yaml), embed)
      ensures ok ==> exists cs :: AreFileChunks(source, entries, yaml, cs) && IsIndexOf(db, p, source, cs, embed)
      ensures ok ==> AllWhole(p, ops) && forall i :: 0 <= i < |entries| ==> IsReadable(entries[i])
      ensures UpToSome(old(db), db, p, Job(source, entries, yaml, embed), ops)
    {
      ghost var job := Job(source, entries, yaml, embed);
      ok, ops := Drop(source);
      Begun(old(db), db, p, job, ops);
      if !ok {
        return;
      }
      ghost var base := db;
      for i := 0 to |entries|
        invariant ok && SoFar(old(db), base, db, p, job, i, ops)
      {
        ghost var before := db;
        ghost var more;
        ok, more := IndexEntry(source, entries[i], yaml, embed, base, ChunksUpTo(job, i));
        if !ok {
          ops := EntryFailed(old(db), base, before, db, p, job, i, ops, more);
          return;
        }
        ops := EntrySucceeded(old(db), base, before, db, p, job, i, ops, more);
      }
      Finished(old(db), base, db, p, job, ops);
      FilesAreExact(source, entries, yaml);
      IndexedIsIndex(db, p, source, AllChunks(source, entries, yaml), embed);
    }
  }
}
