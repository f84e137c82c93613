/**
What pipelines that break off leave behind (internal/rag/store.go, Drop and Add): over any run, which
chunks of a source can be in its vector set, in its id set or have a hash, and not be in the others,
and which broken-off pipeline is to blame.
*/
module RagBreaks {
  import opened Wrappers
  import opened Chunks
  import opened RagFiles
  import opened RagStore
  import opened RagRuns

  // Where a chunk is found: in the source's vector set, in its id set, as a hash.
  datatype Marks = Marks(vector: bool, listed: bool, hash: bool)

  function MarksOf(db: Db, p: string, source: string, id: string): Marks {
    Marks(id in VectorsAt(db, VsKey(p, source)), id in IdsAt(db, IdxKey(p, source)),
          MetaKey(p, id) in db && db[MetaKey(p, id)].Hash?)
  }

  // ---- what one pipeline does to the marks of one chunk

  // The pipeline got as far as the k-th of the three commands for this id.
  predicate Reached(chunks: seq<Chunk>, executed: nat, id: string, k: nat) {
    exists i :: 0 <= i < |chunks| && chunks[i].id == id && 3 * i + k <= executed
  }

  predicate HashDeleted(ids: seq<string>, executed: nat, id: string) {
    exists j :: 0 <= j < |ids| && ids[j] == id && j + 3 <= executed
  }

  function NextMarks(m: Marks, op: Operation, source: string, id: string): Marks {
    if op.source != source then m else
    match op
    case Add(_, chunks, _, executed) =>
      Marks(m.vector || Reached(chunks, executed, id, 1), m.listed || Reached(chunks, executed, id, 2),
            m.hash || Reached(chunks, executed, id, 3))
    case Drop(_, ids, executed) =>
      Marks(m.vector && executed < 1, m.listed && executed < 2, m.hash && !HashDeleted(ids, executed, id))
  }

  // ---- command by command

  function Marked(m: Marks, c: Command, p: string, source: string, id: string): Marks {
    match c
    case VAdd(key, _, element) => if key == VsKey(p, source) && element == id then m.(vector := true) else m
    case SAdd(key, member) => if key == IdxKey(p, source) && member == id then m.(listed := true) else m
    case HSet(key, _) => if key == MetaKey(p, id) then m.(hash := true) else m
    case Del(key) =>
      Marks(m.vector && key != VsKey(p, source), m.listed && key != IdxKey(p, source), m.hash && key != MetaKey(p, id))
  }

  // The command does not put a value of another kind under one of these keys.
  predicate NoCross(c: Command, p: string, source: string, id: string) {
    match c
    case VAdd(key, _, _) => key != IdxKey(p, source) && key != MetaKey(p, id)
    case SAdd(key, _) => key != VsKey(p, source) && key != MetaKey(p, id)
    case HSet(key, _) => key != VsKey(p, source) && key != IdxKey(p, source)
    case Del(_) => true
  }

  lemma MarkedExact(db: Db, c: Command, p: string, source: string, id: string)
    requires Fits(db, c) && NoCross(c, p, source, id)
    ensures MarksOf(Apply(db, c), p, source, id) == Marked(MarksOf(db, p, source, id), c, p, source, id)
  {
  }

  lemma PrefixStep(db: Db, cs: seq<Command>, e: nat)
    requires e < |cs| && AllFit(db, cs)
    ensures ApplyAll(db, cs[..e + 1]) == Apply(ApplyAll(db, cs[..e]), cs[e]) && Fits(ApplyAll(db, cs[..e]), cs[e])
  {
    PrefixFits(db, cs, e + 1);
    assert cs[..e + 1] == cs[..e] + [cs[e]];
    ApplyConcat(db, cs[..e], [cs[e]]);
    var before := ApplyAll(db, cs[..e]);
    assert ApplyAll(before, [cs[e]]) == Apply(before, cs[e]) && (AllFit(before, [cs[e]]) <==> Fits(before, cs[e]));
  }

  lemma OneCommandMarks(db: Db, p: string, cs: seq<Command>, e: nat, t: string, id: string, m: Marks)
    requires e < |cs| && AllFit(db, cs) && NoCross(cs[e], p, t, id) && MarksOf(ApplyAll(db, cs[..e]), p, t, id) == m
    ensures MarksOf(ApplyAll(db, cs[..e + 1]), p, t, id) == Marked(m, cs[e], p, t, id)
  {
    PrefixStep(db, cs, e);
    MarkedExact(ApplyAll(db, cs[..e]), cs[e], p, t, id);
  }

  // ---- the commands of an addition

  lemma {:induction false} CommandAt(p: string, source: string, chunks: seq<Chunk>, vectors: seq<Vector>, e: nat)
    requires |chunks| == |vectors| && e < 3 * |chunks|
    ensures |AddCommands(p, source, chunks, vectors)| == 3 * |chunks|
    ensures AddCommands(p, source, chunks, vectors)[e] == ChunkCommands(p, source, chunks[e / 3], vectors[e / 3])[e % 3]
  {
    var n := |chunks| - 1;
    if n > 0 { CommandAt(p, source, chunks[..n], vectors[..n], if e < 3 * n then e else 0); }
  }

  lemma ReachedStep(chunks: seq<Chunk>, e: nat, id: string, k: nat)
    requires e < 3 * |chunks| && 1 <= k <= 3
    ensures Reached(chunks, e + 1, id, k) <==> Reached(chunks, e, id, k) || (chunks[e / 3].id == id && e % 3 + 1 == k)
  {
    if i :| 0 <= i < |chunks| && chunks[i].id == id && 3 * i + k <= e + 1 {
      assert 3 * i + k <= e || (i == e / 3 && e % 3 + 1 == k);
    }
    if chunks[e / 3].id == id && e % 3 + 1 == k {
      assert 3 * (e / 3) + k <= e + 1;
    }
  }

  lemma ChunkCommandMarks(p: string, source: string, chunk: Chunk, v: Vector, k: nat, t: string, id: string, m: Marks)
    requires Apart(source, t) && Apart(t, source) && RealId(source, chunk.id) && RealId(t, id) && k < 3
    ensures NoCross(ChunkCommands(p, source, chunk, v)[k], p, t, id)
    ensures Marked(m, ChunkCommands(p, source, chunk, v)[k], p, t, id) ==
            if t != source || chunk.id != id then m
            else if k == 0 then m.(vector := true) else if k == 1 then m.(listed := true) else m.(hash := true)
  {
    KeysApart(p, source, t, id);
    KeysApart(p, t, source, chunk.id);
    KeysInjective(p, chunk.id, id);
    if chunk.id == id { RealIdUnique(source, t, id); }
  }

  lemma NextCommandMarks(p: string, source: string, chunks: seq<Chunk>, vectors: seq<Vector>, e: nat, t: string,
                         id: string, m: Marks)
    requires Apart(source, t) && Apart(t, source) && RealId(t, id) && |chunks| == |vectors| && e < 3 * |chunks|
    requires RealId(source, chunks[e / 3].id)
    ensures var c := ChunkCommands(p, source, chunks[e / 3], vectors[e / 3])[e % 3];
            && NoCross(c, p, t, id)
            && Marked(NextMarks(m, Add(source, chunks, vectors, e), t, id), c, p, t, id) ==
               NextMarks(m, Add(source, chunks, vectors, e + 1), t, id)
  {
    ChunkCommandMarks(p, source, chunks[e / 3], vectors[e / 3], e % 3, t, id,
                      NextMarks(m, Add(source, chunks, vectors, e), t, id));
    ReachedStep(chunks, e, id, 1);
    ReachedStep(chunks, e, id, 2);
    ReachedStep(chunks, e, id, 3);
  }

  lemma {:induction false} AddMarks(db: Db, p: string, source: string, chunks: seq<Chunk>, vectors: seq<Vector>,
                                    e: nat, t: string, id: string)
    requires Apart(source, t) && Apart(t, source) && RealId(t, id) && |chunks| == |vectors|
    requires forall i :: 0 <= i < |chunks| ==> RealId(source, chunks[i].id)
    requires AllFit(db, AddCommands(p, source, chunks, vectors)) && e <= |AddCommands(p, source, chunks, vectors)|
    ensures MarksOf(ApplyAll(db, AddCommands(p, source, chunks, vectors)[..e]), p, t, id) ==
            NextMarks(MarksOf(db, p, t, id), Add(source, chunks, vectors, e), t, id)
    decreases e
  {
    var cs := AddCommands(p, source, chunks, vectors);
    if e > 0 {
      AddLength(p, source, chunks, vectors);
      AddMarks(db, p, source, chunks, vectors, e - 1, t, id);
      CommandAt(p, source, chunks, vectors, e - 1);
      NextCommandMarks(p, source, chunks, vectors, e - 1, t, id, MarksOf(db, p, t, id));
      OneCommandMarks(db, p, cs, e - 1, t, id, MarksOf(ApplyAll(db, cs[..e - 1]), p, t, id));
    }
  }

  lemma {:induction false} AddLength(p: string, source: string, chunks: seq<Chunk>, vectors: seq<Vector>)
    requires |chunks| == |vectors|
    ensures |AddCommands(p, source, chunks, vectors)| == 3 * |chunks|
  {
    if chunks != [] { AddLength(p, source, chunks[..|chunks| - 1], vectors[..|chunks| - 1]); }
  }

  // ---- the commands of a drop

  lemma {:induction false} MetaDelAt(p: string, ids: seq<string>, j: nat)
    requires j < |ids|
    ensures |MetaDels(p, ids)| == |ids| && MetaDels(p, ids)[j] == Del(MetaKey(p, ids[j]))
  {
    var n := |ids| - 1;
    if n > 0 { MetaDelAt(p, ids[..n], if j < n then j else 0); }
  }

  lemma DropLength(p: string, source: string, ids: seq<string>)
    ensures |DropCommands(p, source, ids)| == |ids| + 2
  {
    if ids != [] { MetaDelAt(p, ids, 0); }
  }

  lemma DropCommandAt(p: string, source: string, ids: seq<string>, e: nat)
    requires e < |DropCommands(p, source, ids)|
    ensures |DropCommands(p, source, ids)| == |ids| + 2
    ensures DropCommands(p, source, ids)[e] ==
            Del(if e == 0 then VsKey(p, source) else if e == 1 then IdxKey(p, source) else MetaKey(p, ids[e - 2]))
  {
    DropLength(p, source, ids);
    if e >= 2 { MetaDelAt(p, ids, e - 2); }
  }

  lemma DropCommandMarks(p: string, source: string, ids: seq<string>, e: nat, t: string, id: string, m: Marks)
    requires Apart(source, t) && Apart(t, source) && RealId(t, id) && e < |DropCommands(p, source, ids)|
    requires forall j :: 0 <= j < |ids| ==> RealId(source, ids[j])
    ensures |DropCommands(p, source, ids)| == |ids| + 2
    ensures Marked(m, DropCommands(p, source, ids)[e], p, t, id) ==
            if t != source then m
            else if e == 0 then m.(vector := false) else if e == 1 then m.(listed := false)
            else if ids[e - 2] == id then m.(hash := false) else m
  {
    DropCommandAt(p, source, ids, e);
    KeysApart(p, source, t, id);
    SomeRealId(source);
    if e >= 2 {
      KeysApart(p, t, source, ids[e - 2]);
      KeysInjective(p, ids[e - 2], id);
      if ids[e - 2] == id { RealIdUnique(source, t, id); }
    }
  }

  lemma DeletedStep(ids: seq<string>, e: nat, id: string)
    requires e < |ids| + 2
    ensures HashDeleted(ids, e + 1, id) <==> HashDeleted(ids, e, id) || (e >= 2 && ids[e - 2] == id)
  {
    if e >= 2 && ids[e - 2] == id {
      assert (e - 2) + 3 <= e + 1;
    }
  }

  lemma NextDropMarks(p: string, source: string, ids: seq<string>, e: nat, t: string, id: string, m: Marks)
    requires Apart(source, t) && Apart(t, source) && RealId(t, id) && e < |DropCommands(p, source, ids)|
    requires forall j :: 0 <= j < |ids| ==> RealId(source, ids[j])
    ensures var c := DropCommands(p, source, ids)[e];
            && NoCross(c, p, t, id)
            && Marked(NextMarks(m, Drop(source, ids, e), t, id), c, p, t, id) ==
               NextMarks(m, Drop(source, ids, e + 1), t, id)
  {
    DropCommandAt(p, source, ids, e);
    DropCommandMarks(p, source, ids, e, t, id, NextMarks(m, Drop(source, ids, e), t, id));
    DeletedStep(ids, e, id);
  }

  lemma {:induction false} DropMarks(db: Db, p: string, source: string, ids: seq<string>, e: nat, t: string, id: string)
    requires Apart(source, t) && Apart(t, source) && RealId(t, id) && e <= |DropCommands(p, source, ids)|
    requires AllFit(db, DropCommands(p, source, ids)) && forall j :: 0 <= j < |ids| ==> RealId(source, ids[j])
    ensures MarksOf(ApplyAll(db, DropCommands(p, source, ids)[..e]), p, t, id) ==
            NextMarks(MarksOf(db, p, t, id), Drop(source, ids, e), t, id)
    decreases e
  {
    var cs := DropCommands(p, source, ids);
    if e > 0 {
      DropMarks(db, p, source, ids, e - 1, t, id);
      NextDropMarks(p, source, ids, e - 1, t, id, MarksOf(db, p, t, id));
      OneCommandMarks(db, p, cs, e - 1, t, id, MarksOf(ApplyAll(db, cs[..e - 1]), p, t, id));
    }
  }

  // ---- any run

  lemma ListedAreReal(db: Db, p: string, sources: set<string>, source: string, ids: seq<string>)
    requires Compatible(sources) && WellTyped(db, p, sources) && source in sources &&
             Elems(ids) == IdsAt(db, IdxKey(p, source))
    ensures forall j :: 0 <= j < |ids| ==> RealId(source, ids[j])
  {
    var key := IdxKey(p, source);
    if ids != [] {
      assert ids[0] in Elems(ids);
      assert IsOwnKey(p, sources, key, db[key]);
      var s :| s in sources && key == IdxKey(p, s) && AllReal(s, db[key].ids);
      KeysInjective(p, s, source);
      forall j | 0 <= j < |ids| ensures RealId(source, ids[j]) {
        assert ids[j] in Elems(ids);
      }
    }
  }

  lemma BeyondTheEnd(op: Operation, m: Marks, source: string, id: string, e: nat)
    requires op.Add? ==> e >= 3 * |op.chunks|
    requires op.Drop? ==> e >= |op.ids| + 2
    requires op.executed >= e
    ensures NextMarks(m, op, source, id) == NextMarks(m, op.(executed := e), source, id)
  {
    match op
    case Add(_, chunks, _, executed) =>
      forall k: nat | 1 <= k <= 3 ensures Reached(chunks, executed, id, k) <==> Reached(chunks, e, id, k) {
        if i :| 0 <= i < |chunks| && chunks[i].id == id {
          assert 3 * i + k <= e;
        }
      }
    case Drop(_, ids, executed) =>
      if j :| 0 <= j < |ids| && ids[j] == id {
        assert j + 3 <= e;
      }
  }

  // One pipeline, whole or broken off, does exactly this to every chunk of every source.
  lemma PipelineMarks(db: Db, p: string, sources: set<string>, op: Operation, t: string, id: string)
    requires Compatible(sources) && WellTyped(db, p, sources) && op.source in sources && t in sources && RealId(t, id)
    requires Possible(db, p, op)
    ensures MarksOf(Perform(db, p, op), p, t, id) == NextMarks(MarksOf(db, p, t, id), op, t, id)
  {
    assert Apart(op.source, t) && Apart(t, op.source);
    PipelineFits(db, p, sources, op);
    var e := Min(op.executed, |CommandsOf(p, op)|);
    match op
    case Drop(source, ids, _) =>
      ListedAreReal(db, p, sources, source, ids);
      DropMarks(db, p, source, ids, e, t, id);
      DropLength(p, source, ids);
      if op.executed > e { BeyondTheEnd(op, MarksOf(db, p, t, id), t, id, e); }
    case Add(source, chunks, vectors, _) =>
      DocumentIsReal(source, chunks);
      AddMarks(db, p, source, chunks, vectors, e, t, id);
      AddLength(p, source, chunks, vectors);
      if op.executed > e { BeyondTheEnd(op, MarksOf(db, p, t, id), t, id, e); }
  }

  // The marks of one chunk after a run, computed without the database.
  ghost function MarksAfter(p: string, ops: seq<Operation>, source: string, id: string): Marks {
    if ops == [] then Marks(false, false, false) else
    var n := |ops| - 1;
    var m := MarksAfter(p, ops[..n], source, id);
    if Possible(RunAll(p, ops[..n]), p, ops[n]) then NextMarks(m, ops[n], source, id) else m
  }

  lemma {:induction false} RunMarks(p: string, sources: set<string>, ops: seq<Operation>, source: string, id: string)
    requires Compatible(sources) && Over(sources, ops) && source in sources && RealId(source, id)
    ensures MarksOf(RunAll(p, ops), p, source, id) == MarksAfter(p, ops, source, id)
  {
    if ops != [] {
      var n := |ops| - 1;
      var db := RunAll(p, ops[..n]);
      RunMarks(p, sources, ops[..n], source, id);
      RunsKeepTypes(p, sources, ops[..n]);
      if Possible(db, p, ops[n]) { PipelineMarks(db, p, sources, ops[n], source, id); }
    }
  }

  // ---- what can be at odds, and why

  // An addition of the source broke off right after the k-th command for this id.
  predicate AddStopped(op: Operation, source: string, id: string, k: nat) {
    op.Add? && op.source == source &&
    exists i :: 0 <= i < |op.chunks| && op.chunks[i].id == id && op.executed == 3 * i + k
  }

  // A drop of the source broke off after it had deleted the vector set only.
  predicate DropStoppedEarly(op: Operation, source: string, id: string) {
    op.Drop? && op.source == source && op.executed == 1 && id in op.ids
  }

  // A drop of the source broke off after it had deleted the id set and before it came to this hash.
  predicate DropStoppedLate(op: Operation, source: string, id: string) {
    op.Drop? && op.source == source && op.executed >= 2 && id in op.ids && !HashDeleted(op.ids, op.executed, id)
  }

  // Each disagreement has its cause in the run.
  predicate Explained(ops: seq<Operation>, source: string, id: string, m: Marks) {
    && (m.vector && !m.listed ==> exists j :: 0 <= j < |ops| && AddStopped(ops[j], source, id, 1))
    && (m.listed && !m.hash ==> exists j :: 0 <= j < |ops| && AddStopped(ops[j], source, id, 2))
    && (m.listed && !m.vector ==> exists j :: 0 <= j < |ops| && DropStoppedEarly(ops[j], source, id))
    && (m.hash && !m.listed ==> exists j :: 0 <= j < |ops| && DropStoppedLate(ops[j], source, id))
  }

  lemma StillExplained(ops: seq<Operation>, op: Operation, source: string, id: string, m: Marks)
    requires Explained(ops, source, id, m)
    ensures Explained(ops + [op], source, id, m)
  {
    var more := ops + [op];
    assert forall j :: 0 <= j < |ops| ==> more[j] == ops[j];
    if j :| 0 <= j < |ops| && AddStopped(ops[j], source, id, 1) { assert AddStopped(more[j], source, id, 1); }
    if j :| 0 <= j < |ops| && AddStopped(ops[j], source, id, 2) { assert AddStopped(more[j], source, id, 2); }
    if j :| 0 <= j < |ops| && DropStoppedEarly(ops[j], source, id) { assert DropStoppedEarly(more[j], source, id); }
    if j :| 0 <= j < |ops| && DropStoppedLate(ops[j], source, id) { assert DropStoppedLate(more[j], source, id); }
  }

  lemma StopsBetween(op: Operation, source: string, id: string, k: nat)
    requires op.Add? && op.source == source && Reached(op.chunks, op.executed, id, k) &&
             !Reached(op.chunks, op.executed, id, k + 1)
    ensures AddStopped(op, source, id, k)
  {
    var i :| 0 <= i < |op.chunks| && op.chunks[i].id == id && 3 * i + k <= op.executed;
    assert 3 * i + (k + 1) > op.executed;
  }

  lemma ReachedLess(chunks: seq<Chunk>, executed: nat, id: string, k: nat)
    requires Reached(chunks, executed, id, k + 1)
    ensures Reached(chunks, executed, id, k)
  {
    var i :| 0 <= i < |chunks| && chunks[i].id == id && 3 * i + (k + 1) <= executed;
    assert 3 * i + k <= executed;
  }

  lemma AddExplained(ops: seq<Operation>, op: Operation, source: string, id: string, m: Marks)
    requires Explained(ops, source, id, m) && op.Add? && op.source == source
    ensures Explained(ops + [op], source, id, NextMarks(m, op, source, id))
  {
    StillExplained(ops, op, source, id, m);
    assert (ops + [op])[|ops|] == op;
    var r1, r2 := Reached(op.chunks, op.executed, id, 1), Reached(op.chunks, op.executed, id, 2);
    var r3 := Reached(op.chunks, op.executed, id, 3);
    if r2 { ReachedLess(op.chunks, op.executed, id, 1); }
    if r3 { ReachedLess(op.chunks, op.executed, id, 2); }
    if r1 && !r2 { StopsBetween(op, source, id, 1); }
    if r2 && !r3 { StopsBetween(op, source, id, 2); }
  }

  lemma DropExplained(ops: seq<Operation>, op: Operation, source: string, id: string, m: Marks)
    requires Explained(ops, source, id, m) && op.Drop? && op.source == source && (m.listed <==> id in op.ids)
    ensures Explained(ops + [op], source, id, NextMarks(m, op, source, id))
  {
    StillExplained(ops, op, source, id, m);
    assert (ops + [op])[|ops|] == op;
  }

  // Over any run on compatible names, pipelines broken off anywhere included. An id has a vector and is
  // not listed only if an addition broke off between the two; it is listed and has no hash only if an
  // addition broke off between these; it is listed and has no vector only if a drop broke off after its
  // first command; and it has a hash and is not listed only if a drop broke off before deleting it.
  lemma {:induction false} DisagreementsAreExplained(p: string, sources: set<string>, ops: seq<Operation>,
                                                     source: string, id: string)
    requires Compatible(sources) && Over(sources, ops) && source in sources && RealId(source, id)
    ensures Explained(ops, source, id, MarksOf(RunAll(p, ops), p, source, id))
  {
    RunMarks(p, sources, ops, source, id);
    if ops != [] {
      var n := |ops| - 1;
      var db := RunAll(p, ops[..n]);
      var m, op := MarksOf(db, p, source, id), ops[n];
      DisagreementsAreExplained(p, sources, ops[..n], source, id);
      RunMarks(p, sources, ops[..n], source, id);
      assert ops == ops[..n] + [op];
      if !Possible(db, p, op) || op.source != source {
        StillExplained(ops[..n], op, source, id, m);
      } else if op.Add? {
        AddExplained(ops[..n], op, source, id, m);
      } else {
        assert id in Elems(op.ids) <==> id in op.ids;
        DropExplained(ops[..n], op, source, id, m);
      }
    }
  }

  // ---- all of this happens

  lemma RunMore(p: string, sources: set<string>, ops: seq<Operation>, op: Operation, source: string, id: string)
    requires Compatible(sources) && Over(sources, ops) && op.source == source && source in sources && RealId(source, id)
    requires Possible(RunAll(p, ops), p, op)
    ensures MarksOf(RunAll(p, ops + [op]), p, source, id) ==
            NextMarks(MarksOf(RunAll(p, ops), p, source, id), op, source, id)
  {
    RunsKeepTypes(p, sources, ops);
    PipelineMarks(RunAll(p, ops), p, sources, op, source, id);
    PerformMore(map[], p, ops, op);
  }

  lemma StoppedAddition(source: string, e: nat) returns (op: Operation)
    ensures op.source == source && op.Add? && IsAddition(source, op.chunks, op.vectors)
    ensures NextMarks(Marks(false, false, false), op, source, ChunkId(source, "c.md", 0)) ==
            Marks(e >= 1, e >= 2, e >= 3)
  {
    ExtOfSmallName();
    var chunks := OneChunkWith(source, "c.md");
    var id := chunks[0].id;
    op := Add(source, chunks, [[1.0]], e);
    forall k: nat
      ensures Reached(chunks, e, id, k) <==> k <= e
    {
      if k <= e { assert 3 * 0 + k <= e; }
    }
  }

  // After any run, the next addition of a file that is not there yet can break off so that its chunk
  // has a vector only, a vector and an entry in the id set, or all three.
  lemma AdditionsStopAnywhere(p: string, sources: set<string>, ops: seq<Operation>, source: string, e: nat)
    returns (op: Operation)
    requires Compatible(sources) && Over(sources, ops) && source in sources
    requires MarksOf(RunAll(p, ops), p, source, ChunkId(source, "c.md", 0)) == Marks(false, false, false)
    ensures op.source == source && Possible(RunAll(p, ops), p, op)
    ensures MarksOf(RunAll(p, ops + [op]), p, source, ChunkId(source, "c.md", 0)) == Marks(e >= 1, e >= 2, e >= 3)
  {
    SomeRealId(source);
    op := StoppedAddition(source, e);
    RunMore(p, sources, ops, op, source, ChunkId(source, "c.md", 0));
  }

  lemma {:induction false} Listing(s: set<string>) returns (ids: seq<string>)
    ensures Elems(ids) == s
    decreases |s|
  {
    if s == {} {
      ids := [];
    } else {
      var x :| x in s;
      var rest := Listing(s - {x});
      ids := [x] + rest;
      assert s == {x} + (s - {x});
    }
  }

  lemma StoppedDrop(db: Db, p: string, source: string, id: string, e: nat) returns (op: Operation)
    requires IdxKey(p, source) in db && db[IdxKey(p, source)].Ids? && id in IdsAt(db, IdxKey(p, source))
    ensures op.source == source && op.Drop? && Possible(db, p, op)
    ensures NextMarks(Marks(true, true, true), op, source, id) == Marks(e < 1, e < 2, e < 3)
  {
    var listed := IdsAt(db, IdxKey(p, source));
    var rest := Listing(listed - {id});
    var ids := [id] + rest;
    assert Elems(ids) == listed by { assert listed == {id} + (listed - {id}); }
    op := Drop(source, ids, e);
    assert id !in rest by { assert id !in Elems(rest); }
    assert HashDeleted(ids, e, id) <==> e >= 3 by {
      if e >= 3 { assert ids[0] == id && 0 + 3 <= e; }
    }
  }

  // After any run, the next drop of a source can break off so that a chunk has lost its vector only,
  // its vector and its entry in the id set, or all three.
  lemma DropsStopAnywhere(p: string, sources: set<string>, ops: seq<Operation>, source: string, id: string, e: nat)
    returns (op: Operation)
    requires Compatible(sources) && Over(sources, ops) && source in sources && RealId(source, id)
    requires MarksOf(RunAll(p, ops), p, source, id) == Marks(true, true, true)
    ensures op.source == source && Possible(RunAll(p, ops), p, op)
    ensures MarksOf(RunAll(p, ops + [op]), p, source, id) == Marks(e < 1, e < 2, e < 3)
  {
    op := StoppedDrop(RunAll(p, ops), p, source, id, e);
    RunMore(p, sources, ops, op, source, id);
  }

  // The hash of a listed chunk is orphaned by a drop, that is kept with its id in no id set of the
  // source, exactly when the drop broke off after the id set was deleted and before the hash was.
  lemma OrphanIff(db: Db, p: string, sources: set<string>, op: Operation, id: string)
    requires Compatible(sources) && WellTyped(db, p, sources) && op.source in sources && op.Drop? && Possible(db, p, op)
    requires id in op.ids && MetaKey(p, id) in db && db[MetaKey(p, id)].Hash?
    ensures MarksOf(Perform(db, p, op), p, op.source, id).hash &&
            !MarksOf(Perform(db, p, op), p, op.source, id).listed <==>
            op.executed >= 2 && !HashDeleted(op.ids, op.executed, id)
  {
    ListedAreReal(db, p, sources, op.source, op.ids);
    var j :| 0 <= j < |op.ids| && op.ids[j] == id;
    assert id in Elems(op.ids);
    PipelineMarks(db, p, sources, op, op.source, id);
  }
}
