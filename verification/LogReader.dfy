/**
Reading a log file from its start or from its end (internal/logs/logs.go, ReadFile). The scanner is the lines it
yields and whether it then stops with an error; timestamp parsing is an arbitrary function of the line.
*/
module LogReader {
  import opened Wrappers

  datatype Source = Source(lines: seq<string>, fails: bool)

  datatype ReadOptions = ReadOptions(lines: int, tail: bool, offset: int, since: Option<int>, until: Option<int>)

  const DEFAULT_LINES := 100

  function LineLimit(lines: int): (n: int)
    ensures n > 0
  {
    if lines <= 0 then DEFAULT_LINES else lines
  }

  predicate InWindow(at: int, since: Option<int>, until: Option<int>) {
    (since.Some? ==> since.value <= at) && (until.Some? ==> at <= until.value)
  }

  // A line without a readable timestamp is never filtered out.
  function TimeFilter(parse: string -> Option<int>, since: Option<int>, until: Option<int>): string -> bool {
    (line: string) => parse(line).Some? ==> InWindow(parse(line).value, since, until)
  }

  // The last n lines, or all of them.
  function Tail(s: seq<string>, n: int): seq<string>
    requires n > 0
  {
    s[|s| - Min(n, |s|)..]
  }

  // How many in-range lines head mode reads before it stops.
  function HeadFetch(offset: int, n: int): int {
    Max(1, n + offset)
  }

  // The n lines after the first offset ones. A negative offset takes lines off the
  // end of the page instead, but one line is always read.
  function Head(s: seq<string>, offset: int, n: int): seq<string>
    requires n > 0
  {
    if offset > 0 then s[Min(offset, |s|)..Min(offset + n, |s|)]
    else s[..Min(HeadFetch(offset, n), |s|)]
  }

  // Tail mode does not look at the offset and always scans to the end of the file;
  // head mode reports a read error only if it needed the part that could not be read.
  ghost predicate IsRead(src: Source, parse: string -> Option<int>, opts: ReadOptions, r: Result<seq<string>>) {
    var n := LineLimit(opts.lines);
    var kept := Keep(src.lines, TimeFilter(parse, opts.since, opts.until));
    if opts.tail then
      if src.fails then r.Err? else r == Ok(Tail(kept, n))
    else
      if src.fails && |kept| < HeadFetch(opts.offset, n) then r.Err? else r == Ok(Head(kept, opts.offset, n))
  }

  // at lists the lines, in order, that have no timestamp or one within the bounds.
  ghost predicate InTime(lines: seq<string>, parse: string -> Option<int>, since: Option<int>, until: Option<int>,
                         at: seq<nat>)
  {
    && Ascending(at) && Within(at, |lines|)
    && forall j :: 0 <= j < |lines| ==>
         (j in at <==> forall time :: parse(lines[j]) == Some(time) ==>
                         (since.Some? ==> since.value <= time) && (until.Some? ==> time <= until.value))
  }

  lemma InTimeIsFilter(line: string, parse: string -> Option<int>, since: Option<int>, until: Option<int>)
    ensures TimeFilter(parse, since, until)(line) <==>
            forall time :: parse(line) == Some(time) ==>
              (since.Some? ==> since.value <= time) && (until.Some? ==> time <= until.value)
  {
    assert TimeFilter(parse, since, until)(line) ==
           (parse(line).Some? ==> InWindow(parse(line).value, since, until));
  }

  // The lines that pass the filter are the ones within the bounds.
  lemma FilteredInTime(lines: seq<string>, parse: string -> Option<int>, since: Option<int>, until: Option<int>)
    returns (at: seq<nat>)
    ensures InTime(lines, parse, since, until, at) && Selects(lines, at, TimeFilter(parse, since, until))
  {
    at := Selected(lines, TimeFilter(parse, since, until));
    forall j | 0 <= j < |lines|
      ensures j in at <==> forall time :: parse(lines[j]) == Some(time) ==>
                (since.Some? ==> since.value <= time) && (until.Some? ==> time <= until.value)
    {
      InTimeIsFilter(lines[j], parse, since, until);
    }
  }

  // The positions, among those in time, of the lines a request gets.
  function PageOf(at: seq<nat>, opts: ReadOptions): seq<nat> {
    var n := if opts.lines <= 0 then 100 else opts.lines;
    if opts.tail then at[Max(0, |at| - n)..]
    else if opts.offset >= 0 then at[Min(opts.offset, |at|)..Min(opts.offset + n, |at|)]
    else at[..Min(Max(1, n + opts.offset), |at|)]
  }

  lemma PageIsRead(src: Source, parse: string -> Option<int>, opts: ReadOptions, r: Result<seq<string>>)
    returns (at: seq<nat>)
    requires IsRead(src, parse, opts, r) && r.Ok?
    ensures InTime(src.lines, parse, opts.since, opts.until, at) && Within(PageOf(at, opts), |src.lines|)
    ensures r.value == Picked(src.lines, PageOf(at, opts))
  {
    at := FilteredInTime(src.lines, parse, opts.since, opts.until);
    SelectsKeep(src.lines, at, TimeFilter(parse, opts.since, opts.until));
    PagePicked(src.lines, at, opts);
  }

  lemma TailPicked(lines: seq<string>, at: seq<nat>, n: int)
    requires n > 0 && Within(at, |lines|)
    ensures var page := at[Max(0, |at| - n)..];
            Within(page, |lines|) && Picked(lines, page) == Tail(Picked(lines, at), n)
  {
    PickedSlice(lines, at, Max(0, |at| - n), |at|);
    assert at[Max(0, |at| - n)..|at|] == at[Max(0, |at| - n)..];
  }

  lemma PagePicked(lines: seq<string>, at: seq<nat>, opts: ReadOptions)
    requires Within(at, |lines|)
    ensures Within(PageOf(at, opts), |lines|)
    ensures Picked(lines, PageOf(at, opts)) ==
            if opts.tail then Tail(Picked(lines, at), LineLimit(opts.lines))
            else Head(Picked(lines, at), opts.offset, LineLimit(opts.lines))
  {
    var n := LineLimit(opts.lines);
    if opts.tail {
      TailPicked(lines, at, n);
    } else if opts.offset >= 0 {
      PickedSlice(lines, at, Min(opts.offset, |at|), Min(opts.offset + n, |at|));
    } else {
      PickedSlice(lines, at, 0, Min(Max(1, n + opts.offset), |at|));
    }
  }

  lemma PagesAreInTime(src: Source, parse: string -> Option<int>, opts: ReadOptions, at: seq<nat>, line: string)
    requires InTime(src.lines, parse, opts.since, opts.until, at) && Within(PageOf(at, opts), |src.lines|)
    requires line in Picked(src.lines, PageOf(at, opts))
    ensures line in src.lines
    ensures parse(line).Some? ==> (opts.since.Some? ==> opts.since.value <= parse(line).value) &&
                                  (opts.until.Some? ==> parse(line).value <= opts.until.value)
  {
    var page := PageOf(at, opts);
    var i :| 0 <= i < |page| && src.lines[page[i]] == line;
    assert page[i] in at;
  }

  // Nothing is missing from an answer that is not full.
  lemma AllInTimeReturned(src: Source, parse: string -> Option<int>, opts: ReadOptions, at: seq<nat>, line: string)
    requires InTime(src.lines, parse, opts.since, opts.until, at) && (opts.tail || opts.offset == 0)
    requires |PageOf(at, opts)| < if opts.lines <= 0 then 100 else opts.lines
    requires line in src.lines
    requires parse(line).Some? ==> (opts.since.Some? ==> opts.since.value <= parse(line).value) &&
                                   (opts.until.Some? ==> parse(line).value <= opts.until.value)
    ensures Within(PageOf(at, opts), |src.lines|) && line in Picked(src.lines, PageOf(at, opts))
  {
    assert PageOf(at, opts) == at;
    var j :| 0 <= j < |src.lines| && src.lines[j] == line;
    assert j in at;
    var k :| 0 <= k < |at| && at[k] == j;
    assert Picked(src.lines, at)[k] == line;
  }

  // ---- the ring buffer

  // Ring slot j % n holds line j, for the last n of the lines seen.
  ghost predicate RingHolds(ring: seq<string>, kept: seq<string>) {
    |ring| > 0 && forall j :: Max(0, |kept| - |ring|) <= j < |kept| ==> SlotHolds(ring, kept, j)
  }

  predicate SlotHolds(ring: seq<string>, kept: seq<string>, j: int)
    requires |ring| > 0 && 0 <= j < |kept|
  {
    ring[j % |ring|] == kept[j]
  }

  lemma ModApart(a: int, b: int, n: int)
    requires 0 < b - a < n
    ensures a % n != b % n
  {
    if a % n == b % n {
      assert b - a == n * (b / n - a / n);
      assert false by { MulBetween(b / n - a / n, n); }
    }
  }

  lemma MulBetween(q: int, n: int)
    requires n > 0
    ensures !(0 < n * q < n)
  {
    if q >= 1 { assert n * q >= n; } else { assert n * q <= 0; }
  }

  lemma ModAdd(q: int, r: int, n: int)
    requires 0 <= r < n
    ensures (q * n + r) % n == r
  {
    var x := q * n + r;
    assert r - x % n == n * (x / n - q);
    MulBetween(x / n - q, n);
    MulBetween(q - x / n, n);
    assert x % n - r == n * (q - x / n);
  }

  lemma RingStore(ring: seq<string>, kept: seq<string>, line: string)
    requires RingHolds(ring, kept)
    ensures RingHolds(ring[|kept| % |ring| := line], kept + [line])
  {
    var n, p := |ring|, |kept|;
    var ring', kept' := ring[p % n := line], kept + [line];
    forall j | Max(0, p + 1 - n) <= j < p + 1
      ensures SlotHolds(ring', kept', j)
    {
      if j < p {
        assert SlotHolds(ring, kept, j);
        ModApart(j, p, n);
      }
    }
  }

  // The slot of the t-th of the last n of p lines.
  lemma SlotOf(p: int, n: int, t: int)
    requires 0 <= t < n
    ensures (p - n + t) % n == if p % n + t < n then p % n + t else p % n + t - n
  {
    var q, start := p / n, p % n;
    assert p == q * n + start;
    if start + t < n {
      ModAdd(q - 1, start + t, n);
      assert p - n + t == (q - 1) * n + (start + t);
    } else {
      ModAdd(q, start + t - n, n);
      assert p - n + t == q * n + (start + t - n);
    }
  }

  lemma RingUnrolled(ring: seq<string>, kept: seq<string>)
    requires RingHolds(ring, kept) && |kept| > |ring|
    ensures var start := |kept| % |ring|; ring[start..] + ring[..start] == Tail(kept, |ring|)
  {
    var n, p := |ring|, |kept|;
    var start := p % n;
    var out, want := ring[start..] + ring[..start], Tail(kept, n);
    forall t | 0 <= t < n
      ensures out[t] == want[t]
    {
      SlotOf(p, n, t);
      assert SlotHolds(ring, kept, p - n + t);
      assert want[t] == kept[p - n + t] == ring[(p - n + t) % n];
    }
  }

  lemma RingStart(ring: seq<string>, kept: seq<string>)
    requires RingHolds(ring, kept) && |kept| <= |ring|
    ensures ring[..|kept|] == Tail(kept, |ring|) == kept
  {
    forall j | 0 <= j < |kept|
      ensures ring[j] == kept[j]
    {
      assert SlotHolds(ring, kept, j);
      ModAdd(0, j % |ring|, |ring|);
      if j < |ring| { ModAdd(0, j, |ring|); }
    }
  }

  // file is what was opened, or None when it cannot be opened or its real path is not allowed.
  method ReadFile(file: Option<Source>, parse: string -> Option<int>, opts: ReadOptions)
    returns (r: Result<seq<string>>)
    ensures file.None? ==> r.Err?
    ensures file.Some? ==> IsRead(file.value, parse, opts, r)
    ensures file.Some? && r.Ok? ==>
              exists at :: InTime(file.value.lines, parse, opts.since, opts.until, at) &&
                           Within(PageOf(at, opts), |file.value.lines|) &&
                           r.value == Picked(file.value.lines, PageOf(at, opts))
    ensures file.Some? && r.Ok? ==> forall line :: line in r.value ==>
              line in file.value.lines &&
              (parse(line).Some? ==> (opts.since.Some? ==> opts.since.value <= parse(line).value) &&
                                     (opts.until.Some? ==> parse(line).value <= opts.until.value))
    ensures file.Some? && r.Ok? && |r.value| < (if opts.lines <= 0 then 100 else opts.lines) &&
            (opts.tail || opts.offset == 0) ==>
              forall line :: line in file.value.lines ==>
                line in r.value ||
                (parse(line).Some? && ((opts.since.Some? && parse(line).value < opts.since.value) ||
                                       (opts.until.Some? && parse(line).value > opts.until.value)))
  {
    if file.None? {
      return Err("opening");
    }
    var src := file.value;
    var n := opts.lines;
    if n <= 0 {
      n := DEFAULT_LINES;
    }
    if opts.tail {
      r := ReadTail(src, parse, opts, n);
    } else {
      r := ReadHead(src, parse, opts, n);
    }
    if r.Ok? {
      ghost var at := PageIsRead(src, parse, opts, r);
      forall line | line in r.value
        ensures line in src.lines &&
                (parse(line).Some? ==> (opts.since.Some? ==> opts.since.value <= parse(line).value) &&
                                       (opts.until.Some? ==> parse(line).value <= opts.until.value))
      {
        PagesAreInTime(src, parse, opts, at, line);
      }
      if |r.value| < (if opts.lines <= 0 then 100 else opts.lines) && (opts.tail || opts.offset == 0) {
        forall line | line in src.lines &&
                      (parse(line).Some? ==> (opts.since.Some? ==> opts.since.value <= parse(line).value) &&
                                             (opts.until.Some? ==> parse(line).value <= opts.until.value))
          ensures line in r.value
        {
          AllInTimeReturned(src, parse, opts, at, line);
        }
      }
    }
  }

  // The check of one line in both loops.
  method InRange(line: string, parse: string -> Option<int>, opts: ReadOptions) returns (keep: bool)
    ensures keep == TimeFilter(parse, opts.since, opts.until)(line)
  {
    assert TimeFilter(parse, opts.since, opts.until)(line) ==
           (parse(line).Some? ==> InWindow(parse(line).value, opts.since, opts.until));
    if opts.since.Some? || opts.until.Some? {
      var ts := parse(line);
      if ts.Some? {
        if opts.since.Some? && ts.value < opts.since.value {
          return false;
        }
        if opts.until.Some? && ts.value > opts.until.value {
          return false;
        }
      }
    }
    keep := true;
  }

  // Stores the next line in its slot of the ring.
  method StoreLine(ring: array<string>, pos: nat, line: string, ghost kept: seq<string>)
    requires pos == |kept| && RingHolds(ring[..], kept)
    modifies ring
    ensures RingHolds(ring[..], kept + [line])
  {
    RingStore(ring[..], kept, line);
    ring[pos % ring.Length] := line;
  }

  // The lines in the ring, oldest first.
  method UnrollRing(ring: array<string>, pos: nat, count: nat, ghost kept: seq<string>) returns (r: seq<string>)
    requires pos == count == |kept| && RingHolds(ring[..], kept)
    ensures r == Tail(kept, ring.Length)
  {
    if count <= ring.Length {
      RingStart(ring[..], kept);
      return ring[..count];
    }
    var start := pos % ring.Length;
    RingUnrolled(ring[..], kept);
    r := ring[start..] + ring[..start];
  }

  method ReadTail(src: Source, parse: string -> Option<int>, opts: ReadOptions, n: int) returns (r: Result<seq<string>>)
    requires n > 0
    ensures r == if src.fails then Err("reading")
                 else Ok(Tail(Keep(src.lines, TimeFilter(parse, opts.since, opts.until)), n))
  {
    var ring := new string[n](_ => "");
    var pos, count := 0, 0;
    ghost var filter := TimeFilter(parse, opts.since, opts.until);
    ghost var kept: seq<string> := [];
    for i := 0 to |src.lines|
      invariant kept == Keep(src.lines[..i], filter) && pos == count == |kept|
      invariant RingHolds(ring[..], kept)
    {
      var line := src.lines[i];
      KeepStep(src.lines, i, filter);
      var keep := InRange(line, parse, opts);
      if !keep {
        continue;
      }
      StoreLine(ring, pos, line, kept);
      kept := kept + [line];
      pos := pos + 1;
      count := count + 1;
    }
    assert src.lines[..|src.lines|] == src.lines;
    if src.fails {
      return Err("reading");
    }
    var lines := UnrollRing(ring, pos, count, kept);
    r := Ok(lines);
  }

  lemma RestStep(s: seq<string>, i: nat, keep: string -> bool)
    requires i < |s|
    ensures Keep(s[i..], keep) == (if keep(s[i]) then [s[i]] else []) + Keep(s[i + 1..], keep)
  {
    assert s[i..][1..] == s[i + 1..];
  }

  // Of the lines kept, some have been read, and rest is still to come; the scan has stopped when
  // enough were read.
  predicate HeadRead(all: seq<string>, lines: seq<string>, rest: seq<string>, fetch: int, stopped: bool) {
    && all == lines + rest && |lines| <= Max(1, fetch)
    && (stopped <==> |lines| >= fetch && lines != [])
  }

  lemma HeadCut(all: seq<string>, lines: seq<string>, rest: seq<string>, offset: int, n: int, stopped: bool)
    requires n > 0 && HeadRead(all, lines, rest, n + offset, stopped) && (stopped || rest == [])
    ensures !stopped <==> |all| < HeadFetch(offset, n)
    ensures Head(all, offset, n) == if offset <= 0 then lines else if offset >= |lines| then [] else lines[offset..]
    ensures |Head(all, offset, n)| <= n
  {
  }

  method ReadHead(src: Source, parse: string -> Option<int>, opts: ReadOptions, n: int) returns (r: Result<seq<string>>)
    requires n > 0
    ensures var kept := Keep(src.lines, TimeFilter(parse, opts.since, opts.until));
            r == if src.fails && |kept| < HeadFetch(opts.offset, n) then Err("reading")
                 else Ok(Head(kept, opts.offset, n))
  {
    ghost var filter := TimeFilter(parse, opts.since, opts.until);
    var fetch := n + opts.offset;
    ghost var all := Keep(src.lines, filter);
    var lines: seq<string> := [];
    var i := 0;
    var stopped := false;
    assert src.lines[0..] == src.lines;
    while i < |src.lines| && !stopped
      invariant 0 <= i <= |src.lines|
      invariant HeadRead(all, lines, Keep(src.lines[i..], filter), fetch, stopped)
      decreases |src.lines| - i
    {
      var line := src.lines[i];
      RestStep(src.lines, i, filter);
      i := i + 1;
      var keep := InRange(line, parse, opts);
      if !keep {
        continue;
      }
      Assoc(lines, [line], Keep(src.lines[i..], filter));
      lines := lines + [line];
      if |lines| >= fetch {
        stopped := true;
      }
    }
    HeadCut(all, lines, Keep(src.lines[i..], filter), opts.offset, n, stopped);
    if !stopped && src.fails {
      return Err("reading");
    }
    if opts.offset > 0 {
      if opts.offset >= |lines| {
        return Ok([]);
      }
      lines := lines[opts.offset..];
    }
    // At most HeadFetch lines were read, so this cut never removes anything.
    assert lines[..Min(n, |lines|)] == lines;
    r := Ok(lines[..Min(n, |lines|)]);
  }

  // ---- paging

  // What a reader collects from k consecutive head requests of n lines each.
  function Pages(s: seq<string>, n: int, k: nat): seq<string>
    requires n > 0
  {
    if k == 0 then [] else Pages(s, n, k - 1) + Head(s, (k - 1) * n, n)
  }

  lemma NextPage(s: seq<string>, at: nat, n: int)
    requires n > 0
    ensures s[..Min(at, |s|)] + Head(s, at, n) == s[..Min(at + n, |s|)]
  {
    assert Head(s, at, n) == s[Min(at, |s|)..Min(at + n, |s|)];
  }

  lemma {:induction false} PagesArePrefix(s: seq<string>, n: int, k: nat)
    requires n > 0
    ensures k * n >= 0 && Pages(s, n, k) == s[..Min(k * n, |s|)]
  {
    if k > 0 {
      PagesArePrefix(s, n, k - 1);
      NextPage(s, (k - 1) * n, n);
      assert k * n == (k - 1) * n + n;
    }
  }

  // Reading page after page gives the whole filtered file, each line once.
  lemma PagesConcatenateToFile(s: seq<string>, n: int, k: nat)
    requires n > 0 && k * n >= |s|
    ensures Pages(s, n, k) == s
  {
    PagesArePrefix(s, n, k);
  }

  // The last n lines are also the page that starts n lines before the end.
  lemma TailIsLastPage(s: seq<string>, n: int)
    requires n > 0
    ensures |s| >= n ==> Tail(s, n) == Head(s, |s| - n, n)
    ensures |s| < n ==> Tail(s, n) == Head(s, 0, n) == s
  {
  }
}
