/**
Searching a log in one pass (internal/logs/logs.go, collectMatches and SearchFile).
The pattern and the optional time filter are arbitrary predicates on lines.
*/
module LogSearch {
  import opened Wrappers
  import LogReader

  datatype Match = Match(lineNumber: int, line: string, before: seq<string>, after: seq<string>)

  datatype SearchOptions = SearchOptions(pattern: string, since: Option<int>, until: Option<int>,
                                         maxResults: int, contextLines: int)

  const DEFAULT_RESULTS := 200

  function ResultLimit(maxResults: int): (m: int)
    ensures m > 0
  {
    if maxResults <= 0 then DEFAULT_RESULTS else maxResults
  }

  // What decides which lines are hits: hit lines are in range and match the pattern.
  datatype Query = Query(inRange: string -> bool, matches: string -> bool, k: int) {
    predicate Hit(line: string) { inRange(line) && matches(line) }
  }

  // ---- whole-file specification

  // The indices of the hit lines, ascending.
  function HitIndices(q: Query, lines: seq<string>): (ps: seq<nat>)
    ensures forall j :: 0 <= j < |ps| ==> ps[j] < |lines| && q.Hit(lines[ps[j]])
    ensures forall i, j :: 0 <= i < j < |ps| ==> ps[i] < ps[j]
  {
    if lines == [] then [] else
    var n := |lines| - 1;
    var ps := HitIndices(q, lines[..n]);
    if q.Hit(lines[n]) then ps + [n] else ps
  }

  // No hit is left out: together with the ensures above, the indices are exactly the hits.
  lemma {:induction false} HitsComplete(q: Query, lines: seq<string>, p: nat)
    requires p < |lines| && q.Hit(lines[p])
    ensures p in HitIndices(q, lines)
  {
    var n := |lines| - 1;
    if p < n {
      HitsComplete(q, lines[..n], p);
    } else {
      var ps := HitIndices(q, lines[..n]);
      assert HitIndices(q, lines)[|ps|] == n;
    }
  }

  // The in-range lines after line p.
  function LaterLines(q: Query, lines: seq<string>, p: nat): seq<string>
    requires p < |lines|
  {
    Keep(lines[p + 1..], q.inRange)
  }

  // s up to and including its first matching line.
  function ThroughFirstMatch(q: Query, s: seq<string>): seq<string> {
    if s == [] then []
    else if q.matches(s[0]) then [s[0]]
    else [s[0]] + ThroughFirstMatch(q, s[1..])
  }

  function Take(s: seq<string>, k: int): seq<string> { s[..Max(0, Min(k, |s|))] }

  // Up to k raw lines before p.
  function BeforeOf(k: int, lines: seq<string>, p: nat): seq<string>
    requires p <= |lines|
  {
    if k > 0 then lines[Max(0, p - k)..p] else []
  }

  // Up to k in-range lines after p, cut off after the next match.
  function AfterOf(q: Query, lines: seq<string>, p: nat): seq<string>
    requires p < |lines|
  {
    Take(ThroughFirstMatch(q, LaterLines(q, lines, p)), q.k)
  }

  function Entry(q: Query, lines: seq<string>, p: nat): Match
    requires p < |lines|
  {
    Match(p + 1, lines[p], BeforeOf(q.k, lines, p), AfterOf(q, lines, p))
  }

  function AllMatches(q: Query, lines: seq<string>): (ms: seq<Match>)
    ensures |ms| == |HitIndices(q, lines)|
  {
    var ps := HitIndices(q, lines);
    seq(|ps|, j requires 0 <= j < |ps| => Entry(q, lines, ps[j]))
  }

  // How many in-range lines after hit c - 1 are needed to reach hit c, itself included.
  function Gap(q: Query, lines: seq<string>, c: int): nat
    requires 0 < c < |HitIndices(q, lines)|
  {
    var ps := HitIndices(q, lines);
    |Keep(lines[ps[c - 1] + 1..ps[c] + 1], q.inRange)|
  }

  // How many hits are reported when the search may stop from the c-th on: it goes on
  // as long as the next hit is inside the after-window of the one before.
  function StopFrom(q: Query, lines: seq<string>, c: int): (r: int)
    requires c > 0
    ensures r <= |HitIndices(q, lines)|
    ensures c <= |HitIndices(q, lines)| ==> c <= r
    ensures c > |HitIndices(q, lines)| ==> r == |HitIndices(q, lines)|
    ensures forall j :: c <= j < r ==> Gap(q, lines, j) <= q.k
    ensures 0 < r < |HitIndices(q, lines)| ==> Gap(q, lines, r) > q.k
    decreases |HitIndices(q, lines)| - c
  {
    var total := |HitIndices(q, lines)|;
    if c >= total then total
    else if Gap(q, lines, c) > q.k then c
    else StopFrom(q, lines, c + 1)
  }

  // All in-range lines the last reported after-window can hold have been read.
  predicate WindowFull(q: Query, lines: seq<string>, p: nat)
    requires p < |lines|
  {
    |LaterLines(q, lines, p)| >= q.k
  }

  // The scan ended before the end of the input was asked for.
  predicate StopsEarly(q: Query, lines: seq<string>, limit: int)
    requires limit > 0
  {
    var ps := HitIndices(q, lines);
    var c := StopFrom(q, lines, limit);
    c >= limit && WindowFull(q, lines, ps[c - 1])
  }

  // ---- how the specification grows by one line

  // How many more lines the last hit's after-window takes.
  function Pending(q: Query, lines: seq<string>): nat {
    if HitIndices(q, lines) == [] then 0 else Max(0, q.k - |LaterLines(q, lines, LastHit(q, lines))|)
  }

  function LastHit(q: Query, lines: seq<string>): (p: nat)
    requires HitIndices(q, lines) != []
    ensures p < |lines|
  {
    var ps := HitIndices(q, lines);
    ps[|ps| - 1]
  }

  lemma HitsGrow(q: Query, lines: seq<string>, i: nat)
    requires i < |lines|
    ensures HitIndices(q, lines[..i + 1]) == HitIndices(q, lines[..i]) + if q.Hit(lines[i]) then [i] else []
  {
    assert lines[..i + 1][..i] == lines[..i];
  }

  lemma {:induction false} HitsPrefix(q: Query, lines: seq<string>, i: nat)
    requires i <= |lines|
    ensures HitIndices(q, lines[..i]) <= HitIndices(q, lines)
    decreases |lines| - i
  {
    if i < |lines| {
      HitsPrefix(q, lines, i + 1);
      HitsGrow(q, lines, i);
    } else {
      assert lines[..i] == lines;
    }
  }

  lemma LaterSplit(q: Query, lines: seq<string>, p: nat, i: nat)
    requires p < i <= |lines|
    ensures LaterLines(q, lines[..i], p) == Keep(lines[p + 1..i], q.inRange)
    ensures LaterLines(q, lines, p) == Keep(lines[p + 1..i], q.inRange) + Keep(lines[i..], q.inRange)
  {
    assert lines[..i][p + 1..] == lines[p + 1..i];
    assert lines[p + 1..] == lines[p + 1..i] + lines[i..];
    KeepConcat(lines[p + 1..i], lines[i..], q.inRange);
  }

  predicate HasMatch(q: Query, s: seq<string>) {
    s != [] && (q.matches(s[0]) || HasMatch(q, s[1..]))
  }

  // The after-window reads on exactly as long as no match has been seen in it.
  lemma {:induction false} ThroughConcat(q: Query, s: seq<string>, t: seq<string>)
    ensures ThroughFirstMatch(q, s + t) ==
            if HasMatch(q, s) then ThroughFirstMatch(q, s) else s + ThroughFirstMatch(q, t)
  {
    if s == [] {
      assert s + t == t;
    } else {
      assert (s + t)[1..] == s[1..] + t;
      ThroughConcat(q, s[1..], t);
      if !HasMatch(q, s) {
        assert ThroughFirstMatch(q, s + t) == [s[0]] + (s[1..] + ThroughFirstMatch(q, t));
      }
    }
  }

  lemma ThroughAll(q: Query, s: seq<string>)
    requires !HasMatch(q, s)
    ensures ThroughFirstMatch(q, s) == s
  {
    ThroughConcat(q, s, []);
    assert s + [] == s;
  }

  lemma {:induction false} KeepHas(q: Query, s: seq<string>)
    ensures HasMatch(q, Keep(s, q.inRange)) <==> exists i :: 0 <= i < |s| && q.Hit(s[i])
  {
    if s != [] {
      KeepHas(q, s[1..]);
      assert forall i :: 0 <= i < |s| - 1 ==> s[1..][i] == s[i + 1];
      if i :| 0 <= i < |s| && q.Hit(s[i]) {
        assert i == 0 || q.Hit(s[1..][i - 1]);
      }
    }
  }

  // Between a hit and the line i there is another hit exactly when it is not the last one.
  lemma WindowClosed(q: Query, lines: seq<string>, i: nat, j: nat)
    requires i <= |lines| && j < |HitIndices(q, lines[..i])|
    ensures var ps := HitIndices(q, lines[..i]);
            HasMatch(q, Keep(lines[ps[j] + 1..i], q.inRange)) <==> j + 1 < |ps|
  {
    var ps := HitIndices(q, lines[..i]);
    var s := lines[ps[j] + 1..i];
    KeepHas(q, s);
    if j + 1 < |ps| {
      assert q.Hit(s[ps[j + 1] - ps[j] - 1]);
    }
    if d :| 0 <= d < |s| && q.Hit(s[d]) {
      HitsComplete(q, lines[..i], ps[j] + 1 + d);
      assert j + 1 < |ps|;
    }
  }

  // A window that has met its next match, or its k lines, is not changed by later lines.
  lemma AfterFixed(q: Query, lines: seq<string>, p: nat, i: nat)
    requires p < i <= |lines|
    requires var s := Keep(lines[p + 1..i], q.inRange); HasMatch(q, s) || |s| >= q.k
    ensures AfterOf(q, lines, p) == AfterOf(q, lines[..i], p)
  {
    var s, t := Keep(lines[p + 1..i], q.inRange), Keep(lines[i..], q.inRange);
    LaterSplit(q, lines, p, i);
    ThroughConcat(q, s, t);
    if !HasMatch(q, s) {
      ThroughAll(q, s);
    }
  }

  // Entry j as computed from the first i lines is its entry in the whole input.
  lemma EntryFixed(q: Query, lines: seq<string>, i: nat, j: nat)
    requires i <= |lines| && j < |HitIndices(q, lines[..i])|
    requires j + 1 < |HitIndices(q, lines[..i])| || Pending(q, lines[..i]) == 0
    ensures var p := HitIndices(q, lines[..i])[j]; Entry(q, lines, p) == Entry(q, lines[..i], p)
  {
    var p := HitIndices(q, lines[..i])[j];
    LaterSplit(q, lines, p, i);
    WindowClosed(q, lines, i, j);
    AfterFixed(q, lines, p, i);
    assert BeforeOf(q.k, lines[..i], p) == BeforeOf(q.k, lines, p);
  }

  // So once no window is open, the entries so far are a prefix of the final ones.
  lemma EntriesFixed(q: Query, lines: seq<string>, i: nat)
    requires i <= |lines| && Pending(q, lines[..i]) == 0
    ensures AllMatches(q, lines[..i]) <= AllMatches(q, lines)
  {
    HitsPrefix(q, lines, i);
    forall j | 0 <= j < |HitIndices(q, lines[..i])|
      ensures AllMatches(q, lines)[j] == AllMatches(q, lines[..i])[j]
    {
      EntryFixed(q, lines, i, j);
    }
  }

  // One more line for a window in which no match has been seen yet.
  lemma WindowGrow(q: Query, lines: seq<string>, p: nat, i: nat)
    requires p < i < |lines| && !HasMatch(q, Keep(lines[p + 1..i], q.inRange))
    ensures var later := LaterLines(q, lines[..i], p);
            var line := if q.inRange(lines[i]) then [lines[i]] else [];
            && LaterLines(q, lines[..i + 1], p) == later + line
            && AfterOf(q, lines[..i], p) == Take(later, q.k)
            && AfterOf(q, lines[..i + 1], p) == Take(later + line, q.k)
  {
    var s := Keep(lines[p + 1..i], q.inRange);
    var line := if q.inRange(lines[i]) then [lines[i]] else [];
    assert Keep([lines[i]], q.inRange) == line && ThroughFirstMatch(q, line) == line;
    assert lines[..i][p + 1..] == lines[p + 1..i];
    assert lines[..i + 1][p + 1..] == lines[p + 1..i] + [lines[i]];
    KeepConcat(lines[p + 1..i], [lines[i]], q.inRange);
    ThroughConcat(q, s, line);
    ThroughAll(q, s);
  }

  // One more line for the window of the last hit, whether it is still open or full.
  lemma LastWindowGrow(q: Query, lines: seq<string>, p: nat, i: nat)
    requires i < |lines| && HitIndices(q, lines[..i]) != []
    requires p == LastHit(q, lines[..i])
    ensures var later := LaterLines(q, lines[..i], p);
            var line := if q.inRange(lines[i]) then [lines[i]] else [];
            && LaterLines(q, lines[..i + 1], p) == later + line
            && AfterOf(q, lines[..i], p) == Take(later, q.k)
            && AfterOf(q, lines[..i + 1], p) == Take(later + line, q.k)
  {
    WindowClosed(q, lines, i, |HitIndices(q, lines[..i])| - 1);
    WindowGrow(q, lines, p, i);
  }

  lemma PendingGrow(q: Query, lines: seq<string>, i: nat)
    requires i < |lines|
    ensures Pending(q, lines[..i + 1]) ==
            if q.Hit(lines[i]) then Max(0, q.k)
            else if q.inRange(lines[i]) then Max(0, Pending(q, lines[..i]) - 1)
            else Pending(q, lines[..i])
  {
    HitsGrow(q, lines, i);
    if q.Hit(lines[i]) {
      assert lines[..i + 1][i + 1..] == [];
      assert LaterLines(q, lines[..i + 1], i) == [];
    } else if HitIndices(q, lines[..i]) != [] {
      LastWindowGrow(q, lines, LastHit(q, lines[..i]), i);
    }
  }

  // ms after one more in-range line has been fed to the open window.
  function Fed(ms: seq<Match>, line: string): seq<Match>
    requires ms != []
  {
    var n := |ms| - 1;
    ms[..n] + [ms[n].(after := ms[n].after + [line])]
  }

  lemma BeforeStays(k: int, lines: seq<string>, i: nat, p: nat)
    requires p <= i < |lines|
    ensures BeforeOf(k, lines[..i + 1], p) == BeforeOf(k, lines[..i], p)
  {
    var lo := Max(0, p - k);
    if k > 0 { assert lines[..i + 1][lo..p] == lines[lo..p] == lines[..i][lo..p]; }
  }

  lemma EntriesGrow(q: Query, lines: seq<string>, i: nat, j: nat)
    requires i < |lines| && j < |HitIndices(q, lines[..i])|
    ensures var p := HitIndices(q, lines[..i])[j];
            var e := Entry(q, lines[..i], p);
            Entry(q, lines[..i + 1], p) ==
              if j + 1 == |HitIndices(q, lines[..i])| && q.inRange(lines[i]) && Pending(q, lines[..i]) > 0
              then e.(after := e.after + [lines[i]]) else e
  {
    var pre, cur := lines[..i], lines[..i + 1];
    var p := HitIndices(q, pre)[j];
    assert cur[..i] == pre;
    if j + 1 == |HitIndices(q, pre)| && Pending(q, pre) > 0 {
      LastWindowGrow(q, lines, p, i);
      BeforeStays(q.k, lines, i, p);
    } else {
      EntryFixed(q, cur, i, j);
    }
  }

  // The entries so far after line i has been read.
  function Updated(q: Query, lines: seq<string>, i: nat): seq<Match>
    requires i < |lines|
  {
    var was := AllMatches(q, lines[..i]);
    if q.inRange(lines[i]) && Pending(q, lines[..i]) > 0 then Fed(was, lines[i]) else was
  }

  lemma EntryUpdated(q: Query, lines: seq<string>, i: nat, j: nat)
    requires i < |lines| && j < |HitIndices(q, lines[..i])|
    ensures Entry(q, lines[..i + 1], HitIndices(q, lines[..i])[j]) == Updated(q, lines, i)[j]
  {
    EntriesGrow(q, lines, i, j);
  }

  // Reading one more line only touches the last entry's after-context, and only while
  // its window is open; a hit adds a new entry at the end.
  lemma MatchesGrow(q: Query, lines: seq<string>, i: nat)
    requires i < |lines|
    ensures AllMatches(q, lines[..i + 1]) ==
              Updated(q, lines, i) +
              if q.Hit(lines[i]) then [Match(i + 1, lines[i], BeforeOf(q.k, lines[..i], i), [])] else []
  {
    var cur, ps := lines[..i + 1], HitIndices(q, lines[..i]);
    var updated, now := Updated(q, lines, i), AllMatches(q, cur);
    HitsGrow(q, lines, i);
    forall j | 0 <= j < |ps|
      ensures now[j] == updated[j]
    {
      EntryUpdated(q, lines, i, j);
    }
    assert now[..|ps|] == updated;
    if q.Hit(lines[i]) {
      NewEntry(q, lines, i);
      assert now == now[..|ps|] + [now[|ps|]];
    }
  }

  lemma NewEntry(q: Query, lines: seq<string>, i: nat)
    requires i < |lines| && q.Hit(lines[i])
    ensures Entry(q, lines[..i + 1], i) == Match(i + 1, lines[i], BeforeOf(q.k, lines[..i], i), [])
  {
    var cur := lines[..i + 1];
    assert cur[i + 1..] == [] && LaterLines(q, cur, i) == [];
    assert AfterOf(q, cur, i) == [];
    assert BeforeOf(q.k, lines[..i], i) == BeforeOf(q.k, cur, i);
  }

  lemma BeforeGrow(k: int, lines: seq<string>, i: nat)
    requires i < |lines| && k > 0
    ensures var d := BeforeOf(k, lines[..i], i);
            BeforeOf(k, lines[..i + 1], i + 1) == (if |d| >= k then d[1..] else d) + [lines[i]]
  {
    var lo, hi := Max(0, i - k), Max(0, i + 1 - k);
    assert lines[..i][lo..i] == lines[lo..i];
    assert lines[..i + 1][hi..i + 1] == lines[hi..i] + [lines[i]];
    if i >= k {
      assert lines[lo..i][1..] == lines[hi..i];
    } else {
      assert lo == hi && |lines[lo..i]| < k;
    }
  }

  // ---- where the scan stops

  lemma GapFixed(q: Query, lines: seq<string>, i: nat, c: int)
    requires i <= |lines| && 0 < c < |HitIndices(q, lines[..i])|
    ensures HitIndices(q, lines[..i]) <= HitIndices(q, lines)
    ensures Gap(q, lines, c) == Gap(q, lines[..i], c)
  {
    HitsPrefix(q, lines, i);
    var ps := HitIndices(q, lines[..i]);
    assert lines[..i][ps[c - 1] + 1..ps[c] + 1] == lines[ps[c - 1] + 1..ps[c] + 1];
  }

  lemma NextHit(q: Query, lines: seq<string>, i: nat)
    requires i <= |lines| && HitIndices(q, lines[..i]) != []
    requires |HitIndices(q, lines[..i])| < |HitIndices(q, lines)|
    ensures var c := |HitIndices(q, lines[..i])|;
            HitIndices(q, lines)[c - 1] == LastHit(q, lines[..i]) && HitIndices(q, lines)[c] >= i
  {
    HitsPrefix(q, lines, i);
    var next := HitIndices(q, lines)[|HitIndices(q, lines[..i])|];
    if next < i {
      assert lines[..i][next] == lines[next];
      HitsComplete(q, lines[..i], next);
      assert false;
    }
  }

  lemma KeepSpan(keep: string -> bool, lines: seq<string>, p: nat, i: nat, next: nat)
    requires p < i <= next < |lines| && keep(lines[next])
    ensures |Keep(lines[p + 1..next + 1], keep)| == |Keep(lines[p + 1..i], keep)| + |Keep(lines[i..next], keep)| + 1
  {
    assert lines[p + 1..next + 1] == lines[p + 1..i] + (lines[i..next] + [lines[next]]);
    KeepConcat(lines[p + 1..i], lines[i..next] + [lines[next]], keep);
    KeepConcat(lines[i..next], [lines[next]], keep);
  }

  // The gap that ends at the first hit from line i on.
  lemma GapNext(q: Query, lines: seq<string>, i: nat)
    requires i <= |lines| && HitIndices(q, lines[..i]) != []
    requires |HitIndices(q, lines[..i])| < |HitIndices(q, lines)|
    ensures var c := |HitIndices(q, lines[..i])|;
            var next := HitIndices(q, lines)[c];
            && HitIndices(q, lines)[c - 1] == LastHit(q, lines[..i]) && next >= i
            && Gap(q, lines, c) ==
               |LaterLines(q, lines[..i], LastHit(q, lines[..i]))| + |Keep(lines[i..next], q.inRange)| + 1
  {
    NextHit(q, lines, i);
    var c, p := |HitIndices(q, lines[..i])|, LastHit(q, lines[..i]);
    assert lines[..i][p + 1..] == lines[p + 1..i];
    KeepSpan(q.inRange, lines, p, i, HitIndices(q, lines)[c]);
  }

  lemma KeepsLast(s: seq<string>, f: string -> bool)
    requires s != [] && f(s[|s| - 1])
    ensures Keep(s, f) != []
  {
    KeepStep(s, |s| - 1, f);
    assert s[..|s|] == s;
  }

  lemma GapPositive(q: Query, lines: seq<string>, c: int)
    requires 0 < c < |HitIndices(q, lines)|
    ensures Gap(q, lines, c) > 0
  {
    var ps := HitIndices(q, lines);
    KeepsLast(lines[ps[c - 1] + 1..ps[c] + 1], q.inRange);
  }

  // The scan has read these lines and has not stopped.
  predicate Running(q: Query, lines: seq<string>, limit: int)
    requires limit > 0
  {
    var total := |HitIndices(q, lines)|;
    StopFrom(q, lines, limit) == total && (total >= limit ==> Pending(q, lines) > 0)
  }

  // A scan that went through the whole prefix goes at least as far on the whole input.
  lemma StopNotBefore(q: Query, lines: seq<string>, i: nat, limit: int)
    requires i <= |lines| && limit > 0 && StopFrom(q, lines[..i], limit) == |HitIndices(q, lines[..i])|
    ensures |HitIndices(q, lines[..i])| <= StopFrom(q, lines, limit)
  {
    HitsPrefix(q, lines, i);
    var r := StopFrom(q, lines, limit);
    if r < |HitIndices(q, lines[..i])| {
      GapFixed(q, lines, i, r);
      assert false;
    }
  }

  // A hit on the line just read lies within the window that was open.
  lemma OpenGap(q: Query, lines: seq<string>, i: nat)
    requires |lines| == i + 1 && q.Hit(lines[i]) && HitIndices(q, lines[..i]) != [] && Pending(q, lines[..i]) > 0
    ensures var c := |HitIndices(q, lines[..i])|;
            c < |HitIndices(q, lines)| && Gap(q, lines, c) <= q.k
  {
    HitsGrow(q, lines, i);
    assert lines[..i + 1] == lines;
    GapNext(q, lines, i);
    var next := HitIndices(q, lines)[|HitIndices(q, lines[..i])|];
    assert next == i && lines[i..next] == [];
  }

  lemma StopStep(q: Query, lines: seq<string>, i: nat, limit: int)
    requires i < |lines| && limit > 0 && Running(q, lines[..i], limit)
    ensures StopFrom(q, lines[..i + 1], limit) == |HitIndices(q, lines[..i + 1])|
  {
    var cur := lines[..i + 1];
    assert cur[..i] == lines[..i];
    HitsGrow(q, lines, i);
    StopNotBefore(q, cur, i, limit);
    if StopFrom(q, cur, limit) < |HitIndices(q, cur)| {
      StopsAtGap(q, cur, limit, |HitIndices(q, lines[..i])|);
      OpenGap(q, cur, i);
      assert false;
    }
  }

  lemma StopsAtGap(q: Query, lines: seq<string>, limit: int, c: nat)
    requires limit > 0 && c == StopFrom(q, lines, limit) < |HitIndices(q, lines)|
    ensures 0 < limit <= c && Gap(q, lines, c) > q.k
  {
  }

  lemma StopNotAfter(q: Query, lines: seq<string>, i: nat, limit: int)
    requires i <= |lines| && limit > 0 && Pending(q, lines[..i]) == 0
    requires |HitIndices(q, lines[..i])| >= limit
    ensures StopFrom(q, lines, limit) <= |HitIndices(q, lines[..i])|
  {
    if |HitIndices(q, lines[..i])| < StopFrom(q, lines, limit) {
      GapNext(q, lines, i);
      assert false;
    }
  }

  lemma WindowStaysFull(q: Query, lines: seq<string>, i: nat)
    requires i <= |lines| && HitIndices(q, lines[..i]) != [] && Pending(q, lines[..i]) == 0
    ensures |HitIndices(q, lines[..i])| <= |HitIndices(q, lines)|
    ensures WindowFull(q, lines, HitIndices(q, lines)[|HitIndices(q, lines[..i])| - 1])
  {
    HitsPrefix(q, lines, i);
    LaterSplit(q, lines, LastHit(q, lines[..i]), i);
  }

  lemma StopIsFinal(q: Query, lines: seq<string>, i: nat, limit: int)
    requires i <= |lines| && limit > 0 && Pending(q, lines[..i]) == 0
    requires StopFrom(q, lines[..i], limit) == |HitIndices(q, lines[..i])| >= limit
    ensures StopFrom(q, lines, limit) == |HitIndices(q, lines[..i])|
  {
    StopNotBefore(q, lines, i, limit);
    StopNotAfter(q, lines, i, limit);
  }

  // The entries a search with this limit reports.
  function Reported(q: Query, lines: seq<string>, limit: int): seq<Match>
    requires limit > 0
  {
    AllMatches(q, lines)[..StopFrom(q, lines, limit)]
  }

  lemma EarlyAt(q: Query, lines: seq<string>, limit: int, c: nat)
    requires 0 < limit <= c == StopFrom(q, lines, limit) && WindowFull(q, lines, HitIndices(q, lines)[c - 1])
    ensures StopsEarly(q, lines, limit)
  {
  }

  lemma ReportedIsPrefix(q: Query, lines: seq<string>, limit: int, ms: seq<Match>)
    requires limit > 0 && ms <= AllMatches(q, lines) && StopFrom(q, lines, limit) == |ms|
    ensures Reported(q, lines, limit) == ms
  {
  }

  lemma StopsOnInput(q: Query, lines: seq<string>, i: nat, limit: int)
    requires i <= |lines| && limit > 0 && Pending(q, lines[..i]) == 0
    requires StopFrom(q, lines, limit) == |HitIndices(q, lines[..i])| >= limit
    ensures StopsEarly(q, lines, limit)
  {
    WindowStaysFull(q, lines, i);
    EarlyAt(q, lines, limit, |HitIndices(q, lines[..i])|);
  }

  // Stopping with no window open loses nothing: the whole input stops at the same hit.
  lemma NothingIsLost(q: Query, lines: seq<string>, i: nat, limit: int)
    requires i <= |lines| && limit > 0 && Pending(q, lines[..i]) == 0
    requires StopFrom(q, lines[..i], limit) == |HitIndices(q, lines[..i])| >= limit
    ensures StopsEarly(q, lines, limit) && Reported(q, lines, limit) == AllMatches(q, lines[..i])
  {
    StopIsFinal(q, lines, i, limit);
    StopsOnInput(q, lines, i, limit);
    EntriesFixed(q, lines, i);
    ReportedIsPrefix(q, lines, limit, AllMatches(q, lines[..i]));
  }

  // ---- the search

  function RangeOf(lineFilter: Option<string -> bool>): string -> bool {
    (line: string) => lineFilter.None? || lineFilter.value(line)
  }

  // The loop variables of the scan; stopped says that it broke off before the end of the input.
  datatype ScanState = ScanState(results: seq<Match>, beforeDeque: seq<string>, lineNum: nat,
                                 afterPending: nat, stopped: bool)

  function Rolled(k: int, deque: seq<string>, line: string): seq<string> {
    if k <= 0 then deque else (if |deque| >= k then deque[1..] else deque) + [line]
  }

  // Gives an in-range line to the open after-window, if there is one.
  function FeedLine(st: ScanState, line: string): ScanState
    requires st.afterPending > 0 ==> st.results != []
  {
    if st.afterPending == 0 then st
    else st.(results := Fed(st.results, line), afterPending := st.afterPending - 1)
  }

  // Records a match and opens its after-window.
  function NoteMatch(q: Query, st: ScanState, line: string): ScanState {
    if !q.matches(line) then st
    else st.(results := st.results + [Match(st.lineNum, line, if q.k > 0 then st.beforeDeque else [], [])],
             afterPending := Max(q.k, st.afterPending))
  }

  function ScanLine(q: Query, limit: int, st: ScanState, line: string): ScanState
    requires st.afterPending > 0 ==> st.results != []
  {
    var rolled := Rolled(q.k, st.beforeDeque, line);
    var st' := st.(lineNum := st.lineNum + 1);
    if !q.inRange(line) then st'.(beforeDeque := rolled) else
    var noted := NoteMatch(q, FeedLine(st', line), line);
    noted.(beforeDeque := rolled, stopped := |noted.results| >= limit && noted.afterPending == 0)
  }

  function Scan(q: Query, limit: int, lines: seq<string>): (st: ScanState)
    ensures st.afterPending > 0 ==> st.results != []
  {
    if lines == [] then ScanState([], [], 0, 0, false) else
    var st := Scan(q, limit, lines[..|lines| - 1]);
    if st.stopped then st else ScanLine(q, limit, st, lines[|lines| - 1])
  }

  lemma {:induction false} ScanStopped(q: Query, limit: int, lines: seq<string>, i: nat)
    requires i <= |lines| && Scan(q, limit, lines[..i]).stopped
    ensures Scan(q, limit, lines) == Scan(q, limit, lines[..i])
    decreases |lines| - i
  {
    if i < |lines| {
      assert lines[..i + 1][..i] == lines[..i];
      ScanStopped(q, limit, lines, i + 1);
    } else {
      assert lines[..i] == lines;
    }
  }

  // While the scan is running its variables are the specification's values for the lines read.
  ghost predicate Tracks(q: Query, limit: int, lines: seq<string>, st: ScanState)
    requires limit > 0
  {
    && st.results == AllMatches(q, lines)
    && st.beforeDeque == BeforeOf(q.k, lines, |lines|)
    && st.lineNum == |lines|
    && st.afterPending == Pending(q, lines)
    && StopFrom(q, lines, limit) == |st.results|
    && (st.stopped <==> |st.results| >= limit && st.afterPending == 0)
  }

  lemma ResultsStep(q: Query, limit: int, lines: seq<string>, i: nat, st: ScanState)
    requires i < |lines| && st.results == AllMatches(q, lines[..i]) && st.lineNum == i
    requires st.afterPending == Pending(q, lines[..i]) && (st.afterPending > 0 ==> st.results != [])
    requires st.beforeDeque == BeforeOf(q.k, lines[..i], i)
    ensures ScanLine(q, limit, st, lines[i]).results == AllMatches(q, lines[..i + 1])
  {
    MatchesGrow(q, lines, i);
  }

  lemma PendingStep(q: Query, limit: int, lines: seq<string>, i: nat, st: ScanState)
    requires i < |lines|
    requires st.afterPending == Pending(q, lines[..i]) && (st.afterPending > 0 ==> st.results != [])
    ensures ScanLine(q, limit, st, lines[i]).afterPending == Pending(q, lines[..i + 1])
  {
    PendingGrow(q, lines, i);
  }

  lemma BeforeStep(q: Query, limit: int, lines: seq<string>, i: nat, st: ScanState)
    requires i < |lines| && (st.afterPending > 0 ==> st.results != [])
    requires st.beforeDeque == BeforeOf(q.k, lines[..i], i)
    ensures ScanLine(q, limit, st, lines[i]).beforeDeque == BeforeOf(q.k, lines[..i + 1], i + 1)
  {
    if q.k > 0 { BeforeGrow(q.k, lines, i); }
  }

  lemma StateStep(q: Query, limit: int, lines: seq<string>, i: nat, st: ScanState)
    requires i < |lines| && limit > 0 && (st.afterPending > 0 ==> st.results != [])
    requires Tracks(q, limit, lines[..i], st) && !st.stopped
    ensures var st' := ScanLine(q, limit, st, lines[i]);
            && st'.results == AllMatches(q, lines[..i + 1])
            && st'.beforeDeque == BeforeOf(q.k, lines[..i + 1], i + 1)
            && st'.afterPending == Pending(q, lines[..i + 1])
  {
    ResultsStep(q, limit, lines, i, st);
    PendingStep(q, limit, lines, i, st);
    BeforeStep(q, limit, lines, i, st);
  }

  lemma StoppedStep(q: Query, limit: int, st: ScanState, line: string)
    requires !st.stopped && (st.afterPending > 0 ==> st.results != [])
    requires !(|st.results| >= limit && st.afterPending == 0)
    ensures var st' := ScanLine(q, limit, st, line);
            st'.lineNum == st.lineNum + 1 && (st'.stopped <==> |st'.results| >= limit && st'.afterPending == 0)
  {
  }

  lemma TracksStep(q: Query, limit: int, lines: seq<string>, i: nat, st: ScanState)
    requires i < |lines| && limit > 0 && (st.afterPending > 0 ==> st.results != [])
    requires Tracks(q, limit, lines[..i], st) && !st.stopped
    ensures Tracks(q, limit, lines[..i + 1], ScanLine(q, limit, st, lines[i]))
  {
    StateStep(q, limit, lines, i, st);
    StopStep(q, lines, i, limit);
    StoppedStep(q, limit, st, lines[i]);
  }

  lemma {:induction false} ScanTracks(q: Query, limit: int, lines: seq<string>, i: nat)
    requires i <= |lines| && limit > 0
    requires i > 0 ==> !Scan(q, limit, lines[..i - 1]).stopped
    ensures Tracks(q, limit, lines[..i], Scan(q, limit, lines[..i]))
  {
    if i > 0 {
      assert lines[..i][..i - 1] == lines[..i - 1];
      if i > 1 {
        assert lines[..i - 1][..i - 2] == lines[..i - 2];
      }
      ScanTracks(q, limit, lines, i - 1);
      TracksStep(q, limit, lines, i - 1, Scan(q, limit, lines[..i - 1]));
    }
  }

  function StopFlags(q: Query, limit: int, lines: seq<string>): (flags: seq<bool>)
    ensures |flags| == |lines| + 1
  {
    seq(|lines| + 1, i requires 0 <= i <= |lines| => Scan(q, limit, lines[..i]).stopped)
  }

  lemma {:induction false} FirstTrue(flags: seq<bool>) returns (i: nat)
    ensures i <= |flags| && (forall j :: 0 <= j < i ==> !flags[j]) && (i < |flags| ==> flags[i])
  {
    i := 0;
    if flags != [] && !flags[0] {
      i := FirstTrue(flags[1..]);
      i := i + 1;
    }
  }

  // The number of lines read: the whole input, or up to the line on which the scan stopped.
  lemma ScanPrefix(q: Query, limit: int, lines: seq<string>) returns (i: nat)
    ensures i <= |lines| && Scan(q, limit, lines) == Scan(q, limit, lines[..i])
    ensures i > 0 ==> !Scan(q, limit, lines[..i - 1]).stopped
    ensures i == |lines| || Scan(q, limit, lines[..i]).stopped
  {
    var flags := StopFlags(q, limit, lines);
    i := FirstTrue(flags);
    if i <= |lines| {
      assert flags[i];
      ScanStopped(q, limit, lines, i);
      assert i > 0 ==> !flags[i - 1];
    } else {
      i := |lines|;
      assert lines[..i] == lines && (i > 0 ==> !flags[i - 1]);
    }
  }

  lemma StoppedAt(q: Query, limit: int, lines: seq<string>, i: nat, st: ScanState)
    requires i <= |lines| && limit > 0 && Tracks(q, limit, lines[..i], st) && st.stopped
    ensures st.results == Reported(q, lines, limit) && StopsEarly(q, lines, limit)
  {
    NothingIsLost(q, lines, i, limit);
  }

  lemma ReadToEnd(q: Query, limit: int, lines: seq<string>, st: ScanState)
    requires limit > 0 && Tracks(q, limit, lines, st) && !st.stopped
    ensures st.results == Reported(q, lines, limit) && !StopsEarly(q, lines, limit)
  {
  }

  // What one pass with early stopping returns, in terms of the whole input.
  lemma ScanCorrect(q: Query, limit: int, lines: seq<string>)
    requires limit > 0
    ensures Scan(q, limit, lines).results == Reported(q, lines, limit)
    ensures Scan(q, limit, lines).stopped == StopsEarly(q, lines, limit)
  {
    var i := ScanPrefix(q, limit, lines);
    var st := Scan(q, limit, lines[..i]);
    ScanTracks(q, limit, lines, i);
    if st.stopped {
      StoppedAt(q, limit, lines, i, st);
    } else {
      assert lines[..i] == lines;
      ReadToEnd(q, limit, lines, st);
    }
  }

  lemma ScanNext(q: Query, limit: int, lines: seq<string>, n: nat)
    requires n < |lines| && !Scan(q, limit, lines[..n]).stopped
    ensures Scan(q, limit, lines[..n + 1]) == ScanLine(q, limit, Scan(q, limit, lines[..n]), lines[n])
  {
    assert lines[..n + 1][..n] == lines[..n];
  }

  lemma ScanEnds(q: Query, limit: int, lines: seq<string>, n: nat)
    requires n <= |lines| && (n == |lines| || Scan(q, limit, lines[..n]).stopped)
    ensures Scan(q, limit, lines[..n]) == Scan(q, limit, lines)
  {
    if n == |lines| {
      assert lines[..n] == lines;
    } else {
      ScanStopped(q, limit, lines, n);
    }
  }

  // The loop body of CollectMatches.
  method ReadLine(line: string, matches: string -> bool, k: int, maxResults: int, lineFilter: Option<string -> bool>,
                  st: ScanState)
    returns (results: seq<Match>, beforeDeque: seq<string>, afterPending: nat, stopped: bool)
    requires !st.stopped && (st.afterPending > 0 ==> st.results != [])
    ensures ScanState(results, beforeDeque, st.lineNum + 1, afterPending, stopped) ==
            ScanLine(Query(RangeOf(lineFilter), matches, k), maxResults, st, line)
  {
    results, beforeDeque, afterPending, stopped := st.results, st.beforeDeque, st.afterPending, false;
    var lineNum := st.lineNum + 1;
    if lineFilter.Some? && !lineFilter.value(line) {
      if k > 0 {
        if |beforeDeque| >= k {
          beforeDeque := beforeDeque[1..];
        }
        beforeDeque := beforeDeque + [line];
      }
      return;
    }

    if afterPending > 0 {
      var last := |results| - 1;
      results := results[..last] + [results[last].(after := results[last].after + [line])];
      afterPending := afterPending - 1;
    }

    if matches(line) {
      results := results + [Match(lineNum, line, if k > 0 then beforeDeque else [], [])];
      if k > 0 {
        if afterPending < k {
          afterPending := k;
        }
      }
    }

    if k > 0 {
      if |beforeDeque| >= k {
        beforeDeque := beforeDeque[1..];
      }
      beforeDeque := beforeDeque + [line];
    }

    if |results| >= maxResults && afterPending == 0 {
      stopped := true;
    }
  }

  // The loop of CollectMatches. stopped says that it broke off before the scanner was exhausted.
  method ScanLines(lines: seq<string>, matches: string -> bool, k: int, maxResults: int,
                   lineFilter: Option<string -> bool>)
    returns (results: seq<Match>, stopped: bool)
    ensures var st := Scan(Query(RangeOf(lineFilter), matches, k), maxResults, lines);
            results == st.results && stopped == st.stopped
  {
    ghost var q := Query(RangeOf(lineFilter), matches, k);
    var beforeDeque: seq<string> := [];
    results := [];
    var lineNum, afterPending: nat := 0, 0;
    stopped := false;

    while lineNum < |lines| && !stopped
      invariant 0 <= lineNum <= |lines|
      invariant Scan(q, maxResults, lines[..lineNum]) ==
                ScanState(results, beforeDeque, lineNum, afterPending, stopped)
      decreases |lines| - lineNum
    {
      ScanNext(q, maxResults, lines, lineNum);
      results, beforeDeque, afterPending, stopped :=
        ReadLine(lines[lineNum], matches, k, maxResults, lineFilter,
                 ScanState(results, beforeDeque, lineNum, afterPending, stopped));
      lineNum := lineNum + 1;
    }
    ScanEnds(q, maxResults, lines, lineNum);
  }

  method CollectMatches(lines: seq<string>, matches: string -> bool, opts: SearchOptions,
                        lineFilter: Option<string -> bool>)
    returns (results: seq<Match>, stopped: bool)
    ensures var q, limit := Query(RangeOf(lineFilter), matches, opts.contextLines), ResultLimit(opts.maxResults);
            results == Reported(q, lines, limit) && stopped == StopsEarly(q, lines, limit)
  {
    var maxResults := opts.maxResults;
    if maxResults <= 0 {
      maxResults := DEFAULT_RESULTS;
    }
    results, stopped := ScanLines(lines, matches, opts.contextLines, maxResults, lineFilter);
    ScanCorrect(Query(RangeOf(lineFilter), matches, opts.contextLines), maxResults, lines);
  }

  // No filter at all when neither bound is set.
  function FileFilter(parse: string -> Option<int>, opts: SearchOptions): Option<string -> bool> {
    if opts.since.Some? || opts.until.Some? then Some(LogReader.TimeFilter(parse, opts.since, opts.until)) else None
  }

  // ---- what a search finds, in terms of the lines in time

  // m reports line p as it stands, with the k raw lines before it, and after it the lines in time that follow
  // line p, up to k of them and no further than the next one that matches.
  ghost predicate Reports(lines: seq<string>, at: seq<nat>, matches: string -> bool, k: int, m: Match) {
    && 0 < m.lineNumber <= |lines| && m.line == lines[m.lineNumber - 1] && matches(m.line)
    && m.before == lines[Max(0, m.lineNumber - 1 - Max(0, k))..m.lineNumber - 1]
    && exists c :: 0 <= c < |at| && at[c] == m.lineNumber - 1 && IsAfter(lines, at, matches, k, c, m.after)
  }

  ghost predicate IsAfter(lines: seq<string>, at: seq<nat>, matches: string -> bool, k: int, c: nat,
                          after: seq<string>)
  {
    && |after| <= Max(0, k) && c + 1 + |after| <= |at| && Within(at, |lines|)
    && after == Picked(lines, at[c + 1..c + 1 + |after|])
    && (forall i :: 0 <= i < |after| - 1 ==> !matches(after[i]))
    && (|after| == Max(0, k) || c + 1 + |after| == |at| || (after != [] && matches(after[|after| - 1])))
  }

  // The entries report matching lines in time, in the order of the file; one that is not reported lies
  // behind all that are, and then there are at least limit of these.
  ghost predicate IsFound(lines: seq<string>, at: seq<nat>, matches: string -> bool, k: int, limit: int,
                          ms: seq<Match>)
  {
    && (forall i :: 0 <= i < |ms| ==> Reports(lines, at, matches, k, ms[i]))
    && (forall i, j :: 0 <= i < j < |ms| ==> ms[i].lineNumber < ms[j].lineNumber)
    && forall j :: j in at && j < |lines| && matches(lines[j]) ==> ReportedOrBehind(ms, limit, j)
  }

  ghost predicate ReportedOrBehind(ms: seq<Match>, limit: int, j: nat) {
    (exists i :: 0 <= i < |ms| && ms[i].lineNumber == j + 1) ||
    (|ms| >= limit && forall i :: 0 <= i < |ms| ==> ms[i].lineNumber <= j)
  }

  // The lines in time after a hit.
  lemma LaterPicked(q: Query, lines: seq<string>, at: seq<nat>, p: nat) returns (c: nat)
    requires Selects(lines, at, q.inRange) && p < |lines| && q.inRange(lines[p])
    ensures c < |at| && at[c] == p && Within(at[c + 1..], |lines|)
    ensures LaterLines(q, lines, p) == Picked(lines, at[c + 1..])
  {
    assert p in at;
    c :| 0 <= c < |at| && at[c] == p;
    SelectsRest(lines, at, q.inRange, c);
  }

  lemma AfterPicked(q: Query, lines: seq<string>, at: seq<nat>, p: nat) returns (c: nat)
    requires Selects(lines, at, q.inRange) && p < |lines| && q.inRange(lines[p])
    ensures c < |at| && at[c] == p && IsAfter(lines, at, q.matches, q.k, c, AfterOf(q, lines, p))
  {
    c := LaterPicked(q, lines, at, p);
    AfterContext(q, lines, p);
    var n := |AfterOf(q, lines, p)|;
    PickedSlice(lines, at[c + 1..], 0, n);
    assert at[c + 1..][0..n] == at[c + 1..c + 1 + n];
  }

  lemma HitReported(q: Query, lines: seq<string>, at: seq<nat>, p: nat)
    requires Selects(lines, at, q.inRange) && p < |lines| && q.Hit(lines[p])
    ensures Reports(lines, at, q.matches, q.k, Entry(q, lines, p))
  {
    var c := AfterPicked(q, lines, at, p);
  }

  lemma HitReportedOrBehind(q: Query, lines: seq<string>, limit: int, j: nat)
    requires limit > 0 && j < |lines| && q.Hit(lines[j])
    ensures ReportedOrBehind(Reported(q, lines, limit), limit, j)
  {
    var ps, ms := HitIndices(q, lines), Reported(q, lines, limit);
    HitsComplete(q, lines, j);
    var i :| 0 <= i < |ps| && ps[i] == j;
    if i < |ms| {
      assert ms[i].lineNumber == j + 1;
    } else {
      forall l | 0 <= l < |ms|
        ensures ms[l].lineNumber <= j
      {
        assert ms[l].lineNumber == ps[l] + 1 && ps[l] < ps[i];
      }
    }
  }

  lemma ReportedAreHits(q: Query, lines: seq<string>, limit: int, at: seq<nat>, i: nat)
    requires limit > 0 && Selects(lines, at, q.inRange) && i < |Reported(q, lines, limit)|
    ensures Reports(lines, at, q.matches, q.k, Reported(q, lines, limit)[i])
  {
    HitReported(q, lines, at, HitIndices(q, lines)[i]);
  }

  lemma ReportedAscend(q: Query, lines: seq<string>, limit: int, i: nat, j: nat)
    requires limit > 0 && i < j < |Reported(q, lines, limit)|
    ensures Reported(q, lines, limit)[i].lineNumber < Reported(q, lines, limit)[j].lineNumber
  {
  }

  lemma ReportedIsFound(q: Query, lines: seq<string>, limit: int, at: seq<nat>)
    requires limit > 0 && Selects(lines, at, q.inRange)
    ensures IsFound(lines, at, q.matches, q.k, limit, Reported(q, lines, limit))
  {
    var ms := Reported(q, lines, limit);
    forall i | 0 <= i < |ms|
      ensures Reports(lines, at, q.matches, q.k, ms[i])
    {
      ReportedAreHits(q, lines, limit, at, i);
    }
    forall i, j | 0 <= i < j < |ms|
      ensures ms[i].lineNumber < ms[j].lineNumber
    {
      ReportedAscend(q, lines, limit, i, j);
    }
    forall j | j in at && j < |lines| && q.matches(lines[j])
      ensures ReportedOrBehind(ms, limit, j)
    {
      HitReportedOrBehind(q, lines, limit, j);
    }
  }

  lemma SearchIsFound(q: Query, lines: seq<string>, limit: int, parse: string -> Option<int>, opts: SearchOptions)
    returns (at: seq<nat>)
    requires limit > 0 && q.inRange == RangeOf(FileFilter(parse, opts))
    ensures LogReader.InTime(lines, parse, opts.since, opts.until, at)
    ensures IsFound(lines, at, q.matches, q.k, limit, Reported(q, lines, limit))
  {
    at := LogReader.FilteredInTime(lines, parse, opts.since, opts.until);
    forall line: string
      ensures q.inRange(line) == LogReader.TimeFilter(parse, opts.since, opts.until)(line)
    {
      LogReader.InTimeIsFilter(line, parse, opts.since, opts.until);
    }
    ReportedIsFound(q, lines, limit, at);
  }

  // compile stands for the regular expression compiler, file for what could be opened.
  method SearchFile(file: Option<LogReader.Source>, compile: string -> Option<string -> bool>,
                    parse: string -> Option<int>, opts: SearchOptions)
    returns (r: Result<seq<Match>>)
    ensures opts.pattern == "" || compile(opts.pattern).None? || file.None? ==> r.Err?
    ensures opts.pattern != "" && compile(opts.pattern).Some? && file.Some? ==>
              var q := Query(RangeOf(FileFilter(parse, opts)), compile(opts.pattern).value, opts.contextLines);
              var lines, limit := file.value.lines, ResultLimit(opts.maxResults);
              if file.value.fails && !StopsEarly(q, lines, limit) then r.Err? else r == Ok(Reported(q, lines, limit))
    ensures r.Ok? ==>
              file.Some? && compile(opts.pattern).Some? &&
              exists at :: LogReader.InTime(file.value.lines, parse, opts.since, opts.until, at) &&
                           IsFound(file.value.lines, at, compile(opts.pattern).value, opts.contextLines,
                                   if opts.maxResults <= 0 then 200 else opts.maxResults, r.value)
  {
    if opts.pattern == "" {
      return Err("search pattern must not be empty");
    }
    var re := compile(opts.pattern);
    if re.None? {
      return Err("invalid pattern");
    }
    if file.None? {
      return Err("opening");
    }
    var lineFilter := None;
    if opts.since.Some? || opts.until.Some? {
      lineFilter := Some(LogReader.TimeFilter(parse, opts.since, opts.until));
    }
    var results, stopped := CollectMatches(file.value.lines, re.value, opts, lineFilter);
    if file.value.fails && !stopped {
      return Err("reading");
    }
    ghost var q := Query(RangeOf(FileFilter(parse, opts)), re.value, opts.contextLines);
    ghost var at := SearchIsFound(q, file.value.lines, ResultLimit(opts.maxResults), parse, opts);
    r := Ok(results);
  }

  // ---- what the early stop means for a caller

  // A larger limit only appends entries: those of the smaller limit come back unchanged, contexts included.
  lemma LimitsNest(q: Query, lines: seq<string>, m: int, m': int)
    requires 0 < m <= m'
    ensures Reported(q, lines, m) <= Reported(q, lines, m')
  {
    var r, r' := StopFrom(q, lines, m), StopFrom(q, lines, m');
    assert Reported(q, lines, m) == Reported(q, lines, m')[..r];
  }

  // Without context the answer is the first m matches, and never more.
  lemma WithoutContext(q: Query, lines: seq<string>, m: int)
    requires 0 < m && q.k <= 0
    ensures Reported(q, lines, m) == AllMatches(q, lines)[..Min(m, |AllMatches(q, lines)|)]
  {
    var r := StopFrom(q, lines, m);
    if m < r {
      GapPositive(q, lines, m);
    }
  }

  // With context more than m entries can come back: exactly those extra ones that each lie at
  // most k in-range lines after the hit before them, up to the first that does not.
  lemma ExtraMatches(q: Query, lines: seq<string>, m: int, r: nat)
    requires m > 0 && r <= |AllMatches(q, lines)|
    ensures r == |Reported(q, lines, m)| <==>
              && Min(m, |AllMatches(q, lines)|) <= r
              && (forall c :: m <= c < r ==> Gap(q, lines, c) <= q.k)
              && (m <= r < |AllMatches(q, lines)| ==> Gap(q, lines, r) > q.k)
  {
    var stop := StopFrom(q, lines, m);
    assert |Reported(q, lines, m)| == stop;
    if m <= stop < r {
      assert Gap(q, lines, stop) > q.k;
    }
  }

  lemma {:induction false} DenseHits(q: Query, lines: seq<string>)
    requires forall i :: 0 <= i < |lines| ==> q.Hit(lines[i])
    ensures |HitIndices(q, lines)| == |lines| && forall i :: 0 <= i < |lines| ==> HitIndices(q, lines)[i] == i
  {
    if lines != [] { DenseHits(q, lines[..|lines| - 1]); }
  }

  // When every line is a hit and any context is asked for, all lines come back, however small the limit.
  lemma DenseHitsIgnoreTheLimit(q: Query, lines: seq<string>, m: int)
    requires m > 0 && q.k >= 1 && forall i :: 0 <= i < |lines| ==> q.Hit(lines[i])
    ensures |Reported(q, lines, m)| == |lines|
  {
    DenseHits(q, lines);
    forall c | m <= c < |lines|
      ensures Gap(q, lines, c) <= q.k
    {
      var ps := HitIndices(q, lines);
      assert lines[ps[c - 1] + 1..ps[c] + 1] == [lines[c]];
    }
    ExtraMatches(q, lines, m, |lines|);
  }

  // Every entry is a hit, and every hit has its entry.
  lemma EntriesAreHits(q: Query, lines: seq<string>, p: nat)
    requires p < |lines|
    ensures q.Hit(lines[p]) <==> Entry(q, lines, p) in AllMatches(q, lines)
  {
    var ps := HitIndices(q, lines);
    if q.Hit(lines[p]) {
      HitsComplete(q, lines, p);
      var j :| 0 <= j < |ps| && ps[j] == p;
      assert AllMatches(q, lines)[j] == Entry(q, lines, p);
    }
    if j :| 0 <= j < |ps| && AllMatches(q, lines)[j] == Entry(q, lines, p) {
      assert ps[j] == p;
    }
  }

  // The after-context consists of in-range lines that follow, at most k of them, of which only
  // the last can match; it is cut short only by a match or by the end of the input.
  lemma {:induction false} ThroughFirstMatchIsCut(q: Query, s: seq<string>)
    ensures var r := ThroughFirstMatch(q, s);
            && r <= s && (forall i :: 0 <= i < |r| - 1 ==> !q.matches(r[i]))
            && (r == s || (r != [] && q.matches(r[|r| - 1])))
  {
    if s != [] && !q.matches(s[0]) {
      ThroughFirstMatchIsCut(q, s[1..]);
      assert ThroughFirstMatch(q, s)[1..] == ThroughFirstMatch(q, s[1..]);
    }
  }

  lemma AfterContext(q: Query, lines: seq<string>, p: nat)
    requires p < |lines|
    ensures var later, after := LaterLines(q, lines, p), AfterOf(q, lines, p);
            && after <= later && |after| <= Max(0, q.k)
            && (forall i :: 0 <= i < |after| - 1 ==> !q.matches(after[i]))
            && (after == later || |after| == Max(0, q.k) || (after != [] && q.matches(after[|after| - 1])))
  {
    ThroughFirstMatchIsCut(q, LaterLines(q, lines, p));
  }

  // ---- searching against reading

  lemma {:induction false} KeepSame(s: seq<string>, f: string -> bool, g: string -> bool)
    requires forall line :: f(line) == g(line)
    ensures Keep(s, f) == Keep(s, g)
  {
    if s != [] {
      KeepSame(s[1..], f, g);
    }
  }

  function LinesOf(ms: seq<Match>): seq<string> {
    seq(|ms|, j requires 0 <= j < |ms| => ms[j].line)
  }

  lemma OneMoreLine(q: Query, lines: seq<string>, i: nat)
    requires i < |lines|
    ensures LinesOf(AllMatches(q, lines[..i + 1])) ==
            LinesOf(AllMatches(q, lines[..i])) + if q.Hit(lines[i]) then [lines[i]] else []
  {
    HitsGrow(q, lines, i);
    var ps, ps' := HitIndices(q, lines[..i]), HitIndices(q, lines[..i + 1]);
    forall j | 0 <= j < |ps|
      ensures LinesOf(AllMatches(q, lines[..i + 1]))[j] == LinesOf(AllMatches(q, lines[..i]))[j]
    {
      assert ps'[j] == ps[j] && lines[..i][ps[j]] == lines[..i + 1][ps[j]];
    }
  }

  lemma {:induction false} AllLines(q: Query, lines: seq<string>, i: nat)
    requires i <= |lines| && forall line :: q.matches(line)
    ensures LinesOf(AllMatches(q, lines[..i])) == Keep(lines[..i], q.inRange)
  {
    if i > 0 {
      AllLines(q, lines, i - 1);
      KeepStep(lines, i - 1, q.inRange);
      OneMoreLine(q, lines, i - 1);
    }
  }

  // A search that matches everything, without context, returns the same lines as reading the head.
  lemma SearchEverythingIsHead(parse: string -> Option<int>, opts: SearchOptions, everything: string -> bool,
                               lines: seq<string>)
    requires (forall line :: everything(line)) && opts.contextLines <= 0
    ensures var q := Query(RangeOf(FileFilter(parse, opts)), everything, opts.contextLines);
            var n := ResultLimit(opts.maxResults);
            LinesOf(Reported(q, lines, n)) ==
            LogReader.Head(Keep(lines, LogReader.TimeFilter(parse, opts.since, opts.until)), 0, n)
  {
    var q, n := Query(RangeOf(FileFilter(parse, opts)), everything, opts.contextLines), ResultLimit(opts.maxResults);
    var filter := LogReader.TimeFilter(parse, opts.since, opts.until);
    forall line: string
      ensures q.inRange(line) == filter(line)
    {
      assert filter(line) == (parse(line).Some? ==> LogReader.InWindow(parse(line).value, opts.since, opts.until));
    }
    AllLines(q, lines, |lines|);
    assert lines[..|lines|] == lines;
    KeepSame(lines, q.inRange, filter);
    WithoutContext(q, lines, n);
    var all := AllMatches(q, lines);
    assert LinesOf(all[..Min(n, |all|)]) == LinesOf(all)[..Min(n, |all|)];
  }
}
