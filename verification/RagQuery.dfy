/**
Merging the answers of several sources (internal/rag/query.go). A source may answer in any order:
Redis can return its hits as an unordered map.
*/
module RagQuery {
  import opened Wrappers

  datatype Hit = Hit(id: string, score: real)

  // ---- the k best scores

  predicate Descending(s: seq<real>) {
    |s| <= 1 || (s[0] >= s[1] && Descending(s[1..]))
  }

  function Insert(x: real, s: seq<real>): seq<real> {
    if s == [] || x >= s[0] then [x] + s else [s[0]] + Insert(x, s[1..])
  }

  function Ranked(s: seq<real>): seq<real> {
    if s == [] then [] else Insert(s[0], Ranked(s[1..]))
  }

  function Best(k: nat, s: seq<real>): seq<real> {
    Ranked(s)[..Min(k, |Ranked(s)|)]
  }

  // How many scores are at least x. A descending list is determined by these counts.
  function AtLeast(s: seq<real>, x: real): nat {
    if s == [] then 0 else (if s[0] >= x then 1 else 0) + AtLeast(s[1..], x)
  }

  lemma {:induction false} InsertRanks(x: real, s: seq<real>)
    requires Descending(s)
    ensures Descending(Insert(x, s)) && Insert(x, s)[0] == (if s == [] || x >= s[0] then x else s[0])
    ensures multiset(Insert(x, s)) == multiset{x} + multiset(s)
  {
    if s != [] && x < s[0] {
      InsertRanks(x, s[1..]);
      HeadOut(s);
      assert Insert(x, s)[1..] == Insert(x, s[1..]);
    } else {
      assert ([x] + s)[1..] == s;
    }
  }

  lemma {:induction false} RankedIsSorted(s: seq<real>)
    ensures Descending(Ranked(s)) && multiset(Ranked(s)) == multiset(s) && |Ranked(s)| == |s|
  {
    if s != [] {
      RankedIsSorted(s[1..]);
      InsertRanks(s[0], Ranked(s[1..]));
      HeadOut(s);
      assert |multiset(Ranked(s))| == |Ranked(s)| && |multiset(s)| == |s|;
    }
  }

  lemma HeadOut<T>(s: seq<T>)
    requires s != []
    ensures multiset(s) == multiset{s[0]} + multiset(s[1..])
  {
    assert s == [s[0]] + s[1..];
  }

  lemma Cancel<T>(x: T, a: multiset<T>, b: multiset<T>)
    requires multiset{x} + a == multiset{x} + b
    ensures a == b
  {
    forall y
      ensures a[y] == b[y]
    {
      assert (multiset{x} + a)[y] == (multiset{x} + b)[y];
    }
  }

  lemma TakeOut<T>(s: seq<T>, j: nat)
    requires j < |s|
    ensures multiset(s) == multiset{s[j]} + multiset(s[..j] + s[j + 1..])
  {
    assert s == s[..j] + ([s[j]] + s[j + 1..]);
  }

  lemma {:induction false} CountConcat(a: seq<real>, b: seq<real>, x: real)
    ensures AtLeast(a + b, x) == AtLeast(a, x) + AtLeast(b, x)
  {
    if a == [] {
      assert a + b == b;
    } else {
      assert (a + b)[1..] == a[1..] + b;
      CountConcat(a[1..], b, x);
    }
  }

  lemma {:induction false} CountPermuted(a: seq<real>, b: seq<real>, x: real)
    requires multiset(a) == multiset(b)
    ensures AtLeast(a, x) == AtLeast(b, x)
  {
    if a == [] {
      assert |multiset(b)| == |b|;
    } else {
      assert a[0] in multiset(b);
      var j :| 0 <= j < |b| && b[j] == a[0];
      var before, after := b[..j], b[j + 1..];
      HeadOut(a);
      TakeOut(b, j);
      Cancel(a[0], multiset(a[1..]), multiset(before + after));
      CountPermuted(a[1..], before + after, x);
      CountConcat(before, after, x);
      CountConcat(before, [b[j]] + after, x);
      assert b == before + ([b[j]] + after) && ([b[j]] + after)[1..] == after;
    }
  }

  lemma {:induction false} CountBelow(s: seq<real>, x: real)
    requires Descending(s) && (s != [] ==> s[0] < x)
    ensures AtLeast(s, x) == 0
  {
    if s != [] { CountBelow(s[1..], x); }
  }

  lemma {:induction false} CountTaken(k: nat, s: seq<real>, x: real)
    requires Descending(s)
    ensures AtLeast(s[..Min(k, |s|)], x) == Min(k, AtLeast(s, x))
  {
    if s == [] || k == 0 {
      assert s[..Min(k, |s|)] == [];
    } else {
      var n := Min(k, |s|);
      assert s[..n][1..] == s[1..][..n - 1];
      CountTaken(k - 1, s[1..], x);
      if s[0] < x { CountBelow(s, x); }
    }
  }

  lemma {:induction false} DescendingTaken(k: nat, s: seq<real>)
    requires Descending(s) && k <= |s|
    ensures Descending(s[..k])
  {
    if k > 1 {
      DescendingTaken(k - 1, s[1..]);
      assert s[..k][1..] == s[1..][..k - 1];
    }
  }

  lemma CountHead(s: seq<real>)
    requires s != []
    ensures AtLeast(s, s[0]) > 0
  {
  }

  // Heads of lists with the same counts are the same.
  lemma HeadNotAbove(a: seq<real>, b: seq<real>)
    requires Descending(b) && a != [] && AtLeast(a, a[0]) == AtLeast(b, a[0])
    ensures b != [] && a[0] <= b[0]
  {
    CountHead(a);
    if b == [] || b[0] < a[0] { CountBelow(b, a[0]); }
  }

  lemma {:induction false} SameCounts(a: seq<real>, b: seq<real>)
    requires Descending(a) && Descending(b)
    requires forall x :: AtLeast(a, x) == AtLeast(b, x)
    ensures a == b
  {
    if a != [] || b != [] {
      if a != [] { HeadNotAbove(a, b); }
      HeadNotAbove(b, a);
      HeadNotAbove(a, b);
      forall x
        ensures AtLeast(a[1..], x) == AtLeast(b[1..], x)
      {
        assert AtLeast(a, x) == AtLeast(b, x);
      }
      SameCounts(a[1..], b[1..]);
      assert a == [a[0]] + a[1..] && b == [b[0]] + b[1..];
    }
  }

  lemma CountBest(k: nat, s: seq<real>, x: real)
    ensures AtLeast(Best(k, s), x) == Min(k, AtLeast(s, x))
  {
    RankedIsSorted(s);
    CountTaken(k, Ranked(s), x);
    CountPermuted(Ranked(s), s, x);
  }

  // The answers are the k best of their groups, in any order.
  predicate AreBest(k: nat, groups: seq<seq<real>>, answers: seq<seq<real>>) {
    |groups| == |answers| && forall i :: 0 <= i < |groups| ==> multiset(answers[i]) == multiset(Best(k, groups[i]))
  }

  // One group more on both sides.
  lemma CountOneGroup(k: nat, group: seq<real>, answer: seq<real>, rest: seq<real>, answered: seq<real>, x: real)
    requires multiset(answer) == multiset(Best(k, group))
    requires Min(k, AtLeast(answered, x)) == Min(k, AtLeast(rest, x))
    ensures Min(k, AtLeast(answer + answered, x)) == Min(k, AtLeast(group + rest, x))
  {
    CountConcat(group, rest, x);
    CountConcat(answer, answered, x);
    CountPermuted(answer, Best(k, group), x);
    CountBest(k, group, x);
  }

  lemma {:induction false} CountMerged(k: nat, groups: seq<seq<real>>, answers: seq<seq<real>>, x: real)
    requires AreBest(k, groups, answers)
    ensures Min(k, AtLeast(Flatten(answers), x)) == Min(k, AtLeast(Flatten(groups), x))
  {
    if groups != [] {
      CountMerged(k, groups[1..], answers[1..], x);
      CountOneGroup(k, groups[0], answers[0], Flatten(groups[1..]), Flatten(answers[1..]), x);
    }
  }

  // Taking the k best of the sources' k best loses nothing.
  lemma MergeKeepsBest(k: nat, groups: seq<seq<real>>, answers: seq<seq<real>>)
    requires AreBest(k, groups, answers)
    ensures Best(k, Flatten(answers)) == Best(k, Flatten(groups))
  {
    var a, b := Best(k, Flatten(answers)), Best(k, Flatten(groups));
    RankedIsSorted(Flatten(answers));
    RankedIsSorted(Flatten(groups));
    DescendingTaken(|a|, Ranked(Flatten(answers)));
    DescendingTaken(|b|, Ranked(Flatten(groups)));
    forall x
      ensures AtLeast(a, x) == AtLeast(b, x)
    {
      CountBest(k, Flatten(answers), x);
      CountBest(k, Flatten(groups), x);
      CountMerged(k, groups, answers, x);
    }
    SameCounts(a, b);
  }

  lemma RankedUnique(a: seq<real>, b: seq<real>)
    requires Descending(a) && multiset(a) == multiset(b)
    ensures a == Ranked(b)
  {
    RankedIsSorted(b);
    forall x
      ensures AtLeast(a, x) == AtLeast(Ranked(b), x)
    {
      CountPermuted(a, Ranked(b), x);
    }
    SameCounts(a, Ranked(b));
  }

  // ---- the code

  function Scores(hits: seq<Hit>): seq<real> {
    seq(|hits|, i requires 0 <= i < |hits| => hits[i].score)
  }

  function InsertHit(x: Hit, s: seq<Hit>): seq<Hit> {
    if s == [] || x.score >= s[0].score then [x] + s else [s[0]] + InsertHit(x, s[1..])
  }

  lemma {:induction false} InsertHitInserts(x: Hit, s: seq<Hit>)
    ensures Scores(InsertHit(x, s)) == Insert(x.score, Scores(s))
    ensures multiset(InsertHit(x, s)) == multiset{x} + multiset(s)
  {
    if s != [] {
      assert Scores(s)[1..] == Scores(s[1..]);
      HeadOut(s);
      if x.score < s[0].score {
        InsertHitInserts(x, s[1..]);
        assert Scores(InsertHit(x, s)) == [s[0].score] + Scores(InsertHit(x, s[1..]));
      } else {
        assert Scores([x] + s) == [x.score] + Scores(s);
      }
    }
  }

  // slices.SortFunc by descending score: some sorted permutation, not necessarily a stable one.
  method SortHits(hits: seq<Hit>) returns (r: seq<Hit>)
    ensures Descending(Scores(r)) && multiset(r) == multiset(hits)
  {
    r := [];
    for i := 0 to |hits|
      invariant Descending(Scores(r)) && multiset(r) == multiset(hits[..i])
    {
      assert hits[..i + 1] == hits[..i] + [hits[i]];
      InsertHitInserts(hits[i], r);
      InsertRanks(hits[i].score, Scores(r));
      r := InsertHit(hits[i], r);
    }
    assert hits[..|hits|] == hits;
  }

  lemma {:induction false} ScoresPermuted(a: seq<Hit>, b: seq<Hit>)
    requires multiset(a) == multiset(b)
    ensures multiset(Scores(a)) == multiset(Scores(b))
  {
    if a == [] {
      assert |multiset(b)| == |b|;
    } else {
      assert a[0] in multiset(b);
      var j :| 0 <= j < |b| && b[j] == a[0];
      var before, after := b[..j], b[j + 1..];
      HeadOut(a);
      TakeOut(b, j);
      Cancel(a[0], multiset(a[1..]), multiset(before + after));
      ScoresPermuted(a[1..], before + after);
      assert Scores(before + after) == Scores(before) + Scores(after);
      assert Scores(b)[..j] == Scores(before) && Scores(b)[j + 1..] == Scores(after);
      TakeOut(Scores(b), j);
      HeadOut(Scores(a));
      assert Scores(a)[1..] == Scores(a[1..]);
    }
  }

  function AnswersOf(answers: seq<Option<seq<Hit>>>): seq<seq<real>> {
    seq(|answers|, i requires 0 <= i < |answers| => Scores(answers[i].GetOr([])))
  }

  function Merged(answers: seq<Option<seq<Hit>>>): seq<Hit> {
    if answers == [] then [] else
    var n := |answers| - 1;
    Merged(answers[..n]) + answers[n].GetOr([])
  }

  lemma {:induction false} MergedScores(answers: seq<Option<seq<Hit>>>)
    ensures Scores(Merged(answers)) == Flatten(AnswersOf(answers))
  {
    if answers != [] {
      var n := |answers| - 1;
      var last := Scores(answers[n].GetOr([]));
      MergedScores(answers[..n]);
      assert AnswersOf(answers) == AnswersOf(answers[..n]) + [last];
      FlattenConcat(AnswersOf(answers[..n]), [last]);
      assert Flatten([last]) == last;
      assert Scores(Merged(answers)) == Scores(Merged(answers[..n])) + last;
    }
  }

  lemma TopScores(sorted: seq<Hit>, all: seq<Hit>, topK: nat)
    requires Descending(Scores(sorted)) && multiset(sorted) == multiset(all)
    ensures Scores(sorted[..Min(topK, |sorted|)]) == Best(topK, Scores(all))
  {
    ScoresPermuted(sorted, all);
    RankedUnique(Scores(sorted), Scores(all));
    var n := Min(topK, |sorted|);
    assert Scores(sorted[..n]) == Scores(sorted)[..n];
  }

  lemma TopIsBest(sorted: seq<Hit>, answers: seq<Option<seq<Hit>>>, topK: nat)
    requires Descending(Scores(sorted)) && multiset(sorted) == multiset(Merged(answers))
    ensures var top := if |sorted| > topK then sorted[..topK] else sorted;
            Scores(top) == Best(topK, Flatten(AnswersOf(answers))) && multiset(top) <= multiset(Merged(answers))
  {
    var n := Min(topK, |sorted|);
    TopScores(sorted, Merged(answers), topK);
    MergedScores(answers);
    PrefixWithin(sorted, n);
    assert sorted[..|sorted|] == sorted;
  }

  lemma PrefixWithin<T>(s: seq<T>, n: nat)
    requires n <= |s|
    ensures multiset(s[..n]) <= multiset(s)
  {
    assert s == s[..n] + s[n..];
  }

  function AnswersFrom(sources: seq<string>, search: string -> Option<seq<Hit>>): seq<Option<seq<Hit>>> {
    seq(|sources|, i requires 0 <= i < |sources| => search(sources[i]))
  }

  // A source that answers has answered with this hit.
  ghost predicate IsHitOf(sources: seq<string>, search: string -> Option<seq<Hit>>, h: Hit) {
    exists i :: 0 <= i < |sources| && search(sources[i]).Some? && h in search(sources[i]).value
  }

  // At most k hits of the sources, best first; a hit that is not among them is no better than any of k others.
  ghost predicate IsTop(k: nat, sources: seq<string>, search: string -> Option<seq<Hit>>, top: seq<Hit>) {
    && |top| <= k
    && (forall i, j :: 0 <= i < j < |top| ==> top[i].score >= top[j].score)
    && (forall i :: 0 <= i < |top| ==> IsHitOf(sources, search, top[i]))
    && (forall h :: IsHitOf(sources, search, h) ==>
          h in top || (|top| == k && forall i :: 0 <= i < k ==> top[i].score >= h.score))
  }

  // Each source that answers has answered with the k best of its group, in any order; the group of one that
  // does not is empty.
  ghost predicate AnswerBest(k: nat, sources: seq<string>, search: string -> Option<seq<Hit>>, groups: seq<seq<real>>) {
    |groups| == |sources| && forall i :: 0 <= i < |sources| ==>
      if search(sources[i]).None? then groups[i] == []
      else multiset(Scores(search(sources[i]).value)) == multiset(Best(k, groups[i]))
  }

  lemma AnswersAreBest(k: nat, sources: seq<string>, search: string -> Option<seq<Hit>>, groups: seq<seq<real>>)
    requires AnswerBest(k, sources, search, groups)
    ensures AreBest(k, groups, AnswersOf(AnswersFrom(sources, search)))
  {
    var answers := AnswersFrom(sources, search);
    forall i | 0 <= i < |sources|
      ensures multiset(AnswersOf(answers)[i]) == multiset(Best(k, groups[i]))
    {
      assert answers[i] == search(sources[i]);
      if search(sources[i]).None? { assert AnswersOf(answers)[i] == [] == Best(k, []); }
    }
  }

  lemma {:induction false} MergedExact(answers: seq<Option<seq<Hit>>>, h: Hit)
    ensures h in Merged(answers) <==> exists i :: 0 <= i < |answers| && h in answers[i].GetOr([])
  {
    if answers != [] {
      MergedExact(answers[..|answers| - 1], h);
      assert forall i :: 0 <= i < |answers| - 1 ==> answers[..|answers| - 1][i] == answers[i];
    }
  }

  lemma MergedIsHits(sources: seq<string>, search: string -> Option<seq<Hit>>, h: Hit)
    ensures h in Merged(AnswersFrom(sources, search)) <==> IsHitOf(sources, search, h)
  {
    var answers := AnswersFrom(sources, search);
    MergedExact(answers, h);
    assert forall i :: 0 <= i < |sources| ==> answers[i] == search(sources[i]);
    if IsHitOf(sources, search, h) {
      var i :| 0 <= i < |sources| && search(sources[i]).Some? && h in search(sources[i]).value;
      assert h in answers[i].GetOr([]);
    }
  }

  lemma {:induction false} DescendingPairs(s: seq<real>, i: nat, j: nat)
    requires Descending(s) && i < j < |s|
    ensures s[i] >= s[j]
  {
    if i > 0 {
      DescendingPairs(s[1..], i - 1, j - 1);
    } else if j > 1 {
      DescendingPairs(s[1..], 0, j - 1);
    }
  }

  predicate BestFirst(hits: seq<Hit>) { forall i, j :: 0 <= i < j < |hits| ==> hits[i].score >= hits[j].score }

  lemma SortedBestFirst(sorted: seq<Hit>)
    requires Descending(Scores(sorted))
    ensures BestFirst(sorted)
  {
    forall i, j | 0 <= i < j < |sorted|
      ensures sorted[i].score >= sorted[j].score
    {
      DescendingPairs(Scores(sorted), i, j);
    }
  }

  // The first k of a list with the best first are its k best.
  lemma FirstAreBest(sorted: seq<Hit>, k: nat, h: Hit)
    requires BestFirst(sorted) && k < |sorted| && h in sorted
    ensures h in sorted[..k] || forall i :: 0 <= i < k ==> sorted[..k][i].score >= h.score
  {
    var j :| 0 <= j < |sorted| && sorted[j] == h;
    if j < k { assert sorted[..k][j] == h; }
  }

  lemma SortedAreHits(sorted: seq<Hit>, sources: seq<string>, search: string -> Option<seq<Hit>>, h: Hit)
    requires multiset(sorted) == multiset(Merged(AnswersFrom(sources, search)))
    ensures h in sorted <==> IsHitOf(sources, search, h)
  {
    MergedIsHits(sources, search, h);
    assert h in sorted <==> h in multiset(sorted);
    assert h in Merged(AnswersFrom(sources, search)) <==> h in multiset(sorted);
  }

  lemma TopIsTop(sorted: seq<Hit>, sources: seq<string>, search: string -> Option<seq<Hit>>, topK: nat)
    requires Descending(Scores(sorted)) && multiset(sorted) == multiset(Merged(AnswersFrom(sources, search)))
    ensures IsTop(topK, sources, search, if |sorted| > topK then sorted[..topK] else sorted)
  {
    var top := if |sorted| > topK then sorted[..topK] else sorted;
    SortedBestFirst(sorted);
    forall i | 0 <= i < |top|
      ensures IsHitOf(sources, search, top[i])
    {
      assert top[i] == sorted[i];
      SortedAreHits(sorted, sources, search, sorted[i]);
    }
    forall h | IsHitOf(sources, search, h)
      ensures h in top || (|top| == topK && forall i :: 0 <= i < topK ==> top[i].score >= h.score)
    {
      SortedAreHits(sorted, sources, search, h);
      if |sorted| > topK { FirstAreBest(sorted, topK, h); }
    }
  }

  // search is the store's answer for a source: None is an error. Without a source filter errors are
  // skipped, because a source may not be indexed yet. Whenever every source has answered with its topK
  // best hits, the result has the topK best scores of all hits of all sources.
  method Search(embeds: bool, source: string, topK: nat, sources: seq<string>, search: string -> Option<seq<Hit>>)
    returns (r: Result<seq<Hit>>)
    ensures r.Err? <==> !embeds || (source != "" && search(source).None?)
    ensures r.Ok? && source != "" ==> r.value == search(source).value
    ensures r.Ok? && source == "" ==> IsTop(topK, sources, search, r.value)
    ensures r.Ok? && source == "" ==>
              var answers := AnswersFrom(sources, search);
              Scores(r.value) == Best(topK, Flatten(AnswersOf(answers))) &&
                multiset(r.value) <= multiset(Merged(answers))
    ensures r.Ok? && source == "" ==>
              forall groups :: AnswerBest(topK, sources, search, groups) ==>
                                 Scores(r.value) == Best(topK, Flatten(groups))
  {
    if !embeds {
      return Err("embedding");
    }
    if source != "" {
      var answer := search(source);
      return if answer.Some? then Ok(answer.value) else Err("search");
    }
    ghost var answers := AnswersFrom(sources, search);
    var all: seq<Hit> := [];
    for i := 0 to |sources|
      invariant all == Merged(answers[..i])
    {
      assert answers[..i + 1][..i] == answers[..i];
      var results := search(sources[i]);
      if results.None? {
        assert all + [] == all;
        continue;
      }
      all := all + results.value;
    }
    assert answers[..|answers|] == answers;
    var sorted := SortHits(all);
    TopIsBest(sorted, answers, topK);
    TopIsTop(sorted, sources, search, topK);
    if |sorted| > topK {
      sorted := sorted[..topK];
    }
    r := Ok(sorted);
    forall groups | AnswerBest(topK, sources, search, groups)
      ensures Scores(r.value) == Best(topK, Flatten(groups))
    {
      AnswersAreBest(topK, sources, search, groups);
      MergeKeepsBest(topK, groups, AnswersOf(answers));
    }
  }
}
