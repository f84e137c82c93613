// Values that stand for Go's "maybe nil" and "value, error" results, and what is needed in several
// modules about sequences: the elements that a condition keeps, the positions at which it holds in
// ascending order, the elements picked at positions, and lists of lists joined into one.
module Wrappers {
  datatype Option<+T> = None | Some(value: T) {
    function GetOr(default: T): T { if Some? then value else default }
  }

  datatype Result<+T> = Ok(value: T) | Err(message: string)

  function Min(a: int, b: int): int { if a < b then a else b }

  function Max(a: int, b: int): int { if a < b then b else a }

  // The elements of s that satisfy keep, in order.
  function Keep<T>(s: seq<T>, keep: T -> bool): (r: seq<T>)
    ensures |r| <= |s|
  {
    if s == [] then []
    else if keep(s[0]) then [s[0]] + Keep(s[1..], keep)
    else Keep(s[1..], keep)
  }

  lemma {:induction false} KeepConcat<T>(a: seq<T>, b: seq<T>, keep: T -> bool)
    ensures Keep(a + b, keep) == Keep(a, keep) + Keep(b, keep)
  {
    if a == [] {
      assert a + b == b;
    } else {
      assert (a + b)[1..] == a[1..] + b;
      KeepConcat(a[1..], b, keep);
    }
  }

  lemma {:induction false} KeepAlike<T>(s: seq<T>, keep: T -> bool, alike: T -> bool)
    requires forall x :: x in s ==> keep(x) == alike(x)
    ensures Keep(s, keep) == Keep(s, alike)
  {
    if s != [] { KeepAlike(s[1..], keep, alike); }
  }

  lemma KeepStep<T>(s: seq<T>, i: nat, keep: T -> bool)
    requires i < |s|
    ensures Keep(s[..i + 1], keep) == if keep(s[i]) then Keep(s[..i], keep) + [s[i]] else Keep(s[..i], keep)
  {
    assert s[..i + 1] == s[..i] + [s[i]];
    KeepConcat(s[..i], [s[i]], keep);
    assert Keep(s[..i], keep) + [] == Keep(s[..i], keep);
  }

  // ---- positions in a sequence

  predicate Ascending(at: seq<nat>) { forall i, j :: 0 <= i < j < |at| ==> at[i] < at[j] }

  predicate Within(at: seq<nat>, n: nat) { forall i :: 0 <= i < |at| ==> at[i] < n }

  function Picked<T>(s: seq<T>, at: seq<nat>): seq<T>
    requires Within(at, |s|)
  {
    seq(|at|, i requires 0 <= i < |at| => s[at[i]])
  }

  // at lists exactly the positions, in order, of the elements that satisfy keep.
  ghost predicate Selects<T>(s: seq<T>, at: seq<nat>, keep: T -> bool) {
    Ascending(at) && Within(at, |s|) && forall j :: 0 <= j < |s| ==> (j in at <==> keep(s[j]))
  }

  lemma LastIsGreatest(at: seq<nat>, k: nat)
    requires Ascending(at) && k < |at|
    ensures at[k] <= at[|at| - 1]
  {
  }

  lemma NotBehind(at: seq<nat>, k: nat, c: nat)
    requires Ascending(at) && k < |at| && c < |at| && at[k] <= at[c]
    ensures k <= c
  {
  }

  // Without the last element.
  lemma SelectsBefore<T>(s: seq<T>, at: seq<nat>, keep: T -> bool)
    requires s != [] && Selects(s, at, keep)
    ensures var n := |s| - 1;
            if keep(s[n]) then at != [] && at[|at| - 1] == n && Selects(s[..n], at[..|at| - 1], keep)
            else Selects(s[..n], at, keep)
  {
    var n, m := |s| - 1, |at| - 1;
    if keep(s[n]) {
      var k :| 0 <= k < |at| && at[k] == n;
      LastIsGreatest(at, k);
      assert forall j :: 0 <= j < n ==> (j in at <==> j in at[..m]);
    } else {
      forall i | 0 <= i < |at|
        ensures at[i] < n
      {
        assert at[i] in at;
      }
    }
  }

  // The elements at these positions, and no others, are what filtering keeps.
  lemma {:induction false} SelectsKeep<T>(s: seq<T>, at: seq<nat>, keep: T -> bool)
    requires Selects(s, at, keep)
    ensures Picked(s, at) == Keep(s, keep)
  {
    if s != [] {
      var n := |s| - 1;
      SelectsBefore(s, at, keep);
      KeepStep(s, n, keep);
      assert s[..|s|] == s;
      var before := if keep(s[n]) then at[..|at| - 1] else at;
      SelectsKeep(s[..n], before, keep);
      PickedFrom(s, before, n);
      if keep(s[n]) { PickedSlice(s, at, 0, |at| - 1); }
    }
  }

  lemma PickedFrom<T>(s: seq<T>, at: seq<nat>, n: nat)
    requires n <= |s| && Within(at, n)
    ensures Picked(s[..n], at) == Picked(s, at)
  {
  }

  lemma PickedSlice<T>(s: seq<T>, at: seq<nat>, from: nat, to: nat)
    requires from <= to <= |at| && Within(at, |s|)
    ensures Within(at[from..to], |s|) && Picked(s, at[from..to]) == Picked(s, at)[from..to]
  {
  }

  lemma SelectsPrefix<T>(s: seq<T>, at: seq<nat>, keep: T -> bool, c: nat)
    requires Selects(s, at, keep) && c < |at|
    ensures Selects(s[..at[c] + 1], at[..c + 1], keep)
  {
    forall i | 0 <= i <= c
      ensures at[i] <= at[c]
    {
      assert i < c ==> at[i] < at[c];
    }
    forall j | 0 <= j < at[c] + 1
      ensures j in at[..c + 1] <==> j in at
    {
      if j in at {
        var k :| 0 <= k < |at| && at[k] == j;
        NotBehind(at, k, c);
        assert at[..c + 1][k] == j;
      }
    }
  }

  // What is kept behind one of the positions.
  lemma SelectsRest<T>(s: seq<T>, at: seq<nat>, keep: T -> bool, c: nat)
    requires Selects(s, at, keep) && c < |at|
    ensures Within(at[c + 1..], |s|) && Keep(s[at[c] + 1..], keep) == Picked(s, at[c + 1..])
  {
    var n := at[c] + 1;
    SelectsPrefix(s, at, keep, c);
    SelectsKeep(s[..n], at[..c + 1], keep);
    SelectsKeep(s, at, keep);
    KeptBehind(s, n, keep);
    PickedSlice(s, at, c + 1, |at|);
    assert at[c + 1..|at|] == at[c + 1..];
  }

  lemma KeptBehind<T>(s: seq<T>, n: nat, keep: T -> bool)
    requires n <= |s|
    ensures |Keep(s[..n], keep)| <= |Keep(s, keep)|
    ensures Keep(s[n..], keep) == Keep(s, keep)[|Keep(s[..n], keep)|..]
  {
    assert s == s[..n] + s[n..];
    KeepConcat(s[..n], s[n..], keep);
  }

  lemma SelectsMore<T>(s: seq<T>, at: seq<nat>, x: T, keep: T -> bool)
    requires Selects(s, at, keep)
    ensures Selects(s + [x], if keep(x) then at + [|s|] else at, keep)
  {
    assert forall j :: 0 <= j < |s| ==> (j in at + [|s|] <==> j in at);
    assert |s| in at + [|s|];
  }

  // There always are such positions.
  lemma {:induction false} Selected<T>(s: seq<T>, keep: T -> bool) returns (at: seq<nat>)
    ensures Selects(s, at, keep)
  {
    at := [];
    if s != [] {
      var n := |s| - 1;
      at := Selected(s[..n], keep);
      SelectsMore(s[..n], at, s[n], keep);
      assert s[..n] + [s[n]] == s;
      if keep(s[n]) { at := at + [n]; }
    }
  }

  lemma PrefixStep<T>(base: seq<T>, s: seq<T>, i: nat)
    requires i < |s|
    ensures base + s[..i + 1] == base + s[..i] + [s[i]]
  {
  }

  lemma Assoc<T>(a: seq<T>, b: seq<T>, c: seq<T>)
    ensures a + b + c == a + (b + c)
  {
  }

  function Flatten<T>(ss: seq<seq<T>>): seq<T>
  {
    if ss == [] then [] else ss[0] + Flatten(ss[1..])
  }

  lemma {:induction false} FlattenConcat<T>(a: seq<seq<T>>, b: seq<seq<T>>)
    ensures Flatten(a + b) == Flatten(a) + Flatten(b)
  {
    if a == [] {
      assert a + b == b;
    } else {
      assert (a + b)[1..] == a[1..] + b;
      FlattenConcat(a[1..], b);
    }
  }
}
