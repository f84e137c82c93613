// The string functions of Go's standard library that the modelled code relies on: searching, splitting,
// joining, trimming and decimal numbers. A string is a sequence of runes. What a function promises is
// stated apart from it and is proved to fix its result.
module Text {
  // strings.Index
  function IndexOf(s: string, sep: string): (i: int)
    ensures -1 <= i && (i >= 0 ==> i + |sep| <= |s| && s[i..i + |sep|] == sep)
  {
    if |sep| > |s| then -1
    else if s[..|sep|] == sep then 0
    else if s == "" then -1
    else
      var i := IndexOf(s[1..], sep);
      assert i >= 0 ==> s[1..][i..i + |sep|] == s[i + 1..i + 1 + |sep|];
      if i < 0 then -1 else i + 1
  }

  // strings.Split with a non-empty separator
  function Split(s: string, sep: string): (parts: seq<string>)
    requires sep != ""
    ensures parts != []
  {
    var i := IndexOf(s, sep);
    if i < 0 then [s] else [s[..i]] + Split(s[i + |sep|..], sep)
  }

  // strings.Join
  function Join(parts: seq<string>, sep: string): string {
    if parts == [] then ""
    else if |parts| == 1 then parts[0]
    else parts[0] + sep + Join(parts[1..], sep)
  }

  lemma {:induction false} JoinSplit(s: string, sep: string)
    requires sep != ""
    ensures Join(Split(s, sep), sep) == s
  {
    var i := IndexOf(s, sep);
    if i >= 0 {
      var rest := s[i + |sep|..];
      JoinSplit(rest, sep);
      assert ([s[..i]] + Split(rest, sep))[1..] == Split(rest, sep);
      assert s == s[..i] + sep + rest;
    }
  }

  lemma {:induction false} JoinConcat(a: seq<string>, b: seq<string>, sep: string)
    requires a != [] && b != []
    ensures Join(a + b, sep) == Join(a, sep) + sep + Join(b, sep)
  {
    if |a| == 1 {
      assert (a + b)[1..] == b;
    } else {
      assert (a + b)[1..] == a[1..] + b;
      JoinConcat(a[1..], b, sep);
    }
  }

  // ---- what is found and what is split, whatever the separator

  predicate OccursAt(s: string, sep: string, j: int) {
    0 <= j && j + |sep| <= |s| && s[j..j + |sep|] == sep
  }

  predicate NotBefore(s: string, sep: string, k: int) { forall j :: 0 <= j < k ==> !OccursAt(s, sep, j) }

  // The index is that of the first occurrence.
  lemma {:induction false} IndexIsFirst(s: string, sep: string)
    ensures var i := IndexOf(s, sep);
            if i < 0 then NotBefore(s, sep, |s| + 1) else OccursAt(s, sep, i) && NotBefore(s, sep, i)
  {
    if |sep| <= |s| && s[..|sep|] != sep && s != "" {
      IndexIsFirst(s[1..], sep);
      forall j | 0 < j
        ensures OccursAt(s, sep, j) <==> OccursAt(s[1..], sep, j - 1)
      {
        OccursInTail(s, sep, j);
      }
      assert !OccursAt(s, sep, 0);
    }
  }

  lemma OccursInTail(s: string, sep: string, j: int)
    requires s != "" && 0 < j
    ensures OccursAt(s, sep, j) <==> OccursAt(s[1..], sep, j - 1)
  {
    if j + |sep| <= |s| { assert s[1..][j - 1..j - 1 + |sep|] == s[j..j + |sep|]; }
  }

  // The parts give the text back, and each ends where the separator comes first.
  predicate IsCut(s: string, sep: string, parts: seq<string>) {
    && parts != [] && Join(parts, sep) == s
    && (forall i :: 0 <= i < |parts| - 1 ==> NotBefore(parts[i] + sep, sep, |parts[i]|))
    && NotBefore(parts[|parts| - 1], sep, |parts[|parts| - 1]| + 1)
  }

  lemma FirstPart(p: string, sep: string, rest: string)
    requires sep != ""
    ensures NotBefore(p + sep, sep, |p|) <==> IndexOf(p + sep + rest, sep) == |p|
  {
    var s := p + sep + rest;
    IndexIsFirst(s, sep);
    assert OccursAt(s, sep, |p|);
    forall j | 0 <= j < |p|
      ensures OccursAt(s, sep, j) <==> OccursAt(p + sep, sep, j)
    {
      assert s[j..j + |sep|] == (p + sep)[j..j + |sep|];
    }
  }

  // Splitting is cutting like this, and there is only one way to do it.
  lemma {:induction false} SplitIsCut(s: string, sep: string)
    requires sep != ""
    ensures IsCut(s, sep, Split(s, sep))
  {
    var i := IndexOf(s, sep);
    JoinSplit(s, sep);
    IndexIsFirst(s, sep);
    if i >= 0 {
      var rest := s[i + |sep|..];
      SplitIsCut(rest, sep);
      assert s == s[..i] + sep + rest;
      FirstPart(s[..i], sep, rest);
      CutCons(s[..i], rest, sep, Split(rest, sep));
    }
  }

  lemma CutCons(p: string, rest: string, sep: string, parts: seq<string>)
    requires NotBefore(p + sep, sep, |p|) && IsCut(rest, sep, parts)
    ensures IsCut(p + sep + rest, sep, [p] + parts)
  {
    var all := [p] + parts;
    assert all[1..] == parts;
    forall i | 0 <= i < |all| - 1
      ensures NotBefore(all[i] + sep, sep, |all[i]|)
    {
      assert i > 0 ==> all[i] == parts[i - 1];
    }
  }

  lemma CutTail(s: string, sep: string, parts: seq<string>)
    requires |parts| > 1 && IsCut(s, sep, parts)
    ensures IsCut(Join(parts[1..], sep), sep, parts[1..]) && s == parts[0] + sep + Join(parts[1..], sep)
  {
    var rest := parts[1..];
    assert rest[|rest| - 1] == parts[|parts| - 1];
    forall i | 0 <= i < |rest| - 1
      ensures NotBefore(rest[i] + sep, sep, |rest[i]|)
    {
      assert rest[i] == parts[i + 1];
    }
  }

  lemma {:induction false} CutIsSplit(s: string, sep: string, parts: seq<string>)
    requires sep != "" && IsCut(s, sep, parts)
    ensures parts == Split(s, sep)
  {
    if |parts| == 1 {
      IndexIsFirst(s, sep);
    } else {
      var p, tail := parts[0], Join(parts[1..], sep);
      CutTail(s, sep, parts);
      FirstPart(p, sep, tail);
      assert s[..|p|] == p && s[|p| + |sep|..] == tail;
      CutIsSplit(tail, sep, parts[1..]);
    }
  }

  // ---- splitting at one character

  predicate Free(parts: seq<string>, c: char) { forall i :: 0 <= i < |parts| ==> c !in parts[i] }

  lemma {:induction false} FirstAt(s: string, c: char, k: nat)
    requires k <= |s| && c !in s[..k] && (k < |s| ==> s[k] == c)
    ensures IndexOf(s, [c]) == if k < |s| then k else -1
  {
    if k > 0 {
      assert s[0] == s[..k][0];
      assert s[..k][1..] == s[1..][..k - 1];
      assert s[..1] == [s[0]];
      FirstAt(s[1..], c, k - 1);
    } else if s != "" {
      assert s[..1] == [s[0]];
    }
  }

  lemma {:induction false} SplitOnly(parts: seq<string>, c: char)
    requires parts != [] && Free(parts, c)
    ensures Split(Join(parts, [c]), [c]) == parts
  {
    var s := Join(parts, [c]);
    if |parts| == 1 {
      assert s[..|s|] == s;
      FirstAt(s, c, |s|);
    } else {
      var n := |parts[0]|;
      assert s[..n] == parts[0] && s[n] == c && s[n + 1..] == Join(parts[1..], [c]);
      FirstAt(s, c, n);
      SplitOnly(parts[1..], c);
    }
  }

  lemma {:induction false} NoneBefore(s: string, c: char)
    ensures c !in if IndexOf(s, [c]) < 0 then s else s[..IndexOf(s, [c])]
  {
    if s != "" && s[0] != c {
      assert s[..1] == [s[0]];
      NoneBefore(s[1..], c);
      assert s == [s[0]] + s[1..];
      var i := IndexOf(s, [c]);
      assert i >= 0 ==> s[..i] == [s[0]] + s[1..][..i - 1];
    }
  }

  lemma {:induction false} SplitIsFree(s: string, c: char)
    ensures Free(Split(s, [c]), c)
  {
    var i := IndexOf(s, [c]);
    NoneBefore(s, c);
    if i >= 0 {
      SplitIsFree(s[i + 1..], c);
    }
  }

  // Splitting a text that was put together at the separator gives the parts of both halves.
  lemma SplitConcat(a: string, b: string, c: char)
    ensures Split(a + [c] + b, [c]) == Split(a, [c]) + Split(b, [c])
  {
    JoinSplit(a, [c]);
    JoinSplit(b, [c]);
    SplitIsFree(a, c);
    SplitIsFree(b, c);
    JoinConcat(Split(a, [c]), Split(b, [c]), [c]);
    SplitOnly(Split(a, [c]) + Split(b, [c]), c);
  }

  // unicode.IsSpace
  predicate IsSpace(c: char) {
    var n := c as int;
    9 <= n <= 13 || n == 0x20 || n == 0x85 || n == 0xA0 || n == 0x1680 || 0x2000 <= n <= 0x200A ||
    n == 0x2028 || n == 0x2029 || n == 0x202F || n == 0x205F || n == 0x3000
  }

  // The characters with the White_Space property, one by one.
  lemma SpacesAre(c: char)
    ensures IsSpace(c) <==> c as int in {
              0x9, 0xA, 0xB, 0xC, 0xD, 0x20, 0x85, 0xA0, 0x1680, 0x2000, 0x2001, 0x2002, 0x2003, 0x2004, 0x2005,
              0x2006, 0x2007, 0x2008, 0x2009, 0x200A, 0x2028, 0x2029, 0x202F, 0x205F, 0x3000}
  {
  }

  function TrimLeft(s: string): string {
    if s != "" && IsSpace(s[0]) then TrimLeft(s[1..]) else s
  }

  function TrimRight(s: string): string {
    if s != "" && IsSpace(s[|s| - 1]) then TrimRight(s[..|s| - 1]) else s
  }

  // strings.TrimSpace
  function Trim(s: string): string {
    TrimRight(TrimLeft(s))
  }

  predicate IsBlank(s: string) { forall i :: 0 <= i < |s| ==> IsSpace(s[i]) }

  lemma {:induction false} TrimLeftBlank(s: string)
    ensures TrimLeft(s) == "" <==> IsBlank(s)
    ensures TrimLeft(s) != "" ==> !IsSpace(TrimLeft(s)[0])
  {
    if s != "" && IsSpace(s[0]) {
      TrimLeftBlank(s[1..]);
      assert forall i :: 0 < i < |s| ==> s[i] == s[1..][i - 1];
    }
  }

  lemma {:induction false} TrimRightBlank(s: string)
    ensures TrimRight(s) == "" <==> IsBlank(s)
  {
    if s != "" && IsSpace(s[|s| - 1]) {
      TrimRightBlank(s[..|s| - 1]);
      assert forall i :: 0 <= i < |s| - 1 ==> s[i] == s[..|s| - 1][i];
    }
  }

  // Trimming leaves nothing exactly when there is nothing but white space.
  lemma TrimBlank(s: string)
    ensures Trim(s) == "" <==> IsBlank(s)
  {
    TrimLeftBlank(s);
    TrimRightBlank(TrimLeft(s));
  }

  // t is s without the white space around it.
  ghost predicate IsStripped(s: string, t: string) {
    exists a, b :: Strips(s, a, t, b)
  }

  predicate Strips(s: string, a: string, t: string, b: string) {
    && s == a + t + b && (forall i :: 0 <= i < |a| ==> IsSpace(a[i])) && (forall i :: 0 <= i < |b| ==> IsSpace(b[i]))
    && (t != "" ==> !IsSpace(t[0]) && !IsSpace(t[|t| - 1]))
  }

  lemma {:induction false} TrimLeftStrips(s: string) returns (a: string)
    ensures IsBlank(a) && s == a + TrimLeft(s)
  {
    a := "";
    if s != "" && IsSpace(s[0]) {
      a := TrimLeftStrips(s[1..]);
      a := [s[0]] + a;
    }
  }

  lemma {:induction false} TrimRightStrips(s: string) returns (b: string)
    ensures IsBlank(b) && s == TrimRight(s) + b
    ensures TrimRight(s) != "" ==> !IsSpace(TrimRight(s)[|TrimRight(s)| - 1])
  {
    b := "";
    if s != "" && IsSpace(s[|s| - 1]) {
      b := TrimRightStrips(s[..|s| - 1]);
      b := b + [s[|s| - 1]];
    }
  }

  lemma TrimIsStripped(s: string)
    ensures IsStripped(s, Trim(s))
  {
    var a := TrimLeftStrips(s);
    var b := TrimRightStrips(TrimLeft(s));
    TrimLeftBlank(s);
    assert Trim(s) != "" ==> Trim(s)[0] == TrimLeft(s)[0];
    assert Strips(s, a, Trim(s), b);
  }

  // There is only one such text.
  lemma StrippedIsTrim(s: string, t: string)
    requires IsStripped(s, t)
    ensures t == Trim(s)
  {
    TrimIsStripped(s);
    var a, b :| Strips(s, a, t, b);
    var c, d :| Strips(s, c, Trim(s), d);
    StripsUnique(s, a, t, b, c, Trim(s), d);
  }

  // Where the white space around it is.
  lemma StripsAt(s: string, a: string, t: string, b: string)
    requires Strips(s, a, t, b)
    ensures |s| == |a| + |t| + |b| && s[|a|..|a| + |t|] == t
    ensures forall i :: 0 <= i < |a| || |a| + |t| <= i < |s| ==> IsSpace(s[i])
    ensures t != "" ==> !IsSpace(s[|a|]) && !IsSpace(s[|a| + |t| - 1])
  {
    forall i | 0 <= i < |a| || |a| + |t| <= i < |s|
      ensures IsSpace(s[i])
    {
      assert s[i] == if i < |a| then a[i] else b[i - |a| - |t|];
    }
    assert t != "" ==> s[|a|] == t[0] && s[|a| + |t| - 1] == t[|t| - 1];
  }

  lemma StripsUnique(s: string, a: string, t: string, b: string, c: string, u: string, d: string)
    requires Strips(s, a, t, b) && Strips(s, c, u, d)
    ensures t == u
  {
    StripsAt(s, a, t, b);
    StripsAt(s, c, u, d);
  }

  predicate IsDigit(c: char) { '0' <= c <= '9' }

  // strconv.Itoa of a number that is not negative
  function Itoa(n: nat): (s: string)
    ensures s != "" && forall i :: 0 <= i < |s| ==> IsDigit(s[i])
  {
    var digit := ['0' + (n % 10) as char];
    if n < 10 then digit else Itoa(n / 10) + digit
  }

  // The number the digits stand for.
  function ValueOf(digits: string): nat
    requires forall i :: 0 <= i < |digits| ==> '0' <= digits[i] <= '9'
  {
    if digits == "" then 0 else ValueOf(digits[..|digits| - 1]) * 10 + (digits[|digits| - 1] as int - '0' as int)
  }

  // The text of a number is its decimal one, without leading zeros.
  lemma {:induction false} ItoaIsDecimal(n: nat)
    ensures ValueOf(Itoa(n)) == n && (|Itoa(n)| > 1 ==> Itoa(n)[0] != '0')
  {
    var s := Itoa(n);
    assert s[|s| - 1] == '0' + (n % 10) as char;
    if n >= 10 {
      ItoaIsDecimal(n / 10);
      assert s[..|s| - 1] == Itoa(n / 10);
      assert n / 10 >= 1;
    } else {
      assert s[..0] == "";
    }
  }

  lemma {:induction false} ItoaInjective(a: nat, b: nat)
    requires Itoa(a) == Itoa(b)
    ensures a == b
  {
    var s, t := Itoa(a), Itoa(b);
    assert s[|s| - 1] == '0' + (a % 10) as char && t[|t| - 1] == '0' + (b % 10) as char;
    assert a % 10 == b % 10;
    if a >= 10 && b >= 10 {
      assert Itoa(a / 10) == s[..|s| - 1] && Itoa(b / 10) == t[..|t| - 1];
      ItoaInjective(a / 10, b / 10);
    }
  }
}
