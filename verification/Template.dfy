/**
Placeholder expansion in macro arguments (internal/macro/template.go). The regular expression of line 10, an identifier
or nothing between double braces and blanks, is written as a scanner; what it means is stated apart from it.
*/
module Template {
  import opened Wrappers
  import opened Text

  // A decoded JSON value, or another Go value of which only the JSON text matters. A number carries
  // the text it is printed as.
  datatype Value =
    | Null
    | Str(text: string)
    | Bool(on: bool)
    | Num(text: string)
    | Arr(items: seq<Value>)
    | Obj(members: map<string, Value>)
    | Other(json: string)

  // params and the results of the steps so far; encode is json.Marshal.
  datatype Env = Env(params: map<string, string>, results: map<string, Value>, encode: Value -> string)

  // ---- what a placeholder is

  predicate IsBlankChar(c: char) { c == ' ' || c == '\t' || c == '\n' || c == '\r' || c == '\U{000C}' }

  predicate IsStart(c: char) { 'a' <= c <= 'z' || 'A' <= c <= 'Z' || c == '_' }

  predicate IsWord(c: char) { IsStart(c) || '0' <= c <= '9' || c == '.' }

  predicate Blanks(t: string) { forall i :: 0 <= i < |t| ==> IsBlankChar(t[i]) }

  // An identifier, or nothing.
  predicate IsIdentifier(t: string) {
    (t != "" ==> IsStart(t[0])) && forall i :: 0 <= i < |t| ==> IsWord(t[i])
  }

  // Letters, digits, dots and underscores, with no digit and no dot in front.
  lemma IdentifierIff(t: string)
    ensures IsIdentifier(t) <==> forall i :: 0 <= i < |t| ==> MayStand(t[i], i)
  {
    assert t != "" && MayStand(t[0], 0) ==> IsStart(t[0]);
  }

  predicate MayStand(c: char, at: int) {
    'a' <= c <= 'z' || 'A' <= c <= 'Z' || c == '_' || (at > 0 && ('0' <= c <= '9' || c == '.'))
  }

  ghost predicate IsPlaceholder(t: string, ident: string) {
    exists a, b :: Placed(t, a, ident, b)
  }

  predicate Placed(t: string, a: string, ident: string, b: string) {
    Blanks(a) && Blanks(b) && IsIdentifier(ident) && t == "{{" + a + ident + b + "}}"
  }

  // ---- the scanner

  function SkipBlanks(s: string, i: nat): (j: nat)
    requires i <= |s|
    ensures i <= j <= |s| && (forall k :: i <= k < j ==> IsBlankChar(s[k]))
    ensures j < |s| ==> !IsBlankChar(s[j])
    decreases |s| - i
  {
    if i < |s| && IsBlankChar(s[i]) then SkipBlanks(s, i + 1) else i
  }

  function SkipWord(s: string, i: nat): (j: nat)
    requires i <= |s|
    ensures i <= j <= |s| && (forall k :: i <= k < j ==> IsWord(s[k]))
    ensures j < |s| ==> !IsWord(s[j])
    decreases |s| - i
  {
    if i < |s| && IsWord(s[i]) then SkipWord(s, i + 1) else i
  }

  function SkipIdentifier(s: string, i: nat): (j: nat)
    requires i <= |s|
    ensures i <= j <= |s| && IsIdentifier(s[i..j])
  {
    if i < |s| && IsStart(s[i]) then SkipWord(s, i) else i
  }

  predicate PairAt(s: string, i: nat, c: char) { i + 1 < |s| && s[i] == c && s[i + 1] == c }

  datatype Match = Match(end: nat, ident: string)

  // The match that starts at i, if there is one.
  function MatchAt(s: string, i: nat): (r: Option<Match>)
    ensures r.Some? ==> i < r.value.end <= |s|
  {
    if !PairAt(s, i, '{') then None else
    var from := SkipBlanks(s, i + 2);
    var to := SkipIdentifier(s, from);
    var close := SkipBlanks(s, to);
    if PairAt(s, close, '}') then Some(Match(close + 2, s[from..to])) else None
  }

  lemma Cut(s: string, from: nat, mid: nat, to: nat)
    requires from <= mid <= to <= |s|
    ensures s[from..to] == s[from..mid] + s[mid..to]
  {
  }

  lemma PiecesArePlaced(s: string, i: nat, from: nat, to: nat, e: nat)
    requires i + 2 <= from <= to <= e - 2 <= |s| - 2 && PairAt(s, i, '{') && PairAt(s, e - 2, '}')
    requires forall k :: i + 2 <= k < from || to <= k < e - 2 ==> IsBlankChar(s[k])
    requires IsIdentifier(s[from..to])
    ensures Placed(s[i..e], s[i + 2..from], s[from..to], s[to..e - 2])
  {
    assert s[i..i + 2] == "{{" && s[e - 2..e] == "}}";
    Cut(s, i, i + 2, from);
    Cut(s, i, from, to);
    Cut(s, i, to, e - 2);
    Cut(s, i, e - 2, e);
  }

  lemma MatchIsPlaceholder(s: string, i: nat)
    requires MatchAt(s, i).Some?
    ensures var m := MatchAt(s, i).value;
            IsPlaceholder(s[i..m.end], m.ident)
  {
    var m := MatchAt(s, i).value;
    var from := SkipBlanks(s, i + 2);
    var to := SkipIdentifier(s, from);
    PiecesArePlaced(s, i, from, to, m.end);
    assert Placed(s[i..m.end], s[i + 2..from], m.ident, s[to..m.end - 2]);
  }

  predicate BlanksAt(s: string, from: int, to: int) {
    forall k :: from <= k < to && 0 <= k < |s| ==> IsBlankChar(s[k])
  }

  lemma SliceOfSlice(s: string, a: nat, b: nat, c: nat, d: nat)
    requires a <= b <= |s| && c <= d <= b - a
    ensures s[a..b][c..d] == s[a + c..a + d]
  {
    forall k | 0 <= k < d - c ensures s[a..b][c..d][k] == s[a + c..a + d][k] {
      assert s[a..b][c + k] == s[a + (c + k)];
    }
  }

  // The middle part of a concatenation, seen from the whole.
  lemma PartAt(s: string, at: nat, x: string, y: string, z: string)
    requires at + |x| + |y| + |z| <= |s| && s[at..at + |x| + |y| + |z|] == x + y + z
    ensures s[at + |x|..at + |x| + |y|] == y
  {
    var whole := x + y + z;
    assert whole[|x|..|x| + |y|] == y;
    SliceOfSlice(s, at, at + |whole|, |x|, |x| + |y|);
  }

  lemma PlacedChars(s: string, i: nat, e: nat, a: string, ident: string, b: string)
    requires i <= e <= |s| && Placed(s[i..e], a, ident, b)
    ensures e == i + |a| + |ident| + |b| + 4
    ensures PairAt(s, i, '{') && PairAt(s, e - 2, '}')
    ensures BlanksAt(s, i + 2, i + 2 + |a|)
    ensures s[i + 2 + |a|..i + 2 + |a| + |ident|] == ident
    ensures BlanksAt(s, i + 2 + |a| + |ident|, e - 2)
  {
    var open, close := "{{", "}}";
    Assoc(open + a, ident, b + close);
    Assoc(open + a + ident, b, close);
    Assoc(open, a, ident + b + close);
    Assoc(open + a, ident, b);
    assert s[i..e] == open + a + (ident + b + close);
    PartAt(s, i, open, a, ident + b + close);
    PartAt(s, i, open + a, ident, b + close);
    PartAt(s, i, open + a + ident, b, close);
    assert s[i..e][0] == '{' && s[i..e][1] == '{' && s[i..e][e - i - 2] == '}' && s[i..e][e - i - 1] == '}';
    SliceBlank(s, i + 2, i + 2 + |a|);
    SliceBlank(s, i + 2 + |a| + |ident|, e - 2);
  }

  lemma SliceBlank(s: string, from: nat, to: nat)
    requires from <= to <= |s| && Blanks(s[from..to])
    ensures BlanksAt(s, from, to)
  {
    assert forall k :: from <= k < to ==> s[k] == s[from..to][k - from];
  }

  lemma {:induction false} BlanksEndAt(s: string, i: nat, j: nat)
    requires i <= j <= |s| && BlanksAt(s, i, j) && (j < |s| ==> !IsBlankChar(s[j]))
    ensures SkipBlanks(s, i) == j
    decreases j - i
  {
    if i < j { BlanksEndAt(s, i + 1, j); }
  }

  lemma {:induction false} WordEndsAt(s: string, i: nat, j: nat)
    requires i <= j <= |s| && (forall k :: i <= k < j ==> IsWord(s[k])) && (j < |s| ==> !IsWord(s[j]))
    ensures SkipWord(s, i) == j
    decreases j - i
  {
    if i < j { WordEndsAt(s, i + 1, j); }
  }

  lemma EmptyIsMatched(s: string, i: nat, e: nat)
    requires i + 4 <= e <= |s| && PairAt(s, i, '{') && PairAt(s, e - 2, '}')
    requires BlanksAt(s, i + 2, e - 2)
    ensures MatchAt(s, i) == Some(Match(e, ""))
  {
    BlanksEndAt(s, i + 2, e - 2);
    BlanksEndAt(s, e - 2, e - 2);
    assert s[e - 2..e - 2] == "";
  }

  lemma NamedIsMatched(s: string, i: nat, from: nat, to: nat, e: nat)
    requires i + 2 <= from < to <= e - 2 <= |s| - 2 && PairAt(s, i, '{') && PairAt(s, e - 2, '}')
    requires BlanksAt(s, i + 2, from) && BlanksAt(s, to, e - 2)
    requires IsStart(s[from]) && forall k :: from <= k < to ==> IsWord(s[k])
    ensures MatchAt(s, i) == Some(Match(e, s[from..to]))
  {
    BlanksEndAt(s, i + 2, from);
    WordEndsAt(s, from, to);
    BlanksEndAt(s, to, e - 2);
  }

  // Where a placeholder starts there is only one, and the scanner finds it with its identifier.
  lemma PlaceholderIsMatched(s: string, i: nat, e: nat, ident: string)
    requires i <= e <= |s| && IsPlaceholder(s[i..e], ident)
    ensures MatchAt(s, i) == Some(Match(e, ident))
  {
    var a, b :| Placed(s[i..e], a, ident, b);
    PlacedChars(s, i, e, a, ident, b);
    var from := i + 2 + |a|;
    var to := from + |ident|;
    if ident == "" {
      EmptyIsMatched(s, i, e);
    } else {
      forall k | from <= k < to ensures IsWord(s[k]) { assert s[k] == ident[k - from]; }
      assert s[from] == ident[0];
      NamedIsMatched(s, i, from, to, e);
    }
  }

  lemma WholeIsMatched(t: string, ident: string)
    requires IsPlaceholder(t, ident)
    ensures MatchAt(t, 0) == Some(Match(|t|, ident))
  {
    assert t[0..|t|] == t;
    PlaceholderIsMatched(t, 0, |t|, ident);
  }

  lemma MatchedAgain(s: string, i: nat, e: nat, ident: string)
    requires i <= e <= |s| && IsPlaceholder(s[i..e], ident)
    ensures MatchAt(s[i..e], 0) == Some(Match(e - i, ident))
  {
    WholeIsMatched(s[i..e], ident);
  }

  // The replacement callback matches the matched text a second time; it finds the same identifier.
  lemma SecondMatchAgrees(s: string, i: nat)
    requires MatchAt(s, i).Some?
    ensures var m := MatchAt(s, i).value;
            MatchAt(s[i..m.end], 0) == Some(Match(m.end - i, m.ident))
  {
    var m := MatchAt(s, i).value;
    MatchIsPlaceholder(s, i);
    MatchedAgain(s, i, m.end, m.ident);
  }

  // ---- what an identifier stands for

  function AnyToString(v: Value, encode: Value -> string): string {
    match v
    case Null => ""
    case Str(text) => text
    case Bool(on) => if on then "true" else "false"
    case Num(text) => text
    case _ => encode(v)
  }

  function Unwrapped(v: Value): Option<Value> {
    if !v.Arr? then Some(v) else if v.items == [] then None else Some(v.items[0])
  }

  function Member(v: Value, field: string): Option<Value> {
    match Unwrapped(v)
    case Some(Obj(members)) => if field in members && !members[field].Null? then Some(members[field]) else None
    case _ => None
  }

  // The value a path leads to; None when it leads nowhere.
  function Walk(v: Value, fields: seq<string>): Option<Value> {
    if fields == [] then Some(v) else
    match Member(v, fields[0])
    case Some(u) => Walk(u, fields[1..])
    case None => None
  }

  function Shown(leaf: Option<Value>, encode: Value -> string): string {
    match leaf
    case Some(v) => AnyToString(v, encode)
    case None => ""
  }

  method ExtractField(root: Value, fields: seq<string>, encode: Value -> string) returns (r: string)
    ensures r == Shown(Walk(root, fields), encode)
  {
    var v := root;
    for i := 0 to |fields|
      invariant Walk(root, fields) == Walk(v, fields[i..])
    {
      assert fields[i..][1..] == fields[i + 1..];
      if v.Arr? {
        if |v.items| == 0 {
          return "";
        }
        v := v.items[0];
      }
      if !v.Obj? || fields[i] !in v.members || v.members[fields[i]].Null? {
        return "";
      }
      v := v.members[fields[i]];
    }
    r := AnyToString(v, encode);
  }

  lemma {:induction false} WalkInTwo(v: Value, a: seq<string>, b: seq<string>)
    ensures Walk(v, a + b) == match Walk(v, a) case Some(u) => Walk(u, b) case None => None
  {
    if a == [] {
      assert a + b == b;
    } else {
      assert (a + b)[1..] == a[1..] + b;
      match Member(v, a[0])
      case Some(u) => WalkInTwo(u, a[1..], b);
      case None =>
    }
  }

  // The documented reading: an array at any level, the last one included, stands for its first element.
  function Documented(v: Value, fields: seq<string>): Option<Value>
    decreases |fields|
  {
    match Unwrapped(v)
    case None => None
    case Some(u) =>
      if fields == [] then Some(u)
      else if u.Obj? && fields[0] in u.members && !u.members[fields[0]].Null?
      then Documented(u.members[fields[0]], fields[1..])
      else None
  }

  // The path leads to an array.
  predicate EndsInArray(v: Value, fields: seq<string>)
    requires fields != []
    decreases |fields|, v
  {
    match v
    case Obj(members) =>
      fields[0] in members &&
      (if |fields| == 1 then members[fields[0]].Arr? else EndsInArray(members[fields[0]], fields[1..]))
    case Arr(items) => items != [] && items[0].Obj? && EndsInArray(items[0], fields)
    case _ => false
  }

  // As in JSON: the text of an array is longer than what its first element is shown as.
  ghost predicate ArraysShowLonger(encode: Value -> string) {
    forall items {:trigger encode(Arr(items))} :: |encode(Arr(items))| > |Shown(Unwrapped(Arr(items)), encode)|
  }

  lemma {:induction false} DocumentedUnwraps(v: Value, fields: seq<string>)
    ensures Documented(v, fields) == match Walk(v, fields) case Some(leaf) => Unwrapped(leaf) case None => None
    decreases |fields|
  {
    if fields != [] {
      match Member(v, fields[0])
      case Some(u) => DocumentedUnwraps(u, fields[1..]);
      case None =>
    }
  }

  lemma {:induction false} EndsInArrayIff(v: Value, fields: seq<string>)
    requires fields != []
    ensures EndsInArray(v, fields) <==> Walk(v, fields).Some? && Walk(v, fields).value.Arr?
    decreases |fields|, v
  {
    match v
    case Obj(members) =>
      if fields[0] in members {
        assert fields[1..] == [] ==> Walk(members[fields[0]], fields[1..]) == Some(members[fields[0]]);
        if |fields| > 1 {
          EndsInArrayIff(members[fields[0]], fields[1..]);
          NothingInNull(fields[1..]);
        }
      }
    case Arr(items) =>
      if items != [] && items[0].Obj? {
        EndsInArrayIff(items[0], fields);
        assert Member(v, fields[0]) == Member(items[0], fields[0]);
      }
    case _ =>
  }

  lemma NothingInNull(fields: seq<string>)
    requires fields != []
    ensures Walk(Null, fields).None?
  {
  }

  // The text for a path is the documented one exactly when the path does not end in an array.
  lemma ReadAsDocumentedIff(v: Value, fields: seq<string>, encode: Value -> string)
    requires fields != [] && ArraysShowLonger(encode)
    ensures Shown(Walk(v, fields), encode) == Shown(Documented(v, fields), encode) <==> !EndsInArray(v, fields)
  {
    DocumentedUnwraps(v, fields);
    EndsInArrayIff(v, fields);
    if EndsInArray(v, fields) {
      var items := Walk(v, fields).value.items;
      assert |encode(Arr(items))| > |Shown(Unwrapped(Arr(items)), encode)|;
    }
  }

  // {"f": ["x"]} read at f gives ["x"] where the documentation promises x.
  lemma ArrayIsShownWhole(encode: Value -> string)
    requires encode(Arr([Str("x")])) == "[\"x\"]"
    ensures var v := Obj(map["f" := Arr([Str("x")])]);
            Shown(Walk(v, ["f"]), encode) == "[\"x\"]" && Shown(Documented(v, ["f"]), encode) == "x"
  {
    var leaf := Arr([Str("x")]);
    var v := Obj(map["f" := leaf]);
    assert ["f"][1..] == [];
    assert Walk(leaf, []) == Some(leaf) && Documented(leaf, []) == Some(Str("x"));
    assert Member(v, "f") == Some(leaf);
  }

  // One more field on the path, and the array is unwrapped in both readings.
  lemma OneMoreFieldUnwraps(v: Value, fields: seq<string>, field: string)
    ensures Walk(v, fields + [field]) ==
            match Documented(v, fields) case Some(u) => (if u.Arr? then None else Member(u, field)) case None => None
  {
    DocumentedUnwraps(v, fields);
    WalkInTwo(v, fields, [field]);
  }

  predicate NoDotIn(s: string, from: int, to: int) { forall k :: from <= k < to && 0 <= k < |s| ==> s[k] != '.' }

  lemma PartEnds(s: string, start: nat, i: nat)
    requires start <= i <= |s| && NoDotIn(s, start, i) && (i < |s| ==> s[i] == '.')
    ensures Split(s[start..], ".") == if i < |s| then [s[start..i]] + Split(s[i + 1..], ".") else [s[start..]]
  {
    var rest := s[start..];
    assert rest[..i - start] == s[start..i];
    FirstAt(rest, '.', i - start);
    assert i < |s| ==> rest[i - start + 1..] == s[i + 1..];
  }

  // parts holds what was split off before start; there is no dot between start and i.
  predicate SplitSoFar(s: string, parts: seq<string>, start: nat, i: nat) {
    start <= i <= |s| && NoDotIn(s, start, i) && parts + Split(s[start..], ".") == Split(s, ".")
  }

  lemma SplitAtDot(s: string, parts: seq<string>, start: nat, i: nat)
    requires SplitSoFar(s, parts, start, i) && i < |s| && s[i] == '.'
    ensures SplitSoFar(s, parts + [s[start..i]], i + 1, i + 1)
  {
    PartEnds(s, start, i);
    Assoc(parts, [s[start..i]], Split(s[i + 1..], "."));
  }

  lemma SplitAtEnd(s: string, parts: seq<string>, start: nat)
    requires SplitSoFar(s, parts, start, |s|)
    ensures parts + [s[start..]] == Split(s, ".")
  {
    PartEnds(s, start, |s|);
  }

  lemma SplitBegins(s: string)
    ensures SplitSoFar(s, [], 0, 0)
  {
    assert s[0..] == s;
  }

  lemma SplitGoesOn(s: string, parts: seq<string>, start: nat, i: nat)
    requires SplitSoFar(s, parts, start, i) && i < |s| && s[i] != '.'
    ensures SplitSoFar(s, parts, start, i + 1)
  {
  }

  method SplitDot(s: string) returns (parts: seq<string>)
    ensures parts == Split(s, ".")
  {
    parts := [];
    var start := 0;
    SplitBegins(s);
    for i := 0 to |s|
      invariant SplitSoFar(s, parts, start, i)
    {
      if s[i] == '.' {
        SplitAtDot(s, parts, start, i);
        parts := parts + [s[start..i]];
        start := i + 1;
      } else {
        SplitGoesOn(s, parts, start, i);
      }
    }
    SplitAtEnd(s, parts, start);
    parts := parts + [s[start..]];
  }

  // The parts between dots: joined they give the identifier back, and no other dot-free list does.
  lemma PartsAreUnique(s: string, parts: seq<string>)
    requires parts != []
    ensures Join(parts, ".") == s && Free(parts, '.') <==> parts == Split(s, ".")
  {
    JoinSplit(s, ".");
    SplitIsFree(s, '.');
    if Free(parts, '.') {
      SplitOnly(parts, '.');
    }
  }

  // Parameters hide step results, but only for an identifier without a dot.
  function Resolved(ident: string, env: Env): string {
    if ident == "" then "" else
    var parts := Split(ident, ".");
    var name, fields := parts[0], parts[1..];
    if fields == [] && name in env.params then env.params[name]
    else if name in env.results then Shown(Walk(env.results[name], fields), env.encode)
    else ""
  }

  // One field further into a value, seen through one array if there is one.
  predicate StepsTo(v: Value, field: string, u: Value) {
    && !u.Null?
    && ((v.Obj? && field in v.members && v.members[field] == u)
        || (v.Arr? && v.items != [] && v.items[0].Obj? &&
            field in v.items[0].members && v.items[0].members[field] == u))
  }

  // The chain holds the values met on the way from v along the fields.
  predicate LeadsOn(v: Value, fields: seq<string>, chain: seq<Value>) {
    |chain| == |fields| + 1 && chain[0] == v && forall i ::
      0 <= i < |fields| ==> StepsTo(chain[i], fields[i], chain[i + 1])
  }

  // How a value is written into a string.
  predicate IsText(v: Value, encode: Value -> string, text: string) {
    && (v.Null? ==> text == "")
    && (v.Str? ==> text == v.text)
    && (v.Bool? ==> text == if v.on then "true" else "false")
    && (v.Num? ==> text == v.text)
    && (v.Arr? || v.Obj? || v.Other? ==> text == encode(v))
  }

  // The text for a path: that of the value it leads to, and nothing when it leads nowhere.
  ghost predicate IsRead(v: Value, fields: seq<string>, encode: Value -> string, text: string) {
    && (forall chain :: LeadsOn(v, fields, chain) ==> IsText(chain[|fields|], encode, text))
    && ((forall chain :: !LeadsOn(v, fields, chain)) ==> text == "")
  }

  // What the parts between the dots of an identifier stand for.
  ghost predicate IsMeant(parts: seq<string>, env: Env, text: string)
    requires parts != []
  {
    if parts == [""] then text == ""
    else if |parts| == 1 && parts[0] in env.params then text == env.params[parts[0]]
    else if parts[0] in env.results then IsRead(env.results[parts[0]], parts[1..], env.encode, text)
    else text == ""
  }

  lemma {:induction false} WalkIsChain(v: Value, fields: seq<string>, chain: seq<Value>)
    requires LeadsOn(v, fields, chain)
    ensures Walk(v, fields) == Some(chain[|fields|])
    decreases |fields|
  {
    if fields != [] {
      assert StepsTo(chain[0], fields[0], chain[1]);
      assert Member(v, fields[0]) == Some(chain[1]);
      assert LeadsOn(chain[1], fields[1..], chain[1..]);
      WalkIsChain(chain[1], fields[1..], chain[1..]);
    }
  }

  lemma {:induction false} ChainExists(v: Value, fields: seq<string>) returns (chain: seq<Value>)
    requires Walk(v, fields).Some?
    ensures LeadsOn(v, fields, chain)
    decreases |fields|
  {
    chain := [v];
    if fields != [] {
      var u := Member(v, fields[0]).value;
      var rest := ChainExists(u, fields[1..]);
      chain := chain + rest;
      assert StepsTo(v, fields[0], u);
      forall i | 0 <= i < |fields|
        ensures StepsTo(chain[i], fields[i], chain[i + 1])
      {
        assert i > 0 ==> StepsTo(rest[i - 1], fields[1..][i - 1], rest[i]);
      }
    }
  }

  lemma ReadExact(v: Value, fields: seq<string>, encode: Value -> string)
    ensures IsRead(v, fields, encode, Shown(Walk(v, fields), encode))
  {
    forall chain | LeadsOn(v, fields, chain)
      ensures IsText(chain[|fields|], encode, Shown(Walk(v, fields), encode))
    {
      WalkIsChain(v, fields, chain);
    }
    if Walk(v, fields).Some? {
      var chain := ChainExists(v, fields);
      assert LeadsOn(v, fields, chain);
    }
  }

  // An identifier stands for a parameter if it has no dot and there is one of that name; otherwise for what
  // its fields lead to in the result of the step it names, and for nothing if there is none.
  lemma ResolvedExact(ident: string, parts: seq<string>, env: Env)
    requires parts != [] && Join(parts, ".") == ident && Free(parts, '.')
    ensures IsMeant(parts, env, Resolved(ident, env))
  {
    PartsAreUnique(ident, parts);
    if ident == "" { assert Split("", ".") == [""]; }
    if parts[0] in env.results { ReadExact(env.results[parts[0]], parts[1..], env.encode); }
  }

  // ---- one string

  // The text that takes the place of a match.
  function Replacement(found: string, env: Env): string {
    match MatchAt(found, 0)
    case Some(m) => Resolved(m.ident, env)
    case None => ""
  }

  // Leftmost matches first, each once, going on behind it.
  function Interpolated(s: string, i: nat, env: Env): string
    requires i <= |s|
    decreases |s| - i
  {
    if i == |s| then "" else
    match MatchAt(s, i)
    case Some(m) => Replacement(s[i..m.end], env) + Interpolated(s, m.end, env)
    case None => [s[i]] + Interpolated(s, i + 1, env)
  }

  datatype Hole = Hole(at: nat, end: nat, ident: string)

  ghost predicate HoleIn(s: string, h: Hole) {
    h.at < h.end <= |s| && IsPlaceholder(s[h.at..h.end], h.ident)
  }

  ghost predicate StartsNone(s: string, p: nat) {
    forall e, ident :: p <= e <= |s| ==> !IsPlaceholder(s[p..e], ident)
  }

  predicate Covered(holes: seq<Hole>, p: nat) {
    exists k :: 0 <= k < |holes| && holes[k].at <= p < holes[k].end
  }

  // From position `from` on, the holes are placeholders, in order and apart, and no placeholder
  // starts at any position outside them.
  ghost predicate Leftmost(s: string, from: nat, holes: seq<Hole>) {
    && (forall k :: 0 <= k < |holes| ==> from <= holes[k].at && HoleIn(s, holes[k]))
    && (forall k, l :: 0 <= k < l < |holes| ==> holes[k].end <= holes[l].at)
    && (forall p: nat :: from <= p < |s| && !Covered(holes, p) ==> StartsNone(s, p))
  }

  function Between(s: string, from: nat, to: nat): string {
    if from <= to <= |s| then s[from..to] else ""
  }

  // s from `from` on with every hole filled in and all other text kept.
  function Woven(s: string, from: nat, holes: seq<Hole>, value: string -> string): string
    decreases |holes|
  {
    if holes == [] then Between(s, from, |s|)
    else Between(s, from, holes[0].at) + value(holes[0].ident) + Woven(s, holes[0].end, holes[1..], value)
  }

  lemma WovenStep(s: string, i: nat, holes: seq<Hole>, value: string -> string)
    requires i < |s| && (holes != [] ==> i < holes[0].at <= |s|)
    ensures Woven(s, i, holes, value) == [s[i]] + Woven(s, i + 1, holes, value)
  {
    if holes == [] {
      assert s[i..] == [s[i]] + s[i + 1..];
    } else {
      assert s[i..holes[0].at] == [s[i]] + s[i + 1..holes[0].at];
    }
  }

  lemma CoveredByTail(holes: seq<Hole>, p: nat)
    requires holes != []
    ensures Covered(holes, p) <==> holes[0].at <= p < holes[0].end || Covered(holes[1..], p)
  {
    var rest := holes[1..];
    if Covered(holes, p) {
      var k :| 0 <= k < |holes| && holes[k].at <= p < holes[k].end;
      assert k > 0 ==> holes[k] == rest[k - 1];
    }
    if Covered(rest, p) {
      var k :| 0 <= k < |rest| && rest[k].at <= p < rest[k].end;
      assert holes[k + 1] == rest[k];
    }
  }

  lemma StartsNoneIff(s: string, p: nat)
    requires p <= |s|
    ensures StartsNone(s, p) <==> MatchAt(s, p).None?
  {
    if MatchAt(s, p).Some? {
      MatchIsPlaceholder(s, p);
    }
    forall e: nat, ident | p <= e <= |s| && IsPlaceholder(s[p..e], ident)
      ensures MatchAt(s, p).Some?
    {
      PlaceholderIsMatched(s, p, e, ident);
    }
  }

  // Every string has such holes, so what is said of them is said of every string.
  function HolesFrom(s: string, i: nat): (holes: seq<Hole>)
    requires i <= |s|
    ensures holes != [] ==> i <= holes[0].at < |s|
    decreases |s| - i
  {
    if i == |s| then [] else
    match MatchAt(s, i)
    case Some(m) => [Hole(i, m.end, m.ident)] + HolesFrom(s, m.end)
    case None => HolesFrom(s, i + 1)
  }

  lemma LeftmostCons(s: string, i: nat, rest: seq<Hole>)
    requires i < |s| && MatchAt(s, i).Some? && Leftmost(s, MatchAt(s, i).value.end, rest)
    ensures Leftmost(s, i, [Hole(i, MatchAt(s, i).value.end, MatchAt(s, i).value.ident)] + rest)
  {
    var m := MatchAt(s, i).value;
    var holes := [Hole(i, m.end, m.ident)] + rest;
    MatchIsPlaceholder(s, i);
    forall k | 0 <= k < |holes|
      ensures i <= holes[k].at && HoleIn(s, holes[k]) && (k > 0 ==> holes[0].end <= holes[k].at)
    {
      assert k > 0 ==> holes[k] == rest[k - 1];
    }
    forall p: nat | i <= p < |s| && !Covered(holes, p)
      ensures StartsNone(s, p)
    {
      CoveredByTail(holes, p);
      assert holes[1..] == rest;
    }
  }

  lemma LeftmostSkip(s: string, i: nat, holes: seq<Hole>)
    requires i < |s| && MatchAt(s, i).None? && Leftmost(s, i + 1, holes)
    ensures Leftmost(s, i, holes)
  {
    StartsNoneIff(s, i);
  }

  lemma {:induction false} HolesAreLeftmost(s: string, i: nat)
    requires i <= |s|
    ensures Leftmost(s, i, HolesFrom(s, i))
    decreases |s| - i
  {
    if i < |s| {
      match MatchAt(s, i)
      case Some(m) =>
        HolesAreLeftmost(s, m.end);
        LeftmostCons(s, i, HolesFrom(s, m.end));
      case None =>
        HolesAreLeftmost(s, i + 1);
        LeftmostSkip(s, i, HolesFrom(s, i + 1));
    }
  }

  function Values(env: Env): string -> string { ident => Resolved(ident, env) }

  lemma InterpolatedStep(s: string, i: nat, env: Env)
    requires i < |s|
    ensures Interpolated(s, i, env) ==
              match MatchAt(s, i)
              case Some(m) => Values(env)(m.ident) + Interpolated(s, m.end, env)
              case None => [s[i]] + Interpolated(s, i + 1, env)
  {
    if MatchAt(s, i).Some? {
      SecondMatchAgrees(s, i);
    }
  }

  lemma WovenFirst(s: string, i: nat, holes: seq<Hole>, value: string -> string)
    requires i <= |s| && holes != [] && holes[0].at == i
    ensures Woven(s, i, holes, value) == value(holes[0].ident) + Woven(s, holes[0].end, holes[1..], value)
  {
    assert Between(s, i, i) == "";
  }

  lemma {:induction false} InterpolatedIsWoven(s: string, i: nat, env: Env)
    requires i <= |s|
    ensures Interpolated(s, i, env) == Woven(s, i, HolesFrom(s, i), Values(env))
    decreases |s| - i
  {
    if i < |s| {
      InterpolatedStep(s, i, env);
      var holes := HolesFrom(s, i);
      match MatchAt(s, i)
      case Some(m) =>
        InterpolatedIsWoven(s, m.end, env);
        WovenFirst(s, i, holes, Values(env));
        assert holes[1..] == HolesFrom(s, m.end);
      case None =>
        InterpolatedIsWoven(s, i + 1, env);
        WovenStep(s, i, holes, Values(env));
    }
  }

  lemma FirstIsFirst(s: string, i: nat, holes: seq<Hole>, k: nat)
    requires Leftmost(s, i, holes) && k < |holes|
    ensures i <= holes[0].at <= holes[k].at && HoleIn(s, holes[0])
  {
    assert HoleIn(s, holes[0]);
  }

  lemma MatchedFirst(s: string, i: nat, holes: seq<Hole>)
    requires i < |s| && Leftmost(s, i, holes) && MatchAt(s, i).Some?
    ensures var m := MatchAt(s, i).value;
            holes != [] && holes[0] == Hole(i, m.end, m.ident) && Leftmost(s, m.end, holes[1..])
  {
    StartsNoneIff(s, i);
    assert Covered(holes, i);
    var k :| 0 <= k < |holes| && holes[k].at <= i < holes[k].end;
    FirstIsFirst(s, i, holes, k);
    PlaceholderIsMatched(s, i, holes[0].end, holes[0].ident);
    var m, rest := MatchAt(s, i).value, holes[1..];
    forall p: nat | m.end <= p < |s| && !Covered(rest, p)
      ensures StartsNone(s, p)
    {
      CoveredByTail(holes, p);
    }
  }

  lemma UnmatchedFirst(s: string, i: nat, holes: seq<Hole>)
    requires i < |s| && Leftmost(s, i, holes) && MatchAt(s, i).None?
    ensures Leftmost(s, i + 1, holes) && (holes != [] ==> holes[0].at > i)
  {
    forall k | 0 <= k < |holes|
      ensures holes[k].at > i
    {
      assert HoleIn(s, holes[k]);
      if holes[k].at == i {
        PlaceholderIsMatched(s, i, holes[k].end, holes[k].ident);
      }
    }
  }

  lemma NoneAtEnd(s: string, holes: seq<Hole>)
    requires Leftmost(s, |s|, holes)
    ensures holes == []
  {
    if holes != [] {
      FirstIsFirst(s, |s|, holes, 0);
    }
  }

  lemma {:induction false} LeftmostIsUnique(s: string, i: nat, holes: seq<Hole>)
    requires i <= |s| && Leftmost(s, i, holes)
    ensures holes == HolesFrom(s, i)
    decreases |s| - i
  {
    if i < |s| {
      match MatchAt(s, i)
      case Some(m) =>
        MatchedFirst(s, i, holes);
        LeftmostIsUnique(s, m.end, holes[1..]);
      case None =>
        UnmatchedFirst(s, i, holes);
        LeftmostIsUnique(s, i + 1, holes);
    } else {
      NoneAtEnd(s, holes);
    }
  }

  // The result is the template with each leftmost placeholder replaced once by what its identifier
  // stands for and everything else kept in place: inserted text is never looked at again.
  lemma InterpolationIsExact(s: string, env: Env, holes: seq<Hole>)
    requires Leftmost(s, 0, holes)
    ensures Interpolated(s, 0, env) == Woven(s, 0, holes, Values(env))
  {
    LeftmostIsUnique(s, 0, holes);
    InterpolatedIsWoven(s, 0, env);
  }

  // ---- an argument map

  // Strings are interpolated, everything else is passed through as it is.
  function InterpolatedArgs(args: map<string, Value>, env: Env): map<string, Value> {
    map k | k in args :: InterpolatedArg(args[k], env)
  }

  function InterpolatedArg(v: Value, env: Env): Value {
    if v.Str? then Str(Interpolated(v.text, 0, env)) else v
  }

  method InterpolateArgs(args: map<string, Value>, env: Env) returns (result: map<string, Value>)
    ensures result == InterpolatedArgs(args, env)
  {
    result := map[];
    var rest := args.Keys;
    while rest != {}
      invariant rest <= args.Keys && result.Keys == args.Keys - rest
      invariant forall k :: k in result ==> result[k] == InterpolatedArg(args[k], env)
      decreases |rest|
    {
      var k :| k in rest;
      match args[k] {
        case Str(text) => result := result[k := Str(Interpolated(text, 0, env))];
        case _ => result := result[k := args[k]];
      }
      rest := rest - {k};
    }
  }

  // The documented reading: all strings, at any depth.
  function Deep(v: Value, env: Env): Value
    decreases v
  {
    match v
    case Str(text) => Str(Interpolated(text, 0, env))
    case Arr(items) => Arr(seq(|items|, i requires 0 <= i < |items| => Deep(items[i], env)))
    case Obj(members) => Obj(map k | k in members :: Deep(members[k], env))
    case _ => v
  }

  function DeepArgs(args: map<string, Value>, env: Env): map<string, Value> {
    map k | k in args :: Deep(args[k], env)
  }

  // No string in v is changed by interpolation.
  predicate Stable(v: Value, env: Env)
    decreases v
  {
    match v
    case Str(text) => Interpolated(text, 0, env) == text
    case Arr(items) => forall i :: 0 <= i < |items| ==> Stable(items[i], env)
    case Obj(members) => forall k :: k in members ==> Stable(members[k], env)
    case _ => true
  }

  lemma {:induction false} StableIff(v: Value, env: Env)
    ensures Deep(v, env) == v <==> Stable(v, env)
    decreases v
  {
    match v
    case Arr(items) =>
      forall i | 0 <= i < |items| ensures Deep(items[i], env) == items[i] <==> Stable(items[i], env) {
        StableIff(items[i], env);
      }
      var deep := Deep(v, env).items;
      assert deep == items <==> forall i :: 0 <= i < |items| ==> deep[i] == items[i];
    case Obj(members) =>
      forall k | k in members ensures Deep(members[k], env) == members[k] <==> Stable(members[k], env) {
        StableIff(members[k], env);
      }
      var deep := Deep(v, env).members;
      assert deep == members <==> forall k :: k in members ==> deep[k] == members[k];
    case _ =>
  }

  // The code does what its comment says, interpolating recursively, exactly when no string inside a
  // list or an object would be changed by it.
  lemma RecursiveIff(args: map<string, Value>, env: Env)
    ensures InterpolatedArgs(args, env) == DeepArgs(args, env) <==>
            forall k :: k in args && !args[k].Str? ==> Stable(args[k], env)
  {
    forall k | k in args && !args[k].Str? ensures Deep(args[k], env) == args[k] <==> Stable(args[k], env) {
      StableIff(args[k], env);
    }
    var flat, deep := InterpolatedArgs(args, env), DeepArgs(args, env);
    assert flat == deep <==> forall k :: k in args ==> flat[k] == deep[k];
  }

  lemma OnePlaceholder(env: Env)
    requires "x" in env.params
    ensures Interpolated("{{x}}", 0, env) == env.params["x"]
  {
    var s := "{{x}}";
    assert Placed(s, "", "x", "");
    WholeIsMatched(s, "x");
    assert s[0..5] == s;
    SplitOnly(["x"], '.');
    assert Resolved("x", env) == env.params["x"];
    assert Interpolated(s, 5, env) == "";
  }

  lemma ListOfOne(text: string, env: Env)
    ensures Deep(Arr([Str(text)]), env) == Arr([Str(Interpolated(text, 0, env))])
    ensures Interpolated(text, 0, env) != text ==> Deep(Arr([Str(text)]), env) != Arr([Str(text)])
  {
    assert Deep(Str(text), env) == Str(Interpolated(text, 0, env));
    assert Deep(Arr([Str(text)]), env).items == [Str(Interpolated(text, 0, env))];
    assert [Str(text)][0] == Str(text);
    assert [Str(Interpolated(text, 0, env))][0] == Str(Interpolated(text, 0, env));
  }

  lemma OneArg(key: string, v: Value, env: Env)
    requires !v.Str?
    ensures InterpolatedArgs(map[key := v], env) == map[key := v] &&
            DeepArgs(map[key := v], env) == map[key := Deep(v, env)]
    ensures Deep(v, env) != v ==> DeepArgs(map[key := v], env) != map[key := v]
  {
    assert DeepArgs(map[key := v], env)[key] == Deep(v, env);
  }

  // A placeholder in a list stays as it is.
  lemma NestedPlaceholderStays(env: Env)
    requires "x" in env.params && env.params["x"] != "{{x}}"
    ensures var args := map["a" := Arr([Str("{{x}}")])];
            InterpolatedArgs(args, env) == args &&
              DeepArgs(args, env) == map["a" := Arr([Str(env.params["x"])])] != args
  {
    OnePlaceholder(env);
    ListOfOne("{{x}}", env);
    OneArg("a", Arr([Str("{{x}}")]), env);
  }

  // ---- what the result can depend on

  function FirstName(ident: string): string { Split(ident, ".")[0] }

  predicate NamedIn(s: string, name: string) {
    exists k :: 0 <= k < |HolesFrom(s, 0)| && FirstName(HolesFrom(s, 0)[k].ident) == name
  }

  predicate AgreeOn(name: string, e: Env, f: Env) {
    && (name in e.params <==> name in f.params) && (name in e.params ==> e.params[name] == f.params[name])
    && (name in e.results <==> name in f.results) && (name in e.results ==> e.results[name] == f.results[name])
  }

  lemma ReadsOneName(ident: string, e: Env, f: Env)
    requires e.encode == f.encode && AgreeOn(FirstName(ident), e, f)
    ensures Values(e)(ident) == Values(f)(ident)
  {
  }

  lemma {:induction false} WovenSame(s: string, from: nat, holes: seq<Hole>, v: string -> string, w: string -> string)
    requires forall k :: 0 <= k < |holes| ==> v(holes[k].ident) == w(holes[k].ident)
    ensures Woven(s, from, holes, v) == Woven(s, from, holes, w)
    decreases |holes|
  {
    if holes != [] {
      WovenSame(s, holes[0].end, holes[1..], v, w);
    }
  }

  // A string reads no parameter and no result that its own placeholders do not name.
  lemma ReadsNamedOnly(s: string, e: Env, f: Env)
    requires e.encode == f.encode && forall name :: NamedIn(s, name) ==> AgreeOn(name, e, f)
    ensures Interpolated(s, 0, e) == Interpolated(s, 0, f)
  {
    var holes := HolesFrom(s, 0);
    forall k | 0 <= k < |holes|
      ensures Values(e)(holes[k].ident) == Values(f)(holes[k].ident)
    {
      assert NamedIn(s, FirstName(holes[k].ident));
      ReadsOneName(holes[k].ident, e, f);
    }
    WovenSame(s, 0, holes, Values(e), Values(f));
    InterpolatedIsWoven(s, 0, e);
    InterpolatedIsWoven(s, 0, f);
  }

  predicate NamedInArgs(args: map<string, Value>, name: string) {
    exists k :: k in args && args[k].Str? && NamedIn(args[k].text, name)
  }

  lemma ArgsReadNamedOnly(args: map<string, Value>, e: Env, f: Env)
    requires e.encode == f.encode && forall name :: NamedInArgs(args, name) ==> AgreeOn(name, e, f)
    ensures InterpolatedArgs(args, e) == InterpolatedArgs(args, f)
  {
    forall k | k in args
      ensures InterpolatedArg(args[k], e) == InterpolatedArg(args[k], f)
    {
      if args[k].Str? {
        forall name | NamedIn(args[k].text, name)
          ensures AgreeOn(name, e, f)
        {
          assert NamedInArgs(args, name);
        }
        ReadsNamedOnly(args[k].text, e, f);
      }
    }
  }
}
