/**
Cutting a Markdown document into chunks (internal/rag/chunk.go).
*/
module Chunking {
  import opened Wrappers
  import opened Text

  const MAX_CHUNK_RUNES := 6000
  const BREAK := "\n\n"

  // ---- packing paragraphs

  // A group of paragraphs may become one piece if it fits, or if it is a single paragraph: one that
  // is too long on its own is not cut.
  predicate Admissible(group: seq<string>) {
    group != [] && (|group| == 1 || |Join(group, BREAK)| <= MAX_CHUNK_RUNES)
  }

  predicate AllAdmissible(groups: seq<seq<string>>) {
    forall i :: 0 <= i < |groups| ==> Admissible(groups[i])
  }

  function Pieces(groups: seq<seq<string>>): seq<string> {
    seq(|groups|, i requires 0 <= i < |groups| => Join(groups[i], BREAK))
  }

  // The groups the loop makes from the open group acc and the paragraphs ps still to come.
  function Packed(acc: seq<string>, ps: seq<string>): seq<seq<string>>
    decreases |ps|
  {
    if ps == [] then (if acc == [] then [] else [acc])
    else if acc != [] && !Admissible(acc + [ps[0]]) then [acc] + Packed([ps[0]], ps[1..])
    else Packed(acc + [ps[0]], ps[1..])
  }

  lemma {:induction false} PackedIsSplit(acc: seq<string>, ps: seq<string>)
    requires acc == [] || Admissible(acc)
    ensures Flatten(Packed(acc, ps)) == acc + ps
    ensures AllAdmissible(Packed(acc, ps))
    decreases |ps|
  {
    if ps == [] {
      assert acc + ps == acc;
      if acc != [] { assert Flatten([acc]) == acc + Flatten([]); }
    } else if acc != [] && !Admissible(acc + [ps[0]]) {
      PackedIsSplit([ps[0]], ps[1..]);
      assert ([acc] + Packed([ps[0]], ps[1..]))[1..] == Packed([ps[0]], ps[1..]);
      assert acc + ([ps[0]] + ps[1..]) == acc + ps;
    } else {
      PackedIsSplit(acc + [ps[0]], ps[1..]);
      assert acc + [ps[0]] + ps[1..] == acc + ps;
    }
  }

  // ---- greedy packing is optimal

  lemma JoinGrows(a: seq<string>, b: seq<string>)
    ensures |Join(a, BREAK)| <= |Join(a + b, BREAK)| && |Join(b, BREAK)| <= |Join(a + b, BREAK)|
  {
    if a == [] { assert a + b == b; }
    else if b == [] { assert a + b == a; }
    else { JoinConcat(a, b, BREAK); }
  }

  // A group that may stay together is packed without interruption.
  lemma {:induction false} PacksTogether(acc: seq<string>, group: seq<string>, rest: seq<string>)
    requires acc + group == [] || Admissible(acc + group)
    ensures Packed(acc, group + rest) == Packed(acc + group, rest)
    decreases |group|
  {
    if group == [] {
      assert group + rest == rest && acc + group == acc;
    } else {
      var x := group[0];
      assert (group + rest)[1..] == group[1..] + rest;
      assert acc + group == (acc + [x]) + group[1..];
      JoinGrows(acc + [x], group[1..]);
      PacksTogether(acc + [x], group[1..], rest);
    }
  }

  // Packing with an open group costs one piece more than packing some rest of the paragraphs.
  lemma {:induction false} OpenGroup(acc: seq<string>, ps: seq<string>) returns (k: nat)
    requires acc != []
    ensures k <= |ps| && |Packed(acc, ps)| == 1 + |Packed([], ps[k..])|
    decreases |ps|
  {
    if ps == [] {
      k := 0;
    } else if !Admissible(acc + [ps[0]]) {
      assert [] + [ps[0]] == [ps[0]] && ps[0..] == ps;
      k := 0;
    } else {
      k := OpenGroup(acc + [ps[0]], ps[1..]);
      assert ps[1..][k..] == ps[k + 1..];
      k := k + 1;
    }
  }

  // From any point on, greedy packing needs no more pieces than any other split of a longer rest.
  lemma {:induction false} StaysAhead(groups: seq<seq<string>>, k: nat)
    requires AllAdmissible(groups) && k <= |Flatten(groups)|
    ensures |Packed([], Flatten(groups)[k..])| <= |groups|
    decreases |groups|
  {
    if groups != [] {
      var first, rest := groups[0], Flatten(groups[1..]);
      if k >= |first| {
        assert Flatten(groups)[k..] == rest[k - |first|..];
        StaysAhead(groups[1..], k - |first|);
      } else {
        var tail := first[k..];
        assert Flatten(groups)[k..] == tail + rest;
        assert first == first[..k] + tail;
        JoinGrows(first[..k], tail);
        assert Admissible(first) && [] + tail == tail;
        PacksTogether([], tail, rest);
        var n := OpenGroup(tail, rest);
        StaysAhead(groups[1..], n);
      }
    }
  }

  // ---- a large section

  function Paragraphs(parts: seq<string>): (ps: seq<string>)
    ensures forall i :: 0 <= i < |ps| ==> ps[i] != ""
  {
    if parts == [] then []
    else if Trim(parts[0]) == "" then Paragraphs(parts[1..])
    else [Trim(parts[0])] + Paragraphs(parts[1..])
  }

  function ParagraphsOf(text: string): seq<string> {
    Paragraphs(Split(text, BREAK))
  }

  function Slices(text: string, size: nat): seq<string>
    requires size > 0
  {
    if text == "" then [] else [text[..Min(size, |text|)]] + Slices(text[Min(size, |text|)..], size)
  }

  function PiecesOf(text: string): seq<string> {
    if |text| <= MAX_CHUNK_RUNES then [text]
    else if ParagraphsOf(text) == [] then Slices(text, MAX_CHUNK_RUNES)
    else Pieces(Packed([], ParagraphsOf(text)))
  }

  lemma {:induction false} PiecesJoin(groups: seq<seq<string>>)
    requires forall i :: 0 <= i < |groups| ==> groups[i] != []
    ensures Join(Pieces(groups), BREAK) == Join(Flatten(groups), BREAK)
  {
    if groups != [] {
      assert Pieces(groups)[1..] == Pieces(groups[1..]);
      PiecesJoin(groups[1..]);
      if |groups| == 1 {
        assert groups[1..] == [];
        assert groups[0] + [] == groups[0];
      } else {
        assert groups[1..][0] != [] && Flatten(groups[1..]) != [];
        JoinConcat(groups[0], Flatten(groups[1..]), BREAK);
      }
    }
  }

  // What is left of the parts between blank lines that are not blank themselves, in order and without the
  // white space around them.
  ghost predicate AreParagraphs(text: string, ps: seq<string>) {
    exists parts, at :: IsCut(text, "\n\n", parts) && StrippedParts(parts, at, ps)
  }

  ghost predicate StrippedParts(parts: seq<string>, at: seq<nat>, ps: seq<string>) {
    && Ascending(at) && Within(at, |parts|) && |ps| == |at|
    && (forall j :: 0 <= j < |parts| ==> (j in at <==> !IsBlank(parts[j])))
    && forall k :: 0 <= k < |at| ==> IsStripped(parts[at[k]], ps[k])
  }

  function Trimmed(parts: seq<string>): seq<string> {
    seq(|parts|, i requires 0 <= i < |parts| => Trim(parts[i]))
  }

  lemma {:induction false} ParagraphsTrimmed(parts: seq<string>)
    ensures Paragraphs(parts) == Trimmed(Keep(parts, part => Trim(part) != ""))
  {
    if parts != [] {
      ParagraphsTrimmed(parts[1..]);
    }
  }

  lemma ParagraphsAreParagraphs(text: string)
    ensures AreParagraphs(text, ParagraphsOf(text))
  {
    var parts, keep := Split(text, BREAK), (part: string) => Trim(part) != "";
    var ps := ParagraphsOf(text);
    SplitIsCut(text, BREAK);
    var at := Selected(parts, keep);
    SelectsKeep(parts, at, keep);
    ParagraphsTrimmed(parts);
    assert ps == Trimmed(Picked(parts, at)) by { KeepAlike(parts, keep, part => Trim(part) != ""); }
    forall j | 0 <= j < |parts|
      ensures j in at <==> !IsBlank(parts[j])
    {
      TrimBlank(parts[j]);
    }
    forall k | 0 <= k < |at|
      ensures IsStripped(parts[at[k]], ps[k])
    {
      TrimIsStripped(parts[at[k]]);
    }
    assert StrippedParts(parts, at, ps);
  }

  // A text over the limit with a paragraph in it: each piece fits or is one paragraph that does not,
  // the pieces joined by blank lines give back the paragraphs in order, and no other way to split the
  // paragraphs into pieces that fit or are one paragraph needs fewer of them. The paragraphs are what is
  // between blank lines, without the white space around it.
  lemma LargeSection(text: string, groups: seq<seq<string>>)
    requires |text| > 6000 && ParagraphsOf(text) != []
    ensures AreParagraphs(text, ParagraphsOf(text))
    ensures var ps, pieces := ParagraphsOf(text), PiecesOf(text);
            && Join(pieces, "\n\n") == Join(ps, "\n\n")
            && (forall i :: 0 <= i < |pieces| ==> |pieces[i]| <= 6000 || pieces[i] in ps)
            && (Flatten(groups) == ps &&
                (forall i :: 0 <= i < |groups| ==>
                   groups[i] != [] && (|groups[i]| == 1 || |Join(groups[i], "\n\n")| <= 6000))
                ==> |pieces| <= |groups|)
  {
    var ps := ParagraphsOf(text);
    var packed := Packed([], ps);
    ParagraphsAreParagraphs(text);
    PackedIsSplit([], ps);
    assert [] + ps == ps;
    PiecesJoin(packed);
    forall i | 0 <= i < |packed|
      ensures |Pieces(packed)[i]| <= MAX_CHUNK_RUNES || Pieces(packed)[i] in ps
    {
      assert Admissible(packed[i]);
      if |packed[i]| == 1 {
        FlattenHas(packed, i, 0);
      }
    }
    if AllAdmissible(groups) && Flatten(groups) == ps {
      StaysAhead(groups, 0);
      assert ps[0..] == ps;
    }
  }

  // A section within the limit stays in one piece.
  lemma SmallSection(text: string)
    requires |text| <= 6000
    ensures PiecesOf(text) == [text]
  {
  }

  lemma {:induction false} FlattenHas(groups: seq<seq<string>>, i: nat, j: nat)
    requires i < |groups| && j < |groups[i]|
    ensures groups[i][j] in Flatten(groups)
  {
    if i == 0 {
      assert Flatten(groups)[j] == groups[0][j];
    } else {
      FlattenHas(groups[1..], i - 1, j);
      var k :| 0 <= k < |Flatten(groups[1..])| && Flatten(groups[1..])[k] == groups[i][j];
      assert Flatten(groups)[|groups[0]| + k] == groups[i][j];
    }
  }

  // A paragraph over the limit is not cut: all pieces fit exactly when all paragraphs do.
  lemma LargeSectionFitsIff(text: string)
    requires |text| > MAX_CHUNK_RUNES && ParagraphsOf(text) != []
    ensures (forall piece :: piece in PiecesOf(text) ==> |piece| <= MAX_CHUNK_RUNES) <==>
            (forall p :: p in ParagraphsOf(text) ==> |p| <= MAX_CHUNK_RUNES)
  {
    var ps := ParagraphsOf(text);
    LargeSection(text, []);
    if p :| p in ps && |p| > MAX_CHUNK_RUNES {
      PackedIsSplit([], ps);
      assert [] + ps == ps;
      var i := LongPiece(Packed([], ps), p);
      assert PiecesOf(text)[i] == Pieces(Packed([], ps))[i];
    }
  }

  lemma LongPiece(groups: seq<seq<string>>, p: string) returns (i: nat)
    requires p in Flatten(groups)
    ensures i < |groups| && |Pieces(groups)[i]| >= |p|
  {
    var j;
    i, j := FlattenAt(groups, p);
    var group := groups[i];
    assert group == group[..j] + ([p] + group[j + 1..]);
    JoinGrows(group[..j], [p] + group[j + 1..]);
    JoinGrows([p], group[j + 1..]);
  }

  lemma {:induction false} FlattenAt(groups: seq<seq<string>>, p: string) returns (i: nat, j: nat)
    requires p in Flatten(groups)
    ensures i < |groups| && j < |groups[i]| && groups[i][j] == p
  {
    if p in groups[0] {
      i := 0;
      j :| 0 <= j < |groups[0]| && groups[0][j] == p;
    } else {
      i, j := FlattenAt(groups[1..], p);
      i := i + 1;
    }
  }

  lemma {:induction false} NoParagraphs(parts: seq<string>)
    requires Paragraphs(parts) == []
    ensures forall i :: 0 <= i < |parts| ==> IsBlank(parts[i])
  {
    if parts != [] {
      NoParagraphs(parts[1..]);
      TrimBlank(parts[0]);
    }
  }

  lemma {:induction false} JoinBlank(parts: seq<string>)
    requires forall i :: 0 <= i < |parts| ==> IsBlank(parts[i])
    ensures IsBlank(Join(parts, BREAK))
  {
    if |parts| > 1 {
      JoinBlank(parts[1..]);
      assert IsBlank(BREAK);
    }
  }

  lemma {:induction false} SlicesBlank(text: string, size: nat)
    requires size > 0 && IsBlank(text)
    ensures forall i :: 0 <= i < |Slices(text, size)| ==> Trim(Slices(text, size)[i]) == ""
  {
    if text != "" {
      SlicesBlank(text[Min(size, |text|)..], size);
      TrimBlank(text[..Min(size, |text|)]);
    }
  }

  // The cut by runes only ever happens to white space, and all its slices are blank.
  lemma RuneCutIsBlank(text: string)
    requires ParagraphsOf(text) == []
    ensures IsBlank(text)
    ensures var slices := Slices(text, MAX_CHUNK_RUNES); forall i :: 0 <= i < |slices| ==> Trim(slices[i]) == ""
  {
    NoParagraphs(Split(text, BREAK));
    JoinBlank(Split(text, BREAK));
    JoinSplit(text, BREAK);
    SlicesBlank(text, MAX_CHUNK_RUNES);
  }

  // Without any paragraph the text is cut into slices that give it back, all full but the last.
  lemma {:induction false} SlicesRejoin(text: string, size: nat)
    requires size > 0
    ensures var slices := Slices(text, size);
            && Join(slices, "") == text
            && (forall i :: 0 <= i < |slices| ==> 0 < |slices[i]| <= size)
            && (forall i :: 0 <= i < |slices| - 1 ==> |slices[i]| == size)
  {
    if text != "" {
      var n := Min(size, |text|);
      var rest := Slices(text[n..], size);
      SlicesRejoin(text[n..], size);
      assert Slices(text, size) == [text[..n]] + rest;
      assert Slices(text, size)[1..] == rest;
      assert text[..n] + "" + text[n..] == text;
      if rest != [] { assert n == size; }
    }
  }

  // ---- sections

  predicate IsHeading(line: string) { "## " <= line }

  // Lines grouped so that a group starts at every heading.
  function Headed(lines: seq<string>): (groups: seq<seq<string>>)
    ensures forall i :: 0 <= i < |groups| ==> groups[i] != []
    ensures lines != [] ==> groups != []
  {
    if lines == [] then [] else
    var n := |lines| - 1;
    var groups := Headed(lines[..n]);
    if groups == [] || IsHeading(lines[n]) then groups + [[lines[n]]]
    else groups[..|groups| - 1] + [groups[|groups| - 1] + [lines[n]]]
  }

  function JoinLines(group: seq<string>): string { Join(group, "\n") }

  function RawSections(content: string): seq<string> {
    var groups := Headed(Split(content, "\n"));
    seq(|groups|, i requires 0 <= i < |groups| => JoinLines(groups[i]))
  }

  function SectionsOf(content: string): seq<string> {
    AllPieces(RawSections(content))
  }

  function AllPieces(texts: seq<string>): seq<string> {
    if texts == [] then [] else AllPieces(texts[..|texts| - 1]) + PiecesOf(texts[|texts| - 1])
  }

  function InPieces(texts: seq<string>): seq<seq<string>> {
    seq(|texts|, i requires 0 <= i < |texts| => PiecesOf(texts[i]))
  }

  lemma InPiecesSnoc(texts: seq<string>)
    requires texts != []
    ensures InPieces(texts) == InPieces(texts[..|texts| - 1]) + [PiecesOf(texts[|texts| - 1])]
  {
  }

  // The sections of a document are the pieces of its headed parts, part by part.
  lemma {:induction false} PiecesInOrder(texts: seq<string>)
    ensures AllPieces(texts) == Flatten(InPieces(texts))
  {
    if texts != [] {
      PiecesInOrder(texts[..|texts| - 1]);
      InPiecesSnoc(texts);
      FlattenSnoc(InPieces(texts[..|texts| - 1]), PiecesOf(texts[|texts| - 1]));
    }
  }

  lemma FlattenSnoc(groups: seq<seq<string>>, group: seq<string>)
    ensures Flatten(groups + [group]) == Flatten(groups) + group
  {
    FlattenConcat(groups, [group]);
    assert Flatten([group]) == group + Flatten([]);
  }

  lemma {:induction false} HeadedIsSplit(lines: seq<string>)
    ensures Flatten(Headed(lines)) == lines
  {
    if lines != [] {
      var n := |lines| - 1;
      var groups, last := Headed(lines[..n]), lines[n];
      HeadedIsSplit(lines[..n]);
      FlattenSnoc(groups, [last]);
      if groups != [] {
        var m := |groups| - 1;
        assert groups == groups[..m] + [groups[m]];
        FlattenSnoc(groups[..m], groups[m]);
        FlattenSnoc(groups[..m], groups[m] + [last]);
        Assoc(Flatten(groups[..m]), groups[m], [last]);
      }
    }
  }

  // No line after the first is a heading.
  predicate OneHeading(group: seq<string>) {
    forall j :: 0 < j < |group| ==> !IsHeading(group[j])
  }

  // Every group but the first starts with a heading, and no group has one further down.
  predicate WellHeaded(groups: seq<seq<string>>) {
    forall i :: 0 <= i < |groups| ==> groups[i] != [] && OneHeading(groups[i]) && (i > 0 ==> IsHeading(groups[i][0]))
  }

  lemma {:induction false} HeadedByHeadings(lines: seq<string>)
    ensures WellHeaded(Headed(lines))
  {
    if lines != [] {
      var n := |lines| - 1;
      var groups, last := Headed(lines[..n]), lines[n];
      HeadedByHeadings(lines[..n]);
      if groups != [] && !IsHeading(last) {
        assert OneHeading(groups[|groups| - 1] + [last]);
      }
    }
  }

  lemma {:induction false} JoinGroups(groups: seq<seq<string>>)
    requires forall i :: 0 <= i < |groups| ==> groups[i] != []
    ensures JoinLines(seq(|groups|, i requires 0 <= i < |groups| => JoinLines(groups[i]))) == JoinLines(Flatten(groups))
  {
    var texts := seq(|groups|, i requires 0 <= i < |groups| => JoinLines(groups[i]));
    if groups != [] {
      var rest := seq(|groups[1..]|, i requires 0 <= i < |groups[1..]| => JoinLines(groups[1..][i]));
      assert texts[1..] == rest;
      JoinGroups(groups[1..]);
      if |groups| == 1 {
        assert groups[1..] == [] && groups[0] + [] == groups[0];
      } else {
        assert groups[1..][0] != [] && Flatten(groups[1..]) != [];
        JoinConcat(groups[0], Flatten(groups[1..]), "\n");
      }
    }
  }

  // Splitting into sections loses nothing: joined by newlines they are the document again.
  lemma SectionsRejoin(content: string)
    ensures JoinLines(RawSections(content)) == content
  {
    var lines := Split(content, "\n");
    HeadedIsSplit(lines);
    JoinGroups(Headed(lines));
    JoinSplit(content, "\n");
  }

  // Every section but the first starts with a heading, and only its first line can be one.
  lemma SectionsStartWithHeadings(content: string)
    ensures var groups := Headed(Split(content, "\n"));
            && |groups| == |RawSections(content)|
            && (forall i :: 0 <= i < |groups| ==> RawSections(content)[i] == JoinLines(groups[i]))
            && (forall i :: 0 <= i < |groups| ==> OneHeading(groups[i]))
            && (forall i, j :: 0 <= i < |groups| && 0 < j < |groups[i]| ==> !("## " <= groups[i][j]))
            && (forall i :: 0 < i < |groups| ==> "## " <= RawSections(content)[i])
  {
    var groups := Headed(Split(content, "\n"));
    HeadedByHeadings(Split(content, "\n"));
    forall i | 0 < i < |groups|
      ensures IsHeading(RawSections(content)[i])
    {
      assert IsHeading(groups[i][0]) && groups[i][0] <= JoinLines(groups[i]);
      assert JoinLines(groups[i])[..3] == groups[i][0][..3];
    }
  }

  // The lines of each group make one section; headings are the first lines of all groups but perhaps the
  // first, and no other lines. Each section comes in its pieces.
  ghost predicate InSections(content: string, sections: seq<string>) {
    exists groups :: Sectioned(content, groups) && sections == Flatten(SectionPieces(groups))
  }

  predicate Sectioned(content: string, groups: seq<seq<string>>) {
    && IsCut(content, "\n", Flatten(groups))
    && (forall i :: 0 <= i < |groups| ==> groups[i] != [])
    && (forall i, j :: 0 <= i < |groups| && 0 < j < |groups[i]| ==> !("## " <= groups[i][j]))
    && (forall i :: 0 < i < |groups| ==> groups[i] != [] && "## " <= groups[i][0])
  }

  function SectionPieces(groups: seq<seq<string>>): seq<seq<string>> {
    seq(|groups|, i requires 0 <= i < |groups| => PiecesOf(Join(groups[i], "\n")))
  }

  lemma SectionsAreSections(content: string)
    ensures InSections(content, SectionsOf(content))
  {
    var groups := Headed(Split(content, "\n"));
    SplitIsCut(content, "\n");
    HeadedIsSplit(Split(content, "\n"));
    HeadedByHeadings(Split(content, "\n"));
    assert forall i :: 0 <= i < |groups| ==> OneHeading(groups[i]);
    assert Sectioned(content, groups);
    PiecesInOrder(RawSections(content));
    assert SectionPieces(groups) == InPieces(RawSections(content));
  }

  // ---- the code

  // What is still to be cut at i, which may lie behind the end.
  function SlicesFrom(text: string, i: nat, size: nat): seq<string>
    requires size > 0
  {
    if i < |text| then Slices(text[i..], size) else []
  }

  lemma NextSlice(text: string, i: nat, size: nat)
    requires size > 0 && i < |text|
    ensures SlicesFrom(text, i, size) == [text[i..Min(i + size, |text|)]] + SlicesFrom(text, i + size, size)
  {
    var rest := text[i..];
    var n := Min(size, |rest|);
    assert Slices(rest, size) == [rest[..n]] + Slices(rest[n..], size);
    assert rest[..n] == text[i..i + n] && rest[n..] == text[i + n..];
    assert i + n == Min(i + size, |text|) && (i + size >= |text| ==> text[i + n..] == "");
  }

  method SplitByRunes(text: string, size: nat) returns (result: seq<string>)
    requires size > 0
    ensures result == Slices(text, size)
  {
    result := [];
    var i := 0;
    assert text[0..] == text;
    while i < |text|
      invariant 0 <= i
      invariant result + SlicesFrom(text, i, size) == Slices(text, size)
      decreases |text| - i
    {
      NextSlice(text, i, size);
      var end := i + size;
      if end > |text| {
        end := |text|;
      }
      Assoc(result, [text[i..end]], SlicesFrom(text, i + size, size));
      result := result + [text[i..end]];
      i := i + size;
    }
  }

  // done holds the finished groups, open the one that acc is made of.
  predicate Packing(text: string, parts: seq<string>, i: nat, done: seq<seq<string>>, open: seq<string>, acc: string,
                    result: seq<string>)
  {
    && i <= |parts| && parts == Split(text, BREAK)
    && acc == Join(open, BREAK) && (acc == "" <==> open == [])
    && (open == [] || Admissible(open))
    && result == Pieces(done) && (open == [] ==> done == [])
    && Packed([], ParagraphsOf(text)) == done + Packed(open, Paragraphs(parts[i..]))
  }

  lemma PackNothing(text: string, parts: seq<string>, i: nat, done: seq<seq<string>>, open: seq<string>, acc: string,
                    result: seq<string>)
    requires Packing(text, parts, i, done, open, acc, result) && i < |parts| && Trim(parts[i]) == ""
    ensures Packing(text, parts, i + 1, done, open, acc, result)
  {
    assert parts[i..][1..] == parts[i + 1..];
  }

  predicate Flushes(acc: string, para: string) { acc != "" && |acc| + |para| + 2 > MAX_CHUNK_RUNES }

  lemma NextPacked(text: string, parts: seq<string>, i: nat, done: seq<seq<string>>, open: seq<string>, acc: string,
                   result: seq<string>)
    requires Packing(text, parts, i, done, open, acc, result) && i < |parts| && Trim(parts[i]) != ""
    ensures var para, rest := Trim(parts[i]), Paragraphs(parts[i + 1..]);
            Packed([], ParagraphsOf(text)) ==
              if Flushes(acc, para) then done + [open] + Packed([para], rest) else done + Packed(open + [para], rest)
    ensures Admissible(open + [Trim(parts[i])]) || Flushes(acc, Trim(parts[i]))
  {
    var para, rest := Trim(parts[i]), Paragraphs(parts[i + 1..]);
    assert parts[i..][1..] == parts[i + 1..];
    assert Paragraphs(parts[i..]) == [para] + rest;
    PackOne(done, open, para, rest);
    JoinOne(open, para);
    assert [] + [para] == [para];
  }

  lemma PiecesMore(done: seq<seq<string>>, open: seq<string>)
    ensures Pieces(done + [open]) == Pieces(done) + [Join(open, BREAK)]
  {
  }

  lemma PackFlush(text: string, parts: seq<string>, i: nat, done: seq<seq<string>>, open: seq<string>, acc: string,
                  result: seq<string>)
    requires Packing(text, parts, i, done, open, acc, result) && i < |parts| && Trim(parts[i]) != ""
    requires Flushes(acc, Trim(parts[i]))
    ensures Packing(text, parts, i + 1, done + [open], [] + [Trim(parts[i])], "" + Trim(parts[i]), result + [acc])
  {
    NextPacked(text, parts, i, done, open, acc, result);
    PiecesMore(done, open);
    JoinOne([], Trim(parts[i]));
    assert [] + [Trim(parts[i])] == [Trim(parts[i])] && "" + Trim(parts[i]) == Trim(parts[i]);
  }

  lemma PackGrow(text: string, parts: seq<string>, i: nat, done: seq<seq<string>>, open: seq<string>, acc: string,
                 result: seq<string>)
    requires Packing(text, parts, i, done, open, acc, result) && i < |parts| && Trim(parts[i]) != ""
    requires !Flushes(acc, Trim(parts[i]))
    ensures Packing(text, parts, i + 1, done, open + [Trim(parts[i])],
                    (if acc == "" then acc else acc + BREAK) + Trim(parts[i]), result)
  {
    NextPacked(text, parts, i, done, open, acc, result);
    JoinOne(open, Trim(parts[i]));
    assert "" + Trim(parts[i]) == Trim(parts[i]);
  }

  lemma PackingEnds(text: string, parts: seq<string>, done: seq<seq<string>>, open: seq<string>, acc: string,
                    result: seq<string>)
    requires Packing(text, parts, |parts|, done, open, acc, result)
    ensures (if acc == "" then result else result + [acc]) == Pieces(Packed([], ParagraphsOf(text)))
    ensures Packed([], ParagraphsOf(text)) == [] <==> ParagraphsOf(text) == []
  {
    assert parts[|parts|..] == [];
    PackedIsSplit([], ParagraphsOf(text));
    assert Packed([], ParagraphsOf(text)) == done + if open == [] then [] else [open];
  }

  method SplitLargeSection(text: string) returns (result: seq<string>)
    ensures result == PiecesOf(text)
  {
    if |text| <= MAX_CHUNK_RUNES {
      return [text];
    }
    var parts := Split(text, BREAK);
    result := [];
    var acc := "";
    ghost var done: seq<seq<string>>, open: seq<string> := [], [];
    assert parts[0..] == parts;
    for i := 0 to |parts|
      invariant Packing(text, parts, i, done, open, acc, result)
    {
      var para := Trim(parts[i]);
      if para == "" {
        PackNothing(text, parts, i, done, open, acc, result);
        continue;
      }
      if Flushes(acc, para) {
        PackFlush(text, parts, i, done, open, acc, result);
      } else {
        PackGrow(text, parts, i, done, open, acc, result);
      }
      if |acc| > 0 && |acc| + |para| + 2 > MAX_CHUNK_RUNES {
        result := result + [acc];
        acc := "";
        done := done + [open];
        open := [];
      }
      if |acc| > 0 {
        acc := acc + BREAK;
      }
      acc := acc + para;
      open := open + [para];
    }
    PackingEnds(text, parts, done, open, acc, result);
    if |acc| > 0 {
      result := result + [acc];
    }
    if |result| == 0 {
      result := SplitByRunes(text, MAX_CHUNK_RUNES);
    }
  }

  lemma JoinOne(open: seq<string>, para: string)
    ensures Join(open + [para], BREAK) == if open == [] then para else Join(open, BREAK) + BREAK + para
    ensures Join([para], BREAK) == para
  {
    if open == [] {
      assert open + [para] == [para];
    } else {
      JoinConcat(open, [para], BREAK);
    }
  }

  // What the next paragraph does to the packing.
  lemma PackOne(done: seq<seq<string>>, open: seq<string>, para: string, rest: seq<string>)
    ensures done + Packed(open, [para] + rest) ==
            if open != [] && !Admissible(open + [para]) then done + [open] + Packed([] + [para], rest)
            else done + Packed(open + [para], rest)
  {
    assert ([para] + rest)[1..] == rest && [] + [para] == [para];
    Assoc(done, [open], Packed([para], rest));
  }

  function Open(current: seq<string>): seq<seq<string>> {
    if current == [] then [] else [current]
  }

  // What the next line does to the grouping.
  lemma HeadOne(lines: seq<string>, i: nat, done: seq<seq<string>>, current: seq<string>)
    requires i < |lines| && Headed(lines[..i]) == done + Open(current) && (current == [] ==> done == [])
    ensures Headed(lines[..i + 1]) ==
            if IsHeading(lines[i]) && current != [] then done + [current] + Open([lines[i]])
            else done + Open(current + [lines[i]])
  {
    assert lines[..i + 1][..i] == lines[..i];
    if current == [] {
      assert current + [lines[i]] == [lines[i]];
    } else {
      assert (done + [current])[..|done|] == done;
    }
  }

  method SplitSections(content: string) returns (sections: seq<string>)
    ensures sections == SectionsOf(content) && InSections(content, sections)
  {
    var lines := Split(content, "\n");
    sections := [];
    var current: seq<string> := [];
    ghost var done: seq<seq<string>> := [];
    for i := 0 to |lines|
      invariant Headed(lines[..i]) == done + Open(current)
      invariant current == [] ==> done == []
      invariant sections == AllPieces(Texts(done))
    {
      var line := lines[i];
      HeadOne(lines, i, done, current);
      if IsHeading(line) && |current| > 0 {
        var pieces := SplitLargeSection(JoinLines(current));
        sections := sections + pieces;
        TextsGrow(done, current);
        done := done + [current];
        current := [line];
      } else {
        current := current + [line];
      }
    }
    assert lines[..|lines|] == lines;
    var pieces := SplitLargeSection(JoinLines(current));
    sections := sections + pieces;
    TextsGrow(done, current);
    assert Texts(done + [current]) == RawSections(content);
    SectionsAreSections(content);
  }

  function Texts(groups: seq<seq<string>>): seq<string> {
    seq(|groups|, i requires 0 <= i < |groups| => JoinLines(groups[i]))
  }

  lemma TextsGrow(groups: seq<seq<string>>, group: seq<string>)
    ensures AllPieces(Texts(groups + [group])) == AllPieces(Texts(groups)) + PiecesOf(JoinLines(group))
  {
    var texts := Texts(groups + [group]);
    assert texts[..|groups|] == Texts(groups);
  }
}
