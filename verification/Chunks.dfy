/**
The chunks of a document and their identifiers (internal/rag/chunk.go, ChunkMarkdown,
parseFrontmatter and extractH1). The YAML reader of the front matter is an arbitrary function.
*/
module Chunks {
  import opened Wrappers
  import opened Text
  import opened Chunking

  datatype Chunk = Chunk(id: string, source: string, file: string, title: string, text: string, tags: seq<string>)

  datatype Header = Header(title: string, tags: seq<string>)

  const FENCE := "---\n"
  const CLOSING := "\n---\n"

  // ---- front matter and title

  function ParseFrontmatter(content: string, yaml: string -> Header): (r: (Header, string)) {
    if !(FENCE <= content) then (Header("", []), content) else
    var rest := content[4..];
    var end := IndexOf(rest, CLOSING);
    if end < 0 then (Header("", []), content) else (yaml(rest[..end]), rest[end + 5..])
  }

  // strings.SplitN with a positive count: the last part is whatever is left
  function SplitN(s: string, sep: string, n: nat): (parts: seq<string>)
    requires sep != "" && n > 0
    ensures 0 < |parts| <= n
  {
    var i := IndexOf(s, sep);
    if n == 1 || i < 0 then [s] else [s[..i]] + SplitN(s[i + |sep|..], sep, n - 1)
  }

  function FirstH1(lines: seq<string>): string {
    if lines == [] then ""
    else if "# " <= lines[0] && !IsHeading(lines[0]) then lines[0][2..]
    else FirstH1(lines[1..])
  }

  function TitleOf(header: Header, body: string, file: string): string {
    var h1 := FirstH1(SplitN(body, "\n", 20));
    if header.title != "" then header.title else if h1 != "" then h1 else file
  }

  // y is the front matter: what is between a first line of three dashes and the next such line.
  predicate FrontmatterAt(content: string, y: string, body: string) {
    content == "---\n" + y + "\n---\n" + body && NotBefore(y + "\n---\n", "\n---\n", |y|)
  }

  ghost predicate IsFrontmatter(content: string, yaml: string -> Header, header: Header, body: string) {
    (exists y :: FrontmatterAt(content, y, body) && header == yaml(y)) ||
    ((forall y, rest :: !FrontmatterAt(content, y, rest)) && header == Header("", []) && body == content)
  }

  lemma FrontmatterFound(content: string, y: string, body: string, yaml: string -> Header)
    requires FrontmatterAt(content, y, body)
    ensures ParseFrontmatter(content, yaml) == (yaml(y), body)
  {
    var rest := y + CLOSING + body;
    assert content == FENCE + rest && content[4..] == rest;
    FirstPart(y, CLOSING, body);
    assert rest[..|y|] == y && rest[|y| + 5..] == body;
  }

  lemma FrontmatterExact(content: string, yaml: string -> Header)
    ensures IsFrontmatter(content, yaml, ParseFrontmatter(content, yaml).0, ParseFrontmatter(content, yaml).1)
  {
    if y, body :| FrontmatterAt(content, y, body) {
      FrontmatterFound(content, y, body, yaml);
    } else if FENCE <= content && IndexOf(content[4..], CLOSING) >= 0 {
      var rest := content[4..];
      var end := IndexOf(rest, CLOSING);
      assert rest == rest[..end] + CLOSING + rest[end + 5..];
      FirstPart(rest[..end], CLOSING, rest[end + 5..]);
      assert FrontmatterAt(content, rest[..end], rest[end + 5..]);
    }
  }

  // ---- titles

  // Line i is the first of the first twenty that starts with one number sign and a blank; what is behind
  // that is the heading. The twentieth "line" is all the rest of the text.
  predicate HeadsAt(lines: seq<string>, i: nat, h: string) {
    && i < 20 && i < |lines| && "# " <= lines[i] && (forall j :: 0 <= j < i ==> !("# " <= lines[j]))
    && "# " + h == if i < 19 then lines[i] else Join(lines[19..], "\n")
  }

  ghost predicate IsH1(body: string, h: string) {
    exists lines, i :: IsCut(body, "\n", lines) && HeadsAt(lines, i, h)
  }

  // The front matter's title, else the first heading of the body, else the file name; an empty title
  // counts as none.
  ghost predicate IsTitle(title: string, header: Header, body: string, file: string) {
    if header.title != "" then title == header.title
    else (title != "" && IsH1(body, title)) || ((forall h :: h != "" ==> !IsH1(body, h)) && title == file)
  }

  // The first n - 1 lines, and all the rest as one.
  function WithRest(lines: seq<string>, sep: string, n: nat): seq<string>
    requires n > 0
  {
    if |lines| <= n then lines else lines[..n - 1] + [Join(lines[n - 1..], sep)]
  }

  lemma WithRestCons(first: string, lines: seq<string>, sep: string, n: nat)
    requires n > 1
    ensures WithRest([first] + lines, sep, n) == [first] + WithRest(lines, sep, n - 1)
  {
    if |lines| >= n {
      assert ([first] + lines)[..n - 1] == [first] + lines[..n - 2];
      assert ([first] + lines)[n - 1..] == lines[n - 2..];
    }
  }

  lemma AllIsRest(lines: seq<string>, sep: string)
    requires lines != []
    ensures WithRest(lines, sep, 1) == [Join(lines, sep)]
  {
    assert lines[..0] == [] && lines[0..] == lines;
  }

  lemma {:induction false} SplitNLines(s: string, sep: string, n: nat)
    requires sep != "" && n > 0
    ensures SplitN(s, sep, n) == WithRest(Split(s, sep), sep, n)
  {
    var i := IndexOf(s, sep);
    if n == 1 {
      JoinSplit(s, sep);
      AllIsRest(Split(s, sep), sep);
    } else if i >= 0 {
      var rest := s[i + |sep|..];
      SplitNLines(rest, sep, n - 1);
      WithRestCons(s[..i], Split(rest, sep), sep, n);
      assert Split(s, sep) == [s[..i]] + Split(rest, sep);
    } else {
      assert Split(s, sep) == [s];
    }
  }

  lemma {:induction false} FirstH1Exact(lines: seq<string>) returns (i: nat)
    ensures i <= |lines| && forall j :: 0 <= j < i ==> !("# " <= lines[j])
    ensures i < |lines| ==> "# " <= lines[i] && "# " + FirstH1(lines) == lines[i]
    ensures i == |lines| ==> FirstH1(lines) == ""
  {
    if lines == [] {
      i := 0;
    } else if "# " <= lines[0] {
      i := 0;
      assert lines[0] == "# " + lines[0][2..] && lines[0][1] == ' ' && "## "[1] == '#';
      assert !IsHeading(lines[0]);
    } else {
      i := FirstH1Exact(lines[1..]);
      i := i + 1;
      assert forall j :: 0 < j < i ==> lines[j] == lines[1..][j - 1];
    }
  }

  lemma JoinKeepsHeading(lines: seq<string>)
    requires lines != []
    ensures "# " <= Join(lines, "\n") <==> "# " <= lines[0]
  {
    if |lines| > 1 {
      var all := Join(lines, "\n");
      assert all == lines[0] + ("\n" + Join(lines[1..], "\n"));
      assert all[|lines[0]|] == '\n';
      assert |lines[0]| >= 2 ==> all[..2] == lines[0][..2];
      assert "# " <= all ==> all[0] == "# "[0] && all[1] == "# "[1];
    }
  }

  lemma PartHeads(lines: seq<string>, k: nat)
    requires k < |WithRest(lines, "\n", 20)|
    ensures k < 20 && k < |lines|
    ensures WithRest(lines, "\n", 20)[k] == if k < 19 then lines[k] else Join(lines[19..], "\n")
    ensures "# " <= WithRest(lines, "\n", 20)[k] <==> "# " <= lines[k]
  {
    if k == 19 {
      JoinKeepsHeading(lines[19..]);
      if |lines| == 20 { assert lines[19..] == [lines[19]]; }
    }
  }

  lemma PartCount(lines: seq<string>)
    ensures |WithRest(lines, "\n", 20)| == if |lines| <= 20 then |lines| else 20
  {
  }

  // What is found among the first twenty parts is the heading.
  lemma H1Found(lines: seq<string>) returns (i: nat)
    ensures var parts := WithRest(lines, "\n", 20);
            if i < |parts| then HeadsAt(lines, i, FirstH1(parts))
            else FirstH1(parts) == "" && forall j :: 0 <= j < 20 && j < |lines| ==> !("# " <= lines[j])
  {
    var parts := WithRest(lines, "\n", 20);
    i := FirstH1Exact(parts);
    PartCount(lines);
    if i < |parts| { PartHeads(lines, i); }
    forall j | 0 <= j < i && j < |parts|
      ensures !("# " <= lines[j])
    {
      PartHeads(lines, j);
    }
  }

  lemma HeadsOnce(lines: seq<string>, i: nat, h: string, j: nat, g: string)
    requires HeadsAt(lines, i, h) && HeadsAt(lines, j, g)
    ensures i == j && h == g
  {
    assert ("# " + h)[2..] == h && ("# " + g)[2..] == g;
  }

  lemma TitleExact(header: Header, body: string, file: string)
    ensures IsTitle(TitleOf(header, body, file), header, body, file)
  {
    var lines := Split(body, "\n");
    SplitIsCut(body, "\n");
    SplitNLines(body, "\n", 20);
    var i := H1Found(lines);
    forall h | IsH1(body, h)
      ensures i < |WithRest(lines, "\n", 20)| && h == FirstH1(WithRest(lines, "\n", 20))
    {
      var cut, j :| IsCut(body, "\n", cut) && HeadsAt(cut, j, h);
      CutIsSplit(body, "\n", cut);
      if i < |WithRest(lines, "\n", 20)| {
        HeadsOnce(lines, i, FirstH1(WithRest(lines, "\n", 20)), j, h);
      }
    }
  }

  lemma LateHead(lines: seq<string>, h: string, more: string)
    requires |lines| == 21 && lines[19] == "# " + h && lines[20] == more
    requires forall j :: 0 <= j < 19 ==> lines[j] == ""
    ensures HeadsAt(lines, 19, h + "\n" + more)
  {
    assert lines[19..] == ["# " + h, more] && ["# " + h, more][1..] == [more];
    assert Join(lines[19..], "\n") == "# " + h + "\n" + more == "# " + (h + "\n" + more);
  }

  // A heading on the twentieth line takes the rest of the document into the title.
  lemma LateTitle(h: string, more: string, file: string)
    requires '\n' !in h && '\n' !in more
    ensures var lines := seq(19, _ => "") + ["# " + h, more];
            TitleOf(Header("", []), Join(lines, "\n"), file) == h + "\n" + more
  {
    var lines := seq(19, _ => "") + ["# " + h, more];
    SplitOnly(lines, '\n');
    assert Split(Join(lines, "\n"), "\n") == lines;
    SplitNLines(Join(lines, "\n"), "\n", 20);
    LateHead(lines, h, more);
    var i := H1Found(lines);
    HeadsOnce(lines, i, FirstH1(WithRest(lines, "\n", 20)), 19, h + "\n" + more);
  }

  // ---- identifiers

  function ChunkId(source: string, file: string, n: nat): string {
    source + "/" + file + "/" + Itoa(n)
  }

  // Within a source the file and the number can be read off an identifier: the number is what
  // follows the last slash.
  lemma ChunkIdInjective(source: string, file: string, n: nat, file': string, n': nat)
    requires ChunkId(source, file, n) == ChunkId(source, file', n')
    ensures file == file' && n == n'
  {
    var id, d, d' := ChunkId(source, file, n), Itoa(n), Itoa(n');
    assert id[|id| - |d| - 1] == '/' && id[|id| - |d'| - 1] == '/';
    assert id[|id| - |d|..] == d && id[|id| - |d'|..] == d';
    assert |d| == |d'|;
    ItoaInjective(n, n');
    assert file == id[|source| + 1..|id| - |d| - 1] == file';
  }

  // Without a slash in its name, the source can be read off as well.
  lemma ChunkIdSource(source: string, file: string, n: nat, source': string, file': string, n': nat)
    requires '/' !in source && '/' !in source'
    requires ChunkId(source, file, n) == ChunkId(source', file', n')
    ensures source == source' && file == file' && n == n'
  {
    var id := ChunkId(source, file, n);
    assert id[|source|] == '/' && id[|source'|] == '/';
    assert id[..|source|] == source && id[..|source'|] == source';
    assert |source| == |source'|;
    ChunkIdInjective(source, file, n, file', n');
  }

  // With slashes two sources can share an identifier.
  lemma ChunkIdsCanCollide()
    ensures ChunkId("a", "b/c", 0) == ChunkId("a/b", "c", 0)
  {
    assert ChunkId("a", "b/c", 0) == "a/b/c/" + Itoa(0);
    assert ChunkId("a/b", "c", 0) == "a/b/c/" + Itoa(0);
  }

  // ---- the chunks of a document

  // Blank sections have no chunk.
  function ChunkOf(source: string, file: string, title: string, tags: seq<string>, n: nat, section: string): seq<Chunk>
  {
    var text := Trim(section);
    if text == "" then [] else [Chunk(ChunkId(source, file, n), source, file, title, text, tags)]
  }

  function ChunksOf(source: string, file: string, title: string, tags: seq<string>, sections: seq<string>): seq<Chunk> {
    if sections == [] then [] else
    var n := |sections| - 1;
    ChunksOf(source, file, title, tags, sections[..n]) + ChunkOf(source, file, title, tags, n, sections[n])
  }

  function DocumentChunks(source: string, file: string, content: string, yaml: string -> Header): seq<Chunk> {
    var (header, body) := ParseFrontmatter(content, yaml);
    ChunksOf(source, file, TitleOf(header, body, file), header.tags, SectionsOf(body))
  }

  // c is the chunk of section i: sections that are blank have none.
  ghost predicate ChunkAt(source: string, file: string, title: string, tags: seq<string>, sections: seq<string>, i: nat,
                          c: Chunk)
  {
    i < |sections| && !IsBlank(sections[i]) && IsStripped(sections[i], c.text) &&
    c == Chunk(source + "/" + file + "/" + Itoa(i), source, file, title, c.text, tags)
  }

  lemma ChunkOfSection(source: string, file: string, title: string, tags: seq<string>, sections: seq<string>, n: nat,
                       c: Chunk)
    requires n < |sections|
    ensures c in ChunkOf(source, file, title, tags, n, sections[n]) <==>
            ChunkAt(source, file, title, tags, sections, n, c)
  {
    TrimBlank(sections[n]);
    TrimIsStripped(sections[n]);
    if IsStripped(sections[n], c.text) { StrippedIsTrim(sections[n], c.text); }
  }

  // The sections before the last one have the chunks they had without it.
  lemma ChunkBefore(source: string, file: string, title: string, tags: seq<string>, sections: seq<string>, c: Chunk)
    requires sections != []
    ensures var n := |sections| - 1;
            (exists i: nat :: ChunkAt(source, file, title, tags, sections, i, c)) <==>
            (exists i: nat :: ChunkAt(source, file, title, tags, sections[..n], i, c)) ||
            ChunkAt(source, file, title, tags, sections, n, c)
  {
    var n := |sections| - 1;
    if i: nat :| ChunkAt(source, file, title, tags, sections[..n], i, c) {
      assert ChunkAt(source, file, title, tags, sections, i, c);
    }
    if i: nat :| ChunkAt(source, file, title, tags, sections, i, c) {
      assert i < n ==> ChunkAt(source, file, title, tags, sections[..n], i, c);
    }
  }

  // There is one chunk for every section that is not blank, numbered by its place among all sections.
  lemma {:induction false} ChunksExact(source: string, file: string, title: string, tags: seq<string>,
                                       sections: seq<string>, c: Chunk)
    ensures c in ChunksOf(source, file, title, tags, sections) <==>
            exists i: nat :: ChunkAt(source, file, title, tags, sections, i, c)
  {
    if sections != [] {
      var n := |sections| - 1;
      ChunksExact(source, file, title, tags, sections[..n], c);
      ChunkBefore(source, file, title, tags, sections, c);
      ChunkOfSection(source, file, title, tags, sections, n, c);
    }
  }

  // No two chunks of a document share an identifier.
  lemma {:induction false} ChunkIdsDistinct(source: string, file: string, title: string, tags: seq<string>,
                                            sections: seq<string>)
    ensures var cs := ChunksOf(source, file, title, tags, sections);
            forall i, j :: 0 <= i < j < |cs| ==> cs[i].id != cs[j].id
  {
    if sections != [] {
      var n := |sections| - 1;
      var before := ChunksOf(source, file, title, tags, sections[..n]);
      ChunkIdsDistinct(source, file, title, tags, sections[..n]);
      forall i | 0 <= i < |before|
        ensures before[i].id != ChunkId(source, file, n)
      {
        ChunksExact(source, file, title, tags, sections[..n], before[i]);
        var k: nat :| ChunkAt(source, file, title, tags, sections[..n], k, before[i]);
        if before[i].id == ChunkId(source, file, n) {
          ChunkIdInjective(source, file, k, file, n);
        }
      }
    }
  }

  lemma NextSection(source: string, file: string, title: string, tags: seq<string>, sections: seq<string>, i: nat)
    requires i < |sections|
    ensures ChunksOf(source, file, title, tags, sections[..i + 1]) ==
            ChunksOf(source, file, title, tags, sections[..i]) + ChunkOf(source, file, title, tags, i, sections[i])
  {
    assert sections[..i + 1][..i] == sections[..i];
  }

  // The chunks are those of the sections that are not blank, in order, each numbered by its place among all
  // sections, its text the section without the white space around it.
  ghost predicate AreChunks(source: string, file: string, title: string, tags: seq<string>, sections: seq<string>,
                            at: seq<nat>, chunks: seq<Chunk>)
  {
    && Ascending(at) && Within(at, |sections|) && |chunks| == |at|
    && NotBlankAt(sections, at)
    && ChunkEach(source, file, title, tags, sections, at, chunks)
  }

  ghost predicate ChunkEach(source: string, file: string, title: string, tags: seq<string>, sections: seq<string>,
                            at: seq<nat>, chunks: seq<Chunk>)
    requires |at| == |chunks|
  {
    forall k :: 0 <= k < |at| ==> ChunkAt(source, file, title, tags, sections, at[k], chunks[k])
  }

  predicate NotBlankAt(sections: seq<string>, at: seq<nat>) {
    forall j :: 0 <= j < |sections| ==> (j in at <==> !IsBlank(sections[j]))
  }

  lemma NotBlankMore(sections: seq<string>, at: seq<nat>)
    requires sections != [] && Within(at, |sections| - 1) && NotBlankAt(sections[..|sections| - 1], at)
    ensures var n := |sections| - 1; NotBlankAt(sections, if IsBlank(sections[n]) then at else at + [n])
  {
    var n := |sections| - 1;
    assert forall j :: 0 <= j < n ==> sections[..n][j] == sections[j] && (j in at + [n] <==> j in at);
    assert n in at + [n];
  }

  lemma {:induction false} ChunksInOrder(source: string, file: string, title: string, tags: seq<string>,
                                         sections: seq<string>) returns (at: seq<nat>)
    ensures AreChunks(source, file, title, tags, sections, at, ChunksOf(source, file, title, tags, sections))
  {
    at := [];
    if sections != [] {
      var n := |sections| - 1;
      at := ChunksInOrder(source, file, title, tags, sections[..n]);
      TrimBlank(sections[n]);
      TrimIsStripped(sections[n]);
      OneSectionMore(source, file, title, tags, sections, at, ChunksOf(source, file, title, tags, sections[..n]));
      if !IsBlank(sections[n]) { at := at + [n]; }
    }
  }

  lemma EachStays(source: string, file: string, title: string, tags: seq<string>, sections: seq<string>,
                  at: seq<nat>, chunks: seq<Chunk>)
    requires sections != [] && |at| == |chunks|
    requires ChunkEach(source, file, title, tags, sections[..|sections| - 1], at, chunks)
    ensures ChunkEach(source, file, title, tags, sections, at, chunks)
  {
    forall k | 0 <= k < |at|
      ensures ChunkAt(source, file, title, tags, sections, at[k], chunks[k])
    {
      assert ChunkAt(source, file, title, tags, sections[..|sections| - 1], at[k], chunks[k]);
    }
  }

  lemma EachMore(source: string, file: string, title: string, tags: seq<string>, sections: seq<string>,
                 at: seq<nat>, chunks: seq<Chunk>, n: nat, c: Chunk)
    requires |at| == |chunks| && ChunkEach(source, file, title, tags, sections, at, chunks)
    requires ChunkAt(source, file, title, tags, sections, n, c)
    ensures ChunkEach(source, file, title, tags, sections, at + [n], chunks + [c])
  {
  }

  lemma OneSectionMore(source: string, file: string, title: string, tags: seq<string>, sections: seq<string>,
                       at: seq<nat>, chunks: seq<Chunk>)
    requires sections != [] && AreChunks(source, file, title, tags, sections[..|sections| - 1], at, chunks)
    ensures var n := |sections| - 1;
            if IsBlank(sections[n]) then AreChunks(source, file, title, tags, sections, at, chunks)
            else AreChunks(source, file, title, tags, sections, at + [n],
                           chunks + [Chunk(ChunkId(source, file, n), source, file, title, Trim(sections[n]), tags)])
  {
    var n := |sections| - 1;
    EachStays(source, file, title, tags, sections, at, chunks);
    NotBlankMore(sections, at);
    if !IsBlank(sections[n]) {
      TrimIsStripped(sections[n]);
      var c := Chunk(ChunkId(source, file, n), source, file, title, Trim(sections[n]), tags);
      EachMore(source, file, title, tags, sections, at, chunks, n, c);
    }
  }

  // The chunks of a document: its front matter, its title and its sections.
  ghost predicate AreDocumentChunks(source: string, file: string, content: string, yaml: string -> Header,
                                    chunks: seq<Chunk>)
  {
    exists header, body, title, sections ::
      IsFrontmatter(content, yaml, header, body) && IsTitle(title, header, body, file) && InSections(body, sections) &&
      exists at :: AreChunks(source, file, title, header.tags, sections, at, chunks)
  }

  lemma DocumentIsExact(source: string, file: string, content: string, yaml: string -> Header)
    ensures AreDocumentChunks(source, file, content, yaml, DocumentChunks(source, file, content, yaml))
  {
    var (header, body) := ParseFrontmatter(content, yaml);
    FrontmatterExact(content, yaml);
    TitleExact(header, body, file);
    SectionsAreSections(body);
    var title, sections := TitleOf(header, body, file), SectionsOf(body);
    var at := ChunksInOrder(source, file, title, header.tags, sections);
  }

  method ChunkMarkdown(source: string, file: string, content: string, yaml: string -> Header)
    returns (chunks: seq<Chunk>)
    ensures chunks == DocumentChunks(source, file, content, yaml)
    ensures AreDocumentChunks(source, file, content, yaml, chunks)
  {
    var (header, body) := ParseFrontmatter(content, yaml);
    var title := header.title;
    if title == "" {
      title := FirstH1(SplitN(body, "\n", 20));
    }
    if title == "" {
      title := file;
    }
    var sections := SplitSections(body);
    chunks := [];
    for i := 0 to |sections|
      invariant chunks == ChunksOf(source, file, title, header.tags, sections[..i])
    {
      NextSection(source, file, title, header.tags, sections, i);
      var text := Trim(sections[i]);
      if text == "" {
        continue;
      }
      chunks := chunks + [Chunk(ChunkId(source, file, i), source, file, title, text, header.tags)];
    }
    assert sections[..|sections|] == sections;
    DocumentIsExact(source, file, content, yaml);
  }
}
