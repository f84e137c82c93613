/**
The files an indexing run meets and the chunk identifiers they can have (internal/rag/indexer.go,
indexDir and isIndexable; chunk.go:53). File names are relative paths as filepath.Rel gives them,
and an identifier is real if some file can have a chunk with it.
*/
module RagFiles {
  import opened Text
  import opened Chunking
  import opened Chunks

  // filepath.Ext
  function Ext(path: string): string {
    if path == "" || path[|path| - 1] == '/' then ""
    else if path[|path| - 1] == '.' then "."
    else if Ext(path[..|path| - 1]) == "" then "" else Ext(path[..|path| - 1]) + [path[|path| - 1]]
  }

  function LowerCase(s: string): string {
    seq(|s|, i requires 0 <= i < |s| => if 'A' <= s[i] <= 'Z' then (s[i] as int + 32) as char else s[i])
  }

  predicate IsIndexable(path: string) {
    LowerCase(Ext(path)) in {".md", ".txt"}
  }

  // The name ends in ".md" or ".txt", in letters of either case.
  predicate IsNoteName(path: string) {
    var n := |path|;
    || (n >= 3 && path[n - 3] == '.' && path[n - 2] in "mM" && path[n - 1] in "dD")
    || (n >= 4 && path[n - 4] == '.' && path[n - 3] in "tT" && path[n - 2] in "xX" && path[n - 1] in "tT")
  }

  // The extension is the end of the path from a dot on that no dot and no slash follows.
  lemma {:induction false} ExtAt(path: string, k: nat)
    requires k < |path| && path[k] == '.' && forall i :: k < i < |path| ==> path[i] != '.' && path[i] != '/'
    ensures Ext(path) == path[k..]
  {
    var n := |path| - 1;
    if k < n {
      ExtAt(path[..n], k);
      assert path[k..] == path[..n][k..] + [path[n]];
    }
  }

  lemma {:induction false} ExtIsEnd(path: string)
    requires Ext(path) != ""
    ensures |Ext(path)| <= |path| && Ext(path) == path[|path| - |Ext(path)|..] && Ext(path)[0] == '.'
  {
    var n := |path| - 1;
    if path[n] != '.' {
      ExtIsEnd(path[..n]);
    }
  }

  lemma LowerMd(e: string)
    ensures LowerCase(e) == ".md" <==> |e| == 3 && e[0] == '.' && e[1] in "mM" && e[2] in "dD"
  {
    var low := LowerCase(e);
    assert |low| == |e|;
    if |e| == 3 {
      assert low == [low[0], low[1], low[2]] && ".md" == ['.', 'm', 'd'];
    }
  }

  lemma LowerTxt(e: string)
    ensures LowerCase(e) == ".txt" <==> |e| == 4 && e[0] == '.' && e[1] in "tT" && e[2] in "xX" && e[3] in "tT"
  {
    var low := LowerCase(e);
    assert |low| == |e|;
    if |e| == 4 {
      assert low == [low[0], low[1], low[2], low[3]] && ".txt" == ['.', 't', 'x', 't'];
    }
  }

  lemma IndexableIff(path: string)
    ensures IsIndexable(path) <==> IsNoteName(path)
  {
    var n, e := |path|, Ext(path);
    LowerMd(e);
    LowerTxt(e);
    if e != "" {
      ExtIsEnd(path);
      assert forall i :: 0 <= i < |e| ==> path[n - |e| + i] == e[i];
    }
    if IsNoteName(path) {
      var k := if path[n - 3] == '.' && path[n - 2] in "mM" then n - 3 else n - 4;
      ExtAt(path, k);
    }
  }

  // A relative path in its shortest form that does not leave the directory.
  predicate IsCleanPath(path: string) {
    forall i :: 0 <= i < |Split(path, "/")| ==> Split(path, "/")[i] !in {"", ".", ".."}
  }

  // The name of an indexed file: a path below the source's directory, or "." when the source is
  // itself a file.
  predicate IsFileName(file: string) {
    file == "." || (IsCleanPath(file) && IsIndexable(file))
  }

  // An identifier of a chunk that indexing the source can make.
  ghost predicate RealId(source: string, id: string) {
    exists file: string, n: nat :: IsFileName(file) && id == ChunkId(source, file, n)
  }

  lemma ExtOfSmallName()
    ensures IsFileName("c.md")
  {
    IndexableIff("c.md");
    SplitOnly(["c.md"], '/');
    assert Split("c.md", "/") == ["c.md"];
  }

  // Every source can have a chunk numbered 0.
  lemma SomeRealId(source: string)
    ensures RealId(source, ChunkId(source, "c.md", 0))
  {
    ExtOfSmallName();
  }

  lemma {:induction false} ExtBelow(dir: string, file: string)
    ensures Ext(dir + "/" + file) == Ext(file)
  {
    var path := dir + "/" + file;
    if file == "" {
      assert path[|path| - 1] == '/';
    } else {
      assert path[..|path| - 1] == dir + "/" + file[..|file| - 1];
      ExtBelow(dir, file[..|file| - 1]);
    }
  }

  lemma FileBelow(dir: string, file: string)
    ensures IsFileName(dir + "/" + file) <==> IsCleanPath(dir) && IsCleanPath(file) && IsIndexable(file)
  {
    ExtBelow(dir, file);
    SplitConcat(dir, file, '/');
    var a, b := Split(dir, "/"), Split(file, "/");
    assert Split(dir + "/" + file, "/") == a + b;
    assert forall i :: 0 <= i < |a| ==> (a + b)[i] == a[i];
    assert forall i :: 0 <= i < |b| ==> (a + b)[|a| + i] == b[i];
    assert dir + "/" + file != "." by {
      assert (dir + "/" + file)[|dir|] == '/';
    }
  }

  // t is the name of a directory below s.
  predicate Inside(s: string, t: string) {
    s + "/" <= t && IsCleanPath(t[|s| + 1..])
  }

  ghost predicate ShareId(s: string, t: string) {
    exists id :: RealId(s, id) && RealId(t, id)
  }

  lemma RealIdPrefix(source: string, id: string)
    requires RealId(source, id)
    ensures source + "/" <= id
  {
    var file: string, n: nat :| IsFileName(file) && id == ChunkId(source, file, n);
    assert id == source + "/" + (file + "/" + Itoa(n));
  }

  lemma SlashPrefixes(s: string, t: string, id: string)
    requires s + "/" <= id && t + "/" <= id
    ensures s == t || s + "/" <= t || t + "/" <= s
  {
    assert id[..|s| + 1] == s + "/" && id[..|t| + 1] == t + "/";
    assert |s| < |t| ==> t[..|s| + 1] == id[..|s| + 1];
    assert |t| < |s| ==> s[..|t| + 1] == id[..|t| + 1];
    assert |s| == |t| ==> s == id[..|s|] == t;
  }

  lemma IdBelow(s: string, rest: string, file: string, n: nat)
    ensures ChunkId(s + "/" + rest, file, n) == ChunkId(s, rest + "/" + file, n)
  {
    Assoc3(s + "/", rest, "/" + file + "/" + Itoa(n));
  }

  lemma Assoc3(a: string, b: string, c: string)
    ensures a + b + c == a + (b + c)
  {
  }

  lemma SharedIdIsBelow(s: string, t: string, id: string)
    requires s + "/" <= t && RealId(s, id) && RealId(t, id)
    ensures Inside(s, t)
  {
    var rest := t[|s| + 1..];
    assert t == s + "/" + rest;
    var f: string, n: nat :| IsFileName(f) && id == ChunkId(s, f, n);
    var g: string, m: nat :| IsFileName(g) && id == ChunkId(t, g, m);
    IdBelow(s, rest, g, m);
    ChunkIdInjective(s, f, n, rest + "/" + g, m);
    FileBelow(rest, g);
  }

  // The file c.md of the lower source is a file of the upper one as well.
  lemma BelowSharesId(s: string, t: string)
    requires Inside(s, t)
    ensures var rest := t[|s| + 1..];
            IsFileName("c.md") && IsFileName(rest + "/" + "c.md") &&
              ChunkId(t, "c.md", 0) == ChunkId(s, rest + "/" + "c.md", 0)
    ensures ShareId(s, t)
  {
    var rest := t[|s| + 1..];
    assert t == s + "/" + rest;
    ExtOfSmallName();
    FileBelow(rest, "c.md");
    assert IsCleanPath("c.md") by {
      SplitOnly(["c.md"], '/');
      assert Split("c.md", "/") == ["c.md"];
    }
    IdBelow(s, rest, "c.md", 0);
    SomeRealId(t);
    assert RealId(s, ChunkId(t, "c.md", 0));
  }

  // Two sources can have a chunk identifier in common exactly when one is named like a directory
  // below the other.
  lemma ShareIdIff(s: string, t: string)
    requires s != t
    ensures ShareId(s, t) <==> Inside(s, t) || Inside(t, s)
  {
    if ShareId(s, t) {
      var id :| RealId(s, id) && RealId(t, id);
      RealIdPrefix(s, id);
      RealIdPrefix(t, id);
      SlashPrefixes(s, t, id);
      if s + "/" <= t {
        SharedIdIsBelow(s, t, id);
      } else {
        SharedIdIsBelow(t, s, id);
      }
    }
    if Inside(s, t) { BelowSharesId(s, t); }
    if Inside(t, s) { BelowSharesId(t, s); }
  }

  // ---- the chunks of one file

  // These are all the chunks of one file's document, and there are some.
  ghost predicate IsDocument(source: string, chunks: seq<Chunk>) {
    chunks != [] && exists file: string, content: string, yaml: string -> Header ::
      IsFileName(file) && chunks == DocumentChunks(source, file, content, yaml)
  }

  predicate IdsDistinct(chunks: seq<Chunk>) {
    forall i, j :: 0 <= i < j < |chunks| ==> chunks[i].id != chunks[j].id
  }

  ghost predicate NumberedInFile(source: string, c: Chunk) {
    exists n: nat :: c.id == ChunkId(source, c.file, n)
  }

  lemma ChunkNumbered(source: string, file: string, title: string, tags: seq<string>, sections: seq<string>, c: Chunk)
    requires c in ChunksOf(source, file, title, tags, sections)
    ensures c.file == file && NumberedInFile(source, c)
  {
    ChunksExact(source, file, title, tags, sections, c);
    var k: nat :| ChunkAt(source, file, title, tags, sections, k, c);
    assert c.id == ChunkId(source, file, k);
  }

  lemma SectionIds(source: string, file: string, title: string, tags: seq<string>, sections: seq<string>)
    ensures var cs := ChunksOf(source, file, title, tags, sections);
            && IdsDistinct(cs)
            && forall i :: 0 <= i < |cs| ==> cs[i].file == file && NumberedInFile(source, cs[i])
  {
    var cs := ChunksOf(source, file, title, tags, sections);
    ChunkIdsDistinct(source, file, title, tags, sections);
    forall i | 0 <= i < |cs|
      ensures cs[i].file == file && NumberedInFile(source, cs[i])
    {
      ChunkNumbered(source, file, title, tags, sections, cs[i]);
    }
  }

  lemma DocumentIds(source: string, file: string, content: string, yaml: string -> Header)
    ensures var cs := DocumentChunks(source, file, content, yaml);
            && IdsDistinct(cs)
            && forall i :: 0 <= i < |cs| ==> cs[i].file == file && NumberedInFile(source, cs[i])
  {
    var (header, body) := ParseFrontmatter(content, yaml);
    SectionIds(source, file, TitleOf(header, body, file), header.tags, SectionsOf(body));
  }

  lemma NumberedIsReal(source: string, c: Chunk)
    requires NumberedInFile(source, c) && IsFileName(c.file)
    ensures RealId(source, c.id)
  {
    var n: nat :| c.id == ChunkId(source, c.file, n);
  }

  lemma DocumentIsReal(source: string, chunks: seq<Chunk>)
    requires IsDocument(source, chunks)
    ensures IdsDistinct(chunks) && forall i :: 0 <= i < |chunks| ==> RealId(source, chunks[i].id)
  {
    var file: string, content: string, yaml: string -> Header :|
      IsFileName(file) && chunks == DocumentChunks(source, file, content, yaml);
    DocumentIds(source, file, content, yaml);
    forall i | 0 <= i < |chunks|
      ensures RealId(source, chunks[i].id)
    {
      NumberedIsReal(source, chunks[i]);
    }
  }

  // ---- a document with any number of chunks

  function HeadingLines(n: nat): seq<string> { seq(n, _ => "## x") }

  lemma {:induction false} HeadedAlone(n: nat)
    ensures Headed(HeadingLines(n)) == seq(n, _ => ["## x"])
  {
    if n > 0 {
      HeadedAlone(n - 1);
      assert HeadingLines(n)[..n - 1] == HeadingLines(n - 1);
      assert seq(n, _ => ["## x"]) == seq(n - 1, _ => ["## x"]) + [["## x"]];
    }
  }

  lemma SmallPiece(texts: seq<string>, text: string)
    requires |text| <= MAX_CHUNK_RUNES
    ensures AllPieces(texts + [text]) == AllPieces(texts) + [text]
  {
    assert PiecesOf(text) == [text];
    assert (texts + [text])[..|texts|] == texts;
  }

  lemma {:induction false} SmallPieces(texts: seq<string>)
    requires forall i :: 0 <= i < |texts| ==> |texts[i]| <= MAX_CHUNK_RUNES
    ensures AllPieces(texts) == texts
  {
    if texts != [] {
      var n := |texts| - 1;
      SmallPieces(texts[..n]);
      SmallPiece(texts[..n], texts[n]);
      assert texts == texts[..n] + [texts[n]];
    }
  }

  lemma HeadingSections(n: nat)
    requires n > 0
    ensures var content := Join(HeadingLines(n), "\n");
            !(FENCE <= content) && SectionsOf(content) == HeadingLines(n)
  {
    var lines := HeadingLines(n);
    var content := Join(lines, "\n");
    SplitOnly(lines, '\n');
    assert Split(content, "\n") == lines;
    HeadedAlone(n);
    assert RawSections(content) == lines by {
      forall i | 0 <= i < n ensures RawSections(content)[i] == lines[i] {
        assert Headed(lines)[i] == ["## x"];
      }
    }
    SmallPieces(lines);
    assert content[0] == '#';
  }

  predicate HasIdAt(chunks: seq<Chunk>, i: nat, id: string) { i < |chunks| && chunks[i].id == id }

  lemma HeadingChunks(source: string, file: string, title: string, n: nat)
    ensures var cs, id := ChunksOf(source, file, title, [], HeadingLines(n + 1)), ChunkId(source, file, n);
            exists i: nat :: HasIdAt(cs, i, id)
    ensures n == 0 ==> |ChunksOf(source, file, title, [], HeadingLines(n + 1))| == 1
  {
    var sections := HeadingLines(n + 1);
    assert sections[n][0] == '#';
    assert !IsBlank(sections[n]);
    var c := Chunk(ChunkId(source, file, n), source, file, title, Trim(sections[n]), []);
    TrimIsStripped(sections[n]);
    assert ChunkAt(source, file, title, [], sections, n, c);
    ChunksExact(source, file, title, [], sections, c);
    var cs := ChunksOf(source, file, title, [], sections);
    var i :| 0 <= i < |cs| && cs[i] == c;
    assert HasIdAt(cs, i, c.id);
    if n == 0 {
      assert sections[..0] == [];
    }
  }

  lemma PlainDocument(source: string, file: string, content: string, yaml: string -> Header)
    requires !(FENCE <= content)
    ensures DocumentChunks(source, file, content, yaml) ==
            ChunksOf(source, file, TitleOf(Header("", []), content, file), [], SectionsOf(content))
  {
    assert ParseFrontmatter(content, yaml) == (Header("", []), content);
  }

  lemma DocumentIsDocument(source: string, file: string, content: string, yaml: string -> Header)
    requires IsFileName(file) && DocumentChunks(source, file, content, yaml) != []
    ensures IsDocument(source, DocumentChunks(source, file, content, yaml))
  {
  }

  // For every file name and number there is a document with a chunk of that number.
  lemma DocumentWith(source: string, file: string, n: nat) returns (chunks: seq<Chunk>, i: nat)
    requires IsFileName(file)
    ensures IsDocument(source, chunks) && HasIdAt(chunks, i, ChunkId(source, file, n))
    ensures n == 0 ==> |chunks| == 1
  {
    var content := Join(HeadingLines(n + 1), "\n");
    var yaml := (s: string) => Header("", []);
    var title := TitleOf(Header("", []), content, file);
    HeadingSections(n + 1);
    PlainDocument(source, file, content, yaml);
    HeadingChunks(source, file, title, n);
    chunks := ChunksOf(source, file, title, [], HeadingLines(n + 1));
    i :| HasIdAt(chunks, i, ChunkId(source, file, n));
    DocumentIsDocument(source, file, content, yaml);
  }

  lemma OneChunkWith(source: string, file: string) returns (chunks: seq<Chunk>)
    requires IsFileName(file)
    ensures IsDocument(source, chunks) && |chunks| == 1 && chunks[0].id == ChunkId(source, file, 0)
    ensures RealId(source, chunks[0].id)
  {
    var i;
    chunks, i := DocumentWith(source, file, 0);
    assert i == 0;
    ChunkIdIsReal(source, file, 0);
  }

  lemma ChunkIdIsReal(source: string, file: string, n: nat)
    requires IsFileName(file)
    ensures RealId(source, ChunkId(source, file, n))
  {
  }

  // A source and one below it, each with a file whose one chunk has the same identifier.
  lemma DocumentsBelow(s: string, t: string) returns (cs: seq<Chunk>, ct: seq<Chunk>)
    requires Inside(s, t)
    ensures IsDocument(s, cs) && IsDocument(t, ct) && |cs| == |ct| == 1 && cs[0].id == ct[0].id
    ensures RealId(s, cs[0].id)
  {
    BelowSharesId(s, t);
    cs := OneChunkWith(s, t[|s| + 1..] + "/" + "c.md");
    ct := OneChunkWith(t, "c.md");
  }
}
