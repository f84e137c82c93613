/**
Access control and the cached list of readable logs (internal/logs/logs.go, checkACL, Update and
ListAccessible). A FileSystem value stands for everything a scan learns from the operating system, at
one instant.
*/
module LogAccess {
  import opened Wrappers

  const JOURNALD_PREFIX := "journald://"
  const LIST_CACHE_TTL := 30_000_000_000

  datatype FileInfo = FileInfo(path: string, sizeBytes: int, lineCount: int, readable: bool)

  datatype FileSystem = FileSystem(
    glob: string -> Option<seq<string>>,       // None: malformed pattern
    matchGlob: (string, string) -> bool,       // pattern, path
    isFile: string -> bool,                    // exists and is not a directory
    clean: string -> string,                   // normalised, symbolic links resolved
    size: string -> int,
    lineCount: string -> int,
    openedPath: string -> Option<string>)      // real path behind the opened file, None if it cannot be opened

  datatype Access = Access(whitelist: seq<string>, blacklist: seq<string>, journald: bool)

  // ---- specification

  // The blacklist wins over the whitelist.
  ghost predicate Permitted(fs: FileSystem, path: string, acl: Access) {
    && (forall p :: p in acl.blacklist ==> !fs.matchGlob(p, path))
    && (exists p :: p in acl.whitelist && fs.matchGlob(p, path))
  }

  // What fileInfoWithACL reports about a path: None is an error.
  ghost function InfoOf(fs: FileSystem, path: string, acl: Access): Option<FileInfo> {
    var p := fs.clean(path);
    if !fs.isFile(p) then None
    else if fs.openedPath(p).Some? && Permitted(fs, fs.openedPath(p).value, acl)
    then Some(FileInfo(p, fs.size(p), fs.lineCount(p), true))
    else Some(FileInfo(p, fs.size(p), 0, false))
  }

  // The entries for one globbed path: none or one.
  ghost function EntryFor(fs: FileSystem, path: string, acl: Access): seq<FileInfo> {
    if !fs.isFile(path) || !Permitted(fs, fs.clean(path), acl) then []
    else match InfoOf(fs, fs.clean(path), acl)
      case Some(info) => [info]
      case None => [FileInfo(fs.clean(path), 0, 0, false)]
  }

  ghost function EntriesFor(fs: FileSystem, paths: seq<string>, acl: Access): seq<FileInfo> {
    if paths == [] then []
    else EntriesFor(fs, paths[..|paths| - 1], acl) + EntryFor(fs, paths[|paths| - 1], acl)
  }

  // Every element once, where it occurs first.
  function Distinct(s: seq<string>): (r: seq<string>)
    ensures forall x :: x in r <==> x in s
    ensures forall i, j :: 0 <= i < j < |r| ==> r[i] != r[j]
  {
    if s == [] then [] else
    var n := |s| - 1;
    assert s == s[..n] + [s[n]];
    if s[n] in s[..n] then Distinct(s[..n]) else Distinct(s[..n]) + [s[n]]
  }

  function Globbed(fs: FileSystem, patterns: seq<string>): seq<string> {
    if patterns == [] then [] else
    var n := |patterns| - 1;
    Globbed(fs, patterns[..n]) + fs.glob(patterns[n]).GetOr([])
  }

  ghost function Listing(fs: FileSystem, acl: Access): seq<FileInfo> {
    (if acl.journald then [FileInfo(JOURNALD_PREFIX, 0, 0, true)] else []) +
    EntriesFor(fs, Distinct(Globbed(fs, acl.whitelist)), acl)
  }

  // ---- what the listing contains

  // A file is listed exactly when some whitelist pattern expands to it and its resolved path is permitted.
  lemma {:induction false} EntriesExact(fs: FileSystem, paths: seq<string>, acl: Access, info: FileInfo)
    ensures info in EntriesFor(fs, paths, acl) <==> exists p :: p in paths && info in EntryFor(fs, p, acl)
  {
    if paths != [] {
      var n := |paths| - 1;
      EntriesExact(fs, paths[..n], acl, info);
      assert paths == paths[..n] + [paths[n]];
      assert paths[n] in paths;
    }
  }

  ghost predicate MatchesSome(fs: FileSystem, patterns: seq<string>, path: string) {
    exists i :: 0 <= i < |patterns| && fs.matchGlob(patterns[i], path)
  }

  // One of the patterns expands to the path.
  ghost predicate ExpandsTo(fs: FileSystem, patterns: seq<string>, path: string) {
    exists i :: 0 <= i < |patterns| && fs.glob(patterns[i]).Some? && path in fs.glob(patterns[i]).value
  }

  lemma {:induction false} GlobbedExact(fs: FileSystem, patterns: seq<string>, path: string)
    ensures path in Globbed(fs, patterns) <==> ExpandsTo(fs, patterns, path)
  {
    if patterns != [] {
      var n := |patterns| - 1;
      GlobbedExact(fs, patterns[..n], path);
      assert forall i :: 0 <= i < n ==> patterns[..n][i] == patterns[i];
      if ExpandsTo(fs, patterns[..n], path) {
        var i :| 0 <= i < n && fs.glob(patterns[..n][i]).Some? && path in fs.glob(patterns[..n][i]).value;
        assert fs.glob(patterns[i]).Some? && path in fs.glob(patterns[i]).value;
      }
    }
  }

  // What is said of a file that is gone by then, and of one that is there: its size, and whether it may be
  // read, which is decided by the path behind the opened file. Lines are only counted in readable files.
  ghost predicate Describes(fs: FileSystem, acl: Access, c: string, info: FileInfo) {
    var q := fs.clean(c);
    if !fs.isFile(q) then info.path == c && info.sizeBytes == 0 && info.lineCount == 0 && !info.readable
    else
      && info.path == q && info.sizeBytes == fs.size(q)
      && (info.readable <==>
            && fs.openedPath(q).Some? && !MatchesSome(fs, acl.blacklist, fs.openedPath(q).value)
            && MatchesSome(fs, acl.whitelist, fs.openedPath(q).value))
      && info.lineCount == if info.readable then fs.lineCount(q) else 0
  }

  // A file that the lists let be listed.
  ghost predicate MayBeListed(fs: FileSystem, acl: Access, p: string) {
    && ExpandsTo(fs, acl.whitelist, p) && fs.isFile(p)
    && !MatchesSome(fs, acl.blacklist, fs.clean(p)) && MatchesSome(fs, acl.whitelist, fs.clean(p))
  }

  lemma PermittedExact(fs: FileSystem, acl: Access, path: string)
    ensures Permitted(fs, path, acl) <==> !MatchesSome(fs, acl.blacklist, path) && MatchesSome(fs, acl.whitelist, path)
  {
    assert forall p :: p in acl.whitelist <==> exists i :: 0 <= i < |acl.whitelist| && acl.whitelist[i] == p;
    assert forall p :: p in acl.blacklist <==> exists i :: 0 <= i < |acl.blacklist| && acl.blacklist[i] == p;
  }

  lemma EntryExact(fs: FileSystem, acl: Access, p: string, info: FileInfo)
    requires ExpandsTo(fs, acl.whitelist, p)
    ensures info in EntryFor(fs, p, acl) <==> MayBeListed(fs, acl, p) && Describes(fs, acl, fs.clean(p), info)
  {
    var q := fs.clean(fs.clean(p));
    PermittedExact(fs, acl, fs.clean(p));
    if fs.openedPath(q).Some? { PermittedExact(fs, acl, fs.openedPath(q).value); }
  }

  lemma ListingExact(fs: FileSystem, acl: Access, info: FileInfo)
    ensures info in Listing(fs, acl) <==>
              (acl.journald && info == FileInfo("journald://", 0, 0, true)) ||
              exists p :: MayBeListed(fs, acl, p) && Describes(fs, acl, fs.clean(p), info)
  {
    var paths := Distinct(Globbed(fs, acl.whitelist));
    EntriesExact(fs, paths, acl, info);
    if p :| p in paths && info in EntryFor(fs, p, acl) {
      GlobbedExact(fs, acl.whitelist, p);
      EntryExact(fs, acl, p, info);
    }
    if p :| MayBeListed(fs, acl, p) && Describes(fs, acl, fs.clean(p), info) {
      GlobbedExact(fs, acl.whitelist, p);
      EntryExact(fs, acl, p, info);
      assert p in paths;
    }
  }

  // Content is only ever counted behind a path the lists permit.
  lemma ReadableIsPermitted(fs: FileSystem, acl: Access, info: FileInfo)
    requires info in Listing(fs, acl) && info.readable && info.path != JOURNALD_PREFIX
    ensures fs.openedPath(info.path).Some? && !MatchesSome(fs, acl.blacklist, fs.openedPath(info.path).value)
    ensures MatchesSome(fs, acl.whitelist, fs.openedPath(info.path).value)
  {
    ListingExact(fs, acl, info);
  }

  // The globbed paths that lead to an entry.
  ghost predicate Listed(fs: FileSystem, acl: Access, path: string) {
    path in Globbed(fs, acl.whitelist) && fs.isFile(path) && Permitted(fs, fs.clean(path), acl)
  }

  ghost predicate PathsDistinct(infos: seq<FileInfo>) {
    forall i, j :: 0 <= i < j < |infos| ==> infos[i].path != infos[j].path
  }

  // Resolving a path a second time does not change it.
  ghost predicate CleanIsFinal(fs: FileSystem) {
    forall q :: fs.clean(fs.clean(q)) == fs.clean(q)
  }

  lemma EntryPath(fs: FileSystem, p: string, acl: Access)
    requires CleanIsFinal(fs)
    ensures EntryFor(fs, p, acl) != [] <==> fs.isFile(p) && Permitted(fs, fs.clean(p), acl)
    ensures EntryFor(fs, p, acl) != [] ==> |EntryFor(fs, p, acl)| == 1 && EntryFor(fs, p, acl)[0].path == fs.clean(p)
  {
    assert fs.clean(fs.clean(p)) == fs.clean(p);
  }

  lemma EntriesStep(fs: FileSystem, paths: seq<string>, acl: Access, i: nat)
    requires i < |paths|
    ensures EntriesFor(fs, paths[..i + 1], acl) == EntriesFor(fs, paths[..i], acl) + EntryFor(fs, paths[i], acl)
  {
    assert paths[..i + 1][..i] == paths[..i];
  }

  lemma {:induction false} EntriesPrefix(fs: FileSystem, paths: seq<string>, acl: Access, i: nat)
    requires i <= |paths|
    ensures EntriesFor(fs, paths[..i], acl) <= EntriesFor(fs, paths, acl)
    decreases |paths| - i
  {
    if i < |paths| {
      EntriesStep(fs, paths, acl, i);
      EntriesPrefix(fs, paths, acl, i + 1);
    } else {
      assert paths[..i] == paths;
    }
  }

  lemma EntryAt(fs: FileSystem, paths: seq<string>, acl: Access, b: nat) returns (j: nat)
    requires b < |paths| && EntryFor(fs, paths[b], acl) != []
    ensures j == |EntriesFor(fs, paths[..b], acl)| < |EntriesFor(fs, paths, acl)|
    ensures EntriesFor(fs, paths, acl)[j] == EntryFor(fs, paths[b], acl)[0]
  {
    EntriesStep(fs, paths, acl, b);
    EntriesPrefix(fs, paths, acl, b + 1);
    j := |EntriesFor(fs, paths[..b], acl)|;
  }

  lemma TwoEntries(fs: FileSystem, paths: seq<string>, acl: Access, a: nat, b: nat) returns (i: nat, j: nat)
    requires a < b < |paths| && EntryFor(fs, paths[a], acl) != [] && EntryFor(fs, paths[b], acl) != []
    ensures i < j < |EntriesFor(fs, paths, acl)|
    ensures EntriesFor(fs, paths, acl)[i] == EntryFor(fs, paths[a], acl)[0]
    ensures EntriesFor(fs, paths, acl)[j] == EntryFor(fs, paths[b], acl)[0]
  {
    i := EntryAt(fs, paths, acl, a);
    j := EntryAt(fs, paths, acl, b);
    assert paths[..b][a] == paths[a] && paths[..b][..a] == paths[..a];
    var _ := EntryAt(fs, paths[..b], acl, a);
  }

  // The files with an entry resolve to different paths.
  ghost predicate ResolveApart(fs: FileSystem, paths: seq<string>, acl: Access) {
    forall a, b :: 0 <= a < b < |paths| ==> Apart(fs, paths[a], paths[b], acl)
  }

  ghost predicate Apart(fs: FileSystem, p: string, q: string, acl: Access) {
    EntryFor(fs, p, acl) != [] && EntryFor(fs, q, acl) != [] ==> fs.clean(p) != fs.clean(q)
  }

  lemma {:induction false} FromDistinct(fs: FileSystem, paths: seq<string>, acl: Access)
    requires CleanIsFinal(fs) && ResolveApart(fs, paths, acl)
    ensures PathsDistinct(EntriesFor(fs, paths, acl))
  {
    if paths != [] {
      var n := |paths| - 1;
      FromDistinct(fs, paths[..n], acl);
      EntryPath(fs, paths[n], acl);
      NotSeenBefore(fs, paths[..n], paths[n], acl);
    }
  }

  lemma NotSeenBefore(fs: FileSystem, paths: seq<string>, path: string, acl: Access)
    requires CleanIsFinal(fs) && forall a :: 0 <= a < |paths| ==> Apart(fs, paths[a], path, acl)
    ensures EntryFor(fs, path, acl) != [] ==>
              forall info :: info in EntriesFor(fs, paths, acl) ==> info.path != fs.clean(path)
  {
    if EntryFor(fs, path, acl) != [] {
      forall info | info in EntriesFor(fs, paths, acl)
        ensures info.path != fs.clean(path)
      {
        EntriesExact(fs, paths, acl, info);
        var p :| p in paths && info in EntryFor(fs, p, acl);
        EntryPath(fs, p, acl);
        assert Apart(fs, p, path, acl);
      }
    }
  }

  // Duplicates are removed before symbolic links are resolved, so the listed paths are distinct
  // exactly when no two different globbed files resolve to the same path.
  lemma FilePathsDistinctIff(fs: FileSystem, acl: Access)
    requires CleanIsFinal(fs)
    ensures PathsDistinct(EntriesFor(fs, Distinct(Globbed(fs, acl.whitelist)), acl)) <==>
            forall p, q :: Listed(fs, acl, p) && Listed(fs, acl, q) && p != q ==> fs.clean(p) != fs.clean(q)
  {
    var paths := Distinct(Globbed(fs, acl.whitelist));
    if forall p, q :: Listed(fs, acl, p) && Listed(fs, acl, q) && p != q ==> fs.clean(p) != fs.clean(q) {
      forall a, b | 0 <= a < b < |paths|
        ensures Apart(fs, paths[a], paths[b], acl)
      {
        EntryPath(fs, paths[a], acl);
        EntryPath(fs, paths[b], acl);
        assert paths[a] in paths && paths[b] in paths && paths[a] != paths[b];
      }
      FromDistinct(fs, paths, acl);
    } else {
      var p, q :| Listed(fs, acl, p) && Listed(fs, acl, q) && p != q && fs.clean(p) == fs.clean(q);
      ListedTwice(fs, acl, paths, p, q);
    }
  }

  lemma ListedTwice(fs: FileSystem, acl: Access, paths: seq<string>, p: string, q: string)
    requires CleanIsFinal(fs) && p in paths && q in paths && p != q && fs.clean(p) == fs.clean(q)
    requires Listed(fs, acl, p) && Listed(fs, acl, q)
    ensures !PathsDistinct(EntriesFor(fs, paths, acl))
  {
    EntryPath(fs, p, acl);
    EntryPath(fs, q, acl);
    var a, b :| 0 <= a < |paths| && 0 <= b < |paths| && paths[a] == p && paths[b] == q;
    var i, j := TwoEntries(fs, paths, acl, Min(a, b), Max(a, b));
  }

  // Every glob yields the two given paths, which are links to one target.
  function TwoLinks(p: string, q: string, target: string): FileSystem {
    FileSystem(_ => Some([p, q]), (_, _) => true, _ => true, _ => target, _ => 0, _ => 0, _ => None)
  }

  lemma TwoLinksListed(p: string, q: string, target: string, glob: string)
    requires p != q
    ensures var fs, acl := TwoLinks(p, q, target), Access([glob], [], false);
            Listed(fs, acl, p) && Listed(fs, acl, q) && fs.clean(p) == fs.clean(q)
  {
    var fs, acl := TwoLinks(p, q, target), Access([glob], [], false);
    assert acl.whitelist[..0] == [];
    assert Globbed(fs, acl.whitelist) == [p, q];
    assert glob in acl.whitelist && fs.matchGlob(glob, target);
  }

  // Two links to one file: both are listed under the same path.
  lemma LinksAreListedTwice(p: string, q: string, target: string, glob: string)
    requires p != q
    ensures !PathsDistinct(Listing(TwoLinks(p, q, target), Access([glob], [], false)))
  {
    var fs, acl := TwoLinks(p, q, target), Access([glob], [], false);
    TwoLinksListed(p, q, target, glob);
    FilePathsDistinctIff(fs, acl);
    var entries := EntriesFor(fs, Distinct(Globbed(fs, acl.whitelist)), acl);
    assert [] + entries == entries;
  }

  lemma VisitPath(fs: FileSystem, visited: seq<string>, path: string, acl: Access)
    ensures EntriesFor(fs, Distinct(visited + [path]), acl) ==
            if path in visited then EntriesFor(fs, Distinct(visited), acl)
            else EntriesFor(fs, Distinct(visited), acl) + EntryFor(fs, path, acl)
  {
    var d := Distinct(visited);
    assert (visited + [path])[..|visited|] == visited;
    assert (d + [path])[..|d|] == d;
  }

  lemma VisitNext(fs: FileSystem, base: seq<string>, paths: seq<string>, m: nat, acl: Access,
                  start: seq<FileInfo>, results: seq<FileInfo>)
    requires m < |paths| && results == start + EntriesFor(fs, Distinct(base + paths[..m]), acl)
    ensures base + paths[..m + 1] == (base + paths[..m]) + [paths[m]]
    ensures (if paths[m] in base + paths[..m] then results else results + EntryFor(fs, paths[m], acl)) ==
            start + EntriesFor(fs, Distinct(base + paths[..m + 1]), acl)
  {
    var visited := base + paths[..m];
    PrefixStep(base, paths, m);
    VisitPath(fs, visited, paths[m], acl);
    Assoc(start, EntriesFor(fs, Distinct(visited), acl), EntryFor(fs, paths[m], acl));
  }

  lemma VisitPattern(fs: FileSystem, patterns: seq<string>, i: nat)
    requires i < |patterns|
    ensures Globbed(fs, patterns[..i + 1]) == Globbed(fs, patterns[..i]) + fs.glob(patterns[i]).GetOr([])
  {
    assert patterns[..i + 1][..i] == patterns[..i];
  }

  // ---- the code

  method CheckACL(fs: FileSystem, path: string, whitelist: seq<string>, blacklist: seq<string>) returns (ok: bool)
    ensures ok <==> Permitted(fs, path, Access(whitelist, blacklist, false))
    ensures ok <==> (forall i :: 0 <= i < |blacklist| ==> !fs.matchGlob(blacklist[i], path)) &&
                    (exists i :: 0 <= i < |whitelist| && fs.matchGlob(whitelist[i], path))
  {
    for i := 0 to |blacklist|
      invariant forall j :: 0 <= j < i ==> !fs.matchGlob(blacklist[j], path)
    {
      if fs.matchGlob(blacklist[i], path) {
        return false;
      }
    }
    for i := 0 to |whitelist|
      invariant forall j :: 0 <= j < i ==> !fs.matchGlob(whitelist[j], path)
    {
      if fs.matchGlob(whitelist[i], path) {
        return true;
      }
    }
    ok := false;
  }

  // ---- the cache, as its critical sections leave it

  // One finished scan: what it saw, and the clock reading after it.
  datatype ScanRecord = ScanRecord(fs: FileSystem, ended: int)

  // The lists in force, the time stamp of the cached list, and all scans so far. A cached list is
  // always that of the last scan.
  datatype State = State(acl: Access, cacheTime: Option<int>, log: seq<ScanRecord>)

  // What is done under the write lock. A Scan reads the clock before it looks at the cache and after
  // it has listed the files.
  datatype Operation = Update(acl: Access) | Scan(fs: FileSystem, checkedAt: int, doneAt: int)

  predicate Hit(st: State, at: int) { st.cacheTime.Some? && at - st.cacheTime.value < LIST_CACHE_TTL }

  function Operate(st: State, op: Operation): State {
    match op
    case Update(acl) => st.(acl := acl, cacheTime := None)
    case Scan(fs, checkedAt, doneAt) =>
      if Hit(st, checkedAt) then st else st.(cacheTime := Some(doneAt), log := st.log + [ScanRecord(fs, doneAt)])
  }

  function OperateAll(st: State, ops: seq<Operation>): State {
    if ops == [] then st else Operate(OperateAll(st, ops[..|ops| - 1]), ops[|ops| - 1])
  }

  // What is served: the last scan's file system under the lists in force.
  ghost function LastListing(st: State): seq<FileInfo> {
    if st.log == [] then [] else Listing(st.log[|st.log| - 1].fs, st.acl)
  }

  predicate Stamped(st: State) {
    st.cacheTime.Some? ==> st.log != [] && st.log[|st.log| - 1].ended == st.cacheTime.value
  }

  // ---- any number of callers and updates at the same time

  // Returned carries the list, the lists in force when it was handed out, and that time.
  datatype Phase =
    | Called
    | Missed
    | Returned(list: seq<FileInfo>, acl: Access, at: int)

  datatype System = System(now: int, st: State, calls: map<nat, Phase>)

  // Fast and Slow are the two critical sections of a call; a slow one that scans takes its time while
  // it holds the write lock.
  datatype Event =
    | Tick(passed: nat)
    | Updated(acl: Access)
    | Begin(id: nat)
    | Fast(id: nat)
    | Slow(id: nat, fs: FileSystem, took: nat)

  ghost function Step(s: System, e: Event): System {
    match e
    case Tick(passed) => s.(now := s.now + passed)
    case Updated(acl) => s.(st := Operate(s.st, Update(acl)))
    case Begin(id) => if id in s.calls then s else s.(calls := s.calls[id := Called])
    case Fast(id) =>
      if id !in s.calls || !s.calls[id].Called? then s
      else if Hit(s.st, s.now) then s.(calls := s.calls[id := Returned(LastListing(s.st), s.st.acl, s.now)])
      else s.(calls := s.calls[id := Missed])
    case Slow(id, fs, took) =>
      if id !in s.calls || !s.calls[id].Missed? then s else
      var now := if Hit(s.st, s.now) then s.now else s.now + took;
      var st := Operate(s.st, Scan(fs, s.now, now));
      System(now, st, s.calls[id := Returned(LastListing(st), st.acl, now)])
  }

  ghost function Run(start: int, acl: Access, events: seq<Event>): System {
    if events == [] then System(start, State(acl, None, []), map[])
    else Step(Run(start, acl, events[..|events| - 1]), events[|events| - 1])
  }

  // The list is what this scan saw under these access lists, and the scan ended less than the cache's
  // time to live before it was handed out.
  ghost predicate FromScanOf(p: Phase, scan: ScanRecord) {
    p.Returned? ==> p.list == Listing(scan.fs, p.acl) && scan.ended <= p.at < scan.ended + 30_000_000_000
  }

  ghost predicate FromSomeScan(p: Phase, log: seq<ScanRecord>) {
    p.Returned? ==> exists i :: 0 <= i < |log| && FromScanOf(p, log[i])
  }

  ghost predicate Sound(s: System) {
    && Stamped(s.st) && (s.st.cacheTime.Some? ==> s.st.cacheTime.value <= s.now)
    && forall id :: id in s.calls ==> FromSomeScan(s.calls[id], s.st.log)
  }

  lemma LongerLog(p: Phase, log: seq<ScanRecord>, more: seq<ScanRecord>)
    requires FromSomeScan(p, log) && log <= more
    ensures FromSomeScan(p, more)
  {
    if p.Returned? {
      var i :| 0 <= i < |log| && FromScanOf(p, log[i]);
      assert more[i] == log[i];
    }
  }

  lemma ServedNow(st: State, now: int)
    requires Stamped(st) && Hit(st, now) && st.cacheTime.value <= now
    ensures FromSomeScan(Returned(LastListing(st), st.acl, now), st.log)
  {
    assert FromScanOf(Returned(LastListing(st), st.acl, now), st.log[|st.log| - 1]);
  }

  lemma StepSound(s: System, e: Event)
    requires Sound(s)
    ensures Sound(Step(s, e))
  {
    var s' := Step(s, e);
    forall id | id in s.calls
      ensures FromSomeScan(s.calls[id], s'.st.log)
    {
      LongerLog(s.calls[id], s.st.log, s'.st.log);
    }
    match e
    case Fast(id) => if Hit(s.st, s.now) { ServedNow(s.st, s.now); }
    case Slow(id, fs, took) => if id in s.calls && s.calls[id].Missed? { ServedNow(s'.st, s'.now); }
    case _ =>
  }

  lemma {:induction false} RunSound(start: int, acl: Access, events: seq<Event>)
    ensures Sound(Run(start, acl, events))
  {
    if events != [] {
      RunSound(start, acl, events[..|events| - 1]);
      StepSound(Run(start, acl, events[..|events| - 1]), events[|events| - 1]);
    }
  }

  // A call that returns does so under the lists and at the time of that step.
  lemma ReturnedNow(s: System, e: Event, id: nat)
    requires id !in s.calls || !s.calls[id].Returned?
    requires id in Step(s, e).calls && Step(s, e).calls[id].Returned?
    ensures Step(s, e).calls[id].acl == Step(s, e).st.acl && Step(s, e).calls[id].at == Step(s, e).now
  {
  }

  // In every interleaving: when a call returns, its list is that of a scan that was really made and
  // ended less than 30 seconds before, under the access lists in force at that moment.
  lemma ListsAreFresh(start: int, acl: Access, events: seq<Event>, e: Event, id: nat)
    requires id !in Run(start, acl, events).calls || !Run(start, acl, events).calls[id].Returned?
    requires id in Run(start, acl, events + [e]).calls && Run(start, acl, events + [e]).calls[id].Returned?
    ensures var s := Run(start, acl, events + [e]);
            exists i :: 0 <= i < |s.st.log| && s.calls[id].list == Listing(s.st.log[i].fs, s.st.acl) &&
                        s.st.log[i].ended <= s.now < s.st.log[i].ended + 30_000_000_000
  {
    var s := Run(start, acl, events + [e]);
    assert (events + [e])[..|events|] == events;
    RunSound(start, acl, events + [e]);
    ReturnedNow(Run(start, acl, events), e, id);
    assert FromSomeScan(s.calls[id], s.st.log);
    var i :| 0 <= i < |s.st.log| && FromScanOf(s.calls[id], s.st.log[i]);
  }

  class Manager {
    var whitelist: seq<string>
    var blacklist: seq<string>
    var journald: bool
    var cachedFiles: array<FileInfo>
    var cacheTime: Option<int>
    // every scan that filled the cache
    ghost var log: seq<ScanRecord>

    ghost function Acl(): Access
      reads this
    {
      Access(whitelist, blacklist, journald)
    }

    ghost function Now(): State
      reads this
    {
      State(Acl(), cacheTime, log)
    }

    // A cached list that may still be served is the last scan's, under the lists now in force.
    ghost predicate Valid()
      reads this, cachedFiles
    {
      Stamped(Now()) && (cacheTime.Some? ==> cachedFiles[..] == LastListing(Now()))
    }

    constructor (whitelist: seq<string>, blacklist: seq<string>, journald: bool)
      ensures Valid() && Now() == State(Access(whitelist, blacklist, journald), None, [])
      ensures fresh(cachedFiles)
    {
      this.whitelist, this.blacklist, this.journald := whitelist, blacklist, journald;
      cachedFiles := new FileInfo[0];
      cacheTime := None;
      log := [];
    }

    method Update(whitelist: seq<string>, blacklist: seq<string>, journald: bool)
      requires Valid()
      modifies this
      ensures Valid() && Now() == Operate(old(Now()), Operation.Update(Access(whitelist, blacklist, journald)))
      ensures Acl() == Access(whitelist, blacklist, journald) && cacheTime == None && log == old(log)
      ensures cachedFiles == old(cachedFiles)
    {
      this.whitelist := whitelist;
      this.blacklist := blacklist;
      this.journald := journald;
      cacheTime := None;
    }

    // The critical section of the fast path, under the read lock: null when the cache cannot be used.
    method FromCache(now: int) returns (r: array?<FileInfo>)
      requires Valid()
      ensures r != null <==> Hit(Now(), now)
      ensures r != null <==> cacheTime.Some? && now - cacheTime.value < 30_000_000_000
      ensures r != null ==> fresh(r) && r != cachedFiles && r[..] == LastListing(Now())
    {
      r := null;
      if cacheTime.Some? && now - cacheTime.value < LIST_CACHE_TTL {
        r := Copied(cachedFiles[..]);
      }
    }

    static method Copied(s: seq<FileInfo>) returns (r: array<FileInfo>)
      ensures fresh(r) && r[..] == s
    {
      r := new FileInfo[|s|](i requires 0 <= i < |s| => s[i]);
    }

    method FileInfoWithACL(fs: FileSystem, path: string, whitelist: seq<string>, blacklist: seq<string>)
      returns (r: Option<FileInfo>)
      ensures r == InfoOf(fs, path, Access(whitelist, blacklist, false))
    {
      var p := fs.clean(path);
      if !fs.isFile(p) {
        return None;
      }
      var fi := FileInfo(p, fs.size(p), 0, false);
      var realPath := fs.openedPath(p);
      if realPath.None? {
        return Some(fi);
      }
      var ok := CheckACL(fs, realPath.value, whitelist, blacklist);
      if !ok {
        return Some(fi);
      }
      r := Some(fi.(readable := true, lineCount := fs.lineCount(p)));
    }

    // What one globbed path, seen for the first time, adds to the results.
    method NewEntry(fs: FileSystem, globbed: string) returns (entry: seq<FileInfo>)
      ensures entry == EntryFor(fs, globbed, Acl())
    {
      if !fs.isFile(globbed) {
        return [];
      }
      var path := fs.clean(globbed);
      var ok := CheckACL(fs, path, whitelist, blacklist);
      if !ok {
        return [];
      }
      var info := FileInfoWithACL(fs, path, whitelist, blacklist);
      if info.None? {
        return [FileInfo(path, 0, 0, false)];
      }
      entry := [info.value];
    }

    // The slow path up to its results, with the write lock held.
    method ScanFiles(fs: FileSystem) returns (results: seq<FileInfo>)
      ensures results == Listing(fs, Acl())
    {
      ghost var acl := Acl();
      results := [];
      if journald {
        results := results + [FileInfo(JOURNALD_PREFIX, 0, 0, true)];
      }
      ghost var start := results;
      var seen := {};
      ghost var visited: seq<string> := [];
      for i := 0 to |whitelist|
        invariant visited == Globbed(fs, whitelist[..i])
        invariant forall p :: p in seen <==> p in visited
        invariant results == start + EntriesFor(fs, Distinct(visited), acl)
      {
        VisitPattern(fs, whitelist, i);
        var matches := fs.glob(whitelist[i]);
        if matches.None? {
          continue;
        }
        var paths := matches.value;
        ghost var base := visited;
        for m := 0 to |paths|
          invariant visited == base + paths[..m]
          invariant forall p :: p in seen <==> p in visited
          invariant results == start + EntriesFor(fs, Distinct(visited), acl)
        {
          var path := paths[m];
          VisitNext(fs, base, paths, m, acl, start, results);
          visited := visited + [path];
          if path in seen {
            continue;
          }
          seen := seen + {path};
          var entry := NewEntry(fs, path);
          results := results + entry;
        }
        assert paths[..|paths|] == paths;
      }
      assert whitelist[..|whitelist|] == whitelist;
    }

    // The critical section of the slow path, under the write lock. It checks the cache again first.
    method FromScan(fs: FileSystem, checkedAt: int, doneAt: int) returns (r: array<FileInfo>)
      requires Valid()
      modifies this
      ensures Valid() && Now() == Operate(old(Now()), Operation.Scan(fs, checkedAt, doneAt))
      ensures fresh(r) && r != cachedFiles && (cachedFiles == old(cachedFiles) || fresh(cachedFiles))
      ensures r[..] == LastListing(Now()) && Acl() == old(Acl())
      ensures if old(cacheTime).Some? && checkedAt - old(cacheTime).value < 30_000_000_000
              then log == old(log) && log != [] && r[..] == Listing(log[|log| - 1].fs, Acl())
              else log == old(log) + [ScanRecord(fs, doneAt)] && r[..] == Listing(fs, Acl())
    {
      var cached := FromCache(checkedAt);
      if cached != null {
        return cached;
      }
      var results := ScanFiles(fs);
      cachedFiles := Copied(results);
      cacheTime := Some(doneAt);
      log := log + [ScanRecord(fs, doneAt)];
      r := Copied(results);
    }

    // Whatever other goroutines do to the manager, one critical section after the other.
    method Others(ops: seq<Operation>)
      requires Valid()
      modifies this
      ensures Valid() && Now() == OperateAll(old(Now()), ops)
      ensures cachedFiles == old(cachedFiles) || fresh(cachedFiles)
    {
      assert ops[..0] == [];
      for i := 0 to |ops|
        invariant Valid() && Now() == OperateAll(old(Now()), ops[..i])
        invariant cachedFiles == old(cachedFiles) || fresh(cachedFiles)
      {
        assert ops[..i + 1][..i] == ops[..i];
        match ops[i]
        case Update(acl) => Update(acl.whitelist, acl.blacklist, acl.journald);
        case Scan(fs, checkedAt, doneAt) => var _ := FromScan(fs, checkedAt, doneAt);
      }
      assert ops[..|ops|] == ops;
    }

    // The whole call, with any operations of others before it and between its two critical sections.
    // at is the clock reading at which it was decided what to return.
    method ListAccessible(before: seq<Operation>, now: int, between: seq<Operation>, fs: FileSystem, checkedAt: int,
                          doneAt: int)
      returns (r: array<FileInfo>, at: int)
      requires Valid()
      modifies this
      ensures Valid() && fresh(r) && r != cachedFiles && r[..] == LastListing(Now())
      ensures var first := OperateAll(old(Now()), before);
              var second := OperateAll(first, between);
              if Hit(first, now) then Now() == first && at == now
              else Now() == Operate(second, Operation.Scan(fs, checkedAt, doneAt)) &&
                   at == if Hit(second, checkedAt) then checkedAt else doneAt
      ensures Hit(Now(), at)
    {
      Others(before);
      var cached := FromCache(now);
      if cached != null {
        return cached, now;
      }
      Others(between);
      at := if cacheTime.Some? && checkedAt - cacheTime.value < LIST_CACHE_TTL then checkedAt else doneAt;
      r := FromScan(fs, checkedAt, doneAt);
    }
  }
}
