/**
What a server serves requests with, and how a reload replaces it (internal/mcp/server.go: New, Reload and the snapshot
in buildHandler; cmd/root.go: serve). Every method here is one critical section of the server's lock.
*/
module ServerReload {
  import opened Wrappers
  import opened RateLimit
  import opened Middleware
  import opened VerifyCache
  import opened LogAccess

  const SECOND := 1_000_000_000
  const VERIFY_CACHE_TTL := 600 * SECOND

  datatype TokenConfig = TokenConfig(name: string, token: string, scopes: seq<string>)

  datatype Authenticator = Authenticator(command: string, timeoutSeconds: int)

  datatype Tier = Tier(maxFailures: int, windowSeconds: int)

  datatype TwoTiers = TwoTiers(burst: Option<Tier>, sustained: Option<Tier>)

  // extensions stands for the parts that only New reads: Redis, databases and extension tools.
  datatype Config = Config(tokens: seq<TokenConfig>, authenticator: Option<Authenticator>, rateLimit: Option<TwoTiers>,
                           logs: Access, extensions: string)

  function Timeout(a: Authenticator): (r: int)
    ensures r > 0
  {
    if a.timeoutSeconds * SECOND <= 0 then 10 * SECOND else a.timeoutSeconds * SECOND
  }

  // ---- the configurations a server has run under, oldest first

  function Applied(versions: seq<Config>, loaded: Result<Config>): seq<Config> {
    match loaded
    case Ok(cfg) => versions + [cfg]
    case Err(_) => versions
  }

  function AllApplied(first: Config, loads: seq<Result<Config>>): (versions: seq<Config>)
    ensures |versions| > 0
  {
    if loads == [] then [first]
    else Applied(AllApplied(first, loads[..|loads| - 1]), loads[|loads| - 1])
  }

  predicate SameCommand(a: Config, b: Config) {
    a.authenticator.Some? && b.authenticator.Some? && a.authenticator.value.command == b.authenticator.value.command
  }

  // The version at which the last unbroken stretch of one and the same authenticator command began.
  function StretchStart(versions: seq<Config>): (r: nat)
    requires versions != []
    ensures r < |versions|
  {
    var n := |versions| - 1;
    if n > 0 && SameCommand(versions[n - 1], versions[n]) then StretchStart(versions[..n]) else n
  }

  lemma {:induction false} StretchIsUnbroken(versions: seq<Config>, i: nat)
    requires versions != []
    requires StretchStart(versions) < i < |versions|
    ensures SameCommand(versions[i - 1], versions[i])
    ensures SameCommand(versions[StretchStart(versions)], versions[i])
  {
    var n := |versions| - 1;
    if i < n {
      StretchIsUnbroken(versions[..n], i);
    } else if StretchStart(versions) < n - 1 {
      StretchIsUnbroken(versions[..n], n - 1);
    }
  }

  lemma {:induction false} StretchIsMaximal(versions: seq<Config>)
    requires versions != [] && StretchStart(versions) > 0
    ensures !SameCommand(versions[StretchStart(versions) - 1], versions[StretchStart(versions)])
  {
    var n := |versions| - 1;
    if SameCommand(versions[n - 1], versions[n]) {
      StretchIsMaximal(versions[..n]);
    }
  }

  // The reload changed nothing about the authenticator but its timeout.
  predicate OnlyTimeoutChanged(a: Config, b: Config) {
    SameCommand(a, b) && Timeout(a.authenticator.value) != Timeout(b.authenticator.value)
  }

  // The timeout in force, that of the version the cache was built at, is the configured one.
  predicate TimeoutIsCurrent(versions: seq<Config>)
    requires versions != []
  {
    var last := versions[|versions| - 1].authenticator;
    last.Some? ==>
      versions[StretchStart(versions)].authenticator.Some? &&
      Timeout(versions[StretchStart(versions)].authenticator.value) == Timeout(last.value)
  }

  predicate CurrentAt(versions: seq<Config>, k: nat) {
    0 < k <= |versions| ==> TimeoutIsCurrent(versions[..k])
  }

  predicate TimeoutAloneChangedAt(versions: seq<Config>, k: nat) {
    0 < k < |versions| && OnlyTimeoutChanged(versions[k - 1], versions[k])
  }

  lemma CurrentStep(versions: seq<Config>)
    requires |versions| > 1 && TimeoutIsCurrent(versions[..|versions| - 1])
    ensures TimeoutIsCurrent(versions) <==> !OnlyTimeoutChanged(versions[|versions| - 2], versions[|versions| - 1])
  {
    var n := |versions| - 1;
    if SameCommand(versions[n - 1], versions[n]) {
      var start := StretchStart(versions);
      assert start == StretchStart(versions[..n]) && versions[..n][start] == versions[start];
      assert versions[..n][n - 1] == versions[n - 1];
    }
  }

  ghost predicate AlwaysCurrent(versions: seq<Config>) { forall k: nat :: CurrentAt(versions, k) }

  ghost predicate NeverTimeoutAlone(versions: seq<Config>) { forall k: nat :: !TimeoutAloneChangedAt(versions, k) }

  lemma CurrentSplits(versions: seq<Config>)
    requires |versions| > 1
    ensures AlwaysCurrent(versions) <==> AlwaysCurrent(versions[..|versions| - 1]) && TimeoutIsCurrent(versions)
    ensures AlwaysCurrent(versions) ==> TimeoutIsCurrent(versions[..|versions| - 1])
  {
    var n := |versions| - 1;
    var less := versions[..n];
    assert versions[..n + 1] == versions && less[..n] == less;
    forall k: nat | k <= n ensures CurrentAt(versions, k) <==> CurrentAt(less, k) {
      assert less[..k] == versions[..k];
    }
    assert CurrentAt(versions, n + 1) <==> TimeoutIsCurrent(versions);
    assert CurrentAt(versions, n) <==> TimeoutIsCurrent(less);
    if AlwaysCurrent(less) && TimeoutIsCurrent(versions) {
      forall k: nat ensures CurrentAt(versions, k) {
        assert k <= n ==> CurrentAt(less, k);
      }
    }
    if AlwaysCurrent(versions) {
      forall k: nat ensures CurrentAt(less, k) {
        assert CurrentAt(versions, k);
      }
    }
  }

  lemma ChangesSplit(versions: seq<Config>)
    requires |versions| > 1
    ensures NeverTimeoutAlone(versions) <==>
              NeverTimeoutAlone(versions[..|versions| - 1]) &&
                !OnlyTimeoutChanged(versions[|versions| - 2], versions[|versions| - 1])
  {
    var n := |versions| - 1;
    var less := versions[..n];
    forall k: nat | k < n ensures TimeoutAloneChangedAt(versions, k) <==> TimeoutAloneChangedAt(less, k) {}
    assert TimeoutAloneChangedAt(versions, n) <==> OnlyTimeoutChanged(versions[n - 1], versions[n]);
    if NeverTimeoutAlone(versions) {
      forall k: nat ensures !TimeoutAloneChangedAt(less, k) {
        assert !TimeoutAloneChangedAt(versions, k);
      }
    } else {
      var k: nat :| TimeoutAloneChangedAt(versions, k);
      assert k < n ==> TimeoutAloneChangedAt(less, k);
    }
  }

  // The configured timeout is in force throughout exactly when no reload changes the timeout alone.
  lemma {:induction false} TimeoutsAreCurrentIff(versions: seq<Config>)
    requires versions != []
    ensures AlwaysCurrent(versions) <==> NeverTimeoutAlone(versions)
  {
    var n := |versions| - 1;
    if n > 0 {
      TimeoutsAreCurrentIff(versions[..n]);
      CurrentSplits(versions);
      ChangesSplit(versions);
      if AlwaysCurrent(versions[..n]) {
        assert CurrentAt(versions[..n], n) && versions[..n][..n] == versions[..n];
        CurrentStep(versions);
      }
    } else {
      forall k: nat ensures CurrentAt(versions, k) {
        assert k == 1 ==> versions[..k] == versions;
      }
      forall k: nat ensures !TimeoutAloneChangedAt(versions, k) {}
    }
  }

  // ---- what the parts of a server have to do with the configurations

  // Each token of the configuration has its entry, in the same order.
  predicate EntriesMatch(entries: seq<TokenEntry>, tokens: seq<TokenConfig>) {
    |entries| == |tokens| && forall i :: 0 <= i < |tokens| ==>
      entries[i].name == tokens[i].name && entries[i].value == tokens[i].token && entries[i].scopes == tokens[i].scopes
  }

  // A tier has a limiter with its numbers exactly when it is configured.
  predicate LimiterMatches(l: RateLimiter?, t: Option<Tier>) {
    match t
    case None => l == null
    case Some(tier) => l != null && l.maxFailures == tier.maxFailures && l.window == tier.windowSeconds * 1_000_000_000
  }

  predicate LimitersMatch(burst: RateLimiter?, sustained: RateLimiter?, cfg: Config) {
    match cfg.rateLimit
    case None => burst == null && sustained == null
    case Some(tiers) => LimiterMatches(burst, tiers.burst) && LimiterMatches(sustained, tiers.sustained)
  }

  // A cache exists exactly when the newest version has an authenticator, calls that program, and was
  // built when the program was first configured without interruption since.
  predicate CacheMatches(c: Cache?, versions: seq<Config>)
    requires versions != []
  {
    match versions[|versions| - 1].authenticator
    case None => c == null
    case Some(a) =>
      && c != null && c.ttl == VERIFY_CACHE_TTL && c.verifier.command == a.command
      && versions[StretchStart(versions)].authenticator.Some?
      && c.verifier.timeout == Timeout(versions[StretchStart(versions)].authenticator.value)
  }

  lemma CacheCarriesOver(c: Cache?, versions: seq<Config>, cfg: Config)
    requires versions != [] && CacheMatches(c, versions) && SameCommand(versions[|versions| - 1], cfg)
    ensures CacheMatches(c, versions + [cfg])
  {
    assert (versions + [cfg])[..|versions|] == versions;
    assert StretchStart(versions + [cfg]) == StretchStart(versions);
  }

  lemma CacheStartsAnew(c: Cache?, versions: seq<Config>, cfg: Config)
    requires versions != [] && !SameCommand(versions[|versions| - 1], cfg)
    requires c != null <==> cfg.authenticator.Some?
    requires c != null ==> c.ttl == VERIFY_CACHE_TTL && c.verifier.command == cfg.authenticator.value.command &&
                           c.verifier.timeout == Timeout(cfg.authenticator.value)
    ensures CacheMatches(c, versions + [cfg])
  {
    assert StretchStart(versions + [cfg]) == |versions|;
  }

  // What one request works with.
  datatype Snapshot = Snapshot(cfg: Config, entries: seq<TokenEntry>, burst: RateLimiter?, sustained: RateLimiter?,
                               resolver: Resolver)

  datatype Resolver = External(cache: Cache) | Static(entries: seq<TokenEntry>)

  // Every part of the snapshot belongs to its one configuration. Nothing here can change later.
  predicate OneVersion(v: Snapshot) {
    && EntriesMatch(v.entries, v.cfg.tokens)
    && LimitersMatch(v.burst, v.sustained, v.cfg)
    && match v.cfg.authenticator
       case Some(a) => v.resolver.External? && v.resolver.cache.verifier.command == a.command
       case None => v.resolver == Static(v.entries)
  }

  method BuildTokenEntries(tokens: seq<TokenConfig>) returns (entries: seq<TokenEntry>)
    ensures EntriesMatch(entries, tokens)
  {
    entries := [];
    for i := 0 to |tokens|
      invariant EntriesMatch(entries, tokens[..i])
    {
      entries := entries + [TokenEntry(tokens[i].name, tokens[i].token, tokens[i].scopes)];
    }
    assert tokens[..|tokens|] == tokens;
  }

  method NewRateLimiters(cfg: Config, clock: Clock) returns (burst: RateLimiter?, sustained: RateLimiter?)
    ensures LimitersMatch(burst, sustained, cfg)
    ensures burst != null ==> fresh(burst) && burst.Valid() && burst.history == [] && burst.clock == clock
    ensures sustained != null ==>
            fresh(sustained) && sustained.Valid() && sustained.history == [] && sustained.clock == clock
    ensures burst != null && sustained != null ==> burst != sustained
  {
    burst, sustained := null, null;
    if cfg.rateLimit.None? {
      return;
    }
    if cfg.rateLimit.value.burst.Some? {
      var t := cfg.rateLimit.value.burst.value;
      burst := new RateLimiter(t.maxFailures, t.windowSeconds * SECOND, clock);
    }
    if cfg.rateLimit.value.sustained.Some? {
      var t := cfg.rateLimit.value.sustained.value;
      sustained := new RateLimiter(t.maxFailures, t.windowSeconds * SECOND, clock);
    }
  }

  method NewVerifyCache(a: Authenticator) returns (c: Cache)
    ensures fresh(c) && fresh(c.verifier) && c.entries == map[] && c.ttl == 600_000_000_000
    ensures c.verifier.command == a.command && c.verifier.timeout == Timeout(a)
    ensures c.verifier.timeout == if a.timeoutSeconds <= 0 then 10_000_000_000 else a.timeoutSeconds * 1_000_000_000
  {
    var timeout := a.timeoutSeconds * SECOND;
    if timeout <= 0 {
      timeout := 10 * SECOND;
    }
    var verifier := new Verifier(a.command, timeout);
    c := new Cache(verifier, VERIFY_CACHE_TTL);
  }

  // A limiter that remembers no failure yet.
  ghost predicate IsNew(l: RateLimiter?)
    reads if l == null then {} else {l, l.clock}
  {
    l != null ==> l.Valid() && l.history == []
  }

  class Server {
    var cfg: Config
    var tokenEntries: seq<TokenEntry>
    var burstLimiter: RateLimiter?
    var sustainedLimiter: RateLimiter?
    var verifyCache: Cache?
    const logMgr: Manager
    const clock: Clock
    const extensions: string
    // the configurations in force so far
    ghost var versions: seq<Config>

    ghost predicate Valid()
      reads this
    {
      && versions != [] && versions[|versions| - 1] == cfg && versions[0].extensions == extensions
      && EntriesMatch(tokenEntries, cfg.tokens)
      && LimitersMatch(burstLimiter, sustainedLimiter, cfg)
      && (burstLimiter != null && sustainedLimiter != null ==> burstLimiter != sustainedLimiter)
      && CacheMatches(verifyCache, versions)
    }

    // The manager works with the access lists of the configuration in force.
    ghost predicate ListsMatch()
      reads this, logMgr
    {
      logMgr.Acl() == cfg.logs
    }

    // The authenticator in use waits as long as the configuration in force says.
    predicate UsesConfiguredTimeout()
      reads this
    {
      verifyCache != null && cfg.authenticator.Some? ==>
        verifyCache.verifier.timeout == Timeout(cfg.authenticator.value)
    }

    constructor (cfg: Config, logMgr: Manager, clock: Clock)
      ensures Valid() && versions == [cfg] && this.logMgr == logMgr && this.clock == clock
      ensures UsesConfiguredTimeout() && (ListsMatch() <==> logMgr.Acl() == cfg.logs)
      ensures burstLimiter != null ==> fresh(burstLimiter) && burstLimiter.history == []
      ensures sustainedLimiter != null ==> fresh(sustainedLimiter) && sustainedLimiter.history == []
      ensures verifyCache != null ==> fresh(verifyCache) && verifyCache.entries == map[]
    {
      this.cfg, this.logMgr, this.clock, extensions := cfg, logMgr, clock, cfg.extensions;
      versions := [cfg];
      var burst, sustained := NewRateLimiters(cfg, clock);
      burstLimiter, sustainedLimiter := burst, sustained;
      verifyCache := null;
      if cfg.authenticator.Some? {
        var c := NewVerifyCache(cfg.authenticator.value);
        verifyCache := c;
      }
      var entries := BuildTokenEntries(cfg.tokens);
      tokenEntries := entries;
    }

    // The part of Reload that decides about the cache; every other part is already the new one.
    method ReplaceVerifyCache(oldCmd: string, ghost was: Config)
      requires |versions| > 1 && versions[|versions| - 2] == was && versions[|versions| - 1] == cfg
      requires CacheMatches(verifyCache, versions[..|versions| - 1])
      requires oldCmd == if was.authenticator.Some? then was.authenticator.value.command else ""
      modifies this`verifyCache
      ensures CacheMatches(verifyCache, versions)
      ensures SameCommand(was, cfg) ==> verifyCache == old(verifyCache)
      ensures !SameCommand(was, cfg) ==> UsesConfiguredTimeout()
      ensures !SameCommand(was, cfg) && verifyCache != null ==> fresh(verifyCache) && verifyCache.entries == map[]
    {
      if cfg.authenticator.Some? {
        var newCmd := cfg.authenticator.value.command;
        if verifyCache == null || oldCmd != newCmd {
          verifyCache := NewVerifyCache(cfg.authenticator.value);
        }
      } else {
        verifyCache := null;
      }
      ghost var before := versions[..|versions| - 1];
      assert before + [cfg] == versions && before[|before| - 1] == was;
      if SameCommand(was, cfg) {
        CacheCarriesOver(verifyCache, before, cfg);
      } else {
        CacheStartsAnew(verifyCache, before, cfg);
      }
    }

    // The part of Reload that replaces everything else.
    method ReplaceParts(newCfg: Config)
      requires Valid() && logMgr.Valid()
      modifies this`cfg, this`versions, this`tokenEntries, this`burstLimiter, this`sustainedLimiter, logMgr
      ensures cfg == newCfg && versions == old(versions) + [newCfg]
      ensures EntriesMatch(tokenEntries, cfg.tokens)
      ensures LimitersMatch(burstLimiter, sustainedLimiter, cfg)
      ensures burstLimiter != null && sustainedLimiter != null ==> burstLimiter != sustainedLimiter
      ensures IsNew(burstLimiter) && (burstLimiter != null ==> fresh(burstLimiter))
      ensures IsNew(sustainedLimiter) && (sustainedLimiter != null ==> fresh(sustainedLimiter))
      ensures logMgr.Valid() && ListsMatch() && logMgr.cacheTime.None?
    {
      cfg := newCfg;
      versions := versions + [newCfg];
      tokenEntries := BuildTokenEntries(newCfg.tokens);
      logMgr.Update(newCfg.logs.whitelist, newCfg.logs.blacklist, newCfg.logs.journald);
      burstLimiter, sustainedLimiter := NewRateLimiters(newCfg, clock);
    }

    // A failed load changes nothing. After a successful one every part matches the new configuration,
    // all failure histories start again, and the cache of accepted tokens survives only while the
    // authenticator command stays the same. A new timeout is only obeyed along with a new command.
    method Reload(loaded: Result<Config>) returns (ok: bool)
      requires Valid() && logMgr.Valid()
      modifies this, logMgr
      ensures Valid() && logMgr.Valid() && versions == Applied(old(versions), loaded)
      ensures ok == loaded.Ok?
      ensures !ok ==> unchanged(this) && unchanged(logMgr)
      ensures ok ==> cfg == loaded.value && ListsMatch() && logMgr.cacheTime.None?
      ensures ok ==> IsNew(burstLimiter) && (burstLimiter != null ==> fresh(burstLimiter))
      ensures ok ==> IsNew(sustainedLimiter) && (sustainedLimiter != null ==> fresh(sustainedLimiter))
      ensures ok && SameCommand(old(cfg), cfg) ==> verifyCache == old(verifyCache)
      ensures ok && !SameCommand(old(cfg), cfg) && verifyCache != null ==>
              fresh(verifyCache) && verifyCache.entries == map[]
      ensures ok && old(UsesConfiguredTimeout()) ==> (UsesConfiguredTimeout() <==> !OnlyTimeoutChanged(old(cfg), cfg))
    {
      if loaded.Err? {
        return false;
      }
      var oldCmd := "";
      if cfg.authenticator.Some? {
        oldCmd := cfg.authenticator.value.command;
      }
      ReplaceParts(loaded.value);
      assert versions[..|versions| - 1] == old(versions);
      ReplaceVerifyCache(oldCmd, old(cfg));
      ok := true;
    }

    // The reads of one request under the lock, and the choice of resolver.
    method TakeSnapshot() returns (v: Snapshot)
      requires Valid()
      ensures OneVersion(v) && v.cfg == cfg && v.burst == burstLimiter && v.sustained == sustainedLimiter
      ensures v.resolver.External? ==> v.resolver.cache == verifyCache
    {
      var resolver := if cfg.authenticator.Some? then External(verifyCache) else Static(tokenEntries);
      v := Snapshot(cfg, tokenEntries, burstLimiter, sustainedLimiter, resolver);
    }
  }

  // The start of the program: the manager is built from the configuration the server gets. After any
  // loads, good or bad, the server stands on the last good configuration in all its parts.
  method Serve(first: Config, loads: seq<Result<Config>>, clock: Clock) returns (s: Server)
    ensures fresh(s) && s.Valid() && s.ListsMatch()
    ensures s.versions == AllApplied(first, loads) && s.extensions == first.extensions
  {
    var logMgr := new Manager(first.logs.whitelist, first.logs.blacklist, first.logs.journald);
    s := new Server(first, logMgr, clock);
    for i := 0 to |loads|
      invariant fresh(s) && fresh(s.logMgr) && s.Valid() && s.logMgr.Valid() && s.ListsMatch()
      invariant s.versions == AllApplied(first, loads[..i]) && s.versions[0] == first
    {
      assert loads[..i + 1][..i] == loads[..i];
      var _ := s.Reload(loads[i]);
    }
    assert loads[..|loads|] == loads;
  }

  // A reload that changes nothing but the timeout leaves the authenticator waiting as long as before.
  method TimeoutChangeIsIgnored(s: Server, seconds: int)
    requires s.Valid() && s.logMgr.Valid() && s.UsesConfiguredTimeout() && s.cfg.authenticator.Some?
    requires Timeout(s.cfg.authenticator.value) != Timeout(s.cfg.authenticator.value.(timeoutSeconds := seconds))
    modifies s, s.logMgr
    ensures s.Valid() && s.cfg.authenticator == Some(old(s.cfg).authenticator.value.(timeoutSeconds := seconds))
    ensures s.verifyCache != null && s.verifyCache == old(s.verifyCache)
    ensures s.verifyCache.verifier.timeout == Timeout(old(s.cfg).authenticator.value) !=
            Timeout(s.cfg.authenticator.value)
  {
    var authenticator := Some(s.cfg.authenticator.value.(timeoutSeconds := seconds));
    var _ := s.Reload(Ok(s.cfg.(authenticator := authenticator)));
  }
}
