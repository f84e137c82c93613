/**
One request through the authentication middleware (internal/auth/auth.go, Middleware,
recordFailure and StaticResolver).
*/
module Middleware {
  import opened RateLimit

  // What the verifier says about a token; Failed is an infrastructure error.
  datatype Verdict = Accepted(name: string, scopes: seq<string>) | Rejected | Failed

  datatype Credentials = Missing | BadScheme | Token(token: string)

  const OK := 200
  const UNAUTHORIZED := 401
  const TOO_MANY_REQUESTS := 429
  const INTERNAL_ERROR := 500

  // ---- the Authorization header

  function Lower(c: char): char {
    if 'A' <= c <= 'Z' then (c as int + 32) as char else c
  }

  // strings.EqualFold against "Bearer". None of its letters folds to a character outside ASCII.
  predicate IsBearer(scheme: string) {
    |scheme| == 6 && forall i :: 0 <= i < 6 ==> Lower(scheme[i]) == "bearer"[i]
  }

  function FirstSpace(s: string): (i: nat)
    ensures i <= |s| && ' ' !in s[..i]
    ensures i < |s| ==> s[i] == ' '
  {
    if s == [] || s[0] == ' ' then 0 else
    var i := FirstSpace(s[1..]);
    assert s[..i + 1] == [s[0]] + s[1..][..i];
    1 + i
  }

  function ParseHeader(header: string): Credentials {
    if header == "" then Missing else
    var i := FirstSpace(header);
    if i == |header| || !IsBearer(header[..i]) then BadScheme else Token(header[i + 1..])
  }

  // A header yields a token exactly when it is the scheme, in any letter case, one space and the
  // token; everything after that one space belongs to the token.
  lemma HeaderToken(header: string, token: string)
    ensures ParseHeader(header) == Token(token) <==>
            exists scheme :: IsBearer(scheme) && header == scheme + " " + token
  {
    var i := FirstSpace(header);
    if ParseHeader(header) == Token(token) {
      assert header == header[..i] + " " + token;
    }
    if scheme :| IsBearer(scheme) && header == scheme + " " + token {
      assert header[6] == ' ';
      assert i == 6;
      assert header[..6] == scheme && header[7..] == token;
    }
  }

  // ---- static tokens

  datatype TokenEntry = TokenEntry(name: string, value: string, scopes: seq<string>)

  // The last entry with this value wins.
  ghost predicate Resolves(tokens: seq<TokenEntry>, token: string, v: Verdict) {
    match v
    case Accepted(name, scopes) =>
      exists i :: 0 <= i < |tokens| && tokens[i] == TokenEntry(name, token, scopes) &&
                  forall j :: i < j < |tokens| ==> tokens[j].value != token
    case Rejected => forall i :: 0 <= i < |tokens| ==> tokens[i].value != token
    case Failed => false
  }

  method StaticResolver(tokens: seq<TokenEntry>, token: string) returns (v: Verdict)
    ensures Resolves(tokens, token, v)
  {
    var name, scopes, found := "", [], 0;
    ghost var at := 0;
    for i := 0 to |tokens|
      invariant found == 0 ==> forall j :: 0 <= j < i ==> tokens[j].value != token
      invariant found != 0 ==> 0 <= at < i && tokens[at] == TokenEntry(name, token, scopes) &&
                               forall j :: at < j < i ==> tokens[j].value != token
    {
      if tokens[i].value == token {
        name := tokens[i].name;
        scopes := tokens[i].scopes;
        found := 1;
        at := i;
      }
    }
    if found == 0 {
      return Rejected;
    }
    v := Accepted(name, scopes);
  }

  lemma ResolvesUnique(tokens: seq<TokenEntry>, token: string, v: Verdict, w: Verdict)
    requires Resolves(tokens, token, v) && Resolves(tokens, token, w)
    ensures v == w
  {
    if v.Accepted? && w.Accepted? {
      var i :| 0 <= i < |tokens| && tokens[i] == TokenEntry(v.name, token, v.scopes) &&
               forall j :: i < j < |tokens| ==> tokens[j].value != token;
      var k :| 0 <= k < |tokens| && tokens[k] == TokenEntry(w.name, token, w.scopes) &&
               forall j :: k < j < |tokens| ==> tokens[j].value != token;
      assert i == k;
    }
  }

  // ---- one request

  // The answer once both limiters have let the request through.
  function Answer(header: string, resolve: string -> Verdict): int {
    match ParseHeader(header)
    case Token(token) =>
      (match resolve(token)
       case Accepted(_, _) => OK
       case Rejected => UNAUTHORIZED
       case Failed => INTERNAL_ERROR)
    case _ => UNAUTHORIZED
  }

  // The header is the word Bearer, each letter in either case, one space and this token.
  predicate Bears(header: string, token: string) {
    && |header| == 7 + |token| && header[6] == ' ' && header[7..] == token
    && forall i :: 0 <= i < 6 ==> header[i] == "bearer"[i] || header[i] == "BEARER"[i]
  }

  lemma BearsIff(header: string, token: string)
    ensures Bears(header, token) <==> ParseHeader(header) == Token(token)
  {
    HeaderToken(header, token);
    if Bears(header, token) {
      assert IsBearer(header[..6]) && header == header[..6] + " " + token;
    }
    if scheme :| IsBearer(scheme) && header == scheme + " " + token {
      assert header[..6] == scheme && header[7..] == token;
    }
  }

  // The answer follows from the token and what the verifier says about it.
  lemma AnswerMeans(header: string, resolve: string -> Verdict)
    ensures Answer(header, resolve) == 200 <==> exists token :: Bears(header, token) && resolve(token).Accepted?
    ensures Answer(header, resolve) == 500 <==> exists token :: Bears(header, token) && resolve(token).Failed?
    ensures Answer(header, resolve) == 401 <==> forall token :: Bears(header, token) ==> resolve(token).Rejected?
  {
    var c := ParseHeader(header);
    if c.Token? { BearsIff(header, c.token); }
    forall token | Bears(header, token)
      ensures c == Token(token)
    {
      BearsIff(header, token);
    }
  }

  ghost predicate Extends(history: seq<Failure>, later: seq<Failure>, ip: string) {
    |later| == |history| + 1 && later[..|history|] == history && later[|history|].ip == ip
  }

  ghost predicate WouldBlock(limiter: RateLimiter, ip: string, now: int)
    reads limiter
  {
    |FailedBetween(limiter.history, ip, now - limiter.window, now)| >= limiter.maxFailures
  }

  method RecordFailure(ip: string, burst: RateLimiter?, sustained: RateLimiter?)
    requires burst != null ==> burst.Valid()
    requires sustained != null ==> sustained.Valid()
    requires burst != null && sustained != null ==> burst != sustained && burst.clock == sustained.clock
    modifies burst, sustained
    modifies if burst != null then {burst.clock} else {}, if sustained != null then {sustained.clock} else {}
    ensures burst != null ==> burst.Valid() && Extends(old(burst.history), burst.history, ip)
    ensures sustained != null ==> sustained.Valid() && Extends(old(sustained.history), sustained.history, ip)
    ensures burst != null ==> burst.clock.now >= old(burst.clock.now)
    ensures sustained != null ==> sustained.clock.now >= old(sustained.clock.now)
  {
    if burst != null {
      burst.Record(ip);
    }
    if sustained != null {
      sustained.Record(ip);
    }
  }

  // A 401 adds one failure of the address to the tier's history; any other answer leaves it alone.
  ghost predicate Noted(status: int, history: seq<Failure>, later: seq<Failure>, ip: string) {
    if status == UNAUTHORIZED then Extends(history, later, ip) else later == history
  }

  // What follows once neither tier blocks the address.
  method Authenticate(ip: string, header: string, resolve: string -> Verdict, burst: RateLimiter?,
                      sustained: RateLimiter?)
    returns (status: int)
    requires burst != null ==> burst.Valid()
    requires sustained != null ==> sustained.Valid()
    requires burst != null && sustained != null ==> burst != sustained && burst.clock == sustained.clock
    modifies burst, sustained
    modifies if burst != null then {burst.clock} else {}, if sustained != null then {sustained.clock} else {}
    ensures burst != null ==> burst.Valid() && Noted(status, old(burst.history), burst.history, ip)
    ensures sustained != null ==> sustained.Valid() && Noted(status, old(sustained.history), sustained.history, ip)
    ensures burst != null ==> burst.clock.now >= old(burst.clock.now)
    ensures sustained != null ==> sustained.clock.now >= old(sustained.clock.now)
    ensures status == Answer(header, resolve)
  {
    if header == "" {
      RecordFailure(ip, burst, sustained);
      return UNAUTHORIZED;
    }
    var space := FirstSpace(header);
    if space == |header| || !IsBearer(header[..space]) {
      RecordFailure(ip, burst, sustained);
      return UNAUTHORIZED;
    }
    var token := header[space + 1..];
    match resolve(token)
    case Failed =>
      return INTERNAL_ERROR;
    case Rejected =>
      RecordFailure(ip, burst, sustained);
      return UNAUTHORIZED;
    case Accepted(_, _) =>
      return OK;
  }

  // A failure is recorded in every configured tier exactly when the answer is 401, and the
  // verifier's verdict only counts when neither tier blocks the address.
  method Handle(ip: string, header: string, resolve: string -> Verdict, burst: RateLimiter?, sustained: RateLimiter?)
    returns (status: int, ghost burstCheck: int, ghost sustainedCheck: int)
    requires burst != null ==> burst.Valid()
    requires sustained != null ==> sustained.Valid()
    requires burst != null && sustained != null ==> burst != sustained && burst.clock == sustained.clock
    modifies burst, sustained
    modifies if burst != null then {burst.clock} else {}, if sustained != null then {sustained.clock} else {}
    ensures burst != null ==> burst.Valid() && Noted(status, old(burst.history), burst.history, ip)
    ensures sustained != null ==> sustained.Valid() && Noted(status, old(sustained.history), sustained.history, ip)
    ensures status == TOO_MANY_REQUESTS <==>
              (burst != null && old(WouldBlock(burst, ip, burstCheck))) ||
              (sustained != null && old(WouldBlock(sustained, ip, sustainedCheck)))
    ensures status == TOO_MANY_REQUESTS || status == Answer(header, resolve)
    ensures status != 429 ==>
              && (status == 200 <==> exists token :: Bears(header, token) && resolve(token).Accepted?)
              && (status == 500 <==> exists token :: Bears(header, token) && resolve(token).Failed?)
              && (status == 401 <==> forall token :: Bears(header, token) ==> resolve(token).Rejected?)
    ensures status != 401 ==> (burst != null ==> burst.history == old(burst.history)) &&
                              (sustained != null ==> sustained.history == old(sustained.history))
    ensures burst != null ==> old(burst.clock.now) <= burstCheck <= burst.clock.now
    ensures sustained != null ==> old(sustained.clock.now) <= sustainedCheck <= sustained.clock.now
  {
    burstCheck := if burst != null then burst.clock.now else 0;
    sustainedCheck := if sustained != null then sustained.clock.now else 0;
    if burst != null {
      var blocked := burst.IsBlocked(ip);
      burstCheck := burst.clock.now;
      if blocked {
        status := TOO_MANY_REQUESTS;
        return;
      }
    }
    if sustained != null {
      var blocked := sustained.IsBlocked(ip);
      sustainedCheck := sustained.clock.now;
      if blocked {
        status := TOO_MANY_REQUESTS;
        return;
      }
    }
    status := Authenticate(ip, header, resolve, burst, sustained);
    AnswerMeans(header, resolve);
  }
}
