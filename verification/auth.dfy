/**
 * Credentials (auth.go): bearer/refresh token pairs scoped to one
 * repository and signed with its secret, or scoped to the admin session
 * and signed with the process-wide web secret, and the chains of checks
 * that admit them.
 *
 * Signing is abstract: a token records its claims, whether an HMAC method
 * signed it, and the key it was signed with; a signature verifies exactly
 * when the verifier's key equals the signing key. Turning the text of a
 * request into a token (base64, JWT segments) happens in code outside the
 * model and is a function parameter here.
 */
module Auth {
  import opened Outcomes
  import opened Strconv
  import opened Text
  import opened Registry

  /**
   * A JWT claim value: the claims issued here are strings and one boolean;
   * a token from elsewhere may carry JSON numbers (whole seconds here).
   */
  datatype ClaimValue = Str(s: string) | Bool(b: bool) | Num(n: int) | Other

  type Claims = map<string, ClaimValue>

  /** A signed token. */
  datatype Jwt = Jwt(claims: Claims, hmac: bool, key: string)

  /** HS256 signing with `key`. */
  function Sign(claims: Claims, key: string): (t: Jwt)
    ensures Verifies(t, key)
    ensures forall other :: Verifies(t, other) ==> other == key
  {
    Jwt(claims, true, key)
  }

  /**
   * `jwt.Parse` with a key function that hands out `secret` for HMAC
   * methods and refuses any other method: the signature must verify.
   */
  predicate Verifies(t: Jwt, secret: string) {
    t.hmac && t.key == secret
  }

  /**
   * The claim validation `jwt.Parse` runs at Unix second `now` before any
   * handler sees the token (`MapClaims.Valid` of jwt-go v3): a numeric
   * "exp" must not be in the past, a numeric "iat" or "nbf" not in the
   * future; zero counts as absent, and a claim that is not a number is not
   * looked at.
   */
  predicate ClaimsValid(claims: Claims, now: int) {
    && (("exp" in claims && claims["exp"].Num? && claims["exp"].n != 0) ==> now <= claims["exp"].n)
    && (("iat" in claims && claims["iat"].Num? && claims["iat"].n != 0) ==> now >= claims["iat"].n)
    && (("nbf" in claims && claims["nbf"].Num? && claims["nbf"].n != 0) ==> now >= claims["nbf"].n)
  }

  /** `claims[key].(string)`: None where Go's type assertion panics. */
  function StrClaim(claims: Claims, key: string): (r: Option<string>)
    ensures r.Some? <==> key in claims && claims[key].Str?
  {
    if key in claims && claims[key].Str? then Some(claims[key].s) else None
  }

  /** Seconds a bearer token lives: 20 minutes. */
  const BearerLifetime: int := 20 * 60

  /** Seconds an admin refresh token lives: 24 hours. */
  const WebRefreshLifetime: int := 24 * 3600

  /** `TOKEN_PERIOD` when the configuration does not set it, in days. */
  const DefaultTokenPeriod: int := 40

  /** Go's 64-bit `int` and `time.Duration` arithmetic: `n` wrapped into the int64 range. */
  function Wrap64(n: int): (r: Int64)
    ensures IsInt64(n) ==> r == n
  {
    (n - Int64Min) % 0x1_0000_0000_0000_0000 + Int64Min
  }

  /** The longest `TOKEN_PERIOD`, in days, whose duration in nanoseconds fits an int64. */
  const MaxTokenPeriod: int := 106751

  /** `time.Hour * time.Duration(24*TOKEN_PERIOD)`: int64 nanoseconds, both products wrapping. */
  function RefreshDuration(tokenPeriod: int): Int64 {
    Wrap64(Wrap64(24 * tokenPeriod) * 3_600_000_000_000)
  }

  /**
   * Seconds a repository refresh token lives: `TOKEN_PERIOD` days. Within
   * `MaxTokenPeriod` days no product of `RefreshDuration` wraps, and the
   * plain product is used there.
   */
  function BuildRefreshLifetime(tokenPeriod: int): int {
    if -MaxTokenPeriod <= tokenPeriod <= MaxTokenPeriod then tokenPeriod * 24 * 3600
    else RefreshDuration(tokenPeriod) / 1_000_000_000
  }

  /**
   * The lifetime is exactly the whole seconds Go's wrapping duration moves
   * a whole Unix second: `Add(d).Unix()` steps by d / 10^9 rounded down.
   */
  lemma RefreshLifetimeIsDuration(tokenPeriod: int)
    ensures BuildRefreshLifetime(tokenPeriod) == RefreshDuration(tokenPeriod) / 1_000_000_000
  {
    if -MaxTokenPeriod <= tokenPeriod <= MaxTokenPeriod {
      assert IsInt64(24 * tokenPeriod);
      assert IsInt64(24 * tokenPeriod * 3_600_000_000_000);
    }
  }

  /** One day more than `MaxTokenPeriod` wraps the duration: the refresh token expires about 292 years before it is issued. */
  lemma RefreshLifetimeWraps()
    ensures BuildRefreshLifetime(MaxTokenPeriod + 1) == -9_223_371_274
    ensures BuildRefreshLifetime(MaxTokenPeriod + 1) < 0
  {
  }

  datatype TokenPair = TokenPair(bearer: Jwt, refresh: Jwt)

  /** The expiry a token carries, when its "exp" claim is a string Go parses. */
  function Expiry(t: Jwt): Option<int> {
    match StrClaim(t.claims, "exp")
    case None => None
    case Some(exp) => ParseInt(exp)
  }

  /** An expiry written with FormatInt reads back as the same second. */
  lemma ExpiryRoundTrip(t: Jwt, exp: int)
    requires StrClaim(t.claims, "exp") == Some(FormatInt(exp))
    ensures IsInt64(exp) ==> Expiry(t) == Some(exp)
  {
    if IsInt64(exp) { ParseFormatRoundTrip(exp); }
  }

  function RepoClaims(namespace: string, name: string, exp: int, kind: string): Claims {
    map["valid" := Bool(true), "namespace" := Str(namespace), "repo" := Str(name),
        "exp" := Str(FormatInt(exp)), "type" := Str(kind)]
  }

  function WebClaims(exp: int, kind: string): Claims {
    map["valid" := Bool(true), "exp" := Str(FormatInt(exp)), "type" := Str(kind)]
  }

  /**
   * A repository pair with the given expiries. Both halves are signed with
   * the repository's secret and name the same repository; they differ only
   * in kind and expiry.
   */
  function RepoTokens(namespace: string, name: string, secret: string, bearerExp: int, refreshExp: int): (p: TokenPair)
    ensures Verifies(p.bearer, secret) && Verifies(p.refresh, secret)
    ensures StrClaim(p.bearer.claims, "type") == Some("bearer")
    ensures StrClaim(p.refresh.claims, "type") == Some("refresh")
    ensures StrClaim(p.bearer.claims, "namespace") == Some(namespace)
    ensures StrClaim(p.bearer.claims, "repo") == Some(name)
    ensures p.bearer.claims.Keys == p.refresh.claims.Keys
    ensures forall k :: k in p.bearer.claims && k != "exp" && k != "type" ==> p.bearer.claims[k] == p.refresh.claims[k]
    ensures IsInt64(bearerExp) ==> Expiry(p.bearer) == Some(bearerExp)
    ensures IsInt64(refreshExp) ==> Expiry(p.refresh) == Some(refreshExp)
  {
    var p := TokenPair(Sign(RepoClaims(namespace, name, bearerExp, "bearer"), secret),
                       Sign(RepoClaims(namespace, name, refreshExp, "refresh"), secret));
    ExpiryRoundTrip(p.bearer, bearerExp);
    ExpiryRoundTrip(p.refresh, refreshExp);
    p
  }

  /**
   * The pair `newBuildToken` issues at Unix second `now`: the bearer half
   * expires 20 minutes later, the refresh half `TOKEN_PERIOD` days later.
   */
  function BuildTokens(namespace: string, name: string, secret: string, now: int, tokenPeriod: int): (p: TokenPair)
    ensures Verifies(p.bearer, secret) && Verifies(p.refresh, secret)
    ensures StrClaim(p.bearer.claims, "type") == Some("bearer")
    ensures StrClaim(p.refresh.claims, "type") == Some("refresh")
    ensures StrClaim(p.bearer.claims, "namespace") == Some(namespace)
    ensures StrClaim(p.bearer.claims, "repo") == Some(name)
    ensures p.bearer.claims.Keys == p.refresh.claims.Keys
    ensures forall k :: k in p.bearer.claims && k != "exp" && k != "type" ==> p.bearer.claims[k] == p.refresh.claims[k]
    ensures IsInt64(now + BearerLifetime) ==> Expiry(p.bearer) == Some(now + BearerLifetime)
    ensures IsInt64(now + BuildRefreshLifetime(tokenPeriod)) ==>
              Expiry(p.refresh) == Some(now + BuildRefreshLifetime(tokenPeriod))
  {
    RepoTokens(namespace, name, secret, now + BearerLifetime, now + BuildRefreshLifetime(tokenPeriod))
  }

  /**
   * `newBuildToken`: one claims map is signed, then its expiry and kind are
   * rewritten and it is signed again.
   */
  method NewBuildToken(namespace: string, name: string, secret: string, now: int, tokenPeriod: int)
    returns (token: Jwt, refresh: Jwt)
    ensures TokenPair(token, refresh) == BuildTokens(namespace, name, secret, now, tokenPeriod)
  {
    var claims := RepoClaims(namespace, name, now + BearerLifetime, "bearer");
    token := Sign(claims, secret);
    claims := claims["exp" := Str(FormatInt(now + BuildRefreshLifetime(tokenPeriod)))];
    claims := claims["type" := Str("refresh")];
    refresh := Sign(claims, secret);
  }

  /** The pair `newWebTokens` issues at Unix second `now`, signed with the web secret. */
  function WebTokens(webSecret: string, now: int): (p: TokenPair)
    ensures Verifies(p.bearer, webSecret) && Verifies(p.refresh, webSecret)
    ensures StrClaim(p.bearer.claims, "type") == Some("bearer")
    ensures StrClaim(p.refresh.claims, "type") == Some("refresh")
    ensures "namespace" !in p.bearer.claims && "repo" !in p.bearer.claims
    ensures p.bearer.claims.Keys == p.refresh.claims.Keys
    ensures IsInt64(now + BearerLifetime) ==> Expiry(p.bearer) == Some(now + BearerLifetime)
    ensures IsInt64(now + WebRefreshLifetime) ==> Expiry(p.refresh) == Some(now + WebRefreshLifetime)
  {
    var p := TokenPair(Sign(WebClaims(now + BearerLifetime, "bearer"), webSecret),
                       Sign(WebClaims(now + WebRefreshLifetime, "refresh"), webSecret));
    ExpiryRoundTrip(p.bearer, now + BearerLifetime);
    ExpiryRoundTrip(p.refresh, now + WebRefreshLifetime);
    p
  }

  /** `newWebTokens`, with the same single claims map rewritten between the signings. */
  method NewWebTokens(webSecret: string, now: int) returns (token: Jwt, refresh: Jwt)
    ensures TokenPair(token, refresh) == WebTokens(webSecret, now)
  {
    var claims := WebClaims(now + BearerLifetime, "bearer");
    token := Sign(claims, webSecret);
    claims := claims["exp" := Str(FormatInt(now + WebRefreshLifetime))];
    claims := claims["type" := Str("refresh")];
    refresh := Sign(claims, webSecret);
  }

  /**
   * Why a credential was refused. Callers see one 401 "Unauthorized" for
   * all of them except RepoNotFound; the handlers log them apart.
   */
  datatype Reason = RepoNotFound | HeaderTooShort | ParseError | BadExpiry | Denied | ScopeMismatch

  /** The outcome of a chain of checks; Crashed is a failed type assertion (a panic). */
  datatype Verdict = Granted(claims: Claims) | Refused(reason: Reason) | Crashed

  /**
   * The checks every handler applies to a parsed token, in order: the
   * signature with `secret` and the library's claim validation at `now`
   * (either failing is a parse error), an "exp" claim that parses, then
   * kind `kind` and an expiry strictly after `now` (Unix seconds).
   */
  function CheckToken(token: Option<Jwt>, secret: string, kind: string, now: int): (v: Verdict)
    ensures v.Granted? <==>
              token.Some? && Verifies(token.value, secret) && ClaimsValid(token.value.claims, now)
              && Expiry(token.value).Some?
              && StrClaim(token.value.claims, "type") == Some(kind) && Expiry(token.value).value > now
    ensures v.Granted? ==> v.claims == token.value.claims
    ensures v.Crashed? ==> token.Some? && Verifies(token.value, secret) && ClaimsValid(token.value.claims, now)
  {
    match token
    case None => Refused(ParseError)
    case Some(t) =>
      if !Verifies(t, secret) || !ClaimsValid(t.claims, now) then Refused(ParseError)
      else match StrClaim(t.claims, "exp")
        case None => Crashed
        case Some(exp) =>
          match ParseInt(exp)
          case None => Refused(BadExpiry)
          case Some(expiry) =>
            match StrClaim(t.claims, "type")
            case None => Crashed
            case Some(kind') => if kind' == kind && expiry > now then Granted(t.claims) else Refused(Denied)
  }

  /** The claims must name the stored repository (its fields, not the request path). */
  function CheckScope(claims: Claims, repo: Repo): (v: Verdict)
    ensures v.Granted? <==>
              StrClaim(claims, "namespace") == Some(repo.namespace) && StrClaim(claims, "repo") == Some(repo.name)
  {
    match StrClaim(claims, "namespace")
    case None => Crashed
    case Some(ns) =>
      if ns != repo.namespace then Refused(ScopeMismatch)
      else match StrClaim(claims, "repo")
        case None => Crashed
        case Some(n) => if n != repo.name then Refused(ScopeMismatch) else Granted(claims)
  }

  /** The checks of a repository-scoped token of kind `kind` carried after "Bearer ". */
  function RepoTokenVerdict(storage: Storage, namespace: string, name: string, header: string,
                            kind: string, now: int, decode: string -> Option<Jwt>): (v: Verdict)
  {
    var id := RepoId(namespace, name);
    if id !in storage then Refused(RepoNotFound)
    else match Cut(header, "Bearer ")
      case None => Refused(HeaderTooShort)
      case Some((_, payload)) =>
        var v := CheckToken(decode(payload), storage[id].secret, kind, now);
        if v.Granted? then CheckScope(v.claims, storage[id]) else v
  }

  /** How the middleware answers a verdict. */
  function Answer(v: Verdict, namespace: string, name: string): (r: Reply<()>)
    ensures v.Refused? && v.reason != RepoNotFound ==> r == Failure(401, "Unauthorized")
  {
    match v
    case Granted(_) => Success(())
    case Refused(RepoNotFound) => Failure(401, "Repo not found: " + namespace + "/" + name)
    case Refused(_) => Failure(401, "Unauthorized")
    case Crashed => Panic
  }

  /**
   * `validateBuildToken`, as written: the repository must exist, the
   * Authorization header must contain "Bearer ", and the token after it
   * must be an unexpired bearer token for this repository signed with its
   * secret.
   */
  function ValidateBuildTokenAsWritten(storage: Storage, namespace: string, name: string, header: string,
                                       now: int, decode: string -> Option<Jwt>): (r: Reply<()>)
    ensures r.Success? <==>
              var id := RepoId(namespace, name);
              && id in storage
              && Cut(header, "Bearer ").Some?
              && var t := decode(Cut(header, "Bearer ").value.1);
              && t.Some? && Verifies(t.value, storage[id].secret) && ClaimsValid(t.value.claims, now)
              && Expiry(t.value).Some? && Expiry(t.value).value > now
              && StrClaim(t.value.claims, "type") == Some("bearer")
              && StrClaim(t.value.claims, "namespace") == Some(storage[id].namespace)
              && StrClaim(t.value.claims, "repo") == Some(storage[id].name)
    ensures RepoId(namespace, name) in storage ==> r.Success? || r.Panic? || r == Failure(401, "Unauthorized")
  {
    Answer(RepoTokenVerdict(storage, namespace, name, header, "bearer", now, decode), namespace, name)
  }

  /**
   * `validateBuildToken` as evidently intended: a repository whose secret
   * was never generated has no valid tokens. As written, the key function
   * hands the verifier the empty key, and a token anyone signs with the
   * empty key passes.
   */
  function ValidateBuildToken(storage: Storage, namespace: string, name: string, header: string,
                              now: int, decode: string -> Option<Jwt>): (r: Reply<()>)
    ensures r.Success? ==> RepoId(namespace, name) in storage && storage[RepoId(namespace, name)].secret != ""
    ensures RepoId(namespace, name) in storage && storage[RepoId(namespace, name)].secret != "" ==>
              r == ValidateBuildTokenAsWritten(storage, namespace, name, header, now, decode)
  {
    var id := RepoId(namespace, name);
    if id in storage && storage[id].secret == "" && Cut(header, "Bearer ").Some? then Failure(401, "Unauthorized")
    else ValidateBuildTokenAsWritten(storage, namespace, name, header, now, decode)
  }

  /**
   * `validateWebToken`, as written: the text after "Bearer " is taken
   * without checking that the header has one, so a request without it
   * panics.
   */
  function ValidateWebTokenAsWritten(header: string, webSecret: string, now: int,
                                     decode: string -> Option<Jwt>): (r: Reply<()>)
    ensures r.Success? <==>
              Cut(header, "Bearer ").Some?
              && CheckToken(decode(Cut(header, "Bearer ").value.1), webSecret, "bearer", now).Granted?
    ensures !Contains(header, "Bearer ") ==> r == Panic
  {
    match Cut(header, "Bearer ")
    case None => Panic
    case Some((_, payload)) => Answer(CheckToken(decode(payload), webSecret, "bearer", now), "", "")
  }

  /** `validateWebToken` as evidently intended: a missing "Bearer " is refused like any other bad credential. */
  function ValidateWebToken(header: string, webSecret: string, now: int, decode: string -> Option<Jwt>): (r: Reply<()>)
    ensures !Contains(header, "Bearer ") ==> r == Failure(401, "Unauthorized")
    ensures Contains(header, "Bearer ") ==> r == ValidateWebTokenAsWritten(header, webSecret, now, decode)
  {
    if Cut(header, "Bearer ").None? then Failure(401, "Unauthorized")
    else ValidateWebTokenAsWritten(header, webSecret, now, decode)
  }

  /**
   * `getBuildToken`, as written: a refresh token for the repository, sent
   * after "Bearer ", buys a new pair signed with the repository's secret.
   * The header is not checked for "Bearer " before its second part is read.
   */
  function GetBuildTokenAsWritten(storage: Storage, namespace: string, name: string, header: string,
                                  now: int, tokenPeriod: int, decode: string -> Option<Jwt>): (r: Reply<TokenPair>)
    ensures r.Success? ==> RepoId(namespace, name) in storage
    ensures r.Success? ==> r.value == BuildTokens(namespace, name, storage[RepoId(namespace, name)].secret, now, tokenPeriod)
    ensures r.Success? <==>
              RepoTokenVerdict(storage, namespace, name, header, "refresh", now, decode).Granted?
    ensures RepoId(namespace, name) in storage && !Contains(header, "Bearer ") ==> r == Panic
  {
    var id := RepoId(namespace, name);
    if id !in storage then Failure(401, "Repo not found: " + namespace + "/" + name)
    else if Cut(header, "Bearer ").None? then Panic
    else match RepoTokenVerdict(storage, namespace, name, header, "refresh", now, decode)
      case Granted(_) => Success(BuildTokens(namespace, name, storage[id].secret, now, tokenPeriod))
      case Refused(_) => Failure(401, "Unauthorized")
      case Crashed => Panic
  }

  /**
   * `getBuildToken` as evidently intended: a missing "Bearer " and a
   * repository without a secret are refused with 401.
   */
  function GetBuildToken(storage: Storage, namespace: string, name: string, header: string,
                         now: int, tokenPeriod: int, decode: string -> Option<Jwt>): (r: Reply<TokenPair>)
    ensures r.Success? ==> RepoId(namespace, name) in storage && storage[RepoId(namespace, name)].secret != ""
    ensures r.Success? ==> Contains(header, "Bearer ")
    ensures RepoId(namespace, name) in storage && !Contains(header, "Bearer ") ==> r == Failure(401, "Unauthorized")
    ensures RepoId(namespace, name) in storage && storage[RepoId(namespace, name)].secret != "" && Contains(header, "Bearer ") ==>
              r == GetBuildTokenAsWritten(storage, namespace, name, header, now, tokenPeriod, decode)
  {
    var id := RepoId(namespace, name);
    if id in storage && (Cut(header, "Bearer ").None? || storage[id].secret == "") then Failure(401, "Unauthorized")
    else GetBuildTokenAsWritten(storage, namespace, name, header, now, tokenPeriod, decode)
  }

  /** The admin account from the configuration, and the password-hash check. */
  datatype Account = Account(username: string, passwordHash: string, checkHash: (string, string) -> bool)

  /** The decoders of what a `/token` request carries. */
  datatype WebCodec = WebCodec(basic: string -> Option<string>, parse: string -> Option<Jwt>)

  /**
   * `getWebToken`, as written: HTTP Basic credentials "user:password" with
   * both parts non-empty are checked against the account; otherwise the
   * "refresh" cookie must hold an unexpired admin refresh token. Either
   * way a new admin pair is issued (the refresh half goes into the
   * cookie). The header is not checked for "Basic " before its second
   * part is read.
   */
  function GetWebTokenAsWritten(header: string, cookie: Option<string>, account: Account, webSecret: string,
                                now: int, codec: WebCodec): (r: Reply<TokenPair>)
    ensures r.Success? ==> r.value == WebTokens(webSecret, now)
    ensures !Contains(header, "Basic ") ==> r == Panic
    ensures Contains(header, "Basic ") && Credentials(header, codec).None? ==> r == Failure(401, "Unauthorized")
    ensures r.Success? ==>
              Credentials(header, codec).Some? &&
              if PasswordLogin(Credentials(header, codec).value) then
                var (user, password) := Cut(Credentials(header, codec).value, ":").value;
                user == account.username && account.checkHash(password, account.passwordHash)
              else
                cookie.Some? && CheckToken(codec.parse(cookie.value), webSecret, "refresh", now).Granted?
  {
    match Cut(header, "Basic ")
    case None => Panic
    case Some((_, encoded)) =>
      match codec.basic(encoded)
      case None => Failure(401, "Unauthorized")
      case Some(auth) =>
        var credentials := Cut(auth, ":");
        if credentials.Some? && credentials.value.0 != "" && credentials.value.1 != "" then
          var (user, password) := credentials.value;
          if user == account.username && account.checkHash(password, account.passwordHash)
          then Success(WebTokens(webSecret, now))
          else Failure(401, "Unauthorized")
        else
          match cookie
          case None => Failure(401, "Unauthorized")
          case Some(c) =>
            match CheckToken(codec.parse(c), webSecret, "refresh", now)
            case Granted(_) => Success(WebTokens(webSecret, now))
            case Refused(_) => Failure(401, "Unauthorized")
            case Crashed => Panic
  }

  /** `getWebToken` as evidently intended: a missing "Basic " is refused with 401. */
  function GetWebToken(header: string, cookie: Option<string>, account: Account, webSecret: string,
                       now: int, codec: WebCodec): (r: Reply<TokenPair>)
    ensures !Contains(header, "Basic ") ==> r == Failure(401, "Unauthorized")
    ensures Contains(header, "Basic ") ==> r == GetWebTokenAsWritten(header, cookie, account, webSecret, now, codec)
  {
    if Cut(header, "Basic ").None? then Failure(401, "Unauthorized")
    else GetWebTokenAsWritten(header, cookie, account, webSecret, now, codec)
  }

  /** The Authorization header carries token `t` after "Bearer ". */
  predicate Carries(header: string, decode: string -> Option<Jwt>, t: Jwt) {
    Cut(header, "Bearer ").Some? && decode(Cut(header, "Bearer ").value.1) == Some(t)
  }

  /** The stored repository under "namespace/name" records that namespace and name. */
  predicate Registered(storage: Storage, namespace: string, name: string) {
    RepoId(namespace, name) in storage
    && storage[RepoId(namespace, name)].namespace == namespace
    && storage[RepoId(namespace, name)].name == name
  }

  /** Repository claims carry no numeric claim, so the library's claim validation passes them at any time. */
  lemma RepoClaimsValid(namespace: string, name: string, exp: int, kind: string, now: int)
    ensures ClaimsValid(RepoClaims(namespace, name, exp, kind), now)
  {
    var c := RepoClaims(namespace, name, exp, kind);
    assert c["exp"] == Str(FormatInt(exp));
    assert "iat" !in c && "nbf" !in c;
  }

  /** The library's claim validation never rejects a token issued here, at any time. */
  lemma IssuedTokensPassValidation(namespace: string, name: string, secret: string, webSecret: string,
                                   issued: int, tokenPeriod: int, now: int)
    ensures var p := BuildTokens(namespace, name, secret, issued, tokenPeriod);
            ClaimsValid(p.bearer.claims, now) && ClaimsValid(p.refresh.claims, now)
    ensures var p := WebTokens(webSecret, issued);
            ClaimsValid(p.bearer.claims, now) && ClaimsValid(p.refresh.claims, now)
  {
    RepoClaimsValid(namespace, name, issued + BearerLifetime, "bearer", now);
    RepoClaimsValid(namespace, name, issued + BuildRefreshLifetime(tokenPeriod), "refresh", now);
  }

  /**
   * A signed token whose "exp" is a JSON number never gets past the
   * checks: in the past it fails the library's claim validation, and
   * otherwise the handler's string assertion on "exp" panics.
   */
  lemma NumericExpiry(t: Jwt, secret: string, kind: string, now: int)
    requires Verifies(t, secret)
    requires "exp" in t.claims && t.claims["exp"].Num?
    requires ("iat" in t.claims ==> !t.claims["iat"].Num?) && ("nbf" in t.claims ==> !t.claims["nbf"].Num?)
    ensures CheckToken(Some(t), secret, kind, now)
            == if t.claims["exp"].n != 0 && now > t.claims["exp"].n then Refused(ParseError) else Crashed
  {
  }

  /**
   * A bearer token issued for a repository with its current secret is
   * admitted strictly before its expiry (20 minutes after issue) and
   * refused from that second on.
   */
  lemma FreshBearerAdmitted(storage: Storage, namespace: string, name: string, header: string,
                            issued: int, now: int, tokenPeriod: int, decode: string -> Option<Jwt>)
    requires Registered(storage, namespace, name)
    requires IsInt64(issued + BearerLifetime)
    requires Carries(header, decode,
                     BuildTokens(namespace, name, storage[RepoId(namespace, name)].secret, issued, tokenPeriod).bearer)
    ensures ValidateBuildTokenAsWritten(storage, namespace, name, header, now, decode)
            == if now < issued + BearerLifetime then Success(()) else Failure(401, "Unauthorized")
  {
    var repo := storage[RepoId(namespace, name)];
    var t := BuildTokens(namespace, name, repo.secret, issued, tokenPeriod).bearer;
    RepoClaimsValid(namespace, name, issued + BearerLifetime, "bearer", now);
    var v := CheckToken(Some(t), repo.secret, "bearer", now);
    assert v.Granted? <==> now < issued + BearerLifetime;
    if v.Granted? {
      assert CheckScope(v.claims, repo).Granted?;
    }
  }

  /**
   * Rotating a repository's secret revokes its tokens: a token signed with
   * any other key is refused by every repository-scoped check, however
   * fresh it is.
   */
  lemma RotationRevokes(storage: Storage, namespace: string, name: string, header: string,
                        t: Jwt, now: int, tokenPeriod: int, decode: string -> Option<Jwt>)
    requires RepoId(namespace, name) in storage
    requires Carries(header, decode, t)
    requires t.key != storage[RepoId(namespace, name)].secret
    ensures ValidateBuildTokenAsWritten(storage, namespace, name, header, now, decode) == Failure(401, "Unauthorized")
    ensures ValidateBuildToken(storage, namespace, name, header, now, decode) == Failure(401, "Unauthorized")
    ensures GetBuildTokenAsWritten(storage, namespace, name, header, now, tokenPeriod, decode) == Failure(401, "Unauthorized")
    ensures GetBuildToken(storage, namespace, name, header, now, tokenPeriod, decode) == Failure(401, "Unauthorized")
  {
    var repo := storage[RepoId(namespace, name)];
    assert !Verifies(t, repo.secret);
    assert Contains(header, "Bearer ");
  }

  /** A refresh token is never admitted where a bearer token is required. */
  lemma RefreshIsNotBearer(storage: Storage, namespace: string, name: string, header: string,
                           secret: string, issued: int, now: int, tokenPeriod: int, decode: string -> Option<Jwt>)
    requires RepoId(namespace, name) in storage
    requires Carries(header, decode, BuildTokens(namespace, name, secret, issued, tokenPeriod).refresh)
    ensures ValidateBuildTokenAsWritten(storage, namespace, name, header, now, decode) == Failure(401, "Unauthorized")
  {
    var t := BuildTokens(namespace, name, secret, issued, tokenPeriod).refresh;
    var v := CheckToken(Some(t), storage[RepoId(namespace, name)].secret, "bearer", now);
    assert !v.Granted? && !v.Crashed?;
  }

  /** A bearer token never buys a new pair: only a refresh token does. */
  lemma BearerIsNotRefresh(storage: Storage, namespace: string, name: string, header: string,
                           secret: string, issued: int, now: int, tokenPeriod: int, decode: string -> Option<Jwt>)
    requires RepoId(namespace, name) in storage
    requires Carries(header, decode, BuildTokens(namespace, name, secret, issued, tokenPeriod).bearer)
    ensures GetBuildTokenAsWritten(storage, namespace, name, header, now, tokenPeriod, decode) == Failure(401, "Unauthorized")
  {
    var t := BuildTokens(namespace, name, secret, issued, tokenPeriod).bearer;
    var v := CheckToken(Some(t), storage[RepoId(namespace, name)].secret, "refresh", now);
    assert !v.Granted? && !v.Crashed?;
    assert Contains(header, "Bearer ");
  }

  /**
   * An unexpired refresh token issued with the repository's current secret
   * buys a new pair, issued at `now` with the same secret.
   */
  lemma RefreshRenews(storage: Storage, namespace: string, name: string, header: string,
                      issued: int, now: int, tokenPeriod: int, decode: string -> Option<Jwt>)
    requires Registered(storage, namespace, name)
    requires IsInt64(issued + BuildRefreshLifetime(tokenPeriod))
    requires now < issued + BuildRefreshLifetime(tokenPeriod)
    requires Carries(header, decode,
                     BuildTokens(namespace, name, storage[RepoId(namespace, name)].secret, issued, tokenPeriod).refresh)
    ensures GetBuildTokenAsWritten(storage, namespace, name, header, now, tokenPeriod, decode)
            == Success(BuildTokens(namespace, name, storage[RepoId(namespace, name)].secret, now, tokenPeriod))
  {
    var repo := storage[RepoId(namespace, name)];
    var p := BuildTokens(namespace, name, repo.secret, issued, tokenPeriod);
    RepoClaimsValid(namespace, name, issued + BuildRefreshLifetime(tokenPeriod), "refresh", now);
    var v := CheckToken(Some(p.refresh), repo.secret, "refresh", now);
    assert v.Granted?;
    assert StrClaim(p.refresh.claims, "namespace") == Some(namespace);
    assert StrClaim(p.refresh.claims, "repo") == Some(name);
    assert CheckScope(v.claims, repo).Granted?;
    assert Contains(header, "Bearer ");
  }

  /** The Basic credentials a `/token` request carries, decoded, when there are any. */
  function Credentials(header: string, codec: WebCodec): Option<string> {
    match Cut(header, "Basic ")
    case None => None
    case Some((_, encoded)) => codec.basic(encoded)
  }

  /** "user:password" with both parts non-empty, split at the first colon. */
  predicate PasswordLogin(auth: string) {
    Cut(auth, ":").Some? && Cut(auth, ":").value.0 != "" && Cut(auth, ":").value.1 != ""
  }

  /**
   * With credentials that split into a non-empty user and password, the
   * answer is the password check alone: the cookie plays no part.
   */
  lemma PasswordPathDecides(header: string, cookie: Option<string>, account: Account, webSecret: string,
                            now: int, codec: WebCodec)
    requires Credentials(header, codec).Some? && PasswordLogin(Credentials(header, codec).value)
    ensures var (user, password) := Cut(Credentials(header, codec).value, ":").value;
            GetWebTokenAsWritten(header, cookie, account, webSecret, now, codec)
            == if user == account.username && account.checkHash(password, account.passwordHash)
               then Success(WebTokens(webSecret, now)) else Failure(401, "Unauthorized")
  {
  }

  /**
   * Otherwise (credentials that decode but do not split into two non-empty
   * parts) the account plays no part: the "refresh" cookie must hold an
   * unexpired admin refresh token signed with the web secret.
   */
  lemma CookiePathDecides(header: string, cookie: Option<string>, account: Account, webSecret: string,
                          now: int, codec: WebCodec)
    requires Credentials(header, codec).Some? && !PasswordLogin(Credentials(header, codec).value)
    ensures GetWebTokenAsWritten(header, cookie, account, webSecret, now, codec)
            == if cookie.None? then Failure(401, "Unauthorized")
               else match CheckToken(codec.parse(cookie.value), webSecret, "refresh", now)
                 case Granted(_) => Success(WebTokens(webSecret, now))
                 case Refused(_) => Failure(401, "Unauthorized")
                 case Crashed => Panic
  {
  }

  /** The admin refresh cookie issued at `issued` renews the session until 24 hours later. */
  lemma WebRefreshRenews(header: string, account: Account, webSecret: string, issued: int, now: int,
                         codec: WebCodec, cookie: string)
    requires Credentials(header, codec).Some? && !PasswordLogin(Credentials(header, codec).value)
    requires IsInt64(issued + WebRefreshLifetime)
    requires codec.parse(cookie) == Some(WebTokens(webSecret, issued).refresh)
    ensures GetWebTokenAsWritten(header, Some(cookie), account, webSecret, now, codec)
            == if now < issued + WebRefreshLifetime then Success(WebTokens(webSecret, now)) else Failure(401, "Unauthorized")
  {
    CookiePathDecides(header, Some(cookie), account, webSecret, now, codec);
  }

  /**
   * A request without an Authorization header: the three handlers that read
   * the header's second part unchecked panic, where the corrected ones
   * answer 401.
   */
  lemma MissingHeader(storage: Storage, namespace: string, name: string, webSecret: string, now: int,
                      tokenPeriod: int, decode: string -> Option<Jwt>, cookie: Option<string>,
                      account: Account, codec: WebCodec)
    requires RepoId(namespace, name) in storage
    ensures ValidateWebTokenAsWritten("", webSecret, now, decode) == Panic
    ensures GetBuildTokenAsWritten(storage, namespace, name, "", now, tokenPeriod, decode) == Panic
    ensures GetWebTokenAsWritten("", cookie, account, webSecret, now, codec) == Panic
    ensures ValidateWebToken("", webSecret, now, decode) == Failure(401, "Unauthorized")
    ensures GetBuildToken(storage, namespace, name, "", now, tokenPeriod, decode) == Failure(401, "Unauthorized")
    ensures GetWebToken("", cookie, account, webSecret, now, codec) == Failure(401, "Unauthorized")
  {
    assert !OccursAt("", "Bearer ", 0);
    assert !OccursAt("", "Basic ", 0);
  }

  /**
   * A repository whose secret was never generated admits, as written, a
   * bearer token that anybody can sign with the empty key; the corrected
   * check refuses it.
   */
  lemma EmptySecretForgery(storage: Storage, namespace: string, name: string, header: string,
                           exp: int, now: int, decode: string -> Option<Jwt>)
    requires Registered(storage, namespace, name) && storage[RepoId(namespace, name)].secret == ""
    requires IsInt64(exp) && now < exp
    requires Carries(header, decode, Sign(RepoClaims(namespace, name, exp, "bearer"), ""))
    ensures ValidateBuildTokenAsWritten(storage, namespace, name, header, now, decode) == Success(())
    ensures ValidateBuildToken(storage, namespace, name, header, now, decode) == Failure(401, "Unauthorized")
  {
    var t := Sign(RepoClaims(namespace, name, exp, "bearer"), "");
    ExpiryRoundTrip(t, exp);
    RepoClaimsValid(namespace, name, exp, "bearer", now);
    assert Contains(header, "Bearer ");
  }
}
