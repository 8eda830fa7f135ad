/** The login and authorization logic of the controller package: reading the
    authenticated subject out of the request context, and the OAuth 2.0
    authorization-code callback (section 4.1 of RFC 6749) that trades the code for the
    provider's identity token and mints the application's own HS256-signed JWT
    (section 3.2 of RFC 7518) with the registered claims `sub`, `iat`, `exp` and `jti`
    (section 4.1 of RFC 7519) plus `name` and `domain`.

    The OAuth2 code exchange, `ParseUnverified`, HMAC signing, UUID generation and the
    wall clock are not modelled: the first three are the fields of a `Provider`, and the
    clock reading and the fresh UUID are parameters. */
module Auth {
  import opened Errors

  /** The fixed anti-forgery `state` value (section 10.12 of RFC 6749). */
  const StateToken := "put-state-here"

  /** The context key echo's JWT middleware stores the parsed token under. */
  const UserKey := "user"

  /** `time.Duration` units, in nanoseconds. */
  const Second: int := 1_000_000_000
  const Minute: int := 60 * Second
  const TokenLifetime: int := 15 * Minute

  const StatusOK := 200
  const StatusUnauthorized := 401
  const StatusInternalServerError := 500

  /** `jwt.RegisteredClaims` as the callback fills it; the two dates are Unix times in
      nanoseconds. */
  datatype RegisteredClaims = RegisteredClaims(id: string, subject: string, expiresAt: int, issuedAt: int)

  /** `jwtCustomClaims`. */
  datatype CustomClaims = CustomClaims(name: string, domain: string, registered: RegisteredClaims)

  /** The dynamic type of `token.Claims`: the application's claims struct, or anything else. */
  datatype Claims = Custom(custom: CustomClaims) | OtherClaims

  /** A `*jwt.Token`; only its claims matter here. */
  datatype Token = Token(claims: Claims)

  /** A value stored in the request context: a `*jwt.Token` or a value of another type. */
  datatype ContextValue = JwtToken(token: Token) | OtherValue

  type RequestContext = map<string, ContextValue>

  /** Gives the subject of the request's token, failing when the context holds no token
      under the user key or the token's claims are not `jwtCustomClaims`. */
  function ExtractUser(c: RequestContext): (r: Result<string>)
    ensures (UserKey !in c || !c[UserKey].JwtToken?) <==> r == Err(New("JWT token missing or invalid"))
    ensures (UserKey in c && c[UserKey].JwtToken? && c[UserKey].token.claims.OtherClaims?)
      <==> r == Err(New("failed to cast claims as jwt.MapClaims"))
    ensures r.Ok? <==> UserKey in c && c[UserKey].JwtToken? && c[UserKey].token.claims.Custom?
    ensures r.Ok? ==> r.value == c[UserKey].token.claims.custom.registered.subject
  {
    if UserKey !in c || !c[UserKey].JwtToken? then
      Err(New("JWT token missing or invalid"))
    else
      match c[UserKey].token.claims
      case OtherClaims => Err(New("failed to cast claims as jwt.MapClaims"))
      case Custom(claims) => Ok(claims.registered.subject)
  }

  /** `jwt.NewNumericDate(t)`: the time rounded down to whole seconds. */
  function NumericDate(t: int): (d: int)
    ensures d <= t < d + Second && d % Second == 0
  {
    t - t % Second
  }

  /** A JSON value in the provider's responses: a string, or a value of another type. */
  datatype JsonValue = JString(s: string) | JOther

  type JsonObject = map<string, JsonValue>

  /** `m[key].(string)` succeeds. */
  predicate IsString(m: JsonObject, key: string)
  {
    key in m && m[key].JString?
  }

  /** The collaborators of the callback: the code exchange (giving the token response's
      extra fields), `ParseUnverified` of the identity token (giving its claims), and
      HS256 signing of a claim set with a key. */
  datatype Provider = Provider(
    exchange: string -> Result<JsonObject>,
    parseUnverified: string -> Result<JsonObject>,
    sign: (CustomClaims, string) -> Result<string>)

  /** `url.Values.Get`: the first value of a query parameter, or "" when it has none. */
  function QueryParam(query: map<string, seq<string>>, name: string): (v: string)
    ensures name !in query || query[name] == [] ==> v == ""
    ensures name in query && query[name] != [] ==> v == query[name][0]
  {
    if name in query && query[name] != [] then query[name][0] else ""
  }

  /** The claim set the callback signs, built from the provider's identity claims, one
      clock reading and a fresh identifier. */
  function NewClaims(google: JsonObject, now: int, id: string): (c: CustomClaims)
    requires IsString(google, "email") && IsString(google, "name") && IsString(google, "hd")
    ensures c.registered.subject == google["email"].s
    ensures c.name == google["name"].s && c.domain == google["hd"].s
    ensures c.registered.id == id
    ensures c.registered.issuedAt == NumericDate(now)
    ensures c.registered.issuedAt <= now < c.registered.issuedAt + Second
    ensures c.registered.expiresAt - c.registered.issuedAt == TokenLifetime
  {
    CustomClaims(
      google["name"].s,
      google["hd"].s,
      RegisteredClaims(id, google["email"].s, NumericDate(now + TokenLifetime), NumericDate(now)))
  }

  datatype Body = ErrorResponse(message: string) | TokenResponse(fields: map<string, string>)

  datatype Response = Response(status: int, body: Body)

  /** The type assertions of the callback that panic instead of failing: `id_token` in the
      exchanged token, and `email`, `name` and `hd` in the identity claims, must be
      strings whenever the callback reaches them. */
  predicate CallbackDoesNotPanic(query: map<string, seq<string>>, p: Provider)
  {
    QueryParam(query, "state") == StateToken && p.exchange(QueryParam(query, "code")).Ok? ==>
      var extra := p.exchange(QueryParam(query, "code")).value;
      IsString(extra, "id_token") &&
      (p.parseUnverified(extra["id_token"].s).Ok? ==>
        var google := p.parseUnverified(extra["id_token"].s).value;
        IsString(google, "email") && IsString(google, "name") && IsString(google, "hd"))
  }

  /** The state matched and the exchange and the parse succeeded, giving identity claims
      with the three string fields the callback reads. */
  predicate ReachesSigning(query: map<string, seq<string>>, p: Provider)
  {
    && QueryParam(query, "state") == StateToken
    && p.exchange(QueryParam(query, "code")).Ok?
    && var extra := p.exchange(QueryParam(query, "code")).value;
    && IsString(extra, "id_token")
    && p.parseUnverified(extra["id_token"].s).Ok?
    && var google := p.parseUnverified(extra["id_token"].s).value;
    && IsString(google, "email") && IsString(google, "name") && IsString(google, "hd")
  }

  /** The identity claims the callback signs from. */
  function IdentityClaims(query: map<string, seq<string>>, p: Provider): (google: JsonObject)
    requires ReachesSigning(query, p)
    ensures IsString(google, "email") && IsString(google, "name") && IsString(google, "hd")
  {
    p.parseUnverified(p.exchange(QueryParam(query, "code")).value["id_token"].s).value
  }

  /** `signed` is the signature of the claims built from the identity token. */
  predicate IssuedToken(query: map<string, seq<string>>, p: Provider, signKey: string, now: int, id: string, signed: string)
  {
    ReachesSigning(query, p) && p.sign(NewClaims(IdentityClaims(query, p), now, id), signKey) == Ok(signed)
  }

  /** `handleOauthCallback`: checks the state parameter, exchanges the code, reads the
      identity claims from the unverified identity token, and answers with the signed
      application token under the key "token:". */
  function HandleOauthCallback(query: map<string, seq<string>>, p: Provider, signKey: string, now: int, id: string): (r: Response)
    requires CallbackDoesNotPanic(query, p)
    ensures QueryParam(query, "state") != StateToken ==>
      r == Response(StatusUnauthorized, ErrorResponse("state token does not match"))
    ensures QueryParam(query, "state") == StateToken && p.exchange(QueryParam(query, "code")).Err? ==>
      r == Response(StatusInternalServerError, ErrorResponse(
        Text(Wrap(p.exchange(QueryParam(query, "code")).error, "problem exchanging oauth code for token"))))
    ensures QueryParam(query, "state") == StateToken && p.exchange(QueryParam(query, "code")).Ok? ==>
      var token := p.exchange(QueryParam(query, "code")).value["id_token"].s;
      p.parseUnverified(token).Err? ==>
        r == Response(StatusInternalServerError, ErrorResponse(Text(p.parseUnverified(token).error)))
    ensures ReachesSigning(query, p) ==>
      var signed := p.sign(NewClaims(IdentityClaims(query, p), now, id), signKey);
      signed.Err? ==> r == Response(StatusInternalServerError, ErrorResponse(Text(signed.error)))
    ensures r.status == StatusUnauthorized <==> QueryParam(query, "state") != StateToken
    ensures r.status in {StatusOK, StatusUnauthorized, StatusInternalServerError}
    ensures r.status == StatusOK <==> r.body.TokenResponse?
    ensures r.status == StatusOK <==>
      exists signed :: IssuedToken(query, p, signKey, now, id, signed) && r.body == TokenResponse(map["token:" := signed])
  {
    if QueryParam(query, "state") != StateToken then
      Response(StatusUnauthorized, ErrorResponse("state token does not match"))
    else
      match p.exchange(QueryParam(query, "code"))
      case Err(e) =>
        Response(StatusInternalServerError, ErrorResponse(Text(Wrap(e, "problem exchanging oauth code for token"))))
      case Ok(extra) =>
        match p.parseUnverified(extra["id_token"].s)
        case Err(e) => Response(StatusInternalServerError, ErrorResponse(Text(e)))
        case Ok(google) =>
          match p.sign(NewClaims(google, now, id), signKey)
          case Err(e) => Response(StatusInternalServerError, ErrorResponse(Text(e)))
          case Ok(signed) => Response(StatusOK, TokenResponse(map["token:" := signed]))
  }

  /** The state check comes before the code exchange: with a wrong state the answer is the
      same whatever the provider would have done. */
  lemma StateCheckPrecedesExchange(query: map<string, seq<string>>, p1: Provider, p2: Provider,
                                   key1: string, key2: string, now1: int, now2: int, id1: string, id2: string)
    requires QueryParam(query, "state") != StateToken
    ensures HandleOauthCallback(query, p1, key1, now1, id1) == HandleOauthCallback(query, p2, key2, now2, id2)
  {
  }

  /** A token carrying the claims the callback signed authorizes its holder as the
      provider's `email`: the gate gives back exactly the subject the callback minted. */
  lemma MintedClaimsAuthorize(google: JsonObject, now: int, id: string, c: RequestContext)
    requires IsString(google, "email") && IsString(google, "name") && IsString(google, "hd")
    requires UserKey in c && c[UserKey] == JwtToken(Token(Custom(NewClaims(google, now, id))))
    ensures ExtractUser(c) == Ok(google["email"].s)
  {
  }
}
