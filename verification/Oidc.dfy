/** Claims of a token: how they are built, and which tokens are accepted when. */
module Oidc {
  import opened Wrappers
  import opened Base64Url
  import opened Jwt

  datatype Role = User | Admin

  datatype Config = Config(issuer: string, audience: string, secret: string, ttlSeconds: int, toleranceSeconds: int)

  datatype Identity = Identity(externalAuthId: string, email: string, role: Role)

  datatype TokenError =
    | BadSignature(error: JwtError)
    | UntrustedIssuer
    | AudienceMismatch
    | Expired
    | NotYetValid
    | MissingSubject
    | MissingEmail
    | InvalidRole

  function RoleText(role: Role): string { if role == User then "user" else "admin" }

  /** Claims for a token issued at `nowMs`; `ttl` overrides the configured lifetime. */
  function Claims(config: Config, sub: string, email: string, role: Role, ttl: Option<int>, nowMs: int, jti: string)
    : map<string, Json>
  {
    var now := nowMs / 1000;
    var lifetime := if ttl.Some? then ttl.value else config.ttlSeconds;
    map["sub" := Str(sub), "email" := Str(email), "role" := Str(RoleText(role)),
        "iss" := Str(config.issuer), "aud" := Str(config.audience),
        "iat" := Num(now), "nbf" := Num(now), "exp" := Num(now + lifetime), "jti" := Str(jti)]
  }

  function IssueToken(runtime: Runtime, config: Config, sub: string, email: string, role: Role, ttl: Option<int>,
                      nowMs: int, jti: string): string {
    SignJwt(runtime, Claims(config, sub, email, role, ttl, nowMs, jti), config.secret)
  }

  predicate AudienceIncludes(aud: Option<Json>, audience: string) {
    match aud
    case Some(Arr(items)) => Str(audience) in items
    case Some(value) => value == Str(audience)
    case None => false
  }

  /** A non-empty string claim. */
  predicate HasText(claim: Option<Json>) {
    claim.Some? && claim.value.Str? && claim.value.s != ""
  }

  /** The checks on the claims, in the program's order. */
  function CheckClaims(config: Config, claims: Json, nowMs: int): Result<Identity, TokenError> {
    var now := nowMs / 1000;
    var exp, nbf, role := Get(claims, "exp"), Get(claims, "nbf"), Get(claims, "role");
    if claims.Null? then Err(BadSignature(NotAnObject))
    else if Get(claims, "iss") != Some(Str(config.issuer)) then Err(UntrustedIssuer)
    else if !AudienceIncludes(Get(claims, "aud"), config.audience) then Err(AudienceMismatch)
    else if exp.None? || !exp.value.Num? || exp.value.n + config.toleranceSeconds < now then Err(Expired)
    else if nbf.Some? && nbf.value.Num? && nbf.value.n - config.toleranceSeconds > now then Err(NotYetValid)
    else if !HasText(Get(claims, "sub")) then Err(MissingSubject)
    else if !HasText(Get(claims, "email")) then Err(MissingEmail)
    else if role != Some(Str("user")) && role != Some(Str("admin")) then Err(InvalidRole)
    else Ok(Identity(Get(claims, "sub").value.s, Get(claims, "email").value.s,
                     if role == Some(Str("user")) then User else Admin))
  }

  function VerifyToken(runtime: Runtime, config: Config, token: string, nowMs: int): Result<Identity, TokenError> {
    match VerifyJwtSignature(runtime, token, config.secret)
    case Err(e) => Err(BadSignature(e))
    case Ok(claims) => CheckClaims(config, claims, nowMs)
  }

  /**
   * A token issued at `issued` is accepted at `presented` exactly within its lifetime, wider
   * by the tolerance at both ends, counted in whole seconds, and for non-empty sub and
   * email; it then yields the identity it was issued for.
   */
  lemma ValidityWindow(runtime: Runtime, config: Config, sub: string, email: string, role: Role, ttl: Option<int>,
                       issued: int, jti: string, presented: int)
    requires runtime.Faithful()
    ensures var token := IssueToken(runtime, config, sub, email, role, ttl, issued, jti);
            var r := VerifyToken(runtime, config, token, presented);
            var n, t := issued / 1000, presented / 1000;
            var lifetime := if ttl.Some? then ttl.value else config.ttlSeconds;
            var inTime := n - config.toleranceSeconds <= t <= n + lifetime + config.toleranceSeconds;
            && (r.Ok? <==> inTime && sub != "" && email != "")
            && (r.Ok? ==> r.value == Identity(sub, email, role))
            && (r.Ok? ==> VerifyJwtSignature(runtime, token, config.secret).Ok?)
            && (r.Ok? ==> Names(config, VerifyJwtSignature(runtime, token, config.secret).value, r.value))
  {
    hide Encode, SignJwt, VerifyJwtSignature;
    VerifyOfSign(runtime, Claims(config, sub, email, role, ttl, issued, jti), config.secret, config.secret);
  }

  /** Not before its nbf, if it has one, and not after its exp, both widened by the tolerance. */
  predicate InTime(config: Config, claims: Json, nowMs: int) {
    var exp, nbf := Get(claims, "exp"), Get(claims, "nbf");
    && exp.Some? && exp.value.Num? && nowMs / 1000 <= exp.value.n + config.toleranceSeconds
    && (nbf.Some? && nbf.value.Num? ==> nbf.value.n - config.toleranceSeconds <= nowMs / 1000)
  }

  /** The audience claim is the audience itself, or an array that holds it. */
  predicate MeantFor(aud: Option<Json>, audience: string) {
    aud.Some? && (aud.value == Str(audience) || (aud.value.Arr? && Str(audience) in aud.value.items))
  }

  /** Claims that name the identity, for this issuer and audience. */
  predicate Names(config: Config, claims: Json, identity: Identity) {
    && Get(claims, "iss") == Some(Str(config.issuer)) && MeantFor(Get(claims, "aud"), config.audience)
    && Get(claims, "sub") == Some(Str(identity.externalAuthId)) && identity.externalAuthId != ""
    && Get(claims, "email") == Some(Str(identity.email)) && identity.email != ""
    && (identity.role == Admin <==> Get(claims, "role") == Some(Str("admin")))
    && (identity.role == User <==> Get(claims, "role") == Some(Str("user")))
  }

  /** Whatever the order of the checks: an identity is accepted exactly from claims that name it and are in time. */
  lemma ClaimsVouchExactlyFor(config: Config, claims: Json, nowMs: int, identity: Identity)
    ensures CheckClaims(config, claims, nowMs) == Ok(identity)
            <==> InTime(config, claims, nowMs) && Names(config, claims, identity)
  {
  }

  /** What is not accepted is refused for a reason that holds. */
  lemma RefusedForAReason(config: Config, claims: Json, nowMs: int)
    ensures match CheckClaims(config, claims, nowMs)
            case Ok(_) => true
            case Err(BadSignature(_)) => claims == Null
            case Err(UntrustedIssuer) => Get(claims, "iss") != Some(Str(config.issuer))
            case Err(AudienceMismatch) => !MeantFor(Get(claims, "aud"), config.audience)
            case Err(Expired) =>
              var exp := Get(claims, "exp");
              exp.Some? && exp.value.Num? ==> exp.value.n + config.toleranceSeconds < nowMs / 1000
            case Err(NotYetValid) =>
              var nbf := Get(claims, "nbf");
              nbf.Some? && nbf.value.Num? && nbf.value.n - config.toleranceSeconds > nowMs / 1000
            case Err(MissingSubject) => forall s :: Get(claims, "sub") == Some(Str(s)) ==> s == ""
            case Err(MissingEmail) => forall s :: Get(claims, "email") == Some(Str(s)) ==> s == ""
            case Err(InvalidRole) => Get(claims, "role") != Some(Str("user")) && Get(claims, "role") != Some(Str("admin"))
  {
  }

  /** An issued token carries these claims and no others. */
  lemma IssuedClaims(runtime: Runtime, config: Config, sub: string, email: string, role: Role, ttl: Option<int>,
                     issued: int, jti: string)
    requires runtime.Faithful()
    ensures var token := IssueToken(runtime, config, sub, email, role, ttl, issued, jti);
            var r := VerifyJwtSignature(runtime, token, config.secret);
            && r.Ok? && r.value.Obj?
            && r.value.fields.Keys == {"sub", "email", "role", "iss", "aud", "iat", "nbf", "exp", "jti"}
            && Get(r.value, "sub") == Some(Str(sub)) && Get(r.value, "email") == Some(Str(email))
            && (Get(r.value, "role") == Some(Str("admin")) <==> role == Admin)
            && (Get(r.value, "role") == Some(Str("user")) <==> role == User)
            && Get(r.value, "iss") == Some(Str(config.issuer)) && Get(r.value, "aud") == Some(Str(config.audience))
            && Get(r.value, "iat") == Get(r.value, "nbf") == Some(Num(issued / 1000))
            && Get(r.value, "exp") == Some(Num(issued / 1000 + if ttl.Some? then ttl.value else config.ttlSeconds))
            && Get(r.value, "jti") == Some(Str(jti))
  {
    hide Encode, SignJwt, VerifyJwtSignature;
    VerifyOfSign(runtime, Claims(config, sub, email, role, ttl, issued, jti), config.secret, config.secret);
  }

  /**
   * Whoever is accepted was vouched for: the token is signed here, and its claims name the
   * identity and are in time.  Any other header or payload text accepted under the same
   * signature is a collision of the digest.
   */
  lemma AcceptedIdentityIsVouchedFor(runtime: Runtime, config: Config, token: string, nowMs: int, forged: string, at: int)
    requires runtime.Faithful() && VerifyToken(runtime, config, token, nowMs).Ok?
    ensures var segments := Split(token);
            var identity := VerifyToken(runtime, config, token, nowMs).value;
            && |segments| == 3
            && token == SigningInput(token) + "." + Sign(runtime, SigningInput(token), config.secret)
            && runtime.parse(Decode(segments[1])).Some?
            && var claims := runtime.parse(Decode(segments[1])).value;
            && InTime(config, claims, nowMs) && Names(config, claims, identity)
    ensures VerifyToken(runtime, config, forged, at).Ok? && |Split(forged)| == 3 && Split(forged)[2] == Split(token)[2]
            ==> forged == token || Collision(runtime, SigningInput(token), SigningInput(forged), config.secret)
  {
    hide CheckClaims, InTime, Names, Encode, Decode, Split, NoDot;
    AcceptedTokenIsSigned(runtime, token, config.secret);
    var claims := VerifyJwtSignature(runtime, token, config.secret).value;
    ClaimsVouchExactlyFor(config, claims, nowMs, VerifyToken(runtime, config, token, nowMs).value);
    if VerifyToken(runtime, config, forged, at).Ok? && |Split(forged)| == 3 && Split(forged)[2] == Split(token)[2] {
      SameSignatureMeansCollision(runtime, token, forged, config.secret);
    }
  }
}
