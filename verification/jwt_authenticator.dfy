/**
 * JWTAuthenticator: reads a bearer token from the Authorization header
 * (section 2.1 of RFC 6750, with the scheme name matched case-insensitively
 * as section 2.1 of RFC 7235 allows), accepts it only when its audience
 * claim is this installation (section 4.1.3 of RFC 7519), and issues tokens
 * carrying the `iat`, `jti`, `aud` and `exp` claims (sections 4.1.6, 4.1.7,
 * 4.1.3 and 4.1.4 of RFC 7519). Signing, verification and hashing are
 * function parameters.
 */
module JwtAuthenticator {
  import opened Wrappers
  import opened Php
  import opened Errors
  import Text
  import Dict

  /** The configuration's secret (null when unset) and local domain (null when unset). */
  datatype Config = Config(secret: Option<string>, localId: Option<string>)

  /** A claim set: the properties of the decoded token object, by name. */
  type Claims = Dict.Dict<string, Value>

  /** The user a provider loads: the name and the role names it reports. */
  datatype User = User(username: string, roles: seq<string>)

  /** A JavascriptWebToken: the decoded credentials, the firewall's provider key, and once authenticated the user and roles. */
  datatype JwtToken = JwtToken(credentials: Value, providerKey: string, user: Option<User>, roles: seq<string>)

  /** A security token as the firewall hands it over: ours, or some other implementation. */
  datatype SecurityToken = Jwt(token: JwtToken) | OtherToken(otherProviderKey: string)

  /** Lifetime of issued tokens in seconds unless the caller says otherwise. */
  const DefaultLifetime: int := 3600

  const Scheme: string := "Bearer "

  predicate HasSecret(cfg: Config)
  {
    cfg.secret.Some? && TruthyString(cfg.secret.value)
  }

  /** The `aud` claim of a decoded token, null when it has none. */
  function Audience(claims: Claims): Value
  {
    Dict.Get(claims, "aud").GetOr(Null)
  }

  /** `$aud !== $this->localId`, negated: the audience is exactly the local id, or both are null. */
  predicate AudienceAccepted(cfg: Config, claims: Claims)
  {
    match cfg.localId
    case None => Audience(claims) == Null
    case Some(id) => Audience(claims) == Str(id)
  }

  /**
   * `decodeToken`: `verify` is `\JWT::decode` (signature and time checks,
   * decoding), which throws on failure; the claims come back only when the
   * audience matches as well.
   */
  function DecodeToken(cfg: Config, jwt: string, verify: (string, Option<string>) -> Result<Claims, Thrown>): (r: Result<Claims, Thrown>)
    ensures r.Ok? <==> verify(jwt, cfg.secret).Ok? && AudienceAccepted(cfg, verify(jwt, cfg.secret).value)
    ensures r.Ok? ==> r.value == verify(jwt, cfg.secret).value
    ensures verify(jwt, cfg.secret).Ok? && cfg.localId.Some? && !Dict.HasKey(verify(jwt, cfg.secret).value, "aud") ==>
      r == Err(Thrown(UnexpectedValue, "This token is not intended for us."))
    ensures verify(jwt, cfg.secret).Ok? && cfg.localId.None? && Audience(verify(jwt, cfg.secret).value).Str? ==>
      r == Err(Thrown(UnexpectedValue, "This token is not intended for us."))
  {
    match verify(jwt, cfg.secret)
    case Err(e) => Err(e)
    case Ok(claims) =>
      if AudienceAccepted(cfg, claims) then Ok(claims)
      else Err(Thrown(UnexpectedValue, "This token is not intended for us."))
  }

  /** `createToken`: the unauthenticated token of a request, or null when it carries none we accept. */
  function CreateToken(
    cfg: Config, authorization: Option<string>, providerKey: string,
    verify: (string, Option<string>) -> Result<Claims, Thrown>): (r: Option<JwtToken>)
    ensures !HasSecret(cfg) ==> r.None?
    ensures authorization.None? ==> r.None?
    ensures authorization.Some? && !Text.StartsWithIgnoreCase(authorization.value, Scheme) ==> r.None?
    ensures r.Some? <==>
      && HasSecret(cfg) && authorization.Some?
      && Text.StartsWithIgnoreCase(authorization.value, Scheme)
      && DecodeToken(cfg, authorization.value[|Scheme|..], verify).Ok?
    ensures r.Some? ==> r.value == JwtToken(
      Object("stdClass", DecodeToken(cfg, authorization.value[|Scheme|..], verify).value),
      providerKey, None, [])
  {
    if !HasSecret(cfg) then None
    else match authorization
      case None => None
      case Some(header) =>
        if !Text.StartsWithIgnoreCase(header, Scheme) then None
        else match DecodeToken(cfg, header[7..], verify)
          case Err(_) => None
          case Ok(claims) => Some(JwtToken(Object("stdClass", claims), providerKey, None, []))
  }

  /** The scheme name is matched in any letter case: 'BeArEr ' and 'bearer ' work like 'Bearer '. */
  lemma SchemeIgnoresCase(prefix: string, jwt: string)
    requires |prefix| == 7 && Text.Lower(prefix) == "bearer "
    ensures Text.StartsWithIgnoreCase(prefix + jwt, Scheme)
    ensures (prefix + jwt)[|Scheme|..] == jwt
  {
    assert (prefix + jwt)[..7] == prefix;
  }

  /**
   * `encode`: the claims of a new token issued at `time`. The custom values
   * come first, then `iat` (replacing a custom one); `jti` is `hash` of that
   * payload; then `aud` and `exp` are set when there is a local id and a
   * lifetime.
   */
  function Encode(cfg: Config, lifetime: Option<int>, custom: Option<Claims>, time: int, hash: Claims -> string): (r: Claims)
    ensures Dict.Get(r, "iat") == Some(Int(time))
    ensures Dict.Get(r, "jti") == Some(Str(hash(Payload(custom, time))))
    ensures cfg.localId.Some? ==> Dict.Get(r, "aud") == Some(Str(cfg.localId.value))
    ensures lifetime.Some? ==> Dict.Get(r, "exp") == Some(Int(time + lifetime.value))
    ensures cfg.localId.None? ==> Dict.Get(r, "aud") == Dict.Get(Payload(custom, time), "aud")
    ensures lifetime.None? ==> Dict.Get(r, "exp") == Dict.Get(Payload(custom, time), "exp")
    ensures forall k | !ReservedClaim(k) :: Dict.Get(r, k) == Dict.Get(Payload(custom, time), k)
  {
    var payload := Payload(custom, time);
    var withId := Dict.Set(payload, "jti", Str(hash(payload)));
    var withAud := SetWhen(withId, "aud", if cfg.localId.Some? then Some(Str(cfg.localId.value)) else None);
    SetWhen(withAud, "exp", if lifetime.Some? then Some(Int(time + lifetime.value)) else None)
  }

  /** `$claims[$k] = $v` when there is a value to set, nothing otherwise. */
  function SetWhen(claims: Claims, k: string, v: Option<Value>): (r: Claims)
    ensures v.Some? ==> Dict.Get(r, k) == v
    ensures v.None? ==> r == claims
    ensures forall k' | k' != k :: Dict.Get(r, k') == Dict.Get(claims, k')
  {
    if v.Some? then Dict.Set(claims, k, v.value) else claims
  }

  /** The claims `encode` sets itself. */
  predicate ReservedClaim(k: string)
  {
    k == "iat" || k == "jti" || k == "aud" || k == "exp"
  }

  /** The payload `jti` is computed from: the custom values with `iat` set to `time`. */
  function Payload(custom: Option<Claims>, time: int): (p: Claims)
    ensures Dict.Get(p, "iat") == Some(Int(time))
    ensures forall k | k != "iat" :: Dict.Get(p, k) == (if custom.Some? then Dict.Get(custom.value, k) else None)
  {
    var base: Claims := [("iat", Int(time))];
    match custom
    case None => base
    case Some(c) =>
      assert Dict.Keys(base)[0] == "iat";
      Dict.MergeRightWins(c, base, "iat");
      Dict.Merge(c, base)
  }

  /**
   * `getTokenForData`: the token for a user signs, with the secret, the
   * user's values together with `iat` = `time` and, for a lifetime, `exp` =
   * `time` + lifetime. `sign` stands for `\JWT::encode`.
   */
  function GetTokenForData(
    cfg: Config, values: Claims, lifetime: Option<int>, time: int,
    hash: Claims -> string, sign: (Claims, Option<string>) -> string): (token: string)
    ensures exists claims: Claims ::
      && token == sign(claims, cfg.secret)
      && Dict.Get(claims, "iat") == Some(Int(time))
      && (lifetime.Some? ==> Dict.Get(claims, "exp") == Some(Int(time + lifetime.value)))
      && forall k | !ReservedClaim(k) :: Dict.Get(claims, k) == Dict.Get(values, k)
  {
    var claims := Encode(cfg, lifetime, Some(values), time, hash);
    sign(claims, cfg.secret)
  }

  /**
   * `getTokenForData($user)` without a lifetime: the token expires
   * 3600 seconds after it was issued.
   */
  lemma DefaultTokenExpiresInAnHour(
    cfg: Config, values: Claims, time: int, hash: Claims -> string, sign: (Claims, Option<string>) -> string)
    ensures exists claims: Claims ::
      && GetTokenForData(cfg, values, Some(DefaultLifetime), time, hash, sign) == sign(claims, cfg.secret)
      && Dict.Get(claims, "iat") == Some(Int(time))
      && Dict.Get(claims, "exp") == Some(Int(time + 3600))
  {
    var token := GetTokenForData(cfg, values, Some(DefaultLifetime), time, hash, sign);
    var claims: Claims :| token == sign(claims, cfg.secret) && Dict.Get(claims, "iat") == Some(Int(time))
      && Dict.Get(claims, "exp") == Some(Int(time + DefaultLifetime));
  }

  /**
   * A token this authenticator issues is accepted back by it, when the
   * verifier inverts the signer and the user's values carry no `aud` of their
   * own that a missing local id would leave in place.
   */
  lemma IssuedTokenIsAccepted(
    cfg: Config, values: Claims, lifetime: Option<int>, time: int, providerKey: string,
    hash: Claims -> string, sign: (Claims, Option<string>) -> string,
    verify: (string, Option<string>) -> Result<Claims, Thrown>)
    requires HasSecret(cfg)
    requires cfg.localId.None? ==> !Dict.HasKey(values, "aud")
    ensures var claims := Encode(cfg, lifetime, Some(values), time, hash);
      verify(sign(claims, cfg.secret), cfg.secret) == Ok(claims) ==>
      CreateToken(cfg, Some(Scheme + GetTokenForData(cfg, values, lifetime, time, hash, sign)), providerKey, verify)
        == Some(JwtToken(Object("stdClass", claims), providerKey, None, []))
  {
    var claims := Encode(cfg, lifetime, Some(values), time, hash);
    var jwt := GetTokenForData(cfg, values, lifetime, time, hash, sign);
    if verify(sign(claims, cfg.secret), cfg.secret) == Ok(claims) {
      SchemeHeader(jwt);
      assert jwt == sign(claims, cfg.secret);
      EncodedAudienceAccepted(cfg, values, lifetime, time, hash);
      assert DecodeToken(cfg, jwt, verify) == Ok(claims);
    }
  }

  /** A header made of the scheme and a token carries the scheme, and the token after it. */
  lemma SchemeHeader(jwt: string)
    ensures Text.StartsWithIgnoreCase(Scheme + jwt, Scheme)
    ensures (Scheme + jwt)[|Scheme|..] == jwt
  {
    var header := Scheme + jwt;
    assert header[..|Scheme|] == Scheme;
  }

  /** The claims `encode` builds pass the audience check of the same configuration. */
  lemma EncodedAudienceAccepted(cfg: Config, values: Claims, lifetime: Option<int>, time: int, hash: Claims -> string)
    requires cfg.localId.None? ==> !Dict.HasKey(values, "aud")
    ensures AudienceAccepted(cfg, Encode(cfg, lifetime, Some(values), time, hash))
  {
  }

  /** The value of property `name` of an object, null for a missing property or a non-object. */
  function Property(v: Value, name: string): Value
  {
    match v
    case Object(_, props) => Dict.Get(props, name).GetOr(Null)
    case _ => Null
  }

  /**
   * `authenticateToken`: `loadUser` stands for the provider's
   * `loadUserByUsername` (null when it finds nobody).
   */
  function AuthenticateToken(cfg: Config, token: JwtToken, loadUser: Value -> Option<User>, providerKey: string): (r: Result<JwtToken, Thrown>)
    ensures !HasSecret(cfg) ==> r == Err(Thrown(Logic, "Config does not contain a secret."))
    ensures HasSecret(cfg) && !token.credentials.Object? ==>
      r == Err(Thrown(Authentication, "Invalid token - no or invalid credentials."))
    ensures HasSecret(cfg) && token.credentials.Object? && loadUser(Property(token.credentials, "username")).None? ==>
      r == Err(Thrown(Authentication, "Invalid token - could not derive user from credentials."))
    ensures r.Ok? <==> HasSecret(cfg) && token.credentials.Object? && loadUser(Property(token.credentials, "username")).Some?
    ensures r.Ok? ==>
      var user := loadUser(Property(token.credentials, "username")).value;
      r.value == JwtToken(token.credentials, providerKey, Some(user), user.roles)
  {
    if !HasSecret(cfg) then Err(Thrown(Logic, "Config does not contain a secret."))
    else if !token.credentials.Object? then Err(Thrown(Authentication, "Invalid token - no or invalid credentials."))
    else match loadUser(Property(token.credentials, "username"))
      case None => Err(Thrown(Authentication, "Invalid token - could not derive user from credentials."))
      case Some(user) => Ok(JwtToken(token.credentials, providerKey, Some(user), user.roles))
  }

  /** `supportsToken`: our own token type, issued for the same provider key. */
  function SupportsToken(token: SecurityToken, providerKey: string): (r: bool)
    ensures r ==> token.Jwt?
    ensures token.Jwt? ==> (r <==> token.token.providerKey == providerKey)
  {
    token.Jwt? && token.token.providerKey == providerKey
  }

  /**
   * Authentication keeps the provider key it is asked for, so a token it
   * returns is supported under that key, and a created token carries the
   * username claim straight into the user lookup.
   */
  lemma AuthenticatedTokenIsSupported(cfg: Config, token: JwtToken, loadUser: Value -> Option<User>, providerKey: string)
    requires AuthenticateToken(cfg, token, loadUser, providerKey).Ok?
    ensures SupportsToken(Jwt(AuthenticateToken(cfg, token, loadUser, providerKey).value), providerKey)
    ensures AuthenticateToken(cfg, token, loadUser, providerKey).value.user.Some?
  {
  }
}
