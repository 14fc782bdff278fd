/**
 * `checkAuthAction`: answer an authenticated user with a fresh token, its
 * roles and its name, and anybody else with 401. The authenticated user and
 * the token issuer are inputs.
 */
module AuthController {
  import opened Wrappers
  import opened Php
  import opened Errors
  import Dict
  import JwtAuthenticator

  /** What `getUser()` returns. */
  datatype CurrentUser =
    | Anonymous
    | Info(username: string, roles: seq<string>)
    | NotUserInformation(className: string)

  datatype Reply =
    | Authorized(httpStatus: int, status: string, token: string, acl: seq<string>, username: string,
                 headers: seq<(string, string)>)
    | Refused(httpStatus: int, status: string)

  const DefaultTtl: int := 3600

  /** `$request->get('ttl', 3600)`. */
  function RequestedTtl(ttl: Option<Value>): (r: Value)
    ensures ttl.None? ==> r == Int(DefaultTtl)
    ensures ttl.Some? ==> r == ttl.value
  {
    ttl.GetOr(Int(DefaultTtl))
  }

  /**
   * `if (-1 === $lifetime) { $lifetime = null; }`: only the integer -1 means
   * unlimited. A ttl read from the query string or a form is a string, so
   * "-1" is passed on as a lifetime.
   */
  function LifetimeAsWritten(ttl: Value): (r: Option<Value>)
    ensures r.None? <==> ttl == Int(-1)
    ensures r.Some? ==> r.value == ttl
  {
    if ttl == Int(-1) then None else Some(ttl)
  }

  /** -1 means unlimited whether it arrives as an integer or as the request string "-1". */
  function Lifetime(ttl: Value): (r: Option<Value>)
    ensures r.None? <==> ttl == Int(-1) || ttl == Str("-1")
    ensures r.Some? ==> r.value == ttl
  {
    if ttl == Int(-1) || ttl == Str("-1") then None else Some(ttl)
  }

  /** The two readings differ only on the string "-1". */
  lemma LifetimeAgreement(ttl: Value)
    ensures ttl != Str("-1") ==> Lifetime(ttl) == LifetimeAsWritten(ttl)
    ensures Lifetime(Str("-1")) == None && LifetimeAsWritten(Str("-1")) == Some(Str("-1"))
  {
  }

  /**
   * As written, `?ttl=-1` gives a token whose `exp` is one second before its
   * `iat`: PHP adds the string "-1" to `time()` as the number -1.
   */
  lemma QueryTtlMinusOneExpiresAtOnce(
    cfg: JwtAuthenticator.Config, values: JwtAuthenticator.Claims, time: int,
    hash: JwtAuthenticator.Claims -> string)
    ensures LifetimeAsWritten(Str("-1")) == Some(Str("-1"))
    ensures IntCast("-1") == -1
    ensures Dict.Get(JwtAuthenticator.Encode(cfg, Some(IntCast("-1")), Some(values), time, hash), "exp")
         == Some(Int(time - 1))
    ensures Dict.Get(JwtAuthenticator.Encode(cfg, Some(IntCast("-1")), Some(values), time, hash), "iat")
         == Some(Int(time))
  {
    CastOfMinusOne();
    var claims := JwtAuthenticator.Encode(cfg, Some(-1), Some(values), time, hash);
    assert Dict.Get(claims, "exp") == Some(Int(time + -1));
  }

  /** `(int) "-1"`, as PHP's arithmetic reads the string. */
  lemma CastOfMinusOne()
    ensures IntCast("-1") == -1
  {
    var s := "-1";
    assert !IsSpace(s[0]);
    assert SkipSpaces(s) == s;
    assert s[1..] == "1";
    DigitPrefixOfDigits("1", "");
    assert "1" + "" == "1";
    assert DigitsValue("1") == 10 * DigitsValue("") + DigitValue('1');
  }

  /**
   * `checkAuthAction`, as written: 401 without a user, RuntimeException for
   * a user of the wrong class, otherwise 200 with the token (also as the
   * `Authentication` header), the roles and the name. `issue` stands for
   * `getTokenForData($user, $lifetime)`; the lifetime is the ttl as the
   * strict comparison leaves it.
   */
  function CheckAuthAction(user: CurrentUser, ttl: Option<Value>, issue: (CurrentUser, Option<Value>) -> string): (r: Result<Reply, Thrown>)
    ensures user.Anonymous? ==> r == Ok(Refused(401, "unauthorized"))
    ensures user.NotUserInformation? ==> r == Err(Thrown(Runtime, "Invalid user object"))
    ensures user.Info? ==>
      var token := issue(user, LifetimeAsWritten(RequestedTtl(ttl)));
      r == Ok(Authorized(200, "OK", token, user.roles, user.username, [("Authentication", token)]))
  {
    Answer(user, LifetimeAsWritten(RequestedTtl(ttl)), issue)
  }

  /** The reply for a user once the lifetime is chosen. */
  function Answer(user: CurrentUser, lifetime: Option<Value>, issue: (CurrentUser, Option<Value>) -> string): Result<Reply, Thrown>
  {
    match user
    case Anonymous => Ok(Refused(401, "unauthorized"))
    case NotUserInformation(_) => Err(Thrown(Runtime, "Invalid user object"))
    case Info(username, roles) =>
      var token := issue(user, lifetime);
      Ok(Authorized(200, "OK", token, roles, username, [("Authentication", token)]))
  }

  /**
   * `checkAuthAction` as intended: -1 means a token without expiry whether
   * it arrives as an integer or as the request string "-1".
   */
  function CheckAuthActionIntended(user: CurrentUser, ttl: Option<Value>, issue: (CurrentUser, Option<Value>) -> string): (r: Result<Reply, Thrown>)
    ensures user.Info? ==>
      && r.Ok? && r.value.Authorized? && r.value.httpStatus == 200
      && r.value.acl == user.roles && r.value.username == user.username
      && r.value.headers == [("Authentication", r.value.token)]
    ensures user.Info? && (ttl == Some(Int(-1)) || ttl == Some(Str("-1"))) ==> r.value.token == issue(user, None)
    ensures user.Info? && ttl.None? ==> r.value.token == issue(user, Some(Int(DefaultTtl)))
    ensures !user.Info? ==> r == CheckAuthAction(user, ttl, issue)
  {
    Answer(user, Lifetime(RequestedTtl(ttl)), issue)
  }

  /** The action as written and as intended differ only for the request string "-1". */
  lemma CheckAuthAgreement(user: CurrentUser, ttl: Option<Value>, issue: (CurrentUser, Option<Value>) -> string)
    ensures ttl != Some(Str("-1")) ==> CheckAuthActionIntended(user, ttl, issue) == CheckAuthAction(user, ttl, issue)
    ensures user.Info? ==>
      && CheckAuthAction(user, Some(Str("-1")), issue).value.token == issue(user, Some(Str("-1")))
      && CheckAuthActionIntended(user, Some(Str("-1")), issue).value.token == issue(user, None)
  {
    if ttl != Some(Str("-1")) {
      LifetimeAgreement(RequestedTtl(ttl));
    }
  }

  /**
   * Without a ttl the token is issued for 3600 seconds and with the integer
   * -1 without expiry; the request string "-1" is passed on as a lifetime.
   */
  lemma TtlDefaults(user: CurrentUser, issue: (CurrentUser, Option<Value>) -> string)
    requires user.Info?
    ensures CheckAuthAction(user, None, issue).value.token == issue(user, Some(Int(3600)))
    ensures CheckAuthAction(user, Some(Int(-1)), issue).value.token == issue(user, None)
    ensures CheckAuthAction(user, Some(Str("-1")), issue).value.token == issue(user, Some(Str("-1")))
  {
  }
}
