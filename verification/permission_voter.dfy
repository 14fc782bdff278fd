/**
 * PermissionVoter: grants, denies or abstains on a request according to the
 * role its route requires. The route-to-role map is built from the routes'
 * 'required_role' options; caching it in a PHP file is not modelled.
 */
module PermissionVoter {
  import opened Wrappers
  import opened Php
  import Text
  import Dict
  import opened Errors

  /** The voter's three answers, with Symfony's integer codes. */
  datatype Vote = Granted | Abstain | Denied

  function Code(v: Vote): (c: int)
    ensures -1 <= c <= 1
  {
    match v
    case Granted => 1
    case Abstain => 0
    case Denied => -1
  }

  /** A route of the router's collection and its 'required_role' option (null when unset). */
  datatype Route = Route(name: string, requiredRole: Option<string>)

  /** A request, reduced to its '_route' attribute (null when unmatched). */
  datatype Request = Request(route: Option<string>)

  /** The object under vote: a request, or anything else. */
  datatype Subject = RequestSubject(request: Request) | OtherSubject

  /** The token's user: one carrying tenside user information with its role names, or another kind. */
  datatype User = InfoUser(roles: seq<string>) | OtherUser

  const CheckAttribute: string := "ROLE_CHECK"

  /** `supportsAttribute`: strict equality with 'ROLE_CHECK'. */
  function SupportsAttribute(attribute: Value): (r: bool)
    ensures r <==> attribute == Str(CheckAttribute)
  {
    attribute == Str(CheckAttribute)
  }

  /** `supportsClass`: every class is supported. */
  function SupportsClass(className: string): (r: bool)
    ensures r
  {
    true
  }

  predicate SupportsAnyAttribute(attributes: seq<Value>)
  {
    exists i | 0 <= i < |attributes| :: SupportsAttribute(attributes[i])
  }

  /** `getRouteRoles`: each route whose 'required_role' is truthy, mapped to that role. */
  function RouteRoles(routes: seq<Route>): (m: Dict.Dict<string, string>)
    ensures forall name | Dict.HasKey(m, name) :: TruthyString(Dict.Get(m, name).value)
    decreases |routes|
  {
    if |routes| == 0 then []
    else
      var prev := RouteRoles(routes[..|routes| - 1]);
      var last := routes[|routes| - 1];
      if last.requiredRole.Some? && TruthyString(last.requiredRole.value) then
        Dict.Set(prev, last.name, last.requiredRole.value)
      else prev
  }

  /** Every entry of the map comes from a route of that name carrying that role. */
  lemma {:induction false} RouteRolesSound(routes: seq<Route>, name: string)
    ensures Dict.HasKey(RouteRoles(routes), name) ==>
      exists i | 0 <= i < |routes| :: routes[i] == Route(name, Some(Dict.Get(RouteRoles(routes), name).value))
    decreases |routes|
  {
    if |routes| > 0 && Dict.HasKey(RouteRoles(routes), name) {
      var n := |routes| - 1;
      var init := routes[..n];
      var last := routes[n];
      if last.requiredRole.Some? && TruthyString(last.requiredRole.value) && last.name == name {
        assert routes[n] == Route(name, Some(Dict.Get(RouteRoles(routes), name).value));
      } else {
        assert Dict.Get(RouteRoles(routes), name) == Dict.Get(RouteRoles(init), name);
        RouteRolesSound(init, name);
        var i :| 0 <= i < n && init[i] == Route(name, Some(Dict.Get(RouteRoles(init), name).value));
        assert routes[i] == init[i];
      }
    }
  }

  predicate UniqueNames(routes: seq<Route>)
  {
    forall i, j | 0 <= i < j < |routes| :: routes[i].name != routes[j].name
  }

  /** With distinct route names, every route with a truthy required role is in the map under its name. */
  lemma {:induction false} RouteRolesComplete(routes: seq<Route>, i: int)
    requires UniqueNames(routes) && 0 <= i < |routes|
    requires routes[i].requiredRole.Some? && TruthyString(routes[i].requiredRole.value)
    ensures Dict.Get(RouteRoles(routes), routes[i].name) == routes[i].requiredRole
    decreases |routes|
  {
    var init := routes[..|routes| - 1];
    if i < |routes| - 1 {
      assert init[i] == routes[i];
      RouteRolesComplete(init, i);
    }
  }

  /**
   * The request whose route is consulted: the voted object when it is a
   * request, else the request stack's current request, which is null
   * outside of a request.
   */
  function Consulted(subject: Subject, current: Option<Request>): Option<Request>
  {
    if subject.RequestSubject? then Some(subject.request) else current
  }

  /** What PHP raises when `getRequiredRole` calls `get()` on a null request. */
  const NullRequest: Thrown := Thrown(OtherClass("Error"), "Call to a member function get() on null")

  /**
   * `getRequiredRole`: the role of the voted request's route, or of the
   * current request's when the object is not a request. A request without a
   * route is looked up under the empty key, as PHP does with a null key.
   * Without any request to consult the call fails.
   */
  function RequiredRole(subject: Subject, current: Option<Request>, routes: seq<Route>): (r: Result<Option<string>, Thrown>)
    ensures r.Err? <==> Consulted(subject, current).None?
    ensures r.Err? ==> r.error == NullRequest
    ensures r.Ok? && r.value.Some? ==>
      var name := Consulted(subject, current).value.route.GetOr("");
      TruthyString(r.value.value) && exists i | 0 <= i < |routes| :: routes[i] == Route(name, r.value)
    ensures UniqueNames(routes) && Consulted(subject, current).Some? ==>
      forall i | 0 <= i < |routes| && routes[i].requiredRole.Some? && TruthyString(routes[i].requiredRole.value) ::
        Consulted(subject, current).value.route.GetOr("") == routes[i].name ==> r == Ok(routes[i].requiredRole)
  {
    match Consulted(subject, current)
    case None => Err(NullRequest)
    case Some(request) =>
      RouteRolesSound(routes, request.route.GetOr(""));
      forall i | 0 <= i < |routes| && UniqueNames(routes) && routes[i].requiredRole.Some? && TruthyString(routes[i].requiredRole.value)
        ensures Dict.Get(RouteRoles(routes), routes[i].name) == routes[i].requiredRole
      {
        RouteRolesComplete(routes, i);
      }
      Ok(Dict.Get(RouteRoles(routes), request.route.GetOr("")))
  }

  /** Role names match when they are equal after upper-casing both. */
  predicate RoleMatches(role: string, required: string)
  {
    Text.Upper(role) == Text.Upper(required)
  }

  /** Whether `vote` looks at the object at all: a request, or a supported attribute. */
  predicate Considered(subject: Subject, attributes: seq<Value>)
  {
    subject.RequestSubject? || SupportsAnyAttribute(attributes)
  }

  /** `vote`; a failure of `getRequiredRole` propagates. */
  function VoteOn(user: User, subject: Subject, attributes: seq<Value>, current: Option<Request>, routes: seq<Route>): (v: Result<Vote, Thrown>)
    ensures !Considered(subject, attributes) ==> v == Ok(Abstain)
    ensures Considered(subject, attributes) ==>
      && (v.Err? <==> RequiredRole(subject, current, routes).Err?)
      && (v == Ok(Abstain) <==> RequiredRole(subject, current, routes) == Ok(None))
    ensures v.Err? ==> v.error == NullRequest
    ensures v == Ok(Denied) && user.InfoUser? ==>
      forall i | 0 <= i < |user.roles| :: !RoleMatches(user.roles[i], RequiredRole(subject, current, routes).value.value)
    ensures v == Ok(Granted) <==>
      && Considered(subject, attributes)
      && RequiredRole(subject, current, routes).Ok?
      && RequiredRole(subject, current, routes).value.Some?
      && user.InfoUser?
      && exists i | 0 <= i < |user.roles| :: RoleMatches(user.roles[i], RequiredRole(subject, current, routes).value.value)
  {
    if !Considered(subject, attributes) then Ok(Abstain)
    else match RequiredRole(subject, current, routes)
      case Err(e) => Err(e)
      case Ok(None) => Ok(Abstain)
      case Ok(Some(required)) =>
        if !user.InfoUser? then Ok(Denied)
        else if exists i | 0 <= i < |user.roles| :: RoleMatches(user.roles[i], required) then Ok(Granted)
        else Ok(Denied)
  }

  /** A request whose route requires a role is granted to a user holding it in any letter case, and denied to anyone else. */
  lemma VoteOnProtectedRoute(roles: seq<string>, request: Request, current: Option<Request>, routes: seq<Route>, i: int)
    requires UniqueNames(routes) && 0 <= i < |routes|
    requires routes[i].requiredRole.Some? && TruthyString(routes[i].requiredRole.value)
    requires request.route == Some(routes[i].name)
    ensures VoteOn(InfoUser(roles), RequestSubject(request), [], current, routes) == Ok(Granted) <==>
      exists j | 0 <= j < |roles| :: RoleMatches(roles[j], routes[i].requiredRole.value)
    ensures VoteOn(OtherUser, RequestSubject(request), [], current, routes) == Ok(Denied)
  {
  }

  /** Asked about a non-request outside of any request, the voter fails instead of voting. */
  lemma VoteWithoutRequestFails(user: User, attributes: seq<Value>, routes: seq<Route>)
    requires SupportsAnyAttribute(attributes)
    ensures VoteOn(user, OtherSubject, attributes, None, routes) == Err(NullRequest)
  {
  }

  /** The path of the compiled route-role cache under a cache directory. */
  function CacheFile(cacheDir: string): (p: string)
    ensures Text.StartsWith(p, cacheDir + "/")
    ensures Text.Basename(p, "") == "tenside_roles.php"
  {
    Text.BasenameOfJoin(cacheDir, "tenside_roles.php", "");
    cacheDir + "/" + "tenside_roles.php"
  }

  /**
   * `warmUp`: the options after the warm-up and the cache file it wrote.
   * The option 'cache_dir' is restored to what it was read as before; an
   * unset option is read as null and so ends up set to null.
   */
  function WarmUp(options: Dict.Dict<string, Value>, cacheDir: string): (r: (Dict.Dict<string, Value>, string))
    ensures Dict.Get(r.0, "cache_dir") == Some(Dict.Get(options, "cache_dir").GetOr(Null))
    ensures forall k | k != "cache_dir" :: Dict.Get(r.0, k) == Dict.Get(options, k)
    ensures Dict.HasKey(options, "cache_dir") ==> r.0 == options
    ensures r.1 == CacheFile(cacheDir)
  {
    var current := Dict.Get(options, "cache_dir").GetOr(Null);
    var during := Dict.Set(options, "cache_dir", Str(cacheDir));
    var written := CacheFile(cacheDir);
    var after := Dict.Set(during, "cache_dir", current);
    WarmUpRestores(options, cacheDir);
    (after, written)
  }

  /** Setting an existing key back to the value it had leaves the options unchanged. */
  lemma WarmUpRestores(options: Dict.Dict<string, Value>, cacheDir: string)
    ensures Dict.HasKey(options, "cache_dir") ==>
      Dict.Set(Dict.Set(options, "cache_dir", Str(cacheDir)), "cache_dir", Dict.Get(options, "cache_dir").value) == options
  {
    if Dict.HasKey(options, "cache_dir") {
      SetBack(options, "cache_dir", Str(cacheDir));
    }
  }

  lemma {:induction false} SetBack(d: Dict.Dict<string, Value>, k: string, v: Value)
    requires Dict.HasKey(d, k)
    ensures Dict.Set(Dict.Set(d, k, v), k, Dict.Get(d, k).value) == d
  {
    assert Dict.Keys(d) == [d[0].0] + Dict.Keys(d[1..]);
    if d[0].0 != k {
      SetBack(d[1..], k, v);
      assert Dict.Set(d, k, v)[1..] == Dict.Set(d[1..], k, v);
    }
  }
}
