/**
 * The package controller: listing the installed packages, showing one
 * package, and locking or unlocking a package at its version. Composer's
 * local repository lookup and the package converter are inputs.
 */
module PackageController {
  import opened Wrappers
  import opened Php
  import opened Errors
  import JsonArray
  import Dict

  /** A package of the local repository; an alias stands in for another package under a second version. */
  datatype Package = Package(name: string, version: string, isAlias: bool)

  // ----- findPackage -----

  /** The first package of `ps` that is not an alias. */
  function FirstReal(ps: seq<Package>): (r: Option<Package>)
    ensures r.None? <==> forall p | p in ps :: p.isAlias
    ensures r.Some? ==> r.value in ps && !r.value.isAlias
  {
    if |ps| == 0 then None
    else if ps[0].isAlias then FirstReal(ps[1..])
    else Some(ps[0])
  }

  /**
   * `findPackage`: drop leading aliases from the packages found under the
   * name and answer the first remaining one, or null when none remains.
   */
  method FindPackage(found: seq<Package>) returns (r: Option<Package>)
    ensures r.None? <==> forall p | p in found :: p.isAlias
    ensures r.Some? ==> exists k | 0 <= k < |found| ::
      && r.value == found[k] && !found[k].isAlias
      && forall j | 0 <= j < k :: found[j].isAlias
  {
    var i := 0;
    while i < |found| && found[i].isAlias
      invariant 0 <= i <= |found|
      invariant forall j | 0 <= j < i :: found[j].isAlias
    {
      i := i + 1;
    }
    if i == |found| {
      return None;
    }
    return Some(found[i]);
  }

  /** `findPackage` and the recursive definition of the first real package agree. */
  lemma {:induction false} FindPackageIsFirstReal(found: seq<Package>, k: nat)
    requires k < |found| && !found[k].isAlias
    requires forall j | 0 <= j < k :: found[j].isAlias
    ensures FirstReal(found) == Some(found[k])
  {
    if k > 0 {
      FindPackageIsFirstReal(found[1..], k - 1);
    }
  }

  // ----- getPackageAction -----

  datatype Reply =
    | PackageJson(httpStatus: int, body: Value)
    | ListJson(httpStatus: int, packages: seq<(string, Dict.Dict<Key, Value>)>)

  /** `getPackageAction`: the converted package, or 404 when no real package carries the name. */
  function GetPackageAction(
    vendor: string, package: string, findPackages: string -> seq<Package>,
    convert: Package -> Value): (r: Result<Reply, Thrown>)
    ensures var name := vendor + "/" + package;
      && (r.Err? <==> FirstReal(findPackages(name)).None?)
      && (r.Err? ==> r.error == NotFoundError("Package " + name + " not found."))
      && (r.Ok? ==> r.value == PackageJson(200, convert(FirstReal(findPackages(name)).value)))
  {
    var name := vendor + "/" + package;
    match FirstReal(findPackages(name))
    case Some(p) => Ok(PackageJson(200, convert(p)))
    case None => Err(NotFoundError("Package " + name + " not found."))
  }

  // ----- putPackageAction -----

  /** PHP's rendering of a value inside a string; arrays render as "Array", objects by class name. */
  function Rendered(v: Value): string
  {
    match v
    case Null => ""
    case Bool(b) => if b then "1" else ""
    case Int(i) => IntToString(i)
    case Str(s) => s
    case Arr(_) => "Array"
    case Object(c, _) => c
  }

  /** The outcome of `putPackageAction`: the lock it set, if any, and the forwarded answer. */
  datatype PutOutcome = PutOutcome(result: Result<Result<Reply, Thrown>, Thrown>, lock: Option<(Package, Value)>)

  /**
   * `putPackageAction`: demand name, locked and constraint; demand the name
   * of the url; find the package; lock it at the submitted value and answer
   * whatever the forward to `getPackage` answers. The forward passes no
   * route arguments, and what the framework makes of that sub-request is
   * not part of this model: its answer is the input `forwarded`. Every
   * refusal happens before any lock.
   */
  function PutPackageAction(
    vendor: string, package: string, info: Value, findPackages: string -> seq<Package>,
    forwarded: Result<Reply, Thrown>): (r: PutOutcome)
    ensures var packageName := vendor + "/" + package;
      && (!(JsonArray.Has(info, ["name"]) && JsonArray.Has(info, ["locked"]) && JsonArray.Has(info, ["constraint"])) ==>
            r == PutOutcome(Err(NotAcceptableError("Invalid package information.")), None))
      && (JsonArray.Has(info, ["name"]) && JsonArray.Has(info, ["locked"]) && JsonArray.Has(info, ["constraint"])
          && JsonArray.Get(info, ["name"]) != Str(packageName) ==>
            r == PutOutcome(Err(NotAcceptableError("Package name mismatch " + packageName + " vs. "
              + Rendered(JsonArray.Get(info, ["name"])) + ".")), None))
      && (r.lock.Some? <==> r.result.Ok?)
      && (r.result.Ok? <==>
            && JsonArray.Has(info, ["name"]) && JsonArray.Has(info, ["locked"]) && JsonArray.Has(info, ["constraint"])
            && JsonArray.Get(info, ["name"]) == Str(packageName)
            && FirstReal(findPackages(packageName)).Some?)
      && (r.result.Ok? ==>
            && r.lock.value == (FirstReal(findPackages(packageName)).value, JsonArray.Get(info, ["locked"]))
            && r.result.value == forwarded)
      && (r.result.Err? && JsonArray.Get(info, ["name"]) == Str(packageName) ==>
            r.result.error == NotFoundError("Package " + packageName + " not found.")
            || r.result.error == NotAcceptableError("Invalid package information."))
  {
    var packageName := vendor + "/" + package;
    var name := JsonArray.Get(info, ["name"]);
    if !(JsonArray.Has(info, ["name"]) && JsonArray.Has(info, ["locked"]) && JsonArray.Has(info, ["constraint"])) then
      PutOutcome(Err(NotAcceptableError("Invalid package information.")), None)
    else if name != Str(packageName) then
      PutOutcome(Err(NotAcceptableError("Package name mismatch " + packageName + " vs. " + Rendered(name) + ".")), None)
    else
      match FirstReal(findPackages(packageName))
      case None => PutOutcome(Err(NotFoundError("Package " + packageName + " not found.")), None)
      case Some(p) => PutOutcome(Ok(forwarded), Some((p, JsonArray.Get(info, ["locked"]))))
  }

  /**
   * The package locked is a real package installed under the name of the
   * path, which the payload names too, and the lock does not depend on what
   * the forward answers.
   */
  lemma PutLocksNamedPackage(
    vendor: string, package: string, info: Value, findPackages: string -> seq<Package>,
    forwarded: Result<Reply, Thrown>, other: Result<Reply, Thrown>)
    requires PutPackageAction(vendor, package, info, findPackages, forwarded).result.Ok?
    ensures var r := PutPackageAction(vendor, package, info, findPackages, forwarded);
      && JsonArray.Get(info, ["name"]) == Str(vendor + "/" + package)
      && r.lock.value.0 in findPackages(vendor + "/" + package) && !r.lock.value.0.isAlias
      && r.lock.value.1 == JsonArray.Get(info, ["locked"])
      && PutPackageAction(vendor, package, info, findPackages, other).lock == r.lock
      && PutPackageAction(vendor, package, info, findPackages, other).result == Ok(other)
  {
  }

  // ----- packageListAction -----

  /** One listing entry with `installed` set to its `version` (null when it has none). */
  function MarkInstalled(entry: Dict.Dict<Key, Value>): (r: Dict.Dict<Key, Value>)
    ensures Dict.Get(r, StrKey("installed")) == Some(Dict.Get(entry, StrKey("version")).GetOr(Null))
    ensures forall k | k != StrKey("installed") :: Dict.Get(r, k) == Dict.Get(entry, k)
  {
    Dict.Set(entry, StrKey("installed"), Dict.Get(entry, StrKey("version")).GetOr(Null))
  }

  /** Marking an entry a second time changes nothing further. */
  lemma MarkInstalledIdempotent(entry: Dict.Dict<Key, Value>, k: Key)
    ensures Dict.Get(MarkInstalled(MarkInstalled(entry)), k) == Dict.Get(MarkInstalled(entry), k)
  {
  }

  /**
   * `packageListAction`: the converted repository (`onlyRequired` unless the
   * query names `all`), every entry with `installed` copied from `version`.
   */
  function PackageListAction(queryHasAll: bool, convert: bool -> seq<(string, Dict.Dict<Key, Value>)>): (r: Reply)
    ensures r.ListJson? && r.httpStatus == 200
    ensures |r.packages| == |convert(!queryHasAll)|
    ensures forall i | 0 <= i < |r.packages| ::
      && r.packages[i].0 == convert(!queryHasAll)[i].0
      && Dict.Get(r.packages[i].1, StrKey("installed")) == Some(Dict.Get(convert(!queryHasAll)[i].1, StrKey("version")).GetOr(Null))
      && forall k | k != StrKey("installed") :: Dict.Get(r.packages[i].1, k) == Dict.Get(convert(!queryHasAll)[i].1, k)
  {
    var packages := convert(!queryHasAll);
    ListJson(200, seq(|packages|, i requires 0 <= i < |packages| => (packages[i].0, MarkInstalled(packages[i].1))))
  }
}
