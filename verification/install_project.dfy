/**
 * The install-time controller: configuring tenside (secret, interpreter
 * settings, the first user), queueing the project installation, the gates
 * that close once the installation is complete, and the version listing
 * built from packagist's package description.
 *
 * The installation status, the home directory, the random bytes, the
 * password encoder, the token issuer, the task queue, the url generator and
 * the fetched packagist document are inputs.
 */
module InstallProject {
  import opened Wrappers
  import opened Php
  import opened Errors
  import opened JsonArray
  import Dict
  import Text
  import Roles

  /** What `InstallationStatusDeterminator` reports. */
  datatype InstallationStatus = InstallationStatus(
    tensideConfigured: bool,
    projectPresent: bool,
    projectInstalled: bool,
    complete: bool)

  /** The settings of `tenside.json` the controller writes; None when never set. */
  datatype Settings = Settings(
    secret: Option<Value>,
    phpCli: Option<Value>,
    phpCliArguments: Option<Value>,
    phpCliEnvironment: Option<Value>,
    forceToBackground: Option<Value>,
    forkingAvailable: Option<Value>)

  /**
   * The settings of an `install` task: the destination directory, the
   * package and, when one was asked for, the version.
   */
  datatype TaskData = TaskData(destinationDir: string, packageName: Value, version: Option<Value>)

  /** A `TaskList::queue($type, $data)` call. */
  datatype QueueCall = QueueCall(taskType: string, data: TaskData)

  datatype Reply =
    | TokenReply(httpStatus: int, status: string, token: string)
    | TaskReply(httpStatus: int, status: string, task: string, headers: seq<(string, string)>)
    | VersionsReply(httpStatus: int, status: string, versions: seq<VersionRow>)
    | StateReply(httpStatus: int, status: string, tensideConfigured: bool, projectCreated: bool, projectInstalled: bool)

  /** One entry of the version listing; `reference` is omitted when None. */
  datatype VersionRow = VersionRow(name: Value, version: Value, versionNormalized: Value, reference: Option<Value>)

  /** The values of a `UserInformation`: its name, its role bits and its encoded password. */
  datatype UserRecord = UserRecord(username: Value, acl: int, password: string)

  datatype ConfigureOutcome = ConfigureOutcome(result: Result<Reply, Thrown>, settings: Settings, users: seq<UserRecord>)

  datatype ProjectOutcome = ProjectOutcome(result: Result<Reply, Thrown>, queued: Option<QueueCall>)

  // ----- bin2hex -----

  newtype Byte = x: int | 0 <= x < 256

  function HexDigit(n: nat): (c: char)
    requires n < 16
    ensures Text.IsLowerHex(c)
  {
    if n < 10 then ('0' as int + n) as char else ('a' as int + n - 10) as char
  }

  function HexValue(c: char): (n: nat)
    requires Text.IsLowerHex(c)
    ensures n < 16 && HexDigit(n) == c
  {
    if c <= '9' then c as int - '0' as int else c as int - 'a' as int + 10
  }

  /** `bin2hex`: two lower-case hex digits per byte, high nibble first. */
  function BinToHex(bytes: seq<Byte>): (r: string)
    ensures |r| == 2 * |bytes|
    ensures forall i | 0 <= i < |r| :: Text.IsLowerHex(r[i])
  {
    if |bytes| == 0 then ""
    else [HexDigit(bytes[0] as int / 16), HexDigit(bytes[0] as int % 16)] + BinToHex(bytes[1..])
  }

  predicate IsHexString(s: string)
  {
    |s| % 2 == 0 && forall i | 0 <= i < |s| :: Text.IsLowerHex(s[i])
  }

  /** `hex2bin` on lower-case input, the inverse of `bin2hex`. */
  function HexToBin(s: string): (r: seq<Byte>)
    requires IsHexString(s)
    ensures 2 * |r| == |s|
  {
    if |s| == 0 then []
    else
      assert IsHexString(s[2..]) by {
        assert forall i | 0 <= i < |s| - 2 :: s[2..][i] == s[i + 2];
      }
      [(HexValue(s[0]) * 16 + HexValue(s[1])) as Byte] + HexToBin(s[2..])
  }

  /** The two hex digits of a byte read back as that byte. */
  lemma ByteDigits(b: Byte)
    ensures (HexValue(HexDigit(b as int / 16)) * 16 + HexValue(HexDigit(b as int % 16))) as Byte == b
  {
    assert HexValue(HexDigit(b as int / 16)) == b as int / 16;
    assert HexValue(HexDigit(b as int % 16)) == b as int % 16;
  }

  /** `hex2bin` reads the first two digits as one byte and goes on with the rest. */
  lemma HexToBinCons(x: char, y: char, rest: string)
    requires Text.IsLowerHex(x) && Text.IsLowerHex(y) && IsHexString(rest)
    ensures IsHexString([x, y] + rest)
    ensures HexToBin([x, y] + rest) == [(HexValue(x) * 16 + HexValue(y)) as Byte] + HexToBin(rest)
  {
    var s := [x, y] + rest;
    assert s[2..] == rest;
    assert forall i | 2 <= i < |s| :: s[i] == rest[i - 2];
  }

  /** `bin2hex` loses nothing: `hex2bin` gives the bytes back. */
  lemma {:induction false} HexRoundTrip(bytes: seq<Byte>)
    ensures IsHexString(BinToHex(bytes))
    ensures HexToBin(BinToHex(bytes)) == bytes
  {
    if |bytes| > 0 {
      var b := bytes[0];
      var x, y := HexDigit(b as int / 16), HexDigit(b as int % 16);
      var rest := BinToHex(bytes[1..]);
      assert BinToHex(bytes) == [x, y] + rest;
      HexRoundTrip(bytes[1..]);
      HexToBinCons(x, y, rest);
      ByteDigits(b);
      assert HexToBin(BinToHex(bytes)) == [b] + bytes[1..];
      assert [b] + bytes[1..] == bytes;
    }
  }

  // ----- gates -----

  /** `checkUninstalled`: refuse once the installation is complete. */
  function CheckUninstalled(status: InstallationStatus, home: string): (r: Option<Thrown>)
    ensures r.None? <==> !status.complete
    ensures r.Some? ==> r.value == NotAcceptableError("Already installed in " + home)
  {
    if status.complete then Some(NotAcceptableError("Already installed in " + home)) else None
  }

  /**
   * `getSelfTestAction` and `getAutoConfigAction`: the forwarded response,
   * reachable only while the installation is not complete.
   */
  function Gateway<T>(status: InstallationStatus, home: string, forwarded: T): (r: Result<T, Thrown>)
    ensures r.Ok? <==> !status.complete
    ensures r.Ok? ==> r.value == forwarded
    ensures r.Err? ==> r.error.cls == Http(NotAcceptable, [])
  {
    match CheckUninstalled(status, home)
    case Some(e) => Err(e)
    case None => Ok(forwarded)
  }

  /** `getInstallationStateAction`: the three flags of the status, always with status OK. */
  function InstallationStateAction(status: InstallationStatus): (r: Reply)
    ensures r.StateReply? && r.httpStatus == 200 && r.status == "OK"
    ensures r.tensideConfigured == status.tensideConfigured
    ensures r.projectCreated == status.projectPresent
    ensures r.projectInstalled == status.projectInstalled
  {
    StateReply(200, "OK", status.tensideConfigured, status.projectPresent, status.projectInstalled)
  }

  // ----- configureAction -----

  /** One `if (isset($configuration[$key])) { setter($configuration[$key]); }` step. */
  function Absorb(configuration: Value, key: string, current: Option<Value>): (r: Option<Value>)
    ensures IsSet(Index(configuration, key)) ==> r == Some(Index(configuration, key))
    ensures !IsSet(Index(configuration, key)) ==> r == current
  {
    if IsSet(Index(configuration, key)) then Some(Index(configuration, key)) else current
  }

  /** `handleConfiguration`: copy each of the five settings that is set, and nothing else. */
  function HandleConfiguration(configuration: Value, s: Settings): (r: Settings)
    ensures r.secret == s.secret
    ensures r.phpCli == Absorb(configuration, "php_cli", s.phpCli)
    ensures r.phpCliArguments == Absorb(configuration, "php_cli_arguments", s.phpCliArguments)
    ensures r.phpCliEnvironment == Absorb(configuration, "php_cli_environment", s.phpCliEnvironment)
    ensures r.forceToBackground == Absorb(configuration, "php_force_background", s.forceToBackground)
    ensures r.forkingAvailable == Absorb(configuration, "php_can_fork", s.forkingAvailable)
  {
    s.(phpCli := Absorb(configuration, "php_cli", s.phpCli),
       phpCliArguments := Absorb(configuration, "php_cli_arguments", s.phpCliArguments),
       phpCliEnvironment := Absorb(configuration, "php_cli_environment", s.phpCliEnvironment),
       forceToBackground := Absorb(configuration, "php_force_background", s.forceToBackground),
       forkingAvailable := Absorb(configuration, "php_can_fork", s.forkingAvailable))
  }

  /** Absorbing the same configuration twice is absorbing it once. */
  lemma HandleConfigurationIdempotent(configuration: Value, s: Settings)
    ensures HandleConfiguration(configuration, HandleConfiguration(configuration, s))
         == HandleConfiguration(configuration, s)
  {
  }

  /** A configuration that sets none of the five keys changes nothing. */
  lemma HandleConfigurationOfNothing(configuration: Value, s: Settings)
    requires forall k | k in ["php_cli", "php_cli_arguments", "php_cli_environment", "php_force_background", "php_can_fork"]
      :: !IsSet(Index(configuration, k))
    ensures HandleConfiguration(configuration, s) == s
  {
    assert "php_cli" in ["php_cli", "php_cli_arguments", "php_cli_environment", "php_force_background", "php_can_fork"];
  }

  /** The secret `configureAction` stores: the one submitted, else 80 hex characters from 40 random bytes. */
  function ChosenSecret(input: Value, randomBytes: seq<Byte>): (r: Value)
    ensures Has(input, ["credentials", "secret"]) ==> r == Get(input, ["credentials", "secret"])
    ensures !Has(input, ["credentials", "secret"]) ==>
      r.Str? && |r.s| == 2 * |randomBytes| && IsHexString(r.s) && HexToBin(r.s) == randomBytes
  {
    if Has(input, ["credentials", "secret"]) then Get(input, ["credentials", "secret"])
    else
      HexRoundTrip(randomBytes);
      Str(BinToHex(randomBytes))
  }

  /**
   * `configureAction`: refuse a second configuration; otherwise store the
   * secret, absorb the submitted configuration, add an administrator holding
   * every role and answer 201 with a token for it. `encodePassword` sees
   * the new user's name and the submitted password.
   */
  function ConfigureAction(
    status: InstallationStatus, settings: Settings, users: seq<UserRecord>, input: Value,
    randomBytes: seq<Byte>, encodePassword: (Value, Value) -> string, tokenFor: UserRecord -> string): (r: ConfigureOutcome)
    ensures status.tensideConfigured ==>
      r == ConfigureOutcome(Err(NotAcceptableError("Already configured.")), settings, users)
    ensures r.result.Ok? <==> !status.tensideConfigured
    ensures r.result.Ok? ==>
      && r.settings.secret == Some(ChosenSecret(input, randomBytes))
      && |r.users| == |users| + 1
      && r.users[..|users|] == users
      && r.users[|users|].username == Get(input, ["credentials", "username"])
      && r.users[|users|].acl == Roles.RoleAll as int
      && r.users[|users|].password == encodePassword(Get(input, ["credentials", "username"]), Get(input, ["credentials", "password"]))
      && r.result.value == TokenReply(201, "OK", tokenFor(r.users[|users|]))
    ensures r.result.Ok? && !Has(input, ["configuration"]) ==>
      r.settings == settings.(secret := Some(ChosenSecret(input, randomBytes)))
    ensures r.result.Ok? && Has(input, ["configuration"]) ==>
      r.settings == HandleConfiguration(Get(input, ["configuration"]), settings.(secret := Some(ChosenSecret(input, randomBytes))))
  {
    if status.tensideConfigured then
      ConfigureOutcome(Err(NotAcceptableError("Already configured.")), settings, users)
    else
      var withSecret := settings.(secret := Some(ChosenSecret(input, randomBytes)));
      var configured :=
        if Has(input, ["configuration"]) then HandleConfiguration(Get(input, ["configuration"]), withSecret)
        else withSecret;
      var username := Get(input, ["credentials", "username"]);
      var user := UserRecord(username, Roles.RoleAll as int, encodePassword(username, Get(input, ["credentials", "password"])));
      ConfigureOutcome(Ok(TokenReply(201, "OK", tokenFor(user))), configured, users + [user])
  }

  /** Every role bit is granted to the administrator `configureAction` creates. */
  lemma AdministratorHoldsEveryRole(
    status: InstallationStatus, settings: Settings, users: seq<UserRecord>, input: Value,
    randomBytes: seq<Byte>, encodePassword: (Value, Value) -> string, tokenFor: UserRecord -> string, role: Roles.Role)
    requires !status.tensideConfigured
    ensures var r := ConfigureAction(status, settings, users, input, randomBytes, encodePassword, tokenFor);
      && |r.users| == |users| + 1
      && r.users[|users|].acl == Roles.RoleAll as int
      && role in Roles.RolesIn(Roles.RoleAll)
  {
    Roles.AllHoldsEveryRole(role);
  }

  /** Without a submitted secret and with 40 random bytes, the stored secret is 80 lower-case hex characters. */
  lemma GeneratedSecretShape(input: Value, randomBytes: seq<Byte>)
    requires !Has(input, ["credentials", "secret"]) && |randomBytes| == 40
    ensures ChosenSecret(input, randomBytes).Str?
    ensures |ChosenSecret(input, randomBytes).s| == 80
    ensures forall i | 0 <= i < 80 :: Text.IsLowerHex(ChosenSecret(input, randomBytes).s[i])
  {
  }

  // ----- createProjectAction -----

  /** The settings of the `install` task for the submitted project. */
  function InstallTaskData(home: string, input: Value): (r: TaskData)
    ensures r.destinationDir == home
    ensures r.packageName == Get(input, ["project", "name"])
    ensures r.version.Some? <==> Truthy(Get(input, ["project", "version"]))
    ensures r.version.Some? ==> r.version.value == Get(input, ["project", "version"])
  {
    var version := Get(input, ["project", "version"]);
    TaskData(home, Get(input, ["project", "name"]), if Truthy(version) then Some(version) else None)
  }

  /**
   * `createProjectAction`: only after configuration and before completion,
   * queue one `install` task and answer 201 with its id and its location.
   */
  function CreateProjectAction(
    status: InstallationStatus, home: string, input: Value,
    queue: (string, TaskData) -> string, urlFor: string -> string): (r: ProjectOutcome)
    ensures !status.tensideConfigured ==>
      r == ProjectOutcome(Err(NotAcceptableError("Need to configure first.")), None)
    ensures status.tensideConfigured && status.complete ==>
      r == ProjectOutcome(Err(NotAcceptableError("Already installed in " + home)), None)
    ensures r.result.Ok? <==> status.tensideConfigured && !status.complete
    ensures r.queued.Some? <==> r.result.Ok?
    ensures r.result.Ok? ==>
      var call := r.queued.value;
      var id := queue(call.taskType, call.data);
      && call == QueueCall("install", InstallTaskData(home, input))
      && r.result.value == TaskReply(201, "OK", id, [("Location", urlFor(id))])
  {
    if !status.tensideConfigured then
      ProjectOutcome(Err(NotAcceptableError("Need to configure first.")), None)
    else
      match CheckUninstalled(status, home)
      case Some(e) => ProjectOutcome(Err(e), None)
      case None =>
        var data := InstallTaskData(home, input);
        var taskId := queue("install", data);
        ProjectOutcome(Ok(TaskReply(201, "OK", taskId, [("Location", urlFor(taskId))])), Some(QueueCall("install", data)))
  }

  // ----- getProjectVersionsAction -----

  /** The entries of `package/versions`, in order; nothing when that is not an array. */
  function VersionInfos(data: Value): (r: seq<Value>)
    ensures At(data, ["package", "versions"]).Some? && At(data, ["package", "versions"]).value.Arr? ==>
      |r| == |At(data, ["package", "versions"]).value.entries|
  {
    match At(data, ["package", "versions"])
    case Some(Arr(entries)) => seq(|entries|, i requires 0 <= i < |entries| => entries[i].1)
    case _ => []
  }

  /** A `dev-` version with a branch alias: the alias replaces the normalized version. */
  predicate HasBranchAlias(info: Value)
  {
    var version := Index(info, "version");
    && version.Str?
    && Text.StartsWith(version.s, "dev-")
    && IsSet(Index(Index(Index(info, "extra"), "branch-alias"), version.s))
  }

  /** The branch alias recorded for the entry's version (null when none is). */
  function BranchAlias(info: Value): Value
  {
    var version := Index(info, "version");
    Index(Index(Index(info, "extra"), "branch-alias"), if version.Str? then version.s else "")
  }

  /** The reference, from the source when it has one, else from the distribution. */
  function Reference(info: Value): (r: Option<Value>)
    ensures r.Some? <==> IsSet(Index(Index(info, "source"), "reference")) || IsSet(Index(Index(info, "dist"), "reference"))
    ensures IsSet(Index(Index(info, "source"), "reference")) ==> r == Some(Index(Index(info, "source"), "reference"))
    ensures !IsSet(Index(Index(info, "source"), "reference")) && r.Some? ==> r == Some(Index(Index(info, "dist"), "reference"))
  {
    if IsSet(Index(Index(info, "source"), "reference")) then Some(Index(Index(info, "source"), "reference"))
    else if IsSet(Index(Index(info, "dist"), "reference")) then Some(Index(Index(info, "dist"), "reference"))
    else None
  }

  /** One entry of the version listing. */
  function VersionEntry(info: Value): (r: VersionRow)
    ensures r.name == Index(info, "name") && r.version == Index(info, "version")
    ensures !HasBranchAlias(info) ==> r.versionNormalized == Index(info, "version_normalized")
    ensures HasBranchAlias(info) ==> r.versionNormalized == BranchAlias(info)
    ensures r.reference == Reference(info)
  {
    var normalized := if HasBranchAlias(info) then BranchAlias(info) else Index(info, "version_normalized");
    VersionRow(Index(info, "name"), Index(info, "version"), normalized, Reference(info))
  }

  /** `getProjectVersionsAction`: one entry per upstream version, in order, while not installed. */
  function ProjectVersionsAction(status: InstallationStatus, home: string, data: Value): (r: Result<Reply, Thrown>)
    ensures r.Err? <==> status.complete
    ensures r.Err? ==> r.error == NotAcceptableError("Already installed in " + home)
    ensures r.Ok? ==>
      && r.value.VersionsReply? && r.value.httpStatus == 200 && r.value.status == "OK"
      && |r.value.versions| == |VersionInfos(data)|
      && forall i | 0 <= i < |VersionInfos(data)| :: r.value.versions[i] == VersionEntry(VersionInfos(data)[i])
  {
    match CheckUninstalled(status, home)
    case Some(e) => Err(e)
    case None =>
      var infos := VersionInfos(data);
      Ok(VersionsReply(200, "OK", seq(|infos|, i requires 0 <= i < |infos| => VersionEntry(infos[i]))))
  }

  /** A version that is not a `dev-` branch keeps its upstream normalized version. */
  lemma ReleaseKeepsNormalized(info: Value)
    requires Index(info, "version").Str? && !Text.StartsWith(Index(info, "version").s, "dev-")
    ensures VersionEntry(info).versionNormalized == Index(info, "version_normalized")
  {
  }
}
