/**
 * The decisions of the `self-update` command: which version to fetch,
 * whether a version is a commit id, where the phar is downloaded from, the
 * name of the backup of the running phar, the most recent backup, and which
 * exceptions of the phar replacement are reported instead of rethrown.
 *
 * The file system (writability, the directory listing, download, copy,
 * rename), the remote version file, the container parameters, `Tenside::VERSION`
 * and `Tenside::RELEASE_DATE` are inputs.
 */
module SelfUpdate {
  import opened Wrappers
  import opened Php
  import opened Errors
  import Text

  const OldInstallExt: string := "-old.phar"

  // ----- commit ids -----

  predicate AllLowerHex(s: string)
  {
    forall i | 0 <= i < |s| :: Text.IsLowerHex(s[i])
  }

  /**
   * `preg_match('{^[0-9a-f]{40}$}', $v)` as PCRE evaluates it: without the
   * D modifier `$` also matches just before a final newline, so 40 hex
   * digits followed by "\n" match too.
   */
  predicate IsCommitIdAsWritten(v: string)
  {
    || (|v| == 40 && AllLowerHex(v))
    || (|v| == 41 && v[40] == '\n' && AllLowerHex(v[..40]))
  }

  /** A commit id: exactly 40 lower-case hex digits. */
  predicate IsCommitId(v: string)
  {
    |v| == 40 && AllLowerHex(v)
  }

  /** The pattern as written accepts a value that is not a commit id. */
  lemma CommitIdPatternAcceptsNewline()
    ensures var v := seq(40, i => 'a') + "\n";
      IsCommitIdAsWritten(v) && !IsCommitId(v)
  {
    var v := seq(40, i => 'a') + "\n";
    assert v[..40] == seq(40, i => 'a');
  }

  /** Apart from that final newline, the two tests agree. */
  lemma CommitIdAgreement(v: string)
    ensures IsCommitId(v) ==> IsCommitIdAsWritten(v)
    ensures IsCommitIdAsWritten(v) && !IsCommitId(v) <==> |v| == 41 && v[40] == '\n' && AllLowerHex(v[..40])
  {
  }

  // ----- remote file -----

  /**
   * `getBaseUrl`: the configured base url, prefixed with a scheme when it
   * has none, computed once and then served from `cached`.
   */
  function BaseUrl(cached: Option<string>, configured: string, openssl: bool): (r: (string, Option<string>))
    ensures r.1 == Some(r.0)
    ensures cached.Some? ==> r.0 == cached.value
    ensures cached.None? && Text.Contains(configured, "://") ==> r.0 == configured
    ensures cached.None? && !Text.Contains(configured, "://") ==>
      r.0 == (if openssl then "https" else "http") + "://" + configured
  {
    if cached.Some? then (cached.value, cached)
    else
      var url := if Text.Contains(configured, "://") then configured
                 else (if openssl then "https" else "http") + "://" + configured;
      (url, Some(url))
  }

  /** Once computed, the base url no longer depends on the configuration or on openssl. */
  lemma BaseUrlIsStable(cached: Option<string>, configured: string, openssl: bool, configured': string, openssl': bool)
    ensures var first := BaseUrl(cached, configured, openssl);
      BaseUrl(first.1, configured', openssl') == first
  {
  }

  /** A base url computed from scratch always names a scheme. */
  lemma BaseUrlHasScheme(configured: string, openssl: bool)
    ensures Text.Contains(BaseUrl(None, configured, openssl).0, "://")
  {
    var url := BaseUrl(None, configured, openssl).0;
    if !Text.Contains(configured, "://") {
      var scheme := if openssl then "https" else "http";
      assert url == scheme + "://" + configured;
      assert "://" <= url[|scheme|..];
    }
  }

  /**
   * `determineRemoteFilename`: what the commit-id pattern accepts lives at
   * the root, releases under `download/<version>/`.
   */
  function RemoteFilename(base: string, phar: string, version: string): (r: string)
    ensures IsCommitIdAsWritten(version) ==> r == base + "/" + phar
    ensures !IsCommitIdAsWritten(version) ==> r == base + "/download/" + version + "/" + phar
  {
    if IsCommitIdAsWritten(version) then base + "/" + phar
    else base + "/download/" + version + "/" + phar
  }

  /** Distinct release versions are fetched from distinct urls. */
  lemma RemoteFilenameSeparatesReleases(base: string, phar: string, v1: string, v2: string)
    requires !IsCommitIdAsWritten(v1) && !IsCommitIdAsWritten(v2)
    requires RemoteFilename(base, phar, v1) == RemoteFilename(base, phar, v2)
    ensures v1 == v2
  {
    var prefix := base + "/download/";
    var u1 := RemoteFilename(base, phar, v1);
    var u2 := RemoteFilename(base, phar, v2);
    assert u1 == prefix + v1 + ("/" + phar);
    assert u2 == prefix + v2 + ("/" + phar);
    assert |v1| == |v2|;
    assert v1 == u1[|prefix|..|prefix| + |v1|];
    assert v2 == u2[|prefix|..|prefix| + |v2|];
  }

  // ----- the version to install -----

  /** `$input->getArgument('version') ?: $latestVersion`. */
  function TargetVersion(argument: Option<string>, latest: string): (r: string)
    ensures argument.Some? && TruthyString(argument.value) ==> r == argument.value
    ensures argument.None? || !TruthyString(argument.value) ==> r == latest
  {
    if argument.Some? && TruthyString(argument.value) then argument.value else latest
  }

  datatype Decision = Stop(exitCode: int) | Fetch(version: string)

  /**
   * The checks before any download: what the commit-id pattern accepts,
   * other than the latest version, cannot be fetched (exit 1); the running
   * version needs no update (exit 0).
   */
  function Decide(argument: Option<string>, latest: string, running: string): (r: Decision)
    ensures var target := TargetVersion(argument, latest);
      && (IsCommitIdAsWritten(target) && target != latest ==> r == Stop(1))
      && (!(IsCommitIdAsWritten(target) && target != latest) && target == running ==> r == Stop(0))
      && (r.Fetch? <==> !(IsCommitIdAsWritten(target) && target != latest) && target != running)
      && (r.Fetch? ==> r.version == target)
  {
    var target := TargetVersion(argument, latest);
    if IsCommitIdAsWritten(target) && target != latest then Stop(1)
    else if running == target then Stop(0)
    else Fetch(target)
  }

  /** A commit id followed by a newline is refused like a commit id, since the pattern accepts it. */
  lemma DecideRefusesNewlineCommitId(latest: string, running: string)
    requires latest != seq(40, i => 'a') + "\n"
    ensures Decide(Some(seq(40, i => 'a') + "\n"), latest, running) == Stop(1)
  {
    CommitIdPatternAcceptsNewline();
  }

  /** Without an argument the command fetches the latest version unless it is already running. */
  lemma DefaultFetchesLatest(latest: string, running: string)
    requires latest != running
    ensures Decide(None, latest, running) == Fetch(latest)
  {
  }

  // ----- backup name -----

  /** `strtr($date, ' :', '_-')`: blanks become '_' and colons '-'. */
  function DateStamp(date: string): (r: string)
    ensures |r| == |date|
    ensures forall i | 0 <= i < |date| ::
      r[i] == (if date[i] == ' ' then '_' else if date[i] == ':' then '-' else date[i])
  {
    seq(|date|, i requires 0 <= i < |date| =>
      if date[i] == ' ' then '_' else if date[i] == ':' then '-' else date[i])
  }

  /** A stamp is free of blanks and colons. */
  lemma DateStampIsPlain(date: string)
    ensures ' ' !in DateStamp(date) && ':' !in DateStamp(date)
  {
    var r := DateStamp(date);
    forall i | 0 <= i < |r|
      ensures r[i] != ' ' && r[i] != ':'
    {
    }
  }

  /**
   * `preg_replace('{^([0-9a-f]{7})[0-9a-f]{33}$}', '$1', $v)` as PCRE evaluates
   * it: a commit id is cut to its first seven digits, any other version is
   * kept, and for `<40 hex digits>\n` the match stops before the newline,
   * which therefore survives.
   */
  function ShortVersion(v: string): (r: string)
    ensures IsCommitId(v) ==> |r| == 7 && r <= v
    ensures !IsCommitIdAsWritten(v) ==> r == v
    ensures IsCommitIdAsWritten(v) && !IsCommitId(v) ==> r == v[..7] + "\n"
  {
    if IsCommitIdAsWritten(v) then v[..7] + v[40..] else v
  }

  /** Read with the intended commit-id test, the short form agrees with the written one except on that final newline. */
  lemma ShortVersionAgreement(v: string)
    ensures !(IsCommitIdAsWritten(v) && !IsCommitId(v)) ==>
      ShortVersion(v) == (if IsCommitId(v) then v[..7] else v)
  {
    if IsCommitId(v) {
      assert v[40..] == [];
    }
  }

  /** The pattern as written keeps the newline of `<40 hex digits>\n` in the short form. */
  lemma ShortVersionKeepsNewline()
    ensures var v := seq(40, i => 'a') + "\n";
      ShortVersion(v) == seq(7, i => 'a') + "\n"
  {
    var v := seq(40, i => 'a') + "\n";
    assert v[..40] == seq(40, i => 'a');
    assert v[..7] == seq(7, i => 'a');
    assert v[40..] == "\n";
  }

  /** The file name of the backup, without its directory. */
  function BackupName(releaseDate: string, running: string): (r: string)
    ensures Text.EndsWith(r, OldInstallExt) && |r| > |OldInstallExt|
    ensures r[..|r| - |OldInstallExt|] == DateStamp(releaseDate) + "-" + ShortVersion(running)
  {
    var stem := DateStamp(releaseDate) + "-" + ShortVersion(running);
    var r := stem + OldInstallExt;
    assert r[..|r| - |OldInstallExt|] == stem;
    assert r[|r| - |OldInstallExt|..] == OldInstallExt;
    r
  }

  /** The backup path: `<rollbackDir>/<release date>-<version>-old.phar`. */
  function BackupFile(rollbackDir: string, releaseDate: string, running: string): (r: string)
    ensures r == rollbackDir + "/" + BackupName(releaseDate, running)
  {
    rollbackDir + "/" + BackupName(releaseDate, running)
  }

  // ----- the most recent backup -----

  /** `strcmp($a, $b) <= 0`: lexicographic order on character codes. */
  predicate NameLeq(a: string, b: string)
    decreases |a|
  {
    |a| == 0 || (|b| > 0 && (a[0] < b[0] || (a[0] == b[0] && NameLeq(a[1..], b[1..]))))
  }

  lemma {:induction false} NameLeqReflexive(a: string)
    ensures NameLeq(a, a)
    decreases |a|
  {
    if |a| > 0 {
      NameLeqReflexive(a[1..]);
    }
  }

  lemma {:induction false} NameLeqTotal(a: string, b: string)
    ensures NameLeq(a, b) || NameLeq(b, a)
    decreases |a|
  {
    if |a| > 0 && |b| > 0 && a[0] == b[0] {
      NameLeqTotal(a[1..], b[1..]);
    }
  }

  lemma {:induction false} NameLeqTransitive(a: string, b: string, c: string)
    requires NameLeq(a, b) && NameLeq(b, c)
    ensures NameLeq(a, c)
    decreases |a|
  {
    if |a| > 0 && a[0] == b[0] && b[0] == c[0] {
      NameLeqTransitive(a[1..], b[1..], c[1..]);
    }
  }

  /** The backups among the files of the rollback directory, in listing order. */
  function Backups(names: seq<string>): (r: seq<string>)
    ensures forall n | n in r :: n in names && Text.EndsWith(n, OldInstallExt)
    ensures forall n | n in names && Text.EndsWith(n, OldInstallExt) :: n in r
  {
    if |names| == 0 then []
    else if Text.EndsWith(names[0], OldInstallExt) then [names[0]] + Backups(names[1..])
    else Backups(names[1..])
  }

  /** The last name once sorted by name. */
  function LastByName(names: seq<string>): (r: string)
    requires |names| > 0
    ensures r in names
    ensures forall n | n in names :: NameLeq(n, r)
  {
    if |names| == 1 then
      NameLeqReflexive(names[0]);
      assert forall n | n in names :: n == names[0];
      names[0]
    else
      var m := LastByName(names[1..]);
      NameLeqTotal(names[0], m);
      if NameLeq(names[0], m) then m
      else
        assert forall n | n in names[1..] :: NameLeq(n, names[0]) by {
          forall n | n in names[1..]
            ensures NameLeq(n, names[0])
          {
            NameLeqTransitive(n, m, names[0]);
          }
        }
        NameLeqReflexive(names[0]);
        assert forall n | n in names :: n == names[0] || n in names[1..];
        names[0]
  }

  /**
   * `getLastBackupVersion`: the most recent backup by name, with the
   * extension stripped, or nothing (`false`) when there is no backup.
   */
  function LastBackupVersion(rollbackDir: string, names: seq<string>): (r: Option<string>)
    ensures r.None? <==> forall n | n in names :: !Text.EndsWith(n, OldInstallExt)
    ensures r.Some? ==> exists n | n in names && Text.EndsWith(n, OldInstallExt) ::
      && r.value == Text.Basename(rollbackDir + "/" + n, OldInstallExt)
      && forall m | m in names && Text.EndsWith(m, OldInstallExt) :: NameLeq(m, n)
  {
    var backups := Backups(names);
    if |backups| == 0 then None
    else
      var last := LastByName(backups);
      Some(Text.Basename(rollbackDir + "/" + last, OldInstallExt))
  }

  /** With the backup written by an update as the only backup, a rollback finds its version stem. */
  lemma LastBackupIsWrittenBackup(rollbackDir: string, others: seq<string>, releaseDate: string, running: string)
    requires forall n | n in others :: !Text.EndsWith(n, OldInstallExt)
    requires '/' !in releaseDate && '/' !in running
    ensures LastBackupVersion(rollbackDir, others + [BackupName(releaseDate, running)])
         == Some(DateStamp(releaseDate) + "-" + ShortVersion(running))
  {
    var name := BackupName(releaseDate, running);
    var names := others + [name];
    var stem := DateStamp(releaseDate) + "-" + ShortVersion(running);
    assert name == stem + OldInstallExt;
    assert '/' !in DateStamp(releaseDate);
    assert '/' !in ShortVersion(running) by {
      if IsCommitIdAsWritten(running) {
        assert forall i | 0 <= i < |ShortVersion(running)| :: ShortVersion(running)[i] in running;
      }
    }
    assert '/' !in name;
    var backups := Backups(names);
    assert forall n | n in backups :: n == name;
    assert name in backups;
    Text.BasenameOfJoin(rollbackDir, name, OldInstallExt);
  }

  // ----- replacing the phar -----

  datatype PharOutcome = PharOutcome(result: Result<Option<Thrown>, Thrown>, removedNew: bool)

  /** The exceptions `setLocalPhar` reports instead of rethrowing. */
  predicate IsReported(e: Thrown)
  {
    e.cls == UnexpectedValue || e.cls == Phar
  }

  /**
   * `setLocalPhar`: `failure` is what the chmod, phar check, backup copy or
   * rename threw, if anything. UnexpectedValue and Phar exceptions are
   * returned, every other one is rethrown; on failure the downloaded file
   * is removed when a backup target was given.
   */
  function SetLocalPhar(backupTarget: Option<string>, failure: Option<Thrown>): (r: PharOutcome)
    ensures failure.None? ==> r == PharOutcome(Ok(None), false)
    ensures failure.Some? && IsReported(failure.value) ==> r.result == Ok(Some(failure.value))
    ensures failure.Some? && !IsReported(failure.value) ==> r.result == Err(failure.value)
    ensures r.removedNew <==> failure.Some? && backupTarget.Some? && TruthyString(backupTarget.value)
  {
    match failure
    case None => PharOutcome(Ok(None), false)
    case Some(e) =>
      var removed := backupTarget.Some? && TruthyString(backupTarget.value);
      if IsReported(e) then PharOutcome(Ok(Some(e)), removed) else PharOutcome(Err(e), removed)
  }

  // ----- execute -----

  /** The parameters and the environment of one run. */
  datatype Setup = Setup(
    localFilename: string,
    localDir: string,
    cacheDir: string,
    rollbackDir: string,
    baseUrl: string,
    pharName: string,
    running: string,
    releaseDate: string)

  /** How a run ends: with an exit code, or handed over to `rollback`, whose own answer is its result. */
  datatype Exit = Code(code: int) | RolledBack

  /** What one run did: its exit or exception, and the download it asked for. */
  datatype Run = Run(result: Result<Exit, Thrown>, download: Option<(string, string)>)

  /** The directory the download goes to: next to the phar when writable, else the cache. */
  function TempDir(s: Setup, writable: string -> bool): string
  {
    if writable(s.localDir) then s.localDir else s.cacheDir
  }

  /**
   * `execute`: check the directories, hand over to rollback when asked,
   * decide on the version, download it and replace the running phar.
   * `downloaded` tells whether the temporary file exists after the copy.
   */
  function Execute(
    s: Setup, writable: string -> bool, rollback: bool, argument: Option<string>, latest: string,
    downloaded: bool, failure: Option<Thrown>): (r: Run)
    ensures !writable(TempDir(s, writable)) ==>
      r == Run(Err(Thrown(Filesystem, "Self update failed: the \"" + TempDir(s, writable)
        + "\" directory used to download the temp file could not be written")), None)
    ensures writable(TempDir(s, writable)) && !writable(s.localFilename) ==>
      r == Run(Err(Thrown(Filesystem, "Self update failed: \"" + s.localFilename + "\" is not writable.")), None)
    ensures r.result == Ok(RolledBack) <==> writable(TempDir(s, writable)) && writable(s.localFilename) && rollback
    ensures r.download.Some? <==>
      && writable(TempDir(s, writable)) && writable(s.localFilename) && !rollback
      && Decide(argument, latest, s.running).Fetch?
    ensures r.download.Some? ==>
      && r.download.value.0 == RemoteFilename(s.baseUrl, s.pharName, Decide(argument, latest, s.running).version)
      && r.download.value.1 == TempDir(s, writable) + "/" + Text.Basename(s.localFilename, ".phar") + "-temp.phar"
    ensures !rollback && writable(TempDir(s, writable)) && writable(s.localFilename) && Decide(argument, latest, s.running).Stop? ==>
      r.result == Ok(Code(Decide(argument, latest, s.running).exitCode))
    ensures r.download.Some? && !downloaded ==> r.result == Ok(Code(1))
    ensures r.download.Some? && downloaded ==>
      match SetLocalPhar(Some(BackupFile(s.rollbackDir, s.releaseDate, s.running)), failure).result
      case Err(e) => r.result == Err(e)
      case Ok(reported) => r.result == Ok(Code(if reported.Some? then 1 else 0))
  {
    var tmpDir := TempDir(s, writable);
    if !writable(tmpDir) then
      Run(Err(Thrown(Filesystem, "Self update failed: the \"" + tmpDir
        + "\" directory used to download the temp file could not be written")), None)
    else if !writable(s.localFilename) then
      Run(Err(Thrown(Filesystem, "Self update failed: \"" + s.localFilename + "\" is not writable.")), None)
    else if rollback then
      Run(Ok(RolledBack), None)
    else
      match Decide(argument, latest, s.running)
      case Stop(code) => Run(Ok(Code(code)), None)
      case Fetch(version) =>
        var tempFilename := tmpDir + "/" + Text.Basename(s.localFilename, ".phar") + "-temp.phar";
        var download := Some((RemoteFilename(s.baseUrl, s.pharName, version), tempFilename));
        if !downloaded then Run(Ok(Code(1)), download)
        else
          match SetLocalPhar(Some(BackupFile(s.rollbackDir, s.releaseDate, s.running)), failure).result
          case Err(e) => Run(Err(e), download)
          case Ok(reported) => Run(Ok(Code(if reported.Some? then 1 else 0)), download)
  }
}
