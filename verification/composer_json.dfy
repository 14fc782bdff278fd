/**
 * `putComposerJsonAction`: validate a submitted composer.json with
 * Composer's ConfigValidator and save it only when it has no error. The
 * validator is an oracle answering (errors, publish errors, warnings) for
 * the temporary file; writing, loading and saving files are effects.
 */
module ComposerJson {
  import opened Wrappers
  import Text

  /** The three lists the validator answers. */
  datatype Validation = Validation(errors: seq<string>, publishErrors: seq<string>, warnings: seq<string>)

  /** The response body: keys `error`, `warning` and `status`. */
  datatype Reply = Reply(error: seq<string>, warning: seq<string>, status: string)

  datatype Outcome = Outcome(reply: Reply, saved: Option<string>)

  /** The file the content is validated in. */
  function TempFile(dataDir: string): string
  {
    dataDir + "/composer.json.tmp"
  }

  /** `str_replace($dir, '', $messages)`: the directory removed from every message. */
  function StripDir(messages: seq<string>, dir: string): (r: seq<string>)
    ensures |r| == |messages|
    ensures forall i | 0 <= i < |messages| :: r[i] == Text.ReplaceAll(messages[i], dir, "")
    ensures forall i | 0 <= i < |messages| :: |r[i]| <= |messages[i]|
  {
    var r := seq(|messages|, i requires 0 <= i < |messages| => Text.ReplaceAll(messages[i], dir, ""));
    assert forall i | 0 <= i < |messages| :: |r[i]| <= |messages[i]| by {
      forall i | 0 <= i < |messages|
        ensures |r[i]| <= |messages[i]|
      {
        Text.RemoveAllShrinks(messages[i], dir);
      }
    }
    r
  }

  /** A message that names a file in the directory loses the directory and keeps the rest. */
  lemma StripDirOfPath(dir: string, rest: string)
    requires |dir| > 0 && !Text.Contains(rest, dir)
    ensures StripDir([dir + rest], dir) == [rest]
  {
    var m := dir + rest;
    assert dir <= m && m[|dir|..] == rest;
    assert Text.ReplaceAll(m, dir, "") == "" + Text.ReplaceAll(rest, dir, "");
    Text.ReplaceAllAbsent(rest, dir, "");
    assert "" + rest == rest;
  }

  /**
   * `checkComposerJson`: the validation errors followed by the publish
   * errors, and the warnings, each with the temporary directory stripped.
   * `dataDir` is the directory of the temporary file.
   */
  function CheckComposerJson(dataDir: string, validate: string -> Validation): (r: (seq<string>, seq<string>))
    ensures var v := validate(TempFile(dataDir));
      && r.0 == StripDir(v.errors + v.publishErrors, dataDir)
      && r.1 == StripDir(v.warnings, dataDir)
      && |r.0| == |v.errors| + |v.publishErrors|
      && |r.1| == |v.warnings|
  {
    var v := validate(TempFile(dataDir));
    (StripDir(v.errors + v.publishErrors, dataDir), StripDir(v.warnings, dataDir))
  }

  /**
   * `putComposerJsonAction`: status ERROR exactly when some error (of either
   * kind) was found, and the content is saved exactly when the status is OK.
   */
  function PutComposerJsonAction(content: string, dataDir: string, validate: string -> Validation): (r: Outcome)
    ensures var v := validate(TempFile(dataDir));
      && (r.reply.status == "ERROR" <==> |v.errors| + |v.publishErrors| > 0)
      && (r.reply.status == "OK" <==> |v.errors| + |v.publishErrors| == 0)
      && (r.saved.Some? <==> r.reply.status == "OK")
      && (r.saved.Some? ==> r.saved.value == content)
      && r.reply.error == CheckComposerJson(dataDir, validate).0
      && r.reply.warning == CheckComposerJson(dataDir, validate).1
  {
    var (errors, warnings) := CheckComposerJson(dataDir, validate);
    if |errors| > 0 then Outcome(Reply(errors, warnings, "ERROR"), None)
    else Outcome(Reply(errors, warnings, "OK"), Some(content))
  }

  /** Warnings never decide the status: only the two error lists do. */
  lemma WarningsDoNotMatter(content: string, dataDir: string, validate: string -> Validation, validate': string -> Validation)
    requires validate(TempFile(dataDir)).errors == validate'(TempFile(dataDir)).errors
    requires validate(TempFile(dataDir)).publishErrors == validate'(TempFile(dataDir)).publishErrors
    ensures PutComposerJsonAction(content, dataDir, validate).reply.status
         == PutComposerJsonAction(content, dataDir, validate').reply.status
    ensures PutComposerJsonAction(content, dataDir, validate).saved
         == PutComposerJsonAction(content, dataDir, validate').saved
  {
  }
}
