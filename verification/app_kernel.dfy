/**
 * `putAppKernelAction`: check a submitted AppKernel.php with `php -l` and
 * write it to `<home>/app/AppKernel.php` only when the check found no error.
 * The lint run and the syntax-error pattern are oracles.
 */
module AppKernel {
  import opened Wrappers
  import opened Php
  import Text

  /** One reported problem; `line` is the string "1" or "0", or the integer the lint reported. */
  datatype KernelError = KernelError(line: Value, msg: string)

  /** What `checkAppKernel` returns: a report, or the empty array when lint succeeded. */
  datatype Check = Report(errors: seq<KernelError>, warnings: seq<string>) | Clean

  /** The finished `php -l` process. */
  datatype LintRun = LintRun(successful: bool, stdout: string, stderr: string)

  /** The response body: `errors` and `warnings` when a report was made, and `status`. */
  datatype Reply = Reply(check: Check, status: string)

  datatype Outcome = Outcome(reply: Reply, linted: bool, written: Option<(string, string)>)

  const MissingOpenTag: string := "AppKernel.php must start with \"<?php\" to work correctly"

  /** `getAppKernelPath`. */
  function AppKernelPath(home: string): (p: string)
    ensures Text.StartsWith(p, home + "/")
    ensures Text.EndsWith(p, "/app/AppKernel.php")
  {
    assert (home + "/app/AppKernel.php")[|home|..] == "/app/AppKernel.php";
    home + "/app/AppKernel.php"
  }

  /** The lint output searched for a syntax error: stderr, a newline, then stdout. */
  function LintOutput(run: LintRun): (r: string)
    ensures |r| == |run.stderr| + 1 + |run.stdout|
    ensures r[..|run.stderr|] == run.stderr && r[|run.stderr|] == '\n' && r[|run.stderr| + 1..] == run.stdout
  {
    run.stderr + "\n" + run.stdout
  }

  /**
   * `checkAppKernel`. `lint` runs `php -l` over the content; `syntaxError`
   * looks for a "Parse error" or "Fatal error" report of a syntax error in
   * the output and answers its message and its line number, as captured.
   */
  function CheckAppKernel(content: string, lint: string -> LintRun, syntaxError: string -> Option<(string, string)>): (r: Check)
    ensures !Text.StartsWith(content, "<?php") ==> r == Report([KernelError(Str("1"), MissingOpenTag)], [])
    ensures Text.StartsWith(content, "<?php") && lint(content).successful ==> r == Clean
    ensures Text.StartsWith(content, "<?php") && !lint(content).successful ==>
      match syntaxError(LintOutput(lint(content)))
      case Some((message, line)) => r == Report([KernelError(Int(IntCast(line)), message)], [])
      case None => r == Report([KernelError(Str("0"), LintOutput(lint(content)))], [])
    ensures r.Report? ==> |r.errors| == 1 && r.warnings == []
  {
    if !Text.StartsWith(content, "<?php") then Report([KernelError(Str("1"), MissingOpenTag)], [])
    else
      var run := lint(content);
      if run.successful then Clean
      else
        match syntaxError(LintOutput(run))
        case Some((message, line)) => Report([KernelError(Int(IntCast(line)), message)], [])
        case None => Report([KernelError(Str("0"), LintOutput(run))], [])
  }

  /** The line the pattern captured comes back as the integer the lint printed. */
  lemma SyntaxErrorLine(content: string, lint: string -> LintRun, syntaxError: string -> Option<(string, string)>, message: string, n: nat)
    requires Text.StartsWith(content, "<?php") && !lint(content).successful
    requires syntaxError(LintOutput(lint(content))) == Some((message, NatToString(n)))
    ensures CheckAppKernel(content, lint, syntaxError) == Report([KernelError(Int(n), message)], [])
  {
    IntCastOfIntToString(n);
  }

  /**
   * `putAppKernelAction`: status ERROR exactly when the check reported an
   * error; the content is written, unchanged, exactly when the status is OK.
   * Lint runs only for content that starts with the open tag.
   */
  function PutAppKernelAction(
    content: string, home: string, lint: string -> LintRun,
    syntaxError: string -> Option<(string, string)>): (r: Outcome)
    ensures var check := CheckAppKernel(content, lint, syntaxError);
      && r.reply.check == check
      && (r.reply.status == "ERROR" <==> check.Report? && |check.errors| > 0)
      && (r.reply.status == "OK" <==> !(check.Report? && |check.errors| > 0))
      && (r.written.Some? <==> r.reply.status == "OK")
      && (r.written.Some? ==> r.written.value == (AppKernelPath(home), content))
    ensures r.linted <==> Text.StartsWith(content, "<?php")
  {
    var check := CheckAppKernel(content, lint, syntaxError);
    var linted := Text.StartsWith(content, "<?php");
    if check.Report? && |check.errors| > 0 then Outcome(Reply(check, "ERROR"), linted, None)
    else Outcome(Reply(check, "OK"), linted, Some((AppKernelPath(home), content)))
  }

  /** A kernel is saved exactly when it has the open tag and lint accepts it. */
  lemma SavedIffLintAccepts(content: string, home: string, lint: string -> LintRun, syntaxError: string -> Option<(string, string)>)
    ensures PutAppKernelAction(content, home, lint, syntaxError).written.Some?
        <==> Text.StartsWith(content, "<?php") && lint(content).successful
  {
  }
}
