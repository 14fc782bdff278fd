/**
 * `CliScriptDeterminator`: the executable to run the command line with,
 * the running phar or else the script name given at construction, detected
 * once and then cached. `Phar::running(false)` is an input.
 */
module CliScript {
  import opened Wrappers
  import opened Php

  /** The determinator: its script name and the value cached by the first call. */
  datatype Determinator = Determinator(scriptName: string, cached: Option<string>)

  /** `new CliScriptDeterminator($scriptName)`. */
  function Create(scriptName: string): (d: Determinator)
    ensures d.scriptName == scriptName && d.cached.None?
  {
    Determinator(scriptName, None)
  }

  /** `detectCliExecutable`: `Phar::running(false) ?: $scriptName`. */
  function Detect(scriptName: string, pharRunning: string): (r: string)
    ensures TruthyString(pharRunning) ==> r == pharRunning
    ensures !TruthyString(pharRunning) ==> r == scriptName
  {
    if TruthyString(pharRunning) then pharRunning else scriptName
  }

  /** `cliExecutable`: the cached value, or the detected one, which is then cached. */
  function CliExecutable(d: Determinator, pharRunning: string): (r: (string, Determinator))
    ensures r.1.scriptName == d.scriptName && r.1.cached == Some(r.0)
    ensures d.cached.Some? ==> r.0 == d.cached.value && r.1 == d
    ensures d.cached.None? ==> r.0 == Detect(d.scriptName, pharRunning)
  {
    match d.cached
    case Some(v) => (v, d)
    case None =>
      var v := Detect(d.scriptName, pharRunning);
      (v, d.(cached := Some(v)))
  }

  /** Later calls answer what the first call answered, whatever the phar state is by then. */
  lemma {:induction false} RepeatedCallsAgree(d: Determinator, phars: seq<string>)
    requires |phars| > 0
    ensures Calls(d, phars) == seq(|phars|, i => CliExecutable(d, phars[0]).0)
    decreases |phars|
  {
    var first := CliExecutable(d, phars[0]);
    if |phars| > 1 {
      RepeatedCallsAgree(first.1, phars[1..]);
      assert CliExecutable(first.1, phars[1]).0 == first.0;
    }
  }

  /** The answers of consecutive calls, each with the phar state at that call. */
  function Calls(d: Determinator, phars: seq<string>): (r: seq<string>)
    ensures |r| == |phars|
    ensures |phars| > 0 ==> r[0] == CliExecutable(d, phars[0]).0
    ensures d.cached.Some? ==> forall i | 0 <= i < |r| :: r[i] == d.cached.value
    decreases |phars|
  {
    if |phars| == 0 then []
    else
      var step := CliExecutable(d, phars[0]);
      [step.0] + Calls(step.1, phars[1..])
  }

  /** Outside a phar every call answers the script name. */
  lemma OutsidePharScriptName(scriptName: string, n: nat)
    requires n > 0
    ensures Calls(Create(scriptName), seq(n, i => "")) == seq(n, i => scriptName)
  {
    RepeatedCallsAgree(Create(scriptName), seq(n, i => ""));
  }
}
