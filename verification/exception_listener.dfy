/**
 * ExceptionListener: the kernel-exception hook that turns every exception
 * escaping a controller into a JSON error response, and, in debug mode,
 * attaches a formatted copy of the exception chain.
 */
module ExceptionListener {
  import opened Wrappers
  import opened Php
  import opened Errors
  import Text

  /** One entry of `Exception::getTrace()`; absent keys are `None`. */
  datatype Frame = Frame(
    file: Option<string>,
    line: Option<int>,
    cls: Option<string>,
    callType: string,
    functionName: string,
    args: seq<(Key, Value)>)

  /** An exception as the listener sees it: what was thrown, where, and what it wraps. */
  datatype Exception = Exception(
    thrown: Thrown,
    code: int,
    file: string,
    line: int,
    trace: seq<Frame>,
    previous: Option<Exception>)

  /** An entry of the formatted trace: the throw site first, then one per stack frame. */
  datatype TraceEntry =
    | Site(file: string, line: Value)
    | Call(file: string, line: Value, functionName: string, arguments: seq<(Key, Value)>)

  datatype Formatted = Formatted(
    message: string,
    typeName: string,
    code: int,
    trace: seq<TraceEntry>,
    previous: Option<Formatted>)

  /** The JSON body of every response the listener produces. */
  datatype ErrorBody = ErrorBody(status: string, message: string, exception: Option<Formatted>)

  datatype Response = Response(statusCode: int, headers: seq<(string, string)>, body: ErrorBody)

  const Unknown: string := "unknown"

  /** Symfony's message key of an AuthenticationCredentialsNotFoundException. */
  const CredentialsNotFoundKey: string := "Authentication credentials could not be found."

  /** The reason phrase of HTTP status 500. */
  const InternalServerErrorText: string := "Internal Server Error"

  /** The response chosen for an exception; `requestUri` is the current request's URI. */
  function OnKernelException(e: Exception, requestUri: string, debug: bool): (r: Response)
    ensures r.body.status == "ERROR"
    ensures e.thrown.cls.Http? && e.thrown.cls.variant.NotFound? ==>
      r == Response(404, [], ErrorBody("ERROR", NotFoundMessage(e.thrown.message, requestUri), None))
    ensures e.thrown.cls.Http? && !e.thrown.cls.variant.NotFound? ==>
      r == Response(StatusCodeOf(e.thrown.cls.variant), e.thrown.cls.headers, ErrorBody("ERROR", e.thrown.message, None))
    ensures e.thrown.cls.CredentialsNotFound? ==>
      r == Response(401, [], ErrorBody("ERROR", CredentialsNotFoundKey, None))
    ensures !e.thrown.cls.Http? && !e.thrown.cls.CredentialsNotFound? ==>
      && r.statusCode == 500
      && r.body.message == InternalServerErrorText
      && (r.body.exception.Some? <==> debug)
      && (debug ==> r.body.exception == Some(FormatException(e)))
  {
    match e.thrown.cls
    case Http(NotFound, _) => NotFoundResponse(e, requestUri)
    case Http(variant, headers) => Response(StatusCodeOf(variant), headers, ErrorBody("ERROR", e.thrown.message, None))
    case CredentialsNotFound => Response(401, [], ErrorBody("ERROR", CredentialsNotFoundKey, None))
    case _ => InternalServerError(e, debug)
  }

  /** The message of a 404: the exception's own, or a generic one naming the URI when empty. */
  function NotFoundMessage(message: string, requestUri: string): (m: string)
    ensures TruthyString(message) ==> m == message
    ensures !TruthyString(message) ==> m == "Uri " + requestUri + " could not be found"
  {
    if TruthyString(message) then message else "Uri " + requestUri + " could not be found"
  }

  /** The generic 404 message names the URI. */
  lemma GenericMessageNamesUri(requestUri: string)
    ensures Text.Contains("Uri " + requestUri + " could not be found", requestUri)
  {
    var m := "Uri " + requestUri + " could not be found";
    assert requestUri <= m[4..];
  }

  /** A 404 without extra headers, naming the URI when the exception has no message of its own. */
  function NotFoundResponse(e: Exception, requestUri: string): (r: Response)
    ensures r.statusCode == 404 && r.headers == [] && r.body.status == "ERROR" && r.body.exception.None?
    ensures TruthyString(e.thrown.message) ==> r.body.message == e.thrown.message
    ensures !TruthyString(e.thrown.message) ==> Text.Contains(r.body.message, requestUri)
  {
    GenericMessageNamesUri(requestUri);
    Response(404, [], ErrorBody("ERROR", NotFoundMessage(e.thrown.message, requestUri), None))
  }

  /** A 500 with a fixed message; the formatted exception chain is disclosed only when debugging. */
  function InternalServerError(e: Exception, debug: bool): (r: Response)
    ensures r.statusCode == 500 && r.headers == [] && r.body.status == "ERROR"
    ensures r.body.message == InternalServerErrorText
    ensures r.body.exception.Some? <==> debug
    ensures debug ==> FormattedChainLength(r.body.exception.value) == ChainLength(e)
    ensures debug ==> r.body.exception == Some(FormatException(e))
  {
    FormatExceptionKeepsChain(e);
    Response(500, [], ErrorBody("ERROR", InternalServerErrorText,
      if debug then Some(FormatException(e)) else None))
  }

  /** `$value ?: 'unknown'` for the throw site's file. */
  function SiteFile(file: string): string
  {
    if TruthyString(file) then file else Unknown
  }

  /** `$value ?: 'unknown'` for the throw site's line. */
  function SiteLine(line: int): Value
  {
    if line != 0 then Int(line) else Str(Unknown)
  }

  /** The exception, its trace and, recursively, the exception it wraps. */
  function FormatException(e: Exception): (f: Formatted)
    ensures f.message == e.thrown.message && f.typeName == ClassName(e.thrown.cls) && f.code == e.code
    ensures |f.trace| == |e.trace| + 1
    ensures f.trace[0] == Site(SiteFile(e.file), SiteLine(e.line))
    ensures forall i | 0 <= i < |e.trace| :: f.trace[i + 1] == FormatStackFrame(e.trace[i])
    ensures f.previous.Some? <==> e.previous.Some?
    decreases e
  {
    Formatted(
      e.thrown.message,
      ClassName(e.thrown.cls),
      e.code,
      [Site(SiteFile(e.file), SiteLine(e.line))] + seq(|e.trace|, i requires 0 <= i < |e.trace| => FormatStackFrame(e.trace[i])),
      match e.previous
      case None => None
      case Some(p) => Some(FormatException(p)))
  }

  /** A stack frame with 'unknown' for a missing file or line and the qualified function name. */
  function FormatStackFrame(frame: Frame): (t: TraceEntry)
    ensures t.Call?
    ensures t.file == (if frame.file.Some? then frame.file.value else Unknown)
    ensures t.line == (if frame.line.Some? then Int(frame.line.value) else Str(Unknown))
    ensures frame.cls.Some? ==> t.functionName == frame.cls.value + frame.callType + frame.functionName
    ensures frame.cls.None? ==> t.functionName == frame.functionName
    ensures t.arguments == FormatArguments(frame.args)
  {
    Call(
      frame.file.GetOr(Unknown),
      if frame.line.Some? then Int(frame.line.value) else Str(Unknown),
      (if frame.cls.Some? then frame.cls.value + frame.callType else "") + frame.functionName,
      FormatArguments(frame.args))
  }

  /** An argument with objects replaced by their class name, at any depth. */
  function FormatValue(v: Value): Value
    decreases v
  {
    match v
    case Object(className, _) => Str(className)
    case Arr(entries) =>
      Arr(seq(|entries|, i requires 0 <= i < |entries| =>
        assert entries[i] in entries;
        (entries[i].0, FormatValue(entries[i].1))))
    case _ => v
  }

  /** `formatArguments`: same keys in the same order, each value formatted. */
  function FormatArguments(args: seq<(Key, Value)>): (r: seq<(Key, Value)>)
    ensures |r| == |args|
    ensures forall i | 0 <= i < |args| :: r[i].0 == args[i].0
    ensures forall i | 0 <= i < |r| :: ObjectFree(r[i].1)
  {
    FormatValueObjectFree(Arr(args));
    FormatValue(Arr(args)).entries
  }

  /** No object remains anywhere in a value. */
  predicate ObjectFree(v: Value)
    decreases v
  {
    match v
    case Object(_, _) => false
    case Arr(entries) =>
      forall i | 0 <= i < |entries| :: assert entries[i] in entries; ObjectFree(entries[i].1)
    case _ => true
  }

  /** Formatting leaves no object behind, however deeply arrays nest. */
  lemma {:induction false} FormatValueObjectFree(v: Value)
    ensures ObjectFree(FormatValue(v))
    decreases v
  {
    match v
    case Arr(entries) =>
      var r := FormatValue(v).entries;
      forall i | 0 <= i < |entries|
        ensures ObjectFree(r[i].1)
      {
        assert entries[i] in entries;
        FormatValueObjectFree(entries[i].1);
      }
    case _ =>
  }

  /** An object-free value is left as it is. */
  lemma {:induction false} FormatValueKeepsObjectFree(v: Value)
    requires ObjectFree(v)
    ensures FormatValue(v) == v
    decreases v
  {
    match v
    case Arr(entries) =>
      var r := FormatValue(v).entries;
      forall i | 0 <= i < |entries|
        ensures r[i] == entries[i]
      {
        assert entries[i] in entries;
        FormatValueKeepsObjectFree(entries[i].1);
      }
      assert r == entries;
    case _ =>
  }

  /** Formatting the arguments is idempotent, and it keeps their keys in order. */
  lemma FormatArgumentsIdempotent(args: seq<(Key, Value)>)
    ensures FormatArguments(FormatArguments(args)) == FormatArguments(args)
    ensures |FormatArguments(args)| == |args|
    ensures forall i | 0 <= i < |args| :: FormatArguments(args)[i].0 == args[i].0
  {
    FormatValueObjectFree(Arr(args));
    FormatValueKeepsObjectFree(FormatValue(Arr(args)));
  }

  /** The number of exceptions in a chain, following `previous`. */
  function ChainLength(e: Exception): nat
    decreases e
  {
    1 + match e.previous
        case None => 0
        case Some(p) => ChainLength(p)
  }

  function FormattedChainLength(f: Formatted): nat
    decreases f
  {
    1 + match f.previous
        case None => 0
        case Some(p) => FormattedChainLength(p)
  }

  /** The formatted chain has one entry per exception of the original chain. */
  lemma {:induction false} FormatExceptionKeepsChain(e: Exception)
    ensures FormattedChainLength(FormatException(e)) == ChainLength(e)
    decreases e
  {
    match e.previous
    case None =>
    case Some(p) => FormatExceptionKeepsChain(p);
  }
}
