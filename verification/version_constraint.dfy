/**
 * `checkVersionConstraintAction`: validate a version constraint with
 * Composer's version parser. Decoding the body and parsing the constraint
 * are oracles: `decoded` is the body as decoded (or the decoding failure),
 * `parse` answers the parser's error message, if it threw.
 */
module VersionConstraint {
  import opened Wrappers
  import opened Php
  import opened Errors
  import JsonArray

  datatype Reply = Reply(httpStatus: int, status: string, error: Option<string>)

  const InvalidPayload: Reply := Reply(400, "error", Some("invalid payload"))

  function CheckVersionConstraintAction(decoded: Result<Value, Thrown>, parse: Value -> Option<string>): (r: Reply)
    ensures decoded.Err? ==> r == InvalidPayload
    ensures decoded.Ok? && !JsonArray.Has(decoded.value, ["constraint"]) ==> r == InvalidPayload
    ensures decoded.Ok? && JsonArray.Has(decoded.value, ["constraint"]) ==>
      match parse(JsonArray.Get(decoded.value, ["constraint"]))
      case Some(message) => r == Reply(200, "error", Some(message))
      case None => r == Reply(200, "ok", None)
  {
    match decoded
    case Err(_) => InvalidPayload
    case Ok(input) =>
      if !JsonArray.Has(input, ["constraint"]) then InvalidPayload
      else
        match parse(JsonArray.Get(input, ["constraint"]))
        case Some(message) => Reply(200, "error", Some(message))
        case None => Reply(200, "ok", None)
  }

  /**
   * The answer is "ok" exactly when a constraint was submitted and parsed;
   * 400 means the payload was unusable, never that the constraint was wrong;
   * an error always comes with a message.
   */
  lemma ConstraintOutcomes(decoded: Result<Value, Thrown>, parse: Value -> Option<string>)
    ensures var r := CheckVersionConstraintAction(decoded, parse);
      && (r.status == "ok" <==>
            decoded.Ok? && JsonArray.Has(decoded.value, ["constraint"])
            && parse(JsonArray.Get(decoded.value, ["constraint"])).None?)
      && (r.httpStatus == 400 <==> decoded.Err? || !JsonArray.Has(decoded.value, ["constraint"]))
      && (r.status == "error" <==> r.error.Some?)
      && (r.status == "ok" || r.status == "error")
  {
  }
}
