/**
 * TensideApiDocHandler: turns the request and response field trees of an
 * ApiDescription annotation into the parameter documentation of the API
 * documentation generator. `isPrimitive` stands for the generator's
 * `DataTypes::isPrimitive`.
 */
module ApiDocHandler {
  import opened Wrappers
  import opened Php
  import Text
  import Dict

  /** The keys copied verbatim from a field description, in this order. */
  const ConvertFields: seq<string> :=
    ["default", "description", "format", "actualType", "subType", "sinceVersion", "untilVersion", "requirement"]

  /** A converted field: the copied keys, then dataType, required, readonly and the converted children. */
  datatype Converted = Converted(
    copied: seq<(string, Value)>,
    dataType: Value,
    required: bool,
    readonly: bool,
    children: Option<seq<(Key, Converted)>>)

  /** The entries of a field description; anything that is not an array has none. */
  function Entries(field: Value): seq<(Key, Value)>
  {
    if field.Arr? then field.entries else []
  }

  /** `isset($array[$key])`. */
  predicate Has(entries: seq<(Key, Value)>, key: string)
  {
    Dict.Get(entries, StrKey(key)).Some? && IsSet(Dict.Get(entries, StrKey(key)).value)
  }

  /** `isset($array[$key]) && (bool) $array[$key]`. */
  predicate Flag(entries: seq<(Key, Value)>, key: string)
  {
    Has(entries, key) && Truthy(Dict.Get(entries, StrKey(key)).value)
  }

  /** The whitelisted keys that are set, with their values, in whitelist order. */
  function Copied(entries: seq<(Key, Value)>, keys: seq<string>): (r: seq<(string, Value)>)
    ensures forall i | 0 <= i < |r| :: Has(entries, r[i].0) && Dict.Get(entries, StrKey(r[i].0)) == Some(r[i].1)
  {
    if |keys| == 0 then []
    else
      var rest := Copied(entries, keys[1..]);
      if Has(entries, keys[0]) then
        var r := [(keys[0], Dict.Get(entries, StrKey(keys[0])).value)] + rest;
        assert forall i | 1 <= i < |r| :: r[i] == rest[i - 1];
        r
      else rest
  }

  /** Exactly the whitelisted keys that are set are copied. */
  lemma {:induction false} CopiedNames(entries: seq<(Key, Value)>, keys: seq<string>)
    ensures forall k :: k in Dict.Keys(Copied(entries, keys)) <==> k in keys && Has(entries, k)
  {
    if |keys| > 0 {
      assert keys == [keys[0]] + keys[1..];
      var rest := Copied(entries, keys[1..]);
      CopiedNames(entries, keys[1..]);
      if Has(entries, keys[0]) {
        var r := [(keys[0], Dict.Get(entries, StrKey(keys[0])).value)] + rest;
        Dict.KeysCons(r);
        assert r[1..] == rest;
      }
    }
  }

  /** `inferType`: primitive types and 'collection' in any letter case are kept, anything else becomes 'string'. */
  function InferType(t: Value, isPrimitive: Value -> bool): (r: Value)
    ensures r == t || r == Str("string")
    ensures r == t <==> isPrimitive(t) || (t.Str? && Text.Lower(t.s) == "collection") || t == Str("string")
  {
    if isPrimitive(t) then t
    else if t.Str? && Text.Lower(t.s) == "collection" then t
    else Str("string")
  }

  /** The child field descriptions: the entries of an array under 'children', none otherwise. */
  function ChildEntries(entries: seq<(Key, Value)>): seq<(Key, Value)>
  {
    var c := Dict.Get(entries, StrKey("children"));
    if c.Some? && c.value.Arr? then c.value.entries else []
  }

  /** `convertField` together with `convertChildren`. */
  function ConvertField(field: Value, isPrimitive: Value -> bool): (r: Converted)
    ensures r.children.Some? <==> |ChildEntries(Entries(field))| > 0
    ensures r.children.Some? ==> (|r.children.value| == |ChildEntries(Entries(field))|
      && forall j | 0 <= j < |r.children.value| :: r.children.value[j].0 == ChildEntries(Entries(field))[j].0)
    ensures r.required <==> (Flag(Entries(field), "required") ||
      (r.children.Some? && exists j | 0 <= j < |r.children.value| :: r.children.value[j].1.required))
    decreases field
  {
    var e := Entries(field);
    var dataType :=
      if Has(e, "dataType") then InferType(Dict.Get(e, StrKey("dataType")).value, isPrimitive)
      else if Has(e, "children") then Str("object")
      else Str("string");
    var ce := ChildEntries(e);
    var children: Option<seq<(Key, Converted)>> :=
      if |ce| == 0 then None
      else
        assert field.Arr? && (StrKey("children"), Arr(ce)) in field.entries;
        Some(seq(|ce|, j requires 0 <= j < |ce| =>
          assert ce[j] in ce;
          (ce[j].0, ConvertField(ce[j].1, isPrimitive))));
    var required := Flag(e, "required") ||
      (children.Some? && exists j | 0 <= j < |children.value| :: children.value[j].1.required);
    Converted(Copied(e, ConvertFields), dataType, required, Flag(e, "readonly"), children)
  }

  /**
   * The type, the flags and the copied keys of a converted field: a given
   * type passes through `inferType`; without one, a field with children is
   * an object and any other a string.
   */
  lemma ConvertFieldShape(field: Value, isPrimitive: Value -> bool)
    ensures var e := Entries(field); var r := ConvertField(field, isPrimitive);
      && (Has(e, "dataType") ==> r.dataType == InferType(Dict.Get(e, StrKey("dataType")).value, isPrimitive))
      && (!Has(e, "dataType") && Has(e, "children") ==> r.dataType == Str("object"))
      && (!Has(e, "dataType") && !Has(e, "children") ==> r.dataType == Str("string"))
      && r.readonly == Flag(e, "readonly")
      && (Flag(e, "required") ==> r.required)
      && r.copied == Copied(e, ConvertFields)
  {
  }

  /** The field or one of its descendants, however deep, is flagged required. */
  predicate AnyRequired(field: Value)
    decreases field
  {
    Flag(Entries(field), "required") ||
    var ce := ChildEntries(Entries(field));
    exists j | 0 <= j < |ce| ::
      assert field.Arr? && (StrKey("children"), Arr(ce)) in field.entries && ce[j] in ce;
      AnyRequired(ce[j].1)
  }

  /** A converted field is required exactly when the field or any descendant is; readonly stays with its own flag. */
  lemma {:induction false} RequiredPropagates(field: Value, isPrimitive: Value -> bool)
    ensures ConvertField(field, isPrimitive).required <==> AnyRequired(field)
    ensures ConvertField(field, isPrimitive).readonly <==> Flag(Entries(field), "readonly")
    decreases field
  {
    var ce := ChildEntries(Entries(field));
    var r := ConvertField(field, isPrimitive);
    if |ce| > 0 {
      assert field.Arr? && (StrKey("children"), Arr(ce)) in field.entries;
      forall j | 0 <= j < |ce|
        ensures r.children.value[j].1.required <==> AnyRequired(ce[j].1)
      {
        assert ce[j] in ce;
        RequiredPropagates(ce[j].1, isPrimitive);
      }
    }
  }

  /** An annotation on a controller method: an ApiDescription with its request and response fields, or something else. */
  datatype Annotation =
    | Description(request: seq<(string, Value)>, response: seq<(string, Value)>)
    | OtherAnnotation

  /** A documented parameter or response field: as another source gave it, or converted here. */
  datatype Doc = Given(raw: Value) | Generated(converted: Converted)

  /** The ApiDoc annotation being filled: its parameters and its response, by name. */
  datatype ApiDoc = ApiDoc(parameters: Dict.Dict<string, Doc>, response: Dict.Dict<string, Doc>)

  /** Each named field converted, under the same name. */
  function ConvertAll(fields: seq<(string, Value)>, isPrimitive: Value -> bool): (r: Dict.Dict<string, Doc>)
    ensures |r| == |fields|
    ensures forall i | 0 <= i < |fields| :: r[i] == (fields[i].0, Generated(ConvertField(fields[i].1, isPrimitive)))
  {
    seq(|fields|, i requires 0 <= i < |fields| => (fields[i].0, Generated(ConvertField(fields[i].1, isPrimitive))))
  }

  /**
   * One ApiDescription applied: its converted request fields merged over the
   * parameters, and its converted response fields as the response unless a
   * response is documented already.
   */
  function Apply(doc: ApiDoc, request: seq<(string, Value)>, response: seq<(string, Value)>, isPrimitive: Value -> bool): (r: ApiDoc)
    ensures forall name | !Dict.HasKey(request, name) :: Dict.Get(r.parameters, name) == Dict.Get(doc.parameters, name)
    ensures Dict.UniqueKeys(request) ==> forall i | 0 <= i < |request| ::
      Dict.Get(r.parameters, request[i].0) == Some(Generated(ConvertField(request[i].1, isPrimitive)))
    ensures |doc.response| > 0 ==> r.response == doc.response
    ensures |doc.response| == 0 ==> r.response == ConvertAll(response, isPrimitive)
  {
    var converted := ConvertAll(request, isPrimitive);
    assert forall name :: Dict.HasKey(converted, name) <==> Dict.HasKey(request, name) by {
      assert Dict.Keys(converted) == Dict.Keys(request);
    }
    forall i | 0 <= i < |request| && Dict.UniqueKeys(request)
      ensures Dict.Get(Dict.Merge(doc.parameters, converted), request[i].0) == Some(Generated(ConvertField(request[i].1, isPrimitive)))
    {
      assert Dict.Keys(converted)[i] == request[i].0;
      Dict.MergeRightWins(doc.parameters, converted, request[i].0);
      UniqueGet(converted, i);
    }
    ApiDoc(Dict.Merge(doc.parameters, converted), if |doc.response| > 0 then doc.response else ConvertAll(response, isPrimitive))
  }

  /** In a dictionary without repeated keys, each entry is what its key looks up. */
  lemma {:induction false} UniqueGet<V>(d: Dict.Dict<string, V>, i: int)
    requires Dict.UniqueKeys(d) && 0 <= i < |d|
    ensures Dict.Get(d, d[i].0) == Some(d[i].1)
  {
    if i > 0 {
      assert d[0].0 != d[i].0;
      assert d[1..][i - 1] == d[i];
      UniqueGet(d[1..], i - 1);
    }
  }

  /** `handle`: every ApiDescription applied in order; other annotations are skipped. */
  function Handle(doc: ApiDoc, annotations: seq<Annotation>, isPrimitive: Value -> bool): (r: ApiDoc)
    ensures |doc.response| > 0 ==> r.response == doc.response
    ensures (forall i | 0 <= i < |annotations| :: annotations[i] == OtherAnnotation) ==> r == doc
    decreases |annotations|
  {
    if |annotations| == 0 then doc
    else match annotations[0]
      case OtherAnnotation => Handle(doc, annotations[1..], isPrimitive)
      case Description(request, response) =>
        Handle(Apply(doc, request, response, isPrimitive), annotations[1..], isPrimitive)
  }

  /** The ApiDescriptions of a list of annotations, in order. */
  function Descriptions(annotations: seq<Annotation>): (r: seq<Annotation>)
    ensures forall i | 0 <= i < |r| :: r[i].Description? && r[i] in annotations
    ensures forall a | a in annotations && a.Description? :: a in r
    ensures |r| <= |annotations|
  {
    if |annotations| == 0 then []
    else if annotations[0].Description? then [annotations[0]] + Descriptions(annotations[1..])
    else Descriptions(annotations[1..])
  }

  /** Annotations other than ApiDescription have no effect at all. */
  lemma {:induction false} HandleIgnoresOthers(doc: ApiDoc, annotations: seq<Annotation>, isPrimitive: Value -> bool)
    ensures Handle(doc, annotations, isPrimitive) == Handle(doc, Descriptions(annotations), isPrimitive)
    decreases |annotations|
  {
    if |annotations| > 0 {
      match annotations[0]
      case OtherAnnotation => HandleIgnoresOthers(doc, annotations[1..], isPrimitive);
      case Description(request, response) =>
        var rest := Descriptions(annotations[1..]);
        assert ([annotations[0]] + rest)[1..] == rest;
        HandleIgnoresOthers(Apply(doc, request, response, isPrimitive), annotations[1..], isPrimitive);
    }
  }
}
