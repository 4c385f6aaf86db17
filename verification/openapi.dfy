/**
 * The parts of an OpenAPI 3 document the front end reads, and the helpers it
 * applies to operations: parameter partitioning, request-body schema
 * extraction, default values and parameter validation.
 */
module OpenApi {
  import opened Wrappers
  import opened Dicts
  import opened JsonValues
  import opened Sequences

  /**
   * A schema object.  `typ` is "" when `type` is absent; a `$ref` schema is a
   * schema without type or keywords.  `required` is the list of required
   * property names; `defaultValue` is `default`; the numeric keywords are
   * reals, as JavaScript numbers are.
   */
  datatype Schema = Schema(
    typ: string,
    properties: Option<Properties>,
    required: Option<seq<string>>,
    defaultValue: Option<Json>,
    enumValues: Option<seq<Json>>,
    minimum: Option<real>,
    maximum: Option<real>,
    minLength: Option<int>,
    maxLength: Option<int>,
    pattern: Option<string>)

  /** The `properties` of a schema, in document order; a property may be null. */
  datatype Properties = Properties(entries: Dict<Option<Schema>>)

  /** A parameter object; `location` is its `in`. */
  datatype Parameter = Parameter(name: string, location: string, required: bool, schema: Option<Schema>)

  /** An entry of `operation.parameters`: a `$ref` or a parameter. */
  datatype ParameterEntry = ParameterRef(ref: string) | ParameterItem(param: Parameter)

  datatype MediaType = MediaType(schema: Option<Schema>)

  /** `requestBody`: a `$ref` or a request body whose `content` maps media types. */
  datatype RequestBodyEntry = RequestBodyRef(ref: string) | RequestBody(content: Option<Dict<MediaType>>)

  datatype Operation = Operation(parameters: Option<seq<ParameterEntry>>, requestBody: Option<RequestBodyEntry>)

  /** An entry of a path item under a method key: not an object, a `$ref`, or an operation. */
  datatype OperationEntry = OperationNotObject | OperationRef(ref: string) | OperationItem(op: Operation)

  /** An entry of `paths`: not an object, a `$ref`, or a path item keyed by lower-case method. */
  datatype PathEntry = PathNotObject | PathRef(ref: string) | PathItem(operations: Dict<OperationEntry>)

  /** A loaded document; `paths` is absent or its templates in document order. */
  datatype OpenApiDoc = OpenApiDoc(paths: Option<Dict<PathEntry>>)

  /** What `Number(value)` gives: NaN, a finite number or an infinity. */
  datatype JsNumber = NaN | Finite(r: real) | Infinity(positive: bool)

  /** `num < bound` for a number that is not NaN. */
  predicate Below(num: JsNumber, bound: real) {
    match num
    case NaN => false
    case Finite(r) => r < bound
    case Infinity(positive) => !positive
  }

  /** `num > bound` for a number that is not NaN. */
  predicate Above(num: JsNumber, bound: real) {
    match num
    case NaN => false
    case Finite(r) => r > bound
    case Infinity(positive) => positive
  }

  /** `Number.isInteger(num)`. */
  predicate IsInteger(num: JsNumber) {
    num.Finite? && num.r.Floor as real == num.r
  }

  /** The problems a value can have against a schema, in the order they are checked. */
  datatype FieldError =
    | FieldRequired
    | NotANumber
    | BelowMinimum(minimum: real)
    | AboveMaximum(maximum: real)
    | NotAnInteger
    | TooShort(minLength: int)
    | TooLong(maxLength: int)
    | PatternMismatch
    | NotOneOf(options: seq<Json>)

  /** `SameValueZero`, which `Array.prototype.includes` uses: objects and arrays are equal only to themselves. */
  predicate SameValueZero(a: Json, b: Json) {
    match (a, b)
    case (Null, Null) => true
    case (Bool(x), Bool(y)) => x == y
    case (Num(x), Num(y)) => x == y
    case (Str(x), Str(y)) => x == y
    case _ => false
  }

  /** `options.includes(v)` for a value that is a fresh object if it is an object at all. */
  predicate Includes(options: seq<Json>, v: Json) {
    exists i :: 0 <= i < |options| && SameValueZero(options[i], v)
  }

  // ---------------------------------------------------------------------------
  // parseParameters

  /** `param.in === location`; a `$ref` entry has no `in`. */
  predicate AtLocationEntry(x: ParameterEntry, location: string) {
    x.ParameterItem? && x.param.location == location
  }

  /** The parameters whose `in` is `location`, in order; `$ref` entries have no `in`. */
  function AtLocation(params: seq<ParameterEntry>, location: string): (r: seq<Parameter>)
    ensures forall p :: p in r <==> ParameterItem(p) in params && p.location == location
    ensures Subsequence(Items(r), params)
    // Every copy of a listed parameter stays, and nothing else.
    ensures forall x :: multiset(Items(r))[x] == if AtLocationEntry(x, location) then multiset(params)[x] else 0
  {
    if params == [] then []
    else
      var rest := AtLocation(params[1..], location);
      assert forall x :: x in params <==> x == params[0] || x in params[1..];
      assert params == [params[0]] + params[1..];
      if params[0].ParameterItem? && params[0].param.location == location then
        assert Items([params[0].param] + rest) == [params[0]] + Items(rest);
        [params[0].param] + rest
      else
        SubsequenceSkip(Items(rest), params);
        rest
  }

  function Items(ps: seq<Parameter>): (r: seq<ParameterEntry>)
    ensures |r| == |ps| && forall i :: 0 <= i < |ps| ==> r[i] == ParameterItem(ps[i])
  {
    if ps == [] then [] else [ParameterItem(ps[0])] + Items(ps[1..])
  }

  datatype ParsedParameters = ParsedParameters(
    pathParams: seq<Parameter>, queryParams: seq<Parameter>, headerParams: seq<Parameter>)

  /** `parseParameters`: the parameters split by location; any other location lands in no list. */
  function ParseParameters(op: Operation): (r: ParsedParameters)
    ensures op.parameters.None? ==> r == ParsedParameters([], [], [])
    ensures forall p :: p in r.pathParams <==> op.parameters.Some? && ParameterItem(p) in op.parameters.value && p.location == "path"
    ensures forall p :: p in r.queryParams <==> op.parameters.Some? && ParameterItem(p) in op.parameters.value && p.location == "query"
    ensures forall p :: p in r.headerParams <==> op.parameters.Some? && ParameterItem(p) in op.parameters.value && p.location == "header"
    ensures op.parameters.Some? ==>
      Subsequence(Items(r.pathParams), op.parameters.value)
      && Subsequence(Items(r.queryParams), op.parameters.value)
      && Subsequence(Items(r.headerParams), op.parameters.value)
    ensures op.parameters.Some? ==> forall x ::
      && multiset(Items(r.pathParams))[x] == (if AtLocationEntry(x, "path") then multiset(op.parameters.value)[x] else 0)
      && multiset(Items(r.queryParams))[x] == (if AtLocationEntry(x, "query") then multiset(op.parameters.value)[x] else 0)
      && multiset(Items(r.headerParams))[x] == (if AtLocationEntry(x, "header") then multiset(op.parameters.value)[x] else 0)
  {
    var params := op.parameters.GetOr([]);
    ParsedParameters(AtLocation(params, "path"), AtLocation(params, "query"), AtLocation(params, "header"))
  }

  // ---------------------------------------------------------------------------
  // parseRequestBodySchema

  /** `parseRequestBodySchema`: the `application/json` schema of the request body, when there is one. */
  function ParseRequestBodySchema(op: Operation): (r: Option<Schema>)
    ensures r.Some? <==>
      op.requestBody.Some? && op.requestBody.value.RequestBody? && op.requestBody.value.content.Some?
      && Lookup(op.requestBody.value.content.value, "application/json").Some?
      && Lookup(op.requestBody.value.content.value, "application/json").value.schema.Some?
    ensures r.Some? ==> r == Lookup(op.requestBody.value.content.value, "application/json").value.schema
  {
    match op.requestBody
    case None => None
    case Some(RequestBodyRef(_)) => None
    case Some(RequestBody(content)) =>
      match content
      case None => None
      case Some(media) =>
        match Lookup(media, "application/json")
        case None => None
        case Some(m) => m.schema
  }

  // ---------------------------------------------------------------------------
  // generateDefaultValue

  /** The value a type starts from when the schema gives no default. */
  function TypeDefault(typ: string): (v: Json)
    ensures typ == "string" ==> v == Str("")
    ensures typ == "number" || typ == "integer" ==> v == Num(0)
    ensures typ == "boolean" ==> v == Bool(false)
    ensures typ == "array" ==> v == Arr([])
    ensures typ == "object" ==> v == Obj([])
    ensures typ !in {"string", "number", "integer", "boolean", "array", "object"} ==> v == Null
  {
    if typ == "string" then Str("")
    else if typ == "number" || typ == "integer" then Num(0)
    else if typ == "boolean" then Bool(false)
    else if typ == "array" then Arr([])
    else if typ == "object" then Obj([])
    else Null
  }

  /** `generateDefaultValue`: `default` whenever it is present, whatever the type; otherwise the type's empty value. */
  function GenerateDefaultValue(s: Schema): (v: Json)
    ensures s.defaultValue.Some? ==> v == s.defaultValue.value
    ensures s.defaultValue.None? ==> v == TypeDefault(s.typ)
  {
    match s.defaultValue
    case Some(d) => d
    case None => TypeDefault(s.typ)
  }

  // ---------------------------------------------------------------------------
  // validateParameter

  /** A problem with a parameter value, reported as `<name> ...`. */
  datatype ParameterError = ParameterError(name: string, problem: FieldError)

  /** `value === undefined || value === ''`. */
  predicate Unset(value: Option<Json>) {
    value == None || value == Some(Str(""))
  }

  /** `schema.type === 'number' || schema.type === 'integer'`. */
  predicate Numeric(s: Schema) {
    s.typ == "number" || s.typ == "integer"
  }

  /** `num` is a number within `minimum` and `maximum`, where those are given. */
  predicate InRange(s: Schema, num: JsNumber) {
    && !num.NaN?
    && !(s.minimum.Some? && Below(num, s.minimum.value))
    && !(s.maximum.Some? && Above(num, s.maximum.value))
  }

  /** `schema.pattern && typeof value === 'string' && !new RegExp(schema.pattern).test(value)`. */
  predicate PatternFails(s: Schema, v: Json, test: (string, string) -> bool) {
    s.pattern.Some? && s.pattern.value != "" && v.Str? && !test(s.pattern.value, v.s)
  }

  /**
   * `validateParameter`.  `toNumber` is `Number(...)` and `test(pattern, s)`
   * is `new RegExp(pattern).test(s)`.
   */
  function ValidateParameter(
    p: Parameter, value: Option<Json>, toNumber: Json -> JsNumber, test: (string, string) -> bool)
    : (r: Option<ParameterError>)
    ensures r.Some? ==> r.value.name == p.name
    ensures r == Some(ParameterError(p.name, FieldRequired)) <==> p.required && Unset(value)
    ensures p.schema.None? && r.Some? ==> r.value.problem == FieldRequired
    ensures Unset(value) && r.Some? ==> r.value.problem == FieldRequired
    ensures r.Some? && r.value.problem.NotOneOf? ==>
      value.Some? && p.schema.value.enumValues == Some(r.value.problem.options)
      && !Includes(r.value.problem.options, value.value)
    // Conversely, each failing check is reported, the first in source order winning.
    ensures !p.required && Unset(value) ==> r == None
    ensures !Unset(value) && p.schema.None? ==> r == None
    ensures (!Unset(value) && p.schema.Some? && Numeric(p.schema.value) && toNumber(value.value).NaN?)
      ==> r == Some(ParameterError(p.name, NotANumber))
    ensures (&& !Unset(value) && p.schema.Some? && Numeric(p.schema.value) && !toNumber(value.value).NaN?
             && p.schema.value.minimum.Some? && Below(toNumber(value.value), p.schema.value.minimum.value))
      ==> r == Some(ParameterError(p.name, BelowMinimum(p.schema.value.minimum.value)))
    ensures (&& !Unset(value) && p.schema.Some? && Numeric(p.schema.value) && !toNumber(value.value).NaN?
             && !(p.schema.value.minimum.Some? && Below(toNumber(value.value), p.schema.value.minimum.value))
             && p.schema.value.maximum.Some? && Above(toNumber(value.value), p.schema.value.maximum.value))
      ==> r == Some(ParameterError(p.name, AboveMaximum(p.schema.value.maximum.value)))
    ensures (&& !Unset(value) && p.schema.Some?
             && (Numeric(p.schema.value) ==> InRange(p.schema.value, toNumber(value.value)))
             && PatternFails(p.schema.value, value.value, test))
      ==> r == Some(ParameterError(p.name, PatternMismatch))
    ensures (&& !Unset(value) && p.schema.Some?
             && (Numeric(p.schema.value) ==> InRange(p.schema.value, toNumber(value.value)))
             && !PatternFails(p.schema.value, value.value, test))
      ==> r == (if p.schema.value.enumValues.Some? && !Includes(p.schema.value.enumValues.value, value.value)
                then Some(ParameterError(p.name, NotOneOf(p.schema.value.enumValues.value)))
                else None)
  {
    if p.required && Unset(value) then Some(ParameterError(p.name, FieldRequired))
    else if p.schema.None? then None
    else if Unset(value) then None
    else
      var s := p.schema.value;
      var v := value.value;
      var problem: Option<FieldError> :=
        if (s.typ == "number" || s.typ == "integer") && toNumber(v) == NaN then Some(NotANumber)
        else if (s.typ == "number" || s.typ == "integer") && s.minimum.Some? && Below(toNumber(v), s.minimum.value) then
          Some(BelowMinimum(s.minimum.value))
        else if (s.typ == "number" || s.typ == "integer") && s.maximum.Some? && Above(toNumber(v), s.maximum.value) then
          Some(AboveMaximum(s.maximum.value))
        else if PatternFails(s, v, test) then
          Some(PatternMismatch)
        else if s.enumValues.Some? && !Includes(s.enumValues.value, v) then Some(NotOneOf(s.enumValues.value))
        else None;
      match problem
      case None => None
      case Some(e) => Some(ParameterError(p.name, e))
  }
}
