/** The JSON-RPC 2.0 message model of src/types.rs: the error code and its reserved
    ranges, and each message type's encoding as a JSON value together with the
    decoding that its serde attributes select.

    Decoding follows what `serde_json` does when it builds these types from a
    JSON value: a struct reads the keys it knows and ignores the others, a missing
    required key is a `Data` error, an `Option` field that is missing or `null`
    is `None`, and an untagged enum tries its variants in declaration order. */
module Types {
  import opened Json

  newtype i32 = x: int | InI32(x)
  newtype i64 = x: int | InI64(x)

  predicate InI32(n: int) { -0x8000_0000 <= n < 0x8000_0000 }
  predicate InI64(n: int) { -0x8000_0000_0000_0000 <= n < 0x8000_0000_0000_0000 }

  /* ---------------------------------------------------------------------------- */
  /* Error codes                                                                   */
  /* ---------------------------------------------------------------------------- */

  /** `ErrorCode(i32)` (src/types.rs:150-175). */
  datatype ErrorCode = ErrorCode(code: i32) {
    static function New(code: i32): (r: ErrorCode)
      ensures r.Get() == code
    {
      ErrorCode(code)
    }

    function Get(): i32
    {
      code
    }

    /** The range section 5.1 of the JSON-RPC 2.0 specification reserves for
        pre-defined errors. */
    predicate IsPreDefined()
    {
      -32768 <= code && code <= -32000
    }

    /** `is_server_error` as written: the bounds are in the wrong order. */
    predicate IsServerError()
    {
      -32000 <= code && code <= -32099
    }

    /** The server-error range of section 5.1 of the JSON-RPC 2.0 specification,
        -32099 to -32000, which `is_server_error` evidently means. */
    predicate IsServerErrorIntended()
    {
      -32099 <= code && code <= -32000
    }
  }

  const PARSE_ERROR: ErrorCode := ErrorCode(-32700)
  const INVALID_REQUEST: ErrorCode := ErrorCode(-32600)
  const METHOD_NOT_FOUND: ErrorCode := ErrorCode(-32601)
  const INVALID_PARAMS: ErrorCode := ErrorCode(-32602)
  const INTERNAL_ERROR: ErrorCode := ErrorCode(-32603)

  /** The five named codes lie in the pre-defined range; -31000 does not. */
  lemma NamedCodesArePreDefined()
    ensures PARSE_ERROR.IsPreDefined() && INVALID_REQUEST.IsPreDefined()
    ensures METHOD_NOT_FOUND.IsPreDefined() && INVALID_PARAMS.IsPreDefined()
    ensures INTERNAL_ERROR.IsPreDefined()
    ensures !ErrorCode(-31000).IsPreDefined()
  {
  }

  /** `is_server_error` as written holds of no code at all. */
  lemma IsServerErrorNeverHolds(c: ErrorCode)
    ensures !c.IsServerError()
  {
  }

  /** The code -32050 is a server error by the specification, but not by
      `is_server_error` as written. */
  lemma ServerErrorCounterexample()
    ensures ErrorCode(-32050).IsServerErrorIntended() && !ErrorCode(-32050).IsServerError()
  {
  }

  /** With the intended bounds, every server error is a pre-defined error, and the
      named codes are not server errors. */
  lemma ServerErrorsArePreDefined(c: ErrorCode)
    ensures c.IsServerErrorIntended() ==> c.IsPreDefined()
    ensures !PARSE_ERROR.IsServerErrorIntended() && !INVALID_REQUEST.IsServerErrorIntended()
    ensures !METHOD_NOT_FOUND.IsServerErrorIntended() && !INVALID_PARAMS.IsServerErrorIntended()
    ensures !INTERNAL_ERROR.IsServerErrorIntended()
  {
  }

  /* ---------------------------------------------------------------------------- */
  /* Decoding helpers                                                              */
  /* ---------------------------------------------------------------------------- */

  function DecodeString(v: Value): (r: Result<string, Error>)
    ensures r.Success? <==> v.Str?
    ensures r.Success? ==> v == Str(r.value)
  {
    if v.Str? then Success(v.s) else Failure(Data)
  }

  /** A required struct field: a missing key is a `Data` error. */
  function Required<X>(fields: map<string, Value>, key: string, decode: Value -> Result<X, Error>): Result<X, Error>
  {
    if key in fields then decode(fields[key]) else Failure(Data)
  }

  /** An `Option` struct field: a missing key or `null` is `None`. */
  function Optional<X>(fields: map<string, Value>, key: string, decode: Value -> Result<X, Error>): Result<Option<X>, Error>
  {
    if key !in fields || fields[key] == Null then Success(None)
    else match decode(fields[key])
      case Success(x) => Success(Some(x))
      case Failure(e) => Failure(e)
  }

  /** A field of type `Value`: any JSON value is accepted as it is. */
  function AnyValue(v: Value): Result<Value, Error>
  {
    Success(v)
  }

  /** The entry an optional field contributes when serialised with
      `skip_serializing_if = "Option::is_none"`. */
  function Skipped<X>(key: string, x: Option<X>, encode: X -> Value): map<string, Value>
  {
    if x.Some? then map[key := encode(x.value)] else map[]
  }

  /* ---------------------------------------------------------------------------- */
  /* JsonRpcVersion                                                                */
  /* ---------------------------------------------------------------------------- */

  /** `JsonRpcVersion` (src/types.rs:5-10): one unit variant, renamed "2.0". */
  datatype JsonRpcVersion = V2

  function EncodeVersion(ver: JsonRpcVersion): Value
  {
    Str("2.0")
  }

  /** The version decodes from exactly one JSON value, its own encoding. */
  function DecodeVersion(v: Value): (r: Result<JsonRpcVersion, Error>)
    ensures r.Success? <==> v == EncodeVersion(V2)
    ensures r.Failure? ==> r.error == Data
  {
    if v == Str("2.0") then Success(V2) else Failure(Data)
  }

  lemma VersionRoundTrip(ver: JsonRpcVersion)
    ensures DecodeVersion(EncodeVersion(ver)) == Success(ver)
  {
  }

  /* ---------------------------------------------------------------------------- */
  /* RequestId and RequestParams                                                   */
  /* ---------------------------------------------------------------------------- */

  /** `RequestId` (src/types.rs:26-31), untagged. */
  datatype RequestId = Number(n: i64) | String(s: string)

  function EncodeId(id: RequestId): Value
  {
    match id
    case Number(n) => Int(n as int)
    case String(s) => Str(s)
  }

  /** `Number` is tried first and takes any integer an `i64` holds; then `String`. */
  function DecodeId(v: Value): (r: Result<RequestId, Error>)
    ensures r.Success? ==> EncodeId(r.value) == v
    ensures r.Failure? <==> (v.Int? && !InI64(v.i)) || v.Null? || v.Bool? || v.Float? || v.Arr? || v.Obj?
  {
    if v.Int? && InI64(v.i) then Success(Number(v.i as i64))
    else if v.Str? then Success(String(v.s))
    else Failure(Data)
  }

  lemma IdRoundTrip(id: RequestId)
    ensures DecodeId(EncodeId(id)) == Success(id)
  {
  }

  /** `RequestParams` (src/types.rs:47-52), untagged. */
  datatype RequestParams = Array(items: seq<Value>) | Object(members: map<string, Value>)

  function EncodeParams(p: RequestParams): Value
  {
    match p
    case Array(items) => Arr(items)
    case Object(members) => Obj(members)
  }

  /** Parameters are exactly the arrays and the objects. */
  function DecodeParams(v: Value): (r: Result<RequestParams, Error>)
    ensures r.Success? <==> v.Arr? || v.Obj?
    ensures r.Success? ==> EncodeParams(r.value) == v
  {
    match v
    case Arr(items) => Success(Array(items))
    case Obj(members) => Success(Object(members))
    case _ => Failure(Data)
  }

  lemma ParamsRoundTrip(p: RequestParams)
    ensures DecodeParams(EncodeParams(p)) == Success(p)
  {
  }

  /* ---------------------------------------------------------------------------- */
  /* RequestObject                                                                 */
  /* ---------------------------------------------------------------------------- */

  /** `RequestObject` (src/types.rs:70-81). `method` is a keyword here, hence `methodName`. */
  datatype RequestObject = RequestObject(
    jsonrpc: JsonRpcVersion,
    methodName: string,
    params: Option<RequestParams>,
    id: Option<RequestId>)

  /** Notifications are the requests without an id (src/lib.rs:102-108). */
  predicate IsNotification(r: RequestObject)
  {
    r.id.None?
  }

  /** Encoding writes `params` and `id` only when they are present. */
  function EncodeRequest(r: RequestObject): (v: Value)
    ensures v.Obj?
    ensures v.fields.Keys ==
      {"jsonrpc", "method"}
      + (if r.params.Some? then {"params"} else {})
      + (if r.id.Some? then {"id"} else {})
  {
    Obj(map["jsonrpc" := EncodeVersion(r.jsonrpc), "method" := Str(r.methodName)]
        + Skipped("params", r.params, EncodeParams)
        + Skipped("id", r.id, EncodeId))
  }

  function DecodeRequest(v: Value): Result<RequestObject, Error>
  {
    if !v.Obj? then Failure(Data)
    else
      var jsonrpc :- Required(v.fields, "jsonrpc", DecodeVersion);
      var methodName :- Required(v.fields, "method", DecodeString);
      var params :- Optional(v.fields, "params", DecodeParams);
      var id :- Optional(v.fields, "id", DecodeId);
      Success(RequestObject(jsonrpc, methodName, params, id))
  }

  /** What each key of an encoded request holds. */
  lemma RequestFields(r: RequestObject)
    ensures var m := EncodeRequest(r).fields;
      && m["jsonrpc"] == Str("2.0") && m["method"] == Str(r.methodName)
      && ("params" in m <==> r.params.Some?) && (r.params.Some? ==> m["params"] == EncodeParams(r.params.value))
      && ("id" in m <==> r.id.Some?) && (r.id.Some? ==> m["id"] == EncodeId(r.id.value))
  {
    var base := map["jsonrpc" := EncodeVersion(r.jsonrpc), "method" := Str(r.methodName)];
    var params := Skipped("params", r.params, EncodeParams);
    var id := Skipped("id", r.id, EncodeId);
    assert EncodeRequest(r).fields == base + params + id;
    assert "params" !in base && "id" !in base && "id" !in params;
    assert "jsonrpc" !in params && "jsonrpc" !in id && "method" !in params && "method" !in id;
  }

  lemma RequestRoundTrip(r: RequestObject)
    ensures DecodeRequest(EncodeRequest(r)) == Success(r)
  {
    var m := EncodeRequest(r).fields;
    RequestFields(r);
    if r.params.Some? {
      ParamsRoundTrip(r.params.value);
    }
    if r.id.Some? {
      IdRoundTrip(r.id.value);
    }
    assert Optional(m, "params", DecodeParams) == Success(r.params);
    assert Optional(m, "id", DecodeId) == Success(r.id);
    assert Required(m, "jsonrpc", DecodeVersion) == Success(V2) && r.jsonrpc == V2;
    assert Required(m, "method", DecodeString) == Success(r.methodName);
  }

  /** A request object without an `id` key, or with `"id": null`, decodes to a
      notification; unknown keys are ignored. */
  lemma MissingOrNullIdIsNotification(fields: map<string, Value>, name: string)
    requires ("id" !in fields || fields["id"] == Null) && "params" !in fields
    ensures var v := Obj(fields["jsonrpc" := Str("2.0")]["method" := Str(name)]);
      DecodeRequest(v) == Success(RequestObject(V2, name, None, None))
  {
    var m := fields["jsonrpc" := Str("2.0")]["method" := Str(name)];
    assert m["jsonrpc"] == Str("2.0") && m["method"] == Str(name);
    assert "params" !in m;
    assert "id" !in m || m["id"] == Null;
  }

  /** Decoding a request keeps only what its encoding writes back: the known keys,
      minus optional ones that were `null`. */
  lemma RequestDecodeNormalises(v: Value, r: RequestObject)
    requires DecodeRequest(v) == Success(r)
    ensures v.Obj? && EncodeRequest(r).fields.Keys <= v.fields.Keys
    ensures forall k :: k in EncodeRequest(r).fields ==> EncodeRequest(r).fields[k] == v.fields[k]
  {
    var m, e := v.fields, EncodeRequest(r).fields;
    RequestFields(r);
    assert DecodeVersion(m["jsonrpc"]) == Success(r.jsonrpc);
    assert DecodeString(m["method"]) == Success(r.methodName);
    if r.params.Some? {
      assert "params" in m && m["params"] != Null && DecodeParams(m["params"]) == Success(r.params.value);
    }
    if r.id.Some? {
      assert "id" in m && m["id"] != Null && DecodeId(m["id"]) == Success(r.id.value);
    }
    forall k | k in e
      ensures k in m && e[k] == m[k]
    {
      assert k == "jsonrpc" || k == "method" || k == "params" || k == "id";
    }
  }

  /* ---------------------------------------------------------------------------- */
  /* ErrorObject                                                                   */
  /* ---------------------------------------------------------------------------- */

  /** `ErrorObject` (src/types.rs:126-134). */
  datatype ErrorObject = ErrorObject(code: ErrorCode, message: string, data: Option<Value>)

  /** The code is a newtype struct: it is written as the bare integer. */
  function EncodeCode(c: ErrorCode): Value
  {
    Int(c.code as int)
  }

  /** A code is any integer an `i32` holds. */
  function DecodeCode(v: Value): (r: Result<ErrorCode, Error>)
    ensures r.Success? <==> v.Int? && InI32(v.i)
    ensures r.Success? ==> EncodeCode(r.value) == v
  {
    if v.Int? && InI32(v.i) then Success(ErrorCode(v.i as i32)) else Failure(Data)
  }

  lemma CodeRoundTrip(c: ErrorCode)
    ensures DecodeCode(EncodeCode(c)) == Success(c)
  {
  }

  function EncodeError(e: ErrorObject): Value
  {
    Obj(map["code" := EncodeCode(e.code), "message" := Str(e.message)]
        + Skipped("data", e.data, (x: Value) => x))
  }

  function DecodeError(v: Value): Result<ErrorObject, Error>
  {
    if !v.Obj? then Failure(Data)
    else
      var code :- Required(v.fields, "code", DecodeCode);
      var message :- Required(v.fields, "message", DecodeString);
      var data :- Optional(v.fields, "data", AnyValue);
      Success(ErrorObject(code, message, data))
  }

  /** The round trip holds for every error object whose `data` is not a present
      `null`. */
  lemma ErrorObjectRoundTrip(e: ErrorObject)
    requires e.data != Some(Null)
    ensures DecodeError(EncodeError(e)) == Success(e)
  {
    var m := EncodeError(e).fields;
    assert m["code"] == EncodeCode(e.code) && m["message"] == Str(e.message);
    if e.data.Some? {
      assert m["data"] == e.data.value;
    } else {
      assert "data" !in m;
    }
  }

  /** `data: Some(Null)` is written as `"data": null`, which reads back as `None`. */
  lemma NullDataIsLost(code: ErrorCode, message: string)
    ensures var e := ErrorObject(code, message, Some(Null));
      DecodeError(EncodeError(e)) == Success(ErrorObject(code, message, None))
  {
    var e := ErrorObject(code, message, Some(Null));
    var m := EncodeError(e).fields;
    assert m["code"] == EncodeCode(code) && m["message"] == Str(message) && m["data"] == Null;
  }

  /* ---------------------------------------------------------------------------- */
  /* ResponseObject                                                                */
  /* ---------------------------------------------------------------------------- */

  /** `ResponseObject` (src/types.rs:97-110), untagged. The `id` of `Err` is
      optional, so it is named `maybeId` here. */
  datatype ResponseObject =
    | Ok(jsonrpc: JsonRpcVersion, result: Value, id: RequestId)
    | Err(jsonrpc: JsonRpcVersion, error: ErrorObject, maybeId: Option<RequestId>)

  /** `Err`'s id has no `skip_serializing_if`: `None` is written as `null`. */
  function EncodeResponse(r: ResponseObject): Value
  {
    match r
    case Ok(jsonrpc, result, id) =>
      Obj(map["jsonrpc" := EncodeVersion(jsonrpc), "result" := result, "id" := EncodeId(id)])
    case Err(jsonrpc, error, maybeId) =>
      Obj(map["jsonrpc" := EncodeVersion(jsonrpc), "error" := EncodeError(error),
              "id" := if maybeId.Some? then EncodeId(maybeId.value) else Null])
  }

  function DecodeOk(v: Value): Result<ResponseObject, Error>
  {
    if !v.Obj? then Failure(Data)
    else
      var jsonrpc :- Required(v.fields, "jsonrpc", DecodeVersion);
      var result :- Required(v.fields, "result", AnyValue);
      var id :- Required(v.fields, "id", DecodeId);
      Success(Ok(jsonrpc, result, id))
  }

  function DecodeErr(v: Value): Result<ResponseObject, Error>
  {
    if !v.Obj? then Failure(Data)
    else
      var jsonrpc :- Required(v.fields, "jsonrpc", DecodeVersion);
      var error :- Required(v.fields, "error", DecodeError);
      var maybeId :- Optional(v.fields, "id", DecodeId);
      Success(Err(jsonrpc, error, maybeId))
  }

  /** The variants are tried in order; when neither matches, the error is `Data`
      ("data did not match any variant"). */
  function DecodeResponse(v: Value): Result<ResponseObject, Error>
  {
    match DecodeOk(v)
    case Success(r) => Success(r)
    case Failure(_) =>
      match DecodeErr(v)
      case Success(r) => Success(r)
      case Failure(_) => Failure(Data)
  }

  /** Which variant a response decodes to is decided by the fields present: `Ok`
      needs `result` and a non-null id, and wins whenever it can be read; `Err`
      needs `error`. */
  lemma ResponseVariantByFields(v: Value)
    ensures DecodeResponse(v).Success? && DecodeResponse(v).value.Ok? ==>
      v.Obj? && "result" in v.fields && "id" in v.fields && v.fields["id"] != Null
    ensures DecodeResponse(v).Success? && DecodeResponse(v).value.Err? ==>
      v.Obj? && "error" in v.fields && DecodeOk(v).Failure?
    ensures DecodeResponse(v).Failure? ==> DecodeOk(v).Failure? && DecodeErr(v).Failure?
  {
    if DecodeOk(v).Success? {
      assert DecodeId(v.fields["id"]).Success?;
    }
  }

  lemma ResponseRoundTrip(r: ResponseObject)
    requires r.Err? ==> r.error.data != Some(Null)
    ensures DecodeResponse(EncodeResponse(r)) == Success(r)
  {
    var m := EncodeResponse(r).fields;
    match r
    case Ok(jsonrpc, result, id) =>
      assert m["jsonrpc"] == Str("2.0") && m["result"] == result && m["id"] == EncodeId(id);
      assert Required(m, "id", DecodeId) == Success(id);
      assert Required(m, "jsonrpc", DecodeVersion) == Success(V2) && jsonrpc == V2;
      assert Required(m, "result", AnyValue) == Success(result);
      assert DecodeOk(Obj(m)) == Success(r);
    case Err(jsonrpc, error, maybeId) =>
      assert m["jsonrpc"] == Str("2.0") && m["error"] == EncodeError(error);
      assert "result" !in m;
      assert DecodeOk(EncodeResponse(r)).Failure?;
      ErrorObjectRoundTrip(error);
      assert Required(m, "error", DecodeError) == Success(error);
      if maybeId.Some? {
        assert m["id"] == EncodeId(maybeId.value) && m["id"] != Null;
      } else {
        assert m["id"] == Null;
      }
      assert Optional(m, "id", DecodeId) == Success(maybeId);
      assert Required(m, "jsonrpc", DecodeVersion) == Success(V2) && jsonrpc == V2;
      assert DecodeErr(Obj(m)) == Success(r);
  }
}
