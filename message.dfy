/**
 * The JSON-RPC message model of the client library: request and response
 * objects (sections 4, 5 and 5.1 of the JSON-RPC 2.0 Specification, with the
 * version tag also allowing "1.0"), the remote error object, the library's
 * three-case error type, and the serialisation and deserialisation rules the
 * derived serde implementations give them.
 */
module Message {
  import opened Wrappers
  import opened SerdeJson

  /** Correlates a request with its response; untagged on the wire. */
  datatype Id = Number(n: Int64) | String(s: string)

  datatype Version = V1 | V2

  datatype Request = Request(id: Id, jsonrpc: Version, methodName: string, params: seq<Json>)

  datatype JsonRpcError = JsonRpcError(code: Int64, message: string)

  /** Flattened into the response object: exactly one of `result` or `error`. */
  datatype ResponsePayload<P> = Result(result: P) | Error(error: JsonRpcError)

  datatype Response<P> = Response(id: Id, jsonrpc: Option<Version>, payload: ResponsePayload<P>)

  /** The library's error: a transport failure, a remote error, or an encode/decode failure. */
  datatype Error<C> = Client(client: C) | JsonRpc(jsonrpc: JsonRpcError) | Serde(serde: SerdeError)

  // ---------------------------------------------------------------------------
  // Requests

  /** `Request::new_v1`. */
  function NewV1(methodName: string, params: seq<Json>): Request
  {
    Request(Id.Number(0), V1, methodName, params)
  }

  /** `Request::new_v2`. */
  function NewV2(methodName: string, params: seq<Json>): Request
  {
    Request(Id.Number(0), V2, methodName, params)
  }

  /**
   * Both constructors use the placeholder id 0 and copy the method name and
   * the positional parameters unchanged; they differ only in the version.
   */
  lemma RequestConstructors(methodName: string, params: seq<Json>)
    ensures NewV1(methodName, params).id == Id.Number(0) && NewV2(methodName, params).id == Id.Number(0)
    ensures NewV1(methodName, params).jsonrpc == V1 && NewV2(methodName, params).jsonrpc == V2
    ensures NewV1(methodName, params).methodName == methodName && NewV2(methodName, params).methodName == methodName
    ensures NewV1(methodName, params).params == params && NewV2(methodName, params).params == params
    ensures NewV1(methodName, params).(jsonrpc := V2) == NewV2(methodName, params)
  {}

  /** The untagged serialisation of an id: a bare number or a bare string. */
  function IdToJson(id: Id): Json
  {
    match id
    case Number(n) => Json.Number(n)
    case String(s) => Str(s)
  }

  /** The renamed variants of `Version`. */
  function VersionText(v: Version): string
  {
    match v
    case V1 => "1.0"
    case V2 => "2.0"
  }

  /** The derived serialisation of a request: its fields in declaration order. */
  function RequestToJson(r: Request): Json
  {
    Object([
      Member("id", IdToJson(r.id)),
      Member("jsonrpc", Str(VersionText(r.jsonrpc))),
      Member("method", Str(r.methodName)),
      Member("params", Array(r.params))
    ])
  }

  /** `serde_json::to_string(&request)`. */
  function SerializeRequest(r: Request): string
  {
    Render(RequestToJson(r))
  }

  /** The wire form of every request: keys `id`, `jsonrpc`, `method`, `params` in that order, params as an array. */
  lemma RequestWireForm(r: Request)
    ensures SerializeRequest(r) ==
      "{\"id\":" + Render(IdToJson(r.id))
      + ",\"jsonrpc\":\"" + VersionText(r.jsonrpc)
      + "\",\"method\":" + Quote(r.methodName)
      + ",\"params\":[" + RenderElems(r.params) + "]}"
  {
    var x, v, m, p := Render(IdToJson(r.id)), VersionText(r.jsonrpc), Quote(r.methodName), RenderElems(r.params);
    RenderObject4(
      Member("id", IdToJson(r.id)), Member("jsonrpc", Str(v)),
      Member("method", Str(r.methodName)), Member("params", Array(r.params)));
    QuotedNames();
    assert RenderMember(Member("id", IdToJson(r.id))) == "\"id\"" + ":" + x;
    assert Render(Str(v)) == "\"" + v + "\"";
    assert RenderMember(Member("jsonrpc", Str(v))) == "\"jsonrpc\"" + ":" + ("\"" + v + "\"");
    assert RenderMember(Member("method", Str(r.methodName))) == "\"method\"" + ":" + m;
    assert RenderMember(Member("params", Array(r.params))) == "\"params\"" + ":" + ("[" + p + "]");
    FlattenRequestText(x, v, m, p);
  }

  /** The member names and version strings of a request contain nothing the writer escapes. */
  lemma QuotedNames()
    ensures Quote("id") == "\"id\"" && Quote("jsonrpc") == "\"jsonrpc\""
    ensures Quote("method") == "\"method\"" && Quote("params") == "\"params\""
    ensures forall v :: Quote(VersionText(v)) == "\"" + VersionText(v) + "\""
  {
    QuotedLeadingNames();
    QuotedTrailingNames();
    forall v { QuotedName(VersionText(v)); }
  }

  lemma QuotedLeadingNames()
    ensures Quote("id") == "\"id\"" && Quote("jsonrpc") == "\"jsonrpc\""
  {
    QuotedName("id");
    QuotedName("jsonrpc");
  }

  lemma QuotedTrailingNames()
    ensures Quote("method") == "\"method\"" && Quote("params") == "\"params\""
  {
    QuotedName("method");
    QuotedName("params");
  }

  lemma QuotedName(s: string)
    requires s in {"id", "jsonrpc", "method", "params", "1.0", "2.0"}
    ensures Quote(s) == "\"" + s + "\""
  {
    QuotePlain(s);
  }

  lemma FlattenRequestText(x: string, v: string, m: string, p: string)
    ensures "{" + ("\"id\"" + ":" + x) + "," + ("\"jsonrpc\"" + ":" + ("\"" + v + "\"")) + "," + ("\"method\"" + ":" + m) + "," + ("\"params\"" + ":" + ("[" + p + "]")) + "}"
      == "{\"id\":" + x + ",\"jsonrpc\":\"" + v + "\",\"method\":" + m + ",\"params\":[" + p + "]}"
  {
    var a := "{" + ("\"id\"" + ":" + x);
    assert a == "{\"id\":" + x;
    var b := a + "," + ("\"jsonrpc\"" + ":" + ("\"" + v + "\""));
    assert b == "{\"id\":" + x + ",\"jsonrpc\":\"" + v + "\"";
    var c := b + "," + ("\"method\"" + ":" + m);
    assert c == "{\"id\":" + x + ",\"jsonrpc\":\"" + v + "\",\"method\":" + m;
    var d := c + "," + ("\"params\"" + ":" + ("[" + p + "]"));
    assert d == "{\"id\":" + x + ",\"jsonrpc\":\"" + v + "\",\"method\":" + m + ",\"params\":[" + p + "]";
  }

  lemma IdWireForm(id: Id)
    ensures id.Number? ==> Render(IdToJson(id)) == Decimal(id.n)
    ensures id.String? ==> Render(IdToJson(id)) == Quote(id.s)
  {}

  /**
   * Ids of different requests never share a wire form: numbers are told apart
   * by their decimal text, strings by their escaped body, and a number never
   * starts with the quote a string starts with.
   */
  lemma IdWireFormInjective(a: Id, b: Id)
    ensures Render(IdToJson(a)) == Render(IdToJson(b)) <==> a == b
  {
    var x, y := Render(IdToJson(a)), Render(IdToJson(b));
    if a.Number? && b.Number? {
      DecimalInjective(a.n, b.n);
    } else if a.String? && b.String? {
      if x == y {
        assert Escape(a.s) == x[1..|x| - 1];
        assert Escape(b.s) == y[1..|y| - 1];
        EscapeRoundTrip(a.s);
        EscapeRoundTrip(b.s);
      }
    } else {
      assert x[0] != y[0];
    }
  }

  /**
   * Every version 2.0 request whose method name contains nothing the writer
   * escapes: id 0, version `"2.0"`, the name verbatim and the parameters in
   * order.
   */
  lemma NewV2Text(m: string, params: seq<Json>)
    requires forall i :: 0 <= i < |m| ==> Plain(m[i])
    ensures SerializeRequest(NewV2(m, params))
      == "{\"id\":0" + ",\"jsonrpc\":\"2.0\"" + ",\"method\":\"" + m + "\"" + ",\"params\":[" + RenderElems(params) + "]}"
  {
    var r := NewV2(m, params);
    var x, v, q, e := Render(IdToJson(r.id)), VersionText(r.jsonrpc), Quote(m), RenderElems(params);
    RequestWireForm(r);
    RequestTextMembers(x, v, q, e);
    assert x == "0";
    IdZeroText(x);
    VersionTwoText(v);
    MethodMemberText(m, q);
    JoinMembers("{\"id\":0", ",\"jsonrpc\":\"2.0\"", m, e);
  }

  /** The request text regrouped member by member. */
  lemma RequestTextMembers(x: string, v: string, m: string, p: string)
    ensures "{\"id\":" + x + ",\"jsonrpc\":\"" + v + "\",\"method\":" + m + ",\"params\":[" + p + "]}"
      == ("{\"id\":" + x) + (",\"jsonrpc\":\"" + v + "\"") + (",\"method\":" + m) + (",\"params\":[" + p + "]}")
  {
    assert "\",\"method\":" == "\"" + ",\"method\":";
  }

  lemma IdZeroText(x: string)
    requires x == "0"
    ensures "{\"id\":" + x == "{\"id\":0"
  {}

  lemma VersionTwoText(v: string)
    requires v == "2.0"
    ensures ",\"jsonrpc\":\"" + v + "\"" == ",\"jsonrpc\":\"2.0\""
  {}

  lemma MethodMemberText(m: string, q: string)
    requires forall i :: 0 <= i < |m| ==> Plain(m[i])
    requires q == Quote(m)
    ensures ",\"method\":" + q == ",\"method\":\"" + m + "\""
  {
    QuotePlain(m);
    assert ",\"method\":" + "\"" == ",\"method\":\"";
  }

  lemma JoinMembers(a: string, b: string, m: string, e: string)
    ensures a + b + (",\"method\":\"" + m + "\"") + (",\"params\":[" + e + "]}")
      == a + b + ",\"method\":\"" + m + "\"" + ",\"params\":[" + e + "]}"
  {}

  /** Two numbers as parameters are written as their decimals separated by a comma. */
  lemma RenderTwoNumbers(a: int, b: int)
    ensures RenderElems([Json.Number(a), Json.Number(b)]) == Decimal(a) + "," + Decimal(b)
  {
    assert RenderElems([Json.Number(b)]) == Decimal(b);
  }

  /** The unit test `serialize_request`. */
  lemma SerializeSubtractRequest()
    ensures SerializeRequest(NewV2("subtract", [Json.Number(42), Json.Number(23)]))
      == "{\"id\":0" + ",\"jsonrpc\":\"2.0\"" + ",\"method\":\"subtract\"" + ",\"params\":[42,23]}"
  {
    var t := "42,23";
    TestRequestText(42, 23, t);
    ParamsText(t);
  }

  /** The bodies of the test requests `subtract(42, 23)` and `subtract(5, 4)`. */
  lemma TestRequestText(a: int, b: int, t: string)
    requires (a == 42 && b == 23 && t == "42,23") || (a == 5 && b == 4 && t == "5,4")
    ensures SerializeRequest(NewV2("subtract", [Json.Number(a), Json.Number(b)]))
      == "{\"id\":0" + ",\"jsonrpc\":\"2.0\"" + ",\"method\":\"subtract\"" + (",\"params\":[" + t + "]}")
  {
    var m, e := "subtract", RenderElems([Json.Number(a), Json.Number(b)]);
    SubtractPlain(m);
    NewV2Text(m, [Json.Number(a), Json.Number(b)]);
    RenderTwoNumbers(a, b);
    assert e == t;
    SubtractMember(m);
  }

  lemma ParamsText(t: string)
    requires t == "42,23" || t == "5,4"
    ensures t == "42,23" ==> ",\"params\":[" + t + "]}" == ",\"params\":[42,23]}"
    ensures t == "5,4" ==> ",\"params\":[" + t + "]}" == ",\"params\":[5,4]}"
  {}

  lemma SubtractPlain(m: string)
    requires m == "subtract"
    ensures forall i :: 0 <= i < |m| ==> Plain(m[i])
  {}

  /** The method member of the `subtract` requests of the tests. */
  lemma SubtractMember(m: string)
    requires m == "subtract"
    ensures ",\"method\":\"" + m + "\"" == ",\"method\":\"subtract\""
  {}

  // ---------------------------------------------------------------------------
  // Responses

  /** `Response::new_v1_result`. */
  function NewV1Result<P>(id: Id, result: P): Response<P>
  {
    Response(id, Some(V1), ResponsePayload.Result(result))
  }

  /** `Response::new_v2_result`. */
  function NewV2Result<P>(id: Id, result: P): Response<P>
  {
    Response(id, Some(V2), ResponsePayload.Result(result))
  }

  /** `Response::new_v1_error`. */
  function NewV1Error<P>(id: Id, error: JsonRpcError): Response<P>
  {
    Response(id, Some(V1), ResponsePayload.Error(error))
  }

  /** `Response::new_v2_error`. */
  function NewV2Error<P>(id: Id, error: JsonRpcError): Response<P>
  {
    Response(id, Some(V2), ResponsePayload.Error(error))
  }

  /** `From<ResponsePayload<P>> for Result<P, JsonRpcError>`. */
  function PayloadToResult<P>(payload: ResponsePayload<P>): Result<P, JsonRpcError>
  {
    match payload
    case Result(result) => Ok(result)
    case Error(e) => Err(e)
  }

  /** The inverse conversion, from a `Result` back to a payload. */
  function ResultToPayload<P>(r: Result<P, JsonRpcError>): ResponsePayload<P>
  {
    match r
    case Ok(result) => ResponsePayload.Result(result)
    case Err(e) => ResponsePayload.Error(e)
  }

  /** Converting a payload to a `Result` is total and loses nothing: a result becomes `Ok`, an error `Err`. */
  lemma PayloadConversionExact<P>(payload: ResponsePayload<P>, r: Result<P, JsonRpcError>)
    ensures payload.Result? ==> PayloadToResult(payload) == Ok(payload.result)
    ensures payload.Error? ==> PayloadToResult(payload) == Err(payload.error)
    ensures ResultToPayload(PayloadToResult(payload)) == payload
    ensures PayloadToResult(ResultToPayload(r)) == r
  {}

  /** The four constructors keep the id, tag the version and put their argument in the matching payload. */
  lemma ResponseConstructors<P>(id: Id, result: P, error: JsonRpcError)
    ensures NewV1Result(id, result).id == id && NewV1Result(id, result).jsonrpc == Some(V1)
    ensures NewV2Result(id, result).id == id && NewV2Result(id, result).jsonrpc == Some(V2)
    ensures NewV1Error<P>(id, error).id == id && NewV1Error<P>(id, error).jsonrpc == Some(V1)
    ensures NewV2Error<P>(id, error).id == id && NewV2Error<P>(id, error).jsonrpc == Some(V2)
    ensures PayloadToResult(NewV1Result(id, result).payload) == Ok(result)
    ensures PayloadToResult(NewV2Result(id, result).payload) == Ok(result)
    ensures PayloadToResult(NewV1Error<P>(id, error).payload) == Err(error)
    ensures PayloadToResult(NewV2Error<P>(id, error).payload) == Err(error)
  {}

  // ---------------------------------------------------------------------------
  // The remote error and the library's error

  const ERROR_DISPLAY_PREFIX: string := "JSON-RPC request failed with code "

  /** The `Display` text of a `JsonRpcError`. */
  function DisplayJsonRpcError(e: JsonRpcError): string
  {
    ERROR_DISPLAY_PREFIX + Decimal(e.code) + ": " + e.message
  }

  /** The position of the first `c` in `s`. */
  function IndexOf(s: string, c: char): (r: Option<nat>)
    ensures r.Some? ==> r.value < |s| && s[r.value] == c && forall j :: 0 <= j < r.value ==> s[j] != c
    ensures r.None? ==> forall j :: 0 <= j < |s| ==> s[j] != c
    decreases |s|
  {
    if s == [] then None
    else if s[0] == c then Some(0)
    else match IndexOf(s[1..], c)
      case None => None
      case Some(k) => Some(k + 1)
  }

  /** Reads a display text back into the error it describes. */
  function ParseJsonRpcErrorDisplay(s: string): Option<JsonRpcError>
  {
    var n := |ERROR_DISPLAY_PREFIX|;
    if |s| < n || s[..n] != ERROR_DISPLAY_PREFIX then None
    else
      var t := s[n..];
      match IndexOf(t, ':')
      case None => None
      case Some(k) =>
        if k + 1 < |t| && t[k + 1] == ' ' then
          match ParseDecimal(t[..k])
          case Some(code) => if I64_MIN <= code <= I64_MAX then Some(JsonRpcError(code, t[k + 2..])) else None
          case None => None
        else None
  }

  /** The display text names the code and the message and determines both. */
  lemma JsonRpcErrorDisplayRoundTrip(e: JsonRpcError)
    ensures ParseJsonRpcErrorDisplay(DisplayJsonRpcError(e)) == Some(e)
  {
    var s := DisplayJsonRpcError(e);
    var n := |ERROR_DISPLAY_PREFIX|;
    var d := Decimal(e.code);
    assert s[..n] == ERROR_DISPLAY_PREFIX;
    var t := s[n..];
    assert t == d + ": " + e.message;
    assert t[|d|] == ':';
    assert forall j :: 0 <= j < |d| ==> t[j] == d[j] && d[j] != ':';
    assert IndexOf(t, ':') == Some(|d|);
    assert t[..|d|] == d;
    assert t[|d| + 2..] == e.message;
    DecimalRoundTrip(e.code);
  }

  lemma JsonRpcErrorDisplayInjective(e1: JsonRpcError, e2: JsonRpcError)
    ensures DisplayJsonRpcError(e1) == DisplayJsonRpcError(e2) <==> e1 == e2
  {
    JsonRpcErrorDisplayRoundTrip(e1);
    JsonRpcErrorDisplayRoundTrip(e2);
  }

  /** `From<serde_json::Error> for Error<C>`. */
  function ErrorFromSerde<C>(e: SerdeError): Error<C>
  {
    Serde(e)
  }

  /** `From<JsonRpcError> for Error<C>`. */
  function ErrorFromJsonRpc<C>(e: JsonRpcError): Error<C>
  {
    JsonRpc(e)
  }

  /** The `dyn Error` that `source` exposes: the wrapped value, whichever case holds it. */
  datatype Cause<C> = ClientCause(client: C) | JsonRpcCause(jsonrpc: JsonRpcError) | SerdeCause(serde: SerdeError)

  /** `Error::source`. */
  function Source<C>(e: Error<C>): Option<Cause<C>>
  {
    match e
    case Client(c) => Some(ClientCause(c))
    case JsonRpc(j) => Some(JsonRpcCause(j))
    case Serde(s) => Some(SerdeCause(s))
  }

  /**
   * The display text of a cause, i.e. the wrapped value's own `Display`, which
   * is what a caller sees through `source`; the transport's and serde_json's
   * texts are given as functions. `DisplayError` is defined case by case as
   * the source does, and `ErrorDelegates` shows the two agree.
   */
  function DisplayCause<C>(cause: Cause<C>, showClient: C -> string, showSerde: SerdeError -> string): string
  {
    match cause
    case ClientCause(c) => showClient(c)
    case JsonRpcCause(j) => DisplayJsonRpcError(j)
    case SerdeCause(s) => showSerde(s)
  }

  /** `Display for Error<C>`. */
  function DisplayError<C>(e: Error<C>, showClient: C -> string, showSerde: SerdeError -> string): string
  {
    match e
    case Client(c) => showClient(c)
    case JsonRpc(j) => DisplayJsonRpcError(j)
    case Serde(s) => showSerde(s)
  }

  /**
   * The conversions are one-to-one and never land in another case; `source`
   * always exposes the wrapped value and `Display` shows exactly that value.
   */
  lemma ErrorConversionsExact<C>(s: SerdeError, s': SerdeError, j: JsonRpcError, j': JsonRpcError)
    ensures ErrorFromSerde<C>(s).Serde? && Source(ErrorFromSerde<C>(s)) == Some(SerdeCause(s))
    ensures ErrorFromJsonRpc<C>(j).JsonRpc? && Source(ErrorFromJsonRpc<C>(j)) == Some(JsonRpcCause(j))
    ensures ErrorFromSerde<C>(s) == ErrorFromSerde<C>(s') <==> s == s'
    ensures ErrorFromJsonRpc<C>(j) == ErrorFromJsonRpc<C>(j') <==> j == j'
  {}

  lemma ErrorDelegates<C>(e: Error<C>, showClient: C -> string, showSerde: SerdeError -> string)
    ensures Source(e).Some?
    ensures DisplayError(e, showClient, showSerde) == DisplayCause(Source(e).value, showClient, showSerde)
    ensures e.Client? ==> Source(e).value == ClientCause(e.client)
    ensures e.JsonRpc? ==> Source(e).value == JsonRpcCause(e.jsonrpc)
    ensures e.Serde? ==> Source(e).value == SerdeCause(e.serde)
  {}

  // ---------------------------------------------------------------------------
  // Decoding

  /** The untagged `Id`: `Number(i64)` is tried first, then `String`. */
  function DecodeId(v: Json): Result<Id, SerdeError>
  {
    match DecodeI64(v)
    case Ok(n) => Ok(Id.Number(n))
    case Err(_) =>
      match DecodeString(v)
      case Ok(s) => Ok(Id.String(s))
      case Err(_) => Err(UntaggedMismatch("Id"))
  }

  /** A bare integer in range is a `Number`, a string is a `String`, anything else fails. */
  lemma IdDecoding(v: Json, id: Id)
    ensures DecodeId(IdToJson(id)) == Ok(id)
    ensures DecodeId(v).Ok? <==> (v.Number? && I64_MIN <= v.n <= I64_MAX) || v.Str?
    ensures v.Number? && I64_MIN <= v.n <= I64_MAX ==> DecodeId(v) == Ok(Id.Number(v.n))
    ensures v.Str? ==> DecodeId(v) == Ok(Id.String(v.s))
    ensures DecodeId(Str("1")) == Ok(Id.String("1")) && DecodeId(Json.Number(1)) == Ok(Id.Number(1))
  {}

  /** A `Version` variant by its renamed name. */
  function VersionNamed(name: string): Result<Version, SerdeError>
  {
    if name == "1.0" then Ok(V1) else if name == "2.0" then Ok(V2) else Err(UnknownVariant(name))
  }

  function DecodeVersion(v: Json): Result<Version, SerdeError>
  {
    match v
    case Str(name) => VersionNamed(name)
    case _ => Err(InvalidType("enum Version"))
  }

  /** `Option<Version>`: `null` is `None`. */
  function DecodeOptionVersion(v: Json): Result<Option<Version>, SerdeError>
  {
    if v.Null? then Ok(None)
    else match DecodeVersion(v)
      case Ok(version) => Ok(Some(version))
      case Err(e) => Err(e)
  }

  lemma VersionDecoding(v: Version, name: string)
    ensures DecodeVersion(Str(VersionText(v))) == Ok(v)
    ensures DecodeVersion(Str(name)).Ok? <==> name == "1.0" || name == "2.0"
    ensures DecodeOptionVersion(Null) == Ok(None)
  {}

  /** The derived visitor of `JsonRpcError`: members in order, unknown keys ignored. */
  function VisitErrorFields(ms: seq<Member>, code: Option<Int64>, message: Option<string>): Result<JsonRpcError, SerdeError>
    decreases |ms|
  {
    if ms == [] then
      if code.None? then Err(MissingField("code"))
      else if message.None? then Err(MissingField("message"))
      else Ok(JsonRpcError(code.value, message.value))
    else if ms[0].key == "code" then
      if code.Some? then Err(DuplicateField("code"))
      else match DecodeI64(ms[0].value)
        case Err(e) => Err(e)
        case Ok(c) => VisitErrorFields(ms[1..], Some(c), message)
    else if ms[0].key == "message" then
      if message.Some? then Err(DuplicateField("message"))
      else match DecodeString(ms[0].value)
        case Err(e) => Err(e)
        case Ok(m) => VisitErrorFields(ms[1..], code, Some(m))
    else VisitErrorFields(ms[1..], code, message)
  }

  function DecodeJsonRpcError(v: Json): Result<JsonRpcError, SerdeError>
  {
    match v
    case Object(ms) => VisitErrorFields(ms, None, None)
    case _ => Err(InvalidType("struct JsonRpcError"))
  }

  /** The derived serialisation of a `JsonRpcError`. */
  function JsonRpcErrorToJson(e: JsonRpcError): Json
  {
    Object([Member("code", Json.Number(e.code)), Member("message", Str(e.message))])
  }

  lemma {:induction false} VisitErrorFieldsSpec(ms: seq<Member>, code: Option<Int64>, message: Option<string>, e: JsonRpcError)
    ensures VisitErrorFields(ms, code, message) == Ok(e) <==>
      && (if code.Some? then KeyCount(ms, "code") == 0 && e.code == code.value
          else KeyCount(ms, "code") == 1 && DecodeI64(Lookup(ms, "code")) == Ok(e.code))
      && (if message.Some? then KeyCount(ms, "message") == 0 && e.message == message.value
          else KeyCount(ms, "message") == 1 && DecodeString(Lookup(ms, "message")) == Ok(e.message))
    decreases |ms|
  {
    if ms != [] {
      var m := ms[0];
      if m.key == "code" {
        if code.None? && DecodeI64(m.value).Ok? {
          VisitErrorFieldsSpec(ms[1..], Some(DecodeI64(m.value).value), message, e);
        }
      } else if m.key == "message" {
        if message.None? && DecodeString(m.value).Ok? {
          VisitErrorFieldsSpec(ms[1..], code, Some(DecodeString(m.value).value), e);
        }
      } else {
        VisitErrorFieldsSpec(ms[1..], code, message, e);
      }
    }
  }

  /**
   * An error object decodes exactly when it has one `code` that is an `i64` and
   * one `message` that is a string, in either order; other members are ignored.
   */
  lemma DecodeJsonRpcErrorSpec(ms: seq<Member>, e: JsonRpcError)
    ensures DecodeJsonRpcError(Object(ms)) == Ok(e) <==>
      && KeyCount(ms, "code") == 1 && DecodeI64(Lookup(ms, "code")) == Ok(e.code)
      && KeyCount(ms, "message") == 1 && DecodeString(Lookup(ms, "message")) == Ok(e.message)
  {
    VisitErrorFieldsSpec(ms, None, None, e);
  }

  lemma JsonRpcErrorRoundTrip(e: JsonRpcError)
    ensures DecodeJsonRpcError(JsonRpcErrorToJson(e)) == Ok(e)
  {
    var ms := JsonRpcErrorToJson(e).members;
    assert VisitErrorFields(ms[2..], Some(e.code), Some(e.message)) == Ok(e);
    assert VisitErrorFields(ms[1..], Some(e.code), None) == Ok(e);
  }

  // ---------------------------------------------------------------------------
  // The flattened payload and the response envelope

  predicate IsPayloadKey(k: string) { k == "result" || k == "error" }

  predicate HasPayloadKey(ms: seq<Member>)
  {
    exists i :: 0 <= i < |ms| && IsPayloadKey(ms[i].key)
  }

  /** The variant a payload member names, with its content decoded. */
  function DecodeVariant<P>(m: Member, decP: Json -> Result<P, SerdeError>): Result<ResponsePayload<P>, SerdeError>
    requires IsPayloadKey(m.key)
  {
    if m.key == "result" then
      match decP(m.value)
      case Ok(p) => Ok(ResponsePayload.Result(p))
      case Err(e) => Err(e)
    else
      match DecodeJsonRpcError(m.value)
      case Ok(e) => Ok(ResponsePayload.Error(e))
      case Err(e) => Err(e)
  }

  /**
   * The flattened `ResponsePayload`: the collected members are searched in
   * order and the first whose key names a variant decides it.
   */
  function DecodePayload<P>(collected: seq<Member>, decP: Json -> Result<P, SerdeError>): Result<ResponsePayload<P>, SerdeError>
    decreases |collected|
  {
    if collected == [] then Err(NoFlattenedVariant("ResponsePayload"))
    else if IsPayloadKey(collected[0].key) then DecodeVariant(collected[0], decP)
    else DecodePayload(collected[1..], decP)
  }

  /** Without a `result` or `error` member the payload fails; otherwise the first one decides. */
  lemma {:induction false} DecodePayloadFirst<P>(ms: seq<Member>, decP: Json -> Result<P, SerdeError>, i: nat)
    ensures !HasPayloadKey(ms) ==> DecodePayload(ms, decP) == Err(NoFlattenedVariant("ResponsePayload"))
    ensures i < |ms| && IsPayloadKey(ms[i].key) && (forall j :: 0 <= j < i ==> !IsPayloadKey(ms[j].key)) ==>
      DecodePayload(ms, decP) == DecodeVariant(ms[i], decP)
    decreases |ms|
  {
    if ms != [] {
      if !IsPayloadKey(ms[0].key) {
        DecodePayloadFirst(ms[1..], decP, if i == 0 then 0 else i - 1);
        if !HasPayloadKey(ms) {
          assert !HasPayloadKey(ms[1..]) by {
            forall j | 0 <= j < |ms[1..]| ensures !IsPayloadKey(ms[1..][j].key) {
              assert ms[1..][j] == ms[j + 1];
            }
          }
        }
        if i < |ms| && IsPayloadKey(ms[i].key) && (forall j :: 0 <= j < i ==> !IsPayloadKey(ms[j].key)) {
          assert i > 0;
          assert ms[1..][i - 1] == ms[i];
          assert forall j :: 0 <= j < i - 1 ==> ms[1..][j] == ms[j + 1];
        }
      } else {
        assert HasPayloadKey(ms);
      }
    }
  }

  /** The payload of a concatenation comes from its first part when that part names a variant. */
  lemma {:induction false} DecodePayloadAppend<P>(a: seq<Member>, b: seq<Member>, decP: Json -> Result<P, SerdeError>)
    ensures DecodePayload(a + b, decP) == if HasPayloadKey(a) then DecodePayload(a, decP) else DecodePayload(b, decP)
    decreases |a|
  {
    if a == [] {
      assert a + b == b;
    } else {
      assert (a + b)[0] == a[0];
      assert (a + b)[1..] == a[1..] + b;
      DecodePayloadAppend(a[1..], b, decP);
      if !IsPayloadKey(a[0].key) {
        assert HasPayloadKey(a) <==> HasPayloadKey(a[1..]) by {
          if HasPayloadKey(a) {
            var i :| 0 <= i < |a| && IsPayloadKey(a[i].key);
            assert a[1..][i - 1] == a[i];
          }
          if HasPayloadKey(a[1..]) {
            var i :| 0 <= i < |a[1..]| && IsPayloadKey(a[1..][i].key);
            assert a[i + 1] == a[1..][i];
          }
        }
      } else {
        assert HasPayloadKey(a);
      }
    }
  }

  /** The members other than `id` and `jsonrpc`: the ones the derived visitor collects for the flattened field. */
  function Others(ms: seq<Member>): (r: seq<Member>)
    ensures |r| <= |ms|
    ensures forall i :: 0 <= i < |r| ==> r[i].key != "id" && r[i].key != "jsonrpc"
    decreases |ms|
  {
    if ms == [] then []
    else if ms[0].key == "id" || ms[0].key == "jsonrpc" then Others(ms[1..])
    else [ms[0]] + Others(ms[1..])
  }

  /** Dropping `id` and `jsonrpc` does not change which payload member comes first. */
  lemma {:induction false} DecodePayloadOthers<P>(ms: seq<Member>, decP: Json -> Result<P, SerdeError>)
    ensures DecodePayload(Others(ms), decP) == DecodePayload(ms, decP)
    decreases |ms|
  {
    if ms != [] {
      DecodePayloadOthers(ms[1..], decP);
      if !(ms[0].key == "id" || ms[0].key == "jsonrpc") {
        assert ([ms[0]] + Others(ms[1..]))[1..] == Others(ms[1..]);
      }
    }
  }

  /**
   * The derived visitor of `Response<P>`: `id` and `jsonrpc` are decoded when
   * met, a second occurrence of either is an error, and every other member is
   * collected for the flattened payload.
   */
  function VisitResponse<P>(ms: seq<Member>, id: Option<Id>, jsonrpc: Option<Option<Version>>,
                            collected: seq<Member>, decP: Json -> Result<P, SerdeError>): Result<Response<P>, SerdeError>
    decreases |ms|
  {
    if ms == [] then
      if id.None? then Err(MissingField("id"))
      else
        var version := if jsonrpc.Some? then jsonrpc.value else None;
        match DecodePayload(collected, decP)
        case Err(e) => Err(e)
        case Ok(payload) => Ok(Response(id.value, version, payload))
    else if ms[0].key == "id" then
      if id.Some? then Err(DuplicateField("id"))
      else match DecodeId(ms[0].value)
        case Err(e) => Err(e)
        case Ok(i) => VisitResponse(ms[1..], Some(i), jsonrpc, collected, decP)
    else if ms[0].key == "jsonrpc" then
      if jsonrpc.Some? then Err(DuplicateField("jsonrpc"))
      else match DecodeOptionVersion(ms[0].value)
        case Err(e) => Err(e)
        case Ok(v) => VisitResponse(ms[1..], id, Some(v), collected, decP)
    else VisitResponse(ms[1..], id, jsonrpc, collected + [ms[0]], decP)
  }

  /** `Response::<P>::deserialize`, with `decP` the deserializer of `P`. */
  function DecodeResponse<P>(v: Json, decP: Json -> Result<P, SerdeError>): Result<Response<P>, SerdeError>
  {
    match v
    case Object(ms) => VisitResponse(ms, None, None, [], decP)
    case _ => Err(InvalidType("struct Response"))
  }

  /** What a well-formed envelope says: one `id`, at most one `jsonrpc`, and a payload. */
  ghost predicate Describes<P>(ms: seq<Member>, decP: Json -> Result<P, SerdeError>, r: Response<P>)
  {
    && KeyCount(ms, "id") == 1 && DecodeId(Lookup(ms, "id")) == Ok(r.id)
    && (if KeyCount(ms, "jsonrpc") == 0 then r.jsonrpc == None
        else KeyCount(ms, "jsonrpc") == 1 && DecodeOptionVersion(Lookup(ms, "jsonrpc")) == Ok(r.jsonrpc))
    && DecodePayload(ms, decP) == Ok(r.payload)
  }

  lemma {:induction false} VisitResponseSpec<P>(ms: seq<Member>, id: Option<Id>, jsonrpc: Option<Option<Version>>,
                                                collected: seq<Member>, decP: Json -> Result<P, SerdeError>, r: Response<P>)
    ensures VisitResponse(ms, id, jsonrpc, collected, decP) == Ok(r) <==>
      && (if id.Some? then KeyCount(ms, "id") == 0 && r.id == id.value
          else KeyCount(ms, "id") == 1 && DecodeId(Lookup(ms, "id")) == Ok(r.id))
      && (if jsonrpc.Some? then KeyCount(ms, "jsonrpc") == 0 && r.jsonrpc == jsonrpc.value
          else if KeyCount(ms, "jsonrpc") == 0 then r.jsonrpc == None
          else KeyCount(ms, "jsonrpc") == 1 && DecodeOptionVersion(Lookup(ms, "jsonrpc")) == Ok(r.jsonrpc))
      && DecodePayload(collected + Others(ms), decP) == Ok(r.payload)
    decreases |ms|
  {
    if ms == [] {
      assert collected + Others(ms) == collected;
    } else {
      var m := ms[0];
      if m.key == "id" {
        if id.None? && DecodeId(m.value).Ok? {
          VisitResponseSpec(ms[1..], Some(DecodeId(m.value).value), jsonrpc, collected, decP, r);
        }
      } else if m.key == "jsonrpc" {
        if jsonrpc.None? && DecodeOptionVersion(m.value).Ok? {
          VisitResponseSpec(ms[1..], id, Some(DecodeOptionVersion(m.value).value), collected, decP, r);
        }
      } else {
        VisitResponseSpec(ms[1..], id, jsonrpc, collected + [m], decP, r);
        assert (collected + [m]) + Others(ms[1..]) == collected + Others(ms);
      }
    }
  }

  /**
   * A response object decodes to `r` exactly when it has one `id` decoding to
   * `r.id`, at most one `jsonrpc` (absent meaning `None`), and its first
   * `result` or `error` member decodes to `r.payload`, wherever these appear
   * among the members.
   */
  lemma DecodeResponseSpec<P>(ms: seq<Member>, decP: Json -> Result<P, SerdeError>, r: Response<P>)
    ensures DecodeResponse(Object(ms), decP) == Ok(r) <==> Describes(ms, decP, r)
  {
    VisitResponseSpec(ms, None, None, [], decP, r);
    assert [] + Others(ms) == Others(ms);
    DecodePayloadOthers(ms, decP);
  }

  /** An object with neither `id` nor `jsonrpc` fails for the missing `id`. */
  lemma {:induction false} MissingIdReported<P>(ms: seq<Member>, collected: seq<Member>, decP: Json -> Result<P, SerdeError>)
    requires KeyCount(ms, "id") == 0 && KeyCount(ms, "jsonrpc") == 0
    ensures VisitResponse(ms, None, None, collected, decP) == Err(MissingField("id"))
    decreases |ms|
  {
    if ms != [] {
      MissingIdReported(ms[1..], collected + [ms[0]], decP);
    }
  }

  /**
   * Swapping two neighbouring members never changes what a response decodes
   * to, unless both of them name a payload variant.
   */
  lemma DecodeResponseSwap<P>(a: seq<Member>, m1: Member, m2: Member, b: seq<Member>,
                              decP: Json -> Result<P, SerdeError>, r: Response<P>)
    requires !(IsPayloadKey(m1.key) && IsPayloadKey(m2.key))
    ensures DecodeResponse(Object(a + [m1, m2] + b), decP) == Ok(r) <==>
            DecodeResponse(Object(a + [m2, m1] + b), decP) == Ok(r)
  {
    var x, y := a + [m1, m2] + b, a + [m2, m1] + b;
    DecodeResponseSpec(x, decP, r);
    DecodeResponseSpec(y, decP, r);
    SwapKeys(a, m1, m2, b, "id");
    SwapKeys(a, m1, m2, b, "jsonrpc");
    SwapPayload(a, m1, m2, b, decP);
  }

  lemma SwapKeys(a: seq<Member>, m1: Member, m2: Member, b: seq<Member>, k: string)
    ensures KeyCount(a + [m1, m2] + b, k) == KeyCount(a + [m2, m1] + b, k)
    ensures KeyCount(a + [m1, m2] + b, k) == 1 ==> Lookup(a + [m1, m2] + b, k) == Lookup(a + [m2, m1] + b, k)
  {
    KeyCountAppend(a, [m1, m2], k);
    KeyCountAppend(a + [m1, m2], b, k);
    KeyCountAppend(a, [m2, m1], k);
    KeyCountAppend(a + [m2, m1], b, k);
    KeyCountAppend([m1], [m2], k);
    KeyCountAppend([m2], [m1], k);
    assert [m1] + [m2] == [m1, m2];
    assert [m2] + [m1] == [m2, m1];
  }

  lemma SwapPayload<P>(a: seq<Member>, m1: Member, m2: Member, b: seq<Member>, decP: Json -> Result<P, SerdeError>)
    requires !(IsPayloadKey(m1.key) && IsPayloadKey(m2.key))
    ensures DecodePayload(a + [m1, m2] + b, decP) == DecodePayload(a + [m2, m1] + b, decP)
  {
    DecodePayloadAppend(a, [m1, m2], decP);
    DecodePayloadAppend(a + [m1, m2], b, decP);
    DecodePayloadAppend(a, [m2, m1], decP);
    DecodePayloadAppend(a + [m2, m1], b, decP);
    HasPayloadAppend(a, [m1, m2]);
    HasPayloadAppend(a, [m2, m1]);
    assert HasPayloadKey([m1, m2]) <==> HasPayloadKey([m2, m1]) by {
      if HasPayloadKey([m1, m2]) {
        var i :| 0 <= i < 2 && IsPayloadKey([m1, m2][i].key);
        assert [m2, m1][1 - i] == [m1, m2][i];
      }
      if HasPayloadKey([m2, m1]) {
        var i :| 0 <= i < 2 && IsPayloadKey([m2, m1][i].key);
        assert [m1, m2][1 - i] == [m2, m1][i];
      }
    }
    assert [m1, m2][1..] == [m2];
    assert [m2, m1][1..] == [m1];
  }

  lemma HasPayloadAppend(a: seq<Member>, b: seq<Member>)
    ensures HasPayloadKey(a + b) <==> HasPayloadKey(a) || HasPayloadKey(b)
  {
    if HasPayloadKey(a + b) {
      var i :| 0 <= i < |a + b| && IsPayloadKey((a + b)[i].key);
      if i < |a| { assert a[i] == (a + b)[i]; } else { assert b[i - |a|] == (a + b)[i]; }
    }
    if HasPayloadKey(a) {
      var i :| 0 <= i < |a| && IsPayloadKey(a[i].key);
      assert (a + b)[i] == a[i];
    }
    if HasPayloadKey(b) {
      var i :| 0 <= i < |b| && IsPayloadKey(b[i].key);
      assert (a + b)[|a| + i] == b[i];
    }
  }

  // ---------------------------------------------------------------------------
  // Encoding a response

  /** The version member of a response: `null` for `None`. */
  function OptionVersionToJson(v: Option<Version>): Json
  {
    match v
    case None => Null
    case Some(version) => Str(VersionText(version))
  }

  /**
   * `Response::<P>::serialize`, with `encP` the serializer of `P`: `id`,
   * `jsonrpc` and then the payload's variant as a member of the same object.
   */
  function EncodeResponse<P>(r: Response<P>, encP: P -> Result<Json, SerdeError>): Result<Json, SerdeError>
  {
    var head := [Member("id", IdToJson(r.id)), Member("jsonrpc", OptionVersionToJson(r.jsonrpc))];
    match r.payload
    case Result(p) =>
      (match encP(p)
       case Err(e) => Err(e)
       case Ok(v) => Ok(Object(head + [Member("result", v)])))
    case Error(e) => Ok(Object(head + [Member("error", JsonRpcErrorToJson(e))]))
  }

  /** An encoded response decodes back to itself whenever its result does. */
  lemma ResponseRoundTrip<P>(r: Response<P>, encP: P -> Result<Json, SerdeError>, decP: Json -> Result<P, SerdeError>)
    requires r.payload.Result? ==> encP(r.payload.result).Ok? && decP(encP(r.payload.result).value) == Ok(r.payload.result)
    ensures EncodeResponse(r, encP).Ok?
    ensures DecodeResponse(EncodeResponse(r, encP).value, decP) == Ok(r)
  {
    var ms := EncodeResponse(r, encP).value.members;
    assert ms[0] == Member("id", IdToJson(r.id)) && ms[1] == Member("jsonrpc", OptionVersionToJson(r.jsonrpc));
    assert |ms| == 3;
    var last := ms[2];
    IdDecoding(Null, r.id);
    assert DecodeOptionVersion(OptionVersionToJson(r.jsonrpc)) == Ok(r.jsonrpc) by {
      if r.jsonrpc.Some? { VersionDecoding(r.jsonrpc.value, ""); }
    }
    if r.payload.Error? {
      JsonRpcErrorRoundTrip(r.payload.error);
    }
    assert DecodePayload([last], decP) == Ok(r.payload);
    assert VisitResponse(ms[2..], Some(r.id), Some(r.jsonrpc), [], decP) == Ok(r);
    assert VisitResponse(ms[1..], Some(r.id), None, [], decP) == Ok(r);
  }

  // ---------------------------------------------------------------------------
  // The unit tests of the message model

  /** The unit test `deserialize_error_response`: `jsonrpc`, then `error`, then `id`. */
  lemma DeserializeErrorResponse()
    ensures DecodeResponse(Object([
              Member("jsonrpc", Str("2.0")),
              Member("error", Object([Member("code", Json.Number(-32601)), Member("message", Str("Method not found"))])),
              Member("id", Str("1"))]), DecodeUnit)
            == Ok(NewV2Error(Id.String("1"), JsonRpcError(-32601, "Method not found")))
  {
    var e := JsonRpcError(-32601, "Method not found");
    JsonRpcErrorRoundTrip(e);
    var err := Member("error", JsonRpcErrorToJson(e));
    DecodeAfterIdLast(Member("jsonrpc", Str("2.0")), err, Str("1"), DecodeUnit);
    assert DecodeVariant(err, DecodeUnit) == Ok(ResponsePayload.Error(e));
  }

  /** The unit test `deserialize_success_response`: `jsonrpc`, then `result`, then `id`. */
  lemma DeserializeSuccessResponse()
    ensures DecodeResponse(Object([
              Member("jsonrpc", Str("2.0")), Member("result", Json.Number(19)), Member("id", Json.Number(1))]), DecodeI32)
            == Ok(NewV2Result(Id.Number(1), 19))
  {
    var res := Member("result", Json.Number(19));
    DecodeAfterIdLast(Member("jsonrpc", Str("2.0")), res, Json.Number(1), DecodeI32);
    assert DecodeVariant(res, DecodeI32) == Ok(ResponsePayload.Result(19));
  }

  /** The shape both unit tests share: a version, one payload member and the `id` last. */
  lemma DecodeAfterIdLast<P>(version: Member, payload: Member, id: Json, decP: Json -> Result<P, SerdeError>)
    requires version == Member("jsonrpc", Str("2.0")) && IsPayloadKey(payload.key)
    requires DecodeId(id).Ok? && DecodeVariant(payload, decP).Ok?
    ensures DecodeResponse(Object([version, payload, Member("id", id)]), decP)
            == Ok(Response(DecodeId(id).value, Some(V2), DecodeVariant(payload, decP).value))
  {
    var ms := [version, payload, Member("id", id)];
    VersionDecoding(V2, "");
    assert DecodePayload([payload], decP) == DecodeVariant(payload, decP);
    assert VisitResponse(ms[2..], None, Some(Some(V2)), [payload], decP)
        == Ok(Response(DecodeId(id).value, Some(V2), DecodeVariant(payload, decP).value));
    assert ms[1..][0] == payload && ms[1..][1..] == ms[2..];
    assert payload.key != "id" && payload.key != "jsonrpc";
    assert [] + [payload] == [payload];
    assert VisitResponse(ms[1..], None, Some(Some(V2)), [], decP) == VisitResponse(ms[2..], None, Some(Some(V2)), [payload], decP);
  }

  /** With both `error` and `result` present the first of them decides. */
  lemma FirstPayloadMemberWins(id: Json, e: JsonRpcError, result: Json)
    requires DecodeId(id).Ok?
    ensures DecodeResponse(Object([Member("error", JsonRpcErrorToJson(e)), Member("result", result), Member("id", id)]), DecodeI32)
            == Ok(Response(DecodeId(id).value, None, ResponsePayload.Error(e)))
  {
    var ms := [Member("error", JsonRpcErrorToJson(e)), Member("result", result), Member("id", id)];
    JsonRpcErrorRoundTrip(e);
    var r := Response(DecodeId(id).value, None, ResponsePayload.Error(e));
    DecodeResponseSpec(ms, DecodeI32, r);
    assert ms[1..][1..] == ms[2..] == [Member("id", id)];
    assert KeyCount(ms[2..], "id") == 1 && KeyCount(ms[2..], "jsonrpc") == 0;
    assert KeyCount(ms[1..], "id") == 1 && KeyCount(ms[1..], "jsonrpc") == 0;
    assert KeyCount(ms, "id") == 1 && KeyCount(ms, "jsonrpc") == 0;
    assert Lookup(ms[1..], "id") == id;
    assert Lookup(ms, "id") == id;
  }
}
