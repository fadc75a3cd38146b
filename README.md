# jsonrpc-client: message model and binding macros, in Dafny

This project models the protocol-and-binding layer of the Rust crate
`jsonrpc-client` and proves properties of the model. The layer has two parts.

* The message model (`lib/src/lib.rs`) covers the JSON-RPC request and response
  objects (JSON-RPC 2.0 Specification, section 4 "Request object", section 5
  "Response object" and section 5.1 "Error object", with a `1.0` version tag
  as well). It includes the error type `JsonRpcError` and its display text, and
  the library's three-case error `Error<C>`.
* The two attribute macros (`macro/src/lib.rs`):
  * `api` turns a trait of method signatures into a trait whose methods build a
    version 2.0 request, send it and unwrap the response.
  * `implement` chooses the field of a client struct that holds the transport,
    and generates `send_request` over that field and `self.base_url`.

Files:

* `wrappers.dfy`: `Option` and `Result`.
* `serde_json.dfy`: the part of serde_json the crate relies on. This is
  serde_json's behaviour as the crate uses it, not the crate's own code:
  * JSON values, with objects as member lists in document order;
  * the compact writer, with the escaping rules of `serde_json::to_string`;
  * an unescaper that inverts the writer's escaping, and decimal parsing that
    inverts the decimal writer, from which distinct ids get distinct wire forms;
  * the decoders of `i64`, `i32`, `String` and `()`, with serde's error kinds.
* `message.dfy`: `Id`, `Version`, `Request`, `Response<P>`, `ResponsePayload<P>`,
  `JsonRpcError` and `Error<C>`. It has the constructors, the conversions, the
  `Display` and `source` functions, request serialisation, and the derived
  decoders and encoder of `Response<P>`. The decoders follow
  `#[serde(flatten)]` and `#[serde(untagged)]`.
* `syntax.dfy`: the `syn` syntax trees the macros inspect, namely trait items,
  signatures, argument patterns, fields, attributes and `Meta`.
* `binding.dfy`: `make_new_trait` and `api`. It also has `Invoke`, which is what
  a generated method does when called. `Invoke` is parameterised by:
  * the outcome of `serde_json::to_value` for each argument;
  * the request serializer;
  * `send_request`.
* `field_resolution.dfy`: `make_api_impl` and `implement`. It also has what the
  generated `send_request` does for a given transport function.
* `scenarios.dfy`: the integration tests of `lib/tests/macros.rs` and of the
  compile-failure tests, stated over the model.

Where the code and its tests disagree, the model follows the code.

* `lib/tests/macros.rs:128-142` expects `api(version = "1.0")` to send
  `"jsonrpc":"1.0"`. However, `api` never reads its attribute
  (`macro/src/lib.rs:9`) and always calls `Request::new_v2`
  (`macro/src/lib.rs:82`). `Scenarios.SubtractCallV1SendsV2` proves that the
  body carries `"2.0"` and is not the one that test expects.
* The response envelope carries no synthetic error for a malformed payload, and
  the error object has no `data` field. When both `result` and `error` are
  present, the first one decides, as the flattened enum decoder does. When
  neither is present, decoding fails with serde's "no variant found in
  flattened data" error.

## Model

| member | source | states |
|---|---|---|
| Message.RequestConstructors | lib/src/lib.rs:34-52 | `new_v1`/`new_v2` set id `Number(0)`, version V1/V2, keep the method name and the params unchanged and in order; the two differ only in version |
| Message.RequestWireForm | lib/src/lib.rs:26-32 | a request serialises to an object with keys `id`, `jsonrpc`, `method`, `params` in that order, the version as `"1.0"`/`"2.0"`, the method quoted and the params as an array |
| Message.IdWireForm | lib/src/lib.rs:11-16 | an untagged id renders as a bare decimal number or as a quoted string |
| Message.IdWireFormInjective | lib/src/lib.rs:11-16 | two ids have the same wire form exactly when they are equal: a number is never written like a string, and neither decimals nor escaped strings collide |
| Message.NewV2Text | lib/src/lib.rs:26-51 | a `new_v2` request whose method name needs no escaping is written as `{"id":0,"jsonrpc":"2.0","method":"<name>","params":[<params>]}` with the name verbatim and the parameters in order |
| Message.SerializeSubtractRequest | lib/src/lib.rs:227-237 | `new_v2("subtract", [42, 23])` serialises to exactly `{"id":0,"jsonrpc":"2.0","method":"subtract","params":[42,23]}` |
| Message.ResponseConstructors | lib/src/lib.rs:62-92 | the four constructors keep the id, set `Some(V1)`/`Some(V2)`, and their payload converts to `Ok(result)` or `Err(error)` |
| Message.PayloadConversionExact | lib/src/lib.rs:102-109 | payload to `Result` is total and exact (`Result(x)` to `Ok(x)`, `Error(e)` to `Err(e)`) and is inverted by `ResultToPayload` both ways round |
| Message.JsonRpcErrorDisplayRoundTrip | lib/src/lib.rs:117-125 | the text `JSON-RPC request failed with code {code}: {message}` parses back to the same code and message |
| Message.JsonRpcErrorDisplayInjective | lib/src/lib.rs:117-125 | two errors display alike exactly when they are equal |
| Message.ErrorConversionsExact | lib/src/lib.rs:149-172 | the `From` conversions are one-to-one, a serde error lands only in `Serde` and a `JsonRpcError` only in `JsonRpc`, and `source` exposes the converted value |
| Message.ErrorDelegates | lib/src/lib.rs:136-172 | `source` is never empty, and `Display` shows exactly the value `source` exposes, case for case |
| Message.IdDecoding | lib/src/lib.rs:11-16 | an id decodes exactly from an in-range integer (to `Number`) or a string (to `String`), `"1"` to `String("1")` and `1` to `Number(1)`, and every id decodes back from its encoding |
| Message.VersionDecoding | lib/src/lib.rs:18-24 | a version decodes exactly from `"1.0"` or `"2.0"`, inverts `VersionText`, and `null` is an absent version |
| Message.VisitErrorFieldsSpec | lib/src/lib.rs:111-115 | the error-object visitor succeeds exactly when each of `code` and `message` occurs once (or was already seen), with an `i64` and a string value |
| Message.DecodeJsonRpcErrorSpec | lib/src/lib.rs:111-115 | an error object decodes to `e` exactly when it has one `code` with value `e.code` and one `message` with value `e.message`, in any order, other members ignored |
| Message.JsonRpcErrorRoundTrip | lib/src/lib.rs:111-115 | the serialised error object decodes back to the same error |
| Message.DecodePayloadFirst | lib/src/lib.rs:95-100 | the flattened payload fails without a `result` or `error` member, and otherwise is decided by the first such member |
| Message.DecodePayloadAppend | lib/src/lib.rs:58-59 | the payload of a concatenation comes from the first part whenever that part names a variant |
| Message.DecodePayloadOthers | lib/src/lib.rs:54-60 | removing the `id` and `jsonrpc` members does not change the payload decoded |
| Message.VisitResponseSpec | lib/src/lib.rs:54-60 | the envelope visitor from any intermediate state succeeds exactly when `id` and `jsonrpc` each occur at most once in total, `id` at least once, and the collected members decode to the payload |
| Message.DecodeResponseSpec | lib/src/lib.rs:54-60 | a response object decodes to `r` exactly when it has one `id` decoding to `r.id`, at most one `jsonrpc` (missing meaning `None`) and its first `result`/`error` member decodes to `r.payload` |
| Message.MissingIdReported | lib/src/lib.rs:54-57 | an object with neither `id` nor `jsonrpc` fails with the missing-field error for `id` |
| Message.DecodeResponseSwap | lib/src/lib.rs:54-60 | swapping two neighbouring members never changes the decoded response unless both are payload members, so the field order does not matter |
| Message.ResponseRoundTrip | lib/src/lib.rs:54-60 | every response whose result round-trips through its encoder encodes and decodes back to itself |
| Message.DeserializeErrorResponse | lib/src/lib.rs:200-216 | `{"jsonrpc":"2.0","error":{"code":-32601,"message":"Method not found"},"id":"1"}` decodes to `new_v2_error(String("1"), {-32601, "Method not found"})` |
| Message.DeserializeSuccessResponse | lib/src/lib.rs:218-225 | `{"jsonrpc":"2.0","result":19,"id":1}` decodes as `Response<i32>` to `new_v2_result(Number(1), 19)` |
| Message.FirstPayloadMemberWins | lib/src/lib.rs:95-100 | with `error` before `result`, the error decides the payload and the absent `jsonrpc` is `None` |
| Binding.CollectMethods | macro/src/lib.rs:29-35 | succeeds exactly when every trait item is a method, then lists those methods in order; fails only with "trait must only define methods" |
| Binding.MakeMethod | macro/src/lib.rs:37-45 | a method is refused exactly when it already has a default body, with "trait method must not have a default implementation already" |
| Binding.MakeMethods | macro/src/lib.rs:37-91 | succeeds exactly when no method has a default body, keeping one generated method per method, in order |
| Binding.MakeNewTraitSpec | macro/src/lib.rs:24-103 | a trait is bound exactly when every item is a method without a body; a non-method item is reported before any default body; a bound trait keeps its name and maps each method to one with the same name and inputs, the declared return type (unit when none) and the argument names |
| Binding.ApiIgnoresAttribute | macro/src/lib.rs:8-14 | the `api` attribute's arguments never change the expansion |
| Binding.ArgumentNamesAppend | macro/src/lib.rs:52-61 | argument names distribute over concatenation, so they keep declaration order |
| Binding.ArgumentNamesSingle | macro/src/lib.rs:52-61 | one input contributes its name exactly when it is a typed identifier pattern; the receiver and other patterns contribute nothing |
| Binding.BoundValues | macro/src/lib.rs:52-81 | as many values are sent as there are argument names |
| Binding.BoundValuesAppend | macro/src/lib.rs:52-81 | the values sent distribute over concatenation of the inputs, so each argument's value is sent at its argument's position, in declaration order |
| Binding.BoundValuesSingle | macro/src/lib.rs:52-81 | a single input sends its value exactly when it is a typed identifier; the receiver takes and sends no value, another pattern sends nothing |
| Binding.BoundValuesAllNamed | macro/src/lib.rs:52-81 | when every input is the receiver or a typed identifier, as in every method that calls `self.send_request`, all argument values are sent, in order |
| Binding.EncodeAll | macro/src/lib.rs:74-81 | the parameters are the encoded values in order if all encodings succeed; otherwise the error is that of the first failing argument |
| Binding.InvokeRouting | macro/src/lib.rs:79-89 | an encoding or serialisation failure becomes `Serde` carrying that error, and the transport is not called; a transport failure becomes `Client`; a remote error becomes `JsonRpc`; a result is returned unchanged; the request is `new_v2` named after the method |
| Binding.SentBodyStd | macro/src/lib.rs:81-83 | with the library's serializer and arguments that all encode, the body sent is the serialised `new_v2` request carrying the parameters |
| FieldResolution.FindFirst | macro/src/lib.rs:126-147 | `enumerate().find`: the least index satisfying the predicate, or none exactly when no field does |
| FieldResolution.FirstAttr | macro/src/lib.rs:127-130 | the first attribute whose path is exactly the given identifier, or none exactly when there is none |
| FieldResolution.ChooseFieldSpec | macro/src/lib.rs:111-156 | an empty struct is refused; a single field is used at index 0 whatever its name; with several, it succeeds exactly when some field is tagged or named `inner`, choosing the first tagged field and else the first named one, and otherwise fails with the `inner` message |
| FieldResolution.PreferredUnique | macro/src/lib.rs:126-155 | the preference policy picks a single field |
| FieldResolution.MakeApiImplSpec | macro/src/lib.rs:105-180 | a successful expansion keeps the struct and trait path, uses the chosen field's type, reaches it by name if it has one and by index otherwise, and reads the endpoint from `base_url`; the only failures are the two messages |
| FieldResolution.Resolve | macro/src/lib.rs:161-168 | an access by name reaches a field of that name, an access by index reaches that unnamed position, and neither resolves otherwise |
| FieldResolution.SendRequestCallSpec | macro/src/lib.rs:170-178 | in a struct with distinct field names the access reaches the chosen field; the generated `send_request` exists exactly when there is a `base_url` field and passes the chosen field, `base_url` and the body to the transport |
| Scenarios.MathTraitsExpand | lib/tests/macros.rs:9-22 | `MathV1`, `MathV2` and `MathV2Default` each expand to one method `subtract` sending `subtrahend` and `minuend` |
| Scenarios.SubtractParams | lib/tests/macros.rs:135 | `subtract(5, 4)` encodes to the parameters `[5, 4]` |
| Scenarios.SubtractCallV2 | lib/tests/macros.rs:144-174 | `subtract(5, 4)` sends exactly `{"id":0,"jsonrpc":"2.0","method":"subtract","params":[5,4]}` and returns the canned result 1 |
| Scenarios.SubtractCallV1SendsV2 | lib/tests/macros.rs:128-142 | with `version = "1.0"` the same `2.0` body is sent, which differs from the body this test expects |
| Scenarios.ClientImplements | lib/tests/macros.rs:91-102 | on `Client { inner, base_url }` the transport is `self.inner` at index 0, and `send_request` passes `inner`, `base_url` and the body |
| Scenarios.WithoutBaseUrl | lib/tests/ui/client_without_base_url.rs:41-44 | a single-field struct resolves to its field whatever its name (`inner` or `inner_client`), but without `base_url` the generated `send_request` names a missing field |
| Scenarios.TaggedBeatsNamed | macro/src/lib.rs:126-155 | a field tagged `#[jsonrpc_client(inner)]` is chosen over an earlier field named `inner` |

## Left out

- Token plumbing is not modelled: token streams, spans, `to_compile_error`, and the parsing of the macro input and attribute into syntax trees. The macros receive parsed trees, and `api`'s attribute is a string it ignores.
- The text of the generated code is not modelled. `GeneratedMethod`, `GeneratedTrait` and `GeneratedImpl` record what the `quote!` templates are filled with. `Invoke` and `SendRequestCall` give what the generated bodies compute.
- Compile-time checks of the generated code are not modelled, apart from the missing `base_url` field. In particular, arguments and return types that cannot be serialised (`lib/tests/ui/non_serializable_*.rs`) are not checked, because the macro does not check them either.
- The async variant `SendRequestAsync` and the `async_trait` machinery are not modelled, because nothing in the core depends on the asynchrony. A transport is a function parameter: `send` in `Invoke`, taking the body, and in `SendRequestCall`, taking the client, endpoint and body.
- Transport adapters (awc, reqwest, surf, isahc, ureq) and the examples are not modelled, because they are HTTP I/O over external libraries.
- The `Display` texts of the transport error and of `serde_json::Error` are function parameters, because they belong to other crates.
- Parsing JSON text is not modelled. Response decoding starts from JSON values. Floating-point numbers are not modelled; a number is an integer.
- The serde forms the crate never produces are not modelled: `JsonRpcError` as a JSON array, and `Version` as a single-key map.
- The struct's own re-emission is only the record `GeneratedImpl.structDef`; attributes other than `jsonrpc_client` are not interpreted.
- Binding.StdSerialize: the model's request serializer never fails. serde_json cannot fail on a request whose parameters are JSON values, so the `?` at `macro/src/lib.rs:83` is reached only through a caller-supplied serializer.
- The `Cell`-based mock transport of `lib/tests/macros.rs:24-69` is replaced by a constant reply function. `lib/tests/happy_path.rs` and `lib/tests/api_macro.rs` target an older interface of the crate and are not modelled.
- The expected compiler output of the compile-failure tests is not part of this model. Only the expansion of their structs is modelled.
