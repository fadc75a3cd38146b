/**
 * The `api` attribute macro: it turns a trait of method signatures into a
 * trait whose methods are implemented by building a JSON-RPC request, handing
 * its text to `send_request` and unwrapping the response. The generated
 * method bodies are modelled by `Invoke`, which does what such a body does
 * when called.
 */
module Binding {
  import opened Wrappers
  import opened SerdeJson
  import opened Syntax
  import opened Message

  const ONLY_METHODS: string := "trait must only define methods"
  const NO_DEFAULT: string := "trait method must not have a default implementation already"

  /**
   * One generated method: it keeps the signature's name and inputs, returns
   * `returnType` (wrapped in the library's `Result`), and sends the arguments
   * named in `arguments`, in that order.
   */
  datatype GeneratedMethod = GeneratedMethod(ident: string, inputs: seq<FnArg>, returnType: Type, arguments: seq<string>)

  /**
   * The generated trait, generic over the transport `C`; besides `methods` it
   * declares `send_request`, which `implement` provides.
   */
  datatype GeneratedTrait = GeneratedTrait(ident: string, methods: seq<GeneratedMethod>)

  // ---------------------------------------------------------------------------
  // Expansion

  /** Every item must be a method; the first one that is not stops the expansion. */
  function CollectMethods(items: seq<TraitItem>): (r: Result<seq<TraitItemMethod>, BindError>)
    ensures r.Ok? <==> forall i :: 0 <= i < |items| ==> items[i].TraitMethod?
    ensures r.Ok? ==> |r.value| == |items| && forall i :: 0 <= i < |items| ==> r.value[i] == items[i].item
    ensures r.Err? ==> r.error == BindError(ONLY_METHODS)
    decreases |items|
  {
    if items == [] then Ok([])
    else if !items[0].TraitMethod? then Err(BindError(ONLY_METHODS))
    else match CollectMethods(items[1..])
      case Err(e) => Err(e)
      case Ok(rest) => Ok([items[0].item] + rest)
  }

  /** An argument whose name is sent: a typed argument bound to a plain identifier. */
  predicate IsNamedArg(a: FnArg) { a.Typed? && a.pat.PatIdent? }

  /** The names of the arguments sent: the receiver and destructuring patterns are skipped. */
  function ArgumentNames(inputs: seq<FnArg>): seq<string>
    decreases |inputs|
  {
    if inputs == [] then []
    else (if IsNamedArg(inputs[0]) then [inputs[0].pat.ident] else []) + ArgumentNames(inputs[1..])
  }

  /** A missing return type is unit. */
  function ReturnTypeOf(output: ReturnType): (t: Type)
    ensures output.Default? ==> t == Unit
    ensures output.ReturnsType? ==> t == output.ty
  {
    match output
    case Default => Unit
    case ReturnsType(ty) => ty
  }

  /** The generated method for one trait method, refused if it already has a body. */
  function MakeMethod(m: TraitItemMethod): (r: Result<GeneratedMethod, BindError>)
    ensures r.Err? <==> m.default.Some?
    ensures r.Err? ==> r.error == BindError(NO_DEFAULT)
  {
    if m.default.Some? then Err(BindError(NO_DEFAULT))
    else Ok(GeneratedMethod(m.sig.ident, m.sig.inputs, ReturnTypeOf(m.sig.output), ArgumentNames(m.sig.inputs)))
  }

  /** The generated methods in order; the first method with a body stops the expansion. */
  function MakeMethods(ms: seq<TraitItemMethod>): (r: Result<seq<GeneratedMethod>, BindError>)
    ensures r.Ok? <==> forall i :: 0 <= i < |ms| ==> ms[i].default.None?
    ensures r.Ok? ==> |r.value| == |ms| && forall i :: 0 <= i < |ms| ==> Ok(r.value[i]) == MakeMethod(ms[i])
    ensures r.Err? ==> r.error == BindError(NO_DEFAULT)
    decreases |ms|
  {
    if ms == [] then Ok([])
    else match MakeMethod(ms[0])
      case Err(e) => Err(e)
      case Ok(g) =>
        match MakeMethods(ms[1..])
        case Err(e) => Err(e)
        case Ok(rest) => Ok([g] + rest)
  }

  /** `make_new_trait`: all items are checked to be methods before any method is checked for a body. */
  function MakeNewTrait(t: ItemTrait): Result<GeneratedTrait, BindError>
  {
    match CollectMethods(t.items)
    case Err(e) => Err(e)
    case Ok(ms) =>
      match MakeMethods(ms)
      case Err(e) => Err(e)
      case Ok(generated) => Ok(GeneratedTrait(t.ident, generated))
  }

  /** The `api` attribute; its own arguments are not read. */
  function Api(attr: string, input: ItemTrait): Result<GeneratedTrait, BindError>
  {
    MakeNewTrait(input)
  }

  /** A trait item that `api` accepts: a method without a body. */
  predicate Bindable(item: TraitItem) { item.TraitMethod? && item.item.default.None? }

  /**
   * A trait is bound exactly when every item is a method without a body; a
   * non-method item is reported before any default body; a bound trait keeps
   * its name and has one generated method per item, in order.
   */
  lemma MakeNewTraitSpec(t: ItemTrait)
    ensures MakeNewTrait(t).Ok? <==> forall i :: 0 <= i < |t.items| ==> Bindable(t.items[i])
    ensures (exists i :: 0 <= i < |t.items| && !t.items[i].TraitMethod?) ==>
      MakeNewTrait(t) == Err(BindError(ONLY_METHODS))
    ensures (forall i :: 0 <= i < |t.items| ==> t.items[i].TraitMethod?) &&
            (exists i :: 0 <= i < |t.items| && t.items[i].item.default.Some?) ==>
      MakeNewTrait(t) == Err(BindError(NO_DEFAULT))
    ensures MakeNewTrait(t).Ok? ==>
      && MakeNewTrait(t).value.ident == t.ident
      && |MakeNewTrait(t).value.methods| == |t.items|
      && forall i :: 0 <= i < |t.items| ==> Generates(t.items[i].item.sig, MakeNewTrait(t).value.methods[i])
  {
    var c := CollectMethods(t.items);
    if c.Ok? {
      assert forall i :: 0 <= i < |t.items| ==> c.value[i] == t.items[i].item;
      var m := MakeMethods(c.value);
      if m.Ok? {
        forall i | 0 <= i < |t.items| ensures Generates(t.items[i].item.sig, m.value[i]) {
          assert Ok(m.value[i]) == MakeMethod(c.value[i]);
        }
      }
    }
  }

  /** What a generated method takes from its signature. */
  predicate Generates(sig: Signature, g: GeneratedMethod)
  {
    && g.ident == sig.ident
    && g.inputs == sig.inputs
    && g.returnType == ReturnTypeOf(sig.output)
    && g.arguments == ArgumentNames(sig.inputs)
  }

  /** The attribute's arguments, such as `version = "1.0"`, never change the expansion. */
  lemma ApiIgnoresAttribute(attr1: string, attr2: string, t: ItemTrait)
    ensures Api(attr1, t) == Api(attr2, t)
    ensures Api(attr1, t) == MakeNewTrait(t)
  {}

  /** `ArgumentNames` distributes over concatenation: the names keep declaration order. */
  lemma {:induction false} ArgumentNamesAppend(a: seq<FnArg>, b: seq<FnArg>)
    ensures ArgumentNames(a + b) == ArgumentNames(a) + ArgumentNames(b)
    decreases |a|
  {
    if a == [] {
      assert a + b == b;
    } else {
      assert (a + b)[0] == a[0];
      assert (a + b)[1..] == a[1..] + b;
      ArgumentNamesAppend(a[1..], b);
    }
  }

  /** A single input contributes its name exactly when it is a typed identifier pattern. */
  lemma ArgumentNamesSingle(x: FnArg)
    ensures ArgumentNames([x]) == if IsNamedArg(x) then [x.pat.ident] else []
  {
    assert [x][1..] == [];
  }

  // ---------------------------------------------------------------------------
  // Calling a generated method

  /** The number of typed inputs, i.e. the values a call passes besides the receiver. */
  function TypedCount(inputs: seq<FnArg>): nat
    decreases |inputs|
  {
    if inputs == [] then 0 else (if inputs[0].Typed? then 1 else 0) + TypedCount(inputs[1..])
  }

  /**
   * The values of the sent arguments: `values` has one entry per typed input,
   * and those bound to non-identifier patterns are dropped.
   */
  function BoundValues<A>(inputs: seq<FnArg>, values: seq<A>): (r: seq<A>)
    requires |values| == TypedCount(inputs)
    ensures |r| == |ArgumentNames(inputs)|
    decreases |inputs|
  {
    if inputs == [] then []
    else if !inputs[0].Typed? then BoundValues(inputs[1..], values)
    else (if IsNamedArg(inputs[0]) then [values[0]] else []) + BoundValues(inputs[1..], values[1..])
  }

  /** `vec![to_value(&a)?, ...]`: the values in order, or the first encoding error. */
  function EncodeAll(encoded: seq<Result<Json, SerdeError>>): (r: Result<seq<Json>, SerdeError>)
    ensures r.Ok? <==> forall i :: 0 <= i < |encoded| ==> encoded[i].Ok?
    ensures r.Ok? ==> |r.value| == |encoded| && forall i :: 0 <= i < |encoded| ==> encoded[i] == Ok(r.value[i])
    ensures r.Err? ==> exists i :: 0 <= i < |encoded| && encoded[i] == Err(r.error) && forall j :: 0 <= j < i ==> encoded[j].Ok?
    decreases |encoded|
  {
    if encoded == [] then Ok([])
    else match encoded[0]
      case Err(e) => Err(e)
      case Ok(v) =>
        match EncodeAll(encoded[1..])
        case Err(e) => Err(e)
        case Ok(rest) => Ok([v] + rest)
  }

  /** The request a call sends: always version 2.0, named after the method. */
  function RequestFor(m: GeneratedMethod, params: seq<Json>): Request
  {
    NewV2(m.ident, params)
  }

  /** `serde_json::to_string` of a request, which cannot fail since its parameters are JSON values. */
  function StdSerialize(r: Request): Result<string, SerdeError>
  {
    Ok(SerializeRequest(r))
  }

  /**
   * The body a call of generated method `m` hands to `send_request`, or the
   * serde error that stops the call before anything is sent; `encoded` holds
   * the encodings of its typed arguments and `serialize` writes the request.
   */
  function SentBody(m: GeneratedMethod, encoded: seq<Result<Json, SerdeError>>,
                    serialize: Request -> Result<string, SerdeError>): Result<string, SerdeError>
    requires |encoded| == TypedCount(m.inputs)
  {
    match EncodeAll(BoundValues(m.inputs, encoded))
    case Err(e) => Err(e)
    case Ok(params) => serialize(RequestFor(m, params))
  }

  /**
   * A call of generated method `m`: `send` is the trait's `send_request`,
   * taking the body and giving the decoded response or the transport's error.
   */
  function Invoke<P, C>(m: GeneratedMethod, encoded: seq<Result<Json, SerdeError>>,
                        serialize: Request -> Result<string, SerdeError>,
                        send: string -> Result<Response<P>, C>): Result<P, Error<C>>
    requires |encoded| == TypedCount(m.inputs)
  {
    match SentBody(m, encoded, serialize)
    case Err(e) => Err(ErrorFromSerde(e))
    case Ok(body) =>
      match send(body)
      case Err(c) => Err(Client(c))
      case Ok(response) =>
        match PayloadToResult(response.payload)
        case Err(j) => Err(ErrorFromJsonRpc(j))
        case Ok(p) => Ok(p)
  }

  /**
   * Each kind of failure lands in its own case of the library's error: an
   * encoding failure in `Serde` (and `send` is never reached), a transport
   * failure in `Client`, a remote error in `JsonRpc`; a result is returned as is.
   */
  lemma InvokeRouting<P, C>(m: GeneratedMethod, encoded: seq<Result<Json, SerdeError>>,
                            serialize: Request -> Result<string, SerdeError>,
                            send: string -> Result<Response<P>, C>, send': string -> Result<Response<P>, C>)
    requires |encoded| == TypedCount(m.inputs)
    ensures EncodeAll(BoundValues(m.inputs, encoded)).Err? ==>
      Invoke(m, encoded, serialize, send) == Err(Serde(EncodeAll(BoundValues(m.inputs, encoded)).error))
    ensures EncodeAll(BoundValues(m.inputs, encoded)).Ok? ==>
      var req := NewV2(m.ident, EncodeAll(BoundValues(m.inputs, encoded)).value);
      serialize(req).Err? ==> Invoke(m, encoded, serialize, send) == Err(Serde(serialize(req).error))
    ensures SentBody(m, encoded, serialize).Err? ==>
      Invoke(m, encoded, serialize, send) == Err(Serde(SentBody(m, encoded, serialize).error))
    ensures SentBody(m, encoded, serialize).Err? ==> Invoke(m, encoded, serialize, send) == Invoke(m, encoded, serialize, send')
    ensures SentBody(m, encoded, serialize).Err? <==> Invoke(m, encoded, serialize, send).Err? && Invoke(m, encoded, serialize, send).error.Serde?
    ensures SentBody(m, encoded, serialize).Ok? ==>
      var reply := send(SentBody(m, encoded, serialize).value);
      && (reply.Err? ==> Invoke(m, encoded, serialize, send) == Err(Client(reply.error)))
      && (reply.Ok? && reply.value.payload.Error? ==>
            Invoke(m, encoded, serialize, send) == Err(JsonRpc(reply.value.payload.error)))
      && (reply.Ok? && reply.value.payload.Result? ==>
            Invoke(m, encoded, serialize, send) == Ok(reply.value.payload.result))
  {}

  /** With the library's serializer the sent body is the request's JSON text, carrying the argument values in order. */
  lemma SentBodyStd(m: GeneratedMethod, encoded: seq<Result<Json, SerdeError>>)
    requires |encoded| == TypedCount(m.inputs)
    requires forall i :: 0 <= i < |encoded| ==> encoded[i].Ok?
    ensures EncodeAll(BoundValues(m.inputs, encoded)).Ok?
    ensures SentBody(m, encoded, StdSerialize) ==
      Ok(SerializeRequest(NewV2(m.ident, EncodeAll(BoundValues(m.inputs, encoded)).value)))
  {
    BoundValuesFrom(m.inputs, encoded);
    var bound := BoundValues(m.inputs, encoded);
    assert forall i :: 0 <= i < |bound| ==> bound[i].Ok? by {
      forall i | 0 <= i < |bound| ensures bound[i].Ok? {
        assert bound[i] in encoded;
      }
    }
  }

  /** Every bound value is one of the given values. */
  lemma {:induction false} BoundValuesFrom<A>(inputs: seq<FnArg>, values: seq<A>)
    requires |values| == TypedCount(inputs)
    ensures forall x :: x in BoundValues(inputs, values) ==> x in values
    decreases |inputs|
  {
    if inputs != [] {
      if !inputs[0].Typed? {
        BoundValuesFrom(inputs[1..], values);
      } else {
        BoundValuesFrom(inputs[1..], values[1..]);
      }
    }
  }

  /**
   * When every input is the receiver or a typed identifier, as in every method
   * the tests bind, all values are sent, in order.
   */
  lemma {:induction false} BoundValuesAllNamed<A>(inputs: seq<FnArg>, values: seq<A>)
    requires forall i :: 0 <= i < |inputs| ==> inputs[i].Receiver? || IsNamedArg(inputs[i])
    requires |values| == TypedCount(inputs)
    ensures BoundValues(inputs, values) == values
    decreases |inputs|
  {
    if inputs != [] {
      if inputs[0].Receiver? {
        BoundValuesAllNamed(inputs[1..], values);
      } else {
        BoundValuesAllNamed(inputs[1..], values[1..]);
        assert [values[0]] + values[1..] == values;
      }
    }
  }

  lemma {:induction false} TypedCountAppend(a: seq<FnArg>, b: seq<FnArg>)
    ensures TypedCount(a + b) == TypedCount(a) + TypedCount(b)
    decreases |a|
  {
    if a == [] {
      assert a + b == b;
    } else {
      assert (a + b)[1..] == a[1..] + b;
      TypedCountAppend(a[1..], b);
    }
  }

  /**
   * `BoundValues` distributes over concatenation: each part of the signature
   * sends the values of its own arguments, in declaration order.
   */
  lemma {:induction false} BoundValuesAppend<A>(a: seq<FnArg>, b: seq<FnArg>, va: seq<A>, vb: seq<A>)
    requires |va| == TypedCount(a) && |vb| == TypedCount(b)
    ensures |va + vb| == TypedCount(a + b)
    ensures BoundValues(a + b, va + vb) == BoundValues(a, va) + BoundValues(b, vb)
    decreases |a|
  {
    TypedCountAppend(a, b);
    if a == [] {
      assert a + b == b && va + vb == vb;
    } else {
      assert (a + b)[0] == a[0];
      assert (a + b)[1..] == a[1..] + b;
      TypedCountAppend(a[1..], b);
      if !a[0].Typed? {
        BoundValuesAppend(a[1..], b, va, vb);
      } else {
        assert (va + vb)[1..] == va[1..] + vb;
        BoundValuesAppend(a[1..], b, va[1..], vb);
      }
    }
  }

  /** A single input sends its value exactly when it is a typed identifier; the receiver takes no value. */
  lemma BoundValuesSingle<A>(x: FnArg, v: seq<A>)
    requires |v| == TypedCount([x])
    ensures x.Receiver? ==> v == []
    ensures BoundValues([x], v) == if IsNamedArg(x) then v else []
  {
    assert [x][1..] == [];
  }
}
