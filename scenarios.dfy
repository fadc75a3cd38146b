/**
 * The integration tests of the two macros, stated over the model: the
 * `MathV1`/`MathV2` traits and the `Client { inner, base_url }` struct of
 * lib/tests/macros.rs, and the structs of the compile-failure tests.
 */
module Scenarios {
  import opened Wrappers
  import opened SerdeJson
  import opened Syntax
  import opened Message
  import opened Binding
  import opened FieldResolution

  function I64(): Type { Named(SimplePath("i64")) }

  /** `fn subtract(&self, subtrahend: i64, minuend: i64) -> i64;` */
  function Subtract(): TraitItemMethod
  {
    TraitItemMethod(
      Signature(false, "subtract", [Receiver, Typed(PatIdent("subtrahend"), I64()), Typed(PatIdent("minuend"), I64())],
                ReturnsType(I64())),
      None)
  }

  function MathTrait(name: string): ItemTrait
  {
    ItemTrait(name, [TraitMethod(Subtract())])
  }

  /** `struct Client { inner: InnerClient, base_url: ExampleDotOrg }` */
  function ClientStruct(): ItemStruct
  {
    ItemStruct("Client", [
      Field([], Some("inner"), Named(SimplePath("InnerClient"))),
      Field([], Some("base_url"), Named(SimplePath("ExampleDotOrg")))])
  }

  /** The method the `api` macro generates for `subtract`. */
  function SubtractMethod(): GeneratedMethod
  {
    GeneratedMethod("subtract", Subtract().sig.inputs, I64(), ["subtrahend", "minuend"])
  }

  /** Both versions of the trait expand to one method `subtract` sending both arguments. */
  lemma MathTraitsExpand(attr: string, name: string)
    ensures Api(attr, MathTrait(name)) == Ok(GeneratedTrait(name, [SubtractMethod()]))
  {
    var inputs := Subtract().sig.inputs;
    assert inputs[1..][1..][1..] == [];
    assert ArgumentNames(inputs[1..][1..]) == ["minuend"];
    assert ArgumentNames(inputs[1..]) == ["subtrahend", "minuend"];
    assert ArgumentNames(inputs) == ["subtrahend", "minuend"];
    assert MakeMethod(Subtract()) == Ok(SubtractMethod());
    assert [Subtract()][1..] == [];
    assert MakeMethods([Subtract()][1..]) == Ok([]);
    assert [SubtractMethod()] + [] == [SubtractMethod()];
    assert MakeMethods([Subtract()]) == Ok([SubtractMethod()]);
    var items := MathTrait(name).items;
    assert items[1..] == [] && CollectMethods(items[1..]) == Ok([]);
    assert [Subtract()] + [] == [Subtract()];
    assert CollectMethods(items) == Ok([Subtract()]);
  }

  /** `subtract(5, 4)` encodes to the parameters `[5, 4]`. */
  lemma SubtractParams()
    ensures TypedCount(SubtractMethod().inputs) == 2
    ensures EncodeAll(BoundValues(SubtractMethod().inputs, [Ok(Json.Number(5)), Ok(Json.Number(4))]))
            == Ok([Json.Number(5), Json.Number(4)])
  {
    var inputs := SubtractMethod().inputs;
    var vs: seq<Result<Json, SerdeError>> := [Ok(Json.Number(5)), Ok(Json.Number(4))];
    assert inputs[1..][1..][1..] == [];
    assert TypedCount(inputs[1..][1..]) == 1;
    assert TypedCount(inputs) == 2;
    BoundValuesAllNamed(inputs, vs);
    assert vs[1..][1..] == [];
    assert EncodeAll(vs[1..][1..]) == Ok([]);
    assert vs[1..][0] == Ok(Json.Number(4));
    assert [Json.Number(4)] + [] == [Json.Number(4)];
    assert EncodeAll(vs[1..]) == Ok([Json.Number(4)]);
    assert [Json.Number(5)] + [Json.Number(4)] == [Json.Number(5), Json.Number(4)];
  }

  /**
   * The tests `creates_correct_v2_request` and `creates_correct_v2_default_request`:
   * `subtract(5, 4)` sends exactly this body and returns the canned result 1.
   */
  lemma SubtractCallV2<C>()
    ensures SentBody(SubtractMethod(), [Ok(Json.Number(5)), Ok(Json.Number(4))], StdSerialize)
            == Ok("{\"id\":0" + ",\"jsonrpc\":\"2.0\"" + ",\"method\":\"subtract\"" + ",\"params\":[5,4]}")
    ensures Invoke<int, C>(SubtractMethod(), [Ok(Json.Number(5)), Ok(Json.Number(4))], StdSerialize,
                           (body: string) => Ok(NewV2Result(Id.Number(1), 1)))
            == Ok(1)
  {
    SubtractParams();
    var t := "5,4";
    TestRequestText(5, 4, t);
    ParamsText(t);
  }

  /**
   * The test `creates_correct_v1_request` expects the version `"1.0"` for the
   * trait declared with `api(version = "1.0")`, but the attribute is not read
   * and every generated request is version 2.0.
   */
  lemma SubtractCallV1SendsV2()
    ensures Api("version = \"1.0\"", MathTrait("MathV1")) == Ok(GeneratedTrait("MathV1", [SubtractMethod()]))
    ensures SentBody(SubtractMethod(), [Ok(Json.Number(5)), Ok(Json.Number(4))], StdSerialize)
            != Ok("{\"id\":0" + ",\"jsonrpc\":\"1.0\"" + ",\"method\":\"subtract\"" + ",\"params\":[5,4]}")
  {
    MathTraitsExpand("version = \"1.0\"", "MathV1");
    SubtractCallV2<()>();
    VersionTextsDiffer(SentBody(SubtractMethod(), [Ok(Json.Number(5)), Ok(Json.Number(4))], StdSerialize).value);
  }

  lemma VersionTextsDiffer(s: string)
    requires s == "{\"id\":0" + ",\"jsonrpc\":\"2.0\"" + ",\"method\":\"subtract\"" + ",\"params\":[5,4]}"
    ensures s != "{\"id\":0" + ",\"jsonrpc\":\"1.0\"" + ",\"method\":\"subtract\"" + ",\"params\":[5,4]}"
  {
    assert s[19] == '2';
  }

  /** `implement(MathV2)` on `Client`: the transport is `self.inner`, the endpoint `self.base_url`. */
  lemma ClientImplements<V, R>(inner: V, baseUrl: V, body: string, send: (V, V, string) -> R)
    ensures Implement(SimplePath("MathV2"), ClientStruct()).Ok?
    ensures var g := Implement(SimplePath("MathV2"), ClientStruct()).value;
      && g.index == 0 && g.innerAccess == ByName("inner") && g.innerType == Named(SimplePath("InnerClient"))
      && SendRequestCall(g, [inner, baseUrl], body, send) == Some(send(inner, baseUrl, body))
  {
    var fs := ClientStruct().fields;
    assert NamedInner(fs[0]);
    assert !TaggedInner(fs[0]) && !TaggedInner(fs[1]);
    assert FindFirst(fs, NamedInner) == Some(0);
    var g := Implement(SimplePath("MathV2"), ClientStruct()).value;
    assert Resolve(fs, g.innerAccess) == Some(0);
    assert HasIdent(fs[1], BASE_URL);
    assert Resolve(fs, g.endpoint) == Some(1);
  }

  /**
   * The compile-failure tests: a single field is used whatever its name
   * (`inner_client`), and a struct without a `base_url` field expands to a
   * `send_request` naming a field that does not exist.
   */
  lemma WithoutBaseUrl<V, R>(name: string, transport: V, body: string, send: (V, V, string) -> R)
    requires name == "inner" || name == "inner_client"
    ensures var s := ItemStruct("Client", [Field([], Some(name), Named(SimplePath("InnerClient")))]);
      && Implement(SimplePath("Math"), s).Ok?
      && Implement(SimplePath("Math"), s).value.innerAccess == ByName(name)
      && SendRequestCall(Implement(SimplePath("Math"), s).value, [transport], body, send).None?
  {
    var s := ItemStruct("Client", [Field([], Some(name), Named(SimplePath("InnerClient")))]);
    var g := Implement(SimplePath("Math"), s).value;
    assert !HasIdent(s.fields[0], BASE_URL);
    assert Resolve(s.fields, g.endpoint).None?;
  }

  /** A field tagged `#[jsonrpc_client(inner)]` is preferred to an earlier field named `inner`. */
  lemma TaggedBeatsNamed(t: Type, u: Type, w: Type)
    ensures var tag := Attribute(SimplePath("jsonrpc_client"), ListArgs([NestedItem(MetaPath(SimplePath("inner")))]));
      var s := ItemStruct("Client", [Field([], Some("inner"), t), Field([tag], Some("transport"), u), Field([], Some("base_url"), w)]);
      && MakeApiImpl(s, SimplePath("Math")).Ok?
      && MakeApiImpl(s, SimplePath("Math")).value.index == 1
      && MakeApiImpl(s, SimplePath("Math")).value.innerAccess == ByName("transport")
  {
    var tag := Attribute(SimplePath("jsonrpc_client"), ListArgs([NestedItem(MetaPath(SimplePath("inner")))]));
    var fs := [Field([], Some("inner"), t), Field([tag], Some("transport"), u), Field([], Some("base_url"), w)];
    assert FirstAttr(fs[1].attrs, "jsonrpc_client") == Some(tag);
    assert TaggedInner(fs[1]);
    assert !TaggedInner(fs[0]);
    assert FindFirst(fs, TaggedInner) == Some(1);
  }
}
