/**
 * The `implement` attribute macro: on a struct that wraps a transport, it
 * chooses the field holding the transport and generates `send_request`,
 * which passes that field, `self.base_url` and the request body to the
 * transport.
 */
module FieldResolution {
  import opened Wrappers
  import opened Syntax

  const NEED_FIELD: string := "struct needs to have at least one field"
  const NEED_INNER: string :=
    "struct needs to have either a field named `inner` or one tagged with `#[jsonrpc_client(inner)]`"

  /** The field the generated `send_request` reads the endpoint from. */
  const BASE_URL: string := "base_url"

  /** How generated code reaches a field: `self.name`, or `self.0` and so on in a tuple struct. */
  datatype Access = ByName(ident: string) | ByIndex(index: nat)

  /**
   * The expansion: the struct unchanged, then an implementation of
   * `traitPath<innerType>` whose `send_request` calls the transport in the
   * field at `index` through `innerAccess`, with the endpoint read through
   * `endpoint`.
   */
  datatype GeneratedImpl = GeneratedImpl(
    structDef: ItemStruct, traitPath: Path, index: nat, innerType: Type, innerAccess: Access, endpoint: Access)

  /** The first index whose field satisfies `p`. */
  function FindFirst(fields: seq<Field>, p: Field -> bool): (r: Option<nat>)
    ensures r.Some? ==> r.value < |fields| && p(fields[r.value]) && forall j :: 0 <= j < r.value ==> !p(fields[j])
    ensures r.None? <==> forall j :: 0 <= j < |fields| ==> !p(fields[j])
    decreases |fields|
  {
    if fields == [] then None
    else if p(fields[0]) then Some(0)
    else match FindFirst(fields[1..], p)
      case None => None
      case Some(k) => Some(k + 1)
  }

  /** The first attribute whose path is exactly the identifier `name`. */
  function FirstAttr(attrs: seq<Attribute>, name: string): (r: Option<Attribute>)
    ensures r.Some? ==> exists i :: 0 <= i < |attrs| && attrs[i] == r.value && IsIdent(attrs[i].path, name) &&
                                    forall j :: 0 <= j < i ==> !IsIdent(attrs[j].path, name)
    ensures r.None? <==> forall j :: 0 <= j < |attrs| ==> !IsIdent(attrs[j].path, name)
    decreases |attrs|
  {
    if attrs == [] then None
    else if IsIdent(attrs[0].path, name) then Some(attrs[0])
    else
      var r := FirstAttr(attrs[1..], name);
      assert r.Some? ==> exists i :: 0 <= i < |attrs[1..]| && attrs[1..][i] == r.value && IsIdent(attrs[1..][i].path, name) &&
                                     forall j :: 0 <= j < i ==> !IsIdent(attrs[1..][j].path, name);
      assert r.Some? ==> exists i :: 0 <= i < |attrs| && attrs[i] == r.value && IsIdent(attrs[i].path, name) &&
                                     forall j :: 0 <= j < i ==> !IsIdent(attrs[j].path, name) by {
        if r.Some? {
          var i :| 0 <= i < |attrs[1..]| && attrs[1..][i] == r.value && IsIdent(attrs[1..][i].path, name) &&
                  forall j :: 0 <= j < i ==> !IsIdent(attrs[1..][j].path, name);
          assert attrs[i + 1] == attrs[1..][i];
          assert forall j :: 0 <= j < i + 1 ==> !IsIdent(attrs[j].path, name) by {
            forall j | 0 <= j < i + 1 ensures !IsIdent(attrs[j].path, name) {
              if j > 0 { assert attrs[j] == attrs[1..][j - 1]; }
            }
          }
        }
      }
      assert r.None? ==> forall j :: 0 <= j < |attrs| ==> !IsIdent(attrs[j].path, name) by {
        if r.None? {
          forall j | 0 <= j < |attrs| ensures !IsIdent(attrs[j].path, name) {
            if j > 0 { assert attrs[j] == attrs[1..][j - 1]; }
          }
        }
      }
      r
  }

  /** A `#[jsonrpc_client(inner, ...)]` list: its first entry is the bare path `inner`. */
  predicate InnerList(m: Meta)
  {
    m.MetaList? && |m.nested| > 0 && m.nested[0].NestedItem? &&
    m.nested[0].meta.MetaPath? && IsIdent(m.nested[0].meta.path, "inner")
  }

  /**
   * A field tagged `#[jsonrpc_client(inner)]`: only the first `jsonrpc_client`
   * attribute of the field is looked at, and it must read as such a list.
   */
  predicate TaggedInner(f: Field)
  {
    match FirstAttr(f.attrs, "jsonrpc_client")
    case None => false
    case Some(a) =>
      match ParseMeta(a)
      case Ok(m) => InnerList(m)
      case Err(_) => false
  }

  predicate NamedInner(f: Field) { f.ident == Some("inner") }

  /** The index of the transport field, or the error the macro reports. */
  function ChooseField(fields: seq<Field>): (r: Result<nat, BindError>)
    ensures r.Ok? ==> r.value < |fields|
  {
    if |fields| == 0 then Err(BindError(NEED_FIELD))
    else if |fields| == 1 then Ok(0)
    else
      match Or(FindFirst(fields, TaggedInner), FindFirst(fields, NamedInner))
      case Some(i) => Ok(i)
      case None => Err(BindError(NEED_INNER))
  }

  /** `make_api_impl`. */
  function MakeApiImpl(structDef: ItemStruct, traitPath: Path): Result<GeneratedImpl, BindError>
  {
    match ChooseField(structDef.fields)
    case Err(e) => Err(e)
    case Ok(i) =>
      var client := structDef.fields[i];
      var access := if client.ident.Some? then ByName(client.ident.value) else ByIndex(i);
      Ok(GeneratedImpl(structDef, traitPath, i, client.ty, access, ByName(BASE_URL)))
  }

  /** The `implement` attribute, whose argument is the path of the trait to implement. */
  function Implement(attr: Path, item: ItemStruct): Result<GeneratedImpl, BindError>
  {
    MakeApiImpl(item, attr)
  }

  /** The field a struct with several fields uses: the first tagged one, else the first named `inner`. */
  ghost predicate IsPreferred(fields: seq<Field>, i: nat)
  {
    && i < |fields|
    && (if exists j :: 0 <= j < |fields| && TaggedInner(fields[j])
        then TaggedInner(fields[i]) && forall j :: 0 <= j < i ==> !TaggedInner(fields[j])
        else NamedInner(fields[i]) && forall j :: 0 <= j < i ==> !NamedInner(fields[j]))
  }

  /**
   * An empty struct is refused; a single field is used whatever its name; with
   * several, the first tagged field wins over the first field named `inner`,
   * and having neither is refused.
   */
  lemma ChooseFieldSpec(fields: seq<Field>)
    ensures |fields| == 0 ==> ChooseField(fields) == Err(BindError(NEED_FIELD))
    ensures |fields| == 1 ==> ChooseField(fields) == Ok(0)
    ensures |fields| > 1 ==>
      (ChooseField(fields).Ok? <==> exists j :: 0 <= j < |fields| && (TaggedInner(fields[j]) || NamedInner(fields[j])))
    ensures |fields| > 1 && ChooseField(fields).Ok? ==> IsPreferred(fields, ChooseField(fields).value)
    ensures |fields| > 1 && ChooseField(fields).Err? ==> ChooseField(fields).error == BindError(NEED_INNER)
  {
    if |fields| > 1 {
      var t, n := FindFirst(fields, TaggedInner), FindFirst(fields, NamedInner);
      if t.None? && n.None? {
        assert forall j :: 0 <= j < |fields| ==> !TaggedInner(fields[j]) && !NamedInner(fields[j]);
      }
    }
  }

  /** The preferred field is unique, so the policy leaves no choice. */
  lemma PreferredUnique(fields: seq<Field>, i: nat, k: nat)
    ensures IsPreferred(fields, i) && IsPreferred(fields, k) ==> i == k
  {
    if IsPreferred(fields, i) && IsPreferred(fields, k) {
      if exists j :: 0 <= j < |fields| && TaggedInner(fields[j]) {
        assert TaggedInner(fields[i]) && TaggedInner(fields[k]);
      } else {
        assert NamedInner(fields[i]) && NamedInner(fields[k]);
      }
    }
  }

  /**
   * A successful expansion keeps the struct and the trait path, uses the
   * chosen field's type, reaches it by name when it has one and by position
   * otherwise, and always reads the endpoint from `base_url`; the only
   * failures are the two messages above.
   */
  lemma MakeApiImplSpec(structDef: ItemStruct, traitPath: Path)
    ensures MakeApiImpl(structDef, traitPath).Ok? <==> ChooseField(structDef.fields).Ok?
    ensures MakeApiImpl(structDef, traitPath).Err? ==>
      MakeApiImpl(structDef, traitPath).error in {BindError(NEED_FIELD), BindError(NEED_INNER)}
    ensures MakeApiImpl(structDef, traitPath).Ok? ==>
      var g := MakeApiImpl(structDef, traitPath).value;
      var f := structDef.fields[g.index];
      && g.index == ChooseField(structDef.fields).value
      && g.structDef == structDef && g.traitPath == traitPath && g.innerType == f.ty
      && (f.ident.Some? ==> g.innerAccess == ByName(f.ident.value))
      && (f.ident.None? ==> g.innerAccess == ByIndex(g.index))
      && g.endpoint == ByName(BASE_URL)
  {
    ChooseFieldSpec(structDef.fields);
  }

  // ---------------------------------------------------------------------------
  // The generated `send_request`

  predicate HasIdent(f: Field, name: string) { f.ident == Some(name) }

  /** The field an access expression names, if the struct has it. */
  function Resolve(fields: seq<Field>, a: Access): (r: Option<nat>)
    ensures r.Some? ==> r.value < |fields|
    ensures a.ByName? ==> (r.Some? <==> exists j :: 0 <= j < |fields| && HasIdent(fields[j], a.ident))
    ensures a.ByName? && r.Some? ==> HasIdent(fields[r.value], a.ident)
    ensures a.ByIndex? ==> (r.Some? <==> a.index < |fields| && fields[a.index].ident.None?)
    ensures a.ByIndex? && r.Some? ==> r.value == a.index
  {
    match a
    case ByName(name) => FindFirst(fields, f => HasIdent(f, name))
    case ByIndex(i) => if i < |fields| && fields[i].ident.None? then Some(i) else None
  }

  /** Field names of a struct are distinct, as Rust requires. */
  predicate DistinctNames(fields: seq<Field>)
  {
    forall i, j :: 0 <= i < |fields| && 0 <= j < |fields| && fields[i].ident.Some? && fields[i].ident == fields[j].ident ==> i == j
  }

  /**
   * What the generated `send_request` does on a value of the struct whose
   * fields hold `values`: `send(inner, endpoint, body)`, the transport's own
   * `send_request`; `None` when the expansion names a field the struct lacks
   * and so does not compile.
   */
  function SendRequestCall<V, R>(g: GeneratedImpl, values: seq<V>, body: string, send: (V, V, string) -> R): Option<R>
    requires |values| == |g.structDef.fields|
  {
    match Resolve(g.structDef.fields, g.innerAccess)
    case None => None
    case Some(i) =>
      match Resolve(g.structDef.fields, g.endpoint)
      case None => None
      case Some(j) => Some(send(values[i], values[j], body))
  }

  /**
   * In a struct with distinct field names the generated access reaches the
   * chosen field, and the call compiles exactly when there is a `base_url`
   * field; it then hands the chosen field, that field and the body, unchanged,
   * to the transport.
   */
  lemma SendRequestCallSpec<V, R>(structDef: ItemStruct, traitPath: Path, values: seq<V>, body: string,
                                  send: (V, V, string) -> R)
    requires DistinctNames(structDef.fields) && |values| == |structDef.fields|
    requires MakeApiImpl(structDef, traitPath).Ok?
    ensures var g := MakeApiImpl(structDef, traitPath).value;
      && Resolve(structDef.fields, g.innerAccess) == Some(g.index)
      && (SendRequestCall(g, values, body, send).Some? <==>
            exists j :: 0 <= j < |structDef.fields| && HasIdent(structDef.fields[j], BASE_URL))
      && forall j :: 0 <= j < |structDef.fields| && HasIdent(structDef.fields[j], BASE_URL) ==>
            SendRequestCall(g, values, body, send) == Some(send(values[g.index], values[j], body))
  {
    var g := MakeApiImpl(structDef, traitPath).value;
    MakeApiImplSpec(structDef, traitPath);
    var fs := structDef.fields;
    var r := Resolve(fs, g.innerAccess);
    if fs[g.index].ident.Some? {
      assert HasIdent(fs[g.index], g.innerAccess.ident);
      assert HasIdent(fs[r.value], g.innerAccess.ident);
    }
    assert r == Some(g.index);
  }
}
