/**
 * The part of `syn`'s syntax tree that the two attribute macros look at: a
 * trait definition with its items, and a struct definition with its fields
 * and their attributes. Parsing token streams into these trees is not part of
 * the model; the macros are given trees.
 */
module Syntax {
  import opened Wrappers

  /** One segment of a path, e.g. `Vec<T>` has identifier `Vec` and arguments. */
  datatype PathSegment = PathSegment(ident: string, hasArguments: bool)

  /** A path such as `::jsonrpc_client::Error` or `inner`. */
  datatype Path = Path(leadingColon: bool, segments: seq<PathSegment>)

  /** `Path::is_ident`: no leading `::`, one segment, no generic arguments, and that identifier. */
  predicate IsIdent(p: Path, ident: string)
  {
    !p.leadingColon && |p.segments| == 1 && !p.segments[0].hasArguments && p.segments[0].ident == ident
  }

  /** The path consisting of one plain identifier. */
  function SimplePath(ident: string): (p: Path)
    ensures IsIdent(p, ident)
    ensures forall other :: IsIdent(p, other) <==> other == ident
  {
    Path(false, [PathSegment(ident, false)])
  }

  /** A type, kept only as far as the macros distinguish it. */
  datatype Type = Unit | Named(path: Path) | Other(text: string)

  /** A pattern in argument position. */
  datatype Pat = PatIdent(ident: string) | PatWild | PatTuple(elems: seq<Pat>) | PatOther

  /** `FnArg`: `self` in some form, or a pattern with a type. */
  datatype FnArg = Receiver | Typed(pat: Pat, ty: Type)

  /** `ReturnType`: no `->` at all, or `-> T`. */
  datatype ReturnType = Default | ReturnsType(ty: Type)

  datatype Signature = Signature(asyncness: bool, ident: string, inputs: seq<FnArg>, output: ReturnType)

  /** A method body, whose statements the macros never inspect. */
  datatype Block = Block(text: string)

  datatype TraitItemMethod = TraitItemMethod(sig: Signature, default: Option<Block>)

  /** `TraitItem`: only `Method` is accepted by the binding macro. */
  datatype TraitItem =
    | TraitConst(name: string)
    | TraitMethod(item: TraitItemMethod)
    | TraitType(name: string)
    | TraitMacro(text: string)

  datatype ItemTrait = ItemTrait(ident: string, items: seq<TraitItem>)

  /** `Meta` and `NestedMeta`: the structured reading of an attribute. */
  datatype Meta =
    | MetaPath(path: Path)
    | MetaList(path: Path, nested: seq<NestedMeta>)
    | MetaNameValue(path: Path, lit: string)

  datatype NestedMeta = NestedItem(meta: Meta) | NestedLit(lit: string)

  /** The tokens after an attribute's path, as far as `parse_meta` can read them. */
  datatype AttrArgs = NoArgs | ListArgs(nested: seq<NestedMeta>) | NameValueArgs(lit: string) | Unparsable

  datatype Attribute = Attribute(path: Path, args: AttrArgs)

  /** A compile error the macro reports instead of expanding. */
  datatype BindError = BindError(message: string)

  /** `Attribute::parse_meta`. */
  function ParseMeta(a: Attribute): (r: Result<Meta, BindError>)
    ensures r.Ok? <==> !a.args.Unparsable?
    ensures r.Ok? ==> r.value.path == a.path
    ensures r.Ok? && r.value.MetaList? <==> a.args.ListArgs?
    ensures a.args.ListArgs? ==> r == Ok(MetaList(a.path, a.args.nested))
  {
    match a.args
    case NoArgs => Ok(MetaPath(a.path))
    case ListArgs(nested) => Ok(MetaList(a.path, nested))
    case NameValueArgs(lit) => Ok(MetaNameValue(a.path, lit))
    case Unparsable => Err(BindError("expected attribute arguments"))
  }

  /** A struct field: its attributes, its name (none in a tuple struct) and its type. */
  datatype Field = Field(attrs: seq<Attribute>, ident: Option<string>, ty: Type)

  datatype ItemStruct = ItemStruct(ident: string, fields: seq<Field>)
}
