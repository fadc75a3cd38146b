/**
 * JSON values and the parts of serde / serde_json that the client relies on:
 * Rust's 64-bit integer range, the compact writer behind
 * `serde_json::to_string`, the string-literal escapes of RFC 8259 section 7,
 * and the decoders of the primitive types the message model is built from.
 * Floating-point numbers are not modelled: a `Number` is an integer.
 */
module SerdeJson {
  import opened Wrappers

  const I64_MIN: int := -0x8000_0000_0000_0000
  const I64_MAX: int := 0x7FFF_FFFF_FFFF_FFFF

  /** Rust's `i64`. */
  type Int64 = n: int | I64_MIN <= n <= I64_MAX

  datatype Json =
    | Null
    | Bool(b: bool)
    | Number(n: int)
    | Str(s: string)
    | Array(elems: seq<Json>)
    | Object(members: seq<Member>)

  /** One `"key": value` pair of an object; an object keeps its members in document order. */
  datatype Member = Member(key: string, value: Json)

  /** The failures serde reports while encoding or decoding (their display text is not modelled). */
  datatype SerdeError =
    | MissingField(field: string)
    | DuplicateField(field: string)
    | InvalidType(expected: string)
    | InvalidValue(expected: string)
    | InvalidLength(length: nat)
    | UnknownVariant(variant: string)
    | UntaggedMismatch(enumName: string)
    | NoFlattenedVariant(enumName: string)
    | Unencodable(reason: string)

  // ---------------------------------------------------------------------------
  // Integers in decimal, as `{}` and the JSON writer print them

  predicate IsDigit(c: char) { '0' <= c <= '9' }

  predicate AllDigits(s: string) { forall i :: 0 <= i < |s| ==> IsDigit(s[i]) }

  function DigitChar(d: nat): (c: char)
    requires d < 10
    ensures IsDigit(c) && c as int - '0' as int == d
  {
    ('0' as int + d) as char
  }

  /** The decimal digits of `n`, most significant first, without leading zeros. */
  function NatDigits(n: nat): (s: string)
    ensures |s| > 0 && AllDigits(s)
    ensures s[0] == '0' ==> n == 0
    decreases n
  {
    if n < 10 then [DigitChar(n)] else NatDigits(n / 10) + [DigitChar(n % 10)]
  }

  /** An integer in decimal, with a leading `-` when it is negative. */
  function Decimal(n: int): (s: string)
    ensures |s| > 0 && (IsDigit(s[0]) || s[0] == '-')
    ensures forall i :: 0 < i < |s| ==> IsDigit(s[i])
    ensures s[0] == '-' <==> n < 0
  {
    if n < 0 then "-" + NatDigits(-n) else NatDigits(n)
  }

  /** The value of a string of decimal digits. */
  function DigitsValue(s: string): nat
    requires AllDigits(s)
    decreases |s|
  {
    if s == [] then 0 else DigitsValue(s[..|s| - 1]) * 10 + (s[|s| - 1] as int - '0' as int)
  }

  /** Reads an optionally signed decimal integer; `None` for any other text. */
  function ParseDecimal(s: string): Option<int>
  {
    if |s| > 1 && s[0] == '-' && AllDigits(s[1..]) then Some(-(DigitsValue(s[1..]) as int))
    else if |s| > 0 && AllDigits(s) then Some(DigitsValue(s))
    else None
  }

  lemma {:induction false} NatDigitsValue(n: nat)
    ensures DigitsValue(NatDigits(n)) == n
  {
    if n >= 10 {
      NatDigitsValue(n / 10);
      var s := NatDigits(n);
      assert s[..|s| - 1] == NatDigits(n / 10);
    }
  }

  /** Printing an integer in decimal loses nothing. */
  lemma DecimalRoundTrip(n: int)
    ensures ParseDecimal(Decimal(n)) == Some(n)
  {
    if n < 0 {
      NatDigitsValue(-n);
      assert Decimal(n)[1..] == NatDigits(-n);
    } else {
      NatDigitsValue(n);
    }
  }

  lemma DecimalInjective(m: int, n: int)
    ensures Decimal(m) == Decimal(n) <==> m == n
  {
    DecimalRoundTrip(m);
    DecimalRoundTrip(n);
  }

  // ---------------------------------------------------------------------------
  // String literals

  function HexDigit(d: nat): (c: char)
    requires d < 16
  {
    "0123456789abcdef"[d]
  }

  function HexValue(c: char): Option<nat>
  {
    if '0' <= c <= '9' then Some(c as int - '0' as int)
    else if 'a' <= c <= 'f' then Some(c as int - 'a' as int + 10)
    else if 'A' <= c <= 'F' then Some(c as int - 'A' as int + 10)
    else None
  }

  /** How the compact writer emits one character inside a string literal. */
  function EscapeChar(c: char): string
  {
    if c == '"' then "\\\""
    else if c == '\\' then "\\\\"
    else if c == '\n' then "\\n"
    else if c == '\r' then "\\r"
    else if c == '\t' then "\\t"
    else if c as int == 0x08 then "\\b"
    else if c as int == 0x0C then "\\f"
    else if c as int < 0x20 then "\\u00" + [HexDigit(c as int / 16), HexDigit(c as int % 16)]
    else [c]
  }

  function Escape(s: string): string
    decreases |s|
  {
    if s == [] then "" else EscapeChar(s[0]) + Escape(s[1..])
  }

  /** A string as a JSON string literal. */
  function Quote(s: string): string
  {
    "\"" + Escape(s) + "\""
  }

  /** The character a one-letter escape stands for. */
  function ShortEscape(c: char): Option<char>
  {
    if c == '"' then Some('"')
    else if c == '\\' then Some('\\')
    else if c == '/' then Some('/')
    else if c == 'b' then Some(0x08 as char)
    else if c == 'f' then Some(0x0C as char)
    else if c == 'n' then Some('\n')
    else if c == 'r' then Some('\r')
    else if c == 't' then Some('\t')
    else None
  }

  /** The value of four hexadecimal digits. */
  function Hex4(t: string): Option<nat>
    requires |t| == 4
  {
    match (HexValue(t[0]), HexValue(t[1]), HexValue(t[2]), HexValue(t[3]))
    case (Some(a), Some(b), Some(c), Some(d)) => Some(((a * 16 + b) * 16 + c) * 16 + d)
    case _ => None
  }

  function Prepend(c: char, rest: Option<string>): Option<string>
  {
    if rest.Some? then Some([c] + rest.value) else None
  }

  /**
   * The character a literal body starts with and the number of characters
   * that encode it: 1 for a plain character, 2 for a one-letter escape, 6 for
   * `\\uXXXX` (surrogates aside); `None` if the body does not start validly.
   */
  function LeadingChar(t: string): (r: Option<(char, nat)>)
    requires t != []
    ensures r.Some? ==> 1 <= r.value.1 <= |t|
  {
    if t[0] == '\\' then
      if |t| < 2 then None
      else if ShortEscape(t[1]).Some? then Some((ShortEscape(t[1]).value, 2))
      else if t[1] == 'u' && |t| >= 6 then
        match Hex4(t[2..6])
        case Some(v) => if v < 0xD800 || 0xDFFF < v then Some((v as char, 6)) else None
        case None => None
      else None
    else if t[0] == '"' || t[0] as int < 0x20 then None
    else Some((t[0], 1))
  }

  /**
   * Reads the text between the quotes of a string literal back into the string
   * it denotes (RFC 8259 section 7, surrogate pairs aside); `None` if the text
   * is not a valid literal body.
   */
  function Unescape(t: string): Option<string>
    decreases |t|
  {
    if t == [] then Some([])
    else match LeadingChar(t)
      case None => None
      case Some((c, n)) => Prepend(c, Unescape(t[n..]))
  }

  lemma UnescapeChar(c: char, rest: string)
    ensures Unescape(EscapeChar(c) + rest) == Prepend(c, Unescape(rest))
  {
    var t := EscapeChar(c) + rest;
    var n := |EscapeChar(c)|;
    if c == '"' || c == '\\' || c == '\n' || c == '\r' || c == '\t' || c as int == 0x08 || c as int == 0x0C {
      LeadingShort(c, rest);
    } else if c as int < 0x20 {
      LeadingControl(c, rest);
    } else {
      assert LeadingChar(t) == Some((c, 1));
    }
    assert t[n..] == rest;
  }

  lemma LeadingShort(c: char, rest: string)
    requires c == '"' || c == '\\' || c == '\n' || c == '\r' || c == '\t' || c as int == 0x08 || c as int == 0x0C
    ensures LeadingChar(EscapeChar(c) + rest) == Some((c, |EscapeChar(c)|))
  {
    var t := EscapeChar(c) + rest;
    assert |EscapeChar(c)| == 2 && EscapeChar(c)[0] == '\\';
    assert t[0] == '\\' && ShortEscape(t[1]) == Some(c);
  }

  lemma LeadingControl(c: char, rest: string)
    requires c as int < 0x20 && c != '\n' && c != '\r' && c != '\t' && c as int != 0x08 && c as int != 0x0C
    ensures LeadingChar(EscapeChar(c) + rest) == Some((c, |EscapeChar(c)|))
  {
    var t := EscapeChar(c) + rest;
    var h := EscapeChar(c);
    assert h == "\\u00" + [HexDigit(c as int / 16), HexDigit(c as int % 16)];
    assert t[0] == '\\' && t[1] == 'u' && ShortEscape(t[1]).None?;
    assert t[2..6] == h[2..6];
    Hex4Control(h[2..6], c as int);
  }

  lemma Hex4Control(t: string, n: int)
    requires 0 <= n < 0x20 && t == "00" + [HexDigit(n / 16), HexDigit(n % 16)]
    ensures Hex4(t) == Some(n)
  {
    assert HexValue(t[2]) == Some(n / 16);
    assert HexValue(t[3]) == Some(n % 16);
  }

  /** Escaping a string loses nothing: the literal body reads back as the string. */
  lemma {:induction false} EscapeRoundTrip(s: string)
    ensures Unescape(Escape(s)) == Some(s)
  {
    if s != [] {
      EscapeRoundTrip(s[1..]);
      UnescapeChar(s[0], Escape(s[1..]));
      assert [s[0]] + s[1..] == s;
    }
  }

  // ---------------------------------------------------------------------------
  // The compact writer

  /** `serde_json::to_string` of a value: no whitespace, members and elements in order. */
  function Render(v: Json): string
    decreases v
  {
    match v
    case Null => "null"
    case Bool(b) => if b then "true" else "false"
    case Number(n) => Decimal(n)
    case Str(s) => Quote(s)
    case Array(es) => "[" + RenderElems(es) + "]"
    case Object(ms) => "{" + RenderMembers(ms) + "}"
  }

  /** Elements separated by commas. */
  function RenderElems(es: seq<Json>): string
    decreases es
  {
    if es == [] then ""
    else if |es| == 1 then Render(es[0])
    else Render(es[0]) + "," + RenderElems(es[1..])
  }

  /** Members as `"key":value`, separated by commas. */
  function RenderMembers(ms: seq<Member>): string
    decreases ms
  {
    if ms == [] then ""
    else if |ms| == 1 then RenderMember(ms[0])
    else RenderMember(ms[0]) + "," + RenderMembers(ms[1..])
  }

  function RenderMember(m: Member): string
    decreases m
  {
    Quote(m.key) + ":" + Render(m.value)
  }

  /** Characters the writer copies into a string literal unchanged. */
  predicate Plain(c: char) { c != '"' && c != '\\' && c as int >= 0x20 }

  lemma {:induction false} EscapePlain(s: string)
    requires forall i :: 0 <= i < |s| ==> Plain(s[i])
    ensures Escape(s) == s
  {
    if s != [] {
      EscapePlain(s[1..]);
      assert [s[0]] + s[1..] == s;
    }
  }

  /** A string without quotes, backslashes or control characters is quoted verbatim. */
  lemma QuotePlain(s: string)
    requires forall i :: 0 <= i < |s| ==> Plain(s[i])
    ensures Quote(s) == "\"" + s + "\""
  {
    EscapePlain(s);
  }

  /** An object of four members is written as the four members between braces. */
  lemma RenderObject4(a: Member, b: Member, c: Member, d: Member)
    ensures Render(Object([a, b, c, d]))
      == "{" + RenderMember(a) + "," + RenderMember(b) + "," + RenderMember(c) + "," + RenderMember(d) + "}"
  {
    var ms := [a, b, c, d];
    assert ms[1..] == [b, c, d] && ms[2..] == [c, d] && ms[3..] == [d];
    assert RenderMembers([d]) == RenderMember(d);
    assert RenderMembers([c, d]) == RenderMember(c) + "," + RenderMember(d);
    assert RenderMembers([b, c, d]) == RenderMember(b) + "," + RenderMembers([c, d]);
    assert RenderMembers(ms) == RenderMember(a) + "," + RenderMembers([b, c, d]);
    Flatten4(RenderMember(a), RenderMember(b), RenderMember(c), RenderMember(d));
  }

  lemma Flatten4(a: string, b: string, c: string, d: string)
    ensures "{" + (a + "," + (b + "," + (c + "," + d))) + "}" == "{" + a + "," + b + "," + c + "," + d + "}"
  {}

  // ---------------------------------------------------------------------------
  // Objects as member lists

  /** How many members of an object carry the key `k`. */
  function KeyCount(ms: seq<Member>, k: string): nat
    decreases |ms|
  {
    if ms == [] then 0 else (if ms[0].key == k then 1 else 0) + KeyCount(ms[1..], k)
  }

  /** The value of the first member with key `k`. */
  function Lookup(ms: seq<Member>, k: string): Json
    requires KeyCount(ms, k) > 0
    decreases |ms|
  {
    if ms[0].key == k then ms[0].value else Lookup(ms[1..], k)
  }

  lemma {:induction false} KeyCountAppend(a: seq<Member>, b: seq<Member>, k: string)
    ensures KeyCount(a + b, k) == KeyCount(a, k) + KeyCount(b, k)
    ensures KeyCount(a + b, k) > 0 ==>
      Lookup(a + b, k) == if KeyCount(a, k) > 0 then Lookup(a, k) else Lookup(b, k)
  {
    if a != [] {
      KeyCountAppend(a[1..], b, k);
      assert (a + b)[1..] == a[1..] + b;
    } else {
      assert a + b == b;
    }
  }

  // ---------------------------------------------------------------------------
  // Decoders of primitive types

  /** `i64::deserialize`: an integer in the 64-bit range. */
  function DecodeI64(v: Json): Result<Int64, SerdeError>
  {
    match v
    case Number(n) => if I64_MIN <= n <= I64_MAX then Ok(n) else Err(InvalidValue("i64"))
    case _ => Err(InvalidType("i64"))
  }

  /** `String::deserialize`. */
  function DecodeString(v: Json): Result<string, SerdeError>
  {
    match v
    case Str(s) => Ok(s)
    case _ => Err(InvalidType("a string"))
  }

  /**
   * `<()>::deserialize` as the flattened payload reads it, from serde's
   * buffered content: `null`, or an empty object, is the unit value.
   */
  function DecodeUnit(v: Json): (r: Result<(), SerdeError>)
    ensures r.Ok? <==> v == Null || v == Object([])
  {
    if v.Null? || v == Object([]) then Ok(()) else Err(InvalidType("unit"))
  }

  /** `i32::deserialize`: an integer in the 32-bit range. */
  function DecodeI32(v: Json): Result<int, SerdeError>
  {
    match v
    case Number(n) => if -0x8000_0000 <= n <= 0x7FFF_FFFF then Ok(n) else Err(InvalidValue("i32"))
    case _ => Err(InvalidType("i32"))
  }
}
