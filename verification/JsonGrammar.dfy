/**
 JSON texts (sections 2, 4, 5, 6 and 7 of RFC 8259) as printed concrete syntax trees, and the
 property of a tree that the signing frames must have.
 */
module JsonGrammar {
  import opened Common

  type Key = string

  const MAX_DEPTH := 32
  const MAX_KEY_BYTES := 256

  const QUOTE: byte := 0x22
  const BACKSLASH: byte := 0x5C
  const COMMA: byte := 0x2C
  const COLON: byte := 0x3A
  const OPEN_OBJECT: byte := 0x7B
  const CLOSE_OBJECT: byte := 0x7D
  const OPEN_ARRAY: byte := 0x5B
  const CLOSE_ARRAY: byte := 0x5D

  predicate IsSpace(b: byte) { b == 0x20 || b == 0x09 || b == 0x0A || b == 0x0D }

  predicate Spaces(s: Bytes) { forall i :: 0 <= i < |s| ==> IsSpace(s[i]) }

  /** Bytes at which an unquoted scalar stops. */
  predicate IsTerminator(b: byte) { IsSpace(b) || b == COMMA || b == CLOSE_ARRAY || b == CLOSE_OBJECT }

  // ---------------------------------------------------------------- scalars

  predicate IsDigit(b: byte) { 0x30 <= b <= 0x39 }

  predicate Digits(s: Bytes) { |s| > 0 && forall i :: 0 <= i < |s| ==> IsDigit(s[i]) }

  predicate IsHex(b: byte) { IsDigit(b) || 0x41 <= b <= 0x46 || 0x61 <= b <= 0x66 }

  predicate IsInteger(s: Bytes) { Digits(s) && (|s| > 1 ==> s[0] != 0x30) }

  predicate IsFraction(s: Bytes) { s == [] || (s[0] == 0x2E && Digits(s[1..])) }

  predicate IsExponent(s: Bytes) {
    s == [] ||
    ((s[0] == 0x65 || s[0] == 0x45) &&
     (Digits(s[1..]) || (|s| > 1 && (s[1] == 0x2B || s[1] == 0x2D) && Digits(s[2..]))))
  }

  predicate IsSign(s: Bytes) { s == [] || s == [0x2D] }

  ghost predicate IsNumber(s: Bytes) {
    exists sign: Bytes, whole: Bytes, fraction: Bytes, exponent: Bytes ::
      && s == sign + whole + fraction + exponent
      && IsSign(sign) && IsInteger(whole) && IsFraction(fraction) && IsExponent(exponent)
  }

  const TRUE: Bytes := [0x74, 0x72, 0x75, 0x65]
  const FALSE: Bytes := [0x66, 0x61, 0x6C, 0x73, 0x65]
  const NULL: Bytes := [0x6E, 0x75, 0x6C, 0x6C]

  ghost predicate IsScalar(s: Bytes) { s == TRUE || s == FALSE || s == NULL || IsNumber(s) }

  /** Escapes other than the six-byte Unicode form. */
  predicate IsEscape(b: byte) {
    b == QUOTE || b == BACKSLASH || b == 0x2F || b == 0x62 || b == 0x66 || b == 0x6E || b == 0x72 || b == 0x74
  }

  /** The bytes between the quotes of a string token. */
  predicate StringBody(s: Bytes) {
    if s == [] then true
    else if s[0] == BACKSLASH then
      && |s| >= 2
      && (if s[1] == 0x75 then
            |s| >= 6 && IsHex(s[2]) && IsHex(s[3]) && IsHex(s[4]) && IsHex(s[5]) && StringBody(s[6..])
          else IsEscape(s[1]) && StringBody(s[2..]))
    else s[0] >= 0x20 && s[0] != QUOTE && StringBody(s[1..])
  }

  function Quoted(body: Bytes): Bytes { [QUOTE] + body + [QUOTE] }

  // ---------------------------------------------------------------- values

  datatype Value =
    | Scalar(text: Bytes)
    | Str(body: Bytes)
    | EmptyArray(pad: Bytes)
    | Array(elements: Elements)
    | EmptyObject(pad: Bytes)
    | Object(members: Members)

  datatype Elements =
    | LastElement(before: Bytes, value: Value, after: Bytes)
    | Element(before: Bytes, value: Value, after: Bytes, next: Elements)

  datatype Members =
    | LastMember(before: Bytes, key: Bytes, gap: Bytes, pad: Bytes, value: Value, after: Bytes)
    | Member(before: Bytes, key: Bytes, gap: Bytes, pad: Bytes, value: Value, after: Bytes, next: Members)

  ghost predicate WellFormed(v: Value) {
    match v
    case Scalar(text) => IsScalar(text)
    case Str(body) => StringBody(body)
    case EmptyArray(pad) => Spaces(pad)
    case Array(elements) => WellFormedElements(elements)
    case EmptyObject(pad) => Spaces(pad)
    case Object(members) => WellFormedMembers(members)
  }

  ghost predicate WellFormedElements(e: Elements) {
    Spaces(e.before) && WellFormed(e.value) && Spaces(e.after) && (e.Element? ==> WellFormedElements(e.next))
  }

  ghost predicate WellFormedMembers(m: Members) {
    && Spaces(m.before) && StringBody(m.key) && Spaces(m.gap) && Spaces(m.pad) && WellFormed(m.value) && Spaces(m.after)
    && (m.Member? ==> WellFormedMembers(m.next))
  }

  /** The text of `v` followed by `post`. */
  function Text(v: Value, post: Bytes): Bytes
    decreases v
  {
    match v
    case Scalar(text) => text + post
    case Str(body) => StringText(body, post)
    case EmptyArray(pad) => [OPEN_ARRAY] + (pad + ([CLOSE_ARRAY] + post))
    case Array(elements) => [OPEN_ARRAY] + ElementsText(elements, post)
    case EmptyObject(pad) => [OPEN_OBJECT] + (pad + ([CLOSE_OBJECT] + post))
    case Object(members) => [OPEN_OBJECT] + MembersText(members, post)
  }

  function StringText(body: Bytes, post: Bytes): Bytes { [QUOTE] + (body + ([QUOTE] + post)) }

  /** Elements, the closing bracket, then `post`. */
  function ElementsText(e: Elements, post: Bytes): Bytes
    decreases e, 1
  {
    e.before + Text(e.value, e.after + ElementsTail(e, post))
  }

  function ElementsTail(e: Elements, post: Bytes): Bytes
    decreases e, 0
  {
    match e
    case LastElement(_, _, _) => [CLOSE_ARRAY] + post
    case Element(_, _, _, next) => [COMMA] + ElementsText(next, post)
  }

  /** Members, the closing brace, then `post`. */
  function MembersText(m: Members, post: Bytes): Bytes
    decreases m, 2
  {
    m.before + StringText(m.key, MemberValueText(m, post))
  }

  function MemberValueText(m: Members, post: Bytes): Bytes
    decreases m, 1
  {
    m.gap + ([COLON] + (m.pad + Text(m.value, m.after + MembersTail(m, post))))
  }

  function MembersTail(m: Members, post: Bytes): Bytes
    decreases m, 0
  {
    match m
    case LastMember(_, _, _, _, _, _) => [CLOSE_OBJECT] + post
    case Member(_, _, _, _, _, _, next) => [COMMA] + MembersText(next, post)
  }

  /** `raw` is the JSON text of the tree `v`: optional space, the value, optional space. */
  ghost predicate TextOf(raw: Bytes, v: Value) {
    WellFormed(v) && exists before: Bytes, after: Bytes :: IsFramed(raw, before, v, after)
  }

  ghost predicate IsFramed(raw: Bytes, before: Bytes, v: Value, after: Bytes) {
    Spaces(before) && Spaces(after) && raw == before + Text(v, after)
  }

  ghost predicate ValidJson(raw: Bytes) { exists v :: TextOf(raw, v) }

  // ---------------------------------------------------------------- what frames must satisfy

  function Max(a: nat, b: nat): nat { if a < b then b else a }

  /** Nesting level of the deepest value below `v`, which itself is at level 0. */
  function Height(v: Value): nat {
    match v
    case Array(elements) => 1 + HeightElements(elements)
    case Object(members) => 1 + HeightMembers(members)
    case _ => 0
  }

  function HeightElements(e: Elements): nat {
    if e.Element? then Max(Height(e.value), HeightElements(e.next)) else Height(e.value)
  }

  function HeightMembers(m: Members): nat {
    if m.Member? then Max(Height(m.value), HeightMembers(m.next)) else Height(m.value)
  }

  /** Encoded keys of one object, in text order. */
  function Keys(m: Members): seq<Bytes> {
    [Quoted(m.key)] + if m.Member? then Keys(m.next) else []
  }

  /** No two entries decode to the same key. */
  predicate NoneRepeated(keys: seq<Bytes>, decode: Bytes -> Option<Key>) {
    forall i, j :: 0 <= i < j < |keys| ==> decode(keys[i]) != decode(keys[j])
  }

  /** Every object at every depth has short, pairwise distinct keys. */
  predicate KeysSound(v: Value, decode: Bytes -> Option<Key>) {
    match v
    case Array(elements) => KeysSoundElements(elements, decode)
    case Object(members) =>
      && NoneRepeated(Keys(members), decode)
      && (forall k :: k in Keys(members) ==> |k| <= MAX_KEY_BYTES)
      && KeysSoundMembers(members, decode)
    case _ => true
  }

  predicate KeysSoundElements(e: Elements, decode: Bytes -> Option<Key>) {
    KeysSound(e.value, decode) && (e.Element? ==> KeysSoundElements(e.next, decode))
  }

  predicate KeysSoundMembers(m: Members, decode: Bytes -> Option<Key>) {
    KeysSound(m.value, decode) && (m.Member? ==> KeysSoundMembers(m.next, decode))
  }

  predicate Admissible(v: Value, decode: Bytes -> Option<Key>) {
    Height(v) <= MAX_DEPTH && KeysSound(v, decode)
  }

  /** Decoding succeeds on every well-formed string token. */
  ghost predicate DecodesStrings(decode: Bytes -> Option<Key>) {
    forall body :: StringBody(body) ==> decode(Quoted(body)).Some?
  }
}
