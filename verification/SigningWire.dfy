/**
 What the broker and the external signer exchange: signed messages with domain separation, and requests
 and responses as marshalled and decoded, with the fields that were present.
 */
module SigningWire {
  import opened Common

  const SIGNER_PROTOCOL_VERSION := 2
  const MAX_FRAME_BYTES := 64 * 1024 * 1024
  const MAX_INT64 := 0x7FFF_FFFF_FFFF_FFFF
  const MIN_INT64 := -0x8000_0000_0000_0000

  /** Signed 64-bit increment, which wraps. */
  function Next(id: int): int { if id == MAX_INT64 then MIN_INT64 else id + 1 }

  // ---------------------------------------------------------------- signed messages

  datatype Operation = Challenge | Sign

  function Ascii(s: string): Bytes {
    seq(|s|, i requires 0 <= i < |s| => if s[i] < 128 as char then s[i] as int else 0)
  }

  function Domain(op: Operation): Bytes {
    match op
    case Challenge => Ascii("axiom-encode/external-signer-challenge/v2") + [0]
    case Sign => Ascii("axiom-encode/external-signer-sign/v2") + [0]
  }

  /** What a signature covers. */
  function Message(op: Operation, scope: Bytes, body: Bytes): Bytes { Domain(op) + scope + [0] + body }

  predicate NulFree(s: Bytes) { forall i :: 0 <= i < |s| ==> s[i] != 0 }

  /** The place where the two domains differ. */
  const TELLING: nat := 29

  lemma DomainsTold(op: Operation)
    ensures |Domain(op)| > TELLING
    ensures Domain(op)[TELLING] == if op == Challenge then 'c' as int else 's' as int
  {
    var c, s := "axiom-encode/external-signer-challenge/v2", "axiom-encode/external-signer-sign/v2";
    assert c[TELLING] == 'c' && s[TELLING] == 's';
    assert Ascii(c)[TELLING] == 'c' as int && Ascii(s)[TELLING] == 's' as int;
  }

  lemma MessageTold(op: Operation, scope: Bytes, body: Bytes)
    ensures var m := Message(op, scope, body);
            |m| > TELLING && m[TELLING] == Domain(op)[TELLING] && m[|Domain(op)|..] == scope + [0] + body
  {
    DomainsTold(op);
  }

  function FirstNul(s: Bytes): nat { if s == [] || s[0] == 0 then 0 else 1 + FirstNul(s[1..]) }

  lemma {:induction false} FirstNulIs(a: Bytes, x: Bytes)
    requires NulFree(a)
    ensures FirstNul(a + [0] + x) == |a|
  {
    if a != [] {
      assert (a + [0] + x)[1..] == a[1..] + [0] + x;
      FirstNulIs(a[1..], x);
    }
  }

  /** A NUL-free text before a NUL determines both sides of it. */
  lemma NulSplits(a: Bytes, x: Bytes, b: Bytes, y: Bytes)
    requires NulFree(a) && NulFree(b) && a + [0] + x == b + [0] + y
    ensures a == b && x == y
  {
    FirstNulIs(a, x);
    FirstNulIs(b, y);
    var m, n := a + [0] + x, b + [0] + y;
    assert a == m[..|a|] && b == n[..|b|];
    assert x == m[|a| + 1..] && y == n[|b| + 1..];
  }

  /** The signed encoding is injective in operation, scope and body, for scopes without a NUL. */
  lemma MessageIsInjective(op: Operation, scope: Bytes, body: Bytes, op': Operation, scope': Bytes, body': Bytes)
    requires NulFree(scope) && NulFree(scope') && Message(op, scope, body) == Message(op', scope', body')
    ensures op == op' && scope == scope' && body == body'
  {
    MessageTold(op, scope, body);
    MessageTold(op', scope', body');
    DomainsTold(op);
    DomainsTold(op');
    assert op == op';
    NulSplits(scope, body, scope', body');
  }

  // ---------------------------------------------------------------- ideal signatures

  type Key = nat

  /** A signature that only the holder of the key can make, and only over this message. */
  datatype Signature = Signature(key: Key, message: Bytes)

  predicate Verifies(key: Key, message: Bytes, s: Signature) { s == Signature(key, message) }

  // ---------------------------------------------------------------- requests and responses

  datatype Field = FVersion | FId | FOp | FScope | FChallenge | FPayload | FOk | FError | FPublicKey | FSignature

  /** A request as the broker builds it. */
  datatype Request = Request(version: int, id: int, op: string, scope: Bytes, challenge: Bytes, payload: Bytes)

  /** A request as the signer decodes it, with the fields that were present. */
  datatype Received = Received(request: Request, present: set<Field>)

  /** Marshalling leaves out an empty challenge and an empty payload. */
  function Marshalled(r: Request): Received {
    Received(r, {FVersion, FId, FOp, FScope} + (if r.challenge == [] then {} else {FChallenge}) +
                (if r.payload == [] then {} else {FPayload}))
  }

  function Digits(n: nat): nat { if n < 10 then 1 else 1 + Digits(n / 10) }

  function Base64(n: nat): nat { 4 * ((n + 2) / 3) }

  /** The length of a marshalled request: `{"version":2,"id":N,"op":O,"scope":S}` and one byte field. */
  function FrameSize(r: Request): nat {
    38 + (if r.id >= 0 then Digits(r.id) else 1 + Digits(-r.id)) + |r.op| + |r.scope| +
    (if r.challenge == [] then 0 else 15 + Base64(|r.challenge|)) +
    (if r.payload == [] then 0 else 13 + Base64(|r.payload|))
  }

  predicate Fits(r: Request) { FrameSize(r) <= MAX_FRAME_BYTES }

  datatype Response = Response(version: int, id: int, ok: bool, error: string, publicKey: Option<Key>,
                               signature: Option<Signature>, present: set<Field>)

  function Refusal(id: int, error: string): Response {
    Response(SIGNER_PROTOCOL_VERSION, id, false, error, None, None, {FVersion, FId, FOk, FError})
  }

  function Challenged(id: int, key: Key, s: Signature): Response {
    Response(SIGNER_PROTOCOL_VERSION, id, true, "", Some(key), Some(s), {FVersion, FId, FOk, FPublicKey, FSignature})
  }

  function Signed(id: int, s: Signature): Response {
    Response(SIGNER_PROTOCOL_VERSION, id, true, "", None, Some(s), {FVersion, FId, FOk, FSignature})
  }
}
