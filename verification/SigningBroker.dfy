/** The broker: it validates its client's requests and passes signing requests on to the external signers. */
module SigningBroker {
  import opened Common
  import opened SigningWire
  import opened SigningServer
  import opened SigningClient

  const PROTOCOL_VERSION := 4

  datatype RequestField = RVersion | RId | ROp | RPayload | RInitialization

  /** A decoded client request; the payload is absent when it was null or left out. */
  datatype BrokerRequest = BrokerRequest(version: int, id: int, op: string, payload: Option<Bytes>,
                                         present: set<RequestField>)

  datatype Reply = Error(id: int, why: string) | Status(id: int) | Attested(id: int, signature: Signature)

  datatype Signers = Signers(apply: Option<Channel>, eval: Option<Channel>)

  datatype Broker = Broker(lastRequestID: int, signers: Signers)

  predicate EnvelopeOk(r: BrokerRequest) { r.version == PROTOCOL_VERSION && {RVersion, RId, ROp} <= r.present }

  predicate Fresh(b: Broker, r: BrokerRequest) { r.id > 0 && r.id > b.lastRequestID }

  /** The fields allowed for each operation. */
  predicate ShapeOk(r: BrokerRequest) {
    RInitialization !in r.present &&
    match Kind(r.op)
    case Plain => r.present == {RVersion, RId, ROp}
    case Signing(_) => r.present == {RVersion, RId, ROp, RPayload} && r.payload.Some?
    case Unknown => r.present == {RVersion, RId, ROp}
  }

  datatype OperationKind = Plain | Signing(eval: bool) | Unknown

  function Kind(op: string): OperationKind {
    if op == "shutdown" || op == "status" then Plain
    else if op == "apply_ed25519_sign" then Signing(false)
    else if op == "eval_ed25519_sign" then Signing(true)
    else Unknown
  }

  function Select(s: Signers, eval: bool): Option<Channel> { if eval then s.eval else s.apply }

  function Update(s: Signers, eval: bool, ch: Channel): Signers {
    if eval then s.(eval := Some(ch)) else s.(apply := Some(ch))
  }

  /** The state after a request, the reply if there is one, and whether the broker goes on. */
  datatype Turn = Turn(broker: Broker, reply: Option<Reply>, running: bool)

  function SignFor(b: Broker, id: int, eval: bool, payload: Bytes): Turn {
    match Select(b.signers, eval)
    case None => Turn(b, Some(Error(id, "signer is not provisioned")), true)
    case Some(ch) =>
      var (next, o) := SignOnce(ch, payload);
      var after := b.(signers := Update(b.signers, eval, next));
      match o
      case Got(s) => Turn(after, Some(Attested(id, s)), true)
      case Failed => Turn(after, Some(Error(id, "external signer failed")), false)
  }

  function Receive(b: Broker, r: BrokerRequest): Turn {
    if !EnvelopeOk(r) then Turn(b, Some(Error(r.id, "malformed")), true)
    else if !Fresh(b, r) then Turn(b, Some(Error(r.id, "ID must be positive and strictly increasing")), true)
    else
      var c := b.(lastRequestID := r.id);
      if !ShapeOk(r) then Turn(c, Some(Error(r.id, "malformed")), true)
      else match Kind(r.op)
        case Plain => if r.op == "shutdown" then Turn(c, None, false) else Turn(c, Some(Status(r.id)), true)
        case Signing(eval) => SignFor(c, r.id, eval, r.payload.value)
        case Unknown => Turn(c, Some(Error(r.id, "operation is not supported")), true)
  }

  // ---------------------------------------------------------------- whole runs

  /** The broker after `n` requests of the script, if it is still running. */
  function After(b: Broker, script: seq<BrokerRequest>, n: nat): Option<Broker>
    requires n <= |script|
  {
    if n == 0 then Some(b)
    else match After(b, script, n - 1)
      case None => None
      case Some(c) => var t := Receive(c, script[n - 1]); if t.running then Some(t.broker) else None
  }

  function Replies(b: Broker, script: seq<BrokerRequest>, n: nat): seq<Reply>
    requires n <= |script|
  {
    if n == 0 then []
    else match After(b, script, n - 1)
      case None => Replies(b, script, n - 1)
      case Some(c) =>
        var t := Receive(c, script[n - 1]);
        Replies(b, script, n - 1) + if t.reply.Some? then [t.reply.value] else []
  }

  function ScopeOf(eval: bool): Bytes { Ascii(if eval then "eval_ed25519" else "apply_ed25519") }

  predicate SignerOk(ch: Option<Channel>, eval: bool) {
    ch.Some? ==> InStep(ch.value) && ch.value.client.scope == ScopeOf(eval)
  }

  predicate BrokerOk(b: Broker) { SignerOk(b.signers.apply, false) && SignerOk(b.signers.eval, true) }

  /** The same signers are connected, with the same keys, and their audits and IDs have only grown. */
  predicate Continues(a: Option<Channel>, b: Option<Channel>) {
    && (a.Some? <==> b.Some?)
    && (a.Some? ==>
          && b.value.client.publicKey == a.value.client.publicKey
          && a.value.server.audit <= b.value.server.audit && a.value.server.lastID <= b.value.server.lastID)
  }

  predicate Follows(a: Broker, b: Broker) {
    && a.lastRequestID <= b.lastRequestID
    && Continues(a.signers.apply, b.signers.apply) && Continues(a.signers.eval, b.signers.eval)
  }

  lemma SignKeeps(b: Broker, id: int, eval: bool, payload: Bytes)
    requires BrokerOk(b)
    ensures var t := SignFor(b, id, eval, payload);
            t.running ==> BrokerOk(t.broker) && t.broker.lastRequestID == b.lastRequestID && Follows(b, t.broker)
  {
    var ch := Select(b.signers, eval);
    if ch.Some? { SignSucceedsIff(ch.value, payload); }
  }

  lemma ReceiveKeeps(b: Broker, r: BrokerRequest)
    requires BrokerOk(b) && Receive(b, r).running
    ensures BrokerOk(Receive(b, r).broker) && Follows(b, Receive(b, r).broker)
  {
    var c := b.(lastRequestID := r.id);
    if EnvelopeOk(r) && Fresh(b, r) && ShapeOk(r) && Kind(r.op).Signing? {
      SignKeeps(c, r.id, Kind(r.op).eval, r.payload.value);
    }
  }

  lemma FollowsTransitive(a: Broker, b: Broker, c: Broker)
    requires Follows(a, b) && Follows(b, c)
    ensures Follows(a, c)
  {
  }

  /** Over every run both signers stay in step with the broker, and their audits and IDs only grow. */
  lemma {:induction false} RunStaysInStep(b: Broker, script: seq<BrokerRequest>, n: nat)
    requires BrokerOk(b) && n <= |script| && After(b, script, n).Some?
    ensures BrokerOk(After(b, script, n).value) && Follows(b, After(b, script, n).value)
  {
    if n > 0 {
      RunStaysInStep(b, script, n - 1);
      var c := After(b, script, n - 1).value;
      ReceiveKeeps(c, script[n - 1]);
      FollowsTransitive(b, c, Receive(c, script[n - 1]).broker);
    }
  }

  /** A request that the broker takes as a signing request. */
  predicate AsksSignature(b: Broker, r: BrokerRequest) {
    EnvelopeOk(r) && Fresh(b, r) && ShapeOk(r) && Kind(r.op).Signing?
  }

  /** The channel that a signing request goes to, if it is provisioned. */
  function ChannelFor(b: Broker, r: BrokerRequest): Option<Channel>
    requires AsksSignature(b, r)
  {
    Select(b.signers, Kind(r.op).eval)
  }

  /** The signature that answers a signing request under the key. */
  function SignatureFor(key: Key, r: BrokerRequest): Signature
    requires Kind(r.op).Signing? && r.payload.Some?
  {
    Signature(key, Message(Sign, ScopeOf(Kind(r.op).eval), r.payload.value))
  }

  lemma ReplyMeans(b: Broker, r: BrokerRequest)
    requires BrokerOk(b)
    ensures Receive(b, r).reply.Some? && Receive(b, r).reply.value.Attested? ==> AsksSignature(b, r)
    ensures AsksSignature(b, r) && ChannelFor(b, r).Some? ==>
              var ch, t := ChannelFor(b, r).value, Receive(b, r);
              && t.running == Signable(ch, r.payload.value)
              && t.reply == Some(if t.running
                                 then Attested(r.id, SignatureFor(ch.client.publicKey, r))
                                 else Error(r.id, "external signer failed"))
  {
    if AsksSignature(b, r) && ChannelFor(b, r).Some? {
      SignSucceedsIff(ChannelFor(b, r).value, r.payload.value);
    }
  }

  /** In every run: the `n`th reply is a signature only for a well-formed request with a fresh ID, and covers
      that request's payload under the scope of its operation and the key provisioned at the start; such a
      request is refused, and the broker then ends, exactly when its payload is empty, its frame is too
      large or the IDs are used up. */
  lemma RunReply(b: Broker, script: seq<BrokerRequest>, n: nat)
    requires BrokerOk(b) && n < |script| && After(b, script, n).Some?
    ensures var c, r := After(b, script, n).value, script[n];
            && (Receive(c, r).reply.Some? && Receive(c, r).reply.value.Attested? ==> AsksSignature(c, r))
            && (AsksSignature(c, r) ==>
                  var was, ch := Select(b.signers, Kind(r.op).eval), ChannelFor(c, r);
                  && (was.Some? <==> ch.Some?)
                  && (was.Some? ==>
                        && (Receive(c, r).running <==> Signable(ch.value, r.payload.value))
                        && Receive(c, r).reply ==
                           Some(if Receive(c, r).running
                                then Attested(r.id, SignatureFor(was.value.client.publicKey, r))
                                else Error(r.id, "external signer failed"))))
  {
    RunStaysInStep(b, script, n);
    ReplyMeans(After(b, script, n).value, script[n]);
  }

  predicate Accepts(b: Broker, r: BrokerRequest) { EnvelopeOk(r) && Fresh(b, r) }

  lemma ReceiveGrows(b: Broker, r: BrokerRequest)
    ensures b.lastRequestID <= Receive(b, r).broker.lastRequestID
    ensures Accepts(b, r) ==> Receive(b, r).broker.lastRequestID == r.id
  {
  }

  lemma {:induction false} AcceptedStaysBelow(b: Broker, script: seq<BrokerRequest>, i: nat, j: nat)
    requires i < j <= |script| && After(b, script, j).Some?
    ensures After(b, script, i).Some?
    ensures Accepts(After(b, script, i).value, script[i]) ==> script[i].id <= After(b, script, j).value.lastRequestID
    decreases j
  {
    ReceiveGrows(After(b, script, j - 1).value, script[j - 1]);
    if i < j - 1 { AcceptedStaysBelow(b, script, i, j - 1); }
  }

  /** Accepted request IDs strictly increase over a run, whatever the state the broker starts from. */
  lemma AcceptedIDsIncrease(b: Broker, script: seq<BrokerRequest>, i: nat, j: nat)
    requires i < j < |script| && After(b, script, j).Some?
    ensures After(b, script, i).Some?
    ensures Accepts(After(b, script, i).value, script[i]) && Accepts(After(b, script, j).value, script[j]) ==>
              script[i].id < script[j].id
  {
    AcceptedStaysBelow(b, script, i, j);
  }

  /** A signature obtained for one scope is no signature for the other, nor the answer to any challenge. */
  lemma ScopesAreApart(payload: Bytes, other: Bytes, op: Operation, scope: Bytes)
    requires NulFree(scope) && (op != Sign || scope != ScopeOf(false))
    ensures Message(Sign, ScopeOf(false), payload) != Message(op, scope, other)
  {
    assert NulFree(ScopeOf(false));
    if Message(Sign, ScopeOf(false), payload) == Message(op, scope, other) {
      MessageIsInjective(Sign, ScopeOf(false), payload, op, scope, other);
    }
  }

  // ---------------------------------------------------------------- the processes

  /** The broker's connection to one external signer. */
  class ExternalSigner {
    const scope: Bytes
    const publicKey: Key
    const peer: SignerServer
    var nextID: int

    constructor (scope: Bytes, publicKey: Key, peer: SignerServer, nextID: int)
      ensures this.peer == peer && State() == Channel(Client(scope, publicKey, nextID), peer.State())
    {
      this.scope, this.publicKey, this.peer, this.nextID := scope, publicKey, peer, nextID;
    }

    function State(): Channel
      reads this, peer
    {
      Channel(Client(scope, publicKey, nextID), peer.State())
    }

    /** Sends the request, if it fits, and checks the identity of the response. */
    method Exchange(request: Request) returns (response: Option<Response>)
      modifies peer
      ensures !Fits(request) ==> response.None? && peer.State() == old(peer.State())
      ensures Fits(request) ==>
                var (server, r) := Handle(old(peer.State()), Marshalled(request));
                peer.State() == server && response == if Answers(request, r) then Some(r) else None
    {
      if !Fits(request) { return None; }
      var r := peer.HandleRequest(Marshalled(request));
      if r.version != SIGNER_PROTOCOL_VERSION || r.id != request.id { return None; }
      if !r.ok {
        if r.present != {FVersion, FId, FOk, FError} || r.error == "" { return None; }
      }
      return Some(r);
    }

    method SignPayload(payload: Bytes) returns (o: Outcome)
      modifies this`nextID, peer
      ensures (State(), o) == SignOnce(old(State()), payload)
    {
      var message := Domain(Sign);
      message := message + scope;
      message := message + [0];
      message := message + payload;
      var requestID := nextID;
      nextID := Next(nextID);
      var response := Exchange(Request(SIGNER_PROTOCOL_VERSION, requestID, "sign", scope, [], payload));
      if response.None? || !response.value.ok { return Failed; }
      var r := response.value;
      if r.present != {FVersion, FId, FOk, FSignature} || r.signature.None? ||
         !Verifies(publicKey, message, r.signature.value) {
        return Failed;
      }
      return Got(r.signature.value);
    }
  }

  /** Attaches to a signer by having it sign a challenge, which spends the first ID. */
  method ConnectExternalSigner(scope: Bytes, expected: Key, peer: SignerServer, nonce: Bytes)
    returns (signer: ExternalSigner?)
    modifies peer
    ensures var ch := Connect(scope, expected, old(peer.State()), nonce);
            && (signer != null <==> ch.Some?)
            && (signer != null ==> fresh(signer) && signer.peer == peer && signer.State() == ch.value)
  {
    signer := new ExternalSigner(scope, expected, peer, 1);
    var challenge := Domain(Challenge);
    challenge := challenge + scope;
    challenge := challenge + [0];
    challenge := challenge + nonce;
    var response := signer.Exchange(Request(SIGNER_PROTOCOL_VERSION, signer.nextID, "challenge", scope, nonce, []));
    signer.nextID := Next(signer.nextID);
    if response.None? || !response.value.ok { return null; }
    var r := response.value;
    if r.present != {FVersion, FId, FOk, FPublicKey, FSignature} || r.publicKey != Some(expected) ||
       r.signature.None? || !Verifies(expected, challenge, r.signature.value) {
      return null;
    }
  }

  /** The broker process; the two signers are separate processes behind separate sockets. */
  class BrokerProcess {
    const apply: ExternalSigner?
    const eval: ExternalSigner?
    var lastRequestID: int

    ghost predicate Separate()
    {
      apply != null && eval != null ==> apply != eval && apply.peer != eval.peer
    }

    constructor (apply: ExternalSigner?, eval: ExternalSigner?)
      requires apply != null && eval != null ==> apply != eval && apply.peer != eval.peer
      ensures Separate() && this.apply == apply && this.eval == eval && lastRequestID == 0
    {
      this.apply, this.eval, lastRequestID := apply, eval, 0;
    }

    ghost function Footprint(): set<object>
    {
      (if apply == null then {} else {apply, apply.peer}) + (if eval == null then {} else {eval, eval.peer})
    }

    ghost function State(): Broker
      reads this, Footprint()
    {
      Broker(lastRequestID, Signers(if apply == null then None else Some(apply.State()),
                                    if eval == null then None else Some(eval.State())))
    }

    method SignWith(signer: ExternalSigner?, ghost which: bool, id: int, payload: Bytes)
      returns (reply: Reply, running: bool)
      requires Separate() && signer == if which then eval else apply
      modifies Footprint()
      ensures Turn(State(), Some(reply), running) == SignFor(old(State()), id, which, payload)
      ensures lastRequestID == old(lastRequestID)
    {
      if signer == null { return Error(id, "signer is not provisioned"), true; }
      var o := signer.SignPayload(payload);
      if o.Failed? { return Error(id, "external signer failed"), false; }
      return Attested(id, o.signature), true;
    }

    method ReceiveRequest(r: BrokerRequest) returns (reply: Option<Reply>, running: bool)
      requires Separate()
      modifies this`lastRequestID, Footprint()
      ensures Turn(State(), reply, running) == Receive(old(State()), r)
    {
      if r.version != PROTOCOL_VERSION || RVersion !in r.present || RId !in r.present || ROp !in r.present {
        return Some(Error(r.id, "malformed")), true;
      }
      if r.id <= 0 || r.id <= lastRequestID {
        return Some(Error(r.id, "ID must be positive and strictly increasing")), true;
      }
      lastRequestID := r.id;
      if !ShapeOk(r) { return Some(Error(r.id, "malformed")), true; }
      if r.op == "shutdown" { return None, false; }
      if r.op == "status" { return Some(Status(r.id)), true; }
      var answer;
      if r.op == "apply_ed25519_sign" {
        answer, running := SignWith(apply, false, r.id, r.payload.value);
      } else if r.op == "eval_ed25519_sign" {
        answer, running := SignWith(eval, true, r.id, r.payload.value);
      } else {
        return Some(Error(r.id, "operation is not supported")), true;
      }
      reply := Some(answer);
    }

    /** Serves the requests until the broker ends or no more come. */
    method Serve(script: seq<BrokerRequest>) returns (replies: seq<Reply>)
      requires Separate()
      modifies this`lastRequestID, Footprint()
      ensures replies == Replies(old(State()), script, |script|)
      ensures After(old(State()), script, |script|).Some? ==> After(old(State()), script, |script|).value == State()
    {
      replies := [];
      ghost var first := State();
      for n := 0 to |script|
        invariant replies == Replies(first, script, n) && After(first, script, n) == Some(State())
      {
        OneMore(first, script, n);
        var reply, running := ReceiveRequest(script[n]);
        if reply.Some? { replies := replies + [reply.value]; }
        if !running {
          RepliesEnd(first, script, n + 1, |script|);
          return;
        }
      }
    }
  }

  lemma OneMore(b: Broker, script: seq<BrokerRequest>, n: nat)
    requires n < |script| && After(b, script, n).Some?
    ensures var t := Receive(After(b, script, n).value, script[n]);
            && After(b, script, n + 1) == (if t.running then Some(t.broker) else None)
            && Replies(b, script, n + 1) == Replies(b, script, n) + (if t.reply.Some? then [t.reply.value] else [])
  {
  }

  lemma {:induction false} RepliesEnd(b: Broker, script: seq<BrokerRequest>, n: nat, m: nat)
    requires n <= m <= |script| && After(b, script, n).None?
    ensures After(b, script, m).None? && Replies(b, script, m) == Replies(b, script, n)
    decreases m
  {
    if n < m { RepliesEnd(b, script, n, m - 1); }
  }
}
