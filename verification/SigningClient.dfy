/** The broker's side of the signer protocol: connecting by a challenge, and signing. */
module SigningClient {
  import opened Common
  import opened SigningWire
  import opened SigningServer

  datatype Client = Client(scope: Bytes, publicKey: Key, nextID: int)

  datatype Outcome = Got(signature: Signature) | Failed

  function ChallengeRequest(c: Client, nonce: Bytes): Request {
    Request(SIGNER_PROTOCOL_VERSION, c.nextID, "challenge", c.scope, nonce, [])
  }

  function SignRequest(c: Client, payload: Bytes): Request {
    Request(SIGNER_PROTOCOL_VERSION, c.nextID, "sign", c.scope, [], payload)
  }

  /** The checks on any response that comes back, whoever sent it. */
  predicate Answers(request: Request, r: Response) {
    && r.version == SIGNER_PROTOCOL_VERSION && r.id == request.id
    && (!r.ok ==> r.present == {FVersion, FId, FOk, FError} && r.error != "")
  }

  predicate ConfirmsChallenge(c: Client, nonce: Bytes, r: Response) {
    && r.ok && r.present == {FVersion, FId, FOk, FPublicKey, FSignature} && r.publicKey == Some(c.publicKey)
    && r.signature.Some? && Verifies(c.publicKey, Message(Challenge, c.scope, nonce), r.signature.value)
  }

  predicate ConfirmsSignature(c: Client, payload: Bytes, r: Response) {
    && r.ok && r.present == {FVersion, FId, FOk, FSignature}
    && r.signature.Some? && Verifies(c.publicKey, Message(Sign, c.scope, payload), r.signature.value)
  }

  /** What the client makes of a response to its sign request. */
  function Judge(c: Client, payload: Bytes, r: Response): Outcome {
    if Answers(SignRequest(c, payload), r) && ConfirmsSignature(c, payload, r) then Got(r.signature.value) else Failed
  }

  // ---------------------------------------------------------------- a client and a server

  datatype Channel = Channel(client: Client, server: Server)

  /** One signing exchange; a frame over the size limit is not sent, but its ID is spent. */
  function SignOnce(ch: Channel, payload: Bytes): (Channel, Outcome) {
    var request := SignRequest(ch.client, payload);
    var client := ch.client.(nextID := Next(ch.client.nextID));
    if !Fits(request) then (Channel(client, ch.server), Failed)
    else
      var (server, r) := Handle(ch.server, Marshalled(request));
      (Channel(client, server), Judge(ch.client, payload, r))
  }

  /** Connecting to a fresh server: the first ID is spent on the challenge. */
  function Connect(scope: Bytes, publicKey: Key, server: Server, nonce: Bytes): Option<Channel> {
    var client := Client(scope, publicKey, 1);
    var request := ChallengeRequest(client, nonce);
    if !Fits(request) then None
    else
      var (after, r) := Handle(server, Marshalled(request));
      if Answers(request, r) && ConfirmsChallenge(client, nonce, r)
      then Some(Channel(client.(nextID := 2), after)) else None
  }

  /** A client and the server of its scope and key, in step. */
  predicate Paired(ch: Channel) {
    && ch.client.scope == ch.server.scope && ch.client.publicKey == ch.server.key
    && NulFree(ch.client.scope) && Audited(ch.server)
  }

  /** The server's last ID is one below the client's next one, until the last 64-bit ID is spent. */
  predicate InStep(ch: Channel) {
    && Paired(ch) && MIN_INT64 <= ch.client.nextID <= MAX_INT64
    && (ch.client.nextID > 0 ==> ch.server.lastID == ch.client.nextID - 1)
  }

  /** Connecting succeeds exactly with a server of the expected scope and key, and leaves the two in step. */
  lemma ConnectPairs(scope: Bytes, publicKey: Key, key: Key, served: Bytes, nonce: Bytes)
    requires NulFree(scope) && nonce != []
    ensures var ch := Connect(scope, publicKey, Server(served, key, 0, 0, []), nonce);
            && (ch.Some? <==>
                  served == scope && key == publicKey && Fits(ChallengeRequest(Client(scope, publicKey, 1), nonce)))
            && (ch.Some? ==> InStep(ch.value) && ch.value.client.nextID == 2 && ch.value.server.audit == [])
  {
    var request := ChallengeRequest(Client(scope, publicKey, 1), nonce);
    assert Marshalled(request).present == {FVersion, FId, FOp, FScope, FChallenge};
  }

  predicate Signable(ch: Channel, payload: Bytes) {
    payload != [] && Fits(SignRequest(ch.client, payload)) && ch.client.nextID > 0
  }

  /** In step, a sign succeeds exactly when the payload is not empty, its frame fits and the IDs are not
      used up; then the signature covers this request's payload under this scope and key, the server has
      audited it with the client's ID, and the two are in step again. */
  lemma SignSucceedsIff(ch: Channel, payload: Bytes)
    requires InStep(ch)
    ensures SignOnce(ch, payload).1.Got? <==> Signable(ch, payload)
    ensures Signable(ch, payload) ==>
              var (next, o) := SignOnce(ch, payload);
              && o.signature == Signature(ch.client.publicKey, Message(Sign, ch.client.scope, payload))
              && next.server.audit == ch.server.audit + [Audit(ch.client.nextID, o.signature.message)]
              && InStep(next) && next.server.lastID == ch.client.nextID
              && next.client == ch.client.(nextID := Next(ch.client.nextID))
  {
    var request := SignRequest(ch.client, payload);
    if Fits(request) {
      if payload == [] {
        assert FPayload !in Marshalled(request).present;
      } else {
        assert Marshalled(request).present == {FVersion, FId, FOp, FScope, FPayload};
      }
    }
  }
}
