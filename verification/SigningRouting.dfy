/** Which signer answers which operation, by the names that clients send. */
module SigningRouting {
  import opened Common
  import opened SigningWire
  import opened SigningServer
  import opened SigningClient
  import opened SigningBroker
  import opened SigningExposure

  /** The request has a protocol envelope and an ID above all before it. */
  predicate Comes(last: int, r: BrokerRequest) {
    r.version == 4 && RVersion in r.present && RId in r.present && ROp in r.present && r.id > 0 && r.id > last
  }

  predicate CarriesNothing(r: BrokerRequest) { r.present == {RVersion, RId, ROp} }

  predicate CarriesPayload(r: BrokerRequest) { r.present == {RVersion, RId, ROp, RPayload} && r.payload.Some? }

  predicate AsksApply(last: int, r: BrokerRequest) {
    Comes(last, r) && r.op == "apply_ed25519_sign" && CarriesPayload(r)
  }

  predicate AsksEval(last: int, r: BrokerRequest) { Comes(last, r) && r.op == "eval_ed25519_sign" && CarriesPayload(r) }

  predicate AsksStatus(last: int, r: BrokerRequest) { Comes(last, r) && r.op == "status" && CarriesNothing(r) }

  predicate AsksShutdown(last: int, r: BrokerRequest) { Comes(last, r) && r.op == "shutdown" && CarriesNothing(r) }

  /** How a signing request for one scope is answered: `first` is the signer as it was connected, `now` as it is. */
  predicate AnsweredBy(first: Option<Channel>, now: Option<Channel>, scope: Bytes, r: BrokerRequest, t: Turn)
    requires r.payload.Some?
  {
    if first.None? || now.None? then first.None? && now.None? && t.running && Refuses(t.reply, r.id)
    else if Signable(now.value, r.payload.value) then
      && t.running
      && t.reply == Some(Attested(r.id, Signature(first.value.client.publicKey, Message(Sign, scope, r.payload.value))))
    else !t.running && Refuses(t.reply, r.id)
  }

  predicate Refuses(reply: Option<Reply>, id: int) { reply.Some? && reply.value.Error? && reply.value.id == id }

  lemma RequestIsRouted(c: Broker, r: BrokerRequest)
    requires BrokerOk(c)
    ensures var last, t := c.lastRequestID, Receive(c, r);
            && (AsksApply(last, r) ==> AnsweredBy(c.signers.apply, c.signers.apply, Ascii("apply_ed25519"), r, t))
            && (AsksEval(last, r) ==> AnsweredBy(c.signers.eval, c.signers.eval, Ascii("eval_ed25519"), r, t))
            && (AsksStatus(last, r) ==> t.running && t.reply == Some(Status(r.id)))
            && (AsksShutdown(last, r) ==> !t.running && t.reply == None)
            && (!AsksApply(last, r) && !AsksEval(last, r) && !AsksStatus(last, r) && !AsksShutdown(last, r) ==>
                  t.running && Refuses(t.reply, r.id))
  {
    ReplyMeans(c, r);
  }

  /** Over every run, by name: an apply request is answered by the apply signer connected at the start, under
      the apply scope; an eval request by the eval signer under the eval scope; status and shutdown by neither;
      and every other request is refused and leaves the broker running. */
  lemma RunIsRouted(b: Broker, script: seq<BrokerRequest>, n: nat)
    requires BrokerOk(b) && n < |script| && After(b, script, n).Some?
    ensures var c, r := After(b, script, n).value, script[n];
            var last, t := c.lastRequestID, Receive(c, r);
            && (AsksApply(last, r) ==> AnsweredBy(b.signers.apply, c.signers.apply, Ascii("apply_ed25519"), r, t))
            && (AsksEval(last, r) ==> AnsweredBy(b.signers.eval, c.signers.eval, Ascii("eval_ed25519"), r, t))
            && (AsksStatus(last, r) ==> t.running && t.reply == Some(Status(r.id)))
            && (AsksShutdown(last, r) ==> !t.running && t.reply == None)
            && (!AsksApply(last, r) && !AsksEval(last, r) && !AsksStatus(last, r) && !AsksShutdown(last, r) ==>
                  t.running && Refuses(t.reply, r.id))
  {
    RunStaysInStep(b, script, n);
    RequestIsRouted(After(b, script, n).value, script[n]);
  }

  /** The signature that a handed-on reply must carry, by the name of its operation. */
  predicate RightlyAttested(b: Exposed, last: int, r: BrokerRequest, s: Signature) {
    || (AsksApply(last, r) && b.apply.Some? &&
        s == Signature(b.apply.value.publicKey, Message(Sign, b.apply.value.scope, r.payload.value)))
    || (AsksEval(last, r) && b.eval.Some? &&
        s == Signature(b.eval.value.publicKey, Message(Sign, b.eval.value.scope, r.payload.value)))
  }

  /** Over every run, whatever the signers answer: only requests named for a signer are attested, each by the
      key and the scope of the signer it names. */
  lemma ExposedRunIsRouted(b: Exposed, script: seq<BrokerRequest>, answers: seq<Option<Response>>, n: nat)
    requires n < |script| == |answers| && AfterExposed(b, script, answers, n).Some?
    ensures var c := AfterExposed(b, script, answers, n).value;
            var reply := ReceiveExposed(c, script[n], answers[n]).reply;
            reply.Some? && reply.value.Attested? ==>
              reply.value.id == script[n].id && RightlyAttested(b, c.lastRequestID, script[n], reply.value.signature)
  {
    var c := AfterExposed(b, script, answers, n).value;
    var reply := ReceiveExposed(c, script[n], answers[n]).reply;
    if reply.Some? && reply.value.Attested? { EveryAttestedReplyIsVerified(b, script, answers, n); }
  }
}
