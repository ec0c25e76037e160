/**
 The broker attached to signers that may answer anything: what its client can still rely on.
 */
module SigningExposure {
  import opened Common
  import opened Collections
  import opened SigningWire
  import opened SigningServer
  import opened SigningClient
  import opened SigningBroker

  /** The broker without its signers: only its own ends of the connections. */
  datatype Exposed = Exposed(lastRequestID: int, apply: Option<Client>, eval: Option<Client>) {
    function End(which: bool): Option<Client> { if which then eval else apply }

    function WithEnd(which: bool, c: Client): Exposed {
      if which then this.(eval := Some(c)) else this.(apply := Some(c))
    }
  }

  /** `answer` is what came back, if anything did; a frame over the size limit is not even sent. */
  function SignAgainst(c: Client, payload: Bytes, answer: Option<Response>): Outcome {
    if !Fits(SignRequest(c, payload)) || answer.None? then Failed else Judge(c, payload, answer.value)
  }

  datatype ExposedTurn = ExposedTurn(broker: Exposed, reply: Option<Reply>, running: bool)

  function SignExposed(b: Exposed, id: int, which: bool, payload: Bytes, answer: Option<Response>): ExposedTurn {
    match b.End(which)
    case None => ExposedTurn(b, Some(Error(id, "signer is not provisioned")), true)
    case Some(c) =>
      var after := b.WithEnd(which, c.(nextID := Next(c.nextID)));
      match SignAgainst(c, payload, answer)
      case Got(s) => ExposedTurn(after, Some(Attested(id, s)), true)
      case Failed => ExposedTurn(after, Some(Error(id, "external signer failed")), false)
  }

  predicate IsNew(b: Exposed, r: BrokerRequest) { EnvelopeOk(r) && r.id > 0 && r.id > b.lastRequestID }

  function ReceiveExposed(b: Exposed, r: BrokerRequest, answer: Option<Response>): ExposedTurn {
    if !EnvelopeOk(r) then ExposedTurn(b, Some(Error(r.id, "malformed")), true)
    else if !IsNew(b, r) then ExposedTurn(b, Some(Error(r.id, "ID must be positive and strictly increasing")), true)
    else
      var c := b.(lastRequestID := r.id);
      if !ShapeOk(r) then ExposedTurn(c, Some(Error(r.id, "malformed")), true)
      else match Kind(r.op)
        case Plain =>
          if r.op == "shutdown" then ExposedTurn(c, None, false) else ExposedTurn(c, Some(Status(r.id)), true)
        case Signing(which) => SignExposed(c, r.id, which, r.payload.value, answer)
        case Unknown => ExposedTurn(c, Some(Error(r.id, "operation is not supported")), true)
  }

  // ---------------------------------------------------------------- honest signers are one case

  function Ends(ch: Option<Channel>): Option<Client> { if ch.None? then None else Some(ch.value.client) }

  function Expose(b: Broker): Exposed { Exposed(b.lastRequestID, Ends(b.signers.apply), Ends(b.signers.eval)) }

  /** What an attached signer process answers to the request. */
  function HonestAnswer(b: Broker, r: BrokerRequest): Option<Response> {
    if Kind(r.op).Signing? && r.payload.Some? && Select(b.signers, Kind(r.op).eval).Some? then
      var ch := Select(b.signers, Kind(r.op).eval).value;
      Some(Handle(ch.server, Marshalled(SignRequest(ch.client, r.payload.value))).1)
    else None
  }

  /** The broker with signer processes does what the exposed broker does with their answers. */
  lemma HonestIsExposed(b: Broker, r: BrokerRequest)
    ensures var t := Receive(b, r);
            ReceiveExposed(Expose(b), r, HonestAnswer(b, r)) == ExposedTurn(Expose(t.broker), t.reply, t.running)
  {
    if EnvelopeOk(r) && Fresh(b, r) && ShapeOk(r) && Kind(r.op).Signing? {
      HonestSign(b.(lastRequestID := r.id), r.id, Kind(r.op).eval, r.payload.value, HonestAnswer(b, r));
    }
  }

  lemma HonestSign(b: Broker, id: int, which: bool, payload: Bytes, answer: Option<Response>)
    requires var ch := Select(b.signers, which);
             ch.Some? ==> answer == Some(Handle(ch.value.server, Marshalled(SignRequest(ch.value.client, payload))).1)
    ensures var t := SignFor(b, id, which, payload);
            SignExposed(Expose(b), id, which, payload, answer) == ExposedTurn(Expose(t.broker), t.reply, t.running)
  {
  }

  // ---------------------------------------------------------------- runs against any answers

  function AfterExposed(b: Exposed, script: seq<BrokerRequest>, answers: seq<Option<Response>>, n: nat): Option<Exposed>
    requires n <= |script| == |answers|
  {
    if n == 0 then Some(b)
    else match AfterExposed(b, script, answers, n - 1)
      case None => None
      case Some(c) =>
        var t := ReceiveExposed(c, script[n - 1], answers[n - 1]);
        if t.running then Some(t.broker) else None
  }

  function RepliesExposed(b: Exposed, script: seq<BrokerRequest>, answers: seq<Option<Response>>, n: nat): seq<Reply>
    requires n <= |script| == |answers|
  {
    if n == 0 then []
    else match AfterExposed(b, script, answers, n - 1)
      case None => RepliesExposed(b, script, answers, n - 1)
      case Some(c) =>
        var reply := ReceiveExposed(c, script[n - 1], answers[n - 1]).reply;
        RepliesExposed(b, script, answers, n - 1) + if reply.Some? then [reply.value] else []
  }

  /** Each answer is what the attached signer process gives when the broker gets that far. */
  predicate HonestAnswers(b: Broker, script: seq<BrokerRequest>, answers: seq<Option<Response>>) {
    |answers| == |script| &&
    forall k :: 0 <= k < |script| && After(b, script, k).Some? ==>
      answers[k] == HonestAnswer(After(b, script, k).value, script[k])
  }

  /** Before request `n` the two brokers are in the same state and have sent the same replies. */
  predicate Together(b: Broker, script: seq<BrokerRequest>, answers: seq<Option<Response>>, n: nat)
    requires n <= |script| == |answers|
  {
    var here := After(b, script, n);
    && AfterExposed(Expose(b), script, answers, n) == (if here.Some? then Some(Expose(here.value)) else None)
    && RepliesExposed(Expose(b), script, answers, n) == Replies(b, script, n)
  }

  lemma ExposedOneMore(b: Exposed, script: seq<BrokerRequest>, answers: seq<Option<Response>>, n: nat, c: Exposed)
    requires n < |script| == |answers| && AfterExposed(b, script, answers, n) == Some(c)
    ensures var t := ReceiveExposed(c, script[n], answers[n]);
            && AfterExposed(b, script, answers, n + 1) == (if t.running then Some(t.broker) else None)
            && RepliesExposed(b, script, answers, n + 1) ==
               RepliesExposed(b, script, answers, n) + (if t.reply.Some? then [t.reply.value] else [])
  {
  }

  lemma StillTogether(b: Broker, script: seq<BrokerRequest>, answers: seq<Option<Response>>, n: nat)
    requires HonestAnswers(b, script, answers) && n < |script| && Together(b, script, answers, n)
    requires After(b, script, n).Some?
    ensures Together(b, script, answers, n + 1)
  {
    var c := After(b, script, n).value;
    OneMore(b, script, n);
    ExposedOneMore(Expose(b), script, answers, n, Expose(c));
    HonestIsExposed(c, script[n]);
  }

  lemma EndedTogether(b: Broker, script: seq<BrokerRequest>, answers: seq<Option<Response>>, n: nat)
    requires n < |script| == |answers| && Together(b, script, answers, n) && After(b, script, n).None?
    ensures Together(b, script, answers, n + 1)
  {
  }

  lemma TogetherAtStart(b: Broker, script: seq<BrokerRequest>, answers: seq<Option<Response>>)
    requires |answers| == |script|
    ensures Together(b, script, answers, 0)
  {
  }

  function TogetherAt(b: Broker, script: seq<BrokerRequest>, answers: seq<Option<Response>>): nat -> bool
    requires |answers| == |script|
  {
    (n: nat) => n <= |script| && Together(b, script, answers, n)
  }

  lemma TogetherOn(b: Broker, script: seq<BrokerRequest>, answers: seq<Option<Response>>, n: nat)
    requires HonestAnswers(b, script, answers) && n < |script| && TogetherAt(b, script, answers)(n)
    ensures TogetherAt(b, script, answers)(n + 1)
  {
    if After(b, script, n).Some? {
      StillTogether(b, script, answers, n);
    } else {
      EndedTogether(b, script, answers, n);
    }
  }

  /** Over every run the broker with signer processes is the exposed broker with their answers: it stops at
      the same request, in the same state, with the same replies. */
  lemma HonestRunIsExposed(b: Broker, script: seq<BrokerRequest>, answers: seq<Option<Response>>, n: nat)
    requires HonestAnswers(b, script, answers) && n <= |script|
    ensures Together(b, script, answers, n)
  {
    TogetherAtStart(b, script, answers);
    forall k: nat | k < |script| && TogetherAt(b, script, answers)(k) ensures TogetherAt(b, script, answers)(k + 1) {
      TogetherOn(b, script, answers, k);
    }
    Upwards(TogetherAt(b, script, answers), |script|, n);
  }

  /** The same signer with the same scope and key, further on in its IDs. */
  predicate SameEnd(a: Option<Client>, b: Option<Client>) {
    (a.Some? <==> b.Some?) && (a.Some? ==> b.value.scope == a.value.scope && b.value.publicKey == a.value.publicKey)
  }

  predicate SameEnds(a: Exposed, b: Exposed) {
    a.lastRequestID <= b.lastRequestID && SameEnd(a.apply, b.apply) && SameEnd(a.eval, b.eval)
  }

  lemma ExposedKeeps(b: Exposed, r: BrokerRequest, answer: Option<Response>)
    ensures SameEnds(b, ReceiveExposed(b, r, answer).broker)
    ensures IsNew(b, r) ==> ReceiveExposed(b, r, answer).broker.lastRequestID == r.id
  {
    if IsNew(b, r) && ShapeOk(r) && Kind(r.op).Signing? {
      SignExposedKeeps(b.(lastRequestID := r.id), r.id, Kind(r.op).eval, r.payload.value, answer);
    }
  }

  lemma SignExposedKeeps(b: Exposed, id: int, which: bool, payload: Bytes, answer: Option<Response>)
    ensures var after := SignExposed(b, id, which, payload, answer).broker;
            SameEnds(b, after) && after.lastRequestID == b.lastRequestID
  {
  }

  lemma {:induction false} ExposedRunKeeps(b: Exposed, script: seq<BrokerRequest>, answers: seq<Option<Response>>,
                                           n: nat)
    requires n <= |script| == |answers| && AfterExposed(b, script, answers, n).Some?
    ensures SameEnds(b, AfterExposed(b, script, answers, n).value)
  {
    if n > 0 {
      ExposedRunKeeps(b, script, answers, n - 1);
      ExposedKeeps(AfterExposed(b, script, answers, n - 1).value, script[n - 1], answers[n - 1]);
    }
  }

  lemma AttestedIsVerified(b: Exposed, r: BrokerRequest, answer: Option<Response>)
    requires var reply := ReceiveExposed(b, r, answer).reply; reply.Some? && reply.value.Attested?
    ensures IsNew(b, r) && ShapeOk(r) && Kind(r.op).Signing? && b.End(Kind(r.op).eval).Some?
    ensures var c := b.End(Kind(r.op).eval).value;
            ReceiveExposed(b, r, answer).reply ==
            Some(Attested(r.id, Signature(c.publicKey, Message(Sign, c.scope, r.payload.value))))
  {
  }

  /** In every run, whatever the signers answer: a signature that the broker hands on belongs to a new,
      well-formed signing request, and is that of the key provisioned at the start over that request's
      payload and that signer's scope. */
  lemma EveryAttestedReplyIsVerified(b: Exposed, script: seq<BrokerRequest>, answers: seq<Option<Response>>, n: nat)
    requires n < |script| == |answers| && AfterExposed(b, script, answers, n).Some?
    requires var reply := ReceiveExposed(AfterExposed(b, script, answers, n).value, script[n], answers[n]).reply;
             reply.Some? && reply.value.Attested?
    ensures var c, r := AfterExposed(b, script, answers, n).value, script[n];
            && IsNew(c, r) && ShapeOk(r) && Kind(r.op).Signing? && b.End(Kind(r.op).eval).Some?
            && var end := b.End(Kind(r.op).eval).value;
               ReceiveExposed(c, r, answers[n]).reply ==
               Some(Attested(r.id, Signature(end.publicKey, Message(Sign, end.scope, r.payload.value))))
  {
    ExposedRunKeeps(b, script, answers, n);
    AttestedIsVerified(AfterExposed(b, script, answers, n).value, script[n], answers[n]);
  }

  lemma {:induction false} NewStaysBelow(b: Exposed, script: seq<BrokerRequest>, answers: seq<Option<Response>>,
                                         i: nat, j: nat)
    requires i < j <= |script| == |answers| && AfterExposed(b, script, answers, j).Some?
    ensures AfterExposed(b, script, answers, i).Some?
    ensures IsNew(AfterExposed(b, script, answers, i).value, script[i]) ==>
              script[i].id <= AfterExposed(b, script, answers, j).value.lastRequestID
    decreases j
  {
    ExposedKeeps(AfterExposed(b, script, answers, j - 1).value, script[j - 1], answers[j - 1]);
    if i < j - 1 { NewStaysBelow(b, script, answers, i, j - 1); }
  }

  /** Nor can the signers make the broker take an ID twice: handed-on signatures have increasing IDs. */
  lemma AttestedIDsIncrease(b: Exposed, script: seq<BrokerRequest>, answers: seq<Option<Response>>, i: nat, j: nat)
    requires i < j < |script| == |answers| && AfterExposed(b, script, answers, j).Some?
    ensures AfterExposed(b, script, answers, i).Some?
    ensures var first := ReceiveExposed(AfterExposed(b, script, answers, i).value, script[i], answers[i]).reply;
            var second := ReceiveExposed(AfterExposed(b, script, answers, j).value, script[j], answers[j]).reply;
            first.Some? && first.value.Attested? && second.Some? && second.value.Attested? ==>
              first.value.id < second.value.id
  {
    NewStaysBelow(b, script, answers, i, j);
    var c, d := AfterExposed(b, script, answers, i).value, AfterExposed(b, script, answers, j).value;
    var first := ReceiveExposed(c, script[i], answers[i]).reply;
    var second := ReceiveExposed(d, script[j], answers[j]).reply;
    if first.Some? && first.value.Attested? && second.Some? && second.value.Attested? {
      AttestedIsVerified(c, script[i], answers[i]);
      AttestedIsVerified(d, script[j], answers[j]);
    }
  }
}
