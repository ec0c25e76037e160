/** The external signer: it answers one request after another for one key and one scope. */
module SigningServer {
  import opened Common
  import opened SigningWire

  /** One audited signature: the request's ID and the message signed. */
  datatype Audit = Audit(id: int, message: Bytes)

  datatype Server = Server(scope: Bytes, key: Key, lastID: int, signed: nat, audit: seq<Audit>)

  predicate Malformed(r: Received) {
    r.request.version != SIGNER_PROTOCOL_VERSION || !({FVersion, FId, FOp} <= r.present)
  }

  predicate Stale(s: Server, r: Received) { r.request.id <= 0 || r.request.id <= s.lastID }

  predicate Servable(s: Server, r: Received) {
    && r.request.scope == s.scope
    && ((r.request.op == "challenge" && r.present == {FVersion, FId, FOp, FScope, FChallenge}) ||
        (r.request.op == "sign" && r.present == {FVersion, FId, FOp, FScope, FPayload}))
  }

  /** The reply to one request; the ID counts as used even when the request is then refused. */
  function Handle(s: Server, r: Received): (Server, Response) {
    var q := r.request;
    if Malformed(r) then (s, Refusal(q.id, "malformed"))
    else if Stale(s, r) then (s, Refusal(q.id, "stale ID"))
    else
      var t := s.(lastID := q.id);
      if !Servable(t, r) then (t, Refusal(q.id, "not servable"))
      else if q.op == "challenge" then
        (t, Challenged(q.id, t.key, Signature(t.key, Message(Challenge, t.scope, q.challenge))))
      else
        var m := Message(Sign, t.scope, q.payload);
        (t.(signed := t.signed + 1, audit := t.audit + [Audit(q.id, m)]), Signed(q.id, Signature(t.key, m)))
  }

  /** IDs of audited signatures strictly increase up to the last ID, and each is counted once. */
  predicate Audited(s: Server) {
    && s.signed == |s.audit| && 0 <= s.lastID <= MAX_INT64
    && (forall i :: 0 <= i < |s.audit| ==> 0 < s.audit[i].id <= s.lastID)
    && (forall i, j :: 0 <= i < j < |s.audit| ==> s.audit[i].id < s.audit[j].id)
  }

  lemma HandleAudits(s: Server, r: Received)
    requires Audited(s) && r.request.id <= MAX_INT64
    ensures var (t, _) := Handle(s, r);
            Audited(t) && s.lastID <= t.lastID && s.audit <= t.audit && t.scope == s.scope && t.key == s.key
  {
  }

  // ---------------------------------------------------------------- whole connections

  /** The server after a sequence of requests. */
  function Served(s: Server, rs: seq<Received>): Server {
    if rs == [] then s else Handle(Served(s, rs[..|rs| - 1]), rs[|rs| - 1]).0
  }

  function Answered(s: Server, rs: seq<Received>): seq<Response> {
    if rs == [] then []
    else Answered(s, rs[..|rs| - 1]) + [Handle(Served(s, rs[..|rs| - 1]), rs[|rs| - 1]).1]
  }

  /** A response that carries a signature over a sign message, told by the message itself. */
  predicate CarriesSign(r: Response) {
    r.signature.Some? && |r.signature.value.message| > TELLING && r.signature.value.message[TELLING] == 's' as int
  }

  function Shown(r: Response): seq<Audit> { if CarriesSign(r) then [Audit(r.id, r.signature.value.message)] else [] }

  /** What the responses show to have been signed, in order. */
  function SignLog(responses: seq<Response>): seq<Audit> {
    if responses == [] then []
    else
      var r := responses[|responses| - 1];
      SignLog(responses[..|responses| - 1]) + Shown(r)
  }

  lemma HandleShows(s: Server, r: Received)
    ensures var (t, response) := Handle(s, r);
            && t.audit == s.audit + Shown(response)
            && (response.signature.Some? ==> response.signature.value.key == s.key && response.id == r.request.id)
  {
    MessageTold(Challenge, s.scope, r.request.challenge);
    MessageTold(Sign, s.scope, r.request.payload);
    DomainsTold(Challenge);
    DomainsTold(Sign);
  }

  /** The requests are what a decoder of 64-bit IDs yields. */
  predicate Decoded(rs: seq<Received>) { forall k :: 0 <= k < |rs| ==> rs[k].request.id <= MAX_INT64 }

  lemma {:induction false} ServedIsAudited(s: Server, rs: seq<Received>)
    requires Audited(s) && Decoded(rs)
    ensures Audited(Served(s, rs)) && Served(s, rs).key == s.key && Served(s, rs).scope == s.scope
  {
    if rs != [] {
      var n := |rs| - 1;
      forall k | 0 <= k < n ensures rs[..n][k].request.id <= MAX_INT64 { assert rs[..n][k] == rs[k]; }
      ServedIsAudited(s, rs[..n]);
      HandleAudits(Served(s, rs[..n]), rs[n]);
    }
  }

  lemma {:induction false} AuditIsShown(s: Server, rs: seq<Received>)
    requires s.audit == []
    ensures Served(s, rs).audit == SignLog(Answered(s, rs)) && |Answered(s, rs)| == |rs|
  {
    if rs != [] {
      var n := |rs| - 1;
      AuditIsShown(s, rs[..n]);
      HandleShows(Served(s, rs[..n]), rs[n]);
      assert Answered(s, rs)[..n] == Answered(s, rs[..n]);
    }
  }

  /** Over every connection, whoever sends what: after every prefix of the requests the audit lists exactly
      the sign signatures that went out, one to one and in order, and their IDs strictly increase, so no ID
      is ever signed twice. */
  lemma EverySignatureIsAudited(scope: Bytes, key: Key, rs: seq<Received>, n: nat)
    requires Decoded(rs) && n <= |rs|
    ensures var start := Server(scope, key, 0, 0, []);
            var served := Served(start, rs[..n]);
            Audited(served) && served.audit == SignLog(Answered(start, rs[..n])) && served.signed == |served.audit|
  {
    var start := Server(scope, key, 0, 0, []);
    forall k | 0 <= k < n ensures rs[..n][k].request.id <= MAX_INT64 { assert rs[..n][k] == rs[k]; }
    ServedIsAudited(start, rs[..n]);
    AuditIsShown(start, rs[..n]);
  }

  lemma {:induction false} AnsweredAt(s: Server, rs: seq<Received>, k: nat)
    requires k < |rs|
    ensures |Answered(s, rs)| == |rs| && Answered(s, rs)[k] == Handle(Served(s, rs[..k]), rs[k]).1
  {
    var n := |rs| - 1;
    if k < n {
      AnsweredAt(s, rs[..n], k);
      assert rs[..n][..k] == rs[..k] && rs[..n][k] == rs[k];
    } else {
      assert rs[..k] == rs[..n];
      if n > 0 { AnsweredAt(s, rs[..n], 0); }
    }
  }

  lemma {:induction false} ServedKeeps(s: Server, rs: seq<Received>)
    ensures Served(s, rs).key == s.key && Served(s, rs).scope == s.scope
  {
    if rs != [] { ServedKeeps(s, rs[..|rs| - 1]); }
  }

  /** The message that a signature for the request covers. */
  function Answering(sign: bool, scope: Bytes, q: Request): Bytes {
    if sign then Message(Sign, scope, q.payload) else Message(Challenge, scope, q.challenge)
  }

  /** Over every connection a signature is the served key's, over the message of the very request it answers. */
  lemma EverySignatureAnswersItsRequest(s: Server, rs: seq<Received>, k: nat)
    requires k < |rs|
    ensures |Answered(s, rs)| == |rs|
    ensures var q, r := rs[k].request, Answered(s, rs)[k];
            r.signature.Some? ==>
              && r.id == q.id && q.scope == s.scope
              && r.signature == Some(Signature(s.key, Answering(CarriesSign(r), s.scope, q)))
  {
    AnsweredAt(s, rs, k);
    ServedKeeps(s, rs[..k]);
    HandleShows(Served(s, rs[..k]), rs[k]);
    SignatureIs(Served(s, rs[..k]), rs[k]);
  }

  lemma SignatureIs(s: Server, r: Received)
    ensures var q, response := r.request, Handle(s, r).1;
            response.signature.Some? ==>
              && q.scope == s.scope
              && response.signature == Some(Signature(s.key, Answering(CarriesSign(response), s.scope, q)))
  {
    MessageTold(Challenge, s.scope, r.request.challenge);
    MessageTold(Sign, s.scope, r.request.payload);
    DomainsTold(Challenge);
    DomainsTold(Sign);
  }

  /** The signer process: `lastID`, `signed` and the audit change as requests come in. */
  class SignerServer {
    const scope: Bytes
    const key: Key
    var lastID: int
    var signed: nat
    var audit: seq<Audit>

    constructor (scope: Bytes, key: Key)
      ensures State() == Server(scope, key, 0, 0, [])
    {
      this.scope, this.key, lastID, signed, audit := scope, key, 0, 0, [];
    }

    function State(): Server
      reads this
    {
      Server(scope, key, lastID, signed, audit)
    }

    method HandleRequest(r: Received) returns (response: Response)
      modifies this
      ensures (State(), response) == Handle(old(State()), r)
    {
      var request := r.request;
      if request.version != SIGNER_PROTOCOL_VERSION ||
         FVersion !in r.present || FId !in r.present || FOp !in r.present {
        return Refusal(request.id, "malformed");
      }
      if request.id <= 0 || request.id <= lastID { return Refusal(request.id, "stale ID"); }
      lastID := request.id;
      if request.scope != scope { return Refusal(request.id, "not servable"); }
      if request.op == "challenge" {
        if r.present != {FVersion, FId, FOp, FScope, FChallenge} { return Refusal(request.id, "not servable"); }
        response := AnswerChallenge(request);
      } else if request.op == "sign" {
        if r.present != {FVersion, FId, FOp, FScope, FPayload} { return Refusal(request.id, "not servable"); }
        response := AnswerSign(request);
      } else {
        return Refusal(request.id, "not servable");
      }
    }

    method AnswerChallenge(request: Request) returns (response: Response)
      ensures response == Challenged(request.id, key, Signature(key, Message(Challenge, scope, request.challenge)))
    {
      var message := Domain(Challenge);
      message := message + scope;
      message := message + [0];
      message := message + request.challenge;
      response := Challenged(request.id, key, Signature(key, message));
    }

    method AnswerSign(request: Request) returns (response: Response)
      modifies this`signed, this`audit
      ensures signed == old(signed) + 1
      ensures audit == old(audit) + [Audit(request.id, Message(Sign, scope, request.payload))]
      ensures response == Signed(request.id, Signature(key, Message(Sign, scope, request.payload)))
    {
      var message := Domain(Sign);
      message := message + scope;
      message := message + [0];
      message := message + request.payload;
      signed := signed + 1;
      audit := audit + [Audit(request.id, message)];
      response := Signed(request.id, Signature(key, message));
    }
  }
}
