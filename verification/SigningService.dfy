/** Which requests the external signer answers, over whole connections. */
module SigningService {
  import opened Common
  import opened SigningWire
  import opened SigningServer

  /** The request has the protocol's version and carries its version, ID and operation. */
  predicate WellFormed(r: Received) {
    r.request.version == 2 && FVersion in r.present && FId in r.present && FOp in r.present
  }

  /** Its ID is positive and larger than that of every earlier well-formed request. */
  predicate FreshAfter(rs: seq<Received>, r: Received) {
    && r.request.id > 0
    && forall j :: 0 <= j < |rs| && WellFormed(rs[j]) ==> rs[j].request.id < r.request.id
  }

  lemma WellFormedIff(r: Received)
    ensures WellFormed(r) <==> !Malformed(r)
  {
    if WellFormed(r) { assert {FVersion, FId, FOp} <= r.present; }
    if !Malformed(r) {
      var needed := {FVersion, FId, FOp};
      assert FVersion in needed && FId in needed && FOp in needed;
    }
  }

  /** The last ID is the largest of a well-formed request so far, or the one at the start. */
  lemma {:induction false} LastIDIs(s: Server, rs: seq<Received>)
    requires s.lastID >= 0
    ensures var t := Served(s, rs);
            && t.key == s.key && t.scope == s.scope && t.lastID >= s.lastID
            && (forall j :: 0 <= j < |rs| && WellFormed(rs[j]) ==> rs[j].request.id <= t.lastID)
            && (t.lastID == s.lastID ||
                exists j :: 0 <= j < |rs| && WellFormed(rs[j]) && rs[j].request.id == t.lastID)
  {
    if rs != [] {
      var n := |rs| - 1;
      var init := rs[..n];
      LastIDIs(s, init);
      WellFormedIff(rs[n]);
      var before, after := Served(s, init), Served(s, rs);
      forall j | 0 <= j < |rs| && WellFormed(rs[j]) ensures rs[j].request.id <= after.lastID {
        if j < n { assert init[j] == rs[j]; }
      }
      if after.lastID == before.lastID && before.lastID != s.lastID {
        var j :| 0 <= j < n && WellFormed(init[j]) && init[j].request.id == before.lastID;
        assert WellFormed(rs[j]);
      }
    }
  }

  lemma FreshIff(s: Server, rs: seq<Received>, r: Received)
    requires s.lastID == 0
    ensures FreshAfter(rs, r) <==> !Stale(Served(s, rs), r)
  {
    LastIDIs(s, rs);
  }

  /** From its start the signer answers a request with a signature exactly when it is well formed, fresh, for its
      scope, and has exactly the fields of its operation; a `sign` is then answered over the payload and a
      `challenge` over the challenge, under its key. */
  lemma ServesIff(s: Server, rs: seq<Received>, k: nat)
    requires s.lastID == 0 && k < |rs|
    ensures |Answered(s, rs)| == |rs|
    ensures var r, a := rs[k], Answered(s, rs)[k];
            var sign := r.request.op == "sign" && r.present == {FVersion, FId, FOp, FScope, FPayload};
            var challenge := r.request.op == "challenge" && r.present == {FVersion, FId, FOp, FScope, FChallenge};
            && a.id == r.request.id && (a.signature.Some? <==> a.ok)
            && (a.ok <==> WellFormed(r) && FreshAfter(rs[..k], r) && r.request.scope == s.scope && (sign || challenge))
            && (a.ok ==> a.signature == Some(Signature(s.key,
                           if sign then Message(Sign, s.scope, r.request.payload)
                           else Message(Challenge, s.scope, r.request.challenge))))
  {
    AnsweredAt(s, rs, k);
    WellFormedIff(rs[k]);
    LastIDIs(s, rs[..k]);
    FreshIff(s, rs[..k], rs[k]);
  }
}
