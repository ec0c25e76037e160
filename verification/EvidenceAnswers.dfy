/**
 What the evidence search answers: a sibling is proven exactly when, past markers that settle nothing, a
 marker affirms it; and which markers affirm, deny and pass is said here on its own.
 */
module EvidenceAnswers {
  import opened Common
  import opened LegalMarkers
  import opened LegalEvidence

  /** Where a search stands: the levels open in it, the end of its last structural marker, the work left. */
  datatype Point = Point(scan: seq<Entry>, last: Option<nat>, remaining: nat)

  function Reads(s: Scope, j: nat, p: Point): Option<Assignment>
    requires j < |s.markers|
  {
    Assign(p.scan, s.markers[j].token, s.regulation, [], false, s.BeginsRoman(j, p.scan))
  }

  /** The search can go by marker `j`: there is work left, and the level searched for is open. */
  predicate Open(s: Scope, j: nat, p: Point, a: Assignment, depth: nat) {
    j < |s.markers| && a.level < |p.scan| && depth < MAX_EVIDENCE_DEPTH && p.remaining > 0
  }

  predicate AtOrAbove(s: Scope, j: nat, p: Point, a: Assignment, b: Assignment) {
    j < |s.markers| && Reads(s, j, p) == Some(b) && b.level <= a.level
  }

  /** Read as `b`, the marker is proven to be structural itself, and `rest` of the work is left. */
  predicate Proven(s: Scope, j: nat, p: Point, a: Assignment, b: Assignment, depth: nat, proven: bool, rest: nat)
    requires Open(s, j, p, a, depth) && b.level <= a.level
  {
    var e := IsStructural(s, j, p.scan, b, p.last, depth + 1, p.remaining - 1);
    e.Found? && e.answer == proven && e.remaining == rest
  }

  predicate NextOf(a: Assignment, b: Assignment) { b.level == a.level && b.kind == a.kind && b.ordinal > a.ordinal }

  predicate Headed(s: Scope, j: nat, p: Point) {
    s.signs.structural(j) || s.signs.followingHeading(j, true, p.last) || s.PrecedingHeading(j, p.last)
  }

  /** Unmistakably a sibling: no other level could take the token, and it has evidence of its own. */
  predicate PlainlyNext(s: Scope, j: nat, p: Point, a: Assignment)
    requires j < |s.markers|
  {
    s.PlainSibling(s.markers[j].token, a, p.scan) && s.ProvisionalEvidence(j, p.last)
  }

  /** The marker shows that there is a sibling. */
  ghost predicate Affirms(s: Scope, j: nat, p: Point, a: Assignment, depth: nat) {
    && Open(s, j, p, a, depth)
    && (PlainlyNext(s, j, p, a) ||
        exists b, rest :: AtOrAbove(s, j, p, a, b) && NextOf(a, b) && Proven(s, j, p, a, b, depth, true, rest))
  }

  /** The marker ends the search: it blocks the hierarchy, is proven to be something else, or may be a parent. */
  ghost predicate Denies(s: Scope, j: nat, p: Point, a: Assignment, depth: nat) {
    && Open(s, j, p, a, depth) && !PlainlyNext(s, j, p, a)
    && (|| (Reads(s, j, p).None? && s.signs.structural(j) && s.BlocksHierarchy(s.markers[j].token, p.scan, a.level))
        || (exists b, rest :: AtOrAbove(s, j, p, a, b) && Proven(s, j, p, a, b, depth, true, rest) && !NextOf(a, b))
        || (exists b, rest :: AtOrAbove(s, j, p, a, b) && Proven(s, j, p, a, b, depth, false, rest) &&
                              b.level < a.level && Headed(s, j, p)))
  }

  /** A marker below the level: it is taken up if it has evidence of its own. */
  function Below(s: Scope, j: nat, p: Point, b: Assignment): Point
    requires j < |s.markers| && b.level <= |p.scan| && p.remaining > 0
  {
    if s.ProvisionalEvidence(j, p.last)
    then Point(p.scan[..b.level] + [Entry(b.kind, s.markers[j].token, b.ordinal)], Some(s.markers[j].end),
               p.remaining - 1)
    else Point(p.scan, p.last, p.remaining - 1)
  }

  /** The marker settles nothing and the search goes on at `q`. */
  ghost predicate Passes(s: Scope, j: nat, p: Point, a: Assignment, depth: nat, q: Point) {
    && Open(s, j, p, a, depth) && !PlainlyNext(s, j, p, a)
    && (|| (&& Reads(s, j, p).None?
            && !(s.signs.structural(j) && s.BlocksHierarchy(s.markers[j].token, p.scan, a.level))
            && q == Point(p.scan, p.last, p.remaining - 1))
        || (exists b :: Reads(s, j, p) == Some(b) && a.level < b.level <= |p.scan| && q == Below(s, j, p, b))
        || (exists b :: AtOrAbove(s, j, p, a, b) && !(b.level < a.level && Headed(s, j, p)) &&
                        q.scan == p.scan && q.last == p.last && Proven(s, j, p, a, b, depth, false, q.remaining)))
  }

  /** From `p` at marker `j` the search gets to `q` at marker `k`, past markers that settle nothing. */
  ghost predicate Leads(s: Scope, j: nat, p: Point, a: Assignment, depth: nat, k: nat, q: Point)
    decreases k - j
  {
    if j >= k then j == k && p == q
    else exists r :: Passes(s, j, p, a, depth, r) && Leads(s, j + 1, r, a, depth, k, q)
  }

  // ---------------------------------------------------------------- one marker

  /** What the search makes of one marker. */
  function LookFrom(s: Scope, j: nat, p: Point, a: Assignment, depth: nat): Look
    requires Open(s, j, p, a, depth)
  {
    LookAt(s, j, p.scan, p.last, a, depth, p.remaining - 1)
  }

  predicate Says(l: Look, answer: bool) { l.Answer? && l.evidence.Found? && l.evidence.answer == answer }

  predicate GoesOnAt(l: Look, q: Point) { l.GoOn? && q == Point(l.scan, l.last, l.remaining) }

  lemma Plainly(s: Scope, j: nat, p: Point, a: Assignment, depth: nat)
    requires Open(s, j, p, a, depth) && PlainlyNext(s, j, p, a)
    ensures Says(LookFrom(s, j, p, a, depth), true)
    ensures Affirms(s, j, p, a, depth)
    ensures !Denies(s, j, p, a, depth)
    ensures forall q :: !Passes(s, j, p, a, depth, q)
  {
  }

  lemma Unread(s: Scope, j: nat, p: Point, a: Assignment, depth: nat)
    requires Open(s, j, p, a, depth) && !PlainlyNext(s, j, p, a) && Reads(s, j, p).None?
    ensures !Affirms(s, j, p, a, depth)
    ensures Says(LookFrom(s, j, p, a, depth), false) <==> Denies(s, j, p, a, depth)
    ensures forall q :: GoesOnAt(LookFrom(s, j, p, a, depth), q) <==> Passes(s, j, p, a, depth, q)
    ensures var l := LookFrom(s, j, p, a, depth); Says(l, false) || l.GoOn?
  {
  }

  lemma ReadBelow(s: Scope, j: nat, p: Point, a: Assignment, depth: nat, b: Assignment)
    requires Open(s, j, p, a, depth) && !PlainlyNext(s, j, p, a) && Reads(s, j, p) == Some(b) && b.level > a.level
    ensures b.level <= |p.scan| && GoesOnAt(LookFrom(s, j, p, a, depth), Below(s, j, p, b))
    ensures !Affirms(s, j, p, a, depth)
    ensures !Denies(s, j, p, a, depth)
    ensures forall q :: Passes(s, j, p, a, depth, q) <==> q == Below(s, j, p, b)
  {
    AssignAdvances(p.scan, s.markers[j].token, s.regulation, [], false, s.BeginsRoman(j, p.scan));
  }

  /** The search weighs a marker at or above the level. */
  function WeighFrom(s: Scope, j: nat, p: Point, a: Assignment, b: Assignment, depth: nat): Look
    requires Open(s, j, p, a, depth) && b.level <= a.level
  {
    Weigh(s, j, p.scan, p.last, a, b, depth, p.remaining - 1)
  }

  lemma Weighed(s: Scope, j: nat, p: Point, a: Assignment, depth: nat, b: Assignment)
    requires Open(s, j, p, a, depth) && b.level <= a.level
    ensures var l := WeighFrom(s, j, p, a, b, depth);
            var e := IsStructural(s, j, p.scan, b, p.last, depth + 1, p.remaining - 1);
            && (Says(l, true) <==> e.Found? && e.answer && NextOf(a, b))
            && (Says(l, false) <==>
                  e.Found? && if e.answer then !NextOf(a, b) else b.level < a.level && Headed(s, j, p))
            && (l.GoOn? <==> e.Found? && !e.answer && !(b.level < a.level && Headed(s, j, p)))
            && (l.GoOn? ==> GoesOnAt(l, Point(p.scan, p.last, e.remaining)))
  {
  }

  lemma ReadAbove(s: Scope, j: nat, p: Point, a: Assignment, depth: nat, b: Assignment)
    requires Open(s, j, p, a, depth) && !PlainlyNext(s, j, p, a) && AtOrAbove(s, j, p, a, b)
    ensures Says(LookFrom(s, j, p, a, depth), true) <==> Affirms(s, j, p, a, depth)
    ensures Says(LookFrom(s, j, p, a, depth), false) <==> Denies(s, j, p, a, depth)
    ensures forall q :: GoesOnAt(LookFrom(s, j, p, a, depth), q) <==> Passes(s, j, p, a, depth, q)
  {
    assert LookFrom(s, j, p, a, depth) == WeighFrom(s, j, p, a, b, depth);
    Weighed(s, j, p, a, depth, b);
    var e := IsStructural(s, j, p.scan, b, p.last, depth + 1, p.remaining - 1);
    if e.Found? {
      assert Proven(s, j, p, a, b, depth, e.answer, e.remaining);
    }
  }

  /** A marker affirms, denies or passes exactly as said. */
  lemma LookIs(s: Scope, j: nat, p: Point, a: Assignment, depth: nat)
    requires Open(s, j, p, a, depth)
    ensures Says(LookFrom(s, j, p, a, depth), true) <==> Affirms(s, j, p, a, depth)
    ensures Says(LookFrom(s, j, p, a, depth), false) <==> Denies(s, j, p, a, depth)
    ensures forall q :: GoesOnAt(LookFrom(s, j, p, a, depth), q) <==> Passes(s, j, p, a, depth, q)
  {
    if PlainlyNext(s, j, p, a) {
      Plainly(s, j, p, a, depth);
    } else {
      match Reads(s, j, p)
      case None => Unread(s, j, p, a, depth);
      case Some(b) =>
        if b.level > a.level { ReadBelow(s, j, p, a, depth, b); } else { ReadAbove(s, j, p, a, depth, b); }
    }
  }

  // ---------------------------------------------------------------- the whole search

  function ScanFrom(s: Scope, j: nat, p: Point, a: Assignment, depth: nat): Evidence
    requires j <= |s.markers| && a.level < |p.scan| && depth < MAX_EVIDENCE_DEPTH
  {
    SiblingScan(s, j, p.scan, p.last, a, depth, p.remaining)
  }

  predicate Answers(e: Evidence, answer: bool) { e.Found? && e.answer == answer }

  ghost predicate AffirmedFrom(s: Scope, j: nat, p: Point, a: Assignment, depth: nat) {
    exists k, q :: Leads(s, j, p, a, depth, k, q) && Affirms(s, k, q, a, depth)
  }

  /** The search ends without a sibling: no marker is left, or this one denies it. */
  ghost predicate EndsAt(s: Scope, k: nat, q: Point, a: Assignment, depth: nat) {
    k == |s.markers| || Denies(s, k, q, a, depth)
  }

  ghost predicate DeniedFrom(s: Scope, j: nat, p: Point, a: Assignment, depth: nat) {
    exists k, q :: Leads(s, j, p, a, depth, k, q) && EndsAt(s, k, q, a, depth)
  }

  lemma LeadsNowhere(s: Scope, j: nat, p: Point, a: Assignment, depth: nat, k: nat, q: Point)
    requires (forall r :: !Passes(s, j, p, a, depth, r)) && Leads(s, j, p, a, depth, k, q)
    ensures k == j && q == p
  {
  }

  lemma StaysPut(s: Scope, j: nat, p: Point, a: Assignment, depth: nat)
    requires forall q :: !Passes(s, j, p, a, depth, q)
    ensures AffirmedFrom(s, j, p, a, depth) <==> Affirms(s, j, p, a, depth)
    ensures DeniedFrom(s, j, p, a, depth) <==> EndsAt(s, j, p, a, depth)
  {
    assert Leads(s, j, p, a, depth, j, p);
    forall k, q | Leads(s, j, p, a, depth, k, q) ensures k == j && q == p {
      LeadsNowhere(s, j, p, a, depth, k, q);
    }
  }

  lemma LeadsOn(s: Scope, j: nat, p: Point, a: Assignment, depth: nat, r: Point, k: nat, q: Point)
    requires Passes(s, j, p, a, depth, r) && forall o :: Passes(s, j, p, a, depth, o) ==> o == r
    ensures Leads(s, j, p, a, depth, k, q) <==> (k == j && q == p) || Leads(s, j + 1, r, a, depth, k, q)
  {
    if j < k && Leads(s, j, p, a, depth, k, q) {
      var o :| Passes(s, j, p, a, depth, o) && Leads(s, j + 1, o, a, depth, k, q);
      assert o == r;
    }
  }

  lemma AffirmedOn(s: Scope, j: nat, p: Point, a: Assignment, depth: nat, r: Point)
    requires Passes(s, j, p, a, depth, r) && forall o :: Passes(s, j, p, a, depth, o) ==> o == r
    requires !Affirms(s, j, p, a, depth)
    ensures AffirmedFrom(s, j, p, a, depth) <==> AffirmedFrom(s, j + 1, r, a, depth)
  {
    if AffirmedFrom(s, j, p, a, depth) {
      var k, q :| Leads(s, j, p, a, depth, k, q) && Affirms(s, k, q, a, depth);
      LeadsOn(s, j, p, a, depth, r, k, q);
    }
    if AffirmedFrom(s, j + 1, r, a, depth) {
      var k, q :| Leads(s, j + 1, r, a, depth, k, q) && Affirms(s, k, q, a, depth);
      LeadsOn(s, j, p, a, depth, r, k, q);
    }
  }

  lemma DeniedOn(s: Scope, j: nat, p: Point, a: Assignment, depth: nat, r: Point)
    requires Passes(s, j, p, a, depth, r) && forall o :: Passes(s, j, p, a, depth, o) ==> o == r
    requires !EndsAt(s, j, p, a, depth)
    ensures DeniedFrom(s, j, p, a, depth) <==> DeniedFrom(s, j + 1, r, a, depth)
  {
    if DeniedFrom(s, j, p, a, depth) {
      var k, q :| Leads(s, j, p, a, depth, k, q) && EndsAt(s, k, q, a, depth);
      LeadsOn(s, j, p, a, depth, r, k, q);
    }
    if DeniedFrom(s, j + 1, r, a, depth) {
      var k, q :| Leads(s, j + 1, r, a, depth, k, q) && EndsAt(s, k, q, a, depth);
      LeadsOn(s, j, p, a, depth, r, k, q);
    }
  }

  lemma ScanGoesOn(s: Scope, j: nat, p: Point, a: Assignment, depth: nat)
    requires Open(s, j, p, a, depth)
    ensures var l := LookFrom(s, j, p, a, depth);
            match l
            case Answer(e) => ScanFrom(s, j, p, a, depth) == e
            case GoOn(scan, last, left, _) =>
              a.level < |scan| &&
              forall answer :: Answers(ScanFrom(s, j, p, a, depth), answer) <==>
                               Answers(ScanFrom(s, j + 1, Point(scan, last, left), a, depth), answer)
  {
  }

  /** The search answers true exactly when it gets to a marker that affirms, and false exactly when it gets
      to one that denies or to the end. */
  lemma {:induction false} ScanIs(s: Scope, j: nat, p: Point, a: Assignment, depth: nat)
    requires j <= |s.markers| && a.level < |p.scan| && depth < MAX_EVIDENCE_DEPTH
    ensures Answers(ScanFrom(s, j, p, a, depth), true) <==> AffirmedFrom(s, j, p, a, depth)
    ensures Answers(ScanFrom(s, j, p, a, depth), false) <==> DeniedFrom(s, j, p, a, depth)
    decreases |s.markers| - j
  {
    if !Open(s, j, p, a, depth) {
      StaysPut(s, j, p, a, depth);
    } else {
      LookIs(s, j, p, a, depth);
      ScanGoesOn(s, j, p, a, depth);
      var l := LookFrom(s, j, p, a, depth);
      if l.Answer? {
        StaysPut(s, j, p, a, depth);
      } else {
        var r := Point(l.scan, l.last, l.remaining);
        assert GoesOnAt(l, r);
        ScanIs(s, j + 1, r, a, depth);
        AffirmedOn(s, j, p, a, depth, r);
        DeniedOn(s, j, p, a, depth, r);
      }
    }
  }

  /** Where the search for a sibling of marker `i` begins. */
  function Start(s: Scope, i: nat, stack: seq<Entry>, a: Assignment, remaining: nat): Point
    requires i < |s.markers| && a.level <= |stack|
  {
    Point(stack[..a.level] + [Entry(a.kind, s.markers[i].token, a.ordinal)], Some(s.markers[i].end), remaining)
  }

  /** A following sibling is found exactly when a marker affirms it before one denies it. */
  lemma SiblingIff(s: Scope, i: nat, stack: seq<Entry>, a: Assignment, depth: nat, remaining: nat)
    requires i < |s.markers| && a.level <= |stack| && depth < MAX_EVIDENCE_DEPTH
    ensures var e := HasFollowingSibling(s, i, stack, a, depth, remaining);
            && (Answers(e, true) <==> AffirmedFrom(s, i + 1, Start(s, i, stack, a, remaining), a, depth))
            && (Answers(e, false) <==> DeniedFrom(s, i + 1, Start(s, i, stack, a, remaining), a, depth))
  {
    ScanIs(s, i + 1, Start(s, i, stack, a, remaining), a, depth);
  }

  /** The same for the standing of a marker: no reference cue before it, and it is strong, or has a heading
      after it, or a sibling proves it. */
  lemma StructuralIff(s: Scope, i: nat, stack: seq<Entry>, a: Assignment, last: Option<nat>, depth: nat, remaining: nat)
    requires i < |s.markers| && a.level <= |stack| && depth <= MAX_EVIDENCE_DEPTH
    ensures Answers(IsStructural(s, i, stack, a, last, depth, remaining), true) <==>
            && !(!s.signs.paragraph(i) && s.signs.referenceCue(i, last))
            && (|| (s.signs.structural(i) && s.signs.strong(i))
                || (&& depth < 32 && !(exists l: nat :: l < a.level && s.KindAt(l) == a.kind)
                    && (|| (s.signs.structural(i) && s.signs.followingHeading(i, false, last))
                        || (s.signs.structural(i) && s.signs.followingHeading(i, true, last) &&
                            last.Some? && s.signs.referenceSince(i, last.value, a.kind))
                        || (&& (if s.signs.structural(i) then s.signs.followingHeading(i, true, last)
                                else a.level == |stack| && last.Some? && s.signs.headingSince(i, last.value))
                            && AffirmedFrom(s, i + 1, Start(s, i, stack, a, remaining), a, depth)))))
  {
    if depth < MAX_EVIDENCE_DEPTH { SiblingIff(s, i, stack, a, depth, remaining); }
  }

  // ---------------------------------------------------------------- a strong marker next

  /** A strong marker that begins a paragraph. */
  predicate StrongParagraph(s: Scope, j: nat) {
    s.signs.structural(j) && s.signs.strong(j) && s.signs.paragraph(j)
  }

  lemma StrongIsProven(s: Scope, j: nat, p: Point, a: Assignment, b: Assignment, depth: nat)
    requires Open(s, j, p, a, depth) && b.level <= a.level && StrongParagraph(s, j)
    ensures Proven(s, j, p, a, b, depth, true, p.remaining - 1)
  {
  }

  lemma StrongSiblingAffirms(s: Scope, j: nat, p: Point, a: Assignment, b: Assignment, depth: nat)
    requires Open(s, j, p, a, depth) && StrongParagraph(s, j) && AtOrAbove(s, j, p, a, b) && NextOf(a, b)
    ensures Affirms(s, j, p, a, depth)
  {
    StrongIsProven(s, j, p, a, b, depth);
  }

  lemma StrongParentDenies(s: Scope, j: nat, p: Point, a: Assignment, b: Assignment, depth: nat)
    requires Open(s, j, p, a, depth) && StrongParagraph(s, j) && AtOrAbove(s, j, p, a, b) && b.level < a.level
    ensures Denies(s, j, p, a, depth)
  {
    StrongIsProven(s, j, p, a, b, depth);
    AssignAdvances(p.scan, s.markers[j].token, s.regulation, [], false, s.BeginsRoman(j, p.scan));
    assert OrdinalOf(s.markers[j].token, s.KindAt(b.level)).Some?;
  }

  /** If the next marker is strong, begins a paragraph and is the next of the same level and kind, there is a
      sibling; if it belongs to a higher level, there is none. */
  lemma NextStrongDecides(s: Scope, i: nat, stack: seq<Entry>, a: Assignment, depth: nat, remaining: nat, b: Assignment)
    requires i + 1 < |s.markers| && a.level <= |stack| && depth < MAX_EVIDENCE_DEPTH && remaining > 0
    requires StrongParagraph(s, i + 1) && Reads(s, i + 1, Start(s, i, stack, a, remaining)) == Some(b)
    ensures NextOf(a, b) ==> Answers(HasFollowingSibling(s, i, stack, a, depth, remaining), true)
    ensures b.level < a.level ==> Answers(HasFollowingSibling(s, i, stack, a, depth, remaining), false)
  {
    var p := Start(s, i, stack, a, remaining);
    assert Leads(s, i + 1, p, a, depth, i + 1, p);
    SiblingIff(s, i, stack, a, depth, remaining);
    if NextOf(a, b) { StrongSiblingAffirms(s, i + 1, p, a, b, depth); }
    if b.level < a.level {
      StrongParentDenies(s, i + 1, p, a, b, depth);
      assert EndsAt(s, i + 1, p, a, depth);
    }
  }
}
