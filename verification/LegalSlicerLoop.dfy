/**
 The slicer as the resolver runs it: loops over the markers and one mutable work budget that all nested
 evidence searches draw on.  The loops are proved against `LegalSlicer` and `LegalEvidence`.
 */
module LegalSlicerLoop {
  import opened Common
  import opened LegalMarkers
  import opened LegalEvidence
  import opened LegalSlicer
  import opened TurnLoop

  class EvidenceBudget {
    var remaining: nat

    constructor ()
      ensures remaining == MAX_EVIDENCE_WORK
    {
      remaining := MAX_EVIDENCE_WORK;
    }

    /** Charges one sibling-scan iteration, or fails when none is left. */
    method Consume() returns (ok: bool)
      modifies this
      ensures ok == (old(remaining) > 0)
      ensures remaining == if ok then old(remaining) - 1 else old(remaining)
    {
      ok := remaining > 0;
      if ok { remaining := remaining - 1; }
    }
  }

  /** The answer of a search that started with `before` units of work and leaves `after`. */
  predicate Answers(e: Evidence, ok: bool, answer: bool, after: nat) {
    match e
    case Found(a, remaining, _) => ok && answer == a && after == remaining
    case Exhausted(_) => !ok
  }

  method LegalMarkerIsStructural(s: Scope, i: nat, stack: seq<Entry>, a: Assignment, last: Option<nat>, depth: nat,
                                 budget: EvidenceBudget) returns (ok: bool, answer: bool)
    requires i < |s.markers| && a.level <= |stack| && depth <= MAX_EVIDENCE_DEPTH
    modifies budget
    ensures Answers(IsStructural(s, i, stack, a, last, depth, old(budget.remaining)), ok, answer, budget.remaining)
    decreases |s.markers| - i, 1
  {
    ok := true;
    if s.FollowsCue(i, last) { return true, false; }
    var direct := s.signs.structural(i);
    if direct && s.signs.strong(i) { return true, true; }
    if depth >= MAX_EVIDENCE_DEPTH { return true, false; }
    if s.KindRepeats(a.level, a.kind) { return true, false; }
    if direct {
      if s.signs.followingHeading(i, false, last) { return true, true; }
      if !s.signs.followingHeading(i, true, last) { return true, false; }
      if s.PrecedingReference(i, last, a.kind) { return true, true; }
    } else if a.level != |stack| || !s.PrecedingHeading(i, last) {
      return true, false;
    }
    ok, answer := HasFollowingStructuralSibling(s, i, stack, a, depth, budget);
  }

  method HasFollowingStructuralSibling(s: Scope, i: nat, stack: seq<Entry>, a: Assignment, depth: nat,
                                       budget: EvidenceBudget) returns (ok: bool, answer: bool)
    requires i < |s.markers| && a.level <= |stack| && depth < MAX_EVIDENCE_DEPTH
    modifies budget
    ensures Answers(HasFollowingSibling(s, i, stack, a, depth, old(budget.remaining)), ok, answer, budget.remaining)
    decreases |s.markers| - i, 0
  {
    ok, answer := ScanFollowing(s, i + 1, stack[..a.level] + [s.EntryFor(i, a)], Some(s.markers[i].end), a, depth,
                                budget, HasFollowingSibling(s, i, stack, a, depth, budget.remaining));
  }

  /** The loop over the following markers; `goal` is what the whole scan comes to. */
  method ScanFollowing(s: Scope, first: nat, scanIn: seq<Entry>, lastIn: Option<nat>, a: Assignment, depth: nat,
                       budget: EvidenceBudget, ghost goal: Evidence) returns (ok: bool, answer: bool)
    requires first <= |s.markers| && a.level < |scanIn| && depth < MAX_EVIDENCE_DEPTH
    requires goal == SiblingScan(s, first, scanIn, lastIn, a, depth, budget.remaining)
    modifies budget
    ensures Answers(goal, ok, answer, budget.remaining)
    decreases |s.markers| - first, 5
  {
    var scan, last, j := scanIn, lastIn, first;
    while j < |s.markers|
      invariant first <= j <= |s.markers| && a.level < |scan|
      invariant Alike(goal, SiblingScan(s, j, scan, last, a, depth, budget.remaining))
      decreases |s.markers| - j
    {
      var verdict;
      verdict, scan, last := ScanOne(s, j, scan, last, a, depth, budget, goal);
      if verdict.Halts? { return false, false; }
      if verdict.Replies? { return true, verdict.answer; }
      j := j + 1;
    }
    return true, false;
  }

  datatype Verdict = Halts | Replies(answer: bool) | Goes

  /** The two searches answer alike and leave the same work, whatever they took. */
  predicate Alike(e: Evidence, f: Evidence) {
    match e
    case Found(a, remaining, _) => f.Found? && f.answer == a && f.remaining == remaining
    case Exhausted(_) => f.Exhausted?
  }

  predicate Decides(l: Look, verdict: Verdict, scan: seq<Entry>, last: Option<nat>, remaining: nat) {
    match l
    case Answer(e) =>
      if e.Exhausted? then verdict == Halts else verdict == Replies(e.answer) && remaining == e.remaining
    case GoOn(scan', last', rest, _) => verdict == Goes && scan == scan' && last == last' && remaining == rest
  }

  lemma ScanStep(s: Scope, j: nat, scan: seq<Entry>, last: Option<nat>, a: Assignment, depth: nat, remaining: nat,
                 verdict: Verdict, scan': seq<Entry>, last': Option<nat>, rest: nat)
    requires j < |s.markers| && a.level < |scan| && depth < MAX_EVIDENCE_DEPTH && remaining > 0
    requires Decides(LookAt(s, j, scan, last, a, depth, remaining - 1), verdict, scan', last', rest)
    ensures Proceeds(s, j, SiblingScan(s, j, scan, last, a, depth, remaining), verdict, scan', last', a, depth, rest)
  {
  }

  /** One iteration of the sibling scan. */
  method ScanOne(s: Scope, j: nat, scan: seq<Entry>, last: Option<nat>, a: Assignment, depth: nat,
                 budget: EvidenceBudget, ghost goal: Evidence)
    returns (verdict: Verdict, scanNext: seq<Entry>, lastNext: Option<nat>)
    requires j < |s.markers| && a.level < |scan| && depth < MAX_EVIDENCE_DEPTH
    requires Alike(goal, SiblingScan(s, j, scan, last, a, depth, budget.remaining))
    modifies budget
    ensures Proceeds(s, j, goal, verdict, scanNext, lastNext, a, depth, budget.remaining)
    decreases |s.markers| - j, 4
  {
    var paid := budget.Consume();
    if !paid { return Halts, scan, last; }
    verdict, scanNext, lastNext := LaterMarker(s, j, scan, last, a, depth, budget);
    ScanStep(s, j, scan, last, a, depth, old(budget.remaining), verdict, scanNext, lastNext, budget.remaining);
  }

  /** How the verdict on marker `j` continues the search `e`. */
  ghost predicate Proceeds(s: Scope, j: nat, e: Evidence, verdict: Verdict, scan: seq<Entry>, last: Option<nat>,
                           a: Assignment, depth: nat, rest: nat)
    requires j < |s.markers| && depth < MAX_EVIDENCE_DEPTH
  {
    match verdict
    case Halts => e.Exhausted?
    case Replies(answer) => Answers(e, true, answer, rest)
    case Goes => a.level < |scan| && Alike(e, SiblingScan(s, j + 1, scan, last, a, depth, rest))
  }

  /** The iteration, once it is paid for. */
  method LaterMarker(s: Scope, j: nat, scan: seq<Entry>, last: Option<nat>, a: Assignment, depth: nat,
                     budget: EvidenceBudget)
    returns (verdict: Verdict, scanNext: seq<Entry>, lastNext: Option<nat>)
    requires j < |s.markers| && a.level < |scan| && depth < MAX_EVIDENCE_DEPTH
    modifies budget
    ensures Decides(LookAt(s, j, scan, last, a, depth, old(budget.remaining)),
                    verdict, scanNext, lastNext, budget.remaining)
    decreases |s.markers| - j, 3
  {
    scanNext, lastNext := scan, last;
    var token, direct := s.markers[j].token, s.signs.structural(j);
    var provisional := s.ProvisionalEvidence(j, last);
    if s.PlainSibling(token, a, scan) && provisional { return Replies(true), scan, last; }
    var choice := Assign(scan, token, s.regulation, [], false, s.BeginsRoman(j, scan));
    AssignAdvances(scan, token, s.regulation, [], false, s.BeginsRoman(j, scan));
    if choice.None? {
      return if direct && s.BlocksHierarchy(token, scan, a.level) then Replies(false) else Goes, scan, last;
    }
    var b := choice.value;
    if b.level > a.level {
      if provisional {
        return Goes, scan[..b.level] + [s.EntryFor(j, b)], Some(s.markers[j].end);
      }
      return Goes, scan, last;
    }
    verdict := CandidateSibling(s, j, scan, last, a, b, depth, budget);
  }

  /** The part of the iteration for a marker that would close `a`. */
  method CandidateSibling(s: Scope, j: nat, scan: seq<Entry>, last: Option<nat>, a: Assignment, b: Assignment,
                          depth: nat, budget: EvidenceBudget) returns (verdict: Verdict)
    requires j < |s.markers| && b.level <= a.level < |scan| && depth < MAX_EVIDENCE_DEPTH
    modifies budget
    ensures Decides(Weigh(s, j, scan, last, a, b, depth, old(budget.remaining)), verdict, scan, last, budget.remaining)
    decreases |s.markers| - j, 2
  {
    var ok, structural := LegalMarkerIsStructural(s, j, scan, b, last, depth + 1, budget);
    if !ok { return Halts; }
    if structural { return Replies(b.level == a.level && b.kind == a.kind && b.ordinal > a.ordinal); }
    if b.level < a.level &&
       (s.signs.structural(j) || s.signs.followingHeading(j, true, last) || s.PrecedingHeading(j, last)) {
      return Replies(false);
    }
    return Goes;
  }

  method SliceUsLegalHierarchy(s: Scope, ancestors: seq<string>) returns (r: Slice)
    requires Searched(s)
    ensures r == SliceHierarchy(s, ancestors)
  {
    if |ancestors| >= |s.fragments| { return Missing; }
    var retained := RetainAncestors(s, ancestors);
    if retained.None? { return Missing; }
    var stack := retained.value;
    if |s.markers| > MAX_MARKERS { return Failed(TooManyMarkers); }
    var budget := new EvidenceBudget();
    var st := Start(stack);
    var i := 0;
    while i < |s.markers|
      invariant 0 <= i <= |s.markers|
      invariant st.remaining == budget.remaining
      invariant Run(s, i, st) == Run(s, 0, Start(stack))
    {
      var turn := OneMarker(s, i, st, budget);
      if turn.Halt? { return turn.result; }
      st, i := turn.next, i + 1;
    }
    if st.target.None? { return Missing; }
    if st.deepAdvance.Some? { return Failed(AmbiguousAdvance); }
    return Slice(st.target.value.start, |s.text|);
  }

  method RetainAncestors(s: Scope, ancestors: seq<string>) returns (r: Option<seq<Entry>>)
    ensures r == Retained(ancestors, s.regulation)
  {
    var stack: seq<Entry> := [];
    for level := 0 to |ancestors|
      invariant |stack| == level && Retained(ancestors[..level], s.regulation) == Some(stack)
    {
      var kind := s.KindAt(level);
      var ordinal := OrdinalOf(ancestors[level], kind);
      assert ancestors[..level + 1][..level] == ancestors[..level];
      if ordinal.None? {
        NotRetained(ancestors, level + 1, s.regulation);
        return None;
      }
      stack := stack + [Entry(kind, ancestors[level], ordinal.value)];
    }
    assert ancestors[..|ancestors|] == ancestors;
    return Some(stack);
  }

  method OneMarker(s: Scope, i: nat, st: State, budget: EvidenceBudget) returns (turn: Turn<State, Slice>)
    requires i < |s.markers| && Searched(s) && st.remaining == budget.remaining
    modifies budget
    ensures turn == Advance(s, i, st) == Step(s)(i, st)
    ensures turn.Continue? ==> turn.next.remaining == budget.remaining
  {
    var choice := Assigned(s, i, st);
    AssignedIsReadable(s, i, st);
    if choice.None? { return Unassigned(s, i, st); }
    var a := choice.value;
    var ok, structural := LegalMarkerIsStructural(s, i, st.stack, a, st.lastEnd, 0, budget);
    if !ok { return Halt(Failed(EvidenceExhausted)); }
    var e := Found(structural, budget.remaining, st.remaining - budget.remaining);
    assert e == IsStructural(s, i, st.stack, a, st.lastEnd, 0, st.remaining);
    turn := Judged(s, i, st, a, e);
  }

  lemma {:induction false} NotRetained(ancestors: seq<string>, n: nat, regulation: bool)
    requires 0 < n <= |ancestors| && Retained(ancestors[..n], regulation).None?
    ensures Retained(ancestors, regulation).None?
  {
    if n == |ancestors| {
      assert ancestors[..n] == ancestors;
    } else {
      var init := ancestors[..|ancestors| - 1];
      assert init[..n] == ancestors[..n];
      NotRetained(init, n, regulation);
    }
  }
}
