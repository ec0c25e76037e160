/** When the slicer fails, marker by marker, and what its two warnings mean over a run. */
module SlicerFails {
  import opened Common
  import opened LegalMarkers
  import opened LegalEvidence
  import opened LegalSlicer
  import opened SlicerFinds
  import opened TurnLoop

  /** Marker `j` is taken for `a`, and the evidence search answers `answer`. */
  predicate Judges(s: Scope, j: nat, st: State, a: Assignment, answer: bool)
    requires j < |s.markers|
  {
    && Assigned(s, j, st) == Some(a) && a.level <= |st.stack|
    && var e := IsStructural(s, j, st.stack, a, st.lastEnd, 0, st.remaining); e.Found? && e.answer == answer
  }

  /** The token counts against the target: a duplicate or backward number of its kind, or a marker that an open
      level up to it could take. */
  predicate Contradicts(s: Scope, j: nat, st: State, t: Target)
    requires j < |s.markers|
  {
    match OrdinalOf(s.markers[j].token, t.kind)
    case Some(ordinal) => ordinal <= t.ordinal
    case None => s.BlocksHierarchy(s.markers[j].token, st.stack, t.level)
  }

  /** The exact cause of each failure at marker `j`. */
  ghost predicate Causes(s: Scope, j: nat, st: State, error: SliceError)
    requires j < |s.markers|
  {
    match error
    case TooManyMarkers => false
    case EvidenceExhausted =>
      exists a :: Assigned(s, j, st) == Some(a) && a.level <= |st.stack| &&
        IsStructural(s, j, st.stack, a, st.lastEnd, 0, st.remaining).Exhausted?
    case TooDeep =>
      exists a :: Judges(s, j, st, a, false) && a.level == |st.stack| && a.level >= 64 &&
        (s.signs.structural(j) || s.PrecedingHeading(j, st.lastEnd))
    case BackwardSequence =>
      && Assigned(s, j, st).None? && s.signs.structural(j)
      && st.target.Some? && Contradicts(s, j, st, st.target.value)
    case AfterUnassigned => HasPath(s, j, st) && st.target.None? && st.unassignedBefore
    case AfterRejected => Hits(s, j, st) && st.target.None? && !st.unassignedBefore && st.rejectedTarget
    case AmbiguousAdvance =>
      exists a :: Judges(s, j, st, a, true) && st.target.Some? && a.level <= st.target.value.level &&
        DeepAdvance(s, j, st, a).Some?
  }

  lemma UnassignedFails(s: Scope, j: nat, st: State, error: SliceError)
    requires j < |s.markers| && Searched(s) && Assigned(s, j, st).None?
    ensures Advance(s, j, st) == Halt(Failed(error)) <==> Causes(s, j, st, error)
  {
  }

  lemma StructuralFails(s: Scope, j: nat, st: State, a: Assignment, error: SliceError)
    requires j < |s.markers| && Searched(s) && a.level <= |st.stack|
    ensures Structural(s, j, st, a) == Halt(Failed(error)) <==>
            var path := Tokens(st.stack[..a.level] + [s.EntryFor(j, a)]) == s.fragments;
            var doubtful := exists p :: p in st.provisional && p < a.level;
            || (error.AfterUnassigned? && st.target.None? && path && st.unassignedBefore)
            || (error.AfterRejected? && st.target.None? && path && !st.unassignedBefore && !doubtful &&
                st.rejectedTarget)
            || (error.AmbiguousAdvance? && st.target.Some? && a.level <= st.target.value.level &&
                DeepAdvance(s, j, st, a).Some?)
  {
    var after := Open(s, j, st, a);
    assert after.provisional == {} <==> !(exists p :: p in st.provisional && p < a.level) by {
      if p :| p in st.provisional && p < a.level { assert p in after.provisional; }
      if p :| p in after.provisional { assert p in st.provisional && p < a.level; }
    }
  }

  /** Marker `j` is taken for `a` and the search for evidence comes to `e`. */
  predicate Finds(s: Scope, j: nat, st: State, a: Assignment, e: Evidence)
    requires j < |s.markers|
  {
    && Assigned(s, j, st) == Some(a) && a.level <= |st.stack|
    && e == IsStructural(s, j, st.stack, a, st.lastEnd, 0, st.remaining)
  }

  lemma AcceptedFails(s: Scope, j: nat, st: State, a: Assignment, e: Evidence, error: SliceError)
    requires j < |s.markers| && Searched(s) && Finds(s, j, st, a, e) && e.Found? && e.answer
    ensures Judged(s, j, st, a, e) == Halt(Failed(error)) <==> Causes(s, j, st, error)
  {
    PathIs(s, j, st.stack, a);
    assert Judges(s, j, st, a, true);
    StructuralFails(s, j, Charged(st, e.remaining, e.scans), a, error);
  }

  lemma DoubtedFails(s: Scope, j: nat, st: State, a: Assignment, e: Evidence, error: SliceError)
    requires j < |s.markers| && Searched(s) && Finds(s, j, st, a, e) && !(e.Found? && e.answer)
    ensures Judged(s, j, st, a, e) == Halt(Failed(error)) <==> Causes(s, j, st, error)
  {
    if e.Found? { assert Judges(s, j, st, a, false); }
  }

  lemma AssignedFails(s: Scope, j: nat, st: State, a: Assignment, error: SliceError)
    requires j < |s.markers| && Searched(s) && Assigned(s, j, st) == Some(a)
    ensures Advance(s, j, st) == Halt(Failed(error)) <==> Causes(s, j, st, error)
  {
    AssignedIsReadable(s, j, st);
    var e := IsStructural(s, j, st.stack, a, st.lastEnd, 0, st.remaining);
    assert Advance(s, j, st) == Judged(s, j, st, a, e);
    if e.Found? && e.answer { AcceptedFails(s, j, st, a, e, error); } else { DoubtedFails(s, j, st, a, e, error); }
  }

  /** A turn fails with an error exactly for its cause. */
  lemma FailsIff(s: Scope, j: nat, st: State, error: SliceError)
    requires j < |s.markers| && Searched(s)
    ensures Advance(s, j, st) == Halt(Failed(error)) <==> Causes(s, j, st, error)
  {
    match Assigned(s, j, st)
    case None => UnassignedFails(s, j, st, error);
    case Some(a) => AssignedFails(s, j, st, a, error);
  }

  // ---------------------------------------------------------------- the whole slice

  /** The slicer gets to marker `j` and fails there. */
  ghost predicate FailsAt(s: Scope, ancestors: seq<string>, j: nat, error: SliceError)
    requires Retained(ancestors, s.regulation).Some?
  {
    j < |s.markers| && StateBefore(s, ancestors, j).Continue? && Causes(s, j, StateBefore(s, ancestors, j).next, error)
  }

  /** The slicer gets to the end with a target below which a number may have advanced it. */
  predicate EndsAmbiguous(s: Scope, ancestors: seq<string>)
    requires Retained(ancestors, s.regulation).Some?
  {
    var st := StateBefore(s, ancestors, |s.markers|);
    st.Continue? && st.next.target.Some? && st.next.deepAdvance.Some?
  }

  lemma StopIsFailure(s: Scope, ancestors: seq<string>, error: SliceError)
    requires Searched(s) && Runs(s, ancestors)
    ensures var (e, last) := Final(s, ancestors);
            && e <= |s.markers| && StateBefore(s, ancestors, e) == Continue(last)
            && (e < |s.markers| ==> (SliceHierarchy(s, ancestors) == Failed(error) <==> Causes(s, e, last, error)))
            && (e == |s.markers| ==>
                  (SliceHierarchy(s, ancestors) == Failed(error) <==>
                   error.AmbiguousAdvance? && EndsAmbiguous(s, ancestors)))
  {
    var (e, last) := Final(s, ancestors);
    StopsWith(s, ancestors);
    GoesOnUntilStop(Step(s), |s.markers|, 0, Start(Retained(ancestors, s.regulation).value), e);
    if e < |s.markers| { FailsIff(s, e, last, error); }
  }

  /** A marker that is a cause of failure is where the slicer stops. */
  lemma CauseStops(s: Scope, ancestors: seq<string>, j: nat, error: SliceError)
    requires Searched(s) && Retained(ancestors, s.regulation).Some? && FailsAt(s, ancestors, j, error)
    ensures j == Final(s, ancestors).0
  {
    var n, start := |s.markers|, Start(Retained(ancestors, s.regulation).value);
    var st := StateBefore(s, ancestors, j).next;
    FailsIff(s, j, st, error);
    StepIsAdvance(s, j, st);
    var e := Final(s, ancestors).0;
    StopIsFinal(Step(s), n, Finish(s), 0, start);
    if j < e { GoesOnUntilStop(Step(s), n, 0, start, j); }
    if e < j {
      GoesOnUntilStop(Step(s), n, 0, start, e);
      HaltsFor(Step(s), 0, start, e, j);
    }
  }

  /** A slice fails with an error exactly when there are too many markers, when it gets to a marker that is a
      cause of that error, or when it ends with an ambiguous advance. */
  lemma SliceFailsIff(s: Scope, ancestors: seq<string>, error: SliceError)
    requires Searched(s) && |ancestors| < |s.fragments| && Retained(ancestors, s.regulation).Some?
    ensures SliceHierarchy(s, ancestors) == Failed(error) <==>
            if |s.markers| > 4096 then error.TooManyMarkers?
            else (exists j: nat :: FailsAt(s, ancestors, j, error)) ||
                 (error.AmbiguousAdvance? && EndsAmbiguous(s, ancestors))
  {
    if |s.markers| <= 4096 {
      StopIsFailure(s, ancestors, error);
      var (e, last) := Final(s, ancestors);
      if SliceHierarchy(s, ancestors) == Failed(error) && e < |s.markers| { assert FailsAt(s, ancestors, e, error); }
      if j: nat :| FailsAt(s, ancestors, j, error) { CauseStops(s, ancestors, j, error); }
      if e < |s.markers| && EndsAmbiguous(s, ancestors) { NotAtEnd(s, ancestors); }
    }
  }

  lemma NotAtEnd(s: Scope, ancestors: seq<string>)
    requires Searched(s) && Runs(s, ancestors) && Final(s, ancestors).0 < |s.markers|
    ensures StateBefore(s, ancestors, |s.markers|).Halt?
  {
    var n, start, e := |s.markers|, Start(Retained(ancestors, s.regulation).value), Final(s, ancestors).0;
    StopIsFinal(Step(s), n, Finish(s), 0, start);
    GoesOnUntilStop(Step(s), n, 0, start, e);
    HaltsFor(Step(s), 0, start, e, n);
  }

  // ---------------------------------------------------------------- the warnings

  /** A marker with the requested path that was not sure enough: doubted although strong or headed, or accepted
      on doubtful ground. */
  ghost predicate Missed(s: Scope, j: nat, st: State)
    requires j < |s.markers|
  {
    exists a ::
      || (&& Judges(s, j, st, a, false) && Tokens(st.stack[..a.level]) + [s.markers[j].token] == s.fragments
          && ((s.signs.structural(j) && s.signs.strong(j)) || s.PrecedingHeading(j, st.lastEnd)))
      || (&& Judges(s, j, st, a, true) && st.target.None? && HasPath(s, j, st) && OnDoubtfulGround(s, j, st))
  }

  lemma AcceptedRejects(s: Scope, j: nat, st: State, a: Assignment, e: Evidence)
    requires j < |s.markers| && Searched(s) && Finds(s, j, st, a, e) && e.Found? && e.answer
    requires Judged(s, j, st, a, e).Continue?
    ensures Judged(s, j, st, a, e).next.rejectedTarget <==> st.rejectedTarget || Missed(s, j, st)
  {
    PathIs(s, j, st.stack, a);
    assert Judges(s, j, st, a, true);
    StructuralRejects(s, j, Charged(st, e.remaining, e.scans), a);
  }

  lemma DoubtedRejects(s: Scope, j: nat, st: State, a: Assignment, e: Evidence)
    requires j < |s.markers| && Searched(s) && Finds(s, j, st, a, e) && e.Found? && !e.answer
    requires Judged(s, j, st, a, e).Continue?
    ensures Judged(s, j, st, a, e).next.rejectedTarget <==> st.rejectedTarget || Missed(s, j, st)
  {
    assert Judges(s, j, st, a, false);
  }

  lemma TurnRejects(s: Scope, j: nat, st: State)
    requires j < |s.markers| && Searched(s) && Advance(s, j, st).Continue?
    ensures Advance(s, j, st).next.rejectedTarget <==> st.rejectedTarget || Missed(s, j, st)
  {
    AssignedIsReadable(s, j, st);
    match Assigned(s, j, st)
    case None => UnassignedGoesOn(s, j, st);
    case Some(a) =>
      var e := IsStructural(s, j, st.stack, a, st.lastEnd, 0, st.remaining);
      assert Advance(s, j, st) == Judged(s, j, st, a, e);
      if e.answer { AcceptedRejects(s, j, st, a, e); } else { DoubtedRejects(s, j, st, a, e); }
  }

  lemma StructuralRejects(s: Scope, j: nat, st: State, a: Assignment)
    requires j < |s.markers| && a.level <= |st.stack| && Searched(s) && Structural(s, j, st, a).Continue?
    ensures Structural(s, j, st, a).next.rejectedTarget <==>
            || st.rejectedTarget
            || (&& st.target.None? && Tokens(st.stack[..a.level] + [s.EntryFor(j, a)]) == s.fragments
                && exists p :: p in st.provisional && p < a.level)
  {
    var after := Open(s, j, st, a);
    assert after.provisional == {} <==> !(exists p :: p in st.provisional && p < a.level) by {
      if p :| p in st.provisional && p < a.level { assert p in after.provisional; }
      if p :| p in after.provisional { assert p in st.provisional && p < a.level; }
    }
  }

  /** Where the slicer starts. */
  function Begin(s: Scope, ancestors: seq<string>): State
    requires Retained(ancestors, s.regulation).Some?
  {
    Start(Retained(ancestors, s.regulation).value)
  }

  ghost function MissesTarget(s: Scope): (nat, State) -> bool {
    (j: nat, st: State) => j < |s.markers| && Missed(s, j, st)
  }

  function Never(): (nat, State) -> bool { (j: nat, st: State) => false }

  function IsRejected(): State -> bool { (st: State) => st.rejectedTarget }

  lemma StepRejects(s: Scope, j: nat, st: State)
    requires j < |s.markers| && Searched(s) && Step(s)(j, st).Continue?
    ensures IsRejected()(Step(s)(j, st).next) <==>
            MissesTarget(s)(j, st) || (IsRejected()(st) && !Never()(j, st))
  {
    StepIsAdvance(s, j, st);
    TurnRejects(s, j, st);
  }

  /** The warning of a rejected target is up exactly when some earlier marker was missed. */
  lemma RejectedIff(s: Scope, ancestors: seq<string>, k: nat)
    requires Searched(s) && Retained(ancestors, s.regulation).Some? && k <= |s.markers|
    requires StateBefore(s, ancestors, k).Continue?
    ensures StateBefore(s, ancestors, k).next.rejectedTarget <==>
            SetOnTheWay(Step(s), Begin(s, ancestors), MissesTarget(s), Never(), k)
  {
    forall j: nat, st: State | j < |s.markers| && Step(s)(j, st).Continue?
      ensures IsRejected()(Step(s)(j, st).next) <==>
              MissesTarget(s)(j, st) || (IsRejected()(st) && !Never()(j, st))
    {
      StepRejects(s, j, st);
    }
    FlagIff(Step(s), |s.markers|, Begin(s, ancestors), IsRejected(), MissesTarget(s), Never(), k);
  }

  /** A marker that no level can take, although an open one has its kind, and that stands strongly. */
  predicate Bars(s: Scope, j: nat, st: State)
    requires j < |s.markers|
  {
    && Assigned(s, j, st).None? && st.target.None? && s.signs.structural(j) && s.signs.strong(j)
    && st.stack != [] && s.BlocksHierarchy(s.markers[j].token, st.stack, |st.stack| - 1)
  }

  /** A sure top-level marker that is not the one requested begins anew. */
  ghost predicate BeginsAnew(s: Scope, j: nat, st: State)
    requires j < |s.markers|
  {
    exists a :: && Judges(s, j, st, a, true) && st.target.None? && !HasPath(s, j, st)
                && a.level == 0 && s.signs.strong(j) && KindCount(s.markers[j].token) == 1
  }

  lemma TurnBars(s: Scope, j: nat, st: State)
    requires j < |s.markers| && Searched(s) && Advance(s, j, st).Continue?
    ensures Advance(s, j, st).next.unassignedBefore <==>
            Bars(s, j, st) || (st.unassignedBefore && !BeginsAnew(s, j, st))
  {
    AssignedIsReadable(s, j, st);
    if Assigned(s, j, st).Some? {
      var a := Assigned(s, j, st).value;
      var e := IsStructural(s, j, st.stack, a, st.lastEnd, 0, st.remaining);
      assert Advance(s, j, st) == Judged(s, j, st, a, e);
      JudgedBars(s, j, st, a, e);
    }
  }

  lemma JudgedBars(s: Scope, j: nat, st: State, a: Assignment, e: Evidence)
    requires j < |s.markers| && Searched(s) && Finds(s, j, st, a, e) && Judged(s, j, st, a, e).Continue?
    ensures Judged(s, j, st, a, e).next.unassignedBefore <==> st.unassignedBefore && !BeginsAnew(s, j, st)
  {
    PathIs(s, j, st.stack, a);
    assert Judges(s, j, st, a, e.answer);
    if !e.answer { DoubtfulGoesOn(s, j, Charged(st, e.remaining, e.scans), a); }
  }

  function BarsHierarchy(s: Scope): (nat, State) -> bool {
    (j: nat, st: State) => j < |s.markers| && Bars(s, j, st)
  }

  ghost function RestartsOutline(s: Scope): (nat, State) -> bool {
    (j: nat, st: State) => j < |s.markers| && BeginsAnew(s, j, st)
  }

  function IsWarned(): State -> bool { (st: State) => st.unassignedBefore }

  lemma StepWarns(s: Scope, j: nat, st: State)
    requires j < |s.markers| && Searched(s) && Step(s)(j, st).Continue?
    ensures IsWarned()(Step(s)(j, st).next) <==>
            BarsHierarchy(s)(j, st) || (IsWarned()(st) && !RestartsOutline(s)(j, st))
  {
    StepIsAdvance(s, j, st);
    TurnBars(s, j, st);
  }

  /** The warning of an unassigned marker is up exactly when an earlier marker barred the hierarchy and no sure
      top-level marker has begun anew since. */
  lemma WarnedIff(s: Scope, ancestors: seq<string>, k: nat)
    requires Searched(s) && Retained(ancestors, s.regulation).Some? && k <= |s.markers|
    requires StateBefore(s, ancestors, k).Continue?
    ensures StateBefore(s, ancestors, k).next.unassignedBefore <==>
            SetOnTheWay(Step(s), Begin(s, ancestors), BarsHierarchy(s), RestartsOutline(s), k)
  {
    forall j: nat, st: State | j < |s.markers| && Step(s)(j, st).Continue?
      ensures IsWarned()(Step(s)(j, st).next) <==>
              BarsHierarchy(s)(j, st) || (IsWarned()(st) && !RestartsOutline(s)(j, st))
    {
      StepWarns(s, j, st);
    }
    FlagIff(Step(s), |s.markers|, Begin(s, ancestors), IsWarned(), BarsHierarchy(s), RestartsOutline(s), k);
  }
}
