/** When the slicer finds a paragraph: exactly when it accepts a marker with the requested path on sure ground. */
module SlicerFinds {
  import opened Common
  import opened LegalMarkers
  import opened LegalEvidence
  import opened LegalSlicer
  import opened TurnLoop

  /** The call does not end before its first marker. */
  predicate Runs(s: Scope, ancestors: seq<string>) {
    |ancestors| < |s.fragments| && Retained(ancestors, s.regulation).Some? && |s.markers| <= 4096
  }

  /** In state `st` marker `j` is accepted with the requested path. */
  predicate HasPath(s: Scope, j: nat, st: State)
    requires j < |s.markers|
  {
    match Assigned(s, j, st)
    case None => false
    case Some(a) =>
      && a.level <= |st.stack|
      && (var e := IsStructural(s, j, st.stack, a, st.lastEnd, 0, st.remaining); e.Found? && e.answer)
      && |s.fragments| == a.level + 1 && s.fragments[a.level] == s.markers[j].token
      && forall l :: 0 <= l < a.level ==> s.fragments[l] == st.stack[l].token
  }

  /** Above marker `j` some level is open only provisionally. */
  predicate OnDoubtfulGround(s: Scope, j: nat, st: State)
    requires j < |s.markers|
  {
    Assigned(s, j, st).Some? && exists p :: p in st.provisional && p < Assigned(s, j, st).value.level
  }

  predicate Hits(s: Scope, j: nat, st: State)
    requires j < |s.markers|
  {
    HasPath(s, j, st) && !OnDoubtfulGround(s, j, st)
  }

  lemma PathIs(s: Scope, j: nat, stack: seq<Entry>, a: Assignment)
    requires j < |s.markers| && a.level <= |stack|
    ensures Tokens(stack[..a.level] + [s.EntryFor(j, a)]) == s.fragments <==>
            && |s.fragments| == a.level + 1 && s.fragments[a.level] == s.markers[j].token
            && forall l :: 0 <= l < a.level ==> s.fragments[l] == stack[l].token
  {
    var path := stack[..a.level] + [s.EntryFor(j, a)];
    if Tokens(path) == s.fragments {
      forall l | 0 <= l < a.level ensures s.fragments[l] == stack[l].token { assert Tokens(path)[l] == path[l].token; }
      assert Tokens(path)[a.level] == path[a.level].token;
    } else if |s.fragments| == a.level + 1 {
      var l :| 0 <= l < |s.fragments| && Tokens(path)[l] != s.fragments[l];
      assert path[l].token != s.fragments[l];
    }
  }

  lemma StructuralTarget(s: Scope, j: nat, st: State, a: Assignment)
    requires j < |s.markers| && a.level <= |st.stack| && Searched(s) && Structural(s, j, st, a).Continue?
    ensures var next := Structural(s, j, st, a).next;
            if st.target.Some? then next.target == st.target
            else next.target.Some? <==>
                 Tokens(st.stack[..a.level] + [s.EntryFor(j, a)]) == s.fragments &&
                 !(exists p :: p in st.provisional && p < a.level)
  {
    var after := Open(s, j, st, a);
    assert after.provisional == {} <==> !(exists p :: p in st.provisional && p < a.level) by {
      if p :| p in st.provisional && p < a.level { assert p in after.provisional; }
      if p :| p in after.provisional { assert p in st.provisional && p < a.level; }
    }
  }

  /** A turn that goes on keeps an open target, and opens one exactly when its marker is a hit. */
  lemma TurnTarget(s: Scope, j: nat, st: State)
    requires j < |s.markers| && Searched(s) && Advance(s, j, st).Continue?
    ensures var next := Advance(s, j, st).next;
            if st.target.Some? then next.target == st.target else next.target.Some? <==> Hits(s, j, st)
  {
    AssignedIsReadable(s, j, st);
    match Assigned(s, j, st)
    case None => UnassignedGoesOn(s, j, st);
    case Some(a) =>
      var e := IsStructural(s, j, st.stack, a, st.lastEnd, 0, st.remaining);
      var charged := Charged(st, e.remaining, e.scans);
      PathIs(s, j, st.stack, a);
      if e.answer { StructuralTarget(s, j, charged, a); } else { DoubtfulGoesOn(s, j, charged, a); }
  }

  /** The slicer gets to marker `j` and does not hit there. */
  predicate Misses(s: Scope, ancestors: seq<string>, j: nat)
    requires Retained(ancestors, s.regulation).Some? && j < |s.markers|
  {
    var st := StateBefore(s, ancestors, j);
    st.Continue? && !Hits(s, j, st.next)
  }

  lemma NoTargetStep(s: Scope, ancestors: seq<string>, k: nat)
    requires Searched(s) && Retained(ancestors, s.regulation).Some? && k < |s.markers|
    requires StateBefore(s, ancestors, k + 1).Continue?
    ensures StateBefore(s, ancestors, k).Continue?
    ensures StateBefore(s, ancestors, k + 1).next.target.None? <==>
            StateBefore(s, ancestors, k).next.target.None? && Misses(s, ancestors, k)
  {
    var start := Start(Retained(ancestors, s.regulation).value);
    AtBefore(Step(s), 0, start, k);
    AtSnoc(Step(s), 0, start, k);
    var st := StateBefore(s, ancestors, k).next;
    StepIsAdvance(s, k, st);
    TurnTarget(s, k, st);
  }

  /** What holds at first and stays as long as nothing hits. */
  lemma {:induction false} HoldsWhile(holds: nat -> bool, misses: nat -> bool, k: nat)
    requires holds(0) && forall j: nat :: j < k ==> (holds(j + 1) <==> holds(j) && misses(j))
    ensures holds(k) <==> forall j: nat :: j < k ==> misses(j)
  {
    if k > 0 { HoldsWhile(holds, misses, k - 1); }
  }

  lemma {:induction false} GotTo(s: Scope, ancestors: seq<string>, j: nat, k: nat)
    requires Retained(ancestors, s.regulation).Some? && j <= k && StateBefore(s, ancestors, k).Continue?
    ensures StateBefore(s, ancestors, j).Continue?
    decreases k - j
  {
    if j < k {
      AtBefore(Step(s), 0, Start(Retained(ancestors, s.regulation).value), k - 1);
      GotTo(s, ancestors, j, k - 1);
    }
  }

  function Untargeted(s: Scope, ancestors: seq<string>): nat -> bool
    requires Retained(ancestors, s.regulation).Some?
  {
    (k: nat) => var st := StateBefore(s, ancestors, k); st.Continue? && st.next.target.None?
  }

  function MissesAt(s: Scope, ancestors: seq<string>): nat -> bool
    requires Retained(ancestors, s.regulation).Some?
  {
    (j: nat) => j < |s.markers| && Misses(s, ancestors, j)
  }

  lemma NoTargetIff(s: Scope, ancestors: seq<string>, k: nat)
    requires Searched(s) && Retained(ancestors, s.regulation).Some? && k <= |s.markers|
    requires StateBefore(s, ancestors, k).Continue?
    ensures Untargeted(s, ancestors)(k) <==> forall j: nat :: j < k ==> MissesAt(s, ancestors)(j)
  {
    var holds, misses := Untargeted(s, ancestors), MissesAt(s, ancestors);
    assert holds(0);
    forall j: nat | j < k ensures holds(j + 1) <==> holds(j) && misses(j) {
      GotTo(s, ancestors, j + 1, k);
      NoTargetStep(s, ancestors, j);
    }
    HoldsWhile(holds, misses, k);
  }

  lemma HaltIsNotMissing(s: Scope, j: nat, st: State)
    requires j < |s.markers| && Searched(s) && Advance(s, j, st).Halt?
    ensures Advance(s, j, st).result != Missing
  {
    AssignedIsReadable(s, j, st);
  }

  lemma MissingAtEnd(s: Scope, ancestors: seq<string>)
    requires Searched(s) && Runs(s, ancestors)
    ensures SliceHierarchy(s, ancestors) == Missing <==>
            var st := StateBefore(s, ancestors, |s.markers|); st.Continue? && st.next.target.None?
  {
    var n, start := |s.markers|, Start(Retained(ancestors, s.regulation).value);
    var (e, last) := Final(s, ancestors);
    StopsWith(s, ancestors);
    GoesOnUntilStop(Step(s), n, 0, start, e);
    if e < n {
      HaltIsNotMissing(s, e, last);
      StepIsAdvance(s, e, last);
      HaltsFor(Step(s), 0, start, e, n);
    }
  }

  lemma {:induction false} HaltsFor<S, R>(step: (nat, S) -> Turn<S, R>, i: nat, st: S, e: nat, n: nat)
    requires i <= e < n && At(step, i, st, e).Continue? && step(e, At(step, i, st, e).next).Halt?
    ensures At(step, i, st, n).Halt?
    decreases n
  {
    if e + 1 < n {
      HaltsFor(step, i, st, e, n - 1);
      if At(step, i, st, n).Continue? { AtBefore(step, i, st, n - 1); }
    } else {
      AtSnoc(step, i, st, e);
    }
  }

  /** A paragraph is missing exactly when the slicer gets through all markers and each one that it accepted with
      the requested path was accepted with a provisional level open above it. */
  lemma MissingIff(s: Scope, ancestors: seq<string>)
    requires Searched(s) && Runs(s, ancestors)
    ensures SliceHierarchy(s, ancestors) == Missing <==>
            && StateBefore(s, ancestors, |s.markers|).Continue?
            && forall j: nat :: j < |s.markers| ==> Misses(s, ancestors, j)
  {
    MissingAtEnd(s, ancestors);
    if StateBefore(s, ancestors, |s.markers|).Continue? {
      NoTargetIff(s, ancestors, |s.markers|);
      assert forall j: nat :: j < |s.markers| ==> (MissesAt(s, ancestors)(j) <==> Misses(s, ancestors, j));
    }
  }

  /** In particular no accepted marker with the requested path is passed over on sure ground. */
  lemma MissingMeans(s: Scope, ancestors: seq<string>, j: nat)
    requires Searched(s) && Runs(s, ancestors) && SliceHierarchy(s, ancestors) == Missing && j < |s.markers|
    ensures StateBefore(s, ancestors, j).Continue?
    ensures HasPath(s, j, StateBefore(s, ancestors, j).next) ==>
              OnDoubtfulGround(s, j, StateBefore(s, ancestors, j).next)
  {
    MissingIff(s, ancestors);
    assert Misses(s, ancestors, j);
  }
}
