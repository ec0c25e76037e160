/** Slicing a printed outline for each of its paragraphs. */
module OutlineSlices {
  import opened Common
  import opened LegalMarkers
  import opened LegalAssignment
  import opened LegalEvidence
  import opened LegalSlicer
  import opened LegalOutline
  import opened TurnLoop
  import Text = LegalSlicerText

  /** The markers are those of a proper outline, printed strongly. */
  predicate Outlines(s: Scope, items: seq<Item>) { Printed(s, items) && Proper(items, RuleOf(s.regulation)) }

  /** Nothing doubtful has been met. */
  predicate Clean(st: State) {
    st.provisional == {} && st.deepAdvance.None? && !st.rejectedTarget && !st.unassignedBefore
  }

  /** The state before paragraph `k`, when everything so far was taken as meant. */
  predicate AsMeant(s: Scope, items: seq<Item>, k: nat, st: State, target: Option<Target>) {
    k <= |items| && st.stack == OpenAt(s, items, k) && Clean(st) && st.target == target
  }

  lemma MeantOpens(s: Scope, items: seq<Item>, k: nat)
    requires k < |items| && Outlines(s, items)
    ensures var stack, a := OpenAt(s, items, k), Meant(s, items, k);
            a.level == items[k].level <= |stack| &&
            stack[..a.level] + [s.EntryFor(k, a)] == OpenAt(s, items, k + 1)
  {
    ProperAt(items, |items|, k, RuleOf(s.regulation));
    MeantAdvances(OpenAt(s, items, k), items[k], s.regulation);
  }

  lemma OpenStaysClean(s: Scope, k: nat, st: State, a: Assignment)
    requires k < |s.markers| && a.level <= |st.stack| && Clean(st)
    ensures Clean(Open(s, k, st, a)) && Open(s, k, st, a).stack == st.stack[..a.level] + [s.EntryFor(k, a)]
    ensures Open(s, k, st, a).target == st.target
  {
  }

  /** A paragraph taken as meant. */
  lemma MeantTurn(s: Scope, items: seq<Item>, k: nat, st: State, target: Option<Target>) returns (from: State)
    requires k < |items| && Outlines(s, items) && ChosenAsMeant(s, items, k) && AsMeant(s, items, k, st, target)
    ensures Clean(from) && from.target == target && Meant(s, items, k).level <= |from.stack|
    ensures Advance(s, k, st) == Structural(s, k, from, Meant(s, items, k))
    ensures var next := Open(s, k, from, Meant(s, items, k)); AsMeant(s, items, k + 1, next, target)
  {
    from := Charged(st, st.remaining, 0);
    TakenAsMeant(s, items, k);
    AcceptsTaken(s, items, k, st);
    MeantOpens(s, items, k);
    OpenStaysClean(s, k, from, Meant(s, items, k));
  }

  function TargetAt(s: Scope, items: seq<Item>, x: nat): Target
    requires x < |items| == |s.markers| && Searched(s)
  {
    var a := Meant(s, items, x);
    Target(x, Cut(s, x), a.level, a.kind, a.ordinal)
  }

  lemma ClimbTurn(s: Scope, items: seq<Item>, k: nat, st: State)
    requires k < |items| && Outlines(s, items) && ChosenAsMeant(s, items, k) && AsMeant(s, items, k, st, None)
    requires s.fragments != Path(items, k, RuleOf(s.regulation))
    ensures Advance(s, k, st).Continue? && AsMeant(s, items, k + 1, Advance(s, k, st).next, None)
  {
    var from := MeantTurn(s, items, k, st, None);
  }

  lemma HitTurn(s: Scope, items: seq<Item>, k: nat, st: State)
    requires k < |items| && Outlines(s, items) && ChosenAsMeant(s, items, k) && AsMeant(s, items, k, st, None)
    requires s.fragments == Path(items, k, RuleOf(s.regulation))
    ensures Advance(s, k, st).Continue?
    ensures AsMeant(s, items, k + 1, Advance(s, k, st).next, Some(TargetAt(s, items, k)))
  {
    var from := MeantTurn(s, items, k, st, None);
  }

  lemma BelowTurn(s: Scope, items: seq<Item>, k: nat, st: State, t: Target)
    requires k < |items| && Outlines(s, items) && ChosenAsMeant(s, items, k) && AsMeant(s, items, k, st, Some(t))
    requires items[k].level > t.level
    ensures Advance(s, k, st).Continue? && AsMeant(s, items, k + 1, Advance(s, k, st).next, Some(t))
  {
    var from := MeantTurn(s, items, k, st, Some(t));
    MeantOpens(s, items, k);
  }

  lemma EndTurn(s: Scope, items: seq<Item>, k: nat, st: State, t: Target)
    requires k < |items| && Outlines(s, items) && ChosenAsMeant(s, items, k) && AsMeant(s, items, k, st, Some(t))
    requires items[k].level <= t.level
    ensures Advance(s, k, st) == Halt(Slice(t.start, Cut(s, k)))
  {
    var from := MeantTurn(s, items, k, st, Some(t));
    MeantOpens(s, items, k);
  }

  predicate AllChosen(s: Scope, items: seq<Item>)
    requires |items| == |s.markers|
  {
    forall k: nat :: k < |items| ==> ChosenAsMeant(s, items, k)
  }

  // ---------------------------------------------------------------- the run for one paragraph

  /** The target of the run for paragraph `x` before turn `k`. */
  function TargetBefore(s: Scope, items: seq<Item>, x: nat, k: nat): Option<Target>
    requires x < |items| == |s.markers| && Searched(s)
  {
    if k <= x then None else Some(TargetAt(s, items, x))
  }

  function OnCourse(s: Scope, items: seq<Item>, x: nat): (nat, State) -> bool
    requires x < |items| == |s.markers| && Searched(s)
  {
    (k: nat, st: State) => AsMeant(s, items, k, st, TargetBefore(s, items, x, k))
  }

  /** What the run still returns from turn `k` on. */
  function Stretch(s: Scope, items: seq<Item>, x: nat): nat -> Slice
    requires x < |items| == |s.markers| && Searched(s)
  {
    (k: nat) => Slice(Cut(s, x), EndFrom(s, items, x, k))
  }

  function EndFrom(s: Scope, items: seq<Item>, x: nat, k: nat): nat
    requires x < |items| == |s.markers| && Searched(s)
  {
    if k <= x then EndOf(s, items, x, x + 1) else EndOf(s, items, x, k)
  }

  lemma CourseTurn(s: Scope, items: seq<Item>, x: nat, k: nat, st: State)
    requires k < |items| && x < |items| && Outlines(s, items) && ChosenAsMeant(s, items, k)
    requires s.fragments == Path(items, x, RuleOf(s.regulation))
    requires AsMeant(s, items, k, st, TargetBefore(s, items, x, k))
    ensures var turn := Advance(s, k, st);
            if k > x && items[k].level <= items[x].level then turn == Halt(Slice(Cut(s, x), Cut(s, k)))
            else turn.Continue? && AsMeant(s, items, k + 1, turn.next, TargetBefore(s, items, x, k + 1))
  {
    if k < x {
      PathsDiffer(items, k, x, RuleOf(s.regulation));
      ClimbTurn(s, items, k, st);
    } else if k == x {
      HitTurn(s, items, k, st);
    } else {
      MeantOpens(s, items, x);
      if items[k].level <= items[x].level {
        EndTurn(s, items, k, st, TargetAt(s, items, x));
      } else {
        BelowTurn(s, items, k, st, TargetAt(s, items, x));
      }
    }
  }

  lemma CourseLeads(s: Scope, items: seq<Item>, x: nat, k: nat, st: State)
    requires k < |items| && x < |items| && Outlines(s, items) && ChosenAsMeant(s, items, k)
    requires s.fragments == Path(items, x, RuleOf(s.regulation)) && OnCourse(s, items, x)(k, st)
    ensures Leads(Step(s)(k, st), OnCourse(s, items, x), Stretch(s, items, x), k)
  {
    CourseTurn(s, items, x, k, st);
    StepIsAdvance(s, k, st);
    TurnLeads(s, items, x, k, Step(s)(k, st));
  }

  lemma TurnLeads(s: Scope, items: seq<Item>, x: nat, k: nat, turn: Turn<State, Slice>)
    requires k < |items| == |s.markers| && x < |items| && Searched(s)
    requires if k > x && items[k].level <= items[x].level then turn == Halt(Slice(Cut(s, x), Cut(s, k)))
             else turn.Continue? && AsMeant(s, items, k + 1, turn.next, TargetBefore(s, items, x, k + 1))
    ensures Leads(turn, OnCourse(s, items, x), Stretch(s, items, x), k)
  {
    StretchAt(s, items, x, k);
    if turn.Continue? { assert OnCourse(s, items, x)(k + 1, turn.next); }
  }

  lemma StretchAt(s: Scope, items: seq<Item>, x: nat, k: nat)
    requires x < |items| == |s.markers| && Searched(s) && k <= |items|
    ensures var goal := Stretch(s, items, x);
            && (k == |items| ==> goal(k) == Slice(Cut(s, x), |s.text|))
            && (x < k < |items| && items[k].level <= items[x].level ==> goal(k) == Slice(Cut(s, x), Cut(s, k)))
            && (k <= x || (k < |items| && items[k].level > items[x].level) ==> goal(k) == goal(k + 1))
  {
    var end := EndFrom(s, items, x, k);
    assert Stretch(s, items, x)(k) == Slice(Cut(s, x), end);
    assert Stretch(s, items, x)(k + 1) == Slice(Cut(s, x), EndFrom(s, items, x, k + 1));
    if k == |items| {
      assert end == |s.text|;
    } else if x < k {
      assert end == if items[k].level <= items[x].level then Cut(s, k) else EndOf(s, items, x, k + 1);
    } else if k == x {
      assert end == EndOf(s, items, x, k + 1);
    }
  }

  lemma CourseEnds(s: Scope, items: seq<Item>, x: nat, st: State)
    requires x < |items| && Outlines(s, items) && OnCourse(s, items, x)(|items|, st)
    ensures Finish(s)(st) == Stretch(s, items, x)(|items|)
  {
    StretchAt(s, items, x, |items|);
    FinishIs(s, st, TargetAt(s, items, x));
  }

  lemma FinishIs(s: Scope, st: State, t: Target)
    requires st.target == Some(t) && st.deepAdvance.None?
    ensures Finish(s)(st) == Slice(t.start, |s.text|)
  {
  }

  lemma RunsTo(s: Scope, items: seq<Item>, x: nat, st: State)
    requires x < |items| && Outlines(s, items) && AllChosen(s, items)
    requires s.fragments == Path(items, x, RuleOf(s.regulation)) && AsMeant(s, items, 0, st, None)
    ensures Run(s, 0, st) == Slice(Cut(s, x), EndOf(s, items, x, x + 1))
  {
    var p, goal := OnCourse(s, items, x), Stretch(s, items, x);
    forall last | p(|items|, last) ensures Finish(s)(last) == goal(|items|) { CourseEnds(s, items, x, last); }
    forall k: nat, st | k < |items| && p(k, st) ensures Leads(Step(s)(k, st), p, goal, k) {
      CourseLeads(s, items, x, k, st);
    }
    LoopLeads(Step(s), |items|, Finish(s), p, goal, 0, st);
  }

  lemma StartsAsMeant(s: Scope, items: seq<Item>)
    requires Searched(s) && s.fragments != [] && |s.markers| <= 4096
    ensures AsMeant(s, items, 0, Start([]), None) && SliceHierarchy(s, []) == Run(s, 0, Start([]))
  {
  }

  /** Slicing for a path, without retained ancestors. */
  function SliceFor(s: Scope, path: seq<string>): Slice
    requires Searched(s)
  {
    SliceHierarchy(s.(fragments := path), [])
  }

  /** The slice for paragraph `x` is its own stretch. */
  predicate Finds(s: Scope, items: seq<Item>, x: nat)
    requires x < |items| == |s.markers| && Searched(s)
  {
    SliceFor(s, Path(items, x, RuleOf(s.regulation))) == Slice(Cut(s, x), EndOf(s, items, x, x + 1))
  }

  lemma PathNotEmpty(s: Scope, items: seq<Item>, x: nat)
    requires x < |items| && Outlines(s, items)
    ensures |Path(items, x, RuleOf(s.regulation))| == items[x].level + 1
  {
    MeantOpens(s, items, x);
  }

  lemma FindsEvery(s: Scope, items: seq<Item>, x: nat)
    requires x < |items| && Outlines(s, items) && AllChosen(s, items)
    ensures Finds(s, items, x)
  {
    var t := s.(fragments := Path(items, x, RuleOf(s.regulation)));
    PathNotEmpty(s, items, x);
    SameOutline(s, t, items);
    SameEnd(s, t, items, x, x + 1);
    StartsAsMeant(t, items);
    RunsTo(t, items, x, Start([]));
  }

  lemma SameOutline(s: Scope, t: Scope, items: seq<Item>)
    requires t == s.(fragments := t.fragments) && Outlines(s, items)
    ensures Outlines(t, items) && (AllChosen(s, items) ==> AllChosen(t, items))
  {
    forall k: nat | k < |items| ensures ChosenAsMeant(s, items, k) ==> ChosenAsMeant(t, items, k) {
      SameChoice(s, t, items, k);
    }
  }

  lemma SameChoice(s: Scope, t: Scope, items: seq<Item>, k: nat)
    requires t == s.(fragments := t.fragments) && k < |items| == |s.markers|
    ensures ChosenAsMeant(s, items, k) <==> ChosenAsMeant(t, items, k)
  {
    var stack := OpenAt(s, items, k);
    assert stack == OpenAt(t, items, k);
    assert s.BeginsRoman(k, stack) == t.BeginsRoman(k, stack);
  }

  lemma {:induction false} SameEnd(s: Scope, t: Scope, items: seq<Item>, x: nat, k: nat)
    requires t == s.(fragments := t.fragments) && x < |items| == |s.markers| && Searched(s) && Searched(t)
    ensures EndOf(s, items, x, k) == EndOf(t, items, x, k)
    decreases |items| - k
  {
    if k < |items| { SameEnd(s, t, items, x, k + 1); }
  }

  // ---------------------------------------------------------------- only then

  /** Up to paragraph `x` the open levels are those of the outline, and marker `x`, once accepted, has `level`. */
  predicate Tracks(s: Scope, items: seq<Item>, x: nat, level: nat, k: nat, stack: seq<Entry>, accepted: seq<Accepted>) {
    && k <= |items| && (k <= x ==> stack == OpenAt(s, items, k))
    && forall r :: 0 <= r < |accepted| ==>
         accepted[r].index < k && (accepted[r].index == x ==> |accepted[r].path| == level + 1)
  }

  function Tracking(s: Scope, items: seq<Item>, x: nat, level: nat): (nat, State) -> bool {
    (k: nat, st: State) => Tracks(s, items, x, level, k, st.stack, st.accepted)
  }

  lemma TracksUpTo(s: Scope, items: seq<Item>, x: nat, level: nat, k: nat, st: State)
    requires k <= x < |items| && Outlines(s, items) && Tracks(s, items, x, level, k, st.stack, st.accepted)
    requires k < x ==> ChosenAsMeant(s, items, k)
    requires Taken(s, items, x).Some? && level == Taken(s, items, x).value.level && Advance(s, k, st).Continue?
    ensures var next := Advance(s, k, st).next; Tracks(s, items, x, level, k + 1, next.stack, next.accepted)
  {
    var a := TurnAccepts(s, items, k, st);
    if k < x { MeantOpens(s, items, k); }
  }

  /** A turn that goes on appends the record of its marker, at the level taken. */
  lemma TurnAccepts(s: Scope, items: seq<Item>, k: nat, st: State) returns (a: Assignment)
    requires k < |items| && Outlines(s, items) && st.stack == OpenAt(s, items, k) && Advance(s, k, st).Continue?
    ensures Taken(s, items, k) == Some(a) && a.level <= |st.stack|
    ensures ChosenAsMeant(s, items, k) ==> a == Meant(s, items, k)
    ensures var next, path := Advance(s, k, st).next, st.stack[..a.level] + [s.EntryFor(k, a)];
            next.stack == path && exists epoch :: next.accepted == st.accepted + [Accepted(k, path, epoch)]
  {
    TakenAsMeant(s, items, k);
    AcceptsTaken(s, items, k, st);
    a := Taken(s, items, k).value;
    StructuralGoesOn(s, k, Charged(st, st.remaining, 0), a);
    var epoch := Open(s, k, Charged(st, st.remaining, 0), a).epoch;
    assert Advance(s, k, st).next.accepted ==
           st.accepted + [Accepted(k, st.stack[..a.level] + [s.EntryFor(k, a)], epoch)];
  }

  lemma TracksBeyond(s: Scope, items: seq<Item>, x: nat, level: nat, k: nat, st: State)
    requires x < k < |items| && Outlines(s, items) && Tracks(s, items, x, level, k, st.stack, st.accepted)
    requires Advance(s, k, st).Continue?
    ensures var next := Advance(s, k, st).next; Tracks(s, items, x, level, k + 1, next.stack, next.accepted)
  {
    Text.AcceptingTurn(s, k, st);
  }

  lemma TracksTurn(s: Scope, items: seq<Item>, x: nat, level: nat, k: nat, st: State, next: State)
    requires k < |items| && x < |items| && Outlines(s, items) && Tracks(s, items, x, level, k, st.stack, st.accepted)
    requires k < x ==> ChosenAsMeant(s, items, k)
    requires Taken(s, items, x).Some? && level == Taken(s, items, x).value.level && Advance(s, k, st) == Continue(next)
    ensures Tracks(s, items, x, level, k + 1, next.stack, next.accepted)
  {
    if k <= x { TracksUpTo(s, items, x, level, k, st); } else { TracksBeyond(s, items, x, level, k, st); }
  }

  lemma TracksOn(s: Scope, items: seq<Item>, x: nat, level: nat, k: nat, st: State)
    requires k < |items| && x < |items| && Outlines(s, items) && Tracking(s, items, x, level)(k, st)
    requires k < x ==> ChosenAsMeant(s, items, k)
    requires Taken(s, items, x).Some? && level == Taken(s, items, x).value.level && Step(s)(k, st).Continue?
    ensures Tracking(s, items, x, level)(k + 1, Step(s)(k, st).next)
  {
    StepIsAdvance(s, k, st);
    TracksTurn(s, items, x, level, k, st, Step(s)(k, st).next);
  }

  lemma TracksToStop(s: Scope, items: seq<Item>, x: nat, level: nat)
    requires x < |items| && Outlines(s, items) && forall k: nat :: k < x ==> ChosenAsMeant(s, items, k)
    requires Taken(s, items, x).Some? && level == Taken(s, items, x).value.level
    ensures var (e, last) := Final(s, []); Tracks(s, items, x, level, e, last.stack, last.accepted)
  {
    var p := Tracking(s, items, x, level);
    forall k: nat, st | k < |s.markers| && p(k, st) && Step(s)(k, st).Continue?
      ensures p(k + 1, Step(s)(k, st).next)
    {
      TracksOn(s, items, x, level, k, st);
    }
    StopKeeps(Step(s), |s.markers|, 0, Start([]), p);
  }

  lemma SameCut(s: Scope, i: nat, j: nat)
    requires Searched(s) && i < |s.markers| && j < |s.markers| && Cut(s, i) == Cut(s, j)
    ensures i == j
  {
    if i < j { CutsInOrder(s, i, j); }
    if j < i { CutsInOrder(s, j, i); }
  }

  lemma FoundIsTaken(s: Scope, items: seq<Item>, x: nat, hi: nat)
    requires x < |items| && Outlines(s, items) && s.fragments == Path(items, x, RuleOf(s.regulation))
    requires forall k: nat :: k < x ==> ChosenAsMeant(s, items, k)
    requires SliceHierarchy(s, []) == Slice(Cut(s, x), hi)
    ensures ChosenAsMeant(s, items, x)
  {
    TakenAsMeant(s, items, x);
    PathNotEmpty(s, items, x);
    SliceIsTheParagraph(s, [], Cut(s, x), hi);
    TracksToStop(s, items, x, Taken(s, items, x).value.level);
    var (e, last) := Final(s, []);
    SameCut(s, last.target.value.index, x);
    var k :| 0 <= k < |last.accepted| && last.accepted[k].index == x && Tokens(last.accepted[k].path) == s.fragments;
    assert |last.accepted[k].path| == |Tokens(last.accepted[k].path)| == items[x].level + 1;
  }

  lemma FindsTaken(s: Scope, items: seq<Item>, x: nat)
    requires x < |items| && Outlines(s, items) && Finds(s, items, x)
    requires forall k: nat :: k < x ==> ChosenAsMeant(s, items, k)
    ensures ChosenAsMeant(s, items, x)
  {
    var t := s.(fragments := Path(items, x, RuleOf(s.regulation)));
    SameOutline(s, t, items);
    forall k: nat | k <= x ensures ChosenAsMeant(s, items, k) <==> ChosenAsMeant(t, items, k) {
      SameChoice(s, t, items, k);
    }
    FoundIsTaken(t, items, x, EndOf(s, items, x, x + 1));
  }

  /** What holds at each number if it holds at all smaller ones holds at all. */
  lemma {:induction false} OneByOne(p: nat -> bool, n: nat)
    requires forall x: nat :: x < n && (forall k: nat :: k < x ==> p(k)) ==> p(x)
    ensures forall k: nat :: k < n ==> p(k)
  {
    if n > 0 { OneByOne(p, n - 1); }
  }

  function Choice(s: Scope, items: seq<Item>): nat -> bool {
    (k: nat) => k < |items| && |items| == |s.markers| && ChosenAsMeant(s, items, k)
  }

  lemma ChoiceGoesOn(s: Scope, items: seq<Item>, x: nat)
    requires x < |items| && Outlines(s, items) && Finds(s, items, x) && forall k: nat :: k < x ==> Choice(s, items)(k)
    ensures Choice(s, items)(x)
  {
    forall k: nat | k < x ensures ChosenAsMeant(s, items, k) { assert Choice(s, items)(k); }
    FindsTaken(s, items, x);
  }

  lemma FoundAreChosen(s: Scope, items: seq<Item>)
    requires Outlines(s, items) && forall x: nat :: x < |items| ==> Finds(s, items, x)
    ensures AllChosen(s, items)
  {
    var p := Choice(s, items);
    forall x: nat | x < |items| && forall k: nat :: k < x ==> p(k) ensures p(x) { ChoiceGoesOn(s, items, x); }
    OneByOne(p, |items|);
    forall k: nat | k < |items| ensures ChosenAsMeant(s, items, k) { assert p(k); }
  }

  /** In a strongly printed outline the slicer returns, for every paragraph, exactly its own stretch, if and only
      if every marker is chosen for the level it is meant for. */
  lemma FindsAllIff(s: Scope, items: seq<Item>)
    requires Outlines(s, items)
    ensures (forall x: nat :: x < |items| ==> Finds(s, items, x)) <==> AllChosen(s, items)
  {
    if forall x: nat :: x < |items| ==> Finds(s, items, x) { FoundAreChosen(s, items); }
    if AllChosen(s, items) {
      forall x: nat | x < |items| ensures Finds(s, items, x) { FindsEvery(s, items, x); }
    }
  }
}
