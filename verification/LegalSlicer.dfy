/**
 The hierarchy slicer: a stack machine over the parenthetical markers of a flattened provision that
 cuts out the paragraph with a given path.
 */
module LegalSlicer {
  import opened Common
  import opened LegalMarkers
  import opened LegalEvidence
  import opened TurnLoop

  const MAX_MARKERS: nat := 4096
  const MAX_HIERARCHY_DEPTH: nat := 64

  datatype SliceError =
    | TooManyMarkers
    | BackwardSequence
    | TooDeep
    | AfterUnassigned
    | AfterRejected
    | AmbiguousAdvance
    | EvidenceExhausted

  datatype Target = Target(index: nat, start: nat, level: nat, kind: Kind, ordinal: int)

  /** A marker taken as structural, with the open path it produced. Markers of one epoch are separated by
      no strongly anchored top-level restart. */
  datatype Accepted = Accepted(index: nat, path: seq<Entry>, epoch: nat)

  datatype State = State(
    stack: seq<Entry>,
    lastStrongTop: Option<int>,
    target: Option<Target>,
    rejectedTarget: bool,
    unassignedBefore: bool,
    provisional: set<nat>,
    deepAdvance: Option<nat>,
    lastEnd: Option<nat>,
    remaining: nat,
    scans: nat,
    epoch: nat,
    accepted: seq<Accepted>)

  datatype Slice = Slice(lo: nat, hi: nat) | Missing | Failed(error: SliceError)

  function BracketStart(text: string, start: nat): nat
    requires start <= |text|
  {
    if start > 0 && text[start - 1] == '[' then start - 1 else start
  }

  /** Markers as a left-to-right, non-overlapping pattern search yields them. */
  predicate Searched(s: Scope) {
    && (forall i :: 0 <= i < |s.markers| ==>
          var m := s.markers[i];
          m.start < m.end <= |s.text| && s.text[m.start..m.end] == "(" + m.token + ")")
    && (forall i, j :: 0 <= i < j < |s.markers| ==> s.markers[i].end <= s.markers[j].start)
  }

  function Cut(s: Scope, i: nat): nat
    requires i < |s.markers| && Searched(s)
  {
    BracketStart(s.text, s.markers[i].start)
  }

  // ---------------------------------------------------------------- one marker

  /** A strongly anchored top-level marker that advances past the last one may restart the hierarchy. */
  predicate Restarts(s: Scope, i: nat, st: State)
    requires i < |s.markers|
  {
    var token := s.markers[i].token;
    var top := OrdinalOf(token, s.KindAt(0));
    && s.signs.structural(i) && s.signs.strong(i) && KindCount(token) == 1 && top.Some?
    && (st.lastStrongTop.None? || top.value > st.lastStrongTop.value)
  }

  function PlainAssignment(s: Scope, i: nat, stack: seq<Entry>): Option<Assignment>
    requires i < |s.markers|
  {
    Assign(stack, s.markers[i].token, s.regulation, s.fragments, !s.signs.structural(i), s.BeginsRoman(i, stack))
  }

  function Assigned(s: Scope, i: nat, st: State): Option<Assignment>
    requires i < |s.markers|
  {
    var a := PlainAssignment(s, i, st.stack);
    if a.None? && Restarts(s, i, st)
    then Some(Assignment(0, s.KindAt(0), OrdinalOf(s.markers[i].token, s.KindAt(0)).value)) else a
  }

  function Unassigned(s: Scope, i: nat, st: State): Turn<State, Slice>
    requires i < |s.markers| && Searched(s)
  {
    var token, direct := s.markers[i].token, s.signs.structural(i);
    if st.target.None? then
      var blocked :=
        direct && s.signs.strong(i) && st.stack != [] && s.BlocksHierarchy(token, st.stack, |st.stack| - 1);
      Continue(st.(unassignedBefore := st.unassignedBefore || blocked))
    else if !direct then Continue(st)
    else
      var t := st.target.value;
      match OrdinalOf(token, t.kind)
      case Some(ordinal) =>
        if ordinal > t.ordinal then Halt(Slice(t.start, Cut(s, i))) else Halt(Failed(BackwardSequence))
      case None =>
        if s.BlocksHierarchy(token, st.stack, t.level) then Halt(Failed(BackwardSequence)) else Continue(st)
  }

  /** A marker without enough evidence: remembered as a missed target or as provisional scope. */
  function Doubtful(s: Scope, i: nat, st: State, a: Assignment): Turn<State, Slice>
    requires i < |s.markers| && a.level <= |st.stack|
  {
    var direct, strong := s.signs.structural(i), s.signs.strong(i);
    var heading := s.PrecedingHeading(i, st.lastEnd);
    var candidate := Tokens(st.stack[..a.level]) + [s.markers[i].token];
    var missed := candidate == s.fragments && ((direct && strong) || heading);
    var st' := st.(rejectedTarget := st.rejectedTarget || missed);
    if !((direct || heading) && a.level == |st.stack|) then Continue(st')
    else if a.level >= MAX_HIERARCHY_DEPTH then Halt(Failed(TooDeep))
    else Continue(st'.(stack := st.stack + [s.EntryFor(i, a)], provisional := st.provisional + {a.level}))
  }

  predicate PotentialAdvance(s: Scope, i: nat, st: State, a: Assignment)
    requires i < |s.markers|
  {
    st.target.Some? &&
    var t := st.target.value;
    && a.level > t.level && a.kind == t.kind
    && (exists p :: p in st.provisional && t.level < p <= a.level)
    && (match OrdinalOf(s.markers[i].token, t.kind) case Some(o) => o case None => 0) > t.ordinal
  }

  function DeepAdvance(s: Scope, i: nat, st: State, a: Assignment): Option<nat>
    requires i < |s.markers|
  {
    if PotentialAdvance(s, i, st, a) then
      (if st.deepAdvance.Some? && st.deepAdvance.value < a.level then st.deepAdvance else Some(a.level))
    else if st.deepAdvance.Some? && st.target.Some? && st.target.value.level < a.level < st.deepAdvance.value then None
    else st.deepAdvance
  }

  /** The state once marker `i` is accepted at `a`, before the target is looked at. */
  function Open(s: Scope, i: nat, st: State, a: Assignment): State
    requires i < |s.markers| && a.level <= |st.stack|
  {
    var stack := st.stack[..a.level] + [s.EntryFor(i, a)];
    var top := a.level == 0 && s.signs.strong(i) && KindCount(s.markers[i].token) == 1;
    var epoch := if PlainAssignment(s, i, st.stack).None? then st.epoch + 1 else st.epoch;
    st.(stack := stack,
        provisional := (set p | p in st.provisional && p < a.level),
        lastEnd := Some(s.markers[i].end),
        lastStrongTop := if top then Some(a.ordinal) else st.lastStrongTop,
        deepAdvance := DeepAdvance(s, i, st, a),
        epoch := epoch,
        accepted := st.accepted + [Accepted(i, stack, epoch)])
  }

  function Structural(s: Scope, i: nat, st: State, a: Assignment): Turn<State, Slice>
    requires i < |s.markers| && a.level <= |st.stack| && Searched(s)
  {
    var next := Open(s, i, st, a);
    if st.target.None? then
      if Tokens(next.stack) == s.fragments then
        if st.unassignedBefore then Halt(Failed(AfterUnassigned))
        else if next.provisional != {} then Continue(next.(rejectedTarget := true))
        else if st.rejectedTarget then Halt(Failed(AfterRejected))
        else Continue(next.(target := Some(Target(i, Cut(s, i), a.level, a.kind, a.ordinal))))
      else if a.level == 0 && s.signs.strong(i) && KindCount(s.markers[i].token) == 1
      then Continue(next.(unassignedBefore := false))
      else Continue(next)
    else if a.level <= st.target.value.level then
      if next.deepAdvance.Some? then Halt(Failed(AmbiguousAdvance)) else Halt(Slice(st.target.value.start, Cut(s, i)))
    else Continue(next)
  }

  function Charged(st: State, remaining: nat, scans: nat): State {
    st.(remaining := remaining, scans := st.scans + scans)
  }

  function Judged(s: Scope, i: nat, st: State, a: Assignment, e: Evidence): Turn<State, Slice>
    requires i < |s.markers| && a.level <= |st.stack| && Searched(s)
  {
    match e
    case Exhausted(_) => Halt(Failed(EvidenceExhausted))
    case Found(structural, remaining, scans) =>
      if structural then Structural(s, i, Charged(st, remaining, scans), a)
      else Doubtful(s, i, Charged(st, remaining, scans), a)
  }

  function Advance(s: Scope, i: nat, st: State): Turn<State, Slice>
    requires i < |s.markers| && Searched(s)
  {
    match Assigned(s, i, st)
    case None => Unassigned(s, i, st)
    case Some(a) =>
      AssignedIsReadable(s, i, st);
      Judged(s, i, st, a, IsStructural(s, i, st.stack, a, st.lastEnd, 0, st.remaining))
  }

  // ---------------------------------------------------------------- the whole slice

  /** `Advance` at any index, for the loop. */
  function Step(s: Scope): (nat, State) -> Turn<State, Slice> {
    (i: nat, st: State) => if i < |s.markers| && Searched(s) then Advance(s, i, st) else Halt(Missing)
  }

  /** The result when no marker is left. */
  function Finish(s: Scope): State -> Slice {
    (st: State) =>
      if st.target.None? then Missing
      else if st.deepAdvance.Some? then Failed(AmbiguousAdvance)
      else Slice(st.target.value.start, |s.text|)
  }

  function Run(s: Scope, i: nat, st: State): Slice { Loop(Step(s), |s.markers|, Finish(s), i, st) }

  /** The stack of retained ancestors, if each can be read in the kind of its level. */
  function Retained(ancestors: seq<string>, regulation: bool): Option<seq<Entry>> {
    var n := |ancestors|;
    if n == 0 then Some([])
    else match (Retained(ancestors[..n - 1], regulation), OrdinalOf(ancestors[n - 1], KindForLevel(n - 1, regulation)))
      case (Some(stack), Some(ordinal)) =>
        Some(stack + [Entry(KindForLevel(n - 1, regulation), ancestors[n - 1], ordinal)])
      case _ => None
  }

  function Start(stack: seq<Entry>): State {
    State(stack, if stack == [] then None else Some(stack[0].ordinal), None, false, false, {}, None, None,
          MAX_EVIDENCE_WORK, 0, 0, [])
  }

  function SliceHierarchy(s: Scope, ancestors: seq<string>): Slice
    requires Searched(s)
  {
    if |ancestors| >= |s.fragments| then Missing
    else match Retained(ancestors, s.regulation)
      case None => Missing
      case Some(stack) =>
        if |s.markers| > MAX_MARKERS then Failed(TooManyMarkers) else Run(s, 0, Start(stack))
  }

  // ---------------------------------------------------------------- document order

  function Ordinals(path: seq<Entry>): seq<int> { seq(|path|, i requires 0 <= i < |path| => path[i].ordinal) }

  /** `a` comes before `b` in the order of the paragraphs they number: lexicographic, parents first. */
  predicate Before(a: seq<int>, b: seq<int>) {
    b != [] && (a == [] || a[0] < b[0] || (a[0] == b[0] && Before(a[1..], b[1..])))
  }

  lemma {:induction false} BeforeTransitive(a: seq<int>, b: seq<int>, c: seq<int>)
    requires Before(a, b) && Before(b, c)
    ensures Before(a, c)
  {
    if a != [] && a[0] == b[0] && b[0] == c[0] { BeforeTransitive(a[1..], b[1..], c[1..]); }
  }

  lemma {:induction false} BeforeIrreflexive(a: seq<int>)
    ensures !Before(a, a)
  {
    if a != [] { BeforeIrreflexive(a[1..]); }
  }

  /** Replacing the tail of a path from `n` on by one larger, or first, ordinal moves it forward. */
  lemma {:induction false} AdvanceIsBefore(a: seq<int>, n: nat, x: int)
    requires n <= |a| && (n < |a| ==> x > a[n])
    ensures Before(a, a[..n] + [x])
  {
    var b := a[..n] + [x];
    if n > 0 {
      AdvanceIsBefore(a[1..], n - 1, x);
      assert b[1..] == a[1..][..n - 1] + [x];
    }
  }

  lemma OpenedPathIsLater(stack: seq<Entry>, a: Assignment, e: Entry, token: string, regulation: bool)
    requires Advances(a, stack, token, regulation) && e.ordinal == a.ordinal
    ensures Before(Ordinals(stack), Ordinals(stack[..a.level] + [e]))
  {
    AdvanceIsBefore(Ordinals(stack), a.level, a.ordinal);
    assert Ordinals(stack)[..a.level] + [a.ordinal] == Ordinals(stack[..a.level] + [e]);
  }

  // ---------------------------------------------------------------- what every turn keeps

  predicate AtOrBefore(a: seq<int>, b: seq<int>) { a == b || Before(a, b) }

  /** The record of accepted markers: in text order, each with a prescribed path that ends in its own token. */
  predicate Recorded(s: Scope, i: nat, accepted: seq<Accepted>, epoch: nat)
    requires i <= |s.markers|
  {
    && (forall k :: 0 <= k < |accepted| ==> RecordOf(s, i, accepted[k], epoch))
    && (forall k, l :: 0 <= k < l < |accepted| ==> accepted[k].index < accepted[l].index)
  }

  predicate RecordOf(s: Scope, i: nat, m: Accepted, epoch: nat)
    requires i <= |s.markers|
  {
    && m.index < i && m.path != [] && Prescribed(m.path, s.regulation) && m.epoch <= epoch
    && m.path[|m.path| - 1].token == s.markers[m.index].token
  }

  /** Within an epoch the accepted paths strictly advance in document order. */
  predicate Ordered(accepted: seq<Accepted>) {
    forall k, l :: 0 <= k < l < |accepted| && accepted[k].epoch == accepted[l].epoch ==>
      Before(Ordinals(accepted[k].path), Ordinals(accepted[l].path))
  }

  /** No path accepted in the current epoch is past `here`. */
  predicate Reached(accepted: seq<Accepted>, epoch: nat, here: seq<int>) {
    forall k :: 0 <= k < |accepted| && accepted[k].epoch == epoch ==> AtOrBefore(Ordinals(accepted[k].path), here)
  }

  predicate Extends(path: seq<Entry>, fragments: seq<string>) {
    |path| >= |fragments| && Tokens(path[..|fragments|]) == fragments
  }

  /** The target is an accepted marker with the requested path; every marker accepted since lies strictly
      below it and the open stack at or below it. */
  predicate Targeted(s: Scope, t: Target, stack: seq<Entry>, accepted: seq<Accepted>)
    requires Searched(s)
  {
    && t.index < |s.markers| && t.start == Cut(s, t.index)
    && t.level + 1 == |s.fragments| && s.markers[t.index].token == s.fragments[t.level]
    && Extends(stack, s.fragments)
    && (exists k :: 0 <= k < |accepted| && accepted[k].index == t.index && Tokens(accepted[k].path) == s.fragments)
    && (forall k :: 0 <= k < |accepted| && accepted[k].index > t.index ==>
          |accepted[k].path| > |s.fragments| && Extends(accepted[k].path, s.fragments))
  }

  /** What the slicer's stack, provisional levels, record and target satisfy before marker `i`. */
  predicate Consistent(s: Scope, i: nat, stack: seq<Entry>, provisional: set<nat>, accepted: seq<Accepted>, epoch: nat,
                       target: Option<Target>)
    requires i <= |s.markers| && Searched(s)
  {
    && Prescribed(stack, s.regulation) && Shallow(provisional, stack)
    && Recorded(s, i, accepted, epoch) && Ordered(accepted)
    && Reached(accepted, epoch, Ordinals(stack))
    && (target.Some? ==> Targeted(s, target.value, stack, accepted))
  }

  predicate Kept(s: Scope, i: nat, st: State)
    requires i <= |s.markers| && Searched(s)
  {
    && st.scans + st.remaining == MAX_EVIDENCE_WORK
    && Consistent(s, i, st.stack, st.provisional, st.accepted, st.epoch, st.target)
  }

  /** Provisional levels are open and below the depth limit, which bounds nothing else. */
  predicate Shallow(provisional: set<nat>, stack: seq<Entry>) {
    forall p :: p in provisional ==> p < MAX_HIERARCHY_DEPTH && p < |stack|
  }

  lemma PrefixKept(stack: seq<Entry>, level: nat, e: Entry, n: nat)
    requires n <= level <= |stack|
    ensures (stack[..level] + [e])[..n] == stack[..n]
  {
  }

  lemma RecordedLater(s: Scope, i: nat, accepted: seq<Accepted>, epoch: nat)
    requires i < |s.markers| && Recorded(s, i, accepted, epoch)
    ensures Recorded(s, i + 1, accepted, epoch)
  {
    forall k | 0 <= k < |accepted| ensures RecordOf(s, i + 1, accepted[k], epoch) {
      assert RecordOf(s, i, accepted[k], epoch);
    }
  }

  lemma RecordedMore(s: Scope, i: nat, accepted: seq<Accepted>, epoch: nat, m: Accepted)
    requires i < |s.markers| && Recorded(s, i, accepted, epoch) && epoch <= m.epoch
    requires m.index == i && RecordOf(s, i + 1, m, m.epoch)
    ensures Recorded(s, i + 1, accepted + [m], m.epoch)
  {
    forall k | 0 <= k < |accepted| ensures RecordOf(s, i + 1, accepted[k], m.epoch) {
      assert RecordOf(s, i, accepted[k], epoch);
    }
  }

  lemma ReachedFurther(accepted: seq<Accepted>, epoch: nat, here: seq<int>, there: seq<int>)
    requires Reached(accepted, epoch, here) && Before(here, there)
    ensures forall k :: 0 <= k < |accepted| && accepted[k].epoch == epoch ==> Before(Ordinals(accepted[k].path), there)
    ensures Reached(accepted, epoch, there)
  {
    forall k | 0 <= k < |accepted| && accepted[k].epoch == epoch
      ensures Before(Ordinals(accepted[k].path), there)
    {
      if Ordinals(accepted[k].path) != here { BeforeTransitive(Ordinals(accepted[k].path), here, there); }
    }
  }

  lemma OpenRecorded(s: Scope, i: nat, st: State, a: Assignment)
    requires i < |s.markers| && Prescribed(st.stack, s.regulation) && Recorded(s, i, st.accepted, st.epoch)
    requires a.level <= |st.stack| && a.kind == s.KindAt(a.level)
    requires OrdinalOf(s.markers[i].token, a.kind) == Some(a.ordinal)
    ensures var next := Open(s, i, st, a);
            Prescribed(next.stack, s.regulation) && Recorded(s, i + 1, next.accepted, next.epoch)
  {
    PrescribedPush(st.stack, a.level, s.EntryFor(i, a), s.regulation);
    var next := Open(s, i, st, a);
    RecordedMore(s, i, st.accepted, st.epoch, Accepted(i, next.stack, next.epoch));
  }

  lemma OpenOrdered(s: Scope, i: nat, st: State, a: Assignment)
    requires i < |s.markers| && Recorded(s, i, st.accepted, st.epoch)
    requires Ordered(st.accepted) && Reached(st.accepted, st.epoch, Ordinals(st.stack))
    requires a.level <= |st.stack|
    requires PlainAssignment(s, i, st.stack).Some? ==> Advances(a, st.stack, s.markers[i].token, s.regulation)
    ensures var next := Open(s, i, st, a);
            Ordered(next.accepted) && Reached(next.accepted, next.epoch, Ordinals(next.stack))
  {
    var next := Open(s, i, st, a);
    if next.epoch == st.epoch {
      OpenedPathIsLater(st.stack, a, s.EntryFor(i, a), s.markers[i].token, s.regulation);
      ReachedFurther(st.accepted, st.epoch, Ordinals(st.stack), Ordinals(next.stack));
    }
    forall k | 0 <= k < |st.accepted| ensures st.accepted[k].epoch <= st.epoch {
      assert RecordOf(s, i, st.accepted[k], st.epoch);
    }
  }

  lemma OpenTargeted(s: Scope, i: nat, st: State, a: Assignment)
    requires i < |s.markers| && Searched(s) && a.level <= |st.stack|
    requires st.target.Some? && Targeted(s, st.target.value, st.stack, st.accepted) && a.level > st.target.value.level
    ensures var next := Open(s, i, st, a); Targeted(s, st.target.value, next.stack, next.accepted)
  {
    var next, t := Open(s, i, st, a), st.target.value;
    PrefixKept(st.stack, a.level, s.EntryFor(i, a), |s.fragments|);
    var k :| 0 <= k < |st.accepted| && st.accepted[k].index == t.index && Tokens(st.accepted[k].path) == s.fragments;
    assert next.accepted[k] == st.accepted[k];
  }

  lemma HitTargeted(s: Scope, i: nat, st: State, a: Assignment)
    requires i < |s.markers| && Searched(s) && Recorded(s, i, st.accepted, st.epoch) && a.level <= |st.stack|
    requires Tokens(Open(s, i, st, a).stack) == s.fragments
    ensures var next := Open(s, i, st, a);
            Targeted(s, Target(i, Cut(s, i), a.level, a.kind, a.ordinal), next.stack, next.accepted)
  {
    var next := Open(s, i, st, a);
    var n := |next.stack|;
    assert next.stack[..n] == next.stack;
    assert Tokens(next.stack)[a.level] == s.markers[i].token;
    var last := |st.accepted|;
    assert next.accepted[last] == Accepted(i, next.stack, next.epoch);
    forall k | 0 <= k < last ensures st.accepted[k].index < i {
      assert RecordOf(s, i, st.accepted[k], st.epoch);
    }
  }

  lemma OpenConsistent(s: Scope, i: nat, st: State, a: Assignment, target: Option<Target>)
    requires i < |s.markers| && Searched(s) && a.level <= |st.stack| && a.kind == s.KindAt(a.level)
    requires Consistent(s, i, st.stack, st.provisional, st.accepted, st.epoch, st.target)
    requires OrdinalOf(s.markers[i].token, a.kind) == Some(a.ordinal)
    requires PlainAssignment(s, i, st.stack).Some? ==> Advances(a, st.stack, s.markers[i].token, s.regulation)
    requires var next := Open(s, i, st, a); target.Some? ==> Targeted(s, target.value, next.stack, next.accepted)
    ensures var next := Open(s, i, st, a);
            Consistent(s, i + 1, next.stack, next.provisional, next.accepted, next.epoch, target)
  {
    OpenRecorded(s, i, st, a);
    OpenOrdered(s, i, st, a);
  }

  /** Going on after an accepted marker changes nothing but the target and the two flags. */
  lemma StructuralGoesOn(s: Scope, i: nat, st: State, a: Assignment)
    requires i < |s.markers| && a.level <= |st.stack| && Searched(s) && Structural(s, i, st, a).Continue?
    ensures var next, last := Open(s, i, st, a), Structural(s, i, st, a).next;
            && last == next.(target := last.target, rejectedTarget := last.rejectedTarget,
                             unassignedBefore := last.unassignedBefore)
            && if last.target == st.target then st.target.Some? ==> a.level > st.target.value.level
               else Tokens(next.stack) == s.fragments &&
                    last.target == Some(Target(i, Cut(s, i), a.level, a.kind, a.ordinal))
  {
  }

  lemma StructuralKeeps(s: Scope, i: nat, st: State, a: Assignment)
    requires i < |s.markers| && Searched(s) && Kept(s, i, st)
    requires a.level <= |st.stack| && a.kind == s.KindAt(a.level)
    requires OrdinalOf(s.markers[i].token, a.kind) == Some(a.ordinal)
    requires PlainAssignment(s, i, st.stack).Some? ==> Advances(a, st.stack, s.markers[i].token, s.regulation)
    requires Structural(s, i, st, a).Continue?
    ensures Kept(s, i + 1, Structural(s, i, st, a).next)
  {
    var last := Structural(s, i, st, a).next;
    StructuralGoesOn(s, i, st, a);
    if last.target != st.target {
      HitTargeted(s, i, st, a);
    } else if st.target.Some? {
      OpenTargeted(s, i, st, a);
    }
    OpenConsistent(s, i, st, a, last.target);
  }

  lemma PushTargeted(s: Scope, t: Target, stack: seq<Entry>, accepted: seq<Accepted>, e: Entry)
    requires Searched(s) && Targeted(s, t, stack, accepted)
    ensures Targeted(s, t, stack + [e], accepted)
  {
    var n := |stack|;
    assert stack[..n] == stack;
    PrefixKept(stack, n, e, |s.fragments|);
  }

  /** A doubtful marker changes at most the missed-target flag, the stack and the provisional levels. */
  lemma DoubtfulGoesOn(s: Scope, i: nat, st: State, a: Assignment)
    requires i < |s.markers| && a.level <= |st.stack| && Doubtful(s, i, st, a).Continue?
    ensures var last := Doubtful(s, i, st, a).next;
            && last == st.(rejectedTarget := last.rejectedTarget, stack := last.stack, provisional := last.provisional)
            && ((last.stack == st.stack && last.provisional == st.provisional) ||
                (a.level == |st.stack| < MAX_HIERARCHY_DEPTH && last.stack == st.stack + [s.EntryFor(i, a)] &&
                 last.provisional == st.provisional + {a.level}))
  {
  }

  lemma DoubtfulKeeps(s: Scope, i: nat, st: State, a: Assignment)
    requires i < |s.markers| && Searched(s) && Kept(s, i, st)
    requires a.level <= |st.stack| && a.kind == s.KindAt(a.level)
    requires OrdinalOf(s.markers[i].token, a.kind) == Some(a.ordinal)
    requires Doubtful(s, i, st, a).Continue?
    ensures Kept(s, i + 1, Doubtful(s, i, st, a).next)
  {
    DoubtfulGoesOn(s, i, st, a);
    RecordedLater(s, i, st.accepted, st.epoch);
    if Doubtful(s, i, st, a).next.stack != st.stack { PushKeeps(s, i, st, a); }
  }

  lemma PushKeeps(s: Scope, i: nat, st: State, a: Assignment)
    requires i < |s.markers| && Searched(s) && Prescribed(st.stack, s.regulation)
    requires Reached(st.accepted, st.epoch, Ordinals(st.stack))
    requires st.target.Some? ==> Targeted(s, st.target.value, st.stack, st.accepted)
    requires a.level == |st.stack| && a.kind == s.KindAt(a.level)
    requires OrdinalOf(s.markers[i].token, a.kind) == Some(a.ordinal)
    ensures var stack := st.stack + [s.EntryFor(i, a)];
            && Prescribed(stack, s.regulation) && Reached(st.accepted, st.epoch, Ordinals(stack))
            && (st.target.Some? ==> Targeted(s, st.target.value, stack, st.accepted))
  {
    var e := s.EntryFor(i, a);
    assert st.stack[..a.level] == st.stack;
    PrescribedPush(st.stack, a.level, e, s.regulation);
    OpenedPathIsLater(st.stack, a, e, s.markers[i].token, s.regulation);
    ReachedFurther(st.accepted, st.epoch, Ordinals(st.stack), Ordinals(st.stack + [e]));
    if st.target.Some? { PushTargeted(s, st.target.value, st.stack, st.accepted, e); }
  }

  lemma AssignedIsReadable(s: Scope, i: nat, st: State)
    requires i < |s.markers|
    ensures var a := Assigned(s, i, st);
            a.Some? ==>
              && a.value.level <= |st.stack| && a.value.kind == s.KindAt(a.value.level)
              && OrdinalOf(s.markers[i].token, a.value.kind) == Some(a.value.ordinal)
              && (PlainAssignment(s, i, st.stack).Some? ==>
                    Advances(a.value, st.stack, s.markers[i].token, s.regulation))
  {
    AssignAdvances(st.stack, s.markers[i].token, s.regulation, s.fragments, !s.signs.structural(i),
                   s.BeginsRoman(i, st.stack));
  }

  lemma UnassignedKeeps(s: Scope, i: nat, st: State)
    requires i < |s.markers| && Searched(s) && Kept(s, i, st)
    requires Unassigned(s, i, st).Continue?
    ensures Kept(s, i + 1, Unassigned(s, i, st).next)
  {
    UnassignedGoesOn(s, i, st);
    RecordedLater(s, i, st.accepted, st.epoch);
  }

  lemma UnassignedGoesOn(s: Scope, i: nat, st: State)
    requires i < |s.markers| && Searched(s) && Unassigned(s, i, st).Continue?
    ensures var last := Unassigned(s, i, st).next; last == st.(unassignedBefore := last.unassignedBefore)
  {
  }

  lemma JudgedKeeps(s: Scope, i: nat, st: State, a: Assignment, e: Evidence)
    requires i < |s.markers| && Searched(s) && Kept(s, i, st) && Accounted(e, st.remaining)
    requires a.level <= |st.stack| && a.kind == s.KindAt(a.level)
    requires OrdinalOf(s.markers[i].token, a.kind) == Some(a.ordinal)
    requires PlainAssignment(s, i, st.stack).Some? ==> Advances(a, st.stack, s.markers[i].token, s.regulation)
    ensures var turn := Judged(s, i, st, a, e); turn.Continue? ==> Kept(s, i + 1, turn.next)
  {
    if e.Found? {
      var st' := Charged(st, e.remaining, e.scans);
      assert Kept(s, i, st');
      if e.answer {
        if Structural(s, i, st', a).Continue? { StructuralKeeps(s, i, st', a); }
      } else if Doubtful(s, i, st', a).Continue? {
        DoubtfulKeeps(s, i, st', a);
      }
    }
  }

  /** The invariant of the slicer: every turn keeps it. */
  lemma AdvanceKeeps(s: Scope, i: nat, st: State)
    requires i < |s.markers| && Searched(s) && Kept(s, i, st)
    ensures var turn := Advance(s, i, st); turn.Continue? ==> Kept(s, i + 1, turn.next)
  {
    AssignedIsReadable(s, i, st);
    match Assigned(s, i, st)
    case None => if Unassigned(s, i, st).Continue? { UnassignedKeeps(s, i, st); }
    case Some(a) =>
      JudgedKeeps(s, i, st, a, IsStructural(s, i, st.stack, a, st.lastEnd, 0, st.remaining));
  }

  // ---------------------------------------------------------------- whole runs

  lemma {:induction false} RetainedIsPrescribed(ancestors: seq<string>, regulation: bool)
    ensures var r := Retained(ancestors, regulation);
            r.Some? ==> |r.value| == |ancestors| && Prescribed(r.value, regulation)
  {
    var n := |ancestors|;
    if n > 0 {
      RetainedIsPrescribed(ancestors[..n - 1], regulation);
      var r := Retained(ancestors[..n - 1], regulation);
      var o := OrdinalOf(ancestors[n - 1], KindForLevel(n - 1, regulation));
      if r.Some? && o.Some? {
        PrescribedAppend(r.value, Entry(KindForLevel(n - 1, regulation), ancestors[n - 1], o.value), regulation);
      }
    }
  }

  lemma StartIsKept(s: Scope, ancestors: seq<string>)
    requires Searched(s) && Retained(ancestors, s.regulation).Some?
    ensures Kept(s, 0, Start(Retained(ancestors, s.regulation).value))
  {
    RetainedIsPrescribed(ancestors, s.regulation);
  }

  /** The marker at which a slice with the given retained ancestors stops, and its state there. */
  function Final(s: Scope, ancestors: seq<string>): (nat, State)
    requires Retained(ancestors, s.regulation).Some?
  {
    Stop(Step(s), |s.markers|, 0, Start(Retained(ancestors, s.regulation).value))
  }

  /** The slicer's state before marker `j`, if it gets there. */
  function StateBefore(s: Scope, ancestors: seq<string>, j: nat): Turn<State, Slice>
    requires Retained(ancestors, s.regulation).Some?
  {
    At(Step(s), 0, Start(Retained(ancestors, s.regulation).value), j)
  }

  /** `Kept` at any index, for the loop. */
  function KeptAt(s: Scope): (nat, State) -> bool
    requires Searched(s)
  {
    (k: nat, st: State) => k <= |s.markers| && Kept(s, k, st)
  }

  lemma StepKeeps(s: Scope, k: nat, st: State)
    requires Searched(s) && k < |s.markers| && KeptAt(s)(k, st) && Step(s)(k, st).Continue?
    ensures KeptAt(s)(k + 1, Step(s)(k, st).next)
  {
    AdvanceKeeps(s, k, st);
  }

  /** The slicer gets to marker `k`, and its state there satisfies the invariant. */
  predicate KeptBefore(s: Scope, ancestors: seq<string>, k: nat)
    requires Searched(s) && Retained(ancestors, s.regulation).Some? && k <= |s.markers|
  {
    var st := StateBefore(s, ancestors, k);
    st.Continue? && Kept(s, k, st.next)
  }

  /** In every reachable state, before every marker that the slicer gets to and where it stops, each open
      paragraph has the kind prescribed for its level and its token's ordinal, the evidence work done plus
      the work left is 10,000, and within an epoch the accepted markers strictly advance in document order. */
  lemma EveryStateIsKept(s: Scope, ancestors: seq<string>, k: nat)
    requires Searched(s) && Retained(ancestors, s.regulation).Some? && k <= Final(s, ancestors).0
    ensures k <= |s.markers| && KeptBefore(s, ancestors, k)
    ensures k == Final(s, ancestors).0 ==> StateBefore(s, ancestors, k) == Continue(Final(s, ancestors).1)
  {
    var start := Start(Retained(ancestors, s.regulation).value);
    StopsInside(s, ancestors);
    StartIsKept(s, ancestors);
    GoesOnUntilStop(Step(s), |s.markers|, 0, start, k);
    forall k: nat, st: State | k < |s.markers| && KeptAt(s)(k, st) && Step(s)(k, st).Continue?
      ensures KeptAt(s)(k + 1, Step(s)(k, st).next)
    {
      StepKeeps(s, k, st);
    }
    AtKeeps(Step(s), |s.markers|, 0, start, KeptAt(s), k);
  }

  /** In particular where a run stops. */
  lemma EveryRunIsKept(s: Scope, ancestors: seq<string>)
    requires Searched(s) && Retained(ancestors, s.regulation).Some?
    ensures var (e, last) := Final(s, ancestors); e <= |s.markers| && Kept(s, e, last)
  {
    EveryStateIsKept(s, ancestors, Final(s, ancestors).0);
  }

  /** The search that fails at marker `e` brings the sibling-scan iterations of the slice to 10,000. */
  predicate ExhaustedAt(s: Scope, e: nat, st: State) {
    && e < |s.markers|
    && match Assigned(s, e, st)
       case None => false
       case Some(a) =>
         && a.level <= |st.stack|
         && var ev := IsStructural(s, e, st.stack, a, st.lastEnd, 0, st.remaining);
            ev.Exhausted? && st.scans + ev.scans == MAX_EVIDENCE_WORK
  }

  lemma JudgedExhausted(s: Scope, i: nat, st: State, a: Assignment, e: Evidence)
    requires i < |s.markers| && a.level <= |st.stack| && Searched(s)
    ensures Judged(s, i, st, a, e) == Halt(Failed(EvidenceExhausted)) <==> e.Exhausted?
  {
  }

  lemma FailExhausts(s: Scope, e: nat, st: State)
    requires e < |s.markers| && Searched(s) && Advance(s, e, st) == Halt(Failed(EvidenceExhausted))
    requires st.scans + st.remaining == MAX_EVIDENCE_WORK
    ensures ExhaustedAt(s, e, st)
  {
    AssignedIsReadable(s, e, st);
    var a := Assigned(s, e, st);
    if a.Some? {
      JudgedExhausted(s, e, st, a.value, IsStructural(s, e, st.stack, a.value, st.lastEnd, 0, st.remaining));
    }
  }

  /** Evidence runs out only after exactly 10,000 sibling-scan iterations over all nested scans. */
  lemma EvidenceExhaustsAtLimit(s: Scope, ancestors: seq<string>)
    requires Searched(s) && SliceHierarchy(s, ancestors) == Failed(EvidenceExhausted)
    ensures Retained(ancestors, s.regulation).Some?
    ensures var (e, last) := Final(s, ancestors); ExhaustedAt(s, e, last)
  {
    var (e, last) := Final(s, ancestors);
    assert last.scans + last.remaining == MAX_EVIDENCE_WORK by { EveryRunIsKept(s, ancestors); }
    assert e < |s.markers| && Advance(s, e, last) == Halt(Failed(EvidenceExhausted)) by { StopsWith(s, ancestors); }
    FailExhausts(s, e, last);
  }

  /** A slice is what its last turn returns. */
  lemma StopsWith(s: Scope, ancestors: seq<string>)
    requires Searched(s) && Retained(ancestors, s.regulation).Some? && |ancestors| < |s.fragments|
    requires |s.markers| <= MAX_MARKERS
    ensures var (e, last) := Final(s, ancestors);
            && e <= |s.markers|
            && (e < |s.markers| ==> Advance(s, e, last) == Halt(SliceHierarchy(s, ancestors)))
            && (e == |s.markers| ==> SliceHierarchy(s, ancestors) == Finish(s)(last))
  {
    var start := Start(Retained(ancestors, s.regulation).value);
    assert SliceHierarchy(s, ancestors) == Run(s, 0, start);
    RunStops(s, start);
  }

  lemma StopsInside(s: Scope, ancestors: seq<string>)
    requires Retained(ancestors, s.regulation).Some?
    ensures Final(s, ancestors).0 <= |s.markers|
  {
    StopIsFinal(Step(s), |s.markers|, Finish(s), 0, Start(Retained(ancestors, s.regulation).value));
  }

  lemma RunStops(s: Scope, start: State)
    requires Searched(s)
    ensures var (e, last) := Stop(Step(s), |s.markers|, 0, start);
            && e <= |s.markers|
            && (e < |s.markers| ==> Advance(s, e, last) == Halt(Run(s, 0, start)))
            && (e == |s.markers| ==> Run(s, 0, start) == Finish(s)(last))
  {
    StopIsFinal(Step(s), |s.markers|, Finish(s), 0, start);
    var (e, last) := Stop(Step(s), |s.markers|, 0, start);
    if e < |s.markers| { StepIsAdvance(s, e, last); }
  }

  lemma StepIsAdvance(s: Scope, i: nat, st: State)
    requires i < |s.markers| && Searched(s)
    ensures Step(s)(i, st) == Advance(s, i, st)
  {
  }

  /** In one epoch no two accepted markers have the same ordinals: no paragraph is opened twice. */
  lemma NoPathTwice(s: Scope, ancestors: seq<string>, k: nat, l: nat)
    requires Searched(s) && Retained(ancestors, s.regulation).Some?
    requires k < l < |Final(s, ancestors).1.accepted|
    requires var acc := Final(s, ancestors).1.accepted; acc[k].epoch == acc[l].epoch
    ensures var acc := Final(s, ancestors).1.accepted; Ordinals(acc[k].path) != Ordinals(acc[l].path)
  {
    EveryRunIsKept(s, ancestors);
    BeforeIrreflexive(Ordinals(Final(s, ancestors).1.accepted[k].path));
  }

  // ---------------------------------------------------------------- the returned text

  /** What ends a slice before the end of the text. */
  predicate EndsSlice(s: Scope, e: nat, st: State)
    requires e < |s.markers| && st.target.Some?
  {
    var t := st.target.value;
    match Assigned(s, e, st)
    case Some(a) =>
      && a.level <= t.level && a.level <= |st.stack|
      && var ev := IsStructural(s, e, st.stack, a, st.lastEnd, 0, st.remaining); ev.Found? && ev.answer
    case None =>
      && s.signs.structural(e)
      && var o := OrdinalOf(s.markers[e].token, t.kind); o.Some? && o.value > t.ordinal
  }

  lemma ReturnEndsSlice(s: Scope, e: nat, st: State)
    requires e < |s.markers| && Searched(s) && Advance(s, e, st).Halt? && Advance(s, e, st).result.Slice?
    ensures st.target.Some? && EndsSlice(s, e, st)
    ensures Advance(s, e, st) == Halt(Slice(st.target.value.start, Cut(s, e)))
  {
    AssignedIsReadable(s, e, st);
  }

  lemma EndHalts(s: Scope, i: nat, st: State)
    requires i < |s.markers| && Searched(s) && st.target.Some? && EndsSlice(s, i, st)
    ensures Advance(s, i, st).Halt?
  {
    AssignedIsReadable(s, i, st);
  }

  /** The slicer gets to marker `j`, and there no open target is ended. */
  predicate PassesBy(s: Scope, ancestors: seq<string>, j: nat)
    requires Retained(ancestors, s.regulation).Some? && j < |s.markers|
  {
    var st := StateBefore(s, ancestors, j);
    st.Continue? && (st.next.target.Some? ==> !EndsSlice(s, j, st.next))
  }

  /** Before it stops, the slicer meets no marker that ends an open target. */
  lemma NoEarlierEnd(s: Scope, ancestors: seq<string>, j: nat)
    requires Searched(s) && Retained(ancestors, s.regulation).Some? && j < Final(s, ancestors).0 <= |s.markers|
    ensures PassesBy(s, ancestors, j)
  {
    GoesOnUntilStop(Step(s), |s.markers|, 0, Start(Retained(ancestors, s.regulation).value), j);
    var st := StateBefore(s, ancestors, j).next;
    StepIsAdvance(s, j, st);
    if st.target.Some? && EndsSlice(s, j, st) { EndHalts(s, j, st); }
  }

  lemma CutsInOrder(s: Scope, i: nat, j: nat)
    requires Searched(s) && i < j < |s.markers|
    ensures s.markers[i].start < s.markers[i].end <= Cut(s, j) <= s.markers[j].start
  {
    var m := s.markers[i];
    assert s.text[m.end - 1] == s.text[m.start..m.end][m.end - 1 - m.start] == ')';
  }

  /** Every marker accepted at an offset in `lo..hi`, other than the target, is a proper descendant of it. */
  predicate OnlyDescendants(s: Scope, t: Target, accepted: seq<Accepted>, lo: nat, hi: nat) {
    forall k :: 0 <= k < |accepted| && accepted[k].index != t.index && accepted[k].index < |s.markers| ==>
      (lo <= s.markers[accepted[k].index].start < hi ==>
         |accepted[k].path| > |s.fragments| && Extends(accepted[k].path, s.fragments))
  }

  predicate ParagraphOf(s: Scope, e: nat, last: State, lo: nat, hi: nat)
    requires Searched(s)
  {
    && last.target.Some? && e <= |s.markers|
    && var t := last.target.value;
       && t.index < e && lo == Cut(s, t.index)
       && s.fragments != [] && s.markers[t.index].token == s.fragments[|s.fragments| - 1]
       && s.markers[t.index].end <= hi <= |s.text|
       && (hi == if e == |s.markers| then |s.text| else Cut(s, e))
       && (e < |s.markers| ==> EndsSlice(s, e, last))
       && (exists k :: 0 <= k < |last.accepted| && last.accepted[k].index == t.index &&
             Tokens(last.accepted[k].path) == s.fragments)
       && OnlyDescendants(s, t, last.accepted, lo, hi)
  }

  lemma TargetBeforeStop(s: Scope, e: nat, t: Target, accepted: seq<Accepted>, stack: seq<Entry>, epoch: nat)
    requires Searched(s) && e <= |s.markers| && Recorded(s, e, accepted, epoch) && Targeted(s, t, stack, accepted)
    ensures t.index < e
    ensures e < |s.markers| ==> s.markers[t.index].end <= Cut(s, e)
    ensures forall hi :: OnlyDescendants(s, t, accepted, Cut(s, t.index), hi)
  {
    var k :| 0 <= k < |accepted| && accepted[k].index == t.index && Tokens(accepted[k].path) == s.fragments;
    assert RecordOf(s, e, accepted[k], epoch);
    forall l | 0 <= l < |accepted| && accepted[l].index < t.index
      ensures s.markers[accepted[l].index].start < Cut(s, t.index)
    {
      CutsInOrder(s, accepted[l].index, t.index);
    }
    if e < |s.markers| { CutsInOrder(s, t.index, e); }
  }

  lemma ParagraphAtStop(s: Scope, e: nat, last: State, hi: nat)
    requires Searched(s) && e <= |s.markers| && last.target.Some?
    requires Recorded(s, e, last.accepted, last.epoch) && Targeted(s, last.target.value, last.stack, last.accepted)
    requires hi == if e == |s.markers| then |s.text| else Cut(s, e)
    requires e < |s.markers| ==> EndsSlice(s, e, last)
    ensures ParagraphOf(s, e, last, last.target.value.start, hi)
  {
    TargetBeforeStop(s, e, last.target.value, last.accepted, last.stack, last.epoch);
  }

  /** A returned text is one contiguous stretch.  It starts at the marker accepted with exactly the requested
      path (with an editorial bracket in front of it, if any), ends at the end of the text or at the first
      later marker that is accepted at or above the target level or advances the target unassigned, and every
      other marker accepted inside it is a proper descendant of the target. */
  lemma SliceIsTheParagraph(s: Scope, ancestors: seq<string>, lo: nat, hi: nat)
    requires Searched(s) && SliceHierarchy(s, ancestors) == Slice(lo, hi)
    ensures Retained(ancestors, s.regulation).Some?
    ensures var (e, last) := Final(s, ancestors); ParagraphOf(s, e, last, lo, hi)
    ensures forall j :: 0 <= j < Final(s, ancestors).0 ==> PassesBy(s, ancestors, j)
  {
    StopsInside(s, ancestors);
    forall j | 0 <= j < Final(s, ancestors).0 ensures PassesBy(s, ancestors, j) { NoEarlierEnd(s, ancestors, j); }
    var (e, last) := Final(s, ancestors);
    EveryRunIsKept(s, ancestors);
    StopsWith(s, ancestors);
    if e < |s.markers| { ReturnEndsSlice(s, e, last); }
    ParagraphAtStop(s, e, last, hi);
  }

  lemma TextAtCut(s: Scope, i: nat, hi: nat)
    requires Searched(s) && i < |s.markers| && s.markers[i].end <= hi <= |s.text|
    ensures var marker := "(" + s.markers[i].token + ")";
            marker <= s.text[Cut(s, i)..hi] || "[" + marker <= s.text[Cut(s, i)..hi]
  {
    var m, lo := s.markers[i], Cut(s, i);
    var marker := "(" + m.token + ")";
    if lo == m.start {
      assert s.text[lo..hi][..|marker|] == s.text[m.start..m.end];
    } else {
      assert s.text[lo..hi][..|marker| + 1] == [s.text[lo]] + s.text[m.start..m.end];
    }
  }

  /** Hence the returned text begins with the last fragment's marker. */
  lemma SliceBeginsWithMarker(s: Scope, ancestors: seq<string>, lo: nat, hi: nat)
    requires Searched(s) && SliceHierarchy(s, ancestors) == Slice(lo, hi)
    ensures lo <= hi <= |s.text| && s.fragments != []
    ensures var marker := "(" + s.fragments[|s.fragments| - 1] + ")";
            marker <= s.text[lo..hi] || "[" + marker <= s.text[lo..hi]
  {
    SliceIsTheParagraph(s, ancestors, lo, hi);
    TextAtCut(s, Final(s, ancestors).1.target.value.index, hi);
  }
}
