/**
 The slicer on the text of a provision: the delimiter replay decides which markers are quoted or bracketed,
 and those are not structural.
 */
module LegalSlicerText {
  import opened Common
  import opened LegalMarkers
  import opened LegalEvidence
  import opened LegalSlicer
  import opened LegalSlicerLoop
  import opened TurnLoop
  import Replay = DelimiterReplay
  import ReplayIndex = DelimiterIndex

  datatype TextSlice = Sliced(slice: Slice) | Unreplayable(error: Replay.ReplayError)

  function Starts(s: Scope): seq<int> { seq(|s.markers|, i requires 0 <= i < |s.markers| => s.markers[i].start as int) }

  /** The scope in which the enclosed markers are not structural, whatever their surroundings. */
  function Unenclosed(s: Scope, enclosed: set<int>): Scope {
    s.(signs := s.signs.(structural :=
      (i: nat) => i < |s.markers| && s.markers[i].start !in enclosed && s.signs.structural(i)))
  }

  /** The slice is decided before the delimiters are looked at. */
  predicate Early(s: Scope, ancestors: seq<string>) {
    |ancestors| >= |s.fragments| || Retained(ancestors, s.regulation).None? || |s.markers| > MAX_MARKERS
  }

  /** In `s` a marker is structural if its surroundings are, delimiters aside. */
  function SliceText(lex: Replay.Lexicon, s: Scope, ancestors: seq<string>): TextSlice
    requires Searched(s)
  {
    if Early(s, ancestors) then Sliced(SliceHierarchy(s, ancestors))
    else match Replay.EnclosedMarkers(lex, s.text, Starts(s))
      case Rejected(error) => Unreplayable(error)
      case Enclosed(enclosed) => Sliced(SliceHierarchy(Unenclosed(s, enclosed), ancestors))
  }

  method SliceProvision(lex: Replay.Lexicon, s: Scope, ancestors: seq<string>) returns (r: TextSlice)
    requires Searched(s)
    ensures r == SliceText(lex, s, ancestors)
  {
    if |ancestors| >= |s.fragments| { return Sliced(Missing); }
    var retained := RetainAncestors(s, ancestors);
    if retained.None? { return Sliced(Missing); }
    if |s.markers| > MAX_MARKERS { return Sliced(Failed(TooManyMarkers)); }
    var enclosed := ReplayIndex.DelimiterEnclosedMarkerStarts(lex, s.text, Starts(s));
    if enclosed.Rejected? { return Unreplayable(enclosed.error); }
    var slice := SliceUsLegalHierarchy(Unenclosed(s, enclosed.starts), ancestors);
    return Sliced(slice);
  }

  lemma StartsAreOrdered(s: Scope)
    requires Searched(s)
    ensures Replay.NonDescending(Starts(s))
    ensures forall i :: 0 <= i < |s.markers| ==> 0 <= Starts(s)[i] < |s.text| && s.text[Starts(s)[i]] == '('
  {
    forall i | 0 <= i < |s.markers| ensures 0 <= Starts(s)[i] < |s.text| && s.text[Starts(s)[i]] == '(' {
      var m := s.markers[i];
      assert s.text[m.start..m.end][0] == '(';
    }
  }

  /** Of the replay's errors only too many delimiter tokens and too deep a nesting can stop a slice. */
  lemma OnlyDelimitersStopASlice(lex: Replay.Lexicon, s: Scope, ancestors: seq<string>)
    requires Searched(s) && SliceText(lex, s, ancestors).Unreplayable?
    ensures SliceText(lex, s, ancestors).error.TooManyTokens? || SliceText(lex, s, ancestors).error.NestingTooDeep?
  {
    StartsAreOrdered(s);
    assert Starts(s)[..|Starts(s)|] == Starts(s);
  }

  /** A marker is structural for the slicer exactly when its surroundings are and a replay from the start of
      the text that watches this marker alone does not find it enclosed. */
  lemma StructuralIffNotEnclosed(lex: Replay.Lexicon, s: Scope, i: nat)
    requires Searched(s) && i < |s.markers| && Replay.EnclosedMarkers(lex, s.text, Starts(s)).Enclosed?
    ensures var m := s.markers[i].start;
            Unenclosed(s, Replay.EnclosedMarkers(lex, s.text, Starts(s)).starts).signs.structural(i) <==>
            s.signs.structural(i) && Replay.Alone(lex, s.text, m) != Replay.Enclosed({m as int})
  {
    StartsAreOrdered(s);
    Replay.BatchAgreesOnBrackets(lex, s.text, Starts(s));
    assert Starts(s)[i] == s.markers[i].start;
  }

  lemma EvidenceNeedsHeading(s: Scope, enclosed: set<int>, i: nat, stack: seq<Entry>, a: Assignment, last: Option<nat>,
                             depth: nat, remaining: nat)
    requires i < |s.markers| && a.level <= |stack| && depth <= MAX_EVIDENCE_DEPTH && s.markers[i].start in enclosed
    requires var e := IsStructural(Unenclosed(s, enclosed), i, stack, a, last, depth, remaining); e.Found? && e.answer
    ensures a.level == |stack| && s.PrecedingHeading(i, last)
  {
  }

  /** The record that a turn appends for marker `i`: its path goes with the assigned level. */
  predicate Appends(s: Scope, i: nat, st: State, accepted: seq<Accepted>)
    requires i < |s.markers|
  {
    && accepted != [] && accepted == st.accepted + [accepted[|accepted| - 1]]
    && accepted[|accepted| - 1].index == i
    && Assigned(s, i, st).Some?
    && var a := Assigned(s, i, st).value;
       && a.level <= |st.stack| && |accepted[|accepted| - 1].path| == a.level + 1
       && var e := IsStructural(s, i, st.stack, a, st.lastEnd, 0, st.remaining); e.Found? && e.answer
  }

  lemma AcceptingTurn(s: Scope, i: nat, st: State)
    requires i < |s.markers| && Searched(s) && Advance(s, i, st).Continue?
    ensures var next := Advance(s, i, st).next;
            next.accepted == st.accepted || Appends(s, i, st, next.accepted)
  {
    AssignedIsReadable(s, i, st);
    match Assigned(s, i, st)
    case None => UnassignedGoesOn(s, i, st);
    case Some(a) =>
      var e := IsStructural(s, i, st.stack, a, st.lastEnd, 0, st.remaining);
      var st' := Charged(st, e.remaining, e.scans);
      if e.answer { StructuralGoesOn(s, i, st', a); } else { DoubtfulGoesOn(s, i, st', a); }
  }

  lemma UnenclosedIsSearched(s: Scope, enclosed: set<int>)
    requires Searched(s)
    ensures Searched(Unenclosed(s, enclosed))
  {
  }

  /** The accepted marker was a new level below everything then open, right after a listed heading. */
  predicate Headed(s: Scope, ancestors: seq<string>, m: Accepted)
    requires Retained(ancestors, s.regulation).Some?
  {
    var st := StateBefore(s, ancestors, m.index);
    st.Continue? && |m.path| == |st.next.stack| + 1 && s.PrecedingHeading(m.index, st.next.lastEnd)
  }

  predicate HeadedIfEnclosed(s: Scope, enclosed: set<int>, ancestors: seq<string>, m: Accepted)
    requires Retained(ancestors, s.regulation).Some?
  {
    m.index < |s.markers| && s.markers[m.index].start in enclosed ==> Headed(s, ancestors, m)
  }

  predicate AllHeaded(s: Scope, enclosed: set<int>, ancestors: seq<string>, accepted: seq<Accepted>)
    requires Retained(ancestors, s.regulation).Some?
  {
    forall k :: 0 <= k < |accepted| ==> HeadedIfEnclosed(s, enclosed, ancestors, accepted[k])
  }

  lemma AppendedIsHeaded(s: Scope, enclosed: set<int>, ancestors: seq<string>, i: nat, st: State,
                         accepted: seq<Accepted>)
    requires i < |s.markers| && Retained(ancestors, s.regulation).Some?
    requires StateBefore(Unenclosed(s, enclosed), ancestors, i) == Continue(st)
    requires Appends(Unenclosed(s, enclosed), i, st, accepted)
    ensures HeadedIfEnclosed(Unenclosed(s, enclosed), enclosed, ancestors, accepted[|accepted| - 1])
  {
    if s.markers[i].start in enclosed {
      var a := Assigned(Unenclosed(s, enclosed), i, st).value;
      EvidenceNeedsHeading(s, enclosed, i, st.stack, a, st.lastEnd, 0, st.remaining);
    }
  }

  lemma TurnKeepsHeaded(s: Scope, enclosed: set<int>, ancestors: seq<string>, i: nat, st: State)
    requires Searched(Unenclosed(s, enclosed)) && i < |s.markers| && Retained(ancestors, s.regulation).Some?
    requires StateBefore(Unenclosed(s, enclosed), ancestors, i) == Continue(st)
    requires AllHeaded(Unenclosed(s, enclosed), enclosed, ancestors, st.accepted)
    requires Advance(Unenclosed(s, enclosed), i, st).Continue?
    ensures var next := Advance(Unenclosed(s, enclosed), i, st).next;
            AllHeaded(Unenclosed(s, enclosed), enclosed, ancestors, next.accepted)
  {
    var accepted := Advance(Unenclosed(s, enclosed), i, st).next.accepted;
    AcceptingTurn(Unenclosed(s, enclosed), i, st);
    if accepted != st.accepted { AppendedIsHeaded(s, enclosed, ancestors, i, st, accepted); }
  }

  /** The state before the next marker is what the turn at this one leaves. */
  lemma NextState(s: Scope, ancestors: seq<string>, k: nat)
    requires Searched(s) && Retained(ancestors, s.regulation).Some? && k < Final(s, ancestors).0
    ensures k < |s.markers| && StateBefore(s, ancestors, k).Continue?
    ensures Advance(s, k, StateBefore(s, ancestors, k).next).Continue?
    ensures StateBefore(s, ancestors, k + 1) == Advance(s, k, StateBefore(s, ancestors, k).next)
  {
    var start := Start(Retained(ancestors, s.regulation).value);
    StopsInside(s, ancestors);
    GoesOnUntilStop(Step(s), |s.markers|, 0, start, k);
    AtSnoc(Step(s), 0, start, k);
    StepIsAdvance(s, k, StateBefore(s, ancestors, k).next);
  }

  predicate HeadedBefore(s: Scope, enclosed: set<int>, ancestors: seq<string>, k: nat)
    requires Retained(ancestors, s.regulation).Some?
  {
    var st := StateBefore(s, ancestors, k);
    st.Continue? && AllHeaded(s, enclosed, ancestors, st.next.accepted)
  }

  lemma {:induction false} EveryStateIsHeaded(s: Scope, enclosed: set<int>, ancestors: seq<string>, k: nat)
    requires Searched(Unenclosed(s, enclosed)) && Retained(ancestors, s.regulation).Some?
    requires k <= Final(Unenclosed(s, enclosed), ancestors).0
    ensures HeadedBefore(Unenclosed(s, enclosed), enclosed, ancestors, k)
    decreases k
  {
    if k > 0 {
      EveryStateIsHeaded(s, enclosed, ancestors, k - 1);
      NextState(Unenclosed(s, enclosed), ancestors, k - 1);
      TurnKeepsHeaded(s, enclosed, ancestors, k - 1, StateBefore(Unenclosed(s, enclosed), ancestors, k - 1).next);
    }
  }

  /** In every run an enclosed marker is accepted only as a new level below everything open, right after a
      listed heading. */
  lemma EnclosedNeedsHeading(s: Scope, enclosed: set<int>, ancestors: seq<string>)
    requires Searched(s) && Retained(ancestors, s.regulation).Some?
    ensures var u := Unenclosed(s, enclosed); AllHeaded(u, enclosed, ancestors, Final(u, ancestors).1.accepted)
  {
    var u := Unenclosed(s, enclosed);
    UnenclosedIsSearched(s, enclosed);
    EveryStateIsHeaded(s, enclosed, ancestors, Final(u, ancestors).0);
    GoesOnUntilStop(Step(u), |u.markers|, 0, Start(Retained(ancestors, s.regulation).value), Final(u, ancestors).0);
  }
}
