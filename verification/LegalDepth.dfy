/** How deep the slicer's stack can get: as deep as there are markers, up to the marker limit. */
module LegalDepth {
  import opened Common
  import opened LegalMarkers
  import opened LegalEvidence
  import opened LegalSlicer
  import opened TurnLoop

  // ---------------------------------------------------------------- an upper bound

  lemma TurnDeepens(s: Scope, i: nat, st: State)
    requires i < |s.markers| && Searched(s) && Advance(s, i, st).Continue?
    ensures |Advance(s, i, st).next.stack| <= |st.stack| + 1
  {
    AssignedIsReadable(s, i, st);
    var a := Assigned(s, i, st);
    if a.None? {
      UnassignedGoesOn(s, i, st);
    } else {
      var e := IsStructural(s, i, st.stack, a.value, st.lastEnd, 0, st.remaining);
      var st' := Charged(st, e.remaining, e.scans);
      if e.answer { StructuralGoesOn(s, i, st', a.value); } else { DoubtfulGoesOn(s, i, st', a.value); }
    }
  }

  function NoDeeper(base: nat): (nat, State) -> bool { (k: nat, st: State) => |st.stack| <= base + k }

  lemma StepDeepens(s: Scope, base: nat, k: nat, st: State)
    requires Searched(s) && k < |s.markers| && NoDeeper(base)(k, st) && Step(s)(k, st).Continue?
    ensures NoDeeper(base)(k + 1, Step(s)(k, st).next)
  {
    StepIsAdvance(s, k, st);
    TurnDeepens(s, k, st);
  }

  lemma RunDeepens(s: Scope, start: State)
    requires Searched(s)
    ensures var (e, last) := Stop(Step(s), |s.markers|, 0, start); |last.stack| <= |start.stack| + e
  {
    var base := |start.stack|;
    forall k: nat, st: State | k < |s.markers| && NoDeeper(base)(k, st) && Step(s)(k, st).Continue?
      ensures NoDeeper(base)(k + 1, Step(s)(k, st).next)
    {
      StepDeepens(s, base, k, st);
    }
    StopKeeps(Step(s), |s.markers|, 0, start, NoDeeper(base));
  }

  /** In every run the stack is no deeper than the retained ancestors and the markers read, and provisional
      levels are below 64; up to the marker limit nothing else bounds it (`LimitHoldsIff`). */
  lemma DepthIsBounded(s: Scope, ancestors: seq<string>)
    requires Searched(s) && Retained(ancestors, s.regulation).Some?
    ensures var (e, last) := Final(s, ancestors);
            |last.stack| <= |ancestors| + e && Shallow(last.provisional, last.stack)
  {
    EveryRunIsKept(s, ancestors);
    RetainedIsPrescribed(ancestors, s.regulation);
    RunDeepens(s, Start(Retained(ancestors, s.regulation).value));
  }

  // ---------------------------------------------------------------- a chain of first children

  /** The first token of each kind. */
  function First(kind: Kind): string {
    match kind
    case LowerAlpha => "a"
    case Numeric => "1"
    case UpperAlpha => "A"
    case LowerRoman => "i"
    case UpperRoman => "I"
  }

  function FirstChar(kind: Kind): char { First(kind)[0] }

  lemma FirstIsOne(kind: Kind)
    ensures OrdinalOf(First(kind), kind) == Some(1)
  {
    match kind
    case LowerAlpha =>
    case UpperAlpha =>
    case Numeric => assert "1"[..0] == []; assert Decimal("1"[..0]) == 0;
    case LowerRoman => RomanOne(); RomanOrdinal(0, 0, 0, 1, false);
    case UpperRoman => RomanOne(); RomanOrdinal(0, 0, 0, 1, true);
  }

  lemma RomanOne()
    ensures Numeral(0, 0, 0, 1) == "i" && Uppercase("i") == "I"
  {
    assert Repeat(0, 'm') == [] && Repeat(0, 'c') == [] && Repeat(0, 'x') == [] && Repeat(0, 'i') == [];
    assert Repeat(1, 'i') == "i";
    assert RomanDigit(0, 'c', 'd', 'm') == [] && RomanDigit(0, 'x', 'l', 'c') == [];
    assert RomanDigit(1, 'i', 'v', 'x') == "i";
  }

  lemma NotRoman(token: string, kind: Kind)
    requires |token| == 1 && RomanSymbol(Lower(token[0])).None? && (kind == LowerRoman || kind == UpperRoman)
    ensures OrdinalOf(token, kind).None?
  {
    assert Lowercase(token)[0] == Lower(token[0]);
    assert RomanFold(Lowercase(token)).None?;
  }

  /** A first number or capital is read as nothing above one in any kind. */
  lemma FirstIsNoSibling(kind: Kind, other: Kind)
    requires kind == Numeric || kind == UpperAlpha || kind == LowerAlpha
    ensures var o := OrdinalOf(First(kind), other); o.None? || o.value <= 1
  {
    if other == kind {
      FirstIsOne(kind);
    } else if other == LowerRoman || other == UpperRoman {
      NotRoman(First(kind), other);
    }
  }

  /** A first Roman numeral is not the letter after the first letter. */
  lemma FirstIsNoNextLetter()
    ensures OrdinalOf("i", LowerAlpha) == Some(9) && OrdinalOf("I", UpperAlpha) == Some(9)
  {
  }

  /** The stack of `k` first children of a statute. */
  predicate Chain(stack: seq<Entry>, k: nat) {
    && |stack| == k
    && forall l: nat :: l < k ==> stack[l] == Entry(KindForLevel(l, false), First(KindForLevel(l, false)), 1)
  }

  lemma {:induction false} NoNextLetter(stack: seq<Entry>, n: nat, read: Reading, alpha: Kind)
    requires n <= |stack| && Chain(stack, |stack|) && read(alpha) == Some(9)
    ensures AsNextLetter(stack, n, read, alpha, false).None?
  {
    if n > 0 { NoNextLetter(stack, n - 1, read, alpha); }
  }

  lemma {:induction false} NoSibling(stack: seq<Entry>, n: nat, read: Reading)
    requires n <= |stack| && Chain(stack, |stack|) && forall k :: read(k).Some? ==> read(k).value <= 1
    ensures AsSibling(stack, n, read, false).None?
  {
    if n > 0 { NoSibling(stack, n - 1, read); }
  }

  lemma ChildWins(stack: seq<Entry>, read: Reading, preferChild: bool)
    requires Chain(stack, |stack|)
    requires var kind := KindForLevel(|stack|, false);
             && read(kind) == Some(1)
             && (kind == LowerRoman ==> read(LowerAlpha) == Some(9))
             && (kind == UpperRoman ==> read(UpperAlpha) == Some(9))
             && (kind != LowerRoman && kind != UpperRoman ==> forall k :: read(k).Some? ==> read(k).value <= 1)
    ensures AssignReading(stack, read, false, preferChild) == Some(Assignment(|stack|, KindForLevel(|stack|, false), 1))
  {
    var kind := KindForLevel(|stack|, false);
    if kind == LowerRoman {
      NoNextLetter(stack, |stack|, read, LowerAlpha);
    } else if kind == UpperRoman {
      NoNextLetter(stack, |stack|, read, UpperAlpha);
    } else {
      NoSibling(stack, |stack|, read);
    }
  }

  /** On a chain, the first token of the next level can only open a child. */
  lemma FirstOpensChild(stack: seq<Entry>, target: seq<string>, preferTarget: bool, preferRoman: bool)
    requires Chain(stack, |stack|)
    ensures var kind := KindForLevel(|stack|, false);
            Assign(stack, First(kind), false, target, preferTarget, preferRoman) == Some(Assignment(|stack|, kind, 1))
  {
    var kind := KindForLevel(|stack|, false);
    FirstIsOne(kind);
    FirstIsNoNextLetter();
    if kind != LowerRoman && kind != UpperRoman {
      forall k ensures Read(First(kind))(k).Some? ==> Read(First(kind))(k).value <= 1 { FirstIsNoSibling(kind, k); }
    }
    ChildWins(stack, Read(First(kind)), preferRoman || (preferTarget && ContinuesTarget(stack, First(kind), target)));
  }

  // ---------------------------------------------------------------- a provision that is one such chain

  /** Each marker stands on a line of its own: line break, parenthesis, token, parenthesis. */
  function ChainText(n: nat): string {
    seq(4 * n + 1, i requires 0 <= i < 4 * n + 1 =>
      if i % 4 == 0 then '\n' else if i % 4 == 1 then '(' else if i % 4 == 3 then ')'
      else FirstChar(KindForLevel(i / 4, false)))
  }

  function ChainMarkers(n: nat): seq<Marker> {
    seq(n, i requires 0 <= i < n => Marker(4 * i + 1, 4 * i + 4, First(KindForLevel(i, false))))
  }

  /** Every marker is structural at a strong boundary of a paragraph, and no heading or reference is near. */
  function ChainSigns(): Signs {
    Signs((i: nat) => true, (i: nat) => true, (i: nat) => true, (i: nat) => false, (i: nat, last: Option<nat>) => false,
          (i: nat, weak: bool, last: Option<nat>) => false, (i: nat, last: nat) => false,
          (i: nat, last: nat, kind: Kind) => false)
  }

  /** A statute of `n` nested first paragraphs, sliced for a paragraph that it does not have. */
  function ChainScope(n: nat): Scope { Scope(ChainText(n), ChainMarkers(n), ["b"], false, ChainSigns()) }

  lemma ChainIsSearched(n: nat)
    ensures Searched(ChainScope(n))
  {
    var s := ChainScope(n);
    forall i | 0 <= i < n
      ensures var m := s.markers[i];
              m.start < m.end <= |s.text| && s.text[m.start..m.end] == "(" + m.token + ")"
    {
      ChainSpells(n, i);
    }
  }

  lemma ChainSpells(n: nat, i: nat)
    requires i < n
    ensures ChainText(n)[4 * i + 1..4 * i + 4] == "(" + First(KindForLevel(i, false)) + ")"
  {
    var part := ChainText(n)[4 * i + 1..4 * i + 4];
    assert (4 * i + 2) / 4 == i;
    assert part[0] == '(' && part[1] == FirstChar(KindForLevel(i, false)) && part[2] == ')';
    assert First(KindForLevel(i, false)) == [FirstChar(KindForLevel(i, false))];
  }

  /** What the chain has come to before marker `k`. */
  predicate Climbing(st: State, k: nat) { Chain(st.stack, k) && st.target.None? }

  lemma ChainAssigned(n: nat, k: nat, st: State)
    requires k < n && Climbing(st, k)
    ensures Assigned(ChainScope(n), k, st) == Some(Assignment(k, KindForLevel(k, false), 1))
  {
    var s := ChainScope(n);
    FirstOpensChild(st.stack, s.fragments, !s.signs.structural(k), s.BeginsRoman(k, st.stack));
  }

  lemma ChainJudged(n: nat, k: nat, st: State)
    requires k < n && Climbing(st, k)
    ensures IsStructural(ChainScope(n), k, st.stack, Assignment(k, KindForLevel(k, false), 1), st.lastEnd, 0,
                         st.remaining) == Found(true, st.remaining, 0)
  {
  }

  lemma ChainOpens(n: nat, k: nat, st: State)
    requires k < n && Climbing(st, k)
    ensures var next := Open(ChainScope(n), k, st, Assignment(k, KindForLevel(k, false), 1));
            Chain(next.stack, k + 1) && Tokens(next.stack) != ["b"]
  {
    var a := Assignment(k, KindForLevel(k, false), 1);
    var next := Open(ChainScope(n), k, st, a);
    assert st.stack[..k] == st.stack;
    assert next.stack == st.stack + [Entry(a.kind, First(a.kind), 1)];
    assert Tokens(next.stack)[0] == "a";
  }

  lemma ChainClimbs(n: nat, k: nat, st: State)
    requires k < n && Climbing(st, k) && Searched(ChainScope(n))
    ensures Advance(ChainScope(n), k, st).Continue? && Climbing(Advance(ChainScope(n), k, st).next, k + 1)
  {
    var s, a := ChainScope(n), Assignment(k, KindForLevel(k, false), 1);
    ChainAssigned(n, k, st);
    ChainJudged(n, k, st);
    var st' := Charged(st, st.remaining, 0);
    ChainOpens(n, k, st');
    assert Advance(s, k, st) == Structural(s, k, st', a);
  }

  lemma {:induction false} ChainReachesEnd(n: nat, k: nat, st: State)
    requires k <= n && Climbing(st, k)
    ensures var (e, last) := Stop(Step(ChainScope(n)), n, k, st); e == n && Climbing(last, n)
    decreases n - k
  {
    if k < n {
      ChainIsSearched(n);
      ChainClimbs(n, k, st);
      StepIsAdvance(ChainScope(n), k, st);
      ChainReachesEnd(n, k + 1, Advance(ChainScope(n), k, st).next);
    }
  }

  /** Every depth up to the marker limit is reached without an error, 64 and more included; beyond that limit
      the provision is refused before its first marker is read. */
  lemma AnyDepthIsReached(n: nat)
    ensures Searched(ChainScope(n)) && Retained([], false) == Some([])
    ensures n <= MAX_MARKERS ==>
              && SliceHierarchy(ChainScope(n), []) == Missing
              && Final(ChainScope(n), []).0 == n && |Final(ChainScope(n), []).1.stack| == n
    ensures n > MAX_MARKERS ==> SliceHierarchy(ChainScope(n), []) == Failed(TooManyMarkers)
  {
    ChainIsSearched(n);
    ChainReachesEnd(n, 0, Start([]));
    if n <= MAX_MARKERS { StopsWith(ChainScope(n), []); }
  }

  /** A provision with 65 levels of nesting is read to its end. */
  lemma LimitIsPassed()
    ensures |Final(ChainScope(MAX_HIERARCHY_DEPTH + 1), []).1.stack| == 65
    ensures SliceHierarchy(ChainScope(MAX_HIERARCHY_DEPTH + 1), []) == Missing
  {
    AnyDepthIsReached(MAX_HIERARCHY_DEPTH + 1);
  }

  /** No provision with this many markers, sliced without retained ancestors, ends up deeper than 64. */
  ghost predicate StaysWithinLimit(m: nat) {
    forall s: Scope :: Searched(s) && |s.markers| == m ==> |Final(s, []).1.stack| <= MAX_HIERARCHY_DEPTH
  }

  /** The exact condition: among provisions that pass the marker limit, those with `m` markers stay within
      64 levels if and only if `m` is at most 64. */
  lemma LimitHoldsIff(m: nat)
    requires m <= MAX_MARKERS
    ensures StaysWithinLimit(m) <==> m <= MAX_HIERARCHY_DEPTH
  {
    if m <= MAX_HIERARCHY_DEPTH {
      forall s: Scope | Searched(s) && |s.markers| == m ensures |Final(s, []).1.stack| <= MAX_HIERARCHY_DEPTH {
        DepthIsBounded(s, []);
        StopsInside(s, []);
      }
    } else {
      AnyDepthIsReached(m);
      assert |ChainScope(m).markers| == m;
    }
  }
}
