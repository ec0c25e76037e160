/** Statutes of up to three levels, `(a)(1)(A)`: the round trip without a condition on the single markers. */
module StatuteSlices {
  import opened Common
  import opened LegalMarkers
  import opened LegalAssignment
  import opened LegalEvidence
  import opened LegalSlicer
  import opened LegalOutline
  import opened OutlineSlices
  import opened LegalTree
  import opened TreeOutline
  import opened TreeSlices
  import LegalDepth

  // ---------------------------------------------------------------- how tokens of the three kinds read

  predicate LowerLetter(token: string) { |token| == 1 && 'a' <= token[0] <= 'z' }

  predicate UpperLetter(token: string) { |token| == 1 && 'A' <= token[0] <= 'Z' }

  predicate Digits(token: string) { token != [] && '0' <= token[0] <= '9' }

  lemma NotRoman(token: string)
    requires UpperLetter(token) || Digits(token)
    ensures OrdinalOf(token, LowerRoman).None?
  {
    if IsCanonicalRoman(token, false) {
      var k: nat, h: nat, t: nat, u: nat :| k < 4 && h < 10 && t < 10 && u < 10 && token == Numeral(k, h, t, u);
      NumeralLower(k, h, t, u);
    }
  }

  lemma OneKind(token: string, kind: Kind)
    requires kind.LowerAlpha? || kind.Numeric? || kind.UpperAlpha?
    requires OrdinalOf(token, kind).Some?
    ensures if kind.LowerAlpha? then LowerLetter(token) else if kind.Numeric? then Digits(token) else UpperLetter(token)
    ensures !kind.LowerAlpha? ==> OrdinalOf(token, LowerAlpha).None? && OrdinalOf(token, LowerRoman).None?
    ensures !kind.Numeric? ==> OrdinalOf(token, Numeric).None?
    ensures !kind.UpperAlpha? ==> OrdinalOf(token, UpperAlpha).None?
  {
    if !kind.LowerAlpha? { NotRoman(token); }
  }

  lemma LetterAsRoman(token: string)
    requires LowerLetter(token) && OrdinalOf(token, LowerRoman).Some?
    ensures RomanSymbol(token[0]).Some? && OrdinalOf(token, LowerRoman).value == RomanSymbol(token[0]).value
  {
    assert Lowercase(token) == token;
    assert token[1..] == [] && RomanFold([]) == Some(RomanScan(0, 0));
  }

  /** Two letters are never consecutive Roman numerals. */
  lemma LettersBeginNoRoman(a: string, b: string)
    requires LowerLetter(a) && LowerLetter(b) && OrdinalOf(a, LowerRoman).Some?
    ensures OrdinalOf(b, LowerRoman) != Some(OrdinalOf(a, LowerRoman).value + 1)
  {
    LetterAsRoman(a);
    if OrdinalOf(b, LowerRoman).Some? { LetterAsRoman(b); }
  }

  // ---------------------------------------------------------------- the level chosen

  predicate TopKind(kind: Kind) { kind.LowerAlpha? || kind.Numeric? || kind.UpperAlpha? }

  lemma TopKinds(l: nat)
    requires l <= 3
    ensures KindForLevel(l, false) ==
            if l == 0 then LowerAlpha else if l == 1 then Numeric else if l == 2 then UpperAlpha else LowerRoman
  {
  }

  /** The token reads in the kind of its level only, a letter perhaps as a Roman numeral too. */
  predicate ReadsAt(read: Reading, l: nat) {
    && l <= 2 && read(KindForLevel(l, false)).Some?
    && (forall k :: TopKind(k) && k != KindForLevel(l, false) ==> read(k).None?)
    && (l > 0 ==> read(LowerRoman).None?)
  }

  lemma ChosenShallow(stack: seq<Entry>, read: Reading, l: nat)
    requires l <= |stack| <= 3 && ReadsAt(read, l)
    requires l < |stack| ==> read(KindForLevel(l, false)).value > stack[l].ordinal
    requires l == 0 < |stack| ==> read(LowerAlpha) == Some(stack[0].ordinal + 1)
    ensures Chosen(stack, read, false, false, l)
  {
    TopKinds(l);
    TopKinds(|stack|);
    forall k: nat | k < |stack| && k != l ensures !SiblingAt(stack, read, false, k) {
      TopKinds(k);
      assert TopKind(KindForLevel(k, false));
    }
    forall k: nat | k < |stack| && k != l ensures !LetterAt(stack, read, false, LowerAlpha, k) { TopKinds(k); }
    if l < |stack| {
      assert SiblingAt(stack, read, false, l);
      if l == 0 {
        assert LetterAt(stack, read, false, LowerAlpha, 0);
      } else {
        assert !LetterAt(stack, read, false, LowerAlpha, l);
      }
    }
  }

  lemma TokenReadsAt(it: Item)
    requires it.level <= 2 && RuleOf(false)(it).Some?
    ensures ReadsAt(Read(it.token), it.level)
    ensures Read(it.token)(KindForLevel(it.level, false)) == Some(RuleOf(false)(it).value.ordinal)
  {
    var kind := KindForLevel(it.level, false);
    TopKinds(it.level);
    OneKind(it.token, kind);
    forall k | TopKind(k) && k != kind ensures Read(it.token)(k).None? { assert OrdinalOf(it.token, k).None?; }
  }

  lemma NoRomanBegins(a: string, b: string, k: nat, l: nat)
    requires k <= 2 && l <= 2 && ReadsAt(Read(a), k) && ReadsAt(Read(b), l)
    ensures OrdinalOf(a, LowerRoman).Some? ==> OrdinalOf(b, LowerRoman) != Some(OrdinalOf(a, LowerRoman).value + 1)
  {
    TopKinds(k);
    TopKinds(l);
    if OrdinalOf(a, LowerRoman).Some? && OrdinalOf(b, LowerRoman).Some? {
      assert Read(a)(LowerRoman).Some? && Read(b)(LowerRoman).Some?;
      assert Read(a)(LowerAlpha).Some? && Read(b)(LowerAlpha).Some?;
      OneKind(a, LowerAlpha);
      OneKind(b, LowerAlpha);
      LettersBeginNoRoman(a, b);
    }
  }

  // ---------------------------------------------------------------- outlines of up to three levels

  predicate ThreeLevels(items: seq<Item>) { forall k: nat :: k < |items| ==> items[k].level <= 2 }

  lemma {:induction false} OpenIsShort(items: seq<Item>, k: nat, rule: Rule)
    requires k <= |items| && ThreeLevels(items)
    ensures |OpenBefore(items, k, rule)| <= 3
  {
    if k > 0 { OpenIsShort(items, k - 1, rule); }
  }

  /** At the top level each letter is the next one. */
  predicate NextLetterAt(items: seq<Item>, k: nat, rule: Rule)
    requires k < |items|
  {
    var stack := OpenBefore(items, k, rule);
    items[k].level == 0 && stack != [] && rule(items[k]).Some? ==> rule(items[k]).value.ordinal == stack[0].ordinal + 1
  }

  lemma NoneBeginsRoman(s: Scope, items: seq<Item>, k: nat, stack: seq<Entry>)
    requires k < |items| && Outlines(s, items) && !s.regulation && ThreeLevels(items) && |stack| <= 3
    ensures !s.BeginsRoman(k, stack)
  {
    if k + 1 < |items| { NeighboursBeginNoRoman(items, k); }
    BeginsNoRoman(s, k, stack);
  }

  lemma ItemReadsAt(items: seq<Item>, k: nat)
    requires k < |items| && Proper(items, RuleOf(false)) && ThreeLevels(items)
    ensures ReadsAt(Read(items[k].token), items[k].level)
  {
    ProperAt(items, |items|, k, RuleOf(false));
    TokenReadsAt(items[k]);
  }

  lemma NeighboursBeginNoRoman(items: seq<Item>, k: nat)
    requires k + 1 < |items| && Proper(items, RuleOf(false)) && ThreeLevels(items)
    ensures var a, b := OrdinalOf(items[k].token, LowerRoman), OrdinalOf(items[k + 1].token, LowerRoman);
            a.Some? ==> b != Some(a.value + 1)
  {
    ItemReadsAt(items, k);
    ItemReadsAt(items, k + 1);
    NoRomanBegins(items[k].token, items[k + 1].token, items[k].level, items[k + 1].level);
  }

  lemma BeginsNoRoman(s: Scope, k: nat, stack: seq<Entry>)
    requires k < |s.markers| && !s.regulation && |stack| <= 3
    requires k + 1 < |s.markers| ==>
               var a, b := OrdinalOf(s.markers[k].token, LowerRoman), OrdinalOf(s.markers[k + 1].token, LowerRoman);
               a.Some? ==> b != Some(a.value + 1)
    ensures !s.BeginsRoman(k, stack)
  {
    TopKinds(|stack|);
  }

  lemma FitsIsChosen(stack: seq<Entry>, it: Item)
    requires Fits(stack, it, RuleOf(false)) && it.level <= 2 && |stack| <= 3
    requires it.level == 0 && stack != [] ==> RuleOf(false)(it).value.ordinal == stack[0].ordinal + 1
    ensures Chosen(stack, Read(it.token), false, false, it.level)
  {
    TokenReadsAt(it);
    TopKinds(it.level);
    ChosenShallow(stack, Read(it.token), it.level);
  }

  lemma ShallowIsChosen(s: Scope, items: seq<Item>, k: nat)
    requires k < |items| && Outlines(s, items) && !s.regulation && ThreeLevels(items)
    requires NextLetterAt(items, k, RuleOf(false))
    ensures ChosenAsMeant(s, items, k)
  {
    var stack := OpenAt(s, items, k);
    ProperAt(items, |items|, k, RuleOf(false));
    OpenIsShort(items, k, RuleOf(false));
    NoneBeginsRoman(s, items, k, stack);
    FitsIsChosen(stack, items[k]);
  }

  // ---------------------------------------------------------------- trees of up to three levels

  function Depth(p: Provision): nat {
    if p.End? then 0 else if Depth(p.children) + 1 > Depth(p.next) then Depth(p.children) + 1 else Depth(p.next)
  }

  /** The numbers of the siblings have no gap. */
  predicate Consecutive(p: Provision, rule: Rule) {
    p.End? || p.next.End? ||
    (EntryAt(0, p.next.token, rule).ordinal == EntryAt(0, p.token, rule).ordinal + 1 && Consecutive(p.next, rule))
  }

  lemma {:induction false} RowIsShallow(p: Provision, path: seq<string>, at: nat, x: nat)
    requires x < Size(p)
    ensures |RowOf(p, path, at, x).path| <= |path| + Depth(p)
    decreases p
  {
    if 0 < x <= Size(p.children) {
      RowIsShallow(p.children, path + [p.token], ChildrenAt(p, at), x - 1);
    } else if x > 0 {
      RowIsShallow(p.next, path, NextAt(p, at), x - 1 - Size(p.children));
    }
  }

  /** A top-level paragraph is the next letter after the top-level paragraph before it. */
  predicate LetterFollows(r: Row, s: Row, rule: Rule) {
    |s.path| == 1 ==> r.path != [] && EntryAt(0, s.path[0], rule).ordinal == EntryAt(0, r.path[0], rule).ordinal + 1
  }

  lemma {:induction false} LettersFollow(p: Provision, at: nat, x: nat, rule: Rule)
    requires x + 1 < Size(p) && Consecutive(p, rule)
    ensures LetterFollows(RowOf(p, [], at, x), RowOf(p, [], at, x + 1), rule)
    decreases p
  {
    var m := Size(p.children);
    if x < m {
      RowsOfChildren(p, [], at, x + 1);
      RowIsBelow(p.children, [] + [p.token], ChildrenAt(p, at), x);
    } else if x == m {
      FirstOfNext(p, [], at);
      TopToken(p, at, x);
    } else {
      RowsOfNext(p, [], at, x);
      RowsOfNext(p, [], at, x + 1);
      LettersFollow(p.next, NextAt(p, at), x - 1 - m, rule);
    }
  }

  lemma TopToken(p: Provision, at: nat, x: nat)
    requires p.Para? && x <= Size(p.children)
    ensures x < Size(p) && RowOf(p, [], at, x).path != [] && RowOf(p, [], at, x).path[0] == p.token
  {
    if x > 0 {
      RowsOfChildren(p, [], at, x);
      PathGoesOn(p.children, [] + [p.token], ChildrenAt(p, at), x - 1);
    }
  }

  lemma TreeLetters(p: Provision, at: nat, k: nat)
    requires Numbered(p, 0, None, RuleOf(false)) && Consecutive(p, RuleOf(false)) && k < Size(p)
    ensures NextLetterAt(ItemsOf(p, at), k, RuleOf(false))
  {
    var rule := RuleOf(false);
    if k > 0 {
      RowsAreInSequence(p, at, rule);
      OpenIsPath(Rows(p, [], at), k - 1, rule);
      LettersFollow(p, at, k - 1, rule);
      PathEnds(p, [], at, k);
      var r, s := RowOf(p, [], at, k - 1), RowOf(p, [], at, k);
      assert OpenBefore(ItemsOf(p, at), k, rule) == Entries(r.path, rule);
    }
  }

  /** A statute of up to three levels whose top-level letters have no gap: slicing for the path of any paragraph
      returns exactly the print of that paragraph. */
  lemma StatuteRoundTrip(s: Scope, preamble: string, p: Provision)
    requires Prints(s, preamble, p) && !s.regulation && Depth(p) <= 3 && Consecutive(p, RuleOf(false))
    ensures Searched(s) && forall x: nat :: x < Size(p) ==> ReturnsOwn(s, preamble, p, x)
  {
    var items := ItemsOf(p, |preamble|);
    TreeOutlines(s, preamble, p);
    forall k: nat | k < |items| ensures items[k].level <= 2 { RowIsShallow(p, [], |preamble|, k); }
    forall k: nat | k < |items| ensures ChosenAsMeant(s, items, k) {
      TreeLetters(p, |preamble|, k);
      ShallowIsChosen(s, items, k);
    }
    RoundTripIff(s, preamble, p);
  }

  // ---------------------------------------------------------------- where the condition fails

  /** A regulation whose subsection `(h)` has a paragraph `(1)` with a single clause `(i)`. */
  function LoneClause(): Provision {
    Para(false, "h", " Costs.", Para(false, "1", " Fees:", Para(false, "i", " fixed.", End, End), End), End)
  }

  function LoneScope(): Scope {
    Scope(Print(LoneClause()), MarkersOf(LoneClause(), 0), ["h", "1", "i"], true, LegalDepth.ChainSigns())
  }

  lemma LoneIsNumbered()
    ensures Numbered(LoneClause(), 0, None, RuleOf(true)) && Size(LoneClause()) == 3
    ensures OrdinalOf("h", LowerAlpha) == Some(8) && OrdinalOf("i", LowerAlpha) == Some(9)
  {
    LegalDepth.FirstIsOne(Numeric);
    LegalDepth.FirstIsOne(LowerRoman);
    var p := LoneClause();
    ChainIsNumbered(p, p.children, p.children.children, RuleOf(true));
  }

  lemma ChainIsNumbered(p: Provision, q: Provision, r: Provision, rule: Rule)
    requires p.Para? && p.children == q && q.Para? && q.children == r && r.Para?
    requires p.next.End? && q.next.End? && r.children.End? && r.next.End?
    requires rule(Item(0, p.token)).Some? && rule(Item(0, p.token)).value.token == p.token
    requires rule(Item(1, q.token)).Some? && rule(Item(1, q.token)).value.token == q.token
    requires rule(Item(2, r.token)).Some? && rule(Item(2, r.token)).value.token == r.token
    ensures Numbered(p, 0, None, rule) && Size(p) == 3
  {
    SizeOfTwo(q);
    OnlyChild(r, 2, rule);
    OnlyChild(q, 1, rule);
    OnlyChild(p, 0, rule);
  }

  lemma OnlyChild(p: Provision, level: nat, rule: Rule)
    requires p.Para? && p.next.End? && (p.children.End? || Numbered(p.children, level + 1, None, rule))
    requires rule(Item(level, p.token)).Some? && rule(Item(level, p.token)).value.token == p.token
    ensures Numbered(p, level, None, rule)
  {
    assert Numbered(p.children, level + 1, None, rule);
    assert Numbered(p.next, level, Some(rule(Item(level, p.token)).value.ordinal), rule);
  }

  lemma LonePrints()
    ensures Prints(LoneScope(), "", LoneClause())
  {
    LoneIsNumbered();
    var clause := Para(false, "i", " fixed.", End, End);
    assert NoTrailingBracket(clause) && NoTrailingBracket(Para(false, "1", " Fees:", clause, End));
  }

  /** The outline of a paragraph with a single child that has a single child. */
  lemma ChainOfThree(p: Provision, at: nat)
    requires p.Para? && p.next.End? && p.children.Para? && p.children.next.End?
    requires p.children.children.Para? && p.children.children.next.End? && p.children.children.children.End?
    ensures Size(p) == 3
    ensures ItemsOf(p, at) ==
            [Item(0, p.token), Item(1, p.children.token), Item(2, p.children.children.token)]
  {
    var q, inner, j := p.children, [p.token], ChildrenAt(p, at);
    SizeOfTwo(q);
    assert [] + [p.token] == inner;
    RowsOfChildren(p, [], at, 1);
    RowsOfChildren(p, [], at, 2);
    RowsOfChildren(q, inner, j, 1);
    assert RowOf(p, [], at, 1) == Row(inner + [q.token], j, q);
    assert RowOf(p, [], at, 2) == Row(inner + [q.token] + [q.children.token], ChildrenAt(q, j), q.children);
  }

  lemma SizeOfTwo(q: Provision)
    requires q.Para? && q.next.End? && q.children.Para? && q.children.next.End? && q.children.children.End?
    ensures Size(q.children) == 1 && Size(q) == 2
  {
  }

  /** A lone `(i)` after `(h)` is taken for the next subsection: its own path finds nothing of the kind. */
  lemma LoneClauseIsTaken()
    ensures Prints(LoneScope(), "", LoneClause()) && Searched(LoneScope())
    ensures !(forall x: nat :: x < Size(LoneClause()) ==> ReturnsOwn(LoneScope(), "", LoneClause(), x))
  {
    var s, p, items := LoneScope(), LoneClause(), ItemsOf(LoneClause(), 0);
    LonePrints();
    ChainOfThree(p, 0);
    RoundTripIff(s, "", p);
    RowsAreInSequence(p, 0, RuleOf(true));
    OpenIsPath(Rows(p, [], 0), 1, RuleOf(true));
    LoneIsNumbered();
    LoneIsNotChosen(s, items);
  }

  lemma LoneIsNotChosen(s: Scope, items: seq<Item>)
    requires s.regulation && items == [Item(0, "h"), Item(1, "1"), Item(2, "i")] && |s.markers| == 3
    requires OrdinalOf("h", LowerAlpha) == Some(8) && OrdinalOf("i", LowerAlpha) == Some(9)
    requires RuleOf(true)(Item(1, "1")).Some?
    ensures !ChosenAsMeant(s, items, 2)
  {
    var rule := RuleOf(true);
    assert OpenBefore(items, 0, rule) == [];
    assert OpenBefore(items, 1, rule) == [Entry(LowerAlpha, "h", 8)];
    var stack := OpenBefore(items, 2, rule);
    assert stack == [Entry(LowerAlpha, "h", 8), rule(Item(1, "1")).value];
    assert LetterAt(stack, Read("i"), true, LowerAlpha, 0);
    assert !DeepestLetter(stack, Read("i"), true, LowerAlpha, 2);
  }
}
