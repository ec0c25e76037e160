/**
 Outlines: paragraphs in document order, each with its level and its token.  Where every marker is chosen for
 the level it is meant for, the slicer returns the stretch of any paragraph; and only there.
 */
module LegalOutline {
  import opened Common
  import opened LegalMarkers
  import opened LegalAssignment
  import opened LegalEvidence
  import opened LegalSlicer
  import opened TurnLoop

  datatype Item = Item(level: nat, token: string)

  /** The open level that a paragraph makes, if its token has the kind of its level. */
  type Rule = Item -> Option<Entry>

  function RuleOf(regulation: bool): Rule {
    (it: Item) =>
      var kind := KindForLevel(it.level, regulation);
      match OrdinalOf(it.token, kind)
      case Some(ordinal) => Some(Entry(kind, it.token, ordinal))
      case None => None
  }

  /** No level is skipped, the token has the kind of its level, and numbers rise among the children of one
      paragraph. */
  predicate Fits(stack: seq<Entry>, it: Item, rule: Rule) {
    && it.level <= |stack| && rule(it).Some? && rule(it).value.token == it.token
    && (it.level < |stack| ==> rule(it).value.ordinal > stack[it.level].ordinal)
  }

  function Push(stack: seq<Entry>, it: Item, rule: Rule): seq<Entry> {
    if it.level <= |stack| && rule(it).Some? then stack[..it.level] + [rule(it).value] else stack
  }

  /** The paragraphs open before paragraph `k`, from the top level down. */
  function OpenBefore(items: seq<Item>, k: nat, rule: Rule): seq<Entry>
    requires k <= |items|
  {
    if k == 0 then [] else Push(OpenBefore(items, k - 1, rule), items[k - 1], rule)
  }

  /** The first `n` paragraphs fit. */
  predicate ProperTo(items: seq<Item>, n: nat, rule: Rule)
    requires n <= |items|
  {
    n == 0 || (ProperTo(items, n - 1, rule) && Fits(OpenBefore(items, n - 1, rule), items[n - 1], rule))
  }

  predicate Proper(items: seq<Item>, rule: Rule) { ProperTo(items, |items|, rule) }

  lemma {:induction false} ProperAt(items: seq<Item>, n: nat, k: nat, rule: Rule)
    requires k < n <= |items| && ProperTo(items, n, rule)
    ensures Fits(OpenBefore(items, k, rule), items[k], rule) && ProperTo(items, k + 1, rule)
  {
    if k < n - 1 { ProperAt(items, n - 1, k, rule); }
  }

  function Path(items: seq<Item>, k: nat, rule: Rule): seq<string>
    requires k < |items|
  {
    Tokens(OpenBefore(items, k + 1, rule))
  }

  // ---------------------------------------------------------------- no path twice

  /** Every open level is what the rule makes of its token. */
  predicate Follows(stack: seq<Entry>, rule: Rule) {
    forall l: nat :: l < |stack| ==> rule(Item(l, stack[l].token)) == Some(stack[l])
  }

  lemma {:induction false} OpenFollows(items: seq<Item>, k: nat, rule: Rule)
    requires k <= |items| && ProperTo(items, k, rule)
    ensures Follows(OpenBefore(items, k, rule), rule)
  {
    if k > 0 {
      OpenFollows(items, k - 1, rule);
      var it := items[k - 1];
      assert it == Item(it.level, it.token);
    }
  }

  lemma PushAdvances(stack: seq<Entry>, it: Item, rule: Rule)
    requires Fits(stack, it, rule)
    ensures Before(Ordinals(stack), Ordinals(Push(stack, it, rule)))
  {
    var e := rule(it).value;
    AdvanceIsBefore(Ordinals(stack), it.level, e.ordinal);
    assert Ordinals(stack)[..it.level] + [e.ordinal] == Ordinals(stack[..it.level] + [e]);
  }

  function Place(items: seq<Item>, k: nat, rule: Rule): seq<int>
    requires k <= |items|
  {
    Ordinals(OpenBefore(items, k, rule))
  }

  lemma {:induction false} LaterIsAfter(items: seq<Item>, k: nat, x: nat, rule: Rule)
    requires k < x <= |items| && ProperTo(items, x, rule)
    ensures Before(Place(items, k, rule), Place(items, x, rule))
    decreases x - k
  {
    PushAdvances(OpenBefore(items, x - 1, rule), items[x - 1], rule);
    if k < x - 1 {
      LaterIsAfter(items, k, x - 1, rule);
      BeforeTransitive(Place(items, k, rule), Place(items, x - 1, rule), Place(items, x, rule));
    }
  }

  lemma TokensTell(a: seq<Entry>, b: seq<Entry>, rule: Rule)
    requires Follows(a, rule) && Follows(b, rule) && Tokens(a) == Tokens(b)
    ensures a == b
  {
    assert |a| == |Tokens(a)| == |Tokens(b)| == |b|;
    forall l: nat | l < |a| ensures a[l] == b[l] {
      assert Tokens(a)[l] == Tokens(b)[l];
      assert rule(Item(l, a[l].token)) == Some(a[l]) && rule(Item(l, b[l].token)) == Some(b[l]);
    }
  }

  /** Different paragraphs have different paths. */
  lemma PathsDiffer(items: seq<Item>, k: nat, x: nat, rule: Rule)
    requires k < x < |items| && Proper(items, rule)
    ensures Path(items, k, rule) != Path(items, x, rule)
  {
    ProperAt(items, |items|, x, rule);
    ProperAt(items, |items|, k, rule);
    OpenFollows(items, k + 1, rule);
    OpenFollows(items, x + 1, rule);
    LaterIsAfter(items, k + 1, x + 1, rule);
    BeforeIrreflexive(Place(items, k + 1, rule));
    if Path(items, k, rule) == Path(items, x, rule) {
      TokensTell(OpenBefore(items, k + 1, rule), OpenBefore(items, x + 1, rule), rule);
    }
  }

  // ---------------------------------------------------------------- a printed outline

  /** The markers of the text are those of the outline, all strong and at the beginning of a paragraph. */
  predicate Printed(s: Scope, items: seq<Item>) {
    && Searched(s) && |s.markers| == |items| <= 4096
    && forall k: nat :: k < |items| ==>
         s.markers[k].token == items[k].token &&
         s.signs.structural(k) && s.signs.strong(k) && s.signs.paragraph(k)
  }

  function OpenAt(s: Scope, items: seq<Item>, k: nat): seq<Entry>
    requires k <= |items|
  {
    OpenBefore(items, k, RuleOf(s.regulation))
  }

  /** Marker `k` is chosen for the level that paragraph `k` is meant for. */
  predicate ChosenAsMeant(s: Scope, items: seq<Item>, k: nat)
    requires k < |items| == |s.markers|
  {
    Chosen(OpenAt(s, items, k), Read(items[k].token), s.regulation, s.BeginsRoman(k, OpenAt(s, items, k)),
           items[k].level)
  }

  /** Where the stretch of paragraph `x` ends: at the first later paragraph at its level or above. */
  function EndOf(s: Scope, items: seq<Item>, x: nat, k: nat): nat
    requires x < |items| == |s.markers| && Searched(s)
    decreases |items| - k
  {
    if k >= |items| then |s.text|
    else if items[k].level <= items[x].level then Cut(s, k)
    else EndOf(s, items, x, k + 1)
  }

  /** The level that the slicer takes for marker `k` when the paragraphs open are those of the outline. */
  function Taken(s: Scope, items: seq<Item>, k: nat): Option<Assignment>
    requires k < |items| == |s.markers|
  {
    PlainAssignment(s, k, OpenAt(s, items, k))
  }

  function Meant(s: Scope, items: seq<Item>, k: nat): Assignment
    requires k < |items|
  {
    match RuleOf(s.regulation)(items[k])
    case Some(e) => Assignment(items[k].level, e.kind, e.ordinal)
    case None => Assignment(items[k].level, LowerAlpha, 0)
  }

  lemma MeantAdvances(stack: seq<Entry>, it: Item, regulation: bool)
    requires Fits(stack, it, RuleOf(regulation))
    ensures var e := RuleOf(regulation)(it).value;
            e.token == it.token && Advances(Assignment(it.level, e.kind, e.ordinal), stack, it.token, regulation)
  {
  }

  lemma TakenAsMeant(s: Scope, items: seq<Item>, k: nat)
    requires k < |items| && Printed(s, items) && Proper(items, RuleOf(s.regulation))
    ensures Taken(s, items, k).Some?
    ensures ChosenAsMeant(s, items, k) <==> Taken(s, items, k) == Some(Meant(s, items, k))
    ensures ChosenAsMeant(s, items, k) <==> Taken(s, items, k).value.level == items[k].level
  {
    var stack, it, a := OpenAt(s, items, k), items[k], Meant(s, items, k);
    var roman := s.BeginsRoman(k, stack);
    ProperAt(items, |items|, k, RuleOf(s.regulation));
    MeantAdvances(stack, it, s.regulation);
    AssignIsComplete(stack, it.token, s.regulation, s.fragments, false, roman, a);
    AssignIsChosen(stack, it.token, s.regulation, s.fragments, false, roman, a);
    AssignAdvances(stack, it.token, s.regulation, s.fragments, false, roman);
  }

  lemma StrongIsStructural(s: Scope, items: seq<Item>, k: nat, stack: seq<Entry>, a: Assignment, last: Option<nat>,
                           remaining: nat)
    requires k < |items| && Printed(s, items) && a.level <= |stack|
    ensures IsStructural(s, k, stack, a, last, 0, remaining) == Found(true, remaining, 0)
  {
  }

  /** With the outline's paragraphs open, marker `k` is accepted at the level taken for it. */
  lemma AcceptsTaken(s: Scope, items: seq<Item>, k: nat, st: State)
    requires k < |items| && Printed(s, items) && Proper(items, RuleOf(s.regulation)) && st.stack == OpenAt(s, items, k)
    ensures Taken(s, items, k).Some? && Taken(s, items, k).value.level <= |st.stack|
    ensures Advance(s, k, st) == Structural(s, k, Charged(st, st.remaining, 0), Taken(s, items, k).value)
  {
    TakenAsMeant(s, items, k);
    AssignedIsReadable(s, k, st);
    StrongIsStructural(s, items, k, st.stack, Taken(s, items, k).value, st.lastEnd, st.remaining);
  }
}
