/** Slicing a printed tree of paragraphs gives back the print of each paragraph. */
module TreeSlices {
  import opened Common
  import opened LegalMarkers
  import opened LegalAssignment
  import opened LegalEvidence
  import opened LegalSlicer
  import opened LegalOutline
  import opened OutlineSlices
  import opened LegalTree
  import opened TreeOutline

  function MarkerOf(r: Row): Marker
    requires r.node.Para?
  {
    var start := r.start + if r.node.bracketed then 1 else 0;
    Marker(start, start + |r.node.token| + 2, r.node.token)
  }

  function MarkersOf(p: Provision, at: nat): seq<Marker> {
    seq(Size(p), x requires 0 <= x < Size(p) => MarkerOf(RowOf(p, [], at, x)))
  }

  /** The text is a preamble and the printed tree, and its markers, all strong and at the beginning of a
      paragraph, are those of the tree. */
  predicate Prints(s: Scope, preamble: string, p: Provision) {
    && s.text == preamble + Print(p) && s.markers == MarkersOf(p, |preamble|) && Size(p) <= 4096
    && NoBracketBefore(s.text, |preamble|) && NoTrailingBracket(p) && Numbered(p, 0, None, RuleOf(s.regulation))
    && forall k: nat :: k < Size(p) ==> s.signs.structural(k) && s.signs.strong(k) && s.signs.paragraph(k)
  }

  lemma TextReads(s: Scope, preamble: string, p: Provision)
    requires Prints(s, preamble, p)
    ensures Reads(s.text, |preamble|, Print(p)) && |s.text| == |preamble| + |Print(p)|
  {
  }

  lemma MarkReads(text: string, r: Row)
    requires r.node.Para? && Reads(text, r.start, Own(r.node)) && NoBracketBefore(text, r.start)
    ensures var m := MarkerOf(r);
            && r.start <= m.start < m.end <= |text| && text[m.start..m.end] == "(" + m.token + ")"
            && m.end <= r.start + |Head(r.node)| && BracketStart(text, m.start) == r.start
  {
    var p, at := r.node, r.start;
    ReadsBoth(text, at, Head(p), Print(p.children));
    ReadsBoth(text, at, Marked(p), p.lead);
    var mark := "(" + p.token + ")";
    if p.bracketed {
      assert Marked(p) == "[" + mark;
      ReadsBoth(text, at, "[", mark);
      assert text[at] == text[at..at + 1][0] == '[';
    }
  }

  lemma RowStands(s: Scope, preamble: string, p: Provision, x: nat)
    requires Prints(s, preamble, p) && x < Size(p)
    ensures var r := RowOf(p, [], |preamble|, x);
            && Reads(s.text, r.start, Own(r.node)) && NoBracketBefore(s.text, r.start)
  {
    TextReads(s, preamble, p);
    RowReads(s.text, p, [], |preamble|, x);
    RowUnbracketed(s.text, p, [], |preamble|, x);
  }

  lemma TreeIsSearched(s: Scope, preamble: string, p: Provision)
    requires Prints(s, preamble, p)
    ensures Searched(s)
  {
    var at := |preamble|;
    forall i | 0 <= i < |s.markers|
      ensures var m := s.markers[i];
              m.start < m.end <= |s.text| && s.text[m.start..m.end] == "(" + m.token + ")"
    {
      RowStands(s, preamble, p, i);
      MarkReads(s.text, RowOf(p, [], at, i));
    }
    forall i, j | 0 <= i < j < |s.markers| ensures s.markers[i].end <= s.markers[j].start {
      RowStands(s, preamble, p, i);
      MarkReads(s.text, RowOf(p, [], at, i));
      RowsInOrder(p, [], at, i, j);
    }
  }

  /** A printed tree is a strongly printed outline. */
  lemma TreeOutlines(s: Scope, preamble: string, p: Provision)
    requires Prints(s, preamble, p)
    ensures Outlines(s, ItemsOf(p, |preamble|))
  {
    TreeIsSearched(s, preamble, p);
    TreeIsProper(p, |preamble|, RuleOf(s.regulation));
  }

  lemma CutIsStart(s: Scope, preamble: string, p: Provision, x: nat)
    requires Prints(s, preamble, p) && x < Size(p) && Searched(s)
    ensures Cut(s, x) == RowOf(p, [], |preamble|, x).start
  {
    RowStands(s, preamble, p, x);
    MarkReads(s.text, RowOf(p, [], |preamble|, x));
  }

  lemma {:induction false} EndAfter(s: Scope, items: seq<Item>, x: nat, k: nat, after: nat)
    requires x < k <= after <= |items| == |s.markers| && Searched(s)
    requires forall i :: k <= i < after ==> items[i].level > items[x].level
    requires after < |items| ==> items[after].level <= items[x].level
    ensures EndOf(s, items, x, k) == if after < |items| then Cut(s, after) else |s.text|
    decreases after - k
  {
    if k < after { EndAfter(s, items, x, k + 1, after); }
  }

  lemma LevelOf(p: Provision, at: nat, x: nat)
    requires x < Size(p)
    ensures ItemsOf(p, at)[x].level + 1 == |RowOf(p, [], at, x).path|
  {
    RowIsBelow(p, [], at, x);
  }

  /** The stretch of a paragraph is its own print. */
  lemma StretchIsOwn(s: Scope, preamble: string, p: Provision, x: nat, end: nat)
    requires Prints(s, preamble, p) && x < Size(p) && Searched(s)
    requires var r := RowOf(p, [], |preamble|, x); end == r.start + |Own(r.node)|
    ensures EndOf(s, ItemsOf(p, |preamble|), x, x + 1) == end
  {
    var after := After(p, [], |preamble|, x);
    OwnEnds(s, preamble, p, x, after);
    EndsAfter(s, p, |preamble|, x, after, end);
  }

  lemma EndsAfter(s: Scope, p: Provision, at: nat, x: nat, after: nat, end: nat)
    requires x < Size(p) == |s.markers| && Searched(s) && after == After(p, [], at, x) <= Size(p)
    requires after < Size(p) ==> |RowOf(p, [], at, after).path| <= |RowOf(p, [], at, x).path|
    requires end == if after < Size(p) then Cut(s, after) else |s.text|
    ensures EndOf(s, ItemsOf(p, at), x, x + 1) == end
  {
    LevelsAfter(p, at, x, after);
    EndAfter(s, ItemsOf(p, at), x, x + 1, after);
  }

  lemma OwnEnds(s: Scope, preamble: string, p: Provision, x: nat, after: nat)
    requires Prints(s, preamble, p) && x < Size(p) && Searched(s) && after == After(p, [], |preamble|, x)
    ensures var r := RowOf(p, [], |preamble|, x);
            && after <= Size(p) == |s.markers|
            && (if after < Size(p) then Cut(s, after) else |s.text|) == r.start + |Own(r.node)|
            && (after < Size(p) ==> |RowOf(p, [], |preamble|, after).path| <= |r.path|)
  {
    TextReads(s, preamble, p);
    RowFollows(p, [], |preamble|, x, |s.text|);
    if after < Size(p) { CutIsStart(s, preamble, p, after); }
  }

  lemma LevelsAfter(p: Provision, at: nat, x: nat, after: nat)
    requires x < Size(p) && after == After(p, [], at, x) <= Size(p)
    requires after < Size(p) ==> |RowOf(p, [], at, after).path| <= |RowOf(p, [], at, x).path|
    ensures var items := ItemsOf(p, at);
            && (forall i :: x < i < after ==> items[i].level > items[x].level)
            && (after < Size(p) ==> items[after].level <= items[x].level)
  {
    LevelOf(p, at, x);
    forall i | x < i < after ensures ItemsOf(p, at)[i].level > ItemsOf(p, at)[x].level {
      LevelOf(p, at, i);
      RowsBetween(p, [], at, x, i);
    }
    if after < Size(p) { LevelOf(p, at, after); }
  }

  /** Slicing for the path of paragraph `x` returns exactly its print, where it stands. */
  predicate ReturnsOwn(s: Scope, preamble: string, p: Provision, x: nat)
    requires x < Size(p) && Searched(s)
  {
    ReturnsRow(s, RowOf(p, [], |preamble|, x))
  }

  predicate ReturnsRow(s: Scope, r: Row)
    requires Searched(s) && r.node.Para?
  {
    && SliceFor(s, r.path) == Slice(r.start, r.start + |Own(r.node)|)
    && r.start + |Own(r.node)| <= |s.text| && s.text[r.start..r.start + |Own(r.node)|] == Own(r.node)
  }

  lemma WhereOwnStands(s: Scope, preamble: string, p: Provision, x: nat, r: Row)
    requires Prints(s, preamble, p) && x < Size(p) && Searched(s) && r == RowOf(p, [], |preamble|, x)
    ensures Path(ItemsOf(p, |preamble|), x, RuleOf(s.regulation)) == r.path && Cut(s, x) == r.start
    ensures EndOf(s, ItemsOf(p, |preamble|), x, x + 1) == r.start + |Own(r.node)|
    ensures Reads(s.text, r.start, Own(r.node))
  {
    PathOfRow(p, |preamble|, x, RuleOf(s.regulation));
    CutIsStart(s, preamble, p, x);
    StretchIsOwn(s, preamble, p, x, r.start + |Own(r.node)|);
    RowStands(s, preamble, p, x);
  }

  lemma ReturnsOwnIff(s: Scope, preamble: string, p: Provision, x: nat)
    requires Prints(s, preamble, p) && x < Size(p) && Searched(s)
    ensures ReturnsOwn(s, preamble, p, x) <==> Finds(s, ItemsOf(p, |preamble|), x)
  {
    var r := RowOf(p, [], |preamble|, x);
    WhereOwnStands(s, preamble, p, x, r);
    RowIsFound(s, ItemsOf(p, |preamble|), x, r);
  }

  lemma RowIsFound(s: Scope, items: seq<Item>, x: nat, r: Row)
    requires x < |items| == |s.markers| && Searched(s) && r.node.Para? && Reads(s.text, r.start, Own(r.node))
    requires Path(items, x, RuleOf(s.regulation)) == r.path && Cut(s, x) == r.start
    requires EndOf(s, items, x, x + 1) == r.start + |Own(r.node)|
    ensures ReturnsRow(s, r) <==> Finds(s, items, x)
  {
  }

  /** The round trip: slicing the print of a tree for the path of any paragraph returns exactly the print of that
      paragraph, if and only if every marker is chosen for the level that it has in the tree. */
  lemma RoundTripIff(s: Scope, preamble: string, p: Provision)
    requires Prints(s, preamble, p)
    ensures Searched(s)
    ensures (forall x: nat :: x < Size(p) ==> ReturnsOwn(s, preamble, p, x)) <==>
            AllChosen(s, ItemsOf(p, |preamble|))
  {
    var items := ItemsOf(p, |preamble|);
    TreeOutlines(s, preamble, p);
    FindsAllIff(s, items);
    forall x: nat | x < Size(p) ensures ReturnsOwn(s, preamble, p, x) <==> Finds(s, items, x) {
      ReturnsOwnIff(s, preamble, p, x);
    }
  }
}
