/**
 Provisions as trees of paragraphs, and their print: the marker of each paragraph, its lead text, its children
 and then its next sibling.  `Rows` lists the paragraphs in document order, each with its path and offset.
 */
module LegalTree {
  import opened Common

  /** A first paragraph with its children and its following siblings.  `bracketed`: an editorial bracket stands
      right before the marker. */
  datatype Provision = End | Para(bracketed: bool, token: string, lead: string, children: Provision, next: Provision)

  function Marked(p: Provision): string
    requires p.Para?
  {
    if p.bracketed then "[(" + p.token + ")" else "(" + p.token + ")"
  }

  /** The paragraph up to its first child. */
  function Head(p: Provision): string
    requires p.Para?
  {
    Marked(p) + p.lead
  }

  /** The paragraph with everything below it. */
  function Own(p: Provision): string
    requires p.Para?
    decreases p, 0
  {
    Head(p) + Print(p.children)
  }

  function Print(p: Provision): string
    decreases p, 1
  {
    if p.End? then [] else Own(p) + Print(p.next)
  }

  datatype Row = Row(path: seq<string>, start: nat, node: Provision)

  function Size(p: Provision): nat { if p.End? then 0 else 1 + Size(p.children) + Size(p.next) }

  /** Where the children and the next sibling begin. */
  function ChildrenAt(p: Provision, at: nat): nat
    requires p.Para?
  {
    at + |Head(p)|
  }

  function NextAt(p: Provision, at: nat): nat
    requires p.Para?
  {
    at + |Own(p)|
  }

  /** Paragraph `x` in document order. */
  function RowOf(p: Provision, path: seq<string>, at: nat, x: nat): (r: Row)
    requires x < Size(p)
    ensures r.node.Para?
  {
    if x == 0 then Row(path + [p.token], at, p)
    else if x <= Size(p.children) then RowOf(p.children, path + [p.token], ChildrenAt(p, at), x - 1)
    else RowOf(p.next, path, NextAt(p, at), x - 1 - Size(p.children))
  }

  function Rows(p: Provision, path: seq<string>, at: nat): seq<Row> {
    seq(Size(p), x requires 0 <= x < Size(p) => RowOf(p, path, at, x))
  }

  lemma {:induction false} RowIsBelow(p: Provision, path: seq<string>, at: nat, x: nat)
    requires x < Size(p)
    ensures |RowOf(p, path, at, x).path| > |path|
    decreases p
  {
    if 0 < x <= Size(p.children) {
      RowIsBelow(p.children, path + [p.token], ChildrenAt(p, at), x - 1);
    } else if x > 0 {
      RowIsBelow(p.next, path, NextAt(p, at), x - 1 - Size(p.children));
    }
  }

  /** Every path goes on from the path of what the provision belongs to. */
  lemma {:induction false} PathGoesOn(p: Provision, path: seq<string>, at: nat, x: nat)
    requires x < Size(p)
    ensures path <= RowOf(p, path, at, x).path
    decreases p
  {
    if 0 < x <= Size(p.children) {
      PathGoesOn(p.children, path + [p.token], ChildrenAt(p, at), x - 1);
    } else if x > 0 {
      PathGoesOn(p.next, path, NextAt(p, at), x - 1 - Size(p.children));
    }
  }

  /** The last of a path is the paragraph's own token. */
  lemma {:induction false} PathEnds(p: Provision, path: seq<string>, at: nat, x: nat)
    requires x < Size(p)
    ensures var r := RowOf(p, path, at, x); r.path != [] && r.path[|r.path| - 1] == r.node.token
    decreases p
  {
    if 0 < x <= Size(p.children) {
      PathEnds(p.children, path + [p.token], ChildrenAt(p, at), x - 1);
    } else if x > 0 {
      PathEnds(p.next, path, NextAt(p, at), x - 1 - Size(p.children));
    }
  }

  // ---------------------------------------------------------------- what follows a paragraph

  /** The number of the paragraph after `x` and everything below it. */
  function After(p: Provision, path: seq<string>, at: nat, x: nat): nat
    requires x < Size(p)
  {
    x + 1 + Size(RowOf(p, path, at, x).node.children)
  }

  lemma {:induction false} AfterIsWithin(p: Provision, path: seq<string>, at: nat, x: nat)
    requires x < Size(p)
    ensures After(p, path, at, x) <= Size(p)
    decreases p
  {
    if 0 < x <= Size(p.children) {
      AfterIsWithin(p.children, path + [p.token], ChildrenAt(p, at), x - 1);
    } else if x > 0 {
      AfterIsWithin(p.next, path, NextAt(p, at), x - 1 - Size(p.children));
    }
  }

  /** What follows up to there is below paragraph `x`. */
  lemma {:induction false} RowsBetween(p: Provision, path: seq<string>, at: nat, x: nat, k: nat)
    requires x < Size(p) && x < k < After(p, path, at, x) <= Size(p)
    ensures |RowOf(p, path, at, k).path| > |RowOf(p, path, at, x).path|
    decreases p
  {
    var m := Size(p.children);
    if x == 0 {
      RowIsBelow(p.children, path + [p.token], ChildrenAt(p, at), k - 1);
    } else if x <= m {
      AfterIsWithin(p.children, path + [p.token], ChildrenAt(p, at), x - 1);
      RowsBetween(p.children, path + [p.token], ChildrenAt(p, at), x - 1, k - 1);
    } else {
      RowsBetween(p.next, path, NextAt(p, at), x - 1 - m, k - 1 - m);
    }
  }

  /** Paragraph `k` is at the level of `r` or above and begins where `r` ends. */
  predicate Succeeds(r: Row, next: Row)
    requires r.node.Para?
  {
    |next.path| <= |r.path| && next.start == r.start + |Own(r.node)|
  }

  lemma PrintedLength(p: Provision, at: nat)
    requires p.Para?
    ensures ChildrenAt(p, at) + |Print(p.children)| == NextAt(p, at)
    ensures NextAt(p, at) + |Print(p.next)| == at + |Print(p)|
  {
  }

  lemma FirstOfNext(p: Provision, path: seq<string>, at: nat)
    requires p.Para? && p.next.Para?
    ensures Size(p.children) + 1 < Size(p)
    ensures RowOf(p, path, at, Size(p.children) + 1) == Row(path + [p.next.token], NextAt(p, at), p.next)
  {
  }

  /** Right after its descendants the text of a paragraph ends. */
  predicate Ends(p: Provision, path: seq<string>, at: nat, x: nat, end: nat)
    requires x < Size(p)
  {
    var r, after := RowOf(p, path, at, x), After(p, path, at, x);
    && after <= Size(p)
    && (after < Size(p) ==> Succeeds(r, RowOf(p, path, at, after)))
    && (after == Size(p) ==> r.start + |Own(r.node)| == end)
  }

  lemma {:induction false} RowFollows(p: Provision, path: seq<string>, at: nat, x: nat, end: nat)
    requires x < Size(p) && end == at + |Print(p)|
    ensures Ends(p, path, at, x, end)
    decreases p
  {
    PrintedLength(p, at);
    if x == 0 {
      FirstFollows(p, path, at, end);
    } else if x <= Size(p.children) {
      RowFollows(p.children, path + [p.token], ChildrenAt(p, at), x - 1, NextAt(p, at));
      ChildFollows(p, path, at, x, end);
    } else {
      RowFollows(p.next, path, NextAt(p, at), x - 1 - Size(p.children), end);
    }
  }

  lemma FirstFollows(p: Provision, path: seq<string>, at: nat, end: nat)
    requires p.Para? && end == NextAt(p, at) + |Print(p.next)|
    ensures Ends(p, path, at, 0, end)
  {
    if p.next.Para? { FirstOfNext(p, path, at); }
  }

  lemma ChildFollows(p: Provision, path: seq<string>, at: nat, x: nat, end: nat)
    requires p.Para? && 0 < x <= Size(p.children) && end == NextAt(p, at) + |Print(p.next)|
    requires Ends(p.children, path + [p.token], ChildrenAt(p, at), x - 1, NextAt(p, at))
    ensures Ends(p, path, at, x, end)
  {
    RowIsBelow(p.children, path + [p.token], ChildrenAt(p, at), x - 1);
    if p.next.Para? { FirstOfNext(p, path, at); }
  }

  // ---------------------------------------------------------------- rows in the text

  predicate Reads(text: string, at: nat, s: string) { at + |s| <= |text| && text[at..at + |s|] == s }

  lemma ReadsBoth(text: string, at: nat, a: string, b: string)
    requires Reads(text, at, a + b)
    ensures Reads(text, at, a) && Reads(text, at + |a|, b)
  {
    var s := text[at..at + |a + b|];
    assert s[..|a|] == a && s[|a|..] == b;
    assert text[at..at + |a|] == s[..|a|];
    assert text[at + |a|..at + |a| + |b|] == s[|a|..];
  }

  lemma ParaReads(text: string, at: nat, p: Provision)
    requires p.Para? && Reads(text, at, Print(p))
    ensures Reads(text, at, Own(p)) && Reads(text, at, Head(p))
    ensures Reads(text, ChildrenAt(p, at), Print(p.children)) && Reads(text, NextAt(p, at), Print(p.next))
  {
    ReadsBoth(text, at, Own(p), Print(p.next));
    ReadsBoth(text, at, Head(p), Print(p.children));
  }

  lemma {:induction false} RowReads(text: string, p: Provision, path: seq<string>, at: nat, x: nat)
    requires x < Size(p) && Reads(text, at, Print(p))
    ensures var r := RowOf(p, path, at, x); Reads(text, r.start, Own(r.node)) && at <= r.start
    decreases p
  {
    ParaReads(text, at, p);
    if 0 < x <= Size(p.children) {
      RowReads(text, p.children, path + [p.token], ChildrenAt(p, at), x - 1);
    } else if x > 0 {
      RowReads(text, p.next, path, NextAt(p, at), x - 1 - Size(p.children));
    }
  }

  /** A paragraph ends its head before the next one begins. */
  lemma {:induction false} RowsInOrder(p: Provision, path: seq<string>, at: nat, x: nat, y: nat)
    requires x < y < Size(p)
    ensures var r := RowOf(p, path, at, x); r.start + |Head(r.node)| <= RowOf(p, path, at, y).start
    decreases p
  {
    var m := Size(p.children);
    if x == 0 {
      RowStarts(p, path, at, y);
    } else if y <= m {
      RowsInOrder(p.children, path + [p.token], ChildrenAt(p, at), x - 1, y - 1);
    } else if x > m {
      RowsInOrder(p.next, path, NextAt(p, at), x - 1 - m, y - 1 - m);
    } else {
      RowEnds(p.children, path + [p.token], ChildrenAt(p, at), x - 1);
      RowStartsFrom(p.next, path, NextAt(p, at), y - 1 - m);
      PrintedLength(p, at);
    }
  }

  lemma {:induction false} RowStartsFrom(p: Provision, path: seq<string>, at: nat, x: nat)
    requires x < Size(p)
    ensures at <= RowOf(p, path, at, x).start
    decreases p
  {
    if 0 < x <= Size(p.children) {
      RowStartsFrom(p.children, path + [p.token], ChildrenAt(p, at), x - 1);
    } else if x > 0 {
      RowStartsFrom(p.next, path, NextAt(p, at), x - 1 - Size(p.children));
    }
  }

  lemma RowStarts(p: Provision, path: seq<string>, at: nat, y: nat)
    requires 0 < y < Size(p)
    ensures at + |Head(p)| <= RowOf(p, path, at, y).start
  {
    if y <= Size(p.children) {
      RowStartsFrom(p.children, path + [p.token], ChildrenAt(p, at), y - 1);
    } else {
      RowStartsFrom(p.next, path, NextAt(p, at), y - 1 - Size(p.children));
    }
  }

  lemma {:induction false} RowEnds(p: Provision, path: seq<string>, at: nat, x: nat)
    requires x < Size(p)
    ensures var r := RowOf(p, path, at, x); r.start + |Head(r.node)| <= at + |Print(p)|
    decreases p
  {
    PrintedLength(p, at);
    if 0 < x <= Size(p.children) {
      RowEnds(p.children, path + [p.token], ChildrenAt(p, at), x - 1);
    } else if x > 0 {
      RowEnds(p.next, path, NextAt(p, at), x - 1 - Size(p.children));
    }
  }

  // ---------------------------------------------------------------- brackets before markers

  /** No lead text ends in an opening bracket, which would stand right before the next marker. */
  predicate NoTrailingBracket(p: Provision) {
    p.End? ||
    (&& (p.lead == [] || p.lead[|p.lead| - 1] != '[')
     && NoTrailingBracket(p.children) && NoTrailingBracket(p.next))
  }

  predicate NoBracketBefore(text: string, at: nat) { 0 < at <= |text| ==> text[at - 1] != '[' }

  lemma HeadEnds(text: string, at: nat, p: Provision)
    requires p.Para? && Reads(text, at, Head(p)) && (p.lead == [] || p.lead[|p.lead| - 1] != '[')
    ensures NoBracketBefore(text, ChildrenAt(p, at))
  {
    var h := Head(p);
    assert text[at..at + |h|][|h| - 1] == h[|h| - 1];
  }

  lemma {:induction false} PrintEnds(text: string, at: nat, p: Provision, end: nat)
    requires Reads(text, at, Print(p)) && NoTrailingBracket(p) && NoBracketBefore(text, at) && end == at + |Print(p)|
    ensures NoBracketBefore(text, end)
    decreases p
  {
    if p.Para? {
      ParaReads(text, at, p);
      PrintedLength(p, at);
      HeadEnds(text, at, p);
      PrintEnds(text, ChildrenAt(p, at), p.children, NextAt(p, at));
      PrintEnds(text, NextAt(p, at), p.next, end);
    }
  }

  /** No bracket stands right before a paragraph. */
  lemma {:induction false} RowUnbracketed(text: string, p: Provision, path: seq<string>, at: nat, x: nat)
    requires x < Size(p) && Reads(text, at, Print(p)) && NoTrailingBracket(p) && NoBracketBefore(text, at)
    ensures NoBracketBefore(text, RowOf(p, path, at, x).start)
    decreases p
  {
    if 0 < x <= Size(p.children) {
      ParaUnbracketed(text, at, p);
      RowUnbracketed(text, p.children, path + [p.token], ChildrenAt(p, at), x - 1);
    } else if x > 0 {
      ParaUnbracketed(text, at, p);
      RowUnbracketed(text, p.next, path, NextAt(p, at), x - 1 - Size(p.children));
    }
  }

  lemma ParaUnbracketed(text: string, at: nat, p: Provision)
    requires p.Para? && Reads(text, at, Print(p)) && NoTrailingBracket(p) && NoBracketBefore(text, at)
    ensures Reads(text, ChildrenAt(p, at), Print(p.children)) && NoBracketBefore(text, ChildrenAt(p, at))
    ensures Reads(text, NextAt(p, at), Print(p.next)) && NoBracketBefore(text, NextAt(p, at))
  {
    ParaReads(text, at, p);
    PrintedLength(p, at);
    HeadEnds(text, at, p);
    PrintEnds(text, ChildrenAt(p, at), p.children, NextAt(p, at));
  }
}
