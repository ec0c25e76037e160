/** The outline of a tree of paragraphs is proper, and a paragraph's open levels are those of its path. */
module TreeOutline {
  import opened Common
  import opened LegalMarkers
  import opened LegalOutline
  import opened LegalTree

  /** Tokens have the kind of their level, and numbers rise from sibling to sibling. */
  predicate Numbered(p: Provision, level: nat, above: Option<int>, rule: Rule) {
    p.End? ||
    (var e := rule(Item(level, p.token));
     && e.Some? && e.value.token == p.token && (above.Some? ==> e.value.ordinal > above.value)
     && Numbered(p.children, level + 1, None, rule) && Numbered(p.next, level, Some(e.value.ordinal), rule))
  }

  function EntryAt(level: nat, token: string, rule: Rule): Entry {
    match rule(Item(level, token))
    case Some(e) => e
    case None => Entry(LowerAlpha, token, 0)
  }

  function Entries(path: seq<string>, rule: Rule): seq<Entry> {
    seq(|path|, l requires 0 <= l < |path| => EntryAt(l, path[l], rule))
  }

  function ItemOf(r: Row): Item
    requires r.node.Para?
  {
    Item(if r.path == [] then 0 else |r.path| - 1, r.node.token)
  }

  function ItemsOf(p: Provision, at: nat): seq<Item> {
    seq(Size(p), x requires 0 <= x < Size(p) => ItemOf(RowOf(p, [], at, x)))
  }

  /** Paragraph `s` may come right after `r`: its parent is open, and it comes after the sibling open there. */
  predicate MayFollow(r: Row, s: Row, rule: Rule)
    requires s.node.Para?
  {
    && s.path != []
    && var l := |s.path| - 1;
       && l <= |r.path| && s.path[..l] == r.path[..l] && s.path[l] == s.node.token
       && rule(Item(l, s.node.token)).Some? && rule(Item(l, s.node.token)).value.token == s.node.token
       && (l < |r.path| ==> rule(Item(l, s.node.token)).value.ordinal > EntryAt(l, r.path[l], rule).ordinal)
  }

  lemma FirstChildFollows(p: Provision, path: seq<string>, at: nat, rule: Rule, above: Option<int>)
    requires p.Para? && p.children.Para? && Numbered(p, |path|, above, rule)
    ensures MayFollow(RowOf(p, path, at, 0), RowOf(p, path, at, 1), rule)
  {
    var r, s := RowOf(p, path, at, 0), RowOf(p, path, at, 1);
    assert s == RowOf(p.children, path + [p.token], ChildrenAt(p, at), 0);
    assert s.path == r.path + [p.children.token];
    assert Numbered(p.children, |path| + 1, None, rule);
  }

  /** The next sibling may follow the paragraph itself and all its descendants. */
  lemma NextFollows(p: Provision, path: seq<string>, at: nat, x: nat, rule: Rule, above: Option<int>)
    requires p.Para? && p.next.Para? && Numbered(p, |path|, above, rule) && x <= Size(p.children)
    ensures MayFollow(RowOf(p, path, at, x), Row(path + [p.next.token], NextAt(p, at), p.next), rule)
  {
    var r := RowOf(p, path, at, x);
    if x > 0 { PathGoesOn(p.children, path + [p.token], ChildrenAt(p, at), x - 1); }
    SiblingMayFollow(r, Row(path + [p.next.token], NextAt(p, at), p.next), path, p.token, rule);
  }

  lemma SiblingMayFollow(r: Row, s: Row, path: seq<string>, token: string, rule: Rule)
    requires s.node.Para? && s.path == path + [s.node.token] && path + [token] <= r.path
    requires var e, f := rule(Item(|path|, token)), rule(Item(|path|, s.node.token));
             e.Some? && f.Some? && f.value.token == s.node.token && f.value.ordinal > e.value.ordinal
    ensures MayFollow(r, s, rule)
  {
    assert r.path[|path|] == (path + [token])[|path|];
    assert s.path[..|path|] == path == r.path[..|path|];
  }

  lemma {:induction false} RowMayFollow(p: Provision, path: seq<string>, at: nat, x: nat, rule: Rule,
                                        above: Option<int>)
    requires x + 1 < Size(p) && Numbered(p, |path|, above, rule)
    ensures MayFollow(RowOf(p, path, at, x), RowOf(p, path, at, x + 1), rule)
    decreases p
  {
    var m := Size(p.children);
    if x == m {
      NextRowFollows(p, path, at, rule, above);
    } else if x == 0 {
      FirstChildFollows(p, path, at, rule, above);
    } else if x < m {
      var inner := path + [p.token];
      assert Numbered(p.children, |inner|, None, rule);
      RowMayFollow(p.children, inner, ChildrenAt(p, at), x - 1, rule, None);
      ChildrenMayFollow(p, path, at, x, rule);
    } else {
      var number := rule(Item(|path|, p.token)).value.ordinal;
      RowMayFollow(p.next, path, NextAt(p, at), x - 1 - m, rule, Some(number));
      NextMayFollow(p, path, at, x, rule);
    }
  }

  lemma NextRowFollows(p: Provision, path: seq<string>, at: nat, rule: Rule, above: Option<int>)
    requires p.Para? && Size(p.children) + 1 < Size(p) && Numbered(p, |path|, above, rule)
    ensures MayFollow(RowOf(p, path, at, Size(p.children)), RowOf(p, path, at, Size(p.children) + 1), rule)
  {
    FirstOfNext(p, path, at);
    NextFollows(p, path, at, Size(p.children), rule, above);
  }

  lemma ChildrenMayFollow(p: Provision, path: seq<string>, at: nat, x: nat, rule: Rule)
    requires p.Para? && 0 < x < Size(p.children)
    requires var inner, j := path + [p.token], ChildrenAt(p, at);
             MayFollow(RowOf(p.children, inner, j, x - 1), RowOf(p.children, inner, j, x), rule)
    ensures MayFollow(RowOf(p, path, at, x), RowOf(p, path, at, x + 1), rule)
  {
    RowsOfChildren(p, path, at, x);
    RowsOfChildren(p, path, at, x + 1);
  }

  lemma NextMayFollow(p: Provision, path: seq<string>, at: nat, x: nat, rule: Rule)
    requires p.Para? && Size(p.children) < x && x + 1 < Size(p)
    requires var k, j := x - 1 - Size(p.children), NextAt(p, at);
             MayFollow(RowOf(p.next, path, j, k), RowOf(p.next, path, j, k + 1), rule)
    ensures MayFollow(RowOf(p, path, at, x), RowOf(p, path, at, x + 1), rule)
  {
    RowsOfNext(p, path, at, x);
    RowsOfNext(p, path, at, x + 1);
  }

  lemma RowsOfChildren(p: Provision, path: seq<string>, at: nat, x: nat)
    requires p.Para? && 0 < x <= Size(p.children)
    ensures x < Size(p) && RowOf(p, path, at, x) == RowOf(p.children, path + [p.token], ChildrenAt(p, at), x - 1)
  {
  }

  lemma RowsOfNext(p: Provision, path: seq<string>, at: nat, x: nat)
    requires p.Para? && Size(p.children) < x < Size(p)
    ensures x - 1 - Size(p.children) < Size(p.next)
    ensures RowOf(p, path, at, x) == RowOf(p.next, path, NextAt(p, at), x - 1 - Size(p.children))
  {
  }

  lemma PushFollows(stack: seq<Entry>, r: Row, s: Row, rule: Rule)
    requires s.node.Para? && stack == Entries(r.path, rule) && MayFollow(r, s, rule)
    ensures Fits(stack, ItemOf(s), rule) && Push(stack, ItemOf(s), rule) == Entries(s.path, rule)
  {
    var l := |s.path| - 1;
    assert stack[..l] == Entries(s.path, rule)[..l] by {
      forall k | 0 <= k < l ensures stack[k] == Entries(s.path, rule)[k] {
        assert r.path[k] == r.path[..l][k] == s.path[..l][k] == s.path[k];
      }
    }
  }

  // ---------------------------------------------------------------- the rows of a tree as an outline

  predicate MayBegin(r: Row, rule: Rule)
    requires r.node.Para?
  {
    && r.path == [r.node.token] && rule(Item(0, r.node.token)).Some?
    && rule(Item(0, r.node.token)).value.token == r.node.token
  }

  predicate InSequence(rows: seq<Row>, rule: Rule) {
    && (forall x :: 0 <= x < |rows| ==> rows[x].node.Para?)
    && (rows != [] ==> MayBegin(rows[0], rule))
    && forall x: nat, y: nat :: x + 1 == y < |rows| ==> MayFollow(rows[x], rows[y], rule)
  }

  function AsItems(rows: seq<Row>): seq<Item>
    requires forall x :: 0 <= x < |rows| ==> rows[x].node.Para?
  {
    seq(|rows|, x requires 0 <= x < |rows| => ItemOf(rows[x]))
  }

  lemma FirstOpens(r: Row, rule: Rule)
    requires r.node.Para? && MayBegin(r, rule)
    ensures Fits([], ItemOf(r), rule) && Push([], ItemOf(r), rule) == Entries(r.path, rule)
  {
  }

  lemma OpenOne(items: seq<Item>, x: nat, rule: Rule, it: Item, path: seq<string>)
    requires x < |items| && items[x] == it && ProperTo(items, x, rule)
    requires Fits(OpenBefore(items, x, rule), it, rule)
    requires Push(OpenBefore(items, x, rule), it, rule) == Entries(path, rule)
    ensures OpenBefore(items, x + 1, rule) == Entries(path, rule) && ProperTo(items, x + 1, rule)
  {
  }

  /** The outline of rows in sequence is proper, and the levels open at a paragraph are its path. */
  lemma {:induction false} OpenIsPath(rows: seq<Row>, x: nat, rule: Rule)
    requires InSequence(rows, rule) && x < |rows|
    ensures OpenBefore(AsItems(rows), x + 1, rule) == Entries(rows[x].path, rule)
    ensures ProperTo(AsItems(rows), x + 1, rule)
  {
    var items := AsItems(rows);
    if x == 0 {
      FirstOpens(rows[0], rule);
    } else {
      OpenIsPath(rows, x - 1, rule);
      PushFollows(OpenBefore(items, x, rule), rows[x - 1], rows[x], rule);
    }
    OpenOne(items, x, rule, ItemOf(rows[x]), rows[x].path);
  }

  lemma RowsAreInSequence(p: Provision, at: nat, rule: Rule)
    requires Numbered(p, 0, None, rule)
    ensures InSequence(Rows(p, [], at), rule) && AsItems(Rows(p, [], at)) == ItemsOf(p, at)
  {
    var rows := Rows(p, [], at);
    forall x: nat, y: nat | x + 1 == y < |rows| ensures MayFollow(rows[x], rows[y], rule) {
      RowMayFollow(p, [], at, x, rule, None);
    }
  }

  lemma TreeIsProper(p: Provision, at: nat, rule: Rule)
    requires Numbered(p, 0, None, rule)
    ensures Proper(ItemsOf(p, at), rule)
  {
    RowsAreInSequence(p, at, rule);
    var rows := Rows(p, [], at);
    if rows != [] { OpenIsPath(rows, |rows| - 1, rule); }
  }

  lemma EntriesHaveTokens(path: seq<string>, rule: Rule)
    requires forall l: nat :: l < |path| ==> EntryAt(l, path[l], rule).token == path[l]
    ensures Tokens(Entries(path, rule)) == path
  {
  }

  lemma {:induction false} PathIsReadable(p: Provision, path: seq<string>, at: nat, x: nat, rule: Rule,
                                          above: Option<int>, l: nat)
    requires x < Size(p) && Numbered(p, |path|, above, rule) && l < |RowOf(p, path, at, x).path|
    requires l < |path| ==> EntryAt(l, path[l], rule).token == path[l]
    ensures EntryAt(l, RowOf(p, path, at, x).path[l], rule).token == RowOf(p, path, at, x).path[l]
    decreases p
  {
    if 0 < x <= Size(p.children) {
      PathIsReadable(p.children, path + [p.token], ChildrenAt(p, at), x - 1, rule, None, l);
    } else if x > 0 {
      PathIsReadable(p.next, path, NextAt(p, at), x - 1 - Size(p.children), rule,
                     Some(rule(Item(|path|, p.token)).value.ordinal), l);
    }
  }

  /** The path of a paragraph in the outline is its path in the tree. */
  lemma PathOfRow(p: Provision, at: nat, x: nat, rule: Rule)
    requires x < Size(p) && Numbered(p, 0, None, rule)
    ensures Path(ItemsOf(p, at), x, rule) == RowOf(p, [], at, x).path
  {
    var path := RowOf(p, [], at, x).path;
    RowsAreInSequence(p, at, rule);
    OpenIsPath(Rows(p, [], at), x, rule);
    forall l: nat | l < |path| ensures EntryAt(l, path[l], rule).token == path[l] {
      PathIsReadable(p, [], at, x, rule, None, l);
    }
    EntriesHaveTokens(path, rule);
  }
}
