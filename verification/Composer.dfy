/**
 The composition as the resolver runs it: the child sets and size counters built path by path, the memoised
 pruning and the recursive visit that appends rows.  Proved against `Composition`.
 */
module Composer {
  import opened Common
  import opened Composition

  // ---------------------------------------------------------------- what the child sets must say

  function Get(children: map<Path, set<Path>>, q: Path): set<Path> {
    if q in children then children[q] else {}
  }

  /** The child sets hold, for every node of `span`, the nodes one segment longer. */
  ghost predicate ChildrenOf(root: Path, span: set<Path>, children: map<Path, set<Path>>) {
    forall q :: Get(children, q) == NextNodes(root, span, q)
  }

  /** The nodes one segment below `q`. */
  ghost function NextNodes(root: Path, span: set<Path>, q: Path): set<Path> {
    set c | c in span && root <= q < c && |c| == |q| + 1
  }

  function WithChild(children: map<Path, set<Path>>, q: Path, c: Path): map<Path, set<Path>> {
    children[q := Get(children, q) + {c}]
  }

  lemma ChildAdded(root: Path, span: set<Path>, q: Path, c: Path, children: map<Path, set<Path>>)
    requires root <= q < c && |c| == |q| + 1 && ChildrenOf(root, span, children)
    ensures ChildrenOf(root, span + {c}, WithChild(children, q, c))
    ensures c in Get(children, q) <==> c in span
  {
    var next := WithChild(children, q, c);
    forall x ensures Get(next, x) == NextNodes(root, span + {c}, x) {
      assert Get(children, x) == NextNodes(root, span, x);
      if x < c && |c| == |x| + 1 { assert x == c[..|q|] == q; }
    }
    assert c in Get(children, q) <==> c in NextNodes(root, span, q);
  }

  /** `span` together with the prefixes of `path` that are longer than the root and at most `n` long. */
  function Grow(span: set<Path>, root: Path, path: Path, n: nat): set<Path>
    requires n <= |path|
  {
    if n <= |root| then span else Grow(span, root, path, n - 1) + {path[..n]}
  }

  /** The nodes that the records span. */
  function SpanOf(root: Path, records: seq<Record>): set<Path> {
    if records == [] then {root}
    else
      var r := records[|records| - 1];
      Grow(SpanOf(root, records[..|records| - 1]), root, r.path, |r.path|)
  }

  lemma {:induction false} GrowHas(span: set<Path>, root: Path, path: Path, n: nat, x: Path)
    requires n <= |path|
    ensures x in Grow(span, root, path, n) <==> x in span || (|root| < |x| <= n && x == path[..|x|])
  {
    if n > |root| { GrowHas(span, root, path, n - 1, x); }
  }

  lemma {:induction false} SpanHas(root: Path, records: seq<Record>, x: Path)
    ensures x in SpanOf(root, records) <==>
              x == root || exists r :: r in records && |root| < |x| <= |r.path| && x == r.path[..|x|]
  {
    if records != [] {
      var n := |records| - 1;
      SpanHas(root, records[..n], x);
      GrowHas(SpanOf(root, records[..n]), root, records[n].path, |records[n].path|, x);
      assert records == records[..n] + [records[n]];
    }
  }

  /** On records under the root, the span is the node set of their trie. */
  lemma SpanIsNodes(root: Path, records: seq<Record>)
    requires UniquePaths(records) && TrieOf(root, records).Rooted()
    ensures SpanOf(root, records) == TrieOf(root, records).Nodes()
  {
    RowsAreRecords(records);
    var trie := TrieOf(root, records);
    forall x ensures x in SpanOf(root, records) <==> x in trie.Nodes() {
      SpanHas(root, records, x);
      if x in trie.Nodes() && x != root {
        var p, n :| p in trie.rows && |root| <= n <= |p| && x == p[..n];
        assert trie.rows[p] in records;
        assert n > |root|;
      }
      if x in SpanOf(root, records) && x != root {
        var r :| r in records && |root| < |x| <= |r.path| && x == r.path[..|x|];
        assert r.path in trie.rows;
      }
    }
  }

  lemma {:induction false} TotalAdds(nodes: set<Path>, x: Path, size: Path -> nat)
    requires x !in nodes
    ensures Total(nodes + {x}, size) == Total(nodes, size) + 4 * size(x)
    decreases nodes
  {
    var all := nodes + {x};
    var y :| y in all && Total(all, size) == 4 * size(y) + Total(all - {y}, size);
    if y == x {
      assert all - {y} == nodes;
    } else {
      assert all - {y} == (nodes - {y}) + {x};
      TotalAdds(nodes - {y}, x, size);
      TotalRemoves(nodes, y, size);
    }
  }

  lemma {:induction false} TotalRemoves(nodes: set<Path>, y: Path, size: Path -> nat)
    requires y in nodes
    ensures Total(nodes, size) == 4 * size(y) + Total(nodes - {y}, size)
    decreases nodes
  {
    var z :| z in nodes && Total(nodes, size) == 4 * size(z) + Total(nodes - {z}, size);
    if z != y {
      TotalRemoves(nodes - {z}, y, size);
      TotalRemoves(nodes - {y}, z, size);
      assert nodes - {z} - {y} == nodes - {y} - {z};
    }
  }

  lemma TotalGrows(small: set<Path>, big: set<Path>, size: Path -> nat)
    requires small <= big
    ensures |small| <= |big| && Total(small, size) <= Total(big, size)
    decreases big - small
  {
    if small != big {
      var x :| x in big && x !in small;
      TotalAdds(small, x, size);
      TotalGrows(small + {x}, big, size);
    }
  }

  lemma TrieChildren(trie: Trie, children: map<Path, set<Path>>, q: Path)
    requires trie.Rooted() && ChildrenOf(trie.root, trie.Nodes(), children) && trie.root <= q
    ensures Get(children, q) == trie.Children(q)
  {
    assert Get(children, q) == NextNodes(trie.root, trie.Nodes(), q);
  }

  // ---------------------------------------------------------------- pruning and visiting

  class Composer {
    const trie: Trie
    const children: map<Path, set<Path>>
    const before: PathOrder
    var ordered: seq<Record>
    var contributes: map<Path, bool>

    constructor (trie: Trie, children: map<Path, set<Path>>, before: PathOrder)
      requires trie.Rooted() && StrictOrder(before) && ChildrenOf(trie.root, trie.Nodes(), children)
      ensures this.trie == trie && this.children == children && this.before == before
      ensures Ready() && ordered == []
    {
      this.trie, this.children, this.before := trie, children, before;
      ordered, contributes := [], map[];
    }

    /** The cache agrees with the definition wherever it has an entry. */
    ghost predicate Ready()
      reads this
    {
      && trie.Rooted() && StrictOrder(before) && ChildrenOf(trie.root, trie.Nodes(), children)
      && (forall p :: p in contributes ==> p in trie.Nodes() && contributes[p] == trie.Contributes(p))
    }

    function Kids(q: Path): (s: set<Path>)
      reads this
      requires Ready() && q in trie.Nodes()
      ensures s == trie.Children(q)
    {
      trie.NodeUnderRoot(q);
      TrieChildren(trie, children, q);
      Get(children, q)
    }

    method ContributesCurrentText(path: Path) returns (b: bool)
      requires Ready() && path in trie.Nodes()
      modifies this`contributes
      ensures Ready() && b == trie.Contributes(path)
      decreases trie.Subtree(path)
    {
      if path in contributes { return contributes[path]; }
      if trie.Repealed(path) {
        b := false;
      } else if trie.Bodied(path) {
        b := true;
      } else {
        var kids := Kids(path);
        b := kids == {};
        var rest := kids;
        while rest != {} && !b
          invariant Ready() && rest <= kids == trie.Children(path)
          invariant b ==> trie.Contributes(path)
          invariant !b ==> kids != {} && forall c :: c in kids - rest ==> c in trie.Nodes() && !trie.Contributes(c)
          decreases rest
        {
          var c :| c in rest;
          trie.ChildSmaller(path, c);
          b := ContributesCurrentText(c);
          rest := rest - {c};
        }
      }
      contributes := contributes[path := b];
    }

    /** The children that still contribute text. */
    method LiveChildren(path: Path, kids: set<Path>) returns (live: set<Path>)
      requires Ready() && path in trie.Nodes() && kids == trie.Children(path)
      modifies this`contributes
      ensures Ready() && live == trie.Live(path)
    {
      live := {};
      var rest := kids;
      while rest != {}
        invariant Ready() && rest <= kids
        invariant live == set c | c in kids - rest && trie.Contributes(c)
        decreases rest
      {
        var c :| c in rest;
        var b := ContributesCurrentText(c);
        if b { live := live + {c}; }
        rest := rest - {c};
      }
    }

    method Sort(s: set<Path>, useOrdinals: bool) returns (r: seq<Path>)
      requires StrictOrder(before) && (useOrdinals ==> trie.UseOrdinals(s))
      ensures r == trie.Sorted(before, useOrdinals, s)
    {
      r := [];
      var rest := s;
      while rest != {}
        invariant rest <= s
        invariant r + trie.Sorted(before, useOrdinals, rest) == trie.Sorted(before, useOrdinals, s)
        decreases rest
      {
        var first := Least(rest, useOrdinals);
        TakeFirst(r, rest, useOrdinals, first);
        r := r + [first];
        rest := rest - {first};
      }
    }

    lemma TakeFirst(r: seq<Path>, rest: set<Path>, useOrdinals: bool, first: Path)
      requires StrictOrder(before) && (useOrdinals ==> trie.UseOrdinals(rest))
      requires trie.First(before, useOrdinals, rest, first)
      ensures r + trie.Sorted(before, useOrdinals, rest) ==
              r + [first] + trie.Sorted(before, useOrdinals, rest - {first})
    {
      trie.SortedUnfolds(before, useOrdinals, rest, first);
    }

    method Least(s: set<Path>, useOrdinals: bool) returns (first: Path)
      requires s != {} && StrictOrder(before) && (useOrdinals ==> trie.UseOrdinals(s))
      ensures trie.First(before, useOrdinals, s, first)
    {
      first :| first in s;
      var rest := s - {first};
      while rest != {}
        invariant rest <= s && first in s - rest
        invariant trie.First(before, useOrdinals, s - rest, first)
        decreases rest
      {
        var c :| c in rest;
        trie.FirstOfMore(before, useOrdinals, s - rest, first, c);
        assert s - (rest - {c}) == (s - rest) + {c};
        if trie.Prior(before, useOrdinals, c, first) { first := c; }
        rest := rest - {c};
      }
      assert s - rest == s;
    }

    /** Appends the rows below `path`; fails on an uncovered leaf. */
    method Visit(path: Path) returns (ok: bool)
      requires Ready() && path in trie.Nodes()
      modifies this
      ensures Ready() && ok == !trie.Uncovered(path)
      ensures ok ==> ordered == old(ordered) + trie.Listing(before, path)
      decreases trie.Subtree(path), 1
    {
      if trie.Repealed(path) { return true; }
      if trie.Bodied(path) {
        ordered := ordered + [trie.rows[path]];
        return true;
      }
      var kids := Kids(path);
      var live := LiveChildren(path, kids);
      if kids != {} && live == {} { return true; }
      if live == {} { return false; }
      var sorted := Sort(live, trie.UseOrdinals(live));
      ok := VisitAll(path, sorted);
      UncoveredByChild(path, sorted);
    }

    lemma UncoveredByChild(path: Path, sorted: seq<Path>)
      requires trie.Rooted() && path in trie.Nodes() && !trie.Repealed(path) && !trie.Bodied(path)
      requires trie.Children(path) != {} && forall c :: c in sorted <==> c in trie.Live(path)
      ensures trie.Uncovered(path) <==> exists c :: c in sorted && c in trie.Nodes() && trie.Uncovered(c)
    {
    }

    method VisitAll(path: Path, sorted: seq<Path>) returns (ok: bool)
      requires Ready() && path in trie.Nodes() && forall c :: c in sorted ==> c in trie.Children(path)
      modifies this
      ensures Ready()
      ensures ok <==> forall c :: c in sorted ==> c in trie.Nodes() && !trie.Uncovered(c)
      ensures ok ==> ordered == old(ordered) + trie.ListAll(before, path, sorted)
      decreases trie.Subtree(path), 0
    {
      assert sorted[0..] == sorted;
      for i := 0 to |sorted|
        invariant Ready()
        invariant ordered + trie.ListAll(before, path, sorted[i..]) == old(ordered) + trie.ListAll(before, path, sorted)
        invariant forall k :: 0 <= k < i ==> sorted[k] in trie.Nodes() && !trie.Uncovered(sorted[k])
      {
        trie.ChildSmaller(path, sorted[i]);
        ghost var was := ordered;
        ok := Visit(sorted[i]);
        if !ok { return false; }
        assert sorted[i..][0] == sorted[i] && sorted[i..][1..] == sorted[i + 1..];
        AppendAssociates(was, trie.Listing(before, sorted[i]), trie.ListAll(before, path, sorted[i + 1..]));
      }
      assert sorted[|sorted|..] == [];
      return true;
    }
  }

  lemma AppendAssociates(a: seq<Record>, b: seq<Record>, c: seq<Record>)
    ensures a + (b + c) == a + b + c
  {
  }

  // ---------------------------------------------------------------- the checks before the visit

  lemma UniqueSnoc(records: seq<Record>, r: Record)
    requires UniquePaths(records)
    ensures UniquePaths(records + [r]) <==> forall x :: x in records ==> x.path != r.path
  {
    var all := records + [r];
    if UniquePaths(all) {
      forall x | x in records ensures x.path != r.path {
        var k :| 0 <= k < |records| && records[k] == x;
        assert all[k].path != all[|records|].path;
      }
    }
    assert forall k :: 0 <= k < |records| ==> all[k] == records[k] && records[k] in records;
  }

  /** Indexes the records by path; fails on a foreign scope or a repeated path. */
  method IndexRecords(records: seq<Record>, scope: ReleaseScope) returns (ok: bool, rows: map<Path, Record>)
    ensures ok <==> (forall r :: r in records ==> r.scope == scope) && UniquePaths(records)
    ensures ok ==> rows == RowsOf(AsSet(records))
  {
    rows := map[];
    var repeated := false;
    for i := 0 to |records|
      invariant forall r :: r in records[..i] ==> r.scope == scope && r.path in rows
      invariant forall p :: p in rows ==> rows[p] in records[..i] && rows[p].path == p
      invariant repeated <==> !UniquePaths(records[..i])
    {
      if records[i].scope != scope { return false, map[]; }
      assert records[..i + 1] == records[..i] + [records[i]];
      var p := records[i].path;
      if !repeated { UniqueSnoc(records[..i], records[i]); }
      if p in rows {
        repeated := true;
      } else {
        rows := rows[p := records[i]];
      }
    }
    assert records[..|records|] == records;
    ok := !repeated;
    if ok { SameRows(records, rows); }
  }

  lemma SameRows(records: seq<Record>, rows: map<Path, Record>)
    requires UniquePaths(records)
    requires forall r :: r in records ==> r.path in rows
    requires forall p :: p in rows ==> rows[p] in records && rows[p].path == p
    ensures rows == RowsOf(AsSet(records))
  {
    RowsAreRecords(records);
    var all := RowsOf(AsSet(records));
    assert rows.Keys == all.Keys;
  }

  /** Child sets and counters of the nodes so far. */
  ghost predicate Counted(root: Path, span: set<Path>, children: map<Path, set<Path>>, nodes: nat, bytes: nat,
                          size: Path -> nat)
  {
    ChildrenOf(root, span, children) && nodes == |span| && bytes == Total(span, size)
  }

  predicate WithinLimits(nodes: nat, bytes: nat) { nodes <= MAX_NODES && bytes <= MAX_PREFIX_BYTES }

  ghost predicate Fits(span: set<Path>, size: Path -> nat) { WithinLimits(|span|, Total(span, size)) }

  predicate AllUnder(root: Path, records: seq<Record>) {
    records == [] || (AllUnder(root, records[..|records| - 1]) && root < records[|records| - 1].path)
  }

  lemma {:induction false} AllUnderIff(root: Path, records: seq<Record>)
    ensures AllUnder(root, records) <==> forall r :: r in records ==> root < r.path
  {
    if records != [] {
      var n := |records| - 1;
      AllUnderIff(root, records[..n]);
      assert records == records[..n] + [records[n]];
    }
  }

  lemma AllUnderSnoc(root: Path, records: seq<Record>, i: nat)
    requires i < |records| && AllUnder(root, records[..i])
    ensures AllUnder(root, records[..i + 1]) <==> root < records[i].path
  {
    assert records[..i + 1][..i] == records[..i];
  }

  lemma {:induction false} AllUnderEarlier(root: Path, records: seq<Record>, i: nat)
    requires i <= |records| && AllUnder(root, records)
    ensures AllUnder(root, records[..i])
  {
    if i < |records| {
      assert records[..|records| - 1][..i] == records[..i];
      AllUnderEarlier(root, records[..|records| - 1], i);
    } else {
      assert records[..i] == records;
    }
  }

  lemma {:induction false} GrowGrows(span: set<Path>, root: Path, path: Path, n: nat, m: nat)
    requires n <= m <= |path|
    ensures Grow(span, root, path, n) <= Grow(span, root, path, m)
  {
    if n < m { GrowGrows(span, root, path, n, m - 1); }
  }

  lemma {:induction false} SpanGrows(root: Path, records: seq<Record>, n: nat)
    requires n <= |records|
    ensures SpanOf(root, records[..n]) <= SpanOf(root, records)
  {
    if n < |records| {
      assert records[..|records| - 1][..n] == records[..n];
      SpanGrows(root, records[..|records| - 1], n);
      var r := records[|records| - 1];
      GrowGrows(SpanOf(root, records[..|records| - 1]), root, r.path, 0, |r.path|);
    } else {
      assert records[..n] == records;
    }
  }

  /** Adds one node below its parent to the child sets and the counters, unless it is there already. */
  method AddChild(root: Path, ghost span: set<Path>, parent: Path, child: Path, sizes: Sizes,
                  childrenIn: map<Path, set<Path>>, nodesIn: nat, bytesIn: nat)
    returns (added: bool, children: map<Path, set<Path>>, nodes: nat, bytes: nat)
    requires root <= parent < child && |child| == |parent| + 1
    requires Counted(root, span, childrenIn, nodesIn, bytesIn, sizes.path)
    ensures Counted(root, span + {child}, children, nodes, bytes, sizes.path)
    ensures added <==> child !in span
    ensures !added ==> nodes == nodesIn && bytes == bytesIn
  {
    ChildAdded(root, span, parent, child, childrenIn);
    added := child !in Get(childrenIn, parent);
    nodes, bytes := nodesIn, bytesIn;
    if added {
      TotalAdds(span, child, sizes.path);
      nodes, bytes := nodes + 1, bytes + 4 * sizes.path(child);
    } else {
      assert span + {child} == span;
    }
    children := WithChild(childrenIn, parent, child);
  }

  /** Adds every prefix of one path below the root, within the limits.  Before the first path only the root
      is counted, and its size is not checked yet. */
  method AddPath(root: Path, ghost span: set<Path>, path: Path, sizes: Sizes,
                 childrenIn: map<Path, set<Path>>, nodesIn: nat, bytesIn: nat)
    returns (ok: bool, children: map<Path, set<Path>>, nodes: nat, bytes: nat)
    requires root < path && Counted(root, span, childrenIn, nodesIn, bytesIn, sizes.path)
    requires span == {root} || WithinLimits(nodesIn, bytesIn)
    ensures ok <==> Fits(Grow(span, root, path, |path|), sizes.path)
    ensures ok ==> Counted(root, Grow(span, root, path, |path|), children, nodes, bytes, sizes.path)
  {
    children, nodes, bytes := childrenIn, nodesIn, bytesIn;
    var n := |root|;
    ghost var here := span;
    while n < |path|
      invariant |root| <= n <= |path| && here == Grow(span, root, path, n)
      invariant Counted(root, here, children, nodes, bytes, sizes.path)
      invariant WithinLimits(nodes, bytes) || (span == {root} && n == |root|)
    {
      var added;
      added, children, nodes, bytes := AddPrefix(root, span, path, n, here, sizes, children, nodes, bytes);
      here, n := here + {path[..n + 1]}, n + 1;
      if added && !WithinLimits(nodes, bytes) {
        OverLimit(span, root, path, n, sizes.path);
        return false, map[], 0, 0;
      }
    }
    ok := true;
  }

  lemma OverLimit(span: set<Path>, root: Path, path: Path, n: nat, size: Path -> nat)
    requires n <= |path| && !Fits(Grow(span, root, path, n), size)
    ensures !Fits(Grow(span, root, path, |path|), size)
  {
    GrowGrows(span, root, path, n, |path|);
    TotalGrows(Grow(span, root, path, n), Grow(span, root, path, |path|), size);
  }

  method AddPrefix(root: Path, ghost span: set<Path>, path: Path, n: nat, ghost here: set<Path>, sizes: Sizes,
                   childrenIn: map<Path, set<Path>>, nodesIn: nat, bytesIn: nat)
    returns (added: bool, children: map<Path, set<Path>>, nodes: nat, bytes: nat)
    requires root < path && |root| <= n < |path|
    requires here == Grow(span, root, path, n) && Counted(root, here, childrenIn, nodesIn, bytesIn, sizes.path)
    ensures here + {path[..n + 1]} == Grow(span, root, path, n + 1)
    ensures Counted(root, here + {path[..n + 1]}, children, nodes, bytes, sizes.path)
    ensures span == {root} && n == |root| ==> added
    ensures !added ==> nodes == nodesIn && bytes == bytesIn
  {
    added, children, nodes, bytes :=
      AddChild(root, here, path[..n], path[..n + 1], sizes, childrenIn, nodesIn, bytesIn);
  }

  /** The child sets of all records; fails outside the parent or beyond the size limits. */
  method BuildChildren(root: Path, records: seq<Record>, sizes: Sizes)
    returns (ok: bool, children: map<Path, set<Path>>)
    requires records != []
    ensures ok <==> AllUnder(root, records) && Fits(SpanOf(root, records), sizes.path)
    ensures ok ==> ChildrenOf(root, SpanOf(root, records), children)
  {
    children := map[];
    var nodes: nat, bytes: nat := 1, 4 * sizes.path(root);
    assert Total({root}, sizes.path) == 4 * sizes.path(root) by { assert {root} - {root} == {}; }
    ghost var span := {root};
    for i := 0 to |records|
      invariant AllUnder(root, records[..i])
      invariant span == SpanOf(root, records[..i])
      invariant Counted(root, span, children, nodes, bytes, sizes.path)
      invariant if i == 0 then span == {root} else WithinLimits(nodes, bytes)
    {
      var path := records[i].path;
      AllUnderSnoc(root, records, i);
      if !(root < path) {
        if AllUnder(root, records) { AllUnderEarlier(root, records, i + 1); }
        return false, map[];
      }
      ok, children, nodes, bytes := AddPath(root, span, path, sizes, children, nodes, bytes);
      span := Grow(span, root, path, |path|);
      SpanSnoc(root, records, i);
      if !ok {
        SpanGrows(root, records, i + 1);
        TotalGrows(span, SpanOf(root, records), sizes.path);
        return false, map[];
      }
    }
    assert records[..|records|] == records;
    ok := true;
  }

  lemma SpanSnoc(root: Path, records: seq<Record>, i: nat)
    requires i < |records|
    ensures SpanOf(root, records[..i + 1]) ==
            Grow(SpanOf(root, records[..i]), root, records[i].path, |records[i].path|)
  {
    assert records[..i + 1][..i] == records[..i];
  }

  /** No repealed record has a body or a child. */
  method CheckTombstones(records: seq<Record>, children: map<Path, set<Path>>) returns (ok: bool)
    ensures ok <==> forall r :: r in records && r.repealed ==> r.body.None? && Get(children, r.path) == {}
  {
    for i := 0 to |records|
      invariant forall r :: r in records[..i] && r.repealed ==> r.body.None? && Get(children, r.path) == {}
    {
      var r := records[i];
      if r.repealed && (r.body.Some? || Get(children, r.path) != {}) { return false; }
      assert records[..i + 1] == records[..i] + [r];
    }
    assert records[..|records|] == records;
    ok := true;
  }

  /** Joins the chunks of the listed rows within the size limit. */
  method JoinChunks(ordered: seq<Record>, sizes: Sizes) returns (ok: bool, text: string)
    ensures ok <==> JoinedBytes(ordered, sizes) <= MAX_COMPOSED_BYTES
    ensures ok ==> text == Joined(ordered)
  {
    text := "";
    var bytes := 0;
    for i := 0 to |ordered|
      invariant text == Joined(ordered[..i]) && bytes == JoinedBytes(ordered[..i], sizes)
      invariant bytes <= MAX_COMPOSED_BYTES
    {
      var chunk := Chunk(ordered[i]);
      assert ordered[..i + 1][..i] == ordered[..i];
      bytes := bytes + sizes.text(chunk) + (if i > 0 then 2 else 0);
      if bytes > MAX_COMPOSED_BYTES {
        BytesGrow(ordered, i + 1, sizes);
        return false, "";
      }
      text := if i > 0 then text + "\n\n" + chunk else chunk;
    }
    assert ordered[..|ordered|] == ordered;
    ok := true;
  }

  lemma {:induction false} BytesGrow(list: seq<Record>, n: nat, sizes: Sizes)
    requires n <= |list|
    ensures JoinedBytes(list[..n], sizes) <= JoinedBytes(list, sizes)
  {
    if n < |list| {
      var init := list[..|list| - 1];
      assert init[..n] == list[..n];
      BytesGrow(init, n, sizes);
    } else {
      assert list[..n] == list;
    }
  }

  lemma TombstonesAgree(trie: Trie, records: seq<Record>, children: map<Path, set<Path>>)
    requires trie.Rooted() && ChildrenOf(trie.root, trie.Nodes(), children)
    requires forall r :: r in records ==> r.path in trie.rows && trie.rows[r.path] == r
    requires forall p :: p in trie.rows ==> trie.rows[p] in records && trie.rows[p].path == p
    ensures trie.SoundTombstones() <==>
              forall r :: r in records && r.repealed ==> r.body.None? && Get(children, r.path) == {}
  {
    forall r | r in records ensures Get(children, r.path) == trie.Children(r.path) {
      TrieChildren(trie, children, r.path);
    }
  }

  lemma SomeBody(root: Path, records: seq<Record>)
    requires UniquePaths(records)
    ensures var rows := TrieOf(root, records).rows;
            (exists p :: p in rows && rows[p].body.Some?) <==> exists r :: r in records && r.body.Some?
  {
    RowsAreRecords(records);
    var rows := TrieOf(root, records).rows;
    if r :| r in records && r.body.Some? {
      assert rows[r.path].body.Some?;
    }
  }

  /** The conditions in the order in which they are checked. */
  lemma ComposableInSteps(root: Path, records: seq<Record>, scope: ReleaseScope, before: PathOrder, sizes: Sizes)
    requires StrictOrder(before) && UniquePaths(records) && (forall r :: r in records ==> r.scope == scope)
    requires TrieOf(root, records).Rooted()
    ensures var trie := TrieOf(root, records);
            Composable(root, records, scope, before, sizes) <==>
              && (exists r :: r in records && r.body.Some?)
              && Fits(SpanOf(root, records), sizes.path)
              && trie.SoundTombstones() && !trie.Uncovered(root)
              && JoinedBytes(trie.Listing(before, root), sizes) <= MAX_COMPOSED_BYTES
  {
    SoundInSteps(root, records);
    SpanIsNodes(root, records);
  }

  lemma SoundInSteps(root: Path, records: seq<Record>)
    requires UniquePaths(records) && TrieOf(root, records).Rooted()
    ensures var trie := TrieOf(root, records);
            trie.Sound() <==>
              (exists r :: r in records && r.body.Some?) && trie.SoundTombstones() && !trie.Uncovered(root)
  {
    var trie := TrieOf(root, records);
    SomeBody(root, records);
    if trie.SoundTombstones() { trie.UncoveredIff(); }
    assert forall p :: p in trie.rows ==> trie.rows[p].path == p by { RowsAreRecords(records); }
  }

  lemma RootedIff(root: Path, records: seq<Record>)
    requires UniquePaths(records)
    ensures TrieOf(root, records).Rooted() <==> AllUnder(root, records)
  {
    RowsAreRecords(records);
    AllUnderIff(root, records);
  }

  /** `_compose_descendant_text`: succeeds exactly on composable records, with exactly the canonical text.
      Once the checks pass, the listing is never empty (`Trie.ListingIsExact`). */
  method ComposeDescendantText(root: Path, records: seq<Record>, scope: ReleaseScope, before: PathOrder, sizes: Sizes)
    returns (r: Result)
    requires StrictOrder(before)
    ensures r == Compose(root, records, scope, before, sizes)
  {
    var ok, rows := IndexRecords(records, scope);
    if !ok { return Refused; }
    SomeBody(root, records);
    RootedIff(root, records);
    if !exists r :: r in records && r.body.Some? { return Refused; }
    var children;
    ok, children := BuildChildren(root, records, sizes);
    if !ok {
      if TrieOf(root, records).Rooted() { ComposableInSteps(root, records, scope, before, sizes); }
      return Refused;
    }
    r := Assemble(Trie(root, rows), records, scope, children, before, sizes);
  }

  /** The part after the trie stands: tombstones, visit and text. */
  method Assemble(trie: Trie, records: seq<Record>, scope: ReleaseScope, children: map<Path, set<Path>>,
                  before: PathOrder, sizes: Sizes) returns (r: Result)
    requires StrictOrder(before) && UniquePaths(records) && (forall r :: r in records ==> r.scope == scope)
    requires trie == TrieOf(trie.root, records) && trie.Rooted()
    requires (exists r :: r in records && r.body.Some?) && Fits(SpanOf(trie.root, records), sizes.path)
    requires ChildrenOf(trie.root, SpanOf(trie.root, records), children)
    ensures r == Compose(trie.root, records, scope, before, sizes)
  {
    ComposableInSteps(trie.root, records, scope, before, sizes);
    SpanIsNodes(trie.root, records);
    var ok := CheckTombstones(records, children);
    assert ok <==> trie.SoundTombstones() by {
      RowsAreRecords(records);
      TombstonesAgree(trie, records, children);
    }
    if !ok { return Refused; }
    var composer := new Composer(trie, children, before);
    ok := composer.Visit(trie.root);
    if !ok { return Refused; }
    assert composer.ordered == trie.Listing(before, trie.root);
    var text;
    ok, text := JoinChunks(composer.ordered, sizes);
    if !ok { return Refused; }
    r := Composed(text, Rows(composer.ordered));
  }
}
