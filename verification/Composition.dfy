/**
 Composition of a parent provision from its descendants: the trie of descendant paths, the tombstone and
 coverage rules, and the canonical listing of the rows that make up the text.
 */
module Composition {
  import opened Common
  import opened Collections

  type Path = seq<string>

  datatype ReleaseScope = ReleaseScope(jurisdiction: string, documentClass: string, version: string)

  datatype Record = Record(path: Path, scope: ReleaseScope, body: Option<string>, heading: Option<string>,
                           repealed: bool, ordinal: Option<int>, row: string)

  /** Order of sibling paths by legal ordinal, natural order and path, used when ordinals do not decide. */
  type PathOrder = (Path, Path) -> bool

  ghost predicate StrictOrder(less: PathOrder) { Strict(less) }

  // ---------------------------------------------------------------- the trie

  datatype Trie = Trie(root: Path, rows: map<Path, Record>) {

    predicate Rooted() { forall p :: p in rows ==> root < p }

    ghost function Nodes(): set<Path>
      requires Rooted()
    {
      {root} + set p, n | p in rows && |root| <= n <= |p| :: p[..n]
    }

    ghost function Children(q: Path): set<Path>
      requires Rooted()
    {
      set c | c in Nodes() && q < c && |c| == |q| + 1
    }

    ghost function Subtree(q: Path): set<Path>
      requires Rooted()
    {
      set c | c in Nodes() && q <= c
    }

    predicate Repealed(q: Path) { q in rows && rows[q].repealed }

    predicate Bodied(q: Path) { q in rows && rows[q].body.Some? }

    lemma ChildSmaller(q: Path, c: Path)
      requires Rooted() && q in Nodes() && c in Children(q)
      ensures Subtree(c) < Subtree(q)
    {
      assert q in Subtree(q) && q !in Subtree(c);
      forall x | x in Subtree(c) ensures x in Subtree(q) {
        assert x[..|q|] == c[..|q|];
      }
    }

    lemma NodeUnderRoot(q: Path)
      requires Rooted() && q in Nodes()
      ensures root <= q
    {
    }

    /** Every node above a node, down to the root, is a node. */
    lemma PrefixIsNode(q: Path, n: nat)
      requires Rooted() && q in Nodes() && |root| <= n <= |q|
      ensures q[..n] in Nodes()
    {
      if q == root {
        assert q[..n] == root;
      } else {
        var p, k :| p in rows && |root| <= k <= |p| && q == p[..k];
        assert q[..n] == p[..n];
      }
    }

    /** A proper descendant lies under exactly one child. */
    lemma ChildToward(q: Path, x: Path)
      requires Rooted() && q in Nodes() && x in Nodes() && q < x
      ensures x[..|q| + 1] in Children(q) && x in Subtree(x[..|q| + 1])
    {
      NodeUnderRoot(q);
      PrefixIsNode(x, |q| + 1);
    }

    /** The path below `q` still contributes text: a body, an uncovered leaf, or a contributing child. */
    ghost predicate Contributes(q: Path)
      requires Rooted() && q in Nodes()
      decreases Subtree(q)
    {
      if Repealed(q) then false
      else if Bodied(q) || Children(q) == {} then true
      else exists c :: c in Children(q) && (ChildSmaller(q, c); Contributes(c))
    }

    ghost function Live(q: Path): (s: set<Path>)
      requires Rooted() && q in Nodes()
      ensures s <= Children(q)
    {
      set c | c in Children(q) && Contributes(c)
    }

    predicate UseOrdinals(s: set<Path>) { forall c :: c in s ==> c in rows && rows[c].ordinal.Some? }

    predicate Prior(less: PathOrder, useOrdinals: bool, a: Path, b: Path) {
      if useOrdinals && a in rows && b in rows && rows[a].ordinal.Some? && rows[b].ordinal.Some? then
        var x, y := rows[a].ordinal.value, rows[b].ordinal.value; x < y || (x == y && less(a, b))
      else less(a, b)
    }

    ghost predicate First(less: PathOrder, useOrdinals: bool, s: set<Path>, a: Path) {
      a in s && forall b :: b in s && b != a ==> Prior(less, useOrdinals, a, b)
    }

    lemma {:induction false} FirstExists(less: PathOrder, useOrdinals: bool, s: set<Path>)
      requires StrictOrder(less) && s != {} && (useOrdinals ==> UseOrdinals(s))
      ensures exists a :: First(less, useOrdinals, s, a)
      decreases s
    {
      var x :| x in s;
      var rest := s - {x};
      if rest == {} {
        assert s == {x};
        assert First(less, useOrdinals, s, x);
      } else {
        FirstExists(less, useOrdinals, rest);
        var a :| First(less, useOrdinals, rest, a);
        if Prior(less, useOrdinals, x, a) {
          forall b | b in s && b != x ensures Prior(less, useOrdinals, x, b) {
            if b != a { assert Prior(less, useOrdinals, a, b); }
          }
          assert First(less, useOrdinals, s, x);
        } else {
          assert First(less, useOrdinals, s, a);
        }
      }
    }

    lemma PriorIsAsymmetric(less: PathOrder, useOrdinals: bool, a: Path, b: Path)
      requires StrictOrder(less) && Prior(less, useOrdinals, a, b)
      ensures !Prior(less, useOrdinals, b, a)
    {
      assert less(a, b) && less(b, a) ==> less(a, a);
    }

    lemma FirstIsUnique(less: PathOrder, useOrdinals: bool, s: set<Path>, a: Path, b: Path)
      requires StrictOrder(less) && First(less, useOrdinals, s, a) && First(less, useOrdinals, s, b)
      ensures a == b
    {
      if Prior(less, useOrdinals, a, b) { PriorIsAsymmetric(less, useOrdinals, a, b); }
    }

    /** The siblings in canonical order. */
    ghost function Sorted(less: PathOrder, useOrdinals: bool, s: set<Path>): (r: seq<Path>)
      requires StrictOrder(less) && (useOrdinals ==> UseOrdinals(s))
      ensures forall x :: x in r <==> x in s
      decreases s
    {
      if s == {} then []
      else
        FirstExists(less, useOrdinals, s);
        var a :| First(less, useOrdinals, s, a);
        [a] + Sorted(less, useOrdinals, s - {a})
    }

    ghost predicate Ascending(less: PathOrder, useOrdinals: bool, r: seq<Path>) {
      forall i, j :: 0 <= i < j < |r| ==> r[i] != r[j] && Prior(less, useOrdinals, r[i], r[j])
    }

    lemma {:induction false} SortedAscends(less: PathOrder, useOrdinals: bool, s: set<Path>)
      requires StrictOrder(less) && (useOrdinals ==> UseOrdinals(s))
      ensures Ascending(less, useOrdinals, Sorted(less, useOrdinals, s))
      decreases s
    {
      if s != {} {
        FirstExists(less, useOrdinals, s);
        var a :| First(less, useOrdinals, s, a) &&
                 Sorted(less, useOrdinals, s) == [a] + Sorted(less, useOrdinals, s - {a});
        SortedAscends(less, useOrdinals, s - {a});
        FirstThenRest(less, useOrdinals, s, a, Sorted(less, useOrdinals, s - {a}));
      }
    }

    lemma FirstThenRest(less: PathOrder, useOrdinals: bool, s: set<Path>, a: Path, rest: seq<Path>)
      requires First(less, useOrdinals, s, a) && Ascending(less, useOrdinals, rest)
      requires forall x :: x in rest <==> x in s - {a}
      ensures Ascending(less, useOrdinals, [a] + rest)
    {
      var r := [a] + rest;
      forall i, j | 0 <= i < j < |r| ensures r[i] != r[j] && Prior(less, useOrdinals, r[i], r[j]) {
        assert r[j] == rest[j - 1] && rest[j - 1] in rest;
        if i > 0 { assert r[i] == rest[i - 1]; }
      }
    }

    lemma SortedUnfolds(less: PathOrder, useOrdinals: bool, s: set<Path>, a: Path)
      requires StrictOrder(less) && (useOrdinals ==> UseOrdinals(s)) && First(less, useOrdinals, s, a)
      ensures Sorted(less, useOrdinals, s) == [a] + Sorted(less, useOrdinals, s - {a})
    {
      var b :| First(less, useOrdinals, s, b) &&
               Sorted(less, useOrdinals, s) == [b] + Sorted(less, useOrdinals, s - {b});
      FirstIsUnique(less, useOrdinals, s, a, b);
    }

    lemma FirstOfMore(less: PathOrder, useOrdinals: bool, s: set<Path>, a: Path, c: Path)
      requires StrictOrder(less) && First(less, useOrdinals, s, a) && c !in s
      requires useOrdinals ==> UseOrdinals(s + {c})
      ensures First(less, useOrdinals, s + {c}, if Prior(less, useOrdinals, c, a) then c else a)
    {
      if Prior(less, useOrdinals, c, a) {
        forall b | b in s ensures Prior(less, useOrdinals, c, b) {
          if b != a { assert Prior(less, useOrdinals, a, b); }
        }
      }
    }

    // -------------------------------------------------------------- visiting

    /** The visit of `q` meets a leaf that is neither repealed nor covered by a body. */
    ghost predicate Uncovered(q: Path)
      requires Rooted() && q in Nodes()
      decreases Subtree(q)
    {
      !Repealed(q) && !Bodied(q) &&
      (Children(q) == {} || exists c :: c in Live(q) && (ChildSmaller(q, c); Uncovered(c)))
    }

    /** The rows that the visit of `q` appends. */
    ghost function Listing(less: PathOrder, q: Path): seq<Record>
      requires Rooted() && q in Nodes() && StrictOrder(less)
      decreases Subtree(q), 1, 0
    {
      if Repealed(q) then []
      else if Bodied(q) then [rows[q]]
      else ListAll(less, q, Sorted(less, UseOrdinals(Live(q)), Live(q)))
    }

    ghost function ListAll(less: PathOrder, q: Path, kids: seq<Path>): seq<Record>
      requires Rooted() && q in Nodes() && StrictOrder(less)
      requires forall c :: c in kids ==> c in Children(q)
      decreases Subtree(q), 0, |kids|
    {
      if kids == [] then []
      else
        ChildSmaller(q, kids[0]);
        Listing(less, kids[0]) + ListAll(less, q, kids[1..])
    }

    // -------------------------------------------------------------- the rules, declaratively

    /** Repealed rows are bodyless leaves. */
    ghost predicate SoundTombstones()
      requires Rooted()
    {
      forall p :: p in rows && rows[p].repealed ==> rows[p].body.None? && Children(p) == {}
    }

    /** Some row at or above `x`, at or below `q`, has a body. */
    predicate CoveredFrom(q: Path, x: Path) {
      exists n :: |q| <= n <= |x| && Bodied(x[..n])
    }

    /** Every leaf that is not repealed has a body or lies below one. */
    ghost predicate LeavesCovered()
      requires Rooted()
    {
      forall x :: x in Nodes() && Children(x) == {} && !Repealed(x) ==> CoveredFrom(root, x)
    }

    /** `p` has a body and no row strictly above it, at or below `q`, has one. */
    predicate Shallowest(q: Path, p: Path) {
      q <= p && Bodied(p) && forall n :: |q| <= n < |p| ==> !Bodied(p[..n])
    }

    /** The trie that the rules accept. */
    ghost predicate Sound() {
      && Rooted() && SoundTombstones() && LeavesCovered()
      && (forall p :: p in rows ==> rows[p].path == p)
      && (exists p :: p in rows && rows[p].body.Some?)
    }

    // -------------------------------------------------------------- coverage

    lemma ParentStands(q: Path, x: Path)
      requires Rooted() && SoundTombstones() && q in Nodes() && x in Nodes() && q < x
      ensures !Repealed(q)
    {
      ChildToward(q, x);
    }

    /** Anything that must show up below `q` keeps `q` contributing. */
    lemma {:induction false} ContributesToward(q: Path, x: Path)
      requires Rooted() && SoundTombstones() && q in Nodes() && x in Nodes() && q <= x
      requires !Repealed(x) && (Bodied(x) || Children(x) == {})
      ensures Contributes(q)
      decreases |x| - |q|
    {
      if q != x {
        ParentStands(q, x);
        ChildToward(q, x);
        ContributesToward(x[..|q| + 1], x);
        assert exists c :: c in Children(q) && Contributes(c);
      }
    }

    lemma {:induction false} UncoveredAbove(q: Path, x: Path)
      requires Rooted() && SoundTombstones() && q in Nodes() && x in Nodes() && q <= x
      requires Children(x) == {} && !Repealed(x) && !CoveredFrom(q, x)
      ensures Uncovered(q)
      decreases |x| - |q|
    {
      assert x[..|x|] == x;
      if q != x {
        ParentStands(q, x);
        ChildToward(q, x);
        var c := x[..|q| + 1];
        ContributesToward(c, x);
        UncoveredAbove(c, x);
        assert x[..|q|] == q;
        assert exists d :: d in Live(q) && Uncovered(d);
      }
    }

    lemma {:induction false} UncoveredWitness(q: Path) returns (x: Path)
      requires Rooted() && q in Nodes() && Uncovered(q)
      ensures x in Nodes() && q <= x && Children(x) == {} && !Repealed(x) && !CoveredFrom(q, x)
      decreases Subtree(q)
    {
      if Children(q) == {} {
        x := q;
        assert x[..|x|] == x;
      } else {
        var c :| c in Live(q) && Uncovered(c);
        ChildSmaller(q, c);
        x := UncoveredWitness(c);
        assert x[..|q|] == q by { assert x[..|q|] == c[..|q|]; }
      }
    }

    /** A visit of the whole trie fails exactly when some standing leaf is uncovered. */
    lemma UncoveredIff()
      requires Rooted() && SoundTombstones()
      ensures Uncovered(root) <==> !LeavesCovered()
    {
      if Uncovered(root) {
        var x := UncoveredWitness(root);
      }
      if !LeavesCovered() {
        var x :| x in Nodes() && Children(x) == {} && !Repealed(x) && !CoveredFrom(root, x);
        NodeUnderRoot(x);
        UncoveredAbove(root, x);
      }
    }

    // -------------------------------------------------------------- contents of the listing

    lemma {:induction false} ListingIsShallowest(less: PathOrder, q: Path, r: Record)
      requires Rooted() && q in Nodes() && StrictOrder(less) && (forall p :: p in rows ==> rows[p].path == p)
      requires r in Listing(less, q)
      ensures r.path in rows && rows[r.path] == r && Shallowest(q, r.path)
      decreases Subtree(q), 1, 0
    {
      if !Repealed(q) && !Bodied(q) {
        var c := ListAllIsShallowest(less, q, Sorted(less, UseOrdinals(Live(q)), Live(q)), r);
        BelowChild(q, c, r.path);
      }
    }

    lemma BelowChild(q: Path, c: Path, p: Path)
      requires Rooted() && q in Nodes() && c in Children(q) && !Bodied(q) && Shallowest(c, p)
      ensures Shallowest(q, p)
    {
      assert p[..|q|] == c[..|q|] == q;
    }

    lemma {:induction false} ListAllIsShallowest(less: PathOrder, q: Path, kids: seq<Path>, r: Record) returns (c: Path)
      requires Rooted() && q in Nodes() && StrictOrder(less) && (forall p :: p in rows ==> rows[p].path == p)
      requires forall k :: k in kids ==> k in Children(q)
      requires r in ListAll(less, q, kids)
      ensures c in kids && r.path in rows && rows[r.path] == r && Shallowest(c, r.path)
      decreases Subtree(q), 0, |kids|
    {
      ChildSmaller(q, kids[0]);
      if r in Listing(less, kids[0]) {
        c := kids[0];
        ListingIsShallowest(less, c, r);
      } else {
        c := ListAllIsShallowest(less, q, kids[1..], r);
      }
    }

    lemma {:induction false} ShallowestIsListed(less: PathOrder, q: Path, p: Path)
      requires Rooted() && SoundTombstones() && q in Nodes() && StrictOrder(less)
      requires p in Nodes() && Shallowest(q, p)
      ensures rows[p] in Listing(less, q)
      decreases Subtree(q), 1, 0
    {
      if q != p {
        assert p[..|q|] == q;
        ParentStands(q, p);
        ChildToward(q, p);
        var c := p[..|q| + 1];
        ContributesToward(c, p);
        ChildSmaller(q, c);
        forall n | |c| <= n < |p| ensures !Bodied(p[..n]) {}
        ShallowestIsListed(less, c, p);
        ListedByChild(less, q, Sorted(less, UseOrdinals(Live(q)), Live(q)), c, rows[p]);
      }
    }

    lemma {:induction false} ListedByChild(less: PathOrder, q: Path, kids: seq<Path>, c: Path, r: Record)
      requires Rooted() && q in Nodes() && StrictOrder(less)
      requires forall k :: k in kids ==> k in Children(q)
      requires c in kids && c in Nodes() && r in Listing(less, c)
      ensures r in ListAll(less, q, kids)
      decreases |kids|
    {
      if c != kids[0] { ListedByChild(less, q, kids[1..], c, r); }
    }

    // -------------------------------------------------------------- order of the listing

    /** Two paths part below a common node, into different children, the first canonically before the other. */
    ghost predicate InOrder(less: PathOrder, a: Path, b: Path)
      requires Rooted()
    {
      exists n: nat :: PartsAt(less, n, a, b)
    }

    ghost predicate PartsAt(less: PathOrder, n: nat, a: Path, b: Path)
      requires Rooted()
    {
      && n < |a| && n < |b| && a[..n] == b[..n] && a[..n] in Nodes() && a[..n + 1] != b[..n + 1]
      && Prior(less, UseOrdinals(Live(a[..n])), a[..n + 1], b[..n + 1])
    }

    ghost predicate Canonical(less: PathOrder, list: seq<Record>)
      requires Rooted()
    {
      forall i, j :: 0 <= i < j < |list| ==> InOrder(less, list[i].path, list[j].path)
    }

    lemma {:induction false} ListingIsCanonical(less: PathOrder, q: Path)
      requires Rooted() && q in Nodes() && StrictOrder(less) && (forall p :: p in rows ==> rows[p].path == p)
      ensures Canonical(less, Listing(less, q))
      decreases Subtree(q), 1, 0
    {
      if !Repealed(q) && !Bodied(q) {
        SortedAscends(less, UseOrdinals(Live(q)), Live(q));
        ListAllIsCanonical(less, q, Sorted(less, UseOrdinals(Live(q)), Live(q)));
      }
    }

    ghost predicate KidsInOrder(less: PathOrder, q: Path, kids: seq<Path>)
      requires Rooted() && q in Nodes()
    {
      && (forall k :: k in kids ==> k in Children(q))
      && Ascending(less, UseOrdinals(Live(q)), kids)
    }

    lemma {:induction false} ListAllIsCanonical(less: PathOrder, q: Path, kids: seq<Path>)
      requires Rooted() && q in Nodes() && StrictOrder(less) && (forall p :: p in rows ==> rows[p].path == p)
      requires KidsInOrder(less, q, kids)
      ensures Canonical(less, ListAll(less, q, kids))
      decreases Subtree(q), 0, |kids|
    {
      if kids != [] {
        ChildSmaller(q, kids[0]);
        ListingIsCanonical(less, kids[0]);
        assert forall k :: k in kids[1..] ==> k in kids;
        ListAllIsCanonical(less, q, kids[1..]);
        var first, later := Listing(less, kids[0]), ListAll(less, q, kids[1..]);
        forall r, s | r in first && s in later ensures InOrder(less, r.path, s.path) {
          ListingIsShallowest(less, kids[0], r);
          var c := ListAllIsShallowest(less, q, kids[1..], s);
          SiblingsPart(less, q, kids, c, r.path, s.path);
        }
        CanonicalAppend(less, first, later);
      }
    }

    lemma SiblingsPart(less: PathOrder, q: Path, kids: seq<Path>, c: Path, a: Path, b: Path)
      requires Rooted() && q in Nodes() && KidsInOrder(less, q, kids) && kids != []
      requires c in kids[1..] && kids[0] <= a && c <= b
      ensures InOrder(less, a, b)
    {
      var j :| 0 <= j < |kids[1..]| && kids[1..][j] == c;
      assert kids[j + 1] == c && kids[0] in kids && c in kids;
      var n := |q|;
      assert a[..n + 1] == kids[0] && b[..n + 1] == c;
      assert a[..n] == kids[0][..n] == q && b[..n] == c[..n] == q;
      assert PartsAt(less, n, a, b);
    }

    lemma CanonicalAppend(less: PathOrder, first: seq<Record>, later: seq<Record>)
      requires Rooted() && Canonical(less, first) && Canonical(less, later)
      requires forall r, s :: r in first && s in later ==> InOrder(less, r.path, s.path)
      ensures Canonical(less, first + later)
    {
      var all := first + later;
      forall i, j | 0 <= i < j < |all| ensures InOrder(less, all[i].path, all[j].path) {
        if j < |first| {
        } else if i >= |first| {
          assert all[i] == later[i - |first|] && all[j] == later[j - |first|];
        } else {
          assert all[i] in first && all[j] in later;
        }
      }
    }

    // -------------------------------------------------------------- the whole listing

    /** An accepted trie lists each body-bearing row with no body-bearing ancestor exactly once, nothing else,
        in canonical order, and never nothing at all. */
    lemma ListingIsExact(less: PathOrder)
      requires Sound() && StrictOrder(less)
      ensures !Uncovered(root)
      ensures forall r :: r in Listing(less, root) <==> r.path in rows && rows[r.path] == r && Shallowest(root, r.path)
      ensures Canonical(less, Listing(less, root))
      ensures Listing(less, root) != []
    {
      UncoveredIff();
      forall r | r in Listing(less, root)
        ensures r.path in rows && rows[r.path] == r && Shallowest(root, r.path)
      {
        ListingIsShallowest(less, root, r);
      }
      forall p | p in rows && Shallowest(root, p) ensures rows[p] in Listing(less, root) {
        RowIsNode(p);
        ShallowestIsListed(less, root, p);
      }
      ListingIsCanonical(less, root);
      var p :| p in rows && rows[p].body.Some?;
      var s := ShallowestOf(p);
      RowIsNode(s);
      ShallowestIsListed(less, root, s);
    }

    lemma RowIsNode(p: Path)
      requires Rooted() && p in rows
      ensures p in Nodes()
    {
      assert p == p[..|p|];
    }

    lemma {:induction false} ShallowestOf(p: Path) returns (s: Path)
      requires Rooted() && Bodied(p)
      ensures Shallowest(root, s)
      decreases |p|
    {
      assert root < p;
      if n :| |root| <= n < |p| && Bodied(p[..n]) {
        s := ShallowestOf(p[..n]);
      } else {
        s := p;
      }
    }

    /** Rows are listed at most once: canonical order separates their paths. */
    lemma NoRowTwice(less: PathOrder, i: nat, j: nat)
      requires Sound() && StrictOrder(less) && i < j < |Listing(less, root)|
      ensures Listing(less, root)[i].path != Listing(less, root)[j].path
    {
      ListingIsExact(less);
      var list := Listing(less, root);
      assert InOrder(less, list[i].path, list[j].path);
    }
  }

  // ---------------------------------------------------------------- a whole request

  const MAX_NODES: nat := 100_000
  const MAX_PREFIX_BYTES: nat := 64 * 1024 * 1024
  const MAX_COMPOSED_BYTES: nat := 64 * 1024 * 1024

  /** Encoded sizes of joined paths and of strings. */
  datatype Sizes = Sizes(path: Path -> nat, text: string -> nat)

  predicate UniquePaths(records: seq<Record>) {
    forall i, j :: 0 <= i < j < |records| ==> records[i].path != records[j].path
  }

  ghost function PathsOf(records: set<Record>): set<Path> { set r | r in records :: r.path }

  ghost function RowAt(records: set<Record>, p: Path): (r: Record)
    requires p in PathsOf(records)
    ensures r in records && r.path == p
  {
    var r :| r in records && r.path == p; r
  }

  ghost function RowsOf(records: set<Record>): map<Path, Record> {
    map p | p in PathsOf(records) :: RowAt(records, p)
  }

  ghost function AsSet(records: seq<Record>): set<Record> { set r | r in records }

  ghost function TrieOf(root: Path, records: seq<Record>): Trie { Trie(root, RowsOf(AsSet(records))) }

  ghost function Total(nodes: set<Path>, size: Path -> nat): nat {
    if nodes == {} then 0 else var x :| x in nodes; 4 * size(x) + Total(nodes - {x}, size)
  }

  function Chunk(r: Record): string {
    var body := if r.body.Some? then r.body.value else "";
    if r.heading.Some? && r.heading.value != "" then r.heading.value + "\n\n" + body else body
  }

  function Joined(list: seq<Record>): string {
    if list == [] then "" else if |list| == 1 then Chunk(list[0])
    else Joined(list[..|list| - 1]) + "\n\n" + Chunk(list[|list| - 1])
  }

  /** Bytes of the chunks and of the separators between them. */
  function JoinedBytes(list: seq<Record>, sizes: Sizes): nat {
    if list == [] then 0
    else JoinedBytes(list[..|list| - 1], sizes) + sizes.text(Chunk(list[|list| - 1])) + (if |list| > 1 then 2 else 0)
  }

  function Rows(list: seq<Record>): seq<string> { seq(|list|, i requires 0 <= i < |list| => list[i].row) }

  /** Where the text of row `i` begins: after the texts of the rows before it and a blank line each. */
  function OffsetOf(list: seq<Record>, i: nat): nat
    requires i <= |list|
  {
    if i == 0 then 0 else OffsetOf(list, i - 1) + |Chunk(list[i - 1])| + 2
  }

  lemma {:induction false} OffsetOfPrefix(list: seq<Record>, n: nat, i: nat)
    requires i <= n <= |list|
    ensures OffsetOf(list[..n], i) == OffsetOf(list, i)
  {
    if i > 0 { OffsetOfPrefix(list, n, i - 1); }
  }

  lemma {:induction false} JoinedLength(list: seq<Record>)
    requires list != []
    ensures |Joined(list)| + 2 == OffsetOf(list, |list|)
  {
    var n := |list| - 1;
    OffsetOfPrefix(list, n, n);
    if n > 0 { JoinedLength(list[..n]); }
  }

  /** A heading, unless it is empty, and a blank line before a body. */
  function Headed(heading: Option<string>, body: Option<string>): string {
    (match heading case Some(h) => if h == "" then "" else h + "\n\n" case None => "") +
    (match body case Some(b) => b case None => "")
  }

  lemma ChunkIsHeaded(r: Record)
    ensures Chunk(r) == Headed(r.heading, r.body)
  {
  }

  /** At the offset of row `i` stand its heading, if any, a blank line and its body; two line breaks follow before
      the next row, and nothing follows the last. */
  predicate StandsAt(text: string, list: seq<Record>, i: nat)
    requires i < |list|
  {
    var own, lo := Headed(list[i].heading, list[i].body), OffsetOf(list, i);
    && lo + |own| <= |text| && text[lo..lo + |own|] == own
    && (if i == |list| - 1 then lo + |own| == |text|
        else lo + |own| + 2 <= |text| && text[lo + |own|..lo + |own| + 2] == "\n\n")
  }

  lemma StillStands(before: string, own: string, list: seq<Record>, i: nat)
    requires i < |list| - 1 && StandsAt(before, list[..|list| - 1], i)
    ensures StandsAt(before + ("\n\n" + own), list, i)
  {
    var init, text := list[..|list| - 1], before + ("\n\n" + own);
    OffsetOfPrefix(list, |list| - 1, i);
    assert init[i] == list[i];
    ChunkIsHeaded(list[i]);
    var lo, hi := OffsetOf(list, i), OffsetOf(list, i) + |Chunk(list[i])|;
    assert text[lo..hi] == before[lo..hi];
    if i < |init| - 1 {
      assert text[hi..hi + 2] == before[hi..hi + 2];
    } else {
      assert text[hi..hi + 2] == ("\n\n" + own)[..2];
    }
  }

  lemma LastStands(before: string, own: string, list: seq<Record>, i: nat)
    requires i + 1 == |list| && own == Headed(list[i].heading, list[i].body) && |before| + 2 == OffsetOf(list, i)
    ensures StandsAt(before + ("\n\n" + own), list, i)
  {
    Suffix(before, "\n\n", own, before + ("\n\n" + own));
  }

  lemma Suffix(a: string, b: string, c: string, text: string)
    requires text == a + (b + c)
    ensures |text| == |a| + |b| + |c| && text[|a| + |b|..|a| + |b| + |c|] == c
  {
  }

  /** The joined text is made of the rows, each at its place. */
  lemma {:induction false} JoinedHas(list: seq<Record>, i: nat)
    requires i < |list|
    ensures StandsAt(Joined(list), list, i)
  {
    var n := |list| - 1;
    if n == 0 {
      ChunkIsHeaded(list[0]);
      assert Joined(list)[0..|Joined(list)|] == Joined(list);
    } else {
      var before := Joined(list[..n]);
      assert Joined(list) == before + ("\n\n" + Chunk(list[n]));
      if i < n {
        JoinedHas(list[..n], i);
        StillStands(before, Chunk(list[n]), list, i);
      } else {
        JoinedLength(list[..n]);
        OffsetOfPrefix(list, n, n);
        ChunkIsHeaded(list[n]);
        LastStands(before, Chunk(list[n]), list, n);
      }
    }
  }

  /** Everything the composition demands of its records, limits last. */
  ghost predicate Composable(root: Path, records: seq<Record>, scope: ReleaseScope, less: PathOrder, sizes: Sizes)
    requires StrictOrder(less)
  {
    && (forall r :: r in records ==> r.scope == scope)
    && UniquePaths(records)
    && var trie := TrieOf(root, records);
       && trie.Sound()
       && |trie.Nodes()| <= MAX_NODES && Total(trie.Nodes(), sizes.path) <= MAX_PREFIX_BYTES
       && JoinedBytes(trie.Listing(less, root), sizes) <= MAX_COMPOSED_BYTES
  }

  datatype Result = Composed(text: string, rows: seq<string>) | Refused

  ghost function Compose(root: Path, records: seq<Record>, scope: ReleaseScope, less: PathOrder, sizes: Sizes): Result
    requires StrictOrder(less)
  {
    if Composable(root, records, scope, less, sizes) then
      var list := TrieOf(root, records).Listing(less, root); Composed(Joined(list), Rows(list))
    else Refused
  }

  lemma {:induction false} TwiceIsTwoPlaces(records: seq<Record>, r: Record) returns (i: nat, j: nat)
    requires multiset(records)[r] >= 2
    ensures i < j < |records| && records[i] == r && records[j] == r
  {
    var n := |records| - 1;
    assert records == records[..n] + [records[n]];
    if records[n] == r {
      j := n;
      assert r in multiset(records[..n]);
      i :| 0 <= i < n && records[..n][i] == r;
    } else {
      i, j := TwiceIsTwoPlaces(records[..n], r);
    }
  }

  lemma {:induction false} TwoPlacesIsTwice(records: seq<Record>, i: nat, j: nat)
    requires i < j < |records| && records[i] == records[j]
    ensures multiset(records)[records[i]] >= 2
  {
    assert records == records[..j] + [records[j]] + records[j + 1..];
    assert records[..j][i] == records[i];
    assert records[i] in multiset(records[..j]);
  }

  lemma UniqueUnderPermutation(a: seq<Record>, b: seq<Record>)
    requires multiset(a) == multiset(b) && UniquePaths(a)
    ensures UniquePaths(b)
  {
    forall i, j | 0 <= i < j < |b| ensures b[i].path != b[j].path {
      assert b[i] in multiset(a) && b[j] in multiset(a);
      if b[i] == b[j] {
        TwoPlacesIsTwice(b, i, j);
        var k, l := TwiceIsTwoPlaces(a, b[i]);
      } else {
        var k :| 0 <= k < |a| && a[k] == b[i];
        var l :| 0 <= l < |a| && a[l] == b[j];
        assert if k < l then a[k].path != a[l].path else a[l].path != a[k].path;
      }
    }
  }

  /** The composed text and its rows depend only on which records there are, not on their order. */
  lemma ComposeIgnoresOrder(root: Path, a: seq<Record>, b: seq<Record>, scope: ReleaseScope, less: PathOrder,
                            sizes: Sizes)
    requires StrictOrder(less) && multiset(a) == multiset(b)
    ensures Compose(root, a, scope, less, sizes) == Compose(root, b, scope, less, sizes)
  {
    forall r ensures r in a <==> r in b {
      assert r in multiset(a) <==> r in multiset(b);
    }
    assert AsSet(a) == AsSet(b);
    if UniquePaths(a) { UniqueUnderPermutation(a, b); }
    if UniquePaths(b) { UniqueUnderPermutation(b, a); }
  }

  /** What a composed text is made of: exactly the body-bearing records without a body-bearing ancestor. */
  lemma ComposedRows(root: Path, records: seq<Record>, scope: ReleaseScope, less: PathOrder, sizes: Sizes)
    requires StrictOrder(less) && Composable(root, records, scope, less, sizes)
    ensures var list := TrieOf(root, records).Listing(less, root);
            && list != []
            && (forall r :: r in list <==>
                  && r in records && r.body.Some?
                  && forall s :: s in records && s.body.Some? ==> !(s.path < r.path))
            && (forall i, j :: 0 <= i < j < |list| ==> list[i].path != list[j].path)
  {
    var trie := TrieOf(root, records);
    trie.ListingIsExact(less);
    RowsAreRecords(records);
    var list := trie.Listing(less, root);
    forall r: Record
      ensures r in list <==>
              && r in records && r.body.Some?
              && forall s :: s in records && s.body.Some? ==> !(s.path < r.path)
    {
      if r in records && r.body.Some? { ShallowestIsUncovered(root, records, r); }
    }
    forall i, j | 0 <= i < j < |list| ensures list[i].path != list[j].path { trie.NoRowTwice(less, i, j); }
  }

  /** A body-bearing record is shallowest in the trie iff no body-bearing record is a proper ancestor. */
  lemma ShallowestIsUncovered(root: Path, records: seq<Record>, r: Record)
    requires UniquePaths(records) && TrieOf(root, records).Rooted() && r in records && r.body.Some?
    ensures TrieOf(root, records).Shallowest(root, r.path) <==>
            forall s :: s in records && s.body.Some? ==> !(s.path < r.path)
  {
    var trie := TrieOf(root, records);
    RowsAreRecords(records);
    if forall s :: s in records && s.body.Some? ==> !(s.path < r.path) {
      forall n | |root| <= n < |r.path| ensures !trie.Bodied(r.path[..n]) { assert r.path[..n] < r.path; }
    }
    if trie.Shallowest(root, r.path) {
      forall s | s in records && s.body.Some? ensures !(s.path < r.path) {
        if s.path < r.path { assert r.path[..|s.path|] == s.path && trie.Bodied(s.path); }
      }
    }
  }

  lemma RowsAreRecords(records: seq<Record>)
    requires UniquePaths(records)
    ensures var rows := RowsOf(AsSet(records));
            && (forall r :: r in records ==> r.path in rows && rows[r.path] == r)
            && (forall p :: p in rows ==> rows[p] in records && rows[p].path == p)
  {
    var rows := RowsOf(AsSet(records));
    forall r | r in records ensures r.path in rows && rows[r.path] == r {
      var i :| 0 <= i < |records| && records[i] == r;
      assert r in AsSet(records);
      var s := rows[r.path];
      var j :| 0 <= j < |records| && records[j] == s;
      assert records[i].path == records[j].path;
    }
  }
}
