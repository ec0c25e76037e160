/**
 A checkout as a tree of paths, the protected floor of a removed file, and the deepest-first pruning of
 directories that retiring files has emptied.
 */
module OverlayTree {

  /** A path below the checkout root, by components; the root itself is the empty path. */
  type Path = seq<string>

  type Raw = string

  datatype Node = File(raw: Raw) | Dir | Link

  type Tree = map<Path, Node>

  function Parent(p: Path): Path
    requires p != []
  {
    p[..|p| - 1]
  }

  /** The root is a directory, and so is the parent of everything else. */
  predicate WellFormed(t: Tree) {
    && [] in t && t[[]].Dir?
    && (forall p :: p in t && p != [] ==> Parent(p) in t && t[Parent(p)].Dir?)
  }

  /** A directory entry directly below `d`. */
  predicate Holds(t: Tree, d: Path, p: Path) { p in t && p != [] && Parent(p) == d }

  predicate Empty(t: Tree, d: Path) { forall p :: p in t ==> !Holds(t, d, p) }

  function Without(t: Tree, s: set<Path>): Tree { map p | p in t && p !in s :: t[p] }

  // ---------------------------------------------------------------- floors and candidates

  predicate IsModuleRoot(s: string) { s == "legislation" || s == "policies" || s == "regulations" || s == "statutes" }

  /** The protected directory that pruning for a removed target does not cross. */
  function Floor(target: Path): (f: Path)
    ensures f <= target
  {
    if |target| >= 2 && IsModuleRoot(target[1]) then target[..2]
    else if |target| >= 4 && target[0] == ".axiom" && target[1] == "encoding-manifests" && IsModuleRoot(target[3])
    then target[..4]
    else []
  }

  /** The directories strictly between the floor of the target and the target. */
  predicate Between(d: Path, target: Path) { Floor(target) < d < target }

  predicate Candidate(targets: seq<Path>, d: Path) { exists i :: 0 <= i < |targets| && Between(d, targets[i]) }

  function PathsBetween(floor: Path, p: Path): (s: set<Path>)
    requires floor <= p
    decreases |p|
  {
    if floor == p then {} else PathsBetween(floor, Parent(p)) + {p}
  }

  lemma {:induction false} PathsBetweenAre(floor: Path, p: Path, d: Path)
    requires floor <= p
    ensures d in PathsBetween(floor, p) <==> floor < d <= p
    decreases |p|
  {
    if floor != p {
      PathsBetweenAre(floor, Parent(p), d);
      if floor < d <= p && d != p { assert d <= Parent(p); }
    }
  }

  function CandidatesOf(targets: seq<Path>): set<Path>
    requires forall i :: 0 <= i < |targets| ==> Floor(targets[i]) < targets[i]
  {
    if targets == [] then {}
    else
      var target := targets[|targets| - 1];
      CandidatesOf(targets[..|targets| - 1]) + PathsBetween(Floor(target), Parent(target))
  }

  lemma ParentBounds(p: Path, d: Path)
    requires p != []
    ensures d <= Parent(p) <==> d < p
  {
  }

  lemma {:induction false} CandidatesAre(targets: seq<Path>, d: Path)
    requires forall i :: 0 <= i < |targets| ==> Floor(targets[i]) < targets[i]
    ensures d in CandidatesOf(targets) <==> Candidate(targets, d)
  {
    if targets != [] {
      var n := |targets| - 1;
      CandidatesAre(targets[..n], d);
      PathsBetweenAre(Floor(targets[n]), Parent(targets[n]), d);
      ParentBounds(targets[n], d);
      assert d in PathsBetween(Floor(targets[n]), Parent(targets[n])) <==> Between(d, targets[n]);
      if i :| 0 <= i < |targets| && Between(d, targets[i]) {
        if i < n { assert Between(d, targets[..n][i]); }
      }
      if i :| 0 <= i < n && Between(d, targets[..n][i]) { assert Between(d, targets[i]); }
    }
  }

  /** No floor of any path is a candidate for any target, and neither is the root. */
  lemma FloorsAreProtected(targets: seq<Path>, p: Path)
    ensures !Candidate(targets, Floor(p)) && !Candidate(targets, [])
  {
    if i :| 0 <= i < |targets| && Between(Floor(p), targets[i]) { FloorStops(Floor(p), p, targets[i]); }
  }

  lemma FloorStops(f: Path, p: Path, target: Path)
    requires f == Floor(p) && f < target
    ensures !Between(f, target)
  {
    if |f| == 2 { assert target[1] == f[1] == p[1]; }
    if |f| == 4 { assert target[0] == f[0] == p[0] && target[1] == f[1] == p[1] && target[3] == f[3] == p[3]; }
  }

  // ---------------------------------------------------------------- pruning

  /** Removes a directory if it is an empty directory. */
  function Prune1(t: Tree, d: Path): Tree { if d in t && t[d].Dir? && Empty(t, d) then Without(t, {d}) else t }

  function PruneAll(t: Tree, order: seq<Path>): Tree {
    if order == [] then t else Prune1(PruneAll(t, order[..|order| - 1]), order[|order| - 1])
  }

  /** Everything at or below `d` is a candidate directory. */
  predicate Prunable(t: Tree, candidates: set<Path>, d: Path) {
    d in t && forall p :: p in t && d <= p ==> p in candidates && t[p].Dir?
  }

  /** The tree after exact pruning. */
  function Pruned(t: Tree, candidates: set<Path>): Tree { map p | p in t && !Prunable(t, candidates, p) :: t[p] }

  predicate DeepestFirst(order: seq<Path>) { forall i, j :: 0 <= i < j < |order| ==> |order[i]| >= |order[j]| }

  /** What has been pruned after the first `n` of the order. */
  ghost predicate PrunedSoFar(t: Tree, candidates: set<Path>, order: seq<Path>, n: nat, now: Tree)
    requires n <= |order|
  {
    && (forall p :: p in now <==> p in t && !(p in order[..n] && Prunable(t, candidates, p)))
    && (forall p :: p in now ==> now[p] == t[p])
  }

  lemma {:induction false} AncestorsExist(t: Tree, p: Path, n: nat)
    requires WellFormed(t) && p in t && n <= |p|
    ensures p[..n] in t && (n < |p| ==> t[p[..n]].Dir?)
    decreases |p|
  {
    PrefixOfParent(p, n);
    if n < |p| { AncestorsExist(t, Parent(p), n); }
  }

  lemma PrefixOfParent(p: Path, n: nat)
    requires n <= |p|
    ensures n == |p| ==> p[..n] == p
    ensures n < |p| ==> Parent(p)[..n] == p[..n]
  {
  }

  lemma PrunableBelow(t: Tree, candidates: set<Path>, d: Path, p: Path)
    requires Prunable(t, candidates, d) && d <= p && p in t
    ensures Prunable(t, candidates, p)
  {
  }

  /** If every entry of a candidate directory is prunable, so is the directory. */
  lemma PrunableUp(t: Tree, candidates: set<Path>, d: Path)
    requires WellFormed(t) && d in t && d in candidates && t[d].Dir?
    requires forall p :: Holds(t, d, p) ==> Prunable(t, candidates, p)
    ensures Prunable(t, candidates, d)
  {
    forall p | p in t && d <= p ensures p in candidates && t[p].Dir? {
      if d != p {
        var child := p[..|d| + 1];
        AncestorsExist(t, p, |d| + 1);
        assert Parent(child) == d && Holds(t, d, child);
        assert child <= p;
      }
    }
  }

  /** When `d` comes up, it is empty exactly if it is prunable. */
  lemma EmptyWhenPrunable(t: Tree, candidates: set<Path>, order: seq<Path>, n: nat, now: Tree)
    requires WellFormed(t) && n < |order| && DeepestFirst(order) && PrunedSoFar(t, candidates, order, n, now)
    requires forall p :: p in order <==> p in candidates
    requires order[n] in now && now[order[n]].Dir?
    ensures Empty(now, order[n]) <==> Prunable(t, candidates, order[n])
  {
    var d := order[n];
    assert d in candidates;
    if Prunable(t, candidates, d) {
      forall p | p in now ensures !Holds(now, d, p) {
        if p != [] && Parent(p) == d {
          PrunableBelow(t, candidates, d, p);
          DeeperIsEarlier(order, candidates, n, p);
        }
      }
    }
    if Empty(now, d) {
      forall p | Holds(t, d, p) ensures Prunable(t, candidates, p) {
        assert !Holds(now, d, p);
      }
      PrunableUp(t, candidates, d);
    }
  }

  lemma DeeperIsEarlier(order: seq<Path>, candidates: set<Path>, n: nat, p: Path)
    requires DeepestFirst(order) && n < |order| && |p| > |order[n]| && p in order
    ensures p in order[..n]
  {
    var k :| 0 <= k < |order| && order[k] == p;
    assert |order[k]| > |order[n]|;
    assert k < n;
    assert order[..n][k] == p;
  }

  lemma {:induction false} PruneStep(t: Tree, candidates: set<Path>, order: seq<Path>, n: nat, now: Tree)
    requires WellFormed(t) && n < |order| && DeepestFirst(order) && PrunedSoFar(t, candidates, order, n, now)
    requires forall p :: p in order <==> p in candidates
    requires forall p :: p in candidates && p in t ==> t[p].Dir?
    ensures PrunedSoFar(t, candidates, order, n + 1, Prune1(now, order[n]))
  {
    var d := order[n];
    var next := Prune1(now, d);
    assert d in candidates;
    if d in now { EmptyWhenPrunable(t, candidates, order, n, now); }
    forall p
      ensures p in next <==> p in t && !(p in order[..n + 1] && Prunable(t, candidates, p))
      ensures p in next ==> next[p] == t[p]
    {
      InLonger(order, n, p);
      if p == d && p in t { assert t[p].Dir?; }
    }
  }

  lemma InLonger(order: seq<Path>, n: nat, p: Path)
    requires n < |order|
    ensures p in order[..n + 1] <==> p in order[..n] || p == order[n]
  {
    assert order[..n + 1] == order[..n] + [order[n]];
  }

  lemma {:induction false} PruneSome(t: Tree, candidates: set<Path>, order: seq<Path>, n: nat)
    requires WellFormed(t) && n <= |order| && DeepestFirst(order)
    requires forall p :: p in order <==> p in candidates
    requires forall p :: p in candidates && p in t ==> t[p].Dir?
    ensures PrunedSoFar(t, candidates, order, n, PruneAll(t, order[..n]))
    decreases n
  {
    if n > 0 {
      PruneSome(t, candidates, order, n - 1);
      assert order[..n][..n - 1] == order[..n - 1];
      PruneStep(t, candidates, order, n - 1, PruneAll(t, order[..n - 1]));
    }
  }

  /** Pruning one directory after the other, deepest first, removes exactly the candidates whose whole
      subtree consists of candidate directories, and nothing else. */
  lemma PruningIsExact(t: Tree, candidates: set<Path>, order: seq<Path>)
    requires WellFormed(t) && DeepestFirst(order)
    requires forall p :: p in order <==> p in candidates
    requires forall p :: p in candidates && p in t ==> t[p].Dir?
    ensures PruneAll(t, order) == Pruned(t, candidates)
  {
    PruneSome(t, candidates, order, |order|);
    assert order[..|order|] == order;
    var all, exact := PruneAll(t, order), Pruned(t, candidates);
    forall p ensures p in all <==> p in exact { assert p in t && Prunable(t, candidates, p) ==> p in candidates; }
    forall p | p in exact ensures all[p] == exact[p] { assert p in all; }
  }

  // ---------------------------------------------------------------- sorting the candidates

  lemma {:induction false} DeepestExists(s: set<Path>) returns (d: Path)
    requires s != {}
    ensures d in s && forall p :: p in s ==> |p| <= |d|
  {
    var some :| some in s;
    var rest := s - {some};
    if rest == {} {
      assert s == {some};
      d := some;
    } else {
      var deepest := DeepestExists(rest);
      d := if |deepest| > |some| then deepest else some;
      forall p | p in s ensures |p| <= |d| { assert p == some || p in rest; }
    }
  }

  method SortDeepestFirst(candidates: set<Path>) returns (order: seq<Path>)
    ensures DeepestFirst(order) && forall p :: p in order <==> p in candidates
  {
    order := [];
    var rest := candidates;
    while rest != {}
      invariant rest <= candidates && DeepestFirst(order)
      invariant forall p :: p in candidates <==> p in order || p in rest
      invariant forall i, p :: 0 <= i < |order| && p in rest ==> |order[i]| >= |p|
    {
      ghost var deepest := DeepestExists(rest);
      var d: Path :| d in rest && forall p :: p in rest ==> |p| <= |d|;
      order := order + [d];
      rest := rest - {d};
    }
  }
}
