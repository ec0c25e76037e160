/** The staging as it runs on a mutable checkout, and the exact tree it leaves. */
module OverlayStaging {
  import opened Collections
  import opened OverlayTree
  import opened ReplacementOverlay

  predicate Written(ws: seq<Write>, p: Path) { exists i :: 0 <= i < |ws| && ws[i].path == p }

  lemma {:induction false} PutAllOther(t: Tree, ws: seq<Write>, p: Path)
    requires !Written(ws, p)
    ensures p in PutAll(t, ws) <==> p in t
    ensures p in t ==> PutAll(t, ws)[p] == t[p]
  {
    if ws != [] {
      var n := |ws| - 1;
      assert ws[n].path != p;
      forall i | 0 <= i < n ensures ws[..n][i].path != p { assert ws[i].path != p; }
      PutAllOther(t, ws[..n], p);
    }
  }

  lemma {:induction false} PutAllWritten(t: Tree, ws: seq<Write>, p: Path)
    requires Written(ws, p)
    ensures p in PutAll(t, ws) && PutAll(t, ws)[p].File?
    ensures exists i :: 0 <= i < |ws| && ws[i].path == p && PutAll(t, ws)[p].raw == ws[i].raw
  {
    var n := |ws| - 1;
    if ws[n].path != p {
      var k :| 0 <= k < |ws| && ws[k].path == p;
      assert ws[..n][k].path == p;
      PutAllWritten(t, ws[..n], p);
      var i :| 0 <= i < n && ws[..n][i].path == p && PutAll(t, ws[..n])[p].raw == ws[..n][i].raw;
      assert ws[i].path == p;
    }
  }

  /** Unlinking and writing changes no directory and no file that is not named. */
  lemma AppliedAt(t: Tree, hash: Raw -> string, c: Contract, p: Path)
    requires Check(t, hash, c)
    ensures !Written(Writes(c), p) ==> (p in Applied(t, c) <==> p in t && p !in Unlinks(c))
    ensures !Written(Writes(c), p) && p in Applied(t, c) ==> Applied(t, c)[p] == t[p]
    ensures Written(Writes(c), p) ==> p in t && t[p].File? && p in Applied(t, c) && Applied(t, c)[p].File?
    ensures p in Unlinks(c) ==> p in t && t[p].File?
  {
    UnlinksAreFiles(t, hash, c);
    WritesAreFiles(t, hash, c);
    assert p in Unlinks(c) <==> p in Members(Unlinks(c));
    var mid := Without(t, Members(Unlinks(c)));
    if Written(Writes(c), p) { PutAllWritten(mid, Writes(c), p); } else { PutAllOther(mid, Writes(c), p); }
  }

  lemma AppliedWellFormed(t: Tree, hash: Raw -> string, c: Contract)
    requires WellFormed(t) && Check(t, hash, c)
    ensures WellFormed(Applied(t, c))
  {
    AppliedAt(t, hash, c, []);
    forall p | p in Applied(t, c) && p != [] ensures Parent(p) in Applied(t, c) && Applied(t, c)[Parent(p)].Dir? {
      AppliedAt(t, hash, c, p);
      AppliedAt(t, hash, c, Parent(p));
    }
  }

  lemma CandidateIsDir(t: Tree, hash: Raw -> string, c: Contract, d: Path)
    requires WellFormed(t) && Check(t, hash, c) && Candidate(Removed(c), d)
    ensures d in t && t[d].Dir? && d in Applied(t, c) && Applied(t, c)[d].Dir?
  {
    var i :| 0 <= i < |Removed(c)| && Between(d, Removed(c)[i]);
    var target := Removed(c)[i];
    RemovedAreUnlinks(c, target);
    AppliedAt(t, hash, c, target);
    AncestorsExist(t, target, |d|);
    assert target[..|d|] == d;
    AppliedAt(t, hash, c, d);
  }

  /** Everything at or below `d` in the tree is an emptied candidate directory. */
  predicate Emptied(t: Tree, c: Contract, d: Path) {
    d in t && forall p :: p in t && d <= p ==> t[p].Dir? && Candidate(Removed(c), p)
  }

  /** The staged tree, path by path: writes are there, other unlinked files are gone, a directory is gone
      exactly when it and all below it are emptied candidates, and everything else is as it was. */
  lemma PostimageIsExact(t: Tree, hash: Raw -> string, c: Contract, p: Path)
    requires WellFormed(t) && Check(t, hash, c) && BelowFloors(Removed(c))
    ensures Written(Writes(c), p) ==> p in Staged(t, c) && Staged(t, c)[p] == Applied(t, c)[p] && Staged(t, c)[p].File?
    ensures !Written(Writes(c), p) && p in Unlinks(c) ==> p !in Staged(t, c)
    ensures !Written(Writes(c), p) && p !in Unlinks(c) ==>
              && (p in Staged(t, c) <==> p in t && !Emptied(Applied(t, c), c, p))
              && (p in Staged(t, c) ==> Staged(t, c)[p] == t[p])
  {
    AppliedAt(t, hash, c, p);
    PrunableIsEmptied(t, c, p);
  }

  lemma PrunableIsEmptied(t: Tree, c: Contract, p: Path)
    requires BelowFloors(Removed(c))
    ensures Prunable(Applied(t, c), CandidatesOf(Removed(c)), p) <==> Emptied(Applied(t, c), c, p)
  {
    forall d ensures d in CandidatesOf(Removed(c)) <==> Candidate(Removed(c), d) { CandidatesAre(Removed(c), d); }
  }

  /** With distinct write targets each written file has exactly its own content. */
  lemma WrittenContent(t: Tree, c: Contract, i: nat)
    requires i < |Writes(c)|
    requires forall j, k :: 0 <= j < k < |Writes(c)| ==> Writes(c)[j].path != Writes(c)[k].path
    ensures Writes(c)[i].path in Applied(t, c) && Applied(t, c)[Writes(c)[i].path] == File(Writes(c)[i].raw)
  {
    var p := Writes(c)[i].path;
    assert Written(Writes(c), p);
    PutAllWritten(Without(t, Members(Unlinks(c))), Writes(c), p);
  }

  /** No floor and no directory that is not a candidate is ever removed. */
  lemma OthersStay(t: Tree, hash: Raw -> string, c: Contract, d: Path)
    requires WellFormed(t) && Check(t, hash, c) && BelowFloors(Removed(c)) && d in t && t[d].Dir?
    ensures !Candidate(Removed(c), d) ==> d in Staged(t, c) && Staged(t, c)[d] == Dir
    ensures forall x :: d == Floor(x) ==> d in Staged(t, c)
  {
    PostimageIsExact(t, hash, c, d);
    AppliedAt(t, hash, c, d);
    forall x | d == Floor(x) ensures !Candidate(Removed(c), d) { FloorsAreProtected(Removed(c), x); }
  }

  // ---------------------------------------------------------------- contracts that pass the checks and fail later

  /** A contract that retires one manifest, and deletes what `deleted` lists. */
  function Retiring(p: Path, sha: string, deleted: seq<Item>): Contract {
    Contract([], [], [], [], Item(p, sha), deleted, [], [], [], [], NoPredecessor, [])
  }

  /** A contract may list its own manifest among the deleted files: it passes every check, and then unlinks
      the manifest twice. */
  lemma ManifestMayBeDeletedTwice(hash: Raw -> string, raw: Raw)
    ensures var t: Tree := map[[] := Dir, ["m.json"] := File(raw)];
            var c := Retiring(["m.json"], hash(raw), [Item(["m.json"], hash(raw))]);
            WellFormed(t) && Check(t, hash, c) && !Distinct(Unlinks(c))
  {
    var c := Retiring(["m.json"], hash(raw), [Item(["m.json"], hash(raw))]);
    assert Parent(["m.json"]) == [];
    assert Unlinks(c)[0] == ["m.json"] && Unlinks(c)[1] == ["m.json"];
  }

  /** A checkout that holds one file where a module root would be. */
  function RootFile(raw: Raw): Tree { map[[] := Dir, ["us"] := Dir, ["us", "statutes"] := File(raw)] }

  lemma RootFileIsWellFormed(raw: Raw)
    ensures WellFormed(RootFile(raw))
  {
    assert Parent(["us", "statutes"]) == ["us"] && Parent(["us"]) == [];
  }

  lemma OneRemoval(p: Path, sha: string)
    ensures Unlinks(Retiring(p, sha, [])) == [p] && Removed(Retiring(p, sha, [])) == [p]
  {
  }

  /** A retired file may be its own prune floor: it passes every check, is unlinked, and then fails. */
  lemma FloorMayBeRetired(hash: Raw -> string, raw: Raw)
    ensures var c := Retiring(["us", "statutes"], hash(raw), []);
            && WellFormed(RootFile(raw)) && Check(RootFile(raw), hash, c)
            && Distinct(Unlinks(c)) && !BelowFloors(Removed(c))
            && Applied(RootFile(raw), c) != RootFile(raw)
  {
    var p := ["us", "statutes"];
    var c := Retiring(p, hash(raw), []);
    RootFileIsWellFormed(raw);
    OneRemoval(p, hash(raw));
    assert Floor(p) == p;
    assert p in Members([p]) && p !in Applied(RootFile(raw), c) by { assert [p][0] == p; }
  }

  // ---------------------------------------------------------------- the checkout

  /** The path at `k` is the first that was named before. */
  predicate FirstRepeat(ps: seq<Path>, k: nat) { k < |ps| && Distinct(ps[..k]) && ps[k] in ps[..k] }

  /** Just the paths before the first repetition are gone. */
  predicate UnlinkedToRepeat(before: Tree, after: Tree, ps: seq<Path>) {
    exists k: nat :: k < |ps| && FirstRepeat(ps, k) && after == Without(before, Members(ps[..k]))
  }

  lemma FirstRepeatIsUnique(ps: seq<Path>, j: nat, k: nat)
    requires FirstRepeat(ps, j) && FirstRepeat(ps, k)
    ensures j == k
  {
    if j < k {
      NoRepeatWithin(ps, j, k);
    } else if k < j {
      NoRepeatWithin(ps, k, j);
    }
  }

  lemma NoRepeatWithin(ps: seq<Path>, j: nat, k: nat)
    requires j < k <= |ps| && Distinct(ps[..k])
    ensures ps[j] !in ps[..j]
  {
    forall i | 0 <= i < j ensures ps[..j][i] != ps[j] { assert ps[..k][i] != ps[..k][j]; }
  }

  class Checkout {
    const hash: Raw -> string
    var tree: Tree

    constructor (hash: Raw -> string, tree: Tree)
      ensures this.hash == hash && this.tree == tree
    {
      this.hash, this.tree := hash, tree;
    }

    method RequireAll(items: seq<Item>) returns (ok: bool)
      ensures ok <==> AllFound(tree, hash, items)
    {
      for i := 0 to |items|
        invariant forall k :: 0 <= k < i ==> Found(tree, hash, items[k])
      {
        if !Found(tree, hash, items[i]) { return false; }
      }
      return true;
    }

    method RequireRewrites(rs: seq<Rewrite>) returns (ok: bool)
      ensures ok <==> RewritesOk(tree, hash, rs)
    {
      for i := 0 to |rs|
        invariant forall k :: 0 <= k < i ==> RewriteOk(tree, hash, rs[k])
      {
        if !RewriteOk(tree, hash, rs[i]) { return false; }
      }
      return true;
    }

    method RequireDependents(ds: seq<Dependent>) returns (ok: bool)
      ensures ok <==> forall i :: 0 <= i < |ds| ==> DependentOk(tree, hash, ds[i])
    {
      for i := 0 to |ds|
        invariant forall k :: 0 <= k < i ==> DependentOk(tree, hash, ds[k])
      {
        if !Found(tree, hash, ds[i].manifest) { return false; }
        for j := 0 to |ds[i].live|
          invariant forall k :: 0 <= k < j ==> LiveOk(tree, hash, ds[i].legacy, ds[i].live[k])
        {
          if !LiveOk(tree, hash, ds[i].legacy, ds[i].live[j]) { return false; }
        }
      }
      return true;
    }

    method RequireSuccessors(ss: seq<Successor>) returns (ok: bool)
      ensures ok <==> forall i :: 0 <= i < |ss| ==> SuccessorOk(tree, hash, ss[i])
    {
      for i := 0 to |ss|
        invariant forall k :: 0 <= k < i ==> SuccessorOk(tree, hash, ss[k])
      {
        ok := RequireAll(ss[i].legacy);
        if !ok || !Found(tree, hash, ss[i].legacyManifest) || !Found(tree, hash, ss[i].manifest) { return false; }
        ok := RequireAll(ss[i].files);
        if !ok { return false; }
      }
      return true;
    }

    method CheckContract(c: Contract) returns (ok: bool)
      ensures ok <==> Check(tree, hash, c)
    {
      ok := RequireAll(c.deleted);
      if !ok || !Found(tree, hash, c.manifest) { return false; }
      ok := RequireRewrites(c.rewrites);
      if !ok { return false; }
      ok := RequireDependents(c.dependents);
      if !ok { return false; }
      ok := RequireSuccessors(c.successors);
      if !ok { return false; }
      ok := RequireRewrites(c.metadata);
      if !ok { return false; }
      if c.predecessors != [] && c.predecessorClass != UnownedDuplicate { return false; }
      if c.predecessors == [] && c.predecessorClass != NoPredecessor { return false; }
      ok := RequireAll(c.predecessors);
      if !ok { return false; }
      ok := c.source == c.destination || DestinationOk(tree, c);
    }

    /** Unlinks one file after the other; a file named twice is already gone the second time. */
    method UnlinkAll(ps: seq<Path>) returns (ok: bool)
      requires AllFiles(tree, ps)
      modifies this
      ensures ok <==> Distinct(ps)
      ensures ok ==> tree == Without(old(tree), Members(ps))
      ensures !ok ==> UnlinkedToRepeat(old(tree), tree, ps)
    {
      assert Without(tree, Members(ps[..0])) == tree;
      for i := 0 to |ps|
        invariant Distinct(ps[..i]) && tree == Without(old(tree), Members(ps[..i]))
      {
        assert ps[..i + 1] == ps[..i] + [ps[i]];
        if ps[i] !in tree {
          assert ps[i] in Members(ps[..i]);
          var k :| 0 <= k < i && ps[..i][k] == ps[i];
          assert ps[k] == ps[i];
          assert FirstRepeat(ps, i);
          return false;
        }
        assert ps[i] !in Members(ps[..i]);
        tree := Without(tree, {ps[i]});
        assert Members(ps[..i + 1]) == Members(ps[..i]) + {ps[i]};
      }
      assert ps[..|ps|] == ps;
      return true;
    }

    method WriteAll(ws: seq<Write>)
      modifies this
      ensures tree == PutAll(old(tree), ws)
    {
      for i := 0 to |ws|
        invariant tree == PutAll(old(tree), ws[..i])
      {
        assert ws[..i + 1][..i] == ws[..i];
        tree := tree[ws[i].path := File(ws[i].raw)];
      }
      assert ws[..|ws|] == ws;
    }

    method AddParents(floor: Path, target: Path, candidatesIn: set<Path>) returns (candidates: set<Path>)
      requires floor < target
      ensures candidates == candidatesIn + PathsBetween(floor, Parent(target))
    {
      candidates := candidatesIn;
      var parent := Parent(target);
      while parent != floor
        invariant floor <= parent
        invariant candidates + PathsBetween(floor, parent) == candidatesIn + PathsBetween(floor, Parent(target))
        decreases |parent|
      {
        candidates := candidates + {parent};
        parent := Parent(parent);
      }
    }

    method CollectCandidates(targets: seq<Path>) returns (ok: bool, candidates: set<Path>)
      ensures ok <==> BelowFloors(targets)
      ensures ok ==> candidates == CandidatesOf(targets)
    {
      candidates := {};
      for i := 0 to |targets|
        invariant BelowFloors(targets[..i]) && candidates == CandidatesOf(targets[..i])
      {
        assert targets[..i + 1] == targets[..i] + [targets[i]];
        assert targets[..i + 1][..i] == targets[..i];
        if Floor(targets[i]) == targets[i] { return false, {}; }
        candidates := AddParents(Floor(targets[i]), targets[i], candidates);
      }
      assert targets[..|targets|] == targets;
      ok := true;
    }

    /** Removes emptied directories, deepest first; fails before any removal if a target is its own floor. */
    method Prune(targets: seq<Path>) returns (ok: bool)
      requires WellFormed(tree)
      requires forall d :: Candidate(targets, d) && d in tree ==> tree[d].Dir?
      modifies this
      ensures ok <==> BelowFloors(targets)
      ensures tree == if BelowFloors(targets) then Pruned(old(tree), CandidatesOf(targets)) else old(tree)
    {
      var candidates;
      ok, candidates := CollectCandidates(targets);
      if !ok { return false; }
      var order := SortDeepestFirst(candidates);
      forall d | d in candidates && d in tree ensures tree[d].Dir? { CandidatesAre(targets, d); }
      PruningIsExact(tree, candidates, order);
      for i := 0 to |order|
        invariant tree == PruneAll(old(tree), order[..i])
      {
        assert order[..i + 1][..i] == order[..i];
        if order[i] in tree && tree[order[i]].Dir? && Empty(tree, order[i]) { tree := Without(tree, {order[i]}); }
      }
      assert order[..|order|] == order;
    }

    /** Stages the contract.  A failed check changes nothing; after the checks the staging completes exactly
        when no file is unlinked twice and no removed file is its own floor.  In the first case the files
        named before the first repetition are gone by then and nothing else has changed; in the second all
        files are unlinked and written. */
    method Stage(c: Contract) returns (ok: bool)
      requires WellFormed(tree)
      modifies this
      ensures !Check(old(tree), hash, c) ==> !ok && tree == old(tree)
      ensures Check(old(tree), hash, c) ==> (ok <==> Distinct(Unlinks(c)) && BelowFloors(Removed(c)))
      ensures ok ==> BelowFloors(Removed(c)) && tree == Staged(old(tree), c)
      ensures Check(old(tree), hash, c) && Distinct(Unlinks(c)) && !BelowFloors(Removed(c)) ==>
                !ok && tree == Applied(old(tree), c)
      ensures Check(old(tree), hash, c) && !Distinct(Unlinks(c)) ==> UnlinkedToRepeat(old(tree), tree, Unlinks(c))
    {
      ok := CheckContract(c);
      if !ok { return false; }
      UnlinksAreFiles(tree, hash, c);
      AppliedWellFormed(tree, hash, c);
      forall d | Candidate(Removed(c), d) ensures d in Applied(tree, c) && Applied(tree, c)[d].Dir? {
        CandidateIsDir(tree, hash, c, d);
      }
      ok := UnlinkAll(Unlinks(c));
      if !ok { return false; }
      WriteAll(Writes(c));
      ok := Prune(Removed(c));
    }
  }
}
