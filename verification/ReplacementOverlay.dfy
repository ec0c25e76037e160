/**
 Staging an authenticated replacement on an isolated checkout: every input is checked first, then files are
 unlinked and rewritten, then emptied directories are pruned.
 */
module ReplacementOverlay {
  import opened Common
  import opened OverlayTree

  /** A file with the digest it must have. */
  datatype Item = Item(path: Path, sha: string)

  datatype Rewrite = Rewrite(path: Path, before: string, after: string, raw: Raw)

  datatype Live = Live(path: Path, sha: string, raw: Raw)

  datatype Dependent = Dependent(manifest: Item, legacy: seq<Item>, live: seq<Live>)

  datatype Successor = Successor(legacy: seq<Item>, legacyManifest: Item, manifest: Item, files: seq<Item>)

  datatype PredecessorClass = NoPredecessor | UnownedDuplicate | OtherClass

  datatype Contract = Contract(
    source: Path, destination: Path, companion: Path, destinationManifest: Path,
    manifest: Item, deleted: seq<Item>, rewrites: seq<Rewrite>, dependents: seq<Dependent>,
    successors: seq<Successor>, metadata: seq<Rewrite>,
    predecessorClass: PredecessorClass, predecessors: seq<Item>)

  // ---------------------------------------------------------------- the checks

  predicate SafePath(p: Path) {
    p != [] && forall i :: 0 <= i < |p| ==> p[i] != "" && p[i] != "." && p[i] != ".."
  }

  /** The item is a regular file with the expected digest. */
  predicate Found(t: Tree, hash: Raw -> string, item: Item) {
    SafePath(item.path) && item.path in t && t[item.path].File? && hash(t[item.path].raw) == item.sha
  }

  predicate AllFound(t: Tree, hash: Raw -> string, items: seq<Item>) {
    forall i :: 0 <= i < |items| ==> Found(t, hash, items[i])
  }

  predicate RewriteOk(t: Tree, hash: Raw -> string, r: Rewrite) {
    Found(t, hash, Item(r.path, r.before)) && hash(r.raw) == r.after
  }

  predicate RewritesOk(t: Tree, hash: Raw -> string, rs: seq<Rewrite>) {
    forall i :: 0 <= i < |rs| ==> RewriteOk(t, hash, rs[i])
  }

  function ByPath(items: seq<Item>, p: Path): Option<Item> {
    if items == [] then None
    else if items[|items| - 1].path == p then Some(items[|items| - 1]) else ByPath(items[..|items| - 1], p)
  }

  predicate LiveOk(t: Tree, hash: Raw -> string, legacy: seq<Item>, live: Live) {
    var item := ByPath(legacy, live.path);
    item.Some? && Found(t, hash, item.value) && hash(live.raw) == live.sha
  }

  predicate DependentOk(t: Tree, hash: Raw -> string, d: Dependent) {
    Found(t, hash, d.manifest) && forall i :: 0 <= i < |d.live| ==> LiveOk(t, hash, d.legacy, d.live[i])
  }

  predicate SuccessorOk(t: Tree, hash: Raw -> string, s: Successor) {
    && AllFound(t, hash, s.legacy) && Found(t, hash, s.legacyManifest)
    && Found(t, hash, s.manifest) && AllFound(t, hash, s.files)
  }

  predicate IsPredecessor(c: Contract, p: Path) { exists i :: 0 <= i < |c.predecessors| && c.predecessors[i].path == p }

  /** The destination's files are absent, or admitted predecessors led by the destination itself. */
  predicate DestinationOk(t: Tree, c: Contract) {
    c.source != c.destination ==>
      && SafePath(c.destination) && SafePath(c.destinationManifest)
      && (c.predecessors != [] ==> IsPredecessor(c, c.destination))
      && (forall i :: 0 <= i < |c.predecessors| ==>
            c.predecessors[i].path == c.destination || c.predecessors[i].path == c.companion)
      && (forall p :: p == c.destination || p == c.companion || p == c.destinationManifest ==>
            IsPredecessor(c, p) || p !in t)
  }

  predicate Check(t: Tree, hash: Raw -> string, c: Contract) {
    && AllFound(t, hash, c.deleted) && Found(t, hash, c.manifest) && RewritesOk(t, hash, c.rewrites)
    && (forall i :: 0 <= i < |c.dependents| ==> DependentOk(t, hash, c.dependents[i]))
    && (forall i :: 0 <= i < |c.successors| ==> SuccessorOk(t, hash, c.successors[i]))
    && RewritesOk(t, hash, c.metadata)
    && c.predecessorClass == (if c.predecessors == [] then NoPredecessor else UnownedDuplicate)
    && AllFound(t, hash, c.predecessors) && DestinationOk(t, c)
  }

  // ---------------------------------------------------------------- what is removed and written

  function Paths(items: seq<Item>): seq<Path> { seq(|items|, i requires 0 <= i < |items| => items[i].path) }

  function RetainedPaths(ss: seq<Successor>): seq<Path> {
    if ss == [] then [] else RetainedPaths(ss[..|ss| - 1]) + Paths(ss[|ss| - 1].legacy)
  }

  function RetainedManifests(ss: seq<Successor>): seq<Path> {
    seq(|ss|, i requires 0 <= i < |ss| => ss[i].legacyManifest.path)
  }

  /** The unlinked files, in the order in which they are unlinked. */
  function Unlinks(c: Contract): seq<Path> {
    Paths(c.deleted) + RetainedPaths(c.successors) + Paths(c.predecessors) + [c.manifest.path] +
    RetainedManifests(c.successors)
  }

  /** The same files, in the order in which their directories are considered. */
  function Removed(c: Contract): seq<Path> {
    Paths(c.deleted) + [c.manifest.path] + RetainedPaths(c.successors) + RetainedManifests(c.successors) +
    Paths(c.predecessors)
  }

  datatype Write = Write(path: Path, raw: Raw)

  function RewriteWrites(rs: seq<Rewrite>): seq<Write> {
    seq(|rs|, i requires 0 <= i < |rs| => Write(rs[i].path, rs[i].raw))
  }

  function LiveWrites(ds: seq<Dependent>): seq<Write> {
    if ds == [] then []
    else
      var live := ds[|ds| - 1].live;
      LiveWrites(ds[..|ds| - 1]) + seq(|live|, i requires 0 <= i < |live| => Write(live[i].path, live[i].raw))
  }

  function Writes(c: Contract): seq<Write> {
    RewriteWrites(c.rewrites) + LiveWrites(c.dependents) + RewriteWrites(c.metadata)
  }

  function PutAll(t: Tree, ws: seq<Write>): Tree {
    if ws == [] then t
    else PutAll(t, ws[..|ws| - 1])[ws[|ws| - 1].path := File(ws[|ws| - 1].raw)]
  }

  /** No removed file is its own prune floor. */
  predicate BelowFloors(ps: seq<Path>) { forall i :: 0 <= i < |ps| ==> Floor(ps[i]) < ps[i] }

  function Members(ps: seq<Path>): set<Path> { set i | 0 <= i < |ps| :: ps[i] }

  /** The tree once files are unlinked and written. */
  function Applied(t: Tree, c: Contract): Tree { PutAll(Without(t, Members(Unlinks(c))), Writes(c)) }

  /** The staged tree. */
  function Staged(t: Tree, c: Contract): Tree
    requires BelowFloors(Removed(c))
  {
    Pruned(Applied(t, c), CandidatesOf(Removed(c)))
  }

  // ---------------------------------------------------------------- files stay files

  predicate AllFiles(t: Tree, ps: seq<Path>) { forall i :: 0 <= i < |ps| ==> ps[i] in t && t[ps[i]].File? }

  predicate WritesFiles(t: Tree, ws: seq<Write>) {
    forall i :: 0 <= i < |ws| ==> ws[i].path in t && t[ws[i].path].File?
  }

  lemma PathsFound(t: Tree, hash: Raw -> string, items: seq<Item>)
    requires AllFound(t, hash, items)
    ensures AllFiles(t, Paths(items))
  {
    forall i | 0 <= i < |items| ensures Paths(items)[i] in t && t[Paths(items)[i]].File? {
      assert Found(t, hash, items[i]);
    }
  }

  lemma AllFilesConcat(t: Tree, a: seq<Path>, b: seq<Path>)
    requires AllFiles(t, a) && AllFiles(t, b)
    ensures AllFiles(t, a + b)
  {
  }

  lemma {:induction false} RetainedFound(t: Tree, hash: Raw -> string, ss: seq<Successor>)
    requires forall i :: 0 <= i < |ss| ==> SuccessorOk(t, hash, ss[i])
    ensures AllFiles(t, RetainedPaths(ss)) && AllFiles(t, RetainedManifests(ss))
  {
    if ss != [] {
      var n := |ss| - 1;
      RetainedFound(t, hash, ss[..n]);
      assert SuccessorOk(t, hash, ss[n]);
      PathsFound(t, hash, ss[n].legacy);
      AllFilesConcat(t, RetainedPaths(ss[..n]), Paths(ss[n].legacy));
      forall i | 0 <= i < |ss| ensures RetainedManifests(ss)[i] in t && t[RetainedManifests(ss)[i]].File? {
        assert SuccessorOk(t, hash, ss[i]);
      }
    }
  }

  lemma UnlinksAreFiles(t: Tree, hash: Raw -> string, c: Contract)
    requires Check(t, hash, c)
    ensures AllFiles(t, Unlinks(c))
  {
    PathsFound(t, hash, c.deleted);
    PathsFound(t, hash, c.predecessors);
    RetainedFound(t, hash, c.successors);
    var a, b := Paths(c.deleted), RetainedPaths(c.successors);
    AllFilesConcat(t, a, b);
    AllFilesConcat(t, a + b, Paths(c.predecessors));
    AllFilesConcat(t, a + b + Paths(c.predecessors), [c.manifest.path]);
    AllFilesConcat(t, a + b + Paths(c.predecessors) + [c.manifest.path], RetainedManifests(c.successors));
  }

  lemma RemovedAreUnlinks(c: Contract, p: Path)
    ensures p in Unlinks(c) <==> p in Removed(c)
  {
  }

  lemma RewritesAreFiles(t: Tree, hash: Raw -> string, rs: seq<Rewrite>)
    requires RewritesOk(t, hash, rs)
    ensures WritesFiles(t, RewriteWrites(rs))
  {
    forall i | 0 <= i < |rs| ensures RewriteWrites(rs)[i].path in t && t[RewriteWrites(rs)[i].path].File? {
      assert RewriteOk(t, hash, rs[i]);
    }
  }

  lemma {:induction false} ByPathIs(items: seq<Item>, p: Path)
    ensures ByPath(items, p).Some? ==> ByPath(items, p).value.path == p
  {
    if items != [] { ByPathIs(items[..|items| - 1], p); }
  }

  lemma {:induction false} LiveAreFiles(t: Tree, hash: Raw -> string, ds: seq<Dependent>)
    requires forall i :: 0 <= i < |ds| ==> DependentOk(t, hash, ds[i])
    ensures WritesFiles(t, LiveWrites(ds))
  {
    if ds != [] {
      var n := |ds| - 1;
      LiveAreFiles(t, hash, ds[..n]);
      var d := ds[n];
      assert DependentOk(t, hash, d);
      forall i | 0 <= i < |d.live| ensures d.live[i].path in t && t[d.live[i].path].File? {
        assert LiveOk(t, hash, d.legacy, d.live[i]);
        ByPathIs(d.legacy, d.live[i].path);
      }
    }
  }

  lemma WritesAreFiles(t: Tree, hash: Raw -> string, c: Contract)
    requires Check(t, hash, c)
    ensures WritesFiles(t, Writes(c))
  {
    RewritesAreFiles(t, hash, c.rewrites);
    LiveAreFiles(t, hash, c.dependents);
    RewritesAreFiles(t, hash, c.metadata);
  }
}
