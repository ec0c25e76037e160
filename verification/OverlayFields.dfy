/** The staged tree in the terms of the contract: what each of its entries has become. */
module OverlayFields {
  import opened Collections
  import opened OverlayTree
  import opened ReplacementOverlay
  import opened OverlayStaging

  /** The contract gives the path this new content: as a rewrite, a dependent's live file or metadata. */
  predicate Rewrites(c: Contract, p: Path, raw: Raw) {
    || (exists i :: 0 <= i < |c.rewrites| && c.rewrites[i].path == p && c.rewrites[i].raw == raw)
    || (exists i, j :: 0 <= i < |c.dependents| && 0 <= j < |c.dependents[i].live| &&
          c.dependents[i].live[j].path == p && c.dependents[i].live[j].raw == raw)
    || (exists i :: 0 <= i < |c.metadata| && c.metadata[i].path == p && c.metadata[i].raw == raw)
  }

  predicate Lists(items: seq<Item>, p: Path) { exists i :: 0 <= i < |items| && items[i].path == p }

  /** The contract retires the path: as a deleted file, the manifest, a predecessor, or a retained successor's
      legacy file or manifest. */
  predicate Retires(c: Contract, p: Path) {
    || Lists(c.deleted, p) || c.manifest.path == p || Lists(c.predecessors, p)
    || (exists i :: 0 <= i < |c.successors| &&
                    (Lists(c.successors[i].legacy, p) || c.successors[i].legacyManifest.path == p))
  }

  // ---------------------------------------------------------------- the lists behind the staging

  lemma PathsList(items: seq<Item>, p: Path)
    ensures p in Paths(items) <==> Lists(items, p)
  {
    if i :| 0 <= i < |items| && items[i].path == p { assert Paths(items)[i] == p; }
  }

  lemma {:induction false} RetainedList(ss: seq<Successor>, p: Path)
    ensures p in RetainedPaths(ss) <==> exists i :: 0 <= i < |ss| && Lists(ss[i].legacy, p)
  {
    if ss != [] {
      var n := |ss| - 1;
      RetainedList(ss[..n], p);
      PathsList(ss[n].legacy, p);
      if i :| 0 <= i < n && Lists(ss[..n][i].legacy, p) { assert ss[..n][i] == ss[i]; }
      if i :| 0 <= i < |ss| && Lists(ss[i].legacy, p) {
        if i < n { assert ss[..n][i] == ss[i]; }
      }
    }
  }

  lemma ManifestsList(ss: seq<Successor>, p: Path)
    ensures p in RetainedManifests(ss) <==> exists i :: 0 <= i < |ss| && ss[i].legacyManifest.path == p
  {
    if i :| 0 <= i < |ss| && ss[i].legacyManifest.path == p { assert RetainedManifests(ss)[i] == p; }
  }

  lemma UnlinksRetire(c: Contract, p: Path)
    ensures p in Unlinks(c) <==> Retires(c, p)
  {
    PathsList(c.deleted, p);
    PathsList(c.predecessors, p);
    RetainedList(c.successors, p);
    ManifestsList(c.successors, p);
    InUnlinks(c, p);
  }

  lemma InUnlinks(c: Contract, p: Path)
    ensures p in Unlinks(c) <==>
            || p in Paths(c.deleted) || p in RetainedPaths(c.successors) || p in Paths(c.predecessors)
            || p == c.manifest.path || p in RetainedManifests(c.successors)
  {
  }

  predicate HasWrite(ws: seq<Write>, p: Path, raw: Raw) {
    exists i :: 0 <= i < |ws| && ws[i].path == p && ws[i].raw == raw
  }

  lemma HasWriteConcat(a: seq<Write>, b: seq<Write>, p: Path, raw: Raw)
    ensures HasWrite(a + b, p, raw) <==> HasWrite(a, p, raw) || HasWrite(b, p, raw)
  {
    if i :| 0 <= i < |a| && a[i].path == p && a[i].raw == raw { assert (a + b)[i] == a[i]; }
    if i :| 0 <= i < |b| && b[i].path == p && b[i].raw == raw { assert (a + b)[|a| + i] == b[i]; }
  }

  predicate RewritesTo(rs: seq<Rewrite>, p: Path, raw: Raw) {
    exists i :: 0 <= i < |rs| && rs[i].path == p && rs[i].raw == raw
  }

  lemma RewriteWritesAre(rs: seq<Rewrite>, p: Path, raw: Raw)
    ensures HasWrite(RewriteWrites(rs), p, raw) <==> RewritesTo(rs, p, raw)
  {
    if i :| 0 <= i < |rs| && rs[i].path == p && rs[i].raw == raw { assert RewriteWrites(rs)[i] == Write(p, raw); }
  }

  predicate LivesAs(d: Dependent, p: Path, raw: Raw) {
    exists j :: 0 <= j < |d.live| && d.live[j].path == p && d.live[j].raw == raw
  }

  lemma OneLive(live: seq<Live>, p: Path, raw: Raw)
    ensures HasWrite(seq(|live|, i requires 0 <= i < |live| => Write(live[i].path, live[i].raw)), p, raw) <==>
            exists j :: 0 <= j < |live| && live[j].path == p && live[j].raw == raw
  {
    var ws := seq(|live|, i requires 0 <= i < |live| => Write(live[i].path, live[i].raw));
    if j :| 0 <= j < |live| && live[j].path == p && live[j].raw == raw { assert ws[j] == Write(p, raw); }
  }

  lemma {:induction false} LiveWritesAre(ds: seq<Dependent>, p: Path, raw: Raw)
    ensures HasWrite(LiveWrites(ds), p, raw) <==> exists i :: 0 <= i < |ds| && LivesAs(ds[i], p, raw)
  {
    if ds != [] {
      var n := |ds| - 1;
      var live := ds[n].live;
      LiveWritesAre(ds[..n], p, raw);
      OneLive(live, p, raw);
      var more := seq(|live|, i requires 0 <= i < |live| => Write(live[i].path, live[i].raw));
      HasWriteConcat(LiveWrites(ds[..n]), more, p, raw);
      if i :| 0 <= i < n && LivesAs(ds[..n][i], p, raw) { assert ds[..n][i] == ds[i]; }
      if i :| 0 <= i < |ds| && LivesAs(ds[i], p, raw) {
        if i < n { assert ds[..n][i] == ds[i]; }
      }
    }
  }

  lemma WritesRewrite(c: Contract, p: Path, raw: Raw)
    ensures HasWrite(Writes(c), p, raw) <==> Rewrites(c, p, raw)
  {
    RewriteWritesAre(c.rewrites, p, raw);
    LiveWritesAre(c.dependents, p, raw);
    RewriteWritesAre(c.metadata, p, raw);
    HasWriteConcat(RewriteWrites(c.rewrites), LiveWrites(c.dependents), p, raw);
    HasWriteConcat(RewriteWrites(c.rewrites) + LiveWrites(c.dependents), RewriteWrites(c.metadata), p, raw);
    if i :| 0 <= i < |c.dependents| && LivesAs(c.dependents[i], p, raw) {
      var j :| 0 <= j < |c.dependents[i].live| && c.dependents[i].live[j].path == p &&
               c.dependents[i].live[j].raw == raw;
    }
    if i, j :| 0 <= i < |c.dependents| && 0 <= j < |c.dependents[i].live| &&
               c.dependents[i].live[j].path == p && c.dependents[i].live[j].raw == raw {
      assert LivesAs(c.dependents[i], p, raw);
    }
  }

  // ---------------------------------------------------------------- the postimage, entry by entry

  /** No path is given two contents, and none is both given content and retired. */
  ghost predicate Consistent(c: Contract) {
    && (forall p, raw, other :: Rewrites(c, p, raw) && Rewrites(c, p, other) ==> raw == other)
    && (forall p, raw :: Rewrites(c, p, raw) ==> !Retires(c, p))
  }

  lemma RewrittenIsThere(t: Tree, hash: Raw -> string, c: Contract, p: Path, raw: Raw)
    requires WellFormed(t) && Check(t, hash, c) && BelowFloors(Removed(c)) && Rewrites(c, p, raw)
    requires forall other :: Rewrites(c, p, other) ==> other == raw
    ensures p in Staged(t, c) && Staged(t, c)[p] == File(raw)
  {
    WritesRewrite(c, p, raw);
    assert Written(Writes(c), p);
    PostimageIsExact(t, hash, c, p);
    PutAllWritten(Without(t, Members(Unlinks(c))), Writes(c), p);
    var i :| 0 <= i < |Writes(c)| && Writes(c)[i].path == p && Applied(t, c)[p].raw == Writes(c)[i].raw;
    assert HasWrite(Writes(c), p, Writes(c)[i].raw);
    WritesRewrite(c, p, Writes(c)[i].raw);
  }

  /** In the contract's own entries: every rewrite, live file and metadata file is in the staged tree with
      exactly its content; every retired file is gone; any other file is as it was; and nothing is new. */
  lemma StagedEntries(t: Tree, hash: Raw -> string, c: Contract, p: Path)
    requires WellFormed(t) && Check(t, hash, c) && BelowFloors(Removed(c)) && Consistent(c)
    ensures forall raw :: Rewrites(c, p, raw) ==> p in Staged(t, c) && Staged(t, c)[p] == File(raw)
    ensures Retires(c, p) ==> p !in Staged(t, c)
    ensures (forall raw :: !Rewrites(c, p, raw)) && !Retires(c, p) && p in t && !t[p].Dir? ==>
              p in Staged(t, c) && Staged(t, c)[p] == t[p]
    ensures p in Staged(t, c) ==> p in t
  {
    forall raw | Rewrites(c, p, raw) ensures p in Staged(t, c) && Staged(t, c)[p] == File(raw) {
      RewrittenIsThere(t, hash, c, p, raw);
    }
    UnlinksRetire(c, p);
    PostimageIsExact(t, hash, c, p);
    AppliedAt(t, hash, c, p);
    if i :| 0 <= i < |Writes(c)| && Writes(c)[i].path == p {
      assert HasWrite(Writes(c), p, Writes(c)[i].raw);
      WritesRewrite(c, p, Writes(c)[i].raw);
    }
  }

  // ---------------------------------------------------------------- what the checks authenticate

  predicate Authentic(t: Tree, hash: Raw -> string, item: Item) {
    item.path in t && t[item.path].File? && hash(t[item.path].raw) == item.sha
  }

  /** A contract that passes retires only regular files of the digests it names, and rewrites only such
      files, to content of the digest it names. */
  lemma CheckAuthenticates(t: Tree, hash: Raw -> string, c: Contract)
    requires Check(t, hash, c)
    ensures Authentic(t, hash, c.manifest)
    ensures forall i :: 0 <= i < |c.deleted| ==> Authentic(t, hash, c.deleted[i])
    ensures forall i :: 0 <= i < |c.predecessors| ==> Authentic(t, hash, c.predecessors[i])
    ensures forall i :: 0 <= i < |c.rewrites| ==>
              Authentic(t, hash, Item(c.rewrites[i].path, c.rewrites[i].before)) &&
              hash(c.rewrites[i].raw) == c.rewrites[i].after
    ensures forall i :: 0 <= i < |c.metadata| ==>
              Authentic(t, hash, Item(c.metadata[i].path, c.metadata[i].before)) &&
              hash(c.metadata[i].raw) == c.metadata[i].after
    ensures forall i, j :: 0 <= i < |c.successors| && 0 <= j < |c.successors[i].legacy| ==>
              Authentic(t, hash, c.successors[i].legacy[j])
    ensures forall i :: 0 <= i < |c.successors| ==>
              Authentic(t, hash, c.successors[i].legacyManifest) && Authentic(t, hash, c.successors[i].manifest)
    ensures forall i, j :: 0 <= i < |c.dependents| && 0 <= j < |c.dependents[i].live| ==>
              hash(c.dependents[i].live[j].raw) == c.dependents[i].live[j].sha &&
              exists k :: 0 <= k < |c.dependents[i].legacy| &&
                c.dependents[i].legacy[k].path == c.dependents[i].live[j].path &&
                Authentic(t, hash, c.dependents[i].legacy[k])
  {
    forall i | 0 <= i < |c.rewrites| ensures RewriteOk(t, hash, c.rewrites[i]) { }
    forall i | 0 <= i < |c.metadata| ensures RewriteOk(t, hash, c.metadata[i]) { }
    forall i | 0 <= i < |c.successors| ensures SuccessorOk(t, hash, c.successors[i]) { }
    forall i, j | 0 <= i < |c.dependents| && 0 <= j < |c.dependents[i].live|
      ensures hash(c.dependents[i].live[j].raw) == c.dependents[i].live[j].sha &&
              exists k :: 0 <= k < |c.dependents[i].legacy| &&
                c.dependents[i].legacy[k].path == c.dependents[i].live[j].path &&
                Authentic(t, hash, c.dependents[i].legacy[k])
    {
      assert DependentOk(t, hash, c.dependents[i]);
      assert LiveOk(t, hash, c.dependents[i].legacy, c.dependents[i].live[j]);
      ByPathListed(c.dependents[i].legacy, c.dependents[i].live[j].path);
    }
  }

  lemma {:induction false} ByPathListed(items: seq<Item>, p: Path)
    ensures ByPath(items, p).Some? ==>
              exists k :: 0 <= k < |items| && items[k].path == p && items[k] == ByPath(items, p).value
  {
    if items != [] && items[|items| - 1].path != p {
      ByPathListed(items[..|items| - 1], p);
      if ByPath(items, p).Some? {
        var k :| 0 <= k < |items| - 1 && items[..|items| - 1][k].path == p &&
                 items[..|items| - 1][k] == ByPath(items, p).value;
        assert items[k] == ByPath(items, p).value;
      }
    }
  }

  /** A module's root directory, below a jurisdiction or below the manifests of one, is never removed. */
  lemma ModuleRootsStay(t: Tree, hash: Raw -> string, c: Contract, jurisdiction: string, root: string)
    requires WellFormed(t) && Check(t, hash, c) && BelowFloors(Removed(c))
    requires root == "legislation" || root == "policies" || root == "regulations" || root == "statutes"
    ensures var d := [jurisdiction, root]; d in t && t[d].Dir? ==> d in Staged(t, c)
    ensures var d := [".axiom", "encoding-manifests", jurisdiction, root]; d in t && t[d].Dir? ==> d in Staged(t, c)
  {
    var d, e := [jurisdiction, root], [".axiom", "encoding-manifests", jurisdiction, root];
    assert Floor(d) == d && Floor(e) == e;
    if d in t && t[d].Dir? { OthersStay(t, hash, c, d); }
    if e in t && t[e].Dir? { OthersStay(t, hash, c, e); }
  }
}
