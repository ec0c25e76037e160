/**
 The inventory of a corpus release: scopes, artifacts and projection evidence, the checks that tie them
 together, and the resolver's selection of one provisions file per scope.
 */
module ReleaseInventory {
  import opened Common
  import opened Collections
  import opened PathText

  datatype Identity = Identity(jurisdiction: string, documentClass: string, version: string)

  /** Digests of the two projections of a scope. */
  datatype Digests = Digests(provision: string, navigation: string)

  datatype Scope = Scope(id: Identity, rows: int, navigationRows: int, digests: Digests)

  datatype Class = Inventory | Provisions | Coverage | Sources

  datatype Artifact = Artifact(cls: Class, path: string, rows: Option<int>, sha: string, bytes: int, bucket: string,
                               key: string)

  /** What a projection shows: row count and digests. */
  datatype Shown = Shown(rows: int, navigationRows: int, digests: Digests)

  /** A row of projection evidence: the scope it names, what was expected and what was found. */
  datatype Projection = Projection(id: Identity, expected: Shown, actual: Shown)

  // ---------------------------------------------------------------- names and paths

  predicate NameStart(c: char) { 'a' <= c <= 'z' || '0' <= c <= '9' }

  predicate IsComponent(s: string) {
    && 1 <= |s| <= 256 && NameStart(s[0])
    && forall i :: 0 <= i < |s| ==> NameStart(s[i]) || s[i] == '.' || s[i] == '_' || s[i] == '-'
  }

  function ClassName(c: Class): string {
    match c
    case Inventory => "inventory"
    case Provisions => "provisions"
    case Coverage => "coverage"
    case Sources => "sources"
  }

  /** A path below the class's root. */
  function InClass(c: Class, rest: string): string { Under("data", Under("corpus", Under(ClassName(c), rest))) }

  function InScope(id: Identity, rest: string): string { Under(id.jurisdiction, Under(id.documentClass, rest)) }

  function Suffix(c: Class): string { if c == Provisions then ".jsonl" else ".json" }

  /** The one path of a scope's inventory, provisions or coverage. */
  function RequiredPath(c: Class, id: Identity): string { InClass(c, InScope(id, id.version + Suffix(c))) }

  function SourceRoot(id: Identity): string { InClass(Sources, InScope(id, Under(id.version, ""))) }

  /** The paths of a scope, written out. */
  lemma PathsWrittenOut(id: Identity)
    ensures var scope := id.jurisdiction + "/" + id.documentClass + "/";
            && RequiredPath(Inventory, id) == "data/corpus/" + "inventory" + "/" + (scope + (id.version + ".json"))
            && RequiredPath(Provisions, id) == "data/corpus/" + "provisions" + "/" + (scope + (id.version + ".jsonl"))
            && RequiredPath(Coverage, id) == "data/corpus/" + "coverage" + "/" + (scope + (id.version + ".json"))
            && SourceRoot(id) == "data/corpus/" + "sources" + "/" + (scope + (id.version + "/" + ""))
  {
    PathWrittenOut(Inventory, id, id.version + ".json");
    PathWrittenOut(Provisions, id, id.version + ".jsonl");
    PathWrittenOut(Coverage, id, id.version + ".json");
    PathWrittenOut(Sources, id, id.version + "/" + "");
  }

  lemma PathWrittenOut(c: Class, id: Identity, tail: string)
    ensures InClass(c, InScope(id, tail)) ==
            "data/corpus/" + ClassName(c) + "/" + (id.jurisdiction + "/" + id.documentClass + "/" + tail)
  {
    assert InScope(id, tail) == id.jurisdiction + "/" + id.documentClass + "/" + tail;
    assert "data/corpus/" == "data" + "/" + "corpus" + "/";
  }

  predicate IdentityOk(id: Identity) {
    IsComponent(id.jurisdiction) && IsComponent(id.documentClass) && IsComponent(id.version)
  }

  lemma ComponentsAreSlashFree(id: Identity)
    requires IdentityOk(id)
    ensures SlashFree(id.jurisdiction) && SlashFree(id.documentClass) && SlashFree(id.version)
  {
  }

  lemma ClassIsSlashFree(c: Class)
    ensures SlashFree("data") && SlashFree("corpus") && SlashFree(ClassName(c))
  {
  }

  lemma InClassSplits(c: Class, x: string, y: string)
    requires InClass(c, x) == InClass(c, y)
    ensures x == y
  {
    ClassIsSlashFree(c);
    SlashSplits("data", Under("corpus", Under(ClassName(c), x)), "data", Under("corpus", Under(ClassName(c), y)));
    SlashSplits("corpus", Under(ClassName(c), x), "corpus", Under(ClassName(c), y));
    SlashSplits(ClassName(c), x, ClassName(c), y);
  }

  lemma InScopeSplits(a: Identity, x: string, b: Identity, y: string)
    requires IdentityOk(a) && IdentityOk(b) && InScope(a, x) == InScope(b, y)
    ensures a.jurisdiction == b.jurisdiction && a.documentClass == b.documentClass && x == y
  {
    ComponentsAreSlashFree(a);
    ComponentsAreSlashFree(b);
    SlashSplits(a.jurisdiction, Under(a.documentClass, x), b.jurisdiction, Under(b.documentClass, y));
    SlashSplits(a.documentClass, x, b.documentClass, y);
  }

  /** Different scopes have different required paths. */
  lemma RequiredPathIsInjective(c: Class, a: Identity, b: Identity)
    requires IdentityOk(a) && IdentityOk(b) && RequiredPath(c, a) == RequiredPath(c, b)
    ensures a == b
  {
    InClassSplits(c, InScope(a, a.version + Suffix(c)), InScope(b, b.version + Suffix(c)));
    InScopeSplits(a, a.version + Suffix(c), b, b.version + Suffix(c));
    assert a.version == (a.version + Suffix(c))[..|a.version|];
    assert b.version == (b.version + Suffix(c))[..|b.version|];
  }

  lemma SourceRootExtends(id: Identity, path: string)
    requires SourceRoot(id) <= path
    ensures path == InClass(Sources, InScope(id, Under(id.version, path[|SourceRoot(id)|..])))
  {
    assert path == SourceRoot(id) + path[|SourceRoot(id)|..];
  }

  /** Different scopes have disjoint source trees. */
  lemma SourceRootsAreDisjoint(a: Identity, b: Identity, path: string)
    requires IdentityOk(a) && IdentityOk(b) && SourceRoot(a) <= path && SourceRoot(b) <= path
    ensures a == b
  {
    SourceRootExtends(a, path);
    SourceRootExtends(b, path);
    var x, y := path[|SourceRoot(a)|..], path[|SourceRoot(b)|..];
    InClassSplits(Sources, InScope(a, Under(a.version, x)), InScope(b, Under(b.version, y)));
    InScopeSplits(a, Under(a.version, x), b, Under(b.version, y));
    ComponentsAreSlashFree(a);
    ComponentsAreSlashFree(b);
    SlashSplits(a.version, x, b.version, y);
  }

  // ---------------------------------------------------------------- the checks

  predicate IsDocumentClass(s: string) {
    s == "district-plan" || s == "statute" || s == "regulation" || s == "guidance" || s == "policy" || s == "manual" ||
    s == "form" || s == "rulemaking" || s == "other"
  }

  predicate IsHex(c: char) { '0' <= c <= '9' || 'a' <= c <= 'f' }

  predicate IsSha256(s: string) { |s| == 64 && forall i :: 0 <= i < |s| ==> IsHex(s[i]) }

  predicate DetailsOk(s: Scope) {
    && IsDocumentClass(s.id.documentClass) && s.rows > 0 && s.navigationRows == s.rows
    && IsSha256(s.digests.provision) && IsSha256(s.digests.navigation)
  }

  predicate AllDetailsOk(scopes: seq<Scope>) { All(scopes, (s: Scope) => DetailsOk(s)) }

  lemma DetailsSnoc(scopes: seq<Scope>, i: nat)
    requires i < |scopes|
    ensures AllDetailsOk(scopes[..i + 1]) <==> AllDetailsOk(scopes[..i]) && DetailsOk(scopes[i])
    ensures AllDetailsOk(scopes) ==> DetailsOk(scopes[i])
  {
    assert scopes[..i + 1][..i] == scopes[..i];
    AllAt(scopes, (s: Scope) => DetailsOk(s));
  }

  predicate ScopesOk(scopes: seq<Scope>) {
    && (forall i :: 0 <= i < |scopes| ==> IdentityOk(scopes[i].id)) && AllDetailsOk(scopes)
    && (forall i, j :: 0 <= i < j < |scopes| ==> scopes[i].id != scopes[j].id)
  }

  /** A path that is absolute, uses a backslash or has an empty or relative part. */
  predicate Unsafe(path: string) {
    || (path != [] && path[0] == '/')
    || (exists i :: 0 <= i < |path| && path[i] == ESCAPE)
    || (exists k :: 0 <= k < |Split(path)| && (Split(path)[k] == "" || Split(path)[k] == "." || Split(path)[k] == ".."))
  }

  predicate ArtifactOk(a: Artifact, bucket: string) {
    && InClass(a.cls, "") <= a.path && !Unsafe(a.path) && IsSha256(a.sha)
    && a.key == "objects/sha256/" + a.sha[..2] + "/" + a.sha && a.bucket == bucket && a.bytes >= 0
    && (a.cls == Provisions <==> a.rows.Some?) && (a.rows.Some? ==> a.rows.value > 0)
  }

  predicate EachOk(artifacts: seq<Artifact>, bucket: string) { All(artifacts, (a: Artifact) => ArtifactOk(a, bucket)) }

  lemma EachOkSnoc(artifacts: seq<Artifact>, bucket: string, i: nat)
    requires i < |artifacts|
    ensures EachOk(artifacts[..i + 1], bucket) <==> EachOk(artifacts[..i], bucket) && ArtifactOk(artifacts[i], bucket)
    ensures EachOk(artifacts, bucket) ==> ArtifactOk(artifacts[i], bucket)
  {
    assert artifacts[..i + 1][..i] == artifacts[..i];
    AllAt(artifacts, (a: Artifact) => ArtifactOk(a, bucket));
  }

  predicate DistinctPaths(artifacts: seq<Artifact>) {
    forall i, j :: 0 <= i < j < |artifacts| ==> artifacts[i].path != artifacts[j].path
  }

  /** No path is less than the one before it. */
  predicate InPathOrder(artifacts: seq<Artifact>) {
    forall i :: 0 < i < |artifacts| ==> !TextOrder()(artifacts[i].path, artifacts[i - 1].path)
  }

  predicate ArtifactsOk(artifacts: seq<Artifact>, bucket: string) {
    EachOk(artifacts, bucket) && DistinctPaths(artifacts) && InPathOrder(artifacts)
  }

  /** The artifact is the scope's inventory, provisions or coverage, or one of its sources. */
  predicate Belongs(s: Scope, a: Artifact) {
    if a.cls == Sources then SourceRoot(s.id) <= a.path else a.path == RequiredPath(a.cls, s.id)
  }

  predicate Provides(artifacts: seq<Artifact>, c: Class, path: string) {
    exists k :: 0 <= k < |artifacts| && artifacts[k].cls == c && artifacts[k].path == path
  }

  predicate ProvidesRows(artifacts: seq<Artifact>, path: string, rows: int) {
    exists k :: 0 <= k < |artifacts| &&
      artifacts[k].cls == Provisions && artifacts[k].path == path && artifacts[k].rows == Some(rows)
  }

  predicate ScopeComplete(s: Scope, artifacts: seq<Artifact>) {
    && Provides(artifacts, Inventory, RequiredPath(Inventory, s.id))
    && Provides(artifacts, Coverage, RequiredPath(Coverage, s.id))
    && ProvidesRows(artifacts, RequiredPath(Provisions, s.id), s.rows)
    && (exists k :: 0 <= k < |artifacts| && artifacts[k].cls == Sources && Belongs(s, artifacts[k]))
  }

  predicate Owned(a: Artifact, scopes: seq<Scope>) { exists i :: 0 <= i < |scopes| && Belongs(scopes[i], a) }

  predicate AllScopesComplete(scopes: seq<Scope>, artifacts: seq<Artifact>) {
    All(scopes, (s: Scope) => ScopeComplete(s, artifacts))
  }

  predicate AllOwned(artifacts: seq<Artifact>, scopes: seq<Scope>) {
    All(artifacts, (a: Artifact) => Owned(a, scopes))
  }

  lemma CompleteAt(scopes: seq<Scope>, artifacts: seq<Artifact>)
    ensures AllScopesComplete(scopes, artifacts) <==>
            forall i :: 0 <= i < |scopes| ==> ScopeComplete(scopes[i], artifacts)
  {
    AllAt(scopes, (s: Scope) => ScopeComplete(s, artifacts));
  }

  lemma OwnedAt(artifacts: seq<Artifact>, scopes: seq<Scope>)
    ensures AllOwned(artifacts, scopes) <==> forall k :: 0 <= k < |artifacts| ==> Owned(artifacts[k], scopes)
  {
    AllAt(artifacts, (a: Artifact) => Owned(a, scopes));
  }

  predicate MembershipOk(scopes: seq<Scope>, artifacts: seq<Artifact>) {
    AllScopesComplete(scopes, artifacts) && AllOwned(artifacts, scopes)
  }

  function ScopeOf(scopes: seq<Scope>, id: Identity): Option<Scope> {
    if scopes == [] then None
    else if scopes[|scopes| - 1].id == id then Some(scopes[|scopes| - 1]) else ScopeOf(scopes[..|scopes| - 1], id)
  }

  /** The scope as every projection of it must show it. */
  function ShownBy(s: Scope): Shown { Shown(s.rows, s.rows, s.digests) }

  predicate ProjectionOk(scopes: seq<Scope>, p: Projection) {
    var s := ScopeOf(scopes, p.id);
    s.Some? && p.expected == ShownBy(s.value) && p.actual == ShownBy(s.value)
  }

  predicate ProjectionsOk(scopes: seq<Scope>, ps: seq<Projection>) {
    && |ps| == |scopes|
    && (forall i :: 0 <= i < |ps| ==> ProjectionOk(scopes, ps[i]))
    && (forall i, j :: 0 <= i < j < |ps| ==> ps[i].id != ps[j].id)
  }

  predicate Accepted(scopes: seq<Scope>, artifacts: seq<Artifact>, bucket: string, ps: seq<Projection>) {
    ScopesOk(scopes) && ArtifactsOk(artifacts, bucket) && MembershipOk(scopes, artifacts) && ProjectionsOk(scopes, ps)
  }

  // ---------------------------------------------------------------- what acceptance means

  lemma BelongsToOne(a: Scope, b: Scope, x: Artifact)
    requires IdentityOk(a.id) && IdentityOk(b.id) && Belongs(a, x) && Belongs(b, x)
    ensures a.id == b.id
  {
    if x.cls == Sources {
      SourceRootsAreDisjoint(a.id, b.id, x.path);
    } else {
      RequiredPathIsInjective(x.cls, a.id, b.id);
    }
  }

  /** In an accepted release each artifact belongs to exactly one scope. */
  lemma EachArtifactHasOneScope(scopes: seq<Scope>, artifacts: seq<Artifact>, bucket: string, ps: seq<Projection>,
                                k: nat)
    requires Accepted(scopes, artifacts, bucket, ps) && k < |artifacts|
    ensures exists i :: 0 <= i < |scopes| && Belongs(scopes[i], artifacts[k])
    ensures forall i, j :: 0 <= i < j < |scopes| ==>
              !(Belongs(scopes[i], artifacts[k]) && Belongs(scopes[j], artifacts[k]))
  {
    assert Owned(artifacts[k], scopes) by { OwnedAt(artifacts, scopes); }
    forall i, j | 0 <= i < j < |scopes|
      ensures !(Belongs(scopes[i], artifacts[k]) && Belongs(scopes[j], artifacts[k]))
    {
      if Belongs(scopes[i], artifacts[k]) && Belongs(scopes[j], artifacts[k]) {
        BelongsToOne(scopes[i], scopes[j], artifacts[k]);
      }
    }
  }

  lemma OneIndex(scopes: seq<Scope>, i: nat, j: nat)
    requires ScopesOk(scopes) && i < |scopes| && j < |scopes| && scopes[i].id == scopes[j].id
    ensures i == j
  {
  }

  function ScopeIds(scopes: seq<Scope>): seq<Identity> { seq(|scopes|, i requires 0 <= i < |scopes| => scopes[i].id) }

  function ProjectionIds(ps: seq<Projection>): seq<Identity> { seq(|ps|, i requires 0 <= i < |ps| => ps[i].id) }

  lemma {:induction false} ScopeOfIs(scopes: seq<Scope>, id: Identity)
    ensures ScopeOf(scopes, id).Some? <==> exists i :: 0 <= i < |scopes| && scopes[i].id == id
    ensures ScopeOf(scopes, id).Some? ==> ScopeOf(scopes, id).value in scopes && ScopeOf(scopes, id).value.id == id
  {
    if scopes != [] {
      var n := |scopes| - 1;
      ScopeOfIs(scopes[..n], id);
      if scopes[n].id != id {
        if i :| 0 <= i < |scopes| && scopes[i].id == id { assert scopes[..n][i].id == id; }
        if i :| 0 <= i < n && scopes[..n][i].id == id { assert scopes[i].id == id; }
      }
    }
  }

  lemma EveryScopeIsNamed(scopes: seq<Scope>, ps: seq<Projection>, id: Identity)
    requires ScopesOk(scopes) && ProjectionsOk(scopes, ps) && id in ScopeIds(scopes)
    ensures id in ProjectionIds(ps)
  {
    forall x | x in ProjectionIds(ps) ensures x in ScopeIds(scopes) {
      var k :| 0 <= k < |ps| && ps[k].id == x;
      assert ProjectionOk(scopes, ps[k]);
      ScopeOfIs(scopes, x);
      var i :| 0 <= i < |scopes| && scopes[i].id == x;
      assert ScopeIds(scopes)[i] == x;
    }
    EveryElementIsMet(ProjectionIds(ps), ScopeIds(scopes));
  }

  function FullProjection(s: Scope): Projection { Projection(s.id, ShownBy(s), ShownBy(s)) }

  lemma ProjectionOfScope(scopes: seq<Scope>, ps: seq<Projection>, i: nat)
    requires ScopesOk(scopes) && ProjectionsOk(scopes, ps) && i < |scopes|
    ensures exists k :: 0 <= k < |ps| && ps[k] == FullProjection(scopes[i])
  {
    assert ScopeIds(scopes)[i] == scopes[i].id;
    EveryScopeIsNamed(scopes, ps, scopes[i].id);
    var k :| 0 <= k < |ps| && ps[k].id == scopes[i].id;
    assert ProjectionOk(scopes, ps[k]);
    ProjectionCounts(scopes, ps[k], i);
  }

  /** In an accepted release each scope has exactly one row of projection evidence, with its row count. */
  lemma EachScopeHasOneProjection(scopes: seq<Scope>, artifacts: seq<Artifact>, bucket: string, ps: seq<Projection>,
                                  i: nat)
    requires Accepted(scopes, artifacts, bucket, ps) && i < |scopes|
    ensures exists k :: 0 <= k < |ps| && ps[k] == FullProjection(scopes[i])
    ensures forall k, l :: 0 <= k < l < |ps| ==> !(ps[k].id == scopes[i].id == ps[l].id)
  {
    ProjectionOfScope(scopes, ps, i);
  }

  lemma ProjectionCounts(scopes: seq<Scope>, p: Projection, i: nat)
    requires ScopesOk(scopes) && ProjectionOk(scopes, p) && i < |scopes| && p.id == scopes[i].id
    ensures p == FullProjection(scopes[i])
  {
    ScopeOfIs(scopes, p.id);
    var s := ScopeOf(scopes, p.id).value;
    var j :| 0 <= j < |scopes| && scopes[j] == s;
    OneIndex(scopes, i, j);
  }
}
