/** The inventory checks as loops, and the resolver's candidate files. */
module ReleaseResolver {
  import opened Common
  import opened Collections
  import opened PathText
  import opened ReleaseInventory

  // ---------------------------------------------------------------- the validators

  method ValidateScopes(scopes: seq<Scope>) returns (ok: bool)
    ensures ok <==> ScopesOk(scopes)
  {
    var seen: set<Identity> := {};
    for i := 0 to |scopes|
      invariant forall k :: 0 <= k < i ==> IdentityOk(scopes[k].id)
      invariant AllDetailsOk(scopes[..i])
      invariant forall j, k :: 0 <= j < k < i ==> scopes[j].id != scopes[k].id
      invariant forall x :: x in seen <==> exists k :: 0 <= k < i && scopes[k].id == x
    {
      DetailsSnoc(scopes, i);
      if !IdentityOk(scopes[i].id) || scopes[i].id in seen || !DetailsOk(scopes[i]) { return false; }
      seen := seen + {scopes[i].id};
    }
    assert scopes[..|scopes|] == scopes;
    return true;
  }

  method ValidateArtifacts(artifacts: seq<Artifact>, bucket: string) returns (ok: bool)
    ensures ok <==> ArtifactsOk(artifacts, bucket)
  {
    var seen: set<string> := {};
    for i := 0 to |artifacts|
      invariant EachOk(artifacts[..i], bucket)
      invariant forall j, k :: 0 <= j < k < i ==> artifacts[j].path != artifacts[k].path
      invariant forall x :: x in seen <==> exists k :: 0 <= k < i && artifacts[k].path == x
    {
      EachOkSnoc(artifacts, bucket, i);
      if !ArtifactOk(artifacts[i], bucket) || artifacts[i].path in seen { return false; }
      seen := seen + {artifacts[i].path};
    }
    assert artifacts[..|artifacts|] == artifacts;
    ok := PathsAreSorted(artifacts);
  }

  method PathsAreSorted(artifacts: seq<Artifact>) returns (ok: bool)
    ensures ok <==> InPathOrder(artifacts)
  {
    for i := 0 to |artifacts|
      invariant forall k :: 0 < k < i ==> !TextOrder()(artifacts[k].path, artifacts[k - 1].path)
    {
      if i > 0 && TextOrder()(artifacts[i].path, artifacts[i - 1].path) { return false; }
    }
    return true;
  }

  method ValidateProjections(scopes: seq<Scope>, ps: seq<Projection>) returns (ok: bool)
    ensures ok <==> ProjectionsOk(scopes, ps)
  {
    if |ps| != |scopes| { return false; }
    var seen: set<Identity> := {};
    for i := 0 to |ps|
      invariant forall k :: 0 <= k < i ==> ProjectionOk(scopes, ps[k])
      invariant forall j, k :: 0 <= j < k < i ==> ps[j].id != ps[k].id
      invariant forall x :: x in seen <==> exists k :: 0 <= k < i && ps[k].id == x
    {
      if ps[i].id in seen || !ProjectionOk(scopes, ps[i]) { return false; }
      seen := seen + {ps[i].id};
    }
    return true;
  }

  /** The artifacts by path, as a dictionary. */
  function ByPath(artifacts: seq<Artifact>): map<string, Artifact> {
    if artifacts == [] then map[]
    else ByPath(artifacts[..|artifacts| - 1])[artifacts[|artifacts| - 1].path := artifacts[|artifacts| - 1]]
  }

  /** `byPath` holds exactly the artifacts, each under its path. */
  predicate Indexes(byPath: map<string, Artifact>, artifacts: seq<Artifact>) {
    && (forall k :: 0 <= k < |artifacts| ==> artifacts[k].path in byPath && byPath[artifacts[k].path] == artifacts[k])
    && (forall path :: path in byPath ==> byPath[path].path == path && byPath[path] in artifacts)
  }

  lemma {:induction false} ByPathIndexes(artifacts: seq<Artifact>)
    requires DistinctPaths(artifacts)
    ensures Indexes(ByPath(artifacts), artifacts)
  {
    if artifacts != [] {
      var n := |artifacts| - 1;
      ByPathIndexes(artifacts[..n]);
      forall k | 0 <= k < n
        ensures artifacts[k].path in ByPath(artifacts) && ByPath(artifacts)[artifacts[k].path] == artifacts[k]
      {
        assert artifacts[..n][k] == artifacts[k];
      }
    }
  }

  predicate IsSourceOf(s: Scope, a: Artifact) { a.cls == Sources && SourceRoot(s.id) <= a.path }

  predicate Requires(s: Scope, byPath: map<string, Artifact>, c: Class) {
    RequiredPath(c, s.id) in byPath && byPath[RequiredPath(c, s.id)].cls == c
  }

  predicate Complete(s: Scope, byPath: map<string, Artifact>) {
    && Requires(s, byPath, Inventory) && Requires(s, byPath, Provisions) && Requires(s, byPath, Coverage)
    && byPath[RequiredPath(Provisions, s.id)].rows == Some(s.rows)
    && exists path :: path in byPath && IsSourceOf(s, byPath[path])
  }

  /** The paths that a scope claims: its three required ones and its sources. */
  function ClaimSet(s: Scope, byPath: map<string, Artifact>): set<string> {
    (set path | path in byPath && IsSourceOf(s, byPath[path])) +
    {RequiredPath(Inventory, s.id), RequiredPath(Provisions, s.id), RequiredPath(Coverage, s.id)}
  }

  function ClaimSets(scopes: seq<Scope>, byPath: map<string, Artifact>): seq<set<string>> {
    seq(|scopes|, i requires 0 <= i < |scopes| => ClaimSet(scopes[i], byPath))
  }

  function Claimed(scopes: seq<Scope>, byPath: map<string, Artifact>): set<string> { Union(ClaimSets(scopes, byPath)) }

  lemma ClaimedHas(scopes: seq<Scope>, byPath: map<string, Artifact>, path: string)
    ensures path in Claimed(scopes, byPath) <==> exists i :: 0 <= i < |scopes| && path in ClaimSet(scopes[i], byPath)
  {
    var sets := ClaimSets(scopes, byPath);
    UnionHas(sets, path);
    if i :| 0 <= i < |scopes| && path in ClaimSet(scopes[i], byPath) { assert sets[i] == ClaimSet(scopes[i], byPath); }
  }

  predicate AllComplete(scopes: seq<Scope>, byPath: map<string, Artifact>) {
    forall i :: 0 <= i < |scopes| ==> Complete(scopes[i], byPath)
  }

  lemma CompleteSnoc(scopes: seq<Scope>, i: nat, byPath: map<string, Artifact>)
    requires i < |scopes| && AllComplete(scopes[..i], byPath) && Complete(scopes[i], byPath)
    ensures AllComplete(scopes[..i + 1], byPath)
    ensures Claimed(scopes[..i + 1], byPath) == Claimed(scopes[..i], byPath) + ClaimSet(scopes[i], byPath)
  {
    assert scopes[..i + 1][..i] == scopes[..i];
    var more := scopes[..i + 1];
    assert ClaimSets(more, byPath)[..i] == ClaimSets(scopes[..i], byPath);
    forall k | 0 <= k < |more| ensures Complete(more[k], byPath) {
      if k < i { assert more[k] == scopes[..i][k]; }
    }
  }

  method ValidateMembership(scopes: seq<Scope>, artifacts: seq<Artifact>) returns (ok: bool)
    requires DistinctPaths(artifacts)
    ensures ok <==> MembershipOk(scopes, artifacts)
  {
    var byPath := ByPath(artifacts);
    ByPathIndexes(artifacts);
    var claimed: set<string> := {};
    for i := 0 to |scopes|
      invariant AllComplete(scopes[..i], byPath)
      invariant claimed == Claimed(scopes[..i], byPath)
    {
      if !Complete(scopes[i], byPath) {
        CompleteIs(scopes[i], artifacts, byPath);
        CompleteAt(scopes, artifacts);
        return false;
      }
      claimed := claimed + ClaimSet(scopes[i], byPath);
      CompleteSnoc(scopes, i, byPath);
    }
    assert scopes[..|scopes|] == scopes;
    MembershipIs(scopes, artifacts, byPath);
    ok := byPath.Keys == claimed;
  }

  lemma RequiresIs(s: Scope, artifacts: seq<Artifact>, byPath: map<string, Artifact>, c: Class)
    requires Indexes(byPath, artifacts)
    ensures Requires(s, byPath, c) <==> Provides(artifacts, c, RequiredPath(c, s.id))
  {
    if Requires(s, byPath, c) {
      var k :| 0 <= k < |artifacts| && artifacts[k] == byPath[RequiredPath(c, s.id)];
      assert artifacts[k].cls == c && artifacts[k].path == RequiredPath(c, s.id);
    }
  }

  lemma ProvisionsIs(s: Scope, artifacts: seq<Artifact>, byPath: map<string, Artifact>)
    requires Indexes(byPath, artifacts)
    ensures (Requires(s, byPath, Provisions) && byPath[RequiredPath(Provisions, s.id)].rows == Some(s.rows)) <==>
            ProvidesRows(artifacts, RequiredPath(Provisions, s.id), s.rows)
  {
    var p := RequiredPath(Provisions, s.id);
    if Requires(s, byPath, Provisions) && byPath[p].rows == Some(s.rows) {
      var k :| 0 <= k < |artifacts| && artifacts[k] == byPath[p];
      assert artifacts[k].cls == Provisions && artifacts[k].path == p && artifacts[k].rows == Some(s.rows);
    }
  }

  lemma SourcesIs(s: Scope, artifacts: seq<Artifact>, byPath: map<string, Artifact>)
    requires Indexes(byPath, artifacts)
    ensures (exists path :: path in byPath && IsSourceOf(s, byPath[path])) <==>
            exists k :: 0 <= k < |artifacts| && artifacts[k].cls == Sources && Belongs(s, artifacts[k])
  {
    if path :| path in byPath && IsSourceOf(s, byPath[path]) {
      var k :| 0 <= k < |artifacts| && artifacts[k] == byPath[path];
      assert artifacts[k].cls == Sources && Belongs(s, artifacts[k]);
    }
    if k :| 0 <= k < |artifacts| && artifacts[k].cls == Sources && Belongs(s, artifacts[k]) {
      assert IsSourceOf(s, byPath[artifacts[k].path]);
    }
  }

  lemma CompleteIs(s: Scope, artifacts: seq<Artifact>, byPath: map<string, Artifact>)
    requires Indexes(byPath, artifacts)
    ensures Complete(s, byPath) <==> ScopeComplete(s, artifacts)
  {
    RequiresIs(s, artifacts, byPath, Inventory);
    RequiresIs(s, artifacts, byPath, Coverage);
    ProvisionsIs(s, artifacts, byPath);
    SourcesIs(s, artifacts, byPath);
  }

  /** A claimed artifact belongs to the scope that claims it, since required paths have the right class. */
  lemma ClaimIsMembership(s: Scope, byPath: map<string, Artifact>, a: Artifact)
    requires Complete(s, byPath) && a.path in byPath && byPath[a.path] == a
    ensures a.path in ClaimSet(s, byPath) <==> Belongs(s, a)
  {
  }

  lemma ClaimedIsOwned(scopes: seq<Scope>, byPath: map<string, Artifact>, a: Artifact)
    requires AllComplete(scopes, byPath)
    requires a.path in byPath && byPath[a.path] == a
    ensures a.path in Claimed(scopes, byPath) <==> Owned(a, scopes)
  {
    ClaimedHas(scopes, byPath, a.path);
    forall i | 0 <= i < |scopes| ensures a.path in ClaimSet(scopes[i], byPath) <==> Belongs(scopes[i], a) {
      ClaimIsMembership(scopes[i], byPath, a);
    }
  }

  lemma ClaimedIsPresent(scopes: seq<Scope>, byPath: map<string, Artifact>, path: string)
    requires AllComplete(scopes, byPath)
    requires path in Claimed(scopes, byPath)
    ensures path in byPath
  {
    ClaimedHas(scopes, byPath, path);
  }

  lemma AllCompleteIs(scopes: seq<Scope>, artifacts: seq<Artifact>, byPath: map<string, Artifact>)
    requires Indexes(byPath, artifacts) && AllComplete(scopes, byPath)
    ensures AllScopesComplete(scopes, artifacts)
  {
    forall i | 0 <= i < |scopes| ensures ScopeComplete(scopes[i], artifacts) {
      CompleteIs(scopes[i], artifacts, byPath);
    }
    CompleteAt(scopes, artifacts);
  }

  predicate AllClaimed(artifacts: seq<Artifact>, claimed: set<string>) {
    forall k :: 0 <= k < |artifacts| ==> artifacts[k].path in claimed
  }

  lemma ClaimedIsAllOwned(scopes: seq<Scope>, artifacts: seq<Artifact>, byPath: map<string, Artifact>)
    requires Indexes(byPath, artifacts) && AllComplete(scopes, byPath)
    ensures AllClaimed(artifacts, Claimed(scopes, byPath)) <==> AllOwned(artifacts, scopes)
  {
    forall k | 0 <= k < |artifacts|
      ensures artifacts[k].path in Claimed(scopes, byPath) <==> Owned(artifacts[k], scopes)
    {
      ClaimedIsOwned(scopes, byPath, artifacts[k]);
    }
    OwnedAt(artifacts, scopes);
  }

  lemma KeysAreClaimed(artifacts: seq<Artifact>, byPath: map<string, Artifact>, claimed: set<string>)
    requires Indexes(byPath, artifacts) && claimed <= byPath.Keys
    ensures byPath.Keys == claimed <==> AllClaimed(artifacts, claimed)
  {
    if AllClaimed(artifacts, claimed) {
      forall path | path in byPath ensures path in claimed {
        var k :| 0 <= k < |artifacts| && artifacts[k] == byPath[path];
      }
    }
  }

  lemma MembershipIs(scopes: seq<Scope>, artifacts: seq<Artifact>, byPath: map<string, Artifact>)
    requires Indexes(byPath, artifacts) && AllComplete(scopes, byPath)
    ensures byPath.Keys == Claimed(scopes, byPath) <==> MembershipOk(scopes, artifacts)
  {
    AllCompleteIs(scopes, artifacts, byPath);
    ClaimedIsAllOwned(scopes, artifacts, byPath);
    forall path | path in Claimed(scopes, byPath) ensures path in byPath { ClaimedIsPresent(scopes, byPath, path); }
    KeysAreClaimed(artifacts, byPath, Claimed(scopes, byPath));
  }

  // ---------------------------------------------------------------- candidate files

  /** What the resolver accepts as a provisions file of the bucket, for one of the versions. */
  predicate IsCandidate(a: Artifact, jurisdiction: string, documentClass: string, versions: set<string>) {
    a.cls == Provisions &&
    var parts := Split(a.path);
    && |parts| == 6 && parts[0] == "data" && parts[1] == "corpus" && parts[2] == "provisions"
    && parts[3] == jurisdiction && parts[4] == documentClass
    && |parts[5]| >= 6 && parts[5][|parts[5]| - 6..] == ".jsonl" && parts[5][..|parts[5]| - 6] in versions
  }

  /** The artifacts that pass a test, in order. */
  function Where(artifacts: seq<Artifact>, test: Artifact -> bool): seq<Artifact> {
    if artifacts == [] then []
    else
      var last := artifacts[|artifacts| - 1];
      Where(artifacts[..|artifacts| - 1], test) + if test(last) then [last] else []
  }

  function CandidateTest(jurisdiction: string, documentClass: string, versions: set<string>): Artifact -> bool {
    (a: Artifact) => IsCandidate(a, jurisdiction, documentClass, versions)
  }

  function Selected(artifacts: seq<Artifact>, jurisdiction: string, documentClass: string, versions: set<string>):
    seq<Artifact>
  {
    Where(artifacts, CandidateTest(jurisdiction, documentClass, versions))
  }

  lemma RequiredSplits(id: Identity)
    requires IdentityOk(id)
    ensures Split(RequiredPath(Provisions, id)) ==
            ["data", "corpus", "provisions", id.jurisdiction, id.documentClass, id.version + ".jsonl"]
  {
    ClassIsSlashFree(Provisions);
    ComponentsAreSlashFree(id);
    var file := id.version + ".jsonl";
    assert SlashFree(file);
    SplitLast(file);
    SplitUnder(id.documentClass, file);
    SplitUnder(id.jurisdiction, Under(id.documentClass, file));
    SplitUnder("provisions", InScope(id, file));
    SplitUnder("corpus", Under("provisions", InScope(id, file)));
    SplitUnder("data", Under("corpus", Under("provisions", InScope(id, file))));
  }

  /** The provisions file of a scope is selected exactly for the scope's bucket and version. */
  lemma CandidateIff(a: Artifact, id: Identity, jurisdiction: string, documentClass: string, versions: set<string>)
    requires IdentityOk(id) && a.cls == Provisions && a.path == RequiredPath(Provisions, id)
    ensures IsCandidate(a, jurisdiction, documentClass, versions) <==>
            id.jurisdiction == jurisdiction && id.documentClass == documentClass && id.version in versions
  {
    RequiredSplits(id);
    var file := id.version + ".jsonl";
    assert file[|file| - 6..] == ".jsonl" && file[..|file| - 6] == id.version;
  }

  function VersionsOf(scopes: seq<Scope>): set<string> { set i | 0 <= i < |scopes| :: scopes[i].id.version }

  /** The scopes asked for: distinct scopes of the release, all of one bucket. */
  predicate Wanted(wanted: seq<Scope>, scopes: seq<Scope>, jurisdiction: string, documentClass: string) {
    && (forall i :: 0 <= i < |wanted| ==>
          && wanted[i] in scopes
          && wanted[i].id.jurisdiction == jurisdiction && wanted[i].id.documentClass == documentClass)
    && (forall i, j :: 0 <= i < j < |wanted| ==> wanted[i].id != wanted[j].id)
  }

  datatype Selection = Chosen(files: seq<Artifact>) | Missing(path: string) | WrongCount

  /** The first file that is not there. */
  function FirstMissing(files: seq<Artifact>, present: string -> bool): Option<string> {
    if files == [] then None
    else
      var n := |files| - 1;
      match FirstMissing(files[..n], present)
      case Some(path) => Some(path)
      case None => if present(files[n].path) then None else Some(files[n].path)
  }

  /** The provisions files for the wanted scopes; `present` says which files exist below the release root. */
  function CandidateSelection(artifacts: seq<Artifact>, jurisdiction: string, documentClass: string, wanted: seq<Scope>,
                              present: string -> bool): Selection
  {
    if wanted == [] then Chosen([])
    else
      var files := Selected(artifacts, jurisdiction, documentClass, VersionsOf(wanted));
      match FirstMissing(files, present)
      case Some(path) => Missing(path)
      case None => if |files| == |wanted| then Chosen(files) else WrongCount
  }

  lemma {:induction false} MissingStays(artifacts: seq<Artifact>, test: Artifact -> bool, present: string -> bool,
                                        n: nat)
    requires n <= |artifacts| && FirstMissing(Where(artifacts[..n], test), present).Some?
    ensures FirstMissing(Where(artifacts, test), present) == FirstMissing(Where(artifacts[..n], test), present)
  {
    if n < |artifacts| {
      var init := artifacts[..|artifacts| - 1];
      assert init[..n] == artifacts[..n];
      MissingStays(init, test, present, n);
      var some, all := Where(init, test), Where(artifacts, test);
      if |all| > |some| {
        assert all[..|all| - 1] == some;
      } else {
        assert all == some;
      }
    } else {
      assert artifacts[..n] == artifacts;
    }
  }

  method CandidateProvisionFiles(artifacts: seq<Artifact>, jurisdiction: string, documentClass: string,
                                 wanted: seq<Scope>, present: string -> bool) returns (r: Selection)
    ensures r == CandidateSelection(artifacts, jurisdiction, documentClass, wanted, present)
  {
    if wanted == [] { return Chosen([]); }
    var versions := VersionsOf(wanted);
    var candidates: seq<Artifact> := [];
    for k := 0 to |artifacts|
      invariant candidates == Selected(artifacts[..k], jurisdiction, documentClass, versions)
      invariant FirstMissing(candidates, present).None?
    {
      assert artifacts[..k + 1][..k] == artifacts[..k];
      if IsCandidate(artifacts[k], jurisdiction, documentClass, versions) {
        ghost var more := candidates + [artifacts[k]];
        assert more[..|candidates|] == candidates;
        if !present(artifacts[k].path) {
          MissingStays(artifacts, CandidateTest(jurisdiction, documentClass, versions), present, k + 1);
          return Missing(artifacts[k].path);
        }
        candidates := candidates + [artifacts[k]];
      }
    }
    assert artifacts[..|artifacts|] == artifacts;
    return if |candidates| != |wanted| then WrongCount else Chosen(candidates);
  }

  // ---------------------------------------------------------------- the count is always right

  function PathsWhere(artifacts: seq<Artifact>, test: Artifact -> bool): (r: seq<string>)
    ensures |r| == |Where(artifacts, test)|
  {
    if artifacts == [] then []
    else
      var last := artifacts[|artifacts| - 1];
      PathsWhere(artifacts[..|artifacts| - 1], test) + if test(last) then [last.path] else []
  }

  lemma {:induction false} PathsWhereHave(artifacts: seq<Artifact>, test: Artifact -> bool, path: string)
    ensures path in PathsWhere(artifacts, test) <==>
            exists k :: 0 <= k < |artifacts| && artifacts[k].path == path && test(artifacts[k])
  {
    if artifacts != [] {
      var n := |artifacts| - 1;
      PathsWhereHave(artifacts[..n], test, path);
      if k :| 0 <= k < n && artifacts[..n][k].path == path && test(artifacts[..n][k]) {
        assert artifacts[..n][k] == artifacts[k];
      }
      if k :| 0 <= k < |artifacts| && artifacts[k].path == path && test(artifacts[k]) {
        if k < n { assert artifacts[..n][k] == artifacts[k]; }
      }
    }
  }

  lemma {:induction false} PathsWhereDistinct(artifacts: seq<Artifact>, test: Artifact -> bool)
    requires DistinctPaths(artifacts)
    ensures Distinct(PathsWhere(artifacts, test))
  {
    if artifacts != [] {
      var n := |artifacts| - 1;
      var init := artifacts[..n];
      PathsWhereDistinct(init, test);
      PathsWhereHave(init, test, artifacts[n].path);
      forall k | 0 <= k < n ensures init[k].path != artifacts[n].path { assert init[k] == artifacts[k]; }
    }
  }

  function SelectedPaths(artifacts: seq<Artifact>, jurisdiction: string, documentClass: string, versions: set<string>):
    seq<string>
  {
    PathsWhere(artifacts, CandidateTest(jurisdiction, documentClass, versions))
  }

  function WantedPaths(wanted: seq<Scope>): seq<string> {
    seq(|wanted|, i requires 0 <= i < |wanted| => RequiredPath(Provisions, wanted[i].id))
  }

  lemma WantedPathsDistinct(wanted: seq<Scope>, scopes: seq<Scope>, jurisdiction: string, documentClass: string)
    requires ScopesOk(scopes) && Wanted(wanted, scopes, jurisdiction, documentClass)
    ensures Distinct(WantedPaths(wanted))
  {
    forall i, j | 0 <= i < j < |wanted| ensures WantedPaths(wanted)[i] != WantedPaths(wanted)[j] {
      assert IdentityOk(wanted[i].id) && IdentityOk(wanted[j].id);
      if WantedPaths(wanted)[i] == WantedPaths(wanted)[j] {
        RequiredPathIsInjective(Provisions, wanted[i].id, wanted[j].id);
      }
    }
  }

  lemma WantedIsSelected(scopes: seq<Scope>, artifacts: seq<Artifact>, wanted: seq<Scope>, jurisdiction: string,
                         documentClass: string, path: string)
    requires ScopesOk(scopes) && AllScopesComplete(scopes, artifacts)
    requires Wanted(wanted, scopes, jurisdiction, documentClass)
    requires path in WantedPaths(wanted)
    ensures path in SelectedPaths(artifacts, jurisdiction, documentClass, VersionsOf(wanted))
  {
    var i :| 0 <= i < |wanted| && RequiredPath(Provisions, wanted[i].id) == path;
    var s :| 0 <= s < |scopes| && scopes[s] == wanted[i];
    assert ScopeComplete(scopes[s], artifacts) by { CompleteAt(scopes, artifacts); }
    var k :| 0 <= k < |artifacts| && artifacts[k].cls == Provisions && artifacts[k].path == path &&
             artifacts[k].rows == Some(scopes[s].rows);
    CandidateIff(artifacts[k], wanted[i].id, jurisdiction, documentClass, VersionsOf(wanted));
    PathsWhereHave(artifacts, CandidateTest(jurisdiction, documentClass, VersionsOf(wanted)), path);
  }

  lemma SelectedIsWanted(scopes: seq<Scope>, artifacts: seq<Artifact>, wanted: seq<Scope>, jurisdiction: string,
                         documentClass: string, path: string)
    requires ScopesOk(scopes) && AllOwned(artifacts, scopes) && Wanted(wanted, scopes, jurisdiction, documentClass)
    requires path in SelectedPaths(artifacts, jurisdiction, documentClass, VersionsOf(wanted))
    ensures path in WantedPaths(wanted)
  {
    var test := CandidateTest(jurisdiction, documentClass, VersionsOf(wanted));
    PathsWhereHave(artifacts, test, path);
    var k :| 0 <= k < |artifacts| && artifacts[k].path == path && test(artifacts[k]);
    assert Owned(artifacts[k], scopes) by { OwnedAt(artifacts, scopes); }
    var s :| 0 <= s < |scopes| && Belongs(scopes[s], artifacts[k]);
    CandidateIff(artifacts[k], scopes[s].id, jurisdiction, documentClass, VersionsOf(wanted));
    var i :| 0 <= i < |wanted| && wanted[i].id.version == scopes[s].id.version;
    assert wanted[i].id == scopes[s].id;
    assert WantedPaths(wanted)[i] == path;
  }

  /** In an accepted release the resolver selects exactly the provisions files of the scopes asked for, so
      its check of their number never fails. */
  lemma CountIsAlwaysRight(scopes: seq<Scope>, artifacts: seq<Artifact>, bucket: string, ps: seq<Projection>,
                           wanted: seq<Scope>, jurisdiction: string, documentClass: string)
    requires Accepted(scopes, artifacts, bucket, ps) && Wanted(wanted, scopes, jurisdiction, documentClass)
    ensures |Selected(artifacts, jurisdiction, documentClass, VersionsOf(wanted))| == |wanted|
    ensures forall path :: path in SelectedPaths(artifacts, jurisdiction, documentClass, VersionsOf(wanted)) <==>
              path in WantedPaths(wanted)
  {
    var selected := SelectedPaths(artifacts, jurisdiction, documentClass, VersionsOf(wanted));
    PathsWhereDistinct(artifacts, CandidateTest(jurisdiction, documentClass, VersionsOf(wanted)));
    WantedPathsDistinct(wanted, scopes, jurisdiction, documentClass);
    forall path ensures path in selected <==> path in WantedPaths(wanted) {
      if path in selected { SelectedIsWanted(scopes, artifacts, wanted, jurisdiction, documentClass, path); }
      if path in WantedPaths(wanted) { WantedIsSelected(scopes, artifacts, wanted, jurisdiction, documentClass, path); }
    }
    SameElementsSameLength(selected, WantedPaths(wanted));
  }

  lemma {:induction false} NothingMissing(files: seq<Artifact>, present: string -> bool)
    requires forall k :: 0 <= k < |files| ==> present(files[k].path)
    ensures FirstMissing(files, present).None?
  {
    if files != [] { NothingMissing(files[..|files| - 1], present); }
  }

  /** With its files present, an accepted release always yields exactly the files of the wanted scopes. */
  lemma SelectionSucceeds(scopes: seq<Scope>, artifacts: seq<Artifact>, bucket: string, ps: seq<Projection>,
                          wanted: seq<Scope>, jurisdiction: string, documentClass: string, present: string -> bool)
    requires Accepted(scopes, artifacts, bucket, ps) && Wanted(wanted, scopes, jurisdiction, documentClass)
    requires var files := Selected(artifacts, jurisdiction, documentClass, VersionsOf(wanted));
             forall k :: 0 <= k < |files| ==> present(files[k].path)
    ensures var r := CandidateSelection(artifacts, jurisdiction, documentClass, wanted, present);
            r.Chosen? && |r.files| == |wanted|
  {
    CountIsAlwaysRight(scopes, artifacts, bucket, ps, wanted, jurisdiction, documentClass);
    NothingMissing(Selected(artifacts, jurisdiction, documentClass, VersionsOf(wanted)), present);
  }
}
