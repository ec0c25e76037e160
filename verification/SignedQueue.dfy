/**
 The signed encoding queue: a manifest of items with pinned release and source refs, its validation, the
 gate on transitions to a paused queue, pausing, and recording a disposition.
 */
module SignedQueue {
  import opened Common

  datatype Status = Pending | Retryable | Blocked | NoExecutableRule | Completed

  predicate Terminal(s: Status) { s.Blocked? || s.NoExecutableRule? || s.Completed? }

  predicate Selectable(s: Status) { s.Pending? || s.Retryable? }

  datatype Evidence =
    | MergedPr(url: string, mergeCommit: string, generation: string, prHead: string, runUrl: string, runHead: string,
               runAttempt: int, manifestPath: string, manifestDigest: string, metadataDigest: string)
    | IssueComment(comment: Option<string>, note: Option<string>)

  /** The fields of an item that no transition may rewrite. */
  datatype Identity = Identity(id: string, citation: string, jurisdiction: string, title: string, sequence: int,
                               sourceKind: string)

  datatype Item = Item(identity: Identity, attempt: int, status: Status, evidence: Option<Evidence>)

  datatype Header = Header(schema: string, queueId: string, issue: int, description: string,
                           expectedCounts: map<string, int>)

  datatype Release = Release(name: string, content: string, manifest: string)

  datatype Policy = Policy(country: string, baseBranch: string, openPr: bool, batch: int)

  datatype Dispatch = Dispatch(corpusRef: string, rulesEngineRef: string, rulespecRef: string, policy: Policy)

  datatype Activation = Activation(rulespecRef: string, finalizerHead: string, finalizerUrl: string,
                                   finalizerAttempt: int, checkRuns: string, previousQueue: string,
                                   pullRequests: string, workflowRuns: string)

  datatype Queue = Queue(header: Header, supersedes: Option<string>, inventory: Option<string>, active: bool,
                         reason: Option<string>, activation: Option<Activation>, suspension: Option<string>,
                         release: Release, dispatch: Dispatch, items: seq<Item>)

  /** The lexical tests and the constants of the queue's profile. */
  datatype Profile = Profile(
    header: Header -> bool,
    supersedes: Option<string>,
    inventory: Option<string>,
    policy: Policy -> bool,
    releaseName: string -> bool,
    sha: string -> bool,
    digest: string -> bool,
    runUrl: string -> bool,
    prUrl: string -> bool,
    manifestPath: string -> bool,
    commentUrl: (int, string) -> bool,
    identity: Identity -> bool,
    isSpace: char -> bool,
    counts: map<string, nat>,
    priority: seq<string>)

  // ---------------------------------------------------------------- validation

  predicate Blank(p: Profile, s: string) { forall i :: 0 <= i < |s| ==> p.isSpace(s[i]) }

  predicate EvidenceOk(p: Profile, issue: int, it: Item) {
    match it.status
    case Pending => it.evidence.None?
    case Retryable => it.evidence.None?
    case Completed =>
      && it.evidence.Some? && it.evidence.value.MergedPr?
      && var e := it.evidence.value;
         && p.prUrl(e.url) && p.sha(e.mergeCommit) && p.digest(e.generation) && p.digest(e.manifestDigest)
         && p.digest(e.metadataDigest) && p.sha(e.prHead) && p.sha(e.runHead) && p.runUrl(e.runUrl)
         && e.runAttempt == 1 && p.manifestPath(e.manifestPath)
    case _ =>
      && it.evidence.Some? && it.evidence.value.IssueComment?
      && var e := it.evidence.value;
         e.comment.Some? && p.commentUrl(issue, e.comment.value) && e.note.Some? && !Blank(p, e.note.value)
  }

  predicate ItemOk(p: Profile, issue: int, it: Item, index: int) {
    && p.identity(it.identity) && it.identity.jurisdiction in p.counts
    && it.identity.sequence == index + 1 && it.attempt > 0 && EvidenceOk(p, issue, it)
  }

  /** How many items a jurisdiction has. */
  function Count(items: seq<Item>, jurisdiction: string): nat {
    if items == [] then 0
    else
      var n := |items| - 1;
      Count(items[..n], jurisdiction) + if items[n].identity.jurisdiction == jurisdiction then 1 else 0
  }

  predicate DistinctItems(items: seq<Item>) {
    forall i, j :: 0 <= i < j < |items| ==>
      items[i].identity.id != items[j].identity.id && items[i].identity.citation != items[j].identity.citation
  }

  predicate ItemsOk(p: Profile, issue: int, items: seq<Item>) {
    && (forall i :: 0 <= i < |items| ==> ItemOk(p, issue, items[i], i))
    && DistinctItems(items)
    && (forall j :: j in p.counts ==> Count(items, j) == p.counts[j])
  }

  predicate Prioritized(items: seq<Item>, priority: seq<string>) {
    |priority| <= |items| && forall i :: 0 <= i < |priority| ==> items[i].identity.citation == priority[i]
  }

  predicate ActivationOk(p: Profile, a: Activation, rulespecRef: string) {
    && a.rulespecRef == rulespecRef && p.runUrl(a.finalizerUrl) && a.finalizerAttempt == 1 && p.sha(a.finalizerHead)
    && p.digest(a.checkRuns) && p.digest(a.previousQueue) && p.digest(a.pullRequests) && p.digest(a.workflowRuns)
  }

  predicate StateOk(p: Profile, q: Queue) {
    if q.active then
      && q.reason.None? && q.suspension.None?
      && q.activation.Some? && ActivationOk(p, q.activation.value, q.dispatch.rulespecRef)
    else
      && q.reason.Some? && !Blank(p, q.reason.value) && q.activation.None?
      && (q.suspension.Some? ==> p.digest(q.suspension.value))
  }

  predicate PinsOk(p: Profile, q: Queue) {
    && p.header(q.header) && q.supersedes == p.supersedes && q.inventory == p.inventory && p.policy(q.dispatch.policy)
    && p.releaseName(q.release.name) && p.digest(q.release.content) && p.digest(q.release.manifest)
    && p.sha(q.dispatch.corpusRef) && p.sha(q.dispatch.rulesEngineRef) && p.sha(q.dispatch.rulespecRef)
  }

  predicate Valid(p: Profile, q: Queue) {
    PinsOk(p, q) && StateOk(p, q) && ItemsOk(p, q.header.issue, q.items) && Prioritized(q.items, p.priority)
  }

  ghost function Ids(items: seq<Item>): set<string> {
    if items == [] then {} else Ids(items[..|items| - 1]) + {items[|items| - 1].identity.id}
  }

  ghost function Citations(items: seq<Item>): set<string> {
    if items == [] then {} else Citations(items[..|items| - 1]) + {items[|items| - 1].identity.citation}
  }

  lemma {:induction false} IdsHave(items: seq<Item>, x: string)
    ensures x in Ids(items) <==> exists i :: 0 <= i < |items| && items[i].identity.id == x
  {
    if items != [] {
      IdsHave(items[..|items| - 1], x);
      if i :| 0 <= i < |items| && items[i].identity.id == x {
        if i < |items| - 1 { assert items[..|items| - 1][i].identity.id == x; }
      }
    }
  }

  lemma {:induction false} CitationsHave(items: seq<Item>, x: string)
    ensures x in Citations(items) <==> exists i :: 0 <= i < |items| && items[i].identity.citation == x
  {
    if items != [] {
      CitationsHave(items[..|items| - 1], x);
      if i :| 0 <= i < |items| && items[i].identity.citation == x {
        if i < |items| - 1 { assert items[..|items| - 1][i].identity.citation == x; }
      }
    }
  }

  lemma DistinctSnoc(items: seq<Item>, n: nat)
    requires n < |items|
    ensures DistinctItems(items[..n + 1]) <==>
            DistinctItems(items[..n]) && items[n].identity.id !in Ids(items[..n]) &&
            items[n].identity.citation !in Citations(items[..n])
  {
    IdsHave(items[..n], items[n].identity.id);
    CitationsHave(items[..n], items[n].identity.citation);
    assert forall i :: 0 <= i < n ==> items[..n + 1][i] == items[..n][i];
    assert items[..n + 1][n] == items[n];
  }

  lemma NotDistinct(items: seq<Item>, n: nat)
    requires n <= |items|
    ensures DistinctItems(items) ==> DistinctItems(items[..n])
  {
  }

  function Bump(counts: map<string, nat>, j: string): map<string, nat> {
    if j in counts then counts[j := counts[j] + 1] else counts
  }

  /** The counter that starts at zero for the profile's jurisdictions. */
  function Tally(items: seq<Item>, zero: map<string, nat>): map<string, nat> {
    if items == [] then zero
    else Bump(Tally(items[..|items| - 1], zero), items[|items| - 1].identity.jurisdiction)
  }

  lemma {:induction false} TallyCounts(items: seq<Item>, zero: map<string, nat>)
    requires forall j :: j in zero ==> zero[j] == 0
    ensures Tally(items, zero).Keys == zero.Keys
    ensures forall j :: j in zero ==> Tally(items, zero)[j] == Count(items, j)
  {
    if items != [] { TallyCounts(items[..|items| - 1], zero); }
  }

  datatype Seen = Seen(ids: set<string>, citations: set<string>, counts: map<string, nat>)

  function Zero(p: Profile): map<string, nat> { map j | j in p.counts :: 0 }

  /** What the loop knows after `k` items. */
  ghost predicate Checked(p: Profile, issue: int, items: seq<Item>, k: nat, seen: Seen)
    requires k <= |items|
  {
    && (forall i :: 0 <= i < k ==> ItemOk(p, issue, items[i], i))
    && DistinctItems(items[..k])
    && seen == Seen(Ids(items[..k]), Citations(items[..k]), Tally(items[..k], Zero(p)))
  }

  method CheckItem(p: Profile, issue: int, items: seq<Item>, k: nat, seen: Seen) returns (ok: bool, next: Seen)
    requires k < |items| && Checked(p, issue, items, k, seen)
    ensures ok ==> Checked(p, issue, items, k + 1, next)
    ensures !ok ==> !ItemsOk(p, issue, items)
  {
    DistinctSnoc(items, k);
    assert items[..k + 1][..k] == items[..k];
    var it := items[k];
    if !ItemOk(p, issue, it, k) { return false, seen; }
    if it.identity.id in seen.ids || it.identity.citation in seen.citations {
      NotDistinct(items, k + 1);
      return false, seen;
    }
    next := Seen(seen.ids + {it.identity.id}, seen.citations + {it.identity.citation},
                 Bump(seen.counts, it.identity.jurisdiction));
    ok := true;
  }

  lemma CheckedAll(p: Profile, issue: int, items: seq<Item>, seen: Seen)
    requires Checked(p, issue, items, |items|, seen)
    ensures seen.counts == p.counts <==> ItemsOk(p, issue, items)
  {
    assert items[..|items|] == items;
    TallyCounts(items, Zero(p));
  }

  method ValidateItems(p: Profile, issue: int, items: seq<Item>) returns (ok: bool)
    ensures ok <==> ItemsOk(p, issue, items)
  {
    var seen := Seen({}, {}, Zero(p));
    for k := 0 to |items|
      invariant Checked(p, issue, items, k, seen)
    {
      ok, seen := CheckItem(p, issue, items, k, seen);
      if !ok { return false; }
    }
    CheckedAll(p, issue, items, seen);
    ok := seen.counts == p.counts;
  }

  method ValidateQueue(p: Profile, q: Queue) returns (ok: bool)
    ensures ok <==> Valid(p, q)
  {
    if !PinsOk(p, q) || !StateOk(p, q) { return false; }
    ok := ValidateItems(p, q.header.issue, q.items);
    ok := ok && Prioritized(q.items, p.priority);
  }
}
