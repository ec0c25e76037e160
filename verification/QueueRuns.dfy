/** Finalizing a quiet tranche and repinning, and the safety of whole runs of accepted transitions. */
module QueueRuns {
  import opened Common
  import opened SignedQueue
  import opened QueueTransitions
  import opened QueueHistory

  /** The authenticated evidence of a target run for a merged item. */
  datatype Target = Target(prHead: string, runHead: string, manifestPath: string, manifestDigest: string,
                           metadataDigest: string)

  /** What the finalizer is given: the checkout of the new base, the reviewed refs, the history, and the
      verified target evidence by item. */
  datatype World = World(
    newRef: string,
    finalizerHead: string,
    finalizerUrl: string,
    finalizerAttempt: int,
    green: bool,
    reviewed: (string, string) -> bool,
    head: string,
    tip: string,
    clean: bool,
    ancestor: (string, string) -> bool,
    pinnedName: string,
    pinnedContent: string,
    manifestAt: string -> Option<string>,
    targetOf: (Item, PullRequest, Run) -> Option<Target>,
    history: History,
    checkRunsDigest: string,
    pullRequestsDigest: string,
    workflowRunsDigest: string)

  // ---------------------------------------------------------------- the checks

  predicate Requested(p: Profile, w: World) {
    && p.sha(w.newRef) && p.sha(w.finalizerHead) && p.runUrl(w.finalizerUrl) && w.finalizerAttempt == 1 && w.green
  }

  /** The new ref is the reviewed, clean, exact branch tip; it differs from and contains the old one, and
      still pins the queue's release. */
  predicate Advances(q: Queue, w: World) {
    && w.newRef != q.dispatch.rulespecRef && w.reviewed(q.dispatch.policy.country, w.newRef)
    && w.head == w.newRef && w.tip == w.newRef && w.clean && w.ancestor(q.dispatch.rulespecRef, w.newRef)
    && w.pinnedName == q.release.name && w.pinnedContent == q.release.content
  }

  predicate OfQueue(q: Queue, pr: PullRequest) {
    Contains(pr.body, "Queue item: `" + q.header.queueId + "/") && FromQueueBranch(pr, q.dispatch.policy.baseBranch)
  }

  /** No pull request of the queue is open and no run of it is unfinished. */
  predicate Quiet(q: Queue, h: History) {
    && (forall i :: 0 <= i < |h.prs| ==> !(OfQueue(q, h.prs[i]) && h.prs[i].open))
    && (forall i :: 0 <= i < |h.runs| ==>
          !(Contains(h.runs[i].title, "[" + q.header.queueId + ":") &&
            (!h.runs[i].completed || h.runs[i].conclusion.None?)))
  }

  /** The queue's pull request with the URL: the last one, as the dictionary keeps it. */
  function PrByUrl(q: Queue, prs: seq<PullRequest>, url: string): Option<PullRequest> {
    if prs == [] then None
    else
      var pr := prs[|prs| - 1];
      if OfQueue(q, pr) && pr.url == Some(url) then Some(pr) else PrByUrl(q, prs[..|prs| - 1], url)
  }

  /** A completed item still stands on a merged pull request that the new base contains. */
  predicate Stands(q: Queue, w: World, it: Item) {
    && it.evidence.Some? && it.evidence.value.MergedPr?
    && var e := it.evidence.value;
       match PrByUrl(q, w.history.prs, e.url)
       case None => false
       case Some(pr) =>
         && !pr.open && pr.merged && pr.mergeCommit == Some(e.mergeCommit) && pr.headSha == e.prHead
         && Contains(pr.body, "Queue item: `" + q.header.queueId + "/" + it.identity.id + "`")
         && Contains(pr.body, "Citation: `" + it.identity.citation + "`")
         && Contains(pr.body, "Queue generation SHA-256: `" + e.generation + "`")
         && Contains(pr.body, "Axiom Encode run: " + e.runUrl)
         && w.ancestor(e.mergeCommit, w.newRef) && w.manifestAt(e.manifestPath) == Some(e.manifestDigest)
  }

  /** The evidence with which a merged item is completed. */
  function CompletionOf(p: Profile, hs: Hashes, q: Queue, w: World, it: Item, merge: PullRequest, run: Run):
    Option<Evidence>
  {
    if merge.url.None? || run.url.None? then None
    else match PrByUrl(q, w.history.prs, merge.url.value)
      case None => None
      case Some(pr) =>
        if pr.mergeCommit.None? || !p.sha(pr.mergeCommit.value) || !w.ancestor(pr.mergeCommit.value, w.newRef) then None
        else match w.targetOf(it, pr, run)
          case None => None
          case Some(target) =>
            Some(MergedPr(merge.url.value, pr.mergeCommit.value, hs.generation(GenerationOf(q, it)), target.prHead,
                          run.url.value, target.runHead, 1, target.manifestPath, target.manifestDigest,
                          target.metadataDigest))
  }

  /** What finalization makes of one item, if it can be settled. */
  function FinalItem(p: Profile, hs: Hashes, o: Order, q: Queue, w: World, it: Item): Option<Item> {
    if it.status.Completed? then (if Stands(q, w, it) then Some(it) else None)
    else if Terminal(it.status) then Some(it)
    else match ReasonFor(TagOf(hs, q, it), o, w.history)
      case New => Some(it)
      case Merged(pr, run) =>
        (match CompletionOf(p, hs, q, w, it, pr, run)
         case None => None
         case Some(e) => Some(it.(status := Completed, evidence := Some(e))))
      case _ => None
  }

  predicate AllFinal(p: Profile, hs: Hashes, o: Order, q: Queue, w: World, n: nat)
    requires n <= |q.items|
  {
    forall i :: 0 <= i < n ==> FinalItem(p, hs, o, q, w, q.items[i]).Some?
  }

  function FinalItems(p: Profile, hs: Hashes, o: Order, q: Queue, w: World, n: nat): (r: seq<Item>)
    requires n <= |q.items| && AllFinal(p, hs, o, q, w, n)
    ensures |r| == n
  {
    seq(n, i requires 0 <= i < n => FinalItem(p, hs, o, q, w, q.items[i]).value)
  }

  function ActivationFor(hs: Hashes, q: Queue, w: World): Activation {
    Activation(w.newRef, w.finalizerHead, w.finalizerUrl, w.finalizerAttempt, w.checkRunsDigest, hs.queue(q),
               w.pullRequestsDigest, w.workflowRunsDigest)
  }

  function Activated(hs: Hashes, q: Queue, w: World, items: seq<Item>): Queue {
    q.(items := items, dispatch := q.dispatch.(rulespecRef := w.newRef), active := true, reason := None,
       suspension := None, activation := Some(ActivationFor(hs, q, w)))
  }

  function Finalize(p: Profile, hs: Hashes, o: Order, q: Queue, w: World): Option<Queue> {
    if Valid(p, q) && !q.active && Requested(p, w) && Advances(q, w) && Quiet(q, w.history) &&
       AllFinal(p, hs, o, q, w, |q.items|)
    then
      var updated := Activated(hs, q, w, FinalItems(p, hs, o, q, w, |q.items|));
      if Valid(p, updated) then Some(updated) else None
    else None
  }

  method FinalizeAndRepin(p: Profile, hs: Hashes, o: Order, q: Queue, w: World) returns (r: Option<Queue>)
    ensures r == Finalize(p, hs, o, q, w)
  {
    var ok := ValidateQueue(p, q);
    if !ok || q.active || !Requested(p, w) || !Advances(q, w) || !Quiet(q, w.history) { return None; }
    var items := FinishItems(p, hs, o, q, w);
    if items.None? { return None; }
    var updated := q.(items := items.value);
    updated := updated.(dispatch := updated.dispatch.(rulespecRef := w.newRef));
    updated := updated.(active := true, reason := None, suspension := None);
    updated := updated.(activation := Some(ActivationFor(hs, q, w)));
    ok := ValidateQueue(p, updated);
    return if ok then Some(updated) else None;
  }

  method FinishItems(p: Profile, hs: Hashes, o: Order, q: Queue, w: World) returns (r: Option<seq<Item>>)
    ensures r.Some? <==> AllFinal(p, hs, o, q, w, |q.items|)
    ensures r.Some? ==> r.value == FinalItems(p, hs, o, q, w, |q.items|)
  {
    var items := [];
    for i := 0 to |q.items|
      invariant AllFinal(p, hs, o, q, w, i) && items == FinalItems(p, hs, o, q, w, i)
    {
      var it := FinishItem(p, hs, o, q, w, q.items[i]);
      if it.None? { return None; }
      items := items + [it.value];
    }
    return Some(items);
  }

  method FinishItem(p: Profile, hs: Hashes, o: Order, q: Queue, w: World, it: Item) returns (r: Option<Item>)
    ensures r == FinalItem(p, hs, o, q, w, it)
  {
    if it.status.Completed? { return if Stands(q, w, it) then Some(it) else None; }
    if !Selectable(it.status) { return Some(it); }
    var reason := ReconcileOne(TagOf(hs, q, it), o, w.history);
    if reason.New? { return Some(it); }
    if !reason.Merged? { return None; }
    var e := CompletionOf(p, hs, q, w, it, reason.pr, reason.run);
    if e.None? { return None; }
    return Some(it.(status := Completed, evidence := e));
  }

  // ---------------------------------------------------------------- steps and runs

  /** What is fixed about a run: the profile, the digests, and commit ancestry as the git history has it. */
  datatype System = System(p: Profile, hs: Hashes, o: Order, ancestor: (string, string) -> bool, file: Queue -> string)

  ghost predicate Repinned(sys: System, prev: Queue, next: Queue, w: World) {
    w.ancestor == sys.ancestor && Finalize(sys.p, sys.hs, sys.o, prev, w) == Some(next)
  }

  /** An accepted transition: through the gate to a paused queue, or by a finalization to an active one. */
  ghost predicate Step(sys: System, prev: Queue, next: Queue) {
    Gate(sys.p, next, prev, sys.file(prev)) || exists w :: Repinned(sys, prev, next, w)
  }

  ghost predicate IsRun(sys: System, run: seq<Queue>) {
    forall k :: 0 <= k < |run| - 1 ==> Step(sys, run[k], run[k + 1])
  }

  /** The queue has been active: it is now, or it carries suspension evidence. */
  predicate Sealed(q: Queue) { q.active || q.suspension.Some? }

  predicate SamePins(a: Queue, b: Queue) {
    a.release == b.release && a.dispatch.corpusRef == b.dispatch.corpusRef &&
    a.dispatch.rulesEngineRef == b.dispatch.rulesEngineRef && a.dispatch.policy == b.dispatch.policy
  }

  predicate PinsKept(sys: System, prev: Queue, next: Queue) {
    Sealed(prev) ==>
      && Sealed(next) && SamePins(prev, next)
      && if next.active
         then next.dispatch.rulespecRef != prev.dispatch.rulespecRef &&
              sys.ancestor(prev.dispatch.rulespecRef, next.dispatch.rulespecRef)
         else next.dispatch.rulespecRef == prev.dispatch.rulespecRef
  }

  /** Once sealed, always sealed; the pins stay, and the RuleSpec base moves only by activation, to a proper
      descendant. */
  lemma StepKeepsPins(sys: System, prev: Queue, next: Queue)
    requires Step(sys, prev, next)
    ensures PinsKept(sys, prev, next)
  {
    if Gate(sys.p, next, prev, sys.file(prev)) {
      GateKeepsPins(sys.p, next, prev, sys.file(prev));
    }
  }

  lemma GateKeepsPins(p: Profile, q: Queue, prev: Queue, file: string)
    requires Gate(p, q, prev, file)
    ensures !q.active
    ensures Sealed(prev) ==> q.suspension.Some? && q.dispatch == prev.dispatch && q.release == prev.release
  {
  }

  /** How an accepted transition treats one item. */
  predicate ItemKept(sys: System, prev: Queue, next: Queue, i: nat)
    requires i < |prev.items| && i < |next.items|
  {
    var a, b := prev.items[i], next.items[i];
    && b.identity == a.identity
    && (Terminal(a.status) ==> b == a)
    && a.attempt <= b.attempt <= a.attempt + 1
    && (b.attempt == a.attempt + 1 ==> b.status.Retryable? && b.evidence.None?)
    && (b.status.Retryable? && b != a ==> b.attempt == a.attempt + 1)
    && (b.status.Completed? && !a.status.Completed? ==>
          next.active && b.attempt == a.attempt && b.evidence.Some? && b.evidence.value.MergedPr? &&
          b.evidence.value.generation == sys.hs.generation(GenerationOf(prev, a)))
  }

  lemma FinalItemKept(p: Profile, hs: Hashes, o: Order, q: Queue, w: World, it: Item)
    requires FinalItem(p, hs, o, q, w, it).Some?
    ensures var b := FinalItem(p, hs, o, q, w, it).value;
            && b.identity == it.identity && b.attempt == it.attempt && (Terminal(it.status) ==> b == it)
            && (b.status.Retryable? ==> b == it)
            && (b.status.Completed? && !it.status.Completed? ==>
                  b.evidence.Some? && b.evidence.value.MergedPr? &&
                  b.evidence.value.generation == hs.generation(GenerationOf(q, it)))
  {
  }

  /** Finalization completes an item only on a merged pull request and a trusted successful run of the
      item's own generation, and only if the new base contains the recorded merge commit. */
  lemma CompletionIsBacked(p: Profile, hs: Hashes, o: Order, q: Queue, w: World, it: Item)
    requires Rearranges(o) && FinalItem(p, hs, o, q, w, it).Some?
    requires FinalItem(p, hs, o, q, w, it).value.status.Completed? && !it.status.Completed?
    ensures var t := TagOf(hs, q, it);
            var e := FinalItem(p, hs, o, q, w, it).value.evidence;
            && e.Some? && e.value.MergedPr? && w.ancestor(e.value.mergeCommit, w.newRef)
            && (exists i :: 0 <= i < |w.history.prs| && IsPrOf(t, w.history.prs[i]) && w.history.prs[i].merged &&
                  w.history.prs[i].url == Some(e.value.url))
            && (exists i :: 0 <= i < |w.history.runs| && IsRunOf(t, w.history.runs[i]) && w.history.runs[i].trusted &&
                  w.history.runs[i].conclusion == Some("success") && w.history.runs[i].url == Some(e.value.runUrl))
  {
    MergeIsBacked(TagOf(hs, q, it), o, w.history);
  }

  predicate ItemsKept(sys: System, prev: Queue, next: Queue) {
    |next.items| == |prev.items| && forall i :: 0 <= i < |next.items| ==> ItemKept(sys, prev, next, i)
  }

  lemma StepKeepsItems(sys: System, prev: Queue, next: Queue)
    requires Step(sys, prev, next)
    ensures ItemsKept(sys, prev, next)
  {
    if Gate(sys.p, next, prev, sys.file(prev)) {
      GateAligns(sys.p, next, prev, sys.file(prev));
      assert forall i :: 0 <= i < |next.items| ==> ItemOk(sys.p, next.header.issue, next.items[i], i);
    } else {
      var w :| Repinned(sys, prev, next, w);
      forall i | 0 <= i < |next.items| ensures ItemKept(sys, prev, next, i) {
        FinalItemKept(sys.p, sys.hs, sys.o, prev, w, prev.items[i]);
      }
    }
  }

  // ---------------------------------------------------------------- whole runs

  /** Ancestry of commits: a partial order. */
  ghost predicate PartialOrder(below: (string, string) -> bool) {
    && (forall a, b, c :: below(a, b) && below(b, c) ==> below(a, c))
    && (forall a, b :: below(a, b) && below(b, a) ==> a == b)
  }

  /** What each transition of a run keeps. */
  predicate KeptThroughout(sys: System, run: seq<Queue>) {
    forall k :: 0 <= k < |run| - 1 ==> PinsKept(sys, run[k], run[k + 1]) && ItemsKept(sys, run[k], run[k + 1])
  }

  lemma RunKeeps(sys: System, run: seq<Queue>)
    requires IsRun(sys, run)
    ensures KeptThroughout(sys, run)
  {
    forall k | 0 <= k < |run| - 1 ensures PinsKept(sys, run[k], run[k + 1]) && ItemsKept(sys, run[k], run[k + 1]) {
      assert Step(sys, run[k], run[k + 1]);
      StepKeepsPins(sys, run[k], run[k + 1]);
      StepKeepsItems(sys, run[k], run[k + 1]);
    }
  }

  predicate PinsFrom(sys: System, a: Queue, b: Queue) {
    && Sealed(b) && SamePins(a, b)
    && (a.dispatch.rulespecRef == b.dispatch.rulespecRef ||
        sys.ancestor(a.dispatch.rulespecRef, b.dispatch.rulespecRef))
  }

  lemma {:induction false} PinsStay(sys: System, run: seq<Queue>, i: nat, j: nat)
    requires KeptThroughout(sys, run) && PartialOrder(sys.ancestor) && i <= j < |run| && Sealed(run[i])
    ensures PinsFrom(sys, run[i], run[j])
    decreases j - i
  {
    if i < j {
      assert PinsKept(sys, run[i], run[i + 1]);
      PinsStay(sys, run, i + 1, j);
    }
  }

  /** Over every run, from the first activation on the release, the corpus and engine refs and the policy
      never change again, and the RuleSpec base only moves forward. */
  lemma PinsAreFixed(sys: System, run: seq<Queue>, i: nat, j: nat)
    requires IsRun(sys, run) && PartialOrder(sys.ancestor) && i <= j < |run| && Sealed(run[i])
    ensures PinsFrom(sys, run[i], run[j])
  {
    RunKeeps(sys, run);
    PinsStay(sys, run, i, j);
  }

  /** Each activation after the first gives a RuleSpec base that no earlier sealed state had. */
  lemma EpochsDiffer(sys: System, run: seq<Queue>, i: nat, k: nat, j: nat)
    requires KeptThroughout(sys, run) && PartialOrder(sys.ancestor)
    requires i < k <= j < |run| && Sealed(run[i]) && run[k].active
    ensures run[i].dispatch.rulespecRef != run[j].dispatch.rulespecRef
  {
    PinsStay(sys, run, i, k - 1);
    assert PinsKept(sys, run[k - 1], run[k]);
    PinsStay(sys, run, k, j);
  }

  /** Hence generations of different activation epochs never coincide, whatever the items. */
  lemma GenerationsOfEpochsDiffer(sys: System, run: seq<Queue>, i: nat, k: nat, j: nat, a: Item, b: Item)
    requires IsRun(sys, run) && PartialOrder(sys.ancestor) && Injective(sys.hs)
    requires i < k <= j < |run| && Sealed(run[i]) && run[k].active
    ensures sys.hs.generation(GenerationOf(run[i], a)) != sys.hs.generation(GenerationOf(run[j], b))
  {
    RunKeeps(sys, run);
    EpochsDiffer(sys, run, i, k, j);
    assert GenerationOf(run[i], a) != GenerationOf(run[j], b);
  }

  predicate ItemFrom(a: Item, b: Item, steps: nat) {
    && b.identity == a.identity && (Terminal(a.status) ==> b == a)
    && a.attempt <= b.attempt <= a.attempt + steps
  }

  lemma {:induction false} ItemsStay(sys: System, run: seq<Queue>, i: nat, j: nat, n: nat)
    requires KeptThroughout(sys, run) && i <= j < |run| && n < |run[i].items|
    ensures |run[j].items| == |run[i].items| && ItemFrom(run[i].items[n], run[j].items[n], j - i)
    decreases j - i
  {
    if i < j {
      assert ItemsKept(sys, run[i], run[i + 1]);
      assert ItemKept(sys, run[i], run[i + 1], n);
      ItemsStay(sys, run, i + 1, j, n);
    }
  }

  /** Over every run, items keep identity and order, a terminal item never changes again, and attempts never
      fall and grow by at most one a step. */
  lemma ItemsAreFixed(sys: System, run: seq<Queue>, i: nat, j: nat, n: nat)
    requires IsRun(sys, run) && i <= j < |run| && n < |run[i].items|
    ensures |run[j].items| == |run[i].items| && ItemFrom(run[i].items[n], run[j].items[n], j - i)
  {
    RunKeeps(sys, run);
    ItemsStay(sys, run, i, j, n);
  }

  /** The step from `k` completes item `n`, by a finalization and with the digest of its generation before. */
  predicate CompletedAt(sys: System, run: seq<Queue>, k: nat, n: nat) {
    && k < |run| - 1 && n < |run[k].items| && n < |run[k + 1].items|
    && !run[k].items[n].status.Completed? && run[k + 1].items[n].status.Completed? && run[k + 1].active
    && run[k + 1].items[n].evidence.Some? && run[k + 1].items[n].evidence.value.MergedPr?
    && run[k + 1].items[n].evidence.value.generation == sys.hs.generation(GenerationOf(run[k], run[k].items[n]))
  }

  lemma {:induction false} FindCompletion(sys: System, run: seq<Queue>, i: nat, j: nat, n: nat) returns (k: nat)
    requires KeptThroughout(sys, run) && i <= j < |run| && n < |run[i].items| && n < |run[j].items|
    requires !run[i].items[n].status.Completed? && run[j].items[n].status.Completed?
    ensures i <= k < j && CompletedAt(sys, run, k, n) && run[j].items[n] == run[k + 1].items[n]
    decreases j - i
  {
    assert ItemsKept(sys, run[i], run[i + 1]);
    assert ItemKept(sys, run[i], run[i + 1], n);
    if run[i + 1].items[n].status.Completed? {
      ItemsStay(sys, run, i + 1, j, n);
      k := i;
    } else {
      k := FindCompletion(sys, run, i + 1, j, n);
    }
  }

  /** An item that is completed later but was not before was completed by one finalization in between. */
  lemma CompletedByFinalization(sys: System, run: seq<Queue>, i: nat, j: nat, n: nat)
    requires IsRun(sys, run) && i <= j < |run| && n < |run[i].items| && n < |run[j].items|
    requires !run[i].items[n].status.Completed? && run[j].items[n].status.Completed?
    ensures exists k :: i <= k < j && CompletedAt(sys, run, k, n) && run[j].items[n] == run[k + 1].items[n]
  {
    RunKeeps(sys, run);
    var k := FindCompletion(sys, run, i, j, n);
  }
}
