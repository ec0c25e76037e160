/**
 Generations of queue items, and reconciling candidate items with the history of pull requests and
 workflow runs: an item is dispatchable only if nothing in the history belongs to its generation.
 */
module QueueHistory {
  import opened Common
  import opened SignedQueue

  /** The trust identity of one attempt at an item. */
  datatype Generation = Generation(attempt: int, citation: string, dispatch: Dispatch, itemId: string, queueId: string,
                                   release: Release)

  function GenerationOf(q: Queue, it: Item): Generation {
    Generation(it.attempt, it.identity.citation, q.dispatch, it.identity.id, q.header.queueId, q.release)
  }

  /** Digests of canonical serializations, taken to be injective. */
  datatype Hashes = Hashes(generation: Generation -> string, queue: Queue -> string)

  ghost predicate Injective(h: Hashes) {
    && (forall a, b :: h.generation(a) == h.generation(b) ==> a == b)
    && (forall a, b :: h.queue(a) == h.queue(b) ==> a == b)
  }

  const RULESPEC_REPOSITORY := "TheAxiomFoundation/rulespec-us"

  /** `runUrl` is the run that the body names, if any. */
  datatype PullRequest = PullRequest(url: Option<string>, body: string, baseRef: Option<string>,
                                     headRepo: Option<string>, headSha: string, open: bool, merged: bool,
                                     mergeCommit: Option<string>,
                                     runUrl: Option<string>)

  /** `trusted`: dispatched on the main branch by the workflow bot for the targeted re-encode workflow. */
  datatype Run = Run(url: Option<string>, title: string, completed: bool, conclusion: Option<string>, trusted: bool)

  datatype History = History(prs: seq<PullRequest>, runs: seq<Run>)

  /** The order in which pull requests and runs are considered: some rearrangement, newest first. */
  datatype Order = Order(prs: seq<PullRequest> -> seq<PullRequest>, runs: seq<Run> -> seq<Run>)

  ghost predicate Rearranges(o: Order) {
    && (forall s :: multiset(o.prs(s)) == multiset(s))
    && (forall s :: multiset(o.runs(s)) == multiset(s))
  }

  predicate Contains(text: string, part: string) {
    part <= text || (text != [] && Contains(text[1..], part))
  }

  /** What identifies an item's generation in the history. */
  datatype Tag = Tag(queueId: string, itemId: string, citation: string, rulespecRef: string, baseBranch: string,
                     generation: string)

  function TagOf(h: Hashes, q: Queue, it: Item): Tag {
    Tag(q.header.queueId, it.identity.id, it.identity.citation, q.dispatch.rulespecRef, q.dispatch.policy.baseBranch,
        h.generation(GenerationOf(q, it)))
  }

  function RunMarker(t: Tag): string { "[" + t.queueId + ":" + t.itemId + ":" + t.generation + "]" }

  predicate FromQueueBranch(pr: PullRequest, baseBranch: string) {
    pr.baseRef == Some(baseBranch) && pr.headRepo == Some(RULESPEC_REPOSITORY)
  }

  predicate IsPrOf(t: Tag, pr: PullRequest) {
    && Contains(pr.body, "Queue item: `" + t.queueId + "/" + t.itemId + "`")
    && Contains(pr.body, "Citation: `" + t.citation + "`")
    && Contains(pr.body, "Base commit: `" + t.rulespecRef + "`")
    && Contains(pr.body, "Base branch: `" + t.baseBranch + "`")
    && Contains(pr.body, "Queue generation SHA-256: `" + t.generation + "`")
    && FromQueueBranch(pr, t.baseBranch)
  }

  predicate IsRunOf(t: Tag, run: Run) { Contains(run.title, RunMarker(t)) }

  function PrsOf(t: Tag, prs: seq<PullRequest>): seq<PullRequest> {
    if prs == [] then []
    else PrsOf(t, prs[..|prs| - 1]) + if IsPrOf(t, prs[|prs| - 1]) then [prs[|prs| - 1]] else []
  }

  function RunsOf(t: Tag, runs: seq<Run>): seq<Run> {
    if runs == [] then []
    else RunsOf(t, runs[..|runs| - 1]) + if IsRunOf(t, runs[|runs| - 1]) then [runs[|runs| - 1]] else []
  }

  // ---------------------------------------------------------------- one decision

  datatype Reason =
    | Merged(pr: PullRequest, run: Run)
    | UntrustedMerged
    | OpenPr
    | ClosedUnmerged
    | ActiveRun
    | SuccessfulRunWithoutPr
    | FailedRun(conclusion: string)
    | New

  function FirstRun(runs: seq<Run>, url: Option<string>): Option<Run> {
    if runs == [] then None else if runs[0].url == url then Some(runs[0]) else FirstRun(runs[1..], url)
  }

  predicate Proves(t: Tag, run: Option<Run>) {
    && run.Some? && run.value.completed && run.value.conclusion == Some("success")
    && run.value.trusted && IsRunOf(t, run.value)
  }

  /** The first merged pull request whose named run is a trusted success for this generation. */
  function TrustedMerge(t: Tag, prs: seq<PullRequest>, runs: seq<Run>): Option<Reason> {
    if prs == [] then None
    else
      var run := FirstRun(runs, prs[0].runUrl);
      if prs[0].merged && Proves(t, run) then Some(Merged(prs[0], run.value)) else TrustedMerge(t, prs[1..], runs)
  }

  predicate AnyMerged(prs: seq<PullRequest>) { exists i :: 0 <= i < |prs| && prs[i].merged }

  predicate AnyOpen(prs: seq<PullRequest>) { exists i :: 0 <= i < |prs| && prs[i].open }

  function FromRuns(runs: seq<Run>): Reason {
    if runs == [] then New
    else if !runs[0].completed || runs[0].conclusion.None? then ActiveRun
    else if runs[0].conclusion.value == "success" then SuccessfulRunWithoutPr
    else FailedRun(runs[0].conclusion.value)
  }

  function ReasonFor(t: Tag, o: Order, h: History): Reason {
    var prs := o.prs(PrsOf(t, h.prs));
    match TrustedMerge(t, prs, h.runs)
    case Some(r) => r
    case None =>
      if AnyMerged(prs) then UntrustedMerged
      else if AnyOpen(prs) then OpenPr
      else if prs != [] then ClosedUnmerged
      else FromRuns(o.runs(RunsOf(t, h.runs)))
  }

  // ---------------------------------------------------------------- the reconciliation loops

  method MatchingPrs(t: Tag, prs: seq<PullRequest>) returns (r: seq<PullRequest>)
    ensures r == PrsOf(t, prs)
  {
    r := [];
    for i := 0 to |prs|
      invariant r == PrsOf(t, prs[..i])
    {
      assert prs[..i + 1][..i] == prs[..i];
      if IsPrOf(t, prs[i]) { r := r + [prs[i]]; }
    }
    assert prs[..|prs|] == prs;
  }

  method MatchingRuns(t: Tag, runs: seq<Run>) returns (r: seq<Run>)
    ensures r == RunsOf(t, runs)
  {
    r := [];
    for i := 0 to |runs|
      invariant r == RunsOf(t, runs[..i])
    {
      assert runs[..i + 1][..i] == runs[..i];
      if IsRunOf(t, runs[i]) { r := r + [runs[i]]; }
    }
    assert runs[..|runs|] == runs;
  }

  /** The scan over merged pull requests: the proving one, or whether any was merged at all. */
  method ScanMerged(t: Tag, prs: seq<PullRequest>, runs: seq<Run>) returns (merged: Option<Reason>, untrusted: bool)
    ensures merged == TrustedMerge(t, prs, runs)
    ensures merged.None? ==> untrusted == AnyMerged(prs)
  {
    untrusted := false;
    assert prs[0..] == prs;
    for i := 0 to |prs|
      invariant TrustedMerge(t, prs, runs) == TrustedMerge(t, prs[i..], runs)
      invariant untrusted == exists k :: 0 <= k < i && prs[k].merged
    {
      assert prs[i..][1..] == prs[i + 1..];
      if prs[i].merged {
        untrusted := true;
        var run := FirstRun(runs, prs[i].runUrl);
        if Proves(t, run) { return Some(Merged(prs[i], run.value)), true; }
      }
    }
    merged := None;
  }

  /** An item is dispatchable when the reason is `New`. */
  datatype Decision = Decision(item: Item, tag: Tag, reason: Reason)

  method ReconcileOne(t: Tag, o: Order, h: History) returns (r: Reason)
    ensures r == ReasonFor(t, o, h)
  {
    var matching := MatchingPrs(t, h.prs);
    matching := o.prs(matching);
    var merged, untrusted := ScanMerged(t, matching, h.runs);
    if merged.Some? { return merged.value; }
    if untrusted { return UntrustedMerged; }
    if AnyOpen(matching) { return OpenPr; }
    if matching != [] { return ClosedUnmerged; }
    var runs := MatchingRuns(t, h.runs);
    runs := o.runs(runs);
    if runs != [] {
      var latest := runs[0];
      if !latest.completed || latest.conclusion.None? { return ActiveRun; }
      if latest.conclusion.value == "success" { return SuccessfulRunWithoutPr; }
      return FailedRun(latest.conclusion.value);
    }
    return New;
  }

  method ReconcileCandidates(hs: Hashes, q: Queue, items: seq<Item>, o: Order, h: History) returns (r: seq<Decision>)
    ensures |r| == |items|
    ensures forall i :: 0 <= i < |items| ==>
              r[i] == Decision(items[i], TagOf(hs, q, items[i]), ReasonFor(TagOf(hs, q, items[i]), o, h))
  {
    r := [];
    for i := 0 to |items|
      invariant |r| == i
      invariant forall k :: 0 <= k < i ==>
                  r[k] == Decision(items[k], TagOf(hs, q, items[k]), ReasonFor(TagOf(hs, q, items[k]), o, h))
    {
      var tag := TagOf(hs, q, items[i]);
      var reason := ReconcileOne(tag, o, h);
      r := r + [Decision(items[i], tag, reason)];
    }
  }

  // ---------------------------------------------------------------- what makes an item dispatchable

  lemma {:induction false} PrsOfHave(t: Tag, prs: seq<PullRequest>)
    ensures PrsOf(t, prs) == [] <==> forall i :: 0 <= i < |prs| ==> !IsPrOf(t, prs[i])
  {
    if prs != [] {
      PrsOfHave(t, prs[..|prs| - 1]);
      assert forall i :: 0 <= i < |prs| - 1 ==> prs[..|prs| - 1][i] == prs[i];
    }
  }

  lemma {:induction false} RunsOfHave(t: Tag, runs: seq<Run>)
    ensures RunsOf(t, runs) == [] <==> forall i :: 0 <= i < |runs| ==> !IsRunOf(t, runs[i])
  {
    if runs != [] {
      RunsOfHave(t, runs[..|runs| - 1]);
      assert forall i :: 0 <= i < |runs| - 1 ==> runs[..|runs| - 1][i] == runs[i];
    }
  }

  lemma EmptyRearranged<T>(s: seq<T>, t: seq<T>)
    requires multiset(s) == multiset(t)
    ensures s == [] <==> t == []
  {
    if s != [] { assert s[0] in multiset(t); }
    if t != [] { assert t[0] in multiset(s); }
  }

  lemma {:induction false} MergeIsListed(t: Tag, prs: seq<PullRequest>, runs: seq<Run>)
    ensures match TrustedMerge(t, prs, runs)
            case None => true
            case Some(r) =>
              && prs != [] && r.Merged? && r.pr in prs && r.pr.merged
              && Proves(t, Some(r.run)) && r.run in runs
  {
    if prs != [] {
      MergeIsListed(t, prs[1..], runs);
      FirstRunIs(runs, prs[0].runUrl);
    }
  }

  lemma {:induction false} FirstRunIs(runs: seq<Run>, url: Option<string>)
    ensures FirstRun(runs, url).Some? ==> FirstRun(runs, url).value in runs && FirstRun(runs, url).value.url == url
  {
    if runs != [] { FirstRunIs(runs[1..], url); }
  }

  lemma {:induction false} PrOfIsListed(t: Tag, prs: seq<PullRequest>, pr: PullRequest)
    requires pr in PrsOf(t, prs)
    ensures pr in prs && IsPrOf(t, pr)
  {
    if pr in PrsOf(t, prs[..|prs| - 1]) { PrOfIsListed(t, prs[..|prs| - 1], pr); }
  }

  /** A merge that counts is a merged pull request of this very generation whose run, also of this
      generation, is a trusted and completed success; both are in the history. */
  lemma MergeIsBacked(t: Tag, o: Order, h: History)
    requires Rearranges(o) && ReasonFor(t, o, h).Merged?
    ensures var r := ReasonFor(t, o, h);
            && r.pr in h.prs && IsPrOf(t, r.pr) && r.pr.merged
            && r.run in h.runs && IsRunOf(t, r.run) && r.run.trusted && r.run.conclusion == Some("success")
  {
    var prs := o.prs(PrsOf(t, h.prs));
    MergeIsListed(t, prs, h.runs);
    var r := ReasonFor(t, o, h);
    assert r.pr in multiset(prs);
    assert r.pr in multiset(PrsOf(t, h.prs));
    PrOfIsListed(t, h.prs, r.pr);
  }

  /** An item is dispatchable exactly when no pull request and no run in the history has its generation. */
  lemma DispatchableIff(t: Tag, o: Order, h: History)
    requires Rearranges(o)
    ensures ReasonFor(t, o, h).New? <==>
            && (forall i :: 0 <= i < |h.prs| ==> !IsPrOf(t, h.prs[i]))
            && (forall i :: 0 <= i < |h.runs| ==> !IsRunOf(t, h.runs[i]))
  {
    PrsOfHave(t, h.prs);
    RunsOfHave(t, h.runs);
    EmptyRearranged(o.prs(PrsOf(t, h.prs)), PrsOf(t, h.prs));
    EmptyRearranged(o.runs(RunsOf(t, h.runs)), RunsOf(t, h.runs));
    MergeIsListed(t, o.prs(PrsOf(t, h.prs)), h.runs);
  }

  // ---------------------------------------------------------------- dispatching over time

  /** A moment: the queue and the history then, and the item dispatched then, if any. */
  datatype Moment = Moment(queue: Queue, history: History, dispatched: Option<Item>)

  predicate Keeps(before: History, after: History) {
    forall i :: 0 <= i < |before.runs| ==>
      exists j :: 0 <= j < |after.runs| && after.runs[j].title == before.runs[i].title
  }

  predicate HasRun(t: Tag, h: History) { exists i :: 0 <= i < |h.runs| && IsRunOf(t, h.runs[i]) }

  /** Only a dispatchable item is dispatched, a dispatch leaves its marked run, and no run disappears. */
  predicate DispatchOk(hs: Hashes, o: Order, m: Moment, next: History) {
    && Keeps(m.history, next)
    && (m.dispatched.Some? ==>
          ReasonFor(TagOf(hs, m.queue, m.dispatched.value), o, m.history).New? &&
          HasRun(TagOf(hs, m.queue, m.dispatched.value), next))
  }

  predicate Dispatches(hs: Hashes, o: Order, ms: seq<Moment>) {
    forall k :: 0 <= k < |ms| - 1 ==> DispatchOk(hs, o, ms[k], ms[k + 1].history)
  }

  lemma RunKept(t: Tag, before: History, after: History)
    requires HasRun(t, before) && Keeps(before, after)
    ensures HasRun(t, after)
  {
    var i :| 0 <= i < |before.runs| && IsRunOf(t, before.runs[i]);
    var j :| 0 <= j < |after.runs| && after.runs[j].title == before.runs[i].title;
    assert IsRunOf(t, after.runs[j]);
  }

  lemma {:induction false} RunStays(hs: Hashes, o: Order, ms: seq<Moment>, t: Tag, i: nat, j: nat)
    requires Dispatches(hs, o, ms) && i <= j < |ms| && HasRun(t, ms[i].history)
    ensures HasRun(t, ms[j].history)
    decreases j - i
  {
    if i < j {
      assert DispatchOk(hs, o, ms[i], ms[i + 1].history);
      RunKept(t, ms[i].history, ms[i + 1].history);
      RunStays(hs, o, ms, t, i + 1, j);
    }
  }

  /** No generation is ever dispatched twice. */
  lemma NoGenerationTwice(hs: Hashes, o: Order, ms: seq<Moment>, i: nat, j: nat)
    requires Injective(hs) && Rearranges(o) && Dispatches(hs, o, ms) && i < j < |ms| - 1
    requires ms[i].dispatched.Some? && ms[j].dispatched.Some?
    ensures TagOf(hs, ms[i].queue, ms[i].dispatched.value).generation !=
            TagOf(hs, ms[j].queue, ms[j].dispatched.value).generation
  {
    var t := TagOf(hs, ms[i].queue, ms[i].dispatched.value);
    var u := TagOf(hs, ms[j].queue, ms[j].dispatched.value);
    assert HasRun(t, ms[i + 1].history) by { assert DispatchOk(hs, o, ms[i], ms[i + 1].history); }
    assert HasRun(t, ms[j].history) by { RunStays(hs, o, ms, t, i + 1, j); }
    assert !HasRun(u, ms[j].history) by {
      assert DispatchOk(hs, o, ms[j], ms[j + 1].history);
      DispatchableIff(u, o, ms[j].history);
    }
    TagsAgree(hs, ms[i].queue, ms[i].dispatched.value, ms[j].queue, ms[j].dispatched.value);
  }

  /** The digest of a generation determines everything that identifies it in the history. */
  lemma TagsAgree(hs: Hashes, q: Queue, it: Item, r: Queue, other: Item)
    requires Injective(hs)
    ensures TagOf(hs, q, it).generation == TagOf(hs, r, other).generation ==> TagOf(hs, q, it) == TagOf(hs, r, other)
  {
  }
}
