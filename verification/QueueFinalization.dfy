/** When finalization succeeds, and what it makes of each item, in terms of the history. */
module QueueFinalization {
  import opened Common
  import opened SignedQueue
  import opened QueueHistory
  import opened QueueRuns

  // ---------------------------------------------------------------- every reason, by what the history holds

  predicate SomePr(t: Tag, h: History) { exists i :: 0 <= i < |h.prs| && IsPrOf(t, h.prs[i]) }

  predicate SomeMerged(t: Tag, h: History) { exists i :: 0 <= i < |h.prs| && IsPrOf(t, h.prs[i]) && h.prs[i].merged }

  predicate SomeOpen(t: Tag, h: History) { exists i :: 0 <= i < |h.prs| && IsPrOf(t, h.prs[i]) && h.prs[i].open }

  predicate SomeRun(t: Tag, h: History) { exists i :: 0 <= i < |h.runs| && IsRunOf(t, h.runs[i]) }

  /** A merged pull request of the generation whose named run, the first with its URL, is a trusted and
      completed success for the generation. */
  predicate IsProven(t: Tag, h: History, pr: PullRequest) {
    && IsPrOf(t, pr) && pr.merged
    && var run := FirstRun(h.runs, pr.runUrl);
       && run.Some? && run.value.completed && run.value.conclusion == Some("success")
       && run.value.trusted && IsRunOf(t, run.value)
  }

  predicate SomeProven(t: Tag, h: History) { exists i :: 0 <= i < |h.prs| && IsProven(t, h, h.prs[i]) }

  lemma {:induction false} PrsOfAre(t: Tag, prs: seq<PullRequest>, pr: PullRequest)
    ensures pr in PrsOf(t, prs) <==> pr in prs && IsPrOf(t, pr)
  {
    if prs != [] {
      var n := |prs| - 1;
      PrsOfAre(t, prs[..n], pr);
      assert prs == prs[..n] + [prs[n]];
    }
  }

  lemma {:induction false} RunsOfAre(t: Tag, runs: seq<Run>, run: Run)
    ensures run in RunsOf(t, runs) <==> run in runs && IsRunOf(t, run)
  {
    if runs != [] {
      var n := |runs| - 1;
      RunsOfAre(t, runs[..n], run);
      assert runs == runs[..n] + [runs[n]];
    }
  }

  lemma Rearranged<T>(a: seq<T>, b: seq<T>, x: T)
    requires multiset(a) == multiset(b)
    ensures x in a <==> x in b
  {
    assert x in a <==> x in multiset(a);
    assert x in b <==> x in multiset(b);
  }

  /** The pull requests that are looked at, in the order in which they are. */
  function Considered(t: Tag, o: Order, h: History): seq<PullRequest> { o.prs(PrsOf(t, h.prs)) }

  lemma ConsideredAre(t: Tag, o: Order, h: History, pr: PullRequest)
    requires Rearranges(o)
    ensures pr in Considered(t, o, h) <==> pr in h.prs && IsPrOf(t, pr)
  {
    Rearranged(Considered(t, o, h), PrsOf(t, h.prs), pr);
    PrsOfAre(t, h.prs, pr);
  }

  lemma {:induction false} FirstMergeIs(t: Tag, prs: seq<PullRequest>, h: History)
    requires forall k :: 0 <= k < |prs| ==> IsPrOf(t, prs[k])
    ensures match TrustedMerge(t, prs, h.runs)
            case None => forall k :: 0 <= k < |prs| ==> !IsProven(t, h, prs[k])
            case Some(r) =>
              exists k :: 0 <= k < |prs| && IsProven(t, h, prs[k]) &&
                (forall j :: 0 <= j < k ==> !IsProven(t, h, prs[j])) &&
                r == Merged(prs[k], FirstRun(h.runs, prs[k].runUrl).value)
  {
    if prs != [] && !IsProven(t, h, prs[0]) {
      FirstMergeIs(t, prs[1..], h);
      match TrustedMerge(t, prs, h.runs)
      case None =>
        forall k | 0 <= k < |prs| ensures !IsProven(t, h, prs[k]) {
          if k > 0 { assert prs[1..][k - 1] == prs[k]; }
        }
      case Some(r) =>
        var k :| 0 <= k < |prs| - 1 && IsProven(t, h, prs[1..][k]) &&
                 (forall j :: 0 <= j < k ==> !IsProven(t, h, prs[1..][j])) &&
                 r == Merged(prs[1..][k], FirstRun(h.runs, prs[1..][k].runUrl).value);
        assert prs[k + 1] == prs[1..][k];
        forall j | 0 <= j < k + 1 ensures !IsProven(t, h, prs[j]) {
          if j > 0 { assert prs[1..][j - 1] == prs[j]; }
        }
    }
  }

  /** The first proven pull request in the order considered. */
  predicate FirstProven(t: Tag, o: Order, h: History, k: nat) {
    && k < |Considered(t, o, h)| && IsProven(t, h, Considered(t, o, h)[k])
    && forall j :: 0 <= j < k ==> !IsProven(t, h, Considered(t, o, h)[j])
  }

  /** The run considered newest among those of the generation. */
  predicate NewestRun(t: Tag, o: Order, h: History, run: Run) {
    o.runs(RunsOf(t, h.runs)) != [] && run == o.runs(RunsOf(t, h.runs))[0]
  }

  lemma NewestExists(t: Tag, o: Order, h: History)
    requires Rearranges(o)
    ensures SomeRun(t, h) <==> o.runs(RunsOf(t, h.runs)) != []
    ensures forall run :: NewestRun(t, o, h, run) ==> run in h.runs && IsRunOf(t, run)
  {
    var newest := o.runs(RunsOf(t, h.runs));
    RunsOfHave(t, h.runs);
    EmptyRearranged(newest, RunsOf(t, h.runs));
    if newest != [] {
      Rearranged(newest, RunsOf(t, h.runs), newest[0]);
      RunsOfAre(t, h.runs, newest[0]);
    }
  }

  /** Whatever some pull request of the generation satisfies, some considered one does. */
  lemma SomeConsidered(t: Tag, o: Order, h: History, holds: PullRequest -> bool)
    requires Rearranges(o)
    ensures (exists i :: 0 <= i < |h.prs| && IsPrOf(t, h.prs[i]) && holds(h.prs[i])) <==>
            (exists k :: 0 <= k < |Considered(t, o, h)| && holds(Considered(t, o, h)[k]))
  {
    var cs := Considered(t, o, h);
    if i :| 0 <= i < |h.prs| && IsPrOf(t, h.prs[i]) && holds(h.prs[i]) {
      ConsideredAre(t, o, h, h.prs[i]);
      var k :| 0 <= k < |cs| && cs[k] == h.prs[i];
    }
    if k :| 0 <= k < |cs| && holds(cs[k]) {
      ConsideredAre(t, o, h, cs[k]);
      var i :| 0 <= i < |h.prs| && h.prs[i] == cs[k];
    }
  }

  lemma SomePrIs(t: Tag, o: Order, h: History)
    requires Rearranges(o)
    ensures SomePr(t, h) <==> Considered(t, o, h) != []
    ensures SomeMerged(t, h) <==> AnyMerged(Considered(t, o, h))
    ensures SomeOpen(t, h) <==> AnyOpen(Considered(t, o, h))
  {
    PrsOfHave(t, h.prs);
    EmptyRearranged(Considered(t, o, h), PrsOf(t, h.prs));
    SomeConsidered(t, o, h, (pr: PullRequest) => pr.merged);
    SomeConsidered(t, o, h, (pr: PullRequest) => pr.open);
  }

  lemma SomeProvenIs(t: Tag, o: Order, h: History)
    requires Rearranges(o)
    ensures SomeProven(t, h) <==> exists k :: 0 <= k < |Considered(t, o, h)| && IsProven(t, h, Considered(t, o, h)[k])
  {
    SomeConsidered(t, o, h, (pr: PullRequest) => IsProven(t, h, pr));
  }

  /** What each reason says about the history: exactly one applies. */
  lemma ReasonTable(t: Tag, o: Order, h: History)
    requires Rearranges(o)
    ensures var r := ReasonFor(t, o, h);
            && (r.Merged? <==> SomeProven(t, h))
            && (r.UntrustedMerged? <==> SomeMerged(t, h) && !SomeProven(t, h))
            && (r.OpenPr? <==> SomeOpen(t, h) && !SomeMerged(t, h))
            && (r.ClosedUnmerged? <==> SomePr(t, h) && !SomeMerged(t, h) && !SomeOpen(t, h))
            && (r.New? <==> !SomePr(t, h) && !SomeRun(t, h))
    ensures var r := ReasonFor(t, o, h);
            forall run :: NewestRun(t, o, h, run) && !SomePr(t, h) ==>
              && (r.ActiveRun? <==> !run.completed || run.conclusion.None?)
              && (r.SuccessfulRunWithoutPr? <==> run.completed && run.conclusion == Some("success"))
              && (r.FailedRun? <==> run.completed && run.conclusion.Some? && run.conclusion != Some("success"))
              && (r.FailedRun? ==> Some(r.conclusion) == run.conclusion)
    ensures var r := ReasonFor(t, o, h);
            r.ActiveRun? || r.SuccessfulRunWithoutPr? || r.FailedRun? ==> !SomePr(t, h) && SomeRun(t, h)
  {
    var cs := Considered(t, o, h);
    SomePrIs(t, o, h);
    SomeProvenIs(t, o, h);
    NewestExists(t, o, h);
    forall k | 0 <= k < |cs| ensures IsPrOf(t, cs[k]) { ConsideredAre(t, o, h, cs[k]); }
    FirstMergeIs(t, cs, h);
  }

  // ---------------------------------------------------------------- when finalization succeeds

  /** The pull request of the queue that a URL stands for: the last one that has it. */
  predicate StandsFor(q: Queue, h: History, url: string, i: nat) {
    && i < |h.prs| && OfQueue(q, h.prs[i]) && h.prs[i].url == Some(url)
    && forall j :: i < j < |h.prs| ==> !(OfQueue(q, h.prs[j]) && h.prs[j].url == Some(url))
  }

  lemma {:induction false} UrlStandsFor(q: Queue, h: History, url: string, n: nat)
    requires n <= |h.prs|
    ensures match PrByUrl(q, h.prs[..n], url)
            case None => forall i :: 0 <= i < n ==> !(OfQueue(q, h.prs[i]) && h.prs[i].url == Some(url))
            case Some(pr) => exists i :: 0 <= i < n && StandsFor(q, h.(prs := h.prs[..n]), url, i) && pr == h.prs[i]
  {
    if n > 0 {
      var prs := h.prs[..n];
      assert prs[..n - 1] == h.prs[..n - 1];
      UrlStandsFor(q, h, url, n - 1);
      var last := h.prs[n - 1];
      if OfQueue(q, last) && last.url == Some(url) {
        assert StandsFor(q, h.(prs := prs), url, n - 1);
      } else if PrByUrl(q, h.prs[..n - 1], url).Some? {
        var pr := PrByUrl(q, h.prs[..n - 1], url).value;
        var i :| 0 <= i < n - 1 && StandsFor(q, h.(prs := h.prs[..n - 1]), url, i) && pr == h.prs[i];
        assert forall j :: 0 <= j < n - 1 ==> h.prs[..n - 1][j] == prs[j];
        assert StandsFor(q, h.(prs := prs), url, i);
      }
    }
  }

  lemma LookupIs(q: Queue, h: History, url: string, i: nat)
    requires StandsFor(q, h, url, i)
    ensures PrByUrl(q, h.prs, url) == Some(h.prs[i])
  {
    assert h.prs[..|h.prs|] == h.prs;
    UrlStandsFor(q, h, url, |h.prs|);
  }

  lemma LookupStands(q: Queue, h: History, url: string)
    ensures PrByUrl(q, h.prs, url).Some? <==> exists i :: 0 <= i < |h.prs| && StandsFor(q, h, url, i)
  {
    assert h.prs[..|h.prs|] == h.prs;
    assert h.(prs := h.prs) == h;
    UrlStandsFor(q, h, url, |h.prs|);
  }

  /** The merge recorded for a completed item is that of the pull request at `i`, the new base has its
      commit, and the manifest is still what was applied. */
  predicate StillMerged(q: Queue, w: World, it: Item, i: nat) {
    && it.evidence.Some? && it.evidence.value.MergedPr?
    && var e := it.evidence.value;
       && StandsFor(q, w.history, e.url, i)
       && var pr := w.history.prs[i];
          && !pr.open && pr.merged && pr.mergeCommit == Some(e.mergeCommit) && pr.headSha == e.prHead
          && Contains(pr.body, "Queue item: `" + q.header.queueId + "/" + it.identity.id + "`")
          && Contains(pr.body, "Citation: `" + it.identity.citation + "`")
          && Contains(pr.body, "Queue generation SHA-256: `" + e.generation + "`")
          && Contains(pr.body, "Axiom Encode run: " + e.runUrl)
          && w.ancestor(e.mergeCommit, w.newRef) && w.manifestAt(e.manifestPath) == Some(e.manifestDigest)
  }

  /** The first proven merge of the item, the `k`th considered, gives the evidence: its URL stands for the
      pull request at `i`, whose merge commit the new base contains, and the target evidence is verified. */
  predicate MergeGives(p: Profile, hs: Hashes, o: Order, q: Queue, w: World, it: Item, k: nat, i: nat, e: Evidence) {
    && FirstProven(TagOf(hs, q, it), o, w.history, k)
    && var merge := Considered(TagOf(hs, q, it), o, w.history)[k];
       var run := FirstRun(w.history.runs, merge.runUrl);
       && merge.url.Some? && run.Some? && run.value.url.Some?
       && StandsFor(q, w.history, merge.url.value, i)
       && var pr := w.history.prs[i];
          && pr.mergeCommit.Some? && p.sha(pr.mergeCommit.value) && w.ancestor(pr.mergeCommit.value, w.newRef)
          && var target := w.targetOf(it, pr, run.value);
             && target.Some?
             && e == MergedPr(merge.url.value, pr.mergeCommit.value, hs.generation(GenerationOf(q, it)),
                              target.value.prHead, run.value.url.value, target.value.runHead, 1,
                              target.value.manifestPath, target.value.manifestDigest, target.value.metadataDigest)
  }

  /** What finalization may make of an item. */
  ghost predicate SettlesTo(p: Profile, hs: Hashes, o: Order, q: Queue, w: World, it: Item, after: Item) {
    match it.status
    case Completed => after == it && exists i :: StillMerged(q, w, it, i)
    case Blocked => after == it
    case NoExecutableRule => after == it
    case _ =>
      var t := TagOf(hs, q, it);
      || (!SomePr(t, w.history) && !SomeRun(t, w.history) && after == it)
      || (exists k, i, e :: MergeGives(p, hs, o, q, w, it, k, i, e) &&
                            after == Item(it.identity, it.attempt, Completed, Some(e)))
  }

  lemma StandsIff(q: Queue, w: World, it: Item)
    ensures Stands(q, w, it) <==> exists i :: StillMerged(q, w, it, i)
  {
    if it.evidence.Some? && it.evidence.value.MergedPr? {
      var url := it.evidence.value.url;
      LookupStands(q, w.history, url);
      if PrByUrl(q, w.history.prs, url).Some? {
        var i :| 0 <= i < |w.history.prs| && StandsFor(q, w.history, url, i);
        LookupIs(q, w.history, url, i);
        if Stands(q, w, it) { assert StillMerged(q, w, it, i); }
      }
      forall i | StillMerged(q, w, it, i) ensures Stands(q, w, it) { LookupIs(q, w.history, url, i); }
    }
  }

  lemma MergeIs(t: Tag, o: Order, h: History, k: nat)
    requires Rearranges(o) && FirstProven(t, o, h, k)
    ensures var pr := Considered(t, o, h)[k];
            FirstRun(h.runs, pr.runUrl).Some? &&
            ReasonFor(t, o, h) == Merged(pr, FirstRun(h.runs, pr.runUrl).value)
  {
    var cs := Considered(t, o, h);
    forall j | 0 <= j < |cs| ensures IsPrOf(t, cs[j]) { ConsideredAre(t, o, h, cs[j]); }
    FirstMergeIs(t, cs, h);
  }

  lemma MergeStands(t: Tag, o: Order, h: History) returns (k: nat)
    requires Rearranges(o) && ReasonFor(t, o, h).Merged?
    ensures FirstProven(t, o, h, k)
  {
    var cs := Considered(t, o, h);
    forall j | 0 <= j < |cs| ensures IsPrOf(t, cs[j]) { ConsideredAre(t, o, h, cs[j]); }
    FirstMergeIs(t, cs, h);
    k :| 0 <= k < |cs| && IsProven(t, h, cs[k]) && forall j :: 0 <= j < k ==> !IsProven(t, h, cs[j]);
  }

  lemma GivenCompletes(p: Profile, hs: Hashes, o: Order, q: Queue, w: World, it: Item, k: nat, i: nat, e: Evidence)
    requires Rearranges(o) && Selectable(it.status) && MergeGives(p, hs, o, q, w, it, k, i, e)
    ensures FinalItem(p, hs, o, q, w, it) == Some(Item(it.identity, it.attempt, Completed, Some(e)))
  {
    MergeIs(TagOf(hs, q, it), o, w.history, k);
    LookupIs(q, w.history, Considered(TagOf(hs, q, it), o, w.history)[k].url.value, i);
  }

  lemma CompletionGiven(p: Profile, hs: Hashes, o: Order, q: Queue, w: World, it: Item)
    requires Rearranges(o) && Selectable(it.status) && FinalItem(p, hs, o, q, w, it).Some?
    requires !ReasonFor(TagOf(hs, q, it), o, w.history).New?
    ensures SettlesTo(p, hs, o, q, w, it, FinalItem(p, hs, o, q, w, it).value)
  {
    var t := TagOf(hs, q, it);
    var k := MergeStands(t, o, w.history);
    MergeIs(t, o, w.history, k);
    var merge := Considered(t, o, w.history)[k];
    LookupStands(q, w.history, merge.url.value);
    var i :| 0 <= i < |w.history.prs| && StandsFor(q, w.history, merge.url.value, i);
    LookupIs(q, w.history, merge.url.value, i);
    var e := FinalItem(p, hs, o, q, w, it).value.evidence.value;
    assert MergeGives(p, hs, o, q, w, it, k, i, e);
  }

  /** An item is settled exactly as the history allows, and in no other way. */
  lemma SettledIff(p: Profile, hs: Hashes, o: Order, q: Queue, w: World, it: Item, after: Item)
    requires Rearranges(o)
    ensures FinalItem(p, hs, o, q, w, it) == Some(after) <==> SettlesTo(p, hs, o, q, w, it, after)
  {
    if it.status.Completed? {
      StandsIff(q, w, it);
    } else if Selectable(it.status) {
      var t := TagOf(hs, q, it);
      ReasonTable(t, o, w.history);
      if FinalItem(p, hs, o, q, w, it).Some? && !ReasonFor(t, o, w.history).New? {
        CompletionGiven(p, hs, o, q, w, it);
      }
      forall k, i, e | MergeGives(p, hs, o, q, w, it, k, i, e)
        ensures FinalItem(p, hs, o, q, w, it) == Some(Item(it.identity, it.attempt, Completed, Some(e)))
      {
        GivenCompletes(p, hs, o, q, w, it, k, i, e);
      }
    }
  }

  /** The queue after finalization: every item settled, the new base, active, with the activation record. */
  ghost predicate FinalizedTo(p: Profile, hs: Hashes, o: Order, q: Queue, w: World, r: Queue) {
    && |r.items| == |q.items|
    && (forall i :: 0 <= i < |q.items| ==> SettlesTo(p, hs, o, q, w, q.items[i], r.items[i]))
    && r.header == q.header && r.supersedes == q.supersedes && r.inventory == q.inventory && r.release == q.release
    && r.dispatch == Dispatch(q.dispatch.corpusRef, q.dispatch.rulesEngineRef, w.newRef, q.dispatch.policy)
    && r.active && r.reason == None && r.suspension == None
    && r.activation == Some(Activation(w.newRef, w.finalizerHead, w.finalizerUrl, w.finalizerAttempt,
                                       w.checkRunsDigest, hs.queue(q), w.pullRequestsDigest, w.workflowRunsDigest))
  }

  lemma AllSettledIff(p: Profile, hs: Hashes, o: Order, q: Queue, w: World, items: seq<Item>)
    requires Rearranges(o) && |items| == |q.items|
    ensures (AllFinal(p, hs, o, q, w, |items|) && items == FinalItems(p, hs, o, q, w, |items|)) <==>
            (forall i :: 0 <= i < |items| ==> SettlesTo(p, hs, o, q, w, q.items[i], items[i]))
  {
    forall i | 0 <= i < |items|
      ensures FinalItem(p, hs, o, q, w, q.items[i]) == Some(items[i]) <==>
              SettlesTo(p, hs, o, q, w, q.items[i], items[i])
    {
      SettledIff(p, hs, o, q, w, q.items[i], items[i]);
    }
  }

  /** Finalization yields exactly the queues to which the history settles every item, given that the request,
      the advance of the base and the quiet of the queue check out and that the outcome is valid. */
  lemma FinalizeIs(p: Profile, hs: Hashes, o: Order, q: Queue, w: World, r: Queue)
    requires Rearranges(o)
    ensures Finalize(p, hs, o, q, w) == Some(r) <==>
            Valid(p, q) && !q.active && Requested(p, w) && Advances(q, w) && Quiet(q, w.history) &&
            FinalizedTo(p, hs, o, q, w, r) && Valid(p, r)
  {
    if |r.items| == |q.items| {
      AllSettledIff(p, hs, o, q, w, r.items);
    }
  }

  /** An item stands in the way of finalization exactly when it cannot be settled. */
  ghost predicate CanSettle(p: Profile, hs: Hashes, o: Order, q: Queue, w: World, it: Item) {
    match it.status
    case Completed => exists i :: StillMerged(q, w, it, i)
    case Blocked => true
    case NoExecutableRule => true
    case _ =>
      var t := TagOf(hs, q, it);
      (!SomePr(t, w.history) && !SomeRun(t, w.history)) ||
      (exists k, i, e :: MergeGives(p, hs, o, q, w, it, k, i, e))
  }

  lemma CanSettleTo(p: Profile, hs: Hashes, o: Order, q: Queue, w: World, it: Item) returns (after: Item)
    requires CanSettle(p, hs, o, q, w, it)
    ensures SettlesTo(p, hs, o, q, w, it, after)
  {
    after := it;
    if Selectable(it.status) && !(!SomePr(TagOf(hs, q, it), w.history) && !SomeRun(TagOf(hs, q, it), w.history)) {
      var k, i, e :| MergeGives(p, hs, o, q, w, it, k, i, e);
      after := Item(it.identity, it.attempt, Completed, Some(e));
    }
  }

  lemma CanSettleIff(p: Profile, hs: Hashes, o: Order, q: Queue, w: World, it: Item)
    requires Rearranges(o)
    ensures FinalItem(p, hs, o, q, w, it).Some? <==> CanSettle(p, hs, o, q, w, it)
  {
    if CanSettle(p, hs, o, q, w, it) {
      var after := CanSettleTo(p, hs, o, q, w, it);
      SettledIff(p, hs, o, q, w, it, after);
    }
    if FinalItem(p, hs, o, q, w, it).Some? {
      SettledIff(p, hs, o, q, w, it, FinalItem(p, hs, o, q, w, it).value);
    }
  }

  /** Finalization of a paused valid queue whose checks pass succeeds exactly when every completed item still
      stands, every selectable one is untouched in the history or proven with target evidence, and what
      comes of it is valid. */
  lemma FinalizeSucceedsIff(p: Profile, hs: Hashes, o: Order, q: Queue, w: World)
    requires Rearranges(o)
    requires Valid(p, q) && !q.active && Requested(p, w) && Advances(q, w) && Quiet(q, w.history)
    ensures Finalize(p, hs, o, q, w).Some? <==>
            && (forall i :: 0 <= i < |q.items| ==> CanSettle(p, hs, o, q, w, q.items[i]))
            && (forall r :: FinalizedTo(p, hs, o, q, w, r) ==> Valid(p, r))
  {
    forall i | 0 <= i < |q.items|
      ensures FinalItem(p, hs, o, q, w, q.items[i]).Some? <==> CanSettle(p, hs, o, q, w, q.items[i])
    {
      CanSettleIff(p, hs, o, q, w, q.items[i]);
    }
    if AllFinal(p, hs, o, q, w, |q.items|) {
      var r := Activated(hs, q, w, FinalItems(p, hs, o, q, w, |q.items|));
      AllSettledIff(p, hs, o, q, w, r.items);
      assert FinalizedTo(p, hs, o, q, w, r);
      forall s | FinalizedTo(p, hs, o, q, w, s) ensures s == r {
        AllSettledIff(p, hs, o, q, w, s.items);
      }
    }
  }
}
