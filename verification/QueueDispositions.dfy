/** Recording a disposition: when it succeeds, and what it changes; and what runs never change. */
module QueueDispositions {
  import opened Common
  import opened SignedQueue
  import opened QueueTransitions
  import opened QueueHistory
  import opened QueueRuns

  /** A blocking disposition needs the URL of a comment on the queue's issue and a note that says something. */
  predicate Evidenced(p: Profile, issue: int, status: Status, comment: Option<string>, note: Option<string>) {
    status.Retryable? ||
    (comment.Some? && p.commentUrl(issue, comment.value) && note.Some? && !Blank(p, note.value))
  }

  /** Item `k` disposed of: a retry starts the next attempt without evidence, a block keeps the attempt. */
  predicate DisposedTo(it: Item, status: Status, comment: Option<string>, note: Option<string>, after: Item) {
    && after.identity == it.identity && after.status == status
    && (status.Retryable? ==> after.attempt == it.attempt + 1 && after.evidence == None)
    && (!status.Retryable? ==>
          after.attempt == it.attempt && after.evidence.Some? && after.evidence.value.IssueComment? &&
          after.evidence.value.comment == comment && after.evidence.value.note == note)
  }

  lemma {:induction false} CountSame(items: seq<Item>, k: nat, after: Item, j: string)
    requires k < |items| && after.identity == items[k].identity
    ensures Count(items[k := after], j) == Count(items, j)
  {
    var n := |items| - 1;
    if k < n {
      CountSame(items[..n], k, after, j);
      assert items[k := after][..n] == items[..n][k := after];
    } else {
      assert items[k := after][..n] == items[..n];
    }
  }

  /** Disposing of one item keeps a queue valid exactly when the evidence is in order. */
  lemma DisposedIsValid(p: Profile, q: Queue, k: nat, status: Status, comment: Option<string>, note: Option<string>,
                        after: Item)
    requires Valid(p, q) && k < |q.items| && Disposition(status) && DisposedTo(q.items[k], status, comment, note, after)
    ensures Valid(p, q.(items := q.items[k := after])) <==> Evidenced(p, q.header.issue, status, comment, note)
  {
    var items := q.items[k := after];
    assert ItemOk(p, q.header.issue, q.items[k], k);
    assert ItemOk(p, q.header.issue, after, k) <==> Evidenced(p, q.header.issue, status, comment, note);
    if Evidenced(p, q.header.issue, status, comment, note) {
      forall i | 0 <= i < |items| ensures ItemOk(p, q.header.issue, items[i], i) {
        assert ItemOk(p, q.header.issue, q.items[i], i);
      }
      forall j | j in p.counts ensures Count(items, j) == p.counts[j] { CountSame(q.items, k, after, j); }
    } else {
      assert items[k] == after;
    }
  }

  /** A disposition succeeds exactly on a valid queue that has the item, for one of the three statuses and with
      evidence in order, and changes that item only. */
  lemma RecordIs(p: Profile, q: Queue, id: string, status: Status, comment: Option<string>, note: Option<string>,
                 r: Queue)
    ensures Record(p, q, id, status, comment, note) == Some(r) <==>
            && Valid(p, q) && (status.Blocked? || status.NoExecutableRule? || status.Retryable?)
            && Evidenced(p, q.header.issue, status, comment, note)
            && exists k: nat :: RecordedAt(q, id, status, comment, note, r, k)
  {
    if Valid(p, q) && Disposition(status) {
      match IndexOf(q.items, id)
      case None =>
        forall k: nat ensures !RecordedAt(q, id, status, comment, note, r, k) { }
      case Some(i) =>
        var after := Disposed(q.items[i], status, comment, note);
        DisposedIsValid(p, q, i, status, comment, note, after);
        RecordedOnce(q, id, status, comment, note, i, r);
    }
  }

  lemma RecordedOnce(q: Queue, id: string, status: Status, comment: Option<string>, note: Option<string>, i: nat,
                     r: Queue)
    requires DistinctItems(q.items) && IndexOf(q.items, id) == Some(i) && Disposition(status)
    ensures (exists k: nat :: RecordedAt(q, id, status, comment, note, r, k)) <==>
            r == q.(items := q.items[i := Disposed(q.items[i], status, comment, note)])
  {
    var after := Disposed(q.items[i], status, comment, note);
    var updated := q.(items := q.items[i := after]);
    assert RecordedAt(q, id, status, comment, note, updated, i);
    forall k: nat | RecordedAt(q, id, status, comment, note, r, k) ensures r == updated {
      IndexIsUnique(q.items, k);
      assert r.items[k] == after;
    }
  }

  predicate RecordedAt(q: Queue, id: string, status: Status, comment: Option<string>, note: Option<string>, r: Queue,
                       k: nat)
  {
    && k < |q.items| == |r.items| && q.items[k].identity.id == id
    && DisposedTo(q.items[k], status, comment, note, r.items[k])
    && r == q.(items := q.items[k := r.items[k]])
  }

  // ---------------------------------------------------------------- over every run

  lemma StepKeepsHeader(sys: System, prev: Queue, next: Queue)
    requires Step(sys, prev, next)
    ensures next.header == prev.header && next.supersedes == prev.supersedes && next.inventory == prev.inventory
  {
  }

  /** The header, the superseded queue and the inventory never change. */
  lemma {:induction false} HeaderIsFixed(sys: System, run: seq<Queue>, i: nat, j: nat)
    requires IsRun(sys, run) && i <= j < |run|
    ensures run[j].header == run[i].header && run[j].supersedes == run[i].supersedes
    ensures run[j].inventory == run[i].inventory
    decreases j - i
  {
    if i < j {
      assert Step(sys, run[j - 1], run[j]);
      StepKeepsHeader(sys, run[j - 1], run[j]);
      HeaderIsFixed(sys, run, i, j - 1);
    }
  }

  /** The pins other than the RuleSpec base change only on a queue that was never active and on which nothing has
      happened, and then the whole toolchain is replaced. */
  lemma PinsChangeTogether(sys: System, prev: Queue, next: Queue)
    requires Step(sys, prev, next) && !SamePins(prev, next)
    ensures !Sealed(prev) && !Sealed(next) && next.items == prev.items
    ensures forall i :: 0 <= i < |next.items| ==> next.items[i].status.Pending? && next.items[i].attempt == 1
    ensures next.release != prev.release && next.dispatch.policy == prev.dispatch.policy
    ensures next.dispatch.corpusRef != prev.dispatch.corpusRef
    ensures next.dispatch.rulesEngineRef != prev.dispatch.rulesEngineRef
    ensures next.dispatch.rulespecRef != prev.dispatch.rulespecRef
  {
  }
}
