/** Pausing, recording a disposition, and the gate that every change to a paused queue has to pass. */
module QueueTransitions {
  import opened Common
  import opened SignedQueue

  // ---------------------------------------------------------------- pausing

  function StripLeft(p: Profile, s: string): string {
    if s != [] && p.isSpace(s[0]) then StripLeft(p, s[1..]) else s
  }

  function StripRight(p: Profile, s: string): string {
    if s != [] && p.isSpace(s[|s| - 1]) then StripRight(p, s[..|s| - 1]) else s
  }

  function Strip(p: Profile, s: string): string { StripRight(p, StripLeft(p, s)) }

  function Suspended(q: Queue, reason: string, digest: string): Queue {
    q.(active := false, reason := Some(reason), activation := None, suspension := Some(digest))
  }

  function Pause(p: Profile, q: Queue, reason: string, digest: string): Option<Queue> {
    if Valid(p, q) && q.active && Strip(p, reason) != [] && p.digest(digest) &&
       Valid(p, Suspended(q, Strip(p, reason), digest))
    then Some(Suspended(q, Strip(p, reason), digest)) else None
  }

  method PauseQueue(p: Profile, q: Queue, reason: string, digest: string) returns (r: Option<Queue>)
    ensures r == Pause(p, q, reason, digest)
  {
    var ok := ValidateQueue(p, q);
    if !ok || !q.active || Strip(p, reason) == [] || !p.digest(digest) { return None; }
    var updated := q.(active := false);
    updated := updated.(reason := Some(Strip(p, reason)));
    updated := updated.(activation := None);
    updated := updated.(suspension := Some(digest));
    ok := ValidateQueue(p, updated);
    return if ok then Some(updated) else None;
  }

  lemma {:induction false} StripLeftTrims(p: Profile, s: string)
    ensures var t := StripLeft(p, s); t == [] || !p.isSpace(t[0])
    ensures StripLeft(p, s) == [] <==> Blank(p, s)
  {
    if s != [] && p.isSpace(s[0]) { StripLeftTrims(p, s[1..]); }
  }

  lemma {:induction false} StripRightTrims(p: Profile, s: string)
    ensures var t := StripRight(p, s); t == [] || !p.isSpace(t[|t| - 1])
    ensures StripRight(p, s) <= s && (StripRight(p, s) == [] <==> Blank(p, s))
  {
    if s != [] && p.isSpace(s[|s| - 1]) { StripRightTrims(p, s[..|s| - 1]); }
  }

  /** Stripping leaves nothing exactly of blank text, and stripping again changes nothing. */
  lemma StripTrims(p: Profile, s: string)
    ensures Strip(p, s) == [] <==> Blank(p, s)
    ensures Strip(p, s) != [] ==> !Blank(p, Strip(p, s)) && Strip(p, Strip(p, s)) == Strip(p, s)
  {
    var l := StripLeft(p, s);
    StripLeftTrims(p, s);
    StripRightTrims(p, l);
    if l != [] {
      var t := StripRight(p, l);
      assert !Blank(p, l) by { assert !p.isSpace(l[0]); }
      assert t != [] && t[0] == l[0];
      assert StripLeft(p, t) == t;
    }
  }

  lemma SuspendedIsValid(p: Profile, q: Queue, reason: string, digest: string)
    requires Valid(p, q) && !Blank(p, reason) && p.digest(digest)
    ensures Valid(p, Suspended(q, reason, digest))
  {
  }

  /** Pausing a valid active queue fails only for a blank reason or a malformed digest. */
  lemma PauseSucceeds(p: Profile, q: Queue, reason: string, digest: string)
    requires Valid(p, q) && q.active
    ensures Pause(p, q, reason, digest).Some? <==> !Blank(p, reason) && p.digest(digest)
  {
    StripTrims(p, reason);
    if !Blank(p, reason) && p.digest(digest) { SuspendedIsValid(p, q, Strip(p, reason), digest); }
  }

  // ---------------------------------------------------------------- dispositions

  function IndexOf(items: seq<Item>, id: string): (r: Option<nat>)
    ensures match r
            case Some(i) => i < |items| && items[i].identity.id == id
            case None => forall i :: 0 <= i < |items| ==> items[i].identity.id != id
  {
    if items == [] then None
    else if items[|items| - 1].identity.id == id then Some(|items| - 1) else IndexOf(items[..|items| - 1], id)
  }

  function Disposed(it: Item, status: Status, comment: Option<string>, note: Option<string>): Item {
    if status.Retryable? then Item(it.identity, it.attempt + 1, status, None)
    else Item(it.identity, it.attempt, status, Some(IssueComment(comment, note)))
  }

  predicate Disposition(s: Status) { s.Blocked? || s.NoExecutableRule? || s.Retryable? }

  function Record(p: Profile, q: Queue, id: string, status: Status, comment: Option<string>, note: Option<string>):
    Option<Queue>
  {
    if !Valid(p, q) || !Disposition(status) then None
    else match IndexOf(q.items, id)
      case None => None
      case Some(i) =>
        var updated := q.(items := q.items[i := Disposed(q.items[i], status, comment, note)]);
        if Valid(p, updated) then Some(updated) else None
  }

  method RecordDisposition(p: Profile, q: Queue, id: string, status: Status, comment: Option<string>,
                           note: Option<string>) returns (r: Option<Queue>)
    ensures r == Record(p, q, id, status, comment, note)
  {
    var ok := ValidateQueue(p, q);
    if !ok || !Disposition(status) { return None; }
    var found := MatchingItem(q.items, id);
    if found.None? { return None; }
    var i := found.value;
    var it := Dispose(q.items[i], status, comment, note);
    var updated := q.(items := q.items[i := it]);
    ok := ValidateQueue(p, updated);
    return if ok then Some(updated) else None;
  }

  method Dispose(it: Item, status: Status, comment: Option<string>, note: Option<string>) returns (r: Item)
    requires Disposition(status)
    ensures r == Disposed(it, status, comment, note)
  {
    r := it.(status := status);
    r := r.(evidence := None);
    if status.Blocked? || status.NoExecutableRule? {
      r := r.(evidence := Some(IssueComment(comment, note)));
    } else if status.Retryable? {
      r := r.(attempt := r.attempt + 1);
    }
  }

  /** The only item with the id; in a valid queue there is no second one. */
  method MatchingItem(items: seq<Item>, id: string) returns (r: Option<nat>)
    requires DistinctItems(items)
    ensures r == IndexOf(items, id)
  {
    var matches: seq<nat> := [];
    for i := 0 to |items|
      invariant IndexOf(items[..i], id) == if matches == [] then None else Some(matches[0])
      invariant |matches| <= 1
    {
      assert items[..i + 1][..i] == items[..i];
      if items[i].identity.id == id { matches := matches + [i]; }
    }
    assert items[..|items|] == items;
    return if |matches| != 1 then None else Some(matches[0]);
  }

  // ---------------------------------------------------------------- the gate

  predicate ItemStep(prior: Item, current: Item) {
    && current.identity == prior.identity
    && (current.status.Completed? ==> prior.status.Completed?)
    && (Terminal(prior.status) ==> current == prior)
    && prior.attempt <= current.attempt <= prior.attempt + 1
    && (current.attempt == prior.attempt + 1 ==> current.status.Retryable?)
    && (current.status.Retryable? && current != prior ==> current.attempt == prior.attempt + 1)
  }

  /** Every current item continues the prior item of the same id, and no id is gone. */
  predicate ItemsStep(prior: seq<Item>, current: seq<Item>) {
    && (forall i :: 0 <= i < |current| ==>
          var k := IndexOf(prior, current[i].identity.id); k.Some? && ItemStep(prior[k.value], current[i]))
    && (forall i :: 0 <= i < |prior| ==> IndexOf(current, prior[i].identity.id).Some?)
  }

  predicate Repins(q: Queue, prev: Queue) { q.dispatch != prev.dispatch || q.release != prev.release }

  predicate Pristine(items: seq<Item>) {
    forall i :: 0 <= i < |items| ==> items[i].status.Pending? && items[i].attempt == 1
  }

  /** A toolchain repin replaces every pin of a pristine queue that was never active. */
  predicate RepinOk(q: Queue, prev: Queue) {
    && !prev.active && q.dispatch.policy == prev.dispatch.policy
    && q.dispatch.corpusRef != prev.dispatch.corpusRef && q.dispatch.rulesEngineRef != prev.dispatch.rulesEngineRef
    && q.dispatch.rulespecRef != prev.dispatch.rulespecRef && q.release != prev.release
    && q.suspension.None? && prev.suspension.None? && q.items == prev.items && Pristine(q.items)
  }

  /** The gate; `prevFile` is the digest of the previous queue's file. */
  predicate Gate(p: Profile, q: Queue, prev: Queue, prevFile: string) {
    && Valid(p, q) && Valid(p, prev) && !q.active && q.header == prev.header
    && (Repins(q, prev) ==> RepinOk(q, prev))
    && (!prev.active ==> q.suspension == prev.suspension)
    && ItemsStep(prev.items, q.items)
    && (prev.active ==> q.reason.Some? && Pause(p, prev, q.reason.value, prevFile) == Some(q))
  }

  function ById(items: seq<Item>): map<string, Item> {
    if items == [] then map[]
    else ById(items[..|items| - 1])[items[|items| - 1].identity.id := items[|items| - 1]]
  }

  lemma {:induction false} ByIdIsIndex(items: seq<Item>, id: string)
    ensures id in ById(items) <==> IndexOf(items, id).Some?
    ensures id in ById(items) ==> ById(items)[id] == items[IndexOf(items, id).value]
  {
    if items != [] && items[|items| - 1].identity.id != id { ByIdIsIndex(items[..|items| - 1], id); }
  }

  method IndexItems(items: seq<Item>) returns (r: map<string, Item>)
    ensures r == ById(items)
  {
    r := map[];
    for i := 0 to |items|
      invariant r == ById(items[..i])
    {
      assert items[..i + 1][..i] == items[..i];
      r := r[items[i].identity.id := items[i]];
    }
    assert items[..|items|] == items;
  }

  method ItemsFollow(prior: seq<Item>, current: seq<Item>) returns (ok: bool)
    ensures ok <==> ItemsStep(prior, current)
  {
    var before := IndexItems(prior);
    var after := IndexItems(current);
    for i := 0 to |current|
      invariant forall k :: 0 <= k < i ==>
                  var j := IndexOf(prior, current[k].identity.id); j.Some? && ItemStep(prior[j.value], current[k])
    {
      ByIdIsIndex(prior, current[i].identity.id);
      if current[i].identity.id !in before || !ItemStep(before[current[i].identity.id], current[i]) { return false; }
    }
    for i := 0 to |prior|
      invariant forall k :: 0 <= k < i ==> IndexOf(current, prior[k].identity.id).Some?
    {
      ByIdIsIndex(current, prior[i].identity.id);
      if prior[i].identity.id !in after { return false; }
    }
    ok := true;
  }

  method VerifyPausedTransition(p: Profile, q: Queue, prev: Queue, prevFile: string) returns (ok: bool)
    ensures ok <==> Gate(p, q, prev, prevFile)
  {
    ok := ValidateQueue(p, q);
    if !ok { return false; }
    ok := ValidateQueue(p, prev);
    if !ok || q.active || q.header != prev.header { return false; }
    if Repins(q, prev) && !RepinOk(q, prev) { return false; }
    if !prev.active && q.suspension != prev.suspension { return false; }
    ok := ItemsFollow(prev.items, q.items);
    if !ok { return false; }
    if prev.active {
      var expected := PauseQueue(p, prev, q.reason.value, prevFile);
      ok := expected == Some(q);
    }
  }

  // ---------------------------------------------------------------- what passes the gate

  lemma IndexIsUnique(items: seq<Item>, i: nat)
    requires DistinctItems(items) && i < |items|
    ensures IndexOf(items, items[i].identity.id) == Some(i)
  {
    var k := IndexOf(items, items[i].identity.id).value;
    assert items[k].identity.id == items[i].identity.id;
  }

  lemma AlignsAt(p: Profile, q: Queue, prev: Queue, i: nat)
    requires Valid(p, q) && Valid(p, prev) && ItemsStep(prev.items, q.items) && i < |q.items|
    ensures i < |prev.items| && ItemStep(prev.items[i], q.items[i])
  {
    var k := IndexOf(prev.items, q.items[i].identity.id).value;
    assert ItemOk(p, q.header.issue, q.items[i], i) && ItemOk(p, prev.header.issue, prev.items[k], k);
  }

  lemma NoItemGone(p: Profile, q: Queue, prev: Queue, i: nat)
    requires Valid(p, q) && Valid(p, prev) && ItemsStep(prev.items, q.items) && i < |prev.items|
    ensures i < |q.items|
  {
    var k := IndexOf(q.items, prev.items[i].identity.id).value;
    AlignsAt(p, q, prev, k);
    IndexIsUnique(prev.items, i);
    IndexIsUnique(prev.items, k);
  }

  /** The gate, which matches items by id, keeps their number and order: items continue index by index. */
  lemma GateAligns(p: Profile, q: Queue, prev: Queue, prevFile: string)
    requires Gate(p, q, prev, prevFile)
    ensures |q.items| == |prev.items|
    ensures forall i :: 0 <= i < |q.items| ==> ItemStep(prev.items[i], q.items[i])
  {
    if q.items != [] { AlignsAt(p, q, prev, |q.items| - 1); }
    if prev.items != [] { NoItemGone(p, q, prev, |prev.items| - 1); }
    forall i | 0 <= i < |q.items| ensures ItemStep(prev.items[i], q.items[i]) { AlignsAt(p, q, prev, i); }
  }

  lemma StepsFollow(prior: seq<Item>, current: seq<Item>)
    requires DistinctItems(prior) && |prior| == |current|
    requires forall i :: 0 <= i < |current| ==> ItemStep(prior[i], current[i])
    ensures ItemsStep(prior, current)
  {
    forall i | 0 <= i < |current|
      ensures IndexOf(prior, current[i].identity.id) == Some(i)
    {
      IndexIsUnique(prior, i);
    }
    forall i | 0 <= i < |prior| ensures IndexOf(current, prior[i].identity.id).Some? {
      assert current[i].identity.id == prior[i].identity.id;
    }
  }

  lemma ItemUnchanged(it: Item)
    ensures ItemStep(it, it)
  {
  }

  /** Pausing with the digest of the active file passes the gate. */
  lemma PausePassesGate(p: Profile, q: Queue, reason: string, file: string)
    requires Pause(p, q, reason, file).Some?
    ensures Gate(p, Pause(p, q, reason, file).value, q, file)
  {
    StripTrims(p, reason);
    forall i | 0 <= i < |q.items| ensures ItemStep(q.items[i], q.items[i]) { ItemUnchanged(q.items[i]); }
    StepsFollow(q.items, q.items);
  }

  lemma DispositionSteps(it: Item, status: Status, comment: Option<string>, note: Option<string>)
    requires Disposition(status) && (it.evidence.Some? ==> Terminal(it.status))
    ensures var next := Disposed(it, status, comment, note);
            ItemStep(it, next) <==> !Terminal(it.status) || next == it
  {
  }

  /** On a paused queue a recorded disposition passes the gate exactly when the item was not terminal, or
      nothing changed. */
  lemma RecordPassesGate(p: Profile, q: Queue, id: string, status: Status, comment: Option<string>,
                         note: Option<string>, file: string)
    requires !q.active && Record(p, q, id, status, comment, note).Some?
    ensures IndexOf(q.items, id).Some?
    ensures var q' := Record(p, q, id, status, comment, note).value;
            Gate(p, q', q, file) <==> !Terminal(q.items[IndexOf(q.items, id).value].status) || q' == q
  {
    var k := IndexOf(q.items, id).value;
    var q' := Record(p, q, id, status, comment, note).value;
    assert ItemOk(p, q.header.issue, q.items[k], k);
    DispositionSteps(q.items[k], status, comment, note);
    RecordIsGated(p, q, q', k, file);
    if q'.items[k] == q.items[k] { assert q'.items == q.items; }
  }

  lemma RecordIsGated(p: Profile, q: Queue, q': Queue, k: nat, file: string)
    requires Valid(p, q) && Valid(p, q') && !q.active && k < |q.items| && k < |q'.items|
    requires q' == q.(items := q.items[k := q'.items[k]])
    ensures Gate(p, q', q, file) <==> ItemStep(q.items[k], q'.items[k])
  {
    if ItemStep(q.items[k], q'.items[k]) {
      forall i | 0 <= i < |q.items| ensures ItemStep(q.items[i], q'.items[i]) { ItemUnchanged(q.items[i]); }
      StepsFollow(q.items, q'.items);
    }
    if Gate(p, q', q, file) { GateAligns(p, q', q, file); }
  }
}
