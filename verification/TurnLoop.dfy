/** A loop over numbered turns that each continue with a new state or halt with a result. */
module TurnLoop {

  datatype Turn<S, R> = Continue(next: S) | Halt(result: R)

  function Loop<S, R>(step: (nat, S) -> Turn<S, R>, n: nat, finish: S -> R, i: nat, st: S): R
    decreases n - i
  {
    if i >= n then finish(st)
    else match step(i, st)
      case Halt(result) => result
      case Continue(next) => Loop(step, n, finish, i + 1, next)
  }

  /** The turn at which the loop stops, and its state there. */
  function Stop<S, R>(step: (nat, S) -> Turn<S, R>, n: nat, i: nat, st: S): (nat, S)
    decreases n - i
  {
    if i >= n then (i, st)
    else match step(i, st)
      case Halt(_) => (i, st)
      case Continue(next) => Stop(step, n, i + 1, next)
  }

  /** The state before turn `k`, if the loop gets there. */
  function At<S, R>(step: (nat, S) -> Turn<S, R>, i: nat, st: S, k: nat): Turn<S, R>
    requires i <= k
    decreases k - i
  {
    if i == k then Continue(st)
    else match step(i, st)
      case Halt(result) => Halt(result)
      case Continue(next) => At(step, i + 1, next, k)
  }

  lemma {:induction false} AtSnoc<S, R>(step: (nat, S) -> Turn<S, R>, i: nat, st: S, k: nat)
    requires i <= k && At(step, i, st, k).Continue?
    ensures At(step, i, st, k + 1) == step(k, At(step, i, st, k).next)
    decreases k - i
  {
    if i < k { AtSnoc(step, i + 1, step(i, st).next, k); }
  }

  /** A loop that gets to a turn got to the one before. */
  lemma {:induction false} AtBefore<S, R>(step: (nat, S) -> Turn<S, R>, i: nat, st: S, k: nat)
    requires i <= k && At(step, i, st, k + 1).Continue?
    ensures At(step, i, st, k).Continue?
    decreases k - i
  {
    if i < k { AtBefore(step, i + 1, step(i, st).next, k); }
  }

  /** What every turn keeps holds before every turn the loop gets to. */
  lemma {:induction false} AtKeeps<S(!new), R>(step: (nat, S) -> Turn<S, R>, n: nat, i: nat, st: S,
                                               kept: (nat, S) -> bool, k: nat)
    requires i <= k <= n && kept(i, st) && At(step, i, st, k).Continue?
    requires forall k: nat, x: S :: k < n && kept(k, x) && step(k, x).Continue? ==> kept(k + 1, step(k, x).next)
    ensures kept(k, At(step, i, st, k).next)
    decreases k - i
  {
    if i < k { AtKeeps(step, n, i + 1, step(i, st).next, kept, k); }
  }

  lemma {:induction false} StopIsLater<S, R>(step: (nat, S) -> Turn<S, R>, n: nat, i: nat, st: S)
    ensures Stop(step, n, i, st).0 >= i
    decreases n - i
  {
    if i < n && step(i, st).Continue? { StopIsLater(step, n, i + 1, step(i, st).next); }
  }

  /** Up to the turn at which it stops, the loop gets to every turn and goes on from it. */
  lemma {:induction false} GoesOnUntilStop<S, R>(step: (nat, S) -> Turn<S, R>, n: nat, i: nat, st: S, k: nat)
    requires i <= k <= Stop(step, n, i, st).0
    ensures At(step, i, st, k).Continue?
    ensures k < Stop(step, n, i, st).0 ==> step(k, At(step, i, st, k).next).Continue?
    ensures k == Stop(step, n, i, st).0 ==> At(step, i, st, k).next == Stop(step, n, i, st).1
    decreases k - i
  {
    if i < k {
      GoesOnUntilStop(step, n, i + 1, step(i, st).next, k);
    } else if i < n && step(i, st).Continue? {
      StopIsLater(step, n, i + 1, step(i, st).next);
    }
  }

  /** What every turn keeps holds where the loop stops. */
  lemma {:induction false} StopKeeps<S(!new), R>(step: (nat, S) -> Turn<S, R>, n: nat, i: nat, st: S,
                                                 kept: (nat, S) -> bool)
    requires i <= n && kept(i, st)
    requires forall k: nat, x: S :: k < n && kept(k, x) && step(k, x).Continue? ==> kept(k + 1, step(k, x).next)
    ensures var (e, last) := Stop(step, n, i, st); i <= e <= n && kept(e, last)
    decreases n - i
  {
    if i < n && step(i, st).Continue? { StopKeeps(step, n, i + 1, step(i, st).next, kept); }
  }

  /** On the way to turn `k` some turn sets the flag and none after it clears it. */
  ghost predicate SetOnTheWay<S(!new), R(!new)>(step: (nat, S) -> Turn<S, R>, start: S, sets: (nat, S) -> bool,
                                                clears: (nat, S) -> bool, k: nat)
  {
    exists i: nat :: i < k && HoldsAt(step, start, sets, i) &&
      forall j: nat :: i < j < k ==> !HoldsAt(step, start, clears, j)
  }

  predicate HoldsAt<S, R>(step: (nat, S) -> Turn<S, R>, start: S, p: (nat, S) -> bool, k: nat) {
    var x := At(step, 0, start, k);
    x.Continue? && p(k, x.next)
  }

  /** A flag that some turns set and others clear is up exactly when it was set and not cleared since. */
  lemma {:induction false} FlagIff<S(!new), R(!new)>(step: (nat, S) -> Turn<S, R>, n: nat, start: S, up: S -> bool,
                                                     sets: (nat, S) -> bool, clears: (nat, S) -> bool, k: nat)
    requires k <= n && At(step, 0, start, k).Continue? && !up(start)
    requires forall j: nat, x: S :: j < n && step(j, x).Continue? ==>
               (up(step(j, x).next) <==> sets(j, x) || (up(x) && !clears(j, x)))
    ensures up(At(step, 0, start, k).next) <==> SetOnTheWay(step, start, sets, clears, k)
  {
    if k > 0 {
      AtBefore(step, 0, start, k - 1);
      AtSnoc(step, 0, start, k - 1);
      FlagIff(step, n, start, up, sets, clears, k - 1);
      SetOneFurther(step, start, sets, clears, k - 1);
    }
  }

  lemma SetOneFurther<S(!new), R(!new)>(step: (nat, S) -> Turn<S, R>, start: S, sets: (nat, S) -> bool,
                                        clears: (nat, S) -> bool, k: nat)
    ensures SetOnTheWay(step, start, sets, clears, k + 1) <==>
            HoldsAt(step, start, sets, k) ||
            (SetOnTheWay(step, start, sets, clears, k) && !HoldsAt(step, start, clears, k))
  {
    if SetOnTheWay(step, start, sets, clears, k) && !HoldsAt(step, start, clears, k) {
      var i: nat :| i < k && HoldsAt(step, start, sets, i) &&
                    forall j: nat :: i < j < k ==> !HoldsAt(step, start, clears, j);
      assert forall j: nat :: i < j < k + 1 ==> !HoldsAt(step, start, clears, j);
    }
  }

  /** A turn that comes to the goal, or goes on with `p` to the same goal. */
  predicate Leads<S, R(==)>(turn: Turn<S, R>, p: (nat, S) -> bool, goal: nat -> R, k: nat) {
    match turn
    case Halt(result) => result == goal(k)
    case Continue(next) => goal(k) == goal(k + 1) && p(k + 1, next)
  }

  /** A loop whose turns lead to the goal comes to it. */
  lemma {:induction false} LoopLeads<S(!new), R>(step: (nat, S) -> Turn<S, R>, n: nat, finish: S -> R,
                                                 p: (nat, S) -> bool, goal: nat -> R, k: nat, st: S)
    requires k <= n && p(k, st) && forall x: S :: p(n, x) ==> finish(x) == goal(n)
    requires forall k: nat, x: S :: k < n && p(k, x) ==> Leads(step(k, x), p, goal, k)
    ensures Loop(step, n, finish, k, st) == goal(k)
    decreases n - k
  {
    if k < n && step(k, st).Continue? { LoopLeads(step, n, finish, p, goal, k + 1, step(k, st).next); }
  }

  /** The loop returns what its last turn, or the finish, returns. */
  lemma {:induction false} StopIsFinal<S, R>(step: (nat, S) -> Turn<S, R>, n: nat, finish: S -> R, i: nat, st: S)
    requires i <= n
    ensures var (e, last) := Stop(step, n, i, st);
            && i <= e <= n && (e < n ==> step(e, last).Halt?)
            && Loop(step, n, finish, i, st) == if e < n then step(e, last).result else finish(last)
    decreases n - i
  {
    if i < n && step(i, st).Continue? { StopIsFinal(step, n, finish, i + 1, step(i, st).next); }
  }
}
