/**
 * Runs of an event-driven store, and the bookkeeping argument shared by the counter laws: a counter
 * differs from what it summarises by exactly the sum of what single events let slip.
 */
module Runs {

  function Before<E>(log: seq<E>): seq<E>
    requires log != []
  {
    log[..|log| - 1]
  }

  function Last<E>(log: seq<E>): E
    requires log != []
  {
    log[|log| - 1]
  }

  lemma Shorten<E>(log: seq<E>)
    requires log != []
    ensures forall n :: 0 <= n < |log| - 1 ==> Before(log)[n] == log[n] && Before(log)[..n] == log[..n]
    ensures log[..|log| - 1] == Before(log) && log[|log| - 1] == Last(log)
  {
  }

  /** Event `i` is the latest of its kind. */
  ghost predicate Latest<E>(log: seq<E>, i: nat, kind: E -> bool)
  {
    i < |log| && kind(log[i]) && forall j :: i < j < |log| ==> !kind(log[j])
  }

  lemma LatestStep<E>(log: seq<E>, i: nat, kind: E -> bool)
    requires Latest(log, i, kind)
    ensures if i == |log| - 1 then log[i] == Last(log)
            else Latest(Before(log), i, kind) && Before(log)[i] == log[i] && !kind(Last(log))
  {
    Shorten(log);
  }

  /** How many events are of a kind. */
  ghost function Count<E>(log: seq<E>, kind: E -> bool): nat
  {
    if log == [] then 0 else Count(Before(log), kind) + if kind(Last(log)) then 1 else 0
  }

  lemma {:induction false} CountIff<E>(log: seq<E>, kind: E -> bool)
    ensures Count(log, kind) > 0 <==> exists i :: 0 <= i < |log| && kind(log[i])
  {
    if log != [] {
      CountIff(Before(log), kind);
      Shorten(log);
    }
  }

  /** The invariant that asks nothing. */
  ghost predicate Any<S>(s: S)
  {
    true
  }

  /** `ok` holds of the empty run, and an event keeps it exactly where `keeps` holds of the run before it. */
  ghost predicate Settles<E(!new)>(ok: seq<E> -> bool, keeps: (seq<E>, E) -> bool)
  {
    ok([]) && forall log :: log != [] && ok(Before(log)) ==> (ok(log) <==> keeps(Before(log), Last(log)))
  }

  /** `ok` holds of every beginning of a run if and only if `keeps` holds before every event. */
  lemma {:induction false} HoldsIff<E(!new)>(log: seq<E>, ok: seq<E> -> bool, keeps: (seq<E>, E) -> bool)
    requires Settles(ok, keeps)
    ensures (forall n :: 0 <= n <= |log| ==> ok(log[..n])) <==> (forall n :: 0 <= n < |log| ==> keeps(log[..n], log[n]))
  {
    if log == [] {
      assert log[..0] == [];
    } else {
      var pre := Before(log);
      HoldsIff(pre, ok, keeps);
      Shorten(log);
      assert log[..|log|] == log && pre[..|pre|] == pre;
      assert forall n :: 0 <= n <= |pre| ==> pre[..n] == log[..n];
    }
  }

  /** The state after handling the whole log. */
  function Fold<S, E>(step: (S, E) -> S, init: S, log: seq<E>): S
  {
    if log == [] then init else step(Fold(step, init, Before(log)), Last(log))
  }

  /** The sum over the log of `slip`, taken in the state just before each event. */
  ghost function Drift<S, E>(step: (S, E) -> S, init: S, log: seq<E>, slip: (S, E) -> int): int
  {
    if log == [] then 0
    else Drift(step, init, Before(log), slip) + slip(Fold(step, init, Before(log)), Last(log))
  }

  /** `inv` is kept by every event, and every event moves `gap` by exactly its `slip`. */
  ghost predicate Accounts<S(!new), E(!new)>(
    step: (S, E) -> S, init: S, inv: S -> bool, gap: S -> int, slip: (S, E) -> int)
  {
    && inv(init) && gap(init) == 0
    && forall s, e :: inv(s) ==> inv(step(s, e)) && gap(step(s, e)) == gap(s) + slip(s, e)
  }

  lemma {:induction false} DriftLaw<S(!new), E(!new)>(
    step: (S, E) -> S, init: S, log: seq<E>, inv: S -> bool, gap: S -> int, slip: (S, E) -> int)
    requires Accounts(step, init, inv, gap, slip)
    ensures inv(Fold(step, init, log))
    ensures gap(Fold(step, init, log)) == Drift(step, init, log, slip)
  {
    if log != [] {
      DriftLaw(step, init, Before(log), inv, gap, slip);
    }
  }

  ghost predicate NothingSlips<S, E>(step: (S, E) -> S, init: S, log: seq<E>, slip: (S, E) -> int)
  {
    forall n :: 0 <= n < |log| ==> slip(Fold(step, init, log[..n]), log[n]) == 0
  }

  /** Given `inv`, an event preserves `ok` exactly when `keeps` holds just before it. */
  ghost predicate Decides<S(!new), E(!new)>(
    step: (S, E) -> S, init: S, inv: S -> bool, ok: S -> bool, keeps: (S, E) -> bool)
  {
    && inv(init) && ok(init)
    && forall s, e :: inv(s) ==> inv(step(s, e)) && (ok(s) ==> (ok(step(s, e)) <==> keeps(s, e)))
  }

  lemma {:induction false} Kept<S(!new), E(!new)>(step: (S, E) -> S, init: S, log: seq<E>, inv: S -> bool)
    requires inv(init) && forall s, e :: inv(s) ==> inv(step(s, e))
    ensures inv(Fold(step, init, log))
  {
    if log != [] {
      Kept(step, init, Before(log), inv);
    }
  }

  /** `ok` holds after every event of the run if and only if every event was handled where `keeps` holds. */
  lemma StaysIff<S(!new), E(!new)>(
    step: (S, E) -> S, init: S, log: seq<E>, inv: S -> bool, ok: S -> bool, keeps: (S, E) -> bool)
    requires Decides(step, init, inv, ok, keeps)
    ensures inv(Fold(step, init, log))
    ensures (forall n :: 0 <= n <= |log| ==> ok(Fold(step, init, log[..n]))) <==>
            (forall n :: 0 <= n < |log| ==> keeps(Fold(step, init, log[..n]), log[n]))
  {
    var okAfter, keepsAfter := h => ok(Fold(step, init, h)), (h, e) => keeps(Fold(step, init, h), e);
    forall h: seq<E>
      ensures inv(Fold(step, init, h))
    {
      Kept(step, init, h, inv);
    }
    HoldsIff(log, okAfter, keepsAfter);
    assert forall n :: 0 <= n <= |log| ==> okAfter(log[..n]) == ok(Fold(step, init, log[..n]));
    assert forall n :: 0 <= n < |log| ==> keepsAfter(log[..n], log[n]) == keeps(Fold(step, init, log[..n]), log[n]);
  }

  lemma {:induction false} DriftNonNegative<S, E>(step: (S, E) -> S, init: S, log: seq<E>, slip: (S, E) -> int)
    requires forall n :: 0 <= n < |log| ==> slip(Fold(step, init, log[..n]), log[n]) >= 0
    ensures Drift(step, init, log, slip) >= 0
    ensures Drift(step, init, log, slip) == 0 <==> NothingSlips(step, init, log, slip)
  {
    if log != [] {
      var pre := Before(log);
      forall n | 0 <= n < |pre|
        ensures pre[..n] == log[..n]
      {
      }
      DriftNonNegative(step, init, pre, slip);
      assert log[..|log| - 1] == pre;
      assert NothingSlips(step, init, log, slip) ==> NothingSlips(step, init, pre, slip);
    }
  }
}
