/**
 * The loop both components run over their input: item after item, each yielding an error,
 * nothing, or one more value; the first error ends the loop and becomes its result.
 */
module Collecting {
  import opened Wrappers
  import opened Sequences

  /** The values collected so far, after one more item: the first error sticks. */
  function Extend<U, E>(acc: Result<seq<U>, E>, next: Result<Option<U>, E>): Result<seq<U>, E> {
    if acc.Failure? then acc
    else if next.Failure? then Failure(next.error)
    else Success(acc.value + if next.value.Some? then [next.value.value] else [])
  }

  /** The loop over the items with a given step; the step also receives the item's 1-based
      position. */
  function Collect<T, U, E>(items: seq<T>, step: (T, int) -> Result<Option<U>, E>): Result<seq<U>, E>
    decreases |items|
  {
    if |items| == 0 then Success([])
    else Extend(Collect(items[..|items| - 1], step), step(items[|items| - 1], |items|))
  }

  /** One more item: the loop's next step. */
  lemma CollectStep<T, U, E>(items: seq<T>, step: (T, int) -> Result<Option<U>, E>, i: nat)
    requires i < |items|
    ensures Collect(items[..i + 1], step) == Extend(Collect(items[..i], step), step(items[i], i + 1))
  {
    assert items[..i + 1][..i] == items[..i];
  }

  /** An item whose step succeeds extends the values collected so far ... */
  lemma CollectNext<T, U, E>(items: seq<T>, step: (T, int) -> Result<Option<U>, E>, i: nat, acc: seq<U>)
    requires i < |items|
    requires Collect(items[..i], step) == Success(acc)
    requires step(items[i], i + 1).Success?
    ensures var v := step(items[i], i + 1).value;
            Collect(items[..i + 1], step) == Success(acc + if v.Some? then [v.value] else [])
  {
    CollectStep(items, step, i);
  }

  /** The same, for a loop that keeps objects standing for the values: one more object when
      the step yields a value, none when it yields nothing. */
  lemma CollectMapNext<T, U, V, E>(items: seq<T>, step: (T, int) -> Result<Option<U>, E>, i: nat,
                                   xs: seq<V>, f: V -> U, next: Option<V>)
    requires i < |items|
    requires Collect(items[..i], step) == Success(Map(xs, f))
    requires step(items[i], i + 1) == Success(if next.Some? then Some(f(next.value)) else None)
    ensures Collect(items[..i + 1], step) == Success(Map(xs + if next.Some? then [next.value] else [], f))
  {
    CollectNext(items, step, i, Map(xs, f));
    if next.Some? {
      MapAppend(xs, [next.value], f);
      assert Map([next.value], f) == [f(next.value)] by {
        MapAt([next.value], f);
      }
    } else {
      assert xs + [] == xs;
      assert Map(xs, f) + [] == Map(xs, f);
    }
  }

  /** ... and one whose step fails ends the whole loop with its error. */
  lemma CollectFails<T, U, E>(items: seq<T>, step: (T, int) -> Result<Option<U>, E>, i: nat)
    requires i < |items|
    requires Collect(items[..i], step).Success?
    requires step(items[i], i + 1).Failure?
    ensures Collect(items, step) == Failure(step(items[i], i + 1).error)
  {
    CollectStep(items, step, i);
    CollectAbort(items, step, i + 1);
  }

  /** Once an item fails, the items after it are not looked at. */
  lemma {:induction false} CollectAbort<T, U, E>(items: seq<T>, step: (T, int) -> Result<Option<U>, E>, k: nat)
    requires k <= |items|
    requires Collect(items[..k], step).Failure?
    ensures Collect(items, step) == Collect(items[..k], step)
    decreases |items|
  {
    if k < |items| {
      var m := |items| - 1;
      assert items[..m][..k] == items[..k];
      CollectAbort(items[..m], step, k);
    } else {
      assert items[..k] == items;
    }
  }

  /** The loop succeeds exactly when every item's step does. */
  lemma {:induction false} CollectSucceeds<T, U, E>(items: seq<T>, step: (T, int) -> Result<Option<U>, E>)
    ensures Collect(items, step).Success? <==> forall i :: 0 <= i < |items| ==> step(items[i], i + 1).Success?
    decreases |items|
  {
    if |items| > 0 {
      var m := |items| - 1;
      CollectSucceeds(items[..m], step);
      assert forall i :: 0 <= i < m ==> items[..m][i] == items[i];
    }
  }

  /** The first failing item decides the error, whatever follows it. */
  lemma CollectFirstError<T, U, E>(items: seq<T>, step: (T, int) -> Result<Option<U>, E>, k: nat)
    requires k < |items|
    requires forall i :: 0 <= i < k ==> step(items[i], i + 1).Success?
    requires step(items[k], k + 1).Failure?
    ensures Collect(items, step) == Failure(step(items[k], k + 1).error)
  {
    CollectSucceeds(items[..k], step);
    assert forall i :: 0 <= i < k ==> items[..k][i] == items[i];
    CollectStep(items, step, k);
    CollectAbort(items, step, k + 1);
  }
}
