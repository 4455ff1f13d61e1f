/** Calls made side by side: every one finishes once, in an order nobody chooses. */
module Completion {
  import Sorting

  function ConfigOrder(n: nat): seq<nat> { seq(n, i requires 0 <= i < n => i) }

  /** The `n` calls, each once, in the order they happened to finish. */
  ghost predicate CompletionOrder(order: seq<nat>, n: nat) { multiset(order) == multiset(ConfigOrder(n)) }

  lemma EveryoneFinishes(order: seq<nat>, n: nat)
    requires CompletionOrder(order, n)
    ensures forall k | 0 <= k < |order| :: order[k] < n
    ensures forall i | 0 <= i < n :: i in order
    ensures forall k | 0 <= k < |ConfigOrder(n)| :: ConfigOrder(n)[k] < n
  {
    var config := ConfigOrder(n);
    forall k | 0 <= k < |order|
      ensures order[k] < n
    {
      assert order[k] in multiset(order);
      assert order[k] in config;
    }
    forall i | 0 <= i < n
      ensures i in order
    {
      assert config[i] == i;
      assert i in multiset(config);
    }
  }

  /** Each finishes once: nothing before it in the order is the same call. */
  lemma FinishesOnce(order: seq<nat>, n: nat)
    requires CompletionOrder(order, n)
    ensures |order| == n && forall i, j | 0 <= i < j < |order| :: order[i] != order[j]
  {
    var config := ConfigOrder(n);
    Sorting.SameLength(order, config);
    Sorting.OnceEach(config);
    forall i, j | 0 <= i < j < |order|
      ensures order[i] != order[j]
    {
      if order[i] == order[j] {
        Sorting.Twice(order, i, j);
      }
    }
  }
}
