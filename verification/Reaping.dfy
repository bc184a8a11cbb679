/** The scheduler's sweep over retained worker handles. */
module Reaping {
  import opened Prelude

  datatype Handle = Handle(operation: U64, finished: bool)

  lemma Swapped(p: seq<Handle>, x: Handle, m: seq<Handle>, y: Handle)
    ensures multiset(p + [y] + m) == multiset(p + [x] + m + [y]) - multiset{x}
  {
    assert multiset(p + [y] + m) == multiset(p + [y]) + multiset(m);
    assert multiset(p + [x] + m + [y]) == multiset(p + [x] + m) + multiset([y]);
    assert multiset(p + [x] + m) == multiset(p + [x]) + multiset(m);
  }

  lemma Shape(a: seq<Handle>, i: nat)
    requires i < |a| - 1
    ensures var n := |a| - 1;
      && a[i := a[n]][..n] == a[..i] + [a[n]] + a[i + 1..n]
      && a == a[..i] + [a[i]] + a[i + 1..n] + [a[n]]
  {
  }

  lemma SwapRemove(a: seq<Handle>, i: nat)
    requires i < |a|
    ensures multiset(a[i := a[|a| - 1]][..|a| - 1]) == multiset(a) - multiset{a[i]}
  {
    var n := |a| - 1;
    if i == n {
      assert a[i := a[n]][..n] == a[..n] && a == a[..n] + [a[n]];
    } else {
      Shape(a, i);
      Swapped(a[..i], a[i], a[i + 1..n], a[n]);
    }
  }

  /** Swap-removal reorders the survivors but drops exactly the finished workers, each of them. */
  method ReapFinished(workers: seq<Handle>) returns (left: seq<Handle>)
    ensures forall h: Handle :: multiset(left)[h] == if h.finished then 0 else multiset(workers)[h]
  {
    left := workers;
    var index := 0;
    while index < |left|
      invariant index <= |left|
      invariant forall h: Handle :: !h.finished ==> multiset(left)[h] == multiset(workers)[h]
      invariant forall k :: 0 <= k < index ==> !left[k].finished
      decreases |left| - index
    {
      if left[index].finished {
        SwapRemove(left, index);
        left := left[index := left[|left| - 1]][..|left| - 1];
      } else {
        index := index + 1;
      }
    }
    forall h: Handle | h.finished ensures multiset(left)[h] == 0 {
      assert h !in left;
    }
  }
}
