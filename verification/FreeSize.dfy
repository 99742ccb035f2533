/** Choosing which sizes to free: the subset with the largest sum that fits. */
module FreeSize {

  /** The best sum found so far and the indexes that give it. */
  datatype Best = Best(size: int, index: seq<nat>)

  function Abs(x: int): nat {
    if x < 0 then -x else x
  }

  /** The comparison made when every number has been decided on. */
  function Better(freeSize: int, current: int, select: seq<nat>, best: Best): Best {
    if current <= freeSize && Abs(current - freeSize) < Abs(best.size - freeSize) then Best(current, select) else best
  }

  /** What the search below a node makes of the best so far. */
  function Explore(numbers: seq<int>, freeSize: int, index: nat, current: int, select: seq<nat>, best: Best): Best
    requires index <= |numbers|
    decreases |numbers| - index
  {
    if index == |numbers| then Better(freeSize, current, select, best)
    else
      var included := Explore(numbers, freeSize, index + 1, current + numbers[index], select + [index], best);
      Explore(numbers, freeSize, index + 1, current, select, included)
  }

  /** The variables that the recursive closure shares. */
  class Search {
    const numbers: seq<int>
    const freeSize: int
    var closestSize: int
    var currentSize: int
    var finalIndex: seq<nat>
    var currentSelectIndex: seq<nat>

    constructor (numbers: seq<int>, freeSize: int)
      ensures this.numbers == numbers && this.freeSize == freeSize
      ensures closestSize == 0 && currentSize == 0 && finalIndex == [] && currentSelectIndex == []
    {
      this.numbers, this.freeSize := numbers, freeSize;
      closestSize, currentSize, finalIndex, currentSelectIndex := 0, 0, [], [];
    }

    /** The backtracking puts the current selection back as it found it. */
    method ReBackFind(index: nat)
      requires index <= |numbers|
      modifies this
      ensures currentSize == old(currentSize) && currentSelectIndex == old(currentSelectIndex)
      ensures Best(closestSize, finalIndex) ==
              Explore(numbers, freeSize, index, old(currentSize), old(currentSelectIndex),
                      old(Best(closestSize, finalIndex)))
      decreases |numbers| - index
    {
      if index == |numbers| {
        var sumDifference := Abs(currentSize - freeSize);
        if currentSize <= freeSize && sumDifference < Abs(closestSize - freeSize) {
          closestSize := currentSize;
          finalIndex := currentSelectIndex;
        }
        return;
      }
      currentSize := currentSize + numbers[index];
      currentSelectIndex := currentSelectIndex + [index];
      ReBackFind(index + 1);
      currentSize := currentSize - numbers[index];
      currentSelectIndex := currentSelectIndex[..|currentSelectIndex| - 1];
      ReBackFind(index + 1);
    }
  }

  // ---------- what the search finds ----------

  /** A subset of the numbers, as a strictly increasing list of indexes from `low` on. */
  ghost predicate Subset(t: seq<nat>, low: nat, n: nat) {
    && (forall i | 0 <= i < |t| :: low <= t[i] < n)
    && (forall i, j | 0 <= i < j < |t| :: t[i] < t[j])
  }

  function Sum(numbers: seq<int>, t: seq<nat>): int
    requires forall i | 0 <= i < |t| :: t[i] < |numbers|
  {
    if t == [] then 0 else numbers[t[0]] + Sum(numbers, t[1..])
  }

  /** The order in which subsets are met: at the first index where they differ, the one that has it comes first. */
  ghost predicate Precedes(a: seq<nat>, b: seq<nat>) {
    if a == [] then false
    else if b == [] then true
    else a[0] < b[0] || (a[0] == b[0] && Precedes(a[1..], b[1..]))
  }

  lemma SubsetHead(t: seq<nat>, low: nat, n: nat)
    requires Subset(t, low, n)
    ensures t == [] || low <= t[0] < n
  {
  }

  lemma SubsetTail(t: seq<nat>, low: nat, n: nat)
    requires Subset(t, low, n) && t != []
    ensures Subset(t[1..], t[0] + 1, n) && (t[0] != low ==> Subset(t, low + 1, n))
  {
  }

  lemma SubsetCons(t: seq<nat>, low: nat, n: nat)
    requires Subset(t, low + 1, n) && low < n
    ensures Subset([low] + t, low, n) && Subset(t, low, n) && ([low] + t)[1..] == t
  {
  }

  /** t completes a node to the best sum, and every other completion with that sum is met later. */
  ghost predicate FirstBest(numbers: seq<int>, index: nat, goal: int, t: seq<nat>) {
    && Subset(t, index, |numbers|) && Sum(numbers, t) == goal
    && forall u | Subset(u, index, |numbers|) && Sum(numbers, u) == goal :: u == t || Precedes(t, u)
  }

  /** No completion of a node that fits has a larger sum. */
  ghost predicate NoneLarger(numbers: seq<int>, index: nat, limit: int, goal: int) {
    forall u | Subset(u, index, |numbers|) && Sum(numbers, u) <= limit :: Sum(numbers, u) <= goal
  }

  lemma {:induction false} ExploreFinds(numbers: seq<int>, freeSize: int, index: nat, current: int, select: seq<nat>,
                                        best: Best)
    returns (t: seq<nat>)
    requires index <= |numbers| && best.size <= freeSize
    ensures var out := Explore(numbers, freeSize, index, current, select, best);
            && best.size <= out.size <= freeSize
            && NoneLarger(numbers, index, freeSize - current, out.size - current)
            && (out.size == best.size ==> out == best)
            && (out.size > best.size ==> out.index == select + t && FirstBest(numbers, index, out.size - current, t))
    decreases |numbers| - index
  {
    t := [];
    if index == |numbers| {
      forall u | Subset(u, index, |numbers|) ensures u == [] { SubsetHead(u, index, |numbers|); }
      assert select + [] == select;
      return;
    }
    var x := numbers[index];
    var mid := Explore(numbers, freeSize, index + 1, current + x, select + [index], best);
    var out := Explore(numbers, freeSize, index + 1, current, select, mid);
    var a := ExploreFinds(numbers, freeSize, index + 1, current + x, select + [index], best);
    var b := ExploreFinds(numbers, freeSize, index + 1, current, select, mid);
    StepNoneLarger(numbers, index, freeSize - current, mid.size - current, out.size - current);
    if out.size > mid.size {
      t := b;
      StepSkips(numbers, index, freeSize - current, mid.size - current, out.size - current, b);
    } else if mid.size > best.size {
      t := [index] + a;
      assert select + [index] + a == select + t;
      StepTakes(numbers, index, mid.size - current, a);
    }
  }

  lemma StepNoneLarger(numbers: seq<int>, index: nat, limit: int, mid: int, goal: int)
    requires index < |numbers| && mid <= goal
    requires NoneLarger(numbers, index + 1, limit - numbers[index], mid - numbers[index])
    requires NoneLarger(numbers, index + 1, limit, goal)
    ensures NoneLarger(numbers, index, limit, goal)
  {
    forall u | Subset(u, index, |numbers|) && Sum(numbers, u) <= limit ensures Sum(numbers, u) <= goal {
      if u != [] {
        SubsetTail(u, index, |numbers|);
      }
    }
  }

  /** If leaving the number out does strictly better, the winners leave it out. */
  lemma StepSkips(numbers: seq<int>, index: nat, limit: int, mid: int, goal: int, t: seq<nat>)
    requires index < |numbers| && mid < goal <= limit && FirstBest(numbers, index + 1, goal, t)
    requires NoneLarger(numbers, index + 1, limit - numbers[index], mid - numbers[index])
    ensures FirstBest(numbers, index, goal, t)
  {
    SubsetCons(t, index, |numbers|);
    forall u | Subset(u, index, |numbers|) && Sum(numbers, u) == goal ensures u == t || Precedes(t, u) {
      if u != [] {
        SubsetTail(u, index, |numbers|);
      }
    }
  }

  /** If it does no better, the first winner with the number comes before all without it. */
  lemma StepTakes(numbers: seq<int>, index: nat, goal: int, t: seq<nat>)
    requires index < |numbers| && FirstBest(numbers, index + 1, goal - numbers[index], t)
    ensures FirstBest(numbers, index, goal, [index] + t)
  {
    SubsetCons(t, index, |numbers|);
    forall u | Subset(u, index, |numbers|) && Sum(numbers, u) == goal
      ensures u == [index] + t || Precedes([index] + t, u)
    {
      if u != [] {
        SubsetTail(u, index, |numbers|);
        if u[0] == index {
          assert u == [index] + u[1..];
        }
      }
    }
  }

  /**
   * findFreeSizeAlgorithm: for every list of sizes and every freeSize >= 0 the result is a subset whose
   * sum fits and is the largest of all subsets that fit; among equals it is the first in include-first
   * order, or the empty one when the largest sum is 0.
   */
  method FindFreeSize(numbers: seq<int>, freeSize: int) returns (r: seq<nat>)
    requires freeSize >= 0
    ensures Subset(r, 0, |numbers|) && Sum(numbers, r) <= freeSize
    ensures forall t | Subset(t, 0, |numbers|) && Sum(numbers, t) <= freeSize :: Sum(numbers, t) <= Sum(numbers, r)
    ensures if Sum(numbers, r) == 0 then r == []
            else forall t | Subset(t, 0, |numbers|) && Sum(numbers, t) == Sum(numbers, r) :: t == r || Precedes(r, t)
  {
    var search := new Search(numbers, freeSize);
    search.ReBackFind(0);
    ghost var t := ExploreFinds(numbers, freeSize, 0, 0, [], Best(0, []));
    assert [] + t == t;
    return search.finalIndex;
  }
}
