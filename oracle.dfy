/**
 * The process-wide random source of tree.py (`random()` and `shuffle`),
 * replaced by one seeded generator object that every pattern draws from.
 * Nothing in the model depends on which values it produces: callers only
 * rely on the ranges promised below, so any other source with the same
 * contracts gives the same verified behaviour.
 */
module Oracle {

  class Rand {
    var seed: nat

    constructor (seed0: nat)
      ensures seed == seed0
    {
      seed := seed0;
    }

    /** `int(random() * n)`: a draw in 0..n-1. */
    method Below(n: nat) returns (r: nat)
      requires n > 0
      modifies this
      ensures r < n
    {
      seed := (seed * 1103515245 + 12345) % 0x8000_0000;
      r := seed % n;
    }

    /** `shuffle(s)`: the same elements in a drawn order (Fisher-Yates). */
    method Shuffle(s: seq<int>) returns (t: seq<int>)
      modifies this
      ensures multiset(t) == multiset(s)
    {
      t := s;
      var k := |t|;
      while k > 1
        invariant 0 <= k <= |t|
        invariant multiset(t) == multiset(s)
      {
        var j := Below(k);
        k := k - 1;
        t := t[j := t[k]][k := t[j]];
      }
    }
  }

  /** `range(n)`. */
  function Iota(n: nat): (s: seq<int>)
    ensures |s| == n && forall k :: 0 <= k < n ==> s[k] == k
  {
    seq(n, k => k)
  }

  /** `range(0, 4 * m, 4)`. */
  function Stride4(m: nat): (s: seq<int>)
    ensures |s| == m && forall k :: 0 <= k < m ==> s[k] == 4 * k
  {
    seq(m, k => 4 * k)
  }

  /** `order` holds the elements of `universe`, each as often, in some order. */
  ghost predicate IsPermutationOf(order: seq<int>, universe: seq<int>)
  {
    multiset(order) == multiset(universe)
  }

  /** A reordering has the same length and the same members as what it reorders. */
  lemma PermutationMembers(order: seq<int>, universe: seq<int>)
    requires IsPermutationOf(order, universe)
    ensures |order| == |universe|
    ensures forall x :: x in order <==> x in universe
  {
    assert |multiset(order)| == |order| && |multiset(universe)| == |universe|;
    forall x
      ensures x in order <==> x in universe
    {
      assert x in order <==> x in multiset(order);
      assert x in universe <==> x in multiset(universe);
    }
  }

  /**
   * A shuffled `range(n)` is a strip order: it has n entries, each one a
   * position of the strip, and every position occurs in it.
   */
  lemma {:induction false} IotaPermutation(order: seq<int>, n: nat)
    requires IsPermutationOf(order, Iota(n))
    ensures |order| == n
    ensures forall k :: 0 <= k < n ==> 0 <= order[k] < n
    ensures forall x :: 0 <= x < n ==> x in order
  {
    PermutationMembers(order, Iota(n));
    forall k | 0 <= k < n
      ensures 0 <= order[k] < n
    {
      assert order[k] in order;
      var j :| 0 <= j < n && Iota(n)[j] == order[k];
    }
    forall x | 0 <= x < n
      ensures x in order
    {
      assert Iota(n)[x] == x;
    }
  }

  /** A shuffled `range(0, 4 * m, 4)` holds m multiples of 4 below 4 * m. */
  lemma {:induction false} StridePermutation(order: seq<int>, m: nat)
    requires IsPermutationOf(order, Stride4(m))
    ensures |order| == m
    ensures forall k :: 0 <= k < m ==> 0 <= order[k] && order[k] + 3 < 4 * m && order[k] % 4 == 0
  {
    PermutationMembers(order, Stride4(m));
    forall k | 0 <= k < m
      ensures 0 <= order[k] && order[k] + 3 < 4 * m && order[k] % 4 == 0
    {
      assert order[k] in order;
      var j :| 0 <= j < m && Stride4(m)[j] == order[k];
    }
  }
}
