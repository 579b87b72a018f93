/**
 * The pass index that `Rainbow` and `Blur` keep over their shuffled order:
 * each visit of their loops first wraps an index at the end of the order
 * back to the first entry, then reads the entry there and moves on. A
 * visit that reads the first entry starts a pass.
 */
module Passes {
  /** Entry `c` of a pass, where entry `n` (one past the end) wraps to entry 0. */
  function Wrapped(c: int, n: int): int
  {
    if c >= n then 0 else c
  }

  /** The pass index after `u` visits from index `start`. */
  function Cursor(start: int, n: int, u: nat): (c: int)
    requires 0 <= start <= n && 0 < n
    ensures 0 <= c <= n
  {
    if u == 0 then start else Wrapped(Cursor(start, n, u - 1), n) + 1
  }

  /** How many of the first `u` visits from index `start` start a pass. */
  function Starts(start: int, n: int, u: nat): (s: nat)
    requires 0 <= start <= n && 0 < n
    ensures s <= u
  {
    if u == 0 then 0
    else Starts(start, n, u - 1) + (if Wrapped(Cursor(start, n, u - 1), n) == 0 then 1 else 0)
  }

  /** Later visits have started at least as many passes. */
  lemma {:induction false} StartsGrow(start: int, n: int, u: nat, v: nat)
    requires 0 <= start <= n && 0 < n && u <= v
    ensures Starts(start, n, u) <= Starts(start, n, v)
  {
    if u < v {
      StartsGrow(start, n, u, v - 1);
    }
  }

  /** Visits that stay inside the current pass move the index by one each. */
  lemma {:induction false} CursorRuns(start: int, n: int, u: nat)
    requires 0 <= start <= n && 0 < n && start + u <= n
    ensures Cursor(start, n, u) == start + u
    ensures start > 0 ==> Starts(start, n, u) == 0
  {
    if u > 0 {
      CursorRuns(start, n, u - 1);
    }
  }
}
