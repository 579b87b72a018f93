/**
 * The retirement rule the element-list patterns share while shrinking:
 * walk the list, advance every element until the first finished one, drop
 * that one and stop (`del list[i]` followed by `break`).
 */
module Retirement {

  /** `f` applied to every element. */
  function Each<T>(s: seq<T>, f: T -> T): (r: seq<T>)
    ensures |r| == |s| && forall k :: 0 <= k < |s| ==> r[k] == f(s[k])
  {
    if s == [] then [] else [f(s[0])] + Each(s[1..], f)
  }

  /** The index of the first finished element, or `|s|` when none is. */
  function FirstDone<T>(s: seq<T>, done: T -> bool): (k: nat)
    ensures k <= |s|
    ensures forall j :: 0 <= j < k ==> !done(s[j])
    ensures k < |s| ==> done(s[k])
  {
    if s == [] then 0
    else if done(s[0]) then 0
    else 1 + FirstDone(s[1..], done)
  }

  /**
   * The list after one shrinking pass: the first finished element is
   * dropped, the elements before it advance, the ones after it are not
   * looked at.
   */
  function Retire<T>(s: seq<T>, done: T -> bool, advance: T -> T): seq<T>
  {
    if s == [] then []
    else if done(s[0]) then s[1..]
    else [advance(s[0])] + Retire(s[1..], done, advance)
  }

  /** `Retire` drops exactly the first finished element, and advances every element when none is finished. */
  lemma {:induction false} RetireAt<T>(s: seq<T>, done: T -> bool, advance: T -> T)
    ensures FirstDone(s, done) < |s| ==>
      Retire(s, done, advance) == Each(s[..FirstDone(s, done)], advance) + s[FirstDone(s, done) + 1..]
    ensures FirstDone(s, done) == |s| ==> Retire(s, done, advance) == Each(s, advance)
  {
    if s != [] && !done(s[0]) {
      RetireAt(s[1..], done, advance);
      var k := FirstDone(s[1..], done);
      if k < |s[1..]| {
        assert s[..k + 1][1..] == s[1..][..k];
        assert s[1..][k + 1..] == s[k + 2..];
      }
    }
  }

  /** A shrinking pass removes at most one element: exactly one when some element is finished. */
  lemma RetireShrinksByOne<T>(s: seq<T>, done: T -> bool, advance: T -> T)
    ensures |Retire(s, done, advance)| == if FirstDone(s, done) < |s| then |s| - 1 else |s|
  {
    RetireAt(s, done, advance);
  }

  /** A finished element with no finished element before it is the first finished one. */
  lemma {:induction false} FirstDoneAt<T>(s: seq<T>, done: T -> bool, i: int)
    requires 0 <= i < |s| && done(s[i]) && forall k :: 0 <= k < i ==> !done(s[k])
    ensures FirstDone(s, done) == i
  {
    if i > 0 {
      FirstDoneAt(s[1..], done, i - 1);
    }
  }

  /** With no finished element, `FirstDone` is the length. */
  lemma {:induction false} FirstDoneNone<T>(s: seq<T>, done: T -> bool)
    requires forall k :: 0 <= k < |s| ==> !done(s[k])
    ensures FirstDone(s, done) == |s|
  {
    if s != [] {
      FirstDoneNone(s[1..], done);
    }
  }

  /**
   * The list a shrinking pass leaves when element `i`, the first finished
   * one, is dropped and the elements before it were advanced.
   */
  lemma DropAt<T>(s: seq<T>, before: seq<T>, i: int, done: T -> bool, advance: T -> T)
    requires 0 <= i < |s| == |before| && before[i..] == s[i..] && done(s[i])
    requires forall k :: 0 <= k < i ==> !done(s[k]) && before[k] == advance(s[k])
    ensures FirstDone(s, done) == i && before[..i] + before[i + 1..] == Retire(s, done, advance)
  {
    FirstDoneAt(s, done, i);
    RetireAt(s, done, advance);
    assert before[..i] == Each(s[..i], advance);
    assert before[i + 1..] == s[i + 1..] by {
      assert before[i + 1..] == before[i..][1..] && s[i + 1..] == s[i..][1..];
    }
  }

  /** The list a shrinking pass leaves when no element is finished: all advanced. */
  lemma NoneDone<T>(s: seq<T>, after: seq<T>, done: T -> bool, advance: T -> T)
    requires |after| == |s| && forall k :: 0 <= k < |s| ==> !done(s[k]) && after[k] == advance(s[k])
    ensures FirstDone(s, done) == |s| && after == Retire(s, done, advance)
  {
    FirstDoneNone(s, done);
    RetireAt(s, done, advance);
  }
}
