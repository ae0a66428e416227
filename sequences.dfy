/**
 The two list idioms the plotting module builds its index lists from:
 an arithmetic progression with a start, an exclusive stop and a non-zero
 step (ascending or descending), and a filtering comprehension that keeps
 the elements satisfying a condition, in order.
 */
module Sequences {

  /** Every element is smaller than every element after it. */
  predicate Increasing(s: seq<int>)
  {
    forall i, j :: 0 <= i < j < |s| ==> s[i] < s[j]
  }

  /**
   The progression start, start + step, start + 2*step, ... that stops
   before reaching stop (from below when step > 0, from above when step < 0).
   `range` raises ValueError for a zero step, and no caller passes one.
   */
  function Range(start: int, stop: int, step: int): (r: seq<int>)
    requires step != 0
    ensures forall k :: 0 <= k < |r| ==> r[k] == start + k * step
    ensures forall k :: 0 <= k < |r| ==> if step > 0 then r[k] < stop else r[k] > stop
    ensures if step > 0 then start + |r| * step >= stop else start + |r| * step <= stop
    decreases if step > 0 then stop - start else start - stop
  {
    if (step > 0 && start < stop) || (step < 0 && start > stop) then
      var rest := Range(start + step, stop, step);
      forall k | 1 <= k <= |rest| + 1 ensures start + step + (k - 1) * step == start + k * step {
        StepShift(k - 1, step);
      }
      [start] + rest
    else
      []
  }

  /** One more step of a progression. */
  lemma StepShift(k: int, step: int)
    ensures (k + 1) * step == k * step + step
  {
  }

  /** The elements of s for which keep holds, in their original order. */
  function Filter(s: seq<int>, keep: int -> bool): (r: seq<int>)
    ensures |r| <= |s|
    ensures forall x :: x in r <==> x in s && keep(x)
    ensures forall x {:trigger multiset(r)[x]} :: multiset(r)[x] == if keep(x) then multiset(s)[x] else 0
    ensures Increasing(s) ==> Increasing(r)
  {
    if s == [] then []
    else
      var rest := Filter(s[1..], keep);
      MultisetOfCons(s);
      MultisetOfCons([s[0]] + rest);
      IncreasingCons(s, rest);
      if keep(s[0]) then [s[0]] + rest else rest
  }

  /** A non-empty sequence's multiset is its head plus its tail's. */
  lemma MultisetOfCons(s: seq<int>)
    requires s != []
    ensures multiset(s) == multiset{s[0]} + multiset(s[1..])
  {
    assert s == [s[0]] + s[1..];
  }

  /**
   If s is increasing, so is its tail, and so is the head of s followed by
   any increasing list drawn from the tail.
   */
  lemma IncreasingCons(s: seq<int>, rest: seq<int>)
    requires s != []
    requires Increasing(s[1..]) ==> Increasing(rest)
    requires forall y :: y in rest ==> y in s[1..]
    ensures Increasing(s) ==> Increasing(rest) && Increasing([s[0]] + rest)
  {
    if Increasing(s) {
      assert Increasing(s[1..]);
      forall i, j | 0 <= i < j < |rest| + 1 ensures ([s[0]] + rest)[i] < ([s[0]] + rest)[j] {
        if i == 0 {
          assert rest[j - 1] in rest;
          var k :| 0 <= k < |s[1..]| && s[1..][k] == rest[j - 1];
          assert s[k + 1] == rest[j - 1];
        }
      }
    }
  }

  /** The condition "not x > bound" of a comprehension. */
  function AtMost(bound: int): (atMost: int -> bool)
    ensures forall x :: atMost(x) <==> x <= bound
  {
    x => !(x > bound)
  }

  /**
   Filtering an increasing sequence by an upper bound keeps a prefix of it:
   once one element is too large, so are all that follow.
   */
  lemma {:induction false} FilterAtMostIsPrefix(s: seq<int>, bound: int)
    requires Increasing(s)
    ensures Filter(s, AtMost(bound)) == s[..|Filter(s, AtMost(bound))|]
    ensures |Filter(s, AtMost(bound))| < |s| ==> s[|Filter(s, AtMost(bound))|] > bound
  {
    if s != [] {
      assert Increasing(s[1..]);
      FilterAtMostIsPrefix(s[1..], bound);
      if !AtMost(bound)(s[0]) {
        // every later element is larger still, so nothing is kept
        FilterAtMostEmpty(s[1..], bound);
      }
    }
  }

  /** Nothing is kept when every element exceeds the bound. */
  lemma {:induction false} FilterAtMostEmpty(s: seq<int>, bound: int)
    requires forall k :: 0 <= k < |s| ==> s[k] > bound
    ensures Filter(s, AtMost(bound)) == []
  {
    if s != [] {
      FilterAtMostEmpty(s[1..], bound);
    }
  }

  /** A prefix of an increasing progression of step > 0 is that progression up to its length. */
  lemma FilterAtMostRange(start: int, stop: int, step: int, bound: int)
    requires step > 0
    ensures Increasing(Range(start, stop, step))
    ensures forall k :: 0 <= k < |Filter(Range(start, stop, step), AtMost(bound))| ==>
              Filter(Range(start, stop, step), AtMost(bound))[k] == start + k * step
  {
    var r := Range(start, stop, step);
    forall i, j | 0 <= i < j < |r| ensures r[i] < r[j] {
      assert r[j] - r[i] == (j - i) * step;
    }
    FilterAtMostIsPrefix(r, bound);
  }
}
