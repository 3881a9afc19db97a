/** The list helpers of the helpers package: `Min` over int64 values and the list difference `Subtraction`. */
module Helpers {
  import opened Bytes

  /** One step of Min: a running value of 0 is taken as unset, otherwise the smaller value wins. */
  function MinStep(min: int64, val: int64): int64 {
    if min == 0 || val <= min then val else min
  }

  /** Min's running value after the given values, from a start of 0. */
  function MinOf(num: seq<int64>): int64
    decreases |num|
  {
    if num == [] then 0 else MinStep(MinOf(num[..|num| - 1]), num[|num| - 1])
  }

  /** Min, with the source's loop over its arguments. */
  method Min(num: seq<int64>) returns (min: int64)
    ensures min == MinOf(num)
  {
    min := 0;
    var i := 0;
    while i < |num|
      invariant 0 <= i <= |num| && min == MinOf(num[..i])
    {
      assert num[..i + 1][..i] == num[..i];
      var val := num[i];
      if min == 0 || val <= min {
        min := val;
      }
      i := i + 1;
    }
    assert num[..i] == num;
  }

  /** Min of no values is 0. */
  lemma MinEmpty()
    ensures MinOf([]) == 0
  {
  }

  /** Without a zero among the values, Min is their true minimum. */
  lemma {:induction false} MinIsMinimum(num: seq<int64>)
    requires |num| > 0 && forall i :: 0 <= i < |num| ==> num[i] != 0
    ensures MinOf(num) in num
    ensures forall i :: 0 <= i < |num| ==> MinOf(num) <= num[i]
    decreases |num|
  {
    var init := num[..|num| - 1];
    if |init| > 0 {
      MinIsMinimum(init);
      assert MinOf(init) != 0;
      assert forall i :: 0 <= i < |init| ==> init[i] == num[i];
    }
  }

  /**
   * For non-negative values a zero resets the running value: Min is the minimum of the values
   * after the last zero, 0 when the last value is itself zero.
   */
  lemma {:induction false} MinAfterZero(pre: seq<int64>, post: seq<int64>)
    requires forall i :: 0 <= i < |pre| ==> pre[i] >= 0
    requires forall i :: 0 <= i < |post| ==> post[i] > 0
    ensures MinOf(pre + [0] + post) == MinOf(post)
    decreases |post|
  {
    if post == [] {
      assert (pre + [0] + post)[..|pre|] == pre;
      MinNonNegative(pre);
    } else {
      var init := post[..|post| - 1];
      assert (pre + [0] + post)[..|pre + [0] + post| - 1] == pre + [0] + init;
      MinAfterZero(pre, init);
    }
  }

  /** The running value over non-negative values is non-negative. */
  lemma {:induction false} MinNonNegative(num: seq<int64>)
    requires forall i :: 0 <= i < |num| ==> num[i] >= 0
    ensures MinOf(num) >= 0
    decreases |num|
  {
    if num != [] {
      MinNonNegative(num[..|num| - 1]);
    }
  }

  /** A negative running value survives a later zero: Min(-5, 0, 3) is -5, not 3. */
  lemma MinNegativeIgnoresZero()
    ensures MinOf([-5, 0, 3]) == -5
  {
    assert [-5, 0, 3][..2] == [-5, 0];
    assert [-5, 0][..1] == [-5];
    assert [-5][..0] == [];
  }

  /** The elements of a absent from b, in a's order and with a's duplicates. */
  function Without(a: seq<int64>, b: set<int64>): (c: seq<int64>)
    ensures |c| <= |a|
    ensures forall x :: x in c <==> x in a && x !in b
    decreases |a|
  {
    if a == [] then []
    else if a[|a| - 1] in b then Without(a[..|a| - 1], b)
    else Without(a[..|a| - 1], b) + [a[|a| - 1]]
  }

  /** The set of a list's elements. */
  function Elements(s: seq<int64>): (r: set<int64>)
    ensures forall x :: x in r <==> x in s
  {
    set x | x in s
  }

  /** Subtraction: the set of b's values is built first, then a is filtered by it. */
  method Subtraction(a: seq<int64>, b: seq<int64>) returns (c: seq<int64>)
    ensures c == Without(a, Elements(b))
  {
    var temp: set<int64> := {};
    var i := 0;
    while i < |b|
      invariant 0 <= i <= |b| && temp == Elements(b[..i])
    {
      if b[i] !in temp {
        temp := temp + {b[i]};
      }
      assert b[..i + 1] == b[..i] + [b[i]];
      i := i + 1;
    }
    assert b[..i] == b;
    c := [];
    var j := 0;
    while j < |a|
      invariant 0 <= j <= |a| && c == Without(a[..j], temp)
    {
      assert a[..j + 1][..j] == a[..j];
      if a[j] !in temp {
        c := c + [a[j]];
      }
      j := j + 1;
    }
    assert a[..j] == a;
  }

  /** When no element of a is in b, nothing is removed. */
  lemma {:induction false} WithoutKeepsMembers(a: seq<int64>, b: set<int64>)
    requires forall i :: 0 <= i < |a| ==> a[i] !in b
    ensures Without(a, b) == a
    decreases |a|
  {
    if a != [] {
      WithoutKeepsMembers(a[..|a| - 1], b);
    }
  }

  /** Filtering keeps a's order: filtering a concatenation filters each part in turn. */
  lemma {:induction false} WithoutAppend(a1: seq<int64>, a2: seq<int64>, b: set<int64>)
    ensures Without(a1 + a2, b) == Without(a1, b) + Without(a2, b)
    decreases |a2|
  {
    if a2 == [] {
      assert a1 + a2 == a1;
    } else {
      var init := a2[..|a2| - 1];
      assert (a1 + a2)[..|a1 + a2| - 1] == a1 + init;
      WithoutAppend(a1, init, b);
    }
  }

  /** Subtracting nothing gives a back. */
  lemma SubtractNothing(a: seq<int64>)
    ensures Without(a, Elements([])) == a
  {
    WithoutKeepsMembers(a, Elements([]));
  }

  /** Subtracting a list from itself gives nothing. */
  lemma SubtractSelf(a: seq<int64>)
    ensures Without(a, Elements(a)) == []
  {
    WithoutCovered(a, Elements(a));
  }

  /** When every element of a is in b, everything is removed. */
  lemma {:induction false} WithoutCovered(a: seq<int64>, b: set<int64>)
    requires forall i :: 0 <= i < |a| ==> a[i] in b
    ensures Without(a, b) == []
    decreases |a|
  {
    if a != [] {
      WithoutCovered(a[..|a| - 1], b);
    }
  }

  /** The result keeps every copy of each surviving element: counts in a carry over. */
  lemma {:induction false} WithoutCount(a: seq<int64>, b: set<int64>, x: int64)
    requires x !in b
    ensures multiset(Without(a, b))[x] == multiset(a)[x]
    decreases |a|
  {
    if a != [] {
      var init := a[..|a| - 1];
      WithoutCount(init, b, x);
      assert a == init + [a[|a| - 1]];
    }
  }
}
