/** Value types shared by the models: fixed-width integers, and results for code that throws. */
module Basics {
  type u8 = x: nat | x < 0x100
  type u16 = x: nat | x < 0x1_0000
  type u32 = x: nat | x < 0x1_0000_0000

  datatype Option<+T> = None | Some(value: T)

  /** The outcome of a C++ function that either returns or throws. */
  datatype Result<+T, +E> = Ok(value: T) | Err(error: E)

  /** The i-th bit of an unsigned integer, where `mask` is 2 to the power i. */
  predicate HasBit(value: nat, mask: nat)
    requires mask > 0
  {
    value / mask % 2 == 1
  }

  /** 16-bit ids wrap around; up to half of them count as ahead. */
  const WRAP := 0x1_0000
  const HALF := 0x8000

  /** How far `to` is ahead of `from`: subtraction of 16-bit integers. */
  function Distance(from: u16, to: u16): u16 {
    if from <= to then to - from else to + WRAP - from
  }

  function PowerOfTwo(k: nat): nat {
    if k == 0 then 1 else 2 * PowerOfTwo(k - 1)
  }

  /** A sequence is all but its last element, and its last. */
  lemma LastApart<T>(s: seq<T>)
    requires s != []
    ensures s == s[..|s| - 1] + [s[|s| - 1]]
  {
  }

  /** A set of integers inside a half-open interval has at most as many members as the interval. */
  lemma {:induction false} BoundedSetSize(s: set<int>, low: int, high: int)
    requires low <= high
    requires forall x :: x in s ==> low <= x < high
    ensures |s| <= high - low
    decreases high - low
  {
    if low == high {
      assert s == {};
    } else {
      var rest := s - {high - 1};
      BoundedSetSize(rest, low, high - 1);
      assert s == rest || s == rest + {high - 1};
    }
  }

  predicate Within(s: nat, low: nat, high: nat) {
    low <= s < high
  }

  /** The numbers from `low` up to but excluding `high`. */
  function Interval(low: nat, high: nat): set<nat> {
    set s | low <= s < high && Within(s, low, high)
  }

  lemma {:induction false} IntervalSize(low: nat, high: nat)
    requires low <= high
    ensures |Interval(low, high)| == high - low
    decreases high - low
  {
    if low == high {
      assert Interval(low, high) == {};
    } else {
      IntervalSize(low, high - 1);
      assert Interval(low, high) == Interval(low, high - 1) + {high - 1};
    }
  }

  /** A larger set has at least as many members. */
  lemma {:induction false} SubsetSize<T>(small: set<T>, large: set<T>)
    requires small <= large
    ensures |small| <= |large|
    ensures |small| == |large| ==> small == large
  {
    var extra := large - small;
    assert large == small + extra;
    assert |large| == |small| + |extra|;
  }

  /** Sets whose members correspond one to one are equally large. */
  lemma {:induction false} SameSize<A, B>(xs: set<A>, ys: set<B>, f: A -> B, g: B -> A)
    requires forall x :: x in xs ==> f(x) in ys && g(f(x)) == x
    requires forall y :: y in ys ==> g(y) in xs && f(g(y)) == y
    ensures |xs| == |ys|
  {
    if x :| x in xs {
      SameSize(xs - {x}, ys - {f(x)}, f, g);
    } else {
      assert forall y :: y in ys ==> g(y) in xs;
      assert ys == {};
    }
  }

  /** The first key of an ordered map. */
  function Least(keys: set<nat>): (k: nat)
    requires keys != {}
    ensures IsLeast(keys, k)
  {
    LeastExists(keys);
    var k :| k in keys && forall j :: j in keys ==> k <= j;
    k
  }

  ghost predicate IsLeast(keys: set<nat>, k: nat) {
    k in keys && forall j :: j in keys ==> k <= j
  }

  lemma {:induction false} LeastExists(keys: set<nat>)
    requires keys != {}
    ensures exists k :: IsLeast(keys, k)
  {
    var x :| x in keys;
    var rest := keys - {x};
    if rest == {} {
      assert keys == {x};
      assert IsLeast(keys, x);
    } else {
      LeastExists(rest);
      var k :| IsLeast(rest, k);
      assert forall j :: j in keys ==> j == x || j in rest;
      assert IsLeast(keys, if x <= k then x else k);
    }
  }
}
