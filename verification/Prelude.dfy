/** Small shared vocabulary: an optional value, time, bytes, parts of texts, and sums over
    sequences. */
module Prelude {

  datatype Option<+T> = None | Some(value: T)

  newtype byte = x: int | 0 <= x < 256

  /** Moments and durations, in nanoseconds. */
  type Time = int

  const SECOND: Time := 1_000_000_000
  const MINUTE: Time := 60 * SECOND

  /** Some element of a non-empty set: iteration over a map or set has no fixed order. */
  method Pick<T>(s: set<T>) returns (x: T)
    requires s != {}
    ensures x in s
  {
    x :| x in s;
  }

  /** Does a text contain this one as a part? */
  predicate Contains(s: string, part: string) {
    exists i :: 0 <= i <= |s| && part <= s[i..]
  }

  /** The total weight of the elements of a sequence. */
  function Sum<T>(xs: seq<T>, weight: T -> nat): nat {
    if |xs| == 0 then 0 else Sum(xs[..|xs| - 1], weight) + weight(xs[|xs| - 1])
  }

  /** Replacing one element changes the sum by the difference of the two weights. */
  lemma {:induction false} SumUpdate<T>(xs: seq<T>, i: nat, x: T, weight: T -> nat)
    requires i < |xs|
    ensures Sum(xs[i := x], weight) + weight(xs[i]) == Sum(xs, weight) + weight(x)
  {
    var n := |xs| - 1;
    if i == n {
      assert xs[i := x][..n] == xs[..n];
    } else {
      SumUpdate(xs[..n], i, x, weight);
      assert xs[i := x][..n] == xs[..n][i := x];
    }
  }

  /** A sum with a positive element somewhere is at least that element. */
  lemma {:induction false} SumAtLeast<T>(xs: seq<T>, i: nat, weight: T -> nat)
    requires i < |xs|
    ensures Sum(xs, weight) >= weight(xs[i])
  {
    if i < |xs| - 1 {
      SumAtLeast(xs[..|xs| - 1], i, weight);
    }
  }

  /** A sum of zeros is zero. */
  lemma {:induction false} SumZero<T>(xs: seq<T>, weight: T -> nat)
    requires forall i :: 0 <= i < |xs| ==> weight(xs[i]) == 0
    ensures Sum(xs, weight) == 0
  {
    if xs != [] {
      SumZero(xs[..|xs| - 1], weight);
    }
  }

  /** A positive sum has a positive element. */
  lemma {:induction false} SumPositive<T>(xs: seq<T>, weight: T -> nat) returns (i: nat)
    requires Sum(xs, weight) > 0
    ensures i < |xs| && weight(xs[i]) > 0
  {
    if weight(xs[|xs| - 1]) > 0 {
      i := |xs| - 1;
    } else {
      i := SumPositive(xs[..|xs| - 1], weight);
    }
  }

  /** Sums add up where the weights do, element by element. */
  lemma {:induction false} SumOfWeights<T>(xs: seq<T>, total: T -> nat, left: T -> nat, right: T -> nat)
    requires forall x :: x in xs ==> total(x) >= left(x) + right(x)
    ensures Sum(xs, total) >= Sum(xs, left) + Sum(xs, right)
  {
    if xs != [] {
      assert xs[|xs| - 1] in xs;
      SumOfWeights(xs[..|xs| - 1], total, left, right);
    }
  }

  /** A quotient from below: multiplying the divisor first needs no rounding. */
  lemma DivAtLeast(a: int, w: nat, q: int)
    requires w > 0 && q * w <= a
    ensures q <= a / w
  {
    assert (q - a / w) * w <= a % w < w;
    LessThanOnce(q - a / w, w);
  }

  lemma LessThanOnce(k: int, w: nat)
    requires k * w < w
    ensures k <= 0
  {
  }
}
