/** Definitions and facts shared by the other modules. */
module Prelude {
  datatype Option<+T> = None | Some(value: T)

  /** A result or the reason why there is none. */
  datatype Outcome<+T, +E> = Ok(value: T) | Err(error: E)

  // ---- ranges of numbers ----

  predicate Between(i: nat, start: nat, count: nat)
  {
    start <= i < start + count
  }

  function Range(start: nat, count: nat): set<nat>
  {
    set i: nat | i < start + count && Between(i, start, count)
  }

  lemma {:induction false} RangeSize(start: nat, count: nat)
    ensures |Range(start, count)| == count
  {
    if count == 0 {
      assert Range(start, 0) == {};
    } else {
      RangeSize(start, count - 1);
      RangeGrows(start, count - 1);
    }
  }

  lemma RangeGrows(start: nat, count: nat)
    ensures Range(start, count + 1) == Range(start, count) + {start + count}
    ensures start + count !in Range(start, count)
  {
  }

  lemma SubsetSize(a: set<nat>, b: set<nat>)
    requires a <= b
    ensures |a| <= |b| && (|a| == |b| ==> a == b)
  {
    assert b == a + (b - a);
  }

  // ---- division ----

  lemma Scaled(n: int, d: int)
    requires n > 0
    ensures d >= 1 ==> n * d >= n
    ensures d <= -1 ==> n * d <= -n
  {
  }

  lemma Swapped(a: int, b: int)
    ensures a * b == b * a
  {
  }

  lemma Quotient(x: nat, n: nat, q: nat, r: nat)
    requires r < n && x == n * q + r
    ensures x / n == q && x % n == r
  {
    var d := x / n - q;
    assert n * d == r - x % n;
    Scaled(n, d);
  }
}
