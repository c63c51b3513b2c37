/**
 * Cyclic-index and range helpers of the tracer (src/utils.ts).
 */
module Utils {

  /** `mod(a, n)`: the source computes the remainder with JavaScript's truncating `%`,
      but only ever on non-negative operands, where it agrees with Dafny's `%`. */
  function Mod(a: int, n: int): (r: int)
    requires n > 0
    ensures 0 <= r < n
    ensures r == a % n
  {
    if a >= n then a % n
    else if a >= 0 then a
    else
      var q := (-1 - a) / n;
      var r := n - 1 - ((-1 - a) % n);
      assert -1 - a == q * n + (-1 - a) % n;
      assert -(q + 1) * n == -(q * n) - n;
      EuclideanUnique(a, n, -(q + 1), r);
      r
  }

  /** Euclidean division is determined by any quotient/remainder pair with 0 <= r < n. */
  lemma EuclideanUnique(a: int, n: int, q: int, r: int)
    requires n > 0 && 0 <= r < n && a == q * n + r
    ensures a / n == q && a % n == r
  {
    var q0, r0 := a / n, a % n;
    assert a == q0 * n + r0;
    var d := q - q0;
    assert d * n == q * n - q0 * n;
    assert d * n == r0 - r;
    if d > 0 {
      NonNegProduct(d - 1, n);
    } else if d < 0 {
      NonNegProduct(-d - 1, n);
    }
  }

  lemma NonNegProduct(x: int, y: int)
    requires x >= 0 && y >= 0
    ensures x * y >= 0
  {
  }

  /** `cyclic(a, b, c)`: a <= b < c in the cyclic sense. */
  predicate Cyclic(a: int, b: int, c: int)
  {
    if a <= c then a <= b && b < c else a <= b || b < c
  }

  /** A cyclic interval that starts and ends at the same index is empty. */
  lemma CyclicEmptyWhenEndsMeet(a: int, b: int)
    ensures !Cyclic(a, b, a)
  {
  }

  /** On indices of one cycle, `cyclic(a, b, c)` holds exactly when b is reached from a
      before c is, walking forward modulo n. */
  lemma CyclicMeansModOrder(a: int, b: int, c: int, n: int)
    requires n > 0
    requires 0 <= a < n && 0 <= b < n && 0 <= c < n
    ensures Cyclic(a, b, c) <==> Mod(b - a, n) < Mod(c - a, n)
  {
    if b >= a {
      EuclideanUnique(b - a, n, 0, b - a);
    } else {
      EuclideanUnique(b - a, n, -1, b - a + n);
    }
    if c >= a {
      EuclideanUnique(c - a, n, 0, c - a);
    } else {
      EuclideanUnique(c - a, n, -1, c - a + n);
    }
  }

  /** `clamp(val, min, max)` = min(max, max(min, val)). */
  function Clamp(v: real, lo: real, hi: real): (r: real)
    ensures lo <= hi ==> lo <= r <= hi
    ensures lo <= v <= hi ==> r == v
    ensures r == hi || r == lo || r == v
  {
    var m := if lo > v then lo else v;
    if hi < m then hi else m
  }

  /** Integer instance of `clamp` (every caller that clamps indices passes integers). */
  function ClampInt(v: int, lo: int, hi: int): (r: int)
    ensures lo <= hi ==> lo <= r <= hi
    ensures lo <= v <= hi ==> r == v
    ensures r as real == Clamp(v as real, lo as real, hi as real)
  {
    var m := if lo > v then lo else v;
    if hi < m then hi else m
  }

  /** The value `range(min, max?)` returns: its two ends. */
  datatype Range = Range(start: int, end: int)
  {
    /** `contains`: both ends are inclusive. */
    predicate Contains(v: int)
    {
      v >= start && v <= end
    }

    /** `contains` on any number, fractions included. */
    predicate ContainsReal(v: real)
    {
      v >= start as real && v <= end as real
    }

    /** The `length` field. */
    function Length(): (r: nat)
      ensures r as int == end - start || r as int == start - end
    {
      if end >= start then end - start else start - end
    }
  }

  /** `range(min, max)` with two arguments. */
  function MakeRange(lo: int, hi: int): (r: Range)
    ensures forall v :: r.Contains(v) <==> lo <= v <= hi
  {
    Range(lo, hi)
  }

  /** `range(n)` with one argument starts at 0. */
  function MakeRangeTo(n: int): (r: Range)
    ensures r == MakeRange(0, n)
    ensures forall v :: r.Contains(v) <==> 0 <= v <= n
  {
    Range(0, n)
  }

  /** Forward iteration (positive step): start, start+1, ..., end-1. */
  function Forward(r: Range): (s: seq<int>)
    ensures |s| == if r.end > r.start then r.end - r.start else 0
    ensures forall k :: 0 <= k < |s| ==> s[k] == r.start + k
    decreases r.end - r.start
  {
    if r.end <= r.start then [] else [r.start] + Forward(Range(r.start + 1, r.end))
  }

  /** Iteration with step -1 as its callers intend it: end-1, end-2, ..., start. */
  function Backward(r: Range): (s: seq<int>)
    ensures |s| == if r.end > r.start then r.end - r.start else 0
    ensures forall k :: 0 <= k < |s| ==> s[k] == r.end - 1 - k
    decreases r.end - r.start
  {
    if r.end <= r.start then [] else [r.end - 1] + Backward(Range(r.start, r.end - 1))
  }

  /** The backward iteration visits the forward iteration's values in reverse order. */
  lemma BackwardReversesForward(r: Range)
    ensures |Backward(r)| == |Forward(r)|
    ensures forall k :: 0 <= k < |Forward(r)| ==>
      Backward(r)[k] == Forward(r)[|Forward(r)| - 1 - k]
  {
  }

  /** The generator's loop with step -1 exactly as written: the counter `i` starts at
      end-1 and is incremented while the test is `i > start - 1`; this is the loop
      condition after k rounds. */
  predicate NegativeStepConditionAsWritten(r: Range, k: nat)
  {
    (r.end - 1) + k > r.start - 1
  }

  /** With step -1 and a non-empty range the written loop's condition never fails,
      so the generator never stops. */
  lemma NegativeStepNeverStops(r: Range)
    requires r.end > r.start
    ensures forall k: nat :: NegativeStepConditionAsWritten(r, k)
  {
  }
}
