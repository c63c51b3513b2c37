/**
 * The prefix sums of a traced path (`calcSums` in src/types/Path.ts) and the
 * index wrapping through which `penalty3` and `pointslope` read a cyclic run
 * of vertices out of them. The five running totals form the `Sum` record.
 */
module PathSums {
  import opened Utils
  import opened Bitmaps

  /** The running totals of x, y, xy, x^2 and y^2. */
  datatype Sum = Sum(x: int, y: int, xy: int, x2: int, y2: int)

  /** Names the five components, so that one statement covers all of them. */
  datatype Field = FX | FY | FXY | FX2 | FY2

  function Get(s: Sum, f: Field): int
  {
    match f
    case FX => s.x
    case FY => s.y
    case FXY => s.xy
    case FX2 => s.x2
    case FY2 => s.y2
  }

  /** The contribution of one vertex, taken relative to the origin o (vertex 0). */
  function Term(v: IPoint, o: IPoint, f: Field): int
  {
    var x, y := v.x - o.x, v.y - o.y;
    match f
    case FX => x
    case FY => y
    case FXY => x * y
    case FX2 => x * x
    case FY2 => y * y
  }

  /** One component's terms along the path. */
  function Terms(vs: seq<IPoint>, f: Field): (t: seq<int>)
    requires |vs| >= 1
    ensures |t| == |vs|
    ensures forall m :: 0 <= m < |vs| ==> t[m] == Term(vs[m], vs[0], f)
  {
    seq(|vs|, m requires 0 <= m < |vs| => Term(vs[m], vs[0], f))
  }

  /** t[0] + ... + t[k-1]. */
  function Pre(t: seq<int>, k: nat): int
    requires k <= |t|
  {
    if k == 0 then 0 else Pre(t, k - 1) + t[k - 1]
  }

  /** `sums` holds, at every k in 0..len, the totals of the first k vertices. */
  predicate SumsOf(sums: seq<Sum>, vs: seq<IPoint>)
  {
    && |vs| >= 1
    && |sums| == |vs| + 1
    && forall k, f :: 0 <= k <= |vs| ==> Get(sums[k], f) == Pre(Terms(vs, f), k)
  }

  /** `calcSums`: sums[0] is zero and each entry adds the next vertex's terms. */
  method CalcSums(vs: seq<IPoint>) returns (sums: seq<Sum>)
    requires |vs| >= 1
    ensures SumsOf(sums, vs)
    ensures sums[0] == Sum(0, 0, 0, 0, 0)
  {
    var o := vs[0];
    sums := [Sum(0, 0, 0, 0, 0)];
    var i := 0;
    while i < |vs|
      invariant 0 <= i <= |vs| && |sums| == i + 1
      invariant sums[0] == Sum(0, 0, 0, 0, 0)
      invariant forall k, f :: 0 <= k <= i ==> Get(sums[k], f) == Pre(Terms(vs, f), k)
    {
      var x := vs[i].x - o.x;
      var y := vs[i].y - o.y;
      var s := sums[i];
      sums := sums + [Sum(s.x + x, s.y + y, s.xy + x * y, s.x2 + x * x, s.y2 + y * y)];
      i := i + 1;
    }
  }

  /** t[a mod n] + t[(a+1) mod n] + ... + t[(b-1) mod n]: a cyclic run, possibly several laps. */
  function CycSum(t: seq<int>, a: int, b: int): int
    requires |t| > 0 && a <= b
    decreases b - a
  {
    if a == b then 0 else CycSum(t, a, b - 1) + t[Mod(b - 1, |t|)]
  }

  /** The prefix total up to x counted over whole laps: Pre(x mod n) + (x div n) * Pre(n). */
  function Lapped(t: seq<int>, x: int): int
    requires |t| > 0
  {
    Pre(t, x % |t|) + (x / |t|) * Pre(t, |t|)
  }

  /** Lapped at x = r + q*n with 0 <= r <= n, the end of a lap included. */
  lemma LappedAt(t: seq<int>, x: int, q: int, r: int)
    requires |t| > 0 && 0 <= r <= |t| && x == r + q * |t|
    ensures Lapped(t, x) == Pre(t, r) + q * Pre(t, |t|)
  {
    var n := |t|;
    if r < n {
      EuclideanUnique(x, n, q, r);
    } else {
      assert x == 0 + (q + 1) * n;
      EuclideanUnique(x, n, q + 1, 0);
      assert (q + 1) * Pre(t, n) == q * Pre(t, n) + Pre(t, n);
    }
  }

  lemma LappedStep(t: seq<int>, x: int)
    requires |t| > 0
    ensures Lapped(t, x + 1) == Lapped(t, x) + t[Mod(x, |t|)]
  {
    var n := |t|;
    var q, r := x / n, x % n;
    assert x == r + q * n;
    LappedAt(t, x + 1, q, r + 1);
  }

  /** A cyclic run is a difference of lapped prefix totals. */
  lemma {:induction false} CycSumIsLappedDifference(t: seq<int>, a: int, b: int)
    requires |t| > 0 && a <= b
    ensures CycSum(t, a, b) == Lapped(t, b) - Lapped(t, a)
    decreases b - a
  {
    if a < b {
      CycSumIsLappedDifference(t, a, b - 1);
      LappedStep(t, b - 1);
    }
  }

  /** The totals of a cyclic run and its number of points. */
  datatype Window = Window(s: Sum, count: int)

  /**
   * The reads of `penalty3(i, j)`: for j >= len the run wraps, so the totals
   * are sums[j-len+1] - sums[i] + sums[len] and the count (j-len)+1-i+len.
   * Either way each total is the sum over the cyclic vertices i..j and the
   * count is j + 1 - i.
   */
  function Penalty3Window(sums: seq<Sum>, vs: seq<IPoint>, i: int, j: int): (w: Window)
    requires SumsOf(sums, vs)
    requires 0 <= i < |vs| && i <= j < 2 * |vs|
    ensures w.count == j + 1 - i
    ensures forall f :: Get(w.s, f) == CycSum(Terms(vs, f), i, j + 1)
  {
    var len := |vs|;
    var r := j >= len;
    var nj := if r then j - len else j;
    var a, b, c := sums[nj + 1], sums[i], sums[len];
    var s := if r then Sum(a.x - b.x + c.x, a.y - b.y + c.y, a.xy - b.xy + c.xy, a.x2 - b.x2 + c.x2, a.y2 - b.y2 + c.y2)
             else Sum(a.x - b.x, a.y - b.y, a.xy - b.xy, a.x2 - b.x2, a.y2 - b.y2);
    var w := Window(s, if r then nj + 1 - i + len else nj + 1 - i);
    forall f
      ensures Get(w.s, f) == CycSum(Terms(vs, f), i, j + 1)
    {
      var t := Terms(vs, f);
      CycSumIsLappedDifference(t, i, j + 1);
      LappedAt(t, i, 0, i);
      LappedAt(t, j + 1, if r then 1 else 0, nj + 1);
    }
    w
  }

  /**
   * The index normalisation of `pointslope(i, j)`: its four loops bring i
   * and j into [0, len) and count in r the laps between them; the totals
   * then read sums[j'+1] - sums[i'] + r*sums[len]. Whatever the signs of i
   * and j, each total is the sum over the cyclic vertices i..j and the
   * count is j + 1 - i.
   */
  method PointSlopeWindow(sums: seq<Sum>, vs: seq<IPoint>, i: int, j: int) returns (w: Window)
    requires SumsOf(sums, vs) && i <= j
    ensures w.count == j + 1 - i
    ensures forall f :: Get(w.s, f) == CycSum(Terms(vs, f), i, j + 1)
  {
    var len := |vs|;
    var ni, nj, r := i, j, 0;
    ghost var ri, rj := 0, 0;
    while nj >= len
      invariant j == nj + rj * len && r == rj - ri
      decreases nj
    {
      nj, r := nj - len, r + 1;
      rj := rj + 1;
    }
    while ni >= len
      invariant i == ni + ri * len && r == rj - ri
      invariant nj < len && j == nj + rj * len
      decreases ni
    {
      ni, r := ni - len, r - 1;
      ri := ri + 1;
    }
    while nj < 0
      invariant j == nj + rj * len && r == rj - ri && nj < len
      invariant ni < len && i == ni + ri * len
      decreases -nj
    {
      nj, r := nj + len, r - 1;
      rj := rj - 1;
    }
    while ni < 0
      invariant i == ni + ri * len && r == rj - ri && ni < len
      invariant 0 <= nj < len && j == nj + rj * len
      decreases -ni
    {
      ni, r := ni + len, r + 1;
      ri := ri - 1;
    }
    w := LappedWindow(sums, vs, ni, nj, r);
    NormalisedWindow(sums, vs, i, j, ni, nj, ri, rj);
  }

  /** The totals `pointslope` reads once i and j are normalised to i' and j' with r laps. */
  function LappedWindow(sums: seq<Sum>, vs: seq<IPoint>, ni: int, nj: int, r: int): (w: Window)
    requires SumsOf(sums, vs) && 0 <= ni < |vs| && 0 <= nj < |vs|
    ensures forall f :: Get(w.s, f) == Get(sums[nj + 1], f) - Get(sums[ni], f) + r * Get(sums[|vs|], f)
  {
    var a, b, c := sums[nj + 1], sums[ni], sums[|vs|];
    Window(Sum(a.x - b.x + r * c.x, a.y - b.y + r * c.y, a.xy - b.xy + r * c.xy,
               a.x2 - b.x2 + r * c.x2, a.y2 - b.y2 + r * c.y2),
           nj + 1 - ni + r * |vs|)
  }

  lemma NormalisedWindow(sums: seq<Sum>, vs: seq<IPoint>, i: int, j: int, ni: int, nj: int, ri: int, rj: int)
    requires SumsOf(sums, vs) && i <= j
    requires 0 <= ni < |vs| && 0 <= nj < |vs| && i == ni + ri * |vs| && j == nj + rj * |vs|
    ensures var w := LappedWindow(sums, vs, ni, nj, rj - ri);
      w.count == j + 1 - i && forall f :: Get(w.s, f) == CycSum(Terms(vs, f), i, j + 1)
  {
    var len := |vs|;
    var r := rj - ri;
    var w := LappedWindow(sums, vs, ni, nj, r);
    assert r * len == rj * len - ri * len;
    forall f
      ensures Get(w.s, f) == CycSum(Terms(vs, f), i, j + 1)
    {
      var t := Terms(vs, f);
      CycSumIsLappedDifference(t, i, j + 1);
      LappedAt(t, i, ri, ni);
      LappedAt(t, j + 1, rj, nj + 1);
      assert r * Pre(t, len) == rj * Pre(t, len) - ri * Pre(t, len);
    }
  }
}
