/**
 * The 256-bucket luminance histogram (src/types/Histogram.ts): counting,
 * range normalisation, dominant colour and statistics. The thresholding
 * lookup table and the cut-point search live in module Thresholding.
 */
module Histogram {
  import opened Wrappers
  import opened Utils

  const ColorDepth: int := 256
  const ColorRangeEnd: int := 255

  /** A pixel value as the Bitmap stores it. */
  type Level = v: int | 0 <= v < 256

  /** A histogram: one count per level, and the size of the image it was built for. */
  datatype Hist = Hist(data: seq<nat>, pixels: nat)
  {
    predicate Valid() { |data| == ColorDepth }
  }

  // ----- counting -----

  /** How many pixels of `lum` have value v. */
  function Count(lum: seq<Level>, v: int): nat
  {
    if lum == [] then 0
    else Count(lum[..|lum| - 1], v) + (if lum[|lum| - 1] == v then 1 else 0)
  }

  function Sum(s: seq<int>): int
  {
    if s == [] then 0 else Sum(s[..|s| - 1]) + s[|s| - 1]
  }

  lemma {:induction false} SumIncrement(s: seq<int>, v: int)
    requires 0 <= v < |s|
    ensures Sum(s[v := s[v] + 1]) == Sum(s) + 1
    decreases |s|
  {
    var t := s[v := s[v] + 1];
    if v == |s| - 1 {
      assert t[..|t| - 1] == s[..|s| - 1];
    } else {
      assert t[..|t| - 1] == s[..|s| - 1][v := s[v] + 1];
      SumIncrement(s[..|s| - 1], v);
    }
  }

  /**
   * `#collectValuesBitmap`: a zeroed array of 256 counts, then data[lum[i]]++
   * for every pixel in order. The counts are exact: see CollectValuesAsWritten
   * for the typed-array width the source picks.
   */
  function CollectValues(lum: seq<Level>): (data: seq<nat>)
    ensures |data| == ColorDepth
    ensures forall v :: 0 <= v < ColorDepth ==> data[v] == Count(lum, v)
  {
    if lum == [] then seq(ColorDepth, _ => 0)
    else
      var prev := CollectValues(lum[..|lum| - 1]);
      var v := lum[|lum| - 1];
      prev[v := prev[v] + 1]
  }

  /** Built from a bitmap of `size` pixels, the counts add up to the pixel count. */
  lemma {:induction false} CollectValuesTotal(lum: seq<Level>)
    ensures Sum(CollectValues(lum)) == |lum|
  {
    if lum == [] {
      ZeroSum(ColorDepth);
    } else {
      var prev := CollectValues(lum[..|lum| - 1]);
      CollectValuesTotal(lum[..|lum| - 1]);
      SumIncrement(prev, lum[|lum| - 1]);
    }
  }

  lemma {:induction false} ZeroSum(n: nat)
    ensures Sum(seq(n, _ => 0)) == 0
  {
    if n > 0 {
      assert seq(n, _ => 0)[..n - 1] == seq(n - 1, _ => 0);
      ZeroSum(n - 1);
    }
  }

  /** The histogram of a bitmap of the given luminance values. */
  function FromBitmap(lum: seq<Level>): (h: Hist)
    ensures h.Valid() && h.pixels == |lum|
  {
    Hist(CollectValues(lum), |lum|)
  }

  /**
   * The capacity of the typed array `#createArray` allocates
   * (src/types/Histogram.ts:82-87): Uint8Array for images of at most 2^8
   * pixels, Uint16Array up to 2^16, Uint32Array beyond.
   */
  function ArrayCapacity(imageSize: int): nat
  {
    if imageSize <= 256 then 256
    else if imageSize <= 65536 then 65536
    else 0x1_0000_0000
  }

  /** The counts as written: each increment wraps at the typed array's capacity. */
  function CollectValuesAsWritten(lum: seq<Level>, cap: nat): (data: seq<nat>)
    requires cap > 0
    ensures |data| == ColorDepth
    ensures forall v :: 0 <= v < ColorDepth ==> data[v] == Count(lum, v) % cap
  {
    if lum == [] then seq(ColorDepth, _ => 0)
    else
      var prev := CollectValuesAsWritten(lum[..|lum| - 1], cap);
      var v := lum[|lum| - 1];
      assert prev[v] == Count(lum[..|lum| - 1], v) % cap;
      assert Count(lum, v) == Count(lum[..|lum| - 1], v) + 1;
      ModSuccessor(Count(lum[..|lum| - 1], v), cap);
      prev[v := (prev[v] + 1) % cap]
  }

  lemma ModSuccessor(a: nat, cap: nat)
    requires cap > 0
    ensures (a % cap + 1) % cap == (a + 1) % cap
  {
    var q := a / cap;
    var r := a % cap;
    assert a == q * cap + r;
    if r + 1 < cap {
      EuclideanUnique(a + 1, cap, q, r + 1);
      EuclideanUnique(r + 1, cap, 0, r + 1);
    } else {
      assert a + 1 == (q + 1) * cap;
      EuclideanUnique(a + 1, cap, q + 1, 0);
      EuclideanUnique(r + 1, cap, 1, 0);
    }
  }

  lemma {:induction false} CountConstant(n: nat, v: Level)
    ensures Count(seq(n, _ => v), v) == n
  {
    if n > 0 {
      assert seq(n, _ => v)[..n - 1] == seq(n - 1, _ => v);
      CountConstant(n - 1, v);
    }
  }

  /**
   * An image of 256 pixels gets a Uint8Array, whose count for a level shared
   * by all 256 pixels wraps to 0 instead of 256.
   */
  lemma CountWrapsInUint8Array()
    ensures var lum := seq(256, _ => 0);
      CollectValuesAsWritten(lum, ArrayCapacity(|lum|))[0] == 0
      && CollectValues(lum)[0] == 256
  {
    var lum: seq<Level> := seq(256, _ => 0);
    CountConstant(256, 0);
  }

  /** While every count stays below the capacity, the wrapping counts are exact. */
  lemma AsWrittenExactBelowCapacity(lum: seq<Level>)
    requires |lum| < 256 || 256 < |lum| < 65536 || 65536 < |lum| < 0x1_0000_0000
    ensures CollectValuesAsWritten(lum, ArrayCapacity(|lum|)) == CollectValues(lum)
  {
    var cap := ArrayCapacity(|lum|);
    var a := CollectValuesAsWritten(lum, cap);
    var b := CollectValues(lum);
    forall v | 0 <= v < ColorDepth
      ensures a[v] == b[v]
    {
      CountAtMostLength(lum, v);
      EuclideanUnique(Count(lum, v), cap, 0, Count(lum, v));
    }
    assert |a| == |b|;
  }

  lemma {:induction false} CountAtMostLength(lum: seq<Level>, v: int)
    ensures Count(lum, v) <= |lum|
  {
    if lum != [] {
      CountAtMostLength(lum[..|lum| - 1], v);
    }
  }

  // ----- range normalisation -----

  /** JavaScript's Math.round: the nearest integer, halves rounded up. */
  function Round(x: real): int
  {
    (x + 0.5).Floor
  }

  /**
   * `normalizeMinMax`: absent bounds default to 0 and 255, both are rounded
   * and clamped into [0, 255], and the range is refused when min > max.
   */
  function NormalizeMinMax(levelMin: Option<real>, levelMax: Option<real>): (r: Result<(int, int), string>)
    ensures r.Success? ==> 0 <= r.value.0 <= r.value.1 <= ColorRangeEnd
    ensures r.Success? <==>
      ClampInt(Round(levelMin.GetOr(0.0)), 0, ColorRangeEnd) <= ClampInt(Round(levelMax.GetOr(255.0)), 0, ColorRangeEnd)
    ensures r.Success? ==> (r.value.0 == ClampInt(Round(levelMin.GetOr(0.0)), 0, ColorRangeEnd)
      && r.value.1 == ClampInt(Round(levelMax.GetOr(255.0)), 0, ColorRangeEnd))
  {
    var lo := levelMin.GetOr(0.0);
    var hi := levelMax.GetOr(ColorRangeEnd as real);
    var min := ClampInt(Round(lo), 0, ColorRangeEnd);
    var max := ClampInt(Round(hi), 0, ColorRangeEnd);
    if min > max then Failure("Invalid range") else Success((min, max))
  }

  /** Integral bounds already in [0, 255] pass through unchanged. */
  lemma NormalizeKeepsLevels(lo: int, hi: int)
    requires 0 <= lo <= hi <= ColorRangeEnd
    ensures NormalizeMinMax(Some(lo as real), Some(hi as real)) == Success((lo, hi))
  {
    assert Round(lo as real) == lo;
    assert Round(hi as real) == hi;
  }

  // ----- dominant colour -----

  /** Math.trunc(n / -2) for an integer n. */
  function TruncHalfNegated(n: int): int
  {
    if n >= 0 then -(n / 2) else (-n) / 2
  }

  /** The windowed count around level i: offsets lo..tol-1, levels outside [0, 255] count 0. */
  function WindowSum(colors: seq<nat>, i: int, lo: int, tol: int): nat
    requires |colors| == ColorDepth
    decreases tol - lo
  {
    if lo >= tol then 0
    else (if 0 <= i + lo <= ColorRangeEnd then colors[i + lo] else 0) + WindowSum(colors, i, lo + 1, tol)
  }

  function Window(colors: seq<nat>, i: int, tolerance: int): nat
    requires |colors| == ColorDepth
  {
    WindowSum(colors, i, TruncHalfNegated(tolerance), tolerance)
  }

  /**
   * Level i beats the current best d under the loop's rule: a larger window
   * sum, or an equal one with a larger count of the level itself.
   */
  predicate Beats(colors: seq<nat>, tolerance: int, i: int, d: int)
    requires |colors| == ColorDepth && 0 <= i < ColorDepth && 0 <= d < ColorDepth
  {
    Window(colors, i, tolerance) > Window(colors, d, tolerance)
    || (Window(colors, i, tolerance) == Window(colors, d, tolerance) && colors[i] > colors[d])
  }

  lemma BeatsStep(colors: seq<nat>, tolerance: int, i: int, d: int, k: int)
    requires |colors| == ColorDepth && 0 <= i < ColorDepth && 0 <= d < ColorDepth && 0 <= k < ColorDepth
    requires Beats(colors, tolerance, i, d) && !Beats(colors, tolerance, k, d)
    ensures Beats(colors, tolerance, i, k) && !Beats(colors, tolerance, k, i)
  {
  }

  /**
   * `getDominantColor` on a normalised range [min, max]: the level whose
   * window sum is largest, ties broken by the larger own count, then by the
   * lower level; -1 when every window in the range is empty.
   */
  method DominantColorIn(colors: seq<nat>, min: int, max: int, tolerance: int) returns (r: int)
    requires |colors| == ColorDepth && 0 <= min <= max <= ColorRangeEnd
    ensures min == max ==> r == (if colors[min] != 0 then min else -1)
    ensures min < max ==> (r == -1 <==> forall i :: min <= i <= max ==> Window(colors, i, tolerance) == 0)
    ensures r != -1 ==> min <= r <= max
    ensures min < max && r != -1 ==> forall i :: min <= i <= max ==> !Beats(colors, tolerance, i, r)
    ensures min < max && r != -1 ==> forall i :: min <= i < r ==> Beats(colors, tolerance, r, i)
  {
    if min == max {
      return if colors[min] != 0 then min else -1;
    }
    var dominantIndex := min;
    var dominantValue := Window(colors, min, tolerance);
    var i := min + 1;
    while i <= max
      invariant min < i <= max + 1
      invariant min <= dominantIndex < i
      invariant dominantValue == Window(colors, dominantIndex, tolerance)
      invariant forall k :: min <= k < i ==> Window(colors, k, tolerance) <= dominantValue
      invariant forall k :: min <= k < i ==> !Beats(colors, tolerance, k, dominantIndex)
      invariant forall k :: min <= k < dominantIndex ==> Beats(colors, tolerance, dominantIndex, k)
    {
      var tmp := Window(colors, i, tolerance);
      if tmp > dominantValue || (tmp == dominantValue && colors[i] > colors[dominantIndex]) {
        forall k | min <= k < i
          ensures Beats(colors, tolerance, i, k) && !Beats(colors, tolerance, k, i)
        {
          BeatsStep(colors, tolerance, i, dominantIndex, k);
        }
        dominantIndex := i;
        dominantValue := tmp;
      }
      i := i + 1;
    }
    r := if dominantValue <= 0 then -1 else dominantIndex;
  }

  /**
   * The whole query: normalise the range, then pick the dominant level.
   * The first iteration always takes level min, since every window sum is at
   * least 0 and the best starts at -1.
   */
  method GetDominantColor(h: Hist, levelMin: real, levelMax: real, tolerance: int) returns (r: Result<int, string>)
    requires h.Valid()
    ensures r.Failure? <==> NormalizeMinMax(Some(levelMin), Some(levelMax)).Failure?
    ensures r.Success? ==> r.value == -1 || 0 <= r.value <= ColorRangeEnd
  {
    var range := NormalizeMinMax(Some(levelMin), Some(levelMax));
    if range.Failure? {
      return Failure(range.error);
    }
    var d := DominantColorIn(h.data, range.value.0, range.value.1, tolerance);
    return Success(d);
  }

  /**
   * With tolerance 1 every window is the level alone, so the result is the
   * lowest level of the range with the largest count.
   */
  lemma ToleranceOneWindowIsCount(colors: seq<nat>, i: int)
    requires |colors| == ColorDepth && 0 <= i < ColorDepth
    ensures Window(colors, i, 1) == colors[i]
  {
    assert TruncHalfNegated(1) == 0;
    assert WindowSum(colors, i, 1, 1) == 0;
  }

  method DominantColorToleranceOne(colors: seq<nat>, min: int, max: int) returns (r: int)
    requires |colors| == ColorDepth && 0 <= min < max <= ColorRangeEnd
    ensures r == -1 <==> forall i :: min <= i <= max ==> colors[i] == 0
    ensures r != -1 ==> (min <= r <= max
      && (forall i :: min <= i <= max ==> colors[i] <= colors[r])
      && (forall i :: min <= i < r ==> colors[i] < colors[r]))
  {
    r := DominantColorIn(colors, min, max, 1);
    forall i | 0 <= i < ColorDepth
      ensures Window(colors, i, 1) == colors[i]
    {
      ToleranceOneWindowIsCount(colors, i);
    }
    if r != -1 {
      forall i | min <= i <= max
        ensures colors[i] <= colors[r]
      {
        assert !Beats(colors, 1, i, r);
      }
      forall i | min <= i < r
        ensures colors[i] < colors[r]
      {
        assert Beats(colors, 1, r, i);
      }
    }
  }

  // ----- statistics -----

  /** Sum of c[l] for lo <= l < hi. */
  function RangeSum(c: seq<nat>, lo: int, hi: int): nat
    requires 0 <= lo && hi <= |c|
    decreases hi - lo
  {
    if hi <= lo then 0 else RangeSum(c, lo, hi - 1) + c[hi - 1]
  }

  /** Sum of l * c[l] for lo <= l < hi. */
  function RangeWeighted(c: seq<nat>, lo: int, hi: int): nat
    requires 0 <= lo && hi <= |c|
    decreases hi - lo
  {
    if hi <= lo then 0 else RangeWeighted(c, lo, hi - 1) + Weight(hi - 1, c[hi - 1])
  }

  /** What one level adds to the combined value: the level times its count. */
  function Weight(level: nat, count: nat): (w: nat)
    ensures level > 0 && count > 0 ==> w >= count
  {
    level * count
  }

  /** The levels in [lo, hi) present in the image. */
  function NonZeroLevels(c: seq<nat>, lo: int, hi: int): (r: set<int>)
    requires 0 <= lo && hi <= |c|
    ensures forall l :: l in r <==> lo <= l < hi && c[l] != 0
    decreases hi - lo
  {
    if hi <= lo then {}
    else NonZeroLevels(c, lo, hi - 1) + (if c[hi - 1] != 0 then {hi - 1} else {})
  }

  /** The largest count in [lo, hi), or 0 for an empty range. */
  function RangePeak(c: seq<nat>, lo: int, hi: int): (r: nat)
    requires 0 <= lo && hi <= |c|
    ensures forall l :: lo <= l < hi ==> c[l] <= r
    ensures r == 0 || exists l :: lo <= l < hi && c[l] == r
    decreases hi - lo
  {
    if hi <= lo then 0
    else
      var p := RangePeak(c, lo, hi - 1);
      if p < c[hi - 1] then c[hi - 1] else p
  }

  /**
   * The first loop of `getStats`: for every level of [min, max] it adds the
   * count to the pixel total, the count times the level to the combined
   * value, 1 to `unique` when the count is non-zero, and raises the peak.
   */
  method RangeTotals(c: seq<nat>, min: int, max: int) returns (pixels: nat, combined: nat, unique: nat, peak: nat)
    requires |c| == ColorDepth && 0 <= min <= max <= ColorRangeEnd
    ensures pixels == RangeSum(c, min, max + 1)
    ensures combined == RangeWeighted(c, min, max + 1)
    ensures unique == |NonZeroLevels(c, min, max + 1)|
    ensures forall l :: min <= l <= max ==> c[l] <= peak
    ensures peak == 0 || exists l :: min <= l <= max && c[l] == peak
  {
    pixels, combined, unique, peak := 0, 0, 0, 0;
    var i := min;
    while i <= max
      invariant min <= i <= max + 1
      invariant TotalsUpTo(c, min, i, pixels, combined, unique, peak)
    {
      TotalsStep(c, min, i, pixels, combined, unique, peak);
      pixels, combined := pixels + c[i], combined + Weight(i, c[i]);
      unique := unique + (if c[i] != 0 then 1 else 0);
      peak := if peak < c[i] then c[i] else peak;
      i := i + 1;
    }
  }

  /** The four totals of the first loop of `getStats` after the levels min..i-1. */
  predicate TotalsUpTo(c: seq<nat>, min: int, i: int, pixels: int, combined: int, unique: int, peak: int)
    requires 0 <= min <= i <= |c|
  {
    && pixels == RangeSum(c, min, i)
    && combined == RangeWeighted(c, min, i)
    && unique == |NonZeroLevels(c, min, i)|
    && peak == RangePeak(c, min, i)
  }

  /** One level more: each total takes that level's contribution. */
  lemma TotalsStep(c: seq<nat>, min: int, i: int, pixels: int, combined: int, unique: int, peak: int)
    requires 0 <= min <= i < |c| && TotalsUpTo(c, min, i, pixels, combined, unique, peak)
    ensures TotalsUpTo(c, min, i + 1, pixels + c[i], RangeWeighted(c, min, i + 1),
                       unique + (if c[i] != 0 then 1 else 0), if peak < c[i] then c[i] else peak)
  {
    assert i !in NonZeroLevels(c, min, i);
  }

  /** The mean level lies in [lo, hi - 1]: lo * pixels <= combined <= (hi - 1) * pixels. */
  lemma {:induction false} WeightedBounds(c: seq<nat>, lo: int, hi: int)
    requires 0 <= lo < hi <= |c|
    ensures lo * RangeSum(c, lo, hi) <= RangeWeighted(c, lo, hi) <= (hi - 1) * RangeSum(c, lo, hi)
    decreases hi - lo
  {
    var k := hi - 1;
    var s := RangeSum(c, lo, k);
    var w := RangeWeighted(c, lo, k);
    if k > lo {
      WeightedBounds(c, lo, k);
    }
    WeightedStep(lo, k, s, w, c[k]);
  }

  lemma WeightedStep(lo: int, k: int, s: int, w: int, ck: int)
    requires 0 <= lo <= k && s >= 0 && ck >= 0
    requires lo * s <= w <= (k - 1) * s || (s == 0 && w == 0)
    ensures lo * (s + ck) <= w + k * ck <= k * (s + ck)
  {
    NonNegProduct(k - lo, ck);
    NonNegProduct(1, s);
    assert lo * (s + ck) == lo * s + lo * ck;
    assert k * (s + ck) == (k - 1) * s + s + k * ck;
  }

  /** Levels ordered by count, ties by level: the order a stable sort by count gives 0..255. */
  predicate KeyLess(c: seq<nat>, a: int, b: int)
    requires 0 <= a < |c| && 0 <= b < |c|
  {
    c[a] < c[b] || (c[a] == c[b] && a < b)
  }

  predicate IsLevelSeq(c: seq<nat>, s: seq<int>)
  {
    forall i :: 0 <= i < |s| ==> 0 <= s[i] < |c|
  }

  predicate SortedByCount(c: seq<nat>, s: seq<int>)
    requires IsLevelSeq(c, s)
  {
    forall i, j :: 0 <= i < j < |s| ==> KeyLess(c, s[i], s[j])
  }

  /**
   * Inserts level x into a count-sorted sequence that does not hold it yet.
   * The result holds exactly the old levels and x, each once (strict
   * sorting rules out repeats).
   */
  function Insert(c: seq<nat>, s: seq<int>, x: int): (r: seq<int>)
    requires IsLevelSeq(c, s) && 0 <= x < |c| && SortedByCount(c, s) && x !in s
    ensures IsLevelSeq(c, r) && SortedByCount(c, r)
    ensures |r| == |s| + 1
    ensures forall v :: v in r <==> v in s || v == x
  {
    if s == [] then [x]
    else if KeyLess(c, x, s[0]) then
      PrependSorted(c, x, s);
      [x] + s
    else
      var tail := Insert(c, s[1..], x);
      assert s == [s[0]] + s[1..];
      forall j | 0 <= j < |tail|
        ensures KeyLess(c, s[0], tail[j])
      {
        assert tail[j] in tail;
      }
      PrependSorted(c, s[0], tail);
      [s[0]] + tail
  }

  /** A level ordered before every element of a sorted sequence can go in front of it. */
  lemma PrependSorted(c: seq<nat>, h: int, t: seq<int>)
    requires IsLevelSeq(c, t) && 0 <= h < |c| && SortedByCount(c, t)
    requires t != [] ==> KeyLess(c, h, t[0])
    requires forall j :: 0 < j < |t| ==> KeyLess(c, h, t[j]) || KeyLess(c, t[0], t[j])
    ensures IsLevelSeq(c, [h] + t) && SortedByCount(c, [h] + t)
  {
    var r := [h] + t;
    assert forall j :: 0 < j < |r| ==> r[j] == t[j - 1];
  }

  /** `#getSortedIndexes`: the levels 0..n-1 sorted ascending by count, ties by level, each once. */
  function SortByCount(c: seq<nat>, n: nat): (r: seq<int>)
    requires n <= |c|
    ensures IsLevelSeq(c, r) && SortedByCount(c, r)
    ensures |r| == n
    ensures forall v :: v in r <==> 0 <= v < n
  {
    if n == 0 then []
    else Insert(c, SortByCount(c, n - 1), n - 1)
  }

  /** Every level appears exactly once in the sorted indexes. */
  lemma SortedIndexesArePermutation(c: seq<nat>)
    requires |c| == ColorDepth
    ensures |SortByCount(c, ColorDepth)| == ColorDepth
    ensures forall l :: 0 <= l < ColorDepth ==> l in SortByCount(c, ColorDepth)
    ensures forall i, j :: 0 <= i < j < ColorDepth ==> SortByCount(c, ColorDepth)[i] != SortByCount(c, ColorDepth)[j]
  {
    var r := SortByCount(c, ColorDepth);
    forall i, j | 0 <= i < j < ColorDepth
      ensures r[i] != r[j]
    {
      assert KeyLess(c, r[i], r[j]);
    }
  }

  /** The pixels a level contributes to a query over [min, max]. */
  function InRange(c: seq<nat>, min: int, max: int, v: int): nat
    requires 0 <= v < |c|
  {
    if min <= v <= max then c[v] else 0
  }

  /** In-range pixels over a sequence of levels. */
  function SumInRange(c: seq<nat>, min: int, max: int, s: seq<int>): nat
    requires IsLevelSeq(c, s)
  {
    if s == [] then 0 else InRange(c, min, max, s[0]) + SumInRange(c, min, max, s[1..])
  }

  lemma {:induction false} SumInRangeConcat(c: seq<nat>, min: int, max: int, a: seq<int>, b: seq<int>)
    requires IsLevelSeq(c, a) && IsLevelSeq(c, b)
    ensures IsLevelSeq(c, a + b)
    ensures SumInRange(c, min, max, a + b) == SumInRange(c, min, max, a) + SumInRange(c, min, max, b)
  {
    if a != [] {
      assert (a + b)[1..] == a[1..] + b;
      SumInRangeConcat(c, min, max, a[1..], b);
    } else {
      assert a + b == b;
    }
  }

  lemma {:induction false} SumInRangeInsert(c: seq<nat>, min: int, max: int, s: seq<int>, x: int)
    requires IsLevelSeq(c, s) && 0 <= x < |c| && SortedByCount(c, s) && x !in s
    ensures SumInRange(c, min, max, Insert(c, s, x)) == SumInRange(c, min, max, s) + InRange(c, min, max, x)
  {
    if s != [] && !KeyLess(c, x, s[0]) {
      SumInRangeInsert(c, min, max, s[1..], x);
      assert Insert(c, s, x)[1..] == Insert(c, s[1..], x);
    } else if s != [] {
      assert ([x] + s)[1..] == s;
    }
  }

  /** In-range pixels over the levels 0..n-1, in level order. */
  function PrefixInRange(c: seq<nat>, min: int, max: int, n: nat): nat
    requires n <= |c|
  {
    if n == 0 then 0 else PrefixInRange(c, min, max, n - 1) + InRange(c, min, max, n - 1)
  }

  lemma {:induction false} SortKeepsInRangeTotal(c: seq<nat>, min: int, max: int, n: nat)
    requires n <= |c|
    ensures SumInRange(c, min, max, SortByCount(c, n)) == PrefixInRange(c, min, max, n)
  {
    if n > 0 {
      var prev := SortByCount(c, n - 1);
      assert SortByCount(c, n) == Insert(c, prev, n - 1);
      SortKeepsInRangeTotal(c, min, max, n - 1);
      SumInRangeInsert(c, min, max, prev, n - 1);
    }
  }

  lemma {:induction false} PrefixInRangeIsRangeSum(c: seq<nat>, min: int, max: int, n: nat)
    requires 0 <= min <= max < |c| && max < n <= |c|
    ensures PrefixInRange(c, min, max, n) == RangeSum(c, min, max + 1)
  {
    if n > max + 1 {
      PrefixInRangeIsRangeSum(c, min, max, n - 1);
    } else {
      PrefixBelowRange(c, min, max, n);
    }
  }

  lemma {:induction false} PrefixBelowRange(c: seq<nat>, min: int, max: int, n: nat)
    requires 0 <= min && n <= max + 1 && n <= |c|
    ensures PrefixInRange(c, min, max, n) == if n <= min then 0 else RangeSum(c, min, n)
  {
    if n > 0 {
      PrefixBelowRange(c, min, max, n - 1);
    }
  }

  /** Sorting keeps the in-range total: it is the pixel count of [min, max]. */
  lemma SortKeepsRangeTotal(c: seq<nat>, min: int, max: int)
    requires |c| == ColorDepth && 0 <= min <= max <= ColorRangeEnd
    ensures SumInRange(c, min, max, SortByCount(c, ColorDepth)) == RangeSum(c, min, max + 1)
  {
    SortKeepsInRangeTotal(c, min, max, ColorDepth);
    PrefixInRangeIsRangeSum(c, min, max, ColorDepth);
  }

  /**
   * The median loop of `getStats` (src/types/Histogram.ts:357-366): walk the
   * count-sorted levels, skip those outside [min, max], accumulate their
   * counts and take the first level at which the running total reaches `half`.
   */
  function MedianWalk(c: seq<nat>, min: int, max: int, half: int, s: seq<int>, iterated: int): (r: Option<int>)
    requires IsLevelSeq(c, s)
    ensures r.Some? ==> r.value in s && min <= r.value <= max
    ensures iterated + SumInRange(c, min, max, s) >= half && (exists v :: v in s && min <= v <= max) ==> r.Some?
  {
    if s == [] then None
    else if s[0] < min || s[0] > max then
      var r := MedianWalk(c, min, max, half, s[1..], iterated);
      assert forall v :: v in s[1..] ==> v in s;
      assert forall v :: v in s && min <= v <= max ==> v in s[1..];
      r
    else if iterated + c[s[0]] >= half then Some(s[0])
    else
      var r := MedianWalk(c, min, max, half, s[1..], iterated + c[s[0]]);
      assert forall v :: v in s[1..] ==> v in s;
      PositiveSumHasInRange(c, min, max, s[1..]);
      r
  }

  lemma {:induction false} PositiveSumHasInRange(c: seq<nat>, min: int, max: int, s: seq<int>)
    requires IsLevelSeq(c, s)
    ensures SumInRange(c, min, max, s) > 0 ==> exists v :: v in s && min <= v <= max
  {
    if s == [] {
    } else if min <= s[0] <= max {
      assert s[0] in s;
    } else {
      PositiveSumHasInRange(c, min, max, s[1..]);
      if SumInRange(c, min, max, s[1..]) > 0 {
        var v :| v in s[1..] && min <= v <= max;
        assert v in s;
      }
    }
  }

  /** What `getStats` reports; NaN and infinite values are None. */
  datatype Stats = Stats(
    levelsMean: Option<real>,
    levelsMedian: int,
    levelsUnique: nat,
    pixelsPerLevelMean: Option<real>,
    pixelsPerLevelMedian: Option<real>,
    pixelsPerLevelPeak: nat,
    pixels: nat)

  /** x / y in JavaScript, with the NaN and infinite quotients of y == 0 as None. */
  function Quotient(x: int, y: int): Option<real>
  {
    if y == 0 then None else Some(x as real / y as real)
  }

  /** The statistics of [min, max] computed from scratch. */
  function ComputeStats(h: Hist, min: int, max: int): (st: Stats)
    requires h.Valid() && 0 <= min <= max <= ColorRangeEnd
    ensures st.pixels == RangeSum(h.data, min, max + 1)
    ensures st.levelsUnique == |NonZeroLevels(h.data, min, max + 1)|
    ensures min <= st.levelsMedian <= max
    ensures st.levelsMean.Some? <==> st.pixels > 0
    ensures st.levelsMean.Some? ==> min as real <= st.levelsMean.value <= max as real
  {
    var c := h.data;
    var pixels := RangeSum(c, min, max + 1);
    var combined := RangeWeighted(c, min, max + 1);
    var sorted := SortByCount(c, ColorDepth);
    SortKeepsRangeTotal(c, min, max);
    SortedIndexesArePermutation(c);
    assert min in sorted;
    var median := MedianWalk(c, min, max, pixels / 2, sorted, 0);
    MeanInRange(c, min, max);
    Stats(
      Quotient(combined, pixels),
      median.value,
      |NonZeroLevels(c, min, max + 1)|,
      Quotient(pixels, max - min),
      Quotient(pixels, |NonZeroLevels(c, min, max + 1)|),
      RangePeak(c, min, max + 1),
      pixels)
  }

  lemma MeanInRange(c: seq<nat>, min: int, max: int)
    requires |c| == ColorDepth && 0 <= min <= max <= ColorRangeEnd
    ensures RangeSum(c, min, max + 1) > 0 ==>
      min as real <= RangeWeighted(c, min, max + 1) as real / RangeSum(c, min, max + 1) as real <= max as real
  {
    if RangeSum(c, min, max + 1) > 0 {
      WeightedBounds(c, min, max + 1);
      MeanBetween(min, max, RangeSum(c, min, max + 1), RangeWeighted(c, min, max + 1));
    }
  }

  lemma MeanBetween(min: int, max: int, pixels: int, combined: int)
    requires pixels > 0
    requires min * pixels <= combined <= max * pixels
    ensures min as real <= combined as real / pixels as real <= max as real
  {
    var p := pixels as real;
    assert (min * pixels) as real == min as real * p;
    assert (max * pixels) as real == max as real * p;
    assert combined as real / p * p == combined as real;
  }

  /** Cached statistics, keyed by the normalised range "min-max". */
  type StatsCache = map<(int, int), Stats>

  /** Every cached entry is what a fresh computation would return. */
  predicate CacheCoherent(h: Hist, cache: StatsCache)
  {
    h.Valid() &&
    forall k :: k in cache ==> 0 <= k.0 <= k.1 <= ColorRangeEnd && cache[k] == ComputeStats(h, k.0, k.1)
  }

  /**
   * `getStats(levelMin, levelMax, refresh)`: a cached entry is returned
   * as is unless refresh is set; otherwise the entry is computed and stored.
   */
  function GetStats(h: Hist, cache: StatsCache, levelMin: Option<real>, levelMax: Option<real>, refresh: bool)
    : (r: Result<(Stats, StatsCache), string>)
    requires h.Valid()
    ensures r.Failure? <==> NormalizeMinMax(levelMin, levelMax).Failure?
    ensures r.Success? && !refresh && NormalizeMinMax(levelMin, levelMax).value in cache ==>
      r.value.0 == cache[NormalizeMinMax(levelMin, levelMax).value] && r.value.1 == cache
    ensures r.Success? ==> (NormalizeMinMax(levelMin, levelMax).value in r.value.1
      && r.value.1[NormalizeMinMax(levelMin, levelMax).value] == r.value.0)
    ensures r.Success? ==> forall k :: k in cache && k != NormalizeMinMax(levelMin, levelMax).value ==>
      k in r.value.1 && r.value.1[k] == cache[k]
  {
    var range := NormalizeMinMax(levelMin, levelMax);
    if range.Failure? then Failure(range.error)
    else if !refresh && range.value in cache then Success((cache[range.value], cache))
    else
      var st := ComputeStats(h, range.value.0, range.value.1);
      Success((st, cache[range.value := st]))
  }

  /** The cache never changes what a query returns, and stays coherent. */
  lemma GetStatsCoherent(h: Hist, cache: StatsCache, levelMin: Option<real>, levelMax: Option<real>, refresh: bool)
    requires CacheCoherent(h, cache)
    ensures var r := GetStats(h, cache, levelMin, levelMax, refresh);
      r.Success? ==> (r.value.0 == ComputeStats(h, NormalizeMinMax(levelMin, levelMax).value.0, NormalizeMinMax(levelMin, levelMax).value.1)
        && CacheCoherent(h, r.value.1))
  {
  }
}
