/**
 * Multilevel thresholding over a Histogram (src/types/Histogram.ts:164-276):
 * the P/S/H lookup table of the fast between-class-variance algorithm and
 * the exhaustive recursive search for the cut points.
 */
module Thresholding {
  import opened Wrappers
  import opened Histogram

  // ----- lookup table -----

  /** data[l] / pixels. */
  function Mass(h: Hist, l: int): real
    requires h.Valid() && h.pixels > 0 && 0 <= l < ColorDepth
  {
    h.data[l] as real / h.pixels as real
  }

  /** P[1, row], built by the first-row loop from the diagonal entry P[1, 1]. */
  function FirstRowP(h: Hist, row: int): real
    requires h.Valid() && h.pixels > 0 && 1 <= row < ColorDepth
  {
    if row == 1 then Mass(h, 1) else FirstRowP(h, row - 1) + Mass(h, row)
  }

  /** S[1, row], the same with each mass weighted by its level. */
  function FirstRowS(h: Hist, row: int): real
    requires h.Valid() && h.pixels > 0 && 1 <= row < ColorDepth
  {
    if row == 1 then 1.0 * Mass(h, 1) else FirstRowS(h, row - 1) + row as real * Mass(h, row)
  }

  /**
   * P[col, row] as `#thresholdingBuildLookupTable` leaves it: the diagonal,
   * row 1, the differences of row 1 for col >= 2, and 0 (never written)
   * for col = 0 and below the diagonal.
   */
  function TableP(h: Hist, col: int, row: int): real
    requires h.Valid() && h.pixels > 0 && 0 <= col < ColorDepth && 0 <= row < ColorDepth
  {
    if col < 1 || row < col then 0.0
    else if col == row then Mass(h, col)
    else if col == 1 then FirstRowP(h, row)
    else FirstRowP(h, row) - FirstRowP(h, col - 1)
  }

  function TableS(h: Hist, col: int, row: int): real
    requires h.Valid() && h.pixels > 0 && 0 <= col < ColorDepth && 0 <= row < ColorDepth
  {
    if col < 1 || row < col then 0.0
    else if col == row then col as real * Mass(h, col)
    else if col == 1 then FirstRowS(h, row)
    else FirstRowS(h, row) - FirstRowS(h, col - 1)
  }

  /** S^2 / P, or 0 when P is 0. */
  function SquareOverMass(p: real, s: real): real
  {
    if p == 0.0 then 0.0 else s * s / p
  }

  /** H[col, row] = S^2 / P for 1 <= col < row, 0 where P is 0 and everywhere else. */
  function TableH(h: Hist, col: int, row: int): real
    requires h.Valid() && h.pixels > 0 && 0 <= col < ColorDepth && 0 <= row < ColorDepth
  {
    if 1 <= col < row then SquareOverMass(TableP(h, col, row), TableS(h, col, row)) else 0.0
  }

  /** The share of pixels with level in [col, row]. */
  function ClassMass(h: Hist, col: int, row: int): real
    requires h.Valid() && h.pixels > 0 && 0 <= col && row < ColorDepth
    decreases row - col
  {
    if row < col then 0.0 else ClassMass(h, col, row - 1) + Mass(h, row)
  }

  /** The level-weighted share of pixels with level in [col, row]. */
  function ClassMoment(h: Hist, col: int, row: int): real
    requires h.Valid() && h.pixels > 0 && 0 <= col && row < ColorDepth
    decreases row - col
  {
    if row < col then 0.0 else ClassMoment(h, col, row - 1) + row as real * Mass(h, row)
  }

  lemma {:induction false} FirstRowIsPrefix(h: Hist, row: int)
    requires h.Valid() && h.pixels > 0 && 1 <= row < ColorDepth
    ensures FirstRowP(h, row) == ClassMass(h, 1, row)
    ensures FirstRowS(h, row) == ClassMoment(h, 1, row)
  {
    if row > 1 {
      FirstRowIsPrefix(h, row - 1);
    } else {
      assert ClassMass(h, 1, 0) == 0.0 && ClassMoment(h, 1, 0) == 0.0;
    }
  }

  lemma {:induction false} ClassSplit(h: Hist, col: int, row: int)
    requires h.Valid() && h.pixels > 0 && 1 <= col <= row + 1 && row < ColorDepth
    ensures ClassMass(h, 1, row) == ClassMass(h, 1, col - 1) + ClassMass(h, col, row)
    ensures ClassMoment(h, 1, row) == ClassMoment(h, 1, col - 1) + ClassMoment(h, col, row)
    decreases row - col
  {
    if row >= col {
      ClassSplit(h, col, row - 1);
    }
  }

  /**
   * The lookup table holds class sums: for 1 <= col <= row <= 255,
   * P[col, row] is the share of pixels in [col, row] and S[col, row] their
   * level-weighted share.
   */
  lemma TableIsClassSums(h: Hist, col: int, row: int)
    requires h.Valid() && h.pixels > 0 && 1 <= col <= row < ColorDepth
    ensures TableP(h, col, row) == ClassMass(h, col, row)
    ensures TableS(h, col, row) == ClassMoment(h, col, row)
  {
    FirstRowIsPrefix(h, row);
    if col == row {
      assert ClassMass(h, col, col - 1) == 0.0 && ClassMoment(h, col, col - 1) == 0.0;
    } else if col > 1 {
      FirstRowIsPrefix(h, col - 1);
      ClassSplit(h, col, row);
    }
  }

  lemma {:induction false} ClassMassNonNegative(h: Hist, col: int, row: int)
    requires h.Valid() && h.pixels > 0 && 0 <= col && row < ColorDepth
    ensures ClassMass(h, col, row) >= 0.0
    decreases row - col
  {
    if row >= col {
      ClassMassNonNegative(h, col, row - 1);
    }
  }

  lemma QuotientOfSquare(s: real, p: real)
    requires p > 0.0
    ensures s * s / p >= 0.0
  {
    assert s * s >= 0.0;
  }

  /**
   * H is never negative, and it is 0 on the diagonal, below it, and in
   * column 0 (level 0 never starts a class).
   */
  lemma TableHShape(h: Hist, col: int, row: int)
    requires h.Valid() && h.pixels > 0 && 0 <= col < ColorDepth && 0 <= row < ColorDepth
    ensures TableH(h, col, row) >= 0.0
    ensures col == 0 || row <= col ==> TableH(h, col, row) == 0.0
  {
    if 1 <= col < row {
      TableIsClassSums(h, col, row);
      ClassMassNonNegative(h, col, row);
      var p := TableP(h, col, row);
      if p != 0.0 {
        QuotientOfSquare(TableS(h, col, row), p);
      }
    }
  }

  /** Between two cuts, H is the squared class moment over the class mass (0 for an empty class). */
  lemma TableHIsClassVariance(h: Hist, col: int, row: int)
    requires h.Valid() && h.pixels > 0 && 1 <= col < row < ColorDepth
    ensures TableH(h, col, row) == SquareOverMass(ClassMass(h, col, row), ClassMoment(h, col, row))
  {
    TableIsClassSums(h, col, row);
  }

  // ----- the cut-point search -----

  /** The search state: the best total so far (`maxSig`) and its cuts (`colorStops`). */
  datatype Best = Best(maxSig: real, stops: seq<int>)

  /** Where the next class starts after the cuts in `prefix`. */
  function Start(min: int, prefix: seq<int>): int
  {
    if prefix == [] then min + 1 else prefix[|prefix| - 1] + 1
  }

  /**
   * The cuts of depth |prefix| + 1 the loop enumerates lie below this bound
   * (`i < max - amt + previousDepth`).
   */
  function Bound(max: int, amt: int, prefix: seq<int>): int
  {
    max - amt + |prefix|
  }

  /**
   * A partial placement the search can reach: cut k lies in
   * [Start(c[..k]), Bound(c[..k])), that is, above the previous cut (or above
   * min) and below max - amt + k.
   */
  predicate Partial(min: int, max: int, amt: int, c: seq<int>)
  {
    && (|c| > 0 ==> min < c[0])
    && (forall j, k :: 0 <= j < k < |c| ==> c[j] < c[k])
    && (forall k :: 0 <= k < |c| ==> c[k] < max - amt + k)
  }

  /** A full placement: `amt` cuts. */
  predicate Placement(min: int, max: int, amt: int, c: seq<int>)
  {
    |c| == amt && Partial(min, max, amt, c)
  }

  /** H[min+1, c1] + H[c1+1, c2] + ... up to the last cut. */
  function PrefixVariance(H: (int, int) -> real, min: int, c: seq<int>): real
  {
    if c == [] then 0.0
    else PrefixVariance(H, min, c[..|c| - 1]) + H(Start(min, c[..|c| - 1]), c[|c| - 1])
  }

  /** The between-class total of a full placement, closing with H[c_amt + 1, max]. */
  function Total(H: (int, int) -> real, min: int, max: int, c: seq<int>): real
    requires c != []
  {
    PrefixVariance(H, min, c) + H(c[|c| - 1] + 1, max)
  }

  /** Appending a cut inside [Start, Bound) keeps a placement reachable. */
  lemma ExtendPartial(min: int, max: int, amt: int, prefix: seq<int>, i: int)
    requires Partial(min, max, amt, prefix)
    requires Start(min, prefix) <= i < Bound(max, amt, prefix)
    ensures Partial(min, max, amt, prefix + [i])
  {
  }

  lemma ExtendVariance(H: (int, int) -> real, min: int, prefix: seq<int>, i: int)
    ensures PrefixVariance(H, min, prefix + [i]) == PrefixVariance(H, min, prefix) + H(Start(min, prefix), i)
  {
    assert (prefix + [i])[..|prefix|] == prefix;
  }

  /**
   * A placement that continues `prefix` with cut i continues prefix + [i],
   * and its next cut, if any, is above i.
   */
  lemma PlacementThrough(min: int, max: int, amt: int, prefix: seq<int>, i: int, c: seq<int>)
    requires Placement(min, max, amt, c) && |prefix| < |c|
    requires c[..|prefix|] == prefix && c[|prefix|] == i
    ensures c[..|prefix| + 1] == prefix + [i]
    ensures |prefix| + 1 < |c| ==> c[|prefix| + 1] >= i + 1
    ensures |prefix| + 1 == |c| ==> c == prefix + [i]
  {
    assert c[..|prefix| + 1] == c[..|prefix|] + [c[|prefix|]];
  }

  /**
   * One level of `iterateRecursive`: cut |prefix| runs over i, i+1, ...,
   * below Bound; the deepest level closes each placement and keeps it only
   * when its total beats `maxSig` strictly. The result is the state it was
   * given or a placement carrying its own total; SearchCovers states what
   * it has examined.
   */
  function Search(H: (int, int) -> real, min: int, max: int, amt: int,
                  prefix: seq<int>, prevVariance: real, i: int, st: Best): (r: Best)
    requires |prefix| < amt && Partial(min, max, amt, prefix)
    requires prevVariance == PrefixVariance(H, min, prefix)
    requires Start(min, prefix) <= i
    requires st.stops == [] || (Placement(min, max, amt, st.stops) && st.maxSig == Total(H, min, max, st.stops))
    ensures r.maxSig >= st.maxSig
    ensures r == st || (Placement(min, max, amt, r.stops) && r.maxSig == Total(H, min, max, r.stops))
    decreases amt - |prefix|, Bound(max, amt, prefix) - i
  {
    if i >= Bound(max, amt, prefix) then st
    else
      var cand := prefix + [i];
      ExtendPartial(min, max, amt, prefix, i);
      ExtendVariance(H, min, prefix, i);
      var next := Step(H, min, max, amt, prefix, prevVariance, i, st);
      Search(H, min, max, amt, prefix, prevVariance, i + 1, next)
  }

  /** The body of the loop for one value i of cut |prefix|. */
  function Step(H: (int, int) -> real, min: int, max: int, amt: int,
                prefix: seq<int>, prevVariance: real, i: int, st: Best): (r: Best)
    requires |prefix| < amt && Partial(min, max, amt, prefix)
    requires prevVariance == PrefixVariance(H, min, prefix)
    requires Start(min, prefix) <= i < Bound(max, amt, prefix)
    requires st.stops == [] || (Placement(min, max, amt, st.stops) && st.maxSig == Total(H, min, max, st.stops))
    ensures r.maxSig >= st.maxSig
    ensures r == st || (Placement(min, max, amt, r.stops) && r.maxSig == Total(H, min, max, r.stops))
    decreases amt - |prefix|, 0
  {
    var variance := prevVariance + H(Start(min, prefix), i);
    var cand := prefix + [i];
    ExtendPartial(min, max, amt, prefix, i);
    ExtendVariance(H, min, prefix, i);
    if |cand| < amt then Search(H, min, max, amt, cand, variance, i + 1, st)
    else
      var total := variance + H(i + 1, max);
      if st.maxSig < total then Best(total, cand) else st
  }

  /**
   * Every placement that continues `prefix` with a cut at or above i has a
   * total no larger than what the search returns.
   */
  lemma {:induction false} SearchCovers(H: (int, int) -> real, min: int, max: int, amt: int,
                  prefix: seq<int>, prevVariance: real, i: int, st: Best, c: seq<int>)
    requires |prefix| < amt && Partial(min, max, amt, prefix)
    requires prevVariance == PrefixVariance(H, min, prefix)
    requires Start(min, prefix) <= i
    requires st.stops == [] || (Placement(min, max, amt, st.stops) && st.maxSig == Total(H, min, max, st.stops))
    requires Placement(min, max, amt, c) && c[..|prefix|] == prefix && c[|prefix|] >= i
    ensures Total(H, min, max, c) <= Search(H, min, max, amt, prefix, prevVariance, i, st).maxSig
    decreases amt - |prefix|, Bound(max, amt, prefix) - i, 2
  {
    assert c[|prefix|] < Bound(max, amt, prefix);
    var next := Step(H, min, max, amt, prefix, prevVariance, i, st);
    if c[|prefix|] > i {
      SearchCovers(H, min, max, amt, prefix, prevVariance, i + 1, next, c);
    } else {
      StepCovers(H, min, max, amt, prefix, prevVariance, i, st, c);
    }
  }

  /** The placement whose cut |prefix| is i itself is covered by that step. */
  lemma {:induction false} StepCovers(H: (int, int) -> real, min: int, max: int, amt: int,
                  prefix: seq<int>, prevVariance: real, i: int, st: Best, c: seq<int>)
    requires |prefix| < amt && Partial(min, max, amt, prefix)
    requires prevVariance == PrefixVariance(H, min, prefix)
    requires Start(min, prefix) <= i < Bound(max, amt, prefix)
    requires st.stops == [] || (Placement(min, max, amt, st.stops) && st.maxSig == Total(H, min, max, st.stops))
    requires Placement(min, max, amt, c) && c[..|prefix|] == prefix && c[|prefix|] == i
    ensures Total(H, min, max, c) <= Step(H, min, max, amt, prefix, prevVariance, i, st).maxSig
    decreases amt - |prefix|, 0, 1
  {
    if |prefix| + 1 < amt {
      DeeperCovers(H, min, max, amt, prefix, prevVariance, i, st, c);
    } else {
      PlacementThrough(min, max, amt, prefix, i, c);
      ClosingStep(H, min, max, amt, prefix, prevVariance, i, st);
    }
  }

  /** Below the deepest level, the placement is covered by the search one level down. */
  lemma {:induction false} DeeperCovers(H: (int, int) -> real, min: int, max: int, amt: int,
                  prefix: seq<int>, prevVariance: real, i: int, st: Best, c: seq<int>)
    requires |prefix| + 1 < amt && Partial(min, max, amt, prefix)
    requires prevVariance == PrefixVariance(H, min, prefix)
    requires Start(min, prefix) <= i < Bound(max, amt, prefix)
    requires st.stops == [] || (Placement(min, max, amt, st.stops) && st.maxSig == Total(H, min, max, st.stops))
    requires Placement(min, max, amt, c) && c[..|prefix|] == prefix && c[|prefix|] == i
    ensures Total(H, min, max, c) <= Step(H, min, max, amt, prefix, prevVariance, i, st).maxSig
    decreases amt - |prefix|, 0, 0
  {
    PlacementThrough(min, max, amt, prefix, i, c);
    var variance := prevVariance + H(Start(min, prefix), i);
    var cand := prefix + [i];
    DeeperStep(H, min, max, amt, prefix, prevVariance, i, st);
    SearchCovers(H, min, max, amt, cand, variance, i + 1, st, c);
  }

  /** Below the deepest level the step is the search one level down. */
  lemma DeeperStep(H: (int, int) -> real, min: int, max: int, amt: int,
                   prefix: seq<int>, prevVariance: real, i: int, st: Best)
    requires |prefix| + 1 < amt && Partial(min, max, amt, prefix)
    requires prevVariance == PrefixVariance(H, min, prefix)
    requires Start(min, prefix) <= i < Bound(max, amt, prefix)
    requires st.stops == [] || (Placement(min, max, amt, st.stops) && st.maxSig == Total(H, min, max, st.stops))
    ensures Partial(min, max, amt, prefix + [i])
    ensures PrefixVariance(H, min, prefix + [i]) == prevVariance + H(Start(min, prefix), i)
    ensures Step(H, min, max, amt, prefix, prevVariance, i, st)
         == Search(H, min, max, amt, prefix + [i], prevVariance + H(Start(min, prefix), i), i + 1, st)
  {
    ExtendPartial(min, max, amt, prefix, i);
    ExtendVariance(H, min, prefix, i);
  }

  /** At the deepest level the step compares the closed placement itself. */
  lemma ClosingStep(H: (int, int) -> real, min: int, max: int, amt: int,
                    prefix: seq<int>, prevVariance: real, i: int, st: Best)
    requires |prefix| + 1 == amt && Partial(min, max, amt, prefix)
    requires prevVariance == PrefixVariance(H, min, prefix)
    requires Start(min, prefix) <= i < Bound(max, amt, prefix)
    requires st.stops == [] || (Placement(min, max, amt, st.stops) && st.maxSig == Total(H, min, max, st.stops))
    ensures Total(H, min, max, prefix + [i]) <= Step(H, min, max, amt, prefix, prevVariance, i, st).maxSig
  {
    var cand := prefix + [i];
    ExtendVariance(H, min, prefix, i);
    var variance := prevVariance + H(Start(min, prefix), i);
    assert cand[|cand| - 1] == i;
    assert Total(H, min, max, cand) == variance + H(i + 1, max);
    var total := variance + H(i + 1, max);
    assert Step(H, min, max, amt, prefix, prevVariance, i, st) == if st.maxSig < total then Best(total, cand) else st;
  }

  /** Math.trunc. */
  function Trunc(x: real): int
  {
    if x >= 0.0 then x.Floor else -((-x).Floor)
  }

  /** H as the search reads it; every index the search uses is a level. */
  function LookupH(h: Hist): (int, int) -> real
    requires h.Valid() && h.pixels > 0
  {
    (a: int, b: int) => if 0 <= a < ColorDepth && 0 <= b < ColorDepth then TableH(h, a, b) else 0.0
  }

  /** The number of cuts actually searched for: min(max - min - 2, trunc(amount)). */
  function CutCount(min: int, max: int, amount: real): int
  {
    if max - min - 2 < Trunc(amount) then max - min - 2 else Trunc(amount)
  }

  /**
   * `multilevelThresholding(amount, levelMin, levelMax)` on a normalised
   * range. An image of 0 pixels makes every table entry NaN, so no total
   * beats 0 and the result is [].
   */
  function MultilevelIn(h: Hist, amount: real, min: int, max: int): (r: seq<int>)
    requires h.Valid() && 0 <= min <= max <= ColorRangeEnd
    ensures r == [] || Placement(min, max, CutCount(min, max, amount), r)
  {
    var amt := CutCount(min, max, amount);
    if amt < 1 || h.pixels == 0 then []
    else Search(LookupH(h), min, max, amt, [], 0.0, min + 1, Best(0.0, [])).stops
  }

  /** The whole query, range normalisation included. */
  function MultilevelThresholding(h: Hist, amount: real, levelMin: Option<real>, levelMax: Option<real>)
    : (r: Result<seq<int>, string>)
    requires h.Valid()
    ensures r.Failure? <==> NormalizeMinMax(levelMin, levelMax).Failure?
    ensures r.Success? ==> r.value == MultilevelIn(h, amount, NormalizeMinMax(levelMin, levelMax).value.0,
      NormalizeMinMax(levelMin, levelMax).value.1)
  {
    var range := NormalizeMinMax(levelMin, levelMax);
    if range.Failure? then Failure(range.error)
    else Success(MultilevelIn(h, amount, range.value.0, range.value.1))
  }

  /** A placement is amt strictly increasing levels in (min, max - 2]. */
  lemma {:induction false} PlacementShape(min: int, max: int, amt: int, c: seq<int>)
    requires Placement(min, max, amt, c) && amt >= 1
    ensures min < c[0] && c[|c| - 1] <= max - 2
    ensures forall k :: 0 < k < |c| ==> c[k - 1] < c[k]
  {
    var last := |c| - 1;
    assert c[last] < max - amt + last;
  }

  /**
   * The returned cuts are optimal: no placement the search enumerates has a
   * larger total, and [] comes back only when no total exceeds 0.
   */
  lemma MultilevelOptimal(h: Hist, amount: real, min: int, max: int, c: seq<int>)
    requires h.Valid() && h.pixels > 0 && 0 <= min <= max <= ColorRangeEnd
    requires CutCount(min, max, amount) >= 1
    requires Placement(min, max, CutCount(min, max, amount), c)
    ensures var r := MultilevelIn(h, amount, min, max);
      if r == [] then Total(LookupH(h), min, max, c) <= 0.0
      else Total(LookupH(h), min, max, c) <= Total(LookupH(h), min, max, r)
  {
    var amt := CutCount(min, max, amount);
    var H := LookupH(h);
    assert c[..0] == [];
    var best := Search(H, min, max, amt, [], 0.0, min + 1, Best(0.0, []));
    SearchCovers(H, min, max, amt, [], 0.0, min + 1, Best(0.0, []), c);
  }

  /** `autoThreshold`: the single best cut, or null when there is none. */
  function AutoThreshold(h: Hist, levelMin: Option<real>, levelMax: Option<real>): (r: Result<Option<int>, string>)
    requires h.Valid()
    ensures r.Failure? <==> NormalizeMinMax(levelMin, levelMax).Failure?
    ensures r.Success? && r.value.Some? ==>
      NormalizeMinMax(levelMin, levelMax).value.0 < r.value.value <= NormalizeMinMax(levelMin, levelMax).value.1 - 2
  {
    var cuts := MultilevelThresholding(h, 1.0, levelMin, levelMax);
    if cuts.Failure? then Failure(cuts.error)
    else if cuts.value == [] then Success(None)
    else
      var range := NormalizeMinMax(levelMin, levelMax).value;
      PlacementShape(range.0, range.1, CutCount(range.0, range.1, 1.0), cuts.value);
      Success(Some(cuts.value[0]))
  }
}
