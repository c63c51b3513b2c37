/**
 * The colour-stop logic of the posterizer (src/Posterizer.ts): how the
 * thresholds of the layers are chosen (explicit, automatic or equally
 * distributed stops), which grey level stands for each layer, and the
 * opacity with which each layer is composited over the ones before it.
 * Every layer of a posterized image is a Potrace trace at one stop; the
 * tracing itself is the Bitmap/Path/Curve model.
 */
module Posterize {
  import opened Wrappers
  import opened Utils
  import opened Histogram
  import opened Thresholding

  /** `THRESHOLD_AUTO` and `STEPS_AUTO`. */
  const ThresholdAuto: int := -1
  const StepsAuto: int := -1

  /** `rangeDistribution`: 'auto', or anything else (equal distribution). */
  datatype Distribution = AutoRanges | EqualRanges

  /** `fillStrategy`; an unknown name selects no colour at all. */
  datatype FillStrategy = Spread | Dominant | Median | Mean | UnknownFill

  /**
   * The fields of a posterizer the stop logic reads, and the memoised
   * threshold (`#calculatedThreshold`, None for null).
   */
  datatype Posterizer = Posterizer(
    threshold: int,
    blackOnWhite: bool,
    steps: seq<int>,
    rangeDistribution: Distribution,
    fillStrategy: FillStrategy,
    calculated: Option<int>)

  /**
   * What `loadImage` does to the stop logic once the parent has loaded the
   * new bitmap: the memoised threshold is forgotten and the options stay.
   */
  function Invalidate(p: Posterizer): (q: Posterizer)
    ensures q.calculated.None?
    ensures q.(calculated := p.calculated) == p
  {
    p.(calculated := None)
  }

  // ----- updates -----

  /** The posterizer options an update may name; None leaves that option as it is. */
  datatype Update = Update(
    threshold: Option<int>,
    blackOnWhite: Option<bool>,
    steps: Option<seq<int>>,
    rangeDistribution: Option<Distribution>,
    fillStrategy: Option<FillStrategy>)

  /** An update naming no option. */
  const NoUpdate: Update := Update(None, None, None, None, None)

  /** q holds every option u names, and p's value of every other option. */
  predicate Applied(p: Posterizer, u: Update, q: Posterizer)
  {
    && (if u.threshold.Some? then q.threshold == u.threshold.value else q.threshold == p.threshold)
    && (if u.blackOnWhite.Some? then q.blackOnWhite == u.blackOnWhite.value else q.blackOnWhite == p.blackOnWhite)
    && (if u.steps.Some? then q.steps == u.steps.value else q.steps == p.steps)
    && (if u.rangeDistribution.Some? then q.rangeDistribution == u.rangeDistribution.value
        else q.rangeDistribution == p.rangeDistribution)
    && (if u.fillStrategy.Some? then q.fillStrategy == u.fillStrategy.value else q.fillStrategy == p.fillStrategy)
  }

  /**
   * `setParameters` as intended: the parent's `Object.assign` of the
   * update, then the memoised threshold forgotten. The parent's validation
   * is the Facade model's.
   */
  function SetParameters(p: Posterizer, u: Update): (q: Posterizer)
    ensures Applied(p, u, q) && q.calculated.None?
  {
    Posterizer(u.threshold.GetOr(p.threshold), u.blackOnWhite.GetOr(p.blackOnWhite), u.steps.GetOr(p.steps),
               u.rangeDistribution.GetOr(p.rangeDistribution), u.fillStrategy.GetOr(p.fillStrategy), None)
  }

  /** An update that names no option only forgets the memo, like `loadImage`. */
  lemma EmptyUpdateInvalidates(p: Posterizer)
    ensures SetParameters(p, NoUpdate) == Invalidate(p)
  {
  }

  /** `setParameters({ blackOnWhite })` with the current polarity, as `#getPathTags` calls it, only forgets the memo. */
  lemma SamePolarityInvalidates(p: Posterizer)
    ensures SetParameters(p, NoUpdate.(blackOnWhite := Some(p.blackOnWhite))) == Invalidate(p)
  {
  }

  /** The field initialisers of a Posterizer. */
  const Initial: Posterizer := Posterizer(ThresholdAuto, true, [StepsAuto], AutoRanges, Dominant, None)

  /** `new Posterizer(options)` as intended: the initial fields with the options assigned. */
  function New(u: Update): (q: Posterizer)
    ensures Applied(Initial, u, q) && q.calculated.None?
  {
    SetParameters(Initial, u)
  }

  /**
   * `new Posterizer(options)` as written: the parent constructor assigns
   * the options, and only then do the Posterizer's field initialisers run
   * and put every posterizer option back to its initial value.
   */
  function NewAsWritten(u: Update): (q: Posterizer)
    ensures u.threshold.Some? && u.threshold.value != ThresholdAuto ==> q.threshold != u.threshold.value
    ensures u.steps.Some? && u.steps.value != [StepsAuto] ==> q.steps != u.steps.value
    ensures u.fillStrategy.Some? && u.fillStrategy.value != Dominant ==> q.fillStrategy != u.fillStrategy.value
  {
    var given := SetParameters(Initial, u);
    given.(threshold := Initial.threshold, blackOnWhite := Initial.blackOnWhite, steps := Initial.steps,
              rangeDistribution := Initial.rangeDistribution, fillStrategy := Initial.fillStrategy, calculated := None)
  }

  /** `new Posterizer({ threshold: 100, steps: [3] })` keeps both options as intended and loses both as written. */
  lemma ConstructorOptionsLost()
    ensures var u := NoUpdate.(threshold := Some(100), steps := Some([3]));
      && New(u).threshold == 100 && New(u).steps == [3]
      && NewAsWritten(u).threshold == ThresholdAuto && NewAsWritten(u).steps == [StepsAuto]
  {
  }

  /**
   * The methods found on PotraceImage.prototype: every public method of
   * PotraceImage is an arrow function held in an instance field, so none.
   */
  const ImagePrototype: set<string> := {}

  /**
   * `super.name(...)` in a Posterizer method: the lookup goes to
   * PotraceImage.prototype, and a method that is only an instance field
   * reads as undefined there, so calling it throws a TypeError.
   */
  function SuperCall(name: string): (r: Result<(), string>)
    ensures r.Failure? <==> name !in ImagePrototype
  {
    if name in ImagePrototype then Success(()) else Failure("(intermediate value)." + name + " is not a function")
  }

  /** `setParameters` as written: `super.setParameters(options)` throws before anything is assigned. */
  function SetParametersAsWritten(p: Posterizer, u: Update): (r: Result<Posterizer, string>)
    ensures r.Failure?
  {
    match SuperCall("setParameters")
    case Failure(e) => Failure(e)
    case Success(_) => Success(SetParameters(p, u))
  }

  /** `loadImage` as written: `super.loadImage(target)` throws (the promise rejects) before the bitmap is read. */
  function LoadImageAsWritten(p: Posterizer): (r: Result<Posterizer, string>)
    ensures r.Failure?
  {
    match SuperCall("loadImage")
    case Failure(e) => Failure(e)
    case Success(_) => Success(Invalidate(p))
  }

  /** Element i of a JavaScript array: undefined past the end. */
  function At(s: seq<int>, i: nat): (r: Option<int>)
    ensures r.Some? <==> i < |s|
    ensures r.Some? ==> r.value == s[i]
  {
    if i < |s| then Some(s[i]) else None
  }

  // ----- the threshold -----

  /**
   * `[black, white] = multilevelThresholding(2)`, then the second cut for
   * blackOnWhite and the first otherwise, and `|| 128`: a missing cut or a
   * cut of 0 becomes 128.
   */
  function AutoPick(cuts: seq<int>, blackOnWhite: bool): (t: int)
    ensures t != 0
    ensures var i := if blackOnWhite then 1 else 0;
      t == 128 || (i < |cuts| && t == cuts[i])
    ensures var i := if blackOnWhite then 1 else 0;
      i < |cuts| && cuts[i] != 0 ==> t == cuts[i]
  {
    var pick := At(cuts, if blackOnWhite then 1 else 0);
    if pick.None? || pick.value == 0 then 128 else pick.value
  }

  /** The cuts of `multilevelThresholding(2)` over the whole range. */
  function TwoCuts(h: Hist): (c: seq<int>)
    requires h.Valid()
    ensures c == [] || (|c| == 2 && 0 < c[0] < c[1] <= ColorRangeEnd - 2)
  {
    var c := MultilevelIn(h, 2.0, 0, ColorRangeEnd);
    assert CutCount(0, ColorRangeEnd, 2.0) == 2;
    if c == [] then c
    else
      PlacementShape(0, ColorRangeEnd, 2, c);
      c
  }

  /**
   * `#getThreshold`: the memoised value when there is one; otherwise the
   * configured threshold, or in auto mode the pick from two automatic cuts.
   * Either way the value is stored in the memo.
   */
  function GetThreshold(p: Posterizer, h: Hist): (r: (int, Posterizer))
    requires h.Valid()
    ensures r.1 == p.(calculated := Some(r.0))
    ensures p.calculated.Some? ==> r.0 == p.calculated.value
    ensures p.calculated.None? && p.threshold != ThresholdAuto ==> r.0 == p.threshold
    ensures p.calculated.None? && p.threshold == ThresholdAuto ==> 0 < r.0 <= ColorRangeEnd - 2
  {
    if p.calculated.Some? then (p.calculated.value, p)
    else if p.threshold != ThresholdAuto then (p.threshold, p.(calculated := Some(p.threshold)))
    else
      var t := AutoPick(TwoCuts(h), p.blackOnWhite);
      (t, p.(calculated := Some(t)))
  }

  /** In auto mode a fresh threshold is the matching automatic cut, if there is one. */
  lemma AutoThresholdIsCut(p: Posterizer, h: Hist)
    requires h.Valid() && p.calculated.None? && p.threshold == ThresholdAuto
    ensures var c := MultilevelIn(h, 2.0, 0, ColorRangeEnd);
      GetThreshold(p, h).0 == (if c == [] then 128 else c[if p.blackOnWhite then 1 else 0])
  {
    var c := TwoCuts(h);
  }

  /** The memo answers every later query with the same value and no change. */
  lemma ThresholdMemoised(p: Posterizer, h: Hist)
    requires h.Valid()
    ensures var (t, q) := GetThreshold(p, h);
      GetThreshold(q, h) == (t, q) && GetThreshold(Invalidate(q), h) == GetThreshold(Invalidate(p), h)
  {
  }

  // ----- the number of steps -----

  /** `Math.min` and `Math.max` on two integers. */
  function MinInt(a: int, b: int): (r: int)
    ensures r <= a && r <= b && (r == a || r == b)
  {
    if a < b then a else b
  }

  function MaxInt(a: int, b: int): (r: int)
    ensures r >= a && r >= b && (r == a || r == b)
  {
    if a > b then a else b
  }

  /** `colorsCount`: the levels on the dark side of the threshold (light side for white on black). */
  function ColorsCount(p: Posterizer, h: Hist): int
    requires h.Valid()
  {
    var t := GetThreshold(p, h).0;
    if p.blackOnWhite then t else ColorRangeEnd - t
  }

  /**
   * `#getSteps(count)`; None is the NaN that `max(2, steps[0])` gives when
   * `steps` is empty. Only the threshold memo may change.
   */
  function GetSteps(p: Posterizer, h: Hist, count: bool): (r: (Option<int>, Posterizer))
    requires h.Valid()
    ensures r.1 == p || r.1 == GetThreshold(p, h).1
    ensures count ==> r.0.Some?
    ensures count && At(p.steps, 0) != Some(StepsAuto) ==> r.0 == Some(|p.steps|)
    ensures At(p.steps, 0) == Some(StepsAuto) ==> (r.0.Some? &&
      (r.0.value == 4 <==> p.threshold == ThresholdAuto || ColorsCount(p, h) > 200) &&
      (r.0.value == 3 || r.0.value == 4))
    ensures !count && p.steps == [] ==> r.0.None?
    ensures !count && p.steps != [] && p.steps[0] != StepsAuto ==>
      r.0 == Some(MinInt(ColorsCount(p, h), MaxInt(2, p.steps[0])))
  {
    var first := At(p.steps, 0);
    if first != Some(StepsAuto) && count then (Some(|p.steps|), p)
    else if first == Some(StepsAuto) && p.threshold == ThresholdAuto then (Some(4), p)
    else
      var (_, q) := GetThreshold(p, h);
      var colors := ColorsCount(p, h);
      if first == Some(StepsAuto) then (Some(if colors > 200 then 4 else 3), q)
      else if first.None? then (None, q)
      else
        var atLeast := if 2 > first.value then 2 else first.value;
        (Some(if colors < atLeast then colors else atLeast), q)
  }

  // ----- stop orders -----

  /** a comes before b: above it for blackOnWhite, below it otherwise. */
  predicate Precedes(a: int, b: int, blackOnWhite: bool)
  {
    if blackOnWhite then a > b else a < b
  }

  /** Strictly descending for blackOnWhite, strictly ascending otherwise. */
  predicate Ordered(s: seq<int>, blackOnWhite: bool)
  {
    forall i, j :: 0 <= i < j < |s| ==> Precedes(s[i], s[j], blackOnWhite)
  }

  predicate Distinct(s: seq<int>)
  {
    forall i, j :: 0 <= i < j < |s| ==> s[i] != s[j]
  }

  predicate AllLevels(s: seq<int>)
  {
    forall i :: 0 <= i < |s| ==> 0 <= s[i] <= ColorRangeEnd
  }

  /** Array.prototype.reverse. */
  function Reversed(s: seq<int>): (r: seq<int>)
    ensures |r| == |s|
    ensures forall i :: 0 <= i < |s| ==> r[i] == s[|s| - 1 - i]
  {
    seq(|s|, i requires 0 <= i < |s| => s[|s| - 1 - i])
  }

  /** Reversing turns one order into the other and keeps the elements. */
  lemma ReversedOrder(s: seq<int>, blackOnWhite: bool)
    requires Ordered(s, !blackOnWhite)
    ensures Ordered(Reversed(s), blackOnWhite)
    ensures forall x :: x in Reversed(s) <==> x in s
  {
    var r := Reversed(s);
    forall i, j | 0 <= i < j < |r|
      ensures Precedes(r[i], r[j], blackOnWhite)
    {
      assert Precedes(s[|s| - 1 - j], s[|s| - 1 - i], !blackOnWhite);
    }
    forall x | x in s
      ensures x in r
    {
      var k :| 0 <= k < |s| && s[k] == x;
      assert r[|s| - 1 - k] == x;
    }
  }

  // ----- explicit stops -----

  /**
   * The `forEach` of `getRanges`: a value is pushed when it is not already
   * present and lies in [0, 255] (`range(255).contains`, both ends included).
   */
  function Keep(steps: seq<int>): (r: seq<int>)
    ensures Distinct(r) && AllLevels(r)
    ensures forall x :: x in r <==> x in steps && MakeRangeTo(ColorRangeEnd).Contains(x)
    ensures |r| <= |steps|
  {
    if steps == [] then []
    else
      var init := steps[..|steps| - 1];
      var x := steps[|steps| - 1];
      assert steps == init + [x];
      var k := Keep(init);
      if x in k || !MakeRangeTo(ColorRangeEnd).Contains(x) then k else k + [x]
  }

  /** Only the first occurrence of a value survives: a repeated value adds nothing. */
  lemma {:induction false} KeepIgnoresRepeats(steps: seq<int>, x: int)
    requires x in steps
    ensures Keep(steps + [x]) == Keep(steps)
  {
    assert (steps + [x])[..|steps|] == steps;
  }

  /** Insertion into a strictly ordered sequence of a value it does not hold. */
  function Insert(s: seq<int>, x: int, blackOnWhite: bool): (r: seq<int>)
    requires Ordered(s, blackOnWhite) && x !in s
    ensures Ordered(r, blackOnWhite)
    ensures |r| == |s| + 1
    ensures forall y :: y in r <==> y in s || y == x
  {
    if s == [] then [x]
    else if Precedes(x, s[0], blackOnWhite) then
      assert forall i :: 0 < i < |s| ==> Precedes(s[0], s[i], blackOnWhite);
      [x] + s
    else
      assert s == [s[0]] + s[1..];
      var rest := Insert(s[1..], x, blackOnWhite);
      assert forall y :: y in rest ==> Precedes(s[0], y, blackOnWhite);
      [s[0]] + rest
  }

  /**
   * The `sort` of `getRanges`: its comparator puts the larger value first for
   * blackOnWhite and the smaller first otherwise; the values are distinct, so
   * the result is the strict order, holding the same values.
   */
  function Sort(s: seq<int>, blackOnWhite: bool): (r: seq<int>)
    requires Distinct(s)
    ensures Ordered(r, blackOnWhite)
    ensures |r| == |s|
    ensures forall y :: y in r <==> y in s
  {
    if s == [] then []
    else
      var init := s[..|s| - 1];
      var x := s[|s| - 1];
      assert s == init + [x];
      var sorted := Sort(init, blackOnWhite);
      assert x !in init;
      Insert(sorted, x, blackOnWhite)
  }

  /** The strictest element of an ordered sequence is its largest. */
  function Top(s: seq<int>, blackOnWhite: bool): int
    requires s != []
  {
    if blackOnWhite then s[0] else s[|s| - 1]
  }

  lemma TopIsLargest(s: seq<int>, blackOnWhite: bool)
    requires s != [] && Ordered(s, blackOnWhite)
    ensures forall x :: x in s ==> x <= Top(s, blackOnWhite)
  {
    forall x | x in s
      ensures x <= Top(s, blackOnWhite)
    {
      var k :| 0 <= k < |s| && s[k] == x;
      if blackOnWhite {
        assert k == 0 || Precedes(s[0], s[k], true);
      } else {
        assert k == |s| - 1 || Precedes(s[k], s[|s| - 1], false);
      }
    }
  }

  /** Every value of s lies below t. */
  predicate AllBelow(s: seq<int>, t: int)
  {
    forall y :: y in s ==> y < t
  }

  /**
   * The `unshift`/`push` after sorting: the threshold goes on the strict end
   * of the sorted stops when their largest is below it.
   */
  function AddThreshold(sorted: seq<int>, threshold: int, blackOnWhite: bool): (r: seq<int>)
    requires sorted != [] && Ordered(sorted, blackOnWhite)
    ensures r != [] && Ordered(r, blackOnWhite)
    ensures forall x :: x in r <==> x in sorted || (x == threshold && AllBelow(sorted, threshold))
    ensures Top(r, blackOnWhite) >= threshold
  {
    TopIsLargest(sorted, blackOnWhite);
    var top := Top(sorted, blackOnWhite);
    assert top in sorted;
    if top < threshold then
      var r := if blackOnWhite then [threshold] + sorted else sorted + [threshold];
      assert forall x :: x in r <==> x in sorted || x == threshold;
      assert Ordered(r, blackOnWhite) by {
        forall i, j | 0 <= i < j < |r|
          ensures Precedes(r[i], r[j], blackOnWhite)
        {
          if blackOnWhite && i > 0 {
            assert r[i] == sorted[i - 1] && r[j] == sorted[j - 1];
          } else if !blackOnWhite && j < |sorted| {
            assert r[i] == sorted[i] && r[j] == sorted[j];
          }
        }
      }
      r
    else
      assert !AllBelow(sorted, threshold);
      sorted
  }

  /**
   * The explicit-stop branch of `getRanges`: the kept values, [threshold]
   * when none is kept, sorted, and the threshold added on the strict end
   * when every stop is below it. The result holds exactly the kept values
   * plus the threshold when every kept value is below it, in strict order,
   * and its largest stop is at least the threshold.
   */
  function ExplicitStops(steps: seq<int>, threshold: int, blackOnWhite: bool): (r: seq<int>)
    ensures r != [] && Ordered(r, blackOnWhite)
    ensures forall x :: x in r <==> x in Keep(steps) || (x == threshold && AllBelow(Keep(steps), threshold))
    ensures Top(r, blackOnWhite) >= threshold
  {
    var kept := Keep(steps);
    var stops := if kept == [] then [threshold] else kept;
    var sorted := Sort(stops, blackOnWhite);
    var r := AddThreshold(sorted, threshold, blackOnWhite);
    if kept == [] then
      assert AllBelow(kept, threshold);
      assert forall x :: x in sorted <==> x == threshold;
      r
    else
      assert forall x :: x in sorted <==> x in kept;
      assert AllBelow(sorted, threshold) == AllBelow(kept, threshold);
      r
  }

  // ----- equally distributed stops -----

  function MinReal(a: real, b: real): real
  {
    if a < b then a else b
  }

  /**
   * One pass of the loop of `#getRangesEquallyDistributed`, k passes in
   * (i = m-1-k): min(colors, (i+1)*size) with size = colors/m, mirrored as
   * 255 - stop for white on black.
   */
  function EqualStop(colors: int, m: int, k: int, blackOnWhite: bool): real
    requires m >= 1
  {
    var size := colors as real / m as real;
    var stop := MinReal(colors as real, (m - k) as real * size);
    if blackOnWhite then stop else ColorRangeEnd as real - stop
  }

  /**
   * The loop on `colorsToThreshold` and `steps`, i running from steps-1 down
   * to 0. A NaN step count (None) or one below 1 runs it zero times.
   */
  function EqualStops(colors: int, steps: Option<int>, blackOnWhite: bool): (r: seq<real>)
    ensures |r| == if steps.Some? && steps.value > 0 then steps.value else 0
    ensures forall k :: 0 <= k < |r| ==> r[k] == EqualStop(colors, steps.value, k, blackOnWhite)
  {
    if steps.None? || steps.value <= 0 then []
    else seq(steps.value, k requires 0 <= k < steps.value => EqualStop(colors, steps.value, k, blackOnWhite))
  }

  /** j steps of colors/m reach at most colors when j <= m. */
  lemma StepsBelowWhole(colors: real, m: int, j: int)
    requires 0.0 <= colors && 0 <= j <= m && m >= 1
    ensures j as real * (colors / m as real) <= colors
    ensures m as real * (colors / m as real) == colors
  {
    var size := colors / m as real;
    assert 0.0 <= size;
    assert (m - j) as real * size >= 0.0;
    assert m as real * size == j as real * size + (m - j) as real * size;
  }

  /** The stop at position k of an equal distribution of m steps. */
  lemma EqualStopAt(colors: int, m: int, blackOnWhite: bool, k: int)
    requires 0 <= colors && m >= 1 && 0 <= k < m
    ensures var stop := (m - k) as real * (colors as real / m as real);
      EqualStops(colors, Some(m), blackOnWhite)[k] == if blackOnWhite then stop else ColorRangeEnd as real - stop
  {
    StepsBelowWhole(colors as real, m, m - k);
  }

  /**
   * An equal distribution of m >= 1 steps starts at the threshold side
   * (colors for blackOnWhite, 255 - colors otherwise) and its stops are
   * colors/m apart, descending for blackOnWhite and ascending otherwise.
   */
  lemma EqualStopsSpacing(colors: int, m: int, blackOnWhite: bool)
    requires 0 <= colors && m >= 1
    ensures var r := EqualStops(colors, Some(m), blackOnWhite);
      r[0] == (if blackOnWhite then colors as real else (ColorRangeEnd - colors) as real)
    ensures forall k :: 0 <= k < m - 1 ==> EqualGap(colors, m, blackOnWhite, k)
  {
    EqualStopAt(colors, m, blackOnWhite, 0);
    StepsBelowWhole(colors as real, m, m);
    forall k | 0 <= k < m - 1
      ensures EqualGap(colors, m, blackOnWhite, k)
    {
      EqualStopGap(colors, m, blackOnWhite, k);
    }
  }

  /** Consecutive stops k and k+1 of an equal distribution are colors/m apart, in the direction of blackOnWhite. */
  predicate EqualGap(colors: int, m: int, blackOnWhite: bool, k: int)
    requires 0 <= colors && m >= 1 && 0 <= k < m - 1
  {
    var r := EqualStops(colors, Some(m), blackOnWhite);
    (if blackOnWhite then r[k] - r[k + 1] else r[k + 1] - r[k]) == colors as real / m as real
  }

  lemma EqualStopGap(colors: int, m: int, blackOnWhite: bool, k: int)
    requires 0 <= colors && m >= 1 && 0 <= k < m - 1
    ensures EqualGap(colors, m, blackOnWhite, k)
  {
    var r := EqualStops(colors, Some(m), blackOnWhite);
    assert r[k] == EqualStop(colors, m, k, blackOnWhite) && r[k + 1] == EqualStop(colors, m, k + 1, blackOnWhite);
    EqualStopStep(colors, m, blackOnWhite, k);
  }

  /** One position further, an equal stop is one step of colors/m closer to 0 (to 255 when not blackOnWhite). */
  lemma EqualStopStep(colors: int, m: int, blackOnWhite: bool, k: int)
    requires 0 <= colors && m >= 1 && 0 <= k < m - 1
    ensures var size := colors as real / m as real;
      var (a, b) := (EqualStop(colors, m, k, blackOnWhite), EqualStop(colors, m, k + 1, blackOnWhite));
      (if blackOnWhite then a - b else b - a) == size
  {
    var size := colors as real / m as real;
    var hi, lo := (m - k) as real * size, (m - (k + 1)) as real * size;
    StepsBelowWhole(colors as real, m, m - k);
    StepsBelowWhole(colors as real, m, m - (k + 1));
    OneMoreStep(m - k, size);
    assert hi == lo + size;
  }

  lemma OneMoreStep(a: int, size: real)
    ensures a as real * size == (a - 1) as real * size + size
  {
  }

  /**
   * `#getRangesEquallyDistributed`: colorsToThreshold from the threshold,
   * the step count from `#getSteps()`. When the threshold is a level the
   * first stop is the threshold itself, and explicit steps never yield more
   * stops than there are levels on the threshold's side.
   */
  function RangesEqual(p: Posterizer, h: Hist): (r: (seq<real>, Posterizer))
    requires h.Valid()
    ensures r.1 == GetThreshold(p, h).1
    ensures var t := GetThreshold(p, h).0;
      0 <= t <= ColorRangeEnd && r.0 != [] ==> r.0[0] == t as real
    ensures p.steps != [] && p.steps[0] != StepsAuto ==> |r.0| <= ColorsCount(p, h) || |r.0| == 0
  {
    var (t, p1) := GetThreshold(p, h);
    var colors := if p.blackOnWhite then t else ColorRangeEnd - t;
    var (n, p2) := GetSteps(p1, h, false);
    var stops := EqualStops(colors, n, p.blackOnWhite);
    if 0 <= t <= ColorRangeEnd && stops != [] then
      EqualStopsSpacing(colors, n.value, p.blackOnWhite);
      (stops, p2)
    else
      (stops, p2)
  }

  // ----- automatically placed stops -----

  /** Automatic cuts on [lo, hi] are strictly ascending levels in (lo, hi - 2]. */
  lemma CutsShape(h: Hist, amount: real, lo: int, hi: int)
    requires h.Valid() && 0 <= lo <= hi <= ColorRangeEnd
    ensures var c := MultilevelIn(h, amount, lo, hi);
      Ordered(c, false) && forall k :: 0 <= k < |c| ==> lo < c[k] <= hi - 2
  {
    var c := MultilevelIn(h, amount, lo, hi);
    if c != [] {
      PlacementShape(lo, hi, CutCount(lo, hi, amount), c);
      forall k | 0 <= k < |c|
        ensures lo < c[k] <= hi - 2
      {
        assert k == 0 || c[0] < c[k];
        assert k == |c| - 1 || c[k] < c[|c| - 1];
      }
    }
  }

  /** Math.round leaves an integer as it is. */
  lemma RoundInt(n: int)
    ensures Round(n as real) == n
  {
  }

  /** The normalised range of two levels is the pair itself. */
  lemma LevelsNormalise(lo: int, hi: int)
    requires 0 <= lo <= hi <= ColorRangeEnd
    ensures NormalizeMinMax(Some(lo as real), Some(hi as real)) == Success((lo, hi))
  {
    RoundInt(lo);
    RoundInt(hi);
  }

  /** `multilevelThresholding(amount, lo, hi)` on two levels, in stop order for the given side. */
  function PinnedCuts(h: Hist, amount: real, lo: int, hi: int): (c: seq<int>)
    requires h.Valid() && 0 <= lo <= hi <= ColorRangeEnd
    ensures Ordered(c, false) && forall k :: 0 <= k < |c| ==> lo < c[k] <= hi - 2
    ensures MultilevelThresholding(h, amount, Some(lo as real), Some(hi as real)) == Success(c)
  {
    LevelsNormalise(lo, hi);
    CutsShape(h, amount, lo, hi);
    MultilevelIn(h, amount, lo, hi)
  }

  /**
   * `#getRangesAuto`. With an auto threshold the stops are the automatic
   * cuts for `#getSteps(true)` levels; with a pinned threshold t they are
   * the cuts for one level fewer on [0, t] followed by t (blackOnWhite) or
   * t followed by the cuts on [t, 255]; the list is then reversed for
   * blackOnWhite. The range never fails to normalise; the stops come out
   * strictly descending for blackOnWhite and ascending otherwise, and a
   * pinned threshold that is a level is the first stop.
   */
  function RangesAuto(p: Posterizer, h: Hist): (r: (Result<seq<int>, string>, Posterizer))
    requires h.Valid()
    requires p.threshold == ThresholdAuto || 0 <= GetThreshold(p, h).0 <= ColorRangeEnd
    ensures r.1 == p || r.1 == GetThreshold(p, h).1
    ensures r.0.Success? && Ordered(r.0.value, p.blackOnWhite) && AllLevels(r.0.value)
    ensures p.threshold != ThresholdAuto ==> r.0.value != [] && r.0.value[0] == GetThreshold(p, h).0
  {
    var (n, p1) := GetSteps(p, h, true);
    var steps := n.value;
    if p.threshold == ThresholdAuto then
      assert NormalizeMinMax(None, None) == NormalizeMinMax(Some(0.0), Some(ColorRangeEnd as real));
      (Success(AutoStops(h, steps, p.blackOnWhite)), p1)
    else
      var (t, p2) := GetThreshold(p1, h);
      (Success(PinnedStops(h, steps, t, p.blackOnWhite)), p2)
  }

  /** The automatic cuts on [0, 255], in stop order. */
  function AutoStops(h: Hist, steps: int, blackOnWhite: bool): (s: seq<int>)
    requires h.Valid()
    ensures Ordered(s, blackOnWhite) && AllLevels(s)
    ensures MultilevelThresholding(h, steps as real, Some(0.0), Some(ColorRangeEnd as real)).Success?
    ensures var c := MultilevelThresholding(h, steps as real, Some(0.0), Some(ColorRangeEnd as real)).value;
      s == if blackOnWhite then Reversed(c) else c
  {
    var c := PinnedCuts(h, steps as real, 0, ColorRangeEnd);
    if blackOnWhite then
      ReversedOrder(c, true);
      Reversed(c)
    else c
  }

  /**
   * A pinned threshold t with the cuts for one level fewer on its side:
   * [0, t] then t for blackOnWhite (reversed), t then [t, 255] otherwise.
   */
  function PinnedStops(h: Hist, steps: int, t: int, blackOnWhite: bool): (s: seq<int>)
    requires h.Valid() && 0 <= t <= ColorRangeEnd
    ensures Ordered(s, blackOnWhite) && AllLevels(s) && s != [] && s[0] == t
    ensures blackOnWhite ==> s == Reversed(PinnedCuts(h, (steps - 1) as real, 0, t) + [t])
    ensures !blackOnWhite ==> s == [t] + PinnedCuts(h, (steps - 1) as real, t, ColorRangeEnd)
  {
    if blackOnWhite then
      var up := PinnedCuts(h, (steps - 1) as real, 0, t) + [t];
      AppendAbove(PinnedCuts(h, (steps - 1) as real, 0, t), t);
      ReversedOrder(up, true);
      Reversed(up)
    else
      PrependBelow(t, PinnedCuts(h, (steps - 1) as real, t, ColorRangeEnd));
      [t] + PinnedCuts(h, (steps - 1) as real, t, ColorRangeEnd)
  }

  lemma AppendAbove(c: seq<int>, t: int)
    requires Ordered(c, false) && forall k :: 0 <= k < |c| ==> c[k] < t
    ensures Ordered(c + [t], false)
  {
    var up := c + [t];
    forall i, j | 0 <= i < j < |up|
      ensures up[i] < up[j]
    {
      if j < |c| {
        assert up[i] == c[i] && up[j] == c[j];
      }
    }
  }

  lemma PrependBelow(t: int, c: seq<int>)
    requires Ordered(c, false) && forall k :: 0 <= k < |c| ==> t < c[k]
    ensures Ordered([t] + c, false)
  {
    var up := [t] + c;
    forall i, j | 0 <= i < j < |up|
      ensures up[i] < up[j]
    {
      assert up[j] == c[j - 1];
      if i > 0 {
        assert up[i] == c[i - 1];
      }
    }
  }

  // ----- the intensity of each stop -----

  function AsReals(s: seq<int>): (r: seq<real>)
    ensures |r| == |s| && forall k :: 0 <= k < |s| ==> r[k] == s[k] as real
  {
    seq(|s|, k requires 0 <= k < |s| => s[k] as real)
  }

  /**
   * The levels [rangeStart, rangeEnd] a stop stands for: from just above
   * the next stop up to the stop for blackOnWhite (the last reaching down
   * to 0), from the stop up to just below the next otherwise (the last
   * reaching 255). Both ends are rounded.
   */
  function RangeOf(stops: seq<real>, k: int, blackOnWhite: bool): (int, int)
    requires 0 <= k < |stops|
  {
    var next := if k + 1 == |stops| then (if blackOnWhite then -1.0 else 256.0) else stops[k + 1];
    (Round(if blackOnWhite then next + 1.0 else stops[k]), Round(if blackOnWhite then stops[k] else next - 1.0))
  }

  lemma RoundShift(x: real)
    ensures Round(x + 1.0) == Round(x) + 1 && Round(x - 1.0) == Round(x) - 1
  {
  }

  /**
   * The ranges tile the levels without gap or overlap: for blackOnWhite the
   * first ends at the first stop, each starts just above the end of the
   * next one, and the last starts at 0; mirrored otherwise, the last ending
   * at 255.
   */
  lemma RangesTile(stops: seq<real>, blackOnWhite: bool)
    requires |stops| >= 1
    ensures blackOnWhite ==>
      RangeOf(stops, 0, true).1 == Round(stops[0]) && RangeOf(stops, |stops| - 1, true).0 == 0
    ensures !blackOnWhite ==>
      RangeOf(stops, 0, false).0 == Round(stops[0]) && RangeOf(stops, |stops| - 1, false).1 == ColorRangeEnd
    ensures forall k :: 0 <= k < |stops| - 1 ==>
      if blackOnWhite then RangeOf(stops, k, true).0 == RangeOf(stops, k + 1, true).1 + 1
      else RangeOf(stops, k, false).1 + 1 == RangeOf(stops, k + 1, false).0
  {
    forall k | 0 <= k < |stops| - 1
      ensures if blackOnWhite then RangeOf(stops, k, true).0 == RangeOf(stops, k + 1, true).1 + 1
        else RangeOf(stops, k, false).1 + 1 == RangeOf(stops, k + 1, false).0
    {
      RoundShift(stops[k + 1]);
    }
  }

  /** Strictly ordered levels give ranges that each hold at least one level. */
  lemma RangesNonEmpty(s: seq<int>, blackOnWhite: bool)
    requires Ordered(s, blackOnWhite) && AllLevels(s)
    ensures forall k :: 0 <= k < |s| ==> RangeOf(AsReals(s), k, blackOnWhite).0 <= RangeOf(AsReals(s), k, blackOnWhite).1
    ensures forall k :: 0 <= k < |s| ==> 0 <= RangeOf(AsReals(s), k, blackOnWhite).0
    ensures forall k :: 0 <= k < |s| ==> RangeOf(AsReals(s), k, blackOnWhite).1 <= ColorRangeEnd
  {
    var r := AsReals(s);
    forall k | 0 <= k < |s|
      ensures 0 <= RangeOf(r, k, blackOnWhite).0 <= RangeOf(r, k, blackOnWhite).1 <= ColorRangeEnd
    {
      RoundInt(s[k]);
      if k + 1 < |s| {
        RoundInt(s[k + 1] + 1);
        RoundInt(s[k + 1] - 1);
        assert (s[k + 1] + 1) as real == r[k + 1] + 1.0;
        assert (s[k + 1] - 1) as real == r[k + 1] - 1.0;
        assert Precedes(s[k], s[k + 1], blackOnWhite);
      } else {
        RoundInt(0);
        RoundInt(ColorRangeEnd);
      }
    }
  }

  /**
   * The SPREAD colour: from the range's saturated end, a share `factor` =
   * k/(len-1) of the interval widened by max(0.5, fullRange/255); None is
   * the NaN of 0/0 when there is a single stop.
   */
  function SpreadColor(start: int, end: int, blackOnWhite: bool, fullRange: int, k: int, len: int): (c: Option<real>)
    requires 0 <= k < len
    ensures c.None? <==> len == 1
    ensures c.Some? && k == 0 ==> c.value == (if blackOnWhite then start else end) as real
    ensures c.Some? && start <= end && 0 <= fullRange <= ColorRangeEnd ==> start as real <= c.value <= end as real
  {
    if len == 1 then None
    else
      var shift := Shift((end - start) as real, Widen(fullRange), Share(k, len));
      Some(if blackOnWhite then start as real + shift else end as real - shift)
  }

  /** max(0.5, fullRange/255): at most 1 for a full range within the levels. */
  function Widen(fullRange: int): (w: real)
    ensures 0 <= fullRange <= ColorRangeEnd ==> 0.5 <= w <= 1.0
  {
    if 0.5 > fullRange as real / 255.0 then 0.5 else fullRange as real / 255.0
  }

  /** k/(len-1): the share of stop k, from 0 for the first to 1 for the last. */
  function Share(k: int, len: int): (f: real)
    requires 0 <= k < len && len > 1
    ensures 0.0 <= f <= 1.0 && (k == 0 ==> f == 0.0)
  {
    var f := k as real / (len - 1) as real;
    assert f * (len - 1) as real == k as real;
    f
  }

  /** The distance of a SPREAD colour from the range's saturated end. */
  function Shift(size: real, widen: real, factor: real): (s: real)
    ensures factor == 0.0 ==> s == 0.0
    ensures 0.0 <= size && 0.0 <= widen <= 1.0 && 0.0 <= factor <= 1.0 ==> 0.0 <= s <= size
  {
    SpreadWithin(size, widen, factor);
    size * widen * factor
  }

  lemma SpreadWithin(size: real, widen: real, factor: real)
    ensures factor == 0.0 ==> size * widen * factor == 0.0
    ensures 0.0 <= size && 0.0 <= widen <= 1.0 && 0.0 <= factor <= 1.0 ==> 0.0 <= size * widen * factor <= size
  {
    if 0.0 <= size && 0.0 <= widen <= 1.0 && 0.0 <= factor <= 1.0 {
      assert size * widen <= size;
      assert 0.0 <= size * widen;
      assert size * widen * factor <= size * widen;
    }
  }

  /**
   * The spacing every stop but the first gets: its colour is clamped to its
   * range less a tenth of the interval at the end nearer the next stop.
   */
  function SpacedBounds(start: int, end: int, blackOnWhite: bool): (int, int)
  {
    var margin := Round((end - start) as real * 0.1);
    if blackOnWhite then (start, end - margin) else (start + margin, end)
  }

  function Spaced(color: Option<real>, start: int, end: int, blackOnWhite: bool, k: int): (r: Option<real>)
    ensures r.None? <==> color.None?
    ensures k == 0 ==> r == color
    ensures var (lo, hi) := SpacedBounds(start, end, blackOnWhite);
      k != 0 && r.Some? && lo <= hi ==> lo as real <= r.value <= hi as real
    ensures var (lo, hi) := SpacedBounds(start, end, blackOnWhite);
      k != 0 && r.Some? && lo as real <= color.value <= hi as real ==> r == color
  {
    if k == 0 || color.None? then color
    else
      var (lo, hi) := SpacedBounds(start, end, blackOnWhite);
      Some(Clamp(color.value, lo as real, hi as real))
  }

  /** The grey level an intensity stands for. */
  function LevelOf(intensity: real, blackOnWhite: bool): real
  {
    if blackOnWhite then 255.0 - 255.0 * intensity else 255.0 * intensity
  }

  /**
   * `colorIntensity`: 0 for the colour -1 (no colour), otherwise the
   * distance from the background as a share of 255. Every other colour can
   * be read back from its intensity, and a level gives an intensity in [0, 1].
   */
  function Intensity(color: Option<real>, blackOnWhite: bool): (i: Option<real>)
    ensures i.None? <==> color.None?
    ensures color == Some(-1.0) ==> i == Some(0.0)
    ensures color.Some? && color.value != -1.0 ==> LevelOf(i.value, blackOnWhite) == color.value
    ensures color.Some? && 0.0 <= color.value <= 255.0 ==> 0.0 <= i.value <= 1.0
  {
    if color.None? then None
    else if color.value == -1.0 then Some(0.0)
    else Some((if blackOnWhite then 255.0 - color.value else color.value) / 255.0)
  }

  /** A stop and the intensity of its layer (None for NaN). */
  datatype ColorStop = ColorStop(value: real, colorIntensity: Option<real>)

  /** The histogram queries of a strategy other than SPREAD throw on a range that does not normalise. */
  predicate RangeFails(stops: seq<real>, k: int, blackOnWhite: bool, fill: FillStrategy)
    requires 0 <= k < |stops|
  {
    var (start, end) := RangeOf(stops, k, blackOnWhite);
    fill != Spread && NormalizeMinMax(Some(start as real), Some(end as real)).Failure?
  }

  /** The histogram holds no pixel in the stop's range (SPREAD does not look). */
  predicate EmptyRange(h: Hist, stops: seq<real>, k: int, blackOnWhite: bool, fill: FillStrategy)
    requires h.Valid() && 0 <= k < |stops|
  {
    var (start, end) := RangeOf(stops, k, blackOnWhite);
    var n := NormalizeMinMax(Some(start as real), Some(end as real));
    fill != Spread && n.Success? && ComputeStats(h, n.value.0, n.value.1).pixels == 0
  }

  /** What the intensity of stop k satisfies when it is computed. */
  predicate StopOk(h: Hist, stops: seq<real>, k: int, blackOnWhite: bool, fill: FillStrategy, cs: ColorStop)
    requires h.Valid() && 0 <= k < |stops|
  {
    var (start, end) := RangeOf(stops, k, blackOnWhite);
    var (lo, hi) := SpacedBounds(start, end, blackOnWhite);
    && !RangeFails(stops, k, blackOnWhite, fill)
    && cs.value == stops[k]
    && (EmptyRange(h, stops, k, blackOnWhite, fill) ==> cs.colorIntensity == Some(0.0))
    && (cs.colorIntensity.None? <==> fill == Spread && |stops| == 1)
    && (k != 0 && !EmptyRange(h, stops, k, blackOnWhite, fill) && 0 <= lo <= hi ==>
          cs.colorIntensity.Some? && lo as real <= LevelOf(cs.colorIntensity.value, blackOnWhite) <= hi as real)
  }

  /**
   * One element of `#calcColorIntensity`: an empty range gives intensity 0
   * at once; otherwise the strategy's colour (SPREAD's formula, the
   * dominant colour with tolerance clamp(intervalSize, 1, 5), the mean or
   * the median of the range, or -1 for an unknown strategy), spaced for
   * every stop but the first, becomes the intensity. A layer after the
   * first always takes a grey level inside its spaced range.
   */
  method StopIntensity(h: Hist, stops: seq<real>, k: int, blackOnWhite: bool, fill: FillStrategy, fullRange: int)
    returns (r: Result<ColorStop, string>)
    requires h.Valid() && 0 <= k < |stops|
    ensures r.Failure? <==> RangeFails(stops, k, blackOnWhite, fill)
    ensures r.Success? ==> StopOk(h, stops, k, blackOnWhite, fill, r.value)
    ensures r.Success? && k == 0 && (fill == Mean || fill == Median) && !EmptyRange(h, stops, k, blackOnWhite, fill) ==>
      var (start, end) := RangeOf(stops, k, blackOnWhite);
      var n := NormalizeMinMax(Some(start as real), Some(end as real)).value;
      r.value.colorIntensity.Some? && n.0 as real <= LevelOf(r.value.colorIntensity.value, blackOnWhite) <= n.1 as real
  {
    var (start, end) := RangeOf(stops, k, blackOnWhite);
    if fill == Spread {
      var color := SpreadColor(start, end, blackOnWhite, fullRange, k, |stops|);
      SpreadStopOk(h, stops, k, blackOnWhite, color);
      return Success(SpacedStop(stops, k, blackOnWhite, color));
    }
    var q := QueriedColor(h, start, end, fill);
    if q.Failure? {
      return Failure(q.error);
    }
    if q.value.None? {
      return Success(ColorStop(stops[k], Some(0.0)));
    }
    QueriedStopOk(h, stops, k, blackOnWhite, fill, q.value);
    r := Success(SpacedStop(stops, k, blackOnWhite, q.value));
  }

  /** SPREAD never fails and reads no pixel: its stop is as StopOk describes. */
  lemma SpreadStopOk(h: Hist, stops: seq<real>, k: int, blackOnWhite: bool, color: Option<real>)
    requires h.Valid() && 0 <= k < |stops|
    requires color.None? <==> |stops| == 1
    ensures StopOk(h, stops, k, blackOnWhite, Spread, SpacedStop(stops, k, blackOnWhite, color))
  {
  }

  /** A colour read from a non-empty range that normalises gives a stop as StopOk describes. */
  lemma QueriedStopOk(h: Hist, stops: seq<real>, k: int, blackOnWhite: bool, fill: FillStrategy, color: Option<real>)
    requires h.Valid() && 0 <= k < |stops| && fill != Spread && color.Some?
    requires !RangeFails(stops, k, blackOnWhite, fill) && !EmptyRange(h, stops, k, blackOnWhite, fill)
    ensures StopOk(h, stops, k, blackOnWhite, fill, SpacedStop(stops, k, blackOnWhite, color))
  {
  }

  /**
   * The stop with the intensity of its spaced colour: the level it stands
   * for is the colour itself on the first stop and lies inside the spaced
   * range on every later one.
   */
  function SpacedStop(stops: seq<real>, k: int, blackOnWhite: bool, color: Option<real>): (cs: ColorStop)
    requires 0 <= k < |stops|
    ensures cs.value == stops[k]
    ensures cs.colorIntensity.None? <==> color.None?
    ensures k == 0 && color.Some? && color.value != -1.0 ==>
      LevelOf(cs.colorIntensity.value, blackOnWhite) == color.value
    ensures var (start, end) := RangeOf(stops, k, blackOnWhite);
      var (lo, hi) := SpacedBounds(start, end, blackOnWhite);
      k != 0 && color.Some? && 0 <= lo <= hi ==>
        lo as real <= LevelOf(cs.colorIntensity.value, blackOnWhite) <= hi as real
  {
    var (start, end) := RangeOf(stops, k, blackOnWhite);
    ColorStop(stops[k], Intensity(Spaced(color, start, end, blackOnWhite, k), blackOnWhite))
  }

  /**
   * The colour a strategy other than SPREAD reads from the histogram over
   * [start, end]: a failure when the range does not normalise, Success(None)
   * when it holds no pixel, otherwise the dominant colour (-1 or a level),
   * the mean or the median of the range, or -1 for an unknown strategy.
   */
  method QueriedColor(h: Hist, start: int, end: int, fill: FillStrategy) returns (r: Result<Option<real>, string>)
    requires h.Valid() && fill != Spread
    ensures var n := NormalizeMinMax(Some(start as real), Some(end as real));
      && (r.Failure? <==> n.Failure?)
      && (r.Success? ==> (r.value.None? <==> ComputeStats(h, n.value.0, n.value.1).pixels == 0))
      && (r.Success? && r.value.Some? ==> r.value.value == -1.0 || 0.0 <= r.value.value <= 255.0)
      && (r.Success? && r.value.Some? && (fill == Mean || fill == Median) ==>
            n.value.0 as real <= r.value.value <= n.value.1 as real)
  {
    var n := NormalizeMinMax(Some(start as real), Some(end as real));
    if n.Failure? {
      return Failure(n.error);
    }
    var st := ComputeStats(h, n.value.0, n.value.1);
    if st.pixels == 0 {
      return Success(None);
    }
    match fill {
      case Dominant =>
        var d := GetDominantColor(h, start as real, end as real, ClampInt(end - start, 1, 5));
        r := Success(Some(d.value as real));
      case Mean =>
        r := Success(st.levelsMean);
      case Median =>
        r := Success(Some(st.levelsMedian as real));
      case UnknownFill =>
        r := Success(Some(-1.0));
    }
  }

  /**
   * `#calcColorIntensity`: the intensities of all stops, or the error of
   * the first stop whose range does not normalise.
   */
  method ColorIntensities(h: Hist, stops: seq<real>, blackOnWhite: bool, fill: FillStrategy, fullRange: int)
    returns (r: Result<seq<ColorStop>, string>)
    requires h.Valid()
    ensures r.Failure? <==> exists k :: 0 <= k < |stops| && RangeFails(stops, k, blackOnWhite, fill)
    ensures r.Success? ==> |r.value| == |stops|
    ensures r.Success? ==> forall k :: 0 <= k < |stops| ==> StopOk(h, stops, k, blackOnWhite, fill, r.value[k])
  {
    var acc: seq<ColorStop> := [];
    var i := 0;
    while i < |stops|
      invariant 0 <= i <= |stops| && |acc| == i
      invariant forall k :: 0 <= k < i ==> StopOk(h, stops, k, blackOnWhite, fill, acc[k])
    {
      var cs := StopIntensity(h, stops, i, blackOnWhite, fill, fullRange);
      if cs.Failure? {
        return Failure(cs.error);
      }
      StopsOkSnoc(h, stops, blackOnWhite, fill, acc, cs.value);
      acc := acc + [cs.value];
      i := i + 1;
    }
    forall k | 0 <= k < |stops|
      ensures !RangeFails(stops, k, blackOnWhite, fill)
    {
      assert StopOk(h, stops, k, blackOnWhite, fill, acc[k]);
    }
    r := Success(acc);
  }

  /** Appending the next stop's result keeps every computed stop as StopOk describes it. */
  lemma StopsOkSnoc(h: Hist, stops: seq<real>, blackOnWhite: bool, fill: FillStrategy, acc: seq<ColorStop>, cs: ColorStop)
    requires h.Valid() && |acc| < |stops|
    requires forall k :: 0 <= k < |acc| ==> StopOk(h, stops, k, blackOnWhite, fill, acc[k])
    requires StopOk(h, stops, |acc|, blackOnWhite, fill, cs)
    ensures forall k :: 0 <= k <= |acc| ==> StopOk(h, stops, k, blackOnWhite, fill, (acc + [cs])[k])
  {
    var r := acc + [cs];
    forall k | 0 <= k <= |acc|
      ensures StopOk(h, stops, k, blackOnWhite, fill, r[k])
    {
      if k < |acc| {
        assert r[k] == acc[k];
      } else {
        assert r[k] == cs;
      }
    }
  }

  /** Ordered levels never make the intensity computation throw. */
  lemma OrderedLevelsNeverFail(s: seq<int>, blackOnWhite: bool, fill: FillStrategy)
    requires Ordered(s, blackOnWhite) && AllLevels(s)
    ensures forall k :: 0 <= k < |s| ==> !RangeFails(AsReals(s), k, blackOnWhite, fill)
  {
    RangesNonEmpty(s, blackOnWhite);
    forall k | 0 <= k < |s|
      ensures !RangeFails(AsReals(s), k, blackOnWhite, fill)
    {
      var (start, end) := RangeOf(AsReals(s), k, blackOnWhite);
      LevelsNormalise(start, end);
    }
  }

  // ----- getRanges -----

  /**
   * The threshold is auto or a level (what parameter validation lets
   * through), and the memo, when set, holds what a fresh query computes.
   */
  predicate Sane(p: Posterizer, h: Hist)
    requires h.Valid()
  {
    && (p.threshold == ThresholdAuto || 0 <= p.threshold <= ColorRangeEnd)
    && (p.calculated.None? || p.calculated == Some(GetThreshold(Invalidate(p), h).0))
  }

  /** A sane posterizer's threshold is a level, and querying it keeps the posterizer sane. */
  lemma SaneThreshold(p: Posterizer, h: Hist)
    requires h.Valid() && Sane(p, h)
    ensures 0 <= GetThreshold(p, h).0 <= ColorRangeEnd
    ensures Sane(GetThreshold(p, h).1, h) && Sane(Invalidate(p), h)
  {
  }

  /**
   * `getRanges` as it runs: `#getSteps()` is a number, so the stops come
   * from `#getRangesAuto` or `#getRangesEquallyDistributed` and then get
   * their intensities, with fullRange = |threshold - 0| for blackOnWhite
   * and |threshold - 255| otherwise. Automatic stops never make it throw,
   * and the first stop is the threshold for equal distribution and for a
   * pinned threshold.
   */
  method GetRanges(p: Posterizer, h: Hist) returns (r: Result<seq<ColorStop>, string>, q: Posterizer)
    requires h.Valid() && Sane(p, h)
    ensures q == GetThreshold(p, h).1 && Sane(q, h)
    ensures p.rangeDistribution == AutoRanges ==> r.Success?
    ensures r.Success? && r.value != [] && (p.rangeDistribution == EqualRanges || p.threshold != ThresholdAuto) ==>
      r.value[0].value == GetThreshold(p, h).0 as real
  {
    SaneThreshold(p, h);
    var stops, p1 := StopsOf(p, h);
    ThresholdCached(p, h);
    var (t, p2) := GetThreshold(p1, h);
    var fullRange := if p.blackOnWhite then t else ColorRangeEnd - t;
    r := ColorIntensities(h, stops, p.blackOnWhite, p.fillStrategy, fullRange);
    q := p2;
    if r.Success? && r.value != [] {
      StopOkValue(h, stops, 0, p.blackOnWhite, p.fillStrategy, r.value[0]);
    }
  }

  /**
   * The stops `getRanges` computes intensities for: automatic stops, which
   * never make the intensities throw, or equally distributed ones; the first
   * is the threshold unless the threshold itself is automatic and so are
   * the stops.
   */
  method StopsOf(p: Posterizer, h: Hist) returns (stops: seq<real>, p1: Posterizer)
    requires h.Valid() && Sane(p, h)
    ensures p1 == p || p1 == GetThreshold(p, h).1
    ensures p.rangeDistribution == AutoRanges ==>
      forall k :: 0 <= k < |stops| ==> !RangeFails(stops, k, p.blackOnWhite, p.fillStrategy)
    ensures stops != [] && (p.rangeDistribution == EqualRanges || p.threshold != ThresholdAuto) ==>
      stops[0] == GetThreshold(p, h).0 as real
  {
    SaneThreshold(p, h);
    if p.rangeDistribution == AutoRanges {
      var (res, q1) := RangesAuto(p, h);
      OrderedLevelsNeverFail(res.value, p.blackOnWhite, p.fillStrategy);
      stops, p1 := AsReals(res.value), q1;
    } else {
      var (res, q1) := RangesEqual(p, h);
      stops, p1 := res, q1;
    }
  }

  /** Once computed, the threshold is cached: asking again returns the same value and posterizer. */
  lemma ThresholdCached(p: Posterizer, h: Hist)
    requires h.Valid()
    ensures GetThreshold(GetThreshold(p, h).1, h) == GetThreshold(p, h)
  {
  }

  /** A computed stop keeps its value. */
  lemma StopOkValue(h: Hist, stops: seq<real>, k: int, blackOnWhite: bool, fill: FillStrategy, cs: ColorStop)
    requires h.Valid() && 0 <= k < |stops| && StopOk(h, stops, k, blackOnWhite, fill, cs)
    ensures cs.value == stops[k]
  {
  }

  // ----- composing the layers -----

  /** n thousandths. */
  function Thousandths(n: int): (r: real)
    ensures r * 1000.0 == n as real
  {
    n as real / 1000.0
  }

  /** Math.round of a magnitude in thousandths: its distance to the magnitude is at most a half. */
  lemma NearestThousandth(m: real)
    requires 0.0 <= m
    ensures var n := (m * 1000.0 + 0.5).Floor;
      m - 0.0005 <= Thousandths(n) <= m + 0.0005
  {
    var n := (m * 1000.0 + 0.5).Floor;
    assert n as real <= m * 1000.0 + 0.5 < n as real + 1.0;
    assert Thousandths(n) * 1000.0 == n as real;
  }

  /**
   * `parseFloat(x.toFixed(3))`: x rounded to three decimals, halves away
   * from zero.
   */
  function Fixed3(x: real): (r: real)
    ensures x - 0.0005 <= r <= x + 0.0005
    ensures (r * 1000.0).Floor as real == r * 1000.0
  {
    if x >= 0.0 then Magnitude3(x)
    else
      var m := Magnitude3(-x);
      Negated3(m);
      -m
  }

  /** A magnitude rounded to the nearest thousandth, halves up. */
  function Magnitude3(m: real): (r: real)
    requires 0.0 <= m
    ensures m - 0.0005 <= r <= m + 0.0005
    ensures r == Thousandths((m * 1000.0 + 0.5).Floor)
  {
    NearestThousandth(m);
    Thousandths((m * 1000.0 + 0.5).Floor)
  }

  /** Whole thousandths stay whole under negation. */
  lemma Negated3(m: real)
    requires (m * 1000.0).Floor as real == m * 1000.0
    ensures ((-m) * 1000.0).Floor as real == (-m) * 1000.0
  {
    var n := (m * 1000.0).Floor;
    assert (-m) * 1000.0 == (-n) as real;
  }

  /** A value with three decimals comes back unchanged. */
  lemma Fixed3Exact(n: int)
    ensures Fixed3(Thousandths(n)) == Thousandths(n)
  {
    var x := Thousandths(n);
    if n < 0 {
      assert (-x) * 1000.0 + 0.5 == (-n) as real + 0.5;
      assert ((-x) * 1000.0 + 0.5).Floor == -n;
    } else {
      assert x * 1000.0 + 0.5 == n as real + 0.5;
      assert (x * 1000.0 + 0.5).Floor == n;
    }
  }

  /**
   * A layer of `#getPathTags`: skipped (an empty tag, for a zero intensity
   * or a zero rounded opacity) or painted with an opacity (None for NaN).
   */
  datatype Layer = Skipped | Painted(opacity: Option<real>)

  /**
   * The opacity of a layer of non-zero intensity x over layers of combined
   * opacity prev: x itself for the first painted layer (prev 0, or NaN,
   * both falsy) and for x = 1, otherwise (prev - x) / (prev - 1), the share
   * that brings the composite from prev to x; rounded to three decimals and
   * clamped to [0, 1]. When prev is 1 the quotient is an infinity of the
   * sign of 1 - x, which the clamp turns into 1 or 0.
   */
  function LayerOpacity(prev: Option<real>, x: Option<real>): (o: Option<real>)
    requires x != Some(0.0)
    ensures o.None? <==> x.None?
    ensures o.Some? ==> 0.0 <= o.value <= 1.0
  {
    if x.None? then None
    else if prev.None? || prev.value == 0.0 || x.value == 1.0 then Some(Clamp(Fixed3(x.value), 0.0, 1.0))
    else if prev.value == 1.0 then Some(if 1.0 - x.value > 0.0 then 1.0 else 0.0)
    else Some(Clamp(Fixed3((prev.value - x.value) / (prev.value - 1.0)), 0.0, 1.0))
  }

  /** `actualPrevLayersOpacity += (1 - actualPrevLayersOpacity) * opacity`. */
  function Over(prev: Option<real>, o: Option<real>): (r: Option<real>)
    ensures r.None? <==> prev.None? || o.None?
    ensures r.Some? ==> 1.0 - r.value == (1.0 - prev.value) * (1.0 - o.value)
    ensures r.Some? && 0.0 <= prev.value <= 1.0 && 0.0 <= o.value <= 1.0 ==> prev.value <= r.value <= 1.0
  {
    if prev.None? || o.None? then None
    else
      var a, b := prev.value, o.value;
      ShareBounds(a, b);
      Some(a + (1.0 - a) * b)
  }

  lemma ShareBounds(a: real, b: real)
    ensures 0.0 <= a <= 1.0 && 0.0 <= b <= 1.0 ==> 0.0 <= (1.0 - a) * b <= 1.0 - a
  {
  }

  /**
   * The opacity loop of `#getPathTags` over the stops' intensities, from a
   * combined opacity of 0: the layers and the combined opacity after them.
   * A zero intensity is skipped; `canBeIgnored` drops every layer whose
   * opacity comes out as 0, so no painted layer is fully transparent; a
   * NaN intensity is painted with a NaN opacity.
   */
  function Composite(xs: seq<Option<real>>): (r: (seq<Layer>, Option<real>))
    ensures |r.0| == |xs|
    ensures forall k :: 0 <= k < |xs| && xs[k] == Some(0.0) ==> r.0[k].Skipped?
    ensures forall k :: 0 <= k < |xs| && xs[k].None? ==> r.0[k] == Painted(None)
    ensures forall k :: 0 <= k < |xs| && r.0[k].Painted? ==> r.0[k].opacity != Some(0.0)
  {
    if xs == [] then ([], Some(0.0))
    else
      var (layers, prev) := Composite(xs[..|xs| - 1]);
      AddLayer(layers, prev, xs[|xs| - 1])
  }

  /**
   * One pass of the loop: a zero intensity leaves an empty tag and the
   * combined opacity as it is; a layer whose opacity rounds to 0 is
   * composited (which changes nothing) but its tag is dropped.
   */
  function AddLayer(layers: seq<Layer>, prev: Option<real>, x: Option<real>): (r: (seq<Layer>, Option<real>))
    ensures |r.0| == |layers| + 1 && r.0[..|layers|] == layers
    ensures r.0[|layers|].Skipped? <==> x == Some(0.0) || LayerOpacity(prev, x) == Some(0.0)
    ensures r.0[|layers|].Painted? ==> r.0[|layers|].opacity == LayerOpacity(prev, x)
    ensures r.0[|layers|].Skipped? && prev.Some? ==> r.1 == prev
  {
    if x == Some(0.0) then (layers + [Skipped], prev)
    else
      var o := LayerOpacity(prev, x);
      (layers + [if o == Some(0.0) then Skipped else Painted(o)], Over(prev, o))
  }

  /** No intensity is NaN. */
  predicate Defined(xs: seq<Option<real>>)
  {
    forall k :: 0 <= k < |xs| ==> xs[k].Some?
  }

  /** The combined opacity after the first k layers. */
  function Combined(xs: seq<Option<real>>, k: nat): Option<real>
    requires k <= |xs|
  {
    Composite(xs[..k]).1
  }

  /** With no NaN intensity the combined opacity is always defined and in [0, 1]. */
  lemma {:induction false} CombinedInUnit(xs: seq<Option<real>>)
    requires Defined(xs)
    ensures Composite(xs).1.Some? && 0.0 <= Composite(xs).1.value <= 1.0
  {
    if xs != [] {
      var init := xs[..|xs| - 1];
      CombinedInUnit(init);
    }
  }

  /** Adding a layer never lowers the combined opacity. */
  lemma CombinedStep(xs: seq<Option<real>>, k: nat)
    requires Defined(xs) && k < |xs|
    ensures Combined(xs, k).Some? && Combined(xs, k + 1).Some?
    ensures Combined(xs, k).value <= Combined(xs, k + 1).value <= 1.0
  {
    var a, b := xs[..k], xs[..k + 1];
    assert b[..k] == a;
    CombinedInUnit(a);
    CombinedInUnit(b);
  }

  /** The combined opacity never decreases from one layer to a later one. */
  lemma {:induction false} CombinedNeverDecreases(xs: seq<Option<real>>, j: nat, k: nat)
    requires Defined(xs) && j <= k <= |xs|
    ensures Combined(xs, j).Some? && Combined(xs, k).Some?
    ensures 0.0 <= Combined(xs, j).value <= Combined(xs, k).value <= 1.0
    decreases k - j
  {
    CombinedInUnit(xs[..j]);
    if j < k {
      CombinedStep(xs, j);
      CombinedNeverDecreases(xs, j + 1, k);
    }
  }

  /** The layers of a prefix are the prefix of the layers. */
  lemma {:induction false} CompositePrefix(xs: seq<Option<real>>, k: nat)
    requires k <= |xs|
    ensures Composite(xs[..k]).0 == Composite(xs).0[..k]
    decreases |xs|
  {
    if k < |xs| {
      var init := xs[..|xs| - 1];
      assert init[..k] == xs[..k];
      CompositePrefix(init, k);
    } else {
      assert xs[..k] == xs;
    }
  }

  /** The share of light that passes the painted layers: the product of 1 - opacity. */
  function Through(layers: seq<Layer>): real
  {
    if layers == [] then 1.0
    else Through(layers[..|layers| - 1]) * Passes(layers[|layers| - 1])
  }

  /** The share of light one layer lets through. */
  function Passes(l: Layer): real
  {
    if l.Painted? && l.opacity.Some? then 1.0 - l.opacity.value else 1.0
  }

  lemma ThroughStep(layers: seq<Layer>, last: Layer)
    ensures Through(layers + [last]) == Through(layers) * Passes(last)
  {
    assert (layers + [last])[..|layers|] == layers;
  }

  /**
   * Alpha compositing: with no NaN intensity, one minus the combined
   * opacity is the product of one minus each painted layer's opacity.
   */
  lemma {:induction false} CompositeIsProduct(xs: seq<Option<real>>)
    requires Defined(xs)
    ensures Composite(xs).1.Some? && 1.0 - Composite(xs).1.value == Through(Composite(xs).0)
  {
    if xs != [] {
      var init := xs[..|xs| - 1];
      CompositeIsProduct(init);
      var (before, prev) := Composite(init);
      AddLayerProduct(before, prev, xs[|xs| - 1]);
    }
  }

  lemma AddLayerProduct(layers: seq<Layer>, prev: Option<real>, x: Option<real>)
    requires prev.Some? && x.Some? && 1.0 - prev.value == Through(layers)
    ensures var (after, next) := AddLayer(layers, prev, x);
      next.Some? && 1.0 - next.value == Through(after)
  {
    if x == Some(0.0) {
      ThroughStep(layers, Skipped);
      assert AddLayer(layers, prev, x) == (layers + [Skipped], prev);
    } else {
      var o := LayerOpacity(prev, x);
      if o == Some(0.0) {
        ThroughStep(layers, Skipped);
        assert AddLayer(layers, prev, x) == (layers + [Skipped], Over(prev, o));
      } else {
        assert AddLayer(layers, prev, x) == (layers + [Painted(o)], Over(prev, o));
        PaintedProduct(layers, prev.value, o.value);
      }
    }
  }

  lemma PaintedProduct(layers: seq<Layer>, prev: real, o: real)
    requires 1.0 - prev == Through(layers)
    ensures var next := Over(Some(prev), Some(o));
      next.Some? && 1.0 - next.value == Through(layers + [Painted(Some(o))])
  {
    ThroughStep(layers, Painted(Some(o)));
  }

  /**
   * Layers before the first non-zero intensity are skipped, so that one is
   * painted with its own intensity (rounded and clamped), unless that
   * rounds to 0 and the layer is dropped.
   */
  lemma FirstPaintedTakesOwnIntensity(xs: seq<Option<real>>, k: nat)
    requires k < |xs| && xs[k].Some? && xs[k] != Some(0.0)
    requires forall j :: 0 <= j < k ==> xs[j] == Some(0.0)
    ensures var o := Clamp(Fixed3(xs[k].value), 0.0, 1.0);
      Composite(xs).0[k] == if o == 0.0 then Skipped else Painted(Some(o))
  {
    ZeroPrefixCombined(xs, k);
    CompositePrefix(xs, k + 1);
    var front := xs[..k + 1];
    assert front[..k] == xs[..k] && front[k] == xs[k];
    var before := Composite(xs[..k]);
    assert before.1 == Some(0.0);
    assert Composite(front) == AddLayer(before.0, before.1, xs[k]);
    assert LayerOpacity(Some(0.0), xs[k]) == Some(Clamp(Fixed3(xs[k].value), 0.0, 1.0));
  }

  /**
   * Layer k is skipped exactly when its intensity is 0 or its opacity over
   * the layers before it rounds to 0.
   */
  lemma LayerSkippedExactly(xs: seq<Option<real>>, k: nat)
    requires k < |xs|
    ensures Composite(xs).0[k].Skipped? <==>
      xs[k] == Some(0.0) || LayerOpacity(Combined(xs, k), xs[k]) == Some(0.0)
  {
    CompositePrefix(xs, k + 1);
    var front := xs[..k + 1];
    assert front[..k] == xs[..k] && front[k] == xs[k];
    var before := Composite(xs[..k]);
    assert Composite(front) == AddLayer(before.0, before.1, xs[k]);
  }

  /** An intensity of 1/4000 rounds to opacity 0 as the first painted layer, so its tag is dropped. */
  lemma TinyIntensityDropped()
    ensures Composite([Some(0.00025)]).0 == [Skipped]
  {
    assert Fixed3(0.00025) == 0.0;
    assert Composite([Some(0.00025)]) == AddLayer([], Some(0.0), Some(0.00025));
  }

  lemma {:induction false} ZeroPrefixCombined(xs: seq<Option<real>>, k: nat)
    requires k <= |xs| && forall j :: 0 <= j < k ==> xs[j] == Some(0.0)
    ensures Combined(xs, k) == Some(0.0)
  {
    if k > 0 {
      ZeroPrefixCombined(xs, k - 1);
      assert xs[..k][..k - 1] == xs[..k - 1];
    }
  }

  lemma OverValue(a: real, b: real)
    ensures Over(Some(a), Some(b)).Some? && Over(Some(a), Some(b)).value == a + (1.0 - a) * b
  {
  }

  lemma QuotientInUnit(a: real, b: real)
    requires 0.0 <= a <= b && 0.0 < b
    ensures 0.0 <= a / b <= 1.0 && b * (a / b) == a
  {
    var q := a / b;
    assert q * b == a;
  }

  /**
   * The opacity formula does what it is for: over a combined opacity prev
   * in [0, 1), a layer of intensity x in [prev, 1] whose opacity needs no
   * rounding brings the combined opacity exactly to x.
   */
  lemma LayerReachesIntensity(prev: real, x: real)
    requires 0.0 <= prev < 1.0 && prev <= x <= 1.0 && x != 0.0
    requires prev != 0.0 && x != 1.0 ==> Fixed3((prev - x) / (prev - 1.0)) == (prev - x) / (prev - 1.0)
    requires prev == 0.0 ==> Fixed3(x) == x
    ensures var r := Over(Some(prev), LayerOpacity(Some(prev), Some(x)));
      r.Some? && r.value == x
  {
    if x == 1.0 {
      Fixed3Exact(1000);
      assert Fixed3(1.0) == 1.0;
    } else if prev != 0.0 {
      ReachOver(prev, x);
    } else {
      OverValue(prev, x);
      assert LayerOpacity(Some(prev), Some(x)).value == x;
    }
  }

  /** The middle case: the opacity (prev - x)/(prev - 1) lifts prev to x. */
  lemma ReachOver(prev: real, x: real)
    requires 0.0 < prev < 1.0 && prev <= x < 1.0
    requires Fixed3((prev - x) / (prev - 1.0)) == (prev - x) / (prev - 1.0)
    ensures var r := Over(Some(prev), LayerOpacity(Some(prev), Some(x)));
      r.Some? && r.value == x
  {
    var q := (prev - x) / (prev - 1.0);
    QuotientRestores(prev, x, q);
    assert LayerOpacity(Some(prev), Some(x)).value == q;
    OverValue(prev, q);
  }

  lemma QuotientRestores(prev: real, x: real, q: real)
    requires 0.0 <= prev < 1.0 && prev <= x <= 1.0 && q == (prev - x) / (prev - 1.0)
    ensures 0.0 <= q <= 1.0 && prev + (1.0 - prev) * q == x
  {
    NegateBoth(prev - x, prev - 1.0);
    QuotientInUnit(x - prev, 1.0 - prev);
  }

  // ----- #getPathTags -----

  /** The intensity of every stop, in order. */
  function Intensities(stops: seq<ColorStop>): (xs: seq<Option<real>>)
    ensures |xs| == |stops| && forall k :: 0 <= k < |stops| ==> xs[k] == stops[k].colorIntensity
  {
    seq(|stops|, k requires 0 <= k < |stops| => stops[k].colorIntensity)
  }

  /**
   * The layers of `#getPathTags` as intended: the ranges, then
   * `setParameters({ blackOnWhite })`, then the opacity loop over the
   * stops' intensities. On success the posterizer comes back with its
   * options and no memo; automatic stops never make it throw, and no
   * painted layer is fully transparent.
   */
  method PathLayers(p: Posterizer, h: Hist) returns (r: Result<seq<Layer>, string>, q: Posterizer)
    requires h.Valid() && Sane(p, h)
    ensures r.Success? ==> q == Invalidate(p)
    ensures r.Failure? ==> q == GetThreshold(p, h).1
    ensures p.rangeDistribution == AutoRanges ==> r.Success?
    ensures r.Success? ==> forall k :: 0 <= k < |r.value| && r.value[k].Painted? ==> r.value[k].opacity != Some(0.0)
  {
    var ranges, p1 := GetRanges(p, h);
    if ranges.Failure? {
      return Failure(ranges.error), p1;
    }
    q := SetParameters(p1, NoUpdate.(blackOnWhite := Some(p1.blackOnWhite)));
    r := Success(Composite(Intensities(ranges.value)).0);
  }

  /**
   * `#getPathTags` as written: once the ranges are computed,
   * `this.setParameters({ blackOnWhite })` throws, so neither `getSVG` nor
   * `getSymbol` ever returns markup.
   */
  method PathLayersAsWritten(p: Posterizer, h: Hist) returns (r: Result<seq<Layer>, string>)
    requires h.Valid() && Sane(p, h)
    ensures r.Failure?
  {
    var ranges, p1 := GetRanges(p, h);
    if ranges.Failure? {
      return Failure(ranges.error);
    }
    var reset := SetParametersAsWritten(p1, NoUpdate.(blackOnWhite := Some(p1.blackOnWhite)));
    r := match reset
      case Failure(e) => Failure(e)
      case Success(_) => Success(Composite(Intensities(ranges.value)).0);
  }

  lemma NegateBoth(a: real, b: real)
    requires b != 0.0
    ensures a / b == (-a) / (-b)
  {
    var q1, q2 := a / b, (-a) / (-b);
    assert q1 * b == a;
    assert q2 * (-b) == -a;
    assert q2 * b == a;
  }
}
