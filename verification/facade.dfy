/**
 * The `PotraceImage` facade of src/PotraceImage.ts: options as JavaScript
 * values, the validate-then-assign `setParameters`, the `imageLoaded` and
 * `processed` flags, `generatePathList` chaining the tracer, polygon and
 * curve stages, and `getPathTag`'s fill colour and lazy regeneration.
 *
 * The sqrt-based geometry of a path (the `penalty3` values, `adjustVertices`
 * and the fit of `optiPenalty`) enters through a `Kernels` parameter.
 */
module Facade {
  import opened Wrappers
  import opened Utils
  import opened Bitmaps
  import H = Histogram
  import T = Thresholding
  import G = Geometry
  import PathSums
  import Lon
  import Polygon
  import CurveFit

  // ---------------------------------------------------------------------
  // Option values
  // ---------------------------------------------------------------------

  /** A JavaScript value, as an option object can carry it. */
  datatype Value = Undefined | Null | NaN | Num(n: real) | Bool(b: bool) | Str(s: string)

  /** JavaScript truthiness, as `if (x)` and `x ? a : b` read a value. */
  predicate Truthy(v: Value)
  {
    match v
    case Undefined => false
    case Null => false
    case NaN => false
    case Num(n) => n != 0.0
    case Bool(b) => b
    case Str(s) => s != ""
  }

  /** The falsy values of JavaScript, listed one by one. */
  const Falsy: set<Value> := {Undefined, Null, NaN, Num(0.0), Bool(false), Str("")}

  /** Truthiness and the list of falsy values agree. */
  lemma TruthyIsNotFalsy(v: Value)
    ensures Truthy(v) <==> v !in Falsy
  {
  }

  /**
   * The number a comparison such as `area > turdSize` reads from a value;
   * None is NaN, for which every comparison is false.
   */
  function NumberOf(v: Value): (r: Option<real>)
    ensures v.Num? ==> r == Some(v.n)
    ensures r.None? <==> v.Undefined? || v.NaN? || v.Str?
  {
    match v
    case Undefined => None
    case Null => Some(0.0)
    case NaN => None
    case Num(n) => Some(n)
    case Bool(b) => Some(if b then 1.0 else 0.0)
    case Str(_) => None
  }

  /** THRESHOLD_AUTO. */
  const ThresholdAuto: real := -1.0
  /** COLOR_AUTO and COLOR_TRANSPARENT. */
  const ColorAuto: string := "auto"
  const ColorTransparent: string := "transparent"

  /** The values of TURNPOLICIES. */
  const PolicyNames: seq<string> := ["black", "white", "left", "right", "minority", "majority"]

  /** The keys of PotraceOptions. */
  const OptionKeys: set<string> :=
    {"turnPolicy", "turdSize", "alphaMax", "optCurve", "optTolerance", "threshold", "blackOnWhite", "color", "background"}

  type Fields = map<string, Value>

  /** The option fields of a new instance and their initial values. */
  function Defaults(): (f: Fields)
    ensures f.Keys == OptionKeys
    ensures f["threshold"] == Num(ThresholdAuto) && Truthy(f["optCurve"]) && Truthy(f["blackOnWhite"])
    ensures f["color"] == Str(ColorAuto) && f["turnPolicy"] == Str("minority")
  {
    map["turnPolicy" := Str("minority"), "turdSize" := Num(2.0), "alphaMax" := Num(1.0),
        "optCurve" := Bool(true), "optTolerance" := Num(0.2), "threshold" := Num(ThresholdAuto),
        "blackOnWhite" := Bool(true), "color" := Str(ColorAuto), "background" := Str(ColorTransparent)]
  }

  /** A value of the optional number type `number | undefined`. */
  predicate OptionalNumber(v: Value)
  {
    v.Num? || v.Undefined?
  }

  /** Every option is present, and the two that are only ever used as numbers are numbers or undefined. */
  predicate Typed(f: Fields)
  {
    OptionKeys <= f.Keys && OptionalNumber(f["alphaMax"]) && OptionalNumber(f["optTolerance"])
  }

  /**
   * An argument of the declared type PotraceOptions: option keys only, and
   * `alphaMax` and `optTolerance`, declared `number` and optional, a number
   * or undefined.
   */
  predicate Declared(p: Fields)
  {
    && p.Keys <= OptionKeys
    && ("alphaMax" in p ==> OptionalNumber(p["alphaMax"]))
    && ("optTolerance" in p ==> OptionalNumber(p["optTolerance"]))
  }

  /**
   * The alphaMax `smooth` compares `newAlpha >= alphaMax` against. An
   * undefined alphaMax makes that comparison false; since alpha0 never
   * exceeds 4/3, the bound 2 fails it the same way for every vertex.
   */
  function AlphaMaxOf(v: Value): (a: real)
    requires OptionalNumber(v)
    ensures v.Num? ==> a == v.n
    ensures v.Undefined? ==> forall vi, vj, vk :: !(CurveFit.Alpha0(vi, vj, vk) >= a)
  {
    if v.Num? then v.n else 2.0
  }

  // ---------------------------------------------------------------------
  // Turn policies
  // ---------------------------------------------------------------------

  predicate IsPolicyName(v: Value)
  {
    v.Str? && v.s in PolicyNames
  }

  /** The name TURNPOLICIES gives each policy. */
  function PolicyName(t: TurnPolicy): (s: string)
    ensures s in PolicyNames
  {
    match t
    case TurnBlack => "black"
    case TurnWhite => "white"
    case TurnLeft => "left"
    case TurnRight => "right"
    case TurnMinority => "minority"
    case TurnMajority => "majority"
  }

  /**
   * The policy `findPath` applies for a stored value: a policy name selects
   * that policy; any other value matches none of the comparisons and so
   * always turns left, like "left".
   */
  function PolicyOf(v: Value): (t: TurnPolicy)
    ensures IsPolicyName(v) ==> PolicyName(t) == v.s
    ensures !IsPolicyName(v) ==> t == TurnLeft
  {
    if v == Str("black") then TurnBlack
    else if v == Str("white") then TurnWhite
    else if v == Str("right") then TurnRight
    else if v == Str("minority") then TurnMinority
    else if v == Str("majority") then TurnMajority
    else TurnLeft
  }

  /** Naming a policy and reading the name back gives the same policy. */
  lemma PolicyNameRoundTrip(t: TurnPolicy)
    ensures PolicyOf(Str(PolicyName(t))) == t
  {
  }

  /** A value that names no policy never takes an ambiguous turn to the right. */
  lemma UnknownPolicyTurnsLeft(v: Value, bm: Bitmap, sign: Sign, p: IPoint)
    requires !IsPolicyName(v)
    ensures !GoesRight(bm, PolicyOf(v), sign, p)
  {
  }

  // ---------------------------------------------------------------------
  // Validation
  // ---------------------------------------------------------------------

  const PolicyMessage: string := "Bad turnPolicy value. Allowed values are: 'black', 'white', 'left', 'right', 'minority', 'majority'"
  const ThresholdMessage: string := "Bad threshold value. Expected to be an integer in range 0..255"
  const OptCurveMessage: string := "'optCurve' must be Boolean"

  /** The turnPolicy values an update may carry: a falsy value (ignored) or a policy name. */
  predicate PolicyAccepted(v: Value)
  {
    v in Falsy || IsPolicyName(v)
  }

  /** The threshold values an update may carry: absent, null, THRESHOLD_AUTO, or any number from 0 to 255. */
  predicate ThresholdAccepted(v: Value)
  {
    v == Undefined || v == Null || v == Num(ThresholdAuto) || (v.Num? && 0.0 <= v.n <= 255.0)
  }

  /** The optCurve values an update may carry: absent, null or a boolean. */
  predicate OptCurveAccepted(v: Value)
  {
    v == Undefined || v == Null || v.Bool?
  }

  /** An update every validated option of which is acceptable. */
  predicate Accepted(p: Fields)
  {
    && ("turnPolicy" in p ==> PolicyAccepted(p["turnPolicy"]))
    && ("threshold" in p ==> ThresholdAccepted(p["threshold"]))
    && ("optCurve" in p ==> OptCurveAccepted(p["optCurve"]))
  }

  /** The threshold and optCurve checks of `#validateParameters`, in order; None when both pass. */
  function ValidateRest(p: Fields): (r: Option<string>)
  {
    if && "threshold" in p
       && p["threshold"] != Undefined && p["threshold"] != Null && p["threshold"] != Num(ThresholdAuto)
       && (!p["threshold"].Num? || !MakeRangeTo(255).ContainsReal(p["threshold"].n))
    then Some(ThresholdMessage)
    else if "optCurve" in p && p["optCurve"] != Undefined && p["optCurve"] != Null && !p["optCurve"].Bool?
    then Some(OptCurveMessage)
    else None
  }

  /**
   * `#validateParameters` with the turnPolicy check as intended (a truthy
   * value that is not a policy name is rejected): None when the update
   * passes, otherwise the message of the first failing check.
   */
  function Validate(p: Fields): (r: Option<string>)
    ensures r.None? <==> Accepted(p)
    ensures r == Some(PolicyMessage) <==> "turnPolicy" in p && !PolicyAccepted(p["turnPolicy"])
    ensures r == Some(ThresholdMessage) <==>
      ("turnPolicy" in p ==> PolicyAccepted(p["turnPolicy"])) && "threshold" in p && !ThresholdAccepted(p["threshold"])
    ensures r.Some? ==> r.value in {PolicyMessage, ThresholdMessage, OptCurveMessage}
  {
    PolicyCheckAgrees(p);
    if "turnPolicy" in p && Truthy(p["turnPolicy"]) && !IsPolicyName(p["turnPolicy"]) then Some(PolicyMessage)
    else ValidateRest(p)
  }

  /** The intended turnPolicy test refuses exactly the values PolicyAccepted excludes. */
  lemma PolicyCheckAgrees(p: Fields)
    ensures "turnPolicy" in p ==>
      (Truthy(p["turnPolicy"]) && !IsPolicyName(p["turnPolicy"]) <==> !PolicyAccepted(p["turnPolicy"]))
  {
    if "turnPolicy" in p {
      TruthyIsNotFalsy(p["turnPolicy"]);
    }
  }

  /**
   * `#validateParameters` as written: the turnPolicy condition lacks its
   * negation, so a policy name is rejected and any other truthy value
   * passes.
   */
  function ValidateAsWritten(p: Fields): (r: Option<string>)
    ensures "turnPolicy" in p && IsPolicyName(p["turnPolicy"]) ==> r == Some(PolicyMessage)
    ensures r == Some(PolicyMessage) ==> "turnPolicy" in p && IsPolicyName(p["turnPolicy"])
  {
    if "turnPolicy" in p && Truthy(p["turnPolicy"]) && IsPolicyName(p["turnPolicy"]) then Some(PolicyMessage)
    else ValidateRest(p)
  }

  /** {turnPolicy: "black"} is refused as written and accepted as intended; {turnPolicy: "diagonal"} the other way round. */
  lemma PolicyCheckInverted()
    ensures ValidateAsWritten(map["turnPolicy" := Str("black")]) == Some(PolicyMessage)
    ensures Validate(map["turnPolicy" := Str("black")]) == None
    ensures ValidateAsWritten(map["turnPolicy" := Str("diagonal")]) == None
    ensures Validate(map["turnPolicy" := Str("diagonal")]) == Some(PolicyMessage)
  {
    assert "diagonal" !in PolicyNames;
  }

  /** A fractional threshold passes: the check is `range(255).contains`, not an integer test. */
  lemma FractionalThresholdAccepted()
    ensures Validate(map["threshold" := Num(12.5)]) == None
    ensures Validate(map["threshold" := Num(255.5)]) == Some(ThresholdMessage)
  {
  }

  // ---------------------------------------------------------------------
  // The instance
  // ---------------------------------------------------------------------

  /** A luminance grid: one level 0..255 per pixel. */
  predicate Luminance(bm: Bitmap)
  {
    bm.Valid() && forall i :: 0 <= i < |bm.lum| ==> 0 <= bm.lum[i] < 256
  }

  /**
   * The state of a PotraceImage: its option fields, the loaded bitmap, the
   * curve of every traced path, and the two flags.
   */
  datatype Image = Image(fields: Fields, bitmap: Option<Bitmap>, pathlist: seq<CurveFit.Curve>,
                         imageLoaded: bool, processed: bool)

  /** What every reachable instance satisfies. */
  predicate Good(img: Image)
  {
    && Typed(img.fields)
    && (img.bitmap.Some? ==> Luminance(img.bitmap.value))
    && (img.imageLoaded ==> img.bitmap.Some?)
    && (forall i :: 0 <= i < |img.pathlist| ==> img.pathlist[i].Valid() && img.pathlist[i].n >= 1)
  }

  /** out holds the update p over img's fields; nothing but the fields (and `processed`) differs. */
  predicate Assigned(img: Image, p: Fields, out: Image)
  {
    && out.fields.Keys == img.fields.Keys + p.Keys
    && (forall k :: k in p ==> out.fields[k] == p[k])
    && (forall k :: k in img.fields && k !in p ==> out.fields[k] == img.fields[k])
    && out.bitmap == img.bitmap && out.pathlist == img.pathlist && out.imageLoaded == img.imageLoaded
  }

  /** An update naming color or background; only such an update keeps `processed`. */
  predicate Cosmetic(p: Fields)
  {
    "color" in p || "background" in p
  }

  /**
   * `setParameters`: a missing argument changes nothing; an update that
   * fails validation throws before anything is assigned; otherwise the
   * update is copied over the fields and `processed` is cleared unless the
   * update names color or background. The second component is the
   * message thrown.
   */
  function SetParameters(img: Image, params: Option<Fields>): (r: (Image, Option<string>))
    requires params.Some? ==> Declared(params.value)
    ensures r.1.Some? <==> params.Some? && !Accepted(params.value)
    ensures r.1.Some? || params.None? ==> r.0 == img
    ensures r.1.None? && params.Some? ==> Assigned(img, params.value, r.0)
    ensures r.1.None? && params.Some? ==> (r.0.processed <==> img.processed && Cosmetic(params.value))
    ensures Good(img) ==> Good(r.0)
  {
    match params
    case None => (img, None)
    case Some(p) =>
      match Validate(p)
      case Some(e) => (img, Some(e))
      case None =>
        var processed := if Cosmetic(p) then img.processed else false;
        (img.(fields := img.fields + p, processed := processed), None)
  }

  /** `setParameters({})` marks the paths stale and changes nothing else. */
  lemma EmptyUpdateInvalidates(img: Image)
    ensures SetParameters(img, Some(map[])) == (img.(processed := false), None)
  {
    assert img.fields + map[] == img.fields;
  }

  /** Applying the same accepted update twice is applying it once. */
  lemma {:induction false} UpdateIdempotent(img: Image, p: Fields)
    requires Declared(p) && Accepted(p)
    ensures SetParameters(SetParameters(img, Some(p)).0, Some(p)) == SetParameters(img, Some(p))
  {
    var once := SetParameters(img, Some(p)).0;
    assert once.fields + p == once.fields;
  }

  /**
   * An update that names color also keeps the paths of an earlier threshold:
   * {color, threshold} leaves `processed` set, so the next export does not
   * re-trace at the new threshold.
   */
  lemma MixedUpdateKeepsProcessed(img: Image)
    requires img.processed
    ensures var r := SetParameters(img, Some(map["color" := Str("red"), "threshold" := Num(100.0)]));
      r.1.None? && r.0.processed && r.0.fields["threshold"] == Num(100.0)
  {
  }

  /** `new PotraceImage(options)`: the defaults, then `setParameters(options)` when options are given. */
  function New(options: Option<Fields>): (r: (Image, Option<string>))
    requires options.Some? ==> Declared(options.value)
    ensures Good(r.0) && r.0.bitmap.None? && r.0.pathlist == [] && !r.0.imageLoaded && !r.0.processed
    ensures r.1.Some? <==> options.Some? && !Accepted(options.value)
    ensures r.1.None? ==> forall k :: k in OptionKeys ==>
      r.0.fields[k] == if options.Some? && k in options.value then options.value[k] else Defaults()[k]
  {
    SetParameters(Image(Defaults(), None, [], false, false), options)
  }

  // ---------------------------------------------------------------------
  // generatePathList
  // ---------------------------------------------------------------------

  /** The histogram of a luminance grid. */
  function HistogramOf(bm: Bitmap): (h: H.Hist)
    requires Luminance(bm)
    ensures h.Valid() && h.pixels == |bm.lum|
  {
    H.FromBitmap(seq(|bm.lum|, i requires 0 <= i < |bm.lum| => bm.lum[i] as H.Level))
  }

  /**
   * The threshold `generatePathList` binarises at: `autoThreshold()` when
   * the stored threshold is THRESHOLD_AUTO, and 128 for every other value.
   * When `autoThreshold()` finds no cut it returns null, which the
   * comparisons read as 0.
   */
  function TraceThreshold(threshold: Value, h: H.Hist): (t: int)
    requires h.Valid()
    ensures threshold != Num(ThresholdAuto) ==> t == 128
    ensures threshold == Num(ThresholdAuto) ==>
      || (T.AutoThreshold(h, None, None) == Success(Some(t)) && 0 < t <= 253)
      || (T.AutoThreshold(h, None, None) == Success(None) && t == 0)
  {
    H.NormalizeKeepsLevels(0, 255);
    if threshold == Num(ThresholdAuto) then
      match T.AutoThreshold(h, None, None)
      case Success(Some(c)) => c
      case _ => 0
    else 128
  }

  /** The paths `area > turdSize` keeps: with integer areas this is `area > floor(turdSize)`. */
  lemma KeptAboveTurd(paths: seq<TracedPath>, turd: real)
    requires forall k :: 0 <= k < |paths| ==> Kept(paths[k], turd.Floor)
    ensures forall k :: 0 <= k < |paths| ==> Closed(paths[k]) && paths[k].area as real > turd
  {
  }

  /**
   * The paths `findNext` yields for the stored options: the bitmap is
   * binarised at `TraceThreshold` with the blackOnWhite polarity, and a
   * path is kept when its area exceeds turdSize (never, when turdSize
   * reads as NaN). None means the tracer's budget of `fuel` paths ran out.
   */
  function TracePaths(f: Fields, bm: Bitmap, fuel: nat): (r: Option<seq<TracedPath>>)
    requires Typed(f) && Luminance(bm)
    ensures r.Some? ==> forall k :: 0 <= k < |r.value| ==>
      Closed(r.value[k]) && NumberOf(f["turdSize"]).Some? && r.value[k].area as real > NumberOf(f["turdSize"]).value
    ensures NumberOf(f["turdSize"]).None? ==> r == Some([])
  {
    var binary := BinaryBitmap(bm, Truthy(f["blackOnWhite"]), TraceThreshold(f["threshold"], HistogramOf(bm)));
    match NumberOf(f["turdSize"])
    case None => Some([])
    case Some(turd) =>
      match FindPaths(binary, PolicyOf(f["turnPolicy"]), turd.Floor, 0, fuel)
      case None => None
      case Some(traced) =>
        KeptAboveTurd(traced.paths, turd);
        Some(traced.paths)
  }

  /**
   * The geometry a path's curve is built from that the model leaves
   * uninterpreted: the `penalty3` values of a path (from its vertices and
   * sums), vertex j of `adjustVertices` for a polygon, and the fit
   * `optiPenalty` finds between two segments at a tolerance. The tolerance
   * is the number `optTolerance` reads as; None is an undefined tolerance,
   * for which every comparison `optiPenalty` makes with it is false.
   */
  datatype Kernels = Kernels(
    penalty: (seq<IPoint>, seq<PathSums.Sum>) -> ((int, int) -> real),
    adjust: (seq<IPoint>, seq<int>, int) -> G.Point,
    fit: (CurveFit.Curve, Option<real>) -> ((int, int) -> Option<CurveFit.Opti>))

  /** Every fit has positive s and t, as the tangent construction of `optiPenalty` gives. */
  ghost predicate KernelsOk(k: Kernels)
  {
    forall cv, tol :: CurveFit.PositiveFits(k.fit(cv, tol))
  }

  /** What `calcLon` needs of a path: at least two vertices, each one unit from the next, cyclically. */
  predicate Traceable(path: TracedPath)
  {
    |path.vertices| >= 2 && Lon.Cycle(path.vertices)
  }

  /**
   * `new Curve(m)` with the vertices `adjustVertices` stores. The other
   * arrays start out empty in the source and are placeholders here;
   * `smooth` overwrites all of them except the first control point of a
   * CORNER segment, c[3j], which it keeps.
   */
  function PolygonCurve(vs: seq<IPoint>, po: seq<int>, k: Kernels): (cv: CurveFit.Curve)
    ensures cv.Valid() && cv.n == |po|
    ensures forall j :: 0 <= j < |po| ==> cv.vertex[j] == k.adjust(vs, po, j)
  {
    var n := |po|;
    CurveFit.Curve(n, seq(n, _ => CurveFit.Corner), seq(3 * n, _ => G.Point(0.0, 0.0)), 0.0,
                   seq(n, j requires 0 <= j < n => k.adjust(vs, po, j)),
                   seq(n, _ => 0.0), seq(n, _ => 0.0), seq(n, _ => 0.0))
  }

  /** `if (path.sign === '-') curve.reverse()`: only a '-' path has its vertex order reversed. */
  function Oriented(cv: CurveFit.Curve, sign: Sign): (r: CurveFit.Curve)
    requires cv.Valid()
    ensures r.Valid() && r.n == cv.n
    ensures forall i :: 0 <= i < cv.n ==> r.vertex[i] == cv.vertex[if sign == Minus then cv.n - 1 - i else i]
  {
    if sign == Minus then CurveFit.Reverse(cv) else cv
  }

  /**
   * `curve.smooth(alphaMax)`, then the optimisation when optCurve is
   * truthy. Without it every vertex stays and each segment is the smoothed
   * one; with it each merged segment has 0 < beta < 1.
   */
  function FitCurve(cv: CurveFit.Curve, f: Fields, k: Kernels): (r: CurveFit.Curve)
    requires cv.Valid() && cv.n >= 1 && Typed(f) && KernelsOk(k)
    ensures r.Valid() && 1 <= r.n <= cv.n && r.alphaCurve == 1.0
    ensures !Truthy(f["optCurve"]) ==>
      && r.n == cv.n && r.vertex == cv.vertex
      && forall j :: 0 <= j < cv.n ==> CurveFit.SmoothedAt(cv, r, AlphaMaxOf(f["alphaMax"]), j)
    ensures Truthy(f["optCurve"]) ==> forall a :: 0 <= a < r.n ==> 0.0 < r.beta[a] < 1.0
  {
    var smoothed := CurveFit.Smooth(cv, AlphaMaxOf(f["alphaMax"]));
    if Truthy(f["optCurve"]) then CurveFit.OptiCurve(smoothed, k.fit(smoothed, NumberOf(f["optTolerance"])))
    else smoothed
  }

  /**
   * With alphaMax undefined, `newAlpha >= alphaMax` never holds, so without
   * the optimisation every segment of the fitted curve is a CURVE.
   */
  lemma UndefinedAlphaMaxAllCurved(cv: CurveFit.Curve, f: Fields, k: Kernels)
    requires cv.Valid() && cv.n >= 1 && Typed(f) && KernelsOk(k)
    requires f["alphaMax"] == Undefined && !Truthy(f["optCurve"])
    ensures forall j :: 0 <= j < cv.n ==> FitCurve(cv, f, k).tag[j] == CurveFit.Curved
  {
    var r := FitCurve(cv, f, k);
    forall j | 0 <= j < cv.n
      ensures r.tag[j] == CurveFit.Curved
    {
      assert CurveFit.SmoothedAt(cv, r, AlphaMaxOf(f["alphaMax"]), j);
    }
  }

  /**
   * `curve.optimize(optTolerance)` as written: Curve has no method of
   * that name (it is `optiCurve`), so the call throws whenever optCurve
   * is truthy.
   */
  function OptimizeAsWritten(cv: CurveFit.Curve, optCurve: Value): (r: Result<CurveFit.Curve, string>)
    ensures r.Failure? <==> Truthy(optCurve)
    ensures r.Success? ==> r.value == cv
  {
    if Truthy(optCurve) then Failure("curve.optimize is not a function") else Success(cv)
  }

  /** With the default options (optCurve true) every path's optimisation throws as written. */
  lemma DefaultsThrowAsWritten(cv: CurveFit.Curve)
    ensures OptimizeAsWritten(cv, Defaults()["optCurve"]).Failure?
  {
  }

  /** A strictly increasing sequence of indexes below len has at most len entries. */
  lemma {:induction false} ShapeBound(po: seq<int>, m: int, len: int)
    requires Polygon.PolygonShape(po, m, len)
    ensures m <= len
  {
    var a := 0;
    while a < |po|
      invariant 0 <= a <= |po|
      invariant a > 0 ==> po[a - 1] >= a - 1
    {
      assert a > 0 ==> po[a] > po[a - 1];
      a := a + 1;
    }
  }

  /**
   * One path through `calcSums → calcLon → bestPolygon → adjustVertices`,
   * the reversal of a '-' path, `smooth` and the optimisation. None when
   * `bestPolygon` cannot read back a polygon. Without the optimisation the
   * curve has one segment per polygon vertex, vertex j being the adjusted
   * polygon vertex j (counted from the end for a '-' path).
   */
  method CurveOf(path: TracedPath, f: Fields, k: Kernels) returns (r: Option<CurveFit.Curve>, po: seq<int>)
    requires Traceable(path) && Typed(f) && KernelsOk(k)
    ensures r.Some? ==> Polygon.PolygonShape(po, |po|, |path.vertices|)
    ensures r.Some? ==> r.value.Valid() && 1 <= r.value.n <= |po| <= |path.vertices| && r.value.alphaCurve == 1.0
    ensures r.Some? && !Truthy(f["optCurve"]) ==>
      && r.value.n == |po|
      && forall j :: 0 <= j < |po| ==>
        r.value.vertex[j] == k.adjust(path.vertices, po, if path.sign == Minus then |po| - 1 - j else j)
    ensures r.Some? && Truthy(f["optCurve"]) ==> forall a :: 0 <= a < r.value.n ==> 0.0 < r.value.beta[a] < 1.0
  {
    var vs := path.vertices;
    var sums := PathSums.CalcSums(vs);
    var pivk, lon := Lon.CalcLon(vs);
    var m, polygon := Polygon.BestPolygon(lon, k.penalty(vs, sums));
    if polygon.None? {
      return None, [];
    }
    po := polygon.value;
    ShapeBound(po, m, |vs|);
    var cv := Oriented(PolygonCurve(vs, po, k), path.sign);
    r := Some(FitCurve(cv, f, k));
  }

  /** What `generatePathList` promises of the curve of one traced path. */
  predicate Fitted(path: TracedPath, f: Fields, cv: CurveFit.Curve)
    requires Typed(f)
  {
    && cv.Valid() && 1 <= cv.n <= |path.vertices| && cv.alphaCurve == 1.0
    && (Truthy(f["optCurve"]) ==> forall a :: 0 <= a < cv.n ==> 0.0 < cv.beta[a] < 1.0)
  }

  const BudgetMessage: string := "tracing budget exhausted"
  const PolygonMessage: string := "no optimal polygon"

  /** The curve of every path, in order; None as soon as one path has none. */
  method CurvesOf(paths: seq<TracedPath>, f: Fields, k: Kernels) returns (curves: Option<seq<CurveFit.Curve>>)
    requires forall j :: 0 <= j < |paths| ==> Closed(paths[j])
    requires Typed(f) && KernelsOk(k)
    ensures curves.Some? ==> |curves.value| == |paths|
    ensures curves.Some? ==> forall j :: 0 <= j < |paths| ==> Fitted(paths[j], f, curves.value[j])
  {
    var acc: seq<CurveFit.Curve> := [];
    var i := 0;
    while i < |paths|
      invariant 0 <= i <= |paths| && |acc| == i
      invariant forall j :: 0 <= j < i ==> Fitted(paths[j], f, acc[j])
    {
      var c, po := CurveOf(paths[i], f, k);
      if c.None? {
        return None;
      }
      acc := acc + [c.value];
      i := i + 1;
    }
    curves := Some(acc);
  }

  /**
   * `generatePathList`: one curve per path `findNext` yields, in order,
   * and `processed` set. When a stage fails nothing is assigned.
   */
  method GeneratePathList(img: Image, k: Kernels, fuel: nat) returns (out: Image, err: Option<string>)
    requires Good(img) && img.bitmap.Some? && KernelsOk(k)
    ensures Good(out)
    ensures err.Some? ==> out == img
    ensures err.None? ==> out == img.(pathlist := out.pathlist, processed := true)
    ensures err.None? ==>
      && TracePaths(img.fields, img.bitmap.value, fuel).Some?
      && |out.pathlist| == |TracePaths(img.fields, img.bitmap.value, fuel).value|
      && forall i :: 0 <= i < |out.pathlist| ==>
        Fitted(TracePaths(img.fields, img.bitmap.value, fuel).value[i], img.fields, out.pathlist[i])
  {
    var traced := TracePaths(img.fields, img.bitmap.value, fuel);
    if traced.None? {
      return img, Some(BudgetMessage);
    }
    var curves := CurvesOf(traced.value, img.fields, k);
    if curves.None? {
      return img, Some(PolygonMessage);
    }
    out := img.(pathlist := curves.value, processed := true);
    err := None;
  }

  /**
   * `loadImage` on an already decoded luminance grid: `imageLoaded` is
   * cleared, the bitmap stored and the paths generated; only then is
   * `imageLoaded` set, so a failing generation leaves it false.
   */
  method LoadImage(img: Image, bm: Bitmap, k: Kernels, fuel: nat) returns (out: Image, err: Option<string>)
    requires Good(img) && Luminance(bm) && KernelsOk(k)
    ensures Good(out) && out.bitmap == Some(bm) && out.fields == img.fields
    ensures out.imageLoaded <==> err.None?
    ensures err.None? ==> out.processed
  {
    var loading := img.(imageLoaded := false, bitmap := Some(bm));
    out, err := GeneratePathList(loading, k, fuel);
    if err.None? {
      out := out.(imageLoaded := true);
    }
  }

  // ---------------------------------------------------------------------
  // getPathTag
  // ---------------------------------------------------------------------

  /** The fill colour: COLOR_AUTO becomes black for blackOnWhite and white otherwise; any other colour is kept. */
  function Fill(fillColor: Value, blackOnWhite: Value): (r: Value)
    ensures r != Str(ColorAuto)
    ensures fillColor != Str(ColorAuto) ==> r == fillColor
    ensures fillColor == Str(ColorAuto) ==> (r == Str("black") <==> Truthy(blackOnWhite))
  {
    if fillColor == Str(ColorAuto) then Str(if Truthy(blackOnWhite) then "black" else "white")
    else fillColor
  }

  /** Resolving a fill colour twice is resolving it once. */
  lemma FillIdempotent(c: Value, bow: Value)
    ensures Fill(Fill(c, bow), bow) == Fill(c, bow)
  {
  }

  /** The path element: the drawing of every curve and the resolved fill. */
  datatype PathTag = PathTag(d: seq<seq<CurveFit.Command>>, fill: Value)

  /** Every curve drawn at the given size. */
  function RenderAll(curves: seq<CurveFit.Curve>, width: real, height: real): (r: seq<seq<CurveFit.Command>>)
    requires forall i :: 0 <= i < |curves| ==> curves[i].Valid() && curves[i].n >= 1
    ensures |r| == |curves|
    ensures forall i :: 0 <= i < |curves| ==> CurveFit.Render(curves[i], width, height) == Some(r[i])
  {
    seq(|curves|, i requires 0 <= i < |curves| => CurveFit.Render(curves[i], width, height).value)
  }

  /**
   * `path.curve.render(scale)` as written: Curve defines `renderCurve`
   * (taking {x, y}), not `render`, so drawing throws as soon as there is
   * a path to draw.
   */
  function RenderAsWritten(curves: seq<CurveFit.Curve>): (r: Result<seq<seq<CurveFit.Command>>, string>)
    ensures r.Failure? <==> |curves| > 0
    ensures r.Success? ==> r.value == []
  {
    if |curves| > 0 then Failure("path.curve.render is not a function") else Success([])
  }

  /**
   * The width and height `renderCurve` reads, as written: it destructures
   * its argument as {x: width, y: height} with default {x: 1, y: 1}, while
   * `getPathTag` passes its `scale` {width, height} unchanged. A given
   * scale has no x or y, so both are undefined; only an absent scale draws
   * at unit size.
   */
  function ScaleAsWritten(scale: Option<(real, real)>): (r: (Value, Value))
    ensures scale.Some? ==> r.0.Undefined? && r.1.Undefined?
    ensures scale.None? ==> r == (Num(1.0), Num(1.0))
  {
    match scale
    case Some(_) => (Undefined, Undefined)
    case None => (Num(1.0), Num(1.0))
  }

  /** `coordinate * factor` in JavaScript for a number or undefined factor: undefined gives NaN. */
  function TimesValue(c: real, factor: Value): (r: Value)
    requires OptionalNumber(factor)
    ensures factor.Num? ==> r == Num(c * factor.n)
    ensures factor.Undefined? ==> r == NaN
  {
    if factor.Num? then Num(c * factor.n) else NaN
  }

  /** As written, every coordinate drawn at a given scale is NaN, whatever the scale and the point. */
  lemma ScaledDrawingIsNaN(scale: (real, real), p: G.Point)
    ensures TimesValue(p.x, ScaleAsWritten(Some(scale)).0) == NaN
    ensures TimesValue(p.y, ScaleAsWritten(Some(scale)).1) == NaN
  {
  }

  const NotLoadedMessage: string := "Image should be loaded first"

  /**
   * `getPathTag(fillColor, scale)`: the fill defaults to the color option;
   * the call throws while no image is loaded; the paths are regenerated
   * only when `processed` is false. `scale` {width, height} is passed to
   * `renderCurve` as {x: width, y: height}, and its absence draws at unit
   * size.
   */
  method GetPathTag(img: Image, fillColor: Option<Value>, scale: Option<(real, real)>, k: Kernels, fuel: nat)
    returns (r: Result<PathTag, string>, out: Image)
    requires Good(img) && KernelsOk(k)
    ensures Good(out)
    ensures !img.imageLoaded ==> r == Failure(NotLoadedMessage) && out == img
    ensures img.imageLoaded && img.processed ==> r.Success? && out == img
    ensures r.Failure? ==> out == img
    ensures r.Success? ==> out.imageLoaded && out.processed && out.fields == img.fields
    ensures r.Success? ==> r.value.fill == Fill(fillColor.GetOr(img.fields["color"]), img.fields["blackOnWhite"])
    ensures r.Success? ==> |r.value.d| == |out.pathlist| && forall i :: 0 <= i < |out.pathlist| ==>
      CurveFit.Render(out.pathlist[i], if scale.Some? then scale.value.0 else 1.0,
                      if scale.Some? then scale.value.1 else 1.0) == Some(r.value.d[i])
  {
    var fill := Fill(fillColor.GetOr(img.fields["color"]), img.fields["blackOnWhite"]);
    if !img.imageLoaded {
      return Failure(NotLoadedMessage), img;
    }
    out := img;
    if !img.processed {
      var err;
      out, err := GeneratePathList(img, k, fuel);
      if err.Some? {
        return Failure(err.value), img;
      }
    }
    var (w, h) := if scale.Some? then scale.value else (1.0, 1.0);
    r := Success(PathTag(RenderAll(out.pathlist, w, h), fill));
  }
}
