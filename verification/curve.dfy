/**
 * The curve of one path (src/types/Curve.ts): `reverse`, `smooth`, the
 * segment-merging dynamic program of `optiCurve` with the curve fit of
 * `optiPenalty` as a parameter (apart from its early rejections), and
 * `renderCurve` as a list of drawing commands.
 */
module CurveFit {
  import opened Wrappers
  import opened Utils
  import opened Geometry

  datatype Tag = Corner | Curved

  /**
   * n segments; segment j has the control points c[3j], c[3j+1], c[3j+2] and
   * the polygon vertex vertex[j].
   */
  datatype Curve = Curve(n: nat, tag: seq<Tag>, c: seq<Point>, alphaCurve: real,
                         vertex: seq<Point>, alpha: seq<real>, alpha0: seq<real>, beta: seq<real>)
  {
    predicate Valid()
    {
      |tag| == n && |c| == 3 * n && |vertex| == n && |alpha| == n && |alpha0| == n && |beta| == n
    }
  }

  /** Three points per segment, laid out as c is. */
  function Interleave(a: seq<Point>, b: seq<Point>, c: seq<Point>): (r: seq<Point>)
    requires |a| == |b| == |c|
    ensures |r| == 3 * |a|
    ensures forall k :: 0 <= k < |a| ==> r[3 * k] == a[k] && r[3 * k + 1] == b[k] && r[3 * k + 2] == c[k]
  {
    var n := |a|;
    var r := seq(3 * n, q requires 0 <= q < 3 * n => Pick(a[q / 3], b[q / 3], c[q / 3], q % 3));
    assert forall k :: 0 <= k < n ==> r[3 * k] == a[k] && r[3 * k + 1] == b[k] && r[3 * k + 2] == c[k] by {
      forall k | 0 <= k < n
        ensures r[3 * k] == a[k] && r[3 * k + 1] == b[k] && r[3 * k + 2] == c[k]
      {
        EuclideanUnique(3 * k, 3, k, 0);
        EuclideanUnique(3 * k + 1, 3, k, 1);
        EuclideanUnique(3 * k + 2, 3, k, 2);
      }
    }
    r
  }

  function Pick(p0: Point, p1: Point, p2: Point, which: int): Point
  {
    if which == 0 then p0 else if which == 1 then p1 else p2
  }

  // ---------------------------------------------------------------- reverse

  /** The swap loop of `reverse` from the pair (x, y) inwards. */
  function SwapFrom(v: seq<Point>, x: int, y: int): (r: seq<Point>)
    requires 0 <= x && y < |v|
    ensures |r| == |v|
    ensures forall i :: x <= i <= y ==> r[i] == v[x + y - i]
    ensures forall i :: 0 <= i < |v| && !(x <= i <= y) ==> r[i] == v[i]
    decreases y - x
  {
    if x < y then
      var w := v[x := v[y]][y := v[x]];
      var r := SwapFrom(w, x + 1, y - 1);
      assert r[x] == w[x] && r[y] == w[y];
      r
    else v
  }

  /** `reverse`: vertex[i] goes to vertex[n-1-i]; no other field changes. */
  function Reverse(cv: Curve): (r: Curve)
    requires cv.Valid()
    ensures r.Valid() && r == cv.(vertex := r.vertex)
    ensures forall i :: 0 <= i < cv.n ==> r.vertex[i] == cv.vertex[cv.n - 1 - i]
  {
    if cv.n == 0 then cv else cv.(vertex := SwapFrom(cv.vertex, 0, cv.n - 1))
  }

  lemma ReverseInvolution(cv: Curve)
    requires cv.Valid()
    ensures Reverse(Reverse(cv)) == cv
  {
    var r := Reverse(Reverse(cv));
    assert r.vertex == cv.vertex;
  }

  // ---------------------------------------------------------------- smooth

  /** 1 - 1/dd lies in (0, 1) once dd > 1. */
  lemma ReciprocalBelowOne(dd: real)
    requires dd > 1.0
    ensures 0.0 < 1.0 / dd < 1.0
  {
  }

  /**
   * alpha0 of the vertex vj between vi and vk: 4/3 when vi and vk coincide,
   * otherwise (1 - 1/dd)/0.75 for dd = |dpara / ddenom| above 1, and 0 below.
   */
  function Alpha0(vi: Point, vj: Point, vk: Point): (a: real)
    ensures 0.0 <= a <= 4.0 / 3.0
    ensures vi == vk ==> a == 4.0 / 3.0
  {
    var denom := DDenom(vi, vk);
    if denom == 0.0 then 4.0 / 3.0
    else
      var dd := Abs(DPara(vi, vj, vk) / denom);
      if dd > 1.0 then ReciprocalBelowOne(dd); (1.0 - 1.0 / dd) / 0.75 else 0.0 / 0.75
  }

  /** The parallelogram of the same three points read backwards has the opposite sign. */
  lemma DParaReversed(p0: Point, p1: Point, p2: Point)
    ensures DPara(p2, p1, p0) == -DPara(p0, p1, p2)
  {
    assert DPara(p2, p1, p0) == (p1.x - p2.x) * (p0.y - p2.y) - (p0.x - p2.x) * (p1.y - p2.y);
    assert DPara(p0, p1, p2) == (p1.x - p0.x) * (p2.y - p0.y) - (p2.x - p0.x) * (p1.y - p0.y);
  }

  lemma AbsNegatedQuotient(x: real, d: real)
    requires d != 0.0
    ensures Abs(-x / d) == Abs(x / d)
  {
    assert -x / d == -(x / d);
  }

  /** Seen from either side the corner is the same: alpha0 does not depend on the direction of travel. */
  lemma Alpha0Symmetric(vi: Point, vj: Point, vk: Point)
    ensures Alpha0(vi, vj, vk) == Alpha0(vk, vj, vi)
  {
    assert DDenom(vi, vk) == DDenom(vk, vi);
    DParaReversed(vi, vj, vk);
    if DDenom(vi, vk) != 0.0 {
      AbsNegatedQuotient(DPara(vi, vj, vk), DDenom(vi, vk));
    }
  }

  /** A vertex on the straight line between two distinct neighbours gets alpha0 = 0. */
  lemma Alpha0Straight(vi: Point, vj: Point, vk: Point)
    requires vi != vk && DPara(vi, vj, vk) == 0.0
    ensures Alpha0(vi, vj, vk) == 0.0
  {
  }

  /** What `smooth` computes for segment j. */
  datatype Smoothed = Smoothed(tag: Tag, c0: Point, c1: Point, c2: Point, alpha: real, alpha0: real)

  /**
   * s is segment j of cv smoothed: alpha0 is the angle measure at vertex j,
   * the segment is a CORNER exactly when alpha0 reaches alphaMax, and it ends
   * at the midpoint of vertex[j] and vertex[j+1]; a CORNER keeps alpha0 and
   * its first control point and puts the second on the vertex; a CURVE clamps
   * alpha to [0.55, 1] and puts both control points on the legs at
   * 0.5 + 0.5 alpha from the neighbours.
   */
  predicate SmoothedOk(cv: Curve, alphaMax: real, j: int, s: Smoothed)
    requires cv.Valid() && 0 <= j < cv.n
  {
    var n, v := cv.n, cv.vertex;
    var vi, vk := v[Mod(j - 1, n)], v[Mod(j + 1, n)];
    && s.alpha0 == Alpha0(vi, v[j], vk)
    && (s.tag == Corner <==> s.alpha0 >= alphaMax)
    && s.c2 == Midpoint(v[j], vk)
    && (s.tag == Corner ==> s.alpha == s.alpha0 && s.c1 == v[j] && s.c0 == cv.c[3 * j])
    && (s.tag == Curved ==>
          && s.alpha == Clamp(s.alpha0, 0.55, 1.0)
          && s.c0 == Interval(0.5 + 0.5 * s.alpha, vi, v[j])
          && s.c1 == Interval(0.5 + 0.5 * s.alpha, vk, v[j]))
  }

  /** Segment j with neighbours i = j-1 and k = j+1 (mod n). */
  function SmoothAt(cv: Curve, alphaMax: real, j: int): (s: Smoothed)
    requires cv.Valid() && 0 <= j < cv.n
    ensures SmoothedOk(cv, alphaMax, j, s)
  {
    IntervalEnds(cv.vertex[Mod(j + 1, cv.n)], cv.vertex[j]);
    var n := cv.n;
    var i, k := Mod(j - 1, n), Mod(j + 1, n);
    var v := cv.vertex;
    var a0 := Alpha0(v[i], v[j], v[k]);
    var p4 := Interval(1.0 / 2.0, v[k], v[j]);
    if a0 >= alphaMax then
      Smoothed(Corner, cv.c[3 * j], v[j], p4, a0, a0)
    else
      var a := Clamp(a0, 0.55, 1.0);
      Smoothed(Curved, Interval(0.5 + 0.5 * a, v[i], v[j]), Interval(0.5 + 0.5 * a, v[k], v[j]), p4, a, a0)
  }

  /** The loop over i writes segment j = i+1 (mod n) from vertices i, j and i+2: every j once, with i = j-1 and i+2 = j+1. */
  lemma SmoothVisitsEachOnce(n: int, j: int)
    requires n > 0 && 0 <= j < n
    ensures Mod(Mod(j - 1, n) + 1, n) == j
    ensures Mod(Mod(j - 1, n) + 2, n) == Mod(j + 1, n)
  {
    if j == 0 {
      EuclideanUnique(-1, n, -1, n - 1);
      EuclideanUnique(n - 1 + 1, n, 1, 0);
      if n == 1 {
        EuclideanUnique(0 + 2, 1, 2, 0);
        EuclideanUnique(0 + 1, 1, 1, 0);
      } else {
        EuclideanUnique(n - 1 + 2, n, 1, 1);
        EuclideanUnique(0 + 1, n, 0, 1);
      }
    } else {
      EuclideanUnique(j - 1, n, 0, j - 1);
      EuclideanUnique(j, n, 0, j);
    }
  }

  function Smoothings(cv: Curve, alphaMax: real): (ss: seq<Smoothed>)
    requires cv.Valid()
    ensures |ss| == cv.n
    ensures forall j :: 0 <= j < cv.n ==> ss[j] == SmoothAt(cv, alphaMax, j)
  {
    seq(cv.n, j requires 0 <= j < cv.n => SmoothAt(cv, alphaMax, j))
  }

  /** The curve with the given vertices and per-segment results; every beta is 1/2. */
  function BuildSmoothed(vertex: seq<Point>, ss: seq<Smoothed>): (r: Curve)
    requires |vertex| == |ss|
    ensures r.Valid() && r.n == |ss| && r.vertex == vertex && r.alphaCurve == 1.0
    ensures forall j :: 0 <= j < |ss| ==> r.tag[j] == ss[j].tag
    ensures forall j :: 0 <= j < |ss| ==> r.alpha[j] == ss[j].alpha && r.alpha0[j] == ss[j].alpha0 && r.beta[j] == 0.5
    ensures forall j :: 0 <= j < |ss| ==> r.c[3 * j] == ss[j].c0 && r.c[3 * j + 1] == ss[j].c1 && r.c[3 * j + 2] == ss[j].c2
  {
    var n := |ss|;
    var (tag, alpha, alpha0) := SmoothedFields(ss);
    Curve(n, tag, SmoothedControls(ss), 1.0, vertex, alpha, alpha0, Halves(n))
  }

  /** The tags, alphas and alpha0s of the per-segment results. */
  function SmoothedFields(ss: seq<Smoothed>): (r: (seq<Tag>, seq<real>, seq<real>))
    ensures |r.0| == |ss| && |r.1| == |ss| && |r.2| == |ss|
    ensures forall j :: 0 <= j < |ss| ==> r.0[j] == ss[j].tag && r.1[j] == ss[j].alpha && r.2[j] == ss[j].alpha0
  {
    (seq(|ss|, j requires 0 <= j < |ss| => ss[j].tag),
     seq(|ss|, j requires 0 <= j < |ss| => ss[j].alpha),
     seq(|ss|, j requires 0 <= j < |ss| => ss[j].alpha0))
  }

  /** The control points of the per-segment results, laid out as c is. */
  function SmoothedControls(ss: seq<Smoothed>): (c: seq<Point>)
    ensures |c| == 3 * |ss|
    ensures forall j :: 0 <= j < |ss| ==> c[3 * j] == ss[j].c0 && c[3 * j + 1] == ss[j].c1 && c[3 * j + 2] == ss[j].c2
  {
    Interleave(seq(|ss|, j requires 0 <= j < |ss| => ss[j].c0), seq(|ss|, j requires 0 <= j < |ss| => ss[j].c1),
               seq(|ss|, j requires 0 <= j < |ss| => ss[j].c2))
  }

  function Halves(n: nat): (h: seq<real>)
    ensures |h| == n && forall j :: 0 <= j < n ==> h[j] == 0.5
  {
    seq(n, _ => 0.5)
  }

  /** Segment j of r is segment j of cv smoothed, with beta 1/2. */
  predicate SmoothedAt(cv: Curve, r: Curve, alphaMax: real, j: int)
    requires cv.Valid() && r.Valid() && r.n == cv.n && 0 <= j < cv.n
  {
    && SmoothedOk(cv, alphaMax, j, Smoothed(r.tag[j], r.c[3 * j], r.c[3 * j + 1], r.c[3 * j + 2], r.alpha[j], r.alpha0[j]))
    && r.beta[j] == 0.5
  }

  /** `smooth(alphaMax)`. */
  function Smooth(cv: Curve, alphaMax: real): (r: Curve)
    requires cv.Valid()
    ensures r.Valid() && r.n == cv.n && r.vertex == cv.vertex && r.alphaCurve == 1.0
    ensures forall j :: 0 <= j < cv.n ==> SmoothedAt(cv, r, alphaMax, j)
    ensures forall j :: 0 <= j < cv.n ==> 0.0 <= r.alpha0[j] <= 4.0 / 3.0
    ensures forall j :: 0 <= j < cv.n && r.tag[j] == Curved ==> 0.55 <= r.alpha[j] <= 1.0
  {
    var ss := Smoothings(cv, alphaMax);
    var r := BuildSmoothed(cv.vertex, ss);
    forall j | 0 <= j < cv.n
      ensures SmoothedAt(cv, r, alphaMax, j)
    {
      assert Smoothed(r.tag[j], r.c[3 * j], r.c[3 * j + 1], r.c[3 * j + 2], r.alpha[j], r.alpha0[j]) == ss[j];
    }
    r
  }

  /** Smoothing reads only the vertices and the corners' first control points, which it keeps: doing it twice changes nothing. */
  lemma SmoothIdempotent(cv: Curve, alphaMax: real)
    requires cv.Valid()
    ensures Smooth(Smooth(cv, alphaMax), alphaMax) == Smooth(cv, alphaMax)
  {
    var once := Smooth(cv, alphaMax);
    forall j | 0 <= j < cv.n
      ensures SmoothAt(once, alphaMax, j) == SmoothAt(cv, alphaMax, j)
    {
      SmoothAtStable(cv, once, alphaMax, j);
    }
    assert Smoothings(once, alphaMax) == Smoothings(cv, alphaMax);
  }

  lemma SmoothAtStable(cv: Curve, once: Curve, alphaMax: real, j: int)
    requires cv.Valid() && once.Valid() && once.n == cv.n && once.vertex == cv.vertex && 0 <= j < cv.n
    requires SmoothedAt(cv, once, alphaMax, j)
    ensures SmoothAt(once, alphaMax, j) == SmoothAt(cv, alphaMax, j)
  {
    var s := SmoothAt(cv, alphaMax, j);
    if s.tag == Corner {
      assert once.c[3 * j] == cv.c[3 * j];
    }
  }

  /** A straight run becomes a CURVE with alpha 0.55 whenever alphaMax is positive. */
  lemma SmoothStraightRun(cv: Curve, alphaMax: real, j: int)
    requires cv.Valid() && 0 <= j < cv.n && alphaMax > 0.0
    requires cv.vertex[Mod(j - 1, cv.n)] != cv.vertex[Mod(j + 1, cv.n)]
    requires DPara(cv.vertex[Mod(j - 1, cv.n)], cv.vertex[j], cv.vertex[Mod(j + 1, cv.n)]) == 0.0
    ensures Smooth(cv, alphaMax).tag[j] == Curved && Smooth(cv, alphaMax).alpha[j] == 0.55
  {
    Alpha0Straight(cv.vertex[Mod(j - 1, cv.n)], cv.vertex[j], cv.vertex[Mod(j + 1, cv.n)]);
    assert SmoothedAt(cv, Smooth(cv, alphaMax), alphaMax, j);
  }

  // ---------------------------------------------------------------- optiCurve

  /** The result of a successful curve fit over a run of segments. */
  datatype Opti = Opti(pen: real, c0: Point, c1: Point, t: real, s: real, alpha: real)

  /** The sign of the turn at each CURVE vertex, 0 at corners. */
  function Convexity(cv: Curve): (convc: seq<int>)
    requires cv.Valid()
    ensures |convc| == cv.n
    ensures forall i :: 0 <= i < cv.n ==> -1 <= convc[i] <= 1 && (cv.tag[i] == Corner ==> convc[i] == 0)
  {
    var n := cv.n;
    seq(n, i requires 0 <= i < n =>
      if cv.tag[i] == Curved then Sign(DPara(cv.vertex[Mod(i - 1, n)], cv.vertex[i], cv.vertex[Mod(i + 1, n)])) else 0)
  }

  /**
   * `optiPenalty(i, j)`: rejected outright when i = j or when the vertex after
   * i is not a convex CURVE vertex; otherwise the outcome is the fit's.
   */
  function OptiPenalty(convc: seq<int>, fit: (int, int) -> Option<Opti>, i: int, j: int): (r: Option<Opti>)
    requires 0 <= i < |convc|
    ensures i == j ==> r == None
    ensures convc[Mod(i + 1, |convc|)] == 0 ==> r == None
    ensures r.Some? ==> r == fit(i, j)
  {
    if i == j then None
    else if convc[Mod(i + 1, |convc|)] == 0 then None
    else fit(i, j)
  }

  /** A CORNER after i always rejects the run starting at i. */
  lemma CornerAfterRejects(cv: Curve, fit: (int, int) -> Option<Opti>, i: int, j: int)
    requires cv.Valid() && 0 <= i < cv.n && cv.tag[Mod(i + 1, cv.n)] == Corner
    ensures OptiPenalty(Convexity(cv), fit, i, j) == None
  {
  }

  /** Entry j of the tables pt, pen, len and opt. */
  datatype Entry = Entry(pt: int, pen: real, len: int, opt: Option<Opti>)

  /**
   * Entry j describes a chain back to 0: pt[j] is an earlier index, len[j]
   * counts the segments of the chain (one more than at pt[j]), and an entry
   * that does not point to j-1 holds the fit it merges with.
   */
  predicate Link(st: seq<Entry>, j: int)
    requires 0 <= j < |st|
  {
    && 0 <= st[j].pt < j
    && st[j].len == st[st[j].pt].len + 1
    && 1 <= st[j].len <= j
    && (st[j].pt != j - 1 ==> st[j].opt.Some?)
  }

  predicate Chains(st: seq<Entry>, upTo: int)
  {
    && 1 <= |st| && upTo < |st| && st[0].len == 0
    && forall j :: 1 <= j <= upTo ==> Link(st, j)
  }

  lemma ChainsKept(st: seq<Entry>, st2: seq<Entry>, upTo: int)
    requires Chains(st, upTo) && |st2| == |st| && 0 <= upTo
    requires forall x :: 0 <= x <= upTo ==> st2[x] == st[x]
    ensures Chains(st2, upTo)
  {
    assert st2[0] == st[0];
    forall j | 1 <= j <= upTo
      ensures Link(st2, j)
    {
      assert Link(st, j);
      assert st2[j] == st[j];
      assert st2[st[j].pt] == st[st[j].pt];
    }
  }

  /** The chain length at i is at most i. */
  lemma ChainLength(st: seq<Entry>, upTo: int, i: int)
    requires Chains(st, upTo) && 0 <= i <= upTo
    ensures 0 <= st[i].len <= i
  {
    if i > 0 {
      assert Link(st, i);
    }
  }

  /**
   * The inner loop for j, from i down to 0: it stops at the first rejected
   * run and takes a run when it uses fewer segments, or as many at a lower
   * penalty.
   */
  function Runs(convc: seq<int>, fit: (int, int) -> Option<Opti>, j: int, i: int, st: seq<Entry>): (r: seq<Entry>)
    requires |st| == |convc| + 1 && 1 <= j <= |convc| && -1 <= i <= j - 2
    requires Chains(st, j - 1) && Link(st, j)
    ensures |r| == |st| && Chains(r, j)
    ensures forall x :: 0 <= x < |st| && x != j ==> r[x] == st[x]
    decreases i + 1
  {
    if i < 0 then st
    else
      match OptiPenalty(convc, fit, i, Mod(j, |convc|))
      case None => st
      case Some(o) =>
        if st[j].len > st[i].len + 1 || (st[j].len == st[i].len + 1 && st[j].pen > st[i].pen + o.pen) then
          ChainLength(st, j - 1, i);
          var next := st[j := Entry(i, st[i].pen + o.pen, st[i].len + 1, Some(o))];
          ChainsKept(st, next, j - 1);
          Runs(convc, fit, j, i - 1, next)
        else
          Runs(convc, fit, j, i - 1, st)
  }

  /** Entry j before its inner loop: the chain through j-1 plus one segment. */
  function Extend(st: seq<Entry>, j: int): (r: seq<Entry>)
    requires 1 <= j < |st| && Chains(st, j - 1)
    ensures |r| == |st| && Chains(r, j - 1) && Link(r, j)
    ensures forall x :: 0 <= x < |st| && x != j ==> r[x] == st[x]
    ensures r[j] == Entry(j - 1, st[j - 1].pen, st[j - 1].len + 1, st[j].opt)
  {
    ChainLength(st, j - 1, j - 1);
    var r := st[j := Entry(j - 1, st[j - 1].pen, st[j - 1].len + 1, st[j].opt)];
    ChainsKept(st, r, j - 1);
    r
  }

  /** The outer loop over j = from..m. */
  function Fill(convc: seq<int>, fit: (int, int) -> Option<Opti>, from: int, st: seq<Entry>): (r: seq<Entry>)
    requires |st| == |convc| + 1 && 1 <= from <= |convc| + 1 && Chains(st, from - 1)
    ensures |r| == |st| && Chains(r, |convc|)
    decreases |convc| + 1 - from
  {
    if from > |convc| then st
    else Fill(convc, fit, from + 1, Runs(convc, fit, from, from - 2, Extend(st, from)))
  }

  /** pt[0] = -1, pen[0] = 0, len[0] = 0; the other entries are written before they are read. */
  function Start(m: nat): (st: seq<Entry>)
    ensures |st| == m + 1 && Chains(st, 0)
    ensures forall x :: 0 <= x <= m ==> st[x].opt == None
  {
    seq(m + 1, _ => Entry(-1, 0.0, 0, None))
  }

  /** One segment of the optimised curve, with the s and t that go into beta. */
  datatype Piece = Piece(tag: Tag, c0: Point, c1: Point, c2: Point, vertex: Point,
                         alpha: real, alpha0: real, s: real, t: real)

  /** Input segment q copied verbatim, with s = t = 1. */
  function Copy(cv: Curve, q: int): Piece
    requires cv.Valid() && 0 <= q < cv.n
  {
    Piece(cv.tag[q], cv.c[3 * q], cv.c[3 * q + 1], cv.c[3 * q + 2], cv.vertex[q],
          cv.alpha[q], cv.alpha0[q], 1.0, 1.0)
  }

  /** The run ending at segment q replaced by the fitted CURVE. */
  function Merge(cv: Curve, o: Opti, q: int): Piece
    requires cv.Valid() && 0 <= q < cv.n
  {
    Piece(Curved, o.c0, o.c1, cv.c[3 * q + 2], Interval(o.s, cv.c[3 * q + 2], cv.vertex[q]),
          o.alpha, o.alpha, o.s, o.t)
  }

  predicate IsCopy(cv: Curve, p: Piece)
    requires cv.Valid()
  {
    exists q :: 0 <= q < cv.n && p == Copy(cv, q)
  }

  /** The read-back loop: the chain from j, len[j] segments long, oldest first. */
  function Rebuild(cv: Curve, st: seq<Entry>, j: int): (ps: seq<Piece>)
    requires cv.Valid() && cv.n >= 1 && |st| == cv.n + 1 && Chains(st, cv.n) && 0 <= j <= cv.n
    ensures |ps| == st[j].len
    ensures forall a :: 0 <= a < |ps| ==> IsCopy(cv, ps[a]) || (ps[a].tag == Curved && ps[a].alpha == ps[a].alpha0)
    decreases j
  {
    if j == 0 then []
    else
      assert Link(st, j);
      var q := Mod(j, cv.n);
      var p := if st[j].pt == j - 1 then Copy(cv, q) else Merge(cv, st[j].opt.value, q);
      Rebuild(cv, st, st[j].pt) + [p]
  }

  /** The fit only ever proposes runs with s > 0 and t > 0. */
  ghost predicate PositiveFits(fit: (int, int) -> Option<Opti>)
  {
    forall i, j :: fit(i, j).Some? ==> fit(i, j).value.s > 0.0 && fit(i, j).value.t > 0.0
  }

  predicate PositiveEntry(e: Entry)
  {
    e.opt.Some? ==> e.opt.value.s > 0.0 && e.opt.value.t > 0.0
  }

  predicate AllPositive(st: seq<Entry>)
  {
    forall x :: 0 <= x < |st| ==> PositiveEntry(st[x])
  }

  predicate PositiveWeights(ps: seq<Piece>)
  {
    forall a :: 0 <= a < |ps| ==> ps[a].s > 0.0 && ps[a].t > 0.0
  }

  lemma {:induction false} RebuildWeights(cv: Curve, st: seq<Entry>, j: int)
    requires cv.Valid() && cv.n >= 1 && |st| == cv.n + 1 && Chains(st, cv.n) && 0 <= j <= cv.n
    requires AllPositive(st)
    ensures PositiveWeights(Rebuild(cv, st, j))
    decreases j
  {
    if j > 0 {
      assert Link(st, j);
      RebuildWeights(cv, st, st[j].pt);
    }
  }

  lemma {:induction false} RunsKeepFits(convc: seq<int>, fit: (int, int) -> Option<Opti>, j: int, i: int, st: seq<Entry>)
    requires |st| == |convc| + 1 && 1 <= j <= |convc| && -1 <= i <= j - 2
    requires Chains(st, j - 1) && Link(st, j)
    requires PositiveFits(fit) && AllPositive(st)
    ensures AllPositive(Runs(convc, fit, j, i, st))
    decreases i + 1
  {
    if i >= 0 {
      var pen := OptiPenalty(convc, fit, i, Mod(j, |convc|));
      if pen.Some? {
        var o := pen.value;
        if st[j].len > st[i].len + 1 || (st[j].len == st[i].len + 1 && st[j].pen > st[i].pen + o.pen) {
          ChainLength(st, j - 1, i);
          var next := st[j := Entry(i, st[i].pen + o.pen, st[i].len + 1, Some(o))];
          ChainsKept(st, next, j - 1);
          assert PositiveEntry(next[j]) by {
            assert pen == fit(i, Mod(j, |convc|));
          }
          assert AllPositive(next) by {
            forall x | 0 <= x < |next|
              ensures PositiveEntry(next[x])
            {
              if x != j {
                assert next[x] == st[x];
              }
            }
          }
          assert Runs(convc, fit, j, i, st) == Runs(convc, fit, j, i - 1, next);
          RunsKeepFits(convc, fit, j, i - 1, next);
        } else {
          assert Runs(convc, fit, j, i, st) == Runs(convc, fit, j, i - 1, st);
          RunsKeepFits(convc, fit, j, i - 1, st);
        }
      }
    }
  }

  /** The fits stored in the tables are fits the parameter produced. */
  lemma {:induction false} FillKeepsFits(convc: seq<int>, fit: (int, int) -> Option<Opti>, from: int, st: seq<Entry>)
    requires |st| == |convc| + 1 && 1 <= from <= |convc| + 1 && Chains(st, from - 1)
    requires PositiveFits(fit) && AllPositive(st)
    ensures AllPositive(Fill(convc, fit, from, st))
    decreases |convc| + 1 - from
  {
    if from <= |convc| {
      var e := Extend(st, from);
      assert AllPositive(e) by {
        forall x | 0 <= x < |e|
          ensures PositiveEntry(e[x])
        {
          if x != from {
            assert e[x] == st[x];
          }
        }
      }
      RunsKeepFits(convc, fit, from, from - 2, e);
      var r := Runs(convc, fit, from, from - 2, e);
      FillKeepsFits(convc, fit, from + 1, r);
      assert Fill(convc, fit, from, st) == Fill(convc, fit, from + 1, r);
    }
  }

  /** The segments of the optimised curve. */
  function Pieces(cv: Curve, fit: (int, int) -> Option<Opti>): (ps: seq<Piece>)
    requires cv.Valid() && cv.n >= 1
    ensures 1 <= |ps| <= cv.n
    ensures forall a :: 0 <= a < |ps| ==> IsCopy(cv, ps[a]) || (ps[a].tag == Curved && ps[a].alpha == ps[a].alpha0)
  {
    var st := Fill(Convexity(cv), fit, 1, Start(cv.n));
    assert Link(st, cv.n);
    Rebuild(cv, st, cv.n)
  }

  /** Positive fits give positive weights, so that every beta is defined. */
  lemma PiecesWeights(cv: Curve, fit: (int, int) -> Option<Opti>)
    requires cv.Valid() && cv.n >= 1 && PositiveFits(fit)
    ensures PositiveWeights(Pieces(cv, fit))
  {
    var st := Fill(Convexity(cv), fit, 1, Start(cv.n));
    FillKeepsFits(Convexity(cv), fit, 1, Start(cv.n));
    RebuildWeights(cv, st, cv.n);
  }

  /** The index after a, cyclically: (a + 1) mod n. */
  function Next(a: int, n: int): (r: int)
    requires 0 <= a < n
    ensures 0 <= r < n && r == Mod(a + 1, n)
  {
    if a + 1 == n then 0 else a + 1
  }

  /** beta = s / (s + t), strictly between 0 and 1 for positive weights. */
  function Beta(s: real, t: real): (b: real)
    requires s > 0.0 && t > 0.0
    ensures 0.0 < b < 1.0
  {
    s / (s + t)
  }

  /** beta[a] = s[a] / (s[a] + t[a+1]), cyclically. */
  function Betas(ps: seq<Piece>): (b: seq<real>)
    requires |ps| >= 1 && PositiveWeights(ps)
    ensures |b| == |ps|
    ensures forall a :: 0 <= a < |ps| ==> b[a] == Beta(ps[a].s, ps[Next(a, |ps|)].t)
  {
    seq(|ps|, a requires 0 <= a < |ps| => Beta(ps[a].s, ps[Next(a, |ps|)].t))
  }

  /** The optimised curve of om = len[m] segments. */
  function Assemble(ps: seq<Piece>): (r: Curve)
    requires |ps| >= 1 && PositiveWeights(ps)
    ensures r.Valid() && r.n == |ps| && r.alphaCurve == 1.0
    ensures forall a :: 0 <= a < |ps| ==> r.tag[a] == ps[a].tag && r.vertex[a] == ps[a].vertex
    ensures forall a :: 0 <= a < |ps| ==> r.alpha[a] == ps[a].alpha && r.alpha0[a] == ps[a].alpha0
    ensures forall a :: 0 <= a < |ps| ==> r.c[3 * a] == ps[a].c0 && r.c[3 * a + 1] == ps[a].c1 && r.c[3 * a + 2] == ps[a].c2
    ensures forall a :: 0 <= a < |ps| ==> r.beta[a] == Beta(ps[a].s, ps[Next(a, |ps|)].t)
  {
    var (tag, vertex) := PieceShapes(ps);
    var (alpha, alpha0) := PieceAlphas(ps);
    Curve(|ps|, tag, PieceControls(ps), 1.0, vertex, alpha, alpha0, Betas(ps))
  }

  /** The tags and vertices of the pieces. */
  function PieceShapes(ps: seq<Piece>): (r: (seq<Tag>, seq<Point>))
    ensures |r.0| == |ps| && |r.1| == |ps|
    ensures forall a :: 0 <= a < |ps| ==> r.0[a] == ps[a].tag && r.1[a] == ps[a].vertex
  {
    (seq(|ps|, a requires 0 <= a < |ps| => ps[a].tag), seq(|ps|, a requires 0 <= a < |ps| => ps[a].vertex))
  }

  /** The alphas and alpha0s of the pieces. */
  function PieceAlphas(ps: seq<Piece>): (r: (seq<real>, seq<real>))
    ensures |r.0| == |ps| && |r.1| == |ps|
    ensures forall a :: 0 <= a < |ps| ==> r.0[a] == ps[a].alpha && r.1[a] == ps[a].alpha0
  {
    (seq(|ps|, a requires 0 <= a < |ps| => ps[a].alpha), seq(|ps|, a requires 0 <= a < |ps| => ps[a].alpha0))
  }

  /** The control points of the pieces, laid out as c is. */
  function PieceControls(ps: seq<Piece>): (c: seq<Point>)
    ensures |c| == 3 * |ps|
    ensures forall a :: 0 <= a < |ps| ==> c[3 * a] == ps[a].c0 && c[3 * a + 1] == ps[a].c1 && c[3 * a + 2] == ps[a].c2
  {
    Interleave(seq(|ps|, a requires 0 <= a < |ps| => ps[a].c0), seq(|ps|, a requires 0 <= a < |ps| => ps[a].c1),
               seq(|ps|, a requires 0 <= a < |ps| => ps[a].c2))
  }

  /** Segment a of r is input segment q unchanged, apart from beta. */
  predicate CopiedFrom(cv: Curve, r: Curve, a: int, q: int)
    requires cv.Valid() && r.Valid() && 0 <= a < r.n && 0 <= q < cv.n
  {
    && r.tag[a] == cv.tag[q] && r.vertex[a] == cv.vertex[q]
    && r.c[3 * a] == cv.c[3 * q] && r.c[3 * a + 1] == cv.c[3 * q + 1] && r.c[3 * a + 2] == cv.c[3 * q + 2]
    && r.alpha[a] == cv.alpha[q] && r.alpha0[a] == cv.alpha0[q]
  }

  /**
   * `optiCurve`: om = len[m] segments, no more than before, each a verbatim
   * copy of an input segment or a fitted CURVE with alpha = alpha0; every beta
   * lies strictly between 0 and 1.
   */
  function OptiCurve(cv: Curve, fit: (int, int) -> Option<Opti>): (r: Curve)
    requires cv.Valid() && cv.n >= 1 && PositiveFits(fit)
    ensures r.Valid() && 1 <= r.n <= cv.n && r.alphaCurve == 1.0
    ensures forall a :: 0 <= a < r.n ==>
      (exists q :: 0 <= q < cv.n && CopiedFrom(cv, r, a, q)) || (r.tag[a] == Curved && r.alpha[a] == r.alpha0[a])
    ensures forall a :: 0 <= a < r.n ==> 0.0 < r.beta[a] < 1.0
  {
    var ps := Pieces(cv, fit);
    PiecesWeights(cv, fit);
    var r := Assemble(ps);
    AssembledSegments(cv, ps, r);
    r
  }

  lemma AssembledSegments(cv: Curve, ps: seq<Piece>, r: Curve)
    requires cv.Valid() && r.Valid() && r.n == |ps|
    requires forall a :: 0 <= a < |ps| ==> IsCopy(cv, ps[a]) || (ps[a].tag == Curved && ps[a].alpha == ps[a].alpha0)
    requires forall a :: 0 <= a < |ps| ==> r.tag[a] == ps[a].tag && r.vertex[a] == ps[a].vertex
    requires forall a :: 0 <= a < |ps| ==> r.alpha[a] == ps[a].alpha && r.alpha0[a] == ps[a].alpha0
    requires forall a :: 0 <= a < |ps| ==> r.c[3 * a] == ps[a].c0 && r.c[3 * a + 1] == ps[a].c1 && r.c[3 * a + 2] == ps[a].c2
    ensures forall a :: 0 <= a < r.n ==>
      (exists q :: 0 <= q < cv.n && CopiedFrom(cv, r, a, q)) || (r.tag[a] == Curved && r.alpha[a] == r.alpha0[a])
  {
    forall a | 0 <= a < r.n && IsCopy(cv, ps[a])
      ensures exists q :: 0 <= q < cv.n && CopiedFrom(cv, r, a, q)
    {
      var q :| 0 <= q < cv.n && ps[a] == Copy(cv, q);
      assert CopiedFrom(cv, r, a, q);
    }
  }

  /** The fit that rejects every run. */
  function NoFit(i: int, j: int): Option<Opti>
  {
    None
  }

  /** Entries below upTo chain each j to j-1. */
  predicate Unmerged(st: seq<Entry>, upTo: int)
  {
    forall x :: 0 <= x < upTo && x < |st| ==> st[x].len == x && (x >= 1 ==> st[x].pt == x - 1)
  }

  /** With every run rejected, each j keeps the chain through j-1. */
  lemma {:induction false} NoFitChains(convc: seq<int>, from: int, st: seq<Entry>)
    requires |st| == |convc| + 1 && 1 <= from <= |convc| + 1 && Chains(st, from - 1)
    requires Unmerged(st, from)
    ensures Unmerged(Fill(convc, NoFit, from, st), |st|)
    decreases |convc| + 1 - from
  {
    if from <= |convc| {
      var e := Extend(st, from);
      assert Runs(convc, NoFit, from, from - 2, e) == e by {
        if from >= 2 {
          assert OptiPenalty(convc, NoFit, from - 2, Mod(from, |convc|)) == None;
        }
      }
      assert Unmerged(e, from + 1) by {
        forall x | 0 <= x < from + 1
          ensures e[x].len == x && (x >= 1 ==> e[x].pt == x - 1)
        {
          if x != from {
            assert e[x] == st[x];
          }
        }
      }
      NoFitChains(convc, from + 1, e);
      assert Fill(convc, NoFit, from, st) == Fill(convc, NoFit, from + 1, e);
    }
  }

  lemma {:induction false} NoFitRebuild(cv: Curve, st: seq<Entry>, j: int)
    requires cv.Valid() && cv.n >= 1 && |st| == cv.n + 1 && Chains(st, cv.n)
    requires Unmerged(st, |st|)
    requires 0 <= j <= cv.n
    ensures var ps := Rebuild(cv, st, j); |ps| == j && forall a :: 0 <= a < j ==> ps[a] == Copy(cv, Mod(a + 1, cv.n))
    decreases j
  {
    if j > 0 {
      NoFitRebuild(cv, st, j - 1);
    }
  }

  /**
   * With no run accepted the curve keeps all m segments, shifted by one:
   * segment a of the result is input segment a+1 (mod m), and every beta is 1/2.
   */
  lemma NoFitRotates(cv: Curve)
    requires cv.Valid() && cv.n >= 1
    ensures PositiveFits(NoFit)
    ensures Rotated(cv, OptiCurve(cv, NoFit))
  {
    var st := Fill(Convexity(cv), NoFit, 1, Start(cv.n));
    NoFitChains(Convexity(cv), 1, Start(cv.n));
    NoFitRebuild(cv, st, cv.n);
    var ps := Pieces(cv, NoFit);
    assert ps == Rebuild(cv, st, cv.n);
    PiecesWeights(cv, NoFit);
    var r := OptiCurve(cv, NoFit);
    assert r == Assemble(ps);
    RotatedFromCopies(cv, ps, r);
  }

  lemma RotatedFromCopies(cv: Curve, ps: seq<Piece>, r: Curve)
    requires cv.Valid() && cv.n >= 1 && r.Valid() && r.n == |ps| == cv.n
    requires forall a :: 0 <= a < |ps| ==> ps[a] == Copy(cv, Mod(a + 1, cv.n))
    requires forall a :: 0 <= a < |ps| ==> r.tag[a] == ps[a].tag && r.vertex[a] == ps[a].vertex
    requires forall a :: 0 <= a < |ps| ==> r.alpha[a] == ps[a].alpha && r.alpha0[a] == ps[a].alpha0
    requires forall a :: 0 <= a < |ps| ==> r.c[3 * a] == ps[a].c0 && r.c[3 * a + 1] == ps[a].c1 && r.c[3 * a + 2] == ps[a].c2
    requires PositiveWeights(ps) && forall a :: 0 <= a < |ps| ==> r.beta[a] == Beta(ps[a].s, ps[Next(a, |ps|)].t)
    ensures Rotated(cv, r)
  {
    forall a | 0 <= a < r.n
      ensures RotatedAt(cv, r, a)
    {
      var q := Mod(a + 1, cv.n);
      assert ps[a] == Copy(cv, q);
      assert CopiedFrom(cv, r, a, q);
      var b := Next(a, |ps|);
      assert ps[b].t == 1.0;
      assert r.beta[a] == Beta(1.0, 1.0);
    }
  }

  /** r is cv shifted by one segment, with every beta 1/2. */
  predicate Rotated(cv: Curve, r: Curve)
    requires cv.Valid() && cv.n >= 1 && r.Valid()
  {
    r.n == cv.n && forall a :: 0 <= a < r.n ==> RotatedAt(cv, r, a)
  }

  predicate RotatedAt(cv: Curve, r: Curve, a: int)
    requires cv.Valid() && cv.n >= 1 && r.Valid() && 0 <= a < r.n
  {
    CopiedFrom(cv, r, a, Mod(a + 1, cv.n)) && r.beta[a] == 0.5
  }

  // ---------------------------------------------------------------- renderCurve

  datatype Command = Move(to: Point) | Cubic(p0: Point, p1: Point, p2: Point) | Line(p1: Point, p2: Point)

  function Scaled(p: Point, width: real, height: real): Point
  {
    Point(p.x * width, p.y * height)
  }

  function SegmentCommand(cv: Curve, i: int, width: real, height: real): (cmd: Command)
    requires cv.Valid() && 0 <= i < cv.n
  {
    var p0, p1, p2 := Scaled(cv.c[3 * i], width, height), Scaled(cv.c[3 * i + 1], width, height),
                      Scaled(cv.c[3 * i + 2], width, height);
    if cv.tag[i] == Curved then Cubic(p0, p1, p2) else Line(p1, p2)
  }

  /** The point a drawing command ends at. */
  function EndPoint(cmd: Command): Point
  {
    match cmd
    case Move(p) => p
    case Cubic(_, _, p) => p
    case Line(_, p) => p
  }

  /**
   * `renderCurve`: a Move to the end point of the last segment, then one C
   * (through c[3i], c[3i+1] to c[3i+2]) or L (to c[3i+1] and c[3i+2]) per
   * segment, all scaled by width and height; the drawing ends where it
   * started. A curve without segments has no last end point and the source
   * throws.
   */
  function Render(cv: Curve, width: real, height: real): (r: Option<seq<Command>>)
    requires cv.Valid()
    ensures r.None? <==> cv.n == 0
    ensures r.Some? ==>
      (&& |r.value| == cv.n + 1
       && r.value[0] == Move(Scaled(cv.c[3 * (cv.n - 1) + 2], width, height))
       && EndPoint(r.value[cv.n]) == EndPoint(r.value[0]))
    ensures r.Some? ==> forall i :: 0 <= i < cv.n ==>
      (&& (cv.tag[i] == Curved ==> r.value[i + 1] == Cubic(Scaled(cv.c[3 * i], width, height),
                                                          Scaled(cv.c[3 * i + 1], width, height),
                                                          Scaled(cv.c[3 * i + 2], width, height)))
       && (cv.tag[i] == Corner ==> r.value[i + 1] == Line(Scaled(cv.c[3 * i + 1], width, height),
                                                         Scaled(cv.c[3 * i + 2], width, height))))
  {
    if cv.n == 0 then None
    else
      var n := cv.n;
      Some([Move(Scaled(cv.c[3 * (n - 1) + 2], width, height))]
           + seq(n, i requires 0 <= i < n => SegmentCommand(cv, i, width, height)))
  }

  function ScaleCommand(cmd: Command, width: real, height: real): Command
  {
    match cmd
    case Move(p) => Move(Scaled(p, width, height))
    case Cubic(a, b, c) => Cubic(Scaled(a, width, height), Scaled(b, width, height), Scaled(c, width, height))
    case Line(a, b) => Line(Scaled(a, width, height), Scaled(b, width, height))
  }

  lemma ScaledUnit(p: Point, width: real, height: real)
    ensures Scaled(Scaled(p, 1.0, 1.0), width, height) == Scaled(p, width, height)
  {
  }

  /** Rendering at a size is rendering at unit size, then scaling every point. */
  lemma RenderScales(cv: Curve, width: real, height: real)
    requires cv.Valid() && cv.n >= 1
    ensures var r, u := Render(cv, width, height).value, Render(cv, 1.0, 1.0).value;
      |r| == |u| && forall i :: 0 <= i < |u| ==> r[i] == ScaleCommand(u[i], width, height)
  {
    var r, u := Render(cv, width, height).value, Render(cv, 1.0, 1.0).value;
    ScaledUnit(cv.c[3 * (cv.n - 1) + 2], width, height);
    forall i | 1 <= i < |u|
      ensures r[i] == ScaleCommand(u[i], width, height)
    {
      var k := i - 1;
      ScaledUnit(cv.c[3 * k], width, height);
      ScaledUnit(cv.c[3 * k + 1], width, height);
      ScaledUnit(cv.c[3 * k + 2], width, height);
    }
  }
}
