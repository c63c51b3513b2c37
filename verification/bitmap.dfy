/**
 * The luminance bitmap and the contour tracer of src/types/Bitmap.ts: flat
 * row-major indexing (with the source's inclusive bounds), thresholding to a
 * 0/1 bitmap, the turtle walk that traces one path, the ring-majority vote,
 * the xor-clearing of a traced path, and the find-next loop.
 */
module Bitmaps {
  import opened Wrappers
  import opened Utils

  /** A lattice point: a pixel, or the upper-left corner of a pixel. */
  datatype IPoint = IPoint(x: int, y: int)

  /** Luminance per pixel in row-major order (0..255, or 0/1 once thresholded). */
  datatype Bitmap = Bitmap(width: nat, height: nat, lum: seq<int>)
  {
    function Size(): nat
    {
      width * height
    }

    predicate Valid()
    {
      |lum| == width * height
    }

    predicate Binary()
    {
      forall i :: 0 <= i < |lum| ==> lum[i] == 0 || lum[i] == 1
    }
  }

  // ---------------------------------------------------------------------
  // Indexing
  // ---------------------------------------------------------------------

  /**
   * `pointToIndex`: `range(n).contains` includes n itself, so x == width
   * and y == height are accepted; anything else out of range gives -1.
   */
  function PointToIndex(bm: Bitmap, x: int, y: int): (r: int)
    ensures r == -1 <==> !(0 <= x <= bm.width && 0 <= y <= bm.height)
    ensures r != -1 ==> r == bm.width * y + x
  {
    if !MakeRangeTo(bm.width).Contains(x) || !MakeRangeTo(bm.height).Contains(y) then -1
    else
      NonNegProduct(bm.width, y);
      bm.width * y + x
  }

  /**
   * `indexToPoint`: row y = floor(index / width), column the remainder, for
   * 0 <= index <= size (inclusive again); (-1, -1) otherwise. A width of 0
   * would divide by zero, and the only caller passes an index below the size.
   */
  function IndexToPoint(bm: Bitmap, index: int): (p: IPoint)
    requires bm.width > 0
    ensures 0 <= index <= bm.Size() ==> 0 <= p.x < bm.width && 0 <= p.y <= bm.height && bm.width * p.y + p.x == index
    ensures !(0 <= index <= bm.Size()) ==> p == IPoint(-1, -1)
  {
    if MakeRangeTo(bm.Size()).Contains(index) then
      var y := index / bm.width;
      assert index == y * bm.width + index % bm.width;
      RowBound(bm, index, y);
      IPoint(index - y * bm.width, y)
    else IPoint(-1, -1)
  }

  lemma RowBound(bm: Bitmap, index: int, y: int)
    requires bm.width > 0 && 0 <= index <= bm.Size()
    requires y == index / bm.width
    ensures 0 <= y <= bm.height
    ensures index < bm.Size() ==> y < bm.height
  {
    var w := bm.width;
    var rem := index % w;
    assert index == y * w + rem;
    assert (y - bm.height) * w == index - rem - bm.height * w;
    NonPositiveFactor(y - bm.height, w);
    if index < bm.Size() {
      assert (y - bm.height + 1) * w == index - rem - bm.height * w + w;
      NonPositiveFactor(y - bm.height + 1, w);
    }
  }

  /** With w > 0, a * w <= 0 forces a <= 0 (and a * w < w forces a < 1). */
  lemma NonPositiveFactor(a: int, w: int)
    requires w > 0
    ensures a * w <= 0 ==> a <= 0
    ensures a * w < w ==> a < 1
  {
    if a > 0 {
      NonNegProduct(a - 1, w);
    }
  }

  /** Inside the picture, indexToPoint and pointToIndex invert each other. */
  lemma IndexPointRoundTrip(bm: Bitmap, index: int)
    requires bm.width > 0 && 0 <= index < bm.Size()
    ensures var p := IndexToPoint(bm, index);
      0 <= p.x < bm.width && 0 <= p.y < bm.height && PointToIndex(bm, p.x, p.y) == index
  {
    RowBound(bm, index, index / bm.width);
  }

  lemma PointIndexRoundTrip(bm: Bitmap, x: int, y: int)
    requires 0 <= x < bm.width && 0 <= y < bm.height
    ensures 0 <= PointToIndex(bm, x, y) < bm.Size()
    ensures IndexToPoint(bm, PointToIndex(bm, x, y)) == IPoint(x, y)
  {
    var i := bm.width * y + x;
    assert bm.width * (bm.height - 1 - y) >= 0 by {
      NonNegProduct(bm.width, bm.height - 1 - y);
    }
    assert i < bm.Size();
    EuclideanUnique(i, bm.width, y, x);
  }

  /**
   * `getValueAt`: reading index -1 or past the end yields `undefined`, which
   * every caller treats as 0.
   */
  function GetValueAt(bm: Bitmap, x: int, y: int): (v: int)
    ensures v == 0 || (0 <= PointToIndex(bm, x, y) < |bm.lum| && v == bm.lum[PointToIndex(bm, x, y)])
    ensures !(0 <= x <= bm.width && 0 <= y <= bm.height) ==> v == 0
  {
    var i := PointToIndex(bm, x, y);
    if 0 <= i < |bm.lum| then bm.lum[i] else 0
  }

  /**
   * The inclusive bounds make column `width` an alias of column 0 of the
   * next row, and row `height` read as 0.
   */
  lemma InclusiveBoundsAlias(bm: Bitmap, x: int, y: int)
    requires bm.Valid() && 0 <= y && y + 1 < bm.height && 0 <= x <= bm.width
    ensures GetValueAt(bm, bm.width, y) == GetValueAt(bm, 0, y + 1)
    ensures GetValueAt(bm, x, bm.height) == 0
  {
    assert bm.width * (y + 1) == bm.width * y + bm.width;
    assert bm.width * bm.height + x >= bm.Size();
  }

  // ---------------------------------------------------------------------
  // Thresholding
  // ---------------------------------------------------------------------

  /** `pastTheThreshold`: 1 for the traced side, 0 for the other. */
  function PastThreshold(blackOnWhite: bool, threshold: int, v: int): (b: int)
    ensures b == 0 || b == 1
    ensures b == 1 <==> (if blackOnWhite then v <= threshold else v >= threshold)
  {
    if blackOnWhite then (if v > threshold then 0 else 1)
    else (if v < threshold then 0 else 1)
  }

  /**
   * `generateBinaryBitmap` as its name and comment intend: every pixel
   * mapped through the threshold; the histogram is derived from `lum`.
   */
  function BinaryBitmap(bm: Bitmap, blackOnWhite: bool, threshold: int): (r: Bitmap)
    ensures r.width == bm.width && r.height == bm.height && |r.lum| == |bm.lum|
    ensures bm.Valid() ==> r.Valid()
    ensures r.Binary()
    ensures forall i :: 0 <= i < |bm.lum| ==>
      (r.lum[i] == 1 <==> (if blackOnWhite then bm.lum[i] <= threshold else bm.lum[i] >= threshold))
  {
    Bitmap(bm.width, bm.height, seq(|bm.lum|, i requires 0 <= i < |bm.lum| => PastThreshold(blackOnWhite, threshold, bm.lum[i])))
  }

  /**
   * `generateBinaryBitmap` as written: the result of `bm.lum.map(...)` is
   * discarded, so the clone keeps the original luminance.
   */
  function BinaryBitmapAsWritten(bm: Bitmap, blackOnWhite: bool, threshold: int): (r: Bitmap)
    ensures r.lum == bm.lum
  {
    Bitmap(bm.width, bm.height, bm.lum)
  }

  /** A single pixel of luminance 200 at threshold 128 stays 200 instead of becoming 0. */
  lemma BinaryBitmapDiscardsMap()
    ensures BinaryBitmapAsWritten(Bitmap(1, 1, [200]), true, 128).lum == [200]
    ensures BinaryBitmap(Bitmap(1, 1, [200]), true, 128).lum == [0]
    ensures !BinaryBitmapAsWritten(Bitmap(1, 1, [200]), true, 128).Binary()
  {
    var r := BinaryBitmap(Bitmap(1, 1, [200]), true, 128);
    assert r.lum[0] == 0;
    assert !BinaryBitmapAsWritten(Bitmap(1, 1, [200]), true, 128).Binary() by {
      assert BinaryBitmapAsWritten(Bitmap(1, 1, [200]), true, 128).lum[0] == 200;
    }
  }

  // ---------------------------------------------------------------------
  // Majority
  // ---------------------------------------------------------------------

  /** A sample counts +1 when set and -1 otherwise. */
  function Vote(v: int): (r: int)
    ensures r == 1 || r == -1
    ensures r == 1 <==> v != 0
  {
    if v != 0 then 1 else -1
  }

  /** The four samples of ring i at offset a. */
  function RingSamples(bm: Bitmap, x: int, y: int, i: int, a: int): (r: int)
    ensures -4 <= r <= 4
  {
    Vote(GetValueAt(bm, x + a, y + i - 1))
    + Vote(GetValueAt(bm, x + i - 1, y + a - 1))
    + Vote(GetValueAt(bm, x + a - 1, y - i))
    + Vote(GetValueAt(bm, x - i, y + a))
  }

  function RingSum(bm: Bitmap, x: int, y: int, i: int, offsets: seq<int>): (r: int)
    ensures -4 * |offsets| <= r <= 4 * |offsets|
  {
    if offsets == [] then 0
    else RingSum(bm, x, y, i, offsets[..|offsets| - 1]) + RingSamples(bm, x, y, i, offsets[|offsets| - 1])
  }

  /** The count `ct` of ring i: offsets a = -i+1 .. i-1, four samples each. */
  function RingTotal(bm: Bitmap, x: int, y: int, i: int): (r: int)
    requires i >= 1
    ensures -4 * (2 * i - 1) <= r <= 4 * (2 * i - 1)
  {
    RingSum(bm, x, y, i, Forward(MakeRange(-i + 1, i)))
  }

  /** The first ring from i on (up to 4) whose total is not 0, or 5 when there is none. */
  function FirstDecidingRing(bm: Bitmap, x: int, y: int, i: int): (k: int)
    requires 2 <= i <= 5
    ensures i <= k <= 5
    ensures k <= 4 ==> RingTotal(bm, x, y, k) != 0
    ensures forall j :: i <= j < k ==> RingTotal(bm, x, y, j) == 0
    decreases 5 - i
  {
    if i == 5 || RingTotal(bm, x, y, i) != 0 then i else FirstDecidingRing(bm, x, y, i + 1)
  }

  /** The loop over rings i..4 with its early returns. */
  function MajorityFrom(bm: Bitmap, x: int, y: int, i: int): (r: bool)
    requires 2 <= i <= 5
    ensures var k := FirstDecidingRing(bm, x, y, i); r <==> (k <= 4 && RingTotal(bm, x, y, k) > 0)
    decreases 5 - i
  {
    if i > 4 then false
    else
      var ct := RingTotal(bm, x, y, i);
      if ct > 0 then true
      else if ct < 0 then false
      else MajorityFrom(bm, x, y, i + 1)
  }

  /**
   * `majority(x, y)`: decided by the first of rings 2, 3, 4 whose total is
   * not 0 (true when positive), and false when all three totals are 0.
   */
  function Majority(bm: Bitmap, x: int, y: int): (r: bool)
    ensures var k := FirstDecidingRing(bm, x, y, 2); r <==> (k <= 4 && RingTotal(bm, x, y, k) > 0)
    ensures (forall j :: 2 <= j <= 4 ==> RingTotal(bm, x, y, j) == 0) ==> !r
  {
    MajorityFrom(bm, x, y, 2)
  }

  // ---------------------------------------------------------------------
  // Xor-clearing a path
  // ---------------------------------------------------------------------

  /** `Number(!v)`: 0 becomes 1, anything else becomes 0. */
  function Toggle(v: int): (r: int)
    ensures r == 0 || r == 1
    ensures (v == 0 || v == 1) ==> r == 1 - v
  {
    if v == 0 then 1 else 0
  }

  /** n successive toggles. */
  function ToggleTimes(v: int, n: nat): int
  {
    if n == 0 then v else Toggle(ToggleTimes(v, n - 1))
  }

  /** On a 0/1 value, an even number of toggles is the identity and an odd one the complement. */
  lemma {:induction false} ToggleTimesParity(v: int, n: nat)
    requires v == 0 || v == 1
    ensures ToggleTimes(v, n) == if n % 2 == 0 then v else 1 - v
  {
    if n > 0 {
      ToggleTimesParity(v, n - 1);
    }
  }

  /** Writing to index -1 or past the end of a typed array does nothing. */
  function FlipAt(lum: seq<int>, idx: int): (r: seq<int>)
    ensures |r| == |lum|
    ensures forall k :: 0 <= k < |lum| ==> r[k] == if k == idx then Toggle(lum[k]) else lum[k]
  {
    if 0 <= idx < |lum| then lum[idx := Toggle(lum[idx])] else lum
  }

  /** The flips in order. */
  function ApplyFlips(lum: seq<int>, idxs: seq<int>): (r: seq<int>)
    ensures |r| == |lum|
  {
    if idxs == [] then lum else FlipAt(ApplyFlips(lum, idxs[..|idxs| - 1]), idxs[|idxs| - 1])
  }

  /** Pixel k ends up toggled once per occurrence of k among the flipped indexes. */
  lemma {:induction false} ApplyFlipsPointwise(lum: seq<int>, idxs: seq<int>, k: int)
    requires 0 <= k < |lum|
    ensures ApplyFlips(lum, idxs)[k] == ToggleTimes(lum[k], multiset(idxs)[k])
  {
    if idxs != [] {
      var init := idxs[..|idxs| - 1];
      ApplyFlipsPointwise(lum, init, k);
      assert idxs == init + [idxs[|idxs| - 1]];
      assert multiset(idxs) == multiset(init) + multiset{idxs[|idxs| - 1]};
    }
  }

  /** The indexes of row `row`, columns from..to-1 (`range(minX, maxX)`). */
  function RowIndexes(bm: Bitmap, from: int, to: int, row: int): (r: seq<int>)
    ensures |r| == |Forward(MakeRange(from, to))|
    ensures forall k :: 0 <= k < |r| ==> r[k] == PointToIndex(bm, from + k, row)
  {
    var xs := Forward(MakeRange(from, to));
    seq(|xs|, k requires 0 <= k < |xs| => PointToIndex(bm, xs[k], row))
  }

  /**
   * The indexes `xorPath` flips for vertices 1..n-1: at each vertex whose y
   * differs from the previous vertex's, row min(y_prev, y) from the vertex's
   * x up to maxX - 1. (`y0` in the source always holds the previous vertex's
   * y, since it is reassigned whenever the two differ.)
   */
  function XorIndexes(bm: Bitmap, vs: seq<IPoint>, maxX: int, n: nat): (r: seq<int>)
    requires 1 <= n <= |vs|
  {
    if n == 1 then []
    else
      var prev := vs[n - 2];
      var v := vs[n - 1];
      XorIndexes(bm, vs, maxX, n - 1)
        + (if v.y != prev.y then RowIndexes(bm, v.x, maxX, if prev.y < v.y then prev.y else v.y) else [])
  }

  /**
   * `xorPath`: flips exactly the pixels listed by XorIndexes, each once per
   * listing, and leaves every other pixel as it was.
   */
  function XorPath(bm: Bitmap, vs: seq<IPoint>, len: nat, maxX: int): (r: Bitmap)
    requires 1 <= len <= |vs|
    ensures r.width == bm.width && r.height == bm.height && |r.lum| == |bm.lum|
    ensures forall k :: 0 <= k < |bm.lum| ==>
      r.lum[k] == ToggleTimes(bm.lum[k], multiset(XorIndexes(bm, vs, maxX, len))[k])
    ensures forall k :: 0 <= k < |bm.lum| && k !in XorIndexes(bm, vs, maxX, len) ==> r.lum[k] == bm.lum[k]
  {
    var idxs := XorIndexes(bm, vs, maxX, len);
    var r := Bitmap(bm.width, bm.height, ApplyFlips(bm.lum, idxs));
    forall k | 0 <= k < |bm.lum|
      ensures r.lum[k] == ToggleTimes(bm.lum[k], multiset(idxs)[k])
    {
      ApplyFlipsPointwise(bm.lum, idxs, k);
    }
    r
  }

  /** The indexes depend only on the picture's dimensions, not on its pixels. */
  lemma {:induction false} XorIndexesIgnorePixels(a: Bitmap, b: Bitmap, vs: seq<IPoint>, maxX: int, n: nat)
    requires 1 <= n <= |vs| && a.width == b.width && a.height == b.height
    ensures XorIndexes(a, vs, maxX, n) == XorIndexes(b, vs, maxX, n)
  {
    if n > 1 {
      XorIndexesIgnorePixels(a, b, vs, maxX, n - 1);
      var prev, v := vs[n - 2], vs[n - 1];
      var y := if prev.y < v.y then prev.y else v.y;
      assert RowIndexes(a, v.x, maxX, y) == RowIndexes(b, v.x, maxX, y);
    }
  }

  /** Xor-clearing keeps a 0/1 bitmap 0/1, and clearing the same path twice restores it. */
  lemma XorPathInvolution(bm: Bitmap, vs: seq<IPoint>, len: nat, maxX: int)
    requires 1 <= len <= |vs| && bm.Binary()
    ensures XorPath(bm, vs, len, maxX).Binary()
    ensures XorPath(XorPath(bm, vs, len, maxX), vs, len, maxX) == bm
  {
    var once := XorPath(bm, vs, len, maxX);
    var twice := XorPath(once, vs, len, maxX);
    var idxs := XorIndexes(bm, vs, maxX, len);
    XorIndexesIgnorePixels(bm, once, vs, maxX, len);
    forall k | 0 <= k < |bm.lum|
      ensures once.lum[k] == 0 || once.lum[k] == 1
      ensures twice.lum[k] == bm.lum[k]
    {
      var c := multiset(idxs)[k];
      ToggleTimesParity(bm.lum[k], c);
      ToggleTimesParity(once.lum[k], c);
    }
    assert twice.lum == bm.lum;
  }

  // ---------------------------------------------------------------------
  // Tracing one path
  // ---------------------------------------------------------------------

  datatype Sign = Plus | Minus

  /** The six policies for an ambiguous turn. */
  datatype TurnPolicy = TurnBlack | TurnWhite | TurnLeft | TurnRight | TurnMinority | TurnMajority

  /** The fields of a Path that `findPath` fills in. */
  datatype TracedPath = TracedPath(area: int, len: nat, vertices: seq<IPoint>,
                                   minX: int, minY: int, maxX: int, maxY: int, sign: Sign)

  /** A fresh Path: the bounds start at 100000 and -1. */
  function EmptyPath(sign: Sign): TracedPath
  {
    TracedPath(0, 0, [], 100000, 100000, -1, -1, sign)
  }

  predicate AxisUnit(d: IPoint)
  {
    (d.x == 0 && (d.y == 1 || d.y == -1)) || (d.y == 0 && (d.x == 1 || d.x == -1))
  }

  /** (dx, dy) becomes (-dy, dx). */
  function RightTurn(d: IPoint): IPoint
  {
    IPoint(-d.y, d.x)
  }

  /** (dx, dy) becomes (dy, -dx). */
  function LeftTurn(d: IPoint): IPoint
  {
    IPoint(d.y, -d.x)
  }

  /** The two turns undo each other and, on a unit direction, give three distinct units. */
  lemma TurnsAreInverse(d: IPoint)
    ensures LeftTurn(RightTurn(d)) == d && RightTurn(LeftTurn(d)) == d
    ensures AxisUnit(d) ==> AxisUnit(RightTurn(d)) && AxisUnit(LeftTurn(d))
    ensures AxisUnit(d) ==> RightTurn(d) != LeftTurn(d) && RightTurn(d) != d && LeftTurn(d) != d
  {
  }

  /** The pixel ahead on the left of the walk at p heading d. */
  function LeftPixel(p: IPoint, d: IPoint): IPoint
  {
    IPoint(p.x + (d.x + d.y - 1) / 2, p.y + (d.y - d.x - 1) / 2)
  }

  /** The pixel ahead on the right of the walk at p heading d. */
  function RightPixel(p: IPoint, d: IPoint): IPoint
  {
    IPoint(p.x + (d.x - d.y - 1) / 2, p.y + (d.y + d.x - 1) / 2)
  }

  /**
   * For a unit heading the halvings are exact, both pixels have p as a
   * corner, and they sit side by side across the heading: right is left
   * moved one step to the right.
   */
  lemma PixelsAhead(p: IPoint, d: IPoint)
    requires AxisUnit(d)
    ensures (d.x + d.y - 1) % 2 == 0 && (d.y - d.x - 1) % 2 == 0 && (d.x - d.y - 1) % 2 == 0
    ensures var l, r := LeftPixel(p, d), RightPixel(p, d);
      r.x - l.x == RightTurn(d).x && r.y - l.y == RightTurn(d).y
    ensures var l, r := LeftPixel(p, d), RightPixel(p, d);
      p.x - 1 <= l.x <= p.x && p.y - 1 <= l.y <= p.y && p.x - 1 <= r.x <= p.x && p.y - 1 <= r.y <= p.y
    ensures var l := LeftPixel(p, d); l.x + 1 - p.x == (if d.x + d.y > 0 then 1 else 0)
  {
  }

  /** The policy's answer for an ambiguous turn. */
  predicate GoesRight(bm: Bitmap, policy: TurnPolicy, sign: Sign, p: IPoint)
  {
    || policy == TurnRight
    || (policy == TurnBlack && sign == Plus)
    || (policy == TurnWhite && sign == Minus)
    || (policy == TurnMajority && Majority(bm, p.x, p.y))
    || (policy == TurnMinority && !Majority(bm, p.x, p.y))
  }

  /**
   * The turn rule on the two pixel readings: with the right pixel set and
   * the left one clear the turn is ambiguous and `goesRight` decides;
   * otherwise a set right pixel turns right, two clear pixels turn left,
   * and a set left pixel with a clear right one goes straight on.
   */
  function Turn(left: bool, right: bool, goesRight: bool, d: IPoint): (r: IPoint)
    ensures AxisUnit(d) ==> AxisUnit(r)
    ensures r == d || r == RightTurn(d) || r == LeftTurn(d)
    ensures AxisUnit(d) ==>
      && (r == d <==> left && !right)
      && (right && !left ==> (r == RightTurn(d) <==> goesRight))
      && (right && left ==> r == RightTurn(d))
      && (!right && !left ==> r == LeftTurn(d))
  {
    TurnsAreInverse(d);
    if right && !left then (if goesRight then RightTurn(d) else LeftTurn(d))
    else if right then RightTurn(d)
    else if !left then LeftTurn(d)
    else d
  }

  /** The next heading of the walk at p, reading the two pixels ahead. */
  function NextDirection(bm: Bitmap, policy: TurnPolicy, sign: Sign, p: IPoint, d: IPoint): (r: IPoint)
    ensures AxisUnit(d) ==> AxisUnit(r)
  {
    var left := GetValueAt(bm, LeftPixel(p, d).x, LeftPixel(p, d).y) != 0;
    var right := GetValueAt(bm, RightPixel(p, d).x, RightPixel(p, d).y) != 0;
    Turn(left, right, GoesRight(bm, policy, sign, p), d)
  }

  predicate UnitStep(a: IPoint, b: IPoint)
  {
    AxisUnit(IPoint(b.x - a.x, b.y - a.y))
  }

  /** Consecutive points one lattice unit apart. */
  predicate Steps(s: seq<IPoint>)
  {
    forall k :: 0 < k < |s| ==> UnitStep(s[k - 1], s[k])
  }

  /** Every vertex inside [minX, maxX] x [minY, maxY]. */
  predicate InBounds(t: TracedPath)
  {
    forall k :: 0 <= k < |t.vertices| ==>
      t.minX <= t.vertices[k].x <= t.maxX && t.minY <= t.vertices[k].y <= t.maxY
  }

  /**
   * The area the walk accumulates along a chain of points: each move to q
   * from the point before subtracts q.x times the move's dy.
   */
  function ChainArea(s: seq<IPoint>): int
  {
    if |s| < 2 then 0
    else ChainArea(s[..|s| - 1]) - s[|s| - 1].x * (s[|s| - 1].y - s[|s| - 2].y)
  }

  /**
   * A finished walk from `start`: it starts there, moves one unit at a time,
   * returns to `start` after its last vertex and not before, its bounds
   * cover it, `len` counts it, and `area` is the closed chain's area.
   */
  predicate ClosedWalk(t: TracedPath, start: IPoint)
  {
    && |t.vertices| >= 1
    && t.len == |t.vertices|
    && t.vertices[0] == start
    && (forall k :: 1 <= k < |t.vertices| ==> t.vertices[k] != start)
    && Steps(t.vertices + [start])
    && InBounds(t)
    && t.area == ChainArea(t.vertices + [start])
  }

  /** What holds each time the loop of `findPath` is about to record the point p. */
  predicate WalkInvariant(path: TracedPath, start: IPoint, p: IPoint)
  {
    && path.len == |path.vertices|
    && (path.vertices == [] ==> p == start)
    && (path.vertices != [] ==> path.vertices[0] == start && p != start)
    && (forall k :: 1 <= k < |path.vertices| ==> path.vertices[k] != start)
    && Steps(path.vertices + [p])
    && InBounds(path)
    && path.area == ChainArea(path.vertices + [p])
  }

  /** Records p: appends it, counts it and widens the bounds. */
  function AddVertex(path: TracedPath, p: IPoint): TracedPath
  {
    path.(vertices := path.vertices + [p], len := path.len + 1,
          maxX := if p.x > path.maxX then p.x else path.maxX,
          maxY := if p.y > path.maxY then p.y else path.maxY,
          minX := if p.x < path.minX then p.x else path.minX,
          minY := if p.y < path.minY then p.y else path.minY)
  }

  /** One more unit move extends the chain's area by that move's term. */
  lemma ChainAreaStep(s: seq<IPoint>, p: IPoint, q: IPoint)
    ensures ChainArea(s + [p] + [q]) == ChainArea(s + [p]) - q.x * (q.y - p.y)
  {
    var t := s + [p] + [q];
    assert t[..|t| - 1] == s + [p];
  }

  lemma StepsExtend(s: seq<IPoint>, p: IPoint, q: IPoint)
    requires Steps(s + [p]) && UnitStep(p, q)
    ensures Steps(s + [p] + [q])
  {
    var t := s + [p] + [q];
    forall k | 0 < k < |t|
      ensures UnitStep(t[k - 1], t[k])
    {
      if k < |t| - 1 {
        assert t[k - 1] == (s + [p])[k - 1] && t[k] == (s + [p])[k];
      }
    }
  }

  /** Recording p and moving along d: the state after one round of the loop. */
  function Advance(path: TracedPath, p: IPoint, d: IPoint): TracedPath
  {
    var recorded := AddVertex(path, p);
    recorded.(area := recorded.area - (p.x + d.x) * d.y)
  }

  /**
   * One round keeps the invariant while the walk is away from the start and
   * closes the walk when it arrives there.
   */
  lemma AdvanceKeepsInvariant(path: TracedPath, start: IPoint, p: IPoint, d: IPoint)
    requires AxisUnit(d) && WalkInvariant(path, start, p)
    ensures var q, moved := IPoint(p.x + d.x, p.y + d.y), Advance(path, p, d);
      && moved.sign == path.sign
      && moved.vertices == path.vertices + [p]
      && (q == start ==> ClosedWalk(moved, start))
      && (q != start ==> WalkInvariant(moved, start, q))
  {
    var q := IPoint(p.x + d.x, p.y + d.y);
    RecordKeeps(path, start, p);
    ChainAreaStep(path.vertices, p, q);
    StepsExtend(path.vertices, p, q);
  }

  /** Recording p counts it, keeps start first and nowhere else, and keeps the bounds covering every vertex. */
  lemma RecordKeeps(path: TracedPath, start: IPoint, p: IPoint)
    requires WalkInvariant(path, start, p)
    ensures var r := AddVertex(path, p);
      && r.len == |r.vertices| && r.vertices[0] == start && InBounds(r)
      && forall k :: 1 <= k < |r.vertices| ==> r.vertices[k] != start
  {
    var r := AddVertex(path, p);
    assert forall k :: 0 <= k < |path.vertices| ==> r.vertices[k] == path.vertices[k];
  }

  /**
   * The loop of `findPath` from the point p with heading d. The source loops
   * until the walk is back at `start`; here at most `fuel` more moves are
   * made, and None means the fuel ran out first.
   */
  function Walk(bm: Bitmap, policy: TurnPolicy, start: IPoint, p: IPoint, d: IPoint,
                path: TracedPath, fuel: nat): (r: Option<TracedPath>)
    requires AxisUnit(d) && WalkInvariant(path, start, p)
    ensures r.Some? ==> ClosedWalk(r.value, start) && r.value.sign == path.sign
    ensures r.Some? ==> |r.value.vertices| > |path.vertices| && r.value.vertices[..|path.vertices| + 1] == path.vertices + [p]
    ensures r.Some? && IPoint(p.x + d.x, p.y + d.y) != start ==>
      |r.value.vertices| > |path.vertices| + 1 && r.value.vertices[|path.vertices| + 1] == IPoint(p.x + d.x, p.y + d.y)
    decreases fuel
  {
    var q := IPoint(p.x + d.x, p.y + d.y);
    var moved := Advance(path, p, d);
    AdvanceKeepsInvariant(path, start, p, d);
    if q == start then
      assert moved.vertices[..|path.vertices| + 1] == moved.vertices;
      Some(moved)
    else if fuel == 0 then None
    else
      var r := Walk(bm, policy, start, q, NextDirection(bm, policy, path.sign, q, d), moved, fuel - 1);
      PrefixOfPrefix(r, moved.vertices, q);
      r
  }

  /** A walk that continues `s + [q]` begins with `s`, and its next vertex is q. */
  lemma PrefixOfPrefix(r: Option<TracedPath>, s: seq<IPoint>, q: IPoint)
    requires r.Some? ==> |r.value.vertices| > |s| && r.value.vertices[..|s| + 1] == s + [q]
    ensures r.Some? ==> r.value.vertices[..|s|] == s && r.value.vertices[|s|] == q
  {
    if r.Some? {
      var v := r.value.vertices;
      assert v[..|s|] == v[..|s| + 1][..|s|];
      assert v[|s|] == v[..|s| + 1][|s|];
    }
  }

  /** The move budget of one walk: four per lattice point. */
  function WalkFuel(bm: Bitmap): nat
  {
    4 * (bm.width + 1) * (bm.height + 1)
  }

  /**
   * `findPath(point, turnPolicy)`: the sign is '+' exactly when the start
   * pixel is set; the walk starts heading (0, 1), so its second vertex is
   * the point below the start, and it closes back at the start.
   */
  function FindPath(bm: Bitmap, start: IPoint, policy: TurnPolicy): (r: Option<TracedPath>)
    ensures r.Some? ==> ClosedWalk(r.value, start)
    ensures r.Some? ==> (r.value.sign == Plus <==> GetValueAt(bm, start.x, start.y) != 0)
    ensures r.Some? ==> |r.value.vertices| >= 2 && r.value.vertices[1] == IPoint(start.x, start.y + 1)
  {
    var sign := if GetValueAt(bm, start.x, start.y) != 0 then Plus else Minus;
    EmptyPathStarts(sign, start);
    Walk(bm, policy, start, start, IPoint(0, 1), EmptyPath(sign), WalkFuel(bm))
  }

  /** The walk's invariant holds before the first round, at the start itself. */
  lemma EmptyPathStarts(sign: Sign, start: IPoint)
    ensures WalkInvariant(EmptyPath(sign), start, start) && EmptyPath(sign).vertices == []
    ensures AxisUnit(IPoint(0, 1)) && IPoint(start.x + 0, start.y + 1) != start
  {
  }

  // ---------------------------------------------------------------------
  // Finding every path
  // ---------------------------------------------------------------------

  /** The scan of `findNext`: the first index at or after i holding 1, or |lum|. */
  function FirstOne(lum: seq<int>, i: nat): (j: nat)
    requires i <= |lum|
    ensures i <= j <= |lum|
    ensures j < |lum| ==> lum[j] == 1
    ensures forall k :: i <= k < j ==> lum[k] != 1
    decreases |lum| - i
  {
    if i == |lum| || lum[i] == 1 then i else FirstOne(lum, i + 1)
  }

  /** The paths found, the bitmap left after clearing them, and where the last scan began. */
  datatype Traced = Traced(paths: seq<TracedPath>, bitmap: Bitmap, lastScan: nat)

  /**
   * `findNext` as its comment and its caller intend: scan from `from` to the
   * next pixel equal to 1, trace the path starting there, xor-clear it,
   * keep it only when its area exceeds `turdSize`, and go on from that
   * pixel until a scan finds no 1. The source bounds none of this; here at
   * most `fuel` paths are traced, and None means a budget ran out.
   */
  function FindPaths(bm: Bitmap, policy: TurnPolicy, turdSize: int, from: nat, fuel: nat): (r: Option<Traced>)
    requires bm.Valid() && from <= |bm.lum|
    ensures r.Some? ==> r.value.bitmap.Valid() && r.value.bitmap.width == bm.width && r.value.bitmap.height == bm.height
    ensures r.Some? ==> from <= r.value.lastScan <= |bm.lum|
    ensures r.Some? ==> FirstOne(r.value.bitmap.lum, r.value.lastScan) == |bm.lum|
    ensures r.Some? ==> forall k :: 0 <= k < |r.value.paths| ==> Kept(r.value.paths[k], turdSize)
    decreases fuel
  {
    var j := FirstOne(bm.lum, from);
    if j == |bm.lum| then Some(Traced([], bm, from))
    else if fuel == 0 then None
    else
      match TraceAt(bm, j, policy)
      case None => None
      case Some(path) =>
        var cleared := ClearPath(bm, path);
        match FindPaths(cleared, policy, turdSize, j, fuel - 1)
        case None => None
        case Some(rest) => Some(Despeckle(path, rest, turdSize))
  }

  /** The path is kept in front of the later ones only when its area exceeds `turdSize`. */
  function Despeckle(path: TracedPath, rest: Traced, turdSize: int): (r: Traced)
    requires Closed(path)
    requires forall k :: 0 <= k < |rest.paths| ==> Kept(rest.paths[k], turdSize)
    ensures r.bitmap == rest.bitmap && r.lastScan == rest.lastScan
    ensures forall k :: 0 <= k < |r.paths| ==> Kept(r.paths[k], turdSize)
    ensures r.paths == if path.area > turdSize then [path] + rest.paths else rest.paths
  {
    rest.(paths := if path.area > turdSize then [path] + rest.paths else rest.paths)
  }

  /**
   * A path `findNext` emits: traced from a set pixel, larger than
   * `turdSize`, and closed (its last vertex is one unit from its first).
   */
  predicate Kept(path: TracedPath, turdSize: int)
  {
    path.area > turdSize && Closed(path)
  }

  /** A '+' path of at least two vertices whose walk closes back at its first vertex. */
  predicate Closed(path: TracedPath)
  {
    path.sign == Plus && |path.vertices| >= 2 && Steps(path.vertices + [path.vertices[0]])
  }

  /** The path traced from pixel j, a pixel holding 1: its sign is '+'. */
  function TraceAt(bm: Bitmap, j: nat, policy: TurnPolicy): (r: Option<TracedPath>)
    requires bm.Valid() && j < |bm.lum| && bm.lum[j] == 1
    ensures r.Some? ==> Closed(r.value) && r.value.len == |r.value.vertices|
  {
    IndexPointRoundTrip(bm, j);
    FindPath(bm, IndexToPoint(bm, j), policy)
  }

  /** `xorPath` applied to a traced path, keeping the picture's dimensions. */
  function ClearPath(bm: Bitmap, path: TracedPath): (r: Bitmap)
    requires 1 <= path.len <= |path.vertices|
    ensures bm.Valid() ==> r.Valid()
    ensures r.width == bm.width && r.height == bm.height
  {
    XorPath(bm, path.vertices, path.len, path.maxX)
  }

  /**
   * `findNext` exactly as written: the generator body has no loop around
   * the scan, so it yields at most one path (the first, when it is large
   * enough) and then finishes.
   */
  function FindNextAsWritten(bm: Bitmap, policy: TurnPolicy, turdSize: int): (r: Option<seq<TracedPath>>)
    requires bm.Valid()
    ensures r.Some? ==> |r.value| <= 1
  {
    var i := PointToIndex(bm, 0, 0);
    var j := FirstOne(bm.lum, i);
    if j == |bm.lum| then Some([])
    else
      match TraceAt(bm, j, policy)
      case None => None
      case Some(path) => if path.area > turdSize then Some([path]) else Some([])
  }

  /** What the written generator yields is the first path of the intended loop. */
  lemma AsWrittenIsFirstPath(bm: Bitmap, policy: TurnPolicy, turdSize: int, fuel: nat)
    requires bm.Valid() && fuel >= 1
    requires FindNextAsWritten(bm, policy, turdSize).Some? && FindPaths(bm, policy, turdSize, 0, fuel).Some?
    ensures var w, t := FindNextAsWritten(bm, policy, turdSize).value, FindPaths(bm, policy, turdSize, 0, fuel).value;
      w == [] || (|t.paths| >= 1 && t.paths[0] == w[0])
  {
  }
}
