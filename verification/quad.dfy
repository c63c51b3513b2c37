/**
 * The 3x3 quadratic form over homogeneous coordinates (x, y, 1) (src/types/Quad.ts).
 */
module QuadForm {
  import opened Utils
  import opened Geometry

  /** Nine entries, row-major: entry (x, y) is at index 3x + y. */
  type Entries = s: seq<real> | |s| == 9 witness [0.0, 0.0, 0.0, 0.0, 0.0, 0.0, 0.0, 0.0, 0.0]

  datatype Quad = Quad(data: Entries)

  /** A fresh `Quad`: all nine entries are 0. */
  function NewQuad(): (q: Quad)
    ensures forall i :: 0 <= i < 9 ==> q.data[i] == 0.0
  {
    Quad([0.0, 0.0, 0.0, 0.0, 0.0, 0.0, 0.0, 0.0, 0.0])
  }

  /** `get(x, y)`. */
  function Get(q: Quad, x: int, y: int): real
    requires 0 <= x < 3 && 0 <= y < 3
  {
    q.data[x * 3 + y]
  }

  /** `set(x, y, val)`: entry (x, y) becomes v, the other eight keep their values. */
  function Set(q: Quad, x: int, y: int, v: real): (r: Quad)
    requires 0 <= x < 3 && 0 <= y < 3
    ensures Get(r, x, y) == v
    ensures forall x', y' :: 0 <= x' < 3 && 0 <= y' < 3 && (x', y') != (x, y) ==>
      Get(r, x', y') == Get(q, x', y')
  {
    Quad(q.data[x * 3 + y := v])
  }

  /** `prod(ux, uy, vx, vy)` = get(ux, uy) * get(vx, vy). */
  function Prod(q: Quad, ux: int, uy: int, vx: int, vy: int): real
    requires 0 <= ux < 3 && 0 <= uy < 3 && 0 <= vx < 3 && 0 <= vy < 3
  {
    Get(q, ux, uy) * Get(q, vx, vy)
  }

  /** One row of `scan`: (x, 0), (x, 1), ..., (x, k-1). */
  function ScanRow(x: int, k: nat): (r: seq<(int, int)>)
    ensures |r| == k
    ensures forall y :: 0 <= y < k ==> r[y] == (x, y)
  {
    if k == 0 then [] else ScanRow(x, k - 1) + [(x, k - 1)]
  }

  /** Cell i of a row-major scan of width k is (x, y) with i == x k + y. */
  predicate RowMajor(r: seq<(int, int)>, rows: nat, k: nat)
  {
    forall i :: 0 <= i < |r| ==> 0 <= r[i].0 < rows && 0 <= r[i].1 < k && i == r[i].0 * k + r[i].1
  }

  /** The cells `scan(fn, k)` visits, in order, for rows 0..rows-1 of width k. */
  function ScanRows(rows: nat, k: nat): (r: seq<(int, int)>)
    ensures |r| == rows * k
    ensures RowMajor(r, rows, k)
    ensures forall x, y :: 0 <= x < rows && 0 <= y < k ==> (x, y) in r
  {
    if rows == 0 then []
    else
      var prefix := ScanRows(rows - 1, k);
      var row := ScanRow(rows - 1, k);
      RowAppended(prefix, row, rows, k);
      prefix + row
  }

  /** A row-major scan of rows - 1 rows followed by row rows - 1 is a row-major scan of rows rows covering it all. */
  lemma RowAppended(prefix: seq<(int, int)>, row: seq<(int, int)>, rows: nat, k: nat)
    requires rows >= 1 && |prefix| == (rows - 1) * k && RowMajor(prefix, rows - 1, k)
    requires forall x, y :: 0 <= x < rows - 1 && 0 <= y < k ==> (x, y) in prefix
    requires |row| == k && forall y :: 0 <= y < k ==> row[y] == (rows - 1, y)
    ensures |prefix + row| == rows * k && RowMajor(prefix + row, rows, k)
    ensures forall x, y :: 0 <= x < rows && 0 <= y < k ==> (x, y) in prefix + row
  {
    var r := prefix + row;
    var base := (rows - 1) * k;
    assert base + k == rows * k;
    forall i | 0 <= i < |r|
      ensures 0 <= r[i].0 < rows && 0 <= r[i].1 < k && i == r[i].0 * k + r[i].1
    {
      if i >= base {
        assert r[i] == row[i - base] == (rows - 1, i - base);
      } else {
        assert r[i] == prefix[i];
      }
    }
    forall x, y | 0 <= x < rows && 0 <= y < k
      ensures (x, y) in r
    {
      if x == rows - 1 {
        assert r[base + y] == row[y];
      } else {
        assert (x, y) in prefix;
      }
    }
  }

  /** `Quad.scan(fn, k)`: fn is called on every (x, y) in [0, k)^2 in row-major order. */
  function Scan(k: nat): (r: seq<(int, int)>)
    ensures |r| == k * k
    ensures RowMajor(r, k, k)
    ensures forall x, y :: 0 <= x < k && 0 <= y < k ==> (x, y) in r
  {
    ScanRows(k, k)
  }

  /** Row-major order visits no cell twice. */
  lemma {:induction false} RowMajorInjective(r: seq<(int, int)>, rows: nat, k: nat)
    requires RowMajor(r, rows, k)
    ensures forall i, j :: 0 <= i < j < |r| ==> r[i] != r[j]
  {
    forall i, j | 0 <= i < j < |r|
      ensures r[i] != r[j]
    {
      assert i == r[i].0 * k + r[i].1;
      assert j == r[j].0 * k + r[j].1;
    }
  }

  /** The homogeneous vector (w.x, w.y, 1). */
  function Homogeneous(w: Point): seq<real>
  {
    [w.x, w.y, 1.0]
  }

  /** The term the scan callback adds for cell c. */
  function Term(q: Quad, vec: seq<real>, c: (int, int)): real
    requires |vec| == 3 && 0 <= c.0 < 3 && 0 <= c.1 < 3
  {
    vec[c.0] * Get(q, c.0, c.1) * vec[c.1]
  }

  predicate CellsInRange(cells: seq<(int, int)>)
  {
    forall i :: 0 <= i < |cells| ==> 0 <= cells[i].0 < 3 && 0 <= cells[i].1 < 3
  }

  /** The running sum `quadform` has built after scanning the given cells. */
  function AccumulateCells(q: Quad, vec: seq<real>, cells: seq<(int, int)>): real
    requires |vec| == 3 && CellsInRange(cells)
  {
    if cells == [] then 0.0
    else AccumulateCells(q, vec, cells[..|cells| - 1]) + Term(q, vec, cells[|cells| - 1])
  }

  lemma AccumulateStep(q: Quad, vec: seq<real>, cells: seq<(int, int)>, k: nat)
    requires |vec| == 3 && CellsInRange(cells) && k < |cells|
    ensures AccumulateCells(q, vec, cells[..k + 1]) == AccumulateCells(q, vec, cells[..k]) + Term(q, vec, cells[k])
  {
    assert cells[..k + 1][..k] == cells[..k];
  }

  /** In a row-major scan of width 3, cell i is (i / 3, i % 3). */
  lemma CellOfThree(r: seq<(int, int)>, i: int)
    requires RowMajor(r, 3, 3) && 0 <= i < |r|
    ensures r[i] == (i / 3, i % 3)
  {
  }

  /** Summing the nine cells in scan order gives the polynomial expansion. */
  lemma {:induction false} AccumulateThree(q: Quad, w: Point, cells: seq<(int, int)>)
    requires RowMajor(cells, 3, 3) && |cells| == 9
    ensures AccumulateCells(q, Homogeneous(w), cells) == Expanded(q, w)
  {
    var vec := Homogeneous(w);
    CellOfThree(cells, 0); CellOfThree(cells, 1); CellOfThree(cells, 2);
    CellOfThree(cells, 3); CellOfThree(cells, 4); CellOfThree(cells, 5);
    CellOfThree(cells, 6); CellOfThree(cells, 7); CellOfThree(cells, 8);
    AccumulateNine(q, vec, cells);
    TermsExpand(q, w);
  }

  /** The running sum over nine cells is the sum of their nine terms. */
  lemma {:induction false} AccumulateNine(q: Quad, vec: seq<real>, cells: seq<(int, int)>)
    requires |vec| == 3 && CellsInRange(cells) && |cells| == 9
    ensures AccumulateCells(q, vec, cells) ==
      Term(q, vec, cells[0]) + Term(q, vec, cells[1]) + Term(q, vec, cells[2])
      + Term(q, vec, cells[3]) + Term(q, vec, cells[4]) + Term(q, vec, cells[5])
      + Term(q, vec, cells[6]) + Term(q, vec, cells[7]) + Term(q, vec, cells[8])
  {
    AccumulateSteps(q, vec, cells, 0);
    AccumulateSteps(q, vec, cells, 3);
    AccumulateSteps(q, vec, cells, 6);
    assert cells[..0] == [];
    assert cells[..9] == cells;
  }

  /** Three more cells add their three terms. */
  lemma AccumulateSteps(q: Quad, vec: seq<real>, cells: seq<(int, int)>, k: nat)
    requires |vec| == 3 && CellsInRange(cells) && k + 3 <= |cells|
    ensures AccumulateCells(q, vec, cells[..k + 3]) ==
      AccumulateCells(q, vec, cells[..k]) + Term(q, vec, cells[k]) + Term(q, vec, cells[k + 1]) + Term(q, vec, cells[k + 2])
  {
    AccumulateStep(q, vec, cells, k);
    AccumulateStep(q, vec, cells, k + 1);
    AccumulateStep(q, vec, cells, k + 2);
  }

  /** The nine terms of (w.x, w.y, 1) Q (w.x, w.y, 1)^T add up to the expansion. */
  lemma TermsExpand(q: Quad, w: Point)
    ensures var vec := Homogeneous(w);
      Term(q, vec, (0, 0)) + Term(q, vec, (0, 1)) + Term(q, vec, (0, 2))
      + Term(q, vec, (1, 0)) + Term(q, vec, (1, 1)) + Term(q, vec, (1, 2))
      + Term(q, vec, (2, 0)) + Term(q, vec, (2, 1)) + Term(q, vec, (2, 2))
      == Expanded(q, w)
  {
  }

  /** `quadform(w)`: the scan-ordered sum of vec[x] Q[x][y] vec[y] with vec = (w.x, w.y, 1). */
  function Quadform(q: Quad, w: Point): (r: real)
    ensures r == Expanded(q, w)
  {
    AccumulateThree(q, w, Scan(3));
    AccumulateCells(q, Homogeneous(w), Scan(3))
  }

  /** The quadratic form written out as a polynomial in w.x and w.y. */
  function Expanded(q: Quad, w: Point): real
  {
    var d := q.data;
    d[0] * w.x * w.x + d[1] * w.x * w.y + d[2] * w.x
    + d[3] * w.y * w.x + d[4] * w.y * w.y + d[5] * w.y
    + d[6] * w.x + d[7] * w.y + d[8]
  }

  /** A fresh quad gives the zero form. */
  lemma NewQuadIsZeroForm(w: Point)
    ensures Quadform(NewQuad(), w) == 0.0
  {
  }

  /** The rank-one form adjustVertices builds for a line: Q[x][y] = v[x] v[y] / d. */
  function RankOne(v0: real, v1: real, v2: real, d: real): (q: Quad)
    requires d > 0.0
    ensures forall i :: 0 <= i < 9 ==> q.data[i] == Outer(v0, v1, v2).data[i] / d
  {
    Quad([v0 * v0 / d, v0 * v1 / d, v0 * v2 / d,
          v1 * v0 / d, v1 * v1 / d, v1 * v2 / d,
          v2 * v0 / d, v2 * v1 / d, v2 * v2 / d])
  }

  /** The outer product v v^T, undivided. */
  function Outer(v0: real, v1: real, v2: real): Quad
  {
    Quad([v0 * v0, v0 * v1, v0 * v2, v1 * v0, v1 * v1, v1 * v2, v2 * v0, v2 * v1, v2 * v2])
  }

  /** Every entry of q multiplied by c. */
  function Scale(q: Quad, c: real): (r: Quad)
    ensures forall i :: 0 <= i < 9 ==> r.data[i] == q.data[i] * c
  {
    Quad(seq(9, i requires 0 <= i < 9 => q.data[i] * c))
  }

  lemma ExpandedScales(q: Quad, c: real, w: Point)
    ensures Expanded(Scale(q, c), w) == c * Expanded(q, w)
  {
  }

  lemma OuterIsSquare(v0: real, v1: real, v2: real, w: Point)
    ensures Expanded(Outer(v0, v1, v2), w) == LineSquare(v0, v1, v2, w)
  {
  }

  lemma RankOneIsScaledOuter(v0: real, v1: real, v2: real, d: real)
    requires d > 0.0
    ensures RankOne(v0, v1, v2, d) == Scale(Outer(v0, v1, v2), 1.0 / d)
  {
    var o, c := Outer(v0, v1, v2), 1.0 / d;
    var a, b := RankOne(v0, v1, v2, d).data, Scale(o, c).data;
    forall i | 0 <= i < 9
      ensures a[i] == b[i]
    {
      DivideByScaling(o.data[i], d, c);
    }
    assert a == b;
  }

  lemma DivideByScaling(a: real, d: real, c: real)
    requires d > 0.0 && c == 1.0 / d
    ensures a / d == a * c
  {
  }

  lemma SquareNonNegative(a: real)
    ensures a * a >= 0.0
    ensures a != 0.0 ==> a * a > 0.0
  {
    if a < 0.0 {
      assert a * a == (-a) * (-a);
    }
  }

  lemma ProductNonNegative(a: real, b: real)
    requires a >= 0.0 && b >= 0.0
    ensures a * b >= 0.0
  {
  }

  /** The squared line functional (v0 w.x + v1 w.y + v2)^2. */
  function LineSquare(v0: real, v1: real, v2: real, w: Point): (r: real)
    ensures r >= 0.0
  {
    SquareNonNegative(v0 * w.x + v1 * w.y + v2);
    (v0 * w.x + v1 * w.y + v2) * (v0 * w.x + v1 * w.y + v2)
  }

  /** For d > 0 the rank-one form is the squared line functional scaled by 1/d, so never negative. */
  lemma {:induction false} RankOneIsSquare(v0: real, v1: real, v2: real, d: real, w: Point)
    requires d > 0.0
    ensures Expanded(RankOne(v0, v1, v2, d), w) == (1.0 / d) * LineSquare(v0, v1, v2, w)
    ensures Expanded(RankOne(v0, v1, v2, d), w) >= 0.0
  {
    RankOneIsScaledOuter(v0, v1, v2, d);
    ExpandedScales(Outer(v0, v1, v2), 1.0 / d, w);
    OuterIsSquare(v0, v1, v2, w);
    ProductNonNegative(1.0 / d, LineSquare(v0, v1, v2, w));
  }

  /** The error a segment's form assigns to any point is never negative. */
  lemma RankOneFormNonNegative(v0: real, v1: real, v2: real, d: real, w: Point)
    requires d > 0.0
    ensures Quadform(RankOne(v0, v1, v2, d), w) >= 0.0
  {
    RankOneIsSquare(v0, v1, v2, d, w);
  }
  // ------------------------------------------------ the forms of adjustVertices

  /** Entry-wise sum, as the unit-square scan adds the two forms that meet at a vertex. */
  function Add(a: Quad, b: Quad): (r: Quad)
    ensures forall x, y :: 0 <= x < 3 && 0 <= y < 3 ==> Get(r, x, y) == Get(a, x, y) + Get(b, x, y)
  {
    Quad(seq(9, i requires 0 <= i < 9 => a.data[i] + b.data[i]))
  }

  /** The determinant `adjustVertices` tests, `prod(0, 0, 1, 1) - prod(0, 1, 1, 0)`. */
  function Det(q: Quad): real
  {
    Prod(q, 0, 0, 1, 1) - Prod(q, 0, 1, 1, 0)
  }

  /** The 2x2 determinant of the given entries. */
  function Minor(e00: real, e01: real, e10: real, e11: real): real
  {
    e00 * e11 - e01 * e10
  }

  lemma DetOfEntries(q: Quad, e00: real, e01: real, e10: real, e11: real)
    requires Get(q, 0, 0) == e00 && Get(q, 0, 1) == e01 && Get(q, 1, 0) == e10 && Get(q, 1, 1) == e11
    ensures Det(q) == Minor(e00, e01, e10, e11)
  {
  }

  /** The cross product a0 b1 - a1 b0 of two line normals; 0 exactly when they are parallel. */
  function NormalCross(a0: real, a1: real, b0: real, b1: real): real
  {
    a0 * b1 - a1 * b0
  }

  lemma DetIdentity(a0: real, a1: real, b0: real, b1: real, p: real, r: real, e00: real, e01: real, e10: real, e11: real)
    requires e00 == a0 * a0 * p + b0 * b0 * r && e11 == a1 * a1 * p + b1 * b1 * r
    requires e01 == a0 * a1 * p + b0 * b1 * r && e10 == a1 * a0 * p + b1 * b0 * r
    ensures Minor(e00, e01, e10, e11) == SquareScaled(NormalCross(a0, a1, b0, b1), p * r)
  {
  }

  lemma PositiveProduct(p: real, r: real)
    requires p > 0.0 && r > 0.0
    ensures p * r > 0.0
  {
  }

  /** x c, kept as a term of its own so that x^2 c below is never seen as a square. */
  function Times(x: real, c: real): real
  {
    x * c
  }

  /** x^2 c. */
  function SquareScaled(x: real, c: real): real
  {
    x * Times(x, c)
  }

  lemma SquareTimesPositive(x: real, c: real)
    requires x != 0.0 && c > 0.0
    ensures SquareScaled(x, c) > 0.0
  {
    if x > 0.0 {
      assert Times(x, c) > 0.0;
    } else {
      assert Times(x, c) < 0.0;
    }
  }

  lemma ZeroSquareTimes(x: real, c: real)
    requires x == 0.0
    ensures SquareScaled(x, c) == 0.0
  {
  }

  /**
   * The sum of two rank-one forms a a^T / da and b b^T / db has
   * det = (a0 b1 - a1 b0)^2 / (da db): it is 0 exactly when the two lines
   * have parallel normals.
   */
  lemma AddedRankOneDet(a0: real, a1: real, a2: real, da: real, b0: real, b1: real, b2: real, db: real)
    requires da > 0.0 && db > 0.0
    ensures NormalCross(a0, a1, b0, b1) == 0.0 ==> Det(Add(RankOne(a0, a1, a2, da), RankOne(b0, b1, b2, db))) == 0.0
    ensures NormalCross(a0, a1, b0, b1) != 0.0 ==> Det(Add(RankOne(a0, a1, a2, da), RankOne(b0, b1, b2, db))) != 0.0
  {
    var p, r := 1.0 / da, 1.0 / db;
    RankOneIsScaledOuter(a0, a1, a2, da);
    RankOneIsScaledOuter(b0, b1, b2, db);
    var s := Add(RankOne(a0, a1, a2, da), RankOne(b0, b1, b2, db));
    var e00, e01, e10, e11 := a0 * a0 * p + b0 * b0 * r, a0 * a1 * p + b0 * b1 * r,
                              a1 * a0 * p + b1 * b0 * r, a1 * a1 * p + b1 * b1 * r;
    DetOfEntries(s, e00, e01, e10, e11);
    DetIdentity(a0, a1, b0, b1, p, r, e00, e01, e10, e11);
    if NormalCross(a0, a1, b0, b1) == 0.0 {
      ZeroSquareTimes(NormalCross(a0, a1, b0, b1), p * r);
    } else {
      PositiveProduct(p, r);
      SquareTimesPositive(NormalCross(a0, a1, b0, b1), p * r);
    }
  }

  /** The squared length dir.x^2 + dir.y^2 that `adjustVertices` divides by. */
  function SquaredLength(dir: Point): (d: real)
    ensures d >= 0.0
  {
    SquareNonNegative(dir.x);
    SquareNonNegative(dir.y);
    dir.x * dir.x + dir.y * dir.y
  }

  /**
   * The form of one segment, the line through ctr with direction dir as
   * `pointslope` gives them: the zero form when the squared length of dir
   * is 0, otherwise vec vec^T / |dir|^2 with
   * vec = (dir.y, -dir.x, dir.x ctr.y - dir.y ctr.x).
   */
  function SegmentForm(ctr: Point, dir: Point): Quad
  {
    if SquaredLength(dir) == 0.0 then NewQuad()
    else RankOne(dir.y, -dir.x, CrossProduct(dir, ctr), SquaredLength(dir))
  }

  /** With a non-zero squared length, a segment's form is the rank-one form of its normal line. */
  lemma SegmentFormIsRankOne(ctr: Point, dir: Point)
    requires SquaredLength(dir) != 0.0
    ensures SegmentForm(ctr, dir) == RankOne(dir.y, -dir.x, CrossProduct(dir, ctr), SquaredLength(dir))
  {
  }

  lemma LineSquareZero(v0: real, v1: real, v2: real, w: Point)
    requires v0 * w.x + v1 * w.y + v2 == 0.0
    ensures LineSquare(v0, v1, v2, w) == 0.0
  {
  }

  lemma TimesZero(c: real, z: real)
    requires z == 0.0
    ensures c * z == 0.0
  {
  }

  /** A rank-one form is 0 at a point of its line. */
  lemma VanishesOnLine(v0: real, v1: real, v2: real, d: real, w: Point)
    requires d > 0.0 && v0 * w.x + v1 * w.y + v2 == 0.0
    ensures Expanded(RankOne(v0, v1, v2, d), w) == 0.0
  {
    RankOneIsSquare(v0, v1, v2, d, w);
    LineSquareZero(v0, v1, v2, w);
    TimesZero(1.0 / d, LineSquare(v0, v1, v2, w));
  }

  /** A segment's form vanishes on its line: at ctr and at ctr + dir. */
  lemma SegmentFormVanishes(ctr: Point, dir: Point)
    ensures Expanded(SegmentForm(ctr, dir), ctr) == 0.0
    ensures Expanded(SegmentForm(ctr, dir), Point(ctr.x + dir.x, ctr.y + dir.y)) == 0.0
  {
    var d := SquaredLength(dir);
    if d != 0.0 {
      var v0, v1, v2 := dir.y, -dir.x, CrossProduct(dir, ctr);
      SegmentFormIsRankOne(ctr, dir);
      VanishesOnLine(v0, v1, v2, d, ctr);
      VanishesOnLine(v0, v1, v2, d, Point(ctr.x + dir.x, ctr.y + dir.y));
    }
  }

  /** A segment's form never assigns a negative error. */
  lemma SegmentFormNonNegative(ctr: Point, dir: Point, w: Point)
    ensures Expanded(SegmentForm(ctr, dir), w) >= 0.0
  {
    var d := SquaredLength(dir);
    if d != 0.0 {
      var v0, v1, v2 := dir.y, -dir.x, CrossProduct(dir, ctr);
      SegmentFormIsRankOne(ctr, dir);
      RankOneIsSquare(v0, v1, v2, d, w);
    }
  }

  /** The form of every segment, each built in a quad of its own. */
  function SegmentForms(ctrs: seq<Point>, dirs: seq<Point>): (qs: seq<Quad>)
    requires |ctrs| == |dirs|
    ensures |qs| == |dirs|
    ensures forall i :: 0 <= i < |dirs| ==> qs[i] == SegmentForm(ctrs[i], dirs[i])
  {
    seq(|dirs|, i requires 0 <= i < |dirs| => SegmentForm(ctrs[i], dirs[i]))
  }

  /**
   * The forms as written: `ctr`, `dir` and `quads` are each filled with one
   * shared object, so every pass of the `pointslope` loop and of the quad
   * loop overwrites the same point and the same quad. Every entry ends up
   * holding the last segment's form.
   */
  function SegmentFormsAsWritten(ctrs: seq<Point>, dirs: seq<Point>): (qs: seq<Quad>)
    requires |ctrs| == |dirs| && |dirs| >= 1
    ensures |qs| == |dirs|
    ensures forall i :: 0 <= i < |dirs| ==> qs[i] == SegmentForms(ctrs, dirs)[|dirs| - 1]
  {
    var last := |dirs| - 1;
    var shared := SegmentForm(ctrs[last], dirs[last]);
    seq(|dirs|, _ => shared)
  }

  /** The form minimised at vertex seg: the forms of the segment ending there and of the one starting there, added. */
  function CornerForm(qs: seq<Quad>, seg: int): Quad
    requires 0 <= seg < |qs|
  {
    Add(qs[Mod(seg - 1, |qs|)], qs[seg])
  }

  /**
   * With a form per segment, the determinant at a vertex where both
   * segments have a non-zero direction is non-zero exactly when the two
   * directions are not parallel, so the intersection is solved directly.
   */
  lemma CornerDetNonZero(ctrs: seq<Point>, dirs: seq<Point>, seg: int)
    requires |ctrs| == |dirs| && 0 <= seg < |dirs|
    requires SquaredLength(dirs[seg]) != 0.0 && SquaredLength(dirs[Mod(seg - 1, |dirs|)]) != 0.0
    ensures Det(CornerForm(SegmentForms(ctrs, dirs), seg)) != 0.0 <==>
      CrossProduct(dirs[Mod(seg - 1, |dirs|)], dirs[seg]) != 0.0
  {
    var i := Mod(seg - 1, |dirs|);
    var a, b := dirs[i], dirs[seg];
    SegmentFormIsRankOne(ctrs[i], a);
    SegmentFormIsRankOne(ctrs[seg], b);
    AddedRankOneDet(a.y, -a.x, CrossProduct(a, ctrs[i]), SquaredLength(a),
                    b.y, -b.x, CrossProduct(b, ctrs[seg]), SquaredLength(b));
    NormalsCross(a, b);
  }

  /** The normals (u.y, -u.x) and (v.y, -v.x) are as parallel as u and v. */
  lemma NormalsCross(u: Point, v: Point)
    ensures NormalCross(u.y, -u.x, v.y, -v.x) == CrossProduct(u, v)
  {
  }

  /**
   * As written, the form at every vertex is one form added to itself, whose
   * determinant is 0: every vertex takes the branch for parallel lines.
   */
  lemma AliasedCornerSingular(ctrs: seq<Point>, dirs: seq<Point>, seg: int)
    requires |ctrs| == |dirs| && 0 <= seg < |dirs|
    ensures Det(CornerForm(SegmentFormsAsWritten(ctrs, dirs), seg)) == 0.0
  {
    var last := |dirs| - 1;
    var c, d := ctrs[last], dirs[last];
    var shared := SegmentForm(c, d);
    assert CornerForm(SegmentFormsAsWritten(ctrs, dirs), seg) == Add(shared, shared);
    var len := SquaredLength(d);
    if len != 0.0 {
      SegmentFormIsRankOne(c, d);
      NormalsCross(d, d);
      CrossProductAntisymmetric(d, d);
      AddedRankOneDet(d.y, -d.x, CrossProduct(d, c), len, d.y, -d.x, CrossProduct(d, c), len);
    } else {
      DetOfEntries(Add(shared, shared), 0.0, 0.0, 0.0, 0.0);
    }
  }

  /**
   * At every corner between two non-parallel segments of non-zero
   * direction, the determinant of a form per segment is non-zero and the
   * determinant as written is 0: the two disagree on which branch to take.
   */
  lemma CornerDetsDiffer(ctrs: seq<Point>, dirs: seq<Point>, seg: int)
    requires |ctrs| == |dirs| && 0 <= seg < |dirs|
    requires SquaredLength(dirs[seg]) != 0.0 && SquaredLength(dirs[Mod(seg - 1, |dirs|)]) != 0.0
    requires CrossProduct(dirs[Mod(seg - 1, |dirs|)], dirs[seg]) != 0.0
    ensures Det(CornerForm(SegmentForms(ctrs, dirs), seg)) != 0.0
    ensures Det(CornerForm(SegmentFormsAsWritten(ctrs, dirs), seg)) == 0.0
  {
    CornerDetNonZero(ctrs, dirs, seg);
    AliasedCornerSingular(ctrs, dirs, seg);
  }
}
