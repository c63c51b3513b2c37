/**
 * `calcLon` of src/types/Path.ts: for every vertex of a closed path, the next
 * corner (`nextCorner`), the pivot (`pivk`: how far a straight segment from
 * the vertex can reach) and the clean-up into `lon`.
 */
module Lon {
  import opened Wrappers
  import opened Utils
  import opened Bitmaps
  import Geometry

  /** The vertices of a closed path: each vertex, and the last with the first, one lattice unit apart. */
  predicate Cycle(vs: seq<IPoint>)
  {
    |vs| >= 1 && Steps(vs + [vs[0]])
  }

  /** The paths the tracer produces are cycles. */
  lemma TracedPathIsCycle(t: TracedPath, start: IPoint)
    requires ClosedWalk(t, start)
    ensures Cycle(t.vertices)
  {
  }

  lemma CycleStep(vs: seq<IPoint>, k: int)
    requires Cycle(vs) && 0 <= k < |vs|
    ensures UnitStep(vs[k], vs[Mod(k + 1, |vs|)])
  {
    var s := vs + [vs[0]];
    assert UnitStep(s[k], s[k + 1]);
  }

  /** Two lattice points on one horizontal or vertical line. */
  predicate Aligned(a: IPoint, b: IPoint)
  {
    a.x == b.x || a.y == b.y
  }

  /** The end of the run of vertices that a next corner c closes; 0 stands for the wrap to len. */
  function RunEnd(len: int, c: int): int
  {
    if c == 0 then len else c
  }

  /**
   * What the `nextCorner` table means: every entry is a vertex index that is
   * either 0 or later than its own index, and every vertex from i up to (not
   * including) nc[i] lies on an axis-parallel line through vertex nc[i].
   */
  predicate NextCornerTable(vs: seq<IPoint>, nc: seq<int>)
  {
    && |nc| == |vs|
    && (forall s :: 0 <= s < |vs| ==> 0 <= nc[s] < |vs| && (nc[s] == 0 || s < nc[s]))
    && (forall s, t :: 0 <= s < |vs| && s <= t < RunEnd(|vs|, nc[s]) ==> Aligned(vs[t], vs[nc[s]]))
  }

  /** The table's two properties for the entries from seg on. */
  predicate TableFrom(vs: seq<IPoint>, nc: seq<int>, seg: int)
    requires |nc| == |vs| && 0 <= seg <= |vs|
  {
    && (forall s :: seg <= s < |vs| ==> 0 <= nc[s] < |vs| && (nc[s] == 0 || s < nc[s]))
    && (forall s, t :: seg <= s < |vs| && s <= t < RunEnd(|vs|, nc[s]) ==> Aligned(vs[t], vs[nc[s]]))
  }

  /** Consecutive vertices of a cycle, and the last and the first, are aligned. */
  lemma CycleAligned(vs: seq<IPoint>, seg: int)
    requires Cycle(vs) && 0 <= seg < |vs|
    ensures Aligned(vs[seg], vs[if seg + 1 == |vs| then 0 else seg + 1])
  {
    CycleStep(vs, seg);
    if seg + 1 == |vs| {
      assert Mod(seg + 1, |vs|) == 0;
    } else {
      assert Mod(seg + 1, |vs|) == seg + 1;
    }
  }

  /** One round of the loop: entry seg is the next corner of seg + 1, unless vertex seg is off both its lines. */
  lemma NextCornerStep(vs: seq<IPoint>, nc: seq<int>, seg: int, idx: int)
    requires |nc| == |vs| && 0 <= seg < |vs| && TableFrom(vs, nc, seg + 1)
    requires Aligned(vs[seg], vs[if seg + 1 == |vs| then 0 else seg + 1])
    requires idx == if seg + 1 == |vs| then 0 else nc[seg + 1]
    ensures 0 <= idx < |vs|
    ensures var c := if vs[seg].x != vs[idx].x && vs[seg].y != vs[idx].y then seg + 1 else idx;
      c < |vs| && TableFrom(vs, nc[seg := c], seg)
  {
    var len := |vs|;
    var c := if vs[seg].x != vs[idx].x && vs[seg].y != vs[idx].y then seg + 1 else idx;
    assert Aligned(vs[seg], vs[c]);
    var nc' := nc[seg := c];
    forall s, t | seg <= s < len && s <= t < RunEnd(len, nc'[s])
      ensures Aligned(vs[t], vs[nc'[s]])
    {
      if s > seg {
        assert nc'[s] == nc[s];
      } else if t > seg {
        assert c == idx && seg + 1 < len;
        assert Aligned(vs[t], vs[nc[seg + 1]]);
      }
    }
  }

  /** The first loop of `calcLon`, from the last vertex down to vertex 0. */
  method NextCorners(vs: seq<IPoint>) returns (nc: seq<int>)
    requires Cycle(vs)
    ensures NextCornerTable(vs, nc)
  {
    var len := |vs|;
    nc := seq(len, _ => 0);
    var idx := 0;
    var seg := len;
    while seg > 0
      invariant 0 <= seg <= len && |nc| == len
      invariant idx == if seg == len then 0 else nc[seg]
      invariant TableFrom(vs, nc, seg)
    {
      seg := seg - 1;
      CycleAligned(vs, seg);
      NextCornerStep(vs, nc, seg, idx);
      if vs[seg].x != vs[idx].x && vs[seg].y != vs[idx].y {
        idx := seg + 1;
      }
      nc := nc[seg := idx];
    }
  }

  /** to - from. */
  function Offset(from: IPoint, to: IPoint): IPoint
  {
    IPoint(to.x - from.x, to.y - from.y)
  }

  /** The direction from a to b with each coordinate reduced to its sign (`Math.sign`). */
  function Toward(a: IPoint, b: IPoint): IPoint
  {
    IPoint(Geometry.Sign((b.x - a.x) as real), Geometry.Sign((b.y - a.y) as real))
  }

  /** `(3 + 3 dx + dy) / 2`, a JavaScript number. */
  function DirCode(d: IPoint): real
  {
    (3 + 3 * d.x + d.y) as real / 2.0
  }

  /** The element of `ct = [0, 0, 0, 0]` that `ct[code] += 1` increments: none unless the code is 0, 1, 2 or 3. */
  function Slot(code: real): Option<nat>
  {
    if code == 0.0 then Some(0)
    else if code == 1.0 then Some(1)
    else if code == 2.0 then Some(2)
    else if code == 3.0 then Some(3)
    else None
  }

  /**
   * A unit step has an integer code in 0..3, and the four unit steps have four
   * different codes; a null step (code 1.5) counts nowhere.
   */
  lemma AxisCodes(d: IPoint, e: IPoint)
    requires AxisUnit(d) && AxisUnit(e)
    ensures Slot(DirCode(d)).Some? && Slot(DirCode(d)).value < 4
    ensures Slot(DirCode(d)) == Slot(DirCode(e)) <==> d == e
    ensures Slot(DirCode(IPoint(0, 0))) == None
  {
  }

  /** Between aligned points the sign direction is a unit step or null. */
  lemma AlignedTowardIsAxis(a: IPoint, b: IPoint)
    requires Aligned(a, b)
    ensures AxisUnit(Toward(a, b)) || Toward(a, b) == IPoint(0, 0)
  {
  }

  /** The four direction counters `ct`. */
  function Tally(ct: seq<int>, code: real): (r: seq<int>)
    requires |ct| == 4
    ensures |r| == 4
  {
    match Slot(code)
    case None => ct
    case Some(n) => ct[n := ct[n] + 1]
  }

  predicate AllFour(ct: seq<int>)
    requires |ct| == 4
  {
    ct[0] != 0 && ct[1] != 0 && ct[2] != 0 && ct[3] != 0
  }

  /** The cross product of two lattice vectors, computed as the source does, on numbers. */
  function CrossAt(u: IPoint, v: IPoint): real
  {
    Geometry.CrossProduct(Geometry.Point(u.x as real, u.y as real), Geometry.Point(v.x as real, v.y as real))
  }

  /** The corner of the pixel around cur that the first constraint is moved through. */
  function OffA(cur: IPoint): IPoint
  {
    IPoint(cur.x + (if cur.y >= 0 && (cur.y > 0 || cur.x < 0) then 1 else -1),
           cur.y + (if cur.x <= 0 && (cur.x < 0 || cur.y < 0) then 1 else -1))
  }

  /** The corner of the pixel around cur that the second constraint is moved through. */
  function OffB(cur: IPoint): IPoint
  {
    IPoint(cur.x + (if cur.y <= 0 && (cur.y < 0 || cur.x < 0) then 1 else -1),
           cur.y + (if cur.x >= 0 && (cur.x > 0 || cur.y < 0) then 1 else -1))
  }

  /** The state of the pivot search for one vertex seg. */
  datatype Scan = Scan(ct: seq<int>, ca: IPoint, cb: IPoint, k: int, corner: int,
                       pivot: Option<int>, searching: bool)

  /**
   * One pass of the search loop. The scan stops when all four directions have
   * been seen (the pivot is then the corner reached so far), when a
   * constraint is violated, or when the next corner is no longer ahead of seg;
   * in every case the pass still moves the constraints, the corner and k
   * on before the loop test, as the loop is written.
   */
  function Pass(vs: seq<IPoint>, nc: seq<int>, seg: int, s: Scan): (r: Scan)
    requires NextCornerTable(vs, nc) && 0 <= seg < |vs|
    requires 0 <= s.corner < |vs| && s.k == nc[s.corner] && |s.ct| == 4
    requires s.pivot.Some? ==> 0 <= s.pivot.value < |vs|
    ensures r.corner == s.k && r.k == nc[r.corner] && |r.ct| == 4
    ensures r.searching ==> Cyclic(r.k, seg, r.corner)
    ensures AllFour(r.ct) ==> !r.searching && r.pivot.Some?
    ensures s.pivot.Some? ==> r.pivot == s.pivot
    ensures r.pivot.Some? ==> 0 <= r.pivot.value < |vs|
    ensures s.pivot.None? && r.pivot.Some? ==> r.pivot.value == s.corner
  {
    var ct := Tally(s.ct, DirCode(Toward(vs[s.corner], vs[s.k])));
    var found := AllFour(ct);
    var pivot := if found && s.pivot.None? then Some(s.corner) else s.pivot;
    var cur := Offset(vs[seg], vs[s.k]);
    var (ca, cb) := Constrain(s.ca, s.cb, cur);
    var k := nc[s.k];
    Scan(ct, ca, cb, k, s.k, pivot, !found && !Violated(s.ca, s.cb, cur) && Cyclic(k, seg, s.k))
  }

  /** cur lies outside the cone between the two constraints. */
  predicate Violated(ca: IPoint, cb: IPoint, cur: IPoint)
  {
    CrossAt(ca, cur) < 0.0 || CrossAt(cb, cur) > 0.0
  }

  /**
   * The constraints after cur, unless cur is one of the eight neighbours of
   * the origin: each is moved through its corner of cur's pixel when that
   * narrows the cone.
   */
  function Constrain(ca: IPoint, cb: IPoint, cur: IPoint): (IPoint, IPoint)
  {
    var near := -1 <= cur.x <= 1 && -1 <= cur.y <= 1;
    (if !near && CrossAt(ca, OffA(cur)) >= 0.0 then OffA(cur) else ca,
     if !near && CrossAt(cb, OffB(cur)) <= 0.0 then OffB(cur) else cb)
  }

  /** Mod on the window (-n, 2n), where it is one addition or subtraction. */
  lemma ModNear(x: int, n: int)
    requires n > 0 && -n <= x < 2 * n
    ensures Mod(x, n) == if x < 0 then x + n else if x < n then x else x - n
  {
    if x < 0 {
      EuclideanUnique(x, n, -1, x + n);
    } else if x < n {
      EuclideanUnique(x, n, 0, x);
    } else {
      EuclideanUnique(x, n, 1, x - n);
    }
  }

  /**
   * The hop from a corner c (reached after travelling t vertices from seg) to
   * k = nc[c] moves forward at least one vertex, and, while k is still before
   * seg in the cyclic sense, never past a full lap.
   */
  lemma HopBound(n: int, seg: int, c: int, k: int, t: int)
    requires n > 0 && 0 <= seg < n && 0 <= c < n && 0 <= k < n && 0 <= t <= n
    requires c == Mod(seg + t, n)
    requires t > 0 ==> Cyclic(k, seg, c)
    requires t == 0 ==> k != c
    ensures 1 <= Mod(k - c, n) && t + Mod(k - c, n) <= n
    ensures k == Mod(seg + t + Mod(k - c, n), n)
  {
    ModNear(seg + t, n);
    ModNear(k - c, n);
    var e := Mod(k - c, n);
    ModNear(seg + t + e, n);
    if t > 0 {
      CyclicMeansModOrder(k, seg, c, n);
      ModNear(seg - k, n);
      ModNear(c - k, n);
    }
  }

  /**
   * The search loop of one vertex. It ends: t, the number of vertices
   * travelled from seg to the current corner, grows with every pass and
   * stays within one lap.
   */
  function Search(vs: seq<IPoint>, nc: seq<int>, seg: int, s: Scan, t: nat): (r: Scan)
    requires NextCornerTable(vs, nc) && 0 <= seg < |vs| && |s.ct| == 4
    requires t <= |vs| && s.corner == Mod(seg + t, |vs|) && s.k == nc[s.corner]
    requires t > 0 ==> Cyclic(s.k, seg, s.corner)
    requires s.pivot.None?
    ensures 0 <= r.corner < |vs| && 0 <= r.k < |vs| && |r.ct| == 4 && !r.searching
    ensures r.pivot.Some? ==> 0 <= r.pivot.value < |vs|
    decreases |vs| - t
  {
    var n := Pass(vs, nc, seg, s);
    if n.searching then
      assert t == 0 ==> s.k != s.corner by {
        if t == 0 && s.k == s.corner {
          CyclicEmptyWhenEndsMeet(seg, seg);
        }
      }
      HopBound(|vs|, seg, s.corner, s.k, t);
      Search(vs, nc, seg, n, t + Mod(s.k - s.corner, |vs|))
    else
      n
  }

  /** `Math.floor` of a number. */
  function FloorOf(r: real): int
  {
    r.Floor
  }

  /**
   * After a search that found no four-direction cut, the largest j such that
   * the point j steps from the last corner towards k satisfies both
   * constraints (10000000 when neither bounds it); pivk is that point.
   */
  function PivotAfter(vs: seq<IPoint>, seg: int, r: Scan): (p: int)
    requires 0 <= seg < |vs| && 0 <= r.corner < |vs| && 0 <= r.k < |vs|
    requires r.pivot.Some? ==> 0 <= r.pivot.value < |vs|
    ensures 0 <= p < |vs|
    ensures r.pivot.Some? ==> p == r.pivot.value
  {
    match r.pivot
    case Some(c) => c
    case None =>
      var dk := Toward(vs[r.corner], vs[r.k]);
      var cur := Offset(vs[seg], vs[r.corner]);
      var a, b := CrossAt(r.ca, cur), CrossAt(r.ca, dk);
      var c, d := CrossAt(r.cb, cur), CrossAt(r.cb, dk);
      var j1 := if b < 0.0 then FloorOf(a / -b) else 10000000;
      var j := if d > 0.0 then (var j2 := FloorOf(-c / d); if j2 < j1 then j2 else j1) else j1;
      Mod(r.corner + j, |vs|)
  }

  /** pivk[seg]: the search starts with the unit step out of seg already counted. */
  function PivotOf(vs: seq<IPoint>, nc: seq<int>, seg: int): (p: int)
    requires Cycle(vs) && NextCornerTable(vs, nc) && 0 <= seg < |vs|
    ensures 0 <= p < |vs|
  {
    var ct := Tally([0, 0, 0, 0], DirCode(Offset(vs[seg], vs[Mod(seg + 1, |vs|)])));
    var start := Scan(ct, IPoint(0, 0), IPoint(0, 0), nc[seg], seg, None, true);
    assert seg == Mod(seg + 0, |vs|);
    PivotAfter(vs, seg, Search(vs, nc, seg, start, 0))
  }

  /** The first code the search counts is the unit step out of seg, which always lands in a slot. */
  lemma FirstStepCounted(vs: seq<IPoint>, seg: int)
    requires Cycle(vs) && 0 <= seg < |vs|
    ensures Slot(DirCode(Offset(vs[seg], vs[Mod(seg + 1, |vs|)]))).Some?
  {
    CycleStep(vs, seg);
    var d := Offset(vs[seg], vs[Mod(seg + 1, |vs|)]);
    AxisCodes(d, d);
  }

  /** Every later code counts the sign direction between a corner and its next corner: a slot, or none when they coincide. */
  lemma CornerStepCounted(vs: seq<IPoint>, nc: seq<int>, c: int)
    requires NextCornerTable(vs, nc) && 0 <= c < |vs|
    ensures var d := Toward(vs[c], vs[nc[c]]);
      Slot(DirCode(d)).Some? <==> vs[c] != vs[nc[c]]
  {
    assert c < RunEnd(|vs|, nc[c]);
    AlignedTowardIsAxis(vs[c], vs[nc[c]]);
    var d := Toward(vs[c], vs[nc[c]]);
    if AxisUnit(d) {
      AxisCodes(d, d);
    }
  }

  /** Some entry of pivk equals v. */
  predicate IsPivot(pivk: seq<int>, v: int)
  {
    exists i :: 0 <= i < |pivk| && pivk[i] == v
  }

  /** Every defined entry of lon is one of the pivots. */
  predicate Pivots(pivk: seq<int>, lon: seq<Option<int>>)
  {
    forall m :: 0 <= m < |lon| && lon[m].Some? ==> IsPivot(pivk, lon[m].value)
  }

  /** `cyclic(a, b, c)` with c possibly undefined: every comparison with undefined is false. */
  predicate CyclicOrUndefined(a: int, b: int, c: Option<int>)
  {
    match c
    case Some(v) => Cyclic(a, b, v)
    case None => a <= b
  }

  /** The middle clean-up loop over the given indexes: j becomes pivk[i] when that reaches past i+1..j. */
  function Carry(pivk: seq<int>, lon: seq<Option<int>>, j: int, idxs: seq<int>): (r: (seq<Option<int>>, int))
    requires |lon| == |pivk|
    requires forall k :: 0 <= k < |idxs| ==> 0 <= idxs[k] < |pivk|
    ensures |r.0| == |lon|
    ensures forall m :: 0 <= m < |lon| && lon[m].Some? ==> r.0[m].Some?
    ensures forall k :: 0 <= k < |idxs| ==> r.0[idxs[k]].Some?
    ensures Pivots(pivk, lon) && IsPivot(pivk, j) ==> Pivots(pivk, r.0) && IsPivot(pivk, r.1)
    decreases |idxs|
  {
    if idxs == [] then (lon, j)
    else
      var i := idxs[0];
      var j' := if Cyclic(i + 1, pivk[i], j) then pivk[i] else j;
      Carry(pivk, lon[i := Some(j')], j', idxs[1..])
  }

  /** The last clean-up loop: from the last vertex down, lon[i] becomes j while i+1..lon[i] reaches past j. */
  function Wrap(lon: seq<Option<int>>, j: int, i: int): (r: seq<Option<int>>)
    requires -1 <= i < |lon|
    ensures |r| == |lon|
    ensures forall m :: 0 <= m < |lon| && lon[m].Some? ==> r[m].Some?
    ensures forall m :: 0 <= m < |lon| && r[m] != lon[m] ==> r[m] == Some(j)
    decreases i + 1
  {
    if i >= 0 && CyclicOrUndefined(Mod(i + 1, |lon|), j, lon[i]) then Wrap(lon[i := Some(j)], j, i - 1)
    else lon
  }

  /** The clean-up with the middle loop over the given indexes; undefined entries stay None. */
  function CleanUpOver(pivk: seq<int>, idxs: seq<int>): (lon: seq<Option<int>>)
    requires |pivk| >= 1
    requires forall k :: 0 <= k < |idxs| ==> 0 <= idxs[k] < |pivk|
    ensures |lon| == |pivk|
    ensures lon[|pivk| - 1].Some?
    ensures forall k :: 0 <= k < |idxs| ==> lon[idxs[k]].Some?
    ensures Pivots(pivk, lon)
  {
    var len := |pivk|;
    var j := pivk[len - 1];
    var first := seq(len, _ => None)[len - 1 := Some(j)];
    assert IsPivot(pivk, j);
    var carried := Carry(pivk, first, j, idxs);
    Wrap(carried.0, carried.1, len - 1)
  }

  /**
   * The clean-up as written: `range(0, len - 2, -1)` runs len-3, ..., 0 and
   * never visits len-2, which the last loop need not reach either.
   */
  function CleanUpAsWritten(pivk: seq<int>): (lon: seq<Option<int>>)
    requires |pivk| >= 1
    ensures |lon| == |pivk|
    ensures forall m :: 0 <= m < |pivk| - 2 ==> lon[m].Some?
  {
    var idxs := Backward(Range(0, |pivk| - 2));
    var lon := CleanUpOver(pivk, idxs);
    forall m | 0 <= m < |pivk| - 2
      ensures lon[m].Some?
    {
      assert idxs[|pivk| - 3 - m] == m;
    }
    lon
  }

  /** With four vertices whose pivots are all 0, the written clean-up leaves lon[2] undefined. */
  lemma CleanUpAsWrittenLeavesHole()
    ensures CleanUpAsWritten([0, 0, 0, 0])[2] == None
  {
    var pivk := [0, 0, 0, 0];
    var first: seq<Option<int>> := seq(4, _ => None)[3 := Some(0)];
    var idxs := Backward(Range(0, 2));
    assert idxs == [1, 0];
    CarryKeeps(pivk, first, 0, idxs, 2);
    var carried := Carry(pivk, first, 0, idxs);
    assert carried.0[2] == None && carried.0[3] == Some(0);
    assert !Cyclic(Mod(4, 4), carried.1, 0);
  }

  /** The middle loop leaves an index it does not visit as it was. */
  lemma {:induction false} CarryKeeps(pivk: seq<int>, lon: seq<Option<int>>, j: int, idxs: seq<int>, m: int)
    requires |lon| == |pivk| && 0 <= m < |lon|
    requires forall k :: 0 <= k < |idxs| ==> 0 <= idxs[k] < |pivk|
    requires m !in idxs
    ensures Carry(pivk, lon, j, idxs).0[m] == lon[m]
    decreases |idxs|
  {
    if idxs != [] {
      var i := idxs[0];
      var j' := if Cyclic(i + 1, pivk[i], j) then pivk[i] else j;
      CarryKeeps(pivk, lon[i := Some(j')], j', idxs[1..], m);
    }
  }

  /**
   * The clean-up as Potrace runs it, the middle loop over len-2, ..., 0: every
   * lon[i] is defined, is a vertex index and is one of the pivots.
   */
  function CleanUp(pivk: seq<int>): (lon: seq<int>)
    requires |pivk| >= 1
    requires forall i :: 0 <= i < |pivk| ==> 0 <= pivk[i] < |pivk|
    ensures |lon| == |pivk|
    ensures forall i :: 0 <= i < |lon| ==> IsPivot(pivk, lon[i])
    ensures forall i :: 0 <= i < |lon| ==> 0 <= lon[i] < |lon|
  {
    var idxs := Backward(Range(0, |pivk| - 1));
    var lon := CleanUpOver(pivk, idxs);
    forall m | 0 <= m < |pivk| - 1
      ensures lon[m].Some?
    {
      assert idxs[|pivk| - 2 - m] == m;
    }
    seq(|lon|, i requires 0 <= i < |lon| => lon[i].value)
  }

  /** `calcLon`: the next corners, the pivots and lon of a closed path. */
  method CalcLon(vs: seq<IPoint>) returns (pivk: seq<int>, lon: seq<int>)
    requires Cycle(vs)
    ensures |pivk| == |vs| && |lon| == |vs|
    ensures forall i :: 0 <= i < |vs| ==> 0 <= pivk[i] < |vs| && 0 <= lon[i] < |vs|
    ensures forall i :: 0 <= i < |vs| ==> IsPivot(pivk, lon[i])
  {
    var nc := NextCorners(vs);
    pivk := seq(|vs|, seg requires 0 <= seg < |vs| => PivotOf(vs, nc, seg));
    lon := CleanUp(pivk);
  }
}
