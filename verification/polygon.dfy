/**
 * `bestPolygon` of src/types/Path.ts: the clipped segment ends `clip0`
 * and `clip1`, the segment bounds `seg0` and `seg1`, the dynamic program over
 * the penalties and the read-off of the optimal polygon `po`.
 *
 * `penalty3` is a parameter here: any non-negative function of the two end
 * vertices (its value, a square root, is not modelled; its index wrapping is
 * in PathSums). Numbers that the source may leave undefined are `Num`s.
 */
module Polygon {
  import opened Wrappers
  import opened Utils

  /** A JavaScript number that may be undefined (or NaN): arithmetic with it is undefined and comparisons with it fail. */
  datatype Num = Num(v: real) | Undefined

  function Add(x: real, n: Num): Num
  {
    if n.Num? then Num(x + n.v) else Undefined
  }

  predicate Less(a: Num, b: Num)
  {
    a.Num? && b.Num? && a.v < b.v
  }

  predicate Negative(a: Num)
  {
    a.Num? && a.v < 0.0
  }

  // ---------------------------------------------------------------- clip0

  /** clip0[i]: the furthest vertex a straight segment from i reaches, lon[i-1] - 1, without wrapping past len. */
  function Clip0At(lon: seq<int>, i: int): (c: int)
    requires |lon| >= 2 && 0 <= i < |lon|
    ensures i < c <= |lon|
    ensures c == |lon| || c == Mod(lon[Mod(i - 1, |lon|)] - 1, |lon|) || c == i + 1
  {
    var len := |lon|;
    var c0 := Mod(lon[Mod(i - 1, len)] - 1, len);
    var c := if c0 == i then Mod(i + 1, len) else c0;
    if c < i then len
    else if c == i then len
    else c
  }

  function Clip0(lon: seq<int>): (clip0: seq<int>)
    requires |lon| >= 2
    ensures Clip0Shape(clip0) && |clip0| == |lon|
    ensures forall i :: 0 <= i < |lon| ==> clip0[i] == Clip0At(lon, i)
  {
    seq(|lon|, i requires 0 <= i < |lon| => Clip0At(lon, i))
  }

  /** Every clip0[i] lies strictly after i and at most at len. */
  predicate Clip0Shape(clip0: seq<int>)
  {
    |clip0| >= 1 && forall i :: 0 <= i < |clip0| ==> i < clip0[i] <= |clip0|
  }

  predicate Clip0Monotone(clip0: seq<int>)
  {
    forall i, i' :: 0 <= i <= i' < |clip0| ==> clip0[i] <= clip0[i']
  }

  // ---------------------------------------------------------------- clip1

  /** i is the first vertex whose clip0 reaches j. */
  predicate FirstReaching(clip0: seq<int>, j: int, i: int)
  {
    0 <= i < |clip0| && j <= clip0[i] && forall i' :: 0 <= i' < i ==> clip0[i'] < j
  }

  /** clip1[j], for j in 1..len, is the first vertex whose clip0 reaches j; clip1[0] is never set and is 0 here. */
  predicate Clip1Of(clip0: seq<int>, clip1: seq<int>)
  {
    && |clip1| == |clip0| + 1
    && clip1[0] == 0
    && forall j :: 1 <= j <= |clip0| ==> FirstReaching(clip0, j, clip1[j])
  }

  /** The backward links: one pass over i, handing every j up to clip0[i] not yet handed out to i. */
  method Clip1(clip0: seq<int>) returns (clip1: seq<int>)
    requires Clip0Shape(clip0)
    ensures Clip1Of(clip0, clip1)
  {
    var len := |clip0|;
    clip1 := seq(len + 1, _ => 0);
    var j := 1;
    var i := 0;
    while i < len
      invariant 0 <= i <= len && 1 <= j <= len + 1 && |clip1| == len + 1 && clip1[0] == 0
      invariant forall i' :: 0 <= i' < i ==> clip0[i'] < j
      invariant forall j' :: 1 <= j' < j ==> FirstReaching(clip0, j', clip1[j'])
    {
      while j <= clip0[i]
        invariant 1 <= j <= len + 1 && |clip1| == len + 1 && clip1[0] == 0
        invariant forall i' :: 0 <= i' < i ==> clip0[i'] < j
        invariant forall j' :: 1 <= j' < j ==> FirstReaching(clip0, j', clip1[j'])
        decreases len + 1 - j
      {
        clip1 := clip1[j := i];
        j := j + 1;
      }
      i := i + 1;
    }
    assert clip0[len - 1] == len;
  }

  /** clip1 never points forward: clip1[j] < j for j >= 1, and it is nondecreasing. */
  lemma Clip1Shape(clip0: seq<int>, clip1: seq<int>, j: int, j': int)
    requires Clip0Shape(clip0) && Clip1Of(clip0, clip1)
    requires 0 <= j <= j' <= |clip0|
    ensures 0 <= clip1[j] <= clip1[j'] && (j >= 1 ==> clip1[j] < j)
  {
    if j >= 1 {
      assert clip0[j - 1] >= j;
    }
  }

  /**
   * The half of the stated inverse that always holds: a vertex i whose clip0
   * reaches j is no earlier than clip1[j].
   */
  lemma Clip1Below(clip0: seq<int>, clip1: seq<int>, i: int, j: int)
    requires Clip0Shape(clip0) && Clip1Of(clip0, clip1)
    requires 0 <= i < |clip0| && 0 <= j <= |clip0|
    ensures j <= clip0[i] ==> clip1[j] <= i
  {
  }

  /** j <= clip0[i] iff clip1[j] <= i, for i in 0..len-1 and j in 0..len, when clip0 is nondecreasing. */
  lemma Clip1Inverse(clip0: seq<int>, clip1: seq<int>, i: int, j: int)
    requires Clip0Shape(clip0) && Clip1Of(clip0, clip1) && Clip0Monotone(clip0)
    requires 0 <= i < |clip0| && 0 <= j <= |clip0|
    ensures j <= clip0[i] <==> clip1[j] <= i
  {
    if j >= 1 && clip1[j] <= i {
      assert clip0[clip1[j]] <= clip0[i];
    }
  }

  /** The converse needs a nondecreasing clip0: with clip0 = [3, 2, 3], clip1[3] = 0 <= 1 but clip0[1] = 2 < 3. */
  lemma Clip1InverseNeedsMonotone()
    ensures Clip0Shape([3, 2, 3]) && Clip1Of([3, 2, 3], [0, 0, 0, 0])
    ensures !(3 <= [3, 2, 3][1]) && [0, 0, 0, 0][3] <= 1
  {
  }

  // ---------------------------------------------------------------- seg0, seg1

  /**
   * seg0[t] is where the greedy walk from 0 along clip0 is after t hops; m hops
   * reach len, so seg0[m] = len.
   */
  predicate Seg0Of(clip0: seq<int>, seg0: seq<int>, m: int)
  {
    && m >= 1 && |seg0| == m + 1 && |clip0| >= 1
    && seg0[0] == 0 && seg0[m] == |clip0|
    && (forall t :: 0 <= t < m ==> 0 <= seg0[t] < |clip0|)
    && (forall t :: 0 <= t < m - 1 ==> seg0[t + 1] == clip0[seg0[t]])
    && clip0[seg0[m - 1]] == |clip0|
  }

  method Seg0(clip0: seq<int>) returns (seg0: seq<int>, m: int)
    requires Clip0Shape(clip0)
    ensures Seg0Of(clip0, seg0, m)
    ensures forall t :: 0 <= t < m ==> seg0[t] < seg0[t + 1]
  {
    var len := |clip0|;
    var i := 0;
    var j := 0;
    seg0 := [];
    while i < len
      invariant 0 <= i <= len && |seg0| == j
      invariant j == 0 <==> i == 0
      invariant forall t :: 0 <= t < j ==> 0 <= seg0[t] < len
      invariant j > 0 ==> seg0[0] == 0 && clip0[seg0[j - 1]] == i
      invariant forall t :: 0 <= t < j - 1 ==> seg0[t + 1] == clip0[seg0[t]]
      invariant forall t :: 0 <= t < j ==> seg0[t] < i
      decreases len - i
    {
      seg0 := seg0 + [i];
      i := clip0[i];
      j := j + 1;
    }
    seg0 := seg0 + [len];
    m := j;
  }

  /**
   * seg1[t] is where the greedy walk back from len along clip1 is after m - t
   * hops, except that seg1[0] is set to 0.
   */
  predicate Seg1Of(clip1: seq<int>, seg1: seq<int>, m: int, len: int)
  {
    && m >= 1 && |seg1| == m + 1 && |clip1| == len + 1
    && seg1[0] == 0 && seg1[m] == len
    && (forall t :: 0 <= t <= m ==> 0 <= seg1[t] <= len)
    && (forall t :: 1 <= t < m ==> seg1[t] == clip1[seg1[t + 1]])
  }

  method Seg1(clip0: seq<int>, clip1: seq<int>, m: int) returns (seg1: seq<int>)
    requires Clip0Shape(clip0) && Clip1Of(clip0, clip1) && m >= 1
    ensures Seg1Of(clip1, seg1, m, |clip0|)
  {
    var len := |clip0|;
    seg1 := seq(m + 1, _ => 0);
    var i := len;
    var j := m;
    while j > 0
      invariant 0 <= j <= m && |seg1| == m + 1 && 0 <= i <= len
      invariant j < m ==> 0 <= seg1[j + 1] <= len && i == clip1[seg1[j + 1]]
      invariant j == m ==> i == len
      invariant forall t :: j < t <= m ==> 0 <= seg1[t] <= len
      invariant forall t :: j < t < m ==> seg1[t] == clip1[seg1[t + 1]]
      invariant m > j ==> seg1[m] == len
    {
      seg1 := seg1[j := i];
      Clip1Shape(clip0, clip1, i, i);
      i := clip1[i];
      j := j - 1;
    }
    seg1 := seg1[0 := 0];
  }

  /** Everything the dynamic program reads besides the penalties. */
  datatype Plan = Plan(clip0: seq<int>, clip1: seq<int>, seg0: seq<int>, seg1: seq<int>, m: int)

  predicate PlanOk(p: Plan)
  {
    && Clip0Shape(p.clip0)
    && Clip1Of(p.clip0, p.clip1)
    && Seg0Of(p.clip0, p.seg0, p.m)
    && Seg1Of(p.clip1, p.seg1, p.m, |p.clip0|)
  }

  /**
   * With a nondecreasing clip0 the windows [seg1[t], seg0[t]] are non-empty and
   * strictly ordered: seg0[t-1] < seg1[t] <= seg0[t].
   */
  lemma {:induction false} WindowsOrdered(p: Plan, t: int)
    requires PlanOk(p) && Clip0Monotone(p.clip0) && 1 <= t <= p.m
    ensures p.seg0[t - 1] < p.seg1[t]
    decreases p.m - t
  {
    if t < p.m {
      WindowsOrdered(p, t + 1);
      var x := p.seg1[t + 1];
      Clip1Inverse(p.clip0, p.clip1, p.seg0[t - 1], x);
      assert p.clip0[p.seg0[t - 1]] == p.seg0[t];
    }
  }

  lemma {:induction false} WindowsNonEmpty(p: Plan, t: int)
    requires PlanOk(p) && 0 <= t <= p.m
    ensures p.seg1[t] <= p.seg0[t]
    decreases p.m - t
  {
    if 1 <= t < p.m {
      WindowsNonEmpty(p, t + 1);
      Clip1Shape(p.clip0, p.clip1, p.seg1[t + 1], p.seg0[t + 1]);
      Clip1Below(p.clip0, p.clip1, p.seg0[t], p.seg0[t + 1]);
    }
  }

  // ---------------------------------------------------------------- the dynamic program

  /** The candidate penalty of reaching i from k: penalty3(k, i) + pen[k]. */
  function Cand(pen3: (int, int) -> real, pen: seq<Num>, k: int, i: int): Num
    requires 0 <= k < |pen|
  {
    Add(pen3(k, i), pen[k])
  }

  /** Every pen[k] for k in lo..hi is a non-negative number. */
  predicate DefinedOn(pen: seq<Num>, lo: int, hi: int)
  {
    0 <= lo && hi < |pen| && forall k :: lo <= k <= hi ==> pen[k].Num? && pen[k].v >= 0.0
  }

  ghost predicate NonNegative(pen3: (int, int) -> real)
  {
    forall a, b :: pen3(a, b) >= 0.0
  }

  /** b, reached from p, is the least candidate over from..hi, and p is the largest k attaining it. */
  predicate LargestArgmin(pen3: (int, int) -> real, pen: seq<Num>, i: int, from: int, hi: int, b: real, p: int)
    requires DefinedOn(pen, from, hi)
  {
    && from <= p <= hi
    && Cand(pen3, pen, p, i) == Num(b)
    && (forall k :: from <= k <= hi ==> b <= Cand(pen3, pen, k, i).v)
    && (forall k :: p < k <= hi ==> b < Cand(pen3, pen, k, i).v)
  }

  datatype Choice = Choice(best: Num, prev: Option<int>)

  /** The innermost loop: k from hi down to lo, keeping the strictly better candidate (or any, while best is the sentinel -1). */
  function Choose(pen3: (int, int) -> real, pen: seq<Num>, i: int, lo: int, k: int, c: Choice): Choice
    requires 0 <= lo && k < |pen|
    decreases k + 1 - lo
  {
    if k < lo then c
    else
      var thispen := Cand(pen3, pen, k, i);
      var c' := if Negative(c.best) || Less(thispen, c.best) then Choice(thispen, Some(k)) else c;
      Choose(pen3, pen, i, lo, k - 1, c')
  }

  /**
   * When every pen[k] read is a number, the loop ends with the least
   * candidate over lo..hi and the largest k attaining it, from the sentinel.
   */
  lemma {:induction false} ChooseFindsLargestArgmin(pen3: (int, int) -> real, pen: seq<Num>, i: int,
                                                    lo: int, hi: int, k: int, c: Choice)
    requires NonNegative(pen3) && 0 <= lo <= hi < |pen| && DefinedOn(pen, lo, hi)
    requires lo - 1 <= k <= hi
    requires k == hi ==> c.best == Num(-1.0)
    requires k < hi ==> c.best.Num? && c.prev.Some? && LargestArgmin(pen3, pen, i, k + 1, hi, c.best.v, c.prev.value)
    ensures var r := Choose(pen3, pen, i, lo, k, c);
      r.best.Num? && r.prev.Some? && LargestArgmin(pen3, pen, i, lo, hi, r.best.v, r.prev.value)
    decreases k + 1 - lo
  {
    if k >= lo {
      var thispen := Cand(pen3, pen, k, i);
      var c' := if Negative(c.best) || Less(thispen, c.best) then Choice(thispen, Some(k)) else c;
      assert c'.best.Num? && c'.prev.Some? && LargestArgmin(pen3, pen, i, k, hi, c'.best.v, c'.prev.value);
      ChooseFindsLargestArgmin(pen3, pen, i, lo, hi, k - 1, c');
    }
  }

  /** pen and prev, each with len + 1 entries. */
  datatype Table = Table(pen: seq<Num>, prev: seq<Option<int>>)

  predicate TableOk(p: Plan, st: Table)
  {
    |st.pen| == |p.clip0| + 1 && |st.prev| == |p.clip0| + 1
  }

  /** The second loop of round t: i from its current value up to seg0[t]. */
  function Round(pen3: (int, int) -> real, p: Plan, t: int, i: int, st: Table): (r: Table)
    requires PlanOk(p) && TableOk(p, st) && 1 <= t <= p.m && 0 <= i
    ensures TableOk(p, r)
    ensures forall x :: 0 <= x < |st.pen| && (x < i || x > p.seg0[t]) ==> r.pen[x] == st.pen[x] && r.prev[x] == st.prev[x]
    decreases |p.clip0| + 1 - i
  {
    if i > p.seg0[t] then st
    else Round(pen3, p, t, i + 1, Relax(pen3, p, t, i, st))
  }

  /** One pass of the second loop's body: vertex i takes the best choice over clip1[i]..seg0[t-1]. */
  function Relax(pen3: (int, int) -> real, p: Plan, t: int, i: int, st: Table): (r: Table)
    requires PlanOk(p) && TableOk(p, st) && 1 <= t <= p.m && 0 <= i <= p.seg0[t]
    ensures TableOk(p, r)
    ensures forall x :: 0 <= x < |st.pen| && x != i ==> r.pen[x] == st.pen[x] && r.prev[x] == st.prev[x]
  {
    var c := Choose(pen3, st.pen, i, p.clip1[i], p.seg0[t - 1], Choice(Num(-1.0), st.prev[i]));
    Table(st.pen[i := c.best], st.prev[i := c.prev])
  }

  /** The outer loop over the number of segments t = 1..m. */
  function Rounds(pen3: (int, int) -> real, p: Plan, t: int, st: Table): (r: Table)
    requires PlanOk(p) && TableOk(p, st) && 1 <= t <= p.m + 1
    ensures TableOk(p, r)
    decreases p.m + 1 - t
  {
    if t > p.m then st
    else Rounds(pen3, p, t + 1, Round(pen3, p, t, p.seg1[t], st))
  }

  /** pen[0] = 0, everything else undefined. */
  function Initial(len: nat): (st: Table)
  {
    Table(seq(len + 1, _ => Undefined)[0 := Num(0.0)], seq(len + 1, _ => None))
  }

  /**
   * What rounds 1..t leave behind: pen[0] = 0 and, for every vertex i of a
   * window [seg1[s], seg0[s]] with s <= t, pen[i] is the least candidate over
   * k in clip1[i]..seg0[s-1] and prev[i] the largest k attaining it, a vertex
   * of the previous window.
   */
  predicate Solved(pen3: (int, int) -> real, p: Plan, st: Table, t: int)
    requires PlanOk(p) && TableOk(p, st) && 0 <= t <= p.m
  {
    && st.pen[0] == Num(0.0)
    && forall s, i :: 1 <= s <= t && p.seg1[s] <= i <= p.seg0[s] ==> SolvedAt(pen3, p, st, s, i)
  }

  predicate SolvedAt(pen3: (int, int) -> real, p: Plan, st: Table, s: int, i: int)
    requires PlanOk(p) && TableOk(p, st) && 1 <= s <= p.m && 0 <= i <= |p.clip0|
  {
    && st.pen[i].Num? && st.pen[i].v >= 0.0 && st.prev[i].Some?
    && p.seg1[s - 1] <= st.prev[i].value <= p.seg0[s - 1]
    && DefinedOn(st.pen, p.clip1[i], p.seg0[s - 1])
    && LargestArgmin(pen3, st.pen, i, p.clip1[i], p.seg0[s - 1], st.pen[i].v, st.prev[i].value)
  }

  /** The windows before round t, and the vertex 0, lie below seg1[t]. */
  lemma EarlierWindowsBelow(p: Plan, s: int, t: int)
    requires PlanOk(p) && Clip0Monotone(p.clip0) && 0 <= s < t <= p.m
    ensures p.seg0[s] < p.seg1[t]
    decreases t - s
  {
    WindowsOrdered(p, t);
    if s < t - 1 {
      EarlierWindowsBelow(p, s, t - 1);
      WindowsNonEmpty(p, t - 1);
    }
  }

  /** SolvedAt reads pen and prev only at i and at indexes up to seg0[s-1]. */
  lemma SolvedAtFrame(pen3: (int, int) -> real, p: Plan, a: Table, b: Table, s: int, i: int)
    requires PlanOk(p) && TableOk(p, a) && TableOk(p, b) && 1 <= s <= p.m && 0 <= i <= |p.clip0|
    requires a.pen[i] == b.pen[i] && a.prev[i] == b.prev[i]
    requires forall x :: 0 <= x <= p.seg0[s - 1] ==> a.pen[x] == b.pen[x]
    requires SolvedAt(pen3, p, a, s, i)
    ensures SolvedAt(pen3, p, b, s, i)
  {
    assert forall k :: p.clip1[i] <= k <= p.seg0[s - 1] ==> Cand(pen3, a.pen, k, i) == Cand(pen3, b.pen, k, i);
  }

  /** Round t solves its window, reading only the window before it, and leaves the earlier windows alone. */
  lemma {:induction false} RoundSolves(pen3: (int, int) -> real, p: Plan, t: int, i: int, st: Table)
    requires PlanOk(p) && Clip0Monotone(p.clip0) && NonNegative(pen3) && TableOk(p, st)
    requires 1 <= t <= p.m && p.seg1[t] <= i
    requires Solved(pen3, p, st, t - 1)
    requires forall x :: p.seg1[t] <= x < i && x <= p.seg0[t] ==> SolvedAt(pen3, p, st, t, x)
    ensures Solved(pen3, p, Round(pen3, p, t, i, st), t)
    decreases |p.clip0| + 1 - i
  {
    if i > p.seg0[t] {
      forall s, x | 1 <= s <= t && p.seg1[s] <= x <= p.seg0[s]
        ensures SolvedAt(pen3, p, st, s, x)
      {
      }
    } else {
      RelaxSolves(pen3, p, t, i, st);
      RoundSolves(pen3, p, t, i + 1, Relax(pen3, p, t, i, st));
    }
  }

  /** Relaxing vertex i solves it and keeps what earlier rounds and vertices solved. */
  lemma RelaxSolves(pen3: (int, int) -> real, p: Plan, t: int, i: int, st: Table)
    requires PlanOk(p) && Clip0Monotone(p.clip0) && NonNegative(pen3) && TableOk(p, st)
    requires 1 <= t <= p.m && p.seg1[t] <= i <= p.seg0[t]
    requires Solved(pen3, p, st, t - 1)
    requires forall x :: p.seg1[t] <= x < i ==> SolvedAt(pen3, p, st, t, x)
    ensures Solved(pen3, p, Relax(pen3, p, t, i, st), t - 1)
    ensures forall x :: p.seg1[t] <= x < i + 1 ==> SolvedAt(pen3, p, Relax(pen3, p, t, i, st), t, x)
  {
    var lo, hi := p.clip1[i], p.seg0[t - 1];
    var st' := Relax(pen3, p, t, i, st);
    WindowsOrdered(p, t);
    RelaxSolvesVertex(pen3, p, t, i, st);
    forall x | 0 <= x <= hi
      ensures st.pen[x] == st'.pen[x]
    {
    }
    forall s, x | 1 <= s <= t - 1 && p.seg1[s] <= x <= p.seg0[s]
      ensures SolvedAt(pen3, p, st', s, x)
    {
      EarlierWindowsBelow(p, s, t);
      EarlierWindowsBelow(p, s - 1, t);
      SolvedAtFrame(pen3, p, st, st', s, x);
    }
    forall x | p.seg1[t] <= x < i
      ensures SolvedAt(pen3, p, st', t, x)
    {
      SolvedAtFrame(pen3, p, st, st', t, x);
    }
    assert st'.pen[0] == Num(0.0) by {
      EarlierWindowsBelow(p, 0, t);
    }
  }

  /** The relaxed vertex i holds the least candidate over its range and the largest k attaining it. */
  lemma RelaxSolvesVertex(pen3: (int, int) -> real, p: Plan, t: int, i: int, st: Table)
    requires PlanOk(p) && Clip0Monotone(p.clip0) && NonNegative(pen3) && TableOk(p, st)
    requires 1 <= t <= p.m && p.seg1[t] <= i <= p.seg0[t]
    requires Solved(pen3, p, st, t - 1)
    ensures SolvedAt(pen3, p, Relax(pen3, p, t, i, st), t, i)
  {
    var lo, hi := p.clip1[i], p.seg0[t - 1];
    WindowsOrdered(p, t);
    Clip1Below(p.clip0, p.clip1, hi, i);
    assert p.clip0[hi] >= p.seg0[t];
    assert lo <= hi;
    Clip1Shape(p.clip0, p.clip1, p.seg1[t], i);
    PreviousWindowDefined(pen3, p, t, st);
    assert DefinedOn(st.pen, lo, hi);
    var c := Choose(pen3, st.pen, i, lo, hi, Choice(Num(-1.0), st.prev[i]));
    ChooseFindsLargestArgmin(pen3, st.pen, i, lo, hi, hi, Choice(Num(-1.0), st.prev[i]));
    var st' := Relax(pen3, p, t, i, st);
    assert st' == Table(st.pen[i := c.best], st.prev[i := c.prev]);
    assert c.prev.value <= hi;
    assert p.seg1[t - 1] <= lo by {
      if t >= 2 {
        Clip1Shape(p.clip0, p.clip1, p.seg1[t], i);
      }
    }
    assert forall k :: lo <= k <= hi ==> Cand(pen3, st.pen, k, i) == Cand(pen3, st'.pen, k, i);
  }

  /** The window before round t is solved (or is the vertex 0 with pen 0). */
  lemma PreviousWindowDefined(pen3: (int, int) -> real, p: Plan, t: int, st: Table)
    requires PlanOk(p) && TableOk(p, st) && 1 <= t <= p.m && Solved(pen3, p, st, t - 1)
    ensures DefinedOn(st.pen, p.seg1[t - 1], p.seg0[t - 1])
  {
    forall k | p.seg1[t - 1] <= k <= p.seg0[t - 1]
      ensures 0 <= k < |st.pen| && st.pen[k].Num? && st.pen[k].v >= 0.0
    {
      if t >= 2 {
        assert SolvedAt(pen3, p, st, t - 1, k);
      }
    }
  }

  lemma {:induction false} RoundsSolve(pen3: (int, int) -> real, p: Plan, t: int, st: Table)
    requires PlanOk(p) && Clip0Monotone(p.clip0) && NonNegative(pen3) && TableOk(p, st)
    requires 1 <= t <= p.m + 1 && Solved(pen3, p, st, t - 1)
    ensures Solved(pen3, p, Rounds(pen3, p, t, st), p.m)
    decreases p.m + 1 - t
  {
    if t <= p.m {
      RoundSolves(pen3, p, t, p.seg1[t], st);
      RoundsSolve(pen3, p, t + 1, Round(pen3, p, t, p.seg1[t], st));
    }
  }

  // ---------------------------------------------------------------- read-off

  /** The entries po[0..m) in increasing order, all in [0, len), starting with 0. */
  predicate PolygonShape(po: seq<int>, m: int, len: int)
  {
    && |po| == m && m >= 1
    && po[0] == 0
    && (forall a, b :: 0 <= a < b < |po| ==> po[a] < po[b])
    && (forall a :: 0 <= a < |po| ==> 0 <= po[a] < len)
  }

  /**
   * The read-off loop from i, filling po[j], po[j-1], ... in front of acc.
   * None where the source would leave a hole in po or write before po[0]:
   * an undefined prev[i], a predecessor that does not go back, or a count that
   * does not match m.
   */
  function ReadOff(prev: seq<Option<int>>, i: int, j: int, acc: seq<int>): (r: Option<seq<int>>)
    requires 0 <= i < |prev| && j >= -1
    requires |acc| >= 1 ==> acc[0] == i
    requires forall a :: 0 <= a < |acc| ==> i <= acc[a] < |prev| - 1
    requires forall a, b :: 0 <= a < b < |acc| ==> acc[a] < acc[b]
    ensures r.Some? ==> |r.value| == |acc| + j + 1 && |r.value| >= 1 && r.value[0] == 0
    ensures r.Some? ==> forall a, b :: 0 <= a < b < |r.value| ==> r.value[a] < r.value[b]
    ensures r.Some? ==> forall a :: 0 <= a < |r.value| ==> 0 <= r.value[a] < |prev| - 1
    ensures r.Some? ==> r.value[|r.value| - |acc|..] == acc
    decreases i
  {
    if i <= 0 then
      if j == -1 && |acc| >= 1 then Some(acc) else None
    else if j < 0 then None
    else
      match prev[i]
      case None => None
      case Some(k) =>
        if 0 <= k < i then ReadOff(prev, k, j - 1, [k] + acc) else None
  }

  /** From a vertex of window t with t hops to go, the solved predecessors lead to 0 in exactly t hops. */
  lemma {:induction false} ReadOffSucceeds(pen3: (int, int) -> real, p: Plan, st: Table, t: int, i: int, acc: seq<int>)
    requires PlanOk(p) && Clip0Monotone(p.clip0) && TableOk(p, st) && Solved(pen3, p, st, p.m)
    requires 0 <= t <= p.m && p.seg1[t] <= i <= p.seg0[t]
    requires |acc| == p.m - t && (t == p.m <==> |acc| == 0)
    requires forall a :: 0 <= a < |acc| ==> i <= acc[a] < |p.clip0|
    requires forall a, b :: 0 <= a < b < |acc| ==> acc[a] < acc[b]
    requires |acc| >= 1 ==> acc[0] == i
    ensures ReadOff(st.prev, i, t - 1, acc).Some?
    decreases t
  {
    WindowsNonEmpty(p, t);
    if t == 0 {
      assert i == 0;
    } else {
      HopBack(pen3, p, st, t, i);
      var k := st.prev[i].value;
      PrependIncreasing(k, i, |p.clip0|, acc);
      ReadOffSucceeds(pen3, p, st, t - 1, k, [k] + acc);
    }
  }

  /** The solved predecessor of a vertex of window t leads back into window t - 1. */
  lemma HopBack(pen3: (int, int) -> real, p: Plan, st: Table, t: int, i: int)
    requires PlanOk(p) && Clip0Monotone(p.clip0) && TableOk(p, st) && Solved(pen3, p, st, p.m)
    requires 1 <= t <= p.m && p.seg1[t] <= i <= p.seg0[t]
    ensures st.prev[i].Some? && 0 <= st.prev[i].value < i
    ensures p.seg1[t - 1] <= st.prev[i].value <= p.seg0[t - 1]
  {
    WindowsOrdered(p, t);
    assert SolvedAt(pen3, p, st, t, i);
  }

  /** A vertex below an increasing run that starts at or above i keeps it increasing. */
  lemma PrependIncreasing(k: int, i: int, n: int, acc: seq<int>)
    requires k < i <= n
    requires forall a :: 0 <= a < |acc| ==> i <= acc[a] < n
    requires forall a, b :: 0 <= a < b < |acc| ==> acc[a] < acc[b]
    ensures forall a :: 0 <= a < |[k] + acc| ==> k <= ([k] + acc)[a] < n
    ensures forall a, b :: 0 <= a < b < |[k] + acc| ==> ([k] + acc)[a] < ([k] + acc)[b]
  {
    var r := [k] + acc;
    assert forall a :: 0 < a < |r| ==> r[a] == acc[a - 1];
  }

  /** The plan of a path: clip0, clip1, seg0, m and seg1. */
  method MakePlan(lon: seq<int>) returns (p: Plan)
    requires |lon| >= 2 && forall i :: 0 <= i < |lon| ==> 0 <= lon[i] < |lon|
    ensures PlanOk(p) && p.clip0 == Clip0(lon)
  {
    var clip0 := Clip0(lon);
    var clip1 := Clip1(clip0);
    var seg0, m := Seg0(clip0);
    var seg1 := Seg1(clip0, clip1, m);
    p := Plan(clip0, clip1, seg0, seg1, m);
  }

  /**
   * `bestPolygon`: m = optimalNumSegments and po the optimal polygon. When po
   * comes out, it has m vertex indexes, starts at 0 and increases; with a
   * nondecreasing clip0 and non-negative penalties it always comes out, and
   * every pen[i] is the least candidate with prev[i] its largest minimiser.
   */
  method BestPolygon(lon: seq<int>, pen3: (int, int) -> real) returns (m: int, po: Option<seq<int>>)
    requires |lon| >= 2 && forall i :: 0 <= i < |lon| ==> 0 <= lon[i] < |lon|
    ensures m >= 1
    ensures po.Some? ==> PolygonShape(po.value, m, |lon|)
    ensures Clip0Monotone(Clip0(lon)) && NonNegative(pen3) ==> po.Some?
  {
    var p := MakePlan(lon);
    var len := |lon|;
    var st := Rounds(pen3, p, 1, Initial(len));
    m := p.m;
    po := ReadOff(st.prev, len, m - 1, []);
    if Clip0Monotone(p.clip0) && NonNegative(pen3) {
      RoundsSolve(pen3, p, 1, Initial(len));
      ReadOffSucceeds(pen3, p, st, m, len, []);
    }
  }
}
