/** The fill rules as sums over the edges that a scanline crosses, and how sorted crossings realise them. */
module Crossings {
  import opened Bresenham

  /** The vertex before vertex `i` of the closed polygon. */
  function Prev(pts: seq<Point>, i: nat): Point
    requires i <= |pts| && pts != []
  {
    if i == 0 then pts[|pts| - 1] else pts[i - 1]
  }

  /** The edge that ends at vertex `i` of the closed polygon. */
  function EdgeOf(pts: seq<Point>, i: nat): Segment
    requires i < |pts|
  {
    if Prev(pts, i).y > pts[i].y then Segment(pts[i], Prev(pts, i), false)
    else Segment(Prev(pts, i), pts[i], true)
  }

  ghost function Segments(pts: seq<Point>): (gs: seq<Segment>)
    ensures |gs| == |pts| && forall i :: 0 <= i < |pts| ==> gs[i] == EdgeOf(pts, i)
  {
    seq(|pts|, i requires 0 <= i < |pts| => EdgeOf(pts, i))
  }

  /** The edge crosses row `y` at or left of column `x`. */
  predicate LeftOf(g: Segment, x: int, y: int) {
    Crosses(g, y) && CrossX(g, y) <= x
  }

  function Sign(g: Segment): int { if g.down then 1 else -1 }

  ghost function Sum(gs: seq<Segment>, w: Segment -> int): int {
    if gs == [] then 0 else Sum(gs[..|gs| - 1], w) + w(gs[|gs| - 1])
  }

  ghost function LeftCount(x: int, y: int): Segment -> int {
    g => if LeftOf(g, x, y) then 1 else 0
  }

  ghost function LeftSign(x: int, y: int): Segment -> int {
    g => if LeftOf(g, x, y) then Sign(g) else 0
  }

  ghost function CrossCount(y: int): Segment -> int {
    g => if Crosses(g, y) then 1 else 0
  }

  ghost function CrossSign(y: int): Segment -> int {
    g => if Crosses(g, y) then Sign(g) else 0
  }

  /** The even-odd rule: an odd number of edges cross the row at or left of the point. */
  ghost predicate EvenOddInside(pts: seq<Point>, x: int, y: int) {
    Sum(Segments(pts), LeftCount(x, y)) % 2 == 1
  }

  /** The winding rule: the directions of the edges that cross at or left of the point do not cancel. */
  ghost predicate WindingInside(pts: seq<Point>, x: int, y: int) {
    Sum(Segments(pts), LeftSign(x, y)) != 0
  }

  lemma SumSnoc(gs: seq<Segment>, g: Segment, w: Segment -> int)
    ensures Sum(gs + [g], w) == Sum(gs, w) + w(g)
  {
    assert (gs + [g])[..|gs|] == gs;
  }

  lemma {:induction false} SumConcat(a: seq<Segment>, b: seq<Segment>, w: Segment -> int)
    ensures Sum(a + b, w) == Sum(a, w) + Sum(b, w)
  {
    if b == [] {
      assert a + b == a;
    } else {
      var n := |b| - 1;
      assert (a + b)[..|a + b| - 1] == a + b[..n];
      SumConcat(a, b[..n], w);
    }
  }

  /** A sum depends only on how often each segment that counts occurs. */
  lemma {:induction false} SumByCounts(a: seq<Segment>, b: seq<Segment>, w: Segment -> int)
    requires forall g :: w(g) != 0 ==> multiset(a)[g] == multiset(b)[g]
    ensures Sum(a, w) == Sum(b, w)
    decreases |b|
  {
    if b == [] {
      SumZero(a, w);
    } else {
      var n := |b| - 1;
      var h := b[n];
      assert b == b[..n] + [h];
      if w(h) == 0 {
        SumByCounts(a, b[..n], w);
      } else {
        assert multiset(b)[h] > 0 && h in multiset(a);
        var i :| 0 <= i < |a| && a[i] == h;
        var a' := a[..i] + a[i + 1..];
        assert a == a[..i] + [h] + a[i + 1..];
        SumConcat(a[..i] + [h], a[i + 1..], w);
        SumSnoc(a[..i], h, w);
        SumConcat(a[..i], a[i + 1..], w);
        assert multiset(a) == multiset(a') + multiset{h};
        assert multiset(b) == multiset(b[..n]) + multiset{h};
        SumByCounts(a', b[..n], w);
      }
    }
  }

  lemma {:induction false} SumZero(a: seq<Segment>, w: Segment -> int)
    requires forall g :: w(g) != 0 ==> multiset(a)[g] == 0
    ensures Sum(a, w) == 0
  {
    if a != [] {
      var n := |a| - 1;
      assert a == a[..n] + [a[n]];
      assert multiset(a)[a[n]] > 0;
      SumZero(a[..n], w);
    }
  }

  function Below(p: Point, y: int): int { if p.y > y then 1 else 0 }

  /** Directed crossings telescope along the polygon. */
  lemma {:induction false} PathCrossings(pts: seq<Point>, k: nat, y: int)
    requires 0 < k <= |pts|
    ensures Sum(Segments(pts)[..k], CrossSign(y)) == Below(pts[k - 1], y) - Below(pts[|pts| - 1], y)
  {
    var gs := Segments(pts);
    assert gs[..k] == gs[..k - 1] + [gs[k - 1]];
    SumSnoc(gs[..k - 1], gs[k - 1], CrossSign(y));
    if k > 1 { PathCrossings(pts, k - 1, y); }
  }

  /** Every row crosses a closed polygon as often downwards as upwards. */
  lemma ClosedCrossings(pts: seq<Point>, y: int)
    ensures Sum(Segments(pts), CrossSign(y)) == 0
  {
    if pts != [] {
      PathCrossings(pts, |pts|, y);
      assert Segments(pts)[..|pts|] == Segments(pts);
    }
  }

  lemma {:induction false} CrossParity(gs: seq<Segment>, y: int)
    ensures Sum(gs, CrossCount(y)) % 2 == Sum(gs, CrossSign(y)) % 2
  {
    if gs != [] { CrossParity(gs[..|gs| - 1], y); }
  }

  // Sorted crossings of one row.

  ghost predicate Ascending(xs: seq<int>) {
    forall i, j :: 0 <= i < j < |xs| ==> xs[i] <= xs[j]
  }

  ghost function NumLE(xs: seq<int>, x: int): nat {
    if xs == [] then 0 else NumLE(xs[..|xs| - 1], x) + if xs[|xs| - 1] <= x then 1 else 0
  }

  /** Column x lies between a crossing of even index and the next one. */
  ghost predicate BetweenPair(xs: seq<int>, x: int) {
    exists j :: 0 <= j < |xs| - 1 && j % 2 == 0 && xs[j] <= x < xs[j + 1]
  }

  lemma {:induction false} NumLEPrefix(xs: seq<int>, x: int, n: nat)
    requires n <= |xs|
    requires forall i :: 0 <= i < n ==> xs[i] <= x
    requires forall i :: n <= i < |xs| ==> x < xs[i]
    ensures NumLE(xs, x) == n
    decreases |xs|
  {
    if xs != [] {
      var ys := xs[..|xs| - 1];
      assert forall i :: 0 <= i < |ys| ==> ys[i] == xs[i];
      NumLEPrefix(ys, x, if n == |xs| then n - 1 else n);
    }
  }

  function FirstAbove(xs: seq<int>, x: int): (n: nat)
    ensures n <= |xs| && (n < |xs| ==> x < xs[n])
    ensures forall i :: 0 <= i < n ==> xs[i] <= x
  {
    if xs == [] || xs[0] > x then 0 else 1 + FirstAbove(xs[1..], x)
  }

  /** In an even number of sorted crossings, the pairs cover the columns with an odd count at their left. */
  lemma PairsAreOdd(xs: seq<int>, x: int)
    requires Ascending(xs) && |xs| % 2 == 0
    ensures BetweenPair(xs, x) <==> NumLE(xs, x) % 2 == 1
  {
    var n := FirstAbove(xs, x);
    NumLEPrefix(xs, x, n);
    if n % 2 == 1 { assert xs[n - 1] <= x < xs[n - 1 + 1]; }
    if BetweenPair(xs, x) {
      var j :| 0 <= j < |xs| - 1 && j % 2 == 0 && xs[j] <= x < xs[j + 1];
      assert j < n <= j + 1;
    }
  }

  // The crossings that each fill rule emits on a row.

  ghost predicate AllCross(gs: seq<Segment>, y: int) {
    forall i :: 0 <= i < |gs| ==> Crosses(gs[i], y)
  }

  ghost function Columns(gs: seq<Segment>, y: int): (xs: seq<int>)
    requires AllCross(gs, y)
    ensures |xs| == |gs| && forall i :: 0 <= i < |gs| ==> xs[i] == CrossX(gs[i], y)
  {
    seq(|gs|, i requires 0 <= i < |gs| => CrossX(gs[i], y))
  }

  ghost function Signs(gs: seq<Segment>): (ds: seq<int>)
    ensures |ds| == |gs| && forall i :: 0 <= i < |gs| ==> ds[i] == Sign(gs[i])
  {
    seq(|gs|, i requires 0 <= i < |gs| => Sign(gs[i]))
  }

  lemma {:induction false} ColumnsCount(gs: seq<Segment>, x: int, y: int)
    requires AllCross(gs, y)
    ensures NumLE(Columns(gs, y), x) == Sum(gs, LeftCount(x, y))
    ensures |gs| == Sum(gs, CrossCount(y))
  {
    if gs != [] {
      var n := |gs| - 1;
      assert Columns(gs, y)[..n] == Columns(gs[..n], y);
      ColumnsCount(gs[..n], x, y);
    }
  }

  ghost function Total(ds: seq<int>): int {
    if ds == [] then 0 else Total(ds[..|ds| - 1]) + ds[|ds| - 1]
  }

  /** The sum of the directions of the crossings at or left of column x. */
  ghost function LeftTotal(xs: seq<int>, ds: seq<int>, x: int): int
    requires |xs| == |ds|
  {
    if xs == [] then 0
    else LeftTotal(xs[..|xs| - 1], ds[..|xs| - 1], x) + if xs[|xs| - 1] <= x then ds[|xs| - 1] else 0
  }

  lemma {:induction false} SignsTotal(gs: seq<Segment>, x: int, y: int)
    requires AllCross(gs, y)
    ensures Total(Signs(gs)) == Sum(gs, CrossSign(y))
    ensures LeftTotal(Columns(gs, y), Signs(gs), x) == Sum(gs, LeftSign(x, y))
  {
    if gs != [] {
      var n := |gs| - 1;
      assert Columns(gs, y)[..n] == Columns(gs[..n], y) && Signs(gs)[..n] == Signs(gs[..n]);
      SignsTotal(gs[..n], x, y);
    }
  }

  /** Whether the running winding number becomes or stops being zero at crossing k. */
  ghost predicate TogglesAt(ds: seq<int>, k: nat)
    requires k < |ds|
  {
    (Total(ds[..k]) == 0) != (Total(ds[..k + 1]) == 0)
  }

  /** The columns of the first n crossings at which the winding number toggles. */
  ghost function Toggles(xs: seq<int>, ds: seq<int>, n: nat): seq<int>
    requires |xs| == |ds| && n <= |xs|
  {
    if n == 0 then []
    else Toggles(xs, ds, n - 1) + if TogglesAt(ds, n - 1) then [xs[n - 1]] else []
  }

  lemma {:induction false} TogglesParity(xs: seq<int>, ds: seq<int>, n: nat)
    requires |xs| == |ds| && n <= |xs|
    ensures |Toggles(xs, ds, n)| % 2 == 1 <==> Total(ds[..n]) != 0
  {
    if n > 0 {
      TogglesParity(xs, ds, n - 1);
    }
  }

  lemma {:induction false} TogglesAscend(xs: seq<int>, ds: seq<int>, n: nat)
    requires |xs| == |ds| && n <= |xs| && Ascending(xs)
    ensures Ascending(Toggles(xs, ds, n))
    ensures forall k :: 0 <= k < |Toggles(xs, ds, n)| ==> n > 0 && Toggles(xs, ds, n)[k] <= xs[n - 1]
  {
    if n > 0 {
      TogglesAscend(xs, ds, n - 1);
      assert n > 1 ==> xs[n - 2] <= xs[n - 1];
    }
  }

  /** A last crossing right of the column changes neither count. */
  lemma RightCrossing(xs: seq<int>, ds: seq<int>, n: nat, x: int)
    requires |xs| == |ds| && 0 < n <= |xs| && x < xs[n - 1]
    ensures NumLE(Toggles(xs, ds, n), x) == NumLE(Toggles(xs, ds, n - 1), x)
    ensures LeftTotal(xs[..n], ds[..n], x) == LeftTotal(xs[..n - 1], ds[..n - 1], x)
  {
    var ts, us := Toggles(xs, ds, n), Toggles(xs, ds, n - 1);
    assert ts == us || (ts == us + [xs[n - 1]] && ts[..|us|] == us);
    assert xs[..n][..n - 1] == xs[..n - 1] && ds[..n][..n - 1] == ds[..n - 1];
  }

  /** Counting the toggles at the left of a column decides whether the winding number there is zero. */
  lemma {:induction false} TogglesCount(xs: seq<int>, ds: seq<int>, n: nat, x: int)
    requires |xs| == |ds| && n <= |xs| && Ascending(xs)
    ensures NumLE(Toggles(xs, ds, n), x) % 2 == 1 <==> LeftTotal(xs[..n], ds[..n], x) != 0
  {
    if n > 0 {
      var ts := Toggles(xs, ds, n);
      if xs[n - 1] <= x {
        TogglesParity(xs, ds, n);
        TogglesAscend(xs, ds, n);
        NumLEPrefix(ts, x, |ts|);
        LeftTotalAll(xs[..n], ds[..n], x);
      } else {
        TogglesCount(xs, ds, n - 1, x);
        RightCrossing(xs, ds, n, x);
      }
    }
  }

  lemma {:induction false} LeftTotalAll(xs: seq<int>, ds: seq<int>, x: int)
    requires |xs| == |ds| && forall i :: 0 <= i < |xs| ==> xs[i] <= x
    ensures LeftTotal(xs, ds, x) == Total(ds)
  {
    if xs != [] { LeftTotalAll(xs[..|xs| - 1], ds[..|xs| - 1], x); }
  }
}
