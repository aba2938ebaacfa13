/** What a chart view makes of polygons: each filled and cut to the view, then added or taken away in order. */
module ViewRegions {
  import opened Boxes
  import opened Banding
  import opened Regions
  import opened Algebra
  import opened Bresenham
  import opened Crossings
  import opened PointsToRegion
  import opened Polygon

  /** One outline of a coverage: its northernmost latitude, whether it is a hole, and its pixels. */
  datatype Contour = Contour(maxlat: real, subtract: bool, points: seq<Point>)

  datatype ContourRegion = ContourRegion(maxlat: real, subtract: bool, r: Region)

  /** The last lines of GetVPRegionIntersect for one polygon: fill it and cut it to the region. */
  method PolygonWithin(points: seq<Point>, region: Region) returns (r: Region)
    requires |points| >= 2 && PointsInRange(points) && region.Usable()
    ensures fresh(r) && r.Usable()
    ensures forall x, y :: In(r.rects, x, y) <==> EvenOddInside(points, x, y) && In(region.rects, x, y)
  {
    ghost var pts;
    r, pts := RegionPolygon(points, EvenOddRule);
    Intersect(r, region);
  }

  ghost predicate Drawable(cs: seq<Contour>) {
    forall i :: 0 <= i < |cs| ==> |cs[i].points| >= 2 && PointsInRange(cs[i].points)
  }

  /** Contour k is drawn before contour l: it reaches further north, or as far and comes first. */
  predicate DrawnBefore(cs: seq<Contour>, k: nat, l: nat)
    requires k < |cs| && l < |cs|
  {
    cs[k].maxlat > cs[l].maxlat || (cs[k].maxlat == cs[l].maxlat && k < l)
  }

  /** `order` lists the contours before n, each once, in drawing order. */
  ghost predicate InOrder(cs: seq<Contour>, n: nat, order: seq<nat>) {
    && n <= |cs| && (forall a :: 0 <= a < |order| ==> order[a] < n)
    && (forall k: nat :: k < n ==> k in order)
    && (forall a, b {:trigger DrawnBefore(cs, order[a], order[b])} ::
          0 <= a < b < |order| ==> DrawnBefore(cs, order[a], order[b]))
  }

  /** Entry a of the list holds contour order[a], filled and cut to the region `s`. */
  ghost predicate Entered(cs: seq<Contour>, order: seq<nat>, a: nat, e: ContourRegion, s: seq<Box>)
    reads e.r
  {
    && a < |order| && order[a] < |cs|
    && e.maxlat == cs[order[a]].maxlat && e.subtract == cs[order[a]].subtract && e.r.Usable()
    && forall x, y :: In(e.r.rects, x, y) <==> EvenOddInside(cs[order[a]].points, x, y) && In(s, x, y)
  }

  ghost function RegionsOf(list: seq<ContourRegion>): set<Region> {
    set e | e in list :: e.r
  }

  ghost predicate AllEntered(cs: seq<Contour>, order: seq<nat>, list: seq<ContourRegion>, s: seq<Box>)
    reads RegionsOf(list)
  {
    |list| == |order| && forall a {:trigger list[a]} :: 0 <= a < |list| ==> Entered(cs, order, a, list[a], s)
  }

  /** Insert an element before position k. */
  function Inserted<T>(xs: seq<T>, k: nat, x: T): (r: seq<T>)
    requires k <= |xs|
    ensures |r| == |xs| + 1 && r[k] == x
    ensures forall a {:trigger r[a]} :: 0 <= a < |r| ==>
              r[a] == if a < k then xs[a] else if a == k then x else xs[a - 1]
  {
    xs[..k] + [x] + xs[k..]
  }

  lemma OrderGrows(cs: seq<Contour>, n: nat, order: seq<nat>, k: nat)
    requires InOrder(cs, n, order) && n < |cs| && k <= |order|
    requires forall a :: 0 <= a < k ==> cs[order[a]].maxlat >= cs[n].maxlat
    requires k < |order| ==> cs[order[k]].maxlat < cs[n].maxlat
    ensures InOrder(cs, n + 1, Inserted(order, k, n))
  {
    var r := Inserted(order, k, n);
    forall l: nat | l < n + 1 ensures l in r {
      if l < n {
        assert l in order;
        var a :| 0 <= a < |order| && order[a] == l;
        assert r[if a < k then a else a + 1] == l;
      }
    }
    forall a, b | 0 <= a < b < |r| ensures DrawnBefore(cs, r[a], r[b]) {
      var a', b' := if a < k then a else a - 1, if b < k then b else b - 1;
      if a != k && b != k { assert DrawnBefore(cs, order[a'], order[b']); }
      if a == k && k < b' { assert DrawnBefore(cs, order[k], order[b']); }
    }
  }

  lemma ListGrows(cs: seq<Contour>, order: seq<nat>, list: seq<ContourRegion>, s: seq<Box>, k: nat, n: nat,
                  e: ContourRegion)
    requires InOrder(cs, n, order) && AllEntered(cs, order, list, s) && Entered(cs, [n], 0, e, s) && k <= |list|
    requires forall a :: 0 <= a < k ==> list[a].maxlat >= e.maxlat
    requires k < |list| ==> list[k].maxlat < e.maxlat
    ensures InOrder(cs, n + 1, Inserted(order, k, n))
    ensures AllEntered(cs, Inserted(order, k, n), Inserted(list, k, e), s)
  {
    forall a | 0 <= a < |list| ensures list[a].maxlat == cs[order[a]].maxlat {
      assert Entered(cs, order, a, list[a], s);
    }
    OrderGrows(cs, n, order, k);
    var order', list' := Inserted(order, k, n), Inserted(list, k, e);
    forall a | 0 <= a < |list'| ensures Entered(cs, order', a, list'[a], s) {
      if a < k { assert Entered(cs, order, a, list[a], s); }
      if a > k { assert Entered(cs, order, a - 1, list[a - 1], s); }
    }
  }

  /** Where a new contour goes in the list: before the first that does not reach as far north. */
  method FindPlace(list: seq<ContourRegion>, maxlat: real) returns (k: nat)
    ensures k <= |list| && forall a :: 0 <= a < k ==> list[a].maxlat >= maxlat
    ensures k < |list| ==> list[k].maxlat < maxlat
  {
    k := 0;
    while k != |list|
      invariant k <= |list| && forall a :: 0 <= a < k ==> list[a].maxlat >= maxlat
    {
      if list[k].maxlat < maxlat { break; }
      k := k + 1;
    }
  }

  method DrawContour(cs: seq<Contour>, i: nat, region: Region) returns (s: ContourRegion)
    requires i < |cs| && Drawable(cs) && region.Usable()
    ensures fresh(s.r) && Entered(cs, [i], 0, s, region.rects)
  {
    var r := PolygonWithin(cs[i].points, region);
    s := ContourRegion(cs[i].maxlat, cs[i].subtract, r);
  }

  /** Fill every contour, cut it to the region, and keep the list in drawing order. */
  method DrawContours(cs: seq<Contour>, region: Region) returns (list: seq<ContourRegion>, ghost order: seq<nat>)
    requires Drawable(cs) && region.Usable()
    ensures InOrder(cs, |cs|, order) && AllEntered(cs, order, list, region.rects)
    ensures forall a :: 0 <= a < |list| ==> fresh(list[a].r)
  {
    list, order := [], [];
    var i := 0;
    while i < |cs|
      invariant 0 <= i <= |cs| && InOrder(cs, i, order) && AllEntered(cs, order, list, region.rects)
      invariant forall a :: 0 <= a < |list| ==> fresh(list[a].r)
    {
      var s := DrawContour(cs, i, region);
      var k := FindPlace(list, s.maxlat);
      ListGrows(cs, order, list, region.rects, k, i, s);
      list, order := Inserted(list, k, s), Inserted(order, k, i);
      i := i + 1;
    }
  }

  /** After the first n entries: the last of them that covers the point decides. */
  ghost predicate Combined(cs: seq<Contour>, order: seq<nat>, n: nat, x: int, y: int)
    requires n <= |order| && forall a :: 0 <= a < |order| ==> order[a] < |cs|
  {
    n > 0 && var c := cs[order[n - 1]];
    if EvenOddInside(c.points, x, y) then !c.subtract else Combined(cs, order, n - 1, x, y)
  }

  /** The final loop of GetVPRegionIntersect for a coverage: holes take away, the others add. */
  method CombineContours(list: seq<ContourRegion>, ghost cs: seq<Contour>, ghost order: seq<nat>, ghost s: seq<Box>)
    returns (r: Region)
    requires AllEntered(cs, order, list, s) && forall a :: 0 <= a < |order| ==> order[a] < |cs|
    ensures fresh(r) && r.Usable()
    ensures forall x, y :: In(r.rects, x, y) <==> In(s, x, y) && Combined(cs, order, |order|, x, y)
  {
    r := new Region();
    var k := 0;
    while k != |list|
      invariant k <= |list| && r.Usable() && fresh(r) && AllEntered(cs, order, list, s)
      invariant forall x, y :: In(r.rects, x, y) <==> In(s, x, y) && Combined(cs, order, k, x, y)
    {
      assert Entered(cs, order, k, list[k], s);
      if list[k].subtract { Subtract(r, list[k].r); } else { Union(r, list[k].r); }
      k := k + 1;
    }
  }

  /** Contour k covers the point and every other contour that does is drawn before it. */
  ghost predicate Decides(cs: seq<Contour>, k: nat, x: int, y: int)
    requires k < |cs|
  {
    && EvenOddInside(cs[k].points, x, y)
    && forall l: nat :: l < |cs| && l != k && EvenOddInside(cs[l].points, x, y) ==> DrawnBefore(cs, l, k)
  }

  lemma {:induction false} LastCovering(cs: seq<Contour>, order: seq<nat>, n: nat, x: int, y: int)
    requires InOrder(cs, |cs|, order) && n <= |order|
    requires forall a :: n <= a < |order| ==> !EvenOddInside(cs[order[a]].points, x, y)
    ensures Combined(cs, order, n, x, y) <==> exists k: nat :: k < |cs| && Decides(cs, k, x, y) && !cs[k].subtract
  {
    if n == 0 {
      forall k: nat | k < |cs| ensures !EvenOddInside(cs[k].points, x, y) { assert k in order; }
    } else if EvenOddInside(cs[order[n - 1]].points, x, y) {
      var m := order[n - 1];
      forall l: nat | l < |cs| && l != m && EvenOddInside(cs[l].points, x, y) ensures DrawnBefore(cs, l, m) {
        assert l in order;
        var a :| 0 <= a < |order| && order[a] == l;
        assert DrawnBefore(cs, order[a], order[n - 1]);
      }
      assert Decides(cs, m, x, y);
      forall k: nat | k < |cs| && k != m ensures !Decides(cs, k, x, y) {
        assert DrawnBefore(cs, k, m) ==> !DrawnBefore(cs, m, k);
      }
    } else {
      LastCovering(cs, order, n - 1, x, y);
    }
  }

  /**
   * GetVPRegionIntersect for a coverage: a point of the region is in the result exactly when, of the contours
   * around it, the one that reaches least far north, and the latest of those, is not a hole.
   */
  method RegionOfContours(cs: seq<Contour>, region: Region) returns (r: Region)
    requires Drawable(cs) && region.Usable()
    ensures fresh(r) && r.Usable()
    ensures forall x, y :: In(r.rects, x, y) <==>
              In(region.rects, x, y) && exists k: nat :: k < |cs| && Decides(cs, k, x, y) && !cs[k].subtract
  {
    var list;
    ghost var order;
    list, order := DrawContours(cs, region);
    r := CombineContours(list, cs, order, region.rects);
    forall x, y { LastCovering(cs, order, |order|, x, y); }
  }
}
