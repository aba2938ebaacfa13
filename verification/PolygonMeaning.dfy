/** The inside of a polygon in coordinates: the exact crossings of the edges with a row, without any stepping. */
module PolygonMeaning {
  import opened Bresenham
  import opened Crossings
  import opened PointsToRegion
  import opened Boxes
  import opened Banding
  import opened Regions
  import opened Algebra
  import opened Polygon

  lemma CeilAtMost(c: int, n: int, d: int, x: int)
    requires d > 0 && IsCeil(c, n, d)
    ensures c <= x <==> n <= x * d
  {
    MulMono(d, c, x);
    MulMono(d, x, c - 1);
    assert d * x == x * d;
  }

  /** An edge crosses at or left of x exactly when its rational crossing with the row is at or left of x. */
  lemma LeftOfMeans(g: Segment, x: int, y: int)
    ensures LeftOf(g, x, y) <==>
            g.top.y <= y < g.bottom.y
            && (y - g.top.y) * (g.bottom.x - g.top.x) <= (x - g.top.x) * (g.bottom.y - g.top.y)
  {
    if Crosses(g, y) {
      var n, d := (y - g.top.y) * (g.bottom.x - g.top.x), g.bottom.y - g.top.y;
      CeilDivIsCeil(n, d);
      CeilAtMost(CeilDiv(n, d), n, d, x - g.top.x);
    }
  }

  /** The edges that a row meets at or left of the point, those running down and those running up. */
  ghost predicate CrossedBy(points: seq<Point>, x: int, y: int, downs: set<int>, ups: set<int>) {
    && (forall i :: i in downs ==> 0 <= i < |points|) && (forall i :: i in ups ==> 0 <= i < |points|)
    && forall i :: 0 <= i < |points| ==>
         var g := EdgeOf(points, i);
         (i in downs <==> LeftOf(g, x, y) && g.down) && (i in ups <==> LeftOf(g, x, y) && !g.down)
  }

  ghost function Under(s: set<int>, k: int): set<int> { set i | i in s && i < k }

  lemma UnderNext(s: set<int>, k: int)
    ensures |Under(s, k + 1)| == |Under(s, k)| + if k in s then 1 else 0
  {
    assert Under(s, k + 1) == Under(s, k) + if k in s then {k} else {};
  }

  /** The sums over the edges count them. */
  lemma {:induction false} SumsCount(points: seq<Point>, x: int, y: int, downs: set<int>, ups: set<int>, k: nat)
    requires k <= |points| && CrossedBy(points, x, y, downs, ups)
    ensures Sum(Segments(points)[..k], LeftCount(x, y)) == |Under(downs, k)| + |Under(ups, k)|
    ensures Sum(Segments(points)[..k], LeftSign(x, y)) == |Under(downs, k)| - |Under(ups, k)|
  {
    var gs := Segments(points);
    if k == 0 {
      assert Under(downs, 0) == {} && Under(ups, 0) == {};
    } else {
      SumsCount(points, x, y, downs, ups, k - 1);
      assert gs[..k] == gs[..k - 1] + [gs[k - 1]];
      SumSnoc(gs[..k - 1], gs[k - 1], LeftCount(x, y));
      SumSnoc(gs[..k - 1], gs[k - 1], LeftSign(x, y));
      UnderNext(downs, k - 1);
      UnderNext(ups, k - 1);
    }
  }

  lemma Counted(points: seq<Point>, x: int, y: int, downs: set<int>, ups: set<int>)
    requires CrossedBy(points, x, y, downs, ups)
    ensures EvenOddInside(points, x, y) <==> (|downs| + |ups|) % 2 == 1
    ensures WindingInside(points, x, y) <==> |downs| != |ups|
  {
    var n := |points|;
    SumsCount(points, x, y, downs, ups, n);
    assert Segments(points)[..n] == Segments(points);
    assert Under(downs, n) == downs && Under(ups, n) == ups;
  }

  /**
   * The fill rules without columns and stepping: edge i runs from the vertex before vertex i to vertex i, and it
   * counts when its row range holds y and its exact, rational crossing with the row is not right of x.
   */
  lemma InsideMeans(points: seq<Point>, before: seq<Point>, x: int, y: int, downs: set<int>, ups: set<int>)
    requires points != [] && before == [points[|points| - 1]] + points[..|points| - 1]
    requires forall i :: i in downs <==>
               (0 <= i < |points| && before[i].y <= y < points[i].y &&
                (y - before[i].y) * (points[i].x - before[i].x) <= (x - before[i].x) * (points[i].y - before[i].y))
    requires forall i :: i in ups <==>
               (0 <= i < |points| && points[i].y <= y < before[i].y &&
                (y - points[i].y) * (before[i].x - points[i].x) <= (x - points[i].x) * (before[i].y - points[i].y))
    ensures InsideRule(EvenOddRule, points, x, y) <==> (|downs| + |ups|) % 2 == 1
    ensures InsideRule(WindingRule, points, x, y) <==> |downs| != |ups|
  {
    forall i | 0 <= i < |points|
      ensures var g := EdgeOf(points, i);
              (i in downs <==> LeftOf(g, x, y) && g.down) && (i in ups <==> LeftOf(g, x, y) && !g.down)
    {
      assert before[i] == Prev(points, i);
      LeftOfMeans(EdgeOf(points, i), x, y);
    }
    Counted(points, x, y, downs, ups);
  }

  /** A polygon filled and one pixel asked for: the answer is that of the rule, in coordinates. */
  method PixelOfPolygon(points: seq<Point>, rule: FillRule, x: int, y: int, ghost before: seq<Point>,
                        ghost downs: set<int>, ghost ups: set<int>)
    returns (inside: bool)
    requires |points| >= 2 && PointsInRange(points)
    requires before == [points[|points| - 1]] + points[..|points| - 1]
    requires forall i :: i in downs <==>
               (0 <= i < |points| && before[i].y <= y < points[i].y &&
                (y - before[i].y) * (points[i].x - before[i].x) <= (x - before[i].x) * (points[i].y - before[i].y))
    requires forall i :: i in ups <==>
               (0 <= i < |points| && points[i].y <= y < before[i].y &&
                (y - points[i].y) * (before[i].x - points[i].x) <= (x - points[i].x) * (before[i].y - points[i].y))
    ensures rule == EvenOddRule ==> (inside <==> (|downs| + |ups|) % 2 == 1)
    ensures rule == WindingRule ==> (inside <==> |downs| != |ups|)
  {
    ghost var pts;
    var region;
    region, pts := RegionPolygon(points, rule);
    inside := PointIn(region, x, y);
    InsideMeans(points, before, x, y, downs, ups);
  }
}
