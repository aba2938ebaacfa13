/**
 * Two small polygons whose regions are not in canonical form, and what two queries then answer of them; and any
 * rectangle drawn as a polygon, for which they answer as they should.
 */
module PolygonWitnesses {
  import opened Boxes
  import opened Banding
  import opened Geometry
  import opened Regions
  import opened Algebra
  import opened Bresenham
  import opened Crossings
  import opened EdgeTables
  import opened Scanlines
  import opened PointsToRegion
  import opened Polygon
  import opened RectIn

  /** A bar two columns wide and three rows high, with one vertex more than a rectangle has. */
  const BAR: seq<Point> := [Point(0, 0), Point(2, 0), Point(2, 1), Point(2, 3), Point(0, 3)]

  const LEFT := Segment(Point(0, 0), Point(0, 3), false)

  function Right(y: int): Segment {
    if y < 1 then Segment(Point(2, 0), Point(2, 1), true) else Segment(Point(2, 1), Point(2, 3), true)
  }

  function One(yes: bool): nat { if yes then 1 else 0 }

  lemma CountOfFive(a: Segment, b: Segment, c: Segment, d: Segment, e: Segment, g: Segment)
    ensures multiset([a, b, c, d, e])[g] == One(g == a) + One(g == b) + One(g == c) + One(g == d) + One(g == e)
  {
    assert multiset([a, b, c, d, e]) == multiset{a, b, c, d, e};
  }

  const TOP := Segment(Point(0, 0), Point(2, 0), true)

  const BOTTOM := Segment(Point(2, 3), Point(0, 3), true)

  lemma BarSegments()
    ensures Segments(BAR) == [LEFT, TOP, Right(0), Right(1), BOTTOM]
  {
    assert EdgeOf(BAR, 0) == LEFT && EdgeOf(BAR, 1) == TOP && EdgeOf(BAR, 4) == BOTTOM;
    assert EdgeOf(BAR, 2) == Right(0) && EdgeOf(BAR, 3) == Right(1);
  }

  lemma BarEdges(g: Segment, y: int)
    ensures Crosses(g, y) ==>
              multiset(Segments(BAR))[g] == if 0 <= y < 3 then One(g == LEFT) + One(g == Right(y)) else 0
    ensures 0 <= y < 3 ==> Crosses(LEFT, y) && Crosses(Right(y), y)
  {
    BarSegments();
    CountOfFive(LEFT, TOP, Right(0), Right(1), BOTTOM, g);
    assert !Crosses(TOP, y) && !Crosses(BOTTOM, y);
  }

  lemma ColumnOf(y: int)
    requires 0 <= y < 3
    ensures Crosses(LEFT, y) && CrossX(LEFT, y) == 0 && Crosses(Right(y), y) && CrossX(Right(y), y) == 2
  {
  }

  /** A list with two elements of one occurrence each. */
  lemma TwoOf(gs: seq<Segment>, a: Segment, b: Segment)
    requires a != b && forall g :: multiset(gs)[g] == One(g == a) + One(g == b)
    ensures gs == [a, b] || gs == [b, a]
  {
    assert multiset(gs) == multiset{a, b};
    assert |gs| == |multiset(gs)| == 2;
    assert gs[0] in multiset(gs) && gs[1] in multiset(gs) && gs == [gs[0], gs[1]];
  }

  lemma NoneOf(gs: seq<Segment>)
    requires forall g :: multiset(gs)[g] == 0
    ensures gs == []
  {
    assert multiset(gs) == multiset{};
    assert |gs| == |multiset(gs)| == 0;
  }

  lemma BarRow(gs: seq<Segment>, y: int)
    requires RowEdges(gs, BAR, y)
    ensures Columns(gs, y) == if 0 <= y < 3 then [0, 2] else []
  {
    forall g ensures multiset(gs)[g] == if 0 <= y < 3 then One(g == LEFT) + One(g == Right(y)) else 0 {
      BarEdges(g, y);
    }
    if 0 <= y < 3 {
      TwoOf(gs, LEFT, Right(y));
      ColumnOf(y);
    } else {
      NoneOf(gs);
    }
  }

  function BarPairs(y: int): seq<Point> {
    if y <= 0 then [] else if y > 3 then BarPairs(3) else BarPairs(y - 1) + [Point(0, y - 1), Point(2, y - 1)]
  }

  lemma BarPairsNext(y: int, xs: seq<int>)
    requires xs == if 0 <= y < 3 then [0, 2] else []
    ensures BarPairs(y) + RowPoints(xs, y) == BarPairs(y + 1)
  {
  }

  lemma {:induction false} BarEmits(out: seq<Point>, lo: int, y: int)
    requires lo <= 0 && Listed(EvenOddRule, BAR, out, lo, y)
    ensures out == BarPairs(y)
    decreases y - lo
  {
    if y > lo {
      var r := y - 1;
      assert ListedRow(EvenOddRule, BAR, out, lo, r);
      var prev, gs :| RowEdges(gs, BAR, r) && Listed(EvenOddRule, BAR, prev, lo, r) &&
                      out == prev + RowPoints(EmittedColumns(EvenOddRule, gs, r), r);
      BarRow(gs, r);
      BarEmits(prev, lo, r);
      BarPairsNext(r, EmittedColumns(EvenOddRule, gs, r));
    }
  }

  const PAIRS: seq<Point> := [Point(0, 0), Point(2, 0), Point(0, 1), Point(2, 1), Point(0, 2), Point(2, 2)]

  lemma PairsOfBar(pts: seq<Point>)
    requires PairsOf(EvenOddRule, BAR, pts)
    ensures pts == PAIRS
  {
    var lo, hi :| NoneAbove(BAR, lo) && NoneFrom(BAR, hi) && Listed(EvenOddRule, BAR, pts, lo, hi);
    assert EdgeOf(BAR, 0) == LEFT && Crosses(LEFT, 0) && Crosses(LEFT, 2);
    BarEmits(pts, lo, hi);
    assert BarPairs(3) == BarPairs(2) + [Point(0, 2), Point(2, 2)];
    assert BarPairs(2) == BarPairs(1) + [Point(0, 1), Point(2, 1)];
    assert BarPairs(1) == BarPairs(0) + [Point(0, 0), Point(2, 0)];
  }

  const BOXES := [Box(0, 0, 2, 2), Box(0, 2, 2, 3)]

  /** The last row is not merged: no pair is known to follow it. */
  lemma BoxesOfBar()
    ensures BoxesOf(PAIRS, 3) == BOXES
  {
    assert BoxesOf(PAIRS, 0) == [];
    assert BoxesOf(PAIRS, 1) == [Box(0, 0, 2, 1)];
    assert BoxesOf(PAIRS, 2) == [Box(0, 0, 2, 2)];
  }

  /** The two boxes cover what one box covers, so they are not in canonical form. */
  lemma BoxesNotCanonical()
    ensures SamePoints(BOXES, [Box(0, 0, 2, 3)]) && !Canonical(BOXES)
  {
    var t := [Box(0, 0, 2, 3)];
    forall x, y ensures In(BOXES, x, y) <==> In(t, x, y) {
      assert In(t, x, y) <==> Inside(t[0], x, y);
      assert In(BOXES, x, y) <==> Inside(BOXES[0], x, y) || Inside(BOXES[1], x, y);
    }
    SingleBox(t[0]);
    if Canonical(BOXES) { CanonicalUnique(BOXES, t); }
  }

  method MakeBar() returns (bar: Region)
    ensures bar.Usable() && bar.rects == BOXES
  {
    ghost var pts;
    bar, pts := RegionPolygon(BAR, EvenOddRule);
    assert BAR[4] != BAR[0];
    PairsOfBar(pts);
    BoxesOfBar();
  }

  /** The bar made as a polygon covers what the rectangle covers, yet the two do not compare equal. */
  method CompareBars() returns (bar: Region, rectangle: Region, same: bool)
    ensures bar.Usable() && rectangle.Good() && SamePoints(bar.rects, rectangle.rects)
    ensures !same && !bar.Good()
  {
    bar := MakeBar();
    rectangle := new Region.FromRectangle(Rectangle(0, 0, 2, 3));
    BoxesNotCanonical();
    same := Equal(bar, rectangle);
  }

  /** Two unit squares side by side, with the edge between them drawn down and up again. */
  const SPIKE: seq<Point> :=
    [Point(0, 0), Point(1, 0), Point(1, 1), Point(1, 0), Point(2, 0), Point(2, 1), Point(0, 1)]

  function Wall(x: int, down: bool): Segment { Segment(Point(x, 0), Point(x, 1), down) }

  lemma SpikeSegments()
    ensures var gs := Segments(SPIKE);
            && |gs| == 7 && gs[0] == Wall(0, false) && gs[2] == Wall(1, true) && gs[3] == Wall(1, false)
            && gs[5] == Wall(2, true) && forall y :: !Crosses(gs[1], y) && !Crosses(gs[4], y) && !Crosses(gs[6], y)
  {
    assert EdgeOf(SPIKE, 0) == Wall(0, false) && EdgeOf(SPIKE, 2) == Wall(1, true);
    assert EdgeOf(SPIKE, 3) == Wall(1, false) && EdgeOf(SPIKE, 5) == Wall(2, true);
    assert EdgeOf(SPIKE, 1).top.y == EdgeOf(SPIKE, 1).bottom.y && EdgeOf(SPIKE, 4).top.y == EdgeOf(SPIKE, 4).bottom.y;
    assert EdgeOf(SPIKE, 6).top.y == EdgeOf(SPIKE, 6).bottom.y;
  }

  lemma CountOfSeven(gs: seq<Segment>, g: Segment)
    requires |gs| == 7 && g != gs[1] && g != gs[4] && g != gs[6]
    ensures multiset(gs)[g] == One(g == gs[0]) + One(g == gs[2]) + One(g == gs[3]) + One(g == gs[5])
  {
    assert gs == [gs[0], gs[1], gs[2], gs[3], gs[4], gs[5], gs[6]];
  }

  predicate IsWall(g: Segment) {
    g == Wall(0, false) || g == Wall(1, true) || g == Wall(1, false) || g == Wall(2, true)
  }

  lemma SpikeEdges(gs: seq<Segment>, y: int)
    requires RowEdges(gs, SPIKE, y)
    ensures forall g :: multiset(gs)[g] == One(y == 0 && IsWall(g))
  {
    SpikeSegments();
    forall g ensures multiset(gs)[g] == One(y == 0 && IsWall(g)) {
      if Crosses(g, y) { CountOfSeven(Segments(SPIKE), g); }
    }
  }

  lemma WallsInOrder(a: Segment, b: Segment, c: Segment, d: Segment)
    requires IsWall(a) && IsWall(b) && IsWall(c) && IsWall(d)
    requires a != b && a != c && a != d && b != c && b != d && c != d
    requires a.top.x <= b.top.x <= c.top.x <= d.top.x
    ensures a.top.x == 0 && b.top.x == 1 && c.top.x == 1 && d.top.x == 2
  {
  }

  lemma Twice(gs: seq<Segment>, i: nat, j: nat)
    requires i < j < |gs| && gs[i] == gs[j]
    ensures multiset(gs)[gs[i]] >= 2
  {
    assert gs == gs[..i] + [gs[i]] + gs[i + 1..j] + [gs[j]] + gs[j + 1..];
  }

  lemma FourOf(gs: seq<Segment>, a: Segment, b: Segment, c: Segment, d: Segment)
    requires a != b && a != c && a != d && b != c && b != d && c != d
    requires forall g :: multiset(gs)[g] == One(g == a) + One(g == b) + One(g == c) + One(g == d)
    ensures |gs| == 4
  {
    assert multiset(gs) == multiset{a, b, c, d};
    assert |gs| == |multiset(gs)| == 4;
  }

  lemma FourWalls(gs: seq<Segment>)
    requires AllCross(gs, 0) && Ascending(Columns(gs, 0)) && forall g :: multiset(gs)[g] == One(IsWall(g))
    ensures Columns(gs, 0) == [0, 1, 1, 2]
  {
    FourOf(gs, Wall(0, false), Wall(1, true), Wall(1, false), Wall(2, true));
    forall i | 0 <= i < 4 ensures IsWall(gs[i]) && Columns(gs, 0)[i] == gs[i].top.x { WallColumn(gs, i); }
    forall i, j | 0 <= i < j < 4 ensures gs[i] != gs[j] { if gs[i] == gs[j] { Twice(gs, i, j); } }
    WallsInOrder(gs[0], gs[1], gs[2], gs[3]);
  }

  lemma WallColumn(gs: seq<Segment>, i: nat)
    requires AllCross(gs, 0) && i < |gs| && forall g :: multiset(gs)[g] == One(IsWall(g))
    ensures IsWall(gs[i]) && Columns(gs, 0)[i] == gs[i].top.x
  {
    assert gs[i] in multiset(gs);
  }

  lemma SpikeRow(gs: seq<Segment>, y: int)
    requires RowEdges(gs, SPIKE, y)
    ensures Columns(gs, y) == if y == 0 then [0, 1, 1, 2] else []
  {
    SpikeEdges(gs, y);
    if y == 0 {
      FourWalls(gs);
    } else {
      NoneOf(gs);
    }
  }

  function SpikePairs(y: int): seq<Point> {
    if y <= 0 then [] else [Point(0, 0), Point(1, 0), Point(1, 0), Point(2, 0)]
  }

  lemma SpikePairsNext(y: int, xs: seq<int>)
    requires xs == if y == 0 then [0, 1, 1, 2] else []
    ensures SpikePairs(y) + RowPoints(xs, y) == SpikePairs(y + 1)
  {
  }

  lemma {:induction false} SpikeEmits(out: seq<Point>, lo: int, y: int)
    requires lo <= 0 && Listed(EvenOddRule, SPIKE, out, lo, y)
    ensures out == SpikePairs(y)
    decreases y - lo
  {
    if y > lo {
      var r := y - 1;
      assert ListedRow(EvenOddRule, SPIKE, out, lo, r);
      var prev, gs :| RowEdges(gs, SPIKE, r) && Listed(EvenOddRule, SPIKE, prev, lo, r) &&
                      out == prev + RowPoints(EmittedColumns(EvenOddRule, gs, r), r);
      SpikeRow(gs, r);
      SpikeEmits(prev, lo, r);
      SpikePairsNext(r, EmittedColumns(EvenOddRule, gs, r));
    }
  }

  lemma PairsOfSpike(pts: seq<Point>)
    requires PairsOf(EvenOddRule, SPIKE, pts)
    ensures pts == SpikePairs(1)
  {
    var lo, hi :| NoneAbove(SPIKE, lo) && NoneFrom(SPIKE, hi) && Listed(EvenOddRule, SPIKE, pts, lo, hi);
    assert EdgeOf(SPIKE, 0) == Wall(0, false) && Crosses(Wall(0, false), 0);
    SpikeEmits(pts, lo, hi);
  }

  const HALVES := [Box(0, 0, 1, 1), Box(1, 0, 2, 1)]

  lemma BoxesOfSpike()
    ensures BoxesOf(SpikePairs(1), 2) == HALVES
  {
    assert BoxesOf(SpikePairs(1), 0) == [];
    assert BoxesOf(SpikePairs(1), 1) == [Box(0, 0, 1, 1)];
  }

  /** The two halves touch: together they cover the rectangle, but neither reaches across it. */
  lemma HalvesCover()
    ensures forall x, y :: 0 <= x < 2 && 0 <= y < 1 ==> In(HALVES, x, y)
    ensures !RowReached(HALVES, Rectangle(0, 0, 2, 1), 0)
  {
    forall x, y | 0 <= x < 2 && 0 <= y < 1 ensures In(HALVES, x, y) {
      assert Inside(HALVES[if x < 1 then 0 else 1], x, y);
    }
  }

  method MakeSpike() returns (region: Region)
    ensures region.Usable() && region.rects == HALVES
  {
    ghost var pts;
    region, pts := RegionPolygon(SPIKE, EvenOddRule);
    PairsOfSpike(pts);
    BoxesOfSpike();
  }

  /** The region of the polygon covers the rectangle, yet the answer is that only part of it is inside. */
  method ClassifySpike() returns (region: Region, t: OverlapType)
    ensures region.Usable() && t == RectanglePart
    ensures forall x, y :: 0 <= x < 2 && 0 <= y < 1 ==> In(region.rects, x, y)
  {
    region := MakeSpike();
    HalvesCover();
    t := Classify(region, Rectangle(0, 0, 2, 1));
    assert In(region.rects, 0, 0);
  }

  /** The corners of a rectangle, from the upper left. */
  function FourCorners(r: Rectangle): seq<Point> {
    [Point(r.x, r.y), Point(r.x + r.width, r.y), Point(r.x + r.width, r.y + r.height), Point(r.x, r.y + r.height)]
  }

  /** A rectangle drawn as a polygon is the region of that rectangle, under both rules. */
  method CompareCorners(r: Rectangle, rule: FillRule) returns (same: bool)
    requires r.width > 0 && r.height > 0 && PointsInRange(FourCorners(r))
    ensures same
  {
    var corners := FourCorners(r);
    ghost var pts;
    var polygon;
    polygon, pts := RegionPolygon(corners, rule);
    var rectangle := new Region.FromRectangle(r);
    forall x, y { RectangleInside(rule, corners, x, y); }
    same := Equal(polygon, rectangle);
  }
}
