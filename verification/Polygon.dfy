/** gdk_region_polygon: the scanline fill of a polygon under both fill rules. */
module Polygon {
  import opened Boxes
  import opened Banding
  import opened Geometry
  import opened Regions
  import opened Bresenham
  import opened Crossings
  import opened EdgeTables
  import opened EdgeTableBuild
  import opened Scanlines
  import opened PointsToRegion
  import opened PairForm

  datatype FillRule = EvenOddRule | WindingRule

  ghost predicate InsideRule(rule: FillRule, poly: seq<Point>, x: int, y: int) {
    match rule
    case EvenOddRule => EvenOddInside(poly, x, y)
    case WindingRule => WindingInside(poly, x, y)
  }

  ghost predicate PointsInRange(poly: seq<Point>) {
    forall i :: 0 <= i < |poly| ==> InRange(poly[i].x) && InRange(poly[i].y)
  }

  // What one row must emit.

  /** The columns that a fill rule emits for the edges that cross a row, sorted by column. */
  ghost function EmittedColumns(rule: FillRule, gs: seq<Segment>, y: int): seq<int>
    requires AllCross(gs, y)
  {
    match rule
    case EvenOddRule => Columns(gs, y)
    case WindingRule => Toggles(Columns(gs, y), Signs(gs), |gs|)
  }

  /** `gs` are the edges of the polygon that cross row y, each as often as in the polygon. */
  ghost predicate CrossingsOf(gs: seq<Segment>, poly: seq<Point>, y: int) {
    forall g :: multiset(gs)[g] == if Crosses(g, y) then multiset(Segments(poly))[g] else 0
  }

  /** The emitted columns pair up, and the pairs are the inside of the row. */
  lemma RowInside(rule: FillRule, gs: seq<Segment>, poly: seq<Point>, y: int)
    requires AllCross(gs, y) && Ascending(Columns(gs, y)) && CrossingsOf(gs, poly, y)
    ensures var xs := EmittedColumns(rule, gs, y);
            && |xs| % 2 == 0 && Ascending(xs)
            && forall x {:trigger BetweenPair(xs, x)} :: BetweenPair(xs, x) <==> InsideRule(rule, poly, x, y)
  {
    var xs := EmittedColumns(rule, gs, y);
    var cols, n := Columns(gs, y), |gs|;
    SumByCounts(gs, Segments(poly), CrossSign(y));
    ClosedCrossings(poly, y);
    match rule {
      case EvenOddRule =>
        CrossParity(gs, y);
        ColumnsCount(gs, 0, y);
      case WindingRule =>
        SignsTotal(gs, 0, y);
        TogglesParity(cols, Signs(gs), n);
        TogglesAscend(cols, Signs(gs), n);
        assert Signs(gs)[..n] == Signs(gs);
    }
    forall x ensures BetweenPair(xs, x) <==> InsideRule(rule, poly, x, y) {
      PairsAreOdd(xs, x);
      RowCount(rule, gs, poly, x, y);
    }
  }

  lemma RowCount(rule: FillRule, gs: seq<Segment>, poly: seq<Point>, x: int, y: int)
    requires AllCross(gs, y) && Ascending(Columns(gs, y)) && CrossingsOf(gs, poly, y)
    ensures NumLE(EmittedColumns(rule, gs, y), x) % 2 == 1 <==> InsideRule(rule, poly, x, y)
  {
    match rule {
      case EvenOddRule =>
        ColumnsCount(gs, x, y);
        SumByCounts(gs, Segments(poly), LeftCount(x, y));
      case WindingRule =>
        var n := |gs|;
        TogglesCount(Columns(gs, y), Signs(gs), n, x);
        assert Columns(gs, y)[..n] == Columns(gs, y) && Signs(gs)[..n] == Signs(gs);
        SignsTotal(gs, x, y);
        SumByCounts(gs, Segments(poly), LeftSign(x, y));
    }
  }

  ghost predicate AllInRange(xs: seq<int>) {
    forall i :: 0 <= i < |xs| ==> InRange(xs[i])
  }

  lemma {:induction false} TogglesInRange(xs: seq<int>, ds: seq<int>, n: nat)
    requires |xs| == |ds| && n <= |xs| && AllInRange(xs)
    ensures AllInRange(Toggles(xs, ds, n))
  {
    if n > 0 { TogglesInRange(xs, ds, n - 1); }
  }

  // The output points.

  /** The rows emitted so far lie above row y. */
  ghost predicate EndsAbove(out: seq<Point>, y: int) {
    PairList(out) && (out != [] ==> out[|out| - 1].y < y)
  }

  lemma AppendedPairs(out: seq<Point>, xs: seq<int>, y: int)
    requires EndsAbove(out, y) && |xs| % 2 == 0 && Ascending(xs) && AllInRange(xs)
    ensures PairList(out + RowPoints(xs, y)) && EndsAbove(out + RowPoints(xs, y), y + 1)
  {
    var r, n := out + RowPoints(xs, y), |out|;
    forall k | 0 <= k < |r| / 2 ensures PairOk(r, k) {
      if 2 * k < n {
        assert PairOk(out, k);
        assert 2 * k + 2 >= n ==> out[|out| - 1] == out[2 * k + 1];
      }
    }
    if xs == [] && out != [] { assert r == out; }
  }

  /** A pair of the longer list is an old pair or one of the new row. */
  lemma AppendedFrom(out: seq<Point>, xs: seq<int>, y: int, k: nat, x: int, y': int)
    requires |out| % 2 == 0 && |xs| % 2 == 0 && 2 * k < |out| + |xs|
    requires PairHas(out + RowPoints(xs, y), k, x, y')
    ensures Paired(out, |out| / 2, x, y') || (y' == y && BetweenPair(xs, x))
  {
    if 2 * k < |out| {
      assert PairHas(out, k, x, y');
    } else {
      NewPair(out, xs, y, k, 2 * k - |out|, x, y');
    }
  }

  lemma NewPair(out: seq<Point>, xs: seq<int>, y: int, k: nat, j: nat, x: int, y': int)
    requires 2 * k == |out| + j && j % 2 == 0 && j < |xs| - 1 && PairHas(out + RowPoints(xs, y), k, x, y')
    ensures y' == y && BetweenPair(xs, x)
  {
    var r := out + RowPoints(xs, y);
    assert r[2 * k] == Point(xs[j], y) && r[2 * k + 1] == Point(xs[j + 1], y);
  }

  /** The old pairs stay. */
  lemma AppendedKeeps(out: seq<Point>, xs: seq<int>, y: int, k: nat, x: int, y': int)
    requires |out| % 2 == 0 && |xs| % 2 == 0 && 2 * k < |out| && PairHas(out, k, x, y')
    ensures var r := out + RowPoints(xs, y); Paired(r, |r| / 2, x, y')
  {
    assert PairHas(out + RowPoints(xs, y), k, x, y');
  }

  /** The new row's columns are paired. */
  lemma AppendedAdds(out: seq<Point>, xs: seq<int>, y: int, j: nat, x: int)
    requires |out| % 2 == 0 && |xs| % 2 == 0 && j % 2 == 0 && j < |xs| - 1 && xs[j] <= x < xs[j + 1]
    ensures var r := out + RowPoints(xs, y); Paired(r, |r| / 2, x, y)
  {
    assert PairHas(out + RowPoints(xs, y), (|out| + j) / 2, x, y);
  }

  lemma AppendedPoints(out: seq<Point>, xs: seq<int>, y: int, x: int, y': int)
    requires |out| % 2 == 0 && |xs| % 2 == 0
    ensures var r := out + RowPoints(xs, y);
            Paired(r, |r| / 2, x, y') <==> Paired(out, |out| / 2, x, y') || (y' == y && BetweenPair(xs, x))
  {
    var r := out + RowPoints(xs, y);
    if Paired(r, |r| / 2, x, y') {
      var k :| 0 <= k < |r| / 2 && PairHas(r, k, x, y');
      AppendedFrom(out, xs, y, k, x, y');
    }
    if Paired(out, |out| / 2, x, y') {
      var k :| 0 <= k < |out| / 2 && PairHas(out, k, x, y');
      AppendedKeeps(out, xs, y, k, x, y');
    }
    if y' == y && BetweenPair(xs, x) {
      var j :| 0 <= j < |xs| - 1 && j % 2 == 0 && xs[j] <= x < xs[j + 1];
      AppendedAdds(out, xs, y, j, x);
    }
  }

  lemma {:induction false} RowsAscend(out: seq<Point>, k: nat)
    requires PairList(out) && k < |out| / 2
    ensures out[2 * k].y <= out[|out| - 1].y
    decreases |out| - k
  {
    assert PairOk(out, k);
    if 2 * k + 2 < |out| {
      RowsAscend(out, k + 1);
    } else {
      assert 2 * k + 1 == |out| - 1;
    }
  }

  /** `gs` are the edges that cross row y, in column order. */
  ghost predicate RowEdges(gs: seq<Segment>, poly: seq<Point>, y: int) {
    AllCross(gs, y) && Ascending(Columns(gs, y)) && CrossingsOf(gs, poly, y)
  }

  ghost predicate NoneAbove(poly: seq<Point>, y: int) {
    forall i, y' :: 0 <= i < |poly| && y' < y ==> !Crosses(EdgeOf(poly, i), y')
  }

  ghost predicate NoneFrom(poly: seq<Point>, y: int) {
    forall i, y' :: 0 <= i < |poly| && y' >= y ==> !Crosses(EdgeOf(poly, i), y')
  }

  /** `out` lists the columns that the rule emits for the rows from `lo` up to y. */
  ghost predicate Listed(rule: FillRule, poly: seq<Point>, out: seq<Point>, lo: int, y: int)
    decreases y - lo, 1
  {
    if y <= lo then out == [] else ListedRow(rule, poly, out, lo, y - 1)
  }

  /** The same with the last row, y, set apart. */
  ghost predicate ListedRow(rule: FillRule, poly: seq<Point>, out: seq<Point>, lo: int, y: int)
    requires lo <= y
    decreases y + 1 - lo, 0
  {
    exists prev: seq<Point>, gs: seq<Segment> {:trigger RowEdges(gs, poly, y), Listed(rule, poly, prev, lo, y)} ::
      && RowEdges(gs, poly, y) && Listed(rule, poly, prev, lo, y)
      && out == prev + RowPoints(EmittedColumns(rule, gs, y), y)
  }

  /** `out` lists row by row what the rule emits for the whole polygon. */
  ghost predicate PairsOf(rule: FillRule, poly: seq<Point>, out: seq<Point>) {
    exists lo, hi :: NoneAbove(poly, lo) && NoneFrom(poly, hi) && Listed(rule, poly, out, lo, hi)
  }

  /** Above row y the pairs are exactly the inside of the polygon, and there are none at or below it. */
  ghost predicate FilledTo(rule: FillRule, poly: seq<Point>, out: seq<Point>, lo: int, y: int) {
    && EndsAbove(out, y) && lo <= y && Listed(rule, poly, out, lo, y)
    && forall x, y' {:trigger Paired(out, |out| / 2, x, y')} ::
         Paired(out, |out| / 2, x, y') <==> y' < y && InsideRule(rule, poly, x, y')
  }

  lemma ListedNext(rule: FillRule, poly: seq<Point>, out: seq<Point>, lo: int, gs: seq<Segment>, y: int)
    requires lo <= y && Listed(rule, poly, out, lo, y) && RowEdges(gs, poly, y)
    ensures Listed(rule, poly, out + RowPoints(EmittedColumns(rule, gs, y), y), lo, y + 1)
  {
    assert ListedRow(rule, poly, out + RowPoints(EmittedColumns(rule, gs, y), y), lo, y);
  }

  lemma FillRow(rule: FillRule, poly: seq<Point>, out: seq<Point>, lo: int, gs: seq<Segment>, y: int)
    requires FilledTo(rule, poly, out, lo, y)
    requires AllCross(gs, y) && Ascending(Columns(gs, y)) && AllInRange(Columns(gs, y)) && CrossingsOf(gs, poly, y)
    ensures FilledTo(rule, poly, out + RowPoints(EmittedColumns(rule, gs, y), y), lo, y + 1)
  {
    var xs := EmittedColumns(rule, gs, y);
    var r := out + RowPoints(xs, y);
    RowInside(rule, gs, poly, y);
    if rule.WindingRule? { TogglesInRange(Columns(gs, y), Signs(gs), |gs|); }
    AppendedPairs(out, xs, y);
    ListedNext(rule, poly, out, lo, gs, y);
    forall x, y' ensures Paired(r, |r| / 2, x, y') <==> y' < y + 1 && InsideRule(rule, poly, x, y') {
      AppendedPoints(out, xs, y, x, y');
      assert BetweenPair(xs, x) <==> InsideRule(rule, poly, x, y);
    }
  }

  lemma {:induction false} SumVanishes(gs: seq<Segment>, w: Segment -> int)
    requires forall i :: 0 <= i < |gs| ==> w(gs[i]) == 0
    ensures Sum(gs, w) == 0
  {
    if gs != [] { SumVanishes(gs[..|gs| - 1], w); }
  }

  /** No point outside the rows of the slanted edges is inside. */
  lemma OutsideRows(rule: FillRule, poly: seq<Point>, lo: int, hi: int, x: int, y: int)
    requires WithinRows(poly, lo, hi) && (y < lo || hi <= y)
    ensures !InsideRule(rule, poly, x, y)
  {
    var gs := Segments(poly);
    forall i | 0 <= i < |gs| ensures !Crosses(gs[i], y) {
      assert gs[i] == EdgeOf(poly, i);
    }
    SumVanishes(gs, LeftCount(x, y));
    SumVanishes(gs, LeftSign(x, y));
  }

  // The active edges between scanlines.

  /** The active list: edges that start at or above row `lo` and reach row y. */
  ghost predicate Active(aet: seq<EdgeTableEntry>, lo: int, y: int) {
    && Distinct(aet)
    && forall k :: 0 <= k < |aet| ==> aet[k].Made() && aet[k].seg.top.y <= lo && y <= aet[k].ymax
  }

  /** The active list holds each edge of the polygon with those rows as often as the polygon does. */
  ghost predicate ActiveCounts(aet: seq<EdgeTableEntry>, poly: seq<Point>, lo: int, y: int) {
    forall g :: Count(aet, g) == if g.top.y <= lo && y < g.bottom.y then multiset(Segments(poly))[g] else 0
  }

  /** The buckets not yet loaded hold the edges that start at or below row y. */
  ghost predicate Waiting(rest: seq<ScanLineList>, poly: seq<Point>, y: int) {
    && TableOk(rest) && (forall i :: 0 <= i < |rest| ==> y <= rest[i].scanline)
    && forall g :: SegCount(rest, g) == if Slanted(g) && y <= g.top.y then multiset(Segments(poly))[g] else 0
  }

  ghost predicate AllTrack(aet: seq<EdgeTableEntry>, y: int)
    reads aet
  {
    forall k :: 0 <= k < |aet| ==> aet[k].Tracks(y)
  }

  lemma {:induction false} CountAbsent(es: seq<EdgeTableEntry>, g: Segment)
    requires forall k :: 0 <= k < |es| ==> es[k].seg != g
    ensures Count(es, g) == 0
  {
    var gs := SegsOf(es);
    assert g !in gs;
  }

  lemma {:induction false} SegCountAbsent(bs: seq<ScanLineList>, g: Segment)
    requires forall i :: 0 <= i < |bs| ==> BucketOk(bs[i]) && bs[i].scanline != g.top.y
    ensures SegCount(bs, g) == 0
  {
    if bs != [] {
      CountAbsent(bs[0].edgelist, g);
      SegCountAbsent(bs[1..], g);
    }
  }

  /** The bucket of row y holds exactly the edges that start there. */
  lemma BucketCounts(rest: seq<ScanLineList>, poly: seq<Point>, y: int)
    requires Waiting(rest, poly, y) && rest != [] && rest[0].scanline == y
    ensures Waiting(rest[1..], poly, y + 1)
    ensures forall g :: Count(rest[0].edgelist, g) ==
                        if Slanted(g) && g.top.y == y then multiset(Segments(poly))[g] else 0
  {
    var tail := rest[1..];
    forall i | 0 <= i < |tail| ensures tail[i] == rest[i + 1] && rest[0].scanline < tail[i].scanline {}
    forall g
      ensures SegCount(tail, g) == if Slanted(g) && y + 1 <= g.top.y then multiset(Segments(poly))[g] else 0
      ensures Count(rest[0].edgelist, g) == if Slanted(g) && g.top.y == y then multiset(Segments(poly))[g] else 0
    {
      assert SegCount(rest, g) == Count(rest[0].edgelist, g) + SegCount(tail, g);
      if g.top.y != y { CountAbsent(rest[0].edgelist, g); }
      if g.top.y <= y { SegCountAbsent(tail, g); }
    }
  }

  /** Without a bucket for row y no edge starts there. */
  lemma NoBucket(rest: seq<ScanLineList>, poly: seq<Point>, y: int)
    requires Waiting(rest, poly, y) && (rest == [] || rest[0].scanline != y)
    ensures Waiting(rest, poly, y + 1)
    ensures forall g :: Slanted(g) && g.top.y == y ==> multiset(Segments(poly))[g] == 0
  {
    forall i | 0 <= i < |rest| ensures y < rest[i].scanline {
      assert i > 0 ==> rest[0].scanline < rest[i].scanline;
    }
    forall g: Segment | g.top.y == y ensures SegCount(rest, g) == 0 { SegCountAbsent(rest, g); }
  }

  /** Loading the bucket of row y makes the active list complete for that row. */
  lemma LoadedCounts(aet: seq<EdgeTableEntry>, el: seq<EdgeTableEntry>, r: seq<EdgeTableEntry>, poly: seq<Point>,
                     y: int)
    requires ActiveCounts(aet, poly, y - 1, y) && SameEntries(r, aet, el)
    requires forall g :: Count(el, g) == if Slanted(g) && g.top.y == y then multiset(Segments(poly))[g] else 0
    ensures ActiveCounts(r, poly, y, y)
  {
    forall g ensures Count(r, g) == if g.top.y <= y && y < g.bottom.y then multiset(Segments(poly))[g] else 0 {
      assert Count(r, g) == Count(aet, g) + Count(el, g);
    }
  }

  lemma LoadedActive(aet: seq<EdgeTableEntry>, b: ScanLineList, r: seq<EdgeTableEntry>, y: int)
    requires Active(aet, y - 1, y) && BucketOk(b) && b.scanline == y && SameEntries(r, aet, b.edgelist)
    ensures Active(r, y, y)
    ensures forall k :: 0 <= k < |r| ==> r[k] in aet || r[k] in b.edgelist
  {
    var both := aet + b.edgelist;
    forall i, j | 0 <= i < j < |both| ensures Differ(both, i, j) {
      if j < |aet| {
        assert Differ(aet, i, j);
      } else if i >= |aet| {
        assert Differ(b.edgelist, i - |aet|, j - |aet|);
      } else {
        assert both[i].seg.top.y < y && b.edgelist[j - |aet|].seg.top.y == y;
      }
    }
    DistinctPermutation(both, r);
    forall k | 0 <= k < |r|
      ensures r[k] in aet || r[k] in b.edgelist
      ensures r[k].Made() && r[k].seg.top.y <= y && y <= r[k].ymax
    {
      assert r[k] in multiset(r);
      if r[k] in b.edgelist { assert r[k].Made(); }
    }
  }

  /** Load the bucket of row y, if there is one. */
  method LoadRow(aet: seq<EdgeTableEntry>, rest: seq<ScanLineList>, y: int, ghost poly: seq<Point>)
    returns (r: seq<EdgeTableEntry>, rest': seq<ScanLineList>, loaded: bool)
    requires Active(aet, y - 1, y) && ActiveCounts(aet, poly, y - 1, y) && Waiting(rest, poly, y)
    requires Sorted(aet) && AllTrack(aet, y) && AllAtStart(rest)
    ensures Active(r, y, y) && ActiveCounts(r, poly, y, y) && Waiting(rest', poly, y + 1)
    ensures Sorted(r) && AllTrack(r, y) && AllAtStart(rest')
    ensures !loaded ==> r == aet
    ensures forall k :: 0 <= k < |r| ==> r[k] in aet || r[k] in EntriesOf(rest)
    ensures EntriesOf(rest') <= EntriesOf(rest)
  {
    loaded := rest != [] && rest[0].scanline == y;
    if loaded {
      BucketCounts(rest, poly, y);
      assert AtStart(rest[0].edgelist);
      r := LoadAET(aet, rest[0].edgelist);
      LoadedCounts(aet, rest[0].edgelist, r, poly, y);
      LoadedActive(aet, rest[0], r, y);
      StartTracks(rest[0], y);
      rest' := rest[1..];
      TailEntries(rest);
    } else {
      NoBucket(rest, poly, y);
      r, rest' := aet, rest;
    }
  }

  lemma TailEntries(rest: seq<ScanLineList>)
    requires rest != []
    ensures EntriesOf(rest[1..]) <= EntriesOf(rest)
    ensures forall e :: e in rest[0].edgelist ==> e in EntriesOf(rest)
  {
    forall e | e in EntriesOf(rest[1..]) ensures e in EntriesOf(rest) {
      var i, k :| 0 <= i < |rest[1..]| && 0 <= k < |rest[1..][i].edgelist| && e == rest[1..][i].edgelist[k];
      assert rest[i + 1].edgelist[k] == e;
    }
  }

  lemma StartTracks(b: ScanLineList, y: int)
    requires BucketOk(b) && b.scanline == y && AtStart(b.edgelist)
    ensures AllTrack(b.edgelist, y)
  {
  }

  /** The stepping records of a list. */
  ghost function Records(es: seq<EdgeTableEntry>): (from: seq<Bres>)
    reads es
    ensures |from| == |es|
    ensures forall k {:trigger from[k]} {:trigger es[k].bres} :: 0 <= k < |es| ==> from[k] == es[k].bres
  {
    seq(|es|, k requires 0 <= k < |es| reads es => es[k].bres)
  }

  lemma SegmentInRange(poly: seq<Point>, g: Segment)
    requires PointsInRange(poly) && multiset(Segments(poly))[g] > 0
    ensures InRange(g.top.x) && InRange(g.bottom.x)
  {
    assert g in Segments(poly);
    var i :| 0 <= i < |poly| && Segments(poly)[i] == g;
    assert g == EdgeOf(poly, i);
  }

  /** The columns of active edges stay in range. */
  lemma ActiveInRange(aet: seq<EdgeTableEntry>, poly: seq<Point>, lo: int, y: int, k: nat)
    requires ActiveCounts(aet, poly, lo, y) && lo <= y && Active(aet, lo, y) && PointsInRange(poly)
    requires k < |aet|
    ensures Crosses(aet[k].seg, y) && InRange(CrossX(aet[k].seg, y))
  {
    var g := aet[k].seg;
    assert aet[k].Made();
    assert SegsOf(aet)[k] == g;
    assert Count(aet, g) > 0;
    SegmentInRange(poly, g);
    CrossXBetween(g, y);
  }

  /** The records of a sorted, complete active list give the sorted crossings of the row. */
  lemma RowColumns(aet: seq<EdgeTableEntry>, poly: seq<Point>, y: int, from: seq<Bres>)
    requires Active(aet, y, y) && ActiveCounts(aet, poly, y, y) && PointsInRange(poly)
    requires AllTrack(aet, y) && Sorted(aet) && SteppedUpTo(aet, 0, y, from)
    ensures AllCross(SegsOf(aet), y) && CrossingsOf(SegsOf(aet), poly, y)
    ensures MinorAxes(from) == Columns(SegsOf(aet), y)
    ensures Ascending(Columns(SegsOf(aet), y)) && AllInRange(Columns(SegsOf(aet), y))
  {
    var gs := SegsOf(aet);
    forall k | 0 <= k < |aet|
      ensures Crosses(gs[k], y) && CrossX(gs[k], y) == aet[k].bres.minor_axis && InRange(CrossX(gs[k], y))
    {
      ActiveInRange(aet, poly, y, y, k);
      assert aet[k].Made() && aet[k].Tracks(y);
    }
    forall g ensures multiset(gs)[g] == if Crosses(g, y) then multiset(Segments(poly))[g] else 0 {
      assert Count(aet, g) == multiset(gs)[g];
    }
  }

  /** What is kept after row y is the active list for the next row. */
  lemma KeptActive(aet: seq<EdgeTableEntry>, poly: seq<Point>, y: int)
    requires Active(aet, y, y) && ActiveCounts(aet, poly, y, y)
    ensures Active(Kept(aet, y), y, y + 1) && ActiveCounts(Kept(aet, y), poly, y, y + 1)
    ensures forall k :: 0 <= k < |Kept(aet, y)| ==> Kept(aet, y)[k] in aet
  {
    var r := Kept(aet, y);
    KeptEntries(aet, y);
    KeptDistinct(aet, y);
    forall e | e in aet ensures e.ymax == e.seg.bottom.y - 1 { assert e.Made(); }
    forall k | 0 <= k < |r| ensures r[k].Made() && r[k].seg.top.y <= y && y + 1 <= r[k].ymax {
      assert r[k] in aet && r[k].ymax != y;
    }
    forall g ensures Count(r, g) == if g.top.y <= y && y + 1 < g.bottom.y then multiset(Segments(poly))[g] else 0 {
      KeptSegs(aet, y, g);
      assert Count(aet, g) == if g.top.y <= y && y < g.bottom.y then multiset(Segments(poly))[g] else 0;
    }
  }

  /** `from` are the records of the entries at row y. */
  ghost predicate RecordsTrack(aet: seq<EdgeTableEntry>, y: int, from: seq<Bres>) {
    |from| == |aet| && forall k {:trigger from[k]} :: 0 <= k < |aet| ==>
      aet[k].seg.top.y <= y && from[k] == StepsFrom(aet[k].start, y - aet[k].seg.top.y)
  }

  /** The kept entries stand at the next row. */
  lemma KeptTracks(aet: seq<EdgeTableEntry>, y: int, from: seq<Bres>)
    requires SteppedUpTo(aet, |aet|, y, from)
    requires RecordsTrack(aet, y, from)
    ensures AllTrack(Kept(aet, y), y + 1)
  {
    var r := Kept(aet, y);
    KeptEntries(aet, y);
    forall i | 0 <= i < |r| ensures r[i].Tracks(y + 1) {
      var k :| 0 <= k < |aet| && aet[k] == r[i];
      assert aet[k].bres == Stepped(from[k]);
    }
  }

  /** Entries that wait in later buckets are not on the active list. */
  lemma WaitingApart(aet: seq<EdgeTableEntry>, rest: seq<ScanLineList>, poly: seq<Point>, y: int)
    requires Active(aet, y, y) && Waiting(rest, poly, y + 1)
    ensures forall i, k :: 0 <= i < |rest| && 0 <= k < |rest[i].edgelist| ==> rest[i].edgelist[k] !in aet
  {
    forall i, k | 0 <= i < |rest| && 0 <= k < |rest[i].edgelist| ensures rest[i].edgelist[k] !in aet {
      assert BucketOk(rest[i]);
      assert rest[i].edgelist[k].seg.top.y >= y + 1;
    }
  }

  /** A complete row: everything the fill loops need to know before they emit it. */
  ghost predicate RowReady(aet: seq<EdgeTableEntry>, rest: seq<ScanLineList>, poly: seq<Point>, y: int)
    reads aet, EntriesOf(rest)
  {
    && Active(aet, y, y) && ActiveCounts(aet, poly, y, y) && Sorted(aet) && AllTrack(aet, y)
    && Waiting(rest, poly, y + 1) && AllAtStart(rest)
  }

  /** The state at the top of the fill loops, before row y is loaded. */
  ghost predicate RowNext(aet: seq<EdgeTableEntry>, rest: seq<ScanLineList>, poly: seq<Point>, y: int)
    reads aet, EntriesOf(rest)
  {
    && Active(aet, y - 1, y) && ActiveCounts(aet, poly, y - 1, y) && Sorted(aet) && AllTrack(aet, y)
    && Waiting(rest, poly, y) && AllAtStart(rest)
  }

  /** Put the kept entries back in column order for the next row. */
  method SortNext(aet: seq<EdgeTableEntry>, kept: seq<EdgeTableEntry>, rest: seq<ScanLineList>, y: int,
                  ghost poly: seq<Point>, ghost from: seq<Bres>)
    returns (r: seq<EdgeTableEntry>, changed: bool)
    requires PointsInRange(poly) && Active(aet, y, y) && ActiveCounts(aet, poly, y, y) && kept == Kept(aet, y)
    requires SteppedUpTo(aet, |aet|, y, from) && RecordsTrack(aet, y, from)
    requires Waiting(rest, poly, y + 1) && AllAtStart(rest)
    ensures RowNext(r, rest, poly, y + 1)
    ensures forall k :: 0 <= k < |r| ==> r[k] in aet
    ensures !changed ==> r == kept
  {
    KeptActive(aet, poly, y);
    KeptTracks(aet, y, from);
    forall k | 0 <= k < |kept| ensures SMALL_COORDINATE <= kept[k].bres.minor_axis {
      ActiveInRange(kept, poly, y, y + 1, k);
      assert kept[k].Made() && kept[k].Tracks(y + 1);
    }
    r, changed := InsertionSort(kept);
    SortedActive(kept, r, poly, y);
    forall k | 0 <= k < |r| ensures r[k] in aet {
      var i :| 0 <= i < |kept| && kept[i] == r[k];
    }
  }

  lemma SortedActive(kept: seq<EdgeTableEntry>, r: seq<EdgeTableEntry>, poly: seq<Point>, y: int)
    requires Active(kept, y, y + 1) && ActiveCounts(kept, poly, y, y + 1) && AllTrack(kept, y + 1)
    requires multiset(r) == multiset(kept) && multiset(SegsOf(r)) == multiset(SegsOf(kept))
    ensures Active(r, y, y + 1) && ActiveCounts(r, poly, y, y + 1) && AllTrack(r, y + 1)
    ensures forall k :: 0 <= k < |r| ==> r[k] in kept
  {
    DistinctPermutation(kept, r);
    forall k | 0 <= k < |r|
      ensures r[k] in kept && r[k].Made() && r[k].seg.top.y <= y && y + 1 <= r[k].ymax && r[k].Tracks(y + 1)
    {
      assert r[k] in multiset(r);
      var i :| 0 <= i < |kept| && kept[i] == r[k];
    }
    forall g ensures Count(r, g) == Count(kept, g) {}
  }

  /** What a row emits, in terms of the records before it is evaluated. */
  ghost function Emission(rule: FillRule, aet: seq<EdgeTableEntry>, from: seq<Bres>): seq<int>
    requires |from| == |aet|
  {
    match rule
    case EvenOddRule => MinorAxes(from)
    case WindingRule => Toggles(MinorAxes(from), SignsOf(aet), |aet|)
  }

  /** Emitting a ready row fills one row more. */
  lemma EmissionFills(rule: FillRule, aet: seq<EdgeTableEntry>, poly: seq<Point>, lo: int, y: int, out: seq<Point>)
    requires PointsInRange(poly) && FilledTo(rule, poly, out, lo, y)
    requires Active(aet, y, y) && ActiveCounts(aet, poly, y, y) && Sorted(aet) && AllTrack(aet, y)
    ensures SteppedUpTo(aet, 0, y, Records(aet)) && RecordsTrack(aet, y, Records(aet))
    ensures FilledTo(rule, poly, out + RowPoints(Emission(rule, aet, Records(aet)), y), lo, y + 1)
  {
    RecordsAt(aet, y);
    RowColumns(aet, poly, y, Records(aet));
    FillRow(rule, poly, out, lo, SegsOf(aet), y);
  }

  lemma RecordsAt(aet: seq<EdgeTableEntry>, y: int)
    requires Active(aet, y, y) && AllTrack(aet, y)
    ensures SteppedUpTo(aet, 0, y, Records(aet)) && RecordsTrack(aet, y, Records(aet))
  {
    forall k | 0 <= k < |aet|
      ensures aet[k].seg.top.y <= y && Records(aet)[k] == StepsFrom(aet[k].start, y - aet[k].seg.top.y)
    {
      assert aet[k].Tracks(y);
    }
  }

  /** One row of the even-odd loop: emit, evaluate, sort. */
  method FillRowEvenOdd(aet: seq<EdgeTableEntry>, rest: seq<ScanLineList>, y: int, out: seq<Point>,
                        ghost poly: seq<Point>, ghost lo: int)
    returns (r: seq<EdgeTableEntry>, out': seq<Point>)
    requires PointsInRange(poly) && RowReady(aet, rest, poly, y) && FilledTo(EvenOddRule, poly, out, lo, y)
    modifies aet`bres
    ensures RowNext(r, rest, poly, y + 1) && FilledTo(EvenOddRule, poly, out', lo, y + 1)
    ensures forall k :: 0 <= k < |r| ==> r[k] in aet
  {
    ghost var from := Records(aet);
    EmissionFills(EvenOddRule, aet, poly, lo, y, out);
    WaitingApart(aet, rest, poly, y);
    var kept, changed;
    kept, out' := RowEvenOdd(aet, y, out, from);
    r, changed := SortNext(aet, kept, rest, y, poly, from);
  }

  /** One row of the winding loop: emit along the winding list, evaluate, sort, and relink when needed. */
  method FillRowWinding(aet: seq<EdgeTableEntry>, rest: seq<ScanLineList>, y: int, out: seq<Point>,
                        ghost poly: seq<Point>, ghost lo: int)
    returns (r: seq<EdgeTableEntry>, out': seq<Point>)
    requires PointsInRange(poly) && RowReady(aet, rest, poly, y) && FilledTo(WindingRule, poly, out, lo, y)
    requires Linked(aet)
    modifies aet
    ensures RowNext(r, rest, poly, y + 1) && FilledTo(WindingRule, poly, out', lo, y + 1) && Linked(r)
    ensures forall k :: 0 <= k < |r| ==> r[k] in aet
  {
    // Every row begins with the flag clear: it is cleared whenever it was found set.
    var changed, fixWAET := false, false;
    r, out', changed, fixWAET := ScanRowWinding(aet, rest, y, out, fixWAET, poly, lo);
    if changed || fixWAET {
      Relink(r, rest, poly, y + 1);
    }
  }

  /** The row up to the decision whether to relink. */
  method ScanRowWinding(aet: seq<EdgeTableEntry>, rest: seq<ScanLineList>, y: int, out: seq<Point>, fixWAET: bool,
                        ghost poly: seq<Point>, ghost lo: int)
    returns (r: seq<EdgeTableEntry>, out': seq<Point>, changed: bool, fixWAET': bool)
    requires PointsInRange(poly) && RowReady(aet, rest, poly, y) && FilledTo(WindingRule, poly, out, lo, y)
    requires Linked(aet)
    modifies aet`bres
    ensures RowNext(r, rest, poly, y + 1) && FilledTo(WindingRule, poly, out', lo, y + 1)
    ensures forall k :: 0 <= k < |r| ==> r[k] in aet
    ensures !changed && !fixWAET' ==> r == aet
    ensures Links(aet) == old(Links(aet))
  {
    ghost var from := Records(aet);
    EmissionFills(WindingRule, aet, poly, lo, y, out);
    WaitingApart(aet, rest, poly, y);
    var kept;
    kept, out', fixWAET' := RowWinding(aet, y, out, fixWAET, from);
    r, changed := SortNext(aet, kept, rest, y, poly, from);
  }

  /** computeWAET on the active list changes nothing else. */
  method Relink(aet: seq<EdgeTableEntry>, ghost rest: seq<ScanLineList>, ghost poly: seq<Point>, ghost y: int)
    requires Distinct(aet) && forall k :: 0 <= k < |aet| ==> aet[k].Made()
    modifies aet`nextWETE
    ensures Linked(aet)
    ensures old(RowNext(aet, rest, poly, y)) ==> RowNext(aet, rest, poly, y)
    ensures old(RowReady(aet, rest, poly, y)) ==> RowReady(aet, rest, poly, y)
  {
    ComputeWAET(aet);
  }

  // The fill loops.

  lemma {:induction false} SegCountPresent(bs: seq<ScanLineList>, i: nat, k: nat)
    requires i < |bs| && k < |bs[i].edgelist|
    ensures SegCount(bs, bs[i].edgelist[k].seg) > 0
  {
    var g := bs[i].edgelist[k].seg;
    if i == 0 {
      assert SegsOf(bs[0].edgelist)[k] == g;
    } else {
      SegCountPresent(bs[1..], i - 1, k);
    }
  }

  /** Every edge counted in the polygon that is slanted lies within the rows. */
  lemma EdgeWithin(poly: seq<Point>, g: Segment, lo: int, hi: int)
    requires WithinRows(poly, lo, hi) && Slanted(g) && multiset(Segments(poly))[g] > 0
    ensures lo <= g.top.y && g.bottom.y <= hi
  {
    assert g in Segments(poly);
    var i :| 0 <= i < |poly| && Segments(poly)[i] == g;
    assert g == EdgeOf(poly, i);
  }

  /** Before the first row nothing is active, everything waits, and nothing is inside above. */
  lemma FillStarts(rule: FillRule, bs: seq<ScanLineList>, poly: seq<Point>, lo: int, hi: int)
    requires TableOk(bs) && NoEmptyBucket(bs) && Holds(bs, poly, |poly|) && WithinRows(poly, lo, hi)
    ensures Active([], lo - 1, lo) && ActiveCounts([], poly, lo - 1, lo) && Waiting(bs, poly, lo)
    ensures FilledTo(rule, poly, [], lo, lo)
  {
    var gs := Segments(poly);
    assert gs[..|poly|] == gs;
    forall g ensures Count([], g) == if g.top.y <= lo - 1 && lo < g.bottom.y then multiset(gs)[g] else 0 {
      CountAbsent([], g);
      if Slanted(g) && multiset(gs)[g] > 0 { EdgeWithin(poly, g, lo, hi); }
    }
    forall g ensures SegCount(bs, g) == if Slanted(g) && lo <= g.top.y then multiset(gs)[g] else 0 {
      if Slanted(g) && multiset(gs)[g] > 0 { EdgeWithin(poly, g, lo, hi); }
    }
    forall i | 0 <= i < |bs| ensures lo <= bs[i].scanline {
      assert BucketOk(bs[i]) && bs[i].edgelist[0].Made();
      SegCountPresent(bs, i, 0);
      EdgeWithin(poly, bs[i].edgelist[0].seg, lo, hi);
    }
    forall x, y | y < lo ensures !InsideRule(rule, poly, x, y) { OutsideRows(rule, poly, lo, hi, x, y); }
    assert Listed(rule, poly, [], lo, lo);
  }

  /** After the last row the pairs are the whole inside. */
  lemma FillEnds(rule: FillRule, poly: seq<Point>, out: seq<Point>, lo: int, hi: int, y: int)
    requires FilledTo(rule, poly, out, lo, y) && WithinRows(poly, lo, hi) && hi <= y
    ensures forall x, y' {:trigger Paired(out, |out| / 2, x, y')} ::
              Paired(out, |out| / 2, x, y') <==> InsideRule(rule, poly, x, y')
    ensures PairsOf(rule, poly, out)
  {
    assert NoneAbove(poly, lo) && NoneFrom(poly, y);
    forall x, y' | y <= y' ensures !InsideRule(rule, poly, x, y') { OutsideRows(rule, poly, lo, hi, x, y'); }
  }

  ghost predicate DrawnFrom(es: seq<EdgeTableEntry>, pool: set<EdgeTableEntry>) {
    forall k :: 0 <= k < |es| ==> es[k] in pool
  }

  /** The state of a fill loop at the top of row y; the winding loop also keeps its list linked. */
  ghost predicate FillLoop(rule: FillRule, poly: seq<Point>, aet: seq<EdgeTableEntry>, rest: seq<ScanLineList>,
                           lo: int, y: int, out: seq<Point>, pool: set<EdgeTableEntry>)
    reads aet, EntriesOf(rest)
  {
    match rule
    case EvenOddRule => RowLoop(rule, poly, aet, rest, lo, y, out, pool)
    case WindingRule => RowLoop(rule, poly, aet, rest, lo, y, out, pool) && Linked(aet)
  }

  ghost predicate RowLoop(rule: FillRule, poly: seq<Point>, aet: seq<EdgeTableEntry>, rest: seq<ScanLineList>,
                          lo: int, y: int, out: seq<Point>, pool: set<EdgeTableEntry>)
    reads aet, EntriesOf(rest)
  {
    && RowNext(aet, rest, poly, y) && FilledTo(rule, poly, out, lo, y)
    && DrawnFrom(aet, pool) && EntriesOf(rest) <= pool
  }

  /** The body of the even-odd loop of gdk_region_polygon. */
  method ScanlineEvenOdd(aet: seq<EdgeTableEntry>, rest: seq<ScanLineList>, y: int, out: seq<Point>,
                         ghost poly: seq<Point>, ghost lo: int, ghost pool: set<EdgeTableEntry>)
    returns (r: seq<EdgeTableEntry>, rest': seq<ScanLineList>, out': seq<Point>)
    requires PointsInRange(poly) && FillLoop(EvenOddRule, poly, aet, rest, lo, y, out, pool)
    modifies pool
    ensures FillLoop(EvenOddRule, poly, r, rest', lo, y + 1, out', pool)
  {
    var loaded;
    r, rest', loaded := LoadRow(aet, rest, y, poly);
    r, out' := FillRowEvenOdd(r, rest', y, out, poly, lo);
  }

  /** Load the bucket of row y, if there is one, and then rebuild the winding list. */
  method LoadRowLinked(aet: seq<EdgeTableEntry>, rest: seq<ScanLineList>, y: int, ghost poly: seq<Point>,
                       ghost pool: set<EdgeTableEntry>)
    returns (r: seq<EdgeTableEntry>, rest': seq<ScanLineList>)
    requires RowNext(aet, rest, poly, y) && Linked(aet)
    requires DrawnFrom(aet, pool) && EntriesOf(rest) <= pool
    modifies pool
    ensures RowReady(r, rest', poly, y) && Linked(r)
    ensures DrawnFrom(r, pool) && EntriesOf(rest') <= pool
  {
    var loaded;
    r, rest', loaded := LoadRow(aet, rest, y, poly);
    if loaded {
      Relink(r, rest', poly, y);
    }
  }

  /** The body of the winding loop. */
  method ScanlineWinding(aet: seq<EdgeTableEntry>, rest: seq<ScanLineList>, y: int, out: seq<Point>,
                         ghost poly: seq<Point>, ghost lo: int, ghost pool: set<EdgeTableEntry>)
    returns (r: seq<EdgeTableEntry>, rest': seq<ScanLineList>, out': seq<Point>)
    requires PointsInRange(poly) && FillLoop(WindingRule, poly, aet, rest, lo, y, out, pool)
    modifies pool
    ensures FillLoop(WindingRule, poly, r, rest', lo, y + 1, out', pool)
  {
    r, rest' := LoadRowLinked(aet, rest, y, poly, pool);
    r, out' := FillRowWinding(r, rest', y, out, poly, lo);
  }

  /** The scanline loop for the even-odd rule. */
  method FillEvenOdd(bs: seq<ScanLineList>, ymin: int, ymax: int, ghost poly: seq<Point>,
                     ghost pool: set<EdgeTableEntry>)
    returns (out: seq<Point>, ghost y: int)
    requires PointsInRange(poly) && FillLoop(EvenOddRule, poly, [], bs, ymin, ymin, [], pool)
    modifies pool
    ensures FilledTo(EvenOddRule, poly, out, ymin, y) && y >= ymax
  {
    var aet: seq<EdgeTableEntry>, rest, row := [], bs, ymin;
    out := [];
    while row < ymax
      invariant FillLoop(EvenOddRule, poly, aet, rest, ymin, row, out, pool)
    {
      aet, rest, out := ScanlineEvenOdd(aet, rest, row, out, poly, ymin, pool);
      row := row + 1;
    }
    y := row;
  }

  /** The scanline loop for the winding rule. */
  method FillWinding(bs: seq<ScanLineList>, ymin: int, ymax: int, ghost poly: seq<Point>,
                     ghost pool: set<EdgeTableEntry>)
    returns (out: seq<Point>, ghost y: int)
    requires PointsInRange(poly) && FillLoop(WindingRule, poly, [], bs, ymin, ymin, [], pool)
    modifies pool
    ensures FilledTo(WindingRule, poly, out, ymin, y) && y >= ymax
  {
    var aet: seq<EdgeTableEntry>, rest, row := [], bs, ymin;
    out := [];
    while row < ymax
      invariant FillLoop(WindingRule, poly, aet, rest, ymin, row, out, pool)
    {
      aet, rest, out := ScanlineWinding(aet, rest, row, out, poly, ymin, pool);
      row := row + 1;
    }
    y := row;
  }

  /** The two scanline loops of gdk_region_polygon. */
  method Fill(et: EdgeTable, rule: FillRule, ghost poly: seq<Point>) returns (out: seq<Point>)
    requires PointsInRange(poly) && Building(et, poly, |poly|) && WithinRows(poly, et.ymin, et.ymax)
    modifies EntriesOf(et.scanlines)
    ensures PairList(out) && PairsOf(rule, poly, out)
    ensures forall x, y {:trigger Paired(out, |out| / 2, x, y)} ::
              Paired(out, |out| / 2, x, y) <==> InsideRule(rule, poly, x, y)
  {
    ghost var pool := EntriesOf(et.scanlines);
    FillStarts(rule, et.scanlines, poly, et.ymin, et.ymax);
    ghost var y;
    if rule.EvenOddRule? {
      out, y := FillEvenOdd(et.scanlines, et.ymin, et.ymax, poly, pool);
    } else {
      out, y := FillWinding(et.scanlines, et.ymin, et.ymax, poly, pool);
    }
    FillEnds(rule, poly, out, et.ymin, et.ymax, y);
  }

  // The special case of an axis-parallel rectangle.

  predicate LevelFirst(p: seq<Point>)
    requires |p| >= 4
  {
    p[0].y == p[1].y && p[1].x == p[2].x && p[2].y == p[3].y && p[3].x == p[0].x
  }

  predicate UprightFirst(p: seq<Point>)
    requires |p| >= 4
  {
    p[0].x == p[1].x && p[1].y == p[2].y && p[2].x == p[3].x && p[3].y == p[0].y
  }

  predicate IsRectangle(p: seq<Point>) {
    && (|p| == 4 || (|p| == 5 && p[4] == p[0]))
    && (LevelFirst(p) || UprightFirst(p))
  }

  function CornersBox(p: Point, q: Point): Box {
    Box(Min(p.x, q.x), Min(p.y, q.y), Max(p.x, q.x), Max(p.y, q.y))
  }

  lemma Sum4(a: Segment, b: Segment, c: Segment, d: Segment, w: Segment -> int)
    ensures Sum([a, b, c, d], w) == w(a) + w(b) + w(c) + w(d)
  {
    assert [a, b, c, d] == [a, b, c] + [d] && [a, b, c] == [a, b] + [c] && [a, b] == [a] + [b] && [a] == [] + [a];
    SumSnoc([a, b, c], d, w);
    SumSnoc([a, b], c, w);
    SumSnoc([a], b, w);
    SumSnoc([], a, w);
  }

  function Directed(p: Point, q: Point): Segment {
    if p.y > q.y then Segment(q, p, false) else Segment(p, q, true)
  }

  /** A sum over the edges of a rectangle, with or without the repeated corner. */
  lemma RectangleSum(p: seq<Point>, w: Segment -> int)
    requires IsRectangle(p) && forall g :: !Slanted(g) ==> w(g) == 0
    ensures Sum(Segments(p), w) ==
            w(Directed(p[3], p[0])) + w(Directed(p[0], p[1])) + w(Directed(p[1], p[2])) + w(Directed(p[2], p[3]))
  {
    var gs := Segments(p);
    if |p| == 4 {
      assert gs == [gs[0], gs[1], gs[2], gs[3]];
      Sum4(gs[0], gs[1], gs[2], gs[3], w);
    } else {
      assert gs == [gs[0], gs[1], gs[2], gs[3]] + [gs[4]];
      Sum4(gs[0], gs[1], gs[2], gs[3], w);
      SumSnoc([gs[0], gs[1], gs[2], gs[3]], gs[4], w);
    }
  }

  /** An upright edge crosses its rows at its own column. */
  lemma UprightLeft(p: Point, q: Point, x: int, y: int)
    requires p.x == q.x
    ensures LeftOf(Directed(p, q), x, y) <==> Min(p.y, q.y) <= y < Max(p.y, q.y) && p.x <= x
  {
    var g := Directed(p, q);
    if Crosses(g, y) {
      assert (y - g.top.y) * 0 == 0;
      assert CrossX(g, y) == g.top.x;
    }
  }

  lemma LevelLeft(p: Point, q: Point, x: int, y: int)
    requires p.y == q.y
    ensures !LeftOf(Directed(p, q), x, y)
  {
  }

  /** Both fill rules give a rectangle its own box. */
  lemma RectangleInside(rule: FillRule, p: seq<Point>, x: int, y: int)
    requires IsRectangle(p)
    ensures InsideRule(rule, p, x, y) <==> Inside(CornersBox(p[0], p[2]), x, y)
  {
    RectangleSum(p, LeftCount(x, y));
    RectangleSum(p, LeftSign(x, y));
    if LevelFirst(p) {
      UprightLeft(p[3], p[0], x, y);
      LevelLeft(p[0], p[1], x, y);
      UprightLeft(p[1], p[2], x, y);
      LevelLeft(p[2], p[3], x, y);
    } else {
      LevelLeft(p[3], p[0], x, y);
      UprightLeft(p[0], p[1], x, y);
      LevelLeft(p[1], p[2], x, y);
      UprightLeft(p[2], p[3], x, y);
    }
  }

  /**
   * gdk_region_polygon for at least two points: exactly the points inside by the fill rule. `pts` is the pair
   * list of the scan conversion; the region is in canonical form just when that list is tidy.
   */
  method RegionPolygon(points: seq<Point>, rule: FillRule) returns (region: Region, ghost pts: seq<Point>)
    requires |points| >= 2 && PointsInRange(points)
    ensures fresh(region) && region.Usable()
    ensures forall x, y {:trigger In(region.rects, x, y)} :: In(region.rects, x, y) <==> InsideRule(rule, points, x, y)
    ensures if IsRectangle(points) then region.Good()
            else && PairList(pts) && PairsOf(rule, points, pts) && region.rects == BoxesOf(pts, |pts| / 2)
                 && (region.Good() <==> Tidy(pts))
  {
    region := new Region();
    pts := [];
    if IsRectangle(points) {
      var box := CornersBox(points[0], points[2]);
      region.extents := box;
      if box.x1 != box.x2 && box.y1 != box.y2 {
        region.rects := [region.extents];
        SingleBox(box);
      }
      forall x, y ensures In(region.rects, x, y) <==> InsideRule(rule, points, x, y) {
        RectangleInside(rule, points, x, y);
        InBox(box, x, y);
      }
      return;
    }
    var et := CreateETandAET(points);
    var out := Fill(et, rule, points);
    PtsToRegion(out, region);
    pts := out;
    CanonicalIffTidy(pts);
  }
}
