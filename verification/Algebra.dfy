/** The public region operations and queries built on the sweep. */
module Algebra {
  import opened Boxes
  import opened Banding
  import opened Geometry
  import opened Regions
  import opened Sweep

  /** EXTENTCHECK: two boxes share a point. */
  predicate ExtentCheck(a: Box, b: Box) {
    a.x2 > b.x1 && a.x1 < b.x2 && a.y2 > b.y1 && a.y1 < b.y2
  }

  predicate Subsumes(a: Box, b: Box) {
    a.x1 <= b.x1 && a.y1 <= b.y1 && a.x2 >= b.x2 && a.y2 >= b.y2
  }

  /** A region of one box holds everything inside its extents. */
  lemma OneBoxFilled(s: seq<Box>, e: Box, x: int, y: int)
    requires Exact(s, e) && |s| == 1
    ensures In(s, x, y) <==> Inside(e, x, y)
  {
    SingleExtents(s, e);
    assert s == [e];
    InBox(e, x, y);
  }

  function Hull(e: Box, f: Box): Box {
    Box(Min(e.x1, f.x1), Min(e.y1, f.y1), Max(e.x2, f.x2), Max(e.y2, f.y2))
  }

  lemma MeetsMore(s: seq<Box>, u: seq<Box>)
    requires forall x, y :: In(s, x, y) ==> In(u, x, y)
    ensures forall x :: MeetsColumn(s, x) ==> MeetsColumn(u, x)
    ensures forall y :: MeetsRow(s, y) ==> MeetsRow(u, y)
  {
    forall x | MeetsColumn(s, x) ensures MeetsColumn(u, x) {
      var y :| In(s, x, y);
      assert In(u, x, y);
    }
    forall y | MeetsRow(s, y) ensures MeetsRow(u, y) {
      var x :| In(s, x, y);
      assert In(u, x, y);
    }
  }

  /** The exact bounds of a union are the hull of the exact bounds. */
  lemma UnionBounds(s: seq<Box>, e: Box, t: seq<Box>, f: Box, u: seq<Box>)
    requires Bounds(s, e) && Bounds(t, f)
    requires forall x, y :: In(u, x, y) <==> In(s, x, y) || In(t, x, y)
    ensures Bounds(u, Hull(e, f))
  {
    MeetsMore(s, u);
    MeetsMore(t, u);
  }

  /** gdk_region_union: add the points of `source2`; the two may be the same region. */
  method Union(source1: Region, source2: Region)
    requires source1.Usable() && source2.Usable()
    modifies source1
    ensures source1.Usable() && (old(source1.Good() && source2.Good()) ==> source1.Good())
    ensures forall x, y :: In(source1.rects, x, y) <==> In(old(source1.rects), x, y) || In(old(source2.rects), x, y)
  {
    if source1 == source2 || source2.rects == [] { return; }
    if source1.rects == [] {
      Copy(source1, source2);
      return;
    }
    if |source1.rects| == 1 && Subsumes(source1.extents, source2.extents) {
      forall x, y { OneBoxFilled(source1.rects, source1.extents, x, y); }
      return;
    }
    if |source2.rects| == 1 && Subsumes(source2.extents, source1.extents) {
      forall x, y { OneBoxFilled(source2.rects, source2.extents, x, y); }
      Copy(source1, source2);
      return;
    }
    RegionOp(source1, source1, source2, MiUnionO, MiUnionNonO, MiUnionNonO, BoolOp(true, true, true));
    UnionBounds(old(source1.rects), source1.extents, source2.rects, source2.extents, source1.rects);
    UnionIsNotEmpty(source1.rects, old(source1.rects));
    SetHull(source1, source2.extents);
  }

  lemma UnionIsNotEmpty(u: seq<Box>, s: seq<Box>)
    requires Banded(s) && s != [] && forall x, y :: In(s, x, y) ==> In(u, x, y)
    ensures u != []
  {
    CornerIn(s);
  }

  /** The last lines of gdk_region_union: grow the extents, field by field, to the hull with `f`. */
  method SetHull(reg: Region, f: Box)
    requires reg.Valid() && Banded(reg.rects) && Bounds(reg.rects, Hull(reg.extents, f))
    modifies reg
    ensures reg.Usable() && reg.rects == old(reg.rects)
  {
    var e := reg.extents;
    reg.extents := e.(x1 := Min(e.x1, f.x1));
    reg.extents := reg.extents.(y1 := Min(e.y1, f.y1));
    reg.extents := reg.extents.(x2 := Max(e.x2, f.x2));
    reg.extents := reg.extents.(y2 := Max(e.y2, f.y2));
    if |reg.rects| == 1 { SingleExtents(reg.rects, reg.extents); }
  }

  /** gdk_region_union_with_rect: a rectangle without area changes nothing. */
  method UnionWithRect(region: Region, r: Rectangle)
    requires region.Usable()
    modifies region
    ensures region.Usable() && (old(region.Good()) ==> region.Good())
    ensures forall x, y :: In(region.rects, x, y) <==>
              In(old(region.rects), x, y) || (r.x <= x < r.x + r.width && r.y <= y < r.y + r.height)
  {
    if r.width <= 0 || r.height <= 0 { return; }
    var tmp := new Region.FromRectangle(r);
    Union(region, tmp);
  }

  /** gdk_region_intersect: keep the points also in `source2`, another region. */
  method Intersect(source1: Region, source2: Region)
    requires source1.Usable() && source2.Usable() && source1 != source2
    modifies source1
    ensures source1.Usable() && (old(source1.Good() && source2.Good()) ==> source1.Good())
    ensures forall x, y :: In(source1.rects, x, y) <==> In(old(source1.rects), x, y) && In(source2.rects, x, y)
  {
    if source1.rects == [] || source2.rects == [] || !ExtentCheck(source1.extents, source2.extents) {
      source1.rects := [];
    } else {
      RegionOp(source1, source1, source2, MiIntersectO, NullFn, NullFn, BoolOp(true, false, false));
    }
    SetExtents(source1);
  }

  /** gdk_region_subtract: drop the points of `source2`, another region. */
  method Subtract(source1: Region, source2: Region)
    requires source1.Usable() && source2.Usable() && source1 != source2
    modifies source1
    ensures source1.Usable() && (old(source1.Good() && source2.Good()) ==> source1.Good())
    ensures forall x, y :: In(source1.rects, x, y) <==> In(old(source1.rects), x, y) && !In(source2.rects, x, y)
  {
    if source1.rects == [] || source2.rects == [] || !ExtentCheck(source1.extents, source2.extents) {
      return;
    }
    RegionOp(source1, source1, source2, MiSubtractO, MiSubtractNonO1, NullFn, BoolOp(false, true, false));
    SetExtents(source1);
  }

  /** gdk_region_xor: the points in exactly one of two distinct regions. */
  method Xor(source1: Region, source2: Region)
    requires source1.Usable() && source2.Usable() && source1 != source2
    modifies source1
    ensures source1.Usable() && (old(source1.Good() && source2.Good()) ==> source1.Good())
    ensures forall x, y :: In(source1.rects, x, y) <==> (In(old(source1.rects), x, y) != In(source2.rects, x, y))
  {
    var trb := new Region();
    Copy(trb, source2);
    Subtract(trb, source1);
    Subtract(source1, source2);
    Union(source1, trb);
  }

  /**
   * ogdk_region_equal: compares box counts, extents and boxes. It decides equality of the box lists, and
   * on canonical regions equality of area.
   */
  method Equal(region1: Region, region2: Region) returns (same: bool)
    requires region1.Usable() && region2.Usable()
    ensures same <==> region1.rects == region2.rects
    ensures region1.Good() && region2.Good() ==> (same <==> SamePoints(region1.rects, region2.rects))
  {
    if Canonical(region1.rects) && Canonical(region2.rects) { CanonicalUnique(region1.rects, region2.rects); }
    if |region1.rects| != |region2.rects| { return false; }
    if |region1.rects| == 0 { return true; }
    if region1.rects == region2.rects {
      BoundsUnique(region1.rects, region2.rects, region1.extents, region2.extents);
    }
    if region1.extents.x1 != region2.extents.x1 { return false; }
    if region1.extents.x2 != region2.extents.x2 { return false; }
    if region1.extents.y1 != region2.extents.y1 { return false; }
    if region1.extents.y2 != region2.extents.y2 { return false; }
    var i := 0;
    while i < |region1.rects|
      invariant 0 <= i <= |region1.rects|
      invariant region1.rects[..i] == region2.rects[..i]
    {
      if region1.rects[i].x1 != region2.rects[i].x1 { return false; }
      if region1.rects[i].x2 != region2.rects[i].x2 { return false; }
      if region1.rects[i].y1 != region2.rects[i].y1 { return false; }
      if region1.rects[i].y2 != region2.rects[i].y2 { return false; }
      i := i + 1;
    }
    return true;
  }

  /** gdk_region_point_in, with its look at the extents first. */
  method PointIn(region: Region, x: int, y: int) returns (found: bool)
    requires region.rects != [] ==> Bounds(region.rects, region.extents)
    ensures found <==> In(region.rects, x, y)
  {
    if region.rects == [] || !Inside(region.extents, x, y) { return false; }
    var i := 0;
    while i < |region.rects|
      invariant 0 <= i <= |region.rects|
      invariant forall k :: 0 <= k < i ==> !Inside(region.rects[k], x, y)
    {
      if Inside(region.rects[i], x, y) { return true; }
      i := i + 1;
    }
    return false;
  }
}
