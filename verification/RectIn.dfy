/** gdk_region_rect_in: one pass over the boxes that classifies a rectangle against a region. */
module RectIn {
  import opened Boxes
  import opened Banding
  import opened Geometry
  import opened Regions
  import opened Algebra

  datatype OverlapType = RectangleIn | RectangleOut | RectanglePart

  ghost predicate AllInside(s: seq<Box>, rect: Box) {
    forall x, y :: Inside(rect, x, y) ==> In(s, x, y)
  }

  ghost predicate NoneInside(s: seq<Box>, rect: Box) {
    forall x, y :: Inside(rect, x, y) ==> !In(s, x, y)
  }

  /** One box reaches across the rectangle on row `y`. */
  predicate Across(b: Box, rect: Box, y: int) {
    b.y1 <= y < b.y2 && b.x1 <= rect.x1 && rect.x2 <= b.x2
  }

  ghost predicate RowSpanned(s: seq<Box>, rect: Box, y: int) {
    exists k :: 0 <= k < |s| && Across(s[k], rect, y)
  }

  /** On every row of the rectangle one box reaches across it. */
  ghost predicate Spanned(s: seq<Box>, rect: Box) {
    forall y :: rect.y1 <= y < rect.y2 ==> RowSpanned(s, rect, y)
  }

  /** What the scan answers for a rectangle with area. */
  ghost predicate Classifies(t: OverlapType, s: seq<Box>, rect: Box) {
    && (t == RectangleIn <==> Spanned(s, rect))
    && (t == RectangleOut <==> NoneInside(s, rect))
  }

  lemma SpannedIsCovered(s: seq<Box>, rect: Box)
    requires Spanned(s, rect)
    ensures AllInside(s, rect)
  {
    forall x, y | Inside(rect, x, y) ensures In(s, x, y) {
      assert RowSpanned(s, rect, y);
      var k :| 0 <= k < |s| && Across(s[k], rect, y);
      assert Inside(s[k], x, y);
    }
  }

  /** Where boxes of a band never touch, reaching across every row is the same as covering every point. */
  lemma SpannedIsAllInside(s: seq<Box>, rect: Box)
    requires Banded(s) && Separated(s) && rect.x1 < rect.x2
    ensures Spanned(s, rect) <==> AllInside(s, rect)
  {
    if Spanned(s, rect) { SpannedIsCovered(s, rect); }
    if AllInside(s, rect) {
      forall y | rect.y1 <= y < rect.y2 ensures RowSpanned(s, rect, y) { CoveredRowSpanned(s, rect, y); }
    }
  }

  lemma CoveredRowSpanned(s: seq<Box>, rect: Box, y: int)
    requires Banded(s) && Separated(s) && rect.x1 < rect.x2
    requires forall x :: rect.x1 <= x < rect.x2 ==> In(s, x, y)
    ensures RowSpanned(s, rect, y)
  {
    assert In(s, rect.x1, y);
    var k :| 0 <= k < |s| && Inside(s[k], rect.x1, y);
    forall l | 0 <= l < |s| ensures !Inside(s[l], s[k].x2, y) { FreeColumn(s, k, l, y); }
    assert !In(s, s[k].x2, y);
    assert Across(s[k], rect, y);
  }

  /** The column right of a box is free on its rows. */
  lemma FreeColumn(s: seq<Box>, k: nat, l: nat, y: int)
    requires Banded(s) && Separated(s) && k < |s| && l < |s| && s[k].y1 <= y < s[k].y2
    ensures !Inside(s[l], s[k].x2, y)
  {
    if k < l {
      assert Precedes(s[k], s[l]) && Clear(s[k], s[l]);
    } else if l < k {
      assert Precedes(s[l], s[k]) && Proper(s[k]);
    }
  }

  /**
   * The scan stands before box `i` and row `ry`. Every box passed ends above `ry` or left of the
   * rectangle. Not both flags are set; the rectangle's rows above `ry` are all spanned, or all out.
   */
  ghost predicate Scanning(s: seq<Box>, rect: Box, i: nat, ry: int, partIn: bool, partOut: bool) {
    && i <= |s| && rect.y1 <= ry < rect.y2
    && (forall k :: 0 <= k < i ==> s[k].y2 <= ry || s[k].x2 <= rect.x1)
    && !(partIn && partOut)
    && (partIn ==> rect.y1 < ry && forall y :: rect.y1 <= y < ry ==> RowSpanned(s, rect, y))
    && (!partIn ==> forall k, x, y :: 0 <= k < |s| && (k < i || s[k].y2 <= ry) && Inside(rect, x, y) ==>
                      !Inside(s[k], x, y))
    && (partOut ==> !Spanned(s, rect))
    && (!partOut && !partIn ==> ry == rect.y1)
  }

  /** No box but box `i` can reach across the rectangle on the current row. */
  lemma OnlyThisBox(s: seq<Box>, rect: Box, i: nat, ry: int)
    requires Banded(s) && i < |s| && rect.x1 < rect.x2
    requires forall k :: 0 <= k < i ==> s[k].y2 <= ry || s[k].x2 <= rect.x1
    requires ry < s[i].y2 && (rect.x1 < s[i].x2 || ry < s[i].y1)
    ensures RowSpanned(s, rect, ry) ==> Across(s[i], rect, ry)
  {
    forall k | i < k < |s| ensures !Across(s[k], rect, ry) {
      assert Precedes(s[i], s[k]);
    }
  }

  /** A spanned row holds points of the rectangle. */
  lemma SpannedIsNotOut(s: seq<Box>, rect: Box, y: int)
    requires rect.x1 < rect.x2 && rect.y1 <= y < rect.y2 && RowSpanned(s, rect, y)
    ensures !NoneInside(s, rect)
  {
    var k :| 0 <= k < |s| && Across(s[k], rect, y);
    assert Inside(rect, rect.x1, y) && Inside(s[k], rect.x1, y);
    assert In(s, rect.x1, y);
  }

  lemma OutsideExtents(s: seq<Box>, e: Box, rect: Box)
    requires s == [] || (Bounds(s, e) && !ExtentCheck(e, rect))
    ensures NoneInside(s, rect)
    ensures rect.x1 < rect.x2 && rect.y1 < rect.y2 ==> !Spanned(s, rect)
  {
    forall x, y | Inside(rect, x, y) ensures !In(s, x, y) {
      assert s != [] && In(s, x, y) ==> Inside(e, x, y);
    }
    if rect.x1 < rect.x2 && rect.y1 < rect.y2 && Spanned(s, rect) {
      SpannedIsNotOut(s, rect, rect.y1);
    }
  }

  /** A gap above box `i`: the rectangle is partly out, and out if nothing was in before and it ends above. */
  lemma MissedAbove(s: seq<Box>, rect: Box, i: nat, ry: int, partIn: bool, partOut: bool)
    requires Banded(s) && Scanning(s, rect, i, ry, partIn, partOut) && rect.x1 < rect.x2
    requires i < |s| && ry < s[i].y1
    ensures !Spanned(s, rect)
    ensures partIn ==> Classifies(RectanglePart, s, rect)
    ensures !partIn && rect.y2 <= s[i].y1 ==> Classifies(RectangleOut, s, rect)
    ensures !partIn && s[i].y1 < rect.y2 ==> Scanning(s, rect, i, s[i].y1, false, true)
  {
    assert Proper(s[i]);
    OnlyThisBox(s, rect, i, ry);
    assert !RowSpanned(s, rect, ry);
    if partIn { SpannedIsNotOut(s, rect, rect.y1); }
    forall k | i < k < |s| ensures s[i].y1 <= s[k].y1 < s[k].y2 {
      assert Precedes(s[i], s[k]) && Proper(s[k]);
    }
  }

  /** Box `i` starts right of the rectangle's left edge on the current row. */
  lemma MissedLeft(s: seq<Box>, rect: Box, i: nat, ry: int, partIn: bool, partOut: bool)
    requires Banded(s) && Scanning(s, rect, i, ry, partIn, partOut) && rect.x1 < rect.x2
    requires i < |s| && s[i].y1 <= ry < s[i].y2 && rect.x1 < s[i].x1
    ensures !Spanned(s, rect)
    ensures partIn ==> Classifies(RectanglePart, s, rect)
  {
    assert Proper(s[i]);
    OnlyThisBox(s, rect, i, ry);
    assert !RowSpanned(s, rect, ry);
    if partIn { SpannedIsNotOut(s, rect, rect.y1); }
  }

  /** Box `i` overlaps the rectangle on the current row. */
  lemma Overlaps(s: seq<Box>, rect: Box, i: nat, ry: int)
    requires i < |s| && rect.y1 <= ry < rect.y2 && s[i].y1 <= ry < s[i].y2
    requires rect.x1 < s[i].x2 && s[i].x1 < rect.x2 && rect.x1 < rect.x2 && s[i].x1 < s[i].x2
    ensures !NoneInside(s, rect)
  {
    var x := Max(s[i].x1, rect.x1);
    assert Inside(s[i], x, ry) && Inside(rect, x, ry);
    assert In(s, x, ry);
  }

  /** Box `i` covers the rectangle's full width on the rows it has below `ry`. */
  lemma CoveredRows(s: seq<Box>, rect: Box, i: nat, ry: int, wasIn: bool)
    requires Scanning(s, rect, i, ry, wasIn, false) && rect.x1 < rect.x2
    requires i < |s| && s[i].y1 <= ry < s[i].y2 && s[i].x1 <= rect.x1 && rect.x2 <= s[i].x2
    ensures s[i].y2 < rect.y2 ==> Scanning(s, rect, i + 1, s[i].y2, true, false)
    ensures rect.y2 <= s[i].y2 ==> Classifies(RectangleIn, s, rect)
  {
    forall y | rect.y1 <= y < Min(s[i].y2, rect.y2) ensures RowSpanned(s, rect, y) {
      if ry <= y { assert Across(s[i], rect, y); }
    }
    SpannedIsNotOut(s, rect, rect.y1);
  }

  /** Box `i` lies wholly right of a rectangle of which nothing is in so far. */
  lemma BandPassed(s: seq<Box>, rect: Box, i: nat, ry: int, wasOut: bool)
    requires Banded(s) && Scanning(s, rect, i, ry, false, wasOut) && rect.x1 < rect.x2
    requires i < |s| && s[i].y1 <= ry < s[i].y2 && rect.x2 <= s[i].x1 && !Spanned(s, rect)
    ensures s[i].y2 < rect.y2 ==> Scanning(s, rect, i + 1, s[i].y2, false, true)
    ensures rect.y2 <= s[i].y2 ==> Classifies(RectangleOut, s, rect)
  {
    assert Proper(s[i]);
    forall k | i < k < |s| ensures rect.x2 <= s[k].x1 || s[i].y2 <= s[k].y1 < s[k].y2 {
      assert Precedes(s[i], s[k]) && Proper(s[k]);
    }
  }

  /** Box `i` ends inside the rectangle, so no box reaches across it on the current row. */
  lemma EndsInside(s: seq<Box>, rect: Box, i: nat, ry: int, partIn: bool, partOut: bool)
    requires Banded(s) && Scanning(s, rect, i, ry, partIn, partOut)
    requires i < |s| && s[i].y1 <= ry < s[i].y2 && rect.x1 < s[i].x2 < rect.x2
    ensures Classifies(RectanglePart, s, rect)
  {
    assert Proper(s[i]);
    OnlyThisBox(s, rect, i, ry);
    assert !RowSpanned(s, rect, ry);
    Overlaps(s, rect, i, ry);
  }

  lemma ScanEnds(s: seq<Box>, rect: Box, ry: int, partIn: bool, partOut: bool)
    requires Scanning(s, rect, |s|, ry, partIn, partOut) && rect.x1 < rect.x2
    ensures Classifies(if partIn then RectanglePart else RectangleOut, s, rect)
  {
    forall k | 0 <= k < |s| ensures !Across(s[k], rect, ry) {}
    assert !RowSpanned(s, rect, ry);
    if partIn { SpannedIsNotOut(s, rect, rect.y1); }
  }

  /** One box reaches across the rectangle on row y. */
  ghost predicate RowReached(s: seq<Box>, r: Rectangle, y: int) {
    exists k :: 0 <= k < |s| && s[k].y1 <= y < s[k].y2 && s[k].x1 <= r.x && r.x + r.width <= s[k].x2
  }

  lemma SpannedIsReached(s: seq<Box>, r: Rectangle, y: int)
    ensures RowSpanned(s, BoxOf(r), y) <==> RowReached(s, r, y)
  {
    var rect := BoxOf(r);
    if RowSpanned(s, rect, y) {
      var k :| 0 <= k < |s| && Across(s[k], rect, y);
    }
    if RowReached(s, r, y) {
      var k :| 0 <= k < |s| && s[k].y1 <= y < s[k].y2 && s[k].x1 <= r.x && r.x + r.width <= s[k].x2;
      assert Across(s[k], rect, y);
    }
  }

  /** The answer for a rectangle with area, in coordinates. */
  lemma ClassifiedRectangle(t: OverlapType, s: seq<Box>, r: Rectangle)
    requires Banded(s) && Classifies(t, s, BoxOf(r)) && r.width > 0 && r.height > 0
    ensures t == RectangleOut <==>
              forall x, y :: r.x <= x < r.x + r.width && r.y <= y < r.y + r.height ==> !In(s, x, y)
    ensures t == RectangleIn <==> forall y :: r.y <= y < r.y + r.height ==> RowReached(s, r, y)
    ensures t == RectangleIn ==>
              forall x, y :: r.x <= x < r.x + r.width && r.y <= y < r.y + r.height ==> In(s, x, y)
    ensures Separated(s) ==>
              (t == RectangleIn <==>
                forall x, y :: r.x <= x < r.x + r.width && r.y <= y < r.y + r.height ==> In(s, x, y))
  {
    var rect := BoxOf(r);
    if Spanned(s, rect) { SpannedIsCovered(s, rect); }
    if Separated(s) { SpannedIsAllInside(s, rect); }
    forall x, y ensures Inside(rect, x, y) <==> r.x <= x < r.x + r.width && r.y <= y < r.y + r.height {}
    forall y ensures RowSpanned(s, rect, y) <==> RowReached(s, r, y) { SpannedIsReached(s, r, y); }
  }

  /**
   * gdk_region_rect_in; nothing is claimed for a rectangle without area. OUT is exact for every region. IN is
   * given exactly when one box reaches across every row; a rectangle that is covered only by boxes that touch
   * is called PART. Where boxes never touch that cannot be, and IN means that every point is in.
   */
  method Classify(region: Region, rectangle: Rectangle) returns (t: OverlapType)
    requires region.Usable()
    ensures rectangle.width > 0 && rectangle.height > 0 ==>
              var s, r := region.rects, rectangle;
              && (t == RectangleOut <==>
                    forall x, y :: r.x <= x < r.x + r.width && r.y <= y < r.y + r.height ==> !In(s, x, y))
              && (t == RectangleIn <==> forall y :: r.y <= y < r.y + r.height ==> RowReached(s, r, y))
              && (t == RectangleIn ==>
                    forall x, y :: r.x <= x < r.x + r.width && r.y <= y < r.y + r.height ==> In(s, x, y))
              && (Separated(s) ==>
                    (t == RectangleIn <==>
                      forall x, y :: r.x <= x < r.x + r.width && r.y <= y < r.y + r.height ==> In(s, x, y)))
  {
    t := Scan(region, rectangle);
    if rectangle.width > 0 && rectangle.height > 0 { ClassifiedRectangle(t, region.rects, rectangle); }
  }

  method Scan(region: Region, rectangle: Rectangle) returns (t: OverlapType)
    requires region.Usable()
    ensures rectangle.width > 0 && rectangle.height > 0 ==> Classifies(t, region.rects, BoxOf(rectangle))
  {
    var rx, ry := rectangle.x, rectangle.y;
    var rect := BoxOf(rectangle);
    ghost var area := rectangle.width > 0 && rectangle.height > 0;
    var s := region.rects;
    if |s| == 0 || !ExtentCheck(region.extents, rect) {
      OutsideExtents(s, region.extents, rect);
      assert area ==> Inside(rect, rx, ry);
      return RectangleOut;
    }
    var partOut, partIn := false, false;
    var i := 0;
    while i < |s|
      invariant 0 <= i <= |s| && rx == rect.x1
      invariant area ==> Scanning(s, rect, i, ry, partIn, partOut)
    {
      var b := s[i];
      assert Proper(b);
      if b.y2 <= ry { i := i + 1; continue; }
      if b.y1 > ry {
        if area { MissedAbove(s, rect, i, ry, partIn, partOut); }
        partOut := true;
        if partIn || b.y1 >= rect.y2 { break; }
        ry := b.y1;
      }
      if b.x2 <= rx { i := i + 1; continue; }
      ghost var wasIn := partIn;
      if b.x1 > rx {
        if area { MissedLeft(s, rect, i, ry, partIn, partOut); }
        partOut := true;
        if partIn { break; }
      }
      if b.x1 < rect.x2 {
        if area { Overlaps(s, rect, i, ry); }
        partIn := true;
        if partOut { break; }
      }
      if b.x2 >= rect.x2 {
        if area {
          if partIn { CoveredRows(s, rect, i, ry, wasIn); } else { BandPassed(s, rect, i, ry, true); }
        }
        ry := b.y2;
        if ry >= rect.y2 { break; }
        rx := rect.x1;
      } else {
        if area { EndsInside(s, rect, i, ry, wasIn, partOut); }
        break;
      }
      i := i + 1;
    }
    if area && i == |s| { ScanEnds(s, rect, ry, partIn, partOut); }
    return if partIn then (if ry < rect.y2 then RectanglePart else RectangleIn) else RectangleOut;
  }
}
