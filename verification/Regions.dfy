/** The mutable region record, its storage rules, and the operations that need no sweep. */
module Regions {
  import opened Boxes
  import opened Banding
  import opened Geometry

  function BoxOf(r: Rectangle): Box {
    Box(r.x, r.y, r.x + r.width, r.y + r.height)
  }

  ghost predicate MeetsColumn(s: seq<Box>, x: int) { exists y :: In(s, x, y) }

  ghost predicate MeetsRow(s: seq<Box>, y: int) { exists x :: In(s, x, y) }

  /** `e` is the exact bounding box of the points of `s`: it holds them all and each side is met. */
  ghost predicate Bounds(s: seq<Box>, e: Box) {
    && (forall x, y :: In(s, x, y) ==> Inside(e, x, y))
    && MeetsColumn(s, e.x1) && MeetsColumn(s, e.x2 - 1)
    && MeetsRow(s, e.y1) && MeetsRow(s, e.y2 - 1)
  }

  /** A banded box list with exact extents; extents mean nothing when it is empty. */
  ghost predicate Exact(s: seq<Box>, e: Box) {
    Banded(s) && (s != [] ==> Bounds(s, e))
  }

  lemma BoundsUnique(s: seq<Box>, t: seq<Box>, e: Box, f: Box)
    requires SamePoints(s, t) && Bounds(s, e) && Bounds(t, f)
    ensures e == f
  {
    BoundsWithin(s, t, e, f);
    BoundsWithin(t, s, f, e);
  }

  lemma BoundsWithin(s: seq<Box>, t: seq<Box>, e: Box, f: Box)
    requires Bounds(s, e) && Bounds(t, f)
    requires forall x, y :: In(s, x, y) ==> In(t, x, y)
    ensures f.x1 <= e.x1 && e.x2 <= f.x2 && f.y1 <= e.y1 && e.y2 <= f.y2
  {
    var y :| In(s, e.x1, y);
    var y' :| In(s, e.x2 - 1, y');
    var x :| In(s, x, e.y1);
    var x' :| In(s, x', e.y2 - 1);
    assert Inside(f, e.x1, y) && Inside(f, e.x2 - 1, y') && Inside(f, x, e.y1) && Inside(f, x', e.y2 - 1);
  }

  lemma InBox(b: Box, x: int, y: int)
    ensures In([b], x, y) <==> Inside(b, x, y)
  {
    if Inside(b, x, y) { assert Inside([b][0], x, y); }
  }

  lemma SingleBox(b: Box)
    requires Proper(b)
    ensures Canonical([b]) && Exact([b], b)
  {
    forall x, y ensures In([b], x, y) <==> Inside(b, x, y) { InBox(b, x, y); }
    assert In([b], b.x1, b.y1) && In([b], b.x2 - 1, b.y1) && In([b], b.x1, b.y2 - 1);
  }

  lemma SingleExtents(s: seq<Box>, e: Box)
    requires Exact(s, e) && |s| == 1
    ensures e == s[0]
  {
    SingleBox(s[0]);
    assert s == [s[0]];
    BoundsUnique(s, s, e, s[0]);
  }

  function Shift(b: Box, dx: int, dy: int): Box {
    Box(b.x1 + dx, b.y1 + dy, b.x2 + dx, b.y2 + dy)
  }

  ghost function Shifted(s: seq<Box>, dx: int, dy: int): (r: seq<Box>)
    ensures |r| == |s|
    ensures forall i :: 0 <= i < |s| ==> r[i] == Shift(s[i], dx, dy)
  {
    seq(|s|, i requires 0 <= i < |s| => Shift(s[i], dx, dy))
  }

  lemma ShiftedPoints(s: seq<Box>, dx: int, dy: int, x: int, y: int)
    ensures In(Shifted(s, dx, dy), x, y) <==> In(s, x - dx, y - dy)
  {
    var r := Shifted(s, dx, dy);
    if In(r, x, y) {
      var i :| 0 <= i < |r| && Inside(r[i], x, y);
      assert Inside(s[i], x - dx, y - dy);
    }
    if In(s, x - dx, y - dy) {
      var i :| 0 <= i < |s| && Inside(s[i], x - dx, y - dy);
      assert Inside(r[i], x, y);
    }
  }

  /** Moving a region keeps its form and the exactness of its extents. */
  lemma ShiftedExact(s: seq<Box>, e: Box, dx: int, dy: int)
    requires Exact(s, e)
    ensures Exact(Shifted(s, dx, dy), Shift(e, dx, dy))
    ensures Canonical(s) ==> Canonical(Shifted(s, dx, dy))
  {
    var r := Shifted(s, dx, dy);
    forall i, j | 0 <= i < j < |r| ensures Precedes(r[i], r[j]) {
      assert Precedes(s[i], s[j]);
    }
    if s != [] { ShiftedBounds(s, e, dx, dy); }
    if Canonical(s) { ShiftedCanonical(s, dx, dy); }
  }

  lemma ShiftedCanonical(s: seq<Box>, dx: int, dy: int)
    requires Canonical(s)
    ensures Canonical(Shifted(s, dx, dy))
  {
    var r := Shifted(s, dx, dy);
    forall i, j | 0 <= i < j < |r| ensures Precedes(r[i], r[j]) && Clear(r[i], r[j]) {
      assert Precedes(s[i], s[j]) && Clear(s[i], s[j]);
    }
    forall p, c, d | BandAt(r, p, c) && BandAt(r, c, d) ensures !Mergeable(r, p, c, d) {
      ShiftedBand(s, dx, dy, p, c);
      ShiftedBand(s, dx, dy, c, d);
      if Mergeable(r, p, c, d) { ShiftedMergeable(s, dx, dy, p, c, d); }
    }
  }

  lemma ShiftedBand(s: seq<Box>, dx: int, dy: int, p: int, c: int)
    requires BandAt(Shifted(s, dx, dy), p, c)
    ensures BandAt(s, p, c)
  {
    var r := Shifted(s, dx, dy);
    assert forall i :: 0 <= i < |s| ==> r[i].y1 == s[i].y1 + dy;
  }

  lemma ShiftedBounds(s: seq<Box>, e: Box, dx: int, dy: int)
    requires Bounds(s, e)
    ensures Bounds(Shifted(s, dx, dy), Shift(e, dx, dy))
  {
    var r, f := Shifted(s, dx, dy), Shift(e, dx, dy);
    forall x, y ensures In(r, x, y) <==> In(s, x - dx, y - dy) { ShiftedPoints(s, dx, dy, x, y); }
    var y :| In(s, e.x1, y);
    var y' :| In(s, e.x2 - 1, y');
    var x :| In(s, x, e.y1);
    var x' :| In(s, x', e.y2 - 1);
    assert In(r, f.x1, y + dy) && In(r, f.x2 - 1, y' + dy) && In(r, x + dx, f.y1) && In(r, x' + dx, f.y2 - 1);
  }

  lemma ShiftedMergeable(s: seq<Box>, dx: int, dy: int, p: int, c: int, e: int)
    requires Mergeable(Shifted(s, dx, dy), p, c, e)
    ensures Mergeable(s, p, c, e)
  {
    var r := Shifted(s, dx, dy);
    assert Shifted(s[p..c], dx, dy) == r[p..c] && Shifted(s[c..e], dx, dy) == r[c..e];
  }

  /**
   * `rects` holds the live boxes and `size` the capacity of the box array. While `shared` holds the
   * array is the `extents` record itself, so a write to its only box is a write to `extents`.
   */
  class Region {
    var size: int
    var rects: seq<Box>
    var shared: bool
    var extents: Box

    ghost predicate Valid()
      reads this
    {
      && |rects| <= size
      && (shared ==> size <= 1 && (rects != [] ==> rects == [extents]))
    }

    /** Storage is consistent, the boxes are banded and the extents exact. */
    ghost predicate Usable()
      reads this
    {
      Valid() && Exact(rects, extents)
    }

    /** Usable, and in canonical form. */
    ghost predicate Good()
      reads this
    {
      Usable() && Canonical(rects)
    }

    /** Usable, and canonical when that is asked for. */
    ghost predicate InForm(canonical: bool)
      reads this
    {
      Usable() && (canonical ==> Canonical(rects))
    }

    /** gdk_region_new: no boxes, stored in the extents record. */
    constructor ()
      ensures Good() && rects == [] && shared && size == 1 && extents == Box(0, 0, 0, 0)
    {
      rects, shared, size, extents := [], true, 1, Box(0, 0, 0, 0);
    }

    /** gdk_region_rectangle: empty unless both sides are positive. */
    constructor FromRectangle(r: Rectangle)
      ensures Good()
      ensures rects == if r.width > 0 && r.height > 0 then [Box(r.x, r.y, r.x + r.width, r.y + r.height)] else []
      ensures forall x, y :: In(rects, x, y) <==> r.x <= x < r.x + r.width && r.y <= y < r.y + r.height
    {
      rects, shared, size, extents := [], true, 1, Box(0, 0, 0, 0);
      new;
      if r.width > 0 && r.height > 0 {
        extents := BoxOf(r);
        rects := [extents];
        SingleBox(extents);
      }
      forall x, y ensures In(rects, x, y) <==> Inside(BoxOf(r), x, y) { InBox(BoxOf(r), x, y); }
    }

    /** A write through the box array, seen by `extents` while the two share storage. */
    method WriteBox(i: nat, b: Box)
      requires Valid() && i < |rects|
      modifies this
      ensures Valid() && rects == old(rects)[i := b]
      ensures extents == if shared then b else old(extents)
      ensures size == old(size) && shared == old(shared)
    {
      rects := rects[i := b];
      if shared { extents := b; }
    }
  }

  /** OGROWREGION: set the capacity to `n`, leaving or entering the shared representation. */
  method Grow(reg: Region, n: nat)
    requires reg.Valid() && |reg.rects| <= n
    modifies reg
    ensures reg.Valid() && reg.rects == old(reg.rects) && reg.extents == old(reg.extents)
    ensures reg.size == n && reg.shared == (n == 0)
  {
    reg.shared := n == 0;
    reg.size := n;
  }

  /** OMEMCHECK and the write after it: grow when one slot or none is left, then add a box. */
  method Append(reg: Region, b: Box)
    requires reg.Valid() && reg.size > 0
    modifies reg
    ensures reg.Valid() && reg.rects == old(reg.rects) + [b] && !reg.shared
    ensures reg.extents == old(reg.extents)
    ensures reg.size == if |old(reg.rects)| >= old(reg.size) - 1 then 2 * old(reg.size) else old(reg.size)
  {
    if |reg.rects| >= reg.size - 1 {
      Grow(reg, 2 * reg.size);
    }
    reg.rects := reg.rects + [b];
  }

  /** miRegionCopy: the target grows when too small; copying onto itself does nothing. */
  method Copy(dst: Region, src: Region)
    requires dst.Valid() && src.Valid()
    modifies dst
    ensures dst.Valid() && dst.rects == src.rects
    ensures src.Usable() ==> dst.Usable()
    ensures src.Good() ==> dst.Good()
    ensures src.Usable() && src.rects != [] ==> dst.extents == src.extents
  {
    if dst != src {
      if dst.size < |src.rects| {
        dst.shared := false;
        dst.size := |src.rects|;
      }
      dst.rects := src.rects;
      dst.extents := src.extents;
      if dst.shared && |src.rects| == 1 {
        dst.extents := src.rects[0];
      }
      if src.Usable() && |src.rects| == 1 { SingleExtents(src.rects, src.extents); }
    }
  }

  /** miSetExtents: recompute the bounding box from the boxes. */
  method SetExtents(reg: Region)
    requires reg.Valid() && Banded(reg.rects)
    modifies reg
    ensures reg.Valid() && reg.rects == old(reg.rects)
    ensures if reg.rects == [] then reg.extents == Box(0, 0, 0, 0) else Bounds(reg.rects, reg.extents)
  {
    var boxes := reg.rects;
    var n := |boxes|;
    if n == 0 {
      reg.extents := Box(0, 0, 0, 0);
      return;
    }
    reg.extents := Box(boxes[0].x1, boxes[0].y1, boxes[n - 1].x2, boxes[n - 1].y2);
    var i, left, right := 0, 0, n - 1;
    while i < n
      invariant 0 <= i <= n && 0 <= left < n && 0 <= right < n
      invariant reg.rects == boxes && reg.size == old(reg.size) && reg.shared == old(reg.shared)
      invariant reg.extents.y1 == boxes[0].y1 && reg.extents.y2 == boxes[n - 1].y2
      invariant reg.extents.x1 == boxes[left].x1 && reg.extents.x2 == boxes[right].x2
      invariant forall k :: 0 <= k < i ==> reg.extents.x1 <= boxes[k].x1 && boxes[k].x2 <= reg.extents.x2
    {
      if boxes[i].x1 < reg.extents.x1 {
        reg.extents := reg.extents.(x1 := boxes[i].x1);
        left := i;
      }
      if boxes[i].x2 > reg.extents.x2 {
        reg.extents := reg.extents.(x2 := boxes[i].x2);
        right := i;
      }
      i := i + 1;
    }
    BandedHeight(boxes);
    BoxesBound(boxes, reg.extents, left, right);
  }

  /** In a banded list the first top and the last bottom are extreme. */
  lemma BandedHeight(s: seq<Box>)
    requires Banded(s)
    ensures forall i :: 0 <= i < |s| ==> s[0].y1 <= s[i].y1 && s[i].y2 <= s[|s| - 1].y2
  {
    forall i | 0 <= i < |s| ensures s[0].y1 <= s[i].y1 && s[i].y2 <= s[|s| - 1].y2 {
      assert 0 < i ==> Precedes(s[0], s[i]) && Proper(s[0]);
      assert i < |s| - 1 ==> Precedes(s[i], s[|s| - 1]) && Proper(s[|s| - 1]);
    }
  }

  /** Extreme box sides are the extreme points. */
  lemma BoxesBound(s: seq<Box>, e: Box, left: nat, right: nat)
    requires left < |s| && right < |s| && forall i :: 0 <= i < |s| ==> Proper(s[i])
    requires forall i :: 0 <= i < |s| ==> s[0].y1 <= s[i].y1 && s[i].y2 <= s[|s| - 1].y2
    requires e == Box(s[left].x1, s[0].y1, s[right].x2, s[|s| - 1].y2)
    requires forall k :: 0 <= k < |s| ==> e.x1 <= s[k].x1 && s[k].x2 <= e.x2
    ensures Bounds(s, e)
  {
    var n := |s|;
    assert Inside(s[left], e.x1, s[left].y1) && Inside(s[right], e.x2 - 1, s[right].y1);
    assert Inside(s[0], s[0].x1, e.y1) && Inside(s[n - 1], s[n - 1].x1, e.y2 - 1);
    assert In(s, e.x1, s[left].y1) && In(s, e.x2 - 1, s[right].y1);
    assert In(s, s[0].x1, e.y1) && In(s, s[n - 1].x1, e.y2 - 1);
  }

  /** gdk_region_offset: move every box, and the extents unless the only box is the extents. */
  method Offset(reg: Region, dx: int, dy: int)
    requires reg.Valid()
    modifies reg
    ensures reg.Valid() && reg.rects == Shifted(old(reg.rects), dx, dy)
    ensures reg.rects != [] ==> reg.extents == Shift(old(reg.extents), dx, dy)
    ensures old(reg.Usable()) ==> reg.Usable()
    ensures old(reg.Good()) ==> reg.Good()
  {
    var boxes, n := reg.rects, |reg.rects|;
    var nbox := n;
    while nbox > 0
      invariant 0 <= nbox <= n && |reg.rects| == n && reg.Valid()
      invariant reg.size == old(reg.size) && reg.shared == old(reg.shared)
      invariant forall k :: 0 <= k < n - nbox ==> reg.rects[k] == Shift(boxes[k], dx, dy)
      invariant forall k :: n - nbox <= k < n ==> reg.rects[k] == boxes[k]
      invariant !reg.shared || nbox == n ==> reg.extents == old(reg.extents)
    {
      var k := n - nbox;
      nbox := nbox - 1;
      reg.WriteBox(k, Shift(reg.rects[k], dx, dy));
    }
    if !reg.shared {
      reg.extents := Shift(reg.extents, dx, dy);
    }
    assert reg.rects == Shifted(boxes, dx, dy);
    assert reg.shared && n > 0 ==> reg.extents == reg.rects[0] && boxes[0] == old(reg.extents);
    if old(reg.Usable()) { ShiftedExact(boxes, old(reg.extents), dx, dy); }
  }
}
