/** PtsToRegion: the scan converter's point pairs turned into boxes, merging full rows downwards. */
module PointsToRegion {
  import opened Boxes
  import opened Banding
  import opened Geometry
  import opened Regions
  import opened Bresenham
  import opened EdgeTables

  /** NUMPTSTOBUFFER: how many points one block of the buffer holds. */
  const NUM_PTS_TO_BUFFER := 200

  predicate InRange(v: int) { SMALL_COORDINATE <= v <= LARGE_COORDINATE }

  /** Pair k lies on one row, runs left to right, and the next pair comes after it. */
  predicate PairOk(pts: seq<Point>, k: nat)
    requires 2 * k + 1 < |pts|
  {
    var p, q := pts[2 * k], pts[2 * k + 1];
    && p.y == q.y && p.x <= q.x && InRange(p.x) && InRange(q.x)
    && (2 * k + 2 < |pts| ==>
          var r := pts[2 * k + 2];
          p.y < r.y || (p.y == r.y && q.x <= r.x))
  }

  ghost predicate PairList(pts: seq<Point>) {
    |pts| % 2 == 0 && forall k {:trigger PairOk(pts, k)} :: 0 <= k < |pts| / 2 ==> PairOk(pts, k)
  }

  predicate PairHas(pts: seq<Point>, k: nat, x: int, y: int)
    requires 2 * k + 1 < |pts|
  {
    pts[2 * k].y == y && pts[2 * k].x <= x < pts[2 * k + 1].x
  }

  /** One of the first n pairs covers the point. */
  ghost predicate Paired(pts: seq<Point>, n: nat, x: int, y: int)
    requires 2 * n <= |pts|
  {
    exists k :: 0 <= k < n && PairHas(pts, k, x, y)
  }

  lemma PairedNext(pts: seq<Point>, n: nat, x: int, y: int)
    requires 2 * n + 2 <= |pts|
    ensures Paired(pts, n + 1, x, y) <==> Paired(pts, n, x, y) || PairHas(pts, n, x, y)
  {
    if Paired(pts, n, x, y) {
      var k :| 0 <= k < n && PairHas(pts, k, x, y);
      assert 0 <= k < n + 1 && PairHas(pts, k, x, y);
    }
  }

  function PairBox(pts: seq<Point>, k: nat): Box
    requires 2 * k + 1 < |pts|
  {
    Box(pts[2 * k].x, pts[2 * k].y, pts[2 * k + 1].x, pts[2 * k + 1].y + 1)
  }

  /** Another pair follows in the same block of the buffer. */
  predicate Follows(pts: seq<Point>, k: nat) {
    2 * k + 3 < |pts| && (k + 1) % (NUM_PTS_TO_BUFFER / 2) != 0
  }

  /** Pair k continues the last box, and the pair after it is known to start a later row. */
  predicate Merges(pts: seq<Point>, k: nat, s: seq<Box>)
    requires 2 * k + 1 < |pts|
  {
    && s != [] && (|s| == 1 || s[|s| - 2].y1 != s[|s| - 1].y1)
    && pts[2 * k].x == s[|s| - 1].x1 && pts[2 * k].y == s[|s| - 1].y2 && pts[2 * k + 1].x == s[|s| - 1].x2
    && Follows(pts, k) && pts[2 * k + 2].y > pts[2 * k + 1].y
  }

  /** The boxes after pair k: skip an empty pair, lengthen the last box, or start a new one. */
  function AfterPair(pts: seq<Point>, k: nat, s: seq<Box>): seq<Box>
    requires 2 * k + 1 < |pts|
  {
    if pts[2 * k].x == pts[2 * k + 1].x then s
    else if Merges(pts, k, s) then s[|s| - 1 := s[|s| - 1].(y2 := pts[2 * k + 1].y + 1)]
    else s + [PairBox(pts, k)]
  }

  function BoxesOf(pts: seq<Point>, n: nat): seq<Box>
    requires 2 * n <= |pts|
  {
    if n == 0 then [] else AfterPair(pts, n - 1, BoxesOf(pts, n - 1))
  }

  /** The next pair comes after everything the boxes cover. */
  predicate Ahead(last: Box, p: Point) {
    last.y2 <= p.y || (p.y == last.y1 == last.y2 - 1 && last.x2 <= p.x)
  }

  /** The boxes stand for the first n pairs, and `e` has their exact columns. */
  ghost predicate Converted(pts: seq<Point>, n: nat, s: seq<Box>, e: Box) {
    && 2 * n <= |pts| && s == BoxesOf(pts, n) && Banded(s)
    && (forall x, y {:trigger In(s, x, y)} :: In(s, x, y) <==> Paired(pts, n, x, y))
    && (s != [] && 2 * n < |pts| ==> Ahead(s[|s| - 1], pts[2 * n]))
    && ColumnsExact(s, e)
  }

  ghost predicate ColumnsExact(s: seq<Box>, e: Box) {
    && (forall k :: 0 <= k < |s| ==> e.x1 <= s[k].x1 && s[k].x2 <= e.x2)
    && (if s == [] then e.x1 == LARGE_COORDINATE && e.x2 == SMALL_COORDINATE
        else (exists k :: 0 <= k < |s| && s[k].x1 == e.x1) && (exists k :: 0 <= k < |s| && s[k].x2 == e.x2))
  }

  lemma SkipPair(pts: seq<Point>, n: nat, s: seq<Box>, e: Box)
    requires PairList(pts) && Converted(pts, n, s, e) && 2 * n < |pts|
    requires pts[2 * n].x == pts[2 * n + 1].x
    ensures Converted(pts, n + 1, s, e)
  {
    assert PairOk(pts, n);
    forall x, y ensures In(s, x, y) <==> Paired(pts, n + 1, x, y) { PairedNext(pts, n, x, y); }
  }

  /** Growing the last box by one row. */
  lemma GrownPoints(s: seq<Box>, x: int, y: int)
    requires s != [] && Proper(s[|s| - 1])
    ensures var b := s[|s| - 1];
            In(s[|s| - 1 := b.(y2 := b.y2 + 1)], x, y) <==> In(s, x, y) || (y == b.y2 && b.x1 <= x < b.x2)
  {
    var n := |s| - 1;
    var b := s[n];
    var t := s[n := b.(y2 := b.y2 + 1)];
    if In(t, x, y) {
      var i :| 0 <= i < |t| && Inside(t[i], x, y);
      assert Inside(s[i], x, y) || (i == n && y == b.y2);
    }
    if In(s, x, y) {
      var i :| 0 <= i < |s| && Inside(s[i], x, y);
      assert Inside(t[i], x, y);
    }
    if y == b.y2 && b.x1 <= x < b.x2 { assert Inside(t[n], x, y); }
  }

  /** A last box that is alone in its band may grow. */
  lemma GrownBanded(s: seq<Box>)
    requires Banded(s) && s != [] && (|s| == 1 || s[|s| - 2].y1 != s[|s| - 1].y1)
    ensures var b := s[|s| - 1]; Banded(s[|s| - 1 := b.(y2 := b.y2 + 1)])
  {
    var m := |s| - 1;
    var t := s[m := s[m].(y2 := s[m].y2 + 1)];
    forall i, j | 0 <= i < j < |t| ensures Precedes(t[i], t[j]) {
      assert Precedes(s[i], s[j]);
      if j == m {
        assert Precedes(s[m - 1], s[m]);
        assert i < m - 1 ==> Precedes(s[i], s[m - 1]);
        assert Proper(s[i]) && Proper(s[m - 1]);
      }
    }
  }

  lemma MergePair(pts: seq<Point>, n: nat, s: seq<Box>, e: Box)
    requires PairList(pts) && Converted(pts, n, s, e) && 2 * n < |pts|
    requires Merges(pts, n, s) && pts[2 * n].x != pts[2 * n + 1].x
    ensures Converted(pts, n + 1, s[|s| - 1 := s[|s| - 1].(y2 := pts[2 * n + 1].y + 1)], e)
  {
    var m := |s| - 1;
    var b := s[m];
    var t := s[m := b.(y2 := b.y2 + 1)];
    assert PairOk(pts, n);
    forall x, y ensures In(t, x, y) <==> Paired(pts, n + 1, x, y) {
      PairedNext(pts, n, x, y);
      GrownPoints(s, x, y);
    }
    GrownBanded(s);
    ColumnsKept(s, t, e);
    assert t == AfterPair(pts, n, s);
  }

  lemma ColumnsKept(s: seq<Box>, t: seq<Box>, e: Box)
    requires ColumnsExact(s, e) && SameColumns(s, t)
    ensures ColumnsExact(t, e)
  {
    if s != [] {
      var k :| 0 <= k < |s| && s[k].x1 == e.x1;
      var l :| 0 <= l < |s| && s[l].x2 == e.x2;
      assert t[k].x1 == e.x1 && t[l].x2 == e.x2;
    }
  }

  lemma ColumnsGrow(s: seq<Box>, b: Box, e: Box)
    requires ColumnsExact(s, e) && InRange(b.x1) && InRange(b.x2) && b.x1 < b.x2
    ensures ColumnsExact(s + [b], e.(x1 := Min(e.x1, b.x1), x2 := Max(e.x2, b.x2)))
  {
    var t := s + [b];
    assert t[|s|] == b;
    if s != [] {
      var k :| 0 <= k < |s| && s[k].x1 == e.x1;
      var l :| 0 <= l < |s| && s[l].x2 == e.x2;
      assert t[k].x1 == e.x1 && t[l].x2 == e.x2;
    }
  }

  lemma AddPair(pts: seq<Point>, n: nat, s: seq<Box>, e: Box)
    requires PairList(pts) && Converted(pts, n, s, e) && 2 * n < |pts|
    requires pts[2 * n].x != pts[2 * n + 1].x && !Merges(pts, n, s)
    ensures var b := PairBox(pts, n);
            Converted(pts, n + 1, s + [b], e.(x1 := Min(e.x1, b.x1), x2 := Max(e.x2, b.x2)))
  {
    var b := PairBox(pts, n);
    var t := s + [b];
    assert PairOk(pts, n);
    ColumnsGrow(s, b, e);
    forall x, y ensures In(t, x, y) <==> Paired(pts, n + 1, x, y) {
      PairedNext(pts, n, x, y);
      InConcat(s, [b], x, y);
      InBox(b, x, y);
    }
    forall i, j | 0 <= i < j < |t| ensures Precedes(t[i], t[j]) {
      if j < |s| {
        assert Precedes(s[i], s[j]);
      } else if i < |s| - 1 {
        assert Precedes(s[i], s[|s| - 1]) && Proper(s[i]) && Proper(s[|s| - 1]);
      }
    }
  }

  lemma PairConverted(pts: seq<Point>, n: nat, s: seq<Box>, e: Box) returns (e': Box)
    requires PairList(pts) && Converted(pts, n, s, e) && 2 * n < |pts|
    ensures Converted(pts, n + 1, AfterPair(pts, n, s), e')
  {
    if pts[2 * n].x == pts[2 * n + 1].x {
      e' := e;
      SkipPair(pts, n, s, e);
    } else if Merges(pts, n, s) {
      e' := e;
      MergePair(pts, n, s, e);
    } else {
      var b := PairBox(pts, n);
      e' := e.(x1 := Min(e.x1, b.x1), x2 := Max(e.x2, b.x2));
      AddPair(pts, n, s, e);
    }
  }

  /** The boxes of any number of pairs stand for those pairs. */
  lemma {:induction false} BoxesConverted(pts: seq<Point>, n: nat) returns (e: Box)
    requires PairList(pts) && 2 * n <= |pts|
    ensures Converted(pts, n, BoxesOf(pts, n), e)
  {
    if n == 0 {
      e := Box(LARGE_COORDINATE, 0, SMALL_COORDINATE, 0);
    } else {
      e := BoxesConverted(pts, n - 1);
      e := PairConverted(pts, n - 1, BoxesOf(pts, n - 1), e);
    }
  }

  lemma ConvertedBounds(pts: seq<Point>, s: seq<Box>, e: Box)
    requires Converted(pts, |pts| / 2, s, e) && s != []
    ensures Bounds(s, e.(y1 := s[0].y1, y2 := s[|s| - 1].y2))
  {
    var n := |s|;
    forall i | 0 <= i < n ensures s[0].y1 <= s[i].y1 && s[i].y2 <= s[n - 1].y2 {
      assert 0 < i ==> Precedes(s[0], s[i]) && Proper(s[0]);
      assert i < n - 1 ==> Precedes(s[i], s[n - 1]) && Proper(s[n - 1]);
    }
    var left :| 0 <= left < n && s[left].x1 == e.x1;
    var right :| 0 <= right < n && s[right].x2 == e.x2;
    BoxesBound(s, e.(y1 := s[0].y1, y2 := s[n - 1].y2), left, right);
  }

  /** The inner loop body of PtsToRegion for pair k, with `left` pairs following in its block. */
  method ConvertPair(pts: seq<Point>, k: nat, left: nat, s: seq<Box>, e: Box) returns (s': seq<Box>, e': Box)
    requires PairList(pts) && 2 * (k + left) + 2 <= |pts| && (left != 0 <==> Follows(pts, k))
    requires Converted(pts, k, s, e)
    ensures Converted(pts, k + 1, s', e')
    ensures |s'| <= |s| + 1
  {
    s', e' := s, e;
    var p, n := 2 * k, |s|;
    assert PairOk(pts, k);
    if pts[p].x == pts[p + 1].x {
      SkipPair(pts, k, s, e);
    } else if n != 0 && pts[p].x == s[n - 1].x1 && pts[p].y == s[n - 1].y2 && pts[p + 1].x == s[n - 1].x2 &&
              (n == 1 || s[n - 2].y1 != s[n - 1].y1) && (left != 0 && pts[p + 2].y > pts[p + 1].y) {
      MergePair(pts, k, s, e);
      s' := s[n - 1 := s[n - 1].(y2 := pts[p + 1].y + 1)];
    } else {
      AddPair(pts, k, s, e);
      s' := s + [Box(pts[p].x, pts[p].y, pts[p + 1].x, pts[p + 1].y + 1)];
      if pts[p].x < e'.x1 { e' := e'.(x1 := pts[p].x); }
      if pts[p + 1].x > e'.x2 { e' := e'.(x2 := pts[p + 1].x); }
    }
  }

  /** While pairs are left in a block, the pair at hand is followed by one. */
  lemma BlockFollows(pts: seq<Point>, first: nat, count: nat, j: nat)
    requires |pts| % 2 == 0 && 2 * (first + count) <= |pts| && j < count && BlockAt(pts, first, count)
    ensures j + 1 < count <==> Follows(pts, first + j)
  {
    assert (first + (j + 1)) % 100 == (j + 1) % 100;
  }

  /** A block is full or the last one. */
  predicate BlockAt(pts: seq<Point>, first: nat, count: nat) {
    && first % (NUM_PTS_TO_BUFFER / 2) == 0
    && (count == NUM_PTS_TO_BUFFER / 2 || (count < NUM_PTS_TO_BUFFER / 2 && 2 * (first + count) == |pts|))
  }

  /** The pairs of one block, of which `first` pairs were converted before. */
  method ConvertBlock(pts: seq<Point>, first: nat, count: nat, s: seq<Box>, e: Box) returns (s': seq<Box>, e': Box)
    requires PairList(pts) && 2 * (first + count) <= |pts| && BlockAt(pts, first, count) && Converted(pts, first, s, e)
    ensures Converted(pts, first + count, s', e') && |s'| <= |s| + count
  {
    s', e' := s, e;
    var k, i := first, count;
    while i != 0
      invariant 0 <= i <= count && k + i == first + count
      invariant Converted(pts, k, s', e') && |s'| + i <= |s| + count
    {
      i := i - 1;
      BlockFollows(pts, first, count, count - i - 1);
      s', e' := ConvertPair(pts, k, i, s', e');
      k := k + 1;
    }
  }

  /** All blocks: full ones of a fixed number of points, then the one begun last. */
  method ConvertBlocks(pts: seq<Point>, full: nat, iCurPtBlock: nat) returns (s: seq<Box>, e: Box)
    requires PairList(pts) && |pts| == full * NUM_PTS_TO_BUFFER + iCurPtBlock && iCurPtBlock < NUM_PTS_TO_BUFFER
    ensures Converted(pts, |pts| / 2, s, e) && |s| <= |pts| / 2
  {
    e := Box(LARGE_COORDINATE, 0, SMALL_COORDINATE, 0);
    s := [];
    var numFullPtBlocks, k := full, 0;
    while numFullPtBlocks >= 0
      invariant -1 <= numFullPtBlocks && 0 <= k
      invariant 2 * k == |pts| - if numFullPtBlocks >= 0 then numFullPtBlocks * NUM_PTS_TO_BUFFER + iCurPtBlock else 0
      invariant Converted(pts, k, s, e) && |s| <= k
    {
      var i := NUM_PTS_TO_BUFFER / 2;
      if numFullPtBlocks == 0 { i := iCurPtBlock / 2; }
      s, e := ConvertBlock(pts, k, i, s, e);
      k := k + i;
      numFullPtBlocks := numFullPtBlocks - 1;
    }
  }

  /** PtsToRegion on a new region: block by block, pair by pair. */
  method PtsToRegion(pts: seq<Point>, reg: Region)
    requires PairList(pts) && reg.Valid() && reg.rects == []
    modifies reg
    ensures reg.Usable() && reg.rects == BoxesOf(pts, |pts| / 2)
    ensures forall x, y {:trigger In(reg.rects, x, y)} :: In(reg.rects, x, y) <==> Paired(pts, |pts| / 2, x, y)
    ensures if reg.rects == [] then reg.extents == Box(0, 0, 0, 0) else Bounds(reg.rects, reg.extents)
  {
    var numFullPtBlocks, iCurPtBlock := |pts| / NUM_PTS_TO_BUFFER, |pts| % NUM_PTS_TO_BUFFER;
    Grow(reg, (numFullPtBlocks * NUM_PTS_TO_BUFFER + iCurPtBlock) / 2);
    var s, e := ConvertBlocks(pts, numFullPtBlocks, iCurPtBlock);
    if s != [] {
      ConvertedBounds(pts, s, e);
      e := e.(y1 := s[0].y1, y2 := s[|s| - 1].y2);
    } else {
      e := Box(0, 0, 0, 0);
    }
    reg.extents := e;
    reg.rects := s;
  }
}
