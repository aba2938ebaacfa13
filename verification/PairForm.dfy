/** Exactly when the boxes that a scan conversion makes of its point pairs are in canonical form. */
module PairForm {
  import opened Boxes
  import opened Banding
  import opened Bresenham
  import opened EdgeTables
  import opened PointsToRegion

  /** Pair k has a column in it. */
  predicate Solid(pts: seq<Point>, k: nat)
    requires 2 * k + 1 < |pts|
  {
    pts[2 * k].x != pts[2 * k + 1].x
  }

  /** Pair k starts a box of its own. */
  predicate Starts(pts: seq<Point>, k: nat)
    requires 2 * k + 1 < |pts|
  {
    Solid(pts, k) && !Merges(pts, k, BoxesOf(pts, k))
  }

  predicate Made(pts: seq<Point>, k: nat, b: Box)
    requires 2 * k + 1 < |pts|
  {
    b.x1 == pts[2 * k].x && b.x2 == pts[2 * k + 1].x && b.y1 == pts[2 * k].y
  }

  lemma {:induction false} PairsOrdered(pts: seq<Point>, k: nat, l: nat)
    requires PairList(pts) && k < l < |pts| / 2
    ensures pts[2 * k].y <= pts[2 * l].y
    ensures pts[2 * k].y == pts[2 * l].y ==> pts[2 * k + 1].x <= pts[2 * l].x
    decreases l
  {
    assert PairOk(pts, k) && PairOk(pts, l - 1);
    if k < l - 1 { PairsOrdered(pts, k, l - 1); }
  }

  /** Every box was started by a pair. */
  lemma {:induction false} BoxFromPair(pts: seq<Point>, n: nat, i: nat) returns (k: nat)
    requires 2 * n <= |pts| && i < |BoxesOf(pts, n)|
    ensures k < n && Starts(pts, k) && Made(pts, k, BoxesOf(pts, n)[i])
  {
    if i < |BoxesOf(pts, n - 1)| {
      k := BoxFromPair(pts, n - 1, i);
    } else {
      k := n - 1;
    }
  }

  /** Every pair that starts a box is still seen in it at the end. */
  lemma {:induction false} PairHasBox(pts: seq<Point>, n: nat, k: nat) returns (i: nat)
    requires 2 * n <= |pts| && k < n && Starts(pts, k)
    ensures i < |BoxesOf(pts, n)| && Made(pts, k, BoxesOf(pts, n)[i])
  {
    if k == n - 1 {
      i := |BoxesOf(pts, n - 1)|;
    } else {
      i := PairHasBox(pts, n - 1, k);
    }
  }

  // No two boxes of a band touch.

  predicate Gap(pts: seq<Point>, k: nat, l: nat)
    requires 2 * k + 1 < |pts| && 2 * l + 1 < |pts|
  {
    Solid(pts, k) && Solid(pts, l) && pts[2 * k].y == pts[2 * l].y ==> pts[2 * k + 1].x < pts[2 * l].x
  }

  /** No pair begins where an earlier pair of its row ends, empty pairs aside. */
  ghost predicate Gaps(pts: seq<Point>) {
    forall k: nat, l: nat {:trigger Gap(pts, k, l)} :: k < l < |pts| / 2 ==> Gap(pts, k, l)
  }

  /** Two pairs of one row both start a box. */
  lemma RowStarts(pts: seq<Point>, k: nat, l: nat)
    requires PairList(pts) && k < l < |pts| / 2 && Solid(pts, k) && Solid(pts, l) && pts[2 * k].y == pts[2 * l].y
    ensures Starts(pts, k) && Starts(pts, l)
  {
    if k + 1 < l { PairsOrdered(pts, k + 1, l); }
    assert PairOk(pts, k);
    NoRoom(pts, k, l);
  }

  /** A pair cannot continue a box when its row has boxes already. */
  lemma NoRoom(pts: seq<Point>, k: nat, l: nat)
    requires PairList(pts) && k < l < |pts| / 2 && Solid(pts, k) && pts[2 * k].y == pts[2 * l].y
    ensures !Merges(pts, l, BoxesOf(pts, l))
  {
    var s := BoxesOf(pts, l);
    var e := BoxesConverted(pts, l);
    var x, y := pts[2 * k].x, pts[2 * k].y;
    assert PairOk(pts, k) && PairHas(pts, k, x, y);
    assert Paired(pts, l, x, y) && In(s, x, y);
    var i :| 0 <= i < |s| && Inside(s[i], x, y);
    if i < |s| - 1 { assert Precedes(s[i], s[|s| - 1]) && Proper(s[|s| - 1]); }
  }

  lemma SeparateGaps(pts: seq<Point>)
    requires PairList(pts) && Separated(BoxesOf(pts, |pts| / 2))
    ensures Gaps(pts)
  {
    var n := |pts| / 2;
    var s := BoxesOf(pts, n);
    var e := BoxesConverted(pts, n);
    forall k: nat, l: nat | k < l < n ensures Gap(pts, k, l) {
      PairsOrdered(pts, k, l);
      if Solid(pts, k) && Solid(pts, l) && pts[2 * k].y == pts[2 * l].y {
        RowStarts(pts, k, l);
        var i := PairHasBox(pts, n, k);
        var j := PairHasBox(pts, n, l);
        assert PairOk(pts, k) && PairOk(pts, l) && i != j;
        assert Proper(s[i]) && Proper(s[j]);
        assert (i < j ==> Clear(s[i], s[j])) && (j < i ==> Precedes(s[j], s[i]));
      }
    }
  }

  // No two bands are left unmerged.

  /** Row y covers the same columns as the row above it. */
  ghost predicate Repeats(s: seq<Box>, y: int) {
    forall x :: In(s, x, y - 1) <==> In(s, x, y)
  }

  lemma TopsAscend(s: seq<Box>, d: int, c: int)
    requires Banded(s) && 0 <= d < c < |s| && s[c - 1].y1 != s[c].y1
    ensures s[d].y1 < s[c].y1
  {
    assert Proper(s[d]) && Proper(s[c - 1]) && Precedes(s[c - 1], s[c]);
    if d < c - 1 { assert Precedes(s[d], s[c - 1]); }
  }

  /** A box that covers the row above another box's top stands in the band just before that box's band. */
  lemma BandAbove(s: seq<Box>, c: int, j: int) returns (p: int)
    requires Banded(s) && 0 <= j < |s| && 0 <= c < |s| && (c == 0 || s[c - 1].y1 != s[c].y1)
    requires s[j].y1 < s[c].y1 <= s[j].y2
    ensures BandAt(s, p, c) && s[p].y1 == s[j].y1 && s[p].y2 == s[c].y1
  {
    assert j < c by { assert c < j ==> Precedes(s[c], s[j]); }
    assert s[j].y2 == s[c].y1 by { assert Precedes(s[j], s[c]); }
    var d := BandEnd(s, j);
    p := j;
    while p > 0 && s[p - 1].y1 == s[j].y1
      invariant 0 <= p <= j && forall i :: p <= i <= j ==> s[i].y1 == s[j].y1
    {
      p := p - 1;
    }
    assert forall i :: j <= i < d ==> s[i].y1 == s[j].y1;
    assert BandAt(s, p, d);
    BandIsBand(s, p, d);
    if d < c { TopsAscend(s, d, c); }
  }

  lemma RepeatsMergeable(s: seq<Box>, i: int)
    requires Banded(s) && Separated(s) && 0 <= i < |s| && Repeats(s, s[i].y1)
    ensures !Unmerged(s)
  {
    var y := s[i].y1;
    var c := i;
    while c > 0 && s[c - 1].y1 == y
      invariant 0 <= c <= i && s[c].y1 == y
    {
      c := c - 1;
    }
    var e := BandEnd(s, c);
    assert Proper(s[c]) && Inside(s[c], s[c].x1, y) && In(s, s[c].x1, y) && In(s, s[c].x1, y - 1);
    var j :| 0 <= j < |s| && Inside(s[j], s[c].x1, y - 1);
    var p := BandAbove(s, c, j);
    BandIsBand(s, p, c);
    BandIsBand(s, c, e);
    var u, v := s[p..c], s[c..e];
    forall x ensures CoversFrom(u, 0, x) <==> CoversFrom(v, 0, x) {
      RowOfBand(s, p, c, x, y - 1);
      RowOfBand(s, c, e, x, y);
    }
    SpreadUnique(u, v, 0);
    assert Mergeable(s, p, c, e);
  }

  lemma MergeableRepeats(s: seq<Box>, p: int, c: int, e: int)
    requires Banded(s) && BandAt(s, p, c) && BandAt(s, c, e) && Mergeable(s, p, c, e)
    ensures Repeats(s, s[c].y1)
  {
    var u, v := s[p..c], s[c..e];
    assert Proper(s[p]) && Proper(s[c]);
    forall x ensures In(s, x, s[c].y1 - 1) <==> In(s, x, s[c].y1) {
      RowOfBand(s, p, c, x, s[c].y1 - 1);
      RowOfBand(s, c, e, x, s[c].y1);
      assert Covers(u, x) <==> Covers(v, x);
    }
  }

  lemma UnmergedByRows(s: seq<Box>)
    requires Banded(s) && Separated(s)
    ensures Unmerged(s) <==> forall i :: 0 <= i < |s| ==> !Repeats(s, s[i].y1)
  {
    forall i | 0 <= i < |s| && Repeats(s, s[i].y1) ensures !Unmerged(s) { RepeatsMergeable(s, i); }
    forall p, c, e | BandAt(s, p, c) && BandAt(s, c, e) && Mergeable(s, p, c, e) ensures Repeats(s, s[c].y1) {
      MergeableRepeats(s, p, c, e);
    }
  }

  // When a pair is merged.

  /** Rows y - 1 and y have the same inside columns. */
  ghost predicate SameRows(pts: seq<Point>, y: int)
    requires |pts| % 2 == 0
  {
    forall x :: Paired(pts, |pts| / 2, x, y - 1) <==> Paired(pts, |pts| / 2, x, y)
  }

  predicate Later(pts: seq<Point>, j: nat, k: nat)
    requires 2 * j + 1 < |pts| && 2 * k + 1 < |pts|
  {
    Solid(pts, j) ==> pts[2 * j].y < pts[2 * k].y
  }

  /** Pair k is the only one of its row with a column, and a pair of a later row is next in its block. */
  ghost predicate Alone(pts: seq<Point>, k: nat)
    requires 2 * k + 1 < |pts|
  {
    && Follows(pts, k) && pts[2 * k + 2].y > pts[2 * k].y
    && forall j: nat {:trigger Later(pts, j, k)} :: j < k ==> Later(pts, j, k)
  }

  /** Before pair k, the rows above its row are complete. */
  lemma RowsComplete(pts: seq<Point>, k: nat, x: int, y: int)
    requires PairList(pts) && k < |pts| / 2 && y < pts[2 * k].y
    ensures Paired(pts, k, x, y) <==> Paired(pts, |pts| / 2, x, y)
  {
    if Paired(pts, |pts| / 2, x, y) {
      var j :| 0 <= j < |pts| / 2 && PairHas(pts, j, x, y);
      if k < j { PairsOrdered(pts, k, j); }
    }
  }

  lemma MergedIsAlone(pts: seq<Point>, k: nat)
    requires PairList(pts) && k < |pts| / 2 && Solid(pts, k) && Merges(pts, k, BoxesOf(pts, k))
    ensures Alone(pts, k)
  {
    assert PairOk(pts, k);
    forall j: nat | j < k ensures Later(pts, j, k) {
      PairsOrdered(pts, j, k);
      if Solid(pts, j) && pts[2 * j].y == pts[2 * k].y { NoRoom(pts, j, k); }
    }
  }

  /** Below row y nothing has been filled before the first solid pair of that row. */
  lemma BoxesEndAbove(pts: seq<Point>, k: nat, s: seq<Box>, i: int)
    requires PairList(pts) && k < |pts| / 2 && Alone(pts, k) && s == BoxesOf(pts, k) && 0 <= i < |s|
    ensures s[i].y2 <= pts[2 * k].y
  {
    var e := BoxesConverted(pts, k);
    assert Proper(s[i]) && Inside(s[i], s[i].x1, s[i].y2 - 1) && In(s, s[i].x1, s[i].y2 - 1);
    assert Paired(pts, k, s[i].x1, s[i].y2 - 1);
    var j :| 0 <= j < k && PairHas(pts, j, s[i].x1, s[i].y2 - 1);
    assert Later(pts, j, k);
  }

  /** A pair alone in its row, under a row with the same columns, continues the last box. */
  lemma AloneMerges(pts: seq<Point>, k: nat)
    requires PairList(pts) && k < |pts| / 2 && Solid(pts, k) && Alone(pts, k)
    requires Separated(BoxesOf(pts, k)) && SameRows(pts, pts[2 * k].y)
    ensures Merges(pts, k, BoxesOf(pts, k))
  {
    var s, y := BoxesOf(pts, k), pts[2 * k].y;
    var e := BoxesConverted(pts, k);
    assert PairOk(pts, k);
    forall x {:trigger In(s, x, y - 1)} ensures In(s, x, y - 1) <==> pts[2 * k].x <= x < pts[2 * k + 1].x {
      RowAbove(pts, k, x);
    }
    forall i | 0 <= i < |s| ensures s[i].y2 <= y { BoxesEndAbove(pts, k, s, i); }
    var n := |s|;
    assert In(s, pts[2 * k].x, y - 1);
    var j :| 0 <= j < n && Inside(s[j], pts[2 * k].x, y - 1);
    LastBandIs(s, j, y - 1, pts[2 * k].x, pts[2 * k + 1].x);
  }

  lemma RowAbove(pts: seq<Point>, k: nat, x: int)
    requires PairList(pts) && k < |pts| / 2 && Solid(pts, k) && Alone(pts, k) && SameRows(pts, pts[2 * k].y)
    ensures Paired(pts, k, x, pts[2 * k].y - 1) <==> pts[2 * k].x <= x < pts[2 * k + 1].x
  {
    var n, y := |pts| / 2, pts[2 * k].y;
    RowsComplete(pts, k, x, y - 1);
    assert Paired(pts, n, x, y - 1) <==> Paired(pts, n, x, y);
    if Paired(pts, n, x, y) {
      var j :| 0 <= j < n && PairHas(pts, j, x, y);
      assert j < k ==> Later(pts, j, k);
      if k + 1 < j { PairsOrdered(pts, k + 1, j); }
    }
    if pts[2 * k].x <= x < pts[2 * k + 1].x { assert PairHas(pts, k, x, y); }
  }

  /** Boxes that stay apart and cover one run of columns on the last row are one box. */
  lemma LastBandIs(s: seq<Box>, j: int, y: int, left: int, right: int)
    requires Banded(s) && Separated(s) && 0 <= j < |s| && Inside(s[j], left, y)
    requires forall i :: 0 <= i < |s| ==> s[i].y2 <= y + 1
    requires forall x :: In(s, x, y) <==> left <= x < right
    ensures s[|s| - 1].x1 == left && s[|s| - 1].x2 == right && s[|s| - 1].y2 == y + 1
    ensures |s| == 1 || s[|s| - 2].y1 != s[|s| - 1].y1
  {
    var n := |s|;
    assert s[n - 1].y1 == s[j].y1 by { assert j < n - 1 ==> Precedes(s[j], s[n - 1]) && Proper(s[n - 1]); }
    var p := n - 1;
    while p > 0 && s[p - 1].y1 == s[n - 1].y1
      invariant 0 <= p <= n - 1 && forall i :: p <= i < n ==> s[i].y1 == s[n - 1].y1
    {
      p := p - 1;
    }
    BandIsBand(s, p, n);
    assert In(s, left, y);
    var u, v := s[p..n], [Box(left, y, right, y + 1)];
    forall x ensures CoversFrom(u, 0, x) <==> CoversFrom(v, 0, x) {
      RowOfBand(s, p, n, x, y);
      assert v[0].x1 == left && v[0].x2 == right;
    }
    SpreadUnique(u, v, 0);
    assert u[0] == s[p];
  }

  // Both together.

  /**
   * What makes the output canonical: pairs of a row keep a gap, and a pair whose row has the same columns
   * as the row above is the only one of its row, with the first pair of a later row next in its block.
   */
  ghost predicate Tidy(pts: seq<Point>)
    requires |pts| % 2 == 0
  {
    && Gaps(pts)
    && forall k: nat {:trigger Alone(pts, k)} ::
         k < |pts| / 2 && Solid(pts, k) && SameRows(pts, pts[2 * k].y) ==> Alone(pts, k)
  }

  /** The boxes of the first pairs are apart when all are. */
  lemma PrefixSeparated(pts: seq<Point>, k: nat)
    requires PairList(pts) && Gaps(pts) && k <= |pts| / 2
    ensures Separated(BoxesOf(pts, k))
  {
    var s := BoxesOf(pts, k);
    var e := BoxesConverted(pts, k);
    forall i, j | 0 <= i < j < |s| ensures Clear(s[i], s[j]) {
      var m := BoxFromPair(pts, k, i);
      var l := BoxFromPair(pts, k, j);
      assert Precedes(s[i], s[j]) && Proper(s[i]) && Proper(s[j]);
      if m < l { assert Gap(pts, m, l); }
      if l < m { PairsOrdered(pts, l, m); }
    }
  }

  lemma RowsOfBoxes(pts: seq<Point>, y: int)
    requires PairList(pts)
    ensures SameRows(pts, y) <==> Repeats(BoxesOf(pts, |pts| / 2), y)
  {
    var e := BoxesConverted(pts, |pts| / 2);
    var s := BoxesOf(pts, |pts| / 2);
    forall x ensures (In(s, x, y) <==> Paired(pts, |pts| / 2, x, y)) &&
                     (In(s, x, y - 1) <==> Paired(pts, |pts| / 2, x, y - 1)) {}
  }

  /** The boxes of a pair list are in canonical form exactly when the list is tidy. */
  lemma CanonicalIffTidy(pts: seq<Point>)
    requires PairList(pts)
    ensures Canonical(BoxesOf(pts, |pts| / 2)) <==> Tidy(pts)
  {
    var n := |pts| / 2;
    var s := BoxesOf(pts, n);
    var e := BoxesConverted(pts, n);
    if Canonical(s) {
      SeparateGaps(pts);
      UnmergedByRows(s);
      forall k: nat | k < n && Solid(pts, k) && SameRows(pts, pts[2 * k].y) ensures Alone(pts, k) {
        UnmergedPair(pts, k);
      }
    }
    if Tidy(pts) {
      PrefixSeparated(pts, n);
      UnmergedByRows(s);
      forall i | 0 <= i < |s| ensures !Repeats(s, s[i].y1) { TidyTop(pts, i); }
    }
  }

  lemma StartedTop(pts: seq<Point>, k: nat)
    requires PairList(pts) && k < |pts| / 2 && Starts(pts, k) && SameRows(pts, pts[2 * k].y)
    ensures var s := BoxesOf(pts, |pts| / 2); exists i :: 0 <= i < |s| && Repeats(s, s[i].y1)
  {
    RowsOfBoxes(pts, pts[2 * k].y);
    var i := PairHasBox(pts, |pts| / 2, k);
    assert BoxesOf(pts, |pts| / 2)[i].y1 == pts[2 * k].y;
  }

  lemma UnmergedPair(pts: seq<Point>, k: nat)
    requires PairList(pts) && k < |pts| / 2 && Solid(pts, k) && SameRows(pts, pts[2 * k].y)
    requires var s := BoxesOf(pts, |pts| / 2); forall i :: 0 <= i < |s| ==> !Repeats(s, s[i].y1)
    ensures Alone(pts, k)
  {
    if Starts(pts, k) { StartedTop(pts, k); } else { MergedIsAlone(pts, k); }
  }

  lemma TidyTop(pts: seq<Point>, i: nat)
    requires PairList(pts) && Tidy(pts) && i < |BoxesOf(pts, |pts| / 2)|
    ensures !Repeats(BoxesOf(pts, |pts| / 2), BoxesOf(pts, |pts| / 2)[i].y1)
  {
    var k := BoxFromPair(pts, |pts| / 2, i);
    RowsOfBoxes(pts, pts[2 * k].y);
    PrefixSeparated(pts, k);
    if SameRows(pts, pts[2 * k].y) && Alone(pts, k) { AloneMerges(pts, k); }
  }
}
