/** Half-open integer boxes, the point sets they cover, and single bands of boxes. */
module Boxes {

  /** A half-open box: the right column `x2` and the bottom row `y2` are outside. */
  datatype Box = Box(x1: int, y1: int, x2: int, y2: int)

  predicate Inside(b: Box, x: int, y: int) {
    b.x1 <= x < b.x2 && b.y1 <= y < b.y2
  }

  /** Point (x, y) is covered by some box of `s`. */
  ghost predicate In(s: seq<Box>, x: int, y: int) {
    exists i :: 0 <= i < |s| && Inside(s[i], x, y)
  }

  ghost predicate SamePoints(s: seq<Box>, t: seq<Box>) {
    forall x, y :: In(s, x, y) <==> In(t, x, y)
  }

  /** Column x lies in some box of `s` with index at least `k`, whatever the row. */
  ghost predicate CoversFrom(s: seq<Box>, k: int, x: int) {
    exists i :: 0 <= i < |s| && k <= i && s[i].x1 <= x < s[i].x2
  }

  ghost predicate Covers(s: seq<Box>, x: int) {
    CoversFrom(s, 0, x)
  }

  /** Boxes sorted by column that do not overlap; neighbours may touch. */
  ghost predicate Spread(s: seq<Box>) {
    && (forall i :: 0 <= i < |s| ==> s[i].x1 < s[i].x2)
    && (forall i, j :: 0 <= i < j < |s| ==> s[i].x2 <= s[j].x1)
  }

  /** At least one free column between neighbours. */
  ghost predicate Apart(s: seq<Box>) {
    forall i, j :: 0 <= i < j < |s| ==> s[i].x2 < s[j].x1
  }

  ghost predicate Rows(s: seq<Box>, y1: int, y2: int) {
    forall i :: 0 <= i < |s| ==> s[i].y1 == y1 && s[i].y2 == y2
  }

  /** One band: sorted boxes that all span the rows y1 (inclusive) to y2 (exclusive). */
  ghost predicate IsBand(s: seq<Box>, y1: int, y2: int) {
    Spread(s) && Rows(s, y1, y2)
  }

  ghost predicate SameColumns(s: seq<Box>, t: seq<Box>) {
    |s| == |t| && forall i :: 0 <= i < |s| ==> s[i].x1 == t[i].x1 && s[i].x2 == t[i].x2
  }

  lemma InConcat(s: seq<Box>, t: seq<Box>, x: int, y: int)
    ensures In(s + t, x, y) <==> In(s, x, y) || In(t, x, y)
  {
    if In(s, x, y) {
      var i :| 0 <= i < |s| && Inside(s[i], x, y);
      assert (s + t)[i] == s[i];
    }
    if In(t, x, y) {
      var i :| 0 <= i < |t| && Inside(t[i], x, y);
      assert (s + t)[|s| + i] == t[i];
    }
  }

  lemma CoversFromStep(s: seq<Box>, k: nat, x: int)
    requires k < |s|
    ensures CoversFrom(s, k, x) <==> s[k].x1 <= x < s[k].x2 || CoversFrom(s, k + 1, x)
  {
    if CoversFrom(s, k + 1, x) {
      var i :| 0 <= i < |s| && k + 1 <= i && s[i].x1 <= x < s[i].x2;
      assert CoversFrom(s, k, x);
    }
  }

  /** In a spread list everything from index k on lies right of box k - 1. */
  lemma CoversFromBeyond(s: seq<Box>, k: nat, x: int)
    requires Spread(s) && CoversFrom(s, k, x)
    ensures k < |s| && s[k].x1 <= x
    ensures forall i :: 0 <= i < k ==> s[i].x2 <= x
    ensures Apart(s) ==> forall i :: 0 <= i < k ==> s[i].x2 < x
  {
    var i :| 0 <= i < |s| && k <= i && s[i].x1 <= x < s[i].x2;
    if k < i { assert s[k].x2 <= s[i].x1; }
  }

  lemma InBand(s: seq<Box>, y1: int, y2: int, x: int, y: int)
    requires Rows(s, y1, y2)
    ensures In(s, x, y) <==> y1 <= y < y2 && Covers(s, x)
  {
    if In(s, x, y) {
      var i :| 0 <= i < |s| && Inside(s[i], x, y);
      assert 0 <= i && s[i].x1 <= x < s[i].x2;
    }
    if y1 <= y < y2 && Covers(s, x) {
      var i :| 0 <= i < |s| && 0 <= i && s[i].x1 <= x < s[i].x2;
      assert Inside(s[i], x, y);
    }
  }

  /** One-dimensional uniqueness: lists of boxes that stay apart have the same columns if they cover the same. */
  lemma {:induction false} SpreadUnique(s: seq<Box>, t: seq<Box>, k: nat)
    requires Spread(s) && Apart(s) && Spread(t) && Apart(t)
    requires k <= |s| && k <= |t|
    requires forall x :: CoversFrom(s, k, x) <==> CoversFrom(t, k, x)
    ensures |s| == |t|
    ensures forall i :: k <= i < |s| ==> s[i].x1 == t[i].x1 && s[i].x2 == t[i].x2
    decreases |s| - k
  {
    if k == |s| {
      if k < |t| {
        CoversFromStep(t, k, t[k].x1);
      }
    } else {
      CoversFromStep(s, k, s[k].x1);
      CoversFromBeyond(t, k, s[k].x1);
      CoversFromStep(t, k, t[k].x1);
      CoversFromBeyond(s, k, t[k].x1);
      FirstEndsTogether(s, t, k);
      FirstEndsTogether(t, s, k);
      var n := k + 1;
      forall x ensures CoversFrom(s, n, x) <==> CoversFrom(t, n, x) {
        CoversFromStep(s, k, x);
        CoversFromStep(t, k, x);
        if CoversFrom(s, n, x) { CoversFromBeyond(s, n, x); }
        if CoversFrom(t, n, x) { CoversFromBeyond(t, n, x); }
      }
      SpreadUnique(s, t, n);
    }
  }

  lemma FirstEndsTogether(s: seq<Box>, t: seq<Box>, k: nat)
    requires Spread(s) && Apart(s) && Spread(t) && Apart(t)
    requires k < |s| && k < |t| && s[k].x1 == t[k].x1
    requires forall x :: CoversFrom(s, k, x) <==> CoversFrom(t, k, x)
    ensures s[k].x2 <= t[k].x2
  {
    if t[k].x2 < s[k].x2 {
      CoversFromStep(s, k, t[k].x2);
      CoversFromStep(t, k, t[k].x2);
    }
  }
}
