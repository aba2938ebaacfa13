/** The y-x-banded form of boxes, its canonical form, and that the points covered determine the canonical form. */
module Banding {
  import opened Boxes

  predicate Proper(b: Box) {
    b.x1 < b.x2 && b.y1 < b.y2
  }

  /** `a` may stand before `b`: left of it in the same band, or in a band above. */
  predicate Precedes(a: Box, b: Box) {
    || (a.y1 == b.y1 && a.y2 == b.y2 && a.x2 <= b.x1)
    || a.y2 <= b.y1
  }

  /** Sorted and disjoint, in bands; the boxes of a band may touch and bands need not be merged. */
  ghost predicate Banded(s: seq<Box>) {
    && (forall i :: 0 <= i < |s| ==> Proper(s[i]))
    && (forall i, j {:trigger Precedes(s[i], s[j])} :: 0 <= i < j < |s| ==> Precedes(s[i], s[j]))
  }

  /** s[p..c] is one whole band of `s`. */
  ghost predicate BandAt(s: seq<Box>, p: int, c: int) {
    && 0 <= p < c <= |s|
    && (forall i :: p <= i < c ==> s[i].y1 == s[p].y1)
    && (p == 0 || s[p - 1].y1 != s[p].y1)
    && (c == |s| || s[c].y1 != s[p].y1)
  }

  /** The bands s[p..c] and s[c..e] touch and have the same columns. */
  ghost predicate Mergeable(s: seq<Box>, p: int, c: int, e: int) {
    && 0 <= p < c < e <= |s|
    && s[p].y2 == s[c].y1
    && SameColumns(s[p..c], s[c..e])
  }

  ghost predicate Unmerged(s: seq<Box>) {
    forall p, c, e :: BandAt(s, p, c) && BandAt(s, c, e) ==> !Mergeable(s, p, c, e)
  }

  /** Boxes of one band leave a free column between them. */
  predicate Clear(a: Box, b: Box) {
    a.y1 == b.y1 ==> a.x2 < b.x1
  }

  ghost predicate Separated(s: seq<Box>) {
    forall i, j {:trigger Clear(s[i], s[j])} :: 0 <= i < j < |s| ==> Clear(s[i], s[j])
  }

  ghost predicate Canonical(s: seq<Box>) {
    Banded(s) && Separated(s) && Unmerged(s)
  }

  /** Banded, and canonical when that is asked for: operations keep either form. */
  ghost predicate Form(s: seq<Box>, canonical: bool) {
    if canonical then Canonical(s) else Banded(s)
  }

  /** The index just after the run of boxes from `k` on whose top is `y`. */
  function RunEnd(s: seq<Box>, k: nat, y: int): (e: nat)
    requires k <= |s|
    ensures k <= e <= |s|
    ensures forall i :: k <= i < e ==> s[i].y1 == y
    ensures e == |s| || s[e].y1 != y
    decreases |s| - k
  {
    if k < |s| && s[k].y1 == y then RunEnd(s, k + 1, y) else k
  }

  function BandEnd(s: seq<Box>, p: nat): (e: nat)
    requires p < |s|
    ensures p < e <= |s|
    ensures p == 0 || s[p - 1].y1 != s[p].y1 ==> BandAt(s, p, e)
  {
    RunEnd(s, p, s[p].y1)
  }

  lemma BandIsBand(s: seq<Box>, p: int, c: int)
    requires Banded(s) && BandAt(s, p, c)
    ensures IsBand(s[p..c], s[p].y1, s[p].y2) && (Separated(s) ==> Apart(s[p..c]))
    ensures forall i :: p <= i < c ==> s[i].y1 == s[p].y1 && s[i].y2 == s[p].y2
    ensures forall i :: 0 <= i < p ==> s[i].y2 <= s[p].y1
    ensures forall i :: c <= i < |s| ==> s[p].y2 <= s[i].y1
  {
    var b := s[p..c];
    forall i | p <= i < c ensures s[i].y2 == s[p].y2 {
      assert Proper(s[p]);
      if p < i { assert Precedes(s[p], s[i]); }
    }
    forall i | 0 <= i < |b| ensures b[i] == s[p + i] && b[i].x1 < b[i].x2 {
      assert Proper(s[p + i]);
    }
    forall i, j | 0 <= i < j < |b| ensures b[i].x2 <= b[j].x1 && (Separated(s) ==> b[i].x2 < b[j].x1) {
      assert Precedes(s[p + i], s[p + j]);
      assert Separated(s) ==> Clear(s[p + i], s[p + j]);
    }
    if 0 < p { assert Precedes(s[p - 1], s[p]) && Proper(s[p - 1]); }
    forall i | 0 <= i < p ensures s[i].y2 <= s[p].y1 {
      if i < p - 1 { assert Precedes(s[i], s[p - 1]); }
    }
    if c < |s| { assert Precedes(s[c - 1], s[c]); }
    forall i | c <= i < |s| ensures s[p].y2 <= s[i].y1 {
      if c < i { assert Precedes(s[c], s[i]) && Proper(s[c]); }
    }
  }

  /** What a banded list covers on the rows of one of its bands. */
  lemma RowOfBand(s: seq<Box>, p: int, c: int, x: int, y: int)
    requires Banded(s) && BandAt(s, p, c)
    requires s[p].y1 <= y < s[p].y2
    ensures In(s, x, y) <==> Covers(s[p..c], x)
  {
    BandIsBand(s, p, c);
    InBand(s[p..c], s[p].y1, s[p].y2, x, y);
    if In(s, x, y) {
      var i :| 0 <= i < |s| && Inside(s[i], x, y);
      assert p <= i < c;
      assert s[p..c][i - p] == s[i];
    }
    if In(s[p..c], x, y) {
      var i :| 0 <= i < c - p && Inside(s[p..c][i], x, y);
      assert s[p + i] == s[p..c][i];
    }
  }

  /** Cutting a list after its first band cuts the points at that band's bottom. */
  lemma TailPoints(s: seq<Box>, n: int, x: int, y: int)
    requires Banded(s) && BandAt(s, 0, n)
    ensures In(s[n..], x, y) <==> In(s, x, y) && s[0].y2 <= y
  {
    BandIsBand(s, 0, n);
    if In(s[n..], x, y) {
      var i :| 0 <= i < |s| - n && Inside(s[n..][i], x, y);
      assert s[n + i] == s[n..][i];
    }
    if In(s, x, y) && s[0].y2 <= y {
      var i :| 0 <= i < |s| && Inside(s[i], x, y);
      assert s[n..][i - n] == s[i];
    }
  }

  /** What follows a whole number of bands keeps the form. */
  lemma SuffixForm(s: seq<Box>, n: nat, canonical: bool)
    requires Form(s, canonical) && n <= |s|
    requires n == 0 || n == |s| || s[n - 1].y1 != s[n].y1
    ensures Form(s[n..], canonical)
  {
    var t := s[n..];
    forall i | 0 <= i < |t| ensures Proper(t[i]) { assert t[i] == s[n + i]; }
    forall i, j | 0 <= i < j < |t| ensures Precedes(t[i], t[j]) && (canonical ==> Clear(t[i], t[j])) {
      assert t[i] == s[n + i] && t[j] == s[n + j];
      assert Precedes(s[n + i], s[n + j]) && (canonical ==> Clear(s[n + i], s[n + j]));
    }
    if canonical {
      forall p, c, e | BandAt(t, p, c) && BandAt(t, c, e) ensures !Mergeable(t, p, c, e) {
        SuffixBand(s, n, p, c);
        SuffixBand(s, n, c, e);
        if Mergeable(t, p, c, e) { SuffixMergeable(s, n, p, c, e); }
      }
    }
  }

  lemma SuffixBand(s: seq<Box>, n: nat, p: int, c: int)
    requires n <= |s| && BandAt(s[n..], p, c)
    requires n == 0 || n == |s| || s[n - 1].y1 != s[n].y1
    ensures BandAt(s, n + p, n + c)
  {
    var t := s[n..];
    assert forall i :: n <= i < |s| ==> s[i] == t[i - n];
  }

  lemma SuffixMergeable(s: seq<Box>, n: nat, p: int, c: int, e: int)
    requires n <= |s| && Mergeable(s[n..], p, c, e)
    ensures Mergeable(s, n + p, n + c, n + e)
  {
    var t := s[n..];
    assert t[p..c] == s[n + p..n + c] && t[c..e] == s[n + c..n + e];
    assert t[p] == s[n + p] && t[c] == s[n + c];
  }

  lemma PrefixMergeable(s: seq<Box>, n: nat, p: int, c: int, e: int)
    requires n <= |s| && Mergeable(s[..n], p, c, e)
    ensures Mergeable(s, p, c, e)
  {
    var t := s[..n];
    assert t[p..c] == s[p..c] && t[c..e] == s[c..e];
  }

  lemma PrefixForm(s: seq<Box>, n: nat, canonical: bool)
    requires Form(s, canonical) && n <= |s|
    requires n == 0 || n == |s| || s[n - 1].y1 != s[n].y1
    ensures Form(s[..n], canonical)
  {
    var t := s[..n];
    if canonical {
      assert forall i, j {:trigger Clear(t[i], t[j])} :: 0 <= i < j < n ==> Clear(s[i], s[j]);
      forall p, c, e | BandAt(t, p, c) && BandAt(t, c, e) ensures !Mergeable(t, p, c, e) {
        PrefixBand(s, n, p, c);
        PrefixBand(s, n, c, e);
        if Mergeable(t, p, c, e) { PrefixMergeable(s, n, p, c, e); }
      }
    }
  }

  lemma PrefixBand(s: seq<Box>, n: nat, p: int, c: int)
    requires n <= |s| && BandAt(s[..n], p, c)
    requires n == 0 || n == |s| || s[n - 1].y1 != s[n].y1
    ensures BandAt(s, p, c)
  {
    var t := s[..n];
    assert forall i :: 0 <= i < n ==> t[i] == s[i];
  }

  lemma CornerIn(s: seq<Box>)
    requires Banded(s)
    ensures s != [] ==> In(s, s[0].x1, s[0].y1)
  {
    if s != [] { assert Inside(s[0], s[0].x1, s[0].y1); }
  }

  /** Two canonical lists that cover the same points start with the same columns at the same row. */
  lemma SameFirstBand(s: seq<Box>, t: seq<Box>) returns (n: nat)
    requires Canonical(s) && Canonical(t) && SamePoints(s, t)
    requires s != [] && t != []
    ensures s[0].y1 == t[0].y1
    ensures BandAt(s, 0, n) && BandAt(t, 0, n)
    ensures forall i :: 0 <= i < n ==> s[i].x1 == t[i].x1 && s[i].x2 == t[i].x2
  {
    FirstTop(s, t);
    FirstTop(t, s);
    n := BandEnd(s, 0);
    var m := BandEnd(t, 0);
    var u, v := s[0..n], t[0..m];
    forall x ensures CoversFrom(u, 0, x) <==> CoversFrom(v, 0, x) {
      RowOfBand(s, 0, n, x, s[0].y1);
      RowOfBand(t, 0, m, x, s[0].y1);
    }
    BandIsBand(s, 0, n);
    BandIsBand(t, 0, m);
    SpreadUnique(u, v, 0);
    assert forall i :: 0 <= i < n ==> u[i] == s[i] && v[i] == t[i];
  }

  lemma FirstTop(s: seq<Box>, t: seq<Box>)
    requires Banded(s) && Banded(t) && SamePoints(s, t)
    requires s != [] && t != []
    ensures t[0].y1 <= s[0].y1
  {
    assert Inside(s[0], s[0].x1, s[0].y1);
    assert In(t, s[0].x1, s[0].y1);
    var i :| 0 <= i < |t| && Inside(t[i], s[0].x1, s[0].y1);
    if 0 < i { assert Precedes(t[0], t[i]); }
  }

  /** A point on the row just below the first band lies in a second band that touches the first. */
  lemma NextBandTouches(s: seq<Box>, n: nat, x: int)
    requires Banded(s) && BandAt(s, 0, n) && In(s, x, s[0].y2)
    ensures n < |s| && s[n].y1 == s[0].y2 < s[n].y2
  {
    BandIsBand(s, 0, n);
    var k :| 0 <= k < |s| && Inside(s[k], x, s[0].y2);
    if n < k { assert Precedes(s[n], s[k]); }
    assert Proper(s[n]);
  }

  lemma FirstBottom(s: seq<Box>, t: seq<Box>, n: nat)
    requires Canonical(s) && Canonical(t) && SamePoints(s, t)
    requires BandAt(s, 0, n) && BandAt(t, 0, n) && s[0].y1 == t[0].y1
    requires forall i :: 0 <= i < n ==> s[i].x1 == t[i].x1 && s[i].x2 == t[i].x2
    ensures t[0].y2 <= s[0].y2
  {
    if s[0].y2 < t[0].y2 {
      assert Proper(s[0]);
      assert Inside(t[0], t[0].x1, s[0].y2);
      assert In(s, t[0].x1, s[0].y2);
      NextBandTouches(s, n, t[0].x1);
      var e := BandEnd(s, n);
      BandIsBand(s, 0, n);
      SecondBandDiffers(s, t, n, e);
    }
  }

  lemma SecondBandDiffers(s: seq<Box>, t: seq<Box>, n: nat, e: nat)
    requires Canonical(s) && Canonical(t) && SamePoints(s, t)
    requires BandAt(s, 0, n) && BandAt(s, n, e) && BandAt(t, 0, n)
    requires forall i :: 0 <= i < n ==> s[i].x1 == t[i].x1 && s[i].x2 == t[i].x2
    requires t[0].y1 <= s[0].y2 == s[n].y1 < s[n].y2
    ensures t[0].y2 <= s[0].y2
  {
    if s[0].y2 < t[0].y2 {
      var u, v := s[n..e], t[0..n];
      forall x ensures CoversFrom(u, 0, x) <==> CoversFrom(v, 0, x) {
        RowOfBand(s, n, e, x, s[0].y2);
        RowOfBand(t, 0, n, x, s[0].y2);
      }
      BandIsBand(s, n, e);
      BandIsBand(t, 0, n);
      SpreadUnique(u, v, 0);
      forall i | 0 <= i < n ensures s[0..n][i].x1 == v[i].x1 && s[0..n][i].x2 == v[i].x2 {
        assert s[0..n][i] == s[i] && v[i] == t[i];
      }
      assert Mergeable(s, 0, n, e);
    }
  }

  /** Canonical form is unique: it is a function of the covered points. */
  lemma {:induction false} CanonicalUnique(s: seq<Box>, t: seq<Box>)
    requires Canonical(s) && Canonical(t)
    ensures SamePoints(s, t) <==> s == t
    decreases |s|
  {
    if SamePoints(s, t) {
      if s == [] || t == [] {
        CornerIn(s);
        CornerIn(t);
      } else {
        var n := SameFirstBand(s, t);
        FirstBottom(s, t, n);
        FirstBottom(t, s, n);
        BandIsBand(s, 0, n);
        BandIsBand(t, 0, n);
        assert s[..n] == t[..n];
        SuffixForm(s, n, true);
        SuffixForm(t, n, true);
        forall x, y ensures In(s[n..], x, y) <==> In(t[n..], x, y) {
          TailPoints(s, n, x, y);
          TailPoints(t, n, x, y);
        }
        CanonicalUnique(s[n..], t[n..]);
        assert s == s[..n] + s[n..] && t == t[..n] + t[n..];
      }
    }
  }
}
