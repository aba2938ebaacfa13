/** Gluing banded pieces together: what merging the bands at a seam does to points and form. */
module Merging {
  import opened Boxes
  import opened Banding

  /** Every box of `u` ends at or above the top of every box of `t`. */
  ghost predicate Stacked(u: seq<Box>, t: seq<Box>) {
    forall i, j :: 0 <= i < |u| && 0 <= j < |t| ==> u[i].y2 <= t[j].y1
  }

  /** `p` is where the last band of `u` starts; 0 when there is none. */
  ghost predicate LastBand(u: seq<Box>, p: int) {
    if u == [] then p == 0 else BandAt(u, p, |u|)
  }

  lemma JoinBanded(u: seq<Box>, t: seq<Box>)
    requires Banded(u) && Banded(t) && Stacked(u, t)
    ensures Banded(u + t)
  {
    var s := u + t;
    forall i, j | 0 <= i < j < |s| ensures Precedes(s[i], s[j]) {
      if j < |u| {
        assert Precedes(u[i], u[j]);
      } else if |u| <= i {
        assert Precedes(t[i - |u|], t[j - |u|]);
      }
    }
  }

  /** A band of u + t is a band of `u` or a band of `t`. */
  lemma JoinBand(u: seq<Box>, t: seq<Box>, p: int, c: int)
    requires Banded(u) && Banded(t) && Stacked(u, t) && BandAt(u + t, p, c)
    ensures (c <= |u| && BandAt(u, p, c)) || (|u| <= p && BandAt(t, p - |u|, c - |u|))
  {
    var s := u + t;
    if p < |u| {
      assert Proper(u[p]) && s[p] == u[p];
      assert t != [] ==> s[|u|] == t[0];
    }
    if c <= |u| {
      assert forall i :: 0 <= i < |u| ==> s[i] == u[i];
    } else {
      forall j | 0 <= j < |t| ensures t[j] == s[|u| + j] {
      }
      assert p > |u| ==> s[p - 1] == t[p - 1 - |u|];
      assert c < |s| ==> s[c] == t[c - |u|];
      assert BandAt(t, p - |u|, c - |u|);
    }
  }

  lemma LastBandUnique(u: seq<Box>, p: int, q: int)
    requires BandAt(u, p, |u|) && BandAt(u, q, |u|)
    ensures p == q
  {
  }

  lemma JoinSeparated(u: seq<Box>, t: seq<Box>)
    requires Banded(u) && Banded(t) && Stacked(u, t) && Separated(u) && Separated(t)
    ensures Separated(u + t)
  {
    var s := u + t;
    forall i, j | 0 <= i < j < |s| ensures Clear(s[i], s[j]) {
      if j < |u| {
        assert Clear(u[i], u[j]);
      } else if |u| <= i {
        assert Clear(t[i - |u|], t[j - |u|]);
      } else {
        assert Proper(u[i]);
      }
    }
  }

  /** Two canonical stacks whose bands at the seam do not merge form a canonical stack. */
  lemma JoinCanonical(u: seq<Box>, t: seq<Box>, p: int, e: int)
    requires Canonical(u) && Canonical(t) && Stacked(u, t)
    requires u != [] && t != [] ==> BandAt(u, p, |u|) && BandAt(t, 0, e) && !Mergeable(u + t, p, |u|, |u| + e)
    ensures Canonical(u + t)
  {
    JoinBanded(u, t);
    JoinSeparated(u, t);
    var s := u + t;
    forall a, b, c | BandAt(s, a, b) && BandAt(s, b, c) ensures !Mergeable(s, a, b, c) {
      JoinBand(u, t, a, b);
      JoinBand(u, t, b, c);
      JoinTriple(u, t, p, e, a, b, c);
    }
  }

  lemma JoinTriple(u: seq<Box>, t: seq<Box>, p: int, e: int, a: int, b: int, c: int)
    requires Unmerged(u) && Unmerged(t)
    requires u != [] && t != [] ==> BandAt(u, p, |u|) && BandAt(t, 0, e) && !Mergeable(u + t, p, |u|, |u| + e)
    requires (b <= |u| && BandAt(u, a, b)) || (|u| <= a && BandAt(t, a - |u|, b - |u|))
    requires (c <= |u| && BandAt(u, b, c)) || (|u| <= b && BandAt(t, b - |u|, c - |u|))
    ensures !Mergeable(u + t, a, b, c)
  {
    if c <= |u| {
      UnmergedInPrefix(u, t, a, b, c);
    } else if |u| <= a {
      UnmergedInSuffix(u, t, a, b, c);
    } else {
      LastBandUnique(u, a, p);
      FirstBandUnique(t, e, c - |u|);
    }
  }

  lemma SlicesOfJoin(u: seq<Box>, t: seq<Box>, a: nat, b: nat)
    requires a <= b <= |u|
    ensures (u + t)[a..b] == u[a..b]
  {
  }

  lemma SlicesOfJoinRight(u: seq<Box>, t: seq<Box>, a: nat, b: nat)
    requires |u| <= a <= b <= |u| + |t|
    ensures (u + t)[a..b] == t[a - |u|..b - |u|]
  {
  }

  lemma UnmergedInPrefix(u: seq<Box>, t: seq<Box>, a: int, b: int, c: int)
    requires Unmerged(u) && BandAt(u, a, b) && BandAt(u, b, c)
    ensures !Mergeable(u + t, a, b, c)
  {
    SlicesOfJoin(u, t, a, b);
    SlicesOfJoin(u, t, b, c);
  }

  lemma UnmergedInSuffix(u: seq<Box>, t: seq<Box>, a: int, b: int, c: int)
    requires Unmerged(t) && BandAt(t, a - |u|, b - |u|) && BandAt(t, b - |u|, c - |u|)
    ensures !Mergeable(u + t, a, b, c)
  {
    SlicesOfJoinRight(u, t, a, b);
    SlicesOfJoinRight(u, t, b, c);
    assert (u + t)[a] == t[a - |u|] && (u + t)[b] == t[b - |u|];
  }

  lemma FirstBandUnique(t: seq<Box>, e: int, d: int)
    requires BandAt(t, 0, e) && BandAt(t, 0, d)
    ensures d == e
  {
  }

  /** `t` with the top of its first `e` boxes moved to row `y`. */
  ghost function Retop(t: seq<Box>, e: nat, y: int): (r: seq<Box>)
    requires e <= |t|
    ensures |r| == |t|
    ensures forall i :: 0 <= i < |t| ==> r[i] == if i < e then t[i].(y1 := y) else t[i]
  {
    seq(|t|, i requires 0 <= i < |t| => if i < e then t[i].(y1 := y) else t[i])
  }

  lemma RetopBand(t: seq<Box>, e: nat, y: int, p: int, c: int)
    requires Banded(t) && BandAt(t, 0, e) && y < t[0].y2
    requires BandAt(Retop(t, e, y), p, c)
    ensures BandAt(t, p, c)
  {
    var r := Retop(t, e, y);
    BandIsBand(t, 0, e);
    assert forall i :: e <= i < |t| ==> r[i].y1 == t[i].y1 && y < t[i].y1;
    assert forall i :: 0 <= i < e ==> r[i].y1 == y && t[i].y1 == t[0].y1;
    if p < e {
      assert p == 0;
      assert c == e;
    }
  }

  lemma RetopColumns(t: seq<Box>, e: nat, y: int, a: nat, b: nat)
    requires e <= |t| && a <= b <= |t|
    ensures SameColumns(Retop(t, e, y)[a..b], t[a..b])
  {
  }

  lemma RetopMergeable(t: seq<Box>, e: nat, y: int, a: nat, b: nat, c: nat)
    requires e <= |t| && e <= b && Mergeable(Retop(t, e, y), a, b, c)
    ensures Mergeable(t, a, b, c)
  {
    RetopColumns(t, e, y, a, b);
    RetopColumns(t, e, y, b, c);
  }

  lemma RetopForm(t: seq<Box>, e: nat, y: int, canonical: bool)
    requires Form(t, canonical) && BandAt(t, 0, e) && y < t[0].y2
    ensures Form(Retop(t, e, y), canonical)
  {
    var r := Retop(t, e, y);
    BandIsBand(t, 0, e);
    forall i | 0 <= i < |r| ensures Proper(r[i]) {
      assert Proper(t[i]);
    }
    forall i, j | 0 <= i < j < |r| ensures Precedes(r[i], r[j]) && (canonical ==> Clear(r[i], r[j])) {
      assert Precedes(t[i], t[j]) && (canonical ==> Clear(t[i], t[j]));
    }
    if canonical {
      forall a, b, c | BandAt(r, a, b) && BandAt(r, b, c) ensures !Mergeable(r, a, b, c) {
        RetopBand(t, e, y, a, b);
        RetopBand(t, e, y, b, c);
        if Mergeable(r, a, b, c) {
          if b < e { FirstBandUnique(t, e, b); }
          RetopMergeable(t, e, y, a, b, c);
        }
      }
    }
  }

  /** Moving the first top changes only the rows above the first bottom. */
  lemma RetopPoints(t: seq<Box>, e: nat, y1: int, x: int, y: int)
    requires Banded(t) && BandAt(t, 0, e)
    ensures In(Retop(t, e, y1), x, y) <==>
            if y < t[0].y2 then y1 <= y && Covers(t[..e], x) else In(t, x, y)
  {
    var r := Retop(t, e, y1);
    BandIsBand(t, 0, e);
    assert t[..e] == t[0..e];
    if In(r, x, y) {
      var i :| 0 <= i < |r| && Inside(r[i], x, y);
      if i < e { assert t[..e][i] == t[i] && t[..e][i].x1 <= x < t[..e][i].x2; }
      if t[0].y2 <= y { assert Inside(t[i], x, y); }
    }
    if y < t[0].y2 && y1 <= y && Covers(t[..e], x) {
      var i :| 0 <= i < e && 0 <= i && t[..e][i].x1 <= x < t[..e][i].x2;
      assert Inside(r[i], x, y);
    }
    if t[0].y2 <= y && In(t, x, y) {
      var i :| 0 <= i < |t| && Inside(t[i], x, y);
      assert Inside(r[i], x, y);
    }
  }

  /** The list after the band s[c..e] was merged into the band s[p..c]. */
  ghost function Merged(s: seq<Box>, p: nat, c: nat, e: nat): seq<Box>
    requires p < c <= e <= |s|
  {
    s[..p] + Retop(s[c..], e - c, s[p].y1)
  }

  /** What merging the band s[p..c] with the band after it, if they match, makes of the list. */
  ghost function Coalesced(s: seq<Box>, p: nat, c: nat): seq<Box>
    requires p <= c < |s|
  {
    var e := BandEnd(s, c);
    if Mergeable(s, p, c, e) then Merged(s, p, c, e) else s
  }

  lemma SameColumnsSnoc(s: seq<Box>, p: nat, k: nat, c: nat, l: nat)
    requires p <= k < |s| && c <= l < |s| && SameColumns(s[p..k], s[c..l])
    requires s[k].x1 == s[l].x1 && s[k].x2 == s[l].x2
    ensures SameColumns(s[p..k + 1], s[c..l + 1])
  {
    assert s[p..k + 1] == s[p..k] + [s[k]] && s[c..l + 1] == s[c..l] + [s[l]];
  }

  /** Where each box of the merged list comes from. */
  lemma MergedAt(s: seq<Box>, p: nat, c: nat, n: nat, k: nat)
    requires Mergeable(s, p, c, c + n)
    requires forall i :: p <= i < c ==> s[i].y1 == s[p].y1
    requires k < |s| - n
    ensures Merged(s, p, c, c + n)[k] ==
            if k < p then s[k] else if k < c then s[k].(y2 := s[k + n].y2) else s[k + n]
  {
    assert p + n == c;
    if p <= k {
      var t := s[c..];
      assert t[k - p] == s[k + n];
      if k < c {
        assert s[p..c][k - p] == s[k] && s[c..c + n][k - p] == s[k + n];
      }
    }
  }

  /** Growing the first band of `t` upwards by a touching band with the same columns. */
  lemma GrowUpPoints(b: seq<Box>, t: seq<Box>, y1: int, x: int, y: int)
    requires Banded(t) && b != [] && |b| <= |t| && BandAt(t, 0, |b|) && SameColumns(b, t[..|b|])
    requires Rows(b, y1, t[0].y1) && y1 < t[0].y1
    ensures In(Retop(t, |b|, y1), x, y) <==> In(b, x, y) || In(t, x, y)
  {
    var e := |b|;
    assert Proper(t[0]);
    RetopPoints(t, e, y1, x, y);
    RetopPoints(t, e, t[0].y1, x, y);
    assert Retop(t, e, t[0].y1) == t;
    InBand(b, y1, t[0].y1, x, y);
    SameColumnsCover(b, t[..e], x);
  }

  lemma MergedPoints(s: seq<Box>, p: nat, c: nat, e: nat, x: int, y: int)
    requires Mergeable(s, p, c, e) && Banded(s[c..]) && BandAt(s[c..], 0, e - c)
    requires Rows(s[p..c], s[p].y1, s[c].y1) && s[p].y1 < s[c].y1
    ensures In(Merged(s, p, c, e), x, y) <==> In(s, x, y)
  {
    var v, b, t := s[..p], s[p..c], s[c..];
    assert In(Retop(t, e - c, s[p].y1), x, y) <==> In(b, x, y) || In(t, x, y) by {
      SplitAtSeam(s, p, c);
      assert |b| == e - c && t[..|b|] == s[c..e];
      GrowUpPoints(b, t, s[p].y1, x, y);
    }
    InThreeParts(s, p, c, x, y);
    InConcat(v, Retop(t, e - c, s[p].y1), x, y);
  }

  lemma InThreeParts(s: seq<Box>, p: nat, c: nat, x: int, y: int)
    requires p <= c <= |s|
    ensures In(s, x, y) <==> In(s[..p], x, y) || In(s[p..c], x, y) || In(s[c..], x, y)
  {
    assert s == s[..p] + (s[p..c] + s[c..]);
    InConcat(s[..p], s[p..c] + s[c..], x, y);
    InConcat(s[p..c], s[c..], x, y);
  }

  lemma CoalescedPoints(s: seq<Box>, p: nat, c: nat, x: int, y: int)
    requires p <= c < |s|
    requires Banded(s[..c]) && Banded(s[c..]) && LastBand(s[..c], p)
    ensures In(Coalesced(s, p, c), x, y) <==> In(s, x, y)
  {
    var e := BandEnd(s, c);
    if Mergeable(s, p, c, e) {
      SeamBand(s, c, e);
      MergeableParts(s, p, c, e);
      MergedPoints(s, p, c, e, x, y);
    }
  }

  lemma SplitAtSeam(s: seq<Box>, p: nat, c: nat)
    requires p < c < |s|
    ensures s == s[..p] + (s[p..c] + s[c..])
    ensures s[c..][0] == s[c] && s[p..c] != []
  {
  }

  lemma MergeableParts(s: seq<Box>, p: nat, c: nat, e: nat)
    requires Mergeable(s, p, c, e) && Banded(s[..c]) && BandAt(s[..c], p, c)
    ensures Rows(s[p..c], s[p].y1, s[c].y1) && s[p].y1 < s[c].y1
  {
    BandIsBand(s[..c], p, c);
    assert s[..c][p..c] == s[p..c] && s[..c][p] == s[p];
    assert Proper(s[..c][p]);
  }

  /** The band after position `c` is the first band of s[c..]. */
  lemma SeamBand(s: seq<Box>, c: nat, e: nat)
    requires c < |s| && e == BandEnd(s, c)
    ensures BandAt(s[c..], 0, e - c)
  {
    assert forall i :: c <= i < |s| ==> s[c..][i - c] == s[i];
  }

  lemma SameColumnsCover(a: seq<Box>, b: seq<Box>, x: int)
    requires SameColumns(a, b)
    ensures Covers(a, x) <==> Covers(b, x)
  {
    if Covers(a, x) {
      var i :| 0 <= i < |a| && 0 <= i && a[i].x1 <= x < a[i].x2;
      assert b[i].x1 <= x < b[i].x2;
    }
    if Covers(b, x) {
      var i :| 0 <= i < |b| && 0 <= i && b[i].x1 <= x < b[i].x2;
      assert a[i].x1 <= x < a[i].x2;
    }
  }

  /** Merging at the seam of two stacks keeps their form. */
  lemma CoalescedForm(s: seq<Box>, p: nat, c: nat, canonical: bool)
    requires p <= c < |s|
    requires Form(s[..c], canonical) && Form(s[c..], canonical) && LastBand(s[..c], p) && Stacked(s[..c], s[c..])
    ensures Form(Coalesced(s, p, c), canonical)
  {
    var e := BandEnd(s, c);
    SeamBand(s, c, e);
    if Mergeable(s, p, c, e) {
      MergedForm(s, p, c, e, canonical);
    } else {
      assert s == s[..c] + s[c..];
      if canonical {
        JoinCanonical(s[..c], s[c..], p, e - c);
      } else {
        JoinBanded(s[..c], s[c..]);
      }
    }
  }

  lemma MergedForm(s: seq<Box>, p: nat, c: nat, e: nat, canonical: bool)
    requires Mergeable(s, p, c, e) && BandAt(s[..c], p, c) && BandAt(s[c..], 0, e - c)
    requires Form(s[..c], canonical) && Form(s[c..], canonical)
    ensures Form(Merged(s, p, c, e), canonical)
  {
    var r := Retop(s[c..], e - c, s[p].y1);
    MergedPieces(s, p, c, e, canonical);
    if !canonical {
      JoinBanded(s[..p], r);
    } else if p > 0 {
      var q := LastBandStart(s[..p]);
      SeamStaysApart(s, q, p, c, e);
      JoinCanonical(s[..p], r, q, e - c);
    } else {
      JoinCanonical(s[..p], r, 0, e - c);
    }
  }

  lemma MergedPieces(s: seq<Box>, p: nat, c: nat, e: nat, canonical: bool)
    requires Mergeable(s, p, c, e) && BandAt(s[..c], p, c) && BandAt(s[c..], 0, e - c)
    requires Form(s[..c], canonical) && Form(s[c..], canonical)
    ensures Form(s[..p], canonical) && Form(Retop(s[c..], e - c, s[p].y1), canonical)
    ensures Stacked(s[..p], Retop(s[c..], e - c, s[p].y1))
    ensures BandAt(Retop(s[c..], e - c, s[p].y1), 0, e - c)
  {
    var u, t := s[..c], s[c..];
    assert s[..p] == u[..p] && u[p] == s[p] && t[0] == s[c];
    PrefixForm(u, p, canonical);
    assert Proper(u[p]) && Proper(t[0]);
    RetopForm(t, e - c, s[p].y1, canonical);
    StackedOnRetop(s, p, c, e);
    RetopFirstBand(t, e - c, s[p].y1);
  }

  lemma StackedOnRetop(s: seq<Box>, p: nat, c: nat, e: nat)
    requires Mergeable(s, p, c, e) && BandAt(s[..c], p, c) && BandAt(s[c..], 0, e - c)
    requires Banded(s[..c]) && Banded(s[c..])
    ensures Stacked(s[..p], Retop(s[c..], e - c, s[p].y1))
  {
    var u, t := s[..c], s[c..];
    assert u[p] == s[p] && t[0] == s[c];
    BandIsBand(u, p, c);
    BandIsBand(t, 0, e - c);
    assert Proper(u[p]) && Proper(t[0]);
    assert forall i :: 0 <= i < p ==> s[i] == u[i];
  }

  lemma RetopFirstBand(t: seq<Box>, e: nat, y: int)
    requires Banded(t) && BandAt(t, 0, e) && y < t[0].y2
    ensures BandAt(Retop(t, e, y), 0, e)
  {
    BandIsBand(t, 0, e);
  }

  ghost function LastBandStart(u: seq<Box>): (p: nat)
    requires u != []
    ensures BandAt(u, p, |u|)
  {
    RunStart(u, |u| - 1)
  }

  ghost function RunStart(u: seq<Box>, k: nat): (p: nat)
    requires k < |u| && forall i :: k <= i < |u| ==> u[i].y1 == u[k].y1
    ensures BandAt(u, p, |u|)
  {
    if k > 0 && u[k - 1].y1 == u[k].y1 then RunStart(u, k - 1) else k
  }

  /** If the band before s[p..c] did not merge with it, it does not merge with its extension. */
  lemma SeamStaysApart(s: seq<Box>, q: nat, p: nat, c: nat, e: nat)
    requires Mergeable(s, p, c, e)
    requires Unmerged(s[..c]) && BandAt(s[..c], p, c) && BandAt(s[..p], q, p)
    ensures !Mergeable(Merged(s, p, c, e), q, p, p + (e - c))
  {
    if Mergeable(Merged(s, p, c, e), q, p, p + (e - c)) {
      assert s[..c][..p] == s[..p];
      BandBefore(s[..c], q, p);
      SeamTransfer(s, q, p, c, e);
    }
  }

  lemma BandBefore(u: seq<Box>, q: nat, p: nat)
    requires p < |u| && BandAt(u, p, |u|) && BandAt(u[..p], q, p)
    ensures BandAt(u, q, p)
  {
    var v := u[..p];
    assert forall i :: 0 <= i < p ==> v[i] == u[i];
  }

  lemma SeamTransfer(s: seq<Box>, q: nat, p: nat, c: nat, e: nat)
    requires Mergeable(s, p, c, e) && q < p && Mergeable(Merged(s, p, c, e), q, p, p + (e - c))
    ensures Mergeable(s[..c], q, p, c)
  {
    var u, n := s[..c], c - p;
    var r := Retop(s[c..], n, s[p].y1);
    var w := s[..p] + r;
    assert w[p..p + n] == r[0..n] && w[q..p] == u[q..p];
    RetopColumns(s[c..], n, s[p].y1, 0, n);
    assert s[c..][0..n] == s[c..e] && u[p..c] == s[p..c];
    assert w[q] == u[q] && w[p] == r[0];
  }

  /** The index of the last band after a merge that appended one band only. */
  lemma CoalescedLastBand(s: seq<Box>, p: nat, c: nat)
    requires p <= c < |s| && BandEnd(s, c) == |s|
    requires Banded(s[..c]) && Banded(s[c..]) && LastBand(s[..c], p) && Stacked(s[..c], s[c..])
    ensures LastBand(Coalesced(s, p, c), if Mergeable(s, p, c, |s|) then p else c)
  {
    var u, t := s[..c], s[c..];
    SeamBand(s, c, |s|);
    assert t[0] == s[c];
    if Mergeable(s, p, c, |s|) {
      var r := Retop(t, |s| - c, s[p].y1);
      assert Proper(u[p]) && Proper(t[0]) && u[p] == s[p];
      RetopFirstBand(t, |s| - c, s[p].y1);
      BandIsBand(u, p, c);
      var w := s[..p] + r;
      assert forall i :: p <= i < |w| ==> w[i] == r[i - p];
      assert p > 0 ==> w[p - 1] == u[p - 1];
    } else if c > 0 {
      assert s[c - 1] == u[c - 1];
      assert Proper(u[c - 1]);
    }
  }
}
