/** One scanline of the polygon fill: what each rule emits and what is left of the active list. */
module Scanlines {
  import opened Bresenham
  import opened Crossings
  import opened EdgeTables

  /** The first position from j on that is set, or the length. */
  ghost function NextSet(flags: seq<bool>, j: nat): (n: nat)
    requires j <= |flags|
    ensures j <= n <= |flags| && (n < |flags| ==> flags[n])
    ensures forall k :: j <= k < n ==> !flags[k]
    decreases |flags| - j
  {
    if j == |flags| || flags[j] then j else NextSet(flags, j + 1)
  }

  /** At which of these crossings the winding number toggles. */
  ghost function ToggleFlags(ds: seq<int>): (flags: seq<bool>)
    ensures |flags| == |ds|
  {
    if ds == [] then [] else ToggleFlags(ds[..|ds| - 1]) + [TogglesAt(ds, |ds| - 1)]
  }

  lemma {:induction false} FlagAt(ds: seq<int>, k: nat)
    requires k < |ds|
    ensures ToggleFlags(ds)[k] <==> TogglesAt(ds, k)
  {
    var n := |ds| - 1;
    if k < n {
      FlagAt(ds[..n], k);
      assert ds[..n][..k] == ds[..k] && ds[..n][..k + 1] == ds[..k + 1];
    }
  }

  ghost function SignsOf(es: seq<EdgeTableEntry>): seq<int> { Signs(SegsOf(es)) }

  function AtOrNull(es: seq<EdgeTableEntry>, n: nat): EdgeTableEntry? {
    if n < |es| then es[n] else null
  }

  ghost function Links(es: seq<EdgeTableEntry>): (ls: seq<EdgeTableEntry?>)
    reads es
    ensures |ls| == |es| && forall i {:trigger ls[i]} :: 0 <= i < |es| ==> ls[i] == es[i].nextWETE
  {
    seq(|es|, i requires 0 <= i < |es| reads es => es[i].nextWETE)
  }

  /** From every flagged entry, its link leads to the next flagged entry. */
  ghost predicate ChainOf(es: seq<EdgeTableEntry>, flags: seq<bool>, next: seq<EdgeTableEntry?>) {
    |flags| == |next| == |es| && forall k {:trigger next[k]} :: 0 <= k < |es| && flags[k] ==>
      next[k] == AtOrNull(es, NextSet(flags, k + 1))
  }

  /** The winding list links the active edges where the winding number toggles. */
  ghost predicate Linked(es: seq<EdgeTableEntry>)
    reads es
  {
    ChainOf(es, ToggleFlags(SignsOf(es)), Links(es))
  }

  /** The links are set from the flagged entries before the last one. */
  ghost predicate LinkedBefore(aet: seq<EdgeTableEntry>, flags: seq<bool>, last: int)
    reads aet
  {
    |flags| == |aet| && forall i {:trigger aet[i].nextWETE} :: 0 <= i < last && i < |aet| && flags[i] ==>
      aet[i].nextWETE == AtOrNull(aet, NextSet(flags, i + 1))
  }

  /** Set one link of the winding list, that of the last flagged entry before position k. */
  method SetLink(aet: seq<EdgeTableEntry>, pWETE: EdgeTableEntry, k: nat, ghost flags: seq<bool>, ghost last: nat)
    requires Distinct(aet) && last < k <= |aet| && pWETE == aet[last] && LinkedBefore(aet, flags, last)
    requires (k < |aet| ==> flags[k]) && forall i :: last < i < k ==> !flags[i]
    modifies pWETE`nextWETE
    ensures LinkedBefore(aet, flags, k)
  {
    DistinctFrom(aet, last);
    pWETE.nextWETE := if k < |aet| then aet[k] else null;
  }

  /** computeWAET: relink the winding list of the active edges. */
  method ComputeWAET(aet: seq<EdgeTableEntry>)
    requires Distinct(aet) && forall k :: 0 <= k < |aet| ==> aet[k].clockWise == aet[k].seg.down
    modifies aet`nextWETE
    ensures Linked(aet)
  {
    ghost var ds := SignsOf(aet);
    ghost var flags := ToggleFlags(ds);
    var inside, isInside := true, 0;
    var pWETE: EdgeTableEntry? := null;
    ghost var last := -1;
    var k := 0;
    while k < |aet|
      invariant 0 <= k <= |aet| && -1 <= last < k
      invariant isInside == Total(ds[..k]) && (inside <==> isInside == 0)
      invariant pWETE == if last < 0 then null else aet[last]
      invariant forall i :: last < i < k ==> !flags[i]
      invariant LinkedBefore(aet, flags, last)
    {
      TotalNext(aet, k);
      if aet[k].clockWise { isInside := isInside + 1; } else { isInside := isInside - 1; }
      if (!inside && isInside == 0) || (inside && isInside != 0) {
        if pWETE != null { SetLink(aet, pWETE, k, flags, last); }
        pWETE := aet[k];
        last := k;
        inside := !inside;
      }
      k := k + 1;
    }
    if pWETE != null { SetLink(aet, pWETE, |aet|, flags, last); }
  }

  lemma TotalNext(es: seq<EdgeTableEntry>, k: nat)
    requires k < |es|
    ensures var ds := SignsOf(es);
            && Total(ds[..k + 1]) == Total(ds[..k]) + (if es[k].seg.down then 1 else -1)
            && (ToggleFlags(ds)[k] <==> (Total(ds[..k]) == 0) != (Total(ds[..k + 1]) == 0))
  {
    var ds := SignsOf(es);
    assert ds[..k + 1][..k] == ds[..k];
    FlagAt(ds, k);
  }

  /** The entries that do not leave on row y. */
  ghost function Kept(es: seq<EdgeTableEntry>, y: int): seq<EdgeTableEntry> {
    if es == [] then []
    else Kept(es[..|es| - 1], y) + if es[|es| - 1].ymax == y then [] else [es[|es| - 1]]
  }

  lemma {:induction false} KeptEntries(es: seq<EdgeTableEntry>, y: int)
    ensures forall i :: 0 <= i < |Kept(es, y)| ==> Kept(es, y)[i] in es && Kept(es, y)[i].ymax != y
  {
    if es != [] {
      var n := |es| - 1;
      KeptEntries(es[..n], y);
      assert es == es[..n] + [es[n]];
    }
  }

  lemma {:induction false} KeptDistinct(es: seq<EdgeTableEntry>, y: int)
    requires Distinct(es)
    ensures Distinct(Kept(es, y))
  {
    if es == [] { return; }
    var n := |es| - 1;
    var a := es[..n];
    var ks := Kept(a, y);
    forall i, j | 0 <= i < j < n ensures Differ(a, i, j) { assert Differ(es, i, j); }
    KeptDistinct(a, y);
    KeptEntries(a, y);
    DistinctFrom(es, n);
    forall i, j | 0 <= i < j < |Kept(es, y)| ensures Differ(Kept(es, y), i, j) {
      if j < |ks| {
        assert Differ(ks, i, j);
      } else {
        assert ks[i] in a;
      }
    }
  }

  lemma {:induction false} KeptSegs(es: seq<EdgeTableEntry>, y: int, g: Segment)
    requires forall e :: e in es ==> e.ymax == e.seg.bottom.y - 1
    ensures multiset(SegsOf(Kept(es, y)))[g] == if g.bottom.y - 1 == y then 0 else multiset(SegsOf(es))[g]
  {
    if es != [] {
      var n := |es| - 1;
      KeptSegs(es[..n], y, g);
      assert es == es[..n] + [es[n]];
      SegsSnoc(es[..n], es[n]);
      if es[n].ymax == y {
        assert Kept(es, y) == Kept(es[..n], y);
      } else {
        SegsSnoc(Kept(es[..n], y), es[n]);
      }
    }
  }

  ghost function RowPoints(xs: seq<int>, y: int): (ps: seq<Point>)
    ensures |ps| == |xs| && forall i :: 0 <= i < |xs| ==> ps[i] == Point(xs[i], y)
  {
    seq(|xs|, i requires 0 <= i < |xs| => Point(xs[i], y))
  }

  lemma RowPointsSnoc(xs: seq<int>, x: int, y: int)
    ensures RowPoints(xs + [x], y) == RowPoints(xs, y) + [Point(x, y)]
  {
  }

  lemma RowPointsNext(pts: seq<Point>, xs: seq<int>, j: nat, y: int)
    requires j < |xs|
    ensures pts + RowPoints(xs[..j], y) + [Point(xs[j], y)] == pts + RowPoints(xs[..j + 1], y)
  {
    assert xs[..j + 1] == xs[..j] + [xs[j]];
    RowPointsSnoc(xs[..j], xs[j], y);
  }

  /** The first j entries of `aet` have been evaluated on row y, starting from the records `from`. */
  ghost predicate SteppedUpTo(aet: seq<EdgeTableEntry>, j: nat, y: int, from: seq<Bres>)
    reads aet
  {
    |from| == |aet| && forall k {:trigger aet[k].bres} :: 0 <= k < |aet| ==>
      aet[k].bres == if k < j && aet[k].ymax != y then Stepped(from[k]) else from[k]
  }

  /** The columns of a list of records. */
  ghost function MinorAxes(from: seq<Bres>): (xs: seq<int>)
    ensures |xs| == |from| && forall i :: 0 <= i < |from| ==> xs[i] == from[i].minor_axis
  {
    seq(|from|, i requires 0 <= i < |from| => from[i].minor_axis)
  }

  /** `r` is what is kept of the first j entries of `aet`, i entries, and the rest of `aet`. */
  ghost predicate Evaluated(aet: seq<EdgeTableEntry>, j: nat, r: seq<EdgeTableEntry>, i: nat, y: int) {
    j <= |aet| && r == Kept(aet[..j], y) + aet[j..] && i == |Kept(aet[..j], y)|
  }

  lemma EvaluatedNext(aet: seq<EdgeTableEntry>, j: nat, r: seq<EdgeTableEntry>, i: nat, y: int)
    requires j < |aet| && Evaluated(aet, j, r, i, y)
    ensures i < |r| && r[i] == aet[j]
    ensures if aet[j].ymax == y then Evaluated(aet, j + 1, r[..i] + r[i + 1..], i, y)
            else Evaluated(aet, j + 1, r, i + 1, y)
  {
    assert aet[..j + 1][..j] == aet[..j];
  }

  lemma EvaluatedEnds(aet: seq<EdgeTableEntry>, j: nat, r: seq<EdgeTableEntry>, i: nat, y: int)
    requires Evaluated(aet, j, r, i, y)
    ensures j == |aet| ==> r == Kept(aet, y)
    ensures i < |r| <==> j < |aet|
  {
    if j == |aet| { assert aet[..j] == aet; }
  }

  /** OEVALUATEEDGE: drop the current entry on its last row, step it and move on otherwise. */
  method EvaluateEdge(r: seq<EdgeTableEntry>, i: nat, y: int,
                      ghost aet: seq<EdgeTableEntry>, ghost j: nat, ghost from: seq<Bres>)
    returns (r': seq<EdgeTableEntry>, i': nat, gone: bool)
    requires i < |r| && j < |aet| && Distinct(aet)
    requires Evaluated(aet, j, r, i, y) && SteppedUpTo(aet, j, y, from)
    modifies aet`bres
    ensures Evaluated(aet, j + 1, r', i', y) && SteppedUpTo(aet, j + 1, y, from)
    ensures i' < |r'| <==> j + 1 < |aet|
    ensures i' == if gone then i else i + 1
    ensures Links(aet) == old(Links(aet))
  {
    EvaluatedNext(aet, j, r, i, y);
    DistinctFrom(aet, j);
    var e := r[i];
    gone := e.ymax == y;
    if gone {
      r', i' := r[..i] + r[i + 1..], i;
    } else {
      e.Step();
      r', i' := r, i + 1;
    }
    EvaluatedEnds(aet, j + 1, r', i', y);
    assert forall k :: 0 <= k < |aet| ==> Links(aet)[k] == old(aet[k].nextWETE);
  }

  lemma {:induction false} AllKept(es: seq<EdgeTableEntry>, y: int)
    ensures |Kept(es, y)| <= |es|
    ensures |Kept(es, y)| == |es| ==> Kept(es, y) == es
  {
    if es != [] { AllKept(es[..|es| - 1], y); }
  }

  /** One row under the even-odd rule: every active edge is emitted. */
  method RowEvenOdd(aet: seq<EdgeTableEntry>, y: int, pts: seq<Point>, ghost from: seq<Bres>)
    returns (r: seq<EdgeTableEntry>, pts': seq<Point>)
    requires Distinct(aet) && SteppedUpTo(aet, 0, y, from)
    modifies aet`bres
    ensures r == Kept(aet, y) && SteppedUpTo(aet, |aet|, y, from)
    ensures pts' == pts + RowPoints(MinorAxes(from), y)
  {
    r, pts' := aet, pts;
    var i := 0;
    ghost var j := 0;
    ghost var xs := MinorAxes(from);
    EvaluatedEnds(aet, j, r, i, y);
    while i < |r|
      invariant 0 <= j && 0 <= i && Evaluated(aet, j, r, i, y) && (i < |r| <==> j < |aet|)
      invariant SteppedUpTo(aet, j, y, from)
      invariant pts' == pts + RowPoints(xs[..j], y)
      decreases |aet| - j
    {
      EvaluatedNext(aet, j, r, i, y);
      RowPointsNext(pts, xs, j, y);
      pts' := pts' + [Point(r[i].bres.minor_axis, y)];
      var gone;
      r, i, gone := EvaluateEdge(r, i, y, aet, j, from);
      j := j + 1;
    }
    EvaluatedEnds(aet, j, r, i, y);
    assert xs[..j] == xs;
  }

  /** Where the winding pointer stands tells whether the current edge is flagged, and where it goes next. */
  lemma ChainNext(es: seq<EdgeTableEntry>, flags: seq<bool>, next: seq<EdgeTableEntry?>, j: nat)
    requires Distinct(es) && ChainOf(es, flags, next) && j < |es|
    ensures AtOrNull(es, NextSet(flags, j)) == es[j] <==> flags[j]
    ensures AtOrNull(es, NextSet(flags, j + 1)) == if flags[j] then next[j] else AtOrNull(es, NextSet(flags, j))
  {
    DistinctFrom(es, j);
  }

  /** The points of the flagged entries among the first j. */
  ghost function Emitted(from: seq<Bres>, flags: seq<bool>, y: int, j: nat): seq<Point>
    requires j <= |from| == |flags|
  {
    if j == 0 then []
    else Emitted(from, flags, y, j - 1) + if flags[j - 1] then [Point(from[j - 1].minor_axis, y)] else []
  }

  lemma {:induction false} EmittedToggles(from: seq<Bres>, ds: seq<int>, y: int, j: nat)
    requires j <= |from| == |ds|
    ensures Emitted(from, ToggleFlags(ds), y, j) == RowPoints(Toggles(MinorAxes(from), ds, j), y)
  {
    if j > 0 {
      EmittedToggles(from, ds, y, j - 1);
      TogglesNext(MinorAxes(from), ds, j - 1, y);
    }
  }

  /** One row under the winding rule: the edges on the winding list are emitted. */
  method RowWinding(aet: seq<EdgeTableEntry>, y: int, pts: seq<Point>, fixWAET: bool, ghost from: seq<Bres>)
    returns (r: seq<EdgeTableEntry>, pts': seq<Point>, fixWAET': bool)
    requires Distinct(aet) && Linked(aet) && SteppedUpTo(aet, 0, y, from)
    modifies aet`bres
    ensures r == Kept(aet, y) && SteppedUpTo(aet, |aet|, y, from)
    ensures pts' == pts + RowPoints(Toggles(MinorAxes(from), SignsOf(aet), |aet|), y)
    ensures !fixWAET' ==> !fixWAET && r == aet
    ensures Links(aet) == old(Links(aet))
  {
    ghost var flags, next := ToggleFlags(SignsOf(aet)), Links(aet);
    FirstToggles(aet);
    r, pts', fixWAET' := ScanWinding(aet, y, pts, fixWAET, from, flags, next);
    EmittedToggles(from, SignsOf(aet), y, |aet|);
  }

  /** Emit the current edge when the winding pointer stands on it, moving the pointer on, and evaluate it. */
  method StepWinding(r: seq<EdgeTableEntry>, i: nat, y: int, pts: seq<Point>, pWETE: EdgeTableEntry?,
                     ghost aet: seq<EdgeTableEntry>, ghost j: nat, ghost from: seq<Bres>,
                     ghost flags: seq<bool>, ghost next: seq<EdgeTableEntry?>, ghost base: seq<Point>)
    returns (r': seq<EdgeTableEntry>, i': nat, pts': seq<Point>, pWETE': EdgeTableEntry?, gone: bool)
    requires i < |r| && j < |aet| && Distinct(aet)
    requires Evaluated(aet, j, r, i, y) && SteppedUpTo(aet, j, y, from)
    requires ChainOf(aet, flags, next) && Links(aet) == next && pWETE == AtOrNull(aet, NextSet(flags, j))
    requires pts == base + Emitted(from, flags, y, j)
    modifies aet`bres
    ensures Evaluated(aet, j + 1, r', i', y) && SteppedUpTo(aet, j + 1, y, from)
    ensures i' < |r'| <==> j + 1 < |aet|
    ensures i' == if gone then i else i + 1
    ensures Links(aet) == next && pWETE' == AtOrNull(aet, NextSet(flags, j + 1))
    ensures pts' == base + Emitted(from, flags, y, j + 1)
  {
    EvaluatedNext(aet, j, r, i, y);
    ChainNext(aet, flags, next, j);
    assert Links(aet)[j] == r[i].nextWETE && r[i].bres == from[j];
    pts', pWETE' := pts, pWETE;
    if pWETE == r[i] {
      pts' := pts' + [Point(r[i].bres.minor_axis, y)];
      pWETE' := r[i].nextWETE;
    }
    r', i', gone := EvaluateEdge(r, i, y, aet, j, from);
  }

  /** The loop over the active edges of one scanline, with the links as they are. */
  method ScanWinding(aet: seq<EdgeTableEntry>, y: int, pts: seq<Point>, fixWAET: bool, ghost from: seq<Bres>,
                     ghost flags: seq<bool>, ghost next: seq<EdgeTableEntry?>)
    returns (r: seq<EdgeTableEntry>, pts': seq<Point>, fixWAET': bool)
    requires Distinct(aet) && SteppedUpTo(aet, 0, y, from) && ChainOf(aet, flags, next)
    requires NextSet(flags, 0) == 0 && next == Links(aet)
    modifies aet`bres
    ensures r == Kept(aet, y) && SteppedUpTo(aet, |aet|, y, from)
    ensures pts' == pts + Emitted(from, flags, y, |aet|)
    ensures !fixWAET' ==> !fixWAET && r == aet
    ensures Links(aet) == next
  {
    EvaluatedEnds(aet, 0, aet, 0, y);
    ghost var i;
    r, pts', fixWAET', i := WindingLoop(aet, y, pts, fixWAET, from, flags, next);
    EvaluatedEnds(aet, |aet|, r, i, y);
    AllKept(aet, y);
    assert aet[..|aet|] == aet;
  }

  method WindingLoop(aet: seq<EdgeTableEntry>, y: int, pts: seq<Point>, fixWAET: bool, ghost from: seq<Bres>,
                     ghost flags: seq<bool>, ghost next: seq<EdgeTableEntry?>)
    returns (r: seq<EdgeTableEntry>, pts': seq<Point>, fixWAET': bool, ghost last: nat)
    requires Distinct(aet) && Evaluated(aet, 0, aet, 0, y) && SteppedUpTo(aet, 0, y, from)
    requires ChainOf(aet, flags, next) && NextSet(flags, 0) == 0 && next == Links(aet)
    modifies aet`bres
    ensures Evaluated(aet, |aet|, r, last, y) && last >= |r| && SteppedUpTo(aet, |aet|, y, from)
    ensures pts' == pts + Emitted(from, flags, y, |aet|)
    ensures !fixWAET' ==> !fixWAET && last == |aet|
    ensures Links(aet) == next
  {
    r, pts', fixWAET' := aet, pts, fixWAET;
    var i := 0;
    ghost var j := 0;
    var pWETE := AtOrNull(aet, 0);
    while i < |r|
      invariant 0 <= j && 0 <= i && Evaluated(aet, j, r, i, y) && (i < |r| <==> j < |aet|)
      invariant SteppedUpTo(aet, j, y, from)
      invariant pWETE == AtOrNull(aet, NextSet(flags, j)) && Links(aet) == next
      invariant pts' == pts + Emitted(from, flags, y, j)
      invariant !fixWAET' ==> !fixWAET && i == j
      decreases |aet| - j
    {
      var gone;
      r, i, pts', pWETE, gone := StepWinding(r, i, y, pts', pWETE, aet, j, from, flags, next, pts);
      if gone { fixWAET' := true; }
      j := j + 1;
    }
    last := i;
  }

  lemma TogglesNext(xs: seq<int>, ds: seq<int>, j: nat, y: int)
    requires |xs| == |ds| && j < |xs|
    ensures RowPoints(Toggles(xs, ds, j + 1), y) ==
            RowPoints(Toggles(xs, ds, j), y) + if ToggleFlags(ds)[j] then [Point(xs[j], y)] else []
  {
    FlagAt(ds, j);
    RowPointsSnoc(Toggles(xs, ds, j), xs[j], y);
    if !ToggleFlags(ds)[j] { assert Toggles(xs, ds, j + 1) == Toggles(xs, ds, j); }
  }

  /** The first active edge always toggles. */
  lemma FirstToggles(es: seq<EdgeTableEntry>)
    ensures NextSet(ToggleFlags(SignsOf(es)), 0) == 0
  {
    if es != [] { TotalNext(es, 0); }
  }
}
