/** miRegionOp: one pass over two banded regions that computes any pointwise operation on them. */
module Sweep {
  import opened Boxes
  import opened Banding
  import opened Merging
  import opened Geometry
  import opened Regions
  import opened BandOps
  import opened Coalescing

  /** A pointwise operation that keeps points outside both operands out, as a truth table. */
  datatype BoolOp = BoolOp(both: bool, only1: bool, only2: bool) {
    predicate Holds(p: bool, q: bool) {
      if p then (if q then both else only1) else q && only2
    }
  }

  datatype OverlapFn = MiUnionO | MiIntersectO | MiSubtractO

  datatype NonOverlapFn = NullFn | MiUnionNonO | MiSubtractNonO1

  /** The callbacks compute `op` on every band where the operands meet and where only one is present. */
  predicate Computes(overlapFn: OverlapFn, nonOverlap1Fn: NonOverlapFn, nonOverlap2Fn: NonOverlapFn, op: BoolOp) {
    && op == (match overlapFn
              case MiUnionO => BoolOp(true, true, true)
              case MiIntersectO => BoolOp(true, false, false)
              case MiSubtractO => BoolOp(false, true, false))
    && (nonOverlap1Fn.NullFn? <==> !op.only1)
    && (nonOverlap2Fn.NullFn? <==> !op.only2)
  }

  method CallOverlap(fn: OverlapFn, reg: Region, r1: seq<Box>, r2: seq<Box>, y1: int, y2: int,
                     ghost n1: NonOverlapFn, ghost n2: NonOverlapFn, ghost op: BoolOp)
    requires reg.Valid() && reg.size > 0 && !reg.shared
    requires Spread(r1) && Spread(r2) && r1 != [] && y1 < y2
    requires forall k :: 0 <= k < |reg.rects| ==> reg.rects[k].y2 <= y1
    requires Computes(fn, n1, n2, op)
    modifies reg
    ensures reg.Valid() && reg.size > 0 && !reg.shared && reg.extents == old(reg.extents)
    ensures old(reg.rects) <= reg.rects
    ensures IsBand(reg.rects[|old(reg.rects)|..], y1, y2)
    ensures Apart(r1) && Apart(r2) ==> Apart(reg.rects[|old(reg.rects)|..])
    ensures forall x :: Covers(reg.rects[|old(reg.rects)|..], x) <==> op.Holds(Covers(r1, x), Covers(r2, x))
  {
    match fn
    case MiUnionO => UnionO(reg, r1, r2, y1, y2);
    case MiIntersectO => IntersectO(reg, r1, r2, y1, y2);
    case MiSubtractO => SubtractO(reg, r1, r2, y1, y2);
  }

  method CallNonOverlap(fn: NonOverlapFn, reg: Region, r: seq<Box>, y1: int, y2: int)
    requires reg.Valid() && reg.size > 0 && !reg.shared
    requires !fn.NullFn?
    modifies reg
    ensures reg.Valid() && reg.size > 0 && !reg.shared && reg.extents == old(reg.extents)
    ensures old(reg.rects) <= reg.rects && CopyOf(reg.rects[|old(reg.rects)|..], r, y1, y2)
  {
    match fn
    case MiUnionNonO => CopyBand(reg, r, y1, y2);
    case MiSubtractNonO1 => CopyBand(reg, r, y1, y2);
  }

  /** The sweep line stands at row `y` and `i` is the first box of `a` that reaches below it. */
  ghost predicate Reached(a: seq<Box>, i: nat, y: int) {
    && i <= |a|
    && (0 < i < |a| ==> a[i - 1].y1 != a[i].y1)
    && (forall k :: 0 <= k < i ==> a[k].y2 <= y)
    && (i < |a| ==> y < a[i].y2)
  }

  /** At and below the sweep line, `a` is empty down to its next band and then is that band. */
  lemma RowReached(a: seq<Box>, i: nat, line: int, x: int, y: int)
    requires Banded(a) && Reached(a, i, line) && line <= y
    ensures i == |a| || y < a[i].y1 ==> !In(a, x, y)
    ensures i < |a| && a[i].y1 <= y < a[i].y2 ==> (In(a, x, y) <==> Covers(a[i..BandEnd(a, i)], x))
  {
    if i < |a| && a[i].y1 <= y < a[i].y2 {
      RowOfBand(a, i, BandEnd(a, i), x, y);
    } else if In(a, x, y) {
      var k :| 0 <= k < |a| && Inside(a[k], x, y);
      if i < k { assert Precedes(a[i], a[k]); }
    }
  }

  /** Moving the line down past the bottom of the next band, or into it. */
  lemma ReachOn(a: seq<Box>, i: nat, line: int, line': int)
    requires Banded(a) && Reached(a, i, line) && i < |a| && line <= line' <= a[i].y2
    ensures Reached(a, if a[i].y2 == line' then BandEnd(a, i) else i, line')
    ensures BandEnd(a, i) < |a| ==> a[i].y2 <= a[BandEnd(a, i)].y1
  {
    var e := BandEnd(a, i);
    BandIsBand(a, i, e);
    if e < |a| { assert Proper(a[e]); }
  }

  /** The output so far has the form of the operands and is the answer for every row above the line. */
  ghost predicate Swept(out: seq<Box>, a: seq<Box>, b: seq<Box>, op: BoolOp, line: int, canonical: bool) {
    && Form(out, canonical)
    && (forall k :: 0 <= k < |out| ==> out[k].y2 <= line)
    && (forall x, y :: In(out, x, y) ==> y < line)
    && (forall x, y :: y < line ==> (In(out, x, y) <==> op.Holds(In(a, x, y), In(b, x, y))))
  }

  /** A band is in good form by itself. */
  lemma BandForm(s: seq<Box>, y1: int, y2: int)
    requires IsBand(s, y1, y2) && y1 < y2
    ensures Banded(s) && OneBand(s) && (Apart(s) ==> Canonical(s))
  {
  }

  /** The last lines of a band handler: append the new boxes and coalesce when there are any. */
  ghost function Settled(out: seq<Box>, p: nat, added: seq<Box>): seq<Box>
    requires p <= |out|
  {
    if added == [] then out else Coalesced(out + added, p, |out|)
  }

  lemma SettledPoints(out: seq<Box>, p: nat, added: seq<Box>, x: int, y: int)
    requires Banded(out) && Banded(added) && LastBand(out, p)
    ensures In(Settled(out, p, added), x, y) <==> In(out, x, y) || In(added, x, y)
  {
    InConcat(out, added, x, y);
    if added != [] {
      assert (out + added)[..|out|] == out && (out + added)[|out|..] == added;
      CoalescedPoints(out + added, p, |out|, x, y);
    }
  }

  lemma SettledForm(out: seq<Box>, p: nat, added: seq<Box>, canonical: bool)
    requires Form(out, canonical) && Form(added, canonical) && LastBand(out, p) && Stacked(out, added)
    ensures Form(Settled(out, p, added), canonical)
  {
    if added != [] {
      assert (out + added)[..|out|] == out && (out + added)[|out|..] == added;
      CoalescedForm(out + added, p, |out|, canonical);
    }
  }

  /** No boxes, or the boxes of one band. */
  ghost predicate OneBand(s: seq<Box>) {
    Banded(s) && (s != [] ==> BandAt(s, 0, |s|))
  }

  lemma SettledLastBand(out: seq<Box>, p: nat, added: seq<Box>)
    requires Banded(out) && LastBand(out, p) && Stacked(out, added)
    requires added != [] && OneBand(added)
    ensures BandEnd(out + added, |out|) == |out + added|
    ensures LastBand(Settled(out, p, added),
                     if Mergeable(out + added, p, |out|, |out + added|) then p else |out|)
  {
    var s, c := out + added, |out|;
    assert s[..c] == out && s[c..] == added;
    assert forall k :: c <= k < |s| ==> s[k] == added[k - c];
    CoalescedLastBand(s, p, c);
  }

  /** Settling a band that is the answer for the rows y1 to y2 moves the line to y2. */
  lemma SweepOn(out: seq<Box>, p: nat, added: seq<Box>, a: seq<Box>, b: seq<Box>, op: BoolOp,
                line: int, y1: int, y2: int, canonical: bool)
    requires Swept(out, a, b, op, line, canonical) && LastBand(out, p)
    requires line <= y1 <= y2 && IsBand(added, y1, y2) && (y1 == y2 ==> added == []) && (canonical ==> Apart(added))
    requires forall x, y :: line <= y < y1 ==> !op.Holds(In(a, x, y), In(b, x, y))
    requires forall x, y :: y1 <= y < y2 ==> (Covers(added, x) <==> op.Holds(In(a, x, y), In(b, x, y)))
    ensures Swept(Settled(out, p, added), a, b, op, y2, canonical)
  {
    var r := Settled(out, p, added);
    if y1 < y2 { BandForm(added, y1, y2); }
    SettledForm(out, p, added, canonical);
    forall x, y ensures In(r, x, y) <==> In(out, x, y) || (y1 <= y < y2 && Covers(added, x)) {
      SettledPoints(out, p, added, x, y);
      InBand(added, y1, y2, x, y);
    }
    forall k | 0 <= k < |r| ensures r[k].y2 <= y2 {
      assert Proper(r[k]);
      assert Inside(r[k], r[k].x1, r[k].y2 - 1);
      assert In(r, r[k].x1, r[k].y2 - 1);
    }
  }

  /** The operation with its operands exchanged. */
  function Flip(op: BoolOp): BoolOp {
    BoolOp(op.both, op.only2, op.only1)
  }

  lemma SweptFlip(out: seq<Box>, a: seq<Box>, b: seq<Box>, op: BoolOp, line: int, canonical: bool)
    requires Swept(out, a, b, op, line, canonical)
    ensures Swept(out, b, a, Flip(op), line, canonical)
  {
    forall x, y | y < line ensures In(out, x, y) <==> Flip(op).Holds(In(b, x, y), In(a, x, y)) {
      assert In(out, x, y) <==> op.Holds(In(a, x, y), In(b, x, y));
    }
  }

  /** The rows where only `a` has a band, down to its bottom or to the next band of `b`. */
  lemma OneOperandRows(out: seq<Box>, p: nat, added: seq<Box>, a: seq<Box>, i: nat, b: seq<Box>, j: nat,
                       op: BoolOp, line: int, canonical: bool)
    requires Swept(out, a, b, op, line, canonical) && LastBand(out, p) && Form(a, canonical) && Banded(b)
    requires Reached(a, i, line) && Reached(b, j, line) && i < |a| && j < |b|
    requires a[i].y1 < b[j].y1 && line <= b[j].y1
    requires var top, bot := Max(a[i].y1, line), Min(a[i].y2, b[j].y1);
             if top != bot && op.only1 then CopyOf(added, a[i..BandEnd(a, i)], top, bot) else added == []
    ensures Swept(Settled(out, p, added), a, b, op, Min(a[i].y2, b[j].y1), canonical)
    ensures IsBand(added, Max(a[i].y1, line), Min(a[i].y2, b[j].y1)) && (canonical ==> Apart(added))
  {
    var top, bot, e := Max(a[i].y1, line), Min(a[i].y2, b[j].y1), BandEnd(a, i);
    BandIsBand(a, i, e);
    assert Proper(a[i]);
    assert canonical ==> Apart(added);
    forall x, y | line <= y < top ensures !op.Holds(In(a, x, y), In(b, x, y)) {
      RowReached(a, i, line, x, y);
      RowReached(b, j, line, x, y);
    }
    forall x, y | top <= y < bot ensures Covers(added, x) <==> op.Holds(In(a, x, y), In(b, x, y)) {
      RowReached(a, i, line, x, y);
      RowReached(b, j, line, x, y);
      if op.only1 { SameColumnsCover(added, a[i..e], x); }
    }
    SweepOn(out, p, added, a, b, op, line, top, bot, canonical);
  }

  /** The rows where both operands have a band. */
  lemma BothOperandRows(out: seq<Box>, p: nat, added: seq<Box>, a: seq<Box>, i: nat, b: seq<Box>, j: nat,
                        op: BoolOp, line: int, y1: int, y2: int, canonical: bool)
    requires Swept(out, a, b, op, y1, canonical) && LastBand(out, p) && Banded(a) && Banded(b)
    requires Reached(a, i, line) && Reached(b, j, line) && i < |a| && j < |b| && line <= y1
    requires a[i].y1 <= y1 && b[j].y1 <= y1 < y2 && y2 <= a[i].y2 && y2 <= b[j].y2
    requires IsBand(added, y1, y2) && (canonical ==> Apart(added))
    requires forall x :: Covers(added, x) <==>
                         op.Holds(Covers(a[i..BandEnd(a, i)], x), Covers(b[j..BandEnd(b, j)], x))
    ensures Swept(Settled(out, p, added), a, b, op, y2, canonical)
  {
    forall x, y | y1 <= y < y2 ensures Covers(added, x) <==> op.Holds(In(a, x, y), In(b, x, y)) {
      RowReached(a, i, line, x, y);
      RowReached(b, j, line, x, y);
    }
    SweepOn(out, p, added, a, b, op, y1, y1, y2, canonical);
  }

  /** The rows above the next bands of both operands are empty. */
  lemma EmptyRows(out: seq<Box>, p: nat, a: seq<Box>, i: nat, b: seq<Box>, j: nat, op: BoolOp, line: int, top: int,
                  canonical: bool)
    requires Swept(out, a, b, op, line, canonical) && LastBand(out, p) && Banded(a) && Banded(b)
    requires Reached(a, i, line) && Reached(b, j, line) && i < |a| && j < |b|
    requires line <= top == a[i].y1 == b[j].y1
    ensures Swept(out, a, b, op, top, canonical)
  {
    forall x, y | line <= y < top ensures !op.Holds(In(a, x, y), In(b, x, y)) {
      RowReached(a, i, line, x, y);
      RowReached(b, j, line, x, y);
    }
    SweepOn(out, p, [], a, b, op, line, top, top, canonical);
  }

  /** `t` with everything above row `y` cut off. */
  ghost function Clipped(t: seq<Box>, y: int): (r: seq<Box>)
    ensures |r| == |t| && forall k :: 0 <= k < |t| ==> r[k] == t[k].(y1 := Max(t[k].y1, y))
  {
    seq(|t|, k requires 0 <= k < |t| => t[k].(y1 := Max(t[k].y1, y)))
  }

  lemma ClippedIsRetop(t: seq<Box>, y: int)
    requires Banded(t) && t != [] && y < t[0].y2
    ensures Clipped(t, y) == Retop(t, BandEnd(t, 0), Max(t[0].y1, y))
  {
    BandIsBand(t, 0, BandEnd(t, 0));
  }

  /** What is left of an operand below the line keeps its form and holds just its points there. */
  lemma RestBelow(a: seq<Box>, i: nat, line: int, canonical: bool)
    requires Form(a, canonical) && Reached(a, i, line)
    ensures Form(Clipped(a[i..], line), canonical)
    ensures forall x, y :: In(Clipped(a[i..], line), x, y) <==> In(a, x, y) && line <= y
  {
    var t, r := a[i..], Clipped(a[i..], line);
    SuffixForm(a, i, canonical);
    if i < |a| {
      assert t[0] == a[i];
      ClippedIsRetop(t, line);
      assert Proper(t[0]);
      RetopForm(t, BandEnd(t, 0), Max(t[0].y1, line), canonical);
    }
    forall x, y ensures In(r, x, y) <==> In(a, x, y) && line <= y {
      if In(r, x, y) {
        var k :| 0 <= k < |r| && Inside(r[k], x, y);
        assert t[k] == a[i + k] && Inside(a[i + k], x, y);
      }
      if In(a, x, y) && line <= y {
        var k :| 0 <= k < |a| && Inside(a[k], x, y);
        assert t[k - i] == a[k] && Inside(r[k - i], x, y);
      }
    }
  }

  /** Settling the rest of one operand, if it is wanted, completes the answer. */
  lemma FinishSweep(out: seq<Box>, p: nat, added: seq<Box>, a: seq<Box>, i: nat, b: seq<Box>, op: BoolOp, line: int,
                    canonical: bool)
    requires Swept(out, a, b, op, line, canonical) && LastBand(out, p) && Form(a, canonical) && Form(b, canonical)
    requires Reached(a, i, line) && Reached(b, |b|, line)
    requires added == if op.only1 then Clipped(a[i..], line) else []
    ensures Form(Settled(out, p, added), canonical)
    ensures forall x, y :: In(Settled(out, p, added), x, y) <==> op.Holds(In(a, x, y), In(b, x, y))
  {
    RestBelow(a, i, line, canonical);
    assert Stacked(out, added) by {
      forall k | 0 <= k < |added| ensures line <= added[k].y1 {}
    }
    SettledForm(out, p, added, canonical);
    forall x, y ensures In(Settled(out, p, added), x, y) <==> op.Holds(In(a, x, y), In(b, x, y)) {
      SettledPoints(out, p, added, x, y);
      if line <= y { RowReached(b, |b|, line, x, y); }
      if !op.only1 && In(added, x, y) { assert false; }
    }
  }

  /** Coalesce after a band handler, when it added any boxes. */
  method Settle(reg: Region, prevBand: nat, curBand: nat) returns (band: nat)
    requires reg.Valid() && !reg.shared && reg.size > 0
    requires prevBand <= curBand <= |reg.rects| && LastBand(reg.rects[..curBand], prevBand)
    modifies reg
    ensures reg.Valid() && !reg.shared && reg.size == old(reg.size) && reg.extents == old(reg.extents)
    ensures reg.rects == Settled(old(reg.rects)[..curBand], prevBand, old(reg.rects)[curBand..])
    ensures (&& Banded(old(reg.rects)[..curBand]) && OneBand(old(reg.rects)[curBand..])
             && Stacked(old(reg.rects)[..curBand], old(reg.rects)[curBand..])) ==> LastBand(reg.rects, band)
  {
    ghost var out, added := reg.rects[..curBand], reg.rects[curBand..];
    assert reg.rects == out + added;
    band := prevBand;
    if |reg.rects| != curBand {
      band := Coalesce(reg, prevBand, curBand);
      if Banded(out) && OneBand(added) && Stacked(out, added) { SettledLastBand(out, prevBand, added); }
    }
  }

  ghost predicate BandStart(a: seq<Box>, r: nat) {
    r <= |a| && (0 < r < |a| ==> a[r - 1].y1 != a[r].y1)
  }

  /** Hand one band on to a callback, clipped at the line. */
  method CopyNext(reg: Region, fn: NonOverlapFn, a: seq<Box>, ghost i: nat, r: nat, line: int, ghost out: seq<Box>)
    returns (e: nat)
    requires reg.Valid() && reg.size > 0 && !reg.shared && !fn.NullFn?
    requires Banded(a) && i <= r < |a| && BandStart(a, r)
    requires reg.rects == out + Clipped(a[i..r], line)
    modifies reg
    ensures reg.Valid() && reg.size > 0 && !reg.shared && reg.extents == old(reg.extents)
    ensures r < e && BandStart(a, e)
    ensures reg.rects == out + Clipped(a[i..e], line)
  {
    e := ScanBand(a, r);
    assert BandAt(a, r, e);
    CallNonOverlap(fn, reg, a[r..e], Max(a[r].y1, line), a[r].y2);
    ghost var before := old(reg.rects);
    ghost var added := reg.rects[|before|..];
    RestGrows(a, i, line, r, e, added);
    InPieces(out, Clipped(a[i..r], line), added, reg.rects);
  }

  /** Hand the bands of `a` from box `i` on to a callback, the first clipped at the line. */
  method CopyRest(reg: Region, fn: NonOverlapFn, a: seq<Box>, i: nat, line: int)
    requires reg.Valid() && reg.size > 0 && !reg.shared && !fn.NullFn?
    requires Banded(a) && Reached(a, i, line) && i < |a|
    modifies reg
    ensures reg.Valid() && reg.size > 0 && !reg.shared && reg.extents == old(reg.extents)
    ensures reg.rects == old(reg.rects) + Clipped(a[i..], line)
  {
    var r := i;
    while r != |a|
      invariant i <= r && BandStart(a, r)
      invariant reg.Valid() && reg.size > 0 && !reg.shared && reg.extents == old(reg.extents)
      invariant reg.rects == old(reg.rects) + Clipped(a[i..r], line)
      decreases |a| - r
    {
      r := CopyNext(reg, fn, a, i, r, line, old(reg.rects));
    }
    assert a[i..|a|] == a[i..];
  }

  lemma InPieces(u: seq<Box>, v: seq<Box>, w: seq<Box>, s: seq<Box>)
    requires u + v <= s && w == s[|u + v|..]
    ensures s == u + (v + w)
  {
  }

  lemma RestGrows(a: seq<Box>, i: nat, line: int, r: nat, e: nat, added: seq<Box>)
    requires Banded(a) && i <= r && BandAt(a, r, e)
    requires CopyOf(added, a[r..e], Max(a[r].y1, line), a[r].y2)
    ensures Clipped(a[i..r], line) + added == Clipped(a[i..e], line)
  {
    BandIsBand(a, r, e);
    assert a[i..e] == a[i..r] + a[r..e];
    assert Clipped(a[r..e], line) == added;
  }

  /** The state of the sweep between two passes of its loop. */
  ghost predicate Sweeping(out: seq<Box>, p: nat, a: seq<Box>, i: nat, b: seq<Box>, j: nat, op: BoolOp, line: int,
                           canonical: bool) {
    && Swept(out, a, b, op, line, canonical) && LastBand(out, p)
    && Reached(a, i, line) && Reached(b, j, line)
    && (i < |a| && j < |b| ==> line <= Max(a[i].y1, b[j].y1))
  }

  lemma SweepStarts(a: seq<Box>, e: Box, b: seq<Box>, f: Box, op: BoolOp, canonical: bool)
    requires Exact(a, e) && Exact(b, f) && a != [] && b != []
    ensures Sweeping([], 0, a, 0, b, 0, op, Min(e.y1, f.y1), canonical)
  {
    CornerIn(a);
    CornerIn(b);
    assert Inside(e, a[0].x1, a[0].y1) && Inside(f, b[0].x1, b[0].y1);
    assert Proper(a[0]) && Proper(b[0]);
  }

  /** The two bands at the line have been handled down to `line'`; step over those that end there. */
  lemma SweepSteps(out: seq<Box>, p: nat, a: seq<Box>, i: nat, b: seq<Box>, j: nat, op: BoolOp, line: int, line': int,
                   canonical: bool)
    requires Banded(a) && Banded(b) && Reached(a, i, line) && Reached(b, j, line) && i < |a| && j < |b|
    requires line <= line' == Min(a[i].y2, b[j].y2)
    requires Swept(out, a, b, op, line', canonical) && LastBand(out, p)
    ensures Sweeping(out, p, a, if a[i].y2 == line' then BandEnd(a, i) else i,
                     b, if b[j].y2 == line' then BandEnd(b, j) else j, op, line', canonical)
  {
    ReachOn(a, i, line, line');
    ReachOn(b, j, line, line');
  }

  /** The next band of `a` starts above the next band of `b`: hand on its part above that band. */
  method OneSidedPart(reg: Region, a: seq<Box>, i: nat, e: nat, b: seq<Box>, j: nat, line: int,
                      fn: NonOverlapFn, prevBand: nat, ghost op: BoolOp, ghost canonical: bool) returns (band: nat)
    requires reg.Valid() && reg.size > 0 && !reg.shared
    requires Form(a, canonical) && Banded(b) && i < |a| && j < |b| && e == BandEnd(a, i)
    requires Sweeping(reg.rects, prevBand, a, i, b, j, op, line, canonical) && a[i].y1 < b[j].y1
    requires fn.NullFn? <==> !op.only1
    modifies reg
    ensures reg.Valid() && reg.size > 0 && !reg.shared && reg.extents == old(reg.extents)
    ensures Swept(reg.rects, a, b, op, Min(a[i].y2, b[j].y1), canonical) && LastBand(reg.rects, band)
  {
    var curBand := |reg.rects|;
    ghost var out := reg.rects;
    BandIsBand(a, i, e);
    var top := Max(a[i].y1, line);
    var bot := Min(a[i].y2, b[j].y1);
    if top != bot && !fn.NullFn? {
      CallNonOverlap(fn, reg, a[i..e], top, bot);
    }
    ghost var added := reg.rects[curBand..];
    OneOperandRows(out, prevBand, added, a, i, b, j, op, line, canonical);
    OneOperandStack(out, added, a, i, b, j, op, line, canonical);
    assert reg.rects[..curBand] == out;
    band := Settle(reg, prevBand, curBand);
  }

  lemma OneOperandStack(out: seq<Box>, added: seq<Box>, a: seq<Box>, i: nat, b: seq<Box>, j: nat, op: BoolOp, line: int,
                        canonical: bool)
    requires Swept(out, a, b, op, line, canonical) && i < |a| && j < |b|
    requires IsBand(added, Max(a[i].y1, line), Min(a[i].y2, b[j].y1))
    requires added != [] ==> Max(a[i].y1, line) < Min(a[i].y2, b[j].y1)
    ensures OneBand(added) && Stacked(out, added)
  {
    if added != [] { BandForm(added, Max(a[i].y1, line), Min(a[i].y2, b[j].y1)); }
  }

  /** The band of one operand above the next band of the other, if any; `ytop` is where overlap may start. */
  method NonOverlapPart(reg: Region, a: seq<Box>, i: nat, e1: nat, b: seq<Box>, j: nat, e2: nat, line: int,
                        fn1: NonOverlapFn, fn2: NonOverlapFn, prevBand: nat, ghost op: BoolOp, ghost canonical: bool)
    returns (ytop: int, band: nat)
    requires reg.Valid() && reg.size > 0 && !reg.shared
    requires Form(a, canonical) && Form(b, canonical) && i < |a| && j < |b|
    requires e1 == BandEnd(a, i) && e2 == BandEnd(b, j)
    requires Sweeping(reg.rects, prevBand, a, i, b, j, op, line, canonical)
    requires (fn1.NullFn? <==> !op.only1) && (fn2.NullFn? <==> !op.only2)
    modifies reg
    ensures reg.Valid() && reg.size > 0 && !reg.shared && reg.extents == old(reg.extents)
    ensures ytop == Max(a[i].y1, b[j].y1) && LastBand(reg.rects, band)
    ensures Swept(reg.rects, a, b, op, Min(ytop, Min(a[i].y2, b[j].y2)), canonical)
  {
    assert Proper(a[i]) && Proper(b[j]);
    if a[i].y1 < b[j].y1 {
      band := OneSidedPart(reg, a, i, e1, b, j, line, fn1, prevBand, op, canonical);
      ytop := b[j].y1;
    } else if b[j].y1 < a[i].y1 {
      SweptFlip(reg.rects, a, b, op, line, canonical);
      band := OneSidedPart(reg, b, j, e2, a, i, line, fn2, prevBand, Flip(op), canonical);
      SweptFlip(reg.rects, b, a, Flip(op), Min(b[j].y2, a[i].y1), canonical);
      ytop := a[i].y1;
    } else {
      ytop := a[i].y1;
      EmptyRows(reg.rects, prevBand, a, i, b, j, op, line, ytop, canonical);
      band := prevBand;
    }
  }

  /** The rows where both operands have a band, if any. */
  method OverlapPart(reg: Region, a: seq<Box>, i: nat, e1: nat, b: seq<Box>, j: nat, e2: nat,
                     ghost line: int, ytop: int, ybot: int, fn: OverlapFn,
                     ghost n1: NonOverlapFn, ghost n2: NonOverlapFn, prevBand: nat, ghost op: BoolOp,
                     ghost canonical: bool)
    returns (band: nat)
    requires reg.Valid() && reg.size > 0 && !reg.shared
    requires Form(a, canonical) && Form(b, canonical) && i < |a| && j < |b|
    requires e1 == BandEnd(a, i) && e2 == BandEnd(b, j)
    requires Reached(a, i, line) && Reached(b, j, line) && line <= ytop == Max(a[i].y1, b[j].y1)
    requires ybot == Min(a[i].y2, b[j].y2) && Computes(fn, n1, n2, op)
    requires Swept(reg.rects, a, b, op, Min(ytop, ybot), canonical) && LastBand(reg.rects, prevBand)
    modifies reg
    ensures reg.Valid() && reg.size > 0 && !reg.shared && reg.extents == old(reg.extents)
    ensures Swept(reg.rects, a, b, op, ybot, canonical) && LastBand(reg.rects, band)
  {
    var curBand := |reg.rects|;
    ghost var out := reg.rects;
    BandIsBand(a, i, e1);
    BandIsBand(b, j, e2);
    if ybot > ytop {
      CallOverlap(fn, reg, a[i..e1], b[j..e2], ytop, ybot, n1, n2, op);
      ghost var added := reg.rects[curBand..];
      BandForm(added, ytop, ybot);
      BothOperandRows(out, prevBand, added, a, i, b, j, op, line, ytop, ybot, canonical);
    }
    assert reg.rects[..curBand] == out;
    band := Settle(reg, prevBand, curBand);
  }

  /** Whichever operand still has boxes is handed on, and the seam is coalesced. */
  method RestPart(reg: Region, a: seq<Box>, i: nat, b: seq<Box>, j: nat, line: int,
                  fn1: NonOverlapFn, fn2: NonOverlapFn, prevBand: nat, ghost op: BoolOp, ghost canonical: bool)
    requires reg.Valid() && reg.size > 0 && !reg.shared
    requires Form(a, canonical) && Form(b, canonical) && Sweeping(reg.rects, prevBand, a, i, b, j, op, line, canonical)
    requires i == |a| || j == |b|
    requires (fn1.NullFn? <==> !op.only1) && (fn2.NullFn? <==> !op.only2)
    modifies reg
    ensures reg.Valid() && reg.size > 0 && !reg.shared && reg.extents == old(reg.extents)
    ensures Form(reg.rects, canonical)
    ensures forall x, y :: In(reg.rects, x, y) <==> op.Holds(In(a, x, y), In(b, x, y))
  {
    var curBand := |reg.rects|;
    ghost var out := reg.rects;
    if i != |a| {
      if !fn1.NullFn? {
        CopyRest(reg, fn1, a, i, line);
      }
    } else if j != |b| && !fn2.NullFn? {
      CopyRest(reg, fn2, b, j, line);
    }
    ghost var added := reg.rects[curBand..];
    assert reg.rects[..curBand] == out;
    if i == |a| {
      SweptFlip(out, a, b, op, line, canonical);
      FinishSweep(out, prevBand, added, b, j, a, Flip(op), line, canonical);
    } else {
      FinishSweep(out, prevBand, added, a, i, b, op, line, canonical);
    }
    var _ := Settle(reg, prevBand, curBand);
    forall x, y ensures In(reg.rects, x, y) <==> op.Holds(In(a, x, y), In(b, x, y)) {
    }
  }

  /** The final resizing of the box array; an empty region goes back to sharing the extents record. */
  method Trim(reg: Region)
    requires reg.Valid() && !reg.shared
    modifies reg
    ensures reg.Valid() && reg.rects == old(reg.rects) && reg.extents == old(reg.extents)
    ensures reg.size == if |reg.rects| < old(reg.size) / 2 then Max(|reg.rects|, 1) else old(reg.size)
    ensures reg.shared <==> reg.rects == [] && old(reg.size) >= 2
  {
    if |reg.rects| < reg.size / 2 {
      if reg.rects != [] {
        reg.size := |reg.rects|;
      } else {
        reg.size := 1;
        reg.shared := true;
      }
    }
  }

  /**
   * miRegionOp. The destination may be the first operand: its old boxes stay readable while it is
   * rebuilt. It is emptied before the capacity is chosen, so then only the second operand counts.
   */
  method RegionOp(newReg: Region, reg1: Region, reg2: Region, overlapFn: OverlapFn,
                  nonOverlap1Fn: NonOverlapFn, nonOverlap2Fn: NonOverlapFn, ghost op: BoolOp)
    requires newReg != reg2 && newReg.Valid()
    requires reg1.Usable() && reg2.Usable() && reg1.rects != [] && reg2.rects != []
    requires Computes(overlapFn, nonOverlap1Fn, nonOverlap2Fn, op)
    modifies newReg
    ensures newReg.Valid() && Banded(newReg.rects) && newReg.extents == old(newReg.extents)
    ensures Canonical(old(reg1.rects)) && Canonical(reg2.rects) ==> Canonical(newReg.rects)
    ensures forall x, y :: In(newReg.rects, x, y) <==> op.Holds(In(old(reg1.rects), x, y), In(reg2.rects, x, y))
  {
    var a, b := reg1.rects, reg2.rects;
    var r1, r2 := 0, 0;
    ghost var canonical := Canonical(a) && Canonical(b);
    SweepStarts(a, reg1.extents, b, reg2.extents, op, canonical);
    newReg.rects := [];
    newReg.size := Max(|reg1.rects|, |reg2.rects|) * 2;
    newReg.shared := false;
    var ybot := if reg1.extents.y1 < reg2.extents.y1 then reg1.extents.y1 else reg2.extents.y1;
    var prevBand := 0;
    while r1 != |a| && r2 != |b|
      invariant 0 <= r1 <= |a| && 0 <= r2 <= |b| && 0 <= prevBand
      invariant newReg.Valid() && newReg.size > 0 && !newReg.shared && newReg.extents == old(newReg.extents)
      invariant Sweeping(newReg.rects, prevBand, a, r1, b, r2, op, ybot, canonical)
      decreases |a| - r1 + |b| - r2
    {
      ghost var line := ybot;
      var r1BandEnd := ScanBand(a, r1);
      var r2BandEnd := ScanBand(b, r2);
      var ytop;
      ytop, prevBand := NonOverlapPart(newReg, a, r1, r1BandEnd, b, r2, r2BandEnd, ybot,
                                       nonOverlap1Fn, nonOverlap2Fn, prevBand, op, canonical);
      ybot := Min(a[r1].y2, b[r2].y2);
      prevBand := OverlapPart(newReg, a, r1, r1BandEnd, b, r2, r2BandEnd, line, ytop, ybot,
                              overlapFn, nonOverlap1Fn, nonOverlap2Fn, prevBand, op, canonical);
      SweepSteps(newReg.rects, prevBand, a, r1, b, r2, op, line, ybot, canonical);
      var done1, done2 := a[r1].y2 == ybot, b[r2].y2 == ybot;
      if done1 { r1 := r1BandEnd; }
      if done2 { r2 := r2BandEnd; }
    }
    RestPart(newReg, a, r1, b, r2, ybot, nonOverlap1Fn, nonOverlap2Fn, prevBand, op, canonical);
    Trim(newReg);
  }
}
