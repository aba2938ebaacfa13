/** The callbacks of the sweep: each appends one band computed from the bands of its operands. */
module BandOps {
  import opened Boxes
  import opened Banding
  import opened Geometry
  import opened Regions

  lemma CoversSnoc(s: seq<Box>, b: Box, x: int)
    ensures Covers(s + [b], x) <==> Covers(s, x) || b.x1 <= x < b.x2
  {
    var t := s + [b];
    if Covers(s, x) {
      var i :| 0 <= i < |s| && 0 <= i && s[i].x1 <= x < s[i].x2;
      assert t[i] == s[i];
    }
    if b.x1 <= x < b.x2 { assert t[|s|] == b; }
  }

  /** The columns of a box grown to the right. */
  lemma CoversGrown(s: seq<Box>, x2: int, x: int)
    requires s != [] && s[|s| - 1].x2 <= x2
    ensures Covers(s[|s| - 1 := s[|s| - 1].(x2 := x2)], x) <==>
            Covers(s, x) || (s[|s| - 1].x2 <= x < x2 && s[|s| - 1].x1 <= x)
  {
    var n := |s| - 1;
    var t := s[n := s[n].(x2 := x2)];
    if Covers(s, x) {
      var i :| 0 <= i < |s| && 0 <= i && s[i].x1 <= x < s[i].x2;
      assert t[i].x1 <= x < t[i].x2;
    }
    if Covers(t, x) {
      var i :| 0 <= i < |t| && 0 <= i && t[i].x1 <= x < t[i].x2;
      assert i < n ==> s[i] == t[i];
      assert i == n && x < s[n].x2 ==> s[n].x1 <= x < s[n].x2;
    }
    if s[n].x2 <= x < x2 && s[n].x1 <= x { assert t[n].x1 <= x < t[n].x2; }
  }

  lemma EmptyCovers(x: int)
    ensures !Covers([], x)
  {
  }

  /** `added` is the band `r` with the rows y1 to y2. */
  ghost predicate CopyOf(added: seq<Box>, r: seq<Box>, y1: int, y2: int) {
    |added| == |r| && forall k :: 0 <= k < |r| ==> added[k] == Box(r[k].x1, y1, r[k].x2, y2)
  }

  /** miUnionNonO and miSubtractNonO1: copy the columns of a band to other rows. */
  method CopyBand(reg: Region, r: seq<Box>, y1: int, y2: int)
    requires reg.Valid() && reg.size > 0 && !reg.shared
    modifies reg
    ensures reg.Valid() && reg.size > 0 && !reg.shared && reg.extents == old(reg.extents)
    ensures old(reg.rects) <= reg.rects && CopyOf(reg.rects[|old(reg.rects)|..], r, y1, y2)
  {
    var i := 0;
    ghost var done: seq<Box> := [];
    while i < |r|
      invariant 0 <= i <= |r| && reg.rects == old(reg.rects) + done
      invariant reg.Valid() && reg.size > 0 && !reg.shared && reg.extents == old(reg.extents)
      invariant CopyOf(done, r[..i], y1, y2)
    {
      Append(reg, Box(r[i].x1, y1, r[i].x2, y2));
      done := done + [Box(r[i].x1, y1, r[i].x2, y2)];
      i := i + 1;
    }
    assert reg.rects[|old(reg.rects)|..] == done && r[..|r|] == r;
  }

  /** What is left to intersect is one overlap and the rest after the box that ends first. */
  lemma IntersectStep(r1: seq<Box>, i: nat, r2: seq<Box>, j: nat, x: int)
    requires Spread(r1) && Spread(r2) && i < |r1| && j < |r2|
    ensures CoversFrom(r1, i, x) && CoversFrom(r2, j, x) <==>
            || Max(r1[i].x1, r2[j].x1) <= x < Min(r1[i].x2, r2[j].x2)
            || (CoversFrom(r1, if r1[i].x2 <= r2[j].x2 then i + 1 else i, x) &&
                CoversFrom(r2, if r2[j].x2 <= r1[i].x2 then j + 1 else j, x))
  {
    CoversFromStep(r1, i, x);
    CoversFromStep(r2, j, x);
    if CoversFrom(r1, i + 1, x) { CoversFromBeyond(r1, i + 1, x); }
    if CoversFrom(r2, j + 1, x) { CoversFromBeyond(r2, j + 1, x); }
  }

  ghost predicate LeftOf(done: seq<Box>, fence: int) {
    forall k :: 0 <= k < |done| ==> done[k].x2 <= fence
  }

  ghost predicate ClearOf(done: seq<Box>, fence: int) {
    forall k :: 0 <= k < |done| ==> done[k].x2 < fence
  }

  /** The boxes `done` and the overlap of what remains make up the overlap of the two bands. */
  ghost predicate Intersecting(done: seq<Box>, r1: seq<Box>, i: nat, r2: seq<Box>, j: nat) {
    && i <= |r1| && j <= |r2| && Spread(done) && (Apart(r1) && Apart(r2) ==> Apart(done))
    && (i < |r1| && j < |r2| ==>
          && LeftOf(done, Max(r1[i].x1, r2[j].x1))
          && (Apart(r1) && Apart(r2) ==> ClearOf(done, Max(r1[i].x1, r2[j].x1))))
    && forall x :: Covers(done, x) || (CoversFrom(r1, i, x) && CoversFrom(r2, j, x)) <==> Covers(r1, x) && Covers(r2, x)
  }

  lemma OverlapPlaced(done: seq<Box>, r1: seq<Box>, i: nat, r2: seq<Box>, j: nat, i': nat, j': nat, b: Box)
    requires Spread(r1) && Spread(r2) && i < |r1| && j < |r2| && Intersecting(done, r1, i, r2, j)
    requires i' == (if r1[i].x2 <= r2[j].x2 then i + 1 else i) && j' == if r2[j].x2 <= r1[i].x2 then j + 1 else j
    requires b.x1 == Max(r1[i].x1, r2[j].x1) && b.x2 == Min(r1[i].x2, r2[j].x2)
    ensures b.x1 < b.x2 ==> Spread(done + [b]) && (Apart(r1) && Apart(r2) ==> Apart(done + [b]))
    ensures i' < |r1| && j' < |r2| ==> var x := Max(r1[i'].x1, r2[j'].x1);
              && LeftOf(done, x) && b.x2 <= x
              && (Apart(r1) && Apart(r2) ==> ClearOf(done, x) && (b.x1 < b.x2 ==> b.x2 < x))
  {
    if i' < |r1| && i' != i { assert r1[i].x2 <= r1[i'].x1; }
    if j' < |r2| && j' != j { assert r2[j].x2 <= r2[j'].x1; }
  }

  lemma IntersectNext(done: seq<Box>, r1: seq<Box>, i: nat, r2: seq<Box>, j: nat, i': nat, j': nat, b: Box,
                      done': seq<Box>)
    requires Spread(r1) && Spread(r2) && i < |r1| && j < |r2| && Intersecting(done, r1, i, r2, j)
    requires i' == (if r1[i].x2 <= r2[j].x2 then i + 1 else i) && j' == if r2[j].x2 <= r1[i].x2 then j + 1 else j
    requires b.x1 == Max(r1[i].x1, r2[j].x1) && b.x2 == Min(r1[i].x2, r2[j].x2)
    requires done' == if b.x1 < b.x2 then done + [b] else done
    ensures Intersecting(done', r1, i', r2, j')
  {
    OverlapPlaced(done, r1, i, r2, j, i', j', b);
    forall x { IntersectStep(r1, i, r2, j, x); }
    forall x { CoversSnoc(done, b, x); }
  }

  /** miIntersectO: the overlap of two bands. */
  method IntersectO(reg: Region, r1: seq<Box>, r2: seq<Box>, y1: int, y2: int)
    requires reg.Valid() && reg.size > 0 && !reg.shared
    requires Spread(r1) && Spread(r2)
    modifies reg
    ensures reg.Valid() && reg.size > 0 && !reg.shared && reg.extents == old(reg.extents)
    ensures old(reg.rects) <= reg.rects
    ensures IsBand(reg.rects[|old(reg.rects)|..], y1, y2)
    ensures Apart(r1) && Apart(r2) ==> Apart(reg.rects[|old(reg.rects)|..])
    ensures forall x :: Covers(reg.rects[|old(reg.rects)|..], x) <==> Covers(r1, x) && Covers(r2, x)
  {
    var i, j := 0, 0;
    ghost var done: seq<Box> := [];
    forall x ensures !Covers(done, x) { EmptyCovers(x); }
    while i < |r1| && j < |r2|
      invariant 0 <= i && 0 <= j && Intersecting(done, r1, i, r2, j)
      invariant reg.Valid() && reg.size > 0 && !reg.shared && reg.extents == old(reg.extents)
      invariant reg.rects == old(reg.rects) + done && Rows(done, y1, y2)
    {
      var x1 := Max(r1[i].x1, r2[j].x1);
      var x2 := Min(r1[i].x2, r2[j].x2);
      ghost var done' := if x1 < x2 then done + [Box(x1, y1, x2, y2)] else done;
      if x1 < x2 {
        Append(reg, Box(x1, y1, x2, y2));
      }
      var i', j' := i, j;
      if r1[i].x2 < r2[j].x2 {
        i' := i + 1;
      } else if r2[j].x2 < r1[i].x2 {
        j' := j + 1;
      } else {
        i' := i + 1;
        j' := j + 1;
      }
      IntersectNext(done, r1, i, r2, j, i', j', Box(x1, y1, x2, y2), done');
      i, j, done := i', j', done';
    }
    assert reg.rects[|old(reg.rects)|..] == done;
  }

  /** The last box reaches at least to column x2. */
  ghost function Widened(done: seq<Box>, x2: int): seq<Box>
    requires done != []
  {
    var b := done[|done| - 1];
    if b.x2 < x2 then done[|done| - 1 := b.(x2 := x2)] else done
  }

  lemma WidenedBand(done: seq<Box>, b: Box, y1: int, y2: int)
    requires done != [] && IsBand(done, y1, y2) && Apart(done)
    requires b.x1 < b.x2 && done[|done| - 1].x1 <= b.x1 <= done[|done| - 1].x2
    ensures var r := Widened(done, b.x2);
            && IsBand(r, y1, y2) && Apart(r) && r[|r| - 1].x1 <= b.x1
            && forall x :: Covers(r, x) <==> Covers(done, x) || b.x1 <= x < b.x2
  {
    var l := |done| - 1;
    if done[l].x2 < b.x2 { forall x { CoversGrown(done, b.x2, x); } }
    forall x | b.x1 <= x < b.x2 && x < done[l].x2 ensures Covers(done, x) { assert done[l].x1 <= x < done[l].x2; }
  }

  /** MERGERECT: join a box to the last one when it starts inside or right after it in this band. */
  method MergeRect(reg: Region, b: Box, y1: int, y2: int, ghost done: seq<Box>, ghost before: seq<Box>)
    returns (ghost done': seq<Box>)
    requires reg.Valid() && reg.size > 0 && !reg.shared
    requires reg.rects == before + done && IsBand(done, y1, y2) && Apart(done)
    requires b.x1 < b.x2 && y1 < y2
    requires forall k :: 0 <= k < |before| ==> before[k].y2 <= y1
    requires done != [] ==> done[|done| - 1].x1 <= b.x1
    modifies reg
    ensures reg.Valid() && reg.size > 0 && !reg.shared && reg.extents == old(reg.extents)
    ensures reg.rects == before + done' && IsBand(done', y1, y2) && Apart(done')
    ensures done' != [] && done'[|done'| - 1].x1 <= b.x1
    ensures forall x :: Covers(done', x) <==> Covers(done, x) || b.x1 <= x < b.x2
  {
    var n := |reg.rects| - 1;
    if |reg.rects| != 0 && reg.rects[n].y1 == y1 && reg.rects[n].y2 == y2 && reg.rects[n].x2 >= b.x1 {
      assert done != [] && reg.rects[n] == done[|done| - 1];
      done' := Widened(done, b.x2);
      WidenedBand(done, b, y1, y2);
      if reg.rects[n].x2 < b.x2 { reg.WriteBox(n, reg.rects[n].(x2 := b.x2)); }
    } else {
      done' := done + [Box(b.x1, y1, b.x2, y2)];
      if done != [] { assert reg.rects[n] == done[|done| - 1]; }
      forall x { CoversSnoc(done, Box(b.x1, y1, b.x2, y2), x); }
      Append(reg, Box(b.x1, y1, b.x2, y2));
    }
  }

  /** The boxes `done` and what remains of both bands make up their union. */
  ghost predicate Uniting(done: seq<Box>, r1: seq<Box>, i: nat, r2: seq<Box>, j: nat) {
    && i <= |r1| && j <= |r2| && Spread(done) && Apart(done)
    && (done != [] && i < |r1| ==> done[|done| - 1].x1 <= r1[i].x1)
    && (done != [] && j < |r2| ==> done[|done| - 1].x1 <= r2[j].x1)
    && forall x :: Covers(done, x) || CoversFrom(r1, i, x) || CoversFrom(r2, j, x) <==>
                   Covers(r1, x) || Covers(r2, x)
  }

  lemma UniteNext(done: seq<Box>, done': seq<Box>, r1: seq<Box>, i: nat, r2: seq<Box>, j: nat)
    requires Uniting(done, r1, i, r2, j) && Spread(r1) && Spread(done') && Apart(done')
    requires i < |r1| && (j < |r2| ==> r1[i].x1 <= r2[j].x1)
    requires done' != [] && done'[|done'| - 1].x1 <= r1[i].x1
    requires forall x :: Covers(done', x) <==> Covers(done, x) || r1[i].x1 <= x < r1[i].x2
    ensures Uniting(done', r1, i + 1, r2, j)
  {
    forall x { CoversFromStep(r1, i, x); }
  }

  lemma UnitingSwap(done: seq<Box>, r1: seq<Box>, i: nat, r2: seq<Box>, j: nat)
    requires Uniting(done, r1, i, r2, j)
    ensures Uniting(done, r2, j, r1, i)
  {
  }

  /** miUnionO: merge two bands from left to right. */
  method UnionO(reg: Region, r1: seq<Box>, r2: seq<Box>, y1: int, y2: int)
    requires reg.Valid() && reg.size > 0 && !reg.shared
    requires Spread(r1) && Spread(r2) && y1 < y2
    requires forall k :: 0 <= k < |reg.rects| ==> reg.rects[k].y2 <= y1
    modifies reg
    ensures reg.Valid() && reg.size > 0 && !reg.shared && reg.extents == old(reg.extents)
    ensures old(reg.rects) <= reg.rects
    ensures IsBand(reg.rects[|old(reg.rects)|..], y1, y2) && Apart(reg.rects[|old(reg.rects)|..])
    ensures forall x :: Covers(reg.rects[|old(reg.rects)|..], x) <==> Covers(r1, x) || Covers(r2, x)
  {
    var i, j := 0, 0;
    ghost var before, done: seq<Box> := reg.rects, [];
    forall x ensures !Covers(done, x) { EmptyCovers(x); }
    while i < |r1| && j < |r2|
      invariant reg.Valid() && reg.size > 0 && !reg.shared && reg.extents == old(reg.extents)
      invariant reg.rects == before + done && Rows(done, y1, y2)
      invariant 0 <= i && 0 <= j && Uniting(done, r1, i, r2, j)
      decreases |r1| - i + |r2| - j
    {
      if r1[i].x1 < r2[j].x1 {
        i, done := TakeNext(reg, r1, i, r2, j, y1, y2, before, done);
      } else {
        UnitingSwap(done, r1, i, r2, j);
        j, done := TakeNext(reg, r2, j, r1, i, y1, y2, before, done);
        UnitingSwap(done, r2, j, r1, i);
      }
    }
    if i < |r1| {
      while i < |r1|
        invariant reg.Valid() && reg.size > 0 && !reg.shared && reg.extents == old(reg.extents)
        invariant reg.rects == before + done && Rows(done, y1, y2)
        invariant 0 <= i && j == |r2| && Uniting(done, r1, i, r2, j)
      {
        i, done := TakeNext(reg, r1, i, r2, j, y1, y2, before, done);
      }
    } else {
      UnitingSwap(done, r1, i, r2, j);
      while j < |r2|
        invariant reg.Valid() && reg.size > 0 && !reg.shared && reg.extents == old(reg.extents)
        invariant reg.rects == before + done && Rows(done, y1, y2)
        invariant 0 <= j && i == |r1| && Uniting(done, r2, j, r1, i)
      {
        j, done := TakeNext(reg, r2, j, r1, i, y1, y2, before, done);
      }
    }
    assert reg.rects[|before|..] == done;
  }

  /** MERGERECT(r) with its advance of `r`, for the operand whose next box starts first. */
  method TakeNext(reg: Region, r: seq<Box>, i: nat, ghost other: seq<Box>, ghost j: nat, y1: int, y2: int,
                  ghost before: seq<Box>, ghost done: seq<Box>)
    returns (i': nat, ghost done': seq<Box>)
    requires reg.Valid() && reg.size > 0 && !reg.shared
    requires reg.rects == before + done && Rows(done, y1, y2) && y1 < y2
    requires forall k :: 0 <= k < |before| ==> before[k].y2 <= y1
    requires Spread(r) && Uniting(done, r, i, other, j)
    requires i < |r| && (j < |other| ==> r[i].x1 <= other[j].x1)
    modifies reg
    ensures reg.Valid() && reg.size > 0 && !reg.shared && reg.extents == old(reg.extents)
    ensures reg.rects == before + done' && Rows(done', y1, y2)
    ensures i' == i + 1 && Uniting(done', r, i', other, j)
  {
    done' := MergeRect(reg, r[i], y1, y2, done, before);
    UniteNext(done, done', r, i, other, j);
    i' := i + 1;
  }

  /** What is left of the minuend: box i from column `fence` on, and every later box. */
  ghost predicate Remains(r1: seq<Box>, i: nat, fence: int, x: int) {
    i < |r1| && (fence <= x < r1[i].x2 || CoversFrom(r1, i + 1, x))
  }

  lemma RemainsStart(r1: seq<Box>, i: nat, x: int)
    requires i <= |r1|
    ensures Remains(r1, i, if i < |r1| then r1[i].x1 else 0, x) <==> CoversFrom(r1, i, x)
  {
    if i < |r1| { CoversFromStep(r1, i, x); }
  }

  /** Dropping the subtrahend box j when all that remains starts at or after its end. */
  lemma DropSubtrahend(r1: seq<Box>, i: nat, fence: int, r2: seq<Box>, j: nat, x: int)
    requires Spread(r1) && i < |r1| && j < |r2| && r2[j].x2 <= fence && fence <= r1[i].x2
    ensures Remains(r1, i, fence, x) && !CoversFrom(r2, j, x) <==>
            Remains(r1, i, fence, x) && !CoversFrom(r2, j + 1, x)
  {
    CoversFromStep(r2, j, x);
    if CoversFrom(r1, i + 1, x) { CoversFromBeyond(r1, i + 1, x); }
  }

  /** The columns from `fence` to the end of a subtrahend box that covers them can be skipped. */
  lemma SkipCovered(r1: seq<Box>, i: nat, fence: int, r2: seq<Box>, j: nat, x: int)
    requires Spread(r1) && Spread(r2) && i < |r1| && j < |r2|
    requires r2[j].x1 <= fence < r2[j].x2 && fence < r1[i].x2
    ensures Remains(r1, i, fence, x) && !CoversFrom(r2, j, x) <==>
            (if r1[i].x2 <= r2[j].x2 then CoversFrom(r1, i + 1, x) else Remains(r1, i, r2[j].x2, x)) &&
            !CoversFrom(r2, j, x)
  {
    CoversFromStep(r2, j, x);
  }

  /** A piece of the minuend left of every remaining subtrahend box survives. */
  lemma PieceSurvives(r1: seq<Box>, i: nat, fence: int, edge: int, r2: seq<Box>, j: nat, x: int)
    requires Spread(r1) && Spread(r2) && i < |r1|
    requires fence <= edge <= r1[i].x2 && (j < |r2| ==> edge <= r2[j].x1)
    ensures Remains(r1, i, fence, x) && !CoversFrom(r2, j, x) <==>
            fence <= x < edge || (Remains(r1, i, edge, x) && !CoversFrom(r2, j, x))
  {
    if CoversFrom(r2, j, x) { CoversFromBeyond(r2, j, x); }
    if CoversFrom(r1, i + 1, x) { CoversFromBeyond(r1, i + 1, x); }
  }

  /** The boxes `done` and what remains of the minuend make up the difference of the two bands. */
  ghost predicate Subtracting(done: seq<Box>, r1: seq<Box>, i: nat, fence: int, r2: seq<Box>, j: nat) {
    && i <= |r1| && j <= |r2| && Spread(done) && (Apart(r1) ==> Apart(done))
    && (i < |r1| ==> r1[i].x1 <= fence < r1[i].x2 && LeftOf(done, fence) && (Apart(r1) ==> ClearOf(done, fence)))
    && forall x :: Covers(done, x) || (Remains(r1, i, fence, x) && !CoversFrom(r2, j, x)) <==>
                   Covers(r1, x) && !Covers(r2, x)
  }

  lemma SubtractStart(r1: seq<Box>, r2: seq<Box>)
    requires Spread(r1) && r1 != []
    ensures Subtracting([], r1, 0, r1[0].x1, r2, 0)
  {
    forall x ensures !Covers([], x) { EmptyCovers(x); }
    forall x { RemainsStart(r1, 0, x); }
  }

  lemma SubtractDrop(done: seq<Box>, r1: seq<Box>, i: nat, fence: int, r2: seq<Box>, j: nat)
    requires Subtracting(done, r1, i, fence, r2, j) && Spread(r1)
    requires i < |r1| && j < |r2| && r2[j].x2 <= fence
    ensures Subtracting(done, r1, i, fence, r2, j + 1)
  {
    forall x { DropSubtrahend(r1, i, fence, r2, j, x); }
  }

  /** Move the fence past a subtrahend box; either the minuend box or the subtrahend box is then used up. */
  method PassSubtrahend(ghost done: seq<Box>, r1: seq<Box>, i: nat, ghost fence: int, r2: seq<Box>, j: nat)
    returns (i': nat, x1: int, j': nat)
    requires Spread(done) && Spread(r1) && Spread(r2) && i < |r1| && j < |r2| && (Apart(r1) ==> Apart(done))
    requires r1[i].x1 <= fence < r1[i].x2 && r2[j].x1 <= fence < r2[j].x2
    requires LeftOf(done, fence)
    requires forall x :: Covers(done, x) || (Remains(r1, i, fence, x) && !CoversFrom(r2, j, x)) <==>
                         Covers(r1, x) && !Covers(r2, x)
    ensures Subtracting(done, r1, i', x1, r2, j') && i' + j' == i + j + 1
  {
    i', j' := i, j;
    x1 := r2[j].x2;
    forall x { SkipCovered(r1, i, fence, r2, j, x); }
    if x1 >= r1[i].x2 {
      i' := i + 1;
      if i' < |r1| { x1 := r1[i'].x1; }
      forall x { RemainsStart(r1, i', x); }
    } else {
      j' := j + 1;
      forall x { DropSubtrahend(r1, i, r2[j].x2, r2, j, x); }
    }
  }

  /** A piece up to `edge` is kept; the columns from `edge` on are still to be looked at. */
  lemma SubtractPiece(done: seq<Box>, b: Box, r1: seq<Box>, i: nat, fence: int, r2: seq<Box>, j: nat)
    requires Subtracting(done, r1, i, fence, r2, j) && Spread(r1) && Spread(r2)
    requires i < |r1| && b.x1 == fence < b.x2 <= r1[i].x2 && (j < |r2| ==> b.x2 <= r2[j].x1)
    ensures Spread(done + [b])
    ensures forall x :: Covers(done + [b], x) || (Remains(r1, i, b.x2, x) && !CoversFrom(r2, j, x)) <==>
                        Covers(r1, x) && !Covers(r2, x)
  {
    forall x { PieceSurvives(r1, i, fence, b.x2, r2, j, x); }
    forall x { CoversSnoc(done, b, x); }
  }

  lemma SubtractLast(done: seq<Box>, b: Box, r1: seq<Box>, i: nat, fence: int, r2: seq<Box>, j: nat, next: int)
    requires Subtracting(done, r1, i, fence, r2, j) && Spread(r1) && Spread(r2)
    requires i < |r1| && b.x1 == fence && b.x2 == r1[i].x2 && (j < |r2| ==> b.x2 <= r2[j].x1)
    requires i + 1 < |r1| ==> next == r1[i + 1].x1
    ensures Subtracting(done + [b], r1, i + 1, next, r2, j)
  {
    SubtractPiece(done, b, r1, i, fence, r2, j);
    var n := i + 1;
    forall x { RemainsStart(r1, n, x); }
  }

  /** The last loop of miSubtractO: add what remains of the minuend. */
  method SubtractRest(reg: Region, r1: seq<Box>, from: nat, fence: int, r2: seq<Box>, ghost j: nat, y1: int, y2: int,
                      ghost kept: seq<Box>, ghost before: seq<Box>)
    requires reg.Valid() && reg.size > 0 && !reg.shared
    requires Spread(r1) && Spread(r2) && Subtracting(kept, r1, from, fence, r2, j) && (from < |r1| ==> j == |r2|)
    requires reg.rects == before + kept && Rows(kept, y1, y2)
    modifies reg
    ensures reg.Valid() && reg.size > 0 && !reg.shared && reg.extents == old(reg.extents)
    ensures before <= reg.rects && IsBand(reg.rects[|before|..], y1, y2)
    ensures Apart(r1) ==> Apart(reg.rects[|before|..])
    ensures forall x :: Covers(reg.rects[|before|..], x) <==> Covers(r1, x) && !Covers(r2, x)
  {
    var i, x1 := from, fence;
    ghost var done := kept;
    while i < |r1|
      invariant reg.Valid() && reg.size > 0 && !reg.shared && reg.extents == old(reg.extents)
      invariant reg.rects == before + done && Rows(done, y1, y2)
      invariant 0 <= i && Subtracting(done, r1, i, x1, r2, j) && (i < |r1| ==> j == |r2|)
    {
      var piece := Box(x1, y1, r1[i].x2, y2);
      SubtractLast(done, piece, r1, i, x1, r2, j, if i + 1 < |r1| then r1[i + 1].x1 else x1);
      Append(reg, piece);
      done := done + [piece];
      i := i + 1;
      if i < |r1| { x1 := r1[i].x1; }
    }
    assert reg.rects[|before|..] == done;
  }

  /** miSubtractO: the first band without the second. */
  method SubtractO(reg: Region, r1: seq<Box>, r2: seq<Box>, y1: int, y2: int)
    requires reg.Valid() && reg.size > 0 && !reg.shared
    requires Spread(r1) && Spread(r2) && r1 != []
    modifies reg
    ensures reg.Valid() && reg.size > 0 && !reg.shared && reg.extents == old(reg.extents)
    ensures old(reg.rects) <= reg.rects
    ensures IsBand(reg.rects[|old(reg.rects)|..], y1, y2)
    ensures Apart(r1) ==> Apart(reg.rects[|old(reg.rects)|..])
    ensures forall x :: Covers(reg.rects[|old(reg.rects)|..], x) <==> Covers(r1, x) && !Covers(r2, x)
  {
    var i, j := 0, 0;
    var x1 := r1[0].x1;
    ghost var done: seq<Box> := [];
    SubtractStart(r1, r2);
    while i < |r1| && j < |r2|
      invariant reg.Valid() && reg.size > 0 && !reg.shared && reg.extents == old(reg.extents)
      invariant reg.rects == old(reg.rects) + done && Rows(done, y1, y2)
      invariant 0 <= i && 0 <= j && Subtracting(done, r1, i, x1, r2, j)
      decreases |r1| - i + |r2| - j
    {
      if r2[j].x2 <= x1 {
        SubtractDrop(done, r1, i, x1, r2, j);
        j := j + 1;
      } else if r2[j].x1 <= x1 {
        i, x1, j := PassSubtrahend(done, r1, i, x1, r2, j);
      } else if r2[j].x1 < r1[i].x2 {
        var piece := Box(x1, y1, r2[j].x1, y2);
        SubtractPiece(done, piece, r1, i, x1, r2, j);
        Append(reg, piece);
        done := done + [piece];
        i, x1, j := PassSubtrahend(done, r1, i, piece.x2, r2, j);
      } else {
        if r1[i].x2 > x1 {
          var piece := Box(x1, y1, r1[i].x2, y2);
          SubtractLast(done, piece, r1, i, x1, r2, j, if i + 1 < |r1| then r1[i + 1].x1 else x1);
          Append(reg, piece);
          done := done + [piece];
        }
        i := i + 1;
        if i < |r1| { x1 := r1[i].x1; }
      }
    }
    SubtractRest(reg, r1, i, x1, r2, j, y1, y2, done, old(reg.rects));
  }
}
