/** Erosion and dilation of a region in a logarithmic number of unions or intersections. */
module Shrink {
  import opened Boxes
  import opened Banding
  import opened Geometry
  import opened Regions
  import opened Algebra

  /** The point `m` steps from (x, y) along one axis, `at` being its coordinate there. */
  ghost predicate InLine(s: seq<Box>, x: int, y: int, xdir: bool, at: int) {
    if xdir then In(s, at, y) else In(s, x, at)
  }

  /** Some (grow) or every (not grow) point from (x, y) to n steps along the axis lies in `s`. */
  ghost predicate Span(s: seq<Box>, n: int, x: int, y: int, xdir: bool, grow: bool) {
    var from := if xdir then x else y;
    if grow then exists at :: from <= at <= from + n && InLine(s, x, y, xdir, at)
    else forall at :: from <= at <= from + n ==> InLine(s, x, y, xdir, at)
  }

  lemma SpanZero(s: seq<Box>, x: int, y: int, xdir: bool, grow: bool)
    ensures Span(s, 0, x, y, xdir, grow) <==> In(s, x, y)
  {
    assert InLine(s, x, y, xdir, if xdir then x else y) <==> In(s, x, y);
  }

  /** A run of n + k steps is a run of k - 1 steps followed by a run of n steps. */
  lemma SpanSplit(s: seq<Box>, n: nat, k: nat, x: int, y: int, xdir: bool, grow: bool)
    requires k > 0
    ensures Span(s, n + k, x, y, xdir, grow) <==>
            var head := Span(s, k - 1, x, y, xdir, grow);
            var tail := Span(s, n, AlongX(x, k, xdir), AlongY(y, k, xdir), xdir, grow);
            if grow then head || tail else head && tail
  {
    var from, x', y' := if xdir then x else y, AlongX(x, k, xdir), AlongY(y, k, xdir);
    assert forall at :: InLine(s, x, y, xdir, at) <==> InLine(s, x', y', xdir, at);
    if grow {
      if Span(s, n + k, x, y, xdir, grow) {
        var at :| from <= at <= from + n + k && InLine(s, x, y, xdir, at);
        assert InLine(s, x', y', xdir, at);
      }
    } else {
      forall at | from <= at <= from + n + k &&
                  Span(s, k - 1, x, y, xdir, grow) && Span(s, n, x', y', xdir, grow)
        ensures InLine(s, x, y, xdir, at)
      {
        assert at >= from + k ==> InLine(s, x', y', xdir, at);
      }
    }
  }

  /** The point `m` steps further along an axis. */
  function AlongX(x: int, m: int, xdir: bool): int { if xdir then x + m else x }

  function AlongY(y: int, m: int, xdir: bool): int { if xdir then y else y + m }

  /** ZShiftRegion with a negative distance: the points whose point `shift` steps on was in. */
  method ShiftBack(a: Region, shift: int, xdir: bool, ghost canonical: bool)
    requires a.InForm(canonical)
    modifies a
    ensures a.InForm(canonical)
    ensures forall x, y :: In(a.rects, x, y) <==> In(old(a.rects), AlongX(x, shift, xdir), AlongY(y, shift, xdir))
  {
    ghost var s := a.rects;
    if xdir {
      Offset(a, -shift, 0);
      forall x, y { ShiftedPoints(s, -shift, 0, x, y); }
    } else {
      Offset(a, 0, -shift);
      forall x, y { ShiftedPoints(s, 0, -shift, x, y); }
    }
  }

  /** ZOpRegion: union when growing, intersection when shrinking. */
  method Combine(a: Region, b: Region, grow: bool, ghost canonical: bool)
    requires a.InForm(canonical) && b.InForm(canonical) && a != b
    modifies a
    ensures a.InForm(canonical)
    ensures forall x, y :: In(a.rects, x, y) <==>
                           if grow then In(old(a.rects), x, y) || In(b.rects, x, y)
                           else In(old(a.rects), x, y) && In(b.rects, x, y)
  {
    if grow { Union(a, b); } else { Intersect(a, b); }
  }

  /** `r` holds the points whose run of n steps, in the original `s`, meets or fills it. */
  ghost predicate Holds(r: seq<Box>, s: seq<Box>, n: int, xdir: bool, grow: bool) {
    forall x, y {:trigger Span(s, n, x, y, xdir, grow)} :: In(r, x, y) <==> Span(s, n, x, y, xdir, grow)
  }

  /** `r` is `a` with its runs prolonged by those of `b`, as ShiftBack and Combine make it. */
  ghost predicate Prolonged(r: seq<Box>, a: seq<Box>, b: seq<Box>, shift: nat, xdir: bool, grow: bool) {
    forall x, y :: In(r, x, y) <==>
                   var p, q := In(a, AlongX(x, shift, xdir), AlongY(y, shift, xdir)), In(b, x, y);
                   if grow then p || q else p && q
  }

  lemma RunsAdd(r: seq<Box>, a: seq<Box>, b: seq<Box>, s: seq<Box>, n: nat, shift: nat, xdir: bool, grow: bool)
    requires shift > 0 && Holds(a, s, n, xdir, grow) && Holds(b, s, shift - 1, xdir, grow)
    requires Prolonged(r, a, b, shift, xdir, grow)
    ensures Holds(r, s, n + shift, xdir, grow)
  {
    forall x, y ensures In(r, x, y) <==> Span(s, n + shift, x, y, xdir, grow) {
      SpanSplit(s, n, shift, x, y, xdir, grow);
      var head := Span(s, shift - 1, x, y, xdir, grow);
      var tail := Span(s, n, AlongX(x, shift, xdir), AlongY(y, shift, xdir), xdir, grow);
    }
  }

  /** A shift followed by a union or an intersection. */
  method Prolong(a: Region, b: Region, shift: nat, xdir: bool, grow: bool, ghost canonical: bool)
    requires a.InForm(canonical) && b.InForm(canonical) && a != b
    modifies a
    ensures a.InForm(canonical) && Prolonged(a.rects, old(a.rects), b.rects, shift, xdir, grow)
  {
    ShiftBack(a, shift, xdir, canonical);
    Combine(a, b, grow, canonical);
  }

  /** Shift `a` by a run length and combine it with the runs of that length: run lengths add up. */
  method AddRuns(a: Region, b: Region, ghost orig: seq<Box>, ghost n: nat, ghost run: nat, shift: nat,
                 xdir: bool, grow: bool, ghost canonical: bool)
    requires a.InForm(canonical) && b.InForm(canonical) && a != b && run + 1 == shift
    requires Holds(a.rects, orig, n, xdir, grow) && Holds(b.rects, orig, run, xdir, grow)
    modifies a
    ensures a.InForm(canonical) && Holds(a.rects, orig, n + shift, xdir, grow)
  {
    ghost var before := a.rects;
    Prolong(a, b, shift, xdir, grow, canonical);
    RunsAdd(a.rects, before, b.rects, orig, n, shift, xdir, grow);
  }

  predicate Multiple(n: nat, k: nat)
    requires k > 0
  {
    n == 0 || (n >= k && Multiple(n - k, k))
  }

  /** How often k can be taken from a multiple of k. */
  function Times(n: nat, k: nat): nat
    requires k > 0 && Multiple(n, k)
  {
    if n == 0 then 0 else 1 + Times(n - k, k)
  }

  lemma {:induction false} TimesIsQuotient(n: nat, k: nat)
    requires k > 0 && Multiple(n, k)
    ensures Times(n, k) * k == n
  {
    if n > 0 {
      TimesIsQuotient(n - k, k);
      assert (Times(n - k, k) + 1) * k == Times(n - k, k) * k + k;
    }
  }

  /** An even count makes a multiple of the double; an odd one does after one k is taken away. */
  lemma {:induction false} TimesParity(n: nat, k: nat)
    requires k > 0 && Multiple(n, k)
    ensures if Times(n, k) % 2 == 0 then Multiple(n, 2 * k) else n >= k && Multiple(n - k, 2 * k)
  {
    if n > 0 {
      TimesParity(n - k, k);
      if Times(n, k) % 2 == 0 { assert n >= 2 * k && n - k - k == n - 2 * k; }
    }
  }

  lemma QuotientUnique(n: nat, k: nat, q: nat)
    requires k > 0 && q * k == n
    ensures n / k == q
  {
    var d, r := n / k, n % k;
    assert (q - d) * k == r;
    assert q - d >= 1 ==> (q - d) * k >= k;
  }

  /** The bit test `dx & shift`, for a power of two `shift` below which `dx` has no bits left. */
  method TestBit(dx: nat, shift: nat) returns (bit: bool)
    requires shift > 0 && Multiple(dx, shift)
    ensures if bit then dx >= shift && Multiple(dx - shift, 2 * shift) else Multiple(dx, 2 * shift)
  {
    TimesIsQuotient(dx, shift);
    QuotientUnique(dx, shift, Times(dx, shift));
    TimesParity(dx, shift);
    bit := dx / shift % 2 == 1;
  }

  lemma {:induction false} MultipleOfOne(n: nat)
    ensures Multiple(n, 1)
  {
    if n > 0 { MultipleOfOne(n - 1); }
  }

  /** The body of the bit test in Compress: cover `shift` more steps when the distance has that bit. */
  method CoverBit(r: Region, s: Region, ghost orig: seq<Box>, ghost reach: nat, ghost run: nat, shift: nat, dx: nat,
                  xdir: bool, grow: bool, ghost canonical: bool) returns (ghost reached: nat, rest: nat)
    requires r.InForm(canonical) && s.InForm(canonical) && r != s && run + 1 == shift && Multiple(dx, shift)
    requires Holds(r.rects, orig, reach, xdir, grow) && Holds(s.rects, orig, run, xdir, grow)
    modifies r
    ensures r.InForm(canonical) && Holds(r.rects, orig, reached, xdir, grow)
    ensures reached + rest == reach + dx && rest <= dx && Multiple(rest, 2 * shift)
  {
    reached, rest := reach, dx;
    var bit := TestBit(dx, shift);
    if bit {
      AddRuns(r, s, orig, reach, run, shift, xdir, grow, canonical);
      reached := reach + shift;
      rest := dx - shift;
    }
  }

  /** Double the run length that `s` stands for, with `t` as scratch. */
  method DoubleRuns(s: Region, t: Region, ghost orig: seq<Box>, ghost run: nat, shift: nat, xdir: bool, grow: bool,
                    ghost canonical: bool)
    requires s.InForm(canonical) && t.Valid() && s != t && run + 1 == shift
    requires Holds(s.rects, orig, run, xdir, grow)
    modifies s, t
    ensures s.InForm(canonical) && t.Valid() && Holds(s.rects, orig, run + shift, xdir, grow)
  {
    Copy(t, s);
    AddRuns(s, t, orig, run, run, shift, xdir, grow, canonical);
  }

  ghost function Pow2(n: nat): nat { if n == 0 then 1 else 2 * Pow2(n - 1) }

  /** What Compress knows between two steps: the distance covered, and the run length doubled at every step. */
  ghost predicate Compressing(dx: int, shift: int, reach: int, run: int, steps: nat, distance: nat) {
    && run + 1 == shift == Pow2(steps) && reach >= 0 && dx >= 0 && reach + dx == distance
    && shift > 0 && Multiple(dx, shift)
  }

  /** The number of steps is at most one more than the binary logarithm of the distance. */
  ghost predicate StepsBound(steps: nat, distance: nat) {
    if distance == 0 then steps == 0 else Pow2(steps) <= 2 * distance
  }

  /** A step is taken only while the run length does not exceed the rest of the distance. */
  lemma StepTaken(dx: int, shift: int, reach: int, run: int, steps: nat, distance: nat)
    requires Compressing(dx, shift, reach, run, steps, distance) && dx > 0
    ensures Pow2(steps + 1) == 2 * shift && dx >= shift && StepsBound(steps + 1, distance)
  {
  }

  /** Compress: replace `r` by the points whose run of `distance` further steps meets or fills it. */
  method Compress(r: Region, s: Region, t: Region, distance: nat, xdir: bool, grow: bool, ghost canonical: bool)
    returns (ghost steps: nat)
    requires r.InForm(canonical) && s.Valid() && t.Valid() && r != s && r != t && s != t
    modifies r, s, t
    ensures r.InForm(canonical) && s.Valid() && t.Valid()
    ensures Holds(r.rects, old(r.rects), distance, xdir, grow)
    ensures StepsBound(steps, distance)
  {
    ghost var orig := r.rects;
    var shift: int, dx: int := 1, distance;
    ghost var reach: int, run: int := 0, 0;
    steps := 0;
    MultipleOfOne(distance);
    Copy(s, r);
    forall x, y { SpanZero(orig, x, y, xdir, grow); }
    while dx != 0
      invariant r.InForm(canonical) && s.InForm(canonical) && t.Valid()
      invariant Compressing(dx, shift, reach, run, steps, distance)
      invariant Holds(r.rects, orig, reach, xdir, grow)
      invariant Holds(s.rects, orig, run, xdir, grow)
      invariant StepsBound(steps, distance)
      decreases 2 * dx - shift
    {
      StepTaken(dx, shift, reach, run, steps, distance);
      steps := steps + 1;
      reach, dx := CoverBit(r, s, orig, reach, run, shift, dx, xdir, grow, canonical);
      if dx == 0 { break; }
      DoubleRuns(s, t, orig, run, shift, xdir, grow, canonical);
      run := run + shift;
      shift := 2 * shift;
    }
  }

  /** Some (d < 0) or every (d >= 0) point at most |d| columns from (x, y) lies in `s`. */
  ghost predicate NearInRow(s: seq<Box>, d: int, x: int, y: int) {
    if d < 0 then exists u :: x + d <= u <= x - d && In(s, u, y)
    else forall u :: x - d <= u <= x + d ==> In(s, u, y)
  }

  /** The same for the rows at most |dy| away, asking NearInRow of each. */
  ghost predicate Near(s: seq<Box>, dx: int, dy: int, x: int, y: int) {
    if dy < 0 then exists v :: y + dy <= v <= y - dy && NearInRow(s, dx, x, v)
    else forall v :: y - dy <= v <= y + dy ==> NearInRow(s, dx, x, v)
  }

  lemma NearAll(s: seq<Box>, dx: int, dy: int, x: int, y: int)
    requires dx >= 0 && dy >= 0
    ensures Near(s, dx, dy, x, y) <==>
            forall u, v :: x - dx <= u <= x + dx && y - dy <= v <= y + dy ==> In(s, u, v)
  {
    if forall u, v :: x - dx <= u <= x + dx && y - dy <= v <= y + dy ==> In(s, u, v) {
      forall v | y - dy <= v <= y + dy ensures NearInRow(s, dx, x, v) {}
    } else {
      var u, v :| x - dx <= u <= x + dx && y - dy <= v <= y + dy && !In(s, u, v);
      assert !NearInRow(s, dx, x, v);
    }
  }

  lemma SomeInRow(s: seq<Box>, dx: int, x: int, y: int)
    requires dx <= 0
    ensures NearInRow(s, dx, x, y) <==> exists u :: x + dx <= u <= x - dx && In(s, u, y)
  {
    if dx == 0 && In(s, x, y) { assert x + dx <= x <= x - dx; }
  }

  lemma NearSome(s: seq<Box>, dx: int, dy: int, x: int, y: int)
    requires dx <= 0 && dy <= 0
    ensures Near(s, dx, dy, x, y) <==>
            exists u, v :: x + dx <= u <= x - dx && y + dy <= v <= y - dy && In(s, u, v)
  {
    if Near(s, dx, dy, x, y) {
      var v := y;
      if dy < 0 { v :| y + dy <= v <= y - dy && NearInRow(s, dx, x, v); }
      assert NearInRow(s, dx, x, v);
      SomeInRow(s, dx, x, v);
    }
    if u, v :| x + dx <= u <= x - dx && y + dy <= v <= y - dy && In(s, u, v) {
      SomeInRow(s, dx, x, v);
      assert NearInRow(s, dx, x, v) && (dy == 0 ==> v == y);
    }
  }

  lemma CentredRow(r: seq<Box>, s: seq<Box>, d: int, x: int, y: int)
    requires if d == 0 then r == s else Holds(r, s, 2 * Abs(d), true, d < 0)
    ensures In(r, x - Abs(d), y) <==> NearInRow(s, d, x, y)
  {
    forall at ensures InLine(s, x - Abs(d), y, true, at) <==> In(s, at, y) {}
    if d != 0 {
      assert In(r, x - Abs(d), y) <==> Span(s, 2 * Abs(d), x - Abs(d), y, true, d < 0);
      if d < 0 {
        if NearInRow(s, d, x, y) {
          var u :| x + d <= u <= x - d && In(s, u, y);
          assert InLine(s, x - Abs(d), y, true, u);
        }
      } else {
        if Span(s, 2 * Abs(d), x - Abs(d), y, true, false) {
          forall u | x - d <= u <= x + d ensures In(s, u, y) {
            assert InLine(s, x - Abs(d), y, true, u);
          }
        }
      }
    }
  }

  lemma CentredColumn(r2: seq<Box>, r1: seq<Box>, s: seq<Box>, dx: int, dy: int, x: int, y: int)
    requires if dx == 0 then r1 == s else Holds(r1, s, 2 * Abs(dx), true, dx < 0)
    requires if dy == 0 then r2 == r1 else Holds(r2, r1, 2 * Abs(dy), false, dy < 0)
    ensures In(r2, x - Abs(dx), y - Abs(dy)) <==> Near(s, dx, dy, x, y)
  {
    var x', y' := x - Abs(dx), y - Abs(dy);
    forall v ensures In(r1, x', v) <==> NearInRow(s, dx, x, v) { CentredRow(r1, s, dx, x, v); }
    if dy != 0 {
      assert In(r2, x', y') <==> Span(r1, 2 * Abs(dy), x', y', false, dy < 0);
      forall at ensures InLine(r1, x', y', false, at) <==> NearInRow(s, dx, x, at) {}
      if dy < 0 {
        if Near(s, dx, dy, x, y) {
          var v :| y + dy <= v <= y - dy && NearInRow(s, dx, x, v);
          assert InLine(r1, x', y', false, v);
        }
      } else if Span(r1, 2 * Abs(dy), x', y', false, false) {
        forall v | y - dy <= v <= y + dy ensures NearInRow(s, dx, x, v) {
          assert InLine(r1, x', y', false, v);
        }
      }
    }
  }

  lemma ShrunkPoints(r2: seq<Box>, r1: seq<Box>, s: seq<Box>, dx: int, dy: int)
    requires if dx == 0 then r1 == s else Holds(r1, s, 2 * Abs(dx), true, dx < 0)
    requires if dy == 0 then r2 == r1 else Holds(r2, r1, 2 * Abs(dy), false, dy < 0)
    ensures AllNear(Shifted(r2, Abs(dx), Abs(dy)), s, dx, dy)
  {
    var r := Shifted(r2, Abs(dx), Abs(dy));
    forall x, y ensures In(r, x, y) <==> Near(s, dx, dy, x, y) {
      ShiftedPoints(r2, Abs(dx), Abs(dy), x, y);
      CentredColumn(r2, r1, s, dx, dy, x, y);
    }
  }

  lemma NotShrunk(s: seq<Box>)
    ensures AllNear(s, s, 0, 0)
  {
    forall x, y ensures In(s, x, y) <==> Near(s, 0, 0, x, y) { CentredColumn(s, s, s, 0, 0, x, y); }
  }

  /** `r` holds exactly the points near enough to `s`. */
  ghost predicate AllNear(r: seq<Box>, s: seq<Box>, dx: int, dy: int) {
    forall x, y :: In(r, x, y) <==> Near(s, dx, dy, x, y)
  }

  /** The part of gdk_region_shrink for one axis; `distance` is the size of `d`. */
  method CompressAxis(region: Region, s: Region, t: Region, d: int, xdir: bool, ghost canonical: bool)
    returns (distance: nat)
    requires region.InForm(canonical) && s.Valid() && t.Valid() && region != s && region != t && s != t
    modifies region, s, t
    ensures region.InForm(canonical) && s.Valid() && t.Valid() && distance == Abs(d)
    ensures if d == 0 then region.rects == old(region.rects)
            else Holds(region.rects, old(region.rects), 2 * Abs(d), xdir, d < 0)
  {
    var grow := d < 0;
    distance := if grow then -d else d;
    if distance != 0 { ghost var steps := Compress(region, s, t, 2 * distance, xdir, grow, canonical); }
  }

  /** The points near enough, in coordinates, when both distances shrink or both grow. */
  lemma NearPoints(r: seq<Box>, s: seq<Box>, dx: int, dy: int)
    requires AllNear(r, s, dx, dy)
    ensures dx >= 0 && dy >= 0 ==>
              forall x, y :: In(r, x, y) <==>
                forall u, v :: x - dx <= u <= x + dx && y - dy <= v <= y + dy ==> In(s, u, v)
    ensures dx <= 0 && dy <= 0 ==>
              forall x, y :: In(r, x, y) <==>
                exists u, v :: x + dx <= u <= x - dx && y + dy <= v <= y - dy && In(s, u, v)
  {
    if dx >= 0 && dy >= 0 {
      forall x, y
        ensures In(r, x, y) <==> forall u, v :: x - dx <= u <= x + dx && y - dy <= v <= y + dy ==> In(s, u, v)
      {
        NearAll(s, dx, dy, x, y);
      }
    }
    if dx <= 0 && dy <= 0 {
      forall x, y
        ensures In(r, x, y) <==> exists u, v :: x + dx <= u <= x - dx && y + dy <= v <= y - dy && In(s, u, v)
      {
        NearSome(s, dx, dy, x, y);
      }
    }
  }

  /**
   * gdk_region_shrink: what is left are the points with the whole rectangle around them inside, what is gained
   * are the points with some point of it inside; the rectangle reaches to the distance on each side.
   */
  method ShrinkBy(region: Region, dx0: int, dy0: int)
    requires region.Usable()
    modifies region
    ensures region.Usable() && (old(region.Good()) ==> region.Good())
    ensures AllNear(region.rects, old(region.rects), dx0, dy0)
    ensures dx0 >= 0 && dy0 >= 0 ==>
              forall x, y :: In(region.rects, x, y) <==>
                forall u, v :: x - dx0 <= u <= x + dx0 && y - dy0 <= v <= y + dy0 ==> In(old(region.rects), u, v)
    ensures dx0 <= 0 && dy0 <= 0 ==>
              forall x, y :: In(region.rects, x, y) <==>
                exists u, v :: x + dx0 <= u <= x - dx0 && y + dy0 <= v <= y - dy0 && In(old(region.rects), u, v)
  {
    ghost var r0 := region.rects;
    ShrinkEach(region, dx0, dy0);
    NearPoints(region.rects, r0, dx0, dy0);
  }

  method ShrinkEach(region: Region, dx0: int, dy0: int)
    requires region.Usable()
    modifies region
    ensures region.Usable() && (old(region.Good()) ==> region.Good())
    ensures AllNear(region.rects, old(region.rects), dx0, dy0)
  {
    ghost var r0, canonical := region.rects, region.Good();
    if dx0 == 0 && dy0 == 0 {
      NotShrunk(r0);
      return;
    }
    var s := new Region();
    var t := new Region();
    var dx := CompressAxis(region, s, t, dx0, true, canonical);
    ghost var r1 := region.rects;
    var dy := CompressAxis(region, s, t, dy0, false, canonical);
    ghost var r2 := region.rects;
    Offset(region, dx, dy);
    ShrunkPoints(r2, r1, r0, dx0, dy0);
  }
}
