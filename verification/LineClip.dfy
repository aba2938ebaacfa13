/** Cohen-Sutherland clipping of a segment to a window, over exact reals. */
module LineClip {
  import opened Geometry

  datatype Window = Window(xmin: real, xmax: real, ymin: real, ymax: real)

  datatype Side = Top | Bottom | Right | Left

  datatype Outcode = Outcode(top: bool, bottom: bool, right: bool, left: bool)

  datatype ClipResult = Visible | Invisible

  predicate Upright(w: Window) { w.xmin <= w.xmax && w.ymin <= w.ymax }

  predicate InWindow(w: Window, p: Position) {
    w.xmin <= p.x <= w.xmax && w.ymin <= p.y <= w.ymax
  }

  /** How far a point lies beyond a side of the window; not positive on the inner half-plane. */
  function Excess(w: Window, g: Side, p: Position): real {
    match g
    case Top => p.y - w.ymax
    case Bottom => w.ymin - p.y
    case Right => p.x - w.xmax
    case Left => w.xmin - p.x
  }

  function Bit(c: Outcode, g: Side): bool {
    match g
    case Top => c.top
    case Bottom => c.bottom
    case Right => c.right
    case Left => c.left
  }

  function Bits(c: Outcode): nat {
    (if c.top then 1 else 0) + (if c.bottom then 1 else 0) + (if c.right then 1 else 0) + (if c.left then 1 else 0)
  }

  /** The bitwise and of two codes is not zero. */
  predicate Share(c: Outcode, d: Outcode) {
    (c.top && d.top) || (c.bottom && d.bottom) || (c.right && d.right) || (c.left && d.left)
  }

  ghost predicate CodeOf(c: Outcode, w: Window, p: Position) {
    forall g :: Bit(c, g) <==> Excess(w, g, p) > 0.0
  }

  /** CompOutCode: one bit for each side the point lies beyond. */
  method CompOutCode(x: real, y: real, w: Window) returns (code: Outcode)
    requires Upright(w)
    ensures CodeOf(code, w, Position(x, y)) && Bits(code) <= 2
    ensures InWindow(w, Position(x, y)) <==> Bits(code) == 0
  {
    code := Outcode(false, false, false, false);
    if y > w.ymax { code := code.(top := true); } else if y < w.ymin { code := code.(bottom := true); }
    if x > w.xmax { code := code.(right := true); } else if x < w.xmin { code := code.(left := true); }
  }

  lemma Reparameterise(a: Position, b: Position, t0: real, t1: real, s: real)
    ensures At(At(a, b, t0), At(a, b, t1), s) == At(a, b, t0 + s * (t1 - t0))
  {
    Nested(a.x, b.x, t0, t1, s);
    Nested(a.y, b.y, t0, t1, s);
  }

  lemma Nested(u: real, v: real, t0: real, t1: real, s: real)
    ensures Mid(Mid(u, v, t0), Mid(u, v, t1), s) == Mid(u, v, t0 + s * (t1 - t0))
  {
    var d := v - u;
    assert (u + t1 * d) - (u + t0 * d) == (t1 - t0) * d;
    assert s * ((t1 - t0) * d) == (s * (t1 - t0)) * d;
  }

  lemma NotNegative(u: real, v: real)
    requires u >= 0.0 && v >= 0.0
    ensures u * v >= 0.0
  {
  }

  lemma Scaled(s: real, d: real)
    requires 0.0 <= s <= 1.0 && d >= 0.0
    ensures 0.0 <= s * d <= d
  {
    NotNegative(s, d);
    NotNegative(1.0 - s, d);
  }

  lemma Ratio(n: real, d: real)
    requires d != 0.0
    ensures n / d * d == n
    ensures -n / -d == n / d
  {
    assert (n / d) * -d == -n;
  }

  lemma Slope(u: real, v: real)
    ensures u * v > 0.0 <==> (u > 0.0 && v > 0.0) || (u < 0.0 && v < 0.0)
    ensures u * v < 0.0 <==> (u > 0.0 && v < 0.0) || (u < 0.0 && v > 0.0)
  {
  }

  lemma RatioInRange(n: real, d: real)
    requires 0.0 <= n <= d && 0.0 < d
    ensures 0.0 <= n / d <= 1.0
  {
    Ratio(n, d);
    Slope(n / d, d);
    Slope(n / d - 1.0, d);
  }

  function Line(c: real, m: real, u: real): real { c + u * m }

  lemma LineSlope(c: real, m: real, u: real, v: real)
    ensures Line(c, m, v) - Line(c, m, u) == (v - u) * m
  {
  }

  /** Where a linear function that changes sign between t0 and t1 is zero, and its sign on the far side. */
  lemma Root(c: real, m: real, t0: real, t1: real) returns (s: real, t: real)
    requires t0 <= t1
    requires (Line(c, m, t0) > 0.0) != (Line(c, m, t1) > 0.0)
    ensures var f0, f1 := Line(c, m, t0), Line(c, m, t1); f0 != f1 && s == f0 / (f0 - f1)
    ensures 0.0 <= s <= 1.0 && t == t0 + s * (t1 - t0) && t0 <= t <= t1
    ensures Line(c, m, t0) > 0.0 ==> forall u :: u < t ==> Line(c, m, u) > 0.0
    ensures Line(c, m, t1) > 0.0 ==> forall u :: u > t ==> Line(c, m, u) > 0.0
  {
    var f0, f1 := Line(c, m, t0), Line(c, m, t1);
    s := f0 / (f0 - f1);
    Ratio(f0, f0 - f1);
    if f0 > 0.0 { RatioInRange(f0, f0 - f1); } else { Ratio(-f0, f1 - f0); RatioInRange(-f0, f1 - f0); }
    t := t0 + s * (t1 - t0);
    Scaled(s, t1 - t0);
    LineSlope(c, m, t0, t1);
    LineSlope(c, m, t0, t);
    assert s * (t1 - t0) * m == s * ((t1 - t0) * m);
    Slope(t1 - t0, m);
    forall u ensures Line(c, m, u) == (u - t) * m { LineSlope(c, m, t, u); }
    if f0 > 0.0 {
      forall u | u < t ensures Line(c, m, u) > 0.0 { Slope(u - t, m); }
    } else {
      forall u | u > t ensures Line(c, m, u) > 0.0 { Slope(u - t, m); }
    }
  }

  lemma ExcessLine(w: Window, g: Side, a: Position, b: Position, t: real)
    ensures Excess(w, g, At(a, b, t)) == Line(Excess(w, g, a), Excess(w, g, b) - Excess(w, g, a), t)
  {
    var d := if g.Top? || g.Bottom? then b.y - a.y else b.x - a.x;
    if g.Top? || g.Right? {
      assert Excess(w, g, b) - Excess(w, g, a) == d;
    } else {
      assert Excess(w, g, b) - Excess(w, g, a) == -d;
      Negate(t, d);
    }
  }

  lemma Negate(t: real, d: real)
    ensures t * -d == -(t * d)
  {
  }

  /** Nothing of the segment outside t0..t1 is in the window. */
  ghost predicate Within(a: Position, b: Position, w: Window, t0: real, t1: real) {
    && 0.0 <= t0 <= t1 <= 1.0
    && forall t {:trigger At(a, b, t)} :: 0.0 <= t <= 1.0 && InWindow(w, At(a, b, t)) ==> t0 <= t <= t1
  }

  lemma Narrowed(a: Position, b: Position, w: Window, g: Side, t0: real, t1: real, t: real)
    requires Within(a, b, w, t0, t1) && t0 <= t <= t1
    ensures var c, m := Excess(w, g, a), Excess(w, g, b) - Excess(w, g, a);
            && ((forall u :: u < t ==> Line(c, m, u) > 0.0) ==> Within(a, b, w, t, t1))
            && ((forall u :: u > t ==> Line(c, m, u) > 0.0) ==> Within(a, b, w, t0, t))
  {
    var c, m := Excess(w, g, a), Excess(w, g, b) - Excess(w, g, a);
    forall u ensures InWindow(w, At(a, b, u)) ==> Line(c, m, u) <= 0.0 { ExcessLine(w, g, a, b, u); }
  }

  /** Cutting the part t0..t1 at a side that separates its ends loses nothing of the window. */
  lemma CutPart(a: Position, b: Position, w: Window, g: Side, t0: real, t1: real) returns (s: real, t: real)
    requires Within(a, b, w, t0, t1)
    requires (Excess(w, g, At(a, b, t0)) > 0.0) != (Excess(w, g, At(a, b, t1)) > 0.0)
    ensures var f0, f1 := Excess(w, g, At(a, b, t0)), Excess(w, g, At(a, b, t1)); f0 != f1 && s == f0 / (f0 - f1)
    ensures 0.0 <= s <= 1.0 && t == t0 + s * (t1 - t0)
    ensures if Excess(w, g, At(a, b, t0)) > 0.0 then Within(a, b, w, t, t1) else Within(a, b, w, t0, t)
  {
    var c, m := Excess(w, g, a), Excess(w, g, b) - Excess(w, g, a);
    ExcessLine(w, g, a, b, t0);
    ExcessLine(w, g, a, b, t1);
    s, t := Root(c, m, t0, t1);
    Narrowed(a, b, w, g, t0, t1, t);
  }

  lemma ExcessBetween(w: Window, g: Side, p: Position, q: Position, s: real)
    requires 0.0 <= s <= 1.0
    ensures Excess(w, g, At(p, q, s)) > 0.0 ==> Excess(w, g, p) > 0.0 || Excess(w, g, q) > 0.0
  {
    var f, h := Excess(w, g, p), Excess(w, g, q);
    ExcessLine(w, g, p, q, s);
    assert Line(f, h - f, s) == (1.0 - s) * f + s * h;
    if f <= 0.0 && h <= 0.0 {
      NotNegative(1.0 - s, -f);
      NotNegative(s, -h);
    }
  }

  /** A cut end has fewer bits than before, unless it now lies beyond a side the other end is beyond. */
  lemma FewerBits(w: Window, p: Position, q: Position, s: real, g: Side, near: Outcode, far: Outcode, next: Outcode,
                  front: bool)
    requires 0.0 <= s <= 1.0 && Excess(w, g, At(p, q, s)) == 0.0
    requires CodeOf(near, w, if front then p else q) && CodeOf(far, w, if front then q else p)
    requires CodeOf(next, w, At(p, q, s)) && Bit(near, g) && !Share(next, far)
    ensures Bits(next) < Bits(near)
  {
    forall h: Side ensures Bit(next, h) ==> Bit(near, h) { ExcessBetween(w, h, p, q, s); }
    assert !Bit(next, g);
    assert Bit(next, Top) ==> Bit(near, Top);
    assert Bit(next, Bottom) ==> Bit(near, Bottom);
    assert Bit(next, Right) ==> Bit(near, Right);
    assert Bit(next, Left) ==> Bit(near, Left);
  }

  /** The formula of a branch gives the point of the segment on the side's line. */
  lemma OnSide(u0: real, u1: real, v0: real, v1: real, side: real, s: real)
    requires v0 != v1 && s == (side - v0) / (v1 - v0)
    ensures u0 + (u1 - u0) * (side - v0) / (v1 - v0) == Mid(u0, u1, s)
    ensures Mid(v0, v1, s) == side
  {
    Product(u1 - u0, side - v0, v1 - v0);
    Ratio(side - v0, v1 - v0);
  }

  lemma Product(u: real, n: real, d: real)
    requires d != 0.0
    ensures u * n / d == n / d * u
  {
    Ratio(n, d);
    Ratio(u * n, d);
    assert n / d * u * d == u * n;
    assert (u * n / d - n / d * u) * d == 0.0;
  }

  lemma UpperRatio(v0: real, v1: real, side: real)
    requires v0 != v1
    ensures (v0 - side) / ((v0 - side) - (v1 - side)) == (side - v0) / (v1 - v0)
  {
    Ratio(side - v0, v1 - v0);
    assert (v0 - side) - (v1 - side) == -(v1 - v0) && v0 - side == -(side - v0);
  }

  lemma LowerRatio(v0: real, v1: real, side: real)
    requires v0 != v1
    ensures (side - v0) / ((side - v0) - (side - v1)) == (side - v0) / (v1 - v0)
  {
    assert (side - v0) - (side - v1) == v1 - v0;
  }

  /** The parameter, within p..q, at which the segment crosses the line of a side. */
  function CrossingAt(w: Window, g: Side, p: Position, q: Position): real
    requires Excess(w, g, p) != Excess(w, g, q)
  {
    Excess(w, g, p) / (Excess(w, g, p) - Excess(w, g, q))
  }

  lemma LevelCut(w: Window, g: Side, p: Position, q: Position, y: real, r: Position)
    requires (g.Top? && y == w.ymax) || (g.Bottom? && y == w.ymin)
    requires p.y != q.y && r.y == y && r.x == p.x + (q.x - p.x) * (y - p.y) / (q.y - p.y)
    ensures r == At(p, q, CrossingAt(w, g, p, q)) && Excess(w, g, r) == 0.0
  {
    if g.Top? { UpperRatio(p.y, q.y, y); } else { LowerRatio(p.y, q.y, y); }
    assert CrossingAt(w, g, p, q) == (y - p.y) / (q.y - p.y);
    OnSide(p.x, q.x, p.y, q.y, y, CrossingAt(w, g, p, q));
    assert r.y == Mid(p.y, q.y, CrossingAt(w, g, p, q)) == y;
  }

  lemma UprightCut(w: Window, g: Side, p: Position, q: Position, x: real, r: Position)
    requires (g.Right? && x == w.xmax) || (g.Left? && x == w.xmin)
    requires p.x != q.x && r.x == x && r.y == p.y + (q.y - p.y) * (x - p.x) / (q.x - p.x)
    ensures r == At(p, q, CrossingAt(w, g, p, q)) && Excess(w, g, r) == 0.0
  {
    if g.Right? { UpperRatio(p.x, q.x, x); } else { LowerRatio(p.x, q.x, x); }
    assert CrossingAt(w, g, p, q) == (x - p.x) / (q.x - p.x);
    OnSide(p.y, q.y, p.x, q.x, x, CrossingAt(w, g, p, q));
    assert r.x == Mid(p.x, q.x, CrossingAt(w, g, p, q)) == x;
  }

  /** The two ends lie on different sides of every side line that the outside end is beyond. */
  ghost predicate Separates(w: Window, c: Outcode, p: Position, q: Position) {
    forall h :: Bit(c, h) ==> (Excess(w, h, p) > 0.0) != (Excess(w, h, q) > 0.0)
  }

  /** The formula for the top and the bottom line. */
  method CutLevel(p: Position, q: Position, w: Window, ghost g: Side, y: real) returns (r: Position)
    requires (g.Top? && y == w.ymax) || (g.Bottom? && y == w.ymin)
    requires Excess(w, g, p) != Excess(w, g, q)
    ensures r == At(p, q, CrossingAt(w, g, p, q)) && Excess(w, g, r) == 0.0
  {
    r := Position(p.x + (q.x - p.x) * (y - p.y) / (q.y - p.y), y);
    LevelCut(w, g, p, q, y, r);
  }

  /** The formula for the right and the left line. */
  method CutUpright(p: Position, q: Position, w: Window, ghost g: Side, x: real) returns (r: Position)
    requires (g.Right? && x == w.xmax) || (g.Left? && x == w.xmin)
    requires Excess(w, g, p) != Excess(w, g, q)
    ensures r == At(p, q, CrossingAt(w, g, p, q)) && Excess(w, g, r) == 0.0
  {
    r := Position(x, p.y + (q.y - p.y) * (x - p.x) / (q.x - p.x));
    UprightCut(w, g, p, q, x, r);
  }

  /** The intersection with the line of the first side, in the order tested, that the outside end is beyond. */
  method Intersection(p: Position, q: Position, outcodeOut: Outcode, w: Window) returns (r: Position, ghost g: Side)
    requires Bits(outcodeOut) > 0 && Separates(w, outcodeOut, p, q)
    ensures Bit(outcodeOut, g) && Excess(w, g, p) != Excess(w, g, q)
    ensures r == At(p, q, CrossingAt(w, g, p, q)) && Excess(w, g, r) == 0.0
  {
    g := if outcodeOut.top then Top else if outcodeOut.bottom then Bottom else if outcodeOut.right then Right else Left;
    assert Bit(outcodeOut, g);
    if outcodeOut.top {
      r := CutLevel(p, q, w, g, w.ymax);
    } else if outcodeOut.bottom {
      r := CutLevel(p, q, w, g, w.ymin);
    } else if outcodeOut.right {
      r := CutUpright(p, q, w, g, w.xmax);
    } else {
      r := CutUpright(p, q, w, g, w.xmin);
    }
  }

  lemma LineBetween(c: real, m: real, t0: real, t1: real, t: real)
    requires t0 <= t <= t1
    ensures Line(c, m, t0) <= 0.0 && Line(c, m, t1) <= 0.0 ==> Line(c, m, t) <= 0.0
    ensures Line(c, m, t0) > 0.0 && Line(c, m, t1) > 0.0 ==> Line(c, m, t) > 0.0
  {
    LineSlope(c, m, t0, t);
    LineSlope(c, m, t, t1);
    Slope(t - t0, m);
    Slope(t1 - t, m);
  }

  /** With both ends in the window, the part t0..t1 is exactly what of the segment is in the window. */
  lemma Accepted(a: Position, b: Position, w: Window, t0: real, t1: real, t: real)
    requires Within(a, b, w, t0, t1) && InWindow(w, At(a, b, t0)) && InWindow(w, At(a, b, t1)) && 0.0 <= t <= 1.0
    ensures InWindow(w, At(a, b, t)) <==> t0 <= t <= t1
  {
    if t0 <= t <= t1 {
      forall g: Side ensures Excess(w, g, At(a, b, t)) <= 0.0 {
        ExcessLine(w, g, a, b, t0);
        ExcessLine(w, g, a, b, t1);
        ExcessLine(w, g, a, b, t);
        LineBetween(Excess(w, g, a), Excess(w, g, b) - Excess(w, g, a), t0, t1, t);
        assert Excess(w, g, At(a, b, t0)) <= 0.0 && Excess(w, g, At(a, b, t1)) <= 0.0;
      }
      assert Excess(w, Top, At(a, b, t)) <= 0.0 && Excess(w, Bottom, At(a, b, t)) <= 0.0;
      assert Excess(w, Right, At(a, b, t)) <= 0.0 && Excess(w, Left, At(a, b, t)) <= 0.0;
    }
  }

  /** With both ends beyond one side, nothing of the segment is in the window. */
  lemma Rejected(a: Position, b: Position, w: Window, t0: real, t1: real, c0: Outcode, c1: Outcode, t: real)
    requires Within(a, b, w, t0, t1) && CodeOf(c0, w, At(a, b, t0)) && CodeOf(c1, w, At(a, b, t1)) && Share(c0, c1)
    requires 0.0 <= t <= 1.0
    ensures !InWindow(w, At(a, b, t))
  {
    var g := if c0.top && c1.top then Top else if c0.bottom && c1.bottom then Bottom
             else if c0.right && c1.right then Right else Left;
    assert Bit(c0, g) && Bit(c1, g);
    if t0 <= t <= t1 {
      ExcessLine(w, g, a, b, t0);
      ExcessLine(w, g, a, b, t1);
      ExcessLine(w, g, a, b, t);
      LineBetween(Excess(w, g, a), Excess(w, g, b) - Excess(w, g, a), t0, t1, t);
      assert Excess(w, g, At(a, b, t)) > 0.0;
    }
  }

  /** The state between two passes: the current ends, their codes and what they stand for. */
  ghost predicate Clipping(a: Position, b: Position, w: Window, p: Position, q: Position, c0: Outcode, c1: Outcode,
                           t0: real, t1: real) {
    && p == At(a, b, t0) && q == At(a, b, t1) && Within(a, b, w, t0, t1)
    && CodeOf(c0, w, p) && CodeOf(c1, w, q)
    && (Bits(c0) == 0 <==> InWindow(w, p)) && (Bits(c1) == 0 <==> InWindow(w, q))
  }

  /** How many intersections may still be computed. */
  function Passes(c0: Outcode, c1: Outcode): nat {
    if Share(c0, c1) then 0 else Bits(c0) + Bits(c1)
  }

  /** One pass that finds neither both ends inside nor both beyond one side: cut the outside end. */
  method CutEnd(ghost a: Position, ghost b: Position, w: Window, p: Position, q: Position, c0: Outcode, c1: Outcode,
                ghost t0: real, ghost t1: real)
    returns (p': Position, q': Position, c0': Outcode, c1': Outcode, ghost t0': real, ghost t1': real)
    requires Upright(w) && Clipping(a, b, w, p, q, c0, c1, t0, t1)
    requires !Share(c0, c1) && Bits(c0) + Bits(c1) > 0
    ensures Clipping(a, b, w, p', q', c0', c1', t0', t1') && Passes(c0', c1') < Passes(c0, c1)
  {
    p', q', c0', c1', t0', t1' := p, q, c0, c1, t0, t1;
    var outcodeOut := if Bits(c0) != 0 then c0 else c1;
    var r, g := Intersection(p, q, outcodeOut, w);
    ghost var s, t := CutPart(a, b, w, g, t0, t1);
    Reparameterise(a, b, t0, t1, s);
    if outcodeOut == c0 {
      p', t0' := r, t;
      c0' := CompOutCode(p'.x, p'.y, w);
      if !Share(c0', c1) { FewerBits(w, p, q, s, g, c0, c1, c0', true); }
    } else {
      q', t1' := r, t;
      c1' := CompOutCode(q'.x, q'.y, w);
      if !Share(c0, c1') { FewerBits(w, p, q, s, g, c1, c0, c1', false); }
    }
  }

  /** The loop of cohen_sutherland_line_clip_d. */
  method ClipLoop(a: Position, b: Position, w: Window)
    returns (p: Position, q: Position, clip: ClipResult, cuts: nat, ghost t0: real, ghost t1: real)
    requires Upright(w)
    ensures cuts <= 4
    ensures clip.Invisible? <==> forall t {:trigger At(a, b, t)} :: 0.0 <= t <= 1.0 ==> !InWindow(w, At(a, b, t))
    ensures clip.Visible? ==> 0.0 <= t0 <= t1 <= 1.0 && p == At(a, b, t0) && q == At(a, b, t1)
    ensures clip.Visible? ==> forall t {:trigger At(a, b, t)} :: 0.0 <= t <= 1.0 ==>
              (InWindow(w, At(a, b, t)) <==> t0 <= t <= t1)
  {
    p, q, clip, cuts, t0, t1 := a, b, Visible, 0, 0.0, 1.0;
    var outcode0 := CompOutCode(p.x, p.y, w);
    var outcode1 := CompOutCode(q.x, q.y, w);
    var done := false;
    while !done
      invariant Clipping(a, b, w, p, q, outcode0, outcode1, t0, t1)
      invariant cuts + Passes(outcode0, outcode1) <= 4
      invariant !done ==> clip.Visible?
      invariant done ==> if clip.Visible? then Bits(outcode0) == 0 && Bits(outcode1) == 0 else Share(outcode0, outcode1)
      decreases !done, Passes(outcode0, outcode1)
    {
      if Bits(outcode0) == 0 && Bits(outcode1) == 0 {
        done := true;
      } else if Share(outcode0, outcode1) {
        clip := Invisible;
        done := true;
      } else {
        clip := Visible;
        p, q, outcode0, outcode1, t0, t1 := CutEnd(a, b, w, p, q, outcode0, outcode1, t0, t1);
        cuts := cuts + 1;
      }
    }
    if clip.Visible? {
      forall t | 0.0 <= t <= 1.0 { Accepted(a, b, w, t0, t1, t); }
      assert InWindow(w, At(a, b, t0));
    } else {
      forall t | 0.0 <= t <= 1.0 { Rejected(a, b, w, t0, t1, outcode0, outcode1, t); }
    }
  }

  /**
   * cohen_sutherland_line_clip_d: after at most four intersections either no point of the segment is
   * in the window and the result is Invisible, or the two ends are those of the part in the window.
   */
  method Clip(a: Position, b: Position, w: Window)
    returns (p: Position, q: Position, clip: ClipResult, cuts: nat, ghost t0: real, ghost t1: real)
    requires w.xmin <= w.xmax && w.ymin <= w.ymax
    ensures cuts <= 4
    ensures forall t :: At(a, b, t) == Position(a.x + t * (b.x - a.x), a.y + t * (b.y - a.y))
    ensures clip.Invisible? <==> forall t :: 0.0 <= t <= 1.0 ==>
              !(w.xmin <= At(a, b, t).x <= w.xmax && w.ymin <= At(a, b, t).y <= w.ymax)
    ensures clip.Visible? ==> 0.0 <= t0 <= t1 <= 1.0 && p == At(a, b, t0) && q == At(a, b, t1)
    ensures clip.Visible? ==> forall t :: 0.0 <= t <= 1.0 ==>
              (w.xmin <= At(a, b, t).x <= w.xmax && w.ymin <= At(a, b, t).y <= w.ymax <==> t0 <= t <= t1)
  {
    p, q, clip, cuts, t0, t1 := ClipLoop(a, b, w);
  }
}
