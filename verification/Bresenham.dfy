/** Polygon edges and the integer stepping that follows one down the scanlines. */
module Bresenham {

  datatype Point = Point(x: int, y: int)

  /** A polygon edge with its ends in vertical order; `down` when the polygon runs from top to bottom. */
  datatype Segment = Segment(top: Point, bottom: Point, down: bool)

  /** The stepping record: current column, decision value, the two steps and their increments. */
  datatype Bres = Bres(minor_axis: int, d: int, m: int, m1: int, incr1: int, incr2: int)

  /** Division as the C operator does it, for a positive divisor. */
  function TruncDiv(n: int, d: int): int
    requires d > 0
  {
    if n >= 0 then n / d else -(-n / d)
  }

  /** n / d rounded up, by counting. */
  function CeilDiv(n: int, d: int): int
    requires d > 0
    decreases if n > 0 then n else if n <= -d then -n else 0
  {
    if n > 0 then 1 + CeilDiv(n - d, d)
    else if n <= -d then CeilDiv(n + d, d) - 1
    else 0
  }

  /** `c` is n / d rounded up. */
  predicate IsCeil(c: int, n: int, d: int) {
    d * (c - 1) < n <= d * c
  }

  lemma MulMono(d: nat, a: int, b: int)
    ensures a <= b ==> d * a <= d * b
  {
  }

  /** Counting is rounding up, and only one number is n / d rounded up. */
  lemma {:induction false} CeilDivIsCeil(n: int, d: int)
    requires d > 0
    ensures IsCeil(CeilDiv(n, d), n, d)
    decreases if n > 0 then n else if n <= -d then -n else 0
  {
    var c := CeilDiv(n, d);
    if n > 0 {
      CeilDivIsCeil(n - d, d);
      assert d * (c - 1) == d * c - d && d * (c - 1 - 1) == d * c - 2 * d;
    } else if n <= -d {
      CeilDivIsCeil(n + d, d);
      assert d * (c + 1) == d * c + d && d * (c - 1) == d * c - d && d * (c + 1 - 1) == d * c;
    } else {
      assert d * (c - 1) == -d && d * c == 0;
    }
  }

  lemma CeilUnique(a: int, b: int, n: int, d: int)
    requires d > 0 && IsCeil(a, n, d) && IsCeil(b, n, d)
    ensures a == b
  {
    MulMono(d, a, b - 1);
    MulMono(d, b, a - 1);
  }

  predicate Slanted(g: Segment) { g.top.y < g.bottom.y }

  predicate Crosses(g: Segment, y: int) { g.top.y <= y < g.bottom.y }

  /** The column where the edge enters row `y`: the exact crossing rounded up. */
  function CrossX(g: Segment, y: int): int
    requires Slanted(g)
  {
    g.top.x + CeilDiv((y - g.top.y) * (g.bottom.x - g.top.x), g.bottom.y - g.top.y)
  }

  /** The crossing stays between the two ends of the edge. */
  lemma CrossXBetween(g: Segment, y: int)
    requires Crosses(g, y)
    ensures g.top.x <= CrossX(g, y) <= g.bottom.x || g.bottom.x <= CrossX(g, y) <= g.top.x
  {
    var k, dx, dy := y - g.top.y, g.bottom.x - g.top.x, g.bottom.y - g.top.y;
    var c := CeilDiv(k * dx, dy);
    CeilDivIsCeil(k * dx, dy);
    if dx >= 0 { CeilWithin(c, k, dx, dy); } else { CeilWithinNegative(c, k, dx, dy); }
  }

  lemma CeilWithin(c: int, k: int, dx: int, dy: int)
    requires 0 <= k < dy && dx >= 0 && IsCeil(c, k * dx, dy)
    ensures 0 <= c <= dx
  {
    MulMono(dx, k, dy);
    MulMono(dy, c, -1);
    MulMono(dy, dx, c - 1);
    assert k * dx == dx * k && dy * dx == dx * dy && dy * -1 == -dy;
    assert k * dx >= 0;
  }

  lemma CeilWithinNegative(c: int, k: int, dx: int, dy: int)
    requires 0 <= k < dy && dx < 0 && IsCeil(c, k * dx, dy)
    ensures dx <= c <= 0
  {
    MulMono(-dx, k, dy);
    MulMono(dy, 0, c - 1);
    MulMono(dy, c, dx - 1);
    assert k * dx == -(-dx * k) && dy * dx == -(-dx * dy) && dy * (dx - 1) == dy * dx - dy;
    assert -dx * k >= 0;
  }

  /** OBRESINITPGON for an edge of positive height from column x1 to column x2. */
  function Started(dy: int, x1: int, x2: int): Bres
    requires dy > 0
  {
    var dx := x2 - x1;
    var m := TruncDiv(dx, dy);
    if dx < 0 then
      Bres(x1, 2 * m * dy - 2 * dx - 2 * dy, m, m - 1, -2 * dx + 2 * dy * (m - 1), -2 * dx + 2 * dy * m)
    else
      Bres(x1, -2 * m * dy + 2 * dx, m, m + 1, 2 * dx - 2 * dy * (m + 1), 2 * dx - 2 * dy * m)
  }

  /** OBRESINCRPGON: one scanline down. */
  function Stepped(b: Bres): Bres {
    if (if b.m1 > 0 then b.d > 0 else b.d >= 0)
    then b.(minor_axis := b.minor_axis + b.m1, d := b.d + b.incr1)
    else b.(minor_axis := b.minor_axis + b.m, d := b.d + b.incr2)
  }

  function StepsFrom(b: Bres, k: nat): Bres {
    if k == 0 then b else Stepped(StepsFrom(b, k - 1))
  }

  /** The decision value that goes with column offset `c` after `k` steps. */
  ghost function DecisionAt(dx: int, dy: int, m: int, k: int, c: int): int {
    if dx < 0 then 2 * (dy * c) - 2 * (k * dx) - 2 * dx + 2 * (dy * m) - 2 * dy
    else 2 * (k * dx) + 2 * dx - 2 * (dy * c) - 2 * (dy * m)
  }

  lemma QuotientBounds(n: nat, d: nat)
    requires d > 0
    ensures n / d >= 0 && d * (n / d) <= n < d * (n / d) + d
  {
    assert n == d * (n / d) + n % d;
    MulMono(d, n / d, -1);
    assert d * -1 == 0 - d;
  }

  lemma SlopeBounds(dx: int, dy: int)
    requires dy > 0
    ensures var m := TruncDiv(dx, dy);
            if dx < 0 then m <= 0 && dy * m - dy < dx <= dy * m else m >= 0 && dy * m <= dx < dy * m + dy
  {
    if dx >= 0 { QuotientBounds(dx, dy); } else {
      QuotientBounds(-dx, dy);
      assert dy * -(-dx / dy) == -(dy * (-dx / dy));
    }
  }

  lemma Distribute(dx: int, dy: int, m: int, k: int, c: int)
    ensures (k + 1) * dx == k * dx + dx
    ensures dy * (c - 1) == dy * c - dy
    ensures dy * (c + m) == dy * c + dy * m && dy * (c + m - 1) == dy * c + dy * m - dy
    ensures dy * (c + m + 1) == dy * c + dy * m + dy
    ensures dy * (c + m + 1 - 1) == dy * c + dy * m && dy * (c + m - 1 - 1) == dy * c + dy * m - 2 * dy
    ensures 2 * dy * m == 2 * (dy * m) && 2 * m * dy == 2 * (dy * m)
    ensures 2 * dy * (m - 1) == 2 * (dy * m) - 2 * dy && 2 * dy * (m + 1) == 2 * (dy * m) + 2 * dy
  {
  }

  /** The record k rows down: the column is the crossing rounded up, and the decision value agrees. */
  ghost predicate ExactAt(b: Bres, dy: int, x1: int, x2: int, k: nat)
    requires dy > 0
  {
    && IsCeil(b.minor_axis - x1, k * (x2 - x1), dy)
    && b.(minor_axis := x1, d := Started(dy, x1, x2).d) == Started(dy, x1, x2)
    && b.d == DecisionAt(x2 - x1, dy, b.m, k, b.minor_axis - x1)
  }

  lemma StartExact(dy: int, x1: int, x2: int)
    requires dy > 0
    ensures ExactAt(Started(dy, x1, x2), dy, x1, x2, 0)
  {
    var dx := x2 - x1;
    SlopeBounds(dx, dy);
    Distribute(dx, dy, TruncDiv(dx, dy), 0, 0);
    assert dy * 0 == 0 && 0 * dx == 0;
  }

  lemma StepExact(b: Bres, dy: int, x1: int, x2: int, k: nat)
    requires dy > 0 && ExactAt(b, dy, x1, x2, k)
    ensures ExactAt(Stepped(b), dy, x1, x2, k + 1)
  {
    var dx := x2 - x1;
    SlopeBounds(dx, dy);
    Distribute(dx, dy, TruncDiv(dx, dy), k, b.minor_axis - x1);
  }

  /** The column after k steps is the crossing k rows down, rounded up, and the decision value agrees. */
  lemma {:induction false} StepsExact(dy: int, x1: int, x2: int, k: nat)
    requires dy > 0
    ensures ExactAt(StepsFrom(Started(dy, x1, x2), k), dy, x1, x2, k)
  {
    if k == 0 {
      StartExact(dy, x1, x2);
    } else {
      StepsExact(dy, x1, x2, k - 1);
      StepExact(StepsFrom(Started(dy, x1, x2), k - 1), dy, x1, x2, k - 1);
    }
  }

  /** Integer stepping is exact: it visits the rounded-up crossing of every row. */
  lemma SteppingIsExact(dy: int, x1: int, x2: int, k: nat)
    requires dy > 0
    ensures StepsFrom(Started(dy, x1, x2), k).minor_axis == x1 + CeilDiv(k * (x2 - x1), dy)
  {
    StepsExact(dy, x1, x2, k);
    CeilDivIsCeil(k * (x2 - x1), dy);
    CeilUnique(StepsFrom(Started(dy, x1, x2), k).minor_axis - x1, CeilDiv(k * (x2 - x1), dy), k * (x2 - x1), dy);
  }
}
