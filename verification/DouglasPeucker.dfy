/** Douglas-Peucker simplification of a polyline. Distances are compared by their squares. */
module DouglasPeucker {
  import opened Geometry

  /** The vector of kept indices that all recursive calls push onto. */
  class IndexVector {
    var items: seq<int>

    method PushBack(i: int)
      modifies this
      ensures items == old(items) + [i]
    {
      items := items + [i];
    }
  }

  /** The sign rule, about a named product. */
  lemma Sign(u: real, v: real, r: real)
    requires r == u * v
    ensures r > 0.0 <==> (u > 0.0 && v > 0.0) || (u < 0.0 && v < 0.0)
    ensures r < 0.0 <==> (u > 0.0 && v < 0.0) || (u < 0.0 && v > 0.0)
  {
  }

  function Sq(u: real): (r: real)
    ensures r >= 0.0 && (u != 0.0 ==> r > 0.0)
  {
    var r := u * u;
    Sign(u, u, r);
    r
  }

  /** The squared length of a vector. */
  function Norm(u: real, v: real): (n: real)
    ensures n >= 0.0 && (u != 0.0 || v != 0.0 ==> n > 0.0)
  {
    Sq(u) + Sq(v)
  }

  function Square(p: Position, q: Position): real {
    Norm(p.x - q.x, p.y - q.y)
  }

  lemma NormIs(u: real, v: real)
    ensures Norm(u, v) == u * u + v * v
  {
  }

  /** (dx, dy) leads to p from the point of the line through a and b at t. */
  predicate Leads(p: Position, a: Position, b: Position, t: real, dx: real, dy: real) {
    dx == p.x - (a.x + t * (b.x - a.x)) && dy == p.y - (a.y + t * (b.y - a.y))
  }

  lemma SquareLeads(p: Position, a: Position, b: Position, t: real, dx: real, dy: real)
    requires Leads(p, a, b, t, dx, dy)
    ensures Square(p, At(a, b, t)) == Norm(dx, dy)
  {
  }

  /** The distance meant, in plain products. */
  lemma SquareIs(p: Position, a: Position, b: Position, t: real, dx: real, dy: real)
    requires dx == p.x - (a.x + t * (b.x - a.x)) && dy == p.y - (a.y + t * (b.y - a.y))
    ensures Square(p, At(a, b, t)) == dx * dx + dy * dy
  {
    SquareLeads(p, a, b, t, dx, dy);
    NormIs(dx, dy);
  }

  function Dot(p: Position, a: Position, b: Position): real {
    (p.x - a.x) * (b.x - a.x) + (p.y - a.y) * (b.y - a.y)
  }

  /** The parameter of the point of the segment nearest to `p`: the foot of the perpendicular, clamped. */
  function Nearest(p: Position, start: Position, end: Position): (t: real)
    ensures 0.0 <= t <= 1.0
  {
    if start == end then 0.0
    else
      var t := Dot(p, start, end) / Norm(end.x - start.x, end.y - start.y);
      if t < 0.0 then 0.0 else if t > 1.0 then 1.0 else t
  }

  lemma AtNearest(p: Position, a: Position, b: Position, t: real, dx: real, dy: real)
    requires a != b && t == Dot(p, a, b) / Norm(b.x - a.x, b.y - a.y)
    requires if t < 0.0 then dx == p.x - a.x && dy == p.y - a.y
             else if t > 1.0 then dx == p.x - b.x && dy == p.y - b.y
             else dx == p.x - (a.x + t * (b.x - a.x)) && dy == p.y - (a.y + t * (b.y - a.y))
    ensures dx == p.x - At(a, b, Nearest(p, a, b)).x && dy == p.y - At(a, b, Nearest(p, a, b)).y
  {
    assert At(a, b, 0.0) == a && At(a, b, 1.0) == b;
  }

  /** The square of perpendicularDistance, by its own formula. */
  method MeasureDistance(p: Position, lineStart: Position, lineEnd: Position) returns (d: real)
    ensures d == Square(p, At(lineStart, lineEnd, Nearest(p, lineStart, lineEnd)))
  {
    var dx := lineEnd.x - lineStart.x;
    var dy := lineEnd.y - lineStart.y;
    if dx == 0.0 && dy == 0.0 {
      dx := p.x - lineStart.x;
      dy := p.y - lineStart.y;
      assert At(lineStart, lineEnd, 0.0) == lineStart;
      return Norm(dx, dy);
    }
    var t := Dot(p, lineStart, lineEnd) / Norm(dx, dy);
    if t < 0.0 {
      dx := p.x - lineStart.x;
      dy := p.y - lineStart.y;
    } else if t > 1.0 {
      dx := p.x - lineEnd.x;
      dy := p.y - lineEnd.y;
    } else {
      dx := p.x - (lineStart.x + t * dx);
      dy := p.y - (lineStart.y + t * dy);
    }
    AtNearest(p, lineStart, lineEnd, t, dx, dy);
    return Norm(dx, dy);
  }

  /** How much the squared distance grows from s to t, for the line with squared length n and projection d. */
  function Gain(n: real, d: real, s: real, t: real): real {
    (t - s) * ((t + s) * n - 2.0 * d)
  }

  /** How the squared distance to the point at t differs from that at s. */
  lemma SquareAlong(p: Position, a: Position, b: Position, s: real, t: real, n: real, d: real)
    requires n == Norm(b.x - a.x, b.y - a.y) && d == Dot(p, a, b)
    ensures Square(p, At(a, b, t)) - Square(p, At(a, b, s)) == Gain(n, d, s, t)
  {
    Quadratic(p.x - a.x, b.x - a.x, s, t);
    Quadratic(p.y - a.y, b.y - a.y, s, t);
  }

  lemma Quadratic(w: real, d: real, s: real, t: real)
    ensures Sq(w - t * d) - Sq(w - s * d) == (t - s) * ((t + s) * Sq(d) - 2.0 * (w * d))
  {
  }

  /** Moving away from the clamped foot of the perpendicular does not bring the point nearer. */
  lemma AwayFromFoot(n: real, d: real, s: real, t: real)
    requires n > 0.0 && 0.0 <= t <= 1.0
    requires var foot := d / n; s == if foot < 0.0 then 0.0 else if foot > 1.0 then 1.0 else foot
    ensures Gain(n, d, s, t) >= 0.0
  {
    var foot, change := d / n, (t + s) * n - 2.0 * d;
    assert foot * n == d;
    Sign(t + s - 2.0 * foot, n, change);
    Sign(t - s, change, Gain(n, d, s, t));
  }

  /** The distance measured is the least one: no point of the segment is nearer. */
  lemma NearestIsNearest(p: Position, a: Position, b: Position, t: real)
    requires 0.0 <= t <= 1.0
    ensures Square(p, At(a, b, Nearest(p, a, b))) <= Square(p, At(a, b, t))
  {
    if a == b {
      assert At(a, b, t) == a && At(a, b, 0.0) == a;
    } else {
      NearestBetween(p, a, b, Nearest(p, a, b), t, Norm(b.x - a.x, b.y - a.y), Dot(p, a, b));
    }
  }

  lemma NearestBetween(p: Position, a: Position, b: Position, s: real, t: real, n: real, d: real)
    requires n == Norm(b.x - a.x, b.y - a.y) && n > 0.0 && d == Dot(p, a, b) && 0.0 <= t <= 1.0
    requires var foot := d / n; s == if foot < 0.0 then 0.0 else if foot > 1.0 then 1.0 else foot
    ensures Square(p, At(a, b, s)) <= Square(p, At(a, b, t))
  {
    SquareAlong(p, a, b, s, t, n, d);
    AwayFromFoot(n, d, s, t);
  }

  /** The square of perpendicularDistance: (dx, dy) leads to the vertex from the point of the segment at t. */
  method PerpendicularDistance(p: Position, a: Position, b: Position)
    returns (d: real, ghost t: real, ghost dx: real, ghost dy: real)
    ensures d == Square(p, At(a, b, Nearest(p, a, b))) && 0.0 <= t <= 1.0
    ensures dx == p.x - (a.x + t * (b.x - a.x)) && dy == p.y - (a.y + t * (b.y - a.y))
    ensures d == dx * dx + dy * dy
  {
    d := MeasureDistance(p, a, b);
    t := Nearest(p, a, b);
    dx, dy := p.x - (a.x + t * (b.x - a.x)), p.y - (a.y + t * (b.y - a.y));
    SquareIs(p, a, b, t, dx, dy);
  }

  /** No point of the segment is nearer, in plain products. */
  lemma NoneIsNearer(p: Position, a: Position, b: Position, t: real, dx: real, dy: real)
    requires 0.0 <= t <= 1.0
    requires dx == p.x - (a.x + t * (b.x - a.x)) && dy == p.y - (a.y + t * (b.y - a.y))
    ensures Square(p, At(a, b, Nearest(p, a, b))) <= dx * dx + dy * dy
  {
    SquareIs(p, a, b, t, dx, dy);
    NearestIsNearest(p, a, b, t);
  }

  /** Vertex i of a flat coordinate list. */
  function Vertex(pointList: seq<real>, i: int): Position
    requires 0 <= i && 2 * i + 1 < |pointList|
  {
    Position(pointList[2 * i], pointList[2 * i + 1])
  }

  predicate IsVertex(pointList: seq<real>, i: int) {
    0 <= i && 2 * i + 1 < |pointList|
  }

  /** How far vertex i (last argument) is from the chord between two vertices (first two arguments). */
  type Measure = (int, int, int) -> real

  /** The squared distance of a vertex from a chord. */
  function OffChord(pointList: seq<real>): Measure {
    (fp, lp, i) =>
      if IsVertex(pointList, fp) && IsVertex(pointList, lp) && IsVertex(pointList, i) then
        var p, a, b := Vertex(pointList, i), Vertex(pointList, fp), Vertex(pointList, lp);
        Square(p, At(a, b, Nearest(p, a, b)))
      else 0.0
  }

  predicate Chord(pointList: seq<real>, fp: int, lp: int, i: int) {
    IsVertex(pointList, fp) && IsVertex(pointList, lp) && IsVertex(pointList, i)
  }

  /** `off` gives the squared distances from the chords of the polyline. */
  ghost predicate Measures(off: Measure, pointList: seq<real>) {
    forall fp, lp, i {:trigger Chord(pointList, fp, lp, i)} :: Chord(pointList, fp, lp, i) ==>
      var p, a, b := Vertex(pointList, i), Vertex(pointList, fp), Vertex(pointList, lp);
      off(fp, lp, i) == Square(p, At(a, b, Nearest(p, a, b)))
  }

  lemma OffChordMeasures(pointList: seq<real>)
    ensures Measures(OffChord(pointList), pointList)
  {
  }

  /** The first of the vertices fp + 1 .. n - 1 that is farthest from the chord, and its distance. */
  ghost function Farthest(off: Measure, fp: int, lp: int, n: int): (f: (int, real))
    requires fp >= 0
    ensures f.1 >= 0.0 && forall i :: fp < i < n ==> off(fp, lp, i) <= f.1
    ensures if f.1 == 0.0 then f.0 == 0 else fp < f.0 < n && off(fp, lp, f.0) == f.1
    ensures forall i :: fp < i < n && i < f.0 ==> off(fp, lp, i) < f.1
    decreases n - fp
  {
    if n <= fp + 1 then (0, 0.0)
    else
      var f := Farthest(off, fp, lp, n - 1);
      if off(fp, lp, n - 1) > f.1 then (n - 1, off(fp, lp, n - 1)) else f
  }

  lemma FarthestNext(off: Measure, fp: int, lp: int, i: int, f: (int, real))
    requires fp >= 0 && i > fp && f == Farthest(off, fp, lp, i)
    ensures Farthest(off, fp, lp, i + 1) == if off(fp, lp, i) > f.1 then (i, off(fp, lp, i)) else f
  {
  }

  /** The indices that simplifying fp..lp keeps, in the order they are pushed. */
  ghost function Kept(off: Measure, fp: int, lp: int, limit: real): (kept: seq<int>)
    requires fp >= 0 && limit >= 0.0
    decreases lp - fp
  {
    var f := Farthest(off, fp, lp, lp);
    if f.1 > limit then [f.0] + Kept(off, fp, f.0, limit) + Kept(off, f.0, lp, limit) else []
  }

  /** One evaluation of the distance in the search loop. */
  method Distance(pointList: seq<real>, ghost off: Measure, fp: int, lp: int, i: int) returns (d: real)
    requires IsVertex(pointList, fp) && IsVertex(pointList, lp) && IsVertex(pointList, i) && Measures(off, pointList)
    ensures d == off(fp, lp, i)
  {
    var prun := Position(pointList[2 * i], pointList[2 * i + 1]);
    var start := Position(pointList[2 * fp], pointList[2 * fp + 1]);
    var end := Position(pointList[2 * lp], pointList[2 * lp + 1]);
    ghost var t, dx, dy;
    d, t, dx, dy := PerpendicularDistance(prun, start, end);
    assert Chord(pointList, fp, lp, i);
  }

  /** The search loop: running maximum and its index. */
  method FindFarthest(pointList: seq<real>, ghost off: Measure, fp: int, lp: int) returns (index: int, dmax: real)
    requires IsVertex(pointList, fp) && IsVertex(pointList, lp) && Measures(off, pointList)
    ensures (index, dmax) == Farthest(off, fp, lp, lp)
  {
    dmax, index := 0.0, 0;
    var i := fp + 1;
    while i < lp
      invariant i == fp + 1 || fp < i <= lp
      invariant (index, dmax) == Farthest(off, fp, lp, i)
    {
      var distance := Distance(pointList, off, fp, lp, i);
      FarthestNext(off, fp, lp, i, (index, dmax));
      if distance > dmax {
        dmax := distance;
        index := i;
      }
      i := i + 1;
    }
  }

  /** DouglasPeucker: push the farthest vertex if it is too far off the chord, then treat both halves. */
  method DouglasPeucker(pointList: seq<real>, ghost off: Measure, fp: int, lp: int, epsilon: real, keep: IndexVector)
    requires IsVertex(pointList, fp) && IsVertex(pointList, lp) && Measures(off, pointList) && epsilon >= 0.0
    modifies keep
    ensures keep.items == old(keep.items) + Kept(off, fp, lp, Sq(epsilon))
    decreases lp - fp
  {
    var index, dmax := FindFarthest(pointList, off, fp, lp);
    if dmax > Sq(epsilon) {
      keep.PushBack(index);
      DouglasPeucker(pointList, off, fp, index, epsilon, keep);
      DouglasPeucker(pointList, off, index, lp, epsilon, keep);
    }
  }

  /** Kept indices lie strictly between the ends and no index is kept twice. */
  lemma {:induction false} KeptDistinct(off: Measure, fp: int, lp: int, limit: real)
    requires fp >= 0 && limit >= 0.0
    ensures forall k :: k in Kept(off, fp, lp, limit) ==> fp < k < lp
    ensures forall i, j :: 0 <= i < j < |Kept(off, fp, lp, limit)| ==>
              Kept(off, fp, lp, limit)[i] != Kept(off, fp, lp, limit)[j]
    decreases lp - fp
  {
    var f := Farthest(off, fp, lp, lp);
    if f.1 > limit {
      KeptDistinct(off, fp, f.0, limit);
      KeptDistinct(off, f.0, lp, limit);
      var left, right := Kept(off, fp, f.0, limit), Kept(off, f.0, lp, limit);
      assert forall k :: 0 <= k < |left| ==> left[k] in left;
      assert forall k :: 0 <= k < |right| ==> right[k] in right;
      JoinDistinct(f.0, left, right);
    }
  }

  lemma JoinDistinct(m: int, left: seq<int>, right: seq<int>)
    requires (forall k :: 0 <= k < |left| ==> left[k] < m) && (forall k :: 0 <= k < |right| ==> m < right[k])
    requires forall i, j :: 0 <= i < j < |left| ==> left[i] != left[j]
    requires forall i, j :: 0 <= i < j < |right| ==> right[i] != right[j]
    ensures forall i, j :: 0 <= i < j < |[m] + left + right| ==> ([m] + left + right)[i] != ([m] + left + right)[j]
  {
    var s, n := [m] + left + right, |left|;
    forall i, j | 0 <= i < j < |s| ensures s[i] != s[j] {
      assert s[i] == if i == 0 then m else if i <= n then left[i - 1] else right[i - 1 - n];
      assert s[j] == if j <= n then left[j - 1] else right[j - 1 - n];
    }
  }

  /** Two neighbours in the simplified polyline: kept or end vertices with no kept one in between. */
  ghost predicate Neighbours(kept: seq<int>, fp: int, lp: int, l: int, r: int) {
    && l < r && (l == fp || l in kept) && (r == lp || r in kept)
    && forall k :: k in kept ==> !(l < k < r)
  }

  /** Every dropped vertex is within the limit of the chord of its two neighbours that remain. */
  lemma {:induction false} DroppedAreClose(off: Measure, fp: int, lp: int, limit: real, l: int, r: int, i: int)
    requires fp >= 0 && limit >= 0.0
    requires Neighbours(Kept(off, fp, lp, limit), fp, lp, l, r) && l < i < r
    ensures off(l, r, i) <= limit
    decreases lp - fp
  {
    var f := Farthest(off, fp, lp, lp);
    if f.1 > limit {
      var m := f.0;
      var left, right := Kept(off, fp, m, limit), Kept(off, m, lp, limit);
      KeptDistinct(off, fp, m, limit);
      KeptDistinct(off, m, lp, limit);
      assert m in Kept(off, fp, lp, limit);
      assert forall k :: k in left || k in right ==> k in Kept(off, fp, lp, limit);
      if r <= m {
        DroppedAreClose(off, fp, m, limit, l, r, i);
      } else {
        DroppedAreClose(off, m, lp, limit, l, r, i);
      }
    }
  }

  /** Every kept vertex was too far off the chord of two vertices that are also in the result. */
  lemma {:induction false} KeptIsNeeded(off: Measure, fp: int, lp: int, limit: real, k: int) returns (l: int, r: int)
    requires fp >= 0 && limit >= 0.0 && k in Kept(off, fp, lp, limit)
    ensures l < k < r && (l == fp || l in Kept(off, fp, lp, limit)) && (r == lp || r in Kept(off, fp, lp, limit))
    ensures off(l, r, k) > limit
    decreases lp - fp
  {
    var m := Farthest(off, fp, lp, lp).0;
    assert m in Kept(off, fp, lp, limit);
    if k == m {
      l, r := fp, lp;
    } else if k in Kept(off, fp, m, limit) {
      l, r := KeptIsNeeded(off, fp, m, limit, k);
    } else {
      l, r := KeptIsNeeded(off, m, lp, limit, k);
    }
  }

  /** Nothing is kept exactly when every vertex is close to the chord of the ends. */
  lemma NothingKept(off: Measure, fp: int, lp: int, limit: real)
    requires fp >= 0 && limit >= 0.0
    ensures Kept(off, fp, lp, limit) == [] <==> forall i :: fp < i < lp ==> off(fp, lp, i) <= limit
  {
    var f := Farthest(off, fp, lp, lp);
  }

  /**
   * The guarantee for the polyline: a dropped vertex is at most epsilon from a point of its neighbours' chord,
   * (dx, dy) leading to it from that point.
   */
  lemma SimplificationGuarantee(pointList: seq<real>, off: Measure, fp: int, lp: int, epsilon: real, l: int, r: int,
                                i: int)
    returns (t: real, dx: real, dy: real)
    requires IsVertex(pointList, fp) && IsVertex(pointList, lp) && Measures(off, pointList)
    requires Neighbours(Kept(off, fp, lp, Sq(epsilon)), fp, lp, l, r) && l < i < r
    ensures fp <= l && r <= lp && 0.0 <= t <= 1.0
    ensures dx == pointList[2 * i] - (pointList[2 * l] + t * (pointList[2 * r] - pointList[2 * l]))
    ensures dy == pointList[2 * i + 1] - (pointList[2 * l + 1] + t * (pointList[2 * r + 1] - pointList[2 * l + 1]))
    ensures dx * dx + dy * dy <= epsilon * epsilon
  {
    SqIs(epsilon);
    DroppedIsClose(off, fp, lp, Sq(epsilon), l, r, i);
    t, dx, dy := OffLeads(pointList, off, l, r, i);
  }

  /** A kept vertex is more than epsilon from every point of a chord of two vertices that remain. */
  lemma KeepingGuarantee(pointList: seq<real>, off: Measure, fp: int, lp: int, epsilon: real, k: int)
    returns (l: int, r: int)
    requires IsVertex(pointList, fp) && IsVertex(pointList, lp) && Measures(off, pointList)
    requires k in Kept(off, fp, lp, Sq(epsilon))
    ensures fp <= l < k < r <= lp
    ensures (l == fp || l in Kept(off, fp, lp, Sq(epsilon))) && (r == lp || r in Kept(off, fp, lp, Sq(epsilon)))
    ensures forall t, dx, dy :: OnChord(pointList, l, r, k, t, dx, dy) ==> dx * dx + dy * dy > epsilon * epsilon
  {
    SqIs(epsilon);
    l, r := KeptIsFar(off, fp, lp, Sq(epsilon), k);
    forall t, dx, dy | OnChord(pointList, l, r, k, t, dx, dy) ensures dx * dx + dy * dy > epsilon * epsilon {
      OffIsLeast(pointList, off, l, r, k, t, dx, dy);
    }
  }

  /** (dx, dy) leads to vertex k from the point at t of the chord. */
  predicate OnChord(pointList: seq<real>, l: int, r: int, k: int, t: real, dx: real, dy: real)
    requires 0 <= l < k < r && 2 * r + 1 < |pointList|
  {
    && 0.0 <= t <= 1.0
    && dx == pointList[2 * k] - (pointList[2 * l] + t * (pointList[2 * r] - pointList[2 * l]))
    && dy == pointList[2 * k + 1] - (pointList[2 * l + 1] + t * (pointList[2 * r + 1] - pointList[2 * l + 1]))
  }

  lemma SqIs(u: real)
    ensures Sq(u) == u * u
  {
  }

  /** The measured distance is that from some point of the chord, and it is not more than that from any. */
  lemma OffLeads(pointList: seq<real>, off: Measure, l: int, r: int, i: int) returns (t: real, dx: real, dy: real)
    requires Measures(off, pointList) && 0 <= l < i < r && 2 * r + 1 < |pointList|
    ensures 0.0 <= t <= 1.0
    ensures dx == pointList[2 * i] - (pointList[2 * l] + t * (pointList[2 * r] - pointList[2 * l]))
    ensures dy == pointList[2 * i + 1] - (pointList[2 * l + 1] + t * (pointList[2 * r + 1] - pointList[2 * l + 1]))
    ensures off(l, r, i) == dx * dx + dy * dy
  {
    assert Chord(pointList, l, r, i);
    var p, a, b := Vertex(pointList, i), Vertex(pointList, l), Vertex(pointList, r);
    t := Nearest(p, a, b);
    dx := pointList[2 * i] - (pointList[2 * l] + t * (pointList[2 * r] - pointList[2 * l]));
    dy := pointList[2 * i + 1] - (pointList[2 * l + 1] + t * (pointList[2 * r + 1] - pointList[2 * l + 1]));
    SquareIs(p, a, b, t, dx, dy);
  }

  lemma OffIsLeast(pointList: seq<real>, off: Measure, l: int, r: int, i: int, t: real, dx: real, dy: real)
    requires Measures(off, pointList) && 0 <= l < i < r && 2 * r + 1 < |pointList| && 0.0 <= t <= 1.0
    requires dx == pointList[2 * i] - (pointList[2 * l] + t * (pointList[2 * r] - pointList[2 * l]))
    requires dy == pointList[2 * i + 1] - (pointList[2 * l + 1] + t * (pointList[2 * r + 1] - pointList[2 * l + 1]))
    ensures off(l, r, i) <= dx * dx + dy * dy
  {
    assert Chord(pointList, l, r, i);
    NoneIsNearer(Vertex(pointList, i), Vertex(pointList, l), Vertex(pointList, r), t, dx, dy);
  }

  lemma DroppedIsClose(off: Measure, fp: int, lp: int, limit: real, l: int, r: int, i: int)
    requires 0 <= fp && limit >= 0.0 && Neighbours(Kept(off, fp, lp, limit), fp, lp, l, r) && l < i < r
    ensures fp <= l && r <= lp && off(l, r, i) <= limit
  {
    KeptDistinct(off, fp, lp, limit);
    DroppedAreClose(off, fp, lp, limit, l, r, i);
  }

  lemma KeptIsFar(off: Measure, fp: int, lp: int, limit: real, k: int) returns (l: int, r: int)
    requires 0 <= fp && limit >= 0.0 && k in Kept(off, fp, lp, limit)
    ensures fp <= l < k < r <= lp && off(l, r, k) > limit
    ensures (l == fp || l in Kept(off, fp, lp, limit)) && (r == lp || r in Kept(off, fp, lp, limit))
  {
    l, r := KeptIsNeeded(off, fp, lp, limit, k);
    KeptDistinct(off, fp, lp, limit);
  }
}
