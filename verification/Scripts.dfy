/** Whole runs: scripts of region operations, what they compute as sets, and when two results are equal. */
module Scripts {
  import opened Boxes
  import opened Banding
  import opened Geometry
  import opened Regions
  import opened Algebra
  import opened Bresenham
  import Polygon
  import Shrink

  type Area = iset<(int, int)>

  /** One call on a store of regions. Create, Outline and Duplicate put a new region into the slot. */
  datatype Command =
    | Create(dst: nat, r: Rectangle)
    | Outline(dst: nat, points: seq<Point>, rule: Polygon.FillRule)
    | Duplicate(dst: nat, src: nat)
    | AddRectangle(dst: nat, r: Rectangle)
    | Unite(dst: nat, src: nat)
    | Meet(dst: nat, src: nat)
    | Drop(dst: nat, src: nat)
    | ExclusiveOr(dst: nat, src: nat)
    | Move(dst: nat, dx: int, dy: int)
    | Squeeze(dst: nat, dx: int, dy: int)

  /** The slots exist; intersection, subtraction and symmetric difference need two regions. */
  ghost predicate Legal(c: Command, n: nat) {
    && c.dst < n
    && (c.Outline? ==> |c.points| >= 2 && Polygon.PointsInRange(c.points))
    && (c.Duplicate? || c.Unite? || c.Meet? || c.Drop? || c.ExclusiveOr? ==> c.src < n)
    && (c.Meet? || c.Drop? || c.ExclusiveOr? ==> c.src != c.dst)
  }

  ghost predicate AllLegal(cs: seq<Command>, n: nat) {
    forall i :: 0 <= i < |cs| ==> Legal(cs[i], n)
  }

  ghost function AreaOf(s: seq<Box>): Area {
    iset p: (int, int) | In(s, p.0, p.1)
  }

  ghost function RectangleArea(r: Rectangle): Area {
    iset p: (int, int) | r.x <= p.0 < r.x + r.width && r.y <= p.1 < r.y + r.height
  }

  ghost function PolygonArea(rule: Polygon.FillRule, points: seq<Point>): Area {
    iset p: (int, int) | Polygon.InsideRule(rule, points, p.0, p.1)
  }

  ghost function Moved(a: Area, dx: int, dy: int): Area {
    iset p: (int, int) | (p.0 - dx, p.1 - dy) in a
  }

  /** Some (d < 0) or every (d >= 0) point at most |d| columns from (x, y) is in `a`. */
  ghost predicate InRow(a: Area, d: int, x: int, y: int) {
    if d < 0 then exists u :: x + d <= u <= x - d && (u, y) in a
    else forall u :: x - d <= u <= x + d ==> (u, y) in a
  }

  /** The same for the rows at most |dy| away. */
  ghost predicate InWindow(a: Area, dx: int, dy: int, x: int, y: int) {
    if dy < 0 then exists v :: y + dy <= v <= y - dy && InRow(a, dx, x, v)
    else forall v :: y - dy <= v <= y + dy ==> InRow(a, dx, x, v)
  }

  ghost function Squeezed(a: Area, dx: int, dy: int): Area {
    iset p: (int, int) | InWindow(a, dx, dy, p.0, p.1)
  }

  /** The area of the slot a command writes. */
  ghost function Effect(m: seq<Area>, c: Command): Area
    requires Legal(c, |m|)
  {
    match c
    case Create(_, r) => RectangleArea(r)
    case Outline(_, points, rule) => PolygonArea(rule, points)
    case Duplicate(_, src) => m[src]
    case AddRectangle(dst, r) => m[dst] + RectangleArea(r)
    case Unite(dst, src) => m[dst] + m[src]
    case Meet(dst, src) => m[dst] * m[src]
    case Drop(dst, src) => m[dst] - m[src]
    case ExclusiveOr(dst, src) => (m[dst] - m[src]) + (m[src] - m[dst])
    case Move(dst, dx, dy) => Moved(m[dst], dx, dy)
    case Squeeze(dst, dx, dy) => Squeezed(m[dst], dx, dy)
  }

  ghost function After(m: seq<Area>, c: Command): seq<Area>
    requires Legal(c, |m|)
  {
    m[c.dst := Effect(m, c)]
  }

  /** What a script makes of the areas in a store, with no box in sight. */
  ghost function AfterAll(m: seq<Area>, cs: seq<Command>): (r: seq<Area>)
    requires AllLegal(cs, |m|)
    ensures |r| == |m|
    decreases |cs|
  {
    if cs == [] then m else AfterAll(After(m, cs[0]), cs[1..])
  }

  /** No region of the script comes from a polygon, whose boxes need not be in canonical form. */
  ghost predicate NoOutlines(cs: seq<Command>) {
    forall i :: 0 <= i < |cs| ==> !cs[i].Outline?
  }

  ghost predicate AllInForm(regs: seq<Region>, canonical: bool)
    reads regs
  {
    forall k :: 0 <= k < |regs| ==> regs[k].InForm(canonical)
  }

  ghost predicate Separate(regs: seq<Region>) {
    forall i, j :: 0 <= i < j < |regs| ==> regs[i] != regs[j]
  }

  ghost function Areas(regs: seq<Region>): (m: seq<Area>)
    reads regs
    ensures |m| == |regs|
  {
    seq(|regs|, k requires 0 <= k < |regs| reads regs => AreaOf(regs[k].rects))
  }

  lemma NearIsInWindow(s: seq<Box>, dx: int, dy: int, x: int, y: int)
    ensures Shrink.Near(s, dx, dy, x, y) <==> InWindow(AreaOf(s), dx, dy, x, y)
  {
    forall v ensures Shrink.NearInRow(s, dx, x, v) <==> InRow(AreaOf(s), dx, x, v) {
      forall u ensures In(s, u, v) <==> (u, v) in AreaOf(s) {}
    }
  }

  lemma AreaIs(s: seq<Box>, a: Area)
    requires forall x, y :: In(s, x, y) <==> (x, y) in a
    ensures AreaOf(s) == a
  {
    forall p: (int, int) ensures p in AreaOf(s) <==> p in a {
      assert p == (p.0, p.1);
    }
  }

  lemma MovedArea(s: seq<Box>, dx: int, dy: int)
    ensures AreaOf(Shifted(s, dx, dy)) == Moved(AreaOf(s), dx, dy)
  {
    forall x, y { ShiftedPoints(s, dx, dy, x, y); }
    AreaIs(Shifted(s, dx, dy), Moved(AreaOf(s), dx, dy));
  }

  lemma SqueezedArea(s: seq<Box>, r: seq<Box>, dx: int, dy: int)
    requires Shrink.AllNear(r, s, dx, dy)
    ensures AreaOf(r) == Squeezed(AreaOf(s), dx, dy)
  {
    forall x, y { NearIsInWindow(s, dx, dy, x, y); }
    AreaIs(r, Squeezed(AreaOf(s), dx, dy));
  }

  /** The commands with a second operand. */
  method ApplyBinary(reg: Region, other: Region, c: Command, ghost a: Area, ghost b: Area, ghost canonical: bool)
    requires reg.InForm(canonical) && other.InForm(canonical) && (c.Unite? || c.Meet? || c.Drop? || c.ExclusiveOr?)
    requires c.Unite? || reg != other
    requires a == AreaOf(reg.rects) && b == AreaOf(other.rects)
    modifies reg
    ensures reg.InForm(canonical)
    ensures AreaOf(reg.rects) == if c.Unite? then a + b else if c.Meet? then a * b else if c.Drop? then a - b
                                 else (a - b) + (b - a)
  {
    match c
    case Unite(_, _) =>
      Union(reg, other);
      AreaIs(reg.rects, a + b);
    case Meet(_, _) =>
      Intersect(reg, other);
      AreaIs(reg.rects, a * b);
    case Drop(_, _) =>
      Subtract(reg, other);
      AreaIs(reg.rects, a - b);
    case ExclusiveOr(_, _) =>
      Xor(reg, other);
      AreaIs(reg.rects, (a - b) + (b - a));
  }

  /** The commands that change one region. */
  method ApplyUnary(reg: Region, c: Command, ghost a: Area, ghost canonical: bool)
    requires reg.InForm(canonical) && (c.AddRectangle? || c.Move? || c.Squeeze?)
    requires a == AreaOf(reg.rects)
    modifies reg
    ensures reg.InForm(canonical)
    ensures AreaOf(reg.rects) == if c.AddRectangle? then a + RectangleArea(c.r)
                                 else if c.Move? then Moved(a, c.dx, c.dy) else Squeezed(a, c.dx, c.dy)
  {
    ghost var s := reg.rects;
    match c
    case AddRectangle(_, r) =>
      UnionWithRect(reg, r);
      AreaIs(reg.rects, a + RectangleArea(r));
    case Move(_, dx, dy) =>
      Offset(reg, dx, dy);
      MovedArea(s, dx, dy);
    case Squeeze(_, dx, dy) =>
      Shrink.ShrinkBy(reg, dx, dy);
      SqueezedArea(s, reg.rects, dx, dy);
  }

  /** The commands that make a new region. */
  method MakeNew(regs: seq<Region>, c: Command, ghost canonical: bool) returns (reg: Region)
    requires AllInForm(regs, canonical) && Legal(c, |regs|) && (c.Create? || c.Outline? || c.Duplicate?)
    requires canonical ==> !c.Outline?
    ensures fresh(reg) && reg.InForm(canonical) && AreaOf(reg.rects) == Effect(Areas(regs), c)
  {
    if c.Create? {
      reg := new Region.FromRectangle(c.r);
      AreaIs(reg.rects, RectangleArea(c.r));
    } else if c.Outline? {
      ghost var pts;
      reg, pts := Polygon.RegionPolygon(c.points, c.rule);
      AreaIs(reg.rects, PolygonArea(c.rule, c.points));
    } else {
      reg := new Region();
      Copy(reg, regs[c.src]);
    }
  }

  /** One command on a store: the written slot takes its effect, the others keep their boxes. */
  method Execute(regs: seq<Region>, c: Command, ghost canonical: bool) returns (reg: Region)
    requires AllInForm(regs, canonical) && Separate(regs) && Legal(c, |regs|) && (canonical ==> !c.Outline?)
    modifies regs[c.dst]
    ensures if c.Create? || c.Outline? || c.Duplicate? then fresh(reg) else reg == regs[c.dst]
    ensures reg.InForm(canonical) && AreaOf(reg.rects) == Effect(old(Areas(regs)), c)
  {
    if c.Create? || c.Outline? || c.Duplicate? {
      reg := MakeNew(regs, c, canonical);
    } else {
      reg := regs[c.dst];
      if c.AddRectangle? || c.Move? || c.Squeeze? {
        ApplyUnary(reg, c, AreaOf(reg.rects), canonical);
      } else {
        ApplyBinary(reg, regs[c.src], c, AreaOf(reg.rects), AreaOf(regs[c.src].rects), canonical);
      }
    }
  }

  /** The store after one command. */
  method Step(regs: seq<Region>, c: Command, ghost canonical: bool) returns (out: seq<Region>)
    requires AllInForm(regs, canonical) && Separate(regs) && Legal(c, |regs|) && (canonical ==> !c.Outline?)
    modifies regs[c.dst]
    ensures |out| == |regs| && AllInForm(out, canonical) && Separate(out)
    ensures forall k :: 0 <= k < |out| ==> out[k] in regs || fresh(out[k])
    ensures Areas(out) == After(old(Areas(regs)), c)
  {
    ghost var m := Areas(regs);
    Others(regs, c.dst);
    var reg := Execute(regs, c, canonical);
    out := regs[c.dst := reg];
    forall k | 0 <= k < |out| ensures out[k].InForm(canonical) && Areas(out)[k] == After(m, c)[k] {
      assert k != c.dst ==> out[k] == regs[k] && m[k] == AreaOf(regs[k].rects);
    }
  }

  lemma Others(regs: seq<Region>, i: nat)
    requires Separate(regs) && i < |regs|
    ensures forall k :: 0 <= k < |regs| && k != i ==> regs[k] != regs[i]
  {
    forall k | 0 <= k < |regs| && k != i ensures regs[k] != regs[i] {
      assert if k < i then regs[k] != regs[i] else regs[i] != regs[k];
    }
  }

  lemma FirstOfRest(m: seq<Area>, cs: seq<Command>, i: nat)
    requires i < |cs| && AllLegal(cs[i..], |m|)
    ensures Legal(cs[i], |m|) && AllLegal(cs[i + 1..], |m|)
    ensures AfterAll(m, cs[i..]) == AfterAll(After(m, cs[i]), cs[i + 1..])
  {
    assert cs[i..][0] == cs[i] && cs[i..][1..] == cs[i + 1..];
  }

  /**
   * Every run keeps all regions usable, and canonical unless it outlines polygons, and leaves in each slot
   * exactly the area that set algebra gives for the script.
   */
  method Run(regs: seq<Region>, cs: seq<Command>, ghost canonical: bool) returns (out: seq<Region>)
    requires AllInForm(regs, canonical) && Separate(regs) && AllLegal(cs, |regs|) && (canonical ==> NoOutlines(cs))
    modifies regs
    ensures |out| == |regs| && AllInForm(out, canonical) && Separate(out)
    ensures forall k :: 0 <= k < |out| ==> out[k] in regs || fresh(out[k])
    ensures Areas(out) == AfterAll(old(Areas(regs)), cs)
  {
    out := regs;
    var i := 0;
    while i < |cs|
      invariant 0 <= i <= |cs| && |out| == |regs|
      invariant forall k :: 0 <= k < |out| ==> out[k] in regs || fresh(out[k])
      invariant AllInForm(out, canonical) && Separate(out)
      invariant AllLegal(cs[i..], |regs|) && AfterAll(Areas(out), cs[i..]) == AfterAll(old(Areas(regs)), cs)
    {
      FirstOfRest(Areas(out), cs, i);
      out := Step(out, cs[i], canonical);
      i := i + 1;
    }
  }

  /**
   * Run a script on each of two stores and compare a region of one with a region of the other: equal boxes
   * always mean equal set expressions, and without polygons the comparison decides that equality.
   */
  method RunBoth(regs: seq<Region>, cs: seq<Command>, i: nat, others: seq<Region>, ds: seq<Command>, j: nat,
                 ghost canonical: bool) returns (same: bool)
    requires AllInForm(regs, canonical) && Separate(regs) && AllLegal(cs, |regs|) && i < |regs|
    requires AllInForm(others, canonical) && Separate(others) && AllLegal(ds, |others|) && j < |others|
    requires (canonical ==> NoOutlines(cs) && NoOutlines(ds)) && forall k :: 0 <= k < |regs| ==> regs[k] !in others
    modifies regs, others
    ensures same ==> AfterAll(old(Areas(regs)), cs)[i] == AfterAll(old(Areas(others)), ds)[j]
    ensures canonical ==> (same <==> AfterAll(old(Areas(regs)), cs)[i] == AfterAll(old(Areas(others)), ds)[j])
  {
    var out := Run(regs, cs, canonical);
    assert Areas(others) == old(Areas(others));
    var out' := Run(others, ds, canonical);
    same := Equal(out[i], out'[j]);
    AreaEquality(out[i].rects, out'[j].rects);
  }

  lemma AreaEquality(s: seq<Box>, t: seq<Box>)
    ensures SamePoints(s, t) <==> AreaOf(s) == AreaOf(t)
  {
    if AreaOf(s) == AreaOf(t) {
      forall x, y ensures In(s, x, y) <==> In(t, x, y) {
        assert (x, y) in AreaOf(s) <==> (x, y) in AreaOf(t);
      }
    }
  }

  // Two ways to the same region.

  datatype Law = ExclusiveOrLaw | MeetLaw | OpeningLaw(dx: int, dy: int) | ClosingLaw(dx: int, dy: int)

  /** Opening and closing are meant for distances, not for their negatives. */
  predicate Sensible(law: Law) {
    law.OpeningLaw? || law.ClosingLaw? ==> law.dx >= 0 && law.dy >= 0
  }

  function Short(law: Law, i: nat, j: nat): seq<Command> {
    match law
    case ExclusiveOrLaw => [ExclusiveOr(i, j)]
    case MeetLaw => [Meet(i, j)]
    case OpeningLaw(_, _) => []
    case ClosingLaw(_, _) => []
  }

  /**
   * Symmetric difference and intersection by subtractions; a region united with its opening, or met with its
   * closing.
   */
  function Long(law: Law, i: nat, j: nat, t: nat): seq<Command> {
    match law
    case ExclusiveOrLaw => [Duplicate(t, j), Drop(t, i), Drop(i, j), Unite(i, t)]
    case MeetLaw => [Duplicate(t, i), Drop(t, j), Drop(i, t)]
    case OpeningLaw(dx, dy) => [Duplicate(t, i), Squeeze(t, dx, dy), Squeeze(t, -dx, -dy), Unite(i, t)]
    case ClosingLaw(dx, dy) => [Duplicate(t, i), Squeeze(t, -dx, -dy), Squeeze(t, dx, dy), Meet(i, t)]
  }

  lemma OneStep(m: seq<Area>, c: Command, cs: seq<Command>)
    requires Legal(c, |m|) && AllLegal(cs, |m|)
    ensures AllLegal([c] + cs, |m|) && AfterAll(m, [c] + cs) == AfterAll(After(m, c), cs)
  {
    assert ([c] + cs)[1..] == cs;
  }

  lemma FourSteps(m: seq<Area>, a: Command, b: Command, c: Command, d: Command)
    requires Legal(a, |m|) && Legal(b, |m|) && Legal(c, |m|) && Legal(d, |m|)
    ensures AfterAll(m, [a, b, c]) == After(After(After(m, a), b), c)
    ensures AfterAll(m, [a, b, c, d]) == After(After(After(After(m, a), b), c), d)
  {
    assert [a, b, c, d] == [a] + ([b] + ([c] + ([d] + []))) && [a, b, c] == [a] + ([b] + ([c] + []));
    OneStep(After(After(After(m, a), b), c), d, []);
    OneStep(After(After(m, a), b), c, [d] + []);
    OneStep(After(After(m, a), b), c, []);
    OneStep(After(m, a), b, [c] + ([d] + []));
    OneStep(After(m, a), b, [c] + []);
    OneStep(m, a, [b] + ([c] + ([d] + [])));
    OneStep(m, a, [b] + ([c] + []));
  }

  /** Opening never adds a point. */
  lemma Opening(a: Area, dx: int, dy: int)
    requires dx >= 0 && dy >= 0
    ensures Squeezed(Squeezed(a, dx, dy), -dx, -dy) <= a
  {
    forall p | p in Squeezed(Squeezed(a, dx, dy), -dx, -dy) ensures p in a {
      var v :| p.1 - dy <= v <= p.1 + dy && InRow(Squeezed(a, dx, dy), -dx, p.0, v);
      var u :| p.0 - dx <= u <= p.0 + dx && (u, v) in Squeezed(a, dx, dy);
      assert InWindow(a, dx, dy, u, v) && InRow(a, dx, u, p.1);
    }
  }

  /** Closing never loses a point. */
  lemma Closing(a: Area, dx: int, dy: int)
    requires dx >= 0 && dy >= 0
    ensures a <= Squeezed(Squeezed(a, -dx, -dy), dx, dy)
  {
    var b := Squeezed(a, -dx, -dy);
    forall p | p in a ensures p in Squeezed(b, dx, dy) {
      forall v | p.1 - dy <= v <= p.1 + dy ensures InRow(b, dx, p.0, v) {
        forall u | p.0 - dx <= u <= p.0 + dx ensures (u, v) in b {
          assert InRow(a, -dx, u, p.1);
        }
      }
    }
  }

  lemma SubtractionLaws(m: seq<Area>, i: nat, j: nat, t: nat)
    requires i < |m| && j < |m| && t < |m| && i != j && i != t && j != t
    ensures After(After(After(After(m, Duplicate(t, j)), Drop(t, i)), Drop(i, j)), Unite(i, t))[i]
         == After(m, ExclusiveOr(i, j))[i]
    ensures After(After(After(m, Duplicate(t, i)), Drop(t, j)), Drop(i, t))[i] == After(m, Meet(i, j))[i]
  {
    assert After(After(m, Duplicate(t, j)), Drop(t, i)) == m[t := m[j] - m[i]];
    assert After(After(m, Duplicate(t, i)), Drop(t, j)) == m[t := m[i] - m[j]];
    assert m[i] - (m[i] - m[j]) == m[i] * m[j];
  }

  lemma WindowLaws(m: seq<Area>, i: nat, t: nat, dx: int, dy: int)
    requires i < |m| && t < |m| && i != t && dx >= 0 && dy >= 0
    ensures var n := After(m, Duplicate(t, i));
            && After(After(After(n, Squeeze(t, dx, dy)), Squeeze(t, -dx, -dy)), Unite(i, t))[i] == m[i]
            && After(After(After(n, Squeeze(t, -dx, -dy)), Squeeze(t, dx, dy)), Meet(i, t))[i] == m[i]
  {
    Opening(m[i], dx, dy);
    Closing(m[i], dx, dy);
    assert After(After(m, Duplicate(t, i)), Squeeze(t, dx, dy)) == m[t := Squeezed(m[i], dx, dy)];
    assert After(After(m, Duplicate(t, i)), Squeeze(t, -dx, -dy)) == m[t := Squeezed(m[i], -dx, -dy)];
  }

  /** The two scripts of a law agree on slot i. */
  ghost predicate Agree(m: seq<Area>, cs: seq<Command>, ds: seq<Command>, i: nat)
    requires i < |m|
  {
    AllLegal(cs, |m|) && AllLegal(ds, |m|) && AfterAll(m, cs)[i] == AfterAll(m, ds)[i]
  }

  lemma SubtractionScripts(m: seq<Area>, i: nat, j: nat, t: nat)
    requires i < |m| && j < |m| && t < |m| && i != j && i != t && j != t
    ensures Agree(m, [ExclusiveOr(i, j)], [Duplicate(t, j), Drop(t, i), Drop(i, j), Unite(i, t)], i)
    ensures Agree(m, [Meet(i, j)], [Duplicate(t, i), Drop(t, j), Drop(i, t)], i)
  {
    FourSteps(m, Duplicate(t, j), Drop(t, i), Drop(i, j), Unite(i, t));
    FourSteps(m, Duplicate(t, i), Drop(t, j), Drop(i, t), Drop(i, t));
    OneStep(m, ExclusiveOr(i, j), []);
    OneStep(m, Meet(i, j), []);
    assert [ExclusiveOr(i, j)] + [] == [ExclusiveOr(i, j)] && [Meet(i, j)] + [] == [Meet(i, j)];
    SubtractionLaws(m, i, j, t);
  }

  lemma WindowScripts(m: seq<Area>, i: nat, t: nat, dx: int, dy: int)
    requires i < |m| && t < |m| && i != t && dx >= 0 && dy >= 0
    ensures Agree(m, [], [Duplicate(t, i), Squeeze(t, dx, dy), Squeeze(t, -dx, -dy), Unite(i, t)], i)
    ensures Agree(m, [], [Duplicate(t, i), Squeeze(t, -dx, -dy), Squeeze(t, dx, dy), Meet(i, t)], i)
  {
    FourSteps(m, Duplicate(t, i), Squeeze(t, dx, dy), Squeeze(t, -dx, -dy), Unite(i, t));
    FourSteps(m, Duplicate(t, i), Squeeze(t, -dx, -dy), Squeeze(t, dx, dy), Meet(i, t));
    WindowLaws(m, i, t, dx, dy);
  }

  lemma LawHolds(m: seq<Area>, law: Law, i: nat, j: nat, t: nat)
    requires i < |m| && j < |m| && t < |m| && i != j && i != t && j != t && Sensible(law)
    ensures Agree(m, Short(law, i, j), Long(law, i, j, t), i)
  {
    if law.ExclusiveOrLaw? || law.MeetLaw? {
      SubtractionScripts(m, i, j, t);
    } else {
      WindowScripts(m, i, t, law.dx, law.dy);
    }
  }

  /** The two sides of a law, run on equal stores, end with regions that compare equal. */
  method CheckLaw(regs: seq<Region>, others: seq<Region>, law: Law, i: nat, j: nat, t: nat) returns (same: bool)
    requires AllInForm(regs, true) && Separate(regs) && AllInForm(others, true) && Separate(others)
    requires Areas(regs) == Areas(others) && forall k :: 0 <= k < |regs| ==> regs[k] !in others
    requires i < |regs| && j < |regs| && t < |regs| && i != j && i != t && j != t && Sensible(law)
    modifies regs, others
    ensures same
  {
    LawHolds(Areas(regs), law, i, j, t);
    assert |others| == |Areas(others)| == |regs|;
    same := RunBoth(regs, Short(law, i, j), i, others, Long(law, i, j, t), i, true);
  }
}
