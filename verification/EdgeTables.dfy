/** The edge table, the active edge list and the routines that keep them sorted. */
module EdgeTables {
  import opened Bresenham
  import opened Crossings

  const LARGE_COORDINATE := 1000000
  const SMALL_COORDINATE := -1000000

  /** An edge of the polygon on its way through the tables. */
  class EdgeTableEntry {
    ghost const seg: Segment
    const ymax: int
    const clockWise: bool
    ghost const start: Bres
    var bres: Bres
    var nextWETE: EdgeTableEntry?

    /** The entry stands for `seg`: it leaves on its last row and its steps visit the exact crossings. */
    ghost predicate Made() {
      && Slanted(seg) && ymax == seg.bottom.y - 1 && clockWise == seg.down
      && forall y {:trigger CrossX(seg, y)} :: seg.top.y <= y ==>
           StepsFrom(start, y - seg.top.y).minor_axis == CrossX(seg, y)
    }

    /** The stepping record stands at row `y`. */
    ghost predicate Tracks(y: int)
      reads this
    {
      seg.top.y <= y && bres == StepsFrom(start, y - seg.top.y)
    }

    /** One edge of CreateETandAET: order the ends, set the last row, start the stepping. */
    constructor (top: Point, bottom: Point, clockWise: bool)
      requires top.y < bottom.y
      ensures Made() && Tracks(top.y) && seg == Segment(top, bottom, clockWise)
      ensures bres.minor_axis == top.x
    {
      this.clockWise := clockWise;
      ymax := bottom.y - 1;
      seg := Segment(top, bottom, clockWise);
      start := Started(bottom.y - top.y, top.x, bottom.x);
      bres := Started(bottom.y - top.y, top.x, bottom.x);
      nextWETE := null;
      new;
      forall y | top.y <= y
        ensures StepsFrom(start, y - top.y).minor_axis == CrossX(seg, y)
      {
        SteppingIsExact(bottom.y - top.y, top.x, bottom.x, y - top.y);
      }
    }

    /** OBRESINCRPGONSTRUCT: move the record one row down. */
    method Step()
      modifies this`bres
      ensures bres == Stepped(old(bres))
    {
      if bres.m1 > 0 {
        if bres.d > 0 {
          bres := bres.(minor_axis := bres.minor_axis + bres.m1);
          bres := bres.(d := bres.d + bres.incr1);
        } else {
          bres := bres.(minor_axis := bres.minor_axis + bres.m);
          bres := bres.(d := bres.d + bres.incr2);
        }
      } else {
        if bres.d >= 0 {
          bres := bres.(minor_axis := bres.minor_axis + bres.m1);
          bres := bres.(d := bres.d + bres.incr1);
        } else {
          bres := bres.(minor_axis := bres.minor_axis + bres.m);
          bres := bres.(d := bres.d + bres.incr2);
        }
      }
    }
  }

  /** An edge list in the order of the current columns. */
  ghost predicate Sorted(es: seq<EdgeTableEntry>)
    reads es
  {
    forall i, j :: 0 <= i < j < |es| ==> es[i].bres.minor_axis <= es[j].bres.minor_axis
  }

  predicate Differ(es: seq<EdgeTableEntry>, i: int, j: int)
    requires 0 <= i < |es| && 0 <= j < |es|
  {
    es[i] != es[j]
  }

  ghost predicate Distinct(es: seq<EdgeTableEntry>) {
    forall i, j {:trigger Differ(es, i, j)} :: 0 <= i < j < |es| ==> Differ(es, i, j)
  }

  lemma DistinctFrom(es: seq<EdgeTableEntry>, n: int)
    requires Distinct(es) && 0 <= n < |es|
    ensures forall k :: 0 <= k < |es| && k != n ==> es[k] != es[n]
  {
    forall k | 0 <= k < |es| && k != n ensures es[k] != es[n] {
      assert if k < n then Differ(es, k, n) else Differ(es, n, k);
    }
  }

  ghost function SegsOf(es: seq<EdgeTableEntry>): (gs: seq<Segment>)
    ensures |gs| == |es| && forall i :: 0 <= i < |es| ==> gs[i] == es[i].seg
  {
    seq(|es|, i requires 0 <= i < |es| => es[i].seg)
  }

  /** A list that holds the same entries as often as one without repetition has no repetition. */
  lemma DistinctPermutation(a: seq<EdgeTableEntry>, b: seq<EdgeTableEntry>)
    requires Distinct(a) && multiset(a) == multiset(b)
    ensures Distinct(b)
  {
    forall i, j | 0 <= i < j < |b| ensures Differ(b, i, j) {
      if b[i] == b[j] {
        DistinctOnce(a, b[i]);
        OccursTwice(b, i, j);
      }
    }
  }

  lemma {:induction false} DistinctOnce(a: seq<EdgeTableEntry>, e: EdgeTableEntry)
    requires Distinct(a)
    ensures multiset(a)[e] <= 1
  {
    if a != [] {
      var n := |a| - 1;
      var t := a[..n];
      assert a == t + [a[n]];
      forall i, j | 0 <= i < j < n ensures Differ(t, i, j) { assert Differ(a, i, j); }
      DistinctOnce(t, e);
      DistinctFrom(a, n);
      assert a[n] !in t;
    }
  }

  lemma OccursTwice(b: seq<EdgeTableEntry>, i: nat, j: nat)
    requires i < j < |b| && b[i] == b[j]
    ensures multiset(b)[b[i]] >= 2
  {
    assert b == b[..j] + [b[j]] + b[j + 1..];
    assert b[i] in b[..j];
  }

  /** Insert an entry before position p of a list. */
  function InsertAt(es: seq<EdgeTableEntry>, p: nat, e: EdgeTableEntry): seq<EdgeTableEntry>
    requires p <= |es|
  {
    es[..p] + [e] + es[p..]
  }

  /** loadAET: merge a sorted bucket into the sorted active list. */
  method LoadAET(aet: seq<EdgeTableEntry>, etes: seq<EdgeTableEntry>) returns (r: seq<EdgeTableEntry>)
    requires Sorted(aet) && Sorted(etes)
    ensures Sorted(r) && SameEntries(r, aet, etes)
  {
    r := aet;
    var p, k := 0, 0;
    assert etes[..0] == [] && SegsOf(etes[..0]) == [];
    while k < |etes|
      invariant 0 <= k <= |etes| && 0 <= p <= |r|
      invariant Sorted(r) && SameEntries(r, aet, etes[..k])
      invariant k < |etes| ==> forall i :: 0 <= i < p ==> r[i].bres.minor_axis <= etes[k].bres.minor_axis
    {
      while p < |r| && r[p].bres.minor_axis < etes[k].bres.minor_axis
        invariant 0 <= p <= |r|
        invariant forall i :: 0 <= i < p ==> r[i].bres.minor_axis <= etes[k].bres.minor_axis
      {
        p := p + 1;
      }
      MergedIn(r, aet, etes, p, k);
      r := InsertAt(r, p, etes[k]);
      p := p + 1;
      k := k + 1;
    }
    assert etes[..k] == etes;
  }

  /** `r` holds the entries of both lists, and so the segments of both. */
  ghost predicate SameEntries(r: seq<EdgeTableEntry>, a: seq<EdgeTableEntry>, b: seq<EdgeTableEntry>) {
    && multiset(r) == multiset(a) + multiset(b)
    && multiset(SegsOf(r)) == multiset(SegsOf(a)) + multiset(SegsOf(b))
  }

  lemma MergedIn(r: seq<EdgeTableEntry>, a: seq<EdgeTableEntry>, b: seq<EdgeTableEntry>, p: nat, k: nat)
    requires k < |b| && p <= |r| && SameEntries(r, a, b[..k]) && Sorted(r)
    requires forall i :: 0 <= i < p ==> r[i].bres.minor_axis <= b[k].bres.minor_axis
    requires p < |r| ==> r[p].bres.minor_axis >= b[k].bres.minor_axis
    ensures SameEntries(InsertAt(r, p, b[k]), a, b[..k + 1]) && Sorted(InsertAt(r, p, b[k]))
  {
    InsertedSegs(r, p, b[k]);
    assert b[..k + 1] == b[..k] + [b[k]];
    SegsSnoc(b[..k], b[k]);
    InsertKeepsSorted(r, p, b[k]);
  }

  lemma InsertKeepsSorted(r: seq<EdgeTableEntry>, p: nat, e: EdgeTableEntry)
    requires p <= |r| && Sorted(r)
    requires forall i :: 0 <= i < p ==> r[i].bres.minor_axis <= e.bres.minor_axis
    requires p < |r| ==> r[p].bres.minor_axis >= e.bres.minor_axis
    ensures Sorted(InsertAt(r, p, e))
  {
    assert forall i :: p <= i < |r| ==> r[i].bres.minor_axis >= e.bres.minor_axis;
  }

  lemma SegsSnoc(es: seq<EdgeTableEntry>, e: EdgeTableEntry)
    ensures SegsOf(es + [e]) == SegsOf(es) + [e.seg]
  {
  }

  lemma InsertedSegs(es: seq<EdgeTableEntry>, p: nat, e: EdgeTableEntry)
    requires p <= |es|
    ensures multiset(InsertAt(es, p, e)) == multiset(es) + multiset{e}
    ensures multiset(SegsOf(InsertAt(es, p, e))) == multiset(SegsOf(es)) + multiset{e.seg}
  {
    assert es == es[..p] + es[p..];
    var gs := SegsOf(es);
    assert gs == gs[..p] + gs[p..];
    assert SegsOf(InsertAt(es, p, e)) == gs[..p] + [e.seg] + gs[p..];
  }

  lemma RemovedSegs(es: seq<EdgeTableEntry>, p: nat)
    requires p < |es|
    ensures multiset(es) == multiset(es[..p] + es[p + 1..]) + multiset{es[p]}
    ensures multiset(SegsOf(es)) == multiset(SegsOf(es[..p] + es[p + 1..])) + multiset{es[p].seg}
  {
    var rest := es[..p] + es[p + 1..];
    assert InsertAt(rest, p, es[p]) == es;
    InsertedSegs(rest, p, es[p]);
  }

  /** The column of the entry before position j, the list header standing before the first. */
  function ColumnBefore(es: seq<EdgeTableEntry>, j: nat): int
    requires j <= |es|
    reads es
  {
    if j == 0 then SMALL_COORDINATE else es[j - 1].bres.minor_axis
  }

  /** Where entry `i` belongs among the entries before it; the header's column stops the chase. */
  method ChaseBack(es: seq<EdgeTableEntry>, i: nat) returns (chase: nat)
    requires i < |es| && SMALL_COORDINATE <= es[i].bres.minor_axis
    ensures chase <= i && ColumnBefore(es, chase) <= es[i].bres.minor_axis
    ensures forall k :: chase <= k < i ==> es[k].bres.minor_axis > es[i].bres.minor_axis
  {
    chase := i;
    while ColumnBefore(es, chase) > es[i].bres.minor_axis
      invariant 0 <= chase <= i
      invariant forall k :: chase <= k < i ==> es[k].bres.minor_axis > es[i].bres.minor_axis
      decreases chase
    {
      chase := chase - 1;
    }
  }

  /** The list with entry `i` moved up to position p. */
  function MovedUp(es: seq<EdgeTableEntry>, i: nat, p: nat): seq<EdgeTableEntry>
    requires p <= i < |es|
  {
    InsertAt(es[..i] + es[i + 1..], p, es[i])
  }

  ghost predicate SortedUpTo(es: seq<EdgeTableEntry>, n: int)
    reads es
  {
    n <= |es| && forall i, j :: 0 <= i < j < n ==> es[i].bres.minor_axis <= es[j].bres.minor_axis
  }

  lemma MovedSorted(es: seq<EdgeTableEntry>, i: nat, p: nat)
    requires p <= i < |es| && SortedUpTo(es, i)
    requires forall k :: p <= k < i ==> es[k].bres.minor_axis > es[i].bres.minor_axis
    requires ColumnBefore(es, p) <= es[i].bres.minor_axis
    ensures |MovedUp(es, i, p)| == |es| && SortedUpTo(MovedUp(es, i, p), i + 1)
  {
    var r := MovedUp(es, i, p);
    assert forall k :: 0 <= k < p ==> r[k] == es[k];
    assert forall k :: p < k <= i ==> r[k] == es[k - 1];
    assert r[p] == es[i];
  }

  lemma MovedNowhere(es: seq<EdgeTableEntry>, i: nat)
    requires i < |es|
    ensures MovedUp(es, i, i) == es
  {
    var rest := es[..i] + es[i + 1..];
    assert rest[..i] == es[..i] && rest[i..] == es[i + 1..];
  }

  lemma MovedSegs(es: seq<EdgeTableEntry>, i: nat, p: nat)
    requires p <= i < |es|
    ensures multiset(MovedUp(es, i, p)) == multiset(es)
    ensures multiset(SegsOf(MovedUp(es, i, p))) == multiset(SegsOf(es))
    ensures p == i ==> MovedUp(es, i, p) == es
  {
    RemovedSegs(es, i);
    InsertedSegs(es[..i] + es[i + 1..], p, es[i]);
    if p == i { MovedNowhere(es, i); }
  }

  /** InsertionSort of the active list. */
  method InsertionSort(aet: seq<EdgeTableEntry>) returns (r: seq<EdgeTableEntry>, changed: bool)
    requires forall k :: 0 <= k < |aet| ==> SMALL_COORDINATE <= aet[k].bres.minor_axis
    ensures Sorted(r) && multiset(r) == multiset(aet) && multiset(SegsOf(r)) == multiset(SegsOf(aet))
    ensures !changed ==> r == aet
  {
    r, changed := aet, false;
    var i := 0;
    while i < |r|
      invariant 0 <= i <= |r| == |aet| && SortedUpTo(r, i)
      invariant multiset(r) == multiset(aet) && multiset(SegsOf(r)) == multiset(SegsOf(aet))
      invariant !changed ==> r == aet
    {
      assert r[i] in multiset(aet);
      var chase := ChaseBack(r, i);
      MovedSorted(r, i, chase);
      MovedSegs(r, i, chase);
      if chase != i {
        r := MovedUp(r, i, chase);
        changed := true;
      }
      i := i + 1;
    }
  }
}
