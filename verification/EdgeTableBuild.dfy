/** CreateETandAET: the edge table of a polygon, one sorted bucket of edges per starting scanline. */
module EdgeTableBuild {
  import opened Bresenham
  import opened Crossings
  import opened EdgeTables

  datatype ScanLineList = ScanLineList(scanline: int, edgelist: seq<EdgeTableEntry>)

  class EdgeTable {
    var ymax: int
    var ymin: int
    var scanlines: seq<ScanLineList>

    constructor ()
      ensures ymax == SMALL_COORDINATE && ymin == LARGE_COORDINATE && scanlines == []
    {
      ymax, ymin, scanlines := SMALL_COORDINATE, LARGE_COORDINATE, [];
    }
  }

  /** All entries start on the bucket's scanline, in the order of their starting columns. */
  ghost predicate BucketOk(b: ScanLineList) {
    && Distinct(b.edgelist)
    && (forall k :: 0 <= k < |b.edgelist| ==> b.edgelist[k].Made() && b.edgelist[k].seg.top.y == b.scanline)
    && (forall i, j :: 0 <= i < j < |b.edgelist| ==> b.edgelist[i].seg.top.x <= b.edgelist[j].seg.top.x)
  }

  ghost predicate TableOk(bs: seq<ScanLineList>) {
    && (forall i :: 0 <= i < |bs| ==> BucketOk(bs[i]))
    && (forall i, j :: 0 <= i < j < |bs| ==> bs[i].scanline < bs[j].scanline)
  }

  ghost predicate NoEmptyBucket(bs: seq<ScanLineList>) {
    forall i :: 0 <= i < |bs| ==> bs[i].edgelist != []
  }

  ghost function EntriesOf(bs: seq<ScanLineList>): set<EdgeTableEntry> {
    set i, k | 0 <= i < |bs| && 0 <= k < |bs[i].edgelist| :: bs[i].edgelist[k]
  }

  /** No entry has been stepped yet. */
  ghost predicate AtStart(es: seq<EdgeTableEntry>)
    reads es
  {
    forall k {:trigger es[k].bres} :: 0 <= k < |es| ==>
      es[k].bres == es[k].start && es[k].bres.minor_axis == es[k].seg.top.x
  }

  ghost predicate AllAtStart(bs: seq<ScanLineList>)
    reads EntriesOf(bs)
  {
    forall i :: 0 <= i < |bs| ==> AtStart(bs[i].edgelist)
  }

  /** How often a segment occurs in a list of entries. */
  ghost function Count(es: seq<EdgeTableEntry>, g: Segment): nat { multiset(SegsOf(es))[g] }

  ghost function SegCount(bs: seq<ScanLineList>, g: Segment): nat {
    if bs == [] then 0 else Count(bs[0].edgelist, g) + SegCount(bs[1..], g)
  }

  lemma {:induction false} CountReplaced(bs: seq<ScanLineList>, i: nat, b: ScanLineList, g: Segment)
    requires i < |bs|
    ensures SegCount(bs[i := b], g) + Count(bs[i].edgelist, g) == SegCount(bs, g) + Count(b.edgelist, g)
  {
    if i == 0 {
      assert bs[i := b][1..] == bs[1..];
    } else {
      CountReplaced(bs[1..], i - 1, b, g);
      assert bs[i := b][1..] == bs[1..][i - 1 := b];
    }
  }

  /** The bucket list with an empty bucket for a scanline that has none. */
  function WithBucket(bs: seq<ScanLineList>, i: nat, scanline: int): seq<ScanLineList>
    requires i <= |bs|
  {
    if i == |bs| || bs[i].scanline > scanline
    then bs[..i] + [ScanLineList(scanline, [])] + bs[i..]
    else bs
  }

  lemma {:induction false} WithBucketCount(bs: seq<ScanLineList>, i: nat, scanline: int, g: Segment)
    requires i <= |bs|
    ensures SegCount(WithBucket(bs, i, scanline), g) == SegCount(bs, g)
  {
    var r := WithBucket(bs, i, scanline);
    if i == 0 {
      assert r != bs ==> r[1..] == bs;
    } else {
      WithBucketCount(bs[1..], i - 1, scanline, g);
      assert r[1..] == WithBucket(bs[1..], i - 1, scanline);
    }
  }

  lemma WithBucketOk(bs: seq<ScanLineList>, i: nat, scanline: int)
    requires TableOk(bs) && i <= |bs|
    requires forall k :: 0 <= k < i ==> bs[k].scanline < scanline
    requires i < |bs| ==> bs[i].scanline >= scanline
    ensures TableOk(WithBucket(bs, i, scanline)) && WithBucket(bs, i, scanline)[i].scanline == scanline
  {
    var r := WithBucket(bs, i, scanline);
    if r != bs {
      assert BucketOk(r[i]);
      forall k | 0 <= k < |r| && k != i ensures r[k] == bs[if k < i then k else k - 1] {}
    }
  }

  lemma WithBucketEntries(bs: seq<ScanLineList>, i: nat, scanline: int)
    requires i <= |bs|
    ensures EntriesOf(WithBucket(bs, i, scanline)) == EntriesOf(bs)
  {
    var r := WithBucket(bs, i, scanline);
    if r != bs {
      forall k | 0 <= k < |r| && k != i ensures r[k] == bs[if k < i then k else k - 1] {}
      forall e | e in EntriesOf(bs) ensures e in EntriesOf(r) {
        var a, k :| 0 <= a < |bs| && 0 <= k < |bs[a].edgelist| && e == bs[a].edgelist[k];
        assert r[if a < i then a else a + 1].edgelist[k] == e;
      }
    }
  }

  /** Where in a bucket an entry goes: before the first one that does not start left of it. */
  method FindSlot(el: seq<EdgeTableEntry>, e: EdgeTableEntry) returns (p: nat)
    requires AtStart(el) && e.bres.minor_axis == e.seg.top.x
    ensures p <= |el| && (p < |el| ==> e.seg.top.x <= el[p].seg.top.x)
    ensures forall k :: 0 <= k < p ==> el[k].seg.top.x < e.seg.top.x
  {
    p := 0;
    while p < |el| && el[p].bres.minor_axis < e.bres.minor_axis
      invariant 0 <= p <= |el| && forall k :: 0 <= k < p ==> el[k].seg.top.x < e.seg.top.x
    {
      p := p + 1;
    }
  }

  lemma BucketInsert(b: ScanLineList, p: nat, e: EdgeTableEntry)
    requires BucketOk(b) && p <= |b.edgelist| && e !in b.edgelist
    requires e.Made() && e.seg.top.y == b.scanline
    requires forall k :: 0 <= k < p ==> b.edgelist[k].seg.top.x < e.seg.top.x
    requires p < |b.edgelist| ==> e.seg.top.x <= b.edgelist[p].seg.top.x
    ensures BucketOk(b.(edgelist := InsertAt(b.edgelist, p, e)))
  {
    var el, r := b.edgelist, InsertAt(b.edgelist, p, e);
    forall k | 0 <= k < |r| ensures r[k] == if k < p then el[k] else if k == p then e else el[k - 1] {}
    forall i, j | 0 <= i < j < |r| ensures Differ(r, i, j) && r[i].seg.top.x <= r[j].seg.top.x {
      var i', j' := if i < p then i else i - 1, if j < p then j else j - 1;
      if i != p && j != p { assert Differ(el, i', j'); }
    }
  }

  /** The table with an entry inserted into one bucket. */
  function TableWith(bs: seq<ScanLineList>, i: nat, p: nat, e: EdgeTableEntry): seq<ScanLineList>
    requires i < |bs| && p <= |bs[i].edgelist|
  {
    bs[i := bs[i].(edgelist := InsertAt(bs[i].edgelist, p, e))]
  }

  lemma TableWithOk(bs: seq<ScanLineList>, i: nat, p: nat, e: EdgeTableEntry)
    requires TableOk(bs) && i < |bs| && p <= |bs[i].edgelist| && BucketOk(TableWith(bs, i, p, e)[i])
    ensures TableOk(TableWith(bs, i, p, e))
  {
  }

  lemma InsertAtMembers(el: seq<EdgeTableEntry>, p: nat, e: EdgeTableEntry)
    requires p <= |el|
    ensures forall k :: 0 <= k < |el| ==> InsertAt(el, p, e)[if k < p then k else k + 1] == el[k]
    ensures forall k :: 0 <= k <= |el| ==>
              InsertAt(el, p, e)[k] == if k < p then el[k] else if k == p then e else el[k - 1]
  {
    var r := InsertAt(el, p, e);
    forall k | 0 <= k <= |el| ensures r[k] == if k < p then el[k] else if k == p then e else el[k - 1] {
      if k > p { assert r[k] == el[p..][k - 1 - p]; }
    }
  }

  lemma TableWithEntries(bs: seq<ScanLineList>, i: nat, p: nat, e: EdgeTableEntry)
    requires i < |bs| && p <= |bs[i].edgelist|
    ensures EntriesOf(TableWith(bs, i, p, e)) == EntriesOf(bs) + {e}
  {
    var r := TableWith(bs, i, p, e);
    InsertAtMembers(bs[i].edgelist, p, e);
    forall x | x in EntriesOf(bs) ensures x in EntriesOf(r) {
      var a, k :| 0 <= a < |bs| && 0 <= k < |bs[a].edgelist| && x == bs[a].edgelist[k];
      assert r[a].edgelist[if a == i && k >= p then k + 1 else k] == x;
    }
    assert r[i].edgelist[p] == e;
    forall x | x in EntriesOf(r) && x != e ensures x in EntriesOf(bs) {
      var a, k :| 0 <= a < |r| && 0 <= k < |r[a].edgelist| && x == r[a].edgelist[k];
      assert bs[a].edgelist[if a == i && k > p then k - 1 else k] == x;
    }
  }

  lemma TableWithCount(bs: seq<ScanLineList>, i: nat, p: nat, e: EdgeTableEntry, g: Segment)
    requires i < |bs| && p <= |bs[i].edgelist|
    ensures SegCount(TableWith(bs, i, p, e), g) == SegCount(bs, g) + if g == e.seg then 1 else 0
  {
    CountReplaced(bs, i, bs[i].(edgelist := InsertAt(bs[i].edgelist, p, e)), g);
    InsertedSegs(bs[i].edgelist, p, e);
  }

  /** The search of InsertEdgeInET for the bucket of a scanline. */
  method FindBucket(bs: seq<ScanLineList>, scanline: int) returns (i: nat)
    requires TableOk(bs)
    ensures i <= |bs| && (i < |bs| ==> bs[i].scanline >= scanline)
    ensures forall k :: 0 <= k < i ==> bs[k].scanline < scanline
  {
    i := 0;
    while i < |bs| && bs[i].scanline < scanline
      invariant 0 <= i <= |bs| && forall k :: 0 <= k < i ==> bs[k].scanline < scanline
    {
      i := i + 1;
    }
  }

  /** InsertEdgeInET: find or add the bucket, then the slot in it. */
  method InsertEdgeInET(et: EdgeTable, e: EdgeTableEntry, scanline: int)
    requires TableOk(et.scanlines) && AllAtStart(et.scanlines)
    requires e.Made() && e.seg.top.y == scanline && e !in EntriesOf(et.scanlines) && AtStart([e])
    modifies et
    ensures et.ymax == old(et.ymax) && et.ymin == old(et.ymin)
    ensures TableOk(et.scanlines) && EntriesOf(et.scanlines) == old(EntriesOf(et.scanlines)) + {e}
    ensures forall g :: SegCount(et.scanlines, g) == SegCount(old(et.scanlines), g) + if g == e.seg then 1 else 0
    ensures AllAtStart(et.scanlines)
    ensures old(NoEmptyBucket(et.scanlines)) ==> NoEmptyBucket(et.scanlines)
  {
    var bs := et.scanlines;
    var i := FindBucket(bs, scanline);
    var cs := WithBucket(bs, i, scanline);
    WithBucketOk(bs, i, scanline);
    WithBucketEntries(bs, i, scanline);
    WithBucketStart(bs, i, scanline);
    assert [e][0] == e;
    var p := FindSlot(cs[i].edgelist, e);
    BucketMember(cs, i, e);
    BucketInsert(cs[i], p, e);
    TableWithOk(cs, i, p, e);
    TableWithEntries(cs, i, p, e);
    forall g ensures SegCount(TableWith(cs, i, p, e), g) == SegCount(bs, g) + if g == e.seg then 1 else 0 {
      WithBucketCount(bs, i, scanline, g);
      TableWithCount(cs, i, p, e, g);
    }
    TableWithStart(cs, i, p, e);
    if NoEmptyBucket(bs) { FilledBuckets(bs, i, scanline, p, e); }
    et.scanlines := TableWith(cs, i, p, e);
  }

  lemma FilledBuckets(bs: seq<ScanLineList>, i: nat, scanline: int, p: nat, e: EdgeTableEntry)
    requires i <= |bs| && i < |WithBucket(bs, i, scanline)| && p <= |WithBucket(bs, i, scanline)[i].edgelist|
    requires NoEmptyBucket(bs)
    ensures NoEmptyBucket(TableWith(WithBucket(bs, i, scanline), i, p, e))
  {
    var cs := WithBucket(bs, i, scanline);
    forall k | 0 <= k < |cs| && k != i ensures cs[k].edgelist != [] {
      if cs != bs { assert cs[k] == bs[if k < i then k else k - 1]; }
    }
  }

  lemma BucketMember(bs: seq<ScanLineList>, i: nat, e: EdgeTableEntry)
    requires i < |bs| && e !in EntriesOf(bs)
    ensures e !in bs[i].edgelist
  {
  }

  lemma TableWithStart(bs: seq<ScanLineList>, i: nat, p: nat, e: EdgeTableEntry)
    requires i < |bs| && p <= |bs[i].edgelist| && AllAtStart(bs) && AtStart([e])
    ensures AllAtStart(TableWith(bs, i, p, e))
  {
    var r := TableWith(bs, i, p, e);
    assert [e][0].bres == e.bres;
    forall a | 0 <= a < |r| ensures AtStart(r[a].edgelist) {
      assert AtStart(bs[a].edgelist);
    }
  }

  lemma WithBucketStart(bs: seq<ScanLineList>, i: nat, scanline: int)
    requires i <= |bs| && AllAtStart(bs)
    ensures AllAtStart(WithBucket(bs, i, scanline))
  {
    var r := WithBucket(bs, i, scanline);
    if r != bs {
      forall k | 0 <= k < |r| ensures AtStart(r[k].edgelist) {
        if k < i { assert r[k] == bs[k]; } else if k > i { assert r[k] == bs[k - 1]; }
      }
    }
  }

  /** A vertex that is not followed by a slanted edge has its row repeated at the next vertex. */
  lemma {:induction false} LevelRun(pts: seq<Point>, i: nat, j: nat)
    requires i <= j < |pts|
    requires forall k :: i < k <= j ==> !Slanted(EdgeOf(pts, k))
    ensures pts[j].y == pts[i].y
    decreases j - i
  {
    if i < j {
      LevelRun(pts, i, j - 1);
      assert !Slanted(EdgeOf(pts, j));
    }
  }

  /** Every vertex row is the start row of some slanted edge, unless all edges are level. */
  lemma VertexStartsSlanted(pts: seq<Point>, i: nat) returns (k: nat)
    requires i < |pts| && exists j :: 0 <= j < |pts| && Slanted(EdgeOf(pts, j))
    ensures k < |pts| && Slanted(EdgeOf(pts, k)) && Prev(pts, k).y == pts[i].y
  {
    if exists j :: i < j < |pts| && Slanted(EdgeOf(pts, j)) {
      k := FirstSlanted(pts, i + 1);
      LevelRun(pts, i, k - 1);
    } else {
      LevelRun(pts, i, |pts| - 1);
      k := FirstSlanted(pts, 0);
      if k > 0 {
        assert !Slanted(EdgeOf(pts, 0));
        LevelRun(pts, 0, k - 1);
      }
    }
  }

  lemma FirstSlanted(pts: seq<Point>, i: nat) returns (k: nat)
    requires exists j :: i <= j < |pts| && Slanted(EdgeOf(pts, j))
    ensures i <= k < |pts| && Slanted(EdgeOf(pts, k))
    ensures forall j :: i <= j < k ==> !Slanted(EdgeOf(pts, j))
    decreases |pts| - i
  {
    if Slanted(EdgeOf(pts, i)) { k := i; } else { k := FirstSlanted(pts, i + 1); }
  }

  /** Every slanted edge lies between the rows lo and hi. */
  ghost predicate WithinRows(pts: seq<Point>, lo: int, hi: int) {
    forall k :: 0 <= k < |pts| && Slanted(EdgeOf(pts, k)) ==>
      lo <= EdgeOf(pts, k).top.y && EdgeOf(pts, k).bottom.y <= hi
  }

  ghost predicate StartsWithin(pts: seq<Point>, n: nat, lo: int, hi: int) {
    n <= |pts| && forall k :: 0 <= k < n && Slanted(EdgeOf(pts, k)) ==> lo <= Prev(pts, k).y <= hi
  }

  lemma StartsNext(pts: seq<Point>, n: nat, lo: int, hi: int, lo': int, hi': int)
    requires n < |pts| && StartsWithin(pts, n, lo, hi) && lo' <= lo && hi <= hi'
    requires Slanted(EdgeOf(pts, n)) ==> lo' <= Prev(pts, n).y <= hi'
    ensures StartsWithin(pts, n + 1, lo', hi')
  {
  }

  /** Bounding the vertices at which slanted edges start bounds all slanted edges. */
  lemma StartsBoundEdges(pts: seq<Point>, lo: int, hi: int)
    requires StartsWithin(pts, |pts|, lo, hi)
    ensures WithinRows(pts, lo, hi)
  {
    forall i | 0 <= i < |pts| && Slanted(EdgeOf(pts, i))
      ensures lo <= EdgeOf(pts, i).top.y && EdgeOf(pts, i).bottom.y <= hi
    {
      var k := VertexStartsSlanted(pts, i);
    }
  }

  /** The edges of the first n vertices, level ones left out, are what the table holds. */
  ghost predicate Holds(bs: seq<ScanLineList>, pts: seq<Point>, n: nat) {
    n <= |pts| && forall g ::
      SegCount(bs, g) == if Slanted(g) then multiset(Segments(pts)[..n])[g] else 0
  }

  lemma HoldsNext(bs: seq<ScanLineList>, cs: seq<ScanLineList>, pts: seq<Point>, n: nat)
    requires Holds(bs, pts, n) && n < |pts|
    requires forall g :: SegCount(cs, g) == SegCount(bs, g) + if g == EdgeOf(pts, n) && Slanted(g) then 1 else 0
    ensures Holds(cs, pts, n + 1)
  {
    var gs := Segments(pts);
    assert gs[..n + 1] == gs[..n] + [gs[n]];
  }

  /** A new entry for an edge, put into the table. */
  method InsertNewEdge(et: EdgeTable, top: Point, bottom: Point, clockWise: bool)
    returns (ghost added: set<EdgeTableEntry>)
    requires TableOk(et.scanlines) && AllAtStart(et.scanlines) && top.y < bottom.y
    modifies et
    ensures TableOk(et.scanlines) && AllAtStart(et.scanlines)
    ensures et.ymax == old(et.ymax) && et.ymin == old(et.ymin)
    ensures old(NoEmptyBucket(et.scanlines)) ==> NoEmptyBucket(et.scanlines)
    ensures fresh(added) && EntriesOf(et.scanlines) == old(EntriesOf(et.scanlines)) + added
    ensures forall h :: SegCount(et.scanlines, h) ==
                        SegCount(old(et.scanlines), h) + if h == Segment(top, bottom, clockWise) then 1 else 0
  {
    ghost var entries := EntriesOf(et.scanlines);
    var e := new EdgeTableEntry(top, bottom, clockWise);
    assert e !in entries;
    added := {e};
    InsertEdgeInET(et, e, top.y);
  }

  /** One edge of the polygon: entered unless it is level. */
  method EnterEdge(et: EdgeTable, prevPt: Point, currPt: Point) returns (ghost added: set<EdgeTableEntry>)
    requires TableOk(et.scanlines) && AllAtStart(et.scanlines)
    modifies et
    ensures TableOk(et.scanlines) && AllAtStart(et.scanlines)
    ensures old(NoEmptyBucket(et.scanlines)) ==> NoEmptyBucket(et.scanlines)
    ensures fresh(added) && EntriesOf(et.scanlines) == old(EntriesOf(et.scanlines)) + added
    ensures var g := if prevPt.y > currPt.y then Segment(currPt, prevPt, false) else Segment(prevPt, currPt, true);
            && (forall h :: SegCount(et.scanlines, h) ==
                            SegCount(old(et.scanlines), h) + if h == g && Slanted(h) then 1 else 0)
            && et.ymax == (if Slanted(g) && prevPt.y > old(et.ymax) then prevPt.y else old(et.ymax))
            && et.ymin == (if Slanted(g) && prevPt.y < old(et.ymin) then prevPt.y else old(et.ymin))
  {
    var top, bottom, clockWise := prevPt, currPt, true;
    if prevPt.y > currPt.y {
      bottom, top, clockWise := prevPt, currPt, false;
    }
    added := {};
    if bottom.y != top.y {
      added := InsertNewEdge(et, top, bottom, clockWise);
      if prevPt.y > et.ymax { et.ymax := prevPt.y; }
      if prevPt.y < et.ymin { et.ymin := prevPt.y; }
    }
  }

  /** The state of the table after the first n edges. */
  ghost predicate Building(et: EdgeTable, pts: seq<Point>, n: nat)
    reads et, EntriesOf(et.scanlines)
  {
    && TableOk(et.scanlines) && AllAtStart(et.scanlines) && Holds(et.scanlines, pts, n)
    && StartsWithin(pts, n, et.ymin, et.ymax) && NoEmptyBucket(et.scanlines)
  }

  method NextEdge(et: EdgeTable, pts: seq<Point>, prevPt: Point, i: nat, ghost entries: set<EdgeTableEntry>)
    returns (ghost entries': set<EdgeTableEntry>)
    requires i < |pts| && prevPt == Prev(pts, i) && Building(et, pts, i) && entries == EntriesOf(et.scanlines)
    modifies et
    ensures Building(et, pts, i + 1) && entries' == EntriesOf(et.scanlines)
    ensures forall e :: e in entries' ==> e in entries || fresh(e)
  {
    ghost var before, lo, hi := et.scanlines, et.ymin, et.ymax;
    ghost var added := EnterEdge(et, prevPt, pts[i]);
    entries' := entries + added;
    HoldsNext(before, et.scanlines, pts, i);
    StartsNext(pts, i, lo, hi, et.ymin, et.ymax);
  }

  lemma EmptyHolds(pts: seq<Point>)
    ensures Holds([], pts, 0)
  {
    assert Segments(pts)[..0] == [];
  }

  method NewTable(ghost pts: seq<Point>) returns (et: EdgeTable)
    ensures fresh(et) && Building(et, pts, 0) && EntriesOf(et.scanlines) == {}
  {
    et := new EdgeTable();
    EmptyHolds(pts);
  }

  /** Enter the edges of all vertices, each from the vertex before it. */
  method EnterEdges(et: EdgeTable, pts: seq<Point>) returns (ghost entries: set<EdgeTableEntry>)
    requires |pts| >= 2 && Building(et, pts, 0) && EntriesOf(et.scanlines) == {}
    modifies et
    ensures Building(et, pts, |pts|) && fresh(entries) && entries == EntriesOf(et.scanlines)
  {
    entries := EntriesOf(et.scanlines);
    var i, prevPt := 0, Prev(pts, 0);
    while i < |pts|
      invariant 0 <= i <= |pts| && prevPt == Prev(pts, i)
      invariant Building(et, pts, i) && entries == EntriesOf(et.scanlines)
      invariant forall e :: e in entries ==> fresh(e)
    {
      entries := NextEdge(et, pts, prevPt, i, entries);
      prevPt := pts[i];
      i := i + 1;
    }
  }

  /** CreateETandAET: enter every edge that is not level, and track the rows at which edges start. */
  method CreateETandAET(pts: seq<Point>) returns (et: EdgeTable)
    requires |pts| >= 2
    ensures fresh(et) && fresh(EntriesOf(et.scanlines))
    ensures Building(et, pts, |pts|) && WithinRows(pts, et.ymin, et.ymax)
  {
    et := NewTable(pts);
    ghost var entries := EnterEdges(et, pts);
    StartsBoundEdges(pts, et.ymin, et.ymax);
  }
}
