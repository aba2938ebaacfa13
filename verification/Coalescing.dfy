/** miCoalesce: the in-place merge of a new band into the previous one. */
module Coalescing {
  import opened Boxes
  import opened Banding
  import opened Merging
  import opened Regions
  import opened BandOps

  /** The start of the last of several bands: step back while the tops agree. */
  method FindLastBand(boxes: seq<Box>, from: nat) returns (last: nat)
    requires 0 < from < |boxes| && boxes[from - 1].y1 != boxes[from].y1
    ensures BandAt(boxes, last, |boxes|)
  {
    last := |boxes| - 1;
    while boxes[last - 1].y1 == boxes[last].y1
      invariant from <= last < |boxes|
      invariant forall i :: last <= i < |boxes| ==> boxes[i].y1 == boxes[last].y1
      decreases last
    {
      last := last - 1;
    }
  }

  /** Whether two bands of `n` boxes have boxes in the same places. */
  method BandsMatch(boxes: seq<Box>, p: nat, c: nat, n: nat) returns (same: bool)
    requires p + n <= |boxes| && c + n <= |boxes|
    ensures same <==> SameColumns(boxes[p..p + n], boxes[c..c + n])
  {
    var i := 0;
    while i != n
      invariant 0 <= i <= n && SameColumns(boxes[p..p + i], boxes[c..c + i])
    {
      if boxes[p + i].x1 != boxes[c + i].x1 || boxes[p + i].x2 != boxes[c + i].x2 {
        assert boxes[p..p + n][i] == boxes[p + i] && boxes[c..c + n][i] == boxes[c + i];
        return false;
      }
      SameColumnsSnoc(boxes, p, p + i, c, c + i);
      i := i + 1;
    }
    return true;
  }

  /** The end of the band that starts at `r`. */
  method ScanBand(boxes: seq<Box>, r: nat) returns (bandEnd: nat)
    requires r < |boxes|
    ensures bandEnd == BandEnd(boxes, r)
  {
    bandEnd := r;
    while bandEnd != |boxes| && boxes[bandEnd].y1 == boxes[r].y1
      invariant r <= bandEnd <= |boxes|
      invariant RunEnd(boxes, bandEnd, boxes[r].y1) == BandEnd(boxes, r)
    {
      bandEnd := bandEnd + 1;
    }
  }

  /** miCoalesce: merge the band at `curStart` into the previous one, copying later bands down. */
  method Coalesce(reg: Region, prevStart: nat, curStart: nat) returns (start: nat)
    requires reg.Valid() && !reg.shared
    requires prevStart <= curStart < |reg.rects| && LastBand(reg.rects[..curStart], prevStart)
    modifies reg
    ensures reg.Valid() && !reg.shared && reg.size == old(reg.size) && reg.extents == old(reg.extents)
    ensures reg.rects == Coalesced(old(reg.rects), prevStart, curStart)
    ensures BandEnd(old(reg.rects), curStart) == |old(reg.rects)| ==>
              start == if Mergeable(old(reg.rects), prevStart, curStart, |old(reg.rects)|) then prevStart else curStart
  {
    var boxes := reg.rects;
    var prevNumRects := curStart - prevStart;
    var cur := ScanBand(boxes, curStart);
    var curNumRects := cur - curStart;
    start := curStart;
    if cur != |boxes| {
      start := FindLastBand(boxes, cur);
    }
    if curNumRects == prevNumRects && curNumRects != 0 && boxes[prevStart].y2 == boxes[curStart].y1 {
      var same := BandsMatch(boxes, prevStart, curStart, curNumRects);
      if same {
        ghost var w := SeamTargets(boxes, prevStart, curStart, curNumRects);
        start := MergeDown(reg, prevStart, curStart, curNumRects, start, w);
      }
    }
  }

  lemma SeamTargets(s: seq<Box>, p: nat, c: nat, n: nat) returns (w: seq<Box>)
    requires Mergeable(s, p, c, c + n) && BandAt(s[..c], p, c)
    ensures w == Merged(s, p, c, c + n) && |w| == |s| - n && p + n == c
    ensures forall k {:trigger w[k]} :: 0 <= k < |w| ==>
              w[k] == if k < p then s[k] else if k < c then s[k].(y2 := s[k + n].y2) else s[k + n]
  {
    w := Merged(s, p, c, c + n);
    assert forall k :: p <= k < c ==> s[..c][k] == s[k];
    forall k {:trigger w[k]} | 0 <= k < |w|
      ensures w[k] == if k < p then s[k] else if k < c then s[k].(y2 := s[k + n].y2) else s[k + n]
    {
      MergedAt(s, p, c, n, k);
    }
  }

  /** The merge itself: stretch the previous band, drop the current one and move up what follows. */
  method MergeDown(reg: Region, prevStart: nat, curStart: nat, n: nat, lastStart: nat, ghost w: seq<Box>)
    returns (start: nat)
    requires reg.Valid() && !reg.shared
    requires prevStart + n == curStart && curStart + n <= |reg.rects| && |w| == |reg.rects| - n
    requires forall k {:trigger w[k]} :: 0 <= k < |w| ==>
               w[k] == if k < prevStart then reg.rects[k]
                       else if k < curStart then reg.rects[k].(y2 := reg.rects[k + n].y2)
                       else reg.rects[k + n]
    modifies reg
    ensures reg.Valid() && !reg.shared && reg.size == old(reg.size) && reg.extents == old(reg.extents)
    ensures reg.rects == w
    ensures start == if curStart + n == |old(reg.rects)| then prevStart else lastStart
  {
    ghost var s := reg.rects;
    var regEnd := |reg.rects|;
    var prev, cur, left := prevStart, curStart, n;
    while left != 0
      invariant 0 <= left <= n && prev == curStart - left && cur == curStart + n - left
      invariant reg.Valid() && !reg.shared && reg.size == old(reg.size) && reg.extents == old(reg.extents)
      invariant |reg.rects| == regEnd && |w| == regEnd - n
      invariant forall k :: 0 <= k < prev ==> reg.rects[k] == w[k]
      invariant forall k :: prev <= k < regEnd ==> reg.rects[k] == s[k]
    {
      reg.WriteBox(prev, reg.rects[prev].(y2 := reg.rects[cur].y2));
      prev := prev + 1;
      cur := cur + 1;
      left := left - 1;
    }
    if cur == regEnd {
      start := prevStart;
    } else {
      start := lastStart;
      while cur != regEnd
        invariant curStart + n <= cur <= regEnd && prev == cur - n
        invariant reg.Valid() && !reg.shared && reg.size == old(reg.size) && reg.extents == old(reg.extents)
        invariant |reg.rects| == regEnd
        invariant forall k :: 0 <= k < prev ==> reg.rects[k] == w[k]
        invariant forall k :: prev <= k < regEnd ==> reg.rects[k] == s[k]
      {
        reg.WriteBox(prev, reg.rects[cur]);
        prev := prev + 1;
        cur := cur + 1;
      }
    }
    // The count was lowered by n; the boxes past it are no longer part of the region.
    reg.rects := reg.rects[..regEnd - n];
    assert reg.rects == w;
  }
}
