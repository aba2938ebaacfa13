# Verified model of the chart plug-in's geometry, cache and header codec

The plug-in draws electronic charts. Its hardest code is geometry on integer regions, and a model of
that code is the centre of this project. Smaller pieces of the plug-in are modelled beside it.

**Regions** (`src/OCPNRegion.cpp`). A region is a growing array of half-open boxes in y-x-banded form,
with the bounding box of its points. The model keeps the record as a class whose methods change it in
place, down to the detail that a region of at most one box stores it in the extents record. The meaning
of a region is the set of integer points in its boxes. `Region.Usable` is the invariant every operation
asks for and keeps: storage is consistent, the boxes are banded, and the extents are exact when there is
any box. `Region.Good` adds the canonical form, in which boxes of a band never touch and bands with the
same columns never do; every operation keeps that too, but the region of a polygon need not start with it.

- `Boxes`, `Banding`: boxes, bands, the canonical form and its uniqueness.
- `Merging`, `Coalescing`: what merging a band does to the form and the points, and the in-place merge.
- `Regions`, `BandOps`, `Sweep`, `Algebra`: the record, the band functions, the sweep over two regions,
  and the public operations and queries.
- `RectIn`, `Shrink`: the three-way rectangle test and the erosion and dilation in logarithmically many steps.
- `Scripts`: whole runs of operations, polygons included, against set algebra, and equality of two results.
- `Bresenham`, `Crossings`, `EdgeTables`, `EdgeTableBuild`, `Scanlines`, `PointsToRegion`, `Polygon`: the
  scan converter, from integer edge stepping to the region of a polygon under both fill rules.
- `PolygonMeaning`: the fill rules again in plain coordinates, from rational crossings, and a pixel of a polygon.
- `PairForm`, `PolygonWitnesses`: exactly when the region of a polygon is canonical, two small polygons for which
  it is not, so that comparison and the rectangle test do not answer what they are meant to, and all rectangles.
- `ViewRegions` (`src/viewport.cpp`): the outlines and holes of a chart's coverage, filled, cut to the view
  and put together, the one place where scan conversion and the operations meet.
- `Geometry`: rectangles, positions and a few small functions shared by all parts.

**Line clipping, polyline simplification and check value** (`src/cutil.cpp`): `LineClip`,
`DouglasPeucker`, `Crc`. Clipping and simplification are over exact reals; the check value is on 32-bit
words and compared with the bit-serial definition in section 8 of RFC 1952.

**The panned pixel cache** (`src/chart.cpp`): `Pan`. What the cache shows after any call, and exactly when
that equals a full redraw.

**The SENC header codec** (`src/Osenc.cpp`): `SencFormat` is the record format and its meaning,
`SencReading` what any stream of bytes is read as and that written records come back, `SencFile` the
writer with its persistent buffer and the reader with its stream, `SencCell` the header of a whole cell from
writer to reader. `SencBytes` says in numerals what the bytes of each record are, and `SencIngest` what the
reader makes of such bytes: which field each fills and with which code it ends.

Where the code asks something of its callers it is a precondition. Intersection, subtraction and
symmetric difference need two different regions: the sweep empties the destination before it sizes the
new box array. The polygon converter needs at least two points and coordinates within the bounds
of its own sentinels. Clipping needs a window whose sides are not swapped, simplification an epsilon that
is not negative. Where code and comment differ the code is followed: `gdk_region_shrink` turns a
negative distance into growth for each axis by itself, so one call may shrink rows and grow columns; the
merge routine's returned position is only right when a single band was appended, so nothing is claimed of
it otherwise (the one caller that appends several bands ignores it); region comparison is documented to
compare areas (`src/OCPNRegion.h:102`) and compares boxes; and the reuse of the pixel cache does not look at
the sampler, the comparison being commented out (`src/chart.cpp:2652`).

## Model

| member | source | states |
|---|---|---|
| `Boxes.SpreadUnique` | src/OCPNRegion.cpp:1024-1026 | Two rows of boxes that never touch cover the same columns only if they have the same columns box for box. |
| `Banding.CanonicalUnique` | src/OCPNRegion.cpp:1009-1032 | The y-x-banded form is unique: two canonical box lists cover the same points exactly when they are the same list. |
| `Banding.SuffixForm` | src/OCPNRegion.cpp:1009-1032 | What follows a whole number of bands keeps its form, banded or canonical: the step of the uniqueness induction. |
| `Banding.PrefixForm` | src/OCPNRegion.cpp:1009-1032 | Cutting a list at the start of a band keeps its form. |
| `Merging.JoinCanonical` | src/OCPNRegion.cpp:1028-1032 | Two canonical lists stacked above each other are canonical together when their seam bands cannot be merged. |
| `Merging.CoalescedPoints` | src/OCPNRegion.cpp:1580-1724 | Merging the band at a seam never changes the covered points. |
| `Merging.CoalescedForm` | src/OCPNRegion.cpp:1580-1724 | Merging at the seam of two stacked lists leaves a banded list, and a canonical one when both were, also when several bands were appended. |
| `Merging.CoalescedLastBand` | src/OCPNRegion.cpp:1698-1711 | After one band was appended, the position reported is the start of the last band of the merged list. |
| `Regions.Region.constructor` | src/OCPNRegion.cpp:1070-1086 | A new region is empty and keeps its boxes in the extents record. |
| `Regions.Region.FromRectangle` | src/OCPNRegion.cpp:1096-1117 | The region of a rectangle is canonical with exact extents, and covers a point exactly when x <= px < x + width and y <= py < y + height; without area it is empty. |
| `Regions.Region.WriteBox` | src/OCPNRegion.cpp:1106-1114 | A write to the only box of a region whose storage is the extents record is a write to the extents. |
| `Regions.Grow` | src/OCPNRegion.cpp:156-170 | Growing keeps the boxes and the extents and sets capacity and shared storage. |
| `Regions.Append` | src/OCPNRegion.cpp:175-180 | A box is added behind the others; when no more than one slot is left the capacity is doubled first, so it never overflows. |
| `Regions.Copy` | src/OCPNRegion.cpp:1556-1577 | The target gets the same boxes and exact extents, growing when too small; copying onto itself changes nothing. |
| `Regions.SetExtents` | src/OCPNRegion.cpp:1244-1288 | From the boxes of a banded list it finds the exact bounding box of the points: every point inside, every side met. |
| `Regions.Offset` | src/OCPNRegion.cpp:1315-1343 | Every box moves by the offset, the extents with them, once only when the two share storage; usable regions stay usable and canonical ones canonical. |
| `Regions.ShiftedExact` | src/OCPNRegion.cpp:1315-1343 | Translation keeps banded lists banded, canonical ones canonical, and exact extents exact. |
| `Regions.ShiftedPoints` | src/OCPNRegion.cpp:1330-1335 | A point is covered after the move exactly when the point moved back was covered before. |
| `Regions.BoundsUnique` | src/OCPNRegion.cpp:1244-1288 | Lists with the same points have the same exact bounds. |
| `BandOps.CopyBand` | src/OCPNRegion.cpp:2035-2062 | Appends one band with the same columns between the given rows and leaves the earlier boxes alone; miSubtractNonO1 (2231-2259) is the same code. |
| `BandOps.IntersectO` | src/OCPNRegion.cpp:1461-1521 | Appends one band whose columns are exactly those in both operand bands, with no boxes that touch when neither operand has any. |
| `BandOps.MergeRect` | src/OCPNRegion.cpp:2095-2118 | Adding a box extends the last box when they touch or overlap, so the columns grow by exactly the box and boxes never touch. |
| `BandOps.UnionO` | src/OCPNRegion.cpp:2082-2144 | Appends one band whose columns are exactly those in either operand band, and no two of whose boxes touch, whatever the operands. |
| `BandOps.PassSubtrahend` | src/OCPNRegion.cpp:2296-2315 | After the fence moves past a subtrahend box exactly one operand advances, and what was kept and what remains still make up the difference. |
| `BandOps.SubtractO` | src/OCPNRegion.cpp:2276-2399 | Appends one band whose columns are exactly those of the first band that are not in the second, with no boxes that touch when neither operand has any. |
| `Coalescing.FindLastBand` | src/OCPNRegion.cpp:1634-1649 | Walking back from the end finds the start of the last band of those appended. |
| `Coalescing.ScanBand` | src/OCPNRegion.cpp:1620-1632 | Scanning forward finds where the first appended band ends. |
| `Coalescing.BandsMatch` | src/OCPNRegion.cpp:1659-1678 | The box by box comparison says whether the two bands have the same columns. |
| `Coalescing.MergeDown` | src/OCPNRegion.cpp:1680-1723 | Stretching the previous band and copying the later boxes down in place gives exactly the merged list, and the right band is reported. |
| `Coalescing.Coalesce` | src/OCPNRegion.cpp:1601-1724 | The in-place merge turns the boxes into exactly the merged list, and with one appended band returns where the last band starts. |
| `Sweep.CallOverlap` | src/OCPNRegion.cpp:1910-1920 | Whichever overlap function is used, the band it appends is the boolean operation on the columns. |
| `Sweep.Settle` | src/OCPNRegion.cpp:1899-1925 | After each step the new band is merged if it can be and the start of the last band is tracked. |
| `Sweep.SettledForm` | src/OCPNRegion.cpp:1899-1925 | Stacking a fresh band on the swept part and merging at the seam keeps it banded, or canonical. |
| `Sweep.SweepSteps` | src/OCPNRegion.cpp:1839-1939 | One round moves the line from one row to the next for both operands and leaves every row above it visited once. |
| `Sweep.NonOverlapPart` | src/OCPNRegion.cpp:1862-1908 | Rows where only one operand has a band get that operand alone, or nothing, as the operation says. |
| `Sweep.OverlapPart` | src/OCPNRegion.cpp:1910-1925 | Rows where both operands have a band get the operation of the two bands. |
| `Sweep.RestPart` | src/OCPNRegion.cpp:1941-1980 | When one operand is used up the rest of the other is added or dropped, and the whole result is exact and keeps the form. |
| `Sweep.CopyRest` | src/OCPNRegion.cpp:1945-1975 | The remaining bands are copied one by one, the first one cut at the line already swept. |
| `Sweep.Trim` | src/OCPNRegion.cpp:1982-2008 | Storage is given back when less than half is used; boxes and extents stay, and only an emptied region returns to sharing its extents. |
| `Sweep.RegionOp` | src/OCPNRegion.cpp:1753-2012 | For any boolean operation computed by the band functions, on any operands that are banded with exact extents, the sweep computes it on the whole point sets and leaves a banded list, canonical when both operands are; the destination may be the first operand. |
| `Algebra.UnionBounds` | src/OCPNRegion.cpp:2200-2208 | The hull of the exact bounds of two sets is the exact bound of their union. |
| `Algebra.Union` | src/OCPNRegion.cpp:2155-2209 | Exactly the union, with exact extents, through all four shortcuts and the sweep, also for a region with itself; canonical when both operands are. |
| `Algebra.SetHull` | src/OCPNRegion.cpp:2204-2208 | Growing the four extents in turn makes them the exact bounds of the union. |
| `Algebra.UnionWithRect` | src/OCPNRegion.cpp:1206-1227 | Adds exactly the points with x <= px < x + width and y <= py < y + height; without area that is nothing; a canonical region stays canonical. |
| `Algebra.Intersect` | src/OCPNRegion.cpp:1532-1554 | Exactly the intersection of two distinct regions, with extents recomputed exactly; canonical when both operands are. |
| `Algebra.Subtract` | src/OCPNRegion.cpp:2416-2438 | Exactly the difference of two distinct regions, with extents recomputed exactly; canonical when both operands are. |
| `Algebra.Xor` | src/OCPNRegion.cpp:2449-2466 | Exactly the points in one but not both of two distinct regions, with exact extents; canonical when both operands are. |
| `Algebra.Equal` | src/OCPNRegion.cpp:2496-2520 | Comparing counts, extents and boxes returns true exactly when the box lists are the same, and so for canonical regions exactly when the two cover the same points. |
| `Algebra.PointIn` | src/OCPNRegion.cpp:2532-2552 | True exactly when the point is covered, for any boxes with exact extents, the look at the extents included. |
| `RectIn.Classify` | src/OCPNRegion.cpp:2565-2653 | For a rectangle with area, in its coordinates: OUT exactly when no point of it is covered; IN exactly when on every row one box starts at or left of it and ends at or right of it; IN means that every point is covered, and where boxes never touch the converse holds; PART otherwise. |
| `RectIn.SpannedIsAllInside` | src/OCPNRegion.cpp:2584-2640 | Where no two boxes of a band touch, boxes that reach across every row is the same as every point covered. |
| `RectIn.ScanEnds` | src/OCPNRegion.cpp:2594-2652 | When the boxes are used up without an early exit, the flag for a part inside tells PART from OUT. |
| `Shrink.SpanSplit` | src/OCPNRegion.cpp:1354-1363 | A run of n + k further points is a run of k - 1 together with a run of n that starts k points later, for both quantifiers. |
| `Shrink.AddRuns` | src/OCPNRegion.cpp:1383-1389 | Shifting back and combining adds the run lengths that two regions stand for. |
| `Shrink.TestBit` | src/OCPNRegion.cpp:1383-1383 | The bit test on the remaining distance says whether the current power of two is part of it. |
| `Shrink.Compress` | src/OCPNRegion.cpp:1345-1395 | A point is in the result exactly when some (grow) or every (shrink) one of the next `distance` points on the line was in the region; two to the number of steps is at most twice the distance. |
| `Shrink.ShrinkBy` | src/OCPNRegion.cpp:1403-1441 | With two distances that are not negative a point stays exactly when all points up to dx columns and dy rows away were in; with none positive a point is in exactly when some such point was; one of each shrinks one axis and grows the other. A canonical region stays canonical. |
| `Scripts.Execute` | src/OCPNRegion.cpp:1096-2466 | Each public operation, polygons included, leaves its region usable, and canonical when the store is and it outlines no polygon, with the area that set algebra gives. |
| `Scripts.Run` | src/OCPNRegion.cpp:1009-2466 | Every run of any list of operations on distinct regions keeps all regions usable, canonical ones canonical unless polygons are outlined, and leaves in each the area of the set expression. |
| `Scripts.RunBoth` | src/OCPNRegion.cpp:2496-2520 | After any two runs, on two stores, equal boxes mean equal set expressions, and without polygons comparing box by box decides whether they are equal. |
| `Scripts.CheckLaw` | src/OCPNRegion.cpp:1403-2466 | Symmetric difference against subtractions and a union, intersection against two subtractions, a region against its union with its opening and its meet with its closing: run both ways, the results compare equal. |
| `Bresenham.SteppingIsExact` | src/OCPNRegion.cpp:192-256 | After k steps the column is x1 + ceil(k dx / dy), for every k, positive dy and either sign of dx. |
| `Bresenham.StepExact` | src/OCPNRegion.cpp:236-256 | One step keeps the column the rounded-up crossing and the decision value in agreement with it. |
| `Bresenham.CrossXBetween` | src/OCPNRegion.cpp:210-256 | On the rows of an edge the column stays between the two ends. |
| `EdgeTables.EdgeTableEntry.constructor` | src/OCPNRegion.cpp:2994-3021 | An entry stands for its edge: last row, direction and a stepping record that follows the exact crossings. |
| `EdgeTables.EdgeTableEntry.Step` | src/OCPNRegion.cpp:236-256 | The statements of the increment macro compute one step. |
| `EdgeTables.LoadAET` | src/OCPNRegion.cpp:3059-3085 | Merging a sorted bucket into the sorted active list keeps it sorted and loses no entry. |
| `EdgeTables.ChaseBack` | src/OCPNRegion.cpp:3156-3159 | Walking back stops at the right place and never walks past the header entry. |
| `EdgeTables.InsertionSort` | src/OCPNRegion.cpp:3145-3176 | The list becomes sorted, holds the same entries, and is unchanged when no change is reported. |
| `EdgeTableBuild.InsertEdgeInET` | src/OCPNRegion.cpp:2891-2944 | The entry goes into the bucket of its scanline, in column order; buckets stay sorted and nothing else changes. |
| `EdgeTableBuild.StartsBoundEdges` | src/OCPNRegion.cpp:3022-3027 | Tracking only the rows at which edges start bounds all rows of the closed polygon. |
| `EdgeTableBuild.EnterEdge` | src/OCPNRegion.cpp:2996-3030 | An edge is entered, with its ends in vertical order, unless it is level; the row limits follow. |
| `EdgeTableBuild.CreateETandAET` | src/OCPNRegion.cpp:2968-3035 | The table holds every slanted edge of the polygon exactly as often as the polygon has it, and the limits enclose all rows. |
| `Scanlines.ComputeWAET` | src/OCPNRegion.cpp:3107-3134 | The winding links visit exactly the entries at which the running direction sum becomes or stops being zero. |
| `Scanlines.EvaluateEdge` | src/OCPNRegion.cpp:335-370 | An edge on its last row leaves the list, any other is stepped down one row. |
| `Scanlines.RowEvenOdd` | src/OCPNRegion.cpp:3346-3369 | One scanline emits the column of every active edge, drops those that end and steps the rest. |
| `Scanlines.RowWinding` | src/OCPNRegion.cpp:3387-3417 | One scanline emits the columns of exactly the linked edges, and reports when an edge left. |
| `Crossings.ClosedCrossings` | src/OCPNRegion.cpp:2958-3035 | Around a closed polygon the edges that cross a row sum to zero in direction. |
| `Crossings.CrossParity` | src/OCPNRegion.cpp:3337-3371 | Every scanline meets an even number of edges. |
| `Crossings.PairsAreOdd` | src/OCPNRegion.cpp:3352-3369 | Between the columns of a pair exactly the points with an odd number of crossings at or left of them lie. |
| `Crossings.TogglesCount` | src/OCPNRegion.cpp:3107-3134 | Between the columns of a pair of linked edges exactly the points with non-zero direction sum lie. |
| `PointsToRegion.ConvertPair` | src/OCPNRegion.cpp:3231-3249 | One pair of points is skipped when empty, merged downwards into a box with the same columns, or made a new box, keeping points and bounds. |
| `PointsToRegion.PtsToRegion` | src/OCPNRegion.cpp:3202-3265 | The boxes are those of the pairs block by block; they cover exactly the paired points, stay sorted and disjoint, and the extents are their exact bounds. |
| `PairForm.SeparateGaps` | src/OCPNRegion.cpp:3231-3249 | Boxes of a row touch whenever a pair with columns begins where an earlier one of its row ends. |
| `PairForm.UnmergedByRows` | src/OCPNRegion.cpp:1028-1032 | Among boxes that never touch, no two bands are mergeable exactly when no box starts on a row with the same columns as the row above. |
| `PairForm.MergedIsAlone` | src/OCPNRegion.cpp:3234-3240 | A pair is merged only when it is the only one of its row with columns and a pair of a later row is next in its block. |
| `PairForm.AloneMerges` | src/OCPNRegion.cpp:3234-3240 | Such a pair is merged when the row above has the same columns. |
| `PairForm.CanonicalIffTidy` | src/OCPNRegion.cpp:3202-3265 | The exact condition: the output is canonical just when pairs of a row keep gaps, and every pair whose row repeats the row above is alone in its row and followed in its block by a pair of a later row. |
| `Polygon.RowInside` | src/OCPNRegion.cpp:3337-3371 | On one row the emitted pairs enclose exactly the points inside by the fill rule. |
| `Polygon.LoadRow` | src/OCPNRegion.cpp:3342-3345 | When the next bucket is due it is loaded, and then exactly the edges that cross the row are active. |
| `Polygon.FillRowEvenOdd` | src/OCPNRegion.cpp:3346-3370 | One even-odd scanline extends the filled rows by one and leaves the active list ready for the next. |
| `Polygon.FillRowWinding` | src/OCPNRegion.cpp:3387-3426 | One winding scanline extends the filled rows by one and leaves the links valid for the next. |
| `Polygon.OutsideRows` | src/OCPNRegion.cpp:3337-3337 | Rows outside the limits hold no point of the polygon under either rule. |
| `Polygon.RectangleInside` | src/OCPNRegion.cpp:3303-3324 | For a four-cornered axis-parallel polygon both fill rules give the box of its corners. |
| `Polygon.Fill` | src/OCPNRegion.cpp:3326-3428 | The point list is the crossings row by row, in column order, as the rule selects them, and pairs up exactly the points inside the polygon. |
| `Polygon.RegionPolygon` | src/OCPNRegion.cpp:3279-3438 | A point is in the region exactly when it is inside by the even-odd or the winding rule over rounded-up crossings; the region is usable by every operation, and canonical exactly when its pair list is tidy. |
| `PolygonWitnesses.CompareBars` | src/OCPNRegion.h:102-103 | IsEqual is promised to compare areas, and does not on polygons: a bar of five vertices compares unequal to the rectangle it covers. |
| `PolygonWitnesses.ClassifySpike` | src/OCPNRegion.cpp:2584-2640 | A polygon of two touching squares covers a rectangle of which rect_in says that it is inside only in part. |
| `PolygonWitnesses.CompareCorners` | src/OCPNRegion.cpp:3303-3324 | Every rectangle with area, drawn as a polygon from its four corners under either rule, compares equal to the region made from that rectangle. |
| `PolygonMeaning.LeftOfMeans` | src/OCPNRegion.cpp:192-256 | The rounded-up column of an edge is at or left of x exactly when the rational crossing is: a comparison of two products. |
| `PolygonMeaning.InsideMeans` | src/OCPNRegion.cpp:3337-3417 | The fill rules in plain coordinates: with the sets of edges that run down and up past the row and whose exact crossing is not right of the point, even-odd is an odd number of both together and winding is unequal numbers. |
| `PolygonMeaning.PixelOfPolygon` | src/OCPNRegion.cpp:2532-2552 | Scan converting any polygon and asking for any pixel answers by those two sets, without columns, boxes or stepping in the statement. |
| `ViewRegions.PolygonWithin` | src/viewport.cpp:726-731 | Filling a polygon and intersecting gives exactly the points inside the polygon and in the region. |
| `ViewRegions.FindPlace` | src/viewport.cpp:401-407 | A contour goes behind all that reach at least as far north and before the next. |
| `ViewRegions.DrawContours` | src/viewport.cpp:372-408 | The list holds every contour once, filled and cut to the region, north to south and in the order given among equals. |
| `ViewRegions.CombineContours` | src/viewport.cpp:411-420 | Adding and taking away in order leaves the points for which the last contour of the list around them is not a hole. |
| `ViewRegions.RegionOfContours` | src/viewport.cpp:367-424 | A point of the region is in the result exactly when, of the contours around it, the one reaching least far north, and the latest of those, is not a hole. |
| `LineClip.CompOutCode` | src/cutil.cpp:258-270 | A bit for every side of the window the point lies beyond, at most two, none exactly inside. |
| `LineClip.CutLevel` | src/cutil.cpp:312-319 | The formula for the top and bottom lines gives the point of the segment on that line, with no division by zero. |
| `LineClip.CutUpright` | src/cutil.cpp:320-327 | The formula for the right and left lines does the same. |
| `LineClip.Intersection` | src/cutil.cpp:311-328 | The side taken is the first the end lies beyond, and the result is where the segment crosses it. |
| `LineClip.CutPart` | src/cutil.cpp:313-338 | Cutting at a side that separates the two ends loses nothing that is in the window. |
| `LineClip.FewerBits` | src/cutil.cpp:329-338 | A cut end has fewer bits than before, unless the segment is then rejected. |
| `LineClip.CutEnd` | src/cutil.cpp:297-338 | One pass keeps everything of the segment that is in the window and lowers the number of passes that may follow. |
| `LineClip.Clip` | src/cutil.cpp:273-343 | At most four intersections; Invisible exactly when no a + t (b - a) with t from 0 to 1 lies between the four sides, otherwise the ends are those of exactly the part that does. |
| `DouglasPeucker.PerpendicularDistance` | src/cutil.cpp:441-464 | The value is dx dx + dy dy for the two coordinate differences from the point to the foot of its perpendicular clamped to the segment, also for a segment of one point. |
| `DouglasPeucker.NearestIsNearest` | src/cutil.cpp:441-464 | That distance is the least one to any point of the segment. |
| `DouglasPeucker.NoneIsNearer` | src/cutil.cpp:441-464 | In coordinates: every point of the segment is at least that far, by the sum of the squares of its two coordinate differences. |
| `DouglasPeucker.FindFarthest` | src/cutil.cpp:468-487 | The search finds the first of the farthest vertices and its distance. |
| `DouglasPeucker.DouglasPeucker` | src/cutil.cpp:466-497 | Ends, and pushes exactly the kept indices, in order, behind what the vector held. |
| `DouglasPeucker.KeptDistinct` | src/cutil.cpp:488-496 | Kept indices lie strictly between the ends and none is pushed twice. |
| `DouglasPeucker.DroppedAreClose` | src/cutil.cpp:466-497 | Every dropped vertex is within epsilon of the chord of its two neighbours that remain. |
| `DouglasPeucker.KeptIsNeeded` | src/cutil.cpp:488-496 | Every kept vertex was farther than epsilon from the chord of two vertices that also remain. |
| `DouglasPeucker.NothingKept` | src/cutil.cpp:488-490 | Nothing is kept exactly when all vertices are within epsilon of the chord of the ends. |
| `DouglasPeucker.SimplificationGuarantee` | src/cutil.cpp:466-497 | For a polyline: from each dropped vertex some point of the chord of its remaining neighbours differs by dx and dy with dx dx + dy dy at most epsilon epsilon. |
| `DouglasPeucker.KeepingGuarantee` | src/cutil.cpp:466-497 | The converse for a polyline: for each kept vertex two remaining vertices have a chord of which every point differs by dx and dy with dx dx + dy dy above epsilon epsilon. |
| `Crc.TableIsDivision` | src/cutil.cpp:502-546 | Each of the 256 table entries is eight bits of reflected division by 0xEDB88320 of its index. |
| `Crc.LowByteDecides` | src/cutil.cpp:548-549 | Eight bits of division look at the low byte only; the rest of the register moves down. |
| `Crc.Update` | src/cutil.cpp:548-549 | One table step is mixing in a byte and dividing bit by bit. |
| `Crc.Crc32Buf` | src/cutil.cpp:552-565 | For every buffer the result is the bit-serial CRC with all-ones start and final complement, as in section 8 of RFC 1952. |
| `Crc.OneByteIsNoticed` | src/cutil.cpp:552-565 | Changing exactly one byte of a buffer always changes the check value. |
| `Crc.Residue` | src/cutil.cpp:552-565 | A buffer followed by its own check value, low byte first, always has the check value 0x2144DF1C. |
| `Pan.MoveRow` | src/chart.cpp:2761-2761 | Moving overlapping pixels of one row, in the direction that is safe. |
| `Pan.MoveRows` | src/chart.cpp:2739-2787 | The row order makes every pixel that stays end up where it belongs, for all four directions, with nothing overwritten before it was moved. |
| `Pan.ScaleTolerance` | src/chart.cpp:2672-2702 | The tests for a whole scale accept exactly the whole scales if and only if the view is less than 10000 columns wide. |
| `Pan.ScaledStride` | src/chart.cpp:2722-2734 | A stride that passes the alignment guards is an exact multiple of the scale. |
| `Pan.MovedPixel` | src/chart.cpp:2695-2712 | A pixel moved by the scaled strides shows what the new source rectangle has at its place. |
| `Pan.Chart.GetAndScaleData` | src/chart.cpp:3075-3219 | Draws a rectangle of the cache, whole rows with the high-definition sampler, and leaves the other pixels alone. |
| `Pan.Chart.GetView` | src/chart.cpp:3053-3072 | The full redraw fills the cache and records what it shows. |
| `Pan.Chart.CanPan` | src/chart.cpp:2672-2737 | The guards let through exactly the rectangles at a whole scale above 1, aligned with the cache and less than one screen away, said of the strides and sizes themselves. |
| `Pan.Chart.PanBy` | src/chart.cpp:2739-2863 | After the moves and the two strips the cache shows the new rectangle: moved pixels as the old sampler drew them, the others as the new one does. |
| `Pan.Chart.GetViewUsingCache` | src/chart.cpp:2643-2866 | Through every guard, fallback and pan each pixel shows the source rectangle. The sampler is low definition when source width by view width exceeds the bilinear limit, the one asked for otherwise, or, on pixels used again, that of the cache; the whole equals a full redraw exactly when the two agree on the reused pixels. |
| `Pan.Chart.ReusedPixel` | src/chart.cpp:2672-2737 | Which pixels are used again, in coordinates: with a valid cache all for the same rectangle, else those whose place moved by the strides over the scale lies in the view, where the width is a multiple of at least twice the view, the strides are multiples of the scale and less than a screen, and columns move only for the low-definition sampler. |
| `Pan.KeepsOldSampler` | src/chart.cpp:2651-2656 | The comparison of samplers is commented out: asking for the cached rectangle with the other sampler keeps the old picture. |
| `SencFormat.LERoundTrip` | src/Osenc.h:126-135 | Little-endian fields are read back as written, at every width. |
| `SencFormat.LEInverse` | src/Osenc.h:126-135 | Any bytes are those of the number they are read as. |
| `SencFormat.LastWriteWins` | src/Osenc.cpp:1043-1218 | Whatever the records before it, the last record of a kind decides its field. |
| `SencFormat.CoveragesInOrder` | src/Osenc.cpp:1162-1199 | Covered and uncovered areas accumulate in the order written. |
| `SencFormat.DecimalParses` | src/Osenc.cpp:1086-1086 | The edition, kept as printed text, is the text of the number written. |
| `SencReading.FieldOfFrame` | src/Osenc.h:126-129 | Type, total length and payload of a record are found where the reader looks for them. |
| `SencReading.IngestWritten` | src/Osenc.cpp:1043-1199 | Each written record is read as what it means. |
| `SencReading.ReadsWritten` | src/Osenc.cpp:1029-1218 | Any list of written records, up to a feature record or the end of the data, is read back completely. |
| `SencReading.HeaderRoundTrip` | src/Osenc.cpp:898-1222 | A version record and any list of written records come back field by field; the version alone decides the return code. |
| `SencReading.OtherStartIsCorrupt` | src/Osenc.cpp:951-984 | A file that starts with any other header record is corrupt and changes no field. |
| `SencFile.Osenc.GetBuffer` | src/Osenc.cpp:3082-3091 | The persistent buffer grows to twice the length asked for and keeps its contents. |
| `SencFile.Osenc.WriteRecord` | src/Osenc.cpp:2613-2631 | Laying a record out in the reused buffer and writing it appends exactly the frame, with nothing left over from before. |
| `SencFile.Osenc.WriteText` | src/Osenc.cpp:2611-2632 | Appends the record of a text with its terminating NUL. |
| `SencFile.Osenc.WriteWord` | src/Osenc.cpp:2634-2655 | Appends the record of a 16-bit number. |
| `SencFile.Osenc.WriteLong` | src/Osenc.cpp:2657-2678 | Appends the record of a 32-bit number. |
| `SencFile.CreateCovrRecords` | src/Osenc.cpp:2516-2607 | Appends the extent and then every covered and uncovered area, although each is written in pieces. |
| `SencFile.CovrRecordsRoundTrip` | src/Osenc.cpp:2516-2607 | Reading what it wrote recovers the extent and both lists of areas, in order. |
| `SencFile.Osenc.Process` | src/Osenc.cpp:1043-1218 | The switch on one record changes exactly the fields the record stands for. |
| `SencFile.Osenc.ReadLoop` | src/Osenc.cpp:1029-1218 | On any data the record loop reads what the format says and stops where it says. |
| `SencFile.Osenc.VerifySENC` | src/Osenc.cpp:898-992 | On any data the status and version records are accepted or refused with the right code. |
| `SencFile.Osenc.IngestHeader` | src/Osenc.cpp:995-1222 | On any data the fields and the outcome are those the format gives. |
| `SencCell.WriteHeader` | src/Osenc.cpp:2326-2384 | The whole header of a cell, in the order written: version, texts and numbers cut to their fields, then the coverage if there is one. |
| `SencCell.CellRoundTrip` | src/Osenc.cpp:995-1222 | Reading such a header gives the code of its version and, unless that is refused, every field of the cell. |
| `SencCell.WriteAndIngest` | src/Osenc.cpp:2326-2384 | A header written by one object and ingested by another leaves the reader with the fields of the cell. |
| `SencBytes.FieldBytes` | src/Osenc.h:126-129 | Two and four byte fields, byte by byte: the low byte first. |
| `SencBytes.ByteOfField` | src/Osenc.h:126-129 | Byte i of a field of any width is v divided by 256 to the i, modulo 256. |
| `SencBytes.FrameBytes` | src/Osenc.h:126-135 | A record is its kind and a zero byte, its whole length in four bytes, its payload. |
| `SencBytes.VersionBytes` | src/Osenc.cpp:2634-2655 | A version record is 1, 0, 8, 0, 0, 0 and the two bytes of the version. |
| `SencBytes.TextBytes` | src/Osenc.cpp:2611-2632 | Text records have the kinds 2, 3, 5, 8 and 9, a length of seven more than the text, and end with a zero byte. |
| `SencBytes.WordBytes` | src/Osenc.cpp:2634-2655 | Records of a 16-bit number have the kinds 1, 4 and 6 and eight bytes. |
| `SencBytes.LongBytes` | src/Osenc.cpp:2657-2678 | The native scale is a record of kind 7 and ten bytes. |
| `SencBytes.ExtentBytes` | src/Osenc.cpp:2516-2547 | The extent is a record of kind 100 and seventy bytes: the corners from the south-west clockwise, latitude first. |
| `SencBytes.CoverageBytes` | src/Osenc.cpp:2549-2607 | Covered areas have kind 98, others 99; the number of points stands before the two floats of each. |
| `SencBytes.DoubleAt` | src/Osenc.h:408-417 | Double i of a list stands at byte 8 i. |
| `SencBytes.FloatAt` | src/Osenc.h:373-376 | Float i of a list stands at byte 4 i. |
| `SencBytes.LastDigit` | src/Osenc.cpp:1079-1088 | The edition is printed in decimal: the last digit is that of the remainder by ten, behind the printed quotient if there is one. |
| `SencBytes.AfterVersion` | src/Osenc.cpp:951-984 | On the bytes of a version record: 1024 ends with code 11, any other version outside 200 to 299 with code 2, and the rest is read otherwise. |
| `SencIngest.IngestText` | src/Osenc.cpp:1059-1146 | A file of version and one text record, in bytes: kind 2 fills Name, 3 the publish date, 5 the update date, 8 the creation date, 9 the sounding datum, up to the first zero byte; no other field changes. |
| `SencIngest.IngestWord` | src/Osenc.cpp:1049-1112 | The same for kinds 1, 4 and 6: version, printed edition and last update, low byte first. |
| `SencIngest.IngestScale` | src/Osenc.cpp:1113-1124 | The same for kind 7: the four bytes of the native scale. |
| `SencIngest.IngestExtent` | src/Osenc.cpp:1147-1160 | The same for kind 100: north and west from bytes 16 and 24 of the payload, south and east from bytes 48 and 56. |
| `SencIngest.IngestCoverage` | src/Osenc.cpp:1162-1199 | The same for kinds 98 and 99: the number of points from the first four bytes, then two floats for each, joined to the list of covered or of other areas. |
| `SencIngest.StatusRead` | src/Osenc.cpp:927-956 | A status record at the start: for a chart that is not unified, or a record of 20 bytes or more, code 10 and nothing changes; else the six words are stored, a third word of zero gives code 12, else a second word of zero code 11, else the rest is read. |
| `SencIngest.VersionRead` | src/Osenc.cpp:959-984 | A version record at the start must be 6 to 15 bytes long and complete, or the code is 10; then the version decides. |
| `SencIngest.StatusRoundTrip` | src/Osenc.cpp:898-1222 | Status, version and any written records, for all words and versions: the code, and every record applied exactly when all three tests pass. |
| `SencIngest.IngestStatus` | src/Osenc.cpp:898-1222 | The reader on status and version, in bytes and codes: which of 0, 2, 10, 11 and 12 it answers and which fields it sets, for unified and other charts. |
| `SencIngest.IngestVersion` | src/Osenc.cpp:951-984 | The reader on a version record alone: 11 for 1024, 2 outside 200 to 299, 0 otherwise, and the version is stored. |
| `SencIngest.CellLayout` | src/Osenc.cpp:2326-2384 | The records of a cell by number and field, in order: 1 to 8, then with a coverage the extent, the covered areas and the others. |

## Left out

- Integer width: coordinates are unbounded integers; only the header codec and the check value model fixed widths.
- Memory: `malloc`, `realloc` and `free` are not modelled; of the box array the model keeps the count, the capacity and whether it is the extents record.
- Linked lists: the active edge list, the buckets and the point blocks are sequences of the same entries, which are objects stepped in place; the `next` and `back` pointers are not modelled, the winding links are.
- Header entry of the active list: its sentinel column is modelled as the bound the walk back stops at, its own winding link as the start of the chain.
- Band functions as pointers: the functions passed to the sweep are an enumeration of the ones the code passes.
- Scripts.Run: covers runs in which operands of intersection, subtraction and symmetric difference are different regions, as the code needs.
- RectIn.Classify: says nothing for a rectangle without area, for which the flags of the scan have no such meaning; where boxes touch, a covered rectangle may be called PART, as PolygonWitnesses.ClassifySpike shows.
- Polygon.RegionPolygon: polygons of fewer than two points are not covered, since the code then reads tables it never filled.
- Algebra.Equal: decides equality of area for canonical regions only, because for others the code does not; which polygons give canonical regions is PairForm.CanonicalIffTidy, and PolygonWitnesses.CompareBars is a polygon that does not.
- ViewRegions.PolygonWithin: the shortcuts before it (overzoomed charts, polygons that miss or enclose the view) are left out, and so is the projection that gives the pixels.
- ViewRegions.RegionOfContours: the latitude and the turning sum that tell outlines from holes are inputs; a region object that was never filled is taken as empty.
- DouglasPeucker.DouglasPeucker: distances are compared by their squares, so the square root and its rounding are not modelled; the flat coordinate list is a sequence.
- LineClip.Clip: floating-point rounding is not modelled; the integer front end of the routine is left out.
- Pan.Chart.GetAndScaleData: the sampler is an unknown function of position; averaging, subsampling and overzoom are not modelled, and at a whole scale it depends on the absolute source position only.
- Pan.Chart.GetViewUsingCache: both strips are always fetched; a cache that is used again holds a drawing of the same size, since the caller drops it when scale or view change; the pixel buffer has the size of the view, so the branch for another size is missing; heights scale like widths. Scales the tests accept although they are not whole, which needs 10000 columns or more, are not covered.
- Pan.MoveRows: the buffer is a two-dimensional array of pixels, not bytes with a line pitch.
- SencFile.Osenc.IngestHeader: opening, retries and time limits of the stream are left out; a record whose length is below that of its base is taken as a failed read.
- SencReading: a payload too short for its fields makes the original look at stale bytes of the persistent buffer; the model reports that it read past the record instead of giving those bytes a meaning.
- SencFile.Osenc.WriteRecord: every write succeeds; a full disk and its return value are left out.
- Text encoding: strings are bytes without NUL; conversion between character sets is left out.
- Floating-point fields of the header are carried as their bit patterns.
- Feature records after the header, the shop and fingerprint code, pipes and sockets, and image decoding.
- Region wrappers of the widget library, iterators, clip-box and rectangle getters, and the disabled span code: thin wrappers or dead code.
- Projections, datum shifts and geodesics: transcendental numerics without an exact specification.
