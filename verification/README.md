# Verified models of ported programs

The ports tree carries a few whole algorithms in its patches and helper sources. This project models them in
Dafny and proves what they are for:

* **NanoSVG rasterizer.** Flattening of cubics and closed contours (`Bezier`, `BezierEnd`, `Chords`, `Edges`,
  `Flatten`, `Thinning`), the paged pool and the linked active list (`MemPool`, `ActiveEdges`, `Sweep`, `Resort`,
  `Scan`), span coverage and its meaning (`Coverage`, `FillArea`, `TrueFill`), rows and blits (`Raster`, `Blend`,
  `Compositing`), gradients and paints (`Gradients`, `Paints`, `PaintColors`), the dash walk (`Dashes`, `DashWalk`,
  `DashPieces`, `DashStrokes`), division by alpha (`Unpremultiply`, `DefringeGap`) and the whole run over an image
  (`Rasterize`, `Painting`, `ShapeSides`, `ShapeFill`).
* **NanoSVG parser.** The lexer, the command machine and the point buffer of path data (`PathLexer`, `PathNumbers`,
  `PathData`, `PathGrammar`, `PathPrint`, `PathParser`), what path data means and what is stored of it
  (`PathMeaning`, `PathStored`), dash arrays (`DashArray`) and the attribute stack (`AttrStack`, `AttrInheritance`).
* **HIDAPI, libusb backend.** The report queue as a linked list (`Reports`) and the protocol of readers, callback,
  event thread and closing thread as a state machine over their atomic steps (`HidProtocol`), with what it achieves
  (`HidReaders`, `HidResults`, `HidDelivery`, `HidProgress`).
* **unarj's path sanitiser** (`PathText`, `PathLaws`, `Sanitize`).
* **Dependency closures** of `chkdepschain.py` (`DepGraph`, `DepNeeds`, `DepChain`).
* **OSS arithmetic** of the ALSA plugins and of FAudio (`OssPointer`, `PowersOfTwo`).

`dafny verify dfyconfig.toml` checks everything. Conventions: float coordinates are exact reals; fixed-point
values, sizes and counters are unbounded ints; bytes are 0..255 and every store into one is an explicit
truncation that is then proved not to matter; memory is never exhausted. Libraries appear as parameters with
their contract: `qsort` as any function that sorts by `y0`, lengths as any norm (the Euclidean one where a
tolerance matters), number conversion, arcs and make(1) as functions. Strings are C strings without their terminator. Shared flags of the HID protocol are
read and written atomically and in program order.

Where the code does less than its documentation or the standard says, the code is modelled as it is and the exact
condition is proved:

* gradients with fewer than two stops make the paint cache read outside the stop array
  (`Paints.InitGradient`);
* dashes begin with "on" whatever the offset, and dashes below the distance tolerance are lost
  (`DashWalk.PhaseRightIff`, `DashStrokes.StrokesRightIff`, with inputs in `DashWalk.PhaseWrong` and
  `DashStrokes.ShortDashLost`);
* the test for flatness compares with the line through the chord, so a curve may run far beyond the ends of the
  polygon's edge (`Chords.StaysBesideIff`, with an input in `Chords.Overshoots`);
* several reading threads can leave one asleep beside a report (`HidReaders.NeverStuckIff`);
* more than 127 open groups, or groups inside `defs`, move the attribute head (`AttrStack.LevelIff`);
* a path that outgrows the buffer on the way is cut off although its normal form would fit
  (`Sanitize.SanitizedIff`, `Sanitize.SanitizedIffPeak`);
* the hardware pointer is wrong after late polls (`OssPointer.PointerRightIff`), and the 16-bit round-up gives 0
  above 32768 (`PowersOfTwo.SmearUp`);
* the end point of a cubic can be missing when the depth limit is reached (`BezierEnd.EndEmittedWhen`, with an input
  in `BezierEnd.EndCanBeMissing`);
* the smooth curve commands reflect the last control point even after a command of the other kind
  (`PathMeaning.MeaningIff`, with inputs in `PathMeaning.CubicAfterQuad` and `PathMeaning.QuadAfterCubic`);
* the defringe pass never looks at column 0 or row 0 as a left or upper neighbour (`DefringeGap.DefringeCompleteIff`,
  with an input in `DefringeGap.RedRow`).

## Model

| member | source | states |
|---|---|---|
| `Rasterize.RasterizeXY` | cad/PrusaSlicer/files/patch-src_libnanosvg_nanosvgrast.h:1386-1474 | before the division by alpha every pixel is the source-over composite, on a transparent background, of the fills and strokes of the visible shapes in document order, each with the coverage of its own five sub-scanlines; then the two passes of the division are exactly their simultaneous form |
| `Rasterize.CompositePremultiplied` | cad/PrusaSlicer/files/patch-src_libnanosvg_nanosvgrast.h:1003-1134 | over any sequence of layers every pixel keeps r, g, b <= a <= 255 and no coverage exceeds its byte |
| `Rasterize.NoStoreWraps` | cad/PrusaSlicer/files/patch-src_libnanosvg_nanosvgrast.h:1224-1240 | for every image a whole run can draw, the stored quotients of the division by alpha are the exact ones |
| `Rasterize.ShowsOneMore` | cad/PrusaSlicer/files/patch-src_libnanosvg_nanosvgrast.h:1441-1441 | one call of the edge rasterizer adds exactly one layer to the composite |
| `Rasterize.FillEdgesOk` | cad/PrusaSlicer/files/patch-src_libnanosvg_nanosvgrast.h:1420-1441 | the edges of a fill, flattened, placed and sorted, are well formed, sorted by `y0` and balanced |
| `Rasterize.StrokeEdgesOk` | cad/PrusaSlicer/files/patch-src_libnanosvg_nanosvgrast.h:1444-1471 | whatever segments the stroker adds, the edges handed to the rasterizer are well formed and sorted |
| `Rasterize.PlaceAndSort` | cad/PrusaSlicer/files/patch-src_libnanosvg_nanosvgrast.h:1423-1433 | the in-place scale-and-translate loop followed by `qsort` leaves the sorted list of placed edges |
| `Rasterize.DrawShape` | cad/PrusaSlicer/files/patch-src_libnanosvg_nanosvgrast.h:1409-1472 | a shape adds its fill layer and then its stroke layer, each only under the conditions of the code; what these layers show of the shape is `ShapeFill.FillShows` and `ShapeFill.StrokeShows` |
| `ShapeFill.FillShows` | cad/PrusaSlicer/files/patch-src_libnanosvg_nanosvgrast.h:1386-1474 | in the layers of a run, the fill of every visible shape lays the paint and opacity of that shape over exactly the pixels that the contours of its paths, scaled and shifted, enclose by its own fill rule, wherever no side comes too near; its layer stands behind those of the shapes before |
| `ShapeFill.SolidFillShows` | cad/PrusaSlicer/files/patch-src_libnanosvg_nanosvgrast.h:1386-1474 | an opaque colour at full opacity shows exactly inside until a later layer covers the pixel, and outside the fill changes nothing |
| `ShapeFill.StrokeShows` | cad/PrusaSlicer/files/patch-src_libnanosvg_nanosvgrast.h:1444-1471 | the stroke of a shape comes right behind its fill and lays its own paint over what its outline encloses by the nonzero rule, provided the outline is closed |
| `ShapeSides.DecidedReally` | cad/PrusaSlicer/files/patch-src_libnanosvg_nanosvgrast.h:308-414 | the placed and sorted edges wind round a point exactly as the sides of the polygons do, counted from either end of each side |
| `PaintColors.CachedPaints` | cad/PrusaSlicer/files/patch-src_libnanosvg_nanosvgrast.h:1284-1342 | the cached paint gives for every place of the user space the colour with its alpha faded by the opacity to within two units, or for a gradient the mixture, to within two units a channel, of the stops around the place on the gradient vector, the ends padded |
| `Rasterize.ClearImage` | cad/PrusaSlicer/files/patch-src_libnanosvg_nanosvgrast.h:1406-1407 | all pixels of all rows become transparent black |
| `Raster.Rasterizer.RasterizeSortedEdges` | cad/PrusaSlicer/files/patch-src_libnanosvg_nanosvgrast.h:1136-1222 | every pixel is blended once with the exact coverage that the active lists of its row give; no byte between the rows changes; lists and pages stay sound |
| `Raster.Rasterizer.CoverRow` | cad/PrusaSlicer/files/patch-src_libnanosvg_nanosvgrast.h:1143-1213 | the five sub-scanlines leave in the scanline, for every column, the sum of the gains of their spans, all within the returned column bounds |
| `Raster.Rasterizer.BlitRow` | cad/PrusaSlicer/files/patch-src_libnanosvg_nanosvgrast.h:1214-1219 | the blit clipped to the covered columns equals blending the whole row |
| `Raster.RowSumAtMost` | cad/PrusaSlicer/files/patch-src_libnanosvg_nanosvgrast.h:912-937 | after t sub-scanlines a pixel has gained at most 51 t, so five never wrap a byte |
| `Raster.RowSumOutside` | cad/PrusaSlicer/files/patch-src_libnanosvg_nanosvgrast.h:1215-1217 | columns outside the collected bounds have gained nothing |
| `Raster.ListDirected` | cad/PrusaSlicer/files/patch-src_libnanosvg_nanosvgrast.h:942-974 | a right active list has directions of one unit, and for closed contours they cancel and their number is even |
| `FillArea.CoverageIsInsideArea` | cad/PrusaSlicer/files/patch-src_libnanosvg_nanosvgrast.h:912-974 | for closed contours the coverage of a pixel is 51/1024 of the abscissae inside by the fill rule, rounded down by less than one unit per span |
| `FillArea.InsidePermutation` | cad/PrusaSlicer/files/patch-src_libnanosvg_nanosvgrast.h:942-974 | inside does not depend on the order in which the active list holds its edges |
| `FillArea.InteriorIsPainted` | cad/PrusaSlicer/files/patch-src_libnanosvg_nanosvgrast.h:1136-1222 | an opaque fill gives every pixel that lies inside without an edge through it exactly its colour |
| `FillArea.ExteriorIsKept` | cad/PrusaSlicer/files/patch-src_libnanosvg_nanosvgrast.h:1136-1222 | a fill leaves every pixel that lies outside as it was |
| `Painting.FillCover` | cad/PrusaSlicer/files/patch-src_libnanosvg_nanosvgrast.h:1411-1442 | a fill layer of a run covers every pixel well inside its shape by 255 of 255 and every pixel outside by 0 |
| `TrueFill.SameInside` | cad/PrusaSlicer/files/patch-src_libnanosvg_nanosvgrast.h:885-974 | if on a sub-scanline every real edge keeps away from a pixel column by 1/1024 for each step it has taken, the column is wholly inside or wholly outside as the real edges say |
| `TrueFill.RealFillCover` | cad/PrusaSlicer/files/patch-src_libnanosvg_nanosvgrast.h:1411-1442 | a fill layer of a run covers by 255 the pixels that its edges, where they really are, enclose by the fill rule of its job, and by 0 the others, wherever no edge comes so near; `ShapeFill.FillShows` says it of the shape |
| `Painting.TopmostShows` | cad/PrusaSlicer/files/patch-src_libnanosvg_nanosvgrast.h:1409-1472 | in the finished composite a pixel shows exactly the colour of an opaque layer that covers it wholly and that no later layer covers, whatever was drawn before |
| `Painting.NothingShows` | cad/PrusaSlicer/files/patch-src_libnanosvg_nanosvgrast.h:1406-1472 | a pixel that no layer covers stays transparent |
| `Sweep.SweepState.SubScanline` | cad/PrusaSlicer/files/patch-src_libnanosvg_nanosvgrast.h:1148-1208 | after the list updates the active list is sorted by `x` and its multiset is exactly that of the edges with y0 <= scany < y1, each at its start abscissa plus slope times steps |
| `Sweep.SweepState.RemoveEnded` | cad/PrusaSlicer/files/patch-src_libnanosvg_nanosvgrast.h:1153-1165 | the unlink-while-walking loop drops exactly the ended edges, moves the others by their slope and keeps their order |
| `Sweep.SweepState.Resort` | cad/PrusaSlicer/files/patch-src_libnanosvg_nanosvgrast.h:1167-1183 | the bubble passes end with a sorted permutation of the list and touch nothing of the free list |
| `Sweep.SweepState.InsertStarting` | cad/PrusaSlicer/files/patch-src_libnanosvg_nanosvgrast.h:1185-1208 | every live edge that starts by this sub-scanline is inserted, none other, and the list stays sorted |
| `Sweep.SweepState.Insert` | cad/PrusaSlicer/files/patch-src_libnanosvg_nanosvgrast.h:1190-1205 | the three insertion cases keep the list sorted and add exactly the one edge |
| `Sweep.SweepState.AddActive` | cad/PrusaSlicer/files/patch-src_libnanosvg_nanosvgrast.h:876-904 | a node is taken from the free list or newly made, gets the fixed-point data of its edge, and the active list is untouched |
| `Sweep.SweepState.Retire` | cad/PrusaSlicer/files/patch-src_libnanosvg_nanosvgrast.h:906-910 | unlinking and pushing on the free list moves one node and loses none |
| `Sweep.InOnePlace` | cad/PrusaSlicer/files/patch-src_libnanosvg_nanosvgrast.h:876-910 | every node made since the reset is in exactly one place: active, free or in hand |
| `Sweep.SweepState.Reset` | cad/PrusaSlicer/files/patch-src_libnanosvg_nanosvgrast.h:1415-1416 | after the reset no node is in use and all pages are kept |
| `Sweep.StaysReady` | cad/PrusaSlicer/files/patch-src_libnanosvg_nanosvgrast.h:1153-1165 | advancing the live edges of one sub-scanline gives those of the next among the edges looked at |
| `Resort.SortActive` | cad/PrusaSlicer/files/patch-src_libnanosvg_nanosvgrast.h:1168-1183 | the repeated passes terminate in a sorted permutation, relinking only nodes of the list |
| `Resort.Pass` | cad/PrusaSlicer/files/patch-src_libnanosvg_nanosvgrast.h:1171-1181 | a pass that reports no change found a sorted list; one that reports a change has fewer inversions; the cells are permuted |
| `Scan.InversionsSwapped` | cad/PrusaSlicer/files/patch-src_libnanosvg_nanosvgrast.h:1172-1178 | exchanging a neighbouring pair in the wrong order removes exactly one inversion |
| `Scan.AdvanceLive` | cad/PrusaSlicer/files/patch-src_libnanosvg_nanosvgrast.h:1155-1165 | the advance loop applied to the live cells of a sub-scanline yields the live cells of the next |
| `Scan.AdvancePermutation` | cad/PrusaSlicer/files/patch-src_libnanosvg_nanosvgrast.h:1155-1165 | advancing permuted lists gives permuted lists |
| `Scan.FirstScanIsFirst` | cad/PrusaSlicer/files/patch-src_libnanosvg_nanosvgrast.h:1186-1186 | an edge has started by sub-scanline n exactly when its first sub-scanline is at most n |
| `Scan.CellDrift` | cad/PrusaSlicer/files/patch-src_libnanosvg_nanosvgrast.h:890-897 | after k steps the 22.10 abscissa differs from the true one by less than k + 1 units, so the slope rounding never runs away |
| `Scan.FixedSlopeTowardsZero` | cad/PrusaSlicer/files/patch-src_libnanosvg_nanosvgrast.h:892-896 | the stored slope is the true one rounded towards zero by less than a unit |
| `ActiveEdges.EdgeList.Unlink` | cad/PrusaSlicer/files/patch-src_libnanosvg_nanosvgrast.h:1158-1158 | removing through the link that leads to a node leaves the list without it and changes one link |
| `ActiveEdges.EdgeList.SwapNext` | cad/PrusaSlicer/files/patch-src_libnanosvg_nanosvgrast.h:1172-1178 | the pointer exchange swaps two neighbours and keeps the list sound |
| `ActiveEdges.EdgeList.LinkFirst` | cad/PrusaSlicer/files/patch-src_libnanosvg_nanosvgrast.h:1193-1196 | insertion at the head |
| `ActiveEdges.EdgeList.LinkBehind` | cad/PrusaSlicer/files/patch-src_libnanosvg_nanosvgrast.h:1202-1204 | insertion behind a node |
| `MemPool.Pool.Alloc` | cad/PrusaSlicer/files/patch-src_libnanosvg_nanosvgrast.h:241-251 | a block overlaps no block handed out since the reset, stays within a page of 1024, and no page is lost; none is given exactly for sizes above a page |
| `MemPool.Pool.NextPage` | cad/PrusaSlicer/files/patch-src_libnanosvg_nanosvgrast.h:208-229 | the following page of the chain, or a new one at its end; it is unused and all pages stay linked |
| `MemPool.Pool.Reset` | cad/PrusaSlicer/files/patch-src_libnanosvg_nanosvgrast.h:231-239 | every page stays in the chain and becomes unused |
| `Coverage.FillScanline` | cad/PrusaSlicer/files/patch-src_libnanosvg_nanosvgrast.h:912-937 | a span adds to each pixel the floor of its overlap times the weight, all accesses are in bounds for any span, and the bounds widen to cover it |
| `Coverage.FillActiveEdges` | cad/PrusaSlicer/files/patch-src_libnanosvg_nanosvgrast.h:942-974 | under either rule the scanline gains exactly the spans of the walk, with bounds around them |
| `Coverage.WalkFillsInside` | cad/PrusaSlicer/files/patch-src_libnanosvg_nanosvgrast.h:947-973 | at every moment of the walk the filled part is the inside by the fill rule (section 11.3 of SVG 1.1) |
| `Coverage.SpansAreInside` | cad/PrusaSlicer/files/patch-src_libnanosvg_nanosvgrast.h:947-973 | for a balanced list the walk ends closed and its spans are exactly the inside |
| `Coverage.WalkOrdered` | cad/PrusaSlicer/files/patch-src_libnanosvg_nanosvgrast.h:947-973 | the spans are ordered and disjoint |
| `Coverage.TotalGainAtMost` | cad/PrusaSlicer/files/patch-src_libnanosvg_nanosvgrast.h:912-937 | disjoint spans together add at most the weight to any pixel |
| `Coverage.TotalGainOutside` | cad/PrusaSlicer/files/patch-src_libnanosvg_nanosvgrast.h:916-917 | pixels outside the bounds gain nothing |
| `Coverage.GainIsInsideArea` | cad/PrusaSlicer/files/patch-src_libnanosvg_nanosvgrast.h:912-974 | on a balanced sub-scanline a pixel gains the weight times its inside part, short by less than a unit per span |
| `Edges.ContourBalanced` | cad/PrusaSlicer/files/patch-src_libnanosvg_nanosvgrast.h:308-338 | the edges of any closed contour cross every height equally often both ways, an even number of times |
| `Edges.ChainWinding` | cad/PrusaSlicer/files/patch-src_libnanosvg_nanosvgrast.h:308-338 | the crossings of a chain of points telescope to its two ends |
| `Edges.CrossingsParity` | cad/PrusaSlicer/files/patch-src_libnanosvg_nanosvgrast.h:308-338 | the number of crossings has the parity of their direction sum |
| `Edges.BalancedPermutation` | cad/PrusaSlicer/files/patch-src_libnanosvg_nanosvgrast.h:1432-1433 | sorting keeps the balance |
| `Edges.PlaceBalanced` | cad/PrusaSlicer/files/patch-src_libnanosvg_nanosvgrast.h:1423-1429 | scaling to sub-scanlines and translating keeps edges well formed and balanced |
| `Flatten.ShapeBalanced` | cad/PrusaSlicer/files/patch-src_libnanosvg_nanosvgrast.h:391-417 | for every list of paths the edges of the shape balance |
| `Flatten.Flattener.FlattenShape` | cad/PrusaSlicer/files/patch-src_libnanosvg_nanosvgrast.h:391-417 | the edge list grows by the closed contours of all paths; segments are read with stride 3 in bounds |
| `Flatten.Flattener.FlattenCubicBez` | cad/PrusaSlicer/files/patch-src_libnanosvg_nanosvgrast.h:353-389 | the recursion appends the end points of exactly the accepted pieces, in order |
| `Flatten.Flattener.AddPathPoint` | cad/PrusaSlicer/files/patch-src_libnanosvg_nanosvgrast.h:260-283 | the point list changes as `Flatten.AddPoint` says, whose guarantees `Thinning.AddThins` and `Thinning.ContourThins` state |
| `Thinning.AddThins` | cad/PrusaSlicer/files/patch-src_libnanosvg_nanosvgrast.h:260-283 | one point keeps the guarantee: kept points are emitted points in order, neighbours are never nearer than the tolerance, and a dropped point is nearer than it to the kept point that stands for it |
| `Thinning.ContourThins` | cad/PrusaSlicer/files/patch-src_libnanosvg_nanosvgrast.h:391-414 | for every path the polygon that becomes edges is such a thinning of its start, the ends of all accepted pieces in order, and its start again |
| `Thinning.KeptIsEmitted` | cad/PrusaSlicer/files/patch-src_libnanosvg_nanosvgrast.h:260-283 | every vertex is the first emitted point it stands for, so none is invented |
| `Thinning.AddFlag` | cad/PrusaSlicer/files/patch-src_libnanosvg_nanosvgrast.h:260-283 | a vertex is a corner exactly if one of the emitted points is that it stands for |
| `Thinning.PolygonFollowsPath` | cad/PrusaSlicer/files/patch-src_libnanosvg_nanosvgrast.h:353-414 | every point of a settled segment lies on an accepted piece whose ends are near to one vertex of that polygon or to two consecutive ones, close to the line through them; if the piece meets the condition of `Chords.StaysBesideIff`, the point is within 2/9 + 1/100 of the edge of the polygon between those vertices |
| `Flatten.Flattener.AddEdge` | cad/PrusaSlicer/files/patch-src_libnanosvg_nanosvgrast.h:308-338 | an edge is stored top to bottom with its direction, a horizontal one not at all |
| `Flatten.Flattener.BuildEdges` | cad/PrusaSlicer/files/patch-src_libnanosvg_nanosvgrast.h:412-414 | the loop builds the closing edge first and then the chain |
| `Bezier.HalvesAreTheCurve` | cad/PrusaSlicer/files/patch-src_libnanosvg_nanosvgrast.h:363-386 | the two halves of the recursion trace the curve on [0, 1/2] and [1/2, 1] |
| `Bezier.EmittedOnCurve` | cad/PrusaSlicer/files/patch-src_libnanosvg_nanosvgrast.h:353-389 | every emitted point is the cubic at a multiple of 1/1024, with strictly increasing parameters |
| `Bezier.EmittedAtMost` | cad/PrusaSlicer/files/patch-src_libnanosvg_nanosvgrast.h:360-388 | at most 2^10 points per cubic |
| `Bezier.EndEmittedIff` | cad/PrusaSlicer/files/patch-src_libnanosvg_nanosvgrast.h:360-388 | the end point of the cubic is emitted if and only if its last piece is accepted within the depth limit |
| `BezierEnd.EndEmittedWhen` | cad/PrusaSlicer/files/patch-src_libnanosvg_nanosvgrast.h:360-388 | that is, if and only if for some k up to 10 the part left in front of the end after k halvings is flat |
| `BezierEnd.EndCanBeMissing` | cad/PrusaSlicer/files/patch-src_libnanosvg_nanosvgrast.h:360-388 | a cubic from two billion units away, whose end point is never emitted |
| `BezierEnd.PointHasNoLeaf` | cad/PrusaSlicer/files/patch-src_libnanosvg_nanosvgrast.h:360-388 | a cubic of four equal points emits nothing at any level |
| `Bezier.FlatIsClose` | cad/PrusaSlicer/files/patch-src_libnanosvg_nanosvgrast.h:372-380 | on an accepted piece the curve stays within 4/9 of the square root of the tolerance of the line through the chord |
| `Chords.Overshoots` | cad/PrusaSlicer/files/patch-src_libnanosvg_nanosvgrast.h:372-380 | a cubic that is accepted as one piece and has a point more than 28 units away from its chord of length one |
| `Chords.StaysBesideIff` | cad/PrusaSlicer/files/patch-src_libnanosvg_nanosvgrast.h:372-380 | a piece stays between the perpendiculars at the ends of its chord at every parameter if and only if its four points meet four inequalities: the controls do not lie behind the end they belong to, and are not pulled too far towards the other one |
| `Chords.FlatIsCloseToChord` | cad/PrusaSlicer/files/patch-src_libnanosvg_nanosvgrast.h:372-380 | an accepted piece that meets them is within 2/9 of the chord itself |
| `Chords.FlatteningFollowsChords` | cad/PrusaSlicer/files/patch-src_libnanosvg_nanosvgrast.h:353-389 | if every piece settles, each curve point lies on an accepted piece and is within 2/9 of its chord if that piece meets them |
| `Bezier.FlatteningFollowsCurve` | cad/PrusaSlicer/files/patch-src_libnanosvg_nanosvgrast.h:353-389 | if every piece settles, each curve point lies on an accepted piece, is that close to the line through its chord, and the pieces join |
| `Bezier.LineIsOnePiece` | cad/PrusaSlicer/files/patch-src_libnanosvg_nanosvgrast.h:372-380 | a straight line with distinct ends is emitted as its end point alone |
| `Blend.Div255Exact` | cad/PrusaSlicer/files/patch-src_libnanosvg_nanosvgrast.h:1003-1006 | multiplication and shift is exact division by 255 on 0..65789, so on all products of two bytes; `Blend.Div255Limit` shows that 65790 is the first exception |
| `Blend.OverPremultiplied` | cad/PrusaSlicer/files/patch-src_libnanosvg_nanosvgrast.h:1019-1041 | blending any colour with any coverage over a premultiplied pixel wraps no byte and gives a premultiplied pixel |
| `Blend.OverNothing` | cad/PrusaSlicer/files/patch-src_libnanosvg_nanosvgrast.h:1019-1041 | zero coverage leaves any pixel as it is |
| `Blend.OverOpaque` | cad/PrusaSlicer/files/patch-src_libnanosvg_nanosvgrast.h:1019-1041 | full coverage by an opaque colour replaces the pixel |
| `Blend.ScanlineSolid` | cad/PrusaSlicer/files/patch-src_libnanosvg_nanosvgrast.h:1008-1134 | each covered pixel is blended with the colour of its own user-space position, although the abscissa is advanced by addition; nothing else changes; what blending is worth is `Compositing.OverIsSourceOver` |
| `Compositing.OverIsSourceOver` | cad/PrusaSlicer/files/patch-src_libnanosvg_nanosvgrast.h:1019-1041 | for every colour, coverage and premultiplied pixel the stored pixel is the source-over composite of section 14.2 of SVG 1.1 over the reals: alpha less than two units short and never above, each colour channel less than three short or one above |
| `Unpremultiply.DividedFitsIff` | cad/PrusaSlicer/files/patch-src_libnanosvg_nanosvgrast.h:1234-1236 | the stored quotient is exact if and only if the channel is below 256/255 of alpha |
| `Unpremultiply.DividedRoundTrip` | cad/PrusaSlicer/files/patch-src_libnanosvg_nanosvgrast.h:1228-1240 | for a premultiplied channel the division is exact and multiplying back loses at most one unit |
| `Unpremultiply.UnpremultiplyRound` | cad/PrusaSlicer/files/patch-src_libnanosvg_nanosvgrast.h:1228-1240 | channel by channel multiplying back loses at most one unit, alpha is kept, and opaque and transparent pixels stay |
| `Unpremultiply.DivideByAlpha` | cad/PrusaSlicer/files/patch-src_libnanosvg_nanosvgrast.h:1228-1240 | the first double loop divides every pixel of nonzero alpha and leaves the others |
| `Unpremultiply.Defringe` | cad/PrusaSlicer/files/patch-src_libnanosvg_nanosvgrast.h:1242-1280 | the in-place second pass computes the simultaneous update from the image before it |
| `Unpremultiply.NeighboursFromVisible` | cad/PrusaSlicer/files/patch-src_libnanosvg_nanosvgrast.h:1248-1271 | what is gathered depends only on alphas and on the colours of pixels that are not transparent |
| `Unpremultiply.GatherNeighbours` | cad/PrusaSlicer/files/patch-src_libnanosvg_nanosvgrast.h:1248-1271 | the four guarded reads are in bounds and gather the visible neighbours |
| `Unpremultiply.DefringeFits` | cad/PrusaSlicer/files/patch-src_libnanosvg_nanosvgrast.h:1272-1276 | the averages are bytes |
| `DefringeGap.GatherCompleteIff` | cad/PrusaSlicer/files/patch-src_libnanosvg_nanosvgrast.h:1249-1266 | the pass gathers all visible neighbours of a pixel if and only if it has none in column 0 to its left and none in row 0 above; otherwise it gathers fewer |
| `DefringeGap.StoredIsMean` | cad/PrusaSlicer/files/patch-src_libnanosvg_nanosvgrast.h:1243-1280 | a transparent pixel gets in each channel the mean, rounded down, of the visible neighbours the pass looks at, and every other pixel stays |
| `DefringeGap.DefringeCompleteIff` | cad/PrusaSlicer/files/patch-src_libnanosvg_nanosvgrast.h:1243-1280 | a pixel comes out as with all four neighbours if and only if it is visible, or none is passed over, or the averages coincide |
| `DefringeGap.MissedForSomeColours` | cad/PrusaSlicer/files/patch-src_libnanosvg_nanosvgrast.h:1249-1276 | no coincidence saves an arrangement of alphas: if a transparent pixel has a neighbour that is passed over, some colours with the same alphas come out wrong |
| `DefringeGap.MissedInOneRow` | cad/PrusaSlicer/files/patch-src_libnanosvg_nanosvgrast.h:1249-1254 | in an image of one row the colour of column 0 never reaches a transparent black pixel beside it |
| `DefringeGap.RedRow` | cad/PrusaSlicer/files/patch-src_libnanosvg_nanosvgrast.h:1249-1254 | a red pixel and two transparent ones: the second stays black where all four neighbours would make it red |
| `Unpremultiply.UnpremultiplyAlpha` | cad/PrusaSlicer/files/patch-src_libnanosvg_nanosvgrast.h:1224-1281 | both passes together |
| `Gradients.GradientData.AddStop` | cad/PrusaSlicer/files/patch-src_libnanosvg_nanosvg.h:2739-2759 | growing, searching and shifting in place equals inserting before the first stop with a larger offset |
| `Gradients.ParsedIsStableSort` | cad/PrusaSlicer/files/patch-src_libnanosvg_nanosvg.h:2739-2759 | for every insertion order the stops end up sorted, all there, and those of equal offset in document order |
| `Gradients.GradientData.ShiftUp` | cad/PrusaSlicer/files/patch-src_libnanosvg_nanosvg.h:2751-2754 | the downward loop moves the tail up by one place |
| `Paints.InitGradient` | cad/PrusaSlicer/files/patch-src_libnanosvg_nanosvgrast.h:1304-1340 | reads stay within the stops if and only if there are at least two; then each of the 256 entries is written exactly once and has the colour of its place between the stops |
| `Paints.InitPaint` | cad/PrusaSlicer/files/patch-src_libnanosvg_nanosvgrast.h:1284-1342 | the cache holds the faded colour or the table of the gradient |
| `Paints.EntryBetween` | cad/PrusaSlicer/files/patch-src_libnanosvg_nanosvgrast.h:1319-1336 | between two stops every channel lies between those of the two |
| `Paints.EntryAtStop` | cad/PrusaSlicer/files/patch-src_libnanosvg_nanosvgrast.h:1319-1336 | the table passes through the colour of the last stop at each position |
| `Paints.LerpBetween` | cad/PrusaSlicer/files/patch-src_libnanosvg_nanosvgrast.h:983-991 | every channel of the mixture lies between those of its two colours |
| `Paints.OpacityOnlyFades` | cad/PrusaSlicer/files/patch-src_libnanosvg_nanosvgrast.h:993-1001 | opacity never raises alpha, at 1 or more changes nothing, at 0 or less clears it |
| `Dashes.FindStart` | cad/PrusaSlicer/files/patch-src_libnanosvg_nanosvgrast.h:802-817 | the offset is reduced by whole cycles into [0, cycle) and the search loop terminates in the entry that contains it |
| `Dashes.CyclePeriod` | cad/PrusaSlicer/files/patch-src_libnanosvg_nanosvgrast.h:804-808 | the pattern, doubled if odd, repeats after one cycle |
| `DashWalk.Walk` | cad/PrusaSlicer/files/patch-src_libnanosvg_nanosvgrast.h:788-857 | the walk terminates; there is a list of cuts that explains what is stroked: the cuts are exactly the changes of the pattern before the end of the path, on their segments at their arc length; the pieces between them are stroked alternately, unless they have come down to single points |
| `DashWalk.WalkerCut` | cad/PrusaSlicer/files/patch-src_libnanosvg_nanosvgrast.h:825-850 | whenever the walk cuts, the distance divided by is positive and the cut lies where the pattern changes |
| `DashWalk.EnoughBreaks` | cad/PrusaSlicer/files/patch-src_libnanosvg_nanosvgrast.h:820-854 | the pattern changes only finitely often along a path, zero dashes included |
| `DashPieces.PiecesFillPath` | cad/PrusaSlicer/files/patch-src_libnanosvg_nanosvgrast.h:820-857 | the lengths of the point lists between cuts, both ends included, add up to the length of the path |
| `DashPieces.PieceLengthIs` | cad/PrusaSlicer/files/patch-src_libnanosvg_nanosvgrast.h:825-850 | the length of the point list between two cuts is the distance of the two changes of the pattern |
| `DashPieces.EntryLength` | cad/PrusaSlicer/files/patch-src_libnanosvg_nanosvgrast.h:841-850 | each piece is as long as its entry of the pattern in stroke widths, the first one less what the offset cuts off |
| `DashPieces.StrokedLength` | cad/PrusaSlicer/files/patch-src_libnanosvg_nanosvgrast.h:830-835 | merging a near point at the cut makes the stroked list shorter than its piece by less than the tolerance of 0.01 |
| `DashStrokes.StrokesRightIff` | cad/PrusaSlicer/files/patch-src_libnanosvg_nanosvgrast.h:788-857 | on every path that has a length the strokes are the point lists of the even pieces that are more than a single point, and those pieces are the dashes of section 11.4 of SVG 1.1 if and only if the offset skips an even number of entries and no even piece that has a length is shorter than the tolerance without going round a vertex |
| `DashStrokes.PieceStaysIff` | cad/PrusaSlicer/files/patch-src_libnanosvg_nanosvgrast.h:830-836 | a piece between two cuts keeps more than a single point if and only if it goes round a vertex or is at least 0.01 long |
| `DashStrokes.ShortDashLost` | cad/PrusaSlicer/files/patch-src_libnanosvg_nanosvgrast.h:825-836 | dashes "0.005 1" on a line of length one: the walk strokes nothing, although the path begins with a dash |
| `DashWalk.PieceIsEntry` | cad/PrusaSlicer/files/patch-src_libnanosvg_nanosvgrast.h:841-843 | piece i is entry k + i of the pattern, less what the offset cuts from the first one |
| `DashWalk.PhaseRightIff` | cad/PrusaSlicer/files/patch-src_libnanosvg_nanosvgrast.h:790-843 | starting with a dash is what section 11.4 of SVG 1.1 asks for if and only if the offset skips an even number of entries |
| `DashWalk.PhaseWrong` | cad/PrusaSlicer/files/patch-src_libnanosvg_nanosvgrast.h:790-843 | with dashes "1 1" and offset 3/2 the walk strokes what should be a gap |
| `DashWalk.DashedOnPeriod` | cad/PrusaSlicer/files/patch-src_libnanosvg_nanosvgrast.h:809-811 | reducing the offset by whole cycles does not change what is dashed |
| `DashArray.ParseStrokeDashArray` | cad/PrusaSlicer/files/patch-src_libnanosvg_nanosvg.h:1762-1787 | nothing for a text that begins with n; else the values of the first eight items made positive, or none if they add up to 1e-6 or less |
| `DashArray.GetNextDashItem` | cad/PrusaSlicer/files/patch-src_libnanosvg_nanosvg.h:1746-1760 | the next item cut to 63 characters, empty only at the end of the text |
| `DashArray.LengthsOfWritten` | cad/PrusaSlicer/files/patch-src_libnanosvg_nanosvg.h:1746-1780 | a list of items written with separators is read back item by item |
| `DashArray.DashesAre` | cad/PrusaSlicer/files/patch-src_libnanosvg_nanosvg.h:1762-1787 | of any list of lengths the first eight, made positive and in order, are kept if they add up to more than 1e-6, else none |
| `DashArray.ParsedIsPattern` | cad/PrusaSlicer/files/patch-src_libnanosvg_nanosvg.h:1762-1786 | what the parser lets through is a pattern the walk can follow |
| `Reports.ReportList.Attach` | cad/PrusaSlicer/files/patch-src_hidapi_libusb_hid.c:750-773 | the list gains the report at its end, loses its oldest when more than 31 were queued, and is to be signalled exactly when it was empty |
| `Reports.ReportList.ReturnData` | cad/PrusaSlicer/files/patch-src_hidapi_libusb_hid.c:1058-1071 | the first bytes of the oldest report are copied as far as they fit, nothing else in the buffer changes, and the report is unlinked |
| `Reports.ReportList.Clear` | cad/PrusaSlicer/files/patch-src_hidapi_libusb_hid.c:1260-1265 | the queue is emptied |
| `Reports.AttachedBounded` | cad/PrusaSlicer/files/patch-src_hidapi_libusb_hid.c:764-772 | the queue never exceeds 32 reports and drops only the oldest, only when full |
| `HidProtocol.RunSafe` | cad/PrusaSlicer/files/patch-src_hidapi_libusb_hid.c:735-861 | over all interleavings and any number of readers: mutual exclusion, the queue is the reports arrived and not gone in order and at most 32, every report is logged as read at most once, and nobody is blocked after the broadcast; what reads return is `HidResults.ResultComes` |
| `HidResults.ResultComes` | cad/PrusaSlicer/files/patch-src_hidapi_libusb_hid.c:1058-1159 | in every run, a reader comes to bytes only on a queue that is not empty: they are the first ones of its head, as many as the call of that reader asked for and the head has, and the head goes; to 0 only if the call must not wait and nothing is there or its wait has timed out; to -1 only on shutdown with nothing left or a wait that failed |
| `HidResults.ReadReturns` | cad/PrusaSlicer/files/patch-src_hidapi_libusb_hid.c:1075-1165 | in every run, what a read returns are the first bytes of a report that arrived, for its own arguments; a blocking read never returns 0 |
| `HidResults.ResultStays` | cad/PrusaSlicer/files/patch-src_hidapi_libusb_hid.c:1160-1165 | a result stands until its reader returns it |
| `HidResults.QueuedIsReturned` | cad/PrusaSlicer/files/patch-src_hidapi_libusb_hid.c:1093-1097 | a read that finds a report when it has got the mutex returns it |
| `HidDelivery.ArrivedIsDelivered` | cad/PrusaSlicer/files/patch-src_hidapi_libusb_hid.c:735-790 | in every run the reports that have been in the queue are those of the completed transfers, once and in order, but for the one being attached |
| `HidDelivery.EndsIff` | cad/PrusaSlicer/files/patch-src_hidapi_libusb_hid.c:776-797 | the transfer ends only if it is stopped or refused, not by a timeout, and then for good |
| `HidDelivery.LeavesIff` | cad/PrusaSlicer/files/patch-src_hidapi_libusb_hid.c:810-860 | the event thread leaves its loop exactly when it finds the device shut down or libusb fails for good, and never comes back |
| `HidProtocol.StepSafe` | cad/PrusaSlicer/files/patch-src_hidapi_libusb_hid.c:735-861 | every atomic step of every agent keeps that |
| `HidProtocol.BroadcastSafe` | cad/PrusaSlicer/files/patch-src_hidapi_libusb_hid.c:853-859 | broadcasting under the mutex leaves no reader asleep or about to sleep |
| `HidReaders.NobodyBlockedEver` | cad/PrusaSlicer/files/patch-src_hidapi_libusb_hid.c:853-859 | once the event thread has broadcast nobody is or becomes blocked however the run goes on |
| `HidReaders.FlagsStay` | cad/PrusaSlicer/files/patch-src_hidapi_libusb_hid.c:776-797 | neither flag is ever cleared |
| `HidReaders.NeverStuckIff` | cad/PrusaSlicer/files/patch-src_hidapi_libusb_hid.c:751-755 | no run leaves a reader asleep beside a queued report with nobody to wake it if and only if there is at most one reading thread |
| `HidReaders.OneReaderRun` | cad/PrusaSlicer/files/patch-src_hidapi_libusb_hid.c:1107-1112 | with one reader, being blocked on the condition implies an empty queue, in every run |
| `HidReaders.TwoReadersStuck` | cad/PrusaSlicer/files/patch-src_hidapi_libusb_hid.c:751-773 | for any two of the readers a concrete run that strands one of them |
| `HidReaders.BlockingReadFails` | cad/PrusaSlicer/files/patch-src_hidapi_libusb_hid.c:1098-1115 | a blocking read returns -1 only when shutdown is set and the queue is empty |
| `HidReaders.CloseEmpties` | cad/PrusaSlicer/files/patch-src_hidapi_libusb_hid.c:1243-1265 | from the moment the close has found the queue empty nothing enters it again |
| `HidProgress.CloseCanComplete` | cad/PrusaSlicer/files/patch-src_hidapi_libusb_hid.c:735-861 | no run is a dead end: from every reachable state, for any number of readers, the threads that are already inside can go on until the event thread has broadcast, the close has returned and so has every read, without new reads or reports |
| `Sanitize.CopyPathRelative` | archivers/unarj/files/sanitize.c:20-81 | for every buffer of at least one byte all accesses are in bounds, nothing behind the buffer changes and the result is terminated: the normalised path, or the first path on the way that does not fit, cut off; the former whenever the source is shorter than the buffer |
| `Sanitize.Push` | archivers/unarj/files/sanitize.c:63-77 | separator and component are appended as far as they fit, and the room `len` shrinks by what was written: `(o - dest) + len` keeps its value |
| `Sanitize.Pop` | archivers/unarj/files/sanitize.c:40-62 | cutting at the last slash drops exactly the last component, and both additions to `len` give back what was cut |
| `Sanitize.FittedWhole` | archivers/unarj/files/sanitize.c:28-80 | the whole normalised path results whenever the path never outgrows the buffer on the way |
| `Sanitize.ShortSourceFits` | archivers/unarj/files/sanitize.c:18-19 | a source shorter than the buffer never outgrows it |
| `Sanitize.SanitizedIff` | archivers/unarj/files/sanitize.c:28-80 | for every source and buffer the normalised path results if and only if the path never outgrows the buffer on the way or its cut happens to be that path |
| `Sanitize.SanitizedIffPeak` | archivers/unarj/files/sanitize.c:28-80 | if the normalised path does not just fill the buffer, it results if and only if the path never outgrows the buffer on the way |
| `Sanitize.FittedCut` | archivers/unarj/files/sanitize.c:63-80 | a path that outgrows the buffer fills it to the last byte |
| `Sanitize.ShortBufferCuts` | archivers/unarj/files/sanitize.c:71-80 | for a buffer of 4 bytes and "a/bb/.." the result is "a/b" and not the normalised "a" |
| `Sanitize.CutCanCoincide` | archivers/unarj/files/sanitize.c:71-80 | for a buffer of 4 bytes "a/bbb/../b" outgrows it and still ends as its normalised path |
| `PathText.SanitizedIdempotent` | archivers/unarj/files/sanitize.c:18-19 | no component of the result is empty, "." or "..", and sanitising again changes nothing |
| `PathText.LastSlashPops` | archivers/unarj/files/sanitize.c:46-58 | the textual pop agrees with the pop of the component stack |
| `PathText.ComponentsOfJoin` | archivers/unarj/files/sanitize.c:28-32 | splitting undoes joining |
| `PathText.NormalizeProper` | archivers/unarj/files/sanitize.c:34-62 | normalising leaves proper components only |
| `PathLaws.UpCancels` | archivers/unarj/files/sanitize.c:40-62 | ".." anywhere cancels the proper component in front of it |
| `PathLaws.UpAtTop` | archivers/unarj/files/sanitize.c:59-62 | ".." at the top is left out |
| `PathLaws.DotVanishes` | archivers/unarj/files/sanitize.c:34-38 | "." anywhere is left out |
| `PathLaws.SlashesVanish` | archivers/unarj/files/sanitize.c:26-32 | however many slashes stand in front of, between and behind the components, they are found |
| `DepChain.PortCache.GetRtDeps` | Tools/scripts/chkdepschain.py:190-199 | from any state of the caches, on an acyclic graph, the call terminates with the list the graph alone determines, and leaves every cache right |
| `DepChain.PortCache.GetBtDeps` | Tools/scripts/chkdepschain.py:179-188 | the same for the build-time list |
| `DepChain.PortCache.GetPi` | Tools/scripts/chkdepschain.py:111-115 | the cached object of the absolute path, or a new one; ports are only added |
| `DepChain.PortInfo.GetDeps` | Tools/scripts/chkdepschain.py:169-177 | the cached triple equals the recomputed one |
| `DepGraph.RunListIsReachable` | Tools/scripts/chkdepschain.py:190-199 | that list holds exactly the ports reachable by one or more LIB or RUN edges |
| `DepGraph.BuildListIsReachable` | Tools/scripts/chkdepschain.py:179-188 | and the build-time list the BUILD and LIB dependencies with all they reach by LIB and RUN edges |
| `DepNeeds.RunListIsNeeded` | Tools/scripts/chkdepschain.py:190-199 | from the entries of the variables alone: the run-time list holds exactly what a chain of LIB or RUN entries leads to |
| `DepNeeds.BuildListIsNeeded` | Tools/scripts/chkdepschain.py:179-188 | the build-time list holds exactly what a BUILD or LIB entry and then a chain of LIB or RUN entries leads to |
| `DepNeeds.RunListDistinct` | Tools/scripts/chkdepschain.py:190-199 | the list begins with the direct dependencies in order, and holds no port twice if no port names one twice |
| `DepGraph.MissingIs` | Tools/scripts/chkdepschain.py:184-185 | the filter keeps exactly what is not yet there |
| `PathParser.Parser.ParsePath` | cad/PrusaSlicer/files/patch-src_libnanosvg_nanosvg.h:2266-2410 | every path string is parsed to its end with all buffer accesses in bounds, and the stored paths are those of the command machine over any number conversion, transform and arc |
| `PathData.PathsOfOk` | cad/PrusaSlicer/files/patch-src_libnanosvg_nanosvg.h:1032-1083 | every stored path has at least four points, 1 + 3n of them, and ends where it began if it is closed |
| `PathData.FeedOk` | cad/PrusaSlicer/files/patch-src_libnanosvg_nanosvg.h:2303-2402 | every item keeps the point buffer empty or at 1 + 3n points ending in the current point, and at most six collected arguments |
| `PathData.CommittedOk` | cad/PrusaSlicer/files/patch-src_libnanosvg_nanosvg.h:1040-1048 | a buffer of four points or more always becomes a path: the second rejection never happens |
| `PathData.DrawnConnects` | cad/PrusaSlicer/files/patch-src_libnanosvg_nanosvg.h:1973-2264 | every drawing command draws a chain of curves from the current point to the new one, given that the cubics of an arc do |
| `PathData.ElevatedIsSame` | cad/PrusaSlicer/files/patch-src_libnanosvg_nanosvg.h:726-729 | the stored cubic is the straight line, the quadratic or the cubic curve at every parameter |
| `PathGrammar.MachinePerformsGrammar` | cad/PrusaSlicer/files/patch-src_libnanosvg_nanosvg.h:2303-2402 | for legal path data the machine with its growing argument list executes the commands group by group, with implicit repetition and linetos after a moveto |
| `PathMeaning.DataMatches` | cad/PrusaSlicer/files/patch-src_libnanosvg_nanosvg.h:2266-2410 | for all legal data the state of the machine is, command by command, the drawing of section 8.3 of SVG 1.1 with the implied control points of the code: pen, finished subpaths and the points of the current one |
| `PathMeaning.TextIsDrawn` | cad/PrusaSlicer/files/patch-src_libnanosvg_nanosvg.h:2266-2410 | from text to stored paths: legal data, written with or without blanks, is stored as exactly the subpaths it draws |
| `PathStored.StoredTraces` | cad/PrusaSlicer/files/patch-src_libnanosvg_nanosvg.h:1032-1072 | the cubics of a stored path are, before the transform, the curves that were drawn, at every parameter |
| `PathStored.SubpathsJoin` | cad/PrusaSlicer/files/patch-src_libnanosvg_nanosvg.h:1032-1083 | the curves of every subpath of legal data join |
| `PathStored.SegmentTraces` | cad/PrusaSlicer/files/patch-src_libnanosvg_nanosvgrast.h:400-404 | segment i that the rasterizer flattens runs where curve i of the data runs, transformed and scaled, at every parameter |
| `PathMeaning.StepMeantIff` | cad/PrusaSlicer/files/patch-src_libnanosvg_nanosvg.h:2032-2128 | a command draws what section 8.3 says if and only if it is not a smooth curve after a command of another kind with a control point apart from the pen |
| `PathMeaning.MeaningIff` | cad/PrusaSlicer/files/patch-src_libnanosvg_nanosvg.h:2032-2128 | for all legal data the subpaths are those of section 8.3 if and only if nowhere S or s follows Q, q, T or t, nor T or t follows C, c, S or s, where the last control point is apart from the current point |
| `PathMeaning.NothingWithoutMove` | cad/PrusaSlicer/files/patch-src_libnanosvg_nanosvg.h:2376-2384 | whatever the text, without a moveto nothing is drawn |
| `PathMeaning.CubicAfterQuad` | cad/PrusaSlicer/files/patch-src_libnanosvg_nanosvg.h:2032-2060 | the subpath of "M 0 0 Q 1 1 2 0 S 3 1 4 0" has control point (3, -1) where section 8.3 gives (2, 0) |
| `PathMeaning.QuadAfterCubic` | cad/PrusaSlicer/files/patch-src_libnanosvg_nanosvg.h:2096-2128 | the subpath of "M 0 0 C 0 1 2 1 2 0 T 4 0" has control point (2, -1) where section 8.3 gives (2, 0) |
| `PathGrammar.FeedGroup` | cad/PrusaSlicer/files/patch-src_libnanosvg_nanosvg.h:2311-2314 | numbers are collected until the command is complete and then executed once |
| `PathPrint.PrintedDataIsPerformed` | cad/PrusaSlicer/files/patch-src_libnanosvg_nanosvg.h:1203-1232 | writing data of the grammar of section 8.3.9 of SVG 1.1, with any blanks between the items or with none where the next character cannot be part of the item or the item is a flag of an arc, and parsing the text performs exactly that data |
| `PathPrint.CompactText` | cad/PrusaSlicer/files/patch-src_libnanosvg_nanosvg.h:1203-1232 | "M1-2a1 1 0 0110 4" is such a text |
| `PathPrint.ReadBack` | cad/PrusaSlicer/files/patch-src_libnanosvg_nanosvg.h:1160-1232 | every number of the grammar up to 63 characters and every letter is read back as it is in front of every character that cannot be part of it, and a flag of an arc in front of anything |
| `PathLexer.ParseNumber` | cad/PrusaSlicer/files/patch-src_libnanosvg_nanosvg.h:1160-1201 | the scan ends where the number ends, which for numbers of the grammar is `PathNumbers.NumberIsRead`, and the item buffer holds its first 63 characters |
| `PathNumbers.NumberIsRead` | cad/PrusaSlicer/files/patch-src_libnanosvg_nanosvg.h:1160-1201 | every number of the grammar, with or without sign, point, fraction and exponent, is read to its end |
| `PathLexer.GetNextPathItem` | cad/PrusaSlicer/files/patch-src_libnanosvg_nanosvg.h:1216-1232 | the next item, empty only at the end of the string |
| `PathLexer.GetNextPathItemWhenArcFlag` | cad/PrusaSlicer/files/patch-src_libnanosvg_nanosvg.h:1203-1214 | a single digit 0 or 1, or nothing |
| `PathParser.Parser.LineTo` | cad/PrusaSlicer/files/patch-src_libnanosvg_nanosvg.h:726-738 | the three points added make the straight line from the last point |
| `PathParser.Parser.PathQuadBezTo` | cad/PrusaSlicer/files/patch-src_libnanosvg_nanosvg.h:2062-2128 | the elevated quadratic curve is added and the pen moves to its end |
| `PathParser.Parser.PathCubicBezTo` | cad/PrusaSlicer/files/patch-src_libnanosvg_nanosvg.h:2003-2060 | absolute, relative and smooth forms of the cubic command |
| `PathParser.Parser.AddPath` | cad/PrusaSlicer/files/patch-src_libnanosvg_nanosvg.h:1032-1072 | the buffer, closed by a line if asked for, becomes a stored path |
| `PathParser.Parser.ExecuteCommand` | cad/PrusaSlicer/files/patch-src_libnanosvg_nanosvg.h:2314-2370 | the switch does what the command means and leaves the stored paths alone |
| `PathParser.Parser.BeginCommand` | cad/PrusaSlicer/files/patch-src_libnanosvg_nanosvg.h:2372-2402 | paths are committed before a moveto and by a closepath, and commands before the first point are ignored |
| `AttrStack.LevelIff` | cad/PrusaSlicer/files/patch-src_libnanosvg_nanosvg.h:2762-2816 | every element at any depth leaves the head where it was if and only if the guards hold: a free frame for each pushing element, and groups inside `defs` only at the bottom of the stack |
| `AttrStack.Scoped` | cad/PrusaSlicer/files/patch-src_libnanosvg_nanosvg.h:752-764 | then no element changes a frame below the head, and a group outside `defs` also restores the head frame |
| `AttrStack.NestFitsIff` | cad/PrusaSlicer/files/patch-src_libnanosvg_nanosvg.h:754-754 | k nested groups fit above n frames if and only if k + n <= 128 |
| `AttrStack.TooDeep` | cad/PrusaSlicer/files/patch-src_libnanosvg_nanosvg.h:752-764 | a group on a full stack leaves the head one lower |
| `AttrStack.GroupInDefs` | cad/PrusaSlicer/files/patch-src_libnanosvg_nanosvg.h:2766-2776 | a group inside `defs` inside a group pops the frame of the outer one |
| `AttrStack.RunIsWalk` | cad/PrusaSlicer/files/patch-src_libnanosvg_nanosvg.h:2762-2816 | handling the tag stream of a tree is walking the tree |
| `AttrStack.AttrParser.ParseEvents` | cad/PrusaSlicer/files/patch-src_libnanosvg_nanosvg.h:2762-2816 | for any stream at all the head stays within the 128 frames, and the frames are those of the abstract stack |
| `AttrStack.AttrParser.StartElement` | cad/PrusaSlicer/files/patch-src_libnanosvg_nanosvg.h:2762-2805 | the dispatch on the element name, `defs` first; what it achieves is `AttrInheritance.DocumentInherits` |
| `AttrInheritance.WalkInherits` | cad/PrusaSlicer/files/patch-src_libnanosvg_nanosvg.h:2762-2816 | for every tree the stack has room for, each shape is drawn with the frame around it changed by the enclosing `svg` and groups from the outside in and then by its own attributes; those of finished siblings have gone, but for `svg` and gradients, and inside `defs` only gradients act |
| `AttrInheritance.DocumentInherits` | cad/PrusaSlicer/files/patch-src_libnanosvg_nanosvg.h:2762-2816 | the same for a whole document from the first frame on |
| `AttrStack.AttrParser.PushAttr` | cad/PrusaSlicer/files/patch-src_libnanosvg_nanosvg.h:752-758 | the head frame is copied up, unless the stack is full |
| `OssPointer.Oss.Pointer` | audio/linux-c7-alsa-plugins-oss/files/patch-oss-pcm_oss.c:100-133 | the counters advance by the unwrapped distance, and not at all on an underrun or a failed request |
| `OssPointer.Oss.Start` | audio/linux-c7-alsa-plugins-oss/files/patch-oss-pcm_oss.c:198-221 | the buffer size and position of the device are taken over |
| `OssPointer.PointerTracks` | audio/linux-c7-alsa-plugins-oss/files/patch-oss-pcm_oss.c:126-133 | over any run of polls the pointer is the distance run through less the whole buffers that passed unseen, and the last report is kept |
| `OssPointer.PointerRightIff` | audio/linux-c7-alsa-plugins-oss/files/patch-oss-pcm_oss.c:126-133 | it is right if and only if these add up to whole rounds of the pointer |
| `OssPointer.FrequentPollsAreExact` | audio/linux-c7-alsa-plugins-oss/files/patch-oss-pcm_oss.c:126-133 | with less than one buffer between polls it is exact |
| `OssPointer.LatePollIsWrong` | audio/linux-c7-alsa-plugins-oss/files/patch-oss-pcm_oss.c:126-133 | a run in which it is not |
| `PowersOfTwo.RoundUp` | audio/alsa-plugins/files/patch-oss_pcm__oss.c:350-352 | adding the lowest set bit ends in the least power of two that is at least the start; 0 stays 0 |
| `PowersOfTwo.LowBitByMask` | audio/alsa-plugins/files/patch-oss_pcm__oss.c:351-352 | the two masks clear and isolate the lowest set bit |
| `PowersOfTwo.MaskZeroIff` | audio/alsa-plugins/files/patch-oss_pcm__oss.c:351-351 | the loop condition fails exactly at powers of two |
| `PowersOfTwo.LogTwo` | audio/alsa-plugins/files/patch-oss_pcm__oss.c:354-358 | the logarithm of a power below 2^24, else 24 |
| `PowersOfTwo.BlockCount` | audio/alsa-plugins/files/patch-oss_pcm__oss.c:366-370 | the least power of two from 2 on whose blocks hold the buffer, or 4096; no product leaves 32 bits for buffers up to 2^30 |
| `PowersOfTwo.SizeFragments` | audio/alsa-plugins/files/patch-oss_pcm__oss.c:347-370 | the block size is the least power of two that holds the wanted bytes if and only if there are any and at most 2^24 of them, else 2^24; the block count is the least from 2 on whose blocks hold the buffer, or 4096 |
| `PowersOfTwo.SmearUp` | audio/faudio/files/patch-src_FAudio__platform__sdl2.c:13-19 | on 16 bits the smear gives the least power of two for 1..32768 and 0 for every other value |
| `PowersOfTwo.SmearFills` | audio/faudio/files/patch-src_FAudio__platform__sdl2.c:14-18 | after the five steps all bits below the highest are set |
| `PowersOfTwo.SameRounding` | audio/faudio/files/patch-src_FAudio__platform__sdl2.c:9-19 | both algorithms agree on 1..32768 |

## Left out

- The geometry of strokes: joins, caps, bevels and the cross products of `nsvg__prepareStroke`; the segments the stroker adds to the edge list are a parameter, and the dash walk stops at the point lists it hands to the stroker.
- Float rounding; conversion of numbers (`nsvg__atof`); trigonometry of arcs, of which only that its cubics join start and end is used.
- The miter limit, point flags other than the corner flag, and path bounds.
- `qsort`, `malloc` failure and the early exits on it.
- Gradient spread modes, which the blitter ignores, and the conversion of gradient units; a gradient is given with its final transform. Packing of colours into words.
- XML tokenising, style strings, units, colours and the shape elements other than paths; an element's attributes are one function on the current frame. `pathFlag`, which nothing ever sets.
- Freeing the HID device: readers are assumed to have left before `hid_close` frees it. Device enumeration, feature reports, the hand-written barrier, and cancellation of threads.
- Memory ordering weaker than program order for the two flags that are written outside the mutex.
- The branch of `oss_pointer` that works from free space instead of pointers, and everything else that is ioctl.
- A dependency cycle makes the closures recurse without end; make(1)'s answers are assumed acyclic at run time.
- The duplicate of the OSS plugin for another Linux base, diffs that show only fragments of an algorithm, and the command-line, database and network tools.
- Rasterize.RasterizeXY: the segments of a stroke's outline are a parameter, because joins and caps are not modelled; paints whose gradient has fewer than two stops are excluded, because the source then reads outside the stop array (`Paints.InitPaint`); after the run the bitmap pointer is kept where the source clears it, while width, height and stride become 0 as there.
- Rasterize.StrokeEdgesOk: holds for any segments, and so does not say which ones the stroker adds nor that they balance.
- What a read outside the stop array would yield: the model reports it and stops there.
- DashWalk.Walk: ends at the point lists given to the stroker; whether a stroked piece has been through `nsvg__prepareStroke` first is not modelled; the source skips that for the last piece.
- DashArray.ParseStrokeDashArray: the value of an item with its unit is a parameter.
- PathParser.Parser.ParsePath: conversion of numbers, the cubics of an arc and the loop over the other attributes of the element are not modelled; the first two are parameters.
- PowersOfTwo.RoundUp: the width of the variable is not modelled; more than 2^30 wanted bytes would leave a signed 32-bit one.
- PathData.DrawnConnects: that the cubics of an arc join its start to its end is assumed, because they come from trigonometry.
- Sanitize.CopyPathRelative: a buffer of no bytes is excluded; the source writes its first byte before looking at the length.
