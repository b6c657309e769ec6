/** `nsvgRasterizeXY`: clears the image, draws every visible shape's fill and stroke over it and divides the
    result by alpha. */
module Rasterize {
  import opened Images
  import opened Edges
  import opened Flatten
  import opened ActiveEdges
  import opened MemPool
  import opened Scan
  import opened Coverage
  import opened Blend
  import opened Paints
  import opened Sweep
  import opened Raster
  import opened Unpremultiply

  /** `NSVGshape`, as far as drawing goes. `outline` gives, for a scale, the pairs of points that the stroker
      passes to `nsvg__addEdge`. */
  datatype Shape = Shape(visible: bool, paths: seq<PathPts>, fill: ShapePaint, fillRule: FillRule,
                         stroke: ShapePaint, strokeWidth: real, outline: (real, real) -> seq<(Pt, Pt)>, opacity: real)
  {
    predicate Filled() {
      visible && !fill.NoPaint?
    }

    predicate Stroked(sx: real) {
      visible && !stroke.NoPaint? && strokeWidth * sx > 0.01
    }

    /** The parser sorts gradient stops; the paint cache needs two of them. */
    ghost predicate Usable() {
      && (fill.NoPaint? || (fill.Drawable() && fill.Ordered()))
      && (stroke.NoPaint? || (stroke.Drawable() && stroke.Ordered()))
    }
  }

  function SegmentEdges(segments: seq<(Pt, Pt)>): seq<Edge> {
    if segments == [] then []
    else SegmentEdges(segments[..|segments| - 1])
         + EdgeOf(segments[|segments| - 1].0, segments[|segments| - 1].1)
  }

  lemma {:induction false} SegmentEdgesWellFormed(segments: seq<(Pt, Pt)>)
    ensures AllWellFormed(SegmentEdges(segments))
  {
    if segments != [] {
      SegmentEdgesWellFormed(segments[..|segments| - 1]);
    }
  }

  /** The contract of `qsort` with `nsvg__cmpEdge`. */
  ghost predicate Sorts(sort: seq<Edge> -> seq<Edge>) {
    forall es :: multiset(sort(es)) == multiset(es) && SortedByY0(sort(es))
  }

  /** One call of `nsvg__rasterizeSortedEdges`. */
  datatype Job = Job(edges: seq<Edge>, paint: Paint, rule: FillRule)

  function FillJob(s: Shape, view: View, sort: seq<Edge> -> seq<Edge>): Job
    requires s.fill.Drawable()
  {
    Job(sort(PlaceEdges(ShapeEdges(s.paths, view.sx, view.sy), view.tx, view.ty)), Cached(s.fill, s.opacity),
        s.fillRule)
  }

  function StrokeJob(s: Shape, view: View, sort: seq<Edge> -> seq<Edge>): Job
    requires s.stroke.Drawable()
  {
    Job(sort(PlaceEdges(SegmentEdges(s.outline(view.sx, view.sy)), view.tx, view.ty)), Cached(s.stroke, s.opacity),
        NonZero)
  }

  function ShapeJobs(s: Shape, view: View, sort: seq<Edge> -> seq<Edge>): seq<Job>
    requires s.Usable()
  {
    (if s.Filled() then [FillJob(s, view, sort)] else [])
    + (if s.Stroked(view.sx) then [StrokeJob(s, view, sort)] else [])
  }

  /** All drawing, in document order: the fill of a shape before its stroke. */
  function AllJobs(shapes: seq<Shape>, view: View, sort: seq<Edge> -> seq<Edge>): seq<Job>
    requires forall s :: s in shapes ==> s.Usable()
  {
    if shapes == [] then []
    else AllJobs(shapes[..|shapes| - 1], view, sort) + ShapeJobs(shapes[|shapes| - 1], view, sort)
  }

  /** A job together with the active lists of its sub-scanlines. */
  datatype Layer = Layer(job: Job, rows: seq<seq<seq<Cell>>>)

  ghost predicate LayerOk(l: Layer, h: nat) {
    && AllWellFormed(l.job.edges) && SortedByY0(l.job.edges) && |l.rows| == h
    && forall y: nat :: y < h ==> |l.rows[y]| == SUBSAMPLES && RowOk(l.job.edges, SUBSAMPLES * y, l.rows[y])
  }

  ghost predicate LayersOk(layers: seq<Layer>, h: nat) {
    forall l :: l in layers ==> LayerOk(l, h)
  }

  function JobsOf(layers: seq<Layer>): (jobs: seq<Job>)
    ensures |jobs| == |layers| && forall i :: 0 <= i < |layers| ==> jobs[i] == layers[i].job
  {
    seq(|layers|, i requires 0 <= i < |layers| => layers[i].job)
  }

  /** The coverage of pixel (y, x) by one layer. */
  function CoverOf(l: Layer, y: nat, x: nat): nat
    requires y < |l.rows|
  {
    RowSum(l.rows[y], |l.rows[y]|, l.job.rule, x)
  }

  /** Pixel (y, x) after the first `n` layers: source-over compositing on a transparent background. */
  ghost function Composite(layers: seq<Layer>, n: nat, view: View, h: nat, y: nat, x: nat): Pixel
    requires n <= |layers| && LayersOk(layers, h) && y < h && view.Valid()
  {
    if n == 0 then Pixel(0, 0, 0, 0)
    else
      var l := layers[n - 1];
      assert LayerOk(l, h);
      Over(DeviceColor(l.job.paint, view, x, y), TruncByte(CoverOf(l, y, x)), Composite(layers, n - 1, view, h, y, x))
  }

  /** Every pixel of every composite is premultiplied, and every coverage fits its byte. */
  lemma {:induction false} CompositePremultiplied(layers: seq<Layer>, n: nat, view: View, h: nat, y: nat, x: nat)
    requires n <= |layers| && LayersOk(layers, h) && y < h && view.Valid()
    ensures Composite(layers, n, view, h, y, x).Premultiplied()
    ensures n > 0 ==> LayerOk(layers[n - 1], h) && CoverOf(layers[n - 1], y, x) <= 255
  {
    hide Over, DeviceColor, RowSum, RowOk, TruncByte;
    if n > 0 {
      var l := layers[n - 1];
      assert LayerOk(l, h);
      CompositePremultiplied(layers, n - 1, view, h, y, x);
      RowSumAtMost(l.job.edges, SUBSAMPLES * y, l.rows[y], SUBSAMPLES, l.job.rule, x);
      OverPremultiplied(DeviceColor(l.job.paint, view, x, y), TruncByte(CoverOf(l, y, x)),
                        Composite(layers, n - 1, view, h, y, x));
    }
  }

  lemma {:induction false} CompositePrefix(layers: seq<Layer>, more: seq<Layer>, n: nat, view: View, h: nat, y: nat,
                                           x: nat)
    requires n <= |layers| && LayersOk(layers, h) && LayersOk(layers + more, h) && y < h && view.Valid()
    ensures Composite(layers + more, n, view, h, y, x) == Composite(layers, n, view, h, y, x)
  {
    hide Over, DeviceColor, RowSum, RowOk, TruncByte;
    if n > 0 {
      assert LayerOk(layers[n - 1], h);
      CompositePrefix(layers, more, n - 1, view, h, y, x);
    }
  }

  /** The image shows the composite of the layers. */
  ghost predicate Shows(img: seq<byte>, w: nat, h: nat, stride: nat, layers: seq<Layer>, view: View)
    requires Fits(|img|, w, h, stride) && view.Valid() && LayersOk(layers, h)
  {
    forall y: nat, x: nat :: y < h && x < w ==>
      Px(img, w, h, stride, y, x) == Composite(layers, |layers|, view, h, y, x)
  }

  lemma ShowsNothing(img: seq<byte>, w: nat, h: nat, stride: nat, view: View)
    requires Fits(|img|, w, h, stride) && view.Valid()
    requires forall y: nat, x: nat :: y < h && x < w ==> Px(img, w, h, stride, y, x) == Pixel(0, 0, 0, 0)
    ensures LayersOk([], h) && Shows(img, w, h, stride, [], view)
  {
  }

  /** Drawing one job adds one layer. */
  lemma ShowsOneMore(was: seq<byte>, now: seq<byte>, w: nat, h: nat, stride: nat, layers: seq<Layer>, job: Job,
                     rows: seq<seq<seq<Cell>>>, view: View)
    requires |was| == |now| && Fits(|was|, w, h, stride) && view.Valid() && LayersOk(layers, h)
    requires AllWellFormed(job.edges) && SortedByY0(job.edges) && |rows| == h
    requires Shows(was, w, h, stride, layers, view)
    requires Drawn(was, now, w, h, stride, job.edges, rows, job.rule, view, job.paint)
    ensures LayersOk(layers + [Layer(job, rows)], h)
    ensures Shows(now, w, h, stride, layers + [Layer(job, rows)], view)
  {
    hide Over, DeviceColor, RowSum, RowOk, TruncByte, Px;
    var l := Layer(job, rows);
    var layers' := layers + [l];
    assert LayerOk(l, h);
    forall y: nat, x: nat | y < h && x < w
      ensures Px(now, w, h, stride, y, x) == Composite(layers', |layers'|, view, h, y, x)
    {
      CompositePrefix(layers, [l], |layers|, view, h, y, x);
    }
  }

  /** The edges of a fill are well formed, sorted and balanced. */
  lemma FillEdgesOk(s: Shape, view: View, sort: seq<Edge> -> seq<Edge>)
    requires Sorts(sort) && s.fill.Drawable()
    ensures var es := FillJob(s, view, sort).edges; AllWellFormed(es) && SortedByY0(es) && Balanced(es)
  {
    hide Balanced, AllWellFormed, SortedByY0;
    var shape := ShapeEdges(s.paths, view.sx, view.sy);
    var placed := PlaceEdges(shape, view.tx, view.ty);
    ShapeBalanced(s.paths, view.sx, view.sy);
    PlaceBalanced(shape, view.tx, view.ty);
    assert multiset(sort(placed)) == multiset(placed) && SortedByY0(sort(placed));
    BalancedPermutation(placed, sort(placed));
  }

  lemma StrokeEdgesOk(s: Shape, view: View, sort: seq<Edge> -> seq<Edge>)
    requires Sorts(sort) && s.stroke.Drawable()
    ensures var es := StrokeJob(s, view, sort).edges; AllWellFormed(es) && SortedByY0(es)
  {
    hide SortedByY0;
    var segments := SegmentEdges(s.outline(view.sx, view.sy));
    var placed := PlaceEdges(segments, view.tx, view.ty);
    SegmentEdgesWellFormed(s.outline(view.sx, view.sy));
    assert multiset(sort(placed)) == multiset(placed) && SortedByY0(sort(placed));
    forall e | e in sort(placed) ensures e.WellFormed() {
      assert e in multiset(placed);
      var i :| 0 <= i < |placed| && placed[i] == e;
      assert segments[i].WellFormed();
    }
  }

  /** The clearing loop. */
  method ClearImage(dst: array<byte>, w: nat, h: nat, stride: nat)
    requires Fits(dst.Length, w, h, stride)
    modifies dst
    ensures forall y: nat, x: nat :: y < h && x < w ==> Px(dst[..], w, h, stride, y, x) == Pixel(0, 0, 0, 0)
  {
    var i := 0;
    while i < h
      invariant i <= h
      invariant forall y: nat, x: nat :: y < i && x < w ==> Px(dst[..], w, h, stride, y, x) == Pixel(0, 0, 0, 0)
    {
      ghost var before := dst[..];
      RowInRange(dst.Length, w, h, stride, i);
      ClearBytes(dst, i * stride, 4 * w);
      forall y: nat, x: nat | y <= i && x < w ensures Px(dst[..], w, h, stride, y, x) == Pixel(0, 0, 0, 0) {
        OffsetInRange(dst.Length, w, h, stride, y, x);
        if y < i {
          RowsApart(w, stride, y, i);
          assert Px(before, w, h, stride, y, x) == Pixel(0, 0, 0, 0);
        }
      }
      i := i + 1;
    }
  }

  method ClearBytes(dst: array<byte>, at: nat, count: nat)
    requires at + count <= dst.Length
    modifies dst
    ensures forall k :: at <= k < at + count ==> dst[k] == 0
    ensures forall k :: 0 <= k < dst.Length && !(at <= k < at + count) ==> dst[k] == old(dst[k])
  {
    var i := 0;
    while i < count
      invariant i <= count
      invariant forall k :: at <= k < at + i ==> dst[k] == 0
      invariant forall k :: 0 <= k < dst.Length && !(at <= k < at + i) ==> dst[k] == old(dst[k])
    {
      dst[at + i] := 0;
      i := i + 1;
    }
  }

  /** Places the edges in the image and sorts them. */
  method PlaceAndSort(f: Flattener, view: View, sort: seq<Edge> -> seq<Edge>)
    requires Sorts(sort)
    modifies f`edges
    ensures f.edges == sort(PlaceEdges(old(f.edges), view.tx, view.ty))
  {
    ghost var was := f.edges;
    var i := 0;
    while i < |f.edges|
      invariant 0 <= i <= |f.edges| == |was|
      invariant forall k :: 0 <= k < |was| ==>
                  f.edges[k] == if k < i then PlaceEdge(was[k], view.tx, view.ty) else was[k]
    {
      var e := f.edges[i];
      f.edges := f.edges[i := Edge(view.tx + e.x0, (view.ty + e.y0) * SUBSAMPLES as real,
                                   view.tx + e.x1, (view.ty + e.y1) * SUBSAMPLES as real, e.dir)];
      i := i + 1;
    }
    assert f.edges == PlaceEdges(was, view.tx, view.ty);
    if |f.edges| != 0 {
      f.edges := sort(f.edges);
    } else {
      assert multiset(sort(f.edges)) == multiset(f.edges);
      assert |multiset(sort(f.edges))| == 0;
    }
  }

  /** The edges of a stroke, segment by segment. */
  method AddSegments(f: Flattener, segments: seq<(Pt, Pt)>)
    modifies f`edges
    ensures f.edges == old(f.edges) + SegmentEdges(segments)
  {
    hide EdgeOf;
    var k := 0;
    while k < |segments|
      invariant 0 <= k <= |segments|
      invariant f.edges == old(f.edges) + SegmentEdges(segments[..k])
    {
      f.AddEdge(segments[k].0.x, segments[k].0.y, segments[k].1.x, segments[k].1.y);
      assert segments[..k + 1][..k] == segments[..k];
      k := k + 1;
    }
    assert segments[..k] == segments;
  }

  /** `image` shows the composite of the layers, and the layers are right. */
  ghost predicate Drawing(img: seq<byte>, w: nat, h: nat, stride: nat, layers: seq<Layer>, view: View) {
    Fits(|img|, w, h, stride) && view.Valid() && LayersOk(layers, h) && Shows(img, w, h, stride, layers, view)
  }

  lemma JobsOfAppend(layers: seq<Layer>, l: Layer)
    ensures JobsOf(layers + [l]) == JobsOf(layers) + [l.job]
  {
  }

  /** `nsvg__resetPool`, then one call of `nsvg__rasterizeSortedEdges`. */
  method DrawJob(r: Rasterizer, edges: seq<Edge>, paint: Paint, rule: FillRule, view: View, ghost layers: seq<Layer>)
    returns (ghost layers': seq<Layer>)
    requires r.Valid() && AllWellFormed(edges) && SortedByY0(edges)
    requires Drawing(r.bitmap[..], r.width, r.height, r.stride, layers, view)
    modifies r.scanline, r.bitmap
    modifies r.sweep`made, r.sweep`own, r.sweep.pool, r.sweep.pool.space, r.sweep.active, r.sweep.freelist, r.sweep.own
    ensures r.Valid() && r.sweep.OnlyNew(old(r.sweep.own), old(r.sweep.pool.space))
    ensures Drawing(r.bitmap[..], r.width, r.height, r.stride, layers', view)
    ensures JobsOf(layers') == JobsOf(layers) + [Job(edges, paint, rule)]
  {
    hide AllWellFormed, SortedByY0, SweepState.Memory, SweepState.Lists, Fits, Drawn, Shows, LayersOk, JobsOf;
    ghost var was := r.bitmap[..];
    r.sweep.Reset();
    ghost var rows := r.RasterizeSortedEdges(edges, view, paint, rule);
    ShowsOneMore(was, r.bitmap[..], r.width, r.height, r.stride, layers, Job(edges, paint, rule), rows, view);
    layers' := layers + [Layer(Job(edges, paint, rule), rows)];
    JobsOfAppend(layers, Layer(Job(edges, paint, rule), rows));
  }

  /** Flattens, places and sorts the edges of a fill. */
  method FillEdges(f: Flattener, s: Shape, view: View, sort: seq<Edge> -> seq<Edge>)
    requires Sorts(sort) && s.fill.Drawable()
    modifies f
    ensures f.edges == FillJob(s, view, sort).edges && AllWellFormed(f.edges) && SortedByY0(f.edges)
  {
    hide AllWellFormed, SortedByY0, Sorts, Cached;
    f.edges := [];
    f.FlattenShape(s.paths, view.sx, view.sy);
    PlaceAndSort(f, view, sort);
    FillEdgesOk(s, view, sort);
    assert [] + ShapeEdges(s.paths, view.sx, view.sy) == ShapeEdges(s.paths, view.sx, view.sy);
  }

  /** Flattens, places and sorts the edges of a stroke. */
  method StrokeEdges(f: Flattener, s: Shape, view: View, sort: seq<Edge> -> seq<Edge>)
    requires Sorts(sort) && s.stroke.Drawable()
    modifies f
    ensures f.edges == StrokeJob(s, view, sort).edges && AllWellFormed(f.edges) && SortedByY0(f.edges)
  {
    hide AllWellFormed, SortedByY0, Sorts, Cached;
    f.edges := [];
    AddSegments(f, s.outline(view.sx, view.sy));
    PlaceAndSort(f, view, sort);
    StrokeEdgesOk(s, view, sort);
    assert [] + SegmentEdges(s.outline(view.sx, view.sy)) == SegmentEdges(s.outline(view.sx, view.sy));
  }

  method DrawFill(r: Rasterizer, f: Flattener, colors: array<Color>, s: Shape, view: View,
                  sort: seq<Edge> -> seq<Edge>, ghost layers: seq<Layer>) returns (ghost layers': seq<Layer>)
    requires r.Valid() && colors.Length == TABLE && Sorts(sort) && s.fill.Drawable() && s.fill.Ordered()
    requires Drawing(r.bitmap[..], r.width, r.height, r.stride, layers, view)
    modifies f, colors, r.scanline, r.bitmap
    modifies r.sweep`made, r.sweep`own, r.sweep.pool, r.sweep.pool.space, r.sweep.active, r.sweep.freelist, r.sweep.own
    ensures r.Valid() && r.sweep.OnlyNew(old(r.sweep.own), old(r.sweep.pool.space))
    ensures Drawing(r.bitmap[..], r.width, r.height, r.stride, layers', view)
    ensures JobsOf(layers') == JobsOf(layers) + [FillJob(s, view, sort)]
  {
    hide Rasterizer.Valid, Drawing, JobsOf, Sorts, AllWellFormed, SortedByY0, Cached;
    FillEdges(f, s, view, sort);
    var inBounds, cache := InitPaint(colors, s.fill, s.opacity);
    layers' := DrawJob(r, f.edges, cache, s.fillRule, view, layers);
  }

  method DrawStroke(r: Rasterizer, f: Flattener, colors: array<Color>, s: Shape, view: View,
                  sort: seq<Edge> -> seq<Edge>, ghost layers: seq<Layer>) returns (ghost layers': seq<Layer>)
    requires r.Valid() && colors.Length == TABLE && Sorts(sort) && s.stroke.Drawable() && s.stroke.Ordered()
    requires Drawing(r.bitmap[..], r.width, r.height, r.stride, layers, view)
    modifies f, colors, r.scanline, r.bitmap
    modifies r.sweep`made, r.sweep`own, r.sweep.pool, r.sweep.pool.space, r.sweep.active, r.sweep.freelist, r.sweep.own
    ensures r.Valid() && r.sweep.OnlyNew(old(r.sweep.own), old(r.sweep.pool.space))
    ensures Drawing(r.bitmap[..], r.width, r.height, r.stride, layers', view)
    ensures JobsOf(layers') == JobsOf(layers) + [StrokeJob(s, view, sort)]
  {
    hide Rasterizer.Valid, Drawing, JobsOf, Sorts, AllWellFormed, SortedByY0, Cached;
    StrokeEdges(f, s, view, sort);
    var inBounds, cache := InitPaint(colors, s.stroke, s.opacity);
    layers' := DrawJob(r, f.edges, cache, NonZero, view, layers);
  }

  /** The body of the loop over the shapes. */
  method DrawShape(r: Rasterizer, f: Flattener, colors: array<Color>, s: Shape, view: View,
                   sort: seq<Edge> -> seq<Edge>, ghost layers: seq<Layer>) returns (ghost layers': seq<Layer>)
    requires r.Valid() && colors.Length == TABLE && Sorts(sort) && s.Usable()
    requires Drawing(r.bitmap[..], r.width, r.height, r.stride, layers, view)
    modifies f, colors, r.scanline, r.bitmap
    modifies r.sweep`made, r.sweep`own, r.sweep.pool, r.sweep.pool.space, r.sweep.active, r.sweep.freelist, r.sweep.own
    ensures r.Valid() && r.sweep.OnlyNew(old(r.sweep.own), old(r.sweep.pool.space))
    ensures Drawing(r.bitmap[..], r.width, r.height, r.stride, layers', view)
    ensures JobsOf(layers') == JobsOf(layers) + ShapeJobs(s, view, sort)
  {
    hide Rasterizer.Valid, Drawing, JobsOf, Sorts, FillJob, StrokeJob;
    layers' := layers;
    ghost var fills := if s.Filled() then [FillJob(s, view, sort)] else [];
    ghost var strokes := if s.Stroked(view.sx) then [StrokeJob(s, view, sort)] else [];
    assert JobsOf(layers) + (fills + strokes) == JobsOf(layers) + fills + strokes;
    assert ShapeJobs(s, view, sort) == fills + strokes;
    if !s.visible {
      assert fills + strokes == [];
      return;
    }
    if !s.fill.NoPaint? {
      layers' := DrawFill(r, f, colors, s, view, sort, layers');
    }
    assert JobsOf(layers') == JobsOf(layers) + fills;
    if s.Stroked(view.sx) {
      layers' := DrawStroke(r, f, colors, s, view, sort, layers');
    }
    assert JobsOf(layers') == JobsOf(layers) + fills + strokes;
  }

  /** The loop over the shapes. */
  method DrawShapes(r: Rasterizer, f: Flattener, colors: array<Color>, shapes: seq<Shape>, view: View,
                    sort: seq<Edge> -> seq<Edge>) returns (ghost layers: seq<Layer>)
    requires r.Valid() && colors.Length == TABLE && Sorts(sort) && forall s :: s in shapes ==> s.Usable()
    requires Drawing(r.bitmap[..], r.width, r.height, r.stride, [], view)
    modifies f, colors, r.scanline, r.bitmap
    modifies r.sweep`made, r.sweep`own, r.sweep.pool, r.sweep.pool.space, r.sweep.active, r.sweep.freelist, r.sweep.own
    ensures r.Valid() && r.sweep.OnlyNew(old(r.sweep.own), old(r.sweep.pool.space))
    ensures Drawing(r.bitmap[..], r.width, r.height, r.stride, layers, view)
    ensures JobsOf(layers) == AllJobs(shapes, view, sort)
  {
    hide Rasterizer.Valid, Drawing, Sorts, ShapeJobs, Shape.Usable;
    layers := [];
    var k := 0;
    while k < |shapes|
      invariant 0 <= k <= |shapes|
      invariant r.Valid() && r.sweep.OnlyNew(old(r.sweep.own), old(r.sweep.pool.space))
      invariant Drawing(r.bitmap[..], r.width, r.height, r.stride, layers, view)
      invariant JobsOf(layers) == AllJobs(shapes[..k], view, sort)
    {
      layers := DrawShape(r, f, colors, shapes[k], view, sort, layers);
      assert shapes[..k + 1][..k] == shapes[..k];
      k := k + 1;
    }
    assert shapes[..k] == shapes;
  }

  /** Over a whole run no store wraps: each drawn pixel is premultiplied, so dividing by alpha stays exact. */
  lemma NoStoreWraps(img: seq<byte>, w: nat, h: nat, stride: nat, layers: seq<Layer>, view: View, y: nat, x: nat)
    requires Drawing(img, w, h, stride, layers, view) && y < h && x < w
    ensures var p := Px(img, w, h, stride, y, x);
            && p.Premultiplied()
            && (p.a != 0 ==> Divided(p.r, p.a) == p.r * 255 / p.a && Divided(p.g, p.a) == p.g * 255 / p.a
                             && Divided(p.b, p.a) == p.b * 255 / p.a)
  {
    hide Composite, Divided, Px;
    var p := Px(img, w, h, stride, y, x);
    CompositePremultiplied(layers, |layers|, view, h, y, x);
    if p.a != 0 {
      DividedRoundTrip(p.r, p.a);
      DividedRoundTrip(p.g, p.a);
      DividedRoundTrip(p.b, p.a);
    }
  }

  /** Points the rasterizer at the destination image, with a scanline that is wide enough. */
  method Prepare(r: Rasterizer, dst: array<byte>, w: nat, h: nat, stride: nat)
    requires r.sweep.Valid() && Fits(dst.Length, w, h, stride) && dst != r.scanline
    modifies r
    ensures r.Valid() && r.bitmap == dst && r.width == w && r.height == h && r.stride == stride
    ensures r.scanline == old(r.scanline) || fresh(r.scanline)
  {
    hide SweepState.Memory, SweepState.Lists, Fits;
    r.bitmap, r.width, r.height, r.stride := dst, w, h, stride;
    if w > r.scanline.Length {
      r.scanline := new byte[w];
    }
  }

  lemma DrawingStarts(img: seq<byte>, w: nat, h: nat, stride: nat, view: View)
    requires Fits(|img|, w, h, stride) && view.Valid()
    requires forall y: nat, x: nat :: y < h && x < w ==> Px(img, w, h, stride, y, x) == Pixel(0, 0, 0, 0)
    ensures Drawing(img, w, h, stride, [], view) && JobsOf([]) == []
  {
    ShowsNothing(img, w, h, stride, view);
  }

  method Finish(r: Rasterizer)
    requires r.Valid()
    modifies r
    ensures r.Valid() && r.width == r.height == r.stride == 0 && r.bitmap == old(r.bitmap)
  {
    hide SweepState.Memory, SweepState.Lists;
    r.width, r.height, r.stride := 0, 0, 0;
  }

  /** `nsvgRasterizeXY`. Before the division by alpha, every pixel is the source-over composite, on a
      transparent background, of the fills and strokes of the visible shapes in document order, each with the
      coverage of its own sub-scanlines. */
  method RasterizeXY(r: Rasterizer, f: Flattener, colors: array<Color>, shapes: seq<Shape>, view: View,
                     dst: array<byte>, w: nat, h: nat, stride: nat, sort: seq<Edge> -> seq<Edge>)
    returns (ghost layers: seq<Layer>, ghost drawn: seq<byte>, ghost divided: seq<byte>)
    requires r.sweep.Valid() && colors.Length == TABLE && Sorts(sort) && view.Valid()
    requires Fits(dst.Length, w, h, stride) && dst != r.scanline
    requires forall s :: s in shapes ==> s.Usable()
    modifies r, f, colors, r.scanline, dst
    modifies r.sweep`made, r.sweep`own, r.sweep.pool, r.sweep.pool.space, r.sweep.active, r.sweep.freelist, r.sweep.own
    ensures r.Valid()
    ensures JobsOf(layers) == AllJobs(shapes, view, sort)
    ensures |drawn| == |divided| == dst.Length && Drawing(drawn, w, h, stride, layers, view)
    ensures forall y: nat, x: nat :: y < h && x < w ==>
              Px(divided, w, h, stride, y, x) == UnpremultiplyPx(Px(drawn, w, h, stride, y, x))
    ensures forall y: nat, x: nat :: y < h && x < w ==>
              Px(dst[..], w, h, stride, y, x) == DefringePx(divided, w, h, stride, y, x)
  {
    hide Rasterizer.Valid, SweepState.Valid, Fits, Drawing, JobsOf, Sorts, Px, UnpremultiplyPx, DefringePx;
    Prepare(r, dst, w, h, stride);
    ClearImage(dst, w, h, stride);
    DrawingStarts(dst[..], w, h, stride, view);
    layers := DrawShapes(r, f, colors, shapes, view, sort);
    drawn := dst[..];
    divided := UnpremultiplyAlpha(dst, w, h, stride);
    Finish(r);
  }
}
