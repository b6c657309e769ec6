/** What a run of `nsvgRasterizeXY` draws of a shape, said from the shape and the view: its fill covers what its
    contours enclose by its own rule, in its own paint and opacity, and its stroke comes after its fill. */
module ShapeFill {
  import opened Images
  import opened Edges
  import opened Flatten
  import opened Coverage
  import opened Blend
  import opened Paints
  import opened PaintColors
  import opened Raster
  import opened TrueFill
  import opened ShapeSides
  import opened Rasterize
  import opened Painting
  import opened FillArea

  predicate HasFill(s: Shape) {
    s.visible && !s.fill.NoPaint?
  }

  predicate HasStroke(s: Shape, sx: real) {
    s.visible && !s.stroke.NoPaint? && s.strokeWidth * sx > 0.01
  }

  /** How many layers the first `i` shapes make: a fill and a stroke for each visible one, as it has them. */
  function LayersBefore(shapes: seq<Shape>, i: nat, sx: real): nat
    requires i <= |shapes|
  {
    if i == 0 then 0
    else
      LayersBefore(shapes, i - 1, sx) + (if HasFill(shapes[i - 1]) then 1 else 0)
      + (if HasStroke(shapes[i - 1], sx) then 1 else 0)
  }

  ghost predicate AllUsable(shapes: seq<Shape>) {
    forall s :: s in shapes ==> s.Usable()
  }

  lemma ShapeJobCount(s: Shape, view: View, sort: seq<Edge> -> seq<Edge>)
    requires s.Usable()
    ensures |ShapeJobs(s, view, sort)|
         == (if HasFill(s) then 1 else 0) + (if HasStroke(s, view.sx) then 1 else 0)
    ensures HasFill(s) ==> ShapeJobs(s, view, sort)[0] == FillJob(s, view, sort)
    ensures HasStroke(s, view.sx) ==>
              ShapeJobs(s, view, sort)[if HasFill(s) then 1 else 0] == StrokeJob(s, view, sort)
  {
    hide FillJob, StrokeJob;
  }

  lemma {:induction false} LayersBeforePrefix(shapes: seq<Shape>, n: nat, i: nat, sx: real)
    requires i <= n <= |shapes|
    ensures LayersBefore(shapes[..n], i, sx) == LayersBefore(shapes, i, sx)
  {
    hide HasFill, HasStroke;
    if i > 0 {
      LayersBeforePrefix(shapes, n, i - 1, sx);
    }
  }

  /** The jobs of shape `i` stand behind those of the shapes before it. */
  lemma {:induction false} JobsAt(shapes: seq<Shape>, view: View, sort: seq<Edge> -> seq<Edge>, i: nat, j: nat)
    requires AllUsable(shapes) && i < |shapes| && j < |ShapeJobs(shapes[i], view, sort)|
    ensures var k := LayersBefore(shapes, i, view.sx) + j;
            k < |AllJobs(shapes, view, sort)| && AllJobs(shapes, view, sort)[k] == ShapeJobs(shapes[i], view, sort)[j]
    decreases |shapes|
  {
    hide ShapeJobs, Shape.Usable, HasFill, HasStroke;
    var front := shapes[..|shapes| - 1];
    assert AllUsable(front);
    if i == |shapes| - 1 {
      JobCount(front, view, sort);
      LayersBeforePrefix(shapes, i, i, view.sx);
    } else {
      JobsAt(front, view, sort, i, j);
      LayersBeforePrefix(shapes, |shapes| - 1, i, view.sx);
    }
  }

  lemma {:induction false} JobCount(shapes: seq<Shape>, view: View, sort: seq<Edge> -> seq<Edge>)
    requires AllUsable(shapes)
    ensures |AllJobs(shapes, view, sort)| == LayersBefore(shapes, |shapes|, view.sx)
    decreases |shapes|
  {
    hide ShapeJobs, Shape.Usable, HasFill, HasStroke;
    if shapes != [] {
      var front, last := shapes[..|shapes| - 1], shapes[|shapes| - 1];
      assert AllUsable(front);
      JobCount(front, view, sort);
      LayersBeforePrefix(shapes, |front|, |front|, view.sx);
      ShapeJobCount(last, view, sort);
    }
  }

  /** The layers are those of a run over the shapes. */
  ghost predicate LayersOfRun(layers: seq<Layer>, shapes: seq<Shape>, view: View, sort: seq<Edge> -> seq<Edge>,
                              h: nat)
  {
    && LayersOk(layers, h) && AllUsable(shapes) && view.Valid() && Sorts(sort)
    && JobsOf(layers) == AllJobs(shapes, view, sort)
  }

  lemma JobOfLayer(layers: seq<Layer>, shapes: seq<Shape>, view: View, sort: seq<Edge> -> seq<Edge>, h: nat, i: nat,
                   j: nat)
    requires LayersOfRun(layers, shapes, view, sort, h) && i < |shapes| && shapes[i].Usable()
    requires j < |ShapeJobs(shapes[i], view, sort)|
    ensures var k := LayersBefore(shapes, i, view.sx) + j;
            k < |layers| && LayerOk(layers[k], h) && layers[k].job == ShapeJobs(shapes[i], view, sort)[j]
  {
    hide ShapeJobs, Shape.Usable, AllJobs;
    JobsAt(shapes, view, sort, i, j);
    var k := LayersBefore(shapes, i, view.sx) + j;
    assert |JobsOf(layers)| == |layers| && JobsOf(layers)[k] == layers[k].job;
    assert layers[k] in layers;
  }

  /** The edges of a fill are those of the sides of its shape, sorted. */
  lemma FillEdgesOfSides(s: Shape, view: View, sort: seq<Edge> -> seq<Edge>)
    requires Sorts(sort) && s.fill.Drawable()
    ensures multiset(FillJob(s, view, sort).edges)
         == multiset(PlaceEdges(SegmentEdges(SidesOf(s.paths, view.sx, view.sy)), view.tx, view.ty))
  {
    SidesOfEdges(s.paths, view.sx, view.sy);
    hide Cached, SortedByY0;
    var placed := PlaceEdges(ShapeEdges(s.paths, view.sx, view.sy), view.tx, view.ty);
    assert multiset(sort(placed)) == multiset(placed);
  }

  lemma FillCovers(l: Layer, h: nat, s: Shape, view: View, sort: seq<Edge> -> seq<Edge>, y: nat, x: nat, inside: bool)
    requires LayerOk(l, h) && y < h && Sorts(sort) && s.fill.Drawable() && l.job == FillJob(s, view, sort)
    requires Decided(SidesOf(s.paths, view.sx, view.sy), s.fillRule, view.tx, view.ty, y, x, inside)
    ensures CoverOf(l, y, x) == if inside then 255 else 0
  {
    FillEdgesOfSides(s, view, sort);
    assert l.job.rule == s.fillRule;
    hide FillJob, Sorts, Decided, CoverOf, Really, RowOk;
    DecidedReally(SidesOf(s.paths, view.sx, view.sy), s.fillRule, view.tx, view.ty, l.job.edges, y, x, inside);
    RealFillCover(l, h, s, view, sort, y, x, inside);
  }

  /** What a paint lays over device pixel (x, y). */
  ghost predicate PixelPaint(paint: ShapePaint, u: real, view: View, y: nat, x: nat, c: Color)
    requires paint.Drawable() && view.Valid()
  {
    PaintedAs(paint, u, (x as real - view.tx) / view.sx, (y as real - view.ty) / view.sy, c)
  }

  lemma DevicePaint(paint: ShapePaint, u: real, view: View, y: nat, x: nat)
    requires paint.Drawable() && paint.Ordered() && view.Valid()
    ensures PixelPaint(paint, u, view, y, x, DeviceColor(Cached(paint, u), view, x, y))
  {
    CachedPaints(paint, u, (x as real - view.tx) / view.sx, (y as real - view.ty) / view.sy);
    assert DeviceColor(Cached(paint, u), view, x, y)
        == ColorAt(Cached(paint, u), (x as real - view.tx) / view.sx, (y as real - view.ty) / view.sy);
    hide PaintedAs, ColorAt, Cached;
  }

  lemma OneLayerMore(layers: seq<Layer>, k: nat, view: View, h: nat, y: nat, x: nat, cover: byte)
    requires k < |layers| && LayersOk(layers, h) && y < h && view.Valid()
    requires LayerOk(layers[k], h) && CoverOf(layers[k], y, x) == cover
    ensures Composite(layers, k + 1, view, h, y, x)
         == Over(DeviceColor(layers[k].job.paint, view, x, y), cover, Composite(layers, k, view, h, y, x))
  {
    hide Over, DeviceColor, RowOk, RowSum;
  }

  /** The contours of the shape enclose pixel (y, x) by its fill rule, or do not, and keep away from it. */
  ghost predicate FillDecided(s: Shape, view: View, y: nat, x: nat, inside: bool) {
    Decided(SidesOf(s.paths, view.sx, view.sy), s.fillRule, view.tx, view.ty, y, x, inside)
  }

  /** The same of the outline of its stroke, which is filled by the nonzero rule. */
  ghost predicate StrokeDecided(s: Shape, view: View, y: nat, x: nat, inside: bool) {
    Decided(s.outline(view.sx, view.sy), NonZero, view.tx, view.ty, y, x, inside)
  }

  lemma FillLayer(layers: seq<Layer>, shapes: seq<Shape>, view: View, sort: seq<Edge> -> seq<Edge>, h: nat, i: nat)
    requires LayersOfRun(layers, shapes, view, sort, h) && i < |shapes| && HasFill(shapes[i])
    ensures shapes[i].fill.Drawable() && shapes[i].fill.Ordered()
    ensures var k := LayersBefore(shapes, i, view.sx);
            k < |layers| && LayerOk(layers[k], h) && layers[k].job == FillJob(shapes[i], view, sort)
  {
    assert shapes[i].Usable();
    ShapeJobCount(shapes[i], view, sort);
    hide LayersBefore, ShapeJobs;
    JobOfLayer(layers, shapes, view, sort, h, i, 0);
    hide LayersOk, LayerOk, FillJob, StrokeJob, AllJobs, Sorts;
  }

  /** In the image of a run, the fill of every visible shape lays the shape's paint over the pixels that its contours
      enclose by its fill rule, and nothing over the others, wherever no side comes too near. */
  lemma FillShows(layers: seq<Layer>, shapes: seq<Shape>, view: View, sort: seq<Edge> -> seq<Edge>, h: nat, i: nat,
                  y: nat, x: nat, inside: bool) returns (c: Color)
    requires LayersOfRun(layers, shapes, view, sort, h) && i < |shapes| && HasFill(shapes[i]) && y < h
    requires FillDecided(shapes[i], view, y, x, inside)
    ensures shapes[i].fill.Drawable() && PixelPaint(shapes[i].fill, shapes[i].opacity, view, y, x, c)
    ensures var k := LayersBefore(shapes, i, view.sx);
            k < |layers| && Composite(layers, k + 1, view, h, y, x)
                            == Over(c, if inside then 255 else 0, Composite(layers, k, view, h, y, x))
  {
    FillLayer(layers, shapes, view, sort, h, i);
    hide LayersBefore, LayersOk, LayerOk, Sorts, Decided, Cached, CoverOf, Composite, PixelPaint, Over, AllJobs,
      AllUsable;
    var s, k := shapes[i], LayersBefore(shapes, i, view.sx);
    FillCovers(layers[k], h, s, view, sort, y, x, inside);
    DevicePaint(s.fill, s.opacity, view, y, x);
    OneLayerMore(layers, k, view, h, y, x, if inside then 255 else 0);
    c := DeviceColor(layers[k].job.paint, view, x, y);
  }

  /** Where the layer of a stroke stands: behind that of the fill, if there is one. */
  function StrokeLayerOf(shapes: seq<Shape>, i: nat, sx: real): nat
    requires i < |shapes|
  {
    LayersBefore(shapes, i, sx) + if HasFill(shapes[i]) then 1 else 0
  }

  lemma StrokeLayer(layers: seq<Layer>, shapes: seq<Shape>, view: View, sort: seq<Edge> -> seq<Edge>, h: nat, i: nat)
    requires LayersOfRun(layers, shapes, view, sort, h) && i < |shapes| && HasStroke(shapes[i], view.sx)
    ensures shapes[i].stroke.Drawable() && shapes[i].stroke.Ordered()
    ensures var k := StrokeLayerOf(shapes, i, view.sx);
            k < |layers| && LayerOk(layers[k], h) && layers[k].job == StrokeJob(shapes[i], view, sort)
  {
    assert shapes[i].Usable();
    ShapeJobCount(shapes[i], view, sort);
    hide LayersBefore, ShapeJobs;
    JobOfLayer(layers, shapes, view, sort, h, i, if HasFill(shapes[i]) then 1 else 0);
    hide LayersOk, LayerOk, FillJob, StrokeJob, AllJobs, Sorts;
  }

  lemma StrokeCovers(l: Layer, h: nat, s: Shape, view: View, sort: seq<Edge> -> seq<Edge>, y: nat, x: nat, inside: bool)
    requires LayerOk(l, h) && y < h && Sorts(sort) && s.stroke.Drawable() && l.job == StrokeJob(s, view, sort)
    requires StrokeDecided(s, view, y, x, inside) && Balanced(SegmentEdges(s.outline(view.sx, view.sy)))
    ensures CoverOf(l, y, x) == if inside then 255 else 0
  {
    var segments := s.outline(view.sx, view.sy);
    var placed := PlaceEdges(SegmentEdges(segments), view.tx, view.ty);
    assert multiset(sort(placed)) == multiset(placed);
    assert l.job.rule == NonZero && l.job.edges == sort(placed);
    hide StrokeJob, Sorts, Decided, CoverOf, Really, RowOk, Balanced, SortedByY0, Interior, Exterior, SegmentEdges;
    SegmentEdgesWellFormed(segments);
    PlaceBalanced(SegmentEdges(segments), view.tx, view.ty);
    BalancedPermutation(placed, l.job.edges);
    DecidedReally(segments, NonZero, view.tx, view.ty, l.job.edges, y, x, inside);
    ReallyIs(l.job.edges, NonZero, y, x, inside);
    CoverInside(l, h, y, x);
    CoverOutside(l, h, y, x);
  }

  /** The stroke comes after the fill of its shape and lays its own paint over what its outline encloses, provided the
      stroker closes the outline. */
  lemma StrokeShows(layers: seq<Layer>, shapes: seq<Shape>, view: View, sort: seq<Edge> -> seq<Edge>, h: nat, i: nat,
                    y: nat, x: nat, inside: bool) returns (c: Color)
    requires LayersOfRun(layers, shapes, view, sort, h) && i < |shapes| && HasStroke(shapes[i], view.sx) && y < h
    requires StrokeDecided(shapes[i], view, y, x, inside)
    requires Balanced(SegmentEdges(shapes[i].outline(view.sx, view.sy)))
    ensures shapes[i].stroke.Drawable() && PixelPaint(shapes[i].stroke, shapes[i].opacity, view, y, x, c)
    ensures var k := StrokeLayerOf(shapes, i, view.sx);
            k < |layers| && Composite(layers, k + 1, view, h, y, x)
                            == Over(c, if inside then 255 else 0, Composite(layers, k, view, h, y, x))
  {
    StrokeLayer(layers, shapes, view, sort, h, i);
    hide StrokeLayerOf, LayersOk, LayerOk, Sorts, Decided, Cached, CoverOf, Composite, PixelPaint, Over, AllJobs,
      AllUsable, Balanced;
    var s, k := shapes[i], StrokeLayerOf(shapes, i, view.sx);
    StrokeCovers(layers[k], h, s, view, sort, y, x, inside);
    DevicePaint(s.stroke, s.opacity, view, y, x);
    OneLayerMore(layers, k, view, h, y, x, if inside then 255 else 0);
    c := DeviceColor(layers[k].job.paint, view, x, y);
  }

  /** Layers that do not cover a pixel leave it. */
  lemma {:induction false} UncoveredStays(layers: seq<Layer>, k: nat, n: nat, view: View, h: nat, y: nat, x: nat)
    requires k <= n <= |layers| && LayersOk(layers, h) && y < h && view.Valid()
    requires forall j :: k <= j < n ==> LayerOk(layers[j], h) && CoverOf(layers[j], y, x) == 0
    ensures Composite(layers, n, view, h, y, x) == Composite(layers, k, view, h, y, x)
    decreases n
  {
    hide Over, DeviceColor, RowSum, RowOk, CoverOf;
    if k < n {
      UncoveredStays(layers, k, n - 1, view, h, y, x);
      hide LayersOk, LayerOk, Composite;
      OneLayerMore(layers, n - 1, view, h, y, x, 0);
      OverNothing(DeviceColor(layers[n - 1].job.paint, view, x, y), Composite(layers, n - 1, view, h, y, x));
    }
  }

  /** A fill in one opaque colour at full opacity shows exactly that colour inside, until a later layer covers the
      pixel; and outside every fill changes nothing. */
  lemma SolidFillShows(layers: seq<Layer>, shapes: seq<Shape>, view: View, sort: seq<Edge> -> seq<Edge>, h: nat, i: nat,
                       y: nat, x: nat, inside: bool, n: nat)
    requires LayersOfRun(layers, shapes, view, sort, h) && i < |shapes| && HasFill(shapes[i]) && y < h
    requires FillDecided(shapes[i], view, y, x, inside)
    requires inside ==> OpaqueFill(shapes[i])
    requires LayersBefore(shapes, i, view.sx) < n <= |layers|
    requires forall j :: LayersBefore(shapes, i, view.sx) < j < n ==>
               LayerOk(layers[j], h) && CoverOf(layers[j], y, x) == 0
    ensures Composite(layers, n, view, h, y, x)
         == if inside then var c := shapes[i].fill.color; Pixel(c.r, c.g, c.b, 255)
            else Composite(layers, LayersBefore(shapes, i, view.sx), view, h, y, x)
  {
    hide LayersBefore, LayersOk, LayerOk, CoverOf, Composite, Over, FillDecided, AllUsable, Sorts, AllJobs;
    var k := LayersBefore(shapes, i, view.sx);
    var c := FillShows(layers, shapes, view, sort, h, i, y, x, inside);
    UncoveredStays(layers, k + 1, n, view, h, y, x);
    if inside {
      OpaquePaint(shapes[i], view, y, x, c);
      OverOpaque(c, Composite(layers, k, view, h, y, x));
    } else {
      OverNothing(c, Composite(layers, k, view, h, y, x));
    }
  }

  predicate OpaqueFill(s: Shape) {
    s.fill.SolidColor? && s.fill.color.a == 255 && s.opacity >= 1.0
  }

  lemma OpaquePaint(s: Shape, view: View, y: nat, x: nat, c: Color)
    requires OpaqueFill(s) && view.Valid() && PixelPaint(s.fill, s.opacity, view, y, x, c)
    ensures c == s.fill.color
  {
  }
}
