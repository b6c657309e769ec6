/** What a finished drawing shows: a fill covers the pixels inside its shape wholly and those outside not at all, so
    the topmost opaque layer over a pixel decides it. */
module Painting {
  import opened Images
  import opened Edges
  import opened Blend
  import opened Paints
  import opened Raster
  import opened FillArea
  import opened Rasterize
  import opened Coverage
  import opened Flatten

  /** A layer of a fill covers a pixel well inside its shape by 255 of 255, and a pixel outside by nothing. */
  lemma FillCover(l: Layer, h: nat, s: Shape, view: View, sort: seq<Edge> -> seq<Edge>, y: nat, x: nat)
    requires LayerOk(l, h) && y < h && Sorts(sort) && s.fill.Drawable() && l.job == FillJob(s, view, sort)
    ensures Interior(l.job.edges, l.job.rule, y, x) ==> CoverOf(l, y, x) == 255
    ensures Exterior(l.job.edges, l.job.rule, y, x) ==> CoverOf(l, y, x) == 0
  {
    FillEdgesOk(s, view, sort);
    hide FillJob, Sorts;
    CoverInside(l, h, y, x);
    CoverOutside(l, h, y, x);
  }

  lemma CoverInside(l: Layer, h: nat, y: nat, x: nat)
    requires LayerOk(l, h) && y < h && Balanced(l.job.edges)
    ensures Interior(l.job.edges, l.job.rule, y, x) ==> CoverOf(l, y, x) == 255
  {
    hide Interior, Balanced, RowOk, RowSum, SortedByY0;
    if Interior(l.job.edges, l.job.rule, y, x) {
      InteriorSum(l.job.edges, l.job.rule, y, x, l.rows[y], SUBSAMPLES);
    }
  }

  lemma CoverOutside(l: Layer, h: nat, y: nat, x: nat)
    requires LayerOk(l, h) && y < h && Balanced(l.job.edges)
    ensures Exterior(l.job.edges, l.job.rule, y, x) ==> CoverOf(l, y, x) == 0
  {
    hide Exterior, Balanced, RowOk, RowSum, RowInside, SpanTotal, SortedByY0;
    if Exterior(l.job.edges, l.job.rule, y, x) {
      CoverageIsInsideArea(l.job.edges, SUBSAMPLES * y, l.rows[y], SUBSAMPLES, l.job.rule, x);
      ExteriorInside(l.job.edges, l.job.rule, y, x, SUBSAMPLES);
    }
  }

  /** If layer `k` covers a pixel wholly in an opaque colour and no later layer covers it, the composite shows
      exactly that colour, whatever was drawn before. */
  lemma {:induction false} TopmostShows(layers: seq<Layer>, k: nat, n: nat, view: View, h: nat, y: nat, x: nat)
    requires k < n <= |layers| && LayersOk(layers, h) && y < h && view.Valid()
    requires LayerOk(layers[k], h) && CoverOf(layers[k], y, x) == 255
    requires DeviceColor(layers[k].job.paint, view, x, y).a == 255
    requires forall j :: k < j < n ==> LayerOk(layers[j], h) && CoverOf(layers[j], y, x) == 0
    ensures var c := DeviceColor(layers[k].job.paint, view, x, y);
            Composite(layers, n, view, h, y, x) == Pixel(c.r, c.g, c.b, 255)
    decreases n
  {
    hide Over, DeviceColor, RowSum, RowOk;
    var l := layers[n - 1];
    assert LayerOk(l, h);
    var c, below := DeviceColor(l.job.paint, view, x, y), Composite(layers, n - 1, view, h, y, x);
    if n - 1 == k {
      OverOpaque(c, below);
    } else {
      TopmostShows(layers, k, n - 1, view, h, y, x);
      OverNothing(c, below);
    }
  }

  /** Where no layer covers it, the image stays transparent. */
  lemma {:induction false} NothingShows(layers: seq<Layer>, n: nat, view: View, h: nat, y: nat, x: nat)
    requires n <= |layers| && LayersOk(layers, h) && y < h && view.Valid()
    requires forall j :: 0 <= j < n ==> LayerOk(layers[j], h) && CoverOf(layers[j], y, x) == 0
    ensures Composite(layers, n, view, h, y, x) == Pixel(0, 0, 0, 0)
    decreases n
  {
    hide Over, DeviceColor, RowSum, RowOk;
    if n > 0 {
      var l := layers[n - 1];
      assert LayerOk(l, h);
      NothingShows(layers, n - 1, view, h, y, x);
      OverNothing(DeviceColor(l.job.paint, view, x, y), Composite(layers, n - 1, view, h, y, x));
    }
  }
}
