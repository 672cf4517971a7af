/**
 * The per-page steps between listing the files and writing the canvas: probing each page
 * for its dimensions, resizing it to the canvas width, and placing it on the canvas.
 * Pixel data stays opaque; only the numbers the code computes are modelled.
 */
module Composite {
  import opened Wrappers
  import opened Geometry

  /** What the image library reports for a page; either dimension may be missing. */
  datatype Metadata = Metadata(width: Option<nat>, height: Option<nat>)

  /** `d.width || 0` */
  function WidthOf(d: Metadata): (w: nat)
    ensures d.width == Some(w) || (d.width == None && w == 0)
  {
    d.width.GetOr(0)
  }

  /** `dim.height || 0` */
  function HeightOf(d: Metadata): (h: nat)
    ensures d.height == Some(h) || (d.height == None && h == 0)
  {
    d.height.GetOr(0)
  }

  /** The dimensions of each page file, in file order (`imageFiles.map(file => metadata)`). */
  function Probe(paths: seq<string>, probe: string -> Metadata): (dims: seq<Metadata>)
    ensures |dims| == |paths|
    ensures forall i :: 0 <= i < |paths| ==> dims[i] == probe(paths[i])
  {
    if paths == [] then [] else [probe(paths[0])] + Probe(paths[1..], probe)
  }

  function Widths(dims: seq<Metadata>): (ws: seq<nat>)
    ensures |ws| == |dims|
    ensures forall i :: 0 <= i < |dims| ==> ws[i] == WidthOf(dims[i])
  {
    if dims == [] then [] else [WidthOf(dims[0])] + Widths(dims[1..])
  }

  function Heights(dims: seq<Metadata>): (hs: seq<nat>)
    ensures |hs| == |dims|
    ensures forall i :: 0 <= i < |dims| ==> hs[i] == HeightOf(dims[i])
  {
    if dims == [] then [] else [HeightOf(dims[0])] + Heights(dims[1..])
  }

  /** The buffer the image library returns for a page file resized to a width. */
  datatype Buffer = Resized(source: string, width: nat)

  /** An element of `resizedImages`: a resized buffer and the height recorded for it. */
  datatype ResizedPage = ResizedPage(buffer: Buffer, height: nat)

  /** One entry of the composite list: which buffer goes where. */
  datatype CompositeOp = CompositeOp(input: Buffer, top: nat, left: nat)

  function HeightsOf(pages: seq<ResizedPage>): (hs: seq<nat>)
    ensures |hs| == |pages|
    ensures forall i :: 0 <= i < |pages| ==> hs[i] == pages[i].height
  {
    if pages == [] then [] else [pages[0].height] + HeightsOf(pages[1..])
  }

  /**
   * The resize step: page i is resized to the canvas width and paired with the height
   * probed for page i before the resize.
   */
  function ResizeAll(files: seq<string>, dims: seq<Metadata>, maxWidth: nat): (pages: seq<ResizedPage>)
    requires |files| == |dims|
    ensures |pages| == |files|
    ensures forall i :: 0 <= i < |files| ==> pages[i].buffer == Resized(files[i], maxWidth)
    ensures HeightsOf(pages) == Heights(dims)
  {
    if files == [] then []
    else [ResizedPage(Resized(files[0], maxWidth), HeightOf(dims[0]))] + ResizeAll(files[1..], dims[1..], maxWidth)
  }

  /**
   * The composite list, built by running `currentY` down the pages: each page goes at
   * the left edge, at the sum of the recorded heights of the pages before it.
   */
  method Layout(pages: seq<ResizedPage>) returns (ops: seq<CompositeOp>)
    ensures |ops| == |pages|
    ensures forall i :: 0 <= i < |pages| ==>
              ops[i] == CompositeOp(pages[i].buffer, Top(HeightsOf(pages), i), 0)
  {
    ghost var hs := HeightsOf(pages);
    var currentY := 0;
    ops := [];
    var i := 0;
    while i < |pages|
      invariant 0 <= i <= |pages|
      invariant |ops| == i
      invariant currentY == Top(hs, i)
      invariant forall j :: 0 <= j < i ==> ops[j] == CompositeOp(pages[j].buffer, Top(hs, j), 0)
    {
      var height := pages[i].height;
      BandsAreContiguous(hs, i);
      currentY := currentY + height;
      ops := ops + [CompositeOp(pages[i].buffer, currentY - height, 0)];
      i := i + 1;
    }
  }

  /**
   * What the function promises about the canvas it builds for the page files `paths`:
   * it is as wide as the widest page (missing widths count as 0) and as high as all
   * pages together (missing heights count as 0), and page i, resized to the canvas
   * width, goes at the left edge at the sum of the heights of the pages before it.
   */
  predicate StacksPages(paths: seq<string>, probe: string -> Metadata,
                        width: nat, height: nat, composites: seq<CompositeOp>)
    ensures StacksPages(paths, probe, width, height, composites) ==> paths != []
  {
    var dims := Probe(paths, probe);
    var ws, hs := Widths(dims), Heights(dims);
    && width in ws && (forall w :: w in ws ==> w <= width)
    && height == Sum(hs)
    && |composites| == |paths|
    && forall i :: 0 <= i < |paths| ==>
         composites[i] == CompositeOp(Resized(paths[i], width), Top(hs, i), 0)
  }

  /** The resize and composite steps, run on the probed pages, build such a canvas. */
  lemma ResizedLayoutStacksPages(paths: seq<string>, probe: string -> Metadata, width: nat,
                                 pages: seq<ResizedPage>, composites: seq<CompositeOp>)
    requires MathMax(Widths(Probe(paths, probe))) == Finite(width)
    requires pages == ResizeAll(paths, Probe(paths, probe), width)
    requires |composites| == |pages|
    requires forall i :: 0 <= i < |pages| ==>
               composites[i] == CompositeOp(pages[i].buffer, Top(HeightsOf(pages), i), 0)
    ensures StacksPages(paths, probe, width, Sum(Heights(Probe(paths, probe))), composites)
  {
  }

  /**
   * On such a canvas the pages' bands follow each other without gap or overlap, in
   * page order, and the last one ends at the bottom edge.
   */
  lemma StackedBandsTile(paths: seq<string>, probe: string -> Metadata,
                         width: nat, height: nat, composites: seq<CompositeOp>)
    requires StacksPages(paths, probe, width, height, composites)
    requires paths != []
    ensures composites[0].top == 0
    ensures forall i :: 0 <= i < |composites| - 1 ==>
              composites[i].top + HeightOf(probe(paths[i])) == composites[i + 1].top
    ensures composites[|composites| - 1].top + HeightOf(probe(paths[|paths| - 1])) == height
  {
    var dims := Probe(paths, probe);
    var hs := Heights(dims);
    assert forall i :: 0 <= i < |paths| ==> composites[i].top == Top(hs, i);
    assert forall i :: 0 <= i < |paths| ==> hs[i] == HeightOf(probe(paths[i]));
    forall i | 0 <= i < |composites| - 1
      ensures composites[i].top + HeightOf(probe(paths[i])) == composites[i + 1].top
    {
      BandsAreContiguous(hs, i);
    }
    BandsAreContiguous(hs, 0);
    LastBandEndsAtTotal(hs);
  }
}
