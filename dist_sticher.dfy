/**
 * `convertPdfToSingleImage` as the compiled JavaScript build has it: the same ordering
 * and geometry, but no check for an empty listing, so with no page file the canvas
 * width is `Math.max()` of nothing, `-Infinity`.
 */
module DistSticher {
  import opened PageOrder
  import opened Geometry
  import opened Composite

  /** What the function hands to the image library; the width may be `-Infinity`. */
  datatype Stitched = Stitched(
    imageFiles: seq<string>,
    width: MaxValue,
    height: nat,
    composites: seq<CompositeOp>,
    outputPath: string)

  method ConvertPdfToSingleImage(files: seq<string>, outDir: string, outputPath: string,
                                 probe: string -> Metadata)
    returns (s: Stitched)
    ensures s.imageFiles == ImageFiles(outDir, files)
    ensures s.outputPath == outputPath
    ensures s.width.NegativeInfinity? <==> PageEntries(files) == []
    ensures s.width.NegativeInfinity? ==> s.height == 0 && s.composites == []
    ensures s.width.Finite? ==>
              StacksPages(s.imageFiles, probe, s.width.value, s.height, s.composites)
  {
    var imageFiles := ImageFiles(outDir, files);
    assert |imageFiles| == |PageEntries(files)|;
    var dimensions := Probe(imageFiles, probe);
    var maxWidth := MathMax(Widths(dimensions));
    var totalHeight := Sum(Heights(dimensions));
    // The resize and composite maps run over the page list; with no page file both are
    // empty and no width is ever passed to a resize.
    var composites: seq<CompositeOp>;
    if maxWidth.Finite? {
      var resizedImages := ResizeAll(imageFiles, dimensions, maxWidth.value);
      composites := Layout(resizedImages);
      ResizedLayoutStacksPages(imageFiles, probe, maxWidth.value, resizedImages, composites);
    } else {
      assert |Widths(dimensions)| == |imageFiles| == |PageEntries(files)| == 0;
      composites := [];
    }
    s := Stitched(imageFiles, maxWidth, totalHeight, composites, outputPath);
  }
}
