/**
 * `convertPdfToSingleImage` as the TypeScript source has it: list the work directory,
 * order the page files, stop with an error when there are none, then compute the canvas
 * and the place of every page on it.
 */
module Sticher {
  import opened Wrappers
  import opened PageOrder
  import opened Geometry
  import opened Composite

  /** The error thrown when the listing has no page file. */
  datatype Error = NoImagesGenerated

  /** What the function hands to the image library: canvas size, pages in order, placements. */
  datatype Stitched = Stitched(
    imageFiles: seq<string>,
    width: nat,
    height: nat,
    composites: seq<CompositeOp>,
    outputPath: string)

  /**
   * `files` is what listing the work directory `outDir` returns after rasterizing;
   * `probe` gives the dimensions the image library reports for a path.
   */
  method ConvertPdfToSingleImage(files: seq<string>, outDir: string, outputPath: string,
                                 probe: string -> Metadata)
    returns (r: Result<Stitched, Error>)
    ensures r.Failure? <==> PageEntries(files) == []
    ensures r.Failure? ==> r.error == NoImagesGenerated
    ensures r.Success? ==>
              && r.value.imageFiles == ImageFiles(outDir, files) != []
              && r.value.outputPath == outputPath
              && StacksPages(r.value.imageFiles, probe, r.value.width, r.value.height, r.value.composites)
  {
    var imageFiles := ImageFiles(outDir, files);
    if |imageFiles| == 0 {
      return Failure(NoImagesGenerated);
    }
    var dimensions := Probe(imageFiles, probe);
    var maxWidth := MathMax(Widths(dimensions)).value;
    var totalHeight := Sum(Heights(dimensions));
    var resizedImages := ResizeAll(imageFiles, dimensions, maxWidth);
    var composites := Layout(resizedImages);
    ResizedLayoutStacksPages(imageFiles, probe, maxWidth, resizedImages, composites);
    r := Success(Stitched(imageFiles, maxWidth, totalHeight, composites, outputPath));
  }
}
