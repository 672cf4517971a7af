# stitcher-api: page ordering and canvas geometry of `convertPdfToSingleImage`

The service turns a PDF into one tall image. A rasterizer writes one image per page
into a work directory, named with the prefix `page` and a page number. The function
`convertPdfToSingleImage` then lists that directory and keeps the page files. It
orders them by page number, reads each page's dimensions, and makes a white canvas as
wide as the widest page and as high as all pages together. Each page is resized to
the canvas width and placed below the previous one.

This project models the part of that function that is computation rather than I/O:

- **Page order** (`PageOrder`, `page_order.dfy`). Keep the directory entries whose
  name starts with `"page"`. Sort them stably by the integer value of the first run of
  ASCII digits in the name, or 0 when the name has none. Join each name to the work
  directory. `Array.prototype.sort` is modelled as an insertion sort, and
  `StableSortIsUnique` shows that every stable sort by the same key gives the same
  result. So the choice of algorithm does not matter.
- **Canvas geometry** (`Geometry`, `geometry.dfy`). `Math.max` over the page widths,
  with `-Infinity` for no pages. The `reduce` sum of the page heights. The bands
  `[top_i, top_i + h_i)` where the pages land.
- **Per-page steps and placement** (`Composite`, `composite.dfy`). Probing, where a
  missing width or height counts as 0. The resize map, which pairs page i with the
  height probed for page i before the resize. The `currentY` loop that builds the
  composite list, as a method with a loop. `StacksPages` states what the canvas
  promises.
- **The function itself, twice.** `Sticher.ConvertPdfToSingleImage` (`sticher.dfy`)
  follows `src/sticher.ts`, which fails with "No images were generated from PDF" when
  there is no page file. `DistSticher.ConvertPdfToSingleImage` (`dist_sticher.dfy`)
  follows the older compiled `dist/sticher.js`, which has no such check. With no page
  file its canvas width is `Math.max()` of nothing, `-Infinity`
  (`MaxValue.NegativeInfinity`).

The two source files perform the same ordering and geometry computation, although the
text differs: dist/sticher.js is the compiled form, with `__awaiter`/`yield` in place
of `async`/`await` and down-levelled syntax (src/sticher.ts:40-48 and
dist/sticher.js:36-39; src/sticher.ts:58-59 and dist/sticher.js:42-43;
src/sticher.ts:64-69 and dist/sticher.js:45-50; src/sticher.ts:73,84-88 and
dist/sticher.js:52,62). So one set of members models both. The table cites the
TypeScript lines.

The model treats these as inputs: the directory listing (`files: seq<string>`) and the
dimensions the image library reports for a path (`probe: string -> Metadata`).

The page number is the *first* run of digits anywhere in the name, not a numeric
suffix: in "page2-v10.png" it is 2. The code does not reject duplicate or missing page
numbers. Names with equal keys keep their listing order (`SortByKeyIsStable`), and a
gap in the numbering leaves no gap in the output.

## Model

| member | source | states |
|---|---|---|
| PageOrder.StartsWith | src/sticher.ts:42 | `startsWith` holds exactly when the name is the prefix followed by the rest of the name |
| PageOrder.PageEntries | src/sticher.ts:41-42 | the kept entries are exactly the listed names starting with "page", each as often as listed, and nothing else |
| PageOrder.FirstDigitRun | src/sticher.ts:44-45 | `/\d+/` finds nothing exactly when the name has no digit; otherwise it yields a non-empty digit run that starts at the first digit of the name and is not followed by a digit |
| PageOrder.FirstDigitIndex | src/sticher.ts:44 | the match starts at the first digit: no digit comes before it |
| PageOrder.LeadingDigits | src/sticher.ts:44 | the match is greedy: it takes every digit up to the first non-digit |
| PageOrder.DecimalValue | src/sticher.ts:44 | `parseInt` of a digit run as a decimal number, at least its last digit. DecimalValueZero and DecimalRoundTrip prove what it means |
| PageOrder.DecimalValueZero | src/sticher.ts:44 | a digit run parses to 0 exactly when every digit in it is '0' |
| PageOrder.Key | src/sticher.ts:44-45 | the sort key; a name with no digit gets key 0 (the fallback to "0"). KeyOfNumberedName and PageNameKey prove the key of a numbered name |
| PageOrder.DecimalString | src/sticher.ts:44 | the canonical spelling of a number is a non-empty digit string with no leading zero |
| PageOrder.DecimalRoundTrip | src/sticher.ts:44 | `parseInt` of a number's decimal spelling gives back that number |
| PageOrder.LeadingZerosIgnored | src/sticher.ts:44 | zero padding does not change the parsed value, so "page-01" and "page-1" get the same key |
| PageOrder.ZerosAreZero | src/sticher.ts:44 | a run of zeros parses to 0 |
| PageOrder.FirstDigitRunOf | src/sticher.ts:44 | in a digit-free head, a digit run and a tail not starting with a digit, `/\d+/` matches exactly that run |
| PageOrder.KeyOfNumberedName | src/sticher.ts:44-45 | a name made of a digit-free head, digits, and a tail not starting with a digit has the value of those digits as its key |
| PageOrder.PageNameKey | src/sticher.ts:44-46 | "page-", padding zeros, page number n, extension: the key is n |
| PageOrder.NumericOrder | src/sticher.ts:43-47 | for a listing of two pages m < n in either order, page m sorts before page n whatever the padding: "page-2" comes before "page-10" |
| PageOrder.NumericOrderInAnyListing | src/sticher.ts:43-47 | in the sorted result of any listing, page m stands before page n when m < n, whatever the padding |
| PageOrder.SortByKey | src/sticher.ts:43-47 | the sort returns a permutation of its input that is non-decreasing by key |
| PageOrder.Insert | src/sticher.ts:43-47 | one insertion step adds exactly the new name to the sequence |
| PageOrder.InsertSorted | src/sticher.ts:43-47 | inserting into a key-sorted sequence keeps it sorted |
| PageOrder.InsertKeyClass | src/sticher.ts:43-47 | inserting puts the new name in front of every name with the same key already placed, which all come later in the input |
| PageOrder.SortByKeyIsStable | src/sticher.ts:43-47 | for every key, the names with that key come out in their input order |
| PageOrder.StableSortIsUnique | src/sticher.ts:43-47 | two key-sorted sequences with the same names, in the same order under every key, are equal |
| PageOrder.AnyStableSortAgrees | src/sticher.ts:43-47 | any key-sorted arrangement that keeps equal-key names in input order is the one SortByKey returns |
| PageOrder.KeyClassConcat | src/sticher.ts:43-47 | picking the names with one key distributes over concatenation |
| PageOrder.PageEntriesConcat | src/sticher.ts:41-42 | the prefix filter distributes over concatenation |
| PageOrder.PageEntriesKeyClass | src/sticher.ts:41-47 | filtering by the prefix and picking one key commute, so the page entries with key k are the listed names with key k that start with "page", in listing order |
| PageOrder.OrderedPageNames | src/sticher.ts:41-47 | the filter-then-sort chain gives as many names as there are page entries, all starting with "page", non-decreasing by key; OrderedPageNamesSpec states the rest |
| PageOrder.OrderedPageNamesSpec | src/sticher.ts:40-47 | the sorted list holds exactly the page entries of the listing, is non-decreasing by key, and for every key lists the page entries with that key in the directory listing's order |
| PageOrder.PagePaths | src/sticher.ts:48 | joining keeps the length, and path i is the work directory joined to name i |
| PageOrder.JoinPath | src/sticher.ts:48 | `path.join(outDir, file)` begins with the directory and ends with the entry name |
| PageOrder.BaseName | src/sticher.ts:48 | the last path component is the separator-free suffix after the last separator |
| PageOrder.BaseNameOfJoin | src/sticher.ts:48 | the entry name is the last component of its joined path, so joining loses nothing |
| PageOrder.ImageFiles | src/sticher.ts:41-48 | the full chain gives one path per page entry, and no path exactly when no listed name starts with "page"; ImageFilesSpec states which path is which |
| PageOrder.ImageFilesSpec | src/sticher.ts:41-48 | path i of the final list names sorted page i |
| Geometry.MathMax | src/sticher.ts:58 | `Math.max` of no values is `-Infinity`; otherwise it is one of the values and no value exceeds it |
| Geometry.Sum | src/sticher.ts:59 | the `reduce` total, a left fold from 0; the last height does not exceed it |
| Geometry.EachBelowSum | src/sticher.ts:59 | no single height exceeds the total |
| Geometry.Top | src/sticher.ts:73-86 | the `currentY` of page i, the sum of the heights before it; the previous page's height does not exceed it. BandsAreContiguous and TopMonotone prove how the tops follow each other |
| Geometry.BandsAreContiguous | src/sticher.ts:84-88 | the first page's top is 0, and each page's top plus its height is the next page's top |
| Geometry.LastBandEndsAtTotal | src/sticher.ts:59 | the last page's band ends at the sum of all heights, the canvas height |
| Geometry.TopMonotone | src/sticher.ts:86 | tops never decrease down the page list |
| Geometry.BandsAreOrdered | src/sticher.ts:84-88 | a page's band ends at or above the top of every later page: bands are in page order and disjoint |
| Geometry.BandInsideCanvas | src/sticher.ts:59 | every page's band lies within the canvas height |
| Geometry.BandOf | src/sticher.ts:84-88 | every canvas row lies in the band of some page: the bands tile the canvas |
| Geometry.BandIsUnique | src/sticher.ts:84-88 | no canvas row lies in the bands of two pages |
| Geometry.ThreePageExample | src/sticher.ts:58-59 | widths 800, 1000, 900 and heights 1100, 1200, 1050 give a 1000 by 3350 canvas, with pages at rows 0, 1100, 2300 |
| Composite.Probe | src/sticher.ts:57 | one metadata entry per page file, in file order |
| Composite.WidthOf | src/sticher.ts:58 | `d.width` with a fallback of 0: the reported width, or 0 when none is reported |
| Composite.HeightOf | src/sticher.ts:59-67 | `dim.height` with a fallback of 0: the reported height, or 0 when none is reported |
| Composite.Widths | src/sticher.ts:58 | each width is the page's reported width, or 0 when it is missing |
| Composite.Heights | src/sticher.ts:59 | each height is the page's reported height, or 0 when it is missing |
| Composite.HeightsOf | src/sticher.ts:84 | lists the heights carried by the resized pages, in order |
| Composite.ResizeAll | src/sticher.ts:64-69 | resized page i is page file i at the canvas width, and carries the height probed for page i before the resize |
| Composite.Layout | src/sticher.ts:73-88 | the `currentY` loop places page i at the left edge, at the sum of the recorded heights of pages 0 to i-1, with page i's buffer |
| Composite.StacksPages | src/sticher.ts:57-88 | what the canvas promises: as wide as the widest page, as high as all pages, page i resized to that width at the left edge below pages 0 to i-1; it can hold only when there is at least one page |
| Composite.ResizedLayoutStacksPages | src/sticher.ts:58-88 | the canvas width from `Math.max`, the resize map and the `currentY` loop together meet StacksPages |
| Composite.StackedBandsTile | src/sticher.ts:84-88 | on the built canvas the first page is at row 0, each page ends where the next begins, and the last ends at the canvas height |
| Sticher.ConvertPdfToSingleImage | src/sticher.ts:40-89 | fails with "No images were generated from PDF" exactly when no entry starts with "page". Otherwise the page paths are the ordered list, and the canvas is as wide as the widest page and as high as all pages together. Page i, resized to that width, goes at the left edge below pages 0 to i-1 |
| DistSticher.ConvertPdfToSingleImage | dist/sticher.js:35-63 | no empty check. With no page file the canvas width is `-Infinity`, its height 0 and the composite list empty. Otherwise the result matches the TypeScript version: ordered paths, maximal width, summed height, pages stacked from row 0 |

## Left out

- Running the rasterizer (`pdftoppm` via `exec`, `pdf.convert`), creating the work directory, listing it, deleting the page files and removing the directory are I/O. The listing is an input, and the other steps are not modelled. Their errors are not modelled either: an exec failure, a missing directory, or `rmdir` failing on a directory that still holds other files.
- Every call into the image library (`metadata`, `resize`, `toBuffer`, canvas creation with 4 channels and a white background, `composite`, `toFile`) belongs to code outside this repository. Page dimensions are an input function `probe`. A resized buffer is the opaque value `Resized(path, width)`. Errors the library raises are not modelled.
- Composite.ResizeAll: does not claim that the resized buffer's real height equals the recorded height. The library scales the height along with the width, and the code places pages by their height before the resize without checking this. So when a page is resized, its pixels may overlap the next band or run past the canvas. The model states only the geometry the code computes.
- PageOrder.DecimalValue models `parseInt` exactly on unbounded integers. A digit run too long for a double loses precision in JavaScript, and that is not modelled.
- PageOrder.JoinPath models `path.join` as the directory, one separator, and the name. It handles an empty directory and a trailing separator. Collapsing repeated separators and resolving `.` and `..` segments are not modelled.
- `Promise.all` runs the per-page probes and resizes concurrently. Its results come back in input order, so the model uses ordinary order-preserving maps. The shared, hard-coded `temp` work directory, and what happens when two calls use it at once, are not modelled.
- The conversion options are not modelled. In src/sticher.ts `density` reaches only the rasterizer command, the image format is fixed to PNG by the `-png` flag, and neither `format` nor `quality` is read. In dist/sticher.js `format` and `density` are passed to `pdf.convert`. Console logging has no effect on results.
- The HTTP server (src/index.ts, dist/index.js) is not part of this model: download, upload, configuration and the routes around the function.
