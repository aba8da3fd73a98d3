# go-sheet strip composer, modelled in Dafny

go-sheet turns a folder of PNG sprites into one `spritesheet.png`. It stacks the
images vertically in file-name order. This project models that program's core:

- the folder scan (`scanFolder`): which directory entries become input paths;
- the decoding loop, which stores image i at index i and tracks the widest width;
- the canvas sizing: the widest width across, and the first image's height
  times the number of images down;
- the drawing loop: image i goes into the rectangle `(0, y, w_i, y + h_i)`,
  where `y` is the sum of the earlier heights. `draw.Draw` with the `Src`
  operator copies each image in place into an `array2` canvas, clipped to the canvas;
- the output path `folder/spritesheet.png`.

Modules:

- `Types` holds pixels, images (a pixel grid whose size matches its bounds),
  rectangles, listing entries and failures.
- `Scan` holds the extension test, the scan loop and its specification.
- `Layout` holds the pure layout specification: total height, offsets, maximum
  width, canvas height, placements, and the pixel the strip shows at each cell.
- `Blit` holds `draw.Draw` and the strip-drawing loop, both as methods that
  update the canvas in place.
- `Sheet` holds the decoding loop and `Run`, the program's main flow.

The canvas height follows the code, `images[0].Dy() * len(images)`. A strip
exactly as tall as its images would be the sum of the heights; the code uses the
first height times the count instead. The two agree when all heights are equal
(`UniformHeightsFill`), and can also agree when they differ: heights 2, 1, 3
fill a 6-row canvas exactly (`UnequalHeightsCanFill`). What decides the outcome
is the total height (`FitsIff`):

- when the total height exceeds the canvas height, the last placements run past
  the canvas and their bottom rows are clipped away (`TallerLaterImageOverflows`);
- when the total height is below the canvas height, a transparent band is left
  at the bottom (`TwoImageExample`, `SheetBelowStrip`);
- a later image taller than the first does not by itself cause clipping:
  heights 3, 1, 4 fill 8 of 9 rows (`TallerLaterImageCanFit`).

With no PNG in the folder, the code indexes `images[0]` on an empty slice and
panics. The model reports this as the failure `NoImages`.

## Model

| member | source | states |
|---|---|---|
| `Scan.ScanFolder` | main.go:82-97 | A listing error is returned unchanged with no paths. Otherwise the result is exactly the kept entries joined onto the folder, in listing order (loop proved against `PngPaths`). |
| `Scan.ExtBefore` | main.go:91 | The extension is empty or the suffix starting at the last `.` of the final path element (no `.` or `/` after it); it is empty only when that element has no `.`. |
| `Scan.PngIffSuffix` | main.go:91 | A name passes the extension test exactly when its last four characters are `.png`, compared case-sensitively. |
| `Scan.FilterExamples` | main.go:91 | `a.png` and `spritesheet.png` pass. `a.PNG`, `a.png.bak` and `png` do not. |
| `Scan.PngPaths` | main.go:90-94 | The scan returns at most as many paths as the listing has entries. |
| `Scan.PngPathsAppend` | main.go:90-94 | Scanning `a + b` gives the result for `a` followed by the result for `b`, so listing order is kept. |
| `Scan.PngPathsMember` | main.go:90-94 | A path is returned iff some entry is not a directory, has extension `.png`, and the path is that entry's name joined onto the folder. |
| `Scan.OutputReingested` | main.go:71 | If the listing holds a plain file named `spritesheet.png`, the output path itself is among the scanned inputs. |
| `Layout.MaxWidth` | main.go:39-54 | The canvas width is at least every image's width and equals one of them. It is 0 when there are no images. |
| `Layout.TopMonotone` | main.go:60-67 | The running `y` never decreases. After the last image it equals the total height. |
| `Layout.Adjacent` | main.go:63-67 | The bottom edge of placement i is the top edge of placement i+1. |
| `Layout.Disjoint` | main.go:60-67 | For i < j, placement i ends at or above the top of placement j. |
| `Layout.PlacementShape` | main.go:57-63 | Every placement lies between x = 0 and the canvas width `MaxWidth`, so nothing is clipped horizontally. |
| `Layout.FitsIff` | main.go:57-67 | Every placement ends within the canvas height iff the total height is at most the first height times the count. |
| `Layout.UniformHeightsFill` | main.go:57 | When all heights equal the first, the canvas height equals the total height. |
| `Layout.BelowStrip` | main.go:60-68 | No image covers a row at or below the total height. |
| `Layout.StripPixelInBand` | main.go:60-68 | In row `Top(i) + dy`, the strip shows image i's pixel `(x, dy)` where `x < w_i`, and nothing to the right of it. |
| `Layout.BandOf` | main.go:60-67 | Every row above the total height lies in the band of exactly one image. |
| `Layout.TwoImageExample` | main.go:57-67 | A 10x20 image then a 15x10 image: canvas 15 wide and 40 tall, total height 30, placements (0,0)-(10,20) and (0,20)-(15,30). |
| `Layout.UnequalHeightsCanFill` | main.go:57-67 | Heights 2, 1, 3 differ, yet the total height equals the canvas height 6: equal heights are not necessary for an exact fit. |
| `Layout.TallerLaterImageCanFit` | main.go:57-67 | Heights 3, 1, 4: a later image is taller than the first, yet the 8-row strip fits the 9-row canvas. |
| `Layout.TallerLaterImageOverflows` | main.go:57-64 | A 1-row image then a 2-row image: canvas 2 rows tall, but the second placement ends at row 3 and covers row 2. |
| `Blit.Draw` | main.go:64 | Each cell in the rectangle, the canvas and the shifted source bounds gets the source pixel at the same offset. Every other cell keeps its value. |
| `Blit.DrawStrip` | main.go:59-68 | The rectangle drawn at step k is `Placement(imgs, k)`. After the loop, each cell holds `StripPixel` where an image covers it and its old value elsewhere. |
| `Sheet.DecodeAllOk` | main.go:41-48 | Decoding succeeds iff every path decodes. Then image i is the decoding of path i. |
| `Sheet.DecodeAllFirstFailure` | main.go:41-46 | A failure carries the error of the first path that does not decode. All earlier paths decode. |
| `Sheet.DecodeAllStopsAt` | main.go:43-45 | Once a prefix fails, the whole list fails with that prefix's error. |
| `Sheet.LoadImages` | main.go:37-54 | The decoding loop returns `DecodeAll` of the paths. On success, its width is `MaxWidth` of the images. |
| `Sheet.Compose` | main.go:56-68 | The fresh canvas is `MaxWidth` wide and first-height-times-count tall. Each cell shows the strip's pixel where an image covers it and is transparent elsewhere. |
| `Sheet.Run` | main.go:27-72 | A listing error (`ListFailed`), the first decode error (`DecodeFailed`), or an empty image list (`NoImages`) ends the run. Otherwise as many images are placed as the scan found PNG files, the output path is `folder/spritesheet.png`, and the fresh canvas is `MaxWidth` wide and first-height-times-count tall. Each cell shows the strip's pixel where an image covers it and is transparent elsewhere. |
| `Sheet.SheetPixel` | main.go:57-68 | On the written canvas, row `Top(i) + dy` shows image i's pixels at the same offsets. Cells to the right of a narrower image stay transparent. |
| `Sheet.SheetBelowStrip` | main.go:57 | On the written canvas, rows at or below the total height stay transparent. |

## Left out

- Directory reading (`ioutil.ReadDir`) is not modelled. `Run` and `ScanFolder` receive its outcome as `listing`: the entries, or the listing error.
- Opening and decoding a PNG file (`openImage`, `png.Decode`) are not modelled. `Run` receives them as the function `decode` from path to image or error.
- Writing the PNG file (`saveImage`, `png.Encode`) and its failure (main.go:72-76) are not modelled. `Run` ends with the output path and the finished canvas.
- `sort.Strings` is the parameter `sortStrings`. The model requires that it returns a permutation of its input, but does not state that the result is sorted. Images are placed in whatever order it returns.
- `filepath.Join` path cleaning is not modelled. `Join` is `folder + "/" + name`.
- Command-line argument handling and all printing (main.go:19-25, 30, 44, 74, 78) are left out.
- Colour-model conversion in `draw.Draw` is left out. Pixels are uninterpreted RGBA values, and `Src` is a plain copy with source point (0, 0).
- Decoded images are assumed to have bounds starting at the origin, as PNG decoding gives.
- 64-bit overflow of `Dy() * len(images)` and allocation failure of a huge canvas are not modelled, because integers here are unbounded.
- A run with no images ends in `NoImages` in the model, where the code panics with an index-out-of-range error at main.go:57.
- This program has no grid or per-subfolder mode, so the model has none.
