/** The strip composer end to end: scan the folder, sort the paths, decode every
    image while tracking the widest, allocate the canvas, stack the images down
    it, and name the output file. Sorting and PNG decoding are parameters. */
module Sheet {
  import opened Types
  import opened Scan
  import opened Layout
  import opened Blit

  /** How a run ends: the spritesheet to be written to `path`, or a failure. */
  datatype Outcome = Written(path: string, sheet: array2<Color>) | Failed(failure: Failure)

  /** The images of `paths` decoded in order, or the first decoding failure. */
  function DecodeAll(paths: seq<string>, decode: string -> Result<Image>): Result<seq<Image>> {
    if paths == [] then Ok([])
    else
      match DecodeAll(paths[..|paths| - 1], decode)
      case Err(e) => Err(e)
      case Ok(imgs) =>
        match decode(paths[|paths| - 1])
        case Err(e) => Err(e)
        case Ok(img) => Ok(imgs + [img])
  }

  /** Decoding succeeds exactly when every path decodes, and then image i is path i's image. */
  lemma {:induction false} DecodeAllOk(paths: seq<string>, decode: string -> Result<Image>)
    ensures DecodeAll(paths, decode).Ok? <==> forall i :: 0 <= i < |paths| ==> decode(paths[i]).Ok?
    ensures DecodeAll(paths, decode).Ok? ==>
              |DecodeAll(paths, decode).value| == |paths| &&
              forall i :: 0 <= i < |paths| ==> DecodeAll(paths, decode).value[i] == decode(paths[i]).value
    decreases |paths|
  {
    if paths != [] {
      var init := paths[..|paths| - 1];
      DecodeAllOk(init, decode);
      assert forall i :: 0 <= i < |init| ==> init[i] == paths[i];
    }
  }

  /** A failed decoding reports the error of the first path that does not decode. */
  lemma {:induction false} DecodeAllFirstFailure(paths: seq<string>, decode: string -> Result<Image>) returns (k: nat)
    requires DecodeAll(paths, decode).Err?
    ensures k < |paths| && decode(paths[k]) == Err(DecodeAll(paths, decode).error)
    ensures forall j :: 0 <= j < k ==> decode(paths[j]).Ok?
    decreases |paths|
  {
    var init := paths[..|paths| - 1];
    if DecodeAll(init, decode).Err? {
      k := DecodeAllFirstFailure(init, decode);
      assert forall j :: 0 <= j <= k ==> init[j] == paths[j];
    } else {
      k := |paths| - 1;
      DecodeAllOk(init, decode);
      assert forall j :: 0 <= j < k ==> init[j] == paths[j];
    }
  }

  /** Once a prefix of the paths fails to decode, the whole list fails with its error. */
  lemma {:induction false} DecodeAllStopsAt(paths: seq<string>, n: nat, decode: string -> Result<Image>)
    requires n <= |paths| && DecodeAll(paths[..n], decode).Err?
    ensures DecodeAll(paths, decode) == DecodeAll(paths[..n], decode)
    decreases |paths| - n
  {
    if n == |paths| {
      assert paths[..n] == paths;
    } else {
      assert paths[..n + 1][..n] == paths[..n];
      DecodeAllStopsAt(paths, n + 1, decode);
    }
  }

  /** Decoding a reordering of `paths` yields, on success, one image per path. */
  lemma DecodedCount(paths: seq<string>, sorted: seq<string>, decode: string -> Result<Image>)
    requires multiset(sorted) == multiset(paths)
    ensures DecodeAll(sorted, decode).Ok? ==> |DecodeAll(sorted, decode).value| == |paths|
  {
    assert |multiset(sorted)| == |multiset(paths)|;
    DecodeAllOk(sorted, decode);
  }

  /** When the decoder only fails with decode errors, so does decoding a list. */
  lemma DecodeFailureKind(paths: seq<string>, decode: string -> Result<Image>)
    requires forall p :: decode(p).Err? ==> decode(p).error.DecodeFailed?
    ensures DecodeAll(paths, decode).Err? ==> DecodeAll(paths, decode).error.DecodeFailed?
  {
    if DecodeAll(paths, decode).Err? {
      var k := DecodeAllFirstFailure(paths, decode);
    }
  }

  /** The decoding loop: opens every path in order, stopping at the first error,
      stores image i at index i and keeps the widest width seen. */
  method LoadImages(filePaths: seq<string>, decode: string -> Result<Image>)
    returns (r: Result<seq<Image>>, maxWidth: nat)
    ensures r == DecodeAll(filePaths, decode)
    ensures r.Ok? ==> maxWidth == MaxWidth(r.value)
  {
    var images := new Image[|filePaths|](_ => Bitmap(0, 0, []));
    maxWidth := 0;
    for i := 0 to |filePaths|
      invariant DecodeAll(filePaths[..i], decode) == Ok(images[..i])
      invariant maxWidth == MaxWidth(images[..i])
    {
      assert filePaths[..i + 1][..i] == filePaths[..i];
      var img := decode(filePaths[i]);
      if img.Err? {
        DecodeAllStopsAt(filePaths, i + 1, decode);
        return Err(img.error), maxWidth;
      }
      ghost var done := images[..i];
      images[i] := img.value;
      assert images[..i + 1] == done + [img.value];
      var width := img.value.width;
      if width > maxWidth {
        maxWidth := width;
      }
    }
    assert filePaths[..|filePaths|] == filePaths;
    assert images[..|filePaths|] == images[..];
    r := Ok(images[..]);
  }

  /** The canvas `sheet` holds the strip of `imgs`: sized widest-image wide and
      first-height-times-count tall, every covered cell showing its image's pixel
      and every other cell transparent. */
  ghost predicate Shows(sheet: array2<Color>, imgs: seq<Image>)
    requires imgs != []
    reads sheet
  {
    sheet.Length0 == CanvasHeight(imgs) && sheet.Length1 == MaxWidth(imgs)
    && forall y, x :: 0 <= y < sheet.Length0 && 0 <= x < sheet.Length1 ==>
         sheet[y, x] == Over(StripPixel(imgs, y, x), Transparent)
  }

  /** The program's main flow for one folder. `listing` is what reading the
      directory gave, `sortStrings` stands for the name sort, `decode` for
      opening and decoding one PNG file. */
  method Run(folder: string, listing: Result<seq<Entry>>,
             sortStrings: seq<string> -> seq<string>, decode: string -> Result<Image>)
    returns (r: Outcome)
    requires listing.Err? ==> listing.error.ListFailed?
    requires forall p :: decode(p).Err? ==> decode(p).error.DecodeFailed?
    requires forall s :: multiset(sortStrings(s)) == multiset(s)
    ensures listing.Err? ==> r == Failed(listing.error)
    ensures listing.Ok? ==>
      var loaded := DecodeAll(sortStrings(PngPaths(folder, listing.value)), decode);
      && (loaded.Err? ==> r == Failed(loaded.error) && r.failure.DecodeFailed?)
      && (loaded.Ok? ==> |loaded.value| == |PngPaths(folder, listing.value)|)
      && (loaded == Ok([]) ==> r == Failed(NoImages))
      && (loaded.Ok? && loaded.value != [] ==>
            r.Written? && r.path == OutputPath(folder) && fresh(r.sheet) && Shows(r.sheet, loaded.value))
  {
    var scanned := ScanFolder(folder, listing);
    if scanned.Err? {
      return Failed(scanned.error);
    }
    var filePaths := sortStrings(scanned.value);
    DecodedCount(scanned.value, filePaths, decode);
    DecodeFailureKind(filePaths, decode);
    var loaded, maxWidth := LoadImages(filePaths, decode);
    if loaded.Err? {
      return Failed(loaded.error);
    }
    var images := loaded.value;
    if |images| == 0 {
      return Failed(NoImages);
    }
    var sheet := Compose(images, maxWidth);
    r := Written(OutputPath(folder), sheet);
  }

  /** Allocates the transparent canvas, widest-image wide and first height
      times count tall, and stacks the images down it. */
  method Compose(images: seq<Image>, maxWidth: nat) returns (sheet: array2<Color>)
    requires images != [] && maxWidth == MaxWidth(images)
    ensures fresh(sheet) && Shows(sheet, images)
  {
    var height := images[0].height * |images|;
    sheet := new Color[height, maxWidth]((_, _) => Transparent);
    DrawStrip(sheet, images);
    forall y, x | 0 <= y < sheet.Length0 && 0 <= x < sheet.Length1
      ensures sheet[y, x] == Over(StripPixel(images, y, x), Transparent)
    {
    }
  }

  /** On a written spritesheet, the rows of image i show image i's pixels at the
      same offsets, and the cells right of a narrower image stay transparent. */
  lemma SheetPixel(sheet: array2<Color>, imgs: seq<Image>, i: nat, dy: nat, x: nat)
    requires imgs != [] && Shows(sheet, imgs)
    requires i < |imgs| && dy < imgs[i].height && x < sheet.Length1
    requires Top(imgs, i) + dy < sheet.Length0
    ensures sheet[Top(imgs, i) + dy, x] == if x < imgs[i].width then imgs[i].rows[dy][x] else Transparent
  {
    StripPixelInBand(imgs, i, dy, x);
  }

  /** On a written spritesheet, the rows below the last image stay transparent. */
  lemma SheetBelowStrip(sheet: array2<Color>, imgs: seq<Image>, y: nat, x: nat)
    requires imgs != [] && Shows(sheet, imgs)
    requires TotalHeight(imgs) <= y < sheet.Length0 && x < sheet.Length1
    ensures sheet[y, x] == Transparent
  {
    BelowStrip(imgs, y, x);
  }
}
