/** Spritesheet decoding (src/utils/spritesheet.ts): a sheet image is cut
    into a fixed 3 x 3 grid in row-major order, each cell is optionally
    colour-keyed, and several numbered sheets are concatenated into one
    flat, index-addressed sprite pool.

    An image is its RGBA byte buffer. Drawing a cell onto a same-sized canvas
    is a crop of that buffer; the PNG data-URL encoding is not modelled, so a
    sprite is its cell rectangle and its processed pixels. Image loading is a
    `loader` parameter: `None` is a failed load. */
module Spritesheet {
  import opened Results
  import opened ColorKey
  import Text

  /** Number of "to find" sheets (to_find/01.png ...). */
  const SpritesToFindCount: nat := 1
  /** Number of neutral sheets (neutral/01.png ...). */
  const SpritesNeutralCount: nat := 4

  const ToFindPattern: string := "/to_find/{index}.png"
  const NeutralPattern: string := "/neutral/{index}.png"

  const Cols: nat := 3
  const Rows: nat := 3
  const SpritesPerSheet: nat := 9

  datatype Image = Image(width: nat, height: nat, pixels: seq<Byte>)

  /** A decoded image: four bytes per pixel, rows top to bottom. */
  type Raster = img: Image | |img.pixels| == 4 * img.width * img.height
    witness Image(0, 0, [])

  datatype Rect = Rect(x: nat, y: nat, width: nat, height: nat)

  predicate Inside(r: Rect, img: Raster) {
    r.x + r.width <= img.width && r.y + r.height <= img.height
  }

  /** One processed sprite: where it was cut and its RGBA pixels. */
  datatype Sprite = Sprite(cell: Rect, pixels: seq<Byte>)

  datatype ProcessedSprites = ProcessedSprites(sprites: seq<Sprite>, spriteWidth: nat, spriteHeight: nat)

  /** Why a load rejects: the image did not load, or `getImageData` was
      asked for an empty rectangle (the DOM's IndexSizeError). */
  datatype LoadError = ImageLoadFailed(src: string) | IndexSizeError

  type Loader = string -> Option<Raster>

  lemma MulLeft(a: nat, b: nat, c: nat)
    requires a <= b
    ensures a * c <= b * c
  {
  }

  lemma RowInBounds(img: Raster, x: nat, y: nat, w: nat)
    requires x + w <= img.width && y < img.height
    ensures 4 * (y * img.width + x + w) <= |img.pixels|
  {
    MulLeft(y, img.height - 1, img.width);
    assert (img.height - 1) * img.width + img.width == img.height * img.width;
  }

  /** Bytes of `w` pixels of row `y`, starting at column `x`. */
  function RowBytes(img: Raster, x: nat, y: nat, w: nat): (out: seq<Byte>)
    requires x + w <= img.width && y < img.height
    ensures |out| == 4 * w
  {
    RowInBounds(img, x, y, w);
    img.pixels[4 * (y * img.width + x)..4 * (y * img.width + x + w)]
  }

  /** The pixels of rectangle `r`, row by row: what `drawImage` copies onto a
      canvas of the rectangle's size. */
  function Crop(img: Raster, r: Rect): (out: seq<Byte>)
    requires Inside(r, img)
    ensures |out| == 4 * r.width * r.height
    decreases r.height
  {
    if r.height == 0 then []
    else
      var above := Crop(img, r.(height := r.height - 1));
      assert |above| + 4 * r.width == 4 * r.width * r.height;
      above + RowBytes(img, r.x, r.y + r.height - 1, r.width)
  }

  /** `s` is what `extractAndProcessSprite` produces for `cell` of `img`. */
  ghost predicate ExtractedFrom(img: Raster, cell: Rect, hasTransparency: bool, s: Sprite) {
    && Inside(cell, img)
    && s.cell == cell
    && (hasTransparency ==> s.pixels == Crop(img, cell))
    && (!hasTransparency ==> IsColorKeyOf(Crop(img, cell), s.pixels))
  }

  /** Only the colour-keyed path reads the canvas back, and `getImageData`
      rejects a rectangle with a zero width or height. Drawing an empty
      region paints nothing and does not throw. */
  predicate Extractable(cell: Rect, hasTransparency: bool) {
    hasTransparency || (cell.width > 0 && cell.height > 0)
  }

  method ExtractAndProcessSprite(img: Raster, cell: Rect, hasTransparency: bool) returns (r: Result<Sprite, LoadError>)
    requires Inside(cell, img)
    ensures r.Failure? <==> !Extractable(cell, hasTransparency)
    ensures r.Failure? ==> r.error == IndexSizeError
    ensures r.Success? ==> ExtractedFrom(img, cell, hasTransparency, r.value)
  {
    var pixels := Crop(img, cell);
    if !hasTransparency {
      if cell.width == 0 || cell.height == 0 {
        return Failure(IndexSizeError);
      }
      pixels := ApplyColorKey(pixels);
    }
    r := Success(Sprite(cell, pixels));
  }

  /** Cell `k` of a sheet whose cells are `sw` x `sh`: column `k % 3`,
      row `k / 3`. */
  function GridCell(k: nat, sw: nat, sh: nat): Rect {
    Rect((k % Cols) * sw, (k / Cols) * sh, sw, sh)
  }

  /** Every cell of the 3 x 3 grid, cut with `floor(w / 3)` x `floor(h / 3)`,
      lies inside the image. */
  lemma GridCellInside(img: Raster, k: nat)
    requires k < SpritesPerSheet
    ensures Inside(GridCell(k, img.width / Cols, img.height / Rows), img)
  {
    var sw, sh := img.width / Cols, img.height / Rows;
    MulLeft(k % Cols + 1, Cols, sw);
    MulLeft(k / Cols + 1, Rows, sh);
  }

  /** `sprites` is the decoding of one sheet: nine sprites, sprite `k` cut
      from grid cell `k`. */
  ghost predicate DecodesSheet(img: Raster, hasTransparency: bool, sprites: seq<Sprite>) {
    && |sprites| == SpritesPerSheet
    && forall k :: 0 <= k < SpritesPerSheet ==>
         ExtractedFrom(img, GridCell(k, img.width / Cols, img.height / Rows), hasTransparency, sprites[k])
  }

  /** All nine cells of `img` share one size, so either every cell can be
      extracted or none can: colour keying needs a sheet at least 3 x 3. */
  predicate SheetExtractable(img: Raster, hasTransparency: bool) {
    hasTransparency || (img.width / Cols > 0 && img.height / Rows > 0)
  }

  /** `loadAndProcessSpritesheet`: the row loop outside, the column loop
      inside. */
  method LoadAndProcessSpritesheet(src: string, load: Loader, hasTransparency: bool)
    returns (r: Result<ProcessedSprites, LoadError>)
    ensures r.Failure? <==> load(src).None? || !SheetExtractable(load(src).value, hasTransparency)
    ensures r.Failure? ==> r.error == if load(src).None? then ImageLoadFailed(src) else IndexSizeError
    ensures r.Success? ==>
              var img := load(src).value;
              && r.value.spriteWidth == img.width / Cols
              && r.value.spriteHeight == img.height / Rows
              && DecodesSheet(img, hasTransparency, r.value.sprites)
  {
    var loaded := load(src);
    if loaded.None? {
      return Failure(ImageLoadFailed(src));
    }
    var img := loaded.value;
    var sw, sh := img.width / Cols, img.height / Rows;
    var sprites: seq<Sprite> := [];
    var row := 0;
    while row < Rows
      invariant 0 <= row <= Rows
      invariant |sprites| == Cols * row
      invariant |sprites| > 0 ==> SheetExtractable(img, hasTransparency)
      invariant forall k :: 0 <= k < |sprites| ==>
                  ExtractedFrom(img, GridCell(k, sw, sh), hasTransparency, sprites[k])
    {
      var col := 0;
      while col < Cols
        invariant 0 <= col <= Cols
        invariant |sprites| == Cols * row + col
        invariant |sprites| > 0 ==> SheetExtractable(img, hasTransparency)
        invariant forall k :: 0 <= k < |sprites| ==>
                    ExtractedFrom(img, GridCell(k, sw, sh), hasTransparency, sprites[k])
      {
        var s := ExtractCell(img, col, row, hasTransparency);
        if s.Failure? {
          return Failure(s.error);
        }
        sprites := sprites + [s.value];
        col := col + 1;
      }
      row := row + 1;
    }
    assert SheetExtractable(img, hasTransparency);
    r := Success(ProcessedSprites(sprites, sw, sh));
  }

  /** Path of sheet `i`: the first `{index}` in the pattern becomes `i`
      left-padded with '0' to two characters. */
  function SheetPath(basePattern: string, i: nat): string {
    Text.ReplaceFirst(basePattern, "{index}", SheetNumber(i))
  }

  function SheetNumber(i: nat): string {
    Text.PadStart(Text.NatToString(i), 2, '0')
  }

  /** The padded sheet number is at least two digits and reads back as `i`,
      so distinct sheets get distinct numbers. */
  lemma SheetNumberRoundTrip(i: nat)
    ensures |SheetNumber(i)| >= 2
    ensures Text.AllDigits(SheetNumber(i))
    ensures Text.ParseDecimal(SheetNumber(i)) == i
  {
    var s := Text.NatToString(i);
    Text.ParseNatToString(i);
    if |s| < 2 {
      Text.LeadingZerosIgnored(2 - |s|, s);
    }
  }

  /** Single-digit sheets gain one leading zero; two-digit sheets are kept. */
  lemma SheetNumberExamples()
    ensures SheetNumber(1) == "01"
    ensures SheetNumber(4) == "04"
    ensures SheetNumber(12) == "12"
  {
    assert Text.NatToString(12) == Text.NatToString(1) + ['2'];
  }

  /** A pattern with one `{index}` and no `{` before it yields the sheet
      number in place of the placeholder, e.g. "/neutral/04.png" for sheet 4
      of "/neutral/{index}.png". */
  lemma SheetPathSubstitutes(prefix: string, suffix: string, i: nat)
    requires forall c :: 0 <= c < |prefix| ==> prefix[c] != '{'
    ensures SheetPath(prefix + "{index}" + suffix, i) == prefix + SheetNumber(i) + suffix
  {
    var s := prefix + "{index}" + suffix;
    forall q: nat | q < |prefix|
      ensures !Text.OccursAt(s, "{index}", q)
    {
      assert s[q] == prefix[q];
    }
    assert Text.OccursAt(s, "{index}", |prefix|);
    Text.ReplaceFirstSpec(s, "{index}", SheetNumber(i), |prefix|);
    assert s[..|prefix|] == prefix;
    assert s[|prefix| + 7..] == suffix;
  }

  /** Sheets `1..n` all load under `load`. */
  ghost predicate AllSheetsLoad(basePattern: string, n: int, load: Loader) {
    forall i :: 1 <= i <= n ==> load(SheetPath(basePattern, i)).Some?
  }

  /** One iteration of the grid loop: the cell at column `col` and row `row`,
      which is cell `3 * row + col` in row-major order. */
  method ExtractCell(img: Raster, col: nat, row: nat, hasTransparency: bool) returns (r: Result<Sprite, LoadError>)
    requires col < Cols && row < Rows
    ensures r.Failure? <==> !SheetExtractable(img, hasTransparency)
    ensures r.Failure? ==> r.error == IndexSizeError
    ensures r.Success? ==>
              ExtractedFrom(img, GridCell(Cols * row + col, img.width / Cols, img.height / Rows), hasTransparency, r.value)
  {
    var sw, sh := img.width / Cols, img.height / Rows;
    var k := Cols * row + col;
    assert k % Cols == col && k / Cols == row;
    GridCellInside(img, k);
    r := ExtractAndProcessSprite(img, Rect(col * sw, row * sh, sw, sh), hasTransparency);
  }

  /** Sheet `i` loads and can be processed. */
  ghost predicate SheetReady(basePattern: string, i: nat, load: Loader, hasTransparency: bool) {
    load(SheetPath(basePattern, i)).Some? && SheetExtractable(load(SheetPath(basePattern, i)).value, hasTransparency)
  }

  ghost predicate AllSheetsReady(basePattern: string, n: int, load: Loader, hasTransparency: bool) {
    forall i: nat :: 1 <= i <= n ==> SheetReady(basePattern, i, load, hasTransparency)
  }

  /** The error a sheet that is not ready produces. */
  ghost function SheetError(basePattern: string, i: nat, load: Loader): LoadError {
    if load(SheetPath(basePattern, i)).None? then ImageLoadFailed(SheetPath(basePattern, i)) else IndexSizeError
  }

  /** Sheet `i` is the first of the run that is not ready, and `e` is its
      error. */
  ghost predicate FirstFailure(basePattern: string, i: nat, load: Loader, hasTransparency: bool, e: LoadError) {
    && !SheetReady(basePattern, i, load, hasTransparency)
    && AllSheetsReady(basePattern, i - 1, load, hasTransparency)
    && e == SheetError(basePattern, i, load)
  }

  lemma ReadyStep(basePattern: string, i: nat, load: Loader, hasTransparency: bool)
    requires 1 <= i
    requires AllSheetsReady(basePattern, i - 1, load, hasTransparency)
    requires SheetReady(basePattern, i, load, hasTransparency)
    ensures AllSheetsReady(basePattern, i, load, hasTransparency)
  {
  }

  lemma NotReadyAt(basePattern: string, i: nat, n: int, load: Loader, hasTransparency: bool)
    requires 1 <= i <= n
    requires !SheetReady(basePattern, i, load, hasTransparency)
    ensures !AllSheetsReady(basePattern, n, load, hasTransparency)
  {
  }

  /** Without colour keying, a sheet is ready exactly when it loads. */
  lemma ReadyWithoutColorKey(basePattern: string, n: int, load: Loader)
    ensures AllSheetsReady(basePattern, n, load, true) <==> AllSheetsLoad(basePattern, n, load)
  {
    if AllSheetsLoad(basePattern, n, load) {
      forall i: nat | 1 <= i <= n ensures SheetReady(basePattern, i, load, true) {
        assert load(SheetPath(basePattern, i)).Some?;
      }
    }
    if AllSheetsReady(basePattern, n, load, true) {
      forall i | 1 <= i <= n ensures load(SheetPath(basePattern, i)).Some? {
        assert SheetReady(basePattern, i, load, true);
      }
    }
  }

  /** `sprites` holds, in sheet order, the decodings of sheets `1..n`: sheet
      `i` occupies the flat indices `9 * (i - 1) .. 9 * i`. */
  ghost predicate DecodesSheets(basePattern: string, n: nat, load: Loader, hasTransparency: bool, sprites: seq<Sprite>)
    requires AllSheetsLoad(basePattern, n, load)
  {
    && |sprites| == SpritesPerSheet * n
    && forall i :: 1 <= i <= n ==>
         DecodesSheet(load(SheetPath(basePattern, i)).value, hasTransparency,
                      sprites[SpritesPerSheet * (i - 1)..SpritesPerSheet * i])
  }

  /** `loadMultipleSpritesheets`: sheets `1..count` in ascending order; the
      first sheet that fails to load or to process fails the whole load. The
      reported cell size is that of the last sheet, or 0 x 0 when no sheet is
      loaded. */
  method LoadMultipleSpritesheets(basePattern: string, count: int, load: Loader, hasTransparency: bool)
    returns (r: Result<ProcessedSprites, LoadError>)
    ensures r.Success? <==> AllSheetsReady(basePattern, count, load, hasTransparency)
    ensures r.Failure? ==> exists i: nat :: 1 <= i <= count && FirstFailure(basePattern, i, load, hasTransparency, r.error)
    ensures r.Success? ==> AllSheetsLoad(basePattern, count, load)
    ensures r.Success? ==> DecodesSheets(basePattern, if count < 0 then 0 else count, load, hasTransparency, r.value.sprites)
    ensures r.Success? && count < 1 ==> r.value.spriteWidth == 0 && r.value.spriteHeight == 0
    ensures r.Success? && count >= 1 ==>
              var last := load(SheetPath(basePattern, count)).value;
              r.value.spriteWidth == last.width / Cols && r.value.spriteHeight == last.height / Rows
  {
    var all: seq<Sprite> := [];
    var spriteWidth, spriteHeight := 0, 0;
    var i := 1;
    while i <= count
      invariant 1 <= i <= if count < 1 then 1 else count + 1
      invariant AllSheetsLoad(basePattern, i - 1, load)
      invariant AllSheetsReady(basePattern, i - 1, load, hasTransparency)
      invariant DecodesSheets(basePattern, i - 1, load, hasTransparency, all)
      invariant i == 1 ==> spriteWidth == 0 && spriteHeight == 0
      invariant i > 1 ==>
                  var last := load(SheetPath(basePattern, i - 1)).value;
                  spriteWidth == last.width / Cols && spriteHeight == last.height / Rows
    {
      var src := SheetPath(basePattern, i);
      var result := LoadAndProcessSpritesheet(src, load, hasTransparency);
      if result.Failure? {
        assert FirstFailure(basePattern, i, load, hasTransparency, result.error);
        NotReadyAt(basePattern, i, count, load, hasTransparency);
        return Failure(result.error);
      }
      ReadyStep(basePattern, i, load, hasTransparency);
      AppendSheet(basePattern, i - 1, load, hasTransparency, all, result.value.sprites);
      all := all + result.value.sprites;
      spriteWidth := result.value.spriteWidth;
      spriteHeight := result.value.spriteHeight;
      i := i + 1;
    }
    assert i - 1 == if count < 0 then 0 else count;
    r := Success(ProcessedSprites(all, spriteWidth, spriteHeight));
  }

  /** Appending the decoding of sheet `n + 1` to that of sheets `1..n`
      gives the decoding of sheets `1..n + 1`. */
  lemma AppendSheet(basePattern: string, n: nat, load: Loader, hasTransparency: bool, before: seq<Sprite>, sheet: seq<Sprite>)
    requires AllSheetsLoad(basePattern, n + 1, load)
    requires DecodesSheets(basePattern, n, load, hasTransparency, before)
    requires DecodesSheet(load(SheetPath(basePattern, n + 1)).value, hasTransparency, sheet)
    ensures DecodesSheets(basePattern, n + 1, load, hasTransparency, before + sheet)
  {
    forall i | 1 <= i <= n + 1
      ensures DecodesSheet(load(SheetPath(basePattern, i)).value, hasTransparency,
                           (before + sheet)[SpritesPerSheet * (i - 1)..SpritesPerSheet * i])
    {
      if i <= n {
        EarlierSheetKept(basePattern, n, load, hasTransparency, before, sheet, i);
      } else {
        LastSheetAppended(before, sheet, n);
      }
    }
  }

  /** The appended sheet occupies the last nine flat indices. */
  lemma LastSheetAppended(before: seq<Sprite>, sheet: seq<Sprite>, n: nat)
    requires |before| == SpritesPerSheet * n && |sheet| == SpritesPerSheet
    ensures (before + sheet)[SpritesPerSheet * n..SpritesPerSheet * (n + 1)] == sheet
  {
    assert SpritesPerSheet * (n + 1) == |before| + |sheet|;
    assert (before + sheet)[|before|..|before| + |sheet|] == sheet;
  }

  /** Appending leaves the slice of an earlier sheet as it was. */
  lemma EarlierSheetKept(basePattern: string, n: nat, load: Loader, hasTransparency: bool, before: seq<Sprite>, sheet: seq<Sprite>, i: nat)
    requires AllSheetsLoad(basePattern, n, load)
    requires DecodesSheets(basePattern, n, load, hasTransparency, before)
    requires 1 <= i <= n
    ensures DecodesSheet(load(SheetPath(basePattern, i)).value, hasTransparency,
                         (before + sheet)[SpritesPerSheet * (i - 1)..SpritesPerSheet * i])
  {
    MulLeft(i, n, SpritesPerSheet);
    SliceOfPrefix(before, sheet, SpritesPerSheet * (i - 1), SpritesPerSheet * i);
  }

  /** A slice inside the first part of a concatenation. */
  lemma SliceOfPrefix<T>(a: seq<T>, b: seq<T>, lo: nat, hi: nat)
    requires lo <= hi <= |a|
    ensures (a + b)[lo..hi] == a[lo..hi]
  {
  }

  /** Sprite `k` of sheet `i` sits at flat index `9 * (i - 1) + k`. */
  lemma FlatIndex(basePattern: string, n: nat, load: Loader, hasTransparency: bool, sprites: seq<Sprite>, i: nat, k: nat)
    requires AllSheetsLoad(basePattern, n, load)
    requires DecodesSheets(basePattern, n, load, hasTransparency, sprites)
    requires 1 <= i <= n && k < SpritesPerSheet
    ensures var img := load(SheetPath(basePattern, i)).value;
            ExtractedFrom(img, GridCell(k, img.width / Cols, img.height / Rows), hasTransparency,
                          sprites[SpritesPerSheet * (i - 1) + k])
  {
    var img := load(SheetPath(basePattern, i)).value;
    var sheet := sprites[SpritesPerSheet * (i - 1)..SpritesPerSheet * i];
    assert DecodesSheet(img, hasTransparency, sheet);
    assert sheet[k] == sprites[SpritesPerSheet * (i - 1) + k];
  }

  /** Flat sprite `k` is cell `k % 9` of sheet `k / 9 + 1`. */
  lemma FlatSprite(basePattern: string, n: nat, load: Loader, hasTransparency: bool, sprites: seq<Sprite>, k: nat)
    requires AllSheetsLoad(basePattern, n, load)
    requires DecodesSheets(basePattern, n, load, hasTransparency, sprites)
    requires k < SpritesPerSheet * n
    ensures var img := load(SheetPath(basePattern, k / SpritesPerSheet + 1)).value;
            ExtractedFrom(img, GridCell(k % SpritesPerSheet, img.width / Cols, img.height / Rows), hasTransparency, sprites[k])
  {
    var i := k / SpritesPerSheet + 1;
    assert SpritesPerSheet * (i - 1) + k % SpritesPerSheet == k;
    FlatIndex(basePattern, n, load, hasTransparency, sprites, i, k % SpritesPerSheet);
  }

  /** Without colour keying, the first sheet that is not ready is the first
      one that does not load. */
  lemma FirstFailureWithoutColorKey(basePattern: string, i: nat, load: Loader, e: LoadError)
    requires 1 <= i && FirstFailure(basePattern, i, load, true, e)
    ensures load(SheetPath(basePattern, i)).None?
    ensures AllSheetsLoad(basePattern, i - 1, load)
    ensures e == ImageLoadFailed(SheetPath(basePattern, i))
  {
    ReadyWithoutColorKey(basePattern, i - 1, load);
  }

  /** `loadSpritesToFind`: one sheet, already transparent, so sprite `k`
      is the plain crop of cell `k`. */
  method LoadSpritesToFind(load: Loader) returns (r: Result<ProcessedSprites, LoadError>)
    ensures r.Success? <==> load(SheetPath(ToFindPattern, 1)).Some?
    ensures r.Failure? ==> r.error == ImageLoadFailed(SheetPath(ToFindPattern, 1))
    ensures r.Success? ==> AllSheetsLoad(ToFindPattern, 1, load) && DecodesSheets(ToFindPattern, 1, load, true, r.value.sprites)
    ensures r.Success? ==>
              var img := load(SheetPath(ToFindPattern, 1)).value;
              && |r.value.sprites| == 9
              && r.value.spriteWidth == img.width / Cols && r.value.spriteHeight == img.height / Rows
              && forall k :: 0 <= k < 9 ==>
                   ExtractedFrom(img, GridCell(k, img.width / Cols, img.height / Rows), true, r.value.sprites[k])
  {
    ReadyWithoutColorKey(ToFindPattern, SpritesToFindCount, load);
    r := LoadMultipleSpritesheets(ToFindPattern, SpritesToFindCount, load, true);
    if r.Success? {
      forall k | 0 <= k < 9
        ensures var img := load(SheetPath(ToFindPattern, 1)).value;
                ExtractedFrom(img, GridCell(k, img.width / Cols, img.height / Rows), true, r.value.sprites[k])
      {
        FlatIndex(ToFindPattern, 1, load, true, r.value.sprites, 1, k);
      }
    } else {
      ghost var i: nat :| 1 <= i <= 1 && FirstFailure(ToFindPattern, i, load, true, r.error);
      FirstFailureWithoutColorKey(ToFindPattern, i, load, r.error);
    }
  }

  /** `loadNeutralSprites`: four sheets, already transparent, so sprite `k`
      is the plain crop of cell `k % 9` of sheet `k / 9 + 1`. */
  method LoadNeutralSprites(load: Loader) returns (r: Result<ProcessedSprites, LoadError>)
    ensures r.Success? <==> AllSheetsLoad(NeutralPattern, 4, load)
    ensures r.Failure? ==>
              exists i: nat :: 1 <= i <= 4 && load(SheetPath(NeutralPattern, i)).None?
                          && AllSheetsLoad(NeutralPattern, i - 1, load)
                          && r.error == ImageLoadFailed(SheetPath(NeutralPattern, i))
    ensures r.Success? ==> AllSheetsLoad(NeutralPattern, 4, load) && DecodesSheets(NeutralPattern, 4, load, true, r.value.sprites)
    ensures r.Success? ==>
              && |r.value.sprites| == 36
              && forall k :: 0 <= k < 36 ==>
                   var img := load(SheetPath(NeutralPattern, k / 9 + 1)).value;
                   ExtractedFrom(img, GridCell(k % 9, img.width / Cols, img.height / Rows), true, r.value.sprites[k])
  {
    ReadyWithoutColorKey(NeutralPattern, SpritesNeutralCount, load);
    r := LoadMultipleSpritesheets(NeutralPattern, SpritesNeutralCount, load, true);
    if r.Success? {
      forall k | 0 <= k < 36
        ensures var img := load(SheetPath(NeutralPattern, k / 9 + 1)).value;
                ExtractedFrom(img, GridCell(k % 9, img.width / Cols, img.height / Rows), true, r.value.sprites[k])
      {
        FlatSprite(NeutralPattern, 4, load, true, r.value.sprites, k);
      }
    } else {
      ghost var i: nat :| 1 <= i <= 4 && FirstFailure(NeutralPattern, i, load, true, r.error);
      FirstFailureWithoutColorKey(NeutralPattern, i, load, r.error);
    }
  }
}
