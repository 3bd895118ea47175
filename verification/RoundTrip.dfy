/** Encoding, printing, parsing and drawing an image gives back its pixels. */
module RoundTrip {
  import opened Collections
  import opened Hex
  import opened Options
  import opened RunLength
  import opened SvgBuilder
  import opened Images

  /** Drawing `d` gives pixel (x, y) its own color and leaves it unpainted if it is transparent or outside. */
  ghost predicate ShowsPixel(d: DecodedImage, keys: seq<string>, png: PngImage, x: int, y: int) {
    var shown := Shown(d, x, y);
    if Opaque(png, x, y) then shown.Some? && shown.value < |keys| && IsFill(keys[shown.value], png.rgbaAt(x, y))
    else shown == None
  }

  ghost predicate Shows(text: string, keys: seq<string>, png: PngImage) {
    DecodeImage(text).Some? && forall x, y :: ShowsPixel(DecodeImage(text).value, keys, png, x, y)
  }

  lemma {:induction false} CropAt(png: PngImage, b: Bounds, n: nat, k: nat)
    requires b.left < b.right && k < n
    ensures Crop(png, b, n)[k] == CropPixel(png, b, k)
  {
    if k < n - 1 { CropAt(png, b, n - 1, k); }
  }

  lemma {:induction false} ExpandedAreBytes(runs: seq<Run>)
    requires forall i :: 0 <= i < |runs| ==> TwoDigitRun(runs[i])
    ensures forall k :: 0 <= k < |Expand(runs)| ==> Expand(runs)[k] < 256
  {
    if runs != [] { ExpandedAreBytes(runs[1..]); }
  }

  lemma CellsOfCrop(b: Bounds, x: int, y: int)
    requires b.top <= b.bottom && b.left <= x < b.right && b.top <= y
    ensures y <= b.bottom <==> Cell(b, x, y) < CropSize(b)
    ensures 0 <= Cell(b, x, y)
  {
    CellInverse(b, x, y, Cell(b, x, y));
    if y <= b.bottom {
      RowsApart(y - b.top, b.bottom + 1 - b.top, b.right - b.left);
    } else if y > b.bottom + 1 {
      RowsApart(b.bottom + 1 - b.top, y - b.top, b.right - b.left);
    }
  }

  lemma IndexedAt(png: PngImage, keys: seq<string>, b: Bounds, indexes: seq<nat>, x: int, y: int)
    requires CropIndexed(png, keys, b, indexes) && b.left <= x < b.right && b.top <= y <= b.bottom
    ensures 0 <= Cell(b, x, y) < |indexes|
    ensures var i := indexes[Cell(b, x, y)];
            if Opaque(png, x, y) then 0 < i < |keys| && IsFill(keys[i], png.rgbaAt(x, y)) else i == 0
  {
    FillIff(RgbToHex(png.rgbaAt(x, y)), png.rgbaAt(x, y));
    var k := Cell(b, x, y);
    CellsOfCrop(b, x, y);
    CellPixel(png, b, x, y, k);
    CropAt(png, b, |indexes|, k);
  }

  lemma IndexedPixel(png: PngImage, keys: seq<string>, b: Bounds, indexes: seq<nat>, x: int, y: int)
    requires CropIndexed(png, keys, b, indexes)
    ensures ShowsPixel(DecodedImage(0, b, Compress(indexes)), keys, png, x, y)
  {
    CompressExpands(indexes);
    if b.left <= x < b.right && b.top <= y {
      CellsOfCrop(b, x, y);
      if y <= b.bottom { IndexedAt(png, keys, b, indexes, x, y); }
    }
  }

  /** The pixel of the crop that a non-zero index stands for. */
  lemma IndexedFrom(png: PngImage, keys: seq<string>, b: Bounds, indexes: seq<nat>, k: nat) returns (x: int, y: int)
    requires CropIndexed(png, keys, b, indexes) && k < |indexes| && indexes[k] != 0
    ensures Opaque(png, x, y) && indexes[k] < |keys| && IsFill(keys[indexes[k]], png.rgbaAt(x, y))
  {
    x, y := PixelAtCell(b, k);
    CellsOfCrop(b, x, y);
    IndexedAt(png, keys, b, indexes, x, y);
  }

  lemma PixelAtCell(b: Bounds, k: nat) returns (x: int, y: int)
    requires b.left < b.right
    ensures b.left <= x < b.right && b.top <= y && Cell(b, x, y) == k
  {
    var w := b.right - b.left;
    x, y := b.left + k % w, b.top + k / w;
    PixelLandsAt(b, Repeat(k + 1, 0), k);
  }

  ghost predicate AllBytes(indexes: seq<nat>) {
    forall k :: 0 <= k < |indexes| ==> indexes[k] < 256
  }

  lemma FittingRleShows(png: PngImage, keys: seq<string>, b: Bounds, indexes: seq<nat>)
    requires CropIndexed(png, keys, b, indexes) && AllBytes(indexes) && b.right < 256 && b.bottom < 256
    ensures Shows(Serialize(b, Compress(indexes)), keys, png)
  {
    var runs := Compress(indexes);
    CompressExpands(indexes);
    forall i | 0 <= i < |runs| ensures TwoDigitRun(runs[i]) {
      assert runs[i].colorIndex in indexes;
    }
    DecodeInvertsSerialize(b, runs);
    forall x, y ensures ShowsPixel(DecodedImage(0, b, runs), keys, png, x, y) {
      IndexedPixel(png, keys, b, indexes, x, y);
    }
  }

  /** Whatever the text, what it decodes to can show only columns and palette numbers that fit in two digits. */
  lemma ShownFits(text: string, png: PngImage, keys: seq<string>, x: int, y: int)
    requires Shows(text, keys, png) && Opaque(png, x, y)
    ensures x < 255 && exists i :: 0 <= i < 256 && i < |keys| && IsFill(keys[i], png.rgbaAt(x, y))
  {
    var d := DecodeImage(text).value;
    DecodedFieldsAreBytes(text);
    ExpandedAreBytes(d.rects);
    assert ShowsPixel(d, keys, png, x, y);
    var i := Shown(d, x, y).value;
    assert IsFill(keys[i], png.rgbaAt(x, y));
  }

  /** For content in the first 256 rows, the drawing is the image exactly when the right bound and every index fit in two digits. */
  lemma RleShowsIffItFits(text: string, png: PngImage, keys: seq<string>, b: Bounds, indexes: seq<nat>)
    requires IsRle(text, png, keys, b, indexes) && NoDup(keys) && b.bottom < 256
    ensures Shows(text, keys, png) <==> b.right < 256 && AllBytes(indexes)
  {
    if b.right < 256 && AllBytes(indexes) {
      FittingRleShows(png, keys, b, indexes);
    }
    if Shows(text, keys, png) {
      if b.right > 0 {
        var y :| Opaque(png, b.right - 1, y);
        ShownFits(text, png, keys, b.right - 1, y);
      }
      forall k | 0 <= k < |indexes| ensures indexes[k] < 256 {
        if indexes[k] != 0 {
          ShownIndexFits(text, png, keys, b, indexes, k);
        }
      }
    }
  }

  lemma ShownIndexFits(text: string, png: PngImage, keys: seq<string>, b: Bounds, indexes: seq<nat>, k: nat)
    requires CropIndexed(png, keys, b, indexes) && NoDup(keys) && Shows(text, keys, png) && k < |indexes| && indexes[k] != 0
    ensures indexes[k] < 256
  {
    var x, y := IndexedFrom(png, keys, b, indexes, k);
    ShownFits(text, png, keys, x, y);
    var i :| 0 <= i < 256 && i < |keys| && IsFill(keys[i], png.rgbaAt(x, y));
    FillIff(keys[i], png.rgbaAt(x, y));
    FillIff(keys[indexes[k]], png.rgbaAt(x, y));
  }

  /** A palette of at most 256 entries and an image of at most 255 x 256 pixels always round-trip. */
  lemma RleShows(text: string, png: PngImage, keys: seq<string>, b: Bounds, indexes: seq<nat>)
    requires IsRle(text, png, keys, b, indexes) && NoDup(keys)
    requires png.width <= 255 && png.height <= 256 && |keys| <= 256
    ensures Shows(text, keys, png)
  {
    RleShowsIffItFits(text, png, keys, b, indexes);
    forall k | 0 <= k < |indexes| ensures indexes[k] < 256 {
      assert Indexed(indexes, Crop(png, b, |indexes|), keys);
    }
  }

  /** The topmost of `pngs` that is not transparent at (x, y). */
  ghost function Topmost(pngs: seq<PngImage>, x: int, y: int): Option<Rgba> {
    if pngs == [] then None
    else
      var n := |pngs| - 1;
      if Opaque(pngs[n], x, y) then Some(pngs[n].rgbaAt(x, y)) else Topmost(pngs[..n], x, y)
  }

  /** A stack of drawn images shows, at each pixel, the color of the topmost image that is opaque there. */
  lemma {:induction false} StackShowsTopmost(images: seq<DecodedImage>, pngs: seq<PngImage>, keys: seq<string>, x: int, y: int)
    requires |images| == |pngs|
    requires forall i :: 0 <= i < |images| ==> ShowsPixel(images[i], keys, pngs[i], x, y)
    ensures match Topmost(pngs, x, y)
            case None => Stacked(images, x, y) == None
            case Some(color) =>
              var c := Stacked(images, x, y);
              c.Some? && c.value < |keys| && IsFill(keys[c.value], color)
  {
    if images != [] {
      var n := |images| - 1;
      assert ShowsPixel(images[n], keys, pngs[n], x, y);
      StackShowsTopmost(images[..n], pngs[..n], keys, x, y);
    }
  }

  // ---------- as buildSVG draws it ----------

  /** A run that is not empty gives some pixel its color. */
  lemma {:induction false} RunHasPixel(runs: seq<Run>, i: nat) returns (k: nat)
    requires i < |runs| && runs[i].length > 0
    ensures k < |Expand(runs)| && Expand(runs)[k] == runs[i].colorIndex
  {
    if i == 0 {
      k := 0;
    } else {
      k := RunHasPixel(runs[1..], i - 1);
      k := k + runs[0].length;
    }
  }

  /** A payload that shows its image reads no palette entry that is not there. */
  lemma ShownMissesNothing(text: string, keys: seq<string>, png: PngImage)
    requires Shows(text, keys, png)
    ensures !MissesColor(DecodeImage(text).value, keys)
  {
    var d := DecodeImage(text).value;
    forall i | d.bounds.left < d.bounds.right && 0 <= i < |d.rects| && d.rects[i].length > 0 && d.rects[i].colorIndex != 0
      ensures d.rects[i].colorIndex < |keys|
    {
      var k := RunHasPixel(d.rects, i);
      var x, y := PixelAtCell(d.bounds, k);
      assert ShowsPixel(d, keys, png, x, y);
    }
  }

  /** The rectangles paint (x, y) in the given color, or not at all. */
  ghost predicate PaintsColor(rects: seq<Rect>, keys: seq<string>, color: Option<Rgba>, x: int, y: int) {
    var c := Painted(rects, x, y);
    match color
    case None => c == None
    case Some(rgba) => c.Some? && c.value < |keys| && IsFill(keys[c.value], rgba)
  }

  ghost predicate AllShow(parts: seq<string>, pngs: seq<PngImage>, keys: seq<string>) {
    |parts| == |pngs| && forall i :: 0 <= i < |parts| ==> Shows(parts[i], keys, pngs[i])
  }

  lemma StackDoesNotThrow(parts: seq<string>, pngs: seq<PngImage>, keys: seq<string>)
    requires AllShow(parts, pngs, keys)
    ensures Readable(parts) && !Throws(Decoded(parts), keys)
  {
    forall i | 0 <= i < |parts| ensures !MissesColor(Decoded(parts)[i], keys) {
      ShownMissesNothing(parts[i], keys, pngs[i]);
    }
  }

  /** Drawing a stack of payloads that show their images never throws, and paints at each pixel the color of the topmost
      image that is opaque there, and nothing where there is none. */
  lemma StackIsDrawn(parts: seq<string>, pngs: seq<PngImage>, keys: seq<string>, rects: Option<seq<Rect>>)
    requires AllShow(parts, pngs, keys) && DrawsParts(rects, parts, keys)
    ensures rects.Some? && forall x, y :: PaintsColor(rects.value, keys, Topmost(pngs, x, y), x, y)
  {
    StackDoesNotThrow(parts, pngs, keys);
    forall x, y ensures PaintsColor(rects.value, keys, Topmost(pngs, x, y), x, y) {
      forall i | 0 <= i < |parts| ensures ShowsPixel(Decoded(parts)[i], keys, pngs[i], x, y) {
        assert Shows(parts[i], keys, pngs[i]);
      }
      StackShowsTopmost(Decoded(parts), pngs, keys, x, y);
    }
  }
}
