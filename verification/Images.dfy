/** `image.ts`: cropping an image, mapping its pixels to palette indices and run-length encoding them. */
module Images {
  import opened Collections
  import opened Hex
  import opened Options
  import opened RunLength
  import opened SvgBuilder

  datatype PngImage = PngImage(width: nat, height: nat, rgbaAt: (int, int) -> Rgba)

  // ---------- the palette ----------

  /** A palette as the encoder means it: no color twice, and number 0 is the transparent entry. */
  ghost predicate IsPalette(keys: seq<string>) {
    NoDup(keys) && |keys| > 0 && keys[0] == ""
  }

  /** Key number i stores the number i, so the list of keys can be used as the palette of a payload. */
  ghost predicate IsAligned(keys: seq<string>, index: map<string, nat>) {
    && IsPalette(keys)
    && (forall i :: 0 <= i < |keys| ==> keys[i] in index && index[keys[i]] == i)
    && (forall c :: c in index ==> index[c] < |keys| && keys[index[c]] == c)
  }

  /** A JavaScript map from colors to numbers: the keys in insertion order, and the number stored for each. */
  class ColorMap {
    var keys: seq<string>
    var index: map<string, nat>

    ghost predicate Ordered()
      reads this
    {
      KeysInOrder(keys, index)
    }

    ghost predicate Aligned()
      reads this
    {
      IsAligned(keys, index)
    }

    constructor (key: string, value: nat)
      ensures keys == [key] && index == map[key := value]
    {
      keys, index := [key], map[key := value];
    }

    method Set(key: string, value: nat)
      modifies this
      ensures keys == (if key in old(index) then old(keys) else old(keys) + [key])
      ensures index == old(index)[key := value]
    {
      if key !in index {
        keys := keys + [key];
      }
      index := index[key := value];
    }

    /** Insert the color if it does not yet exist, and look up its number. */
    method Number(color: string) returns (i: nat)
      modifies this
      ensures color in index && i == index[color]
      ensures (keys, index) == (AddKey(old(keys), old(index), color), AddNumber(old(keys), old(index), color))
    {
      if color !in index {
        Set(color, |keys|);
      }
      i := index[color];
    }
  }

  /** A color that is not yet known gets the number of keys so far. */
  function AddNumber(keys: seq<string>, index: map<string, nat>, color: string): map<string, nat> {
    if color in index then index else index[color := |keys|]
  }

  /** The keys and numbers after looking up `colors` in order. */
  function AddKeys(keys: seq<string>, index: map<string, nat>, colors: seq<string>): (seq<string>, map<string, nat>) {
    if colors == [] then (keys, index)
    else
      var (k, m) := AddKeys(keys, index, colors[..|colors| - 1]);
      (AddKey(k, m, colors[|colors| - 1]), AddNumber(k, m, colors[|colors| - 1]))
  }

  /** `more` stores the same numbers as `index`, and perhaps others. */
  ghost predicate Extends(index: map<string, nat>, more: map<string, nat>) {
    forall c :: c in index ==> c in more && more[c] == index[c]
  }

  /** No number is ever changed, and looking up known colors changes nothing. */
  lemma {:induction false} AddKeysExtends(keys: seq<string>, index: map<string, nat>, colors: seq<string>)
    ensures Extends(index, AddKeys(keys, index, colors).1)
    ensures (forall c :: c in colors ==> c in index) ==> AddKeys(keys, index, colors) == (keys, index)
  {
    if colors != [] {
      AddKeysExtends(keys, index, colors[..|colors| - 1]);
      assert forall c :: c in colors[..|colors| - 1] ==> c in colors;
    }
  }

  /** The keys stay in order, and are those of the palette with the new colors appended. */
  lemma {:induction false} AddKeysOrdered(keys: seq<string>, index: map<string, nat>, colors: seq<string>)
    requires KeysInOrder(keys, index)
    ensures KeysInOrder(AddKeys(keys, index, colors).0, AddKeys(keys, index, colors).1)
    ensures AddKeys(keys, index, colors).0 == AddColors(keys, colors)
  {
    if colors != [] {
      var n := |colors| - 1;
      var (k, m) := AddKeys(keys, index, colors[..n]);
      AddKeysOrdered(keys, index, colors[..n]);
      AddKeyInOrder(k, m, colors[n], |k|);
      KnownKey(k, m, colors[n]);
    }
  }

  lemma KnownKey(keys: seq<string>, index: map<string, nat>, color: string)
    requires KeysInOrder(keys, index)
    ensures AddKey(keys, index, color) == AddColor(keys, color)
    ensures AddNumber(keys, index, color) == if color in index then index else index[color := |keys|]
    ensures color in index ==> index[color := index[color]] == index && KeysInOrder(keys, index)
  {
  }

  /** Aligned keys and numbers stay aligned. */
  lemma {:induction false} AddKeysAligned(keys: seq<string>, index: map<string, nat>, colors: seq<string>)
    requires IsAligned(keys, index) && "" !in colors
    ensures IsAligned(AddKeys(keys, index, colors).0, AddKeys(keys, index, colors).1)
  {
    if colors != [] {
      var n := |colors| - 1;
      var (k, m) := AddKeys(keys, index, colors[..n]);
      AddKeysAligned(keys, index, colors[..n]);
      AddKeyAligned(k, m, colors[n]);
    }
  }

  lemma AddKeyAligned(keys: seq<string>, index: map<string, nat>, color: string)
    requires IsAligned(keys, index) && color != ""
    ensures IsAligned(AddKey(keys, index, color), AddNumber(keys, index, color))
  {
    PushNoDup(keys, color);
  }

  function AddColor(keys: seq<string>, color: string): seq<string> {
    if color in keys then keys else keys + [color]
  }

  /** The palette after inserting `colors` in order, each where it is first met. */
  function AddColors(keys: seq<string>, colors: seq<string>): seq<string> {
    if colors == [] then keys else AddColor(AddColors(keys, colors[..|colors| - 1]), colors[|colors| - 1])
  }

  /** Adding colors only appends: every number already handed out keeps its color. */
  lemma {:induction false} AddColorsExtends(keys: seq<string>, colors: seq<string>)
    ensures keys <= AddColors(keys, colors)
    ensures forall c :: c in AddColors(keys, colors) <==> c in keys || c in colors
    ensures NoDup(keys) ==> NoDup(AddColors(keys, colors))
  {
    if colors != [] {
      AddColorsExtends(keys, colors[..|colors| - 1]);
      assert colors == colors[..|colors| - 1] + [colors[|colors| - 1]];
    }
  }

  // ---------- bounds ----------

  predicate Opaque(png: PngImage, x: int, y: int) {
    0 <= x < png.width && 0 <= y < png.height && png.rgbaAt(x, y).a != 0
  }

  ghost predicate TransparentRow(png: PngImage, y: int) {
    forall x :: !Opaque(png, x, y)
  }

  ghost predicate TransparentColumn(png: PngImage, x: int) {
    forall y :: !Opaque(png, x, y)
  }

  /** `b` holds every pixel that is not transparent (`right` is exclusive, `bottom` inclusive). */
  ghost predicate Holds(png: PngImage, b: Bounds) {
    forall x, y :: Opaque(png, x, y) ==> b.left <= x < b.right && b.top <= y <= b.bottom
  }

  /** `b` is the tight crop of `png`: all of its edges touch content, unless it is the empty crop at the origin. */
  ghost predicate IsTight(png: PngImage, b: Bounds) {
    && b.top <= b.bottom < png.height && b.left <= b.right <= png.width
    && Holds(png, b)
    && if b.left == b.right then b == Bounds(0, 0, 0, 0)
       else !TransparentRow(png, b.top) && !TransparentRow(png, b.bottom)
            && !TransparentColumn(png, b.left) && !TransparentColumn(png, b.right - 1)
  }

  /** The tight crop is contained in every rectangle that holds the content; it is empty exactly if there is none. */
  lemma TightIsSmallest(png: PngImage, b: Bounds)
    requires IsTight(png, b)
    ensures b.left == b.right <==> forall x, y :: !Opaque(png, x, y)
    ensures forall other :: Holds(png, other) && b.left < b.right ==>
              other.top <= b.top && b.bottom <= other.bottom && other.left <= b.left && b.right <= other.right
  {
    if b.left < b.right {
      var x0 :| Opaque(png, x0, b.top);
      var x1 :| Opaque(png, x1, b.bottom);
      var y0 :| Opaque(png, b.left, y0);
      var y1 :| Opaque(png, b.right - 1, y1);
    }
  }

  // ---------- the crop, row by row ----------

  ghost function CropWidth(b: Bounds): int {
    b.right - b.left
  }

  ghost function CropPixel(png: PngImage, b: Bounds, k: nat): Rgba
    requires b.left < b.right
  {
    png.rgbaAt(b.left + k % CropWidth(b), b.top + k / CropWidth(b))
  }

  /** The first `n` pixels of the crop in row-major order. */
  ghost function Crop(png: PngImage, b: Bounds, n: nat): (s: seq<Rgba>)
    requires b.left < b.right || n == 0
    ensures |s| == n
  {
    if n == 0 then [] else Crop(png, b, n - 1) + [CropPixel(png, b, n - 1)]
  }

  /** The number of the first cell below the crop. */
  ghost function CropSize(b: Bounds): int
    requires b.top <= b.bottom
  {
    Cell(b, b.left, b.bottom + 1)
  }

  ghost function HexColors(pixels: seq<Rgba>): (s: seq<string>)
    ensures |s| == |pixels|
  {
    if pixels == [] then [] else HexColors(pixels[..|pixels| - 1]) + [RgbToHex(pixels[|pixels| - 1])]
  }

  /** `indexes` names each pixel's color in the palette `keys`, and 0 exactly for transparent pixels. */
  ghost predicate Indexed(indexes: seq<nat>, pixels: seq<Rgba>, keys: seq<string>) {
    |indexes| == |pixels|
    && forall k :: 0 <= k < |pixels| ==>
         if pixels[k].a == 0 then indexes[k] == 0
         else 0 < indexes[k] < |keys| && keys[indexes[k]] == RgbToHex(pixels[k])
  }

  /** `indexes` holds each pixel's number in `index`, and 0 for transparent pixels. */
  ghost predicate Numbered(indexes: seq<nat>, pixels: seq<Rgba>, index: map<string, nat>) {
    |indexes| == |pixels|
    && forall k :: 0 <= k < |pixels| ==>
         RgbToHex(pixels[k]) in index && indexes[k] == if pixels[k].a == 0 then 0 else index[RgbToHex(pixels[k])]
  }

  /** `indexes` are the numbers of the tight crop of `png`. */
  ghost predicate CropNumbered(png: PngImage, index: map<string, nat>, b: Bounds, indexes: seq<nat>) {
    && IsTight(png, b) && |indexes| == CropSize(b) && (b.left < b.right || |indexes| == 0)
    && Numbered(indexes, Crop(png, b, |indexes|), index)
  }

  /** `indexes` are the palette numbers of the tight crop of `png`. */
  ghost predicate CropIndexed(png: PngImage, keys: seq<string>, b: Bounds, indexes: seq<nat>) {
    && IsTight(png, b) && |indexes| == CropSize(b) && (b.left < b.right || |indexes| == 0)
    && Indexed(indexes, Crop(png, b, |indexes|), keys)
  }

  /** `text` is what `toRLE` prints for `png` when the palette ends up as `keys`. */
  ghost predicate IsRle(text: string, png: PngImage, keys: seq<string>, b: Bounds, indexes: seq<nat>) {
    CropIndexed(png, keys, b, indexes) && text == Serialize(b, Compress(indexes))
  }

  /** With keys and numbers aligned, the numbers name the colors. */
  lemma AlignedNumbersName(png: PngImage, keys: seq<string>, index: map<string, nat>, b: Bounds, indexes: seq<nat>)
    requires IsAligned(keys, index) && CropNumbered(png, index, b, indexes)
    ensures CropIndexed(png, keys, b, indexes)
  {
    var pixels := Crop(png, b, |indexes|);
    forall k | 0 <= k < |pixels| && pixels[k].a != 0
      ensures 0 < indexes[k] < |keys| && keys[indexes[k]] == RgbToHex(pixels[k])
    {
      RgbToHexInjective(pixels[k], pixels[k]);
    }
  }

  class Image {
    const png: PngImage
    var bounds: Bounds

    constructor (png: PngImage)
      ensures this.png == png && bounds == Bounds(0, 0, 0, 0)
    {
      this.png := png;
      bounds := Bounds(0, 0, 0, 0);
    }

    method IsTransparentColumn(column: int) returns (r: bool)
      requires 0 <= column < png.width
      ensures r <==> TransparentColumn(png, column)
    {
      for row := 0 to png.height
        invariant forall y :: 0 <= y < row ==> png.rgbaAt(column, y).a == 0
      {
        if png.rgbaAt(column, row).a != 0 {
          assert Opaque(png, column, row);
          return false;
        }
      }
      return true;
    }

    method IsTransparentRow(row: int) returns (r: bool)
      requires 0 <= row < png.height
      ensures r <==> TransparentRow(png, row)
    {
      for column := 0 to png.width
        invariant forall x :: 0 <= x < column ==> png.rgbaAt(x, row).a == 0
      {
        if png.rgbaAt(column, row).a != 0 {
          assert Opaque(png, column, row);
          return false;
        }
      }
      return true;
    }

    /** The scan from the last row up; it stops at row 0 without looking at it. */
    method CalcBounds() returns (b: Bounds)
      requires png.height > 0
      ensures IsTight(png, b)
    {
      var bottom := png.height - 1;
      var transparent := false;
      if bottom > 0 { transparent := IsTransparentRow(bottom); }
      while bottom > 0 && transparent
        invariant 0 <= bottom < png.height
        invariant forall y :: bottom < y ==> TransparentRow(png, y)
        invariant bottom > 0 ==> (transparent <==> TransparentRow(png, bottom))
        decreases bottom
      {
        bottom := bottom - 1;
        if bottom > 0 { transparent := IsTransparentRow(bottom); }
      }

      var top := 0;
      transparent := false;
      if top < bottom { transparent := IsTransparentRow(top); }
      while top < bottom && transparent
        invariant 0 <= top <= bottom
        invariant forall y :: y < top ==> TransparentRow(png, y)
        invariant top < bottom ==> (transparent <==> TransparentRow(png, top))
      {
        top := top + 1;
        if top < bottom { transparent := IsTransparentRow(top); }
      }

      var right := png.width - 1;
      transparent := false;
      if right >= 0 { transparent := IsTransparentColumn(right); }
      while right >= 0 && transparent
        invariant -1 <= right < png.width
        invariant forall x :: right < x ==> TransparentColumn(png, x)
        invariant right >= 0 ==> (transparent <==> TransparentColumn(png, right))
        decreases right
      {
        right := right - 1;
        if right >= 0 { transparent := IsTransparentColumn(right); }
      }

      var left := 0;
      transparent := false;
      if left < right { transparent := IsTransparentColumn(left); }
      while left < right && transparent
        invariant 0 <= left && (right >= 0 ==> left <= right) && (right < 0 ==> left == 0)
        invariant forall x :: x < left ==> TransparentColumn(png, x)
        invariant left < right ==> (transparent <==> TransparentColumn(png, left))
      {
        left := left + 1;
        if left < right { transparent := IsTransparentColumn(left); }
      }

      b := Bounds(top, right + 1, bottom, left);
      ScansAreTight(png, b);
    }

    /** The index of pixel (x, y), the next cell of the crop; its color joins the palette even if it is transparent. */
    method IndexPixel(colors: ColorMap, b: Bounds, x: int, y: int, data: seq<nat>, ghost keys: seq<string>, ghost index: map<string, nat>)
      returns (i: nat)
      requires Progress(png, b, keys, index, data, colors.keys, colors.index)
      requires b.left <= x < b.right && b.top <= y && |data| == Cell(b, x, y)
      modifies colors
      ensures Progress(png, b, keys, index, data + [i], colors.keys, colors.index)
      ensures |data| + 1 == Cell(b, x + 1, y)
    {
      var pixel := png.rgbaAt(x, y);
      var hexColor := RgbToHex(pixel);
      CellPixel(png, b, x, y, |data|);
      ghost var wasKeys, wasIndex := colors.keys, colors.index;
      var number := colors.Number(hexColor);
      i := if pixel.a == 0 then 0 else number;
      IndexStep(png, b, keys, index, data, wasKeys, wasIndex, pixel, i);
      PenMoves(b, x, y, 1);
    }

    /** The row-by-row loops of `toRLE`. */
    method IndexPixels(colors: ColorMap, b: Bounds, ghost keys: seq<string>, ghost index: map<string, nat>) returns (data: seq<nat>)
      requires b.top <= b.bottom && b.left <= b.right && Progress(png, b, keys, index, [], colors.keys, colors.index)
      modifies colors
      ensures Progress(png, b, keys, index, data, colors.keys, colors.index)
      ensures |data| == CropSize(b)
    {
      data := [];
      var y := b.top;
      PenMoves(b, b.left, b.top, 0);
      while y <= b.bottom
        invariant b.top <= y <= b.bottom + 1
        invariant Progress(png, b, keys, index, data, colors.keys, colors.index)
        invariant |data| == Cell(b, b.left, y)
      {
        var x := b.left;
        while x < b.right
          invariant b.left <= x <= b.right
          invariant Progress(png, b, keys, index, data, colors.keys, colors.index)
          invariant |data| == Cell(b, x, y)
        {
          var i := IndexPixel(colors, b, x, y, data, keys, index);
          data := data + [i];
          x := x + 1;
        }
        PenMoves(b, b.left, y, 0);
        y := y + 1;
      }
    }

    method ToRLE(colors: ColorMap) returns (text: string, ghost indexes: seq<nat>)
      requires png.height > 0
      modifies this, colors
      ensures CropNumbered(png, colors.index, bounds, indexes) && text == Serialize(bounds, Compress(indexes))
      ensures (colors.keys, colors.index) == AddKeys(old(colors.keys), old(colors.index), HexColors(Crop(png, bounds, |indexes|)))
    {
      bounds := CalcBounds();
      NothingIndexed(png, bounds, colors.keys, colors.index);
      var data := IndexPixels(colors, bounds, colors.keys, colors.index);
      var runs := Encode(data);
      indexes := data;
      text := Metadata(bounds) + runs;
    }

    /** The scan of `encode`: a run ends when the value changes or the count reaches 255. */
    method Encode(data: seq<nat>) returns (text: string)
      ensures text == PrintRuns(Compress(data))
    {
      var encoding := "";
      if data == [] {
        return encoding;
      }
      var previous, count := data[0], 1;
      ghost var pushed: seq<Run> := [];
      for i := 1 to |data|
        invariant 1 <= count <= 255
        invariant encoding == PrintRuns(pushed)
        invariant Compress(data) == pushed + Scan(previous, count, data[i..])
      {
        ScanNext(data, i, pushed, previous, count);
        if data[i] != previous || count == 255 {
          PrintRunsSnoc(pushed, Run(count, previous));
          pushed := pushed + [Run(count, previous)];
          encoding := encoding + (ToPaddedHex(count) + ToPaddedHex(previous));
          count := 1;
          previous := data[i];
        } else {
          count := count + 1;
        }
      }
      PrintRunsSnoc(pushed, Run(count, previous));
      return encoding + (ToPaddedHex(count) + ToPaddedHex(previous));
    }
  }

  lemma ScanNext(data: seq<nat>, i: nat, pushed: seq<Run>, previous: nat, count: nat)
    requires i < |data|
    ensures pushed + Scan(previous, count, data[i..])
         == if data[i] != previous || count == 255 then (pushed + [Run(count, previous)]) + Scan(data[i], 1, data[i + 1..])
            else pushed + Scan(previous, count + 1, data[i + 1..])
  {
    assert data[i..][1..] == data[i + 1..];
  }

  /** After some pixels of the crop: all of them numbered, and the palette grown by exactly their colors. */
  ghost predicate Progress(png: PngImage, b: Bounds, wasKeys: seq<string>, wasIndex: map<string, nat>, indexes: seq<nat>,
                           keys: seq<string>, index: map<string, nat>) {
    && (b.left < b.right || |indexes| == 0)
    && Numbered(indexes, Crop(png, b, |indexes|), index)
    && (keys, index) == AddKeys(wasKeys, wasIndex, HexColors(Crop(png, b, |indexes|)))
  }

  lemma NothingIndexed(png: PngImage, b: Bounds, keys: seq<string>, index: map<string, nat>)
    ensures Progress(png, b, keys, index, [], keys, index)
  {
  }

  lemma NumberStep(indexes: seq<nat>, pixels: seq<Rgba>, keys: seq<string>, index: map<string, nat>, pixel: Rgba, i: nat)
    requires Numbered(indexes, pixels, index)
    requires i == if pixel.a == 0 then 0 else AddNumber(keys, index, RgbToHex(pixel))[RgbToHex(pixel)]
    ensures Numbered(indexes + [i], pixels + [pixel], AddNumber(keys, index, RgbToHex(pixel)))
  {
  }

  lemma ColorStep(keys: seq<string>, index: map<string, nat>, pixels: seq<Rgba>, pixel: Rgba)
    ensures var (k, m) := AddKeys(keys, index, HexColors(pixels));
            AddKeys(keys, index, HexColors(pixels + [pixel])) == (AddKey(k, m, RgbToHex(pixel)), AddNumber(k, m, RgbToHex(pixel)))
  {
    assert (pixels + [pixel])[..|pixels|] == pixels;
    assert HexColors(pixels + [pixel]) == HexColors(pixels) + [RgbToHex(pixel)];
    assert HexColors(pixels + [pixel])[..|pixels|] == HexColors(pixels);
  }

  lemma IndexStep(png: PngImage, b: Bounds, wasKeys: seq<string>, wasIndex: map<string, nat>, indexes: seq<nat>,
                  keys: seq<string>, index: map<string, nat>, pixel: Rgba, i: nat)
    requires b.left < b.right && Progress(png, b, wasKeys, wasIndex, indexes, keys, index)
    requires pixel == CropPixel(png, b, |indexes|)
    requires i == if pixel.a == 0 then 0 else AddNumber(keys, index, RgbToHex(pixel))[RgbToHex(pixel)]
    ensures Progress(png, b, wasKeys, wasIndex, indexes + [i],
                     AddKey(keys, index, RgbToHex(pixel)), AddNumber(keys, index, RgbToHex(pixel)))
  {
    var pixels := Crop(png, b, |indexes|);
    assert Crop(png, b, |indexes + [i]|) == pixels + [pixel];
    NumberStep(indexes, pixels, keys, index, pixel, i);
    ColorStep(wasKeys, wasIndex, pixels, pixel);
  }

  lemma {:induction false} HexColorsAreKeys(pixels: seq<Rgba>)
    ensures "" !in HexColors(pixels)
  {
    if pixels != [] {
      RgbToHexInjective(pixels[|pixels| - 1], pixels[|pixels| - 1]);
      HexColorsAreKeys(pixels[..|pixels| - 1]);
    }
  }

  lemma CellPixel(png: PngImage, b: Bounds, x: int, y: int, k: nat)
    requires b.left <= x < b.right && b.top <= y && k == Cell(b, x, y)
    ensures CropPixel(png, b, k) == png.rgbaAt(x, y)
  {
    CellInverse(b, x, y, k);
  }

  lemma ScansAreTight(png: PngImage, b: Bounds)
    requires b.top <= b.bottom < png.height && b.left <= b.right <= png.width
    requires forall y :: b.bottom < y ==> TransparentRow(png, y)
    requires forall y :: y < b.top ==> TransparentRow(png, y)
    requires forall x :: b.right <= x ==> TransparentColumn(png, x)
    requires forall x :: x < b.left ==> TransparentColumn(png, x)
    requires b.bottom > 0 ==> !TransparentRow(png, b.bottom)
    requires b.top < b.bottom ==> !TransparentRow(png, b.top)
    requires b.right > 0 ==> !TransparentColumn(png, b.right - 1)
    requires b.left + 1 < b.right ==> !TransparentColumn(png, b.left)
    requires b.right == 0 ==> b.left == 0
    requires b.right > 0 ==> b.left < b.right
    ensures IsTight(png, b)
  {
    forall x, y | Opaque(png, x, y) ensures b.left <= x < b.right && b.top <= y <= b.bottom {
      assert !TransparentRow(png, y) && !TransparentColumn(png, x);
    }
    if exists x, y :: Opaque(png, x, y) {
      var x, y :| Opaque(png, x, y);
      assert !TransparentRow(png, y);
    } else {
      assert TransparentRow(png, b.bottom);
      assert TransparentColumn(png, b.right - 1);
    }
  }
}
