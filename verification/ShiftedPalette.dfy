/** What a constructor palette with shifted numbers does to the images drawn with it. */
module ShiftedPalette {
  import opened Collections
  import opened Hex
  import opened Options
  import opened RunLength
  import opened SvgBuilder
  import opened Images
  import opened RoundTrip
  import opened PngCollectionEncoder

  /** An image of one pixel. */
  function Single(c: Rgba): PngImage {
    PngImage(1, 1, (x, y) => c)
  }

  const SINGLE_BOUNDS := Bounds(0, 1, 0, 0)

  /** The payload of a single pixel with the given number. */
  function SingleText(i: nat): string {
    Serialize(SINGLE_BOUNDS, [Run(1, i)])
  }

  lemma SingleTight(c: Rgba, b: Bounds)
    requires c.a != 0 && IsTight(Single(c), b)
    ensures b == SINGLE_BOUNDS
  {
    assert Opaque(Single(c), 0, 0);
  }

  lemma SingleSize(b: Bounds)
    requires b.left == 0 && b.right == 1 && b.top == b.bottom == 0
    ensures CropSize(b) == 1
  {
    RowsProduct(1, 1);
  }

  lemma SingleCrop(c: Rgba, index: map<string, nat>, b: Bounds, indexes: seq<nat>)
    requires c.a != 0 && CropNumbered(Single(c), index, b, indexes)
    ensures b == SINGLE_BOUNDS && RgbToHex(c) in index && indexes == [index[RgbToHex(c)]]
    ensures Crop(Single(c), b, |indexes|) == [c]
  {
    SingleTight(c, b);
    SingleSize(b);
    OnePixel(c, b, 1);
    assert Crop(Single(c), b, |indexes|)[0] == c;
  }

  lemma OnePixel(c: Rgba, b: Bounds, n: nat)
    requires b.left < b.right && n == 1
    ensures Crop(Single(c), b, n) == [c]
  {
    assert Crop(Single(c), b, n - 1) == [];
  }

  /** Encoding one pixel of a known color prints its number and leaves the palette as it was. */
  lemma EncodedSingle(keys: seq<string>, index: map<string, nat>, c: Rgba, source: Source)
    requires source.png == Single(c) && c.a != 0 && RgbToHex(c) in index
    requires source.HasCrop() && source.Under(source.Added(keys, index).1)
    ensures source.Text() == SingleText(index[RgbToHex(c)]) && source.Added(keys, index) == (keys, index)
  {
    SingleCrop(c, source.Added(keys, index).1, source.bounds, source.indexes);
    assert [c][..0] == [];
    assert HexColors([c]) == [RgbToHex(c)];
    AddKeysExtends(keys, index, [RgbToHex(c)]);
  }

  lemma SinglePixel(b: Bounds, i: nat, x: int, y: int)
    requires b.left == 0 && b.right == 1 && b.top == 0
    ensures PixelOf(b, [i], x, y) == if x == 0 && y == 0 && i != 0 then Some(i) else None
  {
    if x == 0 && y >= 0 {
      RowsProduct(y, 1);
      CellOnly(b, [i], x, y, y);
    } else {
      OutsideNothing(b, [i], x, y);
    }
  }

  lemma OutsideNothing(b: Bounds, pixels: seq<nat>, x: int, y: int)
    requires !(b.left <= x < b.right && b.top <= y)
    ensures PixelOf(b, pixels, x, y) == None
  {
  }

  lemma CellOnly(b: Bounds, pixels: seq<nat>, x: int, y: int, k: int)
    requires b.left <= x < b.right && b.top <= y && k == Cell(b, x, y) && k >= 0
    ensures PixelOf(b, pixels, x, y) == if k < |pixels| && pixels[k] != 0 then Some(pixels[k]) else None
  {
  }

  /** A single pixel is drawn in its own color exactly if its number is not 0 and names the color. */
  lemma SingleShowsIff(keys: seq<string>, c: Rgba, i: nat)
    requires c.a != 0 && i < 256
    ensures Shows(SingleText(i), keys, Single(c)) <==> 0 < i < |keys| && keys[i] == RgbToHex(c)
  {
    DecodeInvertsSerialize(SINGLE_BOUNDS, [Run(1, i)]);
    var d := DecodedImage(0, SINGLE_BOUNDS, [Run(1, i)]);
    assert Expand(d.rects) == Repeat(1, i) + Expand([]) == [i];
    forall x, y ensures Shown(d, x, y) == if x == 0 && y == 0 && i != 0 then Some(i) else None {
      SinglePixel(SINGLE_BOUNDS, i, x, y);
    }
    if i < |keys| { FillIff(keys[i], c); }
    assert ShowsPixel(d, keys, Single(c), 0, 0) <==> 0 < i < |keys| && keys[i] == RgbToHex(c);
  }

  /** The palette lists colors, and `''` at most in the first place. */
  ghost predicate ListsColors(palette: seq<string>) {
    forall i :: 0 <= i < |palette| ==> (i == 0 && palette[0] == "") || exists c: Rgba :: RgbToHex(c) == palette[i]
  }

  /** Every color of the palette names itself by its number. */
  ghost predicate NamesItself(palette: seq<string>, color: string)
    requires color in SeedIndex(palette)
  {
    var i := SeedIndex(palette)[color];
    0 < i < |SeedKeys(palette)| && SeedKeys(palette)[i] == color
  }

  lemma {:induction false} TransparentNumber(palette: seq<string>)
    requires forall i :: 1 <= i < |palette| ==> palette[i] != ""
    ensures "" in SeedIndex(palette) && SeedIndex(palette)[""] == 0
  {
    if palette != [] { TransparentNumber(palette[..|palette| - 1]); }
  }

  lemma {:induction false} SeedNumberBound(palette: seq<string>)
    ensures forall c :: c in SeedIndex(palette) ==> SeedIndex(palette)[c] == 0 || SeedIndex(palette)[c] < |palette|
    ensures forall c :: c in palette ==> c in SeedIndex(palette) && c in SeedKeys(palette)
  {
    if palette != [] {
      SeedNumberBound(palette[..|palette| - 1]);
      SeedKeysBound(palette);
      assert palette == palette[..|palette| - 1] + [palette[|palette| - 1]];
    }
  }

  lemma PositionUnique(keys: seq<string>, i: nat, j: nat)
    requires NoDup(keys) && i < |keys| && j < |keys| && keys[i] == keys[j]
    ensures i == j
  {
  }

  /** If every color but `''` names itself, keys and numbers are aligned. */
  lemma NamedIsAligned(palette: seq<string>)
    requires (forall i :: 1 <= i < |palette| ==> palette[i] != "")
    requires forall c :: c in SeedIndex(palette) && c != "" ==> NamesItself(palette, c)
    ensures IsAligned(SeedKeys(palette), SeedIndex(palette))
  {
    var keys, index := SeedKeys(palette), SeedIndex(palette);
    SeedKeysBound(palette);
    AddColorsExtends([""], palette);
    TransparentNumber(palette);
    forall i | 0 <= i < |keys| ensures keys[i] in index && index[keys[i]] == i {
      assert keys[i] in (set c | c in keys);
      if keys[i] != "" {
        assert NamesItself(palette, keys[i]);
        PositionUnique(keys, i, index[keys[i]]);
      } else {
        PositionUnique(keys, i, 0);
      }
    }
    forall c | c in index ensures index[c] < |keys| && keys[index[c]] == c {
      assert c in (set k | k in keys);
      if c != "" { assert NamesItself(palette, c); }
    }
  }

  /** With a palette of at most 256 colors, a new encoder draws every one-pixel image of a palette color in that color exactly
      if the palette is unshifted. */
  lemma SinglesDrawnIff(palette: seq<string>)
    requires ListsColors(palette) && |palette| <= 256
    ensures (forall c: Rgba :: c.a != 0 && RgbToHex(c) in palette ==>
               RgbToHex(c) in SeedIndex(palette)
               && Shows(SingleText(SeedIndex(palette)[RgbToHex(c)]), SeedKeys(palette), Single(c)))
       <==> Unshifted(palette)
  {
    var keys, index := SeedKeys(palette), SeedIndex(palette);
    SeedNumberBound(palette);
    AlignedIffUnshifted(palette);
    forall c: Rgba | c.a != 0 && RgbToHex(c) in palette
      ensures RgbToHex(c) in index && (Shows(SingleText(index[RgbToHex(c)]), keys, Single(c)) <==> NamesItself(palette, RgbToHex(c)))
    {
      SingleShowsIff(keys, c, index[RgbToHex(c)]);
    }
    if IsAligned(keys, index) {
      forall c: Rgba | c.a != 0 && RgbToHex(c) in palette ensures NamesItself(palette, RgbToHex(c)) {
        RgbToHexInjective(c, c);
      }
    }
    if forall c: Rgba :: c.a != 0 && RgbToHex(c) in palette ==> NamesItself(palette, RgbToHex(c)) {
      AllNamedIsAligned(palette);
    }
  }

  lemma ColorIsNamed(palette: seq<string>, color: string)
    requires ListsColors(palette) && color in SeedIndex(palette) && color != ""
    requires forall c: Rgba :: RgbToHex(c) in palette ==> RgbToHex(c) in SeedIndex(palette)
    requires forall c: Rgba :: c.a != 0 && RgbToHex(c) in palette ==> NamesItself(palette, RgbToHex(c))
    ensures NamesItself(palette, color)
  {
    SeedKeysBound(palette);
    AddColorsExtends([""], palette);
    assert color in (set k | k in SeedKeys(palette));
    var i :| 0 <= i < |palette| && palette[i] == color;
    var c: Rgba :| RgbToHex(c) == palette[i];
    assert RgbToHex(c.(a := 255)) == color;
  }

  lemma AllNamedIsAligned(palette: seq<string>)
    requires ListsColors(palette) && forall c: Rgba :: RgbToHex(c) in palette ==> RgbToHex(c) in SeedIndex(palette)
    requires forall c: Rgba :: c.a != 0 && RgbToHex(c) in palette ==> NamesItself(palette, RgbToHex(c))
    ensures IsAligned(SeedKeys(palette), SeedIndex(palette))
  {
    forall i | 1 <= i < |palette| ensures palette[i] != "" {
      if palette[i] == "" {
        var c: Rgba :| RgbToHex(c) == palette[i];
        RgbToHexInjective(c, c);
      }
    }
    forall color | color in SeedIndex(palette) && color != "" ensures NamesItself(palette, color) {
      ColorIsNamed(palette, color);
    }
    NamedIsAligned(palette);
  }

  /** A palette of one color, without the transparent entry: its color gets number 0 and is not drawn. */
  lemma PlainPaletteHidesColor(c: Rgba)
    requires c.a != 0
    ensures var palette := [RgbToHex(c)];
            && RgbToHex(c) in SeedIndex(palette)
            && !Shows(SingleText(SeedIndex(palette)[RgbToHex(c)]), SeedKeys(palette), Single(c))
  {
    var palette := [RgbToHex(c)];
    assert palette[..0] == [];
    assert SeedIndex(palette) == SeedIndex([])[RgbToHex(c) := 0];
    SingleShowsIff(SeedKeys(palette), c, 0);
  }
}
