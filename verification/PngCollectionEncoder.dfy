/** `png-collection-encoder.ts`: many images over one growing palette, grouped in folders. */
module PngCollectionEncoder {
  import opened Collections
  import opened Hex
  import opened Options
  import opened RunLength
  import opened SvgBuilder
  import opened Images
  import opened RoundTrip

  datatype EncodedImage = EncodedImage(filename: string, data: Option<string>)

  // ---------- pre-populating the palette ----------

  /** The numbers after each given color has been stored with its position, on top of the transparent entry. */
  function SeedIndex(colors: seq<string>): map<string, nat> {
    if colors == [] then map["" := 0]
    else SeedIndex(colors[..|colors| - 1])[colors[|colors| - 1] := |colors| - 1]
  }

  function SeedKeys(colors: seq<string>): seq<string> {
    AddColors([""], colors)
  }

  ghost predicate SeedAligned(colors: seq<string>) {
    forall i :: 0 <= i < |SeedKeys(colors)| ==>
      SeedKeys(colors)[i] in SeedIndex(colors) && SeedIndex(colors)[SeedKeys(colors)[i]] == i
  }

  /** No color repeats and none but the first may be `''`; the first must be `''` or be given twice in a row. */
  predicate Unshifted(colors: seq<string>) {
    colors == []
    || ((forall i, j :: 1 <= i < j < |colors| ==> colors[i] != colors[j])
        && (forall i :: 1 <= i < |colors| ==> colors[i] != "")
        && (colors[0] == "" || (|colors| > 1 && colors[1] == colors[0])))
  }

  lemma {:induction false} SeedKeysBound(colors: seq<string>)
    ensures |SeedKeys(colors)| <= |colors| + 1
    ensures |SeedKeys(colors)| == |colors| + 1 ==> SeedKeys(colors) == [""] + colors
    ensures SeedIndex(colors).Keys == (set c | c in SeedKeys(colors))
  {
    AddColorsExtends([""], colors);
    if colors != [] {
      SeedKeysBound(colors[..|colors| - 1]);
    }
  }

  lemma SmallSeeds(colors: seq<string>)
    requires |colors| <= 2
    ensures SeedAligned(colors) <==> Unshifted(colors)
    ensures Unshifted(colors) && colors != [] ==> |SeedKeys(colors)| == |colors|
  {
    assert SeedKeys([]) == [""] && SeedIndex([]) == map["" := 0];
    if colors != [] {
      var c := colors[0];
      var one := [c];
      assert one[..0] == [];
      assert SeedKeys(one) == AddColor([""], c) && SeedIndex(one) == map["" := 0][c := 0];
      if |colors| == 1 {
        assert colors == one;
        assert SeedKeys(one) == if c == "" then [""] else ["", c];
        assert c != "" ==> SeedKeys(one)[1] == c;
      } else {
        assert colors[..1] == one;
        assert SeedKeys(colors) == AddColor(SeedKeys(one), colors[1]);
        assert SeedIndex(colors) == SeedIndex(one)[colors[1] := 1];
        if colors[1] == c && c != "" {
          assert SeedKeys(colors) == ["", c];
        } else if c == "" {
          assert SeedKeys(one) == [""];
        } else {
          assert SeedKeys(colors)[1] == c;
        }
      }
    }
  }

  lemma UnshiftedStep(init: seq<string>, last: string)
    requires |init| >= 2 && Unshifted(init + [last])
    ensures Unshifted(init) && last !in SeedKeys(init)
  {
    var colors := init + [last];
    AddColorsExtends([""], init);
    assert forall i :: 0 <= i < |init| ==> init[i] == colors[i];
    assert forall i :: 1 <= i < |init| ==> colors[i] != colors[|init|];
  }

  lemma AlignedStep(init: seq<string>, last: string)
    requires |init| >= 2 && SeedAligned(init + [last])
    ensures last !in SeedKeys(init) && SeedAligned(init) && |SeedKeys(init)| == |init|
  {
    var colors := init + [last];
    var keys, keys' := SeedKeys(init), SeedKeys(colors);
    var index, index' := SeedIndex(init), SeedIndex(colors);
    SeedKeysBound(init);
    assert colors[..|init|] == init;
    assert keys' == AddColor(keys, last) && index' == index[last := |init|];
    if last in keys {
      var j :| 0 <= j < |keys| && keys[j] == last;
      assert index'[keys'[j]] == j;
      assert keys == [""] + init;
      assert keys[1] == init[0];
      SeedKeyIsNew(init, 0);
      assert false;
    }
    assert keys'[|keys|] == last;
    forall i | 0 <= i < |keys| ensures keys[i] in index && index[keys[i]] == i {
      assert keys'[i] == keys[i] != last;
    }
  }

  /** If every color was new, the stored number of color i is still i. */
  lemma {:induction false} SeedKeyIsNew(colors: seq<string>, i: nat)
    requires i < |colors| && SeedKeys(colors) == [""] + colors
    ensures colors[i] in SeedIndex(colors) && SeedIndex(colors)[colors[i]] == i
  {
    var n := |colors| - 1;
    var init := colors[..n];
    SeedKeysBound(init);
    if i < n {
      assert |SeedKeys(init)| == n + 1;
      SeedKeyIsNew(init, i);
      assert SeedKeys(init)[i + 1] == colors[i];
      assert colors[n] !in SeedKeys(init);
    }
  }

  /** Keys and stored numbers of a pre-populated palette agree exactly for unshifted palettes. */
  lemma {:induction false} SeedAlignedIffUnshifted(colors: seq<string>)
    ensures SeedAligned(colors) <==> Unshifted(colors)
    ensures Unshifted(colors) && colors != [] ==> |SeedKeys(colors)| == |colors|
  {
    var n := |colors|;
    if n <= 2 {
      SmallSeeds(colors);
    } else {
      var init, last := colors[..n - 1], colors[n - 1];
      assert colors == init + [last];
      SeedAlignedIffUnshifted(init);
      if Unshifted(colors) {
        UnshiftedStep(init, last);
        SeedStep(init, last);
      }
      if SeedAligned(colors) {
        AlignedStep(init, last);
        AddColorsExtends([""], init);
        UnshiftedSnoc(init, last);
      }
    }
  }

  lemma SeedStep(init: seq<string>, last: string)
    requires last !in SeedKeys(init) && SeedAligned(init) && |SeedKeys(init)| == |init|
    ensures SeedAligned(init + [last]) && |SeedKeys(init + [last])| == |init| + 1
  {
    assert (init + [last])[..|init|] == init;
  }

  lemma UnshiftedSnoc(init: seq<string>, last: string)
    requires |init| >= 2 && Unshifted(init) && last != "" && last !in init
    ensures Unshifted(init + [last])
  {
  }

  lemma SeedNext(colors: seq<string>, i: nat)
    requires i < |colors|
    ensures SeedKeys(colors[..i + 1]) == AddKey(SeedKeys(colors[..i]), SeedIndex(colors[..i]), colors[i])
    ensures SeedIndex(colors[..i + 1]) == SeedIndex(colors[..i])[colors[i] := i]
  {
    SeedKeysBound(colors[..i]);
    assert colors[..i + 1][..i] == colors[..i];
  }

  lemma AlignedIffUnshifted(palette: seq<string>)
    ensures IsAligned(SeedKeys(palette), SeedIndex(palette)) <==> Unshifted(palette)
  {
    SeedAlignedIffUnshifted(palette);
    if Unshifted(palette) {
      SeedPaletteAligned(palette);
    }
  }

  // ---------- the encoder ----------

  /** Where a stored payload came from (specification only). */
  datatype Source = Source(png: PngImage, bounds: Bounds, indexes: seq<nat>) {
    ghost function Text(): string {
      Serialize(bounds, Compress(indexes))
    }

    ghost predicate HasCrop() {
      bounds.left < bounds.right || |indexes| == 0
    }

    /** The palette after the colors of the crop have been looked up in `keys` and `index`. */
    ghost function Added(keys: seq<string>, index: map<string, nat>): (seq<string>, map<string, nat>)
      requires HasCrop()
    {
      AddKeys(keys, index, HexColors(Crop(png, bounds, |indexes|)))
    }

    /** The indexes are the numbers that `index` stores for the colors of the image's crop. */
    ghost predicate Under(index: map<string, nat>) {
      CropNumbered(png, index, bounds, indexes)
    }
  }

  /** Every payload is the encoding of its source under the numbers of `index`. */
  ghost predicate AllEncoded(images: map<string, string>, sources: map<string, Source>, index: map<string, nat>) {
    && images.Keys == sources.Keys
    && forall n :: n in images ==>
         images[n] == sources[n].Text() && sources[n].Under(index)
  }

  /** Storing more numbers never changes what an encoded payload means. */
  lemma PaletteGrows(source: Source, index: map<string, nat>, more: map<string, nat>)
    requires source.Under(index) && Extends(index, more)
    ensures source.Under(more)
  {
  }

  lemma StoreRle(images: map<string, string>, sources: map<string, Source>, index: map<string, nat>, more: map<string, nat>,
                 name: string, rle: string, source: Source)
    requires AllEncoded(images, sources, index) && Extends(index, more)
    requires rle == source.Text() && source.Under(more)
    ensures AllEncoded(images[name := rle], sources[name := source], more)
  {
    var images', sources' := images[name := rle], sources[name := source];
    forall n | n in images'
      ensures images'[n] == sources'[n].Text() && sources'[n].Under(more)
    {
      if n != name {
        PaletteGrows(sources[n], index, more);
      }
    }
  }

  class Encoder {
    const colors: ColorMap
    var names: seq<string>                // the keys of `_images`, in insertion order
    var images: map<string, string>
    var folderNames: seq<string>
    var folders: map<string, seq<string>>
    ghost var sources: map<string, Source>

    /** Every stored payload is the encoding of its image under the current numbers; folders list stored images. */
    ghost predicate Valid()
      reads this, colors
    {
      && colors.Ordered()
      && AllEncoded(images, sources, colors.index) && KeysInOrder(names, images)
      && FoldersValid()
    }

    ghost predicate FoldersValid()
      reads this
    {
      KeysInOrder(folderNames, folders)
      && forall f, i :: f in folders && 0 <= i < |folders[f]| ==> folders[f][i] in images
    }

    constructor (palette: seq<string>)
      ensures fresh(colors)
      ensures colors.keys == SeedKeys(palette) && colors.index == SeedIndex(palette)
      ensures names == [] && images == map[] && folderNames == [] && folders == map[] && sources == map[]
      ensures Valid() && (colors.Aligned() <==> Unshifted(palette))
    {
      var seeded := Seed(palette);
      colors := seeded;
      names, images, folderNames, folders, sources := [], map[], [], map[], map[];
      new;
      AlignedIffUnshifted(palette);
    }

    /** The transparent entry, and every given color with its position as its number. */
    static method Seed(palette: seq<string>) returns (colors: ColorMap)
      ensures fresh(colors) && colors.Ordered()
      ensures colors.keys == SeedKeys(palette) && colors.index == SeedIndex(palette)
    {
      colors := new ColorMap("", 0);
      assert palette[..0] == [];
      for i := 0 to |palette|
        invariant fresh(colors) && colors.Ordered()
        invariant colors.keys == SeedKeys(palette[..i]) && colors.index == SeedIndex(palette[..i])
      {
        SeedNext(palette, i);
        AddKeyInOrder(colors.keys, colors.index, palette[i], i);
        colors.Set(palette[i], i);
      }
      assert palette[..|palette|] == palette;
    }

    /** Store the payload; a name stored before keeps its place. */
    method SetImage(name: string, rle: string, ghost source: Source)
      requires KeysInOrder(names, images)
      modifies this`names, this`images, this`sources
      ensures images == old(images)[name := rle] && sources == old(sources)[name := source]
      ensures names == AddKey(old(names), old(images), name) && KeysInOrder(names, images)
    {
      AddKeyInOrder(names, images, name, rle);
      if name !in images {
        names := names + [name];
      }
      images := images[name := rle];
      sources := sources[name := source];
    }

    /** File the name in its folder, which is created if need be; without a folder nothing happens. */
    method PushToFolder(folder: string, name: string)
      requires FoldersValid() && name in images
      modifies this`folders, this`folderNames
      ensures FoldersValid()
      ensures folder == "" ==> folders == old(folders) && folderNames == old(folderNames)
      ensures folder != "" ==>
                && folders == old(folders)[folder := (if folder in old(folders) then old(folders)[folder] else []) + [name]]
                && folderNames == AddKey(old(folderNames), old(folders), folder)
    {
      if folder != "" {
        var files := (if folder in folders then folders[folder] else []) + [name];
        AddKeyInOrder(folderNames, folders, folder, files);
        if folder !in folders {
          folderNames := folderNames + [folder];
        }
        folders := folders[folder := files];
      }
    }

    method Store(name: string, rle: string, folder: string, ghost source: Source)
      requires KeysInOrder(names, images) && FoldersValid()
      modifies this`names, this`images, this`sources, this`folders, this`folderNames
      ensures KeysInOrder(names, images) && FoldersValid()
      ensures images == old(images)[name := rle] && sources == old(sources)[name := source]
      ensures names == AddKey(old(names), old(images), name)
      ensures folder == "" ==> folders == old(folders) && folderNames == old(folderNames)
      ensures folder != "" ==>
                && folders == old(folders)[folder := (if folder in old(folders) then old(folders)[folder] else []) + [name]]
                && folderNames == AddKey(old(folderNames), old(folders), folder)
    {
      SetImage(name, rle, source);
      PushToFolder(folder, name);
    }

    method EncodePng(png: PngImage) returns (rle: string, ghost source: Source)
      requires colors.Ordered() && png.height > 0
      modifies colors
      ensures colors.Ordered() && (old(colors.Aligned()) ==> colors.Aligned())
      ensures source.png == png && source.HasCrop() && rle == source.Text() && source.Under(colors.index)
      ensures (colors.keys, colors.index) == source.Added(old(colors.keys), old(colors.index))
      ensures old(colors.keys) <= colors.keys && Extends(old(colors.index), colors.index)
    {
      var image := new Image(png);
      ghost var keys, index := colors.keys, colors.index;
      ghost var indexes;
      rle, indexes := image.ToRLE(colors);
      source := Source(png, image.bounds, indexes);
      PaletteAfter(keys, index, source);
    }

    /** Encoding an image only appends to the palette, so everything stored before keeps its meaning. */
    method EncodeImage(name: string, png: PngImage, folder: string) returns (rle: string)
      requires Valid() && png.height > 0
      modifies this, colors
      ensures Valid() && (old(colors.Aligned()) ==> colors.Aligned())
      ensures images == old(images)[name := rle] && names == AddKey(old(names), old(images), name)
      ensures name in sources && sources == old(sources)[name := sources[name]] && sources[name].png == png && sources[name].HasCrop()
      ensures (colors.keys, colors.index) == sources[name].Added(old(colors.keys), old(colors.index))
      ensures old(colors.keys) <= colors.keys && Extends(old(colors.index), colors.index)
      ensures folder == "" ==> folders == old(folders) && folderNames == old(folderNames)
      ensures folder != "" ==>
                && folders == old(folders)[folder := (if folder in old(folders) then old(folders)[folder] else []) + [name]]
                && folderNames == AddKey(old(folderNames), old(folders), folder)
    {
      ghost var source;
      rle, source := EncodePng(png);
      StoreRle(images, sources, old(colors.index), colors.index, name, rle, source);
      Store(name, rle, folder, source);
    }
  }

  /** The palette after an image: still in order, still aligned if it was, with new colors appended and no number changed. */
  lemma PaletteAfter(keys: seq<string>, index: map<string, nat>, source: Source)
    requires KeysInOrder(keys, index) && source.HasCrop()
    ensures var (k, m) := source.Added(keys, index);
            && KeysInOrder(k, m) && (IsAligned(keys, index) ==> IsAligned(k, m))
            && keys <= k && Extends(index, m)
  {
    var colors := HexColors(Crop(source.png, source.bounds, |source.indexes|));
    AddKeysOrdered(keys, index, colors);
    AddColorsExtends(keys, colors);
    AddKeysExtends(keys, index, colors);
    HexColorsAreKeys(Crop(source.png, source.bounds, |source.indexes|));
    if IsAligned(keys, index) { AddKeysAligned(keys, index, colors); }
  }

  /** What an aligned encoder has stored is what the round trip starts from. */
  lemma StoredIsRle(e: Encoder, name: string)
    requires e.Valid() && e.colors.Aligned() && name in e.images
    ensures IsRle(e.images[name], e.sources[name].png, e.colors.keys, e.sources[name].bounds, e.sources[name].indexes)
  {
    var source := e.sources[name];
    AlignedNumbersName(source.png, e.colors.keys, e.colors.index, source.bounds, source.indexes);
  }

  /** However many images were encoded since, a stored payload with content in the first 256 rows draws its own image under
      the current palette exactly if its right bound and its own indices fit in two digits. */
  lemma StoredImageShowsIff(e: Encoder, name: string)
    requires e.Valid() && e.colors.Aligned() && name in e.images && e.sources[name].bounds.bottom < 256
    ensures Shows(e.images[name], e.colors.keys, e.sources[name].png)
       <==> e.sources[name].bounds.right < 256 && AllBytes(e.sources[name].indexes)
  {
    var source := e.sources[name];
    StoredIsRle(e, name);
    RleShowsIffItFits(e.images[name], source.png, e.colors.keys, source.bounds, source.indexes);
  }

  /** With at most 256 colors and images of at most 255 x 256 pixels, every stored payload still draws its own image. */
  lemma EveryImageShows(e: Encoder, name: string)
    requires e.Valid() && e.colors.Aligned() && name in e.images && |e.colors.keys| <= 256
    requires e.sources[name].png.width <= 255 && e.sources[name].png.height <= 256
    ensures Shows(e.images[name], e.colors.keys, e.sources[name].png)
  {
    var source := e.sources[name];
    StoredIsRle(e, name);
    RleShows(e.images[name], source.png, e.colors.keys, source.bounds, source.indexes);
  }

  /** The payloads and the images of the given names. */
  ghost function Payloads(images: map<string, string>, names: seq<string>): (parts: seq<string>)
    requires forall i :: 0 <= i < |names| ==> names[i] in images
    ensures |parts| == |names|
  {
    seq(|names|, i requires 0 <= i < |names| => images[names[i]])
  }

  ghost function Pngs(sources: map<string, Source>, names: seq<string>): (pngs: seq<PngImage>)
    requires forall i :: 0 <= i < |names| ==> names[i] in sources
    ensures |pngs| == |names|
  {
    seq(|names|, i requires 0 <= i < |names| => sources[names[i]].png)
  }

  /** Drawing any stack of stored payloads that each show their image does not throw, and paints at each pixel the color of
      the topmost image that is opaque there, and nothing where there is none. */
  lemma StoredStackDraws(e: Encoder, names: seq<string>, rects: Option<seq<Rect>>)
    requires e.images.Keys == e.sources.Keys && forall i :: 0 <= i < |names| ==> names[i] in e.images
    requires forall i :: 0 <= i < |names| ==> Shows(e.images[names[i]], e.colors.keys, e.sources[names[i]].png)
    requires DrawsParts(rects, Payloads(e.images, names), e.colors.keys)
    ensures rects.Some?
    ensures forall x, y :: PaintsColor(rects.value, e.colors.keys, Topmost(Pngs(e.sources, names), x, y), x, y)
  {
    StackIsDrawn(Payloads(e.images, names), Pngs(e.sources, names), e.colors.keys, rects);
  }

  lemma SeedPaletteAligned(palette: seq<string>)
    requires SeedAligned(palette)
    ensures IsPalette(SeedKeys(palette))
    ensures forall c :: c in SeedIndex(palette) ==>
              SeedIndex(palette)[c] < |SeedKeys(palette)| && SeedKeys(palette)[SeedIndex(palette)[c]] == c
  {
    SeedKeysBound(palette);
    AddColorsExtends([""], palette);
    forall c | c in SeedIndex(palette)
      ensures SeedIndex(palette)[c] < |SeedKeys(palette)| && SeedKeys(palette)[SeedIndex(palette)[c]] == c
    {
      var i :| 0 <= i < |SeedKeys(palette)| && SeedKeys(palette)[i] == c;
    }
  }
}
