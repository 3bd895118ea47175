/** `svg-builder.ts`: decoding a payload and splitting its runs into one-row rectangles. */
module SvgBuilder {
  import opened Hex
  import opened Options
  import opened RunLength

  datatype Bounds = Bounds(top: nat, right: nat, bottom: nat, left: nat)

  datatype DecodedImage = DecodedImage(paletteIndex: nat, bounds: Bounds, rects: seq<Run>)

  /** A drawn `<rect>`: one row high, in pixel units (the text scales every number by four). */
  datatype Rect = Rect(x: int, y: int, length: int, colorIndex: nat)

  // ---------- decodeImage ----------

  function StripPrefix(image: string): string {
    if "0x" <= image then image[2..] else image
  }

  /** `None` when one of the numbers is NaN. */
  function DecodeImage(image: string): Option<DecodedImage> {
    var data := StripPrefix(image);
    match (ParseInt16(Substring(data, 0, 2)), ParseInt16(Substring(data, 2, 4)), ParseInt16(Substring(data, 4, 6)),
           ParseInt16(Substring(data, 6, 8)), ParseInt16(Substring(data, 8, 10)),
           ParseRuns(data[if |data| < 10 then |data| else 10..]))
    case (Some(p), Some(t), Some(r), Some(b), Some(l), Some(runs)) => Some(DecodedImage(p, Bounds(t, r, b, l), runs))
    case _ => None
  }

  /** The header: palette number 0, then the four bounds clockwise from the top. */
  function Metadata(b: Bounds): string {
    "0x" + (ToPaddedHex(0) + ToPaddedHex(b.top) + ToPaddedHex(b.right) + ToPaddedHex(b.bottom) + ToPaddedHex(b.left))
  }

  /** The payload text of `Image.toRLE`, before it is known which numbers fit in two digits. */
  function Serialize(b: Bounds, runs: seq<Run>): string {
    Metadata(b) + PrintRuns(runs)
  }

  predicate ByteBounds(b: Bounds) {
    b.top < 256 && b.right < 256 && b.bottom < 256 && b.left < 256
  }

  lemma DecodeFields(p: string, t: string, r: string, b: string, l: string, runs: string)
    requires |p| == |t| == |r| == |b| == |l| == 2
    requires ParseInt16(p).Some? && ParseInt16(t).Some? && ParseInt16(r).Some?
    requires ParseInt16(b).Some? && ParseInt16(l).Some? && ParseRuns(runs).Some?
    ensures DecodeImage("0x" + (p + t + r + b + l) + runs)
         == Some(DecodedImage(ParseInt16(p).value,
                              Bounds(ParseInt16(t).value, ParseInt16(r).value, ParseInt16(b).value, ParseInt16(l).value),
                              ParseRuns(runs).value))
  {
    var header := p + t + r + b + l;
    var image := "0x" + header + runs;
    var data := StripPrefix(image);
    assert data == header + runs;
    HeaderFields(p, t, r, b, l);
    assert data[0..2] == header[0..2] && data[2..4] == header[2..4] && data[4..6] == header[4..6];
    assert data[6..8] == header[6..8] && data[8..10] == header[8..10] && data[10..] == runs;
  }

  lemma HeaderFields(p: string, t: string, r: string, b: string, l: string)
    requires |p| == |t| == |r| == |b| == |l| == 2
    ensures var header := p + t + r + b + l;
            && header[0..2] == p && header[2..4] == t && header[4..6] == r
            && header[6..8] == b && header[8..10] == l
  {}

  lemma DecodedFieldsAreBytes(image: string)
    requires DecodeImage(image).Some?
    ensures ByteBounds(DecodeImage(image).value.bounds)
    ensures forall i :: 0 <= i < |DecodeImage(image).value.rects| ==> TwoDigitRun(DecodeImage(image).value.rects[i])
  {
    var data := StripPrefix(image);
    TwoDigitsAreAByte(Substring(data, 2, 4));
    TwoDigitsAreAByte(Substring(data, 4, 6));
    TwoDigitsAreAByte(Substring(data, 6, 8));
    TwoDigitsAreAByte(Substring(data, 8, 10));
    ParsedRunsAreBytes(data[if |data| < 10 then |data| else 10..]);
  }

  /** Printing then parsing gives the same bounds and runs back exactly when every number fits in two digits. */
  lemma DecodeInvertsSerialize(b: Bounds, runs: seq<Run>)
    ensures DecodeImage(Serialize(b, runs)) == Some(DecodedImage(0, b, runs))
        <==> ByteBounds(b) && forall i :: 0 <= i < |runs| ==> TwoDigitRun(runs[i])
  {
    if ByteBounds(b) && forall i :: 0 <= i < |runs| ==> TwoDigitRun(runs[i]) {
      PaddedHexRoundTrip(0);
      PaddedHexRoundTrip(b.top); PaddedHexRoundTrip(b.right); PaddedHexRoundTrip(b.bottom); PaddedHexRoundTrip(b.left);
      ParsePrintedRuns(runs);
      DecodeFields(ToPaddedHex(0), ToPaddedHex(b.top), ToPaddedHex(b.right), ToPaddedHex(b.bottom), ToPaddedHex(b.left),
                   PrintRuns(runs));
    }
    if DecodeImage(Serialize(b, runs)).Some? {
      DecodedFieldsAreBytes(Serialize(b, runs));
    }
  }

  // ---------- where the numbers stand in a payload ----------

  lemma PrintedFurtherOn(front: string, text: string, i: nat, n: nat)
    requires PrintedAt(text, i, n)
    ensures PrintedAt(front + text, |front| + i, n)
  {
    assert (front + text)[|front| + i..|front| + i + 2] == text[i..i + 2];
  }

  /** The printed runs stand side by side. */
  lemma {:induction false} RunSlice(runs: seq<Run>, k: nat, i: nat)
    requires k < |runs| && i == 4 * k && forall j :: 0 <= j < |runs| ==> |PrintRun(runs[j])| == 4
    ensures var text, p := PrintRuns(runs), PrintRun(runs[k]);
            && i + 4 <= |text|
            && text[i] == p[0] && text[i + 1] == p[1] && text[i + 2] == p[2] && text[i + 3] == p[3]
  {
    if k > 0 {
      RunSlice(runs[1..], k - 1, i - 4);
    }
  }

  lemma PrintedAtIs(text: string, i: nat, n: nat)
    requires n < 256 && i + 2 <= |text| && |ToPaddedHex(n)| == 2
    requires text[i] == ToPaddedHex(n)[0] && text[i + 1] == ToPaddedHex(n)[1]
    ensures PrintedAt(text, i, n)
  {
    assert text[i..i + 2] == [text[i], text[i + 1]];
  }

  lemma FourDigits(run: Run)
    requires TwoDigitRun(run)
    ensures |ToPaddedHex(run.length)| == |ToPaddedHex(run.colorIndex)| == 2
    ensures PrintRun(run) == [ToPaddedHex(run.length)[0], ToPaddedHex(run.length)[1],
                              ToPaddedHex(run.colorIndex)[0], ToPaddedHex(run.colorIndex)[1]]
  {
    PrintedIsLower(run.length);
    PrintedIsLower(run.colorIndex);
  }

  lemma RunDigits(text: string, i: nat, run: Run)
    requires TwoDigitRun(run) && i + 4 <= |text| && |PrintRun(run)| == 4
    requires text[i] == PrintRun(run)[0] && text[i + 1] == PrintRun(run)[1]
    requires text[i + 2] == PrintRun(run)[2] && text[i + 3] == PrintRun(run)[3]
    ensures PrintedAt(text, i, run.length) && PrintedAt(text, i + 2, run.colorIndex)
  {
    FourDigits(run);
    PrintedAtIs(text, i, run.length);
    PrintedAtIs(text, i + 2, run.colorIndex);
  }

  /** Run k is printed as its length, then its color number. */
  lemma RunAt(runs: seq<Run>, k: nat, i: nat)
    requires k < |runs| && i == 4 * k && forall j :: 0 <= j < |runs| ==> TwoDigitRun(runs[j])
    ensures PrintedAt(PrintRuns(runs), i, runs[k].length) && PrintedAt(PrintRuns(runs), i + 2, runs[k].colorIndex)
  {
    forall j | 0 <= j < |runs| ensures |PrintRun(runs[j])| == 4 { FourDigits(runs[j]); }
    RunSlice(runs, k, i);
    RunDigits(PrintRuns(runs), i, runs[k]);
  }

  lemma {:induction false} PrintedLength(runs: seq<Run>)
    requires forall i :: 0 <= i < |runs| ==> TwoDigitRun(runs[i])
    ensures |PrintRuns(runs)| == 4 * |runs|
  {
    if runs != [] {
      PrintedLength(runs[1..]);
      PrintedIsLower(runs[0].length);
      PrintedIsLower(runs[0].colorIndex);
    }
  }

  lemma HeaderAt(b: Bounds)
    requires ByteBounds(b)
    ensures var m := Metadata(b);
            && |m| == 12 && m[..2] == "0x" && PrintedAt(m, 2, 0)
            && PrintedAt(m, 4, b.top) && PrintedAt(m, 6, b.right) && PrintedAt(m, 8, b.bottom) && PrintedAt(m, 10, b.left)
  {
    PrintedIsLower(0); PrintedIsLower(b.top); PrintedIsLower(b.right); PrintedIsLower(b.bottom); PrintedIsLower(b.left);
    HeaderParts("0x", ToPaddedHex(0), ToPaddedHex(b.top), ToPaddedHex(b.right), ToPaddedHex(b.bottom), ToPaddedHex(b.left));
  }

  lemma HeaderParts(x: string, p: string, t: string, r: string, b: string, l: string)
    requires |x| == |p| == |t| == |r| == |b| == |l| == 2
    ensures var m := x + (p + t + r + b + l);
            && |m| == 12 && m[..2] == x && m[2..4] == p && m[4..6] == t && m[6..8] == r && m[8..10] == b && m[10..12] == l
  {}

  lemma PrintedLayout(b: Bounds, runs: seq<Run>)
    requires ByteBounds(b) && forall i :: 0 <= i < |runs| ==> TwoDigitRun(runs[i])
    ensures var text := Serialize(b, runs);
            && |text| == 12 + 4 * |runs| && text[..12] == Metadata(b)
            && forall k :: 0 <= k < |runs| ==>
                 PrintedAt(text, 12 + 4 * k, runs[k].length) && PrintedAt(text, 14 + 4 * k, runs[k].colorIndex)
  {
    var m, p := Metadata(b), PrintRuns(runs);
    HeaderAt(b);
    PrintedLength(runs);
    forall k | 0 <= k < |runs|
      ensures PrintedAt(m + p, 12 + 4 * k, runs[k].length) && PrintedAt(m + p, 14 + 4 * k, runs[k].colorIndex)
    {
      RunAt(runs, k, 4 * k);
      PrintedFurtherOn(m, p, 4 * k, runs[k].length);
      PrintedFurtherOn(m, p, 4 * k + 2, runs[k].colorIndex);
    }
  }

  lemma PrintedEarlier(text: string, i: nat, n: nat)
    requires |text| >= 12 && PrintedAt(text[..12], i, n)
    ensures NumberAt(text, i, n)
  {
    assert text[..12][i..i + 2] == text[i..i + 2];
    PrintedReads(text, i, n);
  }

  /** The format of a payload, number by number: palette 0, top, right, bottom and left, then each run's length and color. */
  lemma PayloadLayout(b: Bounds, runs: seq<Run>)
    requires ByteBounds(b) && forall i :: 0 <= i < |runs| ==> TwoDigitRun(runs[i])
    ensures var text := Serialize(b, runs);
            && |text| == 12 + 4 * |runs| && text[..2] == "0x" && NumberAt(text, 2, 0)
            && NumberAt(text, 4, b.top) && NumberAt(text, 6, b.right) && NumberAt(text, 8, b.bottom) && NumberAt(text, 10, b.left)
            && forall k :: 0 <= k < |runs| ==>
                 NumberAt(text, 12 + 4 * k, runs[k].length) && NumberAt(text, 14 + 4 * k, runs[k].colorIndex)
  {
    var text := Serialize(b, runs);
    PrintedLayout(b, runs);
    HeaderAt(b);
    assert text[..2] == text[..12][..2];
    PrintedEarlier(text, 2, 0);
    PrintedEarlier(text, 4, b.top);
    PrintedEarlier(text, 6, b.right);
    PrintedEarlier(text, 8, b.bottom);
    PrintedEarlier(text, 10, b.left);
    forall k | 0 <= k < |runs| ensures NumberAt(text, 12 + 4 * k, runs[k].length) && NumberAt(text, 14 + 4 * k, runs[k].colorIndex) {
      PrintedReads(text, 12 + 4 * k, runs[k].length);
      PrintedReads(text, 14 + 4 * k, runs[k].colorIndex);
    }
  }

  /** The `0x` in front of a payload makes no difference. */
  lemma PrefixIsOptional(data: string)
    requires !("0x" <= data)
    ensures DecodeImage("0x" + data) == DecodeImage(data)
  {
    assert StripPrefix("0x" + data) == data;
  }

  // ---------- what a payload shows, pixel by pixel ----------

  /** The number of cells in `n` rows of `w`. */
  function Rows(n: nat, w: int): int {
    if n == 0 then 0 else Rows(n - 1, w) + w
  }

  /** The row-major number of pixel (x, y) between the left and right bounds. */
  function Cell(b: Bounds, x: int, y: int): int
    requires b.top <= y
  {
    Rows(y - b.top, b.right - b.left) + (x - b.left)
  }

  /** The colour index pixel (x, y) takes from row-major `pixels`; `None` where nothing is painted. */
  function PixelOf(b: Bounds, pixels: seq<nat>, x: int, y: int): Option<nat> {
    if b.left <= x < b.right && b.top <= y && 0 <= Cell(b, x, y) < |pixels| && pixels[Cell(b, x, y)] != 0
    then Some(pixels[Cell(b, x, y)]) else None
  }

  function Shown(d: DecodedImage, x: int, y: int): Option<nat> {
    PixelOf(d.bounds, Expand(d.rects), x, y)
  }

  lemma {:induction false} RowsProduct(n: nat, w: int)
    ensures Rows(n, w) == n * w
  {
    if n != 0 { RowsProduct(n - 1, w); }
  }

  lemma {:induction false} RowsApart(m: nat, n: nat, w: int)
    requires m < n && 0 < w
    ensures Rows(m, w) + w <= Rows(n, w)
  {
    if m + 1 < n { RowsApart(m, n - 1, w); }
  }

  /** A cell number determines its row and column. */
  lemma CellInverse(b: Bounds, x: int, y: int, k: int)
    requires b.left <= x < b.right && b.top <= y && k == Cell(b, x, y)
    ensures 0 <= k && x == b.left + k % (b.right - b.left) && y == b.top + k / (b.right - b.left)
  {
    var w, q, r := b.right - b.left, y - b.top, x - b.left;
    RowsProduct(q, w);
    assert k == w * q + r;
    if q > 0 { RowsApart(0, q, w); }
    var q' := k / w;
    RowsProduct(q', w);
    assert k == w * q' + k % w;
    if q < q' {
      RowsApart(q, q', w);
      assert false;
    } else if q' < q {
      RowsApart(q', q, w);
      assert false;
    }
  }

  /** Pixel k of the expanded runs lands at (left + k mod w, top + k div w), and nowhere else. */
  lemma PixelLandsAt(b: Bounds, pixels: seq<nat>, k: nat)
    requires b.left < b.right && k < |pixels|
    ensures var w := b.right - b.left;
            && Cell(b, b.left + k % w, b.top + k / w) == k
            && PixelOf(b, pixels, b.left + k % w, b.top + k / w) == (if pixels[k] == 0 then None else Some(pixels[k]))
            && forall x, y :: b.left <= x < b.right && b.top <= y && Cell(b, x, y) == k ==>
                 x == b.left + k % w && y == b.top + k / w
  {
    var w := b.right - b.left;
    RowsProduct(k / w, w);
    assert k == (k / w) * w + k % w;
    forall x, y | b.left <= x < b.right && b.top <= y && Cell(b, x, y) == k
      ensures x == b.left + k % w && y == b.top + k / w
    {
      CellInverse(b, x, y, k);
    }
  }

  // ---------- the rectangle loop of buildSVG ----------

  /** The colour on top at (x, y) after drawing `rects` in order. */
  function Painted(rects: seq<Rect>, x: int, y: int): Option<nat> {
    if rects == [] then None
    else
      var last := rects[|rects| - 1];
      if y == last.y && last.x <= x < last.x + last.length then Some(last.colorIndex)
      else Painted(rects[..|rects| - 1], x, y)
  }

  function Area(rects: seq<Rect>): int {
    if rects == [] then 0 else Area(rects[..|rects| - 1]) + rects[|rects| - 1].length
  }

  function CountNonZero(pixels: seq<nat>): nat {
    if pixels == [] then 0
    else CountNonZero(pixels[..|pixels| - 1]) + if pixels[|pixels| - 1] == 0 then 0 else 1
  }

  ghost predicate Colors(rects: seq<Rect>, b: Bounds, pixels: seq<nat>) {
    forall x, y :: Painted(rects, x, y) == PixelOf(b, pixels, x, y)
  }

  function FirstCell(b: Bounds, r: Rect): int
    requires b.top <= r.y
  {
    Cell(b, r.x, r.y)
  }

  ghost predicate Fits(b: Bounds, r: Rect) {
    r.length > 0 && b.left <= r.x && r.x + r.length <= b.right && b.top <= r.y
  }

  /** Each rectangle stays between the left and right bounds and ends before the next one begins. */
  ghost predicate InOrder(rects: seq<Rect>, b: Bounds, cells: int) {
    && (forall i :: 0 <= i < |rects| ==>
          Fits(b, rects[i]) && FirstCell(b, rects[i]) + rects[i].length <= cells)
    && (forall i, j :: 0 <= i < j < |rects| ==>
          FirstCell(b, rects[i]) + rects[i].length <= FirstCell(b, rects[j]))
  }

  /** `rects` paint exactly `pixels`, in order, with one unit of area for each pixel that is not transparent. */
  ghost predicate Paints(rects: seq<Rect>, b: Bounds, pixels: seq<nat>) {
    Colors(rects, b, pixels) && InOrder(rects, b, |pixels|) && Area(rects) == CountNonZero(pixels)
  }

  /** Rectangles in order never cover the same pixel twice. */
  lemma PaintedOnce(rects: seq<Rect>, b: Bounds, pixels: seq<nat>, i: nat, j: nat, x: int)
    requires Paints(rects, b, pixels) && i < j < |rects| && rects[i].y == rects[j].y
    ensures !(rects[i].x <= x < rects[i].x + rects[i].length && rects[j].x <= x < rects[j].x + rects[j].length)
  {
    assert FirstCell(b, rects[i]) + rects[i].length <= FirstCell(b, rects[j]);
  }

  lemma {:induction false} CountRepeat(pixels: seq<nat>, n: nat, v: nat)
    ensures CountNonZero(pixels + Repeat(n, v)) == CountNonZero(pixels) + if v == 0 then 0 else n
  {
    if n == 0 {
      assert pixels + Repeat(0, v) == pixels;
    } else {
      CountRepeat(pixels, n - 1, v);
      assert (pixels + Repeat(n, v))[..|pixels| + n - 1] == pixels + Repeat(n - 1, v);
    }
  }

  lemma AppendCells(b: Bounds, x: int, y: int, cx: int, cy: int, n: int)
    requires b.left <= x < b.right && b.left <= cx && 0 < n && cx + n <= b.right && b.top <= y && b.top <= cy
    ensures Cell(b, cx, cy) <= Cell(b, x, y) < Cell(b, cx, cy) + n <==> y == cy && cx <= x < cx + n
    ensures y == cy ==> Cell(b, x, y) - Cell(b, cx, cy) == x - cx
  {
    var w := b.right - b.left;
    if y > cy {
      RowsApart(cy - b.top, y - b.top, w);
    } else if y < cy {
      RowsApart(y - b.top, cy - b.top, w);
    }
  }

  lemma PieceColor(rects: seq<Rect>, b: Bounds, pixels: seq<nat>, x: int, y: int, n: nat, c: nat, px: int, py: int)
    requires Painted(rects, px, py) == PixelOf(b, pixels, px, py) && b.top <= y && |pixels| == Cell(b, x, y)
    requires 0 < n && b.left <= x && x + n <= b.right
    ensures Painted(if c == 0 then rects else rects + [Rect(x, y, n, c)], px, py)
         == PixelOf(b, pixels + Repeat(n, c), px, py)
  {
    assert (rects + [Rect(x, y, n, c)])[..|rects|] == rects;
    if b.left <= px < b.right && b.top <= py {
      AppendCells(b, px, py, x, y, n);
    }
  }

  /** `rects` followed by the piece, which is not drawn if it is transparent. */
  function AddPiece(rects: seq<Rect>, piece: Rect): seq<Rect> {
    if piece.colorIndex == 0 then rects else rects + [piece]
  }

  lemma PieceColors(rects: seq<Rect>, b: Bounds, pixels: seq<nat>, piece: Rect, n: nat)
    requires Colors(rects, b, pixels) && Fits(b, piece) && |pixels| == FirstCell(b, piece) && n == piece.length
    ensures Colors(AddPiece(rects, piece), b, pixels + Repeat(n, piece.colorIndex))
  {
    forall px, py
      ensures Painted(AddPiece(rects, piece), px, py) == PixelOf(b, pixels + Repeat(n, piece.colorIndex), px, py)
    {
      PieceColor(rects, b, pixels, piece.x, piece.y, n, piece.colorIndex, px, py);
    }
  }

  lemma PieceInOrder(rects: seq<Rect>, b: Bounds, cells: nat, piece: Rect)
    requires InOrder(rects, b, cells) && Fits(b, piece) && cells == FirstCell(b, piece)
    ensures InOrder(AddPiece(rects, piece), b, cells + piece.length)
  {
  }

  lemma PieceArea(rects: seq<Rect>, pixels: seq<nat>, piece: Rect, n: nat)
    requires Area(rects) == CountNonZero(pixels) && n == piece.length
    ensures Area(AddPiece(rects, piece)) == CountNonZero(pixels + Repeat(n, piece.colorIndex))
  {
    CountRepeat(pixels, n, piece.colorIndex);
    assert (rects + [piece])[..|rects|] == rects;
  }

  /** Drawing the next one-row piece of a run paints that many more pixels and changes no other. */
  lemma PaintPiece(rects: seq<Rect>, b: Bounds, pixels: seq<nat>, piece: Rect, n: nat)
    requires Paints(rects, b, pixels) && Fits(b, piece) && |pixels| == FirstCell(b, piece) && n == piece.length
    ensures Paints(AddPiece(rects, piece), b, pixels + Repeat(n, piece.colorIndex))
  {
    PieceColors(rects, b, pixels, piece, n);
    PieceInOrder(rects, b, |pixels|, piece);
    PieceArea(rects, pixels, piece, n);
  }

  function GetRectLength(currentX: int, drawLength: int, rightBound: int): (length: int)
    ensures length == drawLength || length == rightBound - currentX
    ensures length <= drawLength && length <= rightBound - currentX
  {
    var remainingPixelsInLine := rightBound - currentX;
    if drawLength <= remainingPixelsInLine then drawLength else remainingPixelsInLine
  }

  /** Drawing `d` reads a palette entry that is not there, which throws. */
  ghost predicate MissesColor(d: DecodedImage, palette: seq<string>) {
    d.bounds.left < d.bounds.right
    && exists i :: 0 <= i < |d.rects| && d.rects[i].length > 0 && d.rects[i].colorIndex >= |palette| && d.rects[i].colorIndex != 0
  }

  lemma {:induction false} ExpandSnoc(runs: seq<Run>, run: Run)
    ensures Expand(runs + [run]) == Expand(runs) + Repeat(run.length, run.colorIndex)
  {
    if runs == [] {
      assert Expand([run]) == Repeat(run.length, run.colorIndex) + Expand([]);
    } else {
      assert (runs + [run])[1..] == runs[1..] + [run];
      ExpandSnoc(runs[1..], run);
    }
  }

  /** The loop state: everything in `pixels` is painted and the pen is at the next cell; empty bounds draw nothing. */
  ghost predicate Drawing(b: Bounds, rects: seq<Rect>, pixels: seq<nat>, x: int, y: int) {
    if b.left < b.right then
      b.left <= x < b.right && b.top <= y && |pixels| == Cell(b, x, y) && Paints(rects, b, pixels)
    else x == b.left && rects == []
  }

  lemma PenMoves(b: Bounds, x: int, y: int, n: nat)
    requires b.top <= y
    ensures Cell(b, x + n, y) == Cell(b, x, y) + n
    ensures Cell(b, b.left, y + 1) == Cell(b, b.right, y) && Cell(b, b.left, b.top) == 0
  {}

  /** Drawing one piece and moving the pen, to the next row when it reaches the right bound. */
  lemma DrawPiece(b: Bounds, rects: seq<Rect>, pixels: seq<nat>, x: int, y: int, n: nat, c: nat)
    requires Drawing(b, rects, pixels, x, y) && 0 < n && x + n <= b.right
    ensures var wraps := x + n == b.right;
            Drawing(b, AddPiece(rects, Rect(x, y, n, c)), pixels + Repeat(n, c),
                    if wraps then b.left else x + n, if wraps then y + 1 else y)
  {
    PaintPiece(rects, b, pixels, Rect(x, y, n, c), n);
    PenMoves(b, x, y, n);
  }

  lemma RepeatMore(pixels: seq<nat>, m: nat, n: nat, c: nat)
    ensures pixels + Repeat(m, c) + Repeat(n, c) == pixels + Repeat(m + n, c)
    ensures m == 0 ==> pixels + Repeat(m, c) == pixels
  {}

  /** One piece of a run: drawn unless transparent, then the pen moves on. */
  method DrawOne(b: Bounds, palette: seq<string>, drawn: seq<Rect>, x: int, y: int, n: nat, c: nat, ghost pixels: seq<nat>)
    returns (rects: Option<seq<Rect>>, currentX: int, currentY: int)
    requires Drawing(b, drawn, pixels, x, y) && 0 < n && x + n <= b.right
    ensures rects.None? <==> c != 0 && c >= |palette|
    ensures rects.Some? ==> Drawing(b, rects.value, pixels + Repeat(n, c), currentX, currentY)
  {
    var svgRects := drawn;
    currentX, currentY := x, y;
    DrawPiece(b, drawn, pixels, x, y, n, c);
    if c != 0 {
      if c >= |palette| {
        return None, currentX, currentY;
      }
      svgRects := svgRects + [Rect(currentX, currentY, n, c)];
    }

    currentX := currentX + n;
    if currentX == b.right {
      currentX := b.left;
      currentY := currentY + 1;
    }
    rects := Some(svgRects);
  }

  /** One run, split at the right bound. */
  method DrawRun(b: Bounds, palette: seq<string>, run: Run, drawn: seq<Rect>, x: int, y: int, ghost pixels: seq<nat>)
    returns (rects: Option<seq<Rect>>, currentX: int, currentY: int)
    requires Drawing(b, drawn, pixels, x, y)
    ensures rects.None? <==> b.left < b.right && run.length > 0 && run.colorIndex != 0 && run.colorIndex >= |palette|
    ensures rects.Some? ==>
              Drawing(b, rects.value, pixels + Repeat(run.length, run.colorIndex), currentX, currentY)
  {
    rects := Some(drawn);
    var drawLength := run.length;
    currentX, currentY := x, y;
    var length := GetRectLength(currentX, drawLength, b.right);
    ghost var done, painted := 0, pixels;
    RepeatMore(pixels, 0, 0, run.colorIndex);
    while length > 0
      invariant done + drawLength == run.length
      invariant drawLength >= 0 && length == GetRectLength(currentX, drawLength, b.right)
      invariant done > 0 ==> run.colorIndex == 0 || run.colorIndex < |palette|
      invariant painted == pixels + Repeat(done, run.colorIndex)
      invariant rects.Some? && Drawing(b, rects.value, painted, currentX, currentY)
      decreases drawLength
    {
      rects, currentX, currentY := DrawOne(b, palette, rects.value, currentX, currentY, length, run.colorIndex, painted);
      if rects.None? {
        return;
      }
      RepeatMore(pixels, done, length, run.colorIndex);
      painted := painted + Repeat(length, run.colorIndex);
      drawLength := drawLength - length;
      done := done + length;
      length := GetRectLength(currentX, drawLength, b.right);
    }
  }

  /** One part: its rectangles refine painting its expanded runs pixel by pixel, for any bounds at all. */
  method DrawPart(d: DecodedImage, palette: seq<string>) returns (rects: Option<seq<Rect>>)
    ensures rects.None? <==> MissesColor(d, palette)
    ensures rects.Some? ==> forall x, y :: Painted(rects.value, x, y) == Shown(d, x, y)
    ensures rects.Some? && d.bounds.left < d.bounds.right ==> Paints(rects.value, d.bounds, Expand(d.rects))
    ensures d.bounds.left >= d.bounds.right ==> rects == Some([])
  {
    var b := d.bounds;
    var currentX, currentY := b.left, b.top;
    var svgRects: Option<seq<Rect>> := Some([]);
    for i := 0 to |d.rects|
      invariant b.left < b.right ==>
                  forall j :: 0 <= j < i && d.rects[j].length > 0 && d.rects[j].colorIndex != 0 ==> d.rects[j].colorIndex < |palette|
      invariant svgRects.Some? && Drawing(b, svgRects.value, Expand(d.rects[..i]), currentX, currentY)
    {
      ExpandSnoc(d.rects[..i], d.rects[i]);
      assert d.rects[..i + 1] == d.rects[..i] + [d.rects[i]];
      svgRects, currentX, currentY :=
        DrawRun(b, palette, d.rects[i], svgRects.value, currentX, currentY, Expand(d.rects[..i]));
      if svgRects.None? {
        return None;
      }
    }
    assert d.rects[..|d.rects|] == d.rects;
    rects := svgRects;
  }

  ghost predicate Readable(parts: seq<string>) {
    forall i :: 0 <= i < |parts| ==> DecodeImage(parts[i]).Some?
  }

  ghost function Decoded(parts: seq<string>): seq<DecodedImage>
    requires Readable(parts)
  {
    seq(|parts|, i requires 0 <= i < |parts| => DecodeImage(parts[i]).value)
  }

  /** The colour a stack of images shows at (x, y): that of the last one with a painted pixel there. */
  function Stacked(images: seq<DecodedImage>, x: int, y: int): Option<nat> {
    if images == [] then None
    else
      var last := Shown(images[|images| - 1], x, y);
      if last.Some? then last else Stacked(images[..|images| - 1], x, y)
  }

  lemma {:induction false} PaintedOver(below: seq<Rect>, above: seq<Rect>, x: int, y: int)
    ensures Painted(below + above, x, y) == if Painted(above, x, y).Some? then Painted(above, x, y) else Painted(below, x, y)
    decreases |above|
  {
    if above == [] {
      assert below + above == below;
    } else {
      assert (below + above)[..|below + above| - 1] == below + above[..|above| - 1];
      PaintedOver(below, above[..|above| - 1], x, y);
    }
  }

  lemma StackPart(below: seq<Rect>, above: seq<Rect>, images: seq<DecodedImage>, d: DecodedImage)
    requires forall x, y :: Painted(below, x, y) == Stacked(images, x, y)
    requires forall x, y :: Painted(above, x, y) == Shown(d, x, y)
    ensures forall x, y :: Painted(below + above, x, y) == Stacked(images + [d], x, y)
  {
    assert (images + [d])[..|images|] == images;
    forall x, y ensures Painted(below + above, x, y) == Stacked(images + [d], x, y) {
      PaintedOver(below, above, x, y);
    }
  }

  /** Whether drawing some image of the stack throws. */
  ghost predicate Throws(images: seq<DecodedImage>, palette: seq<string>) {
    exists i :: 0 <= i < |images| && MissesColor(images[i], palette)
  }

  lemma ThrowsSnoc(images: seq<DecodedImage>, d: DecodedImage, palette: seq<string>)
    ensures Throws(images + [d], palette) <==> Throws(images, palette) || MissesColor(d, palette)
  {
    var all := images + [d];
    assert all[|images|] == d;
    if Throws(images, palette) {
      var i :| 0 <= i < |images| && MissesColor(images[i], palette);
      assert MissesColor(all[i], palette);
    }
  }

  lemma ThrowsPrefix(images: seq<DecodedImage>, n: nat, palette: seq<string>)
    requires n <= |images| && Throws(images[..n], palette)
    ensures Throws(images, palette)
  {
    var i :| 0 <= i < n && MissesColor(images[..n][i], palette);
    assert MissesColor(images[i], palette);
  }

  /** What drawing the parts yields: their stacked images, or a throw exactly if one of them misses a color. */
  ghost predicate DrawsParts(rects: Option<seq<Rect>>, parts: seq<string>, palette: seq<string>) {
    Readable(parts)
    && (rects.None? <==> Throws(Decoded(parts), palette))
    && (rects.Some? ==> forall x, y :: Painted(rects.value, x, y) == Stacked(Decoded(parts), x, y))
  }

  /** `buildSVG`: all parts, painted in order on one canvas. */
  method BuildSVG(parts: seq<string>, palette: seq<string>) returns (rects: Option<seq<Rect>>)
    requires Readable(parts)
    ensures DrawsParts(rects, parts, palette)
  {
    var result := [];
    ghost var images := Decoded(parts);
    for i := 0 to |parts|
      invariant !Throws(images[..i], palette)
      invariant forall x, y :: Painted(result, x, y) == Stacked(images[..i], x, y)
    {
      var d := DecodeImage(parts[i]).value;
      assert images[..i + 1] == images[..i] + [d];
      ThrowsSnoc(images[..i], d, palette);
      var svgRects := DrawPart(d, palette);
      if svgRects.None? {
        ThrowsPrefix(images, i + 1, palette);
        return None;
      }
      StackPart(result, svgRects.value, images[..i], d);
      result := result + svgRects.value;
    }
    assert images[..|parts|] == images;
    rects := Some(result);
  }
}
