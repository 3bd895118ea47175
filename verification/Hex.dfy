/** Hexadecimal text: what the codec and the seed hash print, and what `parseInt` reads back. */
module Hex {
  import opened Options

  type Byte = x: int | 0 <= x < 256

  datatype Rgba = Rgba(r: Byte, g: Byte, b: Byte, a: Byte)

  const DIGITS := "0123456789abcdef"

  /** The hexadecimal digits of a number, without leading zeros. */
  function ToString16(n: nat): (s: string)
    ensures |s| >= 1
  {
    if n < 16 then [DIGITS[n]] else ToString16(n / 16) + [DIGITS[n % 16]]
  }

  function Zeros(n: nat): (s: string)
    ensures |s| == n && forall i :: 0 <= i < n ==> s[i] == '0'
  {
    if n == 0 then "" else Zeros(n - 1) + "0"
  }

  function PadStart(s: string, pad: nat): string {
    if |s| >= pad then s else Zeros(pad - |s|) + s
  }

  function ToPaddedHex(c: nat): string {
    PadStart(ToString16(c), 2)
  }

  /** The colour part of a palette key: alpha is not printed. */
  function RgbToHex(c: Rgba): string {
    ToPaddedHex(c.r) + ToPaddedHex(c.g) + ToPaddedHex(c.b)
  }

  predicate IsHexDigit(c: char) {
    '0' <= c <= '9' || 'a' <= c <= 'f' || 'A' <= c <= 'F'
  }

  function DigitValue(c: char): (v: nat)
    requires IsHexDigit(c)
    ensures v < 16
  {
    if c <= '9' then (c - '0') as int
    else if c <= 'F' then (c - 'A') as int + 10
    else (c - 'a') as int + 10
  }

  function ParsePrefix(acc: nat, s: string): nat
    decreases |s|
  {
    if s == [] || !IsHexDigit(s[0]) then acc else ParsePrefix(acc * 16 + DigitValue(s[0]), s[1..])
  }

  /** `parseInt` to base 16: the value of the longest prefix of digits, `None` for NaN. */
  function ParseInt16(s: string): Option<nat> {
    if s == [] || !IsHexDigit(s[0]) then None else Some(ParsePrefix(0, s))
  }

  lemma DigitRoundTrip(d: nat)
    requires d < 16
    ensures IsHexDigit(DIGITS[d]) && DigitValue(DIGITS[d]) == d
  {
    if d < 8 {
      assert DIGITS[d] in "01234567";
    } else {
      assert DIGITS[d] in "89abcdef";
    }
  }

  ghost predicate AllHex(s: string) {
    forall i :: 0 <= i < |s| ==> IsHexDigit(s[i])
  }

  lemma {:induction false} ParseSnoc(acc: nat, s: string, c: char)
    requires AllHex(s) && IsHexDigit(c)
    ensures ParsePrefix(acc, s + [c]) == ParsePrefix(acc, s) * 16 + DigitValue(c)
    decreases |s|
  {
    if s == [] {
      assert (s + [c])[1..] == [];
    } else {
      assert (s + [c])[1..] == s[1..] + [c];
      ParseSnoc(acc * 16 + DigitValue(s[0]), s[1..], c);
    }
  }

  lemma {:induction false} ParsePrinted(n: nat)
    ensures AllHex(ToString16(n)) && ParsePrefix(0, ToString16(n)) == n
  {
    DigitRoundTrip(n % 16);
    if n >= 16 {
      ParsePrinted(n / 16);
      ParseSnoc(0, ToString16(n / 16), DIGITS[n % 16]);
    } else {
      assert ToString16(n)[1..] == [];
    }
  }

  /** Padding never changes the number read back, and two digits are enough exactly for a byte. */
  lemma PaddedHexRoundTrip(n: nat)
    ensures AllHex(ToPaddedHex(n))
    ensures ParseInt16(ToPaddedHex(n)) == Some(n)
    ensures |ToPaddedHex(n)| >= 2
    ensures |ToPaddedHex(n)| == 2 <==> n < 256
  {
    ParsePrinted(n);
    var s := ToString16(n);
    if n < 16 {
      DigitRoundTrip(0);
      assert ToPaddedHex(n) == ['0'] + s;
      assert ToPaddedHex(n)[1..] == s;
    } else if n < 256 {
      assert |ToString16(n / 16)| == 1;
    } else {
      assert |ToString16(n / 16)| == |ToString16(n / 16 / 16)| + 1;
    }
  }

  /** Two colours share a palette key exactly when their red, green and blue agree; no key is `''`. */
  lemma RgbToHexInjective(c: Rgba, d: Rgba)
    ensures |RgbToHex(c)| == 6
    ensures RgbToHex(c) == RgbToHex(d) <==> c.r == d.r && c.g == d.g && c.b == d.b
  {
    PaddedHexRoundTrip(c.r); PaddedHexRoundTrip(c.g); PaddedHexRoundTrip(c.b);
    PaddedHexRoundTrip(d.r); PaddedHexRoundTrip(d.g); PaddedHexRoundTrip(d.b);
    var s, t := RgbToHex(c), RgbToHex(d);
    assert s[0..2] == ToPaddedHex(c.r) && s[2..4] == ToPaddedHex(c.g) && s[4..6] == ToPaddedHex(c.b);
    assert t[0..2] == ToPaddedHex(d.r) && t[2..4] == ToPaddedHex(d.g) && t[4..6] == ToPaddedHex(d.b);
  }

  // ---------- which text stands for which number ----------

  ghost predicate IsLowerHex(s: string) {
    forall i :: 0 <= i < |s| ==> '0' <= s[i] <= '9' || 'a' <= s[i] <= 'f'
  }

  /** The lower-case digit for d, from the character codes. */
  function LowerDigit(d: nat): (c: char)
    requires d < 16
    ensures IsHexDigit(c) && DigitValue(c) == d
  {
    if d < 10 then ('0' as int + d) as char else ('a' as int + d - 10) as char
  }

  lemma DigitsAreLower(d: nat)
    requires d < 16
    ensures DIGITS[d] == LowerDigit(d)
  {
    if d < 8 {
      assert DIGITS[d] in "01234567";
    } else {
      assert DIGITS[d] in "89abcdef";
    }
    DigitRoundTrip(d);
  }

  /** A byte is printed as its two digits, the high one first. */
  lemma ByteDigits(n: nat)
    requires n < 256
    ensures ToPaddedHex(n) == [LowerDigit(n / 16), LowerDigit(n % 16)]
  {
    DigitsAreLower(n / 16);
    DigitsAreLower(n % 16);
    DigitsAreLower(0);
    if n >= 16 {
      assert ToString16(n) == ToString16(n / 16) + [DIGITS[n % 16]];
    } else {
      assert ToPaddedHex(n) == ['0'] + ToString16(n);
    }
  }

  lemma ParseTwo(s: string)
    requires |s| == 2 && AllHex(s)
    ensures ParseInt16(s) == Some(16 * DigitValue(s[0]) + DigitValue(s[1]))
  {
    assert s[1..][1..] == [];
    assert ParsePrefix(0, s) == ParsePrefix(DigitValue(s[0]), s[1..]);
  }

  lemma LowerDigitOf(c: char)
    requires '0' <= c <= '9' || 'a' <= c <= 'f'
    ensures IsHexDigit(c) && LowerDigit(DigitValue(c)) == c
  {
  }

  lemma PrintsBack(hi: nat, lo: nat)
    requires hi < 16 && lo < 16
    ensures ToPaddedHex(16 * hi + lo) == [LowerDigit(hi), LowerDigit(lo)]
  {
    ByteDigits(16 * hi + lo);
  }

  lemma PrintedIsLower(n: nat)
    requires n < 256
    ensures |ToPaddedHex(n)| == 2 && IsLowerHex(ToPaddedHex(n)) && ParseInt16(ToPaddedHex(n)) == Some(n)
  {
    ByteDigits(n);
    PaddedHexRoundTrip(n);
  }

  /** Two lower-case digits read as n exactly if they are what n is printed as. */
  lemma TwoDigitsIff(s: string, n: nat)
    requires |s| == 2 && n < 256
    ensures IsLowerHex(s) && ParseInt16(s) == Some(n) <==> s == ToPaddedHex(n)
  {
    PrintedIsLower(n);
    if IsLowerHex(s) {
      LowerDigitOf(s[0]);
      LowerDigitOf(s[1]);
      ParseTwo(s);
      PrintsBack(DigitValue(s[0]), DigitValue(s[1]));
      assert s == [s[0], s[1]];
    }
  }

  /** Two lower-case digits of the text, from position i, read as n. */
  ghost predicate NumberAt(text: string, i: nat, n: nat) {
    i + 2 <= |text| && IsLowerHex(text[i..i + 2]) && ParseInt16(text[i..i + 2]) == Some(n)
  }

  ghost predicate PrintedAt(text: string, i: nat, n: nat) {
    n < 256 && i + 2 <= |text| && text[i..i + 2] == ToPaddedHex(n)
  }

  lemma PrintedReads(text: string, i: nat, n: nat)
    requires PrintedAt(text, i, n)
    ensures NumberAt(text, i, n)
  {
    PrintedIsLower(n);
  }

  /** The palette entry fills with the color: six lower-case digits, in which the first two read as its red, the next two as
      its green and the last two as its blue. */
  ghost predicate IsFill(key: string, c: Rgba) {
    && |key| == 6 && IsLowerHex(key)
    && ParseInt16(key[0..2]) == Some(c.r) && ParseInt16(key[2..4]) == Some(c.g) && ParseInt16(key[4..6]) == Some(c.b)
  }

  /** A color's key is the one palette entry that fills with it. */
  lemma FillIff(key: string, c: Rgba)
    ensures IsFill(key, c) <==> key == RgbToHex(c)
  {
    PaddedHexRoundTrip(c.r); PaddedHexRoundTrip(c.g); PaddedHexRoundTrip(c.b);
    if |key| == 6 {
      TwoDigitsIff(key[0..2], c.r);
      TwoDigitsIff(key[2..4], c.g);
      TwoDigitsIff(key[4..6], c.b);
      assert key == key[0..2] + key[2..4] + key[4..6];
      LowerParts(key);
      Thirds(ToPaddedHex(c.r), ToPaddedHex(c.g), ToPaddedHex(c.b));
    }
  }

  lemma Thirds(a: string, b: string, c: string)
    requires |a| == |b| == |c| == 2
    ensures var t := a + b + c; t[0..2] == a && t[2..4] == b && t[4..6] == c
  {
  }

  lemma LowerParts(key: string)
    requires |key| == 6
    ensures IsLowerHex(key) <==> IsLowerHex(key[0..2]) && IsLowerHex(key[2..4]) && IsLowerHex(key[4..6])
  {
    if IsLowerHex(key[0..2]) && IsLowerHex(key[2..4]) && IsLowerHex(key[4..6]) {
      forall i | 0 <= i < 6 ensures '0' <= key[i] <= '9' || 'a' <= key[i] <= 'f' {
        assert key[i] == if i < 2 then key[0..2][i] else if i < 4 then key[2..4][i - 2] else key[4..6][i - 4];
      }
    }
  }
}
