/** Run-length lists: what `Image.encode` emits, read independently of how its loop builds it. */
module RunLength {
  import opened Hex
  import opened Options

  datatype Run = Run(length: nat, colorIndex: nat)

  function Repeat(n: nat, v: nat): (s: seq<nat>)
    ensures |s| == n
  {
    seq(n, _ => v)
  }

  /** The pixel values a run list stands for. */
  function Expand(runs: seq<Run>): seq<nat> {
    if runs == [] then [] else Repeat(runs[0].length, runs[0].colorIndex) + Expand(runs[1..])
  }

  /** The runs still to be emitted by a scan that holds `count` copies of `previous`. */
  function Scan(previous: nat, count: nat, rest: seq<nat>): seq<Run>
    decreases |rest|
  {
    if rest == [] then [Run(count, previous)]
    else if rest[0] != previous || count == 255 then [Run(count, previous)] + Scan(rest[0], 1, rest[1..])
    else Scan(previous, count + 1, rest[1..])
  }

  function Compress(data: seq<nat>): seq<Run> {
    if data == [] then [] else Scan(data[0], 1, data[1..])
  }

  ghost predicate ByteRuns(runs: seq<Run>) {
    forall i :: 0 <= i < |runs| ==> 1 <= runs[i].length <= 255
  }

  ghost predicate ValuesIn(runs: seq<Run>, data: seq<nat>) {
    forall i :: 0 <= i < |runs| ==> runs[i].colorIndex in data
  }

  lemma {:induction false} ScanExpands(previous: nat, count: nat, rest: seq<nat>)
    requires 1 <= count <= 255
    ensures Expand(Scan(previous, count, rest)) == Repeat(count, previous) + rest
    ensures ByteRuns(Scan(previous, count, rest))
    ensures ValuesIn(Scan(previous, count, rest), [previous] + rest)
    decreases |rest|
  {
    if rest == [] {
      assert Scan(previous, count, rest)[1..] == [];
    } else if rest[0] != previous || count == 255 {
      ScanExpands(rest[0], 1, rest[1..]);
      assert Scan(previous, count, rest)[1..] == Scan(rest[0], 1, rest[1..]);
      assert Repeat(1, rest[0]) + rest[1..] == rest == [rest[0]] + rest[1..];
    } else {
      ScanExpands(previous, count + 1, rest[1..]);
      assert Repeat(count + 1, previous) + rest[1..] == Repeat(count, previous) + rest;
    }
  }

  /** The emitted runs stand for exactly the data, with byte-sized counts and only the data's values. */
  lemma CompressExpands(data: seq<nat>)
    ensures Expand(Compress(data)) == data
    ensures ByteRuns(Compress(data)) && ValuesIn(Compress(data), data)
  {
    if data != [] {
      ScanExpands(data[0], 1, data[1..]);
      assert Repeat(1, data[0]) + data[1..] == data == [data[0]] + data[1..];
    }
  }

  /** `runs` without its first `n` pixels. */
  ghost function DropPixels(runs: seq<Run>, n: nat): seq<Run>
    requires n <= |Expand(runs)|
  {
    if n == 0 then runs
    else if runs[0].length <= n then DropPixels(runs[1..], n - runs[0].length)
    else [Run(runs[0].length - n, runs[0].colorIndex)] + runs[1..]
  }

  lemma DropFromHead(runs: seq<Run>, n: nat)
    requires ByteRuns(runs) && runs != [] && n < runs[0].length
    ensures var dropped := [Run(runs[0].length - n, runs[0].colorIndex)] + runs[1..];
            ByteRuns(dropped) && Expand(dropped) == Expand(runs)[n..]
  {
    var head := runs[0];
    assert ([Run(head.length - n, head.colorIndex)] + runs[1..])[1..] == runs[1..];
    assert Expand(runs)[n..] == Repeat(head.length - n, head.colorIndex) + Expand(runs[1..]);
  }

  lemma {:induction false} DropPixelsDrops(runs: seq<Run>, n: nat)
    requires ByteRuns(runs) && n <= |Expand(runs)|
    ensures ByteRuns(DropPixels(runs, n)) && |DropPixels(runs, n)| <= |runs|
    ensures Expand(DropPixels(runs, n)) == Expand(runs)[n..]
    decreases |runs|
  {
    if n != 0 {
      var head := runs[0];
      if head.length <= n {
        DropPixelsDrops(runs[1..], n - head.length);
        assert Expand(runs)[n..] == Expand(runs[1..])[n - head.length..];
      } else {
        DropFromHead(runs, n);
      }
    }
  }

  /** Where the scan ends a run, the first run of any such list ends there or before. */
  lemma HeadEnds(previous: nat, count: nat, rest: seq<nat>, runs: seq<Run>)
    requires 1 <= count && ByteRuns(runs) && Expand(runs) == Repeat(count, previous) + rest
    requires rest != [] && (rest[0] != previous || count == 255)
    ensures runs != [] && runs[0].length <= count && count - runs[0].length <= |Expand(runs[1..])|
    ensures Expand(runs[1..])[count - runs[0].length..] == rest
  {
    var n, all := runs[0].length, Expand(runs);
    assert forall j :: 0 <= j < n ==> all[j] == runs[0].colorIndex;
    assert all[0] == previous && all[count] == rest[0];
    assert Expand(runs[1..]) == all[n..];
    assert all[count..] == rest;
  }

  lemma {:induction false} ScanIsMinimal(previous: nat, count: nat, rest: seq<nat>, runs: seq<Run>)
    requires 1 <= count <= 255 && ByteRuns(runs)
    requires Expand(runs) == Repeat(count, previous) + rest
    ensures |Scan(previous, count, rest)| <= |runs|
    decreases |rest|
  {
    if rest == [] {
    } else if rest[0] != previous || count == 255 {
      HeadEnds(previous, count, rest, runs);
      DropPixelsDrops(runs[1..], count - runs[0].length);
      assert Repeat(1, rest[0]) + rest[1..] == rest;
      ScanIsMinimal(rest[0], 1, rest[1..], DropPixels(runs[1..], count - runs[0].length));
    } else {
      assert Repeat(count + 1, previous) + rest[1..] == Repeat(count, previous) + rest;
      ScanIsMinimal(previous, count + 1, rest[1..], runs);
    }
  }

  /** No list of runs with byte-sized counts that stands for the same data is shorter. */
  lemma CompressIsMinimal(data: seq<nat>, runs: seq<Run>)
    requires ByteRuns(runs) && Expand(runs) == data
    ensures |Compress(data)| <= |runs|
  {
    if data != [] {
      assert Repeat(1, data[0]) + data[1..] == data;
      ScanIsMinimal(data[0], 1, data[1..], runs);
    }
  }

  /** A run is followed by one of its own value only if it is full. */
  ghost predicate Greedy(runs: seq<Run>) {
    forall i :: 0 <= i < |runs| - 1 && runs[i].colorIndex == runs[i + 1].colorIndex ==> runs[i].length == 255
  }

  lemma {:induction false} ScanIsGreedy(previous: nat, count: nat, rest: seq<nat>)
    requires 1 <= count <= 255
    ensures var runs := Scan(previous, count, rest); runs != [] && Greedy(runs) && runs[0].colorIndex == previous
    decreases |rest|
  {
    if rest == [] {
    } else if rest[0] != previous || count == 255 {
      ScanIsGreedy(rest[0], 1, rest[1..]);
    } else {
      ScanIsGreedy(previous, count + 1, rest[1..]);
    }
  }

  lemma {:induction false} ScanIsUnique(previous: nat, count: nat, rest: seq<nat>, runs: seq<Run>)
    requires 1 <= count && ByteRuns(runs) && Greedy(runs) && runs != [] && runs[0].length >= count
    requires Expand(runs) == Repeat(count, previous) + rest
    ensures runs == Scan(previous, count, rest)
    decreases |rest|
  {
    var head, tail := runs[0], runs[1..];
    var all := Expand(runs);
    assert all[0] == previous && forall j :: 0 <= j < head.length ==> all[j] == head.colorIndex;
    if rest == [] {
      assert Expand(tail) == [];
      assert runs == [head] + tail;
    } else if rest[0] != previous || count == 255 {
      assert all[count] == rest[0];
      assert Expand(tail) == all[head.length..] == rest;
      assert Repeat(1, rest[0]) + rest[1..] == rest;
      ScanIsUnique(rest[0], 1, rest[1..], tail);
      assert runs == [head] + tail;
    } else {
      assert Repeat(count + 1, previous) + rest[1..] == Repeat(count, previous) + rest;
      ScanIsUnique(previous, count + 1, rest[1..], runs);
    }
  }

  /** The encoding is canonical: of all lists of byte-sized runs that stand for the data, it is the one whose runs are full
      before another of the same value begins. */
  lemma CompressIsCanonical(data: seq<nat>, runs: seq<Run>)
    requires ByteRuns(runs) && Expand(runs) == data
    ensures runs == Compress(data) <==> Greedy(runs)
  {
    if data != [] {
      assert Repeat(1, data[0]) + data[1..] == data;
      ScanIsGreedy(data[0], 1, data[1..]);
      if Greedy(runs) { ScanIsUnique(data[0], 1, data[1..], runs); }
    }
  }

  function PrintRun(run: Run): string {
    ToPaddedHex(run.length) + ToPaddedHex(run.colorIndex)
  }

  function PrintRuns(runs: seq<Run>): string {
    if runs == [] then "" else PrintRun(runs[0]) + PrintRuns(runs[1..])
  }

  lemma {:induction false} PrintRunsSnoc(runs: seq<Run>, run: Run)
    ensures PrintRuns(runs + [run]) == PrintRuns(runs) + PrintRun(run)
  {
    if runs == [] {
      assert PrintRuns([run]) == PrintRun(run) + PrintRuns([]);
    } else {
      assert (runs + [run])[1..] == runs[1..] + [run];
      PrintRunsSnoc(runs[1..], run);
    }
  }

  /** The part of the text from i up to j, both clamped to its end. */
  function Substring(s: string, i: nat, j: nat): string
    requires i <= j
  {
    s[if i <= |s| then i else |s| .. if j <= |s| then j else |s|]
  }

  /** The text in chunks of up to four digits, each read as two numbers; `None` if one of them is NaN. */
  function ParseRuns(s: string): Option<seq<Run>> {
    if s == "" then Some([])
    else
      var chunk := Substring(s, 0, 4);
      var rest := ParseRuns(s[|chunk|..]);
      match (ParseInt16(Substring(chunk, 0, 2)), ParseInt16(Substring(chunk, 2, 4)), rest)
      case (Some(n), Some(c), Some(runs)) => Some([Run(n, c)] + runs)
      case _ => None
  }

  lemma ParseChunk(n: string, c: string, rest: string)
    requires |n| == |c| == 2
    requires ParseInt16(n).Some? && ParseInt16(c).Some? && ParseRuns(rest).Some?
    ensures ParseRuns(n + c + rest)
         == Some([Run(ParseInt16(n).value, ParseInt16(c).value)] + ParseRuns(rest).value)
  {
    var s := n + c + rest;
    var chunk := Substring(s, 0, 4);
    assert chunk == n + c;
    assert Substring(chunk, 0, 2) == n && Substring(chunk, 2, 4) == c && s[4..] == rest;
  }

  ghost predicate TwoDigitRun(run: Run) {
    run.length < 256 && run.colorIndex < 256
  }

  lemma ParsePrintedRun(run: Run, rest: string)
    requires TwoDigitRun(run) && ParseRuns(rest).Some?
    ensures ParseRuns(PrintRun(run) + rest) == Some([run] + ParseRuns(rest).value)
  {
    PaddedHexRoundTrip(run.length);
    PaddedHexRoundTrip(run.colorIndex);
    ParseChunk(ToPaddedHex(run.length), ToPaddedHex(run.colorIndex), rest);
  }

  lemma {:induction false} ParsePrintedRuns(runs: seq<Run>)
    requires forall i :: 0 <= i < |runs| ==> TwoDigitRun(runs[i])
    ensures ParseRuns(PrintRuns(runs)) == Some(runs)
  {
    if runs != [] {
      var rest := PrintRuns(runs[1..]);
      assert ParseRuns(rest) == Some(runs[1..]) by { ParsePrintedRuns(runs[1..]); }
      ParsePrintedRun(runs[0], rest);
      assert PrintRuns(runs) == PrintRun(runs[0]) + rest;
      assert runs == [runs[0]] + runs[1..];
    } else {
      assert PrintRuns(runs) == "";
    }
  }

  lemma {:induction false} ParsedRunsAreBytes(s: string)
    requires ParseRuns(s).Some?
    ensures forall i :: 0 <= i < |ParseRuns(s).value| ==> TwoDigitRun(ParseRuns(s).value[i])
    decreases |s|
  {
    if s != "" {
      var chunk := Substring(s, 0, 4);
      ParsedRunsAreBytes(s[|chunk|..]);
      TwoDigitsAreAByte(Substring(chunk, 0, 2));
      TwoDigitsAreAByte(Substring(chunk, 2, 4));
    }
  }

  lemma TwoDigitsAreAByte(s: string)
    requires |s| <= 2 && ParseInt16(s).Some?
    ensures ParseInt16(s).value < 256
  {
    if |s| == 2 && IsHexDigit(s[1]) {
      assert s[1..][1..] == [];
      assert ParsePrefix(0, s) == ParsePrefix(DigitValue(s[0]), s[1..]);
    } else if |s| == 2 {
      assert ParsePrefix(0, s) == ParsePrefix(DigitValue(s[0]), s[1..]) == DigitValue(s[0]);
    } else {
      assert ParsePrefix(0, s) == ParsePrefix(DigitValue(s[0]), s[1..]);
    }
  }
}
