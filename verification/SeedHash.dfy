/** `calculateSeedHash`: a seed packed into 32 bytes of text. */
module SeedHash {
  import opened Hex
  import opened Options

  datatype Acc = Acc(accType: nat, accId: nat)

  // ---------- sorting by type ----------

  /** Insertion keeps accessories of equal type in their order, as the stable `sort` does. */
  function Insert(a: Acc, s: seq<Acc>): (r: seq<Acc>)
    ensures multiset(r) == multiset(s) + multiset{a}
  {
    if s == [] || a.accType < s[0].accType then [a] + s
    else
      assert s == [s[0]] + s[1..];
      [s[0]] + Insert(a, s[1..])
  }

  /** The accessories in ascending order of their types; the sort is stable. */
  function SortByType(s: seq<Acc>): (r: seq<Acc>)
    ensures multiset(r) == multiset(s)
  {
    if s == [] then []
    else
      assert s == s[..|s| - 1] + [s[|s| - 1]];
      Insert(s[|s| - 1], SortByType(s[..|s| - 1]))
  }

  ghost predicate Sorted(s: seq<Acc>) {
    forall i, j :: 0 <= i < j < |s| ==> s[i].accType <= s[j].accType
  }

  lemma {:induction false} InsertSorted(a: Acc, s: seq<Acc>)
    requires Sorted(s)
    ensures Sorted(Insert(a, s))
  {
    if s != [] && a.accType >= s[0].accType {
      InsertSorted(a, s[1..]);
      var r := Insert(a, s[1..]);
      forall i | 0 <= i < |r| ensures s[0].accType <= r[i].accType {
        assert r[i] in multiset(r);
        assert r[i] == a || r[i] in s[1..];
      }
    }
  }

  lemma {:induction false} SortIsSorted(s: seq<Acc>)
    ensures Sorted(SortByType(s))
  {
    if s != [] {
      SortIsSorted(s[..|s| - 1]);
      InsertSorted(s[|s| - 1], SortByType(s[..|s| - 1]));
    }
  }

  /** The accessories of one type, in order. */
  function OfType(s: seq<Acc>, t: nat): seq<Acc> {
    if s == [] then [] else (if s[0].accType == t then [s[0]] else []) + OfType(s[1..], t)
  }

  lemma OfTypeCons(x: Acc, s: seq<Acc>, t: nat)
    ensures OfType([x] + s, t) == (if x.accType == t then [x] else []) + OfType(s, t)
  {
    assert ([x] + s)[1..] == s;
  }

  lemma {:induction false} InsertStable(a: Acc, s: seq<Acc>, t: nat)
    requires Sorted(s)
    ensures OfType(Insert(a, s), t) == OfType(s, t) + if a.accType == t then [a] else []
  {
    if s == [] || a.accType < s[0].accType {
      OfTypeCons(a, s, t);
      if a.accType == t { NoneOfType(s, t); }
    } else {
      InsertStable(a, s[1..], t);
      OfTypeCons(s[0], Insert(a, s[1..]), t);
      Regroup(if s[0].accType == t then [s[0]] else [], OfType(s[1..], t), if a.accType == t then [a] else []);
    }
  }

  lemma Regroup(x: seq<Acc>, y: seq<Acc>, z: seq<Acc>)
    ensures x + (y + z) == (x + y) + z
  {
  }

  lemma {:induction false} NoneOfType(s: seq<Acc>, t: nat)
    requires forall i :: 0 <= i < |s| ==> s[i].accType != t
    ensures OfType(s, t) == []
  {
    if s != [] { NoneOfType(s[1..], t); }
  }

  lemma {:induction false} OfTypeSnoc(s: seq<Acc>, a: Acc, t: nat)
    ensures OfType(s + [a], t) == OfType(s, t) + if a.accType == t then [a] else []
  {
    if s == [] {
      assert [a][1..] == [];
      assert s + [a] == [a];
    } else {
      assert (s + [a])[1..] == s[1..] + [a];
      OfTypeSnoc(s[1..], a, t);
    }
  }

  /** Sorting leaves accessories of equal type in the order they had. */
  lemma {:induction false} SortIsStable(s: seq<Acc>, t: nat)
    ensures OfType(SortByType(s), t) == OfType(s, t)
  {
    if s != [] {
      var init, a := s[..|s| - 1], s[|s| - 1];
      assert s == init + [a];
      SortIsStable(init, t);
      SortIsSorted(init);
      InsertStable(a, SortByType(init), t);
      OfTypeSnoc(init, a, t);
    }
  }

  ghost predicate DistinctTypes(s: seq<Acc>) {
    forall i, j :: 0 <= i < j < |s| ==> s[i].accType != s[j].accType
  }

  lemma SameHead(s: seq<Acc>, t: seq<Acc>)
    requires s != [] && t != [] && Sorted(s) && Sorted(t) && DistinctTypes(s) && DistinctTypes(t)
    requires s[0] in t && t[0] in s
    ensures s[0] == t[0]
  {
    var j :| 0 <= j < |t| && t[j] == s[0];
    var k :| 0 <= k < |s| && s[k] == t[0];
  }

  lemma SameTail(s: seq<Acc>, t: seq<Acc>)
    requires s != [] && t != [] && s[0] == t[0] && multiset(s) == multiset(t)
    ensures multiset(s[1..]) == multiset(t[1..])
  {
    assert s == [s[0]] + s[1..] && t == [t[0]] + t[1..];
    assert multiset(s[1..]) == multiset(s) - multiset{s[0]};
    assert multiset(t[1..]) == multiset(t) - multiset{t[0]};
  }

  /** A list without repeated types is determined by its elements once it is sorted. */
  lemma {:induction false} SortedUnique(s: seq<Acc>, t: seq<Acc>)
    requires Sorted(s) && Sorted(t) && DistinctTypes(s) && DistinctTypes(t) && multiset(s) == multiset(t)
    ensures s == t
  {
    assert |s| == |multiset(s)| == |multiset(t)| == |t|;
    if s != [] {
      assert s[0] in multiset(t) && t[0] in multiset(s);
      SameHead(s, t);
      SameTail(s, t);
      SortedUnique(s[1..], t[1..]);
    }
  }

  // ---------- packing ----------

  function Pairs(s: seq<Acc>): (data: seq<nat>)
    ensures |data| == 2 * |s|
  {
    if s == [] then [] else Pairs(s[..|s| - 1]) + [s[|s| - 1].accType, s[|s| - 1].accId]
  }

  function Data(punkType: nat, skinTone: nat, sorted: seq<Acc>): seq<nat> {
    [punkType, skinTone, |sorted|] + Pairs(sorted)
  }

  /** A byte as two digits; a larger number takes more. */
  function ByteText(n: nat): string {
    (if n > 15 then "" else "0") + ToString16(n)
  }

  /** Each byte is written in front of the text so far. */
  function Packed(data: seq<nat>): string {
    if data == [] then "01" else ByteText(data[|data| - 1]) + Packed(data[..|data| - 1])
  }

  function HashText(data: seq<nat>): string {
    "0x" + PadStart(Packed(data), 64)
  }

  ghost predicate Bytes(data: seq<nat>) {
    forall i :: 0 <= i < |data| ==> data[i] < 256
  }

  lemma ByteTextIsPadded(n: nat)
    requires n < 256
    ensures ByteText(n) == ToPaddedHex(n) && |ByteText(n)| == 2 && ParseInt16(ByteText(n)) == Some(n)
  {
    PaddedHexRoundTrip(n);
    assert n < 16 ==> PadStart(ToString16(n), 2) == "0" + ToString16(n);
  }

  lemma FromTheEnd(front: string, back: string, hi: nat, lo: nat)
    requires lo <= hi <= |back|
    ensures var t := front + back; t[|t| - hi..|t| - lo] == back[|back| - hi..|back| - lo]
  {}

  /** Byte i of the data stands at a fixed distance from the end of the text. */
  lemma {:induction false} PackedAt(data: seq<nat>, i: nat)
    requires Bytes(data) && i < |data|
    ensures var t := Packed(data);
            |t| == 2 * |data| + 2 && t[|t| - 4 - 2 * i..|t| - 2 - 2 * i] == ByteText(data[i])
  {
    var n := |data| - 1;
    var init, text := data[..n], ByteText(data[n]);
    var rest := Packed(init);
    assert |text| == 2 by { ByteTextIsPadded(data[n]); }
    PackedLength(init);
    if i < n {
      PackedAt(init, i);
      FromTheEnd(text, rest, 4 + 2 * i, 2 + 2 * i);
    } else {
      assert (text + rest)[..2] == text;
    }
  }

  lemma {:induction false} PackedLength(data: seq<nat>)
    requires Bytes(data)
    ensures |Packed(data)| == 2 * |data| + 2
  {
    if data != [] {
      ByteTextIsPadded(data[|data| - 1]);
      PackedLength(data[..|data| - 1]);
    }
  }

  lemma {:induction false} PackedIsHex(data: seq<nat>)
    requires Bytes(data)
    ensures AllHex(Packed(data))
  {
    if data != [] {
      var b := data[|data| - 1];
      ByteTextIsPadded(b);
      PaddedHexRoundTrip(b);
      PackedIsHex(data[..|data| - 1]);
    }
  }

  lemma PaddedSlice(t: string, hi: nat, lo: nat)
    requires |t| <= 64 && lo <= hi <= |t|
    ensures |"0x" + PadStart(t, 64)| == 66
    ensures ("0x" + PadStart(t, 64))[66 - hi..66 - lo] == t[|t| - hi..|t| - lo]
  {
    var zeros := Zeros(64 - |t|);
    var h := "0x" + PadStart(t, 64);
    assert h == "0x" + zeros + t;
    FromTheEnd("0x" + zeros, t, hi, lo);
  }

  /** Byte i stands at a fixed place of the hash text. */
  lemma HashAt(data: seq<nat>, i: nat)
    requires Bytes(data) && i < |data| <= 31
    ensures |HashText(data)| == 66
    ensures HashText(data)[62 - 2 * i..64 - 2 * i] == ByteText(data[i])
  {
    PackedAt(data, i);
    PaddedSlice(Packed(data), 4 + 2 * i, 2 + 2 * i);
  }

  // ---------- where the values stand in a hash ----------

  /** The format of a hash, read from its end: the mark, the type, the tone and the number of accessories, then the type and
      id of each accessory in the given order; everything before them is zero. */
  ghost predicate IsLayout(h: string, punkType: nat, skinTone: nat, accs: seq<Acc>) {
    && |h| == 66 && |accs| <= 14 && h[..2] == "0x" && h[64..] == "01"
    && NumberAt(h, 62, punkType) && NumberAt(h, 60, skinTone) && NumberAt(h, 58, |accs|)
    && (forall i :: 0 <= i < |accs| ==> NumberAt(h, 56 - 4 * i, accs[i].accType) && NumberAt(h, 54 - 4 * i, accs[i].accId))
    && (forall j :: 2 <= j < 58 - 4 * |accs| ==> h[j] == '0')
  }

  lemma {:induction false} PackedEnds(data: seq<nat>)
    ensures |Packed(data)| >= 2 && Packed(data)[|Packed(data)| - 2..] == "01"
  {
    if data != [] {
      PackedEnds(data[..|data| - 1]);
      var rest := Packed(data[..|data| - 1]);
      assert Packed(data)[|Packed(data)| - 2..] == rest[|rest| - 2..];
    }
  }

  lemma PaddedEnds(t: string)
    requires 2 <= |t| <= 64
    ensures var h := "0x" + PadStart(t, 64);
            |h| == 66 && h[..2] == "0x" && h[64..] == t[|t| - 2..] && forall j :: 2 <= j < 66 - |t| ==> h[j] == '0'
  {
    var zeros := Zeros(64 - |t|);
    var h := "0x" + PadStart(t, 64);
    assert h == "0x" + zeros + t;
    assert h[64..] == t[|t| - 2..];
  }

  lemma HashNumber(data: seq<nat>, i: nat, at: nat, n: nat)
    requires Bytes(data) && i < |data| <= 31 && at == 62 - 2 * i && n == data[i]
    ensures NumberAt(HashText(data), at, n)
  {
    HashAt(data, i);
    ByteTextIsPadded(n);
    PrintedReads(HashText(data), at, n);
  }

  lemma HashFrame(data: seq<nat>)
    requires Bytes(data) && |data| <= 31
    ensures var h := HashText(data);
            |h| == 66 && h[..2] == "0x" && h[64..] == "01" && forall j :: 2 <= j < 64 - 2 * |data| ==> h[j] == '0'
  {
    PackedLength(data);
    PackedEnds(data);
    PaddedEnds(Packed(data));
  }

  lemma DataAt(punkType: nat, skinTone: nat, sorted: seq<Acc>, i: nat)
    requires i < |sorted|
    ensures var data := Data(punkType, skinTone, sorted);
            |data| == 3 + 2 * |sorted| && data[3 + 2 * i] == sorted[i].accType && data[4 + 2 * i] == sorted[i].accId
  {
    PairsAt(sorted, i);
    var head, pairs := [punkType, skinTone, |sorted|], Pairs(sorted);
    assert (head + pairs)[3 + 2 * i] == pairs[2 * i] && (head + pairs)[4 + 2 * i] == pairs[2 * i + 1];
  }

  lemma TwoNumbers(data: seq<nat>, i: nat, accType: nat, accId: nat)
    requires Bytes(data) && 4 + 2 * i < |data| <= 31 && data[3 + 2 * i] == accType && data[4 + 2 * i] == accId
    ensures NumberAt(HashText(data), 56 - 4 * i, accType) && NumberAt(HashText(data), 54 - 4 * i, accId)
  {
    HashNumber(data, 3 + 2 * i, 56 - 4 * i, accType);
    HashNumber(data, 4 + 2 * i, 54 - 4 * i, accId);
  }

  lemma DataLayout(punkType: nat, skinTone: nat, sorted: seq<Acc>)
    requires Bytes(Data(punkType, skinTone, sorted)) && |sorted| <= 14
    ensures IsLayout(HashText(Data(punkType, skinTone, sorted)), punkType, skinTone, sorted)
  {
    var data := Data(punkType, skinTone, sorted);
    HashFrame(data);
    HashNumber(data, 0, 62, punkType);
    HashNumber(data, 1, 60, skinTone);
    HashNumber(data, 2, 58, |sorted|);
    forall i | 0 <= i < |sorted|
      ensures NumberAt(HashText(data), 56 - 4 * i, sorted[i].accType) && NumberAt(HashText(data), 54 - 4 * i, sorted[i].accId)
    {
      DataAt(punkType, skinTone, sorted, i);
      TwoNumbers(data, i, sorted[i].accType, sorted[i].accId);
    }
  }

  // ---------- the function itself ----------

  class Seed {
    var punkType: nat
    var skinTone: nat
    var accessories: seq<Acc>

    constructor (punkType: nat, skinTone: nat, accessories: seq<Acc>)
      ensures this.punkType == punkType && this.skinTone == skinTone && this.accessories == accessories
    {
      this.punkType, this.skinTone, this.accessories := punkType, skinTone, accessories;
    }
  }

  ghost predicate ByteAccs(s: seq<Acc>) {
    forall i :: 0 <= i < |s| ==> s[i].accType <= 255 && s[i].accId <= 255
  }

  /** The seeds that are packed; all others throw `Invalid value`. */
  ghost predicate Accepted(punkType: nat, skinTone: nat, accessories: seq<Acc>) {
    && punkType <= 255 && skinTone <= 255 && |accessories| <= 14
    && ByteAccs(accessories) && DistinctTypes(accessories)
  }

  /** `DistinctTypes` said of the accessories as a multiset. */
  ghost predicate DistinctTypesIn(m: multiset<Acc>) {
    forall a, b :: a in m && b in m && a.accType == b.accType ==> a == b && m[a] == 1
  }

  lemma DistinctTypesSnoc(init: seq<Acc>, x: Acc)
    ensures DistinctTypes(init + [x]) <==> DistinctTypes(init) && forall a :: a in init ==> a.accType != x.accType
  {
    var s := init + [x];
    assert forall i :: 0 <= i < |init| ==> s[i] == init[i];
    if DistinctTypes(s) {
      forall a | a in init ensures a.accType != x.accType {
        var i :| 0 <= i < |init| && init[i] == a;
        assert s[i].accType != s[|init|].accType;
      }
    }
  }

  lemma DistinctTypesAdd(m: multiset<Acc>, x: Acc)
    ensures DistinctTypesIn(m + multiset{x}) <==> DistinctTypesIn(m) && forall a :: a in m ==> a.accType != x.accType
  {
    var m' := m + multiset{x};
    if DistinctTypesIn(m') {
      forall a, b | a in m && b in m && a.accType == b.accType ensures a == b && m[a] == 1 {
        assert a in m' && b in m' && m'[a] == 1;
      }
      forall a | a in m ensures a.accType != x.accType {
        assert a in m' && x in m' && m'[x] == m[x] + 1;
      }
    }
  }

  lemma {:induction false} DistinctTypesOfMultiset(s: seq<Acc>)
    ensures DistinctTypes(s) <==> DistinctTypesIn(multiset(s))
  {
    if s != [] {
      var init, x := s[..|s| - 1], s[|s| - 1];
      assert s == init + [x];
      DistinctTypesOfMultiset(init);
      DistinctTypesSnoc(init, x);
      DistinctTypesAdd(multiset(init), x);
      assert forall a :: a in init <==> a in multiset(init);
    }
  }

  /** Whether a seed is accepted does not depend on the order of its accessories. */
  lemma AcceptedPermutes(punkType: nat, skinTone: nat, s: seq<Acc>, t: seq<Acc>)
    requires multiset(s) == multiset(t)
    ensures Accepted(punkType, skinTone, s) <==> Accepted(punkType, skinTone, t)
  {
    DistinctTypesOfMultiset(s);
    DistinctTypesOfMultiset(t);
    assert |s| == |multiset(s)| == |multiset(t)| == |t|;
    assert forall i :: 0 <= i < |s| ==> s[i] in multiset(t);
    assert forall i :: 0 <= i < |t| ==> t[i] in multiset(s);
  }

  function SeedHash(punkType: nat, skinTone: nat, accessories: seq<Acc>): string {
    HashText(Data(punkType, skinTone, SortByType(accessories)))
  }

  /** The checks and pushes of the `forEach` over the sorted accessories. */
  method PushPairs(sorted: seq<Acc>, data: seq<nat>) returns (r: Option<seq<nat>>)
    requires Sorted(sorted)
    ensures r == if ByteAccs(sorted) && DistinctTypes(sorted)
                 then Some(data + Pairs(sorted)) else None
  {
    var all := data;
    var prevAccType: int := -1;
    for i := 0 to |sorted|
      invariant all == data + Pairs(sorted[..i])
      invariant prevAccType == if i == 0 then -1 else sorted[i - 1].accType
      invariant ByteAccs(sorted[..i])
      invariant DistinctTypes(sorted[..i])
    {
      var acc := sorted[i];
      if acc.accType > 255 || acc.accId > 255 || acc.accType == prevAccType {
        assert i > 0 && acc.accType == prevAccType ==> sorted[i - 1].accType == sorted[i].accType;
        return None;
      }
      assert sorted[..i + 1][..i] == sorted[..i];
      prevAccType := acc.accType;
      all := all + [acc.accType];
      all := all + [acc.accId];
    }
    assert sorted[..|sorted|] == sorted;
    return Some(all);
  }

  method Print(data: seq<nat>) returns (hash: string)
    ensures hash == HashText(data)
  {
    var seedHash := "01";
    for i := 0 to |data|
      invariant seedHash == Packed(data[..i])
    {
      assert data[..i + 1][..i] == data[..i];
      seedHash := (if data[i] > 15 then "" else "0") + ToString16(data[i]) + seedHash;
    }
    assert data[..|data|] == data;
    hash := "0x" + PadStart(seedHash, 64);
  }

  method HashSorted(punkType: nat, skinTone: nat, sorted: seq<Acc>) returns (hash: Option<string>)
    requires Sorted(sorted)
    ensures hash == if ByteAccs(sorted) && DistinctTypes(sorted) then Some(HashText(Data(punkType, skinTone, sorted))) else None
  {
    var data := PushPairs(sorted, [punkType, skinTone, |sorted|]);
    if data.None? {
      return None;
    }
    var text := Print(data.value);
    hash := Some(text);
  }

  /** The seed's accessories are left sorted, unless one of the first three checks throws. */
  method CalculateSeedHash(seed: Seed) returns (hash: Option<string>)
    modifies seed
    ensures seed.punkType == old(seed.punkType) && seed.skinTone == old(seed.skinTone)
    ensures seed.accessories == if seed.punkType <= 255 && seed.skinTone <= 255 && |old(seed.accessories)| <= 14
                                then SortByType(old(seed.accessories)) else old(seed.accessories)
    ensures hash == if Accepted(seed.punkType, seed.skinTone, old(seed.accessories))
                    then Some(SeedHash(seed.punkType, seed.skinTone, old(seed.accessories))) else None
    ensures hash.Some? ==>
              && multiset(seed.accessories) == multiset(old(seed.accessories)) && Sorted(seed.accessories)
              && IsLayout(hash.value, seed.punkType, seed.skinTone, seed.accessories)
  {
    if seed.punkType > 255 {
      return None;
    }
    if seed.skinTone > 255 {
      return None;
    }
    if |seed.accessories| > 14 {
      return None;
    }
    ghost var given := seed.accessories;
    seed.accessories := SortByType(seed.accessories);
    SortIsSorted(given);
    SortKeepsLength(given);
    AcceptedPermutes(seed.punkType, seed.skinTone, given, seed.accessories);
    hash := HashSorted(seed.punkType, seed.skinTone, seed.accessories);
    if hash.Some? {
      AcceptedData(seed.punkType, seed.skinTone, given);
      DataLayout(seed.punkType, seed.skinTone, seed.accessories);
    }
  }

  lemma SortKeepsLength(s: seq<Acc>)
    ensures |SortByType(s)| == |s|
  {
    assert |SortByType(s)| == |multiset(SortByType(s))| == |multiset(s)| == |s|;
  }

  // ---------- what the hash identifies ----------

  lemma {:induction false} PairsAt(s: seq<Acc>, i: nat)
    requires i < |s|
    ensures Pairs(s)[2 * i] == s[i].accType && Pairs(s)[2 * i + 1] == s[i].accId
  {
    if i < |s| - 1 { PairsAt(s[..|s| - 1], i); }
  }

  lemma {:induction false} PairsAreBytes(s: seq<Acc>)
    requires ByteAccs(s)
    ensures Bytes(Pairs(s))
  {
    if s != [] { PairsAreBytes(s[..|s| - 1]); }
  }

  lemma AcceptedData(punkType: nat, skinTone: nat, accessories: seq<Acc>)
    requires Accepted(punkType, skinTone, accessories)
    ensures var data := Data(punkType, skinTone, SortByType(accessories));
            Bytes(data) && data[2] == |accessories| && |data| == 3 + 2 * |accessories| <= 31
  {
    var sorted := SortByType(accessories);
    AcceptedPermutes(punkType, skinTone, accessories, sorted);
    SortKeepsLength(accessories);
    PairsAreBytes(sorted);
  }

  /** Every accepted seed hashes to `0x` and 64 hexadecimal digits. */
  lemma HashIsBytes32(punkType: nat, skinTone: nat, accessories: seq<Acc>)
    requires Accepted(punkType, skinTone, accessories)
    ensures var h := SeedHash(punkType, skinTone, accessories);
            |h| == 66 && h[..2] == "0x" && AllHex(h[2..])
  {
    AcceptedData(punkType, skinTone, accessories);
    var data := Data(punkType, skinTone, SortByType(accessories));
    HashAt(data, 0);
    PackedIsHex(data);
    assert HashText(data)[2..] == PadStart(Packed(data), 64);
  }

  /** The hash of an accepted seed, number by number: its accessories stand in ascending order of their types. */
  lemma HashLayout(punkType: nat, skinTone: nat, accessories: seq<Acc>, sorted: seq<Acc>)
    requires Accepted(punkType, skinTone, accessories) && Sorted(sorted) && multiset(sorted) == multiset(accessories)
    ensures IsLayout(SeedHash(punkType, skinTone, accessories), punkType, skinTone, sorted)
  {
    var s := SortByType(accessories);
    AcceptedPermutes(punkType, skinTone, accessories, s);
    AcceptedPermutes(punkType, skinTone, accessories, sorted);
    SortIsSorted(accessories);
    SortedUnique(s, sorted);
    AcceptedData(punkType, skinTone, accessories);
    DataLayout(punkType, skinTone, sorted);
  }

  /** Equal hash texts come from equal data: the third byte tells how long the data is. */
  lemma HashTextInjective(d: seq<nat>, e: seq<nat>)
    requires Bytes(d) && Bytes(e) && 3 <= |d| <= 31 && 3 <= |e| <= 31
    requires |d| == 3 + 2 * d[2] && |e| == 3 + 2 * e[2] && HashText(d) == HashText(e)
    ensures d == e
  {
    HashByteInjective(d, e, 2);
    forall i | 0 <= i < |d| ensures d[i] == e[i] {
      HashByteInjective(d, e, i);
    }
  }

  lemma HashByteInjective(d: seq<nat>, e: seq<nat>, i: nat)
    requires Bytes(d) && Bytes(e) && i < |d| <= 31 && i < |e| <= 31 && HashText(d) == HashText(e)
    ensures d[i] == e[i]
  {
    HashAt(d, i);
    HashAt(e, i);
    ByteTextIsPadded(d[i]);
    ByteTextIsPadded(e[i]);
  }

  lemma PairsInjective(s: seq<Acc>, t: seq<Acc>)
    requires Pairs(s) == Pairs(t)
    ensures s == t
  {
    assert |s| == |t|;
    forall i | 0 <= i < |s| ensures s[i] == t[i] {
      PairsAt(s, i);
      PairsAt(t, i);
    }
  }

  lemma SameAccessoriesSameHash(punkType: nat, skinTone: nat, accs: seq<Acc>, accs': seq<Acc>)
    requires Accepted(punkType, skinTone, accs) && multiset(accs) == multiset(accs')
    ensures SeedHash(punkType, skinTone, accs) == SeedHash(punkType, skinTone, accs')
  {
    var s, s' := SortByType(accs), SortByType(accs');
    AcceptedPermutes(punkType, skinTone, accs, s);
    AcceptedPermutes(punkType, skinTone, accs, s');
    SortIsSorted(accs);
    SortIsSorted(accs');
    SortedUnique(s, s');
  }

  lemma DataInjective(punkType: nat, skinTone: nat, s: seq<Acc>, punkType': nat, skinTone': nat, s': seq<Acc>)
    requires Data(punkType, skinTone, s) == Data(punkType', skinTone', s')
    ensures punkType == punkType' && skinTone == skinTone' && s == s'
  {
    var d, d' := Data(punkType, skinTone, s), Data(punkType', skinTone', s');
    assert d[0] == d'[0] && d[1] == d'[1];
    assert Pairs(s) == d[3..] && Pairs(s') == d'[3..];
    PairsInjective(s, s');
  }

  /** Two accepted seeds hash equal exactly if they have the same type, tone and accessories, in whatever order. */
  lemma HashIsCanonical(punkType: nat, skinTone: nat, accs: seq<Acc>, punkType': nat, skinTone': nat, accs': seq<Acc>)
    requires Accepted(punkType, skinTone, accs) && Accepted(punkType', skinTone', accs')
    ensures SeedHash(punkType, skinTone, accs) == SeedHash(punkType', skinTone', accs')
       <==> punkType == punkType' && skinTone == skinTone' && multiset(accs) == multiset(accs')
  {
    if multiset(accs) == multiset(accs') {
      SameAccessoriesSameHash(punkType, skinTone, accs, accs');
    }
    if SeedHash(punkType, skinTone, accs) == SeedHash(punkType', skinTone', accs') {
      var s, s' := SortByType(accs), SortByType(accs');
      AcceptedData(punkType, skinTone, accs);
      AcceptedData(punkType', skinTone', accs');
      HashTextInjective(Data(punkType, skinTone, s), Data(punkType', skinTone', s'));
      DataInjective(punkType, skinTone, s, punkType', skinTone', s');
      assert multiset(s) == multiset(accs) && multiset(s') == multiset(accs');
    }
  }
}
