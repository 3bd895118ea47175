/** `punks-assets/src/utils.ts`: `pickRandom` and `getRandomPunkSeed`, for every sequence of random draws. */
module Sampler {
  import opened Collections
  import opened Grouping
  import opened Options

  // ---------- pickRandom ----------

  /** The sum of the first `n` weights. */
  function Sum(w: seq<real>, n: nat): real
    requires n <= |w|
  {
    if n == 0 then 0.0 else Sum(w, n - 1) + w[n - 1]
  }

  predicate Weights(w: seq<real>) {
    forall i :: 0 <= i < |w| ==> w[i] >= 0.0
  }

  lemma {:induction false} SumGrows(w: seq<real>, m: nat, n: nat)
    requires Weights(w) && m <= n <= |w|
    ensures 0.0 <= Sum(w, m) <= Sum(w, n)
    ensures (exists i :: m <= i < n && w[i] > 0.0) <==> Sum(w, m) < Sum(w, n)
    decreases n
  {
    if n > m {
      SumGrows(w, m, n - 1);
    } else if n > 0 {
      SumGrows(w, n - 1, n - 1);
    }
  }

  /** `random(k, max)` stands for the k-th random number scaled to `max`. */
  type Random = (nat, real) -> real

  ghost predicate Draws(random: Random) {
    forall k, max :: max >= 0.0 ==> 0.0 <= random(k, max) <= max && (max > 0.0 ==> random(k, max) < max)
  }

  /** The first entry whose sum lies above the point, among the first `n`. */
  function FirstAbove(w: seq<real>, point: real, n: nat): (r: int)
    requires n <= |w|
    ensures -1 <= r < n
  {
    if n == 0 then -1
    else
      var r := FirstAbove(w, point, n - 1);
      if r >= 0 then r else if Sum(w, n) > point then n - 1 else -1
  }

  /** What the k-th draw picks. */
  function Pick(w: seq<real>, random: Random, k: nat): (r: int)
    ensures -1 <= r < |w|
  {
    FirstAbove(w, random(k, Sum(w, |w|)), |w|)
  }

  method Accumulate(possibilities: seq<real>) returns (accumulated: seq<real>)
    requires possibilities != []
    ensures |accumulated| == |possibilities|
    ensures forall k :: 0 <= k < |accumulated| ==> accumulated[k] == Sum(possibilities, k + 1)
  {
    accumulated := [possibilities[0]];
    for i := 1 to |possibilities|
      invariant |accumulated| == i
      invariant forall k :: 0 <= k < i ==> accumulated[k] == Sum(possibilities, k + 1)
    {
      accumulated := accumulated + [accumulated[i - 1] + possibilities[i]];
    }
  }

  method PickRandom(possibilities: seq<real>, random: Random, k: nat) returns (r: int)
    ensures r == Pick(possibilities, random, k)
  {
    if possibilities == [] {
      return -1;
    }
    var accumulated := Accumulate(possibilities);
    var max := accumulated[|accumulated| - 1];
    var randomness := random(k, max);
    for i := 0 to |accumulated|
      invariant FirstAbove(possibilities, randomness, i) == -1
    {
      if accumulated[i] > randomness {
        FoundFirst(possibilities, randomness, i + 1, |possibilities|);
        return i;
      }
    }
    return -1;
  }

  lemma {:induction false} FoundFirst(w: seq<real>, point: real, m: nat, n: nat)
    requires m <= n <= |w| && FirstAbove(w, point, m) >= 0
    ensures FirstAbove(w, point, n) == FirstAbove(w, point, m)
    decreases n
  {
    if n > m { FoundFirst(w, point, m, n - 1); }
  }

  /** The point falls on entry `i` of the weights laid end to end. */
  ghost predicate Falls(w: seq<real>, point: real, i: int) {
    0 <= i < |w| && Sum(w, i) <= point < Sum(w, i + 1)
  }

  /** A point falls on an entry of weight zero never, and on no two entries. */
  lemma FallsOnce(w: seq<real>, point: real, i: int, j: int)
    requires Weights(w) && Falls(w, point, i)
    ensures w[i] > 0.0
    ensures Falls(w, point, j) ==> i == j
  {
    if Falls(w, point, j) && i < j {
      SumGrows(w, i + 1, j);
    } else if Falls(w, point, j) && j < i {
      SumGrows(w, j + 1, i);
    }
  }

  lemma {:induction false} FirstAboveFalls(w: seq<real>, point: real, n: nat)
    requires n <= |w| && point >= 0.0
    ensures var r := FirstAbove(w, point, n);
            if r == -1 then Sum(w, n) <= point else Falls(w, point, r)
  {
    if n > 0 { FirstAboveFalls(w, point, n - 1); }
  }

  /** Laid end to end, the weights divide the draws among the entries: an entry is picked exactly by the draws that fall
      on it, so never one of weight zero; nothing is picked exactly if no weight is positive. */
  lemma PickIff(w: seq<real>, random: Random, k: nat)
    requires Weights(w) && Draws(random)
    ensures Pick(w, random, k) == -1 <==> forall i :: 0 <= i < |w| ==> w[i] == 0.0
    ensures forall i :: 0 <= i < |w| ==> (Pick(w, random, k) == i <==> Falls(w, random(k, Sum(w, |w|)), i))
    ensures Pick(w, random, k) >= 0 ==> w[Pick(w, random, k)] > 0.0
  {
    var r, point := Pick(w, random, k), random(k, Sum(w, |w|));
    SumGrows(w, 0, |w|);
    FirstAboveFalls(w, point, |w|);
    forall i | Falls(w, point, i) ensures r == i && w[i] > 0.0 {
      SumGrows(w, i + 1, |w|);
      FallsOnce(w, point, i, r);
    }
  }

  /** Every entry of positive weight is where some point below the total falls: the sum of the weights before it. */
  lemma EveryWeightCanFall(w: seq<real>, i: nat)
    requires Weights(w) && i < |w| && w[i] > 0.0
    ensures 0.0 <= Sum(w, i) < Sum(w, |w|) && Falls(w, Sum(w, i), i)
  {
    SumGrows(w, 0, i);
    SumGrows(w, i, i + 1);
    SumGrows(w, i + 1, |w|);
  }

  // ---------- the probability document ----------

  datatype PunkType = PunkType(probability: real, skin: seq<real>, accessories: seq<string>)

  /** The probability document. `countWeights` are the weights of the numbers of accessories, which the document may lack;
      `resources[i]` is the number of images of accessory type i. */
  datatype Config = Config(types: seq<PunkType>, countWeights: Option<seq<real>>, exclusiveGroups: seq<seq<string>>,
                           accTypes: seq<string>, resources: seq<nat>) {
    ghost predicate Valid() {
      && (countWeights.Some? ==> Weights(countWeights.value)) && NoDup(accTypes) && |resources| == |accTypes|
      && forall t :: 0 <= t < |types| ==>
           && types[t].probability >= 0.0 && Weights(types[t].skin) && NoDup(types[t].accessories)
           && forall x :: x in types[t].accessories ==> x in accTypes
    }

    /** The number of images of a type; a type that is not known has none. */
    function Size(item: string): nat {
      var i := IndexOf(accTypes, item);
      if 0 <= i < |resources| then resources[i] else 0
    }

    function Sizes(part: seq<string>): (w: seq<real>)
      ensures |w| == |part| && Weights(w)
    {
      if part == [] then [] else Sizes(part[..|part| - 1]) + [Size(part[|part| - 1]) as real]
    }

    lemma {:induction false} SizeAt(part: seq<string>, i: nat)
      requires i < |part|
      ensures Sizes(part)[i] == Size(part[i]) as real
    {
      if i < |part| - 1 { SizeAt(part[..|part| - 1], i); }
    }

    /** The images of each part, summed over its types. */
    function Counts(parts: seq<seq<string>>): (w: seq<real>)
      ensures |w| == |parts| && forall i :: 0 <= i < |w| ==> w[i] == Sum(Sizes(parts[i]), |parts[i]|)
    {
      seq(|parts|, i requires 0 <= i < |parts| => Sum(Sizes(parts[i]), |parts[i]|))
    }

    /** The weights of the numbers from zero up, cut off at the number of parts. */
    function CountWeights(parts: seq<seq<string>>): seq<real> {
      if countWeights.None? then []
      else countWeights.value[..if |parts| <= |countWeights.value| then |parts| else |countWeights.value|]
    }

    /** The probability of each punk type in whole thousandths. */
    function TypeWeights(): (w: seq<real>)
      requires Valid()
      ensures Weights(w) && |w| == |types|
    {
      seq(|types|, t requires 0 <= t < |types| => (types[t].probability * 1000.0).Floor as real)
    }
  }

  lemma CountsArePositive(cfg: Config, parts: seq<seq<string>>)
    ensures Weights(cfg.Counts(parts))
    ensures forall i :: 0 <= i < |parts| ==> (cfg.Counts(parts)[i] > 0.0 <==> exists x :: x in parts[i] && cfg.Size(x) > 0)
  {
    forall i | 0 <= i < |parts|
      ensures cfg.Counts(parts)[i] >= 0.0 && (cfg.Counts(parts)[i] > 0.0 <==> exists x :: x in parts[i] && cfg.Size(x) > 0)
    {
      SizesAddUp(cfg, parts[i]);
    }
  }

  lemma SizesAddUp(cfg: Config, part: seq<string>)
    ensures Sum(cfg.Sizes(part), |part|) >= 0.0
    ensures Sum(cfg.Sizes(part), |part|) > 0.0 <==> exists x :: x in part && cfg.Size(x) > 0
  {
    var sizes := cfg.Sizes(part);
    SumGrows(sizes, 0, |sizes|);
    forall i | 0 <= i < |part| ensures sizes[i] == cfg.Size(part[i]) as real && part[i] in part { cfg.SizeAt(part, i); }
    if x :| x in part && cfg.Size(x) > 0 {
      var k :| 0 <= k < |sizes| && part[k] == x;
      assert sizes[k] > 0.0;
    }
  }

  // ---------- drawing the parts ----------

  function Zero(w: seq<real>, g: int): seq<real> {
    if 0 <= g < |w| then w[g := 0.0] else w
  }

  /** The counts after `n` parts have been drawn. */
  function Left(counts: seq<real>, random: Random, k: nat, n: nat): (w: seq<real>)
    ensures |w| == |counts|
  {
    if n == 0 then counts
    else
      var w := Left(counts, random, k, n - 1);
      Zero(w, Pick(w, random, k + n - 1))
  }

  function Picked(counts: seq<real>, random: Random, k: nat, n: nat): (selected: seq<int>)
    ensures |selected| == n
  {
    if n == 0 then [] else Picked(counts, random, k, n - 1) + [Pick(Left(counts, random, k, n - 1), random, k + n - 1)]
  }

  method SelectParts(start: seq<real>, random: Random, k: nat, accCount: int) returns (selected: seq<int>)
    ensures selected == Picked(start, random, k, if accCount < 0 then 0 else accCount)
  {
    var counts := start;
    selected := [];
    var n := if accCount < 0 then 0 else accCount;
    for i := 0 to n
      invariant counts == Left(start, random, k, i)
      invariant selected == Picked(start, random, k, i)
    {
      var g := PickRandom(counts, random, k + i);
      selected := selected + [g];
      if g >= 0 {
        counts := counts[g := 0.0];
      }
    }
  }

  function CountPositive(w: seq<real>): nat {
    if w == [] then 0 else CountPositive(w[..|w| - 1]) + if w[|w| - 1] > 0.0 then 1 else 0
  }

  lemma {:induction false} ZeroOne(w: seq<real>, i: nat)
    requires i < |w| && w[i] > 0.0
    ensures CountPositive(w[i := 0.0]) == CountPositive(w) - 1
  {
    var n := |w| - 1;
    if i < n {
      assert w[i := 0.0][..n] == w[..n][i := 0.0];
      ZeroOne(w[..n], i);
    } else {
      assert w[i := 0.0][..n] == w[..n];
    }
  }

  lemma {:induction false} NonePositive(w: seq<real>)
    requires Weights(w)
    ensures CountPositive(w) == 0 <==> forall i :: 0 <= i < |w| ==> w[i] == 0.0
  {
    if w != [] { NonePositive(w[..|w| - 1]); }
  }

  /** The parts drawn so far: none twice, none empty; a drawn part's count has been set to zero. */
  ghost predicate Drawn(start: seq<real>, counts: seq<real>, selected: seq<int>) {
    && |counts| == |start| && Weights(counts)
    && (forall i :: 0 <= i < |selected| ==> -1 <= selected[i] < |start| && (selected[i] >= 0 ==> start[selected[i]] > 0.0))
    && (forall i, j :: 0 <= i < j < |selected| && selected[i] >= 0 ==> selected[i] != selected[j])
    && (forall g :: 0 <= g < |start| ==> counts[g] == if g in selected then 0.0 else start[g])
  }

  /** A draw fails exactly once the parts that are not empty have run out. */
  ghost predicate Selected(start: seq<real>, counts: seq<real>, selected: seq<int>) {
    var n := CountPositive(start);
    && Drawn(start, counts, selected)
    && CountPositive(counts) == (if |selected| <= n then n - |selected| else 0)
    && (-1 in selected <==> |selected| > n)
  }

  lemma DrawPart(start: seq<real>, counts: seq<real>, selected: seq<int>, g: int)
    requires Drawn(start, counts, selected) && -1 <= g < |counts| && (g >= 0 ==> counts[g] > 0.0)
    ensures Drawn(start, Zero(counts, g), selected + [g])
  {
    assert g >= 0 ==> g !in selected;
    assert forall x :: x in selected + [g] <==> x in selected || x == g;
  }

  lemma SelectPart(start: seq<real>, counts: seq<real>, selected: seq<int>, g: int)
    requires Selected(start, counts, selected) && -1 <= g < |counts|
    requires if g >= 0 then counts[g] > 0.0 else CountPositive(counts) == 0
    ensures Selected(start, Zero(counts, g), selected + [g])
  {
    DrawPart(start, counts, selected, g);
    assert -1 in selected + [g] <==> -1 in selected || g == -1;
    if g >= 0 {
      ZeroOne(counts, g);
    }
  }

  /** However the draws fall, no part is drawn twice, none without images, and only running out of parts fails. */
  lemma {:induction false} PickedAreSelected(counts: seq<real>, random: Random, k: nat, n: nat)
    requires Weights(counts) && Draws(random)
    ensures Selected(counts, Left(counts, random, k, n), Picked(counts, random, k, n))
  {
    if n > 0 {
      PickedAreSelected(counts, random, k, n - 1);
      var w := Left(counts, random, k, n - 1);
      PickIff(w, random, k + n - 1);
      NonePositive(w);
      SelectPart(counts, w, Picked(counts, random, k, n - 1), Pick(w, random, k + n - 1));
      assert Picked(counts, random, k, n) == Picked(counts, random, k, n - 1) + [Pick(w, random, k + n - 1)];
    }
  }

  // ---------- drawing the accessories ----------

  datatype Accessory = Accessory(accType: int, accId: int)

  /** The accessory that two draws pick from a part; a part without images has none. */
  function AccessoryOf(cfg: Config, part: seq<string>, random: Random, k: nat): Option<Accessory>
  {
    var i := Pick(cfg.Sizes(part), random, k);
    if i == -1 then None
    else Some(Accessory(IndexOf(cfg.accTypes, part[i]), random(k + 1, cfg.Size(part[i]) as real).Floor))
  }

  /** The i-th accessory: its own two draws from the i-th drawn part. Reading a part that is not there throws. */
  function AccessoryAt(cfg: Config, parts: seq<seq<string>>, selected: seq<int>, random: Random, k: nat, i: nat): Option<Accessory>
    requires i < |selected|
  {
    if 0 <= selected[i] < |parts| then AccessoryOf(cfg, parts[selected[i]], random, k + 2 * i) else None
  }

  method PickAccessory(cfg: Config, part: seq<string>, random: Random, k: nat) returns (a: Option<Accessory>)
    ensures a == AccessoryOf(cfg, part, random, k)
  {
    var i := PickRandom(cfg.Sizes(part), random, k);
    if i == -1 {
      return None;
    }
    return Some(Accessory(IndexOf(cfg.accTypes, part[i]), random(k + 1, cfg.Size(part[i]) as real).Floor));
  }

  /** Every accessory, or nothing if one of them throws. */
  ghost predicate AllDrawn(cfg: Config, parts: seq<seq<string>>, selected: seq<int>, random: Random, k: nat,
                           accessories: Option<seq<Accessory>>)
  {
    match accessories
    case None => exists i :: 0 <= i < |selected| && AccessoryAt(cfg, parts, selected, random, k, i).None?
    case Some(list) =>
      |list| == |selected| && forall i :: 0 <= i < |list| ==> AccessoryAt(cfg, parts, selected, random, k, i) == Some(list[i])
  }

  method PickAccessories(cfg: Config, parts: seq<seq<string>>, selected: seq<int>, random: Random, k: nat)
    returns (accessories: Option<seq<Accessory>>)
    ensures AllDrawn(cfg, parts, selected, random, k, accessories)
  {
    var list := [];
    for i := 0 to |selected|
      invariant |list| == i
      invariant forall j :: 0 <= j < i ==> AccessoryAt(cfg, parts, selected, random, k, j) == Some(list[j])
    {
      var a := None;
      if 0 <= selected[i] < |parts| {
        a := PickAccessory(cfg, parts[selected[i]], random, k + 2 * i);
      }
      assert a == AccessoryAt(cfg, parts, selected, random, k, i);
      if a.None? {
        return None;
      }
      list := list + [a.value];
    }
    return Some(list);
  }

  /** The accessory is one of the part's types, with the id of one of its images. */
  ghost predicate FromPart(cfg: Config, part: seq<string>, a: Accessory) {
    && 0 <= a.accType < |cfg.accTypes| && a.accType < |cfg.resources|
    && cfg.accTypes[a.accType] in part && 0 <= a.accId < cfg.resources[a.accType]
  }

  lemma AccessoryIsFromPart(cfg: Config, part: seq<string>, random: Random, k: nat)
    requires Draws(random)
    ensures AccessoryOf(cfg, part, random, k).None? <==> Sum(cfg.Sizes(part), |part|) == 0.0
    ensures AccessoryOf(cfg, part, random, k).Some? ==> FromPart(cfg, part, AccessoryOf(cfg, part, random, k).value)
  {
    var i := Pick(cfg.Sizes(part), random, k);
    PickIff(cfg.Sizes(part), random, k);
    SumGrows(cfg.Sizes(part), 0, |part|);
    if i >= 0 { cfg.SizeAt(part, i); }
  }

  lemma FloorIff(point: real, id: int)
    ensures point.Floor == id <==> id as real <= point < id as real + 1.0
  {
  }

  /** When the first draw picks type i of the part, the accessory is its image `id` exactly if the second falls into the
      interval of length one that starts at `id`. */
  lemma ImageIff(cfg: Config, part: seq<string>, random: Random, k: nat, i: nat, id: int)
    requires Draws(random) && i < |part| && Pick(cfg.Sizes(part), random, k) == i
    ensures AccessoryOf(cfg, part, random, k) == Some(Accessory(IndexOf(cfg.accTypes, part[i]), id))
       <==> id as real <= random(k + 1, cfg.Size(part[i]) as real) < id as real + 1.0
  {
    FloorIff(random(k + 1, cfg.Size(part[i]) as real), id);
  }
}
