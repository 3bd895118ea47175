/** Whole random seeds: what every one of them satisfies, and when exclusive accessories can meet in one. */
module RandomSeeds {
  import opened Collections
  import opened Grouping
  import opened Options
  import opened Sampler

  datatype RandomSeed = RandomSeed(punkType: int, skinTone: int, accessories: seq<Accessory>)

  /** The parts that are drawn: the third draw says how many. */
  function Selection(cfg: Config, parts: seq<seq<string>>, random: Random): seq<int> {
    var accCount := Pick(cfg.CountWeights(parts), random, 2);
    Picked(cfg.Counts(parts), random, 3, if accCount < 0 then 0 else accCount)
  }

  function AccessoriesIn(seed: Option<RandomSeed>): Option<seq<Accessory>> {
    if seed.None? then None else Some(seed.value.accessories)
  }

  /** The accessories that the draws pick; reading weights that are not there throws. */
  ghost predicate Drawing(cfg: Config, parts: seq<seq<string>>, random: Random, accessories: Option<seq<Accessory>>) {
    if cfg.countWeights.None? then accessories.None?
    else AllDrawn(cfg, parts, Selection(cfg, parts, random), random, 3 + |Selection(cfg, parts, random)|, accessories)
  }

  /** The seed of a punk of type `t`, whose accessory types have been split into `parts`. */
  ghost predicate SeedDrawn(cfg: Config, t: nat, parts: seq<seq<string>>, random: Random, seed: Option<RandomSeed>)
    requires t < |cfg.types|
  {
    && Drawing(cfg, parts, random, AccessoriesIn(seed))
    && (seed.Some? ==> seed.value.punkType == t && seed.value.skinTone == Pick(cfg.types[t].skin, random, 1))
  }

  /** The parts of a punk type's accessories. */
  function PartsFor(cfg: Config, t: nat): seq<seq<string>>
    requires t < |cfg.types|
  {
    Parts(cfg.types[t].accessories, cfg.exclusiveGroups)
  }

  /** A whole call: the first draw picks the punk type, and without one it throws. */
  ghost predicate SeedRun(cfg: Config, random: Random, seed: Option<RandomSeed>)
    requires cfg.Valid()
  {
    var t := Pick(cfg.TypeWeights(), random, 0);
    if t == -1 then seed.None? else SeedDrawn(cfg, t, PartsFor(cfg, t), random, seed)
  }

  method RandomAccessories(cfg: Config, parts: seq<seq<string>>, random: Random) returns (accessories: Option<seq<Accessory>>)
    ensures Drawing(cfg, parts, random, accessories)
  {
    if cfg.countWeights.None? {
      return None;
    }
    var accCount := PickRandom(cfg.CountWeights(parts), random, 2);
    var countPerGroup := cfg.Counts(parts);
    var selectedGroups := SelectParts(countPerGroup, random, 3, accCount);
    accessories := PickAccessories(cfg, parts, selectedGroups, random, 3 + |selectedGroups|);
  }

  /** The seed that the draws pick, from parts that hold each available type once. */
  method GetRandomPunkSeed(cfg: Config, random: Random) returns (seed: Option<RandomSeed>)
    requires cfg.Valid()
    ensures SeedRun(cfg, random, seed)
    ensures forall t :: 0 <= t < |cfg.types| ==> Partition(cfg.types[t].accessories, cfg.exclusiveGroups, PartsFor(cfg, t))
  {
    forall t | 0 <= t < |cfg.types| ensures Partition(cfg.types[t].accessories, cfg.exclusiveGroups, PartsFor(cfg, t)) {
      PartsArePartition(cfg.types[t].accessories, cfg.exclusiveGroups);
    }
    var punkType := PickRandom(cfg.TypeWeights(), random, 0);
    if punkType == -1 {
      return None;
    }
    var t := cfg.types[punkType];
    var skinTone := PickRandom(t.skin, random, 1);
    var groupedAccs := GroupByExclusive(t.accessories, cfg.exclusiveGroups);
    var accessories := RandomAccessories(cfg, groupedAccs, random);
    seed := if accessories.None? then None else Some(RandomSeed(punkType, skinTone, accessories.value));
  }

  // ---------- what every seed satisfies ----------

  lemma SelectionIsSelected(cfg: Config, parts: seq<seq<string>>, random: Random) returns (counts: seq<real>)
    requires Draws(random)
    ensures Selected(cfg.Counts(parts), counts, Selection(cfg, parts, random))
  {
    CountsArePositive(cfg, parts);
    var accCount := Pick(cfg.CountWeights(parts), random, 2);
    var n := if accCount < 0 then 0 else accCount;
    PickedAreSelected(cfg.Counts(parts), random, 3, n);
    counts := Left(cfg.Counts(parts), random, 3, n);
  }

  lemma AccessoryIsThere(cfg: Config, parts: seq<seq<string>>, selected: seq<int>, random: Random, k: nat, i: nat)
    requires Draws(random) && i < |selected| && -1 <= selected[i] < |parts|
    requires selected[i] >= 0 ==> cfg.Counts(parts)[selected[i]] > 0.0
    ensures AccessoryAt(cfg, parts, selected, random, k, i).None? <==> selected[i] == -1
    ensures selected[i] >= 0 ==> FromPart(cfg, parts[selected[i]], AccessoryAt(cfg, parts, selected, random, k, i).value)
  {
    if selected[i] >= 0 {
      AccessoryIsFromPart(cfg, parts[selected[i]], random, k + 2 * i);
    }
  }

  /** The i-th accessory comes from the i-th drawn part and has an image. */
  ghost predicate FromParts(cfg: Config, parts: seq<seq<string>>, selected: seq<int>, accessories: seq<Accessory>) {
    |accessories| == |selected|
    && forall i :: 0 <= i < |accessories| ==> 0 <= selected[i] < |parts| && FromPart(cfg, parts[selected[i]], accessories[i])
  }

  lemma DrawnFromParts(cfg: Config, parts: seq<seq<string>>, counts: seq<real>, selected: seq<int>, random: Random, k: nat,
                       r: Option<seq<Accessory>>)
    requires Draws(random) && AllDrawn(cfg, parts, selected, random, k, r) && r.Some?
    requires Drawn(cfg.Counts(parts), counts, selected)
    ensures FromParts(cfg, parts, selected, r.value)
  {
    forall i | 0 <= i < |selected| ensures 0 <= selected[i] < |parts| && FromPart(cfg, parts[selected[i]], r.value[i]) {
      AccessoryIsThere(cfg, parts, selected, random, k, i);
    }
  }

  lemma DrawnThrowIff(cfg: Config, parts: seq<seq<string>>, counts: seq<real>, selected: seq<int>, random: Random, k: nat,
                      r: Option<seq<Accessory>>)
    requires Draws(random) && AllDrawn(cfg, parts, selected, random, k, r)
    requires Selected(cfg.Counts(parts), counts, selected)
    ensures r.None? <==> |selected| > CountPositive(cfg.Counts(parts))
  {
    forall i | 0 <= i < |selected| ensures AccessoryAt(cfg, parts, selected, random, k, i).None? <==> selected[i] == -1 {
      AccessoryIsThere(cfg, parts, selected, random, k, i);
    }
  }

  /** Drawing a seed throws exactly if the weights of the numbers of accessories are missing, or more accessories are asked
      for than there are parts with images. */
  lemma ThrowsIff(cfg: Config, t: nat, parts: seq<seq<string>>, random: Random, seed: Option<RandomSeed>)
    requires t < |cfg.types| && Draws(random) && SeedDrawn(cfg, t, parts, random, seed)
    ensures seed.None?
       <==> cfg.countWeights.None? || Pick(cfg.CountWeights(parts), random, 2) > CountPositive(cfg.Counts(parts))
  {
    if cfg.countWeights.None? { return; }
    var selected := Selection(cfg, parts, random);
    var counts := SelectionIsSelected(cfg, parts, random);
    DrawnThrowIff(cfg, parts, counts, selected, random, 3 + |selected|, AccessoriesIn(seed));
  }

  /** Known types with images, available to the punk type; no type twice and no two of one part. */
  ghost predicate Safe(cfg: Config, available: seq<string>, parts: seq<seq<string>>, accessories: seq<Accessory>) {
    && (forall k :: 0 <= k < |accessories| ==> FromPart(cfg, available, accessories[k]))
    && (forall i, j :: 0 <= i < j < |accessories| ==>
          && accessories[i].accType != accessories[j].accType
          && !SharePart(parts, cfg.accTypes[accessories[i].accType], cfg.accTypes[accessories[j].accType]))
  }

  lemma ApartInParts(cfg: Config, accs: seq<string>, parts: seq<seq<string>>, p: nat, q: nat, a: Accessory, b: Accessory)
    requires Grouped(accs, cfg.exclusiveGroups, parts) && p < |parts| && q < |parts| && p != q
    requires FromPart(cfg, parts[p], a) && FromPart(cfg, parts[q], b)
    ensures a.accType != b.accType && !SharePart(parts, cfg.accTypes[a.accType], cfg.accTypes[b.accType])
  {
    var x, y := cfg.accTypes[a.accType], cfg.accTypes[b.accType];
    if x == y { OnePart(accs, cfg.exclusiveGroups, parts, p, q, x); }
    if i :| 0 <= i < |parts| && x in parts[i] && y in parts[i] {
      OnePart(accs, cfg.exclusiveGroups, parts, p, i, x);
      OnePart(accs, cfg.exclusiveGroups, parts, q, i, y);
    }
  }

  lemma FromDistinctParts(cfg: Config, accs: seq<string>, parts: seq<seq<string>>, counts: seq<real>, selected: seq<int>,
                          list: seq<Accessory>)
    requires Grouped(accs, cfg.exclusiveGroups, parts) && FromParts(cfg, parts, selected, list)
    requires Drawn(cfg.Counts(parts), counts, selected)
    ensures Safe(cfg, accs, parts, list)
  {
    forall k | 0 <= k < |list| ensures FromPart(cfg, accs, list[k]) {
      InPart(accs, cfg.exclusiveGroups, parts, selected[k], cfg.accTypes[list[k].accType]);
    }
    forall i, j | 0 <= i < j < |list|
      ensures list[i].accType != list[j].accType
      ensures !SharePart(parts, cfg.accTypes[list[i].accType], cfg.accTypes[list[j].accType])
    {
      ApartInParts(cfg, accs, parts, selected[i], selected[j], list[i], list[j]);
    }
  }

  /** Every seed is safe, whatever the draws. */
  lemma SeedsAreSafe(cfg: Config, t: nat, parts: seq<seq<string>>, random: Random, seed: Option<RandomSeed>)
    requires t < |cfg.types| && Partition(cfg.types[t].accessories, cfg.exclusiveGroups, parts)
    requires Draws(random) && SeedDrawn(cfg, t, parts, random, seed) && seed.Some?
    ensures Safe(cfg, cfg.types[t].accessories, parts, seed.value.accessories)
  {
    var selected := Selection(cfg, parts, random);
    var counts := SelectionIsSelected(cfg, parts, random);
    DrawnFromParts(cfg, parts, counts, selected, random, 3 + |selected|, AccessoriesIn(seed));
    FromDistinctParts(cfg, cfg.types[t].accessories, parts, counts, selected, seed.value.accessories);
  }

  // ---------- when exclusive accessories can meet ----------

  /** Draws that land on the given points. */
  function Fixed(points: map<nat, real>): Random {
    (k, max) => if k in points && 0.0 <= points[k] < max then points[k] else 0.0
  }

  lemma FixedDraws(points: map<nat, real>)
    ensures Draws(Fixed(points))
  {
  }

  /** The k-th point lies where entry `i` of the weights begins. */
  ghost predicate Aimed(points: map<nat, real>, k: nat, w: seq<real>, i: nat) {
    Weights(w) && i < |w| && w[i] > 0.0 && k in points && points[k] == Sum(w, i)
  }

  lemma FixedPick(w: seq<real>, points: map<nat, real>, k: nat, i: nat)
    requires Aimed(points, k, w, i)
    ensures Pick(w, Fixed(points), k) == i
  {
    EveryWeightCanFall(w, i);
    FixedDraws(points);
    PickIff(w, Fixed(points), k);
  }

  lemma {:induction false} PickedAt(counts: seq<real>, random: Random, k: nat, n: nat, i: nat)
    requires i < n
    ensures Picked(counts, random, k, n)[i] == Pick(Left(counts, random, k, i), random, k + i)
    decreases n
  {
    if i < n - 1 { PickedAt(counts, random, k, n - 1, i); }
  }

  /** With these points, first `p` is drawn and then `q`. */
  lemma FixedParts(counts: seq<real>, points: map<nat, real>, c: nat, p: nat, q: nat)
    requires c >= 2 && Aimed(points, 3, counts, p) && Aimed(points, 4, counts[p := 0.0], q)
    ensures Picked(counts, Fixed(points), 3, c)[0] == p && Picked(counts, Fixed(points), 3, c)[1] == q
  {
    FixedPick(counts, points, 3, p);
    FixedPick(counts[p := 0.0], points, 4, q);
    PickedAt(counts, Fixed(points), 3, c, 0);
    PickedAt(counts, Fixed(points), 3, c, 1);
    assert Left(counts, Fixed(points), 3, 1) == counts[p := 0.0];
  }

  lemma FixedSelection(cfg: Config, parts: seq<seq<string>>, points: map<nat, real>, c: nat, p: nat, q: nat)
    requires c >= 2 && Aimed(points, 2, cfg.CountWeights(parts), c)
    requires Aimed(points, 3, cfg.Counts(parts), p) && Aimed(points, 4, cfg.Counts(parts)[p := 0.0], q)
    ensures var selected := Selection(cfg, parts, Fixed(points));
            |selected| == c && selected[0] == p && selected[1] == q
  {
    FixedPick(cfg.CountWeights(parts), points, 2, c);
    FixedParts(cfg.Counts(parts), points, c, p, q);
  }

  /** Some accessories, or a throw, follow from any draws. */
  lemma {:induction false} DrawnSomehow(cfg: Config, parts: seq<seq<string>>, selected: seq<int>, random: Random, k: nat, n: nat)
    returns (r: Option<seq<Accessory>>)
    requires n <= |selected|
    ensures r.None? ==> exists i :: 0 <= i < |selected| && AccessoryAt(cfg, parts, selected, random, k, i).None?
    ensures r.Some? ==>
              && |r.value| == n
              && forall i :: 0 <= i < n ==> AccessoryAt(cfg, parts, selected, random, k, i) == Some(r.value[i])
  {
    r := Some([]);
    if n > 0 {
      r := DrawnSomehow(cfg, parts, selected, random, k, n - 1);
      var a := AccessoryAt(cfg, parts, selected, random, k, n - 1);
      r := if r.None? || a.None? then None else Some(r.value + [a.value]);
    }
  }

  /** Whatever the draws, they yield a seed, possibly a throw. */
  lemma SeedIsThere(cfg: Config, t: nat, parts: seq<seq<string>>, random: Random) returns (seed: Option<RandomSeed>)
    requires t < |cfg.types|
    ensures SeedDrawn(cfg, t, parts, random, seed)
  {
    if cfg.countWeights.None? { return None; }
    var selected := Selection(cfg, parts, random);
    var r := DrawnSomehow(cfg, parts, selected, random, 3 + |selected|, |selected|);
    assert AllDrawn(cfg, parts, selected, random, 3 + |selected|, r);
    seed := if r.None? then None else Some(RandomSeed(t, Pick(cfg.types[t].skin, random, 1), r.value));
    assert AccessoriesIn(seed) == r;
  }

  lemma IndexIn(part: seq<string>, x: string) returns (i: nat)
    requires x in part
    ensures i < |part| && part[i] == x
  {
    i :| 0 <= i < |part| && part[i] == x;
  }

  /** The accessory's type is named `x`. */
  ghost predicate Named(cfg: Config, a: Accessory, x: string) {
    0 <= a.accType < |cfg.accTypes| && cfg.accTypes[a.accType] == x
  }

  lemma FixedAt(cfg: Config, parts: seq<seq<string>>, selected: seq<int>, points: map<nat, real>, k: nat, i: nat, ix: nat)
    requires i < |selected| && 0 <= selected[i] < |parts|
    requires ix < |parts[selected[i]]| && parts[selected[i]][ix] in cfg.accTypes
    requires Aimed(points, k + 2 * i, cfg.Sizes(parts[selected[i]]), ix)
    ensures AccessoryAt(cfg, parts, selected, Fixed(points), k, i).Some?
    ensures Named(cfg, AccessoryAt(cfg, parts, selected, Fixed(points), k, i).value, parts[selected[i]][ix])
  {
    FixedPick(cfg.Sizes(parts[selected[i]]), points, k + 2 * i, ix);
  }

  /** Points for a punk of type `t` with `c` accessories, the first two from parts `p` and `q`. */
  ghost predicate Aims(cfg: Config, t: nat, parts: seq<seq<string>>, c: nat, p: nat, q: nat, ix: nat, iy: nat, points: map<nat, real>)
    requires cfg.Valid() && p < |parts| && q < |parts|
  {
    && Aimed(points, 0, cfg.TypeWeights(), t) && Aimed(points, 2, cfg.CountWeights(parts), c)
    && Aimed(points, 3, cfg.Counts(parts), p) && Aimed(points, 4, cfg.Counts(parts)[p := 0.0], q)
    && Aimed(points, 3 + c, cfg.Sizes(parts[p]), ix) && Aimed(points, 5 + c, cfg.Sizes(parts[q]), iy)
  }

  lemma SixPoints(c: nat, type0: real, count: real, part0: real, part1: real, item0: real, item1: real)
    returns (points: map<nat, real>)
    requires c >= 2
    ensures forall k :: k in [0, 2, 3, 4, 3 + c, 5 + c] ==> k in points
    ensures points[0] == type0 && points[2] == count && points[3] == part0 && points[4] == part1
    ensures points[3 + c] == item0 && points[5 + c] == item1
  {
    points := map[0 := type0, 2 := count, 3 := part0, 4 := part1, 3 + c := item0, 5 + c := item1];
  }

  lemma PointsToAim(cfg: Config, t: nat, parts: seq<seq<string>>, c: nat, p: nat, q: nat, ix: nat, iy: nat)
    returns (points: map<nat, real>)
    requires cfg.Valid() && t < |cfg.types| && cfg.TypeWeights()[t] > 0.0
    requires 2 <= c < |cfg.CountWeights(parts)| && cfg.CountWeights(parts)[c] > 0.0
    requires p < |parts| && q < |parts| && p != q && cfg.Counts(parts)[p] > 0.0 && cfg.Counts(parts)[q] > 0.0
    requires ix < |parts[p]| && cfg.Size(parts[p][ix]) > 0 && iy < |parts[q]| && cfg.Size(parts[q][iy]) > 0
    ensures Aims(cfg, t, parts, c, p, q, ix, iy, points)
  {
    CountsArePositive(cfg, parts);
    cfg.SizeAt(parts[p], ix);
    cfg.SizeAt(parts[q], iy);
    points := SixPoints(c, Sum(cfg.TypeWeights(), t), Sum(cfg.CountWeights(parts), c), Sum(cfg.Counts(parts), p),
                        Sum(cfg.Counts(parts)[p := 0.0], q), Sum(cfg.Sizes(parts[p]), ix), Sum(cfg.Sizes(parts[q]), iy));
  }

  lemma AimedSeed(cfg: Config, t: nat, parts: seq<seq<string>>, c: nat, p: nat, q: nat, ix: nat, iy: nat, points: map<nat, real>)
    returns (seed: Option<RandomSeed>)
    requires cfg.Valid() && t < |cfg.types| && 2 <= c <= CountPositive(cfg.Counts(parts)) && p < |parts| && q < |parts|
    requires Aims(cfg, t, parts, c, p, q, ix, iy, points)
    requires parts[p][ix] in cfg.accTypes && parts[q][iy] in cfg.accTypes
    ensures SeedDrawn(cfg, t, parts, Fixed(points), seed) && seed.Some? && |seed.value.accessories| == c
    ensures Named(cfg, seed.value.accessories[0], parts[p][ix]) && Named(cfg, seed.value.accessories[1], parts[q][iy])
  {
    FixedSelection(cfg, parts, points, c, p, q);
    var selected := Selection(cfg, parts, Fixed(points));
    FixedPick(cfg.CountWeights(parts), points, 2, c);
    seed := SeedIsThere(cfg, t, parts, Fixed(points));
    FixedDraws(points);
    ThrowsIff(cfg, t, parts, Fixed(points), seed);
    FixedAt(cfg, parts, selected, points, 3 + c, 0, ix);
    FixedAt(cfg, parts, selected, points, 3 + c, 1, iy);
  }

  /** Two types with images that stand in different parts can be drawn together. */
  lemma DifferentPartsCanMeet(cfg: Config, t: nat, parts: seq<seq<string>>, c: nat, x: string, y: string)
    returns (random: Random, seed: Option<RandomSeed>)
    requires cfg.Valid() && t < |cfg.types| && cfg.TypeWeights()[t] > 0.0
    requires Partition(cfg.types[t].accessories, cfg.exclusiveGroups, parts)
    requires 2 <= c < |cfg.CountWeights(parts)| && cfg.CountWeights(parts)[c] > 0.0 && c <= CountPositive(cfg.Counts(parts))
    requires x in cfg.types[t].accessories && y in cfg.types[t].accessories && x != y && !SharePart(parts, x, y)
    requires cfg.Size(x) > 0 && cfg.Size(y) > 0
    ensures Draws(random) && Pick(cfg.TypeWeights(), random, 0) == t && SeedDrawn(cfg, t, parts, random, seed)
    ensures seed.Some? && |seed.value.accessories| == c
    ensures Named(cfg, seed.value.accessories[0], x) && Named(cfg, seed.value.accessories[1], y)
  {
    var p := PartOf(cfg.types[t].accessories, cfg.exclusiveGroups, parts, x);
    var q := PartOf(cfg.types[t].accessories, cfg.exclusiveGroups, parts, y);
    var ix := IndexIn(parts[p], x);
    var iy := IndexIn(parts[q], y);
    CountsArePositive(cfg, parts);
    var points := PointsToAim(cfg, t, parts, c, p, q, ix, iy);
    random := Fixed(points);
    FixedDraws(points);
    FixedPick(cfg.TypeWeights(), points, 0, t);
    seed := AimedSeed(cfg, t, parts, c, p, q, ix, iy, points);
  }

  /** No two accessories of the seed exclude each other. */
  ghost predicate KeepsExclusion(cfg: Config, seed: RandomSeed) {
    forall i, j, x, y :: 0 <= i < j < |seed.accessories| && Named(cfg, seed.accessories[i], x) && Named(cfg, seed.accessories[j], y) ==>
      !Exclusive(cfg.exclusiveGroups, x, y)
  }

  /** Exclusive types with images that the parts have separated. */
  ghost predicate Separated(cfg: Config, accs: seq<string>, x: string, y: string) {
    && x in accs && y in accs && x != y && Exclusive(cfg.exclusiveGroups, x, y) && cfg.Size(x) > 0 && cfg.Size(y) > 0
    && First(cfg.exclusiveGroups, x) != First(cfg.exclusiveGroups, y)
  }

  /** This many accessories can be drawn: the count has weight, and as many parts have images. */
  ghost predicate Possible(cfg: Config, parts: seq<seq<string>>, c: nat) {
    c < |cfg.CountWeights(parts)| && cfg.CountWeights(parts)[c] > 0.0 && c <= CountPositive(cfg.Counts(parts))
  }

  ghost predicate CanMeet(cfg: Config, accs: seq<string>, parts: seq<seq<string>>) {
    (exists c :: c >= 2 && Possible(cfg, parts, c)) && exists x, y :: Separated(cfg, accs, x, y)
  }

  /** If exclusive types can meet, some draws make them. */
  lemma ExclusiveTypesMeet(cfg: Config, t: nat, parts: seq<seq<string>>) returns (random: Random, seed: Option<RandomSeed>)
    requires cfg.Valid() && t < |cfg.types| && cfg.TypeWeights()[t] > 0.0
    requires Partition(cfg.types[t].accessories, cfg.exclusiveGroups, parts) && CanMeet(cfg, cfg.types[t].accessories, parts)
    ensures Draws(random) && Pick(cfg.TypeWeights(), random, 0) == t && SeedDrawn(cfg, t, parts, random, seed)
    ensures seed.Some? && !KeepsExclusion(cfg, seed.value)
  {
    var accs, groups := cfg.types[t].accessories, cfg.exclusiveGroups;
    var c :| c >= 2 && Possible(cfg, parts, c);
    var x, y :| Separated(cfg, accs, x, y);
    SharePartIff(accs, groups, parts, x, y);
    random, seed := DifferentPartsCanMeet(cfg, t, parts, c, x, y);
  }

  lemma NotSeparated(cfg: Config, accs: seq<string>, parts: seq<seq<string>>, a: Accessory, b: Accessory)
    requires NoDup(cfg.accTypes) && Grouped(accs, cfg.exclusiveGroups, parts) && FromPart(cfg, accs, a) && FromPart(cfg, accs, b)
    requires a.accType != b.accType && !SharePart(parts, cfg.accTypes[a.accType], cfg.accTypes[b.accType])
    ensures Exclusive(cfg.exclusiveGroups, cfg.accTypes[a.accType], cfg.accTypes[b.accType]) ==>
              Separated(cfg, accs, cfg.accTypes[a.accType], cfg.accTypes[b.accType])
  {
    var x, y := cfg.accTypes[a.accType], cfg.accTypes[b.accType];
    assert IndexOf(cfg.accTypes, x) == a.accType && IndexOf(cfg.accTypes, y) == b.accType;
    SharePartIff(accs, cfg.exclusiveGroups, parts, x, y);
    if j :| 0 <= j < |cfg.exclusiveGroups| && x in cfg.exclusiveGroups[j] && y in cfg.exclusiveGroups[j] {
      assert First(cfg.exclusiveGroups, x) < |cfg.exclusiveGroups|;
    }
  }

  /** A seed's number of accessories has weight, and as many parts have images. */
  lemma CountIsPossible(cfg: Config, t: nat, parts: seq<seq<string>>, random: Random, seed: Option<RandomSeed>)
    requires cfg.Valid() && t < |cfg.types|
    requires Draws(random) && SeedDrawn(cfg, t, parts, random, seed) && seed.Some?
    ensures seed.value.accessories != [] ==> Possible(cfg, parts, |seed.value.accessories|)
  {
    ThrowsIff(cfg, t, parts, random, seed);
    PickIff(cfg.CountWeights(parts), random, 2);
  }

  /** If they cannot, no draws do. */
  lemma ExclusiveTypesDoNotMeet(cfg: Config, t: nat, parts: seq<seq<string>>, random: Random, seed: Option<RandomSeed>)
    requires cfg.Valid() && t < |cfg.types| && Partition(cfg.types[t].accessories, cfg.exclusiveGroups, parts)
    requires !CanMeet(cfg, cfg.types[t].accessories, parts)
    requires Draws(random) && SeedDrawn(cfg, t, parts, random, seed) && seed.Some?
    ensures KeepsExclusion(cfg, seed.value)
  {
    var list := seed.value.accessories;
    SeedsAreSafe(cfg, t, parts, random, seed);
    CountIsPossible(cfg, t, parts, random, seed);
    forall i, j | 0 <= i < j < |list|
      ensures !Exclusive(cfg.exclusiveGroups, cfg.accTypes[list[i].accType], cfg.accTypes[list[j].accType])
    {
      NotSeparated(cfg, cfg.types[t].accessories, parts, list[i], list[j]);
    }
  }

  /** Seeds of a punk type keep exclusive accessories apart, whatever the draws, exactly if such types cannot meet. */
  lemma ExclusionKeptIff(cfg: Config, t: nat, parts: seq<seq<string>>)
    requires cfg.Valid() && t < |cfg.types| && cfg.TypeWeights()[t] > 0.0
    requires Partition(cfg.types[t].accessories, cfg.exclusiveGroups, parts)
    ensures !CanMeet(cfg, cfg.types[t].accessories, parts) <==>
              forall random: Random, seed ::
                Draws(random) && Pick(cfg.TypeWeights(), random, 0) == t && SeedDrawn(cfg, t, parts, random, seed) && seed.Some? ==>
                  KeepsExclusion(cfg, seed.value)
  {
    if CanMeet(cfg, cfg.types[t].accessories, parts) {
      var random, seed := ExclusiveTypesMeet(cfg, t, parts);
    } else {
      forall random: Random, seed |
        Draws(random) && Pick(cfg.TypeWeights(), random, 0) == t && SeedDrawn(cfg, t, parts, random, seed) && seed.Some?
        ensures KeepsExclusion(cfg, seed.value)
      {
        ExclusiveTypesDoNotMeet(cfg, t, parts, random, seed);
      }
    }
  }

  // ---------- when there is a seed at all ----------

  /** Some number of accessories can be drawn; if no number has weight, none are. */
  ghost predicate Answerable(cfg: Config, parts: seq<seq<string>>) {
    (forall c :: 0 <= c < |cfg.CountWeights(parts)| ==> cfg.CountWeights(parts)[c] == 0.0) || exists c :: Possible(cfg, parts, c)
  }

  lemma SeedForType(cfg: Config, t: nat) returns (random: Random, seed: Option<RandomSeed>)
    requires cfg.Valid() && cfg.countWeights.Some? && t < |cfg.types| && cfg.TypeWeights()[t] > 0.0
    requires Answerable(cfg, PartsFor(cfg, t))
    ensures Draws(random) && SeedRun(cfg, random, seed) && seed.Some?
  {
    var parts := PartsFor(cfg, t);
    var w := cfg.CountWeights(parts);
    var points := map[0 := Sum(cfg.TypeWeights(), t)];
    if c :| Possible(cfg, parts, c) {
      points := points[2 := Sum(w, c)];
      FixedPick(w, points, 2, c);
    }
    random := Fixed(points);
    FixedDraws(points);
    PickIff(w, random, 2);
    FixedPick(cfg.TypeWeights(), points, 0, t);
    seed := SeedIsThere(cfg, t, parts, random);
    ThrowsIff(cfg, t, parts, random, seed);
  }

  lemma SeedHasType(cfg: Config, random: Random, seed: Option<RandomSeed>) returns (t: nat)
    requires cfg.Valid() && Draws(random) && SeedRun(cfg, random, seed) && seed.Some?
    ensures cfg.countWeights.Some? && t < |cfg.types| && cfg.TypeWeights()[t] > 0.0 && Answerable(cfg, PartsFor(cfg, t))
  {
    t := Pick(cfg.TypeWeights(), random, 0);
    var parts := PartsFor(cfg, t);
    PickIff(cfg.TypeWeights(), random, 0);
    ThrowsIff(cfg, t, parts, random, seed);
    PickIff(cfg.CountWeights(parts), random, 2);
    var c := Pick(cfg.CountWeights(parts), random, 2);
    assert c >= 0 ==> Possible(cfg, parts, c);
  }

  /** Some draws give a seed exactly if the document has the weights of the numbers of accessories, and some punk type of
      positive weight allows one of these numbers. */
  lemma SomeSeedIff(cfg: Config)
    requires cfg.Valid()
    ensures (exists random: Random, seed :: Draws(random) && SeedRun(cfg, random, seed) && seed.Some?)
       <==> cfg.countWeights.Some?
            && exists t :: 0 <= t < |cfg.types| && cfg.TypeWeights()[t] > 0.0 && Answerable(cfg, PartsFor(cfg, t))
  {
    if random: Random, seed :| Draws(random) && SeedRun(cfg, random, seed) && seed.Some? {
      var t := SeedHasType(cfg, random, seed);
    }
    if cfg.countWeights.Some? {
      if t :| 0 <= t < |cfg.types| && cfg.TypeWeights()[t] > 0.0 && Answerable(cfg, PartsFor(cfg, t)) {
        var random, seed := SeedForType(cfg, t);
      }
    }
  }

  /** The shipped document has these weights inside each punk type only, so with it every call throws. */
  lemma ShippedAlwaysThrows(cfg: Config, random: Random, seed: Option<RandomSeed>)
    requires cfg.Valid() && cfg.countWeights.None? && SeedRun(cfg, random, seed)
    ensures seed.None?
  {
  }

  // ---------- the shipped groups, with weights given ----------

  lemma TwoPositive(w: seq<real>, p: nat, q: nat)
    requires p < |w| && q < |w| && p != q && w[p] > 0.0 && w[q] > 0.0
    ensures CountPositive(w) >= 2
  {
    ZeroOne(w, p);
    ZeroOne(w[p := 0.0], q);
  }

  /** If two accessories can be asked for, two separated types are both drawn by some draws. */
  lemma SeparatedMeet(cfg: Config, t: nat, x: string, y: string) returns (random: Random, seed: Option<RandomSeed>)
    requires cfg.Valid() && t < |cfg.types| && cfg.TypeWeights()[t] > 0.0 && Separated(cfg, cfg.types[t].accessories, x, y)
    requires cfg.countWeights.Some? && |cfg.countWeights.value| > 2 && cfg.countWeights.value[2] > 0.0
    requires |cfg.exclusiveGroups| > 2
    ensures Draws(random) && SeedRun(cfg, random, seed) && seed.Some? && |seed.value.accessories| == 2
    ensures Named(cfg, seed.value.accessories[0], x) && Named(cfg, seed.value.accessories[1], y)
    ensures !KeepsExclusion(cfg, seed.value)
  {
    var accs, groups, parts := cfg.types[t].accessories, cfg.exclusiveGroups, PartsFor(cfg, t);
    PartsArePartition(accs, groups);
    SharePartIff(accs, groups, parts, x, y);
    var p := PartOf(accs, groups, parts, x);
    var q := PartOf(accs, groups, parts, y);
    CountsArePositive(cfg, parts);
    TwoPositive(cfg.Counts(parts), p, q);
    random, seed := DifferentPartsCanMeet(cfg, t, parts, 2, x, y);
  }

  lemma HatAndGogglesAreSeparated(cfg: Config)
    requires cfg.exclusiveGroups == EXCLUSIVE_GROUPS && cfg.Size("hat") > 0 && cfg.Size("goggles") > 0
    ensures Separated(cfg, FEMALE, "hat", "goggles")
  {
    ShippedFirsts();
    assert FEMALE[1] == "hat" && FEMALE[4] == "goggles";
    assert EXCLUSIVE_GROUPS[2][0] == "hat" && EXCLUSIVE_GROUPS[2][1] == "goggles";
    assert "hat" in EXCLUSIVE_GROUPS[2] && "goggles" in EXCLUSIVE_GROUPS[2];
  }

  /** With the weights given, a female punk can be drawn with a hat and goggles, which exclude each other. */
  lemma FemaleHatAndGogglesMeet(cfg: Config, t: nat) returns (random: Random, seed: Option<RandomSeed>)
    requires cfg.Valid() && t < |cfg.types| && cfg.TypeWeights()[t] > 0.0
    requires cfg.exclusiveGroups == EXCLUSIVE_GROUPS && cfg.types[t].accessories == FEMALE
    requires cfg.countWeights.Some? && |cfg.countWeights.value| > 2 && cfg.countWeights.value[2] > 0.0
    requires cfg.Size("hat") > 0 && cfg.Size("goggles") > 0
    ensures Draws(random) && SeedRun(cfg, random, seed) && seed.Some? && |seed.value.accessories| == 2
    ensures Named(cfg, seed.value.accessories[0], "hat") && Named(cfg, seed.value.accessories[1], "goggles")
    ensures !KeepsExclusion(cfg, seed.value)
  {
    HatAndGogglesAreSeparated(cfg);
    random, seed := SeparatedMeet(cfg, t, "hat", "goggles");
  }
}
