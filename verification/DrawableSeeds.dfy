/** Exactly which seeds `getRandomPunkSeed` can return. */
module DrawableSeeds {
  import opened Collections
  import opened Grouping
  import opened Options
  import opened RandomSeeds
  import opened Sampler

  /** Some draw picks entry `i` of the weights; without any positive weight the result is -1. */
  ghost predicate CanPick(w: seq<real>, i: int) {
    if i == -1 then forall j :: 0 <= j < |w| ==> w[j] == 0.0 else 0 <= i < |w| && w[i] > 0.0
  }

  /** So many accessories can be asked for: among the weights of numbers below the number of parts, this one is positive, or
      none is and no accessories are drawn. */
  ghost predicate CanAsk(weights: seq<real>, parts: nat, n: nat) {
    || (n < |weights| && n < parts && weights[n] > 0.0)
    || (n == 0 && forall j :: 0 <= j < |weights| && j < parts ==> weights[j] == 0.0)
  }

  /** Available accessories that have images, each of its own type, no two with the same first exclusive group. */
  ghost predicate Compatible(cfg: Config, available: seq<string>, list: seq<Accessory>) {
    && (forall i :: 0 <= i < |list| ==> FromPart(cfg, available, list[i]))
    && (forall i, j :: 0 <= i < j < |list| ==>
          && list[i].accType != list[j].accType
          && (First(cfg.exclusiveGroups, cfg.accTypes[list[i].accType]) == First(cfg.exclusiveGroups, cfg.accTypes[list[j].accType])
              ==> First(cfg.exclusiveGroups, cfg.accTypes[list[i].accType]) == |cfg.exclusiveGroups|))
  }

  /** The available types that no exclusive group lists. */
  ghost function Unlisted(cfg: Config, t: PunkType): set<string> {
    set x | x in t.accessories && forall group :: group in cfg.exclusiveGroups ==> x !in group
  }

  lemma {:induction false} ItemsOnce(items: seq<string>, once: set<string>)
    requires NoDup(items) && forall x :: x in once <==> x in items
    ensures |once| == |items|
  {
    if items == [] {
      assert once == {};
    } else {
      var n := |items| - 1;
      assert items == items[..n] + [items[n]];
      ItemsOnce(items[..n], once - {items[n]});
    }
  }

  /** There is a part for each exclusive group and one for each type that no group lists. */
  lemma PartsNumber(cfg: Config, t: nat)
    requires cfg.Valid() && t < |cfg.types|
    ensures |PartsFor(cfg, t)| == |cfg.exclusiveGroups| + |Unlisted(cfg, cfg.types[t])|
  {
    var accs, groups := cfg.types[t].accessories, cfg.exclusiveGroups;
    SplitIsGrouped(accs, groups, |groups|);
    assert groups[..|groups|] == groups;
    var rest := Split(accs, groups).1;
    forall x ensures x in rest <==> x in Unlisted(cfg, cfg.types[t]) {
      assert First(groups, x) < |groups| ==> groups[First(groups, x)] in groups;
    }
    ItemsOnce(rest, Unlisted(cfg, cfg.types[t]));
  }

  /** A type of probability at least a thousandth, a skin tone and a number of accessories that have weight, and compatible
      accessories of that type. */
  ghost predicate Drawable(cfg: Config, seed: RandomSeed) {
    && cfg.countWeights.Some? && 0 <= seed.punkType < |cfg.types|
    && var t := cfg.types[seed.punkType];
    && t.probability >= 0.001 && CanPick(t.skin, seed.skinTone)
    && CanAsk(cfg.countWeights.value, |cfg.exclusiveGroups| + |Unlisted(cfg, t)|, |seed.accessories|)
    && Compatible(cfg, t.accessories, seed.accessories)
  }

  lemma SafeIsCompatible(cfg: Config, accs: seq<string>, parts: seq<seq<string>>, list: seq<Accessory>)
    requires cfg.Valid() && Grouped(accs, cfg.exclusiveGroups, parts)
    ensures Safe(cfg, accs, parts, list) <==> Compatible(cfg, accs, list)
  {
    forall i, j | 0 <= i < j < |list| && FromPart(cfg, accs, list[i]) && FromPart(cfg, accs, list[j]) && list[i].accType != list[j].accType
      ensures SharePart(parts, cfg.accTypes[list[i].accType], cfg.accTypes[list[j].accType])
         <==> First(cfg.exclusiveGroups, cfg.accTypes[list[i].accType]) == First(cfg.exclusiveGroups, cfg.accTypes[list[j].accType])
              < |cfg.exclusiveGroups|
    {
      SharePartIff(accs, cfg.exclusiveGroups, parts, cfg.accTypes[list[i].accType], cfg.accTypes[list[j].accType]);
    }
  }

  /** A punk type's weight is the number of whole thousandths of its probability. */
  lemma TypeWeightIs(cfg: Config, t: nat)
    requires cfg.Valid() && t < |cfg.types|
    ensures var w, p := cfg.TypeWeights()[t], cfg.types[t].probability;
            w == w.Floor as real && w <= 1000.0 * p < w + 1.0 && (w > 0.0 <==> p >= 0.001)
  {
  }

  lemma CountWeightsAre(cfg: Config, parts: seq<seq<string>>)
    requires cfg.Valid() && cfg.countWeights.Some?
    ensures var w, all := cfg.CountWeights(parts), cfg.countWeights.value;
            && Weights(w) && |w| <= |parts| && |w| <= |all| && (|w| == |parts| || |w| == |all|)
            && forall j :: 0 <= j < |w| ==> w[j] == all[j]
  {
  }

  lemma AskedIff(cfg: Config, parts: seq<seq<string>>, n: nat)
    requires cfg.Valid() && cfg.countWeights.Some?
    ensures CanAsk(cfg.countWeights.value, |parts|, n)
       <==> CanPick(cfg.CountWeights(parts), n) || (n == 0 && CanPick(cfg.CountWeights(parts), -1))
  {
    CountWeightsAre(cfg, parts);
  }

  // ---------- every seed drawn is drawable ----------

  lemma PickCan(w: seq<real>, random: Random, k: nat)
    requires Weights(w) && Draws(random)
    ensures CanPick(w, Pick(w, random, k))
  {
    PickIff(w, random, k);
  }

  lemma DrawnIsDrawable(cfg: Config, random: Random, seed: RandomSeed)
    requires cfg.Valid() && Draws(random) && SeedRun(cfg, random, Some(seed))
    ensures Drawable(cfg, seed)
  {
    var t := seed.punkType;
    var parts := PartsFor(cfg, t);
    PickCan(cfg.TypeWeights(), random, 0);
    TypeWeightIs(cfg, t);
    PickCan(cfg.types[t].skin, random, 1);
    PartsArePartition(cfg.types[t].accessories, cfg.exclusiveGroups);
    SeedsAreSafe(cfg, t, parts, random, Some(seed));
    SafeIsCompatible(cfg, cfg.types[t].accessories, parts, seed.accessories);
    CountWeightsAre(cfg, parts);
    PickCan(cfg.CountWeights(parts), random, 2);
    PartsNumber(cfg, seed.punkType);
    AskedIff(cfg, parts, |seed.accessories|);
  }

  // ---------- every drawable seed is drawn ----------

  /** The part that each accessory is drawn from, and its position there. */
  ghost predicate Placed(cfg: Config, parts: seq<seq<string>>, list: seq<Accessory>, selected: seq<int>, items: seq<nat>) {
    && |selected| == |items| == |list|
    && (forall i :: 0 <= i < |list| ==> PlacedAt(cfg, parts, list[i], selected[i], items[i]))
    && (forall i, j :: 0 <= i < j < |list| ==> selected[i] != selected[j])
  }

  ghost predicate PlacedAt(cfg: Config, parts: seq<seq<string>>, a: Accessory, p: int, item: nat) {
    && 0 <= p < |parts| && item < |parts[p]| && FromPart(cfg, parts[p], a) && parts[p][item] == cfg.accTypes[a.accType]
  }

  lemma {:induction false} Places(cfg: Config, accs: seq<string>, parts: seq<seq<string>>, list: seq<Accessory>)
    returns (selected: seq<int>, items: seq<nat>)
    requires Partition(accs, cfg.exclusiveGroups, parts) && Safe(cfg, accs, parts, list)
    ensures Placed(cfg, parts, list, selected, items)
  {
    selected, items := [], [];
    if list != [] {
      var n := |list| - 1;
      selected, items := Places(cfg, accs, parts, list[..n]);
      var x := cfg.accTypes[list[n].accType];
      var p := PartOf(accs, cfg.exclusiveGroups, parts, x);
      var item := IndexIn(parts[p], x);
      forall i | 0 <= i < n ensures selected[i] != p {
        assert PlacedAt(cfg, parts, list[i], selected[i], items[i]);
      }
      selected, items := selected + [p], items + [item];
    }
  }

  /** The counts once the first `n` of the selected parts have been drawn. */
  function Zeroed(counts: seq<real>, selected: seq<int>, n: nat): (w: seq<real>)
    requires n <= |selected|
    ensures |w| == |counts|
  {
    if n == 0 then counts else Zero(Zeroed(counts, selected, n - 1), selected[n - 1])
  }

  lemma {:induction false} ZeroedAt(counts: seq<real>, selected: seq<int>, n: nat, g: nat)
    requires n <= |selected| && g < |counts|
    ensures Zeroed(counts, selected, n)[g] == if g in selected[..n] then 0.0 else counts[g]
  {
    if n > 0 {
      ZeroedAt(counts, selected, n - 1, g);
      assert selected[..n] == selected[..n - 1] + [selected[n - 1]];
    }
  }

  /** Draw 3 + i picks the i-th selected part, given that those before it have been drawn. */
  ghost predicate PicksPart(counts: seq<real>, random: Random, selected: seq<int>, i: nat)
    requires i < |selected|
  {
    Pick(Zeroed(counts, selected, i), random, 3 + i) == selected[i]
  }

  lemma {:induction false} PartsAreDrawn(counts: seq<real>, random: Random, selected: seq<int>, n: nat)
    requires n <= |selected| && forall i :: 0 <= i < n ==> PicksPart(counts, random, selected, i)
    ensures Left(counts, random, 3, n) == Zeroed(counts, selected, n)
    ensures Picked(counts, random, 3, n) == selected[..n]
  {
    if n > 0 {
      PartsAreDrawn(counts, random, selected, n - 1);
      assert PicksPart(counts, random, selected, n - 1);
      assert selected[..n] == selected[..n - 1] + [selected[n - 1]];
    }
  }

  /** The draws that lead to a seed: where draw `k` has to land. */
  function PointFor(cfg: Config, t: nat, parts: seq<seq<string>>, tone: int, asked: int, list: seq<Accessory>,
                    selected: seq<int>, items: seq<nat>, k: nat): real
    requires cfg.Valid() && t < |cfg.types| && |selected| == |items| == |list|
  {
    var n := |list|;
    if k == 0 then Sum(cfg.TypeWeights(), t)
    else if k == 1 then if 0 <= tone < |cfg.types[t].skin| then Sum(cfg.types[t].skin, tone) else 0.0
    else if k == 2 then if 0 <= asked < |cfg.CountWeights(parts)| then Sum(cfg.CountWeights(parts), asked) else 0.0
    else if k < 3 + n then PartPoint(cfg.Counts(parts), selected, k - 3)
    else if k >= 3 + 3 * n then 0.0
    else ItemPoint(cfg, parts, list, selected, items, k - 3 - n)
  }

  function PartPoint(counts: seq<real>, selected: seq<int>, i: nat): real
    requires i < |selected|
  {
    if 0 <= selected[i] < |counts| then Sum(Zeroed(counts, selected, i), selected[i]) else 0.0
  }

  /** The two draws of an accessory: the position of its type in the part, and its image. */
  function ItemPoint(cfg: Config, parts: seq<seq<string>>, list: seq<Accessory>, selected: seq<int>, items: seq<nat>, m: nat): real
    requires |selected| == |items| == |list| && m < 2 * |list|
  {
    var i := m / 2;
    if m % 2 == 1 then list[i].accId as real
    else if 0 <= selected[i] < |parts| && items[i] <= |parts[selected[i]]| then Sum(cfg.Sizes(parts[selected[i]]), items[i])
    else 0.0
  }

  lemma PointsFor(cfg: Config, t: nat, parts: seq<seq<string>>, tone: int, asked: int, list: seq<Accessory>,
                  selected: seq<int>, items: seq<nat>) returns (points: map<nat, real>)
    requires cfg.Valid() && t < |cfg.types| && |selected| == |items| == |list|
    ensures forall k: nat :: k < 3 + 3 * |list| ==>
              k in points && points[k] == PointFor(cfg, t, parts, tone, asked, list, selected, items, k)
  {
    points := map k: nat | k < 3 + 3 * |list| :: PointFor(cfg, t, parts, tone, asked, list, selected, items, k);
  }

  lemma HasImages(cfg: Config, part: seq<string>, a: Accessory)
    requires cfg.Valid() && FromPart(cfg, part, a)
    ensures cfg.Size(cfg.accTypes[a.accType]) == cfg.resources[a.accType]
  {
    assert IndexOf(cfg.accTypes, cfg.accTypes[a.accType]) == a.accType;
  }

  lemma PartIsLeft(cfg: Config, parts: seq<seq<string>>, list: seq<Accessory>, selected: seq<int>, items: seq<nat>, i: nat)
    requires cfg.Valid() && Placed(cfg, parts, list, selected, items) && i < |list|
    ensures Weights(Zeroed(cfg.Counts(parts), selected, i)) && Zeroed(cfg.Counts(parts), selected, i)[selected[i]] > 0.0
  {
    var counts := cfg.Counts(parts);
    CountsArePositive(cfg, parts);
    forall g | 0 <= g < |counts| ensures Zeroed(counts, selected, i)[g] >= 0.0 { ZeroedAt(counts, selected, i, g); }
    assert PlacedAt(cfg, parts, list[i], selected[i], items[i]);
    var x := cfg.accTypes[list[i].accType];
    HasImages(cfg, parts[selected[i]], list[i]);
    assert x in parts[selected[i]] && cfg.Size(x) > 0;
    ZeroedAt(counts, selected, i, selected[i]);
  }

  /** The accessory's two draws pick it from its part. */
  lemma AccessoryIsDrawn(cfg: Config, parts: seq<seq<string>>, a: Accessory, p: int, item: nat, points: map<nat, real>, k: nat)
    requires cfg.Valid() && PlacedAt(cfg, parts, a, p, item)
    requires k in points && points[k] == Sum(cfg.Sizes(parts[p]), item)
    requires k + 1 in points && points[k + 1] == a.accId as real
    ensures AccessoryOf(cfg, parts[p], Fixed(points), k) == Some(a)
  {
    cfg.SizeAt(parts[p], item);
    FixedPick(cfg.Sizes(parts[p]), points, k, item);
    assert IndexOf(cfg.accTypes, parts[p][item]) == a.accType;
    assert (a.accId as real).Floor == a.accId;
  }

  /** The points lead to the given parts and accessories. */
  ghost predicate Leads(cfg: Config, parts: seq<seq<string>>, list: seq<Accessory>, selected: seq<int>, items: seq<nat>, points: map<nat, real>)
  {
    && Placed(cfg, parts, list, selected, items)
    && LeadsToParts(cfg.Counts(parts), selected, points)
    && LeadsToItems(cfg, parts, list, selected, items, points)
  }

  ghost predicate LeadsToParts(counts: seq<real>, selected: seq<int>, points: map<nat, real>) {
    forall i :: 0 <= i < |selected| ==> 3 + i in points && points[3 + i] == PartPoint(counts, selected, i)
  }

  ghost predicate LeadsToItems(cfg: Config, parts: seq<seq<string>>, list: seq<Accessory>, selected: seq<int>, items: seq<nat>,
                               points: map<nat, real>)
    requires |selected| == |items| == |list|
  {
    forall m :: 0 <= m < 2 * |list| ==>
      3 + |list| + m in points && points[3 + |list| + m] == ItemPoint(cfg, parts, list, selected, items, m)
  }

  lemma PartIsDrawn(cfg: Config, parts: seq<seq<string>>, list: seq<Accessory>, selected: seq<int>, items: seq<nat>, points: map<nat, real>,
                    i: nat)
    requires cfg.Valid() && Placed(cfg, parts, list, selected, items) && i < |list|
    requires LeadsToParts(cfg.Counts(parts), selected, points)
    ensures PicksPart(cfg.Counts(parts), Fixed(points), selected, i)
  {
    var counts := cfg.Counts(parts);
    assert PlacedAt(cfg, parts, list[i], selected[i], items[i]);
    PartIsLeft(cfg, parts, list, selected, items, i);
    var point := PartPoint(counts, selected, i);
    assert 3 + i in points && points[3 + i] == point;
    FixedPick(Zeroed(counts, selected, i), points, 3 + i, selected[i]);
  }

  lemma SelectedAreDrawn(cfg: Config, parts: seq<seq<string>>, list: seq<Accessory>, selected: seq<int>, items: seq<nat>,
                         points: map<nat, real>)
    requires cfg.Valid() && Leads(cfg, parts, list, selected, items, points)
    ensures Picked(cfg.Counts(parts), Fixed(points), 3, |list|) == selected
  {
    forall i | 0 <= i < |list| ensures PicksPart(cfg.Counts(parts), Fixed(points), selected, i) {
      PartIsDrawn(cfg, parts, list, selected, items, points, i);
    }
    PartsAreDrawn(cfg.Counts(parts), Fixed(points), selected, |list|);
    assert selected[..|list|] == selected;
  }

  lemma LeadsTo(cfg: Config, parts: seq<seq<string>>, list: seq<Accessory>, selected: seq<int>, items: seq<nat>, points: map<nat, real>,
                m: nat, k: nat)
    requires |selected| == |items| == |list| && LeadsToItems(cfg, parts, list, selected, items, points)
    requires m < 2 * |list| && k == 3 + |list| + m
    ensures k in points && points[k] == ItemPoint(cfg, parts, list, selected, items, m)
  {
  }

  lemma TwoPoints(cfg: Config, parts: seq<seq<string>>, list: seq<Accessory>, selected: seq<int>, items: seq<nat>, i: nat, m: nat)
    requires |selected| == |items| == |list| && i < |list| && m == 2 * i
    requires PlacedAt(cfg, parts, list[i], selected[i], items[i])
    ensures ItemPoint(cfg, parts, list, selected, items, m) == Sum(cfg.Sizes(parts[selected[i]]), items[i])
    ensures ItemPoint(cfg, parts, list, selected, items, m + 1) == list[i].accId as real
  {
  }

  lemma ItemIsDrawn(cfg: Config, parts: seq<seq<string>>, list: seq<Accessory>, selected: seq<int>, items: seq<nat>, points: map<nat, real>,
                    i: nat, k: nat)
    requires |selected| == |items| == |list| && LeadsToItems(cfg, parts, list, selected, items, points)
    requires cfg.Valid() && i < |list| && k == 3 + |list| + 2 * i && PlacedAt(cfg, parts, list[i], selected[i], items[i])
    ensures AccessoryOf(cfg, parts[selected[i]], Fixed(points), k) == Some(list[i])
  {
    TwoPoints(cfg, parts, list, selected, items, i, 2 * i);
    LeadsTo(cfg, parts, list, selected, items, points, 2 * i, k);
    LeadsTo(cfg, parts, list, selected, items, points, 2 * i + 1, k + 1);
    AccessoryIsDrawn(cfg, parts, list[i], selected[i], items[i], points, k);
  }

  lemma ItemIsAt(cfg: Config, parts: seq<seq<string>>, list: seq<Accessory>, selected: seq<int>, items: seq<nat>, points: map<nat, real>,
                 i: nat, k: nat)
    requires cfg.Valid() && Placed(cfg, parts, list, selected, items) && LeadsToItems(cfg, parts, list, selected, items, points)
    requires i < |list| && k == 3 + |list|
    ensures AccessoryAt(cfg, parts, selected, Fixed(points), k, i) == Some(list[i])
  {
    assert PlacedAt(cfg, parts, list[i], selected[i], items[i]);
    ItemIsDrawn(cfg, parts, list, selected, items, points, i, k + 2 * i);
  }

  lemma ListIsDrawn(cfg: Config, parts: seq<seq<string>>, list: seq<Accessory>, selected: seq<int>, items: seq<nat>, points: map<nat, real>)
    requires cfg.Valid() && Leads(cfg, parts, list, selected, items, points)
    ensures AllDrawn(cfg, parts, selected, Fixed(points), 3 + |list|, Some(list))
  {
    forall i | 0 <= i < |list| ensures AccessoryAt(cfg, parts, selected, Fixed(points), 3 + |list|, i) == Some(list[i]) {
      ItemIsAt(cfg, parts, list, selected, items, points, i, 3 + |list|);
    }
  }

  /** A point where entry `i` begins picks it; without positive weights every draw gives -1. */
  lemma CanIsPicked(w: seq<real>, points: map<nat, real>, k: nat, i: int)
    requires Weights(w) && CanPick(w, i) && k in points && (i >= 0 ==> points[k] == Sum(w, i))
    ensures Pick(w, Fixed(points), k) == i
  {
    if i >= 0 {
      FixedPick(w, points, k, i);
    } else {
      FixedDraws(points);
      PickIff(w, Fixed(points), k);
    }
  }

  lemma ListIsAnswer(cfg: Config, parts: seq<seq<string>>, list: seq<Accessory>, selected: seq<int>, items: seq<nat>,
                     points: map<nat, real>)
    requires cfg.Valid() && cfg.countWeights.Some? && Leads(cfg, parts, list, selected, items, points)
    requires var asked := Pick(cfg.CountWeights(parts), Fixed(points), 2); |list| == if asked < 0 then 0 else asked
    ensures Drawing(cfg, parts, Fixed(points), Some(list))
  {
    SelectedAreDrawn(cfg, parts, list, selected, items, points);
    ListIsDrawn(cfg, parts, list, selected, items, points);
    assert Selection(cfg, parts, Fixed(points)) == selected;
  }

  lemma SeedIsDrawn(cfg: Config, seed: RandomSeed, parts: seq<seq<string>>, random: Random)
    requires cfg.Valid() && 0 <= seed.punkType < |cfg.types| && parts == PartsFor(cfg, seed.punkType)
    requires Pick(cfg.TypeWeights(), random, 0) == seed.punkType
    requires Pick(cfg.types[seed.punkType].skin, random, 1) == seed.skinTone
    requires Drawing(cfg, parts, random, Some(seed.accessories))
    ensures SeedRun(cfg, random, Some(seed))
  {
  }

  /** The points that lead to a drawable seed, with the places of its accessories. */
  lemma PointsLead(cfg: Config, seed: RandomSeed, parts: seq<seq<string>>, asked: int, selected: seq<int>, items: seq<nat>)
    returns (points: map<nat, real>)
    requires cfg.Valid() && 0 <= seed.punkType < |cfg.types|
    requires CanPick(cfg.TypeWeights(), seed.punkType) && CanPick(cfg.types[seed.punkType].skin, seed.skinTone)
    requires Weights(cfg.CountWeights(parts)) && CanPick(cfg.CountWeights(parts), asked)
    requires Placed(cfg, parts, seed.accessories, selected, items)
    ensures Leads(cfg, parts, seed.accessories, selected, items, points)
    ensures Pick(cfg.TypeWeights(), Fixed(points), 0) == seed.punkType
    ensures Pick(cfg.types[seed.punkType].skin, Fixed(points), 1) == seed.skinTone
    ensures Pick(cfg.CountWeights(parts), Fixed(points), 2) == asked
  {
    points := PointsFor(cfg, seed.punkType, parts, seed.skinTone, asked, seed.accessories, selected, items);
    CanIsPicked(cfg.TypeWeights(), points, 0, seed.punkType);
    CanIsPicked(cfg.types[seed.punkType].skin, points, 1, seed.skinTone);
    CanIsPicked(cfg.CountWeights(parts), points, 2, asked);
  }

  lemma DrawableIsDrawn(cfg: Config, seed: RandomSeed) returns (random: Random)
    requires cfg.Valid() && Drawable(cfg, seed)
    ensures Draws(random) && SeedRun(cfg, random, Some(seed))
  {
    var accs, parts := cfg.types[seed.punkType].accessories, PartsFor(cfg, seed.punkType);
    PartsArePartition(accs, cfg.exclusiveGroups);
    SafeIsCompatible(cfg, accs, parts, seed.accessories);
    var selected, items := Places(cfg, accs, parts, seed.accessories);
    PartsNumber(cfg, seed.punkType);
    AskedIff(cfg, parts, |seed.accessories|);
    CountWeightsAre(cfg, parts);
    TypeWeightIs(cfg, seed.punkType);
    var asked := if CanPick(cfg.CountWeights(parts), |seed.accessories|) then |seed.accessories| else -1;
    var points := PointsLead(cfg, seed, parts, asked, selected, items);
    random := Fixed(points);
    FixedDraws(points);
    ListIsAnswer(cfg, parts, seed.accessories, selected, items, points);
    SeedIsDrawn(cfg, seed, parts, random);
  }

  /** A seed can be drawn exactly if it is `Drawable`: every combination the document allows can occur, with every image, in
      every order, and no other. */
  lemma DrawnIff(cfg: Config, seed: RandomSeed)
    requires cfg.Valid()
    ensures (exists random: Random :: Draws(random) && SeedRun(cfg, random, Some(seed))) <==> Drawable(cfg, seed)
  {
    if random: Random :| Draws(random) && SeedRun(cfg, random, Some(seed)) {
      DrawnIsDrawable(cfg, random, seed);
    }
    if Drawable(cfg, seed) {
      var random := DrawableIsDrawn(cfg, seed);
    }
  }
}
