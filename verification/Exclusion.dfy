/** `populate-seeder.ts`: the exclusive groups as bit masks, and their agreement with the sampler's parts. */
module Exclusion {
  import opened Collections
  import opened Options
  import opened Grouping

  /** The mask with bit i alone; JavaScript takes the shift count modulo 32. */
  function OneBit(i: nat): bv32 {
    Shift(i % 32)
  }

  function Shift(n: nat): bv32
    requires n < 32
  {
    1 << n
  }

  /** Bits are counted from the lowest: the first is 1, and each is twice the one before it. */
  lemma BitsDouble(n: nat)
    requires n < 31
    ensures Shift(0) == 1 && Shift(n + 1) == Shift(n) + Shift(n)
  {
    DoubleShift(n as bv32);
  }

  lemma DoubleShift(n: bv32)
    requires n < 31
    ensures (1 as bv32) << (n + 1) == ((1 as bv32) << n) + ((1 as bv32) << n)
  {
  }

  predicate Meets(mask: bv32, m: bv32) {
    mask & m != 0
  }

  /** Bit `j` of a 32-bit mask. */
  predicate Bit(mask: bv32, j: nat) {
    Meets(mask, OneBit(j))
  }

  lemma OrAnd(a: bv32, b: bv32, m: bv32)
    ensures (a | b) & m != 0 <==> a & m != 0 || b & m != 0
  {
  }

  lemma MeetsOr(a: bv32, b: bv32, m: bv32)
    ensures Meets(a | b, m) <==> Meets(a, m) || Meets(b, m)
  {
    OrAnd(a, b, m);
  }

  lemma BitOfOr(a: bv32, b: bv32, j: nat)
    ensures Bit(a | b, j) <==> Bit(a, j) || Bit(b, j)
  {
    MeetsOr(a, b, OneBit(j));
  }

  lemma ShiftsDiffer(i: nat, j: nat)
    requires i < 32 && j < 32
    ensures Shift(i) & Shift(j) != 0 <==> i == j
  {
  }

  lemma BitOfOne(i: nat, j: nat)
    ensures Bit(OneBit(i), j) <==> i % 32 == j % 32
  {
    ShiftsDiffer(i % 32, j % 32);
  }

  lemma BitOfZero(j: nat)
    ensures !Bit(0, j)
  {
  }

  lemma BitsOfZero(accTypes: seq<string>)
    ensures MaskOf(accTypes, [], 0)
  {
    forall j: nat ensures !Bit(0, j) {
      BitOfZero(j);
    }
  }

  /** Some group lists both accessory types. */
  ghost predicate Together(accTypes: seq<string>, groups: seq<seq<string>>, i: nat, j: nat)
    requires i < |accTypes| && j < |accTypes|
  {
    Exclusive(groups, accTypes[i], accTypes[j])
  }

  /** Some type in `members` has the same bit as type j. */
  ghost predicate Hits(accTypes: seq<string>, members: seq<string>, j: nat) {
    exists k :: 0 <= k < |accTypes| && k % 32 == j % 32 && accTypes[k] in members
  }

  /** The mask's bits are those of the types in `members`, and no others. */
  ghost predicate MaskOf(accTypes: seq<string>, members: seq<string>, mask: bv32) {
    forall j: nat :: Bit(mask, j) <==> Hits(accTypes, members, j)
  }

  lemma OneMember(accTypes: seq<string>, t: nat)
    requires NoDup(accTypes) && t < |accTypes|
    ensures MaskOf(accTypes, [accTypes[t]], OneBit(t))
  {
    forall j: nat ensures Bit(OneBit(t), j) <==> Hits(accTypes, [accTypes[t]], j) {
      BitOfOne(t, j);
      OneHits(accTypes, t, j);
    }
  }

  lemma OneHits(accTypes: seq<string>, t: nat, j: nat)
    requires NoDup(accTypes) && t < |accTypes|
    ensures Hits(accTypes, [accTypes[t]], j) <==> t % 32 == j % 32
  {
    assert accTypes[t] in [accTypes[t]];
  }

  lemma MoreHit(accTypes: seq<string>, members: seq<string>, more: seq<string>, j: nat)
    ensures Hits(accTypes, members + more, j) <==> Hits(accTypes, members, j) || Hits(accTypes, more, j)
  {
    forall k | 0 <= k < |accTypes|
      ensures accTypes[k] in members + more <==> accTypes[k] in members || accTypes[k] in more
    {
    }
  }

  lemma MoreMembers(accTypes: seq<string>, members: seq<string>, mask: bv32, more: seq<string>, mask': bv32)
    requires MaskOf(accTypes, members, mask) && MaskOf(accTypes, more, mask')
    ensures MaskOf(accTypes, members + more, mask | mask')
  {
    forall j: nat ensures Bit(mask | mask', j) <==> Hits(accTypes, members + more, j) {
      BitOfOr(mask, mask', j);
      MoreHit(accTypes, members, more, j);
    }
  }

  /** The `or` of the bits of a group's members; `None` for a type that is not known, which throws. */
  method GroupMask(accTypes: seq<string>, group: seq<string>) returns (mask: Option<bv32>)
    requires NoDup(accTypes)
    ensures mask.None? <==> exists x :: x in group && x !in accTypes
    ensures mask.Some? ==> MaskOf(accTypes, group, mask.value)
  {
    BitsOfZero(accTypes);
    var groupExclusion: bv32 := 0;
    for k := 0 to |group|
      invariant forall x :: x in group[..k] ==> x in accTypes
      invariant MaskOf(accTypes, group[..k], groupExclusion)
    {
      var accTypeIndex := IndexOf(accTypes, group[k]);
      if accTypeIndex < 0 {
        return None;
      }
      assert group[..k + 1] == group[..k] + [group[k]];
      OneMember(accTypes, accTypeIndex);
      MoreMembers(accTypes, group[..k], groupExclusion, [group[k]], OneBit(accTypeIndex));
      groupExclusion := groupExclusion | OneBit(accTypeIndex);
    }
    assert group[..|group|] == group;
    return Some(groupExclusion);
  }

  ghost predicate Linked(accTypes: seq<string>, groups: seq<seq<string>>, i: nat, j: nat)
    requires i < |accTypes| && j < |accTypes|
  {
    i == j || Together(accTypes, groups, i, j)
  }

  /** Type i itself, or a type that some group puts it together with, has the same bit as type j. */
  ghost predicate Related(accTypes: seq<string>, groups: seq<seq<string>>, i: nat, j: nat)
    requires i < |accTypes|
  {
    exists k :: 0 <= k < |accTypes| && k % 32 == j % 32 && Linked(accTypes, groups, i, k)
  }

  ghost predicate Masks(accTypes: seq<string>, groups: seq<seq<string>>, masks: seq<bv32>) {
    |masks| == |accTypes|
    && forall i, j: nat :: 0 <= i < |masks| ==> (Bit(masks[i], j) <==> Related(accTypes, groups, i, j))
  }

  /** The masks once the members `done` of the next group have been or-ed with its mask. */
  ghost predicate PartlyMasked(accTypes: seq<string>, groups: seq<seq<string>>, group: seq<string>, done: seq<string>, masks: seq<bv32>) {
    |masks| == |accTypes|
    && forall i, j: nat :: 0 <= i < |masks| ==>
         (Bit(masks[i], j) <==> Related(accTypes, groups, i, j) || (accTypes[i] in done && Hits(accTypes, group, j)))
  }

  /** Entry i of the masks relates type i to itself and to whatever some group puts it together with, and to nothing else;
      bits that belong to no type are clear. */
  ghost predicate ExactMasks(accTypes: seq<string>, groups: seq<seq<string>>, masks: seq<bv32>) {
    |masks| == |accTypes|
    && (forall i, j :: 0 <= i < |masks| && 0 <= j < |masks| ==> (Bit(masks[i], j) <==> Linked(accTypes, groups, i, j)))
    && forall i, j :: 0 <= i < |masks| <= j < 32 ==> !Bit(masks[i], j)
  }

  lemma OwnBits(accTypes: seq<string>, groups: seq<seq<string>>, i: nat, j: nat)
    requires i < |accTypes| <= 32 && j < 32
    ensures Related(accTypes, groups, i, j) <==> j < |accTypes| && Linked(accTypes, groups, i, j)
  {
    assert forall k :: 0 <= k < |accTypes| ==> k % 32 == k;
  }

  /** With at most 32 types no two share a bit, and the masks are exact. */
  lemma FewTypesAreExact(accTypes: seq<string>, groups: seq<seq<string>>, masks: seq<bv32>)
    requires Masks(accTypes, groups, masks) && |accTypes| <= 32
    ensures ExactMasks(accTypes, groups, masks)
  {
    forall i, j: nat | 0 <= i < |masks| && j < 32
      ensures Bit(masks[i], j) <==> j < |masks| && Linked(accTypes, groups, i, j)
    {
      OwnBits(accTypes, groups, i, j);
    }
  }

  /** With more, type 0 excludes type 32 whether or not a group says so. */
  lemma ManyTypesShareBits(accTypes: seq<string>, groups: seq<seq<string>>, masks: seq<bv32>)
    requires Masks(accTypes, groups, masks) && |accTypes| > 32
    ensures Bit(masks[0], 32) && (!Together(accTypes, groups, 0, 32) ==> !ExactMasks(accTypes, groups, masks))
  {
    assert 0 % 32 == 32 % 32 && Linked(accTypes, groups, 0, 0);
    assert Related(accTypes, groups, 0, 32);
  }

  /** The masks passed to `setAccExclusion`, or `None` if a group names an unknown type. */
  method AccExclusion(accTypes: seq<string>, groups: seq<seq<string>>) returns (masks: Option<seq<bv32>>)
    requires NoDup(accTypes)
    ensures masks.None? <==> exists g, x :: g in groups && x in g && x !in accTypes
    ensures masks.Some? ==> Masks(accTypes, groups, masks.value)
    ensures masks.Some? && |accTypes| <= 32 ==> ExactMasks(accTypes, groups, masks.value)
  {
    var accExclusion: seq<bv32> := [];
    for i := 0 to |accTypes|
      invariant |accExclusion| == i && forall k :: 0 <= k < i ==> accExclusion[k] == OneBit(k)
    {
      accExclusion := accExclusion + [OneBit(i)];
    }
    forall i, j: nat | 0 <= i < |accTypes| ensures Bit(accExclusion[i], j) <==> Related(accTypes, groups[..0], i, j) {
      BitOfOne(i, j);
      RelatedToItself(accTypes, groups[..0], i, j);
    }
    for k := 0 to |groups|
      invariant forall g, x :: g in groups[..k] && x in g ==> x in accTypes
      invariant Masks(accTypes, groups[..k], accExclusion)
    {
      var group := groups[k];
      var groupExclusion := GroupMask(accTypes, group);
      if groupExclusion.None? {
        assert group in groups;
        return None;
      }
      for m := 0 to |group|
        invariant PartlyMasked(accTypes, groups[..k], group, group[..m], accExclusion)
      {
        var accTypeIndex := IndexOf(accTypes, group[m]);
        assert group[m] in group;
        MaskMember(accTypes, groups[..k], group, m, accExclusion, groupExclusion.value, accTypeIndex);
        accExclusion := accExclusion[accTypeIndex := accExclusion[accTypeIndex] | groupExclusion.value];
      }
      assert group[..|group|] == group;
      GroupMasked(accTypes, groups, k, accExclusion);
      assert groups[..k + 1] == groups[..k] + [group];
    }
    assert groups[..|groups|] == groups;
    if |accTypes| <= 32 { FewTypesAreExact(accTypes, groups, accExclusion); }
    return Some(accExclusion);
  }

  lemma MaskMember(accTypes: seq<string>, groups: seq<seq<string>>, group: seq<string>, m: nat, masks: seq<bv32>, mask: bv32, t: int)
    requires NoDup(accTypes) && m < |group| && 0 <= t < |accTypes| && accTypes[t] == group[m]
    requires PartlyMasked(accTypes, groups, group, group[..m], masks)
    requires MaskOf(accTypes, group, mask)
    ensures PartlyMasked(accTypes, groups, group, group[..m + 1], masks[t := masks[t] | mask])
  {
    var masks' := masks[t := masks[t] | mask];
    forall i, j: nat | 0 <= i < |accTypes|
      ensures Bit(masks'[i], j) <==> Related(accTypes, groups, i, j) || (accTypes[i] in group[..m + 1] && Hits(accTypes, group, j))
    {
      DoneMore(accTypes, group, m, t, i);
      BitOfOr(masks[t], mask, j);
    }
  }

  lemma DoneMore(accTypes: seq<string>, group: seq<string>, m: nat, t: nat, i: nat)
    requires NoDup(accTypes) && m < |group| && t < |accTypes| && i < |accTypes| && accTypes[t] == group[m]
    ensures accTypes[i] in group[..m + 1] <==> accTypes[i] in group[..m] || i == t
  {
    assert group[..m + 1] == group[..m] + [group[m]];
  }

  lemma RelatedToItself(accTypes: seq<string>, groups: seq<seq<string>>, i: nat, j: nat)
    requires i < |accTypes| && groups == []
    ensures Related(accTypes, groups, i, j) <==> i % 32 == j % 32
  {
    assert Linked(accTypes, groups, i, i);
  }

  lemma RelatedSnoc(accTypes: seq<string>, groups: seq<seq<string>>, k: nat, i: nat, j: nat)
    requires k < |groups| && i < |accTypes|
    ensures Related(accTypes, groups[..k + 1], i, j)
       <==> Related(accTypes, groups[..k], i, j) || (accTypes[i] in groups[k] && Hits(accTypes, groups[k], j))
  {
    forall m | 0 <= m < |accTypes|
      ensures Linked(accTypes, groups[..k + 1], i, m)
         <==> Linked(accTypes, groups[..k], i, m) || (accTypes[i] in groups[k] && accTypes[m] in groups[k])
    {
      ExclusiveSnoc(groups, k, accTypes[i], accTypes[m]);
    }
  }

  lemma GroupMasked(accTypes: seq<string>, groups: seq<seq<string>>, k: nat, masks: seq<bv32>)
    requires k < |groups| && PartlyMasked(accTypes, groups[..k], groups[k], groups[k], masks)
    ensures Masks(accTypes, groups[..k + 1], masks)
  {
    forall i, j: nat | 0 <= i < |masks|
      ensures Bit(masks[i], j) <==> Related(accTypes, groups[..k + 1], i, j)
    {
      RelatedSnoc(accTypes, groups, k, i, j);
    }
  }

  lemma ExclusiveSnoc(groups: seq<seq<string>>, k: nat, x: string, y: string)
    requires k < |groups|
    ensures Exclusive(groups[..k + 1], x, y) <==> Exclusive(groups[..k], x, y) || (x in groups[k] && y in groups[k])
  {
    var more, less := groups[..k + 1], groups[..k];
    assert more[k] == groups[k];
    assert forall j :: 0 <= j < k ==> more[j] == less[j];
  }

  /** The relation the masks describe is reflexive and symmetric. */
  lemma MasksSymmetric(accTypes: seq<string>, groups: seq<seq<string>>, masks: seq<bv32>, i: nat, j: nat)
    requires ExactMasks(accTypes, groups, masks) && i < |masks| && j < |masks|
    ensures Bit(masks[i], i) && (Bit(masks[i], j) <==> Bit(masks[j], i))
  {
  }

  /** Two different types available to the punk type. */
  ghost predicate AvailablePair(accTypes: seq<string>, accs: seq<string>, i: int, j: int) {
    0 <= i < |accTypes| && 0 <= j < |accTypes| && accTypes[i] in accs && accTypes[j] in accs && accTypes[i] != accTypes[j]
  }

  /** Types of one part always exclude each other in the masks; the sampler and the masks agree on all available types
      exactly for groups that do not overlap on them. */
  lemma SamplerAgreesIff(accTypes: seq<string>, groups: seq<seq<string>>, masks: seq<bv32>, accs: seq<string>, parts: seq<seq<string>>)
    requires ExactMasks(accTypes, groups, masks) && Grouped(accs, groups, parts) && forall x :: x in accs ==> x in accTypes
    ensures forall i, j :: AvailablePair(accTypes, accs, i, j) && SharePart(parts, accTypes[i], accTypes[j]) ==> Bit(masks[i], j)
    ensures NoOverlap(accs, groups) <==>
              forall i, j :: AvailablePair(accTypes, accs, i, j) && Bit(masks[i], j) ==> SharePart(parts, accTypes[i], accTypes[j])
  {
    PartsKeepExclusionIff(accs, groups, parts);
    forall i, j | AvailablePair(accTypes, accs, i, j) && SharePart(parts, accTypes[i], accTypes[j]) ensures Bit(masks[i], j) {
      SharePartIff(accs, groups, parts, accTypes[i], accTypes[j]);
    }
    if forall i, j :: AvailablePair(accTypes, accs, i, j) && Bit(masks[i], j) ==> SharePart(parts, accTypes[i], accTypes[j]) {
      forall x, y | x in accs && y in accs && x != y && Exclusive(groups, x, y) ensures SharePart(parts, x, y) {
        var i :| 0 <= i < |accTypes| && accTypes[i] == x;
        var j :| 0 <= j < |accTypes| && accTypes[j] == y;
        assert AvailablePair(accTypes, accs, i, j) && Together(accTypes, groups, i, j);
      }
    }
  }
}
