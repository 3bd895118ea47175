/** `punks-assets/src/utils.ts`: `groupByExclusive`, which splits the available accessory types into parts. */
module Grouping {
  import opened Collections

  /** The first position of the item, or -1. */
  function IndexOf(list: seq<string>, item: string): (r: int)
    ensures -1 <= r < |list|
    ensures r == -1 <==> item !in list
    ensures r >= 0 ==> list[r] == item && forall j :: 0 <= j < r ==> list[j] != item
  {
    if list == [] then -1
    else
      var r := IndexOf(list[..|list| - 1], item);
      if r >= 0 then r else if list[|list| - 1] == item then |list| - 1 else -1
  }

  function Flatten(parts: seq<seq<string>>): seq<string> {
    if parts == [] then [] else Flatten(parts[..|parts| - 1]) + parts[|parts| - 1]
  }

  /** The first exclusive group that lists `x`, or the number of groups. */
  function First(groups: seq<seq<string>>, x: string): (r: nat)
    ensures r <= |groups|
    ensures r < |groups| ==> x in groups[r]
    ensures forall j :: 0 <= j < r ==> x !in groups[j]
  {
    if groups == [] then 0
    else
      var r := First(groups[..|groups| - 1], x);
      if r < |groups| - 1 then r else if x in groups[|groups| - 1] then |groups| - 1 else |groups|
  }

  /** Part i holds the available members of group i that no earlier group lists; the rest stand alone. */
  ghost predicate Grouped(accs: seq<string>, groups: seq<seq<string>>, parts: seq<seq<string>>) {
    && |groups| <= |parts|
    && (forall i, x :: 0 <= i < |groups| ==> (x in parts[i] <==> x in accs && First(groups, x) == i))
    && (forall i :: |groups| <= i < |parts| ==> |parts[i]| == 1 && parts[i][0] in accs && First(groups, parts[i][0]) == |groups|)
    && (forall i, j :: |groups| <= i < j < |parts| ==> parts[i] != parts[j])
  }

  lemma RemoveAt(s: seq<string>, i: nat)
    requires i < |s|
    ensures multiset(s[..i] + s[i + 1..]) + multiset{s[i]} == multiset(s)
    ensures NoDup(s) ==> NoDup(s[..i] + s[i + 1..]) && forall x :: x in s[..i] + s[i + 1..] <==> x in s && x != s[i]
  {
    var r := s[..i] + s[i + 1..];
    assert s == s[..i] + [s[i]] + s[i + 1..];
    if NoDup(s) {
      forall x | x in s && x != s[i] ensures x in r {
        var k :| 0 <= k < |s| && s[k] == x;
        assert k < i ==> r[k] == x;
        assert k > i ==> r[k - 1] == x;
      }
    }
  }

  /** The members of `exc` that are still in `accs`, and what is left of `accs` without them. */
  function Take(accs: seq<string>, exc: seq<string>): (seq<string>, seq<string>) {
    if exc == [] then ([], accs)
    else
      var (group, rest) := Take(accs, exc[..|exc| - 1]);
      var item := exc[|exc| - 1];
      var idx := IndexOf(rest, item);
      if idx < 0 then (group, rest) else (group + [item], rest[..idx] + rest[idx + 1..])
  }

  /** The `reduce` over one exclusive group, splicing each member found out of the list. */
  method TakeGroup(accs: seq<string>, exc: seq<string>) returns (group: seq<string>, rest: seq<string>)
    ensures (group, rest) == Take(accs, exc)
    ensures Taken(accs, exc, group, rest)
  {
    group, rest := [], accs;
    for k := 0 to |exc|
      invariant (group, rest) == Take(accs, exc[..k])
    {
      assert exc[..k + 1][..k] == exc[..k];
      var idx := IndexOf(rest, exc[k]);
      if idx >= 0 {
        rest := rest[..idx] + rest[idx + 1..];
        group := group + [exc[k]];
      }
    }
    assert exc[..|exc|] == exc;
    TakeIsTaken(accs, exc);
  }

  lemma {:induction false} TakeIsTaken(accs: seq<string>, exc: seq<string>)
    ensures Taken(accs, exc, Take(accs, exc).0, Take(accs, exc).1)
  {
    if exc != [] {
      var init, item := exc[..|exc| - 1], exc[|exc| - 1];
      TakeIsTaken(accs, init);
      assert exc == init + [item];
      var (group, rest) := Take(accs, init);
      var idx := IndexOf(rest, item);
      if idx < 0 { SkipItem(accs, init, group, rest, item); } else { TakeItem(accs, init, group, rest, idx); }
    }
  }

  ghost predicate Taken(accs: seq<string>, exc: seq<string>, group: seq<string>, rest: seq<string>) {
    && multiset(group) + multiset(rest) == multiset(accs)
    && (NoDup(accs) ==> NoDup(rest))
    && (NoDup(accs) ==> forall x :: (x in group <==> x in accs && x in exc) && (x in rest <==> x in accs && x !in exc))
  }

  lemma TakeItem(accs: seq<string>, exc: seq<string>, group: seq<string>, rest: seq<string>, idx: nat)
    requires Taken(accs, exc, group, rest) && idx < |rest|
    ensures Taken(accs, exc + [rest[idx]], group + [rest[idx]], rest[..idx] + rest[idx + 1..])
  {
    RemoveAt(rest, idx);
    var item := rest[idx];
    assert multiset(group + [item]) == multiset(group) + multiset{item};
    if NoDup(accs) {
      assert forall x :: x in group + [item] <==> x in group || x == item;
      assert forall x :: x in exc + [item] <==> x in exc || x == item;
    }
  }

  lemma SkipItem(accs: seq<string>, exc: seq<string>, group: seq<string>, rest: seq<string>, item: string)
    requires Taken(accs, exc, group, rest) && item !in rest
    ensures Taken(accs, exc + [item], group, rest)
  {
    assert forall x :: x in exc + [item] <==> x in exc || x == item;
  }

  /** The parts of the first `k` groups, and what they leave. */
  ghost predicate GroupedSoFar(accs: seq<string>, groups: seq<seq<string>>, parts: seq<seq<string>>, rest: seq<string>, k: nat) {
    && |parts| == k <= |groups| && NoDup(rest)
    && (forall x :: x in rest <==> x in accs && First(groups, x) >= k)
    && (forall i, x :: 0 <= i < k ==> (x in parts[i] <==> x in accs && First(groups, x) == i))
  }

  lemma NextGroup(accs: seq<string>, groups: seq<seq<string>>, parts: seq<seq<string>>, rest: seq<string>, k: nat,
                  group: seq<string>, rest': seq<string>)
    requires GroupedSoFar(accs, groups, parts, rest, k) && k < |groups| && NoDup(rest')
    requires forall x :: (x in group <==> x in rest && x in groups[k]) && (x in rest' <==> x in rest && x !in groups[k])
    ensures GroupedSoFar(accs, groups, parts + [group], rest', k + 1)
  {
    forall x ensures x in groups[k] ==> First(groups, x) <= k {}
    forall x ensures x in rest' <==> x in accs && First(groups, x) >= k + 1 {}
    forall x ensures x in group <==> x in accs && First(groups, x) == k {}
  }

  /** The parts of the exclusive groups, and what they leave. */
  function Split(accs: seq<string>, groups: seq<seq<string>>): (seq<seq<string>>, seq<string>) {
    if groups == [] then ([], accs)
    else
      var (parts, rest) := Split(accs, groups[..|groups| - 1]);
      var (group, rest') := Take(rest, groups[|groups| - 1]);
      (parts + [group], rest')
  }

  lemma NextSplit(accs: seq<string>, groups: seq<seq<string>>, k: nat, parts: seq<seq<string>>, rest: seq<string>)
    requires k < |groups| && (parts, rest) == Split(accs, groups[..k])
    ensures Split(accs, groups[..k + 1]) == (parts + [Take(rest, groups[k]).0], Take(rest, groups[k]).1)
  {
    assert groups[..k + 1][..k] == groups[..k];
  }

  lemma FlattenMore(parts: seq<seq<string>>, group: seq<string>)
    ensures Flatten(parts + [group]) == Flatten(parts) + group
  {
    assert (parts + [group])[..|parts|] == parts;
  }

  lemma {:induction false} SplitIsGrouped(accs: seq<string>, groups: seq<seq<string>>, k: nat)
    requires k <= |groups|
    ensures var (parts, rest) := Split(accs, groups[..k]);
            && |parts| == k && multiset(Flatten(parts)) + multiset(rest) == multiset(accs)
            && (NoDup(accs) ==> GroupedSoFar(accs, groups, parts, rest, k))
  {
    if k > 0 {
      SplitIsGrouped(accs, groups, k - 1);
      var (parts, rest) := Split(accs, groups[..k - 1]);
      var (group, rest') := Take(rest, groups[k - 1]);
      NextSplit(accs, groups, k - 1, parts, rest);
      TakeIsTaken(rest, groups[k - 1]);
      if NoDup(accs) {
        NextGroup(accs, groups, parts, rest, k - 1, group, rest');
      }
      FlattenMore(parts, group);
    }
  }

  function Singles(items: seq<string>): (r: seq<seq<string>>)
    ensures |r| == |items| && forall i :: 0 <= i < |r| ==> r[i] == [items[i]]
  {
    seq(|items|, i requires 0 <= i < |items| => [items[i]])
  }

  lemma {:induction false} FlattenSingles(parts: seq<seq<string>>, items: seq<string>)
    ensures Flatten(parts + Singles(items)) == Flatten(parts) + items
  {
    if items == [] {
      assert parts + Singles(items) == parts;
    } else {
      var n := |items| - 1;
      FlattenSingles(parts, items[..n]);
      assert (parts + Singles(items))[..|parts| + n] == parts + Singles(items[..n]);
    }
  }

  function Parts(accs: seq<string>, groups: seq<seq<string>>): seq<seq<string>> {
    Split(accs, groups).0 + Singles(Split(accs, groups).1)
  }

  /** Every available type stands in the parts once, with its first exclusive group or alone. */
  ghost predicate Partition(accs: seq<string>, groups: seq<seq<string>>, parts: seq<seq<string>>) {
    multiset(Flatten(parts)) == multiset(accs) && Grouped(accs, groups, parts)
  }

  lemma PartsArePartition(accs: seq<string>, groups: seq<seq<string>>)
    ensures multiset(Flatten(Parts(accs, groups))) == multiset(accs)
    ensures NoDup(accs) ==> Partition(accs, groups, Parts(accs, groups))
  {
    var (parts, rest) := Split(accs, groups);
    assert groups[..|groups|] == groups;
    SplitIsGrouped(accs, groups, |groups|);
    FlattenSingles(parts, rest);
    if NoDup(accs) {
      RestStandsAlone(accs, groups, parts, rest);
    }
  }

  /** The result is a partition of the available types into parts. */
  method GroupByExclusive(accs: seq<string>, groups: seq<seq<string>>) returns (parts: seq<seq<string>>)
    ensures parts == Parts(accs, groups)
    ensures multiset(Flatten(parts)) == multiset(accs)
    ensures NoDup(accs) ==> Partition(accs, groups, parts)
  {
    var rest := accs;
    var res := [];
    for k := 0 to |groups|
      invariant (res, rest) == Split(accs, groups[..k])
    {
      assert groups[..k + 1][..k] == groups[..k];
      var group, left := TakeGroup(rest, groups[k]);
      res, rest := res + [group], left;
    }
    assert groups[..|groups|] == groups;
    parts := res + Singles(rest);
    PartsArePartition(accs, groups);
  }

  lemma RestStandsAlone(accs: seq<string>, groups: seq<seq<string>>, res: seq<seq<string>>, rest: seq<string>)
    requires GroupedSoFar(accs, groups, res, rest, |groups|)
    ensures Grouped(accs, groups, res + Singles(rest))
  {
    var parts := res + Singles(rest);
    forall i | |groups| <= i < |parts|
      ensures |parts[i]| == 1 && parts[i][0] in accs && First(groups, parts[i][0]) == |groups|
    {
      assert parts[i] == [rest[i - |groups|]];
      assert rest[i - |groups|] in rest;
    }
    forall i, j | |groups| <= i < j < |parts| ensures parts[i] != parts[j] {
      assert parts[i][0] == rest[i - |groups|] && parts[j][0] == rest[j - |groups|];
    }
    forall i, x | 0 <= i < |groups| ensures x in parts[i] <==> x in accs && First(groups, x) == i {
      assert parts[i] == res[i];
    }
  }

  // ---------- the order within the parts ----------

  /** The items stand in the order in which `list` names them first. */
  ghost predicate OrderOf(items: seq<string>, list: seq<string>) {
    forall p, q :: 0 <= p < q < |items| ==> IndexOf(list, items[p]) < IndexOf(list, items[q])
  }

  lemma IndexInPrefix(list: seq<string>, item: string, x: string)
    ensures IndexOf(list + [item], x) == if x in list then IndexOf(list, x) else if x == item then |list| else -1
  {
    assert (list + [item])[..|list|] == list;
  }

  lemma OrderMore(items: seq<string>, list: seq<string>, item: string)
    requires OrderOf(items, list) && item !in list && forall x :: x in items ==> x in list
    ensures OrderOf(items + [item], list + [item])
  {
    forall p | 0 <= p < |items| ensures IndexOf(list + [item], items[p]) == IndexOf(list, items[p]) < |list| {
      assert items[p] in items;
      IndexInPrefix(list, item, items[p]);
    }
    IndexInPrefix(list, item, item);
  }

  lemma OrderSame(items: seq<string>, list: seq<string>, item: string)
    requires OrderOf(items, list) && forall x :: x in items ==> x in list
    ensures OrderOf(items, list + [item])
  {
    forall p | 0 <= p < |items| ensures IndexOf(list + [item], items[p]) == IndexOf(list, items[p]) {
      assert items[p] in items;
      IndexInPrefix(list, item, items[p]);
    }
  }

  lemma OrderLess(items: seq<string>, list: seq<string>, i: nat)
    requires OrderOf(items, list) && i < |items|
    ensures OrderOf(items[..i] + items[i + 1..], list)
  {
  }

  lemma ItemInOrder(accs: seq<string>, exc: seq<string>, group: seq<string>, rest: seq<string>, item: string, list: seq<string>)
    requires NoDup(accs) && Taken(accs, exc, group, rest) && OrderOf(group, exc) && OrderOf(rest, list)
    ensures var idx := IndexOf(rest, item);
            if idx < 0 then OrderOf(group, exc + [item])
            else OrderOf(group + [item], exc + [item]) && OrderOf(rest[..idx] + rest[idx + 1..], list)
  {
    var idx := IndexOf(rest, item);
    if idx < 0 {
      OrderSame(group, exc, item);
    } else {
      OrderMore(group, exc, item);
      OrderLess(rest, list, idx);
    }
  }

  lemma {:induction false} TakeInOrder(accs: seq<string>, exc: seq<string>, list: seq<string>)
    requires NoDup(accs) && OrderOf(accs, list)
    ensures OrderOf(Take(accs, exc).0, exc) && OrderOf(Take(accs, exc).1, list)
  {
    if exc != [] {
      var init, item := exc[..|exc| - 1], exc[|exc| - 1];
      TakeInOrder(accs, init, list);
      TakeIsTaken(accs, init);
      assert exc == init + [item];
      var (group, rest) := Take(accs, init);
      ItemInOrder(accs, init, group, rest, item, list);
    }
  }

  lemma {:induction false} OwnOrder(list: seq<string>)
    requires NoDup(list)
    ensures OrderOf(list, list)
  {
    if list != [] {
      var n := |list| - 1;
      OwnOrder(list[..n]);
      OrderMore(list[..n], list[..n], list[n]);
      assert list[..n] + [list[n]] == list;
    }
  }

  lemma RestNoDup(accs: seq<string>, groups: seq<seq<string>>, k: nat)
    requires NoDup(accs) && k <= |groups|
    ensures NoDup(Split(accs, groups[..k]).1)
  {
    SplitIsGrouped(accs, groups, k);
  }

  ghost predicate InOrder(parts: seq<seq<string>>, groups: seq<seq<string>>, k: nat) {
    |parts| == k <= |groups| && forall i :: 0 <= i < k ==> OrderOf(parts[i], groups[i])
  }

  lemma InOrderMore(parts: seq<seq<string>>, groups: seq<seq<string>>, k: nat, group: seq<string>)
    requires InOrder(parts, groups, k) && k < |groups| && OrderOf(group, groups[k])
    ensures InOrder(parts + [group], groups, k + 1)
  {
  }

  lemma {:induction false} SplitInOrder(accs: seq<string>, groups: seq<seq<string>>, k: nat)
    requires NoDup(accs) && k <= |groups|
    ensures InOrder(Split(accs, groups[..k]).0, groups, k) && OrderOf(Split(accs, groups[..k]).1, accs)
  {
    if k == 0 {
      OwnOrder(accs);
    } else {
      SplitInOrder(accs, groups, k - 1);
      RestNoDup(accs, groups, k - 1);
      var (parts, rest) := Split(accs, groups[..k - 1]);
      NextSplit(accs, groups, k - 1, parts, rest);
      TakeInOrder(rest, groups[k - 1], accs);
      InOrderMore(parts, groups, k - 1, Take(rest, groups[k - 1]).0);
    }
  }

  /** The members of a part stand in the order of their group, the single ones in the order of the available types. */
  lemma PartsInOrder(accs: seq<string>, groups: seq<seq<string>>)
    requires NoDup(accs)
    ensures var parts, n := Parts(accs, groups), |groups|;
            && |parts| >= n && (forall i :: 0 <= i < n ==> OrderOf(parts[i], groups[i]))
            && forall i, j :: n <= i < j < |parts| ==>
                 |parts[i]| == |parts[j]| == 1 && IndexOf(accs, parts[i][0]) < IndexOf(accs, parts[j][0])
  {
    SplitInOrder(accs, groups, |groups|);
    assert groups[..|groups|] == groups;
  }

  // ---------- which exclusive pairs the parts keep together ----------

  ghost predicate SharePart(parts: seq<seq<string>>, x: string, y: string) {
    exists i :: 0 <= i < |parts| && x in parts[i] && y in parts[i]
  }

  ghost predicate Exclusive(groups: seq<seq<string>>, x: string, y: string) {
    exists j :: 0 <= j < |groups| && x in groups[j] && y in groups[j]
  }

  lemma InPart(accs: seq<string>, groups: seq<seq<string>>, parts: seq<seq<string>>, i: nat, x: string)
    requires Grouped(accs, groups, parts) && i < |parts| && x in parts[i]
    ensures x in accs && if i < |groups| then First(groups, x) == i else First(groups, x) == |groups| && parts[i] == [x]
  {
    if i >= |groups| {
      assert parts[i] == [parts[i][0]];
    }
  }

  /** Two different available types share a part exactly if they have the same first exclusive group. */
  lemma SharePartIff(accs: seq<string>, groups: seq<seq<string>>, parts: seq<seq<string>>, x: string, y: string)
    requires Grouped(accs, groups, parts) && x in accs && y in accs && x != y
    ensures SharePart(parts, x, y) <==> First(groups, x) == First(groups, y) < |groups|
    ensures SharePart(parts, x, y) ==> Exclusive(groups, x, y)
  {
    var k := First(groups, x);
    if k == First(groups, y) && k < |groups| {
      assert x in parts[k] && y in parts[k];
    }
    if SharePart(parts, x, y) {
      var i :| 0 <= i < |parts| && x in parts[i] && y in parts[i];
      InPart(accs, groups, parts, i, x);
      InPart(accs, groups, parts, i, y);
      assert x in groups[i] && y in groups[i];
    }
  }

  /** The available members of each exclusive group all appear first in one and the same group. */
  ghost predicate NoOverlap(accs: seq<string>, groups: seq<seq<string>>) {
    forall j, x, y :: 0 <= j < |groups| && x in groups[j] && y in groups[j] && x in accs && y in accs ==>
      First(groups, x) == First(groups, y)
  }

  /** The parts keep every exclusive pair of available types together exactly for groups that do not overlap on them. */
  lemma PartsKeepExclusionIff(accs: seq<string>, groups: seq<seq<string>>, parts: seq<seq<string>>)
    requires Grouped(accs, groups, parts)
    ensures NoOverlap(accs, groups) <==>
              forall x, y :: x in accs && y in accs && x != y && Exclusive(groups, x, y) ==> SharePart(parts, x, y)
  {
    if NoOverlap(accs, groups) {
      forall x, y | x in accs && y in accs && x != y && Exclusive(groups, x, y) ensures SharePart(parts, x, y) {
        var j :| 0 <= j < |groups| && x in groups[j] && y in groups[j];
        assert First(groups, x) == First(groups, y) <= j;
        SharePartIff(accs, groups, parts, x, y);
      }
    }
    if forall x, y :: x in accs && y in accs && x != y && Exclusive(groups, x, y) ==> SharePart(parts, x, y) {
      forall j, x, y | 0 <= j < |groups| && x in groups[j] && y in groups[j] && x in accs && y in accs
        ensures First(groups, x) == First(groups, y)
      {
        if x != y {
          assert Exclusive(groups, x, y);
          SharePartIff(accs, groups, parts, x, y);
        }
      }
    }
  }

  /** Groups that are disjoint never overlap. */
  lemma DisjointGroupsDoNotOverlap(accs: seq<string>, groups: seq<seq<string>>)
    requires forall i, j, x :: 0 <= i < j < |groups| && x in groups[i] ==> x !in groups[j]
    ensures NoOverlap(accs, groups)
  {
    forall j, x, y | 0 <= j < |groups| && x in groups[j] && y in groups[j] ensures First(groups, x) == First(groups, y) {
      assert First(groups, x) == j;
    }
  }

  /** A type stands in one part only. */
  lemma OnePart(accs: seq<string>, groups: seq<seq<string>>, parts: seq<seq<string>>, i: nat, j: nat, x: string)
    requires Grouped(accs, groups, parts) && i < |parts| && j < |parts| && x in parts[i] && x in parts[j]
    ensures i == j
  {
    InPart(accs, groups, parts, i, x);
    InPart(accs, groups, parts, j, x);
  }

  lemma PartOf(accs: seq<string>, groups: seq<seq<string>>, parts: seq<seq<string>>, x: string) returns (p: nat)
    requires Grouped(accs, groups, parts) && multiset(Flatten(parts)) == multiset(accs) && x in accs
    ensures p < |parts| && x in parts[p]
  {
    assert x in multiset(Flatten(parts));
    p := FlattenedIn(parts, x);
  }

  lemma {:induction false} FlattenedIn(parts: seq<seq<string>>, x: string) returns (p: nat)
    requires x in Flatten(parts)
    ensures p < |parts| && x in parts[p]
  {
    var n := |parts| - 1;
    if x in parts[n] {
      p := n;
    } else {
      p := FlattenedIn(parts[..n], x);
    }
  }

  // ---------- the shipped configuration ----------

  const EXCLUSIVE_GROUPS := [["hair", "hat", "helmet"], ["helmet", "glasses", "eyes", "goggles"], ["hat", "goggles"],
                             ["lips", "emotion", "teeth"], ["face", "cheeks"]]

  const MALE := ["hair", "hat", "glasses", "eyes", "mouth", "neck", "ears", "beard", "teeth", "emotion", "face", "cheeks", "nose"]

  const FEMALE := ["hair", "hat", "helmet", "glasses", "goggles", "eyes", "mouth", "neck", "ears", "lips", "face", "cheeks", "nose"]

  lemma ShippedFirsts()
    ensures First(EXCLUSIVE_GROUPS, "hat") == 0 && First(EXCLUSIVE_GROUPS, "goggles") == 1
  {
    var g := EXCLUSIVE_GROUPS;
    assert "hat" in g[0] && "goggles" !in g[0] && "goggles" in g[1];
  }

  /** For female punks the shipped groups overlap: a hat and goggles exclude each other but stand in different parts. */
  lemma FemaleGroupsOverlap(parts: seq<seq<string>>)
    requires Grouped(FEMALE, EXCLUSIVE_GROUPS, parts)
    ensures !NoOverlap(FEMALE, EXCLUSIVE_GROUPS)
    ensures Exclusive(EXCLUSIVE_GROUPS, "hat", "goggles") && !SharePart(parts, "hat", "goggles")
  {
    ShippedFirsts();
    var g := EXCLUSIVE_GROUPS;
    assert FEMALE[1] == "hat" && FEMALE[4] == "goggles";
    assert g[2][0] == "hat" && g[2][1] == "goggles";
    assert "hat" in g[2] && "goggles" in g[2];
    SharePartIff(FEMALE, EXCLUSIVE_GROUPS, parts, "hat", "goggles");
  }

  lemma MaleFirst(j: nat, x: string)
    requires j < |EXCLUSIVE_GROUPS| && x in EXCLUSIVE_GROUPS[j] && x in MALE
    ensures First(EXCLUSIVE_GROUPS, x) == if j == 2 then 0 else j
  {
    var g := EXCLUSIVE_GROUPS;
    if j == 1 {
      assert x in {"helmet", "glasses", "eyes", "goggles"} && "helmet" !in MALE;
    } else if j == 2 {
      assert x in {"hat", "goggles"} && "goggles" !in MALE;
      assert "hat" in g[0];
    } else if j == 3 {
      assert x in {"lips", "emotion", "teeth"};
    } else if j == 4 {
      assert x in {"face", "cheeks"};
    }
  }

  /** For male punks they do not. */
  lemma MaleGroupsDoNotOverlap()
    ensures NoOverlap(MALE, EXCLUSIVE_GROUPS)
  {
    forall j, x, y | 0 <= j < |EXCLUSIVE_GROUPS| && x in EXCLUSIVE_GROUPS[j] && y in EXCLUSIVE_GROUPS[j] && x in MALE && y in MALE
      ensures First(EXCLUSIVE_GROUPS, x) == First(EXCLUSIVE_GROUPS, y)
    {
      MaleFirst(j, x);
      MaleFirst(j, y);
    }
  }
}
