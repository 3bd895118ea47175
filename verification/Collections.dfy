/** Lists kept as sets, and totals over the values of a map. */
module Collections {

  ghost predicate NoDup(s: seq<string>) {
    forall i, j :: 0 <= i < j < |s| ==> s[i] != s[j]
  }

  /** The list without the members of `gone`, in the same order. */
  function Without(s: seq<string>, gone: set<string>): (r: seq<string>)
    ensures forall n :: n in r <==> n in s && n !in gone
  {
    if s == [] then []
    else
      var init := Without(s[..|s| - 1], gone);
      if s[|s| - 1] in gone then init else init + [s[|s| - 1]]
  }

  lemma {:induction false} WithoutNoDup(s: seq<string>, gone: set<string>)
    requires NoDup(s)
    ensures NoDup(Without(s, gone))
  {
    if s != [] { WithoutNoDup(s[..|s| - 1], gone); }
  }

  lemma {:induction false} WithoutNone(s: seq<string>, gone: set<string>)
    requires forall n :: n in s ==> n !in gone
    ensures Without(s, gone) == s
  {
    if s != [] {
      var init, last := s[..|s| - 1], s[|s| - 1];
      assert s == init + [last];
      WithoutNone(init, gone);
    }
  }

  lemma {:induction false} WithoutOne(s: seq<string>, p: string)
    requires NoDup(s) && p in s
    ensures |Without(s, {p})| == |s| - 1
  {
    var init := s[..|s| - 1];
    if s[|s| - 1] == p {
      WithoutNone(init, {p});
    } else {
      WithoutOne(init, p);
    }
  }

  /** The members that are left stand in the order they had. */
  lemma {:induction false} WithoutKeepsOrder(s: seq<string>, gone: set<string>, i: nat, j: nat) returns (p: nat, q: nat)
    requires i < j < |Without(s, gone)|
    ensures p < q < |s| && s[p] == Without(s, gone)[i] && s[q] == Without(s, gone)[j]
  {
    var init := s[..|s| - 1];
    if j < |Without(init, gone)| {
      p, q := WithoutKeepsOrder(init, gone, i, j);
    } else {
      p := PlaceIn(init, gone, i);
      q := |s| - 1;
    }
  }

  lemma {:induction false} PlaceIn(s: seq<string>, gone: set<string>, i: nat) returns (p: nat)
    requires i < |Without(s, gone)|
    ensures p < |s| && s[p] == Without(s, gone)[i]
  {
    var init := s[..|s| - 1];
    if i < |Without(init, gone)| {
      p := PlaceIn(init, gone, i);
    } else {
      p := |s| - 1;
    }
  }

  lemma PushNoDup(s: seq<string>, p: string)
    ensures NoDup(s + [p]) <==> NoDup(s) && p !in s
  {
    if NoDup(s + [p]) {
      assert forall i :: 0 <= i < |s| ==> (s + [p])[i] == s[i];
      assert (s + [p])[|s|] == p;
    }
  }

  lemma AppendNoDup(s: seq<string>, t: seq<string>)
    requires NoDup(t)
    ensures NoDup(s + t) <==> NoDup(s) && forall p :: p in t ==> p !in s
  {
    var all := s + t;
    assert forall i :: 0 <= i < |t| ==> all[|s| + i] == t[i];
    assert forall i :: 0 <= i < |s| ==> all[i] == s[i];
    if NoDup(all) {
      forall p | p in t ensures p !in s {
        var j :| 0 <= j < |t| && t[j] == p;
        assert all[|s| + j] == p;
      }
    } else if NoDup(s) {
      var i, j :| 0 <= i < j < |all| && all[i] == all[j];
      assert i < |s| <= j;
      assert t[j - |s|] in s;
    }
  }

  /** `keys` lists the domain of `m` without repetition: the insertion order of a JavaScript map. */
  ghost predicate KeysInOrder<V>(keys: seq<string>, m: map<string, V>) {
    && NoDup(keys)
    && (forall i :: 0 <= i < |keys| ==> keys[i] in m)
    && (forall k :: k in m ==> k in keys)
  }

  function AddKey<V>(keys: seq<string>, m: map<string, V>, k: string): seq<string> {
    if k in m then keys else keys + [k]
  }

  lemma AddKeyInOrder<V>(keys: seq<string>, m: map<string, V>, k: string, v: V)
    requires KeysInOrder(keys, m)
    ensures KeysInOrder(AddKey(keys, m, k), m[k := v])
  {
    var keys' := AddKey(keys, m, k);
    assert k !in m ==> keys'[|keys|] == k;
    forall c | c in m[k := v] ensures c in keys' {
      assert c == k || c in keys;
    }
  }

  // ---------- totals ----------

  ghost function Total<K(!new)>(m: map<K, int>): int {
    if m == map[] then 0
    else
      var k :| k in m;
      m[k] + Total(m - {k})
  }

  lemma {:induction false} TotalRemove<K(!new)>(m: map<K, int>, k: K)
    requires k in m
    ensures Total(m) == m[k] + Total(m - {k})
    decreases |m|
  {
    var c :| c in m && Total(m) == m[c] + Total(m - {c});
    if c != k {
      TotalRemove(m - {c}, k);
      TotalRemove(m - {k}, c);
      assert m - {c} - {k} == m - {k} - {c};
    }
  }

  lemma TotalUpdate<K(!new)>(m: map<K, int>, k: K, v: int)
    ensures Total(m[k := v]) == Total(m) - (if k in m then m[k] else 0) + v
  {
    TotalRemove(m[k := v], k);
    assert m[k := v] - {k} == m - {k};
    if k in m {
      TotalRemove(m, k);
    } else {
      assert m - {k} == m;
    }
  }

  ghost function Positive<K(!new)>(m: map<K, int>): set<K> {
    set k | k in m && m[k] > 0
  }

  lemma PositiveUpdate<K(!new)>(m: map<K, int>, k: K, v: int)
    ensures |Positive(m[k := v])| == |Positive(m)| - (if k in m && m[k] > 0 then 1 else 0) + (if v > 0 then 1 else 0)
  {
    var rest := Positive(m) - {k};
    assert Positive(m) == if k in m && m[k] > 0 then rest + {k} else rest;
    assert Positive(m[k := v]) == if v > 0 then rest + {k} else rest;
  }
}
