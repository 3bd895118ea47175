/** The CryptoPunks index against two plain ledgers: the CryptoPunks contract's and the wrapper's. */
module OgPunksIndex {
  import opened Collections
  import opened Options
  import opened NErc721
  import opened OgPunks

  /** Who the CryptoPunks contract says owns each punk, and who the wrapper says owns each wrapped one. */
  datatype Ledger = Ledger(raw: map<string, string>, wrapper: map<string, string>) {
    function Owner(i: string): string
      requires i in raw
    {
      if i in wrapper then wrapper[i] else raw[i]
    }
  }

  datatype OGEvent =
    | Assign(to: string, punk: string)
    | PunkTransfer(from: string, to: string, punk: string)
    | WrappedTransfer(from: string, to: string, punk: string)
    | OGDelegateChanged(delegator: string, fromDelegate: string, toDelegate: string, punk: string)

  /** What the two contracts guarantee of their events; `wrapper` is the wrapper contract's address. */
  ghost predicate EventHappens(l: Ledger, wrapper: string, e: OGEvent) {
    match e
    case Assign(to, i) => i !in l.wrapper
    case PunkTransfer(from, to, i) => i in l.raw && l.raw[i] == from && i !in l.wrapper
    case WrappedTransfer(from, to, i) =>
      if from == ZERO_ADDRESS then to != ZERO_ADDRESS && i in l.raw && l.raw[i] == wrapper && i !in l.wrapper
      else i in l.wrapper && l.wrapper[i] == from
    case OGDelegateChanged(_, _, _, i) => i in l.raw
  }

  function LedgerStep(l: Ledger, e: OGEvent): Ledger {
    match e
    case Assign(to, i) => l.(raw := l.raw[i := to])
    case PunkTransfer(from, to, i) => l.(raw := l.raw[i := to])
    case WrappedTransfer(from, to, i) =>
      if to == ZERO_ADDRESS then l.(wrapper := l.wrapper - {i}) else l.(wrapper := l.wrapper[i := to])
    case OGDelegateChanged(_, _, _, _) => l
  }

  function IndexStep(s: OGState, wrapper: string, e: OGEvent): OGState
    requires e.Assign? || e.punk in s.ogpunks
  {
    match e
    case Assign(to, i) => AssignState(s, to, i)
    case PunkTransfer(from, to, i) => PunkTransferState(s, from, to, i)
    case WrappedTransfer(from, to, i) => WrappedTransferState(s, wrapper, from, to, i)
    case OGDelegateChanged(delegator, from, to, i) => OGDelegateState(s, delegator, from, to, i)
  }

  ghost function OGBalances(s: OGState): map<string, int> {
    map id | id in s.holders :: s.holders[id].ogpunkBalanceRaw
  }

  /** Stored owners and wrapped flags are those of the ledgers; a wrapped punk is held by the wrapper contract. */
  ghost predicate OwnersAgree(s: OGState, l: Ledger, wrapper: string) {
    && s.ogpunks.Keys == l.raw.Keys && l.wrapper.Keys <= l.raw.Keys
    && (forall i :: i in l.raw ==> s.ogpunks[i].owner == l.Owner(i) && (s.ogpunks[i].wrapped <==> i in l.wrapper))
    && (forall i :: i in l.wrapper ==> l.raw[i] == wrapper)
  }

  /** Each account lists, once each, exactly the punks it owns; balances are list lengths and add up to all punks. */
  ghost predicate HoldingsAgree(s: OGState, l: Ledger)
    requires l.wrapper.Keys <= l.raw.Keys
  {
    && (forall id :: NoDup(s.HolderOf(id).ogpunks) && s.HolderOf(id).ogpunkBalanceRaw == |s.HolderOf(id).ogpunks|)
    && (forall id, i :: i in s.HolderOf(id).ogpunks <==> i in l.raw && l.Owner(i) == id)
    && Total(OGBalances(s)) == |l.raw|
  }

  /** Each delegate lists, once each, exactly the punks delegated to it. */
  ghost predicate DelegationsAgree(s: OGState) {
    && (forall d :: NoDup(s.RepresentedBy(d)))
    && (forall d, i :: i in s.RepresentedBy(d) <==> i in s.ogpunks && s.ogpunks[i].delegate == Some(d))
  }

  ghost predicate Agrees(s: OGState, l: Ledger, wrapper: string) {
    OwnersAgree(s, l, wrapper) && HoldingsAgree(s, l) && DelegationsAgree(s)
  }

  /** What each kind of event must satisfy besides: a fresh assignment, two parties, a current delegation to change. */
  ghost predicate OGGuard(s: OGState, l: Ledger, e: OGEvent) {
    match e
    case Assign(_, i) => i !in l.raw
    case PunkTransfer(from, to, _) => from != to
    case WrappedTransfer(_, _, _) => true
    case OGDelegateChanged(_, from, to, i) =>
      i in s.ogpunks && (s.ogpunks[i].delegate == None || (s.ogpunks[i].delegate == Some(from) && from != to))
  }

  // ---------- a punk moves from one account to another ----------

  /** `s'` has the accounts of `s` after `from` lost punk i and then `to` gained it. */
  ghost predicate Moved(s: OGState, s': OGState, from: string, to: string, i: string) {
    && from in s'.holders && to in s'.holders
    && s'.holders == s.holders[from := Lose(s.HolderOf(from), i)][to := s'.holders[to]]
    && s'.holders[to] == Gain(if from == to then Lose(s.HolderOf(from), i) else s.HolderOf(to), i)
  }

  lemma MovedHolding(s: OGState, s': OGState, from: string, to: string, i: string, id: string)
    requires Moved(s, s', from, to, i) && NoDup(s.HolderOf(id).ogpunks) && i in s.HolderOf(from).ogpunks
    requires id != from ==> i !in s.HolderOf(id).ogpunks
    requires s.HolderOf(id).ogpunkBalanceRaw == |s.HolderOf(id).ogpunks|
    ensures var list := s'.HolderOf(id).ogpunks;
            && NoDup(list) && s'.HolderOf(id).ogpunkBalanceRaw == |list|
            && forall q :: q in list <==> if q == i then id == to else q in s.HolderOf(id).ogpunks
  {
    var list := s.HolderOf(id).ogpunks;
    WithoutNoDup(list, {i});
    PushNoDup(list, i);
    PushNoDup(Without(list, {i}), i);
    if id == from { WithoutOne(list, i); }
  }

  lemma MovedTotal(s: OGState, s': OGState, from: string, to: string, i: string)
    requires Moved(s, s', from, to, i)
    ensures Total(OGBalances(s')) == Total(OGBalances(s))
  {
    var m := OGBalances(s);
    var lost := s.HolderOf(from).ogpunkBalanceRaw - 1;
    var gained := s'.holders[to].ogpunkBalanceRaw;
    assert OGBalances(s') == m[from := lost][to := gained];
    TotalUpdate(m, from, lost);
    TotalUpdate(m[from := lost], to, gained);
  }

  /** A move of punk i from its owner keeps every holding in step with a ledger that moved the same punk. */
  lemma MoveAgrees(s: OGState, l: Ledger, s': OGState, l': Ledger, from: string, to: string, i: string)
    requires l.wrapper.Keys <= l.raw.Keys && l'.wrapper.Keys <= l'.raw.Keys && HoldingsAgree(s, l)
    requires Moved(s, s', from, to, i) && i in l.raw && l.Owner(i) == from && l'.raw.Keys == l.raw.Keys
    requires l'.Owner(i) == to && forall q :: q in l.raw && q != i ==> l'.Owner(q) == l.Owner(q)
    ensures HoldingsAgree(s', l')
  {
    forall id
      ensures NoDup(s'.HolderOf(id).ogpunks) && s'.HolderOf(id).ogpunkBalanceRaw == |s'.HolderOf(id).ogpunks|
      ensures forall q :: q in s'.HolderOf(id).ogpunks <==> q in l'.raw && l'.Owner(q) == id
    {
      MovedHolding(s, s', from, to, i, id);
    }
    MovedTotal(s, s', from, to, i);
    assert |l'.raw| == |l'.raw.Keys| == |l.raw.Keys| == |l.raw|;
  }

  lemma SameDelegations(s: OGState, s': OGState)
    requires DelegationsAgree(s) && s'.represented == s.represented && s'.ogpunks.Keys == s.ogpunks.Keys
    requires forall i :: i in s.ogpunks ==> s'.ogpunks[i].delegate == s.ogpunks[i].delegate
    ensures DelegationsAgree(s')
  {
    forall d
      ensures NoDup(s'.RepresentedBy(d))
      ensures forall i :: i in s'.RepresentedBy(d) <==> i in s'.ogpunks && s'.ogpunks[i].delegate == Some(d)
    {
      assert s'.RepresentedBy(d) == s.RepresentedBy(d);
    }
  }

  // ---------- event by event ----------

  lemma WrappedMoves(s: OGState, wrapper: string, from: string, to: string, i: string)
    requires i in s.ogpunks
    ensures var s' := WrappedTransferState(s, wrapper, from, to, i);
            && Moved(s, s', if from == ZERO_ADDRESS then wrapper else from, if to == ZERO_ADDRESS then wrapper else to, i)
            && s'.represented == s.represented
            && s'.ogpunks == s.ogpunks[i := OGPunk(if to == ZERO_ADDRESS then wrapper else to,
                                                   to != ZERO_ADDRESS && (from == ZERO_ADDRESS || s.ogpunks[i].wrapped),
                                                   s.ogpunks[i].delegate)]
  {
  }

  lemma WrappedLedger(l: Ledger, wrapper: string, from: string, to: string, i: string)
    requires l.wrapper.Keys <= l.raw.Keys && (forall q :: q in l.wrapper ==> l.raw[q] == wrapper)
    requires EventHappens(l, wrapper, WrappedTransfer(from, to, i))
    ensures var l' := LedgerStep(l, WrappedTransfer(from, to, i));
            && i in l.raw && l'.raw == l.raw && l'.wrapper.Keys <= l.raw.Keys
            && l.Owner(i) == (if from == ZERO_ADDRESS then wrapper else from)
            && l'.Owner(i) == (if to == ZERO_ADDRESS then wrapper else to)
            && (i in l'.wrapper <==> to != ZERO_ADDRESS)
            && (forall q :: q in l.raw && q != i ==> l'.Owner(q) == l.Owner(q) && (q in l'.wrapper <==> q in l.wrapper))
            && (forall q :: q in l'.wrapper ==> l'.raw[q] == wrapper)
            && (i in l.wrapper <==> from != ZERO_ADDRESS)
  {
  }

  /** If only punk i's entity changed, and its owner and flag follow the ledger, all owners and flags do. */
  lemma OwnersFollow(s: OGState, l: Ledger, s': OGState, l': Ledger, wrapper: string, i: string)
    requires OwnersAgree(s, l, wrapper) && i in l'.raw && s'.ogpunks.Keys == l'.raw.Keys
    requires l'.raw.Keys == l.raw.Keys + {i} && l'.wrapper.Keys <= l'.raw.Keys
    requires forall q :: q in s.ogpunks && q != i ==> s'.ogpunks[q] == s.ogpunks[q]
    requires s'.ogpunks[i].owner == l'.Owner(i) && (s'.ogpunks[i].wrapped <==> i in l'.wrapper)
    requires forall q :: q in l.raw && q != i ==> l'.Owner(q) == l.Owner(q) && (q in l'.wrapper <==> q in l.wrapper)
    requires forall q :: q in l'.wrapper ==> l'.raw[q] == wrapper
    ensures OwnersAgree(s', l', wrapper)
  {
  }

  lemma WrappedOwners(s: OGState, l: Ledger, wrapper: string, from: string, to: string, i: string)
    requires OwnersAgree(s, l, wrapper) && EventHappens(l, wrapper, WrappedTransfer(from, to, i))
    ensures OwnersAgree(WrappedTransferState(s, wrapper, from, to, i), LedgerStep(l, WrappedTransfer(from, to, i)), wrapper)
  {
    WrappedMoves(s, wrapper, from, to, i);
    WrappedLedger(l, wrapper, from, to, i);
    OwnersFollow(s, l, WrappedTransferState(s, wrapper, from, to, i), LedgerStep(l, WrappedTransfer(from, to, i)), wrapper, i);
  }

  lemma WrappedHoldings(s: OGState, l: Ledger, wrapper: string, from: string, to: string, i: string)
    requires i in s.ogpunks && l.wrapper.Keys <= l.raw.Keys && (forall q :: q in l.wrapper ==> l.raw[q] == wrapper)
    requires HoldingsAgree(s, l) && EventHappens(l, wrapper, WrappedTransfer(from, to, i))
    ensures LedgerStep(l, WrappedTransfer(from, to, i)).wrapper.Keys <= l.raw.Keys
    ensures HoldingsAgree(WrappedTransferState(s, wrapper, from, to, i), LedgerStep(l, WrappedTransfer(from, to, i)))
  {
    WrappedMoves(s, wrapper, from, to, i);
    WrappedLedger(l, wrapper, from, to, i);
    MoveAgrees(s, l, WrappedTransferState(s, wrapper, from, to, i), LedgerStep(l, WrappedTransfer(from, to, i)),
               if from == ZERO_ADDRESS then wrapper else from, if to == ZERO_ADDRESS then wrapper else to, i);
  }

  /** A wrap, an unwrap or a wrapped transfer always keeps the index, a transfer to oneself included. */
  lemma WrappedAgrees(s: OGState, l: Ledger, wrapper: string, from: string, to: string, i: string)
    requires Agrees(s, l, wrapper) && EventHappens(l, wrapper, WrappedTransfer(from, to, i))
    ensures Agrees(WrappedTransferState(s, wrapper, from, to, i), LedgerStep(l, WrappedTransfer(from, to, i)), wrapper)
  {
    WrappedOwners(s, l, wrapper, from, to, i);
    WrappedHoldings(s, l, wrapper, from, to, i);
    WrappedMoves(s, wrapper, from, to, i);
    SameDelegations(s, WrappedTransferState(s, wrapper, from, to, i));
  }

  lemma PunkTransferStored(s: OGState, from: string, to: string, i: string)
    requires i in s.ogpunks
    ensures var s' := PunkTransferState(s, from, to, i);
            && (from != to ==> Moved(s, s', from, to, i))
            && s'.represented == s.represented
            && s'.HolderOf(to) == Gain(s.HolderOf(to), i)
            && s'.ogpunks == s.ogpunks[i := s.ogpunks[i].(owner := to)]
  {
  }

  lemma PunkTransferOwners(s: OGState, l: Ledger, wrapper: string, from: string, to: string, i: string)
    requires OwnersAgree(s, l, wrapper) && EventHappens(l, wrapper, PunkTransfer(from, to, i))
    ensures OwnersAgree(PunkTransferState(s, from, to, i), LedgerStep(l, PunkTransfer(from, to, i)), wrapper)
  {
    PunkTransferStored(s, from, to, i);
    OwnersFollow(s, l, PunkTransferState(s, from, to, i), LedgerStep(l, PunkTransfer(from, to, i)), wrapper, i);
  }

  lemma PunkTransferHoldings(s: OGState, l: Ledger, from: string, to: string, i: string)
    requires i in s.ogpunks && l.wrapper.Keys <= l.raw.Keys && HoldingsAgree(s, l) && from != to
    requires i in l.raw && l.raw[i] == from && i !in l.wrapper
    ensures HoldingsAgree(PunkTransferState(s, from, to, i), LedgerStep(l, PunkTransfer(from, to, i)))
  {
    PunkTransferStored(s, from, to, i);
    MoveAgrees(s, l, PunkTransferState(s, from, to, i), LedgerStep(l, PunkTransfer(from, to, i)), from, to, i);
  }

  /** A transfer of a bare punk keeps the index exactly if it is between two different accounts. */
  lemma PunkTransferExact(s: OGState, l: Ledger, wrapper: string, from: string, to: string, i: string)
    requires Agrees(s, l, wrapper) && EventHappens(l, wrapper, PunkTransfer(from, to, i))
    ensures Agrees(PunkTransferState(s, from, to, i), LedgerStep(l, PunkTransfer(from, to, i)), wrapper) <==> from != to
  {
    var s' := PunkTransferState(s, from, to, i);
    PunkTransferStored(s, from, to, i);
    if from != to {
      PunkTransferOwners(s, l, wrapper, from, to, i);
      PunkTransferHoldings(s, l, from, to, i);
      SameDelegations(s, s');
    } else {
      assert i in s.HolderOf(to).ogpunks;
      PushNoDup(s.HolderOf(to).ogpunks, i);
      assert !NoDup(s'.HolderOf(to).ogpunks);
    }
  }

  lemma AssignStored(s: OGState, to: string, i: string)
    ensures var s' := AssignState(s, to, i);
            && s'.holders == s.holders[to := Gain(s.HolderOf(to), i)]
            && s'.represented == s.represented && s'.ogpunks == s.ogpunks[i := OGPunk(to, false, None)]
  {
  }

  lemma GainedHoldings(s: OGState, s': OGState, l: Ledger, l': Ledger, to: string, i: string)
    requires l.wrapper.Keys <= l.raw.Keys && HoldingsAgree(s, l) && i !in l.raw
    requires l' == l.(raw := l.raw[i := to]) && s'.holders == s.holders[to := Gain(s.HolderOf(to), i)]
    ensures HoldingsAgree(s', l')
  {
    FreshSize(l.raw, to, i);
    GainedTotal(s, s', to, i);
    forall id
      ensures NoDup(s'.HolderOf(id).ogpunks) && s'.HolderOf(id).ogpunkBalanceRaw == |s'.HolderOf(id).ogpunks|
      ensures forall q :: q in s'.HolderOf(id).ogpunks <==> q in l'.raw && l'.Owner(q) == id
    {
      GainedHolding(s, s', l, to, i, id);
    }
  }

  lemma FreshSize(raw: map<string, string>, to: string, i: string)
    requires i !in raw
    ensures |raw[i := to]| == |raw| + 1
  {
    assert raw[i := to].Keys == raw.Keys + {i};
    assert |raw[i := to]| == |raw[i := to].Keys| && |raw| == |raw.Keys|;
  }

  lemma GainedHolding(s: OGState, s': OGState, l: Ledger, to: string, i: string, id: string)
    requires l.wrapper.Keys <= l.raw.Keys && i !in l.raw && s'.holders == s.holders[to := Gain(s.HolderOf(to), i)]
    requires NoDup(s.HolderOf(id).ogpunks) && s.HolderOf(id).ogpunkBalanceRaw == |s.HolderOf(id).ogpunks|
    requires forall q :: q in s.HolderOf(id).ogpunks <==> q in l.raw && l.Owner(q) == id
    ensures var list, l' := s'.HolderOf(id).ogpunks, l.(raw := l.raw[i := to]);
            && NoDup(list) && s'.HolderOf(id).ogpunkBalanceRaw == |list|
            && forall q :: q in list <==> q in l'.raw && l'.Owner(q) == id
  {
    PushNoDup(s.HolderOf(id).ogpunks, i);
    assert s'.HolderOf(id) == if id == to then Gain(s.HolderOf(id), i) else s.HolderOf(id);
  }

  lemma GainedTotal(s: OGState, s': OGState, to: string, i: string)
    requires s'.holders == s.holders[to := Gain(s.HolderOf(to), i)]
    ensures Total(OGBalances(s')) == Total(OGBalances(s)) + 1
  {
    var balance := s.HolderOf(to).ogpunkBalanceRaw + 1;
    TotalUpdate(OGBalances(s), to, balance);
    assert OGBalances(s') == OGBalances(s)[to := balance];
  }

  lemma FreshOwners(s: OGState, l: Ledger, wrapper: string, to: string, i: string)
    requires OwnersAgree(s, l, wrapper) && i !in l.raw
    ensures OwnersAgree(AssignState(s, to, i), LedgerStep(l, Assign(to, i)), wrapper)
  {
    AssignStored(s, to, i);
    OwnersFollow(s, l, AssignState(s, to, i), LedgerStep(l, Assign(to, i)), wrapper, i);
  }

  lemma FreshDelegations(s: OGState, to: string, i: string)
    requires DelegationsAgree(s) && i !in s.ogpunks
    ensures DelegationsAgree(AssignState(s, to, i))
  {
    AssignStored(s, to, i);
    forall d ensures AssignState(s, to, i).RepresentedBy(d) == s.RepresentedBy(d) {}
  }

  /** An assignment keeps the index exactly if the punk was not assigned before. */
  lemma AssignExact(s: OGState, l: Ledger, wrapper: string, to: string, i: string)
    requires Agrees(s, l, wrapper) && EventHappens(l, wrapper, Assign(to, i))
    ensures Agrees(AssignState(s, to, i), LedgerStep(l, Assign(to, i)), wrapper) <==> i !in l.raw
  {
    var s', l' := AssignState(s, to, i), LedgerStep(l, Assign(to, i));
    if i !in l.raw {
      AssignStored(s, to, i);
      GainedHoldings(s, s', l, l', to, i);
      FreshOwners(s, l, wrapper, to, i);
      FreshDelegations(s, to, i);
    } else {
      AssignStored(s, to, i);
      PushNoDup(s.HolderOf(to).ogpunks, i);
      var owner := l.raw[i];
      assert i in s.HolderOf(owner).ogpunks;
      assert s'.HolderOf(owner).ogpunks == if owner == to then s.HolderOf(to).ogpunks + [i] else s.HolderOf(owner).ogpunks;
    }
  }

  lemma OGDelegateStored(s: OGState, e: OGEvent, d: string, id: string)
    requires e.OGDelegateChanged? && e.punk in s.ogpunks
    ensures var s' := IndexStep(s, "", e);
            && s'.holders == s.holders[e.delegator := s.HolderOf(e.delegator)]
            && s'.HolderOf(id) == s.HolderOf(id)
            && s'.ogpunks == s.ogpunks[e.punk := s.ogpunks[e.punk].(delegate := Some(e.toDelegate))]
            && s'.RepresentedBy(d) == (if d == e.toDelegate then s.RepresentedBy(d) + [e.punk]
                                       else if d == e.fromDelegate then Without(s.RepresentedBy(d), {e.punk})
                                       else s.RepresentedBy(d))
  {
  }

  /** Delegations never touch owners or flags. */
  lemma DelegatedOwners(s: OGState, l: Ledger, wrapper: string, e: OGEvent)
    requires e.OGDelegateChanged? && OwnersAgree(s, l, wrapper) && e.punk in l.raw
    ensures OwnersAgree(IndexStep(s, wrapper, e), l, wrapper)
  {
    OGDelegateStored(s, e, "", "");
    OwnersFollow(s, l, IndexStep(s, wrapper, e), l, wrapper, e.punk);
  }

  lemma DelegatedTotal(s: OGState, e: OGEvent)
    requires e.OGDelegateChanged? && e.punk in s.ogpunks
    ensures Total(OGBalances(IndexStep(s, "", e))) == Total(OGBalances(s))
  {
    var balance := s.HolderOf(e.delegator).ogpunkBalanceRaw;
    OGDelegateStored(s, e, "", "");
    TotalUpdate(OGBalances(s), e.delegator, balance);
    assert OGBalances(IndexStep(s, "", e)) == OGBalances(s)[e.delegator := balance];
  }

  lemma SameHoldings(s: OGState, s': OGState, l: Ledger)
    requires l.wrapper.Keys <= l.raw.Keys && HoldingsAgree(s, l)
    requires Total(OGBalances(s')) == Total(OGBalances(s))
    requires forall id :: s'.HolderOf(id) == s.HolderOf(id)
    ensures HoldingsAgree(s', l)
  {
  }

  /** Nor holdings. */
  lemma DelegatedHoldings(s: OGState, l: Ledger, e: OGEvent)
    requires e.OGDelegateChanged? && l.wrapper.Keys <= l.raw.Keys && HoldingsAgree(s, l) && e.punk in s.ogpunks
    ensures HoldingsAgree(IndexStep(s, "", e), l)
  {
    var s' := IndexStep(s, "", e);
    DelegatedTotal(s, e);
    forall id ensures s'.HolderOf(id) == s.HolderOf(id) {
      OGDelegateStored(s, e, "", id);
    }
    SameHoldings(s, s', l);
  }

  lemma GuardedDelegation(s: OGState, e: OGEvent)
    requires e.OGDelegateChanged? && DelegationsAgree(s) && e.punk in s.ogpunks
    requires var old' := s.ogpunks[e.punk].delegate;
             old' == None || (old' == Some(e.fromDelegate) && e.fromDelegate != e.toDelegate)
    ensures DelegationsAgree(IndexStep(s, "", e))
  {
    var s' := IndexStep(s, "", e);
    forall d
      ensures NoDup(s'.RepresentedBy(d))
      ensures forall q :: q in s'.RepresentedBy(d) <==> q in s'.ogpunks && s'.ogpunks[q].delegate == Some(d)
    {
      OGDelegateStored(s, e, d, "");
      WithoutNoDup(s.RepresentedBy(d), {e.punk});
      PushNoDup(s.RepresentedBy(d), e.punk);
    }
  }

  /** A delegation keeps the index exactly if the punk was not delegated, or leaves its stored delegate for another. */
  lemma OGDelegateExact(s: OGState, l: Ledger, wrapper: string, e: OGEvent)
    requires e.OGDelegateChanged? && Agrees(s, l, wrapper) && EventHappens(l, wrapper, e)
    ensures Agrees(IndexStep(s, wrapper, e), l, wrapper) <==> OGGuard(s, l, e)
  {
    var s' := IndexStep(s, wrapper, e);
    if OGGuard(s, l, e) {
      DelegatedOwners(s, l, wrapper, e);
      DelegatedHoldings(s, l, e);
      GuardedDelegation(s, e);
    } else {
      var d := s.ogpunks[e.punk].delegate.value;
      OGDelegateStored(s, e, d, "");
      assert e.punk in s.RepresentedBy(d);
      PushNoDup(s.RepresentedBy(d), e.punk);
    }
  }

  // ---------- whole runs ----------

  lemma EventExact(s: OGState, l: Ledger, wrapper: string, e: OGEvent)
    requires Agrees(s, l, wrapper) && EventHappens(l, wrapper, e)
    ensures Agrees(IndexStep(s, wrapper, e), LedgerStep(l, e), wrapper) <==> OGGuard(s, l, e)
  {
    match e
    case Assign(to, i) => AssignExact(s, l, wrapper, to, i);
    case PunkTransfer(from, to, i) => PunkTransferExact(s, l, wrapper, from, to, i);
    case WrappedTransfer(from, to, i) => WrappedAgrees(s, l, wrapper, from, to, i);
    case OGDelegateChanged(_, _, _, _) => OGDelegateExact(s, l, wrapper, e);
  }

  function LedgerRun(events: seq<OGEvent>): Ledger {
    if events == [] then Ledger(map[], map[]) else LedgerStep(LedgerRun(events[..|events| - 1]), events[|events| - 1])
  }

  /** The run is one the two contracts can produce. */
  ghost predicate OGHappens(events: seq<OGEvent>, wrapper: string) {
    events == []
    || (var init := events[..|events| - 1];
        OGHappens(init, wrapper) && EventHappens(LedgerRun(init), wrapper, events[|events| - 1]))
  }

  lemma {:induction false} RunAssigns(events: seq<OGEvent>, wrapper: string)
    requires OGHappens(events, wrapper)
    ensures OGRun(events, wrapper).ogpunks.Keys == LedgerRun(events).raw.Keys
    ensures LedgerRun(events).wrapper.Keys <= LedgerRun(events).raw.Keys
  {
    if events != [] { RunAssigns(events[..|events| - 1], wrapper); }
  }

  /** The index after a run (events about punks never assigned are skipped; in a run that happens there are none). */
  function OGRun(events: seq<OGEvent>, wrapper: string): OGState {
    if events == [] then EMPTY_OG
    else
      var s, e := OGRun(events[..|events| - 1], wrapper), events[|events| - 1];
      if e.Assign? || e.punk in s.ogpunks then IndexStep(s, wrapper, e) else s
  }

  ghost predicate OGGuarded(events: seq<OGEvent>, wrapper: string) {
    events == []
    || (var init := events[..|events| - 1];
        OGGuarded(init, wrapper) && OGGuard(OGRun(init, wrapper), LedgerRun(init), events[|events| - 1]))
  }

  ghost predicate AlwaysAgrees(events: seq<OGEvent>, wrapper: string) {
    Agrees(OGRun(events, wrapper), LedgerRun(events), wrapper)
    && (events == [] || AlwaysAgrees(events[..|events| - 1], wrapper))
  }

  /** Over a whole run of both contracts, the index agrees with the ledgers after every event exactly if each met its guard. */
  lemma {:induction false} OGRunExact(events: seq<OGEvent>, wrapper: string)
    requires OGHappens(events, wrapper)
    ensures AlwaysAgrees(events, wrapper) <==> OGGuarded(events, wrapper)
  {
    if events == [] {
      assert OGBalances(EMPTY_OG) == map[];
    } else {
      var init := events[..|events| - 1];
      OGRunExact(init, wrapper);
      RunAssigns(init, wrapper);
      if AlwaysAgrees(init, wrapper) {
        EventExact(OGRun(init, wrapper), LedgerRun(init), wrapper, events[|events| - 1]);
      }
    }
  }

  lemma OGRunSnoc(events: seq<OGEvent>, wrapper: string, e: OGEvent)
    requires OGHappens(events, wrapper) && EventHappens(LedgerRun(events), wrapper, e)
    requires e.Assign? || e.punk in OGRun(events, wrapper).ogpunks
    ensures OGHappens(events + [e], wrapper)
    ensures OGRun(events + [e], wrapper) == IndexStep(OGRun(events, wrapper), wrapper, e)
    ensures LedgerRun(events + [e]) == LedgerStep(LedgerRun(events), e)
    ensures OGGuarded(events + [e], wrapper) ==> OGGuard(OGRun(events, wrapper), LedgerRun(events), e)
  {
    assert (events + [e])[..|events|] == events;
  }

  const FIRST_ASSIGN := Assign("a", "1")

  lemma AfterAssign(wrapper: string)
    ensures OGHappens([FIRST_ASSIGN], wrapper)
    ensures LedgerRun([FIRST_ASSIGN]) == Ledger(map["1" := "a"], map[])
    ensures OGRun([FIRST_ASSIGN], wrapper).ogpunks == map["1" := OGPunk("a", false, None)]
  {
    assert [] + [FIRST_ASSIGN] == [FIRST_ASSIGN];
    OGRunSnoc([], wrapper, FIRST_ASSIGN);
    AssignStored(EMPTY_OG, "a", "1");
  }

  /** A second event that its contract emits but that does not meet its guard breaks the index. */
  lemma SecondEventBreaks(wrapper: string, e: OGEvent)
    requires EventHappens(LedgerRun([FIRST_ASSIGN]), wrapper, e) && (e.Assign? || e.punk == "1")
    requires !OGGuard(OGRun([FIRST_ASSIGN], wrapper), LedgerRun([FIRST_ASSIGN]), e)
    ensures OGHappens([FIRST_ASSIGN, e], wrapper) && !AlwaysAgrees([FIRST_ASSIGN, e], wrapper)
  {
    AfterAssign(wrapper);
    assert [FIRST_ASSIGN] + [e] == [FIRST_ASSIGN, e];
    OGRunSnoc([FIRST_ASSIGN], wrapper, e);
    OGRunExact([FIRST_ASSIGN, e], wrapper);
  }

  /** A punk transferred by its owner to itself is listed twice. */
  lemma OwnTransferBreaks(wrapper: string)
    ensures var run := [FIRST_ASSIGN, PunkTransfer("a", "a", "1")];
            OGHappens(run, wrapper) && !AlwaysAgrees(run, wrapper)
  {
    AfterAssign(wrapper);
    SecondEventBreaks(wrapper, PunkTransfer("a", "a", "1"));
  }

  /** A punk assigned to a second account stays listed under the first. */
  lemma SecondAssignBreaks(wrapper: string)
    ensures var run := [FIRST_ASSIGN, Assign("b", "1")];
            OGHappens(run, wrapper) && !AlwaysAgrees(run, wrapper)
  {
    AfterAssign(wrapper);
    SecondEventBreaks(wrapper, Assign("b", "1"));
  }

  const FIRST_DELEGATION := OGDelegateChanged("a", ZERO_ADDRESS, "b", "1")

  lemma AfterDelegation(wrapper: string)
    ensures OGHappens([FIRST_ASSIGN, FIRST_DELEGATION], wrapper)
    ensures LedgerRun([FIRST_ASSIGN, FIRST_DELEGATION]) == Ledger(map["1" := "a"], map[])
    ensures OGRun([FIRST_ASSIGN, FIRST_DELEGATION], wrapper).ogpunks == map["1" := OGPunk("a", false, Some("b"))]
  {
    AfterAssign(wrapper);
    assert [FIRST_ASSIGN] + [FIRST_DELEGATION] == [FIRST_ASSIGN, FIRST_DELEGATION];
    OGRunSnoc([FIRST_ASSIGN], wrapper, FIRST_DELEGATION);
    OGDelegateStored(OGRun([FIRST_ASSIGN], wrapper), FIRST_DELEGATION, "", "");
  }

  /** A punk delegated again to its delegate is listed twice under it. */
  lemma RedelegationBreaks(wrapper: string, init: seq<OGEvent>)
    requires init == [FIRST_ASSIGN, FIRST_DELEGATION]
    ensures var run := init + [OGDelegateChanged("a", "b", "b", "1")];
            OGHappens(run, wrapper) && !AlwaysAgrees(run, wrapper)
  {
    var again := OGDelegateChanged("a", "b", "b", "1");
    AfterDelegation(wrapper);
    OGRunSnoc(init, wrapper, again);
    OGRunExact(init + [again], wrapper);
  }
}
