/** What the NToken index promises, and exactly which events keep it. */
module NErc721Index {
  import opened Collections
  import opened Options
  import opened NErc721

  /** Each account lists, once each, exactly the punks it owns, and its balance is their number. */
  ghost predicate OwnersIndexed(s: State) {
    && (forall id :: NoDup(s.AccountOf(id).punks) && s.AccountOf(id).tokenBalanceRaw == |s.AccountOf(id).punks|)
    && (forall id, p :: p in s.AccountOf(id).punks <==> p in s.punks && s.punks[p] == id)
  }

  /** Each delegate lists, once each, exactly the punks whose owner has delegated to it. */
  ghost predicate DelegatesIndexed(s: State) {
    && (forall d :: NoDup(s.DelegateOf(d).punksRepresented))
    && (forall d, p :: p in s.DelegateOf(d).punksRepresented <==>
          p in s.punks && s.AccountOf(s.punks[p]).delegate == Some(d))
  }

  ghost predicate HoldersDelegate(s: State) {
    forall id :: s.AccountOf(id).delegate.Some? <==> s.AccountOf(id).tokenBalanceRaw > 0
  }

  ghost function Balances(s: State): map<string, int> {
    map id | id in s.accounts :: s.accounts[id].tokenBalanceRaw
  }

  /** The punks that are not burnt. */
  ghost function Living(punks: map<string, string>): set<string> {
    set p | p in punks && punks[p] != ZERO_ADDRESS
  }

  ghost predicate HoldersCounted(s: State) {
    && s.governance.currentTokenHolders == |Positive(Balances(s))|
    && s.governance.totalTokenHolders == |Living(s.punks)|
  }

  ghost function Votes(s: State): map<string, int> {
    map d | d in s.delegates :: s.delegates[d].delegatedVotesRaw
  }

  ghost predicate VotesCounted(s: State) {
    && (forall d :: s.DelegateOf(d).delegatedVotesRaw >= 0)
    && s.governance.delegatedVotesRaw == Total(Votes(s))
    && s.governance.currentDelegates == |Positive(Votes(s))|
  }

  ghost predicate Indexed(s: State) {
    OwnersIndexed(s) && DelegatesIndexed(s) && HoldersDelegate(s) && HoldersCounted(s) && VotesCounted(s)
  }

  lemma EmptyIsIndexed()
    ensures Indexed(EMPTY_STATE)
  {
    assert Balances(EMPTY_STATE) == map[] && Votes(EMPTY_STATE) == map[];
  }

  // ---------- Transfer ----------

  /** What ERC-721 guarantees of a Transfer event: a mint is of a fresh punk, any other transfer is by the owner. */
  ghost predicate TransferHappens(s: State, from: string, to: string, p: string) {
    if from == ZERO_ADDRESS then p !in s.punks else p in s.punks && s.punks[p] == from
  }

  /** The list of delegate `d` after the sender's half, and after the receiver's half. */
  ghost function KeptPunks(s: State, from: string, p: string, d: string): seq<string> {
    var list := s.DelegateOf(d).punksRepresented;
    if from != ZERO_ADDRESS && s.AccountOf(from).delegate == Some(d) then Without(list, {p}) else list
  }

  ghost function PunksAfter(s: State, from: string, to: string, p: string, d: string): seq<string> {
    var b := s.AccountOf(to);
    if d == (if b.delegate.Some? then b.delegate.value else to) then KeptPunks(s, from, p, d) + [p]
    else KeptPunks(s, from, p, d)
  }

  lemma SendView(s: State, g: Governance, from: string, p: string, id: string, d: string)
    ensures var s' := SendState(s, g, from, p).0;
            && s'.punks == s.punks
            && s'.AccountOf(id) == (if id == from && from != ZERO_ADDRESS then Sent(s.AccountOf(from), p) else s.AccountOf(id))
            && s'.DelegateOf(d) == s.DelegateOf(d).(punksRepresented := KeptPunks(s, from, p, d))
  {
  }

  lemma ReceiveView(s: State, g: Governance, b: Account, to: string, p: string, id: string, d: string)
    ensures var s' := ReceiveState(s, g, b, to, p);
            && s'.punks == s.punks[p := to]
            && s'.AccountOf(id) == (if id == to then Received(b, to, p) else s.AccountOf(id))
            && s'.DelegateOf(d) == (if d == (if b.delegate.Some? then b.delegate.value else to)
                                    then s.DelegateOf(d).(punksRepresented := s.DelegateOf(d).punksRepresented + [p])
                                    else s.DelegateOf(d))
  {
  }

  /** An account with one punk more, last in its list: also one more ever held, and its own delegate if it had none before. */
  ghost function Gaining(b: Account, id: string, p: string): Account {
    Account(if b.tokenBalanceRaw == 0 then Some(id) else b.delegate, b.tokenBalanceRaw + 1, b.totalTokensHeldRaw + 1, b.punks + [p])
  }

  /** An account without the punk: the number ever held stays, and with the last punk the delegate goes. */
  ghost function Losing(a: Account, p: string): Account {
    Account(if a.tokenBalanceRaw == 1 then None else a.delegate, a.tokenBalanceRaw - 1, a.totalTokensHeldRaw, Without(a.punks, {p}))
  }

  lemma TransferView(s: State, from: string, to: string, p: string, id: string, d: string)
    ensures var s' := TransferState(s, from, to, p);
            && s'.punks == s.punks[p := to]
            && s'.AccountOf(id) == (if id == to then Gaining(s.AccountOf(to), to, p)
                                    else if id == from && from != ZERO_ADDRESS then Losing(s.AccountOf(from), p)
                                    else s.AccountOf(id))
            && s'.DelegateOf(d) == s.DelegateOf(d).(punksRepresented := PunksAfter(s, from, to, p, d))
  {
    var loaded := s.TouchAccount(from).TouchAccount(to);
    var (sent, g) := SendState(loaded, s.governance, from, p);
    SendView(loaded, s.governance, from, p, id, d);
    ReceiveView(sent, g, s.AccountOf(to), to, p, id, d);
  }

  lemma TransferOwners(s: State, from: string, to: string, p: string)
    requires OwnersIndexed(s) && TransferHappens(s, from, to, p) && (from != to || from == ZERO_ADDRESS)
    ensures OwnersIndexed(TransferState(s, from, to, p))
  {
    var s' := TransferState(s, from, to, p);
    forall id
      ensures NoDup(s'.AccountOf(id).punks) && s'.AccountOf(id).tokenBalanceRaw == |s'.AccountOf(id).punks|
      ensures forall q :: q in s'.AccountOf(id).punks <==> q in s'.punks && s'.punks[q] == id
    {
      TransferView(s, from, to, p, id, "");
      var list := s.AccountOf(id).punks;
      if id == to {
        assert p !in list;
        PushNoDup(list, p);
      } else if id == from && from != ZERO_ADDRESS {
        WithoutNoDup(list, {p});
        WithoutOne(list, p);
      }
    }
  }

  lemma TransferHoldersDelegate(s: State, from: string, to: string, p: string)
    requires OwnersIndexed(s) && HoldersDelegate(s) && TransferHappens(s, from, to, p)
    ensures HoldersDelegate(TransferState(s, from, to, p))
  {
    var s' := TransferState(s, from, to, p);
    forall id ensures s'.AccountOf(id).delegate.Some? <==> s'.AccountOf(id).tokenBalanceRaw > 0 {
      TransferView(s, from, to, p, id, "");
    }
  }

  /** Another punk's owner keeps its delegate: a sender that still holds it has not lost its last punk. */
  lemma OtherOwnersKeepDelegate(s: State, from: string, to: string, p: string, q: string)
    requires OwnersIndexed(s) && HoldersDelegate(s) && TransferHappens(s, from, to, p)
    requires from != to || from == ZERO_ADDRESS
    requires q != p && q in s.punks
    ensures TransferState(s, from, to, p).AccountOf(s.punks[q]).delegate == s.AccountOf(s.punks[q]).delegate
  {
    var owner := s.punks[q];
    var list := s.AccountOf(owner).punks;
    TransferView(s, from, to, p, owner, "");
    assert q in list;
    if owner == from && from != ZERO_ADDRESS {
      WithoutOne(list, p);
      assert q in Without(list, {p});
    }
  }

  lemma TransferDelegates(s: State, from: string, to: string, p: string)
    requires OwnersIndexed(s) && DelegatesIndexed(s) && HoldersDelegate(s) && TransferHappens(s, from, to, p)
    requires from != to || from == ZERO_ADDRESS
    ensures DelegatesIndexed(TransferState(s, from, to, p))
  {
    var s' := TransferState(s, from, to, p);
    var b := s.AccountOf(to);
    forall d
      ensures NoDup(s'.DelegateOf(d).punksRepresented)
      ensures forall q :: q in s'.DelegateOf(d).punksRepresented <==>
                q in s'.punks && s'.AccountOf(s'.punks[q]).delegate == Some(d)
    {
      TransferView(s, from, to, p, to, d);
      var list := s.DelegateOf(d).punksRepresented;
      var kept := KeptPunks(s, from, p, d);
      WithoutNoDup(list, {p});
      assert p !in kept;
      PushNoDup(kept, p);
      forall q ensures q in s'.DelegateOf(d).punksRepresented <==> q in s'.punks && s'.AccountOf(s'.punks[q]).delegate == Some(d) {
        if q != p && q in s.punks {
          OtherOwnersKeepDelegate(s, from, to, p, q);
        }
      }
    }
  }

  /** The two governance entities differ at most in `totalDelegates`. */
  ghost predicate SameCounters(g: Governance, h: Governance) {
    g == h.(totalDelegates := g.totalDelegates)
  }

  ghost function Counted(g: Governance, total: int, current: int): Governance {
    g.(totalTokenHolders := g.totalTokenHolders + total, currentTokenHolders := g.currentTokenHolders + current)
  }

  lemma SendStored(s: State, g: Governance, from: string, p: string)
    requires SameCounters(s.governance, g)
    ensures var (s', g') := SendState(s, g, from, p);
            && s'.accounts == (if from == ZERO_ADDRESS then s.accounts else s.accounts[from := Sent(s.AccountOf(from), p)])
            && SameCounters(s'.governance, g')
            && g' == Counted(g, if from == ZERO_ADDRESS then 1 else 0,
                             if from != ZERO_ADDRESS && s.AccountOf(from).tokenBalanceRaw == 1 then -1 else 0)
  {
  }

  lemma ReceiveStored(s: State, g: Governance, b: Account, to: string, p: string)
    requires SameCounters(s.governance, g)
    ensures var s' := ReceiveState(s, g, b, to, p);
            && s'.accounts == s.accounts[to := Received(b, to, p)]
            && SameCounters(s'.governance,
                 Counted(g, if to == ZERO_ADDRESS then -1 else 0, if b.tokenBalanceRaw == 0 then 1 else 0))
  {
  }

  lemma TouchTwice(accounts: map<string, Account>, from: string, a: Account, to: string, b: Account, b': Account)
    ensures accounts[from := a][to := b][to := b'] == accounts[from := a][to := b']
  {
  }

  lemma TouchThenSend(accounts: map<string, Account>, from: string, a: Account, a': Account, to: string, b: Account, b': Account)
    ensures accounts[from := a][to := b][from := a'][to := b'] == accounts[from := a'][to := b']
  {
  }

  /** What a transfer stores: each party's account once, and counters that follow the two balances. */
  lemma TransferStored(s: State, from: string, to: string, p: string)
    ensures var s' := TransferState(s, from, to, p);
            && s'.accounts == s.accounts[from := if from == ZERO_ADDRESS then s.AccountOf(from) else Sent(s.AccountOf(from), p)]
                                        [to := Received(s.AccountOf(to), to, p)]
            && SameCounters(s'.governance,
                 Counted(Counted(s.governance, if from == ZERO_ADDRESS then 1 else 0,
                                 if from != ZERO_ADDRESS && s.AccountOf(from).tokenBalanceRaw == 1 then -1 else 0),
                         if to == ZERO_ADDRESS then -1 else 0, if s.AccountOf(to).tokenBalanceRaw == 0 then 1 else 0))
  {
    var a, b := s.AccountOf(from), s.AccountOf(to);
    var loaded := s.TouchAccount(from).TouchAccount(to);
    assert loaded.accounts == s.accounts[from := a][to := b];
    assert loaded.AccountOf(from) == a;
    var (sent, g) := SendState(loaded, s.governance, from, p);
    SendStored(loaded, s.governance, from, p);
    ReceiveStored(sent, g, b, to, p);
    TouchTwice(s.accounts, from, a, to, b, Received(b, to, p));
    TouchThenSend(s.accounts, from, a, Sent(a, p), to, b, Received(b, to, p));
  }

  lemma TransferCounters(s: State, from: string, to: string, p: string)
    requires OwnersIndexed(s) && HoldersCounted(s) && TransferHappens(s, from, to, p)
    requires from != to || from == ZERO_ADDRESS
    ensures HoldersCounted(TransferState(s, from, to, p))
  {
    var s' := TransferState(s, from, to, p);
    TransferStored(s, from, to, p);
    TransferView(s, from, to, p, "", "");
    LivingAfter(s.punks, p, to);
    TransferHolders(s, from, to, p);
  }

  lemma TransferBalances(s: State, from: string, to: string, p: string)
    ensures Balances(TransferState(s, from, to, p))
         == Balances(s)[from := s.AccountOf(from).tokenBalanceRaw - (if from == ZERO_ADDRESS then 0 else 1)]
                       [to := s.AccountOf(to).tokenBalanceRaw + 1]
  {
    TransferStored(s, from, to, p);
  }

  lemma TransferHolders(s: State, from: string, to: string, p: string)
    requires OwnersIndexed(s) && TransferHappens(s, from, to, p) && (from != to || from == ZERO_ADDRESS)
    ensures |Positive(Balances(TransferState(s, from, to, p)))| == |Positive(Balances(s))|
              - (if from != ZERO_ADDRESS && s.AccountOf(from).tokenBalanceRaw == 1 then 1 else 0)
              + (if s.AccountOf(to).tokenBalanceRaw == 0 then 1 else 0)
  {
    var a, b := s.AccountOf(from), s.AccountOf(to);
    var fromBalance := a.tokenBalanceRaw - (if from == ZERO_ADDRESS then 0 else 1);
    var m := Balances(s)[from := fromBalance];
    TransferBalances(s, from, to, p);
    PositiveUpdate(Balances(s), from, fromBalance);
    PositiveUpdate(m, to, b.tokenBalanceRaw + 1);
    assert from != ZERO_ADDRESS ==> p in a.punks;
  }

  lemma LivingAfter(punks: map<string, string>, p: string, to: string)
    ensures |Living(punks[p := to])| == |Living(punks)| - (if p in punks && punks[p] != ZERO_ADDRESS then 1 else 0)
                                        + (if to != ZERO_ADDRESS then 1 else 0)
  {
    var rest := Living(punks) - {p};
    assert Living(punks) == if p in punks && punks[p] != ZERO_ADDRESS then rest + {p} else rest;
    assert Living(punks[p := to]) == if to != ZERO_ADDRESS then rest + {p} else rest;
  }

  /** New delegate entities hold no votes, so only the votes actually stored count. */
  lemma VotesAlike(s: State, t: State)
    requires VotesCounted(s) && t.governance.delegatedVotesRaw == s.governance.delegatedVotesRaw
    requires t.governance.currentDelegates == s.governance.currentDelegates
    requires forall d :: t.DelegateOf(d).delegatedVotesRaw == s.DelegateOf(d).delegatedVotesRaw
    requires s.delegates.Keys <= t.delegates.Keys
    ensures VotesCounted(t)
  {
    forall d | d in Votes(t) ensures Votes(t)[d] == if d in Votes(s) then Votes(s)[d] else 0 {
      assert t.DelegateOf(d).delegatedVotesRaw == s.DelegateOf(d).delegatedVotesRaw;
    }
    TotalAlike(Votes(s), Votes(t));
    assert Positive(Votes(s)) == Positive(Votes(t));
  }

  lemma {:induction false} TotalAlike(m: map<string, int>, n: map<string, int>)
    requires m.Keys <= n.Keys
    requires forall k :: k in n ==> n[k] == if k in m then m[k] else 0
    ensures Total(m) == Total(n)
    decreases |n|
  {
    if n.Keys == m.Keys {
      assert n == m;
    } else {
      var k :| k in n && k !in m;
      TotalRemove(n, k);
      TotalAlike(m, n - {k});
    }
  }

  lemma TransferVotes(s: State, from: string, to: string, p: string)
    requires VotesCounted(s)
    ensures VotesCounted(TransferState(s, from, to, p))
  {
    var s' := TransferState(s, from, to, p);
    TransferStored(s, from, to, p);
    TransferKeepsDelegates(s, from, to, p);
    forall d ensures s'.DelegateOf(d).delegatedVotesRaw == s.DelegateOf(d).delegatedVotesRaw {
      TransferView(s, from, to, p, "", d);
    }
    VotesAlike(s, s');
  }

  lemma TransferKeepsDelegates(s: State, from: string, to: string, p: string)
    ensures s.delegates.Keys <= TransferState(s, from, to, p).delegates.Keys
  {
  }

  /** A transfer that happens keeps the whole index exactly if it is not a transfer to oneself. */
  lemma TransferExact(s: State, from: string, to: string, p: string)
    requires Indexed(s) && TransferHappens(s, from, to, p)
    ensures Indexed(TransferState(s, from, to, p)) <==> from != to || from == ZERO_ADDRESS
  {
    var s' := TransferState(s, from, to, p);
    if from != to || from == ZERO_ADDRESS {
      TransferOwners(s, from, to, p);
      TransferHoldersDelegate(s, from, to, p);
      TransferDelegates(s, from, to, p);
      TransferCounters(s, from, to, p);
      TransferVotes(s, from, to, p);
    } else {
      TransferView(s, from, to, p, to, "");
      PushNoDup(s.AccountOf(to).punks, p);
      assert !NoDup(s'.AccountOf(to).punks);
    }
  }

  // ---------- DelegateChanged ----------

  lemma DelegateView(s: State, delegator: string, from: string, to: string, id: string, d: string)
    ensures var s' := DelegateState(s, delegator, from, to);
            var punks := s.AccountOf(delegator).punks;
            && s'.punks == s.punks
            && s'.AccountOf(id) == (if id == delegator then s.AccountOf(id).(delegate := Some(to)) else s.AccountOf(id))
            && s'.DelegateOf(d).punksRepresented == (if d == to then s.DelegateOf(d).punksRepresented + punks
                                                     else if d == from then Without(s.DelegateOf(d).punksRepresented, set p | p in punks)
                                                     else s.DelegateOf(d).punksRepresented)
            && s'.DelegateOf(d).delegatedVotesRaw == s.DelegateOf(d).delegatedVotesRaw
  {
  }

  lemma DelegateStored(s: State, delegator: string, from: string, to: string)
    ensures var s' := DelegateState(s, delegator, from, to);
            && s'.accounts == s.accounts[delegator := s.AccountOf(delegator).(delegate := Some(to))]
            && s.delegates.Keys <= s'.delegates.Keys
            && SameCounters(s'.governance, s.governance)
  {
  }

  /** The delegator holds punks, and the event names its stored delegate as the previous one and another as the next. */
  ghost predicate DelegationGuard(s: State, delegator: string, from: string, to: string) {
    s.AccountOf(delegator).delegate == Some(from) && from != to
  }

  lemma DelegationKeepsDelegates(s: State, delegator: string, from: string, to: string)
    requires OwnersIndexed(s) && DelegatesIndexed(s) && DelegationGuard(s, delegator, from, to)
    ensures DelegatesIndexed(DelegateState(s, delegator, from, to))
  {
    var s' := DelegateState(s, delegator, from, to);
    var punks := s.AccountOf(delegator).punks;
    forall d
      ensures NoDup(s'.DelegateOf(d).punksRepresented)
      ensures forall q :: q in s'.DelegateOf(d).punksRepresented <==>
                q in s'.punks && s'.AccountOf(s'.punks[q]).delegate == Some(d)
    {
      DelegateView(s, delegator, from, to, delegator, d);
      var list := s.DelegateOf(d).punksRepresented;
      WithoutNoDup(list, set p | p in punks);
      forall p | p in punks ensures s.punks[p] == delegator && (p in list <==> d == from) {}
      AppendNoDup(list, punks);
      forall q ensures q in s'.DelegateOf(d).punksRepresented <==> q in s'.punks && s'.AccountOf(s'.punks[q]).delegate == Some(d) {
        assert q in punks <==> q in s.punks && s.punks[q] == delegator;
        if q in s.punks {
          DelegateView(s, delegator, from, to, s.punks[q], d);
        }
      }
    }
  }

  lemma DelegationKeepsOwners(s: State, delegator: string, from: string, to: string)
    requires OwnersIndexed(s) && HoldersDelegate(s) && s.AccountOf(delegator).delegate.Some?
    ensures OwnersIndexed(DelegateState(s, delegator, from, to)) && HoldersDelegate(DelegateState(s, delegator, from, to))
  {
    var s' := DelegateState(s, delegator, from, to);
    forall id
      ensures s'.AccountOf(id) == s.AccountOf(id).(delegate := s'.AccountOf(id).delegate)
      ensures s'.AccountOf(id).delegate.Some? == s.AccountOf(id).delegate.Some?
      ensures s'.punks == s.punks
    {
      DelegateView(s, delegator, from, to, id, "");
    }
  }

  lemma DelegationKeepsCounters(s: State, delegator: string, from: string, to: string)
    requires HoldersCounted(s) && VotesCounted(s)
    ensures HoldersCounted(DelegateState(s, delegator, from, to)) && VotesCounted(DelegateState(s, delegator, from, to))
  {
    var s' := DelegateState(s, delegator, from, to);
    DelegateStored(s, delegator, from, to);
    forall d ensures s'.DelegateOf(d).delegatedVotesRaw == s.DelegateOf(d).delegatedVotesRaw && s'.punks == s.punks {
      DelegateView(s, delegator, from, to, "", d);
    }
    var balance := s.AccountOf(delegator).tokenBalanceRaw;
    PositiveUpdate(Balances(s), delegator, balance);
    assert Balances(s') == Balances(s)[delegator := balance];
    VotesAlike(s, s');
  }

  /** Any other DelegateChanged event breaks the index: a punk ends up listed twice, or under a stale delegate. */
  lemma UnguardedDelegationBreaks(s: State, delegator: string, from: string, to: string)
    requires Indexed(s) && !DelegationGuard(s, delegator, from, to)
    ensures !Indexed(DelegateState(s, delegator, from, to))
  {
    var s' := DelegateState(s, delegator, from, to);
    var a := s.AccountOf(delegator);
    DelegateView(s, delegator, from, to, delegator, to);
    if a.delegate == None {
      assert s'.AccountOf(delegator).delegate.Some? && s'.AccountOf(delegator).tokenBalanceRaw <= 0;
    } else {
      var p, d := a.punks[0], a.delegate.value;
      assert p in a.punks;
      assert s.punks[p] == delegator && p in s.DelegateOf(d).punksRepresented;
      DelegateView(s, delegator, from, to, delegator, d);
      if d == to {
        AppendNoDup(s.DelegateOf(d).punksRepresented, a.punks);
        assert !NoDup(s'.DelegateOf(d).punksRepresented);
      } else {
        assert p in s'.DelegateOf(d).punksRepresented;
      }
    }
  }

  /** A DelegateChanged event keeps the whole index exactly under its guard. */
  lemma DelegationExact(s: State, delegator: string, from: string, to: string)
    requires Indexed(s)
    ensures Indexed(DelegateState(s, delegator, from, to)) <==> DelegationGuard(s, delegator, from, to)
  {
    if DelegationGuard(s, delegator, from, to) {
      DelegationKeepsDelegates(s, delegator, from, to);
      DelegationKeepsOwners(s, delegator, from, to);
      DelegationKeepsCounters(s, delegator, from, to);
    } else {
      UnguardedDelegationBreaks(s, delegator, from, to);
    }
  }

  // ---------- DelegateVotesChanged ----------

  /** The event starts from the stored votes, and does not go from nothing to nothing. */
  ghost predicate VotesGuard(s: State, delegate: string, previousBalance: nat, newBalance: nat) {
    previousBalance == s.DelegateOf(delegate).delegatedVotesRaw && (previousBalance > 0 || newBalance > 0)
  }

  lemma VotesView(s: State, delegate: string, previousBalance: nat, newBalance: nat, d: string)
    ensures var s' := VotesState(s, delegate, previousBalance, newBalance);
            && s'.punks == s.punks && s'.accounts == s.accounts
            && Votes(s') == Votes(s)[delegate := newBalance]
            && s'.DelegateOf(d).punksRepresented == s.DelegateOf(d).punksRepresented
            && s'.DelegateOf(d).delegatedVotesRaw == (if d == delegate then newBalance else s.DelegateOf(d).delegatedVotesRaw)
            && s'.governance.totalDelegates == s.governance.totalDelegates
  {
  }

  /** A DelegateVotesChanged event keeps the whole index exactly under its guard. */
  lemma VotesExact(s: State, delegate: string, previousBalance: nat, newBalance: nat)
    requires Indexed(s)
    ensures Indexed(VotesState(s, delegate, previousBalance, newBalance))
       <==> VotesGuard(s, delegate, previousBalance, newBalance)
  {
    var s' := VotesState(s, delegate, previousBalance, newBalance);
    forall d
      ensures s'.punks == s.punks && s'.accounts == s.accounts && Votes(s') == Votes(s)[delegate := newBalance]
      ensures s'.DelegateOf(d).punksRepresented == s.DelegateOf(d).punksRepresented
      ensures s'.DelegateOf(d).delegatedVotesRaw == (if d == delegate then newBalance else s.DelegateOf(d).delegatedVotesRaw)
    {
      VotesView(s, delegate, previousBalance, newBalance, d);
    }
    TotalUpdate(Votes(s), delegate, newBalance);
    PositiveUpdate(Votes(s), delegate, newBalance);
    VotesKeepRest(s, s');
  }

  lemma VotesKeepRest(s: State, t: State)
    requires OwnersIndexed(s) && DelegatesIndexed(s) && HoldersDelegate(s) && HoldersCounted(s)
    requires t.punks == s.punks && t.accounts == s.accounts
    requires forall d :: t.DelegateOf(d).punksRepresented == s.DelegateOf(d).punksRepresented
    requires t.governance.totalTokenHolders == s.governance.totalTokenHolders
    requires t.governance.currentTokenHolders == s.governance.currentTokenHolders
    ensures OwnersIndexed(t) && DelegatesIndexed(t) && HoldersDelegate(t) && HoldersCounted(t)
  {
    forall id ensures t.AccountOf(id) == s.AccountOf(id) {}
    assert Balances(t) == Balances(s);
  }

  // ---------- whole runs ----------

  datatype Event =
    | Transfer(from: string, to: string, tokenId: string)
    | DelegateChanged(delegator: string, fromDelegate: string, toDelegate: string)
    | DelegateVotesChanged(delegate: string, previousBalance: nat, newBalance: nat)

  function Step(s: State, e: Event): State {
    match e
    case Transfer(from, to, p) => TransferState(s, from, to, p)
    case DelegateChanged(delegator, from, to) => DelegateState(s, delegator, from, to)
    case DelegateVotesChanged(d, previous, new') => VotesState(s, d, previous, new')
  }

  function Run(s: State, events: seq<Event>): State {
    if events == [] then s else Step(Run(s, events[..|events| - 1]), events[|events| - 1])
  }

  ghost predicate Guard(s: State, e: Event) {
    match e
    case Transfer(from, to, p) => from != to || from == ZERO_ADDRESS
    case DelegateChanged(delegator, from, to) => DelegationGuard(s, delegator, from, to)
    case DelegateVotesChanged(d, previous, new') => VotesGuard(s, d, previous, new')
  }

  /** Every Transfer of the run moves a punk its sender owns, or mints a fresh one. */
  ghost predicate Happens(events: seq<Event>) {
    events == []
    || (var init, e := events[..|events| - 1], events[|events| - 1];
        Happens(init) && (e.Transfer? ==> TransferHappens(Run(EMPTY_STATE, init), e.from, e.to, e.tokenId)))
  }

  /** Every event of the run met its guard. */
  ghost predicate Guarded(events: seq<Event>) {
    events == []
    || (var init, e := events[..|events| - 1], events[|events| - 1]; Guarded(init) && Guard(Run(EMPTY_STATE, init), e))
  }

  /** The index was right after every event of the run. */
  ghost predicate AlwaysIndexed(events: seq<Event>) {
    Indexed(Run(EMPTY_STATE, events)) && (events == [] || AlwaysIndexed(events[..|events| - 1]))
  }

  lemma StepExact(s: State, e: Event)
    requires Indexed(s) && (e.Transfer? ==> TransferHappens(s, e.from, e.to, e.tokenId))
    ensures Indexed(Step(s, e)) <==> Guard(s, e)
  {
    match e
    case Transfer(from, to, p) => TransferExact(s, from, to, p);
    case DelegateChanged(delegator, from, to) => DelegationExact(s, delegator, from, to);
    case DelegateVotesChanged(d, previous, new') => VotesExact(s, d, previous, new');
  }

  /** Over a whole run from the empty store, the index is right after every event exactly if every event met its guard. */
  lemma {:induction false} RunExact(events: seq<Event>)
    requires Happens(events)
    ensures AlwaysIndexed(events) <==> Guarded(events)
  {
    EmptyIsIndexed();
    if events != [] {
      var init := events[..|events| - 1];
      RunExact(init);
      if AlwaysIndexed(init) {
        StepExact(Run(EMPTY_STATE, init), events[|events| - 1]);
      }
    }
  }

  const MINT := Transfer(ZERO_ADDRESS, "a", "1")

  lemma MintRuns()
    ensures Run(EMPTY_STATE, [MINT]) == TransferState(EMPTY_STATE, ZERO_ADDRESS, "a", "1")
    ensures Happens([MINT]) && Run(EMPTY_STATE, [MINT]).punks == map["1" := "a"]
  {
    assert [MINT][..0] == [];
    assert Run(EMPTY_STATE, []) == EMPTY_STATE;
    TransferView(EMPTY_STATE, ZERO_ADDRESS, "a", "1", "a", "a");
  }

  /** ERC-721 allows an owner to transfer a punk to itself; the index then lists the punk twice. */
  lemma SelfTransferBreaks()
    ensures Happens([MINT, Transfer("a", "a", "1")]) && !AlwaysIndexed([MINT, Transfer("a", "a", "1")])
  {
    var run := [MINT, Transfer("a", "a", "1")];
    assert run[..1] == [MINT];
    assert |ZERO_ADDRESS| == 42;
    MintRuns();
    RunExact(run);
  }

  /** An account may delegate before it holds anything; the index then records a delegate without a balance. */
  lemma EarlyDelegationBreaks()
    ensures Happens([DelegateChanged("b", "b", "c")]) && !AlwaysIndexed([DelegateChanged("b", "b", "c")])
  {
    var run := [DelegateChanged("b", "b", "c")];
    assert run[..0] == [];
    assert Run(EMPTY_STATE, []) == EMPTY_STATE;
    RunExact(run);
  }
}
