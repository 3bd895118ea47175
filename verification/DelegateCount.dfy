/** `totalDelegates`, the one NToken counter that a stale copy can overwrite, and exactly when it is right. */
module DelegateCount {
  import opened Collections
  import opened Options
  import opened NErc721
  import opened NErc721Index

  /** The delegates to be counted: all but the zero address. */
  ghost function Countable(ids: set<string>): set<string> {
    ids - {ZERO_ADDRESS}
  }

  /** `totalDelegates` is the number of delegate entities, the zero address aside. */
  ghost predicate DelegatesCounted(s: State) {
    s.governance.totalDelegates == |Countable(s.delegates.Keys)|
  }

  /** The event creates no delegate whose counting a stale governance entity overwrites. */
  ghost predicate CountGuard(s: State, e: Event) {
    match e
    case Transfer(_, to, _) => s.AccountOf(to).delegate.Some? || to in s.delegates || to == ZERO_ADDRESS
    case DelegateChanged(_, _, _) => true
    case DelegateVotesChanged(d, _, _) => d in s.delegates || d == ZERO_ADDRESS
  }

  lemma OneMoreId(ids: set<string>, d: string)
    ensures |Countable(ids + {d})| == |Countable(ids)| + if d in ids || d == ZERO_ADDRESS then 0 else 1
  {
    if d in ids || d == ZERO_ADDRESS {
      assert Countable(ids + {d}) == Countable(ids);
    } else {
      assert Countable(ids + {d}) == Countable(ids) + {d};
    }
  }

  lemma KeysOfUpdate<V>(m: map<string, V>, k: string, v: V)
    ensures m[k := v].Keys == m.Keys + {k}
  {
  }

  // ---------- which delegates an event creates ----------

  lemma TouchKeys(s: State, d: string)
    ensures s.TouchDelegate(d).delegates.Keys == s.delegates.Keys + {d}
    ensures s.TouchDelegate(d).governance.totalDelegates
         == s.governance.totalDelegates + if d in s.delegates || d == ZERO_ADDRESS then 0 else 1
  {
    KeysOfUpdate(s.delegates, d, s.DelegateOf(d));
  }

  /** `getOrCreateDelegate` counts what it creates. */
  lemma TouchCounts(s: State, d: string)
    requires DelegatesCounted(s)
    ensures DelegatesCounted(s.TouchDelegate(d))
  {
    TouchKeys(s, d);
    OneMoreId(s.delegates.Keys, d);
  }

  lemma SendKeys(s: State, g: Governance, from: string, p: string)
    ensures SendState(s, g, from, p).0.delegates.Keys
         == s.delegates.Keys + if from != ZERO_ADDRESS && s.AccountOf(from).delegate.Some? then {s.AccountOf(from).delegate.value} else {}
  {
  }

  lemma ReceiveKeys(s: State, g: Governance, b: Account, to: string, p: string)
    ensures ReceiveState(s, g, b, to, p).delegates.Keys == s.delegates.Keys + {if b.delegate.Some? then b.delegate.value else to}
  {
  }

  ghost function Sender(s: State, from: string): set<string> {
    if from != ZERO_ADDRESS && s.AccountOf(from).delegate.Some? then {s.AccountOf(from).delegate.value} else {}
  }

  ghost function Receiver(s: State, to: string): string {
    if s.AccountOf(to).delegate.Some? then s.AccountOf(to).delegate.value else to
  }

  lemma TransferKeys(s: State, from: string, to: string, p: string)
    ensures TransferState(s, from, to, p).delegates.Keys == s.delegates.Keys + Sender(s, from) + {Receiver(s, to)}
  {
    var loaded := s.TouchAccount(from).TouchAccount(to);
    var (sent, g) := SendState(loaded, s.governance, from, p);
    SendKeys(loaded, s.governance, from, p);
    ReceiveKeys(sent, g, s.AccountOf(to), to, p);
  }

  /** In an indexed state, an account's delegate lists a punk and so is stored. */
  lemma HoldersDelegateIsStored(s: State, id: string)
    requires Indexed(s) && s.AccountOf(id).delegate.Some?
    ensures s.AccountOf(id).delegate.value in s.delegates
  {
    var p := s.AccountOf(id).punks[0];
    assert p in s.AccountOf(id).punks;
    assert s.punks[p] == id;
    assert p in s.DelegateOf(s.AccountOf(id).delegate.value).punksRepresented;
  }

  lemma SenderIsStored(s: State, from: string)
    requires Indexed(s)
    ensures Sender(s, from) <= s.delegates.Keys
  {
    if s.AccountOf(from).delegate.Some? { HoldersDelegateIsStored(s, from); }
  }

  lemma Absorb(ids: set<string>, known: set<string>, d: string)
    requires known <= ids
    ensures ids + known + {d} == ids + {d}
  {
  }

  lemma ReceiverIsGuarded(s: State, to: string)
    requires Indexed(s)
    ensures Receiver(s, to) in s.delegates || Receiver(s, to) == ZERO_ADDRESS
       <==> s.AccountOf(to).delegate.Some? || to in s.delegates || to == ZERO_ADDRESS
  {
    if s.AccountOf(to).delegate.Some? { HoldersDelegateIsStored(s, to); }
  }

  // ---------- event by event ----------

  /** Transfers and vote changes leave `totalDelegates` as it was, even when they create a delegate. */
  lemma TotalDelegatesIsStale(s: State, e: Event)
    requires Indexed(s) && (e.Transfer? ==> TransferHappens(s, e.from, e.to, e.tokenId)) && !e.DelegateChanged?
    ensures Step(s, e).governance.totalDelegates == s.governance.totalDelegates
  {
    match e
    case DelegateVotesChanged(_, _, _) =>
    case Transfer(from, to, p) =>
      var a, b := s.AccountOf(from), s.AccountOf(to);
      if from != ZERO_ADDRESS {
        assert p in a.punks;
        assert p in s.DelegateOf(a.delegate.value).punksRepresented;
      }
      if b.delegate.Some? {
        var q := b.punks[0];
        assert q in b.punks;
        assert s.punks[q] == to;
        assert q in s.DelegateOf(b.delegate.value).punksRepresented;
      }
  }

  /** With the counter unchanged and at most one more delegate, the count stays right exactly if there is none to count. */
  lemma CountStays(s: State, s': State, d: string)
    requires DelegatesCounted(s) && s'.governance.totalDelegates == s.governance.totalDelegates
    requires s'.delegates.Keys == s.delegates.Keys + {d}
    ensures DelegatesCounted(s') <==> d in s.delegates || d == ZERO_ADDRESS
  {
    OneMoreId(s.delegates.Keys, d);
  }

  lemma TransferCountsExact(s: State, from: string, to: string, p: string)
    requires Indexed(s) && TransferHappens(s, from, to, p) && DelegatesCounted(s)
    ensures DelegatesCounted(TransferState(s, from, to, p)) <==> CountGuard(s, Transfer(from, to, p))
  {
    TransferKeys(s, from, to, p);
    SenderIsStored(s, from);
    Absorb(s.delegates.Keys, Sender(s, from), Receiver(s, to));
    ReceiverIsGuarded(s, to);
    TotalDelegatesIsStale(s, Transfer(from, to, p));
    CountStays(s, Step(s, Transfer(from, to, p)), Receiver(s, to));
  }

  lemma DelegationTouches(s: State, delegator: string, from: string, to: string)
    ensures var s' := DelegateState(s, delegator, from, to);
            var touched := s.TouchAccount(delegator).TouchDelegate(from).TouchDelegate(to);
            s'.delegates.Keys == touched.delegates.Keys && s'.governance == touched.governance
  {
  }

  lemma DelegationCounts(s: State, delegator: string, from: string, to: string)
    requires DelegatesCounted(s)
    ensures DelegatesCounted(DelegateState(s, delegator, from, to))
  {
    TouchCounts(s.TouchAccount(delegator), from);
    TouchCounts(s.TouchAccount(delegator).TouchDelegate(from), to);
    DelegationTouches(s, delegator, from, to);
  }

  lemma VotesKeys(s: State, delegate: string, previousBalance: nat, newBalance: nat)
    ensures VotesState(s, delegate, previousBalance, newBalance).delegates.Keys == s.delegates.Keys + {delegate}
    ensures VotesState(s, delegate, previousBalance, newBalance).governance.totalDelegates == s.governance.totalDelegates
  {
  }

  lemma VotesCountsExact(s: State, delegate: string, previousBalance: nat, newBalance: nat)
    requires DelegatesCounted(s)
    ensures DelegatesCounted(VotesState(s, delegate, previousBalance, newBalance))
       <==> delegate in s.delegates || delegate == ZERO_ADDRESS
  {
    VotesKeys(s, delegate, previousBalance, newBalance);
    CountStays(s, VotesState(s, delegate, previousBalance, newBalance), delegate);
  }

  /** In an indexed state, an event keeps the count of delegates exactly under its guard. */
  lemma CountExact(s: State, e: Event)
    requires Indexed(s) && DelegatesCounted(s) && (e.Transfer? ==> TransferHappens(s, e.from, e.to, e.tokenId))
    ensures DelegatesCounted(Step(s, e)) <==> CountGuard(s, e)
  {
    match e
    case Transfer(from, to, p) => TransferCountsExact(s, from, to, p);
    case DelegateChanged(delegator, from, to) => DelegationCounts(s, delegator, from, to);
    case DelegateVotesChanged(d, previous, new') => VotesCountsExact(s, d, previous, new');
  }

  // ---------- whole runs ----------

  ghost predicate AlwaysCounted(events: seq<Event>) {
    DelegatesCounted(Run(EMPTY_STATE, events)) && (events == [] || AlwaysCounted(events[..|events| - 1]))
  }

  ghost predicate CountGuarded(events: seq<Event>) {
    events == []
    || (var init, e := events[..|events| - 1], events[|events| - 1];
        CountGuarded(init) && CountGuard(Run(EMPTY_STATE, init), e))
  }

  lemma NothingToCount()
    ensures DelegatesCounted(EMPTY_STATE)
  {
    assert Countable(EMPTY_STATE.delegates.Keys) == {};
  }

  /** Over a whole run that keeps the index, the delegates are counted after every event exactly if each met its guard. */
  lemma {:induction false} RunCountsExact(events: seq<Event>)
    requires Happens(events) && Guarded(events)
    ensures AlwaysCounted(events) <==> CountGuarded(events)
  {
    if events == [] {
      NothingToCount();
    } else {
      var init := events[..|events| - 1];
      RunCountsExact(init);
      RunExact(init);
      if AlwaysCounted(init) {
        CountExact(Run(EMPTY_STATE, init), events[|events| - 1]);
      }
    }
  }

  /** The first mint keeps the whole index, but its receiver becomes a delegate that is never counted. */
  lemma MintedDelegateIsNotCounted()
    ensures Happens([MINT]) && Guarded([MINT]) && !AlwaysCounted([MINT])
    ensures var s := Run(EMPTY_STATE, [MINT]);
            s.DelegateOf("a").punksRepresented == ["1"] && s.governance.totalDelegates == 0
  {
    MintRuns();
    assert [MINT][..0] == [];
    assert |ZERO_ADDRESS| == 42;
    TransferView(EMPTY_STATE, ZERO_ADDRESS, "a", "1", "a", "a");
    EmptyIsIndexed();
    TotalDelegatesIsStale(EMPTY_STATE, MINT);
    RunCountsExact([MINT]);
  }
}
