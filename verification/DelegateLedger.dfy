/** The delegates the index stores, against those the token contract itself keeps. */
module DelegateLedger {
  import opened Collections
  import opened Options
  import opened NErc721
  import opened NErc721Index

  /** The contract's record of delegations: an account that never delegated, or delegated to nobody, represents itself. */
  function Delegates(l: map<string, string>, id: string): string {
    if id in l && l[id] != ZERO_ADDRESS then l[id] else id
  }

  function LedgerStep(l: map<string, string>, e: Event): map<string, string> {
    if e.DelegateChanged? then l[e.delegator := e.toDelegate] else l
  }

  /** What the contract guarantees of its events: transfers by owners, and delegations that name the delegate they end. */
  ghost predicate Emitted(s: State, l: map<string, string>, e: Event) {
    match e
    case Transfer(from, to, p) => TransferHappens(s, from, to, p)
    case DelegateChanged(delegator, from, _) => delegator != ZERO_ADDRESS && from == Delegates(l, delegator)
    case DelegateVotesChanged(_, _, _) => true
  }

  /** Whoever the index says a holder has delegated to, the contract says so too. */
  ghost predicate Follows(s: State, l: map<string, string>) {
    forall id :: s.AccountOf(id).delegate.Some? ==> s.AccountOf(id).delegate.value == Delegates(l, id)
  }

  /** Two parties, and a receiver that holds punks already or represents itself; a holder that turns to another account;
      votes that start from the stored ones. */
  ghost predicate FollowGuard(s: State, l: map<string, string>, e: Event) {
    match e
    case Transfer(from, to, _) =>
      (from != to || from == ZERO_ADDRESS) && (s.AccountOf(to).tokenBalanceRaw > 0 || Delegates(l, to) == to)
    case DelegateChanged(delegator, from, to) => s.AccountOf(delegator).tokenBalanceRaw > 0 && from != to && to != ZERO_ADDRESS
    case DelegateVotesChanged(d, previous, new') => VotesGuard(s, d, previous, new')
  }

  lemma DelegateAfter(s: State, from: string, to: string, p: string, id: string)
    requires s.AccountOf(to).tokenBalanceRaw >= 0 && (from != to || from == ZERO_ADDRESS)
    ensures TransferState(s, from, to, p).AccountOf(id).delegate
         == if id == to then (if s.AccountOf(to).tokenBalanceRaw == 0 then Some(to) else s.AccountOf(to).delegate)
            else if id == from && from != ZERO_ADDRESS && s.AccountOf(from).tokenBalanceRaw == 1 then None
            else s.AccountOf(id).delegate
  {
    TransferView(s, from, to, p, id, "");
  }

  lemma TransferFollows(s: State, l: map<string, string>, from: string, to: string, p: string)
    requires Follows(s, l) && (from != to || from == ZERO_ADDRESS) && s.AccountOf(to).tokenBalanceRaw >= 0
    ensures Follows(TransferState(s, from, to, p), l) <==> s.AccountOf(to).tokenBalanceRaw > 0 || Delegates(l, to) == to
  {
    DelegateAfter(s, from, to, p, to);
    forall id | id != to && TransferState(s, from, to, p).AccountOf(id).delegate.Some?
      ensures TransferState(s, from, to, p).AccountOf(id).delegate == s.AccountOf(id).delegate
    {
      DelegateAfter(s, from, to, p, id);
    }
  }

  lemma DelegationFollows(s: State, l: map<string, string>, delegator: string, from: string, to: string)
    requires Follows(s, l) && delegator != ZERO_ADDRESS
    ensures Follows(DelegateState(s, delegator, from, to), l[delegator := to]) <==> to != ZERO_ADDRESS
  {
    var s' := DelegateState(s, delegator, from, to);
    DelegateView(s, delegator, from, to, delegator, "");
    forall id | id != delegator ensures s'.AccountOf(id) == s.AccountOf(id) {
      DelegateView(s, delegator, from, to, id, "");
    }
  }

  lemma VotesFollow(s: State, l: map<string, string>, delegate: string, previousBalance: nat, newBalance: nat)
    requires Follows(s, l)
    ensures Follows(VotesState(s, delegate, previousBalance, newBalance), l)
  {
    VotesView(s, delegate, previousBalance, newBalance, "");
    forall id ensures VotesState(s, delegate, previousBalance, newBalance).AccountOf(id) == s.AccountOf(id) {}
  }

  /** An event the contract emits keeps the index right and its delegates those of the contract exactly under the guard. */
  lemma FollowExact(s: State, l: map<string, string>, e: Event)
    requires Indexed(s) && Follows(s, l) && Emitted(s, l, e)
    ensures Indexed(Step(s, e)) && Follows(Step(s, e), LedgerStep(l, e)) <==> FollowGuard(s, l, e)
  {
    StepExact(s, e);
    match e
    case Transfer(from, to, p) =>
      assert s.AccountOf(to).tokenBalanceRaw == |s.AccountOf(to).punks|;
      if from != to || from == ZERO_ADDRESS { TransferFollows(s, l, from, to, p); }
    case DelegateChanged(delegator, from, to) => DelegationFollows(s, l, delegator, from, to);
    case DelegateVotesChanged(d, previous, new') => VotesFollow(s, l, d, previous, new');
  }

  // ---------- whole runs ----------

  function LedgerRun(events: seq<Event>): map<string, string> {
    if events == [] then map[] else LedgerStep(LedgerRun(events[..|events| - 1]), events[|events| - 1])
  }

  ghost predicate EmittedRun(events: seq<Event>) {
    events == []
    || (var init := events[..|events| - 1];
        EmittedRun(init) && Emitted(Run(EMPTY_STATE, init), LedgerRun(init), events[|events| - 1]))
  }

  ghost predicate AlwaysFollows(events: seq<Event>) {
    Indexed(Run(EMPTY_STATE, events)) && Follows(Run(EMPTY_STATE, events), LedgerRun(events))
    && (events == [] || AlwaysFollows(events[..|events| - 1]))
  }

  ghost predicate FollowGuarded(events: seq<Event>) {
    events == []
    || (var init := events[..|events| - 1];
        FollowGuarded(init) && FollowGuard(Run(EMPTY_STATE, init), LedgerRun(init), events[|events| - 1]))
  }

  /** Over a whole run of the contract, the index is right and follows the contract's delegates after every event exactly
      if every event met its guard. */
  lemma {:induction false} RunFollowsExact(events: seq<Event>)
    requires EmittedRun(events)
    ensures AlwaysFollows(events) <==> FollowGuarded(events)
  {
    EmptyIsIndexed();
    if events != [] {
      var init := events[..|events| - 1];
      RunFollowsExact(init);
      if AlwaysFollows(init) {
        FollowExact(Run(EMPTY_STATE, init), LedgerRun(init), events[|events| - 1]);
      }
    }
  }

  lemma RunSnoc(events: seq<Event>, e: Event)
    ensures Run(EMPTY_STATE, events + [e]) == Step(Run(EMPTY_STATE, events), e)
    ensures LedgerRun(events + [e]) == LedgerStep(LedgerRun(events), e)
    ensures EmittedRun(events + [e]) <==> EmittedRun(events) && Emitted(Run(EMPTY_STATE, events), LedgerRun(events), e)
    ensures FollowGuarded(events + [e])
       <==> FollowGuarded(events) && FollowGuard(Run(EMPTY_STATE, events), LedgerRun(events), e)
    ensures Guarded(events + [e]) <==> Guarded(events) && Guard(Run(EMPTY_STATE, events), e)
  {
    assert (events + [e])[..|events|] == events;
  }

  const DELEGATION := DelegateChanged("a", "a", "b")
  const DEPARTURE := Transfer("a", "c", "1")
  const RETURN := Transfer(ZERO_ADDRESS, "a", "2")

  lemma AfterMint()
    ensures EmittedRun([MINT]) && Guarded([MINT])
    ensures Run(EMPTY_STATE, [MINT]).AccountOf("a") == Account(Some("a"), 1, 1, ["1"])
    ensures Run(EMPTY_STATE, [MINT]).punks == map["1" := "a"] && LedgerRun([MINT]) == map[]
  {
    assert [] + [MINT] == [MINT];
    RunSnoc([], MINT);
    TransferView(EMPTY_STATE, ZERO_ADDRESS, "a", "1", "a", "");
    assert |ZERO_ADDRESS| == 42;
  }

  lemma AfterDelegation()
    ensures EmittedRun([MINT, DELEGATION]) && Guarded([MINT, DELEGATION])
    ensures Run(EMPTY_STATE, [MINT, DELEGATION]).AccountOf("a") == Account(Some("b"), 1, 1, ["1"])
    ensures Run(EMPTY_STATE, [MINT, DELEGATION]).punks == map["1" := "a"]
    ensures LedgerRun([MINT, DELEGATION]) == map["a" := "b"]
  {
    AfterMint();
    assert [MINT] + [DELEGATION] == [MINT, DELEGATION];
    RunSnoc([MINT], DELEGATION);
    DelegateView(Run(EMPTY_STATE, [MINT]), "a", "a", "b", "a", "");
    assert |ZERO_ADDRESS| == 42;
  }

  lemma SenderBalance(s: State, from: string, to: string, p: string)
    requires from != to && from != ZERO_ADDRESS
    ensures TransferState(s, from, to, p).AccountOf(from).tokenBalanceRaw == s.AccountOf(from).tokenBalanceRaw - 1
    ensures TransferState(s, from, to, p).punks == s.punks[p := to]
  {
    TransferView(s, from, to, p, from, "");
  }

  lemma Departs(s: State)
    requires s.AccountOf("a").tokenBalanceRaw == 1 && s.punks == map["1" := "a"]
    ensures Step(s, DEPARTURE).AccountOf("a").tokenBalanceRaw == 0 && Step(s, DEPARTURE).punks == map["1" := "c"]
  {
    assert |ZERO_ADDRESS| == 42;
    SenderBalance(s, "a", "c", "1");
  }

  lemma DepartureHappens(s: State, l: map<string, string>)
    requires s.punks == map["1" := "a"]
    ensures Emitted(s, l, DEPARTURE) && Guard(s, DEPARTURE) && LedgerStep(l, DEPARTURE) == l
  {
    assert |ZERO_ADDRESS| == 42;
  }

  lemma AfterDeparture(init: seq<Event>)
    requires init == [MINT, DELEGATION]
    ensures var run := init + [DEPARTURE];
            && EmittedRun(run) && Guarded(run) && LedgerRun(run) == map["a" := "b"]
            && Run(EMPTY_STATE, run).AccountOf("a").tokenBalanceRaw == 0
            && Run(EMPTY_STATE, run).punks == map["1" := "c"]
  {
    AfterDelegation();
    RunSnoc(init, DEPARTURE);
    DepartureHappens(Run(EMPTY_STATE, init), LedgerRun(init));
    Departs(Run(EMPTY_STATE, init));
  }

  lemma ReturnsTooLate(s: State, l: map<string, string>)
    requires s.AccountOf("a").tokenBalanceRaw == 0 && s.punks == map["1" := "c"] && l == map["a" := "b"]
    ensures Emitted(s, l, RETURN) && Guard(s, RETURN) && !FollowGuard(s, l, RETURN)
  {
    assert |ZERO_ADDRESS| == 42;
  }

  /** A holder delegates to b, sends its only punk away and gets another: the index makes it its own delegate again,
      while for the contract it is still b. */
  lemma ReturningHolderIsReset(init: seq<Event>, run: seq<Event>)
    requires init == [MINT, DELEGATION] && run == init + [DEPARTURE] + [RETURN]
    ensures EmittedRun(run) && Guarded(run) && !AlwaysFollows(run)
  {
    var before := init + [DEPARTURE];
    AfterDeparture(init);
    RunSnoc(before, RETURN);
    ReturnsTooLate(Run(EMPTY_STATE, before), LedgerRun(before));
    RunFollowsExact(run);
  }
}
