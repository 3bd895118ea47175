/** What the stored entities say of a whole run of NToken events, told from the events alone. */
module NErc721History {
  import opened Collections
  import opened Options
  import opened NErc721
  import opened NErc721Index

  // ---------- what an event leaves of each entity ----------

  lemma TransferAmounts(s: State, from: string, to: string, p: string, id: string, d: string)
    ensures var s' := TransferState(s, from, to, p);
            && s'.AccountOf(id).totalTokensHeldRaw == s.AccountOf(id).totalTokensHeldRaw + (if id == to then 1 else 0)
            && s'.DelegateOf(d).tokenHoldersRepresentedAmount == s.DelegateOf(d).tokenHoldersRepresentedAmount
            && s'.DelegateOf(d).delegatedVotesRaw == s.DelegateOf(d).delegatedVotesRaw
            && s'.punks == s.punks[p := to]
  {
    TransferView(s, from, to, p, id, d);
  }

  lemma DelegationAmounts(s: State, delegator: string, from: string, to: string, id: string, d: string)
    ensures var s' := DelegateState(s, delegator, from, to);
            && s'.AccountOf(id).totalTokensHeldRaw == s.AccountOf(id).totalTokensHeldRaw
            && s'.AccountOf(id).punks == s.AccountOf(id).punks
            && s'.DelegateOf(d).tokenHoldersRepresentedAmount
               == s.DelegateOf(d).tokenHoldersRepresentedAmount + (if d == to then 1 else if d == from then -1 else 0)
            && s'.DelegateOf(d).delegatedVotesRaw == s.DelegateOf(d).delegatedVotesRaw
            && s'.punks == s.punks
  {
    DelegateView(s, delegator, from, to, id, d);
  }

  lemma VotesAmounts(s: State, delegate: string, previousBalance: nat, newBalance: nat, id: string, d: string)
    ensures var s' := VotesState(s, delegate, previousBalance, newBalance);
            && s'.AccountOf(id) == s.AccountOf(id)
            && s'.DelegateOf(d).tokenHoldersRepresentedAmount == s.DelegateOf(d).tokenHoldersRepresentedAmount
            && s'.DelegateOf(d).delegatedVotesRaw == (if d == delegate then newBalance else s.DelegateOf(d).delegatedVotesRaw)
            && s'.punks == s.punks
  {
    VotesView(s, delegate, previousBalance, newBalance, d);
  }

  // ---------- the same told from the events ----------

  /** How many punks the account has received, burnt ones at the zero address included. */
  function Arrivals(events: seq<Event>, id: string): nat {
    if events == [] then 0
    else
      var e := events[|events| - 1];
      Arrivals(events[..|events| - 1], id) + if e.Transfer? && e.to == id then 1 else 0
  }

  /** Delegations to the account less those away from it; one that names it twice counts as one to it. */
  function NetDelegations(events: seq<Event>, d: string): int {
    if events == [] then 0
    else
      var e := events[|events| - 1];
      NetDelegations(events[..|events| - 1], d)
      + if !e.DelegateChanged? then 0 else if e.toDelegate == d then 1 else if e.fromDelegate == d then -1 else 0
  }

  /** The balance that the last vote change gave the delegate. */
  function LastVotes(events: seq<Event>, d: string): nat {
    if events == [] then 0
    else
      var e := events[|events| - 1];
      if e.DelegateVotesChanged? && e.delegate == d then e.newBalance else LastVotes(events[..|events| - 1], d)
  }

  /** Where the last transfer took the punk. */
  function LastOwner(events: seq<Event>, p: string): Option<string> {
    if events == [] then None
    else
      var e := events[|events| - 1];
      if e.Transfer? && e.tokenId == p then Some(e.to) else LastOwner(events[..|events| - 1], p)
  }

  /** After any run at all: every account has held as many punks as it received, every delegate has the net number of
      delegations and the votes last reported, and every punk is where its last transfer took it. */
  lemma {:induction false} RunAmounts(events: seq<Event>, id: string, p: string)
    ensures var s := Run(EMPTY_STATE, events);
            && s.AccountOf(id).totalTokensHeldRaw == Arrivals(events, id)
            && s.DelegateOf(id).tokenHoldersRepresentedAmount == NetDelegations(events, id)
            && s.DelegateOf(id).delegatedVotesRaw == LastVotes(events, id)
            && LastOwner(events, p) == if p in s.punks then Some(s.punks[p]) else None
  {
    if events != [] {
      var s := Run(EMPTY_STATE, events[..|events| - 1]);
      RunAmounts(events[..|events| - 1], id, p);
      match events[|events| - 1]
      case Transfer(from, to, q) => TransferAmounts(s, from, to, q, id, id);
      case DelegateChanged(delegator, from, to) => DelegationAmounts(s, delegator, from, to, id, id);
      case DelegateVotesChanged(d, previous, new') => VotesAmounts(s, d, previous, new', id, id);
    }
  }

  /** The punks an account holds, in the order in which they last came to it. */
  function Held(events: seq<Event>, id: string): seq<string> {
    if events == [] then []
    else
      var held, e := Held(events[..|events| - 1], id), events[|events| - 1];
      if !e.Transfer? then held else Without(held, {e.tokenId}) + if e.to == id then [e.tokenId] else []
  }

  lemma TransferHeld(s: State, from: string, to: string, p: string, id: string)
    requires OwnersIndexed(s) && TransferHappens(s, from, to, p) && (from != to || from == ZERO_ADDRESS)
    ensures TransferState(s, from, to, p).AccountOf(id).punks
         == Without(s.AccountOf(id).punks, {p}) + if to == id then [p] else []
  {
    TransferView(s, from, to, p, id, "");
    if id != from || from == ZERO_ADDRESS {
      assert p !in s.AccountOf(id).punks;
      WithoutNone(s.AccountOf(id).punks, {p});
    }
  }

  /** Over every run that keeps the index, each account lists its punks in the order in which they came to it. */
  lemma {:induction false} RunHeld(events: seq<Event>, id: string)
    requires Happens(events) && Guarded(events)
    ensures Run(EMPTY_STATE, events).AccountOf(id).punks == Held(events, id)
  {
    if events != [] {
      var init := events[..|events| - 1];
      var s := Run(EMPTY_STATE, init);
      RunHeld(init, id);
      RunExact(init);
      match events[|events| - 1]
      case Transfer(from, to, p) => TransferHeld(s, from, to, p, id);
      case DelegateChanged(delegator, from, to) => DelegationAmounts(s, delegator, from, to, id, id);
      case DelegateVotesChanged(d, previous, new') => VotesAmounts(s, d, previous, new', id, id);
    }
  }
}
