/** `n-erc-721.ts`: the index of holders, delegates and counters kept from the NToken events. */
module NErc721 {
  import opened Collections
  import opened Options

  const ZERO_ADDRESS := "0x0000000000000000000000000000000000000000"

  /** The token part of an `Account` entity. */
  datatype Account = Account(delegate: Option<string>, tokenBalanceRaw: int, totalTokensHeldRaw: int, punks: seq<string>)

  /** The token part of a `Delegate` entity. */
  datatype Delegate = Delegate(delegatedVotesRaw: int, tokenHoldersRepresentedAmount: int, punksRepresented: seq<string>)

  datatype Governance = Governance(totalTokenHolders: int, currentTokenHolders: int, currentDelegates: int,
                                   totalDelegates: int, delegatedVotesRaw: int)

  const NEW_ACCOUNT := Account(None, 0, 0, [])
  const NEW_DELEGATE := Delegate(0, 0, [])

  /** The stored entities; `punks` maps a punk to its owner. */
  datatype State = State(accounts: map<string, Account>, delegates: map<string, Delegate>, punks: map<string, string>,
                         governance: Governance) {
    /** The account as `getOrCreateAccount` returns it. */
    function AccountOf(id: string): Account {
      if id in accounts then accounts[id] else NEW_ACCOUNT
    }

    function DelegateOf(id: string): Delegate {
      if id in delegates then delegates[id] else NEW_DELEGATE
    }

    function SaveAccount(id: string, a: Account): State {
      this.(accounts := accounts[id := a])
    }

    function SaveDelegate(id: string, d: Delegate): State {
      this.(delegates := delegates[id := d])
    }

    function SaveGovernance(g: Governance): State {
      this.(governance := g)
    }

    /** `getOrCreateAccount(id)`: a missing account is created and saved. */
    function TouchAccount(id: string): State {
      SaveAccount(id, AccountOf(id))
    }

    /** `getOrCreateDelegate(id)`: a missing delegate is created, counted and saved. */
    function TouchDelegate(id: string): State {
      var s := SaveDelegate(id, DelegateOf(id));
      if id in delegates || id == ZERO_ADDRESS then s
      else s.SaveGovernance(governance.(totalDelegates := governance.totalDelegates + 1))
    }
  }

  const EMPTY_STATE := State(map[], map[], map[], Governance(0, 0, 0, 0, 0))

  // ---------- the handlers as functions of the stored state ----------

  /** The sender's account after losing punk `p`: with its last punk it also loses its delegate. */
  function Sent(a: Account, p: string): Account {
    var sent := a.(tokenBalanceRaw := a.tokenBalanceRaw - 1, punks := Without(a.punks, {p}));
    if sent.tokenBalanceRaw == 0 && a.tokenBalanceRaw > 0 then sent.(delegate := None) else sent
  }

  /** The receiver's account after gaining punk `p`: with its first punk it becomes its own delegate. */
  function Received(b: Account, to: string, p: string): Account {
    var received := b.(tokenBalanceRaw := b.tokenBalanceRaw + 1, totalTokensHeldRaw := b.totalTokensHeldRaw + 1,
                       punks := b.punks + [p]);
    if received.tokenBalanceRaw > 0 && b.tokenBalanceRaw == 0 then received.(delegate := Some(to)) else received
  }

  /** The sender's half of `handleTransfer`; `g` is the governance entity loaded before it.
      A balance that went down cannot have risen above zero, so the source's second counter branch never runs;
      nor does the receiver's first one. */
  function SendState(s: State, g: Governance, from: string, p: string): (State, Governance) {
    if from == ZERO_ADDRESS then
      var g' := g.(totalTokenHolders := g.totalTokenHolders + 1);
      (s.SaveGovernance(g'), g')
    else
      var a := s.AccountOf(from);
      var s1 :=
        if a.delegate == None then s
        else
          var d := a.delegate.value;
          s.TouchDelegate(d)
          .SaveDelegate(d, s.DelegateOf(d).(punksRepresented := Without(s.DelegateOf(d).punksRepresented, {p})));
      if a.tokenBalanceRaw == 1 then
        var g' := g.(currentTokenHolders := g.currentTokenHolders - 1);
        (s1.SaveGovernance(g').SaveAccount(from, Sent(a, p)), g')
      else (s1.SaveAccount(from, Sent(a, p)), g)
  }

  /** The receiver's half; `b` is the receiver's account as loaded before the sender's half. */
  function ReceiveState(s: State, g: Governance, b: Account, to: string, p: string): State {
    var g1 := if to == ZERO_ADDRESS then g.(totalTokenHolders := g.totalTokenHolders - 1) else g;
    var s1 := if to == ZERO_ADDRESS then s.SaveGovernance(g1) else s;
    var d := if b.delegate.Some? then b.delegate.value else to;
    var s2 := s1.TouchDelegate(d)
              .SaveDelegate(d, s1.DelegateOf(d).(punksRepresented := s1.DelegateOf(d).punksRepresented + [p]));
    var s3 := if b.tokenBalanceRaw == 0 then s2.SaveGovernance(g1.(currentTokenHolders := g1.currentTokenHolders + 1))
              else s2;
    s3.(punks := s.punks[p := to]).SaveAccount(to, Received(b, to, p))
  }

  function TransferState(s: State, from: string, to: string, p: string): State {
    var loaded := s.TouchAccount(from).TouchAccount(to);
    var (sent, g) := SendState(loaded, s.governance, from, p);
    ReceiveState(sent, g, s.AccountOf(to), to, p)
  }

  /** The previous delegate without the holder's punks. */
  function Released(d: Delegate, punks: seq<string>): Delegate {
    d.(tokenHoldersRepresentedAmount := d.tokenHoldersRepresentedAmount - 1,
       punksRepresented := Without(d.punksRepresented, set p | p in punks))
  }

  /** The new delegate with them. */
  function Entrusted(d: Delegate, punks: seq<string>): Delegate {
    d.(tokenHoldersRepresentedAmount := d.tokenHoldersRepresentedAmount + 1,
       punksRepresented := d.punksRepresented + punks)
  }

  /** Both delegates are loaded before either is saved; the new one is saved last. */
  function DelegateState(s: State, delegator: string, from: string, to: string): State {
    var holder := s.AccountOf(delegator);
    s.TouchAccount(delegator).TouchDelegate(from).TouchDelegate(to)
    .SaveAccount(delegator, holder.(delegate := Some(to)))
    .SaveDelegate(from, Released(s.DelegateOf(from), holder.punks))
    .SaveDelegate(to, Entrusted(s.DelegateOf(to), holder.punks))
  }

  function VotesState(s: State, delegate: string, previousBalance: nat, newBalance: nat): State {
    var g := s.governance;
    var s1 := s.TouchDelegate(delegate).SaveDelegate(delegate, s.DelegateOf(delegate).(delegatedVotesRaw := newBalance));
    var up := if previousBalance == 0 && newBalance > 0 then 1 else 0;
    var down := if newBalance == 0 then 1 else 0;
    s1.SaveGovernance(g.(currentDelegates := g.currentDelegates + up - down,
                         delegatedVotesRaw := g.delegatedVotesRaw + newBalance - previousBalance))
  }

  // ---------- the handlers themselves ----------

  class Store {
    var accounts: map<string, Account>
    var delegates: map<string, Delegate>
    var punks: map<string, string>
    var governance: Governance

    ghost function Snapshot(): State
      reads this
    {
      State(accounts, delegates, punks, governance)
    }

    constructor ()
      ensures Snapshot() == EMPTY_STATE
    {
      accounts, delegates, punks, governance := map[], map[], map[], Governance(0, 0, 0, 0, 0);
    }

    method GetOrCreateAccount(id: string) returns (a: Account)
      modifies this
      ensures a == old(Snapshot()).AccountOf(id) && Snapshot() == old(Snapshot()).TouchAccount(id)
    {
      if id !in accounts {
        accounts := accounts[id := NEW_ACCOUNT];
      }
      a := accounts[id];
      assert accounts == old(accounts)[id := a];
    }

    method GetOrCreateDelegate(id: string) returns (d: Delegate)
      modifies this
      ensures d == old(Snapshot()).DelegateOf(id) && Snapshot() == old(Snapshot()).TouchDelegate(id)
    {
      if id !in delegates {
        if id != ZERO_ADDRESS {
          governance := governance.(totalDelegates := governance.totalDelegates + 1);
        }
        delegates := delegates[id := NEW_DELEGATE];
      }
      d := delegates[id];
      assert delegates == old(delegates)[id := d];
    }

    method UpdateSender(from: string, holder: Account, governanceCopy: Governance, tokenId: string) returns (g: Governance)
      requires holder == Snapshot().AccountOf(from)
      modifies this
      ensures (Snapshot(), g) == SendState(old(Snapshot()), governanceCopy, from, tokenId)
    {
      g := governanceCopy;
      if from == ZERO_ADDRESS {
        g := g.(totalTokenHolders := g.totalTokenHolders + 1);
        governance := g;
      } else {
        var previousBalance := holder.tokenBalanceRaw;
        var fromHolder := holder.(tokenBalanceRaw := previousBalance - 1, punks := Without(holder.punks, {tokenId}));
        if fromHolder.delegate.Some? {
          var fromDelegate := GetOrCreateDelegate(fromHolder.delegate.value);
          fromDelegate := fromDelegate.(punksRepresented := Without(fromDelegate.punksRepresented, {tokenId}));
          delegates := delegates[fromHolder.delegate.value := fromDelegate];
        }
        if fromHolder.tokenBalanceRaw == 0 && previousBalance > 0 {
          g := g.(currentTokenHolders := g.currentTokenHolders - 1);
          governance := g;
          fromHolder := fromHolder.(delegate := None);
        }
        accounts := accounts[from := fromHolder];
      }
    }

    method UpdateReceiver(to: string, holder: Account, governanceCopy: Governance, tokenId: string)
      modifies this
      ensures Snapshot() == ReceiveState(old(Snapshot()), governanceCopy, holder, to, tokenId)
    {
      var g := governanceCopy;
      if to == ZERO_ADDRESS {
        g := g.(totalTokenHolders := g.totalTokenHolders - 1);
        governance := g;
      }
      var d := if holder.delegate.Some? then holder.delegate.value else to;
      var toDelegate := GetOrCreateDelegate(d);
      toDelegate := toDelegate.(punksRepresented := toDelegate.punksRepresented + [tokenId]);
      delegates := delegates[d := toDelegate];

      var previousBalance := holder.tokenBalanceRaw;
      var toHolder := holder.(tokenBalanceRaw := previousBalance + 1, totalTokensHeldRaw := holder.totalTokensHeldRaw + 1,
                              punks := holder.punks + [tokenId]);
      if toHolder.tokenBalanceRaw > 0 && previousBalance == 0 {
        g := g.(currentTokenHolders := g.currentTokenHolders + 1);
        governance := g;
        toHolder := toHolder.(delegate := Some(to));
      }
      punks := punks[tokenId := to];
      accounts := accounts[to := toHolder];
    }

    /** Both parties and the governance entity are loaded before either half runs. */
    method HandleTransfer(from: string, to: string, tokenId: string)
      modifies this
      ensures Snapshot() == TransferState(old(Snapshot()), from, to, tokenId)
    {
      var fromHolder := GetOrCreateAccount(from);
      var toHolder := GetOrCreateAccount(to);
      var g := UpdateSender(from, fromHolder, governance, tokenId);
      UpdateReceiver(to, toHolder, g, tokenId);
    }

    method HandleDelegateChanged(delegator: string, fromDelegate: string, toDelegate: string)
      modifies this
      ensures Snapshot() == DelegateState(old(Snapshot()), delegator, fromDelegate, toDelegate)
    {
      var tokenHolder := GetOrCreateAccount(delegator);
      var previousDelegate := GetOrCreateDelegate(fromDelegate);
      var newDelegate := GetOrCreateDelegate(toDelegate);
      var accountPunks := tokenHolder.punks;
      accounts := accounts[delegator := tokenHolder.(delegate := Some(toDelegate))];

      var newPunksRepresented := PushAll(newDelegate.punksRepresented, accountPunks);
      newDelegate := newDelegate.(
        tokenHoldersRepresentedAmount := newDelegate.tokenHoldersRepresentedAmount + 1,
        punksRepresented := newPunksRepresented);
      delegates := delegates[fromDelegate := Released(previousDelegate, accountPunks)];
      delegates := delegates[toDelegate := newDelegate];
    }

    static method PushAll(list: seq<string>, items: seq<string>) returns (r: seq<string>)
      ensures r == list + items
    {
      r := list;
      for i := 0 to |items|
        invariant r == list + items[..i]
      {
        r := r + [items[i]];
      }
    }

    method HandleDelegateVotesChanged(delegate: string, previousBalance: nat, newBalance: nat)
      modifies this
      ensures Snapshot() == VotesState(old(Snapshot()), delegate, previousBalance, newBalance)
    {
      var g := governance;
      var d := GetOrCreateDelegate(delegate);
      var votesDifference := newBalance - previousBalance;
      delegates := delegates[delegate := d.(delegatedVotesRaw := newBalance)];
      if previousBalance == 0 && newBalance > 0 {
        g := g.(currentDelegates := g.currentDelegates + 1);
      }
      if newBalance == 0 {
        g := g.(currentDelegates := g.currentDelegates - 1);
      }
      g := g.(delegatedVotesRaw := g.delegatedVotesRaw + votesDifference);
      governance := g;
    }
  }
}
