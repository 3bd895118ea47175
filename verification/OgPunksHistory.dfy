/** What the stored CryptoPunks entities say of a whole run, told from the events alone. */
module OgPunksHistory {
  import opened Collections
  import opened Options
  import opened NErc721
  import opened OgPunks
  import opened OgPunksIndex

  /** The account that an event gives its punk to, if it does; an unwrapped punk goes back to the wrapper contract. */
  function Taker(e: OGEvent, wrapper: string): Option<string> {
    match e
    case Assign(to, _) => Some(to)
    case PunkTransfer(_, to, _) => Some(to)
    case WrappedTransfer(_, to, _) => Some(if to == ZERO_ADDRESS then wrapper else to)
    case OGDelegateChanged(_, _, _, _) => None
  }

  /** The punks an account holds, in the order in which they last came to it. */
  function HeldOG(events: seq<OGEvent>, wrapper: string, id: string): seq<string> {
    if events == [] then []
    else
      var held, e := HeldOG(events[..|events| - 1], wrapper, id), events[|events| - 1];
      if Taker(e, wrapper) == None then held
      else Without(held, {e.punk}) + if Taker(e, wrapper) == Some(id) then [e.punk] else []
  }

  /** The last account the punk was delegated to since it was assigned. */
  function LastDelegate(events: seq<OGEvent>, i: string): Option<string> {
    if events == [] then None
    else
      var e := events[|events| - 1];
      if e.punk != i || e.PunkTransfer? || e.WrappedTransfer? then LastDelegate(events[..|events| - 1], i)
      else if e.Assign? then None else Some(e.toDelegate)
  }

  lemma MovedHeld(s: OGState, s': OGState, from: string, to: string, i: string, id: string)
    requires Moved(s, s', from, to, i) && (id != from ==> i !in s.HolderOf(id).ogpunks)
    ensures s'.HolderOf(id).ogpunks == Without(s.HolderOf(id).ogpunks, {i}) + if to == id then [i] else []
  {
    if id != from { WithoutNone(s.HolderOf(id).ogpunks, {i}); }
  }

  lemma AssignHeld(s: OGState, l: Ledger, to: string, i: string, id: string)
    requires l.wrapper.Keys <= l.raw.Keys && HoldingsAgree(s, l) && i !in l.raw
    ensures AssignState(s, to, i).HolderOf(id).ogpunks == Without(s.HolderOf(id).ogpunks, {i}) + if to == id then [i] else []
  {
    AssignStored(s, to, i);
    assert i !in s.HolderOf(id).ogpunks;
    WithoutNone(s.HolderOf(id).ogpunks, {i});
  }

  lemma PunkHeld(s: OGState, l: Ledger, from: string, to: string, i: string, id: string)
    requires l.wrapper.Keys <= l.raw.Keys && HoldingsAgree(s, l) && i in s.ogpunks && i in l.raw && l.Owner(i) == from && from != to
    ensures PunkTransferState(s, from, to, i).HolderOf(id).ogpunks
         == Without(s.HolderOf(id).ogpunks, {i}) + if to == id then [i] else []
  {
    PunkTransferStored(s, from, to, i);
    MovedHeld(s, PunkTransferState(s, from, to, i), from, to, i, id);
  }

  lemma WrappedHeld(s: OGState, l: Ledger, wrapper: string, from: string, to: string, i: string, id: string)
    requires l.wrapper.Keys <= l.raw.Keys && (forall q :: q in l.wrapper ==> l.raw[q] == wrapper) && HoldingsAgree(s, l)
    requires i in s.ogpunks && EventHappens(l, wrapper, WrappedTransfer(from, to, i))
    ensures WrappedTransferState(s, wrapper, from, to, i).HolderOf(id).ogpunks
         == Without(s.HolderOf(id).ogpunks, {i}) + if (if to == ZERO_ADDRESS then wrapper else to) == id then [i] else []
  {
    WrappedMoves(s, wrapper, from, to, i);
    WrappedLedger(l, wrapper, from, to, i);
    MovedHeld(s, WrappedTransferState(s, wrapper, from, to, i), if from == ZERO_ADDRESS then wrapper else from,
              if to == ZERO_ADDRESS then wrapper else to, i, id);
  }

  lemma StepHeld(s: OGState, l: Ledger, wrapper: string, e: OGEvent, id: string)
    requires Agrees(s, l, wrapper) && EventHappens(l, wrapper, e) && OGGuard(s, l, e)
    ensures e.Assign? || e.punk in s.ogpunks
    ensures IndexStep(s, wrapper, e).HolderOf(id).ogpunks
         == if Taker(e, wrapper) == None then s.HolderOf(id).ogpunks
            else Without(s.HolderOf(id).ogpunks, {e.punk}) + if Taker(e, wrapper) == Some(id) then [e.punk] else []
  {
    EventIsStored(s, l, wrapper, e);
    match e
    case Assign(to, i) => AssignHeld(s, l, to, i, id);
    case PunkTransfer(from, to, i) => PunkHeld(s, l, from, to, i, id);
    case WrappedTransfer(from, to, i) => WrappedHeld(s, l, wrapper, from, to, i, id);
    case OGDelegateChanged(_, _, _, _) => OGDelegateStored(s, e, "", id);
  }

  /** Over every run that keeps the index, each account lists its punks in the order in which they came to it. */
  lemma {:induction false} RunHeldOG(events: seq<OGEvent>, wrapper: string, id: string)
    requires OGHappens(events, wrapper) && OGGuarded(events, wrapper)
    ensures OGRun(events, wrapper).HolderOf(id).ogpunks == HeldOG(events, wrapper, id)
  {
    if events != [] {
      var init := events[..|events| - 1];
      RunHeldOG(init, wrapper, id);
      OGRunExact(init, wrapper);
      StepHeld(OGRun(init, wrapper), LedgerRun(init), wrapper, events[|events| - 1], id);
    }
  }

  lemma StepDelegate(s: OGState, wrapper: string, e: OGEvent, i: string)
    requires (e.Assign? || e.punk in s.ogpunks) && i in IndexStep(s, wrapper, e).ogpunks
    ensures IndexStep(s, wrapper, e).ogpunks[i].delegate
         == if e.punk == i && e.Assign? then None
            else if e.punk == i && e.OGDelegateChanged? then Some(e.toDelegate)
            else if i in s.ogpunks then s.ogpunks[i].delegate else None
    ensures i in s.ogpunks || (e.Assign? && e.punk == i)
  {
    match e
    case Assign(to, q) => AssignStored(s, to, q);
    case PunkTransfer(from, to, q) => PunkTransferStored(s, from, to, q);
    case WrappedTransfer(from, to, q) => WrappedMoves(s, wrapper, from, to, q);
    case OGDelegateChanged(_, _, _, _) => OGDelegateStored(s, e, "", "");
  }

  /** After every run of the two contracts, a stored punk's delegate is the last one it was given since it was assigned. */
  lemma {:induction false} RunDelegates(events: seq<OGEvent>, wrapper: string, i: string)
    requires OGHappens(events, wrapper) && i in OGRun(events, wrapper).ogpunks
    ensures OGRun(events, wrapper).ogpunks[i].delegate == LastDelegate(events, i)
  {
    var init, e := events[..|events| - 1], events[|events| - 1];
    var s := OGRun(init, wrapper);
    RunAssigns(init, wrapper);
    EventIsStored(s, LedgerRun(init), wrapper, e);
    StepDelegate(s, wrapper, e, i);
    if i in s.ogpunks { RunDelegates(init, wrapper, i); }
  }

  lemma EventIsStored(s: OGState, l: Ledger, wrapper: string, e: OGEvent)
    requires s.ogpunks.Keys == l.raw.Keys && l.wrapper.Keys <= l.raw.Keys && EventHappens(l, wrapper, e)
    ensures e.Assign? || e.punk in s.ogpunks
  {
    assert e.punk in l.raw <==> e.punk in s.ogpunks;
  }
}
