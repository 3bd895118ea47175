/** `state/slices/auction.ts`: the current auction as a fold over websocket events that may repeat or arrive in any order. */
module AuctionSlice {
  import opened Options

  datatype Auction = Auction(amount: nat, bidder: string, startTime: nat, endTime: nat, tokenId: nat, settled: bool)

  datatype BidEvent = BidEvent(tokenId: nat, sender: string, value: nat, extended: bool, transactionHash: string, timestamp: nat)

  datatype CreateEvent = CreateEvent(tokenId: nat, startTime: nat, endTime: nat)

  datatype Slice = Slice(activeAuction: Option<Auction>, bids: seq<BidEvent>)

  // ---------- maxBid ----------

  /** Entry k is largest, and strictly larger than everything after it. */
  ghost predicate IsMaxAt(bids: seq<BidEvent>, k: int) {
    && 0 <= k < |bids|
    && (forall j :: 0 <= j < |bids| ==> bids[j].value <= bids[k].value)
    && (forall j :: k < j < |bids| ==> bids[j].value < bids[k].value)
  }

  /** The largest bid of a newest-first list; among equal ones the oldest. */
  ghost predicate IsMaxBid(bids: seq<BidEvent>, best: BidEvent) {
    exists k :: IsMaxAt(bids, k) && bids[k] == best
  }

  /** Folding the list from its front, the later of two bids wins unless the earlier one is larger. */
  function MaxBid(bids: seq<BidEvent>): BidEvent
    requires bids != []
  {
    if |bids| == 1 then bids[0]
    else
      var prev, current := MaxBid(bids[..|bids| - 1]), bids[|bids| - 1];
      if prev.value > current.value then prev else current
  }

  lemma {:induction false} MaxBidAt(bids: seq<BidEvent>) returns (k: int)
    requires bids != []
    ensures IsMaxAt(bids, k) && bids[k] == MaxBid(bids)
  {
    var n := |bids| - 1;
    if n == 0 {
      k := 0;
    } else {
      k := MaxBidAt(bids[..n]);
      if MaxBid(bids[..n]).value <= bids[n].value {
        k := n;
      }
    }
  }

  lemma MaxBidIsMax(bids: seq<BidEvent>)
    requires bids != []
    ensures IsMaxBid(bids, MaxBid(bids))
  {
    var k := MaxBidAt(bids);
  }

  // ---------- the reducers ----------

  ghost predicate ContainsBid(bids: seq<BidEvent>, hash: string) {
    exists i :: 0 <= i < |bids| && bids[i].transactionHash == hash
  }

  ghost function AppendBidState(s: Slice, bid: BidEvent): Slice {
    if s.activeAuction == None || s.activeAuction.value.tokenId != bid.tokenId || ContainsBid(s.bids, bid.transactionHash) then s
    else
      var bids := [bid] + s.bids;
      Slice(Some(s.activeAuction.value.(amount := MaxBid(bids).value, bidder := MaxBid(bids).sender)), bids)
  }

  ghost function ExtendState(s: Slice, tokenId: nat, endTime: nat): Slice {
    if s.activeAuction == None || s.activeAuction.value.tokenId != tokenId then s
    else s.(activeAuction := Some(s.activeAuction.value.(endTime := endTime)))
  }

  function SettleState(s: Slice, tokenId: nat, winner: string, amount: nat): Slice {
    if s.activeAuction == None || s.activeAuction.value.tokenId != tokenId then s
    else s.(activeAuction := Some(s.activeAuction.value.(settled := true, bidder := winner, amount := amount)))
  }

  function NewAuction(e: CreateEvent): Auction {
    Auction(0, "", e.startTime, e.endTime, e.tokenId, false)
  }

  class AuctionStore {
    var activeAuction: Option<Auction>
    var bids: seq<BidEvent>

    ghost function Snapshot(): Slice
      reads this
    {
      Slice(activeAuction, bids)
    }

    constructor ()
      ensures Snapshot() == Slice(None, [])
    {
      activeAuction, bids := None, [];
    }

    method SetActiveAuction(e: CreateEvent)
      modifies this
      ensures Snapshot() == Slice(Some(NewAuction(e)), [])
    {
      activeAuction := Some(NewAuction(e));
      bids := [];
    }

    /** Replaces the auction but, unlike `SetActiveAuction`, keeps the stored bids. */
    method SetFullAuction(auction: Auction)
      modifies this
      ensures Snapshot() == old(Snapshot()).(activeAuction := Some(auction))
    {
      activeAuction := Some(auction);
    }

    method AppendBid(bid: BidEvent)
      modifies this
      ensures Snapshot() == AppendBidState(old(Snapshot()), bid)
    {
      if activeAuction == None || activeAuction.value.tokenId != bid.tokenId {
        return;
      }
      var known := FindHash(bids, bid.transactionHash);
      if known {
        return;
      }
      bids := [bid] + bids;
      var best := Reduce(bids);
      activeAuction := Some(activeAuction.value.(amount := best.value, bidder := best.sender));
    }

    method SetAuctionSettled(tokenId: nat, winner: string, amount: nat)
      modifies this
      ensures Snapshot() == SettleState(old(Snapshot()), tokenId, winner, amount)
    {
      if activeAuction != None && activeAuction.value.tokenId == tokenId {
        activeAuction := Some(activeAuction.value.(settled := true, bidder := winner, amount := amount));
      }
    }

    method SetAuctionExtended(tokenId: nat, endTime: nat)
      modifies this
      ensures Snapshot() == ExtendState(old(Snapshot()), tokenId, endTime)
    {
      if activeAuction != None && activeAuction.value.tokenId == tokenId {
        activeAuction := Some(activeAuction.value.(endTime := endTime));
      }
    }

    static method FindHash(bids: seq<BidEvent>, hash: string) returns (found: bool)
      ensures found <==> ContainsBid(bids, hash)
    {
      for i := 0 to |bids|
        invariant !ContainsBid(bids[..i], hash)
      {
        if bids[i].transactionHash == hash {
          return true;
        }
      }
      assert bids[..|bids|] == bids;
      return false;
    }

    static method Reduce(bids: seq<BidEvent>) returns (best: BidEvent)
      requires bids != []
      ensures best == MaxBid(bids)
    {
      best := bids[0];
      assert bids[..1] == [bids[0]];
      for i := 1 to |bids|
        invariant best == MaxBid(bids[..i])
      {
        assert bids[..i + 1][..i] == bids[..i];
        best := if best.value > bids[i].value then best else bids[i];
      }
      assert bids[..|bids|] == bids;
    }
  }

  // ---------- replaying events ----------

  datatype Event = Bid(bid: BidEvent) | Extended(tokenId: nat, endTime: nat)

  ghost function ReplayStep(s: Slice, e: Event): Slice {
    match e
    case Bid(bid) => AppendBidState(s, bid)
    case Extended(tokenId, endTime) => ExtendState(s, tokenId, endTime)
  }

  ghost function Replay(start: Slice, events: seq<Event>): Slice {
    if events == [] then start else ReplayStep(Replay(start, events[..|events| - 1]), events[|events| - 1])
  }

  /** The bids of the auction `tokenId` among the events, however often and in whatever order they arrived. */
  ghost function BidsOn(events: seq<Event>, tokenId: nat): set<BidEvent> {
    set i | 0 <= i < |events| && events[i].Bid? && events[i].bid.tokenId == tokenId :: events[i].bid
  }

  /** A transaction hash identifies a bid event. */
  ghost predicate HashesIdentify(bids: set<BidEvent>) {
    forall a, b :: a in bids && b in bids && a.transactionHash == b.transactionHash ==> a == b
  }

  /** After replaying bids `seen` on the auction `first`: each stored once, and the largest is shown. */
  ghost predicate Shows(s: Slice, first: Auction, seen: set<BidEvent>) {
    && s.activeAuction.Some? && s.activeAuction.value.tokenId == first.tokenId
    && (forall b :: b in s.bids <==> b in seen)
    && (forall i, j :: 0 <= i < j < |s.bids| ==> s.bids[i].transactionHash != s.bids[j].transactionHash)
    && if s.bids == [] then s.activeAuction.value.amount == first.amount && s.activeAuction.value.bidder == first.bidder
       else s.activeAuction.value.amount == MaxBid(s.bids).value && s.activeAuction.value.bidder == MaxBid(s.bids).sender
  }

  lemma BidsOnSnoc(init: seq<Event>, e: Event, tokenId: nat)
    ensures BidsOn(init + [e], tokenId)
         == BidsOn(init, tokenId) + if e.Bid? && e.bid.tokenId == tokenId then {e.bid} else {}
  {
    var events := init + [e];
    assert events[|init|] == e;
    forall b | b in BidsOn(init, tokenId) ensures b in BidsOn(events, tokenId) {
      var i :| 0 <= i < |init| && init[i].Bid? && init[i].bid.tokenId == tokenId && init[i].bid == b;
      assert events[i].bid == b;
    }
  }

  lemma AppendShows(s: Slice, first: Auction, seen: set<BidEvent>, bid: BidEvent)
    requires Shows(s, first, seen) && bid.tokenId == first.tokenId && HashesIdentify(seen + {bid})
    ensures Shows(AppendBidState(s, bid), first, seen + {bid})
  {
    if ContainsBid(s.bids, bid.transactionHash) {
      var i :| 0 <= i < |s.bids| && s.bids[i].transactionHash == bid.transactionHash;
      assert s.bids[i] in seen && s.bids[i] == bid;
    }
  }

  /** The slice in which the auction `first` is the active one and no bid has arrived: what `SetActiveAuction` leaves, and
      `SetFullAuction` if there were no bids before. */
  function Opened(first: Auction): Slice {
    Slice(Some(first), [])
  }

  /** Every bid of the auction is stored exactly once, others never, and the auction shows the largest stored bid. */
  lemma {:induction false} ReplayShows(first: Auction, events: seq<Event>)
    requires HashesIdentify(BidsOn(events, first.tokenId))
    ensures Shows(Replay(Opened(first), events), first, BidsOn(events, first.tokenId))
  {
    if events != [] {
      var init, last := events[..|events| - 1], events[|events| - 1];
      assert events == init + [last];
      BidsOnSnoc(init, last, first.tokenId);
      ReplayShows(first, init);
      if last.Bid? && last.bid.tokenId == first.tokenId {
        AppendShows(Replay(Opened(first), init), first, BidsOn(init, first.tokenId), last.bid);
      }
    }
  }

  /** `b` is one of the largest bids. */
  ghost predicate Largest(bids: set<BidEvent>, b: BidEvent) {
    b in bids && forall c :: c in bids ==> c.value <= b.value
  }

  lemma ShowsLargest(s: Slice, first: Auction, seen: set<BidEvent>) returns (best: BidEvent)
    requires Shows(s, first, seen) && seen != {}
    ensures Largest(seen, best) && s.activeAuction.value.amount == best.value && s.activeAuction.value.bidder == best.sender
    ensures s.bids != [] && best == MaxBid(s.bids)
  {
    var b :| b in seen;
    assert b in s.bids;
    best := MaxBid(s.bids);
    MaxBidIsMax(s.bids);
  }

  /** Two replays of the same bids, in any order and with any repetitions, show the same amount; and the same bidder if
      the largest bids come from one sender, as they do when values are distinct. */
  lemma ReplayConverges(first: Auction, events: seq<Event>, events': seq<Event>)
    requires BidsOn(events, first.tokenId) == BidsOn(events', first.tokenId) && HashesIdentify(BidsOn(events, first.tokenId))
    ensures var start := Opened(first);
            var a, a' := Replay(start, events).activeAuction, Replay(start, events').activeAuction;
            && a.Some? && a'.Some? && a.value.amount == a'.value.amount
            && (OneLargestSender(BidsOn(events, first.tokenId)) ==> a.value.bidder == a'.value.bidder)
  {
    var bids := BidsOn(events, first.tokenId);
    ReplayShows(first, events);
    ReplayShows(first, events');
    if bids != {} {
      var b := ShowsLargest(Replay(Opened(first), events), first, bids);
      var b' := ShowsLargest(Replay(Opened(first), events'), first, bids);
    } else {
      NothingStored(Replay(Opened(first), events), first);
      NothingStored(Replay(Opened(first), events'), first);
    }
  }

  lemma NothingStored(s: Slice, first: Auction)
    requires Shows(s, first, {})
    ensures s.bids == []
  {
    assert forall i :: 0 <= i < |s.bids| ==> s.bids[i] in s.bids;
  }

  ghost predicate OneLargestSender(bids: set<BidEvent>) {
    forall a, b :: Largest(bids, a) && Largest(bids, b) ==> a.sender == b.sender
  }

  // ---------- the bidder depends on the order exactly if the largest bids have two senders ----------

  lemma {:induction false} FirstBidIsOldest(first: Auction, b: BidEvent, rest: seq<Event>)
    requires b.tokenId == first.tokenId
    ensures var s := Replay(Opened(first), [Bid(b)] + rest);
            && s.activeAuction.Some? && s.activeAuction.value.tokenId == first.tokenId
            && s.bids != [] && s.bids[|s.bids| - 1] == b
  {
    var events := [Bid(b)] + rest;
    if rest == [] {
      assert events[..0] == [];
      assert Replay(Opened(first), []) == Opened(first);
    } else {
      assert events[..|rest|] == [Bid(b)] + rest[..|rest| - 1];
      FirstBidIsOldest(first, b, rest[..|rest| - 1]);
    }
  }

  ghost function Listed(bids: set<BidEvent>): seq<Event> {
    if bids == {} then []
    else
      var b :| b in bids;
      [Bid(b)] + Listed(bids - {b})
  }

  lemma BidsOnCons(b: BidEvent, rest: seq<Event>, tokenId: nat)
    requires b.tokenId == tokenId
    ensures BidsOn([Bid(b)] + rest, tokenId) == {b} + BidsOn(rest, tokenId)
  {
    var events := [Bid(b)] + rest;
    assert events[0] == Bid(b);
    forall c | c in BidsOn(rest, tokenId) ensures c in BidsOn(events, tokenId) {
      var i :| 0 <= i < |rest| && rest[i].Bid? && rest[i].bid.tokenId == tokenId && rest[i].bid == c;
      assert events[i + 1].bid == c;
    }
  }

  lemma {:induction false} ListedBids(bids: set<BidEvent>, tokenId: nat)
    requires forall b :: b in bids ==> b.tokenId == tokenId
    ensures BidsOn(Listed(bids), tokenId) == bids
  {
    if bids != {} {
      var b :| b in bids && Listed(bids) == [Bid(b)] + Listed(bids - {b});
      ListedBids(bids - {b}, tokenId);
      BidsOnCons(b, Listed(bids - {b}), tokenId);
    }
  }

  /** A largest bid that arrives first is the one shown. */
  lemma FirstLargestWins(first: Auction, bids: set<BidEvent>, a: BidEvent) returns (events: seq<Event>)
    requires HashesIdentify(bids) && (forall b :: b in bids ==> b.tokenId == first.tokenId) && Largest(bids, a)
    ensures BidsOn(events, first.tokenId) == bids
    ensures var s := Replay(Opened(first), events);
            s.activeAuction.Some? && s.activeAuction.value.bidder == a.sender
  {
    events := [Bid(a)] + Listed(bids);
    ListedBids(bids, first.tokenId);
    BidsOnCons(a, Listed(bids), first.tokenId);
    assert {a} + bids == bids;
    FirstBidIsOldest(first, a, Listed(bids));
    ReplayShows(first, events);
    var s := Replay(Opened(first), events);
    var best := ShowsLargest(s, first, bids);
    MaxBidIsMax(s.bids);
  }

  ghost predicate SameBidderAlways(first: Auction, bids: set<BidEvent>) {
    forall events, events' :: BidsOn(events, first.tokenId) == bids && BidsOn(events', first.tokenId) == bids ==>
      Replay(Opened(first), events).activeAuction.Some?
      && Replay(Opened(first), events').activeAuction.Some?
      && Replay(Opened(first), events).activeAuction.value.bidder
         == Replay(Opened(first), events').activeAuction.value.bidder
  }

  /** All replays of a set of bids show the same bidder exactly if its largest bids come from one sender. */
  lemma BidderConvergesIff(first: Auction, bids: set<BidEvent>)
    requires HashesIdentify(bids) && forall b :: b in bids ==> b.tokenId == first.tokenId
    ensures SameBidderAlways(first, bids) <==> OneLargestSender(bids)
  {
    if OneLargestSender(bids) {
      forall events, events' | BidsOn(events, first.tokenId) == bids && BidsOn(events', first.tokenId) == bids
        ensures Replay(Opened(first), events).activeAuction.Some?
        ensures Replay(Opened(first), events').activeAuction.Some?
        ensures Replay(Opened(first), events).activeAuction.value.bidder
             == Replay(Opened(first), events').activeAuction.value.bidder
      {
        ReplayConverges(first, events, events');
      }
    }
    if SameBidderAlways(first, bids) {
      forall a, b | Largest(bids, a) && Largest(bids, b) ensures a.sender == b.sender {
        var events := FirstLargestWins(first, bids, a);
        var events' := FirstLargestWins(first, bids, b);
      }
    }
  }

  // ---------- which of the largest bids is shown ----------

  ghost predicate BidOn(e: Event, tokenId: nat) {
    e.Bid? && e.bid.tokenId == tokenId
  }

  /** Event k is the first of the largest bids to arrive. */
  ghost predicate FirstLargest(events: seq<Event>, tokenId: nat, k: int) {
    && 0 <= k < |events| && BidOn(events[k], tokenId)
    && forall j :: 0 <= j < |events| && BidOn(events[j], tokenId) ==>
         events[j].bid.value <= events[k].bid.value && (j < k ==> events[j].bid.value < events[k].bid.value)
  }

  lemma {:induction false} MaxBidCons(b: BidEvent, bids: seq<BidEvent>)
    requires bids != []
    ensures MaxBid([b] + bids) == if b.value > MaxBid(bids).value then b else MaxBid(bids)
  {
    var n := |bids| - 1;
    assert ([b] + bids)[..n + 1] == [b] + bids[..n];
    if n == 0 {
      assert [b] + bids[..0] == [b];
    } else {
      MaxBidCons(b, bids[..n]);
    }
  }

  lemma KnownBidIsSmall(s: Slice, first: Auction, seen: set<BidEvent>, bid: BidEvent)
    requires Shows(s, first, seen) && HashesIdentify(seen + {bid}) && ContainsBid(s.bids, bid.transactionHash)
    ensures s.bids != [] && bid.value <= MaxBid(s.bids).value
  {
    var i :| 0 <= i < |s.bids| && s.bids[i].transactionHash == bid.transactionHash;
    assert s.bids[i] in seen && s.bids[i] == bid;
    MaxBidIsMax(s.bids);
  }

  lemma FirstLargestMore(init: seq<Event>, e: Event, tokenId: nat, k: int)
    requires FirstLargest(init, tokenId, k)
    ensures FirstLargest(init + [e], tokenId, if BidOn(e, tokenId) && e.bid.value > init[k].bid.value then |init| else k)
  {
  }

  /** After any replay with a bid on the auction, the auction shows the first of the largest bids to arrive. */
  lemma {:induction false} FirstLargestShown(first: Auction, events: seq<Event>) returns (k: int)
    requires HashesIdentify(BidsOn(events, first.tokenId)) && BidsOn(events, first.tokenId) != {}
    ensures FirstLargest(events, first.tokenId, k)
    ensures var s := Replay(Opened(first), events);
            && s.activeAuction.Some? && s.bids != [] && MaxBid(s.bids) == events[k].bid
            && s.activeAuction.value.amount == events[k].bid.value && s.activeAuction.value.bidder == events[k].bid.sender
  {
    var init, last := events[..|events| - 1], events[|events| - 1];
    var s, seen := Replay(Opened(first), init), BidsOn(init, first.tokenId);
    assert events == init + [last];
    BidsOnSnoc(init, last, first.tokenId);
    ReplayShows(first, init);
    ReplayShows(first, events);
    if seen == {} {
      NothingStored(s, first);
      k := |init|;
      assert forall j :: 0 <= j < |init| && BidOn(init[j], first.tokenId) ==> init[j].bid in seen;
    } else {
      var k0 := FirstLargestShown(first, init);
      FirstLargestMore(init, last, first.tokenId, k0);
      k := if BidOn(last, first.tokenId) && last.bid.value > init[k0].bid.value then |init| else k0;
      if BidOn(last, first.tokenId) {
        if ContainsBid(s.bids, last.bid.transactionHash) {
          KnownBidIsSmall(s, first, seen, last.bid);
        } else {
          MaxBidCons(last.bid, s.bids);
        }
      }
    }
  }

  // ---------- times ----------

  /** The end of the auction: as last extended, or as it was. */
  function LastEnd(first: Auction, events: seq<Event>): nat {
    if events == [] then first.endTime
    else
      var e := events[|events| - 1];
      if e.Extended? && e.tokenId == first.tokenId then e.endTime else LastEnd(first, events[..|events| - 1])
  }

  /** Over every replay the auction keeps its token, its start and its flag, and ends when it was last extended to; bids, and
      events of other auctions, change none of these. */
  lemma {:induction false} ReplayTimes(first: Auction, events: seq<Event>)
    ensures var a := Replay(Opened(first), events).activeAuction;
            && a.Some? && a.value.tokenId == first.tokenId && a.value.startTime == first.startTime
            && a.value.settled == first.settled && a.value.endTime == LastEnd(first, events)
  {
    if events != [] { ReplayTimes(first, events[..|events| - 1]); }
  }

  /** Creating an auction forgets everything before: no bids, no amount, no bidder, the event's token and times. */
  lemma CreatedAfresh(s: Slice, e: CreateEvent)
    ensures Act(s, Create(e)) == Slice(Some(Auction(0, "", e.startTime, e.endTime, e.tokenId, false)), [])
  {
  }

  /** A settlement sets the flag, the winner and the amount of its own auction and nothing else; without that auction being
      active it changes nothing. */
  lemma SettlementTouches(s: Slice, tokenId: nat, winner: string, amount: nat)
    ensures var s' := Act(s, Settle(tokenId, winner, amount));
            if s.activeAuction.Some? && s.activeAuction.value.tokenId == tokenId
            then s' == Slice(Some(Auction(amount, winner, s.activeAuction.value.startTime, s.activeAuction.value.endTime, tokenId, true)),
                             s.bids)
            else s' == s
  {
  }

  // ---------- settlements ----------

  lemma ReplaySnoc(start: Slice, init: seq<Event>, e: Event)
    ensures Replay(start, init + [e]) == ReplayStep(Replay(start, init), e)
  {
    assert (init + [e])[..|init|] == init;
  }

  /** A settlement between the events `before` and `after` leaves the stored bids alone; its winner and amount last until
      a bid arrives that was not among those before. */
  lemma {:induction false} SettledReplay(first: Auction, before: seq<Event>, after: seq<Event>, winner: string, amount: nat)
    requires HashesIdentify(BidsOn(before + after, first.tokenId))
    ensures var s := Replay(SettleState(Replay(Opened(first), before), first.tokenId, winner, amount), after);
            var plain := Replay(Opened(first), before + after);
            && s.bids == plain.bids && s.activeAuction.Some? && plain.activeAuction.Some?
            && s.activeAuction.value.tokenId == plain.activeAuction.value.tokenId == first.tokenId
            && s.activeAuction.value.settled
            && if BidsOn(after, first.tokenId) <= BidsOn(before, first.tokenId)
               then s.activeAuction.value.amount == amount && s.activeAuction.value.bidder == winner
               else s.activeAuction.value.amount == plain.activeAuction.value.amount
                    && s.activeAuction.value.bidder == plain.activeAuction.value.bidder
  {
    if after == [] {
      assert before + after == before;
      ReplayShows(first, before);
    } else {
      var init, e := after[..|after| - 1], after[|after| - 1];
      assert after == init + [e] && before + after == (before + init) + [e];
      BidsOnSnoc(before + init, e, first.tokenId);
      BidsOnSnoc(init, e, first.tokenId);
      BidsOnAppend(before, init, first.tokenId);
      SettledReplay(first, before, init, winner, amount);
      ReplayShows(first, before + init);
      ReplaySnoc(Opened(first), before + init, e);
      ReplaySnoc(SettleState(Replay(Opened(first), before), first.tokenId, winner, amount), init, e);
      if e.Bid? && e.bid.tokenId == first.tokenId {
        KnownIff(Replay(Opened(first), before + init), first, BidsOn(before + init, first.tokenId), e.bid);
      }
    }
  }

  lemma {:induction false} BidsOnAppend(a: seq<Event>, b: seq<Event>, tokenId: nat)
    ensures BidsOn(a + b, tokenId) == BidsOn(a, tokenId) + BidsOn(b, tokenId)
  {
    if b == [] {
      assert a + b == a;
    } else {
      var init, e := b[..|b| - 1], b[|b| - 1];
      assert b == init + [e] && a + b == (a + init) + [e];
      BidsOnAppend(a, init, tokenId);
      BidsOnSnoc(a + init, e, tokenId);
      BidsOnSnoc(init, e, tokenId);
    }
  }

  /** A bid's hash is known exactly if the bid has been seen. */
  lemma KnownIff(s: Slice, first: Auction, seen: set<BidEvent>, bid: BidEvent)
    requires Shows(s, first, seen) && HashesIdentify(seen + {bid})
    ensures ContainsBid(s.bids, bid.transactionHash) <==> bid in seen
  {
    if i :| 0 <= i < |s.bids| && s.bids[i].transactionHash == bid.transactionHash {
      assert s.bids[i] in seen;
    }
    if bid in seen {
      assert bid in s.bids;
    }
  }

  /** After a settlement the auction shows its winner and amount exactly if no bid came late, or the largest of all bids
      says the same. */
  lemma SettlementShownIff(first: Auction, before: seq<Event>, after: seq<Event>, winner: string, amount: nat)
    requires HashesIdentify(BidsOn(before + after, first.tokenId))
    ensures var s := Replay(SettleState(Replay(Opened(first), before), first.tokenId, winner, amount), after);
            var plain := Replay(Opened(first), before + after);
            && s.activeAuction.Some? && plain.activeAuction.Some?
            && (s.activeAuction.value.amount == amount && s.activeAuction.value.bidder == winner
                <==> BidsOn(after, first.tokenId) <= BidsOn(before, first.tokenId)
                     || (plain.activeAuction.value.amount == amount && plain.activeAuction.value.bidder == winner))
  {
    SettledReplay(first, before, after, winner, amount);
  }

  // ---------- bids of an earlier auction ----------

  /** The active auction would take the bid. */
  ghost predicate Fresh(s: Slice, bid: BidEvent) {
    s.activeAuction.Some? && s.activeAuction.value.tokenId == bid.tokenId && !ContainsBid(s.bids, bid.transactionHash)
  }

  function Longer(bids: seq<BidEvent>): string {
    if bids == [] then "" else bids[|bids| - 1].transactionHash + Longer(bids[..|bids| - 1]) + "0"
  }

  lemma {:induction false} LongerIsNew(bids: seq<BidEvent>)
    ensures forall i :: 0 <= i < |bids| ==> |bids[i].transactionHash| < |Longer(bids)|
  {
    if bids != [] { LongerIsNew(bids[..|bids| - 1]); }
  }

  lemma NextBest(bids: seq<BidEvent>, bid: BidEvent)
    ensures MaxBid([bid] + bids) == if bids == [] || bid.value > MaxBid(bids).value then bid else MaxBid(bids)
  {
    if bids == [] { assert [bid] + bids == [bid]; } else { MaxBidCons(bid, bids); }
  }

  /** Whatever the next bid, the auction shows a bid of its own. */
  ghost predicate ShowsOwnNext(s: Slice)
    requires s.activeAuction.Some?
  {
    forall bid :: Fresh(s, bid) ==> MaxBid([bid] + s.bids).tokenId == s.activeAuction.value.tokenId
  }

  lemma LowBid(s: Slice) returns (low: BidEvent)
    requires s.activeAuction.Some?
    ensures Fresh(s, low) && low.value == 0
  {
    LongerIsNew(s.bids);
    low := BidEvent(s.activeAuction.value.tokenId, "", 0, false, Longer(s.bids), 0);
  }

  /** Every further bid leaves the auction showing a bid of its own exactly if the largest stored one is its own. */
  lemma OwnBidShownIff(s: Slice)
    requires s.activeAuction.Some?
    ensures ShowsOwnNext(s) <==> s.bids == [] || MaxBid(s.bids).tokenId == s.activeAuction.value.tokenId
  {
    if s.bids == [] || MaxBid(s.bids).tokenId == s.activeAuction.value.tokenId {
      forall bid | Fresh(s, bid) ensures MaxBid([bid] + s.bids).tokenId == s.activeAuction.value.tokenId {
        NextBest(s.bids, bid);
      }
    } else {
      var low := LowBid(s);
      NextBest(s.bids, low);
      assert MaxBid([low] + s.bids).tokenId != s.activeAuction.value.tokenId;
    }
  }

  datatype Action =
    | Create(created: CreateEvent)
    | Full(auction: Auction)
    | Settle(tokenId: nat, winner: string, amount: nat)
    | Live(event: Event)

  ghost function Act(s: Slice, a: Action): Slice {
    match a
    case Create(e) => Opened(NewAuction(e))
    case Full(auction) => s.(activeAuction := Some(auction))
    case Settle(tokenId, winner, amount) => SettleState(s, tokenId, winner, amount)
    case Live(event) => ReplayStep(s, event)
  }

  /** The slice after all the actions dispatched since the page was loaded. */
  ghost function Play(actions: seq<Action>): Slice {
    if actions == [] then Slice(None, []) else Act(Play(actions[..|actions| - 1]), actions[|actions| - 1])
  }

  lemma PlaySnoc(init: seq<Action>, a: Action)
    ensures Play(init + [a]) == Act(Play(init), a)
  {
    assert (init + [a])[..|init|] == init;
  }

  /** `SetFullAuction` keeps the bids of the auction before: the first bid on the new one can then show the amount and
      bidder of a larger bid on the old one. */
  lemma StaleBidsAfterSetFull(e: CreateEvent, stale: BidEvent, auction: Auction, recent: BidEvent)
    requires stale.tokenId == e.tokenId != auction.tokenId == recent.tokenId
    requires stale.value > recent.value && stale.transactionHash != recent.transactionHash
    ensures Play([Create(e)] + [Live(Bid(stale))] + [Full(auction)]) == Slice(Some(auction), [stale])
    ensures Play([Create(e)] + [Live(Bid(stale))] + [Full(auction)] + [Live(Bid(recent))]).activeAuction
         == Some(auction.(amount := stale.value, bidder := stale.sender))
  {
    assert [] + [Create(e)] == [Create(e)];
    PlaySnoc([], Create(e));
    PlaySnoc([Create(e)], Live(Bid(stale)));
    PlaySnoc([Create(e)] + [Live(Bid(stale))], Full(auction));
    PlaySnoc([Create(e)] + [Live(Bid(stale))] + [Full(auction)], Live(Bid(recent)));
    assert [stale] + [] == [stale];
    MaxBidCons(recent, [stale]);
  }
}
