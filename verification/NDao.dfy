/** `n-dao.ts` and `getProposalState` of `wrappers/nDao.ts`: indexed proposals, and the state derived from them. */
module NDao {
  import opened Collections
  import opened Options

  datatype Status = PENDING | ACTIVE | CANCELLED | VETOED | QUEUED | EXECUTED

  datatype Proposal = Proposal(startBlock: nat, endBlock: nat, quorumVotes: nat, forVotes: nat, againstVotes: nat,
                               abstainVotes: nat, status: Status, executionETA: Option<nat>)

  /** The `voter-proposal` id of a vote. */
  datatype VoteId = VoteId(voter: string, proposal: string)

  datatype Vote = Vote(supportDetailed: nat, votes: nat)

  datatype Index = Index(proposals: map<string, Proposal>, votes: map<VoteId, Vote>, proposalCount: int, proposalsQueued: int)

  // ---------- what each event does to its proposal ----------

  function Created(block: nat, startBlock: nat, endBlock: nat, quorumVotes: nat, eta: Option<nat>): Proposal {
    Proposal(startBlock, endBlock, quorumVotes, 0, 0, 0, if block >= startBlock then ACTIVE else PENDING, eta)
  }

  function VotedOn(p: Proposal, support: nat, votes: nat): Proposal {
    var counted := if support == 0 then p.(againstVotes := p.againstVotes + votes)
                   else if support == 1 then p.(forVotes := p.forVotes + votes)
                   else if support == 2 then p.(abstainVotes := p.abstainVotes + votes)
                   else p;
    if p.status == PENDING then counted.(status := ACTIVE) else counted
  }

  /** An id seen before is created anew but not counted again; its execution time is not reset. */
  function CreatedState(s: Index, id: string, block: nat, startBlock: nat, endBlock: nat, quorumVotes: nat): Index {
    var eta := if id in s.proposals then s.proposals[id].executionETA else None;
    s.(proposals := s.proposals[id := Created(block, startBlock, endBlock, quorumVotes, eta)],
       proposalCount := s.proposalCount + if id in s.proposals then 0 else 1)
  }

  function ActState(s: Index, id: string, act: Act): Index
    requires id in s.proposals
  {
    s.(proposals := s.proposals[id := IndexedAfter(s.proposals[id], act)],
       proposalsQueued := s.proposalsQueued + if act.Queue? then 1 else if act.Execute? then -1 else 0)
  }

  function VoteCastState(s: Index, voter: string, id: string, support: nat, weight: nat): Index
    requires id in s.proposals
  {
    ActState(s, id, CastVote(support, weight)).(votes := s.votes[VoteId(voter, id) := Vote(support, weight)])
  }

  class Store {
    var proposals: map<string, Proposal>
    var votes: map<VoteId, Vote>
    var proposalCount: int
    var proposalsQueued: int

    ghost function Snapshot(): Index
      reads this
    {
      Index(proposals, votes, proposalCount, proposalsQueued)
    }

    constructor ()
      ensures Snapshot() == Index(map[], map[], 0, 0)
    {
      proposals, votes, proposalCount, proposalsQueued := map[], map[], 0, 0;
    }

    method HandleProposalCreated(id: string, block: nat, startBlock: nat, endBlock: nat, quorumVotes: nat)
      modifies this
      ensures Snapshot() == CreatedState(old(Snapshot()), id, block, startBlock, endBlock, quorumVotes)
    {
      var eta := None;
      if id in proposals {
        eta := proposals[id].executionETA;
      } else {
        proposalCount := proposalCount + 1;
      }
      proposals := proposals[id := Created(block, startBlock, endBlock, quorumVotes, eta)];
    }

    /** `getOrCreateProposal` makes a proposal it does not find, but one without its required fields cannot be saved: the
        handler stops, and what it did is undone. So do the handlers below. */
    method HandleProposalCanceled(id: string) returns (saved: bool)
      modifies this
      ensures saved <==> id in old(proposals)
      ensures Snapshot() == if saved then ActState(old(Snapshot()), id, Cancel) else old(Snapshot())
    {
      saved := id in proposals;
      if saved {
        proposals := proposals[id := proposals[id].(status := CANCELLED)];
      }
    }

    method HandleProposalVetoed(id: string) returns (saved: bool)
      modifies this
      ensures saved <==> id in old(proposals)
      ensures Snapshot() == if saved then ActState(old(Snapshot()), id, Veto) else old(Snapshot())
    {
      saved := id in proposals;
      if saved {
        proposals := proposals[id := proposals[id].(status := VETOED)];
      }
    }

    method HandleProposalQueued(id: string, eta: nat) returns (saved: bool)
      modifies this
      ensures saved <==> id in old(proposals)
      ensures Snapshot() == if saved then ActState(old(Snapshot()), id, Queue(eta)) else old(Snapshot())
    {
      saved := id in proposals;
      if saved {
        proposals := proposals[id := proposals[id].(status := QUEUED, executionETA := Some(eta))];
        proposalsQueued := proposalsQueued + 1;
      }
    }

    method HandleProposalExecuted(id: string) returns (saved: bool)
      modifies this
      ensures saved <==> id in old(proposals)
      ensures Snapshot() == if saved then ActState(old(Snapshot()), id, Execute) else old(Snapshot())
    {
      saved := id in proposals;
      if saved {
        proposals := proposals[id := proposals[id].(status := EXECUTED, executionETA := None)];
        proposalsQueued := proposalsQueued - 1;
      }
    }

    /** A second vote of the same voter replaces the stored vote, but the tallies keep both. */
    method HandleVoteCast(voter: string, id: string, support: nat, weight: nat) returns (saved: bool)
      modifies this
      ensures saved <==> id in old(proposals)
      ensures Snapshot() == if saved then VoteCastState(old(Snapshot()), voter, id, support, weight) else old(Snapshot())
    {
      saved := id in proposals;
      if saved {
        votes := votes[VoteId(voter, id) := Vote(support, weight)];
        var proposal := proposals[id];
        if support == 0 {
          proposal := proposal.(againstVotes := proposal.againstVotes + weight);
        } else if support == 1 {
          proposal := proposal.(forVotes := proposal.forVotes + weight);
        } else if support == 2 {
          proposal := proposal.(abstainVotes := proposal.abstainVotes + weight);
        }
        if proposal.status == PENDING {
          proposal := proposal.(status := ACTIVE);
        }
        proposals := proposals[id := proposal];
      }
    }
  }

  // ---------- tallies ----------

  /** What each stored vote adds to the tally of proposal `id` for the given support. */
  ghost function Weights(votes: map<VoteId, Vote>, id: string, support: nat): map<VoteId, int> {
    map v | v in votes :: if v.proposal == id && votes[v].supportDetailed == support then votes[v].votes else 0
  }

  /** The tally of a proposal for the given support: against, for or abstain. */
  function Tally(p: Proposal, support: nat): nat
    requires support <= 2
  {
    if support == 0 then p.againstVotes else if support == 1 then p.forVotes else p.abstainVotes
  }

  ghost predicate TalliedAt(p: Proposal, votes: map<VoteId, Vote>, id: string) {
    forall k :: 0 <= k <= 2 ==> Tally(p, k) == Total(Weights(votes, id, k))
  }

  /** Every proposal's tallies are the sums of its stored votes, by support. */
  ghost predicate Tallied(s: Index) {
    forall id :: id in s.proposals ==> TalliedAt(s.proposals[id], s.votes, id)
  }

  lemma WeightsAfter(votes: map<VoteId, Vote>, v: VoteId, vote: Vote, id: string, support: nat)
    ensures Total(Weights(votes[v := vote], id, support))
         == Total(Weights(votes, id, support))
            - (if v in votes && v.proposal == id && votes[v].supportDetailed == support then votes[v].votes else 0)
            + (if v.proposal == id && vote.supportDetailed == support then vote.votes else 0)
  {
    var weight := if v.proposal == id && vote.supportDetailed == support then vote.votes else 0;
    TotalUpdate(Weights(votes, id, support), v, weight);
    assert Weights(votes[v := vote], id, support) == Weights(votes, id, support)[v := weight];
  }

  /** What a stored vote counts for the given support. */
  ghost function Counted(votes: map<VoteId, Vote>, v: VoteId, support: nat): nat {
    if v in votes && votes[v].supportDetailed == support then votes[v].votes else 0
  }

  lemma OtherTallies(p: Proposal, votes: map<VoteId, Vote>, v: VoteId, vote: Vote, id: string)
    requires TalliedAt(p, votes, id) && v.proposal != id
    ensures TalliedAt(p, votes[v := vote], id)
  {
    forall k | 0 <= k <= 2 ensures Tally(p, k) == Total(Weights(votes[v := vote], id, k)) {
      WeightsAfter(votes, v, vote, id, k);
    }
  }

  lemma TallyAfter(p: Proposal, vote: Vote, k: nat)
    requires k <= 2
    ensures Tally(VotedOn(p, vote.supportDetailed, vote.votes), k)
         == Tally(p, k) + if vote.supportDetailed == k then vote.votes else 0
  {
  }

  lemma OwnTallies(p: Proposal, votes: map<VoteId, Vote>, v: VoteId, vote: Vote)
    requires TalliedAt(p, votes, v.proposal)
    ensures TalliedAt(VotedOn(p, vote.supportDetailed, vote.votes), votes[v := vote], v.proposal)
       <==> forall k :: 0 <= k <= 2 ==> Counted(votes, v, k) == 0
  {
    var p' := VotedOn(p, vote.supportDetailed, vote.votes);
    forall k | 0 <= k <= 2
      ensures Tally(p', k) == Total(Weights(votes[v := vote], v.proposal, k)) <==> Counted(votes, v, k) == 0
    {
      WeightsAfter(votes, v, vote, v.proposal, k);
      TallyAfter(p, vote, k);
    }
  }

  /** The tallies stay the sums of the stored votes exactly if the voter had no vote that counted. */
  lemma VoteTalliesExact(s: Index, v: VoteId, support: nat, weight: nat)
    requires Tallied(s) && v.proposal in s.proposals
    ensures Tallied(VoteCastState(s, v.voter, v.proposal, support, weight))
       <==> v !in s.votes || s.votes[v].votes == 0 || s.votes[v].supportDetailed > 2
  {
    var vote := Vote(support, weight);
    var s' := VoteCastState(s, v.voter, v.proposal, support, weight);
    OwnTallies(s.proposals[v.proposal], s.votes, v, vote);
    assert v in s.votes && s.votes[v].supportDetailed <= 2 ==> Counted(s.votes, v, s.votes[v].supportDetailed) == s.votes[v].votes;
    TalliedElsewhere(s, s', v, vote);
  }

  lemma TalliedElsewhere(s: Index, s': Index, v: VoteId, vote: Vote)
    requires Tallied(s) && v.proposal in s.proposals && s'.votes == s.votes[v := vote]
    requires v.proposal in s'.proposals && s'.proposals == s.proposals[v.proposal := s'.proposals[v.proposal]]
    ensures Tallied(s') <==> TalliedAt(s'.proposals[v.proposal], s'.votes, v.proposal)
  {
    forall id | id in s.proposals && id != v.proposal ensures TalliedAt(s'.proposals[id], s'.votes, id) {
      OtherTallies(s.proposals[id], s.votes, v, vote, id);
    }
  }

  /** Creating a proposal under a new id, and every other lifecycle event, leaves all tallies right. */
  lemma LifecycleKeepsTallies(s: Index, id: string, p: Proposal)
    requires Tallied(s)
    requires if id in s.proposals then forall k :: 0 <= k <= 2 ==> Tally(p, k) == Tally(s.proposals[id], k)
             else (forall k :: 0 <= k <= 2 ==> Tally(p, k) == 0) && forall v :: v in s.votes ==> v.proposal != id
    ensures Tallied(s.(proposals := s.proposals[id := p]))
  {
    forall k | 0 <= k <= 2 ensures Tally(p, k) == Total(Weights(s.votes, id, k)) {
      if id !in s.proposals {
        NoWeights(s.votes, id, k);
      }
    }
  }

  lemma NoWeights(votes: map<VoteId, Vote>, id: string, support: nat)
    requires forall v :: v in votes ==> v.proposal != id
    ensures Total(Weights(votes, id, support)) == 0
  {
    ZeroTotal(Weights(votes, id, support));
  }

  lemma {:induction false} ZeroTotal(m: map<VoteId, int>)
    requires forall k :: k in m ==> m[k] == 0
    ensures Total(m) == 0
    decreases |m|
  {
    if m != map[] {
      var k :| k in m;
      TotalRemove(m, k);
      ZeroTotal(m - {k});
    }
  }

  // ---------- getProposalState ----------

  datatype ProposalState =
    | Undetermined | Pending | Active | Cancelled | Defeated | Succeeded | Queued | Expired | Executed | Vetoed

  /** 14 days, in seconds. */
  const GRACE_PERIOD: nat := 14 * 60 * 60 * 24

  /** An unknown block number, and block 0, leave a pending or active proposal undetermined. */
  function GetProposalState(blockNumber: Option<nat>, blockTimestamp: Option<nat>, p: Proposal): ProposalState {
    match p.status
    case PENDING =>
      if blockNumber == None || blockNumber.value == 0 then Undetermined
      else if blockNumber.value <= p.startBlock then Pending
      else Active
    case ACTIVE =>
      if blockNumber == None || blockNumber.value == 0 then Undetermined
      else if blockNumber.value > p.endBlock && (p.forVotes <= p.againstVotes || p.forVotes < p.quorumVotes) then Defeated
      else if blockNumber.value > p.endBlock && p.executionETA == None then Succeeded
      else Active
    case QUEUED =>
      if blockTimestamp == None || p.executionETA == None then Undetermined
      else if blockTimestamp.value >= p.executionETA.value + GRACE_PERIOD then Expired
      else Queued
    case CANCELLED => Cancelled
    case EXECUTED => Executed
    case VETOED => Vetoed
  }

  // ---------- the lifecycle the governance contract keeps ----------

  datatype Life = Life(startBlock: nat, endBlock: nat, quorumVotes: nat, forVotes: nat, againstVotes: nat,
                       canceled: bool, vetoed: bool, executed: bool, eta: Option<nat>)

  function StateOf(l: Life, block: nat, time: nat): ProposalState {
    if l.vetoed then Vetoed
    else if l.canceled then Cancelled
    else if block <= l.startBlock then Pending
    else if block <= l.endBlock then Active
    else if l.forVotes <= l.againstVotes || l.forVotes < l.quorumVotes then Defeated
    else if l.eta == None then Succeeded
    else if l.executed then Executed
    else if time >= l.eta.value + GRACE_PERIOD then Expired
    else Queued
  }

  datatype Act = CastVote(support: nat, votes: nat) | Queue(eta: nat) | Execute | Cancel | Veto

  /** An event with the block and time it happened at. */
  datatype Event = Event(act: Act, block: nat, time: nat)

  /** When the contract lets an event happen. */
  predicate Allowed(l: Life, e: Event) {
    var state := StateOf(l, e.block, e.time);
    match e.act
    case CastVote(support, _) => state == Active && support <= 2
    case Queue(_) => state == Succeeded
    case Execute => state == Queued
    case Cancel => state != Executed
    case Veto => state != Executed
  }

  function LifeAfter(l: Life, e: Event): Life {
    match e.act
    case CastVote(support, votes) =>
      if support == 0 then l.(againstVotes := l.againstVotes + votes)
      else if support == 1 then l.(forVotes := l.forVotes + votes) else l
    case Queue(eta) => l.(eta := Some(eta))
    case Execute => l.(executed := true)
    case Cancel => l.(canceled := true)
    case Veto => l.(vetoed := true)
  }

  function IndexedAfter(p: Proposal, act: Act): Proposal {
    match act
    case CastVote(support, votes) => VotedOn(p, support, votes)
    case Queue(eta) => p.(status := QUEUED, executionETA := Some(eta))
    case Execute => p.(status := EXECUTED, executionETA := None)
    case Cancel => p.(status := CANCELLED)
    case Veto => p.(status := VETOED)
  }

  datatype Proposed = Proposed(block: nat, time: nat, startBlock: nat, endBlock: nat, quorumVotes: nat)

  function LifeOf(c: Proposed, events: seq<Event>): Life {
    if events == [] then Life(c.startBlock, c.endBlock, c.quorumVotes, 0, 0, false, false, false, None)
    else LifeAfter(LifeOf(c, events[..|events| - 1]), events[|events| - 1])
  }

  function IndexedOf(c: Proposed, events: seq<Event>): Proposal {
    if events == [] then Created(c.block, c.startBlock, c.endBlock, c.quorumVotes, None)
    else IndexedAfter(IndexedOf(c, events[..|events| - 1]), events[|events| - 1].act)
  }

  function LastBlock(c: Proposed, events: seq<Event>): nat {
    if events == [] then c.block else events[|events| - 1].block
  }

  /** The contract allowed every event of the run, in block order. */
  predicate Happened(c: Proposed, events: seq<Event>) {
    events == []
    || (var init, e := events[..|events| - 1], events[|events| - 1];
        Happened(c, init) && Allowed(LifeOf(c, init), e) && LastBlock(c, init) <= e.block)
  }

  /** How the indexed proposal stands to the contract's. */
  predicate Tracks(p: Proposal, l: Life, lastBlock: nat) {
    && p.startBlock == l.startBlock && p.endBlock == l.endBlock && p.quorumVotes == l.quorumVotes
    && p.forVotes == l.forVotes && p.againstVotes == l.againstVotes
    && match p.status
       case PENDING => !l.canceled && !l.vetoed && !l.executed && l.eta == None && p.forVotes == 0 && p.executionETA == None
       case ACTIVE => !l.canceled && !l.vetoed && !l.executed && l.eta == None && p.executionETA == None
       case CANCELLED => l.canceled
       case VETOED => l.vetoed
       case QUEUED => !l.canceled && !l.vetoed && !l.executed && l.eta.Some? && p.executionETA == l.eta && Passed(l, lastBlock)
       case EXECUTED => !l.canceled && !l.vetoed && l.executed && l.eta.Some? && Passed(l, lastBlock)
  }

  predicate Passed(l: Life, lastBlock: nat) {
    lastBlock > l.endBlock && lastBlock > l.startBlock && l.forVotes > l.againstVotes && l.forVotes >= l.quorumVotes
  }

  lemma {:induction false} IndexTracksLife(c: Proposed, events: seq<Event>)
    requires Happened(c, events)
    ensures Tracks(IndexedOf(c, events), LifeOf(c, events), LastBlock(c, events))
  {
    if events != [] {
      IndexTracksLife(c, events[..|events| - 1]);
    }
  }

  /** None of the three situations in which the index does not tell enough. */
  predicate Settled(p: Proposal, l: Life, block: nat) {
    && !(p.status == PENDING && block > p.endBlock)
    && !(p.status == ACTIVE && block <= p.startBlock)
    && !(p.status == CANCELLED && l.vetoed)
  }

  /** What the web application shows is the contract's state exactly unless nobody voted and the voting period is over,
      the proposal was created no earlier than its first voting block and that block has not passed, or it was canceled
      after a veto. */
  lemma ShownStateExact(c: Proposed, events: seq<Event>, block: nat, time: nat)
    requires Happened(c, events) && LastBlock(c, events) <= block && block > 0 && c.startBlock <= c.endBlock
    ensures GetProposalState(Some(block), Some(time), IndexedOf(c, events)) == StateOf(LifeOf(c, events), block, time)
       <==> Settled(IndexedOf(c, events), LifeOf(c, events), block)
  {
    IndexTracksLife(c, events);
  }

  /** The voting delay of a proposal is positive, as the governance contract has it. */
  lemma {:induction false} ActiveHasBegun(c: Proposed, events: seq<Event>)
    requires Happened(c, events) && c.block < c.startBlock
    ensures IndexedOf(c, events).status == ACTIVE ==> LastBlock(c, events) > c.startBlock
  {
    if events != [] {
      ActiveHasBegun(c, events[..|events| - 1]);
      IndexTracksLife(c, events[..|events| - 1]);
    }
  }

  lemma {:induction false} LifeHasBounds(c: Proposed, events: seq<Event>)
    ensures LifeOf(c, events).startBlock == c.startBlock && LifeOf(c, events).endBlock == c.endBlock
  {
    if events != [] { LifeHasBounds(c, events[..|events| - 1]); }
  }

  /** With a positive voting delay, only two situations are shown wrong: nobody voted and the voting period is over, or
      the proposal was canceled after a veto. */
  lemma DelayedStateExact(c: Proposed, events: seq<Event>, block: nat, time: nat)
    requires Happened(c, events) && LastBlock(c, events) <= block && block > 0 && c.block < c.startBlock <= c.endBlock
    ensures GetProposalState(Some(block), Some(time), IndexedOf(c, events)) == StateOf(LifeOf(c, events), block, time)
       <==> !(IndexedOf(c, events).status == PENDING && block > c.endBlock)
            && !(IndexedOf(c, events).status == CANCELLED && LifeOf(c, events).vetoed)
  {
    ShownStateExact(c, events, block, time);
    ActiveHasBegun(c, events);
    IndexTracksLife(c, events);
    LifeHasBounds(c, events);
  }

  /** Canceled after it was vetoed: vetoed for the contract, shown as canceled. */
  lemma CancelAfterVeto(c: Proposed, block: nat, time: nat)
    requires c.block <= block
    ensures var run := [Event(Veto, block, time), Event(Cancel, block, time)];
            && Happened(c, run) && StateOf(LifeOf(c, run), block, time) == Vetoed
            && GetProposalState(Some(block), Some(time), IndexedOf(c, run)) == Cancelled
  {
    var veto, cancel := Event(Veto, block, time), Event(Cancel, block, time);
    assert [veto, cancel][..1] == [veto] && [veto][..0] == [];
    assert Happened(c, []) && Happened(c, [veto]);
  }

  /** Created at its first voting block, which takes a voting delay of zero: pending for the contract, shown as active. */
  lemma EarlyActive(c: Proposed, time: nat)
    requires 0 < c.block == c.startBlock <= c.endBlock
    ensures Happened(c, []) && StateOf(LifeOf(c, []), c.block, time) == Pending
    ensures GetProposalState(Some(c.block), Some(time), IndexedOf(c, [])) == Active
  {
  }

  /** Defeated for want of votes, yet shown as active for ever. */
  lemma SilentDefeat(c: Proposed, block: nat, time: nat)
    requires c.block < c.startBlock <= c.endBlock < block
    ensures Happened(c, []) && StateOf(LifeOf(c, []), block, time) == Defeated
    ensures GetProposalState(Some(block), Some(time), IndexedOf(c, [])) == Active
  {
  }

  // ---------- whole runs over many proposals ----------

  datatype DaoEvent = Creation(id: string, proposed: Proposed) | Action(id: string, voter: string, event: Event)

  const EMPTY_INDEX := Index(map[], map[], 0, 0)

  /** Actions on proposals never created are skipped; in a run that happens there are none. */
  function DaoStep(s: Index, e: DaoEvent): Index {
    match e
    case Creation(id, c) => CreatedState(s, id, c.block, c.startBlock, c.endBlock, c.quorumVotes)
    case Action(id, voter, event) =>
      if id !in s.proposals then s
      else if event.act.CastVote? then VoteCastState(s, voter, id, event.act.support, event.act.votes)
      else ActState(s, id, event.act)
  }

  function DaoRun(events: seq<DaoEvent>): Index {
    if events == [] then EMPTY_INDEX else DaoStep(DaoRun(events[..|events| - 1]), events[|events| - 1])
  }

  /** Every proposal is created once, and acted on only afterwards. */
  ghost predicate DaoHappens(events: seq<DaoEvent>) {
    events == []
    || (var init, e := events[..|events| - 1], events[|events| - 1];
        DaoHappens(init) && (e.Creation? <==> e.id !in DaoRun(init).proposals))
  }

  /** The voter had no vote on the proposal that counted. */
  ghost predicate FirstVote(s: Index, v: VoteId) {
    v !in s.votes || s.votes[v].votes == 0 || s.votes[v].supportDetailed > 2
  }

  ghost predicate VotedOnce(events: seq<DaoEvent>) {
    events == []
    || (var init, e := events[..|events| - 1], events[|events| - 1];
        VotedOnce(init) && (e.Action? && e.event.act.CastVote? ==> FirstVote(DaoRun(init), VoteId(e.voter, e.id))))
  }

  ghost predicate AlwaysTallied(events: seq<DaoEvent>) {
    Tallied(DaoRun(events)) && (events == [] || AlwaysTallied(events[..|events| - 1]))
  }

  lemma {:induction false} VotesAreOnProposals(events: seq<DaoEvent>)
    requires DaoHappens(events)
    ensures forall v :: v in DaoRun(events).votes ==> v.proposal in DaoRun(events).proposals
    ensures DaoRun(events).proposalCount == |DaoRun(events).proposals|
  {
    if events != [] {
      var s, e := DaoRun(events[..|events| - 1]), events[|events| - 1];
      VotesAreOnProposals(events[..|events| - 1]);
      assert DaoRun(events).proposals.Keys == s.proposals.Keys + {e.id};
      assert |DaoRun(events).proposals| == |DaoRun(events).proposals.Keys| && |s.proposals| == |s.proposals.Keys|;
    }
  }

  lemma DaoStepTallies(s: Index, e: DaoEvent)
    requires Tallied(s) && (forall v :: v in s.votes ==> v.proposal in s.proposals) && (e.Creation? <==> e.id !in s.proposals)
    ensures Tallied(DaoStep(s, e)) <==> (e.Action? && e.event.act.CastVote? ==> FirstVote(s, VoteId(e.voter, e.id)))
  {
    match e
    case Creation(id, c) =>
      LifecycleKeepsTallies(s, id, Created(c.block, c.startBlock, c.endBlock, c.quorumVotes, None));
      SameTallies(s.(proposals := DaoStep(s, e).proposals), DaoStep(s, e));
    case Action(id, voter, event) =>
      if event.act.CastVote? {
        VoteTalliesExact(s, VoteId(voter, id), event.act.support, event.act.votes);
      } else {
        LifecycleKeepsTallies(s, id, IndexedAfter(s.proposals[id], event.act));
        SameTallies(s.(proposals := DaoStep(s, e).proposals), DaoStep(s, e));
      }
  }

  lemma SameTallies(s: Index, t: Index)
    requires s.proposals == t.proposals && s.votes == t.votes
    ensures Tallied(s) <==> Tallied(t)
  {
  }

  /** Over a whole run, every tally is the sum of the stored votes after every event exactly if nobody voted twice. */
  lemma {:induction false} DaoRunExact(events: seq<DaoEvent>)
    requires DaoHappens(events)
    ensures AlwaysTallied(events) <==> VotedOnce(events)
  {
    if events != [] {
      var init := events[..|events| - 1];
      DaoRunExact(init);
      VotesAreOnProposals(init);
      if AlwaysTallied(init) {
        DaoStepTallies(DaoRun(init), events[|events| - 1]);
      }
    }
  }

  /** How proposal `id` was created, and the actions on it. */
  function CreationOf(events: seq<DaoEvent>, id: string): Option<Proposed> {
    if events == [] then None
    else
      var e := events[|events| - 1];
      if e.id == id && e.Creation? then Some(e.proposed) else CreationOf(events[..|events| - 1], id)
  }

  function ActionsOn(events: seq<DaoEvent>, id: string): seq<Event> {
    if events == [] then []
    else
      var e, init := events[|events| - 1], ActionsOn(events[..|events| - 1], id);
      if e.id == id && e.Action? then init + [e.event] else init
  }

  lemma StoredAfter(s: Index, e: DaoEvent, id: string)
    requires e.Creation? <==> e.id !in s.proposals
    ensures var s' := DaoStep(s, e);
            && s'.proposals.Keys == s.proposals.Keys + {e.id}
            && (id != e.id && id in s.proposals ==> s'.proposals[id] == s.proposals[id])
            && s'.proposals[e.id] == match e
                                     case Creation(_, c) => Created(c.block, c.startBlock, c.endBlock, c.quorumVotes, None)
                                     case Action(_, _, event) => IndexedAfter(s.proposals[e.id], event.act)
  {
  }

  lemma IndexedMore(c: Proposed, acts: seq<Event>, e: Event)
    ensures IndexedOf(c, acts + [e]) == IndexedAfter(IndexedOf(c, acts), e.act)
  {
    assert (acts + [e])[..|acts|] == acts;
  }

  /** Proposals do not interfere: each is stored as its own creation and actions alone leave it. */
  lemma {:induction false} ProposalsAreSeparate(events: seq<DaoEvent>, id: string)
    requires DaoHappens(events)
    ensures id in DaoRun(events).proposals <==> CreationOf(events, id).Some?
    ensures if id in DaoRun(events).proposals
            then DaoRun(events).proposals[id] == IndexedOf(CreationOf(events, id).value, ActionsOn(events, id))
            else ActionsOn(events, id) == []
  {
    if events != [] {
      var init, e := events[..|events| - 1], events[|events| - 1];
      ProposalsAreSeparate(init, id);
      StoredAfter(DaoRun(init), e, id);
      if e.id == id && e.Action? {
        IndexedMore(CreationOf(init, id).value, ActionsOn(init, id), e.event);
      }
    }
  }

  /** In a run over any number of proposals, the state shown for each is the contract's exactly as `Settled` says. */
  lemma ShownInRunExact(events: seq<DaoEvent>, id: string, block: nat, time: nat)
    requires DaoHappens(events) && id in DaoRun(events).proposals && CreationOf(events, id).Some?
    requires var c, acts := CreationOf(events, id).value, ActionsOn(events, id);
             Happened(c, acts) && LastBlock(c, acts) <= block && block > 0 && c.startBlock <= c.endBlock
    ensures var life := LifeOf(CreationOf(events, id).value, ActionsOn(events, id));
            var stored := DaoRun(events).proposals[id];
            GetProposalState(Some(block), Some(time), stored) == StateOf(life, block, time) <==> Settled(stored, life, block)
  {
    ProposalsAreSeparate(events, id);
    ShownStateExact(CreationOf(events, id).value, ActionsOn(events, id), block, time);
  }

  /** A contract that let a voter vote twice would leave a tally above the sum of the stored votes. */
  lemma SecondVoteBreaksTally(s: Index, v: VoteId)
    requires Tallied(s) && v in s.votes && v.proposal in s.proposals && s.votes[v].votes > 0 && s.votes[v].supportDetailed == 1
    ensures !Tallied(VoteCastState(s, v.voter, v.proposal, 1, 1))
  {
    VoteTalliesExact(s, v, 1, 1);
  }

  // ---------- what else a run leaves ----------

  function CountActs(events: seq<DaoEvent>, queue: bool): nat {
    if events == [] then 0
    else
      var e := events[|events| - 1];
      CountActs(events[..|events| - 1], queue)
      + if e.Action? && (if queue then e.event.act.Queue? else e.event.act.Execute?) then 1 else 0
  }

  /** The last vote a voter cast on a proposal. */
  function LastVote(events: seq<DaoEvent>, v: VoteId): Option<Vote> {
    if events == [] then None
    else
      var e := events[|events| - 1];
      if e.Action? && e.event.act.CastVote? && VoteId(e.voter, e.id) == v
      then Some(Vote(e.event.act.support, e.event.act.votes)) else LastVote(events[..|events| - 1], v)
  }

  /** Over every run, `proposalsQueued` is the number of queueings less that of executions, and each voter's stored vote on a
      proposal is the last one cast. */
  lemma {:induction false} RunCounters(events: seq<DaoEvent>, v: VoteId)
    requires DaoHappens(events)
    ensures DaoRun(events).proposalsQueued == CountActs(events, true) - CountActs(events, false)
    ensures LastVote(events, v) == if v in DaoRun(events).votes then Some(DaoRun(events).votes[v]) else None
  {
    if events != [] { RunCounters(events[..|events| - 1], v); }
  }

  /** The execution time a proposal is stored with: that of its last queueing, until it is executed. */
  function LastEta(events: seq<Event>): Option<nat> {
    if events == [] then None
    else
      var act := events[|events| - 1].act;
      if act.Queue? then Some(act.eta) else if act.Execute? then None else LastEta(events[..|events| - 1])
  }

  lemma {:induction false} StoredEta(c: Proposed, events: seq<Event>)
    ensures IndexedOf(c, events).executionETA == LastEta(events)
  {
    if events != [] { StoredEta(c, events[..|events| - 1]); }
  }

  /** A proposal created anew under a stored id starts over, but keeps its execution time and its place in the count. */
  lemma RecreationKeepsEta(s: Index, id: string, c: Proposed)
    requires id in s.proposals
    ensures var s' := DaoStep(s, Creation(id, c));
            && s'.proposals == s.proposals[id := Proposal(c.startBlock, c.endBlock, c.quorumVotes, 0, 0, 0,
                                                          if c.block < c.startBlock then PENDING else ACTIVE,
                                                          s.proposals[id].executionETA)]
            && s'.proposalCount == s.proposalCount && s'.proposalsQueued == s.proposalsQueued && s'.votes == s.votes
  {
  }

  /** The page cannot tell the state exactly if it does not know the block of a pending or active proposal, or the time or
      execution time of a queued one. */
  lemma UndeterminedIff(blockNumber: Option<nat>, blockTimestamp: Option<nat>, p: Proposal)
    ensures GetProposalState(blockNumber, blockTimestamp, p) == Undetermined
       <==> ((p.status == PENDING || p.status == ACTIVE) && (blockNumber == None || blockNumber == Some(0)))
            || (p.status == QUEUED && (blockTimestamp == None || p.executionETA == None))
  {
  }

  /** In a run the contract allows, only a page that does not know the block or the time is left in the dark. */
  lemma UndeterminedInRun(c: Proposed, events: seq<Event>, blockNumber: Option<nat>, blockTimestamp: Option<nat>)
    requires Happened(c, events)
    ensures GetProposalState(blockNumber, blockTimestamp, IndexedOf(c, events)) == Undetermined
       <==> (IndexedOf(c, events).status in {PENDING, ACTIVE} && (blockNumber == None || blockNumber == Some(0)))
            || (IndexedOf(c, events).status == QUEUED && blockTimestamp == None)
  {
    IndexTracksLife(c, events);
  }

  /** A queued proposal expires 1209600 seconds after its execution time, on the page as in the contract. */
  lemma ExpiresAfterTwoWeeks(p: Proposal, eta: nat, block: Option<nat>, time: nat)
    requires p.status == QUEUED && p.executionETA == Some(eta)
    ensures GetProposalState(block, Some(time), p) == if time < eta + 1209600 then Queued else Expired
  {
  }

  // ---------- the counter of queued proposals ----------

  /** The contract allowed every action of the run, in block order for each proposal. */
  ghost predicate DaoAllowed(events: seq<DaoEvent>) {
    events == []
    || (var init, e := events[..|events| - 1], events[|events| - 1];
        && DaoAllowed(init)
        && (e.Creation? <==> CreationOf(init, e.id) == None)
        && (e.Action? ==>
              var c, acts := CreationOf(init, e.id).value, ActionsOn(init, e.id);
              Allowed(LifeOf(c, acts), e.event) && LastBlock(c, acts) <= e.event.block))
  }

  lemma {:induction false} AllowedHappens(events: seq<DaoEvent>, id: string)
    requires DaoAllowed(events)
    ensures DaoHappens(events)
    ensures CreationOf(events, id).Some? ==> Happened(CreationOf(events, id).value, ActionsOn(events, id))
  {
    if events != [] {
      var init, e := events[..|events| - 1], events[|events| - 1];
      AllowedHappens(init, id);
      AllowedHappens(init, e.id);
      ProposalsAreSeparate(init, e.id);
      if e.id == id && e.Action? {
        HappenedMore(CreationOf(init, id).value, ActionsOn(init, id), e.event);
      }
    }
  }

  lemma HappenedMore(c: Proposed, acts: seq<Event>, e: Event)
    ensures Happened(c, acts + [e]) <==> Happened(c, acts) && Allowed(LifeOf(c, acts), e) && LastBlock(c, acts) <= e.block
    ensures LifeOf(c, acts + [e]) == LifeAfter(LifeOf(c, acts), e)
  {
    assert (acts + [e])[..|acts|] == acts;
  }

  /** The proposal has been queued and not executed, for the contract. */
  predicate Waits(l: Life) {
    l.eta.Some? && !l.executed
  }

  ghost function LifeIn(events: seq<DaoEvent>, id: string): Life
    requires CreationOf(events, id).Some?
  {
    LifeOf(CreationOf(events, id).value, ActionsOn(events, id))
  }

  ghost function Waiting(events: seq<DaoEvent>): set<string> {
    set id | id in DaoRun(events).proposals && CreationOf(events, id).Some? && Waits(LifeIn(events, id))
  }

  lemma {:induction false} ExecutedHasEta(c: Proposed, events: seq<Event>)
    requires Happened(c, events) && LifeOf(c, events).executed
    ensures LifeOf(c, events).eta.Some?
  {
    var init := events[..|events| - 1];
    if LifeOf(c, init).executed { ExecutedHasEta(c, init); }
  }

  /** Queueing starts the wait, executing ends it, and nothing else does either. */
  lemma WaitsAfter(c: Proposed, acts: seq<Event>, e: Event)
    requires Happened(c, acts) && Allowed(LifeOf(c, acts), e)
    ensures var before, after := Waits(LifeOf(c, acts)), Waits(LifeAfter(LifeOf(c, acts), e));
            if e.act.Queue? then !before && after else if e.act.Execute? then before && !after else before == after
  {
    if LifeOf(c, acts).executed { ExecutedHasEta(c, acts); }
  }

  lemma OthersStay(init: seq<DaoEvent>, e: DaoEvent, id: string)
    requires id != e.id
    ensures CreationOf(init + [e], id) == CreationOf(init, id) && ActionsOn(init + [e], id) == ActionsOn(init, id)
  {
    assert (init + [e])[..|init|] == init;
  }

  lemma OwnAfter(init: seq<DaoEvent>, e: DaoEvent)
    ensures e.Creation? ==> CreationOf(init + [e], e.id) == Some(e.proposed) && ActionsOn(init + [e], e.id) == ActionsOn(init, e.id)
    ensures e.Action? ==>
              && CreationOf(init + [e], e.id) == CreationOf(init, e.id)
              && ActionsOn(init + [e], e.id) == ActionsOn(init, e.id) + [e.event]
  {
    assert (init + [e])[..|init|] == init;
  }

  /** A proposal is waiting after the run. */
  ghost predicate IsWaiting(events: seq<DaoEvent>, id: string) {
    CreationOf(events, id).Some? && Waits(LifeIn(events, id))
  }

  lemma WaitingAfter(init: seq<DaoEvent>, e: DaoEvent, id: string)
    requires DaoAllowed(init + [e]) && DaoAllowed(init)
    ensures IsWaiting(init + [e], id)
       <==> if id == e.id && e.Action? && e.event.act.Queue? then true
            else if id == e.id && e.Action? && e.event.act.Execute? then false
            else IsWaiting(init, id)
    ensures e.Action? && e.event.act.Queue? ==> !IsWaiting(init, e.id)
    ensures e.Action? && e.event.act.Execute? ==> IsWaiting(init, e.id)
  {
    var events := init + [e];
    assert events[..|events| - 1] == init;
    AllowedHappens(init, e.id);
    ProposalsAreSeparate(init, e.id);
    OwnAfter(init, e);
    if id != e.id { OthersStay(init, e, id); }
    if e.Action? {
      var c, acts := CreationOf(init, e.id).value, ActionsOn(init, e.id);
      HappenedMore(c, acts, e.event);
      WaitsAfter(c, acts, e.event);
    } else {
      assert ActionsOn(init, e.id) == [];
    }
  }

  lemma WaitingIsWaiting(events: seq<DaoEvent>, id: string)
    requires DaoAllowed(events)
    ensures id in Waiting(events) <==> IsWaiting(events, id)
  {
    AllowedHappens(events, id);
    ProposalsAreSeparate(events, id);
  }

  lemma WaitingMember(init: seq<DaoEvent>, e: DaoEvent, id: string)
    requires DaoAllowed(init + [e]) && DaoAllowed(init)
    ensures id in Waiting(init + [e])
       <==> if id == e.id && e.Action? && e.event.act.Queue? then true
            else if id == e.id && e.Action? && e.event.act.Execute? then false
            else id in Waiting(init)
    ensures e.Action? && e.event.act.Queue? ==> e.id !in Waiting(init)
    ensures e.Action? && e.event.act.Execute? ==> e.id in Waiting(init)
  {
    WaitingIsWaiting(init + [e], id);
    WaitingIsWaiting(init, id);
    WaitingIsWaiting(init, e.id);
    WaitingAfter(init, e, id);
  }

  lemma OneMoreOrLess(a: set<string>, b: set<string>, x: string, more: bool, less: bool)
    requires forall y :: y in b <==> if y == x && more then true else if y == x && less then false else y in a
    requires (more ==> x !in a) && (less ==> x in a) && !(more && less)
    ensures |b| == |a| + if more then 1 else if less then -1 else 0
  {
    assert b == if more then a + {x} else if less then a - {x} else a;
  }

  lemma WaitingStep(init: seq<DaoEvent>, e: DaoEvent)
    requires DaoAllowed(init + [e]) && DaoAllowed(init)
    ensures |Waiting(init + [e])| == |Waiting(init)| + if e.Action? && e.event.act.Queue? then 1
                                                       else if e.Action? && e.event.act.Execute? then -1 else 0
  {
    var more, less := e.Action? && e.event.act.Queue?, e.Action? && e.event.act.Execute?;
    forall id
      ensures id in Waiting(init + [e]) <==> if id == e.id && more then true else if id == e.id && less then false else id in Waiting(init)
    {
      WaitingMember(init, e, id);
    }
    WaitingMember(init, e, e.id);
    OneMoreOrLess(Waiting(init), Waiting(init + [e]), e.id, more, less);
  }

  /** Over every run the contract allows, `proposalsQueued` is the number of proposals queued and not executed. */
  lemma {:induction false} WaitingIsCounted(events: seq<DaoEvent>)
    requires DaoAllowed(events)
    ensures DaoRun(events).proposalsQueued == |Waiting(events)|
  {
    if events == [] {
      assert Waiting(events) == {};
    } else {
      var init, e := events[..|events| - 1], events[|events| - 1];
      assert events == init + [e];
      WaitingIsCounted(init);
      WaitingStep(init, e);
      AllowedHappens(events, "");
      RunCounters(events, VoteId("", ""));
      RunCounters(init, VoteId("", ""));
    }
  }

  /** The proposals stored as queued. */
  ghost function StoredQueued(events: seq<DaoEvent>): set<string> {
    set id | id in DaoRun(events).proposals && DaoRun(events).proposals[id].status == QUEUED
  }

  /** Queued, not executed, and canceled or vetoed. */
  ghost predicate Dropped(events: seq<DaoEvent>, id: string) {
    IsWaiting(events, id) && (LifeIn(events, id).canceled || LifeIn(events, id).vetoed)
  }

  lemma StoredQueuedIff(events: seq<DaoEvent>, id: string)
    requires DaoAllowed(events)
    ensures id in StoredQueued(events) <==> id in Waiting(events) && !Dropped(events, id)
  {
    AllowedHappens(events, id);
    ProposalsAreSeparate(events, id);
    if CreationOf(events, id).Some? { IndexTracksLife(CreationOf(events, id).value, ActionsOn(events, id)); }
  }

  lemma SubsetSize(a: set<string>, b: set<string>)
    requires a <= b
    ensures |a| <= |b| && (|a| == |b| <==> a == b)
  {
    assert b == a + (b - a) && a !! (b - a);
    if |a| == |b| { assert |b - a| == 0; }
  }

  /** `proposalsQueued` is the number of proposals currently queued exactly as long as no queued proposal was canceled or
      vetoed: neither handler takes it from the count. */
  lemma QueuedCountExact(events: seq<DaoEvent>)
    requires DaoAllowed(events)
    ensures DaoRun(events).proposalsQueued == |StoredQueued(events)| <==> forall id :: !Dropped(events, id)
  {
    WaitingIsCounted(events);
    forall id ensures id in StoredQueued(events) <==> id in Waiting(events) && !Dropped(events, id) {
      StoredQueuedIff(events, id);
    }
    forall id | Dropped(events, id) ensures id in Waiting(events) {
      WaitingIsWaiting(events, id);
    }
    SubsetSize(StoredQueued(events), Waiting(events));
  }

  lemma AllowedMore(init: seq<DaoEvent>, e: DaoEvent)
    ensures DaoAllowed(init + [e])
       <==> DaoAllowed(init) && (e.Creation? <==> CreationOf(init, e.id) == None)
            && (e.Action? ==> Allowed(LifeOf(CreationOf(init, e.id).value, ActionsOn(init, e.id)), e.event)
                              && LastBlock(CreationOf(init, e.id).value, ActionsOn(init, e.id)) <= e.event.block)
  {
    assert (init + [e])[..|init|] == init;
  }

  const SAMPLE := Proposed(1, 0, 2, 3, 1)
  const VOTE := Event(CastVote(1, 1), 3, 0)
  const QUEUEING := Event(Queue(0), 4, 0)
  const CANCELING := Event(Cancel, 4, 0)

  /** A proposal is created, voted for, queued and canceled: none is queued any more, and the counter says one is. */
  lemma CanceledIsStillCounted(r1: seq<DaoEvent>, r2: seq<DaoEvent>, r3: seq<DaoEvent>, r4: seq<DaoEvent>)
    requires r1 == [Creation("1", SAMPLE)] && r2 == r1 + [Action("1", "v", VOTE)]
    requires r3 == r2 + [Action("1", "v", QUEUEING)] && r4 == r3 + [Action("1", "v", CANCELING)]
    ensures DaoAllowed(r4) && DaoRun(r4).proposalsQueued != |StoredQueued(r4)|
  {
    var empty: seq<DaoEvent> := [];
    assert r1 == empty + [Creation("1", SAMPLE)];
    AllowedMore(empty, Creation("1", SAMPLE));
    OwnAfter(empty, Creation("1", SAMPLE));
    AllowedMore(r1, Action("1", "v", VOTE));
    OwnAfter(r1, Action("1", "v", VOTE));
    HappenedMore(SAMPLE, [], VOTE);
    AllowedMore(r2, Action("1", "v", QUEUEING));
    OwnAfter(r2, Action("1", "v", QUEUEING));
    HappenedMore(SAMPLE, ActionsOn(r2, "1"), QUEUEING);
    AllowedMore(r3, Action("1", "v", CANCELING));
    OwnAfter(r3, Action("1", "v", CANCELING));
    HappenedMore(SAMPLE, ActionsOn(r3, "1"), CANCELING);
    assert Dropped(r4, "1");
    QueuedCountExact(r4);
  }
}
