/** `og-cryptopunks.ts`, `wrapped-punk.ts` and `cryptopunks-vote.ts`: the index of original and wrapped CryptoPunks. */
module OgPunks {
  import opened Collections
  import opened Options
  import opened NErc721

  datatype OGPunk = OGPunk(owner: string, wrapped: bool, delegate: Option<string>)

  /** The CryptoPunks part of an `Account` entity. */
  datatype Holder = Holder(ogpunkBalanceRaw: int, ogpunks: seq<string>)

  const NEW_HOLDER := Holder(0, [])

  /** The stored entities; `represented` holds each delegate's `ogpunksRepresented`. */
  datatype OGState = OGState(holders: map<string, Holder>, represented: map<string, seq<string>>, ogpunks: map<string, OGPunk>) {
    function HolderOf(id: string): Holder {
      if id in holders then holders[id] else NEW_HOLDER
    }

    function RepresentedBy(d: string): seq<string> {
      if d in represented then represented[d] else []
    }

    function SaveHolder(id: string, h: Holder): OGState {
      this.(holders := holders[id := h])
    }

    function SaveRepresented(d: string, list: seq<string>): OGState {
      this.(represented := represented[d := list])
    }

    /** `getOrCreateAccount(id)`: a missing account is created and saved. */
    function TouchHolder(id: string): OGState {
      SaveHolder(id, HolderOf(id))
    }

    function TouchRepresented(d: string): OGState {
      SaveRepresented(d, RepresentedBy(d))
    }

    function SavePunk(i: string, punk: OGPunk): OGState {
      this.(ogpunks := ogpunks[i := punk])
    }
  }

  const EMPTY_OG := OGState(map[], map[], map[])

  function Lose(h: Holder, i: string): Holder {
    h.(ogpunkBalanceRaw := h.ogpunkBalanceRaw - 1, ogpunks := Without(h.ogpunks, {i}))
  }

  function Gain(h: Holder, i: string): Holder {
    h.(ogpunkBalanceRaw := h.ogpunkBalanceRaw + 1, ogpunks := h.ogpunks + [i])
  }

  // ---------- the handlers as functions of the stored state ----------

  function AssignState(s: OGState, to: string, i: string): OGState {
    s.TouchHolder(to).SavePunk(i, OGPunk(to, false, None)).SaveHolder(to, Gain(s.HolderOf(to), i))
  }

  /** Both parties are loaded before either is saved. */
  function PunkTransferState(s: OGState, from: string, to: string, i: string): OGState
    requires i in s.ogpunks
  {
    s.TouchHolder(from).TouchHolder(to)
    .SaveHolder(from, Lose(s.HolderOf(from), i))
    .SavePunk(i, s.ogpunks[i].(owner := to))
    .SaveHolder(to, Gain(s.HolderOf(to), i))
  }

  /** The sender is saved before the receiver is loaded; the zero address stands for the wrapper contract. */
  function WrappedTransferState(s: OGState, wrapper: string, from: string, to: string, i: string): OGState
    requires i in s.ogpunks
  {
    var punk := s.ogpunks[i];
    var marked := if from == ZERO_ADDRESS then punk.(wrapped := true) else punk;
    var previous := if from == ZERO_ADDRESS then wrapper else from;
    var taken := s.TouchHolder(previous).SaveHolder(previous, Lose(s.HolderOf(previous), i));
    var next := if to == ZERO_ADDRESS then wrapper else to;
    var moved := (if to == ZERO_ADDRESS then marked.(wrapped := false) else marked).(owner := next);
    taken.TouchHolder(next).SavePunk(i, moved).SaveHolder(next, Gain(taken.HolderOf(next), i))
  }

  function OGDelegateState(s: OGState, delegator: string, from: string, to: string, i: string): OGState
    requires i in s.ogpunks
  {
    s.TouchHolder(delegator).TouchRepresented(from).TouchRepresented(to)
    .SavePunk(i, s.ogpunks[i].(delegate := Some(to)))
    .SaveRepresented(from, Without(s.RepresentedBy(from), {i}))
    .SaveRepresented(to, s.RepresentedBy(to) + [i])
  }

  // ---------- the handlers themselves ----------

  class OGStore {
    var holders: map<string, Holder>
    var represented: map<string, seq<string>>
    var ogpunks: map<string, OGPunk>

    ghost function Snapshot(): OGState
      reads this
    {
      OGState(holders, represented, ogpunks)
    }

    constructor ()
      ensures Snapshot() == EMPTY_OG
    {
      holders, represented, ogpunks := map[], map[], map[];
    }

    method GetOrCreateAccount(id: string) returns (h: Holder)
      modifies this
      ensures h == old(Snapshot()).HolderOf(id) && Snapshot() == old(Snapshot()).TouchHolder(id)
    {
      if id !in holders {
        holders := holders[id := NEW_HOLDER];
      }
      h := holders[id];
      assert holders == old(holders)[id := h];
    }

    method GetOrCreateDelegate(id: string) returns (list: seq<string>)
      modifies this
      ensures list == old(Snapshot()).RepresentedBy(id) && Snapshot() == old(Snapshot()).TouchRepresented(id)
    {
      if id !in represented {
        represented := represented[id := []];
      }
      list := represented[id];
      assert represented == old(represented)[id := list];
    }

    method HandleOGPunkAssign(to: string, punkIndex: string)
      modifies this
      ensures Snapshot() == AssignState(old(Snapshot()), to, punkIndex)
    {
      var owner := GetOrCreateAccount(to);
      ogpunks := ogpunks[punkIndex := OGPunk(to, false, None)];
      owner := owner.(ogpunkBalanceRaw := owner.ogpunkBalanceRaw + 1, ogpunks := owner.ogpunks + [punkIndex]);
      holders := holders[to := owner];
    }

    /** The handler stops at a punk that is not stored, and what it did is undone. So do the two handlers below. */
    method HandleOGPunkTransfer(from: string, to: string, punkIndex: string) returns (saved: bool)
      modifies this
      ensures saved <==> punkIndex in old(ogpunks)
      ensures Snapshot() == if saved then PunkTransferState(old(Snapshot()), from, to, punkIndex) else old(Snapshot())
    {
      saved := punkIndex in ogpunks;
      if !saved {
        return;
      }
      var prevOwner := GetOrCreateAccount(from);
      var newOwner := GetOrCreateAccount(to);
      prevOwner := prevOwner.(ogpunkBalanceRaw := prevOwner.ogpunkBalanceRaw - 1,
                              ogpunks := Without(prevOwner.ogpunks, {punkIndex}));
      holders := holders[from := prevOwner];
      ogpunks := ogpunks[punkIndex := ogpunks[punkIndex].(owner := to)];
      newOwner := newOwner.(ogpunkBalanceRaw := newOwner.ogpunkBalanceRaw + 1, ogpunks := newOwner.ogpunks + [punkIndex]);
      holders := holders[to := newOwner];
    }

    method TakeFrom(owner: string, tokenId: string)
      modifies this
      ensures Snapshot() == old(Snapshot()).TouchHolder(owner).SaveHolder(owner, Lose(old(Snapshot()).HolderOf(owner), tokenId))
    {
      var prevOwner := GetOrCreateAccount(owner);
      prevOwner := prevOwner.(ogpunkBalanceRaw := prevOwner.ogpunkBalanceRaw - 1,
                              ogpunks := Without(prevOwner.ogpunks, {tokenId}));
      holders := holders[owner := prevOwner];
    }

    method GiveTo(owner: string, tokenId: string, ogpunk: OGPunk)
      modifies this
      ensures Snapshot() == old(Snapshot()).TouchHolder(owner).SavePunk(tokenId, ogpunk.(owner := owner))
                            .SaveHolder(owner, Gain(old(Snapshot()).HolderOf(owner), tokenId))
    {
      var newOwner := GetOrCreateAccount(owner);
      ogpunks := ogpunks[tokenId := ogpunk.(owner := owner)];
      newOwner := newOwner.(ogpunkBalanceRaw := newOwner.ogpunkBalanceRaw + 1, ogpunks := newOwner.ogpunks + [tokenId]);
      holders := holders[owner := newOwner];
    }

    method HandleWrappedTransfer(wrapper: string, from: string, to: string, tokenId: string) returns (saved: bool)
      modifies this
      ensures saved <==> tokenId in old(ogpunks)
      ensures Snapshot() == if saved then WrappedTransferState(old(Snapshot()), wrapper, from, to, tokenId) else old(Snapshot())
    {
      saved := tokenId in ogpunks;
      if !saved {
        return;
      }
      var ogpunk := ogpunks[tokenId];
      if from == ZERO_ADDRESS {
        ogpunk := ogpunk.(wrapped := true);
        TakeFrom(wrapper, tokenId);
      } else {
        TakeFrom(from, tokenId);
      }
      if to == ZERO_ADDRESS {
        ogpunk := ogpunk.(wrapped := false);
        GiveTo(wrapper, tokenId, ogpunk);
      } else {
        GiveTo(to, tokenId, ogpunk);
      }
    }

    method HandleOGPunkDelegateChanged(delegator: string, fromDelegate: string, toDelegate: string, punkIndex: string)
      returns (saved: bool)
      modifies this
      ensures saved <==> punkIndex in old(ogpunks)
      ensures Snapshot()
           == if saved then OGDelegateState(old(Snapshot()), delegator, fromDelegate, toDelegate, punkIndex) else old(Snapshot())
    {
      saved := punkIndex in ogpunks;
      if !saved {
        return;
      }
      var account := GetOrCreateAccount(delegator);
      var previous := GetOrCreateDelegate(fromDelegate);
      var next := GetOrCreateDelegate(toDelegate);
      ogpunks := ogpunks[punkIndex := ogpunks[punkIndex].(delegate := Some(toDelegate))];
      represented := represented[fromDelegate := Without(previous, {punkIndex})];
      represented := represented[toDelegate := next + [punkIndex]];
    }
  }
}
