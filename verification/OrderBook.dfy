/**
 The concrete limit order book: slab nodes, intrusive FIFOs, direct-indexed
 ladders with incremental touch, and the open-addressing id index. Every
 operation is proved to do to the abstract book what MatchingSpec says.
 */
module OrderBook {
  import opened MatchingSpec
  import opened Slab
  import opened Fifo
  import Ladder
  import IdTable
  import opened BookRep

  class OrderBook {
    const cfg: Config
    const slab: SlabAllocator<Order>
    const bids: Ladder.PriceLadder
    const asks: Ladder.PriceLadder
    const index: IdTable.IdIndex
    ghost var bidQ: seq<seq<nat>>
    ghost var askQ: seq<seq<nat>>

    ghost function Repr(): set<object> {
      {this, slab, slab.storage, bids, bids.levels, asks, asks.levels, index, index.table}
    }

    function On(side: Side): Ladder.PriceLadder {
      if side.Buy? then bids else asks
    }

    /** The components are distinct and sized as the constructor sizes them. */
    ghost predicate Wired() {
      && bids != asks && bids.levels != asks.levels
      && bids.side == Buy && asks.side == Sell
      && bids.minPx == asks.minPx == cfg.minPx
      && bids.levels.Length == asks.levels.Length == cfg.maxPx - cfg.minPx + 1
      && slab.storage.Length == cfg.capacity < index.capacity && 2 * cfg.capacity <= index.capacity
    }

    ghost function State(): Rep
      reads Repr()
    {
      Rep(slab.storage[..], cfg.minPx, SideRep(bids.levels[..], bidQ), SideRep(asks.levels[..], askQ), index.ids)
    }

    /** The abstract book. */
    ghost function Book(): Book
      reads Repr()
    {
      Abs(State())
    }

    ghost function Size(): nat
      reads Repr()
    {
      |Book().bids| + |Book().asks|
    }

    /** Everything but the touch. */
    ghost predicate Core()
      reads Repr()
    {
      && Wired() && slab.Valid() && index.Valid()
      && Inv(State())
      && slab.inUse == |index.ids| == Size()
    }

    ghost predicate Valid()
      reads Repr()
    {
      Trading() && WellFormed(cfg, Book())
    }

    /** Core and both touches: what every step of a match keeps. */
    ghost predicate Trading()
      reads Repr()
    {
      Core() && bids.TouchOk() && asks.TouchOk()
    }

    constructor (capacity: nat, minPx: int, maxPx: int, hash: nat -> nat)
      requires capacity <= 0x4000_0000_0000_0000 && minPx <= maxPx
      ensures Valid()
      ensures fresh(slab) && fresh(slab.storage) && fresh(index) && fresh(index.table)
      ensures fresh(bids) && fresh(bids.levels) && fresh(asks) && fresh(asks.levels)
      ensures cfg == Config(capacity, minPx, maxPx)
      ensures Book() == EMPTY
    {
      hide Inv, FreeList, IdTable.Represents, IdTable.Probing, IdTable.Hashes, IdTable.Masked, Ladder.Touch;
      hide Ladder.Occupied, Abs, WellFormed, Core;
      cfg := Config(capacity, minPx, maxPx);
      slab := new SlabAllocator<Order>(capacity);
      bids := new Ladder.PriceLadder(Buy, minPx, maxPx);
      asks := new Ladder.PriceLadder(Sell, minPx, maxPx);
      index := new IdTable.IdIndex(capacity, hash);
      bidQ := seq(maxPx - minPx + 1, _ => []);
      askQ := seq(maxPx - minPx + 1, _ => []);
      new;
      FreshIsValid();
    }

    /** All levels, queues and slots empty, nothing indexed: a valid empty book. */
    lemma FreshIsValid()
      requires Wired() && slab.Valid() && index.Valid() && bids.TouchOk() && asks.TouchOk()
      requires slab.inUse == 0 && index.ids == map[]
      requires forall x :: 0 <= x < slab.storage.Length ==> slab.storage[x].Free?
      requires forall i :: 0 <= i < bids.levels.Length ==> bids.levels[i] == EMPTY_LEVEL
      requires forall i :: 0 <= i < asks.levels.Length ==> asks.levels[i] == EMPTY_LEVEL
      requires |bidQ| == |askQ| == bids.levels.Length
      requires forall i :: 0 <= i < |bidQ| ==> bidQ[i] == [] && askQ[i] == []
      ensures Valid() && Book() == EMPTY
    {
      hide Inv, FreeList, IdTable.Represents, IdTable.Probing, Ladder.Touch, Abs, WellFormed;
      EmptyInv(State());
      EmptyWellFormed(cfg);
    }

    /** Fill the taker against the first order of the best maker level; a spent order leaves every structure. */
    method ConsumeHead(maker: Side, i: nat, px: int, taker: nat, remaining: nat) returns (fill: Fill, left: nat)
      requires Core() && px == cfg.minPx + i && remaining > 0
      requires i < On(maker).levels.Length && !On(maker).levels[i].Empty()
      requires Ladder.NoneBetter(maker, On(maker).levels[..], i)
      modifies this`bidQ, this`askQ, slab, slab.storage, On(maker).levels, index`ids, index.table
      ensures Core()
      ensures var now := old(Book()).Of(maker);
        && now != [] && now[0].price == px
        && fill == HeadFill(taker, maker.Opposite(), remaining, now)
        && 0 < fill.qty <= remaining && left == remaining - fill.qty
        && Book() == old(Book()).With(maker, AfterHead(remaining, now))
      ensures forall j :: 0 <= j < On(maker).levels.Length && j != i ==> On(maker).levels[j] == old(On(maker).levels[j])
      ensures index.ids.Keys <= old(index.ids).Keys
    {
      hide Inv, FreeList, IdTable.Represents, IdTable.Probing, IdTable.Hashes, IdTable.Masked, Ladder.Touch;
      hide Ladder.Occupied, Abs, Chain, Better, FreeKept, Ladder.NoneBetter;
      hide Before, After, Relinked, Shrunk, ShrunkLevel, Unlinked, UnlinkedLevel;
      hide WellFormed, EntriesOf, Flat, Rank, SameOff, Depth;
      ghost var r := State();
      BestHead(r, maker, i, px);
      ghost var q := r.On(maker).queues[i];
      var lad := On(maker);
      ghost var lvl := lad.levels[i];
      FlatHead(r, maker, i, px, lvl, q);
      var x := lad.levels[i].head;
      var o := slab.storage[x].value;
      var f := if remaining < o.qty then remaining else o.qty;
      fill := Fill(o.id, taker, px, f, maker.Opposite());
      left := remaining - f;
      FillHead(slab.storage, lad.levels, i, f);
      if f == o.qty {
        SpendHead(maker, i, px, r, lvl, q);
      } else {
        FillLeavesCore(maker, i, px, r, lvl, q, f);
      }
    }

    /** The first order of level (maker, i), the side's best, has been filled by f, in slab and level total only. */
    ghost predicate HeadFilled(maker: Side, i: nat, px: int, r: Rep, lvl: LevelFifo, q: seq<nat>, f: nat)
      reads Repr()
    {
      && Wired() && index.Valid() && Inv(r) && px == r.minPx + i
      && FreeList(r.store, slab.freeHead, slab.free) && slab.inUse + |slab.free| == slab.storage.Length
      && At(r, maker, i, lvl, q) && q != [] && Chain(r.store, maker, px, lvl, q) && lvl.head == q[0]
      && Before(r.store, maker, r.On(maker).queues, i) == []
      && r == Rep(r.store, cfg.minPx, r.bid, r.ask, index.ids)
      && slab.inUse == |r.ids| == |Abs(r).bids| + |Abs(r).asks|
      && Holds(r.store, q[0]) && f <= r.store[q[0]].value.qty <= lvl.totalQty && r.store[q[0]].value.id in r.ids
      && slab.storage[..] == Shrunk(r.store, q[0], f)
      && On(maker).levels[..] == r.On(maker).levels[i := ShrunkLevel(lvl, f)]
      && On(maker.Opposite()).levels[..] == r.On(maker.Opposite()).levels
      && State().bid.queues == r.bid.queues && State().ask.queues == r.ask.queues
    }

    /** A spent head leaves every structure. */
    method SpendHead(maker: Side, i: nat, px: int, ghost r: Rep, ghost lvl: LevelFifo, ghost q: seq<nat>)
      requires q != [] && Holds(r.store, q[0]) && HeadFilled(maker, i, px, r, lvl, q, r.store[q[0]].value.qty)
      modifies this`bidQ, this`askQ, slab, slab.storage, On(maker).levels, index`ids, index.table
      ensures Core()
      ensures Abs(r).Of(maker) != [] && Book() == Abs(r).With(maker, Abs(r).Of(maker)[1..])
      ensures On(maker).levels[..] == r.On(maker).levels[i := On(maker).levels[i]]
      ensures index.ids.Keys <= r.ids.Keys
    {
      hide Inv, FreeList, IdTable.Represents, IdTable.Probing, IdTable.Hashes, IdTable.Masked, Abs, Chain, FreeKept;
      hide Before, After, Relinked, Shrunk, ShrunkLevel, Unlinked, UnlinkedLevel;
      PopIsUnlink(r.store, maker, px, lvl, q, Free(slab.freeHead));
      DropHead(r, maker, i, px, lvl, q, slab.freeHead);
      RetireHead(maker, i, px, r, lvl, q);
      assert |index.ids| == |r.ids| - 1;
    }

    lemma FillLeavesCore(maker: Side, i: nat, px: int, r: Rep, lvl: LevelFifo, q: seq<nat>, f: nat)
      requires HeadFilled(maker, i, px, r, lvl, q, f) && f < r.store[q[0]].value.qty
      ensures Core()
      ensures Abs(r).Of(maker) != [] && Book() == Abs(r).With(maker, AfterHead(f, Abs(r).Of(maker)))
    {
      hide Inv, FreeList, IdTable.Represents, IdTable.Probing, IdTable.Hashes, IdTable.Masked, Abs, Chain, FreeKept;
      hide Before, After, Relinked, Shrunk, ShrunkLevel;
      ShrinkHead(r, maker, i, px, lvl, q, f);
      FreeListFrame(r.store, slab.storage[..], slab.freeHead, slab.free);
      StateIs(r, maker, i, ShrunkLevel(lvl, f), q);
    }

    /** The head of level (maker, i) is spent: pop it, erase its id, free its slot. */
    method RetireHead(maker: Side, i: nat, px: int, ghost r: Rep, ghost lvl: LevelFifo, ghost q: seq<nat>)
      requires Wired() && index.Valid()
      requires FreeList(r.store, slab.freeHead, slab.free) && slab.inUse + |slab.free| == slab.storage.Length
      requires At(r, maker, i, lvl, q) && q != [] && Chain(r.store, maker, px, lvl, q) && lvl.head == q[0]
      requires r == Rep(r.store, cfg.minPx, r.bid, r.ask, index.ids) && |index.ids| < index.capacity
      requires Holds(r.store, q[0]) && r.store[q[0]].value.qty <= lvl.totalQty && r.store[q[0]].value.id in r.ids
      requires slab.storage[..] == Shrunk(r.store, q[0], r.store[q[0]].value.qty)
      requires On(maker).levels[..] == r.On(maker).levels[i := ShrunkLevel(lvl, r.store[q[0]].value.qty)]
      requires On(maker.Opposite()).levels[..] == r.On(maker.Opposite()).levels
      requires State().bid.queues == r.bid.queues && State().ask.queues == r.ask.queues
      modifies this`bidQ, this`askQ, slab, slab.storage, On(maker).levels, index`ids, index.table
      ensures slab.Valid() && index.Valid() && slab.inUse == old(slab.inUse) - 1
      ensures index.ids == r.ids - {r.store[q[0]].value.id}
      ensures On(maker).levels[..] == r.On(maker).levels[i := On(maker).levels[i]]
      ensures Linked(r.store, r.store[q[0]].value.prev) && Linked(r.store, r.store[q[0]].value.next)
      ensures lvl.orderCount >= 1
      ensures var o := r.store[q[0]].value;
        State() == Relinked(r, Unlinked(r.store, q[0])[q[0] := Free(old(slab.freeHead))], maker, i,
                            UnlinkedLevel(lvl, o), q[1..], r.ids - {o.id})
    {
      hide Inv, FreeList, IdTable.Represents, IdTable.Probing, IdTable.Hashes, IdTable.Masked, Abs, FreeKept;
      hide Relinked, Chain;
      PopIsUnlink(r.store, maker, px, lvl, q, Free(slab.freeHead));
      var lad := On(maker);
      var x := lad.levels[i].head;
      var id := slab.storage[x].value.id;
      PopHead(slab.storage, lad.levels, i);
      FreeListFrame(r.store, slab.storage[..], slab.freeHead, slab.free);
      var found := index.LookupAndEraseId(id);
      Vacate(x, r, maker, i, UnlinkedLevel(lvl, r.store[q[0]].value), q[1..]);
    }

    /** Return a slot that level (side, i) no longer links to the slab; its queue is now q. */
    method Vacate(x: nat, ghost r: Rep, side: Side, i: nat, ghost lvl: LevelFifo, ghost q: seq<nat>)
      requires Wired() && slab.Valid() && x < slab.storage.Length && !slab.storage[x].Free?
      requires i < |r.On(side).levels| && i < |r.On(side).queues| && r.minPx == cfg.minPx
      requires On(side).levels[..] == r.On(side).levels[i := lvl]
      requires On(side.Opposite()).levels[..] == r.On(side.Opposite()).levels
      requires bidQ == r.bid.queues && askQ == r.ask.queues
      modifies this`bidQ, this`askQ, slab, slab.storage
      ensures slab.Valid() && slab.inUse == old(slab.inUse) - 1
      ensures State() == Relinked(r, old(slab.storage[..])[x := Free(old(slab.freeHead))], side, i, lvl, q, index.ids)
    {
      hide FreeList, Relinked;
      slab.Deallocate(x);
      SetQueue(side, i, q);
      StateIs(r, side, i, lvl, q);
    }

    /** Drain level (maker, i) until it is empty or the taker, whose limit tpx crosses it, is filled. */
    method ConsumeLevel(maker: Side, i: nat, px: int, taker: nat, ghost tpx: int, remaining: nat)
      returns (fills: seq<Fill>, left: nat)
      requires Core() && px == cfg.minPx + i && remaining > 0
      requires i < On(maker).levels.Length && !On(maker).levels[i].Empty()
      requires Ladder.NoneBetter(maker, On(maker).levels[..], i)
      requires Crosses(maker.Opposite(), tpx, px)
      modifies this`bidQ, this`askQ, slab, slab.storage, On(maker).levels, index`ids, index.table
      ensures Core() && left < remaining
      ensures Book() == old(Book()).With(maker, Book().Of(maker))
      ensures Resumes(taker, maker.Opposite(), tpx, remaining, old(Book()).Of(maker), fills, left, Book().Of(maker))
      ensures left > 0 ==> On(maker).levels[i].Empty()
      ensures forall j :: 0 <= j < On(maker).levels.Length && j != i ==> On(maker).levels[j] == old(On(maker).levels[j])
      ensures index.ids.Keys <= old(index.ids).Keys
    {
      hide Core, Book, Resumes, Better, Match;
      var lad := On(maker);
      ghost var makers := Book().Of(maker);
      fills := [];
      left := remaining;
      ResumesAtStart(taker, maker.Opposite(), tpx, remaining, makers);
      while left > 0 && !lad.levels[i].Empty()
        invariant Core() && left <= remaining
        invariant lad.levels[i].Empty() ==> left < remaining
        invariant Book() == old(Book()).With(maker, Book().Of(maker))
        invariant Resumes(taker, maker.Opposite(), tpx, remaining, makers, fills, left, Book().Of(maker))
        invariant forall j :: 0 <= j < lad.levels.Length && j != i ==> lad.levels[j] == old(lad.levels[j])
        invariant index.ids.Keys <= old(index.ids).Keys
        decreases left
      {
        ghost var now := Book().Of(maker);
        var fill, rest := ConsumeHead(maker, i, px, taker, left);
        ResumesAfterHead(taker, maker.Opposite(), tpx, remaining, makers, fills, left, now);
        fills := fills + [fill];
        left := rest;
      }
    }

    /** The touch is the price of the side's first order; without one the side is empty. */
    lemma BestPrice(side: Side) returns (i: nat)
      requires Core() && On(side).TouchOk()
      ensures On(side).live == 0 ==> Book().Of(side) == []
      ensures On(side).live > 0 ==>
        && i == On(side).best - cfg.minPx && i < On(side).levels.Length
        && !On(side).levels[i].Empty() && Ladder.NoneBetter(side, On(side).levels[..], i)
        && Book().Of(side) != [] && Book().Of(side)[0].price == On(side).best
    {
      hide Inv, FreeList, IdTable.Represents, IdTable.Probing, IdTable.Hashes, IdTable.Masked, Ladder.Touch;
      hide Ladder.Occupied, Abs, Better, Ladder.NoneBetter;
      var lad := On(side);
      i := Ladder.TouchBest(side, cfg.minPx, lad.levels[..], lad.best, lad.live);
      if lad.live == 0 {
        NoLevels(State(), side);
      } else {
        BestHead(State(), side, i, lad.best);
      }
    }

    /** Consume the best level of the makers and repair the touch if it emptied. */
    method SweepBest(maker: Side, taker: nat, ghost tpx: int, remaining: nat) returns (fills: seq<Fill>, left: nat)
      requires Trading() && remaining > 0 && On(maker).live > 0
      requires Crosses(maker.Opposite(), tpx, On(maker).best)
      modifies this`bidQ, this`askQ, slab, slab.storage, On(maker), On(maker).levels, index`ids, index.table
      ensures Trading() && left < remaining
      ensures Book() == old(Book()).With(maker, Book().Of(maker))
      ensures Resumes(taker, maker.Opposite(), tpx, remaining, old(Book()).Of(maker), fills, left, Book().Of(maker))
      ensures index.ids.Keys <= old(index.ids).Keys
    {
      hide Inv, FreeList, IdTable.Represents, IdTable.Probing, IdTable.Hashes, IdTable.Masked, Ladder.Touch;
      hide Ladder.Occupied, Abs, Resumes, Better, Ladder.NoneBetter;
      ghost var level := BestPrice(maker);
      var lad := On(maker);
      var px := lad.best;
      var i := px - cfg.minPx;
      ghost var was := lad.levels[..];
      fills, left := ConsumeLevel(maker, i, px, taker, tpx, remaining);
      Ladder.OccupiedUpdate(was, lad.levels[..], i);
      if lad.levels[i].Empty() {
        lad.MarkLevelEmptied(px);
      }
    }

    /** Sweep a buy through the asks while the best ask is at or below its limit. */
    method MatchBuy(taker: nat, px: int, qty: nat) returns (fills: seq<Fill>, left: nat)
      requires Trading()
      modifies this`bidQ, this`askQ, slab, slab.storage, asks, asks.levels, index`ids, index.table
      ensures Trading()
      ensures var m := Match(taker, Buy, px, qty, old(Book()).asks);
        && fills == m.fills && left == m.left
        && Book() == old(Book()).With(Sell, m.makers)
      ensures index.ids.Keys <= old(index.ids).Keys
    {
      hide Core, Book, Ladder.Touch, Resumes, Match, Ladder.NoneBetter;
      ghost var makers := Book().asks;
      fills := [];
      left := qty;
      ResumesAtStart(taker, Buy, px, qty, makers);
      while left > 0 && asks.live > 0
        invariant Trading()
        invariant Book() == old(Book()).With(Sell, Book().asks)
        invariant Resumes(taker, Buy, px, qty, makers, fills, left, Book().asks)
        invariant index.ids.Keys <= old(index.ids).Keys
        decreases left
      {
        if asks.best > px {
          break;
        }
        ghost var now := Book().asks;
        var more, rest := SweepBest(Sell, taker, px, left);
        ResumesTrans(taker, Buy, px, qty, makers, fills, left, now, more, rest, Book().asks);
        fills := fills + more;
        left := rest;
      }
      ghost var level := BestPrice(Sell);
      ResumesAtEnd(taker, Buy, px, qty, makers, fills, left, Book().asks);
    }

    /** Sweep a sell through the bids while the best bid is at or above its limit. */
    method MatchSell(taker: nat, px: int, qty: nat) returns (fills: seq<Fill>, left: nat)
      requires Trading()
      modifies this`bidQ, this`askQ, slab, slab.storage, bids, bids.levels, index`ids, index.table
      ensures Trading()
      ensures var m := Match(taker, Sell, px, qty, old(Book()).bids);
        && fills == m.fills && left == m.left
        && Book() == old(Book()).With(Buy, m.makers)
      ensures index.ids.Keys <= old(index.ids).Keys
    {
      hide Core, Book, Ladder.Touch, Resumes, Match, Ladder.NoneBetter;
      ghost var makers := Book().bids;
      fills := [];
      left := qty;
      ResumesAtStart(taker, Sell, px, qty, makers);
      while left > 0 && bids.live > 0
        invariant Trading()
        invariant Book() == old(Book()).With(Buy, Book().bids)
        invariant Resumes(taker, Sell, px, qty, makers, fills, left, Book().bids)
        invariant index.ids.Keys <= old(index.ids).Keys
        decreases left
      {
        if bids.best < px {
          break;
        }
        ghost var now := Book().bids;
        var more, rest := SweepBest(Buy, taker, px, left);
        ResumesTrans(taker, Sell, px, qty, makers, fills, left, now, more, rest, Book().bids);
        fills := fills + more;
        left := rest;
      }
      ghost var level := BestPrice(Buy);
      ResumesAtEnd(taker, Sell, px, qty, makers, fills, left, Book().bids);
    }

    /** Rest a residual at its price; false when the price is out of band or the slab exhausted. */
    method Rest(id: nat, side: Side, px: int, qty: nat) returns (ok: bool)
      requires Trading() && id !in index.ids && qty > 0
      modifies this`bidQ, this`askQ, slab, slab.storage, On(side), On(side).levels, index`ids, index.table
      ensures Trading()
      ensures ok == (cfg.InBand(px) && |old(Book()).bids| + |old(Book()).asks| < cfg.capacity)
      ensures Book() == if ok then old(Book()).With(side, Insert(side, old(Book()).Of(side), Entry(id, px, qty)))
                        else old(Book())
    {
      hide Inv, FreeList, IdTable.Represents, IdTable.Probing, IdTable.Hashes, IdTable.Masked, Ladder.Touch;
      hide Ladder.Occupied, Abs, Insert, Relinked;
      if !cfg.InBand(px) {
        return false;
      }
      ghost var r := State();
      var i := px - cfg.minPx;
      EmptyQueues(r, side);
      ghost var lvl, q := On(side).levels[i], r.On(side).queues[i];
      var o := slab.Allocate();
      if o == NIL {
        return false;
      }
      RestInserts(r, o, id, side, i, px, lvl, q, qty);
      Attach(r, o, id, side, px, i, qty, lvl, q);
      ok := true;
    }

    /** Fill an allocated slot and hook it into its level, the touch and the id index. */
    method Attach(ghost r: Rep, o: nat, id: nat, side: Side, px: int, i: nat, qty: nat,
                  ghost lvl: LevelFifo, ghost q: seq<nat>)
      requires Wired() && slab.Valid() && index.Valid() && bids.TouchOk() && asks.TouchOk()
      requires At(r, side, i, lvl, q) && (lvl.Empty() <==> lvl.tail == NIL) && o < |r.store| && px == cfg.minPx + i
      requires lvl.tail == NIL || Holds(r.store[o := Live(NewOrder(id, side, px, qty))], lvl.tail)
      requires slab.storage[..] == r.store[o := Raw] && State() == r.(store := slab.storage[..])
      requires id !in index.ids && |index.ids| < index.capacity
      modifies this`bidQ, this`askQ, slab.storage, On(side), On(side).levels, index`ids, index.table
      ensures slab.Valid() && index.Valid() && bids.TouchOk() && asks.TouchOk()
      ensures index.ids == r.ids[id := o]
      ensures State() == Relinked(r, Pushed(r.store[o := Live(NewOrder(id, side, px, qty))], lvl, o), side, i,
                                  PushedLevel(lvl, o, qty), q + [o], r.ids[id := o])
    {
      hide FreeList, IdTable.Represents, IdTable.Probing, IdTable.Hashes, IdTable.Masked, Ladder.Touch;
      hide Ladder.Occupied, Relinked, Pushed;
      var lad := On(side);
      var wasEmpty := lad.levels[i].Empty();
      QueueNew(r.store, o, id, side, px, i, qty);
      Ladder.OccupiedUpdate(r.On(side).levels, lad.levels[..], i);
      if wasEmpty {
        lad.MarkLevelLive(px);
      }
      index.InsertId(id, o);
      SetQueue(side, i, q + [o]);
      StateIs(r, side, i, PushedLevel(lvl, o, qty), q + [o]);
    }

    /** Write the new order into its allocated slot and push it behind its level. */
    method QueueNew(ghost store: Store, o: nat, id: nat, side: Side, px: int, i: nat, qty: nat)
      requires Wired() && slab.Valid() && i < On(side).levels.Length && o < |store|
      requires slab.storage[..] == store[o := Raw]
      requires On(side).levels[i].tail == NIL ||
        Holds(store[o := Live(NewOrder(id, side, px, qty))], On(side).levels[i].tail)
      modifies slab.storage, On(side).levels
      ensures slab.Valid()
      ensures var lvl := old(On(side).levels[i]);
        && slab.storage[..] == Pushed(store[o := Live(NewOrder(id, side, px, qty))], lvl, o)
        && On(side).levels[..] == old(On(side).levels[..])[i := PushedLevel(lvl, o, qty)]
    {
      hide FreeList, FreeKept;
      PushedFreeKept(store, On(side).levels[i], o, NewOrder(id, side, px, qty));
      FreeListFrame(slab.storage[..], Pushed(store[o := Live(NewOrder(id, side, px, qty))], On(side).levels[i], o),
                    slab.freeHead, slab.free);
      slab.storage[o] := Live(Order(id, px, qty, side, NIL, NIL));
      assert slab.storage[..] == store[o := Live(NewOrder(id, side, px, qty))];
      PushBackToLevel(slab.storage, On(side).levels, i, o);
    }

    // ----- Observers -----

    function HasBid(): (b: bool)
      reads Repr()
      requires Valid()
      ensures b <==> Book().bids != []
    {
      TouchIsTop(Buy);
      bids.live > 0
    }

    function HasAsk(): (b: bool)
      reads Repr()
      requires Valid()
      ensures b <==> Book().asks != []
    {
      TouchIsTop(Sell);
      asks.live > 0
    }

    function BestBid(): (px: int)
      reads Repr()
      requires Valid()
      ensures Book().bids == [] ==> px == 0
      ensures forall e :: e in Book().bids ==> e.price <= px
      ensures Book().bids != [] ==> px == Book().bids[0].price
    {
      TouchIsTop(Buy);
      if bids.live > 0 then bids.best else 0
    }

    function BestAsk(): (px: int)
      reads Repr()
      requires Valid()
      ensures Book().asks == [] ==> px == 0
      ensures forall e :: e in Book().asks ==> e.price >= px
      ensures Book().asks != [] ==> px == Book().asks[0].price
    {
      TouchIsTop(Sell);
      if asks.live > 0 then asks.best else 0
    }

    function OpenOrderCount(): (n: nat)
      reads Repr()
      requires Valid()
      ensures n == |Book().bids| + |Book().asks|
    {
      slab.inUse
    }

    /** Quantity resting at a price: what the orders there sum to. */
    function LevelQty(side: Side, px: int): (q: nat)
      reads Repr()
      requires Valid()
      ensures q == Depth(AtPrice(Book().Of(side), px))
    {
      LevelTotals(side, px);
      if cfg.InBand(px) then On(side).levels[px - cfg.minPx].totalQty else 0
    }

    /** Orders resting at a price. */
    function LevelOrderCount(side: Side, px: int): (c: nat)
      reads Repr()
      requires Valid()
      ensures c == |AtPrice(Book().Of(side), px)|
    {
      LevelTotals(side, px);
      if cfg.InBand(px) then On(side).levels[px - cfg.minPx].orderCount else 0
    }

    lemma TouchIsTop(side: Side)
      requires Valid()
      ensures On(side).live > 0 <==> Book().Of(side) != []
      ensures On(side).live > 0 ==> Book().Of(side)[0].price == On(side).best
      ensures On(side).live > 0 ==> forall e :: e in Book().Of(side) ==> !Better(side, e.price, On(side).best)
    {
      hide Core, Book, Ladder.PriceLadder.TouchOk;
      var level := BestPrice(side);
      var list := Book().Of(side);
      assert SortedBy(side, list);
      forall e | e in list
        ensures !Better(side, e.price, On(side).best)
      {
        var k :| 0 <= k < |list| && list[k] == e;
        assert k > 0 ==> !Better(side, list[k].price, list[0].price);
      }
    }

    /** The book is well formed, and the cached touches never cross or lock. */
    lemma NeverCrossed()
      requires Valid()
      ensures WellFormed(cfg, Book())
      ensures bids.live > 0 && asks.live > 0 ==> bids.best < asks.best
    {
      hide Core, Ladder.PriceLadder.TouchOk;
      TouchIsTop(Buy);
      TouchIsTop(Sell);
      assert Uncrossed(Book());
    }

    lemma LevelTotals(side: Side, px: int)
      requires Valid()
      ensures Depth(AtPrice(Book().Of(side), px))
           == if cfg.InBand(px) then On(side).levels[px - cfg.minPx].totalQty else 0
      ensures |AtPrice(Book().Of(side), px)|
           == if cfg.InBand(px) then On(side).levels[px - cfg.minPx].orderCount else 0
    {
      hide Inv, FreeList, IdTable.Represents, IdTable.Probing, IdTable.Hashes, IdTable.Masked, Abs, AtPrice;
      EmptyQueues(State(), side);
      if cfg.InBand(px) {
        LevelIsQueue(State(), side, px - cfg.minPx, px);
      } else {
        assert Restable(cfg, Book().Of(side));
        AtPriceUniform(Book().Of(side), px);
        NoneAtPrice(px, Book().Of(side));
      }
    }

    /**
     The free list names each slot at most once and exactly the slots no level
     queues; live slots, level counters, ids and taken table slots are equally
     many, and at most half the table is taken.
     */
    lemma Partition()
      requires Valid()
      ensures NoDup(slab.free) && slab.inUse + |slab.free| == cfg.capacity
      ensures forall x :: 0 <= x < cfg.capacity ==> (x in slab.free <==> !QueuedSomewhere(State(), x))
      ensures slab.inUse == OrderTotal(bids.levels[..]) + OrderTotal(asks.levels[..])
      ensures slab.inUse == |index.ids| == IdTable.TakenCount(index.table[..])
      ensures 2 * slab.inUse <= index.table.Length
    {
      hide Inv, IdTable.Represents, IdTable.Probing, IdTable.Hashes, IdTable.Masked, Abs, WellFormed, QueuedSomewhere;
      var r := State();
      forall x | 0 <= x < cfg.capacity
        ensures x in slab.free <==> !QueuedSomewhere(r, x)
      {
        FreeOrQueued(r, slab.freeHead, slab.free, x);
      }
      CountersAgree(r, Buy);
      CountersAgree(r, Sell);
      IdTable.LoadIsSize(index.table[..], index.ids);
    }

    // ----- The two operations -----

    /** Match a limit order and rest the residual, exactly as the abstract book does. */
    method AddLimit(id: nat, side: Side, px: int, qty: nat) returns (ok: bool, fills: seq<Fill>)
      requires Valid() && qty > 0 && !Resting(Book(), id)
      modifies Repr()
      ensures Valid()
      ensures var out := Submit(cfg, old(Book()), id, side, px, qty);
        Book() == out.book && ok == out.ok && fills == out.fills
    {
      hide Core, Book, Ladder.PriceLadder.TouchOk, Match, Insert, WellFormed, Resting;
      KnownIds(id);
      SubmitKeeps(cfg, Book(), id, side, px, qty);
      var remaining;
      if side.Buy? {
        fills, remaining := MatchBuy(id, px, qty);
      } else {
        fills, remaining := MatchSell(id, px, qty);
      }
      if remaining == 0 {
        return true, fills;
      }
      ok := Rest(id, side, px, remaining);
    }

    lemma KnownIds(id: nat)
      requires Core()
      ensures id in index.ids <==> Resting(Book(), id)
    {
      LiveIds(State(), id);
    }

    /** Cancel by id; order is what rested at that moment, which the caller is told about. */
    method Cancel(id: nat) returns (ok: bool, side: Side, order: Entry)
      requires Valid()
      modifies Repr()
      ensures Valid()
      ensures var out := MatchingSpec.Cancel(old(Book()), id);
        Book() == out.book && ok == out.ok && (ok ==> order.qty == out.gone)
      ensures ok ==> order.id == id && order in old(Book()).Of(side)
    {
      hide Inv, FreeList, IdTable.Represents, IdTable.Probing, IdTable.Hashes, IdTable.Masked, Ladder.Touch;
      hide Ladder.Occupied, Abs, Chain, WellFormed, Resting;
      hide MatchingSpec.Cancel;
      side, order := Buy, Entry(0, 0, 0);
      ghost var r := State();
      KnownIds(id);
      CancelKeeps(cfg, Book(), id);
      var x := index.LookupAndEraseId(id);
      if x == -1 {
        assert r.ids - {id} == r.ids;
        CancelUnknown(old(Book()), id);
        return false, side, order;
      }
      side, order := Remove(r, x, id);
      ok := true;
    }

    /** The found order leaves its level, the touch and the slab. */
    method Remove(ghost r: Rep, x: nat, id: nat) returns (side: Side, order: Entry)
      requires Wired() && slab.Valid() && index.Valid() && bids.TouchOk() && asks.TouchOk()
      requires Inv(r) && WellFormed(cfg, Abs(r)) && id in r.ids && r.ids[id] == x
      requires State() == r.(ids := r.ids - {id})
      requires slab.inUse == |r.ids| == |Abs(r).bids| + |Abs(r).asks|
      modifies Repr()
      ensures Trading()
      ensures MatchingSpec.Cancel(Abs(r), id) == Outcome(Book(), true, [], order.qty)
      ensures order.id == id && order in Abs(r).Of(side)
    {
      hide Inv, FreeList, IdTable.Represents, IdTable.Probing, IdTable.Hashes, IdTable.Masked, Ladder.Touch;
      hide Ladder.Occupied, Abs, Chain, WellFormed;
      hide MatchingSpec.Cancel, Relinked, Unlinked, UnlinkedLevel, Without;
      ghost var i, k := Locate(r, id);
      var o := slab.storage[x].value;
      side, order := o.side, Entry(o.id, o.price, o.qty);
      QueuedRests(r, side, i, k);
      ghost var lvl, q := On(side).levels[i], r.On(side).queues[i];
      CanUnlink(r.store, side, o.price, lvl, q, k);
      DropRemoves(cfg, r, side, i, lvl, q, k, slab.freeHead);
      Detach(r, x, o.price - cfg.minPx, lvl, q, k);
    }

    /** Unhook an order whose id is already erased: level links, touch, slab. */
    method Detach(ghost r: Rep, x: nat, i: nat, ghost lvl: LevelFifo, ghost q: seq<nat>, ghost k: nat)
      requires Wired() && slab.Valid() && index.Valid() && bids.TouchOk() && asks.TouchOk()
      requires Holds(r.store, x) && State() == r.(ids := r.ids - {r.store[x].value.id})
      requires At(r, r.store[x].value.side, i, lvl, q) && r.store[x].value.price == cfg.minPx + i
      requires k < |q| && q[k] == x
      requires Chain(r.store, r.store[x].value.side, r.store[x].value.price, lvl, q)
      modifies this`bidQ, this`askQ, slab, slab.storage
      modifies On(slab.storage[x].value.side), On(slab.storage[x].value.side).levels
      ensures slab.Valid() && slab.inUse == old(slab.inUse) - 1
      ensures index.Valid() && bids.TouchOk() && asks.TouchOk()
      ensures Linked(r.store, r.store[x].value.prev) && Linked(r.store, r.store[x].value.next)
      ensures lvl.totalQty >= r.store[x].value.qty && lvl.orderCount >= 1
      ensures var o := r.store[x].value;
        State() == Relinked(r, Unlinked(r.store, x)[x := Free(old(slab.freeHead))], o.side, i,
                            UnlinkedLevel(lvl, o), Without(q, k), r.ids - {o.id})
    {
      hide FreeList, FreeKept, IdTable.Represents, IdTable.Probing, IdTable.Hashes, IdTable.Masked, Ladder.Touch;
      hide Ladder.Occupied, Relinked, Unlinked, Chain, Without;
      var o := slab.storage[x].value;
      var lad := On(o.side);
      CanUnlink(r.store, o.side, o.price, lvl, q, k);
      UnlinkFromLevel(slab.storage, lad.levels, i, x);
      FreeListFrame(r.store, slab.storage[..], slab.freeHead, slab.free);
      Ladder.OccupiedUpdate(r.On(o.side).levels, lad.levels[..], i);
      if lad.levels[i].Empty() {
        lad.MarkLevelEmptied(o.price);
      }
      Vacate(x, r, o.side, i, UnlinkedLevel(lvl, r.store[x].value), Without(q, k));
    }

    ghost method SetQueue(side: Side, i: nat, q: seq<nat>)
      requires i < |State().On(side).queues|
      modifies this`bidQ, this`askQ
      ensures bidQ == if side.Buy? then old(bidQ)[i := q] else old(bidQ)
      ensures askQ == if side.Sell? then old(askQ)[i := q] else old(askQ)
    {
      if side.Buy? {
        bidQ := bidQ[i := q];
      } else {
        askQ := askQ[i := q];
      }
    }

    /** After an update of level (side, i) the snapshot is the relinked one. */
    lemma StateIs(r: Rep, side: Side, i: nat, lvl: LevelFifo, q: seq<nat>)
      requires i < |r.On(side).levels| && i < |r.On(side).queues| && r.minPx == cfg.minPx
      requires On(side).levels[..] == r.On(side).levels[i := lvl]
      requires On(side.Opposite()).levels[..] == r.On(side.Opposite()).levels
      requires State().On(side).queues == r.On(side).queues[i := q]
      requires State().On(side.Opposite()).queues == r.On(side.Opposite()).queues
      ensures State() == Relinked(r, slab.storage[..], side, i, lvl, q, index.ids)
    {
    }
  }

  lemma NoneAtPrice(px: int, list: seq<Entry>)
    requires AtPrice(list, px) == []
    ensures Depth(AtPrice(list, px)) == 0 && |AtPrice(list, px)| == 0
  {
  }

  lemma EmptyWellFormed(cfg: Config)
    ensures WellFormed(cfg, EMPTY)
  {
  }
}
