/**
 One price level: a doubly linked FIFO threaded through slab slots. The node
 updates are given as functions on a snapshot of the slab, the methods below
 perform them in place, and the lemmas say what they do to a well-linked queue.
 */
module Fifo {
  import opened MatchingSpec
  import opened Slab

  datatype Order = Order(id: nat, price: int, qty: nat, side: Side, prev: int, next: int)

  datatype LevelFifo = LevelFifo(head: int, tail: int, totalQty: nat, orderCount: nat) {
    predicate Empty() {
      head == NIL
    }
  }

  const EMPTY_LEVEL := LevelFifo(NIL, NIL, 0, 0)

  type Store = seq<Slot<Order>>

  predicate Holds(store: Store, x: int) {
    0 <= x < |store| && store[x].Live?
  }

  function EntryAt(store: Store, x: int): Entry {
    if Holds(store, x) then Entry(store[x].value.id, store[x].value.price, store[x].value.qty) else Entry(0, 0, 0)
  }

  /** The orders of a queue of slots, in queue order. */
  function EntriesOf(store: Store, q: seq<nat>): (s: seq<Entry>)
    ensures |s| == |q|
  {
    seq(|q|, k requires 0 <= k < |q| => EntryAt(store, q[k]))
  }

  /** Node k of the queue is a live order of this level, linked to its neighbours. */
  ghost predicate NodeAt(store: Store, side: Side, px: int, q: seq<nat>, k: nat)
    requires k < |q|
  {
    && Holds(store, q[k])
    && var o := store[q[k]].value;
      && o.side == side && o.price == px && o.qty > 0
      && o.prev == Nth(q, k - 1) && o.next == Nth(q, k + 1)
  }

  /** The level's links and totals describe exactly the queue q of orders at (side, px). */
  ghost predicate Chain(store: Store, side: Side, px: int, lvl: LevelFifo, q: seq<nat>) {
    && NoDup(q)
    && lvl.head == Nth(q, 0) && lvl.tail == Nth(q, |q| - 1)
    && lvl.orderCount == |q| && lvl.totalQty == Depth(EntriesOf(store, q))
    && Nodes(store, side, px, q)
  }

  ghost predicate Nodes(store: Store, side: Side, px: int, q: seq<nat>) {
    forall k :: 0 <= k < |q| ==> NodeAt(store, side, px, q, k)
  }

  /** No live order outside level (side, px) is touched. */
  ghost predicate SameOff(store: Store, store': Store, side: Side, px: int) {
    && |store'| == |store|
    && forall x ::
      0 <= x < |store| && store[x].Live? && !(store[x].value.side == side && store[x].value.price == px) ==>
      store'[x] == store[x]
  }

  lemma ChainFrame(store: Store, store': Store, side: Side, px: int, side2: Side, px2: int, lvl: LevelFifo, q: seq<nat>)
    requires SameOff(store, store', side, px) && (side2 != side || px2 != px)
    requires Chain(store, side2, px2, lvl, q)
    ensures Chain(store', side2, px2, lvl, q)
    ensures EntriesOf(store', q) == EntriesOf(store, q)
  {
    forall k | 0 <= k < |q|
      ensures NodeAt(store', side2, px2, q, k)
      ensures EntryAt(store', q[k]) == EntryAt(store, q[k])
    {
      assert NodeAt(store, side2, px2, q, k);
    }
    assert EntriesOf(store', q) == EntriesOf(store, q);
  }

  // ----- Updates -----

  function SetNext(store: Store, x: nat, y: int): Store
    requires Holds(store, x)
  {
    store[x := Live(store[x].value.(next := y))]
  }

  function SetPrev(store: Store, x: nat, y: int): Store
    requires Holds(store, x)
  {
    store[x := Live(store[x].value.(prev := y))]
  }

  function Pushed(store: Store, lvl: LevelFifo, o: nat): Store
    requires Holds(store, o) && (lvl.tail == NIL || Holds(store, lvl.tail))
  {
    var s := store[o := Live(store[o].value.(prev := lvl.tail, next := NIL))];
    if lvl.tail == NIL then s else SetNext(s, lvl.tail, o)
  }

  function PushedLevel(lvl: LevelFifo, o: nat, qty: nat): LevelFifo {
    LevelFifo(if lvl.tail == NIL then o else lvl.head, o, lvl.totalQty + qty, lvl.orderCount + 1)
  }

  ghost predicate Linked(store: Store, x: int) {
    x == NIL || Holds(store, x)
  }

  function Unlinked(store: Store, o: nat): Store
    requires Holds(store, o) && Linked(store, store[o].value.prev) && Linked(store, store[o].value.next)
  {
    var n := store[o].value;
    var s := if n.prev == NIL then store else SetNext(store, n.prev, n.next);
    if n.next == NIL then s else SetPrev(s, n.next, n.prev)
  }

  function UnlinkedLevel(lvl: LevelFifo, n: Order): LevelFifo
    requires lvl.totalQty >= n.qty && lvl.orderCount >= 1
  {
    LevelFifo(if n.prev == NIL then n.next else lvl.head, if n.next == NIL then n.prev else lvl.tail,
              lvl.totalQty - n.qty, lvl.orderCount - 1)
  }

  method PushBackToLevel(store: array<Slot<Order>>, levels: array<LevelFifo>, i: nat, o: nat)
    requires i < levels.Length && Holds(store[..], o)
    requires levels[i].tail == NIL || Holds(store[..], levels[i].tail)
    modifies store, levels
    ensures store[..] == Pushed(old(store[..]), old(levels[i]), o)
    ensures levels[..] == old(levels[..])[i := PushedLevel(old(levels[i]), o, old(store[o].value.qty))]
  {
    store[o] := Live(store[o].value.(prev := levels[i].tail, next := NIL));
    if levels[i].tail != NIL {
      store[levels[i].tail] := Live(store[levels[i].tail].value.(next := o));
    } else {
      levels[i] := levels[i].(head := o);
    }
    levels[i] := levels[i].(tail := o);
    levels[i] := levels[i].(totalQty := levels[i].totalQty + store[o].value.qty);
    levels[i] := levels[i].(orderCount := levels[i].orderCount + 1);
  }

  method UnlinkFromLevel(store: array<Slot<Order>>, levels: array<LevelFifo>, i: nat, o: nat)
    requires i < levels.Length && Holds(store[..], o)
    requires Linked(store[..], store[o].value.prev) && Linked(store[..], store[o].value.next)
    requires store[o].value.prev != o && store[o].value.next != o
    requires levels[i].totalQty >= store[o].value.qty && levels[i].orderCount >= 1
    modifies store, levels
    ensures store[..] == Unlinked(old(store[..]), o)
    ensures levels[..] == old(levels[..])[i := UnlinkedLevel(old(levels[i]), old(store[o].value))]
  {
    var n := store[o].value;
    if n.prev != NIL {
      store[n.prev] := Live(store[n.prev].value.(next := n.next));
    } else {
      levels[i] := levels[i].(head := n.next);
    }
    if n.next != NIL {
      store[n.next] := Live(store[n.next].value.(prev := n.prev));
    } else {
      levels[i] := levels[i].(tail := n.prev);
    }
    levels[i] := levels[i].(totalQty := levels[i].totalQty - n.qty);
    levels[i] := levels[i].(orderCount := levels[i].orderCount - 1);
  }

  /** Take fill units off the head order and off the level's total. */
  method FillHead(store: array<Slot<Order>>, levels: array<LevelFifo>, i: nat, fill: nat)
    requires i < levels.Length && Holds(store[..], levels[i].head)
    requires fill <= store[levels[i].head].value.qty && fill <= levels[i].totalQty
    modifies store, levels
    ensures store[..] == Shrunk(old(store[..]), old(levels[i].head), fill)
    ensures levels[..] == old(levels[..])[i := ShrunkLevel(old(levels[i]), fill)]
  {
    var maker := levels[i].head;
    store[maker] := Live(store[maker].value.(qty := store[maker].value.qty - fill));
    levels[i] := levels[i].(totalQty := levels[i].totalQty - fill);
  }

  /** Drop a spent head; its quantity has already left the total. */
  method PopHead(store: array<Slot<Order>>, levels: array<LevelFifo>, i: nat)
    requires i < levels.Length && Holds(store[..], levels[i].head) && levels[i].orderCount >= 1
    requires Linked(store[..], store[levels[i].head].value.next)
    modifies store, levels
    ensures store[..] == HeadPopped(old(store[..]), old(levels[i].head))
    ensures levels[..] == old(levels[..])[i := HeadPoppedLevel(old(levels[i]), old(store[levels[i].head].value.next))]
  {
    levels[i] := levels[i].(head := store[levels[i].head].value.next);
    if levels[i].head == NIL {
      levels[i] := levels[i].(tail := NIL);
    } else {
      store[levels[i].head] := Live(store[levels[i].head].value.(prev := NIL));
    }
    levels[i] := levels[i].(orderCount := levels[i].orderCount - 1);
  }

  function HeadPopped(store: Store, x: nat): Store
    requires Holds(store, x) && (store[x].value.next == NIL || Holds(store, store[x].value.next))
  {
    if store[x].value.next == NIL then store else SetPrev(store, store[x].value.next, NIL)
  }

  function HeadPoppedLevel(lvl: LevelFifo, next: int): LevelFifo
    requires lvl.orderCount >= 1
  {
    LevelFifo(next, if next == NIL then NIL else lvl.tail, lvl.totalQty, lvl.orderCount - 1)
  }

  /** Spending the head order and popping it leaves what unlinking it leaves. */
  lemma PopIsUnlink(store: Store, side: Side, px: int, lvl: LevelFifo, q: seq<nat>, x: Slot<Order>)
    requires Chain(store, side, px, lvl, q) && q != []
    ensures Holds(store, q[0]) && Linked(store, store[q[0]].value.prev) && Linked(store, store[q[0]].value.next)
    ensures var o := store[q[0]].value;
      && lvl.totalQty >= o.qty && lvl.orderCount >= 1 && o.next != q[0]
      && Linked(Shrunk(store, q[0], o.qty), o.next)
      && FreeKept(store, HeadPopped(Shrunk(store, q[0], o.qty), q[0]))
      && HeadPopped(Shrunk(store, q[0], o.qty), q[0])[q[0] := x] == Unlinked(store, q[0])[q[0] := x]
      && HeadPoppedLevel(ShrunkLevel(lvl, o.qty), o.next) == UnlinkedLevel(lvl, o)
  {
    CanUnlink(store, side, px, lvl, q, 0);
    Neighbours(store, side, px, lvl, q, 0);
  }

  // ----- What the updates do to a queue -----

  /** Appending a fresh node appends its order. */
  lemma PushChain(store: Store, side: Side, px: int, lvl: LevelFifo, q: seq<nat>, o: nat)
    requires Chain(store, side, px, lvl, q) && o !in q && Holds(store, o)
    requires store[o].value.side == side && store[o].value.price == px && store[o].value.qty > 0
    ensures lvl.tail == NIL || Holds(store, lvl.tail)
    ensures var s := Pushed(store, lvl, o);
      && Chain(s, side, px, PushedLevel(lvl, o, store[o].value.qty), q + [o])
      && EntriesOf(s, q + [o]) == EntriesOf(store, q) + [EntryAt(store, o)]
  {
    if q != [] {
      assert NodeAt(store, side, px, q, |q| - 1);
    }
    var s := Pushed(store, lvl, o);
    var q' := q + [o];
    forall k | 0 <= k < |q'|
      ensures NodeAt(s, side, px, q', k)
      ensures EntryAt(s, q'[k]) == EntryAt(store, q'[k])
    {
      if k < |q| {
        assert NodeAt(store, side, px, q, k);
      }
    }
    assert EntriesOf(s, q') == EntriesOf(store, q) + [EntryAt(store, o)];
    DepthAppend(EntriesOf(store, q), [EntryAt(store, o)]);
  }

  lemma PushedFreeKept(store: Store, lvl: LevelFifo, o: nat, n: Order)
    requires o < |store| && (lvl.tail == NIL || Holds(store[o := Live(n)], lvl.tail))
    ensures FreeKept(store[o := Raw], Pushed(store[o := Live(n)], lvl, o))
  {
  }

  function Without(q: seq<nat>, k: nat): seq<nat>
    requires k < |q|
  {
    q[..k] + q[k + 1..]
  }

  /** A node of the queue has its neighbours' slots live and apart from its own. */
  lemma Neighbours(store: Store, side: Side, px: int, lvl: LevelFifo, q: seq<nat>, k: nat)
    requires Chain(store, side, px, lvl, q) && k < |q|
    ensures Holds(store, q[k])
    ensures var n := store[q[k]].value;
      && n.side == side && n.price == px && n.qty > 0
      && n.prev == Nth(q, k - 1) && n.next == Nth(q, k + 1)
      && Linked(store, n.prev) && Linked(store, n.next)
      && n.prev != q[k] && n.next != q[k]
  {
    assert NodeAt(store, side, px, q, k);
    if k > 0 {
      assert NodeAt(store, side, px, q, k - 1);
    }
    if k + 1 < |q| {
      assert NodeAt(store, side, px, q, k + 1);
    }
  }

  lemma UnlinkNode(store: Store, side: Side, px: int, lvl: LevelFifo, q: seq<nat>, k: nat, x: Slot<Order>, j: nat)
    requires Chain(store, side, px, lvl, q) && k < |q| && j < |q| - 1
    requires Holds(store, q[k]) && Linked(store, store[q[k]].value.prev) && Linked(store, store[q[k]].value.next)
    ensures var s := Unlinked(store, q[k])[q[k] := x];
      NodeAt(s, side, px, Without(q, k), j) && EntryAt(s, Without(q, k)[j]) == EntryAt(store, Without(q, k)[j])
  {
    Neighbours(store, side, px, lvl, q, k);
    var i := if j < k then j else j + 1;
    Neighbours(store, side, px, lvl, q, i);
    UnlinkedSlot(store, q[k], q[i]);
    NextTo(q, k, i);
    WithoutAt(q, k, j);
    hide Unlinked, Chain, NoDup, Without;
  }

  /** What unlinking slot o does to another slot. */
  lemma UnlinkedSlot(store: Store, o: nat, y: nat)
    requires Holds(store, o) && Linked(store, store[o].value.prev) && Linked(store, store[o].value.next)
    requires y != o && Holds(store, y)
    ensures |Unlinked(store, o)| == |store|
    ensures var n, m := store[o].value, store[y].value;
      Unlinked(store, o)[y] == Live(m.(next := if y == n.prev then n.next else m.next,
                                       prev := if y == n.next then n.prev else m.prev))
  {
  }

  /** In a queue without repetition only the neighbours of position k are its neighbours. */
  lemma NextTo(q: seq<nat>, k: nat, i: nat)
    requires NoDup(q) && k < |q| && i < |q| && i != k
    ensures q[i] != q[k]
    ensures q[i] == Nth(q, k - 1) <==> i == k - 1
    ensures q[i] == Nth(q, k + 1) <==> i == k + 1
  {
  }

  lemma WithoutAt(q: seq<nat>, k: nat, j: nat)
    requires k < |q| && j < |q| - 1
    ensures |Without(q, k)| == |q| - 1
    ensures Without(q, k)[j] == q[if j < k then j else j + 1]
    ensures Nth(Without(q, k), j - 1) == if j <= k then Nth(q, j - 1) else Nth(q, j)
    ensures Nth(Without(q, k), j + 1) == if j + 1 < k then Nth(q, j + 1) else Nth(q, j + 2)
  {
  }

  lemma DepthWithout(e: seq<Entry>, k: nat)
    requires k < |e|
    ensures Depth(e[..k] + e[k + 1..]) + e[k].qty == Depth(e)
  {
    DepthAppend(e[..k], e[k + 1..]);
    DepthAppend(e[..k], e[k..]);
    assert e == e[..k] + e[k..] && e[k..][1..] == e[k + 1..];
  }

  lemma EntriesWithout(store: Store, s: Store, q: seq<nat>, k: nat)
    requires k < |q|
    requires forall j :: 0 <= j < |q| - 1 ==> EntryAt(s, Without(q, k)[j]) == EntryAt(store, Without(q, k)[j])
    ensures EntriesOf(s, Without(q, k)) == EntriesOf(store, q)[..k] + EntriesOf(store, q)[k + 1..]
  {
  }

  lemma EndsWithout(q: seq<nat>, k: nat)
    requires NoDup(q) && k < |q|
    ensures NoDup(Without(q, k))
    ensures Nth(Without(q, k), 0) == if k == 0 then Nth(q, 1) else q[0]
    ensures Nth(Without(q, k), |q| - 2) == if k == |q| - 1 then Nth(q, k - 1) else q[|q| - 1]
  {
  }

  /** Unlinking node k removes its order and keeps the others in order. */
  lemma UnlinkChain(store: Store, side: Side, px: int, lvl: LevelFifo, q: seq<nat>, k: nat, x: Slot<Order>)
    requires Chain(store, side, px, lvl, q) && k < |q|
    requires Holds(store, q[k]) && Linked(store, store[q[k]].value.prev) && Linked(store, store[q[k]].value.next)
    requires lvl.totalQty >= store[q[k]].value.qty && lvl.orderCount >= 1
    ensures var s := Unlinked(store, q[k])[q[k] := x];
      && Chain(s, side, px, UnlinkedLevel(lvl, store[q[k]].value), Without(q, k))
      && EntriesOf(s, Without(q, k)) == EntriesOf(store, q)[..k] + EntriesOf(store, q)[k + 1..]
  {
    Neighbours(store, side, px, lvl, q, k);
    EndsWithout(q, k);
    var s := Unlinked(store, q[k])[q[k] := x];
    var q' := Without(q, k);
    var e := EntriesOf(store, q);
    forall j | 0 <= j < |q'|
      ensures NodeAt(s, side, px, q', j) && EntryAt(s, q'[j]) == EntryAt(store, q'[j])
    {
      UnlinkNode(store, side, px, lvl, q, k, x, j);
    }
    EntriesWithout(store, s, q, k);
    DepthWithout(e, k);
  }

  lemma CanUnlink(store: Store, side: Side, px: int, lvl: LevelFifo, q: seq<nat>, k: nat)
    requires Chain(store, side, px, lvl, q) && k < |q|
    ensures !lvl.Empty()
    ensures Holds(store, q[k]) && Linked(store, store[q[k]].value.prev) && Linked(store, store[q[k]].value.next)
    ensures FreeKept(store, Unlinked(store, q[k])) && Holds(Unlinked(store, q[k]), q[k])
    ensures store[q[k]].value.prev != q[k] && store[q[k]].value.next != q[k]
    ensures lvl.totalQty >= store[q[k]].value.qty && lvl.orderCount >= 1
  {
    Neighbours(store, side, px, lvl, q, k);
    DepthWithout(EntriesOf(store, q), k);
  }

  function Shrunk(store: Store, x: nat, fill: nat): Store
    requires Holds(store, x) && fill <= store[x].value.qty
  {
    store[x := Live(store[x].value.(qty := store[x].value.qty - fill))]
  }

  function ShrunkLevel(lvl: LevelFifo, fill: nat): LevelFifo
    requires fill <= lvl.totalQty
  {
    lvl.(totalQty := lvl.totalQty - fill)
  }

  function ShrunkEntry(e: Entry, fill: nat): Entry
    requires fill <= e.qty
  {
    e.(qty := e.qty - fill)
  }

  /** Shrinking the head order shrinks the head of the queue and the level total. */
  lemma ShrinkChain(store: Store, side: Side, px: int, lvl: LevelFifo, q: seq<nat>, fill: nat)
    requires Chain(store, side, px, lvl, q) && q != []
    requires Holds(store, q[0]) && fill < store[q[0]].value.qty
    ensures fill <= lvl.totalQty
    ensures Chain(Shrunk(store, q[0], fill), side, px, ShrunkLevel(lvl, fill), q)
    ensures EntriesOf(Shrunk(store, q[0], fill), q)
         == [ShrunkEntry(EntryAt(store, q[0]), fill)] + EntriesOf(store, q)[1..]
  {
    var s := Shrunk(store, q[0], fill);
    var e := EntriesOf(store, q);
    forall k | 0 <= k < |q|
      ensures NodeAt(s, side, px, q, k)
      ensures EntriesOf(s, q)[k] == ([ShrunkEntry(EntryAt(store, q[0]), fill)] + e[1..])[k]
    {
      assert NodeAt(store, side, px, q, k);
    }
    assert EntriesOf(s, q) == [ShrunkEntry(EntryAt(store, q[0]), fill)] + e[1..];
    assert e[0] == EntryAt(store, q[0]);
  }
}
