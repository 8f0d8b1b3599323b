/**
 Snapshots of the concrete book (slab, ladders with their queues, id index)
 and the abstract book they stand for. Each lemma of the second half follows
 one structural update of the book across all representations at once.
 */
module BookRep {
  import opened MatchingSpec
  import opened Slab
  import opened Fifo
  import opened Ladder

  /** Levels of one side and, per level, the slots queued there. */
  datatype SideRep = SideRep(levels: seq<LevelFifo>, queues: seq<seq<nat>>)

  datatype Rep = Rep(store: Store, minPx: int, bid: SideRep, ask: SideRep, ids: map<nat, nat>) {
    function On(side: Side): SideRep {
      if side.Buy? then bid else ask
    }

    function Put(side: Side, s: SideRep): Rep {
      if side.Buy? then this.(bid := s) else this.(ask := s)
    }
  }

  // ----- Structural invariant -----

  ghost predicate Chains(store: Store, side: Side, minPx: int, s: SideRep) {
    && |s.queues| == |s.levels|
    && forall i :: 0 <= i < |s.levels| ==> Chain(store, side, minPx + i, s.levels[i], s.queues[i])
  }

  /** The slot is queued at the level its own order names. */
  ghost predicate Queued(r: Rep, x: nat)
    requires Holds(r.store, x)
  {
    var o := r.store[x].value;
    && 0 <= o.price - r.minPx < |r.On(o.side).queues|
    && x in r.On(o.side).queues[o.price - r.minPx]
  }

  /** Every slot that is not free holds an order and is queued. */
  ghost predicate Covered(r: Rep) {
    forall x :: 0 <= x < |r.store| && !r.store[x].Free? ==> Holds(r.store, x) && Queued(r, x)
  }

  /** The id index maps each live order's id to its slot and holds nothing else. */
  ghost predicate Indexed(store: Store, ids: map<nat, nat>) {
    && (forall x :: 0 <= x < |store| && store[x].Live? ==> store[x].value.id in ids && ids[store[x].value.id] == x)
    && (forall id :: id in ids ==> Holds(store, ids[id]) && store[ids[id]].value.id == id)
  }

  ghost predicate Inv(r: Rep) {
    && |r.bid.levels| == |r.ask.levels|
    && Chains(r.store, Buy, r.minPx, r.bid)
    && Chains(r.store, Sell, r.minPx, r.ask)
    && Covered(r)
    && Indexed(r.store, r.ids)
  }

  // ----- Abstraction -----

  function Concat(rows: seq<seq<Entry>>): seq<Entry> {
    if rows == [] then [] else rows[0] + Concat(rows[1..])
  }

  /** Priority rank of level i among n levels: highest price first for bids, lowest first for asks. */
  function Rank(side: Side, i: int, n: nat): int {
    if side.Buy? then n - 1 - i else i
  }

  /** The levels' orders, one row per level, best level first. */
  function Rows(store: Store, side: Side, queues: seq<seq<nat>>): (rows: seq<seq<Entry>>)
    ensures |rows| == |queues|
  {
    seq(|queues|, k requires 0 <= k < |queues| => EntriesOf(store, queues[Rank(side, k, |queues|)]))
  }

  function Flat(store: Store, side: Side, queues: seq<seq<nat>>): seq<Entry> {
    Concat(Rows(store, side, queues))
  }

  function Abs(r: Rep): Book {
    Book(Flat(r.store, Buy, r.bid.queues), Flat(r.store, Sell, r.ask.queues))
  }

  lemma {:induction false} ConcatSplit(rows: seq<seq<Entry>>, k: nat)
    requires k < |rows|
    ensures Concat(rows) == Concat(rows[..k]) + rows[k] + Concat(rows[k + 1..])
  {
    if k == 0 {
      assert Concat(rows[..0]) == [];
    } else {
      ConcatSplit(rows[1..], k - 1);
      assert rows[..k][0] == rows[0] && rows[..k][1..] == rows[1..][..k - 1];
      assert rows[1..][k..] == rows[k + 1..];
    }
  }

  lemma {:induction false} ConcatEmpty(rows: seq<seq<Entry>>)
    requires forall k :: 0 <= k < |rows| ==> rows[k] == []
    ensures Concat(rows) == []
  {
    if rows != [] {
      ConcatEmpty(rows[1..]);
    }
  }

  /** Every order of the flat list comes from some row. */
  lemma {:induction false} ConcatMember(rows: seq<seq<Entry>>, m: nat) returns (k: nat, j: nat)
    requires m < |Concat(rows)|
    ensures k < |rows| && j < |rows[k]| && rows[k][j] == Concat(rows)[m]
  {
    if m < |rows[0]| {
      k, j := 0, m;
    } else {
      k, j := ConcatMember(rows[1..], m - |rows[0]|);
      k := k + 1;
    }
  }

  /** Orders ahead of level i, and behind it, on its side. */
  function Before(store: Store, side: Side, queues: seq<seq<nat>>, i: nat): seq<Entry>
    requires i < |queues|
  {
    Concat(Rows(store, side, queues)[..Rank(side, i, |queues|)])
  }

  function After(store: Store, side: Side, queues: seq<seq<nat>>, i: nat): seq<Entry>
    requires i < |queues|
  {
    Concat(Rows(store, side, queues)[Rank(side, i, |queues|) + 1..])
  }

  lemma FlatAt(store: Store, side: Side, queues: seq<seq<nat>>, i: nat)
    requires i < |queues|
    ensures Flat(store, side, queues)
         == Before(store, side, queues, i) + EntriesOf(store, queues[i]) + After(store, side, queues, i)
  {
    ConcatSplit(Rows(store, side, queues), Rank(side, i, |queues|));
  }

  /** Changing one level's queue changes the flat list at that level only. */
  lemma FlatUpdate(store: Store, store': Store, side: Side, queues: seq<seq<nat>>, i: nat, q: seq<nat>)
    requires i < |queues|
    requires forall j :: 0 <= j < |queues| && j != i ==> EntriesOf(store', queues[j]) == EntriesOf(store, queues[j])
    ensures Flat(store', side, queues[i := q])
         == Before(store, side, queues, i) + EntriesOf(store', q) + After(store, side, queues, i)
  {
    var n := |queues|;
    var k := Rank(side, i, n);
    var rows := Rows(store, side, queues);
    var rows' := Rows(store', side, queues[i := q]);
    FlatAt(store', side, queues[i := q], i);
    assert forall j :: 0 <= j < n && j != k ==> rows'[j] == rows[j];
    assert rows'[..k] == rows[..k];
    assert rows'[k + 1..] == rows[k + 1..];
  }

  lemma FlatFrame(store: Store, store': Store, side: Side, queues: seq<seq<nat>>)
    requires forall j :: 0 <= j < |queues| ==> EntriesOf(store', queues[j]) == EntriesOf(store, queues[j])
    ensures Flat(store', side, queues) == Flat(store, side, queues)
  {
    assert Rows(store', side, queues) == Rows(store, side, queues);
  }

  /** If every better level is empty, nothing is ahead of level i. */
  lemma BestRow(store: Store, side: Side, queues: seq<seq<nat>>, i: nat)
    requires i < |queues|
    requires forall j :: 0 <= j < |queues| && queues[j] != [] ==> !Better(side, j, i)
    ensures Before(store, side, queues, i) == []
  {
    var rows := Rows(store, side, queues);
    var k := Rank(side, i, |queues|);
    forall m | 0 <= m < k
      ensures rows[m] == []
    {
      assert queues[Rank(side, m, |queues|)] == [];
    }
    ConcatEmpty(rows[..k]);
  }

  // ----- One level changes -----

  /** Relinking level (side, i) keeps the side's other chains and their orders. */
  lemma SideUpdate(store: Store, store': Store, side: Side, minPx: int, s: SideRep, i: nat, lvl: LevelFifo, q: seq<nat>)
    requires Chains(store, side, minPx, s) && i < |s.levels|
    requires SameOff(store, store', side, minPx + i)
    requires Chain(store', side, minPx + i, lvl, q)
    ensures Chains(store', side, minPx, SideRep(s.levels[i := lvl], s.queues[i := q]))
    ensures Flat(store', side, s.queues[i := q])
         == Before(store, side, s.queues, i) + EntriesOf(store', q) + After(store, side, s.queues, i)
  {
    forall j | 0 <= j < |s.levels| && j != i
      ensures Chain(store', side, minPx + j, s.levels[j], s.queues[j])
      ensures EntriesOf(store', s.queues[j]) == EntriesOf(store, s.queues[j])
    {
      ChainFrame(store, store', side, minPx + i, side, minPx + j, s.levels[j], s.queues[j]);
    }
    FlatUpdate(store, store', side, s.queues, i, q);
  }

  /** Relinking a level of one side keeps the other side. */
  lemma SideFrame(store: Store, store': Store, side: Side, minPx: int, px: int, t: SideRep)
    requires Chains(store, side.Opposite(), minPx, t)
    requires SameOff(store, store', side, px)
    ensures Chains(store', side.Opposite(), minPx, t)
    ensures Flat(store', side.Opposite(), t.queues) == Flat(store, side.Opposite(), t.queues)
  {
    forall j | 0 <= j < |t.levels|
      ensures Chain(store', side.Opposite(), minPx + j, t.levels[j], t.queues[j])
      ensures EntriesOf(store', t.queues[j]) == EntriesOf(store, t.queues[j])
    {
      ChainFrame(store, store', side, px, side.Opposite(), minPx + j, t.levels[j], t.queues[j]);
    }
    FlatFrame(store, store', side.Opposite(), t.queues);
  }

  /** The representation after level (side, i) became (lvl, q) over a new slab and id index. */
  function Relinked(r: Rep, store': Store, side: Side, i: nat, lvl: LevelFifo, q: seq<nat>, ids: map<nat, nat>): Rep
    requires i < |r.On(side).levels| && i < |r.On(side).queues|
  {
    r.Put(side, SideRep(r.On(side).levels[i := lvl], r.On(side).queues[i := q])).(store := store', ids := ids)
  }

  /** A queued slot that keeps its side and price stays queued. */
  lemma StaysQueued(r: Rep, r': Rep, side: Side, i: nat, lvl: LevelFifo, q: seq<nat>, y: nat)
    requires i < |r.On(side).levels| && i < |r.On(side).queues|
    requires r' == Relinked(r, r'.store, side, i, lvl, q, r'.ids)
    requires Holds(r.store, y) && Queued(r, y) && Holds(r'.store, y)
    requires r'.store[y].value.side == r.store[y].value.side && r'.store[y].value.price == r.store[y].value.price
    requires y in r.On(side).queues[i] ==> y in q
    ensures Queued(r', y)
  {
  }

  /** Apart from slot x, the same slots are live, with the same ids, sides and prices. */
  ghost predicate KeysKept(store: Store, store': Store, x: nat) {
    && |store'| == |store|
    && forall y :: 0 <= y < |store| && y != x ==>
      if store[y].Live? then
        && store'[y].Live? && store'[y].value.id == store[y].value.id
        && store'[y].value.side == store[y].value.side && store'[y].value.price == store[y].value.price
      else
        store'[y] == store[y]
  }

  /** Slots covered before stay covered when only level (side, i) and slot x change. */
  lemma CoveredUpdate(r: Rep, store': Store, side: Side, i: nat, lvl: LevelFifo, q: seq<nat>,
                      ids: map<nat, nat>, x: nat)
    requires Inv(r) && i < |r.On(side).levels| && x < |r.store| && KeysKept(r.store, store', x)
    requires forall y :: y in r.On(side).queues[i] && y != x ==> y in q
    requires !store'[x].Free? ==>
      Holds(store', x) && store'[x].value.side == side && store'[x].value.price == r.minPx + i && x in q
    ensures Covered(Relinked(r, store', side, i, lvl, q, ids))
  {
    var r' := Relinked(r, store', side, i, lvl, q, ids);
    forall y | 0 <= y < |store'| && !store'[y].Free?
      ensures Holds(store', y) && Queued(r', y)
    {
      if y != x {
        StaysQueued(r, r', side, i, lvl, q, y);
      }
    }
  }

  lemma IndexedAdd(store: Store, store': Store, ids: map<nat, nat>, x: nat)
    requires Indexed(store, ids) && x < |store| && KeysKept(store, store', x)
    requires store[x].Free? && store'[x].Live? && store'[x].value.id !in ids
    ensures Indexed(store', ids[store'[x].value.id := x])
  {
  }

  lemma IndexedDrop(store: Store, store': Store, ids: map<nat, nat>, x: nat)
    requires Indexed(store, ids) && x < |store| && KeysKept(store, store', x)
    requires store[x].Live? && store'[x].Free?
    ensures Indexed(store', ids - {store[x].value.id})
  {
  }

  lemma IndexedSame(store: Store, store': Store, ids: map<nat, nat>, x: nat)
    requires Indexed(store, ids) && x < |store| && KeysKept(store, store', x)
    requires store[x].Live? && store'[x].Live? && store'[x].value.id == store[x].value.id
    ensures Indexed(store', ids)
  {
  }

  ghost predicate Step(r: Rep, r': Rep, side: Side, i: nat, row: seq<Entry>)
    requires i < |r.On(side).queues|
  {
    && Inv(r')
    && r'.minPx == r.minPx
    && Abs(r) == Abs(r).With(side, Before(r.store, side, r.On(side).queues, i)
         + EntriesOf(r.store, r.On(side).queues[i]) + After(r.store, side, r.On(side).queues, i))
    && Abs(r') == Abs(r).With(side, Before(r.store, side, r.On(side).queues, i)
         + row + After(r.store, side, r.On(side).queues, i))
  }

  /** A level update that keeps the chain, the coverage and the index keeps the invariant. */
  lemma RelinkedStep(r: Rep, store': Store, side: Side, i: nat, px: int, lvl: LevelFifo, q: seq<nat>,
                     ids: map<nat, nat>)
    requires Inv(r) && i < |r.On(side).levels| && px == r.minPx + i
    requires SameOff(r.store, store', side, px)
    requires Chain(store', side, px, lvl, q)
    requires Covered(Relinked(r, store', side, i, lvl, q, ids)) && Indexed(store', ids)
    ensures Step(r, Relinked(r, store', side, i, lvl, q, ids), side, i, EntriesOf(store', q))
  {
    FlatAt(r.store, side, r.On(side).queues, i);
    SideUpdate(r.store, store', side, r.minPx, r.On(side), i, lvl, q);
    SideFrame(r.store, store', side, r.minPx, r.minPx + i, r.On(side.Opposite()));
  }

  lemma ChainSame(store: Store, store': Store, side: Side, px: int, lvl: LevelFifo, q: seq<nat>)
    requires Chain(store, side, px, lvl, q) && |store'| == |store|
    requires forall x :: x in q && x < |store| ==> store'[x] == store[x]
    ensures Chain(store', side, px, lvl, q)
    ensures EntriesOf(store', q) == EntriesOf(store, q)
  {
    forall k | 0 <= k < |q|
      ensures NodeAt(store', side, px, q, k) && EntryAt(store', q[k]) == EntryAt(store, q[k])
    {
      assert NodeAt(store, side, px, q, k);
    }
    assert EntriesOf(store', q) == EntriesOf(store, q);
  }

  // ----- The three structural updates -----

  function NewOrder(id: nat, side: Side, px: int, qty: nat): Order {
    Order(id, px, qty, side, NIL, NIL)
  }

  lemma ChainLive(store: Store, side: Side, px: int, lvl: LevelFifo, q: seq<nat>)
    requires Chain(store, side, px, lvl, q)
    ensures forall k :: 0 <= k < |q| ==>
      Holds(store, q[k]) && store[q[k]].value.side == side && store[q[k]].value.price == px
    ensures q != [] ==> Holds(store, lvl.tail)
  {
    forall k | 0 <= k < |q|
      ensures Holds(store, q[k]) && store[q[k]].value.side == side && store[q[k]].value.price == px
    {
      assert NodeAt(store, side, px, q, k);
    }
  }

  /** Level i of the side, and its queue. */
  ghost predicate At(r: Rep, side: Side, i: nat, lvl: LevelFifo, q: seq<nat>) {
    && i < |r.On(side).levels| && i < |r.On(side).queues|
    && r.On(side).levels[i] == lvl && r.On(side).queues[i] == q
  }

  /** Resting: a free slot o becomes the last order of level (side, i). */
  lemma RestStep(r: Rep, o: nat, id: nat, side: Side, i: nat, px: int, lvl: LevelFifo, q: seq<nat>, qty: nat)
    requires Inv(r) && At(r, side, i, lvl, q) && px == r.minPx + i
    requires o < |r.store| && r.store[o].Free? && id !in r.ids && qty > 0
    ensures var s1 := r.store[o := Live(NewOrder(id, side, px, qty))];
      && (lvl.tail == NIL || Holds(s1, lvl.tail))
      && var s2 := Pushed(s1, lvl, o);
      && Step(r, Relinked(r, s2, side, i, PushedLevel(lvl, o, qty), q + [o], r.ids[id := o]),
              side, i, EntriesOf(s2, q + [o]))
      && EntriesOf(s2, q + [o]) == EntriesOf(r.store, q) + [Entry(id, px, qty)]
  {
    var s1 := r.store[o := Live(NewOrder(id, side, px, qty))];
    assert Chain(r.store, side, px, lvl, q);
    ChainLive(r.store, side, px, lvl, q);
    ChainSame(r.store, s1, side, px, lvl, q);
    PushChain(s1, side, px, lvl, q, o);
    var s2 := Pushed(s1, lvl, o);
    PushedKeeps(r.store, s1, side, px, lvl, q, o);
    IndexedAdd(r.store, s2, r.ids, o);
    CoveredUpdate(r, s2, side, i, PushedLevel(lvl, o, qty), q + [o], r.ids[id := o], o);
    RelinkedStep(r, s2, side, i, px, PushedLevel(lvl, o, qty), q + [o], r.ids[id := o]);
  }

  /** Linking o behind a queue changes links at this level only, never ids, sides or prices. */
  lemma PushedKeeps(store: Store, s1: Store, side: Side, px: int, lvl: LevelFifo, q: seq<nat>, o: nat)
    requires o < |store| && store[o].Free? && |s1| == |store| && s1 == store[o := s1[o]] && s1[o].Live?
    requires s1[o].value.side == side && s1[o].value.price == px
    requires Chain(s1, side, px, lvl, q)
    requires lvl.tail == NIL || Holds(s1, lvl.tail)
    ensures var s2 := Pushed(s1, lvl, o);
      && SameOff(store, s2, side, px) && KeysKept(store, s2, o)
      && Holds(s2, o) && s2[o].value.side == side && s2[o].value.price == px && s2[o].value.id == s1[o].value.id
  {
    ChainLive(s1, side, px, lvl, q);
  }

  /** Dropping: node k of level (side, i) is unlinked, unindexed and freed. */
  lemma DropStep(r: Rep, side: Side, i: nat, lvl: LevelFifo, q: seq<nat>, k: nat, free: int)
    requires Inv(r) && At(r, side, i, lvl, q) && k < |q|
    requires Holds(r.store, q[k])
    requires Linked(r.store, r.store[q[k]].value.prev) && Linked(r.store, r.store[q[k]].value.next)
    requires lvl.totalQty >= r.store[q[k]].value.qty && lvl.orderCount >= 1
    ensures var s := Unlinked(r.store, q[k])[q[k] := Free(free)];
      && Step(r, Relinked(r, s, side, i, UnlinkedLevel(lvl, r.store[q[k]].value), Without(q, k),
                          r.ids - {r.store[q[k]].value.id}),
              side, i, EntriesOf(s, Without(q, k)))
      && EntriesOf(s, Without(q, k)) == EntriesOf(r.store, q)[..k] + EntriesOf(r.store, q)[k + 1..]
  {
    var px := r.minPx + i;
    assert Chain(r.store, side, px, lvl, q);
    UnlinkChain(r.store, side, px, lvl, q, k, Free(free));
    var x := q[k];
    var s := Unlinked(r.store, x)[x := Free(free)];
    var ids := r.ids - {r.store[x].value.id};
    UnlinkedKeeps(r.store, side, px, lvl, q, k, Free(free));
    IndexedDrop(r.store, s, r.ids, x);
    InWithout(q, k);
    CoveredUpdate(r, s, side, i, UnlinkedLevel(lvl, r.store[x].value), Without(q, k), ids, x);
    RelinkedStep(r, s, side, i, px, UnlinkedLevel(lvl, r.store[x].value), Without(q, k), ids);
  }

  lemma InWithout(q: seq<nat>, k: nat)
    requires k < |q|
    ensures forall y :: y in q && y != q[k] ==> y in Without(q, k)
  {
    forall y | y in q && y != q[k]
      ensures y in Without(q, k)
    {
      var j :| 0 <= j < |q| && q[j] == y;
      assert Without(q, k)[if j < k then j else j - 1] == y;
    }
  }

  lemma UnlinkedKeeps(store: Store, side: Side, px: int, lvl: LevelFifo, q: seq<nat>, k: nat, x: Slot<Order>)
    requires Chain(store, side, px, lvl, q) && k < |q|
    requires Holds(store, q[k]) && Linked(store, store[q[k]].value.prev) && Linked(store, store[q[k]].value.next)
    ensures var s := Unlinked(store, q[k])[q[k] := x];
      SameOff(store, s, side, px) && KeysKept(store, s, q[k])
  {
    ChainLive(store, side, px, lvl, q);
    Neighbours(store, side, px, lvl, q, k);
  }

  lemma ShrunkKeeps(store: Store, side: Side, px: int, x: nat, fill: nat)
    requires Holds(store, x) && store[x].value.side == side && store[x].value.price == px && fill <= store[x].value.qty
    ensures SameOff(store, Shrunk(store, x, fill), side, px) && KeysKept(store, Shrunk(store, x, fill), x)
  {
  }

  /** Shrinking: the head order of level (side, i) loses fill units. */
  lemma ShrinkStep(r: Rep, side: Side, i: nat, lvl: LevelFifo, q: seq<nat>, fill: nat)
    requires Inv(r) && At(r, side, i, lvl, q) && q != []
    requires Holds(r.store, q[0]) && fill < r.store[q[0]].value.qty && fill <= lvl.totalQty
    ensures var s := Shrunk(r.store, q[0], fill);
      && Step(r, Relinked(r, s, side, i, ShrunkLevel(lvl, fill), q, r.ids), side, i, EntriesOf(s, q))
      && EntriesOf(s, q) == [ShrunkEntry(EntryAt(r.store, q[0]), fill)] + EntriesOf(r.store, q)[1..]
  {
    var px := r.minPx + i;
    assert Chain(r.store, side, px, lvl, q);
    ChainLive(r.store, side, px, lvl, q);
    ShrinkChain(r.store, side, px, lvl, q, fill);
    var s := Shrunk(r.store, q[0], fill);
    ShrunkKeeps(r.store, side, px, q[0], fill);
    IndexedSame(r.store, s, r.ids, q[0]);
    CoveredUpdate(r, s, side, i, ShrunkLevel(lvl, fill), q, r.ids, q[0]);
    RelinkedStep(r, s, side, i, px, ShrunkLevel(lvl, fill), q, r.ids);
  }

  // ----- Where orders are -----

  /** Node k of level (side, i) is one order of the flat list. */
  lemma FlatHas(r: Rep, side: Side, i: nat, q: seq<nat>, k: nat)
    requires i < |r.On(side).queues| && r.On(side).queues[i] == q && k < |q|
    ensures var p := |Before(r.store, side, r.On(side).queues, i)| + k;
      && p < |Flat(r.store, side, r.On(side).queues)|
      && Flat(r.store, side, r.On(side).queues)[p] == EntryAt(r.store, q[k])
  {
    FlatAt(r.store, side, r.On(side).queues, i);
  }

  /** Cutting node k out of level (side, i) cuts one order out of the flat list. */
  lemma FlatCut(r: Rep, side: Side, i: nat, k: nat)
    requires i < |r.On(side).queues| && k < |r.On(side).queues[i]|
    ensures var row, flat := EntriesOf(r.store, r.On(side).queues[i]), Flat(r.store, side, r.On(side).queues);
      var a, z := Before(r.store, side, r.On(side).queues, i), After(r.store, side, r.On(side).queues, i);
      var p := |a| + k;
      p < |flat| && a + (row[..k] + row[k + 1..]) + z == flat[..p] + flat[p + 1..]
  {
    FlatAt(r.store, side, r.On(side).queues, i);
  }

  /** Every order of the flat list sits in a live slot. */
  lemma FlatSlot(r: Rep, side: Side, p: nat) returns (x: nat)
    requires Inv(r) && p < |Flat(r.store, side, r.On(side).queues)|
    ensures Holds(r.store, x) && EntryAt(r.store, x) == Flat(r.store, side, r.On(side).queues)[p]
    ensures r.store[x].value.side == side
  {
    var queues := r.On(side).queues;
    var m, j := ConcatMember(Rows(r.store, side, queues), p);
    var i := Rank(side, m, |queues|);
    var px := r.minPx + i;
    assert Chain(r.store, side, px, r.On(side).levels[i], queues[i]);
    ChainLive(r.store, side, px, r.On(side).levels[i], queues[i]);
    x := queues[i][j];
  }

  /** The id index knows exactly the ids of the abstract book. */
  lemma LiveIds(r: Rep, id: nat)
    requires Inv(r)
    ensures id in r.ids <==> Resting(Abs(r), id)
  {
    hide Inv, Abs, Has;
    if id in r.ids {
      IndexedRests(r, id);
    }
    RestingIndexed(r, Buy, id);
    RestingIndexed(r, Sell, id);
  }

  lemma IndexedRests(r: Rep, id: nat)
    requires Inv(r) && id in r.ids
    ensures Resting(Abs(r), id)
  {
    hide Chains, Flat, EntriesOf, Before, After;
    var x := r.ids[id];
    assert Queued(r, x);
    var o := r.store[x].value;
    var q := r.On(o.side).queues[o.price - r.minPx];
    var k :| 0 <= k < |q| && q[k] == x;
    FlatHas(r, o.side, o.price - r.minPx, q, k);
    assert Has(Abs(r).Of(o.side), id);
  }

  lemma RestingIndexed(r: Rep, side: Side, id: nat)
    requires Inv(r)
    ensures Has(Abs(r).Of(side), id) ==> id in r.ids
  {
    hide Chains, Flat, EntriesOf, Covered;
    if Has(Abs(r).Of(side), id) {
      var x := FlatSlot(r, side, Find(Abs(r).Of(side), id));
    }
  }

  /** With all levels empty the flat list is empty. */
  lemma FlatEmpty(store: Store, side: Side, queues: seq<seq<nat>>)
    requires forall i :: 0 <= i < |queues| ==> queues[i] == []
    ensures Flat(store, side, queues) == []
  {
    ConcatEmpty(Rows(store, side, queues));
  }

  /** With nothing ahead of a non-empty level i, its first order is the first of the side. */
  lemma FlatHead(r: Rep, side: Side, i: nat, px: int, lvl: LevelFifo, q: seq<nat>)
    requires Inv(r) && At(r, side, i, lvl, q) && q != [] && px == r.minPx + i
    requires forall j :: 0 <= j < |r.On(side).queues| && r.On(side).queues[j] != [] ==> !Better(side, j, i)
    ensures Before(r.store, side, r.On(side).queues, i) == []
    ensures Holds(r.store, q[0]) && lvl.head == q[0]
    ensures Chain(r.store, side, px, lvl, q) && |r.store| > q[0]
    ensures r.store[q[0]].value.price == px && r.store[q[0]].value.side == side && r.store[q[0]].value.qty > 0
    ensures r.store[q[0]].value.id in r.ids
    ensures lvl.totalQty >= r.store[q[0]].value.qty && lvl.orderCount >= 1
    ensures Linked(r.store, r.store[q[0]].value.prev) && Linked(r.store, r.store[q[0]].value.next)
    ensures Abs(r).Of(side) != [] && Abs(r).Of(side)[0] == EntryAt(r.store, q[0])
  {
    assert Chain(r.store, side, px, lvl, q);
    assert NodeAt(r.store, side, px, q, 0);
    CanUnlink(r.store, side, px, lvl, q, 0);
    BestRow(r.store, side, r.On(side).queues, i);
    FlatHas(r, side, i, q, 0);
  }

  /** Filling less than the first order shrinks it. */
  lemma ShrinkHead(r: Rep, side: Side, i: nat, px: int, lvl: LevelFifo, q: seq<nat>, fill: nat)
    requires Inv(r) && At(r, side, i, lvl, q) && q != [] && px == r.minPx + i
    requires Before(r.store, side, r.On(side).queues, i) == []
    requires Holds(r.store, q[0]) && fill < r.store[q[0]].value.qty && fill <= lvl.totalQty
    ensures Abs(r).Of(side) != [] && Abs(r).Of(side)[0] == EntryAt(r.store, q[0])
    ensures var r' := Relinked(r, Shrunk(r.store, q[0], fill), side, i, ShrunkLevel(lvl, fill), q, r.ids);
      Inv(r') && Abs(r') == Abs(r).With(side, AfterHead(fill, Abs(r).Of(side)))
    ensures FreeKept(r.store, Shrunk(r.store, q[0], fill))
  {
    hide Inv, Before, After, Flat, Relinked, ShrunkLevel, EntriesOf, AfterHead, Shrunk, Step;
    ShrunkFreeKept(r.store, q[0], fill);
    ShrinkStep(r, side, i, lvl, q, fill);
    var e, z := EntriesOf(r.store, q), After(r.store, side, r.On(side).queues, i);
    FirstEntry(r.store, q);
    HeadShrinks(e, fill, z);
    var row := [ShrunkEntry(e[0], fill)] + e[1..];
    var r' := Relinked(r, Shrunk(r.store, q[0], fill), side, i, ShrunkLevel(lvl, fill), q, r.ids);
    StepAtHead(r, r', side, i, row, AfterHead(fill, e + z));
  }

  lemma ShrunkFreeKept(store: Store, x: nat, fill: nat)
    requires Holds(store, x) && fill <= store[x].value.qty
    ensures FreeKept(store, Shrunk(store, x, fill))
  {
  }

  lemma FirstEntry(store: Store, q: seq<nat>)
    requires q != []
    ensures EntriesOf(store, q) != [] && EntriesOf(store, q)[0] == EntryAt(store, q[0])
  {
  }

  lemma HeadShrinks(e: seq<Entry>, fill: nat, z: seq<Entry>)
    requires e != [] && fill < e[0].qty
    ensures (e + z)[0] == e[0]
    ensures [] + ([ShrunkEntry(e[0], fill)] + e[1..]) + z == AfterHead(fill, e + z)
  {
    HeadOf(e, ShrunkEntry(e[0], fill), z);
  }

  /** A step at the best level turns the side's list into the new row followed by the worse levels. */
  lemma StepAtHead(r: Rep, r': Rep, side: Side, i: nat, row: seq<Entry>, list: seq<Entry>)
    requires i < |r.On(side).queues| && Step(r, r', side, i, row)
    requires Before(r.store, side, r.On(side).queues, i) == []
    requires [] + row + After(r.store, side, r.On(side).queues, i) == list
    ensures Inv(r') && Abs(r') == Abs(r).With(side, list)
    ensures Abs(r).Of(side)
         == EntriesOf(r.store, r.On(side).queues[i]) + After(r.store, side, r.On(side).queues, i)
  {
    hide Inv, Before, After, Abs, EntriesOf;
    var e, z := EntriesOf(r.store, r.On(side).queues[i]), After(r.store, side, r.On(side).queues, i);
    assert [] + e + z == e + z;
  }

  lemma HeadOf(e: seq<Entry>, h: Entry, z: seq<Entry>)
    requires e != []
    ensures [] + e + z == e + z
    ensures (e + z)[0] == e[0]
    ensures [] + ([h] + e[1..]) + z == [h] + (e + z)[1..]
    ensures [] + (e[..0] + e[1..]) + z == (e + z)[1..]
  {
  }

  /** Filling all of the first order drops it. */
  lemma DropHead(r: Rep, side: Side, i: nat, px: int, lvl: LevelFifo, q: seq<nat>, free: int)
    requires Inv(r) && At(r, side, i, lvl, q) && q != [] && px == r.minPx + i
    requires Before(r.store, side, r.On(side).queues, i) == []
    requires Holds(r.store, q[0])
    requires Linked(r.store, r.store[q[0]].value.prev) && Linked(r.store, r.store[q[0]].value.next)
    requires lvl.totalQty >= r.store[q[0]].value.qty && lvl.orderCount >= 1
    ensures Abs(r).Of(side) != []
    ensures var n := r.store[q[0]].value;
      var r' := Relinked(r, Unlinked(r.store, q[0])[q[0] := Free(free)], side, i, UnlinkedLevel(lvl, n), q[1..],
                         r.ids - {n.id});
      Inv(r') && Abs(r') == Abs(r).With(side, Abs(r).Of(side)[1..])
  {
    hide Inv, Before, After, Flat, Relinked;
    DropStep(r, side, i, lvl, q, 0, free);
    assert Without(q, 0) == q[1..];
    var e, z := EntriesOf(r.store, q), After(r.store, side, r.On(side).queues, i);
    HeadOf(e, e[0], z);
  }

  /** A freshly built book. */
  lemma EmptyInv(r: Rep)
    requires |r.bid.levels| == |r.ask.levels| == |r.bid.queues| == |r.ask.queues|
    requires forall i :: 0 <= i < |r.bid.levels| ==> r.bid.levels[i] == EMPTY_LEVEL && r.bid.queues[i] == []
    requires forall i :: 0 <= i < |r.ask.levels| ==> r.ask.levels[i] == EMPTY_LEVEL && r.ask.queues[i] == []
    requires forall x :: 0 <= x < |r.store| ==> r.store[x].Free?
    requires r.ids == map[]
    ensures Inv(r) && Abs(r) == EMPTY
  {
    FlatEmpty(r.store, Buy, r.bid.queues);
    FlatEmpty(r.store, Sell, r.ask.queues);
    assert forall side, px :: Chain(r.store, side, px, EMPTY_LEVEL, []);
  }

  /** A level is empty exactly when its queue is. */
  lemma EmptyQueues(r: Rep, side: Side)
    requires Inv(r)
    ensures |r.On(side).queues| == |r.On(side).levels|
    ensures forall j :: 0 <= j < |r.On(side).levels| ==>
      && (r.On(side).levels[j].Empty() <==> r.On(side).queues[j] == [])
      && (r.On(side).levels[j].Empty() <==> r.On(side).levels[j].tail == NIL)
  {
    forall j | 0 <= j < |r.On(side).levels|
      ensures r.On(side).levels[j].Empty() <==> r.On(side).queues[j] == []
      ensures r.On(side).levels[j].Empty() <==> r.On(side).levels[j].tail == NIL
    {
      var px := r.minPx + j;
      assert Chain(r.store, side, px, r.On(side).levels[j], r.On(side).queues[j]);
    }
  }

  /** No level of the side holds orders: nothing rests there. */
  lemma NoLevels(r: Rep, side: Side)
    requires Inv(r) && forall j :: 0 <= j < |r.On(side).levels| ==> r.On(side).levels[j].Empty()
    ensures Abs(r).Of(side) == []
  {
    EmptyQueues(r, side);
    FlatEmpty(r.store, side, r.On(side).queues);
  }

  /** The first order of the best occupied level is the first order of the side. */
  lemma BestHead(r: Rep, side: Side, i: nat, px: int)
    requires Inv(r) && i < |r.On(side).levels| && !r.On(side).levels[i].Empty() && px == r.minPx + i
    requires NoneBetter(side, r.On(side).levels, i)
    ensures i < |r.On(side).queues| && r.On(side).queues[i] != []
    ensures forall j :: 0 <= j < |r.On(side).queues| && r.On(side).queues[j] != [] ==> !Better(side, j, i)
    ensures Abs(r).Of(side) != [] && Abs(r).Of(side)[0].price == px && Abs(r).Of(side)[0].qty > 0
  {
    EmptyQueues(r, side);
    FlatHead(r, side, i, px, r.On(side).levels[i], r.On(side).queues[i]);
  }

  // ----- Resting and cancelling in the flat list -----

  /** Orders in row m carry the price of that row's level. */
  lemma RowPrice(r: Rep, side: Side, m: nat, j: nat)
    requires Inv(r) && m < |r.On(side).queues|
    requires j < |Rows(r.store, side, r.On(side).queues)[m]|
    ensures Rows(r.store, side, r.On(side).queues)[m][j].price == r.minPx + Rank(side, m, |r.On(side).queues|)
  {
    var i := Rank(side, m, |r.On(side).queues|);
    var px := r.minPx + i;
    assert Chain(r.store, side, px, r.On(side).levels[i], r.On(side).queues[i]);
    ChainLive(r.store, side, px, r.On(side).levels[i], r.On(side).queues[i]);
  }

  lemma AheadIsBetter(r: Rep, side: Side, i: nat, px: int, p: nat)
    requires Inv(r) && i < |r.On(side).queues| && px == r.minPx + i
    requires p < |Before(r.store, side, r.On(side).queues, i)|
    ensures Better(side, Before(r.store, side, r.On(side).queues, i)[p].price, px)
  {
    var queues := r.On(side).queues;
    var rows := Rows(r.store, side, queues);
    var k := Rank(side, i, |queues|);
    var m, j := ConcatMember(rows[..k], p);
    RowPrice(r, side, m, j);
  }

  lemma BehindIsWorse(r: Rep, side: Side, i: nat, px: int, p: nat)
    requires Inv(r) && i < |r.On(side).queues| && px == r.minPx + i
    requires p < |After(r.store, side, r.On(side).queues, i)|
    ensures Better(side, px, After(r.store, side, r.On(side).queues, i)[p].price)
  {
    var queues := r.On(side).queues;
    var rows := Rows(r.store, side, queues);
    var k := Rank(side, i, |queues|);
    var m, j := ConcatMember(rows[k + 1..], p);
    RowPrice(r, side, k + 1 + m, j);
  }

  /** Appending to level (side, i) is inserting by priority. */
  lemma AppendIsInsert(r: Rep, side: Side, i: nat, px: int, e: Entry)
    requires Inv(r) && i < |r.On(side).queues| && px == r.minPx + i && e.price == px
    ensures var queues := r.On(side).queues;
      Before(r.store, side, queues, i) + (EntriesOf(r.store, queues[i]) + [e]) + After(r.store, side, queues, i)
      == Insert(side, Flat(r.store, side, queues), e)
  {
    hide Before, After, Flat, Insert;
    var queues := r.On(side).queues;
    var a, row, z := Before(r.store, side, queues, i), EntriesOf(r.store, queues[i]), After(r.store, side, queues, i);
    FlatAt(r.store, side, queues, i);
    var front: seq<Entry> := a + row;
    forall j | 0 <= j < |front|
      ensures !Better(side, e.price, front[j].price)
    {
      if j < |a| {
        AheadIsBetter(r, side, i, px, j);
      } else {
        assert Chain(r.store, side, px, r.On(side).levels[i], queues[i]);
        ChainLive(r.store, side, px, r.On(side).levels[i], queues[i]);
      }
    }
    if z != [] {
      BehindIsWorse(r, side, i, px, 0);
    }
    InsertBetween(side, front, e, z);
    assert a + (row + [e]) + z == front + [e] + z;
  }

  /** Resting an order in a free slot inserts it into the abstract book. */
  lemma RestInserts(r: Rep, o: nat, id: nat, side: Side, i: nat, px: int, lvl: LevelFifo, q: seq<nat>, qty: nat)
    requires Inv(r) && At(r, side, i, lvl, q) && px == r.minPx + i
    requires o < |r.store| && r.store[o].Free? && id !in r.ids && qty > 0
    ensures var s1 := r.store[o := Live(NewOrder(id, side, px, qty))];
      && (lvl.tail == NIL || Holds(s1, lvl.tail))
      && var r' := Relinked(r, Pushed(s1, lvl, o), side, i, PushedLevel(lvl, o, qty), q + [o], r.ids[id := o]);
      && Inv(r') && Abs(r') == Abs(r).With(side, Insert(side, Abs(r).Of(side), Entry(id, px, qty)))
      && |Abs(r').bids| + |Abs(r').asks| == |Abs(r).bids| + |Abs(r).asks| + 1
  {
    hide Inv, Before, After, Flat, Relinked, Insert;
    RestStep(r, o, id, side, i, px, lvl, q, qty);
    AppendIsInsert(r, side, i, px, Entry(id, px, qty));
    InsertContents(side, Abs(r).Of(side), Entry(id, px, qty));
  }

  /** Where the index says an id rests. */
  lemma Locate(r: Rep, id: nat) returns (i: nat, k: nat)
    requires Inv(r) && id in r.ids
    ensures Holds(r.store, r.ids[id])
    ensures var o := r.store[r.ids[id]].value;
      && o.id == id && o.price == r.minPx + i
      && i < |r.On(o.side).levels| && i < |r.On(o.side).queues|
      && k < |r.On(o.side).queues[i]| && r.On(o.side).queues[i][k] == r.ids[id]
      && Chain(r.store, o.side, o.price, r.On(o.side).levels[i], r.On(o.side).queues[i])
  {
    var x := r.ids[id];
    var o := r.store[x].value;
    assert Queued(r, x);
    i := o.price - r.minPx;
    k :| 0 <= k < |r.On(o.side).queues[i]| && r.On(o.side).queues[i][k] == x;
    assert Chain(r.store, o.side, r.minPx + i, r.On(o.side).levels[i], r.On(o.side).queues[i]);
  }

  lemma QueuedRests(r: Rep, side: Side, i: nat, k: nat)
    requires i < |r.On(side).queues| && k < |r.On(side).queues[i]|
    ensures EntryAt(r.store, r.On(side).queues[i][k]) in Abs(r).Of(side)
  {
    FlatHas(r, side, i, r.On(side).queues[i], k);
  }

  /** Dropping node k of level (side, i) removes its order from the abstract book. */
  lemma DropRemoves(cfg: Config, r: Rep, side: Side, i: nat, lvl: LevelFifo, q: seq<nat>, k: nat, free: int)
    requires Inv(r) && At(r, side, i, lvl, q) && k < |q| && WellFormed(cfg, Abs(r))
    requires Holds(r.store, q[k])
    requires Linked(r.store, r.store[q[k]].value.prev) && Linked(r.store, r.store[q[k]].value.next)
    requires lvl.totalQty >= r.store[q[k]].value.qty && lvl.orderCount >= 1
    ensures var o := r.store[q[k]].value;
      var r' := Relinked(r, Unlinked(r.store, q[k])[q[k] := Free(free)], side, i, UnlinkedLevel(lvl, o), Without(q, k),
                         r.ids - {o.id});
      && Inv(r')
      && Cancel(Abs(r), o.id) == Outcome(Abs(r'), true, [], o.qty)
      && |Abs(r').bids| + |Abs(r').asks| == |Abs(r).bids| + |Abs(r).asks| - 1
  {
    hide Inv, WellFormed, Before, After, Flat, Relinked, Cancel, EntriesOf, Unlinked, UnlinkedLevel, Without;
    DropStep(r, side, i, lvl, q, k, free);
    FlatHas(r, side, i, q, k);
    FlatCut(r, side, i, k);
    CancelAt(cfg, Abs(r), side, |Before(r.store, side, r.On(side).queues, i)| + k);
  }

  /** A level's queue is the price's part of the priority list. */
  lemma LevelIsQueue(r: Rep, side: Side, i: nat, px: int)
    requires Inv(r) && i < |r.On(side).queues| && px == r.minPx + i
    ensures AtPrice(Abs(r).Of(side), px) == EntriesOf(r.store, r.On(side).queues[i])
    ensures r.On(side).levels[i].totalQty == Depth(AtPrice(Abs(r).Of(side), px))
    ensures r.On(side).levels[i].orderCount == |AtPrice(Abs(r).Of(side), px)|
  {
    var queues := r.On(side).queues;
    var a, row, z := Before(r.store, side, queues, i), EntriesOf(r.store, queues[i]), After(r.store, side, queues, i);
    FlatAt(r.store, side, queues, i);
    LevelChain(r, side, i, px);
    ChainTotals(r.store, side, px, r.On(side).levels[i], queues[i]);
    hide Inv, Before, After, Flat, AtPrice, EntriesOf, Chain, Depth;
    forall p | 0 <= p < |a|
      ensures a[p].price != px
    {
      AheadIsBetter(r, side, i, px, p);
    }
    forall p | 0 <= p < |z|
      ensures z[p].price != px
    {
      BehindIsWorse(r, side, i, px, p);
    }
    OnlyRowAtPrice(a, row, z, px);
  }

  lemma OnlyRowAtPrice(a: seq<Entry>, row: seq<Entry>, z: seq<Entry>, px: int)
    requires forall p :: 0 <= p < |a| ==> a[p].price != px
    requires forall p :: 0 <= p < |row| ==> row[p].price == px
    requires forall p :: 0 <= p < |z| ==> z[p].price != px
    ensures AtPrice(a + row + z, px) == row
  {
    AtPriceParts(a, row, z, px);
    AtPriceUniform(a, px);
    AtPriceUniform(row, px);
    AtPriceUniform(z, px);
    hide AtPrice;
  }

  lemma ChainTotals(store: Store, side: Side, px: int, lvl: LevelFifo, q: seq<nat>)
    requires Chain(store, side, px, lvl, q)
    ensures lvl.totalQty == Depth(EntriesOf(store, q)) && lvl.orderCount == |EntriesOf(store, q)|
    ensures forall k :: 0 <= k < |q| ==> EntriesOf(store, q)[k].price == px
  {
    ChainLive(store, side, px, lvl, q);
  }

  lemma LevelChain(r: Rep, side: Side, i: nat, px: int)
    requires Inv(r) && i < |r.On(side).queues| && px == r.minPx + i
    ensures i < |r.On(side).levels| && Chain(r.store, side, px, r.On(side).levels[i], r.On(side).queues[i])
  {
  }

  lemma AtPriceParts(a: seq<Entry>, row: seq<Entry>, z: seq<Entry>, px: int)
    ensures AtPrice(a + row + z, px) == AtPrice(a, px) + AtPrice(row, px) + AtPrice(z, px)
  {
    AtPriceAppend(a + row, z, px);
    AtPriceAppend(a, row, px);
  }

  function OrderTotal(levels: seq<LevelFifo>): nat {
    if levels == [] then 0 else OrderTotal(levels[..|levels| - 1]) + levels[|levels| - 1].orderCount
  }

  function RowTotal(rows: seq<seq<Entry>>): nat {
    if rows == [] then 0 else |rows[0]| + RowTotal(rows[1..])
  }

  lemma {:induction false} ConcatLength(rows: seq<seq<Entry>>)
    ensures |Concat(rows)| == RowTotal(rows)
  {
    if rows != [] {
      ConcatLength(rows[1..]);
    }
  }

  lemma {:induction false} RowTotalSplit(rows: seq<seq<Entry>>)
    requires rows != []
    ensures RowTotal(rows) == RowTotal(rows[..|rows| - 1]) + |rows[|rows| - 1]|
  {
    if |rows| > 1 {
      RowTotalSplit(rows[1..]);
      assert rows[1..][..|rows| - 2] == rows[..|rows| - 1][1..];
    }
  }

  /** Rows listed by level index or in reverse have the same total. */
  lemma {:induction false} CountRows(levels: seq<LevelFifo>, rows: seq<seq<Entry>>, side: Side)
    requires |rows| == |levels|
    requires forall k :: 0 <= k < |rows| ==> |rows[k]| == levels[Rank(side, k, |rows|)].orderCount
    ensures RowTotal(rows) == OrderTotal(levels)
  {
    if rows != [] {
      var n := |levels| - 1;
      if side.Buy? {
        CountRows(levels[..n], rows[1..], side);
      } else {
        RowTotalSplit(rows);
        CountRows(levels[..n], rows[..n], side);
      }
    }
  }

  /** A side holds as many orders as its level counters say. */
  lemma CountersAgree(r: Rep, side: Side)
    requires Inv(r)
    ensures |Abs(r).Of(side)| == OrderTotal(r.On(side).levels)
  {
    var rows := Rows(r.store, side, r.On(side).queues);
    var n := |rows|;
    forall k | 0 <= k < n
      ensures |rows[k]| == r.On(side).levels[Rank(side, k, n)].orderCount
    {
      var i := Rank(side, k, n);
      var px := r.minPx + i;
      assert Chain(r.store, side, px, r.On(side).levels[i], r.On(side).queues[i]);
    }
    CountRows(r.On(side).levels, rows, side);
    ConcatLength(rows);
  }

  /** Slot x is element k of the queue at level i of a side. */
  ghost predicate QueuedAt(r: Rep, x: nat, side: Side, i: nat, k: nat) {
    i < |r.On(side).queues| && k < |r.On(side).queues[i]| && r.On(side).queues[i][k] == x
  }

  /** No slot is queued in two places. */
  lemma QueuedOnce(r: Rep, x: nat, side: Side, i: nat, k: nat, side': Side, i': nat, k': nat)
    requires Inv(r) && QueuedAt(r, x, side, i, k) && QueuedAt(r, x, side', i', k')
    ensures side == side' && i == i' && k == k'
    ensures Holds(r.store, x) && r.store[x].value.side == side && r.store[x].value.price == r.minPx + i
  {
    var px, px' := r.minPx + i, r.minPx + i';
    LevelChain(r, side, i, px);
    LevelChain(r, side', i', px');
    hide Inv, Nodes, EntriesOf, Depth;
    ChainLive(r.store, side, px, r.On(side).levels[i], r.On(side).queues[i]);
    ChainLive(r.store, side', px', r.On(side').levels[i'], r.On(side').queues[i']);
  }

  ghost predicate QueuedSomewhere(r: Rep, x: nat) {
    exists side, i, k :: QueuedAt(r, x, side, i, k)
  }

  /** Every slot is either on the free list or in a level queue. */
  lemma FreeOrQueued(r: Rep, head: int, free: seq<nat>, x: nat)
    requires Inv(r) && FreeList(r.store, head, free) && x < |r.store|
    ensures x in free <==> !QueuedSomewhere(r, x)
  {
    FreeIff(r.store, head, free, x);
    hide FreeList, Inv, QueuedAt;
    if r.store[x].Free? {
      if side, i, k :| QueuedAt(r, x, side, i, k) {
        QueuedOnce(r, x, side, i, k, side, i, k);
      }
    } else {
      LiveIsQueued(r, x);
    }
  }

  lemma FreeIff(store: Store, head: int, free: seq<nat>, x: nat)
    requires FreeList(store, head, free) && x < |store|
    ensures x in free <==> store[x].Free?
  {
    hide Nth, NoDup;
  }

  lemma LiveIsQueued(r: Rep, x: nat)
    requires Inv(r) && x < |r.store| && !r.store[x].Free?
    ensures QueuedSomewhere(r, x)
  {
    hide Chains, Indexed;
    assert Queued(r, x);
    var o := r.store[x].value;
    var i := o.price - r.minPx;
    var k :| 0 <= k < |r.On(o.side).queues[i]| && r.On(o.side).queues[i][k] == x;
    assert QueuedAt(r, x, o.side, i, k);
  }
}
