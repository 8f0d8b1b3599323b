/**
 The abstract limit order book: per side, one list of resting orders in
 priority order (best price first, earliest arrival first within a price).
 The concrete book of module OrderBook is proved to refine these functions.
 */
module MatchingSpec {

  datatype Side = Buy | Sell {
    function Opposite(): Side {
      if Buy? then Sell else Buy
    }
  }

  datatype Entry = Entry(id: nat, price: int, qty: nat)

  datatype Fill = Fill(makerId: nat, takerId: nat, price: int, qty: nat, takerSide: Side)

  datatype Book = Book(bids: seq<Entry>, asks: seq<Entry>) {
    function Of(side: Side): seq<Entry> {
      if side.Buy? then bids else asks
    }

    function With(side: Side, list: seq<Entry>): Book {
      if side.Buy? then this.(bids := list) else this.(asks := list)
    }
  }

  const EMPTY := Book([], [])

  /** Capacity of the order slab and the inclusive price band of the ladder. */
  datatype Config = Config(capacity: nat, minPx: int, maxPx: int) {
    predicate InBand(px: int) {
      minPx <= px <= maxPx
    }
  }

  /** Resting price p has strict priority over q on this side. */
  predicate Better(side: Side, p: int, q: int) {
    if side.Buy? then p > q else p < q
  }

  /** A taker with this limit trades against a maker resting at makerPx. */
  predicate Crosses(takerSide: Side, takerPx: int, makerPx: int) {
    if takerSide.Buy? then makerPx <= takerPx else makerPx >= takerPx
  }

  // ----- Operations -----

  datatype Matched = Matched(fills: seq<Fill>, makers: seq<Entry>, left: nat)

  /** Sweep a taker through the opposite side's priority list. */
  function Match(taker: nat, side: Side, px: int, qty: nat, makers: seq<Entry>): Matched
    decreases |makers|
  {
    if qty == 0 || makers == [] || !Crosses(side, px, makers[0].price) then
      Matched([], makers, qty)
    else
      var m := makers[0];
      if qty < m.qty then
        Matched([Fill(m.id, taker, m.price, qty, side)], [m.(qty := m.qty - qty)] + makers[1..], 0)
      else
        var r := Match(taker, side, px, qty - m.qty, makers[1..]);
        Matched([Fill(m.id, taker, m.price, m.qty, side)] + r.fills, r.makers, r.left)
  }

  /** Queue e behind every order that is at least as good. */
  function Insert(side: Side, list: seq<Entry>, e: Entry): seq<Entry> {
    if list == [] || Better(side, e.price, list[0].price) then
      [e] + list
    else
      [list[0]] + Insert(side, list[1..], e)
  }

  function Remove(list: seq<Entry>, id: nat): seq<Entry> {
    if list == [] then [] else if list[0].id == id then list[1..] else [list[0]] + Remove(list[1..], id)
  }

  predicate Has(list: seq<Entry>, id: nat) {
    exists k :: 0 <= k < |list| && list[k].id == id
  }

  predicate Resting(b: Book, id: nat) {
    Has(b.bids, id) || Has(b.asks, id)
  }

  /** Position of an order in a list that has it. */
  function Find(list: seq<Entry>, id: nat): (k: nat)
    requires Has(list, id)
    ensures k < |list| && list[k].id == id
    ensures forall j :: 0 <= j < k ==> list[j].id != id
  {
    if list[0].id == id then 0
    else
      assert Has(list[1..], id) by {
        var k :| 0 <= k < |list| && list[k].id == id;
        assert list[1..][k - 1].id == id;
      }
      1 + Find(list[1..], id)
  }

  /** What one call of the book reports; gone is the residual a cancel removed or a failed rest dropped. */
  datatype Outcome = Outcome(book: Book, ok: bool, fills: seq<Fill>, gone: nat)

  function Submit(cfg: Config, b: Book, id: nat, side: Side, px: int, qty: nat): Outcome {
    var m := Match(id, side, px, qty, b.Of(side.Opposite()));
    var b' := b.With(side.Opposite(), m.makers);
    if m.left == 0 then
      Outcome(b', true, m.fills, 0)
    else if cfg.InBand(px) && |b'.bids| + |b'.asks| < cfg.capacity then
      Outcome(b'.With(side, Insert(side, b'.Of(side), Entry(id, px, m.left))), true, m.fills, 0)
    else
      Outcome(b', false, m.fills, m.left)
  }

  function Cancel(b: Book, id: nat): Outcome {
    if Has(b.bids, id) then
      Outcome(b.(bids := Remove(b.bids, id)), true, [], b.bids[Find(b.bids, id)].qty)
    else if Has(b.asks, id) then
      Outcome(b.(asks := Remove(b.asks, id)), true, [], b.asks[Find(b.asks, id)].qty)
    else
      Outcome(b, false, [], 0)
  }

  // ----- Invariant -----

  ghost predicate SortedBy(side: Side, list: seq<Entry>) {
    forall i, j :: 0 <= i < j < |list| ==> !Better(side, list[j].price, list[i].price)
  }

  ghost predicate Unique(list: seq<Entry>) {
    forall i, j :: 0 <= i < j < |list| ==> list[i].id != list[j].id
  }

  ghost predicate Apart(a: seq<Entry>, b: seq<Entry>) {
    forall i, j :: 0 <= i < |a| && 0 <= j < |b| ==> a[i].id != b[j].id
  }

  ghost predicate Restable(cfg: Config, list: seq<Entry>) {
    forall i :: 0 <= i < |list| ==> list[i].qty > 0 && cfg.InBand(list[i].price)
  }

  ghost predicate Uncrossed(b: Book) {
    forall i, j :: 0 <= i < |b.bids| && 0 <= j < |b.asks| ==> b.bids[i].price < b.asks[j].price
  }

  ghost predicate WellFormed(cfg: Config, b: Book) {
    && SortedBy(Buy, b.bids) && SortedBy(Sell, b.asks)
    && Unique(b.bids) && Unique(b.asks) && Apart(b.bids, b.asks)
    && Restable(cfg, b.bids) && Restable(cfg, b.asks)
    && Uncrossed(b)
    && |b.bids| + |b.asks| <= cfg.capacity
  }

  // ----- Facts about Match -----

  /** rest is the tail of list from k on, except that its first order may have shrunk. */
  ghost predicate SuffixOf(rest: seq<Entry>, list: seq<Entry>, k: nat) {
    && k <= |list|
    && if k == |list| then rest == [] else
      && rest != [] && 0 < rest[0].qty <= list[k].qty
      && rest == [list[k].(qty := rest[0].qty)] + list[k + 1..]
  }

  /** Matching removes a prefix of crossing makers and may shrink the next crossing one, nothing else. */
  ghost predicate TakesPrefix(side: Side, px: int, makers: seq<Entry>, r: Matched, k: nat) {
    && SuffixOf(r.makers, makers, k)
    && (forall i :: 0 <= i < k ==> Crosses(side, px, makers[i].price))
    && (r.makers != [] && r.makers[0] != makers[k] ==> Crosses(side, px, makers[k].price))
    && (r.left > 0 ==> r.makers == [] || !Crosses(side, px, r.makers[0].price))
  }

  lemma {:induction false} MatchTakesPrefix(taker: nat, side: Side, px: int, qty: nat, makers: seq<Entry>)
      returns (k: nat)
    requires forall i :: 0 <= i < |makers| ==> makers[i].qty > 0
    ensures TakesPrefix(side, px, makers, Match(taker, side, px, qty, makers), k)
    decreases |makers|
  {
    k := 0;
    if qty > 0 && makers != [] && Crosses(side, px, makers[0].price) && qty >= makers[0].qty {
      k := MatchTakesPrefix(taker, side, px, qty - makers[0].qty, makers[1..]);
      PrefixAndFirst(side, px, makers, Match(taker, side, px, qty - makers[0].qty, makers[1..]), k);
      k := k + 1;
    } else if makers != [] {
      assert makers == [makers[0]] + makers[1..];
    }
  }

  lemma PrefixAndFirst(side: Side, px: int, makers: seq<Entry>, r: Matched, k: nat)
    requires makers != [] && TakesPrefix(side, px, makers[1..], r, k) && Crosses(side, px, makers[0].price)
    ensures forall fills :: TakesPrefix(side, px, makers, Matched(fills, r.makers, r.left), k + 1)
  {
    var rest := makers[1..];
    assert k < |rest| ==> rest[k + 1..] == makers[k + 2..];
    forall i | 0 <= i < k + 1
      ensures Crosses(side, px, makers[i].price)
    {
      assert i > 0 ==> makers[i] == rest[i - 1];
    }
  }

  function Filled(fills: seq<Fill>): nat {
    if fills == [] then 0 else fills[0].qty + Filled(fills[1..])
  }

  function Depth(list: seq<Entry>): nat {
    if list == [] then 0 else list[0].qty + Depth(list[1..])
  }

  lemma {:induction false} DepthAppend(a: seq<Entry>, b: seq<Entry>)
    ensures Depth(a + b) == Depth(a) + Depth(b)
  {
    if a == [] {
      assert a + b == b;
    } else {
      DepthAppend(a[1..], b);
      assert (a + b)[1..] == a[1..] + b;
    }
  }

  /** Every unit a taker sends is filled or left, and every unit filled leaves a maker. */
  lemma {:induction false} MatchConserves(taker: nat, side: Side, px: int, qty: nat, makers: seq<Entry>)
    ensures var r := Match(taker, side, px, qty, makers);
      && qty == Filled(r.fills) + r.left
      && Depth(makers) == Filled(r.fills) + Depth(r.makers)
    decreases |makers|
  {
    if qty == 0 || makers == [] || !Crosses(side, px, makers[0].price) {
    } else if qty < makers[0].qty {
      var m := makers[0];
      var rest := [m.(qty := m.qty - qty)] + makers[1..];
      assert rest[1..] == makers[1..];
      assert Filled([Fill(m.id, taker, m.price, qty, side)]) == qty;
    } else {
      var m := makers[0];
      var r := Match(taker, side, px, qty - m.qty, makers[1..]);
      MatchConserves(taker, side, px, qty - m.qty, makers[1..]);
      var f := [Fill(m.id, taker, m.price, m.qty, side)] + r.fills;
      assert f[1..] == r.fills;
    }
  }

  /**
   Fill i trades with maker i of the priority list, at that maker's resting
   price, which the taker's limit allows; every fill but the last takes all of
   its maker.
   */
  lemma {:induction false} MatchFillsInOrder(taker: nat, side: Side, px: int, qty: nat, makers: seq<Entry>)
    requires forall i :: 0 <= i < |makers| ==> makers[i].qty > 0
    ensures var fills := Match(taker, side, px, qty, makers).fills;
      && |fills| <= |makers|
      && (forall i :: 0 <= i < |fills| ==>
        && fills[i].makerId == makers[i].id && fills[i].price == makers[i].price
        && fills[i].takerId == taker && fills[i].takerSide == side
        && 0 < fills[i].qty <= makers[i].qty
        && if side.Buy? then makers[i].price <= px else makers[i].price >= px)
      && (forall i :: 0 <= i < |fills| - 1 ==> fills[i].qty == makers[i].qty)
    decreases |makers|
  {
    if qty > 0 && makers != [] && Crosses(side, px, makers[0].price) && qty >= makers[0].qty {
      MatchFillsInOrder(taker, side, px, qty - makers[0].qty, makers[1..]);
      var fills, rest := Match(taker, side, px, qty, makers).fills,
                         Match(taker, side, px, qty - makers[0].qty, makers[1..]).fills;
      assert forall i :: 1 <= i < |fills| ==> fills[i] == rest[i - 1] && makers[i] == makers[1..][i - 1];
    }
  }

  // ----- Facts about Insert and Remove -----

  /** The number of orders that keep priority over a new order at this price. */
  function Ahead(side: Side, list: seq<Entry>, px: int): (k: nat)
    ensures k <= |list|
    ensures forall i :: 0 <= i < k ==> !Better(side, px, list[i].price)
    ensures k < |list| ==> Better(side, px, list[k].price)
  {
    if list == [] || Better(side, px, list[0].price) then 0 else 1 + Ahead(side, list[1..], px)
  }

  lemma {:induction false} InsertAt(side: Side, list: seq<Entry>, e: Entry)
    ensures var k := Ahead(side, list, e.price);
      Insert(side, list, e) == list[..k] + [e] + list[k..]
  {
    if list == [] || Better(side, e.price, list[0].price) {
      assert list[..0] + [e] + list[0..] == [e] + list;
    } else {
      InsertAt(side, list[1..], e);
      SpliceAfter(list, e, Ahead(side, list[1..], e.price));
    }
  }

  lemma SpliceAfter(list: seq<Entry>, e: Entry, k: nat)
    requires k < |list|
    ensures [list[0]] + (list[1..][..k] + [e] + list[1..][k..]) == list[..k + 1] + [e] + list[k + 1..]
  {
    assert list[..k + 1] == [list[0]] + list[1..][..k];
    assert list[k + 1..] == list[1..][k..];
  }

  lemma {:induction false} RemoveAt(list: seq<Entry>, id: nat, k: nat)
    requires k < |list| && list[k].id == id
    requires forall j :: 0 <= j < k ==> list[j].id != id
    ensures Remove(list, id) == list[..k] + list[k + 1..]
  {
    if k == 0 {
      assert list[..0] + list[1..] == list[1..];
    } else {
      RemoveAt(list[1..], id, k - 1);
      assert list[..k] == [list[0]] + list[1..][..k - 1];
      assert list[k + 1..] == list[1..][k..];
    }
  }

  ghost predicate Good(cfg: Config, side: Side, list: seq<Entry>) {
    SortedBy(side, list) && Unique(list) && Restable(cfg, list)
  }

  lemma SplicedIsGood(cfg: Config, side: Side, list: seq<Entry>, e: Entry, k: nat)
    requires Good(cfg, side, list) && k <= |list|
    requires forall i :: 0 <= i < |list| ==> list[i].id != e.id
    requires e.qty > 0 && cfg.InBand(e.price)
    requires forall i :: 0 <= i < k ==> !Better(side, e.price, list[i].price)
    requires forall i :: k <= i < |list| ==> !Better(side, list[i].price, e.price)
    ensures Good(cfg, side, list[..k] + [e] + list[k..])
  {
  }

  lemma InsertKeeps(cfg: Config, side: Side, list: seq<Entry>, e: Entry)
    requires Good(cfg, side, list)
    requires !Has(list, e.id) && e.qty > 0 && cfg.InBand(e.price)
    ensures Good(cfg, side, Insert(side, list, e))
  {
    var k := Ahead(side, list, e.price);
    InsertAt(side, list, e);
    SplicedIsGood(cfg, side, list, e, k);
  }

  /** Inserting adds exactly one order. */
  lemma InsertContents(side: Side, list: seq<Entry>, e: Entry)
    ensures var l := Insert(side, list, e);
      && |l| == |list| + 1
      && (forall i :: 0 <= i < |l| ==> l[i] == e || l[i] in list)
      && e in l && (forall i :: 0 <= i < |list| ==> list[i] in l)
      && Depth(l) == Depth(list) + e.qty
  {
    var k := Ahead(side, list, e.price);
    InsertAt(side, list, e);
    hide Insert, Depth;
    var l := list[..k] + [e] + list[k..];
    assert l[k] == e;
    assert forall i :: 0 <= i < |list| ==> list[i] == l[if i < k then i else i + 1];
    SplicedDepth(list, e, k);
  }

  lemma DepthOne(e: Entry)
    ensures Depth([e]) == e.qty
  {
  }

  lemma SplicedDepth(list: seq<Entry>, e: Entry, k: nat)
    requires k <= |list|
    ensures Depth(list[..k] + [e] + list[k..]) == Depth(list) + e.qty
  {
    DepthOne(e);
    hide Depth;
    DepthAppend(list[..k] + [e], list[k..]);
    DepthAppend(list[..k], [e]);
    DepthAppend(list[..k], list[k..]);
    assert list == list[..k] + list[k..];
  }

  lemma CutIsGood(cfg: Config, side: Side, list: seq<Entry>, k: nat)
    requires Good(cfg, side, list) && k < |list|
    ensures Good(cfg, side, list[..k] + list[k + 1..])
  {
  }

  lemma RemoveKeeps(cfg: Config, side: Side, list: seq<Entry>, id: nat)
    requires Good(cfg, side, list) && Has(list, id)
    ensures Good(cfg, side, Remove(list, id)) && !Has(Remove(list, id), id)
  {
    var k := Find(list, id);
    RemoveAt(list, id, k);
    CutIsGood(cfg, side, list, k);
  }

  /** Removing takes away exactly the order found. */
  lemma RemoveContents(list: seq<Entry>, id: nat)
    requires Has(list, id)
    ensures var l := Remove(list, id);
      && |l| == |list| - 1
      && (forall i :: 0 <= i < |l| ==> l[i] in list)
      && (forall i :: 0 <= i < |list| && list[i].id != id ==> list[i] in l)
      && Depth(list) == Depth(l) + list[Find(list, id)].qty
  {
    var k := Find(list, id);
    RemoveAt(list, id, k);
    CutMembers(list, k);
    CutDepth(list, k);
    hide Remove, Depth, Has;
  }

  lemma CutMembers(list: seq<Entry>, k: nat)
    requires k < |list|
    ensures var l := list[..k] + list[k + 1..];
      && (forall i :: 0 <= i < |l| ==> l[i] in list)
      && (forall i :: 0 <= i < |list| && list[i].id != list[k].id ==> list[i] in l)
  {
    var l := list[..k] + list[k + 1..];
    forall i | 0 <= i < |list| && i != k
      ensures list[i] in l
    {
      assert list[i] == l[if i < k then i else i - 1];
    }
  }

  lemma CutDepth(list: seq<Entry>, k: nat)
    requires k < |list|
    ensures Depth(list) == Depth(list[..k] + list[k + 1..]) + list[k].qty
  {
    DepthOne(list[k]);
    hide Depth;
    var rest := list[k + 1..];
    DepthAppend(list[..k], rest);
    DepthAppend(list[..k], [list[k]] + rest);
    DepthAppend([list[k]], rest);
    assert list == list[..k] + ([list[k]] + rest);
  }

  // ----- The operations keep the book well formed -----

  lemma SuffixIsGood(cfg: Config, side: Side, rest: seq<Entry>, list: seq<Entry>, k: nat)
    requires Good(cfg, side, list) && SuffixOf(rest, list, k)
    ensures Good(cfg, side, rest)
  {
  }

  /** A match keeps the book well formed, and stops short of the taker's price if anything is left. */
  lemma MatchKeeps(cfg: Config, b: Book, taker: nat, side: Side, px: int, qty: nat)
    requires WellFormed(cfg, b)
    ensures var m := Match(taker, side, px, qty, b.Of(side.Opposite()));
      && WellFormed(cfg, b.With(side.Opposite(), m.makers))
      && (m.left > 0 ==> forall i :: 0 <= i < |m.makers| ==> !Crosses(side, px, m.makers[i].price))
      && (forall id :: Resting(b.With(side.Opposite(), m.makers), id) ==> Resting(b, id))
  {
    var makers := b.Of(side.Opposite());
    var m := Match(taker, side, px, qty, makers);
    var k := MatchTakesPrefix(taker, side, px, qty, makers);
    SuffixIsGood(cfg, side.Opposite(), m.makers, makers, k);
    SuffixInBook(b, side.Opposite(), m.makers, k);
    if m.left > 0 {
      forall i | 0 <= i < |m.makers|
        ensures !Crosses(side, px, m.makers[i].price)
      {
        assert i > 0 ==> !Better(side.Opposite(), m.makers[i].price, m.makers[0].price);
      }
    }
  }

  lemma SuffixInBook(b: Book, side: Side, rest: seq<Entry>, k: nat)
    requires SuffixOf(rest, b.Of(side), k) && Apart(b.bids, b.asks) && Uncrossed(b)
    ensures var b' := b.With(side, rest);
      && Apart(b'.bids, b'.asks) && Uncrossed(b')
      && (forall id :: Resting(b', id) ==> Resting(b, id))
  {
    var b' := b.With(side, rest);
    assert forall i :: 0 <= i < |rest| ==>
      rest[i].id == b.Of(side)[k + i].id && rest[i].price == b.Of(side)[k + i].price;
  }

  /** Resting an order that does not cross keeps the book well formed. */
  lemma RestKeeps(cfg: Config, b: Book, id: nat, side: Side, px: int, qty: nat)
    requires WellFormed(cfg, b) && !Resting(b, id) && qty > 0
    requires cfg.InBand(px) && |b.bids| + |b.asks| < cfg.capacity
    requires forall i :: 0 <= i < |b.Of(side.Opposite())| ==> !Crosses(side, px, b.Of(side.Opposite())[i].price)
    ensures WellFormed(cfg, b.With(side, Insert(side, b.Of(side), Entry(id, px, qty))))
  {
    hide Insert;
    var e := Entry(id, px, qty);
    var list, other := b.Of(side), b.Of(side.Opposite());
    InsertKeeps(cfg, side, list, e);
    InsertContents(side, list, e);
    RestIsClear(cfg, b, id, side, px, qty);
    AddedIsClear(side, list, other, Insert(side, list, e), e);
    assert b.With(side, list) == b;
  }

  lemma RestIsClear(cfg: Config, b: Book, id: nat, side: Side, px: int, qty: nat)
    requires WellFormed(cfg, b) && !Resting(b, id)
    requires forall i :: 0 <= i < |b.Of(side.Opposite())| ==> !Crosses(side, px, b.Of(side.Opposite())[i].price)
    ensures Clear(side, b.Of(side), b.Of(side.Opposite()))
    ensures Clear(side, [Entry(id, px, qty)], b.Of(side.Opposite()))
  {
  }

  ghost predicate Clear(side: Side, a: seq<Entry>, b: seq<Entry>) {
    forall i, j :: 0 <= i < |a| && 0 <= j < |b| ==> a[i].id != b[j].id && !Crosses(side, a[i].price, b[j].price)
  }

  lemma AddedIsClear(side: Side, list: seq<Entry>, other: seq<Entry>, l: seq<Entry>, e: Entry)
    requires Clear(side, list, other) && Clear(side, [e], other)
    requires forall i :: 0 <= i < |l| ==> l[i] == e || l[i] in list
    ensures Clear(side, l, other)
  {
    forall i, j | 0 <= i < |l| && 0 <= j < |other|
      ensures l[i].id != other[j].id && !Crosses(side, l[i].price, other[j].price)
    {
      assert [e][0] == e;
    }
  }

  lemma SubmitKeeps(cfg: Config, b: Book, id: nat, side: Side, px: int, qty: nat)
    requires WellFormed(cfg, b) && !Resting(b, id)
    ensures WellFormed(cfg, Submit(cfg, b, id, side, px, qty).book)
  {
    MatchKeeps(cfg, b, id, side, px, qty);
    var m := Match(id, side, px, qty, b.Of(side.Opposite()));
    var b' := b.With(side.Opposite(), m.makers);
    if m.left > 0 && cfg.InBand(px) && |b'.bids| + |b'.asks| < cfg.capacity {
      RestKeeps(cfg, b', id, side, px, m.left);
    }
  }

  /** An accepted residual rests under its id, at its price. */
  lemma ResidualRests(cfg: Config, b: Book, id: nat, side: Side, px: int, qty: nat)
    ensures var o := Submit(cfg, b, id, side, px, qty);
      && Filled(o.fills) <= qty
      && (o.ok && Filled(o.fills) < qty ==> Entry(id, px, qty - Filled(o.fills)) in o.book.Of(side))
  {
    hide Match, Insert, Filled, Depth;
    var m := Match(id, side, px, qty, b.Of(side.Opposite()));
    MatchConserves(id, side, px, qty, b.Of(side.Opposite()));
    InsertHas(side, b.Of(side), Entry(id, px, m.left));
  }

  lemma InsertHas(side: Side, list: seq<Entry>, e: Entry)
    ensures e in Insert(side, list, e)
  {
    InsertContents(side, list, e);
  }

  /** Cancelling an order known to sit at position k of one side. */
  lemma CancelAt(cfg: Config, b: Book, side: Side, k: nat)
    requires WellFormed(cfg, b) && k < |b.Of(side)|
    ensures var e := b.Of(side)[k];
      Cancel(b, e.id) == Outcome(b.With(side, b.Of(side)[..k] + b.Of(side)[k + 1..]), true, [], e.qty)
  {
    var id := b.Of(side)[k].id;
    assert Has(b.Of(side), id);
    RemoveAt(b.Of(side), id, k);
    assert Find(b.Of(side), id) == k;
  }

  lemma CancelUnknown(b: Book, id: nat)
    requires !Resting(b, id)
    ensures Cancel(b, id) == Outcome(b, false, [], 0)
  {
  }

  lemma CancelKeeps(cfg: Config, b: Book, id: nat)
    requires WellFormed(cfg, b)
    ensures WellFormed(cfg, Cancel(b, id).book)
    ensures !Resting(Cancel(b, id).book, id)
  {
    if Has(b.bids, id) {
      RemoveKeeps(cfg, Buy, b.bids, id);
      RemoveContents(b.bids, id);
    } else if Has(b.asks, id) {
      RemoveKeeps(cfg, Sell, b.asks, id);
      RemoveContents(b.asks, id);
    }
  }

  // ----- Matching one maker at a time -----

  /** Sweeping makers with qty gives the fills so far, then whatever sweeping the makers left now gives. */
  ghost predicate Resumes(taker: nat, side: Side, px: int, qty: nat, makers: seq<Entry>,
                          fills: seq<Fill>, left: nat, now: seq<Entry>)
  {
    var m := Match(taker, side, px, left, now);
    Match(taker, side, px, qty, makers) == Matched(fills + m.fills, m.makers, m.left)
  }

  lemma ResumesAtStart(taker: nat, side: Side, px: int, qty: nat, makers: seq<Entry>)
    ensures Resumes(taker, side, px, qty, makers, [], qty, makers)
  {
    var m := Match(taker, side, px, qty, makers);
    assert [] + m.fills == m.fills;
  }

  /** What filling against the first maker leaves of it and its queue. */
  function AfterHead(left: nat, now: seq<Entry>): seq<Entry>
    requires now != []
  {
    if left < now[0].qty then [now[0].(qty := now[0].qty - left)] + now[1..] else now[1..]
  }

  function HeadFill(taker: nat, side: Side, left: nat, now: seq<Entry>): Fill
    requires now != []
  {
    Fill(now[0].id, taker, now[0].price, if left < now[0].qty then left else now[0].qty, side)
  }

  lemma ResumesAfterHead(taker: nat, side: Side, px: int, qty: nat, makers: seq<Entry>,
                         fills: seq<Fill>, left: nat, now: seq<Entry>)
    requires Resumes(taker, side, px, qty, makers, fills, left, now)
    requires left > 0 && now != [] && Crosses(side, px, now[0].price)
    ensures var f := HeadFill(taker, side, left, now);
      && f.qty <= left
      && Resumes(taker, side, px, qty, makers, fills + [f], left - f.qty, AfterHead(left, now))
  {
    var f := HeadFill(taker, side, left, now);
    var m := Match(taker, side, px, left - f.qty, AfterHead(left, now));
    assert fills + ([f] + m.fills) == (fills + [f]) + m.fills;
    if left < now[0].qty {
      assert m.fills == [];
      assert fills + [f] == (fills + [f]) + [];
    }
  }

  /** Two consecutive stretches of a match make one. */
  lemma ResumesTrans(taker: nat, side: Side, px: int, qty: nat, makers: seq<Entry>,
                     fills: seq<Fill>, left: nat, now: seq<Entry>, more: seq<Fill>, left': nat, now': seq<Entry>)
    requires Resumes(taker, side, px, qty, makers, fills, left, now)
    requires Resumes(taker, side, px, left, now, more, left', now')
    ensures Resumes(taker, side, px, qty, makers, fills + more, left', now')
  {
    var m := Match(taker, side, px, left', now');
    assert fills + (more + m.fills) == (fills + more) + m.fills;
  }

  /** A match that cannot go on is finished. */
  lemma ResumesAtEnd(taker: nat, side: Side, px: int, qty: nat, makers: seq<Entry>,
                     fills: seq<Fill>, left: nat, now: seq<Entry>)
    requires Resumes(taker, side, px, qty, makers, fills, left, now)
    requires left == 0 || now == [] || !Crosses(side, px, now[0].price)
    ensures Match(taker, side, px, qty, makers) == Matched(fills, now, left)
  {
    assert fills + [] == fills;
  }

  /** An order queues behind everything at least as good and ahead of everything worse. */
  lemma {:induction false} InsertBetween(side: Side, a: seq<Entry>, e: Entry, z: seq<Entry>)
    requires forall j :: 0 <= j < |a| ==> !Better(side, e.price, a[j].price)
    requires z != [] ==> Better(side, e.price, z[0].price)
    ensures Insert(side, a + z, e) == a + [e] + z
  {
    if a == [] {
      assert a + z == z;
    } else {
      InsertBetween(side, a[1..], e, z);
      assert (a + z)[1..] == a[1..] + z;
    }
  }

  // ----- One price level of a priority list -----

  /** The orders resting at one price, in arrival order. */
  function AtPrice(list: seq<Entry>, px: int): seq<Entry> {
    if list == [] then [] else (if list[0].price == px then [list[0]] else []) + AtPrice(list[1..], px)
  }

  lemma {:induction false} AtPriceAppend(a: seq<Entry>, b: seq<Entry>, px: int)
    ensures AtPrice(a + b, px) == AtPrice(a, px) + AtPrice(b, px)
  {
    if a == [] {
      assert a + b == b;
    } else {
      AtPriceAppend(a[1..], b, px);
      assert (a + b)[1..] == a[1..] + b;
      var first, rest, last := if a[0].price == px then [a[0]] else [], AtPrice(a[1..], px), AtPrice(b, px);
      assert first + (rest + last) == (first + rest) + last;
    }
  }

  lemma {:induction false} AtPriceUniform(list: seq<Entry>, px: int)
    ensures (forall i :: 0 <= i < |list| ==> list[i].price == px) ==> AtPrice(list, px) == list
    ensures (forall i :: 0 <= i < |list| ==> list[i].price != px) ==> AtPrice(list, px) == []
  {
    if list != [] {
      AtPriceUniform(list[1..], px);
      assert forall i :: 0 <= i < |list[1..]| ==> list[1..][i] == list[i + 1];
    }
  }
}
