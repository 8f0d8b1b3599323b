/**
 The most naive price/time-priority book: one list of resting orders in order
 of arrival, searched from end to end for every fill. It is proved to agree
 with the priority-list book of MatchingSpec on every operation.
 */
module ArrivalBook {
  import opened MatchingSpec

  datatype Arrival = Arrival(side: Side, order: Entry)

  /** Index of the best-priced, earliest order of a side; -1 if there is none. */
  function Best(a: seq<Arrival>, side: Side): (k: int)
    ensures -1 <= k < |a|
    ensures k == -1 ==> forall j :: 0 <= j < |a| ==> a[j].side != side
    ensures k >= 0 ==> a[k].side == side
    ensures k >= 0 ==>
      forall j :: 0 <= j < |a| && a[j].side == side ==> !Better(side, a[j].order.price, a[k].order.price)
    ensures k >= 0 ==> forall j :: 0 <= j < k && a[j].side == side ==> Better(side, a[k].order.price, a[j].order.price)
  {
    if a == [] then -1 else
      var n := |a| - 1;
      var b := Best(a[..n], side);
      if a[n].side == side && (b == -1 || Better(side, a[n].order.price, a[b].order.price)) then n else b
  }

  function Drop(a: seq<Arrival>, k: nat): seq<Arrival>
    requires k < |a|
  {
    a[..k] + a[k + 1..]
  }

  function Shrink(a: seq<Arrival>, k: nat, less: nat): seq<Arrival>
    requires k < |a| && less <= a[k].order.qty
  {
    a[k := a[k].(order := a[k].order.(qty := a[k].order.qty - less))]
  }

  datatype Swept = Swept(fills: seq<Fill>, rest: seq<Arrival>, left: nat)

  /** Fill against the best opposite order as long as it crosses. */
  function Sweep(a: seq<Arrival>, taker: nat, side: Side, px: int, qty: nat): Swept
    decreases |a|
  {
    var k := Best(a, side.Opposite());
    if qty == 0 || k == -1 || !Crosses(side, px, a[k].order.price) then
      Swept([], a, qty)
    else
      var m := a[k].order;
      if qty < m.qty then
        Swept([Fill(m.id, taker, m.price, qty, side)], Shrink(a, k, qty), 0)
      else
        var r := Sweep(Drop(a, k), taker, side, px, qty - m.qty);
        Swept([Fill(m.id, taker, m.price, m.qty, side)] + r.fills, r.rest, r.left)
  }

  datatype Result = Result(book: seq<Arrival>, ok: bool, fills: seq<Fill>, gone: nat)

  function Submit(cfg: Config, a: seq<Arrival>, id: nat, side: Side, px: int, qty: nat): Result {
    var s := Sweep(a, id, side, px, qty);
    if s.left == 0 then
      Result(s.rest, true, s.fills, 0)
    else if cfg.InBand(px) && |s.rest| < cfg.capacity then
      Result(s.rest + [Arrival(side, Entry(id, px, s.left))], true, s.fills, 0)
    else
      Result(s.rest, false, s.fills, s.left)
  }

  /** Position of an id; -1 if it is not resting. */
  function Position(a: seq<Arrival>, id: nat): (k: int)
    ensures -1 <= k < |a|
    ensures k == -1 <==> forall j :: 0 <= j < |a| ==> a[j].order.id != id
    ensures k >= 0 ==> a[k].order.id == id
  {
    if a == [] then -1
    else if a[|a| - 1].order.id == id then |a| - 1
    else Position(a[..|a| - 1], id)
  }

  function Cancel(a: seq<Arrival>, id: nat): Result {
    var k := Position(a, id);
    if k == -1 then Result(a, false, [], 0) else Result(Drop(a, k), true, [], a[k].order.qty)
  }

  // ----- Relation to the priority-list book -----

  /** One side's orders sorted by price, equal prices in arrival order. */
  function Priority(a: seq<Arrival>, side: Side): seq<Entry> {
    if a == [] then [] else
      var n := |a| - 1;
      var p := Priority(a[..n], side);
      if a[n].side == side then Insert(side, p, a[n].order) else p
  }

  function Sorted(a: seq<Arrival>): Book {
    Book(Priority(a, Buy), Priority(a, Sell))
  }

  /** The best arrival is the head of the priority list. */
  lemma {:induction false} BestIsHead(a: seq<Arrival>, side: Side)
    ensures var k := Best(a, side);
      if k == -1 then Priority(a, side) == []
      else Priority(a, side) != [] && Priority(a, side)[0] == a[k].order
  {
    if a != [] {
      BestIsHead(a[..|a| - 1], side);
    }
  }

  lemma DropLast(a: seq<Arrival>, k: nat)
    requires k < |a| - 1
    ensures Drop(a, k)[..|a| - 2] == Drop(a[..|a| - 1], k)
    ensures Drop(a, k)[|a| - 2] == a[|a| - 1]
  {
  }

  /** Dropping the best arrival drops the head of its side, and nothing on the other side. */
  lemma {:induction false} DropBest(a: seq<Arrival>, side: Side, k: nat)
    requires k == Best(a, side)
    ensures Priority(a, side) != [] && Priority(Drop(a, k), side) == Priority(a, side)[1..]
  {
    var n := |a| - 1;
    BestIsHead(a[..n], side);
    BestIsHead(a, side);
    if k == n {
      assert Drop(a, k) == a[..n];
    } else {
      DropLast(a, k);
      DropBest(a[..n], side, k);
    }
  }

  lemma {:induction false} DropOther(a: seq<Arrival>, side: Side, k: nat)
    requires k < |a| && a[k].side != side
    ensures Priority(Drop(a, k), side) == Priority(a, side)
  {
    var n := |a| - 1;
    if k == n {
      assert Drop(a, k) == a[..n];
    } else {
      DropLast(a, k);
      DropOther(a[..n], side, k);
    }
  }

  lemma ShrinkLast(a: seq<Arrival>, k: nat, less: nat)
    requires k < |a| - 1 && less <= a[k].order.qty
    ensures Shrink(a, k, less)[..|a| - 1] == Shrink(a[..|a| - 1], k, less)
    ensures Shrink(a, k, less)[|a| - 1] == a[|a| - 1]
  {
  }

  lemma {:induction false} ShrinkBest(a: seq<Arrival>, side: Side, k: nat, less: nat)
    requires k == Best(a, side) && less <= a[k].order.qty
    ensures Priority(a, side) != []
    ensures var p := Priority(a, side);
      Priority(Shrink(a, k, less), side) == [p[0].(qty := a[k].order.qty - less)] + p[1..]
  {
    var n := |a| - 1;
    BestIsHead(a[..n], side);
    BestIsHead(a, side);
    if k == n {
      assert Shrink(a, k, less)[..n] == a[..n];
    } else {
      ShrinkLast(a, k, less);
      ShrinkBest(a[..n], side, k, less);
    }
  }

  lemma {:induction false} ShrinkOther(a: seq<Arrival>, side: Side, k: nat, less: nat)
    requires k < |a| && a[k].side != side && less <= a[k].order.qty
    ensures Priority(Shrink(a, k, less), side) == Priority(a, side)
  {
    var n := |a| - 1;
    if k == n {
      assert Shrink(a, k, less)[..n] == a[..n];
    } else {
      ShrinkLast(a, k, less);
      ShrinkOther(a[..n], side, k, less);
    }
  }

  lemma {:induction false} SizeAgrees(a: seq<Arrival>)
    ensures |Priority(a, Buy)| + |Priority(a, Sell)| == |a|
  {
    if a != [] {
      var n := |a| - 1;
      SizeAgrees(a[..n]);
      InsertContents(a[n].side, Priority(a[..n], a[n].side), a[n].order);
    }
  }

  /** The naive sweep and the priority-list match make the same fills and leave the same book. */
  lemma {:induction false} SweepAgrees(a: seq<Arrival>, taker: nat, side: Side, px: int, qty: nat)
    ensures var s := Sweep(a, taker, side, px, qty);
      var makers := side.Opposite();
      && Match(taker, side, px, qty, Priority(a, makers)) == Matched(s.fills, Priority(s.rest, makers), s.left)
      && Priority(s.rest, side) == Priority(a, side)
    decreases |a|
  {
    hide Priority;
    var makers := side.Opposite();
    var k := Best(a, makers);
    BestIsHead(a, makers);
    if qty > 0 && k >= 0 && Crosses(side, px, a[k].order.price) {
      if qty < a[k].order.qty {
        ShrinkBest(a, makers, k, qty);
        ShrinkOther(a, side, k, qty);
      } else {
        DropBest(a, makers, k);
        DropOther(a, side, k);
        SweepAgrees(Drop(a, k), taker, side, px, qty - a[k].order.qty);
      }
    }
  }

  /** Submitting to the naive book and to the priority-list book is the same thing. */
  lemma SubmitAgrees(cfg: Config, a: seq<Arrival>, id: nat, side: Side, px: int, qty: nat)
    ensures var r := Submit(cfg, a, id, side, px, qty);
      MatchingSpec.Submit(cfg, Sorted(a), id, side, px, qty) == Outcome(Sorted(r.book), r.ok, r.fills, r.gone)
  {
    hide Sweep, Match, Insert;
    SweepAgrees(a, id, side, px, qty);
    var s := Sweep(a, id, side, px, qty);
    SizeAgrees(s.rest);
    var x := Arrival(side, Entry(id, px, s.left));
    assert (s.rest + [x])[..|s.rest|] == s.rest;
  }

  // ----- Cancelling -----

  ghost predicate Distinct(a: seq<Arrival>) {
    forall i, j :: 0 <= i < j < |a| ==> a[i].order.id != a[j].order.id
  }

  lemma {:induction false} PrioritySorted(a: seq<Arrival>, side: Side)
    ensures SortedBy(side, Priority(a, side))
    ensures forall e :: e in Priority(a, side) <==> Arrival(side, e) in a
  {
    if a != [] {
      var n := |a| - 1;
      var p := Priority(a[..n], side);
      PrioritySorted(a[..n], side);
      assert a == a[..n] + [a[n]];
      if a[n].side == side {
        InsertAt(side, p, a[n].order);
        InsertSorted(side, p, a[n].order);
        InsertContents(side, p, a[n].order);
      }
    }
  }

  lemma InsertSorted(side: Side, p: seq<Entry>, e: Entry)
    requires SortedBy(side, p)
    ensures SortedBy(side, Insert(side, p, e))
  {
    var k := Ahead(side, p, e.price);
    InsertAt(side, p, e);
  }

  lemma {:induction false} RemoveInserted(side: Side, p: seq<Entry>, e: Entry)
    requires !Has(p, e.id)
    ensures Remove(Insert(side, p, e), e.id) == p
  {
    if p == [] || Better(side, e.price, p[0].price) {
      assert ([e] + p)[1..] == p;
    } else {
      assert forall k :: 0 <= k < |p[1..]| ==> p[1..][k] == p[k + 1];
      RemoveInserted(side, p[1..], e);
    }
  }

  /** Removing one order and queueing another commute. */
  lemma {:induction false} RemoveCommutes(side: Side, p: seq<Entry>, e: Entry, id: nat)
    requires SortedBy(side, p) && e.id != id && Has(p, id)
    ensures Remove(Insert(side, p, e), id) == Insert(side, Remove(p, id), e)
  {
    var i := Insert(side, p, e);
    if Better(side, e.price, p[0].price) {
      assert i[1..] == p;
      if p[0].id == id {
        assert |p| > 1 ==> !Better(side, p[1].price, p[0].price);
      }
    } else {
      assert i[1..] == Insert(side, p[1..], e);
      if p[0].id != id {
        var k :| 0 <= k < |p| && p[k].id == id;
        assert p[1..][k - 1].id == id;
        RemoveCommutes(side, p[1..], e, id);
      }
    }
  }

  lemma {:induction false} DropIsRemove(a: seq<Arrival>, k: nat)
    requires k < |a| && Distinct(a)
    ensures var side, id := a[k].side, a[k].order.id;
      && Has(Priority(a, side), id)
      && Priority(Drop(a, k), side) == Remove(Priority(a, side), id)
  {
    hide SortedBy, Insert, Remove;
    var n := |a| - 1;
    var side, id := a[k].side, a[k].order.id;
    var p := Priority(a[..n], side);
    PrioritySorted(a, side);
    PrioritySorted(a[..n], side);
    assert Arrival(side, a[k].order) in a;
    if k == n {
      assert Drop(a, k) == a[..n];
      assert !Has(p, id) by {
        forall j | 0 <= j < |p|
          ensures p[j].id != id
        {
          assert Arrival(side, p[j]) in a[..n];
        }
      }
      RemoveInserted(side, p, a[n].order);
    } else {
      DropLast(a, k);
      DropIsRemove(a[..n], k);
      if a[n].side == side {
        RemoveCommutes(side, p, a[n].order, id);
      }
    }
  }

  /** Cancelling in the naive book and in the priority-list book is the same thing. */
  lemma CancelAgrees(a: seq<Arrival>, id: nat)
    requires Distinct(a)
    ensures var r := Cancel(a, id);
      MatchingSpec.Cancel(Sorted(a), id) == Outcome(Sorted(r.book), r.ok, r.fills, r.gone)
  {
    var k := Position(a, id);
    PrioritySorted(a, Buy);
    PrioritySorted(a, Sell);
    if k == -1 {
      AbsentFrom(a, Buy, id);
      AbsentFrom(a, Sell, id);
    } else {
      var side := a[k].side;
      DropIsRemove(a, k);
      DropOther(a, side.Opposite(), k);
      OnlyHere(a, k);
    }
  }

  lemma AbsentFrom(a: seq<Arrival>, side: Side, id: nat)
    requires forall j :: 0 <= j < |a| ==> a[j].order.id != id
    ensures !Has(Priority(a, side), id)
  {
    PrioritySorted(a, side);
    var p := Priority(a, side);
    forall j | 0 <= j < |p|
      ensures p[j].id != id
    {
      var x := Arrival(side, p[j]);
      assert x in a;
    }
  }

  /** With distinct ids, an id is found on its own side only, carrying its own order. */
  lemma OnlyHere(a: seq<Arrival>, k: nat)
    requires Distinct(a) && k < |a|
    ensures !Has(Priority(a, a[k].side.Opposite()), a[k].order.id)
    ensures Has(Priority(a, a[k].side), a[k].order.id) ==>
      var p := Priority(a, a[k].side); p[Find(p, a[k].order.id)] == a[k].order
  {
    hide Priority;
    var side, id := a[k].side, a[k].order.id;
    PrioritySorted(a, side);
    PrioritySorted(a, side.Opposite());
    var o := Priority(a, side.Opposite());
    forall j | 0 <= j < |o|
      ensures o[j].id != id
    {
      assert Arrival(side.Opposite(), o[j]) in a;
    }
    var p := Priority(a, side);
    if Has(p, id) {
      assert Arrival(side, p[Find(p, id)]) in a;
    }
  }

  ghost predicate Absent(a: seq<Arrival>, id: nat) {
    forall j :: 0 <= j < |a| ==> a[j].order.id != id
  }

  lemma FreshIsAbsent(a: seq<Arrival>, id: nat)
    requires !Resting(Sorted(a), id)
    ensures Absent(a, id)
  {
    forall j | 0 <= j < |a|
      ensures a[j].order.id != id
    {
      var p := Priority(a, a[j].side);
      PrioritySorted(a, a[j].side);
      assert a[j] == Arrival(a[j].side, a[j].order);
      var k :| 0 <= k < |p| && p[k] == a[j].order;
    }
  }

  /** Sweeping keeps ids distinct and does not bring in the taker's own id. */
  lemma {:induction false} SweepDistinct(a: seq<Arrival>, taker: nat, side: Side, px: int, qty: nat)
    requires Distinct(a) && Absent(a, taker)
    ensures var rest := Sweep(a, taker, side, px, qty).rest;
      Distinct(rest) && Absent(rest, taker)
    decreases |a|
  {
    var k := Best(a, side.Opposite());
    if qty > 0 && k >= 0 && Crosses(side, px, a[k].order.price) && qty >= a[k].order.qty {
      SweepDistinct(Drop(a, k), taker, side, px, qty - a[k].order.qty);
    }
  }
}
