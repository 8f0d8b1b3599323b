/** What holds in every reachable state of the episode machine. */
module SimFacts {
  import opened MatchingSpec
  import opened SimSpec
  import opened Rounding

  // ----- Invariant -----

  function Ids(list: seq<Entry>): set<nat> {
    set i | 0 <= i < |list| :: list[i].id
  }

  /** The ids resting in the book. */
  function RestingIds(b: Book): set<nat> {
    Ids(b.bids) + Ids(b.asks)
  }

  /** Background orders not yet expired by the churn queue. */
  function Churning(e: Env): set<nat>
    requires e.bgHead <= |e.bgIds|
  {
    set i | e.bgHead <= i < |e.bgIds| :: e.bgIds[i]
  }

  ghost predicate BidsBelow(s: Setup, b: Book) {
    forall i :: 0 <= i < |b.bids| ==> b.bids[i].price <= s.mid - 1
  }

  /** Births are ordered, at most BURST per step, and belong to steps already begun. */
  ghost predicate Births(birth: seq<nat>, now: int) {
    && (forall i, j :: 0 <= i < j < |birth| ==> birth[i] <= birth[j])
    && (forall i, j :: 0 <= i && i + BURST <= j < |birth| ==> birth[i] < birth[j])
    && (forall i :: 0 <= i < |birth| ==> birth[i] <= now)
  }

  /** All but at most extra resting orders are still in the churn queue. */
  ghost predicate Strays(e: Env, extra: nat)
    requires e.bgHead <= |e.bgIds|
  {
    exists x: set<nat> :: |x| <= extra && RestingIds(e.book) <= Churning(e) + x
  }

  /** The invariant that every phase of a step keeps; extra bounds the resting orders that are not background. */
  ghost predicate Core(s: Setup, e: Env, extra: nat) {
    && s.parentQty > 0 && s.horizon > 0
    && WellFormed(BOOK_CFG, e.book) && BidsBelow(s, e.book)
    && (forall id :: id in RestingIds(e.book) ==> id < e.nextId && id in e.restingIds)
    && |e.bgIds| == |e.bgBirth| && e.bgHead <= |e.bgIds|
    && Strays(e, extra)
    && e.remaining + e.qtyFilled == s.parentQty
  }

  /** Background orders still queued for expiry were born in the last LIFETIME steps. */
  ghost predicate Window(e: Env) {
    forall i :: e.bgHead <= i < |e.bgBirth| ==> e.bgBirth[i] < e.stepIdx <= e.bgBirth[i] + LIFETIME
  }

  /** Background orders that left the churn queue rest no more, and their ids are not reused. */
  ghost predicate Gone(e: Env) {
    && (forall i :: 0 <= i < |e.bgIds| ==> e.bgIds[i] < e.nextId)
    && (forall i :: 0 <= i < e.bgHead && i < |e.bgIds| ==> e.bgIds[i] !in RestingIds(e.book))
  }

  /** The state between two calls. */
  ghost predicate EnvInv(s: Setup, e: Env) {
    && Core(s, e, e.stepIdx) && Gone(e)
    && Births(e.bgBirth, e.stepIdx - 1) && Window(e)
    && (e.done <==> e.remaining == 0 || e.stepIdx >= s.horizon)
    && e.stepIdx <= s.horizon
  }

  // ----- Ids through book operations -----

  lemma IdsHas(list: seq<Entry>, id: nat)
    ensures id in Ids(list) <==> Has(list, id)
  {
  }

  lemma CancelIds(b: Book, id: nat)
    requires WellFormed(BOOK_CFG, b)
    ensures RestingIds(Cancel(b, id).book) == RestingIds(b) - {id}
  {
    if Has(b.bids, id) {
      RemoveIds(b.bids, id);
      IdsHas(b.asks, id);
      var k := Find(b.bids, id);
      assert !Has(b.asks, id);
    } else if Has(b.asks, id) {
      RemoveIds(b.asks, id);
      IdsHas(b.bids, id);
    } else {
      IdsHas(b.bids, id);
      IdsHas(b.asks, id);
    }
  }

  lemma RemoveIds(list: seq<Entry>, id: nat)
    requires Unique(list) && Has(list, id)
    ensures Ids(Remove(list, id)) == Ids(list) - {id}
  {
    var k := Find(list, id);
    RemoveAt(list, id, k);
    hide Remove, Has;
    CutIds(list, k);
  }

  lemma CutIds(list: seq<Entry>, k: nat)
    requires Unique(list) && k < |list|
    ensures Ids(list[..k] + list[k + 1..]) == Ids(list) - {list[k].id}
  {
    var l, id := list[..k] + list[k + 1..], list[k].id;
    forall x
      ensures x in Ids(l) <==> x in Ids(list) && x != id
    {
      if i :| 0 <= i < |l| && l[i].id == x {
        assert l[i] == list[if i < k then i else i + 1];
      }
      if i :| 0 <= i < |list| && list[i].id == x && x != id {
        assert list[i] == l[if i < k then i else i - 1];
      }
    }
  }

  lemma CancelBids(s: Setup, b: Book, id: nat)
    requires BidsBelow(s, b)
    ensures BidsBelow(s, Cancel(b, id).book)
  {
    if Has(b.bids, id) {
      RemoveContents(b.bids, id);
    }
  }

  /** A submission can only add its own id, and only by resting a residual. */
  lemma SubmitIds(b: Book, id: nat, side: Side, px: int, qty: nat)
    requires WellFormed(BOOK_CFG, b)
    ensures var o := Submit(BOOK_CFG, b, id, side, px, qty);
      && RestingIds(o.book) <= RestingIds(b) + {id}
      && (!(o.ok && Filled(o.fills) < qty) ==> RestingIds(o.book) <= RestingIds(b))
  {
    var makers := b.Of(side.Opposite());
    var m := Match(id, side, px, qty, makers);
    MatchConserves(id, side, px, qty, makers);
    var k := MatchTakesPrefix(id, side, px, qty, makers);
    SuffixIds(m.makers, makers, k);
    InsertIds(side, b.Of(side), Entry(id, px, m.left));
  }

  lemma SuffixIds(rest: seq<Entry>, list: seq<Entry>, k: nat)
    requires SuffixOf(rest, list, k)
    ensures Ids(rest) <= Ids(list)
  {
    forall i | 0 <= i < |rest|
      ensures rest[i].id in Ids(list)
    {
      assert rest[i].id == list[k + i].id;
    }
  }

  lemma InsertIds(side: Side, list: seq<Entry>, e: Entry)
    ensures Ids(Insert(side, list, e)) <= Ids(list) + {e.id}
  {
    InsertContents(side, list, e);
  }

  /** Buys below the mid and sells anywhere keep every bid below the mid. */
  lemma SubmitBids(s: Setup, b: Book, id: nat, side: Side, px: int, qty: nat)
    requires WellFormed(BOOK_CFG, b) && BidsBelow(s, b)
    requires side.Buy? ==> px <= s.mid - 1
    ensures BidsBelow(s, Submit(BOOK_CFG, b, id, side, px, qty).book)
  {
    hide Match, Insert, SortedBy, Unique, Apart, Uncrossed;
    var makers := b.Of(side.Opposite());
    var m := Match(id, side, px, qty, makers);
    var k := MatchTakesPrefix(id, side, px, qty, makers);
    if side.Buy? {
      InsertContents(Buy, b.bids, Entry(id, px, m.left));
    } else {
      assert forall i :: 0 <= i < |m.makers| ==> m.makers[i].price == makers[k + i].price;
    }
  }

  // ----- Each phase keeps the invariant -----

  lemma SmallerSet(a: set<nat>, b: set<nat>)
    requires a <= b
    ensures |a| <= |b|
  {
    assert b == a + (b - a);
  }

  lemma ExpireOneKeeps(s: Setup, e: Env, extra: nat)
    requires Core(s, e, extra) && e.bgHead < |e.bgIds|
    ensures Core(s, ExpireOne(e), extra)
  {
    hide WellFormed, BidsBelow, Cancel, RestingIds;
    var e' := ExpireOne(e);
    var id := e.bgIds[e.bgHead];
    CancelKeeps(BOOK_CFG, e.book, id);
    CancelIds(e.book, id);
    CancelBids(s, e.book, id);
    assert Churning(e) <= Churning(e') + {id};
    var x: set<nat> :| |x| <= extra && RestingIds(e.book) <= Churning(e) + x;
    assert RestingIds(e'.book) <= Churning(e') + x;
  }

  /** Expiry leaves exactly the background orders of the last two steps, and the clock alone. */
  lemma {:induction false} ExpireKeeps(s: Setup, e: Env, extra: nat)
    requires Core(s, e, extra)
    ensures var e' := Expire(e);
      && Core(s, e', extra)
      && e' == e.(book := e'.book, bgHead := e'.bgHead)
      && (e'.bgHead < |e'.bgBirth| ==> e'.stepIdx < e'.bgBirth[e'.bgHead] + LIFETIME)
      && e.bgHead <= e'.bgHead
    decreases |e.bgIds| - e.bgHead
  {
    hide Core;
    CoreShape(s, e, extra);
    if Expired(e) {
      ExpireOneKeeps(s, e, extra);
      ExpireKeeps(s, ExpireOne(e), extra);
    }
  }

  lemma CoreShape(s: Setup, e: Env, extra: nat)
    requires Core(s, e, extra)
    ensures |e.bgIds| == |e.bgBirth| && e.bgHead <= |e.bgIds| && s.parentQty > 0 && s.horizon > 0
    ensures WellFormed(BOOK_CFG, e.book) && BidsBelow(s, e.book) && e.remaining + e.qtyFilled == s.parentQty
  {
  }

  lemma EvictKeeps(s: Setup, e: Env, extra: nat)
    requires Core(s, e, extra)
    ensures Core(s, Evict(e), extra)
  {
    hide WellFormed, BidsBelow, Cancel, RestingIds;
    if Crowded(e) && e.restingIds != [] {
      var n := |e.restingIds| - 1;
      var id := e.restingIds[n];
      var e' := Evict(e);
      CancelKeeps(BOOK_CFG, e.book, id);
      CancelIds(e.book, id);
      CancelBids(s, e.book, id);
      assert Churning(e') == Churning(e);
      hide Churning;
      var strays: set<nat> :| |strays| <= extra && RestingIds(e.book) <= Churning(e) + strays;
      assert RestingIds(e'.book) <= Churning(e') + strays;
      forall x | x in RestingIds(e'.book)
        ensures x in e'.restingIds
      {
        var k :| 0 <= k < |e.restingIds| && e.restingIds[k] == x;
        assert e'.restingIds[k] == x;
      }
    }
  }

  lemma FreshId(s: Setup, e: Env, extra: nat, id: nat)
    requires Core(s, e, extra) && id >= e.nextId
    ensures !Resting(e.book, id)
  {
    IdsHas(e.book.bids, id);
    IdsHas(e.book.asks, id);
  }

  lemma ChurningGrows(e: Env, e': Env, id: nat)
    requires e'.bgHead == e.bgHead && (e'.bgIds == e.bgIds || e'.bgIds == e.bgIds + [id])
    requires e.bgHead <= |e.bgIds|
    ensures Churning(e) <= Churning(e')
    ensures e'.bgIds == e.bgIds + [id] ==> id in Churning(e')
  {
    forall i | e.bgHead <= i < |e.bgIds|
      ensures e.bgIds[i] in Churning(e')
    {
      assert e'.bgIds[i] == e.bgIds[i];
    }
    if e'.bgIds == e.bgIds + [id] {
      assert e'.bgIds[|e.bgIds|] == id;
    }
  }

  /** One order more outside the churn queue, and none if the new one joins the queue. */
  lemma StraysGrow(e: Env, e': Env, id: nat, extra: nat)
    requires e'.bgHead == e.bgHead <= |e.bgIds| && (e'.bgIds == e.bgIds || e'.bgIds == e.bgIds + [id])
    requires Strays(e, extra) && RestingIds(e'.book) <= RestingIds(e.book) + {id}
    ensures Strays(e', extra + 1)
    ensures (e'.bgIds == e.bgIds + [id] || RestingIds(e'.book) <= RestingIds(e.book)) ==> Strays(e', extra)
  {
    hide RestingIds;
    ChurningGrows(e, e', id);
    hide Churning;
    var was, now, r, r' := Churning(e), Churning(e'), RestingIds(e.book), RestingIds(e'.book);
    var x: set<nat> :| |x| <= extra && r <= was + x;
    OneMoreStray(r, was, x, r', now, id);
    assert r' <= now + (x + {id}) && |x + {id}| <= extra + 1;
    if id in now || r' <= r {
      assert r' <= now + x;
    }
  }

  lemma OneMoreStray(r: set<nat>, was: set<nat>, x: set<nat>, r': set<nat>, now: set<nat>, id: nat)
    requires r <= was + x && r' <= r + {id} && was <= now
    ensures r' <= now + (x + {id})
    ensures id in now || r' <= r ==> r' <= now + x
  {
  }

  /** Submitting a fresh order and tracking it, in the churn queue or, as the child, beside it. */
  lemma TrackKeeps(s: Setup, e: Env, extra: nat, id: nat, side: Side, px: int, qty: nat, e': Env)
    requires Core(s, e, extra) && !Resting(e.book, id) && id < e'.nextId && e.nextId <= e'.nextId
    requires side.Buy? ==> px <= s.mid - 1
    requires var o := Submit(BOOK_CFG, e.book, id, side, px, qty);
      && e'.book == o.book && e'.remaining + e'.qtyFilled == s.parentQty
      && e'.bgHead == e.bgHead && |e'.bgIds| == |e'.bgBirth|
      && (e'.bgIds == e.bgIds || e'.bgIds == e.bgIds + [id])
      && (e'.restingIds == e.restingIds || e'.restingIds == e.restingIds + [id])
      && (o.ok && Filled(o.fills) < qty ==> e'.restingIds == e.restingIds + [id])
    ensures Core(s, e', extra + 1)
    ensures (e'.bgIds == e.bgIds + [id] || RestingIds(e'.book) <= RestingIds(e.book)) ==> Core(s, e', extra)
  {
    hide WellFormed, BidsBelow, Submit, RestingIds, Resting;
    SubmitKeeps(BOOK_CFG, e.book, id, side, px, qty);
    SubmitIds(e.book, id, side, px, qty);
    SubmitBids(s, e.book, id, side, px, qty);
    StraysGrow(e, e', id, extra);
    hide Strays;
  }

  lemma FlowOneKeeps(s: Setup, e: Env, extra: nat)
    requires Core(s, e, extra)
    ensures Core(s, FlowOne(s, e), extra)
  {
    hide Core, Submit, Evict, Resting, WellFormed, RestingIds, SubmitFlow;
    var x1 := s.draw(e.rng);
    var x2 := s.draw(x1);
    var x3 := s.draw(x2);
    var side := DrawSide(x1);
    DrawnKeeps(s, e, extra, x3);
    var drawn := e.(rng := x3, nextId := e.nextId + 1);
    EvictKeeps(s, drawn, extra);
    EvictedIdFresh(s, e, extra, x3);
    SubmitFlowKeeps(s, Evict(drawn), extra, e.nextId, side, FlowPrice(s, side, x2 % 5), 10 + x3 % 40);
  }

  lemma SubmitFlowKeeps(s: Setup, e: Env, extra: nat, id: nat, side: Side, px: int, qty: nat)
    requires Core(s, e, extra) && !Resting(e.book, id) && id < e.nextId
    requires side.Buy? ==> px <= s.mid - 1
    ensures Core(s, SubmitFlow(e, id, side, px, qty), extra)
  {
    CoreShape(s, e, extra);
    SubmitIds(e.book, id, side, px, qty);
    hide Core, Submit, Resting, WellFormed, RestingIds;
    TrackKeeps(s, e, extra, id, side, px, qty, SubmitFlow(e, id, side, px, qty));
  }

  lemma DrawnKeeps(s: Setup, e: Env, extra: nat, rng: nat)
    requires Core(s, e, extra)
    ensures Core(s, e.(rng := rng, nextId := e.nextId + 1), extra)
  {
    hide WellFormed, BidsBelow;
  }

  /** The id about to be used is not resting, before and after an eviction. */
  lemma EvictedIdFresh(s: Setup, e: Env, extra: nat, rng: nat)
    requires Core(s, e, extra)
    ensures var e' := Evict(e.(rng := rng, nextId := e.nextId + 1));
      !Resting(e'.book, e.nextId) && e'.nextId == e.nextId + 1
  {
    var id := e.nextId;
    var drawn := e.(rng := rng, nextId := id + 1);
    IdsHas(e.book.bids, id);
    IdsHas(e.book.asks, id);
    if Crowded(drawn) && drawn.restingIds != [] {
      CancelIds(e.book, e.restingIds[|e.restingIds| - 1]);
      var b := Evict(drawn).book;
      IdsHas(b.bids, id);
      IdsHas(b.asks, id);
    }
  }

  /** The churn queue while n background orders have been sent in the current step. */
  ghost predicate Flowing(e0: Env, e: Env, n: nat) {
    && e.bgHead == e0.bgHead && e.stepIdx == e0.stepIdx && e.remaining == e0.remaining && e.qtyFilled == e0.qtyFilled
    && e.cash == e0.cash && e.done == e0.done
    && |e.bgBirth| <= |e0.bgBirth| + n
    && e0.bgBirth <= e.bgBirth
    && forall i :: |e0.bgBirth| <= i < |e.bgBirth| ==> e.bgBirth[i] == e.stepIdx
  }

  lemma {:induction false} FlowKeeps(s: Setup, e: Env, extra: nat, n: nat)
    requires Core(s, e, extra)
    ensures Core(s, Flow(s, e, n), extra) && Flowing(e, Flow(s, e, n), n)
  {
    hide Core, FlowOne;
    if n > 0 {
      FlowKeeps(s, e, extra, n - 1);
      FlowOneKeeps(s, Flow(s, e, n - 1), extra);
      FlowOneShape(s, Flow(s, e, n - 1));
    }
  }

  lemma FlowOneShape(s: Setup, e: Env)
    ensures var e' := FlowOne(s, e);
      && e' == e.(book := e'.book, rng := e'.rng, nextId := e.nextId + 1,
                  restingIds := e'.restingIds, bgIds := e'.bgIds, bgBirth := e'.bgBirth)
      && (e'.bgBirth == e.bgBirth || e'.bgBirth == e.bgBirth + [e.stepIdx])
  {
    hide Submit;
  }

  /** At most two dozen older background orders are still queued when a step begins its flow. */
  lemma OldWindow(birth: seq<nat>, head: nat, now: nat)
    requires Births(birth, now - 1) && head <= |birth|
    requires head < |birth| ==> now < birth[head] + LIFETIME
    ensures |birth| - head <= 2 * BURST
  {
    if |birth| - head > 2 * BURST {
      BirthGap(birth, head, now - 1);
      BirthGap(birth, head + BURST, now - 1);
    }
  }

  lemma BirthGap(birth: seq<nat>, i: nat, now: int)
    requires Births(birth, now) && i + BURST < |birth|
    ensures birth[i] < birth[i + BURST] <= now
  {
  }

  /** Births stay ordered and at most BURST per step when a step appends its own. */
  lemma BirthsAppend(old1: seq<nat>, birth: seq<nat>, now: nat)
    requires Births(old1, now - 1) && old1 <= birth && |birth| <= |old1| + BURST
    requires forall i :: |old1| <= i < |birth| ==> birth[i] == now
    ensures Births(birth, now)
  {
    assert forall i :: 0 <= i < |old1| ==> birth[i] == old1[i];
    forall i | 0 <= i < |birth| - BURST
      ensures birth[i] < birth[i + BURST]
    {
      if i + BURST < |old1| {
        assert old1[i] < old1[i + BURST];
      }
    }
  }

  // ----- Counting -----

  lemma {:induction false} IdsCount(list: seq<Entry>)
    requires Unique(list)
    ensures |Ids(list)| == |list|
  {
    if list != [] {
      var n := |list| - 1;
      IdsCount(list[..n]);
      assert Ids(list) == Ids(list[..n]) + {list[n].id};
    }
  }

  lemma {:induction false} ChurningCount(ids: seq<nat>, head: nat)
    requires head <= |ids|
    ensures |set i | head <= i < |ids| :: ids[i]| <= |ids| - head
    decreases |ids| - head
  {
    if head < |ids| {
      ChurningCount(ids, head + 1);
      assert (set i | head <= i < |ids| :: ids[i]) == {ids[head]} + set i | head + 1 <= i < |ids| :: ids[i];
    }
  }

  /** The book holds at most the queued background orders and the extra ones. */
  lemma BookBound(s: Setup, e: Env, extra: nat)
    requires Core(s, e, extra)
    ensures |e.book.bids| + |e.book.asks| <= |e.bgIds| - e.bgHead + extra
  {
    IdsCount(e.book.bids);
    IdsCount(e.book.asks);
    var a, b := Ids(e.book.bids), Ids(e.book.asks);
    assert a !! b;
    ChurningCount(e.bgIds, e.bgHead);
    var r, c := RestingIds(e.book), Churning(e);
    var x: set<nat> :| |x| <= extra && r <= c + x;
    SmallerSet(r, c + x);
  }

  // ----- Expired orders are gone -----

  /** Using up one new id, for a background order or for the child. */
  lemma GoneFrame(e: Env, e': Env)
    requires Gone(e) && e'.bgHead == e.bgHead <= |e.bgIds| && e'.nextId == e.nextId + 1
    requires e'.bgIds == e.bgIds || e'.bgIds == e.bgIds + [e.nextId]
    requires RestingIds(e'.book) <= RestingIds(e.book) + {e.nextId}
    ensures Gone(e')
  {
    hide RestingIds;
    forall i | 0 <= i < e'.bgHead
      ensures e'.bgIds[i] !in RestingIds(e'.book)
    {
      assert e'.bgIds[i] == e.bgIds[i];
    }
  }

  lemma {:induction false} ExpireGone(s: Setup, e: Env, extra: nat)
    requires Core(s, e, extra) && Gone(e)
    ensures Gone(Expire(e))
    decreases |e.bgIds| - e.bgHead
  {
    hide Core, RestingIds, Cancel;
    CoreShape(s, e, extra);
    if Expired(e) {
      ExpireOneKeeps(s, e, extra);
      CancelIds(e.book, e.bgIds[e.bgHead]);
      ExpireGone(s, ExpireOne(e), extra);
    }
  }

  lemma FlowOneGone(s: Setup, e: Env, extra: nat)
    requires Core(s, e, extra) && Gone(e)
    ensures Gone(FlowOne(s, e))
  {
    hide Core, RestingIds, Cancel, Submit, WellFormed, Gone, Crowded;
    CoreShape(s, e, extra);
    var x1 := s.draw(e.rng);
    var x2 := s.draw(x1);
    var x3 := s.draw(x2);
    var drawn := e.(rng := x3, nextId := e.nextId + 1);
    DrawnKeeps(s, e, extra, x3);
    EvictKeeps(s, drawn, extra);
    CoreShape(s, Evict(drawn), extra);
    if e.restingIds != [] {
      CancelIds(e.book, e.restingIds[|e.restingIds| - 1]);
    }
    SubmitIds(Evict(drawn).book, e.nextId, DrawSide(x1), FlowPrice(s, DrawSide(x1), x2 % 5), 10 + x3 % 40);
    GoneFrame(e, FlowOne(s, e));
  }

  lemma {:induction false} FlowGone(s: Setup, e: Env, extra: nat, n: nat)
    requires Core(s, e, extra) && Gone(e)
    ensures Gone(Flow(s, e, n))
  {
    hide Core, Gone, FlowOne;
    if n > 0 {
      FlowGone(s, e, extra, n - 1);
      FlowKeeps(s, e, extra, n - 1);
      FlowOneGone(s, Flow(s, e, n - 1), extra);
    }
  }

  lemma ChildGone(s: Setup, e: Env, extra: nat, qty: nat, aggression: real)
    requires Core(s, e, extra) && Gone(e)
    ensures Gone(Child(s, e, qty, aggression).env)
  {
    hide Core, RestingIds, Submit, WellFormed;
    CoreShape(s, e, extra);
    if qty > 0 {
      SubmitIds(e.book, e.nextId, Sell, ChildPx(s, e, aggression), qty);
      hide Gone;
      GoneFrame(e, Child(s, e, qty, aggression).env);
    }
  }

  // ----- One whole step -----

  /** The state the child meets, in a step that is not over. */
  lemma RefreshedKeeps(s: Setup, e: Env, n: nat)
    requires EnvInv(s, e) && !e.done && n <= BURST
    ensures var e' := Flow(s, Expire(e), n);
      && Core(s, e', e.stepIdx) && Births(e'.bgBirth, e.stepIdx)
      && e'.stepIdx == e.stepIdx && e'.remaining == e.remaining && e'.qtyFilled == e.qtyFilled && !e'.done
      && |e'.bgBirth| - e'.bgHead <= 2 * BURST + n
      && (forall i :: e'.bgHead <= i < |e'.bgBirth| ==> e.stepIdx < e'.bgBirth[i] + LIFETIME)
  {
    hide Core, Expire, Flow, Gone;
    CoreShape(s, e, e.stepIdx);
    var x := Expire(e);
    ExpireKeeps(s, e, e.stepIdx);
    CoreShape(s, x, e.stepIdx);
    OldWindow(e.bgBirth, x.bgHead, e.stepIdx);
    FlowKeeps(s, x, e.stepIdx, n);
    var e' := Flow(s, x, n);
    CoreShape(s, e', e.stepIdx);
    BirthsAppend(e.bgBirth, e'.bgBirth, e.stepIdx);
    forall i | e'.bgHead <= i < |e'.bgBirth|
      ensures e.stepIdx < e'.bgBirth[i] + LIFETIME
    {
      if i < |e.bgBirth| {
        assert e'.bgBirth[i] == e.bgBirth[i] >= e.bgBirth[x.bgHead];
      }
    }
  }

  /** The child never asks for more than what is left. */
  lemma ChildQtyBound(s: Setup, e: Env, size: real)
    requires 0.0 <= size <= 1.0
    ensures ChildQty(s, e, size) <= e.remaining
  {
    PartAtMost(size, e.remaining as real);
  }

  /** What a step leaves: the next id, at most one more order, and the quantities accounted for. */
  lemma ChildKeeps(s: Setup, e: Env, qty: nat, aggression: real)
    requires Core(s, e, e.stepIdx) && qty <= e.remaining
    ensures var r := Child(s, e, qty, aggression);
      && Core(s, r.env, r.env.stepIdx)
      && r.env.bgIds == e.bgIds && r.env.bgBirth == e.bgBirth && r.env.bgHead == e.bgHead
      && r.env.stepIdx == e.stepIdx + 1
      && (r.env.done <==> e.done || r.env.remaining == 0 || r.env.stepIdx >= s.horizon)
  {
    CoreShape(s, e, e.stepIdx);
    var t := e.stepIdx;
    if qty == 0 {
      IdleKeeps(s, e, aggression);
    } else {
      hide Core, Submit, Resting, WellFormed, RestingIds, BidsBelow;
      var id, px := e.nextId, ChildPx(s, e, aggression);
      FreshId(s, e, t, id);
      SubmitFilledBound(e.book, id, Sell, px, qty);
      TrackKeeps(s, e, t, id, Sell, px, qty, Child(s, e, qty, aggression).env);
    }
  }

  lemma SubmitFilledBound(b: Book, id: nat, side: Side, px: int, qty: nat)
    ensures Filled(Submit(BOOK_CFG, b, id, side, px, qty).fills) <= qty
  {
    MatchConserves(id, side, px, qty, b.Of(side.Opposite()));
  }

  lemma IdleKeeps(s: Setup, e: Env, aggression: real)
    requires Core(s, e, e.stepIdx)
    ensures Core(s, Child(s, e, 0, aggression).env, e.stepIdx + 1)
  {
    hide WellFormed, BidsBelow, RestingIds;
  }

  /** Every step keeps the invariant, whatever the action. */
  lemma StepKeeps(s: Setup, e: Env, size: real, aggression: real)
    requires EnvInv(s, e)
    ensures EnvInv(s, Step(s, e, size, aggression).env)
  {
    hide Core, Refreshed, Child, Births, ChildQty, Gone;
    CoreShape(s, e, e.stepIdx);
    if !e.done {
      RefreshedReady(s, e);
      var e' := Refreshed(s, e);
      ChildQtyBound(s, e', Clamp01(size));
      ChildKeeps(s, e', ChildQty(s, e', Clamp01(size)), Clamp01(aggression));
      ChildGone(s, e', e.stepIdx, ChildQty(s, e', Clamp01(size)), Clamp01(aggression));
    }
  }

  lemma RefreshedReady(s: Setup, e: Env)
    requires EnvInv(s, e) && !e.done
    ensures |e.bgIds| == |e.bgBirth|
    ensures var e' := Refreshed(s, e);
      && Core(s, e', e.stepIdx) && Gone(e') && Births(e'.bgBirth, e.stepIdx)
      && e'.stepIdx == e.stepIdx && e'.remaining == e.remaining && !e'.done
      && (forall i :: e'.bgHead <= i < |e'.bgBirth| ==>
        e.stepIdx < e'.bgBirth[i] + LIFETIME && e'.bgBirth[i] <= e.stepIdx)
  {
    hide Core, Gone;
    CoreShape(s, e, e.stepIdx);
    RefreshedKeeps(s, e, BURST);
    ExpireGone(s, e, e.stepIdx);
    ExpireKeeps(s, e, e.stepIdx);
    FlowGone(s, Expire(e), e.stepIdx, BURST);
  }

  lemma InitialInv(s: Setup, seed: nat)
    requires s.parentQty > 0 && s.horizon > 0
    ensures EnvInv(s, Initial(s, seed))
  {
    var none: set<nat> := {};
    assert RestingIds(EMPTY) <= Churning(Initial(s, seed)) + none;
  }

  // ----- Bounded liquidity -----

  /** The background orders that rest, in or out of the churn queue. */
  function LiveFlow(e: Env): set<nat> {
    set i | 0 <= i < |e.bgIds| && e.bgIds[i] in RestingIds(e.book) :: e.bgIds[i]
  }

  /** After a step every live background order was born in the last three steps; at most 36 are. */
  lemma FlowIsRecent(s: Setup, e: Env)
    requires EnvInv(s, e)
    ensures |e.bgBirth| == |e.bgIds|
    ensures forall i :: 0 <= i < |e.bgIds| && e.bgIds[i] in RestingIds(e.book) ==>
      e.bgBirth[i] < e.stepIdx <= e.bgBirth[i] + 3
    ensures |LiveFlow(e)| <= 36
  {
    hide RestingIds, WellFormed, BidsBelow;
    QueueIsShort(s, e);
    ChurningCount(e.bgIds, e.bgHead);
    SmallerSet(LiveFlow(e), Churning(e));
  }

  /** Beside those at most one child per step rests. */
  lemma LiquidityBounded(s: Setup, e: Env)
    requires EnvInv(s, e)
    ensures |e.book.bids| + |e.book.asks| <= 36 + e.stepIdx
  {
    BookBound(s, e, e.stepIdx);
    QueueIsShort(s, e);
  }

  /** The churn queue spans at most three steps' bursts. */
  lemma QueueIsShort(s: Setup, e: Env)
    requires EnvInv(s, e)
    ensures |e.bgIds| == |e.bgBirth| && e.bgHead <= |e.bgIds|
    ensures |e.bgBirth| - e.bgHead <= LIFETIME * BURST
  {
    hide RestingIds, WellFormed, BidsBelow, Gone;
    if |e.bgBirth| - e.bgHead > LIFETIME * BURST {
      var h := e.bgHead;
      BirthGap(e.bgBirth, h, e.stepIdx - 1);
      BirthGap(e.bgBirth, h + BURST, e.stepIdx - 1);
      BirthGap(e.bgBirth, h + BURST + BURST, e.stepIdx - 1);
    }
  }

  /** With 36 + horizon below the guard's threshold, no background order ever meets the guard or a full slab. */
  lemma NeverCrowded(s: Setup, e: Env, n: nat)
    requires EnvInv(s, e) && !e.done && n <= 12
    requires 36 + s.horizon < 8184
    ensures !Crowded(Flow(s, Expire(e), n))
    ensures var b := Flow(s, Expire(e), n).book; |b.bids| + |b.asks| < 8184
  {
    RefreshedKeeps(s, e, n);
    BookBound(s, Flow(s, Expire(e), n), e.stepIdx);
  }

  /** While the slab has room, an in-band order is always accepted. */
  lemma RoomMeansAccepted(b: Book, id: nat, side: Side, px: int, qty: nat)
    requires WellFormed(BOOK_CFG, b) && |b.bids| + |b.asks| < 8192 && 0 <= px <= 16383
    ensures Submit(BOOK_CFG, b, id, side, px, qty).ok
  {
    var makers := b.Of(side.Opposite());
    var k := MatchTakesPrefix(id, side, px, qty, makers);
  }

  /** Background prices stay within five ticks of the arrival mid. */
  lemma FlowInBand(s: Setup, side: Side, depth: nat)
    requires 5 <= s.mid && s.mid + 5 <= 16383 && depth <= 4
    ensures BOOK_CFG.InBand(FlowPrice(s, side, depth))
  {
  }

  /** A background order on an uncrowded book evicts nothing and is accepted. */
  lemma FlowOneAccepted(s: Setup, e: Env, extra: nat)
    requires Core(s, e, extra) && !Crowded(e) && 5 <= s.mid && s.mid + 5 <= 16383
    ensures var e' := FlowOne(s, e);
      && e'.bgIds == e.bgIds + [e.nextId] && e'.restingIds == e.restingIds + [e.nextId]
      && e'.bgBirth == e.bgBirth + [e.stepIdx]
  {
    hide Submit, WellFormed, Core;
    CoreShape(s, e, extra);
    var x1 := s.draw(e.rng);
    var x2 := s.draw(x1);
    var x3 := s.draw(x2);
    var side := DrawSide(x1);
    FlowInBand(s, side, x2 % 5);
    RoomMeansAccepted(e.book, e.nextId, side, FlowPrice(s, side, x2 % 5), 10 + x3 % 40);
  }

  /** The child's price is that of a resting order or next to the mid: in band. */
  lemma ChildInBand(s: Setup, e: Env, extra: nat, aggression: real)
    requires Core(s, e, extra) && 5 <= s.mid && s.mid + 5 <= 16383
    ensures BOOK_CFG.InBand(ChildPx(s, e, aggression))
  {
    CoreShape(s, e, extra);
    assert Restable(BOOK_CFG, e.book.bids) && Restable(BOOK_CFG, e.book.asks);
  }

  /**
   With 36 + horizon below the guard's threshold and background prices in band:
   after any history, no order of an unfinished step is evicted or refused,
   neither the twelve background ones nor the child.
   */
  lemma NothingRefused(s: Setup, seed: nat, calls: seq<Call>, n: nat, qty: nat, aggression: real)
    requires s.parentQty > 0 && s.horizon > 0 && n < 12
    requires 36 + s.horizon < 8184 && 5 <= s.mid && s.mid + 5 <= 16383
    requires !History(s, Initial(s, seed), calls).done
    ensures var e := Flow(s, Expire(History(s, Initial(s, seed), calls)), n);
      var e' := Flow(s, Expire(History(s, Initial(s, seed), calls)), n + 1);
      && e'.bgIds == e.bgIds + [e.nextId] && e'.restingIds == e.restingIds + [e.nextId]
      && e'.bgBirth == e.bgBirth + [e.stepIdx]
    ensures var e := Flow(s, Expire(History(s, Initial(s, seed), calls)), 12);
      Submit(BOOK_CFG, e.book, e.nextId, Sell, ChildPx(s, e, aggression), qty).ok
  {
    hide Core, EnvInv, History, Initial, Expire, FlowOne, Crowded, ChildPx, Submit, WellFormed;
    var e := History(s, Initial(s, seed), calls);
    HistoryInv(s, seed, calls);
    EnvShape(s, e);
    NeverCrowded(s, e, n);
    RefreshedKeeps(s, e, n);
    FlowOneAccepted(s, Flow(s, Expire(e), n), e.stepIdx);
    NeverCrowded(s, e, BURST);
    RefreshedKeeps(s, e, BURST);
    var e' := Refreshed(s, e);
    ChildInBand(s, e', e.stepIdx, aggression);
    CoreShape(s, e', e.stepIdx);
    RoomMeansAccepted(e'.book, e'.nextId, Sell, ChildPx(s, e', aggression), qty);
  }

  // ----- What the child can do -----

  lemma NoCrossNoFill(taker: nat, px: int, qty: nat, bids: seq<Entry>)
    requires bids != [] ==> bids[0].price < px
    ensures Match(taker, Sell, px, qty, bids).fills == []
  {
  }

  lemma ChildFills(s: Setup, e: Env, qty: nat, aggression: real)
    requires s.parentQty > 0
    ensures Child(s, e, qty, aggression).fills
         == if qty == 0 then [] else Match(e.nextId, Sell, ChildPx(s, e, aggression), qty, e.book.bids).fills
  {
    hide Match, Insert, ChildPx;
  }

  /** A passive child rests or is dropped: it never fills on entry. */
  lemma PassiveNeverFills(s: Setup, e: Env, extra: nat, qty: nat, aggression: real)
    requires Core(s, e, extra) && !Aggressive(s, e, aggression)
    ensures Child(s, e, qty, aggression).fills == []
  {
    hide Match, Child;
    var b := e.book;
    assert b.bids != [] ==> b.bids[0].price <= s.mid - 1;
    assert b.bids != [] && b.asks != [] ==> b.bids[0].price < b.asks[0].price;
    NoCrossNoFill(e.nextId, ChildPx(s, e, aggression), qty, b.bids);
    ChildFills(s, e, qty, aggression);
  }

  /** An aggressive child fills only at the best bid read before it was sent. */
  lemma {:induction false} FillsAtLimit(taker: nat, px: int, qty: nat, bids: seq<Entry>)
    requires forall i :: 0 <= i < |bids| ==> bids[i].price <= px
    ensures forall f :: f in Match(taker, Sell, px, qty, bids).fills ==> f.price == px
    decreases |bids|
  {
    if bids != [] && qty >= bids[0].qty {
      FillsAtLimit(taker, px, qty - bids[0].qty, bids[1..]);
    }
  }

  lemma EmptyNoFill(taker: nat, px: int, qty: nat)
    ensures Match(taker, Sell, px, qty, []).fills == []
  {
  }

  lemma AggressiveFillsAtBestBid(s: Setup, e: Env, extra: nat, qty: nat, aggression: real)
    requires Core(s, e, extra) && Aggressive(s, e, aggression)
    ensures var r := Child(s, e, qty, aggression);
      && (r.fills != [] ==> e.book.bids != [])
      && forall f :: f in r.fills ==> f.price == e.book.bids[0].price
  {
    hide Match, Child;
    var bids := e.book.bids;
    ChildFills(s, e, qty, aggression);
    EmptyNoFill(e.nextId, ChildPx(s, e, aggression), qty);
    if bids != [] {
      forall i | 0 <= i < |bids|
        ensures bids[i].price <= bids[0].price
      {
        assert i > 0 ==> !Better(Buy, bids[i].price, bids[0].price);
      }
      FillsAtLimit(e.nextId, bids[0].price, qty, bids);
    }
  }

  /** In a reachable state, whatever the action: a step whose child posts passively fills nothing. */
  lemma PassiveStepNeverFills(s: Setup, e: Env, size: real, aggression: real)
    requires EnvInv(s, e) && !Aggressive(s, e, Clamp01(aggression))
    ensures Step(s, e, size, aggression).fills == []
  {
    hide Core, Refreshed, Child, ChildQty;
    CoreShape(s, e, e.stepIdx);
    if !e.done {
      RefreshedReady(s, e);
      var e' := Refreshed(s, e);
      PassiveNeverFills(s, e', e.stepIdx, ChildQty(s, e', Clamp01(size)), Clamp01(aggression));
    }
  }

  /** And one whose child crosses fills only at the best bid standing after expiry and background flow. */
  lemma AggressiveStepFillsAtBestBid(s: Setup, e: Env, size: real, aggression: real)
    requires EnvInv(s, e) && Aggressive(s, e, Clamp01(aggression))
    ensures var fills := Step(s, e, size, aggression).fills;
      fills != [] ==>
        && !e.done && Refreshed(s, e).book.bids != []
        && forall f :: f in fills ==> f.price == Refreshed(s, e).book.bids[0].price
  {
    hide Core, Refreshed, Child, ChildQty;
    CoreShape(s, e, e.stepIdx);
    if !e.done {
      RefreshedReady(s, e);
      var e' := Refreshed(s, e);
      AggressiveFillsAtBestBid(s, e', e.stepIdx, ChildQty(s, e', Clamp01(size)), Clamp01(aggression));
    }
  }

  lemma {:induction false} CashBelow(fills: seq<Fill>, px: int)
    requires forall f :: f in fills ==> f.price <= px
    ensures Cash(fills) <= px * Filled(fills)
  {
    if fills != [] {
      CashBelow(fills[1..], px);
      var f := fills[0];
      assert f.price * f.qty <= px * f.qty;
      assert px * Filled(fills) == px * f.qty + px * Filled(fills[1..]);
    }
  }

  lemma NotPositive(a: int, s0: int, parent: nat)
    requires a <= 0 && s0 >= 1 && parent >= 1
    ensures (a as real) / (s0 as real) * 10000.0 / (parent as real) <= 0.0
  {
    var x := (a as real) / (s0 as real);
    assert x <= 0.0;
    assert x * 10000.0 <= 0.0;
  }

  /** No step earns a positive reward: bids below the mid are below the price rewards are marked at, for any mid. */
  lemma RewardNeverPositive(s: Setup, e: Env, size: real, aggression: real)
    requires EnvInv(s, e)
    ensures Step(s, e, size, aggression).reward <= 0.0
  {
    if !e.done {
      RefreshedKeeps(s, e, BURST);
      var e' := Refreshed(s, e);
      ChildReward(s, e', e.stepIdx, ChildQty(s, e', Clamp01(size)), Clamp01(aggression));
    }
  }

  lemma ChildReward(s: Setup, e: Env, extra: nat, qty: nat, aggression: real)
    requires Core(s, e, extra)
    ensures Child(s, e, qty, aggression).reward <= 0.0
  {
    hide Submit, Filled, Cash, Sq, Fraction, NotAbove;
    CoreShape(s, e, extra);
    SquaresNotNegative(s);
    if qty > 0 {
      ChildBelowMid(s, e, extra, qty, aggression);
      RealisedNotPositive(s, Submit(BOOK_CFG, e.book, e.nextId, Sell, ChildPx(s, e, aggression), qty).fills);
    }
  }

  ghost predicate NotAbove(fills: seq<Fill>, px: int) {
    forall f :: f in fills ==> f.price <= px
  }

  lemma ChildBelowMid(s: Setup, e: Env, extra: nat, qty: nat, aggression: real)
    requires Core(s, e, extra)
    ensures qty > 0 ==>
      NotAbove(Submit(BOOK_CFG, e.book, e.nextId, Sell, ChildPx(s, e, aggression), qty).fills, s.mid - 1)
  {
    ChildFills(s, e, qty, aggression);
    hide Match, Child;
    if Aggressive(s, e, aggression) {
      AggressiveFillsAtBestBid(s, e, extra, qty, aggression);
      assert e.book.bids != [] ==> e.book.bids[0].price <= s.mid - 1;
    } else {
      PassiveNeverFills(s, e, extra, qty, aggression);
    }
  }

  lemma RealisedNotPositive(s: Setup, fills: seq<Fill>)
    requires s.parentQty > 0 && NotAbove(fills, s.mid - 1)
    ensures Realised(s, fills) <= 0.0
  {
    var s0 := S0(s);
    CashBelow(fills, s0 - 1);
    assert (s0 - 1) * Filled(fills) == s0 * Filled(fills) - Filled(fills);
    hide Filled, Cash;
    NotPositive(Cash(fills) - Filled(fills) * S0(s), S0(s), s.parentQty);
  }

  lemma SquaresNotNegative(s: Setup)
    requires s.parentQty > 0
    ensures forall q: nat :: Sq(Fraction(s, q)) >= 0.0
  {
  }

  // ----- Episodes and reset -----

  lemma {:induction false} CancelAllEmpties(b: Book, ids: seq<nat>)
    requires WellFormed(BOOK_CFG, b) && forall id :: id in RestingIds(b) ==> id in ids
    ensures CancelAll(b, ids) == EMPTY
    decreases |ids|
  {
    if ids == [] {
      assert RestingIds(b) == {};
      assert Ids(b.bids) <= RestingIds(b) && Ids(b.asks) <= RestingIds(b);
      IdsCount(b.bids);
      IdsCount(b.asks);
    } else {
      CancelKeeps(BOOK_CFG, b, ids[0]);
      CancelIds(b, ids[0]);
      CancelAllEmpties(Cancel(b, ids[0]).book, ids[1..]);
    }
  }

  /** In every reachable state reset gives exactly the freshly constructed state. */
  lemma ResetIsFresh(s: Setup, e: Env, seed: nat)
    requires EnvInv(s, e)
    ensures Reset(s, e, seed) == Initial(s, seed)
  {
    CancelAllEmpties(e.book, e.restingIds);
  }

  /** A history: steps and resets in any order. */
  datatype Call = Act(action: Action) | Restart(seed: nat)

  function History(s: Setup, e: Env, calls: seq<Call>): Env
    requires s.parentQty > 0
    decreases |calls|
  {
    if calls == [] then e else
      var n := |calls| - 1;
      var e' := History(s, e, calls[..n]);
      match calls[n]
      case Act(a) => Step(s, e', a.size, a.aggression).env
      case Restart(seed) => Reset(s, e', seed)
  }

  /** The invariant holds after any history. */
  lemma {:induction false} HistoryInv(s: Setup, seed: nat, calls: seq<Call>)
    requires s.parentQty > 0 && s.horizon > 0
    ensures EnvInv(s, History(s, Initial(s, seed), calls))
    decreases |calls|
  {
    InitialInv(s, seed);
    if calls != [] {
      var n := |calls| - 1;
      HistoryInv(s, seed, calls[..n]);
      var e := History(s, Initial(s, seed), calls[..n]);
      CoreShape(s, e, e.stepIdx);
      match calls[n]
      case Act(a) => StepKeeps(s, e, a.size, a.aggression);
      case Restart(seed') =>
        ResetIsFresh(s, e, seed');
        InitialInv(s, seed');
    }
  }

  /** What a caller gets from one step. */
  datatype Seen = Seen(reward: real, done: bool, fills: seq<Fill>, observation: Observation)

  function Episode(s: Setup, e: Env, actions: seq<Action>): seq<Seen>
    requires s.parentQty > 0 && s.horizon > 0
    decreases |actions|
  {
    if actions == [] then [] else
      var r := Step(s, e, actions[0].size, actions[0].aggression);
      [Seen(r.reward, r.env.done, r.fills, Observe(s, r.env))] + Episode(s, r.env, actions[1..])
  }

  /** After any history, reset and any actions give what a new environment with that seed gives. */
  lemma ResetReplays(s: Setup, first: nat, calls: seq<Call>, seed: nat, actions: seq<Action>)
    requires s.parentQty > 0 && s.horizon > 0
    ensures var e := Reset(s, History(s, Initial(s, first), calls), seed);
      && Observe(s, e) == Observe(s, Initial(s, seed))
      && Episode(s, e, actions) == Episode(s, Initial(s, seed), actions)
  {
    HistoryInv(s, first, calls);
    ResetIsFresh(s, History(s, Initial(s, first), calls), seed);
  }

  /** An episode is over after at most horizon steps, and what was not filled is exactly what remains. */
  lemma EpisodeEnds(s: Setup, e: Env, actions: seq<Action>)
    requires EnvInv(s, e) && |actions| + e.stepIdx >= s.horizon
    ensures var e' := History(s, e, seq(|actions|, i requires 0 <= i < |actions| => Act(actions[i])));
      e'.done && e'.remaining + e'.qtyFilled == s.parentQty
  {
    ActsProgress(s, e, actions);
  }

  lemma EnvShape(s: Setup, e: Env)
    requires EnvInv(s, e)
    ensures |e.bgIds| == |e.bgBirth| && s.parentQty > 0 && s.horizon > 0
  {
  }

  lemma StepAdvances(s: Setup, e: Env, size: real, aggression: real)
    requires EnvInv(s, e)
    ensures var r := Step(s, e, size, aggression);
      if e.done then r.env == e else r.env.stepIdx == e.stepIdx + 1
  {
    hide Core, Refreshed, ChildQty, Submit;
    if !e.done {
      RefreshedReady(s, e);
    }
  }

  lemma {:induction false} ActsProgress(s: Setup, e: Env, actions: seq<Action>)
    requires EnvInv(s, e)
    ensures var e' := History(s, e, seq(|actions|, i requires 0 <= i < |actions| => Act(actions[i])));
      EnvInv(s, e') && (e'.done || e'.stepIdx == e.stepIdx + |actions|)
    decreases |actions|
  {
    hide EnvInv, Step;
    EnvShape(s, e);
    var calls := seq(|actions|, i requires 0 <= i < |actions| => Act(actions[i]));
    if actions != [] {
      var n := |actions| - 1;
      var before := seq(n, i requires 0 <= i < n => Act(actions[..n][i]));
      assert calls[..n] == before;
      ActsProgress(s, e, actions[..n]);
      var e' := History(s, e, before);
      EnvShape(s, e');
      StepKeeps(s, e', actions[n].size, actions[n].aggression);
      StepAdvances(s, e', actions[n].size, actions[n].aggression);
    }
  }
}
