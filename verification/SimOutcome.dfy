/**
 What the steps of an episode do, in the source's own numbers and in terms of
 what a caller can see: fills, totals, rewards and observations.
 */
module SimOutcome {
  import opened MatchingSpec
  import opened SimSpec
  import opened SimFacts
  import opened Rounding

  // ----- Beginning -----

  /** A seeded episode begins with an empty book, nothing sent and ids from one; seed zero counts as one. */
  lemma BeginsFresh(s: Setup, seed: nat)
    ensures var e := Initial(s, seed);
      && e.rng == (if seed == 0 then 1 else seed) && e.book == Book([], [])
      && e.remaining == s.parentQty && e.qtyFilled == 0 && e.cash == 0
      && e.stepIdx == 0 && !e.done && e.nextId == 1
      && e.restingIds == [] && e.bgIds == [] && e.bgBirth == [] && e.bgHead == 0
  {
  }

  // ----- Background liquidity -----

  /** The background orders at these places of the churn queue. */
  function QueuedBetween(e: Env, from: nat, to: nat): set<nat>
    requires to <= |e.bgIds|
  {
    set i | from <= i < to :: e.bgIds[i]
  }

  /** Expiry cancels exactly the queued background orders born three or more steps ago, oldest first. */
  lemma ExpiryIsExact(s: Setup, e: Env)
    requires EnvInv(s, e)
    ensures var e' := Expire(e);
      && e.bgHead <= e'.bgHead <= |e.bgIds| && |e.bgBirth| == |e.bgIds|
      && (forall i :: e.bgHead <= i < |e.bgIds| ==> (i < e'.bgHead <==> e.bgBirth[i] + 3 <= e.stepIdx))
      && e'.book == CancelAll(e.book, e.bgIds[e.bgHead..e'.bgHead])
      && RestingIds(e'.book) == RestingIds(e.book) - QueuedBetween(e, e.bgHead, e'.bgHead)
  {
    BirthsRise(s, e);
    hide EnvInv, Core, RestingIds, Expire, CancelAll, QueuedBetween, WellFormed, BidsBelow;
    ExpireKeeps(s, e, e.stepIdx);
    Expirations(s, e, e.stepIdx);
    OldOnesFirst(e.bgBirth, e.bgHead, Expire(e).bgHead, e.stepIdx);
  }

  /** In birth order, what is old enough is a first part of the queue. */
  lemma OldOnesFirst(birth: seq<nat>, from: nat, to: nat, now: nat)
    requires forall i, j :: 0 <= i < j < |birth| ==> birth[i] <= birth[j]
    requires from <= to <= |birth| && forall i :: from <= i < to ==> birth[i] + 3 <= now
    requires to < |birth| ==> now < birth[to] + 3
    ensures forall i :: from <= i < |birth| ==> (i < to <==> birth[i] + 3 <= now)
  {
  }

  lemma BirthsRise(s: Setup, e: Env)
    requires EnvInv(s, e)
    ensures Core(s, e, e.stepIdx)
    ensures forall i, j :: 0 <= i < j < |e.bgBirth| ==> e.bgBirth[i] <= e.bgBirth[j]
  {
    hide Core, Gone;
  }

  lemma {:induction false} Expirations(s: Setup, e: Env, extra: nat)
    requires Core(s, e, extra)
    ensures var e' := Expire(e);
      && |e.bgBirth| == |e.bgIds| && e.bgHead <= e'.bgHead <= |e.bgIds|
      && (forall i :: e.bgHead <= i < e'.bgHead ==> e.bgBirth[i] + 3 <= e.stepIdx)
      && e'.book == CancelAll(e.book, e.bgIds[e.bgHead..e'.bgHead])
      && RestingIds(e'.book) == RestingIds(e.book) - QueuedBetween(e, e.bgHead, e'.bgHead)
    decreases |e.bgIds| - e.bgHead
  {
    hide Core, RestingIds, Cancel;
    CoreShape(s, e, extra);
    if Expired(e) {
      var one, e' := ExpireOne(e), Expire(e);
      ExpireOneKeeps(s, e, extra);
      CancelIds(e.book, e.bgIds[e.bgHead]);
      Expirations(s, one, extra);
      assert e.bgIds[e.bgHead..e'.bgHead] == [e.bgIds[e.bgHead]] + e.bgIds[one.bgHead..e'.bgHead];
      assert e.bgIds[e.bgHead..e'.bgHead][1..] == e.bgIds[one.bgHead..e'.bgHead];
      assert QueuedBetween(e, e.bgHead, e'.bgHead)
          == {e.bgIds[e.bgHead]} + QueuedBetween(one, one.bgHead, e'.bgHead);
    }
  }

  /** With 8184 orders resting the newest tracked one is given up before a background order; with fewer, nothing is. */
  lemma EvictionMakesRoom(s: Setup, e: Env, extra: nat)
    requires Core(s, e, extra)
    ensures var e' := Evict(e);
      if |e.book.bids| + |e.book.asks| >= 8184 && e.restingIds != [] then
        var n := |e.restingIds| - 1;
        && e' == e.(book := e'.book, restingIds := e.restingIds[..n])
        && RestingIds(e'.book) == RestingIds(e.book) - {e.restingIds[n]}
        && e'.book == Cancel(e.book, e.restingIds[n]).book
      else
        e' == e
  {
    hide Cancel, RestingIds;
    CoreShape(s, e, extra);
    if e.restingIds != [] {
      CancelIds(e.book, e.restingIds[|e.restingIds| - 1]);
    }
  }

  /**
   A background order takes three draws: the first's low bit chooses the side,
   the second the distance of one to five ticks from the mid, the third a
   quantity of 10 to 49. It takes the next id and is tracked if accepted.
   */
  lemma FlowOrderIs(s: Setup, e: Env)
    ensures var x := s.draw(e.rng);
      var y := s.draw(x);
      var z := s.draw(y);
      var e0, e' := Evict(e), FlowOne(s, e);
      var buy := x % 2 == 1;
      var o := Submit(Config(8192, 0, 16383), e0.book, e.nextId, if buy then Buy else Sell,
                      if buy then s.mid - 1 - y % 5 else s.mid + 1 + y % 5, 10 + z % 40);
      && e'.rng == z && e'.nextId == e.nextId + 1 && e'.book == o.book
      && (if o.ok then
            && e'.restingIds == e0.restingIds + [e.nextId] && e'.bgIds == e.bgIds + [e.nextId]
            && e'.bgBirth == e.bgBirth + [e.stepIdx]
          else
            e'.restingIds == e0.restingIds && e'.bgIds == e.bgIds && e'.bgBirth == e.bgBirth)
  {
    hide Submit, Cancel;
  }

  // ----- What the child asks for -----

  /** The quantity of a child: the clamped share of what remains, rounded down; everything on the last step. */
  ghost predicate Asked(s: Setup, e: Env, size: real, q: nat) {
    if e.stepIdx + 1 >= s.horizon || size >= 1.0 then q == e.remaining
    else if size <= 0.0 then q == 0
    else q as real <= size * (e.remaining as real) < (q + 1) as real
  }

  lemma ChildAsks(s: Setup, e: Env, size: real)
    ensures Asked(s, e, size, ChildQty(s, e, Clamp01(size)))
  {
    var r := e.remaining as real;
    assert 1.0 * r == r && 0.0 * r == 0.0;
  }

  /** Only one quantity is what a size asks for. */
  lemma AskedOnce(s: Setup, e: Env, size: real, q: nat, p: nat)
    requires Asked(s, e, size, q) && Asked(s, e, size, p)
    ensures q == p
  {
  }

  /** The background flow does not change what is asked. */
  lemma AskedIs(s: Setup, e: Env, e': Env, size: real, q: nat)
    requires Asked(s, e, size, q) && e'.stepIdx == e.stepIdx && e'.remaining == e.remaining
    ensures ChildQty(s, e', Clamp01(size)) == q
  {
    ChildAsks(s, e', size);
    hide ChildQty;
    AskedOnce(s, e', size, q, ChildQty(s, e', Clamp01(size)));
  }

  /** A step crosses the spread on the last step and for an aggression of at least one half. */
  predicate Crossing(s: Setup, e: Env, aggression: real) {
    e.stepIdx + 1 >= s.horizon || aggression >= 0.5
  }

  // ----- What the child gets -----

  /** Everything a taker can have at the best bid. */
  function AtTouch(b: Book): nat {
    if b.bids == [] then 0 else Depth(AtPrice(b.bids, b.bids[0].price))
  }

  function Less(a: nat, b: nat): nat {
    if a < b then a else b
  }

  lemma {:induction false} MatchTakesTouch(taker: nat, px: int, qty: nat, bids: seq<Entry>)
    requires SortedBy(Buy, bids) && forall i :: 0 <= i < |bids| ==> bids[i].price <= px
    ensures Filled(Match(taker, Sell, px, qty, bids).fills) == Less(qty, Depth(AtPrice(bids, px)))
    decreases |bids|
  {
    if bids == [] {
    } else if bids[0].price < px {
      forall i | 0 <= i < |bids|
        ensures bids[i].price != px
      {
        assert i > 0 ==> !Better(Buy, bids[i].price, bids[0].price);
      }
      AtPriceUniform(bids, px);
    } else {
      DepthAtPrice(bids, px);
      var rest := bids[1..];
      MatchSplits(taker, px, qty, bids);
      if qty >= bids[0].qty {
        MatchTakesTouch(taker, px, qty - bids[0].qty, rest);
      }
    }
  }

  lemma DepthAtPrice(bids: seq<Entry>, px: int)
    requires bids != [] && bids[0].price == px
    ensures Depth(AtPrice(bids, px)) == bids[0].qty + Depth(AtPrice(bids[1..], px))
  {
    var rest := AtPrice(bids[1..], px);
    assert ([bids[0]] + rest)[1..] == rest;
  }

  lemma MatchSplits(taker: nat, px: int, qty: nat, bids: seq<Entry>)
    requires bids != [] && bids[0].price == px
    ensures var filled := Filled(Match(taker, Sell, px, qty, bids).fills);
      if qty < bids[0].qty then filled == qty
      else filled == bids[0].qty + Filled(Match(taker, Sell, px, qty - bids[0].qty, bids[1..]).fills)
  {
    var m := bids[0];
    if qty == 0 {
    } else if qty < m.qty {
      assert Filled([Fill(m.id, taker, m.price, qty, Sell)]) == qty;
    } else {
      var rest := Match(taker, Sell, px, qty - m.qty, bids[1..]).fills;
      assert ([Fill(m.id, taker, m.price, m.qty, Sell)] + rest)[1..] == rest;
    }
  }

  /** A crossing child takes the best bid's depth or its own quantity, whichever is less; a passive one nothing. */
  lemma ChildTakes(s: Setup, e: Env, extra: nat, qty: nat, aggression: real)
    requires Core(s, e, extra)
    ensures Filled(Child(s, e, qty, aggression).fills)
         == if Aggressive(s, e, aggression) then Less(qty, AtTouch(e.book)) else 0
  {
    CoreShape(s, e, extra);
    if !Aggressive(s, e, aggression) {
      PassiveNeverFills(s, e, extra, qty, aggression);
    } else {
      ChildFills(s, e, qty, aggression);
      EmptyNoFill(e.nextId, ChildPx(s, e, aggression), qty);
      hide Child, Match, Depth, AtPrice;
      var bids := e.book.bids;
      if bids != [] && qty > 0 {
        forall i | 0 <= i < |bids|
          ensures bids[i].price <= bids[0].price
        {
          assert i > 0 ==> !Better(Buy, bids[i].price, bids[0].price);
        }
        MatchTakesTouch(e.nextId, bids[0].price, qty, bids);
      }
    }
  }

  /** Each unit sold at one price brings that price. */
  lemma {:induction false} CashAt(fills: seq<Fill>, px: int)
    requires forall f :: f in fills ==> f.price == px
    ensures Cash(fills) == px * Filled(fills)
  {
    if fills != [] {
      CashAt(fills[1..], px);
      var f := fills[0];
      assert px * (f.qty + Filled(fills[1..])) == px * f.qty + px * Filled(fills[1..]);
    }
  }

  // ----- Whole steps -----

  /** The book the child meets. */
  function Met(s: Setup, e: Env): Book {
    Flow(s, Expire(e), 12).book
  }

  /** A step that is over changes nothing and pays nothing. */
  lemma OverIsOver(s: Setup, e: Env, size: real, aggression: real)
    requires s.parentQty > 0 && e.done
    ensures Step(s, e, size, aggression) == Stepped(e, 0.0, [])
  {
  }

  /**
   A step sells what was asked at the best bid the refreshed book shows, as far
   as it reaches, if it crosses; otherwise nothing.
   */
  lemma StepSells(s: Setup, e: Env, size: real, aggression: real, q: nat)
    requires EnvInv(s, e) && !e.done && Asked(s, e, size, q)
    ensures var r, met := Step(s, e, size, aggression), Met(s, e);
      && Filled(r.fills) == (if Crossing(s, e, aggression) then Less(q, AtTouch(met)) else 0)
      && (forall f :: f in r.fills ==> met.bids != [] && f.price == met.bids[0].price)
  {
    hide Core, Child, ChildQty, Filled, EnvInv, Flow, Expire, Asked;
    var e' := Refreshed(s, e);
    StepIsChild(s, e, size, aggression);
    AskedIs(s, e, e', size, q);
    var qty, aggr := q, Clamp01(aggression);
    ChildTakes(s, e', e.stepIdx, qty, aggr);
    if Aggressive(s, e', aggr) {
      AggressiveFillsAtBestBid(s, e', e.stepIdx, qty, aggr);
    } else {
      PassiveNeverFills(s, e', e.stepIdx, qty, aggr);
    }
  }

  /** A step under way is the child's on the refreshed state. */
  lemma StepIsChild(s: Setup, e: Env, size: real, aggression: real)
    requires EnvInv(s, e) && !e.done
    ensures var e' := Refreshed(s, e);
      && Core(s, e', e.stepIdx) && e'.stepIdx == e.stepIdx && !e'.done && e'.book == Met(s, e)
      && e'.remaining == e.remaining && e'.qtyFilled == e.qtyFilled && e'.cash == e.cash
      && s.parentQty > 0 && s.horizon > 0 && ChildQty(s, e', Clamp01(size)) <= e.remaining
      && Step(s, e, size, aggression) == Child(s, e', ChildQty(s, e', Clamp01(size)), Clamp01(aggression))
  {
    hide Core, Child, ChildQty;
    RefreshedReady(s, e);
    RefreshedTotals(s, e);
    ChildQtyBound(s, Refreshed(s, e), Clamp01(size));
    CoreShape(s, e, e.stepIdx);
  }

  lemma RefreshedTotals(s: Setup, e: Env)
    requires EnvInv(s, e)
    ensures var e' := Refreshed(s, e);
      e'.qtyFilled == e.qtyFilled && e'.cash == e.cash && e'.nextId == e.nextId + 12
  {
    hide Core, FlowOne;
    ExpireKeeps(s, e, e.stepIdx);
    FlowKeeps(s, Expire(e), e.stepIdx, 12);
    FlowIds(s, Expire(e), 12);
  }

  lemma {:induction false} FlowIds(s: Setup, e: Env, n: nat)
    ensures Flow(s, e, n).nextId == e.nextId + n
  {
    hide FlowOne;
    if n > 0 {
      FlowIds(s, e, n - 1);
      FlowOneShape(s, Flow(s, e, n - 1));
    }
  }

  /**
   The totals follow the fills: what is sold leaves the inventory and brings
   the best bid's price. The clock moves on by one.
   */
  lemma StepAccounts(s: Setup, e: Env, size: real, aggression: real)
    requires EnvInv(s, e) && !e.done
    ensures var r, met := Step(s, e, size, aggression), Met(s, e);
      && Filled(r.fills) <= e.remaining
      && r.env.qtyFilled == e.qtyFilled + Filled(r.fills)
      && r.env.remaining == e.remaining - Filled(r.fills)
      && r.env.cash == e.cash + (if r.fills == [] then 0 else met.bids[0].price * Filled(r.fills))
      && r.env.stepIdx == e.stepIdx + 1
      && (r.env.done <==> r.env.remaining == 0 || r.env.stepIdx == s.horizon)
  {
    StepIsChild(s, e, size, aggression);
    StepKeeps(s, e, size, aggression);
    var e' := Refreshed(s, e);
    var qty := ChildQty(s, e', Clamp01(size));
    hide Core, ChildQty, Filled, Cash, Step, Refreshed, Flow, Expire;
    ChildTotals(s, e', e.stepIdx, qty, Clamp01(aggression));
    SoldAtBest(s, e', e.stepIdx, qty, Clamp01(aggression));
  }

  lemma ChildTotals(s: Setup, e: Env, extra: nat, qty: nat, aggression: real)
    requires Core(s, e, extra) && qty <= e.remaining
    ensures var r := Child(s, e, qty, aggression);
      && Filled(r.fills) <= qty
      && r.env.qtyFilled == e.qtyFilled + Filled(r.fills) && r.env.remaining == e.remaining - Filled(r.fills)
      && r.env.cash == e.cash + Cash(r.fills) && r.env.stepIdx == e.stepIdx + 1
  {
    hide Core, Submit;
    CoreShape(s, e, extra);
    SubmitFilledBound(e.book, e.nextId, Sell, ChildPx(s, e, aggression), qty);
  }

  lemma SoldAtBest(s: Setup, e: Env, extra: nat, qty: nat, aggression: real)
    requires Core(s, e, extra)
    ensures var fills := Child(s, e, qty, aggression).fills;
      && (fills != [] ==> e.book.bids != [])
      && Cash(fills) == if fills == [] then 0 else e.book.bids[0].price * Filled(fills)
  {
    CoreShape(s, e, extra);
    hide Core, Child, Filled;
    if Aggressive(s, e, aggression) {
      AggressiveFillsAtBestBid(s, e, extra, qty, aggression);
      var fills := Child(s, e, qty, aggression).fills;
      if fills != [] {
        CashAt(fills, e.book.bids[0].price);
      }
    } else {
      PassiveNeverFills(s, e, extra, qty, aggression);
    }
  }

  /** Where a child is placed: at the best bid or ask of the refreshed book, or next to the mid where there is none. */
  function Placed(s: Setup, e: Env, aggression: real): int {
    var met := Met(s, e);
    if Crossing(s, e, aggression) then
      if met.bids != [] then met.bids[0].price else s.mid - 1
    else
      if met.asks != [] then met.asks[0].price else s.mid + 1
  }

  /**
   What became of a child that asked for q: what it did not sell rests at its
   price under its id, tracked for the next reset, unless that price is out of
   band or the book full. Asking for nothing leaves the book as it was; queue
   and generator are left alone.
   */
  ghost predicate Settled(r: Stepped, before: Env, px: int, q: nat) {
    var id, left := before.nextId, q - Filled(r.fills);
    && left >= 0
    && (q == 0 ==> r.env.book == before.book && r.env.nextId == id)
    && (q > 0 ==> r.env.nextId == id + 1)
    && (left == 0 ==> r.env.restingIds == before.restingIds)
    && (left > 0 ==>
      || (Entry(id, px, left) in r.env.book.asks && r.env.restingIds == before.restingIds + [id])
      || ((px < 0 || px > 16383 || |r.env.book.bids| + |r.env.book.asks| >= 8192)
          && r.env.restingIds == before.restingIds))
    && r.env.bgIds == before.bgIds && r.env.bgBirth == before.bgBirth && r.env.bgHead == before.bgHead
    && r.env.rng == before.rng
  }

  /** The child of a step sells or rests. */
  lemma StepRests(s: Setup, e: Env, size: real, aggression: real, q: nat)
    requires EnvInv(s, e) && !e.done && Asked(s, e, size, q)
    ensures Flow(s, Expire(e), 12).nextId == e.nextId + 12
    ensures Settled(Step(s, e, size, aggression), Flow(s, Expire(e), 12), Placed(s, e, aggression), q)
  {
    hide *;
    StepIsChild(s, e, size, aggression);
    RefreshedTotals(s, e);
    PlacedIs(s, e, aggression);
    RefreshedIs(s, e);
    var e' := Refreshed(s, e);
    AskedIs(s, e, e', size, q);
    ChildRests(s, e', e.stepIdx, q, Clamp01(aggression));
  }

  lemma RefreshedIs(s: Setup, e: Env)
    ensures Refreshed(s, e) == Flow(s, Expire(e), 12)
  {
  }

  lemma PlacedIs(s: Setup, e: Env, aggression: real)
    requires EnvInv(s, e) && !e.done
    ensures ChildPx(s, Refreshed(s, e), Clamp01(aggression)) == Placed(s, e, aggression)
  {
    StepIsChild(s, e, 0.0, aggression);
    hide EnvInv, Core, Flow, Expire, Step, Child;
  }

  lemma ChildRests(s: Setup, e: Env, extra: nat, qty: nat, aggression: real)
    requires Core(s, e, extra)
    ensures s.parentQty > 0
    ensures Settled(Child(s, e, qty, aggression), e, ChildPx(s, e, aggression), qty)
  {
    hide Core, Submit, ChildPx, WellFormed, BidsBelow, Child, Filled;
    CoreShape(s, e, extra);
    if qty > 0 {
      ChildIsSubmitted(s, e, qty, aggression);
      ResidualRests(BOOK_CFG, e.book, e.nextId, Sell, ChildPx(s, e, aggression), qty);
      RefusedWhen(e.book, e.nextId, ChildPx(s, e, aggression), qty);
    } else {
      IdleChild(s, e, aggression);
    }
  }

  lemma IdleChild(s: Setup, e: Env, aggression: real)
    requires s.parentQty > 0
    ensures var r := Child(s, e, 0, aggression);
      && r.fills == [] && Filled(r.fills) == 0 && r.env.book == e.book && r.env.nextId == e.nextId
      && r.env.restingIds == e.restingIds
      && r.env.bgIds == e.bgIds && r.env.bgBirth == e.bgBirth && r.env.bgHead == e.bgHead && r.env.rng == e.rng
  {
  }

  lemma ChildIsSubmitted(s: Setup, e: Env, qty: nat, aggression: real)
    requires s.parentQty > 0 && qty > 0
    ensures var r := Child(s, e, qty, aggression);
      var o := Submit(BOOK_CFG, e.book, e.nextId, Sell, ChildPx(s, e, aggression), qty);
      && r.env.book == o.book && r.fills == o.fills && r.env.nextId == e.nextId + 1
      && r.env.restingIds == e.restingIds + (if o.ok && Filled(o.fills) < qty then [e.nextId] else [])
      && r.env.bgIds == e.bgIds && r.env.bgBirth == e.bgBirth && r.env.bgHead == e.bgHead && r.env.rng == e.rng
  {
    hide Submit, ChildPx, Realised, Sq, Fraction, Cash, Filled;
  }

  lemma RefusedWhen(b: Book, id: nat, px: int, qty: nat)
    ensures var o := Submit(BOOK_CFG, b, id, Sell, px, qty);
      !o.ok ==> px < 0 || px > 16383 || |o.book.bids| + |o.book.asks| >= 8192
  {
    hide Match, Insert;
  }

  /** The mid rewards are marked at, at least one. */
  function Marked(s: Setup): int {
    if s.mid >= 1 then s.mid else 1
  }

  /** Realised basis points of units sold at one price. */
  function Gain(s: Setup, px: int, sold: nat): real
    requires s.parentQty > 0
  {
    (((px - Marked(s)) * sold) as real) / (Marked(s) as real) * 10000.0 / (s.parentQty as real)
  }

  /**
   The reward in full: basis points of the parent realised against the mid,
   less the square of the inventory left, less a thousand times that square if
   the episode ends with inventory left.
   */
  function Paid(s: Setup, px: int, sold: nat, left: nat, over: bool): real
    requires s.parentQty > 0
  {
    var part := (left as real) / (s.parentQty as real);
    Gain(s, px, sold) - part * part - (if over && left > 0 then 1000.0 * (part * part) else 0.0)
  }

  /** A step pays for what it sold at the best bid. */
  lemma StepReward(s: Setup, e: Env, size: real, aggression: real)
    requires EnvInv(s, e) && !e.done
    ensures s.parentQty > 0
    ensures var r, met := Step(s, e, size, aggression), Met(s, e);
      var px := if r.fills == [] then 0 else met.bids[0].price;
      r.reward == Paid(s, px, Filled(r.fills), r.env.remaining, r.env.done)
  {
    StepIsChild(s, e, size, aggression);
    var e' := Refreshed(s, e);
    var qty, aggr := ChildQty(s, e', Clamp01(size)), Clamp01(aggression);
    AskedAtEnd(s, e', size);
    hide Core, ChildQty, Step, Refreshed, Flow, Expire, Child, Cash, Filled, Paid, Met, EnvInv;
    SoldAtBest(s, e', e.stepIdx, qty, aggr);
    var fills := Child(s, e', qty, aggr).fills;
    var px := if fills == [] then 0 else e'.book.bids[0].price;
    NothingFilled(fills);
    ChildRewardIs(s, e', e.stepIdx, qty, aggr, px);
  }

  lemma NothingFilled(fills: seq<Fill>)
    ensures fills == [] ==> Filled(fills) == 0
  {
  }

  /** Under way and at the last step there is something left to send. */
  lemma AskedAtEnd(s: Setup, e: Env, size: real)
    ensures ChildQty(s, e, Clamp01(size)) == 0 && e.remaining > 0 ==> e.stepIdx + 1 < s.horizon
  {
  }

  lemma RealisedIsGain(s: Setup, fills: seq<Fill>, px: int)
    requires s.parentQty > 0 && Cash(fills) == px * Filled(fills)
    ensures Realised(s, fills) == Gain(s, px, Filled(fills))
  {
    hide Cash, Filled;
    var sold, s0 := Filled(fills), Marked(s);
    assert px * sold - sold * s0 == (px - s0) * sold;
    NothingGained(s, px);
  }

  lemma NothingGained(s: Setup, px: int)
    requires s.parentQty > 0
    ensures Gain(s, px, 0) == 0.0
  {
    var m, q := Marked(s) as real, s.parentQty as real;
    assert (px - Marked(s)) * 0 == 0;
    assert 0.0 / m == 0.0 && 0.0 * 10000.0 == 0.0 && 0.0 / q == 0.0;
  }

  lemma PenaltiesAre(s: Setup, left: nat)
    requires s.parentQty > 0
    ensures var part := (left as real) / (s.parentQty as real);
      PHI * Sq(Fraction(s, left)) == part * part && KAPPA * Sq(Fraction(s, left)) == 1000.0 * (part * part)
  {
  }

  lemma ChildRewardIs(s: Setup, e: Env, extra: nat, qty: nat, aggression: real, px: int)
    requires Core(s, e, extra) && !e.done && (qty == 0 && e.remaining > 0 ==> e.stepIdx + 1 < s.horizon)
    requires var fills := Child(s, e, qty, aggression).fills; Cash(fills) == px * Filled(fills)
    ensures var r := Child(s, e, qty, aggression);
      r.reward == Paid(s, px, Filled(r.fills), r.env.remaining, r.env.done)
  {
    CoreShape(s, e, extra);
    ChildPays(s, e, extra, qty, aggression);
    hide Core, Child, Realised, Cash, Filled;
    var r := Child(s, e, qty, aggression);
    RealisedIsGain(s, r.fills, px);
    PaidIs(s, px, Filled(r.fills), r.env.remaining, r.env.done);
  }

  lemma PaidIs(s: Setup, px: int, sold: nat, left: nat, over: bool)
    requires s.parentQty > 0
    ensures Paid(s, px, sold, left, over)
         == Gain(s, px, sold) - PHI * Sq(Fraction(s, left))
            - (if over && left > 0 then KAPPA * Sq(Fraction(s, left)) else 0.0)
  {
    PenaltiesAre(s, left);
    hide Gain, Sq, Fraction;
  }

  lemma ChildPays(s: Setup, e: Env, extra: nat, qty: nat, aggression: real)
    requires Core(s, e, extra) && !e.done && (qty == 0 && e.remaining > 0 ==> e.stepIdx + 1 < s.horizon)
    ensures s.parentQty > 0
    ensures var r := Child(s, e, qty, aggression);
      r.reward == Realised(s, r.fills) - PHI * Sq(Fraction(s, r.env.remaining))
        - (if r.env.done && r.env.remaining > 0 then KAPPA * Sq(Fraction(s, r.env.remaining)) else 0.0)
  {
    CoreShape(s, e, extra);
    NoFillNoGain(s);
    hide Core, Submit, Sq, Fraction, Realised, Cash, Filled, ChildPx;
  }

  lemma NoFillNoGain(s: Setup)
    requires s.parentQty > 0
    ensures Realised(s, []) == 0.0
  {
  }

  // ----- Episodes -----

  /** All that was sold in the steps seen so far. */
  function Sold(seen: seq<Seen>): nat {
    if seen == [] then 0 else Sold(seen[..|seen| - 1]) + Filled(seen[|seen| - 1].fills)
  }

  /** Over any actions the filled total is what the steps reported, and what is left the rest of the parent. */
  lemma {:induction false} EpisodeAccounts(s: Setup, e: Env, actions: seq<Action>)
    requires EnvInv(s, e)
    ensures s.parentQty > 0 && s.horizon > 0 && |Episode(s, e, actions)| == |actions|
    ensures var e' := After(s, e, actions);
      && EnvInv(s, e') && e'.qtyFilled == e.qtyFilled + Sold(Episode(s, e, actions))
      && e'.remaining == e.remaining - Sold(Episode(s, e, actions))
    decreases |actions|
  {
    EnvShape(s, e);
    hide EnvInv, Step, Observe, Filled;
    if actions != [] {
      var r := Step(s, e, actions[0].size, actions[0].aggression);
      StepKeeps(s, e, actions[0].size, actions[0].aggression);
      OneStepAccounts(s, e, actions[0].size, actions[0].aggression);
      EpisodeAccounts(s, r.env, actions[1..]);
      var rest := Episode(s, r.env, actions[1..]);
      SoldCons(Seen(r.reward, r.env.done, r.fills, Observe(s, r.env)), rest);
      hide Sold;
    }
  }

  /** What is seen last is the state after all actions. */
  lemma {:induction false} SeenLast(s: Setup, e: Env, actions: seq<Action>)
    requires s.parentQty > 0 && s.horizon > 0 && actions != []
    ensures |Episode(s, e, actions)| == |actions|
    ensures Episode(s, e, actions)[|actions| - 1].observation == Observe(s, After(s, e, actions))
    decreases |actions|
  {
    hide Step, Observe;
    if |actions| > 1 {
      SeenLast(s, Step(s, e, actions[0].size, actions[0].aggression).env, actions[1..]);
    }
  }

  lemma OneStepAccounts(s: Setup, e: Env, size: real, aggression: real)
    requires EnvInv(s, e)
    ensures s.parentQty > 0
    ensures var r := Step(s, e, size, aggression);
      && r.env.qtyFilled == e.qtyFilled + Filled(r.fills) && r.env.remaining == e.remaining - Filled(r.fills)
  {
    EnvShape(s, e);
    NothingFilled([]);
    hide EnvInv, Filled;
    if e.done {
      OverIsOver(s, e, size, aggression);
    } else {
      StepAccounts(s, e, size, aggression);
    }
  }

  lemma {:induction false} SoldCons(first: Seen, rest: seq<Seen>)
    ensures Sold([first] + rest) == Filled(first.fills) + Sold(rest)
  {
    hide Filled;
    var all := [first] + rest;
    if rest == [] {
      assert all[..0] == [];
    } else {
      var n := |rest| - 1;
      SoldCons(first, rest[..n]);
      assert all[..|all| - 1] == [first] + rest[..n];
    }
  }

  /** The state after a sequence of actions. */
  function After(s: Setup, e: Env, actions: seq<Action>): Env
    requires s.parentQty > 0
    decreases |actions|
  {
    if actions == [] then e
    else After(s, Step(s, e, actions[0].size, actions[0].aggression).env, actions[1..])
  }

  // ----- Observations -----

  /** The fractions observed are of the parent quantity and add up to all of it. */
  lemma ObservesInventory(s: Setup, e: Env)
    requires EnvInv(s, e)
    ensures s.parentQty > 0 && s.horizon > 0
    ensures var o := Observe(s, e);
      && o.inventory * (s.parentQty as real) == e.remaining as real
      && o.filled * (s.parentQty as real) == e.qtyFilled as real
      && o.inventory + o.filled == 1.0
  {
    EnvShape(s, e);
    CoreShape(s, e, e.stepIdx);
    hide EnvInv, TimeLeft, AveragePrice;
    var q, a, b := s.parentQty as real, e.remaining as real, e.qtyFilled as real;
    assert a + b == q;
    PartsOfWhole(a, b, q);
  }

  lemma PartsOfWhole(a: real, b: real, q: real)
    requires q > 0.0 && a + b == q
    ensures a / q * q == a && b / q * q == b && a / q + b / q == 1.0
  {
    SumOfQuotients(a, b, q);
  }

  lemma SumOfQuotients(a: real, b: real, q: real)
    requires q > 0.0
    ensures a / q + b / q == (a + b) / q
  {
  }

  /** bid and ask are the best prices resting, zero on an empty side; between two live ones lie spread and mid. */
  lemma ObservesTouch(s: Setup, e: Env)
    requires EnvInv(s, e)
    ensures s.parentQty > 0 && s.horizon > 0
    ensures var o := Observe(s, e);
      && (if e.book.bids == [] then o.bid == 0 else
            && (exists i :: 0 <= i < |e.book.bids| && e.book.bids[i].price == o.bid)
            && forall i :: 0 <= i < |e.book.bids| ==> e.book.bids[i].price <= o.bid)
      && (if e.book.asks == [] then o.ask == 0 else
            && (exists i :: 0 <= i < |e.book.asks| && e.book.asks[i].price == o.ask)
            && forall i :: 0 <= i < |e.book.asks| ==> o.ask <= e.book.asks[i].price)
      && o.bid >= 0 && o.ask >= 0
      && (if o.bid > 0 && o.ask > 0 then
            && o.spread == o.ask - o.bid > 0
            && o.mid - (o.bid as real) == (o.ask as real) - o.mid > 0.0
          else
            o.spread == 0 && o.mid == s.mid as real)
  {
    EnvShape(s, e);
    CoreShape(s, e, e.stepIdx);
    var b := e.book;
    hide EnvInv, Core, TimeLeft, AveragePrice, Fraction;
    assert b.bids != [] ==> b.bids[0].price >= 0;
    assert b.asks != [] ==> b.asks[0].price >= 0;
    assert b.bids != [] && b.asks != [] ==> b.bids[0].price < b.asks[0].price;
    forall i | 0 <= i < |b.bids|
      ensures b.bids[i].price <= b.bids[0].price
    {
      assert i > 0 ==> !Better(Buy, b.bids[i].price, b.bids[0].price);
    }
    forall i | 0 <= i < |b.asks|
      ensures b.asks[0].price <= b.asks[i].price
    {
      assert i > 0 ==> !Better(Sell, b.asks[i].price, b.asks[0].price);
    }
  }

  /** Time to go is what is left of the horizon: one at the start, zero at the end. */
  lemma ObservesTime(s: Setup, e: Env)
    requires EnvInv(s, e)
    ensures s.parentQty > 0 && s.horizon > 0
    ensures Observe(s, e).timeLeft * (s.horizon as real) == (s.horizon - e.stepIdx) as real
    ensures e.stepIdx == 0 ==> Observe(s, e).timeLeft == 1.0
    ensures e.stepIdx == s.horizon ==> Observe(s, e).timeLeft == 0.0
  {
    EnvShape(s, e);
    TimeLeftIs(s, e.stepIdx);
    hide EnvInv, TimeLeft, AveragePrice, Fraction, TopOrZero;
  }

  lemma TimeLeftIs(s: Setup, stepIdx: nat)
    requires s.horizon > 0
    ensures TimeLeft(s, stepIdx) * (s.horizon as real) == (s.horizon - stepIdx) as real
    ensures stepIdx == 0 ==> TimeLeft(s, stepIdx) == 1.0
    ensures stepIdx == s.horizon ==> TimeLeft(s, stepIdx) == 0.0
    ensures TimeLeft(s, stepIdx + 1) == TimeLeft(s, stepIdx) - 1.0 / (s.horizon as real)
  {
    var h, t := s.horizon as real, stepIdx as real;
    var f := t / h;
    assert f * h == t;
    assert (1.0 - f) * h == h - f * h;
    assert (s.horizon - stepIdx) as real == h - t && (stepIdx + 1) as real == t + 1.0;
    SumOfQuotients(t, 1.0, h);
    assert h / h == 1.0 && 0.0 / h == 0.0;
  }

  /** Every step under way uses up one part of the horizon. */
  lemma StepTakesTime(s: Setup, e: Env, size: real, aggression: real)
    requires EnvInv(s, e) && !e.done
    ensures s.parentQty > 0 && s.horizon > 0
    ensures Observe(s, Step(s, e, size, aggression).env).timeLeft
         == Observe(s, e).timeLeft - 1.0 / (s.horizon as real)
  {
    EnvShape(s, e);
    StepAccounts(s, e, size, aggression);
    TimeLeftIs(s, e.stepIdx);
    TimeObserved(s, e);
    TimeObserved(s, Step(s, e, size, aggression).env);
    hide EnvInv, Step, TimeLeft, Observe;
  }

  lemma TimeObserved(s: Setup, e: Env)
    requires s.parentQty > 0 && s.horizon > 0
    ensures Observe(s, e).timeLeft == TimeLeft(s, e.stepIdx)
  {
    hide TimeLeft, AveragePrice, Fraction, TopOrZero;
  }

  /** The average price times mid and quantity is the cash; one before anything filled or without a mid. */
  lemma ObservesAverage(s: Setup, e: Env)
    requires EnvInv(s, e)
    ensures s.parentQty > 0 && s.horizon > 0
    ensures var o := Observe(s, e);
      if e.qtyFilled == 0 || s.mid == 0 then o.avgPrice == 1.0
      else o.avgPrice * ((e.qtyFilled as real) * (s.mid as real)) == e.cash as real
  {
    EnvShape(s, e);
    hide EnvInv, TimeLeft, Fraction, TopOrZero;
    if e.qtyFilled != 0 && s.mid != 0 {
      QuotientTimes(e.cash as real, e.qtyFilled as real, s.mid as real);
    }
  }

  lemma QuotientTimes(a: real, b: real, c: real)
    requires b != 0.0 && c != 0.0
    ensures b * c != 0.0 && a / (b * c) * (b * c) == a
  {
  }

  /** What a new episode shows, whatever the seed. */
  lemma ObservesBeginning(s: Setup, seed: nat)
    requires s.parentQty > 0 && s.horizon > 0
    ensures Observe(s, Initial(s, seed)) == Observation(1.0, 1.0, 0, 0, 0, s.mid as real, 0.0, 1.0)
  {
    InitialInv(s, seed);
    ObservesInventory(s, Initial(s, seed));
    var q, h := s.parentQty as real, s.horizon as real;
    assert q / q == 1.0 && 0.0 / q == 0.0 && 0.0 / h == 0.0;
  }

  /** After a reset and any actions, the last observation shows all that was sold since, and the rest as inventory. */
  lemma EpisodeShowsSold(s: Setup, seed: nat, actions: seq<Action>)
    requires s.parentQty > 0 && s.horizon > 0 && actions != []
    ensures var seen := Episode(s, Initial(s, seed), actions);
      && |seen| == |actions|
      && var o := seen[|seen| - 1].observation;
      && o.filled * (s.parentQty as real) == Sold(seen) as real
      && o.inventory * (s.parentQty as real) == (s.parentQty - Sold(seen)) as real
  {
    hide EnvInv, Observe, Initial, Step, Sold, Episode, After;
    BeginsFresh(s, seed);
    InitialInv(s, seed);
    EpisodeAccounts(s, Initial(s, seed), actions);
    SeenLast(s, Initial(s, seed), actions);
    ObservesInventory(s, After(s, Initial(s, seed), actions));
  }
}
