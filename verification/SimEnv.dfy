/**
 The episode machine as an object over the real book, publisher and ring. Its
 methods are proved to compute the functions of SimSpec.
 */
module SimEnv {
  import opened MatchingSpec
  import opened SimSpec
  import opened Rounding
  import opened SimFacts
  import opened Telemetry
  import opened Publishing
  import opened SimTape
  import Bits
  import BookRuns
  import OrderBook
  import SpscRing

  const RING_LOG: nat := 16
  const RING_CAPACITY: nat := 65536

  class SimEnv {
    const s: Setup
    const book: OrderBook.OrderBook
    const ring: SpscRing.SpscRing<Event>
    const publisher: TelemetryPublisher
    var rng: nat
    var remaining: nat
    var stepIdx: nat
    var qtyFilled: nat
    var cash: int
    var done: bool
    var nextId: nat
    var restingIds: seq<nat>
    var bgIds: seq<nat>
    var bgBirth: seq<nat>
    var bgHead: nat
    var fusedSeq: nat
    ghost var fused: seq<bool>  // per push attempt, whether the child order path made it

    /** The parts belong together, and everything pushed since construction rebuilds the book. */
    ghost predicate Wired()
      reads this`fusedSeq, this`fused, publisher, ring, ring.storage, book.Repr()
    {
      && publisher.book == book && publisher.ring == ring && publisher.Valid()
      && book.cfg == BOOK_CFG
      && Taped(book.Book(), ring.attempts, fused, publisher.seqNo, fusedSeq)
    }

    /** The environment's own fields are no part of the book. */
    lemma Outside()
      ensures this !in book.Repr()
    {
    }

    /** The episode state, with the book abstract. */
    ghost function Abs(): Env
      reads this, book.Repr()
    {
      Env(book.Book(), rng, remaining, stepIdx, qtyFilled, cash, done, nextId, restingIds, bgIds, bgBirth, bgHead)
    }

    /** The fields, apart from the book, are those of e. */
    ghost predicate Shows(e: Env)
      reads this`rng, this`remaining, this`stepIdx, this`qtyFilled, this`cash, this`done, this`nextId
      reads this`restingIds, this`bgIds, this`bgBirth, this`bgHead
    {
      && rng == e.rng && remaining == e.remaining && stepIdx == e.stepIdx && qtyFilled == e.qtyFilled && cash == e.cash
      && done == e.done && nextId == e.nextId && restingIds == e.restingIds
      && bgIds == e.bgIds && bgBirth == e.bgBirth && bgHead == e.bgHead
    }

    ghost predicate Valid()
      reads this, publisher, ring, ring.storage, book.Repr()
    {
      Wired() && EnvInv(s, Abs())
    }

    /** Wire the parts together and begin an episode; Create below builds the parts. */
    constructor (s: Setup, seed: nat, publisher: TelemetryPublisher)
      ensures this.s == s && this.publisher == publisher && book == publisher.book && ring == publisher.ring
      ensures Shows(Initial(s, seed)) && fusedSeq == FUSED_START && fused == []
    {
      this.s := s;
      this.publisher := publisher;
      ring, book := publisher.ring, publisher.book;
      rng := if seed != 0 then seed else 1;
      restingIds, bgIds, bgBirth, bgHead := [], [], [], 0;
      remaining, stepIdx, qtyFilled, cash, done, nextId := s.parentQty, 0, 0, 0, false, 1;
      fusedSeq, fused := FUSED_START, [];
    }

    /** Cancel through the publisher. */
    method PublishCancel(id: nat) returns (ok: bool)
      requires Wired()
      modifies this`fused, publisher, ring, ring.storage, book.Repr()
      ensures Wired() && old(ring.attempts) <= ring.attempts
      ensures var o := MatchingSpec.Cancel(old(book.Book()), id); book.Book() == o.book && ok == o.ok
    {
      hide TelemetryPublisher.Valid, OrderBook.OrderBook.Book, MatchingSpec.Cancel, Published, Emitted, Taped;
      ghost var b, before, seqNo := book.Book(), Look(ring), publisher.seqNo;
      ghost var op := BookRuns.Kill(id);
      ok := publisher.Cancel(id);
      TapedStep(BOOK_CFG, b, op, false, fused, seqNo, fusedSeq, ring.capacity, before, Look(ring));
      fused := fused + seq(|Emitted(BOOK_CFG, b, op, seqNo)|, _ => false);
    }

    /** Submit through the publisher. */
    method PublishLimit(id: nat, side: Side, px: int, qty: nat) returns (ok: bool)
      requires Wired() && qty > 0 && !Resting(book.Book(), id)
      modifies this`fused, publisher, ring, ring.storage, book.Repr()
      ensures Wired() && old(ring.attempts) <= ring.attempts
      ensures var o := Submit(BOOK_CFG, old(book.Book()), id, side, px, qty); book.Book() == o.book && ok == o.ok
    {
      hide TelemetryPublisher.Valid, OrderBook.OrderBook.Book, Submit, Published, Emitted, Resting, Taped;
      ghost var b, before, seqNo := book.Book(), Look(ring), publisher.seqNo;
      ghost var op := BookRuns.Add(id, side, px, qty);
      ok := publisher.AddLimit(id, side, px, qty);
      TapedStep(BOOK_CFG, b, op, false, fused, seqNo, fusedSeq, ring.capacity, before, Look(ring));
      fused := fused + seq(|Emitted(BOOK_CFG, b, op, seqNo)|, _ => false);
    }

    /** Cancel background orders older than the lifetime, oldest first. */
    method ExpireStale()
      requires Wired() && |bgIds| == |bgBirth|
      modifies this`bgHead, this`fused, publisher, ring, ring.storage, book.Repr()
      ensures Wired() && old(ring.attempts) <= ring.attempts && fusedSeq == old(fusedSeq)
      ensures Abs() == Expire(old(Abs()))
    {
      hide Wired, OrderBook.OrderBook.Book, MatchingSpec.Cancel;
      Outside();
      ghost var all := Expire(Abs());
      while bgHead < |bgIds| && bgBirth[bgHead] + LIFETIME <= stepIdx
        invariant Wired() && old(ring.attempts) <= ring.attempts && Expire(Abs()) == all
        decreases |bgIds| - bgHead
      {
        var ok := PublishCancel(bgIds[bgHead]);
        bgHead := bgHead + 1;
      }
    }

    /** Send one synthetic order, evicting the newest tracked order first if the book is crowded. */
    method SendFlow()
      requires Wired() && Core(s, Abs(), stepIdx)
      modifies this, publisher, ring, ring.storage, book.Repr()
      ensures Wired() && old(ring.attempts) <= ring.attempts
      ensures Abs() == FlowOne(s, old(Abs())) && fusedSeq == old(fusedSeq)
    {
      hide Wired, OrderBook.OrderBook.Book, Core, Resting, Evict, SubmitFlow;
      Outside();
      ghost var e := Abs();
      var x1 := s.draw(rng);
      var x2 := s.draw(x1);
      rng := s.draw(x2);
      var side := DrawSide(x1);
      var px := FlowPrice(s, side, x2 % 5);
      var qty := 10 + rng % 40;
      var id := nextId;
      nextId := nextId + 1;
      EvictedIdFresh(s, e, stepIdx, rng);
      EvictIfCrowded();
      TrackFlow(id, side, px, qty);
    }

    method TrackFlow(id: nat, side: Side, px: int, qty: nat)
      requires Wired() && qty > 0 && !Resting(book.Book(), id)
      modifies this`restingIds, this`bgIds, this`bgBirth, this`fused, publisher, ring, ring.storage, book.Repr()
      ensures Wired() && old(ring.attempts) <= ring.attempts
      ensures Abs() == SubmitFlow(old(Abs()), id, side, px, qty)
    {
      hide Wired, OrderBook.OrderBook.Book, Submit, Resting;
      Outside();
      var ok := PublishLimit(id, side, px, qty);
      if ok {
        restingIds := restingIds + [id];
        bgIds := bgIds + [id];
        bgBirth := bgBirth + [stepIdx];
      }
    }

    method EvictIfCrowded()
      requires Wired()
      modifies this`restingIds, this`fused, publisher, ring, ring.storage, book.Repr()
      ensures Wired() && old(ring.attempts) <= ring.attempts
      ensures Abs() == Evict(old(Abs()))
    {
      hide Wired, OrderBook.OrderBook.Book, MatchingSpec.Cancel;
      Outside();
      if OpenOrders() >= BOOK_CAPACITY - 8 {
        if restingIds != [] {
          var victim := restingIds[|restingIds| - 1];
          restingIds := restingIds[..|restingIds| - 1];
          var ok := PublishCancel(victim);
        }
      }
    }

    function OpenOrders(): (n: nat)
      reads this, publisher, ring, ring.storage, book.Repr()
      requires Wired()
      ensures n == |book.Book().bids| + |book.Book().asks|
    {
      book.OpenOrderCount()
    }

    /** The burst of background flow of one step. */
    method SendBurst()
      requires Wired() && Core(s, Abs(), stepIdx)
      modifies this, publisher, ring, ring.storage, book.Repr()
      ensures Wired() && old(ring.attempts) <= ring.attempts
      ensures Abs() == Flow(s, old(Abs()), BURST) && fusedSeq == old(fusedSeq)
    {
      hide Wired, OrderBook.OrderBook.Book, Core, FlowOne;
      ghost var e := Abs();
      for k := 0 to BURST
        invariant Wired() && old(ring.attempts) <= ring.attempts
        invariant Abs() == Flow(s, e, k) && fusedSeq == old(fusedSeq)
      {
        FlowKeeps(s, e, e.stepIdx, k);
        SendFlow();
      }
    }

    /** Submit the child straight to the book, publishing its events under the fused numbering. */
    method SubmitChild(id: nat, px: int, qty: nat) returns (ok: bool, fills: seq<Fill>)
      requires Wired() && qty > 0 && !Resting(book.Book(), id)
      modifies this`fusedSeq, this`fused, ring, ring.storage, book.Repr()
      ensures Wired() && old(ring.attempts) <= ring.attempts
      ensures var o := Submit(BOOK_CFG, old(book.Book()), id, Sell, px, qty);
        book.Book() == o.book && ok == o.ok && fills == o.fills
      ensures var tape := Emitted(BOOK_CFG, old(book.Book()), BookRuns.Add(id, Sell, px, qty), old(fusedSeq));
        && Published(ring.capacity, old(Look(ring)), Look(ring), tape)
        && fusedSeq == old(fusedSeq) + |tape|
    {
      hide OrderBook.OrderBook.Valid, OrderBook.OrderBook.Book, SpscRing.SpscRing.Valid, Published, Submit, Resting;
      hide Untimed, FillEvents, Filled, Taped;
      ghost var b, before := book.Book(), Look(ring);
      ok, fills := book.AddLimit(id, Sell, px, qty);
      PushChild(id, px, qty, ok, fills);
      ghost var op := BookRuns.Add(id, Sell, px, qty);
      TapedStep(BOOK_CFG, b, op, true, fused, publisher.seqNo, old(fusedSeq), ring.capacity, before, Look(ring));
      fused := fused + seq(|Emitted(BOOK_CFG, b, op, old(fusedSeq))|, _ => true);
    }

    /** One Fill per maker, then an Ack exactly if a residual rests. */
    method PushChild(id: nat, px: int, qty: nat, ok: bool, fills: seq<Fill>)
      requires ring.Valid()
      modifies this`fusedSeq, ring, ring.storage
      ensures ring.Valid()
      ensures var tape := SubmitEvents(Outcome(EMPTY, ok, fills, 0), id, Sell, px, qty, old(fusedSeq));
        && Published(ring.capacity, old(Look(ring)), Look(ring), tape)
        && fusedSeq == old(fusedSeq) + |tape|
    {
      hide SpscRing.SpscRing.Valid, Published, Untimed, FillEvents, Filled;
      ghost var was := Look(ring);
      PublishFills(ring, fills, fusedSeq);
      fusedSeq := fusedSeq + |fills|;
      ghost var mid := Look(ring);
      if ok && Filled(fills) < qty {
        var ts: nat := *;
        PublishOne(ring, OfAck(fusedSeq, ts, id, Sell, px, qty - Filled(fills)));
        PublishedMore(ring.capacity, was, mid, Look(ring), FillEvents(fills, old(fusedSeq)),
                      [OfAck(fusedSeq, 0, id, Sell, px, qty - Filled(fills))]);
        fusedSeq := fusedSeq + 1;
      } else {
        PublishedNothing(ring.capacity, mid);
        PublishedMore(ring.capacity, was, mid, mid, FillEvents(fills, old(fusedSeq)), []);
      }
    }

    /** The best bid when crossing, else the best ask; one off the arrival mid where a side is empty. */
    method PriceChild(aggression: real) returns (px: int)
      requires Wired()
      ensures px == ChildPx(s, Abs(), aggression)
    {
      BookReady();
      BestAreNow();
      hide Wired, OrderBook.OrderBook.Valid, OrderBook.OrderBook.Book, BidNow, AskNow;
      hide OrderBook.OrderBook.HasBid, OrderBook.OrderBook.BestBid;
      hide OrderBook.OrderBook.HasAsk, OrderBook.OrderBook.BestAsk;
      var bid := if book.HasBid() then book.BestBid() else s.mid - 1;
      var ask := if book.HasAsk() then book.BestAsk() else s.mid + 1;
      var terminal := stepIdx + 1 >= s.horizon;
      px := if terminal || aggression >= 0.5 then bid else ask;
    }

    lemma BookReady()
      requires Wired()
      ensures book.Valid()
    {
    }

    lemma BestAreNow()
      requires book.Valid()
      ensures (if book.HasBid() then book.BestBid() else s.mid - 1) == BidNow(s, book.Book())
      ensures (if book.HasAsk() then book.BestAsk() else s.mid + 1) == AskNow(s, book.Book())
    {
      hide OrderBook.OrderBook.Valid, OrderBook.OrderBook.Book;
      hide OrderBook.OrderBook.HasBid, OrderBook.OrderBook.BestBid;
      hide OrderBook.OrderBook.HasAsk, OrderBook.OrderBook.BestAsk;
    }

    /** Abs is the episode state that the fields show and whose book is the book's. */
    lemma AbsShows()
      ensures Shows(Abs()) && Abs().book == book.Book() && Abs().nextId == nextId && Abs().stepIdx == stepIdx
    {
    }

    lemma ShownIsAbs(e: Env)
      requires Shows(e) && e.book == book.Book()
      ensures Abs() == e
    {
    }

    lemma ShowsBut(e: Env, b: Book)
      requires Shows(e)
      ensures Shows(e.(book := b))
    {
    }

    /** Send the child order, account for its fills and price the step. */
    method SendChild(qty: nat, aggression: real) returns (reward: real, fills: seq<Fill>)
      requires Wired() && Core(s, Abs(), stepIdx)
      modifies this, ring, ring.storage, book.Repr()
      ensures Wired() && old(ring.attempts) <= ring.attempts
      ensures var r := Child(s, old(Abs()), qty, aggression);
        Abs() == r.env && reward == r.reward && fills == r.fills
    {
      hide Wired, OrderBook.OrderBook.Book, Core, Close, Sq, Fraction, WellFormed, Shows, Abs, Submit, Settle, ChildPx;
      Outside();
      ghost var e := Abs();
      AbsShows();
      CoreShape(s, e, stepIdx);
      if qty == 0 {
        reward := Idle(e);
        fills := [];
        ghost var e' := Child(s, e, 0, aggression).env;
        CloseBook(s, e.(stepIdx := e.stepIdx + 1));
        ShownIsAbs(e');
      } else {
        FreshId(s, e, stepIdx, nextId);
        reward, fills := Execute(e, qty, aggression);
      }
    }

    /** Submit the child and account for it. */
    method Execute(ghost e: Env, qty: nat, aggression: real) returns (reward: real, fills: seq<Fill>)
      requires Wired() && qty > 0 && s.parentQty > 0 && e == Abs() && !Resting(book.Book(), nextId)
      modifies this, ring, ring.storage, book.Repr()
      ensures Wired() && old(ring.attempts) <= ring.attempts
      ensures var r := Child(s, e, qty, aggression);
        Abs() == r.env && reward == r.reward && fills == r.fills
    {
      hide Wired, OrderBook.OrderBook.Book, Resting, Shows, Abs, Submit, Settle, ChildPx, Child;
      Outside();
      AbsShows();
      ChildIs(s, e, qty, aggression);
      var ok;
      ok, fills := SubmitPriced(e, qty, aggression);
      ghost var r := Settle(s, e.(nextId := nextId + 1), nextId, qty, ok, fills);
      SettleFills(s, e.(nextId := nextId + 1), nextId, qty, ok, fills);
      reward := Account(e, nextId, qty, ok, fills);
      ShowsBut(r.env, book.Book());
      ShownIsAbs(r.env.(book := book.Book()));
    }

    /** Price the child and submit it. */
    method SubmitPriced(ghost e: Env, qty: nat, aggression: real) returns (ok: bool, fills: seq<Fill>)
      requires Wired() && qty > 0 && e == Abs() && !Resting(book.Book(), nextId)
      modifies this`fusedSeq, this`fused, ring, ring.storage, book.Repr()
      ensures Wired() && old(ring.attempts) <= ring.attempts
      ensures var o := Submit(BOOK_CFG, e.book, e.nextId, Sell, ChildPx(s, e, aggression), qty);
        Shows(e) && nextId == e.nextId && book.Book() == o.book && ok == o.ok && fills == o.fills
    {
      hide Wired, OrderBook.OrderBook.Book, Published, Emitted, Resting, Shows, Abs, Submit, ChildPx;
      Outside();
      AbsShows();
      var px := PriceChild(aggression);
      ok, fills := SubmitChild(nextId, px, qty);
    }

    /** Nothing to send: the holding penalty still applies. */
    method Idle(ghost e: Env) returns (reward: real)
      requires s.parentQty > 0 && Shows(e)
      modifies this`stepIdx, this`done
      ensures Shows(Close(s, e.(stepIdx := e.stepIdx + 1)))
      ensures reward == -PHI * Sq(Fraction(s, e.remaining))
    {
      hide Sq, Fraction;
      reward := -PHI * Sq(Fraction(s, remaining));
      stepIdx := stepIdx + 1;
      MaybeCloseOut();
    }

    /** Book the child's fills, advance the clock and price the step. */
    method Account(ghost e: Env, id: nat, qty: nat, ok: bool, fills: seq<Fill>) returns (reward: real)
      requires s.parentQty > 0 && Shows(e) && id == e.nextId
      modifies this`nextId, this`restingIds, this`qtyFilled, this`cash, this`remaining, this`stepIdx, this`done
      ensures var r := Settle(s, e.(nextId := id + 1), id, qty, ok, fills);
        Shows(r.env) && reward == r.reward
    {
      hide Filled, Cash, Sq, Fraction, Realised, Credited;
      nextId := nextId + 1;
      ghost var named := e.(nextId := id + 1);
      reward := Realised(s, fills);
      Credit(named, id, qty, ok, fills);
      ghost var credited := Credited(named, id, qty, ok, fills);
      assert credited.done == e.done && credited.stepIdx == e.stepIdx by {
        CreditedClock(named, id, qty, ok, fills);
      }
      reward := reward - PHI * Sq(Fraction(s, remaining));
      stepIdx := stepIdx + 1;
      MaybeCloseOut();
      if done && remaining > 0 {
        reward := reward - KAPPA * Sq(Fraction(s, remaining));
      }
    }

    /** Track the child if part of it rests, and add up its fills. */
    method Credit(ghost e: Env, id: nat, qty: nat, ok: bool, fills: seq<Fill>)
      requires Shows(e)
      modifies this`restingIds, this`qtyFilled, this`cash, this`remaining
      ensures Shows(Credited(e, id, qty, ok, fills))
    {
      hide Filled, Cash;
      var filled := Filled(fills);
      if ok && filled < qty {
        restingIds := restingIds + [id];
      }
      qtyFilled := qtyFilled + filled;
      cash := cash + Cash(fills);
      remaining := if filled >= remaining then 0 else remaining - filled;
    }

    /** The action's share of what remains; everything on the last step. */
    method SizeChild(size: real) returns (qty: nat)
      requires 0.0 <= size <= 1.0
      ensures qty == ChildQty(s, Abs(), size) <= remaining
    {
      ChildQtyBound(s, Abs(), size);
      var share := size * (remaining as real);
      TimesNotNegative(size, remaining as real);
      qty := share.Floor;
      if stepIdx + 1 >= s.horizon {
        qty := remaining;
      }
    }

    method MaybeCloseOut()
      modifies this`done
      ensures done == (old(done) || remaining == 0 || stepIdx >= s.horizon)
    {
      if remaining == 0 || stepIdx >= s.horizon {
        done := true;
      }
    }

    /** One step of the episode. */
    method StepImpl(size: real, aggression: real) returns (reward: real, fills: seq<Fill>)
      requires Valid()
      modifies this, publisher, ring, ring.storage, book.Repr()
      ensures Valid()
      ensures var r := Step(s, old(Abs()), size, aggression);
        Abs() == r.env && reward == r.reward && fills == r.fills
      ensures old(ring.attempts) <= ring.attempts
    {
      hide Wired, OrderBook.OrderBook.Book, Core, Child, Expire, Flow, Births;
      ghost var e := Abs();
      StepKeeps(s, e, size, aggression);
      CoreShape(s, e, stepIdx);
      if done {
        return 0.0, [];
      }
      ExpireKeeps(s, e, stepIdx);
      ExpireStale();
      RefreshedReady(s, e);
      SendBurst();
      var qty := SizeChild(Clamp01(size));
      reward, fills := SendChild(qty, Clamp01(aggression));
    }

    /** The observation Python sees. */
    method WriteState() returns (o: Observation)
      requires Valid()
      ensures o == Observe(s, Abs())
    {
      ValidMeans();
      BookReady();
      TouchesObserved();
      hide Valid, Wired, OrderBook.OrderBook.Valid, OrderBook.OrderBook.Book, Fraction, TimeLeft, AveragePrice;
      hide OrderBook.OrderBook.HasBid, OrderBook.OrderBook.BestBid;
      hide OrderBook.OrderBook.HasAsk, OrderBook.OrderBook.BestAsk;
      var bid := if book.HasBid() then book.BestBid() else 0;
      var ask := if book.HasAsk() then book.BestAsk() else 0;
      var dark := bid == 0 || ask == 0;
      o := Observation(Fraction(s, remaining), TimeLeft(s, stepIdx), bid, ask, if dark then 0 else ask - bid,
                       if dark then s.mid as real else ((bid + ask) as real) / 2.0, Fraction(s, qtyFilled),
                       AveragePrice(cash, qtyFilled, s.mid));
    }

    lemma TouchesObserved()
      requires book.Valid()
      ensures (if book.HasBid() then book.BestBid() else 0) == TopOrZero(book.Book().bids)
      ensures (if book.HasAsk() then book.BestAsk() else 0) == TopOrZero(book.Book().asks)
    {
      hide OrderBook.OrderBook.Valid, OrderBook.OrderBook.Book;
      hide OrderBook.OrderBook.HasBid, OrderBook.OrderBook.BestBid;
      hide OrderBook.OrderBook.HasAsk, OrderBook.OrderBook.BestAsk;
    }

    /** A step as Python calls it: the events it pushes, replayed over the book before it, give the book after it. */
    method StepAndObserve(size: real, aggression: real) returns (seen: Seen)
      requires Valid()
      modifies this, publisher, ring, ring.storage, book.Repr()
      ensures Valid()
      ensures var r := Step(s, old(Abs()), size, aggression);
        Abs() == r.env && seen == Seen(r.reward, r.env.done, r.fills, Observe(s, r.env))
      ensures old(ring.attempts) <= ring.attempts
      ensures ReplayAll(old(book.Book()), Values(ring.attempts[|old(ring.attempts)|..])) == book.Book()
    {
      hide Valid, Wired, OrderBook.OrderBook.Book, Step, Observe, ReplayAll, Values;
      ValidMeans();
      ghost var b, before := book.Book(), ring.attempts;
      var reward, fills := StepImpl(size, aggression);
      ValidMeans();
      NewerPushes(before, ring.attempts, b, book.Book());
      var o := WriteState();
      seen := Seen(reward, done, fills, o);
    }

    lemma ValidMeans()
      requires Valid()
      ensures s.parentQty > 0 && s.horizon > 0
      ensures ReplayAll(EMPTY, Values(ring.attempts)) == book.Book() && TwoStreams(ring.attempts, fused)
    {
      hide EnvInv, TelemetryPublisher.Valid, OrderBook.OrderBook.Book, ReplayAll, TwoStreams;
      EnvShape(s, Abs());
    }

    /** Reset as Python calls it. */
    method ResetAndObserve(seed: nat) returns (o: Observation)
      requires Valid()
      modifies this, publisher, ring, ring.storage, book.Repr()
      ensures Valid()
      ensures Abs() == Initial(s, seed) && o == Observe(s, Initial(s, seed))
    {
      hide Valid, Wired, OrderBook.OrderBook.Book, Observe, Initial;
      ValidMeans();
      Reset(seed);
      o := WriteState();
    }

    /** Cancel every tracked order. */
    method Drain()
      requires Wired()
      modifies this`fused, publisher, ring, ring.storage, book.Repr()
      ensures Wired() && old(ring.attempts) <= ring.attempts
      ensures book.Book() == CancelAll(old(book.Book()), restingIds)
    {
      hide Wired, OrderBook.OrderBook.Book, MatchingSpec.Cancel;
      Outside();
      ghost var all := CancelAll(book.Book(), restingIds);
      assert restingIds[0..] == restingIds;
      for i := 0 to |restingIds|
        invariant Wired() && old(ring.attempts) <= ring.attempts && CancelAll(book.Book(), restingIds[i..]) == all
      {
        assert restingIds[i..][1..] == restingIds[i + 1..];
        var ok := PublishCancel(restingIds[i]);
      }
      assert restingIds[|restingIds|..] == [];
    }

    /** Start over with a seed: drain what rests, rewind everything but the event numbering. */
    method Reset(seed: nat)
      requires Valid()
      modifies this, publisher, ring, ring.storage, book.Repr()
      ensures Valid()
      ensures Abs() == Initial(s, seed) && fusedSeq == old(fusedSeq)
      ensures old(ring.attempts) <= ring.attempts
    {
      hide Wired, OrderBook.OrderBook.Book, CancelAll, EnvInv;
      ghost var e := Abs();
      ResetIsFresh(s, e, seed);
      EnvShape(s, e);
      InitialInv(s, seed);
      Outside();
      Drain();
      Rewind(seed);
    }

    method Rewind(seed: nat)
      modifies this`rng, this`restingIds, this`bgIds, this`bgBirth, this`bgHead, this`remaining, this`stepIdx,
        this`qtyFilled, this`cash, this`done, this`nextId
      ensures Shows(Initial(s, seed))
    {
      rng := if seed != 0 then seed else 1;
      restingIds, bgIds, bgBirth, bgHead := [], [], [], 0;
      remaining, stepIdx, qtyFilled, cash, done, nextId := s.parentQty, 0, 0, 0, false, 1;
    }
  }

  /** Resetting to a seed and acting: what a new environment with that seed would show, whatever happened before. */
  method PlayEpisode(env: SimEnv, seed: nat, actions: seq<Action>) returns (first: Observation, seen: seq<Seen>)
    requires env.Valid()
    modifies env, env.publisher, env.ring, env.ring.storage, env.book.Repr()
    ensures env.Valid()
    ensures first == Observe(env.s, Initial(env.s, seed))
    ensures seen == Episode(env.s, Initial(env.s, seed), actions)
  {
    hide SimEnv.Valid, SimEnv.Abs, OrderBook.OrderBook.Book, SimSpec.Step, Observe, Initial;
    env.ValidMeans();
    first := env.ResetAndObserve(seed);
    ghost var s := env.s;
    ghost var all := Episode(s, env.Abs(), actions);
    seen := [];
    assert actions[0..] == actions && [] + all == all;
    for i := 0 to |actions|
      invariant env.Valid() && all == seen + Episode(s, env.Abs(), actions[i..])
    {
      assert actions[i..][1..] == actions[i + 1..] && actions[i..][0] == actions[i];
      ghost var rest := Episode(s, env.Abs(), actions[i..]);
      var now := env.StepAndObserve(actions[i].size, actions[i].aggression);
      assert rest == [now] + Episode(s, env.Abs(), actions[i + 1..]);
      assert seen + rest == (seen + [now]) + Episode(s, env.Abs(), actions[i + 1..]);
      seen := seen + [now];
    }
    assert actions[|actions|..] == [] && seen + [] == seen;
  }

  /** A new environment: empty ring, empty book, nothing sent; zero quantity and horizon count as one. */
  method Create(parentQty: nat, horizon: nat, seed: nat, mid: int, draw: nat -> nat, hash: nat -> nat)
      returns (env: SimEnv)
    ensures env.Valid()
    ensures env.s == Setup(if parentQty != 0 then parentQty else 1, if horizon != 0 then horizon else 1, mid, draw)
    ensures env.Abs() == Initial(env.s, seed)
    ensures env.book.cfg == Config(8192, 0, 16383) && env.ring.capacity == 65536
    ensures env.fusedSeq == 1_000_000_000 && env.publisher.seqNo == 0
  {
    hide OrderBook.OrderBook.Valid, OrderBook.OrderBook.Book, SpscRing.SpscRing.Valid, EnvInv;
    var s := Setup(if parentQty != 0 then parentQty else 1, if horizon != 0 then horizon else 1, mid, draw);
    var publisher := Pipeline(hash);
    env := new SimEnv(s, seed, publisher);
    InitialInv(s, seed);
  }

  /** An empty ring, an empty book, and the publisher between them. */
  method Pipeline(hash: nat -> nat) returns (publisher: TelemetryPublisher)
    ensures publisher.Valid() && publisher.book.cfg == BOOK_CFG && publisher.book.Book() == EMPTY
    ensures publisher.ring.capacity == RING_CAPACITY
    ensures publisher.ring.contents == [] && publisher.ring.attempts == [] && publisher.seqNo == 0
    ensures fresh(publisher.ring.storage) && fresh(publisher.book.slab) && fresh(publisher.book.slab.storage)
    ensures fresh(publisher.book.bids) && fresh(publisher.book.bids.levels)
    ensures fresh(publisher.book.asks) && fresh(publisher.book.asks.levels)
    ensures fresh(publisher.book.index) && fresh(publisher.book.index.table)
  {
    hide OrderBook.OrderBook.Valid, OrderBook.OrderBook.Book, SpscRing.SpscRing.Valid;
    var ring := EmptyRing();
    var book := new OrderBook.OrderBook(BOOK_CAPACITY, MIN_PX, MAX_PX, hash);
    publisher := new TelemetryPublisher(book, ring);
  }

  lemma ChildIs(s: Setup, e: Env, qty: nat, aggression: real)
    requires qty > 0 && s.parentQty > 0
    ensures var id := e.nextId;
      var o := Submit(BOOK_CFG, e.book, id, Sell, ChildPx(s, e, aggression), qty);
      var r := Settle(s, e.(nextId := id + 1), id, qty, o.ok, o.fills);
      Child(s, e, qty, aggression) == r.(env := r.env.(book := o.book))
  {
    hide Submit, Settle;
  }

  lemma CloseBook(s: Setup, e: Env)
    ensures Close(s, e).book == e.book
  {
  }

  lemma CreditedClock(e: Env, id: nat, qty: nat, ok: bool, fills: seq<Fill>)
    ensures Credited(e, id, qty, ok, fills).done == e.done && Credited(e, id, qty, ok, fills).stepIdx == e.stepIdx
  {
  }

  lemma SettleFills(s: Setup, e: Env, id: nat, qty: nat, ok: bool, fills: seq<Fill>)
    requires s.parentQty > 0
    ensures Settle(s, e, id, qty, ok, fills).fills == fills
  {
  }

  method EmptyRing() returns (ring: SpscRing.SpscRing<Event>)
    ensures ring.Valid() && fresh(ring) && fresh(ring.storage) && ring.capacity == RING_CAPACITY
    ensures ring.contents == [] && ring.attempts == []
  {
    hide SpscRing.SpscRing.Valid;
    RingSize();
    ring := new SpscRing.SpscRing<Event>(RING_LOG, RING_CAPACITY, OfCancel(0, 0, 0, Buy, 0, 0));
  }

  lemma RingSize()
    ensures RING_CAPACITY == Bits.Pow2(RING_LOG)
  {
    assert Bits.Pow2(8) == 256;
    Bits.Pow2Split(8, 16);
  }
}
