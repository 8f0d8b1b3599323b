/**
 The publisher: drives a book and pushes what happened into the ring, numbering
 every event at the moment of its push attempt whether or not it is accepted.
 */
module Publishing {
  import opened MatchingSpec
  import RingProtocol
  import opened Telemetry
  import BookRuns
  import OrderBook
  import SpscRing

  /** The values a sequence of push attempts carried, accepted or not. */
  function Values(attempts: seq<RingProtocol.Attempt<Event>>): (tape: seq<Event>)
    ensures |tape| == |attempts|
  {
    seq(|attempts|, i requires 0 <= i < |attempts| => attempts[i].value)
  }

  /** What can be said of a ring from outside. */
  datatype View = View(attempts: seq<RingProtocol.Attempt<Event>>, contents: seq<Event>, popped: seq<Event>,
                       dropped: nat)

  ghost function Look(ring: SpscRing.SpscRing<Event>): View
    reads ring
  {
    View(ring.attempts, ring.contents, ring.popped, ring.dropped)
  }

  /**
   Between two views the tape was pushed: every event attempted in order, and
   all of them stored if there was room for all.
   */
  ghost predicate Published(capacity: nat, before: View, after: View, tape: seq<Event>) {
    && before.attempts <= after.attempts
    && Untimed(Values(after.attempts[|before.attempts|..])) == tape
    && after.popped == before.popped
    && (|before.contents| + |tape| <= capacity ==>
      && after.contents == before.contents + Values(after.attempts[|before.attempts|..])
      && after.dropped == before.dropped)
  }

  lemma PublishedNothing(capacity: nat, v: View)
    ensures Published(capacity, v, v, [])
  {
    assert v.attempts[|v.attempts|..] == [];
  }

  lemma PublishedMore(capacity: nat, v0: View, v1: View, v2: View, tape: seq<Event>, more: seq<Event>)
    requires Published(capacity, v0, v1, tape) && Published(capacity, v1, v2, more)
    ensures Published(capacity, v0, v2, tape + more)
  {
    var a, b := v1.attempts[|v0.attempts|..], v2.attempts[|v1.attempts|..];
    assert v2.attempts[|v0.attempts|..] == a + b;
    assert Values(a + b) == Values(a) + Values(b);
    UntimedAppend(Values(a), Values(b));
  }

  /** One push attempt. */
  method PublishOne(ring: SpscRing.SpscRing<Event>, e: Event)
    requires ring.Valid()
    modifies ring, ring.storage
    ensures ring.Valid()
    ensures Published(ring.capacity, old(Look(ring)), Look(ring), [e.(timestamp := 0)])
    ensures |ring.attempts| == |old(ring.attempts)| + 1
  {
    hide SpscRing.SpscRing.Valid;
    var ok := ring.TryPush(e);
    assert ring.attempts[|old(ring.attempts)|..] == [RingProtocol.Attempt(e, ok)];
    assert Values([RingProtocol.Attempt(e, ok)]) == [e];
  }

  lemma FillEventsMore(fills: seq<Fill>, i: nat, n: nat)
    requires i < |fills|
    ensures FillEvents(fills[..i + 1], n) == FillEvents(fills[..i], n) + [OfFill(n + i, 0, fills[i])]
  {
  }

  /** Push one Fill event per fill, numbered from n. */
  method PublishFills(ring: SpscRing.SpscRing<Event>, fills: seq<Fill>, n: nat)
    requires ring.Valid()
    modifies ring, ring.storage
    ensures ring.Valid()
    ensures Published(ring.capacity, old(Look(ring)), Look(ring), FillEvents(fills, n))
  {
    hide SpscRing.SpscRing.Valid, Published;
    ghost var was := Look(ring);
    PublishedNothing(ring.capacity, was);
    assert FillEvents(fills[..0], n) == [];
    for i := 0 to |fills|
      invariant ring.Valid()
      invariant Published(ring.capacity, was, Look(ring), FillEvents(fills[..i], n))
    {
      ghost var now := Look(ring);
      var ts: nat := *;
      PublishOne(ring, OfFill(n + i, ts, fills[i]));
      PublishedMore(ring.capacity, was, now, Look(ring), FillEvents(fills[..i], n), [OfFill(n + i, 0, fills[i])]);
      FillEventsMore(fills, i, n);
    }
    assert fills[..|fills|] == fills;
  }

  class TelemetryPublisher {
    const book: OrderBook.OrderBook
    const ring: SpscRing.SpscRing<Event>
    var seqNo: nat

    ghost predicate Apart() {
      this !in book.Repr() && ring !in book.Repr() && ring.storage !in book.Repr()
    }

    ghost predicate Valid()
      reads this, ring, ring.storage, book.Repr()
    {
      Apart() && book.Valid() && ring.Valid()
    }

    constructor (book: OrderBook.OrderBook, ring: SpscRing.SpscRing<Event>)
      requires book.Valid() && ring.Valid() && ring !in book.Repr() && ring.storage !in book.Repr()
      ensures Valid() && this.book == book && this.ring == ring && seqNo == 0
    {
      hide OrderBook.OrderBook.Valid, SpscRing.SpscRing.Valid;
      this.book := book;
      this.ring := ring;
      seqNo := 0;
    }

    /** Submit an order: the book acts as specified, and its events are pushed in order, numbered from seqNo. */
    method AddLimit(id: nat, side: Side, px: int, qty: nat) returns (ok: bool)
      requires Valid() && qty > 0 && !Resting(book.Book(), id)
      modifies this, ring, ring.storage, book.Repr()
      ensures Valid()
      ensures var op := BookRuns.Add(id, side, px, qty);
        var o := BookRuns.Step(book.cfg, old(book.Book()), op);
        var tape := Emitted(book.cfg, old(book.Book()), op, old(seqNo));
        && book.Book() == o.book && ok == o.ok
        && Published(ring.capacity, old(Look(ring)), Look(ring), tape)
        && seqNo == old(seqNo) + |tape|
    {
      hide OrderBook.OrderBook.Valid, OrderBook.OrderBook.Book, SpscRing.SpscRing.Valid, Published, Submit;
      hide Resting, Untimed, FillEvents, Filled;
      ghost var b, was := book.Book(), Look(ring);
      var fills;
      ok, fills := book.AddLimit(id, side, px, qty);
      PublishFills(ring, fills, seqNo);
      seqNo := seqNo + |fills|;
      ghost var mid := Look(ring);
      if ok && Filled(fills) < qty {
        var ts: nat := *;
        PublishOne(ring, OfAck(seqNo, ts, id, side, px, qty - Filled(fills)));
        PublishedMore(ring.capacity, was, mid, Look(ring), FillEvents(fills, old(seqNo)),
                      [OfAck(seqNo, 0, id, side, px, qty - Filled(fills))]);
        seqNo := seqNo + 1;
      } else {
        PublishedNothing(ring.capacity, mid);
        PublishedMore(ring.capacity, was, mid, mid, FillEvents(fills, old(seqNo)), []);
      }
    }

    /** Cancel an order: one Cancel event if it rested, nothing otherwise. */
    method Cancel(id: nat) returns (ok: bool)
      requires Valid()
      modifies this, ring, ring.storage, book.Repr()
      ensures Valid()
      ensures var o := MatchingSpec.Cancel(old(book.Book()), id);
        var tape := Emitted(book.cfg, old(book.Book()), BookRuns.Kill(id), old(seqNo));
        && book.Book() == o.book && ok == o.ok
        && Published(ring.capacity, old(Look(ring)), Look(ring), tape)
        && seqNo == old(seqNo) + |tape|
    {
      hide OrderBook.OrderBook.Valid, OrderBook.OrderBook.Book, SpscRing.SpscRing.Valid, Published, WellFormed;
      hide Untimed, Find, Remove;
      ghost var b, was := book.Book(), Look(ring);
      var side, order;
      book.NeverCrossed();
      ok, side, order := book.Cancel(id);
      if ok {
        CancelEventsAre(book.cfg, b, side, order, seqNo);
        var ts: nat := *;
        PublishOne(ring, OfCancel(seqNo, ts, order.id, side, order.price, order.qty));
        seqNo := seqNo + 1;
      } else {
        PublishedNothing(ring.capacity, was);
      }
    }
  }

  // ----- The tape over whole runs -----

  lemma ValuesUntimed(before: View, after: View, tape: seq<Event>, capacity: nat)
    requires Published(capacity, before, after, tape)
    ensures Untimed(Values(after.attempts)) == Untimed(Values(before.attempts)) + tape
  {
    var news := after.attempts[|before.attempts|..];
    assert after.attempts == before.attempts + news;
    assert Values(before.attempts + news) == Values(before.attempts) + Values(news);
    UntimedAppend(Values(before.attempts), Values(news));
  }

  /** If the tape so far rebuilds the book, it still does after the next operation. */
  lemma TapeStaysFaithful(cfg: Config, b: Book, op: BookRuns.Op, n: nat, capacity: nat, before: View, after: View)
    requires ReplayAll(EMPTY, Values(before.attempts)) == b
    requires Published(capacity, before, after, Emitted(cfg, b, op, n))
    ensures ReplayAll(EMPTY, Values(after.attempts)) == BookRuns.Step(cfg, b, op).book
  {
    hide Emitted, BookRuns.Step, Replay, Untimed, Published;
    ValuesUntimed(before, after, Emitted(cfg, b, op, n), capacity);
    ReplayUntimed(EMPTY, Values(before.attempts));
    ReplayUntimed(EMPTY, Values(after.attempts));
    ReplayAppend(EMPTY, Untimed(Values(before.attempts)), Emitted(cfg, b, op, n));
    ReplayStep(cfg, b, op, n);
  }

  lemma EmittedNumbers(cfg: Config, b: Book, op: BookRuns.Op, n: nat)
    ensures forall i :: 0 <= i < |Emitted(cfg, b, op, n)| ==> Emitted(cfg, b, op, n)[i].sequence == n + i
  {
  }

  /** Events are numbered consecutively from 0, accepted or not. */
  lemma TapeStaysNumbered(cfg: Config, b: Book, op: BookRuns.Op, capacity: nat, before: View, after: View)
    requires Numbered(before.attempts)
    requires Published(capacity, before, after, Emitted(cfg, b, op, |before.attempts|))
    ensures Numbered(after.attempts)
  {
    var n := |before.attempts|;
    var tape := Emitted(cfg, b, op, n);
    EmittedNumbers(cfg, b, op, n);
    hide Emitted;
    var news := after.attempts[n..];
    forall i | 0 <= i < |after.attempts|
      ensures after.attempts[i].value.sequence == i
    {
      if i >= n {
        assert after.attempts[i] == news[i - n];
        assert Untimed(Values(news))[i - n] == tape[i - n];
      }
    }
  }

  lemma {:induction false} EmittedRunNumbers(cfg: Config, b: Book, ops: seq<BookRuns.Op>, n: nat)
    ensures forall i :: 0 <= i < |EmittedRun(cfg, b, ops, n)| ==> EmittedRun(cfg, b, ops, n)[i].sequence == n + i
    decreases |ops|
  {
    hide Emitted, BookRuns.Step;
    if ops != [] {
      var now := Emitted(cfg, b, ops[0], n);
      EmittedNumbers(cfg, b, ops[0], n);
      EmittedRunNumbers(cfg, BookRuns.Step(cfg, b, ops[0]).book, ops[1..], n + |now|);
    }
  }

  /** The pushes attempted so far are the first events of a run from the empty book. */
  ghost predicate Publishes(cfg: Config, ops: seq<BookRuns.Op>, attempts: seq<RingProtocol.Attempt<Event>>) {
    Untimed(Values(attempts)) <= EmittedRun(cfg, EMPTY, ops, 0)
  }

  /** The publisher numbers its attempts consecutively from 0, in the middle of an operation too. */
  lemma PublishesNumbered(cfg: Config, ops: seq<BookRuns.Op>, attempts: seq<RingProtocol.Attempt<Event>>)
    requires Publishes(cfg, ops, attempts)
    ensures Numbered(attempts)
  {
    hide EmittedRun;
    EmittedRunNumbers(cfg, EMPTY, ops, 0);
    var tape := EmittedRun(cfg, EMPTY, ops, 0);
    forall i | 0 <= i < |attempts|
      ensures attempts[i].value.sequence == i
    {
      assert Untimed(Values(attempts))[i] == tape[i];
    }
  }

  method Publish(pub: TelemetryPublisher, op: BookRuns.Op)
    requires pub.Valid() && BookRuns.Allowed(pub.book.Book(), op)
    modifies pub, pub.ring, pub.ring.storage, pub.book.Repr()
    ensures pub.Valid()
    ensures var b := old(pub.book.Book());
      var tape := Emitted(pub.book.cfg, b, op, old(pub.seqNo));
      && pub.book.Book() == BookRuns.Step(pub.book.cfg, b, op).book
      && Published(pub.ring.capacity, old(Look(pub.ring)), Look(pub.ring), tape)
      && pub.seqNo == old(pub.seqNo) + |tape|
  {
    hide TelemetryPublisher.Valid, OrderBook.OrderBook.Book, Published, Resting, Emitted;
    match op
    case Add(id, side, px, qty) => var ok := pub.AddLimit(id, side, px, qty);
    case Kill(id) => var ok := pub.Cancel(id);
  }

  /**
   Driving a fresh publisher through any run: the events attempted rebuild the
   book and are numbered from 0. With a ring that dropped nothing, so do the
   events waiting in it.
   */
  method PublishRun(pub: TelemetryPublisher, ops: seq<BookRuns.Op>)
    requires pub.Valid() && pub.seqNo == 0 && pub.ring.attempts == [] && pub.book.Book() == EMPTY
    requires BookRuns.Legal(pub.book.cfg, EMPTY, ops)
    modifies pub, pub.ring, pub.ring.storage, pub.book.Repr()
    ensures pub.Valid()
    ensures pub.book.Book() == BookRuns.Run(pub.book.cfg, EMPTY, ops).0
    ensures Untimed(Values(pub.ring.attempts)) == EmittedRun(pub.book.cfg, EMPTY, ops, 0)
    ensures ReplayAll(EMPTY, Values(pub.ring.attempts)) == pub.book.Book()
    ensures Numbered(pub.ring.attempts)
    ensures RingProtocol.Rejected(pub.ring.attempts) == 0 ==>
      ReplayAll(EMPTY, pub.ring.popped + pub.ring.contents) == pub.book.Book()
  {
    hide TelemetryPublisher.Valid, OrderBook.OrderBook.Book, Published, Emitted, Replay;
    hide BookRuns.Step, BookRuns.Allowed;
    ghost var cfg := pub.book.cfg;
    assert ops[0..] == ops;
    assert Untimed(Values(pub.ring.attempts)) == [];
    for i := 0 to |ops|
      invariant pub.Valid() && pub.seqNo == |pub.ring.attempts|
      invariant BookRuns.Legal(cfg, pub.book.Book(), ops[i..])
      invariant BookRuns.Run(cfg, pub.book.Book(), ops[i..]).0 == BookRuns.Run(cfg, EMPTY, ops).0
      invariant Untimed(Values(pub.ring.attempts)) + EmittedRun(cfg, pub.book.Book(), ops[i..], pub.seqNo)
             == EmittedRun(cfg, EMPTY, ops, 0)
    {
      assert ops[i..][1..] == ops[i + 1..];
      ghost var b, before := pub.book.Book(), Look(pub.ring);
      ghost var tape := Emitted(cfg, b, ops[i], |before.attempts|);
      Publish(pub, ops[i]);
      ValuesUntimed(before, Look(pub.ring), tape, pub.ring.capacity);
      PublishedCount(pub.ring.capacity, before, Look(pub.ring), tape);
    }
    assert ops[|ops|..] == [];
    TapeOfRun(cfg, ops, pub.ring.attempts);
    AllAccepted(pub.ring.attempts);
    AcceptedInRing(pub);
  }

  lemma TapeOfRun(cfg: Config, ops: seq<BookRuns.Op>, attempts: seq<RingProtocol.Attempt<Event>>)
    requires Untimed(Values(attempts)) == EmittedRun(cfg, EMPTY, ops, 0)
    ensures ReplayAll(EMPTY, Values(attempts)) == BookRuns.Run(cfg, EMPTY, ops).0
    ensures Numbered(attempts)
  {
    ReplayUntimed(EMPTY, Values(attempts));
    ReplayRun(cfg, EMPTY, ops, 0);
    PublishesNumbered(cfg, ops, attempts);
  }

  lemma PublishedCount(capacity: nat, before: View, after: View, tape: seq<Event>)
    requires Published(capacity, before, after, tape)
    ensures |after.attempts| == |before.attempts| + |tape|
  {
  }

  lemma {:induction false} AllAccepted(attempts: seq<RingProtocol.Attempt<Event>>)
    ensures RingProtocol.Rejected(attempts) == 0 ==> RingProtocol.Accepted(attempts) == Values(attempts)
  {
    if attempts != [] {
      var n := |attempts| - 1;
      AllAccepted(attempts[..n]);
      assert Values(attempts) == Values(attempts[..n]) + [attempts[n].value];
    }
  }

  lemma AcceptedInRing(pub: TelemetryPublisher)
    requires pub.Valid()
    ensures RingProtocol.Accepted(pub.ring.attempts) == pub.ring.popped + pub.ring.contents
  {
  }
}
