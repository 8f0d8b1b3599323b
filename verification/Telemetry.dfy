/**
 Telemetry events, what each book operation puts on the tape, and the two
 promises of the tape: replaying it rebuilds the book, and its sequence
 numbers reveal how many events were lost.
 */
module Telemetry {
  import opened MatchingSpec
  import RingProtocol
  import BookRuns

  datatype EventKind = FillKind | CancelKind | AckKind

  datatype Event = Event(kind: EventKind, side: Side, sequence: nat, timestamp: nat,
                         orderId: nat, counterId: nat, price: int, qty: nat)

  function OfFill(sequence: nat, timestamp: nat, f: Fill): Event {
    Event(FillKind, f.takerSide, sequence, timestamp, f.takerId, f.makerId, f.price, f.qty)
  }

  function OfCancel(sequence: nat, timestamp: nat, id: nat, side: Side, price: int, residual: nat): Event {
    Event(CancelKind, side, sequence, timestamp, id, 0, price, residual)
  }

  function OfAck(sequence: nat, timestamp: nat, id: nat, side: Side, price: int, qty: nat): Event {
    Event(AckKind, side, sequence, timestamp, id, 0, price, qty)
  }

  // ----- What an operation emits -----

  /** Timestamps are opaque clock readings; tapes are compared without them. */
  function Untimed(tape: seq<Event>): (u: seq<Event>)
    ensures |u| == |tape|
  {
    seq(|tape|, i requires 0 <= i < |tape| => tape[i].(timestamp := 0))
  }

  lemma UntimedAppend(a: seq<Event>, b: seq<Event>)
    ensures Untimed(a + b) == Untimed(a) + Untimed(b)
  {
  }

  function FillEvents(fills: seq<Fill>, n: nat): (tape: seq<Event>)
    ensures |tape| == |fills|
  {
    seq(|fills|, i requires 0 <= i < |fills| => OfFill(n + i, 0, fills[i]))
  }

  /** One Fill per maker, then an Ack exactly if a residual rests. */
  function SubmitEvents(o: Outcome, id: nat, side: Side, px: int, qty: nat, n: nat): seq<Event> {
    FillEvents(o.fills, n) +
    if o.ok && Filled(o.fills) < qty then [OfAck(n + |o.fills|, 0, id, side, px, qty - Filled(o.fills))] else []
  }

  /** One Cancel with the resting side, price and residual exactly if the id rests. */
  function CancelEvents(b: Book, id: nat, n: nat): seq<Event> {
    if Has(b.bids, id) then
      var e := b.bids[Find(b.bids, id)]; [OfCancel(n, 0, id, Buy, e.price, e.qty)]
    else if Has(b.asks, id) then
      var e := b.asks[Find(b.asks, id)]; [OfCancel(n, 0, id, Sell, e.price, e.qty)]
    else []
  }

  function Emitted(cfg: Config, b: Book, op: BookRuns.Op, n: nat): seq<Event> {
    match op
    case Add(id, side, px, qty) => SubmitEvents(BookRuns.Step(cfg, b, op), id, side, px, qty, n)
    case Kill(id) => CancelEvents(b, id, n)
  }

  // ----- What the events say -----

  /**
   The fill events of a submission, field by field: event i names the taker,
   maker i of the opposite side, its resting price and the quantity reported.
   */
  lemma FillEventsTell(cfg: Config, b: Book, id: nat, side: Side, px: int, qty: nat, n: nat)
    requires WellFormed(cfg, b)
    ensures var fills := Submit(cfg, b, id, side, px, qty).fills;
      var tape, makers := Emitted(cfg, b, BookRuns.Add(id, side, px, qty), n), b.Of(side.Opposite());
      && |fills| <= |makers| && |fills| <= |tape|
      && (forall i :: 0 <= i < |fills| ==>
        && tape[i] == Event(FillKind, side, n + i, 0, id, makers[i].id, makers[i].price, fills[i].qty)
        && fills[i] == Fill(makers[i].id, id, makers[i].price, fills[i].qty, side)
        && 0 < fills[i].qty <= makers[i].qty)
  {
    hide Match, Insert, Filled, WellFormed;
    var makers := b.Of(side.Opposite());
    BothRestable(cfg, b);
    MatchFillsInOrder(id, side, px, qty, makers);
    SubmitReportsMatch(cfg, b, id, side, px, qty);
    hide Submit;
    var fills := Submit(cfg, b, id, side, px, qty).fills;
    var tape := Emitted(cfg, b, BookRuns.Add(id, side, px, qty), n);
    forall i | 0 <= i < |fills|
      ensures tape[i] == Event(FillKind, side, n + i, 0, id, makers[i].id, makers[i].price, fills[i].qty)
      ensures fills[i] == Fill(makers[i].id, id, makers[i].price, fills[i].qty, side)
    {
      assert tape[i] == FillEvents(fills, n)[i];
    }
  }

  lemma SubmitReportsMatch(cfg: Config, b: Book, id: nat, side: Side, px: int, qty: nat)
    ensures Submit(cfg, b, id, side, px, qty).fills == Match(id, side, px, qty, b.Of(side.Opposite())).fills
  {
    hide Match, Insert;
  }

  /** After them an Ack, exactly if a residual was accepted: it says what now rests. */
  lemma AckTells(cfg: Config, b: Book, id: nat, side: Side, px: int, qty: nat, n: nat)
    ensures var o := Submit(cfg, b, id, side, px, qty);
      var tape, residual := Emitted(cfg, b, BookRuns.Add(id, side, px, qty), n), qty - Filled(o.fills);
      && residual >= 0
      && if o.ok && residual > 0 then
        && |tape| == |o.fills| + 1
        && tape[|o.fills|] == Event(AckKind, side, n + |o.fills|, 0, id, 0, px, residual)
        && Entry(id, px, residual) in o.book.Of(side)
      else
        |tape| == |o.fills|
  {
    ResidualRests(cfg, b, id, side, px, qty);
    hide Submit, Filled;
    var o := Submit(cfg, b, id, side, px, qty);
    var tape := Emitted(cfg, b, BookRuns.Add(id, side, px, qty), n);
    assert tape == SubmitEvents(o, id, side, px, qty, n);
    hide Emitted, FillEvents;
  }

  lemma BothRestable(cfg: Config, b: Book)
    requires WellFormed(cfg, b)
    ensures Restable(cfg, b.bids) && Restable(cfg, b.asks)
  {
  }

  /** The event of a cancel, field by field; nothing for an id that does not rest. */
  lemma CancelEventTells(cfg: Config, b: Book, id: nat, n: nat)
    requires WellFormed(cfg, b)
    ensures !Resting(b, id) ==> Emitted(cfg, b, BookRuns.Kill(id), n) == []
    ensures forall side, k :: 0 <= k < |b.Of(side)| && b.Of(side)[k].id == id ==>
      Emitted(cfg, b, BookRuns.Kill(id), n)
      == [Event(CancelKind, side, n, 0, id, 0, b.Of(side)[k].price, b.Of(side)[k].qty)]
  {
    forall side, k | 0 <= k < |b.Of(side)| && b.Of(side)[k].id == id
      ensures Emitted(cfg, b, BookRuns.Kill(id), n)
           == [Event(CancelKind, side, n, 0, id, 0, b.Of(side)[k].price, b.Of(side)[k].qty)]
    {
      hide WellFormed;
      CancelEventsAre(cfg, b, side, b.Of(side)[k], n);
    }
  }

  /** Comparing tapes without times compares everything else. */
  lemma UntimedKeepsRest(a: seq<Event>, b: seq<Event>)
    requires Untimed(a) == Untimed(b)
    ensures |a| == |b|
    ensures forall i :: 0 <= i < |a| ==>
      && a[i].kind == b[i].kind && a[i].side == b[i].side && a[i].sequence == b[i].sequence
      && a[i].orderId == b[i].orderId && a[i].counterId == b[i].counterId
      && a[i].price == b[i].price && a[i].qty == b[i].qty
  {
    forall i | 0 <= i < |a|
      ensures a[i].(timestamp := 0) == b[i].(timestamp := 0)
    {
      assert Untimed(a)[i] == Untimed(b)[i];
    }
  }

  // ----- Replay -----

  /** Take qty units off the resting order id, wherever it is; drop it when spent. */
  function Deplete(list: seq<Entry>, id: nat, qty: nat): seq<Entry> {
    if list == [] then []
    else if list[0].id == id then
      if qty < list[0].qty then [list[0].(qty := list[0].qty - qty)] + list[1..] else list[1..]
    else [list[0]] + Deplete(list[1..], id, qty)
  }

  function Replay(b: Book, e: Event): Book {
    match e.kind
    case FillKind => b.With(e.side.Opposite(), Deplete(b.Of(e.side.Opposite()), e.counterId, e.qty))
    case AckKind => b.With(e.side, Insert(e.side, b.Of(e.side), Entry(e.orderId, e.price, e.qty)))
    case CancelKind => b.With(e.side, Remove(b.Of(e.side), e.orderId))
  }

  function ReplayAll(b: Book, tape: seq<Event>): Book
    decreases |tape|
  {
    if tape == [] then b else ReplayAll(Replay(b, tape[0]), tape[1..])
  }

  lemma {:induction false} ReplayAppend(b: Book, a: seq<Event>, z: seq<Event>)
    ensures ReplayAll(b, a + z) == ReplayAll(ReplayAll(b, a), z)
    decreases |a|
  {
    hide Replay;
    if a == [] {
      assert a + z == z;
    } else {
      ReplayAppend(Replay(b, a[0]), a[1..], z);
      assert (a + z)[1..] == a[1..] + z;
    }
  }

  lemma {:induction false} ReplayUntimed(b: Book, tape: seq<Event>)
    ensures ReplayAll(b, Untimed(tape)) == ReplayAll(b, tape)
    decreases |tape|
  {
    if tape != [] {
      ReplayUntimed(Replay(b, tape[0]), tape[1..]);
      assert Untimed(tape)[1..] == Untimed(tape[1..]);
      assert Untimed(tape)[0] == tape[0].(timestamp := 0);
    }
  }

  lemma FirstFillEvent(fills: seq<Fill>, n: nat)
    requires fills != []
    ensures FillEvents(fills, n)[0] == OfFill(n, 0, fills[0])
    ensures FillEvents(fills, n)[1..] == FillEvents(fills[1..], n + 1)
  {
  }

  /** Replaying the fills of a match does to the maker side what the match did. */
  lemma {:induction false} ReplayFills(b: Book, taker: nat, side: Side, px: int, qty: nat, n: nat)
    ensures var makers := side.Opposite();
      var m := Match(taker, side, px, qty, b.Of(makers));
      ReplayAll(b, FillEvents(m.fills, n)) == b.With(makers, m.makers)
    decreases |b.Of(side.Opposite())|
  {
    var makers := side.Opposite();
    var list := b.Of(makers);
    var m := Match(taker, side, px, qty, list);
    if m.fills != [] {
      var f := m.fills[0];
      var b' := Replay(b, OfFill(n, 0, f));
      FirstFillEvent(m.fills, n);
      hide FillEvents;
      if qty >= list[0].qty {
        assert b' == b.With(makers, list[1..]);
        ReplayFills(b', taker, side, px, qty - list[0].qty, n + 1);
      } else {
        assert m.fills[1..] == [];
      }
    }
  }

  /** The tape of one operation, replayed over the book before it, gives the book after it. */
  lemma ReplayStep(cfg: Config, b: Book, op: BookRuns.Op, n: nat)
    ensures ReplayAll(b, Emitted(cfg, b, op, n)) == BookRuns.Step(cfg, b, op).book
  {
    hide SubmitEvents, CancelEvents, Submit, Cancel, ReplayAll;
    match op
    case Add(id, side, px, qty) => ReplaySubmit(cfg, b, id, side, px, qty, n);
    case Kill(id) => ReplayCancel(b, id, n);
  }

  lemma ReplaySubmit(cfg: Config, b: Book, id: nat, side: Side, px: int, qty: nat, n: nat)
    ensures var o := Submit(cfg, b, id, side, px, qty);
      ReplayAll(b, SubmitEvents(o, id, side, px, qty, n)) == o.book
  {
    hide Match, Insert, FillEvents, Filled, ReplayAll;
    var o := Submit(cfg, b, id, side, px, qty);
    var m := Match(id, side, px, qty, b.Of(side.Opposite()));
    ReplayFills(b, id, side, px, qty, n);
    MatchConserves(id, side, px, qty, b.Of(side.Opposite()));
    var ack := if m.left > 0 && o.ok then [OfAck(n + |m.fills|, 0, id, side, px, m.left)] else [];
    ReplayAppend(b, FillEvents(m.fills, n), ack);
    if m.left > 0 && o.ok {
      ReplayOne(b.With(side.Opposite(), m.makers), ack[0]);
    } else {
      ReplayNone(b.With(side.Opposite(), m.makers));
    }
  }

  lemma ReplayNone(b: Book)
    ensures ReplayAll(b, []) == b
  {
  }

  lemma ReplayCancel(b: Book, id: nat, n: nat)
    ensures ReplayAll(b, CancelEvents(b, id, n)) == Cancel(b, id).book
  {
    hide Has, Remove, ReplayAll;
    if CancelEvents(b, id, n) != [] {
      ReplayOne(b, CancelEvents(b, id, n)[0]);
    } else {
      ReplayNone(b);
    }
  }

  lemma ReplayOne(b: Book, e: Event)
    ensures ReplayAll(b, [e]) == Replay(b, e)
  {
    assert [e][1..] == [];
  }

  /** A Cancel event carries exactly the side, price and residual the replayed book holds for its id. */
  lemma CancelCarriesResidual(cfg: Config, b: Book, id: nat, n: nat)
    requires WellFormed(cfg, b) && Resting(b, id)
    ensures |CancelEvents(b, id, n)| == 1
    ensures var e := CancelEvents(b, id, n)[0];
      && e.orderId == id && Entry(id, e.price, e.qty) in b.Of(e.side)
      && e.qty == Cancel(b, id).gone
      && forall side, k :: 0 <= k < |b.Of(side)| && b.Of(side)[k].id == id ==>
        side == e.side && b.Of(side)[k] == Entry(id, e.price, e.qty)
  {
    if Has(b.bids, id) {
      assert b.bids[Find(b.bids, id)] in b.bids;
    } else {
      assert b.asks[Find(b.asks, id)] in b.asks;
    }
  }

  lemma CancelEventsAre(cfg: Config, b: Book, side: Side, order: Entry, n: nat)
    requires WellFormed(cfg, b) && order in b.Of(side)
    ensures CancelEvents(b, order.id, n) == [OfCancel(n, 0, order.id, side, order.price, order.qty)]
  {
    var k :| 0 <= k < |b.Of(side)| && b.Of(side)[k] == order;
    CancelCarriesResidual(cfg, b, order.id, n);
  }

  function EmittedRun(cfg: Config, b: Book, ops: seq<BookRuns.Op>, n: nat): seq<Event>
    decreases |ops|
  {
    if ops == [] then [] else
      var now := Emitted(cfg, b, ops[0], n);
      now + EmittedRun(cfg, BookRuns.Step(cfg, b, ops[0]).book, ops[1..], n + |now|)
  }

  /** The tape of any run, replayed over the starting book, gives the final book. */
  lemma {:induction false} ReplayRun(cfg: Config, b: Book, ops: seq<BookRuns.Op>, n: nat)
    ensures ReplayAll(b, EmittedRun(cfg, b, ops, n)) == BookRuns.Run(cfg, b, ops).0
    decreases |ops|
  {
    hide Emitted, BookRuns.Step, Replay;
    if ops != [] {
      var now := Emitted(cfg, b, ops[0], n);
      var b' := BookRuns.Step(cfg, b, ops[0]).book;
      ReplayStep(cfg, b, ops[0], n);
      ReplayAppend(b, now, EmittedRun(cfg, b', ops[1..], n + |now|));
      ReplayRun(cfg, b', ops[1..], n + |now|);
    }
  }

  // ----- Gap detection -----

  /** Pushes were numbered from 0 in the order they were attempted. */
  ghost predicate Numbered(attempts: seq<RingProtocol.Attempt<Event>>) {
    forall i :: 0 <= i < |attempts| ==> attempts[i].value.sequence == i
  }

  /** The last accepted attempt; -1 if there is none. */
  function LastAccepted(attempts: seq<RingProtocol.Attempt<Event>>): (k: int)
    ensures -1 <= k < |attempts|
    ensures k >= 0 ==> attempts[k].accepted
    ensures forall j :: k < j < |attempts| ==> !attempts[j].accepted
  {
    if attempts == [] then -1
    else if attempts[|attempts| - 1].accepted then |attempts| - 1
    else LastAccepted(attempts[..|attempts| - 1])
  }

  /** The tape's numbers strictly increase and end with that of the last accepted push. */
  lemma {:induction false} TapeNumbers(attempts: seq<RingProtocol.Attempt<Event>>)
    requires Numbered(attempts)
    ensures var tape := RingProtocol.Accepted(attempts);
      && (forall i, j :: 0 <= i < j < |tape| ==> tape[i].sequence < tape[j].sequence)
      && (forall i :: 0 <= i < |tape| ==> tape[i].sequence <= LastAccepted(attempts))
      && (tape != [] ==> tape[|tape| - 1].sequence == LastAccepted(attempts))
      && (tape == [] <==> LastAccepted(attempts) == -1)
  {
    if attempts != [] {
      TapeNumbers(attempts[..|attempts| - 1]);
    }
  }

  lemma {:induction false} RejectedAfterLast(attempts: seq<RingProtocol.Attempt<Event>>)
    ensures var k := LastAccepted(attempts);
      && RingProtocol.Rejected(attempts) == RingProtocol.Rejected(attempts[..k + 1]) + (|attempts| - (k + 1))
      && RingProtocol.Accepted(attempts) == RingProtocol.Accepted(attempts[..k + 1])
  {
    var k := LastAccepted(attempts);
    if attempts != [] && k < |attempts| - 1 {
      RejectedAfterLast(attempts[..|attempts| - 1]);
      assert attempts[..|attempts| - 1][..k + 1] == attempts[..k + 1];
    } else {
      assert attempts[..k + 1] == attempts;
    }
  }

  /**
   On a tape whose first push was accepted, 1 + last - first - count is the
   number of events dropped before the last delivered one: never more than all
   drops, and all of them exactly when the last push was accepted.
   */
  lemma GapCountsDrops(attempts: seq<RingProtocol.Attempt<Event>>)
    requires Numbered(attempts) && attempts != [] && attempts[0].accepted
    ensures var tape := RingProtocol.Accepted(attempts);
      && tape != [] && tape[0].sequence == 0
      && var gap := 1 + tape[|tape| - 1].sequence - tape[0].sequence - |tape|;
      && gap == RingProtocol.Rejected(attempts[..LastAccepted(attempts) + 1])
      && 0 <= gap <= RingProtocol.Rejected(attempts)
      && (gap == RingProtocol.Rejected(attempts) <==> attempts[|attempts| - 1].accepted)
  {
    var k := LastAccepted(attempts);
    TapeNumbers(attempts);
    FirstDelivered(attempts);
    RejectedAfterLast(attempts);
    RingProtocol.AttemptsSplit(attempts[..k + 1]);
  }

  lemma {:induction false} FirstDelivered(attempts: seq<RingProtocol.Attempt<Event>>)
    requires attempts != [] && attempts[0].accepted
    ensures RingProtocol.Accepted(attempts) != [] && RingProtocol.Accepted(attempts)[0] == attempts[0].value
  {
    if |attempts| > 1 {
      FirstDelivered(attempts[..|attempts| - 1]);
    } else {
      assert attempts[..0] == [];
    }
  }

  /** Gap detection holds for the drained ring in every interleaving of producer and consumer. */
  lemma GapDetection(k: nat, trace: seq<RingProtocol.Ring<Event>>, i: nat)
    requires k < 64 && RingProtocol.Run(k, trace) && i < |trace|
    requires trace[i].r == trace[i].w && trace[i].attempts != [] && Numbered(trace[i].attempts)
    ensures var tape, attempts := trace[i].popped, trace[i].attempts;
      && tape != [] && tape[0].sequence == 0
      && (forall a, b :: 0 <= a < b < |tape| ==> tape[a].sequence < tape[b].sequence)
      && var gap := 1 + tape[|tape| - 1].sequence - tape[0].sequence - |tape|;
      && gap == RingProtocol.Rejected(attempts[..LastAccepted(attempts) + 1])
      && 0 <= gap <= RingProtocol.Rejected(attempts)
      && (gap == RingProtocol.Rejected(attempts) <==> attempts[|attempts| - 1].accepted)
  {
    RingProtocol.FirstAccepted(k, trace, i);
    RingProtocol.DrainedIsAll(k, trace, i);
    GapCountsDrops(trace[i].attempts);
    TapeNumbers(trace[i].attempts);
  }
}
