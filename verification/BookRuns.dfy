/**
 Whole runs of the book: any sequence of AddLimit and Cancel calls. The
 concrete book, the priority-list book and the naive arrival-order book give
 the same reports, and quantity is conserved from the first call to the last.
 */
module BookRuns {
  import opened MatchingSpec
  import Naive = ArrivalBook
  import OrderBook

  datatype Op = Add(id: nat, side: Side, px: int, qty: nat) | Kill(id: nat)

  /** What a caller sees of one operation; gone is the quantity cancelled or dropped. */
  datatype Report = Report(ok: bool, fills: seq<Fill>, gone: nat)

  function Step(cfg: Config, b: Book, op: Op): Outcome {
    match op
    case Add(id, side, px, qty) => Submit(cfg, b, id, side, px, qty)
    case Kill(id) => Cancel(b, id)
  }

  /** The contract of the book: quantities are positive and a submitted id is not resting. */
  ghost predicate Allowed(b: Book, op: Op) {
    op.Add? ==> op.qty > 0 && !Resting(b, op.id)
  }

  ghost predicate Legal(cfg: Config, b: Book, ops: seq<Op>)
    decreases |ops|
  {
    ops == [] || (Allowed(b, ops[0]) && Legal(cfg, Step(cfg, b, ops[0]).book, ops[1..]))
  }

  function Run(cfg: Config, b: Book, ops: seq<Op>): (Book, seq<Report>)
    decreases |ops|
  {
    if ops == [] then (b, []) else
      var o := Step(cfg, b, ops[0]);
      var r := Run(cfg, o.book, ops[1..]);
      (r.0, [Report(o.ok, o.fills, o.gone)] + r.1)
  }

  lemma StepKeeps(cfg: Config, b: Book, op: Op)
    requires WellFormed(cfg, b) && Allowed(b, op)
    ensures WellFormed(cfg, Step(cfg, b, op).book)
  {
    match op
    case Add(id, side, px, qty) => SubmitKeeps(cfg, b, id, side, px, qty);
    case Kill(id) => CancelKeeps(cfg, b, id);
  }

  /** After every run: both sides sorted, ids unique, never crossed, within band and capacity. */
  lemma {:induction false} RunKeeps(cfg: Config, b: Book, ops: seq<Op>)
    requires WellFormed(cfg, b) && Legal(cfg, b, ops)
    ensures WellFormed(cfg, Run(cfg, b, ops).0)
    decreases |ops|
  {
    if ops != [] {
      StepKeeps(cfg, b, ops[0]);
      RunKeeps(cfg, Step(cfg, b, ops[0]).book, ops[1..]);
    }
  }

  /** After an operation only orders rest that rested before, and the one submitted. */
  lemma StepIds(cfg: Config, b: Book, op: Op, id: nat)
    requires WellFormed(cfg, b) && Resting(Step(cfg, b, op).book, id)
    ensures Resting(b, id) || (op.Add? && op.id == id)
  {
    match op
    case Add(taker, side, px, qty) => SubmitIds(cfg, b, taker, side, px, qty, id);
    case Kill(other) => CancelIds(b, other, id);
  }

  lemma SubmitIds(cfg: Config, b: Book, taker: nat, side: Side, px: int, qty: nat, id: nat)
    requires WellFormed(cfg, b) && Resting(Submit(cfg, b, taker, side, px, qty).book, id)
    ensures Resting(b, id) || taker == id
  {
    MatchKeeps(cfg, b, taker, side, px, qty);
    var m := Match(taker, side, px, qty, b.Of(side.Opposite()));
    if taker != id {
      InsertOnly(side, b.Of(side), Entry(taker, px, m.left), id);
    }
    hide Match, Insert, WellFormed, Has;
    assert Resting(b.With(side.Opposite(), m.makers), id) ==> Resting(b, id);
  }

  lemma InsertOnly(side: Side, list: seq<Entry>, e: Entry, id: nat)
    requires e.id != id
    ensures Has(Insert(side, list, e), id) ==> Has(list, id)
  {
    InsertContents(side, list, e);
    hide Insert;
  }

  lemma CancelIds(b: Book, other: nat, id: nat)
    requires Resting(Cancel(b, other).book, id)
    ensures Resting(b, id)
  {
    if Has(b.bids, other) {
      RemoveContents(b.bids, other);
    } else if Has(b.asks, other) {
      RemoveContents(b.asks, other);
    }
    hide Remove;
  }

  /** Any submissions of positive quantities under ids never used before, and any cancels at all, are a legal run. */
  lemma {:induction false} NewIdsAreLegal(cfg: Config, b: Book, ops: seq<Op>)
    requires WellFormed(cfg, b)
    requires forall i :: 0 <= i < |ops| && ops[i].Add? ==>
      && ops[i].qty > 0 && !Resting(b, ops[i].id)
      && forall j :: 0 <= j < i && ops[j].Add? ==> ops[j].id != ops[i].id
    ensures Legal(cfg, b, ops)
    decreases |ops|
  {
    hide WellFormed, Resting, Step;
    if ops != [] {
      var b', rest := Step(cfg, b, ops[0]).book, ops[1..];
      StepKeeps(cfg, b, ops[0]);
      forall i | 0 <= i < |rest| && rest[i].Add?
        ensures rest[i].qty > 0 && !Resting(b', rest[i].id)
        ensures forall j :: 0 <= j < i && rest[j].Add? ==> rest[j].id != rest[i].id
      {
        assert rest[i] == ops[i + 1];
        if Resting(b', rest[i].id) {
          StepIds(cfg, b, ops[0], rest[i].id);
        }
        assert forall j :: 0 <= j < i ==> rest[j] == ops[j + 1];
      }
      NewIdsAreLegal(cfg, b', rest);
    }
  }

  // ----- Failure and conservation -----

  /** The book between matching a taker and resting what is left of it. */
  function AfterMatch(b: Book, id: nat, side: Side, px: int, qty: nat): Book {
    b.With(side.Opposite(), Match(id, side, px, qty, b.Of(side.Opposite())).makers)
  }

  /** A submission fails exactly when it is not filled and its price is out of band or the slab is full. */
  lemma SubmitFails(cfg: Config, b: Book, id: nat, side: Side, px: int, qty: nat)
    ensures var o := Submit(cfg, b, id, side, px, qty);
      var b' := AfterMatch(b, id, side, px, qty);
      && (!o.ok <==>
        Filled(o.fills) < qty && (px < cfg.minPx || px > cfg.maxPx || |b'.bids| + |b'.asks| >= cfg.capacity))
      && Filled(o.fills) <= qty
      && o.gone == (if o.ok then 0 else qty - Filled(o.fills))
  {
    MatchConserves(id, side, px, qty, b.Of(side.Opposite()));
  }

  function RestingQty(b: Book): nat {
    Depth(b.bids) + Depth(b.asks)
  }

  function Sent(op: Op): nat {
    if op.Add? then op.qty else 0
  }

  /** A fill takes one unit from the taker and one from a maker; everything else rests or is reported gone. */
  lemma StepConserves(cfg: Config, b: Book, op: Op)
    ensures var o := Step(cfg, b, op);
      RestingQty(b) + Sent(op) == RestingQty(o.book) + 2 * Filled(o.fills) + o.gone
  {
    hide Submit, Cancel;
    match op
    case Add(id, side, px, qty) => SubmitConserves(cfg, b, id, side, px, qty);
    case Kill(id) => CancelConserves(b, id);
  }

  lemma SubmitConserves(cfg: Config, b: Book, id: nat, side: Side, px: int, qty: nat)
    ensures var o := Submit(cfg, b, id, side, px, qty);
      RestingQty(b) + qty == RestingQty(o.book) + 2 * Filled(o.fills) + o.gone
  {
    hide Match, Insert, Depth, Filled;
    MatchConserves(id, side, px, qty, b.Of(side.Opposite()));
    var m := Match(id, side, px, qty, b.Of(side.Opposite()));
    InsertContents(side, b.Of(side), Entry(id, px, m.left));
  }

  lemma CancelConserves(b: Book, id: nat)
    ensures var o := Cancel(b, id);
      RestingQty(b) == RestingQty(o.book) + 2 * Filled(o.fills) + o.gone
  {
    hide Remove, Has, Depth;
    if Has(b.bids, id) {
      RemoveContents(b.bids, id);
    } else if Has(b.asks, id) {
      RemoveContents(b.asks, id);
    }
  }

  function TotalSent(ops: seq<Op>): nat {
    if ops == [] then 0 else Sent(ops[0]) + TotalSent(ops[1..])
  }

  function TotalFilled(reports: seq<Report>): nat {
    if reports == [] then 0 else Filled(reports[0].fills) + TotalFilled(reports[1..])
  }

  function TotalGone(reports: seq<Report>): nat {
    if reports == [] then 0 else reports[0].gone + TotalGone(reports[1..])
  }

  /** Submitted quantity == 2 x filled + still resting + cancelled + dropped, over any run. */
  lemma {:induction false} RunConserves(cfg: Config, b: Book, ops: seq<Op>)
    ensures var (b', reports) := Run(cfg, b, ops);
      RestingQty(b) + TotalSent(ops) == 2 * TotalFilled(reports) + RestingQty(b') + TotalGone(reports)
    decreases |ops|
  {
    if ops != [] {
      var o := Step(cfg, b, ops[0]);
      StepConserves(cfg, b, ops[0]);
      RunConserves(cfg, o.book, ops[1..]);
      assert Run(cfg, b, ops).1[1..] == Run(cfg, o.book, ops[1..]).1;
    }
  }

  // ----- The naive book -----

  function NaiveStep(cfg: Config, a: seq<Naive.Arrival>, op: Op): Naive.Result {
    match op
    case Add(id, side, px, qty) => Naive.Submit(cfg, a, id, side, px, qty)
    case Kill(id) => Naive.Cancel(a, id)
  }

  function NaiveRun(cfg: Config, a: seq<Naive.Arrival>, ops: seq<Op>): (seq<Naive.Arrival>, seq<Report>)
    decreases |ops|
  {
    if ops == [] then (a, []) else
      var o := NaiveStep(cfg, a, ops[0]);
      var r := NaiveRun(cfg, o.book, ops[1..]);
      (r.0, [Report(o.ok, o.fills, o.gone)] + r.1)
  }

  /** Ids of the naive book stay distinct under the contract. */
  lemma NaiveStepDistinct(cfg: Config, a: seq<Naive.Arrival>, op: Op)
    requires Naive.Distinct(a) && Allowed(Naive.Sorted(a), op)
    ensures Naive.Distinct(NaiveStep(cfg, a, op).book)
  {
    match op
    case Add(id, side, px, qty) =>
      Naive.FreshIsAbsent(a, id);
      Naive.SweepDistinct(a, id, side, px, qty);
    case Kill(id) =>
  }

  lemma NaiveStepAgrees(cfg: Config, a: seq<Naive.Arrival>, op: Op)
    requires Naive.Distinct(a)
    ensures var r := NaiveStep(cfg, a, op);
      Step(cfg, Naive.Sorted(a), op) == Outcome(Naive.Sorted(r.book), r.ok, r.fills, r.gone)
  {
    match op
    case Add(id, side, px, qty) => Naive.SubmitAgrees(cfg, a, id, side, px, qty);
    case Kill(id) => Naive.CancelAgrees(a, id);
  }

  /** Over any run the naive arrival-order book reports the same and holds the same orders. */
  lemma {:induction false} NaiveRunAgrees(cfg: Config, a: seq<Naive.Arrival>, ops: seq<Op>)
    requires Naive.Distinct(a) && Legal(cfg, Naive.Sorted(a), ops)
    ensures var (a', reports) := NaiveRun(cfg, a, ops);
      Run(cfg, Naive.Sorted(a), ops) == (Naive.Sorted(a'), reports)
    decreases |ops|
  {
    if ops != [] {
      NaiveStepAgrees(cfg, a, ops[0]);
      NaiveStepDistinct(cfg, a, ops[0]);
      NaiveRunAgrees(cfg, NaiveStep(cfg, a, ops[0]).book, ops[1..]);
    }
  }

  /** What the naive book, starting empty, ends up holding in priority order, and all it reports. */
  function NaiveOutcome(cfg: Config, ops: seq<Op>): (Book, seq<Report>) {
    var (a, reports) := NaiveRun(cfg, [], ops);
    (Naive.Sorted(a), reports)
  }

  lemma NaiveFromEmpty(cfg: Config, b: Book, ops: seq<Op>)
    requires Legal(cfg, b, ops)
    ensures b == EMPTY ==> Run(cfg, b, ops) == NaiveOutcome(cfg, ops)
  {
    if b == EMPTY {
      NaiveRunAgrees(cfg, [], ops);
    }
  }

  // ----- The concrete book -----

  method Apply(book: OrderBook.OrderBook, op: Op) returns (report: Report)
    requires book.Valid() && Allowed(book.Book(), op)
    modifies book.Repr()
    ensures book.Valid()
    ensures var o := Step(book.cfg, old(book.Book()), op);
      book.Book() == o.book && report == Report(o.ok, o.fills, o.gone)
  {
    hide OrderBook.OrderBook.Valid, OrderBook.OrderBook.Book, Submit, Cancel, Filled, Match;
    match op
    case Add(id, side, px, qty) =>
      SubmitFails(book.cfg, book.Book(), id, side, px, qty);
      var ok, fills := book.AddLimit(id, side, px, qty);
      report := Report(ok, fills, if ok then 0 else qty - Filled(fills));
    case Kill(id) =>
      CancelReports(book.Book(), id);
      var ok, side, order := book.Cancel(id);
      report := Report(ok, [], if ok then order.qty else 0);
  }

  lemma CancelReports(b: Book, id: nat)
    ensures Cancel(b, id).fills == [] && (!Cancel(b, id).ok ==> Cancel(b, id).gone == 0)
  {
  }

  lemma RunFrom(cfg: Config, b: Book, ops: seq<Op>, i: nat)
    requires i < |ops| && Legal(cfg, b, ops[i..])
    ensures Allowed(b, ops[i])
    ensures var o := Step(cfg, b, ops[i]);
      && Legal(cfg, o.book, ops[i + 1..])
      && var rest := Run(cfg, o.book, ops[i + 1..]);
        Run(cfg, b, ops[i..]) == (rest.0, [Report(o.ok, o.fills, o.gone)] + rest.1)
  {
    hide Step, Allowed;
    assert ops[i..][0] == ops[i] && ops[i..][1..] == ops[i + 1..];
  }

  lemma RunNothing(cfg: Config, b: Book)
    ensures Run(cfg, b, []) == (b, [])
  {
  }

  /** Driving the concrete book through a run gives the abstract and the naive book's reports and orders. */
  method Drive(book: OrderBook.OrderBook, ops: seq<Op>) returns (reports: seq<Report>)
    requires book.Valid() && Legal(book.cfg, book.Book(), ops)
    modifies book.Repr()
    ensures book.Valid()
    ensures (book.Book(), reports) == Run(book.cfg, old(book.Book()), ops)
    ensures old(book.Book()) == EMPTY ==> (book.Book(), reports) == NaiveOutcome(book.cfg, ops)
  {
    hide *;
    ghost var cfg, b := book.cfg, book.Book();
    NaiveFromEmpty(cfg, b, ops);
    ghost var all := Run(cfg, b, ops);
    reports := [];
    assert ops[0..] == ops && [] + all.1 == all.1;
    for i := 0 to |ops|
      invariant book.Valid() && book.Book() == b && Legal(cfg, b, ops[i..])
      invariant all == (Run(cfg, b, ops[i..]).0, reports + Run(cfg, b, ops[i..]).1)
    {
      RunFrom(cfg, b, ops, i);
      ghost var rest := Run(cfg, b, ops[i..]).1;
      var report := Apply(book, ops[i]);
      b := Step(cfg, b, ops[i]).book;
      assert reports + rest == (reports + [report]) + Run(cfg, b, ops[i + 1..]).1;
      reports := reports + [report];
    }
    assert ops[|ops|..] == [] && reports + [] == reports;
    RunNothing(cfg, b);
  }
}
