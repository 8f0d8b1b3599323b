/**
 The seeded episode machine as functions on a value: what one step, one reset
 and one episode do. Actions are reals, arithmetic is exact, and the generator
 is an arbitrary transition function on its state.
 */
module SimSpec {
  import opened MatchingSpec
  import opened Rounding

  const BOOK_CAPACITY: nat := 8192
  const MIN_PX := 0
  const MAX_PX := 16383
  const LIFETIME: nat := 3
  const BURST: nat := 12
  const PHI: real := 1.0
  const KAPPA: real := 1000.0

  const BOOK_CFG := Config(BOOK_CAPACITY, MIN_PX, MAX_PX)

  /** Parent quantity and horizon (both at least 1), arrival mid, and the generator's transition. */
  datatype Setup = Setup(parentQty: nat, horizon: nat, mid: int, draw: nat -> nat)

  datatype Env = Env(
    book: Book, rng: nat,
    remaining: nat, stepIdx: nat, qtyFilled: nat, cash: int, done: bool, nextId: nat,
    restingIds: seq<nat>, bgIds: seq<nat>, bgBirth: seq<nat>, bgHead: nat)

  function Seeded(seed: nat): nat {
    if seed != 0 then seed else 1
  }

  function Initial(s: Setup, seed: nat): Env {
    Env(EMPTY, Seeded(seed), s.parentQty, 0, 0, 0, false, 1, [], [], [], 0)
  }

  // ----- Reset -----

  function CancelAll(b: Book, ids: seq<nat>): Book
    decreases |ids|
  {
    if ids == [] then b else CancelAll(Cancel(b, ids[0]).book, ids[1..])
  }

  function Reset(s: Setup, e: Env, seed: nat): Env {
    Env(CancelAll(e.book, e.restingIds), Seeded(seed), s.parentQty, 0, 0, 0, false, 1, [], [], [], 0)
  }

  // ----- Liquidity churn -----

  predicate Expired(e: Env) {
    e.bgHead < |e.bgIds| && e.bgHead < |e.bgBirth| && e.bgBirth[e.bgHead] + LIFETIME <= e.stepIdx
  }

  function ExpireOne(e: Env): Env
    requires e.bgHead < |e.bgIds|
  {
    e.(book := Cancel(e.book, e.bgIds[e.bgHead]).book, bgHead := e.bgHead + 1)
  }

  function Expire(e: Env): Env
    decreases |e.bgIds| - e.bgHead
  {
    if Expired(e) then Expire(ExpireOne(e)) else e
  }

  // ----- Background flow -----

  /** The guard keeps eight slots free, giving up the newest tracked order. */
  predicate Crowded(e: Env) {
    |e.book.bids| + |e.book.asks| >= BOOK_CAPACITY - 8
  }

  function Evict(e: Env): Env {
    if Crowded(e) && e.restingIds != [] then
      var n := |e.restingIds| - 1;
      e.(book := Cancel(e.book, e.restingIds[n]).book, restingIds := e.restingIds[..n])
    else e
  }

  function DrawSide(x: nat): Side {
    if x % 2 != 0 then Buy else Sell
  }

  function FlowPrice(s: Setup, side: Side, depth: nat): int {
    if side.Buy? then s.mid - 1 - depth else s.mid + 1 + depth
  }

  /** Submit a background order; if accepted, track it for reset and queue it for expiry. */
  function SubmitFlow(e: Env, id: nat, side: Side, px: int, qty: nat): Env {
    var o := Submit(BOOK_CFG, e.book, id, side, px, qty);
    if o.ok then
      e.(book := o.book, restingIds := e.restingIds + [id], bgIds := e.bgIds + [id], bgBirth := e.bgBirth + [e.stepIdx])
    else
      e.(book := o.book)
  }

  /** One synthetic order: side, depth and size from three draws. */
  function FlowOne(s: Setup, e: Env): Env {
    var x1 := s.draw(e.rng);
    var x2 := s.draw(x1);
    var x3 := s.draw(x2);
    var side := DrawSide(x1);
    var e' := Evict(e.(rng := x3, nextId := e.nextId + 1));
    SubmitFlow(e', e.nextId, side, FlowPrice(s, side, x2 % 5), 10 + x3 % 40)
  }

  function Flow(s: Setup, e: Env, n: nat): Env {
    if n == 0 then e else FlowOne(s, Flow(s, e, n - 1))
  }

  // ----- The child order -----

  function ChildQty(s: Setup, e: Env, size: real): nat
    requires 0.0 <= size
  {
    if e.stepIdx + 1 >= s.horizon then e.remaining else
      var want := size * (e.remaining as real);
      TimesNotNegative(size, e.remaining as real);
      want.Floor
  }

  function BidNow(s: Setup, b: Book): int {
    if b.bids != [] then b.bids[0].price else s.mid - 1
  }

  function AskNow(s: Setup, b: Book): int {
    if b.asks != [] then b.asks[0].price else s.mid + 1
  }

  predicate Aggressive(s: Setup, e: Env, aggression: real) {
    e.stepIdx + 1 >= s.horizon || aggression >= 0.5
  }

  function ChildPx(s: Setup, e: Env, aggression: real): int {
    if Aggressive(s, e, aggression) then BidNow(s, e.book) else AskNow(s, e.book)
  }

  function Cash(fills: seq<Fill>): int {
    if fills == [] then 0 else fills[0].price * fills[0].qty + Cash(fills[1..])
  }

  function S0(s: Setup): int {
    if s.mid > 0 then s.mid else 1
  }

  function Sq(x: real): real {
    x * x
  }

  function Fraction(s: Setup, q: nat): real
    requires s.parentQty > 0
  {
    (q as real) / (s.parentQty as real)
  }

  /** Realised shortfall of this step's fills in basis points of the parent. */
  function Realised(s: Setup, fills: seq<Fill>): real
    requires s.parentQty > 0
  {
    if Filled(fills) > 0 then
      ((Cash(fills) - Filled(fills) * S0(s)) as real) / (S0(s) as real) * 10000.0 / (s.parentQty as real)
    else 0.0
  }

  function Close(s: Setup, e: Env): Env {
    e.(done := e.done || e.remaining == 0 || e.stepIdx >= s.horizon)
  }

  datatype Stepped = Stepped(env: Env, reward: real, fills: seq<Fill>)

  /** The totals after the child's fills, and the child tracked if part of it rests. */
  function Credited(e: Env, id: nat, qty: nat, ok: bool, fills: seq<Fill>): Env {
    var filled := Filled(fills);
    e.(restingIds := if ok && filled < qty then e.restingIds + [id] else e.restingIds,
       qtyFilled := e.qtyFilled + filled, cash := e.cash + Cash(fills),
       remaining := if filled >= e.remaining then 0 else e.remaining - filled)
  }

  /** Account for the child's fills and price the step. */
  function Settle(s: Setup, e: Env, id: nat, qty: nat, ok: bool, fills: seq<Fill>): Stepped
    requires s.parentQty > 0
  {
    var credited := Credited(e, id, qty, ok, fills);
    var left := credited.remaining;
    var e' := Close(s, credited.(stepIdx := e.stepIdx + 1));
    var penalty := if e'.done && left > 0 then KAPPA * Sq(Fraction(s, left)) else 0.0;
    Stepped(e', Realised(s, fills) - PHI * Sq(Fraction(s, left)) - penalty, fills)
  }

  function Child(s: Setup, e: Env, qty: nat, aggression: real): Stepped
    requires s.parentQty > 0
  {
    if qty == 0 then
      Stepped(Close(s, e.(stepIdx := e.stepIdx + 1)), -PHI * Sq(Fraction(s, e.remaining)), [])
    else
      var id := e.nextId;
      var o := Submit(BOOK_CFG, e.book, id, Sell, ChildPx(s, e, aggression), qty);
      var r := Settle(s, e.(nextId := id + 1), id, qty, o.ok, o.fills);
      r.(env := r.env.(book := o.book))
  }

  /** The book the child meets: aged and refreshed. */
  function Refreshed(s: Setup, e: Env): Env {
    Flow(s, Expire(e), BURST)
  }

  function Step(s: Setup, e: Env, size: real, aggression: real): Stepped
    requires s.parentQty > 0
  {
    if e.done then Stepped(e, 0.0, []) else
      var e' := Refreshed(s, e);
      Child(s, e', ChildQty(s, e', Clamp01(size)), Clamp01(aggression))
  }

  // ----- Episodes -----

  datatype Action = Action(size: real, aggression: real)

  /** What Python sees after a step. */
  datatype Observation = Observation(inventory: real, timeLeft: real, bid: int, ask: int, spread: int, mid: real,
                                     filled: real, avgPrice: real)

  function TopOrZero(list: seq<Entry>): int {
    if list != [] then list[0].price else 0
  }

  function TimeLeft(s: Setup, stepIdx: nat): real
    requires s.horizon > 0
  {
    1.0 - (stepIdx as real) / (s.horizon as real)
  }

  function AveragePrice(cash: int, filled: nat, mid: int): real {
    if filled == 0 || mid == 0 then 1.0 else (cash as real) / ((filled as real) * (mid as real))
  }

  function Observe(s: Setup, e: Env): Observation
    requires s.parentQty > 0 && s.horizon > 0
  {
    var bid := TopOrZero(e.book.bids);
    var ask := TopOrZero(e.book.asks);
    var dark := bid == 0 || ask == 0;
    Observation(
      Fraction(s, e.remaining),
      TimeLeft(s, e.stepIdx),
      bid, ask,
      if dark then 0 else ask - bid,
      if dark then s.mid as real else ((bid + ask) as real) / 2.0,
      Fraction(s, e.qtyFilled),
      AveragePrice(e.cash, e.qtyFilled, s.mid))
  }
}
