/**
 The whole bridge, from book operations to the relay's log: the producer of the
 ring machine is a publisher driving a book, the consumer the relay thread,
 interleaved arbitrarily.
 */
module Bridge {
  import opened MatchingSpec
  import opened Telemetry
  import opened Publishing
  import BookRuns
  import EventRelay
  import RingProtocol
  import opened Bits

  // ----- Given what the publisher attempted to push -----

  /** At every moment, the log's numbers increase and no event comes out of order or twice. */
  lemma LogIncreases(cfg: Config, ops: seq<BookRuns.Op>, k: nat, trace: seq<EventRelay.Relay<Event>>, i: nat)
    requires k < 64 && EventRelay.RelayRun(k, trace) && i < |trace|
    requires Publishes(cfg, ops, trace[i].ring.attempts)
    ensures var log := trace[i].log; forall a, b :: 0 <= a < b < |log| ==> log[a].sequence < log[b].sequence
    ensures forall a :: 0 <= a < |trace[i].log| ==>
      var e := trace[i].log[a];
      && e.sequence < |EmittedRun(cfg, EMPTY, ops, 0)|
      && e.(timestamp := 0) == EmittedRun(cfg, EMPTY, ops, 0)[e.sequence]
  {
    var s := trace[i];
    var attempts := s.ring.attempts;
    PublishesNumbered(cfg, ops, attempts);
    EventRelay.LogIsPrefix(k, trace, i);
    TapeNumbers(attempts);
    forall a | 0 <= a < |s.log|
      ensures s.log[a].sequence < |EmittedRun(cfg, EMPTY, ops, 0)|
      ensures s.log[a].(timestamp := 0) == EmittedRun(cfg, EMPTY, ops, 0)[s.log[a].sequence]
    {
      assert s.log[a] == RingProtocol.Accepted(attempts)[a];
      var j := AcceptedAt(attempts, a);
      assert Untimed(Values(attempts))[j] == s.log[a].(timestamp := 0);
    }
  }

  /** At every moment before the first drop, the log is the beginning of the run's events. */
  lemma LogIsBeginning(cfg: Config, ops: seq<BookRuns.Op>, k: nat, trace: seq<EventRelay.Relay<Event>>, i: nat)
    requires k < 64 && EventRelay.RelayRun(k, trace) && i < |trace|
    requires Publishes(cfg, ops, trace[i].ring.attempts) && RingProtocol.Rejected(trace[i].ring.attempts) == 0
    ensures Untimed(trace[i].log) <= EmittedRun(cfg, EMPTY, ops, 0)
  {
    EventRelay.LogIsPrefix(k, trace, i);
    AllAccepted(trace[i].ring.attempts);
  }

  /** Each accepted value is that of an attempt. */
  lemma {:induction false} AcceptedAt(attempts: seq<RingProtocol.Attempt<Event>>, a: nat) returns (j: nat)
    requires a < |RingProtocol.Accepted(attempts)|
    ensures j < |attempts| && attempts[j].value == RingProtocol.Accepted(attempts)[a]
  {
    var n := |attempts| - 1;
    if a < |RingProtocol.Accepted(attempts[..n])| {
      j := AcceptedAt(attempts[..n], a);
    } else {
      j := n;
    }
  }

  /**
   A publisher drives the book through a run and stops; then Stop returns. If
   the ring dropped nothing, the relay's log is every event of the run, in order
   and without gaps, and replaying it rebuilds the final book.
   */
  lemma LogRebuildsBook(cfg: Config, ops: seq<BookRuns.Op>, k: nat, trace: seq<EventRelay.Relay<Event>>, i: nat)
    requires k < 64 && EventRelay.RelayRun(k, trace) && i < |trace| && trace[i].control.Stopped?
    requires trace[i].ring.w == trace[i].told
    requires Untimed(Values(trace[i].ring.attempts)) == EmittedRun(cfg, EMPTY, ops, 0)
    requires RingProtocol.Rejected(trace[i].ring.attempts) == 0
    ensures Untimed(trace[i].log) == EmittedRun(cfg, EMPTY, ops, 0)
    ensures ReplayAll(EMPTY, trace[i].log) == BookRuns.Run(cfg, EMPTY, ops).0
    ensures forall a :: 0 <= a < |trace[i].log| ==> trace[i].log[a].sequence == a
  {
    EventRelay.StopDrains(k, trace, i);
    AllAccepted(trace[i].ring.attempts);
    TapeOfRun(cfg, ops, trace[i].ring.attempts);
  }

  /**
   With drops, the log itself tells: 1 + last - first - count is the number of
   events dropped before the last logged one, at most all drops, and all of
   them exactly if the last event attempted was accepted.
   */
  lemma LogShowsDrops(cfg: Config, ops: seq<BookRuns.Op>, k: nat, trace: seq<EventRelay.Relay<Event>>, i: nat)
    requires k < 64 && EventRelay.RelayRun(k, trace) && i < |trace| && trace[i].control.Stopped?
    requires trace[i].ring.w == trace[i].told && trace[i].ring.attempts != []
    requires Publishes(cfg, ops, trace[i].ring.attempts)
    ensures var log, attempts := trace[i].log, trace[i].ring.attempts;
      && log != [] && log[0].sequence == 0
      && (forall a, b :: 0 <= a < b < |log| ==> log[a].sequence < log[b].sequence)
      && var gap := 1 + log[|log| - 1].sequence - log[0].sequence - |log|;
      && gap == RingProtocol.Rejected(attempts[..LastAccepted(attempts) + 1])
      && 0 <= gap <= RingProtocol.Rejected(attempts)
      && (gap == RingProtocol.Rejected(attempts) <==> attempts[|attempts| - 1].accepted)
  {
    hide EventRelay.RelayRun, EmittedRun, RingProtocol.Accepted, LastAccepted;
    var attempts := trace[i].ring.attempts;
    EventRelay.StopDrains(k, trace, i);
    EventRelay.FirstPushAccepted(k, trace, i);
    PublishesNumbered(cfg, ops, attempts);
    GapCountsDrops(attempts);
    TapeNumbers(attempts);
  }

  // ----- The publisher as part of the machine -----

  /** The relay's machine with the publisher at its producer end. */
  datatype Pipeline = Pipeline(
    relay: EventRelay.Relay<Event>,
    ops: seq<BookRuns.Op>,                 // operations begun, in order
    book: Book,                            // the publisher's book after them
    pending: seq<Event>,                   // events of the last operation not yet pushed, without times
    next: nat)                             // the publisher's next sequence number

  ghost predicate PipelineInit(s: Pipeline) {
    EventRelay.RelayInit(s.relay) && s == Pipeline(s.relay, [], EMPTY, [], 0)
  }

  datatype PipelineStep = Operate(op: BookRuns.Op) | Emit(e: Event) | Other(step: EventRelay.RelayStep<Event>)

  ghost predicate PipelineDo(cfg: Config, k: nat, s: Pipeline, s': Pipeline, step: PipelineStep) {
    match step
    // the publisher calls the book once its previous events are pushed
    case Operate(op) =>
      && s.pending == [] && s.relay.ring.prod.PIdle? && BookRuns.Allowed(s.book, op)
      && var tape := Emitted(cfg, s.book, op, s.next);
      s' == Pipeline(s.relay, s.ops + [op], BookRuns.Step(cfg, s.book, op).book, tape, s.next + |tape|)
    // it begins to push its next event, stamped with any time
    case Emit(e) =>
      && s.pending != [] && e.(timestamp := 0) == s.pending[0]
      && EventRelay.Do(k, s.relay, s'.relay, EventRelay.Push(RingProtocol.BeginPush(e)))
      && s' == s.(relay := s'.relay, pending := s.pending[1..])
    // every other step of producer, relay thread and controller
    case Other(step) =>
      && !(step.Push? && step.push.BeginPush?)
      && EventRelay.Do(k, s.relay, s'.relay, step) && s' == s.(relay := s'.relay)
  }

  ghost predicate PipelineNext(cfg: Config, k: nat, s: Pipeline, s': Pipeline) {
    exists step :: PipelineDo(cfg, k, s, s', step)
  }

  ghost predicate PipelineRun(cfg: Config, k: nat, trace: seq<Pipeline>) {
    && trace != [] && PipelineInit(trace[0])
    && forall i :: 0 <= i < |trace| - 1 ==> PipelineNext(cfg, k, trace[i], trace[i + 1])
  }

  /** The event being pushed. */
  function InFlight(p: RingProtocol.Producer<Event>): seq<Event> {
    if p.PIdle? then [] else [p.value]
  }

  /** Everything whose push has begun. */
  function Begun(ring: RingProtocol.Ring<Event>): seq<Event> {
    Untimed(Values(ring.attempts)) + Untimed(InFlight(ring.prod))
  }

  /** Pushes begun and pending events together are the events of the run so far. */
  ghost predicate OnTape(cfg: Config, s: Pipeline) {
    && Begun(s.relay.ring) + s.pending == EmittedRun(cfg, EMPTY, s.ops, 0)
    && s.next == |EmittedRun(cfg, EMPTY, s.ops, 0)|
    && s.book == BookRuns.Run(cfg, EMPTY, s.ops).0
    && BookRuns.Legal(cfg, EMPTY, s.ops)
  }

  lemma {:induction false} RunAppend(cfg: Config, b: Book, ops: seq<BookRuns.Op>, op: BookRuns.Op, n: nat)
    ensures var b' := BookRuns.Run(cfg, b, ops).0;
      && BookRuns.Run(cfg, b, ops + [op]).0 == BookRuns.Step(cfg, b', op).book
      && EmittedRun(cfg, b, ops + [op], n)
         == EmittedRun(cfg, b, ops, n) + Emitted(cfg, b', op, n + |EmittedRun(cfg, b, ops, n)|)
      && (BookRuns.Legal(cfg, b, ops) && BookRuns.Allowed(b', op) ==> BookRuns.Legal(cfg, b, ops + [op]))
    decreases |ops|
  {
    hide Emitted, BookRuns.Step, BookRuns.Allowed;
    if ops == [] {
      assert [op][0] == op && [op][1..] == [] && [] + [op] == [op];
    } else {
      var now := Emitted(cfg, b, ops[0], n);
      var next := BookRuns.Step(cfg, b, ops[0]).book;
      RunAppend(cfg, next, ops[1..], op, n + |now|);
      assert (ops + [op])[0] == ops[0] && (ops + [op])[1..] == ops[1..] + [op];
    }
  }

  /** A push under way keeps its event until it completes, accepted or not. */
  lemma BegunKept(k: nat, s: RingProtocol.Ring<Event>, s': RingProtocol.Ring<Event>, p: RingProtocol.PushStep<Event>)
    requires RingProtocol.ProducerStep(k, s, s', p) && !p.BeginPush?
    ensures Begun(s') == Begun(s)
  {
    if p.RejectFull? || p.Publish? {
      var a := RingProtocol.Attempt(s.prod.value, p.Publish?);
      assert Values(s.attempts + [a]) == Values(s.attempts) + [a.value];
      UntimedAppend(Values(s.attempts), [a.value]);
    }
  }

  lemma BegunMore(s: RingProtocol.Ring<Event>, s': RingProtocol.Ring<Event>, e: Event)
    requires s.prod.PIdle? && InFlight(s'.prod) == [e] && s'.attempts == s.attempts
    ensures Begun(s') == Begun(s) + [e.(timestamp := 0)]
  {
  }

  lemma OperateKeeps(cfg: Config, k: nat, s: Pipeline, s': Pipeline, op: BookRuns.Op)
    requires OnTape(cfg, s) && PipelineDo(cfg, k, s, s', Operate(op))
    ensures OnTape(cfg, s')
  {
    hide Emitted, EmittedRun, BookRuns.Run, BookRuns.Step, BookRuns.Legal, BookRuns.Allowed, Begun;
    RunAppend(cfg, EMPTY, s.ops, op, 0);
    assert Begun(s.relay.ring) + [] == Begun(s.relay.ring);
  }

  lemma EmitKeeps(cfg: Config, k: nat, s: Pipeline, s': Pipeline, e: Event)
    requires OnTape(cfg, s) && PipelineDo(cfg, k, s, s', Emit(e))
    ensures OnTape(cfg, s')
  {
    hide EmittedRun, BookRuns.Run, BookRuns.Legal, Begun;
    BegunMore(s.relay.ring, s'.relay.ring, e);
    var begun, first := Begun(s.relay.ring), [s.pending[0]];
    assert s.pending == first + s.pending[1..];
    assert begun + (first + s.pending[1..]) == (begun + first) + s.pending[1..];
  }

  lemma OtherKeeps(cfg: Config, k: nat, s: Pipeline, s': Pipeline, step: EventRelay.RelayStep<Event>)
    requires OnTape(cfg, s) && PipelineDo(cfg, k, s, s', Other(step))
    ensures OnTape(cfg, s')
  {
    hide EmittedRun, BookRuns.Run, BookRuns.Legal;
    var ring, ring' := s.relay.ring, s'.relay.ring;
    assert Begun(ring') == Begun(ring) by {
      if step.Push? {
        BegunKept(k, ring, ring', step.push);
      } else {
        assert ring'.attempts == ring.attempts && ring'.prod == ring.prod;
      }
    }
  }

  lemma RelayStays(cfg: Config, k: nat, s: Pipeline, s': Pipeline, step: PipelineStep)
    requires EventRelay.RelayInv(k, s.relay) && PipelineDo(cfg, k, s, s', step)
    ensures EventRelay.RelayInv(k, s'.relay) && EventRelay.RelayNext(k, s.relay, s'.relay)
  {
    hide EventRelay.RelayInv;
    match step
    case Operate(op) => LearnNothing(k, s.relay);
    case Emit(e) => EventRelay.RelayKeeps(k, s.relay, s'.relay, EventRelay.Push(RingProtocol.BeginPush(e)));
    case Other(step) => EventRelay.RelayKeeps(k, s.relay, s'.relay, step);
  }

  /** For relay, ring and controller an operation of the book is no step at all. */
  lemma LearnNothing(k: nat, s: EventRelay.Relay<Event>)
    requires EventRelay.RelayInv(k, s)
    ensures EventRelay.RelayNext(k, s, s)
  {
    assert EventRelay.Do(k, s, s, EventRelay.Learn(s.known));
  }

  lemma {:induction false} PipelineInv(cfg: Config, k: nat, trace: seq<Pipeline>, i: nat)
    requires k < 64 && PipelineRun(cfg, k, trace) && i < |trace|
    ensures EventRelay.RelayInv(k, trace[i].relay) && OnTape(cfg, trace[i])
    ensures i < |trace| - 1 ==> EventRelay.RelayNext(k, trace[i].relay, trace[i + 1].relay)
  {
    hide EventRelay.RelayInv, OnTape, PipelineDo;
    if i == 0 {
      EventRelay.InitRelay(k, trace[0].relay);
      InitOnTape(cfg, trace[0]);
    } else {
      PipelineInv(cfg, k, trace, i - 1);
      assert PipelineNext(cfg, k, trace[i - 1], trace[i - 1 + 1]);
      var step :| PipelineDo(cfg, k, trace[i - 1], trace[i], step);
      RelayStays(cfg, k, trace[i - 1], trace[i], step);
      match step
      case Operate(op) => OperateKeeps(cfg, k, trace[i - 1], trace[i], op);
      case Emit(e) => EmitKeeps(cfg, k, trace[i - 1], trace[i], e);
      case Other(other) => OtherKeeps(cfg, k, trace[i - 1], trace[i], other);
    }
    if i < |trace| - 1 {
      assert PipelineNext(cfg, k, trace[i], trace[i + 1]);
      var step :| PipelineDo(cfg, k, trace[i], trace[i + 1], step);
      RelayStays(cfg, k, trace[i], trace[i + 1], step);
    }
  }

  lemma InitOnTape(cfg: Config, s: Pipeline)
    requires PipelineInit(s)
    ensures OnTape(cfg, s)
  {
  }

  /** What relay, ring and controller do in a pipeline run. */
  function Relays(trace: seq<Pipeline>): (r: seq<EventRelay.Relay<Event>>)
    ensures |r| == |trace|
  {
    seq(|trace|, i requires 0 <= i < |trace| => trace[i].relay)
  }

  lemma Projects(cfg: Config, k: nat, trace: seq<Pipeline>)
    requires k < 64 && PipelineRun(cfg, k, trace)
    ensures EventRelay.RelayRun(k, Relays(trace))
  {
    var r := Relays(trace);
    forall i | 0 <= i < |r| - 1
      ensures EventRelay.RelayNext(k, r[i], r[i + 1])
    {
      PipelineInv(cfg, k, trace, i);
    }
  }

  /** The machine's publisher attempts to push the run's events, in order, and all of them once it is at rest. */
  lemma PipelinePublishes(cfg: Config, k: nat, trace: seq<Pipeline>, i: nat)
    requires k < 64 && PipelineRun(cfg, k, trace) && i < |trace|
    ensures var s := trace[i];
      && Publishes(cfg, s.ops, s.relay.ring.attempts)
      && (s.pending == [] && s.relay.ring.prod.PIdle? ==>
        Untimed(Values(s.relay.ring.attempts)) == EmittedRun(cfg, EMPTY, s.ops, 0))
      && s.book == BookRuns.Run(cfg, EMPTY, s.ops).0 && BookRuns.Legal(cfg, EMPTY, s.ops)
  {
    PipelineInv(cfg, k, trace, i);
    hide EmittedRun, BookRuns.Run, BookRuns.Legal, Untimed;
    var s := trace[i];
    var done, flying := Untimed(Values(s.relay.ring.attempts)), Untimed(InFlight(s.relay.ring.prod));
    assert done + flying + s.pending == done + (flying + s.pending);
  }

  /** At every moment of every interleaving the log holds the run's own events, in increasing order. */
  lemma PipelineLogIncreases(cfg: Config, k: nat, trace: seq<Pipeline>, i: nat)
    requires k < 64 && PipelineRun(cfg, k, trace) && i < |trace|
    ensures var log, events := trace[i].relay.log, EmittedRun(cfg, EMPTY, trace[i].ops, 0);
      && (forall a, b :: 0 <= a < b < |log| ==> log[a].sequence < log[b].sequence)
      && (forall a :: 0 <= a < |log| ==>
        log[a].sequence < |events| && log[a].(timestamp := 0) == events[log[a].sequence])
      && (RingProtocol.Rejected(trace[i].relay.ring.attempts) == 0 ==> Untimed(log) <= events)
  {
    hide EventRelay.RelayRun;
    Projects(cfg, k, trace);
    PipelinePublishes(cfg, k, trace, i);
    LogIncreases(cfg, trace[i].ops, k, Relays(trace), i);
    if RingProtocol.Rejected(trace[i].relay.ring.attempts) == 0 {
      LogIsBeginning(cfg, trace[i].ops, k, Relays(trace), i);
    }
  }

  /**
   The publisher comes to rest, then Stop is called and returns. If the ring
   dropped nothing, the log is every event of the run and rebuilds the book.
   */
  lemma PipelineRebuilds(cfg: Config, k: nat, trace: seq<Pipeline>, i: nat)
    requires k < 64 && PipelineRun(cfg, k, trace) && i < |trace|
    requires trace[i].relay.control.Stopped? && trace[i].relay.ring.w == trace[i].relay.told
    requires trace[i].pending == [] && trace[i].relay.ring.prod.PIdle?
    requires RingProtocol.Rejected(trace[i].relay.ring.attempts) == 0
    ensures Untimed(trace[i].relay.log) == EmittedRun(cfg, EMPTY, trace[i].ops, 0)
    ensures ReplayAll(EMPTY, trace[i].relay.log) == trace[i].book
  {
    hide EventRelay.RelayRun, PipelineRun;
    Projects(cfg, k, trace);
    PipelinePublishes(cfg, k, trace, i);
    LogRebuildsBook(cfg, trace[i].ops, k, Relays(trace), i);
  }

  /** With drops, the gap read off the log is the drops before its last event. */
  lemma PipelineShowsDrops(cfg: Config, k: nat, trace: seq<Pipeline>, i: nat)
    requires k < 64 && PipelineRun(cfg, k, trace) && i < |trace|
    requires trace[i].relay.control.Stopped? && trace[i].relay.ring.w == trace[i].relay.told
    requires trace[i].relay.ring.attempts != []
    ensures var log, attempts := trace[i].relay.log, trace[i].relay.ring.attempts;
      && log != [] && log[0].sequence == 0
      && var gap := 1 + log[|log| - 1].sequence - log[0].sequence - |log|;
      && gap == RingProtocol.Rejected(attempts[..LastAccepted(attempts) + 1])
      && 0 <= gap <= RingProtocol.Rejected(attempts)
      && (gap == RingProtocol.Rejected(attempts) <==> attempts[|attempts| - 1].accepted)
  {
    hide EventRelay.RelayRun, PipelineRun;
    Projects(cfg, k, trace);
    PipelinePublishes(cfg, k, trace, i);
    LogShowsDrops(cfg, trace[i].ops, k, Relays(trace), i);
  }

  // ----- Such runs exist -----

  ghost predicate Flows(cfg: Config, k: nat, trace: seq<Pipeline>, steps: seq<PipelineStep>) {
    && |trace| == |steps| + 1
    && forall n :: 0 <= n < |steps| ==> PipelineDo(cfg, k, trace[n], trace[n + 1], steps[n])
  }

  lemma FlowsJoin(cfg: Config, k: nat, trace: seq<Pipeline>, steps: seq<PipelineStep>,
                  trace2: seq<Pipeline>, steps2: seq<PipelineStep>)
    requires Flows(cfg, k, trace, steps) && Flows(cfg, k, trace2, steps2) && trace[|steps|] == trace2[0]
    ensures Flows(cfg, k, trace + trace2[1..], steps + steps2)
    ensures (trace + trace2[1..])[|steps + steps2|] == trace2[|steps2|]
  {
    hide PipelineDo;
    var all, moves := trace + trace2[1..], steps + steps2;
    forall n | 0 <= n < |moves|
      ensures PipelineDo(cfg, k, all[n], all[n + 1], moves[n])
    {
      if n < |steps| {
        assert PipelineDo(cfg, k, trace[n], trace[n + 1], steps[n]);
      } else {
        var m := n - |steps|;
        assert all[n] == trace2[m] && all[n + 1] == trace2[m + 1];
        assert PipelineDo(cfg, k, trace2[m], trace2[m + 1], steps2[m]);
      }
    }
  }

  /** A stretch of the relay's machine in which no push begins, with the publisher looking on. */
  lemma RelayFlows(cfg: Config, k: nat, s: Pipeline, relays: seq<EventRelay.Relay<Event>>,
                   moves: seq<EventRelay.RelayStep<Event>>) returns (trace: seq<Pipeline>, steps: seq<PipelineStep>)
    requires EventRelay.Follows(k, relays, moves) && relays[0] == s.relay
    requires forall n :: 0 <= n < |moves| ==> !(moves[n].Push? && moves[n].push.BeginPush?)
    ensures Flows(cfg, k, trace, steps) && trace[0] == s && |steps| == |moves|
    ensures trace[|steps|] == s.(relay := relays[|moves|])
  {
    hide EventRelay.Do;
    trace := seq(|relays|, n requires 0 <= n < |relays| => s.(relay := relays[n]));
    steps := seq(|moves|, n requires 0 <= n < |moves| => Other(moves[n]));
    forall n | 0 <= n < |steps|
      ensures PipelineDo(cfg, k, trace[n], trace[n + 1], steps[n])
    {
      assert EventRelay.Do(k, relays[n], relays[n + 1], moves[n]);
      assert trace[n].(relay := relays[n + 1]) == trace[n + 1];
    }
  }

  /** With room in the ring, the publisher's next event is pushed, at any time of the clock. */
  lemma EmitOne(cfg: Config, k: nat, s: Pipeline, e: Event) returns (trace: seq<Pipeline>, steps: seq<PipelineStep>)
    requires EventRelay.RelayInv(k, s.relay) && s.relay.ring.prod.PIdle? && s.pending != []
    requires s.relay.ring.w - s.relay.ring.r < Pow2(k) && e.(timestamp := 0) == s.pending[0]
    ensures Flows(cfg, k, trace, steps) && trace[0] == s
    ensures var s' := trace[|steps|];
      && EventRelay.RelayInv(k, s'.relay)
      && s' == s.(relay := s.relay.(ring := s'.relay.ring), pending := s.pending[1..])
      && s'.relay.ring.prod.PIdle? && s'.relay.ring.r == s.relay.ring.r && s'.relay.ring.w == s.relay.ring.w + 1
      && s'.relay.ring.attempts == s.relay.ring.attempts + [RingProtocol.Attempt(e, true)]
  {
    var rings, pushes := RingProtocol.PushCompletes(k, s.relay.ring, e);
    var relays, moves := EventRelay.PushesFollow(k, s.relay, rings, pushes);
    EventRelay.FollowsInv(k, relays, moves);
    hide EventRelay.RelayInv, EventRelay.Do, Pow2;
    var begun := Pipeline(relays[1], s.ops, s.book, s.pending[1..], s.next);
    assert EventRelay.Do(k, relays[0], relays[1], moves[0]);
    assert PipelineDo(cfg, k, s, begun, Emit(e));
    TailFollows(k, relays, moves);
    forall n | 0 <= n < |moves[1..]|
      ensures !(moves[1..][n].Push? && moves[1..][n].push.BeginPush?)
    {
      assert moves[1..][n] == EventRelay.Push(pushes[n + 1]);
    }
    var rest, more := RelayFlows(cfg, k, begun, relays[1..], moves[1..]);
    FlowsJoin(cfg, k, [s, begun], [Emit(e)], rest, more);
    trace, steps := [s, begun] + rest[1..], [Emit(e)] + more;
  }

  lemma TailFollows(k: nat, relays: seq<EventRelay.Relay<Event>>, moves: seq<EventRelay.RelayStep<Event>>)
    requires EventRelay.Follows(k, relays, moves) && moves != []
    ensures EventRelay.Follows(k, relays[1..], moves[1..]) && relays[1..][|moves[1..]|] == relays[|moves|]
  {
    hide EventRelay.Do;
    forall n | 0 <= n < |moves[1..]|
      ensures EventRelay.Do(k, relays[1..][n], relays[1..][n + 1], moves[1..][n])
    {
      assert EventRelay.Do(k, relays[n + 1], relays[n + 1 + 1], moves[n + 1]);
    }
  }

  /** All events of an operation are pushed, while there is room. */
  lemma {:induction false} EmitAll(cfg: Config, k: nat, s: Pipeline, events: seq<Event>)
      returns (trace: seq<Pipeline>, steps: seq<PipelineStep>)
    requires EventRelay.RelayInv(k, s.relay) && s.relay.ring.prod.PIdle? && Untimed(events) == s.pending
    requires s.relay.ring.w - s.relay.ring.r + |events| <= Pow2(k)
    ensures Flows(cfg, k, trace, steps) && trace[0] == s
    ensures var s' := trace[|steps|];
      && EventRelay.RelayInv(k, s'.relay) && s' == s.(relay := s.relay.(ring := s'.relay.ring), pending := [])
      && s'.relay.ring.prod.PIdle? && s'.relay.ring.r == s.relay.ring.r
      && s'.relay.ring.w == s.relay.ring.w + |events|
      && s'.relay.ring.attempts == s.relay.ring.attempts + EventRelay.AllAttempts(events)
    decreases |events|
  {
    hide EventRelay.RelayInv, EventRelay.Do, Pow2, PipelineDo;
    if events == [] {
      trace, steps := [s], [];
      assert s.relay.ring.attempts + EventRelay.AllAttempts(events) == s.relay.ring.attempts;
    } else {
      assert Untimed(events)[0] == events[0].(timestamp := 0) && Untimed(events)[1..] == Untimed(events[1..]);
      var first, moves := EmitOne(cfg, k, s, events[0]);
      var rest, more := EmitAll(cfg, k, first[|moves|], events[1..]);
      FlowsJoin(cfg, k, first, moves, rest, more);
      trace, steps := first + rest[1..], moves + more;
      EventRelay.AttemptsCons(s.relay.ring.attempts, events);
    }
  }

  /** A legal continuation of the run is operated and published, while there is room. */
  lemma {:induction false} OperateAll(cfg: Config, k: nat, s: Pipeline, ops: seq<BookRuns.Op>, events: seq<Event>)
      returns (trace: seq<Pipeline>, steps: seq<PipelineStep>)
    requires EventRelay.RelayInv(k, s.relay) && s.relay.ring.prod.PIdle? && s.pending == []
    requires BookRuns.Legal(cfg, s.book, ops) && Untimed(events) == EmittedRun(cfg, s.book, ops, s.next)
    requires s.relay.ring.w - s.relay.ring.r + |events| <= Pow2(k)
    ensures Flows(cfg, k, trace, steps) && trace[0] == s
    ensures var s' := trace[|steps|];
      && EventRelay.RelayInv(k, s'.relay) && s'.relay == s.relay.(ring := s'.relay.ring)
      && s'.ops == s.ops + ops && s'.pending == [] && s'.relay.ring.prod.PIdle?
      && s'.relay.ring.attempts == s.relay.ring.attempts + EventRelay.AllAttempts(events)
    decreases |ops|
  {
    hide EventRelay.RelayInv, EventRelay.Do, Pow2, Emitted, BookRuns.Step, BookRuns.Allowed;
    if ops == [] {
      trace, steps := [s], [];
      assert s.relay.ring.attempts + EventRelay.AllAttempts(events) == s.relay.ring.attempts;
    } else {
      var tape := Emitted(cfg, s.book, ops[0], s.next);
      var operated := Pipeline(s.relay, s.ops + [ops[0]], BookRuns.Step(cfg, s.book, ops[0]).book, tape,
                               s.next + |tape|);
      assert PipelineDo(cfg, k, s, operated, Operate(ops[0]));
      hide PipelineDo;
      var now, later := events[..|tape|], events[|tape|..];
      UntimedSplit(events, tape, EmittedRun(cfg, operated.book, ops[1..], operated.next));
      var emitted, emits := EmitAll(cfg, k, operated, now);
      var rest, more := OperateAll(cfg, k, emitted[|emits|], ops[1..], later);
      FlowsJoin(cfg, k, emitted, emits, rest, more);
      FlowsJoin(cfg, k, [s, operated], [Operate(ops[0])], emitted + rest[1..], emits + more);
      trace, steps := [s, operated] + (emitted + rest[1..])[1..], [Operate(ops[0])] + (emits + more);
      AttemptsSplitAt(s.relay.ring.attempts, events, |tape|);
      assert (s.ops + [ops[0]]) + ops[1..] == s.ops + ops;
    }
  }

  lemma UntimedSplit(events: seq<Event>, now: seq<Event>, later: seq<Event>)
    requires Untimed(events) == now + later
    ensures |now| <= |events|
    ensures Untimed(events[..|now|]) == now && Untimed(events[|now|..]) == later
  {
    hide Untimed;
    var a, b := events[..|now|], events[|now|..];
    assert events == a + b;
    UntimedAppend(a, b);
    assert (Untimed(a) + Untimed(b))[..|now|] == Untimed(a) && (now + later)[..|now|] == now;
    assert (Untimed(a) + Untimed(b))[|now|..] == Untimed(b) && (now + later)[|now|..] == later;
  }

  lemma AttemptsSplitAt(attempts: seq<RingProtocol.Attempt<Event>>, events: seq<Event>, n: nat)
    requires n <= |events|
    ensures (attempts + EventRelay.AllAttempts(events[..n])) + EventRelay.AllAttempts(events[n..])
         == attempts + EventRelay.AllAttempts(events)
  {
    assert EventRelay.AllAttempts(events)
        == EventRelay.AllAttempts(events[..n]) + EventRelay.AllAttempts(events[n..]);
  }

  /**
   The results above are about runs that exist: for any legal operations and
   any clock readings whose events fit the ring there is a run that carries
   them out and ends with Stop returned and exactly these events in the log.
   */
  lemma PipelineRunExists(cfg: Config, k: nat, ops: seq<BookRuns.Op>, events: seq<Event>)
      returns (trace: seq<Pipeline>, last: nat)
    requires k < 64 && BookRuns.Legal(cfg, EMPTY, ops)
    requires Untimed(events) == EmittedRun(cfg, EMPTY, ops, 0) && |events| <= Pow2(k)
    ensures PipelineRun(cfg, k, trace) && last < |trace|
    ensures var s := trace[last];
      && s.ops == ops && s.pending == [] && s.relay.ring.prod.PIdle?
      && s.relay.control.Stopped? && !s.relay.running && s.relay.ring.w == s.relay.told
      && s.relay.log == events
  {
    var s := Pipeline(EventRelay.InitialRelay(), [], EMPTY, [], 0);
    EventRelay.InitRelay(k, s.relay);
    var published, steps := OperateAll(cfg, k, s, ops, events);
    var mid := published[|steps|];
    var started, starts := EventRelay.StartReturns(k, mid.relay);
    EventRelay.FollowsInv(k, started, starts);
    hide EventRelay.RelayInv, EventRelay.Do, Pow2, PipelineDo, EmittedRun;
    var stopped, stops := EventRelay.CanStop(k, started[|starts|]);
    EventRelay.FollowsJoin(k, started, starts, stopped, stops);
    var calls, more := RelayFlows(cfg, k, mid, started + stopped[1..], starts + stops);
    FlowsJoin(cfg, k, published, steps, calls, more);
    trace := published + calls[1..];
    last := |steps + more|;
    FlowsRun(cfg, k, trace, steps + more);
    Projects(cfg, k, trace);
    hide EventRelay.RelayRun, PipelineRun;
    EventRelay.StopDrains(k, Relays(trace), last);
    EventRelay.AllAttemptsAccepted(events);
    assert [] + EventRelay.AllAttempts(events) == EventRelay.AllAttempts(events);
    assert [] + ops == ops;
  }

  lemma FlowsRun(cfg: Config, k: nat, trace: seq<Pipeline>, steps: seq<PipelineStep>)
    requires Flows(cfg, k, trace, steps) && PipelineInit(trace[0])
    ensures PipelineRun(cfg, k, trace)
  {
    hide PipelineDo;
    forall n | 0 <= n < |trace| - 1
      ensures PipelineNext(cfg, k, trace[n], trace[n + 1])
    {
      assert PipelineDo(cfg, k, trace[n], trace[n + 1], steps[n]);
    }
  }
}
