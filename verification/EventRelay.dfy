/**
 The relay's shutdown protocol: producer, relay thread and one controller
 calling Start and Stop, interleaved step by step over the ring machine of
 RingProtocol. Relaxed and acquire loads may be stale; what one thread learns
 from another is what its view, handed over at a release/acquire pair, holds.
 */
module EventRelay {
  import opened Bits
  import opened RingProtocol

  /** Program counter of Run. */
  datatype Thread<T> =
    | NotRunning
    | Draining(got: bool)                  // first loop, around TryPop
    | Logging(value: T)                    // event popped in the first loop
    | Counting                             // logged, processed_ not yet bumped
    | Checking(got: bool)                  // about to load the stop flag
    | LastDraining                         // second loop, around TryPop
    | LastLogging(value: T)
    | LastCounting
    | Exited

  /** Program counter of the controller. */
  datatype Control =
    | Idle
    | Started                              // Start won the compare-exchange
    | Cleared                              // stop flag cleared, thread not yet spawned
    | Stopping                             // Stop found the relay running
    | Joining                              // stop flag set
    | Joined                               // thread joined, running flag still set
    | Stopped                              // Stop returned after stopping the relay

  /** known is how many pushes the controller has learned of; told is known at the moment it set the flag. */
  datatype Relay<T> = Relay(
    ring: Ring<T>, thread: Thread<T>, control: Control,
    log: seq<T>, processed: nat,
    running: bool, stop: bool, known: nat, told: nat)

  ghost predicate RelayInit<T>(s: Relay<T>) {
    Init(s.ring) && s == Relay(s.ring, NotRunning, Idle, [], 0, false, false, 0, 0)
  }

  datatype RelayStep<T> =
    | Push(push: PushStep<T>)
    | Pop(pop: PopStep)
    | TakeEvent | TakeNothing | Log | Count
    | SeeRunning | SeeStop
    | CallStart | StartAgain | ClearFlag | Spawn
    | Learn(n: nat) | CallStop | StopIdle | SetFlag | Join | ClearRunning | Resume

  ghost predicate Do<T>(k: nat, s: Relay<T>, s': Relay<T>, step: RelayStep<T>) {
    match step
    // the producer, at any time
    case Push(p) =>
      ProducerStep(k, s.ring, s'.ring, p) && s' == s.(ring := s'.ring)
    // TryPop inside either drain loop
    case Pop(p) =>
      && (s.thread.Draining? || s.thread.LastDraining?)
      && ConsumerStep(k, s.ring, s'.ring, p) && !p.Return?
      && s' == s.(ring := s'.ring)
    case TakeEvent =>
      && (s.thread.Draining? || s.thread.LastDraining?) && s.ring.cons.CDone? && s.ring.cons.result.Some?
      && var v := s.ring.cons.result.value;
      s' == s.(ring := s.ring.(cons := CIdle), thread := if s.thread.Draining? then Logging(v) else LastLogging(v))
    case TakeNothing =>
      && (s.thread.Draining? || s.thread.LastDraining?) && s.ring.cons.CDone? && s.ring.cons.result.None?
      && s' == s.(ring := s.ring.(cons := CIdle),
                  thread := if s.thread.Draining? then Checking(s.thread.got) else Exited)
    case Log =>
      && (s.thread.Logging? || s.thread.LastLogging?)
      && s' == s.(log := s.log + [s.thread.value], thread := if s.thread.Logging? then Counting else LastCounting)
    case Count =>
      && (s.thread.Counting? || s.thread.LastCounting?)
      && s' == s.(processed := (s.processed + 1) % WORD,
                  thread := if s.thread.Counting? then Draining(true) else LastDraining)
    // a load of the stop flag may miss a recent store, and never invents one
    case SeeRunning =>
      s.thread.Checking? && s' == s.(thread := Draining(false))
    case SeeStop =>
      && s.thread.Checking? && s.stop
      && s' == s.(thread := LastDraining,
                  ring := s.ring.(seenW := if s.told > s.ring.seenW then s.told else s.ring.seenW))
    // Start
    case StartAgain =>
      (s.control.Idle? || s.control.Stopped?) && s.running && s' == s
    case CallStart =>
      (s.control.Idle? || s.control.Stopped?) && !s.running && s' == s.(running := true, control := Started)
    case ClearFlag =>
      s.control.Started? && s' == s.(stop := false, control := Cleared)
    case Spawn =>
      s.control.Cleared? && s' == s.(thread := Draining(false), control := Idle)
    // the controller learns of completed pushes, by making them itself or by synchronising with the producer
    case Learn(n) =>
      s.known <= n <= s.ring.w && s' == s.(known := n)
    // Stop
    case StopIdle =>
      (s.control.Idle? || s.control.Stopped?) && !s.running && s' == s
    case CallStop =>
      s.control.Idle? && s.running && s' == s.(control := Stopping)
    case SetFlag =>
      s.control.Stopping? && s' == s.(stop := true, told := s.known, control := Joining)
    case Join =>
      s.control.Joining? && s.thread.Exited? && s' == s.(thread := NotRunning, control := Joined)
    case ClearRunning =>
      s.control.Joined? && s' == s.(running := false, control := Stopped)
    case Resume =>
      s.control.Stopped? && s' == s.(control := Idle)
  }

  // ----- Invariant -----

  /** The popped event the thread has not logged yet. */
  function InHand<T>(s: Relay<T>): seq<T> {
    match s.thread
    case Logging(v) => [v]
    case LastLogging(v) => [v]
    case _ => if s.ring.cons.CDone? && s.ring.cons.result.Some? then [s.ring.cons.result.value] else []
  }

  ghost predicate Popping<T>(s: Relay<T>) {
    s.thread.Draining? || s.thread.LastDraining?
  }

  ghost predicate RelayInv<T>(k: nat, s: Relay<T>) {
    && Inv(k, s.ring)
    && s.ring.popped == s.log + InHand(s)
    && s.processed == (|s.log| - (if s.thread.Counting? || s.thread.LastCounting? then 1 else 0)) % WORD
    && (s.thread.Counting? || s.thread.LastCounting? ==> s.log != [])
    && (!Popping(s) ==> s.ring.cons.CIdle?)
    && s.known <= s.ring.w && s.told <= s.known
    && ControlInv(s)
    && LastInv(s)
  }

  /** Where the controller is decides the two flags and whether the thread exists. */
  ghost predicate ControlInv<T>(s: Relay<T>) {
    match s.control
    case Idle => (s.running <==> !s.thread.NotRunning?) && (s.running ==> !s.stop)
    case Started => s.running && s.thread.NotRunning?
    case Cleared => s.running && s.thread.NotRunning? && !s.stop
    case Stopping => s.running && !s.thread.NotRunning? && !s.stop
    case Joining => s.running && !s.thread.NotRunning? && s.stop
    case Joined => s.running && s.thread.NotRunning?
    case Stopped => !s.running && s.thread.NotRunning?
  }

  /** From the moment the thread sees the flag, every pop looks at least as far as the controller was told. */
  ghost predicate LastInv<T>(s: Relay<T>) {
    && (s.thread.LastDraining? || s.thread.LastLogging? || s.thread.LastCounting? || s.thread.Exited? ==>
      s.control.Joining? && s.stop)
    && (s.thread.LastDraining? || s.thread.LastLogging? || s.thread.LastCounting? ==> s.told <= s.ring.seenW)
    && (s.thread.LastDraining? && s.ring.cons.CDone? && s.ring.cons.result.None? ==> s.told <= s.ring.r)
    && (s.thread.Exited? || s.control.Joined? || s.control.Stopped? ==> s.told <= s.ring.r)
  }

  lemma InitRelay<T>(k: nat, s: Relay<T>)
    requires k < 64 && RelayInit(s)
    ensures RelayInv(k, s)
  {
    InitInv(k, s.ring);
  }

  lemma RelayKeeps<T>(k: nat, s: Relay<T>, s': Relay<T>, step: RelayStep<T>)
    requires RelayInv(k, s) && Do(k, s, s', step)
    ensures RelayInv(k, s')
  {
    if step.Push? {
      PushKeeps(k, s, s', step.push);
    } else if step.Pop? {
      PopKeeps(k, s, s', step.pop);
    } else if step.TakeEvent? || step.TakeNothing? || step.Log? || step.Count? || step.SeeRunning? || step.SeeStop? {
      ThreadKeeps(k, s, s', step);
    } else {
      ControlKeeps(k, s, s', step);
    }
  }

  lemma PushKeeps<T>(k: nat, s: Relay<T>, s': Relay<T>, p: PushStep<T>)
    requires RelayInv(k, s) && Do(k, s, s', Push(p))
    ensures RelayInv(k, s')
  {
    ProducerKeeps(k, s.ring, s'.ring, p);
    hide Inv;
  }

  lemma PopKeeps<T>(k: nat, s: Relay<T>, s': Relay<T>, p: PopStep)
    requires RelayInv(k, s) && Do(k, s, s', Pop(p))
    ensures RelayInv(k, s')
  {
    ConsumerKeeps(k, s.ring, s'.ring, p);
    if p.FindEmpty? {
      WrappedTests(s.ring.cons.w, s.ring.cons.r, k);
    }
    hide Slot, Full, Empty, Pow2, Accepted, Rejected, Readable;
  }

  lemma ThreadKeeps<T>(k: nat, s: Relay<T>, s': Relay<T>, step: RelayStep<T>)
    requires RelayInv(k, s) && Do(k, s, s', step)
    requires step.TakeEvent? || step.TakeNothing? || step.Log? || step.Count? || step.SeeRunning? || step.SeeStop?
    ensures RelayInv(k, s')
  {
    if step.TakeEvent? || step.TakeNothing? {
      TakeKeeps(k, s, s', step);
    } else if step.SeeStop? {
      SeeStopKeeps(k, s, s');
    } else {
      if step.Count? {
        DropCounts(|s.log| - 1);
      }
      hide Inv;
    }
  }

  lemma TakeKeeps<T>(k: nat, s: Relay<T>, s': Relay<T>, step: RelayStep<T>)
    requires RelayInv(k, s) && Do(k, s, s', step) && (step.TakeEvent? || step.TakeNothing?)
    ensures RelayInv(k, s')
  {
    ReturnKeeps(k, s.ring);
    hide Inv;
  }

  lemma ReturnKeeps<T>(k: nat, s: Ring<T>)
    requires Inv(k, s) && s.cons.CDone?
    ensures Inv(k, s.(cons := CIdle))
  {
    hide Slot, Full, Empty, Pow2, Accepted, Rejected;
  }

  lemma SeeStopKeeps<T>(k: nat, s: Relay<T>, s': Relay<T>)
    requires RelayInv(k, s) && Do(k, s, s', SeeStop)
    ensures RelayInv(k, s')
  {
    SeenKeeps(k, s.ring, s.told);
    hide Inv;
  }

  lemma SeenKeeps<T>(k: nat, s: Ring<T>, told: nat)
    requires Inv(k, s) && s.cons.CIdle? && told <= s.w
    ensures Inv(k, s.(seenW := if told > s.seenW then told else s.seenW))
  {
    hide Slot, Full, Empty, Pow2, Accepted, Rejected;
  }

  lemma ControlKeeps<T>(k: nat, s: Relay<T>, s': Relay<T>, step: RelayStep<T>)
    requires RelayInv(k, s) && Do(k, s, s', step)
    requires !(step.Push? || step.Pop?)
    requires !(step.TakeEvent? || step.TakeNothing? || step.Log? || step.Count? || step.SeeRunning? || step.SeeStop?)
    ensures RelayInv(k, s')
  {
    hide Slot, Full, Empty, Pow2, Accepted, Rejected;
  }

  // ----- Shutdown over every run -----

  ghost predicate RelayNext<T(!new)>(k: nat, s: Relay<T>, s': Relay<T>) {
    exists step :: Do(k, s, s', step)
  }

  ghost predicate RelayRun<T(!new)>(k: nat, trace: seq<Relay<T>>) {
    trace != [] && RelayInit(trace[0]) && forall i :: 0 <= i < |trace| - 1 ==> RelayNext(k, trace[i], trace[i + 1])
  }

  lemma {:induction false} RelayRunInv<T(!new)>(k: nat, trace: seq<Relay<T>>, i: nat)
    requires k < 64 && RelayRun(k, trace) && i < |trace|
    ensures RelayInv(k, trace[i])
  {
    if i == 0 {
      InitRelay(k, trace[0]);
    } else {
      RelayRunInv(k, trace, i - 1);
      assert RelayNext(k, trace[i - 1], trace[i - 1 + 1]);
      var step :| Do(k, trace[i - 1], trace[i], step);
      RelayKeeps(k, trace[i - 1], trace[i], step);
    }
  }

  /** At all times the log is a prefix, in order, of what the ring accepted. */
  lemma LogIsPrefix<T(!new)>(k: nat, trace: seq<Relay<T>>, i: nat)
    requires k < 64 && RelayRun(k, trace) && i < |trace|
    ensures trace[i].log <= Accepted(trace[i].ring.attempts)
  {
    RelayRunInv(k, trace, i);
    LogInOrder(k, trace[i]);
  }

  lemma FirstPushAccepted<T(!new)>(k: nat, trace: seq<Relay<T>>, i: nat)
    requires k < 64 && RelayRun(k, trace) && i < |trace|
    ensures trace[i].ring.attempts != [] ==> trace[i].ring.attempts[0].accepted
  {
    RelayRunInv(k, trace, i);
  }

  lemma LogInOrder<T>(k: nat, s: Relay<T>)
    requires RelayInv(k, s)
    ensures s.log <= Accepted(s.ring.attempts)
  {
    var all := Accepted(s.ring.attempts);
    assert all == s.ring.writes[..s.ring.w];
    assert s.ring.popped == all[..s.ring.r];
    assert s.log == s.ring.popped[..|s.log|];
  }

  /**
   When Stop returns, everything the controller knew to be pushed when it
   called Stop has been logged, in order, and processed counts the log.
   */
  lemma StopDelivers<T(!new)>(k: nat, trace: seq<Relay<T>>, i: nat)
    requires k < 64 && RelayRun(k, trace) && i < |trace| && trace[i].control.Stopped?
    ensures var s := trace[i];
      && s.told <= |s.log| && s.log <= Accepted(s.ring.attempts)
      && s.processed == |s.log| % WORD
  {
    RelayRunInv(k, trace, i);
    LogInOrder(k, trace[i]);
  }

  /**
   If nothing was pushed beyond what the controller knew when it called Stop,
   then after Stop the log is exactly the accepted pushes and the ring is empty.
   */
  lemma StopDrains<T(!new)>(k: nat, trace: seq<Relay<T>>, i: nat)
    requires k < 64 && RelayRun(k, trace) && i < |trace| && trace[i].control.Stopped?
    requires trace[i].ring.w == trace[i].told
    ensures var s := trace[i];
      s.log == Accepted(s.ring.attempts) && s.ring.w == s.ring.r && s.processed == |s.log| % WORD
  {
    StopDelivers(k, trace, i);
    RelayRunInv(k, trace, i);
    var s := trace[i];
    assert s.ring.writes[..s.ring.r] == s.ring.writes[..s.ring.w];
  }

  // ----- Stop returns -----

  /** Work left in the current drain loop: events in the ring, then the place within one iteration. */
  function DrainLeft<T>(s: Relay<T>): int {
    10 * (s.ring.w - s.ring.r) +
    match s.thread
    case Logging(_) => 12
    case LastLogging(_) => 12
    case Counting => 11
    case LastCounting => 11
    case Draining(_) => PopLeft(s.ring.cons)
    case LastDraining => PopLeft(s.ring.cons)
    case _ => 0
  }

  function PopLeft<T>(c: Consumer<T>): nat {
    match c
    case CIdle => 10
    case CLoaded(_) => 9
    case CChecked(_, _) => 8
    case CReading(_) => 7
    case CRead(_, _) => 6
    case CDone(None) => 7
    case CDone(Some(_)) => 13
  }

  /** Drain loops still to come. */
  function LoopsLeft<T>(s: Relay<T>): nat {
    match s.thread
    case NotRunning => 0
    case Exited => 0
    case LastDraining => 1
    case LastLogging(_) => 1
    case LastCounting => 1
    case _ => 2
  }

  predicate ThreadStep<T>(step: RelayStep<T>) {
    step.Pop? || step.TakeEvent? || step.TakeNothing? || step.Log? || step.Count? || step.SeeStop?
  }

  /** Bound on the thread steps left once the flag is set, without new pushes or missed looks at the flag. */
  function Work<T>(s: Relay<T>): int {
    20 * LoopsLeft(s) + DrainLeft(s)
  }

  lemma WorkIsNat<T>(k: nat, s: Relay<T>)
    requires RelayInv(k, s)
    ensures 0 <= DrainLeft(s) && 0 <= Work(s)
  {
  }

  /** Every thread step other than missing the flag makes progress toward its exit, within the loop or past it. */
  lemma ThreadProgress<T>(k: nat, s: Relay<T>, s': Relay<T>, step: RelayStep<T>)
    requires RelayInv(k, s) && Do(k, s, s', step) && ThreadStep(step)
    ensures LoopsLeft(s') < LoopsLeft(s) || (LoopsLeft(s') == LoopsLeft(s) && 0 <= DrainLeft(s') < DrainLeft(s))
    ensures 0 <= Work(s') < Work(s) && s'.ring.w == s.ring.w && s'.control == s.control
  {
    RelayKeeps(k, s, s', step);
    WorkIsNat(k, s');
    if step.Pop? {
      PopProgress(k, s.ring, s'.ring, step.pop);
    } else {
      IdleBetweenPops(k, s);
      hide RelayInv;
    }
  }

  lemma IdleBetweenPops<T>(k: nat, s: Relay<T>)
    requires RelayInv(k, s)
    ensures !Popping(s) ==> s.ring.cons.CIdle?
  {
  }

  lemma PopProgress<T>(k: nat, s: Ring<T>, s': Ring<T>, p: PopStep)
    requires Inv(k, s) && ConsumerStep(k, s, s', p) && !p.Return?
    ensures s'.w == s.w && PopLeft(s'.cons) - 10 * s'.r < PopLeft(s.cons) - 10 * s.r
  {
    hide Slot, Full, Empty, Pow2, Accepted, Rejected, Readable;
  }

  /** Once the flag is set, the thread always has such a step until it exits, so Stop's join ends. */
  lemma ThreadNeverStuck<T>(k: nat, s: Relay<T>) returns (step: RelayStep<T>, s': Relay<T>)
    requires RelayInv(k, s) && s.control.Joining? && !s.thread.Exited?
    ensures ThreadStep(step) && Do(k, s, s', step)
  {
    hide Slot, Full, Empty, Pow2, Accepted, Rejected;
    if s.thread.Logging? || s.thread.LastLogging? {
      step := Log;
      s' := s.(log := s.log + [s.thread.value], thread := if s.thread.Logging? then Counting else LastCounting);
    } else if s.thread.Counting? || s.thread.LastCounting? {
      step := Count;
      s' := s.(processed := (s.processed + 1) % WORD,
               thread := if s.thread.Counting? then Draining(true) else LastDraining);
    } else if s.thread.Checking? {
      step := SeeStop;
      s' := s.(thread := LastDraining,
               ring := s.ring.(seenW := if s.told > s.ring.seenW then s.told else s.ring.seenW));
    } else {
      step, s' := LoopNeverStuck(k, s);
    }
  }

  // ----- Whole stretches of a run -----

  /** The steps lead from each state of the trace to the next. */
  ghost predicate Follows<T>(k: nat, trace: seq<Relay<T>>, steps: seq<RelayStep<T>>) {
    && |trace| == |steps| + 1
    && forall n :: 0 <= n < |steps| ==> Do(k, trace[n], trace[n + 1], steps[n])
  }

  /** How many of the steps are the thread's own, and how many are looks that miss the flag. */
  function Moves<T>(steps: seq<RelayStep<T>>): nat {
    if steps == [] then 0 else
      var n := |steps| - 1;
      Moves(steps[..n]) + (if ThreadStep(steps[n]) then 1 else 0)
  }

  function Misses<T>(steps: seq<RelayStep<T>>): nat {
    if steps == [] then 0 else
      var n := |steps| - 1;
      Misses(steps[..n]) + (if steps[n].SeeRunning? then 1 else 0)
  }

  /** Waiting to join: a new event costs ten more thread steps, and so does a missed look; nothing else adds work. */
  lemma WaitingStep<T>(k: nat, s: Relay<T>, s': Relay<T>, step: RelayStep<T>)
    requires RelayInv(k, s) && Do(k, s, s', step) && s.control.Joining? && !step.Join?
    ensures RelayInv(k, s') && s'.control.Joining?
    ensures Work(s') + (if ThreadStep(step) then 1 else 0)
      <= Work(s) + 10 * (s'.ring.w - s.ring.w) + (if step.SeeRunning? then 10 else 0)
  {
    RelayKeeps(k, s, s', step);
    if ThreadStep(step) {
      ThreadProgress(k, s, s', step);
    } else {
      if step.Push? {
        PushMovesWrite(k, s, s', step);
      }
      IdleBetweenPops(k, s);
      hide RelayInv;
    }
  }

  lemma PushMovesWrite<T>(k: nat, s: Relay<T>, s': Relay<T>, step: RelayStep<T>)
    requires RelayInv(k, s) && Do(k, s, s', step) && step.Push?
    ensures s'.ring.cons == s.ring.cons && s'.ring.r == s.ring.r && s.ring.w <= s'.ring.w
    ensures s' == s.(ring := s'.ring)
  {
    hide Slot, Full, Empty, Pow2, Accepted, Rejected, Readable;
  }

  /**
   In every interleaving, while Stop waits to join, the thread's steps are
   bounded: by the work at hand, plus ten per event published meanwhile, plus
   ten per look at the flag that missed it.
   */
  lemma {:induction false} StopWaitsBounded<T>(k: nat, trace: seq<Relay<T>>, steps: seq<RelayStep<T>>)
    requires Follows(k, trace, steps) && RelayInv(k, trace[0]) && trace[0].control.Joining?
    requires forall n :: 0 <= n < |steps| ==> !steps[n].Join?
    ensures var s := trace[|steps|];
      && RelayInv(k, s) && s.control.Joining?
      && Moves(steps) + Work(s) <= Work(trace[0]) + 10 * (s.ring.w - trace[0].ring.w) + 10 * Misses(steps)
    decreases |steps|
  {
    hide RelayInv, Do, Work, ThreadStep;
    if steps != [] {
      var n := |steps| - 1;
      StopWaitsBounded(k, trace[..n + 1], steps[..n]);
      WaitingStep(k, trace[n], trace[n + 1], steps[n]);
    }
  }

  /**
   Left to itself with the flag seen when looked at, the thread takes a bounded
   number of steps, and it can take no more exactly when it has exited and Stop
   can join.
   */
  lemma StopReturns<T(!new)>(k: nat, trace: seq<Relay<T>>, steps: seq<RelayStep<T>>)
    requires Follows(k, trace, steps) && RelayInv(k, trace[0]) && trace[0].control.Joining?
    requires forall n :: 0 <= n < |steps| ==> ThreadStep(steps[n])
    ensures |steps| <= Work(trace[0])
    ensures trace[|steps|].thread.Exited? <==> !ThreadCanMove(k, trace[|steps|])
    ensures trace[|steps|].thread.Exited? ==>
      Do(k, trace[|steps|], trace[|steps|].(thread := NotRunning, control := Joined), Join)
  {
    var s := trace[|steps|];
    StopWaitsBounded(k, trace, steps);
    OnlyMoves(k, trace, steps);
    WorkIsNat(k, s);
    hide RelayInv, Do, Follows;
    if s.thread.Exited? {
      ExitedIsStill(k, s);
    } else {
      var step, s' := ThreadNeverStuck(k, s);
    }
  }

  lemma ExitedIsStill<T(!new)>(k: nat, s: Relay<T>)
    requires s.thread.Exited? && s.control.Joining?
    ensures !ThreadCanMove(k, s)
    ensures Do(k, s, s.(thread := NotRunning, control := Joined), Join)
  {
  }

  ghost predicate ThreadCanMove<T(!new)>(k: nat, s: Relay<T>) {
    exists step, s' :: ThreadStep(step) && Do(k, s, s', step)
  }

  lemma {:induction false} OnlyMoves<T>(k: nat, trace: seq<Relay<T>>, steps: seq<RelayStep<T>>)
    requires Follows(k, trace, steps) && forall n :: 0 <= n < |steps| ==> ThreadStep(steps[n])
    ensures Moves(steps) == |steps| && Misses(steps) == 0
    ensures trace[|steps|].ring.w == trace[0].ring.w
    decreases |steps|
  {
    if steps != [] {
      var n := |steps| - 1;
      OnlyMoves(k, trace[..n + 1], steps[..n]);
      assert Do(k, trace[n], trace[n + 1], steps[n]);
    }
  }

  lemma LoopNeverStuck<T>(k: nat, s: Relay<T>) returns (step: RelayStep<T>, s': Relay<T>)
    requires Inv(k, s.ring) && Popping(s)
    ensures ThreadStep(step) && Do(k, s, s', step)
  {
    hide Inv;
    var c := s.ring.cons;
    if c.CDone? && c.result.Some? {
      var v := c.result.value;
      step := TakeEvent;
      s' := s.(ring := s.ring.(cons := CIdle), thread := if s.thread.Draining? then Logging(v) else LastLogging(v));
    } else if c.CDone? {
      step := TakeNothing;
      s' := s.(ring := s.ring.(cons := CIdle), thread := if s.thread.Draining? then Checking(s.thread.got) else Exited);
    } else {
      var pop, ring := PopNeverStuck(k, s.ring);
      step, s' := Pop(pop), s.(ring := ring);
    }
  }

  lemma PopNeverStuck<T>(k: nat, s: Ring<T>) returns (step: PopStep, s': Ring<T>)
    requires Inv(k, s) && !s.cons.CDone?
    ensures ConsumerStep(k, s, s', step) && !step.Return?
  {
    hide Slot, Full, Empty, Pow2, Accepted, Rejected;
    match s.cons
    case CIdle =>
      step, s' := BeginPop, s.(cons := CLoaded(s.r));
    case CLoaded(r) =>
      step, s' := LoadWrite(s.seenW), s.(cons := CChecked(r, s.seenW));
    case CChecked(r, w) =>
      if Empty(w, r) {
        step, s' := FindEmpty, s.(cons := CDone(None));
      } else {
        step, s' := BeginRead, s.(cons := CReading(r));
      }
    case CReading(r) =>
      OwnWriteReadable(k, s);
      step, s' := EndRead(r), s.(cons := CRead(r, s.writes[r]));
    case CRead(r, v) =>
      step, s' := Release, s.(cons := CDone(Some(v)), r := r + 1, popped := s.popped + [v]);
  }

  // ----- What the calls do, and that runs exist -----

  /** Two stretches, one ending where the other begins, are one. */
  lemma FollowsJoin<T>(k: nat, trace: seq<Relay<T>>, steps: seq<RelayStep<T>>,
                       trace2: seq<Relay<T>>, steps2: seq<RelayStep<T>>)
    requires Follows(k, trace, steps) && Follows(k, trace2, steps2) && trace[|steps|] == trace2[0]
    ensures Follows(k, trace + trace2[1..], steps + steps2)
    ensures (trace + trace2[1..])[|steps + steps2|] == trace2[|steps2|]
  {
    hide Do;
    var all, moves := trace + trace2[1..], steps + steps2;
    forall n | 0 <= n < |moves|
      ensures Do(k, all[n], all[n + 1], moves[n])
    {
      if n < |steps| {
        assert Do(k, trace[n], trace[n + 1], steps[n]);
      } else {
        var m := n - |steps|;
        assert all[n] == trace2[m] && all[n + 1] == trace2[m + 1];
        assert Do(k, trace2[m], trace2[m + 1], steps2[m]);
      }
    }
  }

  lemma {:induction false} FollowsInv<T>(k: nat, trace: seq<Relay<T>>, steps: seq<RelayStep<T>>)
    requires Follows(k, trace, steps) && RelayInv(k, trace[0])
    ensures RelayInv(k, trace[|steps|])
    decreases |steps|
  {
    hide RelayInv, Do;
    if steps != [] {
      var n := |steps| - 1;
      FollowsInv(k, trace[..n + 1], steps[..n]);
      RelayKeeps(k, trace[n], trace[n + 1], steps[n]);
    }
  }

  /** Start on a stopped relay runs through, ending with the relay running and its thread at work. */
  lemma StartReturns<T>(k: nat, s: Relay<T>) returns (trace: seq<Relay<T>>, steps: seq<RelayStep<T>>)
    requires (s.control.Idle? || s.control.Stopped?) && !s.running
    ensures Follows(k, trace, steps) && trace[0] == s
    ensures trace[|steps|] == s.(running := true, stop := false, thread := Draining(false), control := Idle)
    ensures forall n :: 0 <= n < |steps| ==> !steps[n].Push?
  {
    var started := s.(running := true, control := Started);
    var cleared := started.(stop := false, control := Cleared);
    trace := [s, started, cleared, cleared.(thread := Draining(false), control := Idle)];
    steps := [CallStart, ClearFlag, Spawn];
  }

  /** Stop on a running relay sets the flag, telling the thread all the controller knows, and waits. */
  lemma StopWaits<T>(k: nat, s: Relay<T>) returns (trace: seq<Relay<T>>, steps: seq<RelayStep<T>>)
    requires s.control.Idle? && s.running
    ensures Follows(k, trace, steps) && trace[0] == s
    ensures trace[|steps|] == s.(stop := true, told := s.known, control := Joining)
    ensures forall n :: 0 <= n < |steps| ==> !steps[n].Push?
  {
    var stopping := s.(control := Stopping);
    trace := [s, stopping, stopping.(stop := true, told := s.known, control := Joining)];
    steps := [CallStop, SetFlag];
  }

  /** Once the thread has exited Stop joins it, clears the running flag and returns; nothing else changes. */
  lemma StopClears<T>(k: nat, s: Relay<T>) returns (trace: seq<Relay<T>>, steps: seq<RelayStep<T>>)
    requires s.control.Joining? && s.thread.Exited?
    ensures Follows(k, trace, steps) && trace[0] == s
    ensures trace[|steps|] == s.(thread := NotRunning, running := false, control := Stopped)
    ensures forall n :: 0 <= n < |steps| ==> !steps[n].Push?
  {
    var joined := s.(thread := NotRunning, control := Joined);
    trace := [s, joined, joined.(running := false, control := Stopped)];
    steps := [Join, ClearRunning];
  }

  /** A second Start on a running relay, and a second Stop on a stopped one, return at once and change nothing. */
  lemma CallsAreIdempotent<T>(k: nat, s: Relay<T>)
    requires s.control.Idle? || s.control.Stopped?
    ensures s.running ==> Do(k, s, s, StartAgain)
    ensures !s.running ==> Do(k, s, s, StopIdle)
    ensures s.control.Stopped? ==> Do(k, s, s.(control := Idle), Resume)
  {
  }

  /** Producer and relay thread move freely: no step of theirs waits for the others, and a look may miss the flag. */
  lemma FreelyInterleaved<T(!new)>(k: nat, s: Relay<T>)
    ensures forall p, ring :: ProducerStep(k, s.ring, ring, p) ==> Do(k, s, s.(ring := ring), Push(p))
    ensures Popping(s) ==> forall p, ring :: ConsumerStep(k, s.ring, ring, p) && !p.Return? ==>
      Do(k, s, s.(ring := ring), Pop(p))
    ensures s.thread.Checking? ==> Do(k, s, s.(thread := Draining(false)), SeeRunning)
  {
    hide ProducerStep, ConsumerStep;
  }

  /** The thread's own steps leave the producer's side and the controller alone. */
  lemma ThreadLeavesRest<T>(k: nat, s: Relay<T>, s': Relay<T>, step: RelayStep<T>)
    requires Do(k, s, s', step) && ThreadStep(step)
    ensures !step.Push? && s'.control == s.control && s'.told == s.told && s'.known == s.known
    ensures s'.ring.attempts == s.ring.attempts && s'.ring.w == s.ring.w && s'.ring.prod == s.ring.prod
  {
    hide Slot, Full, Empty, Readable;
  }

  /** From any reachable state in which Stop waits, it can return, without any push in between. */
  lemma StopCanReturn<T>(k: nat, s: Relay<T>) returns (trace: seq<Relay<T>>, steps: seq<RelayStep<T>>)
    requires RelayInv(k, s) && s.control.Joining?
    ensures Follows(k, trace, steps) && trace[0] == s
    ensures forall n :: 0 <= n < |steps| ==> !steps[n].Push?
    ensures var s' := trace[|steps|];
      && s'.control.Stopped? && !s'.running && s'.thread.NotRunning? && s'.told == s.told && s'.known == s.known
      && s'.ring.attempts == s.ring.attempts && s'.ring.w == s.ring.w && s'.ring.prod == s.ring.prod
    decreases Work(s)
  {
    WorkIsNat(k, s);
    if s.thread.Exited? {
      trace, steps := StopClears(k, s);
    } else {
      var step, next := ThreadNeverStuck(k, s);
      ThreadProgress(k, s, next, step);
      ThreadLeavesRest(k, s, next, step);
      RelayKeeps(k, s, next, step);
      hide RelayInv, Do, Work;
      var rest, moves := StopCanReturn(k, next);
      assert Follows(k, [s, next], [step]);
      FollowsJoin(k, [s, next], [step], rest, moves);
      trace, steps := [s, next] + rest[1..], [step] + moves;
    }
  }

  /** A producer's stretch in the ring is one of the whole machine. */
  lemma PushesFollow<T>(k: nat, s: Relay<T>, rings: seq<Ring<T>>, pushes: seq<PushStep<T>>)
      returns (trace: seq<Relay<T>>, steps: seq<RelayStep<T>>)
    requires Pushes(k, rings, pushes) && rings[0] == s.ring
    ensures Follows(k, trace, steps) && trace[0] == s && |steps| == |pushes|
    ensures trace[|steps|] == s.(ring := rings[|pushes|])
    ensures forall n :: 0 <= n < |steps| ==> steps[n] == Push(pushes[n])
  {
    hide ProducerStep;
    trace := seq(|rings|, n requires 0 <= n < |rings| => s.(ring := rings[n]));
    steps := seq(|pushes|, n requires 0 <= n < |pushes| => Push(pushes[n]));
    forall n | 0 <= n < |steps|
      ensures Do(k, trace[n], trace[n + 1], steps[n])
    {
      assert ProducerStep(k, rings[n], rings[n + 1], pushes[n]);
      assert trace[n].(ring := rings[n + 1]) == trace[n + 1];
    }
  }

  /** The attempts of an undisturbed producer with room for all of them. */
  function AllAttempts<T>(values: seq<T>): (a: seq<Attempt<T>>)
    ensures |a| == |values|
  {
    seq(|values|, i requires 0 <= i < |values| => Attempt(values[i], true))
  }

  lemma {:induction false} AllAttemptsAccepted<T>(values: seq<T>)
    ensures Accepted(AllAttempts(values)) == values && Rejected(AllAttempts(values)) == 0
  {
    if values != [] {
      var n := |values| - 1;
      AllAttemptsAccepted(values[..n]);
      assert AllAttempts(values)[..n] == AllAttempts(values[..n]);
    }
  }

  /** Room for all: whatever relay and controller are doing, every value can be pushed. */
  lemma {:induction false} PushAll<T>(k: nat, s: Relay<T>, values: seq<T>)
      returns (trace: seq<Relay<T>>, steps: seq<RelayStep<T>>)
    requires RelayInv(k, s) && s.ring.prod.PIdle? && s.ring.w - s.ring.r + |values| <= Pow2(k)
    ensures Follows(k, trace, steps) && trace[0] == s
    ensures var s' := trace[|steps|];
      && RelayInv(k, s') && s' == s.(ring := s'.ring)
      && s'.ring.prod.PIdle? && s'.ring.r == s.ring.r && s'.ring.w == s.ring.w + |values|
      && s'.ring.attempts == s.ring.attempts + AllAttempts(values)
    decreases |values|
  {
    if values == [] {
      trace, steps := [s], [];
      assert s.ring.attempts + AllAttempts(values) == s.ring.attempts;
    } else {
      var rings, pushes := PushCompletes(k, s.ring, values[0]);
      var first, moves := PushesFollow(k, s, rings, pushes);
      FollowsInv(k, first, moves);
      hide RelayInv, Do, Pow2;
      var rest, more := PushAll(k, first[|moves|], values[1..]);
      FollowsJoin(k, first, moves, rest, more);
      trace, steps := first + rest[1..], moves + more;
      AttemptsCons(s.ring.attempts, values);
    }
  }

  lemma AttemptsCons<T>(attempts: seq<Attempt<T>>, values: seq<T>)
    requires values != []
    ensures (attempts + [Attempt(values[0], true)]) + AllAttempts(values[1..]) == attempts + AllAttempts(values)
  {
    assert AllAttempts(values) == [Attempt(values[0], true)] + AllAttempts(values[1..]);
  }

  /** From any reachable state with the relay running, Stop can be called, knowing all pushes, and return. */
  lemma CanStop<T>(k: nat, s: Relay<T>) returns (trace: seq<Relay<T>>, steps: seq<RelayStep<T>>)
    requires RelayInv(k, s) && s.control.Idle? && s.running
    ensures Follows(k, trace, steps) && trace[0] == s
    ensures forall n :: 0 <= n < |steps| ==> !steps[n].Push?
    ensures var s' := trace[|steps|];
      && s'.control.Stopped? && !s'.running && s'.told == s'.ring.w
      && s'.ring.attempts == s.ring.attempts && s'.ring.prod == s.ring.prod
  {
    var learned := s.(known := s.ring.w);
    KnownBound(k, s);
    assert Do(k, s, learned, Learn(s.ring.w));
    RelayKeeps(k, s, learned, Learn(s.ring.w));
    hide Do, RelayInv;
    var wait, calls := StopWaits(k, learned);
    FollowsInv(k, wait, calls);
    var rest, moves := StopCanReturn(k, wait[|calls|]);
    FollowsJoin(k, wait, calls, rest, moves);
    var most, more := wait + rest[1..], calls + moves;
    FollowsJoin(k, [s, learned], [Learn(s.ring.w)], most, more);
    trace, steps := [s, learned] + most[1..], [Learn(s.ring.w)] + more;
  }

  lemma KnownBound<T>(k: nat, s: Relay<T>)
    requires RelayInv(k, s)
    ensures s.known <= s.ring.w
  {
  }

  lemma FollowsRun<T(!new)>(k: nat, trace: seq<Relay<T>>, steps: seq<RelayStep<T>>)
    requires Follows(k, trace, steps) && RelayInit(trace[0])
    ensures RelayRun(k, trace)
  {
    hide Do;
    forall n | 0 <= n < |trace| - 1
      ensures RelayNext(k, trace[n], trace[n + 1])
    {
      assert Do(k, trace[n], trace[n + 1], steps[n]);
    }
  }

  function InitialRelay<T>(): Relay<T> {
    Relay(Ring(0, 0, 0, [], 0, 0, PIdle, CIdle, [], []), NotRunning, Idle, [], 0, false, false, 0, 0)
  }

  /**
   The shutdown results are about runs that exist: for any values that fit the
   ring there is a run in which they are pushed, the relay is started and
   stopped, Stop returns, and the log holds exactly them.
   */
  lemma RunExists<T(!new)>(k: nat, values: seq<T>) returns (trace: seq<Relay<T>>, last: nat)
    requires k < 64 && |values| <= Pow2(k)
    ensures RelayRun(k, trace) && last < |trace|
    ensures trace[last].control.Stopped? && !trace[last].running && trace[last].log == values
    ensures trace[last].ring.w == trace[last].told == |values|
  {
    var s := InitialRelay<T>();
    InitRelay(k, s);
    var pushed, pushes := PushAll(k, s, values);
    var started, starts := StartReturns(k, pushed[|pushes|]);
    FollowsInv(k, started, starts);
    hide RelayInv, Do, Pow2;
    var stopped, stops := CanStop(k, started[|starts|]);
    FollowsJoin(k, pushed, pushes, started, starts);
    var most, moves := pushed + started[1..], pushes + starts;
    FollowsJoin(k, most, moves, stopped, stops);
    trace := most + stopped[1..];
    last := |moves + stops|;
    FollowsRun(k, trace, moves + stops);
    StopDrains(k, trace, last);
    AllAttemptsAccepted(values);
    assert [] + AllAttempts(values) == AllAttempts(values);
    AcceptedCount(k, trace[last], trace, last);
  }

  lemma AcceptedCount<T(!new)>(k: nat, s: Relay<T>, trace: seq<Relay<T>>, i: nat)
    requires k < 64 && RelayRun(k, trace) && i < |trace| && trace[i] == s
    ensures |Accepted(s.ring.attempts)| == s.ring.w
  {
    RelayRunInv(k, trace, i);
  }
}
