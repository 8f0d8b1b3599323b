/**
 The lock-free ring as a step machine: one producer and one consumer, each
 TryPush and TryPop split at every shared access and interleaved arbitrarily.

 Indices are counted without bound (w, r), but every comparison and every slot
 address is computed, as in the source, from their 64-bit wrapped values. An
 acquire load of the other side's index may return any value between the one
 that side last acquired and the current one. A slot read may return any write
 to that slot which the reader has not yet seen superseded.
 */
module RingProtocol {
  import opened Bits

  datatype Option<T> = None | Some(value: T)

  datatype Attempt<T> = Attempt(value: T, accepted: bool)

  datatype Producer<T> =
    | PIdle
    | PLoaded(w: nat, value: T)            // own index loaded
    | PChecked(w: nat, r: nat, value: T)   // read index acquired
    | PWriting(w: nat, value: T)           // slot write under way
    | PWritten(w: nat, value: T)           // slot written, not yet published

  datatype Consumer<T> =
    | CIdle
    | CLoaded(r: nat)                      // own index loaded
    | CChecked(r: nat, w: nat)             // write index acquired
    | CReading(r: nat)                     // slot read under way
    | CRead(r: nat, value: T)              // slot read, not yet released
    | CDone(result: Option<T>)             // TryPop returns

  datatype Ring<T> = Ring(
    w: nat, r: nat, dropped: nat,
    writes: seq<T>,                        // slot writes in order; write i went to slot Slot(i)
    seenR: nat, seenW: nat,                // newest index each side has acquired
    prod: Producer<T>, cons: Consumer<T>,
    attempts: seq<Attempt<T>>,             // completed pushes in order
    popped: seq<T>)                        // completed pops in order

  function Slot(i: nat, k: nat): nat {
    And(i % WORD, Pow2(k) - 1)
  }

  /** The producer's full test on wrapped indices. */
  predicate Full(w: nat, r: nat, k: nat) {
    WrapSub(w % WORD, r % WORD) >= Pow2(k)
  }

  /** The consumer's empty test on wrapped indices. */
  predicate Empty(w: nat, r: nat) {
    r % WORD == w % WORD
  }

  ghost predicate Init<T>(s: Ring<T>) {
    s == Ring(0, 0, 0, [], 0, 0, PIdle, CIdle, [], [])
  }

  datatype PushStep<T> = BeginPush(value: T) | LoadRead(r: nat) | RejectFull | BeginWrite | EndWrite | Publish

  ghost predicate ProducerStep<T>(k: nat, s: Ring<T>, s': Ring<T>, step: PushStep<T>) {
    match step
    case BeginPush(v) =>
      s.prod.PIdle? && s' == s.(prod := PLoaded(s.w, v))
    case LoadRead(r) =>
      && s.prod.PLoaded? && s.seenR <= r <= s.r
      && s' == s.(prod := PChecked(s.prod.w, r, s.prod.value), seenR := r)
    case RejectFull =>
      && s.prod.PChecked? && Full(s.prod.w, s.prod.r, k)
      && s' == s.(prod := PIdle, dropped := (s.dropped + 1) % WORD,
                  attempts := s.attempts + [Attempt(s.prod.value, false)])
    case BeginWrite =>
      && s.prod.PChecked? && !Full(s.prod.w, s.prod.r, k)
      && s' == s.(prod := PWriting(s.prod.w, s.prod.value))
    case EndWrite =>
      && s.prod.PWriting?
      && s' == s.(prod := PWritten(s.prod.w, s.prod.value), writes := s.writes + [s.prod.value])
    case Publish =>
      && s.prod.PWritten?
      && s' == s.(prod := PIdle, w := s.prod.w + 1, attempts := s.attempts + [Attempt(s.prod.value, true)])
  }

  datatype PopStep = BeginPop | LoadWrite(w: nat) | FindEmpty | BeginRead | EndRead(i: nat) | Release | Return

  /** Write i may be what a read of slot Slot(r) returns: same slot, and no newer write to it has been acquired. */
  ghost predicate Readable<T>(k: nat, s: Ring<T>, r: nat, i: nat) {
    && i < |s.writes| && Slot(i, k) == Slot(r, k)
    && forall j :: i < j < s.seenW ==> Slot(j, k) != Slot(r, k)
  }

  ghost predicate ConsumerStep<T>(k: nat, s: Ring<T>, s': Ring<T>, step: PopStep) {
    match step
    case BeginPop =>
      s.cons.CIdle? && s' == s.(cons := CLoaded(s.r))
    case LoadWrite(w) =>
      && s.cons.CLoaded? && s.seenW <= w <= s.w
      && s' == s.(cons := CChecked(s.cons.r, w), seenW := w)
    case FindEmpty =>
      s.cons.CChecked? && Empty(s.cons.w, s.cons.r) && s' == s.(cons := CDone(None))
    case BeginRead =>
      s.cons.CChecked? && !Empty(s.cons.w, s.cons.r) && s' == s.(cons := CReading(s.cons.r))
    case EndRead(i) =>
      && s.cons.CReading? && Readable(k, s, s.cons.r, i)
      && s' == s.(cons := CRead(s.cons.r, s.writes[i]))
    case Release =>
      && s.cons.CRead?
      && s' == s.(cons := CDone(Some(s.cons.value)), r := s.cons.r + 1, popped := s.popped + [s.cons.value])
    case Return =>
      s.cons.CDone? && s' == s.(cons := CIdle)
  }

  ghost predicate Next<T(!new)>(k: nat, s: Ring<T>, s': Ring<T>) {
    (exists step :: ProducerStep(k, s, s', step)) || (exists step :: ConsumerStep(k, s, s', step))
  }

  // ----- What was accepted and rejected -----

  function Accepted<T>(attempts: seq<Attempt<T>>): seq<T> {
    if attempts == [] then [] else
      var n := |attempts| - 1;
      Accepted(attempts[..n]) + (if attempts[n].accepted then [attempts[n].value] else [])
  }

  function Rejected<T>(attempts: seq<Attempt<T>>): nat {
    if attempts == [] then 0 else
      var n := |attempts| - 1;
      Rejected(attempts[..n]) + (if attempts[n].accepted then 0 else 1)
  }

  lemma AppendAttempt<T>(attempts: seq<Attempt<T>>, a: Attempt<T>)
    ensures Accepted(attempts + [a]) == Accepted(attempts) + (if a.accepted then [a.value] else [])
    ensures Rejected(attempts + [a]) == Rejected(attempts) + (if a.accepted then 0 else 1)
  {
    assert (attempts + [a])[..|attempts|] == attempts;
  }

  lemma {:induction false} AttemptsSplit<T>(attempts: seq<Attempt<T>>)
    ensures |attempts| == |Accepted(attempts)| + Rejected(attempts)
  {
    if attempts != [] {
      AttemptsSplit(attempts[..|attempts| - 1]);
    }
  }

  // ----- Invariant -----

  ghost predicate Indices<T>(k: nat, s: Ring<T>) {
    && s.seenR <= s.r <= s.seenW <= s.w <= s.seenR + Pow2(k)
    && |s.writes| == s.w + (if s.prod.PWritten? then 1 else 0)
    && s.popped == s.writes[..s.r]
    && Accepted(s.attempts) == s.writes[..s.w]
    && s.dropped == Rejected(s.attempts) % WORD
    && (s.attempts != [] ==> s.attempts[0].accepted)
  }

  ghost predicate ProducerInv<T>(k: nat, s: Ring<T>) {
    match s.prod
    case PIdle => true
    case PLoaded(w, _) => w == s.w
    case PChecked(w, r, _) => w == s.w && r == s.seenR
    case PWriting(w, _) => w == s.w < s.seenR + Pow2(k)
    case PWritten(w, v) => w == s.w < s.seenR + Pow2(k) && |s.writes| == w + 1 && s.writes[w] == v
  }

  ghost predicate ConsumerInv<T>(s: Ring<T>) {
    match s.cons
    case CIdle => true
    case CLoaded(r) => r == s.r
    case CChecked(r, w) => r == s.r && w == s.seenW
    case CReading(r) => r == s.r < s.seenW
    case CRead(r, v) => r == s.r < s.seenW && r < |s.writes| && v == s.writes[r]
    case CDone(_) => true
  }

  ghost predicate Inv<T>(k: nat, s: Ring<T>) {
    k < 64 && Indices(k, s) && ProducerInv(k, s) && ConsumerInv(s)
  }

  /** Wrapped tests decide what the unbounded counters would. */
  lemma WrappedTests(w: nat, r: nat, k: nat)
    requires k < 64 && r <= w <= r + Pow2(k)
    ensures Full(w, r, k) <==> w - r >= Pow2(k)
    ensures Empty(w, r) <==> w == r
  {
    CapacityFits(k);
    WrapDifference(w, r);
    if Empty(w, r) {
      ModApart(w, r, WORD);
    }
  }

  lemma CapacityFits(k: nat)
    requires k < 64
    ensures Pow2(k) < WORD
  {
    WordIsPow2();
    assert Pow2(64) == 2 * Pow2(63);
    hide Pow2;
    Pow2Split(k, 63);
    MulAtLeast(Pow2(k), Pow2(63 - k));
  }

  /** Counters less than a capacity apart use the same slot only if equal. */
  lemma SlotApart(i: nat, j: nat, k: nat)
    requires k < 64 && i - j < Pow2(k) && j - i < Pow2(k) && Slot(i, k) == Slot(j, k)
    ensures i == j
  {
    WrapThenMask(i, k);
    WrapThenMask(j, k);
    ModApart(i, j, Pow2(k));
  }

  lemma InitInv<T>(k: nat, s: Ring<T>)
    requires k < 64 && Init(s)
    ensures Inv(k, s)
  {
  }

  lemma ProducerKeeps<T>(k: nat, s: Ring<T>, s': Ring<T>, step: PushStep<T>)
    requires Inv(k, s) && ProducerStep(k, s, s', step)
    ensures Inv(k, s')
  {
    hide Slot, Full, Empty, Pow2, Accepted, Rejected;
    match step
    case RejectFull =>
      AppendAttempt(s.attempts, Attempt(s.prod.value, false));
      DropCounts(Rejected(s.attempts));
      WrappedTests(s.prod.w, s.prod.r, k);
      if s.attempts == [] {
        NothingSent(s);
      }
    case BeginWrite =>
      WrappedTests(s.prod.w, s.prod.r, k);
    case Publish =>
      AppendAttempt(s.attempts, Attempt(s.prod.value, true));
      assert s.writes[..s.w + 1] == s.writes[..s.w] + [s.writes[s.w]];
    case _ =>
  }

  lemma NothingSent<T>(s: Ring<T>)
    requires s.w <= |s.writes| && Accepted(s.attempts) == s.writes[..s.w] && s.attempts == []
    ensures s.w == 0
  {
  }

  lemma DropCounts(n: nat)
    ensures (n % WORD + 1) % WORD == (n + 1) % WORD
  {
  }

  /** The value a read may return is the one pushed at that index. */
  lemma ReadIsExact<T>(k: nat, s: Ring<T>, i: nat)
    requires Inv(k, s) && s.cons.CReading? && Readable(k, s, s.cons.r, i)
    ensures i == s.r && s.cons.r == s.r
  {
    SlotApart(i, s.r, k);
  }

  lemma ConsumerKeeps<T>(k: nat, s: Ring<T>, s': Ring<T>, step: PopStep)
    requires Inv(k, s) && ConsumerStep(k, s, s', step)
    ensures Inv(k, s')
  {
    hide Slot, Full, Empty, Pow2, Accepted, Rejected, Readable;
    match step
    case BeginRead =>
      WrappedTests(s.cons.w, s.cons.r, k);
    case EndRead(i) =>
      ReadIsExact(k, s, i);
    case Release =>
      assert s.writes[..s.r + 1] == s.writes[..s.r] + [s.writes[s.r]];
    case _ =>
  }

  // ----- Safety over every run -----

  ghost predicate Run<T(!new)>(k: nat, trace: seq<Ring<T>>) {
    trace != [] && Init(trace[0]) && forall i :: 0 <= i < |trace| - 1 ==> Next(k, trace[i], trace[i + 1])
  }

  lemma {:induction false} RunInv<T(!new)>(k: nat, trace: seq<Ring<T>>, i: nat)
    requires k < 64 && Run(k, trace) && i < |trace|
    ensures Inv(k, trace[i])
  {
    if i == 0 {
      InitInv(k, trace[0]);
    } else {
      RunInv(k, trace, i - 1);
      var s, s' := trace[i - 1], trace[i];
      assert Next(k, trace[i - 1], trace[i - 1 + 1]);
      if step :| ProducerStep(k, s, s', step) {
        ProducerKeeps(k, s, s', step);
      } else {
        var step :| ConsumerStep(k, s, s', step);
        ConsumerKeeps(k, s, s', step);
      }
    }
  }

  /** Occupancy never exceeds the capacity, stale loads or not. */
  lemma Bounded<T(!new)>(k: nat, trace: seq<Ring<T>>, i: nat)
    requires k < 64 && Run(k, trace) && i < |trace|
    ensures 0 <= trace[i].w - trace[i].r <= Pow2(k)
  {
    RunInv(k, trace, i);
  }

  /** Producer and consumer are never inside the same slot at once. */
  lemma NoSharedSlot<T(!new)>(k: nat, trace: seq<Ring<T>>, i: nat)
    requires k < 64 && Run(k, trace) && i < |trace|
    requires trace[i].prod.PWriting? && trace[i].cons.CReading?
    ensures Slot(trace[i].prod.w, k) != Slot(trace[i].cons.r, k)
  {
    RunInv(k, trace, i);
    if Slot(trace[i].prod.w, k) == Slot(trace[i].cons.r, k) {
      SlotApart(trace[i].prod.w, trace[i].cons.r, k);
    }
  }

  /** What has been popped is a prefix, in order, of what has been accepted. */
  lemma PoppedIsPrefix<T(!new)>(k: nat, trace: seq<Ring<T>>, i: nat)
    requires k < 64 && Run(k, trace) && i < |trace|
    ensures trace[i].popped <= Accepted(trace[i].attempts)
  {
    RunInv(k, trace, i);
    var s := trace[i];
    assert s.writes[..s.r] == s.writes[..s.w][..s.r];
  }

  /** Every completed push is popped, still in the ring, or counted as dropped. */
  lemma NothingLost<T(!new)>(k: nat, trace: seq<Ring<T>>, i: nat)
    requires k < 64 && Run(k, trace) && i < |trace|
    ensures var s := trace[i];
      && |s.attempts| == |s.popped| + (s.w - s.r) + Rejected(s.attempts)
      && s.dropped == Rejected(s.attempts) % WORD
  {
    RunInv(k, trace, i);
    AttemptsSplit(trace[i].attempts);
  }

  /** Once the ring is empty, what was popped is everything accepted. */
  lemma DrainedIsAll<T(!new)>(k: nat, trace: seq<Ring<T>>, i: nat)
    requires k < 64 && Run(k, trace) && i < |trace| && trace[i].r == trace[i].w
    ensures trace[i].popped == Accepted(trace[i].attempts)
  {
    RunInv(k, trace, i);
  }

  /** On a fresh ring the first push is always accepted. */
  lemma FirstAccepted<T(!new)>(k: nat, trace: seq<Ring<T>>, i: nat)
    requires k < 64 && Run(k, trace) && i < |trace|
    ensures trace[i].attempts != [] ==> trace[i].attempts[0].accepted
  {
    RunInv(k, trace, i);
  }

  /** Shared accesses a push still has ahead of it. */
  function PushLeft<T>(p: Producer<T>): nat {
    match p
    case PIdle => 0
    case PLoaded(_, _) => 4
    case PChecked(_, _, _) => 3
    case PWriting(_, _) => 2
    case PWritten(_, _) => 1
  }

  /** TryPush never waits: whatever the consumer does, a push under way has a step, and each brings its end closer. */
  lemma PushNeverWaits<T>(k: nat, s: Ring<T>) returns (step: PushStep<T>, s': Ring<T>)
    requires Inv(k, s) && !s.prod.PIdle?
    ensures ProducerStep(k, s, s', step)
    ensures forall step2, s2 :: ProducerStep(k, s, s2, step2) ==> PushLeft(s2.prod) < PushLeft(s.prod)
  {
    hide Full;
    match s.prod
    case PLoaded(w, v) =>
      step, s' := LoadRead(s.seenR), s.(prod := PChecked(w, s.seenR, v));
    case PChecked(w, r, v) =>
      if Full(w, r, k) {
        step := RejectFull;
        s' := s.(prod := PIdle, dropped := (s.dropped + 1) % WORD, attempts := s.attempts + [Attempt(v, false)]);
      } else {
        step, s' := BeginWrite, s.(prod := PWriting(w, v));
      }
    case PWriting(w, v) =>
      step, s' := EndWrite, s.(prod := PWritten(w, v), writes := s.writes + [v]);
    case PWritten(w, v) =>
      step, s' := Publish, s.(prod := PIdle, w := w + 1, attempts := s.attempts + [Attempt(v, true)]);
  }

  lemma OwnWriteReadable<T>(k: nat, s: Ring<T>)
    requires Inv(k, s) && s.cons.CReading?
    ensures Readable(k, s, s.cons.r, s.cons.r)
  {
    forall j | s.cons.r < j < s.seenW
      ensures Slot(j, k) != Slot(s.cons.r, k)
    {
      if Slot(j, k) == Slot(s.cons.r, k) {
        SlotApart(j, s.cons.r, k);
      }
    }
  }

  // ----- Undisturbed calls -----

  ghost predicate Pushes<T>(k: nat, trace: seq<Ring<T>>, steps: seq<PushStep<T>>) {
    && |trace| == |steps| + 1
    && forall i :: 0 <= i < |steps| ==> ProducerStep(k, trace[i], trace[i + 1], steps[i])
  }

  /**
   From any reachable state an idle producer can run a whole TryPush. Seeing
   the present read index, it stores the value at the end if there is room and
   otherwise only counts a drop: what the ring promises as an object.
   */
  lemma PushCompletes<T>(k: nat, s: Ring<T>, v: T) returns (trace: seq<Ring<T>>, steps: seq<PushStep<T>>)
    requires Inv(k, s) && s.prod.PIdle?
    ensures Pushes(k, trace, steps) && trace[0] == s && |steps| >= 1
    ensures steps[0] == BeginPush(v) && forall i :: 1 <= i < |steps| ==> !steps[i].BeginPush?
    ensures trace[|steps|] ==
      if s.w - s.r < Pow2(k) then
        s.(seenR := s.r, w := s.w + 1, writes := s.writes + [v], attempts := s.attempts + [Attempt(v, true)])
      else
        s.(seenR := s.r, dropped := (s.dropped + 1) % WORD, attempts := s.attempts + [Attempt(v, false)])
  {
    WrappedTests(s.w, s.r, k);
    var loaded := s.(prod := PLoaded(s.w, v));
    var checked := s.(prod := PChecked(s.w, s.r, v), seenR := s.r);
    if s.w - s.r < Pow2(k) {
      var writing := checked.(prod := PWriting(s.w, v));
      var written := checked.(prod := PWritten(s.w, v), writes := s.writes + [v]);
      var done := written.(prod := PIdle, w := s.w + 1, attempts := s.attempts + [Attempt(v, true)]);
      trace := [s, loaded, checked, writing, written, done];
      steps := [BeginPush(v), LoadRead(s.r), BeginWrite, EndWrite, Publish];
    } else {
      var done := checked.(prod := PIdle, dropped := (s.dropped + 1) % WORD,
                           attempts := s.attempts + [Attempt(v, false)]);
      trace := [s, loaded, checked, done];
      steps := [BeginPush(v), LoadRead(s.r), RejectFull];
    }
    hide Full, Pow2;
  }

  ghost predicate Pops<T>(k: nat, trace: seq<Ring<T>>, steps: seq<PopStep>) {
    && |trace| == |steps| + 1
    && forall i :: 0 <= i < |steps| ==> ConsumerStep(k, trace[i], trace[i + 1], steps[i])
  }

  /** And an idle consumer a whole TryPop: seeing the present write index, it takes the oldest value if there is one. */
  lemma PopCompletes<T>(k: nat, s: Ring<T>) returns (trace: seq<Ring<T>>, steps: seq<PopStep>, out: Option<T>)
    requires Inv(k, s) && s.cons.CIdle?
    ensures Pops(k, trace, steps) && trace[0] == s && |steps| >= 1
    ensures trace[|steps| - 1].cons == CDone(out)
    ensures out == if s.r == s.w then None else Some(s.writes[s.r])
    ensures trace[|steps|] ==
      if s.r == s.w then s.(seenW := s.w)
      else s.(seenW := s.w, r := s.r + 1, popped := s.popped + [s.writes[s.r]])
  {
    WrappedTests(s.w, s.r, k);
    var loaded := s.(cons := CLoaded(s.r));
    var checked := s.(cons := CChecked(s.r, s.w), seenW := s.w);
    ConsumerKeeps(k, s, loaded, BeginPop);
    ConsumerKeeps(k, loaded, checked, LoadWrite(s.w));
    if s.r == s.w {
      out := None;
      trace := [s, loaded, checked, checked.(cons := CDone(None)), checked.(cons := CIdle)];
      steps := [BeginPop, LoadWrite(s.w), FindEmpty, Return];
    } else {
      var v := s.writes[s.r];
      out := Some(v);
      var reading := checked.(cons := CReading(s.r));
      ConsumerKeeps(k, checked, reading, BeginRead);
      OwnWriteReadable(k, reading);
      var done := checked.(cons := CDone(out), r := s.r + 1, popped := s.popped + [v]);
      trace := [s, loaded, checked, reading, checked.(cons := CRead(s.r, v)), done, done.(cons := CIdle)];
      steps := [BeginPop, LoadWrite(s.w), BeginRead, EndRead(s.r), Release, Return];
    }
    hide Empty, Slot, Readable, Inv, Pow2;
  }

  /**
   Either side may see any index of the other at least as new as the one it saw
   last, and a slot read any write there that no write already seen replaced.
   */
  lemma StaleLoads<T>(k: nat, s: Ring<T>)
    ensures s.prod.PLoaded? ==> forall r :: s.seenR <= r <= s.r ==>
      ProducerStep(k, s, s.(prod := PChecked(s.prod.w, r, s.prod.value), seenR := r), LoadRead(r))
    ensures s.cons.CLoaded? ==> forall w :: s.seenW <= w <= s.w ==>
      ConsumerStep(k, s, s.(cons := CChecked(s.cons.r, w), seenW := w), LoadWrite(w))
    ensures s.cons.CReading? ==> forall i: nat ::
      && i < |s.writes| && Slot(i, k) == Slot(s.cons.r, k)
      && (forall j :: i < j < s.seenW ==> Slot(j, k) != Slot(s.cons.r, k)) ==>
      ConsumerStep(k, s, s.(cons := CRead(s.cons.r, s.writes[i])), EndRead(i))
  {
    hide Slot;
  }

  /** Either side may take any of its steps at any time. */
  lemma EitherSideMoves<T(!new)>(k: nat, s: Ring<T>)
    ensures forall step, s' :: ProducerStep(k, s, s', step) ==> Next(k, s, s')
    ensures forall step, s' :: ConsumerStep(k, s, s', step) ==> Next(k, s, s')
  {
    hide ProducerStep, ConsumerStep;
  }
}
