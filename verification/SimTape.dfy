/**
 The telemetry of the episode machine. Its ring carries two streams of events,
 the publisher's and the child order path's, each with its own numbering.
 */
module SimTape {
  import opened MatchingSpec
  import opened Telemetry
  import opened Publishing
  import BookRuns
  import RingProtocol

  const FUSED_START: nat := 1_000_000_000

  /** How many of the pushes were made by the child order path. */
  function Fused(fused: seq<bool>): (n: nat)
    ensures n <= |fused|
  {
    if fused == [] then 0 else
      var n := |fused| - 1;
      Fused(fused[..n]) + (if fused[n] then 1 else 0)
  }

  /** Each stream is numbered consecutively: the publisher's from 0, the child path's from FUSED_START. */
  ghost predicate TwoStreams(attempts: seq<RingProtocol.Attempt<Event>>, fused: seq<bool>) {
    && |fused| == |attempts|
    && forall i :: 0 <= i < |attempts| ==>
      attempts[i].value.sequence == if fused[i] then FUSED_START + Fused(fused[..i]) else i - Fused(fused[..i])
  }

  /** Everything attempted since construction, replayed, is the book; both counters continue their streams. */
  ghost predicate Taped(b: Book, attempts: seq<RingProtocol.Attempt<Event>>, fused: seq<bool>,
                        seqNo: nat, fusedSeq: nat)
  {
    && ReplayAll(EMPTY, Values(attempts)) == b
    && TwoStreams(attempts, fused)
    && seqNo == |fused| - Fused(fused) && fusedSeq == FUSED_START + Fused(fused)
  }

  lemma {:induction false} FusedMore(fused: seq<bool>, n: nat, mine: bool)
    ensures Fused(fused + seq(n, _ => mine)) == Fused(fused) + (if mine then n else 0)
  {
    if n == 0 {
      assert fused + seq(n, _ => mine) == fused;
    } else {
      FusedMore(fused, n - 1, mine);
      var more := fused + seq(n, _ => mine);
      assert more[..|more| - 1] == fused + seq(n - 1, _ => mine);
    }
  }

  lemma PushedSequences(capacity: nat, before: View, after: View, tape: seq<Event>)
    requires Published(capacity, before, after, tape)
    ensures |after.attempts| == |before.attempts| + |tape|
    ensures forall i :: |before.attempts| <= i < |after.attempts| ==>
      after.attempts[i].value.sequence == tape[i - |before.attempts|].sequence
  {
    var n := |before.attempts|;
    var news := after.attempts[n..];
    forall i | n <= i < |after.attempts|
      ensures after.attempts[i].value.sequence == tape[i - n].sequence
    {
      assert after.attempts[i] == news[i - n];
      assert Untimed(Values(news))[i - n] == tape[i - n];
    }
  }

  /** Pushing a consecutively numbered tape of either path continues that path's stream and leaves the other. */
  lemma StreamsGrow(attempts: seq<RingProtocol.Attempt<Event>>, fused: seq<bool>, mine: bool, first: nat, count: nat,
                    after: seq<RingProtocol.Attempt<Event>>)
    requires TwoStreams(attempts, fused) && attempts <= after && |after| == |attempts| + count
    requires first == if mine then FUSED_START + Fused(fused) else |fused| - Fused(fused)
    requires forall i :: |attempts| <= i < |after| ==> after[i].value.sequence == first + (i - |attempts|)
    ensures TwoStreams(after, fused + seq(count, _ => mine))
  {
    hide Fused;
    var n := |attempts|;
    var fused' := fused + seq(count, _ => mine);
    forall i | 0 <= i < |after|
      ensures after[i].value.sequence == if fused'[i] then FUSED_START + Fused(fused'[..i]) else i - Fused(fused'[..i])
    {
      FusedUpTo(fused, count, mine, i);
      if i < n {
        assert after[i] == attempts[i];
      }
    }
  }

  lemma FusedUpTo(fused: seq<bool>, count: nat, mine: bool, i: nat)
    requires i < |fused| + count
    ensures var fused' := fused + seq(count, _ => mine);
      if i < |fused| then fused'[..i] == fused[..i] && fused'[i] == fused[i]
      else Fused(fused'[..i]) == Fused(fused) + (if mine then i - |fused| else 0) && fused'[i] == mine
  {
    hide Fused;
    var fused' := fused + seq(count, _ => mine);
    if i < |fused| {
      assert fused'[..i] == fused[..i];
    } else {
      assert fused'[..i] == fused + seq(i - |fused|, _ => mine);
      FusedMore(fused, i - |fused|, mine);
    }
  }

  /** One operation, published by either path, keeps the tape. */
  lemma TapedStep(cfg: Config, b: Book, op: BookRuns.Op, mine: bool, fused: seq<bool>, seqNo: nat, fusedSeq: nat,
                  capacity: nat, before: View, after: View)
    requires Taped(b, before.attempts, fused, seqNo, fusedSeq)
    requires Published(capacity, before, after, Emitted(cfg, b, op, if mine then fusedSeq else seqNo))
    ensures var n := |Emitted(cfg, b, op, if mine then fusedSeq else seqNo)|;
      && Taped(BookRuns.Step(cfg, b, op).book, after.attempts, fused + seq(n, _ => mine),
               if mine then seqNo else seqNo + n, if mine then fusedSeq + n else fusedSeq)
      && before.attempts <= after.attempts
  {
    var n := if mine then fusedSeq else seqNo;
    var tape := Emitted(cfg, b, op, n);
    EmittedNumbers(cfg, b, op, n);
    TapeStaysFaithful(cfg, b, op, n, capacity, before, after);
    PushedSequences(capacity, before, after, tape);
    StreamsGrow(before.attempts, fused, mine, n, |tape|, after.attempts);
    FusedMore(fused, |tape|, mine);
  }

  /** Sequence numbers increase within each stream. */
  lemma StreamsIncrease(attempts: seq<RingProtocol.Attempt<Event>>, fused: seq<bool>, i: nat, j: nat)
    requires TwoStreams(attempts, fused) && i < j < |attempts| && fused[i] == fused[j]
    ensures attempts[i].value.sequence < attempts[j].value.sequence
  {
    FusedRises(fused, i, j);
  }

  lemma {:induction false} FusedRises(fused: seq<bool>, i: nat, j: nat)
    requires i < j <= |fused|
    ensures Fused(fused[..i]) + (if fused[i] then 1 else 0) <= Fused(fused[..j])
    ensures Fused(fused[..j]) + (if fused[i] then 0 else 1) <= Fused(fused[..i]) + (j - i)
    decreases j
  {
    assert fused[..j][..j - 1] == fused[..j - 1];
    if i < j - 1 {
      FusedRises(fused, i, j - 1);
    }
  }

  /** If all pushes rebuild the new book and the earlier ones the old, the newer ones lead from old to new. */
  lemma NewerPushes(before: seq<RingProtocol.Attempt<Event>>, after: seq<RingProtocol.Attempt<Event>>,
                    b: Book, b': Book)
    requires before <= after
    requires ReplayAll(EMPTY, Values(before)) == b && ReplayAll(EMPTY, Values(after)) == b'
    ensures ReplayAll(b, Values(after[|before|..])) == b'
  {
    var news := after[|before|..];
    assert after == before + news;
    assert Values(before + news) == Values(before) + Values(news);
    ReplayAppend(EMPTY, Values(before), Values(news));
  }
}
