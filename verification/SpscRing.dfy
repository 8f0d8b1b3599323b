/**
 The ring as an object: TryPush and TryPop called without interference. The
 interleaved protocol, with the same index arithmetic, is module RingProtocol.
 */
module SpscRing {
  import opened Bits
  import opened RingProtocol

  /** The slots of indices r, r + 1, ... hold contents. */
  ghost predicate Stored<T>(store: seq<T>, k: nat, r: nat, contents: seq<T>) {
    forall n: nat :: r <= n < r + |contents| ==> Slot(n, k) < |store| && store[Slot(n, k)] == contents[n - r]
  }

  lemma SlotFits(i: nat, k: nat)
    requires k < 64
    ensures Slot(i, k) < Pow2(k)
  {
    WrapThenMask(i, k);
  }

  lemma StoredPush<T>(store: seq<T>, k: nat, r: nat, contents: seq<T>, w: nat, value: T)
    requires k < 64 && |store| == Pow2(k) && |contents| < Pow2(k) && Stored(store, k, r, contents)
    requires w == r + |contents| && Slot(w, k) < |store|
    ensures Stored(store[Slot(w, k) := value], k, r, contents + [value])
  {
    hide Slot, Pow2;
    var store' := store[Slot(w, k) := value];
    var contents' := contents + [value];
    forall n: nat | r <= n < r + |contents'|
      ensures Slot(n, k) < |store'| && store'[Slot(n, k)] == contents'[n - r]
    {
      if n < w && Slot(n, k) == Slot(w, k) {
        SlotApart(n, w, k);
      }
    }
  }

  lemma StoredPop<T>(store: seq<T>, k: nat, r: nat, contents: seq<T>)
    requires Stored(store, k, r, contents) && contents != []
    ensures Slot(r, k) < |store| && store[Slot(r, k)] == contents[0]
    ensures Stored(store, k, r + 1, contents[1..])
  {
    hide Slot;
  }

  class SpscRing<T> {
    const storage: array<T>
    const capacity: nat
    const mask: nat
    var writeIdx: nat
    var readIdx: nat
    var dropped: nat
    ghost const log: nat
    ghost var w: nat
    ghost var r: nat
    ghost var contents: seq<T>
    ghost var attempts: seq<Attempt<T>>
    ghost var popped: seq<T>

    ghost predicate Shape() {
      log < 64 && capacity == Pow2(log) == storage.Length && mask == capacity - 1
    }

    ghost predicate Valid()
      reads this, storage
    {
      && Shape()
      && writeIdx == w % WORD && readIdx == r % WORD
      && w == r + |contents| && |contents| <= storage.Length
      && Stored(storage[..], log, r, contents)
      && Accepted(attempts) == popped + contents
      && dropped == Rejected(attempts) % WORD
    }

    /** An empty ring of 2^log slots. */
    constructor (ghost log: nat, capacity: nat, zero: T)
      requires log < 64 && capacity == Pow2(log)
      ensures Valid() && fresh(storage) && this.capacity == capacity
      ensures contents == [] && attempts == [] && popped == [] && dropped == 0
    {
      storage := new T[capacity](_ => zero);
      this.capacity := capacity;
      this.log := log;
      mask := capacity - 1;
      writeIdx, readIdx, dropped := 0, 0, 0;
      w, r := 0, 0;
      contents, attempts, popped := [], [], [];
    }

    /** Append, or count a drop and change nothing else when full: the newest value is the one lost. */
    method TryPush(value: T) returns (ok: bool)
      requires Valid()
      modifies this, storage
      ensures Valid()
      ensures ok <==> |old(contents)| < capacity
      ensures contents == old(contents) + (if ok then [value] else [])
      ensures dropped == if ok then old(dropped) else (old(dropped) + 1) % WORD
      ensures attempts == old(attempts) + [Attempt(value, ok)] && popped == old(popped)
    {
      hide Pow2, And, Stored, Accepted, Rejected;
      WrappedTests(w, r, log);
      AppendAttempt(attempts, Attempt(value, |contents| < capacity));
      if WrapSub(writeIdx, readIdx) >= capacity {
        DropCounts(Rejected(attempts));
        attempts := attempts + [Attempt(value, false)];
        dropped := (dropped + 1) % WORD;
        return false;
      }
      SlotFits(w, log);
      StoredPush(storage[..], log, r, contents, w, value);
      storage[And(writeIdx, mask)] := value;
      DropCounts(w);
      writeIdx := (writeIdx + 1) % WORD;
      w := w + 1;
      attempts := attempts + [Attempt(value, true)];
      assert popped + (contents + [value]) == (popped + contents) + [value];
      contents := contents + [value];
      return true;
    }

    /** Remove the oldest value; None when empty. */
    method TryPop() returns (out: Option<T>)
      requires Valid()
      modifies this
      ensures Valid()
      ensures out == if old(contents) == [] then None else Some(old(contents)[0])
      ensures contents == if old(contents) == [] then [] else old(contents)[1..]
      ensures popped == old(popped) + (if out.Some? then [out.value] else [])
      ensures attempts == old(attempts) && dropped == old(dropped)
    {
      hide Pow2, And, Stored, Accepted, Rejected;
      WrappedTests(w, r, log);
      if readIdx == writeIdx {
        return None;
      }
      StoredPop(storage[..], log, r, contents);
      out := Some(storage[And(readIdx, mask)]);
      DropCounts(r);
      readIdx := (readIdx + 1) % WORD;
      r := r + 1;
      assert popped + contents == (popped + [contents[0]]) + contents[1..];
      popped := popped + [contents[0]];
      contents := contents[1..];
    }
  }
}
