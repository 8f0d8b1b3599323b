/** Fixed-size slab whose free slots are threaded onto an intrusive LIFO list. */
module Slab {

  const NIL: int := -1

  /** A slot's storage: a free-list link, uninitialised memory, or an object. */
  datatype Slot<T> = Free(next: int) | Raw | Live(value: T)

  /** Element k of a list of slots, NIL outside it. */
  function Nth(s: seq<nat>, k: int): int {
    if 0 <= k < |s| then s[k] else NIL
  }

  ghost predicate NoDup(s: seq<nat>) {
    forall i, j :: 0 <= i < j < |s| ==> s[i] != s[j]
  }

  /** Following the links from head visits exactly free, and no other slot is free. */
  ghost predicate FreeList<T>(store: seq<Slot<T>>, head: int, free: seq<nat>) {
    && head == Nth(free, 0)
    && NoDup(free)
    && (forall k :: 0 <= k < |free| ==> free[k] < |store| && store[free[k]] == Free(Nth(free, k + 1)))
    && (forall x :: 0 <= x < |store| && store[x].Free? ==> x in free)
  }

  lemma NoDupPush<T>(store: seq<Slot<T>>, head: int, free: seq<nat>, p: nat)
    requires FreeList(store, head, free) && p < |store| && !store[p].Free?
    ensures NoDup([p] + free) && p !in free
  {
  }

  lemma PushFree<T>(store: seq<Slot<T>>, head: int, free: seq<nat>, p: nat)
    requires FreeList(store, head, free) && p < |store| && !store[p].Free?
    ensures FreeList(store[p := Free(head)], p, [p] + free)
  {
    var store' := store[p := Free(head)];
    var free' := [p] + free;
    NoDupPush(store, head, free, p);
    forall k | 0 <= k < |free'|
      ensures free'[k] < |store'|
      ensures store'[free'[k]] == Free(Nth(free', k + 1))
    {
      hide NoDup;
      if k > 0 {
        assert store[free[k - 1]] == Free(Nth(free, k));
        assert Nth(free', k + 1) == Nth(free, k);
      }
    }
    hide NoDup;
    forall x | 0 <= x < |store'| && store'[x].Free?
      ensures x in free'
    {
      if x != p {
        assert store[x].Free?;
      }
    }
  }

  lemma PopFree<T>(store: seq<Slot<T>>, head: int, free: seq<nat>)
    requires FreeList(store, head, free) && free != []
    ensures store[free[0]] == Free(Nth(free, 1))
    ensures FreeList(store[free[0] := Raw], Nth(free, 1), free[1..])
  {
    var p := free[0];
    var store' := store[p := Raw];
    var free' := free[1..];
    forall k | 0 <= k < |free'|
      ensures store'[free'[k]] == Free(Nth(free', k + 1))
    {
      assert free'[k] == free[k + 1] != p;
    }
    forall x | 0 <= x < |store'| && store'[x].Free?
      ensures x in free'
    {
      assert store[x].Free? && x in free;
      var k :| 0 <= k < |free| && free[k] == x;
      assert k > 0 && free'[k - 1] == x;
    }
  }

  /** The same slots are free, with the same links. */
  ghost predicate FreeKept<T>(store: seq<Slot<T>>, store': seq<Slot<T>>) {
    && |store'| == |store|
    && forall x :: 0 <= x < |store| ==> (store[x].Free? || store'[x].Free? ==> store'[x] == store[x])
  }

  /** Writing objects into slots that are not free leaves the free list alone. */
  lemma FreeListFrame<T>(store: seq<Slot<T>>, store': seq<Slot<T>>, head: int, free: seq<nat>)
    requires FreeList(store, head, free) && FreeKept(store, store')
    ensures FreeList(store', head, free)
  {
  }

  class SlabAllocator<T> {
    const storage: array<Slot<T>>
    var freeHead: int
    var inUse: nat
    ghost var free: seq<nat>

    ghost predicate Valid()
      reads this, storage
    {
      && FreeList(storage[..], freeHead, free)
      && inUse + |free| == storage.Length
    }

    constructor (capacity: nat)
      ensures Valid() && fresh(storage)
      ensures storage.Length == capacity && inUse == 0
      ensures forall x :: 0 <= x < capacity ==> storage[x].Free?
    {
      storage := new Slot<T>[capacity](_ => Raw);
      freeHead := NIL;
      inUse := 0;
      free := [];
      new;
      var i := 0;
      while i < capacity
        invariant 0 <= i <= capacity
        invariant freeHead == (if i == 0 then NIL else i - 1)
        invariant inUse == 0 && |free| == i
        invariant FreeList(storage[..], freeHead, free)
        invariant forall x :: 0 <= x < capacity ==> (x < i <==> storage[x].Free?)
      {
        PushFree(storage[..], freeHead, free, i);
        storage[i] := Free(freeHead);
        free := [i] + free;
        freeHead := i;
        i := i + 1;
      }
    }

    /** Pops the most recently freed slot; NIL when exhausted. */
    method Allocate() returns (p: int)
      requires Valid()
      modifies this`freeHead, this`inUse, this`free, storage
      ensures Valid()
      ensures old(free) == [] ==>
        p == NIL && storage[..] == old(storage[..]) && free == [] && inUse == old(inUse)
      ensures old(free) != [] ==>
        && p == old(free)[0] && free == old(free)[1..] && inUse == old(inUse) + 1
        && 0 <= p < storage.Length && old(storage[p]).Free?
        && storage[..] == old(storage[..])[p := Raw]
    {
      if freeHead == NIL {
        return NIL;
      }
      PopFree(storage[..], freeHead, free);
      p := freeHead;
      freeHead := storage[p].next;
      inUse := inUse + 1;
      storage[p] := Raw;
      free := free[1..];
    }

    /** Pushes a slot obtained from Allocate back onto the free list. */
    method Deallocate(p: nat)
      requires Valid()
      requires p < storage.Length && !storage[p].Free?
      modifies this`freeHead, this`inUse, this`free, storage
      ensures Valid()
      ensures inUse == old(inUse) - 1
      ensures free == [p] + old(free)
      ensures storage[..] == old(storage[..])[p := Free(old(freeHead))]
    {
      FreeSlots(storage[..], freeHead, free, p);
      PushFree(storage[..], freeHead, free, p);
      storage[p] := Free(freeHead);
      freeHead := p;
      inUse := inUse - 1;
      free := [p] + free;
    }
  }

  /** While some slot is not free, the free list is shorter than the slab. */
  lemma FreeSlots<T>(store: seq<Slot<T>>, head: int, free: seq<nat>, p: nat)
    requires FreeList(store, head, free) && p < |store| && !store[p].Free?
    ensures |free| < |store|
  {
    assert forall k :: 0 <= k < |free| ==> store[free[k]].Free?;
    NoDupBound([p] + free, |store|);
  }

  /** A list of n-bounded naturals without repetition has at most n elements. */
  lemma {:induction false} NoDupBound(s: seq<nat>, n: nat)
    requires NoDup(s) && forall k :: 0 <= k < |s| ==> s[k] < n
    ensures |s| <= n
  {
    if s == [] {
    } else if s[0] < n && (n - 1) in s {
      var k :| 0 <= k < |s| && s[k] == n - 1;
      NoDupBound(s[..k] + s[k + 1..], n - 1);
    } else {
      NoDupBound(s, n - 1);
    }
  }
}
