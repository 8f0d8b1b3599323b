/**
 The open-addressing id index: linear probing, no tombstones, erase by
 back-shift (Knuth, The Art of Computer Programming, vol. 3, section 6.4,
 Algorithm R). Everything here holds for an arbitrary hash function.
 */
module IdTable {
  import opened Bits

  /** Entry of the table; Vacant is the source's null order pointer. */
  datatype IdEntry = Vacant | Taken(id: nat, slot: nat)

  /** Cyclic distance walked forward from a to b in a table of n slots. */
  function Dist(a: nat, b: nat, n: nat): (d: nat)
    requires a < n && b < n
    ensures d < n
  {
    if b >= a then b - a else b - a + n
  }

  function Next(a: nat, n: nat): (b: nat)
    requires a < n
    ensures b < n
  {
    if a + 1 == n then 0 else a + 1
  }

  ghost predicate Hashes(home: nat -> nat, n: nat) {
    forall id :: home(id) < n
  }

  /** The table holds exactly the pairs of ids, each once. */
  ghost predicate Represents(t: seq<IdEntry>, ids: map<nat, nat>) {
    && (forall i :: 0 <= i < |t| && t[i].Taken? ==> t[i].id in ids && ids[t[i].id] == t[i].slot)
    && (forall id :: id in ids ==> exists i :: 0 <= i < |t| && t[i].Taken? && t[i].id == id)
    && (forall i, j :: 0 <= i < j < |t| && t[i].Taken? && t[j].Taken? ==> t[i].id != t[j].id)
  }

  /** Slot j lies on the probe path of the entry at i, before i. */
  ghost predicate OnPath(t: seq<IdEntry>, home: nat -> nat, i: nat, j: nat)
    requires i < |t| && j < |t| && t[i].Taken? && home(t[i].id) < |t|
  {
    Dist(home(t[i].id), j, |t|) < Dist(home(t[i].id), i, |t|)
  }

  /** Linear-probing invariant: every slot between an entry's home and the entry is taken. */
  ghost predicate Probing(t: seq<IdEntry>, home: nat -> nat)
    requires Hashes(home, |t|)
  {
    forall i, j :: 0 <= i < |t| && 0 <= j < |t| && t[i].Taken? && OnPath(t, home, i, j) ==> t[j].Taken?
  }

  /** Probing, except that the vacated slot hole may lie on the path of entries not yet scanned. */
  ghost predicate ProbingBut(t: seq<IdEntry>, home: nat -> nat, hole: nat, next: nat)
    requires Hashes(home, |t|) && hole < |t| && next < |t|
  {
    && (forall i, j ::
      0 <= i < |t| && 0 <= j < |t| && t[i].Taken? && OnPath(t, home, i, j) && j != hole ==> t[j].Taken?)
    && (forall i :: 0 <= i < |t| && t[i].Taken? && OnPath(t, home, i, hole) ==>
      Dist(hole, i, |t|) >= Dist(hole, next, |t|))
  }

  /** The back-shift as an earlier version of the source had it: it stops at the first entry on its home slot. */
  function ShiftUntilHome(t: seq<IdEntry>, home: nat -> nat, hole: nat, steps: nat): (s: seq<IdEntry>)
    requires hole < |t|
    ensures |s| == |t|
    decreases steps
  {
    var next := Next(hole, |t|);
    if steps == 0 || t[next].Vacant? || home(t[next].id) == next then
      t[hole := Vacant]
    else
      ShiftUntilHome(t[hole := t[next]], home, next, steps - 1)
  }

  /** Looking an id up the way the source does, from its home to the first vacant slot. */
  predicate Reachable(t: seq<IdEntry>, id: nat, i: nat, probes: nat)
    requires i < |t|
    decreases probes
  {
    probes > 0 && t[i].Taken? && (t[i].id == id || Reachable(t, id, Next(i, |t|), probes - 1))
  }

  /** That scan loses ids: erasing one id can leave another in the table where no lookup finds it. */
  lemma StoppingAtHomeStrands() returns (t: seq<IdEntry>, home: nat -> nat, id: nat)
    ensures Hashes(home, |t|) && Probing(t, home) && 0 < |t| && t[0].Taken? && t[0].id != id
    ensures Reachable(t, id, home(id), |t|)
    ensures var s := ShiftUntilHome(t, home, 0, |t|);
      && Taken(id, 2) in s
      && !Reachable(s, id, home(id), |s|) && !Probing(s, home)
  {
    t := [Taken(1, 0), Taken(2, 1), Taken(3, 2), Vacant];
    home := (id: nat) => if id == 2 then 1 else 0;
    id := 3;
    var s := ShiftUntilHome(t, home, 0, 4);
    assert s == t[0 := Vacant];
    assert s[2] == Taken(id, 2) && OnPath(s, home, 2, 0);
    assert Reachable(t, id, 2, 2) && Reachable(t, id, 1, 3);
  }

  // ----- Back-shift steps, on the table with the hole vacated -----

  /** Vacating a found entry opens a hole with nothing scanned yet. */
  lemma OpenHole(t: seq<IdEntry>, home: nat -> nat, hole: nat)
    requires |t| >= 2 && Hashes(home, |t|) && Probing(t, home)
    requires hole < |t| && t[hole].Taken?
    ensures ProbingBut(t[hole := Vacant], home, hole, Next(hole, |t|))
  {
  }

  /** An entry whose home is cyclically at or before the hole moves into it. */
  lemma MoveIntoHole(t: seq<IdEntry>, home: nat -> nat, hole: nat, next: nat)
    requires |t| >= 2 && Hashes(home, |t|) && hole < |t| && next < |t| && hole != next
    requires t[hole].Vacant? && t[next].Taken? && ProbingBut(t, home, hole, next)
    requires Dist(home(t[next].id), next, |t|) >= Dist(hole, next, |t|)
    ensures ProbingBut(t[hole := t[next]][next := Vacant], home, next, Next(next, |t|))
  {
    var t' := t[hole := t[next]][next := Vacant];
    forall i, j | 0 <= i < |t'| && 0 <= j < |t'| && t'[i].Taken? && OnPath(t', home, i, j) && j != next
      ensures t'[j].Taken?
    {
      if j != hole {
        if i == hole {
          assert OnPath(t, home, next, j);
        } else {
          assert OnPath(t, home, i, j);
        }
      }
    }
  }

  /** An entry whose home is strictly after the hole stays, and the scan passes it. */
  lemma PassEntry(t: seq<IdEntry>, home: nat -> nat, hole: nat, next: nat)
    requires |t| >= 2 && Hashes(home, |t|) && hole < |t| && next < |t| && hole != next
    requires t[next].Taken? && ProbingBut(t, home, hole, next)
    requires Dist(home(t[next].id), next, |t|) < Dist(hole, next, |t|)
    requires Next(next, |t|) != hole
    ensures ProbingBut(t, home, hole, Next(next, |t|))
  {
    forall i | 0 <= i < |t| && t[i].Taken? && OnPath(t, home, i, hole)
      ensures Dist(hole, i, |t|) >= Dist(hole, Next(next, |t|), |t|)
    {
      assert i != next;
    }
  }

  /** At the end of the cluster the hole blocks no path any more. */
  lemma CloseHole(t: seq<IdEntry>, home: nat -> nat, hole: nat, next: nat)
    requires |t| >= 2 && Hashes(home, |t|) && hole < |t| && next < |t| && hole != next
    requires t[next].Vacant? && ProbingBut(t, home, hole, next)
    ensures Probing(t, home)
  {
    forall i, j | 0 <= i < |t| && 0 <= j < |t| && t[i].Taken? && OnPath(t, home, i, j)
      ensures t[j].Taken?
    {
      if j == hole {
        assert Dist(hole, i, |t|) >= Dist(hole, next, |t|);
        assert i != next;
        assert OnPath(t, home, i, next);
        assert false;
      }
    }
  }

  /** Moving an entry between two slots keeps what the table represents. */
  lemma MoveRepresents(t: seq<IdEntry>, ids: map<nat, nat>, hole: nat, next: nat)
    requires hole < |t| && next < |t| && hole != next
    requires t[hole].Vacant? && t[next].Taken? && Represents(t, ids)
    ensures Represents(t[hole := t[next]][next := Vacant], ids)
  {
    var t' := t[hole := t[next]][next := Vacant];
    forall id | id in ids
      ensures exists i :: 0 <= i < |t'| && t'[i].Taken? && t'[i].id == id
    {
      var i :| 0 <= i < |t| && t[i].Taken? && t[i].id == id;
      assert t'[if i == next then hole else i].id == id;
    }
  }

  lemma EraseRepresents(t: seq<IdEntry>, ids: map<nat, nat>, i: nat)
    requires i < |t| && t[i].Taken? && Represents(t, ids)
    ensures Represents(t[i := Vacant], ids - {t[i].id})
  {
    var t' := t[i := Vacant];
    var ids' := ids - {t[i].id};
    forall id | id in ids'
      ensures exists k :: 0 <= k < |t'| && t'[k].Taken? && t'[k].id == id
    {
      var k :| 0 <= k < |t| && t[k].Taken? && t[k].id == id;
      assert t'[k].id == id;
    }
    forall k | 0 <= k < |t'| && t'[k].Taken?
      ensures t'[k].id in ids' && ids'[t'[k].id] == t'[k].slot
    {
      assert t[k].id != t[i].id;
    }
  }

  /** A new id taken into the first vacant slot on its probe path. */
  lemma TakeSlot(t: seq<IdEntry>, home: nat -> nat, ids: map<nat, nat>, id: nat, slot: nat, i: nat)
    requires Hashes(home, |t|) && Probing(t, home) && Represents(t, ids)
    requires i < |t| && t[i].Vacant? && id !in ids && TakenBefore(t, home(id), i)
    ensures Probing(t[i := Taken(id, slot)], home)
    ensures Represents(t[i := Taken(id, slot)], ids[id := slot])
  {
    var t' := t[i := Taken(id, slot)];
    forall a, b | 0 <= a < |t'| && 0 <= b < |t'| && t'[a].Taken? && OnPath(t', home, a, b)
      ensures t'[b].Taken?
    {
      if a != i {
        assert OnPath(t, home, a, b);
      }
    }
    var ids' := ids[id := slot];
    forall x | x in ids'
      ensures exists k :: 0 <= k < |t'| && t'[k].Taken? && t'[k].id == x
    {
      if x == id {
        assert t'[i].id == id;
      } else {
        var k :| 0 <= k < |t| && t[k].Taken? && t[k].id == x;
        assert t'[k].id == x;
      }
    }
  }

  // ----- Load factor -----

  function TakenCount(t: seq<IdEntry>): (c: nat)
    ensures c <= |t|
  {
    if t == [] then 0 else (if t[|t| - 1].Taken? then 1 else 0) + TakenCount(t[..|t| - 1])
  }

  ghost function TakenIds(t: seq<IdEntry>): set<nat> {
    set i | 0 <= i < |t| && t[i].Taken? :: t[i].id
  }

  /** As many slots are taken as there are ids. */
  lemma {:induction false} LoadIsSize(t: seq<IdEntry>, ids: map<nat, nat>)
    requires Represents(t, ids)
    ensures TakenCount(t) == |ids|
  {
    CountIds(t);
    assert TakenIds(t) == ids.Keys;
  }

  lemma {:induction false} CountIds(t: seq<IdEntry>)
    requires forall i, j :: 0 <= i < j < |t| && t[i].Taken? && t[j].Taken? ==> t[i].id != t[j].id
    ensures TakenCount(t) == |TakenIds(t)|
  {
    if t != [] {
      var n := |t| - 1;
      CountIds(t[..n]);
      TakenIdsNext(t);
      hide TakenIds;
      if t[n].Taken? {
        assert TakenIds(t) == TakenIds(t[..n]) + {t[n].id};
      }
    }
  }

  lemma TakenIdsNext(t: seq<IdEntry>)
    requires t != []
    requires forall i, j :: 0 <= i < j < |t| && t[i].Taken? && t[j].Taken? ==> t[i].id != t[j].id
    ensures var n := |t| - 1;
      if t[n].Taken? then TakenIds(t) == TakenIds(t[..n]) + {t[n].id} && t[n].id !in TakenIds(t[..n])
      else TakenIds(t) == TakenIds(t[..n])
  {
    var n := |t| - 1;
    assert forall i :: 0 <= i < n ==> t[..n][i] == t[i];
  }

  lemma {:induction false} SomeVacant(t: seq<IdEntry>) returns (v: nat)
    requires TakenCount(t) < |t|
    ensures v < |t| && t[v].Vacant?
  {
    if t[|t| - 1].Vacant? {
      v := |t| - 1;
    } else {
      v := SomeVacant(t[..|t| - 1]);
    }
  }

  // ----- The table -----

  /** home is the masked hash. */
  ghost predicate Masked(home: nat -> nat, hash: nat -> nat, mask: nat) {
    forall id: nat {:trigger hash(id)} :: home(id) == And(hash(id), mask)
  }

  lemma HomesFit(hash: nat -> nat, mask: nat, k: nat) returns (home: nat -> nat)
    requires mask == Pow2(k) - 1
    ensures Masked(home, hash, mask)
    ensures Hashes(home, Pow2(k))
  {
    home := id => And(hash(id), mask);
    forall id: nat
      ensures home(id) < Pow2(k)
    {
      MaskIsMod(hash(id), k);
    }
  }

  /** Masked increment walks to the cyclically next slot. */
  lemma MaskedNext(a: nat, k: nat)
    requires a < Pow2(k)
    ensures And(a + 1, Pow2(k) - 1) == Next(a, Pow2(k))
  {
    MaskIsMod(a + 1, k);
    if a + 1 == Pow2(k) {
      ModUnique(a + 1, Pow2(k), 1, 0);
    } else {
      ModUnique(a + 1, Pow2(k), 0, a + 1);
    }
  }

  /** The smallest power of two that is at least n. */
  method RoundUpPow2(n: nat) returns (p: nat, ghost k: nat)
    ensures p == Pow2(k) && p >= n
    ensures k > 0 ==> Pow2(k - 1) < n
  {
    p := 1;
    k := 0;
    while p < n
      invariant p == Pow2(k)
      invariant k > 0 ==> Pow2(k - 1) < n
      decreases n - p
    {
      p := p * 2;
      k := k + 1;
    }
  }

  lemma {:induction false} Pow2Order(j: nat, k: nat)
    requires Pow2(j) < Pow2(k)
    ensures j < k
  {
    if j >= k {
      Pow2Split(k, j);
      MulAtLeast(Pow2(k), Pow2(j - k));
    }
  }

  class IdIndex {
    const table: array<IdEntry>
    const capacity: nat
    const mask: nat
    const hash: nat -> nat
    ghost const home: nat -> nat
    ghost const log: nat
    ghost var ids: map<nat, nat>

    ghost predicate Shape() {
      && 1 <= log <= 64
      && capacity == Pow2(log) == table.Length
      && mask == capacity - 1
      && Masked(home, hash, mask)
    }

    ghost predicate Valid()
      reads this, table
    {
      && Shape()
      && table.Length >= 2 && Hashes(home, table.Length)
      && Represents(table[..], ids)
      && Probing(table[..], home)
    }

    /** Sized to the power of two at or above twice the order capacity. */
    constructor (orderCapacity: nat, hash: nat -> nat)
      requires orderCapacity <= 0x4000_0000_0000_0000
      ensures Valid() && fresh(table) && ids == map[]
      ensures capacity >= 2 * orderCapacity && capacity > orderCapacity
      ensures this.hash == hash
    {
      var n := if orderCapacity == 0 then 1 else orderCapacity;
      var p, k := RoundUpPow2(n * 2);
      LogBound(n, k, p);
      this.hash := hash;
      capacity := p;
      mask := p - 1;
      log := k;
      ghost var masked := HomesFit(hash, p - 1, k);
      home := masked;
      table := new IdEntry[p](_ => Vacant);
      ids := map[];
      new;
      EmptyTable(table[..], home);
    }

    /** The slot an id hashes to. */
    method HomeSlot(id: nat) returns (i: nat)
      requires Shape() && Hashes(home, capacity)
      ensures i == home(id) < capacity
    {
      i := And(hash(id), mask);
    }

    /** The cyclically next slot. */
    method Advance(i: nat) returns (j: nat)
      requires Shape() && i < capacity
      ensures j == Next(i, capacity)
    {
      MaskedNext(i, log);
      j := And(i + 1, mask);
    }

    /** Unsigned, masked distance from slot a forward to slot b. */
    method Span(a: nat, b: nat) returns (d: nat)
      requires Shape() && a < capacity && b < capacity
      ensures d == Dist(a, b, capacity)
    {
      WrapSubMask(b, a, log);
      d := And(WrapSub(b, a), mask);
    }

    /** Insert an id that is not in the table; some slot must be free. */
    method InsertId(id: nat, slot: nat)
      requires Valid() && id !in ids && |ids| < capacity
      modifies this`ids, table
      ensures Valid() && ids == old(ids)[id := slot]
    {
      ghost var t := table[..];
      ghost var v := VacantSlot(t, ids);
      var i := HomeSlot(id);
      while table[i].Taken?
        invariant table[..] == t && ids == old(ids) && 0 <= i < |t|
        invariant TakenBefore(t, home(id), i)
        decreases Dist(i, v, |t|)
      {
        TakenNext(t, home(id), i, v);
        i := Advance(i);
      }
      TakeSlot(t, home, ids, id, slot, i);
      table[i] := Taken(id, slot);
      ids := ids[id := slot];
    }

    /** Look an id up and erase it; -1 when absent. */
    method LookupAndEraseId(id: nat) returns (slot: int)
      requires Valid() && |ids| < capacity
      modifies this`ids, table
      ensures Valid() && ids == old(ids) - {id}
      ensures slot == if id in old(ids) then old(ids)[id] else -1
    {
      ghost var t := table[..];
      ghost var v := VacantSlot(t, ids);
      var i := HomeSlot(id);
      var probes := 0;
      while probes < capacity
        invariant table[..] == t && ids == old(ids) && 0 <= i < |t|
        invariant Dist(home(id), i, |t|) == probes && TakenBefore(t, home(id), i)
        invariant MissedBefore(t, id, home(id), i)
      {
        if table[i].Vacant? {
          AbsentAt(t, home, ids, id, i);
          return -1;
        }
        if table[i].id == id {
          slot := table[i].slot;
          BackShift(i);
          return;
        }
        TakenNext(t, home(id), i, v);
        i := Advance(i);
        probes := probes + 1;
      }
      slot := -1;
    }

    /** Erase the entry at position i, moving later entries of its cluster back. */
    method BackShift(i: nat)
      requires Valid() && |ids| < capacity
      requires i < capacity && table[i].Taken?
      modifies this`ids, table
      ensures Valid() && ids == old(ids) - {old(table[i].id)}
    {
      ghost var t := table[..];
      ghost var v := VacantSlot(t, ids);
      ghost var left := ids - {t[i].id};
      ShiftStart(t, home, ids, i, v);
      var hole := i;
      var next := Advance(hole);
      while table[next].Taken?
        invariant table[..] == t && Shifting(t, home, left, hole, next, v)
        decreases Dist(next, v, |t|)
      {
        var h := HomeSlot(table[next].id);
        var dh := Span(h, next);
        var dn := Span(hole, next);
        if dh >= dn {
          ShiftMove(t, home, left, hole, next, v);
          t := t[hole := t[next]];
          table[hole] := table[next];
          hole := next;
        } else {
          ShiftPass(t, home, left, hole, next, v);
        }
        next := Advance(next);
      }
      ShiftEnd(t, home, left, hole, next, v);
      table[hole] := Vacant;
      ids := left;
    }
  }

  /**
   Loop invariant of the back-shift: slot hole still shows a stale entry; once
   it is vacated the table represents ids, and only paths into the part of the
   cluster from next on may run through the hole. Slot v stays vacant.
   */
  ghost predicate Shifting(t: seq<IdEntry>, home: nat -> nat, ids: map<nat, nat>, hole: int, next: int, v: int)
    requires Hashes(home, |t|)
  {
    && 0 <= hole < |t| && 0 <= next < |t| && 0 <= v < |t| && hole != next && v != hole
    && t[hole].Taken? && t[v].Vacant? && Dist(hole, next, |t|) <= Dist(hole, v, |t|)
    && Represents(t[hole := Vacant], ids)
    && ProbingBut(t[hole := Vacant], home, hole, next)
  }

  lemma ShiftStart(t: seq<IdEntry>, home: nat -> nat, ids: map<nat, nat>, i: nat, v: nat)
    requires |t| >= 2 && Hashes(home, |t|) && Probing(t, home) && Represents(t, ids)
    requires i < |t| && t[i].Taken? && v < |t| && t[v].Vacant?
    ensures Shifting(t, home, ids - {t[i].id}, i, Next(i, |t|), v)
  {
    EraseRepresents(t, ids, i);
    OpenHole(t, home, i);
  }

  lemma ShiftMove(t: seq<IdEntry>, home: nat -> nat, ids: map<nat, nat>, hole: nat, next: nat, v: nat)
    requires |t| >= 2 && Hashes(home, |t|) && Shifting(t, home, ids, hole, next, v) && t[next].Taken?
    requires Dist(home(t[next].id), next, |t|) >= Dist(hole, next, |t|)
    ensures Shifting(t[hole := t[next]], home, ids, next, Next(next, |t|), v)
    ensures Dist(Next(next, |t|), v, |t|) < Dist(next, v, |t|)
  {
    var u := t[hole := Vacant];
    MoveIntoHole(u, home, hole, next);
    MoveRepresents(u, ids, hole, next);
    assert t[hole := t[next]][next := Vacant] == u[hole := u[next]][next := Vacant];
  }

  lemma ShiftPass(t: seq<IdEntry>, home: nat -> nat, ids: map<nat, nat>, hole: nat, next: nat, v: nat)
    requires |t| >= 2 && Hashes(home, |t|) && Shifting(t, home, ids, hole, next, v) && t[next].Taken?
    requires Dist(home(t[next].id), next, |t|) < Dist(hole, next, |t|)
    ensures Shifting(t, home, ids, hole, Next(next, |t|), v)
    ensures Dist(Next(next, |t|), v, |t|) < Dist(next, v, |t|)
  {
    PassEntry(t[hole := Vacant], home, hole, next);
  }

  lemma ShiftEnd(t: seq<IdEntry>, home: nat -> nat, ids: map<nat, nat>, hole: nat, next: nat, v: nat)
    requires |t| >= 2 && Hashes(home, |t|) && Shifting(t, home, ids, hole, next, v) && t[next].Vacant?
    ensures Represents(t[hole := Vacant], ids) && Probing(t[hole := Vacant], home)
  {
    CloseHole(t[hole := Vacant], home, hole, next);
  }

  /** Every slot from home up to, not including, i is taken. */
  ghost predicate TakenBefore(t: seq<IdEntry>, home: nat, i: nat)
    requires home < |t| && i < |t|
  {
    forall j :: 0 <= j < |t| && Dist(home, j, |t|) < Dist(home, i, |t|) ==> t[j].Taken?
  }

  /** None of the slots from home up to, not including, i holds id. */
  ghost predicate MissedBefore(t: seq<IdEntry>, id: nat, home: nat, i: nat)
    requires home < |t| && i < |t|
  {
    forall j :: 0 <= j < |t| && Dist(home, j, |t|) < Dist(home, i, |t|) && t[j].Taken? ==> t[j].id != id
  }

  /** One more probe over a taken slot, never past a vacant slot v. */
  lemma TakenNext(t: seq<IdEntry>, home: nat, i: nat, v: nat)
    requires home < |t| && i < |t| && v < |t| && t[v].Vacant?
    requires TakenBefore(t, home, i) && t[i].Taken?
    ensures TakenBefore(t, home, Next(i, |t|))
    ensures forall id :: MissedBefore(t, id, home, i) && t[i].id != id ==> MissedBefore(t, id, home, Next(i, |t|))
    ensures Dist(home, Next(i, |t|), |t|) == Dist(home, i, |t|) + 1
    ensures Dist(Next(i, |t|), v, |t|) < Dist(i, v, |t|)
  {
    assert Dist(home, v, |t|) >= Dist(home, i, |t|);
  }

  lemma EmptyTable(t: seq<IdEntry>, home: nat -> nat)
    requires Hashes(home, |t|) && forall i :: 0 <= i < |t| ==> t[i].Vacant?
    ensures Represents(t, map[]) && Probing(t, home)
  {
  }

  /** The load factor leaves a vacant slot. */
  lemma VacantSlot(t: seq<IdEntry>, ids: map<nat, nat>) returns (v: nat)
    requires Represents(t, ids) && |ids| < |t|
    ensures v < |t| && t[v].Vacant?
  {
    LoadIsSize(t, ids);
    v := SomeVacant(t);
  }

  lemma LogBound(n: nat, k: nat, p: nat)
    requires 1 <= n <= 0x4000_0000_0000_0000
    requires p == Pow2(k) && p >= n * 2 && (k > 0 ==> Pow2(k - 1) < n * 2)
    ensures 1 <= k <= 64 && p >= 2
  {
    WordIsPow2();
    if k > 0 {
      Pow2Order(k - 1, 64);
    }
  }

  /** Reaching a vacant slot on the probe path proves an id absent. */
  lemma AbsentAt(t: seq<IdEntry>, home: nat -> nat, ids: map<nat, nat>, id: nat, i: nat)
    requires Hashes(home, |t|) && Probing(t, home) && Represents(t, ids)
    requires i < |t| && t[i].Vacant? && TakenBefore(t, home(id), i) && MissedBefore(t, id, home(id), i)
    ensures id !in ids
  {
    forall k | 0 <= k < |t| && t[k].Taken?
      ensures t[k].id != id
    {
      var before := OnPath(t, home, k, i);
    }
  }
}
