/**
 One side of the direct-indexed price ladder with its incrementally
 maintained touch: level i holds price minPx + i, best is the touch price and
 live counts the non-empty levels.
 */
module Ladder {
  import opened MatchingSpec
  import opened Fifo

  /** Which levels hold orders. */
  function Occupied(levels: seq<LevelFifo>): (occ: seq<bool>)
    ensures |occ| == |levels|
  {
    seq(|levels|, i requires 0 <= i < |levels| => !levels[i].Empty())
  }

  function Count(occ: seq<bool>): (c: nat)
    ensures c <= |occ|
  {
    if occ == [] then 0 else Count(occ[..|occ| - 1]) + (if occ[|occ| - 1] then 1 else 0)
  }

  lemma {:induction false} CountUpdate(occ: seq<bool>, i: nat)
    requires i < |occ|
    ensures Count(occ[i := true]) == Count(occ[i := false]) + 1
  {
    var n := |occ| - 1;
    if i == n {
      assert occ[i := true][..n] == occ[..n] == occ[i := false][..n];
    } else {
      CountUpdate(occ[..n], i);
      assert occ[i := true][..n] == occ[..n][i := true];
      assert occ[i := false][..n] == occ[..n][i := false];
    }
  }

  /** A side counts zero live levels exactly when none is occupied. */
  lemma {:induction false} CountPositive(occ: seq<bool>)
    ensures Count(occ) > 0 <==> exists i :: 0 <= i < |occ| && occ[i]
  {
    if occ != [] {
      var n := |occ| - 1;
      CountPositive(occ[..n]);
      assert forall i :: 0 <= i < n ==> occ[..n][i] == occ[i];
    }
  }

  /** live is the number of occupied levels; best is the best occupied price. */
  ghost predicate Touch(side: Side, minPx: int, occ: seq<bool>, best: int, live: nat) {
    && live == Count(occ)
    && (live > 0 ==>
      && 0 <= best - minPx < |occ| && occ[best - minPx]
      && forall i :: 0 <= i < |occ| && occ[i] ==> !Better(side, minPx + i, best))
  }

  /** The touch over was, where only entry i differs, read off occ. */
  lemma TouchOff(side: Side, minPx: int, was: seq<bool>, occ: seq<bool>, i: nat, best: int, live: nat)
    requires i < |occ| && was == occ[i := !occ[i]] && Touch(side, minPx, was, best, live)
    ensures live == Count(occ) + (if occ[i] then -1 else 1)
    ensures live > 0 ==> 0 <= best - minPx < |occ| && (best - minPx == i <==> !occ[best - minPx])
    ensures live > 0 ==> forall j :: 0 <= j < |occ| && occ[j] && j != i ==> !Better(side, minPx + j, best)
    ensures live == 0 ==> forall j :: 0 <= j < |occ| && j != i ==> !occ[j]
    ensures live > 0 && !occ[i] ==> !Better(side, minPx + i, best)
    ensures Count(occ) > 0 ==> exists j :: 0 <= j < |occ| && occ[j]
  {
    CountUpdate(occ, i);
    assert occ[i := occ[i]] == occ;
    CountPositive(was);
    CountPositive(occ);
    assert was[i] == !occ[i];
    assert forall j :: 0 <= j < |occ| && j != i ==> was[j] == occ[j];
    if live > 0 {
      forall j | 0 <= j < |occ| && occ[j] && j != i
        ensures !Better(side, minPx + j, best)
      {
        assert was[j];
      }
    }
  }

  /** No level better than i holds orders. */
  ghost predicate NoneBetter(side: Side, levels: seq<LevelFifo>, i: nat) {
    forall j :: 0 <= j < |levels| && !levels[j].Empty() ==> !Better(side, j, i)
  }

  /** The touch names the best occupied level, or every level is empty. */
  lemma TouchBest(side: Side, minPx: int, levels: seq<LevelFifo>, best: int, live: nat) returns (i: nat)
    requires Touch(side, minPx, Occupied(levels), best, live)
    ensures live > 0 ==> i == best - minPx && i < |levels| && !levels[i].Empty() && NoneBetter(side, levels, i)
    ensures live == 0 ==> forall j :: 0 <= j < |levels| ==> levels[j].Empty()
  {
    var occ := Occupied(levels);
    CountPositive(occ);
    assert forall j :: 0 <= j < |levels| ==> occ[j] == !levels[j].Empty();
    i := if live > 0 then best - minPx else 0;
  }

  /** What the occupancy of the other levels says about changing level i alone. */
  lemma OccupiedUpdate(was: seq<LevelFifo>, now: seq<LevelFifo>, i: nat)
    requires |was| == |now| && i < |was|
    requires forall j :: 0 <= j < |was| && j != i ==> now[j] == was[j]
    ensures Occupied(now)[i := !was[i].Empty()] == Occupied(was)
    ensures now[i].Empty() == was[i].Empty() ==> Occupied(now) == Occupied(was)
  {
  }

  class PriceLadder {
    const side: Side
    const minPx: int
    const levels: array<LevelFifo>
    var best: int
    var live: nat

    ghost predicate TouchOk()
      reads this, levels
    {
      Touch(side, minPx, Occupied(levels[..]), best, live)
    }

    constructor (side: Side, minPx: int, maxPx: int)
      requires minPx <= maxPx
      ensures this.side == side && this.minPx == minPx
      ensures fresh(levels) && levels.Length == maxPx - minPx + 1
      ensures forall i :: 0 <= i < levels.Length ==> levels[i] == EMPTY_LEVEL
      ensures TouchOk() && live == 0
    {
      this.side := side;
      this.minPx := minPx;
      levels := new LevelFifo[maxPx - minPx + 1](_ => EMPTY_LEVEL);
      best := 0;
      live := 0;
      new;
      CountPositive(Occupied(levels[..]));
    }

    /** Level px just went from empty to populated. */
    method MarkLevelLive(px: int)
      requires 0 <= px - minPx < levels.Length && !levels[px - minPx].Empty()
      requires Touch(side, minPx, Occupied(levels[..])[px - minPx := false], best, live)
      modifies this
      ensures TouchOk()
    {
      ghost var occ := Occupied(levels[..]);
      TouchOff(side, minPx, occ[px - minPx := false], occ, px - minPx, best, live);
      if side.Buy? {
        if live == 0 || px > best {
          best := px;
        }
      } else {
        if live == 0 || px < best {
          best := px;
        }
      }
      live := live + 1;
    }

    /** The next occupied level below px. */
    method ScanDown(px: int, ghost w: nat) returns (p: int)
      requires w < px - minPx < levels.Length && !levels[w].Empty()
      ensures 0 <= p - minPx < px - minPx && !levels[p - minPx].Empty()
      ensures forall i :: p - minPx < i < px - minPx ==> levels[i].Empty()
    {
      p := px - 1;
      while levels[p - minPx].Empty()
        invariant w <= p - minPx < px - minPx
        invariant forall i :: p - minPx < i < px - minPx ==> levels[i].Empty()
        decreases p - minPx
      {
        p := p - 1;
      }
    }

    /** The next occupied level above px. */
    method ScanUp(px: int, ghost w: nat) returns (p: int)
      requires 0 <= px - minPx < w < levels.Length && !levels[w].Empty()
      ensures px - minPx < p - minPx < levels.Length && !levels[p - minPx].Empty()
      ensures forall i :: px - minPx < i < p - minPx ==> levels[i].Empty()
    {
      p := px + 1;
      while levels[p - minPx].Empty()
        invariant px - minPx < p - minPx <= w
        invariant forall i :: px - minPx < i < p - minPx ==> levels[i].Empty()
        decreases w - (p - minPx)
      {
        p := p + 1;
      }
    }

    /** Level px just went from populated to empty; a lost touch is repaired by scanning toward worse prices. */
    method MarkLevelEmptied(px: int)
      requires 0 <= px - minPx < levels.Length && levels[px - minPx].Empty()
      requires Touch(side, minPx, Occupied(levels[..])[px - minPx := true], best, live)
      modifies this
      ensures TouchOk()
      ensures live == old(live) - 1
    {
      ghost var occ := Occupied(levels[..]);
      TouchOff(side, minPx, occ[px - minPx := true], occ, px - minPx, best, live);
      live := live - 1;
      if live > 0 && px == best {
        ghost var w :| 0 <= w < |occ| && occ[w];
        if side.Buy? {
          best := ScanDown(px, w);
        } else {
          best := ScanUp(px, w);
        }
        assert forall i :: 0 <= i < |occ| ==> occ[i] == !levels[i].Empty();
      }
    }
  }
}
