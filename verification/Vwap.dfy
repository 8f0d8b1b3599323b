/** Volume-weighted schedule: cumulative rounding of a volume profile, in exact arithmetic. */
module Vwap {
  import opened Rounding

  /** Sum of the first j weights. */
  function Cum(profile: seq<real>, j: nat): real
    requires j <= |profile|
  {
    if j == 0 then 0.0 else Cum(profile, j - 1) + profile[j - 1]
  }

  ghost predicate Weights(profile: seq<real>) {
    |profile| >= 1 && forall j :: 0 <= j < |profile| ==> profile[j] >= 0.0
  }

  /** Units sent after j children: the rounded cumulative share, kept within bounds; everything after the last. */
  function Sent(q: nat, profile: seq<real>, j: nat): (n: nat)
    requires j <= |profile|
    ensures n <= q
  {
    if j == 0 then 0
    else if j == |profile| then q
    else
      var before := Sent(q, profile, j - 1);
      var target := Share(q, Cum(profile, j));
      if target > q then q else if target < before then before else target
  }

  class VwapStrategy {
    const parentQty: nat
    const childQty: array<nat>
    const remaining: array<nat>

    constructor (parentQty: nat, profile: seq<real>)
      requires Weights(profile)
      ensures this.parentQty == parentQty
      ensures childQty.Length == |profile| && remaining.Length == |profile| + 1
      ensures forall j :: 0 <= j <= |profile| ==> remaining[j] == parentQty - Sent(parentQty, profile, j)
      ensures childQty[..] == Children(parentQty, profile, |profile|)
    {
      hide Share, Sent, Cum;
      this.parentQty := parentQty;
      var n := |profile|;
      childQty := new nat[n](_ => 0);
      remaining := new nat[n + 1](_ => 0);
      new;
      remaining[0] := parentQty;
      var cum := 0.0;
      var sent: nat := 0;
      StartsEmpty(parentQty, profile);
      for j := 0 to n
        invariant cum == Cum(profile, j) && sent == Sent(parentQty, profile, j)
        invariant forall i :: 0 <= i <= j ==> remaining[i] == parentQty - Sent(parentQty, profile, i)
        invariant childQty[..j] == Children(parentQty, profile, j)
      {
        cum := cum + profile[j];
        NextTarget(parentQty, profile, j);
        var target: int := parentQty;
        if j + 1 != n {
          target := Share(parentQty, cum);
          if target > parentQty {
            target := parentQty;
          }
          if target < sent {
            target := sent;
          }
        }
        childQty[j] := target - sent;
        sent := target;
        remaining[j + 1] := parentQty - sent;
        ChildrenNext(parentQty, profile, j);
        assert childQty[..j + 1] == childQty[..j] + [childQty[j]];
      }
      assert childQty[..] == childQty[..n];
    }
  }

  lemma StartsEmpty(q: nat, profile: seq<real>)
    ensures Cum(profile, 0) == 0.0 && Sent(q, profile, 0) == 0
  {
  }

  /** The source's clamps of one target, in its order. */
  lemma NextTarget(q: nat, profile: seq<real>, j: nat)
    requires j < |profile|
    ensures Cum(profile, j + 1) == Cum(profile, j) + profile[j]
    ensures Sent(q, profile, j) <= Sent(q, profile, j + 1) <= q
    ensures var before, target := Sent(q, profile, j), Share(q, Cum(profile, j + 1));
      Sent(q, profile, j + 1) ==
      if j + 1 == |profile| then q
      else var low := if target > q then q as int else target; if low < before then before else low
  {
  }

  lemma SentRises(q: nat, profile: seq<real>, j: nat)
    requires j < |profile|
    ensures Sent(q, profile, j) <= Sent(q, profile, j + 1)
  {
  }

  /** The first j child quantities. */
  function Children(q: nat, profile: seq<real>, j: nat): (c: seq<nat>)
    requires j <= |profile|
    ensures |c| == j
  {
    seq(j, i requires 0 <= i < j => SentRises(q, profile, i); Sent(q, profile, i + 1) - Sent(q, profile, i))
  }

  lemma ChildrenNext(q: nat, profile: seq<real>, j: nat)
    requires j < |profile|
    ensures Sent(q, profile, j) <= Sent(q, profile, j + 1)
    ensures Children(q, profile, j + 1) ==
      Children(q, profile, j) + [Sent(q, profile, j + 1) - Sent(q, profile, j)]
  {
    hide Sent;
    SentRises(q, profile, j);
  }

  /** Any number of children sum to what has been sent; all of them to the parent quantity. */
  lemma {:induction false} ChildrenSum(q: nat, profile: seq<real>, j: nat)
    requires j <= |profile|
    ensures Sum(Children(q, profile, j)) == Sent(q, profile, j)
    ensures j == |profile| >= 1 ==> Sum(Children(q, profile, j)) == q
  {
    if j > 0 {
      ChildrenSum(q, profile, j - 1);
      ChildrenNext(q, profile, j - 1);
      assert Children(q, profile, j)[..j - 1] == Children(q, profile, j - 1);
    }
  }

  /** What remains never rises. */
  lemma {:induction false} RemainingFalls(q: nat, profile: seq<real>, i: nat, j: nat)
    requires i <= j <= |profile|
    ensures q - Sent(q, profile, j) <= q - Sent(q, profile, i)
    ensures j == |profile| >= 1 ==> q - Sent(q, profile, j) == 0
    decreases j - i
  {
    if i < j {
      RemainingFalls(q, profile, i, j - 1);
      SentRises(q, profile, j - 1);
    }
  }

  lemma {:induction false} CumRises(profile: seq<real>, i: nat, j: nat)
    requires Weights(profile) && i <= j <= |profile|
    ensures 0.0 <= Cum(profile, i) <= Cum(profile, j)
    decreases j
  {
    if j > 0 {
      if i < j {
        CumRises(profile, i, j - 1);
      } else {
        CumRises(profile, i - 1, j - 1);
      }
    }
  }

  /** Before the last child the bounds never bite: the plan is the rounded cumulative share itself. */
  lemma {:induction false} SentIsRounded(q: nat, profile: seq<real>, j: nat)
    requires Weights(profile) && j < |profile|
    ensures Sent(q, profile, j) == Share(q, Cum(profile, j))
    decreases j
  {
    hide Share;
    if j == 0 {
      ShareNone(q);
    } else {
      SentIsRounded(q, profile, j - 1);
      CumRises(profile, j - 1, j);
      ShareMonotone(q, Cum(profile, j - 1), Cum(profile, j));
      ShareBounds(q, Cum(profile, j));
    }
  }

  /** How far n units are from the share c of q. */
  function Off(n: int, q: nat, c: real): real {
    Abs((n as real) - (q as real) * c)
  }

  /** With weights summing to one, every prefix of children is within half a unit of its cumulative share. */
  lemma UnitPrefix(q: nat, profile: seq<real>, j: nat)
    requires Weights(profile) && Cum(profile, |profile|) == 1.0 && j <= |profile|
    ensures Off(Sent(q, profile, j), q, Cum(profile, j)) <= 0.5
    ensures -0.5 < (Sent(q, profile, j) as real) - (q as real) * Cum(profile, j) <= 0.5
  {
    hide Share, Cum, Sent;
    CumRises(profile, j, |profile|);
    if j < |profile| {
      SentIsRounded(q, profile, j);
      ShareError(q, Cum(profile, j));
    } else {
      RemainingFalls(q, profile, j, j);
    }
  }

  /** A profile that reaches one early has everything sent from then on. */
  lemma SentWhenFull(q: nat, profile: seq<real>, j: nat)
    requires Weights(profile) && j < |profile| && Cum(profile, j) >= 1.0
    ensures Sent(q, profile, j) == q
  {
    SentIsRounded(q, profile, j);
    ShareBeyond(q, Cum(profile, j));
  }

  /** Any run of children is then within one unit of its share; one child is the case i == j - 1. */
  lemma UnitRun(q: nat, profile: seq<real>, i: nat, j: nat)
    requires Weights(profile) && Cum(profile, |profile|) == 1.0 && i <= j <= |profile|
    ensures Off(Sent(q, profile, j) - Sent(q, profile, i), q, Cum(profile, j) - Cum(profile, i)) <= 1.0
  {
    UnitPrefix(q, profile, i);
    UnitPrefix(q, profile, j);
    OffDifference(Sent(q, profile, i), Sent(q, profile, j), q, Cum(profile, i), Cum(profile, j));
  }

  lemma OffDifference(m: int, n: int, q: nat, c: real, d: real)
    ensures Off(n - m, q, d - c) <= Off(m, q, c) + Off(n, q, d)
  {
    var qr := q as real;
    assert qr * (d - c) == qr * d - qr * c;
    assert (n - m) as real == (n as real) - (m as real);
  }

  /** Every single child is within one unit of its own weight's share. */
  lemma UnitChild(q: nat, profile: seq<real>, j: nat)
    requires Weights(profile) && Cum(profile, |profile|) == 1.0 && j < |profile|
    ensures Off(Children(q, profile, |profile|)[j], q, profile[j]) <= 1.0
  {
    hide Off, Sent;
    UnitRun(q, profile, j, j + 1);
  }
}
