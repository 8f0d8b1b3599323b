/**
 Almgren-Chriss schedule: rounding of an inventory curve, clamped to be
 non-increasing, with forced close-out. The curve stands for the source's sinh
 ratio and is arbitrary here; arithmetic is exact.
 */
module AlmgrenChriss {
  import opened Rounding

  /** Inventory planned after step j of n. */
  function Plan(q: nat, n: nat, curve: nat -> real, j: nat): (x: nat)
    requires j <= n
    ensures x <= q
  {
    if j == 0 then q
    else if j == n then 0
    else
      var prev := Plan(q, n, curve, j - 1);
      var x := Share(q, curve(j));
      ShareBounds(q, curve(j));
      if x > prev then prev else x
  }

  /** The straight line from one to zero over n steps. */
  function Line(n: nat, j: nat): real
    requires n >= 1
  {
    ((n - j) as real) / (n as real)
  }

  function Linear(n: nat): nat -> real
    requires n >= 1
  {
    (j: nat) => Line(n, j)
  }

  function UsedCurve(n: nat, linear: bool, curve: nat -> real): nat -> real
    requires n >= 1
  {
    if linear then Linear(n) else curve
  }

  lemma DivUnique(x: real, y: real, n: real)
    requires n != 0.0 && y * n == x
    ensures x / n == y
  {
  }

  /** The source's time arithmetic gives that line. */
  lemma LinearTime(horizon: real, n: nat, j: nat)
    requires horizon > 0.0 && n >= 1
    ensures (horizon - (j as real) * horizon / (n as real)) / horizon == Line(n, j)
  {
    var nr, jr := n as real, j as real;
    var s := jr / nr;
    assert s * nr == jr;
    var t := jr * horizon;
    assert (s * horizon) * nr == t;
    DivUnique(t, s * horizon, nr);
    assert (1.0 - s) * horizon == horizon - s * horizon;
    DivUnique(horizon - s * horizon, 1.0 - s, horizon);
    var m := (n - j) as real;
    assert m == nr - jr;
    assert (1.0 - s) * nr == m;
    DivUnique(m, 1.0 - s, nr);
  }

  class AlmgrenChriss {
    const parentQty: nat
    const childQty: array<nat>
    const remaining: array<nat>

    /**
     kappa is the source's square root of lambda sigma squared over eta; below
     the threshold the schedule is linear, otherwise it follows the curve.
     */
    constructor (parentQty: nat, n: nat, horizon: real, lambda: real, sigma: real, eta: real, kappa: real,
                 curve: nat -> real)
      requires n >= 1 && horizon > 0.0 && eta > 0.0 && IsKappa(lambda, sigma, eta, kappa)
      ensures this.parentQty == parentQty
      ensures childQty.Length == n && remaining.Length == n + 1
      ensures forall j :: 0 <= j < n ==> childQty[j] + remaining[j + 1] == remaining[j]
      ensures remaining[0] == parentQty && remaining[n] == 0 && Sum(childQty[..]) == parentQty
      // the linear case, for no risk aversion or volatility among others
      ensures lambda * sigma * sigma <= 0.0 ==> kappa * horizon <= 0.000000001
      ensures kappa * horizon <= 0.000000001 ==>
        && (forall j :: 0 <= j <= n ==> remaining[j] == EvenHeld(parentQty, n, j))
        && (forall j :: 0 <= j < n ==>
          parentQty / n <= childQty[j] <= if parentQty % n == 0 then parentQty / n else parentQty / n + 1)
      // the curved case: any curve, a falling one, a convex one
      ensures kappa * horizon > 0.000000001 ==>
        forall j :: 1 <= j < n ==>
          remaining[j] == if Share(parentQty, curve(j)) < remaining[j - 1] then Share(parentQty, curve(j))
                          else remaining[j - 1]
      ensures kappa * horizon > 0.000000001 && Falling(curve, n) ==>
        forall j :: 1 <= j < n ==> -0.5 < (remaining[j] as real) - (parentQty as real) * curve(j) <= 0.5
      ensures kappa * horizon > 0.000000001 && Convex(curve, n) && curve(0) == 1.0 && curve(n) == 0.0 ==>
        forall j :: 0 <= j <= n ==> remaining[j] <= EvenHeld(parentQty, n, j)
    {
      hide *;
      this.parentQty := parentQty;
      childQty := new nat[n](_ => 0);
      remaining := new nat[n + 1](_ => 0);
      new;
      NearZeroMeans(kappa, horizon);
      NoRiskNoKappa(lambda, sigma, eta, kappa, horizon);
      Tabulate(n, horizon, NearZero(kappa, horizon), curve);
      TablesTell(parentQty, n, NearZero(kappa, horizon), curve, remaining[..], childQty[..]);
    }

    method Tabulate(n: nat, horizon: real, linear: bool, curve: nat -> real)
      requires n >= 1 && horizon > 0.0 && childQty.Length == n && remaining.Length == n + 1
      modifies childQty, remaining
      ensures forall j :: 0 <= j <= n ==> remaining[j] == Plan(parentQty, n, UsedCurve(n, linear, curve), j)
      ensures childQty[..] == Children(parentQty, n, UsedCurve(n, linear, curve), n)
    {
      hide Share, Plan, UsedCurve, Line, Linear, Urgency, Children;
      ghost var used := UsedCurve(n, linear, curve);
      Anchors(parentQty, n, used);
      remaining[0] := parentQty;
      remaining[n] := 0;
      var prev: nat := parentQty;
      ghost var children: seq<nat>, i: nat := [], 0;
      for j := 1 to n
        invariant i == j - 1 && prev == Plan(parentQty, n, used, i)
        invariant remaining[n] == 0
        invariant forall k :: 0 <= k < j ==> remaining[k] == Plan(parentQty, n, used, k)
        invariant children == Children(parentQty, n, used, i)
        invariant forall k :: 0 <= k < i ==> childQty[k] == children[k]
      {
        var x := NextInventory(parentQty, n, horizon, linear, curve, j, prev);
        remaining[j] := x;
        var child: nat := prev - x;
        childQty[j - 1] := child;
        ChildrenPlus(parentQty, n, used, i, j, children, child);
        children := children + [child];
        prev := x;
        i := j;
      }
      childQty[n - 1] := prev;
      ChildrenPlus(parentQty, n, used, i, n, children, prev);
      assert childQty[..] == children + [prev];
    }
  }

  /** kappa squared is lambda sigma squared over eta; zero without risk. */
  ghost predicate IsKappa(lambda: real, sigma: real, eta: real, kappa: real) {
    kappa >= 0.0 && kappa * kappa * eta == if lambda * sigma * sigma <= 0.0 then 0.0 else lambda * sigma * sigma
  }

  /** Urgency times horizon is not above the threshold that keeps the sinh ratio away from 0/0. */
  predicate NearZero(kappa: real, horizon: real) {
    !(kappa * horizon > 0.000000001)
  }

  lemma NearZeroMeans(kappa: real, horizon: real)
    ensures NearZero(kappa, horizon) <==> kappa * horizon <= 0.000000001
  {
  }

  /** Every urgency occurs. */
  lemma KappaIs(kappa: real)
    requires kappa >= 0.0
    ensures IsKappa(kappa * kappa, 1.0, 1.0, kappa)
  {
    var square := kappa * kappa;
    assert square * 1.0 == square;
    if kappa > 0.0 {
      var product := Product(kappa, kappa);
    }
  }

  lemma NoRiskNoKappa(lambda: real, sigma: real, eta: real, kappa: real, horizon: real)
    requires eta > 0.0 && horizon > 0.0 && IsKappa(lambda, sigma, eta, kappa)
    ensures lambda * sigma * sigma <= 0.0 ==> kappa == 0.0 && NearZero(kappa, horizon)
  {
    if lambda * sigma * sigma <= 0.0 {
      NoRoot(kappa, eta);
    }
    assert kappa == 0.0 ==> kappa * horizon == 0.0;
  }

  lemma NoRoot(x: real, y: real)
    requires x >= 0.0 && y > 0.0 && x * x * y == 0.0
    ensures x == 0.0
  {
    if x > 0.0 {
      var square := Product(x, x);
      var all := Product(square, y);
    }
  }

  lemma Product(x: real, y: real) returns (z: real)
    requires x > 0.0 && y > 0.0
    ensures z == x * y && z > 0.0
  {
    z := x * y;
  }

  /** What a linear schedule holds after step j: the even part of q, rounded with halves up, in integers. */
  function EvenHeld(q: nat, n: nat, j: nat): int
    requires n >= 1
  {
    (2 * q * (n - j) + n) / (2 * n)
  }

  ghost predicate Falling(curve: nat -> real, n: nat) {
    && (forall j :: 1 <= j < n ==> 0.0 <= curve(j) <= 1.0)
    && (forall i, j :: 1 <= i < j < n ==> curve(j) <= curve(i))
  }

  /** What the two tables of a planned schedule say of quantity and curve. */
  lemma TablesTell(q: nat, n: nat, linear: bool, curve: nat -> real, remaining: seq<nat>, children: seq<nat>)
    requires n >= 1 && |remaining| == n + 1 && children == Children(q, n, UsedCurve(n, linear, curve), n)
    requires forall j :: 0 <= j <= n ==> remaining[j] == Plan(q, n, UsedCurve(n, linear, curve), j)
    ensures forall j :: 0 <= j < n ==> children[j] + remaining[j + 1] == remaining[j]
    ensures remaining[0] == q && remaining[n] == 0 && Sum(children) == q
    ensures linear ==>
      && (forall j :: 0 <= j <= n ==> remaining[j] == EvenHeld(q, n, j))
      && (forall j :: 0 <= j < n ==> q / n <= children[j] <= if q % n == 0 then q / n else q / n + 1)
    ensures !linear ==>
      forall j :: 1 <= j < n ==>
        remaining[j] == if Share(q, curve(j)) < remaining[j - 1] then Share(q, curve(j)) else remaining[j - 1]
    ensures !linear && Falling(curve, n) ==>
      forall j :: 1 <= j < n ==> -0.5 < (remaining[j] as real) - (q as real) * curve(j) <= 0.5
    ensures !linear && Convex(curve, n) && curve(0) == 1.0 && curve(n) == 0.0 ==>
      forall j :: 0 <= j <= n ==> remaining[j] <= EvenHeld(q, n, j)
  {
    var used := UsedCurve(n, linear, curve);
    hide Plan, Children, Share, Falling, Convex, EvenHeld, Line, Linear;
    ChildrenSum(q, n, used, n);
    ChildrenAre(q, n, used, n);
    Anchors(q, n, used);
    forall j | 0 <= j < n
      ensures children[j] + remaining[j + 1] == remaining[j]
      ensures linear ==> q / n <= children[j] <= if q % n == 0 then q / n else q / n + 1
    {
      PlanFalls(q, n, used, j);
      var k := j + 1;
      assert remaining[k] == Plan(q, n, used, k) && remaining[j] == Plan(q, n, used, j);
      LinearChildren(q, n, k);
    }
    forall j | 0 <= j <= n && linear
      ensures remaining[j] == EvenHeld(q, n, j)
    {
      LinearHeld(q, n, j);
    }
    forall j | 1 <= j < n && !linear
      ensures remaining[j] == if Share(q, curve(j)) < remaining[j - 1] then Share(q, curve(j)) else remaining[j - 1]
      ensures Falling(curve, n) ==> -0.5 < (remaining[j] as real) - (q as real) * curve(j) <= 0.5
    {
      NextPlan(q, n, curve, j);
      if Falling(curve, n) {
        FallingPlan(q, n, curve, j);
      }
    }
    forall j | 0 <= j <= n && !linear && Convex(curve, n) && curve(0) == 1.0 && curve(n) == 0.0
      ensures remaining[j] <= EvenHeld(q, n, j)
    {
      ConvexFrontLoads(q, n, curve, j);
      LinearHeld(q, n, j);
    }
  }

  /** On a falling curve the monotone clamp never bites: the plan is the curve to the nearest unit, halves up. */
  lemma {:induction false} FallingPlan(q: nat, n: nat, curve: nat -> real, j: nat)
    requires Falling(curve, n) && 1 <= j < n
    ensures Plan(q, n, curve, j) == Share(q, curve(j))
    ensures -0.5 < (Plan(q, n, curve, j) as real) - (q as real) * curve(j) <= 0.5
    decreases j
  {
    hide Share;
    ShareError(q, curve(j));
    ShareBounds(q, curve(j));
    if j > 1 {
      FallingPlan(q, n, curve, j - 1);
      ShareMonotone(q, curve(j), curve(j - 1));
    }
  }

  /** The linear plan in integers. */
  lemma LinearHeld(q: nat, n: nat, j: nat)
    requires n >= 1 && j <= n
    ensures Plan(q, n, Linear(n), j) == EvenHeld(q, n, j)
  {
    hide Plan;
    LinearPlan(q, n, j);
    LinearBounds(n, j);
    var x := (q as real) * Line(n, j);
    assert Share(q, Line(n, j)) == (x + 0.5).Floor;
    hide Share;
    var m := n - j;
    var top, bottom := 2 * q * m + n, 2 * n;
    HalfUp(q, m, n, x);
    QuotientFloor(top, bottom);
  }

  lemma HalfUp(q: nat, m: nat, n: nat, x: real)
    requires n >= 1 && x == (q as real) * ((m as real) / (n as real))
    ensures x + 0.5 == ((2 * q * m + n) as real) / ((2 * n) as real)
  {
    var qr, mr, nr := q as real, m as real, n as real;
    var f := mr / nr;
    assert f * nr == mr;
    Times(q, m);
    assert (q * m) as real == qr * mr;
    assert 2 * q * m == 2 * (q * m);
    assert (2 * q * m + n) as real == 2.0 * (qr * mr) + nr;
    assert (2 * n) as real == 2.0 * nr;
    Regroup(qr, f, nr);
    assert (x + 0.5) * (2.0 * nr) == 2.0 * (qr * mr) + nr;
    DivUnique(2.0 * (qr * mr) + nr, x + 0.5, 2.0 * nr);
  }

  lemma Regroup(q: real, f: real, n: real)
    ensures (q * f + 0.5) * (2.0 * n) == 2.0 * (q * (f * n)) + n
  {
  }

  /** Round the curve at step j, never above the inventory before it. */
  method NextInventory(parentQty: nat, n: nat, horizon: real, linear: bool, curve: nat -> real, j: nat, prev: nat)
      returns (inventory: nat)
    requires 1 <= j < n && horizon > 0.0
    requires prev == Plan(parentQty, n, UsedCurve(n, linear, curve), j - 1)
    ensures inventory == Plan(parentQty, n, UsedCurve(n, linear, curve), j) <= prev
  {
    hide Share, Plan, UsedCurve, Urgency;
    NextPlan(parentQty, n, UsedCurve(n, linear, curve), j);
    var x := Share(parentQty, Urgency(n, horizon, linear, curve, j));
    if x > prev {
      x := prev;
    }
    inventory := x;
  }

  /** The fraction of the parent quantity still held at step j, from the time elapsed. */
  function Urgency(n: nat, horizon: real, linear: bool, curve: nat -> real, j: nat): (frac: real)
    requires n >= 1 && horizon > 0.0
    ensures frac == UsedCurve(n, linear, curve)(j)
  {
    LinearTime(horizon, n, j);
    var t := (j as real) * horizon / (n as real);
    if linear then (horizon - t) / horizon else curve(j)
  }

  lemma Anchors(q: nat, n: nat, curve: nat -> real)
    requires n >= 1
    ensures Plan(q, n, curve, 0) == q && Plan(q, n, curve, n) == 0
  {
  }

  /** The source's clamp of one step. */
  lemma NextPlan(q: nat, n: nat, curve: nat -> real, j: nat)
    requires 1 <= j < n
    ensures var prev, x := Plan(q, n, curve, j - 1), Share(q, curve(j));
      0 <= x && Plan(q, n, curve, j) == if x > prev then prev else x
  {
    ShareBounds(q, curve(j));
  }

  lemma PlanFalls(q: nat, n: nat, curve: nat -> real, j: nat)
    requires j < n
    ensures Plan(q, n, curve, j + 1) <= Plan(q, n, curve, j)
  {
  }

  /** For any curve the remaining inventory falls from q to zero. */
  lemma {:induction false} RemainingFalls(q: nat, n: nat, curve: nat -> real, i: nat, j: nat)
    requires i <= j <= n && n >= 1
    ensures Plan(q, n, curve, j) <= Plan(q, n, curve, i)
    ensures Plan(q, n, curve, 0) == q && Plan(q, n, curve, n) == 0
    decreases j - i
  {
    if i < j {
      RemainingFalls(q, n, curve, i, j - 1);
      PlanFalls(q, n, curve, j - 1);
    }
  }

  /** The first j child quantities. */
  function Children(q: nat, n: nat, curve: nat -> real, j: nat): (c: seq<nat>)
    requires j <= n
    ensures |c| == j
  {
    seq(j, i requires 0 <= i < j => PlanFalls(q, n, curve, i); Plan(q, n, curve, i) - Plan(q, n, curve, i + 1))
  }

  lemma ChildrenNext(q: nat, n: nat, curve: nat -> real, j: nat)
    requires 1 <= j <= n
    ensures Plan(q, n, curve, j) <= Plan(q, n, curve, j - 1)
    ensures Children(q, n, curve, j) ==
      Children(q, n, curve, j - 1) + [Plan(q, n, curve, j - 1) - Plan(q, n, curve, j)]
  {
    hide Plan;
    PlanFalls(q, n, curve, j - 1);
  }

  lemma ChildrenPlus(q: nat, n: nat, curve: nat -> real, i: nat, j: nat, children: seq<nat>, child: nat)
    requires j <= n && i == j - 1 && children == Children(q, n, curve, i)
    requires child == Plan(q, n, curve, i) - Plan(q, n, curve, j)
    ensures children + [child] == Children(q, n, curve, j)
  {
    ChildrenAre(q, n, curve, i);
    ChildrenAre(q, n, curve, j);
    hide Plan, Children;
    var all := Children(q, n, curve, j);
    assert all[i] == child;
    assert all == children + [child];
  }

  lemma ChildrenAre(q: nat, n: nat, curve: nat -> real, j: nat)
    requires j <= n
    ensures forall k :: 0 <= k < j ==> Children(q, n, curve, j)[k] == Plan(q, n, curve, k) - Plan(q, n, curve, k + 1)
  {
    hide Plan;
  }

  /** For any curve the children sum to the parent quantity. */
  lemma {:induction false} ChildrenSum(q: nat, n: nat, curve: nat -> real, j: nat)
    requires j <= n
    ensures Sum(Children(q, n, curve, j)) == q - Plan(q, n, curve, j)
    ensures j == n >= 1 ==> Sum(Children(q, n, curve, j)) == q
  {
    if j > 0 {
      ChildrenSum(q, n, curve, j - 1);
      ChildrenNext(q, n, curve, j);
      assert Children(q, n, curve, j)[..j - 1] == Children(q, n, curve, j - 1);
    }
  }

  // ----- The linear limit -----

  lemma DivideMonotone(x: real, y: real, n: real)
    requires n > 0.0 && x <= y
    ensures x / n <= y / n
  {
  }

  lemma LinearBounds(n: nat, j: nat)
    requires n >= 1 && j <= n
    ensures 0.0 <= Line(n, j) <= 1.0
    ensures Line(n, 0) == 1.0 && Line(n, n) == 0.0
  {
    var nr, m := n as real, (n - j) as real;
    DivUnique(0.0, 0.0, nr);
    DivUnique(nr, 1.0, nr);
    DivideMonotone(0.0, m, nr);
    DivideMonotone(m, nr, nr);
  }

  lemma LineStep(q: nat, n: nat, j: nat)
    requires 1 <= j <= n
    ensures Line(n, j) <= Line(n, j - 1)
    ensures (q as real) * Line(n, j - 1) == (q as real) * Line(n, j) + (q as real) / (n as real)
  {
    var qr, nr, m := q as real, n as real, (n - j) as real;
    var f, u, d := m / nr, 1.0 / nr, qr / nr;
    assert f * nr == m && u * nr == 1.0 && d * nr == qr;
    assert (f + u) * nr == m + 1.0;
    DivUnique(m + 1.0, f + u, nr);
    assert (n - (j - 1)) as real == m + 1.0;
    assert (qr * u) * nr == qr;
    DivUnique(qr, qr * u, nr);
    assert qr * (f + u) == qr * f + qr * u;
  }

  /** On the line the monotone clamp never bites. */
  lemma {:induction false} LinearPlan(q: nat, n: nat, j: nat)
    requires n >= 1 && j <= n
    ensures Plan(q, n, Linear(n), j) == Share(q, Line(n, j))
    decreases j
  {
    hide Share, Line;
    LinearBounds(n, j);
    if j == 0 {
      ShareAll(q);
    } else if j == n {
      ShareNone(q);
    } else {
      LinearPlan(q, n, j - 1);
      LineStep(q, n, j);
      ShareMonotone(q, Line(n, j), Line(n, j - 1));
    }
  }

  lemma FloorUnique(x: real, d: int)
    requires d as real <= x < (d + 1) as real
    ensures x.Floor == d
  {
  }

  lemma Times(d: nat, n: nat)
    ensures (d * n) as real == (d as real) * (n as real)
  {
  }

  lemma QuotientFloor(q: nat, n: nat)
    requires n >= 1
    ensures ((q as real) / (n as real)).Floor == q / n
    ensures -((-((q as real) / (n as real))).Floor) == if q % n == 0 then q / n else q / n + 1
  {
    var qr, nr := q as real, n as real;
    var d, r := q / n, q % n;
    var dr, rr := d as real, r as real;
    assert q == d * n + r;
    Times(d, n);
    assert qr == dr * nr + rr;
    var x, s := qr / nr, rr / nr;
    assert s * nr == rr;
    assert (dr + s) * nr == qr;
    DivUnique(qr, dr + s, nr);
    FractionBounds(rr, nr);
    FloorUnique(x, d);
    if r == 0 {
      FloorUnique(-x, -d);
    } else {
      FloorUnique(-x, -d - 1);
    }
  }

  lemma FractionBounds(r: real, n: real)
    requires 0.0 <= r < n
    ensures 0.0 <= r / n < 1.0
    ensures r / n == 0.0 <==> r == 0.0
  {
    var s := r / n;
    assert s * n == r;
    if s >= 1.0 {
      TimesMonotone(n, 1.0, s);
    }
  }

  /** In the linear limit every child is the even share, rounded down or up. */
  lemma LinearChildren(q: nat, n: nat, j: nat)
    requires n >= 1 && 1 <= j <= n
    ensures q / n <= Plan(q, n, Linear(n), j - 1) - Plan(q, n, Linear(n), j)
      <= if q % n == 0 then q / n else q / n + 1
  {
    hide Share, Line, Plan;
    LinearPlan(q, n, j - 1);
    LinearPlan(q, n, j);
    LinearBounds(n, j);
    LinearBounds(n, j - 1);
    LineStep(q, n, j);
    QuotientFloor(q, n);
    ShareStep(q, Line(n, j), Line(n, j - 1), (q as real) / (n as real));
  }

  // ----- Front loading -----

  /** A curve at or below another never plans to hold more. */
  lemma {:induction false} PlanOrdered(q: nat, n: nat, low: nat -> real, high: nat -> real, j: nat)
    requires j <= n && forall i :: 1 <= i < n ==> low(i) <= high(i)
    ensures Plan(q, n, low, j) <= Plan(q, n, high, j)
    decreases j
  {
    hide Share;
    if 0 < j < n {
      PlanOrdered(q, n, low, high, j - 1);
      ShareMonotone(q, low(j), high(j));
    }
  }

  ghost predicate Convex(curve: nat -> real, n: nat) {
    forall i :: 1 <= i < n ==> 2.0 * curve(i) <= curve(i - 1) + curve(i + 1)
  }

  /** Drops of a convex curve shrink. */
  lemma {:induction false} DropsShrink(curve: nat -> real, n: nat, i: nat, j: nat)
    requires Convex(curve, n) && 1 <= i <= j <= n
    ensures curve(j - 1) - curve(j) <= curve(i - 1) - curve(i)
    decreases j
  {
    if i < j {
      DropsShrink(curve, n, i, j - 1);
      assert 2.0 * curve(j - 1) <= curve(j - 2) + curve(j);
    }
  }

  lemma NoTimes(i: nat, d: real)
    requires i == 0
    ensures (i as real) * d == 0.0
  {
  }

  lemma OneMore(i: nat, d: real)
    requires i >= 1
    ensures (i as real) * d == ((i - 1) as real) * d + d
  {
  }

  /** Up to step j a convex curve has fallen by at least j times its drop at j; after it by at most that rate. */
  lemma {:induction false} FallBefore(curve: nat -> real, n: nat, j: nat, i: nat)
    requires Convex(curve, n) && 1 <= j <= n && i <= j
    ensures curve(0) - curve(i) >= (i as real) * (curve(j - 1) - curve(j))
    decreases i
  {
    hide Convex;
    var d := curve(j - 1) - curve(j);
    if i > 0 {
      FallBefore(curve, n, j, i - 1);
      DropsShrink(curve, n, i, j);
      OneMore(i, d);
    } else {
      NoTimes(i, d);
    }
  }

  lemma {:induction false} FallAfter(curve: nat -> real, n: nat, j: nat, m: nat)
    requires Convex(curve, n) && 1 <= j && j + m <= n
    ensures curve(j) - curve(j + m) <= (m as real) * (curve(j - 1) - curve(j))
    decreases m
  {
    hide Convex;
    var d := curve(j - 1) - curve(j);
    if m != 0 {
      FallAfter(curve, n, j, m - 1);
      var k := j + m;
      DropsShrink(curve, n, j, k);
      OneMore(m, d);
    } else {
      NoTimes(m, d);
      assert curve(j + m) == curve(j);
    }
  }

  /** A convex curve from one to zero, such as the sinh ratio, lies on or below the line. */
  lemma ConvexBelowLinear(curve: nat -> real, n: nat, j: nat)
    requires n >= 1 && Convex(curve, n) && curve(0) == 1.0 && curve(n) == 0.0 && j <= n
    ensures curve(j) <= Line(n, j)
  {
    hide Convex;
    LinearBounds(n, j);
    if j > 0 {
      FallBefore(curve, n, j, j);
      FallAfter(curve, n, j, n - j);
      Chord(curve(j), curve(j - 1) - curve(j), j as real, (n - j) as real);
    }
  }

  lemma Chord(x: real, d: real, a: real, b: real)
    requires a > 0.0 && b >= 0.0 && 1.0 - x >= a * d && x <= b * d
    ensures x <= b / (a + b)
  {
    var n, y, z, e := a + b, a * x, b * x, a * (b * d);
    TimesMonotone(a, x, b * d);
    TimesMonotone(b, a * d, 1.0 - x);
    Swap(a, b, d);
    Spread(b, 1.0, -x);
    Spread(x, a, b);
    var nx := x * n;
    assert nx == y + z;
    assert e <= b - z;
    DivideMonotone(nx, b, n);
    DivUnique(nx, x, n);
  }

  lemma Swap(a: real, b: real, d: real)
    ensures a * (b * d) == b * (a * d)
  {
  }

  lemma Spread(x: real, a: real, b: real)
    ensures x * (a + b) == x * a + x * b
  {
  }

  /** A convex curve front-loads: it never holds more inventory than the linear schedule. */
  lemma ConvexFrontLoads(q: nat, n: nat, curve: nat -> real, j: nat)
    requires n >= 1 && Convex(curve, n) && curve(0) == 1.0 && curve(n) == 0.0 && j <= n
    ensures Plan(q, n, curve, j) <= Plan(q, n, Linear(n), j)
  {
    hide Line;
    forall i: nat | i <= n
      ensures curve(i) <= Linear(n)(i)
    {
      ConvexBelowLinear(curve, n, i);
    }
    PlanOrdered(q, n, curve, Linear(n), j);
  }
}
