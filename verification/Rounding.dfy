/** Sharing out a whole quantity in whole units, halves rounded up, in exact arithmetic. */
module Rounding {

  function Round(x: real): int {
    (x + 0.5).Floor
  }

  function Clamp01(x: real): real {
    if x < 0.0 then 0.0 else if x > 1.0 then 1.0 else x
  }

  /** The share c of q, with c clamped to between zero and one, to the nearest unit. */
  function Share(q: nat, c: real): int {
    Round((q as real) * Clamp01(c))
  }

  function Sum(children: seq<nat>): nat {
    if children == [] then 0 else Sum(children[..|children| - 1]) + children[|children| - 1]
  }

  function Abs(x: real): real {
    if x < 0.0 then -x else x
  }

  lemma TimesMonotone(x: real, c: real, d: real)
    requires 0.0 <= x && c <= d
    ensures x * c <= x * d
  {
  }

  lemma TimesNotNegative(x: real, y: real)
    requires 0.0 <= x && 0.0 <= y
    ensures 0.0 <= x * y
  {
  }

  lemma PartAtMost(x: real, y: real)
    requires x <= 1.0 && 0.0 <= y
    ensures x * y <= y
  {
    TimesMonotone(y, x, 1.0);
  }

  lemma ShareMonotone(q: nat, c: real, d: real)
    requires c <= d
    ensures Share(q, c) <= Share(q, d)
  {
    TimesMonotone(q as real, Clamp01(c), Clamp01(d));
  }

  lemma ShareNone(q: nat)
    ensures Share(q, 0.0) == 0
  {
    assert (q as real) * 0.0 == 0.0;
  }

  lemma ShareAll(q: nat)
    ensures Share(q, 1.0) == q
  {
    assert (q as real) * 1.0 == q as real;
  }

  /** A share rounds to between nothing and the whole quantity. */
  lemma ShareBounds(q: nat, c: real)
    ensures 0 <= Share(q, c) <= q
  {
    var d := Clamp01(c);
    assert Share(q, c) == Share(q, d);
    ShareMonotone(q, 0.0, d);
    ShareMonotone(q, d, 1.0);
    ShareNone(q);
    ShareAll(q);
  }

  /** Rounding a share moves it by at most one half, and an exact half upwards. */
  lemma ShareError(q: nat, c: real)
    requires 0.0 <= c <= 1.0
    ensures Abs((Share(q, c) as real) - (q as real) * c) <= 0.5
    ensures -0.5 < (Share(q, c) as real) - (q as real) * c <= 0.5
  {
    assert Clamp01(c) == c;
  }

  /** A share outside zero to one is nothing or everything. */
  lemma ShareBeyond(q: nat, c: real)
    ensures c <= 0.0 ==> Share(q, c) == 0
    ensures c >= 1.0 ==> Share(q, c) == q
  {
    ShareNone(q);
    ShareAll(q);
    assert Share(q, c) == Share(q, Clamp01(c));
  }

  /** Raising the share by d units adds d rounded down or up. */
  lemma ShareStep(q: nat, c: real, e: real, d: real)
    requires 0.0 <= c <= e <= 1.0 && (q as real) * e == (q as real) * c + d
    ensures d.Floor <= Share(q, e) - Share(q, c) <= -((-d).Floor)
  {
    assert Clamp01(c) == c && Clamp01(e) == e;
    FloorStep((q as real) * c + 0.5, d);
  }

  lemma FloorStep(a: real, d: real)
    ensures d.Floor <= (a + d).Floor - a.Floor <= -((-d).Floor)
  {
  }
}
