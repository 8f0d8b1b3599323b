/** Unsigned machine-word arithmetic: bitwise AND, masks and 64-bit wrap-around. */
module Bits {

  const WORD: nat := 0x1_0000_0000_0000_0000

  /** Bitwise AND of two naturals. */
  function And(a: nat, b: nat): nat
    decreases a
  {
    if a == 0 then 0 else 2 * And(a / 2, b / 2) + (if a % 2 == 1 && b % 2 == 1 then 1 else 0)
  }

  function Pow2(k: nat): (p: nat)
    ensures p >= 1
  {
    if k == 0 then 1 else 2 * Pow2(k - 1)
  }

  /** Unsigned 64-bit subtraction. */
  function WrapSub(a: nat, b: nat): nat {
    (a - b) % WORD
  }

  /** Masking with 2^k - 1 is reduction modulo 2^k. */
  lemma {:induction false} MaskIsMod(x: nat, k: nat)
    ensures And(x, Pow2(k) - 1) == x % Pow2(k)
    decreases k
  {
    if k == 0 {
      AndZero(x);
    } else {
      var p := Pow2(k - 1);
      assert Pow2(k) == 2 * p;
      MaskIsMod(x / 2, k - 1);
      AndOdd(x, p);
      hide And, Pow2;
      HalveMod(x, p);
    }
  }

  /** The lowest bit of an odd mask lets the lowest bit through. */
  lemma AndOdd(x: nat, p: nat)
    requires p >= 1
    ensures And(x, 2 * p - 1) == 2 * And(x / 2, p - 1) + x % 2
  {
    assert (2 * p - 1) / 2 == p - 1 && (2 * p - 1) % 2 == 1;
  }

  lemma {:induction false} AndZero(x: nat)
    ensures And(x, 0) == 0
  {
    if x != 0 {
      AndZero(x / 2);
    }
  }

  lemma HalveMod(x: nat, p: nat)
    requires p >= 1
    ensures x % (2 * p) == 2 * ((x / 2) % p) + x % 2
  {
    var h := x / 2;
    var q := h / p;
    assert x == (2 * p) * q + (2 * (h % p) + x % 2);
    ModUnique(x, 2 * p, q, 2 * (h % p) + x % 2);
  }

  /** A positive multiple of d is at least d. */
  lemma MulAtLeast(d: nat, m: int)
    requires m >= 1
    ensures d * m >= d
  {
  }

  /** Quotient and remainder are unique. */
  lemma ModUnique(x: int, d: nat, q: int, r: nat)
    requires d >= 1 && r < d && x == d * q + r
    ensures x % d == r && x / d == q
  {
    var q', r' := x / d, x % d;
    assert x == d * q' + r';
    assert d * (q - q') == r' - r && d * (q' - q) == r - r';
    if q' < q {
      MulAtLeast(d, q - q');
    } else if q' > q {
      MulAtLeast(d, q' - q);
    }
  }

  /** Two values congruent modulo d, less than d apart, are equal. */
  lemma ModApart(a: int, b: int, d: nat)
    requires d >= 1 && a % d == b % d && a - b < d && b - a < d
    ensures a == b
  {
    var m := a / d - b / d;
    assert a - b == d * m && b - a == d * (-m);
    if m >= 1 {
      MulAtLeast(d, m);
    } else if m <= -1 {
      MulAtLeast(d, -m);
    }
  }

  lemma {:induction false} Pow2Split(j: nat, k: nat)
    requires j <= k
    ensures Pow2(k) == Pow2(j) * Pow2(k - j)
    decreases k - j
  {
    if j < k {
      Pow2Split(j, k - 1);
      var p, q := Pow2(j), Pow2(k - 1 - j);
      assert Pow2(k - j) == 2 * q && Pow2(k) == 2 * (p * q);
      hide Pow2;
      TwiceTimes(p, q);
    }
  }

  lemma TwiceTimes(p: nat, q: nat)
    ensures p * (2 * q) == 2 * (p * q)
  {
  }

  lemma WordIsPow2()
    ensures WORD == Pow2(64)
  {
    assert Pow2(8) == 0x100;
    Pow2Split(8, 16);
    assert Pow2(16) == 0x1_0000;
    Pow2Split(16, 32);
    assert Pow2(32) == 0x1_0000_0000;
    Pow2Split(32, 64);
  }

  lemma ModOfMod(x: int, d: nat, e: nat)
    requires d >= 1 && e >= 1
    ensures (x % (d * e)) % d == x % d
  {
    var q := x / (d * e);
    var y := x % (d * e);
    assert x == d * (e * q + y / d) + y % d by {
      assert x == (d * e) * q + y;
      assert (d * e) * q == d * (e * q);
    }
    ModUnique(x, d, e * q + y / d, y % d);
  }

  /** A wrapped index masked by a power-of-two capacity is the unwrapped index modulo it. */
  lemma WrapThenMask(x: nat, k: nat)
    requires k <= 64
    ensures And(x % WORD, Pow2(k) - 1) == x % Pow2(k)
  {
    hide And, Pow2;
    MaskIsMod(x % WORD, k);
    WordIsPow2();
    Pow2Split(k, 64);
    ModOfMod(x, Pow2(k), Pow2(64 - k));
  }

  /** Unsigned distance, masked: the cyclic distance from b to a in a table of 2^k slots. */
  lemma WrapSubMask(a: nat, b: nat, k: nat)
    requires k <= 64 && a < Pow2(k) && b < Pow2(k)
    ensures And(WrapSub(a, b), Pow2(k) - 1) == if a >= b then a - b else a - b + Pow2(k)
  {
    hide And, Pow2;
    var p, x := Pow2(k), a - b;
    MaskIsMod(WrapSub(a, b), k);
    WordIsPow2();
    Pow2Split(k, 64);
    ModOfMod(x, p, Pow2(64 - k));
    if a >= b {
      ModUnique(x, p, 0, x);
    } else {
      ModUnique(x, p, -1, x + p);
    }
  }

  /** The wrapped difference of two wrapped counters is their true difference. */
  lemma WrapDifference(w: nat, r: nat)
    requires r <= w < r + WORD
    ensures WrapSub(w % WORD, r % WORD) == w - r
  {
    var qw, qr := w / WORD, r / WORD;
    assert w % WORD - r % WORD == WORD * (qr - qw) + (w - r);
    ModUnique(w % WORD - r % WORD, WORD, qr - qw, w - r);
  }
}
