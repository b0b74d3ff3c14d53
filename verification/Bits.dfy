/** Bitwise operators on natural numbers, as the C++ code uses them on unsigned words,
    and the arithmetic they amount to. */
module Bits {

  type byte = x: int | 0 <= x < 256

  const TWO16: nat := 0x1_0000
  const TWO32: nat := 0x1_0000_0000
  const TWO64: nat := 0x1_0000_0000_0000_0000

  function Pow2(n: nat): (r: nat)
    ensures r >= 1
  {
    if n == 0 then 1 else 2 * Pow2(n - 1)
  }

  function Or(x: nat, y: nat): nat {
    if x == 0 then y else if y == 0 then x else
      (if x % 2 == 1 || y % 2 == 1 then 1 else 0) + 2 * Or(x / 2, y / 2)
  }

  function And(x: nat, y: nat): nat {
    if x == 0 || y == 0 then 0 else
      (if x % 2 == 1 && y % 2 == 1 then 1 else 0) + 2 * And(x / 2, y / 2)
  }

  function Xor(x: nat, y: nat): nat {
    if x == 0 then y else if y == 0 then x else
      (if x % 2 != y % 2 then 1 else 0) + 2 * Xor(x / 2, y / 2)
  }

  /** x >> s. */
  function Shr(x: nat, s: nat): nat {
    Div(x, Pow2(s))
  }

  function Div(x: nat, d: nat): (q: nat)
    requires d > 0
  {
    x / d
  }

  /** x << s in a word of size m, a power of two: what is shifted out is lost. */
  function Shl(x: nat, s: nat, m: nat): nat
    requires m > 0
  {
    x * Pow2(s) % m
  }

  /** Bit k of x, counted from the least significant one. */
  predicate Bit(x: nat, k: nat) {
    if k == 0 then x % 2 == 1 else Bit(x / 2, k - 1)
  }

  lemma {:induction false} Pow2Add(a: nat, b: nat)
    ensures Pow2(a + b) == Pow2(a) * Pow2(b)
  {
    if a == 0 {
    } else {
      Pow2Add(a - 1, b);
      assert Pow2(a + b) == 2 * Pow2(a - 1 + b);
    }
  }

  lemma {:induction false} Pow2Monotone(a: nat, b: nat)
    requires a <= b
    ensures Pow2(a) <= Pow2(b)
  {
    if a == b {
    } else {
      Pow2Monotone(a, b - 1);
    }
  }

  lemma Pow2Seven()
    ensures Pow2(7) == 128 && Pow2(8) == 256
  {
  }

  lemma Pow2Values()
    ensures Pow2(7) == 128 && Pow2(8) == 256 && Pow2(14) == 0x4000 && Pow2(16) == TWO16
    ensures Pow2(21) == 0x20_0000 && Pow2(28) == 0x1000_0000 && Pow2(32) == TWO32
    ensures Pow2(35) == 0x8_0000_0000 && Pow2(63) == 0x8000_0000_0000_0000
    ensures Pow2(64) == TWO64 && Pow2(70) == 0x40_0000_0000_0000_0000
  {
    assert Pow2(7) == 128 && Pow2(4) == 16;
    Pow2Add(7, 7); Pow2Add(14, 7); Pow2Add(21, 7); Pow2Add(28, 7); Pow2Add(28, 4);
    Pow2Add(35, 28); Pow2Add(63, 7);
  }

  /** Bits that do not overlap: or-ing a shifted word onto a smaller one adds it. */
  lemma {:induction false} OrDisjoint(x: nat, y: nat, s: nat)
    requires x < Pow2(s)
    ensures Or(x, y * Pow2(s)) == x + y * Pow2(s)
  {
    if s == 0 || x == 0 || y == 0 {
    } else {
      var h := y * Pow2(s - 1);
      assert y * Pow2(s) == 2 * h;
      assert h > 0;
      OrDisjoint(x / 2, y, s - 1);
    }
  }

  /** Or-ing x << s onto a word below 2^s is addition modulo the word size. */
  lemma OrShifted(a: nat, x: nat, s: nat, w: nat, m: nat)
    requires a < Pow2(s) && s <= w && m == Pow2(w)
    ensures Or(a, Shl(x, s, m)) == (a + x * Pow2(s)) % m
  {
    var p, q := Pow2(s), Pow2(w - s);
    Pow2Add(s, w - s);
    ModScale(0, x, p, q);
    ModScale(a, x, p, q);
    OrDisjoint(a, x % q, s);
  }

  lemma ModScale(a: nat, x: nat, p: nat, q: nat)
    requires a < p && q > 0
    ensures p * q > 0 && (a + x * p) % (p * q) == a + (x % q) * p
  {
    var y, z := x % q, x / q;
    assert x == q * z + y;
    calc {
      x * p;
      (q * z + y) * p;
      q * z * p + y * p;
      p * q * z + y * p;
    }
    assert (y + 1) * p <= q * p;
    assert (y + 1) * p == y * p + p;
    assert p * q > 0;
    DivModUnique(a + x * p, p * q, z, a + y * p);
  }

  /** Masking with s one-bits keeps the value modulo 2^s. */
  lemma {:induction false} AndMask(x: nat, s: nat)
    ensures And(x, Pow2(s) - 1) == x % Pow2(s)
  {
    if s == 0 {
    } else {
      var m := Pow2(s - 1);
      assert And(x / 2, m - 1) == (x / 2) % m by { AndMask(x / 2, s - 1); }
      assert And(x, 2 * (m - 1) + 1) == x % 2 + 2 * And(x / 2, m - 1) by { AndOdd(x, m - 1); }
      assert x % (2 * m) == x % 2 + 2 * ((x / 2) % m) by { ModDouble(x, m); }
      assert Pow2(s) == 2 * m;
    }
  }

  lemma AndMaskIs(x: nat, s: nat, mask: nat)
    requires mask + 1 == Pow2(s)
    ensures And(x, mask) == x % (mask + 1)
    ensures x <= mask ==> And(x, mask) == x
  {
    AndMask(x, s);
  }

  lemma AndOdd(x: nat, h: nat)
    ensures And(x, 2 * h + 1) == x % 2 + 2 * And(x / 2, h)
  {
    assert (2 * h + 1) / 2 == h && (2 * h + 1) % 2 == 1;
  }

  lemma OrEven(x: nat, h: nat)
    requires h > 0
    ensures Or(x, 2 * h) == x % 2 + 2 * Or(x / 2, h)
  {
    assert (2 * h) / 2 == h && (2 * h) % 2 == 0;
  }

  lemma ModDouble(x: nat, m: nat)
    requires m > 0
    ensures x % (2 * m) == x % 2 + 2 * ((x / 2) % m)
  {
    ModDoubleOf(x % 2, x / 2, m);
  }

  lemma ModDoubleOf(b: nat, q: nat, m: nat)
    requires b < 2 && m > 0
    ensures (b + 2 * q) % (2 * m) == b + 2 * (q % m)
  {
    var h := q / m;
    assert q == m * h + q % m;
    assert 2 * (m * h) == 2 * m * h;
    DivModUnique(b + 2 * q, 2 * m, h, b + 2 * (q % m));
  }

  lemma DivModUnique(x: nat, d: nat, q: nat, r: nat)
    requires d > 0 && r < d && x == d * q + r
    ensures x / d == q && x % d == r
  {
    var e := x / d - q;
    assert d * e == r - x % d;
    assert e == 0;
  }

  /** Setting bit s: below it nothing changes, and the bit itself is one. */
  lemma {:induction false} OrTopBit(v: nat, s: nat)
    ensures Or(v, Pow2(s)) % Pow2(s + 1) == Pow2(s) + v % Pow2(s)
  {
    if s == 0 {
      OrHalves(v, 1);
    } else {
      var m := Pow2(s - 1);
      var r := Or(v / 2, m);
      OrTopBit(v / 2, s - 1);
      OrEven(v, m);
      ModDoubleOf(v % 2, r, 2 * m);
      ModDouble(v, m);
    }
  }

  /** Flipping all w bits. */
  lemma {:induction false} XorOnes(x: nat, w: nat)
    requires x < Pow2(w)
    ensures Xor(x, Pow2(w) - 1) == Pow2(w) - 1 - x
  {
    if w == 0 || x == 0 {
    } else {
      XorOnes(x / 2, w - 1);
      assert (Pow2(w) - 1) / 2 == Pow2(w - 1) - 1 && (Pow2(w) - 1) % 2 == 1;
    }
  }

  lemma {:induction false} ZeroBit(k: nat)
    ensures !Bit(0, k)
  {
    if k == 0 {
    } else {
      ZeroBit(k - 1);
    }
  }

  lemma OrHalves(x: nat, y: nat)
    ensures Or(x, y) / 2 == Or(x / 2, y / 2)
    ensures Or(x, y) % 2 == 1 <==> x % 2 == 1 || y % 2 == 1
  {
  }

  /** The meaning of Or, bit by bit. */
  lemma {:induction false} OrBit(x: nat, y: nat, k: nat)
    ensures Bit(Or(x, y), k) == (Bit(x, k) || Bit(y, k))
  {
    OrHalves(x, y);
    if k == 0 {
    } else {
      OrBit(x / 2, y / 2, k - 1);
    }
  }

  lemma {:induction false} Pow2Bit(s: nat, k: nat)
    ensures Bit(Pow2(s), k) == (s == k)
  {
    if s == 0 {
      if k > 0 { ZeroBit(k - 1); }
    } else if k > 0 {
      Pow2Bit(s - 1, k - 1);
    }
  }

  /** A word is determined by its bits; above its width they are all zero. */
  lemma {:induction false} BitsDetermine(x: nat, y: nat, w: nat)
    requires x < Pow2(w) && y < Pow2(w)
    requires forall k: nat :: k < w ==> Bit(x, k) == Bit(y, k)
    ensures x == y
  {
    if w == 0 {
    } else {
      assert Bit(x, 0) == Bit(y, 0);
      forall k: nat | k < w - 1
        ensures Bit(x / 2, k) == Bit(y / 2, k)
      {
        assert Bit(x, k + 1) == Bit(y, k + 1);
      }
      BitsDetermine(x / 2, y / 2, w - 1);
    }
  }
}
