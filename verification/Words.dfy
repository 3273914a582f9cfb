/** Bit operations on machine words, given by their effect on binary digits, and the arithmetic they amount to. */
module Words {
  import opened Text

  function Pow2(n: nat): (p: nat)
    ensures p > 0
  {
    if n == 0 then 1 else 2 * Pow2(n - 1)
  }

  lemma {:induction false} Pow2Sum(a: nat, b: nat)
    ensures Pow2(a + b) == Pow2(a) * Pow2(b)
    decreases a
  {
    if a > 0 {
      Pow2Sum(a - 1, b);
      DoubleFactor(Pow2(a - 1), Pow2(b));
    }
  }

  lemma Pow2Values()
    ensures Pow2(8) == 0x100 && Pow2(16) == 0x1_0000 && Pow2(32) == 0x1_0000_0000 && Pow2(64) == TWO_64
  {
    assert Pow2(4) == 16;
    Pow2Sum(4, 4);
    Pow2Sum(8, 8);
    Pow2Sum(16, 16);
    Pow2Sum(32, 32);
  }

  lemma Pow2AtLeast(n: nat)
    requires n >= 2
    ensures Pow2(n) >= 4
  {
    assert Pow2(n) == 2 * Pow2(n - 1) && Pow2(n - 1) == 2 * Pow2(n - 2);
  }

  lemma DoubleFactor(x: nat, y: nat)
    ensures (2 * x) * y == 2 * (x * y) && x * (2 * y) == 2 * (x * y)
  {
  }

  lemma Distribute(a: int, b: int, c: int)
    ensures (a + b) * c == a * c + b * c && (a - b) * c == a * c - b * c
  {
  }

  lemma Associate(a: int, b: int, c: int)
    ensures a * (b * c) == (a * b) * c && a * (b * c) == (a * c) * b
  {
  }

  lemma NotNegative(a: nat, b: nat)
    ensures a * b >= 0
  {
  }

  lemma OneMore(x: int, y: int, p: int)
    requires x < y && p >= 0
    ensures x * p + p <= y * p
  {
    Distribute(x, 1, p);
    Distribute(x + 1, y - x - 1, p);
    NotNegative(y - x - 1, p);
  }

  function Xor(a: nat, b: nat): nat {
    if a == 0 && b == 0 then 0 else (if a % 2 == b % 2 then 0 else 1) + 2 * Xor(a / 2, b / 2)
  }

  function And(a: nat, b: nat): nat {
    if a == 0 && b == 0 then 0 else (if a % 2 == 1 && b % 2 == 1 then 1 else 0) + 2 * And(a / 2, b / 2)
  }

  function Or(a: nat, b: nat): nat {
    if a == 0 && b == 0 then 0 else (if a % 2 == 1 || b % 2 == 1 then 1 else 0) + 2 * Or(a / 2, b / 2)
  }

  lemma {:induction false} XorTwice(a: nat, k: nat)
    ensures Xor(Xor(a, k), k) == a
  {
    if a != 0 || k != 0 {
      XorTwice(a / 2, k / 2);
      XorDigits(a, k);
      XorDigits(Xor(a, k), k);
    }
  }

  lemma {:induction false} OrCommutes(a: nat, b: nat)
    ensures Or(a, b) == Or(b, a)
  {
    if a != 0 || b != 0 {
      OrCommutes(a / 2, b / 2);
    }
  }

  // ----- divisions by powers of two -----

  lemma AtLeastOnce(k: int, m: int)
    requires m >= 0
    ensures k >= 1 ==> k * m >= m
    ensures k <= -1 ==> k * m <= 0 - m
  {
    if k >= 1 {
      assert k * m == (k - 1) * m + m;
    } else if k <= -1 {
      assert k * m == (k + 1) * m - m;
    }
  }

  lemma RemainderIs(x: int, q: int, r: nat, m: nat)
    requires r < m && x == q * m + r
    ensures x % m == r && x / m == q
  {
    var q', r' := x / m, x % m;
    assert x == q' * m + r';
    assert (q - q') * m == q * m - q' * m;
    AtLeastOnce(q - q', m);
  }

  lemma HalvesOf(x: nat, p: nat)
    requires p > 0
    ensures x % (2 * p) % 2 == x % 2 && x % (2 * p) / 2 == x / 2 % p
  {
    var q, r := x / 2 / p, x / 2 % p;
    assert x / 2 == q * p + r;
    DoubleFactor(q, p);
    RemainderIs(x, q, 2 * r + x % 2, 2 * p);
  }

  /** The last digit and the others of what is left modulo a power of two. */
  lemma HalfOfRemainder(x: nat, n: nat)
    requires n > 0
    ensures x % Pow2(n) % 2 == x % 2 && x % Pow2(n) / 2 == x / 2 % Pow2(n - 1)
  {
    HalvesOf(x, Pow2(n - 1));
  }

  lemma {:induction false} XorLow(a: nat, b: nat, n: nat)
    ensures Xor(a, b) % Pow2(n) == Xor(a % Pow2(n), b % Pow2(n))
    decreases n
  {
    if n > 0 {
      XorLow(a / 2, b / 2, n - 1);
      HalfOfRemainder(a, n);
      HalfOfRemainder(b, n);
      HalfOfRemainder(Xor(a, b), n);
      var x, y := Xor(a, b) % Pow2(n), Xor(a % Pow2(n), b % Pow2(n));
      XorDigits(a, b);
      XorDigits(a % Pow2(n), b % Pow2(n));
      assert x == 2 * (x / 2) + x % 2 && y == 2 * (y / 2) + y % 2;
    }
  }

  lemma XorDigits(a: nat, b: nat)
    ensures Xor(a, b) % 2 == (if a % 2 == b % 2 then 0 else 1)
    ensures Xor(a, b) / 2 == Xor(a / 2, b / 2)
  {
  }

  /** Masking with n ones is the remainder modulo 2^n. */
  lemma {:induction false} AndMask(v: nat, n: nat)
    ensures And(v, Pow2(n) - 1) == v % Pow2(n)
    decreases n
  {
    if n == 0 {
      AndZero(v);
    } else {
      AndMask(v / 2, n - 1);
      HalfOfRemainder(v, n);
      var x := v % Pow2(n);
      assert x == 2 * (x / 2) + x % 2;
      assert (Pow2(n) - 1) / 2 == Pow2(n - 1) - 1 && (Pow2(n) - 1) % 2 == 1;
    }
  }

  lemma {:induction false} AndZero(v: nat)
    ensures And(v, 0) == 0
  {
    if v != 0 {
      AndZero(v / 2);
    }
  }

  /** Where no digit overlaps, or is addition. */
  lemma {:induction false} OrDisjoint(high: nat, low: nat, n: nat)
    requires low < Pow2(n)
    ensures Or(high * Pow2(n), low) == high * Pow2(n) + low
    decreases n
  {
    if n == 0 {
      OrZero(high);
    } else {
      OrDisjoint(high, low / 2, n - 1);
      var p := Pow2(n - 1);
      DoubleFactor(high, p);
      var x := high * Pow2(n);
      assert x % 2 == 0 && x / 2 == high * p;
    }
  }

  lemma {:induction false} OrZero(v: nat)
    ensures Or(v, 0) == v
  {
    if v != 0 {
      OrZero(v / 2);
    }
  }
}
