/** Obfuscated scalars in memory: a reversible codec on 64-bit words cut to the value's width, and the byte
    order of the target. */
module ValueCodec {
  import opened Text
  import opened Words

  datatype Op = Plain | Xored | Added | RotatedLeft | RotatedRight

  datatype Codec = Codec(op: Op, key: U64)

  /** Widths of 1, 2, 4 and 8 bytes. */
  predicate IsWidth(bytes: nat) {
    bytes == 1 || bytes == 2 || bytes == 4 || bytes == 8
  }

  function MaskFor(bytes: nat): U64 {
    if bytes >= 8 then TWO_64 - 1
    else
      MaskFits(bytes);
      Pow2(8 * bytes) - 1
  }

  lemma MaskFits(bytes: nat)
    requires bytes < 8
    ensures Pow2(8 * bytes) < TWO_64
  {
    Pow2Values();
    Pow2Sum(8 * bytes, 64 - 8 * bytes);
    assert Pow2(64 - 8 * bytes) == 2 * Pow2(64 - 8 * bytes - 1);
    Larger(Pow2(8 * bytes), Pow2(64 - 8 * bytes));
  }

  lemma Larger(x: nat, y: nat)
    requires x > 0 && y > 1
    ensures x < x * y
  {
    assert x * y == x * (y - 1) + x;
    assert x * (y - 1) > 0;
  }

  /** Masking to a width is taking the remainder. */
  lemma MaskIsRemainder(v: nat, bytes: nat)
    requires IsWidth(bytes)
    ensures And(v, MaskFor(bytes)) == v % Pow2(8 * bytes)
    ensures TWO_64 % Pow2(8 * bytes) == 0 && Pow2(8 * bytes) <= TWO_64
  {
    Pow2Values();
    AndMask(v, 8 * bytes);
  }

  function ShiftLeft(v: U64, n: nat): U64 {
    Wrap(v * Pow2(n))
  }

  function ShiftRight(v: U64, n: nat): U64 {
    QuotientFits(v, Pow2(n));
    v / Pow2(n)
  }

  lemma QuotientFits(v: U64, m: nat)
    requires m > 0
    ensures 0 <= v / m <= v
  {
    var q := v / m;
    assert v == q * m + v % m;
    if q < 0 {
      OneMore(q, 0, m);
    } else {
      OneMore(0, m, q);
    }
  }

  /** The rotate count: the key cut to 32 bits, modulo the width in bits. */
  function Count(key: U64, bytes: nat): (n: nat)
    requires bytes > 0
    ensures n < 8 * bytes
  {
    key % 0x1_0000_0000 % (8 * bytes)
  }

  function RotL(v: U64, n: nat, bytes: nat): nat
    requires n < 8 * bytes
  {
    MaskFitsAll(v, bytes);
    var x := And(v, MaskFor(bytes));
    if n == 0 then x else And(Or(ShiftLeft(x, n), ShiftRight(x, 8 * bytes - n)), MaskFor(bytes))
  }

  function RotR(v: U64, n: nat, bytes: nat): nat
    requires n < 8 * bytes
  {
    MaskFitsAll(v, bytes);
    var x := And(v, MaskFor(bytes));
    if n == 0 then x else And(Or(ShiftRight(x, n), ShiftLeft(x, 8 * bytes - n)), MaskFor(bytes))
  }

  /** A masked word stays a word. */
  lemma {:induction false} AndFits(v: nat, m: nat)
    ensures And(v, m) <= m
  {
    if v != 0 || m != 0 {
      AndFits(v / 2, m / 2);
    }
  }

  lemma MaskFitsAll(v: nat, bytes: nat)
    ensures And(v, MaskFor(bytes)) < TWO_64
  {
    AndFits(v, MaskFor(bytes));
  }

  function Forward(c: Codec, v: U64, bytes: nat): U64
    requires IsWidth(bytes)
  {
    ResultFits(v, c.key, bytes);
    match c.op
    case Plain => v
    case Xored => And(Xor(v, c.key), MaskFor(bytes))
    case Added => And(Wrap(v + c.key), MaskFor(bytes))
    case RotatedLeft => RotL(v, Count(c.key, bytes), bytes)
    case RotatedRight => RotR(v, Count(c.key, bytes), bytes)
  }

  function Backward(c: Codec, v: U64, bytes: nat): U64
    requires IsWidth(bytes)
  {
    ResultFits(v, c.key, bytes);
    match c.op
    case Plain => v
    case Xored => And(Xor(v, c.key), MaskFor(bytes))
    case Added => And(Wrap(v - c.key), MaskFor(bytes))
    case RotatedLeft => RotR(v, Count(c.key, bytes), bytes)
    case RotatedRight => RotL(v, Count(c.key, bytes), bytes)
  }

  /** What is searched for and written. */
  function Encode(c: Codec, logical: U64, bytes: nat): U64
    requires IsWidth(bytes)
  {
    MaskFitsAll(logical, bytes);
    Forward(c, And(logical, MaskFor(bytes)), bytes)
  }

  /** What is displayed. */
  function Decode(c: Codec, stored: U64, bytes: nat): U64
    requires IsWidth(bytes)
  {
    MaskFitsAll(stored, bytes);
    Backward(c, And(stored, MaskFor(bytes)), bytes)
  }

  lemma ResultFits(v: U64, key: U64, bytes: nat)
    requires IsWidth(bytes)
    ensures forall x: nat :: And(x, MaskFor(bytes)) < TWO_64
    ensures RotL(v, Count(key, bytes), bytes) < TWO_64 && RotR(v, Count(key, bytes), bytes) < TWO_64
  {
    forall x: nat ensures And(x, MaskFor(bytes)) < TWO_64 {
      MaskFitsAll(x, bytes);
    }
  }

  // ----- rotations -----

  lemma SplitFits(v: nat, p: nat, q: nat)
    requires p > 0 && q > 0 && v < p * q
    ensures v / q < p && v == v / q * q + v % q
  {
    var h := v / q;
    if p < h {
      OneMore(p, h, q);
    }
  }

  /** A word is shifted out at the top: what stays is its lower part. */
  lemma ShiftedBy(v: nat, p: nat, r: nat)
    requires p > 0 && r > 0
    ensures v * p % (p * r) == v % r * p
  {
    var k, h := v / r, v % r;
    Distribute(k * r, h, p);
    Associate(k, p, r);
    OneMore(h, r, p);
    RemainderIs(v * p, k, h * p, p * r);
  }

  /** `hi` and `lo` trade places; `h` agrees with `lo` up to multiples of q. */
  lemma TradePlaces(p: nat, q: nat, d: nat, k: int, hi: nat, lo: nat, h: nat)
    requires p > 0 && q > 0 && hi < p && lo < q && hi * q + lo == k * (q * d) + h
    ensures (h * p + hi) % (p * q) == lo * p + hi && lo * p + hi < p * q
  {
    var e := hi - k * d;
    Associate(k, q, d);
    Distribute(hi, k * d, q);
    assert h == e * q + lo;
    Distribute(e * q, lo, p);
    Associate(e, p, q);
    OneMore(lo, q, p);
    RemainderIs(h * p + hi, e, lo * p + hi, p * q);
  }

  /** With the word W = p q d and the width w = p q. */
  lemma RotateCore(v: nat, p: nat, q: nat, d: nat, m: nat, w: nat, word: nat)
    requires p > 0 && q > 0 && d > 0 && m > 0 && m == q * d && w == p * q && word == p * m && word > 0 && v < w
    ensures 0 <= v / q < p && v * p % word == v % m * p
    ensures (v % m * p + v / q) % w == v % q * p + v / q < w
  {
    SplitFits(v, p, q);
    ShiftedBy(v, p, m);
    assert v == v / m * m + v % m;
    TradePlaces(p, q, d, v / m, v / q, v % q, v % m);
  }

  lemma AtMostEight(bytes: nat)
    requires IsWidth(bytes)
    ensures 0 < bytes <= 8
  {
  }

  /** Rotating left moves the top digits to the bottom. */
  lemma RotateLeftIs(v: nat, n: nat, bytes: nat)
    requires IsWidth(bytes) && 0 < n < 8 * bytes && v < Pow2(8 * bytes) <= TWO_64
    ensures RotL(v, n, bytes) == v % Pow2(8 * bytes - n) * Pow2(n) + v / Pow2(8 * bytes - n)
    ensures RotL(v, n, bytes) < Pow2(8 * bytes)
    ensures v / Pow2(8 * bytes - n) < Pow2(n)
  {
    hide *;
    AtMostEight(bytes);
    var p, q, d, m := Pow2(n), Pow2(8 * bytes - n), Pow2(64 - 8 * bytes), Pow2(64 - n);
    WordIs(n, bytes);
    RotateCore(v, p, q, d, m, Pow2(8 * bytes), TWO_64);
    var h := v % m;
    ShiftsAre(v, n);
    ShiftsAre(v, 8 * bytes - n);
    NotNegative(h, p);
    OrDisjoint(h, v / q, n);
    MaskIsRemainder(h * p + v / q, bytes);
    RotLIs(v, n, bytes);
  }

  lemma RotLIs(v: nat, n: nat, bytes: nat)
    requires IsWidth(bytes) && 0 < n < 8 * bytes && v < Pow2(8 * bytes) <= TWO_64
    ensures RotL(v, n, bytes) == And(Or(ShiftLeft(v, n), ShiftRight(v, 8 * bytes - n)), MaskFor(bytes))
  {
    hide And, Or, Pow2, ShiftLeft, ShiftRight, MaskFor, IsWidth;
    MaskIsRemainder(v, bytes);
    RemainderIs(v, 0, v, Pow2(8 * bytes));
  }

  lemma ShiftsAre(v: U64, n: nat)
    ensures ShiftLeft(v, n) == v * Pow2(n) % TWO_64 && ShiftRight(v, n) == v / Pow2(n)
  {
  }

  lemma WordIs(n: nat, bytes: nat)
    requires IsWidth(bytes) && n < 8 * bytes
    ensures var p, q, d, m := Pow2(n), Pow2(8 * bytes - n), Pow2(64 - 8 * bytes), Pow2(64 - n);
            Pow2(8 * bytes) == p * q && m == q * d && TWO_64 == p * m
  {
    hide Pow2;
    Pow2Sum(n, 8 * bytes - n);
    Pow2Sum(n, 64 - n);
    Pow2Sum(8 * bytes - n, 64 - 8 * bytes);
    Pow2Values();
  }

  /** Two rotations that make up the whole width cancel out. */
  lemma SwapBack(v: nat, p: nat, q: nat)
    requires p > 0 && q > 0 && 0 <= v / q < p
    ensures var y := v % q * p + v / q; y % p * q + y / p == v
  {
    RemainderIs(v % q * p + v / q, v % q, v / q, p);
    assert v == v / q * q + v % q;
  }

  lemma RotateRightIsLeft(v: U64, n: nat, bytes: nat)
    requires IsWidth(bytes) && 0 < n < 8 * bytes
    ensures RotR(v, n, bytes) == RotL(v, 8 * bytes - n, bytes)
  {
    MaskFitsAll(v, bytes);
    var x := And(v, MaskFor(bytes));
    OrCommutes(ShiftRight(x, n), ShiftLeft(x, 8 * bytes - n));
  }

  // ----- the codec -----

  /** A value cut to its width. */
  function Cut(x: int, bytes: nat): (r: U64)
    requires IsWidth(bytes)
  {
    MaskIsRemainder(0, bytes);
    x % Pow2(8 * bytes)
  }

  predicate Fits(v: int, bytes: nat)
    requires IsWidth(bytes)
  {
    Cut(v, bytes) == v
  }

  lemma CutMeans(x: int, bytes: nat)
    requires IsWidth(bytes)
    ensures Cut(x, bytes) == x % Pow2(8 * bytes) && TWO_64 % Pow2(8 * bytes) == 0 && Pow2(8 * bytes) <= TWO_64
  {
    MaskIsRemainder(0, bytes);
  }

  lemma FitsMeans(v: nat, bytes: nat)
    requires IsWidth(bytes)
    ensures Fits(v, bytes) <==> v < Pow2(8 * bytes)
  {
    hide Pow2, IsWidth;
    CutMeans(v, bytes);
    if v < Pow2(8 * bytes) {
      RemainderIs(v, 0, v, Pow2(8 * bytes));
    }
  }

  lemma CutFits(x: int, bytes: nat)
    requires IsWidth(bytes)
    ensures Fits(Cut(x, bytes), bytes)
  {
    hide Pow2, IsWidth, Fits;
    CutMeans(x, bytes);
    FitsMeans(Cut(x, bytes), bytes);
  }

  lemma Masked(x: nat, bytes: nat)
    requires IsWidth(bytes)
    ensures And(x, MaskFor(bytes)) == Cut(x, bytes) && Fits(Cut(x, bytes), bytes)
  {
    hide And, Pow2, IsWidth, Fits, Cut;
    MaskIsRemainder(x, bytes);
    CutMeans(x, bytes);
    CutFits(x, bytes);
  }

  lemma RotateRound(v: nat, n: nat, bytes: nat)
    requires IsWidth(bytes) && n < 8 * bytes && Fits(v, bytes) && v < TWO_64
    ensures RotL(v, n, bytes) < TWO_64
    ensures Fits(RotL(v, n, bytes), bytes) && RotR(RotL(v, n, bytes), n, bytes) == v
  {
    hide *;
    CutMeans(v, bytes);
    if n == 0 {
      NoRotation(v, bytes);
    } else {
      AtMostEight(bytes);
      var p, q := Pow2(n), Pow2(8 * bytes - n);
      FitsMeans(v, bytes);
      RotateLeftIs(v, n, bytes);
      var y := RotL(v, n, bytes);
      FitsMeans(y, bytes);
      RotateRightIsLeft(y, n, bytes);
      RotateLeftIs(y, 8 * bytes - n, bytes);
      QuotientFits(v, q);
      SwapBack(v, p, q);
    }
  }

  lemma RotateRoundRight(v: nat, n: nat, bytes: nat)
    requires IsWidth(bytes) && n < 8 * bytes && Fits(v, bytes) && v < TWO_64
    ensures RotR(v, n, bytes) < TWO_64
    ensures Fits(RotR(v, n, bytes), bytes) && RotL(RotR(v, n, bytes), n, bytes) == v
  {
    hide *;
    if n == 0 {
      NoRotation(v, bytes);
    } else {
      RotateRightIsLeft(v, n, bytes);
      RotateRound(v, 8 * bytes - n, bytes);
      RotateRightIsLeft(RotL(v, 8 * bytes - n, bytes), 8 * bytes - n, bytes);
    }
  }

  lemma NoRotation(v: nat, bytes: nat)
    requires IsWidth(bytes) && Fits(v, bytes) && v < TWO_64
    ensures RotL(v, 0, bytes) == v && RotR(v, 0, bytes) == v
  {
    hide And, IsWidth, Cut, MaskFor, Pow2;
    Masked(v, bytes);
  }

  lemma XorRound(v: nat, key: U64, bytes: nat)
    requires IsWidth(bytes) && Fits(v, bytes)
    ensures Cut(Xor(Cut(Xor(v, key), bytes), key), bytes) == v
  {
    hide *;
    var x := Xor(v, key);
    XorLow(x, key, 8 * bytes);
    XorLow(Cut(x, bytes), key, 8 * bytes);
    CutMeans(x, bytes);
    CutMeans(Xor(x, key), bytes);
    CutMeans(Cut(x, bytes), bytes);
    CutMeans(Xor(Cut(x, bytes), key), bytes);
    CutTwice(x, bytes);
    XorTwice(v, key);
    FitsIs(v, bytes);
  }

  lemma CutTwice(x: int, bytes: nat)
    requires IsWidth(bytes)
    ensures Cut(Cut(x, bytes), bytes) == Cut(x, bytes)
  {
    hide Pow2, IsWidth, Cut;
    CutFits(x, bytes);
  }

  lemma FitsIs(v: nat, bytes: nat)
    requires IsWidth(bytes)
    ensures Fits(v, bytes) <==> Cut(v, bytes) == v
  {
    hide Cut;
  }

  lemma ModuloMultiple(x: int, m: nat, p: nat)
    requires m > 0 && p > 0 && p % m == 0
    ensures x % p % m == x % m
  {
    var k, j, r := x / p, p / m, x % p;
    var i, s := r / m, r % m;
    assert x == k * p + r && p == j * m && r == i * m + s;
    Associate(k, j, m);
    Distribute(k * j, i, m);
    RemainderIs(x, k * j + i, s, m);
  }

  lemma SubtractBack(x: int, key: int, m: nat, v: nat)
    requires m > 0 && v < m && x == v + key
    ensures (x % m - key) % m == v
  {
    var k := x / m;
    assert x == k * m + x % m;
    Distribute(0, k, m);
    RemainderIs(x % m - key, -k, v, m);
  }

  lemma AddRound(v: nat, key: int, bytes: nat)
    requires IsWidth(bytes) && Fits(v, bytes)
    ensures Cut(Wrap(Cut(Wrap(v + key), bytes) - key), bytes) == v
  {
    hide *;
    var m := Pow2(8 * bytes);
    var x := v + key;
    WrapIs(x);
    CutMeans(Wrap(x), bytes);
    ModuloMultiple(x, m, TWO_64);
    var y := Cut(Wrap(x), bytes) - key;
    WrapIs(y);
    CutMeans(Wrap(y), bytes);
    ModuloMultiple(y, m, TWO_64);
    FitsMeans(v, bytes);
    SubtractBack(x, key, m, v);
  }

  lemma WrapIs(x: int)
    ensures Wrap(x) == x % TWO_64
  {
  }

  lemma OnValue(c: Codec, v: U64, bytes: nat)
    requires IsWidth(bytes) && Fits(v, bytes)
    ensures Fits(Forward(c, v, bytes), bytes) && Backward(c, Forward(c, v, bytes), bytes) == v
    ensures Fits(Backward(c, v, bytes), bytes) && Forward(c, Backward(c, v, bytes), bytes) == v
  {
    hide And, Or, Pow2, IsWidth, RotL, RotR, MaskFor, Xor, Wrap, Count, Cut, Fits;
    AtMostEight(bytes);
    match c.op
    case Plain =>
    case Xored =>
      XorRound(v, c.key, bytes);
      Masked(Xor(v, c.key), bytes);
      Masked(Xor(Cut(Xor(v, c.key), bytes), c.key), bytes);
    case Added =>
      AddValue(v, c.key, bytes);
    case RotatedLeft =>
      RotateRound(v, Count(c.key, bytes), bytes);
      RotateRoundRight(v, Count(c.key, bytes), bytes);
    case RotatedRight =>
      RotateRound(v, Count(c.key, bytes), bytes);
      RotateRoundRight(v, Count(c.key, bytes), bytes);
  }

  lemma AddValue(v: U64, key: U64, bytes: nat)
    requires IsWidth(bytes) && Fits(v, bytes)
    ensures var c := Codec(Added, key);
            && Fits(Forward(c, v, bytes), bytes) && Backward(c, Forward(c, v, bytes), bytes) == v
            && Fits(Backward(c, v, bytes), bytes) && Forward(c, Backward(c, v, bytes), bytes) == v
  {
    hide And, Or, Pow2, IsWidth, RotL, RotR, MaskFor, Xor, Wrap, Count, Cut, Fits;
    AddRound(v, key, bytes);
    AddRound(v, -(key as int), bytes);
    Masked(Wrap(v + key), bytes);
    Masked(Wrap(v - key), bytes);
    Masked(Wrap(Cut(Wrap(v + key), bytes) - key), bytes);
    Masked(Wrap(Cut(Wrap(v - key), bytes) + key), bytes);
    assert v + -(key as int) == v - key;
    assert Cut(Wrap(v - key), bytes) - -(key as int) == Cut(Wrap(v - key), bytes) + key;
  }

  /** Encoding and decoding undo each other, whatever the transform, the key and the width: what comes back
      is the value cut to its width. */
  lemma DecodeEncode(c: Codec, x: U64, bytes: nat)
    requires IsWidth(bytes)
    ensures Decode(c, Encode(c, x, bytes), bytes) == Cut(x, bytes)
    ensures Encode(c, Decode(c, x, bytes), bytes) == Cut(x, bytes)
    ensures Fits(Encode(c, x, bytes), bytes)
  {
    hide And, Pow2, IsWidth, MaskFor, Cut, Fits, Forward, Backward;
    Masked(x, bytes);
    var v := Cut(x, bytes);
    OnValue(c, v, bytes);
    Masked(Forward(c, v, bytes), bytes);
    Masked(Backward(c, v, bytes), bytes);
    FitsIs(Forward(c, v, bytes), bytes);
    FitsIs(Backward(c, v, bytes), bytes);
  }

  // ----- what each codec does -----

  /** With the top digits, those from `low` on, moved to the bottom, and the others up by as much as `high`. */
  function Turned(x: nat, high: nat, low: nat): int
    requires low > 0
  {
    x % low * high + x / low
  }

  /** A word of that width with its top `n` digits moved to the bottom. */
  function TurnedLeft(x: nat, n: nat, bytes: nat): int
    requires n < 8 * bytes
  {
    Turned(x, Pow2(n), Pow2(8 * bytes - n))
  }

  lemma TurnedLeftIs(v: nat, n: nat, bytes: nat)
    requires IsWidth(bytes) && n < 8 * bytes && Fits(v, bytes) && v < TWO_64
    ensures RotL(v, n, bytes) == TurnedLeft(v, n, bytes)
  {
    hide And, IsWidth, Cut, MaskFor, RotL, Fits;
    FitsMeans(v, bytes);
    CutMeans(v, bytes);
    if n == 0 {
      NoRotation(v, bytes);
      RemainderIs(v, 0, v, Pow2(8 * bytes));
      Pow2Values();
    } else {
      RotateLeftIs(v, n, bytes);
    }
  }

  /** Adding stores the sum and shows the difference, modulo the width; rotating left stores the value turned left by
      the key and shows what is stored turned back; rotating right the other way round. */
  lemma Directions(key: U64, v: U64, bytes: nat)
    requires IsWidth(bytes)
    ensures Encode(Codec(Added, key), v, bytes) == Cut(v + key, bytes)
    ensures Decode(Codec(Added, key), v, bytes) == Cut(v - key, bytes)
    ensures Encode(Codec(RotatedLeft, key), v, bytes) == TurnedLeft(Cut(v, bytes), Count(key, bytes), bytes)
    ensures Decode(Codec(RotatedRight, key), v, bytes) == TurnedLeft(Cut(v, bytes), Count(key, bytes), bytes)
  {
    hide And, Cut, MaskFor, RotL, RotR, Pow2, TurnedLeft, Fits, Wrap;
    Masked(v, bytes);
    MaskFitsAll(v, bytes);
    var x := Cut(v, bytes);
    TurnedLeftIs(x, Count(key, bytes), bytes);
    Masked(Wrap(x + key), bytes);
    Masked(Wrap(x - key), bytes);
    CutOfSum(v, key, bytes);
    CutOfSum(v, -(key as int), bytes);
  }

  lemma CutOfSum(v: U64, y: int, bytes: nat)
    requires IsWidth(bytes)
    ensures Cut(Wrap(Cut(v, bytes) + y), bytes) == Cut(v + y, bytes)
  {
    hide *;
    CutMeans(v, bytes);
    CutMeans(Wrap(Cut(v, bytes) + y), bytes);
    CutMeans(v + y, bytes);
    WrapIsRemainder(Cut(v, bytes) + y);
    ModuloMultiple(Cut(v, bytes) + y, Pow2(8 * bytes), TWO_64);
    RemainderThenSum(v, y, Pow2(8 * bytes));
  }

  lemma WrapIsRemainder(x: int)
    ensures Wrap(x) == x % TWO_64
  {
  }

  lemma RemainderThenSum(v: int, y: int, m: nat)
    requires m > 0
    ensures (v % m + y) % m == (v + y) % m
  {
    var q, r := v / m, (v % m + y) % m;
    var k := (v % m + y) / m;
    assert v == q * m + v % m;
    assert v % m + y == k * m + r;
    assert v + y == (q + k) * m + r;
    RemainderIs(v + y, q + k, r, m);
  }
}
