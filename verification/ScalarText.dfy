/** The text of integer scalars: how the cheat table shows a value and reads an edited one. */
module ScalarText {
  import opened Text

  /** The width the formatter works with. */
  function Clamp(width: int): (w: nat)
    ensures 1 <= w <= 8
  {
    if width < 1 then 1 else if width > 8 then 8 else width
  }

  /** 256^w for the widths up to 8. */
  function Range(w: nat): (m: nat)
    requires 1 <= w <= 8
    ensures 256 <= m <= TWO_64 && TWO_64 % m == 0
  {
    match w
    case 1 => 0x100
    case 2 => 0x1_0000
    case 3 => 0x100_0000
    case 4 => 0x1_0000_0000
    case 5 => 0x100_0000_0000
    case 6 => 0x1_0000_0000_0000
    case 7 => 0x100_0000_0000_0000
    case 8 => TWO_64
  }

  /** Only the widths 1, 2 and 4 are sign-extended; the others are taken as 64-bit words. */
  function SignExtend(u: U64, w: nat): I64
    requires 1 <= w <= 8 && u < Range(w)
  {
    if w == 1 || w == 2 || w == 4 then (if u < Range(w) / 2 then u else u - Range(w)) else ToSigned(u)
  }

  function Format(bits: U64, width: int, signed: bool, hex: bool): string {
    var w := Clamp(width);
    var u := bits % Range(w);
    if hex then "0x" + Digits(u, 16)
    else if signed then Decimal(SignExtend(u, w))
    else Digits(u, 10)
  }

  // ----- reading -----

  function SignLength(t: string): (n: nat)
    ensures n <= |t|
  {
    if t != [] && (t[0] == '-' || t[0] == '+') then 1 else 0
  }

  predicate HexMarkAt(t: string, i: nat) {
    i + 1 < |t| && t[i] == '0' && (t[i + 1] == 'x' || t[i + 1] == 'X')
  }

  /** A blank-trimmed token: an optional sign, an optional 0x, and digits; the number is taken modulo 2^64. */
  function Parse(s: string, hex: bool): Option<I64> {
    var t := Trim(s);
    var i := SignLength(t);
    var base := if hex || HexMarkAt(t, i) then 16 else 10;
    var j := if HexMarkAt(t, i) then i + 2 else i;
    if j >= |t| || !IsNumeral(t[j..], base) then None
    else
      var val := WrapNumeral(t[j..], base);
      Some(if t[0] == '-' then ToSigned(Wrap(-(val as int))) else ToSigned(val))
  }

  method ReadDigits(t: string, start: nat, base: nat) returns (ok: bool, val: U64)
    requires start <= |t| && (base == 10 || base == 16)
    ensures ok == IsNumeral(t[start..], base)
    ensures ok ==> val == WrapNumeral(t[start..], base)
  {
    hide DigitValue;
    var i := start;
    val := 0;
    NoDigits(base);
    assert t[start..start] == [];
    while i < |t|
      invariant start <= i <= |t|
      invariant IsNumeral(t[start..i], base) && val == WrapNumeral(t[start..i], base)
    {
      var d := DigitValue(t[i]);
      OneDigit(t, start, i, base);
      if d < 0 || d >= base {
        return false, val;
      }
      val := Wrap(val * base + d);
      i := i + 1;
    }
    assert t[start..|t|] == t[start..];
    ok := true;
  }

  lemma NoDigits(base: nat)
    ensures IsNumeral([], base) && WrapNumeral([], base) == 0
  {
  }

  lemma OneDigit(t: string, start: nat, i: nat, base: nat)
    requires start <= i < |t| && IsNumeral(t[start..i], base)
    ensures !IsDigit(t[i], base) ==> !IsNumeral(t[start..], base)
    ensures IsDigit(t[i], base) ==>
      IsNumeral(t[start..i + 1], base) &&
      WrapNumeral(t[start..i + 1], base) == Wrap(WrapNumeral(t[start..i], base) * base + DigitValue(t[i]))
  {
    hide DigitValue;
    assert t[start..][i - start] == t[i];
    var s := t[start..i + 1];
    assert s[..|s| - 1] == t[start..i];
    if IsDigit(t[i], base) {
      forall k | 0 <= k < |s| ensures IsDigit(s[k], base) {
        assert k < i - start ==> s[k] == t[start..i][k];
      }
    }
  }

  method ParseIntegerScalar(s: string, hex: bool) returns (ok: bool, value: I64)
    ensures ok == Parse(s, hex).Some?
    ensures value == if ok then Parse(s, hex).value else 0
  {
    hide IsNumeral, WrapNumeral, Trim;
    ok, value := false, 0;
    var t := Trim(s);
    if t == [] {
      return;
    }
    var i := 0;
    var neg := false;
    if t[i] == '-' || t[i] == '+' {
      neg := t[i] == '-';
      i := i + 1;
    }
    var base := if hex then 16 else 10;
    if HexMarkAt(t, i) {
      base := 16;
      i := i + 2;
    }
    if i >= |t| {
      return;
    }
    var val;
    ok, val := ReadDigits(t, i, base);
    if ok {
      value := if neg then ToSigned(Wrap(-(val as int))) else ToSigned(val);
    }
  }

  // ----- what is shown reads back -----

  /** The prefixes the formatter writes, with the base that follows. */
  predicate IsPrefix(prefix: string, base: nat, hex: bool) {
    (prefix == "0x" && base == 16) || ((prefix == "" || prefix == "-") && base == 10 && !hex)
  }

  lemma ParseToken(prefix: string, d: string, base: nat, hex: bool)
    requires IsPrefix(prefix, base, hex) && d != [] && IsNumeral(d, base)
    ensures Parse(prefix + d, hex)
         == Some(ToSigned(if prefix == "-" then Wrap(-(WrapNumeral(d, base) as int)) else WrapNumeral(d, base)))
  {
    hide Trim, DigitValue, IsDigit, IsNumeral, WrapNumeral, ToSigned, Wrap, HexMarkAt, SignLength;
    var t := prefix + d;
    TokenIsTrimmed(prefix, d, base);
    TrimTrimmed(t);
    TokenShape(prefix, d, base, hex);
    assert t[|prefix|..] == d;
  }

  /** Where the sign, the mark and the digits of such a token are. */
  lemma TokenShape(prefix: string, d: string, base: nat, hex: bool)
    requires IsPrefix(prefix, base, hex) && d != [] && IsNumeral(d, base)
    ensures var t := prefix + d;
            && SignLength(t) == (if prefix == "-" then 1 else 0) && (t[0] == '-' <==> prefix == "-")
            && (HexMarkAt(t, SignLength(t)) <==> prefix == "0x")
  {
    NoMarkInDigits(d, base);
    hide IsNumeral;
    var t := prefix + d;
    assert prefix == "" ==> t == d;
  }

  lemma ParseOfDigits(prefix: string, n: nat, base: nat, hex: bool)
    requires IsPrefix(prefix, base, hex)
    ensures Parse(prefix + Digits(n, base), hex)
         == Some(ToSigned(if prefix == "-" then Wrap(-(Wrap(n) as int)) else Wrap(n)))
  {
    hide *;
    PrefixBase(prefix, base, hex);
    DigitsForm(n, base);
    NumeralOfDigits(n, base);
    WrapNumeralIs(Digits(n, base), base);
    ParseToken(prefix, Digits(n, base), base, hex);
  }

  lemma PrefixBase(prefix: string, base: nat, hex: bool)
    requires IsPrefix(prefix, base, hex)
    ensures base == 10 || base == 16
  {
  }

  lemma TokenIsTrimmed(prefix: string, d: string, base: nat)
    requires d != [] && (base == 10 || base == 16) && IsNumeral(d, base)
    requires prefix == "0x" || prefix == "" || prefix == "-"
    ensures Trimmed(prefix + d)
  {
    DigitIsPlain(d[0], base);
    DigitIsPlain(d[|d| - 1], base);
  }

  lemma NoMarkInDigits(d: string, base: nat)
    requires d != [] && (base == 10 || base == 16) && IsNumeral(d, base)
    ensures !HexMarkAt(d, 0) && d[0] != '-' && d[0] != '+'
    ensures !HexMarkAt("-" + d, 1)
  {
    DigitIsPlain(d[0], base);
    if |d| > 1 {
      DigitIsPlain(d[1], base);
    }
  }

  lemma SignedWord(n: int)
    requires -TWO_63 <= n < TWO_63
    ensures ToSigned(Wrap(n)) == n
  {
    if n < 0 {
      WrapUnique(n, -1, n + TWO_64);
    } else {
      WrapUnique(n, 0, n);
    }
  }

  lemma DecimalReadsBack(n: I64)
    ensures Parse(Decimal(n), false) == Some(n)
  {
    hide Parse, Digits, Wrap, ToSigned;
    if n < 0 {
      ParseOfDigits("-", -(n as int), 10, false);
      WrapUnique(-(n as int), 0, -(n as int));
    } else {
      ParseOfDigits("", n, 10, false);
      assert "" + Digits(n, 10) == Digits(n, 10);
      WrapUnique(n, 0, n);
    }
    SignedWord(n);
  }

  /** Casting the value read from a display back to the width gives the bits that were displayed, signed or
      not, decimal or hexadecimal; a hexadecimal display reads back in either edit mode. */
  lemma DisplayReadsBack(bits: U64, width: int, signed: bool, hex: bool, edit: bool)
    requires edit ==> hex
    ensures Parse(Format(bits, width, signed, hex), edit).Some?
    ensures Wrap(Parse(Format(bits, width, signed, hex), edit).value) % Range(Clamp(width)) == bits % Range(Clamp(width))
  {
    hide Parse, Digits, Wrap, ToSigned, Clamp, Range, Decimal, SignExtend;
    var w := Clamp(width);
    var u := bits % Range(w);
    BackToWord(u);
    RemainderStays(bits, Range(w));
    if hex {
      ParseOfDigits("0x", u, 16, edit);
    } else if signed {
      DecimalReadsBack(SignExtend(u, w));
      ExtensionFits(u, w);
    } else {
      ParseOfDigits("", u, 10, edit);
      assert "" + Digits(u, 10) == Digits(u, 10);
    }
  }

  lemma RemainderStays(x: nat, m: nat)
    requires m > 0
    ensures x % m % m == x % m
  {
  }

  lemma BackToWord(u: U64)
    ensures Wrap(ToSigned(u)) == u && Wrap(u) == u
  {
    WrapUnique(u, 0, u);
    if u >= TWO_63 {
      WrapUnique(u - TWO_64, -1, u);
    }
  }

  lemma ExtensionFits(u: U64, w: nat)
    requires 1 <= w <= 8 && u < Range(w)
    ensures Wrap(SignExtend(u, w)) % Range(w) == u
  {
    BackToWord(u);
    if (w == 1 || w == 2 || w == 4) && u >= Range(w) / 2 {
      WrapUnique(u - Range(w), -1, u - Range(w) + TWO_64);
    }
  }
}
