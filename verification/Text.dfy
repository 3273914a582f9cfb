/** Strings as byte sequences, and the few library routines on them that the modelled code relies on:
    searching, trimming, and reading and writing numerals. */
module Text {

  datatype Option<+T> = None | Some(value: T)

  const TWO_64: int := 0x1_0000_0000_0000_0000
  const TWO_63: int := 0x8000_0000_0000_0000

  type U64 = n: nat | n < TWO_64
  type I64 = n: int | -TWO_63 <= n < TWO_63

  function Wrap(n: int): U64 {
    n % TWO_64
  }

  /** Reading the same 64 bits as a signed number. */
  function ToSigned(n: U64): I64 {
    if n < TWO_63 then n else n - TWO_64
  }

  // ----- searching -----

  predicate At(s: string, p: string, i: nat) {
    i + |p| <= |s| && s[i..i + |p|] == p
  }

  /** The first place at or after `from` where `p` occurs. */
  function Find(s: string, p: string, from: nat): (r: Option<nat>)
    ensures r.Some? ==> from <= r.value && At(s, p, r.value) && forall i :: from <= i < r.value ==> !At(s, p, i)
    ensures r.None? ==> forall i :: from <= i ==> !At(s, p, i)
    decreases |s| - from
  {
    if from + |p| > |s| then None
    else if At(s, p, from) then Some(from)
    else Find(s, p, from + 1)
  }

  lemma FindIs(s: string, p: string, from: nat, at: nat)
    requires from <= at && At(s, p, at) && forall i :: from <= i < at ==> !At(s, p, i)
    ensures Find(s, p, from) == Some(at)
  {
    assert Find(s, p, from).None? ==> !At(s, p, at);
  }

  // ----- trimming -----

  predicate IsBlank(c: char) {
    c == ' ' || c == '\t'
  }

  function SkipBlanks(s: string): (r: string)
    ensures |r| <= |s| && (r != [] ==> !IsBlank(r[0]))
    ensures s != [] && !IsBlank(s[0]) ==> r == s
  {
    if s != [] && IsBlank(s[0]) then SkipBlanks(s[1..]) else s
  }

  function DropBlanks(s: string): (r: string)
    ensures |r| <= |s| && (r != [] ==> !IsBlank(r[|r| - 1]))
    ensures r == s[..|r|]
    ensures s != [] && !IsBlank(s[|s| - 1]) ==> r == s
  {
    if s != [] && IsBlank(s[|s| - 1]) then DropBlanks(s[..|s| - 1]) else s
  }

  /** Without the blanks and tabs at either end. */
  function Trim(s: string): (r: string)
    ensures |r| <= |s|
    ensures r != [] ==> !IsBlank(r[0]) && !IsBlank(r[|r| - 1])
  {
    DropBlanks(SkipBlanks(s))
  }

  predicate Trimmed(s: string) {
    s != [] ==> !IsBlank(s[0]) && !IsBlank(s[|s| - 1])
  }

  lemma TrimTrimmed(s: string)
    requires Trimmed(s)
    ensures Trim(s) == s
  {
  }

  // ----- numerals -----

  /** The value of a digit in any base up to 16, or -1. */
  function DigitValue(c: char): int {
    if '0' <= c <= '9' then c as int - '0' as int
    else if 'a' <= c <= 'f' then c as int - 'a' as int + 10
    else if 'A' <= c <= 'F' then c as int - 'A' as int + 10
    else -1
  }

  predicate IsDigit(c: char, base: nat) {
    0 <= DigitValue(c) < base
  }

  predicate IsNumeral(s: string, base: nat) {
    forall i :: 0 <= i < |s| ==> IsDigit(s[i], base)
  }

  /** The number a string of digits denotes. */
  function Numeral(s: string, base: nat): nat
    requires IsNumeral(s, base)
  {
    if s == [] then 0
    else
      assert IsDigit(s[|s| - 1], base);
      Numeral(s[..|s| - 1], base) * base + DigitValue(s[|s| - 1])
  }

  function DigitChar(d: nat): (c: char)
    requires d < 16
    ensures DigitValue(c) == d && ('0' <= c <= '9' || 'a' <= c <= 'f')
    ensures d < 10 ==> '0' <= c <= '9'
    ensures d > 0 ==> c != '0'
  {
    if d < 10 then ('0' as int + d) as char else ('a' as int + d - 10) as char
  }

  /** A number printed without leading zeros, in decimal or in lower-case hexadecimal. */
  function Digits(n: nat, base: nat): (s: string)
    requires base == 10 || base == 16
    ensures s != []
    decreases n
  {
    if n < base then [DigitChar(n)]
    else
      DivShrinks(n, base);
      Digits(n / base, base) + [DigitChar(n % base)]
  }

  lemma DivShrinks(n: nat, base: nat)
    requires base == 10 || base == 16
    ensures n >= base ==> 0 < n / base < n
    ensures n % base < base && n == (n / base) * base + n % base
  {
    if base == 10 {
      assert n == (n / 10) * 10 + n % 10;
    }
  }

  predicate PrintedDigit(c: char, base: nat) {
    '0' <= c <= '9' || (base == 16 && 'a' <= c <= 'f')
  }

  lemma PrintedIsDigit(c: char, base: nat)
    requires (base == 10 || base == 16) && PrintedDigit(c, base)
    ensures IsDigit(c, base)
  {
  }

  lemma {:induction false} DigitsForm(n: nat, base: nat)
    requires base == 10 || base == 16
    ensures forall i :: 0 <= i < |Digits(n, base)| ==> PrintedDigit(Digits(n, base)[i], base)
    ensures IsNumeral(Digits(n, base), base)
    ensures n > 0 ==> Digits(n, base)[0] != '0'
    decreases n
  {
    hide DigitValue, IsDigit;
    if n >= base {
      DivShrinks(n, base);
      DigitsForm(n / base, base);
      var s := Digits(n, base);
      assert s == Digits(n / base, base) + [DigitChar(n % base)];
      assert forall i :: 0 <= i < |s| - 1 ==> s[i] == Digits(n / base, base)[i];
    }
    var s := Digits(n, base);
    forall i | 0 <= i < |s| ensures IsDigit(s[i], base) {
      PrintedIsDigit(s[i], base);
    }
  }

  lemma {:induction false} NumeralOfDigits(n: nat, base: nat)
    requires base == 10 || base == 16
    ensures IsNumeral(Digits(n, base), base) && Numeral(Digits(n, base), base) == n
    decreases n
  {
    DigitsForm(n, base);
    var s := Digits(n, base);
    if n >= base {
      DivShrinks(n, base);
      NumeralOfDigits(n / base, base);
      hide DigitValue, IsDigit, Digits;
      assert s[..|s| - 1] == Digits(n / base, base);
    } else {
      assert s[..0] == [];
    }
  }

  /** Read digits left to right, reducing modulo 2^64 at each step, as the hand-written loops do. */
  function WrapNumeral(s: string, base: nat): U64
    requires IsNumeral(s, base)
  {
    if s == [] then 0
    else
      assert IsDigit(s[|s| - 1], base);
      Wrap(WrapNumeral(s[..|s| - 1], base) * base + DigitValue(s[|s| - 1]))
  }

  lemma {:induction false} WrapNumeralIs(s: string, base: nat)
    requires IsNumeral(s, base)
    ensures WrapNumeral(s, base) == Wrap(Numeral(s, base))
  {
    if s != [] {
      WrapNumeralIs(s[..|s| - 1], base);
      assert IsDigit(s[|s| - 1], base);
      WrapStep(Numeral(s[..|s| - 1], base), base, DigitValue(s[|s| - 1]));
    }
  }

  lemma WrapStep(n: nat, base: nat, d: nat)
    ensures Wrap(Wrap(n) * base + d) == Wrap(n * base + d)
  {
    var q := n / TWO_64;
    assert n == q * TWO_64 + Wrap(n);
    assert n * base + d == q * base * TWO_64 + (Wrap(n) * base + d) by {
      calc {
        n * base + d;
        (q * TWO_64 + Wrap(n)) * base + d;
        q * TWO_64 * base + Wrap(n) * base + d;
        { assert q * TWO_64 * base == q * base * TWO_64; }
        q * base * TWO_64 + (Wrap(n) * base + d);
      }
    }
    WrapAddMultiple(Wrap(n) * base + d, q * base);
  }

  lemma WrapAddMultiple(x: int, k: int)
    ensures Wrap(x + k * TWO_64) == Wrap(x)
  {
    var q := x / TWO_64;
    assert x == q * TWO_64 + Wrap(x);
    assert x + k * TWO_64 == (q + k) * TWO_64 + Wrap(x);
    WrapUnique(x + k * TWO_64, q + k, Wrap(x));
  }

  lemma WrapUnique(x: int, q: int, r: U64)
    requires x == q * TWO_64 + r
    ensures Wrap(x) == r
  {
    var q', r' := x / TWO_64, x % TWO_64;
    assert (q - q') * TWO_64 == r' - r;
    assert -TWO_64 < r' - r < TWO_64;
  }

  // ----- std::stoull -----

  predicate IsSpace(c: char) {
    c == ' ' || c == '\t' || c == '\n' || c == '\r' || c == '\U{B}' || c == '\U{C}'
  }

  function LeadingSpaces(s: string): (n: nat)
    ensures n <= |s|
  {
    if s != [] && IsSpace(s[0]) then 1 + LeadingSpaces(s[1..]) else 0
  }

  /** How many characters at the front are digits. */
  function DigitPrefix(s: string, base: nat): (n: nat)
    ensures n <= |s| && IsNumeral(s[..n], base)
    ensures n < |s| ==> !IsDigit(s[n], base)
  {
    if s != [] && IsDigit(s[0], base) then
      var n := 1 + DigitPrefix(s[1..], base);
      assert forall i :: 0 < i < n ==> s[..n][i] == s[1..][..n - 1][i - 1];
      n
    else 0
  }

  predicate HasHexPrefix(s: string) {
    |s| >= 3 && s[0] == '0' && (s[1] == 'x' || s[1] == 'X') && IsDigit(s[2], 16)
  }

  /** The value read and how many characters were used. */
  datatype Parsed = Parsed(value: U64, used: nat)

  /** The unsigned part: take the base from the prefix when it is 0, read the longest run of digits. */
  function Magnitude(u: string, base: nat): (r: Option<Parsed>)
    requires base == 0 || base == 10 || base == 16
    ensures r.Some? ==> r.value.used <= |u|
  {
    var skip := if base != 10 && HasHexPrefix(u) then 2 else 0;
    var b := if skip == 2 then 16 else if base != 0 then base else if u != [] && u[0] == '0' then 8 else 10;
    var n := DigitPrefix(u[skip..], b);
    if n == 0 || Numeral(u[skip..][..n], b) >= TWO_64 then None
    else Some(Parsed(Numeral(u[skip..][..n], b), skip + n))
  }

  /** Skip spaces and a sign, then read the unsigned part; fail when there is none or it does not fit.
      A minus sign negates modulo 2^64. */
  function Stoull(s: string, base: nat): (r: Option<Parsed>)
    requires base == 0 || base == 10 || base == 16
    ensures r.Some? ==> r.value.used <= |s|
  {
    var ws := LeadingSpaces(s);
    var t := s[ws..];
    var sign := if t != [] && (t[0] == '+' || t[0] == '-') then 1 else 0;
    var m := Magnitude(t[sign..], base);
    if m.None? then None
    else Some(Parsed(if sign == 1 && t[0] == '-' then Wrap(-(m.value.value as int)) else m.value.value,
                     ws + sign + m.value.used))
  }

  lemma DigitPrefixAll(s: string, base: nat)
    requires IsNumeral(s, base)
    ensures DigitPrefix(s, base) == |s|
  {
  }

  lemma DigitIsPlain(c: char, base: nat)
    requires base <= 16 && IsDigit(c, base)
    ensures !IsSpace(c) && !IsBlank(c) && c != '+' && c != '-' && c != 'x' && c != 'X' && c != '[' && c != ']'
  {
  }

  lemma MagnitudeOfNumeral(s: string, base: nat)
    requires (base == 10 || base == 16) && s != [] && IsNumeral(s, base) && Numeral(s, base) < TWO_64
    ensures Magnitude(s, base) == Some(Parsed(Numeral(s, base), |s|))
  {
    if |s| >= 3 {
      DigitIsPlain(s[1], base);
    }
    DigitPrefixAll(s, base);
    hide DigitValue, IsDigit, IsNumeral, DigitPrefix, Numeral;
    assert s[0..] == s && s[..|s|] == s;
  }

  /** A plain numeral that fits is read whole. */
  lemma StoullOfNumeral(s: string, base: nat)
    requires (base == 10 || base == 16) && s != [] && IsNumeral(s, base) && Numeral(s, base) < TWO_64
    ensures Stoull(s, base) == Some(Parsed(Numeral(s, base), |s|))
  {
    DigitIsPlain(s[0], base);
    MagnitudeOfNumeral(s, base);
    assert LeadingSpaces(s) == 0;
    hide DigitValue, IsDigit, IsNumeral, IsSpace, LeadingSpaces, Magnitude, Numeral;
    assert s[0..] == s;
  }

  // ----- signed decimals -----

  function Decimal(n: int): string {
    if n < 0 then "-" + Digits(-n, 10) else Digits(n, 10)
  }

  datatype Integer = Integer(value: int, digits: nat)

  function Signed(negative: bool, n: int): int {
    if negative then -n else n
  }

  /** Spaces, a sign, and the longest run of digits; how many digits there were. */
  function LeadingInteger(s: string): Integer {
    var t := s[LeadingSpaces(s)..];
    var sign := if t != [] && (t[0] == '+' || t[0] == '-') then 1 else 0;
    var n := DigitPrefix(t[sign..], 10);
    Integer(Signed(sign == 1 && t[0] == '-', Numeral(t[sign..][..n], 10)), n)
  }

  predicate Int32(n: int) {
    -0x8000_0000 <= n < 0x8000_0000
  }

  /** std::atoi, for numbers that fit. */
  function Atoi(s: string): int {
    LeadingInteger(s).value
  }

  /** std::stoi: fails without digits and out of range. */
  function Stoi(s: string): Option<int> {
    if LeadingInteger(s).digits > 0 && Int32(LeadingInteger(s).value) then Some(LeadingInteger(s).value) else None
  }

  lemma UnsignedDigits(d: string)
    requires d != [] && IsNumeral(d, 10)
    ensures LeadingInteger(d) == Integer(Numeral(d, 10), |d|)
  {
    DigitIsPlain(d[0], 10);
    DigitPrefixAll(d, 10);
    hide DigitValue, IsDigit, IsNumeral, DigitPrefix, Numeral;
    assert LeadingSpaces(d) == 0 && d[0..] == d && d[..|d|] == d;
  }

  lemma NegativeDigits(d: string)
    requires d != [] && IsNumeral(d, 10)
    ensures LeadingInteger("-" + d) == Integer(-(Numeral(d, 10) as int), |d|)
  {
    DigitPrefixAll(d, 10);
    hide DigitValue, IsDigit, IsNumeral, DigitPrefix, Numeral;
    var s := "-" + d;
    assert LeadingSpaces(s) == 0 && s[0..] == s && s[1..] == d && d[..|d|] == d;
  }

  /** A printed number reads back. */
  lemma DecimalReads(n: int)
    requires Int32(n)
    ensures Atoi(Decimal(n)) == n && Stoi(Decimal(n)) == Some(n)
    ensures Decimal(n) != "" && '<' !in Decimal(n)
  {
    hide LeadingInteger, Digits, IsNumeral, Numeral;
    var d := Digits(if n < 0 then -n else n, 10);
    NumeralOfDigits(if n < 0 then -n else n, 10);
    UnsignedDigits(d);
    NegativeDigits(d);
    DigitsForm(if n < 0 then -n else n, 10);
    assert forall i :: 0 <= i < |d| ==> PrintedDigit(d[i], 10);
  }

  lemma HexMark(d: string)
    requires d != "" && IsNumeral(d, 16)
    ensures HasHexPrefix("0x" + d) && ("0x" + d)[2..] == d
  {
    assert IsDigit(d[0], 16);
    assert ("0x" + d)[2] == d[0];
  }

  lemma MagnitudeOfHex(d: string)
    requires d != "" && IsNumeral(d, 16) && Numeral(d, 16) < TWO_64
    ensures Magnitude("0x" + d, 0) == Some(Parsed(Numeral(d, 16), |d| + 2))
  {
    hide HasHexPrefix, DigitValue, IsDigit, IsNumeral, DigitPrefix, Numeral;
    HexMark(d);
    DigitPrefixAll(d, 16);
    assert d[..|d|] == d;
  }

  /** An address printed with its mark reads back when the base is taken from the text. */
  lemma StoullOfHexLiteral(n: U64)
    ensures Stoull("0x" + Digits(n, 16), 0) == Some(Parsed(n, |Digits(n, 16)| + 2))
  {
    NumeralOfDigits(n, 16);
    MagnitudeOfHex(Digits(n, 16));
    hide Digits, Magnitude, Numeral, IsNumeral;
    var s := "0x" + Digits(n, 16);
    assert s[0] == '0' && s[0..] == s;
    assert LeadingSpaces(s) == 0;
  }
}
