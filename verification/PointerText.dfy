/** Pointer chains as text: "[[base]+8]+10" is built inside-out from a base and its offsets, and peeled
    outside-in to read it back. */
module PointerText {
  import opened Text

  datatype PointerExpr = PointerExpr(base: string, offsets: seq<I64>)

  /** Printing the magnitude of the smallest offset overflows in the source; it is left out. */
  predicate Printable(offsets: seq<I64>) {
    forall i :: 0 <= i < |offsets| ==> offsets[i] > -TWO_63
  }

  function Abs(off: int): nat {
    if off >= 0 then off else -off
  }

  function Suffix(off: I64): string {
    (if off >= 0 then "]+" else "]-") + Digits(Abs(off), 16)
  }

  function Build(base: string, offsets: seq<I64>): string {
    if offsets == [] then base else "[" + Build(base, offsets[1..]) + Suffix(offsets[0])
  }

  method BuildPointerExpression(base: string, offsets: seq<I64>) returns (expr: string)
    requires Printable(offsets)
    ensures expr == Build(base, offsets)
  {
    expr := base;
    var i := |offsets|;
    assert offsets[i..] == [];
    while i > 0
      invariant 0 <= i <= |offsets|
      invariant expr == Build(base, offsets[i..])
    {
      i := i - 1;
      var off := offsets[i];
      var buf := (if off >= 0 then "]+" else "]-") + Digits(Abs(off), 16);
      assert offsets[i..][1..] == offsets[i + 1..];
      expr := "[" + expr + buf;
    }
    assert offsets[0..] == offsets;
  }

  // ----- reading one offset -----

  /** What follows the sign. */
  function Unsigned(s: string): string {
    if s != [] && (s[0] == '+' || s[0] == '-') then s[1..] else s
  }

  function WithoutHexPrefix(s: string): string {
    if |s| >= 2 && s[0] == '0' && (s[1] == 'x' || s[1] == 'X') then s[2..] else s
  }

  function Negate(n: I64): I64 {
    if n == -TWO_63 then n else -(n as int)
  }

  /** "+1a", "-4", "0x1a" or "1a" as a signed offset. */
  function SignedHex(s: string): Option<I64> {
    var digits := WithoutHexPrefix(Unsigned(s));
    if s == [] || digits == [] || !IsNumeral(digits, 16) then None
    else
      var n := ToSigned(WrapNumeral(digits, 16));
      Some(if s[0] == '-' then Negate(n) else n)
  }

  /** The accumulating loop: all of `s` from `start`, or failure at the first character that is no digit. */
  method AccumulateHex(s: string, start: nat) returns (ok: bool, val: U64)
    requires start <= |s|
    ensures ok == IsNumeral(s[start..], 16)
    ensures ok ==> val == WrapNumeral(s[start..], 16)
  {
    ghost var digits := s[start..];
    var i := start;
    val := 0;
    while i < |s|
      invariant start <= i <= |s|
      invariant IsNumeral(digits[..i - start], 16)
      invariant val == WrapNumeral(digits[..i - start], 16)
    {
      ghost var k := i - start;
      var d := DigitValue(s[i]);
      if d < 0 {
        assert !IsDigit(digits[k], 16);
        return false, 0;
      }
      DigitBelow16(s[i]);
      assert digits[..k + 1][..k] == digits[..k] && digits[..k + 1][k] == s[i];
      NumeralGrows(digits[..k], s[i], 16);
      assert digits[..k + 1] == digits[..k] + [s[i]];
      val := Wrap(val * 16 + d);
      i := i + 1;
    }
    assert digits[..i - start] == digits;
    ok := true;
  }

  lemma DigitBelow16(c: char)
    ensures DigitValue(c) >= 0 ==> IsDigit(c, 16)
  {
  }

  lemma NumeralGrows(s: string, c: char, base: nat)
    requires IsNumeral(s, base) && IsDigit(c, base)
    ensures IsNumeral(s + [c], base)
  {
  }

  method ParseSignedHexOffset(s: string) returns (ok: bool, out: I64)
    ensures ok == SignedHex(s).Some?
    ensures ok ==> out == SignedHex(s).value
  {
    hide DigitValue, IsDigit, IsNumeral, WrapNumeral;
    if s == [] {
      return false, 0;
    }
    var i := 0;
    var neg := false;
    if s[i] == '+' || s[i] == '-' {
      neg := s[i] == '-';
      i := i + 1;
    }
    if i + 1 < |s| && s[i] == '0' && (s[i + 1] == 'x' || s[i + 1] == 'X') {
      i := i + 2;
    }
    assert s[i..] == WithoutHexPrefix(Unsigned(s));
    if i >= |s| {
      return false, 0;
    }
    var val;
    ok, val := AccumulateHex(s, i);
    out := if !ok then 0 else if neg then Negate(ToSigned(val)) else ToSigned(val);
  }

  // ----- peeling a chain -----

  /** The last ']' of a string. */
  function LastClose(s: string): (r: Option<nat>)
    ensures r.Some? ==> r.value < |s| && s[r.value] == ']' && forall i :: r.value < i < |s| ==> s[i] != ']'
    ensures r.None? ==> ']' !in s
  {
    if s == [] then None
    else if s[|s| - 1] == ']' then Some(|s| - 1)
    else LastClose(s[..|s| - 1])
  }

  predicate Chained(e: string) {
    e != [] && e[0] == '['
  }

  /** One level: the offset after the last ']' and the trimmed text inside the brackets. */
  function Peel(e: string): (r: Option<(I64, string)>)
    requires Chained(e)
    ensures r.Some? ==> |r.value.1| < |e|
  {
    var rb := LastClose(e);
    if rb.None? then None
    else
      var tail := Trim(e[rb.value + 1..]);
      var off := if tail == [] then Some(0) else SignedHex(tail);
      if off.None? then None else Some((off.value, Trim(e[1..rb.value])))
  }

  /** All levels of a trimmed text, outermost offset first. */
  function PeelAll(e: string): Option<PointerExpr>
    decreases |e|
  {
    if e == [] then None
    else if !Chained(e) then Some(PointerExpr(e, []))
    else
      var level := Peel(e);
      if level.None? then None
      else
        var inner := PeelAll(level.value.1);
        if inner.None? then None else Some(inner.value.(offsets := [level.value.0] + inner.value.offsets))
  }

  function Parse(expr: string): Option<PointerExpr> {
    if Chained(Trim(expr)) then PeelAll(Trim(expr)) else None
  }

  method FindLastClose(s: string) returns (r: Option<nat>)
    ensures r == LastClose(s)
  {
    var i := |s|;
    assert s[..i] == s;
    while i > 0 && s[i - 1] != ']'
      invariant 0 <= i <= |s|
      invariant LastClose(s[..i]) == LastClose(s)
    {
      assert s[..i][..i - 1] == s[..i - 1];
      i := i - 1;
    }
    r := if i > 0 then Some(i - 1) else None;
  }

  method PeelLevel(e: string) returns (ok: bool, off: I64, inner: string)
    requires Chained(e)
    ensures ok == Peel(e).Some?
    ensures ok ==> Peel(e) == Some((off, inner)) && |inner| < |e|
  {
    hide Trim, SignedHex, LastClose;
    ok, off, inner := false, 0, "";
    var rb := FindLastClose(e);
    if rb.None? {
      return;
    }
    var tail := Trim(e[rb.value + 1..]);
    if tail != [] {
      ok, off := ParseSignedHexOffset(tail);
      if !ok {
        return;
      }
    }
    ok := true;
    inner := Trim(e[1..rb.value]);
  }

  /** What a parse yields when `done` levels have been peeled off and `e` is left. */
  function Resumed(done: seq<I64>, e: string): Option<PointerExpr> {
    if PeelAll(e).None? then None
    else Some(PointerExpr(PeelAll(e).value.base, done + PeelAll(e).value.offsets))
  }

  lemma ResumeOne(done: seq<I64>, e: string)
    requires Chained(e) && Peel(e).Some?
    ensures Resumed(done, e) == Resumed(done + [Peel(e).value.0], Peel(e).value.1)
  {
    hide Peel;
    var (off, inner) := Peel(e).value;
    if PeelAll(inner).Some? {
      assert done + ([off] + PeelAll(inner).value.offsets) == done + [off] + PeelAll(inner).value.offsets;
    }
  }

  method ParsePointerExpression(expr: string) returns (r: Option<PointerExpr>)
    ensures r == Parse(expr)
  {
    hide Trim, Peel;
    var e := Trim(expr);
    if e == [] || e[0] != '[' {
      return None;
    }
    var offsets: seq<I64> := [];
    assert Resumed(offsets, e) == Parse(expr) by {
      if PeelAll(e).Some? {
        assert [] + PeelAll(e).value.offsets == PeelAll(e).value.offsets;
      }
    }
    while e != [] && e[0] == '['
      invariant Resumed(offsets, e) == Parse(expr)
      decreases |e|
    {
      var ok, off, inner := PeelLevel(e);
      if !ok {
        return None;
      }
      ResumeOne(offsets, e);
      offsets := offsets + [off];
      e := inner;
    }
    if e == [] {
      return None;
    }
    assert offsets + [] == offsets;
    r := Some(PointerExpr(e, offsets));
  }

  // ----- reading back what was built -----

  /** A base the chain syntax can carry: trimmed, not empty, not itself a chain. */
  predicate PlainBase(base: string) {
    base != [] && Trimmed(base) && base[0] != '['
  }

  lemma HexIsPlain(m: nat)
    ensures forall i :: 0 <= i < |Digits(m, 16)| ==>
              var c := Digits(m, 16)[i]; c != ']' && !IsBlank(c) && c != 'x' && c != 'X'
  {
    DigitsForm(m, 16);
    var s := Digits(m, 16);
    forall i | 0 <= i < |s| ensures s[i] != ']' && !IsBlank(s[i]) && s[i] != 'x' && s[i] != 'X' {
      assert PrintedDigit(s[i], 16);
    }
  }

  lemma SuffixForm(off: I64)
    ensures var s := Suffix(off);
      && |s| >= 3 && s[0] == ']' && (off >= 0 ==> s[1] == '+') && (off < 0 ==> s[1] == '-')
      && s[2..] == Digits(Abs(off), 16)
      && forall i :: 0 < i < |s| ==> s[i] != ']' && !IsBlank(s[i])
  {
    HexIsPlain(Abs(off));
  }

  lemma SignedHexIs(u: string, digits: string, m: nat)
    requires |u| >= 2 && (u[0] == '+' || u[0] == '-') && u[1..] == digits && m < TWO_63
    requires IsNumeral(digits, 16) && WrapNumeral(digits, 16) == Wrap(m)
    requires |digits| >= 2 ==> digits[1] != 'x' && digits[1] != 'X'
    ensures SignedHex(u) == Some(if u[0] == '-' then -(m as int) else m)
  {
    hide IsNumeral, WrapNumeral;
    assert Wrap(m) == m;
  }

  lemma SignedHexOfSuffix(off: I64)
    requires off > -TWO_63
    ensures SignedHex(Suffix(off)[1..]) == Some(off)
  {
    var m := Abs(off);
    var digits := Digits(m, 16);
    SuffixForm(off);
    NumeralOfDigits(m, 16);
    WrapNumeralIs(digits, 16);
    HexIsPlain(m);
    hide DigitValue, IsDigit, IsNumeral, Numeral, WrapNumeral, Digits, Suffix, SignedHex, IsBlank, Wrap;
    var u := Suffix(off)[1..];
    assert u[1..] == digits;
    SignedHexIs(u, digits, m);
  }

  /** The last ']' of a level is the one its own suffix starts with. */
  lemma LastCloseBuilt(inner: string, off: I64)
    ensures LastClose("[" + inner + Suffix(off)) == Some(|inner| + 1)
  {
    SuffixForm(off);
    hide Suffix, LastClose, IsBlank;
    var suf := Suffix(off);
    var e := "[" + inner + suf;
    var rb := |inner| + 1;
    forall i | rb < i < |e| ensures e[i] != ']' {
      assert e[i] == suf[i - rb];
    }
    LastCloseIs(e, rb);
  }

  lemma LastCloseIs(s: string, at: nat)
    requires at < |s| && s[at] == ']' && forall i :: at < i < |s| ==> s[i] != ']'
    ensures LastClose(s) == Some(at)
  {
    hide LastClose;
  }

  lemma PeelBuilt(inner: string, off: I64)
    requires off > -TWO_63 && Trimmed(inner)
    ensures var e := "[" + inner + Suffix(off); Chained(e) && Peel(e) == Some((off, inner)) && Trimmed(e)
  {
    SuffixForm(off);
    SignedHexOfSuffix(off);
    LastCloseBuilt(inner, off);
    hide Suffix, SignedHex, LastClose, Trim;
    var suf := Suffix(off);
    var e := "[" + inner + suf;
    assert e[|inner| + 2..] == suf[1..];
    assert e[1..|inner| + 1] == inner;
    assert e[|e| - 1] == suf[|suf| - 1];
    TrimTrimmed(suf[1..]);
    TrimTrimmed(inner);
  }

  lemma {:induction false} PeelAllBuilt(base: string, offsets: seq<I64>)
    requires PlainBase(base) && Printable(offsets)
    ensures Trimmed(Build(base, offsets)) && Build(base, offsets) != []
    ensures PeelAll(Build(base, offsets)) == Some(PointerExpr(base, offsets))
  {
    hide Suffix, Peel, Trim, Trimmed;
    if offsets != [] {
      var inner := Build(base, offsets[1..]);
      assert Printable(offsets[1..]) by { assert forall i :: 0 <= i < |offsets[1..]| ==> offsets[1..][i] == offsets[i + 1]; }
      PeelAllBuilt(base, offsets[1..]);
      PeelBuilt(inner, offsets[0]);
      assert [offsets[0]] + offsets[1..] == offsets;
    }
  }

  /** Parsing a built chain gives back exactly its base and its offsets. */
  lemma RoundTrip(base: string, offsets: seq<I64>)
    requires PlainBase(base) && Printable(offsets) && offsets != []
    ensures Parse(Build(base, offsets)) == Some(PointerExpr(base, offsets))
  {
    PeelAllBuilt(base, offsets);
    TrimTrimmed(Build(base, offsets));
    PeelBuiltChained(base, offsets);
  }

  lemma PeelBuiltChained(base: string, offsets: seq<I64>)
    requires offsets != []
    ensures Chained(Build(base, offsets))
  {
  }

  /** Whatever parses has a base the syntax can carry, so printing it and parsing again changes
      nothing: printing is the canonical form of every accepted spelling. */
  lemma {:induction false} PeelAllPlain(e: string)
    requires Trimmed(e) && PeelAll(e).Some?
    ensures PlainBase(PeelAll(e).value.base)
    decreases |e|
  {
    if Chained(e) {
      PeelAllPlain(Peel(e).value.1);
    }
  }

  lemma Canonical(expr: string)
    requires Parse(expr).Some? && Printable(Parse(expr).value.offsets)
    ensures var pe := Parse(expr).value; Parse(Build(pe.base, pe.offsets)) == Some(pe)
  {
    var e := Trim(expr);
    PeelAllPlain(e);
    RoundTrip(Parse(expr).value.base, Parse(expr).value.offsets);
  }
}
