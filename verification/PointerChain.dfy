/** What a built pointer chain means to the expression parser: the walk that dereferences the base and
    adds the offsets from the last to the first. */
module PointerChain {
  import opened Text
  import opened ExpressionParser
  import PointerText

  ghost predicate NoBrackets(s: string) {
    forall i :: 0 <= i < |s| ==> s[i] != '[' && s[i] != ']'
  }

  /** Dereference what the inner chain evaluates to, then move by the offset; None as soon as a
      dereference fails. */
  function Walk(env: Env, base: Option<U64>, offsets: seq<I64>): Option<U64> {
    if offsets == [] then base
    else
      var inner := Walk(env, base, offsets[1..]);
      if inner.None? || Deref(env, inner.value).None? then None
      else Some(Wrap((Deref(env, inner.value).value as int) + offsets[0]))
  }

  // ----- offsets -----

  /** How the parser reads the printed magnitude of an offset. */
  function OffsetRead(env: Env, m: nat): U64 {
    ResolveToken(env, Digits(m, 16))
  }

  /** A one-letter magnitude (10 to 15) is a name first: it is misread exactly when a symbol or a
      module of that name exists and stands for another number. */
  predicate Misread(env: Env, m: nat) {
    10 <= m < 16 &&
    var letter := Digits(m, 16);
    var bound := ModuleBase(Modules(env), letter);
    if Lookup(env, letter) != 0 then Lookup(env, letter) != m else bound.Some? && bound.value != m
  }

  ghost predicate NoneMisread(env: Env, offsets: seq<I64>) {
    forall off :: off in offsets ==> !Misread(env, PointerText.Abs(off))
  }

  lemma LetterForm(m: nat)
    requires m < 16
    ensures |Digits(m, 16)| == 1 && IsNumeral(Digits(m, 16), 16)
    ensures IsNumeral(Digits(m, 16), 10) <==> m < 10
  {
    DigitsForm(m, 16);
    assert Digits(m, 16) == [DigitChar(m)];
    assert IsNumeral(Digits(m, 16), 10) ==> IsDigit(Digits(m, 16)[0], 10);
  }

  lemma LongForm(m: nat)
    requires m >= 16
    ensures |Digits(m, 16)| >= 2
  {
    DivShrinks(m, 16);
  }

  lemma HexTokenValue(m: nat)
    requires m < TWO_64
    ensures IsNumeral(Digits(m, 16), 16) && HexOrZero(Digits(m, 16)) == m
  {
    NumeralOfDigits(m, 16);
    StoullOfNumeral(Digits(m, 16), 16);
  }

  lemma HexTokenForm(m: nat)
    ensures var s := Digits(m, 16);
      && s != [] && s[0] != '#' && (|s| >= 2 ==> s[1] != 'x' && s[1] != 'X')
      && (m >= 16 <==> |s| >= 2) && (m < 16 ==> (IsNumeral(s, 10) <==> m < 10))
  {
    DigitsForm(m, 16);
    PointerText.HexIsPlain(m);
    assert PrintedDigit(Digits(m, 16)[0], 16);
    if m < 16 {
      LetterForm(m);
    } else {
      LongForm(m);
    }
  }

  /** An offset is read as itself exactly when it is not misread. */
  lemma OffsetReadIff(env: Env, m: nat)
    requires m < TWO_64
    ensures OffsetRead(env, m) == m <==> !Misread(env, m)
  {
    hide Digits, IsNumeral, HexOrZero, ModuleBase, Lookup, Modules, Stoull;
    HexTokenValue(m);
    HexTokenForm(m);
  }

  /** A trimmed text that is a single term without brackets is just that token. */
  lemma SingleTerm(env: Env, s: string, depth: nat)
    requires depth <= MAX_DEPTH && s != [] && Trim(s) == s && s[0] != '[' && '[' !in s
    requires NextOperator(Modules(env), s, 0) == None
    ensures ParseAt(env, s, depth) == Some(Combine(0, false, ResolveToken(env, s)))
  {
    hide Trim, NextOperator, ResolveToken, Combine, MatchClose, Displace;
    assert s[0..|s|] == s;
    assert TermEnd(Modules(env), s, 0) == |s|;
    assert TermValue(env, s, depth) == ResolveToken(env, s);
    hide TermValue, TermEnd;
    assert Terms(env, s, 0, 0, false, depth) == Combine(0, false, ResolveToken(env, s));
  }

  /** The printed magnitude, parsed as an expression of its own at any depth. */
  lemma OffsetParsed(env: Env, m: nat, depth: nat)
    requires depth <= MAX_DEPTH && m < TWO_64
    ensures ParseAt(env, Digits(m, 16), depth) == Some(OffsetRead(env, m))
  {
    hide ParseAt, DigitValue, IsDigit, ResolveToken;
    var s := Digits(m, 16);
    PlainDigits(m);
    assert PlainChar(s[0]) && PlainChar(s[|s| - 1]);
    TrimTrimmed(s);
    OneTerm(Modules(env), s);
    forall i | 0 <= i < |s| ensures s[i] != '[' { assert PlainChar(s[i]); }
    ResolveBounded(env, m);
    SingleTerm(env, s, depth);
  }

  lemma ResolveBounded(env: Env, m: nat)
    ensures Combine(0, false, OffsetRead(env, m)) == OffsetRead(env, m)
  {
    hide OffsetRead;
  }

  predicate PlainChar(c: char) {
    !IsOperator(c) && c != '[' && c != ']' && !IsBlank(c)
  }

  lemma PlainDigits(m: nat)
    ensures forall i :: 0 <= i < |Digits(m, 16)| ==> PlainChar(Digits(m, 16)[i])
  {
    DigitsForm(m, 16);
    var s := Digits(m, 16);
    forall i | 0 <= i < |s| ensures PlainChar(s[i]) {
      assert PrintedDigit(s[i], 16);
    }
  }

  /** A text without operators and brackets is one term. */
  lemma OneTerm(mods: seq<Module>, s: string)
    requires s != [] && forall i :: 0 <= i < |s| ==> PlainChar(s[i])
    ensures NextOperator(mods, s, 0) == None
  {
    assert PlainChar(s[0]);
    var m := ModuleLength(mods, s, 0, 0);
    assert 0 < m < |s| ==> PlainChar(s[m]);
    NoOperator(s, 1, 0);
  }

  lemma NoOperator(s: string, i: nat, bd: nat)
    requires forall j :: 0 <= j < |s| ==> PlainChar(s[j])
    ensures ScanOperator(s, i, bd) == None
    decreases |s| - i
  {
  }

  // ----- brackets -----

  lemma {:induction false} SkipPlain(s: string, i: nat, k: nat, d: int)
    requires i <= k <= |s| && forall j :: i <= j < k ==> s[j] != '[' && s[j] != ']'
    ensures MatchClose(s, i, d) == MatchClose(s, k, d)
    decreases k - i
  {
    if i < k {
      SkipPlain(s, i + 1, k, d);
    }
  }

  lemma SuffixBrackets(off: I64)
    ensures var t := PointerText.Suffix(off);
      |t| >= 3 && t[0] == ']' && IsOperator(t[1]) && forall j :: 0 < j < |t| ==> t[j] != '[' && t[j] != ']'
  {
    PointerText.SuffixForm(off);
    var m := PointerText.Abs(off);
    PlainDigits(m);
    var t := PointerText.Suffix(off);
    forall j | 2 <= j < |t| ensures t[j] != '[' {
      assert t[j] == t[2..][j - 2] == Digits(m, 16)[j - 2];
      assert PlainChar(t[j]);
    }
  }

  /** Crossing one level, its inside having been crossed. */
  lemma CrossLevel(s: string, i: nat, inner: string, t: string, d: int)
    requires d >= 1 && At(s, "[" + inner + t, i) && t != [] && t[0] == ']'
    requires forall j :: 0 < j < |t| ==> t[j] != '[' && t[j] != ']'
    requires MatchClose(s, i + 1, d + 1) == MatchClose(s, i + 1 + |inner|, d + 1)
    ensures MatchClose(s, i, d) == MatchClose(s, i + 1 + |inner| + |t|, d)
  {
    var e := "[" + inner + t;
    var c := i + 1 + |inner|;
    var k := c + |t|;
    assert s[i] == s[i..k][0] == '[';
    forall j | c <= j < k ensures s[j] == t[j - c] {
      assert s[j] == s[i..k][j - i] == e[j - i];
    }
    SkipPlain(s, c + 1, k, d);
  }

  lemma InnerAt(s: string, i: nat, inner: string, t: string)
    requires At(s, "[" + inner + t, i)
    ensures At(s, inner, i + 1)
  {
    var e := "[" + inner + t;
    assert e[1..1 + |inner|] == inner;
    assert s[i + 1..i + 1 + |inner|] == s[i..i + |e|][1..1 + |inner|];
  }

  /** A built chain inside other brackets is crossed without closing any of them. */
  lemma {:induction false} CrossChain(base: string, offsets: seq<I64>, s: string, i: nat, d: int)
    requires NoBrackets(base) && d >= 1 && At(s, PointerText.Build(base, offsets), i)
    ensures MatchClose(s, i, d) == MatchClose(s, i + |PointerText.Build(base, offsets)|, d)
  {
    var e := PointerText.Build(base, offsets);
    if offsets == [] {
      forall j | i <= j < i + |e| ensures s[j] != '[' && s[j] != ']' {
        assert s[j] == s[i..i + |e|][j - i];
      }
      SkipPlain(s, i, i + |e|, d);
    } else {
      var inner := PointerText.Build(base, offsets[1..]);
      var t := PointerText.Suffix(offsets[0]);
      SuffixBrackets(offsets[0]);
      assert e == "[" + inner + t;
      hide PointerText.Build, PointerText.Suffix, NoBrackets, MatchClose;
      InnerAt(s, i, inner, t);
      CrossChain(base, offsets[1..], s, i + 1, d + 1);
      CrossLevel(s, i, inner, t, d);
      assert i + |e| == i + 1 + |inner| + |t|;
    }
  }

  /** The bracket that opens a chain is closed where its own suffix starts. */
  lemma ChainClose(base: string, offsets: seq<I64>)
    requires NoBrackets(base) && offsets != []
    ensures var e := PointerText.Build(base, offsets);
      var inner := PointerText.Build(base, offsets[1..]);
      MatchClose(e, 0, 0) == Some(|inner| + 1)
  {
    var e := PointerText.Build(base, offsets);
    var inner := PointerText.Build(base, offsets[1..]);
    SuffixBrackets(offsets[0]);
    var t := PointerText.Suffix(offsets[0]);
    hide PointerText.Suffix;
    assert e == "[" + inner + t;
    hide PointerText.Build;
    assert At(e, inner, 1) by { assert e[1..1 + |inner|] == inner; }
    CrossChain(base, offsets[1..], e, 1, 1);
    assert e[|inner| + 1] == ']';
  }

  // ----- the base -----

  /** Without brackets the depth does not matter. */
  lemma {:induction false} TermsPlain(env: Env, s: string, pos: nat, result: U64, subtract: bool, d: nat, d': nat)
    requires NoBrackets(s) && pos <= |s| && d <= MAX_DEPTH && d' <= MAX_DEPTH
    ensures Terms(env, s, pos, result, subtract, d) == Terms(env, s, pos, result, subtract, d')
    decreases |s| - pos
  {
    hide TermValue, TermEnd, Trim, Combine, Modules, NoBrackets;
    if pos < |s| {
      var end := TermEnd(Modules(env), s, pos);
      var token := Trim(s[pos..end]);
      TrimPart(s[pos..end]);
      NoBracketIn(s, pos, end);
      SameTermValue(env, token, d, d');
      if end < |s| {
        var result' := if token == [] then result else Combine(result, subtract, TermValue(env, token, d));
        TermsPlain(env, s, end + 1, result', s[end] == '-', d, d');
      }
    }
  }

  lemma NoBracketIn(s: string, i: nat, j: nat)
    requires NoBrackets(s) && i <= j <= |s|
    ensures '[' !in s[i..j]
  {
  }

  lemma SameTermValue(env: Env, token: string, d: nat, d': nat)
    requires '[' !in token && d <= MAX_DEPTH && d' <= MAX_DEPTH
    ensures TermValue(env, token, d) == TermValue(env, token, d')
  {
  }

  lemma SkipPart(s: string)
    ensures forall c :: c in SkipBlanks(s) ==> c in s
  {
  }

  lemma TrimPart(s: string)
    ensures forall c :: c in Trim(s) ==> c in s
  {
    SkipPart(s);
  }

  lemma BaseAnyDepth(env: Env, base: string, d: nat)
    requires NoBrackets(base) && d <= MAX_DEPTH
    ensures ParseAt(env, base, d) == Parse(env, base)
  {
    TrimPart(base);
    var s := Trim(base);
    forall i | 0 <= i < |s| ensures s[i] != '[' && s[i] != ']' {
      assert s[i] in s;
    }
    if s != [] {
      TermsPlain(env, s, 0, 0, false, d, 0);
    }
  }

  // ----- the chain -----

  /** The walk with every offset as the parser reads it. */
  function WalkRead(env: Env, base: Option<U64>, offsets: seq<I64>): Option<U64> {
    if offsets == [] then base else MoveRead(env, WalkRead(env, base, offsets[1..]), offsets[0])
  }

  function MoveRead(env: Env, inner: Option<U64>, off: I64): Option<U64> {
    if inner.None? || Deref(env, inner.value).None? then None
    else Some(Combine(Deref(env, inner.value).value, off < 0, OffsetRead(env, PointerText.Abs(off))))
  }

  /** Parsing one bracket level, its place and its trail given. */
  lemma ParseLevel(env: Env, e: string, c: nat, depth: nat)
    requires e != [] && Trim(e) == e && e[0] == '[' && MatchClose(e, 0, 0) == Some(c) && depth < MAX_DEPTH
    ensures var inner := ParseAt(env, e[1..c], depth + 1);
      ParseAt(env, e, depth) ==
        if inner.None? || Deref(env, inner.value).None? then None
        else Displace(env, Deref(env, inner.value).value, Trim(e[c + 1..]), depth)
  {
    hide Trim, MatchClose, Displace, Terms;
  }

  lemma ParseAtCap(env: Env, e: string)
    requires e != [] && Trim(e) == e && e[0] == '['
    ensures ParseAt(env, e, MAX_DEPTH) == None
  {
    hide Trim, MatchClose, Displace, Terms;
  }

  lemma DisplaceBy(env: Env, ptr: U64, off: I64, depth: nat)
    requires depth < MAX_DEPTH
    ensures Displace(env, ptr, PointerText.Suffix(off)[1..], depth)
              == Some(Combine(ptr, off < 0, OffsetRead(env, PointerText.Abs(off))))
  {
    hide PointerText.Suffix, Digits, OffsetRead, ParseAt, Combine, IsBlank;
    PointerText.SuffixForm(off);
    var rest := PointerText.Suffix(off)[1..];
    OffsetParsed(env, PointerText.Abs(off), depth + 1);
    assert rest[1..] == Digits(PointerText.Abs(off), 16);
  }

  lemma LevelParts(body: string, t: string)
    requires t != []
    ensures var e := "[" + body + t; e[1..|body| + 1] == body && e[|body| + 2..] == t[1..]
  {
  }

  /** One bracket level of a chain, given what its inside evaluates to. */
  lemma OneLevel(env: Env, base: string, offsets: seq<I64>, depth: nat)
    requires NoBrackets(base) && offsets != [] && depth < MAX_DEPTH
    ensures ParseAt(env, PointerText.Build(base, offsets), depth)
              == MoveRead(env, ParseAt(env, PointerText.Build(base, offsets[1..]), depth + 1), offsets[0])
  {
    hide *;
    var e := PointerText.Build(base, offsets);
    var body := PointerText.Build(base, offsets[1..]);
    var t := PointerText.Suffix(offsets[0]);
    BuildIs(base, offsets);
    ChainClose(base, offsets);
    ChainStart(base, offsets);
    PointerText.SuffixForm(offsets[0]);
    LevelParts(body, t);
    TrailTrims(offsets[0]);
    var c := |body| + 1;
    ParseLevel(env, e, c, depth);
    var inner := ParseAt(env, body, depth + 1);
    MoveIs(env, inner, offsets[0]);
    if inner.Some? && Deref(env, inner.value).Some? {
      DisplaceBy(env, Deref(env, inner.value).value, offsets[0], depth);
    }
  }

  lemma BuildIs(base: string, offsets: seq<I64>)
    requires offsets != []
    ensures PointerText.Build(base, offsets) == "[" + PointerText.Build(base, offsets[1..]) + PointerText.Suffix(offsets[0])
  {
    hide PointerText.Suffix;
  }

  lemma TrailTrims(off: I64)
    ensures PointerText.Suffix(off) != [] && Trim(PointerText.Suffix(off)[1..]) == PointerText.Suffix(off)[1..]
  {
    PointerText.SuffixForm(off);
    hide PointerText.Suffix, Trim;
    TrimTrimmed(PointerText.Suffix(off)[1..]);
  }

  lemma MoveIs(env: Env, inner: Option<U64>, off: I64)
    ensures MoveRead(env, inner, off)
         == if inner.None? || Deref(env, inner.value).None? then None
            else Some(Combine(Deref(env, inner.value).value, off < 0, OffsetRead(env, PointerText.Abs(off))))
  {
  }

  lemma {:induction false} ChainAt(env: Env, base: string, offsets: seq<I64>, depth: nat)
    requires NoBrackets(base) && depth + |offsets| <= MAX_DEPTH
    ensures ParseAt(env, PointerText.Build(base, offsets), depth) == WalkRead(env, Parse(env, base), offsets)
    decreases |offsets|
  {
    hide NoBrackets, ParseAt, Parse, MoveRead;
    if offsets == [] {
      BaseAnyDepth(env, base, depth);
    } else {
      OneLevel(env, base, offsets, depth);
      hide PointerText.Build;
      ChainAt(env, base, offsets[1..], depth + 1);
    }
  }

  lemma {:induction false} TooDeep(env: Env, base: string, offsets: seq<I64>, depth: nat)
    requires NoBrackets(base) && depth <= MAX_DEPTH < depth + |offsets|
    ensures ParseAt(env, PointerText.Build(base, offsets), depth) == None
    decreases |offsets|
  {
    hide ParseAt, Trim, PointerText.Build, NoBrackets, MoveRead;
    if depth < MAX_DEPTH {
      OneLevel(env, base, offsets, depth);
      TooDeep(env, base, offsets[1..], depth + 1);
      MoveReadNone(env, None, offsets[0]);
    } else {
      ChainStart(base, offsets);
      ParseAtCap(env, PointerText.Build(base, offsets));
    }
  }

  lemma ChainStart(base: string, offsets: seq<I64>)
    requires offsets != []
    ensures var e := PointerText.Build(base, offsets); e != [] && Trim(e) == e && e[0] == '['
  {
    var e := PointerText.Build(base, offsets);
    var t := PointerText.Suffix(offsets[0]);
    PointerText.SuffixForm(offsets[0]);
    assert e[|e| - 1] == t[|t| - 1];
    TrimTrimmed(e);
  }

  /** The exact condition under which an offset is added as itself. */
  lemma MoveReadIff(env: Env, inner: Option<U64>, off: I64)
    requires inner.Some? && Deref(env, inner.value).Some?
    ensures (MoveRead(env, inner, off) == Some(Wrap((Deref(env, inner.value).value as int) + off)))
              <==> !Misread(env, PointerText.Abs(off))
  {
    var m := PointerText.Abs(off);
    OffsetReadIff(env, m);
    CombineIff(Deref(env, inner.value).value, OffsetRead(env, m), off);
    hide OffsetRead, Misread, Combine, Wrap, PointerText.Abs;
  }

  lemma CombineIff(ptr: U64, r: U64, off: I64)
    ensures (Combine(ptr, off < 0, r) == Wrap((ptr as int) + off)) <==> r == PointerText.Abs(off)
  {
    var x: int := ptr;
    var m := PointerText.Abs(off);
    if off >= 0 {
      SameResidue(x, r, m);
    } else {
      SameResidue(x - r - m, m, r);
      assert x - r - m + m == x - r && x - r - m + r == x + off;
    }
  }

  lemma SameResidue(x: int, a: U64, b: U64)
    ensures Wrap(x + a) == Wrap(x + b) <==> a == b
  {
    if Wrap(x + a) == Wrap(x + b) {
      var q, q' := (x + a) / TWO_64, (x + b) / TWO_64;
      assert (q - q') * TWO_64 == a - b;
    }
  }

  lemma {:induction false} ReadsAreOffsets(env: Env, base: Option<U64>, offsets: seq<I64>)
    requires NoneMisread(env, offsets)
    ensures WalkRead(env, base, offsets) == Walk(env, base, offsets)
  {
    hide Misread, MoveRead, NoneMisread, Parse;
    if offsets != [] {
      NoneMisreadTail(env, offsets);
      ReadsAreOffsets(env, base, offsets[1..]);
      var inner := Walk(env, base, offsets[1..]);
      if inner.Some? && Deref(env, inner.value).Some? {
        MoveReadIff(env, inner, offsets[0]);
      } else {
        MoveReadNone(env, inner, offsets[0]);
      }
    }
  }

  lemma MoveReadNone(env: Env, inner: Option<U64>, off: I64)
    requires inner.None? || Deref(env, inner.value).None?
    ensures MoveRead(env, inner, off) == None
  {
  }

  lemma NoneMisreadTail(env: Env, offsets: seq<I64>)
    requires NoneMisread(env, offsets) && offsets != []
    ensures NoneMisread(env, offsets[1..]) && !Misread(env, PointerText.Abs(offsets[0]))
  {
    hide Misread;
    assert forall off :: off in offsets[1..] ==> off in offsets;
    assert offsets[0] in offsets;
  }

  /** A chain of at most 64 offsets over a base without brackets evaluates to its walk, whatever the
      base resolves to, provided no offset is shadowed by a one-letter name; it has no value exactly
      when the base is blank or some dereference fails. */
  lemma ChainMeaning(env: Env, base: string, offsets: seq<I64>)
    requires NoBrackets(base) && |offsets| <= MAX_DEPTH
    requires NoneMisread(env, offsets)
    ensures Parse(env, PointerText.Build(base, offsets)) == Walk(env, Parse(env, base), offsets)
  {
    ChainAt(env, base, offsets, 0);
    ReadsAreOffsets(env, Parse(env, base), offsets);
  }

  /** One offset more than the cap and the chain has no value at all. */
  lemma ChainTooDeep(env: Env, base: string, offsets: seq<I64>)
    requires NoBrackets(base) && |offsets| > MAX_DEPTH
    ensures Parse(env, PointerText.Build(base, offsets)) == None
  {
    TooDeep(env, base, offsets, 0);
  }

  /** The outermost offset is added as itself exactly when no one-letter name misreads it. */
  lemma OutermostOffsetIff(env: Env, base: string, offsets: seq<I64>)
    requires NoBrackets(base) && 0 < |offsets| <= MAX_DEPTH
    requires NoneMisread(env, offsets[1..])
    requires Walk(env, Parse(env, base), offsets).Some?
    ensures (Parse(env, PointerText.Build(base, offsets)) == Walk(env, Parse(env, base), offsets))
              <==> !Misread(env, PointerText.Abs(offsets[0]))
  {
    hide Misread, Parse, PointerText.Build, NoBrackets, MoveRead, NoneMisread, ParseAt, Wrap, PointerText.Abs, Deref;
    var b := Parse(env, base);
    var e := PointerText.Build(base, offsets);
    ChainAt(env, base, offsets, 0);
    ParseIsAt(env, e);
    ReadsAreOffsets(env, b, offsets[1..]);
    var inner := Walk(env, b, offsets[1..]);
    assert Walk(env, b, offsets) == Some(Wrap((Deref(env, inner.value).value as int) + offsets[0]));
    MoveReadIff(env, inner, offsets[0]);
  }

  /** A symbol named by the letter a: the offset 10 is read as its address, and a chain with that offset is not its
      walk. */
  lemma LetterIsSymbol(env: Env, base: string)
    requires "a" in env.symbols && env.symbols["a"] != 0 && env.symbols["a"] != 10
    requires NoBrackets(base) && Parse(env, base).Some? && Deref(env, Parse(env, base).value).Some?
    ensures OffsetRead(env, 10) == env.symbols["a"]
    ensures Parse(env, PointerText.Build(base, [10])) != Walk(env, Parse(env, base), [10])
  {
    hide Parse, PointerText.Build, NoBrackets, ParseAt, Wrap, Deref;
    TenIsA();
    assert Misread(env, 10);
    assert [10 as int][1..] == [];
    assert Walk(env, Parse(env, base), []) == Parse(env, base);
    OutermostOffsetIff(env, base, [10]);
    TenResolves(env);
  }

  lemma TenIsA()
    ensures Digits(10, 16) == "a"
  {
  }

  lemma TenResolves(env: Env)
    requires "a" in env.symbols && env.symbols["a"] != 0
    ensures OffsetRead(env, 10) == env.symbols["a"]
  {
    TenIsA();
    assert !IsDigit('a', 10);
    assert !IsNumeral("a", 10) by { assert "a"[0] == 'a'; }
  }

  lemma ParseIsAt(env: Env, e: string)
    ensures Parse(env, e) == ParseAt(env, e, 0)
  {
  }
}
