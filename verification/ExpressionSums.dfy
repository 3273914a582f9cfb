/** Sums in address expressions: what a text of terms with plus and minus signs between them evaluates to. */
module ExpressionSums {
  import opened Text
  import opened ExpressionParser

  // ----- a sum and its text -----

  datatype Term = Term(negative: bool, text: string)

  /** The terms after the first, each behind its sign. */
  function Tail(ts: seq<Term>): string {
    if ts == [] then [] else [if ts[0].negative then '-' else '+'] + ts[0].text + Tail(ts[1..])
  }

  /** What a term without brackets stands for; a blank one for nothing. */
  function NumberOf(env: Env, text: string): U64 {
    if Trim(text) == [] then 0 else ResolveToken(env, Trim(text))
  }

  function Total(env: Env, ts: seq<Term>): int {
    if ts == [] then 0
    else (if ts[0].negative then -(NumberOf(env, ts[0].text) as int) else NumberOf(env, ts[0].text)) + Total(env, ts[1..])
  }

  // ----- module names -----

  /** The name stands at `pos` as a whole term. */
  predicate Stands(s: string, name: string, pos: nat) {
    name != [] && At(s, name, pos) && (pos + |name| == |s| || IsOperator(s[pos + |name|]))
  }

  /** The longest module name that stands there, or the length to beat. */
  lemma {:induction false} LongestModule(mods: seq<Module>, s: string, pos: nat, best: nat)
    requires pos + best <= |s|
    ensures var n := ModuleLength(mods, s, pos, best);
            && (forall k :: 0 <= k < |mods| && Stands(s, mods[k].name, pos) ==> |mods[k].name| <= n)
            && (n == best || exists k :: 0 <= k < |mods| && Stands(s, mods[k].name, pos) && |mods[k].name| == n)
    decreases |mods|
  {
    hide IsOperator;
    if mods != [] {
      var name := mods[0].name;
      var next := if Stands(s, name, pos) && |name| > best then |name| else best;
      assert ModuleLength(mods, s, pos, best) == ModuleLength(mods[1..], s, pos, next);
      LongestModule(mods[1..], s, pos, next);
      assert forall k :: 0 < k < |mods| ==> mods[k] == mods[1..][k - 1];
      var n := ModuleLength(mods, s, pos, best);
      if n != next {
        var k :| 0 <= k < |mods| - 1 && Stands(s, mods[1..][k].name, pos) && |mods[1..][k].name| == n;
        assert mods[k + 1] == mods[1..][k];
      }
    }
  }

  // ----- where a term ends -----

  /** Neither operators nor brackets. */
  predicate Plain(t: string) {
    t != [] && forall i :: 0 <= i < |t| ==> !IsOperator(t[i]) && t[i] != '[' && t[i] != ']'
  }

  predicate EndsInX(t: string) {
    t != [] && (t[|t| - 1] == 'x' || t[|t| - 1] == 'X')
  }

  predicate IsModule(mods: seq<Module>, t: string) {
    exists k :: 0 <= k < |mods| && mods[k].name == t
  }

  /** No module name runs on past the term, and an operator behind it is not taken for part of a hexadecimal mark:
      that is so of one after an x, unless the term is a module name or the one character at the start. */
  predicate Separates(mods: seq<Module>, s: string, pos: nat, t: string) {
    && (forall k :: 0 <= k < |mods| && Stands(s, mods[k].name, pos) ==> |mods[k].name| <= |t|)
    && (IsModule(mods, t) || pos + |t| == |s| || pos + |t| <= 1 || !EndsInX(t))
  }

  lemma {:induction false} ScanPlain(s: string, i: nat, end: nat)
    requires i <= end <= |s| && forall j :: i <= j < end ==> !IsOperator(s[j]) && s[j] != '[' && s[j] != ']'
    ensures ScanOperator(s, i, 0) == ScanOperator(s, end, 0)
    decreases end - i
  {
    if i < end {
      ScanPlain(s, i + 1, end);
    }
  }

  lemma CharsOf(s: string, t: string, pos: nat)
    requires At(s, t, pos)
    ensures forall j :: pos <= j < pos + |t| ==> s[j] == t[j - pos]
  {
    forall j | pos <= j < pos + |t| ensures s[j] == t[j - pos] {
      assert s[j] == s[pos..pos + |t|][j - pos];
    }
  }

  /** A term, plain or a module's name, ends where the parser cuts it exactly when it separates. */
  lemma TermEndIff(mods: seq<Module>, s: string, pos: nat, t: string)
    requires t != [] && At(s, t, pos) && (Plain(t) || IsModule(mods, t))
    requires pos + |t| == |s| || IsOperator(s[pos + |t|])
    ensures TermEnd(mods, s, pos) == pos + |t| <==> Separates(mods, s, pos, t)
  {
    hide ModuleLength, ScanOperator;
    var end := pos + |t|;
    var m := ModuleLength(mods, s, pos, 0);
    LongestModule(mods, s, pos, 0);
    if IsModule(mods, t) {
      var k :| 0 <= k < |mods| && mods[k].name == t;
      assert Stands(s, mods[k].name, pos);
    } else {
      CharsOf(s, t, pos);
      NoShorterModule(mods, s, pos, t);
      if m == 0 {
        ScanPlain(s, pos + 1, end);
        ScanHere(s, end);
      }
    }
  }

  /** Inside a plain term no module name can end. */
  lemma NoShorterModule(mods: seq<Module>, s: string, pos: nat, t: string)
    requires At(s, t, pos) && Plain(t)
    ensures forall k :: 0 <= k < |mods| && Stands(s, mods[k].name, pos) ==> |mods[k].name| >= |t|
    ensures forall k :: 0 <= k < |mods| && Stands(s, mods[k].name, pos) && |mods[k].name| == |t| ==> mods[k].name == t
  {
    hide IsOperator;
    CharsOf(s, t, pos);
    assert forall j :: pos <= j < pos + |t| ==> !IsOperator(s[j]);
  }

  /** Scanning at an operator outside brackets stops there, unless an x is before it. */
  lemma ScanHere(s: string, i: nat)
    requires 0 < i <= |s| && (i == |s| || IsOperator(s[i]))
    ensures i == |s| ==> ScanOperator(s, i, 0) == None
    ensures i < |s| ==> (ScanOperator(s, i, 0) == Some(i) <==> !(i > 1 && (s[i - 1] == 'x' || s[i - 1] == 'X')))
  {
    assert i < |s| ==> ScanOperator(s, i + 1, 0).Some? ==> ScanOperator(s, i + 1, 0).value > i;
  }

  // ----- the sum -----

  /** Each term, from the one at `pos` on, is a plain one or a module's name, and separates. */
  ghost predicate AllSeparate(mods: seq<Module>, s: string, pos: nat, t: string, ts: seq<Term>)
    decreases |ts|
  {
    && t != [] && (Plain(t) || IsModule(mods, t)) && '[' !in t && Separates(mods, s, pos, t)
    && (ts == [] || AllSeparate(mods, s, pos + |t| + 1, ts[0].text, ts[1..]))
  }

  lemma WrapPlus(x: int, y: int)
    ensures Wrap(Wrap(x) + y) == Wrap(x + y)
  {
    var q := x / TWO_64;
    assert x == q * TWO_64 + Wrap(x);
    WrapAddMultiple(Wrap(x) + y, q);
    assert x + y == (Wrap(x) + y) + q * TWO_64;
  }

  lemma CombineIs(x: int, negative: bool, v: U64)
    ensures Combine(Wrap(x), negative, v) == Wrap(x + if negative then -(v as int) else v)
  {
    WrapPlus(x, if negative then -(v as int) else v);
  }

  /** One term and what is behind it. */
  lemma FirstOfTail(s: string, pos: nat, t: string, ts: seq<Term>)
    requires pos <= |s| && s[pos..] == t + Tail(ts)
    ensures At(s, t, pos) && (pos + |t| == |s| <==> ts == [])
    ensures ts != [] ==>
              && s[pos + |t|] == (if ts[0].negative then '-' else '+')
              && pos + |t| + 1 <= |s| && s[pos + |t| + 1..] == ts[0].text + Tail(ts[1..])
  {
    assert s[pos..][..|t|] == t;
    assert s[pos..][|t|..] == Tail(ts);
    assert s[pos..][|t|..] == s[pos + |t|..];
    if ts != [] {
      var tail := Tail(ts);
      assert tail[1..] == ts[0].text + Tail(ts[1..]);
      assert s[pos + |t|..][1..] == s[pos + |t| + 1..];
    }
  }

  /** The sum so far after one more term. */
  function After(env: Env, result: U64, subtract: bool, t: string): U64 {
    if Trim(t) == [] then result else Combine(result, subtract, NumberOf(env, t))
  }

  lemma AfterIs(env: Env, x: int, negative: bool, t: string)
    ensures After(env, Wrap(x), negative, t)
         == Wrap(x + if negative then -(NumberOf(env, t) as int) else NumberOf(env, t))
  {
    hide Trim, Combine, Wrap, ResolveToken;
    CombineIs(x, negative, NumberOf(env, t));
  }

  lemma TermsStep(env: Env, s: string, pos: nat, result: U64, subtract: bool, t: string, depth: nat)
    requires t != [] && At(s, t, pos) && '[' !in t && depth <= MAX_DEPTH
    requires TermEnd(Modules(env), s, pos) == pos + |t|
    ensures Terms(env, s, pos, result, subtract, depth)
         == if pos + |t| >= |s| then After(env, result, subtract, t)
            else Terms(env, s, pos + |t| + 1, After(env, result, subtract, t), s[pos + |t|] == '-', depth)
  {
    hide Combine, ResolveToken, TermEnd, ParseAt;
    TrimSubset(t);
  }

  lemma {:induction false} TrimSubset(t: string)
    requires '[' !in t
    ensures '[' !in Trim(t)
  {
    SkipSubset(t);
    DropSubset(SkipBlanks(t));
  }

  lemma {:induction false} SkipSubset(t: string)
    requires '[' !in t
    ensures '[' !in SkipBlanks(t)
    decreases |t|
  {
    if t != [] && IsBlank(t[0]) {
      SkipSubset(t[1..]);
    }
  }

  lemma {:induction false} DropSubset(t: string)
    requires '[' !in t
    ensures '[' !in DropBlanks(t)
    decreases |t|
  {
    if t != [] && IsBlank(t[|t| - 1]) {
      DropSubset(t[..|t| - 1]);
    }
  }

  lemma {:induction false} TermsAreSummed(env: Env, s: string, pos: nat, x: int, negative: bool, t: string, ts: seq<Term>,
                                          depth: nat)
    requires pos <= |s| && s[pos..] == t + Tail(ts) && depth <= MAX_DEPTH
    requires AllSeparate(Modules(env), s, pos, t, ts)
    ensures Terms(env, s, pos, Wrap(x), negative, depth)
         == Wrap(x + (if negative then -(NumberOf(env, t) as int) else NumberOf(env, t)) + Total(env, ts))
    decreases |ts|
  {
    hide Terms, NumberOf, After, Wrap, TermEnd, Separates, Plain, IsModule;
    FirstOfTail(s, pos, t, ts);
    assert pos + |t| == |s| || IsOperator(s[pos + |t|]);
    TermEndIff(Modules(env), s, pos, t);
    TermsStep(env, s, pos, Wrap(x), negative, t, depth);
    AfterIs(env, x, negative, t);
    var x' := x + if negative then -(NumberOf(env, t) as int) else NumberOf(env, t);
    if ts != [] {
      TermsAreSummed(env, s, pos + |t| + 1, x', ts[0].negative, ts[0].text, ts[1..], depth);
    }
  }

  /** A sum evaluates to the signed sum of what its terms stand for, modulo 2^64. */
  lemma SumIsTotal(env: Env, first: string, ts: seq<Term>, depth: nat)
    requires var s := first + Tail(ts);
             s != [] && Trim(s) == s && depth <= MAX_DEPTH && AllSeparate(Modules(env), s, 0, first, ts)
    ensures ParseAt(env, first + Tail(ts), depth) == Some(Wrap(NumberOf(env, first) + Total(env, ts)))
  {
    hide *;
    var s := first + Tail(ts);
    assert s[0..] == s;
    StartsPlain(Modules(env), s, first, ts);
    assert s[0] == first[0];
    TermsAreSummed(env, s, 0, 0, false, first, ts, depth);
    WrapZero();
    SumAt(env, s, depth);
  }

  lemma WrapZero()
    ensures Wrap(0) == 0
  {
  }

  lemma SumAt(env: Env, s: string, depth: nat)
    requires s != [] && Trim(s) == s && s[0] != '[' && depth <= MAX_DEPTH
    ensures ParseAt(env, s, depth) == Some(Terms(env, s, 0, 0, false, depth))
  {
    hide Trim, Terms;
  }

  lemma StartsPlain(mods: seq<Module>, s: string, t: string, ts: seq<Term>)
    requires AllSeparate(mods, s, 0, t, ts)
    ensures t != [] && t[0] != '['
  {
    assert t[0] in t;
  }

  // ----- when terms separate -----

  /** A term that no x ends, and no module name runs on past because none has an operator in it. */
  ghost predicate Clean(mods: seq<Module>, t: string, last: bool) {
    Plain(t) && (last || !EndsInX(t))
  }

  ghost predicate NoOperatorsInNames(mods: seq<Module>) {
    forall k :: 0 <= k < |mods| ==> forall i :: 0 <= i < |mods[k].name| ==> !IsOperator(mods[k].name[i])
  }

  lemma {:induction false} CleanSeparate(mods: seq<Module>, s: string, pos: nat, t: string, ts: seq<Term>)
    requires pos <= |s| && s[pos..] == t + Tail(ts) && NoOperatorsInNames(mods)
    requires Clean(mods, t, ts == []) && forall i :: 0 <= i < |ts| ==> Clean(mods, ts[i].text, i == |ts| - 1)
    ensures AllSeparate(mods, s, pos, t, ts)
    decreases |ts|
  {
    hide EndsInX;
    FirstOfTail(s, pos, t, ts);
    forall k | 0 <= k < |mods| && Stands(s, mods[k].name, pos) ensures |mods[k].name| <= |t| {
      NameInTerm(s, pos, t, mods[k].name);
    }
    if ts != [] {
      assert forall i :: 0 <= i < |ts| - 1 ==> ts[1..][i] == ts[i + 1];
      CleanSeparate(mods, s, pos + |t| + 1, ts[0].text, ts[1..]);
    }
  }

  /** A name without operators cannot run on past a term, behind which there is one or nothing. */
  lemma NameInTerm(s: string, pos: nat, t: string, name: string)
    requires At(s, t, pos) && (pos + |t| == |s| || IsOperator(s[pos + |t|])) && At(s, name, pos)
    requires forall i :: 0 <= i < |name| ==> !IsOperator(name[i])
    ensures |name| <= |t|
  {
    hide IsOperator;
    CharsOf(s, name, pos);
    assert forall j :: pos <= j < pos + |name| ==> !IsOperator(s[j]);
  }

  /** So sums of plain terms, none of which but the last ends in an x, are evaluated as written. */
  lemma PlainSum(env: Env, first: string, ts: seq<Term>)
    requires var s := first + Tail(ts); s != [] && Trim(s) == s
    requires NoOperatorsInNames(Modules(env)) && Clean(Modules(env), first, ts == [])
    requires forall i :: 0 <= i < |ts| ==> Clean(Modules(env), ts[i].text, i == |ts| - 1)
    ensures Parse(env, first + Tail(ts)) == Some(Wrap(NumberOf(env, first) + Total(env, ts)))
  {
    hide Trim, Clean, NoOperatorsInNames, ParseAt, Total, NumberOf;
    var s := first + Tail(ts);
    assert s[0..] == s;
    CleanSeparate(Modules(env), s, 0, first, ts);
    SumIsTotal(env, first, ts, 0);
  }

  // ----- numerals -----

  lemma TooLarge(s: string, base: nat)
    requires (base == 10 || base == 16) && s != [] && IsNumeral(s, base) && Numeral(s, base) >= TWO_64
    ensures Stoull(s, base) == None
  {
    DigitIsPlain(s[0], base);
    if |s| >= 3 {
      DigitIsPlain(s[1], base);
    }
    DigitPrefixAll(s, base);
    hide DigitValue, IsDigit, IsNumeral, DigitPrefix, Numeral;
    assert s[0..] == s && s[..|s|] == s;
    assert LeadingSpaces(s) == 0;
  }

  /** The number of a numeral that fits in 64 bits, and 0 for one that does not. */
  function Fitting(n: nat): U64 {
    if n < TWO_64 then n else 0
  }

  lemma HexValue(d: string)
    requires d != [] && IsNumeral(d, 16)
    ensures HexOrZero(d) == Fitting(Numeral(d, 16))
  {
    hide Stoull;
    if Numeral(d, 16) < TWO_64 {
      StoullOfNumeral(d, 16);
    } else {
      TooLarge(d, 16);
    }
  }

  /** Marked hexadecimal numerals, marked decimal ones, and bare hexadecimal ones of more than one digit or of a single
      decimal one, whatever symbols and modules there are. */
  lemma NumeralTokens(env: Env, d: string)
    requires d != [] && IsNumeral(d, 16)
    ensures ResolveToken(env, "0x" + d) == Fitting(Numeral(d, 16)) == ResolveToken(env, "0X" + d)
    ensures |d| >= 2 || IsNumeral(d, 10) ==> ResolveToken(env, d) == Fitting(Numeral(d, 16))
    ensures IsNumeral(d, 10) ==> ResolveToken(env, "#" + d) == Fitting(Numeral(d, 10))
  {
    hide *;
    HexMarked(env, d, 'x');
    HexMarked(env, d, 'X');
    assert "0x" + d == ['0', 'x'] + d && "0X" + d == ['0', 'X'] + d;
    if |d| >= 2 || IsNumeral(d, 10) {
      BareHex(env, d);
    }
    if IsNumeral(d, 10) {
      DecimalMarked(env, d);
    }
  }

  lemma HexMarked(env: Env, d: string, mark: char)
    requires d != [] && IsNumeral(d, 16) && (mark == 'x' || mark == 'X')
    ensures ResolveToken(env, ['0', mark] + d) == Fitting(Numeral(d, 16))
  {
    hide IsNumeral, Numeral, HexOrZero, ResolveName, Stoull;
    assert (['0', mark] + d)[2..] == d;
    HexValue(d);
  }

  lemma DecimalMarked(env: Env, d: string)
    requires d != [] && IsNumeral(d, 10)
    ensures ResolveToken(env, "#" + d) == Fitting(Numeral(d, 10))
  {
    hide IsNumeral, Numeral, HexOrZero, ResolveName, Stoull;
    assert ("#" + d)[1..] == d;
    if Numeral(d, 10) < TWO_64 {
      StoullOfNumeral(d, 10);
    } else {
      TooLarge(d, 10);
    }
  }

  lemma BareHex(env: Env, d: string)
    requires d != [] && IsNumeral(d, 16) && (|d| >= 2 || IsNumeral(d, 10))
    ensures ResolveToken(env, d) == Fitting(Numeral(d, 16))
  {
    DigitIsPlain(d[0], 16);
    if |d| >= 2 {
      DigitIsPlain(d[1], 16);
    }
    assert IsDigit(d[0], 16) ==> d[0] != '#';
    hide IsNumeral, Numeral, HexOrZero, ResolveName, Stoull, IsDigit;
    HexValue(d);
  }

  /** Any other name: a symbol that is not 0 comes first, then the first module of that name, then nothing. */
  lemma NameTokens(env: Env, name: string, k: nat)
    requires name != [] && name[0] != '#' && !(|name| > 2 && name[0] == '0' && (name[1] == 'x' || name[1] == 'X'))
    requires !IsNumeral(name, 16)
    ensures name in env.symbols && env.symbols[name] != 0 ==> ResolveToken(env, name) == env.symbols[name]
    ensures (name in env.symbols ==> env.symbols[name] == 0) && env.hasProc && k < |env.modules| &&
            env.modules[k].name == name && (forall j :: 0 <= j < k ==> env.modules[j].name != name) ==>
              ResolveToken(env, name) == env.modules[k].base
    ensures (name in env.symbols ==> env.symbols[name] == 0) &&
            (env.hasProc ==> forall j :: 0 <= j < |env.modules| ==> env.modules[j].name != name) ==>
              ResolveToken(env, name) == 0
  {
    hide IsNumeral, HexOrZero, Stoull;
    if k < |env.modules| && env.modules[k].name == name && (forall j :: 0 <= j < k ==> env.modules[j].name != name) {
      FirstModule(env.modules, name, k);
    }
    if forall j :: 0 <= j < |env.modules| ==> env.modules[j].name != name {
      NoModule(env.modules, name);
    }
  }

  lemma {:induction false} FirstModule(mods: seq<Module>, name: string, k: nat)
    requires k < |mods| && mods[k].name == name && forall j :: 0 <= j < k ==> mods[j].name != name
    ensures ModuleBase(mods, name) == Some(mods[k].base)
  {
    if k > 0 {
      assert mods[0].name != name;
      FirstModule(mods[1..], name, k - 1);
    }
  }

  lemma {:induction false} NoModule(mods: seq<Module>, name: string)
    requires forall j :: 0 <= j < |mods| ==> mods[j].name != name
    ensures ModuleBase(mods, name) == None
  {
    if mods != [] {
      NoModule(mods[1..], name);
    }
  }

  // ----- two sums -----

  /** A symbol and a number. */
  lemma SymbolMinusNumber(env: Env)
    requires env == Env(false, [], map[], map["hp" := 0x1000])
    ensures Parse(env, "hp-8") == Some(0xff8)
  {
    hide *;
    var ts := [Term(true, "8")];
    HpText(env, ts);
    HpIsSymbol(env);
    EightIsNumber(env);
    PlainSum(env, "hp", ts);
    LessEight();
  }

  lemma HpText(env: Env, ts: seq<Term>)
    requires ts == [Term(true, "8")] && !env.hasProc
    ensures "hp" + Tail(ts) == "hp-8" && Trim("hp-8") == "hp-8"
    ensures Total(env, ts) == -(NumberOf(env, "8") as int)
    ensures NoOperatorsInNames(Modules(env)) && Clean(Modules(env), "hp", false) && Clean(Modules(env), "8", true)
  {
    hide NumberOf, Trim;
    assert ts[1..] == [];
    assert Tail(ts) == ['-'] + "8" + [];
    assert Total(env, []) == 0;
    TrimTrimmed("hp-8");
  }

  lemma LessEight()
    ensures Wrap(0x1000 + -8) == 0xff8
  {
  }

  lemma HpIsSymbol(env: Env)
    requires env == Env(false, [], map[], map["hp" := 0x1000])
    ensures NumberOf(env, "hp") == 0x1000
  {
    assert Trim("hp") == "hp";
    assert !IsDigit('h', 16);
    assert !IsNumeral("hp", 16) by { assert "hp"[0] == 'h'; }
  }

  lemma EightIsNumber(env: Env)
    ensures NumberOf(env, "8") == 8
  {
    assert Trim("8") == "8";
    assert IsDigit('8', 10) && IsDigit('8', 16);
    assert IsNumeral("8", 10) && IsNumeral("8", 16);
    NumeralTokens(env, "8");
    assert "8"[..0] == [];
    assert Numeral("8", 16) == 8;
    hide ResolveToken;
  }

  /** A name that ends in an x swallows the operator behind it: the whole text is one unknown name. */
  lemma XSwallowsOperator(env: Env)
    requires env == Env(false, [], map[], map["max" := 0x1000])
    ensures Parse(env, "max-8") == Some(0)
  {
    assert Trim("max-8") == "max-8";
    var s := "max-8";
    assert ScanOperator(s, 1, 0) == ScanOperator(s, 2, 0) == ScanOperator(s, 3, 0) == ScanOperator(s, 4, 0)
        == ScanOperator(s, 5, 0) == None;
    assert TermEnd([], s, 0) == 5;
    assert s[0..5] == s;
    assert !IsDigit('m', 16);
    assert !IsNumeral(s, 16) by { assert s[0] == 'm'; }
    assert s != "max" by { assert |s| == 5; }
    assert ResolveToken(env, s) == 0;
    hide Trim, ScanOperator, ResolveToken, MatchClose;
    assert Terms(env, s, 0, 0, false, 0) == 0;
  }
}
