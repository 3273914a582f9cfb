/** How the directives of a script are written, and what their arguments mean. */
module ScriptArguments {
  import opened Text
  import opened ScriptText
  import opened Layout
  import opened LayoutAgreement

  // ----- directives -----

  lemma Behind(d: string, args: string)
    ensures StartsWith(d + args, d) && (d + args)[|d|..] == args
  {
  }

  lemma Unlike(d: string, args: string, p: string, i: nat)
    requires i < |d| && i < |p| && d[i] != p[i]
    ensures !StartsWith(d + args, p)
  {
    assert (d + args)[i] == d[i];
  }

  lemma NopDirective(args: string)
    requires TrimLine("__NOP__:" + args) == "__NOP__:" + args && !IsLabelDefinition("__NOP__:" + args)
    ensures Classify("__NOP__:" + args) == Nop(TrimLine(args))
  {
    hide TrimLine, IsLabelDefinition, StripQuotes;
    var t := "__NOP__:" + args;
    Behind("__NOP__:", args);
    hide StartsWith;
    Unlike("__NOP__:", args, "__UNREGISTERSYMBOL__:", 2);
    Unlike("__NOP__:", args, "__FULLACCESS__:", 2);
    Unlike("__NOP__:", args, "__ASSERT__:", 2);
    Unlike("__NOP__:", args, "__DEALLOC__:", 2);
    Unlike("__NOP__:", args, "__CREATETHREAD__:", 2);
    Unlike("__NOP__:", args, "__CREATETHREADANDWAIT__:", 2);
    Unlike("__NOP__:", args, "__LOADLIBRARY__:", 2);
    Unlike("__NOP__:", args, "__LOADBINARY__:", 2);
    Unlike("__NOP__:", args, "__REASSEMBLE__:", 2);
    Unlike("__NOP__:", args, "__READMEM__:", 2);
    Unlike("__NOP__:", args, "__FILLMEM__:", 2);
  }

  lemma DsDirective(args: string)
    requires TrimLine("__DS__:" + args) == "__DS__:" + args && !IsLabelDefinition("__DS__:" + args)
    ensures Classify("__DS__:" + args) == Ds(StripQuotes(args))
  {
    hide TrimLine, IsLabelDefinition, StripQuotes;
    var t := "__DS__:" + args;
    Behind("__DS__:", args);
    hide StartsWith;
    Unlike("__DS__:", args, "__UNREGISTERSYMBOL__:", 2);
    Unlike("__DS__:", args, "__FULLACCESS__:", 2);
    Unlike("__DS__:", args, "__ASSERT__:", 2);
    Unlike("__DS__:", args, "__DEALLOC__:", 3);
    Unlike("__DS__:", args, "__CREATETHREAD__:", 2);
    Unlike("__DS__:", args, "__CREATETHREADANDWAIT__:", 2);
    Unlike("__DS__:", args, "__LOADLIBRARY__:", 2);
    Unlike("__DS__:", args, "__LOADBINARY__:", 2);
    Unlike("__DS__:", args, "__REASSEMBLE__:", 2);
    Unlike("__DS__:", args, "__READMEM__:", 2);
    Unlike("__DS__:", args, "__FILLMEM__:", 2);
    Unlike("__DS__:", args, "__NOP__:", 2);
  }

  lemma FillMemDirective(args: string)
    requires TrimLine("__FILLMEM__:" + args) == "__FILLMEM__:" + args && !IsLabelDefinition("__FILLMEM__:" + args)
    ensures Classify("__FILLMEM__:" + args) == FillMem(args)
  {
    hide TrimLine, IsLabelDefinition, StripQuotes;
    var t := "__FILLMEM__:" + args;
    Behind("__FILLMEM__:", args);
    hide StartsWith;
    Unlike("__FILLMEM__:", args, "__UNREGISTERSYMBOL__:", 2);
    Unlike("__FILLMEM__:", args, "__FULLACCESS__:", 3);
    Unlike("__FILLMEM__:", args, "__ASSERT__:", 2);
    Unlike("__FILLMEM__:", args, "__DEALLOC__:", 2);
    Unlike("__FILLMEM__:", args, "__CREATETHREAD__:", 2);
    Unlike("__FILLMEM__:", args, "__CREATETHREADANDWAIT__:", 2);
    Unlike("__FILLMEM__:", args, "__LOADLIBRARY__:", 2);
    Unlike("__FILLMEM__:", args, "__LOADBINARY__:", 2);
    Unlike("__FILLMEM__:", args, "__REASSEMBLE__:", 2);
    Unlike("__FILLMEM__:", args, "__READMEM__:", 2);
  }

  lemma ReadMemDirective(args: string)
    requires TrimLine("__READMEM__:" + args) == "__READMEM__:" + args && !IsLabelDefinition("__READMEM__:" + args)
    ensures Classify("__READMEM__:" + args) == ReadMem(args)
  {
    hide TrimLine, IsLabelDefinition, StripQuotes;
    var t := "__READMEM__:" + args;
    Behind("__READMEM__:", args);
    hide StartsWith;
    Unlike("__READMEM__:", args, "__UNREGISTERSYMBOL__:", 2);
    Unlike("__READMEM__:", args, "__FULLACCESS__:", 2);
    Unlike("__READMEM__:", args, "__ASSERT__:", 2);
    Unlike("__READMEM__:", args, "__DEALLOC__:", 2);
    Unlike("__READMEM__:", args, "__CREATETHREAD__:", 2);
    Unlike("__READMEM__:", args, "__CREATETHREADANDWAIT__:", 2);
    Unlike("__READMEM__:", args, "__LOADLIBRARY__:", 2);
    Unlike("__READMEM__:", args, "__LOADBINARY__:", 2);
    Unlike("__READMEM__:", args, "__REASSEMBLE__:", 5);
  }

  lemma LoadBinaryDirective(args: string)
    requires TrimLine("__LOADBINARY__:" + args) == "__LOADBINARY__:" + args && !IsLabelDefinition("__LOADBINARY__:" + args)
    ensures Classify("__LOADBINARY__:" + args) == LoadBinary(args)
  {
    hide TrimLine, IsLabelDefinition, StripQuotes;
    var t := "__LOADBINARY__:" + args;
    Behind("__LOADBINARY__:", args);
    hide StartsWith;
    Unlike("__LOADBINARY__:", args, "__UNREGISTERSYMBOL__:", 2);
    Unlike("__LOADBINARY__:", args, "__FULLACCESS__:", 2);
    Unlike("__LOADBINARY__:", args, "__ASSERT__:", 2);
    Unlike("__LOADBINARY__:", args, "__DEALLOC__:", 2);
    Unlike("__LOADBINARY__:", args, "__CREATETHREAD__:", 2);
    Unlike("__LOADBINARY__:", args, "__CREATETHREADANDWAIT__:", 2);
    Unlike("__LOADBINARY__:", args, "__LOADLIBRARY__:", 6);
  }

  /** A directive's line is as it stands when its last character is no blank and no colon. */
  lemma DirectiveLine(d: string, args: string)
    requires d != [] && !IsSpaceChar(d[0]) && args != []
    requires !IsSpaceChar(args[|args| - 1]) && args[|args| - 1] != ':'
    ensures TrimLine(d + args) == d + args && !IsLabelDefinition(d + args)
  {
    hide IsSpaceChar;
    var t := d + args;
    assert t[0] == d[0] && t[|t| - 1] == args[|args| - 1];
    AlreadyTrimmed(t);
  }

  lemma AlreadyTrimmed(t: string)
    requires t != [] ==> !IsSpaceChar(t[0]) && !IsSpaceChar(t[|t| - 1])
    ensures TrimLine(t) == t
  {
    hide IsSpaceChar;
    assert SkipSpaces(t) == t && DropSpaces(t) == t;
  }

  // ----- numerals -----

  lemma DigitsTrimmed(n: nat, base: nat)
    requires base == 10 || base == 16
    ensures var d := Digits(n, base);
            d != [] && TrimLine(d) == d && !IsSpaceChar(d[|d| - 1]) && d[|d| - 1] != ':' &&
            forall i :: 0 <= i < |d| ==> d[i] != ',' && !IsQuote(d[i]) && d[i] != '+'
  {
    DigitsForm(n, base);
    var d := Digits(n, base);
    assert PrintedDigit(d[0], base) && PrintedDigit(d[|d| - 1], base);
    AlreadyTrimmed(d);
    forall i | 0 <= i < |d| ensures d[i] != ',' && !IsQuote(d[i]) && d[i] != '+' {
      assert PrintedDigit(d[i], base);
    }
  }

  /** A decimal numeral without leading zeros is one too when the base is taken from the text. */
  lemma DecimalAnyBase(n: U64)
    requires n > 0
    ensures Stoull(Digits(n, 10), 0) == Some(Parsed(n, |Digits(n, 10)|))
  {
    var d := Digits(n, 10);
    NumeralOfDigits(n, 10);
    DigitsForm(n, 10);
    DigitIsPlain(d[0], 10);
    MagnitudeOfNumeral(d, 10);
    assert d[0] != '0';
    assert Magnitude(d, 0) == Magnitude(d, 10);
    assert LeadingSpaces(d) == 0;
    hide Digits, Magnitude, IsNumeral, Numeral;
    assert d[0..] == d;
  }

  lemma WholeDecimal(n: U64)
    requires n > 0
    ensures ParseWhole(Digits(n, 10), 0) == Some(n)
  {
    hide Stoull, TrimLine;
    DecimalAnyBase(n);
    DigitsTrimmed(n, 10);
  }

  lemma WholeHex(n: U64)
    ensures ParseWhole(Digits(n, 16), 16) == Some(n) && Stoull(Digits(n, 16), 16).Some?
    ensures Stoull(Digits(n, 16), 16).value.value == n
  {
    hide Stoull, TrimLine;
    NumeralOfDigits(n, 16);
    StoullOfNumeral(Digits(n, 16), 16);
    DigitsTrimmed(n, 16);
  }

  /** The count of a NOP: its numeral, decimal or marked hexadecimal, one when it has none, and never zero. */
  lemma NopCounts(n: U64)
    ensures n > 0 ==> NopCount(Digits(n, 10)) == Some(n) && NopCount("0x" + Digits(n, 16)) == Some(n)
    ensures NopCount("") == Some(1)
    ensures NopCount("0x" + Digits(0, 16)) == None
  {
    hide Stoull, Digits;
    if n > 0 {
      DecimalAnyBase(n);
    }
    StoullOfHexLiteral(n);
    StoullOfHexLiteral(0);
  }

  // ----- arguments -----

  /** Neither commas nor quotes. */
  predicate PlainArgument(s: string) {
    forall i :: 0 <= i < |s| ==> s[i] != ',' && !IsQuote(s[i])
  }

  lemma {:induction false} PlainRun(args: string, i: nat, j: nat, current: string, max: nat)
    requires i <= j <= |args| && forall k :: i <= k < j ==> args[k] != ',' && !IsQuote(args[k])
    ensures PartsFrom(args, i, '\0', current, max) == PartsFrom(args, j, '\0', current + args[i..j], max)
    decreases j - i
  {
    hide TrimLine, IsQuote;
    if i < j {
      assert (current + [args[i]]) + args[i + 1..j] == current + args[i..j];
      PlainRun(args, i + 1, j, current + [args[i]], max);
    } else {
      assert current + args[i..j] == current;
    }
  }

  lemma AtComma(args: string, i: nat, current: string, max: nat)
    requires i < |args| && args[i] == ',' && max > 1
    ensures PartsFrom(args, i, '\0', current, max) == [TrimLine(current)] + PartsFrom(args, i + 1, '\0', [], max - 1)
  {
    hide TrimLine;
  }

  lemma OnePart(a: string, max: nat)
    requires PlainArgument(a)
    ensures Parts(a, max) == [TrimLine(a)]
  {
    hide TrimLine, IsQuote;
    PlainRun(a, 0, |a|, [], max);
    assert [] + a[0..|a|] == a;
    assert PartsFrom(a, |a|, '\0', a, max) == [TrimLine(a)];
  }

  /** Reading goes on behind what has been read as if the text began there. */
  lemma {:induction false} PartsShift(before: string, rest: string, i: nat, quote: char, current: string, max: nat)
    requires i <= |rest|
    ensures PartsFrom(before + rest, |before| + i, quote, current, max) == PartsFrom(rest, i, quote, current, max)
    decreases |rest| - i
  {
    hide TrimLine, IsQuote;
    if i < |rest| {
      assert (before + rest)[|before| + i] == rest[i];
      if IsQuote(rest[i]) && (quote == '\0' || quote == rest[i]) {
        PartsShift(before, rest, i + 1, if quote == rest[i] then '\0' else rest[i], current + [rest[i]], max);
      } else if rest[i] == ',' && quote == '\0' && max > 1 {
        PartsShift(before, rest, i + 1, quote, [], max - 1);
      } else {
        PartsShift(before, rest, i + 1, quote, current + [rest[i]], max);
      }
    }
  }

  /** Arguments are cut at their commas. */
  lemma FirstPart(a: string, rest: string, max: nat)
    requires PlainArgument(a) && max > 1
    ensures Parts(a + "," + rest, max) == [TrimLine(a)] + Parts(rest, max - 1)
  {
    hide TrimLine, IsQuote;
    var args := a + "," + rest;
    forall k | 0 <= k < |a| ensures args[k] != ',' && !IsQuote(args[k]) {
      assert args[k] == a[k];
    }
    PlainRun(args, 0, |a|, [], max);
    assert [] + args[0..|a|] == a && args[|a|] == ',';
    AtComma(args, |a|, a, max);
    PartsShift(a + ",", rest, 0, '\0', [], max - 1);
  }

  lemma {:induction false} FirstCommaAt(a: string, rest: string, i: nat)
    requires i <= |a| && PlainArgument(a)
    ensures FirstOf(a + "," + rest, ',', i) == |a|
    decreases |a| - i
  {
    hide IsQuote;
    var s := a + "," + rest;
    if i < |a| {
      assert s[i] == a[i] != ',';
      FirstCommaAt(a, rest, i + 1);
    } else {
      assert s[i] == ',';
    }
  }

  lemma SourceAndSize(a: string, rest: string)
    requires PlainArgument(a)
    ensures BeforeComma(a + "," + rest) == TrimLine(a) && AfterComma(a + "," + rest) == Some(TrimLine(rest))
  {
    hide TrimLine, IsQuote;
    FirstCommaAt(a, rest, 0);
    var s := a + "," + rest;
    assert s[..|a|] == a && s[|a| + 1..] == rest;
  }

  lemma DigitsPlain(n: nat, base: nat)
    requires base == 10 || base == 16
    ensures PlainArgument(Digits(n, base))
  {
    DigitsTrimmed(n, base);
  }

  /** FILLMEM with a target, a decimal size and a hexadecimal value. */
  lemma FillMemMeans(target: string, n: U64, b: U64, ctx: Context, labels: seq<Label>)
    requires PlainArgument(target) && 0 < n <= MAX_BUFFER && b <= 0xff
    requires ResolveAddress(TrimLine(target), ctx, labels) != 0
    ensures FillPatch(target + "," + (Digits(n, 10) + "," + Digits(b, 16)), ctx, labels)
         == Some(Patch(ResolveAddress(TrimLine(target), ctx, labels), seq(n, i => b)))
  {
    hide Stoull, TrimLine, ResolveAddress, Digits, PlainArgument;
    FirstPart(target, Digits(n, 10) + "," + Digits(b, 16), 3);
    DigitsPlain(n, 10);
    DigitsPlain(b, 16);
    FirstPart(Digits(n, 10), Digits(b, 16), 2);
    OnePart(Digits(b, 16), 1);
    DigitsTrimmed(n, 10);
    DigitsTrimmed(b, 16);
    DecimalAnyBase(n);
    WholeHex(b);
  }

  // ----- addresses -----

  lemma {:induction false} NoPlus(s: string, i: nat)
    requires i <= |s| && '+' !in s
    ensures FirstOf(s, '+', i) == |s|
    decreases |s| - i
  {
    if i < |s| {
      NoPlus(s, i + 1);
    }
  }

  lemma {:induction false} FirstPlusAt(a: string, rest: string, i: nat)
    requires i <= |a| && '+' !in a
    ensures FirstOf(a + "+" + rest, '+', i) == |a|
    decreases |a| - i
  {
    var s := a + "+" + rest;
    if i < |a| {
      assert s[i] == a[i];
      FirstPlusAt(a, rest, i + 1);
    } else {
      assert s[i] == '+';
    }
  }

  /** No allocation, label, define with an address, or symbol has the name. */
  predicate Nameless(name: string, ctx: Context, labels: seq<Label>) {
    && FindAlloc(ctx.allocs, name).None? && LabelIndex(labels, name) == |labels|
    && DefineAddress(ctx.defines, name).None? && name !in ctx.globals
  }

  /** Names come first, in this order: allocations, labels, defines, symbols. */
  lemma NameResolves(name: string, ctx: Context, labels: seq<Label>)
    requires TrimLine(name) == name && !Nameless(name, ctx, labels)
    ensures ResolveAddress(name, ctx, labels)
         == if FindAlloc(ctx.allocs, name).Some? then FindAlloc(ctx.allocs, name).value
            else if LabelIndex(labels, name) < |labels| then labels[LabelIndex(labels, name)].address
            else if DefineAddress(ctx.defines, name).Some? then DefineAddress(ctx.defines, name).value
            else ctx.globals[name]
  {
    hide FindAlloc, LabelIndex, DefineAddress, TrimLine, ParseWhole;
  }

  /** A base that resolves, a plus sign and a hexadecimal offset: their sum modulo 2^64. */
  lemma OffsetIsAdded(base: string, n: U64, ctx: Context, labels: seq<Label>)
    requires base != [] && '+' !in base && !IsSpaceChar(base[0])
    requires Nameless(base + "+" + Digits(n, 16), ctx, labels) && ResolveAddress(base, ctx, labels) != 0
    ensures ResolveAddress(base + "+" + Digits(n, 16), ctx, labels) == Wrap(ResolveAddress(base, ctx, labels) + n)
  {
    hide *;
    var d := Digits(n, 16);
    LastIsNoSpace(n);
    WholeHex(n);
    OffsetOf(base, d, n, ctx, labels);
  }

  lemma LastIsNoSpace(n: nat)
    ensures var d := Digits(n, 16); d != [] && !IsSpaceChar(d[|d| - 1])
  {
    DigitsTrimmed(n, 16);
  }

  lemma OffsetOf(base: string, d: string, n: U64, ctx: Context, labels: seq<Label>)
    requires base != [] && '+' !in base && !IsSpaceChar(base[0]) && d != [] && !IsSpaceChar(d[|d| - 1])
    requires ParseWhole(d, 16) == Some(n) && Nameless(base + "+" + d, ctx, labels) && ResolveAddress(base, ctx, labels) != 0
    ensures ResolveAddress(base + "+" + d, ctx, labels) == Wrap(ResolveAddress(base, ctx, labels) + n)
  {
    hide *;
    BaseAndOffset(base, d);
    FirstPlusAt(base, d, 0);
    AtPlus(base + "+" + d, |base|, ctx, labels);
  }

  lemma BaseAndOffset(base: string, d: string)
    requires base != [] && d != [] && !IsSpaceChar(base[0]) && !IsSpaceChar(d[|d| - 1])
    ensures var name := base + "+" + d;
            name[..|base|] == base && name[|base| + 1..] == d && TrimLine(name) == name
  {
    hide IsSpaceChar, TrimLine;
    var name := base + "+" + d;
    assert name[0] == base[0] && name[|name| - 1] == d[|d| - 1];
    AlreadyTrimmed(name);
  }

  lemma AtPlus(name: string, plus: nat, ctx: Context, labels: seq<Label>)
    requires TrimLine(name) == name && plus < |name| && FirstOf(name, '+', 0) == plus && Nameless(name, ctx, labels)
    requires ResolveAddress(name[..plus], ctx, labels) != 0 && ParseWhole(name[plus + 1..], 16).Some?
    ensures ResolveAddress(name, ctx, labels)
         == Wrap(ResolveAddress(name[..plus], ctx, labels) + ParseWhole(name[plus + 1..], 16).value)
  {
    hide FindAlloc, LabelIndex, DefineAddress, TrimLine, ParseWhole, FirstOf;
  }

  /** A hexadecimal number that is no name is that address. */
  lemma NumberIsAddress(n: U64, ctx: Context, labels: seq<Label>)
    requires Nameless(Digits(n, 16), ctx, labels)
    ensures ResolveAddress(Digits(n, 16), ctx, labels) == n
  {
    hide FindAlloc, LabelIndex, DefineAddress, TrimLine, ParseWhole, Digits, IsSpaceChar;
    DigitsTrimmed(n, 16);
    WholeHex(n);
    NoPlus(Digits(n, 16), 0);
  }
}
