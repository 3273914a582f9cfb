/** The directives of a script by their text: what each writes, and where. */
module WrittenLines {
  import opened Text
  import opened ScriptText
  import opened Layout
  import opened LayoutAgreement
  import opened EmittedPatches
  import opened ScriptArguments

  /** Emission got past line `i`. */
  ghost predicate Past(lines: seq<string>, worlds: seq<World>, i: nat, ctx: Context, labels: seq<Label>) {
    && i < |lines| == |worlds| && Ordinary(lines)
    && EmitTo(lines, worlds, i, ctx, labels).Emission? && EmitTo(lines, worlds, i + 1, ctx, labels).Emission?
  }

  /** Line `i` adds this one patch, and takes the script from where it was to `after`. */
  ghost predicate Adds(lines: seq<string>, worlds: seq<World>, i: nat, ctx: Context, labels: seq<Label>, p: Patch,
                       after: U64)
    requires Past(lines, worlds, i, ctx, labels)
  {
    var e, e' := EmitTo(lines, worlds, i, ctx, labels), EmitTo(lines, worlds, i + 1, ctx, labels);
    e'.patches == e.patches + [p] && e'.address == after
  }

  /** nop n: n bytes 0x90 where the script is. */
  lemma NopIsWritten(lines: seq<string>, worlds: seq<World>, i: nat, n: U64, ctx: Context, labels: seq<Label>)
    requires Past(lines, worlds, i, ctx, labels) && n > 0 && lines[i] == "__NOP__:" + Digits(n, 10)
    ensures var a := EmitTo(lines, worlds, i, ctx, labels).address;
            Adds(lines, worlds, i, ctx, labels, Patch(a, seq(n, k => 0x90)), Wrap(a + n))
  {
    hide Classify, Digits, EmitTo, EmitLine, TrimLine, NopCount, Wrap, IsLabelDefinition;
    DigitsTrimmed(n, 10);
    DirectiveLine("__NOP__:", Digits(n, 10));
    NopDirective(Digits(n, 10));
    NopCounts(n);
    var ps := LineAt(lines, worlds, i, ctx, labels);
    assert ps[0].bytes == seq(n, k => 0x90);
    assert ps == [ps[0]];
  }

  /** ds "text": the codes of its characters. */
  lemma DsIsWritten(lines: seq<string>, worlds: seq<World>, i: nat, text: string, ctx: Context, labels: seq<Label>)
    requires Past(lines, worlds, i, ctx, labels) && text != [] && lines[i] == "__DS__:" + ("\"" + text + "\"")
    ensures var a := EmitTo(lines, worlds, i, ctx, labels).address;
            Adds(lines, worlds, i, ctx, labels, Patch(a, seq(|text|, k requires 0 <= k < |text| => text[k] as int)),
                 Wrap(a + |text|))
  {
    hide Classify, EmitTo, EmitLine, TrimLine, Wrap, IsLabelDefinition, StripQuotes;
    var quoted := "\"" + text + "\"";
    DirectiveLine("__DS__:", quoted);
    DsDirective(quoted);
    Unquoted(text);
    var ps := LineAt(lines, worlds, i, ctx, labels);
    assert ps[0].bytes == seq(|text|, k requires 0 <= k < |text| => text[k] as int);
    assert ps == [ps[0]];
  }

  lemma Unquoted(text: string)
    ensures StripQuotes("\"" + text + "\"") == text
  {
    var quoted := "\"" + text + "\"";
    AlreadyTrimmed(quoted);
    hide TrimLine;
    assert quoted[1..|quoted| - 1] == text;
  }

  /** FILLMEM(target, n, b): n bytes b at the target; the script stays where it is. */
  lemma FillMemIsWritten(lines: seq<string>, worlds: seq<World>, i: nat, target: string, n: U64, b: U64, ctx: Context,
                         labels: seq<Label>)
    requires Past(lines, worlds, i, ctx, labels) && PlainArgument(target) && 0 < n <= MAX_BUFFER && b <= 0xff
    requires lines[i] == "__FILLMEM__:" + (target + "," + (Digits(n, 10) + "," + Digits(b, 16)))
    requires ResolveAddress(TrimLine(target), ctx, EmitTo(lines, worlds, i, ctx, labels).labels) != 0
    ensures var e := EmitTo(lines, worlds, i, ctx, labels);
            Adds(lines, worlds, i, ctx, labels,
                 Patch(ResolveAddress(TrimLine(target), ctx, e.labels), seq(n, k => b)), e.address)
  {
    hide Classify, Digits, EmitTo, TrimLine, FillPatch, ResolveAddress, IsLabelDefinition, PlainArgument;
    var e := EmitTo(lines, worlds, i, ctx, labels);
    var args := target + "," + (Digits(n, 10) + "," + Digits(b, 16));
    EndsInDigits(target + "," + (Digits(n, 10) + ","), b);
    assert args == target + "," + (Digits(n, 10) + ",") + Digits(b, 16);
    DirectiveLine("__FILLMEM__:", args);
    FillMemDirective(args);
    FillMemMeans(target, n, b, ctx, e.labels);
    EmitNext(lines, worlds, i, ctx, labels);
  }

  lemma EndsInDigits(before: string, b: nat)
    ensures var s := before + Digits(b, 16);
            s != [] && !IsSpaceChar(s[|s| - 1]) && s[|s| - 1] != ':'
  {
    DigitsTrimmed(b, 16);
    assert (before + Digits(b, 16))[|before| + |Digits(b, 16)| - 1] == Digits(b, 16)[|Digits(b, 16)| - 1];
  }

  lemma EmitNext(lines: seq<string>, worlds: seq<World>, i: nat, ctx: Context, labels: seq<Label>)
    requires Past(lines, worlds, i, ctx, labels)
    ensures !Classify(lines[i]).Reassemble? && !Classify(lines[i]).Unregister?
    ensures EmitTo(lines, worlds, i + 1, ctx, labels)
         == EmitLine(Classify(lines[i]), EmitTo(lines, worlds, i, ctx, labels), ctx, worlds[i])
  {
    hide EmitLine, Classify, Ordinary;
    OrdinaryLine(lines, i);
  }

  /** READMEM(source, n): the n bytes found at the source, where the script is. */
  lemma ReadMemIsWritten(lines: seq<string>, worlds: seq<World>, i: nat, source: string, n: U64, ctx: Context,
                         labels: seq<Label>)
    requires Past(lines, worlds, i, ctx, labels) && PlainArgument(source) && 0 < n <= MAX_BUFFER
    requires lines[i] == "__READMEM__:" + (source + "," + Digits(n, 10))
    requires ResolveAddress(TrimLine(source), ctx, EmitTo(lines, worlds, i, ctx, labels).labels) != 0
    ensures var a := EmitTo(lines, worlds, i, ctx, labels).address;
            n <= |worlds[i].memory| &&
            Adds(lines, worlds, i, ctx, labels, Patch(a, worlds[i].memory[..n]), Wrap(a + n))
  {
    hide Classify, Digits, EmitTo, TrimLine, ResolveAddress, IsLabelDefinition, PlainArgument, ParseWhole, Wrap;
    var args := source + "," + Digits(n, 10);
    DigitsTrimmed(n, 10);
    assert args[|args| - 1] == Digits(n, 10)[|Digits(n, 10)| - 1];
    DirectiveLine("__READMEM__:", args);
    ReadMemDirective(args);
    SourceAndSize(source, Digits(n, 10));
    WholeDecimal(n);
    EmitNext(lines, worlds, i, ctx, labels);
    CopyIs(args, n, EmitTo(lines, worlds, i, ctx, labels), ctx, worlds[i]);
  }

  lemma CopyIs(args: string, n: U64, e: Emission, ctx: Context, world: World)
    requires e.Emission? && EmitLine(ReadMem(args), e, ctx, world).Emission? && 0 < n <= MAX_BUFFER
    requires AfterComma(args).Some? && ParseWhole(AfterComma(args).value, 0) == Some(n)
    requires ResolveAddress(BeforeComma(args), ctx, e.labels) != 0
    ensures n <= |world.memory|
    ensures EmitLine(ReadMem(args), e, ctx, world)
         == Emission(Wrap(e.address + n), e.labels, e.patches + [Patch(e.address, world.memory[..n])])
  {
    hide ResolveAddress, ParseWhole, Wrap, AfterComma, BeforeComma;
  }

  /** LOADBINARY(target, file): what the file holds, at the target; the script stays where it is. */
  lemma LoadBinaryIsWritten(lines: seq<string>, worlds: seq<World>, i: nat, target: string, file: string, ctx: Context,
                            labels: seq<Label>)
    requires Past(lines, worlds, i, ctx, labels) && PlainArgument(target)
    requires file != [] && !IsSpaceChar(file[|file| - 1]) && file[|file| - 1] != ':'
    requires lines[i] == "__LOADBINARY__:" + (target + "," + file)
    ensures var e := EmitTo(lines, worlds, i, ctx, labels);
            Adds(lines, worlds, i, ctx, labels,
                 Patch(ResolveAddress(TrimLine(target), ctx, e.labels), worlds[i].file), e.address)
  {
    hide Classify, EmitTo, TrimLine, ResolveAddress, IsLabelDefinition, PlainArgument;
    var args := target + "," + file;
    assert args[|args| - 1] == file[|file| - 1];
    DirectiveLine("__LOADBINARY__:", args);
    LoadBinaryDirective(args);
    FirstPart(target, file, 2);
    EmitNext(lines, worlds, i, ctx, labels);
    TrimTwice(target);
  }
}
