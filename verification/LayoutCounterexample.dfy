/** Two scripts that emission lays out otherwise than sizing did. In one a READMEM from a source that does not
    resolve is sized and then not copied, so that a reference to the label after it holds the wrong address. In
    the other a declared label has no definition: its name is sized as an address and emitted as it stands. */
module LayoutCounterexample {
  import opened Text
  import opened ScriptText
  import opened TokenCuts
  import opened WordMeanings
  import opened Layout
  import opened SymbolOrder
  import opened LooseLabels
  import opened LayoutAgreement

  const CAVE := "cave:"
  const READ := "__READMEM__:q,4"
  const REFERENCE := "dq l"
  const AFTER := "l:"
  const SCRIPT: seq<string> := [CAVE, READ, REFERENCE, AFTER]

  lemma DefinitionLine(name: string)
    requires name != [] && !IsSpaceChar(name[0]) && ' ' !in name && '\t' !in name
    ensures Classify(name + ":") == Definition(name)
  {
    var line := name + ":";
    assert SkipSpaces(line) == line && DropSpaces(line) == line;
    assert line[..|line| - 1] == name;
  }

  /** Two texts that differ somewhere: neither starts with the other. */
  lemma NotPrefix(s: string, p: string, i: nat)
    requires i < |p| && i < |s| && p[i] != s[i]
    ensures !StartsWith(s, p)
  {
  }

  lemma ReadLine()
    ensures Classify(READ) == ReadMem("q,4")
  {
    hide StartsWith;
    assert TrimLine(READ) == READ;
    assert !IsLabelDefinition(READ) by { assert READ[|READ| - 1] == '4'; }
    NotPrefix(READ, "__UNREGISTERSYMBOL__:", 2);
    NotPrefix(READ, "__FULLACCESS__:", 2);
    NotPrefix(READ, "__ASSERT__:", 2);
    NotPrefix(READ, "__DEALLOC__:", 2);
    NotPrefix(READ, "__CREATETHREAD__:", 2);
    NotPrefix(READ, "__CREATETHREADANDWAIT__:", 2);
    NotPrefix(READ, "__LOADBINARY__:", 2);
    NotPrefix(READ, "__LOADLIBRARY__:", 2);
    NotPrefix(READ, "__REASSEMBLE__:", 5);
    ReadPrefix();
  }

  lemma ReadPrefix()
    ensures StartsWith(READ, "__READMEM__:") && READ[12..] == "q,4"
  {
    assert READ[..12] == "__READMEM__:";
  }

  lemma ReferenceLine()
    ensures Classify(REFERENCE) == Data("DQ", "l")
  {
    hide Classify, IsDataLine;
    assert TrimLine(REFERENCE) == REFERENCE;
    assert REFERENCE[|REFERENCE| - 1] == 'l';
    PlainLine(REFERENCE);
    UpperReference();
    assert Upper(REFERENCE)[..2] == "DQ";
    assert REFERENCE[3..] == "l" && TrimLine("l") == "l";
  }

  /** A line that is no definition and no directive holds data or an instruction. */
  lemma PlainLine(t: string)
    requires TrimLine(t) == t && t != [] && t[0] != '_' && t[|t| - 1] != ':'
    ensures Classify(t) == if IsDataLine(t) then Data(Upper(t)[..2], TrimLine(t[3..])) else Instruction(t)
  {
    hide TrimLine, Upper, StartsWith, IsDataLine;
    NotPrefix(t, "__UNREGISTERSYMBOL__:", 0);
    NotPrefix(t, "__FULLACCESS__:", 0);
    NotPrefix(t, "__ASSERT__:", 0);
    NotPrefix(t, "__DEALLOC__:", 0);
    NotPrefix(t, "__CREATETHREAD__:", 0);
    NotPrefix(t, "__CREATETHREADANDWAIT__:", 0);
    NotPrefix(t, "__LOADLIBRARY__:", 0);
    NotPrefix(t, "__LOADBINARY__:", 0);
    NotPrefix(t, "__REASSEMBLE__:", 0);
    NotPrefix(t, "__READMEM__:", 0);
    NotPrefix(t, "__FILLMEM__:", 0);
    NotPrefix(t, "__NOP__:", 0);
    NotPrefix(t, "__DS__:", 0);
  }

  lemma UpperReference()
    ensures Upper(REFERENCE) == "DQ L" && IsDataLine(REFERENCE)
  {
    assert REFERENCE[1..] == "q l" && "q l"[1..] == " l" && " l"[1..] == "l" && "l"[1..] == "";
    assert Upper("l") == "L" && Upper(" l") == " L" && Upper("q l") == "Q L";
    assert "DQ L"[..3] == "DQ ";
  }

  lemma LinesAre()
    ensures Classify(REFERENCE) == Data("DQ", "l")
    ensures Classify(CAVE) == Definition("cave")
    ensures Classify(READ) == ReadMem("q,4")
    ensures Classify(AFTER) == Definition("l")
  {
    hide Classify;
    DefinitionLine("cave");
    DefinitionLine("l");
    ReadLine();
    ReferenceLine();
    assert CAVE == "cave" + ":" && AFTER == "l" + ":";
  }

  lemma ArgumentsAre()
    ensures AfterComma("q,4") == Some("4") && BeforeComma("q,4") == "q"
  {
    assert FirstOf("q,4", ',', 0) == 1;
    assert "q,4"[2..] == "4" && "q,4"[..1] == "q";
  }

  lemma FourIsANumeral()
    ensures IsNumeral("4", 10) && Numeral("4", 10) == 4
  {
    assert IsDigit('4', 10);
    assert "4"[..0] == [];
  }

  lemma FourHasMagnitude()
    ensures Magnitude("4", 0) == Some(Parsed(4, 1))
  {
    FourIsANumeral();
    DigitPrefixAll("4", 10);
    hide IsNumeral, Numeral, DigitValue, IsDigit, DigitPrefix;
    assert "4"[0..] == "4" && "4"[..1] == "4";
  }

  lemma SizeIsFour()
    ensures Stoull("4", 0) == Some(Parsed(4, 1)) && ParseWhole("4", 0) == Some(4)
  {
    hide Magnitude;
    FourHasMagnitude();
    assert "4"[0..] == "4";
    assert LeadingSpaces("4") == 0;
    assert Stoull("4", 0) == Some(Parsed(4, 1));
    assert TrimLine("4") == "4";
  }

  lemma NotHex()
    ensures ParseWhole("q", 16).None?
  {
    assert Magnitude("q", 16).None? by {
      assert "q"[0..] == "q";
      assert !IsDigit('q', 16);
      assert DigitPrefix("q", 16) == 0;
    }
    hide Magnitude;
    assert "q"[0..] == "q" && LeadingSpaces("q") == 0;
    assert TrimLine("q") == "q";
  }

  lemma SourceIsUnknown(ctx: Context, labels: seq<Label>)
    requires ctx.allocs == [Alloc("cave", 0x1000)] && ctx.defines == [] && "q" !in ctx.globals
    requires |labels| == 1 && labels[0].name == "l"
    ensures ResolveAddress("q", ctx, labels) == 0
  {
    hide ParseWhole, TrimLine;
    NotHex();
    QTrims();
    assert FirstOf("q", '+', 0) == 1;
    assert LabelIndex(labels, "q") == 1;
    assert FindAlloc(ctx.allocs, "q").None? by {
      assert ctx.allocs[1..] == [];
      assert "cave"[0] != "q"[0];
    }
  }

  lemma QTrims()
    ensures TrimLine("q") == "q"
  {
  }

  // ----- what the reference holds -----

  function LittleEndian(n: nat, bytes: nat): seq<int> {
    if bytes == 0 then [] else [n % 0x100] + LittleEndian(n / 0x100, bytes - 1)
  }

  /** dq lays down an address in eight bytes. */
  ghost predicate WritesAddresses(ctx: Context) {
    forall a: U64 :: ctx.data("DQ", Hex(a)) == Some(LittleEndian(a, 8))
  }

  lemma {:induction false} LittleEndianLength(n: nat, bytes: nat)
    ensures |LittleEndian(n, bytes)| == bytes
  {
    if bytes > 0 {
      LittleEndianLength(n / 0x100, bytes - 1);
    }
  }

  lemma LettersOfToken(s: string, name: string, i: nat, d: nat)
    requires At(s, name, i) && d < |name|
    ensures name[d] in s
  {
    assert s[i + d] == s[i..i + |name|][d];
  }

  lemma FreeWithoutItsLetter(s: string, name: string, d: nat)
    requires d < |name| && name[d] !in s
    ensures !HasToken(s, name)
  {
    forall i: nat ensures !WholeTokenAt(s, name, i) {
      if WholeTokenAt(s, name, i) {
        LettersOfToken(s, name, i, d);
      }
    }
  }

  lemma OneName(name: string)
    ensures LongestFirst([]) == [] && forall v: string :: LongestFirst([Replacement(name, v)]) == [Replacement(name, v)]
  {
    forall v: string ensures LongestFirst([Replacement(name, v)]) == [Replacement(name, v)] {
      assert [Replacement(name, v)][..0] == [];
      assert InsertByLength(Replacement(name, v), []) == [Replacement(name, v)];
    }
  }

  /** The replacements where only the cave and one label have names. */
  lemma ReplacementsAre(ctx: Context, only: Label)
    requires ctx.allocs == [Alloc("cave", 0x1000)] && ctx.defines == []
    ensures AllReplacements(ctx, [only])
         == [Replacement("cave", Hex(0x1000))] + if only.address == 0 then [] else [Replacement(only.name, Hex(only.address))]
  {
    hide LongestFirst, Hex;
    OneName("cave");
    OneName(only.name);
    assert ctx.allocs[1..] == [] && [only][1..] == [];
    assert AllocReplacements(ctx.allocs) == [Replacement("cave", Hex(0x1000))] + [];
    var mine := if only.address == 0 then [] else [Replacement(only.name, Hex(only.address))];
    assert LabelReplacements([only]) == mine + [] == mine;
    var cave := [Replacement("cave", Hex(0x1000))];
    assert cave + [] == cave && [] + cave + mine == cave + mine;
    assert LongestFirst(AllocReplacements(ctx.allocs)) == cave && LongestFirst(mine) == mine;
  }

  lemma WordsHere()
    ensures IsIdentifier("l") && IsIdentifier("cave") && IsIdentifier("rax") && "cave" != "l"
  {
    assert "cave"[0] != "l"[0];
  }

  /** Sizing and emission read the address of the label there, once it has one; before that, sizing reads the
      current address. */
  lemma ReferenceReads(ctx: Context, a: U64, here: U64)
    requires ctx.allocs == [Alloc("cave", 0x1000)] && ctx.defines == []
    ensures SubstituteForSizing("l", here, ctx, [Label("l", a)]) == Hex(if a == 0 then here else a)
    ensures a != 0 ==> Substitute("l", ctx, [Label("l", a)]) == Hex(a)
  {
    hide Hex, ReplaceOutsideQuotes, IsIdentifier, ReplaceAll;
    var only := Label("l", a);
    WordsHere();
    HexIsWord(a);
    HexIsWord(here);
    ReplacementsAre(ctx, only);
    assert [only][1..] == [];
    var cave := Replacement("cave", Hex(0x1000));
    if a == 0 {
      assert AllReplacements(ctx, [only]) == [cave] && [cave][1..] == [];
      WordRewritten("l", [cave]);
      var standIn := [Replacement("l", Hex(here))];
      assert Placeholders([only], here) == standIn + [] == standIn && standIn[1..] == [];
      WordRewritten("l", standIn);
      assert ReplaceAll(Hex(here), []) == Hex(here) by { SpanKept(Hex(here), []); }
    } else {
      var reps := [cave, Replacement("l", Hex(a))];
      assert AllReplacements(ctx, [only]) == reps && reps[1..] == [Replacement("l", Hex(a))] && reps[1..][1..] == [];
      WordRewritten("l", reps);
      assert ReplaceAll(Hex(a), []) == Hex(a) by { SpanKept(Hex(a), []); }
      assert Placeholders([only], here) == [] + [];
      NothingToReplace(Hex(a));
    }
  }

  lemma EmittedTooEarly(ctx: Context, worlds: seq<World>)
    requires ctx.allocs == [Alloc("cave", 0x1000)] && ctx.defines == [] && "q" !in ctx.globals && WritesAddresses(ctx)
    requires |worlds| == 4 && (forall i :: 0 <= i < 4 ==> !worlds[i].refuses) && Ordinary(SCRIPT)
    ensures EmitTo(SCRIPT, worlds, 4, ctx, [Label("l", 0x100c)])
         == Emission(0x1008, [Label("l", 0x1008)], [Patch(0x1000, LittleEndian(0x100c, 8))])
  {
    hide Classify, Stoull, ParseWhole, ResolveAddress, AfterComma, BeforeComma, Hex, Substitute, LittleEndian, Ordinary;
    LinesAre();
    ArgumentsAre();
    SizeIsFour();
    NamesAre(ctx);
    LittleEndianLength(0x100c, 8);
    var labels := [Label("l", 0x100c)];
    SourceIsUnknown(ctx, labels);
    ReferenceReads(ctx, 0x100c, 0x1000);
    assert EmitTo(SCRIPT, worlds, 1, ctx, labels) == Emission(0x1000, labels, []);
    assert EmitTo(SCRIPT, worlds, 2, ctx, labels) == Emission(0x1000, labels, []);
    var held := [Patch(0x1000, LittleEndian(0x100c, 8))];
    assert EmitTo(SCRIPT, worlds, 3, ctx, labels) == Emission(0x1008, labels, held);
    assert LabelIndex(labels, "l") == 0;
    assert Bind(labels, 0, 0x1008) == [Label("l", 0x1008)];
  }

  /** The label is defined at 0x1008, and the line that refers to it holds 0x100c. */
  lemma UnresolvedReadMemShiftsLabel(ctx: Context, worlds: seq<World>)
    requires ctx.allocs == [Alloc("cave", 0x1000)] && ctx.defines == [] && "q" !in ctx.globals && WritesAddresses(ctx)
    requires |worlds| == 4 && forall i :: 0 <= i < 4 ==> !worlds[i].refuses
    ensures Ordinary(SCRIPT) && Resolve(SCRIPT, ctx, [Label("l", 0)], MAX_PASSES) == Resolved([Label("l", 0x100c)])
    ensures EmitTo(SCRIPT, worlds, 4, ctx, [Label("l", 0x100c)])
         == Emission(0x1008, [Label("l", 0x1008)], [Patch(0x1000, [0x0c, 0x10, 0, 0, 0, 0, 0, 0])])
  {
    hide Ordinary, EmitTo, SizeTo, LittleEndian, WritesAddresses;
    Passes(ctx, 0, true);
    Passes(ctx, 0x100c, false);
    assert Resolve(SCRIPT, ctx, [Label("l", 0x100c)], MAX_PASSES - 1) == Resolved([Label("l", 0x100c)]);
    EmittedTooEarly(ctx, worlds);
    WrongBytes();
  }

  lemma WrongBytes()
    ensures LittleEndian(0x100c, 8) == [0x0c, 0x10, 0, 0, 0, 0, 0, 0]
  {
    assert LittleEndian(0, 6) == [0, 0, 0, 0, 0, 0];
    assert LittleEndian(0x10, 7) == [0x10] + LittleEndian(0, 6);
  }

  lemma NamesAre(ctx: Context)
    requires ctx.allocs == [Alloc("cave", 0x1000)]
    ensures FindAlloc(ctx.allocs, "cave") == Some(0x1000) && FindAlloc(ctx.allocs, "l").None?
  {
    assert ctx.allocs[1..] == [];
    assert "cave"[0] != "l"[0];
  }

  lemma Passes(ctx: Context, address: U64, changes: bool)
    requires ctx.allocs == [Alloc("cave", 0x1000)] && ctx.defines == [] && WritesAddresses(ctx)
    requires changes == (address != 0x100c)
    ensures Ordinary(SCRIPT)
    ensures SizeTo(SCRIPT, 4, ctx, [Label("l", address)]) == Sizing(0x100c, [Label("l", 0x100c)], changes)
  {
    hide Classify, Stoull, ParseWhole, ResolveAddress, AfterComma, BeforeComma, Hex, Substitute, SubstituteForSizing,
      LittleEndian;
    LinesAre();
    NoneBlank();
    ArgumentsAre();
    SizeIsFour();
    NamesAre(ctx);
    var labels := [Label("l", address)];
    ReferenceReads(ctx, address, 0x1004);
    LittleEndianLength(if address == 0 then 0x1004 else address, 8);
    assert SizeTo(SCRIPT, 1, ctx, labels) == Sizing(0x1000, labels, false);
    assert SizeTo(SCRIPT, 2, ctx, labels) == Sizing(0x1004, labels, false);
    assert SizeTo(SCRIPT, 3, ctx, labels) == Sizing(0x100c, labels, false);
    assert LabelIndex(labels, "l") == 0;
    assert Bind(labels, 0, 0x100c) == [Label("l", 0x100c)];
  }

  lemma NoneBlank()
    ensures forall i :: 0 <= i < |SCRIPT| ==> TrimLine(SCRIPT[i]) != []
  {
    assert TrimLine(CAVE) == CAVE && TrimLine(READ) == READ && TrimLine(REFERENCE) == REFERENCE && TrimLine(AFTER) == AFTER;
  }

  // ----- a label without a definition -----

  const CALL := "call rax"
  const UNDEFINED: seq<string> := [CAVE, CALL]

  lemma CallLine()
    ensures Classify(CALL) == Instruction(CALL) && TrimLine(CALL) == CALL && TrimLine(CAVE) == CAVE
  {
    hide Classify, StartsWith;
    assert TrimLine(CALL) == CALL && TrimLine(CAVE) == CAVE;
    assert CALL[|CALL| - 1] == 'x';
    PlainLine(CALL);
    assert Upper(CALL)[0] == 'C';
    NotPrefix(Upper(CALL), "DB ", 0);
    NotPrefix(Upper(CALL), "DW ", 0);
    NotPrefix(Upper(CALL), "DD ", 0);
    NotPrefix(Upper(CALL), "DQ ", 0);
  }

  lemma CallStays(cave: Replacement)
    requires cave.name == "cave"
    ensures ReplaceOutsideQuotes(CALL, [cave]) == CALL
  {
    hide ReplaceOutsideQuotes, HasToken, FreeOf;
    CallSpan();
    FreeWithoutItsLetter(CALL, "cave", 2);
    TextKept(CALL, [cave]);
  }

  lemma CallSized(standIn: seq<Replacement>)
    requires standIn == [Replacement("rax", Hex(0x1000))]
    ensures ReplaceOutsideQuotes(CALL, standIn) == "call " + Hex(0x1000)
  {
    hide Hex, ReplaceOutsideQuotes, IsIdentifier, ReplaceAll, HasToken, FreeOf, SpanLength, Closed;
    WordsHere();
    CallSpan();
    assert CALL == "call " + "rax" + [];
    WordStandsFor("call ", "rax", [], standIn);
    assert ReplaceAll(Hex(0x1000), []) == Hex(0x1000) by { SpanKept(Hex(0x1000), []); }
    assert standIn[1..] == [];
    FreeWithoutItsLetter("call ", "rax", 0);
    TextKept("call ", standIn);
    NothingLeft(standIn);
  }

  /** The register's name is sized as the current address and emitted as a register. */
  lemma CallReads(ctx: Context)
    requires ctx.allocs == [Alloc("cave", 0x1000)] && ctx.defines == []
    ensures Substitute(CALL, ctx, [Label("rax", 0)]) == CALL
    ensures SubstituteForSizing(CALL, 0x1000, ctx, [Label("rax", 0)]) == "call " + Hex(0x1000)
  {
    hide Hex, ReplaceOutsideQuotes, LongestFirst;
    var only, cave := Label("rax", 0), Replacement("cave", Hex(0x1000));
    ReplacementsAre(ctx, only);
    assert AllReplacements(ctx, [only]) == [cave];
    CallStays(cave);
    var standIn := [Replacement("rax", Hex(0x1000))];
    assert [only][1..] == [] && standIn + [] == standIn;
    assert Placeholders([only], 0x1000) == standIn;
    CallSized(standIn);
  }

  lemma CallSpan()
    ensures SpanLength("call ") == 5 && Closed("call ") && !EndsInIdent("call ")
    ensures SpanLength(CALL) == |CALL|
    ensures forall name: string :: FreeOf(CALL, name) <==> !HasToken(CALL, name)
    ensures forall name: string :: FreeOf("call ", name) <==> !HasToken("call ", name)
  {
    SpanIsAll("call ");
    SpanIsAll(CALL);
    assert CALL[..|CALL|] == CALL && CALL[|CALL|..] == [];
    assert "call "[..5] == "call " && "call "[5..] == [];
  }

  /** No READMEM at all: the passes part at the label that no line defines. */
  lemma UndefinedLabelShifts(ctx: Context, worlds: seq<World>)
    requires ctx.allocs == [Alloc("cave", 0x1000)] && ctx.defines == []
    requires ctx.assemble(CALL, 0x1000).Some? && |ctx.assemble(CALL, 0x1000).value| == 2
    requires ctx.assemble("call " + Hex(0x1000), 0x1000).Some? && |ctx.assemble("call " + Hex(0x1000), 0x1000).value| == 5
    requires |worlds| == 2 && forall i :: 0 <= i < 2 ==> !worlds[i].refuses
    ensures var labels := [Label("rax", 0)];
            Ordinary(UNDEFINED) && Resolve(UNDEFINED, ctx, labels, MAX_PASSES) == Resolved(labels) &&
            SizeTo(UNDEFINED, 2, ctx, labels) == Sizing(0x1005, labels, false) &&
            EmitTo(UNDEFINED, worlds, 2, ctx, labels).Emission? &&
            EmitTo(UNDEFINED, worlds, 2, ctx, labels).address == 0x1002
  {
    hide Classify, Hex, Substitute, SubstituteForSizing, ResolveAddress;
    var labels := [Label("rax", 0)];
    LinesAre();
    CallLine();
    NamesAre(ctx);
    CallReads(ctx);
    assert SizeTo(UNDEFINED, 1, ctx, labels) == Sizing(0x1000, labels, false);
    assert EmitTo(UNDEFINED, worlds, 1, ctx, labels) == Emission(0x1000, labels, []);
  }
}
