/** What stands in the emitted code where a line refers to a label: the address the label is emitted at. */
module LabelReferences {
  import opened Text
  import opened ScriptText
  import opened TokenCuts
  import opened WordMeanings
  import opened Layout
  import opened SymbolOrder
  import opened LooseLabels
  import opened LayoutAgreement

  // ----- one reference -----

  predicate Undefined(name: string, ctx: Context) {
    forall i :: 0 <= i < |ctx.defines| ==> ctx.defines[i].name != name
  }

  lemma NotAmongDefines(name: string, ctx: Context)
    requires Undefined(name, ctx)
    ensures FirstValue(LongestFirst(DefineReplacements(ctx.defines)), name).None?
  {
    hide LongestFirst;
    var reps := LongestFirst(DefineReplacements(ctx.defines));
    SortKeepsAll(DefineReplacements(ctx.defines));
    DefineReplacementsAre(ctx.defines);
    forall r | r in reps ensures r.name != name {
      var i :| 0 <= i < |ctx.defines| && ctx.defines[i] == Define(r.name, r.value);
    }
    FirstValueNone(reps, name);
  }

  lemma NotAmongAllocs(name: string, ctx: Context)
    requires forall i :: 0 <= i < |ctx.allocs| ==> ctx.allocs[i].name != name
    ensures FirstValue(LongestFirst(AllocReplacements(ctx.allocs)), name).None?
  {
    hide LongestFirst, Hex;
    var reps := LongestFirst(AllocReplacements(ctx.allocs));
    SortKeepsAll(AllocReplacements(ctx.allocs));
    forall r | r in reps ensures r.name != name {
      AllocReplacementsAre(ctx.allocs, r);
    }
    FirstValueNone(reps, name);
  }

  lemma AllNamesAreIdentifiers(ctx: Context, labels: seq<Label>)
    requires NamesAreIdentifiers(ctx, labels)
    ensures AllIdentifiers(AllReplacements(ctx, labels))
  {
    hide LongestFirst, Hex, IdentifierOrNone, AddressReplacements;
    var defines, addresses := LongestFirst(DefineReplacements(ctx.defines)), AddressReplacements(ctx, labels);
    InTwo(ctx, labels);
    SortKeepsAll(DefineReplacements(ctx.defines));
    DefineReplacementsAre(ctx.defines);
    AddressesAreIdentifiers(ctx, labels);
    forall q | 0 <= q < |defines| ensures IdentifierOrNone(defines[q].name) {
      assert defines[q] in defines;
      var i :| 0 <= i < |ctx.defines| && ctx.defines[i] == Define(defines[q].name, defines[q].value);
    }
    IdentifiersInTwo(defines, addresses);
  }

  lemma IdentifiersInTwo(a: seq<Replacement>, b: seq<Replacement>)
    requires (forall q :: 0 <= q < |a| ==> IdentifierOrNone(a[q].name)) && AllIdentifiers(b)
    ensures AllIdentifiers(a + b)
  {
  }

  lemma InTwo(ctx: Context, labels: seq<Label>)
    ensures AllReplacements(ctx, labels)
         == LongestFirst(DefineReplacements(ctx.defines)) + AddressReplacements(ctx, labels)
  {
    hide LongestFirst;
  }

  // ----- labels in the order of their replacement -----

  function Bound(labels: seq<Label>): seq<Label> {
    if labels == [] then [] else (if labels[0].address == 0 then [] else [labels[0]]) + Bound(labels[1..])
  }

  function InsertLabel(l: Label, ls: seq<Label>): seq<Label> {
    if ls == [] || |ls[0].name| < |l.name| then [l] + ls else [ls[0]] + InsertLabel(l, ls[1..])
  }

  /** Longest names first, otherwise as declared. */
  function InOrder(labels: seq<Label>): seq<Label> {
    if labels == [] then [] else InsertLabel(labels[|labels| - 1], InOrder(labels[..|labels| - 1]))
  }

  function ByAddress(labels: seq<Label>): (reps: seq<Replacement>)
    ensures |reps| == |labels|
    ensures forall i :: 0 <= i < |labels| ==> reps[i] == Replacement(labels[i].name, Hex(labels[i].address))
  {
    seq(|labels|, i requires 0 <= i < |labels| => Replacement(labels[i].name, Hex(labels[i].address)))
  }

  lemma {:induction false} ReplacementsByAddress(labels: seq<Label>)
    ensures LabelReplacements(labels) == ByAddress(Bound(labels))
  {
    hide Hex;
    if labels != [] {
      ReplacementsByAddress(labels[1..]);
    }
  }

  lemma {:induction false} InsertByAddress(l: Label, ls: seq<Label>)
    ensures InsertByLength(Replacement(l.name, Hex(l.address)), ByAddress(ls)) == ByAddress(InsertLabel(l, ls))
  {
    hide Hex;
    if ls != [] && |ls[0].name| >= |l.name| {
      InsertByAddress(l, ls[1..]);
      assert ByAddress(ls)[1..] == ByAddress(ls[1..]);
    }
  }

  lemma {:induction false} OrderByAddress(labels: seq<Label>)
    ensures LongestFirst(ByAddress(labels)) == ByAddress(InOrder(labels))
    decreases |labels|
  {
    hide Hex, InsertByLength, InsertLabel;
    if labels != [] {
      var n := |labels| - 1;
      OrderByAddress(labels[..n]);
      InsertByAddress(labels[n], InOrder(labels[..n]));
      assert ByAddress(labels)[..n] == ByAddress(labels[..n]);
    }
  }

  // ----- the address a reference ends up with -----

  /** The labels after the first one of that name. */
  function Later(labels: seq<Label>, name: string): seq<Label> {
    if labels == [] then [] else if labels[0].name == name then labels[1..] else Later(labels[1..], name)
  }

  /** What is left of an address that stands in the text when the labels of the list are replaced: one that is
      called like the address puts its own in its place. */
  function FinalAddress(a: U64, later: seq<Label>): U64
    decreases |later|
  {
    if later == [] then a
    else FinalAddress(if later[0].name == Hex(a) then later[0].address else a, later[1..])
  }

  /** The address that stands for the label's name in the end. */
  function StandsFor(k: nat, labels: seq<Label>): U64
    requires k < |labels|
  {
    FinalAddress(labels[k].address, Later(InOrder(Bound(labels)), labels[k].name))
  }

  lemma HexIsOneToOne(a: U64, b: U64)
    requires Hex(a) == Hex(b)
    ensures a == b
  {
    assert Hex(a)[2..] == Digits(a, 16) && Hex(b)[2..] == Digits(b, 16);
    NumeralOfDigits(a, 16);
    NumeralOfDigits(b, 16);
  }

  lemma {:induction false} AddressFollowed(a: U64, later: seq<Label>)
    ensures Meaning(Hex(a), ByAddress(later)) == Hex(FinalAddress(a, later))
    decreases |later|
  {
    hide Hex, ReplaceAll;
    if later != [] {
      assert ByAddress(later)[1..] == ByAddress(later[1..]);
      var b := if later[0].name == Hex(a) then later[0].address else a;
      HexIsWord(b);
      WordBecomes(Hex(b), ByAddress(later[1..]));
      AddressFollowed(b, later[1..]);
    }
  }

  lemma {:induction false} NameFollowed(name: string, a: U64, labels: seq<Label>)
    requires FirstValue(ByAddress(labels), name) == Some(Hex(a))
    ensures Meaning(name, ByAddress(labels)) == Hex(FinalAddress(a, Later(labels, name)))
    decreases |labels|
  {
    hide Hex, ReplaceAll, FinalAddress;
    assert ByAddress(labels)[1..] == ByAddress(labels[1..]);
    if labels[0].name == name {
      HexIsOneToOne(a, labels[0].address);
      HexIsWord(a);
      WordBecomes(Hex(a), ByAddress(labels[1..]));
      AddressFollowed(a, labels[1..]);
    } else {
      NameFollowed(name, a, labels[1..]);
    }
  }

  lemma LabelMeansAddress(k: nat, ctx: Context, labels: seq<Label>)
    requires k < |labels| && Foremost(k, ctx, labels) && labels[k].address != 0 && Undefined(labels[k].name, ctx)
    ensures Meaning(labels[k].name, AllReplacements(ctx, labels)) == Hex(StandsFor(k, labels))
  {
    hide LongestFirst, Hex, FindAlloc, LabelReplacements, AllocReplacements, LabelIndex, Meaning, ByAddress, Bound, InOrder;
    var name := labels[k].name;
    var a, b, c := LongestFirst(DefineReplacements(ctx.defines)), LongestFirst(AllocReplacements(ctx.allocs)),
      LongestFirst(LabelReplacements(labels));
    NotAmongDefines(name, ctx);
    FindAllocIs(ctx.allocs, name);
    NotAmongAllocs(name, ctx);
    FirstOfAppended(a, b, name);
    MeaningSkips(name, a + b, c);
    SortKeepsAll(LabelReplacements(labels));
    FirstLabelStands(labels, k);
    ReplacementsByAddress(labels);
    OrderByAddress(Bound(labels));
    NameFollowed(name, labels[k].address, InOrder(Bound(labels)));
  }

  /** A reference to a label, outside the literals of a line, becomes an address; the text on both sides becomes what
      it would by itself. */
  lemma ReferenceBecomesAddress(before: string, k: nat, after: string, ctx: Context, labels: seq<Label>)
    requires NamesAreIdentifiers(ctx, labels) && k < |labels| && IsIdentifier(labels[k].name)
    requires Foremost(k, ctx, labels) && labels[k].address != 0 && Undefined(labels[k].name, ctx)
    requires Closed(before) && !EndsInIdent(before) && !StartsInIdent(after)
    ensures Substitute(before + labels[k].name + after, ctx, labels)
         == Substitute(before, ctx, labels) + Hex(StandsFor(k, labels)) + Substitute(after, ctx, labels)
  {
    hide LongestFirst, Hex, FindAlloc, LabelReplacements, AllocReplacements, ReplaceOutsideQuotes, Closed, EndsInIdent,
      StartsInIdent, IsIdentifier, NamesAreIdentifiers, Meaning, AllIdentifiers, Foremost, Undefined, StandsFor;
    AllNamesAreIdentifiers(ctx, labels);
    LabelMeansAddress(k, ctx, labels);
    WordStandsFor(before, labels[k].name, after, AllReplacements(ctx, labels));
  }

  lemma MiddleIs(a: string, x: string, y: string, b: string)
    requires a + x + b == a + y + b
    ensures x == y
  {
    assert |x| == |y|;
    assert (a + x + b)[|a|..|a| + |x|] == x && (a + y + b)[|a|..|a| + |y|] == y;
  }

  /** It becomes the label's own address exactly when following the labels that are replaced after it leads back
      there. */
  lemma ReferenceKeepsAddressIff(before: string, k: nat, after: string, ctx: Context, labels: seq<Label>)
    requires NamesAreIdentifiers(ctx, labels) && k < |labels| && IsIdentifier(labels[k].name)
    requires Foremost(k, ctx, labels) && labels[k].address != 0 && Undefined(labels[k].name, ctx)
    requires Closed(before) && !EndsInIdent(before) && !StartsInIdent(after)
    ensures Substitute(before + labels[k].name + after, ctx, labels)
         == Substitute(before, ctx, labels) + Hex(labels[k].address) + Substitute(after, ctx, labels)
       <==> StandsFor(k, labels) == labels[k].address
  {
    hide *;
    ReferenceBecomesAddress(before, k, after, ctx, labels);
    var s, own, other := Substitute(before + labels[k].name + after, ctx, labels), Hex(labels[k].address), Hex(StandsFor(k, labels));
    if s == Substitute(before, ctx, labels) + own + Substitute(after, ctx, labels) {
      MiddleIs(Substitute(before, ctx, labels), own, other, Substitute(after, ctx, labels));
      HexIsOneToOne(labels[k].address, StandsFor(k, labels));
    }
  }

  // ----- labels called like an address -----

  /** Some label replaced later is called like the address and has another. */
  predicate TakenOver(a: U64, later: seq<Label>) {
    exists m :: 0 <= m < |later| && later[m].name == Hex(a) && later[m].address != a
  }

  /** A later label leads to the address under another name than its own text. */
  predicate LeadsBack(a: U64, later: seq<Label>) {
    exists m :: 0 <= m < |later| && later[m].address == a && later[m].name != Hex(a)
  }

  lemma {:induction false} StaysAway(a: U64, b: U64, later: seq<Label>)
    requires a != b && !LeadsBack(a, later)
    ensures FinalAddress(b, later) != a
    decreases |later|
  {
    hide Hex;
    if later != [] {
      if Hex(a) == Hex(b) {
        HexIsOneToOne(a, b);
      }
      var b' := if later[0].name == Hex(b) then later[0].address else b;
      assert forall m :: 0 <= m < |later| - 1 ==> later[1..][m] == later[m + 1];
      assert b' != a;
      StaysAway(a, b', later[1..]);
    }
  }

  /** The address stays when no later label takes it over; and when none leads back to it, only then. */
  lemma {:induction false} AddressStaysIff(a: U64, later: seq<Label>)
    ensures !TakenOver(a, later) ==> FinalAddress(a, later) == a
    ensures TakenOver(a, later) && !LeadsBack(a, later) ==> FinalAddress(a, later) != a
    decreases |later|
  {
    hide Hex;
    if later != [] {
      assert forall m :: 0 <= m < |later| - 1 ==> later[1..][m] == later[m + 1];
      if later[0].name == Hex(a) && later[0].address != a {
        if !LeadsBack(a, later) {
          assert !LeadsBack(a, later[1..]);
          StaysAway(a, later[0].address, later[1..]);
        }
      } else {
        TailIs(a, later);
        AddressStaysIff(a, later[1..]);
      }
    }
  }

  lemma TailIs(a: U64, later: seq<Label>)
    requires later != [] && !(later[0].name == Hex(a) && later[0].address != a)
    ensures TakenOver(a, later) <==> TakenOver(a, later[1..])
    ensures LeadsBack(a, later[1..]) ==> LeadsBack(a, later)
  {
    hide Hex;
    assert forall m :: 0 <= m < |later| - 1 ==> later[1..][m] == later[m + 1];
    if TakenOver(a, later) {
      var m :| 0 <= m < |later| && later[m].name == Hex(a) && later[m].address != a;
      assert later[1..][m - 1] == later[m];
    }
  }

  // ----- the whole script -----

  /** The text of a line that is assembled. */
  function Source(line: Line): Option<string> {
    match line
    case Data(_, values) => Some(values)
    case Instruction(text) => Some(text)
    case _ => None
  }

  /** What the assembler makes of a line's text once its symbols are replaced. */
  function Assembled(line: Line, text: string, address: U64, ctx: Context): Option<seq<int>>
    requires Source(line).Some?
  {
    if line.Data? then ctx.data(line.op, text) else ctx.assemble(text, address)
  }

  /** At line `j` the assembly of the text is written, and nothing else. */
  predicate Writes(lines: seq<string>, worlds: seq<World>, j: nat, text: string, ctx: Context, labels: seq<Label>)
    requires j < |lines| == |worlds| && Ordinary(lines) && Source(Classify(lines[j])).Some?
  {
    var e, e' := EmitTo(lines, worlds, j, ctx, labels), EmitTo(lines, worlds, j + 1, ctx, labels);
    e.Emission? && e'.Emission? &&
    var bytes := Assembled(Classify(lines[j]), text, e.address, ctx);
    bytes.Some? && e'.patches == e.patches + if bytes.value == [] then [] else [Patch(e.address, bytes.value)]
  }

  lemma EmittedLine(lines: seq<string>, worlds: seq<World>, j: nat, ctx: Context, labels: seq<Label>)
    requires j < |lines| == |worlds| && Ordinary(lines)
    requires EmitTo(lines, worlds, j + 1, ctx, labels).Emission? && EmitTo(lines, worlds, j, ctx, labels).Emission?
    requires EmitTo(lines, worlds, j, ctx, labels).labels == labels && Source(Classify(lines[j])).Some?
    ensures Writes(lines, worlds, j, Substitute(Source(Classify(lines[j])).value, ctx, labels), ctx, labels)
  {
    hide Classify, Substitute;
  }

  /** Each label is emitted exactly at the address written into the code that refers to it: at a line that names
      it, what is written is the assembly of a text with that address in the name's place. */
  lemma LabelsLandWhereUsed(lines: seq<string>, worlds: seq<World>, n: nat, i: nat, j: nat, k: nat,
                            before: string, after: string, ctx: Context, declared: seq<Label>, labels: seq<Label>)
    requires i < n && j < n <= |lines| == |worlds| && Ordinary(lines)
    requires Resolve(lines, ctx, declared, MAX_PASSES) == Resolved(labels)
    requires AllDefined(lines, ctx, declared) && NamesAreIdentifiers(ctx, labels) && Orderly(ctx, labels)
    requires AllCopy(lines, n, ctx, labels) && EmitTo(lines, worlds, n, ctx, labels).Emission?
    requires k < |labels| && Binds(lines[i], k, ctx, labels) && IsIdentifier(labels[k].name)
    requires Undefined(labels[k].name, ctx) && StandsFor(k, labels) == labels[k].address
    requires Source(Classify(lines[j])) == Some(before + labels[k].name + after)
    requires Closed(before) && !EndsInIdent(before) && !StartsInIdent(after)
    ensures EmitTo(lines, worlds, i, ctx, labels).Emission?
    ensures var lands := EmitTo(lines, worlds, i, ctx, labels).address;
            Writes(lines, worlds, j, Substitute(before, ctx, labels) + Hex(lands) + Substitute(after, ctx, labels),
                   ctx, labels)
  {
    hide SizeTo, EmitTo, AllDefined, AllCopy, Resolve, Ordinary, Binds, Settled, Substitute, Hex, Place, Orderly,
      NamesAreIdentifiers, Closed, EndsInIdent, StartsInIdent, IsIdentifier, Undefined, Classify, Source, Writes, StandsFor;
    LandsThere(lines, worlds, n, i, k, ctx, declared, labels);
    CopyUpTo(lines, j, n, ctx, labels);
    RunningBefore(lines, worlds, j, n, ctx, labels);
    RunningBefore(lines, worlds, j + 1, n, ctx, labels);
    EmissionFollowsSizing(lines, worlds, j, ctx, declared, labels);
    EmittedLine(lines, worlds, j, ctx, labels);
    BindsForemost(lines[i], k, ctx, labels);
    ReferenceBecomesAddress(before, k, after, ctx, labels);
  }

  lemma BindsForemost(line: string, k: nat, ctx: Context, labels: seq<Label>)
    requires k < |labels| && Binds(line, k, ctx, labels)
    ensures Foremost(k, ctx, labels)
  {
  }

  lemma CopyUpTo(lines: seq<string>, m: nat, n: nat, ctx: Context, labels: seq<Label>)
    requires m <= n <= |lines| && AllCopy(lines, n, ctx, labels)
    ensures AllCopy(lines, m, ctx, labels)
  {
  }

  /** The label's final address is where emission meets its definition. */
  lemma LandsThere(lines: seq<string>, worlds: seq<World>, n: nat, i: nat, k: nat, ctx: Context,
                   declared: seq<Label>, labels: seq<Label>)
    requires i < n <= |lines| == |worlds| && Ordinary(lines)
    requires Resolve(lines, ctx, declared, MAX_PASSES) == Resolved(labels)
    requires AllDefined(lines, ctx, declared) && Orderly(ctx, labels)
    requires AllCopy(lines, n, ctx, labels) && EmitTo(lines, worlds, n, ctx, labels).Emission?
    requires k < |labels| && Binds(lines[i], k, ctx, labels)
    ensures EmitTo(lines, worlds, i, ctx, labels).Emission?
    ensures EmitTo(lines, worlds, i, ctx, labels).address == labels[k].address != 0
  {
    hide SizeTo, EmitTo, AllDefined, AllCopy, Resolve, Ordinary, Binds, Settled, Place, Orderly;
    CopyUpTo(lines, i, n, ctx, labels);
    RunningBefore(lines, worlds, i, n, ctx, labels);
    EmissionFollowsSizing(lines, worlds, i, ctx, declared, labels);
    LabelIsWhereDefined(lines, i, k, ctx, labels);
  }

  /** A label that is called like another's address takes that other's references over. */
  lemma CalledLikeAnAddress(ctx: Context, labels: seq<Label>)
    requires ctx.defines == [] && ctx.allocs == [] && labels == [Label("target", 0x10), Label("0x10", 0x20)]
    ensures Substitute("target", ctx, labels) == "0x20"
  {
    hide LongestFirst, ReplaceOutsideQuotes, Hex, ReplaceAll, LabelReplacements;
    TwoReplacements(labels);
    var other := Replacement("0x10", "0x20");
    var reps := [Replacement("target", "0x10"), other];
    assert [] + [] + reps == reps && reps[1..] == [other] && [other][1..] == [];
    NoReplacements();
    TwoLiterals();
    WordRewritten("target", reps);
    WordBecomes("0x10", [other]);
    assert ReplaceAll("0x20", []) == "0x20" by { SpanKept("0x20", []); }
  }

  lemma NoReplacements()
    ensures LongestFirst([]) == []
  {
  }

  lemma TwoReplacements(labels: seq<Label>)
    requires labels == [Label("target", 0x10), Label("0x10", 0x20)]
    ensures LongestFirst(LabelReplacements(labels)) == [Replacement("target", "0x10"), Replacement("0x10", "0x20")]
  {
    hide Hex, LongestFirst;
    TwoLiterals();
    assert labels[1..] == [Label("0x10", 0x20)] && labels[1..][1..] == [];
    assert LabelReplacements(labels[1..]) == [Replacement("0x10", "0x20")];
    assert LabelReplacements(labels) == [Replacement("target", "0x10")] + [Replacement("0x10", "0x20")];
    LongerStaysFirst(Replacement("target", "0x10"), Replacement("0x10", "0x20"));
  }

  lemma LongerStaysFirst(a: Replacement, b: Replacement)
    requires |a.name| >= |b.name|
    ensures LongestFirst([a] + [b]) == [a, b]
  {
    var both := [a] + [b];
    assert both[..1] == [a] && [a][..0] == [];
    assert LongestFirst([a]) == InsertByLength(a, []);
    assert InsertByLength(b, [a]) == [a] + InsertByLength(b, []) by {
      assert [a][1..] == [];
    }
  }

  lemma TwoLiterals()
    ensures Hex(0x10) == "0x10" && Hex(0x20) == "0x20"
    ensures IsIdentifier("target") && IsIdentifier("0x10")
  {
    assert Digits(0x10, 16) == Digits(1, 16) + [DigitChar(0)];
    assert Digits(0x20, 16) == Digits(2, 16) + [DigitChar(0)];
  }

  lemma OrderOfTwo(a: Label, b: Label)
    ensures InOrder([a, b]) == if |a.name| < |b.name| then [b, a] else [a, b]
  {
    assert [a, b][..1] == [a] && [a][..0] == [];
    assert InOrder([a]) == InsertLabel(a, []);
    assert [a][1..] == [];
    assert InsertLabel(b, [a]) == if |a.name| < |b.name| then [b] + [a] else [a] + InsertLabel(b, []);
  }

  lemma AllBound(labels: seq<Label>)
    requires forall i :: 0 <= i < |labels| ==> labels[i].address != 0
    ensures Bound(labels) == labels
  {
  }

  /** Being called like the address does no harm to a shorter name: that one is replaced last. */
  lemma ReplacedBefore(labels: seq<Label>)
    requires labels == [Label("l", 0x10), Label("0x10", 0x20)]
    ensures StandsFor(0, labels) == 0x10
  {
    hide Hex;
    AllBound(labels);
    OrderOfTwo(labels[0], labels[1]);
    var order := [labels[1], labels[0]];
    assert order[0].name[0] != 'l';
    assert Later(order, "l") == Later(order[1..], "l") == order[1..][1..] == [];
  }

  /** Nor do two labels of which the second leads back. */
  lemma ThereAndBack(labels: seq<Label>)
    requires labels == [Label("target", 0x10), Label("0x10", 0x20), Label("0x20", 0x10)]
    ensures TakenOver(0x10, Later(InOrder(Bound(labels)), "target")) && StandsFor(0, labels) == 0x10
  {
    hide Hex;
    TwoLiterals();
    AllBound(labels);
    OrderOfTwo(labels[0], labels[1]);
    assert labels[..2] == [labels[0], labels[1]];
    assert InOrder(labels) == InsertLabel(labels[2], InOrder(labels[..2])) == labels by {
      assert labels[..2][1..] == [labels[1]] && [labels[1]][1..] == [];
      assert InsertLabel(labels[2], [labels[1]]) == [labels[1], labels[2]];
    }
    var later := labels[1..];
    assert Later(labels, "target") == later;
    assert later[0].name == Hex(0x10) && later[0].address != 0x10;
    assert later[1..] == [labels[2]] && later[1..][1..] == [];
    assert FinalAddress(0x10, later) == FinalAddress(0x20, later[1..]) == FinalAddress(0x10, []);
  }
}
