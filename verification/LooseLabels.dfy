/** Labels that have no address when a line is sized: when they make the sized text differ from the emitted one. */
module LooseLabels {
  import opened Text
  import opened ScriptText
  import opened TokenCuts
  import opened WordMeanings
  import opened Layout
  import opened SymbolOrder

  /** Outside its literals the text has no whole token of that name. */
  ghost predicate FreeOf(s: string, name: string)
    decreases |s|
  {
    s == [] ||
    if IsQuote(s[0]) then FreeOf(s[LiteralLength(s)..], name)
    else !HasToken(s[..SpanLength(s)], name) && FreeOf(s[SpanLength(s)..], name)
  }

  ghost predicate AllFree(s: string, reps: seq<Replacement>) {
    forall k :: 0 <= k < |reps| ==> reps[k].name == [] || FreeOf(s, reps[k].name)
  }

  lemma {:induction false} SpanKept(span: string, reps: seq<Replacement>)
    requires forall k :: 0 <= k < |reps| ==> reps[k].name == [] || !HasToken(span, reps[k].name)
    ensures ReplaceAll(span, reps) == span
    decreases |reps|
  {
    hide ReplaceToken, HasToken;
    if reps != [] {
      if reps[0].name == [] {
        NoName(span, reps[0].value);
      } else {
        Untouched(span, reps[0].name, reps[0].value, 0);
      }
      SpanKept(span, reps[1..]);
    }
  }

  lemma {:induction false} TextKept(s: string, reps: seq<Replacement>)
    requires AllFree(s, reps)
    ensures ReplaceOutsideQuotes(s, reps) == s
    decreases |s|
  {
    hide ReplaceAll, HasToken, LiteralLength, SpanLength, IsQuote;
    if s != [] {
      var n := if IsQuote(s[0]) then LiteralLength(s) else SpanLength(s);
      TextKept(s[n..], reps);
      if !IsQuote(s[0]) {
        SpanKept(s[..n], reps);
      }
      assert s[..n] + s[n..] == s;
    }
  }

  /** No label without an address is named in the text. */
  ghost predicate NoneLoose(text: string, labels: seq<Label>) {
    forall k :: 0 <= k < |labels| && labels[k].address == 0 ==> labels[k].name == [] || FreeOf(text, labels[k].name)
  }

  lemma {:induction false} PlaceholdersAreLoose(text: string, labels: seq<Label>, address: U64)
    requires NoneLoose(text, labels)
    ensures AllFree(text, Placeholders(labels, address))
    decreases |labels|
  {
    hide FreeOf;
    if labels != [] {
      assert forall k :: 0 <= k < |labels| - 1 ==> labels[1..][k] == labels[k + 1];
      PlaceholdersAreLoose(text, labels[1..], address);
      assert labels[0].address == 0 ==> labels[0].name == [] || FreeOf(text, labels[0].name);
    }
  }

  /** A line that names no label without an address is sized by the very text that is emitted. */
  lemma SizingTextIsEmissionText(line: string, address: U64, ctx: Context, labels: seq<Label>)
    requires NoneLoose(Substitute(line, ctx, labels), labels)
    ensures SubstituteForSizing(line, address, ctx, labels) == Substitute(line, ctx, labels)
  {
    hide NoneLoose, AllFree, ReplaceOutsideQuotes;
    var text := Substitute(line, ctx, labels);
    PlaceholdersAreLoose(text, labels, address);
    TextKept(text, Placeholders(labels, address));
  }

  ghost predicate Tight(line: Line, ctx: Context, labels: seq<Label>) {
    && (line.Data? ==> NoneLoose(Substitute(line.values, ctx, labels), labels))
    && (line.Instruction? ==> NoneLoose(Substitute(line.text, ctx, labels), labels))
  }

  // ----- labels that another name stands before -----

  lemma HeadHasToken(s: string, name: string)
    requires s != [] && IsIdentifier(name) && !HasToken(s, name)
    ensures s[..HeadLength(s)] != name && !HasToken(s[HeadLength(s)..], name)
  {
    hide IsIdentChar;
    var n := HeadLength(s);
    var a, b := s[..n], s[n..];
    assert a + b == s;
    if a == name {
      HeadApart(s);
      TokenOfHead(a, b, name);
    }
    forall i: nat ensures WholeTokenAt(b, name, i) ==> WholeTokenAt(s, name, n + i) {
      HeadApart(s);
      if WholeTokenAt(b, name, i) {
        TokenFurther(a, b, name, i);
      }
    }
  }

  lemma TokenOfHead(a: string, b: string, name: string)
    requires IsIdentifier(name) && a == name && Apart(a, b)
    ensures WholeTokenAt(a + b, name, 0)
  {
    assert (a + b)[0..|name|] == name;
    assert b != [] ==> (a + b)[|a|] == b[0];
  }

  lemma TokenFurther(a: string, b: string, name: string, i: nat)
    requires IsIdentifier(name) && Apart(a, b) && WholeTokenAt(b, name, i)
    ensures WholeTokenAt(a + b, name, |a| + i)
  {
    assert (a + b)[|a|..] == b;
    assert (a + b)[|a| + i..|a| + i + |name|] == (a + b)[|a|..][i..i + |name|];
    assert i > 0 ==> (a + b)[|a| + i - 1] == b[i - 1];
    if i == 0 {
      TokenIsIdent(b, name, 0);
      assert a != [] ==> (a + b)[|a| - 1] == a[|a| - 1];
    }
  }

  /** Replacing one name does not bring back another that the value does not have. */
  lemma {:induction false} StaysAbsent(s: string, other: string, name: string, value: string)
    requires IsIdentifier(name) && IsIdentifier(other) && !HasToken(value, name) && !HasToken(s, name)
    ensures !HasToken(ReplaceToken(s, other, value, 0), name)
    decreases |s|
  {
    hide ReplaceToken, HasToken, IsIdentifier, Apart;
    if s == [] {
      NothingStaysNothing(other, value);
    } else {
      var n := HeadLength(s);
      var a, b := s[..n], s[n..];
      assert a + b == s;
      HeadApart(s);
      ReplaceSplits(a, b, other, value);
      HeadHasToken(s, name);
      AbsentInHead(s, other, name, value);
      StaysAbsent(b, other, name, value);
      StaysApart(a, b, other, value);
      if b == [] {
        NothingStaysNothing(other, value);
      }
      NoTokenAcross(ReplaceToken(a, other, value, 0), ReplaceToken(b, other, value, 0), name);
    }
  }

  lemma AbsentInHead(s: string, other: string, name: string, value: string)
    requires s != [] && IsIdentifier(name) && IsIdentifier(other) && !HasToken(value, name)
    requires s[..HeadLength(s)] != name
    ensures !HasToken(ReplaceToken(s[..HeadLength(s)], other, value, 0), name)
  {
    hide ReplaceToken, WholeTokenAt, IsIdentifier;
    var a := s[..HeadLength(s)];
    NoNameNoToken(name);
    if IsIdentChar(s[0]) {
      WordReplaced(a, other, value);
      forall i: nat { TokenOfWord(a, name, i); }
    } else {
      assert a == [s[0]];
      CharStays(s[0], other, value);
      CharHasNoToken(s[0], name);
    }
  }

  ghost predicate NoneBrings(reps: seq<Replacement>, name: string) {
    forall q :: 0 <= q < |reps| ==> !HasToken(reps[q].value, name)
  }

  /** Once gone, or when one of the replacements takes it away, the name is in no result. */
  lemma {:induction false} Gone(s: string, reps: seq<Replacement>, name: string)
    requires IsIdentifier(name) && AllIdentifiers(reps) && NoneBrings(reps, name)
    requires !HasToken(s, name) || exists p :: 0 <= p < |reps| && reps[p].name == name
    ensures !HasToken(ReplaceAll(s, reps), name)
    decreases |reps|
  {
    hide ReplaceToken, HasToken, IsIdentifier;
    if reps != [] {
      var other, value := reps[0].name, reps[0].value;
      assert !HasToken(value, name);
      if other == name {
        NoTokenLeft(s, name, value);
      } else if other == [] {
        NoName(s, value);
      } else if !HasToken(s, name) {
        StaysAbsent(s, other, name, value);
      }
      assert forall q :: 0 <= q < |reps| - 1 ==> reps[1..][q] == reps[q + 1];
      if HasToken(ReplaceToken(s, other, value, 0), name) {
        var p :| 0 <= p < |reps| && reps[p].name == name;
        assert reps[1..][p - 1].name == name;
      }
      Gone(ReplaceToken(s, other, value, 0), reps[1..], name);
    }
  }

  lemma {:induction false} ReplaceTokenNoQuotes(s: string, name: string, value: string, pos: nat)
    requires NoQuotes(s) && NoQuotes(value)
    ensures NoQuotes(ReplaceToken(s, name, value, pos))
    decreases |s| - pos
  {
    hide WholeTokenAt, IsQuote;
    if name != [] && pos + |name| <= |s| {
      if WholeTokenAt(s, name, pos) {
        ReplaceTokenNoQuotes(s[..pos] + value + s[pos + |name|..], name, value, pos + |value|);
      } else {
        ReplaceTokenNoQuotes(s, name, value, pos + 1);
      }
    }
  }

  predicate ValuesHaveNoQuotes(reps: seq<Replacement>) {
    forall q :: 0 <= q < |reps| ==> NoQuotes(reps[q].value)
  }

  lemma {:induction false} ReplaceAllNoQuotes(s: string, reps: seq<Replacement>)
    requires NoQuotes(s) && ValuesHaveNoQuotes(reps)
    ensures NoQuotes(ReplaceAll(s, reps))
    decreases |reps|
  {
    hide ReplaceToken, NoQuotes;
    if reps != [] {
      ReplaceTokenNoQuotes(s, reps[0].name, reps[0].value, 0);
      ReplaceAllNoQuotes(ReplaceToken(s, reps[0].name, reps[0].value, 0), reps[1..]);
    }
  }

  lemma {:induction false} SpanIsAll(s: string)
    requires NoQuotes(s)
    ensures SpanLength(s) == |s|
    decreases |s|
  {
    if s != [] {
      SpanIsAll(s[1..]);
    }
  }

  /** A text without quotes before one that begins with a quote or is empty. */
  lemma FreeAcross(a: string, b: string, name: string)
    requires NoQuotes(a) && !HasToken(a, name) && FreeOf(b, name) && (b == [] || IsQuote(b[0]))
    ensures FreeOf(a + b, name)
  {
    hide HasToken, IsQuote, SpanLength, LiteralLength;
    if a == [] {
      assert a + b == b;
    } else {
      SpanIsAll(a);
      SpanFirst(a, b);
      SpanHasNoQuote(b);
      assert (a + b)[0] == a[0];
      assert a + b[..0] == a && b[0..] == b;
    }
  }

  /** A literal before a text that is free of the name. */
  lemma LiteralIsFree(s: string, b: string, name: string)
    requires s != [] && IsQuote(s[0]) && FreeOf(b, name) && (LiteralLength(s) == |s| && FirstOf(s, s[0], 1) == |s| ==> b == [])
    ensures FreeOf(s[..LiteralLength(s)] + b, name)
  {
    hide HasToken, IsQuote, FirstOf, SpanLength;
    var n := LiteralLength(s);
    var lit := s[..n];
    assert lit + s[n..] == s;
    assert lit[0] == s[0];
    LiteralInPrefix(s, n);
    if FirstOf(s, s[0], 1) < |s| {
      QuoteFirst(lit, b, []);
      assert lit[n..] == [] && [] + b == b;
    } else {
      assert lit == s && s + [] == s;
    }
  }

  lemma LiteralInPrefix(s: string, n: nat)
    requires s != [] && IsQuote(s[0]) && n == LiteralLength(s)
    ensures LiteralLength(s[..n]) == n && (FirstOf(s, s[0], 1) < |s| ==> FirstOf(s[..n], s[0], 1) < n)
  {
    FirstOfFinds(s, s[0], 1);
    var close := FirstOf(s, s[0], 1);
    FirstOfIs(s[..n], s[0], 1, close);
  }

  lemma {:induction false} FirstOfFinds(s: string, c: char, i: nat)
    requires i <= |s|
    ensures forall k :: i <= k < FirstOf(s, c, i) ==> s[k] != c
    ensures FirstOf(s, c, i) < |s| ==> s[FirstOf(s, c, i)] == c
    decreases |s| - i
  {
    if i < |s| && s[i] != c {
      FirstOfFinds(s, c, i + 1);
    }
  }

  /** Nothing of the name is left outside the literals, when each span loses it. */
  lemma {:induction false} RewrittenIsFree(s: string, before: seq<Replacement>, after: seq<Replacement>, name: string)
    requires IsIdentifier(name) && AllIdentifiers(after) && NoneBrings(after, name)
    requires exists p :: 0 <= p < |after| && after[p].name == name
    requires ValuesHaveNoQuotes(before + after)
    ensures FreeOf(ReplaceOutsideQuotes(s, before + after), name)
    decreases |s|
  {
    hide HasToken, IsQuote, IsIdentifier, AllIdentifiers, NoneBrings, ReplaceAll, ValuesHaveNoQuotes, SpanLength, LiteralLength, FreeOf,
      ReplaceOutsideQuotes;
    var reps := before + after;
    if s == [] {
      NothingLeft(reps);
      assert FreeOf([], name) by { EmptyIsFree(name); }
    } else if IsQuote(s[0]) {
      var n := LiteralLength(s);
      RewrittenIsFree(s[n..], before, after, name);
      LiteralRewritten(s, reps);
      NothingLeft(reps);
      LiteralIsFree(s, ReplaceOutsideQuotes(s[n..], reps), name);
    } else {
      var n := SpanLength(s);
      SpanHasNoQuote(s);
      SpanRewritten(s, reps);
      RewrittenIsFree(s[n..], before, after, name);
      ReplaceAllNoQuotes(s[..n], reps);
      ReplaceInTwo(s[..n], before, after);
      Gone(ReplaceAll(s[..n], before), after, name);
      StillQuote(s[n..], reps);
      FreeAcross(ReplaceAll(s[..n], reps), ReplaceOutsideQuotes(s[n..], reps), name);
    }
  }

  lemma EmptyIsFree(name: string)
    ensures FreeOf([], name)
  {
  }

  lemma StillQuote(s: string, reps: seq<Replacement>)
    requires s == [] || IsQuote(s[0])
    ensures ReplaceOutsideQuotes(s, reps) == [] || IsQuote(ReplaceOutsideQuotes(s, reps)[0])
  {
    hide ReplaceAll;
  }

  lemma {:induction false} ReplaceInTwo(s: string, before: seq<Replacement>, after: seq<Replacement>)
    ensures ReplaceAll(s, before + after) == ReplaceAll(ReplaceAll(s, before), after)
    decreases |before|
  {
    hide ReplaceToken;
    if before == [] {
      assert before + after == after;
    } else {
      assert (before + after)[1..] == before[1..] + after;
      ReplaceInTwo(ReplaceToken(s, before[0].name, before[0].value, 0), before[1..], after);
    }
  }

  // ----- shadowed labels -----

  predicate IdentifierOrNone(name: string) {
    name == [] || IsIdentifier(name)
  }

  predicate NamesAreIdentifiers(ctx: Context, labels: seq<Label>) {
    && (forall i :: 0 <= i < |ctx.defines| ==> IdentifierOrNone(ctx.defines[i].name))
    && (forall i :: 0 <= i < |ctx.allocs| ==> IdentifierOrNone(ctx.allocs[i].name))
    && (forall i :: 0 <= i < |labels| ==> IdentifierOrNone(labels[i].name))
  }

  /** The name is not spelled like an address that is written for an allocation or a label. */
  predicate NoAddress(name: string, ctx: Context, labels: seq<Label>) {
    && (forall i :: 0 <= i < |ctx.allocs| ==> name != Hex(ctx.allocs[i].address))
    && (forall i :: 0 <= i < |labels| ==> name != Hex(labels[i].address))
  }

  /** Definitions bring no quotes, every allocation has its block, names are identifiers and no label is
      spelled like an address. */
  predicate Tame(ctx: Context, labels: seq<Label>) {
    && NamesAreIdentifiers(ctx, labels)
    && (forall i :: 0 <= i < |ctx.defines| ==> NoQuotes(ctx.defines[i].value))
    && (forall i :: 0 <= i < |ctx.allocs| ==> ctx.allocs[i].address != 0)
    && (forall i :: 0 <= i < |labels| ==> NoAddress(labels[i].name, ctx, labels))
  }

  /** The replacements by addresses: allocations, then labels. */
  function AddressReplacements(ctx: Context, labels: seq<Label>): seq<Replacement> {
    LongestFirst(AllocReplacements(ctx.allocs)) + LongestFirst(LabelReplacements(labels))
  }

  lemma AddressReplacementsAre(r: Replacement, ctx: Context, labels: seq<Label>)
    ensures r in AddressReplacements(ctx, labels)
       <==> || (exists i :: 0 <= i < |ctx.allocs| && ctx.allocs[i].address != 0 &&
                            r == Replacement(ctx.allocs[i].name, Hex(ctx.allocs[i].address)))
            || (exists i :: 0 <= i < |labels| && labels[i].address != 0 &&
                            r == Replacement(labels[i].name, Hex(labels[i].address)))
  {
    hide Hex, AllocReplacements, LabelReplacements, LongestFirst;
    SortKeepsAll(AllocReplacements(ctx.allocs));
    SortKeepsAll(LabelReplacements(labels));
    AllocReplacementsAre(ctx.allocs, r);
    LabelReplacementsAre(labels, r);
  }

  lemma AddressesAreIdentifiers(ctx: Context, labels: seq<Label>)
    requires NamesAreIdentifiers(ctx, labels)
    ensures AllIdentifiers(AddressReplacements(ctx, labels))
    ensures ValuesHaveNoQuotes(AddressReplacements(ctx, labels))
  {
    hide Hex, AddressReplacements, IsIdentifier, NoQuotes;
    var reps := AddressReplacements(ctx, labels);
    forall q | 0 <= q < |reps| ensures IdentifierOrNone(reps[q].name) && NoQuotes(reps[q].value) {
      AddressReplacementsAre(reps[q], ctx, labels);
      assert reps[q] in reps;
      forall a: U64 { HexIsWord(a); }
    }
  }

  lemma NoneBringsBack(name: string, ctx: Context, labels: seq<Label>)
    requires IsIdentifier(name) && NoAddress(name, ctx, labels)
    ensures NoneBrings(AddressReplacements(ctx, labels), name)
  {
    hide Hex, AddressReplacements, IsIdentifier, WholeTokenAt;
    var reps := AddressReplacements(ctx, labels);
    forall q | 0 <= q < |reps| ensures !HasToken(reps[q].value, name) {
      AddressReplacementsAre(reps[q], ctx, labels);
      assert reps[q] in reps;
      forall a: U64 { HexIsWord(a); }
      NoNameNoToken(name);
      forall i: nat { TokenOfWord(reps[q].value, name, i); }
    }
  }

  lemma DefinesHaveNoQuotes(ctx: Context)
    requires forall i :: 0 <= i < |ctx.defines| ==> NoQuotes(ctx.defines[i].value)
    ensures ValuesHaveNoQuotes(LongestFirst(DefineReplacements(ctx.defines)))
  {
    hide LongestFirst, NoQuotes;
    var reps := LongestFirst(DefineReplacements(ctx.defines));
    SortKeepsAll(DefineReplacements(ctx.defines));
    DefineReplacementsAre(ctx.defines);
    forall q | 0 <= q < |reps| ensures NoQuotes(reps[q].value) {
      assert reps[q] in reps;
      assert Define(reps[q].name, reps[q].value) in ctx.defines;
    }
  }

  /** A name that an allocation or another label has taken is in no line after substitution. */
  lemma TakenNameIsGone(line: string, name: string, ctx: Context, labels: seq<Label>)
    requires Tame(ctx, labels) && IsIdentifier(name) && NoAddress(name, ctx, labels)
    requires exists r :: r in AddressReplacements(ctx, labels) && r.name == name
    ensures FreeOf(Substitute(line, ctx, labels), name)
  {
    hide Hex, AddressReplacements, IsIdentifier, FreeOf, ReplaceOutsideQuotes, LongestFirst, NoAddress, NoQuotes,
      AllIdentifiers, NoneBrings, IdentifierOrNone;
    var before, after := LongestFirst(DefineReplacements(ctx.defines)), AddressReplacements(ctx, labels);
    AddressesAreIdentifiers(ctx, labels);
    NoneBringsBack(name, ctx, labels);
    DefinesHaveNoQuotes(ctx);
    var r :| r in after && r.name == name;
    var p :| 0 <= p < |after| && after[p] == r;
    assert after[p].name == name;
    RewrittenIsFree(line, before, after, name);
    SubstituteInTwo(line, ctx, labels);
  }

  lemma SubstituteInTwo(line: string, ctx: Context, labels: seq<Label>)
    ensures Substitute(line, ctx, labels)
         == ReplaceOutsideQuotes(line, LongestFirst(DefineReplacements(ctx.defines)) + AddressReplacements(ctx, labels))
  {
    hide ReplaceOutsideQuotes, LongestFirst;
    var a, b, c := LongestFirst(DefineReplacements(ctx.defines)), LongestFirst(AllocReplacements(ctx.allocs)),
      LongestFirst(LabelReplacements(labels));
    assert a + b + c == a + (b + c);
  }

  lemma {:induction false} FindAllocIs(allocs: seq<Alloc>, name: string)
    ensures FindAlloc(allocs, name).Some? ==> exists i :: 0 <= i < |allocs| && allocs[i].name == name
    ensures FindAlloc(allocs, name).None? ==> forall i :: 0 <= i < |allocs| ==> allocs[i].name != name
  {
    if allocs != [] {
      FindAllocIs(allocs[1..], name);
      assert forall i :: 0 <= i < |allocs| - 1 ==> allocs[1..][i] == allocs[i + 1];
      if allocs[0].name != name && FindAlloc(allocs, name).Some? {
        var i :| 0 <= i < |allocs| - 1 && allocs[1..][i].name == name;
        assert allocs[i + 1].name == name;
      }
    }
  }

  /** Nothing of the label's own name comes before it: no allocation, no earlier label. */
  predicate Foremost(k: nat, ctx: Context, labels: seq<Label>)
    requires k < |labels|
  {
    FindAlloc(ctx.allocs, labels[k].name).None? && LabelIndex(labels, labels[k].name) == k
  }

  /** When the labels that stand for their names have addresses, no line names one that has none: there is no
      other label, or names and definitions are tame. */
  lemma BoundIsTight(line: string, ctx: Context, labels: seq<Label>)
    requires forall k :: 0 <= k < |labels| && labels[k].name != [] && Foremost(k, ctx, labels) ==> labels[k].address != 0
    requires Tame(ctx, labels) || forall k :: 0 <= k < |labels| ==> labels[k].name == [] || Foremost(k, ctx, labels)
    ensures NoneLoose(Substitute(line, ctx, labels), labels)
  {
    hide Substitute, FreeOf, Hex, IsIdentifier, NoAddress, AddressReplacements;
    forall k | 0 <= k < |labels| && labels[k].address == 0
      ensures labels[k].name == [] || FreeOf(Substitute(line, ctx, labels), labels[k].name)
    {
      var name := labels[k].name;
      if name != [] {
        assert !Foremost(k, ctx, labels);
        NameIsTaken(k, ctx, labels);
        TakenNameIsGone(line, name, ctx, labels);
      }
    }
  }

  lemma NameIsTaken(k: nat, ctx: Context, labels: seq<Label>)
    requires k < |labels| && labels[k].name != [] && !Foremost(k, ctx, labels)
    requires forall j :: 0 <= j < |labels| && labels[j].name != [] && Foremost(j, ctx, labels) ==> labels[j].address != 0
    requires forall i :: 0 <= i < |ctx.allocs| ==> ctx.allocs[i].address != 0
    ensures exists r :: r in AddressReplacements(ctx, labels) && r.name == labels[k].name
  {
    hide Hex, AddressReplacements, FindAlloc;
    var name := labels[k].name;
    FindAllocIs(ctx.allocs, name);
    if FindAlloc(ctx.allocs, name).Some? {
      var i :| 0 <= i < |ctx.allocs| && ctx.allocs[i].name == name;
      AddressReplacementsAre(Replacement(name, Hex(ctx.allocs[i].address)), ctx, labels);
    } else {
      var j := LabelIndex(labels, name);
      assert labels[k].name == name;
      assert j < |labels| && Foremost(j, ctx, labels);
      AddressReplacementsAre(Replacement(name, Hex(labels[j].address)), ctx, labels);
    }
  }
}
