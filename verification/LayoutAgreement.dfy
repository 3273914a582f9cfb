/** The sizing pass and the emission pass visit every line at the same address. */
module LayoutAgreement {
  import opened Text
  import opened ScriptText
  import opened TokenCuts
  import opened WordMeanings
  import opened Layout
  import opened LooseLabels

  lemma {:induction false} StoppedStays(lines: seq<string>, worlds: seq<World>, n: nat, m: nat, ctx: Context,
                                        labels: seq<Label>)
    requires n <= m <= |lines| == |worlds| && Ordinary(lines) && EmitTo(lines, worlds, n, ctx, labels).Stopped?
    ensures EmitTo(lines, worlds, m, ctx, labels).Stopped?
    decreases m - n
  {
    hide EmitLine, Ordinary, Classify;
    if n < m {
      StoppedStays(lines, worlds, n + 1, m, ctx, labels);
    }
  }

  lemma OrdinaryLine(lines: seq<string>, n: nat)
    requires Ordinary(lines) && n < |lines|
    ensures !Classify(lines[n]).Reassemble? && !Classify(lines[n]).Unregister?
  {
  }

  // ----- the pass that changes nothing -----

  /** A sizing pass that leaves the labels as it found them. */
  predicate Settled(lines: seq<string>, ctx: Context, labels: seq<Label>)
    requires Ordinary(lines)
  {
    SizeTo(lines, |lines|, ctx, labels).Sizing? && !SizeTo(lines, |lines|, ctx, labels).changed
  }

  lemma QuietBefore(line: Line, s: Sizing, ctx: Context)
    requires s.Sizing? && !line.Reassemble? && SizeLine(line, s, ctx).Sizing? && !SizeLine(line, s, ctx).changed
    ensures !s.changed && SizeLine(line, s, ctx).labels == s.labels
  {
    hide SizeOf, ResolveAddress, FindAlloc;
  }

  lemma {:induction false} QuietPrefix(lines: seq<string>, n: nat, m: nat, ctx: Context, labels: seq<Label>)
    requires n <= m <= |lines| && Ordinary(lines)
    requires SizeTo(lines, m, ctx, labels).Sizing? && !SizeTo(lines, m, ctx, labels).changed
    ensures SizeTo(lines, n, ctx, labels).Sizing? && !SizeTo(lines, n, ctx, labels).changed
    ensures SizeTo(lines, n, ctx, labels).labels == labels
    decreases m
  {
    hide SizeLine, Classify;
    if m > 0 {
      var s := SizeTo(lines, m - 1, ctx, labels);
      assert s.Sizing?;
      QuietBefore(Classify(lines[m - 1]), s, ctx);
      QuietPrefix(lines, if n == m then n - 1 else n, m - 1, ctx, labels);
    }
  }

  predicate SameNames(a: seq<Label>, b: seq<Label>) {
    |a| == |b| && forall k :: 0 <= k < |a| ==> a[k].name == b[k].name
  }

  lemma LineKeepsNames(line: Line, s: Sizing, ctx: Context)
    requires s.Sizing? && !line.Reassemble?
    ensures SameNames(s.labels, SizeLine(line, s, ctx).labels)
  {
    hide SizeOf, ResolveAddress, FindAlloc;
  }

  lemma {:induction false} PassKeepsNames(lines: seq<string>, n: nat, ctx: Context, labels: seq<Label>)
    requires n <= |lines| && Ordinary(lines)
    ensures SameNames(labels, SizeTo(lines, n, ctx, labels).labels)
  {
    hide SizeLine, Classify;
    if n > 0 {
      PassKeepsNames(lines, n - 1, ctx, labels);
      var s := SizeTo(lines, n - 1, ctx, labels);
      if s.Sizing? {
        LineKeepsNames(Classify(lines[n - 1]), s, ctx);
      }
    }
  }

  /** Success means a fixed point: the labels returned size to themselves. */
  lemma {:induction false} ResolvedIsSettled(lines: seq<string>, ctx: Context, declared: seq<Label>, passes: nat)
    requires Ordinary(lines) && Resolve(lines, ctx, declared, passes).Resolved?
    ensures Settled(lines, ctx, Resolve(lines, ctx, declared, passes).labels)
    ensures SameNames(declared, Resolve(lines, ctx, declared, passes).labels)
    decreases passes
  {
    hide SizeTo, Ordinary;
    var s := SizeTo(lines, |lines|, ctx, declared);
    PassKeepsNames(lines, |lines|, ctx, declared);
    if !s.changed {
      QuietPrefix(lines, |lines|, |lines|, ctx, declared);
    } else {
      ResolvedIsSettled(lines, ctx, s.labels, passes - 1);
    }
  }

  /** The address line `n` has in the settled pass. */
  function Place(lines: seq<string>, n: nat, ctx: Context, labels: seq<Label>): U64
    requires n <= |lines| && Ordinary(lines) && Settled(lines, ctx, labels)
  {
    QuietPrefix(lines, n, |lines|, ctx, labels);
    SizeTo(lines, n, ctx, labels).address
  }

  lemma SettledStep(lines: seq<string>, n: nat, ctx: Context, labels: seq<Label>)
    requires n < |lines| && Ordinary(lines) && Settled(lines, ctx, labels)
    ensures SizeLine(Classify(lines[n]), Sizing(Place(lines, n, ctx, labels), labels, false), ctx)
         == Sizing(Place(lines, n + 1, ctx, labels), labels, false)
  {
    hide SizeLine, Classify, Ordinary;
    QuietPrefix(lines, n, |lines|, ctx, labels);
    QuietPrefix(lines, n + 1, |lines|, ctx, labels);
  }

  // ----- definitions -----

  /** Line `i` binds declared label `k`: no allocation and no earlier label has its name. */
  predicate Binds(line: string, k: nat, ctx: Context, labels: seq<Label>)
    requires k < |labels|
  {
    Classify(line) == Definition(labels[k].name) && Foremost(k, ctx, labels)
  }

  predicate Defined(lines: seq<string>, k: nat, ctx: Context, labels: seq<Label>)
    requires k < |labels|
  {
    exists i :: 0 <= i < |lines| && Binds(lines[i], k, ctx, labels)
  }

  /** Every name that some label stands for is defined by a line: only the first label of a name does, and none
      whose name an allocation has. */
  predicate AllDefined(lines: seq<string>, ctx: Context, labels: seq<Label>) {
    forall k :: 0 <= k < |labels| && labels[k].name != [] && Foremost(k, ctx, labels) ==> Defined(lines, k, ctx, labels)
  }

  /** Each label stands for its own name, or names and definitions are tame. */
  predicate Orderly(ctx: Context, labels: seq<Label>) {
    Tame(ctx, labels) || forall k :: 0 <= k < |labels| ==> labels[k].name == [] || Foremost(k, ctx, labels)
  }

  lemma BoundHere(line: Line, k: nat, s: Sizing, ctx: Context)
    requires s.Sizing? && k < |s.labels| && line == Definition(s.labels[k].name)
    requires FindAlloc(ctx.allocs, s.labels[k].name).None? && LabelIndex(s.labels, s.labels[k].name) == k
    requires SizeLine(line, s, ctx).Sizing? && !SizeLine(line, s, ctx).changed
    ensures s.labels[k].address == s.address && s.address != 0
  {
    hide ResolveAddress, FindAlloc, LabelIndex;
  }

  /** A settled label has the address of the line that defines it, and that is never 0. */
  lemma LabelIsWhereDefined(lines: seq<string>, i: nat, k: nat, ctx: Context, labels: seq<Label>)
    requires Ordinary(lines) && Settled(lines, ctx, labels)
    requires i < |lines| && k < |labels| && Binds(lines[i], k, ctx, labels)
    ensures labels[k].address == Place(lines, i, ctx, labels) && labels[k].address != 0
  {
    hide SizeTo, Classify, Ordinary, Place, SizeLine, FindAlloc, LabelIndex;
    SettledStep(lines, i, ctx, labels);
    BoundHere(Classify(lines[i]), k, Sizing(Place(lines, i, ctx, labels), labels, false), ctx);
  }

  lemma {:induction false} SameNamesSameIndex(a: seq<Label>, b: seq<Label>, name: string)
    requires SameNames(a, b)
    ensures LabelIndex(a, name) == LabelIndex(b, name)
  {
    if a != [] {
      assert a[0].name == b[0].name;
      SameNamesSameIndex(a[1..], b[1..], name);
    }
  }

  lemma ForemostByName(k: nat, ctx: Context, a: seq<Label>, b: seq<Label>)
    requires SameNames(a, b) && k < |a|
    ensures Foremost(k, ctx, a) == Foremost(k, ctx, b)
  {
    hide FindAlloc, LabelIndex;
    SameNamesSameIndex(a, b, a[k].name);
  }

  lemma BindsByName(line: string, k: nat, ctx: Context, a: seq<Label>, b: seq<Label>)
    requires SameNames(a, b) && k < |a| && Binds(line, k, ctx, a)
    ensures Binds(line, k, ctx, b)
  {
    hide Classify, FindAlloc, LabelIndex;
    ForemostByName(k, ctx, a, b);
  }

  lemma DefinedStays(lines: seq<string>, ctx: Context, a: seq<Label>, b: seq<Label>)
    requires SameNames(a, b) && AllDefined(lines, ctx, a)
    ensures AllDefined(lines, ctx, b)
  {
    hide Classify, FindAlloc, LabelIndex, Binds, Foremost;
    forall k | 0 <= k < |b| && b[k].name != [] && Foremost(k, ctx, b) ensures Defined(lines, k, ctx, b) {
      ForemostByName(k, ctx, a, b);
      assert Defined(lines, k, ctx, a);
      var i :| 0 <= i < |lines| && Binds(lines[i], k, ctx, a);
      BindsByName(lines[i], k, ctx, a, b);
    }
  }

  /** Once the labels are settled, no line names one that has no address. */
  lemma DefinedIsTight(line: Line, lines: seq<string>, ctx: Context, labels: seq<Label>)
    requires Ordinary(lines) && Settled(lines, ctx, labels) && AllDefined(lines, ctx, labels) && Orderly(ctx, labels)
    ensures Tight(line, ctx, labels)
  {
    hide SizeTo, Classify, Ordinary, Place, SizeLine, Binds, Settled, NoneLoose, Tame, Foremost, Substitute;
    forall k | 0 <= k < |labels| && labels[k].name != [] && Foremost(k, ctx, labels) ensures labels[k].address != 0 {
      assert Defined(lines, k, ctx, labels);
      var i :| 0 <= i < |lines| && Binds(lines[i], k, ctx, labels);
      LabelIsWhereDefined(lines, i, k, ctx, labels);
    }
    if line.Data? {
      BoundIsTight(line.values, ctx, labels);
    } else if line.Instruction? {
      BoundIsTight(line.text, ctx, labels);
    }
  }

  // ----- one line -----

  /** READMEM advances the sizing pass by its size, and emission only when it copies. */
  predicate Copies(line: Line, ctx: Context, labels: seq<Label>) {
    line.ReadMem? && AfterComma(line.args).Some? ==>
      ResolveAddress(BeforeComma(line.args), ctx, labels) != 0 || ParseWhole(AfterComma(line.args).value, 0) == Some(0)
  }

  /** The placeholder for labels without an address changes how the line is assembled, but not its length. */
  predicate SameSize(line: Line, address: U64, ctx: Context, labels: seq<Label>) {
    && (line.Data? ==> SameLength(ctx.data(line.op, SubstituteForSizing(line.values, address, ctx, labels)),
                                  ctx.data(line.op, Substitute(line.values, ctx, labels))))
    && (line.Instruction? ==> SameLength(ctx.assemble(SubstituteForSizing(line.text, address, ctx, labels), address),
                                         ctx.assemble(Substitute(line.text, ctx, labels), address)))
  }

  predicate SameLength(sized: Option<seq<int>>, emitted: Option<seq<int>>) {
    sized.Some? && emitted.Some? ==> Wrap(|sized.value|) == Wrap(|emitted.value|)
  }

  /** What sizing and emission of one line need to agree: a READMEM that copies, and placeholders that do not
      change the size. */
  predicate Fits(line: Line, address: U64, ctx: Context, labels: seq<Label>) {
    Copies(line, ctx, labels) && SameSize(line, address, ctx, labels)
  }

  /** A line that names no label without an address fits exactly when it copies. */
  lemma TightFits(line: Line, address: U64, ctx: Context, labels: seq<Label>)
    requires Tight(line, ctx, labels)
    ensures Fits(line, address, ctx, labels) <==> Copies(line, ctx, labels)
  {
    hide Substitute, SubstituteForSizing, NoneLoose, Copies;
    if line.Data? {
      SizingTextIsEmissionText(line.values, address, ctx, labels);
    } else if line.Instruction? {
      SizingTextIsEmissionText(line.text, address, ctx, labels);
    }
  }

  lemma {:induction false} SkipSpacesStops(s: string)
    ensures SkipSpaces(s) != [] ==> !IsSpaceChar(SkipSpaces(s)[0])
  {
    if s != [] && IsSpaceChar(s[0]) {
      SkipSpacesStops(s[1..]);
    }
  }

  lemma {:induction false} DropSpacesStops(s: string)
    ensures DropSpaces(s) <= s
    ensures DropSpaces(s) != [] ==> !IsSpaceChar(DropSpaces(s)[|DropSpaces(s)| - 1])
  {
    if s != [] && IsSpaceChar(s[|s| - 1]) {
      DropSpacesStops(s[..|s| - 1]);
    }
  }

  lemma TrimTwice(s: string)
    ensures TrimLine(TrimLine(s)) == TrimLine(s)
  {
    SkipSpacesStops(s);
    DropSpacesStops(SkipSpaces(s));
    var t := TrimLine(s);
    assert SkipSpaces(t) == t;
  }

  /** The size both passes read: emission insists that the whole text is a number. */
  lemma SizesMatch(args: string)
    requires AfterComma(args).Some? && ParseWhole(AfterComma(args).value, 0).Some?
    ensures Stoull(AfterComma(args).value, 0).Some?
    ensures Stoull(AfterComma(args).value, 0).value.value == ParseWhole(AfterComma(args).value, 0).value
  {
    hide TrimLine, Stoull;
    TrimTwice(args[FirstOf(args, ',', 0) + 1..]);
  }

  lemma AdvanceMoves(a: U64, n: nat)
    requires 0 < n < TWO_64
    ensures Wrap(a + n) != a
  {
  }

  lemma ReadMemStep(args: string, a: U64, labels: seq<Label>, patches: seq<Patch>, ctx: Context, world: World)
    requires a != 0 && SizeOf(ReadMem(args), a, ctx, labels).Advance?
    requires EmitReadMem(args, Emission(a, labels, patches), ctx, world).Emission?
    ensures var e := EmitReadMem(args, Emission(a, labels, patches), ctx, world);
            e.labels == labels &&
            (e.address == Wrap(a + SizeOf(ReadMem(args), a, ctx, labels).bytes) <==> Copies(ReadMem(args), ctx, labels))
  {
    hide TrimLine, Stoull, ResolveAddress, ParseWhole, AfterComma, BeforeComma;
    SizesMatch(args);
    var size := ParseWhole(AfterComma(args).value, 0).value;
    if size > 0 {
      AdvanceMoves(a, size);
    }
  }

  lemma WrapCancels(a: U64, n: nat, m: nat)
    ensures Wrap(a + n) == Wrap(a + m) <==> Wrap(n) == Wrap(m)
  {
    if Wrap(a + n) == Wrap(a + m) || Wrap(n) == Wrap(m) {
      SameRemainder(a, n, m);
    }
  }

  lemma SameRemainder(a: nat, n: nat, m: nat)
    ensures (a + n) % TWO_64 == (a + m) % TWO_64 <==> n % TWO_64 == m % TWO_64
  {
    var p, q := n / TWO_64, m / TWO_64;
    var x, y := n % TWO_64, m % TWO_64;
    Shift(a + x, p);
    Shift(a + y, q);
    assert a + n == a + x + p * TWO_64 && a + m == a + y + q * TWO_64;
    OneTurn(a % TWO_64, x, y);
    Shift(a % TWO_64 + x, a / TWO_64);
    Shift(a % TWO_64 + y, a / TWO_64);
  }

  lemma Shift(n: nat, turns: nat)
    ensures (n + turns * TWO_64) % TWO_64 == n % TWO_64
  {
  }

  lemma OneTurn(a: U64, x: U64, y: U64)
    ensures (a + x) % TWO_64 == (a + y) % TWO_64 <==> x == y
  {
  }

  lemma PutMoves(e: Emission, bytes: seq<int>)
    requires e.Emission?
    ensures Put(e, bytes).Emission? && Put(e, bytes).labels == e.labels && Put(e, bytes).address == Wrap(e.address + |bytes|)
  {
  }

  lemma CodeStep(line: Line, a: U64, labels: seq<Label>, patches: seq<Patch>, ctx: Context, world: World)
    requires IsCode(line) && a != 0 && SizeOf(line, a, ctx, labels).Advance?
    requires EmitCode(line, Emission(a, labels, patches), ctx, world).Emission?
    ensures var e := EmitCode(line, Emission(a, labels, patches), ctx, world);
            e.labels == labels &&
            (e.address == Wrap(a + SizeOf(line, a, ctx, labels).bytes) <==> Fits(line, a, ctx, labels))
  {
    hide SubstituteForSizing, Substitute, NopCount, EmitReadMem, FillPatch, AfterComma, BeforeComma, ResolveAddress, Stoull,
      Put, Wrap;
    var e := Emission(a, labels, patches);
    forall bytes: seq<int> { PutMoves(e, bytes); }
    match line
    case ReadMem(args) => ReadMemStep(args, a, labels, patches, ctx, world);
    case FillMem(_) => WholeAddress(a);
    case Nop(_) =>
    case Ds(_) =>
    case Data(op, values) =>
      WrapCancels(a, |ctx.data(op, SubstituteForSizing(values, a, ctx, labels)).value|,
                  |ctx.data(op, Substitute(values, ctx, labels)).value|);
    case Instruction(text) =>
      WrapCancels(a, |ctx.assemble(SubstituteForSizing(text, a, ctx, labels), a).value|,
                  |ctx.assemble(Substitute(text, ctx, labels), a).value|);
  }

  lemma WholeAddress(a: U64)
    ensures Wrap(a + 0) == a
  {
  }

  lemma DefinitionStep(name: string, a: U64, b: U64, labels: seq<Label>, patches: seq<Patch>, ctx: Context)
    requires SizeDefinition(name, Sizing(a, labels, false), ctx) == Sizing(b, labels, false)
    ensures EmitDefinition(name, Emission(a, labels, patches), ctx) == Emission(b, labels, patches)
  {
    hide ResolveAddress, FindAlloc;
  }

  /** A line that sizing takes from `a` to `b`, emission takes from `a` to `b` too, when it gets past it. */
  lemma LineStep(line: Line, a: U64, b: U64, labels: seq<Label>, patches: seq<Patch>, ctx: Context, world: World)
    requires !line.Reassemble? && !line.Unregister?
    requires SizeLine(line, Sizing(a, labels, false), ctx) == Sizing(b, labels, false)
    requires EmitLine(line, Emission(a, labels, patches), ctx, world).Emission?
    ensures var e := EmitLine(line, Emission(a, labels, patches), ctx, world);
            e.labels == labels && (e.address == b <==> Fits(line, a, ctx, labels))
  {
    hide SizeOf, EmitCode, EmitDefinition, SizeDefinition, ResolveAddress;
    if line.Definition? {
      DefinitionStep(line.name, a, b, labels, patches, ctx);
    } else if IsCode(line) {
      CodeStep(line, a, labels, patches, ctx, world);
    }
  }

  // ----- the whole script -----

  predicate AllCopy(lines: seq<string>, n: nat, ctx: Context, labels: seq<Label>)
    requires n <= |lines|
  {
    forall i :: 0 <= i < n ==> Copies(Classify(lines[i]), ctx, labels)
  }

  predicate AllFit(lines: seq<string>, n: nat, ctx: Context, labels: seq<Label>)
    requires n <= |lines| && Ordinary(lines) && Settled(lines, ctx, labels)
  {
    forall i :: 0 <= i < n ==> Fits(Classify(lines[i]), Place(lines, i, ctx, labels), ctx, labels)
  }

  /** Emission got to line `n` where sizing had placed it, with the labels unchanged. */
  predicate Agrees(lines: seq<string>, worlds: seq<World>, n: nat, ctx: Context, labels: seq<Label>)
    requires n <= |lines| == |worlds| && Ordinary(lines) && Settled(lines, ctx, labels)
  {
    var e := EmitTo(lines, worlds, n, ctx, labels);
    e.Emission? && e.address == Place(lines, n, ctx, labels) && e.labels == labels
  }

  lemma AgreesStep(lines: seq<string>, worlds: seq<World>, n: nat, ctx: Context, labels: seq<Label>)
    requires n < |lines| == |worlds| && Ordinary(lines) && Settled(lines, ctx, labels)
    requires Agrees(lines, worlds, n, ctx, labels) && EmitTo(lines, worlds, n + 1, ctx, labels).Emission?
    ensures Agrees(lines, worlds, n + 1, ctx, labels)
       <==> Fits(Classify(lines[n]), Place(lines, n, ctx, labels), ctx, labels)
  {
    hide SizeTo, Classify, Place, SizeLine, EmitLine, Fits, Settled;
    var e := EmitTo(lines, worlds, n, ctx, labels);
    SettledStep(lines, n, ctx, labels);
    LineStep(Classify(lines[n]), e.address, Place(lines, n + 1, ctx, labels), labels, e.patches, ctx, worlds[n]);
  }

  lemma {:induction false} AgreesThroughout(lines: seq<string>, worlds: seq<World>, n: nat, ctx: Context, labels: seq<Label>)
    requires n <= |lines| == |worlds| && Ordinary(lines) && Settled(lines, ctx, labels)
    requires AllFit(lines, n, ctx, labels) && EmitTo(lines, worlds, n, ctx, labels).Emission?
    ensures Agrees(lines, worlds, n, ctx, labels)
  {
    hide SizeLine, EmitLine, Classify, Fits, Ordinary, Settled;
    if n > 0 {
      AgreesThroughout(lines, worlds, n - 1, ctx, labels);
      AgreesStep(lines, worlds, n - 1, ctx, labels);
    } else {
      StartAgrees(lines, worlds, ctx, labels);
    }
  }

  lemma StartAgrees(lines: seq<string>, worlds: seq<World>, ctx: Context, labels: seq<Label>)
    requires |lines| == |worlds| && Ordinary(lines) && Settled(lines, ctx, labels)
    ensures Agrees(lines, worlds, 0, ctx, labels)
  {
    hide SizeLine, EmitLine, Classify, Ordinary;
    QuietPrefix(lines, 0, |lines|, ctx, labels);
  }

  lemma RunningBefore(lines: seq<string>, worlds: seq<World>, n: nat, m: nat, ctx: Context, labels: seq<Label>)
    requires n <= m <= |lines| == |worlds| && Ordinary(lines) && EmitTo(lines, worlds, m, ctx, labels).Emission?
    ensures EmitTo(lines, worlds, n, ctx, labels).Emission?
  {
    hide EmitTo;
    if EmitTo(lines, worlds, n, ctx, labels).Stopped? {
      StoppedStays(lines, worlds, n, m, ctx, labels);
    }
  }

  /** A script emitted up to a line agreed with sizing at every line so far exactly when each of them fitted: its
      READMEM copied and its placeholders kept its size. Nothing is asked of the labels. */
  lemma {:induction false} AgreementIff(lines: seq<string>, worlds: seq<World>, n: nat, ctx: Context, labels: seq<Label>)
    requires n <= |lines| == |worlds| && Ordinary(lines) && Settled(lines, ctx, labels)
    requires EmitTo(lines, worlds, n, ctx, labels).Emission?
    ensures (forall m :: 0 <= m <= n ==> Agrees(lines, worlds, m, ctx, labels)) <==> AllFit(lines, n, ctx, labels)
  {
    hide SizeTo, EmitLine, Classify, Fits, Ordinary, Agrees, Settled, Place;
    if AllFit(lines, n, ctx, labels) {
      forall m | 0 <= m <= n ensures Agrees(lines, worlds, m, ctx, labels) {
        RunningBefore(lines, worlds, m, n, ctx, labels);
        AgreesThroughout(lines, worlds, m, ctx, labels);
      }
    }
    if forall m :: 0 <= m <= n ==> Agrees(lines, worlds, m, ctx, labels) {
      forall i | 0 <= i < n ensures Fits(Classify(lines[i]), Place(lines, i, ctx, labels), ctx, labels) {
        RunningBefore(lines, worlds, i + 1, n, ctx, labels);
        assert Agrees(lines, worlds, i, ctx, labels) && Agrees(lines, worlds, i + 1, ctx, labels);
        AgreesStep(lines, worlds, i, ctx, labels);
      }
    }
  }

  /** When every name has a definition, only a READMEM that does not copy can part the passes. */
  lemma DefinedAgreementIff(lines: seq<string>, worlds: seq<World>, n: nat, ctx: Context, labels: seq<Label>)
    requires n <= |lines| == |worlds| && Ordinary(lines) && Settled(lines, ctx, labels)
    requires AllDefined(lines, ctx, labels) && Orderly(ctx, labels)
    requires EmitTo(lines, worlds, n, ctx, labels).Emission?
    ensures (forall m :: 0 <= m <= n ==> Agrees(lines, worlds, m, ctx, labels)) <==> AllCopy(lines, n, ctx, labels)
  {
    hide SizeTo, EmitLine, Classify, Fits, Ordinary, Agrees, Settled, Place, AllDefined, Orderly, Tight, Copies;
    AgreementIff(lines, worlds, n, ctx, labels);
    FitIsCopy(lines, n, ctx, labels);
  }

  lemma FitIsCopy(lines: seq<string>, n: nat, ctx: Context, labels: seq<Label>)
    requires n <= |lines| && Ordinary(lines) && Settled(lines, ctx, labels)
    requires AllDefined(lines, ctx, labels) && Orderly(ctx, labels)
    ensures AllFit(lines, n, ctx, labels) <==> AllCopy(lines, n, ctx, labels)
  {
    hide SizeTo, Classify, Fits, Ordinary, Settled, Place, AllDefined, Orderly, Tight, Copies;
    forall i | 0 <= i < n
      ensures Fits(Classify(lines[i]), Place(lines, i, ctx, labels), ctx, labels) <==> Copies(Classify(lines[i]), ctx, labels)
    {
      DefinedIsTight(Classify(lines[i]), lines, ctx, labels);
      TightFits(Classify(lines[i]), Place(lines, i, ctx, labels), ctx, labels);
    }
  }

  /** When the labels converge, every name has a definition and every READMEM copies, emission reaches each line
      at the address the last sizing pass gave it, unless it stopped before. */
  lemma EmissionFollowsSizing(lines: seq<string>, worlds: seq<World>, n: nat, ctx: Context, declared: seq<Label>,
                              labels: seq<Label>)
    requires n <= |lines| == |worlds| && Ordinary(lines)
    requires Resolve(lines, ctx, declared, MAX_PASSES) == Resolved(labels)
    requires AllDefined(lines, ctx, declared) && Orderly(ctx, labels) && AllCopy(lines, n, ctx, labels)
    ensures Settled(lines, ctx, labels)
    ensures EmitTo(lines, worlds, n, ctx, labels).Stopped? || Agrees(lines, worlds, n, ctx, labels)
  {
    hide SizeTo, EmitTo, AllDefined, AllCopy, AllFit, Resolve, Agrees, Ordinary, Orderly, Settled;
    ResolvedIsSettled(lines, ctx, declared, MAX_PASSES);
    DefinedStays(lines, ctx, declared, labels);
    FitIsCopy(lines, n, ctx, labels);
    if EmitTo(lines, worlds, n, ctx, labels).Emission? {
      AgreesThroughout(lines, worlds, n, ctx, labels);
    }
  }
}
