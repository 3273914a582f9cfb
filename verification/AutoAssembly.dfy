/** The two loops of the auto-assembler, and what holds when one follows the other. */
module AutoAssembly {
  import opened Text
  import opened ScriptText
  import opened SymbolSubstitution
  import opened Layout
  import opened LooseLabels
  import opened LayoutAgreement

  // ----- looking names up -----

  method FindBlock(allocs: seq<Alloc>, name: string) returns (found: Option<U64>)
    ensures found == FindAlloc(allocs, name)
  {
    var i := 0;
    assert allocs[0..] == allocs;
    while i < |allocs|
      invariant i <= |allocs| && FindAlloc(allocs[i..], name) == FindAlloc(allocs, name)
    {
      if allocs[i].name == name {
        return Some(allocs[i].address);
      }
      assert allocs[i..][1..] == allocs[i + 1..];
      i := i + 1;
    }
    found := None;
  }

  method FindLabel(labels: seq<Label>, name: string) returns (k: nat)
    ensures k == LabelIndex(labels, name)
  {
    k := 0;
    while k < |labels| && labels[k].name != name
      invariant k <= |labels| && forall j :: 0 <= j < k ==> labels[j].name != name
    {
      k := k + 1;
    }
  }

  method SubstituteSymbols(line: string, ctx: Context, labels: seq<Label>) returns (text: string)
    ensures text == Substitute(line, ctx, labels)
  {
    text := SubstituteOutsideQuotes(line, LongestFirst(DefineReplacements(ctx.defines))
                                          + LongestFirst(AllocReplacements(ctx.allocs))
                                          + LongestFirst(LabelReplacements(labels)));
  }

  // ----- sizing -----

  method SubstituteWithPlaceholders(line: string, address: U64, ctx: Context, labels: seq<Label>) returns (text: string)
    ensures text == SubstituteForSizing(line, address, ctx, labels)
  {
    text := SubstituteSymbols(line, ctx, labels);
    text := SubstituteOutsideQuotes(text, Placeholders(labels, address));
  }

  method SizeOneLine(line: Line, currentAddr: U64, labels: seq<Label>, changed: bool, ctx: Context) returns (s: Sizing)
    requires !line.Reassemble?
    ensures s == SizeLine(line, Sizing(currentAddr, labels, changed), ctx)
  {
    hide FindAlloc, LabelIndex, ResolveAddress, SubstituteForSizing, Stoull, NopCount, AfterComma;
    if line.Definition? {
      var block := FindBlock(ctx.allocs, line.name);
      if block.Some? {
        return Sizing(block.value, labels, changed);
      }
      var k := FindLabel(labels, line.name);
      if k < |labels| {
        if currentAddr == 0 {
          return Unsized(NoActiveAddress, labels);
        }
        if labels[k].address != currentAddr {
          return Sizing(currentAddr, labels[k := labels[k].(address := currentAddr)], true);
        }
        return Sizing(currentAddr, labels, changed);
      }
      var target := ResolveAddress(line.name, ctx, labels);
      return if target == 0 then Unsized(UnresolvedTarget(line.name), labels) else Sizing(target, labels, changed);
    }
    if !IsCode(line) {
      return Sizing(currentAddr, labels, changed);
    }
    if currentAddr == 0 {
      return Unsized(NoActiveAddress, labels);
    }
    var moved: int;
    if line.Data? {
      var text := SubstituteWithPlaceholders(line.values, currentAddr, ctx, labels);
      var bytes := ctx.data(line.op, text);
      if bytes.None? {
        return Unsized(BadData, labels);
      }
      moved := |bytes.value|;
    } else if line.Instruction? {
      var text := SubstituteWithPlaceholders(line.text, currentAddr, ctx, labels);
      var bytes := ctx.assemble(text, currentAddr);
      if bytes.None? {
        return Unsized(BadInstruction(currentAddr), labels);
      }
      moved := |bytes.value|;
    } else {
      var size := SizeOf(line, currentAddr, ctx, labels);
      if size.Refuse? {
        return Unsized(size.problem, labels);
      }
      moved := size.bytes;
    }
    s := Sizing(Wrap(currentAddr + moved), labels, changed);
  }

  method ResolveForwardLabels(lines: seq<string>, ctx: Context, declared: seq<Label>)
      returns (result: Resolution, labels: seq<Label>)
    requires Ordinary(lines)
    ensures result == Resolve(lines, ctx, declared, MAX_PASSES)
    ensures result.Resolved? ==> result.labels == labels
  {
    hide SizeLine, Classify;
    labels := declared;
    var pass := 0;
    while pass < MAX_PASSES
      invariant pass <= MAX_PASSES
      invariant Resolve(lines, ctx, labels, MAX_PASSES - pass) == Resolve(lines, ctx, declared, MAX_PASSES)
    {
      var currentAddr: U64 := 0;
      var changed := false;
      ghost var before := labels;
      var i := 0;
      while i < |lines|
        invariant i <= |lines|
        invariant SizeTo(lines, i, ctx, before) == Sizing(currentAddr, labels, changed)
      {
        var s := SizeOneLine(Classify(lines[i]), currentAddr, labels, changed, ctx);
        assert SizeTo(lines, i + 1, ctx, before) == s;
        if s.Unsized? {
          UnsizedStays(lines, i + 1, ctx, before);
          labels := s.labels;
          return Rejected(s.problem), labels;
        }
        currentAddr, labels, changed := s.address, s.labels, s.changed;
        i := i + 1;
      }
      if !changed {
        return Resolved(labels), labels;
      }
      pass := pass + 1;
    }
    result := NotConverging;
  }

  // ----- emission -----

  method EmitOneLine(line: Line, currentAddr: U64, labels: seq<Label>, patches: seq<Patch>, ctx: Context, world: World)
      returns (e: Emission)
    requires !line.Reassemble? && !line.Unregister?
    ensures e == EmitLine(line, Emission(currentAddr, labels, patches), ctx, world)
  {
    hide FindAlloc, LabelIndex, ResolveAddress, Substitute, EmitReadMem, FillPatch, NopCount, EmitFile, Bytes;
    e := Emission(currentAddr, labels, patches);
    if line.Definition? {
      var block := FindBlock(ctx.allocs, line.name);
      if block.Some? {
        return Emission(block.value, labels, patches);
      }
      var k := FindLabel(labels, line.name);
      if k < |labels| {
        return if currentAddr == 0 then Stopped
               else Emission(currentAddr, labels[k := labels[k].(address := currentAddr)], patches);
      }
      var target := ResolveAddress(line.name, ctx, labels);
      return if target == 0 then Stopped else Emission(target, labels, patches);
    }
    if world.refuses || (IsCode(line) && currentAddr == 0) {
      return Stopped;
    }
    var bytes: Option<seq<int>>;
    if line.Data? {
      var text := SubstituteSymbols(line.values, ctx, labels);
      bytes := ctx.data(line.op, text);
    } else if line.Instruction? {
      var text := SubstituteSymbols(line.text, ctx, labels);
      bytes := ctx.assemble(text, currentAddr);
    } else {
      return EmitLine(line, e, ctx, world);
    }
    if bytes.None? {
      return Stopped;
    }
    if |bytes.value| > 0 {
      e := Emission(Wrap(currentAddr + |bytes.value|), labels, patches + [Patch(currentAddr, bytes.value)]);
    }
  }

  method EmitLines(lines: seq<string>, worlds: seq<World>, ctx: Context, resolved: seq<Label>)
      returns (done: bool, currentAddr: U64, labels: seq<Label>, patches: seq<Patch>)
    requires |lines| == |worlds| && Ordinary(lines)
    ensures done == EmitTo(lines, worlds, |lines|, ctx, resolved).Emission?
    ensures done ==> EmitTo(lines, worlds, |lines|, ctx, resolved) == Emission(currentAddr, labels, patches)
  {
    hide EmitLine, Classify;
    currentAddr, labels, patches := 0, resolved, [];
    var i := 0;
    while i < |lines|
      invariant i <= |lines|
      invariant EmitTo(lines, worlds, i, ctx, resolved) == Emission(currentAddr, labels, patches)
    {
      var e := EmitOneLine(Classify(lines[i]), currentAddr, labels, patches, ctx, worlds[i]);
      assert EmitTo(lines, worlds, i + 1, ctx, resolved) == e;
      if e.Stopped? {
        StoppedStays(lines, worlds, i + 1, |lines|, ctx, resolved);
        return false, currentAddr, labels, patches;
      }
      currentAddr, labels, patches := e.address, e.labels, e.patches;
      i := i + 1;
    }
    done := true;
  }

  // ----- one after the other -----

  /** Size, then emit. When every name has a definition and every READMEM copies, emission was at each line where
      the last sizing pass had been, and ends with the labels that sizing gave it. */
  method Assemble(lines: seq<string>, worlds: seq<World>, ctx: Context, declared: seq<Label>)
      returns (resolution: Resolution, done: bool, labels: seq<Label>, patches: seq<Patch>)
    requires |lines| == |worlds| && Ordinary(lines)
    ensures resolution == Resolve(lines, ctx, declared, MAX_PASSES)
    ensures done ==> resolution.Resolved? && Settled(lines, ctx, resolution.labels)
    ensures done ==> var e := EmitTo(lines, worlds, |lines|, ctx, resolution.labels);
                     e.Emission? && e.patches == patches && e.labels == labels
    ensures resolution.Resolved? && !done ==> EmitTo(lines, worlds, |lines|, ctx, resolution.labels).Stopped?
    ensures done && AllFit(lines, |lines|, ctx, resolution.labels) ==>
              labels == resolution.labels && forall n :: 0 <= n <= |lines| ==> Agrees(lines, worlds, n, ctx, labels)
    ensures done && AllDefined(lines, ctx, declared) && Orderly(ctx, resolution.labels) ==>
              (AllFit(lines, |lines|, ctx, resolution.labels) <==> AllCopy(lines, |lines|, ctx, resolution.labels))
  {
    hide SizeTo, EmitTo, AllDefined, AllCopy, AllFit, Orderly, Ordinary, Settled, Resolve, Place;
    resolution, labels := ResolveForwardLabels(lines, ctx, declared);
    done, patches := false, [];
    if resolution.Resolved? {
      ghost var resolved := labels;
      ResolvedIsSettled(lines, ctx, declared, MAX_PASSES);
      var currentAddr;
      done, currentAddr, labels, patches := EmitLines(lines, worlds, ctx, labels);
      if done && AllFit(lines, |lines|, ctx, resolved) {
        AgreementIff(lines, worlds, |lines|, ctx, resolved);
        assert Agrees(lines, worlds, |lines|, ctx, resolved);
      }
      if AllDefined(lines, ctx, declared) && Orderly(ctx, resolved) {
        DefinedStays(lines, ctx, declared, resolved);
        FitIsCopy(lines, |lines|, ctx, resolved);
      }
    }
  }
}
