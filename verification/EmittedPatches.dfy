/** What an emitted script writes: for every line the bytes that its own text asks for, at its own place, and nothing
    besides. */
module EmittedPatches {
  import opened Text
  import opened ScriptText
  import opened Layout
  import opened LayoutAgreement

  /** Bytes at an address, and that alone. */
  ghost predicate WritesOnly(ps: seq<Patch>, address: U64, bytes: seq<int>) {
    ps == if bytes == [] then [] else [Patch(address, bytes)]
  }

  /** `n` times the same byte. */
  predicate AllOf(bytes: seq<int>, n: nat, b: int) {
    |bytes| == n && forall i :: 0 <= i < n ==> bytes[i] == b
  }

  predicate CodesOf(bytes: seq<int>, text: string) {
    |bytes| == |text| && forall i :: 0 <= i < |text| ==> bytes[i] == text[i] as int
  }

  /** READMEM writes what it finds at its source, unless that does not resolve or it asks for nothing. */
  ghost predicate ReadMemWrites(args: string, address: U64, labels: seq<Label>, ctx: Context, world: World,
                                bytes: seq<int>) {
    if AfterComma(args).None? then bytes == []
    else
      var size := ParseWhole(AfterComma(args).value, 0);
      size.Some? && size.value <= MAX_BUFFER &&
      if ResolveAddress(BeforeComma(args), ctx, labels) == 0 then bytes == []
      else |bytes| == size.value && bytes <= world.memory
  }

  /** FILLMEM writes its value, its size many times, at its target. */
  ghost predicate FillMemWrites(args: string, labels: seq<Label>, ctx: Context, ps: seq<Patch>) {
    var parts := Parts(args, 3);
    && |parts| == 3 && |ps| == 1
    && ps[0].address == ResolveAddress(parts[0], ctx, labels) != 0
    && Stoull(TrimLine(parts[1]), 0).Some? && Stoull(TrimLine(parts[2]), 16).Some?
    && var n, b := Stoull(TrimLine(parts[1]), 0).value.value, Stoull(TrimLine(parts[2]), 16).value.value;
       0 < n <= MAX_BUFFER && b <= 0xff && AllOf(ps[0].bytes, n, b)
  }

  ghost predicate LoadBinaryWrites(args: string, labels: seq<Label>, ctx: Context, world: World, ps: seq<Patch>) {
    var parts := Parts(args, 2);
    && |parts| == 2 && world.file != []
    && ps == [Patch(ResolveAddress(TrimLine(parts[0]), ctx, labels), world.file)] && ps[0].address != 0
  }

  /** What a line writes when the script is at `address` with these labels. */
  ghost predicate LineWrites(line: Line, address: U64, labels: seq<Label>, ctx: Context, world: World, ps: seq<Patch>) {
    match line
    case Nop(count) =>
      NopCount(count).Some? && |ps| == 1 && ps[0].address == address && AllOf(ps[0].bytes, NopCount(count).value, 0x90)
    case Ds(text) => text != [] && |ps| == 1 && ps[0].address == address && CodesOf(ps[0].bytes, text)
    case FillMem(args) => FillMemWrites(args, labels, ctx, ps)
    case LoadBinary(args) => LoadBinaryWrites(args, labels, ctx, world, ps)
    case ReadMem(args) =>
      exists bytes: seq<int> :: WritesOnly(ps, address, bytes) && ReadMemWrites(args, address, labels, ctx, world, bytes)
    case Data(op, values) =>
      var bytes := ctx.data(op, Substitute(values, ctx, labels));
      bytes.Some? && WritesOnly(ps, address, bytes.value)
    case Instruction(text) =>
      var bytes := ctx.assemble(Substitute(text, ctx, labels), address);
      bytes.Some? && WritesOnly(ps, address, bytes.value)
    case _ => ps == []
  }

  /** Only what is written where the script is moves it on, by as many bytes. */
  ghost predicate MovesOn(line: Line, address: U64, after: U64, ps: seq<Patch>) {
    if line.Definition? then true
    else if line.FillMem? || line.LoadBinary? || ps == [] then after == address
    else after == Wrap(address + |ps[0].bytes|)
  }

  lemma ReadMemIs(args: string, e: Emission, ctx: Context, world: World) returns (bytes: seq<int>)
    requires e.Emission? && EmitReadMem(args, e, ctx, world).Emission?
    ensures EmitReadMem(args, e, ctx, world) == Put(e, bytes)
    ensures ReadMemWrites(args, e.address, e.labels, ctx, world, bytes)
  {
    hide ResolveAddress, ParseWhole, AfterComma, BeforeComma, Wrap;
    bytes := [];
    if AfterComma(args).Some? {
      var size := ParseWhole(AfterComma(args).value, 0);
      if ResolveAddress(BeforeComma(args), ctx, e.labels) != 0 {
        bytes := if size.value == 0 then [] else world.memory[..size.value];
      }
    }
  }

  lemma FillIs(args: string, ctx: Context, labels: seq<Label>)
    requires FillPatch(args, ctx, labels).Some?
    ensures FillMemWrites(args, labels, ctx, [FillPatch(args, ctx, labels).value])
  {
    hide ResolveAddress, Parts, Stoull, TrimLine;
  }

  lemma PutWrites(e: Emission, bytes: seq<int>) returns (ps: seq<Patch>)
    requires e.Emission?
    ensures Put(e, bytes).Emission? && Put(e, bytes).patches == e.patches + ps && WritesOnly(ps, e.address, bytes)
    ensures Put(e, bytes).labels == e.labels
    ensures Put(e, bytes).address == if ps == [] then e.address else Wrap(e.address + |ps[0].bytes|)
  {
    ps := if bytes == [] then [] else [Patch(e.address, bytes)];
  }

  /** A line that emission gets past has written what it is to write. */
  lemma EmitLineWrites(line: Line, e: Emission, ctx: Context, world: World) returns (ps: seq<Patch>)
    requires e.Emission? && !line.Reassemble? && !line.Unregister? && EmitLine(line, e, ctx, world).Emission?
    ensures EmitLine(line, e, ctx, world).patches == e.patches + ps
    ensures LineWrites(line, e.address, e.labels, ctx, world, ps)
    ensures MovesOn(line, e.address, EmitLine(line, e, ctx, world).address, ps)
  {
    hide ResolveAddress, Substitute, EmitReadMem, ReadMemWrites, AfterComma, BeforeComma, ParseWhole, Stoull, Wrap,
      Parts, Put, TrimLine;
    ps := [];
    if line.Nop? {
      ps := PutWrites(e, seq(NopCount(line.count).value, i => 0x90));
    } else if line.Ds? {
      ps := PutWrites(e, Layout.Bytes(line.text));
    } else if line.ReadMem? {
      var bytes := ReadMemIs(line.args, e, ctx, world);
      ps := PutWrites(e, bytes);
      assert WritesOnly(ps, e.address, bytes) && ReadMemWrites(line.args, e.address, e.labels, ctx, world, bytes);
    } else if line.Data? {
      ps := PutWrites(e, ctx.data(line.op, Substitute(line.values, ctx, e.labels)).value);
    } else if line.Instruction? {
      ps := PutWrites(e, ctx.assemble(Substitute(line.text, ctx, e.labels), e.address).value);
    } else if line.FillMem? {
      ps := [FillPatch(line.args, ctx, e.labels).value];
      FillIs(line.args, ctx, e.labels);
    } else if line.LoadBinary? {
      ps := [Patch(ResolveAddress(TrimLine(Parts(line.args, 2)[0]), ctx, e.labels), world.file)];
    }
  }

  // ----- the whole script -----

  function Flat(pss: seq<seq<Patch>>): seq<Patch> {
    if pss == [] then [] else Flat(pss[..|pss| - 1]) + pss[|pss| - 1]
  }

  ghost predicate LineDoes(lines: seq<string>, worlds: seq<World>, i: nat, ctx: Context, labels: seq<Label>, ps: seq<Patch>)
    requires i < |lines| == |worlds| && Ordinary(lines)
  {
    var e, e' := EmitTo(lines, worlds, i, ctx, labels), EmitTo(lines, worlds, i + 1, ctx, labels);
    && e.Emission? && e'.Emission? && e'.patches == e.patches + ps
    && LineWrites(Classify(lines[i]), e.address, e.labels, ctx, worlds[i], ps)
    && MovesOn(Classify(lines[i]), e.address, e'.address, ps)
  }

  /** `pss[i]` is what line `i` writes at the place and with the labels that emission has there. */
  ghost predicate LinesWrite(lines: seq<string>, worlds: seq<World>, n: nat, ctx: Context, labels: seq<Label>,
                             pss: seq<seq<Patch>>)
    requires n <= |lines| == |worlds| && Ordinary(lines)
  {
    |pss| == n && forall i :: 0 <= i < n ==> LineDoes(lines, worlds, i, ctx, labels, pss[i])
  }

  lemma LineAt(lines: seq<string>, worlds: seq<World>, i: nat, ctx: Context, labels: seq<Label>) returns (ps: seq<Patch>)
    requires i < |lines| == |worlds| && Ordinary(lines)
    requires EmitTo(lines, worlds, i, ctx, labels).Emission? && EmitTo(lines, worlds, i + 1, ctx, labels).Emission?
    ensures LineDoes(lines, worlds, i, ctx, labels, ps)
    ensures EmitTo(lines, worlds, i + 1, ctx, labels).patches == EmitTo(lines, worlds, i, ctx, labels).patches + ps
  {
    hide LineWrites, MovesOn, EmitLine, Classify, Ordinary;
    OrdinaryLine(lines, i);
    ps := EmitLineWrites(Classify(lines[i]), EmitTo(lines, worlds, i, ctx, labels), ctx, worlds[i]);
  }

  /** A script emitted up to a line has written, in the order of its lines, what each of them is to write, and nothing
      else. */
  lemma {:induction false} EmissionWrites(lines: seq<string>, worlds: seq<World>, n: nat, ctx: Context, labels: seq<Label>)
      returns (pss: seq<seq<Patch>>)
    requires n <= |lines| == |worlds| && Ordinary(lines) && EmitTo(lines, worlds, n, ctx, labels).Emission?
    ensures LinesWrite(lines, worlds, n, ctx, labels, pss)
    ensures EmitTo(lines, worlds, n, ctx, labels).patches == Flat(pss)
  {
    hide LineWrites, MovesOn, EmitLine, Classify, Ordinary, LineDoes;
    if n == 0 {
      pss := [];
    } else {
      var e := EmitTo(lines, worlds, n - 1, ctx, labels);
      assert e.Emission?;
      var before := EmissionWrites(lines, worlds, n - 1, ctx, labels);
      var ps := LineAt(lines, worlds, n - 1, ctx, labels);
      pss := before + [ps];
      assert pss[..n - 1] == before;
    }
  }
}
