/** Where the auto-assembler puts each line: the iterated sizing pass that gives labels their addresses,
    and the emission pass that later writes the bytes. */
module Layout {
  import opened Text
  import opened ScriptText

  datatype Alloc = Alloc(name: string, address: U64)
  datatype Label = Label(name: string, address: U64)
  datatype Define = Define(name: string, value: string)

  /** What both passes read and neither changes. The assembler and the data-directive parser are
      deterministic: text and address (text and directive) to bytes, or a failure. */
  datatype Context = Context(
    allocs: seq<Alloc>,
    defines: seq<Define>,
    globals: map<string, U64>,
    assemble: (string, int) -> Option<seq<int>>,
    data: (string, string) -> Option<seq<int>>)

  const MAX_BUFFER: int := 256 * 1024 * 1024
  const MAX_PASSES: nat := 8

  // ----- names and addresses -----

  function FindAlloc(allocs: seq<Alloc>, name: string): Option<U64> {
    if allocs == [] then None
    else if allocs[0].name == name then Some(allocs[0].address)
    else FindAlloc(allocs[1..], name)
  }

  /** The first label of that name, or |labels|. */
  function LabelIndex(labels: seq<Label>, name: string): (i: nat)
    ensures i <= |labels|
    ensures i < |labels| ==> labels[i].name == name
    ensures forall j :: 0 <= j < i ==> labels[j].name != name
  {
    if labels == [] || labels[0].name == name then 0 else 1 + LabelIndex(labels[1..], name)
  }

  function ParseWhole(text: string, base: nat): Option<U64>
    requires base == 0 || base == 10 || base == 16
  {
    var s := TrimLine(text);
    if s == [] then None
    else
      var p := Stoull(s, base);
      if p.Some? && p.value.used == |s| then Some(p.value.value) else None
  }

  function DefineAddress(defines: seq<Define>, name: string): Option<U64> {
    if defines == [] then None
    else
      var p := if defines[0].name == name then ParseWhole(defines[0].value, 16) else None;
      if p.Some? then p else DefineAddress(defines[1..], name)
  }

  /** 0 when the expression names no address. */
  function ResolveAddress(expr: string, ctx: Context, labels: seq<Label>): U64
    decreases |expr|
  {
    var name := TrimLine(expr);
    var plus := FirstOf(name, '+', 0);
    if FindAlloc(ctx.allocs, name).Some? then FindAlloc(ctx.allocs, name).value
    else if LabelIndex(labels, name) < |labels| then labels[LabelIndex(labels, name)].address
    else if DefineAddress(ctx.defines, name).Some? then DefineAddress(ctx.defines, name).value
    else if name in ctx.globals then ctx.globals[name]
    else
      var base := if plus < |name| then ResolveAddress(name[..plus], ctx, labels) else 0;
      var offset := if plus < |name| then ParseWhole(name[plus + 1..], 16) else None;
      if base != 0 && offset.Some? then Wrap(base + offset.value)
      else if ParseWhole(name, 16).Some? then ParseWhole(name, 16).value
      else 0
  }

  // ----- symbols inside lines -----

  function Hex(address: U64): string {
    "0x" + Digits(address, 16)
  }

  /** Insert before the first shorter name: longer names come first. */
  function InsertByLength(r: Replacement, rs: seq<Replacement>): seq<Replacement> {
    if rs == [] || |rs[0].name| < |r.name| then [r] + rs else [rs[0]] + InsertByLength(r, rs[1..])
  }

  function LongestFirst(rs: seq<Replacement>): seq<Replacement> {
    if rs == [] then [] else InsertByLength(rs[|rs| - 1], LongestFirst(rs[..|rs| - 1]))
  }

  function DefineReplacements(defines: seq<Define>): seq<Replacement> {
    if defines == [] then []
    else [Replacement(defines[0].name, defines[0].value)] + DefineReplacements(defines[1..])
  }

  function AllocReplacements(allocs: seq<Alloc>): seq<Replacement> {
    if allocs == [] then []
    else (if allocs[0].address == 0 then [] else [Replacement(allocs[0].name, Hex(allocs[0].address))])
         + AllocReplacements(allocs[1..])
  }

  function LabelReplacements(labels: seq<Label>): seq<Replacement> {
    if labels == [] then []
    else (if labels[0].address == 0 then [] else [Replacement(labels[0].name, Hex(labels[0].address))])
         + LabelReplacements(labels[1..])
  }

  function Substitute(line: string, ctx: Context, labels: seq<Label>): string {
    ReplaceOutsideQuotes(line, LongestFirst(DefineReplacements(ctx.defines))
                               + LongestFirst(AllocReplacements(ctx.allocs))
                               + LongestFirst(LabelReplacements(labels)))
  }

  /** Labels without an address yet stand as the current address while lines are sized. */
  function Placeholders(labels: seq<Label>, address: U64): seq<Replacement> {
    if labels == [] then []
    else (if labels[0].address != 0 then [] else [Replacement(labels[0].name, Hex(address))])
         + Placeholders(labels[1..], address)
  }

  function SubstituteForSizing(line: string, address: U64, ctx: Context, labels: seq<Label>): string {
    ReplaceOutsideQuotes(Substitute(line, ctx, labels), Placeholders(labels, address))
  }

  // ----- lines -----

  datatype Line =
    | Definition(name: string)
    | Aside
    | LoadBinary(args: string)
    | Reassemble
    | Unregister
    | ReadMem(args: string)
    | FillMem(args: string)
    | Nop(count: string)
    | Ds(text: string)
    | Data(op: string, values: string)
    | Instruction(text: string)

  predicate IsDataLine(t: string) {
    var u := Upper(t);
    StartsWith(u, "DB ") || StartsWith(u, "DW ") || StartsWith(u, "DD ") || StartsWith(u, "DQ ")
  }

  /** How both passes take a line that is not blank: the first test that fits decides. */
  function Classify(line: string): Line {
    var t := TrimLine(line);
    if IsLabelDefinition(t) then Definition(t[..|t| - 1])
    else if StartsWith(t, "__UNREGISTERSYMBOL__:") then Unregister
    else if StartsWith(t, "__FULLACCESS__:") || StartsWith(t, "__ASSERT__:") || StartsWith(t, "__DEALLOC__:") ||
            StartsWith(t, "__CREATETHREAD__:") || StartsWith(t, "__CREATETHREADANDWAIT__:") ||
            StartsWith(t, "__LOADLIBRARY__:") then Aside
    else if StartsWith(t, "__LOADBINARY__:") then LoadBinary(t[15..])
    else if StartsWith(t, "__REASSEMBLE__:") then Reassemble
    else if StartsWith(t, "__READMEM__:") then ReadMem(t[12..])
    else if StartsWith(t, "__FILLMEM__:") then FillMem(t[12..])
    else if StartsWith(t, "__NOP__:") then Nop(TrimLine(t[8..]))
    else if StartsWith(t, "__DS__:") then Ds(StripQuotes(t[7..]))
    else if IsDataLine(t) then Data(Upper(t)[..2], TrimLine(t[3..]))
    else Instruction(t)
  }

  /** The size a NOP directive asks for. */
  function NopCount(count: string): Option<U64> {
    if count == [] then Some(1)
    else
      var p := Stoull(count, 0);
      if p.None? || p.value.value == 0 then None else Some(p.value.value)
  }

  /** What follows the first comma. */
  function AfterComma(args: string): Option<string> {
    var c := FirstOf(args, ',', 0);
    if c < |args| then Some(TrimLine(args[c + 1..])) else None
  }

  function BeforeComma(args: string): string {
    TrimLine(args[..FirstOf(args, ',', 0)])
  }

  // ----- sizing -----

  datatype Problem =
    | NoActiveAddress
    | UnresolvedTarget(name: string)
    | BadReadMem
    | BadNop
    | BadDs
    | BadData
    | BadInstruction(address: U64)

  datatype Size = Advance(bytes: nat) | Refuse(problem: Problem)

  predicate IsCode(line: Line) {
    line.ReadMem? || line.FillMem? || line.Nop? || line.Ds? || line.Data? || line.Instruction?
  }

  /** How far a line of code or data moves the address. */
  function SizeOf(line: Line, address: U64, ctx: Context, labels: seq<Label>): Size
    requires IsCode(line)
  {
    match line
    case ReadMem(args) =>
      if AfterComma(args).None? then Refuse(BadReadMem)
      else
        var size := Stoull(AfterComma(args).value, 0);
        if size.None? then Refuse(BadReadMem) else Advance(size.value.value)
    case FillMem(_) => Advance(0)
    case Nop(count) => if NopCount(count).None? then Refuse(BadNop) else Advance(NopCount(count).value)
    case Ds(text) => if text == [] then Refuse(BadDs) else Advance(|text|)
    case Data(op, values) =>
      var bytes := ctx.data(op, SubstituteForSizing(values, address, ctx, labels));
      if bytes.None? then Refuse(BadData) else Advance(|bytes.value|)
    case Instruction(text) =>
      var bytes := ctx.assemble(SubstituteForSizing(text, address, ctx, labels), address);
      if bytes.None? then Refuse(BadInstruction(address)) else Advance(|bytes.value|)
  }

  /** `address` 0 means that no target has been named yet. */
  datatype Sizing = Sizing(address: U64, labels: seq<Label>, changed: bool) | Unsized(problem: Problem, labels: seq<Label>)

  function Bind(labels: seq<Label>, k: nat, address: U64): seq<Label>
    requires k < |labels|
  {
    labels[k := labels[k].(address := address)]
  }

  /** An allocation's name moves to its block; a declared label is bound here; anything else must be an address. */
  function SizeDefinition(name: string, s: Sizing, ctx: Context): Sizing
    requires s.Sizing?
  {
    var k := LabelIndex(s.labels, name);
    var target := ResolveAddress(name, ctx, s.labels);
    if FindAlloc(ctx.allocs, name).Some? then s.(address := FindAlloc(ctx.allocs, name).value)
    else if k < |s.labels| then
      if s.address == 0 then Unsized(NoActiveAddress, s.labels)
      else if s.labels[k].address != s.address then Sizing(s.address, Bind(s.labels, k, s.address), true)
      else s
    else if target == 0 then Unsized(UnresolvedTarget(name), s.labels)
    else s.(address := target)
  }

  function SizeCode(line: Line, s: Sizing, ctx: Context): Sizing
    requires s.Sizing? && IsCode(line)
  {
    if s.address == 0 then Unsized(NoActiveAddress, s.labels)
    else
      var size := SizeOf(line, s.address, ctx, s.labels);
      if size.Refuse? then Unsized(size.problem, s.labels) else s.(address := Wrap(s.address + size.bytes))
  }

  /** One line of a sizing pass. */
  function SizeLine(line: Line, s: Sizing, ctx: Context): Sizing
    requires s.Sizing? && !line.Reassemble?
  {
    if line.Definition? then SizeDefinition(line.name, s, ctx)
    else if IsCode(line) then SizeCode(line, s, ctx)
    else s
  }

  /** Lines the passes treat alike: no directive that disassembles, or drops a symbol, on the way, and no blank
      line, which parsing never leaves. */
  predicate Ordinary(lines: seq<string>) {
    forall i :: 0 <= i < |lines| ==>
      !Classify(lines[i]).Reassemble? && !Classify(lines[i]).Unregister? && TrimLine(lines[i]) != []
  }

  /** A sizing pass before line `n`. */
  function SizeTo(lines: seq<string>, n: nat, ctx: Context, labels: seq<Label>): Sizing
    requires n <= |lines| && Ordinary(lines)
  {
    if n == 0 then Sizing(0, labels, false)
    else
      var s := SizeTo(lines, n - 1, ctx, labels);
      if s.Unsized? then s else SizeLine(Classify(lines[n - 1]), s, ctx)
  }

  datatype Resolution = Resolved(labels: seq<Label>) | Rejected(problem: Problem) | NotConverging

  /** Passes until one changes no label, at most `passes` of them. */
  function Resolve(lines: seq<string>, ctx: Context, labels: seq<Label>, passes: nat): Resolution
    requires Ordinary(lines)
    decreases passes
  {
    if passes == 0 then NotConverging
    else
      var s := SizeTo(lines, |lines|, ctx, labels);
      if s.Unsized? then Rejected(s.problem)
      else if !s.changed then Resolved(s.labels)
      else Resolve(lines, ctx, s.labels, passes - 1)
  }

  lemma {:induction false} UnsizedStays(lines: seq<string>, n: nat, ctx: Context, labels: seq<Label>)
    requires n <= |lines| && Ordinary(lines) && SizeTo(lines, n, ctx, labels).Unsized?
    ensures SizeTo(lines, |lines|, ctx, labels) == SizeTo(lines, n, ctx, labels)
    decreases |lines| - n
  {
    hide SizeLine, Ordinary, Classify;
    if n < |lines| {
      UnsizedStays(lines, n + 1, ctx, labels);
    }
  }

  // ----- emission -----

  datatype Patch = Patch(address: U64, bytes: seq<int>)

  /** What lies outside the passes, per line: whether the process refuses something there, what a READMEM finds
      at its source, and what the file of a LOADBINARY holds. */
  datatype World = World(refuses: bool, memory: seq<int>, file: seq<int>)

  datatype Emission = Emission(address: U64, labels: seq<Label>, patches: seq<Patch>) | Stopped

  function Parts(args: string, max: nat): seq<string> {
    PartsFrom(args, 0, '\0', [], max)
  }

  /** Split at commas outside quotes into at most `max` parts; the last one keeps its commas. */
  function PartsFrom(args: string, i: nat, quote: char, current: string, max: nat): seq<string>
    decreases |args| - i
  {
    if i >= |args| then [TrimLine(current)]
    else if IsQuote(args[i]) && (quote == '\0' || quote == args[i]) then
      PartsFrom(args, i + 1, if quote == args[i] then '\0' else args[i], current + [args[i]], max)
    else if args[i] == ',' && quote == '\0' && max > 1 then
      [TrimLine(current)] + PartsFrom(args, i + 1, quote, [], max - 1)
    else PartsFrom(args, i + 1, quote, current + [args[i]], max)
  }

  /** The bytes FILLMEM writes and where, or None when an argument is bad. */
  function FillPatch(args: string, ctx: Context, labels: seq<Label>): Option<Patch> {
    var parts := Parts(args, 3);
    if |parts| != 3 then None
    else
      var size := Stoull(TrimLine(parts[1]), 0);
      var value := Stoull(TrimLine(parts[2]), 16);
      var target := ResolveAddress(parts[0], ctx, labels);
      if size.None? || value.None? || target == 0 || size.value.value == 0 || value.value.value > 0xff ||
         size.value.value > MAX_BUFFER then None
      else Some(Patch(target, seq(size.value.value, i => value.value.value)))
  }

  function Put(e: Emission, bytes: seq<int>): Emission
    requires e.Emission?
  {
    if bytes == [] then e
    else Emission(Wrap(e.address + |bytes|), e.labels, e.patches + [Patch(e.address, bytes)])
  }

  function PutOr(e: Emission, bytes: Option<seq<int>>): Emission
    requires e.Emission?
  {
    if bytes.None? then Stopped else Put(e, bytes.value)
  }

  /** READMEM copies only when its source resolves and its size is not zero. */
  function EmitReadMem(args: string, e: Emission, ctx: Context, world: World): Emission
    requires e.Emission?
  {
    if AfterComma(args).None? then e
    else
      var size := ParseWhole(AfterComma(args).value, 0);
      var source := ResolveAddress(BeforeComma(args), ctx, e.labels);
      if size.None? || size.value > MAX_BUFFER then Stopped
      else if source == 0 || size.value == 0 then e
      else if |world.memory| < size.value then Stopped
      else Put(e, world.memory[..size.value])
  }

  function EmitDefinition(name: string, e: Emission, ctx: Context): Emission
    requires e.Emission?
  {
    var k := LabelIndex(e.labels, name);
    var target := ResolveAddress(name, ctx, e.labels);
    if FindAlloc(ctx.allocs, name).Some? then e.(address := FindAlloc(ctx.allocs, name).value)
    else if k < |e.labels| then
      if e.address == 0 then Stopped else e.(labels := Bind(e.labels, k, e.address))
    else if target == 0 then Stopped
    else e.(address := target)
  }

  function Bytes(text: string): (bytes: seq<int>)
    ensures |bytes| == |text|
  {
    seq(|text|, i requires 0 <= i < |text| => text[i] as int)
  }

  function EmitCode(line: Line, e: Emission, ctx: Context, world: World): Emission
    requires e.Emission? && IsCode(line)
  {
    match line
    case ReadMem(args) => EmitReadMem(args, e, ctx, world)
    case FillMem(args) =>
      var patch := FillPatch(args, ctx, e.labels);
      if patch.None? then Stopped else e.(patches := e.patches + [patch.value])
    case Nop(count) =>
      if NopCount(count).None? then Stopped else Put(e, seq(NopCount(count).value, i => 0x90))
    case Ds(text) => if text == [] then Stopped else Put(e, Bytes(text))
    case Data(op, values) => PutOr(e, ctx.data(op, Substitute(values, ctx, e.labels)))
    case Instruction(text) => PutOr(e, ctx.assemble(Substitute(text, ctx, e.labels), e.address))
  }

  /** A file is written where its first argument says, wherever the script is. */
  function EmitFile(args: string, e: Emission, ctx: Context, world: World): Emission
    requires e.Emission?
  {
    var parts := Parts(args, 2);
    if |parts| != 2 then Stopped
    else
      var target := ResolveAddress(TrimLine(parts[0]), ctx, e.labels);
      if target == 0 || world.file == [] then Stopped
      else e.(patches := e.patches + [Patch(target, world.file)])
  }

  /** One line of emission. A script that stops writes nothing more. */
  function EmitLine(line: Line, e: Emission, ctx: Context, world: World): Emission
    requires e.Emission? && !line.Reassemble? && !line.Unregister?
  {
    if line.Definition? then EmitDefinition(line.name, e, ctx)
    else if world.refuses || (IsCode(line) && e.address == 0) then Stopped
    else if IsCode(line) then EmitCode(line, e, ctx, world)
    else if line.LoadBinary? then EmitFile(line.args, e, ctx, world)
    else e
  }

  /** Emission before line `n`. */
  function EmitTo(lines: seq<string>, worlds: seq<World>, n: nat, ctx: Context, labels: seq<Label>): Emission
    requires n <= |lines| == |worlds| && Ordinary(lines)
  {
    if n == 0 then Emission(0, labels, [])
    else
      var e := EmitTo(lines, worlds, n - 1, ctx, labels);
      if e.Stopped? then e else EmitLine(Classify(lines[n - 1]), e, ctx, worlds[n - 1])
  }
}
