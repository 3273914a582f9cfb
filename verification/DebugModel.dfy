/** The all-stop debugger as a transition system over values.

    A `Tracee` is the target as ptrace exposes it: its text, its shared data and its threads. A
    `Session` adds the bookkeeping fields of a debug session. Every operation of the tracer thread
    is a function from session to session; the class in DebugSession.dfy computes the same
    functions by updating its fields in place. */
module DebugModel {
  import ByteSeqs

  type Address = nat
  type Tid = nat
  type Byte = ByteSeqs.Byte

  const INT3: Byte := 0xCC
  const ADDRESS_SPACE: nat := 0x1_0000_0000_0000_0000
  const WORD_BYTES: nat := 8

  /** `rip - 1` and `rip + 1` on a 64-bit unsigned register. */
  function Prev(a: Address): Address {
    if a == 0 then ADDRESS_SPACE - 1 else a - 1
  }

  function Next(a: Address): Address {
    if a == ADDRESS_SPACE - 1 then 0 else a + 1
  }

  type Memory = map<Address, Byte>

  /** A program under test: its text, the length of the instruction at each address, the effect of
      one instruction (on whatever bytes the text holds at that moment), and the addresses at which
      its instructions start. */
  datatype Program<!D, !R> = Program(
    code: Memory,
    length: Address -> nat,
    cpu: (Memory, D, R, Address) -> (D, R, Address),
    starts: set<Address>)

  /** Free to run, trapped on an int3 that the tracer has not collected yet, or held by the tracer. */
  datatype RunState = Running | Trapped | Frozen

  datatype Thread<R> = Thread(rip: Address, regs: R, run: RunState)

  /** One executed instruction. */
  datatype Retired = Retired(tid: Tid, at: Address)

  datatype SoftBp = SoftBp(id: int, address: Address, originalByte: Byte, active: bool)

  type Breakpoints = map<Address, SoftBp>

  /** A moment at which the target may execute: the text, the armed set, and who may run. */
  datatype Exposure = Exposure(mem: Memory, bps: Breakpoints, runnable: set<Tid>)

  /** `retired` and `exposures` are the history of the target, oldest first. */
  datatype Tracee<D, R> = Tracee(
    mem: Memory,
    data: D,
    threads: map<Tid, Thread<R>>,
    retired: seq<Retired>,
    exposures: seq<Exposure>)

  datatype Session<D, R> = Session(
    tracee: Tracee<D, R>,
    traced: seq<Tid>,
    stoppedTids: set<Tid>,
    bps: Breakpoints,
    nextId: int,
    active: Tid,
    stopped: bool,
    attached: bool)

  // ----- ptrace requests -----

  /** PEEKTEXT and POKETEXT move a whole word, so every byte of it must be mapped. */
  predicate WordMapped(mem: Memory, a: Address) {
    forall b :: a <= b < a + WORD_BYTES ==> b in mem
  }

  function Poke(mem: Memory, a: Address, v: Byte): Memory {
    if WordMapped(mem, a) then mem[a := v] else mem
  }

  function Armed(bps: Breakpoints, a: Address): bool {
    a in bps && bps[a].active
  }

  function RunningTids<R>(threads: map<Tid, Thread<R>>): set<Tid> {
    set t | t in threads && threads[t].run.Running?
  }

  /** The effect of letting thread `t` execute once: an int3 at its rip traps one byte past it,
      anything else executes and is recorded. */
  function Execute<D, R>(p: Program<D, R>, w: Tracee<D, R>, t: Tid, trapped: RunState): Tracee<D, R>
    requires t in w.threads
  {
    var th := w.threads[t];
    if th.rip in w.mem && w.mem[th.rip] == INT3 then
      w.(threads := w.threads[t := th.(rip := Next(th.rip), run := trapped)])
    else
      var (d, r, a) := p.cpu(w.mem, w.data, th.regs, th.rip);
      w.(data := d,
         threads := w.threads[t := th.(rip := a, regs := r)],
         retired := w.retired + [Retired(t, th.rip)])
  }

  function Expose<D, R>(w: Tracee<D, R>, bps: Breakpoints, extra: set<Tid>): Tracee<D, R> {
    w.(exposures := w.exposures + [Exposure(w.mem, bps, RunningTids(w.threads) + extra)])
  }

  /** PTRACE_SINGLESTEP on a held thread, then the wait for it: it executes once and is held again. */
  function SingleStep<D, R>(p: Program<D, R>, w: Tracee<D, R>, bps: Breakpoints, t: Tid): Tracee<D, R> {
    if t in w.threads then Execute(p, Expose(w, bps, {t}), t, Frozen) else w
  }

  /** PTRACE_CONT on one held thread while the rest stay held, then the wait for it. It executes
      until it traps, or until something else stops it after `n` instructions. */
  function RunAlone<D, R>(p: Program<D, R>, w: Tracee<D, R>, bps: Breakpoints, t: Tid, n: nat): (r: Tracee<D, R>)
    ensures r.threads.Keys == w.threads.Keys && r.mem == w.mem
    decreases n
  {
    if t !in w.threads then w else
    var th := w.threads[t];
    if th.rip in w.mem && w.mem[th.rip] == INT3 then
      Execute(p, Expose(w, bps, {t}), t, Frozen)
    else if n == 0 then w
    else RunAlone(p, Execute(p, Expose(w, bps, {t}), t, Frozen), bps, t, n - 1)
  }

  function SetRun<D, R>(w: Tracee<D, R>, t: Tid, run: RunState): Tracee<D, R> {
    if t in w.threads then w.(threads := w.threads[t := w.threads[t].(run := run)]) else w
  }

  function SetRip<D, R>(w: Tracee<D, R>, t: Tid, a: Address): Tracee<D, R> {
    if t in w.threads then w.(threads := w.threads[t := w.threads[t].(rip := a)]) else w
  }

  // ----- breakpoint commands -----

  function SetSoftBp<D, R>(s: Session<D, R>, a: Address): (Session<D, R>, int) {
    if a in s.bps then (s, s.bps[a].id)
    else if !WordMapped(s.tracee.mem, a) then (s, -1)
    else
      assert a in s.tracee.mem;
      (s.(tracee := s.tracee.(mem := Poke(s.tracee.mem, a, INT3)),
          bps := s.bps[a := SoftBp(s.nextId, a, s.tracee.mem[a], true)],
          nextId := s.nextId + 1),
       s.nextId)
  }

  /** The bookkeeping and text once the breakpoint held at `a` is gone. */
  function DropBp<D, R>(s: Session<D, R>, a: Address): Session<D, R>
    requires a in s.bps
  {
    s.(tracee := if s.bps[a].active
                 then s.tracee.(mem := Poke(s.tracee.mem, a, s.bps[a].originalByte))
                 else s.tracee,
       bps := s.bps - {a})
  }

  ghost predicate HeldAt(bps: Breakpoints, id: int, a: Address) {
    a in bps && bps[a].id == id
  }

  ghost function RemoveSoftBp<D, R>(s: Session<D, R>, id: int): Session<D, R> {
    if exists a :: HeldAt(s.bps, id, a) then
      var a :| HeldAt(s.bps, id, a);
      DropBp(s, a)
    else s
  }

  // ----- all-stop -----

  /** Interrupt one running or trapped thread and hold it, rewinding it when the byte behind its rip
      is an armed int3. */
  function FreezeOne<D, R>(s: Session<D, R>, t: Tid): Session<D, R> {
    if t in s.stoppedTids || t !in s.tracee.threads then s else
    var rip := s.tracee.threads[t].rip;
    var w := SetRun(s.tracee, t, Frozen);
    s.(tracee := if Armed(s.bps, Prev(rip)) then SetRip(w, t, Prev(rip)) else w,
       stoppedTids := s.stoppedTids + {t})
  }

  function StopOthers<D, R>(s: Session<D, R>, ts: seq<Tid>, active: Tid): Session<D, R>
    decreases |ts|
  {
    if ts == [] then s
    else if ts[0] == active then StopOthers(s, ts[1..], active)
    else StopOthers(FreezeOne(s, ts[0]), ts[1..], active)
  }

  /** Hold `t`, then everyone else. */
  function AllStop<D, R>(s: Session<D, R>, t: Tid): Session<D, R> {
    var s1 := s.(active := t, stoppedTids := s.stoppedTids + {t},
                 tracee := SetRun(s.tracee, t, Frozen));
    StopOthers(s1, s1.traced, t).(stopped := true)
  }

  predicate AtBp<D, R>(s: Session<D, R>, t: Tid) {
    t in s.tracee.threads && Armed(s.bps, s.tracee.threads[t].rip)
  }

  /** Lift, single-step, re-arm; nothing when `t` is not on an armed int3. */
  function StepOverBp<D, R>(p: Program<D, R>, s: Session<D, R>, t: Tid): Session<D, R> {
    if !AtBp(s, t) then s else
    var a := s.tracee.threads[t].rip;
    var lifted := s.tracee.(mem := Poke(s.tracee.mem, a, s.bps[a].originalByte));
    var stepped := SingleStep(p, lifted, s.bps, t);
    s.(tracee := stepped.(mem := Poke(stepped.mem, a, INT3)))
  }

  function StepAllOverBp<D, R>(p: Program<D, R>, s: Session<D, R>, ts: seq<Tid>): Session<D, R>
    decreases |ts|
  {
    if ts == [] then s else StepAllOverBp(p, StepOverBp(p, s, ts[0]), ts[1..])
  }

  function ContAll<D, R>(w: Tracee<D, R>, ts: seq<Tid>): Tracee<D, R>
    decreases |ts|
  {
    if ts == [] then w else ContAll(SetRun(w, ts[0], Running), ts[1..])
  }

  function ResumeAll<D, R>(p: Program<D, R>, s: Session<D, R>): Session<D, R> {
    var s1 := StepAllOverBp(p, s, s.traced);
    s1.(tracee := ContAll(s1.tracee, s.traced), stoppedTids := {})
  }

  function Continue<D, R>(p: Program<D, R>, s: Session<D, R>): Session<D, R> {
    if !s.stopped then s else ResumeAll(p, s).(stopped := false)
  }

  // ----- events of the running target -----

  /** Thread `t` executes once while the tracer is not looking. */
  function Advance<D, R>(p: Program<D, R>, s: Session<D, R>, t: Tid): Session<D, R> {
    if t in s.tracee.threads && s.tracee.threads[t].run.Running?
    then s.(tracee := Execute(p, Expose(s.tracee, s.bps, {}), t, Trapped))
    else s
  }

  /** A SIGTRAP stop of `t` is collected: one of our int3s stops the world, anything else resumes. */
  function HandleTrap<D, R>(s: Session<D, R>, t: Tid): Session<D, R> {
    if t !in s.tracee.threads then s else
    var bp := Prev(s.tracee.threads[t].rip);
    if Armed(s.bps, bp) then AllStop(s.(tracee := SetRip(s.tracee, t, bp)), t)
    else s.(tracee := SetRun(s.tracee, t, Running))
  }

  /** Any other signal stop: break on it or deliver it and resume. */
  function HandleSignal<D, R>(s: Session<D, R>, t: Tid, breakOn: bool): Session<D, R> {
    if t !in s.tracee.threads then s
    else if breakOn then AllStop(s, t)
    else s.(tracee := SetRun(s.tracee, t, Running))
  }

  // ----- stepping -----

  /** Step Into, and Step Over on anything that is not a call. */
  function StepInto<D, R>(p: Program<D, R>, s: Session<D, R>): Session<D, R> {
    if !s.stopped then s
    else if AtBp(s, s.active) then StepOverBp(p, s, s.active)
    else s.(tracee := SingleStep(p, s.tracee, s.bps, s.active))
  }

  /** Plant a temporary int3 at `target`, run the active thread alone, and take it out again: the
      common part of Step Over on a call, Step Out and RunToCursor. */
  function StepTo<D, R>(p: Program<D, R>, s: Session<D, R>, target: Address, n: nat): Session<D, R>
    requires s.active in s.tracee.threads
  {
    var rip := s.tracee.threads[s.active].rip;
    var lifted := if Armed(s.bps, rip) then Poke(s.tracee.mem, rip, s.bps[rip].originalByte) else s.tracee.mem;
    var create := !Armed(s.bps, target) && WordMapped(lifted, target);
    assert create ==> target in lifted;
    var planted := if create then Poke(lifted, target, INT3) else lifted;
    var ran := RunAlone(p, s.tracee.(mem := planted), s.bps, s.active, n);
    var rewound := if ran.threads[s.active].rip == Next(target) then SetRip(ran, s.active, target) else ran;
    var cleared := if create then Poke(rewound.mem, target, lifted[target]) else rewound.mem;
    var rearmed := if Armed(s.bps, rip) then Poke(cleared, rip, INT3) else cleared;
    s.(tracee := rewound.(mem := rearmed))
  }

  /** What a step command asks for; the decoded call, the return address read from the stack and
      the moment the thread stops are inputs. */
  datatype StepRequest =
    | Into
    | Over(isCall: bool, size: nat, n: nat)
    | Out(retAddr: Address, n: nat)
    | RunToCursor(target: Address, n: nat)

  function Step<D, R>(p: Program<D, R>, s: Session<D, R>, req: StepRequest): Session<D, R> {
    if !s.stopped || s.active !in s.tracee.threads then s else
    match req
    case Into => StepInto(p, s)
    case Over(isCall, size, n) =>
      if isCall then StepTo(p, s, (s.tracee.threads[s.active].rip + size) % ADDRESS_SPACE, n) else StepInto(p, s)
    case Out(retAddr, n) => if retAddr != 0 then StepTo(p, s, retAddr, n) else s
    case RunToCursor(target, n) => if target != 0 then StepTo(p, s, target, n) else s
  }

  function SelectThread<D, R>(s: Session<D, R>, t: Tid): Session<D, R> {
    if t in s.stoppedTids then s.(active := t) else s
  }

  // ----- detach -----

  /** The text with the saved byte back at every active breakpoint. */
  function Restored(mem: Memory, bps: Breakpoints): Memory {
    map a | a in mem :: if Armed(bps, a) && WordMapped(mem, a) then bps[a].originalByte else mem[a]
  }

  function HoldAll<D, R>(w: Tracee<D, R>, ts: seq<Tid>, skip: set<Tid>): Tracee<D, R>
    decreases |ts|
  {
    if ts == [] then w
    else HoldAll(if ts[0] in skip then w else SetRun(w, ts[0], Frozen), ts[1..], skip)
  }

  /** Hold everyone (without rewinding anyone), restore the text, let go of every thread. */
  function Cleanup<D, R>(s: Session<D, R>): Session<D, R> {
    var held := HoldAll(s.tracee, s.traced, s.stoppedTids);
    var restored := held.(mem := Restored(held.mem, s.bps));
    s.(tracee := ContAll(restored, s.traced), bps := map[], traced := [], stoppedTids := {},
       stopped := false, attached := false)
  }
}
