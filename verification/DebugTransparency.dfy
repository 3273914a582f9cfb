/** What the debugger promises about the program it traces: its breakpoints are an exact overlay on
    the text, a lifted byte is never exposed to two threads, and the instructions the threads execute
    are a run of the program without a debugger. */
module DebugTransparency {
  import opened DebugModel

  // ----- the program without a debugger -----

  datatype Core<R> = Core(regs: R, pc: Address)

  datatype Original<D, R> = Original(data: D, threads: map<Tid, Core<R>>)

  ghost predicate AgreeOn(m: Memory, n: Memory, a: Address, len: nat) {
    forall b :: a <= b < a + len ==> b in m && b in n && m[b] == n[b]
  }

  /** What is asked of a program: its instructions start at mapped addresses, none of them is an int3
      of its own, each leads to another, and its effect depends on its own bytes only. */
  ghost predicate WellFormed<D(!new), R(!new)>(p: Program<D, R>) {
    && (forall a :: a in p.starts ==>
          a < ADDRESS_SPACE && p.length(a) >= 1 && AgreeOn(p.code, p.code, a, p.length(a)) && p.code[a] != INT3)
    && (forall d, r, a :: a in p.starts ==> p.cpu(p.code, d, r, a).2 in p.starts)
    && (forall m, d, r, a :: a in p.starts && AgreeOn(m, p.code, a, p.length(a)) ==>
          p.cpu(m, d, r, a) == p.cpu(p.code, d, r, a))
  }

  /** An address where a breakpoint cannot be confused with the program: no instruction starts one
      byte after it and it does not cut an instruction in two. */
  ghost predicate Safe<D, R>(p: Program<D, R>, a: Address) {
    Next(a) !in p.starts && forall i :: i in p.starts ==> !(i < a < i + p.length(i))
  }

  function StepOriginal<D, R>(p: Program<D, R>, o: Original<D, R>, t: Tid): Original<D, R> {
    if t !in o.threads then o else
    var (d, r, a) := p.cpu(p.code, o.data, o.threads[t].regs, o.threads[t].pc);
    Original(d, o.threads[t := Core(r, a)])
  }

  /** Let the program run alone through the schedule of a history. */
  function Replay<D, R>(p: Program<D, R>, o: Original<D, R>, tr: seq<Retired>): Original<D, R>
    decreases |tr|
  {
    if tr == [] then o else StepOriginal(p, Replay(p, o, tr[..|tr| - 1]), tr[|tr| - 1].tid)
  }

  /** Every entry of the history is what the undebugged program executes next in that thread. */
  ghost predicate Faithful<D, R>(p: Program<D, R>, o: Original<D, R>, tr: seq<Retired>)
    decreases |tr|
  {
    tr == [] ||
    var before := tr[..|tr| - 1];
    var last := tr[|tr| - 1];
    && Faithful(p, o, before)
    && last.tid in Replay(p, o, before).threads
    && Replay(p, o, before).threads[last.tid].pc == last.at
  }

  /** The undebugged state a debugged one stands for: a trapped thread still has to execute the
      instruction under its int3. */
  function Pc<R>(th: Thread<R>): Address {
    if th.run.Trapped? then Prev(th.rip) else th.rip
  }

  function View<D, R>(w: Tracee<D, R>): Original<D, R> {
    Original(w.data, map t | t in w.threads :: Core(w.threads[t].regs, Pc(w.threads[t])))
  }

  ghost predicate Tracks<D, R>(p: Program<D, R>, o: Original<D, R>, w: Tracee<D, R>) {
    Faithful(p, o, w.retired) && Replay(p, o, w.retired) == View(w)
  }

  // ----- invariants -----

  function Patched(code: Memory, bps: Breakpoints): Memory {
    map a | a in code :: if Armed(bps, a) then INT3 else code[a]
  }

  ghost predicate Saved(code: Memory, bps: Breakpoints) {
    forall a :: a in bps ==>
      && WordMapped(code, a) && a in code
      && bps[a].active && bps[a].address == a && bps[a].originalByte == code[a]
  }

  /** The text is the original with 0xCC exactly at the active breakpoints, and every saved byte is
      the original. */
  ghost predicate Overlay(code: Memory, mem: Memory, bps: Breakpoints) {
    mem == Patched(code, bps) && Saved(code, bps)
  }

  ghost predicate ExposureOk(code: Memory, e: Exposure) {
    e.mem == Patched(code, e.bps) || |e.runnable| <= 1
  }

  /** At no moment of the history could two threads run over a text that was not the exact overlay. */
  ghost predicate Guarded(code: Memory, es: seq<Exposure>) {
    forall i :: 0 <= i < |es| ==> ExposureOk(code, es[i])
  }

  ghost predicate AllSafe<D, R>(p: Program<D, R>, bps: Breakpoints) {
    forall a :: a in bps ==> Safe(p, a)
  }

  ghost predicate ThreadOk<R>(starts: set<Address>, bps: Breakpoints, th: Thread<R>) {
    && Pc(th) in starts
    && (th.run.Trapped? ==> Armed(bps, Prev(th.rip)))
  }

  ghost predicate ThreadsOk<R>(starts: set<Address>, bps: Breakpoints, threads: map<Tid, Thread<R>>, held: set<Tid>) {
    && held <= threads.Keys
    && forall t :: t in threads ==>
         ThreadOk(starts, bps, threads[t]) && (threads[t].run.Frozen? <==> t in held)
  }

  ghost predicate Base<D, R>(p: Program<D, R>, s: Session<D, R>) {
    && Overlay(p.code, s.tracee.mem, s.bps)
    && Guarded(p.code, s.tracee.exposures)
    && AllSafe(p, s.bps)
    && s.tracee.threads.Keys == (set t | t in s.traced)
    && ThreadsOk(p.starts, s.bps, s.tracee.threads, s.stoppedTids)
  }

  ghost predicate Good<D, R>(p: Program<D, R>, s: Session<D, R>) {
    && Base(p, s)
    && s.stoppedTids == (if s.stopped then s.tracee.threads.Keys else {})
    && s.active in s.tracee.threads
  }

  // ----- one instruction -----

  lemma ReplayOne<D, R>(p: Program<D, R>, o: Original<D, R>, tr: seq<Retired>, x: Retired)
    ensures Replay(p, o, tr + [x]) == StepOriginal(p, Replay(p, o, tr), x.tid)
    ensures Faithful(p, o, tr + [x]) <==>
              Faithful(p, o, tr) && x.tid in Replay(p, o, tr).threads && Replay(p, o, tr).threads[x.tid].pc == x.at
  {
    assert (tr + [x])[..|tr|] == tr;
  }

  /** An instruction executed on intact bytes is the next instruction of the undebugged program. */
  lemma ExecuteIntact<D(!new), R(!new)>(p: Program<D, R>, o: Original<D, R>, w: Tracee<D, R>, t: Tid, k: RunState)
    requires WellFormed(p) && Tracks(p, o, w)
    requires t in w.threads && !w.threads[t].run.Trapped? && w.threads[t].rip in p.starts
    requires AgreeOn(w.mem, p.code, w.threads[t].rip, p.length(w.threads[t].rip))
    ensures var w' := Execute(p, w, t, k);
      && Tracks(p, o, w') && w'.mem == w.mem && w'.exposures == w.exposures
      && t in w'.threads && w'.threads == w.threads[t := w'.threads[t]]
      && w'.threads[t].run == w.threads[t].run && w'.threads[t].rip in p.starts
  {
    var th := w.threads[t];
    var (d, r, a) := p.cpu(w.mem, w.data, th.regs, th.rip);
    assert (d, r, a) == p.cpu(p.code, w.data, th.regs, th.rip);
    ReplayOne(p, o, w.retired, Retired(t, th.rip));
    assert View(Execute(p, w, t, k)) == StepOriginal(p, View(w), t);
  }

  /** Bytes of an instruction no breakpoint sits on. */
  lemma IntactUnderOverlay<D(!new), R(!new)>(p: Program<D, R>, s: Session<D, R>, a: Address, m: Memory)
    requires WellFormed(p) && Overlay(p.code, s.tracee.mem, s.bps) && AllSafe(p, s.bps) && a in p.starts
    requires m.Keys == p.code.Keys && m[a] == p.code[a] && forall b :: b in m && b != a ==> m[b] == s.tracee.mem[b]
    ensures AgreeOn(m, p.code, a, p.length(a))
  {
    forall b | a <= b < a + p.length(a) ensures b in m && b in p.code && m[b] == p.code[b] {
      assert AgreeOn(p.code, p.code, a, p.length(a));
      assert b in s.bps ==> Safe(p, b);
    }
  }

  lemma ViewSame<D, R>(w: Tracee<D, R>, w': Tracee<D, R>)
    requires w'.data == w.data && w'.threads.Keys == w.threads.Keys
    requires forall t :: t in w.threads ==>
               w'.threads[t].regs == w.threads[t].regs && Pc(w'.threads[t]) == Pc(w.threads[t])
    ensures View(w') == View(w)
  {
  }

  lemma TracksSameView<D, R>(p: Program<D, R>, o: Original<D, R>, w: Tracee<D, R>, w': Tracee<D, R>)
    requires Tracks(p, o, w) && w'.retired == w.retired && View(w') == View(w)
    ensures Tracks(p, o, w')
  {
  }

  lemma HoldOne<R>(starts: set<Address>, bps: Breakpoints, threads: map<Tid, Thread<R>>, held: set<Tid>, t: Tid, th: Thread<R>)
    requires ThreadsOk(starts, bps, threads, held) && t in threads && ThreadOk(starts, bps, th) && th.run.Frozen?
    ensures ThreadsOk(starts, bps, threads[t := th], held + {t})
  {
    forall u | u in threads ensures ThreadOk(starts, bps, threads[u]) && (threads[u].run.Frozen? <==> u in held) {
    }
  }

  lemma TrapOne<R>(starts: set<Address>, bps: Breakpoints, threads: map<Tid, Thread<R>>, held: set<Tid>, t: Tid, th: Thread<R>)
    requires ThreadsOk(starts, bps, threads, held) && t in threads && t !in held
    requires ThreadOk(starts, bps, th) && !th.run.Frozen?
    ensures ThreadsOk(starts, bps, threads[t := th], held)
  {
    forall u | u in threads ensures ThreadOk(starts, bps, threads[u]) && (threads[u].run.Frozen? <==> u in held) {
    }
  }

  // ----- operations on a stopped target -----

  lemma GuardedOne(code: Memory, es: seq<Exposure>, e: Exposure)
    requires Guarded(code, es) && ExposureOk(code, e)
    ensures Guarded(code, es + [e])
  {
  }

  /** Fields an operation on the stopped target leaves alone. */
  ghost predicate SameBook<D, R>(s: Session<D, R>, s': Session<D, R>) {
    && s'.bps == s.bps && s'.traced == s.traced && s'.stoppedTids == s.stoppedTids && s'.active == s.active
    && s'.stopped == s.stopped && s'.nextId == s.nextId && s'.attached == s.attached
    && s'.tracee.threads.Keys == s.tracee.threads.Keys
  }

  /** A held thread over intact bytes: stepping it runs one instruction of the program. */
  lemma SingleStepGood<D(!new), R(!new)>(
      p: Program<D, R>, o: Original<D, R>, w: Tracee<D, R>, bps: Breakpoints, t: Tid, held: set<Tid>)
    requires WellFormed(p) && Tracks(p, o, w) && ThreadsOk(p.starts, bps, w.threads, held)
    requires held == w.threads.Keys && t in held && Guarded(p.code, w.exposures)
    requires AgreeOn(w.mem, p.code, w.threads[t].rip, p.length(w.threads[t].rip))
    ensures var w' := SingleStep(p, w, bps, t);
      && Tracks(p, o, w') && ThreadsOk(p.starts, bps, w'.threads, held) && Guarded(p.code, w'.exposures)
      && w'.mem == w.mem && w'.threads.Keys == w.threads.Keys
  {
    assert ThreadOk(p.starts, bps, w.threads[t]);
    var seen := Expose(w, bps, {t});
    assert RunningTids(w.threads) + {t} == {t};
    GuardedOne(p.code, w.exposures, Exposure(w.mem, bps, {t}));
    hide WellFormed, Tracks, AgreeOn, View, Guarded;
    ViewSame(w, seen);
    TracksSameView(p, o, w, seen);
    ExecuteIntact(p, o, seen, t, Frozen);
    hide Execute;
    var th := Execute(p, seen, t, Frozen).threads[t];
    assert ThreadOk(p.starts, bps, th);
    HoldOne(p.starts, bps, w.threads, held, t, th);
    assert held + {t} == held;
  }

  /** Lift, step and re-arm: the text comes back, one instruction of the program has run, and the
      lifted byte was exposed to `t` alone. */
  lemma StepOverBpGood<D(!new), R(!new)>(p: Program<D, R>, o: Original<D, R>, s: Session<D, R>, t: Tid)
    requires WellFormed(p) && Base(p, s) && s.stoppedTids == s.tracee.threads.Keys && Tracks(p, o, s.tracee)
    ensures var s' := StepOverBp(p, s, t);
      Base(p, s') && Tracks(p, o, s'.tracee) && SameBook(s, s')
  {
    hide WellFormed, AllSafe, Guarded, Tracks, View, Execute;
    if AtBp(s, t) {
      var a := s.tracee.threads[t].rip;
      var lifted := s.tracee.(mem := Poke(s.tracee.mem, a, s.bps[a].originalByte));
      assert lifted.mem == s.tracee.mem[a := p.code[a]];
      assert ThreadOk(p.starts, s.bps, s.tracee.threads[t]);
      ViewSame(s.tracee, lifted);
      TracksSameView(p, o, s.tracee, lifted);
      assert AgreeOn(lifted.mem, p.code, a, p.length(a)) by { IntactUnderOverlay(p, s, a, lifted.mem); }
      SingleStepGood(p, o, lifted, s.bps, t, s.stoppedTids);
      var stepped := SingleStep(p, lifted, s.bps, t);
      var s' := StepOverBp(p, s, t);
      assert s'.tracee.mem == s.tracee.mem;
      ViewSame(stepped, s'.tracee);
      TracksSameView(p, o, stepped, s'.tracee);
    }
  }

  lemma StepIntoGood<D(!new), R(!new)>(p: Program<D, R>, o: Original<D, R>, s: Session<D, R>)
    requires WellFormed(p) && Good(p, s) && Tracks(p, o, s.tracee)
    ensures var s' := StepInto(p, s); Good(p, s') && Tracks(p, o, s'.tracee) && SameBook(s, s')
  {
    hide WellFormed, AllSafe, Guarded, Tracks;
    if s.stopped {
      var t := s.active;
      if AtBp(s, t) {
        StepOverBpGood(p, o, s, t);
      } else {
        var a := s.tracee.threads[t].rip;
        assert ThreadOk(p.starts, s.bps, s.tracee.threads[t]);
        StartMapped(p, a);
        IntactUnderOverlay(p, s, a, s.tracee.mem);
        SingleStepGood(p, o, s.tracee, s.bps, t, s.stoppedTids);
      }
    }
  }

  lemma StartMapped<D(!new), R(!new)>(p: Program<D, R>, a: Address)
    requires WellFormed(p) && a in p.starts
    ensures a in p.code
  {
    assert AgreeOn(p.code, p.code, a, p.length(a));
  }

  lemma StepAllGood<D(!new), R(!new)>(p: Program<D, R>, o: Original<D, R>, s: Session<D, R>, ts: seq<Tid>)
    requires WellFormed(p) && Base(p, s) && s.stoppedTids == s.tracee.threads.Keys && Tracks(p, o, s.tracee)
    ensures var s' := StepAllOverBp(p, s, ts);
      Base(p, s') && Tracks(p, o, s'.tracee) && SameBook(s, s')
    decreases |ts|
  {
    hide WellFormed, Base, Tracks, StepOverBp;
    if ts != [] {
      StepOverBpGood(p, o, s, ts[0]);
      StepAllGood(p, o, StepOverBp(p, s, ts[0]), ts[1..]);
    }
  }

  lemma ContAllEffect<D, R>(w: Tracee<D, R>, ts: seq<Tid>)
    ensures var w' := ContAll(w, ts);
      && w' == w.(threads := w'.threads) && w'.threads.Keys == w.threads.Keys
      && forall t :: t in w.threads ==>
           w'.threads[t] == if t in ts then w.threads[t].(run := Running) else w.threads[t]
    decreases |ts|
  {
    if ts != [] {
      ContAllEffect(SetRun(w, ts[0], Running), ts[1..]);
    }
  }

  lemma ContinueGood<D(!new), R(!new)>(p: Program<D, R>, o: Original<D, R>, s: Session<D, R>)
    requires WellFormed(p) && Good(p, s) && Tracks(p, o, s.tracee)
    ensures var s' := Continue(p, s); Good(p, s') && Tracks(p, o, s'.tracee) && s'.bps == s.bps && !s'.stopped
  {
    hide WellFormed, AllSafe, Guarded, Overlay, StepAllOverBp, ContAll, Tracks;
    if s.stopped {
      StepAllGood(p, o, s, s.traced);
      var s1 := StepAllOverBp(p, s, s.traced);
      var w := ContAll(s1.tracee, s.traced);
      ContAllEffect(s1.tracee, s.traced);
      forall t | t in s1.tracee.threads
        ensures ThreadOk(p.starts, s.bps, w.threads[t]) && w.threads[t].run.Running?
        ensures w.threads[t].regs == s1.tracee.threads[t].regs && Pc(w.threads[t]) == Pc(s1.tracee.threads[t])
      {
        assert ThreadOk(p.starts, s.bps, s1.tracee.threads[t]) && s1.tracee.threads[t].run.Frozen?;
      }
      ViewSame(s1.tracee, w);
      TracksSameView(p, o, s1.tracee, w);
    }
  }

  /** A thread that is not trapped does not mind which breakpoints are set. */
  lemma HeldThreadsOk<R>(starts: set<Address>, bps: Breakpoints, bps': Breakpoints, threads: map<Tid, Thread<R>>)
    requires ThreadsOk(starts, bps, threads, threads.Keys)
    ensures ThreadsOk(starts, bps', threads, threads.Keys)
  {
    forall t | t in threads ensures ThreadOk(starts, bps', threads[t]) {
      assert ThreadOk(starts, bps, threads[t]) && threads[t].run.Frozen?;
    }
  }

  lemma SetSoftBpGood<D(!new), R(!new)>(p: Program<D, R>, o: Original<D, R>, s: Session<D, R>, a: Address)
    requires Good(p, s) && Tracks(p, o, s.tracee) && s.stopped && Safe(p, a)
    ensures var s' := SetSoftBp(s, a).0; Good(p, s') && Tracks(p, o, s'.tracee) && s'.stopped
  {
    hide Guarded, ThreadsOk, Safe;
    var s' := SetSoftBp(s, a).0;
    if a !in s.bps && WordMapped(s.tracee.mem, a) {
      assert s'.tracee.mem == Patched(p.code, s'.bps);
      HeldThreadsOk(p.starts, s.bps, s'.bps, s.tracee.threads);
      assert s.tracee.mem.Keys == p.code.Keys;
      assert WordMapped(p.code, a) by {
        forall b | a <= b < a + WORD_BYTES ensures b in p.code { assert b in s.tracee.mem; }
      }
      assert View(s'.tracee) == View(s.tracee);
    }
  }

  lemma RemoveSoftBpGood<D(!new), R(!new)>(p: Program<D, R>, o: Original<D, R>, s: Session<D, R>, id: int)
    requires Good(p, s) && Tracks(p, o, s.tracee) && s.stopped
    ensures var s' := RemoveSoftBp(s, id); Good(p, s') && Tracks(p, o, s'.tracee) && s'.stopped
  {
    hide Guarded, ThreadsOk, Safe;
    if exists a :: HeldAt(s.bps, id, a) {
      var a :| HeldAt(s.bps, id, a) && RemoveSoftBp(s, id) == DropBp(s, a);
      var s' := DropBp(s, a);
      assert s'.tracee.mem == Patched(p.code, s'.bps);
      HeldThreadsOk(p.starts, s.bps, s'.bps, s.tracee.threads);
      assert View(s'.tracee) == View(s.tracee);
    }
  }

  // ----- stopping the world -----

  /** A running thread is never mistaken for one that hit an int3. */
  lemma RunningIsNotBehind<D(!new), R(!new)>(p: Program<D, R>, bps: Breakpoints, rip: Address)
    requires WellFormed(p) && AllSafe(p, bps) && rip in p.starts
    ensures !Armed(bps, Prev(rip))
  {
    assert rip < ADDRESS_SPACE && Next(Prev(rip)) == rip;
    assert Prev(rip) in bps ==> Safe(p, Prev(rip));
  }

  lemma FreezeOneGood<D(!new), R(!new)>(p: Program<D, R>, o: Original<D, R>, s: Session<D, R>, t: Tid)
    requires WellFormed(p) && Base(p, s) && Tracks(p, o, s.tracee) && t in s.tracee.threads
    ensures var s' := FreezeOne(s, t);
      && Base(p, s') && Tracks(p, o, s'.tracee)
      && s'.stoppedTids == s.stoppedTids + {t} && SameBook(s, s'.(stoppedTids := s.stoppedTids))
  {
    hide WellFormed, AllSafe, Guarded, Overlay, Tracks;
    var s' := FreezeOne(s, t);
    if t !in s.stoppedTids {
      var th := s.tracee.threads[t];
      assert ThreadOk(p.starts, s.bps, th);
      if th.run.Running? {
        RunningIsNotBehind(p, s.bps, th.rip);
      }
      var th' := th.(rip := Pc(th), run := Frozen);
      assert s'.tracee.threads == s.tracee.threads[t := th'];
      HoldOne(p.starts, s.bps, s.tracee.threads, s.stoppedTids, t, th');
      hide ThreadsOk;
      ViewSame(s.tracee, s'.tracee);
      TracksSameView(p, o, s.tracee, s'.tracee);
    } else {
      assert s'.stoppedTids == s.stoppedTids + {t};
    }
  }

  lemma StopOthersGood<D(!new), R(!new)>(p: Program<D, R>, o: Original<D, R>, s: Session<D, R>, ts: seq<Tid>, act: Tid)
    requires WellFormed(p) && Base(p, s) && Tracks(p, o, s.tracee)
    requires act in s.stoppedTids && forall t :: t in ts ==> t in s.tracee.threads
    ensures var s' := StopOthers(s, ts, act);
      && Base(p, s') && Tracks(p, o, s'.tracee)
      && s'.stoppedTids == s.stoppedTids + (set t | t in ts) && SameBook(s, s'.(stoppedTids := s.stoppedTids))
    decreases |ts|
  {
    hide WellFormed, Base, Tracks, FreezeOne;
    if ts != [] {
      if ts[0] != act {
        FreezeOneGood(p, o, s, ts[0]);
        StopOthersGood(p, o, FreezeOne(s, ts[0]), ts[1..], act);
      } else {
        StopOthersGood(p, o, s, ts[1..], act);
      }
      assert (set t | t in ts) == {ts[0]} + (set t | t in ts[1..]);
    }
  }

  /** Stop the world around `t`, which is free to run or trapped: every thread is held at the
      instruction the undebugged program is about to execute. */
  lemma AllStopGood<D(!new), R(!new)>(p: Program<D, R>, o: Original<D, R>, s: Session<D, R>, t: Tid)
    requires WellFormed(p) && Base(p, s) && Tracks(p, o, s.tracee) && s.stoppedTids == {t}
    ensures var s' := StopOthers(s, s.traced, t);
      && Base(p, s') && Tracks(p, o, s'.tracee) && s'.stoppedTids == s'.tracee.threads.Keys
      && SameBook(s, s'.(stoppedTids := s.stoppedTids))
  {
    assert t in s.tracee.threads;
    hide WellFormed, Tracks, AllSafe, Guarded, Overlay;
    StopOthersGood(p, o, s, s.traced, t);
  }

  // ----- runs -----

  /** What can happen next: a thread executes, the kernel reports a stop, or a client's command is
      performed by the tracer thread. */
  datatype Event =
    | Advance(tid: Tid)
    | CollectTrap(tid: Tid)
    | SpuriousTrap(tid: Tid)
    | SignalStop(tid: Tid, breakOn: bool)
    | ContinueCommand
    | StepIntoCommand
    | SetBpCommand(at: Address)
    | RemoveBpCommand(id: int)
    | SelectCommand(tid: Tid)

  ghost function Apply<D, R>(p: Program<D, R>, s: Session<D, R>, e: Event): Session<D, R> {
    match e
    case Advance(t) => DebugModel.Advance(p, s, t)
    case CollectTrap(t) =>
      if !s.stopped && t in s.tracee.threads && s.tracee.threads[t].run.Trapped? then HandleTrap(s, t) else s
    case SpuriousTrap(t) =>
      if !s.stopped && t in s.tracee.threads && s.tracee.threads[t].run.Running? then HandleTrap(s, t) else s
    case SignalStop(t, breakOn) =>
      if !s.stopped && t in s.tracee.threads && s.tracee.threads[t].run.Running? then HandleSignal(s, t, breakOn) else s
    case ContinueCommand => Continue(p, s)
    case StepIntoCommand => Step(p, s, Into)
    case SetBpCommand(a) => SetSoftBp(s, a).0
    case RemoveBpCommand(id) => RemoveSoftBp(s, id)
    case SelectCommand(t) => SelectThread(s, t)
  }

  /** Breakpoints change only on a stopped target, and are set only where they cannot be confused
      with the program. */
  ghost predicate Admissible<D, R>(p: Program<D, R>, s: Session<D, R>, e: Event) {
    && (e.SetBpCommand? ==> s.stopped && Safe(p, e.at))
    && (e.RemoveBpCommand? ==> s.stopped)
  }

  ghost function Run<D, R>(p: Program<D, R>, s: Session<D, R>, es: seq<Event>): Session<D, R>
    decreases |es|
  {
    if es == [] then s else Run(p, Apply(p, s, es[0]), es[1..])
  }

  ghost predicate AdmissibleRun<D, R>(p: Program<D, R>, s: Session<D, R>, es: seq<Event>)
    decreases |es|
  {
    es == [] || (Admissible(p, s, es[0]) && AdmissibleRun(p, Apply(p, s, es[0]), es[1..]))
  }

  /** Just attached: every thread is seized and held, no breakpoint is set, nothing has executed. */
  ghost predicate JustAttached<D, R>(p: Program<D, R>, s: Session<D, R>) {
    && s.tracee.mem == p.code && s.bps == map[] && s.stopped && s.attached
    && s.tracee.retired == [] && s.tracee.exposures == []
    && s.tracee.threads.Keys == (set t | t in s.traced) && s.stoppedTids == s.tracee.threads.Keys
    && s.active in s.tracee.threads
    && forall t :: t in s.tracee.threads ==>
         s.tracee.threads[t].run.Frozen? && s.tracee.threads[t].rip in p.starts
  }

  lemma JustAttachedGood<D(!new), R(!new)>(p: Program<D, R>, s: Session<D, R>)
    requires JustAttached(p, s)
    ensures Good(p, s) && Tracks(p, View(s.tracee), s.tracee)
  {
  }

  /** A free thread reaches an armed int3: it traps, and nothing of the program has executed. */
  lemma AdvanceTraps<D(!new), R(!new)>(p: Program<D, R>, o: Original<D, R>, s: Session<D, R>, t: Tid)
    requires Good(p, s) && Tracks(p, o, s.tracee)
    requires t in s.tracee.threads && s.tracee.threads[t].run.Running?
    requires Armed(s.bps, s.tracee.threads[t].rip) && s.tracee.threads[t].rip < ADDRESS_SPACE
    ensures var s' := DebugModel.Advance(p, s, t); Good(p, s') && Tracks(p, o, s'.tracee)
  {
    var s' := DebugModel.Advance(p, s, t);
    var a := s.tracee.threads[t].rip;
    assert ThreadOk(p.starts, s.bps, s.tracee.threads[t]);
    GuardedOne(p.code, s.tracee.exposures, Exposure(s.tracee.mem, s.bps, RunningTids(s.tracee.threads) + {}));
    assert s.tracee.mem[a] == INT3;
    hide Guarded, AllSafe, Tracks, Overlay;
    assert Prev(Next(a)) == a;
    var th' := s.tracee.threads[t].(rip := Next(a), run := Trapped);
    assert s'.tracee.threads == s.tracee.threads[t := th'];
    TrapOne(p.starts, s.bps, s.tracee.threads, s.stoppedTids, t, th');
    hide ThreadsOk;
    ViewSame(s.tracee, s'.tracee);
    TracksSameView(p, o, s.tracee, s'.tracee);
  }

  lemma AdvanceExecutes<D(!new), R(!new)>(p: Program<D, R>, o: Original<D, R>, s: Session<D, R>, t: Tid)
    requires WellFormed(p) && Good(p, s) && Tracks(p, o, s.tracee)
    requires t in s.tracee.threads && s.tracee.threads[t].run.Running? && !Armed(s.bps, s.tracee.threads[t].rip)
    ensures var s' := DebugModel.Advance(p, s, t); Good(p, s') && Tracks(p, o, s'.tracee)
  {
    hide WellFormed, AllSafe, Tracks, AgreeOn;
    var s' := DebugModel.Advance(p, s, t);
    var w := Expose(s.tracee, s.bps, {});
    var a := s.tracee.threads[t].rip;
    assert ThreadOk(p.starts, s.bps, s.tracee.threads[t]);
    StartMapped(p, a);
    GuardedOne(p.code, s.tracee.exposures, Exposure(s.tracee.mem, s.bps, RunningTids(s.tracee.threads) + {}));
    IntactUnderOverlay(p, s, a, s.tracee.mem);
    hide Guarded, Overlay;
    TracksSameView(p, o, s.tracee, w);
    ExecuteIntact(p, o, w, t, Trapped);
    hide Execute;
    assert ThreadsOk(p.starts, s.bps, s'.tracee.threads, s.stoppedTids);
  }

  lemma AdvanceGood<D(!new), R(!new)>(p: Program<D, R>, o: Original<D, R>, s: Session<D, R>, t: Tid)
    requires WellFormed(p) && Good(p, s) && Tracks(p, o, s.tracee)
    ensures var s' := DebugModel.Advance(p, s, t); Good(p, s') && Tracks(p, o, s'.tracee)
  {
    hide Tracks, AllSafe, Guarded, Overlay;
    if t in s.tracee.threads && s.tracee.threads[t].run.Running? {
      assert ThreadOk(p.starts, s.bps, s.tracee.threads[t]);
      if Armed(s.bps, s.tracee.threads[t].rip) {
        AdvanceTraps(p, o, s, t);
      } else {
        AdvanceExecutes(p, o, s, t);
      }
    }
  }

  /** Hold one thread at the instruction the program is about to execute in it, then everyone else. */
  lemma HoldThenStopGood<D(!new), R(!new)>(p: Program<D, R>, o: Original<D, R>, s: Session<D, R>, t: Tid)
    requires WellFormed(p) && Good(p, s) && Tracks(p, o, s.tracee) && !s.stopped && t in s.tracee.threads
    ensures var w := SetRun(SetRip(s.tracee, t, Pc(s.tracee.threads[t])), t, Frozen);
      var s1 := s.(active := t, stoppedTids := {t}, tracee := w);
      var s' := StopOthers(s1, s.traced, t).(stopped := true);
      Good(p, s') && Tracks(p, o, s'.tracee)
  {
    hide WellFormed, Guarded, AllSafe, Overlay, Tracks, StopOthers, View, SetRun, SetRip;
    var th := s.tracee.threads[t];
    var w := SetRun(SetRip(s.tracee, t, Pc(th)), t, Frozen);
    var s1 := s.(active := t, stoppedTids := {t}, tracee := w);
    assert ThreadOk(p.starts, s.bps, th);
    var th' := th.(rip := Pc(th), run := Frozen);
    HoldOne(p.starts, s.bps, s.tracee.threads, {}, t, th');
    HeldAtPc(s.tracee, t);
    assert {} + {t} == {t};
    hide ThreadsOk;
    ViewSame(s.tracee, w);
    TracksSameView(p, o, s.tracee, w);
    AllStopGood(p, o, s1, t);
  }

  lemma HeldAtPc<D, R>(w: Tracee<D, R>, t: Tid)
    requires t in w.threads
    ensures SetRun(SetRip(w, t, Pc(w.threads[t])), t, Frozen)
         == w.(threads := w.threads[t := w.threads[t].(rip := Pc(w.threads[t]), run := Frozen)])
  {
  }

  lemma HandleTrapGood<D(!new), R(!new)>(p: Program<D, R>, o: Original<D, R>, s: Session<D, R>, t: Tid)
    requires WellFormed(p) && Good(p, s) && Tracks(p, o, s.tracee) && !s.stopped && t in s.tracee.threads
    ensures var s' := HandleTrap(s, t); Good(p, s') && Tracks(p, o, s'.tracee)
  {
    hide WellFormed, Guarded, AllSafe, Overlay, StopOthers, Tracks;
    var th := s.tracee.threads[t];
    assert ThreadOk(p.starts, s.bps, th);
    if th.run.Running? {
      RunningIsNotBehind(p, s.bps, th.rip);
      assert HandleTrap(s, t).tracee.threads == s.tracee.threads;
    } else {
      HoldThenStopGood(p, o, s, t);
      assert {t} == s.stoppedTids + {t};
    }
  }

  lemma HandleSignalGood<D(!new), R(!new)>(p: Program<D, R>, o: Original<D, R>, s: Session<D, R>, t: Tid, breakOn: bool)
    requires WellFormed(p) && Good(p, s) && Tracks(p, o, s.tracee) && !s.stopped
    requires t in s.tracee.threads && s.tracee.threads[t].run.Running?
    ensures var s' := HandleSignal(s, t, breakOn); Good(p, s') && Tracks(p, o, s'.tracee)
  {
    hide WellFormed, Guarded, AllSafe, Overlay, StopOthers, Tracks, ThreadsOk;
    if breakOn {
      HoldThenStopGood(p, o, s, t);
      assert {t} == s.stoppedTids + {t};
      assert SetRun(SetRip(s.tracee, t, Pc(s.tracee.threads[t])), t, Frozen) == SetRun(s.tracee, t, Frozen);
    } else {
      assert HandleSignal(s, t, breakOn).tracee.threads == s.tracee.threads;
    }
  }

  lemma ApplyGood<D(!new), R(!new)>(p: Program<D, R>, o: Original<D, R>, s: Session<D, R>, e: Event)
    requires WellFormed(p) && Good(p, s) && Tracks(p, o, s.tracee) && Admissible(p, s, e)
    ensures var s' := Apply(p, s, e); Good(p, s') && Tracks(p, o, s'.tracee)
  {
    hide WellFormed, Tracks, Base, Continue, StepInto, RemoveSoftBp, DebugModel.Advance, HandleTrap, HandleSignal;
    match e {
      case Advance(t) => AdvanceGood(p, o, s, t);
      case CollectTrap(t) => if !s.stopped && t in s.tracee.threads { HandleTrapGood(p, o, s, t); }
      case SpuriousTrap(t) => if !s.stopped && t in s.tracee.threads { HandleTrapGood(p, o, s, t); }
      case SignalStop(t, breakOn) =>
        if !s.stopped && t in s.tracee.threads && s.tracee.threads[t].run.Running? {
          HandleSignalGood(p, o, s, t, breakOn);
        }
      case ContinueCommand => ContinueGood(p, o, s);
      case StepIntoCommand => StepIntoGood(p, o, s);
      case SetBpCommand(a) => SetSoftBpGood(p, o, s, a);
      case RemoveBpCommand(id) => RemoveSoftBpGood(p, o, s, id);
      case SelectCommand(t) => SelectGood(p, s, t);
    }
  }

  lemma SelectGood<D(!new), R(!new)>(p: Program<D, R>, s: Session<D, R>, t: Tid)
    requires Good(p, s)
    ensures Good(p, SelectThread(s, t)) && SelectThread(s, t).tracee == s.tracee
  {
  }

  lemma RunGood<D(!new), R(!new)>(p: Program<D, R>, o: Original<D, R>, s: Session<D, R>, es: seq<Event>)
    requires WellFormed(p) && Good(p, s) && Tracks(p, o, s.tracee) && AdmissibleRun(p, s, es)
    ensures var s' := Run(p, s, es); Good(p, s') && Tracks(p, o, s'.tracee)
    decreases |es|
  {
    hide WellFormed, Tracks, Good, Apply, Admissible;
    if es != [] {
      ApplyGood(p, o, s, es[0]);
      RunGood(p, o, Apply(p, s, es[0]), es[1..]);
    }
  }

  /** Transparency: through any interleaving of threads, stops and commands, the executed
      instructions are exactly those of the undebugged program under the same schedule, none skipped
      and none repeated, and every thread stands where that program's thread stands. */
  lemma Transparency<D(!new), R(!new)>(p: Program<D, R>, s: Session<D, R>, es: seq<Event>)
    requires WellFormed(p) && JustAttached(p, s) && AdmissibleRun(p, s, es)
    ensures var s' := Run(p, s, es);
      && Faithful(p, View(s.tracee), s'.tracee.retired)
      && Replay(p, View(s.tracee), s'.tracee.retired) == View(s'.tracee)
  {
    JustAttachedGood(p, s);
    RunGood(p, View(s.tracee), s, es);
  }

  /** Between commands the text is the original with 0xCC exactly at the breakpoints, and at no
      moment of the run could a second thread execute over a lifted byte. */
  lemma RunKeepsOverlay<D(!new), R(!new)>(p: Program<D, R>, s: Session<D, R>, es: seq<Event>)
    requires WellFormed(p) && JustAttached(p, s) && AdmissibleRun(p, s, es)
    ensures var s' := Run(p, s, es);
      Overlay(p.code, s'.tracee.mem, s'.bps) && Guarded(p.code, s'.tracee.exposures)
  {
    JustAttachedGood(p, s);
    RunGood(p, View(s.tracee), s, es);
  }

  // ----- every step mode -----

  lemma RunAloneGuarded<D, R>(p: Program<D, R>, w: Tracee<D, R>, bps: Breakpoints, t: Tid, n: nat, code: Memory)
    requires Guarded(code, w.exposures) && forall u :: u in w.threads ==> w.threads[u].run.Frozen?
    ensures var w' := RunAlone(p, w, bps, t, n);
      Guarded(code, w'.exposures) && forall u :: u in w'.threads ==> w'.threads[u].run.Frozen?
    decreases n
  {
    if t in w.threads {
      assert RunningTids(w.threads) + {t} == {t};
      GuardedOne(code, w.exposures, Exposure(w.mem, bps, RunningTids(w.threads) + {t}));
      if !(w.threads[t].rip in w.mem && w.mem[w.threads[t].rip] == INT3) && n > 0 {
        RunAloneGuarded(p, Execute(p, Expose(w, bps, {t}), t, Frozen), bps, t, n - 1, code);
      }
    }
  }

  /** A temporary breakpoint leaves no trace, also when its target is the current instruction, a user
      breakpoint or both, and wherever the thread stops. */
  lemma StepToKeepsOverlay<D, R>(p: Program<D, R>, s: Session<D, R>, target: Address, n: nat)
    requires Overlay(p.code, s.tracee.mem, s.bps) && Guarded(p.code, s.tracee.exposures)
    requires s.active in s.tracee.threads && forall t :: t in s.tracee.threads ==> s.tracee.threads[t].run.Frozen?
    ensures var s' := StepTo(p, s, target, n);
      && s'.tracee.mem == s.tracee.mem && s'.bps == s.bps && Guarded(p.code, s'.tracee.exposures)
      && forall t :: t in s'.tracee.threads ==> s'.tracee.threads[t].run.Frozen?
  {
    hide Guarded;
    var rip := s.tracee.threads[s.active].rip;
    LiftPlantClear(p.code, s.tracee.mem, s.bps, rip, target);
    hide Overlay, Armed, WordMapped, Poke;
    var lifted := if Armed(s.bps, rip) then Poke(s.tracee.mem, rip, s.bps[rip].originalByte) else s.tracee.mem;
    var create := !Armed(s.bps, target) && WordMapped(lifted, target);
    var planted := if create then Poke(lifted, target, INT3) else lifted;
    RunAloneGuarded(p, s.tracee.(mem := planted), s.bps, s.active, n, p.code);
  }

  /** Lifting the breakpoint under `rip`, planting a temporary one at `target`, taking it out and
      re-arming changes nothing. */
  lemma LiftPlantClear(code: Memory, mem: Memory, bps: Breakpoints, rip: Address, target: Address)
    requires Overlay(code, mem, bps)
    ensures var lifted := if Armed(bps, rip) then Poke(mem, rip, bps[rip].originalByte) else mem;
      var create := !Armed(bps, target) && WordMapped(lifted, target);
      && (create ==> target in lifted)
      && var planted := if create then Poke(lifted, target, INT3) else lifted;
      var cleared := if create then Poke(planted, target, lifted[target]) else planted;
      (if Armed(bps, rip) then Poke(cleared, rip, INT3) else cleared) == mem
  {
    var lifted := if Armed(bps, rip) then Poke(mem, rip, bps[rip].originalByte) else mem;
    assert Armed(bps, rip) ==> WordMapped(code, rip) && lifted == mem[rip := code[rip]];
    var create := !Armed(bps, target) && WordMapped(lifted, target);
    assert create ==> target in lifted;
    var planted := if create then Poke(lifted, target, INT3) else lifted;
    assert (if create then Poke(planted, target, lifted[target]) else planted) == lifted;
  }

  lemma StepIntoKeepsOverlay<D, R>(p: Program<D, R>, s: Session<D, R>)
    requires Overlay(p.code, s.tracee.mem, s.bps) && Guarded(p.code, s.tracee.exposures)
    requires s.active in s.tracee.threads && forall t :: t in s.tracee.threads ==> s.tracee.threads[t].run.Frozen?
    ensures var s' := StepInto(p, s);
      && s'.tracee.mem == s.tracee.mem && s'.bps == s.bps && Guarded(p.code, s'.tracee.exposures)
      && forall t :: t in s'.tracee.threads ==> s'.tracee.threads[t].run.Frozen?
  {
    var t := s.active;
    var a := s.tracee.threads[t].rip;
    assert RunningTids(s.tracee.threads) + {t} == {t};
    var w := if AtBp(s, t) then s.tracee.(mem := Poke(s.tracee.mem, a, s.bps[a].originalByte)) else s.tracee;
    assert AtBp(s, t) ==> Poke(w.mem, a, INT3) == s.tracee.mem;
    GuardedOne(p.code, s.tracee.exposures, Exposure(w.mem, s.bps, {t}));
  }

  /** All four step modes restore the overlay and never expose a changed text to two threads. */
  lemma StepKeepsOverlay<D, R>(p: Program<D, R>, s: Session<D, R>, req: StepRequest)
    requires Overlay(p.code, s.tracee.mem, s.bps) && Guarded(p.code, s.tracee.exposures)
    requires forall t :: t in s.tracee.threads ==> s.tracee.threads[t].run.Frozen?
    ensures var s' := Step(p, s, req);
      Overlay(p.code, s'.tracee.mem, s'.bps) && s'.bps == s.bps && Guarded(p.code, s'.tracee.exposures)
  {
    hide Overlay, Guarded, StepTo, StepInto;
    if s.stopped && s.active in s.tracee.threads {
      StepIntoKeepsOverlay(p, s);
      match req {
        case Into =>
        case Over(isCall, size, n) =>
          StepToKeepsOverlay(p, s, (s.tracee.threads[s.active].rip + size) % ADDRESS_SPACE, n);
        case Out(retAddr, n) => StepToKeepsOverlay(p, s, retAddr, n);
        case RunToCursor(target, n) => StepToKeepsOverlay(p, s, target, n);
      }
    }
  }

  // ----- detaching -----

  lemma HoldAllEffect<D, R>(w: Tracee<D, R>, ts: seq<Tid>, skip: set<Tid>)
    ensures var w' := HoldAll(w, ts, skip);
      && w' == w.(threads := w'.threads) && w'.threads.Keys == w.threads.Keys
      && forall t :: t in w.threads ==>
           w'.threads[t] == if t in ts && t !in skip then w.threads[t].(run := Frozen) else w.threads[t]
    decreases |ts|
  {
    if ts != [] {
      HoldAllEffect(if ts[0] in skip then w else SetRun(w, ts[0], Frozen), ts[1..], skip);
    }
  }

  /** Cleanup gives the target its original text back and lets every thread go. */
  lemma CleanupRestores<D, R>(p: Program<D, R>, s: Session<D, R>)
    requires Overlay(p.code, s.tracee.mem, s.bps) && s.tracee.threads.Keys == (set t | t in s.traced)
    ensures var s' := Cleanup(s);
      && s'.tracee.mem == p.code && s'.bps == map[] && s'.traced == [] && s'.stoppedTids == {}
      && s'.tracee.threads.Keys == s.tracee.threads.Keys
      && forall t :: t in s.tracee.threads ==> s'.tracee.threads[t] == s.tracee.threads[t].(run := Running)
  {
    var held := HoldAll(s.tracee, s.traced, s.stoppedTids);
    HoldAllEffect(s.tracee, s.traced, s.stoppedTids);
    var restored := held.(mem := Restored(held.mem, s.bps));
    ContAllEffect(restored, s.traced);
    forall a | a in p.code ensures restored.mem[a] == p.code[a] {
      if Armed(s.bps, a) {
        assert WordMapped(p.code, a);
        assert WordMapped(held.mem, a);
      }
    }
  }

  /** Cleanup does not rewind a thread that has trapped on an int3 and was not collected yet: it loses the
      instruction under it. Every other thread goes on from where it is. */
  lemma CleanupKeepsPlacesIff<D, R>(p: Program<D, R>, s: Session<D, R>)
    requires Overlay(p.code, s.tracee.mem, s.bps) && s.tracee.threads.Keys == (set t | t in s.traced)
    ensures View(Cleanup(s).tracee) == View(s.tracee) <==>
              forall t :: t in s.tracee.threads ==> !s.tracee.threads[t].run.Trapped?
  {
    CleanupRestores(p, s);
    CleanupData(s);
    hide Cleanup, Overlay;
    var w, w' := s.tracee, Cleanup(s).tracee;
    if forall t :: t in w.threads ==> !w.threads[t].run.Trapped? {
      ViewSame(w, w');
    } else {
      var t :| t in w.threads && w.threads[t].run.Trapped?;
      assert View(w).threads[t].pc == Prev(w.threads[t].rip);
      assert View(w').threads[t].pc == w.threads[t].rip;
    }
  }

  /** Detaching after any admissible run gives the original text back, and leaves every thread where the undebugged
      program would be exactly when no thread has a trap that was not collected. */
  lemma DetachTransparentIff<D(!new), R(!new)>(p: Program<D, R>, s: Session<D, R>, es: seq<Event>)
    requires WellFormed(p) && JustAttached(p, s) && AdmissibleRun(p, s, es)
    ensures var s' := Run(p, s, es);
      && Cleanup(s').tracee.mem == p.code
      && (View(Cleanup(s').tracee) == Replay(p, View(s.tracee), s'.tracee.retired) <==>
            forall t :: t in s'.tracee.threads ==> !s'.tracee.threads[t].run.Trapped?)
  {
    hide WellFormed, Run, AdmissibleRun, Cleanup, View, Replay, Overlay, Guarded, AllSafe, Faithful;
    JustAttachedGood(p, s);
    RunGood(p, View(s.tracee), s, es);
    CleanupRestores(p, Run(p, s, es));
    CleanupKeepsPlacesIff(p, Run(p, s, es));
  }

  /** So detaching from a target that such a run left stopped is always transparent. */
  lemma DetachWhenStopped<D(!new), R(!new)>(p: Program<D, R>, s: Session<D, R>, es: seq<Event>)
    requires WellFormed(p) && JustAttached(p, s) && AdmissibleRun(p, s, es) && Run(p, s, es).stopped
    ensures View(Cleanup(Run(p, s, es)).tracee) == Replay(p, View(s.tracee), Run(p, s, es).tracee.retired)
  {
    hide WellFormed, Run, AdmissibleRun, Cleanup, View, Replay, Overlay, Guarded, AllSafe, Faithful;
    JustAttachedGood(p, s);
    RunGood(p, View(s.tracee), s, es);
    DetachTransparentIff(p, s, es);
  }

  lemma CleanupData<D, R>(s: Session<D, R>)
    ensures Cleanup(s).tracee.data == s.tracee.data
  {
    HoldAllEffect(s.tracee, s.traced, s.stoppedTids);
    var held := HoldAll(s.tracee, s.traced, s.stoppedTids);
    ContAllEffect(held.(mem := Restored(held.mem, s.bps)), s.traced);
  }

  /** The rewind test looks only at the byte behind a thread: freezing a running thread keeps its
      place exactly when that byte is not an armed int3. */
  lemma FreezeKeepsPlaceIff<D, R>(s: Session<D, R>, t: Tid)
    requires t in s.tracee.threads && s.tracee.threads[t].run.Running? && t !in s.stoppedTids
    ensures FreezeOne(s, t).tracee.threads[t].rip == s.tracee.threads[t].rip <==>
              !Armed(s.bps, Prev(s.tracee.threads[t].rip))
  {
  }
}
