/** Why breakpoints must be set with care: a concrete program on which a breakpoint one byte before
    an instruction makes a thread execute an instruction it was not at. */
module DebugCounterexample {
  import opened DebugModel
  import opened DebugTransparency

  /** A loop of four one-byte instructions. */
  function ToyProgram(): Program<int, int> {
    Program(map[100 := 0x90, 101 := 0x90, 102 := 0x90, 103 := 0x90, 104 := 0x90, 105 := 0x90, 106 := 0x90, 107 := 0x90],
            a => 1,
            (m, d, r, a) => (d, r, if 100 <= a < 103 then a + 1 else 100), {100, 101, 102, 103})
  }

  function ToySession(mem: Memory, t1: Thread<int>, t2: Thread<int>, retired: seq<Retired>, es: seq<Exposure>,
                      held: set<Tid>, bps: Breakpoints, nextId: int, active: Tid): Session<int, int> {
    Session(Tracee(mem, 0, map[1 := t1, 2 := t2], retired, es), [1, 2], held, bps, nextId, active, held != {}, true)
  }

  function ToyStart(): Session<int, int> {
    ToySession(ToyProgram().code, Thread(100, 0, Frozen), Thread(101, 0, Frozen), [], [], {1, 2}, map[], 1, 1)
  }

  lemma ToyProgramIsWellFormed()
    ensures WellFormed(ToyProgram())
  {
  }

  lemma ToyStartIsFresh()
    ensures JustAttached(ToyProgram(), ToyStart())
  {
    var s := ToyStart();
    assert (set t | t in s.traced) == {1, 2};
    assert s.tracee.threads.Keys == {1, 2};
  }

  lemma ToyWellFormed()
    ensures WellFormed(ToyProgram()) && JustAttached(ToyProgram(), ToyStart()) && !Safe(ToyProgram(), 100)
  {
    hide WellFormed, JustAttached;
    ToyProgramIsWellFormed();
    ToyStartIsFresh();
    assert Next(100) == 101;
  }

  /** A breakpoint at 100 with thread 1 on it and thread 2 free at 101: resuming steps thread 1 over
      it, and stopping the world then mistakes thread 2 for one that hit it. */
  lemma ToyStop(bps: Breakpoints, mem: Memory, es: seq<Exposure>)
    requires bps == map[100 := SoftBp(1, 100, 0x90, true)] && mem == ToyProgram().code[100 := INT3]
    ensures var p := ToyProgram();
      var s := ToySession(mem, Thread(101, 0, Running), Thread(101, 0, Running), [Retired(1, 100)], es, {}, bps, 2, 1);
      Apply(p, s, SignalStop(1, true))
        == ToySession(mem, Thread(101, 0, Frozen), Thread(100, 0, Frozen), [Retired(1, 100)], es, {1, 2}, bps, 2, 1)
  {
    var s := ToySession(mem, Thread(101, 0, Running), Thread(101, 0, Running), [Retired(1, 100)], es, {}, bps, 2, 1);
    var s1 := s.(active := 1, stoppedTids := {1}, tracee := SetRun(s.tracee, 1, Frozen));
    assert s.stoppedTids + {1} == {1};
    assert [1, 2][1..] == [2] && [2][1..] == [];
    var s2 := FreezeOne(s1, 2);
    assert StopOthers(s1, [1, 2], 1) == StopOthers(s1, [2], 1) == StopOthers(s2, [], 1) == s2;
    assert s2.tracee.threads == map[1 := Thread(101, 0, Frozen), 2 := Thread(100, 0, Frozen)];
  }

  lemma ToyStepOver(bps: Breakpoints, mem: Memory)
    requires bps == map[100 := SoftBp(1, 100, 0x90, true)] && mem == ToyProgram().code[100 := INT3]
    ensures var p := ToyProgram();
      var s := ToySession(mem, Thread(100, 0, Frozen), Thread(101, 0, Frozen), [], [], {1, 2}, bps, 2, 1);
      var s1 := StepOverBp(p, s, 1);
      s1 == ToySession(mem, Thread(101, 0, Frozen), Thread(101, 0, Frozen), [Retired(1, 100)], s1.tracee.exposures, {1, 2}, bps, 2, 1)
  {
    var p := ToyProgram();
    var s := ToySession(mem, Thread(100, 0, Frozen), Thread(101, 0, Frozen), [], [], {1, 2}, bps, 2, 1);
    var s1 := StepOverBp(p, s, 1);
    assert s1.tracee.mem == mem;
    assert s1.tracee.threads == map[1 := Thread(101, 0, Frozen), 2 := Thread(101, 0, Frozen)];
  }

  lemma ToyContinue(bps: Breakpoints, mem: Memory)
    requires bps == map[100 := SoftBp(1, 100, 0x90, true)] && mem == ToyProgram().code[100 := INT3]
    ensures var p := ToyProgram();
      var s := ToySession(mem, Thread(100, 0, Frozen), Thread(101, 0, Frozen), [], [], {1, 2}, bps, 2, 1);
      exists es :: Apply(p, s, ContinueCommand)
        == ToySession(mem, Thread(101, 0, Running), Thread(101, 0, Running), [Retired(1, 100)], es, {}, bps, 2, 1)
  {
    var p := ToyProgram();
    var s := ToySession(mem, Thread(100, 0, Frozen), Thread(101, 0, Frozen), [], [], {1, 2}, bps, 2, 1);
    ToyStepOver(bps, mem);
    var s1 := StepOverBp(p, s, 1);
    assert [1, 2][1..] == [2] && [2][1..] == [];
    assert StepAllOverBp(p, s, [1, 2]) == StepAllOverBp(p, s1, [2]) == StepAllOverBp(p, s1, []) == s1;
    var w := SetRun(SetRun(s1.tracee, 1, Running), 2, Running);
    assert ContAll(s1.tracee, [1, 2]) == ContAll(SetRun(s1.tracee, 1, Running), [2]) == ContAll(w, []) == w;
    assert w.threads == map[1 := Thread(101, 0, Running), 2 := Thread(101, 0, Running)];
    assert Continue(p, s) == ToySession(mem, Thread(101, 0, Running), Thread(101, 0, Running), [Retired(1, 100)],
                                        s1.tracee.exposures, {}, bps, 2, 1);
  }

  /** With a breakpoint one byte before an instruction, transparency fails: thread 2 executes at 100
      where the program without a debugger executes at 101. */
  lemma UnsafeBreakpointRepeats()
    ensures var p, s := ToyProgram(), ToyStart();
      && WellFormed(p) && JustAttached(p, s) && !Safe(p, 100)
      && !Faithful(p, View(s.tracee),
                   Run(p, s, [SetBpCommand(100), ContinueCommand, SignalStop(1, true), SelectCommand(2), StepIntoCommand])
                     .tracee.retired)
  {
    var p, s := ToyProgram(), ToyStart();
    ToyWellFormed();
    var bps: Breakpoints := map[100 := SoftBp(1, 100, 0x90, true)];
    var mem := p.code[100 := INT3];
    ToySet(bps, mem);
    ToyContinue(bps, mem);
    ToyNotFaithful([Retired(1, 100), Retired(2, 100)]);
    hide ToyProgram, ToyStart, WellFormed, JustAttached, Safe, Apply, Faithful, View, Run;
    var s1 := ToySession(mem, Thread(100, 0, Frozen), Thread(101, 0, Frozen), [], [], {1, 2}, bps, 2, 1);
    var es :| Apply(p, s1, ContinueCommand)
      == ToySession(mem, Thread(101, 0, Running), Thread(101, 0, Running), [Retired(1, 100)], es, {}, bps, 2, 1);
    ToyStop(bps, mem, es);
    ToySelect(bps, mem, es);
    ToyStep(bps, mem, es);
    var s2 := ToySession(mem, Thread(101, 0, Running), Thread(101, 0, Running), [Retired(1, 100)], es, {}, bps, 2, 1);
    var s3 := ToySession(mem, Thread(101, 0, Frozen), Thread(100, 0, Frozen), [Retired(1, 100)], es, {1, 2}, bps, 2, 1);
    var s4 := ToySession(mem, Thread(101, 0, Frozen), Thread(100, 0, Frozen), [Retired(1, 100)], es, {1, 2}, bps, 2, 2);
    hide ToySession;
    ToyRun(s, s1, s2, s3, s4);
  }

  lemma ToySelect(bps: Breakpoints, mem: Memory, es: seq<Exposure>)
    ensures var s := ToySession(mem, Thread(101, 0, Frozen), Thread(100, 0, Frozen), [Retired(1, 100)], es, {1, 2}, bps, 2, 1);
      Apply(ToyProgram(), s, SelectCommand(2))
        == ToySession(mem, Thread(101, 0, Frozen), Thread(100, 0, Frozen), [Retired(1, 100)], es, {1, 2}, bps, 2, 2)
  {
  }

  lemma ToySet(bps: Breakpoints, mem: Memory)
    requires bps == map[100 := SoftBp(1, 100, 0x90, true)] && mem == ToyProgram().code[100 := INT3]
    ensures Apply(ToyProgram(), ToyStart(), SetBpCommand(100))
      == ToySession(mem, Thread(100, 0, Frozen), Thread(101, 0, Frozen), [], [], {1, 2}, bps, 2, 1)
  {
  }

  lemma ToyStep(bps: Breakpoints, mem: Memory, es: seq<Exposure>)
    requires bps == map[100 := SoftBp(1, 100, 0x90, true)] && mem == ToyProgram().code[100 := INT3]
    ensures var s := ToySession(mem, Thread(101, 0, Frozen), Thread(100, 0, Frozen), [Retired(1, 100)], es, {1, 2}, bps, 2, 2);
      Apply(ToyProgram(), s, StepIntoCommand).tracee.retired == [Retired(1, 100), Retired(2, 100)]
  {
  }

  lemma ToyRun(s: Session<int, int>, s1: Session<int, int>, s2: Session<int, int>, s3: Session<int, int>, s4: Session<int, int>)
    requires var p := ToyProgram();
      && s1 == Apply(p, s, SetBpCommand(100)) && s2 == Apply(p, s1, ContinueCommand)
      && s3 == Apply(p, s2, SignalStop(1, true)) && s4 == Apply(p, s3, SelectCommand(2))
    ensures var p := ToyProgram();
      Run(p, s, [SetBpCommand(100), ContinueCommand, SignalStop(1, true), SelectCommand(2), StepIntoCommand])
        == Apply(p, s4, StepIntoCommand)
  {
    hide Apply;
    var p := ToyProgram();
    var e5 := [StepIntoCommand];
    var e4 := [SelectCommand(2)] + e5;
    var e3 := [SignalStop(1, true)] + e4;
    var e2 := [ContinueCommand] + e3;
    var e1 := [SetBpCommand(100)] + e2;
    assert e1[1..] == e2 && e2[1..] == e3 && e3[1..] == e4 && e4[1..] == e5 && e5[1..] == [];
    assert Run(p, s4, e5) == Run(p, Apply(p, s4, StepIntoCommand), []);
    assert Run(p, s2, e3) == Run(p, s3, e4) == Run(p, s4, e5);
    assert Run(p, s, e1) == Run(p, s1, e2) == Run(p, s2, e3);
    assert e1 == [SetBpCommand(100), ContinueCommand, SignalStop(1, true), SelectCommand(2), StepIntoCommand];
  }

  lemma ToyNotFaithful(tr: seq<Retired>)
    requires tr == [Retired(1, 100), Retired(2, 100)]
    ensures !Faithful(ToyProgram(), View(ToyStart().tracee), tr)
  {
    var p, o := ToyProgram(), View(ToyStart().tracee);
    assert tr[..1] == [Retired(1, 100)] && tr[..1][..0] == [];
    var o1 := Replay(p, o, tr[..1]);
    assert o1 == StepOriginal(p, Replay(p, o, []), 1);
    assert o1.threads[2].pc == 101;
  }

  // ----- every address before an instruction -----

  /** Two threads at the instruction one byte after `a`. */
  function TwoBehind<D, R>(p: Program<D, R>, a: Address, d: D, r: R): Session<D, R> {
    Session(Tracee(p.code, d, map[1 := Thread(Next(a), r, Frozen), 2 := Thread(Next(a), r, Frozen)], [], []),
            [1, 2], {1, 2}, map[], 1, 1, true, true)
  }

  lemma TwoBehindIsFresh<D(!new), R(!new)>(p: Program<D, R>, a: Address, d: D, r: R)
    requires Next(a) in p.starts
    ensures JustAttached(p, TwoBehind(p, a, d, r))
  {
    var s := TwoBehind(p, a, d, r);
    assert (set t | t in s.traced) == {1, 2};
    assert s.tracee.threads.Keys == {1, 2};
  }

  function BehindWith<D, R>(p: Program<D, R>, a: Address, d: D, r: R, run: RunState, held: set<Tid>): Session<D, R>
    requires a in p.code
  {
    Session(Tracee(p.code[a := INT3], d, map[1 := Thread(Next(a), r, run), 2 := Thread(Next(a), r, run)], [], []),
            [1, 2], held, map[a := SoftBp(1, a, p.code[a], true)], 2, 1, held != {}, true)
  }

  /** Thread 2 moved back onto the breakpoint that it never reached. */
  function MovedBack<D, R>(p: Program<D, R>, a: Address, d: D, r: R, act: Tid): Session<D, R>
    requires a in p.code
  {
    Session(Tracee(p.code[a := INT3], d, map[1 := Thread(Next(a), r, Frozen), 2 := Thread(a, r, Frozen)], [], []),
            [1, 2], {1, 2}, map[a := SoftBp(1, a, p.code[a], true)], 2, act, true, true)
  }

  lemma SetBehind<D, R>(p: Program<D, R>, a: Address, d: D, r: R)
    requires WordMapped(p.code, a) && a in p.code
    ensures Apply(p, TwoBehind(p, a, d, r), SetBpCommand(a)) == BehindWith(p, a, d, r, Frozen, {1, 2})
  {
  }

  lemma ContinueBehind<D, R>(p: Program<D, R>, a: Address, d: D, r: R)
    requires a in p.code && a < ADDRESS_SPACE
    ensures Apply(p, BehindWith(p, a, d, r, Frozen, {1, 2}), ContinueCommand) == BehindWith(p, a, d, r, Running, {})
  {
    var s := BehindWith(p, a, d, r, Frozen, {1, 2});
    assert [1, 2][1..] == [2] && [2][1..] == [];
    assert !AtBp(s, 1) && !AtBp(s, 2);
    assert StepAllOverBp(p, s, [1, 2]) == StepAllOverBp(p, s, [2]) == StepAllOverBp(p, s, []) == s;
    var w := SetRun(SetRun(s.tracee, 1, Running), 2, Running);
    assert ContAll(s.tracee, [1, 2]) == ContAll(SetRun(s.tracee, 1, Running), [2]) == ContAll(w, []) == w;
    assert w.threads == map[1 := Thread(Next(a), r, Running), 2 := Thread(Next(a), r, Running)];
  }

  lemma StopBehind<D, R>(p: Program<D, R>, a: Address, d: D, r: R)
    requires a in p.code && a < ADDRESS_SPACE
    ensures Apply(p, BehindWith(p, a, d, r, Running, {}), SignalStop(1, true)) == MovedBack(p, a, d, r, 1)
  {
    var s := BehindWith(p, a, d, r, Running, {});
    var s1 := s.(active := 1, stoppedTids := {1}, tracee := SetRun(s.tracee, 1, Frozen));
    assert s.stoppedTids + {1} == {1};
    assert [1, 2][1..] == [2] && [2][1..] == [];
    assert Prev(Next(a)) == a;
    var s2 := FreezeOne(s1, 2);
    assert StopOthers(s1, [1, 2], 1) == StopOthers(s1, [2], 1) == StopOthers(s2, [], 1) == s2;
    assert s2.tracee.threads == map[1 := Thread(Next(a), r, Frozen), 2 := Thread(a, r, Frozen)];
  }

  lemma StepMovedBack<D, R>(p: Program<D, R>, a: Address, d: D, r: R)
    requires WordMapped(p.code, a) && a in p.code && p.code[a] != INT3
    ensures Apply(p, MovedBack(p, a, d, r, 2), StepIntoCommand).tracee.retired == [Retired(2, a)]
  {
    var s := MovedBack(p, a, d, r, 2);
    assert AtBp(s, 2);
    var lifted := s.tracee.(mem := Poke(s.tracee.mem, a, s.bps[a].originalByte));
    assert WordMapped(s.tracee.mem, a);
    assert lifted.mem[a] == p.code[a];
  }

  lemma RunOfThree<D, R>(p: Program<D, R>, s: Session<D, R>, e1: Event, e2: Event, e3: Event)
    ensures Run(p, s, [e1, e2, e3]) == Apply(p, Apply(p, Apply(p, s, e1), e2), e3)
  {
    hide Apply;
    assert [e1, e2, e3][1..] == [e2, e3] && [e2, e3][1..] == [e3] && [e3][1..] == [];
    var s1 := Apply(p, s, e1);
    var s2 := Apply(p, s1, e2);
    assert Run(p, s2, [e3]) == Run(p, Apply(p, s2, e3), []);
    assert Run(p, s1, [e2, e3]) == Run(p, s2, [e3]);
  }

  lemma RunOfFive<D, R>(p: Program<D, R>, s: Session<D, R>, e1: Event, e2: Event, e3: Event, e4: Event, e5: Event)
    ensures Run(p, s, [e1, e2, e3, e4, e5]) == Apply(p, Apply(p, Run(p, s, [e1, e2, e3]), e4), e5)
  {
    hide Apply;
    RunOfThree(p, s, e1, e2, e3);
    var s1 := Apply(p, s, e1);
    var s2 := Apply(p, s1, e2);
    RunOfThree(p, s2, e3, e4, e5);
    assert [e1, e2, e3, e4, e5][1..] == [e2, e3, e4, e5] && [e2, e3, e4, e5][1..] == [e3, e4, e5];
    assert Run(p, s1, [e2, e3, e4, e5]) == Run(p, s2, [e3, e4, e5]);
  }

  /** Whatever the program: a breakpoint one byte before an instruction lets a thread that never reached it be moved
      onto it, in a run of which only setting that breakpoint is not admissible. */
  lemma UnsafeIsNeverTransparent<D(!new), R(!new)>(p: Program<D, R>, a: Address, d: D, r: R)
    requires a < ADDRESS_SPACE && WordMapped(p.code, a) && Next(a) in p.starts
    ensures var s := TwoBehind(p, a, d, r);
      var s' := Run(p, s, [SetBpCommand(a), ContinueCommand, SignalStop(1, true)]);
      && JustAttached(p, s) && AdmissibleRun(p, Apply(p, s, SetBpCommand(a)), [ContinueCommand, SignalStop(1, true)])
      && Replay(p, View(s.tracee), s'.tracee.retired) != View(s'.tracee)
  {
    assert a in p.code;
    TwoBehindIsFresh(p, a, d, r);
    var s := TwoBehind(p, a, d, r);
    SetBehind(p, a, d, r);
    ContinueBehind(p, a, d, r);
    StopBehind(p, a, d, r);
    RunOfThree(p, s, SetBpCommand(a), ContinueCommand, SignalStop(1, true));
    AdmissibleTwo(p, Apply(p, s, SetBpCommand(a)), ContinueCommand, SignalStop(1, true));
    var s' := MovedBack(p, a, d, r, 1);
    assert View(s'.tracee).threads[2].pc == a;
    assert View(s.tracee).threads[2].pc == Next(a);
  }

  lemma AdmissibleTwo<D, R>(p: Program<D, R>, s: Session<D, R>, e1: Event, e2: Event)
    requires !e1.SetBpCommand? && !e1.RemoveBpCommand? && !e2.SetBpCommand? && !e2.RemoveBpCommand?
    ensures AdmissibleRun(p, s, [e1, e2])
  {
    hide Apply;
    assert [e1, e2][1..] == [e2] && [e2][1..] == [];
    assert AdmissibleRun(p, Apply(p, Apply(p, s, e1), e2), []);
    assert AdmissibleRun(p, Apply(p, s, e1), [e2]);
  }

  /** And where the program has a byte of its own there, not an int3, the thread then executes it: the history is no
      run of the program. */
  lemma UnsafeIsNeverFaithful<D(!new), R(!new)>(p: Program<D, R>, a: Address, d: D, r: R)
    requires a < ADDRESS_SPACE && WordMapped(p.code, a) && Next(a) in p.starts
    requires a in p.code && p.code[a] != INT3
    ensures var s := TwoBehind(p, a, d, r);
      JustAttached(p, s) &&
      !Faithful(p, View(s.tracee),
                Run(p, s, [SetBpCommand(a), ContinueCommand, SignalStop(1, true), SelectCommand(2), StepIntoCommand])
                  .tracee.retired)
  {
    TwoBehindIsFresh(p, a, d, r);
    var s := TwoBehind(p, a, d, r);
    SetBehind(p, a, d, r);
    ContinueBehind(p, a, d, r);
    StopBehind(p, a, d, r);
    RunOfThree(p, s, SetBpCommand(a), ContinueCommand, SignalStop(1, true));
    RunOfFive(p, s, SetBpCommand(a), ContinueCommand, SignalStop(1, true), SelectCommand(2), StepIntoCommand);
    SelectMovedBack(p, a, d, r);
    StepMovedBack(p, a, d, r);
    WrongPlace(p, View(s.tracee), 2, a);
  }

  lemma SelectMovedBack<D, R>(p: Program<D, R>, a: Address, d: D, r: R)
    requires a in p.code
    ensures Apply(p, MovedBack(p, a, d, r, 1), SelectCommand(2)) == MovedBack(p, a, d, r, 2)
  {
  }

  lemma WrongPlace<D, R>(p: Program<D, R>, o: Original<D, R>, t: Tid, a: Address)
    requires t in o.threads && o.threads[t].pc != a
    ensures !Faithful(p, o, [Retired(t, a)])
  {
    assert [Retired(t, a)][..0] == [];
    assert Replay(p, o, []) == o;
  }

  // ----- detaching from a trapped thread -----

  /** Two instructions that lead to each other. */
  function Ring(): Program<int, int> {
    Program(map[100 := 0x90, 101 := 0x90, 102 := 0x90, 103 := 0x90, 104 := 0x90, 105 := 0x90, 106 := 0x90, 107 := 0x90,
                108 := 0x90, 109 := 0x90],
            a => 1, (m, d, r, a) => (d, r, if a == 100 then 102 else 100), {100, 102})
  }

  function RingSession(mem: Memory, th: Thread<int>, retired: seq<Retired>, es: seq<Exposure>, held: set<Tid>,
                       bps: Breakpoints, nextId: int): Session<int, int> {
    Session(Tracee(mem, 0, map[1 := th], retired, es), [1], held, bps, nextId, 1, held != {}, true)
  }

  function RingStart(): Session<int, int> {
    RingSession(Ring().code, Thread(100, 0, Frozen), [], [], {1}, map[], 1)
  }

  function RingBps(): Breakpoints {
    map[102 := SoftBp(1, 102, 0x90, true)]
  }

  /** The breakpoint is set while the thread is held before it. */
  function RingArmed(th: Thread<int>, retired: seq<Retired>, es: seq<Exposure>, held: set<Tid>): Session<int, int> {
    RingSession(Ring().code[102 := INT3], th, retired, es, held, RingBps(), 2)
  }

  lemma RingIsFresh()
    ensures WellFormed(Ring()) && JustAttached(Ring(), RingStart()) && Safe(Ring(), 102)
  {
    var s := RingStart();
    assert (set t | t in s.traced) == {1};
    assert s.tracee.threads.Keys == {1};
  }

  lemma RingSet()
    ensures Apply(Ring(), RingStart(), SetBpCommand(102)) == RingArmed(Thread(100, 0, Frozen), [], [], {1})
  {
    assert WordMapped(Ring().code, 102);
  }

  lemma RingContinue()
    ensures Apply(Ring(), RingArmed(Thread(100, 0, Frozen), [], [], {1}), ContinueCommand)
         == RingArmed(Thread(100, 0, Running), [], [], {})
  {
    var p, s := Ring(), RingArmed(Thread(100, 0, Frozen), [], [], {1});
    assert !AtBp(s, 1) && [1][1..] == [];
    assert StepAllOverBp(p, s, [1]) == StepAllOverBp(p, s, []) == s;
    var w := SetRun(s.tracee, 1, Running);
    assert ContAll(s.tracee, [1]) == ContAll(w, []) == w;
    assert w.threads == map[1 := Thread(100, 0, Running)];
  }

  lemma RingRuns()
    ensures var s := Apply(Ring(), RingArmed(Thread(100, 0, Running), [], [], {}), Advance(1));
      s == RingArmed(Thread(102, 0, Running), [Retired(1, 100)], s.tracee.exposures, {})
  {
  }

  lemma RingTraps(es: seq<Exposure>)
    ensures var s := Apply(Ring(), RingArmed(Thread(102, 0, Running), [Retired(1, 100)], es, {}), Advance(1));
      s == RingArmed(Thread(103, 0, Trapped), [Retired(1, 100)], s.tracee.exposures, {})
  {
  }

  lemma RunOfFour<D, R>(p: Program<D, R>, s: Session<D, R>, e1: Event, e2: Event, e3: Event, e4: Event)
    ensures Run(p, s, [e1, e2, e3, e4]) == Apply(p, Run(p, s, [e1, e2, e3]), e4)
  {
    hide Apply;
    var s1 := Apply(p, s, e1);
    RunOfThree(p, s, e1, e2, e3);
    RunOfThree(p, s1, e2, e3, e4);
    assert [e1, e2, e3, e4][1..] == [e2, e3, e4];
  }

  function RingEvents(): seq<Event> {
    [SetBpCommand(102), ContinueCommand, Advance(1), Advance(1)]
  }

  lemma RingRun() returns (es: seq<Exposure>)
    ensures Run(Ring(), RingStart(), RingEvents()) == RingArmed(Thread(103, 0, Trapped), [Retired(1, 100)], es, {})
  {
    hide Apply, Ring, RingArmed, RingStart;
    var p, s := Ring(), RingStart();
    RingSet();
    RingContinue();
    RingRuns();
    var s3 := Apply(p, RingArmed(Thread(100, 0, Running), [], [], {}), Advance(1));
    RingTraps(s3.tracee.exposures);
    RunOfThree(p, s, SetBpCommand(102), ContinueCommand, Advance(1));
    RunOfFour(p, s, SetBpCommand(102), ContinueCommand, Advance(1), Advance(1));
    es := Apply(p, s3, Advance(1)).tracee.exposures;
  }

  /** Detaching while a trap is not collected: the thread is let go one byte past the instruction it was to execute
      next, where none starts. Set, continue, reach the breakpoint, detach: every step of it is admissible. */
  lemma DetachLosesInstruction()
    ensures var p, s := Ring(), RingStart();
      var s' := Run(p, s, RingEvents());
      var w := Cleanup(s').tracee;
      && WellFormed(p) && JustAttached(p, s) && AdmissibleRun(p, s, RingEvents())
      && w.mem == p.code && 1 in w.threads && w.threads[1].rip == 103 && 103 !in p.starts
      && 1 in Replay(p, View(s.tracee), s'.tracee.retired).threads
      && Replay(p, View(s.tracee), s'.tracee.retired).threads[1].pc == 102
  {
    hide WellFormed, JustAttached, Cleanup, Run, AdmissibleRun, Replay, RingStart, View;
    RingIsFresh();
    var es := RingRun();
    RingAdmissible(RingStart());
    RingDetached(es);
    RingHistory();
  }

  lemma RingAdmissible(s: Session<int, int>)
    requires s == RingStart()
    ensures AdmissibleRun(Ring(), s, RingEvents())
  {
    hide Apply, Ring, Safe;
    RingIsFresh();
    var es := RingEvents();
    var p := Ring();
    var s1 := Apply(p, s, es[0]);
    var s2 := Apply(p, s1, es[1]);
    assert es[1..] == [es[1], es[2], es[3]] && es[1..][1..] == [es[2], es[3]];
    AdmissibleTwo(p, s2, es[2], es[3]);
    assert AdmissibleRun(p, s1, es[1..]);
  }

  lemma RingDetached(es: seq<Exposure>)
    ensures var w := Cleanup(RingArmed(Thread(103, 0, Trapped), [Retired(1, 100)], es, {})).tracee;
      w.mem == Ring().code && 1 in w.threads && w.threads[1].rip == 103
  {
    var s := RingArmed(Thread(103, 0, Trapped), [Retired(1, 100)], es, {});
    assert s.tracee.threads.Keys == {1} == (set t | t in s.traced);
    assert WordMapped(Ring().code, 102);
    assert Overlay(Ring().code, s.tracee.mem, s.bps);
    hide Cleanup;
    CleanupRestores(Ring(), s);
  }

  lemma RingHistory()
    ensures Replay(Ring(), View(RingStart().tracee), [Retired(1, 100)]).threads.Keys == {1}
    ensures Replay(Ring(), View(RingStart().tracee), [Retired(1, 100)]).threads[1].pc == 102
  {
    var p, o := Ring(), View(RingStart().tracee);
    assert [Retired(1, 100)][..0] == [];
    assert Replay(p, o, []) == o;
    assert o.threads.Keys == {1};
  }

  /** Running to a cursor may stop at a user breakpoint on the way, and then no one rewinds: the thread is held one
      byte past it, and detaching leaves it there. So transparency is said of Continue and Step Into. */
  lemma RunToCursorStopsPast()
    ensures var s := Apply(Ring(), RingStart(), SetBpCommand(102));
      var s' := Step(Ring(), s, RunToCursor(0x1000, 5));
      && 1 in s'.tracee.threads && s'.tracee.threads[1].run.Frozen?
      && s'.tracee.threads[1].rip == 103 && 103 !in Ring().starts
  {
    RingSet();
    var p, s := Ring(), RingArmed(Thread(100, 0, Frozen), [], [], {1});
    var w := s.tracee;
    assert 0x1000 !in w.mem && !WordMapped(w.mem, 0x1000);
    var w1 := Execute(p, Expose(w, s.bps, {1}), 1, Frozen);
    assert w1.threads == map[1 := Thread(102, 0, Frozen)];
    var w2 := Execute(p, Expose(w1, s.bps, {1}), 1, Frozen);
    assert w2.threads == map[1 := Thread(103, 0, Frozen)];
    assert RunAlone(p, w1, s.bps, 1, 4) == w2;
    assert RunAlone(p, w, s.bps, 1, 5) == w2;
    assert w.(mem := w.mem) == w;
  }
}
