/** What each command and each stop brings about: who is held where, which instructions have executed, and where a
    breakpoint is armed. */
module DebugEffects {
  import opened DebugModel
  import opened DebugTransparency

  // ----- stopping -----

  /** A thread held at the instruction the program would execute next. */
  function HeldThread<R>(th: Thread<R>): Thread<R> {
    th.(rip := Pc(th), run := Frozen)
  }

  lemma FreezeOneIs<D(!new), R(!new)>(p: Program<D, R>, s: Session<D, R>, t: Tid)
    requires WellFormed(p) && AllSafe(p, s.bps) && t in s.tracee.threads && t !in s.stoppedTids
    requires ThreadOk(p.starts, s.bps, s.tracee.threads[t]) && !s.tracee.threads[t].run.Frozen?
    ensures FreezeOne(s, t)
         == s.(tracee := s.tracee.(threads := s.tracee.threads[t := HeldThread(s.tracee.threads[t])]),
               stoppedTids := s.stoppedTids + {t})
  {
    hide WellFormed, AllSafe;
    if s.tracee.threads[t].run.Running? {
      RunningIsNotBehind(p, s.bps, s.tracee.threads[t].rip);
    }
  }

  /** Some threads are held, and every one of them where it was held before or at its next instruction. */
  ghost predicate HeldFrom<D, R>(s: Session<D, R>, s': Session<D, R>, held: set<Tid>) {
    && s'.stoppedTids == held && s'.tracee.threads.Keys == s.tracee.threads.Keys
    && s' == s.(tracee := s.tracee.(threads := s'.tracee.threads), stoppedTids := held)
    && forall u :: u in s.tracee.threads ==>
         s'.tracee.threads[u] == if u in held && u !in s.stoppedTids then HeldThread(s.tracee.threads[u])
                                 else s.tracee.threads[u]
  }

  lemma {:induction false} StopOthersIs<D(!new), R(!new)>(p: Program<D, R>, s: Session<D, R>, ts: seq<Tid>, act: Tid)
    requires WellFormed(p) && AllSafe(p, s.bps) && act in s.stoppedTids && forall u :: u in ts ==> u in s.tracee.threads
    requires forall u :: u in s.tracee.threads && u !in s.stoppedTids ==>
               ThreadOk(p.starts, s.bps, s.tracee.threads[u]) && !s.tracee.threads[u].run.Frozen?
    ensures HeldFrom(s, StopOthers(s, ts, act), s.stoppedTids + (set u | u in ts))
    decreases |ts|
  {
    hide WellFormed, AllSafe, ThreadOk, FreezeOne;
    if ts == [] {
      assert s.stoppedTids + (set u | u in ts) == s.stoppedTids;
    } else {
      assert (set u | u in ts) == {ts[0]} + (set u | u in ts[1..]);
      if ts[0] in s.stoppedTids {
        AlreadyHeld(s, ts[0]);
        StopOthersIs(p, s, ts[1..], act);
        assert s.stoppedTids + (set u | u in ts) == s.stoppedTids + (set u | u in ts[1..]);
      } else {
        FreezeOneIs(p, s, ts[0]);
        StopOthersIs(p, FreezeOne(s, ts[0]), ts[1..], act);
        assert s.stoppedTids + (set u | u in ts) == (s.stoppedTids + {ts[0]}) + (set u | u in ts[1..]);
      }
    }
  }

  lemma AlreadyHeld<D, R>(s: Session<D, R>, t: Tid)
    requires t in s.stoppedTids
    ensures FreezeOne(s, t) == s
  {
  }

  /** The world is stopped around `t`: every thread is held at the instruction the program would execute next, `t` is
      the active one, and nothing else has changed. */
  ghost predicate StoppedAround<D, R>(s: Session<D, R>, s': Session<D, R>, t: Tid) {
    && s'.stopped && s'.active == t && s'.stoppedTids == s.tracee.threads.Keys == s'.tracee.threads.Keys
    && (forall u :: u in s.tracee.threads ==> s'.tracee.threads[u] == HeldThread(s.tracee.threads[u]))
    && s' == s.(tracee := s.tracee.(threads := s'.tracee.threads), stoppedTids := s'.stoppedTids, active := t,
                stopped := true)
  }

  /** Holding `t` at its next instruction and then everyone else. */
  lemma StopsAround<D(!new), R(!new)>(p: Program<D, R>, s: Session<D, R>, t: Tid)
    requires WellFormed(p) && Good(p, s) && !s.stopped && t in s.tracee.threads
    ensures var w := s.tracee.(threads := s.tracee.threads[t := HeldThread(s.tracee.threads[t])]);
            var s1 := s.(active := t, stoppedTids := {t}, tracee := w);
            StoppedAround(s, StopOthers(s1, s.traced, t).(stopped := true), t)
  {
    hide WellFormed, Good, StopOthers, AllSafe, ThreadOk, HeldThread;
    RunningThreads(p, s);
    var w := s.tracee.(threads := s.tracee.threads[t := HeldThread(s.tracee.threads[t])]);
    var s1 := s.(active := t, stoppedTids := {t}, tracee := w);
    StopOthersIs(p, s1, s.traced, t);
    AllOf(s1.stoppedTids, s.traced, s.tracee.threads.Keys);
    EveryoneHeld(s, s1, StopOthers(s1, s.traced, t), t);
  }

  lemma AllOf(held: set<Tid>, traced: seq<Tid>, all: set<Tid>)
    requires held <= all && all == (set u | u in traced)
    ensures held + (set u | u in traced) == all
  {
  }

  lemma RunningThreads<D(!new), R(!new)>(p: Program<D, R>, s: Session<D, R>)
    requires Good(p, s) && !s.stopped
    ensures s.stoppedTids == {} && s.tracee.threads.Keys == (set u | u in s.traced) && AllSafe(p, s.bps)
    ensures forall u :: u in s.traced ==> u in s.tracee.threads
    ensures forall u :: u in s.tracee.threads ==>
              ThreadOk(p.starts, s.bps, s.tracee.threads[u]) && !s.tracee.threads[u].run.Frozen?
  {
    hide AllSafe, Guarded, Overlay, ThreadOk;
  }

  lemma EveryoneHeld<D, R>(s: Session<D, R>, s1: Session<D, R>, s': Session<D, R>, t: Tid)
    requires t in s.tracee.threads && s.stoppedTids == {}
    requires s1 == s.(active := t, stoppedTids := {t},
                      tracee := s.tracee.(threads := s.tracee.threads[t := HeldThread(s.tracee.threads[t])]))
    requires HeldFrom(s1, s', s.tracee.threads.Keys)
    ensures StoppedAround(s, s'.(stopped := true), t)
  {
    hide HeldThread;
  }

  /** A hit stops the target: when the trap of a thread on an armed int3 is collected, the world is stopped around
      that thread, and the thread is held on the breakpoint. */
  lemma HitStopsTarget<D(!new), R(!new)>(p: Program<D, R>, s: Session<D, R>, t: Tid)
    requires WellFormed(p) && Good(p, s) && !s.stopped && t in s.tracee.threads && s.tracee.threads[t].run.Trapped?
    ensures var s' := Apply(p, s, CollectTrap(t));
      && StoppedAround(s, s', t)
      && s'.tracee.threads[t].run.Frozen? && s'.tracee.threads[t].rip == Prev(s.tracee.threads[t].rip)
      && Armed(s'.bps, s'.tracee.threads[t].rip)
  {
    var th := s.tracee.threads[t];
    assert ThreadOk(p.starts, s.bps, th);
    StopsAround(p, s, t);
    hide WellFormed, Good, StopOthers;
    assert SetRun(SetRip(s.tracee, t, Prev(th.rip)), t, Frozen)
        == s.tracee.(threads := s.tracee.threads[t := HeldThread(th)]) by {
      HeldAtPc(s.tracee, t);
    }
    assert s.stoppedTids + {t} == {t} by { NoneHeld(p, s); }
  }

  lemma NoneHeld<D(!new), R(!new)>(p: Program<D, R>, s: Session<D, R>)
    requires Good(p, s) && !s.stopped
    ensures s.stoppedTids == {}
  {
  }

  /** So does a signal that is to break. */
  lemma BreakSignalStopsTarget<D(!new), R(!new)>(p: Program<D, R>, s: Session<D, R>, t: Tid)
    requires WellFormed(p) && Good(p, s) && !s.stopped && t in s.tracee.threads && s.tracee.threads[t].run.Running?
    ensures StoppedAround(s, Apply(p, s, SignalStop(t, true)), t)
  {
    hide WellFormed, Good, StopOthers, SetRun, HeldThread, StoppedAround;
    StopsAround(p, s, t);
    RunningHeld(s.tracee, t);
    assert s.stoppedTids + {t} == {t} by { NoneHeld(p, s); }
  }

  lemma RunningHeld<D, R>(w: Tracee<D, R>, t: Tid)
    requires t in w.threads && w.threads[t].run.Running?
    ensures SetRun(w, t, Frozen) == w.(threads := w.threads[t := HeldThread(w.threads[t])])
  {
  }

  /** Any other trap or signal of a running thread leaves everything as it was: the target runs on. */
  lemma OtherStopsRunOn<D(!new), R(!new)>(p: Program<D, R>, s: Session<D, R>, t: Tid)
    requires WellFormed(p) && Good(p, s) && !s.stopped && t in s.tracee.threads && s.tracee.threads[t].run.Running?
    ensures Apply(p, s, SpuriousTrap(t)) == s && Apply(p, s, SignalStop(t, false)) == s
  {
    assert ThreadOk(p.starts, s.bps, s.tracee.threads[t]);
    RunningIsNotBehind(p, s.bps, s.tracee.threads[t].rip);
    hide WellFormed, Good;
    assert SetRun(s.tracee, t, Running) == s.tracee;
  }

  // ----- one instruction -----

  /** Thread `t` has executed the instruction of the program it stood at, and nothing else has happened. */
  ghost predicate Executed<D, R>(p: Program<D, R>, w: Tracee<D, R>, w': Tracee<D, R>, t: Tid)
    requires t in w.threads
  {
    var th := w.threads[t];
    var (d, r, a) := p.cpu(p.code, w.data, th.regs, th.rip);
    w' == w.(data := d, threads := w.threads[t := th.(regs := r, rip := a)],
             retired := w.retired + [Retired(t, th.rip)], exposures := w'.exposures)
  }

  ghost predicate ExecutedOne<D, R>(p: Program<D, R>, s: Session<D, R>, s': Session<D, R>, t: Tid)
    requires t in s.tracee.threads
  {
    s' == s.(tracee := s'.tracee) && Executed(p, s.tracee, s'.tracee, t)
  }

  lemma ExecuteIs<D(!new), R(!new)>(p: Program<D, R>, w: Tracee<D, R>, t: Tid, k: RunState)
    requires WellFormed(p) && t in w.threads && w.threads[t].rip in p.starts
    requires AgreeOn(w.mem, p.code, w.threads[t].rip, p.length(w.threads[t].rip))
    ensures Executed(p, w, Execute(p, w, t, k), t) && Execute(p, w, t, k).exposures == w.exposures
  {
  }

  lemma SingleStepIs<D(!new), R(!new)>(p: Program<D, R>, w: Tracee<D, R>, bps: Breakpoints, t: Tid)
    requires WellFormed(p) && t in w.threads && w.threads[t].rip in p.starts
    requires AgreeOn(w.mem, p.code, w.threads[t].rip, p.length(w.threads[t].rip))
    ensures Executed(p, w, SingleStep(p, w, bps, t), t)
  {
    hide WellFormed, Execute, AgreeOn;
    ExecuteIs(p, Expose(w, bps, {t}), t, Frozen);
  }

  /** Stepping a held thread off the armed int3 it stands on executes the instruction under it. */
  lemma StepOverBpExecutes<D(!new), R(!new)>(p: Program<D, R>, s: Session<D, R>, t: Tid)
    requires WellFormed(p) && Base(p, s) && t in s.stoppedTids && AtBp(s, t)
    ensures ExecutedOne(p, s, StepOverBp(p, s, t), t)
  {
    hide WellFormed, AllSafe, Guarded, SingleStep;
    var a := s.tracee.threads[t].rip;
    var lifted := s.tracee.(mem := Poke(s.tracee.mem, a, s.bps[a].originalByte));
    assert ThreadOk(p.starts, s.bps, s.tracee.threads[t]);
    assert lifted.mem == s.tracee.mem[a := p.code[a]];
    IntactUnderOverlay(p, s, a, lifted.mem);
    SingleStepIs(p, lifted, s.bps, t);
    assert Poke(lifted.mem, a, INT3) == s.tracee.mem;
  }

  /** Step Into executes one instruction of the active thread, on a breakpoint or off it, and no other. */
  lemma StepIntoExecutesOne<D(!new), R(!new)>(p: Program<D, R>, s: Session<D, R>)
    requires WellFormed(p) && Good(p, s) && s.stopped
    ensures ExecutedOne(p, s, Apply(p, s, StepIntoCommand), s.active)
  {
    hide WellFormed, AllSafe, Guarded, SingleStep, StepOverBp, ExecutedOne;
    var t := s.active;
    if AtBp(s, t) {
      StepOverBpExecutes(p, s, t);
    } else {
      assert ThreadOk(p.starts, s.bps, s.tracee.threads[t]);
      StepOffBp(p, s, t);
    }
  }

  lemma StepOffBp<D(!new), R(!new)>(p: Program<D, R>, s: Session<D, R>, t: Tid)
    requires WellFormed(p) && Base(p, s) && t in s.stoppedTids && !AtBp(s, t)
    ensures ExecutedOne(p, s, s.(tracee := SingleStep(p, s.tracee, s.bps, t)), t)
  {
    hide WellFormed, AllSafe, Guarded, SingleStep;
    var a := s.tracee.threads[t].rip;
    assert ThreadOk(p.starts, s.bps, s.tracee.threads[t]);
    StartMapped(p, a);
    IntactUnderOverlay(p, s, a, s.tracee.mem);
    SingleStepIs(p, s.tracee, s.bps, t);
  }

  // ----- continuing -----

  ghost predicate Once(ts: seq<Tid>) {
    forall i, j :: 0 <= i < j < |ts| ==> ts[i] != ts[j]
  }

  /** The threads among these that stand on an armed int3, with the addresses. */
  function OnBreakpoints<D, R>(s: Session<D, R>, ts: seq<Tid>): seq<Retired> {
    if ts == [] then []
    else (if AtBp(s, ts[0]) then [Retired(ts[0], s.tracee.threads[ts[0]].rip)] else []) + OnBreakpoints(s, ts[1..])
  }

  lemma {:induction false} OnBreakpointsSame<D, R>(s: Session<D, R>, s': Session<D, R>, ts: seq<Tid>)
    requires s'.bps == s.bps && s'.tracee.threads.Keys == s.tracee.threads.Keys
    requires forall u :: u in ts && u in s.tracee.threads ==> s'.tracee.threads[u] == s.tracee.threads[u]
    ensures OnBreakpoints(s', ts) == OnBreakpoints(s, ts)
  {
    if ts != [] {
      OnBreakpointsSame(s, s', ts[1..]);
      assert ts[0] in s.tracee.threads.Keys <==> ts[0] in s'.tracee.threads.Keys;
    }
  }

  /** Each thread that stood on an armed int3 executes the instruction under it, once; the others do not move. */
  lemma {:induction false} StepAllExecutes<D(!new), R(!new)>(p: Program<D, R>, o: Original<D, R>, s: Session<D, R>,
                                                             ts: seq<Tid>)
    requires WellFormed(p) && Base(p, s) && s.stoppedTids == s.tracee.threads.Keys && Tracks(p, o, s.tracee)
    requires Once(ts)
    ensures var s' := StepAllOverBp(p, s, ts);
      && s'.tracee.retired == s.tracee.retired + OnBreakpoints(s, ts)
      && s'.tracee.threads.Keys == s.tracee.threads.Keys
      && forall u :: u in s.tracee.threads && !(u in ts && AtBp(s, u)) ==> s'.tracee.threads[u] == s.tracee.threads[u]
    decreases |ts|
  {
    hide WellFormed, Base, Tracks, StepOverBp;
    if ts != [] {
      var t := ts[0];
      var s1 := StepOverBp(p, s, t);
      StepOverBpGood(p, o, s, t);
      StepOneIs(p, s, t);
      StepAllExecutes(p, o, s1, ts[1..]);
      assert forall i :: 0 < i < |ts| ==> ts[1..][i - 1] == ts[i];
      assert t !in ts[1..];
      OnBreakpointsSame(s, s1, ts[1..]);
    }
  }

  lemma StepOneIs<D(!new), R(!new)>(p: Program<D, R>, s: Session<D, R>, t: Tid)
    requires WellFormed(p) && Base(p, s) && s.stoppedTids == s.tracee.threads.Keys
    ensures var s' := StepOverBp(p, s, t);
      && s'.tracee.retired == s.tracee.retired + (if AtBp(s, t) then [Retired(t, s.tracee.threads[t].rip)] else [])
      && s'.tracee.threads.Keys == s.tracee.threads.Keys && s'.bps == s.bps
      && forall u :: u in s.tracee.threads && !(u == t && AtBp(s, t)) ==> s'.tracee.threads[u] == s.tracee.threads[u]
  {
    hide WellFormed, Base;
    if AtBp(s, t) {
      StepOverBpExecutes(p, s, t);
    }
  }

  /** Continue sets every thread free, after exactly those that stood on a breakpoint have executed the instruction
      under it, each once and in the order of the thread list. */
  lemma ContinueLeavesBreakpoints<D(!new), R(!new)>(p: Program<D, R>, o: Original<D, R>, s: Session<D, R>)
    requires WellFormed(p) && Good(p, s) && s.stopped && Tracks(p, o, s.tracee) && Once(s.traced)
    ensures var s' := Apply(p, s, ContinueCommand);
      && !s'.stopped && s'.stoppedTids == {} && s'.bps == s.bps && s'.tracee.mem == s.tracee.mem
      && s'.tracee.retired == s.tracee.retired + OnBreakpoints(s, s.traced)
      && s'.tracee.threads.Keys == s.tracee.threads.Keys
      && (forall u :: u in s'.tracee.threads ==> s'.tracee.threads[u].run.Running?)
      && forall u :: u in s.tracee.threads && !AtBp(s, u) ==>
           s'.tracee.threads[u] == s.tracee.threads[u].(run := Running)
  {
    hide WellFormed, AllSafe, Guarded, StepAllOverBp, ContAll, Tracks, ThreadsOk;
    StepAllExecutes(p, o, s, s.traced);
    StepAllGood(p, o, s, s.traced);
    var s1 := StepAllOverBp(p, s, s.traced);
    ContAllEffect(s1.tracee, s.traced);
    ContinueGood(p, o, s);
  }

  // ----- breakpoints and threads -----

  /** Setting a breakpoint arms it at once, under an id that no other bears; one that is there already keeps its id;
      at an unmapped address nothing happens. */
  lemma SetArms<D, R>(p: Program<D, R>, s: Session<D, R>, a: Address)
    requires Overlay(p.code, s.tracee.mem, s.bps)
    ensures var (s', id) := SetSoftBp(s, a);
      && (a in s.bps || WordMapped(s.tracee.mem, a) ==>
            && Armed(s'.bps, a) && s'.bps[a].id == id
            && a in s'.tracee.mem && s'.tracee.mem[a] == INT3)
      && (a !in s.bps && WordMapped(s.tracee.mem, a) ==> id == s.nextId && s'.nextId == id + 1)
      && (a !in s.bps && !WordMapped(s.tracee.mem, a) ==> s' == s && id == -1)
      && forall b :: b != a ==> (b in s'.bps <==> b in s.bps) && (b in s.bps ==> s'.bps[b] == s.bps[b])
  {
    assert a in s.bps ==> WordMapped(p.code, a);
    assert WordMapped(s.tracee.mem, a) ==> a in s.tracee.mem;
  }

  /** Removing a breakpoint by its id disarms it, and no other. */
  lemma RemoveDisarms<D, R>(p: Program<D, R>, s: Session<D, R>, a: Address)
    requires Overlay(p.code, s.tracee.mem, s.bps) && a in s.bps
    requires forall b :: b in s.bps && b != a ==> s.bps[b].id != s.bps[a].id
    ensures var s' := RemoveSoftBp(s, s.bps[a].id);
      && s'.bps == s.bps - {a} && a in s'.tracee.mem && s'.tracee.mem[a] == p.code[a]
      && forall b :: b in s.tracee.mem && b != a ==> b in s'.tracee.mem && s'.tracee.mem[b] == s.tracee.mem[b]
  {
    assert HeldAt(s.bps, s.bps[a].id, a);
    assert WordMapped(p.code, a);
    assert WordMapped(s.tracee.mem, a);
  }

  lemma SelectMakesActive<D, R>(s: Session<D, R>, t: Tid)
    ensures SelectThread(s, t).active == if t in s.stoppedTids then t else s.active
    ensures SelectThread(s, t) == s.(active := SelectThread(s, t).active)
  {
  }
}
