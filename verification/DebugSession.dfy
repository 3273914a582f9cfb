/** The tracer thread's handlers, updating the session's fields in place. Each computes the function
    of the same name in DebugModel on the state it starts from. */
module DebugSession {
  import opened DebugModel
  import opened DebugTransparency

  /** Breakpoint ids identify breakpoints and are never reused. */
  ghost predicate IdsOk(bps: Breakpoints, nextId: int) {
    && (forall a :: a in bps ==> bps[a].id < nextId)
    && (forall a, b :: a in bps && b in bps && bps[a].id == bps[b].id ==> a == b)
  }

  class DebugSession<D, R> {
    const program: Program<D, R>
    /** The target, reached through ptrace only. */
    var tracee: Tracee<D, R>
    var traced: seq<Tid>
    var stoppedTids: set<Tid>
    var softBreakpoints: Breakpoints
    var nextSoftBpId: int
    var activeTid: Tid
    var stopped: bool
    var attached: bool

    function State(): Session<D, R>
      reads this
    {
      Session(tracee, traced, stoppedTids, softBreakpoints, nextSoftBpId, activeTid, stopped, attached)
    }

    ghost predicate Valid()
      reads this
    {
      && IdsOk(softBreakpoints, nextSoftBpId)
      && tracee.threads.Keys == (set t | t in traced)
      && activeTid in tracee.threads
    }

    /** All threads have been seized and stopped. */
    constructor (program: Program<D, R>, tracee: Tracee<D, R>, tids: seq<Tid>, pid: Tid)
      requires tracee.threads.Keys == (set t | t in tids) && pid in tids
      ensures Valid()
      ensures this.program == program
      ensures State() == Session(tracee, tids, set t | t in tids, map[], 1, pid, true, true)
    {
      this.program := program;
      this.tracee := tracee;
      traced := tids;
      stoppedTids := set t | t in tids;
      softBreakpoints := map[];
      nextSoftBpId := 1;
      activeTid := pid;
      stopped := true;
      attached := true;
    }

    method PokeByte(a: Address, v: Byte) returns (ok: bool, old_: Byte)
      modifies this`tracee
      ensures ok == WordMapped(old(tracee.mem), a)
      ensures ok ==> a in old(tracee.mem) && old_ == old(tracee.mem)[a]
      ensures tracee == old(tracee).(mem := Poke(old(tracee.mem), a, v))
      ensures !ok ==> tracee == old(tracee)
    {
      ok := forall b :: a <= b < a + WORD_BYTES ==> b in tracee.mem;
      old_ := 0;
      if ok {
        assert a in tracee.mem;
        old_ := tracee.mem[a];
        tracee := tracee.(mem := tracee.mem[a := v]);
      }
    }

    method DoSetSoftBp(address: Address) returns (id: int)
      requires Valid()
      modifies this
      ensures Valid()
      ensures (State(), id) == SetSoftBp(old(State()), address)
    {
      if address in softBreakpoints {
        return softBreakpoints[address].id;
      }
      var ok, origByte := PokeByte(address, INT3);
      if !ok {
        return -1;
      }
      id := nextSoftBpId;
      nextSoftBpId := nextSoftBpId + 1;
      softBreakpoints := softBreakpoints[address := SoftBp(id, address, origByte, true)];
    }

    method DoRemoveSoftBp(id: int)
      requires Valid()
      modifies this
      ensures Valid()
      ensures State() == RemoveSoftBp(old(State()), id)
    {
      var todo := softBreakpoints.Keys;
      while todo != {}
        invariant State() == old(State())
        invariant todo <= softBreakpoints.Keys
        invariant forall a :: HeldAt(softBreakpoints, id, a) ==> a in todo
        decreases todo
      {
        var a :| a in todo;
        if softBreakpoints[a].id == id {
          assert HeldAt(softBreakpoints, id, a);
          if softBreakpoints[a].active {
            var _, _ := PokeByte(a, softBreakpoints[a].originalByte);
          }
          softBreakpoints := softBreakpoints - {a};
          return;
        }
        todo := todo - {a};
      }
    }

    /** Interrupt one thread; back its rip up if it stopped just past one of our int3s. */
    method FreezeThread(tid: Tid)
      requires Valid() && tid in tracee.threads && tid !in stoppedTids
      modifies this`tracee, this`stoppedTids
      ensures Valid() && State() == FreezeOne(old(State()), tid)
    {
      tracee := SetRun(tracee, tid, Frozen);
      stoppedTids := stoppedTids + {tid};
      var bpAddr := Prev(tracee.threads[tid].rip);
      if bpAddr in softBreakpoints && softBreakpoints[bpAddr].active {
        tracee := SetRip(tracee, tid, bpAddr);
      }
    }

    method StopOtherThreads(active: Tid)
      requires Valid()
      modifies this
      ensures Valid()
      ensures State() == StopOthers(old(State()), old(traced), active)
    {
      var i := 0;
      while i < |traced|
        invariant i <= |traced| && Valid() && traced == old(traced)
        invariant StopOthers(State(), traced[i..], active) == StopOthers(old(State()), old(traced), active)
      {
        if traced[i] != active && traced[i] !in stoppedTids {
          FreezeThread(traced[i]);
        }
        i := i + 1;
      }
    }

    method StepThreadOverBp(tid: Tid) returns (did: bool)
      requires Valid()
      modifies this
      ensures Valid()
      ensures did == AtBp(old(State()), tid)
      ensures State() == StepOverBp(program, old(State()), tid)
    {
      if tid !in tracee.threads {
        return false;
      }
      var rip := tracee.threads[tid].rip;
      if !(rip in softBreakpoints && softBreakpoints[rip].active) {
        return false;
      }
      var _, _ := PokeByte(rip, softBreakpoints[rip].originalByte);
      tracee := SingleStep(program, tracee, softBreakpoints, tid);
      if rip in softBreakpoints && softBreakpoints[rip].active {
        var _, _ := PokeByte(rip, INT3);
      }
      return true;
    }

    /** Everyone is still stopped: step any thread that sits on an armed int3 past it. */
    method StepAllOverBps()
      requires Valid()
      modifies this
      ensures Valid() && traced == old(traced)
      ensures State() == StepAllOverBp(program, old(State()), old(traced))
    {
      hide StepOverBp;
      var i := 0;
      while i < |traced|
        invariant i <= |traced| && Valid() && traced == old(traced)
        invariant StepAllOverBp(program, State(), traced[i..]) == StepAllOverBp(program, old(State()), old(traced))
      {
        StepKeepsBook(program, State(), traced[i]);
        var _ := StepThreadOverBp(traced[i]);
        i := i + 1;
      }
    }

    method ContThreads()
      modifies this`tracee
      ensures tracee == ContAll(old(tracee), traced) && tracee.threads.Keys == old(tracee).threads.Keys
    {
      var i := 0;
      while i < |traced|
        invariant i <= |traced| && tracee.threads.Keys == old(tracee).threads.Keys
        invariant ContAll(tracee, traced[i..]) == ContAll(old(tracee), traced)
      {
        tracee := SetRun(tracee, traced[i], Running);
        i := i + 1;
      }
    }

    method ResumeAllThreads()
      requires Valid()
      modifies this
      ensures Valid()
      ensures State() == ResumeAll(program, old(State()))
    {
      hide StepAllOverBp, ContAll;
      StepAllOverBps();
      ContThreads();
      stoppedTids := {};
    }

    method DoContinue()
      requires Valid()
      modifies this
      ensures Valid()
      ensures State() == Continue(program, old(State()))
    {
      if !stopped {
        return;
      }
      ResumeAllThreads();
      stopped := false;
    }

    method HandleTrapStop(w: Tid)
      requires Valid()
      modifies this
      ensures Valid()
      ensures State() == HandleTrap(old(State()), w)
    {
      hide StopOthers;
      if w !in tracee.threads {
        return;
      }
      var bpAddr := Prev(tracee.threads[w].rip);
      if bpAddr in softBreakpoints && softBreakpoints[bpAddr].active {
        tracee := SetRip(tracee, w, bpAddr);
        tracee := SetRun(tracee, w, Frozen);
        activeTid := w;
        stoppedTids := stoppedTids + {w};
        StopOtherThreads(w);
        stopped := true;
        return;
      }
      tracee := SetRun(tracee, w, Running);
    }

    method HandleSignalStop(w: Tid, breakOn: bool)
      requires Valid()
      modifies this
      ensures Valid()
      ensures State() == HandleSignal(old(State()), w, breakOn)
    {
      hide StopOthers;
      if w !in tracee.threads {
        return;
      }
      if breakOn {
        tracee := SetRun(tracee, w, Frozen);
        activeTid := w;
        stoppedTids := stoppedTids + {w};
        StopOtherThreads(w);
        stopped := true;
      } else {
        tracee := SetRun(tracee, w, Running);
      }
    }

    method StepOne()
      requires Valid() && stopped
      modifies this
      ensures Valid()
      ensures stopped && State() == StepInto(program, old(State()))
    {
      var did := StepThreadOverBp(activeTid);
      if !did {
        tracee := SingleStep(program, tracee, softBreakpoints, activeTid);
      }
    }

    /** Lift an armed int3 the active thread may be sitting on. */
    method LiftCurrentBp(rip: Address) returns (lifted: bool)
      modifies this`tracee
      ensures lifted == Armed(softBreakpoints, rip)
      ensures tracee == if lifted
                        then old(tracee).(mem := Poke(old(tracee).mem, rip, softBreakpoints[rip].originalByte))
                        else old(tracee)
    {
      lifted := rip in softBreakpoints && softBreakpoints[rip].active;
      if lifted {
        var _, _ := PokeByte(rip, softBreakpoints[rip].originalByte);
      }
    }

    /** Plant a temporary int3 unless a user breakpoint is armed there; report whether it was created. */
    method SetTemp(a: Address) returns (created: bool, orig: Byte)
      modifies this`tracee
      ensures created == (!Armed(softBreakpoints, a) && WordMapped(old(tracee).mem, a))
      ensures created ==> a in old(tracee).mem && orig == old(tracee).mem[a]
      ensures tracee == if created then old(tracee).(mem := Poke(old(tracee).mem, a, INT3)) else old(tracee)
    {
      created, orig := false, 0;
      if !(a in softBreakpoints && softBreakpoints[a].active) {
        created, orig := PokeByte(a, INT3);
      }
    }

    /** Run the active thread alone, for at most `n` instructions, to a temporary int3 at `target`. */
    method RunToTemp(target: Address, n: nat)
      requires Valid() && stopped
      modifies this
      ensures Valid()
      ensures stopped && State() == StepTo(program, old(State()), target, n)
    {
      hide RunAlone, Poke, WordMapped, IdsOk;
      var rip := tracee.threads[activeTid].rip;
      var lifted := LiftCurrentBp(rip);
      var created, orig := SetTemp(target);
      tracee := RunAlone(program, tracee, softBreakpoints, activeTid, n);
      if tracee.threads[activeTid].rip == Next(target) {
        tracee := SetRip(tracee, activeTid, target);
      }
      if created {
        var _, _ := PokeByte(target, orig);
      }
      if lifted {
        var _, _ := PokeByte(rip, INT3);
      }
    }

    method DoStep(req: StepRequest)
      requires Valid()
      modifies this
      ensures Valid()
      ensures State() == Step(program, old(State()), req)
    {
      hide StepTo, StepInto;
      if !stopped {
        return;
      }
      match req {
        case Into => StepOne();
        case Over(isCall, size, n) =>
          if isCall {
            RunToTemp((tracee.threads[activeTid].rip + size) % ADDRESS_SPACE, n);
          } else {
            StepOne();
          }
        case Out(retAddr, n) =>
          if retAddr != 0 {
            RunToTemp(retAddr, n);
          }
        case RunToCursor(target, n) =>
          if target != 0 {
            RunToTemp(target, n);
          }
      }
      stopped := true;
    }

    method DoSelectThread(tid: Tid) returns (ok: bool)
      requires Valid() && stoppedTids <= tracee.threads.Keys
      modifies this`activeTid
      ensures Valid()
      ensures ok == (tid in stoppedTids)
      ensures State() == SelectThread(old(State()), tid)
    {
      if tid !in stoppedTids {
        return false;
      }
      activeTid := tid;
      return true;
    }

    method HoldRunning()
      requires Valid()
      modifies this`tracee
      ensures tracee == HoldAll(old(tracee), traced, stoppedTids)
      ensures tracee == old(tracee).(threads := tracee.threads)
    {
      var i := 0;
      while i < |traced|
        invariant i <= |traced| && tracee == old(tracee).(threads := tracee.threads)
        invariant HoldAll(tracee, traced[i..], stoppedTids) == HoldAll(old(tracee), traced, stoppedTids)
      {
        if traced[i] !in stoppedTids {
          tracee := SetRun(tracee, traced[i], Frozen);
        }
        i := i + 1;
      }
    }

    method RestoreText()
      modifies this`tracee
      ensures tracee == old(tracee).(mem := Restored(old(tracee).mem, softBreakpoints))
    {
      var todo := softBreakpoints.Keys;
      while todo != {}
        invariant todo <= softBreakpoints.Keys
        invariant tracee == old(tracee).(mem := tracee.mem) && tracee.mem.Keys == old(tracee).mem.Keys
        invariant forall a :: a in tracee.mem ==>
                    tracee.mem[a] == if a in todo then old(tracee).mem[a] else Restored(old(tracee).mem, softBreakpoints)[a]
        decreases todo
      {
        var a :| a in todo;
        if softBreakpoints[a].active {
          var _, _ := PokeByte(a, softBreakpoints[a].originalByte);
        }
        todo := todo - {a};
      }
      assert tracee.mem == Restored(old(tracee).mem, softBreakpoints);
    }

    method TracerCleanup()
      requires Valid()
      modifies this
      ensures State() == Cleanup(old(State()))
    {
      HoldRunning();
      hide HoldAll, Restored, ContAll;
      RestoreText();
      softBreakpoints := map[];
      ContThreads();
      traced := [];
      stoppedTids := {};
      stopped := false;
      attached := false;
    }

  }

  lemma StepKeepsBook<D, R>(p: Program<D, R>, s: Session<D, R>, t: Tid)
    ensures SameBook(s, StepOverBp(p, s, t))
  {
  }

  /** Removing a breakpoint by the id that setting it returned gives the session back, text and
      bookkeeping, up to the spent id. */
  lemma RemoveUndoesSet<D, R>(p: Program<D, R>, s: Session<D, R>, a: Address)
    requires Overlay(p.code, s.tracee.mem, s.bps) && IdsOk(s.bps, s.nextId)
    requires a !in s.bps && WordMapped(s.tracee.mem, a)
    ensures var (s1, id) := SetSoftBp(s, a);
      && id == s.nextId && IdsOk(s1.bps, s1.nextId)
      && RemoveSoftBp(s1, id) == s.(nextId := s.nextId + 1)
  {
    var (s1, id) := SetSoftBp(s, a);
    assert s1.bps == s.bps[a := SoftBp(id, a, s.tracee.mem[a], true)];
    assert HeldAt(s1.bps, id, a);
    var b :| HeldAt(s1.bps, id, b) && RemoveSoftBp(s1, id) == DropBp(s1, b);
    assert HeldAt(s1.bps, id, b) && s1.bps[b].id == id;
    assert b == a;
    assert s1.bps - {a} == s.bps;
    assert DropBp(s1, a).tracee.mem == s.tracee.mem;
  }
}
