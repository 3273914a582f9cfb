/** Step Over on a call, Step Out and RunToCursor: the active thread runs the original program, alone, to the first
    place where it has to stop. */
module DebugStepping {
  import opened DebugModel
  import opened DebugTransparency
  import opened DebugEffects

  // ----- the original program, one thread of it -----

  /** Thread `t` runs until it is about to execute at one of the addresses, or for `n` instructions. */
  function Alone<D, R>(p: Program<D, R>, o: Original<D, R>, t: Tid, stops: set<Address>, n: nat): (r: Original<D, R>)
    ensures r.threads.Keys == o.threads.Keys
    decreases n
  {
    if t !in o.threads || o.threads[t].pc in stops || n == 0 then o
    else Alone(p, StepOriginal(p, o, t), t, stops, n - 1)
  }

  /** The instructions it executes meanwhile. */
  function AloneTrace<D, R>(p: Program<D, R>, o: Original<D, R>, t: Tid, stops: set<Address>, n: nat): seq<Retired>
    decreases n
  {
    if t !in o.threads || o.threads[t].pc in stops || n == 0 then []
    else [Retired(t, o.threads[t].pc)] + AloneTrace(p, StepOriginal(p, o, t), t, stops, n - 1)
  }

  /** A text with an int3 exactly at those of the program's instructions, and the others intact. */
  ghost predicate TextFor<D, R>(p: Program<D, R>, mem: Memory, stops: set<Address>) {
    forall a :: a in p.starts ==>
      && a in mem && (mem[a] == INT3 <==> a in stops)
      && (a !in stops ==> AgreeOn(mem, p.code, a, p.length(a)))
  }

  lemma ViewExecuted<D(!new), R(!new)>(p: Program<D, R>, w: Tracee<D, R>, w': Tracee<D, R>, t: Tid)
    requires t in w.threads && !w.threads[t].run.Trapped? && Executed(p, w, w', t)
    ensures View(w') == StepOriginal(p, View(w), t)
  {
    var o, o' := View(w), StepOriginal(p, View(w), t);
    assert o.threads[t] == Core(w.threads[t].regs, w.threads[t].rip);
    assert View(w').threads == o'.threads;
  }

  /** The target has run as the program runs: up to the address where `t` now has to stop, or short of it. */
  ghost predicate RanTo<D, R>(w: Tracee<D, R>, w': Tracee<D, R>, t: Tid, o: Original<D, R>, trace: seq<Retired>)
    requires t in o.threads
  {
    && w'.mem == w.mem && w'.data == o.data && w'.threads.Keys == w.threads.Keys && t in w.threads
    && w'.retired == w.retired + trace
    && (forall u :: u in w.threads && u != t ==> w'.threads[u] == w.threads[u])
    && w'.threads[t].regs == o.threads[t].regs && w'.threads[t].run.Frozen?
  }

  lemma {:induction false} RunAloneIs<D(!new), R(!new)>(p: Program<D, R>, w: Tracee<D, R>, bps: Breakpoints, t: Tid, n: nat,
                                                        stops: set<Address>)
    requires WellFormed(p) && TextFor(p, w.mem, stops)
    requires t in w.threads && w.threads[t].run.Frozen? && w.threads[t].rip in p.starts
    ensures var o := Alone(p, View(w), t, stops, n);
      var w' := RunAlone(p, w, bps, t, n);
      && t in o.threads && RanTo(w, w', t, o, AloneTrace(p, View(w), t, stops, n)) && o.threads[t].pc in p.starts
      && w'.threads[t].rip == if o.threads[t].pc in stops then Next(o.threads[t].pc) else o.threads[t].pc
    decreases n
  {
    hide WellFormed, TextFor, RanTo, Execute, Executed, View, RunAlone, AgreeOn;
    var a := w.threads[t].rip;
    PcIsRip(w, t);
    assert a in w.mem && (w.mem[a] == INT3 <==> a in stops) by { TextAt(p, w.mem, stops, a); }
    if a !in stops && n > 0 {
      var w1 := Execute(p, Expose(w, bps, {t}), t, Frozen);
      TextAt(p, w.mem, stops, a);
      OneMore(p, w, bps, t);
      RunAloneIs(p, w1, bps, t, n - 1, stops);
      RunsOn(p, w, bps, t, n);
      Joined(w, w1, RunAlone(p, w1, bps, t, n - 1), t, a, Alone(p, View(w), t, stops, n),
             AloneTrace(p, View(w1), t, stops, n - 1));
    } else {
      StopsHere(p, w, bps, t, n);
    }
  }

  lemma PcIsRip<D, R>(w: Tracee<D, R>, t: Tid)
    requires t in w.threads && !w.threads[t].run.Trapped?
    ensures t in View(w).threads && View(w).threads[t].pc == w.threads[t].rip
  {
  }

  lemma TextAt<D, R>(p: Program<D, R>, mem: Memory, stops: set<Address>, a: Address)
    requires TextFor(p, mem, stops) && a in p.starts
    ensures a in mem && (mem[a] == INT3 <==> a in stops)
    ensures a !in stops ==> AgreeOn(mem, p.code, a, p.length(a))
  {
  }

  lemma OneMore<D(!new), R(!new)>(p: Program<D, R>, w: Tracee<D, R>, bps: Breakpoints, t: Tid)
    requires WellFormed(p) && t in w.threads && w.threads[t].run.Frozen? && w.threads[t].rip in p.starts
    requires AgreeOn(w.mem, p.code, w.threads[t].rip, p.length(w.threads[t].rip))
    ensures var w1 := Execute(p, Expose(w, bps, {t}), t, Frozen);
      && w1.mem == w.mem && w1.retired == w.retired + [Retired(t, w.threads[t].rip)] && w1.threads.Keys == w.threads.Keys
      && (forall u :: u in w.threads && u != t ==> w1.threads[u] == w.threads[u])
      && w1.threads[t].run.Frozen? && w1.threads[t].rip in p.starts && View(w1) == StepOriginal(p, View(w), t)
  {
    hide WellFormed, AgreeOn;
    var seen := Expose(w, bps, {t});
    var w1 := Execute(p, seen, t, Frozen);
    assert View(seen) == View(w);
    ExecuteIs(p, seen, t, Frozen);
    ViewExecuted(p, seen, w1, t);
    LeadsOn(p, seen, w1, t);
  }

  lemma StopsHere<D, R>(p: Program<D, R>, w: Tracee<D, R>, bps: Breakpoints, t: Tid, n: nat)
    requires t in w.threads && w.threads[t].run.Frozen? && w.threads[t].rip in w.mem
    requires w.mem[w.threads[t].rip] == INT3 || n == 0
    ensures var w' := RunAlone(p, w, bps, t, n);
      && RanTo(w, w', t, View(w), [])
      && w'.threads[t].rip
      == if w.mem[w.threads[t].rip] == INT3 then Next(w.threads[t].rip) else w.threads[t].rip
  {
    assert w.retired + [] == w.retired;
  }

  lemma LeadsOn<D(!new), R(!new)>(p: Program<D, R>, w: Tracee<D, R>, w': Tracee<D, R>, t: Tid)
    requires WellFormed(p) && t in w.threads && w.threads[t].rip in p.starts && Executed(p, w, w', t)
    ensures w'.threads[t].rip in p.starts
  {
  }

  lemma RunsOn<D, R>(p: Program<D, R>, w: Tracee<D, R>, bps: Breakpoints, t: Tid, n: nat)
    requires t in w.threads && n > 0 && !(w.threads[t].rip in w.mem && w.mem[w.threads[t].rip] == INT3)
    ensures RunAlone(p, w, bps, t, n) == RunAlone(p, Execute(p, Expose(w, bps, {t}), t, Frozen), bps, t, n - 1)
  {
  }

  lemma Joined<D, R>(w: Tracee<D, R>, w1: Tracee<D, R>, w2: Tracee<D, R>, t: Tid, a: Address, o: Original<D, R>,
                     rest: seq<Retired>)
    requires t in w.threads && t in o.threads
    requires w1.mem == w.mem && w1.retired == w.retired + [Retired(t, a)] && w1.threads.Keys == w.threads.Keys
    requires forall u :: u in w.threads && u != t ==> w1.threads[u] == w.threads[u]
    requires RanTo(w1, w2, t, o, rest)
    ensures RanTo(w, w2, t, o, [Retired(t, a)] + rest)
  {
  }

  // ----- the step -----

  /** Where the stepping thread has to stop: at every other breakpoint of the user, and at the target, unless that is
      a breakpoint the thread is being stepped off, or has no int3 because it is not mapped. */
  function Stops<D, R>(p: Program<D, R>, s: Session<D, R>, target: Address): set<Address>
    requires s.active in s.tracee.threads
  {
    var rip := s.tracee.threads[s.active].rip;
    set a | a in p.starts &&
      ((Armed(s.bps, a) && a != rip) || (a == target && !Armed(s.bps, target) && WordMapped(s.tracee.mem, target)))
  }

  /** The target cuts no instruction in two. */
  ghost predicate CutsNone<D, R>(p: Program<D, R>, target: Address) {
    forall i :: i in p.starts ==> !(i < target < i + p.length(i))
  }

  /** The text while the thread runs. */
  function SteppingText(mem: Memory, bps: Breakpoints, rip: Address, target: Address): Memory {
    var lifted := if Armed(bps, rip) then Poke(mem, rip, bps[rip].originalByte) else mem;
    if !Armed(bps, target) && WordMapped(lifted, target) then Poke(lifted, target, INT3) else lifted
  }

  lemma SteppingTextAt(code: Memory, mem: Memory, bps: Breakpoints, rip: Address, target: Address)
    requires Overlay(code, mem, bps)
    ensures var m := SteppingText(mem, bps, rip, target);
      && m.Keys == code.Keys
      && forall a :: a in code ==>
           m[a] == if (Armed(bps, a) && a != rip) || (a == target && !Armed(bps, target) && WordMapped(mem, target))
                   then INT3 else code[a]
  {
    var lifted := if Armed(bps, rip) then Poke(mem, rip, bps[rip].originalByte) else mem;
    assert Armed(bps, rip) ==> WordMapped(code, rip) && WordMapped(mem, rip);
    assert lifted.Keys == code.Keys;
    assert WordMapped(lifted, target) <==> WordMapped(mem, target) by {
      assert forall b :: b in lifted.Keys <==> b in mem.Keys;
    }
    assert WordMapped(lifted, target) ==> target in lifted;
  }

  lemma SteppingTextFor<D(!new), R(!new)>(p: Program<D, R>, s: Session<D, R>, target: Address)
    requires WellFormed(p) && Overlay(p.code, s.tracee.mem, s.bps) && AllSafe(p, s.bps) && CutsNone(p, target)
    requires s.active in s.tracee.threads
    ensures TextFor(p, SteppingText(s.tracee.mem, s.bps, s.tracee.threads[s.active].rip, target), Stops(p, s, target))
  {
    var rip := s.tracee.threads[s.active].rip;
    var m := SteppingText(s.tracee.mem, s.bps, rip, target);
    SteppingTextAt(p.code, s.tracee.mem, s.bps, rip, target);
    hide SteppingText, Overlay;
    forall a | a in p.starts
      ensures a in m && (m[a] == INT3 <==> a in Stops(p, s, target))
      ensures a !in Stops(p, s, target) ==> AgreeOn(m, p.code, a, p.length(a))
    {
      StartMapped(p, a);
      if a !in Stops(p, s, target) {
        forall b | a <= b < a + p.length(a) ensures b in m && b in p.code && m[b] == p.code[b] {
          assert AgreeOn(p.code, p.code, a, p.length(a));
          assert b in s.bps ==> Safe(p, b);
        }
      }
    }
  }

  /** A step to `target` runs the original program in the active thread, alone and from where it stands, to the first
      instruction at which it has to stop, unless it is interrupted first. Stopped at the target, the thread is held on
      it; stopped at a breakpoint of the user on the way, one byte past it; interrupted, where it is, if that is not
      one byte past the target. */
  lemma StepToIsRun<D(!new), R(!new)>(p: Program<D, R>, s: Session<D, R>, target: Address, n: nat)
    requires WellFormed(p) && Good(p, s) && s.stopped && CutsNone(p, target) && target < ADDRESS_SPACE
    ensures var t, stops := s.active, Stops(p, s, target);
      var o := Alone(p, View(s.tracee), t, stops, n);
      var s' := StepTo(p, s, target, n);
      && t in o.threads && RanTo(s.tracee, s'.tracee, t, o, AloneTrace(p, View(s.tracee), t, stops, n))
      && s' == s.(tracee := s'.tracee)
      && var pc, rip := o.threads[t].pc, s'.tracee.threads[t].rip;
         && (pc in stops ==> rip == if pc == target then target else Next(pc))
         && (pc !in stops && pc != Next(target) ==> rip == pc)
  {
    hide WellFormed, Guarded, AllSafe, Overlay, CutsNone, RunAlone;
    var t, stops := s.active, Stops(p, s, target);
    var rip := s.tracee.threads[t].rip;
    assert ThreadOk(p.starts, s.bps, s.tracee.threads[t]);
    SteppingTextFor(p, s, target);
    var w := s.tracee.(mem := SteppingText(s.tracee.mem, s.bps, rip, target));
    assert View(w) == View(s.tracee);
    RunAloneIs(p, w, s.bps, t, n, stops);
    StepToKeepsOverlay(p, s, target, n);
    StartsInSpace(p);
    hide TextFor, View, SteppingText, Stops;
    var ran := RunAlone(p, w, s.bps, t, n);
    StepToIs(p, s, target, n, ran);
    RanBack(s.tracee, w, ran, StepTo(p, s, target, n).tracee, t, Alone(p, View(s.tracee), t, stops, n),
            AloneTrace(p, View(s.tracee), t, stops, n));
  }

  lemma StartsInSpace<D(!new), R(!new)>(p: Program<D, R>)
    requires WellFormed(p)
    ensures forall a :: a in p.starts ==> a < ADDRESS_SPACE
  {
  }

  lemma StepToIs<D, R>(p: Program<D, R>, s: Session<D, R>, target: Address, n: nat, ran: Tracee<D, R>)
    requires s.active in s.tracee.threads
    requires var rip := s.tracee.threads[s.active].rip;
      ran == RunAlone(p, s.tracee.(mem := SteppingText(s.tracee.mem, s.bps, rip, target)), s.bps, s.active, n)
    ensures var s' := StepTo(p, s, target, n);
      && s' == s.(tracee := s'.tracee)
      && s'.tracee == (if ran.threads[s.active].rip == Next(target) then SetRip(ran, s.active, target) else ran)
                        .(mem := s'.tracee.mem)
  {
    hide RunAlone, Poke, Armed, WordMapped;
  }

  lemma RanBack<D, R>(w0: Tracee<D, R>, w: Tracee<D, R>, ran: Tracee<D, R>, w': Tracee<D, R>, t: Tid, o: Original<D, R>,
                      trace: seq<Retired>)
    requires t in o.threads && RanTo(w, ran, t, o, trace) && w == w0.(mem := w.mem)
    requires w'.mem == w0.mem && w'.data == ran.data && w'.retired == ran.retired
    requires w'.threads.Keys == ran.threads.Keys
    requires forall u :: u in ran.threads && u != t ==> w'.threads[u] == ran.threads[u]
    requires w'.threads[t].regs == ran.threads[t].regs && w'.threads[t].run == ran.threads[t].run
    ensures RanTo(w0, w', t, o, trace)
  {
  }
}
