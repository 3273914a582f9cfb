/** Which hits are delivered: those of an enabled breakpoint whose thread filter and condition they meet, and no
    others. */
module BreakpointFilters {
  import opened BreakpointManager
  import opened BreakpointRuns
  import Text

  /** The breakpoint is for every thread, or for the one that hit it. */
  predicate ForThread(b: Breakpoint, h: Hit) {
    b.threadFilter == 0 || b.threadFilter == h.tid
  }

  ghost predicate FiltersOk(s: System) {
    && (forall i :: 0 <= i < |s.table.bps| ==>
          s.table.bps[i].id in s.added && s.table.bps[i].threadFilter == s.added[s.table.bps[i].id].threadFilter)
    && (forall c :: c in s.calls && s.calls[c].Pending? ==>
          s.calls[c].id in s.added && ForThread(s.added[s.calls[c].id], s.calls[c].hit))
    && (forall i :: 0 <= i < |s.delivered| ==>
          s.delivered[i].id in s.added && ForThread(s.added[s.delivered[i].id], s.delivered[i].hit))
  }

  lemma AddKeepsFilters(matches: Condition, s: System, b: Breakpoint)
    requires Inv(s) && FiltersOk(s)
    ensures FiltersOk(Next(matches, s, AddStep(b)))
  {
    hide CountsOk, LogsOk, CallsOk, FreeRegisterFrom;
  }

  lemma RemoveKeepsFilters(matches: Condition, s: System, id: int)
    requires FiltersOk(s)
    ensures FiltersOk(Next(matches, s, RemoveStep(id)))
  {
    hide Without;
    WithoutKeeps(s.table.bps, id);
    forall i | 0 <= i < |Without(s.table.bps, id)| ensures Without(s.table.bps, id)[i] in s.table.bps {
    }
  }

  lemma FirstKeepsFilters(matches: Condition, s: System, c: CallId, id: int, h: Hit)
    requires FiltersOk(s)
    ensures FiltersOk(First(matches, s, c, id, h))
  {
    hide IndexOf;
  }

  lemma SecondKeepsFilters(s: System, c: CallId)
    requires Inv(s) && FiltersOk(s)
    ensures FiltersOk(Second(s, c))
  {
    hide CountsOk, LogsOk, CallsOk, Capped, Hits;
    if c in s.calls && s.calls[c].Pending? && Commit(s.table, s.calls[c].id, s.calls[c].hit).1 {
      CommitEffect(s.table, s.calls[c].id, s.calls[c].hit);
      hide Commit, IndexOf;
      var bps := Commit(s.table, s.calls[c].id, s.calls[c].hit).0.bps;
      forall i | 0 <= i < |bps|
        ensures bps[i].id in s.added && bps[i].threadFilter == s.added[bps[i].id].threadFilter
      {
        if bps[i] in s.table.bps {
          var k :| 0 <= k < |s.table.bps| && s.table.bps[k] == bps[i];
        }
      }
    }
  }

  lemma {:induction false} RunKeepsFilters(matches: Condition, s: System, steps: seq<Step>)
    requires Inv(s) && FiltersOk(s)
    ensures FiltersOk(Run(matches, s, steps))
    decreases |steps|
  {
    hide Inv, FiltersOk, First, Second, SetEnabled, ClearHits;
    if steps != [] {
      NextKeepsInv(matches, s, steps[0]);
      match steps[0] {
        case AddStep(b) => AddKeepsFilters(matches, s, b);
        case RemoveStep(id) => RemoveKeepsFilters(matches, s, id);
        case EnableStep(id, on) => EnableKeepsFilters(matches, s, id, on);
        case ClearStep(id) => ClearKeepsFilters(matches, s, id);
        case FirstSection(c, id, h) => FirstKeepsFilters(matches, s, c, id, h);
        case SecondSection(c) => SecondKeepsFilters(s, c);
      }
      RunKeepsFilters(matches, Next(matches, s, steps[0]), steps[1..]);
    }
  }

  lemma EnableKeepsFilters(matches: Condition, s: System, id: int, on: bool)
    requires FiltersOk(s)
    ensures FiltersOk(Next(matches, s, EnableStep(id, on)))
  {
  }

  lemma ClearKeepsFilters(matches: Condition, s: System, id: int)
    requires FiltersOk(s)
    ensures FiltersOk(Next(matches, s, ClearStep(id)))
  {
  }

  /** Under every interleaving, a breakpoint with a thread filter delivers hits of that thread only. */
  lemma OnlyFilteredThread(matches: Condition, steps: seq<Step>, i: nat)
    requires i < |Run(matches, Start, steps).delivered|
    ensures var s := Run(matches, Start, steps);
            s.delivered[i].id in s.added && ForThread(s.added[s.delivered[i].id], s.delivered[i].hit)
  {
    StartIsInv();
    RunKeepsFilters(matches, Start, steps);
  }

  lemma StartIsInv()
    ensures Inv(Start) && FiltersOk(Start)
  {
  }

  /** A call that nothing interrupts delivers its hit exactly when the breakpoint is there, enabled, for that thread,
      and its condition holds; otherwise the table stays as it is. */
  lemma HitIsDeliveredIff(matches: Condition, s: System, c: CallId, i: nat, h: Hit)
    requires Inv(s) && c !in s.calls && i < |s.table.bps|
    ensures var b := s.table.bps[i];
            var s' := Next(matches, Next(matches, s, FirstSection(c, b.id, h)), SecondSection(c));
            var passes := b.enabled && (b.threadFilter == 0 || b.threadFilter == h.tid) && matches(b, h);
            && c in s'.calls && s'.calls[c] == Done(b.id, passes)
            && s'.delivered == s.delivered + (if passes then [Delivery(c, b.id, h)] else [])
            && (!passes ==> s'.table == s.table)
  {
    hide CountsOk, LogsOk, CallsOk, Capped, Hits;
    var b := s.table.bps[i];
    assert IndexOf(s.table.bps, b.id) == i;
    hide IndexOf;
    assert s.delivered + [] == s.delivered;
  }

  /** A breakpoint that is not there delivers nothing. */
  lemma UnknownIsNotDelivered(matches: Condition, s: System, c: CallId, id: int, h: Hit)
    requires c !in s.calls && forall i :: 0 <= i < |s.table.bps| ==> s.table.bps[i].id != id
    ensures var s' := Next(matches, Next(matches, s, FirstSection(c, id, h)), SecondSection(c));
            s'.delivered == s.delivered && s'.table == s.table && s'.calls == s.calls[c := Done(id, false)]
  {
    assert IndexOf(s.table.bps, id) == |s.table.bps|;
  }

  /** Enabling and disabling reach the breakpoint of that id and nothing else of the table. */
  lemma EnablingIs(t: Table, i: nat, on: bool)
    requires i < |t.bps| && forall j, k :: 0 <= j < k < |t.bps| ==> t.bps[j].id != t.bps[k].id
    ensures SetEnabled(t, t.bps[i].id, on) == t.(bps := t.bps[i := t.bps[i].(enabled := on)])
  {
    assert IndexOf(t.bps, t.bps[i].id) == i;
  }

  /** Adding puts the breakpoint behind the others, under an id above all earlier ones. One that asks for a debug
      register gets the lowest that no enabled breakpoint holds, or none when all four are held; any other keeps what
      it came with. */
  lemma AddingIs(t: Table, b: Breakpoint)
    ensures var t' := Add(t, b);
            && |t'.bps| == |t.bps| + 1 && t'.bps[..|t.bps|] == t.bps && t'.log == t.log && t'.nextId == t.nextId + 1
            && var stored := t'.bps[|t.bps|];
               && stored == b.(id := t.nextId, hwRegister := stored.hwRegister)
               && (!(b.hardware && b.hwRegister < 0) ==> stored.hwRegister == b.hwRegister)
               && (b.hardware && b.hwRegister < 0 ==>
                     LowestFree(t.bps, stored.hwRegister) ||
                     (stored.hwRegister == -1 && forall r :: 0 <= r < HW_REGISTERS ==> RegisterUsed(t.bps, r)))
  {
    FreeRegisterIs(t.bps, 0);
  }

  predicate LowestFree(bps: seq<Breakpoint>, r: int) {
    0 <= r < HW_REGISTERS && !RegisterUsed(bps, r) && forall k :: 0 <= k < r ==> RegisterUsed(bps, k)
  }

  lemma {:induction false} FreeRegisterIs(bps: seq<Breakpoint>, r: nat)
    requires r <= HW_REGISTERS && forall k :: 0 <= k < r ==> RegisterUsed(bps, k)
    ensures var f := FreeRegisterFrom(bps, r);
            LowestFree(bps, f) || (f == -1 && forall k :: 0 <= k < HW_REGISTERS ==> RegisterUsed(bps, k))
    decreases HW_REGISTERS - r
  {
    hide RegisterUsed;
    if r < HW_REGISTERS && RegisterUsed(bps, r) {
      FreeRegisterIs(bps, r + 1);
    }
  }
}
