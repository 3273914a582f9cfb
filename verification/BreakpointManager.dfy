/** The breakpoint table and the recording of hits. Recording takes the lock twice, and between the
    two sections (while the user's condition is evaluated) any other call may run. */
module BreakpointManager {

  import Text

  datatype Breakpoint = Breakpoint(
    id: int,
    address: nat,
    hardware: bool,
    hwRegister: int,
    enabled: bool,
    oneShot: bool,
    threadFilter: nat,
    condition: string,
    hitCount: int)

  datatype Hit = Hit(address: nat, rip: nat, tid: nat)

  /** Evaluating a condition: a deterministic function of the breakpoint and the hit. */
  type Condition = (Breakpoint, Hit) -> bool

  datatype Table = Table(bps: seq<Breakpoint>, log: map<int, seq<Hit>>, nextId: int)

  const LOG_CAP: nat := 10000
  const LOG_DROP: nat := 5000
  const HW_REGISTERS: nat := 4

  // ----- the operations, each one critical section -----

  /** The first breakpoint with this id, or the number of breakpoints. */
  function IndexOf(bps: seq<Breakpoint>, id: int): (i: nat)
    ensures i <= |bps|
    ensures i < |bps| ==> bps[i].id == id
    ensures forall j :: 0 <= j < i ==> bps[j].id != id
  {
    if bps == [] || bps[0].id == id then 0 else IndexOf(bps[1..], id) + 1
  }

  predicate RegisterUsed(bps: seq<Breakpoint>, r: int) {
    exists i :: 0 <= i < |bps| && bps[i].enabled && bps[i].hwRegister == r
  }

  function FreeRegisterFrom(bps: seq<Breakpoint>, r: nat): int
    decreases HW_REGISTERS - r
  {
    if r >= HW_REGISTERS then -1 else if !RegisterUsed(bps, r) then r else FreeRegisterFrom(bps, r + 1)
  }

  function Stored(t: Table, b: Breakpoint): Breakpoint {
    b.(id := t.nextId,
       hwRegister := if b.hardware && b.hwRegister < 0 then FreeRegisterFrom(t.bps, 0) else b.hwRegister)
  }

  function Add(t: Table, b: Breakpoint): Table {
    t.(bps := t.bps + [Stored(t, b)], nextId := t.nextId + 1)
  }

  function Without(bps: seq<Breakpoint>, id: int): seq<Breakpoint> {
    if bps == [] then [] else (if bps[0].id == id then [] else [bps[0]]) + Without(bps[1..], id)
  }

  function Remove(t: Table, id: int): Table {
    t.(bps := Without(t.bps, id), log := t.log - {id})
  }

  function SetEnabled(t: Table, id: int, on: bool): Table {
    var i := IndexOf(t.bps, id);
    if i < |t.bps| then t.(bps := t.bps[i := t.bps[i].(enabled := on)]) else t
  }

  function ClearHits(t: Table, id: int): Table {
    t.(log := t.log - {id})
  }

  /** First section of recording: copy the breakpoint. */
  function Snapshot(t: Table, id: int): Text.Option<Breakpoint> {
    var i := IndexOf(t.bps, id);
    if i < |t.bps| then Text.Some(t.bps[i]) else Text.None
  }

  /** The unlocked decision on the copy. */
  predicate Passes(matches: Condition, b: Breakpoint, h: Hit) {
    b.enabled && (b.threadFilter == 0 || b.threadFilter == h.tid) && matches(b, h)
  }

  function Capped(hits: seq<Hit>): seq<Hit> {
    if |hits| > LOG_CAP then hits[LOG_DROP..] else hits
  }

  function Hits(t: Table, id: int): seq<Hit> {
    if id in t.log then t.log[id] else []
  }

  /** Second section: count, log and, for a one-shot breakpoint, erase. False when it is gone. */
  function Commit(t: Table, id: int, h: Hit): (Table, bool) {
    var i := IndexOf(t.bps, id);
    if i == |t.bps| then (t, false)
    else
      var b := t.bps[i].(hitCount := t.bps[i].hitCount + 1);
      (Table(if b.oneShot then t.bps[..i] + t.bps[i + 1..] else t.bps[i := b],
             t.log[id := Capped(Hits(t, id) + [h])],
             t.nextId),
       true)
  }

  lemma WithoutStep(bps: seq<Breakpoint>, i: nat, id: int)
    requires i < |bps|
    ensures Without(bps[i..], id) == (if bps[i].id == id then [] else [bps[i]]) + Without(bps[i + 1..], id)
  {
    assert bps[i..][1..] == bps[i + 1..];
  }

  lemma WithoutNothing(id: int)
    ensures Without([], id) == []
  {
  }

  // ----- the table as code -----

  class Manager {
    var breakpoints: seq<Breakpoint>
    var hitLog: map<int, seq<Hit>>
    var nextId: int

    constructor ()
      ensures State() == Table([], map[], 1)
    {
      breakpoints, hitLog, nextId := [], map[], 1;
    }

    function State(): Table
      reads this
    {
      Table(breakpoints, hitLog, nextId)
    }

    method Find(id: int) returns (i: nat)
      ensures i == IndexOf(breakpoints, id)
    {
      i := 0;
      while i < |breakpoints| && breakpoints[i].id != id
        invariant i <= |breakpoints|
        invariant IndexOf(breakpoints, id) == i + IndexOf(breakpoints[i..], id)
      {
        i := i + 1;
      }
    }

    /** The smallest debug register no enabled breakpoint holds, or -1 when all four are held. */
    method FindFreeHwRegister() returns (r: int)
      ensures r == FreeRegisterFrom(breakpoints, 0)
      ensures r == -1 ==> forall k :: 0 <= k < HW_REGISTERS ==> RegisterUsed(breakpoints, k)
      ensures r != -1 ==> 0 <= r < HW_REGISTERS && !RegisterUsed(breakpoints, r)
      ensures r != -1 ==> forall k :: 0 <= k < r ==> RegisterUsed(breakpoints, k)
    {
      var used: set<int> := {};
      var i := 0;
      while i < |breakpoints|
        invariant i <= |breakpoints|
        invariant forall k :: 0 <= k < HW_REGISTERS ==> (k in used <==> RegisterUsed(breakpoints[..i], k))
      {
        if breakpoints[i].enabled && 0 <= breakpoints[i].hwRegister < HW_REGISTERS {
          used := used + {breakpoints[i].hwRegister};
        }
        assert forall k :: RegisterUsed(breakpoints[..i + 1], k) <==>
                 RegisterUsed(breakpoints[..i], k) || (breakpoints[i].enabled && breakpoints[i].hwRegister == k)
        by {
          assert breakpoints[..i + 1] == breakpoints[..i] + [breakpoints[i]];
          forall k ensures RegisterUsed(breakpoints[..i + 1], k) <==>
                             RegisterUsed(breakpoints[..i], k) || (breakpoints[i].enabled && breakpoints[i].hwRegister == k)
          {
            assert breakpoints[..i + 1][i] == breakpoints[i];
            if RegisterUsed(breakpoints[..i], k) {
              var j :| 0 <= j < i && breakpoints[..i][j].enabled && breakpoints[..i][j].hwRegister == k;
              assert breakpoints[..i + 1][j] == breakpoints[..i][j];
            }
          }
        }
        i := i + 1;
      }
      assert breakpoints[..i] == breakpoints;
      r := 0;
      while r < HW_REGISTERS
        invariant 0 <= r <= HW_REGISTERS
        invariant forall k :: 0 <= k < r ==> RegisterUsed(breakpoints, k)
        invariant FreeRegisterFrom(breakpoints, r) == FreeRegisterFrom(breakpoints, 0)
      {
        if r !in used {
          return r;
        }
        r := r + 1;
      }
      r := -1;
    }

    method AddBreakpoint(b: Breakpoint) returns (id: int)
      modifies this
      ensures State() == Add(old(State()), b) && id == old(nextId)
    {
      var stored := b.(id := nextId);
      id := nextId;
      nextId := nextId + 1;
      if stored.hardware && stored.hwRegister < 0 {
        var r := FindFreeHwRegister();
        stored := stored.(hwRegister := r);
      }
      breakpoints := breakpoints + [stored];
    }

    method RemoveBreakpoint(id: int)
      modifies this
      ensures State() == Remove(old(State()), id)
    {
      hide Without;
      var kept := [];
      var i := 0;
      assert breakpoints[0..] == breakpoints;
      while i < |breakpoints|
        invariant i <= |breakpoints| && State() == old(State())
        invariant kept + Without(breakpoints[i..], id) == Without(breakpoints, id)
      {
        WithoutStep(breakpoints, i, id);
        ghost var rest := Without(breakpoints[i + 1..], id);
        assert kept + ([breakpoints[i]] + rest) == (kept + [breakpoints[i]]) + rest && [] + rest == rest;
        if breakpoints[i].id != id {
          kept := kept + [breakpoints[i]];
        }
        i := i + 1;
      }
      WithoutNothing(id);
      assert breakpoints[i..] == [] && kept + [] == kept;
      breakpoints := kept;
      hitLog := hitLog - {id};
    }

    method SetBreakpointEnabled(id: int, on: bool)
      modifies this
      ensures State() == SetEnabled(old(State()), id, on)
    {
      var i := Find(id);
      if i < |breakpoints| {
        breakpoints := breakpoints[i := breakpoints[i].(enabled := on)];
      }
    }

    method TakeSnapshot(id: int) returns (b: Text.Option<Breakpoint>)
      ensures b == Snapshot(State(), id)
    {
      var i := Find(id);
      b := if i < |breakpoints| then Text.Some(breakpoints[i]) else Text.None;
    }

    method CommitHit(id: int, h: Hit) returns (delivered: bool)
      modifies this
      ensures (State(), delivered) == Commit(old(State()), id, h)
    {
      var i := Find(id);
      if i == |breakpoints| {
        return false;
      }
      var b := breakpoints[i].(hitCount := breakpoints[i].hitCount + 1);
      breakpoints := breakpoints[i := b];
      var hits := (if id in hitLog then hitLog[id] else []) + [h];
      if |hits| > LOG_CAP {
        hits := hits[LOG_DROP..];
      }
      hitLog := hitLog[id := hits];
      if b.oneShot {
        breakpoints := breakpoints[..i] + breakpoints[i + 1..];
      }
      return true;
    }

    /** recordHit when nothing comes between its two sections. */
    method RecordHit(id: int, h: Hit, matches: Condition) returns (delivered: bool)
      modifies this
      ensures Snapshot(old(State()), id).None? || !Passes(matches, Snapshot(old(State()), id).value, h) ==>
                !delivered && State() == old(State())
      ensures Snapshot(old(State()), id).Some? && Passes(matches, Snapshot(old(State()), id).value, h) ==>
                delivered && State() == Commit(old(State()), id, h).0
    {
      var snapshot := TakeSnapshot(id);
      if snapshot.None? || !snapshot.value.enabled {
        return false;
      }
      var b := snapshot.value;
      if b.threadFilter != 0 && b.threadFilter != h.tid {
        return false;
      }
      if !matches(b, h) {
        return false;
      }
      delivered := CommitHit(id, h);
    }
  }
}
