/** Recording of hits under concurrency: any number of recordHit calls, each split at the gap between
    its two critical sections, interleaved with every other operation on the table. */
module BreakpointRuns {
  import opened BreakpointManager

  type CallId = nat

  /** A recordHit call inside the gap (it copied an enabled, matching breakpoint) or finished. */
  datatype Call = Pending(id: int, hit: Hit) | Done(id: int, delivered: bool)

  /** A delivered hit: which call, for which breakpoint. */
  datatype Delivery = Delivery(call: CallId, id: int, hit: Hit)

  /** `added` remembers every breakpoint as it was stored, `delivered` every accepted hit in order,
      and `since` the hits accepted for each id since its log was last cleared. */
  datatype System = System(
    table: Table,
    calls: map<CallId, Call>,
    added: map<int, Breakpoint>,
    delivered: seq<Delivery>,
    since: map<int, seq<Hit>>)

  datatype Step =
    | AddStep(b: Breakpoint)
    | RemoveStep(id: int)
    | EnableStep(id: int, on: bool)
    | ClearStep(id: int)
    | FirstSection(call: CallId, id: int, hit: Hit)
    | SecondSection(call: CallId)

  const Start: System := System(Table([], map[], 1), map[], map[], [], map[])

  function Since(s: System, id: int): seq<Hit> {
    if id in s.since then s.since[id] else []
  }

  function First(matches: Condition, s: System, c: CallId, id: int, h: Hit): System {
    if c in s.calls then s else
    var snapshot := Snapshot(s.table, id);
    s.(calls := s.calls[c := if snapshot.Some? && Passes(matches, snapshot.value, h)
                             then Pending(id, h) else Done(id, false)])
  }

  function Second(s: System, c: CallId): System {
    if c !in s.calls || s.calls[c].Done? then s else
    var id, h := s.calls[c].id, s.calls[c].hit;
    var (table, ok) := Commit(s.table, id, h);
    if !ok then s.(calls := s.calls[c := Done(id, false)])
    else s.(table := table, calls := s.calls[c := Done(id, true)],
            delivered := s.delivered + [Delivery(c, id, h)],
            since := s.since[id := Since(s, id) + [h]])
  }

  function Next(matches: Condition, s: System, step: Step): System {
    match step
    case AddStep(b) =>
      s.(table := Add(s.table, b), added := s.added[s.table.nextId := Stored(s.table, b)])
    case RemoveStep(id) => s.(table := Remove(s.table, id), since := s.since - {id})
    case EnableStep(id, on) => s.(table := SetEnabled(s.table, id, on))
    case ClearStep(id) => s.(table := ClearHits(s.table, id), since := s.since - {id})
    case FirstSection(c, id, h) => First(matches, s, c, id, h)
    case SecondSection(c) => Second(s, c)
  }

  function Run(matches: Condition, s: System, steps: seq<Step>): System
    decreases |steps|
  {
    if steps == [] then s else Run(matches, Next(matches, s, steps[0]), steps[1..])
  }

  // ----- what every step keeps -----

  /** The hits delivered for `id`, oldest first. */
  function HitsOf(ds: seq<Delivery>, id: int): seq<Hit>
    decreases |ds|
  {
    if ds == [] then [] else
    HitsOf(ds[..|ds| - 1], id) + (if ds[|ds| - 1].id == id then [ds[|ds| - 1].hit] else [])
  }

  ghost predicate IsSuffix(a: seq<Hit>, b: seq<Hit>) {
    |a| <= |b| && forall i :: 0 <= i < |a| ==> a[i] == b[|b| - |a| + i]
  }

  /** Ids are unique and never reused, and a breakpoint keeps what it was stored with. */
  ghost predicate IdsOk(s: System) {
    && (forall i, j :: 0 <= i < j < |s.table.bps| ==> s.table.bps[i].id != s.table.bps[j].id)
    && (forall i :: 0 <= i < |s.table.bps| ==> s.table.bps[i].id in s.added)
    && (forall i :: 0 <= i < |s.table.bps| ==> s.table.bps[i].oneShot == s.added[s.table.bps[i].id].oneShot)
    && (forall id :: id in s.added ==> id < s.table.nextId)
    && (forall i :: 0 <= i < |s.delivered| ==> s.delivered[i].id in s.added)
    && (forall c :: c in s.calls && s.calls[c].Pending? ==> s.calls[c].id in s.added)
  }

  /** A breakpoint still in the table has counted exactly its delivered hits; a one-shot one has none,
      and one that is gone has at most one. */
  ghost predicate CountsOk(s: System) {
    && (forall i :: 0 <= i < |s.table.bps| ==>
          var b := s.table.bps[i];
          b.id in s.added && b.hitCount == s.added[b.id].hitCount + |HitsOf(s.delivered, b.id)|
          && (b.oneShot ==> HitsOf(s.delivered, b.id) == []))
    && (forall id :: id in s.added && s.added[id].oneShot ==> |HitsOf(s.delivered, id)| <= 1)
  }

  /** A log holds at most the cap, and the most recent of the hits since it was last cleared. */
  ghost predicate LogOk(log: seq<Hit>, since: seq<Hit>, all: seq<Hit>) {
    |log| <= LOG_CAP && IsSuffix(log, since) && IsSuffix(since, all)
  }

  ghost predicate LogsOk(s: System) {
    forall id :: LogOk(Hits(s.table, id), Since(s, id), HitsOf(s.delivered, id))
  }

  /** A call is finished with `true` exactly when it delivered, and it delivers at most once. */
  ghost predicate CallsOk(s: System) {
    && (forall i :: 0 <= i < |s.delivered| ==>
          s.delivered[i].call in s.calls && s.calls[s.delivered[i].call] == Done(s.delivered[i].id, true))
    && (forall i, j :: 0 <= i < j < |s.delivered| ==> s.delivered[i].call != s.delivered[j].call)
    && (forall c :: c in s.calls && s.calls[c].Done? && s.calls[c].delivered ==>
          exists i :: 0 <= i < |s.delivered| && s.delivered[i].call == c)
  }

  ghost predicate Inv(s: System) {
    IdsOk(s) && CountsOk(s) && LogsOk(s) && CallsOk(s)
  }

  lemma HitsOfOne(ds: seq<Delivery>, d: Delivery, id: int)
    ensures HitsOf(ds + [d], id) == HitsOf(ds, id) + if d.id == id then [d.hit] else []
  {
    assert (ds + [d])[..|ds|] == ds;
  }

  lemma {:induction false} NoHits(ds: seq<Delivery>, id: int)
    requires forall i :: 0 <= i < |ds| ==> ds[i].id != id
    ensures HitsOf(ds, id) == []
    decreases |ds|
  {
    if ds != [] {
      NoHits(ds[..|ds| - 1], id);
    }
  }

  lemma {:induction false} WithoutKeeps(bps: seq<Breakpoint>, id: int)
    ensures forall i :: 0 <= i < |Without(bps, id)| ==> Without(bps, id)[i] in bps && Without(bps, id)[i].id != id
    ensures (forall i, j :: 0 <= i < j < |bps| ==> bps[i].id != bps[j].id) ==>
              forall i, j :: 0 <= i < j < |Without(bps, id)| ==> Without(bps, id)[i].id != Without(bps, id)[j].id
  {
    if bps != [] {
      WithoutKeeps(bps[1..], id);
      if forall i, j :: 0 <= i < j < |bps| ==> bps[i].id != bps[j].id {
        forall i | 0 <= i < |Without(bps[1..], id)| ensures Without(bps[1..], id)[i].id != bps[0].id {
          assert Without(bps[1..], id)[i] in bps[1..];
        }
      }
    }
  }

  lemma AddKeepsInv(s: System, b: Breakpoint)
    requires Inv(s)
    ensures Inv(Next((x, h) => true, s, AddStep(b)))
  {
    hide LogOk, HitsOf, FreeRegisterFrom;
    assert forall j :: LogOk(Hits(s.table, j), Since(s, j), HitsOf(s.delivered, j));
    var id := s.table.nextId;
    forall i | 0 <= i < |s.delivered| ensures s.delivered[i].id != id {
    }
    NoHits(s.delivered, id);
  }

  lemma RemoveKeepsInv(s: System, id: int)
    requires Inv(s)
    ensures Inv(Next((x, h) => true, s, RemoveStep(id)))
  {
    WithoutKeeps(s.table.bps, id);
    hide LogOk, HitsOf, Without;
    EmptyLogOk(s);
    var s' := Next((x, h) => true, s, RemoveStep(id));
    forall j ensures LogOk(Hits(s'.table, j), Since(s', j), HitsOf(s'.delivered, j)) {
      assert LogOk(Hits(s.table, j), Since(s, j), HitsOf(s.delivered, j));
    }
  }

  lemma EmptyLogOk(s: System)
    ensures forall j :: LogOk([], [], HitsOf(s.delivered, j))
  {
  }

  /** What the second section does to the list: the breakpoint counts once more, or is erased. */
  lemma CommitEffect(t: Table, id: int, h: Hit)
    requires forall i, j :: 0 <= i < j < |t.bps| ==> t.bps[i].id != t.bps[j].id
    requires Commit(t, id, h).1
    ensures var bps := Commit(t, id, h).0.bps;
      var b := t.bps[IndexOf(t.bps, id)];
      && IndexOf(t.bps, id) < |t.bps| && b.id == id
      && (forall i, j :: 0 <= i < j < |bps| ==> bps[i].id != bps[j].id)
      && (forall i :: 0 <= i < |bps| ==>
            (bps[i].id != id && bps[i] in t.bps) || (bps[i] == b.(hitCount := b.hitCount + 1) && !b.oneShot))
  {
    var k := IndexOf(t.bps, id);
    var bps := Commit(t, id, h).0.bps;
    if t.bps[k].oneShot {
      forall i | 0 <= i < |bps| ensures bps[i].id != id && bps[i] in t.bps {
        assert bps[i] == t.bps[if i < k then i else i + 1];
      }
    }
  }

  lemma SecondKeepsIds(s: System, c: CallId)
    requires IdsOk(s) && c in s.calls && s.calls[c].Pending? && Commit(s.table, s.calls[c].id, s.calls[c].hit).1
    ensures IdsOk(Second(s, c))
  {
    CommitEffect(s.table, s.calls[c].id, s.calls[c].hit);
    var s' := Second(s, c);
    var k := IndexOf(s.table.bps, s.calls[c].id);
    forall i | 0 <= i < |s'.table.bps|
      ensures s'.table.bps[i].id in s.added && s'.table.bps[i].oneShot == s.added[s'.table.bps[i].id].oneShot
    {
      assert s'.table.bps[i] in s.table.bps || s'.table.bps[i].id == s.table.bps[k].id;
    }
  }

  lemma SecondKeepsCalls(s: System, c: CallId)
    requires CallsOk(s) && c in s.calls && s.calls[c].Pending?
    ensures CallsOk(Second(s, c))
  {
    hide Commit;
    var s' := Second(s, c);
    forall d | d in s'.calls && s'.calls[d].Done? && s'.calls[d].delivered
      ensures exists i :: 0 <= i < |s'.delivered| && s'.delivered[i].call == d
    {
      if d != c {
        var i :| 0 <= i < |s.delivered| && s.delivered[i].call == d;
        assert s'.delivered[i].call == d;
      } else {
        assert s'.delivered[|s.delivered|].call == c;
      }
    }
  }

  lemma SecondKeepsCounts(s: System, c: CallId)
    requires IdsOk(s) && CountsOk(s) && c in s.calls && s.calls[c].Pending?
    requires Commit(s.table, s.calls[c].id, s.calls[c].hit).1
    ensures CountsOk(Second(s, c))
  {
    var id, h := s.calls[c].id, s.calls[c].hit;
    CommitEffect(s.table, id, h);
    var b := s.table.bps[IndexOf(s.table.bps, id)];
    hide Commit, IndexOf, HitsOf;
    var s' := Second(s, c);
    forall j: int ensures HitsOf(s'.delivered, j) == HitsOf(s.delivered, j) + (if j == id then [h] else []) {
      HitsOfOne(s.delivered, Delivery(c, id, h), j);
    }
    forall j | j in s'.added && s'.added[j].oneShot ensures |HitsOf(s'.delivered, j)| <= 1 {
      if j == id {
        assert b.oneShot && HitsOf(s.delivered, id) == [];
      }
    }
  }

  lemma SecondKeepsLogs(s: System, c: CallId)
    requires LogsOk(s) && c in s.calls && s.calls[c].Pending?
    requires Commit(s.table, s.calls[c].id, s.calls[c].hit).1
    ensures LogsOk(Second(s, c))
  {
    hide HitsOf, LogOk, IndexOf;
    var id, h := s.calls[c].id, s.calls[c].hit;
    var s' := Second(s, c);
    forall j ensures LogOk(Hits(s'.table, j), Since(s', j), HitsOf(s'.delivered, j)) {
      assert LogOk(Hits(s.table, j), Since(s, j), HitsOf(s.delivered, j));
      HitsOfOne(s.delivered, Delivery(c, id, h), j);
      if j == id {
        LogGrows(Hits(s.table, id), Since(s, id), HitsOf(s.delivered, id), h);
      } else {
        assert HitsOf(s.delivered, j) + [] == HitsOf(s.delivered, j);
        assert Hits(s'.table, j) == Hits(s.table, j) && Since(s', j) == Since(s, j);
      }
    }
  }

  lemma LogGrows(log: seq<Hit>, since: seq<Hit>, all: seq<Hit>, h: Hit)
    requires LogOk(log, since, all)
    ensures LogOk(Capped(log + [h]), since + [h], all + [h])
  {
    hide IsSuffix;
    SuffixGrows(log, since, h);
    SuffixGrows(since, all, h);
    if |log + [h]| > LOG_CAP {
      SuffixDrops(log + [h], since + [h], LOG_DROP);
    }
  }

  lemma SuffixGrows(a: seq<Hit>, b: seq<Hit>, h: Hit)
    requires IsSuffix(a, b)
    ensures IsSuffix(a + [h], b + [h])
  {
  }

  lemma SuffixDrops(a: seq<Hit>, b: seq<Hit>, k: nat)
    requires IsSuffix(a, b) && k <= |a|
    ensures IsSuffix(a[k..], b)
  {
  }

  /** The breakpoint went away in the gap: nothing but the call itself changes. */
  lemma LostKeepsInv(s: System, c: CallId)
    requires Inv(s) && c in s.calls && s.calls[c].Pending?
    requires !Commit(s.table, s.calls[c].id, s.calls[c].hit).1
    ensures IdsOk(Second(s, c)) && CountsOk(Second(s, c)) && LogsOk(Second(s, c))
  {
    var s' := Second(s, c);
    assert s' == s.(calls := s'.calls);
    hide CountsOk, LogsOk, Second, Commit;
    SameRest(s, s');
  }

  lemma SecondKeepsInv(s: System, c: CallId)
    requires Inv(s)
    ensures Inv(Second(s, c))
  {
    hide IdsOk, CallsOk, CountsOk, LogOk, HitsOf, IndexOf;
    if c in s.calls && s.calls[c].Pending? {
      SecondKeepsCalls(s, c);
      if Commit(s.table, s.calls[c].id, s.calls[c].hit).1 {
        SecondKeepsIds(s, c);
        SecondKeepsCounts(s, c);
        SecondKeepsLogs(s, c);
      } else {
        LostKeepsInv(s, c);
      }
    }
  }

  lemma EnableKeepsInv(s: System, id: int, on: bool)
    requires Inv(s)
    ensures Inv(Next((x, h) => true, s, EnableStep(id, on)))
  {
    hide CallsOk, LogsOk, HitsOf;
    var s' := Next((x, h) => true, s, EnableStep(id, on));
    assert forall i :: 0 <= i < |s.table.bps| ==> s'.table.bps[i].(enabled := s.table.bps[i].enabled) == s.table.bps[i];
    assert LogsOk(s') && CallsOk(s') by { SameLogs(s, s'); }
  }

  lemma SameLogs(s: System, s': System)
    requires LogsOk(s) && CallsOk(s) && s' == s.(table := s'.table) && s'.table.log == s.table.log
    ensures LogsOk(s') && CallsOk(s')
  {
    hide LogOk, HitsOf;
    forall j ensures LogOk(Hits(s'.table, j), Since(s', j), HitsOf(s'.delivered, j)) {
      assert LogOk(Hits(s.table, j), Since(s, j), HitsOf(s.delivered, j));
    }
  }

  lemma FirstKeepsInv(matches: Condition, s: System, c: CallId, id: int, h: Hit)
    requires Inv(s)
    ensures Inv(First(matches, s, c, id, h))
  {
    hide CountsOk, LogsOk, IdsOk, CallsOk, First, IndexOf;
    if c !in s.calls {
      var call := FirstIs(matches, s, c, id, h);
      CallAdded(s, c, call);
      SameRest(s, First(matches, s, c, id, h));
    } else {
      assert First(matches, s, c, id, h) == s by { KnownCall(matches, s, c, id, h); }
    }
  }

  lemma KnownCall(matches: Condition, s: System, c: CallId, id: int, h: Hit)
    requires c in s.calls
    ensures First(matches, s, c, id, h) == s
  {
  }

  lemma FirstIs(matches: Condition, s: System, c: CallId, id: int, h: Hit) returns (call: Call)
    requires IdsOk(s) && c !in s.calls
    ensures First(matches, s, c, id, h) == s.(calls := s.calls[c := call])
    ensures call.Done? ==> !call.delivered
    ensures call.Pending? ==> call.id in s.added
  {
    hide Passes;
    var snapshot := Snapshot(s.table, id);
    call := if snapshot.Some? && Passes(matches, snapshot.value, h) then Pending(id, h) else Done(id, false);
  }

  /** A call that has delivered nothing changes nothing but the list of calls. */
  lemma CallAdded(s: System, c: CallId, call: Call)
    requires IdsOk(s) && CallsOk(s) && c !in s.calls
    requires (call.Done? ==> !call.delivered) && (call.Pending? ==> call.id in s.added)
    ensures var s' := s.(calls := s.calls[c := call]); IdsOk(s') && CallsOk(s')
  {
    var s' := s.(calls := s.calls[c := call]);
    forall d | d in s'.calls && s'.calls[d].Done? && s'.calls[d].delivered
      ensures exists i :: 0 <= i < |s'.delivered| && s'.delivered[i].call == d
    {
      assert d in s.calls;
    }
  }

  lemma SameRest(s: System, s': System)
    requires CountsOk(s) && LogsOk(s) && s' == s.(calls := s'.calls)
    ensures CountsOk(s') && LogsOk(s')
  {
    hide LogOk, HitsOf;
    forall j ensures LogOk(Hits(s'.table, j), Since(s', j), HitsOf(s'.delivered, j)) {
      assert LogOk(Hits(s.table, j), Since(s, j), HitsOf(s.delivered, j));
    }
  }

  lemma ClearKeepsInv(s: System, id: int)
    requires Inv(s)
    ensures Inv(Next((x, h) => true, s, ClearStep(id)))
  {
    hide LogOk, HitsOf;
    EmptyLogOk(s);
    var s' := Next((x, h) => true, s, ClearStep(id));
    forall j ensures LogOk(Hits(s'.table, j), Since(s', j), HitsOf(s'.delivered, j)) {
      assert LogOk(Hits(s.table, j), Since(s, j), HitsOf(s.delivered, j));
    }
  }

  lemma NextKeepsInv(matches: Condition, s: System, step: Step)
    requires Inv(s)
    ensures Inv(Next(matches, s, step))
  {
    hide Inv, First, Second;
    match step {
      case AddStep(b) => AddKeepsInv(s, b);
      case RemoveStep(id) => RemoveKeepsInv(s, id);
      case EnableStep(id, on) => EnableKeepsInv(s, id, on);
      case ClearStep(id) => ClearKeepsInv(s, id);
      case FirstSection(c, id, h) => FirstKeepsInv(matches, s, c, id, h);
      case SecondSection(c) => SecondKeepsInv(s, c);
    }
  }

  lemma {:induction false} RunKeepsInv(matches: Condition, s: System, steps: seq<Step>)
    requires Inv(s)
    ensures Inv(Run(matches, s, steps))
    decreases |steps|
  {
    hide Inv, Next;
    if steps != [] {
      NextKeepsInv(matches, s, steps[0]);
      RunKeepsInv(matches, Next(matches, s, steps[0]), steps[1..]);
    }
  }

  // ----- what follows for whole runs -----

  lemma {:induction false} DeliveredHits(ds: seq<Delivery>, id: int, i: nat, j: nat)
    requires i < j < |ds| && ds[i].id == id && ds[j].id == id
    ensures |HitsOf(ds, id)| >= 2
    decreases |ds|
  {
    if j < |ds| - 1 {
      DeliveredHits(ds[..|ds| - 1], id, i, j);
    } else {
      DeliveredOne(ds[..j], id, i);
    }
  }

  lemma {:induction false} DeliveredOne(ds: seq<Delivery>, id: int, i: nat)
    requires i < |ds| && ds[i].id == id
    ensures |HitsOf(ds, id)| >= 1
    decreases |ds|
  {
    if i < |ds| - 1 {
      DeliveredOne(ds[..|ds| - 1], id, i);
    }
  }

  /** At most one recordHit on a one-shot breakpoint returns true. */
  lemma OneShotDeliversOnce(matches: Condition, steps: seq<Step>, c: CallId, d: CallId)
    requires var s := Run(matches, Start, steps);
      && c in s.calls && d in s.calls && s.calls[c].Done? && s.calls[d].Done?
      && s.calls[c].delivered && s.calls[d].delivered && s.calls[c].id == s.calls[d].id
      && s.calls[c].id in s.added && s.added[s.calls[c].id].oneShot
    ensures c == d
  {
    RunKeepsInv(matches, Start, steps);
    var s := Run(matches, Start, steps);
    var i :| 0 <= i < |s.delivered| && s.delivered[i].call == c;
    var j :| 0 <= j < |s.delivered| && s.delivered[j].call == d;
    if i < j {
      DeliveredHits(s.delivered, s.calls[c].id, i, j);
    } else if j < i {
      DeliveredHits(s.delivered, s.calls[c].id, j, i);
    }
  }

  /** The hit count of a breakpoint still in the table is what it was added with plus the number of
      calls that returned true for it. */
  lemma HitCountIsDeliveries(matches: Condition, steps: seq<Step>, i: nat)
    requires i < |Run(matches, Start, steps).table.bps|
    ensures var s := Run(matches, Start, steps);
      var b := s.table.bps[i];
      b.id in s.added && b.hitCount == s.added[b.id].hitCount + |HitsOf(s.delivered, b.id)|
  {
    RunKeepsInv(matches, Start, steps);
  }

  /** A hit log never exceeds its cap, and it holds the most recent deliveries in order. */
  lemma LogIsRecentDeliveries(matches: Condition, steps: seq<Step>, id: int)
    ensures var s := Run(matches, Start, steps);
      && |Hits(s.table, id)| <= LOG_CAP
      && IsSuffix(Hits(s.table, id), Since(s, id)) && IsSuffix(Since(s, id), HitsOf(s.delivered, id))
  {
    RunKeepsInv(matches, Start, steps);
    assert LogOk(Hits(Run(matches, Start, steps).table, id), Since(Run(matches, Start, steps), id),
                 HitsOf(Run(matches, Start, steps).delivered, id));
  }

  /** What decides a call in the gap is only whether the breakpoint is still there: disabling it in
      between does not stop the delivery, removing it does. */
  lemma GapDecision(s: System, c: CallId)
    requires c in s.calls && s.calls[c].Pending?
    ensures Second(s, c).calls[c] == Done(s.calls[c].id, exists i :: 0 <= i < |s.table.bps| && s.table.bps[i].id == s.calls[c].id)
  {
    var id := s.calls[c].id;
    if IndexOf(s.table.bps, id) < |s.table.bps| {
      assert s.table.bps[IndexOf(s.table.bps, id)].id == id;
    }
  }

  /** A concrete run in which a hit is delivered although its breakpoint was disabled before. */
  lemma DisabledYetDelivered(b: Breakpoint, h: Hit, always: Condition)
    requires b.enabled && b.threadFilter == 0 && !b.hardware && forall x, y :: always(x, y)
    ensures Run(always, Start, [AddStep(b), FirstSection(0, 1, h), EnableStep(1, false), SecondSection(0)]).calls
              == map[0 := Done(1, true)]
  {
    var steps := [AddStep(b), FirstSection(0, 1, h), EnableStep(1, false), SecondSection(0)];
    var s1 := Next(always, Start, steps[0]);
    assert s1.table.bps == [b.(id := 1)];
    var s2 := Next(always, s1, steps[1]);
    assert s2.calls == map[0 := Pending(1, h)];
    var s3 := Next(always, s2, steps[2]);
    assert s3.table.bps == [b.(id := 1, enabled := false)];
    var s4 := Next(always, s3, steps[3]);
    hide Next;
    assert steps[1..][1..][1..][1..] == [];
    assert Run(always, s3, steps[1..][1..][1..]) == s4;
    assert Run(always, Start, steps) == Run(always, s1, steps[1..]) == Run(always, s2, steps[1..][1..]) == s4;
  }
}
