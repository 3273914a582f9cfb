/** How an activated script is undone: every patch first logs the bytes it is about to replace, and
    rollback and disable write the log back in reverse and free the caves. */
module UndoLog {
  import opened Text
  import ByteSeqs

  type Byte = ByteSeqs.Byte
  type Memory = map<nat, Byte>

  datatype Original = Original(address: nat, bytes: seq<Byte>)

  datatype Alloc = Alloc(name: string, address: nat, size: nat)

  /** The target's memory and what is writable in it, the log and the caves of this activation, and
      the caves known by name to every script. */
  datatype State = State(
    mem: Memory,
    writable: set<nat>,
    originals: seq<Original>,
    allocs: seq<Alloc>,
    known: map<string, Alloc>)

  function Range(a: nat, n: nat): (r: set<nat>)
    ensures forall x :: x in r <==> a <= x < a + n
    decreases n
  {
    if n == 0 then {} else {a} + Range(a + 1, n - 1)
  }

  // ----- the target -----

  /** How many bytes from `a` on, at most `n`, a write reaches: it stops at the first that is not
      mapped and writable. */
  function Reach(mem: Memory, writable: set<nat>, a: nat, n: nat): (k: nat)
    ensures k <= n
    ensures forall x :: a <= x < a + k ==> x in mem && x in writable
    ensures k < n ==> !(a + k in mem && a + k in writable)
    decreases n
  {
    if n == 0 || !(a in mem && a in writable) then 0 else 1 + Reach(mem, writable, a + 1, n - 1)
  }

  function Put(mem: Memory, a: nat, bytes: seq<Byte>, k: nat): Memory
    requires k <= |bytes|
  {
    map x | x in mem :: if a <= x < a + k then bytes[x - a] else mem[x]
  }

  function Write(mem: Memory, writable: set<nat>, a: nat, bytes: seq<Byte>): Memory {
    Put(mem, a, bytes, Reach(mem, writable, a, |bytes|))
  }

  predicate Mapped(mem: Memory, a: nat, n: nat) {
    forall x :: a <= x < a + n ==> x in mem
  }

  function Bytes(mem: Memory, a: nat, n: nat): (bs: seq<Byte>)
    requires Mapped(mem, a, n)
    ensures |bs| == n && forall i :: 0 <= i < n ==> bs[i] == mem[a + i]
  {
    seq(n, i requires 0 <= i < n => assert a <= a + i < a + n; mem[a + i])
  }

  // ----- what a script does -----

  /** `granted` is what becomes writable when protection is lifted; nothing, when that is refused. */
  datatype Event =
    | Patch(address: nat, bytes: seq<Byte>, granted: set<nat>)
    | LoadBinary(address: nat, bytes: seq<Byte>)
    | FullAccess(granted: set<nat>)
    | Dealloc(name: string)

  /** Log and write; when the write falls short, lift the protection and write again. True when every
      byte has landed. */
  function PatchMemory(s: State, a: nat, bytes: seq<Byte>, granted: set<nat>): (State, bool) {
    if !Mapped(s.mem, a, |bytes|) then (s, false)
    else
      var s1 := s.(originals := s.originals + [Original(a, Bytes(s.mem, a, |bytes|))],
                   mem := Write(s.mem, s.writable, a, bytes));
      if Reach(s.mem, s.writable, a, |bytes|) == |bytes| then (s1, true)
      else
        var w := s.writable + granted;
        (s1.(writable := w, mem := Write(s1.mem, w, a, bytes)), Reach(s1.mem, w, a, |bytes|) == |bytes|)
  }

  function LoadAt(s: State, a: nat, bytes: seq<Byte>): (State, bool) {
    if !Mapped(s.mem, a, |bytes|) then (s, false)
    else
      (s.(originals := s.originals + [Original(a, Bytes(s.mem, a, |bytes|))],
          mem := Write(s.mem, s.writable, a, bytes)),
       Reach(s.mem, s.writable, a, |bytes|) == |bytes|)
  }

  function WithoutName(allocs: seq<Alloc>, name: string): seq<Alloc> {
    if allocs == [] then []
    else (if allocs[0].name == name then [] else [allocs[0]]) + WithoutName(allocs[1..], name)
  }

  function DeallocName(s: State, name: string): State {
    if name !in s.known then s
    else
      var a := s.known[name];
      s.(mem := s.mem - Range(a.address, a.size), known := s.known - {name},
         allocs := WithoutName(s.allocs, name))
  }

  function Apply(s: State, e: Event): State {
    match e
    case Patch(a, bytes, granted) => PatchMemory(s, a, bytes, granted).0
    case LoadBinary(a, bytes) => LoadAt(s, a, bytes).0
    case FullAccess(granted) => s.(writable := s.writable + granted)
    case Dealloc(name) => DeallocName(s, name)
  }

  function Run(s: State, es: seq<Event>): State
    decreases |es|
  {
    if es == [] then s else Run(Apply(s, es[0]), es[1..])
  }

  // ----- undoing it -----

  /** Write the log back, last entry first. */
  function Replay(mem: Memory, writable: set<nat>, log: seq<Original>): Memory
    decreases |log|
  {
    if log == [] then mem
    else
      var last := log[|log| - 1];
      Replay(Write(mem, writable, last.address, last.bytes), writable, log[..|log| - 1])
  }

  function FreeAll(mem: Memory, allocs: seq<Alloc>): Memory {
    if allocs == [] then mem else FreeAll(mem - Range(allocs[0].address, allocs[0].size), allocs[1..])
  }

  function ForgetAll(known: map<string, Alloc>, allocs: seq<Alloc>): map<string, Alloc> {
    if allocs == [] then known
    else
      var a := allocs[0];
      ForgetAll(if a.name in known && known[a.name].address == a.address then known - {a.name} else known, allocs[1..])
  }

  /** Restore the patched bytes, free the caves, forget them. */
  function Rollback(s: State): State {
    State(FreeAll(Replay(s.mem, s.writable, s.originals), s.allocs), s.writable, [], [], ForgetAll(s.known, s.allocs))
  }

  // ----- the engine as code -----

  class Activation {
    var mem: Memory
    var writable: set<nat>
    var originals: seq<Original>
    var allocs: seq<Alloc>
    var known: map<string, Alloc>

    function Current(): State
      reads this
    {
      State(mem, writable, originals, allocs, known)
    }

    constructor (s: State)
      ensures Current() == s
    {
      mem, writable, originals, allocs, known := s.mem, s.writable, s.originals, s.allocs, s.known;
    }

    /** proc.write: how many bytes landed. */
    method WriteTarget(a: nat, bytes: seq<Byte>) returns (n: nat)
      modifies this`mem
      ensures n == Reach(old(mem), writable, a, |bytes|)
      ensures mem == Write(old(mem), writable, a, bytes)
    {
      n := Reach(mem, writable, a, |bytes|);
      mem := Put(mem, a, bytes, n);
    }

    method DoPatch(a: nat, bytes: seq<Byte>, granted: set<nat>) returns (ok: bool)
      modifies this
      ensures (Current(), ok) == PatchMemory(old(Current()), a, bytes, granted)
    {
      hide Reach, Put, Bytes;
      if !(forall x :: a <= x < a + |bytes| ==> x in mem) {
        return false;
      }
      originals := originals + [Original(a, Bytes(mem, a, |bytes|))];
      var n := WriteTarget(a, bytes);
      if n < |bytes| {
        writable := writable + granted;
        n := WriteTarget(a, bytes);
        if n < |bytes| {
          return false;
        }
      }
      return true;
    }

    /** Write the log back from its last entry to its first. */
    method WriteLogBack()
      modifies this`mem
      ensures mem == Replay(old(mem), writable, originals)
    {
      hide Write;
      var i := |originals|;
      assert originals[..i] == originals;
      while i > 0
        invariant 0 <= i <= |originals|
        invariant Replay(mem, writable, originals[..i]) == Replay(old(mem), writable, originals)
      {
        i := i - 1;
        assert originals[..i + 1][..i] == originals[..i];
        var _ := WriteTarget(originals[i].address, originals[i].bytes);
      }
    }

    method FreeCaves()
      modifies this`mem, this`known
      ensures mem == FreeAll(old(mem), allocs) && known == ForgetAll(old(known), allocs)
    {
      var i := 0;
      while i < |allocs|
        invariant 0 <= i <= |allocs|
        invariant FreeAll(mem, allocs[i..]) == FreeAll(old(mem), allocs)
        invariant ForgetAll(known, allocs[i..]) == ForgetAll(old(known), allocs)
      {
        var a := allocs[i];
        mem := mem - Range(a.address, a.size);
        if a.name in known && known[a.name].address == a.address {
          known := known - {a.name};
        }
        i := i + 1;
      }
    }

    method DoRollback()
      modifies this
      ensures Current() == Rollback(old(Current()))
    {
      hide Replay, FreeAll, ForgetAll;
      WriteLogBack();
      FreeCaves();
      originals, allocs := [], [];
    }
  }

  // ----- what a patch does -----

  ghost predicate AllIn(a: nat, n: nat, w: set<nat>) {
    forall x :: a <= x < a + n ==> x in w
  }

  /** The first `k` bytes have landed, and nothing else has changed. */
  ghost predicate Landed(mem: Memory, mem': Memory, a: nat, bytes: seq<Byte>, k: nat)
    requires k <= |bytes|
  {
    && mem'.Keys == mem.Keys
    && (forall i :: 0 <= i < k && a + i in mem ==> mem'[a + i] == bytes[i])
    && (forall x :: x in mem && !(a <= x < a + k) ==> mem'[x] == mem[x])
  }

  /** The bytes before the first address that is not writable have landed; all of them when there is none. */
  ghost predicate LandedIn(mem: Memory, mem': Memory, w: set<nat>, a: nat, bytes: seq<Byte>) {
    exists k: nat {:trigger Landed(mem, mem', a, bytes, k)} ::
      k <= |bytes| && Landed(mem, mem', a, bytes, k) && AllIn(a, k, w) && (k < |bytes| ==> a + k !in w)
  }

  lemma ReachesAllIff(mem: Memory, w: set<nat>, a: nat, n: nat)
    ensures Reach(mem, w, a, n) == n <==> Mapped(mem, a, n) && AllIn(a, n, w)
  {
    hide Reach;
    var k := Reach(mem, w, a, n);
    assert k < n ==> !(a + k in mem && a + k in w);
  }

  /** The answer of a patch: true exactly when its whole range is mapped and writable, as it is or once the protection
      is lifted; then every byte of it has landed. Otherwise the bytes before the first that cannot be written have,
      and an unmapped range is left alone and not logged. Bytes outside the range never change. */
  lemma PatchLands(s: State, a: nat, bytes: seq<Byte>, granted: set<nat>)
    ensures var (s', ok) := PatchMemory(s, a, bytes, granted);
      && (ok <==> Mapped(s.mem, a, |bytes|) && AllIn(a, |bytes|, s.writable + granted))
      && (ok ==> Landed(s.mem, s'.mem, a, bytes, |bytes|))
      && (!Mapped(s.mem, a, |bytes|) ==> s' == s)
      && (Mapped(s.mem, a, |bytes|) ==>
            && LandedIn(s.mem, s'.mem, s.writable + granted, a, bytes)
            && s'.originals == s.originals + [Original(a, Bytes(s.mem, a, |bytes|))])
  {
    hide Reach, Put, Bytes;
    var n := |bytes|;
    if Mapped(s.mem, a, n) {
      var k := Reach(s.mem, s.writable, a, n);
      var w := s.writable + granted;
      ReachesAllIff(s.mem, s.writable, a, n);
      ReachesAllIff(s.mem, w, a, n);
      PutIs(s.mem, a, bytes, k);
      var mem1 := Put(s.mem, a, bytes, k);
      ReachMonotone(s.mem, mem1, w, w, a, n);
      ReachMonotone(mem1, s.mem, w, w, a, n);
      ReachMonotone(s.mem, mem1, s.writable, w, a, n);
      var k' := Reach(mem1, w, a, n);
      PutTwice(s.mem, a, bytes, k, k');
      PutIs(s.mem, a, bytes, k');
      if k == n {
        assert AllIn(a, n, w);
        assert Landed(s.mem, mem1, a, bytes, n);
        assert LandedIn(s.mem, mem1, w, a, bytes);
      } else {
        assert k' < n ==> !(a + k' in s.mem && a + k' in w) by {
          assert forall x :: x in mem1.Keys <==> x in s.mem.Keys;
        }
        assert Landed(s.mem, Put(s.mem, a, bytes, k'), a, bytes, k');
      }
    }
  }

  /** A file is written without lifting any protection. */
  lemma LoadLands(s: State, a: nat, bytes: seq<Byte>)
    ensures var (s', ok) := LoadAt(s, a, bytes);
      && (ok <==> Mapped(s.mem, a, |bytes|) && AllIn(a, |bytes|, s.writable))
      && (ok ==> Landed(s.mem, s'.mem, a, bytes, |bytes|))
      && (!Mapped(s.mem, a, |bytes|) ==> s' == s)
      && (Mapped(s.mem, a, |bytes|) ==>
            && LandedIn(s.mem, s'.mem, s.writable, a, bytes)
            && s'.originals == s.originals + [Original(a, Bytes(s.mem, a, |bytes|))])
  {
    hide Reach, Put, Bytes;
    var n := |bytes|;
    if Mapped(s.mem, a, n) {
      var k := Reach(s.mem, s.writable, a, n);
      ReachesAllIff(s.mem, s.writable, a, n);
      PutIs(s.mem, a, bytes, k);
      assert Landed(s.mem, Put(s.mem, a, bytes, k), a, bytes, k);
    }
  }

  /** A write that stays short after the protection was lifted is reported. */
  lemma ShortWriteIsReported(s: State)
    requires s.mem == map[100 := 1, 101 := 2] && s.writable == {100}
    ensures !PatchMemory(s, 100, [7, 8], {}).1 && PatchMemory(s, 100, [7, 8], {}).0.mem == map[100 := 7, 101 := 2]
  {
    hide PatchMemory, Bytes;
    PatchLands(s, 100, [7, 8], {});
    assert s.writable + {} == {100};
    var s' := PatchMemory(s, 100, [7, 8], {}).0;
    assert !(101 in s.writable + {});
    var k: nat :| k <= 2 && Landed(s.mem, s'.mem, 100, [7, 8], k) && AllIn(100, k, s.writable + {})
      && (k < 2 ==> 100 + k !in s.writable + {});
    assert k != 0 by { assert 100 in s.writable + {}; }
    assert k != 2 by { assert 100 <= 101 < 100 + 2; }
    assert k == 1;
    assert 100 + 0 in s.mem;
    var bytes: seq<Byte> := [7, 8];
    assert s'.mem[100 + 0] == bytes[0];
    assert s'.mem[101] == s.mem[101];
  }

  // ----- why it works -----

  /** `m` is `m0` on the addresses still mapped. */
  ghost predicate IsPartOf(m: Memory, m0: Memory) {
    forall x :: x in m ==> x in m0 && m[x] == m0[x]
  }

  /** Replaying the log restores the initial contents, with today's write permissions or any wider. */
  ghost predicate Undoable(s: State, m0: Memory) {
    forall w :: s.writable <= w ==>
      var m := Replay(s.mem, w, s.originals); m.Keys == s.mem.Keys && IsPartOf(m, m0)
  }

  /** No byte of the range that is freed stands before one that stays mapped. */
  ghost predicate Clean(block: set<nat>, mem: Memory, o: Original) {
    forall x, y :: o.address <= x < y < o.address + |o.bytes| && x in block && x in mem && y in mem ==> y in block
  }

  ghost predicate NoCut(block: set<nat>, mem: Memory, log: seq<Original>) {
    forall i :: 0 <= i < |log| ==> Clean(block, mem, log[i])
  }

  /** A deallocation frees no byte before a surviving one in a range this activation has logged. */
  ghost predicate Admissible(s: State, e: Event) {
    e.Dealloc? && e.name in s.known ==>
      NoCut(Range(s.known[e.name].address, s.known[e.name].size), s.mem, s.originals)
  }

  ghost predicate AdmissibleRun(s: State, es: seq<Event>)
    decreases |es|
  {
    es == [] || (Admissible(s, es[0]) && AdmissibleRun(Apply(s, es[0]), es[1..]))
  }

  lemma ReachMonotone(mem: Memory, mem': Memory, w: set<nat>, w': set<nat>, a: nat, n: nat)
    requires w <= w' && mem.Keys == mem'.Keys
    ensures Reach(mem, w, a, n) <= Reach(mem', w', a, n)
  {
    var k, k' := Reach(mem, w, a, n), Reach(mem', w', a, n);
    assert k' < k ==> a + k' in mem' && a + k' in w';
  }

  /** Writing the old bytes over a write that reached no further gives the old contents back. */
  lemma WriteBack(mem: Memory, a: nat, bytes: seq<Byte>, k: nat, w: set<nat>)
    requires Mapped(mem, a, |bytes|) && k <= Reach(mem, w, a, |bytes|)
    ensures Write(Put(mem, a, bytes, k), w, a, Bytes(mem, a, |bytes|)) == mem
  {
    hide Reach;
    PutKeys(mem, a, bytes, k);
    var mem' := Put(mem, a, bytes, k);
    ReachMonotone(mem, mem', w, w, a, |bytes|);
    PutBack(mem, a, bytes, k, Reach(mem', w, a, |bytes|));
  }

  lemma PutBack(mem: Memory, a: nat, bytes: seq<Byte>, k: nat, k': nat)
    requires Mapped(mem, a, |bytes|) && k <= k' <= |bytes|
    ensures Put(Put(mem, a, bytes, k), a, Bytes(mem, a, |bytes|), k') == mem
  {
    hide Bytes;
    var old_ := Bytes(mem, a, |bytes|);
    var m := Put(Put(mem, a, bytes, k), a, old_, k');
    forall x | x in mem ensures m[x] == mem[x] {
      if a <= x < a + k' {
        assert old_[x - a] == mem[a + (x - a)];
      }
    }
  }

  /** A second, longer write of the same bytes from the same place covers the first. */
  lemma PutTwice(mem: Memory, a: nat, bytes: seq<Byte>, k: nat, k': nat)
    requires k <= k' <= |bytes|
    ensures Put(Put(mem, a, bytes, k), a, bytes, k') == Put(mem, a, bytes, k')
  {
  }

  /** One logged write, whether it landed whole or in part, keeps the state undoable. */
  lemma LoggedWrite(s: State, m0: Memory, a: nat, bytes: seq<Byte>, k: nat, w': set<nat>)
    requires Undoable(s, m0) && Mapped(s.mem, a, |bytes|) && s.writable <= w' && k <= Reach(s.mem, w', a, |bytes|)
    ensures Undoable(s.(originals := s.originals + [Original(a, Bytes(s.mem, a, |bytes|))],
                        mem := Put(s.mem, a, bytes, k), writable := w'), m0)
  {
    hide Reach, Bytes, Put, Write, Mapped;
    var o := Original(a, Bytes(s.mem, a, |bytes|));
    var mem' := Put(s.mem, a, bytes, k);
    var log' := s.originals + [o];
    PutKeys(s.mem, a, bytes, k);
    forall w | w' <= w
      ensures Replay(mem', w, log').Keys == mem'.Keys && IsPartOf(Replay(mem', w, log'), m0)
    {
      ReachMonotone(s.mem, s.mem, w', w, a, |bytes|);
      WriteBack(s.mem, a, bytes, k, w);
      assert log'[..|log'| - 1] == s.originals;
      assert Replay(mem', w, log') == Replay(s.mem, w, s.originals);
    }
  }

  lemma PutKeys(mem: Memory, a: nat, bytes: seq<Byte>, k: nat)
    requires k <= |bytes|
    ensures Put(mem, a, bytes, k).Keys == mem.Keys
  {
  }

  lemma PatchKeeps(s: State, m0: Memory, a: nat, bytes: seq<Byte>, granted: set<nat>)
    requires Undoable(s, m0)
    ensures Undoable(PatchMemory(s, a, bytes, granted).0, m0)
  {
    hide Undoable, Put, Bytes, Reach;
    if Mapped(s.mem, a, |bytes|) {
      var k := Reach(s.mem, s.writable, a, |bytes|);
      var w := s.writable + granted;
      LoggedWrite(s, m0, a, bytes, k, s.writable);
      var mem1 := Put(s.mem, a, bytes, k);
      PutKeys(s.mem, a, bytes, k);
      var k' := Reach(mem1, w, a, |bytes|);
      ReachMonotone(s.mem, mem1, s.writable, w, a, |bytes|);
      ReachMonotone(mem1, s.mem, w, w, a, |bytes|);
      PutTwice(s.mem, a, bytes, k, k');
      LoggedWrite(s, m0, a, bytes, k', w);
    }
  }

  lemma LoadKeeps(s: State, m0: Memory, a: nat, bytes: seq<Byte>)
    requires Undoable(s, m0)
    ensures Undoable(LoadAt(s, a, bytes).0, m0)
  {
    hide Undoable, Put, Bytes, Reach;
    if Mapped(s.mem, a, |bytes|) {
      LoggedWrite(s, m0, a, bytes, Reach(s.mem, s.writable, a, |bytes|), s.writable);
    }
  }

  /** Restoring into a memory from which a block is gone restores everything else. */
  lemma {:induction false} ReplayWithout(mem: Memory, w: set<nat>, log: seq<Original>, block: set<nat>)
    requires NoCut(block, mem, log)
    ensures Replay(mem - block, w, log) == Replay(mem, w, log) - block
    decreases |log|
  {
    hide Write, Clean;
    if log != [] {
      var last := log[|log| - 1];
      var front := log[..|log| - 1];
      var mem' := Write(mem, w, last.address, last.bytes);
      WriteKeys(mem, w, last);
      assert NoCut(block, mem', front) by {
        forall i | 0 <= i < |front| ensures Clean(block, mem', front[i]) {
          assert front[i] == log[i];
          CleanByKeys(block, mem, mem', front[i]);
        }
      }
      WriteWithout(mem, w, last, block);
      ReplayWithout(mem', w, front, block);
    }
  }

  lemma WriteKeys(mem: Memory, w: set<nat>, o: Original)
    ensures Write(mem, w, o.address, o.bytes).Keys == mem.Keys
  {
  }

  lemma CleanByKeys(block: set<nat>, mem: Memory, mem': Memory, o: Original)
    requires mem.Keys == mem'.Keys && Clean(block, mem, o)
    ensures Clean(block, mem', o)
  {
    assert forall x :: x in mem' <==> x in mem.Keys;
  }

  lemma {:induction false} ReachWithout(mem: Memory, w: set<nat>, a: nat, n: nat, block: set<nat>)
    ensures var k, k' := Reach(mem, w, a, n), Reach(mem - block, w, a, n);
            k' <= k && (k' < k ==> a + k' in mem && a + k' in block)
    decreases n
  {
    if n > 0 {
      ReachWithout(mem, w, a + 1, n - 1, block);
    }
  }

  lemma WriteWithout(mem: Memory, w: set<nat>, o: Original, block: set<nat>)
    requires Clean(block, mem, o)
    ensures Write(mem - block, w, o.address, o.bytes) == Write(mem, w, o.address, o.bytes) - block
  {
    hide Reach;
    var a, n := o.address, |o.bytes|;
    ReachWithout(mem, w, a, n, block);
    var k, k' := Reach(mem, w, a, n), Reach(mem - block, w, a, n);
    var left, right := Write(mem - block, w, a, o.bytes), Write(mem, w, a, o.bytes) - block;
    assert left.Keys == right.Keys;
    forall x | x in left ensures left[x] == right[x] {
      assert k' < k && a + k' < x < a + n ==> x in block;
    }
  }

  lemma {:induction false} SameReach(mem: Memory, mem': Memory, w: set<nat>, a: nat, n: nat)
    requires forall x :: a <= x < a + n ==> (x in mem <==> x in mem')
    ensures Reach(mem, w, a, n) == Reach(mem', w, a, n)
    decreases n
  {
    if n > 0 {
      SameReach(mem, mem', w, a + 1, n - 1);
    }
  }

  lemma DeallocKeeps(s: State, m0: Memory, name: string)
    requires Undoable(s, m0) && Admissible(s, Dealloc(name))
    ensures Undoable(DeallocName(s, name), m0)
  {
    if name in s.known {
      var block := Range(s.known[name].address, s.known[name].size);
      forall w | s.writable <= w
        ensures Replay(s.mem - block, w, s.originals).Keys == (s.mem - block).Keys
        ensures IsPartOf(Replay(s.mem - block, w, s.originals), m0)
      {
        ReplayWithout(s.mem, w, s.originals, block);
      }
    }
  }

  lemma {:induction false} RunKeeps(s: State, m0: Memory, es: seq<Event>)
    requires Undoable(s, m0) && AdmissibleRun(s, es)
    ensures Undoable(Run(s, es), m0)
    decreases |es|
  {
    hide Undoable, PatchMemory, LoadAt, DeallocName, Admissible;
    if es != [] {
      match es[0] {
        case Patch(a, bytes, granted) => PatchKeeps(s, m0, a, bytes, granted);
        case LoadBinary(a, bytes) => LoadKeeps(s, m0, a, bytes);
        case FullAccess(granted) => GrantKeeps(s, m0, granted);
        case Dealloc(name) => DeallocKeeps(s, m0, name);
      }
      RunKeeps(Apply(s, es[0]), m0, es[1..]);
    }
  }

  lemma GrantKeeps(s: State, m0: Memory, granted: set<nat>)
    requires Undoable(s, m0)
    ensures Undoable(s.(writable := s.writable + granted), m0)
  {
  }

  /** Wherever execution returns, after any sequence of overlapping, partial or failed patches,
      writing the log back in reverse gives every address still mapped the byte it had at entry. */
  lemma ReplayRestores(s: State, es: seq<Event>)
    requires s.originals == [] && AdmissibleRun(s, es)
    ensures var s' := Run(s, es);
      var m := Replay(s'.mem, s'.writable, s'.originals);
      m.Keys == s'.mem.Keys && forall x :: x in m ==> x in s.mem && m[x] == s.mem[x]
  {
    RunKeeps(s, s.mem, es);
  }

  // ----- exactly what comes back -----

  /** The byte replaying leaves at `x`: that of the oldest entry whose write gets as far as `x`, or the present one. */
  function Comeback(mem: Memory, w: set<nat>, log: seq<Original>, x: nat): Byte
    requires x in mem
  {
    if log == [] then mem[x]
    else if log[0].address <= x < log[0].address + Reach(mem, w, log[0].address, |log[0].bytes|) then
      log[0].bytes[x - log[0].address]
    else Comeback(mem, w, log[1..], x)
  }

  lemma {:induction false} ComebackAfter(mem: Memory, w: set<nat>, front: seq<Original>, last: Original, x: nat)
    requires x in mem
    ensures x in Write(mem, w, last.address, last.bytes)
    ensures Comeback(Write(mem, w, last.address, last.bytes), w, front, x) == Comeback(mem, w, front + [last], x)
    decreases |front|
  {
    hide Reach;
    var mem' := Write(mem, w, last.address, last.bytes);
    WriteKeys(mem, w, last);
    if front == [] {
      assert ([] + [last])[1..] == [];
    } else {
      var o := front[0];
      SameReach(mem, mem', w, o.address, |o.bytes|);
      assert (front + [last])[1..] == front[1..] + [last];
      ComebackAfter(mem, w, front[1..], last, x);
    }
  }

  /** Replaying, address by address: no other entry than the oldest that gets there matters. */
  lemma {:induction false} ReplayAt(mem: Memory, w: set<nat>, log: seq<Original>, x: nat)
    requires x in mem
    ensures x in Replay(mem, w, log) && Replay(mem, w, log)[x] == Comeback(mem, w, log, x)
    decreases |log|
  {
    hide Write, Comeback;
    if log == [] {
      NothingComesBack(mem, w, x);
    } else {
      var front, last := log[..|log| - 1], log[|log| - 1];
      assert log == front + [last];
      ComebackAfter(mem, w, front, last, x);
      ReplayAt(Write(mem, w, last.address, last.bytes), w, front, x);
    }
  }

  lemma NothingComesBack(mem: Memory, w: set<nat>, x: nat)
    requires x in mem
    ensures Comeback(mem, w, [], x) == mem[x]
  {
  }

  /** What is mapped has, after writing the log back, what it had in `m0`. */
  ghost predicate Restored(s: State, m0: Memory) {
    var m := Replay(s.mem, s.writable, s.originals);
    forall x :: x in m ==> x in m0 && m[x] == m0[x]
  }

  /** After any run whatever, cut or not: everything comes back exactly when at each address the oldest entry that
      still gets there holds the byte of the start. */
  lemma RestoredIff(s: State, es: seq<Event>)
    ensures var s' := Run(s, es);
            (Restored(s', s.mem) <==>
              forall x :: x in s'.mem ==> x in s.mem && Comeback(s'.mem, s'.writable, s'.originals, x) == s.mem[x])
  {
    hide Run, Replay, Comeback;
    var s' := Run(s, es);
    ReplayKeys(s'.mem, s'.writable, s'.originals);
    forall x | x in s'.mem
      ensures Replay(s'.mem, s'.writable, s'.originals)[x] == Comeback(s'.mem, s'.writable, s'.originals, x)
    {
      ReplayAt(s'.mem, s'.writable, s'.originals, x);
    }
  }

  lemma {:induction false} ReplayKeys(mem: Memory, w: set<nat>, log: seq<Original>)
    ensures Replay(mem, w, log).Keys == mem.Keys
    decreases |log|
  {
    hide Write;
    if log != [] {
      WriteKeys(mem, w, log[|log| - 1]);
      ReplayKeys(Write(mem, w, log[|log| - 1].address, log[|log| - 1].bytes), w, log[..|log| - 1]);
    }
  }

  /** One patch over writable memory and one deallocation: the entry's memory comes back exactly when no byte that
      the patch changed and that survives has a freed byte before it in the patch. */
  lemma CutIsRestoredIff(s: State, a: nat, bytes: seq<Byte>, granted: set<nat>, name: string)
    requires s.originals == [] && name in s.known
    requires Reach(s.mem, s.writable, a, |bytes|) == |bytes|
    ensures var block := Range(s.known[name].address, s.known[name].size);
            (Restored(Run(s, [Patch(a, bytes, granted), Dealloc(name)]), s.mem) <==>
              forall x, y :: a <= x < y < a + |bytes| && x in block && y !in block ==> bytes[y - a] == s.mem[y])
  {
    hide Reach, Restored;
    var block, n := Range(s.known[name].address, s.known[name].size), |bytes|;
    PatchThenFree(s, a, bytes, granted, name);
    var o := Original(a, Bytes(s.mem, a, n));
    var s' := Run(s, [Patch(a, bytes, granted), Dealloc(name)]);
    assert s'.originals[..0] == [];
    assert Replay(s'.mem, s'.writable, [o]) == Write(s'.mem, s'.writable, a, o.bytes);
    CutWrite(s.mem, s.writable, a, bytes, block);
    assert Restored(s', s.mem) <==> (forall x :: x in Write(s'.mem, s'.writable, a, o.bytes) ==>
      x in s.mem && Write(s'.mem, s'.writable, a, o.bytes)[x] == s.mem[x]) by {
      RestoredByOne(s', o, s.mem);
    }
  }

  lemma RestoredByOne(s: State, o: Original, m0: Memory)
    requires s.originals == [o]
    ensures var m := Write(s.mem, s.writable, o.address, o.bytes);
            (Restored(s, m0) <==> forall x :: x in m ==> x in m0 && m[x] == m0[x])
  {
    hide Write;
    assert s.originals[..0] == [];
    var m := Write(s.mem, s.writable, o.address, o.bytes);
    assert Replay(m, s.writable, []) == m;
    assert Replay(s.mem, s.writable, s.originals) == m;
  }

  lemma PatchThenFree(s: State, a: nat, bytes: seq<Byte>, granted: set<nat>, name: string)
    requires s.originals == [] && name in s.known && Reach(s.mem, s.writable, a, |bytes|) == |bytes|
    ensures Mapped(s.mem, a, |bytes|)
    ensures var s' := Run(s, [Patch(a, bytes, granted), Dealloc(name)]);
            && s'.originals == [Original(a, Bytes(s.mem, a, |bytes|))] && s'.writable == s.writable
            && s'.mem == Put(s.mem, a, bytes, |bytes|) - Range(s.known[name].address, s.known[name].size)
  {
    hide Reach, Put, Bytes, Range;
    var e1, e2 := Patch(a, bytes, granted), Dealloc(name);
    assert [e1, e2][1..] == [e2] && [e2][1..] == [];
    var s1 := Apply(s, e1);
    assert Run(s, [e1, e2]) == Run(s1, [e2]) == Run(Apply(s1, e2), []);
  }

  lemma ReachStops(mem: Memory, w: set<nat>, a: nat, n: nat, left: Memory, block: set<nat>)
    requires Reach(mem, w, a, n) == n && left.Keys == mem.Keys - block
    ensures var k := Reach(left, w, a, n);
            && (forall x :: a <= x < a + k ==> x !in block) && (k < n ==> a + k in block)
  {
    hide Reach;
    var k := Reach(left, w, a, n);
    assert forall x :: a <= x < a + k ==> x in left.Keys;
    assert k < n ==> a + k in mem && a + k in w;
    assert k < n && a + k !in block ==> a + k in left.Keys;
  }

  /** Part of the saved bytes written back over what is left of a patch. */
  lemma PartBack(mem: Memory, a: nat, bytes: seq<Byte>, block: set<nat>, k: nat)
    requires Mapped(mem, a, |bytes|) && k <= |bytes|
    ensures var m := Put(Put(mem, a, bytes, |bytes|) - block, a, Bytes(mem, a, |bytes|), k);
            && m.Keys == mem.Keys - block
            && forall y :: y in m ==> m[y] == if a + k <= y < a + |bytes| then bytes[y - a] else mem[y]
  {
    hide Bytes, Put;
    var n, saved := |bytes|, Bytes(mem, a, |bytes|);
    PutIs(mem, a, bytes, n);
    PutIs(Put(mem, a, bytes, n) - block, a, saved, k);
    forall y | a <= y < a + k ensures saved[y - a] == mem[y] {
      assert saved[y - a] == mem[a + (y - a)];
    }
  }

  /** Writing the old bytes back stops at the first freed one. */
  lemma StopsAtFreed(mem: Memory, w: set<nat>, a: nat, bytes: seq<Byte>, block: set<nat>) returns (k: nat)
    requires Reach(mem, w, a, |bytes|) == |bytes| && Mapped(mem, a, |bytes|)
    ensures k <= |bytes| && (forall x :: a <= x < a + k ==> x !in block) && (k < |bytes| ==> a + k in block)
    ensures var m := Write(Put(mem, a, bytes, |bytes|) - block, w, a, Bytes(mem, a, |bytes|));
            && m.Keys == mem.Keys - block
            && forall y :: y in m ==> m[y] == if a + k <= y < a + |bytes| then bytes[y - a] else mem[y]
  {
    hide Reach, Put, Bytes, Mapped;
    var left := Put(mem, a, bytes, |bytes|) - block;
    k := Reach(left, w, a, |bytes|);
    PutIs(mem, a, bytes, |bytes|);
    ReachStops(mem, w, a, |bytes|, left, block);
    PartBack(mem, a, bytes, block, k);
  }

  lemma PutIs(mem: Memory, a: nat, bytes: seq<Byte>, k: nat)
    requires k <= |bytes|
    ensures Put(mem, a, bytes, k).Keys == mem.Keys
    ensures forall x :: x in mem ==> Put(mem, a, bytes, k)[x] == if a <= x < a + k then bytes[x - a] else mem[x]
  {
  }

  lemma CutWrite(mem: Memory, w: set<nat>, a: nat, bytes: seq<Byte>, block: set<nat>)
    requires Reach(mem, w, a, |bytes|) == |bytes| && Mapped(mem, a, |bytes|)
    ensures var m := Write(Put(mem, a, bytes, |bytes|) - block, w, a, Bytes(mem, a, |bytes|));
            ((forall x :: x in m ==> x in mem && m[x] == mem[x]) <==>
              forall x, y :: a <= x < y < a + |bytes| && x in block && y !in block ==> bytes[y - a] == mem[y])
  {
    hide Reach, Put, Write, Bytes;
    var n := |bytes|;
    var m := Write(Put(mem, a, bytes, n) - block, w, a, Bytes(mem, a, n));
    var k := StopsAtFreed(mem, w, a, bytes, block);
    if forall x :: x in m ==> x in mem && m[x] == mem[x] {
      forall x, y | a <= x < y < a + n && x in block && y !in block ensures bytes[y - a] == mem[y] {
        assert x >= a + k;
        assert y in mem;
        assert y in m.Keys;
      }
    }
    if forall x, y :: a <= x < y < a + n && x in block && y !in block ==> bytes[y - a] == mem[y] {
      forall y | y in m ensures y in mem && m[y] == mem[y] {
        if a + k <= y < a + n {
          assert a + k in block && y != a + k;
        }
      }
    }
  }

  // ----- the whole activation -----

  /** Allocate one cave: fresh addresses with some contents, logged under a name of its own. */
  function Allocate(s: State, a: Alloc, contents: Memory): State {
    s.(mem := s.mem + contents, allocs := s.allocs + [a], known := s.known[a.name := a])
  }

  ghost predicate Fresh(s: State, a: Alloc, contents: Memory) {
    && contents.Keys == Range(a.address, a.size) && contents.Keys !! s.mem.Keys
    && forall i :: 0 <= i < |s.allocs| ==> s.allocs[i].name != a.name
  }

  /** Against the memory `m0` the activation started from: what is mapped beyond it lies in a cave of
      this activation, and each of those is known under its name. */
  ghost predicate Owned(s: State, m0: Memory) {
    && (forall x :: x in s.mem && x !in m0 ==>
          exists i :: 0 <= i < |s.allocs| && x in Range(s.allocs[i].address, s.allocs[i].size))
    && (forall i :: 0 <= i < |s.allocs| ==>
          && Range(s.allocs[i].address, s.allocs[i].size) !! m0.Keys
          && s.allocs[i].name in s.known && s.known[s.allocs[i].name] == s.allocs[i])
    && DistinctNames(s.allocs) && Keyed(s.known)
  }

  /** Each cave is known under its own name. */
  predicate Keyed(known: map<string, Alloc>) {
    forall name :: name in known ==> known[name].name == name
  }

  /** Only caves of this activation are deallocated, and no patched range is cut. */
  ghost predicate OwnRun(s: State, es: seq<Event>)
    decreases |es|
  {
    es == [] ||
    (Admissible(s, es[0])
     && (es[0].Dealloc? && es[0].name in s.known ==> s.known[es[0].name] in s.allocs)
     && OwnRun(Apply(s, es[0]), es[1..]))
  }

  lemma AllocateOwned(s: State, m0: Memory, a: Alloc, contents: Memory)
    requires Owned(s, m0) && Fresh(s, a, contents) && m0.Keys <= s.mem.Keys
    ensures Owned(Allocate(s, a, contents), m0) && m0.Keys <= Allocate(s, a, contents).mem.Keys
  {
    hide Range;
    var s' := Allocate(s, a, contents);
    forall x | x in s'.mem && x !in m0
      ensures exists i :: 0 <= i < |s'.allocs| && x in Range(s'.allocs[i].address, s'.allocs[i].size)
    {
      if x in s.mem {
        var i :| 0 <= i < |s.allocs| && x in Range(s.allocs[i].address, s.allocs[i].size);
        assert s'.allocs[i] == s.allocs[i];
      } else {
        assert s'.allocs[|s.allocs|] == a;
      }
    }
    forall i | 0 <= i < |s'.allocs|
      ensures Range(s'.allocs[i].address, s'.allocs[i].size) !! m0.Keys
      ensures s'.allocs[i].name in s'.known && s'.known[s'.allocs[i].name] == s'.allocs[i]
    {
      if i < |s.allocs| {
        assert s'.allocs[i] == s.allocs[i];
      } else {
        assert s'.allocs[i] == a;
      }
    }
    DistinctGrows(s.allocs, a);
  }

  lemma DistinctGrows(allocs: seq<Alloc>, a: Alloc)
    requires DistinctNames(allocs) && forall i :: 0 <= i < |allocs| ==> allocs[i].name != a.name
    ensures DistinctNames(allocs + [a])
  {
  }

  lemma {:induction false} WithoutNameKeeps(allocs: seq<Alloc>, name: string)
    ensures forall a :: a in WithoutName(allocs, name) <==> a in allocs && a.name != name
  {
    if allocs != [] {
      WithoutNameKeeps(allocs[1..], name);
      assert allocs == [allocs[0]] + allocs[1..];
    }
  }

  ghost predicate DistinctNames(allocs: seq<Alloc>) {
    forall i, j :: 0 <= i < j < |allocs| ==> allocs[i].name != allocs[j].name
  }

  lemma {:induction false} WithoutNameDistinct(allocs: seq<Alloc>, name: string)
    requires DistinctNames(allocs)
    ensures DistinctNames(WithoutName(allocs, name))
  {
    if allocs != [] {
      var rest := WithoutName(allocs[1..], name);
      WithoutNameDistinct(allocs[1..], name);
      WithoutNameKeeps(allocs[1..], name);
      forall j | 0 <= j < |rest| ensures rest[j].name != allocs[0].name {
        assert rest[j] in allocs[1..];
      }
    }
  }

  lemma KeyedLess(known: map<string, Alloc>, name: string)
    requires Keyed(known)
    ensures Keyed(known - {name})
  {
  }

  lemma DeallocOwned(s: State, m0: Memory, name: string)
    requires Owned(s, m0) && m0.Keys <= s.mem.Keys && (name in s.known ==> s.known[name] in s.allocs)
    ensures Owned(DeallocName(s, name), m0) && m0.Keys <= DeallocName(s, name).mem.Keys
  {
    hide Range, WithoutName, DistinctNames, Keyed;
    if name in s.known {
      KeyedLess(s.known, name);
      WithoutNameKeeps(s.allocs, name);
      WithoutNameDistinct(s.allocs, name);
      var s' := DeallocName(s, name);
      var k :| 0 <= k < |s.allocs| && s.allocs[k] == s.known[name];
      forall x | x in s'.mem && x !in m0
        ensures exists i :: 0 <= i < |s'.allocs| && x in Range(s'.allocs[i].address, s'.allocs[i].size)
      {
        var i :| 0 <= i < |s.allocs| && x in Range(s.allocs[i].address, s.allocs[i].size);
        assert s.allocs[i].name != name;
        assert s.allocs[i] in s'.allocs;
      }
      forall i | 0 <= i < |s'.allocs| ensures s'.allocs[i] in s.allocs && s'.allocs[i].name != name {
        assert s'.allocs[i] in s'.allocs;
      }
    }
  }

  lemma PatchOwned(s: State, m0: Memory, a: nat, bytes: seq<Byte>, granted: set<nat>)
    ensures var s' := PatchMemory(s, a, bytes, granted).0;
      s'.mem.Keys == s.mem.Keys && s'.allocs == s.allocs && s'.known == s.known
    ensures var s' := LoadAt(s, a, bytes).0;
      s'.mem.Keys == s.mem.Keys && s'.allocs == s.allocs && s'.known == s.known
  {
  }

  lemma {:induction false} RunOwned(s: State, m0: Memory, es: seq<Event>)
    requires Owned(s, m0) && m0.Keys <= s.mem.Keys && OwnRun(s, es)
    ensures var s' := Run(s, es); Owned(s', m0) && m0.Keys <= s'.mem.Keys
    ensures AdmissibleRun(s, es)
    decreases |es|
  {
    hide Range, PatchMemory, LoadAt, DeallocName, Admissible;
    if es != [] {
      match es[0] {
        case Patch(a, bytes, granted) => PatchOwned(s, m0, a, bytes, granted);
        case LoadBinary(a, bytes) => PatchOwned(s, m0, a, bytes, {});
        case FullAccess(granted) =>
        case Dealloc(name) => DeallocOwned(s, m0, name);
      }
      RunOwned(Apply(s, es[0]), m0, es[1..]);
    }
  }

  lemma {:induction false} FreeAllEffect(mem: Memory, allocs: seq<Alloc>)
    ensures FreeAll(mem, allocs).Keys <= mem.Keys
    ensures forall x :: x in FreeAll(mem, allocs) ==> FreeAll(mem, allocs)[x] == mem[x]
    ensures forall x :: x in mem ==>
              (x in FreeAll(mem, allocs) <==>
               forall i :: 0 <= i < |allocs| ==> x !in Range(allocs[i].address, allocs[i].size))
  {
    hide Range;
    if allocs != [] {
      var mem' := mem - Range(allocs[0].address, allocs[0].size);
      FreeAllEffect(mem', allocs[1..]);
      assert forall i :: 0 < i < |allocs| ==> allocs[i] == allocs[1..][i - 1];
    }
  }

  predicate Named(allocs: seq<Alloc>, name: string) {
    exists i :: 0 <= i < |allocs| && allocs[i].name == name
  }

  /** The known names that no cave of the activation bears. */
  function OtherNames(s: State): map<string, Alloc> {
    map name | name in s.known && !Named(s.allocs, name) :: s.known[name]
  }

  lemma {:induction false} ForgetAllIs(known: map<string, Alloc>, allocs: seq<Alloc>)
    requires DistinctNames(allocs)
    requires forall i :: 0 <= i < |allocs| ==> allocs[i].name in known && known[allocs[i].name] == allocs[i]
    ensures ForgetAll(known, allocs) == map name | name in known && !Named(allocs, name) :: known[name]
  {
    if allocs != [] {
      var a := allocs[0];
      var known' := known - {a.name};
      assert forall i :: 0 < i < |allocs| ==> allocs[1..][i - 1] == allocs[i];
      assert known[a.name] == a;
      ForgetAllIs(known', allocs[1..]);
      forall name ensures Named(allocs, name) <==> a.name == name || Named(allocs[1..], name) {
        if Named(allocs, name) && a.name != name {
          var i :| 0 <= i < |allocs| && allocs[i].name == name;
          assert allocs[1..][i - 1].name == name;
        }
        if Named(allocs[1..], name) {
          var i :| 0 <= i < |allocs[1..]| && allocs[1..][i].name == name;
          assert allocs[i + 1].name == name;
        }
      }
    }
  }

  lemma ForgetOwn(s: State, m0: Memory)
    requires Owned(s, m0)
    ensures ForgetAll(s.known, s.allocs) == OtherNames(s)
  {
    hide Range, ForgetAll;
    ForgetAllIs(s.known, s.allocs);
  }

  lemma DeallocNames(s: State, m0: Memory, name: string)
    requires Owned(s, m0) && (name in s.known ==> s.known[name] in s.allocs)
    ensures OtherNames(DeallocName(s, name)) == OtherNames(s)
  {
    hide Range, WithoutName;
    if name in s.known {
      WithoutNameKeeps(s.allocs, name);
      var s' := DeallocName(s, name);
      var k :| 0 <= k < |s.allocs| && s.allocs[k] == s.known[name];
      forall n | n in s.known ensures Named(s.allocs, n) <==> n == name || Named(s'.allocs, n) {
        NamedIs(s.allocs, n);
        NamedIs(s'.allocs, n);
      }
    }
  }

  lemma NamedIs(allocs: seq<Alloc>, name: string)
    ensures Named(allocs, name) <==> exists a :: a in allocs && a.name == name
  {
    if a :| a in allocs && a.name == name {
      var i :| 0 <= i < |allocs| && allocs[i] == a;
    }
    if Named(allocs, name) {
      var i :| 0 <= i < |allocs| && allocs[i].name == name;
      assert allocs[i] in allocs;
    }
  }

  lemma {:induction false} RunKeepsNames(s: State, m0: Memory, es: seq<Event>)
    requires Owned(s, m0) && m0.Keys <= s.mem.Keys && OwnRun(s, es)
    ensures OtherNames(Run(s, es)) == OtherNames(s)
    decreases |es|
  {
    hide Range, PatchMemory, LoadAt, DeallocName, Admissible, OtherNames, Owned;
    if es != [] {
      match es[0] {
        case Patch(a, bytes, granted) => PatchOwned(s, m0, a, bytes, granted); OwnedSame(s, Apply(s, es[0]), m0);
        case LoadBinary(a, bytes) => PatchOwned(s, m0, a, bytes, {}); OwnedSame(s, Apply(s, es[0]), m0);
        case FullAccess(granted) => OwnedSame(s, Apply(s, es[0]), m0);
        case Dealloc(name) => DeallocOwned(s, m0, name); DeallocNames(s, m0, name);
      }
      RunKeepsNames(Apply(s, es[0]), m0, es[1..]);
    }
  }

  lemma OwnedSame(s: State, s': State, m0: Memory)
    requires Owned(s, m0) && s'.mem.Keys == s.mem.Keys && s'.allocs == s.allocs && s'.known == s.known
    ensures Owned(s', m0) && OtherNames(s') == OtherNames(s)
  {
    hide Range;
    assert forall x :: x in s'.mem <==> x in s.mem.Keys;
  }

  /** Rollback, and disable after it, undo an activation exactly: from the memory it started from, through
      its caves, patches and deallocations, back to that memory, byte for byte and page for page. */
  lemma RollbackUndoesActivation(s: State, m0: Memory, es: seq<Event>)
    requires s.originals == [] && Owned(s, m0) && OwnRun(s, es)
    requires m0.Keys <= s.mem.Keys && forall x :: x in m0 ==> s.mem[x] == m0[x]
    ensures Rollback(Run(s, es)).mem == m0
    ensures Rollback(Run(s, es)).known == OtherNames(s)
    ensures Rollback(Run(s, es)).originals == [] && Rollback(Run(s, es)).allocs == []
  {
    hide Range, Replay, FreeAll, Run, OwnRun, AdmissibleRun, ForgetAll, OtherNames;
    RunKeepsNames(s, m0, es);
    RunOwned(s, m0, es);
    ForgetOwn(Run(s, es), m0);
    ReplayRestores(s, es);
    var s' := Run(s, es);
    var m := Replay(s'.mem, s'.writable, s'.originals);
    FreeAllEffect(m, s'.allocs);
    var f := FreeAll(m, s'.allocs);
    forall x ensures x in f <==> x in m0 {
      if x in m && x !in m0 {
        var i :| 0 <= i < |s'.allocs| && x in Range(s'.allocs[i].address, s'.allocs[i].size);
      }
    }
  }

  // ----- from the allocation on -----

  datatype Cave = Cave(alloc: Alloc, contents: Memory)

  /** Allocate the caves of a script, one after the other. */
  function AllocateAll(s: State, caves: seq<Cave>): State
    decreases |caves|
  {
    if caves == [] then s else AllocateAll(Allocate(s, caves[0].alloc, caves[0].contents), caves[1..])
  }

  ghost predicate AllFresh(s: State, caves: seq<Cave>)
    decreases |caves|
  {
    caves == [] ||
    (Fresh(s, caves[0].alloc, caves[0].contents) &&
     AllFresh(Allocate(s, caves[0].alloc, caves[0].contents), caves[1..]))
  }

  predicate Bears(caves: seq<Cave>, name: string) {
    exists i :: 0 <= i < |caves| && caves[i].alloc.name == name
  }

  lemma {:induction false} AllocateAllOwned(s: State, m0: Memory, caves: seq<Cave>)
    requires Owned(s, m0) && AllFresh(s, caves) && m0.Keys <= s.mem.Keys && forall x :: x in m0 ==> s.mem[x] == m0[x]
    ensures var s' := AllocateAll(s, caves);
            && Owned(s', m0) && m0.Keys <= s'.mem.Keys && (forall x :: x in m0 ==> s'.mem[x] == m0[x])
            && s'.originals == s.originals
    decreases |caves|
  {
    hide Range, Owned;
    if caves != [] {
      AllocateOwned(s, m0, caves[0].alloc, caves[0].contents);
      AllocateAllOwned(Allocate(s, caves[0].alloc, caves[0].contents), m0, caves[1..]);
    }
  }

  lemma {:induction false} AllocateAllNames(s: State, caves: seq<Cave>)
    ensures OtherNames(AllocateAll(s, caves))
         == map name | name in OtherNames(s) && !Bears(caves, name) :: OtherNames(s)[name]
    decreases |caves|
  {
    if caves != [] {
      var a := caves[0].alloc;
      var s1 := Allocate(s, a, caves[0].contents);
      AllocateAllNames(s1, caves[1..]);
      forall name ensures Bears(caves, name) <==> a.name == name || Bears(caves[1..], name) {
        BearsStep(caves, name);
      }
      forall name ensures Named(s1.allocs, name) <==> Named(s.allocs, name) || a.name == name {
        NamedIs(s.allocs, name);
        NamedIs(s1.allocs, name);
      }
      assert OtherNames(s1) == map name | name in OtherNames(s) && name != a.name :: OtherNames(s)[name];
    }
  }

  lemma BearsStep(caves: seq<Cave>, name: string)
    requires caves != []
    ensures Bears(caves, name) <==> caves[0].alloc.name == name || Bears(caves[1..], name)
  {
    if i :| 0 < i < |caves| && caves[i].alloc.name == name {
      assert caves[1..][i - 1].alloc.name == name;
    }
    if i :| 0 <= i < |caves[1..]| && caves[1..][i].alloc.name == name {
      assert caves[i + 1].alloc.name == name;
    }
  }

  /** An activation from its allocations to its rollback: memory comes back in full, and the names known before
      do exactly when no cave was given one of them. */
  lemma NamesComeBackIff(s: State, caves: seq<Cave>, es: seq<Event>)
    requires s.originals == [] && s.allocs == [] && Keyed(s.known) && AllFresh(s, caves) && OwnRun(AllocateAll(s, caves), es)
    ensures var s' := Rollback(Run(AllocateAll(s, caves), es));
            && s'.mem == s.mem && s'.originals == [] && s'.allocs == []
            && (s'.known == s.known <==> forall name :: name in s.known ==> !Bears(caves, name))
  {
    hide AllFresh, OwnRun, Run, AllocateAll, OtherNames, Bears, Rollback;
    StartsOwned(s);
    AllocateAllOwned(s, s.mem, caves);
    RollbackUndoesActivation(AllocateAll(s, caves), s.mem, es);
    AllocateAllNames(s, caves);
    NoneNamed(s);
  }

  lemma StartsOwned(s: State)
    requires s.allocs == [] && Keyed(s.known)
    ensures Owned(s, s.mem)
  {
  }

  lemma NoneNamed(s: State)
    requires s.allocs == []
    ensures OtherNames(s) == s.known
  {
  }

  /** A name of an earlier script that this one uses again is not known afterwards. */
  lemma NameIsLost(s: State)
    requires s == State(map[], {}, [], [], map["x" := Alloc("x", 500, 1)])
    ensures AllFresh(s, [Cave(Alloc("x", 100, 1), map[100 := 0])])
    ensures Rollback(Run(AllocateAll(s, [Cave(Alloc("x", 100, 1), map[100 := 0])]), [])).known == map[]
  {
    var cave := Cave(Alloc("x", 100, 1), map[100 := 0]);
    assert Range(100, 1) == {100};
    assert [cave][1..] == [];
    assert AllocateAll(s, [cave]) == Allocate(s, cave.alloc, cave.contents);
    var s1 := Allocate(s, cave.alloc, cave.contents);
    assert s1.allocs == [cave.alloc] && s1.allocs[1..] == [];
    assert Run(s1, []) == s1;
    assert s1.known["x"] == cave.alloc && s1.known - {"x"} == map[];
    assert ForgetAll(s1.known, s1.allocs) == ForgetAll(map[], []);
  }

  /** Why a deallocation must not free a byte before a surviving one in a patched range: the restoring write stops
      at the freed byte, and the byte after it keeps the patch. */
  lemma CutPatchIsNotRestored(s: State)
    requires s == State(map[100 := 1, 101 := 2], {100, 101}, [], [], map["cave" := Alloc("cave", 100, 1)])
    ensures var s' := Run(s, [Patch(100, [7, 8], {}), Dealloc("cave")]);
      Replay(s'.mem, s'.writable, s'.originals) == map[101 := 8]
  {
    var e1, e2 := Patch(100, [7, 8], {}), Dealloc("cave");
    var s1 := Apply(s, e1);
    assert Reach(s.mem, s.writable, 102, 0) == 0;
    assert Reach(s.mem, s.writable, 101, 1) == 1;
    assert Reach(s.mem, s.writable, 100, 2) == 2;
    assert s1.mem == map[100 := 7, 101 := 8];
    var bs := Bytes(s.mem, 100, 2);
    assert bs[0] == s.mem[100 + 0] == 1 && bs[1] == s.mem[100 + 1] == 2;
    assert bs == [1, 2];
    assert s1.originals == [Original(100, [1, 2])];
    var s2 := Apply(s1, e2);
    assert Range(100, 1) == {100};
    assert s2.mem == map[101 := 8];
    assert [e1, e2][1..] == [e2] && [e2][1..] == [];
    assert Run(s, [e1, e2]) == Run(s1, [e2]) == Run(s2, []) == s2;
    assert s2.originals[..0] == [];
    assert Write(s2.mem, s2.writable, 100, [1, 2]) == s2.mem;
  }
}
