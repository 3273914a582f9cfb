/** Unknown-value scanning of guest memory: snapshots of the whole region, their comparison, and the
    next scans that narrow the survivors. */
module GuestSnapshots {
  import opened ByteSeqs
  import opened GuestScan

  const CHUNK: nat := 1048576

  // ----- reading the whole region -----

  /** The longest prefix the chunked reads can deliver: they stop at the first read that delivers nothing. */
  function Readable(size: nat, reader: Reader, off: nat): (n: nat)
    requires off <= size
    ensures off <= n <= size
    decreases size - off
  {
    if off == size then size
    else
      var got := Delivered(reader, off, if CHUNK <= size - off then CHUNK else size - off);
      if got == 0 then off else Readable(size, reader, off + got)
  }

  method ReadRegion(ram: Bytes, reader: Reader) returns (buf: Bytes)
    ensures buf == ram[..Readable(|ram|, reader, 0)]
  {
    buf := [];
    var off: nat := 0;
    while off < |ram|
      invariant off <= |ram| && buf == ram[..off]
      invariant Readable(|ram|, reader, off) == Readable(|ram|, reader, 0)
      decreases |ram| - off
    {
      var want := if CHUNK <= |ram| - off then CHUNK else |ram| - off;
      var got := Delivered(reader, off, want);
      if got == 0 {
        return;
      }
      buf := buf + ram[off..off + got];
      off := off + got;
    }
  }

  /** The snapshot ends early exactly when the read at its end delivers nothing. */
  lemma {:induction false} SnapshotEnd(size: nat, reader: Reader, off: nat)
    requires off <= size
    ensures var n := Readable(size, reader, off);
            n < size ==> Delivered(reader, n, if CHUNK <= size - n then CHUNK else size - n) == 0
    ensures (forall k :: off <= k < size && k in reader ==> reader[k] > 0) ==> Readable(size, reader, off) == size
    decreases size - off
  {
    if off < size {
      var got := Delivered(reader, off, if CHUNK <= size - off then CHUNK else size - off);
      if got > 0 {
        SnapshotEnd(size, reader, off + got);
      }
    }
  }

  // ----- comparing -----

  datatype Compare = Changed | Unchanged | Increased | Decreased

  datatype Found = Found(at: nat, value: Bytes)

  /** A value's number: its bytes, lowest first, in two's complement when signed. */
  function Number(v: Bytes, signed: bool): int {
    if signed && v != [] && v[|v| - 1] >= 128 then -1 - FromBytes(Complement(v)) else FromBytes(v)
  }

  function Complement(v: Bytes): Bytes {
    seq(|v|, i requires 0 <= i < |v| => 255 - v[i])
  }

  predicate Keep(op: Compare, now: Bytes, before: Bytes, signed: bool) {
    match op
    case Changed => Number(now, signed) != Number(before, signed)
    case Unchanged => Number(now, signed) == Number(before, signed)
    case Increased => Number(now, signed) > Number(before, signed)
    case Decreased => Number(now, signed) < Number(before, signed)
  }

  /** The kind of value scanned for. */
  datatype Kind = Kind(width: nat, signed: bool, bigEndian: bool)

  /** The value of the guest at an offset. */
  function ValueAt(ram: Bytes, k: Kind, at: nat): (v: Bytes)
    requires at + k.width <= |ram|
    ensures |v| == k.width
  {
    GuestOrder(ram[at..at + k.width], k.bigEndian)
  }

  /** The survivors at offsets `off`, `off + alignment`, … of two snapshots. */
  function Survivors(before: Bytes, now: Bytes, k: Kind, op: Compare, alignment: nat, off: nat): seq<Found>
    requires alignment > 0
    decreases |now| - off
  {
    if off + k.width > |before| || off + k.width > |now| || off >= |now| then []
    else
      (if Keep(op, ValueAt(now, k, off), ValueAt(before, k, off), k.signed) then [Found(off, ValueAt(now, k, off))] else [])
      + Survivors(before, now, k, op, alignment, off + alignment)
  }

  lemma SurvivorsFrom(before: Bytes, now: Bytes, k: Kind, op: Compare, alignment: nat, off: nat)
    requires alignment > 0 && k.width > 0
    ensures off + k.width <= |before| && off + k.width <= |now| ==>
      Survivors(before, now, k, op, alignment, off)
      == (if Keep(op, ValueAt(now, k, off), ValueAt(before, k, off), k.signed) then [Found(off, ValueAt(now, k, off))] else [])
         + Survivors(before, now, k, op, alignment, off + alignment)
    ensures off + k.width > |before| || off + k.width > |now| ==> Survivors(before, now, k, op, alignment, off) == []
  {
    hide Number, ValueAt, Keep;
  }

  method CompareBuffers(before: Bytes, now: Bytes, k: Kind, op: Compare, alignment: nat) returns (out: seq<Found>)
    requires k.width > 0
    ensures out == Survivors(before, now, k, op, if alignment == 0 then 1 else alignment, 0)
  {
    hide *;
    out := [];
    var align := if alignment == 0 then 1 else alignment;
    var n := if |before| <= |now| then |before| else |now|;
    var off: nat := 0;
    while off + k.width <= n
      invariant out + Survivors(before, now, k, op, align, off) == Survivors(before, now, k, op, align, 0)
      decreases n - off
    {
      SurvivorsFrom(before, now, k, op, align, off);
      ghost var rest := Survivors(before, now, k, op, align, off + align);
      var o, c := ValueAt(before, k, off), ValueAt(now, k, off);
      if Keep(op, c, o, k.signed) {
        assert out + ([Found(off, c)] + rest) == (out + [Found(off, c)]) + rest;
        out := out + [Found(off, c)];
      } else {
        assert [] + rest == rest;
      }
      off := off + align;
    }
    SurvivorsFrom(before, now, k, op, align, off);
  }

  /** A value can be read when it is in range and the process delivers all of its bytes. */
  predicate CanRead(ram: Bytes, reader: Reader, k: Kind, at: nat) {
    at + k.width <= |ram| && Delivered(reader, at, k.width) == k.width
  }

  /** One candidate of a next scan: it stays, with its current value, when it can be read and compares so. */
  function Narrow(ram: Bytes, reader: Reader, k: Kind, op: Compare, f: Found): seq<Found> {
    if CanRead(ram, reader, k, f.at) && Keep(op, ValueAt(ram, k, f.at), f.value, k.signed)
    then [Found(f.at, ValueAt(ram, k, f.at))] else []
  }

  function Next(ram: Bytes, reader: Reader, k: Kind, op: Compare, prev: seq<Found>): seq<Found> {
    if prev == [] then [] else Narrow(ram, reader, k, op, prev[0]) + Next(ram, reader, k, op, prev[1..])
  }

  lemma NextFrom(ram: Bytes, reader: Reader, k: Kind, op: Compare, prev: seq<Found>, i: nat)
    requires i <= |prev|
    ensures i < |prev| ==>
              Next(ram, reader, k, op, prev[i..]) == Narrow(ram, reader, k, op, prev[i]) + Next(ram, reader, k, op, prev[i + 1..])
    ensures i == |prev| ==> Next(ram, reader, k, op, prev[i..]) == []
  {
    hide Number, ValueAt, Keep, Narrow;
    if i < |prev| {
      assert prev[i..][1..] == prev[i + 1..];
    }
  }

  method NextCompare(ram: Bytes, reader: Reader, k: Kind, op: Compare, prev: seq<Found>) returns (out: seq<Found>)
    ensures out == Next(ram, reader, k, op, prev)
  {
    hide Number, ValueAt, Keep, Next;
    out := [];
    var i := 0;
    assert prev[0..] == prev;
    while i < |prev|
      invariant i <= |prev|
      invariant out + Next(ram, reader, k, op, prev[i..]) == Next(ram, reader, k, op, prev)
    {
      NextFrom(ram, reader, k, op, prev, i);
      var f := prev[i];
      ghost var rest := Next(ram, reader, k, op, prev[i + 1..]);
      assert out + (Narrow(ram, reader, k, op, f) + rest) == (out + Narrow(ram, reader, k, op, f)) + rest;
      if CanRead(ram, reader, k, f.at) {
        var c := ValueAt(ram, k, f.at);
        if Keep(op, c, f.value, k.signed) {
          out := out + [Found(f.at, c)];
        }
      }
      i := i + 1;
    }
    NextFrom(ram, reader, k, op, prev, i);
  }

  // ----- how the scans fit together -----

  /** Every aligned offset of a snapshot, with its value: the candidates of an unknown-value scan. */
  function Candidates(before: Bytes, k: Kind, alignment: nat, off: nat): seq<Found>
    requires alignment > 0
    decreases |before| - off
  {
    if off + k.width > |before| || off >= |before| then []
    else [Found(off, ValueAt(before, k, off))] + Candidates(before, k, alignment, off + alignment)
  }

  lemma {:induction false} NoneInRange(before: Bytes, ram: Bytes, reader: Reader, k: Kind, op: Compare,
                                       alignment: nat, off: nat)
    requires alignment > 0 && k.width > 0 && off + k.width > |ram|
    ensures Next(ram, reader, k, op, Candidates(before, k, alignment, off)) == []
    decreases |before| - off
  {
    if off + k.width <= |before| {
      NoneInRange(before, ram, reader, k, op, alignment, off + alignment);
      ConsNext(ram, reader, k, op, Found(off, ValueAt(before, k, off)), Candidates(before, k, alignment, off + alignment));
    }
  }

  lemma ConsNext(ram: Bytes, reader: Reader, k: Kind, op: Compare, f: Found, rest: seq<Found>)
    ensures Next(ram, reader, k, op, [f] + rest) == Narrow(ram, reader, k, op, f) + Next(ram, reader, k, op, rest)
  {
    assert ([f] + rest)[1..] == rest;
  }

  /** Those whose value can be read one by one. */
  function Reachable(ram: Bytes, reader: Reader, k: Kind, fs: seq<Found>): (r: seq<Found>)
    ensures (forall f :: f in fs ==> CanRead(ram, reader, k, f.at)) ==> r == fs
  {
    if fs == [] then []
    else (if CanRead(ram, reader, k, fs[0].at) then [fs[0]] else []) + Reachable(ram, reader, k, fs[1..])
  }

  lemma ConsReachable(ram: Bytes, reader: Reader, k: Kind, f: Found, rest: seq<Found>)
    ensures Reachable(ram, reader, k, [f] + rest)
         == (if CanRead(ram, reader, k, f.at) then [f] else []) + Reachable(ram, reader, k, rest)
  {
    assert ([f] + rest)[1..] == rest;
  }

  /** A next scan over every aligned offset of a snapshot finds what comparing it with a second snapshot finds, but
      for the values that cannot be read. */
  lemma {:induction false} CompareIsNextScan(before: Bytes, now: Bytes, reader: Reader, k: Kind, op: Compare,
                                             alignment: nat, off: nat)
    requires alignment > 0 && k.width > 0
    ensures Next(now, reader, k, op, Candidates(before, k, alignment, off))
         == Reachable(now, reader, k, Survivors(before, now, k, op, alignment, off))
    decreases |before| - off
  {
    hide Keep, Number, ValueAt, CanRead, Survivors, Candidates, Next, Narrow, Reachable;
    SurvivorsFrom(before, now, k, op, alignment, off);
    CandidatesFrom(before, k, alignment, off);
    NothingFound(now, reader, k, op);
    if off + k.width <= |before| {
      if off + k.width > |now| {
        NoneInRange(before, now, reader, k, op, alignment, off);
      } else {
        CompareIsNextScan(before, now, reader, k, op, alignment, off + alignment);
        var rest := Survivors(before, now, k, op, alignment, off + alignment);
        var was := Found(off, ValueAt(before, k, off));
        ConsNext(now, reader, k, op, was, Candidates(before, k, alignment, off + alignment));
        NarrowIs(now, reader, k, op, was);
        ConsReachable(now, reader, k, Found(off, ValueAt(now, k, off)), rest);
        assert [] + rest == rest;
      }
    }
  }

  lemma CandidatesFrom(before: Bytes, k: Kind, alignment: nat, off: nat)
    requires alignment > 0 && k.width > 0
    ensures Candidates(before, k, alignment, off)
         == if off + k.width > |before| then []
            else [Found(off, ValueAt(before, k, off))] + Candidates(before, k, alignment, off + alignment)
  {
    hide ValueAt;
  }

  lemma NothingFound(ram: Bytes, reader: Reader, k: Kind, op: Compare)
    ensures Next(ram, reader, k, op, []) == [] && Reachable(ram, reader, k, []) == []
  {
  }

  lemma NarrowIs(ram: Bytes, reader: Reader, k: Kind, op: Compare, f: Found)
    requires f.at + k.width <= |ram|
    ensures Narrow(ram, reader, k, op, f)
         == if Keep(op, ValueAt(ram, k, f.at), f.value, k.signed) && CanRead(ram, reader, k, f.at)
            then [Found(f.at, ValueAt(ram, k, f.at))] else []
  {
    hide Keep, ValueAt;
  }

  /** Survivors carry their current value: asking for unchanged ones right away keeps them all. */
  lemma {:induction false} SurvivorsAreCurrent(ram: Bytes, reader: Reader, k: Kind, op: Compare, prev: seq<Found>)
    ensures Next(ram, reader, k, Unchanged, Next(ram, reader, k, op, prev)) == Next(ram, reader, k, op, prev)
  {
    hide Number, ValueAt;
    if prev != [] {
      SurvivorsAreCurrent(ram, reader, k, op, prev[1..]);
      var kept := Narrow(ram, reader, k, op, prev[0]);
      var rest := Next(ram, reader, k, op, prev[1..]);
      if kept != [] {
        ConsNext(ram, reader, k, Unchanged, kept[0], rest);
        assert Narrow(ram, reader, k, Unchanged, kept[0]) == kept;
        assert kept == [kept[0]];
      } else {
        assert kept + rest == rest;
      }
    }
  }

  /** Changed and unchanged split the readable candidates; increased and decreased split the changed. */
  lemma {:induction false} ScansPartition(ram: Bytes, reader: Reader, k: Kind, prev: seq<Found>)
    ensures |Next(ram, reader, k, Changed, prev)|
         == |Next(ram, reader, k, Increased, prev)| + |Next(ram, reader, k, Decreased, prev)|
    ensures (forall f :: f in prev ==> CanRead(ram, reader, k, f.at)) ==>
              |Next(ram, reader, k, Changed, prev)| + |Next(ram, reader, k, Unchanged, prev)| == |prev|
  {
    hide Number, ValueAt, Keep, Narrow;
    if prev != [] {
      ScansPartition(ram, reader, k, prev[1..]);
      OneSplits(ram, reader, k, prev[0]);
      forall op: Compare
        ensures |Next(ram, reader, k, op, prev)|
             == |Narrow(ram, reader, k, op, prev[0])| + |Next(ram, reader, k, op, prev[1..])|
      {
      }
      assert prev[0] in prev && forall f :: f in prev[1..] ==> f in prev;
    }
  }

  lemma OneSplits(ram: Bytes, reader: Reader, k: Kind, f: Found)
    ensures |Narrow(ram, reader, k, Changed, f)|
         == |Narrow(ram, reader, k, Increased, f)| + |Narrow(ram, reader, k, Decreased, f)|
    ensures CanRead(ram, reader, k, f.at) ==> |Narrow(ram, reader, k, Changed, f)| + |Narrow(ram, reader, k, Unchanged, f)| == 1
  {
    hide Number, ValueAt;
  }

  /** The number now and the number before, as the kind of scan asks for. */
  predicate Compares(op: Compare, now: int, before: int) {
    (op.Changed? ==> now != before) && (op.Unchanged? ==> now == before)
    && (op.Increased? ==> before < now) && (op.Decreased? ==> now < before)
  }

  /** What a next scan keeps: exactly the candidates that can be read and whose number has changed as asked, with their
      present values. */
  lemma {:induction false} NextKeeps(ram: Bytes, reader: Reader, k: Kind, op: Compare, prev: seq<Found>, f: Found)
    ensures f in Next(ram, reader, k, op, prev)
       <==> CanRead(ram, reader, k, f.at) && f.value == ValueAt(ram, k, f.at)
            && exists g :: g in prev && g.at == f.at && Compares(op, Number(f.value, k.signed), Number(g.value, k.signed))
  {
    hide Number, ValueAt, CanRead;
    if prev != [] {
      NextKeeps(ram, reader, k, op, prev[1..], f);
      assert prev == [prev[0]] + prev[1..];
      if CanRead(ram, reader, k, prev[0].at) {
        InRange(ram, reader, k, prev[0].at);
        NarrowIs(ram, reader, k, op, prev[0]);
      }
    }
  }

  lemma InRange(ram: Bytes, reader: Reader, k: Kind, at: nat)
    requires CanRead(ram, reader, k, at)
    ensures at + k.width <= |ram|
  {
  }

  /** Signed numbers are in two's complement: one byte of them. */
  lemma OneByte(b: Byte)
    ensures Number([b], false) == b && Number([b], true) == if b >= 128 then b - 256 else b
  {
    assert [b][1..] == [] && FromBytes([]) == 0;
    var c := Complement([b]);
    assert c == [255 - b] && c[1..] == [];
  }
}
