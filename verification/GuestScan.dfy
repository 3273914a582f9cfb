/** Scanning emulated guest memory: values in guest byte order, a windowed first scan, snapshots, and the
    comparison scans that narrow it. */
module GuestScan {
  import opened ByteSeqs
  import opened Ascents
  import opened Text
  import opened Words

  const STRIDE: nat := 1048576

  /** A value is given by its bytes as the host holds them. Only values of 2, 4 and 8 bytes have an order to swap. */
  function Byteswap(v: Bytes): (r: Bytes)
    ensures |r| == |v|
  {
    if |v| == 2 || |v| == 4 || |v| == 8 then Reverse(v) else v
  }

  lemma ByteswapTwice(v: Bytes)
    ensures Byteswap(Byteswap(v)) == v
  {
  }

  function GuestOrder(v: Bytes, bigEndian: bool): (r: Bytes)
    ensures |r| == |v|
  {
    if bigEndian then Byteswap(v) else v
  }

  // ----- bounds -----

  /** The check as written, in 64-bit arithmetic. */
  predicate Contains(size: U64, address: U64, n: U64) {
    n > 0 && Wrap(address + n) >= address && Wrap(address + n) <= size
  }

  lemma ContainsIff(size: U64, address: U64, n: U64)
    ensures Contains(size, address, n) <==> n > 0 && address + n <= size
  {
    if address + n >= TWO_64 {
      WrapUnique(address + n, 1, address + n - TWO_64);
    } else {
      WrapUnique(address + n, 0, address + n);
    }
  }

  // ----- the exact first scan -----

  predicate Matches(ram: Bytes, at: nat, needle: Bytes) {
    at + |needle| <= |ram| && ram[at..at + |needle|] == needle
  }

  /** How many of the bytes asked for at an offset the process delivers; a failed read delivers none. */
  type Reader = map<nat, nat>

  function Delivered(reader: Reader, offset: nat, want: nat): (got: nat)
    ensures got <= want
  {
    if offset in reader && reader[offset] < want then reader[offset] else want
  }

  function Window(width: nat, size: nat, offset: nat): nat
    requires width > 0 && offset <= size
  {
    if STRIDE + width - 1 <= size - offset then STRIDE + width - 1 else size - offset
  }

  predicate FullReads(reader: Reader) {
    reader == map[]
  }

  /** Windows count from their own start. */
  predicate OnWindowGrid(at: nat, alignment: nat)
    requires alignment > 0
  {
    (at - at / STRIDE * STRIDE) % alignment == 0
  }

  predicate OnGrid(at: nat, alignment: nat)
    requires alignment > 0
  {
    at % alignment == 0
  }

  /** What the windowed scan reports: the offset is on the grid of its own window, and the bytes there are
      the needle and were delivered. */
  predicate Reported(ram: Bytes, reader: Reader, needle: Bytes, alignment: nat, at: nat)
    requires alignment > 0 && needle != []
  {
    var base := at / STRIDE * STRIDE;
    && Matches(ram, at, needle)
    && OnWindowGrid(at, alignment)
    && at + |needle| <= base + Delivered(reader, base, Window(|needle|, |ram|, base))
  }

  /** What a scan of the whole region would report. */
  predicate Naive(ram: Bytes, needle: Bytes, alignment: nat, at: nat)
    requires alignment > 0
  {
    Matches(ram, at, needle) && OnGrid(at, alignment)
  }

  /** Fill the front of the buffer; what lies behind stays from the window before. */
  method ReadWindow(ram: Bytes, offset: nat, got: nat, buf: array<Byte>)
    requires offset + got <= |ram| && got <= buf.Length
    modifies buf
    ensures buf[..got] == ram[offset..offset + got]
    ensures forall i :: got <= i < buf.Length ==> buf[i] == old(buf[i])
  {
    var i := 0;
    while i < got
      invariant i <= got
      invariant forall k :: 0 <= k < i ==> buf[k] == ram[offset + k]
      invariant forall k :: got <= k < buf.Length ==> buf[k] == old(buf[k])
    {
      buf[i] := ram[offset + i];
      i := i + 1;
    }
  }

  /** The hits inside one window, from the grid points `from`, `from + alignment`, … below `limit`. */
  predicate WindowHit(ram: Bytes, needle: Bytes, alignment: nat, offset: nat, limit: nat, at: nat)
    requires alignment > 0
  {
    offset <= at < offset + limit && (at - offset) % alignment == 0 && Matches(ram, at, needle)
  }

  method ScanWindow(ram: Bytes, needle: Bytes, alignment: nat, offset: nat, got: nat, limit: nat, buf: array<Byte>)
      returns (hits: seq<nat>)
    requires alignment > 0 && 0 < |needle| <= got <= buf.Length && offset + got <= |ram|
    requires limit + |needle| - 1 <= got && buf[..got] == ram[offset..offset + got]
    ensures Ascending(hits)
    ensures forall at: nat :: at in hits <==> WindowHit(ram, needle, alignment, offset, limit, at)
  {
    hits := [];
    var i := 0;
    ghost var step := 0;
    while i < limit
      invariant i == step * alignment && 0 <= step
      invariant Ascending(hits)
      invariant forall at: nat :: at in hits <==> at < offset + i && WindowHit(ram, needle, alignment, offset, limit, at)
      decreases limit - i
    {
      SameBytes(ram, offset, got, buf[..got], i, |needle|);
      var equal := buf[..got][i..i + |needle|] == needle;
      ghost var before := hits;
      GridPoint(step, alignment);
      if equal {
        hits := hits + [offset + i];
        AscendingAppend(before, offset + i);
      }
      NextGridPoint(ram, needle, alignment, offset, limit, step);
      assert forall at: nat :: at in hits <==> at in before || (equal && at == offset + i) by {
        if equal {
          assert hits[|before|] == offset + i;
        }
      }
      i := i + alignment;
      step := step + 1;
    }
  }

  lemma SameBytes(ram: Bytes, offset: nat, got: nat, window: Bytes, i: nat, n: nat)
    requires offset + got <= |ram| && window == ram[offset..offset + got] && i + n <= got
    ensures window[i..i + n] == ram[offset + i..offset + i + n]
  {
    var a, b := window[i..i + n], ram[offset + i..offset + i + n];
    forall k | 0 <= k < n ensures a[k] == b[k] {
      assert a[k] == window[i + k];
    }
  }

  lemma GridPoint(step: nat, alignment: nat)
    requires alignment > 0
    ensures (step * alignment) % alignment == 0
    ensures (step + 1) * alignment == step * alignment + alignment
  {
    RemainderIs(step * alignment, step, 0, alignment);
  }

  lemma OffGrid(x: int, step: nat, alignment: nat)
    requires alignment > 0 && step * alignment < x < step * alignment + alignment
    ensures x % alignment != 0
  {
    RemainderIs(x, step, x - step * alignment, alignment);
  }

  /** Between two grid points there is no other. */
  lemma NextGridPoint(ram: Bytes, needle: Bytes, alignment: nat, offset: nat, limit: nat, step: nat)
    requires alignment > 0
    ensures forall at: nat :: offset + step * alignment < at < offset + step * alignment + alignment ==>
      !WindowHit(ram, needle, alignment, offset, limit, at)
  {
    hide Matches;
    forall at: nat | offset + step * alignment < at < offset + step * alignment + alignment
      ensures !WindowHit(ram, needle, alignment, offset, limit, at)
    {
      OffGrid(at - offset, step, alignment);
    }
  }

  method ScanExact(ram: Bytes, reader: Reader, value: Bytes, bigEndian: bool, alignment: nat) returns (hits: seq<nat>)
    requires 0 < |value|
    ensures Ascending(hits)
    ensures forall at: nat :: at in hits <==>
      Reported(ram, reader, GuestOrder(value, bigEndian), if alignment == 0 then 1 else alignment, at)
  {
    hits := [];
    var size := |ram|;
    var width := |value|;
    var needle := GuestOrder(value, bigEndian);
    if size < width {
      return;
    }
    var align := if alignment == 0 then 1 else alignment;
    var buf := new Byte[STRIDE + width](_ => 0);
    var off: nat := 0;
    ghost var n: nat := 0;
    while off + width <= size
      invariant off == n * STRIDE
      invariant Ascending(hits)
      invariant forall at: nat :: at in hits <==> at < off && Reported(ram, reader, needle, align, at)
      decreases size - off
    {
      var want := Window(width, size, off);
      var got := Delivered(reader, off, want);
      ghost var before := hits;
      var limit := if got < width then 0 else if STRIDE <= got - width + 1 then STRIDE else got - width + 1;
      forall at: nat | off <= at < off + STRIDE
        ensures Reported(ram, reader, needle, align, at) <==> WindowHit(ram, needle, align, off, limit, at) {
        InWindow(ram, reader, needle, align, n, limit, at);
      }
      if got >= width {
        ReadWindow(ram, off, got, buf);
        var found := ScanWindow(ram, needle, align, off, got, limit, buf);
        JoinHits(hits, found, off);
        hits := hits + found;
      }
      off := off + STRIDE;
      n := n + 1;
    }
    forall at: nat | Reported(ram, reader, needle, align, at) ensures at < off {
    }
  }

  lemma JoinHits(a: seq<nat>, b: seq<nat>, off: nat)
    requires Ascending(a) && Ascending(b)
    requires (forall x :: x in a ==> x < off) && (forall x :: x in b ==> off <= x)
    ensures Ascending(a + b)
  {
    var s: seq<nat> := a + b;
    forall i, j | 0 <= i < j < |s| ensures s[i] < s[j] {
      if i < |a| { assert a[i] in a; }
      if j >= |a| { assert b[j - |a|] in b; }
    }
  }

  /** A match that starts in a window is reported there, the bytes that reach into the next one included. */
  lemma InWindow(ram: Bytes, reader: Reader, needle: Bytes, alignment: nat, n: nat, limit: nat, at: nat)
    requires alignment > 0 && needle != [] && n * STRIDE + |needle| <= |ram|
    requires n * STRIDE <= at < n * STRIDE + STRIDE
    requires var off := n * STRIDE;
             var got := Delivered(reader, off, Window(|needle|, |ram|, off));
             limit == if got < |needle| then 0
                      else if STRIDE <= got - |needle| + 1 then STRIDE else got - |needle| + 1
    ensures Reported(ram, reader, needle, alignment, at) <==> WindowHit(ram, needle, alignment, n * STRIDE, limit, at)
  {
    RemainderIs(at, n, at - n * STRIDE, STRIDE);
  }

  // ----- the windowed scan is the naive scan -----

  lemma SumOfMultiples(x: nat, y: nat, m: nat)
    requires m > 0 && x % m == 0
    ensures (x + y) % m == y % m
  {
    RemainderIs(x + y, x / m + y / m, y % m, m);
  }

  lemma MultipleOfMultiple(k: nat, s: nat, m: nat)
    requires m > 0 && s % m == 0
    ensures (k * s) % m == 0
  {
    var q := s / m;
    assert s == q * m;
    assert k * s == (k * q) * m;
    RemainderIs(k * s, k * q, 0, m);
  }

  /** The window grids make up the grid of the whole region exactly when the alignment divides the stride. */
  lemma GridsAgreeIff(alignment: nat)
    requires alignment > 0
    ensures (forall at: nat :: OnWindowGrid(at, alignment) <==> OnGrid(at, alignment)) <==> STRIDE % alignment == 0
  {
    if STRIDE % alignment == 0 {
      forall at: nat ensures OnWindowGrid(at, alignment) <==> OnGrid(at, alignment) {
        MultipleOfMultiple(at / STRIDE, STRIDE, alignment);
        SumOfMultiples(at / STRIDE * STRIDE, at - at / STRIDE * STRIDE, alignment);
      }
    } else {
      assert OnWindowGrid(STRIDE, alignment) && !OnGrid(STRIDE, alignment);
    }
  }

  /** With full reads and such an alignment the windowed scan finds what the naive scan finds. */
  lemma WindowedIsNaive(ram: Bytes, reader: Reader, needle: Bytes, alignment: nat, at: nat)
    requires alignment > 0 && needle != [] && STRIDE % alignment == 0 && FullReads(reader)
    ensures Reported(ram, reader, needle, alignment, at) <==> Naive(ram, needle, alignment, at)
  {
    GridsAgreeIff(alignment);
  }
}
