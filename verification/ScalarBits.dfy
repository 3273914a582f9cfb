/** Scalars as the target stores them: encoded by the codec, in the target's byte order. */
module ScalarBits {
  import opened ByteSeqs
  import opened Text
  import opened Words
  import opened ValueCodec

  datatype ValueType =
    | TByte | TInt16 | TInt32 | TInt64 | TFloat | TDouble | TString | TUnicodeString | TByteArray | TBinary
    | TAll | TGrouped | TCustom | TPointer

  /** 0 for what is not a scalar. */
  function ScalarWidth(t: ValueType): (w: nat)
    ensures w == 0 || IsWidth(w)
  {
    match t
    case TByte => 1
    case TInt16 => 2
    case TInt32 => 4
    case TFloat => 4
    case TInt64 => 8
    case TDouble => 8
    case TPointer => 8
    case _ => 0
  }

  predicate IsIntegerScalar(t: ValueType) {
    t == TByte || t == TInt16 || t == TInt32 || t == TInt64
  }

  function Ordered(s: seq<Byte>, bigEndian: bool): (r: seq<Byte>)
    ensures |r| == |s|
  {
    if bigEndian && |s| > 1 then Reverse(s) else s
  }

  function Encoded(t: ValueType, c: Codec, bits: U64): U64 {
    if c.op != Plain && IsIntegerScalar(t) then Encode(c, bits, ScalarWidth(t)) else bits
  }

  function Decoded(t: ValueType, c: Codec, bits: U64): U64 {
    if c.op != Plain && IsIntegerScalar(t) then Decode(c, bits, ScalarWidth(t)) else bits
  }

  /** The bytes written for a value. */
  function Stored(t: ValueType, bits: U64, bigEndian: bool, c: Codec): (s: seq<Byte>)
    ensures |s| == ScalarWidth(t)
  {
    Ordered(ToBytes(Encoded(t, c, bits), ScalarWidth(t)), bigEndian)
  }

  /** The value read back from stored bytes. */
  function Logical(t: ValueType, stored: seq<Byte>, bigEndian: bool, c: Codec): U64
    requires |stored| == ScalarWidth(t)
  {
    if ScalarWidth(t) == 0 then 0
    else
      BytesFit(Ordered(stored, bigEndian));
      Decoded(t, c, FromBytes(Ordered(stored, bigEndian)))
  }

  lemma {:induction false} FromBytesBound(s: seq<Byte>)
    ensures FromBytes(s) < Pow2(8 * |s|)
    decreases |s|
  {
    if s != [] {
      FromBytesBound(s[1..]);
      ByteMore(|s| - 1);
    }
  }

  lemma ByteMore(n: nat)
    ensures Pow2(8 * (n + 1)) == 256 * Pow2(8 * n)
  {
    Pow2Values();
    Pow2Sum(8, 8 * n);
  }

  lemma BytesFit(s: seq<Byte>)
    requires IsWidth(|s|)
    ensures FromBytes(s) < TWO_64
  {
    FromBytesBound(s);
    CutMeans(0, |s|);
  }

  lemma {:induction false} WordOfBytes(x: nat, n: nat)
    ensures FromBytes(ToBytes(x, n)) == x % Pow2(8 * n)
    decreases n
  {
    if n > 0 {
      WordOfBytes(x / 256, n - 1);
      ByteMore(n - 1);
      assert ToBytes(x, n)[1..] == ToBytes(x / 256, n - 1);
      TakeByte(x, Pow2(8 * (n - 1)));
    }
  }

  lemma TakeByte(x: nat, m: nat)
    requires m > 0
    ensures x % (256 * m) == x % 256 + 256 * (x / 256 % m)
  {
    var q, r := x / 256 / m, x / 256 % m;
    assert x / 256 == q * m + r;
    Associate(q, 256, m);
    RemainderIs(x, q, x % 256 + 256 * r, 256 * m);
  }

  lemma {:induction false} BytesOfWord(s: seq<Byte>)
    ensures ToBytes(FromBytes(s), |s|) == s
    decreases |s|
  {
    if s != [] {
      BytesOfWord(s[1..]);
      var x := FromBytes(s);
      assert x % 256 == s[0] && x / 256 == FromBytes(s[1..]);
    }
  }

  lemma OrderTwice(s: seq<Byte>, bigEndian: bool)
    ensures Ordered(Ordered(s, bigEndian), bigEndian) == s
  {
  }

  /** Reading back what was written gives the value cut to its width, for every type, codec and byte order. */
  lemma StoredReadsBack(t: ValueType, bits: U64, bigEndian: bool, c: Codec)
    requires ScalarWidth(t) > 0
    ensures Logical(t, Stored(t, bits, bigEndian, c), bigEndian, c) == Cut(bits, ScalarWidth(t))
  {
    hide Ordered, ToBytes, FromBytes, Encode, Decode, Cut, Pow2;
    var w := ScalarWidth(t);
    var word := Encoded(t, c, bits);
    OrderTwice(ToBytes(word, w), bigEndian);
    WordOfBytes(word, w);
    CutMeans(word, w);
    DecodeEncode(c, bits, w);
    DecodeCuts(c, Encode(c, bits, w), w);
  }

  lemma DecodeCuts(c: Codec, x: U64, bytes: nat)
    requires IsWidth(bytes)
    ensures Decode(c, Cut(x, bytes), bytes) == Decode(c, x, bytes)
  {
    hide And, Pow2, MaskFor, Cut, Backward;
    Masked(x, bytes);
    Masked(Cut(x, bytes), bytes);
    CutTwice(x, bytes);
  }

  /** Without a codec the bytes are the value's own digits to the base 256: lowest first for a little-endian target,
      highest first for a big-endian one. */
  lemma BytesInOrder(t: ValueType, bits: U64, key: U64)
    requires ScalarWidth(t) > 0
    ensures var w := ScalarWidth(t);
            && FromBytes(Stored(t, bits, false, Codec(Plain, key))) == bits % Pow2(8 * w)
            && FromBytes(Reverse(Stored(t, bits, true, Codec(Plain, key)))) == bits % Pow2(8 * w)
  {
    hide ToBytes, FromBytes, Pow2;
    var w := ScalarWidth(t);
    WordOfBytes(bits, w);
    var s := ToBytes(bits, w);
    assert Reverse(Reverse(s)) == s;
    assert w == 1 ==> Reverse(s) == s;
  }

  /** Writing back what was read leaves the bytes as they were. */
  lemma ReadWritesBack(t: ValueType, stored: seq<Byte>, bigEndian: bool, c: Codec)
    requires ScalarWidth(t) > 0 && |stored| == ScalarWidth(t)
    ensures Stored(t, Logical(t, stored, bigEndian, c), bigEndian, c) == stored
  {
    hide Ordered, ToBytes, FromBytes, Encode, Decode, Cut, Pow2;
    var w := ScalarWidth(t);
    var s := Ordered(stored, bigEndian);
    BytesFit(s);
    var word := FromBytes(s);
    BytesOfWord(s);
    WordOfBytes(word, w);
    CutMeans(word, w);
    DecodeEncode(c, word, w);
    OrderTwice(stored, bigEndian);
  }

  // ----- in place -----

  method ReverseInPlace(out: array<Byte>, w: nat)
    requires w <= out.Length
    modifies out
    ensures out[..w] == Reverse(old(out[..w]))
    ensures forall k :: w <= k < out.Length ==> out[k] == old(out[k])
  {
    var i := 0;
    while i < w / 2
      invariant 0 <= i <= w / 2
      invariant forall k :: 0 <= k < i ==> out[k] == old(out[w - 1 - k]) && out[w - 1 - k] == old(out[k])
      invariant forall k :: i <= k < w - i ==> out[k] == old(out[k])
      invariant forall k :: w <= k < out.Length ==> out[k] == old(out[k])
    {
      out[i], out[w - 1 - i] := out[w - 1 - i], out[i];
      i := i + 1;
    }
  }

  method EncodeScalarBits(t: ValueType, logicalBits: U64, bigEndian: bool, c: Codec, out: array<Byte>)
    requires ScalarWidth(t) <= out.Length
    modifies out
    ensures out[..ScalarWidth(t)] == Stored(t, logicalBits, bigEndian, c)
    ensures forall k :: ScalarWidth(t) <= k < out.Length ==> out[k] == old(out[k])
  {
    var w := ScalarWidth(t);
    if w == 0 {
      return;
    }
    var raw: U64 := logicalBits;
    if c.op != Plain && IsIntegerScalar(t) {
      raw := Encode(c, raw, w);
    }
    var bytes := ToBytes(raw, w);
    var i := 0;
    while i < w
      invariant 0 <= i <= w
      invariant forall k :: 0 <= k < i ==> out[k] == bytes[k]
      invariant forall k :: w <= k < out.Length ==> out[k] == old(out[k])
    {
      out[i] := bytes[i];
      i := i + 1;
    }
    assert out[..w] == bytes;
    if bigEndian && w > 1 {
      ReverseInPlace(out, w);
    }
  }

  method DecodeScalarBits(t: ValueType, stored: array<Byte>, bigEndian: bool, c: Codec) returns (raw: U64)
    requires ScalarWidth(t) <= stored.Length
    ensures raw == Logical(t, stored[..ScalarWidth(t)], bigEndian, c)
  {
    var w := ScalarWidth(t);
    if w == 0 {
      return 0;
    }
    var buf := new Byte[8](_ => 0);
    var i := 0;
    while i < w
      invariant 0 <= i <= w
      invariant forall k :: 0 <= k < i ==> buf[k] == stored[k]
    {
      buf[i] := stored[i];
      i := i + 1;
    }
    assert buf[..w] == stored[..w];
    if bigEndian && w > 1 {
      ReverseInPlace(buf, w);
    }
    BytesFit(buf[..w]);
    raw := FromBytes(buf[..w]);
    if c.op != Plain && IsIntegerScalar(t) {
      raw := Decode(c, raw, w);
    }
  }
}
