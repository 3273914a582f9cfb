/** Values as byte sequences, lowest byte first. */
module ByteSeqs {

  type Byte = b: int | 0 <= b < 256

  type Bytes = seq<Byte>

  function Reverse(s: Bytes): (r: Bytes)
    ensures |r| == |s| && forall i :: 0 <= i < |s| ==> r[i] == s[|s| - 1 - i]
  {
    seq(|s|, i requires 0 <= i < |s| => s[|s| - 1 - i])
  }

  function FromBytes(s: Bytes): nat {
    if s == [] then 0 else s[0] + 256 * FromBytes(s[1..])
  }

  /** The low `n` bytes of a word. */
  function ToBytes(x: nat, n: nat): (s: Bytes)
    ensures |s| == n
  {
    if n == 0 then [] else [x % 256] + ToBytes(x / 256, n - 1)
  }
}
