/** The byte type shared by every component: C's unsigned char. */
module Bytes {
  type byte = bv8

  /** Bytes of a fixed-size C buffer after `memcpy(buffer, src, |src|)`. */
  function Overlay(buffer: seq<byte>, src: seq<byte>): (r: seq<byte>)
    requires |src| <= |buffer|
    ensures |r| == |buffer| && r[..|src|] == src && r[|src|..] == buffer[|src|..]
  {
    src + buffer[|src|..]
  }

  /** The byte of value `n`, reached by counting. */
  function CountTo(n: nat): (b: byte)
    requires n < 0x100
    ensures b as int == n
  {
    if n == 0 then 0 else CountTo(n - 1) + 1
  }

  /** A number that fits is the value of its byte. */
  lemma ByteValue(n: int)
    requires 0 <= n < 0x100
    ensures (n as byte) as int == n
  {
    var b := CountTo(n);
    assert (b as int) as byte == b;
  }

  function LowByte(n: nat): (b: byte)
    ensures b as int == n % 0x100
  {
    ByteValue(n % 0x100);
    (n % 0x100) as byte
  }

  lemma LowBits(b: byte)
    ensures (b & 0x0f) as int == b as int % 16 && (b & 0x1f) as int == b as int % 32
  {
  }
}
