/** Bytes and the 32-bit integers of the wire format in network (big-endian) byte order. */
module Bytes {

  newtype byte = x: int | 0 <= x < 256

  const TWO_31: int := 0x8000_0000
  const TWO_32: int := 0x1_0000_0000
  const INT32_MAX: int := TWO_31 - 1

  /** The value of a C `int32_t`. */
  predicate IsInt32(v: int) {
    -TWO_31 <= v < TWO_31
  }

  /** The four bytes that `htonl` leaves in memory for the `int32_t` value `v`. */
  function HostToNet(v: int): (s: seq<byte>)
    requires IsInt32(v)
    ensures |s| == 4
  {
    var u0 := if v < 0 then v + TWO_32 else v;
    var u1 := u0 / 256;
    var u2 := u1 / 256;
    [(u2 / 256) as byte, (u2 % 256) as byte, (u1 % 256) as byte, (u0 % 256) as byte]
  }

  /** The `int32_t` that `ntohl` gives for four bytes in memory. */
  function NetToHost(s: seq<byte>): (v: int)
    requires |s| == 4
    ensures IsInt32(v)
  {
    var u := ((s[0] as int * 256 + s[1] as int) * 256 + s[2] as int) * 256 + s[3] as int;
    if u >= TWO_31 then u - TWO_32 else u
  }

  /** On the wire a word is its two's complement, the most significant byte first. */
  lemma WrittenBigEndian(v: int)
    requires IsInt32(v)
    ensures var s := HostToNet(v);
            s[0] as int * 16777216 + s[1] as int * 65536 + s[2] as int * 256 + s[3] as int
            == if v < 0 then v + 4294967296 else v
  {
    var u0 := if v < 0 then v + TWO_32 else v;
    var u1 := u0 / 256;
    var u2 := u1 / 256;
    assert u0 == u1 * 256 + u0 % 256 && u1 == u2 * 256 + u1 % 256 && u2 == u2 / 256 * 256 + u2 % 256;
  }

  /** And it is read so: the value is the one number of 32 bits and a sign that has these bytes. */
  lemma ReadBigEndian(s: seq<byte>)
    requires |s| == 4
    ensures var w := s[0] as int * 16777216 + s[1] as int * 65536 + s[2] as int * 256 + s[3] as int;
            && (NetToHost(s) - w) % 4294967296 == 0
            && -2147483648 <= NetToHost(s) < 2147483648
  {
  }

  /** Writing a word and reading it back gives the same value. */
  lemma NetHostRoundTrip(v: int)
    requires IsInt32(v)
    ensures NetToHost(HostToNet(v)) == v
  {
    var u0 := if v < 0 then v + TWO_32 else v;
    var u1 := u0 / 256;
    var u2 := u1 / 256;
    assert u2 == u2 / 256 * 256 + u2 % 256;
    assert u1 == u2 * 256 + u1 % 256;
    assert u0 == u1 * 256 + u0 % 256;
  }

  /** Reading a word and writing it back gives the same four bytes. */
  lemma HostNetRoundTrip(s: seq<byte>)
    requires |s| == 4
    ensures HostToNet(NetToHost(s)) == s
  {
    var u2 := s[0] as int * 256 + s[1] as int;
    var u1 := u2 * 256 + s[2] as int;
    var u0 := u1 * 256 + s[3] as int;
    assert u0 / 256 == u1 && u1 / 256 == u2;
  }
}
