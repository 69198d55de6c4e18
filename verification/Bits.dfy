/** Bytes as bit patterns, and their exclusive or. */
module BitPatterns {
  import opened Bytes

  /** The `k` lowest bits of a number, the lowest first. */
  function ToBools(n: nat, k: nat): (s: seq<bool>)
    ensures |s| == k
  {
    if k == 0 then [] else [n % 2 == 1] + ToBools(n / 2, k - 1)
  }

  function FromBools(s: seq<bool>): nat {
    if s == [] then 0 else (if s[0] then 1 else 0) + 2 * FromBools(s[1..])
  }

  function Limit(k: nat): nat {
    if k == 0 then 1 else 2 * Limit(k - 1)
  }

  lemma {:induction false} FromToBools(n: nat, k: nat)
    requires n < Limit(k)
    ensures FromBools(ToBools(n, k)) == n
  {
    if k > 0 {
      FromToBools(n / 2, k - 1);
      assert ToBools(n, k)[1..] == ToBools(n / 2, k - 1);
    }
  }

  lemma {:induction false} ToFromBools(s: seq<bool>)
    ensures FromBools(s) < Limit(|s|) && ToBools(FromBools(s), |s|) == s
  {
    if s != [] {
      ToFromBools(s[1..]);
      assert s == [s[0]] + s[1..];
    }
  }

  function Pattern(s: seq<bool>): bv8
    requires |s| == 8
  {
    (if s[0] then 1 else 0) | (if s[1] then 2 else 0) | (if s[2] then 4 else 0) | (if s[3] then 8 else 0) |
    (if s[4] then 16 else 0) | (if s[5] then 32 else 0) | (if s[6] then 64 else 0) | (if s[7] then 128 else 0)
  }

  function BoolsOf(v: bv8): (s: seq<bool>)
    ensures |s| == 8
  {
    [v & 1 != 0, v & 2 != 0, v & 4 != 0, v & 8 != 0, v & 16 != 0, v & 32 != 0, v & 64 != 0, v & 128 != 0]
  }

  lemma PatternOfBools(v: bv8)
    ensures Pattern(BoolsOf(v)) == v
  {
  }

  lemma BoolsOfPattern(s: seq<bool>)
    requires |s| == 8
    ensures BoolsOf(Pattern(s)) == s
  {
  }

  function Bits(b: byte): bv8 {
    Pattern(ToBools(b as nat, 8))
  }

  function ByteOf(v: bv8): byte {
    ToFromBools(BoolsOf(v));
    assert Limit(8) == 256;
    FromBools(BoolsOf(v)) as byte
  }

  lemma BitsRoundTrip(b: byte)
    ensures ByteOf(Bits(b)) == b
  {
    hide Pattern, BoolsOf, FromBools, ToBools;
    assert Limit(8) == 256;
    BoolsOfPattern(ToBools(b as nat, 8));
    FromToBools(b as nat, 8);
  }

  lemma ByteRoundTrip(v: bv8)
    ensures Bits(ByteOf(v)) == v
  {
    hide Pattern, BoolsOf, FromBools, ToBools;
    ToFromBools(BoolsOf(v));
    PatternOfBools(v);
  }

  lemma ZeroBits()
    ensures Bits(0) == 0 && ByteOf(0) == 0
  {
    assert ToBools(0, 8) == [false, false, false, false, false, false, false, false];
    BitsRoundTrip(0);
  }

  function Xor(a: byte, b: byte): byte {
    ByteOf(Bits(a) ^ Bits(b))
  }

  lemma XorBits(v: bv8, w: bv8)
    ensures Xor(ByteOf(v), ByteOf(w)) == ByteOf(v ^ w)
  {
    hide Bits, ByteOf;
    ByteRoundTrip(v);
    ByteRoundTrip(w);
  }

  lemma XorComm(a: byte, b: byte)
    ensures Xor(a, b) == Xor(b, a)
  {
    hide Bits, ByteOf;
  }

  lemma XorAssoc(a: byte, b: byte, c: byte)
    ensures Xor(Xor(a, b), c) == Xor(a, Xor(b, c))
  {
    hide Bits, ByteOf;
    ByteRoundTrip(Bits(a) ^ Bits(b));
    ByteRoundTrip(Bits(b) ^ Bits(c));
  }

  lemma XorUnit(a: byte)
    ensures Xor(a, a) == 0 && Xor(a, 0) == a && Xor(0, a) == a
  {
    hide Bits, ByteOf;
    ZeroBits();
    BitsRoundTrip(a);
  }

  lemma XorZero(a: byte, b: byte)
    ensures Xor(a, b) == 0 <==> a == b
  {
    hide Xor;
    if Xor(a, b) == 0 {
      XorAssoc(a, b, b);
      XorUnit(a);
      XorUnit(b);
    }
    XorUnit(a);
  }

  lemma XorSwap(a: byte, b: byte, c: byte, d: byte)
    ensures Xor(Xor(a, b), Xor(c, d)) == Xor(Xor(a, c), Xor(b, d))
  {
    hide Xor;
    XorAssoc(a, b, Xor(c, d));
    XorAssoc(b, c, d);
    XorComm(b, c);
    XorAssoc(c, b, d);
    XorAssoc(a, c, Xor(b, d));
  }

  lemma XorCancel(a: byte, b: byte, c: byte)
    ensures Xor(a, b) == Xor(a, c) <==> b == c
  {
    hide Xor;
    if Xor(a, b) == Xor(a, c) {
      XorAssoc(a, a, b);
      XorAssoc(a, a, c);
      XorUnit(a);
      XorUnit(b);
      XorUnit(c);
    }
  }
}
