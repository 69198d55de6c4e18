/**
 The XOR checksum of a frame: the loop over 32-bit words, what it computes byte by byte, and which
 alterations of a frame it notices.
 */
module Checksum {
  import opened Bytes
  import opened BitPatterns

  type word = bv32

  // ---- Words in memory ----

  /** Byte `k` of a word as it lies in memory, lowest address first. */
  function Octet(w: word, k: nat): bv8
    requires k < 4
  {
    if k == 0 then (w & 0xFF) as bv8
    else if k == 1 then ((w >> 8) & 0xFF) as bv8
    else if k == 2 then ((w >> 16) & 0xFF) as bv8
    else ((w >> 24) & 0xFF) as bv8
  }

  function Assemble(b0: bv8, b1: bv8, b2: bv8, b3: bv8): word {
    (b0 as word) | ((b1 as word) << 8) | ((b2 as word) << 16) | ((b3 as word) << 24)
  }

  lemma OctetAssemble(b0: bv8, b1: bv8, b2: bv8, b3: bv8)
    ensures var w := Assemble(b0, b1, b2, b3);
            Octet(w, 0) == b0 && Octet(w, 1) == b1 && Octet(w, 2) == b2 && Octet(w, 3) == b3
  {
  }

  lemma AssembleOctet(w: word)
    ensures Assemble(Octet(w, 0), Octet(w, 1), Octet(w, 2), Octet(w, 3)) == w
  {
  }

  lemma LowXor(v: word, w: word)
    ensures ((v ^ w) & 0xFF) as bv8 == (v & 0xFF) as bv8 ^ (w & 0xFF) as bv8
  {
  }

  lemma ShiftXor8(v: word, w: word)
    ensures (v ^ w) >> 8 == (v >> 8) ^ (w >> 8)
  {
  }

  lemma ShiftXor16(v: word, w: word)
    ensures (v ^ w) >> 16 == (v >> 16) ^ (w >> 16)
  {
  }

  lemma ShiftXor24(v: word, w: word)
    ensures (v ^ w) >> 24 == (v >> 24) ^ (w >> 24)
  {
  }

  lemma OctetXor(v: word, w: word, k: nat)
    requires k < 4
    ensures Octet(v ^ w, k) == Octet(v, k) ^ Octet(w, k)
  {
    if k == 0 {
      LowXor(v, w);
    } else if k == 1 {
      ShiftXor8(v, w);
      LowXor(v >> 8, w >> 8);
    } else if k == 2 {
      ShiftXor16(v, w);
      LowXor(v >> 16, w >> 16);
    } else {
      ShiftXor24(v, w);
      LowXor(v >> 24, w >> 24);
    }
  }

  /** A load through an `int32_t` pointer. */
  function Load(s: seq<byte>): (w: word)
    requires |s| == 4
  {
    Assemble(Bits(s[0]), Bits(s[1]), Bits(s[2]), Bits(s[3]))
  }

  /** The four bytes that a store through an `int32_t` pointer leaves. */
  function Store(w: word): (s: seq<byte>)
    ensures |s| == 4
  {
    [ByteOf(Octet(w, 0)), ByteOf(Octet(w, 1)), ByteOf(Octet(w, 2)), ByteOf(Octet(w, 3))]
  }

  lemma StoreLoad(s: seq<byte>)
    requires |s| == 4
    ensures Store(Load(s)) == s
  {
    OctetAssemble(Bits(s[0]), Bits(s[1]), Bits(s[2]), Bits(s[3]));
    forall k | 0 <= k < 4
      ensures ByteOf(Bits(s[k])) == s[k]
    {
      BitsRoundTrip(s[k]);
    }
  }

  lemma LoadStore(w: word)
    ensures Load(Store(w)) == w
  {
    ByteRoundTrip(Octet(w, 0));
    ByteRoundTrip(Octet(w, 1));
    ByteRoundTrip(Octet(w, 2));
    ByteRoundTrip(Octet(w, 3));
    AssembleOctet(w);
  }

  lemma StoreAt(w: word, k: nat)
    requires k < 4
    ensures Store(w)[k] == ByteOf(Octet(w, k))
  {
    hide Octet, ByteOf;
  }

  lemma StoreXor(v: word, w: word, k: nat)
    requires k < 4
    ensures Store(v ^ w)[k] == Xor(Store(v)[k], Store(w)[k])
  {
    hide *;
    StoreAt(v, k);
    StoreAt(w, k);
    StoreAt(v ^ w, k);
    OctetXor(v, w, k);
    XorBits(Octet(v, k), Octet(w, k));
  }

  // ---- What the word loop computes: one XOR per position modulo four ----

  /** The XOR of all bytes of `s` whose position is `k` modulo 4. */
  function LaneXor(s: seq<byte>, k: nat): byte
    requires k < 4
  {
    if s == [] then 0
    else
      var rest := LaneXor(s[..|s| - 1], k);
      if (|s| - 1) % 4 == k then Xor(rest, s[|s| - 1]) else rest
  }

  function Lanes(s: seq<byte>): (r: seq<byte>)
    ensures |r| == 4
  {
    [LaneXor(s, 0), LaneXor(s, 1), LaneXor(s, 2), LaneXor(s, 3)]
  }

  lemma {:induction false} LaneXorBlock(s: seq<byte>, t: seq<byte>, k: nat)
    requires k < 4 && |s| % 4 == 0 && |t| <= 4
    ensures LaneXor(s + t, k) == Xor(LaneXor(s, k), if k < |t| then t[k] else 0)
  {
    hide Xor;
    if t == [] {
      assert s + t == s;
    } else {
      var t', last := t[..|t| - 1], |t| - 1;
      assert (s + t)[..|s + t| - 1] == s + t';
      assert (|s + t| - 1) % 4 == last;
      LaneXorBlock(s, t', k);
    }
    XorUnit(LaneXor(s, k));
  }

  /** A byte among zeros is the sum of its lane; with the linearity this fixes the sums of all frames. */
  lemma {:induction false} LaneXorOfOne(s: seq<byte>, i: nat, k: nat)
    requires i < |s| && k < 4 && forall j :: 0 <= j < |s| && j != i ==> s[j] == 0
    ensures LaneXor(s, k) == if i % 4 == k then s[i] else 0
  {
    hide Xor;
    var n := |s| - 1;
    if i == n {
      LaneXorOfZeros(s[..n], k);
      XorUnit(s[n]);
    } else {
      LaneXorOfOne(s[..n], i, k);
      XorUnit(LaneXor(s[..n], k));
    }
  }

  lemma {:induction false} LaneXorOfZeros(s: seq<byte>, k: nat)
    requires k < 4 && forall j :: 0 <= j < |s| ==> s[j] == 0
    ensures LaneXor(s, k) == 0
  {
    hide Xor;
    if s != [] {
      LaneXorOfZeros(s[..|s| - 1], k);
      XorUnit(0);
    }
  }

  /** Up to four bytes copied over a zero word. */
  function Padded(t: seq<byte>): (w: seq<byte>)
    requires |t| <= 4
    ensures |w| == 4
  {
    (t + NO_SUM)[..4]
  }

  /** `*(int32_t *)p` */
  method LoadWord(s: seq<byte>) returns (w: word)
    requires |s| == 4
    ensures Store(w) == s
  {
    w := Load(s);
    StoreLoad(s);
  }

  /** `checksum_xor`: whole words first, then the remaining bytes padded with zeros to a word. */
  method ChecksumXor(data: array<byte>) returns (ret: word)
    ensures Store(ret) == Lanes(data[..])
  {
    hide Store, LaneXor;
    ret := 0;
    SumsNothing();
    var t := data.Length / 4;
    var i := 0;
    while i < t
      invariant 0 <= i <= t
      invariant Sums(ret, data[..4 * i])
    {
      ghost var s := data[..4 * i];
      var w := LoadWord(data[4 * i..4 * i + 4]);
      FoldWord(ret, w, s, data[4 * i..4 * i + 4]);
      assert s + data[4 * i..4 * i + 4] == data[..4 * (i + 1)];
      ret := ret ^ w;
      i := i + 1;
    }
    ghost var head, tail := data[..4 * t], data[4 * t..];
    assert head + tail == data[..];
    if data.Length % 4 > 0 {
      var tmp := LoadWord(Padded(data[4 * t..]));
      FoldWord(ret, tmp, head, tail);
      ret := ret ^ tmp;
    } else {
      assert head == data[..];
    }
    SumsAreLanes(ret, data[..]);
  }

  lemma SumsNothing()
    ensures Sums(0, [])
  {
    StoreZero();
  }

  /** Each byte of the word `w` in memory is the XOR of its lane of `s`. */
  predicate Sums(w: word, s: seq<byte>) {
    forall k: nat :: k < 4 ==> Store(w)[k] == LaneXor(s, k)
  }

  lemma SumsAreLanes(w: word, s: seq<byte>)
    requires Sums(w, s)
    ensures Store(w) == Lanes(s)
  {
    hide Store, LaneXor;
    assert Store(w)[0] == LaneXor(s, 0) && Store(w)[1] == LaneXor(s, 1);
    assert Store(w)[2] == LaneXor(s, 2) && Store(w)[3] == LaneXor(s, 3);
  }

  /** One step of the loop: a word, or a zero-padded tail, added to the checksum of what comes before. */
  lemma FoldWord(ret: word, w: word, s: seq<byte>, t: seq<byte>)
    requires |s| % 4 == 0 && |t| <= 4 && Sums(ret, s) && Store(w) == Padded(t)
    ensures Sums(ret ^ w, s + t)
  {
    hide Xor, Store, LaneXor;
    forall k: nat | k < 4
      ensures Store(ret ^ w)[k] == LaneXor(s + t, k)
    {
      StoreXor(ret, w, k);
      LaneXorBlock(s, t, k);
    }
  }

  // ---- The checksum field of a frame ----

  /** The four bytes before the end marker. */
  function SumField(f: seq<byte>): (s: seq<byte>)
    requires |f| >= 5
    ensures |s| == 4
  {
    f[|f| - 5..|f| - 1]
  }

  /** The frame with other bytes in its checksum field. */
  function WithField(f: seq<byte>, s: seq<byte>): (g: seq<byte>)
    requires |f| >= 5 && |s| == 4
    ensures |g| == |f|
  {
    f[..|f| - 5] + s + [f[|f| - 1]]
  }

  const NO_SUM: seq<byte> := [0, 0, 0, 0]

  /** The checksum of a frame is taken with zeros in the checksum field. */
  function Sum(f: seq<byte>): (s: seq<byte>)
    requires |f| >= 5
    ensures |s| == 4
  {
    Lanes(WithField(f, NO_SUM))
  }

  predicate ChecksumHolds(f: seq<byte>)
    requires |f| >= 5
  {
    Sum(f) == SumField(f)
  }

  /** `checksum_validate` zeroes the field in place, sums, and puts the field back. */
  method ChecksumValidate(data: array<byte>) returns (ok: bool)
    requires data.Length >= 5
    modifies data
    ensures data[..] == old(data[..])
    ensures ok <==> ChecksumHolds(data[..])
  {
    var at := data.Length - 5;
    ghost var f := data[..];
    var checksum := LoadWord(data[at..at + 4]);
    PutWord(data, at, 0, f);
    StoreZero();
    assert data[..] == WithField(f, NO_SUM);
    var ret := ChecksumXor(data);
    PutWord(data, at, checksum, data[..]);
    assert data[..] == f;
    ok := ret == checksum;
    LoadStore(ret);
    LoadStore(checksum);
  }

  method PutWord(data: array<byte>, at: nat, w: word, ghost before: seq<byte>)
    requires at + 4 <= data.Length && data[..] == before
    modifies data
    ensures data[..] == before[..at] + Store(w) + before[at + 4..]
  {
    var s := Store(w);
    data[at], data[at + 1], data[at + 2], data[at + 3] := s[0], s[1], s[2], s[3];
  }

  lemma StoreZero()
    ensures Store(0) == NO_SUM
  {
    BitsRoundTrip(0);
  }

  // ---- Which alterations are noticed ----

  /** Position by position, which bits differ. */
  function Diff(f: seq<byte>, g: seq<byte>): (d: seq<byte>)
    requires |f| == |g|
    ensures |d| == |f|
    ensures forall i :: 0 <= i < |f| ==> d[i] == Xor(f[i], g[i])
  {
    seq(|f|, i requires 0 <= i < |f| => Xor(f[i], g[i]))
  }

  lemma LaneXorLinear(f: seq<byte>, g: seq<byte>, k: nat)
    requires |f| == |g| && k < 4
    ensures LaneXor(Diff(f, g), k) == Xor(LaneXor(f, k), LaneXor(g, k))
  {
    hide Xor;
    if f == [] {
      XorUnit(0);
    } else {
      var f', g' := f[..|f| - 1], g[..|g| - 1];
      assert Diff(f, g)[..|f| - 1] == Diff(f', g');
      LaneXorLinear(f', g', k);
      XorSwap(LaneXor(f', k), LaneXor(g', k), f[|f| - 1], g[|f| - 1]);
    }
  }

  /** Exactly which alterations of a good frame are accepted: those whose difference is itself a good frame. */
  lemma AcceptedExactlyWhen(f: seq<byte>, g: seq<byte>)
    requires |f| == |g| >= 5 && ChecksumHolds(f)
    ensures ChecksumHolds(g) <==> ChecksumHolds(Diff(f, g))
  {
    hide Xor, LaneXor;
    var d := Diff(f, g);
    XorUnit(0);
    assert WithField(d, NO_SUM) == Diff(WithField(f, NO_SUM), WithField(g, NO_SUM));
    forall k: nat | k < 4
      ensures Sum(g)[k] == SumField(g)[k] <==> Sum(d)[k] == SumField(d)[k]
    {
      LaneXorLinear(WithField(f, NO_SUM), WithField(g, NO_SUM), k);
      XorCancel(Sum(f)[k], Sum(g)[k], SumField(g)[k]);
    }
    assert ChecksumHolds(g) <==> forall k: nat :: k < 4 ==> Sum(g)[k] == SumField(g)[k];
    assert ChecksumHolds(d) <==> forall k: nat :: k < 4 ==> Sum(d)[k] == SumField(d)[k];
  }

  /** A lane with a single non-zero byte has that byte as its XOR. */
  lemma LoneByte(d: seq<byte>, k: nat, p: nat)
    requires k < 4 && p < |d| && p % 4 == k
    requires forall i :: 0 <= i < |d| && i % 4 == k && i != p ==> d[i] == 0
    ensures LaneXor(d, k) == d[p]
  {
    hide Xor;
    var d' := d[..|d| - 1];
    if p == |d| - 1 {
      ZeroLane(d', k);
      XorUnit(d[p]);
    } else {
      LoneByte(d', k, p);
      XorUnit(d[p]);
    }
  }

  lemma ZeroLane(d: seq<byte>, k: nat)
    requires k < 4
    requires forall i :: 0 <= i < |d| && i % 4 == k ==> d[i] == 0
    ensures LaneXor(d, k) == 0
  {
    hide Xor;
    if d != [] {
      ZeroLane(d[..|d| - 1], k);
      XorUnit(0);
    }
  }

  predicate InField(f: seq<byte>, i: int) {
    |f| - 5 <= i < |f| - 1
  }

  /**
   Any burst of up to four consecutive bytes outside the checksum field is noticed: each altered byte is
   alone in its lane.
   */
  lemma BurstRejected(f: seq<byte>, g: seq<byte>, start: int)
    requires |f| == |g| >= 5 && ChecksumHolds(f) && f != g
    requires forall i :: 0 <= i < |f| && f[i] != g[i] ==> start <= i < start + 4 && !InField(f, i)
    ensures !ChecksumHolds(g)
  {
    hide Xor, LaneXor;
    var p :| 0 <= p < |f| && f[p] != g[p];
    var d, k := Diff(f, g), p % 4;
    forall i | 0 <= i < |f|
      ensures d[i] == 0 <==> f[i] == g[i]
    {
      XorZero(f[i], g[i]);
    }
    var z := WithField(d, NO_SUM);
    assert z[p] == d[p];
    forall i | 0 <= i < |z| && i % 4 == k && i != p
      ensures z[i] == 0
    {
      assert InField(d, i) || z[i] == d[i];
    }
    LoneByte(z, k, p);
    assert Sum(d)[k] == d[p] && SumField(d)[k] == d[|d| - 5 + k] == 0;
    AcceptedExactlyWhen(f, g);
  }

  /** Any alteration confined to the checksum field is noticed. */
  lemma FieldAlterationRejected(f: seq<byte>, g: seq<byte>)
    requires |f| == |g| >= 5 && ChecksumHolds(f) && f != g
    requires forall i :: 0 <= i < |f| && f[i] != g[i] ==> InField(f, i)
    ensures !ChecksumHolds(g)
  {
    assert WithField(f, NO_SUM) == WithField(g, NO_SUM);
    assert f == WithField(f, SumField(f)) && g == WithField(g, SumField(g));
  }
}
