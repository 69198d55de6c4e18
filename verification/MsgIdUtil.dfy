/** Message ids: a decimal counter of 20 digits kept by each thread, seeded at random. */
module MessageIds {
  import opened Bytes

  const LENGTH := 20

  type Digits = s: seq<char> | forall i :: 0 <= i < |s| ==> '0' <= s[i] <= '9' witness []

  function DigitOf(c: char): (d: nat)
    requires '0' <= c <= '9'
    ensures d <= 9
  {
    (c - '0') as int
  }

  function CharOf(d: nat): (c: char)
    requires d <= 9
    ensures '0' <= c <= '9' && DigitOf(c) == d
  {
    '0' + d as char
  }

  /** The number the digits spell. */
  function Number(s: Digits): nat {
    if s == [] then 0 else 10 * Number(s[..|s| - 1]) + DigitOf(s[|s| - 1])
  }

  function Power(n: nat): nat {
    if n == 0 then 1 else 10 * Power(n - 1)
  }

  function Nines(n: nat): (s: Digits)
    ensures |s| == n
  {
    seq(n, i => '9')
  }

  /** The numbers of `n` digits end at one below the power of ten, and nothing but nines spells that one. */
  lemma {:induction false} NinesAreLargest(s: Digits)
    ensures Number(s) < Power(|s|)
    ensures Number(s) == Power(|s|) - 1 <==> s == Nines(|s|)
  {
    if s != [] {
      var init, last := s[..|s| - 1], s[|s| - 1];
      NinesAreLargest(init);
      assert s == init + [last] && Nines(|s|) == Nines(|init|) + ['9'];
      assert DigitOf(last) == 9 <==> last == '9';
    }
  }

  /** Different ids of the same length spell different numbers. */
  lemma {:induction false} NumberInjective(s: Digits, t: Digits)
    requires |s| == |t| && Number(s) == Number(t)
    ensures s == t
  {
    hide Number, DigitOf;
    if s != [] {
      var n := |s| - 1;
      var a, b, c, d := s[..n], t[..n], s[n], t[n];
      assert s == a + [c] && t == b + [d];
      NumberSnoc(a, c);
      NumberSnoc(b, d);
      LastDigit(Number(a), DigitOf(c), Number(b), DigitOf(d));
      NumberInjective(a, b);
      SameDigit(c, d);
    }
  }

  lemma SameDigit(c: char, d: char)
    requires '0' <= c <= '9' && '0' <= d <= '9' && DigitOf(c) == DigitOf(d)
    ensures c == d
  {
  }

  lemma LastDigit(a: nat, d: nat, b: nat, e: nat)
    requires 10 * a + d == 10 * b + e && d <= 9 && e <= 9
    ensures a == b && d == e
  {
  }

  lemma {:induction false} NumberAppend(s: Digits, t: Digits)
    ensures Number(s + t) == Number(s) * Power(|t|) + Number(t)
  {
    if t == [] {
      assert s + t == s;
    } else {
      var init, last := t[..|t| - 1], t[|t| - 1];
      assert s + t == (s + init) + [last];
      assert Number(t) == 10 * Number(init) + DigitOf(last) && Power(|t|) == 10 * Power(|init|);
      hide Number, Power;
      NumberSnoc(s + init, last);
      NumberAppend(s, init);
      AppendDigit(Number(s), Power(|init|), Number(init), DigitOf(last), Power(|t|), Number(s + init));
    }
  }

  /** A number `a`, moved up by as many places as `x` has, followed by `x` and then by one more digit. */
  lemma AppendDigit(a: nat, p: nat, x: nat, d: nat, q: nat, whole: nat)
    requires whole == a * p + x && q == 10 * p
    ensures 10 * whole + d == a * q + (10 * x + d)
  {
    calc {
      a * q;
      a * (10 * p);
      10 * (a * p);
    }
  }

  lemma NumberSnoc(s: Digits, c: char)
    requires '0' <= c <= '9'
    ensures Number(s + [c]) == 10 * Number(s) + DigitOf(c)
  {
    assert (s + [c])[..|s + [c]| - 1] == s;
  }

  /** Where the carry stops: a digit below nine followed by nines becomes one more followed by zeros. */
  lemma CarryStops(s: Digits, i: nat)
    requires i < |s| && s[i] != '9' && s[i + 1..] == Nines(|s| - i - 1)
    ensures Number(s[..i] + [CharOf(DigitOf(s[i]) + 1)] + seq(|s| - i - 1, k => '0')) == Number(s) + 1
  {
    hide Number, Power;
    var n := |s| - i - 1;
    var zeros: Digits := seq(n, k => '0');
    var low: Digits := s[..i] + [s[i]];
    var high: Digits := s[..i] + [CharOf(DigitOf(s[i]) + 1)];
    assert s == low + Nines(n);
    NumberSnoc(s[..i], s[i]);
    NumberSnoc(s[..i], CharOf(DigitOf(s[i]) + 1));
    NumberAppend(low, Nines(n));
    NumberAppend(high, zeros);
    NinesAreLargest(Nines(n));
    ZerosAreNothing(n);
    OneMoreTime(Number(low), Power(n));
  }

  lemma CarryIsNext(s: Digits, i: nat, t: Digits)
    requires i < |s| && s[i] != '9' && s[i + 1..] == Nines(|s| - i - 1)
    requires t == s[..i] + [CharOf(DigitOf(s[i]) + 1)] + seq(|s| - i - 1, k => '0')
    ensures Carried(s, t) && Number(t) == Number(s) + 1
  {
    hide Number;
    CarryStops(s, i);
    forall k | i < k < |s| ensures s[k] == '9' {
      assert s[k] == s[i + 1..][k - i - 1];
    }
    assert CarriedAt(s, t, i);
  }

  lemma OneMoreTime(a: nat, b: nat)
    ensures (a + 1) * b == a * b + b
  {
  }

  lemma {:induction false} ZerosAreNothing(n: nat)
    ensures Number(seq(n, k => '0')) == 0
  {
    if n > 0 {
      ZerosAreNothing(n - 1);
      assert seq(n, k => '0')[..n - 1] == seq(n - 1, k => '0');
    }
  }

  /** One more, digit by digit: the last digit that is not a nine goes up, and the nines behind it become zeros. */
  predicate CarriedAt(s: Digits, t: Digits, i: nat)
    requires i < |s| == |t|
  {
    && s[i] != '9' && t[i] as int == s[i] as int + 1 && t[..i] == s[..i]
    && forall k :: i < k < |s| ==> s[k] == '9' && t[k] == '0'
  }

  predicate Carried(s: Digits, t: Digits) {
    |s| == |t| && exists i: nat :: i < |s| && CarriedAt(s, t, i)
  }

  /** Bytes taken as digits. */
  function Seeded(random: seq<byte>): (s: Digits)
    ensures |s| == |random|
  {
    seq(|random|, i requires 0 <= i < |random| => CharOf(random[i] as int % 10))
  }

  /** What one thread keeps. */
  class MsgIdUtil {
    var no: Digits

    ghost predicate Valid()
      reads this
    {
      no == [] || |no| == LENGTH
    }

    /** Whether the next id comes from the random device. */
    predicate Reseeds()
      reads this
    {
      no == [] || no == Nines(LENGTH)
    }

    constructor ()
      ensures Valid() && no == []
    {
      no := [];
    }

    /** `random` holds the bytes that reading the random device gives, 20 unless it fails. */
    method GenMsgId(random: seq<byte>) returns (id: Digits)
      requires Valid()
      modifies this
      ensures Valid()
      ensures !old(Reseeds()) ==> id == no && |no| == 20 && Number(no) == old(Number(no)) + 1
      ensures !old(Reseeds()) ==> Carried(old(no), no)
      ensures old(Reseeds()) && |random| == LENGTH ==> id == no && no == Seeded(random)
      ensures old(Reseeds()) && |random| == 20 ==>
        |id| == 20 && forall i :: 0 <= i < 20 ==> id[i] as int == 48 + random[i] as int % 10
      ensures old(Reseeds()) <==> old(no) == [] || (forall i :: 0 <= i < 20 ==> old(no)[i] == '9')
      ensures old(Reseeds()) && |random| != LENGTH ==> id == [] && no == old(no)
    {
      if no == [] || no == Nines(LENGTH) {
        if |random| != LENGTH {
          return [];
        }
        Seed(random);
      } else {
        Increment();
      }
      return no;
    }

    method Seed(random: seq<byte>)
      requires |random| == LENGTH
      modifies this
      ensures no == Seeded(random)
      ensures forall i :: 0 <= i < 20 ==> no[i] as int == 48 + random[i] as int % 10
    {
      var s: Digits := seq(LENGTH, i => '0');
      for i := 0 to LENGTH
        invariant |s| == LENGTH && s[..i] == Seeded(random)[..i]
      {
        s := s[i := CharOf(random[i] as int % 10)];
        assert s[..i + 1] == s[..i] + [s[i]];
      }
      assert s == s[..LENGTH] && Seeded(random)[..LENGTH] == Seeded(random);
      no := s;
    }

    /** Adds one to the digits in place, the last digit first. */
    method Increment()
      requires |no| == LENGTH && no != Nines(LENGTH)
      modifies this
      ensures |no| == LENGTH && Number(no) == old(Number(no)) + 1
      ensures Carried(old(no), no)
    {
      ghost var was := no;
      var carry := 1;
      var i := LENGTH - 1;
      while i >= 0
        invariant -1 <= i < LENGTH && carry == 1
        invariant forall k :: i < k < LENGTH ==> was[k] == '9'
        invariant no == was[..i + 1] + seq(LENGTH - i - 1, k => '0')
      {
        var num := DigitOf(no[i]) + carry;
        if num >= 10 {
          no := no[i := '0'];
          carry := 1;
        } else {
          assert was[i + 1..] == Nines(LENGTH - i - 1);
          no := no[i := CharOf(num)];
          assert no == was[..i] + [CharOf(DigitOf(was[i]) + 1)] + seq(LENGTH - i - 1, k => '0');
          CarryIsNext(was, i, no);
          carry := 0;
          return;
        }
        i := i - 1;
      }
    }
  }

  /** `n` calls that do not reach the largest number: the ids go up by one each time, so no two of them are equal. */
  method GenerateMany(ids: MsgIdUtil, n: nat) returns (out: seq<Digits>)
    requires ids.Valid() && |ids.no| == LENGTH && Number(ids.no) + n < Power(LENGTH)
    modifies ids
    ensures ids.Valid() && |out| == n
    ensures forall k :: 0 <= k < n ==> |out[k]| == LENGTH && Number(out[k]) == old(Number(ids.no)) + 1 + k
    ensures forall j, k :: 0 <= j < k < n ==> out[j] != out[k]
    ensures Number(ids.no) == old(Number(ids.no)) + n
  {
    hide Number, Power;
    out := [];
    for k := 0 to n
      invariant ids.Valid() && |ids.no| == LENGTH && Number(ids.no) == old(Number(ids.no)) + k
      invariant |out| == k
      invariant forall j :: 0 <= j < k ==> |out[j]| == LENGTH && Number(out[j]) == old(Number(ids.no)) + 1 + j
    {
      NinesAreLargest(ids.no);
      var id := ids.GenMsgId([]);
      out := out + [id];
    }
  }

  /** A thread that has an id draws a new one at random exactly when no number of 20 digits comes next. */
  lemma ReseedsExactlyAtTheEnd(s: Digits)
    requires |s| == LENGTH
    ensures s == Nines(LENGTH) <==> Number(s) + 1 == Power(LENGTH)
  {
    hide Number, Power;
    NinesAreLargest(s);
  }
}
