/**
 What `decode` makes of a byte stream: the messages it yields and the bytes it leaves, whichever way the
 stream was cut.
 */
module Streams {
  import opened Bytes
  import opened Frames

  /** Drops the bytes before the first start marker. */
  function SkipNoise(s: seq<byte>): (t: seq<byte>)
    ensures t == [] || t[0] == PB_START
    ensures |t| <= |s| && t == s[|s| - |t|..]
  {
    if s == [] || s[0] == PB_START then s else SkipNoise(s[1..])
  }

  /** The length word of a frame, once its bytes are there. */
  function Announced(t: seq<byte>): (n: int)
    requires |t| >= 5
    ensures IsInt32(n)
  {
    NetToHost(t[1..5])
  }

  /**
   One turn of the decoding loop: it returns and leaves `rest`, or goes on from `rest` after yielding a
   message or nothing. `Wild` stands for a turn whose accesses leave the buffer or whose field lengths are
   not usable.
   */
  datatype Turn = Return(rest: seq<byte>) | Continue(rest: seq<byte>, out: seq<Message>) | Wild

  function TurnOf(s: seq<byte>): Turn {
    var t := SkipNoise(s);
    if |t| < 5 then Return(t)
    else
      var n := Announced(t);
      if |t| < n then Return(t)
      else if n < 0 then Wild
      else if n == 0 then Continue(t, [])
      else if t[n - 1] != PB_END then Continue(t[n..], [])
      else
        match ParseFrame(t[..n])
        case Parsed(m) => Continue(t[n..], [m])
        case Malformed => Continue(t[n..], [])
        case Undefined => Wild
  }

  /**
   A turn goes wild exactly at a start marker that announces a negative length, or a frame that is there with its end
   marker and has a wild length inside.
   */
  lemma WildExactlyWhen(s: seq<byte>)
    ensures var t := SkipNoise(s);
            TurnOf(s).Wild? <==>
              |t| >= 5 && (t[1] >= 128 ||
                           (var n := Spelled(t, 1); 0 < n <= |t| && t[n - 1] == 3 && HasWildLength(t[..n])))
  {
    hide NetToHost, Spelled, HasWildLength, ParseFrame, SkipNoise;
    var t := SkipNoise(s);
    if |t| >= 5 {
      SignAndWeight(t, 1);
      var n := Spelled(t, 1);
      if t[1] < 128 && 0 < n <= |t| {
        UndefinedExactlyWhen(t[..n]);
      }
    }
  }

  /** The streams that `decode` gets through: no turn goes wild, and none stands still. */
  predicate InDomain(s: seq<byte>)
    decreases |s|
  {
    match TurnOf(s)
    case Return(_) => true
    case Continue(rest, _) => |rest| < |s| && InDomain(rest)
    case Wild => false
  }

  datatype Decoded = Decoded(messages: seq<Message>, rest: seq<byte>)

  function Decode(s: seq<byte>): Decoded
    requires InDomain(s)
    decreases |s|
  {
    match TurnOf(s)
    case Return(rest) => Decoded([], rest)
    case Continue(rest, out) =>
      var d := Decode(rest);
      Decoded(out + d.messages, d.rest)
  }

  // ---- Progress ----

  /** A frame that is not all there yet. */
  predicate Incomplete(t: seq<byte>) {
    |t| < 5 || |t| < Announced(t)
  }

  lemma SkipNoiseTwice(s: seq<byte>)
    ensures SkipNoise(SkipNoise(s)) == SkipNoise(s)
  {
  }

  /** What a turn leaves is what it found at the first start marker, less the frame it went through. */
  lemma TurnShape(s: seq<byte>)
    ensures var t := SkipNoise(s);
            match TurnOf(s)
            case Return(rest) => rest == t && Incomplete(t)
            case Continue(rest, out) =>
              && 5 <= |t| && 0 <= Announced(t) <= |t| && rest == t[Announced(t)..]
              && (Announced(t) == 0 ==> out == [])
              && |out| <= 1
            case Wild => !Incomplete(t)
  {
    hide ParseFrame, NetToHost, SkipNoise;
    var t := SkipNoise(s);
  }

  /** A turn depends only on what follows the noise. */
  lemma TurnIgnoresNoise(s: seq<byte>, t: seq<byte>)
    requires SkipNoise(s) == SkipNoise(t)
    ensures TurnOf(s) == TurnOf(t)
  {
    hide ParseFrame, NetToHost, SkipNoise;
  }

  /**
   A turn that goes on takes at least one byte beyond the noise, with one exception: a frame that announces
   the length 0 is found again at the next turn, for ever.
   */
  lemma ProgressExactlyWhen(s: seq<byte>)
    requires TurnOf(s).Continue?
    ensures |TurnOf(s).rest| < |SkipNoise(s)| <==> Announced(SkipNoise(s)) != 0
    ensures Announced(SkipNoise(s)) == 0 ==> TurnOf(TurnOf(s).rest) == TurnOf(s) && !InDomain(s)
  {
    hide TurnOf, SkipNoise, NetToHost;
    TurnShape(s);
    SkipNoiseTwice(s);
    if Announced(SkipNoise(s)) == 0 {
      TurnIgnoresNoise(s, SkipNoise(s));
      assert !InDomain(SkipNoise(s));
    }
  }

  lemma ZeroLengthStalls()
    ensures TurnOf([PB_START, 0, 0, 0, 0]) == Continue([PB_START, 0, 0, 0, 0], [])
    ensures !InDomain([PB_START, 0, 0, 0, 0])
  {
    var s: seq<byte> := [PB_START, 0, 0, 0, 0];
    assert s[1..5] == [0, 0, 0, 0];
    assert SkipNoise(s) == s;
  }

  /** What is left is a suffix of the input: nothing, or the beginning of a frame that is not complete. */
  lemma {:induction false} Leftover(s: seq<byte>)
    requires InDomain(s)
    ensures var rest := Decode(s).rest;
            |rest| <= |s| && rest == s[|s| - |rest|..] && (rest == [] || rest[0] == PB_START) && Incomplete(rest)
    decreases |s|
  {
    hide TurnOf, SkipNoise, NetToHost;
    TurnShape(s);
    if TurnOf(s).Continue? {
      Leftover(TurnOf(s).rest);
    }
  }

  lemma MarkedIsNoNoise(t: seq<byte>)
    requires t == [] || t[0] == PB_START
    ensures SkipNoise(t) == t
  {
  }

  /** The leftover decodes to nothing and stays as it is. */
  lemma LeftoverIsStable(s: seq<byte>)
    requires InDomain(s)
    ensures InDomain(Decode(s).rest) && Decode(Decode(s).rest) == Decoded([], Decode(s).rest)
  {
    hide TurnOf, SkipNoise, NetToHost;
    Leftover(s);
    var rest := Decode(s).rest;
    MarkedIsNoNoise(rest);
    TurnShape(rest);
  }

  // ---- Independence of how the stream is cut ----

  lemma {:induction false} SkipNoiseAppend(a: seq<byte>, b: seq<byte>)
    ensures SkipNoise(a + b) == if SkipNoise(a) == [] then SkipNoise(b) else SkipNoise(a) + b
  {
    if a == [] {
      assert a + b == b;
    } else if a[0] != PB_START {
      assert (a + b)[1..] == a[1..] + b;
      SkipNoiseAppend(a[1..], b);
    }
  }

  /** More bytes do not change a turn that went on. */
  lemma TurnAppend(a: seq<byte>, b: seq<byte>)
    requires !TurnOf(a).Return?
    ensures TurnOf(a).Wild? ==> TurnOf(a + b).Wild?
    ensures TurnOf(a).Continue? ==> TurnOf(a + b) == Continue(TurnOf(a).rest + b, TurnOf(a).out)
  {
    hide ParseFrame, NetToHost, SkipNoise;
    SkipNoiseAppend(a, b);
    var t := SkipNoise(a);
    assert |t| >= 5 && SkipNoise(a + b) == t + b;
    assert (t + b)[1..5] == t[1..5];
    var n := Announced(t);
    assert |t| >= n && Announced(t + b) == n;
    if n > 0 {
      assert (t + b)[..n] == t[..n] && (t + b)[n..] == t[n..] + b;
    }
  }

  /** When the frame at the start marker is not all there, the turn returns. */
  lemma TurnWaits(s: seq<byte>)
    requires Incomplete(SkipNoise(s))
    ensures TurnOf(s) == Return(SkipNoise(s))
  {
    hide ParseFrame, NetToHost, SkipNoise;
  }

  /** The message that comes of a complete frame, if any. */
  function Yield(f: seq<byte>): seq<Message>
    requires f != []
  {
    if f[|f| - 1] == PB_END && ParseFrame(f).Parsed? then [ParseFrame(f).message] else []
  }

  /** The frame can be parsed without leaving the defined behaviour, or is dropped before it is parsed. */
  predicate Tame(f: seq<byte>)
    requires f != []
  {
    f[|f| - 1] == PB_END ==> !ParseFrame(f).Undefined?
  }

  /** Otherwise the frame is taken out, and a message comes of it when it ends with the end marker and parses. */
  lemma TurnGoes(s: seq<byte>)
    requires !Incomplete(SkipNoise(s)) && InDomain(s)
    ensures var t := SkipNoise(s);
            var n := Announced(t);
            0 < n <= |t| && Tame(t[..n]) && TurnOf(s) == Continue(t[n..], Yield(t[..n]))
  {
    hide ParseFrame, NetToHost, SkipNoise;
    TurnShape(s);
    if TurnOf(s).Continue? {
      ProgressExactlyWhen(s);
    }
  }

  lemma SkipOne(s: seq<byte>)
    requires s != [] && s[0] != PB_START
    ensures SkipNoise(s) == SkipNoise(s[1..])
  {
  }

  lemma DecodeContinue(s: seq<byte>, rest: seq<byte>, out: seq<Message>)
    requires TurnOf(s) == Continue(rest, out)
    ensures InDomain(s) <==> |rest| < |s| && InDomain(rest)
    ensures InDomain(s) ==> Decode(s) == Decoded(out + Decode(rest).messages, Decode(rest).rest)
  {
    hide TurnOf;
  }

  predicate SplitsAt(a: seq<byte>, b: seq<byte>) {
    && (InDomain(a + b) <==> InDomain(a) && InDomain(Decode(a).rest + b))
    && (InDomain(a + b) ==>
          var first := Decode(a);
          var second := Decode(first.rest + b);
          Decode(a + b) == Decoded(first.messages + second.messages, second.rest))
  }

  /** Decoding a stream in two pieces is decoding it whole, and the whole is in the domain just when the pieces are. */
  lemma {:induction false} DecodeAppend(a: seq<byte>, b: seq<byte>)
    ensures SplitsAt(a, b)
    decreases |a|
  {
    hide TurnOf, SkipNoise, Announced, InDomain, Decode;
    TurnShape(a);
    match TurnOf(a)
    case Return(t) =>
      assert t == SkipNoise(a);
      DecodeReturned(a);
      SkipNoiseTwice(a);
      SkipNoiseAppend(a, b);
      SkipNoiseAppend(t, b);
      SkipNoiseNothing(b, t);
      SameNoiseless(a + b, t + b);
    case Continue(rest, out) =>
      TurnAppend(a, b);
      DecodeContinue(a, rest, out);
      DecodeContinue(a + b, rest + b, out);
      if |rest| < |a| {
        DecodeAppend(rest, b);
        if InDomain(a + b) {
          assert out + (Decode(rest).messages + Decode(Decode(rest).rest + b).messages)
              == out + Decode(rest).messages + Decode(Decode(rest).rest + b).messages;
        }
      }
    case Wild =>
      TurnAppend(a, b);
      WildOutside(a);
      WildOutside(a + b);
  }

  lemma DecodeReturned(s: seq<byte>)
    requires TurnOf(s).Return?
    ensures InDomain(s) && Decode(s) == Decoded([], TurnOf(s).rest)
  {
    hide TurnOf;
  }

  lemma WildOutside(s: seq<byte>)
    requires TurnOf(s).Wild?
    ensures !InDomain(s)
  {
    hide TurnOf;
  }

  lemma SkipNoiseNothing(b: seq<byte>, t: seq<byte>)
    ensures t == [] ==> t + b == b
  {
  }

  lemma SameNoiseless(s: seq<byte>, t: seq<byte>)
    requires SkipNoise(s) == SkipNoise(t)
    ensures InDomain(s) <==> InDomain(t)
    ensures InDomain(s) ==> Decode(s) == Decode(t)
  {
    hide TurnOf, SkipNoise, NetToHost;
    TurnShape(s);
    TurnShape(t);
    TurnIgnoresNoise(s, t);
  }

  function Join(chunks: seq<seq<byte>>): seq<byte> {
    if chunks == [] then [] else Join(chunks[..|chunks| - 1]) + chunks[|chunks| - 1]
  }

  /** Appends each chunk to what is left and decodes, as a connection does. */
  function Feed(chunks: seq<seq<byte>>): (d: Decoded)
    requires InDomain(Join(chunks))
    ensures d == Decode(Join(chunks))
  {
    if chunks == [] then Decoded([], [])
    else
      var last := chunks[|chunks| - 1];
      DecodeAppend(Join(chunks[..|chunks| - 1]), last);
      var before := Feed(chunks[..|chunks| - 1]);
      var d := Decode(before.rest + last);
      Decoded(before.messages + d.messages, d.rest)
  }

  /** Two ways of cutting the same stream give the same messages and the same leftover. */
  lemma ChunkIndependence(chunks: seq<seq<byte>>, chunks': seq<seq<byte>>)
    requires Join(chunks) == Join(chunks') && InDomain(Join(chunks))
    ensures Feed(chunks) == Feed(chunks') == Decode(Join(chunks))
  {
  }

  // ---- Streams made by the encoder ----

  predicate Noise(s: seq<byte>) {
    PB_START !in s
  }

  /** Frames with noise before each of them. */
  function Transmission(ms: seq<Message>, noise: seq<seq<byte>>): seq<byte>
    requires |noise| == |ms| && forall i :: 0 <= i < |ms| ==> Fits(ms[i])
  {
    if ms == [] then [] else noise[0] + Frame(ms[0]) + Transmission(ms[1..], noise[1..])
  }

  lemma {:induction false} NoiseSkipped(noise: seq<byte>, s: seq<byte>)
    requires Noise(noise)
    ensures SkipNoise(noise + s) == SkipNoise(s)
  {
    if noise == [] {
      assert noise + s == s;
    } else {
      assert (noise + s)[1..] == noise[1..] + s;
      NoiseSkipped(noise[1..], s);
    }
  }

  /** A frame in front of a stream is decoded first. */
  lemma TurnOfFrame(noise: seq<byte>, m: Message, s: seq<byte>)
    requires Noise(noise) && Fits(m)
    ensures TurnOf(noise + Frame(m) + s) == Continue(s, [m])
  {
    hide ParseFrame, Frame, Fits, TurnOf, NetToHost, SkipNoise;
    var f := Frame(m);
    ParsesExactlyFrames(f, m);
    NoiseSkipped(noise, f + s);
    assert noise + f + s == noise + (f + s);
    MarkedIsNoNoise(f + s);
    TurnOfDelimited(noise + f + s, f, m, s);
  }

  lemma TurnOfDelimited(s: seq<byte>, f: seq<byte>, m: Message, rest: seq<byte>)
    requires SkipNoise(s) == f + rest && Delimited(f) && ParseFrame(f) == Parsed(m)
    ensures TurnOf(s) == Continue(rest, [m])
  {
    hide ParseFrame, NetToHost, SkipNoise;
    var t := f + rest;
    assert t[1..5] == f[1..5];
    assert t[..|f|] == f && t[|f|..] == rest;
  }

  /** Whatever is sent, with any noise between the frames and after them, is received, and nothing else. */
  lemma {:induction false} StreamRoundTrip(ms: seq<Message>, noise: seq<seq<byte>>, tail: seq<byte>)
    requires |noise| == |ms| && forall i :: 0 <= i < |ms| ==> Fits(ms[i]) && Noise(noise[i])
    requires Noise(tail)
    ensures InDomain(Transmission(ms, noise) + tail)
    ensures Decode(Transmission(ms, noise) + tail) == Decoded(ms, [])
  {
    hide TurnOf, Frame;
    if ms == [] {
      NoiseSkipped(tail, []);
      assert tail + [] == tail == [] + tail;
      TurnShape(tail);
    } else {
      var s := Transmission(ms[1..], noise[1..]) + tail;
      assert Transmission(ms, noise) + tail == noise[0] + Frame(ms[0]) + s;
      TurnOfFrame(noise[0], ms[0], s);
      DecodeContinue(noise[0] + Frame(ms[0]) + s, s, [ms[0]]);
      StreamRoundTrip(ms[1..], noise[1..], tail);
    }
  }

  // ---- Where decoded messages come from ----

  /** Every decoded message has its frame in the stream, in the order of the messages, with room between the frames. */
  ghost predicate Sourced(ms: seq<Message>, s: seq<byte>)
    decreases |ms|
  {
    ms == [] ||
    exists at: nat :: FrameAt(ms[0], s, at) && Sourced(ms[1..], s[at + FrameLen(ms[0])..])
  }

  predicate FrameAt(m: Message, s: seq<byte>, at: nat) {
    Fits(m) && at + FrameLen(m) <= |s| && s[at..at + FrameLen(m)] == Frame(m)
  }

  lemma SourcedLater(ms: seq<Message>, s: seq<byte>, k: nat)
    requires k <= |s| && Sourced(ms, s[k..])
    ensures Sourced(ms, s)
  {
    hide Frame, FrameLen;
    if ms != [] {
      var at: nat :| FrameAt(ms[0], s[k..], at) && Sourced(ms[1..], s[k..][at + FrameLen(ms[0])..]);
      assert s[k..][at..at + FrameLen(ms[0])] == s[k + at..k + at + FrameLen(ms[0])];
      assert s[k..][at + FrameLen(ms[0])..] == s[k + at + FrameLen(ms[0])..];
      assert FrameAt(ms[0], s, k + at);
    }
  }

  /** Canonical form: each message emitted comes from its own frame, byte for byte, and the frames are disjoint. */
  lemma {:induction false} CanonicalForm(s: seq<byte>)
    requires InDomain(s)
    ensures Sourced(Decode(s).messages, s)
    decreases |s|
  {
    hide ParseFrame, Frame, NetToHost;
    hide TurnOf, SkipNoise;
    TurnShape(s);
    if TurnOf(s).Continue? {
      var rest, out, t := TurnOf(s).rest, TurnOf(s).out, SkipNoise(s);
      var k, n := |s| - |t|, Announced(t);
      DecodeContinue(s, rest, out);
      CanonicalForm(rest);
      assert rest == s[k + n..] && t[..n] == s[k..k + n];
      var ms := Decode(rest).messages;
      if out == [] {
        SourcedLater(ms, s, k + n);
        assert out + ms == ms;
      } else {
        TurnMessage(s);
        assert FrameAt(out[0], s, k);
        assert (out + ms)[0] == out[0] && (out + ms)[1..] == ms;
      }
    }
  }

  /** A message yielded by a turn comes from the frame at the start marker. */
  lemma TurnMessage(s: seq<byte>)
    requires TurnOf(s).Continue? && TurnOf(s).out != []
    ensures var t := SkipNoise(s);
            var m := TurnOf(s).out[0];
            5 <= |t| && 0 <= Announced(t) <= |t| && Fits(m) && t[..Announced(t)] == Frame(m)
  {
    hide ParseFrame, Frame, NetToHost, SkipNoise;
    var t := SkipNoise(s);
    var f := t[..Announced(t)];
    ParsedIsLong(f);
    assert f[1..5] == t[1..5];
    ParsesExactlyFrames(f, TurnOf(s).out[0]);
  }

  /** A frame that is found in a stream is not longer than the stream. */
  lemma {:induction false} SourcedShort(ms: seq<Message>, s: seq<byte>, i: nat)
    requires Sourced(ms, s) && i < |ms|
    ensures FrameLen(ms[i]) <= |s|
  {
    hide Frame;
    var at: nat :| FrameAt(ms[0], s, at) && Sourced(ms[1..], s[at + FrameLen(ms[0])..]);
    if i > 0 {
      SourcedShort(ms[1..], s[at + FrameLen(ms[0])..], i - 1);
    }
  }
}
