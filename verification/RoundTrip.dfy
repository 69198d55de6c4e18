/** The coder end to end: what one side encodes the other decodes, however the stream is cut on the way. */
module RoundTrips {
  import opened Bytes
  import opened Frames
  import opened Buffering
  import opened Coding
  import Streams

  function WithIds(ms: seq<Message>): (vs: seq<Message>)
    ensures |vs| == |ms|
  {
    seq(|ms|, i requires 0 <= i < |ms| => WithId(ms[i]))
  }

  function Quiet(n: nat): (noise: seq<seq<byte>>)
    ensures |noise| == n && forall i :: 0 <= i < n ==> noise[i] == []
  {
    seq(n, i => [])
  }

  lemma TransmissionQuiet(ms: seq<Message>)
    requires forall i :: 0 <= i < |ms| ==> Fits(ms[i])
    ensures ms == [] ==> Streams.Transmission(ms, Quiet(|ms|)) == []
    ensures ms != [] ==> Streams.Transmission(ms, Quiet(|ms|)) == Frame(ms[0]) + Streams.Transmission(ms[1..], Quiet(|ms| - 1))
  {
    hide Frame, Fits;
    if ms != [] {
      assert Quiet(|ms|)[1..] == Quiet(|ms| - 1);
      assert [] + Frame(ms[0]) == Frame(ms[0]);
    }
  }

  lemma EncodingCons(ms: seq<Message>)
    requires ms != []
    ensures Encoding(ms) == Wire(ms[0]) + Encoding(ms[1..])
  {
    hide Wire, Encoding;
    EncodingAppend([ms[0]], ms[1..]);
    EncodingSnoc([], ms[0]);
    EncodingNone();
    assert [] + [ms[0]] == [ms[0]] && ms == [ms[0]] + ms[1..];
    assert [] + Wire(ms[0]) == Wire(ms[0]);
  }

  /** Encoded messages are a transmission of their frames without noise. */
  lemma {:induction false} EncodingIsTransmission(ms: seq<Message>)
    requires AllFit(ms)
    ensures Encoding(ms) == Streams.Transmission(WithIds(ms), Quiet(|ms|))
  {
    hide Frame, Fits, WithId, Encoding, Streams.Transmission, Quiet;
    TransmissionQuiet(WithIds(ms));
    if ms == [] {
      EncodingNone();
    } else {
      assert WithIds(ms)[1..] == WithIds(ms[1..]);
      EncodingIsTransmission(ms[1..]);
      EncodingCons(ms);
    }
  }

  /** Decoding what was encoded gives the same messages, those without an id under the default one, and leaves nothing. */
  lemma EncodeThenDecode(ms: seq<Message>)
    requires AllFit(ms)
    ensures Streams.InDomain(Encoding(ms))
    ensures Streams.Decode(Encoding(ms)) == Streams.Decoded(WithIds(ms), [])
  {
    hide Streams.InDomain, Streams.Decode, Streams.Transmission, Fits, WithId, Encoding;
    EncodingIsTransmission(ms);
    Streams.StreamRoundTrip(WithIds(ms), Quiet(|ms|), []);
    assert Encoding(ms) + [] == Encoding(ms);
  }

  /** The bytes that `m` is encoded to stand at `at`, between the two markers. */
  predicate WireAt(m: Message, s: seq<byte>, at: nat) {
    && at + FrameLen(m) <= |s| && s[at..at + FrameLen(m)] == Wire(m)
    && s[at] == PB_START && s[at + FrameLen(m) - 1] == PB_END
  }

  lemma FrameIsWire(m: Message, s: seq<byte>, at: nat)
    requires Streams.FrameAt(m, s, at) && m.msgId != []
    ensures WireAt(m, s, at)
  {
    hide Frame, ParseFrame;
    var f := s[at..at + FrameLen(m)];
    ParsesExactlyFrames(f, m);
    assert f[0] == s[at] && f[FrameLen(m) - 1] == s[at + FrameLen(m) - 1];
  }

  lemma WireLater(m: Message, s: seq<byte>, k: nat, at: nat)
    requires k <= |s| && WireAt(m, s[k..], at)
    ensures WireAt(m, s, k + at)
  {
    hide Wire;
    assert s[k..][at..at + FrameLen(m)] == s[k + at..k + at + FrameLen(m)];
  }

  lemma {:induction false} WireInSource(ms: seq<Message>, s: seq<byte>, i: nat) returns (at: nat)
    requires Streams.Sourced(ms, s) && i < |ms| && ms[i].msgId != []
    ensures WireAt(ms[i], s, at)
    decreases |ms|
  {
    hide Frame, WireAt;
    at :| Streams.FrameAt(ms[0], s, at) && Streams.Sourced(ms[1..], s[at + FrameLen(ms[0])..]);
    if i == 0 {
      FrameIsWire(ms[0], s, at);
    } else {
      var start := at + FrameLen(ms[0]);
      var off := WireInSource(ms[1..], s[start..], i - 1);
      WireLater(ms[i], s, start, off);
      at := start + off;
    }
  }

  /**
   The frame of every message decoded with an id is what the encoder makes of that message: 26 bytes and the four
   fields, between the start and the end marker.
   */
  lemma CanonicalForm(s: seq<byte>, i: nat) returns (at: nat)
    requires Streams.InDomain(s) && i < |Streams.Decode(s).messages| && Streams.Decode(s).messages[i].msgId != []
    ensures WireAt(Streams.Decode(s).messages[i], s, at)
  {
    hide Streams.InDomain, Streams.Decode, WireAt;
    Streams.CanonicalForm(s);
    at := WireInSource(Streams.Decode(s).messages, s, i);
  }

  lemma JoinNext(chunks: seq<seq<byte>>, i: nat)
    requires i < |chunks|
    ensures Streams.Join(chunks[..i + 1]) == Streams.Join(chunks[..i]) + chunks[i]
  {
    assert chunks[..i + 1][..i] == chunks[..i];
  }

  /** What has come so far is in the domain if the whole stream is. */
  lemma {:induction false} PrefixInDomain(chunks: seq<seq<byte>>, i: nat)
    requires i <= |chunks| && Streams.InDomain(Streams.Join(chunks))
    ensures Streams.InDomain(Streams.Join(chunks[..i]))
    decreases |chunks| - i
  {
    hide Streams.InDomain, Streams.Decode, Streams.Join;
    if i == |chunks| {
      assert chunks[..i] == chunks;
    } else {
      PrefixInDomain(chunks, i + 1);
      JoinNext(chunks, i);
      Streams.DecodeAppend(Streams.Join(chunks[..i]), chunks[i]);
    }
  }

  lemma NothingReceived()
    ensures Streams.Join([]) == [] && Streams.InDomain([]) && Streams.Decode([]) == Streams.Decoded([], [])
  {
    hide Streams.InDomain, Streams.Decode;
    EncodingNone();
    EncodeThenDecode([]);
  }

  lemma DeliveredBoth(a: seq<TinyPBProtocol>, b: seq<TinyPBProtocol>, ms: seq<Message>, more: seq<Message>)
    requires Delivered(a, ms) && Delivered(b, more)
    ensures Delivered(a + b, ms + more)
  {
  }

  /** A receiver that appends every chunk as it comes and decodes each time has decoded the whole stream. */
  method Receive(inBuffer: TcpBuffer, chunks: seq<seq<byte>>) returns (messages: seq<TinyPBProtocol>)
    requires inBuffer.Valid() && inBuffer.Contents() == [] && Streams.InDomain(Streams.Join(chunks))
    modifies inBuffer, inBuffer.buffer
    ensures inBuffer.Valid()
    ensures Delivered(messages, Streams.Decode(Streams.Join(chunks)).messages)
    ensures inBuffer.Contents() == Streams.Decode(Streams.Join(chunks)).rest
  {
    hide Streams.InDomain, Streams.Decode, Streams.SplitsAt, Streams.Join, Buffering.After, Moved;
    messages := [];
    NothingReceived();
    assert chunks[..0] == [];
    for i := 0 to |chunks|
      invariant inBuffer.Valid() && (inBuffer.buffer == old(inBuffer.buffer) || fresh(inBuffer.buffer))
      invariant Streams.InDomain(Streams.Join(chunks[..i]))
      invariant Delivered(messages, Streams.Decode(Streams.Join(chunks[..i])).messages)
      invariant inBuffer.Contents() == Streams.Decode(Streams.Join(chunks[..i])).rest
    {
      PrefixInDomain(chunks, i + 1);
      JoinNext(chunks, i);
      ghost var before := Streams.Join(chunks[..i]);
      var more := ReceiveOne(inBuffer, before, chunks[i]);
      DeliveredBoth(messages, more, Streams.Decode(before).messages,
                    Streams.Decode(Streams.Decode(before).rest + chunks[i]).messages);
      messages := messages + more;
    }
    assert chunks[..|chunks|] == chunks;
  }

  /** One chunk on top of what was left of the stream `before`. */
  method ReceiveOne(inBuffer: TcpBuffer, ghost before: seq<byte>, chunk: seq<byte>) returns (more: seq<TinyPBProtocol>)
    requires inBuffer.Valid() && Streams.InDomain(before) && Streams.InDomain(before + chunk)
    requires inBuffer.Contents() == Streams.Decode(before).rest
    modifies inBuffer, inBuffer.buffer
    ensures inBuffer.Valid() && (inBuffer.buffer == old(inBuffer.buffer) || fresh(inBuffer.buffer))
    ensures Streams.InDomain(Streams.Decode(before).rest + chunk)
    ensures Delivered(more, Streams.Decode(Streams.Decode(before).rest + chunk).messages)
    ensures Streams.Decode(before + chunk).messages
         == Streams.Decode(before).messages + Streams.Decode(Streams.Decode(before).rest + chunk).messages
    ensures inBuffer.Contents() == Streams.Decode(before + chunk).rest
  {
    hide Streams.InDomain, Streams.Decode, Streams.Join, Buffering.After, Moved, Delivered;
    Streams.DecodeAppend(before, chunk);
    var _ := inBuffer.WriteToBuffer(chunk);
    more := Decode(inBuffer);
  }
}
