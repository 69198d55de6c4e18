/** A server connection as a transducer: what it must have sent, given what it has received. */
module Transducer {
  import opened Bytes
  import opened Frames
  import opened Coding
  import Streams

  /** The unread and unsent bytes of a connection, and all bytes it has received and sent so far. */
  datatype Io = Io(inRest: seq<byte>, outRest: seq<byte>, received: seq<byte>, sent: seq<byte>)

  /** The kernel hands over bytes, after which the connection decodes and answers; or it takes bytes away. */
  datatype Event = Receive(data: seq<byte>) | Send(n: nat)

  function Answers(dispatch: Message -> Message, ms: seq<Message>): (rs: seq<Message>)
    ensures |rs| == |ms|
  {
    seq(|ms|, i requires 0 <= i < |ms| => dispatch(ms[i]))
  }

  /** The input can be decoded and all answers to it can be encoded. */
  predicate Answerable(dispatch: Message -> Message, s: seq<byte>) {
    Streams.InDomain(s) && AllFit(Answers(dispatch, Streams.Decode(s).messages))
  }

  /** The simple description of the server: decode everything, dispatch each message, encode the answers. */
  function Response(dispatch: Message -> Message, s: seq<byte>): seq<byte>
    requires Streams.InDomain(s)
  {
    Encoding(Answers(dispatch, Streams.Decode(s).messages))
  }

  lemma NothingToAnswer(dispatch: Message -> Message, s: seq<byte>)
    requires Streams.InDomain(s) && Streams.Decode(s).messages == []
    ensures Response(dispatch, s) == []
  {
    assert Answers(dispatch, []) == [];
    EncodingNone();
  }

  predicate Can(dispatch: Message -> Message, io: Io, e: Event) {
    match e
    case Receive(data) => Answerable(dispatch, io.inRest + data)
    case Send(n) => n <= |io.outRest|
  }

  function Do(dispatch: Message -> Message, io: Io, e: Event): Io
    requires Can(dispatch, io, e)
  {
    match e
    case Receive(data) =>
      io.(received := io.received + data, inRest := Streams.Decode(io.inRest + data).rest,
          outRest := io.outRest + Response(dispatch, io.inRest + data))
    case Send(n) => io.(sent := io.sent + io.outRest[..n], outRest := io.outRest[n..])
  }

  const FRESH: Io := Io([], [], [], [])

  /** Each event is possible when its turn comes. */
  predicate IsRun(dispatch: Message -> Message, events: seq<Event>)
    decreases |events|, 0
  {
    events == [] ||
    (IsRun(dispatch, events[..|events| - 1]) &&
     Can(dispatch, After(dispatch, events[..|events| - 1]), events[|events| - 1]))
  }

  function After(dispatch: Message -> Message, events: seq<Event>): Io
    requires IsRun(dispatch, events)
    decreases |events|, 1
  {
    if events == [] then FRESH
    else Do(dispatch, After(dispatch, events[..|events| - 1]), events[|events| - 1])
  }

  lemma RunSnoc(dispatch: Message -> Message, events: seq<Event>, e: Event)
    ensures IsRun(dispatch, events + [e]) <==> IsRun(dispatch, events) && Can(dispatch, After(dispatch, events), e)
    ensures IsRun(dispatch, events + [e]) ==>
              After(dispatch, events + [e]) == Do(dispatch, After(dispatch, events), e)
  {
    hide Can, Do;
    assert (events + [e])[..|events + [e]| - 1] == events;
  }

  /** What the description says of a state. */
  predicate Describes(dispatch: Message -> Message, io: Io) {
    && Answerable(dispatch, io.received)
    && io.inRest == Streams.Decode(io.received).rest
    && io.sent + io.outRest == Response(dispatch, io.received)
  }

  /** Answering a stream in two pieces is answering it whole. */
  lemma ResponseAppend(dispatch: Message -> Message, s: seq<byte>, data: seq<byte>)
    requires Streams.InDomain(s)
    ensures Answerable(dispatch, s + data)
       <==> Answerable(dispatch, s) && Answerable(dispatch, Streams.Decode(s).rest + data)
    ensures Answerable(dispatch, s + data) ==>
              && Streams.Decode(s + data).rest == Streams.Decode(Streams.Decode(s).rest + data).rest
              && Response(dispatch, s + data)
                 == Response(dispatch, s) + Response(dispatch, Streams.Decode(s).rest + data)
  {
    hide Streams.InDomain, Streams.Decode, Encoding, Fits, WithId;
    Streams.DecodeAppend(s, data);
    if Streams.InDomain(s + data) {
      var a := Streams.Decode(s);
      var b := Streams.Decode(a.rest + data);
      var x, y := Answers(dispatch, a.messages), Answers(dispatch, b.messages);
      assert Answers(dispatch, a.messages + b.messages) == x + y;
      AllFitAppend(x, y);
      EncodingAppend(x, y);
    }
  }

  lemma StepDescribed(dispatch: Message -> Message, io: Io, e: Event)
    requires Describes(dispatch, io) && Can(dispatch, io, e)
    ensures Describes(dispatch, Do(dispatch, io, e))
  {
    hide Response, Answerable, Streams.InDomain, Streams.Decode;
    match e
    case Receive(data) =>
      AnswerableDomain(dispatch, io.received);
      ResponseAppend(dispatch, io.received, data);
    case Send(n) =>
      assert io.outRest == io.outRest[..n] + io.outRest[n..];
  }

  lemma AnswerableDomain(dispatch: Message -> Message, s: seq<byte>)
    requires Answerable(dispatch, s)
    ensures Streams.InDomain(s)
  {
  }

  lemma AllFitAppend(a: seq<Message>, b: seq<Message>)
    ensures AllFit(a + b) <==> AllFit(a) && AllFit(b)
  {
    hide Fits, WithId;
    if AllFit(a + b) {
      assert forall i :: 0 <= i < |a| ==> a[i] == (a + b)[i];
      assert forall i :: 0 <= i < |b| ==> b[i] == (a + b)[|a| + i];
    }
  }

  lemma FreshDescribed(dispatch: Message -> Message)
    ensures Describes(dispatch, FRESH)
  {
    assert Streams.SkipNoise([]) == [];
    assert Streams.TurnOf([]) == Streams.Return([]);
    assert Answers(dispatch, []) == [];
  }

  /**
   In every run, however the input is cut and whenever the kernel takes output: the bytes sent and the bytes
   still to be sent are together the encoded answers to the messages decoded from all bytes received.
   */
  lemma {:induction false} Transduces(dispatch: Message -> Message, events: seq<Event>)
    requires IsRun(dispatch, events)
    ensures Describes(dispatch, After(dispatch, events))
  {
    hide Describes, Can, Do;
    if events == [] {
      FreshDescribed(dispatch);
    } else {
      var init := events[..|events| - 1];
      Transduces(dispatch, init);
      StepDescribed(dispatch, After(dispatch, init), events[|events| - 1]);
    }
  }

  function Received(events: seq<Event>): seq<byte> {
    if events == [] then []
    else
      Received(events[..|events| - 1])
      + match events[|events| - 1] case Receive(data) => data case Send(_) => []
  }

  predicate OnlyReceives(events: seq<Event>) {
    forall i :: 0 <= i < |events| ==> events[i].Receive?
  }

  lemma {:induction false} ReceivedInRun(dispatch: Message -> Message, events: seq<Event>)
    requires IsRun(dispatch, events)
    ensures After(dispatch, events).received == Received(events)
  {
    hide Can, Response;
    if events != [] {
      ReceivedInRun(dispatch, events[..|events| - 1]);
    }
  }

  /** A stream that can be answered whole can be received in any pieces, and conversely. */
  lemma {:induction false} AnyCutIsARun(dispatch: Message -> Message, events: seq<Event>)
    requires OnlyReceives(events)
    ensures IsRun(dispatch, events) <==> Answerable(dispatch, Received(events))
  {
    hide Answerable, Do, Describes;
    if events == [] {
      FreshDescribed(dispatch);
      DescribedAnswerable(dispatch, FRESH);
    } else {
      var init, data := events[..|events| - 1], events[|events| - 1].data;
      AnyCutIsARun(dispatch, init);
      if IsRun(dispatch, init) {
        Transduces(dispatch, init);
        ReceivedInRun(dispatch, init);
        DescribedAnswerable(dispatch, After(dispatch, init));
        ResponseAppend(dispatch, Received(init), data);
      } else {
        AnswerablePrefix(dispatch, Received(init), data);
      }
    }
  }

  lemma DescribedAnswerable(dispatch: Message -> Message, io: Io)
    requires Describes(dispatch, io)
    ensures Answerable(dispatch, io.received) && Streams.InDomain(io.received)
    ensures io.inRest == Streams.Decode(io.received).rest
  {
  }

  lemma AnswerablePrefix(dispatch: Message -> Message, s: seq<byte>, data: seq<byte>)
    ensures Answerable(dispatch, s + data) ==> Answerable(dispatch, s)
  {
    hide Streams.Decode, AllFit;
    if Streams.InDomain(s + data) {
      Streams.DecodeAppend(s, data);
      ResponseAppend(dispatch, s, data);
    }
  }
}
