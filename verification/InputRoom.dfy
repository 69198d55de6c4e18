/** What room the in buffer of a connection has for a frame, after what came before it. */
module InputRoom {
  import opened Bytes
  import opened Frames
  import opened Buffering
  import opened Coding
  import opened Sockets
  import opened Connections
  import Streams
  import T = Transducer

  /** A read of noise leaves nothing, and the whole buffer free, wherever the noise lay. */
  lemma {:induction false} NoiseLeavesRoom(l: Layout, noise: seq<byte>)
    requires l.Valid() && noise != [] && Streams.Noise(noise) && l.write - l.read == |noise|
    ensures NoiseLayout(l, noise) == Layout(0, 0, l.size)
    decreases |noise|
  {
    if |noise| == 1 {
      NoiseLayoutSteps(Layout(0, 0, l.size), noise[1..]);
    } else {
      NoiseLeavesRoom(Buffering.After(l, MoveRead(1)), noise[1..]);
    }
  }

  lemma NoiseDecodes(l: Layout, noise: seq<byte>)
    requires l.Valid() && noise != [] && Streams.Noise(noise) && l.write - l.read == |noise|
    ensures Streams.InDomain(noise) && Streams.Decode(noise) == Streams.Decoded([], [])
    ensures DecodeLayout(l, noise) == Layout(0, 0, l.size)
  {
    hide Streams.TurnOf, Streams.Decode, NoiseLayout;
    Streams.NoiseSkipped(noise, []);
    assert noise + [] == noise;
    Streams.MarkedIsNoNoise([]);
    Streams.TurnWaits(noise);
    LastTurn(l, noise, []);
    NoiseLeavesRoom(l, noise);
  }

  /**
   What a frame that was decoded leaves, when it lay at the front: the whole buffer if it reached the middle, and
   otherwise only what is behind it.
   */
  lemma FrameLeavesRoom(m: Message, size: nat)
    requires Fits(m) && FrameLen(m) < size
    ensures Streams.InDomain(Frame(m))
    ensures DecodeLayout(Layout(0, FrameLen(m), size), Frame(m))
         == if FrameLen(m) >= size / 2 then Layout(0, 0, size) else Layout(FrameLen(m), FrameLen(m), size)
  {
    hide Frame, Streams.TurnOf, Streams.SkipNoise, ParseFrame, NetToHost, DecodeLayout;
    var f, l := Frame(m), Layout(0, FrameLen(m), size);
    FrameDecodes(m);
    ParsesExactlyFrames(f, m);
    Streams.MarkedIsNoNoise(f);
    NextTurn(l, f, [], [m]);
    NoiseLayoutSteps(l, f);
    assert f[..|f|] == f && Streams.Announced(f) == |f|;
    var l' := TakeLayout(l, f);
    assert l' == if |f| >= size / 2 then Layout(0, 0, size) else Layout(|f|, |f|, size);
    EmptyInput();
    LastTurn(l', [], []);
    NoiseLayoutSteps(l', []);
  }

  /** A connection that has nothing unread. */
  predicate Ready(v: Server) {
    Sound(v) && v.state == Connected && v.io.inRest == []
  }

  /** Bytes that come whole, shorter than the room, to a connection that has nothing unread. */
  lemma BytesTaken(dispatch: Message -> Message, v: Server, data: seq<byte>)
    requires Ready(v) && T.Answerable(dispatch, data) && Streams.InDomain(data)
    requires 0 < |data| < v.layout.size - v.layout.write
    ensures CanTask(dispatch, v, ReadTask([Offer(data)]))
    ensures AfterTask(dispatch, v, ReadTask([Offer(data)]))
         == v.(layout := DecodeLayout(v.layout.(write := v.layout.write + |data|), data),
               io := v.io.(received := v.io.received + data, inRest := Streams.Decode(data).rest,
                           outRest := v.io.outRest + T.Response(dispatch, data)))
  {
    hide DecodeLayout, AfterRead, ReadSeries, T.Answerable, T.Response, Streams.InDomain, Streams.Decode;
    ShortOffer(data, v.layout.WriteAvailable());
    assert v.io.inRest + data == data && v.refused + [] == v.refused;
    PausedRead(dispatch, v, [Offer(data)]);
  }

  /** A frame that comes whole and is shorter than the room is received and answered. */
  lemma FrameServed(dispatch: Message -> Message, v: Server, m: Message)
    requires Ready(v) && Fits(m) && Fits(WithId(dispatch(m))) && FrameLen(m) < v.layout.size - v.layout.write
    ensures CanTask(dispatch, v, ReadTask([Offer(Frame(m))]))
    ensures Streams.InDomain(Frame(m))
    ensures AfterTask(dispatch, v, ReadTask([Offer(Frame(m))]))
         == v.(layout := DecodeLayout(v.layout.(write := v.layout.write + FrameLen(m)), Frame(m)),
               io := v.io.(received := v.io.received + Frame(m), inRest := [],
                           outRest := v.io.outRest + Wire(dispatch(m))))
  {
    hide Frame, Wire, DecodeLayout, CanTask, AfterTask, T.Answerable, T.Response, Streams.InDomain, Streams.Decode, Fits;
    hide FrameLen, Ready, WithId, Streams.TurnOf;
    FrameLength(m);
    FrameDecodes(m);
    FrameAnswered(dispatch, m);
    BytesTaken(dispatch, v, Frame(m));
  }

  lemma FrameLength(m: Message)
    requires Fits(m)
    ensures |Frame(m)| == FrameLen(m) > 0
  {
    hide Frame;
  }

  /** And one that is not shorter is cut, and lost. */
  lemma FrameLost(dispatch: Message -> Message, v: Server, m: Message)
    requires Ready(v) && Fits(m) && FrameLen(m) >= v.layout.size - v.layout.write
    ensures CanTask(dispatch, v, ReadTask([Offer(Frame(m))]))
    ensures var w := AfterTask(dispatch, v, ReadTask([Offer(Frame(m))]));
            w == v.(refused := v.refused + Frame(m)[..v.layout.size - v.layout.write])
  {
    hide Frame, FrameLen, Fits, Streams.InDomain, Streams.Decode, DecodeLayout, T.Can, T.Do, ReadSeries;
    LongOffer(Frame(m), v.layout.WriteAvailable());
    NothingReceived(dispatch, v);
  }

  /** After any input that is noise alone, a frame that comes whole is answered if it is shorter than the buffer. */
  lemma FrameAfterNoise(dispatch: Message -> Message, size: nat, noise: seq<byte>, m: Message)
    requires Streams.Noise(noise) && 0 < |noise| < size
    requires Fits(m) && Fits(WithId(dispatch(m))) && FrameLen(m) < size
    ensures var tasks := [ReadTask([Offer(noise)]), ReadTask([Offer(Frame(m))])];
            && CanTasks(dispatch, Accepted(size), tasks)
            && var v := AfterTasks(dispatch, Accepted(size), tasks);
               && v.io.received == noise + Frame(m) && v.io.outRest == Wire(dispatch(m)) && v.refused == []
  {
    hide Frame, FrameLen, Fits, Wire, CanTasks, AfterTasks, CanTask, AfterTask, DecodeLayout, Streams.InDomain;
    hide Streams.Noise;
    var first, second := ReadTask([Offer(noise)]), ReadTask([Offer(Frame(m))]);
    var tasks := [first, second];
    assert tasks[..0] == [] && tasks[..1] == [first] && tasks[..2] == tasks;
    Connections.NoTasks(dispatch, Accepted(size));
    NoiseTaken(dispatch, size, noise);
    Connections.TasksNext(dispatch, Accepted(size), tasks, 0);
    var v := AfterTask(dispatch, Accepted(size), first);
    FrameServed(dispatch, v, m);
    Connections.TasksNext(dispatch, Accepted(size), tasks, 1);
    assert [] + Wire(dispatch(m)) == Wire(dispatch(m));
  }

  lemma NoiseTaken(dispatch: Message -> Message, size: nat, noise: seq<byte>)
    requires Streams.Noise(noise) && 0 < |noise| < size
    ensures CanTask(dispatch, Accepted(size), ReadTask([Offer(noise)]))
    ensures AfterTask(dispatch, Accepted(size), ReadTask([Offer(noise)]))
         == Accepted(size).(io := T.Io([], [], noise, []))
  {
    hide DecodeLayout, CanTask, AfterTask, T.Response, Streams.InDomain, Streams.Decode, Streams.Noise;
    var none: seq<byte> := [];
    NoiseDecodes(Layout(0, |noise|, size), noise);
    T.NothingToAnswer(dispatch, noise);
    assert T.Answers(dispatch, []) == [];
    assert none + noise == noise && none + none == none;
    BytesTaken(dispatch, Accepted(size), noise);
  }

  /**
   Of two frames that come whole to a new connection, the first shorter than the buffer, the second is answered as
   well if and only if the first reached the middle of the buffer and the second is shorter than the buffer, or both
   are together. Otherwise bytes of it are refused.
   */
  lemma SecondFrameExactlyWhen(dispatch: Message -> Message, size: nat, a: Message, b: Message)
    requires Fits(a) && Fits(b) && Fits(WithId(dispatch(a))) && Fits(WithId(dispatch(b))) && FrameLen(a) < size
    ensures var tasks := [ReadTask([Offer(Frame(a))]), ReadTask([Offer(Frame(b))])];
            var fits := (FrameLen(a) >= size / 2 && FrameLen(b) < size) || FrameLen(a) + FrameLen(b) < size;
            && CanTasks(dispatch, Accepted(size), tasks)
            && var v := AfterTasks(dispatch, Accepted(size), tasks);
               && (fits <==> v.refused == [])
               && (fits ==>
                     v.io.received == Frame(a) + Frame(b) && v.io.outRest == Wire(dispatch(a)) + Wire(dispatch(b)))
               && (!fits ==> v.io.received == Frame(a) && v.io.outRest == Wire(dispatch(a)))
  {
    hide Frame, FrameLen, Fits, Wire, CanTasks, AfterTasks, CanTask, AfterTask, DecodeLayout, Streams.InDomain;
    var first, second := ReadTask([Offer(Frame(a))]), ReadTask([Offer(Frame(b))]);
    var tasks := [first, second];
    assert tasks[..0] == [] && tasks[..1] == [first] && tasks[..2] == tasks;
    Connections.NoTasks(dispatch, Accepted(size));
    FrameServed(dispatch, Accepted(size), a);
    FrameLeavesRoom(a, size);
    Connections.TasksNext(dispatch, Accepted(size), tasks, 0);
    var v := AfterTask(dispatch, Accepted(size), first);
    assert [] + Frame(a) == Frame(a) && [] + Wire(dispatch(a)) == Wire(dispatch(a));
    if FrameLen(b) < v.layout.size - v.layout.write {
      FrameServed(dispatch, v, b);
    } else {
      FrameLost(dispatch, v, b);
    }
    Connections.TasksNext(dispatch, Accepted(size), tasks, 1);
  }
}
