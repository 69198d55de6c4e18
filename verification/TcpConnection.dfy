/** A connection accepted by the server: reading, executing and writing. */
module Connections {
  import opened Bytes
  import opened Frames
  import opened Buffering
  import opened Coding
  import opened Reactor
  import opened Sockets
  import TaskQueue
  import Streams
  import T = Transducer

  // ---- A server connection, seen from outside ----

  /** Its state, where the unread bytes lie, the bytes of both directions, and those the buffer has refused. */
  datatype Server = Server(state: TcpState, layout: Layout, io: T.Io, refused: seq<byte>)

  predicate Sound(v: Server) {
    v.layout.Valid() && v.layout.WriteAvailable() > 0 && v.layout.ReadAvailable() == |v.io.inRest|
  }

  datatype IoTask = ReadTask(fromRead: seq<ReadAnswer>) | WriteTask(fromWrite: seq<WriteAnswer>)

  /** The input that a read task executes on is one that the decoder and the encoder have defined behaviour for. */
  predicate CanTask(dispatch: Message -> Message, v: Server, task: IoTask) {
    Sound(v) &&
    (v.state == Connected && task.ReadTask? ==>
       var r := ReadSeries(task.fromRead, v.layout.WriteAvailable());
       r.outcome == Paused ==> T.Can(dispatch, v.io, T.Receive(r.admitted)))
  }

  function AfterRead(dispatch: Message -> Message, v: Server, answers: seq<ReadAnswer>): Server
    requires CanTask(dispatch, v, ReadTask(answers))
  {
    if v.state != Connected then v
    else
      var r := ReadSeries(answers, v.layout.WriteAvailable());
      var v' := v.(refused := v.refused + r.refused);
      match r.outcome
      case PeerClosed => v'.(state := Closed)
      case Failed => v'
      case Paused =>
        AnswerableInput(dispatch, v.io, r.admitted);
        v'.(layout := DecodeLayout(Buffering.After(v.layout, MoveWrite(|r.admitted|)), v.io.inRest + r.admitted),
            io := T.Do(dispatch, v.io, T.Receive(r.admitted)))
  }

  /** A read that pauses, written out. */
  lemma PausedRead(dispatch: Message -> Message, v: Server, answers: seq<ReadAnswer>)
    requires CanTask(dispatch, v, ReadTask(answers)) && v.state == Connected
    requires ReadSeries(answers, v.layout.WriteAvailable()).outcome == Paused
    ensures var r := ReadSeries(answers, v.layout.WriteAvailable());
            var s := v.io.inRest + r.admitted;
            && T.Answerable(dispatch, s) && Streams.InDomain(s)
            && AfterRead(dispatch, v, answers)
               == v.(layout := DecodeLayout(Buffering.After(v.layout, MoveWrite(|r.admitted|)), s),
                     refused := v.refused + r.refused,
                     io := v.io.(received := v.io.received + r.admitted, inRest := Streams.Decode(s).rest,
                                 outRest := v.io.outRest + T.Response(dispatch, s)))
  {
    hide ReadSeries, DecodeLayout, Buffering.After, T.Response, Streams.Decode;
    AnswerableInput(dispatch, v.io, ReadSeries(answers, v.layout.WriteAvailable()).admitted);
  }

  /** A read that fails or finds the end of the stream receives nothing. */
  lemma EndedRead(dispatch: Message -> Message, v: Server, answers: seq<ReadAnswer>)
    requires CanTask(dispatch, v, ReadTask(answers)) && v.state == Connected
    requires ReadSeries(answers, v.layout.WriteAvailable()).outcome != Paused
    ensures var r := ReadSeries(answers, v.layout.WriteAvailable());
            && r.admitted == [] && Buffering.After(v.layout, MoveWrite(|r.admitted|)) == v.layout
            && v.io.inRest + r.admitted == v.io.inRest
            && AfterRead(dispatch, v, answers)
               == v.(refused := v.refused + r.refused, state := if r.outcome == PeerClosed then Closed else v.state)
  {
    hide ReadSeries, Buffering.After;
    RefusedOrAdmitted(answers, v.layout.WriteAvailable());
    MoveNothing(v.layout);
  }

  lemma NotConnectedRead(dispatch: Message -> Message, v: Server, answers: seq<ReadAnswer>)
    requires CanTask(dispatch, v, ReadTask(answers)) && v.state != Connected
    ensures AfterRead(dispatch, v, answers) == v
  {
  }

  function AfterWrite(v: Server, answers: seq<WriteAnswer>): Server {
    if v.state != Connected || v.io.outRest == [] then v
    else
      var n := WriteSeries(answers, |v.io.outRest|).taken;
      v.(io := v.io.(sent := v.io.sent + v.io.outRest[..n], outRest := v.io.outRest[n..]))
  }

  function AfterTask(dispatch: Message -> Message, v: Server, task: IoTask): Server
    requires CanTask(dispatch, v, task)
  {
    match task
    case ReadTask(answers) => AfterRead(dispatch, v, answers)
    case WriteTask(answers) => AfterWrite(v, answers)
  }

  lemma AnswerableInput(dispatch: Message -> Message, io: T.Io, data: seq<byte>)
    requires T.Can(dispatch, io, T.Receive(data))
    ensures Streams.InDomain(io.inRest + data)
  {
  }

  /** Each task can be done when its turn comes. */
  predicate CanTasks(dispatch: Message -> Message, v: Server, tasks: seq<IoTask>)
    decreases |tasks|, 0
  {
    tasks == [] ||
    (CanTasks(dispatch, v, tasks[..|tasks| - 1]) &&
     CanTask(dispatch, AfterTasks(dispatch, v, tasks[..|tasks| - 1]), tasks[|tasks| - 1]))
  }

  function AfterTasks(dispatch: Message -> Message, v: Server, tasks: seq<IoTask>): Server
    requires CanTasks(dispatch, v, tasks)
    decreases |tasks|, 1
  {
    if tasks == [] then v
    else AfterTask(dispatch, AfterTasks(dispatch, v, tasks[..|tasks| - 1]), tasks[|tasks| - 1])
  }

  lemma TasksNext(dispatch: Message -> Message, v: Server, tasks: seq<IoTask>, i: nat)
    requires i < |tasks| && CanTasks(dispatch, v, tasks[..i])
    ensures CanTasks(dispatch, v, tasks[..i + 1]) <==> CanTask(dispatch, AfterTasks(dispatch, v, tasks[..i]), tasks[i])
    ensures CanTasks(dispatch, v, tasks[..i + 1]) ==>
              AfterTasks(dispatch, v, tasks[..i + 1])
              == AfterTask(dispatch, AfterTasks(dispatch, v, tasks[..i]), tasks[i])
  {
    hide CanTask, AfterTask;
    assert tasks[..i + 1][..i] == tasks[..i];
  }

  lemma SendStep(dispatch: Message -> Message, io: T.Io, n: nat)
    requires n <= |io.outRest|
    ensures T.Can(dispatch, io, T.Send(n))
    ensures T.Do(dispatch, io, T.Send(n)) == io.(sent := io.sent + io.outRest[..n], outRest := io.outRest[n..])
  {
  }

  /** A task is one event of the transducer, or none. */
  lemma TaskDescribed(dispatch: Message -> Message, v: Server, task: IoTask)
    requires CanTask(dispatch, v, task) && T.Describes(dispatch, v.io)
    ensures T.Describes(dispatch, AfterTask(dispatch, v, task).io)
  {
    hide T.Describes, T.Can, T.Do, ReadSeries, WriteSeries;
    if v.state == Connected {
      match task
      case ReadTask(answers) =>
        var r := ReadSeries(answers, v.layout.WriteAvailable());
        if r.outcome == Paused {
          T.StepDescribed(dispatch, v.io, T.Receive(r.admitted));
        }
      case WriteTask(answers) =>
        if v.io.outRest != [] {
          var n := WriteSeries(answers, |v.io.outRest|).taken;
          SendStep(dispatch, v.io, n);
          T.StepDescribed(dispatch, v.io, T.Send(n));
        }
    }
  }

  /** The transducer equation holds after any run of read and write tasks. */
  lemma {:induction false} TasksDescribed(dispatch: Message -> Message, v: Server, tasks: seq<IoTask>)
    requires T.Describes(dispatch, v.io) && CanTasks(dispatch, v, tasks)
    ensures T.Describes(dispatch, AfterTasks(dispatch, v, tasks).io)
  {
    hide T.Describes, CanTask, AfterTask;
    if tasks != [] {
      var n := |tasks| - 1;
      TasksDescribed(dispatch, v, tasks[..n]);
      TaskDescribed(dispatch, AfterTasks(dispatch, v, tasks[..n]), tasks[n]);
    }
  }

  // ---- What the run has received ----

  /** The bytes that the kernel has for a read task. */
  function Offered(task: IoTask): seq<byte> {
    if task.ReadTask? && task.fromRead != [] && task.fromRead[0].Offer? then task.fromRead[0].data else []
  }

  function OfferedBy(tasks: seq<IoTask>): seq<byte> {
    if tasks == [] then [] else OfferedBy(tasks[..|tasks| - 1]) + Offered(tasks[|tasks| - 1])
  }

  /** Unless a byte is refused or the stream ends, a task receives just what it is offered. */
  lemma TaskReceives(dispatch: Message -> Message, v: Server, task: IoTask)
    requires CanTask(dispatch, v, task)
    ensures var w := AfterTask(dispatch, v, task);
            && v.refused <= w.refused
            && (w.state == Connected ==> v.state == Connected)
            && (w.state == Connected && w.refused == v.refused ==> w.io.received == v.io.received + Offered(task))
  {
    hide T.Can, T.Response, WriteSeries;
    if v.state == Connected && task.ReadTask? {
      var free := v.layout.WriteAvailable();
      var r := ReadSeries(task.fromRead, free);
      NothingRefusedExactlyWhen(task.fromRead, free);
      assert v.refused + r.refused == v.refused ==> |r.refused| == 0;
    }
  }

  /** So as long as nothing is refused and the connection lives, what it has received is all that it was offered. */
  lemma {:induction false} AllReceived(dispatch: Message -> Message, v: Server, tasks: seq<IoTask>)
    requires CanTasks(dispatch, v, tasks)
    ensures var w := AfterTasks(dispatch, v, tasks);
            && v.refused <= w.refused
            && (w.state == Connected ==> v.state == Connected)
            && (w.state == Connected && w.refused == v.refused ==> w.io.received == v.io.received + OfferedBy(tasks))
  {
    hide CanTask, AfterTask, Offered;
    if tasks != [] {
      var n := |tasks| - 1;
      AllReceived(dispatch, v, tasks[..n]);
      TaskReceives(dispatch, AfterTasks(dispatch, v, tasks[..n]), tasks[n]);
    }
  }

  /** A connection just accepted. */
  function Accepted(size: nat): Server {
    Server(Connected, Layout(0, 0, size), T.FRESH, [])
  }

  /**
   What the server does: after any tasks, while the connection lives and no byte has been refused, the bytes sent and
   the bytes still to be sent are the encoded answers to the messages in all bytes that the kernel has offered.
   */
  lemma ServedStream(dispatch: Message -> Message, size: nat, tasks: seq<IoTask>)
    requires CanTasks(dispatch, Accepted(size), tasks)
    requires AfterTasks(dispatch, Accepted(size), tasks).state == Connected
    requires AfterTasks(dispatch, Accepted(size), tasks).refused == []
    ensures Streams.InDomain(OfferedBy(tasks))
    ensures var io := AfterTasks(dispatch, Accepted(size), tasks).io;
            io.sent + io.outRest == T.Response(dispatch, OfferedBy(tasks))
  {
    hide T.Response, CanTasks, AfterTasks, OfferedBy;
    T.FreshDescribed(dispatch);
    TasksDescribed(dispatch, Accepted(size), tasks);
    AllReceived(dispatch, Accepted(size), tasks);
    assert [] + OfferedBy(tasks) == OfferedBy(tasks);
  }

  // ---- What a task achieves ----

  /** A write sends what the kernel would take, from the front of what is left to send, and all of it if that is more. */
  lemma WriteSends(v: Server, answers: seq<WriteAnswer>)
    requires v.state == Connected
    ensures var n := if Capacity(answers) < |v.io.outRest| then Capacity(answers) else |v.io.outRest|;
            AfterWrite(v, answers)
            == v.(io := v.io.(sent := v.io.sent + v.io.outRest[..n], outRest := v.io.outRest[n..]))
  {
    hide WriteSeries;
    if v.io.outRest == [] {
      assert v.io.sent + v.io.outRest[..0] == v.io.sent;
    } else {
      TakenAsOffered(answers, |v.io.outRest|);
    }
  }

  /** A read closes the connection exactly if the kernel reports the end of the stream before it pauses. */
  lemma ClosedExactlyWhen(dispatch: Message -> Message, v: Server, answers: seq<ReadAnswer>)
    requires CanTask(dispatch, v, ReadTask(answers)) && v.state == Connected
    ensures var w := AfterRead(dispatch, v, answers);
            && (w.state == Closed <==> Ending(answers, v.layout.WriteAvailable()) == Offer([]))
            && (w.state != Closed ==> w.state == Connected)
  {
    hide ReadSeries, DecodeLayout, Buffering.After, T.Can, T.Do;
    EndingDecides(answers, v.layout.WriteAvailable());
    if ReadSeries(answers, v.layout.WriteAvailable()).outcome == Paused {
      PausedRead(dispatch, v, answers);
    }
  }

  /**
   So once the kernel has room for all that is left, all answers have been sent: after any run in which no byte was
   refused, the bytes sent are the encoded answers to the messages in all bytes that the kernel has offered.
   */
  lemma AllAnswersSent(dispatch: Message -> Message, size: nat, tasks: seq<IoTask>, answers: seq<WriteAnswer>)
    requires CanTasks(dispatch, Accepted(size), tasks)
    requires var v := AfterTasks(dispatch, Accepted(size), tasks);
             v.state == Connected && v.refused == [] && Capacity(answers) >= |v.io.outRest|
    ensures Streams.InDomain(OfferedBy(tasks))
    ensures var io := AfterWrite(AfterTasks(dispatch, Accepted(size), tasks), answers).io;
            io.sent == T.Response(dispatch, OfferedBy(tasks)) && io.outRest == []
  {
    hide T.Response, CanTasks, AfterTasks, OfferedBy, AfterWrite;
    ServedStream(dispatch, size, tasks);
    var v := AfterTasks(dispatch, Accepted(size), tasks);
    WriteSends(v, answers);
    assert v.io.outRest[..|v.io.outRest|] == v.io.outRest;
  }

  // ---- Which frames get through ----

  /**
   A frame offered whole to a connection with nothing unread is decoded exactly if it is shorter than the space behind
   the write index, which may be less than the buffer.
   */
  lemma WholeFrameExactlyWhen(v: Server, m: Message, later: seq<ReadAnswer>)
    requires Sound(v) && v.io.inRest == [] && Fits(m)
    requires Streams.InDomain(ReadSeries([Offer(Frame(m))] + later, v.layout.WriteAvailable()).admitted)
    ensures var r := ReadSeries([Offer(Frame(m))] + later, v.layout.WriteAvailable());
            && (m in Streams.Decode(r.admitted).messages <==> FrameLen(m) < v.layout.WriteAvailable())
            && (FrameLen(m) < v.layout.WriteAvailable() ==>
                  r == Reading(Frame(m), [], Paused) && Streams.Decode(r.admitted) == Streams.Decoded([m], []))
            && (FrameLen(m) >= v.layout.WriteAvailable() ==> r.refused != [])
  {
    hide Streams.InDomain, Streams.Decode, Frame;
    var free := v.layout.WriteAvailable();
    var answers := [Offer(Frame(m))] + later;
    var r := ReadSeries(answers, free);
    if FrameLen(m) < free {
      FrameDecodes(m);
    } else {
      AdmittedIsShort(answers, free);
      Streams.CanonicalForm(r.admitted);
      if m in Streams.Decode(r.admitted).messages {
        var i :| 0 <= i < |Streams.Decode(r.admitted).messages| && Streams.Decode(r.admitted).messages[i] == m;
        Streams.SourcedShort(Streams.Decode(r.admitted).messages, r.admitted, i);
      }
    }
  }

  /** Every message in the bytes received has a frame shorter than the buffer. */
  ghost predicate FramesFit(v: Server) {
    Streams.InDomain(v.io.received) &&
    forall m :: m in Streams.Decode(v.io.received).messages ==> FrameLen(m) < v.layout.size
  }

  /** The input buffer is never filled to the last byte, so what is decoded from it in one go is shorter. */
  lemma ReadFramesFit(v: Server, answers: seq<ReadAnswer>, i: nat)
    requires Sound(v)
    requires var s := v.io.inRest + ReadSeries(answers, v.layout.WriteAvailable()).admitted;
             Streams.InDomain(s) && i < |Streams.Decode(s).messages|
    ensures var s := v.io.inRest + ReadSeries(answers, v.layout.WriteAvailable()).admitted;
            FrameLen(Streams.Decode(s).messages[i]) < v.layout.size
  {
    hide Streams.InDomain, Streams.Decode, ReadSeries;
    var s := v.io.inRest + ReadSeries(answers, v.layout.WriteAvailable()).admitted;
    AdmittedIsShort(answers, v.layout.WriteAvailable());
    Streams.CanonicalForm(s);
    Streams.SourcedShort(Streams.Decode(s).messages, s, i);
  }

  lemma TaskFramesFit(dispatch: Message -> Message, v: Server, task: IoTask)
    requires CanTask(dispatch, v, task) && FramesFit(v) && T.Describes(dispatch, v.io)
    ensures FramesFit(AfterTask(dispatch, v, task)) && AfterTask(dispatch, v, task).layout.size == v.layout.size
  {
    hide Streams.InDomain, Streams.Decode, ReadSeries, WriteSeries, DecodeLayout, T.Response, T.Answerable;
    if v.state == Connected && task.ReadTask? {
      var r := ReadSeries(task.fromRead, v.layout.WriteAvailable());
      if r.outcome == Paused {
        PausedRead(dispatch, v, task.fromRead);
        Streams.DecodeAppend(v.io.received, r.admitted);
        var more := Streams.Decode(v.io.inRest + r.admitted).messages;
        forall i | 0 <= i < |more| ensures FrameLen(more[i]) < v.layout.size {
          ReadFramesFit(v, task.fromRead, i);
        }
      } else {
        EndedRead(dispatch, v, task.fromRead);
      }
    }
  }

  /** Over every run of tasks no message whose frame is as long as the buffer, or longer, is decoded. */
  lemma {:induction false} LongFramesNeverComplete(dispatch: Message -> Message, size: nat, tasks: seq<IoTask>)
    requires CanTasks(dispatch, Accepted(size), tasks)
    ensures var v := AfterTasks(dispatch, Accepted(size), tasks);
            && v.layout.size == size && Streams.InDomain(v.io.received)
            && forall m :: m in Streams.Decode(v.io.received).messages ==> FrameLen(m) < size
  {
    hide CanTask, AfterTask, T.Describes, Streams.InDomain, Streams.Decode, FrameLen;
    if tasks == [] {
      EmptyInput();
    } else {
      var n := |tasks| - 1;
      LongFramesNeverComplete(dispatch, size, tasks[..n]);
      T.FreshDescribed(dispatch);
      TasksDescribed(dispatch, Accepted(size), tasks[..n]);
      TaskFramesFit(dispatch, AfterTasks(dispatch, Accepted(size), tasks[..n]), tasks[n]);
    }
  }

  lemma FrameDecodes(m: Message)
    requires Fits(m)
    ensures Streams.TurnOf(Frame(m)) == Streams.Continue([], [m])
    ensures Streams.InDomain(Frame(m)) && Streams.Decode(Frame(m)) == Streams.Decoded([m], [])
  {
    hide Frame, Streams.TurnOf;
    assert [] + Frame(m) + [] == Frame(m);
    Streams.TurnOfFrame([], m, []);
    EmptyInput();
    Streams.DecodeContinue(Frame(m), [], [m]);
  }

  lemma NoTasks(dispatch: Message -> Message, v: Server)
    ensures CanTasks(dispatch, v, []) && AfterTasks(dispatch, v, []) == v
  {
  }

  /** The input that is one frame is answered by one frame. */
  lemma FrameAnswered(dispatch: Message -> Message, m: Message)
    requires Fits(m) && Fits(WithId(dispatch(m)))
    ensures T.Answerable(dispatch, Frame(m)) && T.Response(dispatch, Frame(m)) == Wire(dispatch(m))
  {
    hide Frame, Wire, Fits, WithId, Streams.InDomain, Streams.Decode, Encoding;
    FrameDecodes(m);
    assert T.Answers(dispatch, [m]) == [dispatch(m)];
    EncodingSnoc([], dispatch(m));
    EncodingNone();
    assert [] + [dispatch(m)] == [dispatch(m)] && [] + Wire(dispatch(m)) == Wire(dispatch(m));
  }

  lemma EmptyInput()
    ensures Streams.TurnOf([]) == Streams.Return([]) && Streams.InDomain([])
    ensures Streams.Decode([]) == Streams.Decoded([], [])
  {
    hide Streams.TurnOf;
    Streams.MarkedIsNoNoise([]);
    Streams.TurnWaits([]);
    Streams.DecodeReturned([]);
  }

  /** A read that admits nothing changes nothing when nothing is unread. */
  lemma NothingReceived(dispatch: Message -> Message, v: Server)
    requires v.layout.Valid() && v.layout.WriteAvailable() > 0 && v.io.inRest == []
    ensures T.Can(dispatch, v.io, T.Receive([])) && T.Do(dispatch, v.io, T.Receive([])) == v.io
    ensures Streams.InDomain([] + [])
    ensures DecodeLayout(Buffering.After(v.layout, MoveWrite(0)), [] + []) == v.layout
  {
    hide Streams.TurnOf, Encoding, DecodeLayout;
    EmptyInput();
    var none: seq<byte> := [];
    assert none + none == none;
    T.NothingToAnswer(dispatch, []);
    assert T.Answers(dispatch, []) == [];
    LastTurn(v.layout, [], []);
    NoiseLayoutSteps(v.layout, []);
    assert v.io.received + [] == v.io.received && v.io.outRest + [] == v.io.outRest;
  }

  /** A connection accepted by the server: it reads requests and writes the answers to them. */
  class TcpConnection {
    const eventLoop: EventLoop
    const fdEvent: FdEvent
    const inBuffer: TcpBuffer
    const outBuffer: TcpBuffer
    const dispatch: Message -> Message
    var state: TcpState
    /** All bytes of the input that the buffer has admitted, and all that the kernel has taken. */
    ghost var received: seq<byte>
    var sent: seq<byte>
    /** Bytes that were read but refused by the buffer. */
    ghost var refused: seq<byte>

    ghost function Io(): T.Io
      reads this, inBuffer, inBuffer.buffer, outBuffer, outBuffer.buffer
      requires inBuffer.Valid() && outBuffer.Valid()
    {
      T.Io(inBuffer.Contents(), outBuffer.Contents(), received, sent)
    }

    ghost function View(): Server
      reads this, inBuffer, inBuffer.buffer, outBuffer, outBuffer.buffer
      requires inBuffer.Valid() && outBuffer.Valid()
    {
      Server(state, inBuffer.Where(), Io(), refused)
    }

    ghost predicate Valid()
      reads this, eventLoop, fdEvent, inBuffer, inBuffer.buffer, outBuffer, outBuffer.buffer
    {
      && inBuffer != outBuffer && inBuffer.buffer != outBuffer.buffer
      && inBuffer.Valid() && outBuffer.Valid() && eventLoop.Valid()
      && inBuffer.writeIndex < inBuffer.size
      && Armed()
    }

    predicate Live()
      reads this
    {
      state == NotConnected || state == Connected
    }

    /**
     While the connection lives its fd wants to be read, epoll has been told all that the fd wants, and as
     long as there is something to send this includes to be written.
     */
    ghost predicate Armed()
      reads this, eventLoop, fdEvent, outBuffer, outBuffer.buffer
      requires outBuffer.Valid()
    {
      Live() ==>
        && In in fdEvent.events
        && (fdEvent.fd in eventLoop.registered ==> eventLoop.registered[fdEvent.fd] == fdEvent.events)
        && (outBuffer.Contents() != [] ==>
              Out in fdEvent.events && fdEvent.fd in eventLoop.registered && Out in eventLoop.registered[fdEvent.fd])
    }

    constructor (eventLoop: EventLoop, fd: int, bufferSize: nat, dispatch: Message -> Message, inLoopThread: bool)
      requires eventLoop.Valid() && fd !in eventLoop.registered && bufferSize > 0
      modifies eventLoop
      ensures Valid() && this.eventLoop == eventLoop && this.dispatch == dispatch && fdEvent.fd == fd
      ensures View() == Accepted(bufferSize).(state := NotConnected)
      ensures fresh(fdEvent) && fresh(inBuffer) && fresh(outBuffer) && fresh(inBuffer.buffer) && fresh(outBuffer.buffer)
    {
      this.eventLoop, this.dispatch := eventLoop, dispatch;
      inBuffer := new TcpBuffer(bufferSize);
      outBuffer := new TcpBuffer(bufferSize);
      fdEvent := new FdEvent(fd);
      state := NotConnected;
      received, sent, refused := [], [], [];
      new;
      ListenReadEvent(inLoopThread);
    }

    method ListenReadEvent(inLoopThread: bool)
      requires eventLoop.Valid()
      modifies eventLoop, fdEvent
      ensures eventLoop.Valid() && fdEvent.events == old(fdEvent.events) + {In}
      ensures inLoopThread ==> eventLoop.registered == old(eventLoop.registered)[fdEvent.fd := fdEvent.events]
      ensures !inLoopThread ==> eventLoop.registered == old(eventLoop.registered)
    {
      fdEvent.Listen(In);
      eventLoop.AddEpollEvent(fdEvent, inLoopThread);
    }

    method ListenWriteEvent()
      requires eventLoop.Valid()
      modifies eventLoop, fdEvent
      ensures eventLoop.Valid() && fdEvent.events == old(fdEvent.events) + {Out}
      ensures eventLoop.registered == old(eventLoop.registered)[fdEvent.fd := fdEvent.events]
    {
      fdEvent.Listen(Out);
      eventLoop.AddEpollEvent(fdEvent, true);
    }

    method SetState(s: TcpState)
      requires Valid() && (s == NotConnected || s == Connected ==> Live())
      modifies this`state
      ensures Valid() && View() == old(View()).(state := s)
    {
      state := s;
    }

    /** Stops listening on the fd and gives it up. */
    method Close()
      requires eventLoop.Valid()
      modifies eventLoop, fdEvent`events
      ensures eventLoop.Valid() && fdEvent.events == {}
      ensures eventLoop.registered == old(eventLoop.registered) - {fdEvent.fd}
    {
      eventLoop.DeleteEpollEvent(fdEvent, true);
      fdEvent.Close();
    }

    /** Reads what the kernel offers, then executes the complete requests, or closes at the end of the stream. */
    method OnRead(answers: seq<ReadAnswer>)
      requires Valid() && CanTask(dispatch, View(), ReadTask(answers))
      modifies this, eventLoop, fdEvent, inBuffer, inBuffer.buffer, outBuffer, outBuffer.buffer
      ensures Valid() && inBuffer.buffer == old(inBuffer.buffer)
      ensures outBuffer.buffer == old(outBuffer.buffer) || fresh(outBuffer.buffer)
      ensures View() == AfterRead(dispatch, old(View()), answers)
      ensures old(state) == Connected && state == Closed ==>
                fdEvent.fd !in eventLoop.registered && fdEvent.events == {}
    {
      if state != Connected {
        NotConnectedRead(dispatch, View(), answers);
        return;
      }
      ghost var v := View();
      hide CanTask, AfterRead, EventLoop.Valid, ReadSeries, Buffering.After, TcpConnection.Armed, TcpBuffer.Valid;
      var outcome := Admit(answers);
      if outcome == Paused {
        Answer(v, answers);
      } else {
        EndedRead(dispatch, v, answers);
        if outcome == PeerClosed {
          Quit();
        }
      }
    }

    /** The read loop, with what the buffer refuses. */
    method Admit(answers: seq<ReadAnswer>) returns (outcome: ReadOutcome)
      requires Valid()
      modifies this`refused, inBuffer, inBuffer.buffer
      ensures Valid() && inBuffer.buffer == old(inBuffer.buffer)
      ensures var v := old(View());
              var r := ReadSeries(answers, v.layout.WriteAvailable());
              && outcome == r.outcome
              && View() == v.(layout := Buffering.After(v.layout, MoveWrite(|r.admitted|)),
                              io := v.io.(inRest := v.io.inRest + r.admitted), refused := v.refused + r.refused)
    {
      hide EventLoop.Valid, ReadSeries, Buffering.After;
      ghost var lost;
      outcome, lost := FillFrom(inBuffer, answers);
      refused := refused + lost;
    }

    /** The peer has closed: the fd is given up. */
    method Quit()
      requires Valid()
      modifies this`state, eventLoop, fdEvent`events
      ensures Valid() && View() == old(View()).(state := Closed)
      ensures fdEvent.fd !in eventLoop.registered && fdEvent.events == {}
    {
      hide EventLoop.Valid;
      state := Closed;
      Close();
    }

    /** What follows a read that has paused: the complete requests are executed. */
    method Answer(ghost v: Server, ghost answers: seq<ReadAnswer>)
      requires Valid() && Sound(v) && CanTask(dispatch, v, ReadTask(answers)) && v.state == Connected
      requires var r := ReadSeries(answers, v.layout.WriteAvailable());
               && r.outcome == Paused
               && View() == v.(layout := Buffering.After(v.layout, MoveWrite(|r.admitted|)),
                               io := v.io.(inRest := v.io.inRest + r.admitted), refused := v.refused + r.refused)
      modifies this`received, eventLoop, fdEvent, inBuffer, inBuffer.buffer, outBuffer, outBuffer.buffer
      ensures Valid() && inBuffer.buffer == old(inBuffer.buffer) && state == Connected
      ensures outBuffer.buffer == old(outBuffer.buffer) || fresh(outBuffer.buffer)
      ensures View() == AfterRead(dispatch, v, answers)
    {
      hide CanTask, AfterRead, EventLoop.Valid, ReadSeries, DecodeLayout, Buffering.After, T.Answerable, T.Response;
      hide Streams.InDomain, Streams.Decode;
      ghost var data := ReadSeries(answers, v.layout.WriteAvailable()).admitted;
      PausedRead(dispatch, v, answers);
      Execute();
      received := received + data;
    }

    /** Decodes the requests in the input buffer, dispatches them and encodes the answers into the output buffer. */
    method Execute()
      requires inBuffer != outBuffer && inBuffer.buffer != outBuffer.buffer
      requires inBuffer.Valid() && outBuffer.Valid() && eventLoop.Valid()
      requires T.Answerable(dispatch, inBuffer.Contents()) && Armed() && Live()
      requires inBuffer.writeIndex < inBuffer.size
      modifies eventLoop, fdEvent, inBuffer, inBuffer.buffer, outBuffer, outBuffer.buffer
      ensures inBuffer.Valid() && outBuffer.Valid() && eventLoop.Valid() && Armed()
      ensures inBuffer.size == old(inBuffer.size) && inBuffer.buffer == old(inBuffer.buffer)
      ensures inBuffer.writeIndex < inBuffer.size
      ensures outBuffer.buffer == old(outBuffer.buffer) || fresh(outBuffer.buffer)
      ensures Streams.InDomain(old(inBuffer.Contents()))
      ensures inBuffer.Where() == DecodeLayout(old(inBuffer.Where()), old(inBuffer.Contents()))
      ensures inBuffer.Contents() == Streams.Decode(old(inBuffer.Contents())).rest
      ensures outBuffer.Contents() == old(outBuffer.Contents()) + T.Response(dispatch, old(inBuffer.Contents()))
    {
      hide Streams.InDomain, Streams.Decode, Encoding, Fits, WithId, EventLoop.Valid, DecodeLayout;
      ghost var s := inBuffer.Contents();
      var requests := Decode(inBuffer);
      if requests == [] {
        T.NothingToAnswer(dispatch, s);
        return;
      }
      assert Values(requests) == Streams.Decode(s).messages;
      var responses := DispatchAll(requests);
      Encode(responses, outBuffer);
      ListenWriteEvent();
    }

    /** A fresh response for each request. */
    method DispatchAll(requests: seq<TinyPBProtocol>) returns (responses: seq<TinyPBProtocol>)
      ensures forall k :: 0 <= k < |responses| ==> fresh(responses[k])
      ensures Values(responses) == T.Answers(dispatch, Values(requests))
    {
      responses := [];
      var i := 0;
      while i < |requests|
        invariant 0 <= i == |responses| <= |requests|
        invariant forall k :: 0 <= k < i ==> fresh(responses[k]) && responses[k] !in requests
        invariant forall k :: 0 <= k < i ==> responses[k].Value() == dispatch(requests[k].Value())
      {
        var response := new TinyPBProtocol();
        Fill(response, dispatch(requests[i].Value()));
        responses := responses + [response];
        i := i + 1;
      }
    }

    /** Writes until all is written or the kernel blocks; when all is written the fd no longer wants to be written. */
    method OnWrite(answers: seq<WriteAnswer>)
      requires Valid()
      modifies this`sent, eventLoop, fdEvent, outBuffer, outBuffer.buffer
      ensures Valid() && outBuffer.buffer == old(outBuffer.buffer)
      ensures View() == AfterWrite(old(View()), answers)
      ensures old(state) != Connected || old(outBuffer.Contents()) == [] ==> fdEvent.events == old(fdEvent.events)
      ensures old(state) == Connected && old(outBuffer.Contents()) != [] ==>
                var w := WriteSeries(answers, |old(outBuffer.Contents())|);
                && fdEvent.events == (if w.outcome.Drained? then old(fdEvent.events) - {Out} else old(fdEvent.events))
                && (w.outcome.Drained? ==>
                      fdEvent.fd in eventLoop.registered && eventLoop.registered[fdEvent.fd] == fdEvent.events
                      && In in fdEvent.events && Out !in fdEvent.events)
    {
      hide EventLoop.Valid, WriteSeries, TcpConnection.Armed;
      if state != Connected {
        return;
      }
      if outBuffer.ReadAvailable() == 0 {
        return;
      }
      WriteOut(answers);
    }

    method WriteOut(answers: seq<WriteAnswer>)
      requires Valid() && state == Connected && outBuffer.Contents() != []
      modifies this`sent, eventLoop, fdEvent, outBuffer, outBuffer.buffer
      ensures Valid() && outBuffer.buffer == old(outBuffer.buffer)
      ensures View() == AfterWrite(old(View()), answers)
      ensures var w := WriteSeries(answers, |old(outBuffer.Contents())|);
              && fdEvent.events == (if w.outcome.Drained? then old(fdEvent.events) - {Out} else old(fdEvent.events))
              && (w.outcome.Drained? ==>
                    fdEvent.fd in eventLoop.registered && eventLoop.registered[fdEvent.fd] == fdEvent.events
                    && In in fdEvent.events && Out !in fdEvent.events)
    {
      hide EventLoop.Valid, WriteSeries, TcpBuffer.Valid;
      var written := Flush(answers);
      sent := sent + written;
    }

    /** The write loop; once all is written the fd no longer wants to be written. */
    method Flush(answers: seq<WriteAnswer>) returns (written: seq<byte>)
      requires inBuffer != outBuffer && inBuffer.buffer != outBuffer.buffer
      requires outBuffer.Valid() && eventLoop.Valid() && Armed() && state == Connected && outBuffer.Contents() != []
      modifies eventLoop, fdEvent, outBuffer, outBuffer.buffer
      ensures outBuffer.Valid() && eventLoop.Valid() && Armed() && outBuffer.buffer == old(outBuffer.buffer)
      ensures var w := WriteSeries(answers, |old(outBuffer.Contents())|);
              && written == old(outBuffer.Contents())[..w.taken]
              && outBuffer.Contents() == old(outBuffer.Contents())[w.taken..]
              && fdEvent.events == (if w.outcome.Drained? then old(fdEvent.events) - {Out} else old(fdEvent.events))
              && (w.outcome.Drained? ==>
                    fdEvent.fd in eventLoop.registered && eventLoop.registered[fdEvent.fd] == fdEvent.events)
    {
      hide TaskQueue.Inv, WriteSeries;
      var outcome;
      outcome, written := DrainTo(outBuffer, answers);
      if outcome == Drained {
        fdEvent.ClearEvent(Out);
        eventLoop.AddEpollEvent(fdEvent, true);
      }
    }

    /** Shuts the connection down from this side. */
    method Shutdown()
      requires Valid()
      modifies this, eventLoop, fdEvent`events
      ensures Valid() && View() == old(View()).(state := state)
      ensures old(state) == Closed || old(state) == NotConnected ==> state == old(state)
      ensures old(state) == Connected || old(state) == HalfClosed ==>
                state == HalfClosed && fdEvent.fd !in eventLoop.registered && fdEvent.events == {}
    {
      if state == Closed || state == NotConnected {
        return;
      }
      state := HalfClosed;
      Close();
    }
  }

  /**
   Any run of read and write tasks, in any order and with any answers of the kernel: the tasks are done one after the
   other, up to the first whose input is one that the decoder or the encoder has no defined behaviour for.
   */
  method Serve(conn: TcpConnection, tasks: seq<IoTask>) returns (done: nat)
    requires conn.Valid()
    modifies conn, conn.eventLoop, conn.fdEvent, conn.inBuffer, conn.inBuffer.buffer
    modifies conn.outBuffer, conn.outBuffer.buffer
    ensures conn.Valid() && done <= |tasks|
    ensures CanTasks(conn.dispatch, old(conn.View()), tasks[..done])
    ensures conn.View() == AfterTasks(conn.dispatch, old(conn.View()), tasks[..done])
    ensures done < |tasks| ==> !CanTask(conn.dispatch, conn.View(), tasks[done])
    ensures conn.state == Connected && conn.outBuffer.Contents() != [] ==>
              conn.fdEvent.fd in conn.eventLoop.registered && Out in conn.eventLoop.registered[conn.fdEvent.fd]
  {
    hide CanTasks, AfterTasks, CanTask, AfterRead, AfterWrite;
    done := 0;
    ghost var v := conn.View();
    NoTasks(conn.dispatch, v);
    while done < |tasks|
      invariant conn.Valid() && done <= |tasks| && conn.inBuffer.buffer == old(conn.inBuffer.buffer)
      invariant conn.outBuffer.buffer == old(conn.outBuffer.buffer) || fresh(conn.outBuffer.buffer)
      invariant CanTasks(conn.dispatch, v, tasks[..done])
      invariant conn.View() == AfterTasks(conn.dispatch, v, tasks[..done])
    {
      TasksNext(conn.dispatch, v, tasks, done);
      var possible := IsDefined(conn, tasks[done]);
      if !possible {
        break;
      }
      match tasks[done] {
        case ReadTask(answers) => conn.OnRead(answers);
        case WriteTask(answers) => conn.OnWrite(answers);
      }
      done := done + 1;
    }
  }

  method IsDefined(conn: TcpConnection, task: IoTask) returns (possible: bool)
    requires conn.Valid()
    ensures possible <==> CanTask(conn.dispatch, conn.View(), task)
  {
    hide T.Answerable, ReadSeries;
    if conn.state != Connected || task.WriteTask? {
      return true;
    }
    var r := ReadSeries(task.fromRead, conn.inBuffer.WriteAvailable());
    var unread := conn.inBuffer.buffer[conn.inBuffer.readIndex..conn.inBuffer.writeIndex];
    return r.outcome == Paused ==> T.Answerable(conn.dispatch, unread + r.admitted);
  }

  /**
   A frame offered whole to a connection that has nothing unread is answered exactly if it is shorter than the space
   behind the write index; otherwise bytes of it are refused.
   */
  method OfferWhole(conn: TcpConnection, m: Message)
    requires conn.Valid() && conn.state == Connected && conn.inBuffer.Contents() == []
    requires Fits(m) && Fits(WithId(conn.dispatch(m)))
    requires CanTask(conn.dispatch, conn.View(), ReadTask([Offer(Frame(m))]))
    modifies conn, conn.eventLoop, conn.fdEvent, conn.inBuffer, conn.inBuffer.buffer
    modifies conn.outBuffer, conn.outBuffer.buffer
    ensures conn.Valid()
    ensures FrameLen(m) < old(conn.inBuffer.size - conn.inBuffer.writeIndex) ==>
              && conn.outBuffer.Contents() == old(conn.outBuffer.Contents()) + Wire(conn.dispatch(m))
              && conn.received == old(conn.received) + Frame(m) && conn.refused == old(conn.refused)
    ensures FrameLen(m) >= old(conn.inBuffer.size - conn.inBuffer.writeIndex) ==>
              old(conn.refused) < conn.refused
  {
    hide Frame, CanTask, Encoding, Wire, Streams.InDomain, Streams.Decode, DecodeLayout, EventLoop.Valid;
    ghost var v := conn.View();
    WholeFrameTask(conn.dispatch, v, m);
    conn.OnRead([Offer(Frame(m))]);
  }

  lemma WholeFrameTask(dispatch: Message -> Message, v: Server, m: Message)
    requires v.state == Connected && v.io.inRest == [] && Fits(m) && Fits(WithId(dispatch(m)))
    requires CanTask(dispatch, v, ReadTask([Offer(Frame(m))]))
    ensures var w := AfterRead(dispatch, v, [Offer(Frame(m))]);
            && (FrameLen(m) < v.layout.WriteAvailable() ==>
                  && w.io.outRest == v.io.outRest + Wire(dispatch(m)) && w.refused == v.refused
                  && w.io.received == v.io.received + Frame(m))
            && (FrameLen(m) >= v.layout.WriteAvailable() ==> v.refused < w.refused)
  {
    hide Frame, Wire, DecodeLayout, AfterRead, ReadSeries, T.Answerable, T.Response, Streams.InDomain, Streams.Decode;
    var f, free := Frame(m), v.layout.WriteAvailable();
    if FrameLen(m) < free {
      ShortOffer(f, free);
      PausedRead(dispatch, v, [Offer(f)]);
      FrameAnswered(dispatch, m);
      assert v.io.inRest + f == f;
    } else {
      LongOffer(f, free);
      PausedRead(dispatch, v, [Offer(f)]);
    }
  }
}
