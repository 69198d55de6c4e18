/** Whole runs of a remote call: the connection, the timer and the channel under any order of the loop's tasks. */
module Sessions {
  import opened Bytes
  import opened Buffering
  import opened Channels
  import opened Sockets
  import C = Clients
  import F = Frames
  import M = TimerMachine
  import MessageIds
  import R = RpcCompletion
  import Reactor
  import Timers

  /** The call, its connection, the request as it was made, and when its timeout is due. */
  datatype Session = Session(call: R.State, client: C.Client, request: F.Message, deadline: int)

  /** What the event loop runs for a call, with what the kernel answers and what the clock shows. */
  datatype LoopTask =
    | Connect(code: int, info: seq<byte>, looping: bool)
    | Writable(fromWrite: seq<WriteAnswer>)
    | Readable(fromRead: seq<ReadAnswer>)
    | TimerReady(now: int)

  /** What else a call of `onTimer` meets: the clock, and what the tasks of other events do to the timer. */
  datatype Around = Around(resetNow: int, clock: nat -> (int, int), tasks: nat -> seq<M.Step<Timers.TimerEvent>>)

  predicate CanDo(s: Session, task: LoopTask) {
    match task
    case Connect(_, _, _) => s.call.link == R.Connecting
    case Writable(answers) => s.call.link == R.Connected && C.CanTask(s.client, C.Writable(answers))
    case Readable(answers) => s.call.link == R.Connected && C.CanTask(s.client, C.Readable(answers))
    case TimerReady(_) => true
  }

  /** What a task is for the call: whether the request is handed over, and which replies the bytes read give. */
  function StepOf(s: Session, parses: F.Message -> bool, task: LoopTask): R.Step
    requires CanDo(s, task)
  {
    match task
    case Connect(code, info, looping) => R.Report(code, info, looping)
    case Writable(answers) => R.OnWrite(Sends(s.client, answers))
    case Readable(answers) => R.OnRead(RepliesOf(parses, C.Heard(s.client, answers)))
    case TimerReady(now) => R.OnTimer(s.deadline <= now)
  }

  /** What a task makes of the connection. */
  function ClientAfter(s: Session, task: LoopTask): C.Client
    requires CanDo(s, task)
  {
    match task
    case Connect(code, _, _) => if code == R.OK then Calling(s.client, s.request) else s.client
    case Writable(answers) => Posting(s.call, s.client, answers)
    case Readable(answers) => C.AfterRead(s.client, answers)
    case TimerReady(_) => s.client
  }

  function Next(s: Session, parses: F.Message -> bool, task: LoopTask): Session
    requires CanDo(s, task)
  {
    s.(call := R.Do(s.call, StepOf(s, parses, task)), client := ClientAfter(s, task))
  }

  predicate CanAll(s: Session, parses: F.Message -> bool, tasks: seq<LoopTask>)
    decreases |tasks|, 0
  {
    tasks == [] ||
    (CanAll(s, parses, tasks[..|tasks| - 1]) && CanDo(AfterAll(s, parses, tasks[..|tasks| - 1]), tasks[|tasks| - 1]))
  }

  function AfterAll(s: Session, parses: F.Message -> bool, tasks: seq<LoopTask>): Session
    requires CanAll(s, parses, tasks)
    decreases |tasks|, 1
  {
    if tasks == [] then s else Next(AfterAll(s, parses, tasks[..|tasks| - 1]), parses, tasks[|tasks| - 1])
  }

  lemma TasksNext(s: Session, parses: F.Message -> bool, tasks: seq<LoopTask>, i: nat)
    requires i < |tasks| && CanAll(s, parses, tasks[..i])
    ensures CanAll(s, parses, tasks[..i + 1]) <==> CanDo(AfterAll(s, parses, tasks[..i]), tasks[i])
    ensures CanAll(s, parses, tasks[..i + 1]) ==>
              AfterAll(s, parses, tasks[..i + 1]) == Next(AfterAll(s, parses, tasks[..i]), parses, tasks[i])
  {
    hide CanDo, Next;
    assert tasks[..i + 1][..i] == tasks[..i];
  }

  lemma NoTasks(s: Session, parses: F.Message -> bool)
    ensures CanAll(s, parses, []) && AfterAll(s, parses, []) == s
  {
  }

  /** The steps of the call in a run of tasks. */
  function StepsOf(s: Session, parses: F.Message -> bool, tasks: seq<LoopTask>): (steps: seq<R.Step>)
    requires CanAll(s, parses, tasks)
    ensures |steps| == |tasks|
  {
    if tasks == [] then []
    else
      var n := |tasks| - 1;
      StepsOf(s, parses, tasks[..n]) + [StepOf(AfterAll(s, parses, tasks[..n]), parses, tasks[n])]
  }

  predicate NoConnectFails(tasks: seq<LoopTask>) {
    forall i :: 0 <= i < |tasks| && tasks[i].Connect? ==> tasks[i].code == R.OK
  }

  /** The timer is run when the timeout is due. */
  predicate TimerRings(deadline: int, tasks: seq<LoopTask>) {
    exists i :: 0 <= i < |tasks| && tasks[i].TimerReady? && deadline <= tasks[i].now
  }

  /** Every run of the loop's tasks is a run of the call. */
  lemma {:induction false} SessionIsRun(s: Session, parses: F.Message -> bool, tasks: seq<LoopTask>)
    requires CanAll(s, parses, tasks)
    ensures var steps := StepsOf(s, parses, tasks);
            && R.IsRun(s.call, steps) && AfterAll(s, parses, tasks).call == R.After(s.call, steps)
            && (R.ConnectFails(steps) <==> !NoConnectFails(tasks))
            && (R.TimerExpires(steps) <==> TimerRings(s.deadline, tasks))
            && AfterAll(s, parses, tasks).deadline == s.deadline
  {
    hide R.Do, R.ConnectFails, R.TimerExpires, NoConnectFails, TimerRings, ClientAfter;
    if tasks == [] {
      NothingFails();
      R.StartOf(s.call);
    } else {
      var n := |tasks| - 1;
      var t := AfterAll(s, parses, tasks[..n]);
      SessionIsRun(s, parses, tasks[..n]);
      R.RunSnoc(s.call, StepsOf(s, parses, tasks[..n]), StepOf(t, parses, tasks[n]));
      FailsSnoc(t, parses, StepsOf(s, parses, tasks[..n]), tasks, n);
      RingsSnoc(t, parses, StepsOf(s, parses, tasks[..n]), tasks, n);
    }
  }

  lemma NothingFails()
    ensures !R.ConnectFails([]) && NoConnectFails([]) && !R.TimerExpires([])
    ensures forall deadline :: !TimerRings(deadline, [])
  {
  }

  lemma FailsSnoc(t: Session, parses: F.Message -> bool, steps: seq<R.Step>, tasks: seq<LoopTask>, n: nat)
    requires |tasks| == n + 1 && CanDo(t, tasks[n])
    requires R.ConnectFails(steps) <==> !NoConnectFails(tasks[..n])
    ensures R.ConnectFails(steps + [StepOf(t, parses, tasks[n])]) <==> !NoConnectFails(tasks)
  {
    hide C.Heard, Sends;
    var step := StepOf(t, parses, tasks[n]);
    assert R.ConnectFails(steps + [step]) <==> R.ConnectFails(steps) || R.Fails(step) by {
      assert (steps + [step])[|steps|] == step;
      assert forall i :: 0 <= i < |steps| ==> (steps + [step])[i] == steps[i];
    }
    assert NoConnectFails(tasks) <==> NoConnectFails(tasks[..n]) && !(tasks[n].Connect? && tasks[n].code != R.OK) by {
      assert forall i :: 0 <= i < n ==> tasks[..n][i] == tasks[i];
    }
  }

  lemma RingsSnoc(t: Session, parses: F.Message -> bool, steps: seq<R.Step>, tasks: seq<LoopTask>, n: nat)
    requires |tasks| == n + 1 && CanDo(t, tasks[n])
    requires R.TimerExpires(steps) <==> TimerRings(t.deadline, tasks[..n])
    ensures R.TimerExpires(steps + [StepOf(t, parses, tasks[n])]) <==> TimerRings(t.deadline, tasks)
  {
    hide C.Heard, Sends;
    assert TimerRings(t.deadline, tasks) <==>
           TimerRings(t.deadline, tasks[..n]) || (tasks[n].TimerReady? && t.deadline <= tasks[n].now) by {
      assert forall i :: 0 <= i < n ==> tasks[..n][i] == tasks[i];
    }
  }

  /**
   Over every run of the loop's tasks the call completes at most twice, and twice exactly if the connection is reported
   to have failed and the timer is run at or after the deadline as well.
   */
  lemma SessionCompletesTwice(s: Session, parses: F.Message -> bool, tasks: seq<LoopTask>)
    requires R.Started(s.call) && CanAll(s, parses, tasks)
    ensures var t := AfterAll(s, parses, tasks);
            && |t.call.history| <= 2 && (s.call.call.hasDone ==> t.call.done == |t.call.history|)
            && (|t.call.history| == 2 <==> !NoConnectFails(tasks) && TimerRings(s.deadline, tasks))
  {
    hide R.IsRun, R.After, CanAll, AfterAll, StepsOf, R.Started, NoConnectFails, TimerRings, R.ConnectFails, R.TimerExpires;
    SessionIsRun(s, parses, tasks);
    R.CompletesTwiceExactlyWhen(s.call, StepsOf(s, parses, tasks));
  }

  /**
   Over every run of the loop's tasks after a call was started: if the connection is not reported to have failed, the
   call is decided by whichever comes first, the timer at or after the deadline or a reply to the request decoded from
   the bytes read once the request was handed over.
   */
  lemma SessionDecided(s: Session, parses: F.Message -> bool, tasks: seq<LoopTask>)
    requires R.Started(s.call) && CanAll(s, parses, tasks) && NoConnectFails(tasks)
    ensures R.Decided(s.call, AfterAll(s, parses, tasks).call, R.WinnerOf(s.call.call.msgId, StepsOf(s, parses, tasks)))
  {
    hide R.IsRun, R.After, CanAll, AfterAll, StepsOf, R.WinnerOf, R.Decided, R.Started, NoConnectFails, R.ConnectFails;
    SessionIsRun(s, parses, tasks);
    R.FirstDecides(s.call, StepsOf(s, parses, tasks));
  }

  // ---- The objects ----

  ghost function Now(channel: RpcChannel): Session
    requires channel.Shape()
    reads channel, channel.controller, channel.request, channel.timerEvent, channel.timer`state
    reads channel.client, channel.client.inBuffer, channel.client.inBuffer.buffer
    reads channel.client.outBuffer, channel.client.outBuffer.buffer
  {
    Session(channel.View(), channel.client.View(), channel.made, channel.timerEvent.arriveTime)
  }

  lemma OthersKept(s: M.State<Timers.TimerEvent>, t: M.State<Timers.TimerEvent>, e: Timers.TimerEvent,
                   tasks: nat -> seq<M.Step<Timers.TimerEvent>>)
    requires Others(s, e, tasks) && KeepsTimer(s, t)
    ensures Others(t, e, tasks)
  {
  }

  /** The connection is writable or readable. */
  method Transfer(channel: RpcChannel, task: LoopTask)
    requires channel.Shape() && channel.Valid() && CanDo(Now(channel), task) && (task.Writable? || task.Readable?)
    modifies channel`response, channel`done, channel`history, channel.controller, channel.request, channel.timerEvent
    modifies channel.timer`state, channel.client, channel.client.eventLoop, channel.client.fdEvent
    modifies channel.client.inBuffer, channel.client.inBuffer.buffer
    modifies channel.client.outBuffer, channel.client.outBuffer.buffer
    ensures channel.Shape() && Now(channel) == Next(old(Now(channel)), channel.parses, task)
    ensures KeepsTimer(old(channel.timer.state), channel.timer.state)
    ensures channel.client.inBuffer.buffer == old(channel.client.inBuffer.buffer)
    ensures channel.client.outBuffer.buffer == old(channel.client.outBuffer.buffer)
         || fresh(channel.client.outBuffer.buffer)
    ensures channel.Valid()
  {
    hide RpcChannel.Valid, RpcChannel.View, C.ClientConnection.View, TcpBuffer.Valid, C.CanTask, C.AfterRead;
    hide C.AfterWrite, R.Do, Sends, C.Heard, Posting;
    channel.Apart();
    match task
    case Writable(answers) => channel.OnWrite(answers);
    case Readable(answers) => channel.OnRead(answers);
  }

  /** The connection is made, or has failed. */
  method Connecting(channel: RpcChannel, task: LoopTask)
    requires channel.Shape() && channel.Valid() && CanDo(Now(channel), task) && task.Connect?
    modifies channel`done, channel`history, channel`link, channel.controller
    modifies channel.client, channel.client.eventLoop, channel.client.fdEvent
    ensures channel.Shape() && Now(channel) == Next(old(Now(channel)), channel.parses, task)
    ensures channel.Valid()
  {
    hide RpcChannel.Valid, RpcChannel.View, C.ClientConnection.View, TcpBuffer.Valid, R.Do, Calling;
    channel.Apart();
    channel.Report(task.code, task.info, task.looping);
  }

  /** The timer expires. */
  method Ring(channel: RpcChannel, task: LoopTask, around: Around)
    requires channel.Shape() && channel.Valid() && channel.timer.state.mode.Idle? && task.TimerReady?
    requires Others(channel.timer.state, channel.timerEvent, around.tasks)
    modifies channel`done, channel`history, channel.controller, channel.timer, channel.timer.state.events.Keys
    modifies channel.client, channel.client.eventLoop, channel.client.fdEvent
    ensures channel.Shape() && Now(channel) == Next(old(Now(channel)), channel.parses, task)
    ensures KeepsTimer(old(channel.timer.state), channel.timer.state)
    ensures channel.Valid()
  {
    hide RpcChannel.Valid, RpcChannel.View, C.ClientConnection.View, TcpBuffer.Valid, R.Do, Others;
    channel.Apart();
    channel.OnTimer(task.now, around.resetNow, around.clock, around.tasks);
  }

  method Perform(channel: RpcChannel, task: LoopTask, around: Around)
    requires channel.Shape() && channel.Valid() && channel.timer.state.mode.Idle? && CanDo(Now(channel), task)
    requires Others(channel.timer.state, channel.timerEvent, around.tasks)
    modifies channel`response, channel`done, channel`history, channel`link, channel.controller, channel.request
    modifies channel.timer, channel.timer.state.events.Keys, channel.client, channel.client.eventLoop
    modifies channel.client.fdEvent, channel.client.inBuffer, channel.client.inBuffer.buffer
    modifies channel.client.outBuffer, channel.client.outBuffer.buffer
    ensures channel.Shape() && Now(channel) == Next(old(Now(channel)), channel.parses, task)
    ensures KeepsTimer(old(channel.timer.state), channel.timer.state)
    ensures channel.client.inBuffer.buffer == old(channel.client.inBuffer.buffer)
    ensures channel.client.outBuffer.buffer == old(channel.client.outBuffer.buffer)
         || fresh(channel.client.outBuffer.buffer)
    ensures channel.Valid()
  {
    hide RpcChannel.Valid, RpcChannel.View, C.ClientConnection.View, TcpBuffer.Valid, Now, Next, CanDo, Others;
    channel.Apart();
    match task
    case Connect(_, _, _) => Connecting(channel, task);
    case TimerReady(_) => Ring(channel, task, around);
    case _ => Transfer(channel, task);
  }

  /** Whether a task can be run now. */
  method IsDefined(channel: RpcChannel, task: LoopTask) returns (possible: bool)
    requires channel.Shape() && channel.Valid()
    ensures channel.Shape() && channel.Valid()
    ensures possible <==> CanDo(Now(channel), task)
  {
    hide C.CanTask, C.ClientConnection.Valid, Timers.Timer.Valid, RpcChannel.Sending, RpcChannel.Timed;
    match task {
      case Connect(_, _, _) => possible := channel.link == R.Connecting;
      case Writable(answers) => possible := C.IsDefined(channel.client, C.Writable(answers));
      case Readable(answers) => possible := C.IsDefined(channel.client, C.Readable(answers));
      case TimerReady(_) => possible := true;
    }
    if task.Writable? || task.Readable? {
      possible := possible && channel.link == R.Connected;
    }
    ClientStays(channel.client);
    TimerStays(channel.timer);
  }

  /** Runs a task, unless it cannot be run now. */
  method Attempt(channel: RpcChannel, task: LoopTask, around: Around) returns (possible: bool)
    requires channel.Shape() && channel.Valid() && channel.timer.state.mode.Idle?
    requires Others(channel.timer.state, channel.timerEvent, around.tasks)
    modifies channel`response, channel`done, channel`history, channel`link, channel.controller, channel.request
    modifies channel.timer, channel.timer.state.events.Keys, channel.client, channel.client.eventLoop
    modifies channel.client.fdEvent, channel.client.inBuffer, channel.client.inBuffer.buffer
    modifies channel.client.outBuffer, channel.client.outBuffer.buffer
    ensures channel.Shape() && possible == old(CanDo(Now(channel), task))
    ensures Now(channel)
         == old(if CanDo(Now(channel), task) then Next(Now(channel), channel.parses, task) else Now(channel))
    ensures KeepsTimer(old(channel.timer.state), channel.timer.state)
    ensures channel.client.inBuffer.buffer == old(channel.client.inBuffer.buffer)
    ensures channel.client.outBuffer.buffer == old(channel.client.outBuffer.buffer)
         || fresh(channel.client.outBuffer.buffer)
    ensures channel.Valid()
  {
    hide RpcChannel.Valid, RpcChannel.View, C.ClientConnection.View, TcpBuffer.Valid, CanDo, Next, Others;
    possible := IsDefined(channel, task);
    if possible {
      Perform(channel, task, around);
    }
  }

  /** Any run of the loop's tasks for a call, up to the first that cannot be run. */
  method Run(channel: RpcChannel, tasks: seq<LoopTask>, around: nat -> Around) returns (done: nat)
    requires channel.Shape() && channel.Valid() && channel.timer.state.mode.Idle?
    requires forall i: nat :: Others(channel.timer.state, channel.timerEvent, around(i).tasks)
    modifies channel`response, channel`done, channel`history, channel`link, channel.controller, channel.request
    modifies channel.timer, channel.timer.state.events.Keys, channel.client, channel.client.eventLoop
    modifies channel.client.fdEvent, channel.client.inBuffer, channel.client.inBuffer.buffer
    modifies channel.client.outBuffer, channel.client.outBuffer.buffer
    ensures channel.Shape() && channel.Valid() && done <= |tasks|
    ensures CanAll(old(Now(channel)), channel.parses, tasks[..done])
    ensures Now(channel) == AfterAll(old(Now(channel)), channel.parses, tasks[..done])
    ensures done < |tasks| ==> !CanDo(Now(channel), tasks[done])
  {
    hide RpcChannel.Valid, RpcChannel.View, C.ClientConnection.View, TcpBuffer.Valid, Now, CanDo, Next, CanAll, AfterAll;
    hide Others;
    done := 0;
    ghost var s, t := Now(channel), channel.timer.state;
    NoTasks(s, channel.parses);
    while done < |tasks|
      invariant channel.Shape() && channel.Valid() && done <= |tasks| && KeepsTimer(t, channel.timer.state)
      invariant channel.client.inBuffer.buffer == old(channel.client.inBuffer.buffer)
      invariant channel.client.outBuffer.buffer == old(channel.client.outBuffer.buffer)
             || fresh(channel.client.outBuffer.buffer)
      invariant CanAll(s, channel.parses, tasks[..done]) && Now(channel) == AfterAll(s, channel.parses, tasks[..done])
    {
      TasksNext(s, channel.parses, tasks, done);
      OthersKept(t, channel.timer.state, channel.timerEvent, around(done).tasks);
      var possible := Attempt(channel, tasks[done], around(done));
      if !possible {
        break;
      }
      done := done + 1;
    }
  }

  /**
   A whole call: it is started, and then the loop runs tasks in any order, up to the first that cannot be run. If the
   connection is not reported to have failed, whichever comes first decides the call.
   */
  method Call(channel: RpcChannel, methodName: seq<byte>, data: seq<byte>, ids: MessageIds.MsgIdUtil,
              random: seq<byte>, now: int, addNow: int, tasks: seq<LoopTask>, around: nat -> Around)
    returns (done: nat, ghost s: Session)
    requires channel.Idle() && ids.Valid() && channel.isInit && !channel.controller.isCanceled
    requires channel.timer.state.mode.Idle? && InTimerOnly(channel.timer.state.events.Keys, around)
    requires F.FIXED_LEN + MessageIds.LENGTH + |channel.controller.msgId| + |methodName| + |data| <= INT32_MAX
    modifies channel, channel.controller, ids, channel.timer, channel.timer.state.events.Keys
    modifies channel.client, channel.client.eventLoop, channel.client.fdEvent
    modifies channel.client.inBuffer, channel.client.inBuffer.buffer
    modifies channel.client.outBuffer, channel.client.outBuffer.buffer
    ensures channel.Shape() && channel.Valid() && done <= |tasks|
    ensures R.Started(s.call) && s.client == old(channel.client.View())
    ensures s.deadline == now + old(channel.controller.timeout)
    ensures s.request.methodName == methodName && s.request.pbData == data
    ensures s.call.controller == old(channel.controller.Value()) && s.call.body == old(channel.response)
    ensures CanAll(s, channel.parses, tasks[..done]) && Now(channel) == AfterAll(s, channel.parses, tasks[..done])
    ensures done < |tasks| ==> !CanDo(Now(channel), tasks[done])
    ensures NoConnectFails(tasks[..done]) ==>
              R.Decided(s.call, Now(channel).call, R.WinnerOf(s.call.call.msgId, StepsOf(s, channel.parses, tasks[..done])))
  {
    hide RpcChannel.Valid, RpcChannel.Idle, RpcChannel.View, C.ClientConnection.View, TcpBuffer.Valid, InTimerOnly;
    hide Now, Others, CanDo, CanAll, AfterAll, StepsOf, R.Decided, R.Started, NoConnectFails, MessageIds.MsgIdUtil.Valid;
    hide R.WinnerOf;
    s := Begin(channel, methodName, data, ids, random, now, addNow, around);
    done := Run(channel, tasks, around);
    if NoConnectFails(tasks[..done]) {
      SessionDecided(s, channel.parses, tasks[..done]);
    }
  }

  /** The tasks of other events deal with known events only. */
  ghost predicate InTimerOnly(known: set<Timers.TimerEvent>, around: nat -> Around) {
    forall i: nat, j: nat, k :: 0 <= k < |around(i).tasks(j)| ==>
      Timers.IsCall(around(i).tasks(j)[k]) && around(i).tasks(j)[k].event in known
  }

  method Begin(channel: RpcChannel, methodName: seq<byte>, data: seq<byte>, ids: MessageIds.MsgIdUtil,
               random: seq<byte>, now: int, addNow: int, ghost around: nat -> Around)
    returns (ghost s: Session)
    requires channel.Idle() && ids.Valid() && channel.isInit && !channel.controller.isCanceled
    requires channel.timer.state.mode.Idle? && InTimerOnly(channel.timer.state.events.Keys, around)
    requires F.FIXED_LEN + MessageIds.LENGTH + |channel.controller.msgId| + |methodName| + |data| <= INT32_MAX
    modifies channel, channel.controller, ids, channel.timer
    ensures channel.Shape() && channel.Valid() && s == Now(channel) && R.Started(s.call)
    ensures fresh(channel.request) && fresh(channel.timerEvent)
    ensures s.client == old(channel.client.View()) && s.deadline == now + old(channel.controller.timeout)
    ensures s.request.methodName == methodName && s.request.pbData == data
    ensures s.call.controller == old(channel.controller.Value()) && s.call.body == old(channel.response)
    ensures channel.timer.state.mode.Idle?
    ensures channel.timer.state.events.Keys == old(channel.timer.state.events.Keys) + {channel.timerEvent}
    ensures forall i: nat :: Others(channel.timer.state, channel.timerEvent, around(i).tasks)
  {
    hide C.ClientConnection.Valid, C.ClientConnection.View, Timers.Timer.Valid, MessageIds.MsgIdUtil.Valid;
    hide RpcChannel.Timed, RpcChannel.TimeoutInfo, RpcChannel.ReplyId;
    var started := channel.CallMethod(methodName, Serialized(data), ids, random, now, addNow);
    channel.Apart();
    s := Now(channel);
    channel.BegunIsStarted();
  }
}
