/** The channel of a remote call: it hands its callbacks to the client's connection and to the timer. */
module Channels {
  import opened Bytes
  import opened Buffering
  import opened Coding
  import opened MessageIds
  import opened Sockets
  import C = Clients
  import F = Frames
  import H = TimerHistory
  import M = TimerMachine
  import R = RpcCompletion
  import opened TimerSpec
  import Reactor
  import Streams
  import TaskQueue
  import TB = TimerBatch
  import Timers

  function Digit(n: nat): string
    requires n <= 9
  {
    ['0' + n as char]
  }

  function ToString(n: int): string
    decreases if n < 0 then 1 - n else n
  {
    if n < 0 then "-" + ToString(-n)
    else if n <= 9 then Digit(n)
    else ToString(n / 10) + Digit(n % 10)
  }

  /** The digits spell the number without leading zeros; a negative one has a minus ahead of them. */
  lemma {:induction false} ToStringSpells(n: int)
    ensures n < 0 ==> ToString(n) == "-" + ToString(-n)
    ensures n >= 0 ==> forall i :: 0 <= i < |ToString(n)| ==> '0' <= ToString(n)[i] <= '9'
    ensures n >= 0 ==> Number(ToString(n)) == n && ToString(n) != [] && (ToString(n)[0] == '0' <==> n == 0)
  {
    if n > 9 {
      ToStringSpells(n / 10);
      var init: Digits, c := ToString(n / 10), '0' + (n % 10) as char;
      assert ToString(n) == init + [c];
      NumberSnoc(init, c);
    } else if n >= 0 {
      assert ToString(n) == [] + ['0' + n as char];
      NumberSnoc([], '0' + n as char);
    }
  }

  class RpcController {
    var errorCode: int
    var errorInfo: seq<byte>
    var isFailed: bool
    var isCanceled: bool
    var msgId: seq<byte>
    var timeout: int

    function Value(): R.Controller
      reads this
    {
      R.Controller.Controller(errorCode, errorInfo, isFailed, isCanceled)
    }

    constructor ()
      ensures Value() == R.Controller.Controller(0, [], false, false) && msgId == [] && timeout == 1000
    {
      errorCode, errorInfo, isFailed, isCanceled, msgId, timeout := 0, [], false, false, [], 1000;
    }

    method SetError(code: int, info: seq<byte>)
      modifies this`errorCode, this`errorInfo, this`isFailed
      ensures Value() == old(Value()).SetError(code, info)
    {
      errorCode, errorInfo, isFailed := code, info, true;
    }

    method StartCancel()
      modifies this`isCanceled
      ensures isCanceled
    {
      isCanceled := true;
    }
  }

  /** The callbacks that the channel gives to its connection: for the request sent, and for the reply. */
  const SENT := 0
  const REPLY := 1

  /** What is to be sent: no request at all, one that cannot be serialized, or the bytes of one. */
  datatype Payload = NoRequest | Unserializable | Serialized(bytes: seq<byte>) {
    function Data(): seq<byte> {
      if Serialized? then bytes else []
    }
  }

  function RepliesOf(parses: F.Message -> bool, ms: seq<F.Message>): (rs: seq<R.Reply>)
    ensures |rs| == |ms|
  {
    seq(|ms|, i requires 0 <= i < |ms| => R.Reply(ms[i], parses(ms[i])))
  }

  function WaitingFor(id: seq<byte>, waiting: bool): map<seq<byte>, nat> {
    if waiting then map[id := REPLY] else map[]
  }

  /** The replies that the connection delivers to the callback are those that complete the call. */
  lemma {:induction false} DeliverIsRead(parses: F.Message -> bool, v: R.State, ms: seq<F.Message>)
    ensures var d := C.Deliver(WaitingFor(v.call.msgId, v.waiting), ms);
            var w := R.ReadAll(v, RepliesOf(parses, ms));
            && w.waiting == (v.waiting && d.calls == []) && d.waiting == WaitingFor(v.call.msgId, w.waiting)
            && |d.calls| <= (if v.waiting then 1 else 0)
            && (d.calls == [] ==> w == v)
            && (d.calls != [] ==>
                  && d.calls[0].callback == REPLY
                  && w == if v.controller.canceled then v.(waiting := false)
                          else R.Complete(v.(waiting := false, task := false),
                                          R.Replied(R.Reply(d.calls[0].message, parses(d.calls[0].message))), true))
  {
    hide R.Complete;
    if ms != [] {
      var n := |ms| - 1;
      DeliverIsRead(parses, v, ms[..n]);
      assert RepliesOf(parses, ms)[..n] == RepliesOf(parses, ms[..n]);
      CompleteKeeps(v);
    }
  }

  lemma CompleteKeeps(v: R.State)
    ensures forall how :: R.Complete(v.(waiting := false, task := false), how, true).call == v.call
                       && !R.Complete(v.(waiting := false, task := false), how, true).waiting
  {
  }

  lemma RequestFits(m: F.Message)
    requires m.errCode == 0 && F.FrameLen(m) <= INT32_MAX && (m.msgId == [] ==> F.FrameLen(m) + LENGTH <= INT32_MAX)
    ensures F.Fits(WithId(m))
  {
  }

  /** A connection stays as it is while nothing of it is written. */
  twostate lemma ClientStays(c: C.ClientConnection)
    requires old(c.Valid())
    requires unchanged(c, c.eventLoop, c.fdEvent, c.inBuffer, old(c.inBuffer.buffer), c.outBuffer, old(c.outBuffer.buffer))
    requires forall m :: m in old(c.Objects()) ==> unchanged(m)
    ensures c.Valid()
  {
    assert c.inBuffer.Valid() && c.outBuffer.Valid();
    assert c.eventLoop.Valid();
    assert c.Objects() == old(c.Objects());
    assert c.courier.Valid();
    assert forall i :: 0 <= i < |c.writeCb| ==> c.Objects()[i] in c.Objects();
    assert forall i :: 0 <= i < |c.writeCb| ==> c.Objects()[i].Value() == old(c.Objects()[i].Value());
    assert c.Matches();
    assert c.Armed();
  }

  twostate lemma TimerStays(t: Timers.Timer)
    requires old(t.Valid()) && unchanged(t) && forall e :: e in old(t.state.events.Keys) ==> unchanged(e)
    ensures t.Valid()
  {
    assert t.state == old(t.state);
    assert forall e :: e in t.state.events ==> e.Value() == old(e.Value());
  }

  class RpcChannel {
    const controller: RpcController
    const client: C.ClientConnection
    const timer: Timers.Timer
    const hasDone: bool
    const peerAddr: seq<byte>
    /** Whether the response message accepts the data of a reply. */
    const parses: F.Message -> bool
    var isInit: bool
    /** The response message, and how often `done` has run. */
    var response: R.Body
    var done: nat
    /** How far the client is with connecting. */
    var link: R.Link
    var request: TinyPBProtocol?
    var timerEvent: Timers.TimerEvent?
    ghost var doneBefore: nat
    ghost var history: seq<R.Completion>
    /** The request as it was made, before encoding has given it an id if it has none. */
    ghost var made: F.Message

    /** A call is under way or over. */
    ghost predicate Called()
      reads this
    {
      request != null && timerEvent != null && doneBefore <= done
    }

    /** The id under which the request is encoded, and which the reply has. */
    function ReplyId(): seq<byte>
      requires request != null
      reads this`request, request
    {
      WithId(request.Value()).msgId
    }

    /** The error text of a timeout. */
    function TimeoutInfo(): seq<byte>
      requires request != null
      reads this`request, request, controller`timeout
    {
      R.Text("rpc call timeout, msg_id=[") + ReplyId() + R.Text("], method_name=[") + request.methodName +
      R.Text("] peer_addr=[") + peerAddr + R.Text("], timeout=[" + ToString(controller.timeout) + "ms]")
    }

    /** The connection has nothing queued but the request, and waits for nothing but its reply. */
    ghost predicate Sending()
      requires request != null
      reads this`request, this`link, this`made, request, client`writeCb, client`readCb, client`state
    {
      && F.Fits(WithId(request.Value())) && WithId(request.Value()) == WithId(made)
      && (link == R.Connecting ==> request.Value() == made)
      && (client.writeCb == [] || client.writeCb == [C.Queued(request, SENT)])
      && (client.readCb == map[] || client.readCb == map[ReplyId() := REPLY])
      && (client.writeCb != [] ==> client.readCb == map[])
      && (link != R.Connected ==> client.state == NotConnected && client.writeCb == [] && client.readCb == map[])
      && (link == R.Connected ==> client.state == TcpState.Connected || client.state == Closed)
    }

    /** The timeout is in the timer at most once, under its own arrival, and nowhere else. */
    ghost predicate Timed()
      requires timerEvent != null
      reads this`timerEvent, timerEvent, timer`state
    {
      && !timerEvent.isRepeat && (timerEvent.isCanceled ==> !timerEvent.hasTask)
      && H.Keyed(timer.state, timerEvent) && H.Count(timer.state.bag, timerEvent) <= 1
      && H.Turns(timer.state.mode, timerEvent) == 0
    }

    ghost predicate InTimer(event: Timers.TimerEvent)
      reads timer, event
    {
      Entry(event.arriveTime, event) in timer.state.bag
    }

    ghost predicate Valid()
      reads this, controller, request, timerEvent, timer, timer.state.events.Keys, client, client.eventLoop,
            client.fdEvent, client.inBuffer, client.inBuffer.buffer, client.outBuffer, client.outBuffer.buffer,
            client.Objects()
    {
      Called() && client.Valid() && timer.Valid() && Sending() && Timed()
    }

    /** The call as the machine sees it, told from the connection, the timer and the controller. */
    ghost function View(): R.State
      requires Called()
      reads this, request, controller, timerEvent, timer`state, client`writeCb, client`readCb, client`closed
    {
      R.State.State(R.Call.Call(ReplyId(), TimeoutInfo(), hasDone), controller.Value(), response,
                    H.Count(timer.state.bag, timerEvent) == 1, timerEvent.hasTask, link,
                    client.writeCb != [], client.readCb != map[], client.closed, done - doneBefore, history)
    }

    /** Enough of `Valid` to look at the call and the connection. */
    ghost predicate Shape()
      reads this, client, client.inBuffer, client.outBuffer
    {
      Called() && client.inBuffer.Valid() && client.outBuffer.Valid()
    }

    /** What the machine keeps as flags is what the connection and the timer hold. */
    lemma HeldAsTold()
      requires Valid()
      ensures View().unsent <==> C.Queued(request, SENT) in client.writeCb
      ensures View().waiting <==> ReplyId() in client.readCb
      ensures View().timer <==> exists i :: 0 <= i < |timer.pending| && timer.pending[i].event == timerEvent
      ensures View().timer <==> InTimer(timerEvent)
    {
      hide C.ClientConnection.Valid, H.Count, Sort, RpcChannel.TimeoutInfo, RpcChannel.ReplyId, WithId;
      H.CountMember(timer.state.bag, timerEvent);
      SortSorted(timer.state.bag);
      SamePending(timer.pending, timer.state.bag, timerEvent);
    }

    constructor (controller: RpcController, client: C.ClientConnection, timer: Timers.Timer, hasDone: bool,
                 peerAddr: seq<byte>, parses: F.Message -> bool)
      ensures this.controller == controller && this.client == client && this.timer == timer
      ensures this.hasDone == hasDone && this.peerAddr == peerAddr && this.parses == parses
      ensures !isInit && request == null && timerEvent == null && done == 0 && response == R.Fresh
    {
      this.controller, this.client, this.timer := controller, client, timer;
      this.hasDone, this.peerAddr, this.parses := hasDone, peerAddr, parses;
      isInit, response, done, link := false, R.Fresh, 0, R.Connecting;
      request, timerEvent, doneBefore, history, made := null, null, 0, [], F.Message.Message([], [], 0, [], []);
    }

    method Init()
      modifies this`isInit
      ensures isInit
    {
      isInit := true;
    }

    method RunDone()
      modifies this`done
      ensures done == old(done) + if hasDone then 1 else 0
    {
      if hasDone {
        done := done + 1;
      }
    }

    /** The request, under the id of the controller if it has one, and else under one made for it. */
    method MakeRequest(methodName: seq<byte>, ids: MsgIdUtil, random: seq<byte>) returns (req: TinyPBProtocol)
      requires ids.Valid()
      modifies ids, controller`msgId
      ensures ids.Valid() && fresh(req)
      ensures req.Value() == F.Message.Message(controller.msgId, methodName, 0, [], [])
      ensures req.msgIdLen == |req.msgId| && req.methodNameLen == |req.methodName| && req.errInfoLen == 0
      ensures |controller.msgId| <= LENGTH + |old(controller.msgId)|
      ensures old(controller.msgId) != [] ==> controller.msgId == old(controller.msgId) && ids.no == old(ids.no)
      ensures old(controller.msgId) == [] && !old(ids.Reseeds()) ==>
                controller.msgId == R.Text(ids.no) && Number(ids.no) == old(Number(ids.no)) + 1
      ensures old(controller.msgId) == [] && old(ids.Reseeds()) && |random| == LENGTH ==>
                controller.msgId == R.Text(Seeded(random)) && ids.no == Seeded(random)
      ensures old(controller.msgId) == [] && old(ids.Reseeds()) && |random| != LENGTH ==>
                controller.msgId == [] && ids.no == old(ids.no)
    {
      hide Number, Nines, Seeded;
      req := new TinyPBProtocol();
      if controller.msgId != [] {
        req.SetMsgId(controller.msgId);
      } else {
        var id := ids.GenMsgId(random);
        req.SetMsgId(R.Text(id));
        controller.msgId := req.msgId;
      }
      req.SetMethodName(methodName);
    }

    /** A call has just been started. */
    ghost predicate Begun()
      reads this`timerEvent, this`link, this`history, this`done, this`doneBefore, timer`state, timerEvent
      reads client`writeCb, client`readCb, client`closed
    {
      && timerEvent != null && timerEvent.hasTask && H.Count(timer.state.bag, timerEvent) == 1
      && link == R.Connecting && history == [] && done == doneBefore
      && client.writeCb == [] && client.readCb == map[] && !client.closed
    }

    lemma BegunIsStarted()
      requires Valid() && Begun() && !controller.isCanceled
      ensures R.Started(View())
    {
    }

    /** The channel can begin a call: its connection and its timer know nothing of one. */
    ghost predicate Idle()
      reads this, timer, timer.state.events.Keys, client, client.eventLoop, client.fdEvent, client.inBuffer,
            client.inBuffer.buffer, client.outBuffer, client.outBuffer.buffer, client.Objects()
    {
      && timerEvent == null && client.Valid() && timer.Valid()
      && client.state == NotConnected && client.writeCb == [] && client.readCb == map[] && !client.closed
    }

    /**
     A call without a request is one with no payload. A call that is started has its timeout in the timer
     and its connection under way; one that is not has failed, and `done` has run.
     */
    method CallMethod(methodName: seq<byte>, payload: Payload, ids: MsgIdUtil, random: seq<byte>, now: int, addNow: int)
      returns (started: bool)
      requires Idle() && ids.Valid()
      requires !payload.Unserializable? ==>
                 F.FIXED_LEN + LENGTH + |controller.msgId| + |methodName| + |payload.Data()| <= INT32_MAX
      modifies this, ids, timer, controller`msgId, controller`errorCode, controller`errorInfo, controller`isFailed
      ensures ids.Valid() && isInit == old(isInit) && started == (isInit && !payload.Unserializable?)
      ensures old(controller.msgId) != [] ==> controller.msgId == old(controller.msgId)
      ensures !isInit ==>
                controller.Value() == R.Controller.Controller(10000011, R.Text("RpcChannel not init"), true,
                                                              old(controller.isCanceled))
      ensures isInit && payload.Unserializable? ==>
                controller.Value() == R.Controller.Controller(10000004, R.Text("Serialize request failed"), true,
                                                              old(controller.isCanceled))
      ensures !started ==>
                done == old(done) + (if hasDone then 1 else 0) && timerEvent == null && timer.state == old(timer.state)
      ensures started ==>
                && Valid() && fresh(request) && fresh(timerEvent) && done == old(done)
                && request.Stamped()
                && request.Value() == F.Message.Message(controller.msgId, methodName, 0, [], payload.Data())
                && timerEvent.arriveTime == now + controller.timeout
                && InTimer(timerEvent)
                && controller.Value() == old(controller.Value()) && response == old(response)
                && timer.state.mode == old(timer.state.mode)
                && timer.state.events.Keys == old(timer.state.events.Keys) + {timerEvent}
                && Begun()
    {
      hide R.Text, MsgIdUtil.Valid, RpcChannel.Valid, RpcChannel.Idle, RpcChannel.Begun, F.Fits, WithId;
      IdleHasNoTimeout();
      var req := Prepare(methodName, ids, random);
      if !isInit {
        Refuse(R.SYS_CHANNEL_NOT_INIT, R.Text("RpcChannel not init"));
        return false;
      }
      if payload.Unserializable? {
        Refuse(R.SYS_FAILED_SERIALIZE, R.Text("Serialize request failed"));
        return false;
      }
      RequestFits(req.Value().(pbData := payload.Data()));
      Start(req, payload.Data(), now, addNow);
      return true;
    }

    lemma IdleHasNoTimeout()
      requires Idle()
      ensures timerEvent == null
    {
    }

    /** The request is made, and the channel is as idle as before. */
    method Prepare(methodName: seq<byte>, ids: MsgIdUtil, random: seq<byte>) returns (req: TinyPBProtocol)
      requires Idle() && ids.Valid()
      modifies ids, controller`msgId
      ensures Idle() && ids.Valid() && fresh(req)
      ensures req.Value() == F.Message.Message(controller.msgId, methodName, 0, [], [])
      ensures req.msgIdLen == |req.msgId| && req.methodNameLen == |req.methodName| && req.errInfoLen == 0
      ensures |controller.msgId| <= LENGTH + |old(controller.msgId)|
      ensures old(controller.msgId) != [] ==> controller.msgId == old(controller.msgId)
    {
      hide MsgIdUtil.Valid, Number, Seeded, C.ClientConnection.Valid, Timers.Timer.Valid, R.Text;
      assert client.Objects() == [];
      req := MakeRequest(methodName, ids, random);
      ClientStays(client);
      TimerStays(timer);
    }

    /** The call fails before anything has been started. */
    method Refuse(code: int, info: seq<byte>)
      modifies this`done, controller`errorCode, controller`errorInfo, controller`isFailed
      ensures controller.Value() == old(controller.Value()).SetError(code, info)
      ensures done == old(done) + if hasDone then 1 else 0
    {
      controller.SetError(code, info);
      RunDone();
    }

    /** Completes the request, adds the timeout to the timer and begins to connect. */
    method Start(req: TinyPBProtocol, data: seq<byte>, now: int, addNow: int)
      requires Idle() && F.Fits(WithId(req.Value().(pbData := data)))
      requires req.msgIdLen == |req.msgId| && req.methodNameLen == |req.methodName| && req.errInfoLen == |req.errInfo|
      modifies this`request, this`timerEvent, this`link, this`doneBefore, this`history, this`made, req, timer
      ensures Valid() && request == req && fresh(timerEvent)
      ensures request.Stamped() && request.Value() == old(req.Value()).(pbData := data)
      ensures timerEvent.arriveTime == now + controller.timeout
      ensures InTimer(timerEvent)
      ensures timer.state.mode == old(timer.state.mode)
      ensures timer.state.events.Keys == old(timer.state.events.Keys) + {timerEvent}
      ensures Begun()
    {
      hide F.Fits, H.Count, Timers.Timer.Valid, C.ClientConnection.Valid, RpcChannel.Timed, RpcChannel.Idle, WithId;
      Begin(req, data);
      label Ready:
      AddTimeout(now, addNow);
      ClientStays@Ready(client);
    }

    /** Nothing of an earlier call is left. */
    method Begin(req: TinyPBProtocol, data: seq<byte>)
      requires Idle() && F.Fits(WithId(req.Value().(pbData := data)))
      requires req.msgIdLen == |req.msgId| && req.methodNameLen == |req.methodName| && req.errInfoLen == |req.errInfo|
      modifies this`request, this`link, this`doneBefore, this`history, this`made, req
      ensures client.Valid() && timer.Valid() && request == req && client.Objects() == []
      ensures request.Stamped() && request.Value() == old(req.Value()).(pbData := data)
      ensures Sending() && link == R.Connecting && history == [] && done == doneBefore
      ensures client.writeCb == [] && client.readCb == map[] && !client.closed
    {
      hide F.Fits, Timers.Timer.Valid, C.ClientConnection.Valid, WithId;
      assert client.Objects() == [];
      FillRequest(req, data);
      link := R.Connecting;
      doneBefore, history, made := done, [], request.Value();
      TimerStays(timer);
      ClientStays(client);
    }

    method FillRequest(req: TinyPBProtocol, data: seq<byte>)
      requires req.msgIdLen == |req.msgId| && req.methodNameLen == |req.methodName| && req.errInfoLen == |req.errInfo|
      modifies this`request, req
      ensures request == req && req.Stamped() && req.Value() == old(req.Value()).(pbData := data)
    {
      req.SetPbData(data);
      req.Complete();
      request := req;
    }

    /** The timer gets an event that it has not met before. */
    method AddTimeout(now: int, addNow: int)
      requires timer.Valid()
      modifies this`timerEvent, timer
      ensures timerEvent != null && fresh(timerEvent) && timerEvent.arriveTime == now + controller.timeout
      ensures timer.Valid() && Timed() && H.Count(timer.state.bag, timerEvent) == 1 && InTimer(timerEvent)
      ensures timerEvent.hasTask
      ensures timer.state.mode == old(timer.state.mode)
      ensures timer.state.events.Keys == old(timer.state.events.Keys) + {timerEvent}
    {
      hide H.Count, H.Turns, M.MinKey, Timers.Closed, Timers.Timer.Filed, Sort, Insert;
      timerEvent := new Timers.TimerEvent(controller.timeout, false, true, now);
      TimerStays(timer);
      NotMet(timer, timerEvent);
      timer.Meet(timerEvent);
      ghost var s := timer.state;
      timer.AddTimerEvent(timerEvent, addNow, true);
      H.PutKeeps(s, timerEvent, addNow);
      H.PutCount(s, timerEvent, addNow, timerEvent);
      H.CountMember(s.bag, timerEvent);
    }

    /** A completion: `done` runs and the client is closed, which stops the loop. */
    method Finish(how: R.Completion, looping: bool)
      requires Shape() && Valid()
      modifies this`done, this`history, client`closed, client.eventLoop, client.fdEvent`events
      ensures Shape() && Valid() && client.View() == old(client.View())
      ensures var v := old(View());
              View() == v.(closed := v.closed || looping, done := v.done + (if v.call.hasDone then 1 else 0),
                           history := v.history + [how])
      ensures looping ==> client.eventLoop.stopFlag && client.fdEvent.events == {}
    {
      hide RpcChannel.Valid, RpcChannel.TimeoutInfo, RpcChannel.ReplyId;
      Note(how);
      if looping {
        CloseClient();
      }
    }

    method Note(how: R.Completion)
      requires Shape() && Valid()
      modifies this`done, this`history
      ensures Shape() && Valid() && client.View() == old(client.View())
      ensures var v := old(View());
              View() == v.(done := v.done + (if v.call.hasDone then 1 else 0), history := v.history + [how])
    {
      hide C.ClientConnection.Valid, Timers.Timer.Valid, H.Count, RpcChannel.TimeoutInfo, RpcChannel.ReplyId;
      hide RpcChannel.Sending, RpcChannel.Timed;
      history := history + [how];
      RunDone();
      ClientStays(client);
      TimerStays(timer);
    }

    method CloseClient()
      requires Shape() && Valid()
      modifies client`closed, client.eventLoop, client.fdEvent`events
      ensures Shape() && Valid() && client.View() == old(client.View()) && View() == old(View()).(closed := true)
      ensures client.eventLoop.stopFlag && client.fdEvent.events == {}
    {
      hide C.ClientConnection.Valid, Timers.Timer.Valid, H.Count, RpcChannel.TimeoutInfo, RpcChannel.ReplyId;
      hide RpcChannel.Sending, RpcChannel.Timed;
      client.Close();
      TimerStays(timer);
    }

    /** The call has failed, or is cancelled as well. */
    method GiveUp(code: int, info: seq<byte>, cancel: bool)
      requires Shape() && Valid()
      modifies controller
      ensures Shape() && Valid() && client.View() == old(client.View())
      ensures var v := old(View());
              View() == v.(controller := v.controller.(canceled := v.controller.canceled || cancel).SetError(code, info))
    {
      hide C.ClientConnection.Valid, Timers.Timer.Valid, H.Count, RpcChannel.ReplyId, RpcChannel.Sending, RpcChannel.Timed;
      if cancel {
        controller.StartCancel();
      }
      controller.SetError(code, info);
      ClientStays(client);
      TimerStays(timer);
    }

    /** The text names the id, the method, the peer and the milliseconds waited. */
    lemma TimeoutTold()
      requires request != null
      ensures TimeoutInfo() ==
        R.Text("rpc call timeout, msg_id=[") + WithId(request.Value()).msgId + R.Text("], method_name=[") +
        request.methodName + R.Text("] peer_addr=[") + peerAddr +
        R.Text("], timeout=[") + R.Text(ToString(controller.timeout)) + R.Text("ms]")
    {
      hide ToString, WithId;
      var ms := ToString(controller.timeout);
      assert R.Text("], timeout=[" + ms + "ms]") == R.Text("], timeout=[") + R.Text(ms) + R.Text("ms]");
    }

    /** The timeout task. */
    method Expire()
      requires Shape() && Valid()
      modifies this`done, this`history, controller, client`closed, client.eventLoop, client.fdEvent`events
      ensures Shape() && Valid() && View() == R.Complete(old(View()), R.TimedOut, true)
      ensures client.View() == old(client.View())
      ensures controller.Value() == R.Controller.Controller(10000007, old(TimeoutInfo()), true, true)
      ensures controller.errorInfo ==
        R.Text("rpc call timeout, msg_id=[") + WithId(request.Value()).msgId + R.Text("], method_name=[") +
        request.methodName + R.Text("] peer_addr=[") + peerAddr +
        R.Text("], timeout=[") + R.Text(ToString(controller.timeout)) + R.Text("ms]")
      ensures client.eventLoop.stopFlag
    {
      hide R.Text, ToString, WithId, RpcChannel.Valid, RpcChannel.TimeoutInfo, RpcChannel.ReplyId;
      assert TimeoutInfo() == View().call.timeoutInfo;
      GiveUp(R.SYS_RPC_CALL_TIMEOUT, TimeoutInfo(), true);
      Finish(R.TimedOut, true);
      assert TimeoutInfo() == View().call.timeoutInfo;
      TimeoutTold();
    }

    /** The callback given to `connect`; the client's error code is 0 if the connection was made. */
    method Report(code: int, info: seq<byte>, looping: bool)
      requires Shape() && Valid() && link == R.Connecting
      modifies this`done, this`history, this`link, controller, client`closed, client`state, client`writeCb, client`courier
      modifies client.eventLoop, client.fdEvent
      ensures Shape() && Valid() && View() == R.Do(old(View()), R.Report(code, info, looping))
      ensures client.View() == if code == R.OK then Calling(old(client.View()), made) else old(client.View())
    {
      if code != R.OK {
        Refused(code, info, looping);
      } else {
        Made();
      }
    }

    method Refused(code: int, info: seq<byte>, looping: bool)
      requires Shape() && Valid() && link == R.Connecting && code != R.OK
      modifies this`done, this`history, this`link, controller, client`closed, client.eventLoop, client.fdEvent`events
      ensures Shape() && Valid() && View() == R.Do(old(View()), R.Report(code, info, looping))
      ensures client.View() == old(client.View())
      ensures looping ==> client.eventLoop.stopFlag
    {
      hide RpcChannel.Valid, RpcChannel.View, R.ReadAll;
      BreakLink();
      GiveUp(code, info, false);
      Finish(R.NotConnected(code, info), looping);
    }

    method BreakLink()
      requires Shape() && Valid() && link == R.Connecting
      modifies this`link
      ensures Shape() && Valid() && View() == old(View()).(link := R.Broken) && client.View() == old(client.View())
    {
      hide R.Text, C.ClientConnection.Valid, Timers.Timer.Valid, H.Count, F.Fits, RpcChannel.TimeoutInfo, RpcChannel.ReplyId;
      hide RpcChannel.Timed;
      link := R.Broken;
      ClientStays(client);
      TimerStays(timer);
    }

    method Made()
      requires Shape() && Valid() && link == R.Connecting
      modifies this`link, client`state, client`writeCb, client`courier, client.eventLoop, client.fdEvent
      ensures Shape() && Valid() && View() == old(View()).(link := R.Connected, unsent := true)
      ensures client.View() == Calling(old(client.View()), made)
    {
      hide RpcChannel.Valid, RpcChannel.TimeoutInfo, RpcChannel.ReplyId;
      LinkUp();
      QueueRequest();
    }

    method LinkUp()
      requires Shape() && Valid() && link == R.Connecting
      modifies this`link, client`state
      ensures Shape() && Valid() && View() == old(View()).(link := R.Connected)
      ensures client.View() == old(client.View()).(state := TcpState.Connected)
      ensures client.writeCb == [] && client.readCb == map[] && request.Value() == made
      ensures client.state == TcpState.Connected
    {
      hide C.ClientConnection.Valid, Timers.Timer.Valid, H.Count, WithId, F.Fits, RpcChannel.TimeoutInfo;
      hide RpcChannel.Timed;
      link := R.Connected;
      ClientStays(client);
      client.SetConnected();
      TimerStays(timer);
    }

    method QueueRequest()
      requires Shape() && Valid() && link == R.Connected
      requires client.writeCb == [] && client.readCb == map[] && request.Value() == made
      requires client.state == TcpState.Connected
      modifies client`writeCb, client`courier, client.eventLoop, client.fdEvent
      ensures Shape() && Valid() && View() == old(View()).(unsent := true)
      ensures client.View() == Calling(old(client.View()), made)
    {
      hide C.ClientConnection.Valid, Timers.Timer.Valid, H.Count, WithId, F.Fits, RpcChannel.TimeoutInfo, RpcChannel.ReplyId;
      hide RpcChannel.Timed;
      client.WriteMessage(request, SENT);
      TimerStays(timer);
    }

    /** The callback for the reply. */
    method Receive(message: F.Message)
      requires Shape() && Valid() && !controller.isCanceled
      modifies this`response, this`done, this`history, controller`errorCode, controller`errorInfo, controller`isFailed
      modifies timer`state, timerEvent, client`closed, client.eventLoop, client.fdEvent`events
      ensures Shape() && Valid() && client.View() == old(client.View())
      ensures KeepsTimer(old(timer.state), timer.state) && timerEvent.arriveTime == old(timerEvent.arriveTime)
      ensures View() == R.Complete(old(View()).(task := false), R.Replied(R.Reply(message, parses(message))), true)
      ensures R.Outcome(old(View()).call, old(controller.Value()), old(response),
                        R.Replied(R.Reply(message, parses(message))), controller.Value(), response)
      ensures client.eventLoop.stopFlag
    {
      hide R.Settle, R.Outcome, RpcChannel.Valid, RpcChannel.View;
      DropTimeout();
      Accept(message);
      Finish(R.Replied(R.Reply(message, parses(message))), true);
    }

    /** Takes over what the reply says. */
    method Accept(message: F.Message)
      requires Shape() && Valid()
      modifies this`response, controller`errorCode, controller`errorInfo, controller`isFailed
      ensures Shape() && Valid() && client.View() == old(client.View())
      ensures var v := old(View());
              var (c, b) := R.Settle(v.call, v.controller, v.body, R.Replied(R.Reply(message, parses(message))));
              View() == v.(controller := c, body := b)
      ensures R.Outcome(old(View()).call, old(controller.Value()), old(response),
                        R.Replied(R.Reply(message, parses(message))), controller.Value(), response)
    {
      hide R.Settle, R.Outcome, C.ClientConnection.Valid, Timers.Timer.Valid, H.Count, RpcChannel.TimeoutInfo, RpcChannel.ReplyId;
      hide RpcChannel.Sending, RpcChannel.Timed;
      TakeOver(message, View().call);
      ClientStays(client);
      TimerStays(timer);
    }

    /** What the reply makes of the controller and the response. */
    method TakeOver(message: F.Message, ghost call: R.Call)
      modifies this`response, controller`errorCode, controller`errorInfo, controller`isFailed
      ensures (controller.Value(), response)
           == R.Settle(call, old(controller.Value()), old(response), R.Replied(R.Reply(message, parses(message))))
      ensures R.Outcome(call, old(controller.Value()), old(response), R.Replied(R.Reply(message, parses(message))),
                        controller.Value(), response)
    {
      hide R.Text;
      if message.errCode != R.OK {
        controller.SetError(message.errCode, message.errInfo);
      } else if !parses(message) {
        response := R.Garbled(message.pbData);
        controller.SetError(R.SYS_FAILED_DESERIALIZE, R.Text("Deserialize response failed"));
      } else {
        response := R.Accepted(message.pbData);
      }
    }

    /** The timeout's task is dropped; its event stays in the timer. */
    method DropTimeout()
      requires Shape() && Valid()
      modifies timer`state, timerEvent
      ensures Shape() && Valid() && client.View() == old(client.View()) && View() == old(View()).(task := false)
      ensures KeepsTimer(old(timer.state), timer.state) && timerEvent.arriveTime == old(timerEvent.arriveTime)
    {
      hide C.ClientConnection.Valid, Timers.Timer.Valid, H.Count, RpcChannel.TimeoutInfo, RpcChannel.ReplyId;
      hide RpcChannel.Sending;
      CancelTimeout();
      ClientStays(client);
    }

    method CancelTimeout()
      requires timerEvent != null && timer.Valid() && Timed()
      modifies timer`state, timerEvent
      ensures timer.Valid() && Timed() && !timerEvent.hasTask && timer.state.bag == old(timer.state.bag)
      ensures KeepsTimer(old(timer.state), timer.state) && timerEvent.arriveTime == old(timerEvent.arriveTime)
    {
      hide H.Count, H.Turns;
      timer.Cancel(timerEvent, true);
      assert timerEvent.Value() == timer.state.events[timerEvent];
      assert H.Keyed(timer.state, timerEvent);
    }

    // ---- What the event loop runs ----

    /**
     The connection is writable: it encodes and writes, and once the request is handed over its callback has the reply
     waited for.
     */
    method OnWrite(answers: seq<WriteAnswer>)
      requires Shape() && Valid() && link == R.Connected
      modifies client, client.eventLoop, client.fdEvent, client.outBuffer, client.outBuffer.buffer, request
      ensures Shape() && client.View() == Posting(old(View()), old(client.View()), answers)
      ensures client.outBuffer.buffer == old(client.outBuffer.buffer) || fresh(client.outBuffer.buffer)
      ensures View() == R.Do(old(View()), R.OnWrite(old(Sends(client.View(), answers))))
      ensures Valid()
    {
      hide RpcChannel.Valid, C.AfterWrite, Sends, R.ReadAll;
      hide RpcChannel.TimeoutInfo, RpcChannel.ReplyId;
      var n := |client.calls|;
      Write(answers);
      if |client.calls| > n {
        Await();
      }
    }

    /** Writing, up to the callback: the calls of the connection tell whether the request has been handed over. */
    method Write(answers: seq<WriteAnswer>)
      requires Shape() && Valid() && link == R.Connected
      modifies client, client.eventLoop, client.fdEvent, client.outBuffer, client.outBuffer.buffer, request
      ensures Shape() && Valid() && client.View() == C.AfterWrite(old(client.View()), answers)
      ensures client.outBuffer.buffer == old(client.outBuffer.buffer) || fresh(client.outBuffer.buffer)
      ensures View() == old(View()).(unsent := old(View()).unsent && !old(Sends(client.View(), answers)))
      ensures |client.calls| > |old(client.calls)| <==> old(View()).unsent && old(Sends(client.View(), answers))
    {
      hide R.Text, H.Count, C.AfterWrite, Sends, RpcChannel.Timed, Timers.Timer.Valid, C.ClientConnection.Valid;
      hide WithId, F.Fits;
      Push(answers);
      TimerStays(timer);
      SameInfo(old(request.Value()), request.Value());
    }

    method Push(answers: seq<WriteAnswer>)
      requires Shape() && Valid() && link == R.Connected
      modifies client, client.eventLoop, client.fdEvent, client.outBuffer, client.outBuffer.buffer, request
      ensures Shape() && client.Valid() && client.View() == C.AfterWrite(old(client.View()), answers)
      ensures client.outBuffer.buffer == old(client.outBuffer.buffer) || fresh(client.outBuffer.buffer)
      ensures client.writeCb == if old(Sends(client.View(), answers)) then [] else old(client.writeCb)
      ensures client.readCb == old(client.readCb) && client.state == old(client.state)
      ensures client.closed == old(client.closed)
      ensures |client.calls| > |old(client.calls)| <==> old(client.writeCb) != [] && old(Sends(client.View(), answers))
      ensures WithId(request.Value()) == WithId(old(request.Value()))
    {
      hide C.AfterWrite, C.Fails, RpcChannel.Timed, Timers.Timer.Valid, WithId, F.Fits, C.Pending;
      ghost var v := client.View();
      QueueFits();
      WriteFacts(v, answers);
      client.OnWrite(answers);
    }

    /** The callback of the request: the reply is waited for from now on. */
    method Await()
      requires Shape() && Valid() && link == R.Connected && !View().unsent
      modifies client`readCb, client.eventLoop, client.fdEvent
      ensures Shape() && Valid() && View() == old(View()).(waiting := true)
      ensures client.View() == Awaiting(old(client.View()), ReplyId())
    {
      hide R.Text, H.Count, C.ClientConnection.Valid, Timers.Timer.Valid, RpcChannel.Timed, WithId, F.Fits;
      assert client.readCb[ReplyId() := REPLY] == map[ReplyId() := REPLY];
      client.ReadMessage(ReplyId(), REPLY);
      assert ReplyId() in client.readCb;
      TimerStays(timer);
    }

    /** The input that the connection executes on can be decoded. */
    ghost predicate CanRead(answers: seq<ReadAnswer>)
      requires client.inBuffer.Valid() && client.outBuffer.Valid()
      reads client, client.inBuffer, client.inBuffer.buffer, client.outBuffer, client.outBuffer.buffer
    {
      C.CanTask(client.View(), C.Readable(answers))
    }

    /** The replies that a read gives. */
    ghost function Replies(answers: seq<ReadAnswer>): seq<F.Message>
      requires client.inBuffer.Valid() && client.outBuffer.Valid() && CanRead(answers)
      reads client, client.inBuffer, client.inBuffer.buffer, client.outBuffer, client.outBuffer.buffer
    {
      C.Heard(client.View(), answers)
    }

    /**
     The connection is readable: of the replies decoded the first to the request completes the call, unless the call
     has been cancelled.
     */
    method OnRead(answers: seq<ReadAnswer>)
      requires Shape() && Valid() && link == R.Connected && CanRead(answers)
      modifies this`response, this`done, this`history, controller, timer`state, timerEvent
      modifies client, client.eventLoop, client.fdEvent, client.inBuffer, client.inBuffer.buffer
      ensures Shape() && client.inBuffer.buffer == old(client.inBuffer.buffer)
      ensures KeepsTimer(old(timer.state), timer.state) && timerEvent.arriveTime == old(timerEvent.arriveTime)
      ensures client.View() == C.AfterRead(old(client.View()), answers)
      ensures View() == R.Do(old(View()), R.OnRead(RepliesOf(parses, old(Replies(answers)))))
      ensures Valid()
    {
      hide Valid, View, CanRead, Replies, R.ReadAll, C.ClientConnection.View, TcpBuffer.Valid, C.AfterRead, C.Deliver;
      hide RepliesOf;
      ghost var v, ms := View(), Replies(answers);
      var calls := Hear(answers);
      Conclude(calls, v, ms);
    }

    /** Runs the callback of the reply, if the connection has called it. */
    method Conclude(calls: seq<C.Call>, ghost v: R.State, ghost ms: seq<F.Message>)
      requires Shape() && Valid() && calls == C.Deliver(WaitingFor(v.call.msgId, v.waiting), ms).calls
      requires View() == v.(waiting := v.waiting && calls == [])
      modifies this`response, this`done, this`history, controller, timer`state, timerEvent
      modifies client`closed, client.eventLoop, client.fdEvent`events
      ensures Shape() && Valid() && View() == R.ReadAll(v, RepliesOf(parses, ms)) && client.View() == old(client.View())
      ensures KeepsTimer(old(timer.state), timer.state) && timerEvent.arriveTime == old(timerEvent.arriveTime)
    {
      DeliverIsRead(parses, v, ms);
      assert controller.isCanceled == View().controller.canceled;
      hide Valid, R.ReadAll, R.Complete, C.Deliver;
      if calls != [] && !controller.isCanceled {
        Receive(calls[0].message);
      }
    }

    /** Reading, up to the callback of the reply. */
    method Hear(answers: seq<ReadAnswer>) returns (calls: seq<C.Call>)
      requires Shape() && Valid() && link == R.Connected && CanRead(answers)
      modifies client`state, client`calls, client`readCb
      modifies client.eventLoop, client.fdEvent`events, client.inBuffer, client.inBuffer.buffer
      ensures Shape() && Valid() && client.inBuffer.buffer == old(client.inBuffer.buffer)
      ensures client.View() == C.AfterRead(old(client.View()), answers)
      ensures calls == C.Deliver(WaitingFor(old(View()).call.msgId, old(View()).waiting), old(Replies(answers))).calls
      ensures View() == old(View()).(waiting := old(View()).waiting && calls == [])
    {
      hide R.Text, H.Count, C.AfterRead, RpcChannel.Timed, Timers.Timer.Valid, C.ClientConnection.Valid, WithId, F.Fits;
      hide C.Deliver, C.CanTask, C.Heard, RpcChannel.TimeoutInfo, RpcChannel.ReplyId;
      DeliverIsRead(parses, View(), C.Heard(client.View(), answers));
      calls := Listen(answers);
      TimerStays(timer);
    }

    method Listen(answers: seq<ReadAnswer>) returns (calls: seq<C.Call>)
      requires Shape() && client.Valid() && CanRead(answers)
      modifies client`state, client`calls, client`readCb
      modifies client.eventLoop, client.fdEvent`events, client.inBuffer, client.inBuffer.buffer
      ensures Shape() && client.Valid() && client.inBuffer.buffer == old(client.inBuffer.buffer)
      ensures client.View() == C.AfterRead(old(client.View()), answers)
      ensures calls == C.Deliver(old(client.readCb), old(Replies(answers))).calls
      ensures client.readCb == C.Deliver(old(client.readCb), old(Replies(answers))).waiting
      ensures client.state == old(client.state) || client.state == Closed
    {
      hide C.AfterRead, C.CanTask, C.Deliver, C.Heard;
      var n := |client.calls|;
      C.ReadFacts(client.View(), answers);
      client.OnRead(answers);
      calls := client.calls[n..];
    }

    /**
     The timer expires, for this or for other events, whose tasks make other calls: the timeout runs if it is due and
     has not been dropped.
     */
    method OnTimer(now: int, resetNow: int, clock: nat -> (int, int), tasks: nat -> seq<M.Step<Timers.TimerEvent>>)
      requires Shape() && Valid() && timer.state.mode.Idle? && Others(timer.state, timerEvent, tasks)
      modifies this`done, this`history, controller, timer, timer.state.events.Keys
      modifies client`closed, client.eventLoop, client.fdEvent`events
      ensures Shape() && client.View() == old(client.View())
      ensures KeepsTimer(old(timer.state), timer.state) && timerEvent.arriveTime == old(timerEvent.arriveTime)
      ensures View() == R.Do(old(View()), R.OnTimer(old(timerEvent.arriveTime) <= now))
      ensures Valid()
    {
      hide Valid, Others, R.Complete;
      var fired := Tick(now, resetNow, clock, tasks);
      if fired {
        Expire();
      }
    }

    /** The timer's own part: whether the timeout's task is called. */
    method Tick(now: int, resetNow: int, clock: nat -> (int, int), tasks: nat -> seq<M.Step<Timers.TimerEvent>>)
      returns (fired: bool)
      requires Shape() && Valid() && timer.state.mode.Idle? && Others(timer.state, timerEvent, tasks)
      modifies timer, timer.state.events.Keys
      ensures Shape() && Valid()
      ensures var v, due := old(View()), old(timerEvent.arriveTime) <= now;
              View() == v.(timer := v.timer && !due) && (fired <==> v.timer && due && v.task)
      ensures client.View() == old(client.View())
      ensures KeepsTimer(old(timer.state), timer.state) && timerEvent.arriveTime == old(timerEvent.arriveTime)
    {
      hide C.ClientConnection.Valid, Timers.Timer.Valid, H.Count, R.Text, RpcChannel.Sending, RpcChannel.TimeoutInfo,
           RpcChannel.Timed, Others;
      fired := TimerCalls(now, resetNow, clock, tasks);
      ClientStays(client);
    }

    method TimerCalls(now: int, resetNow: int, clock: nat -> (int, int), tasks: nat -> seq<M.Step<Timers.TimerEvent>>)
      returns (fired: bool)
      requires timerEvent != null && timer.Valid() && Timed()
      requires timer.state.mode.Idle? && Others(timer.state, timerEvent, tasks)
      modifies timer, timer.state.events.Keys
      ensures timer.Valid() && Timed() && timerEvent.hasTask == old(timerEvent.hasTask)
      ensures KeepsTimer(old(timer.state), timer.state) && timerEvent.arriveTime == old(timerEvent.arriveTime)
      ensures var due := old(timerEvent.arriveTime) <= now && old(H.Count(timer.state.bag, timerEvent)) == 1;
              && H.Count(timer.state.bag, timerEvent) == (if due then 0 else old(H.Count(timer.state.bag, timerEvent)))
              && (fired <==> due && timerEvent.hasTask)
    {
      hide H.Count, H.Turns, M.IsRun, M.After, M.Batch, TB.LeftAlone, TB.Chosen, TB.Fired, Timers.Picked, Others;
      ghost var s := timer.state;
      var events, ran;
      ghost var steps;
      OthersLeaveAlone(timer.state, timerEvent, tasks);
      events, ran, steps := timer.OnTimer(now, resetNow, clock, tasks);
      Timers.CallLeavesAlone(M.Scan(now, resetNow), clock, tasks, ran, timerEvent);
      TimeoutInCall(s, steps, now, timerEvent, timer.state, Timers.Picked<Timers.TimerEvent>(events, ran));
      fired := HasRun(events, ran, timerEvent);
    }

    method HasRun(events: seq<Timers.TimerEvent>, ran: seq<bool>, event: Timers.TimerEvent) returns (yes: bool)
      requires |ran| == |events|
      ensures yes <==> multiset(Timers.Picked<Timers.TimerEvent>(events, ran))[event] > 0
    {
      yes := false;
      for i := 0 to |ran|
        invariant yes <==> exists k :: 0 <= k < i && ran[k] && events[k] == event
      {
        yes := yes || (ran[i] && events[i] == event);
      }
      Timers.PickedCount<Timers.TimerEvent>(events, ran, event);
    }

    /** The timer knows the timeout, and the two buffers of the connection are two. */
    lemma Apart()
      requires Valid()
      ensures Shape() && timerEvent in timer.state.events && View().link == link
      ensures client.inBuffer != client.outBuffer && client.inBuffer.buffer != client.outBuffer.buffer
    {
    }

    lemma QueueFits()
      requires client.Valid() && request != null && Sending()
      ensures C.Sound(client.View()) && AllFit(C.Contents(client.courier.Queue()))
      ensures client.writeCb == [] <==> client.courier.Queue() == []
    {
      hide WithId, F.Fits;
      var ms := C.Contents(client.courier.Queue());
      assert forall i :: 0 <= i < |ms| ==> client.Objects()[i] == request;
    }
  }

  /** The connection is made, and the request is queued. */
  function Calling(v: C.Client, request: F.Message): C.Client {
    v.(state := TcpState.Connected, courier := v.courier.(added := v.courier.added + [C.Letter(request, SENT)]))
  }

  function Awaiting(v: C.Client, id: seq<byte>): C.Client {
    v.(waiting := v.waiting[id := REPLY])
  }

  /** A write, and if it hands the request over the reply is waited for. */
  function Posting(s: R.State, v: C.Client, answers: seq<WriteAnswer>): C.Client
    requires v.courier.Valid()
  {
    if s.unsent && Sends(v, answers) then Awaiting(C.AfterWrite(v, answers), s.call.msgId) else C.AfterWrite(v, answers)
  }

  /** The connection is up and the write does not fail hard. */
  predicate Sends(v: C.Client, answers: seq<WriteAnswer>)
    requires v.courier.Valid()
  {
    v.state == TcpState.Connected && !C.Fails(v, answers)
  }

  /** The callbacks that a write runs. */
  lemma WriteFacts(v: C.Client, answers: seq<WriteAnswer>)
    requires v.courier.Valid() && AllFit(C.Contents(v.courier.Queue()))
    ensures var w := C.AfterWrite(v, answers);
            && w.state == v.state && w.waiting == v.waiting
            && w.calls == v.calls + if Sends(v, answers) then C.CallsFor(v.courier.Queue()) else []
  {
    hide AllFit, WriteSeries, C.Pending;
    if C.Pending(v) == [] && v.courier.Queue() != [] {
      C.QueuedIsPending(v);
    }
  }

  /** The timer has met the same events, and is as far as it was with a call. */
  ghost predicate KeepsTimer<E>(s: M.State<E>, t: M.State<E>) {
    t.events.Keys == s.events.Keys && t.mode == s.mode
  }

  /** The calls are about events that the timer has met, other than `e`. */
  ghost predicate Others(s: M.State<Timers.TimerEvent>, e: Timers.TimerEvent,
                         tasks: nat -> seq<M.Step<Timers.TimerEvent>>)
  {
    forall i: nat, k :: 0 <= k < |tasks(i)| ==>
      Timers.IsCall(tasks(i)[k]) && tasks(i)[k].event in s.events && tasks(i)[k].event != e
  }

  lemma OthersLeaveAlone(s: M.State<Timers.TimerEvent>, e: Timers.TimerEvent,
                         tasks: nat -> seq<M.Step<Timers.TimerEvent>>)
    requires Others(s, e, tasks)
    ensures forall i: nat :: TB.LeftAlone(tasks(i), e)
    ensures forall i: nat, k :: 0 <= k < |tasks(i)| ==> Timers.IsCall(tasks(i)[k]) && tasks(i)[k].event in s.events
  {
  }

  lemma RanMore<E>(before: seq<E>, now: seq<E>, e: E)
    ensures multiset(before + now)[e] == multiset(before)[e] + multiset(now)[e]
  {
  }

  /** What a call of `onTimer` makes of a timeout that nobody else touches. */
  lemma TimeoutInCall(s: M.State<Timers.TimerEvent>, steps: seq<M.Step<Timers.TimerEvent>>, now: int,
                      e: Timers.TimerEvent, t: M.State<Timers.TimerEvent>, ran: seq<Timers.TimerEvent>)
    requires s.mode.Idle? && M.IsRun(s, steps) && TB.OneCall(steps) && steps[0].now == now && TB.LeftAlone(steps, e)
    requires t == M.After(s, steps) && t.mode.Idle? && t.ran == s.ran + ran
    requires H.Keyed(s, e) && !s.events[e].repeats && (s.events[e].canceled ==> !s.events[e].task)
    requires H.Count(s.bag, e) <= 1
    ensures var due := H.Count(s.bag, e) == 1 && s.events[e].arrive <= now;
            && H.Keyed(t, e) && t.events[e] == s.events[e] && H.Turns(t.mode, e) == 0
            && H.Count(t.bag, e) == (if due then 0 else H.Count(s.bag, e))
            && (multiset(ran)[e] > 0 <==> due && s.events[e].task)
  {
    hide M.IsRun, M.After, H.Count;
    RanMore(s.ran, ran, e);
    assert H.Waiting(s.mode, e) == 0;
    TB.OneShotInCall(s, steps, e);
    TB.KeyedInCall(s, steps, e);
  }

  lemma SamePending<E>(a: seq<Entry<E>>, b: seq<Entry<E>>, e: E)
    requires multiset(a) == multiset(b)
    ensures (exists i :: 0 <= i < |a| && a[i].event == e) <==> (exists i :: 0 <= i < |b| && b[i].event == e)
  {
    assert forall x :: x in a <==> x in multiset(a);
    assert forall x :: x in b <==> x in multiset(b);
    if i :| 0 <= i < |a| && a[i].event == e {
      assert a[i] in b;
    }
    if i :| 0 <= i < |b| && b[i].event == e {
      assert b[i] in a;
    }
  }

  lemma SameInfo(a: F.Message, b: F.Message)
    requires WithId(a) == WithId(b)
    ensures a.methodName == b.methodName
  {
  }

  /** An event the timer has not met is neither pending nor in a batch. */
  lemma NotMet(timer: Timers.Timer, e: Timers.TimerEvent)
    requires timer.Valid() && e !in timer.state.events
    ensures H.Count(timer.state.bag, e) == 0 && H.Turns(timer.state.mode, e) == 0
  {
    hide H.Count;
    var s := timer.state;
    H.CountMember(s.bag, e);
    if !s.mode.Idle? {
      assert forall i :: 0 <= i < |s.mode.batch| ==> s.mode.batch[i] != e;
    }
  }
}
