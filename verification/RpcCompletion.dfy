/**
 How one remote call completes: the connection is reported, the request is sent, replies arrive and the timer fires,
 in whatever order the event loop runs these tasks. A completion runs `done`.
 */
module RpcCompletion {
  import opened Bytes
  import opened Frames

  const OK := 0
  const SYS_PEER_CLOSED := 10000000
  const SYS_FAILED_CONNECT := 10000001
  const SYS_FAILED_DESERIALIZE := 10000003
  const SYS_FAILED_SERIALIZE := 10000004
  const SYS_RPC_CALL_TIMEOUT := 10000007
  const SYS_CHANNEL_NOT_INIT := 10000011

  /** A text as bytes, one for each character. */
  function Text(s: string): (t: seq<byte>)
    ensures |t| == |s| && forall i :: 0 <= i < |s| && s[i] as int < 256 ==> t[i] as int == s[i] as int
  {
    seq(|s|, i requires 0 <= i < |s| => (s[i] as int % 256) as byte)
  }

  datatype Controller = Controller(errorCode: int, errorInfo: seq<byte>, failed: bool, canceled: bool) {
    function SetError(code: int, info: seq<byte>): Controller {
      this.(errorCode := code, errorInfo := info, failed := true)
    }
  }

  /** The response message: as given, parsed from bytes, or left by a parse that failed. */
  datatype Body = Fresh | Accepted(data: seq<byte>) | Garbled(data: seq<byte>)

  /** A message read; `parses` says whether the response message accepts its data. */
  datatype Reply = Reply(message: Message, parses: bool)

  datatype Completion = Replied(reply: Reply) | TimedOut | NotConnected(code: int, info: seq<byte>)

  datatype Link = Connecting | Connected | Broken

  /** What the call is about, which does not change. */
  datatype Call = Call(msgId: seq<byte>, timeoutInfo: seq<byte>, hasDone: bool)

  /**
   `timer` says that the timeout event has not yet expired, `task` that its task is still there, `unsent` that the
   request is queued, `waiting` that the callback for the reply is registered; `closed` that the client has stopped
   its loop and closed its fd; `history` lists the completions.
   */
  datatype State = State(call: Call, controller: Controller, body: Body, timer: bool, task: bool, link: Link,
                         unsent: bool, waiting: bool, closed: bool, done: nat, history: seq<Completion>)

  /** What the loop runs; a connection can be reported to have failed before the loop runs, as `looping` says. */
  datatype Step =
    | Report(code: int, info: seq<byte>, looping: bool)
    | OnWrite(sent: bool)
    | OnRead(replies: seq<Reply>)
    | OnTimer(due: bool)

  // ---- The steps ----

  /** What a completion makes of the controller and the response. */
  function Settle(call: Call, c: Controller, body: Body, how: Completion): (Controller, Body) {
    match how
    case NotConnected(code, info) => (c.SetError(code, info), body)
    case TimedOut => (c.(canceled := true).SetError(SYS_RPC_CALL_TIMEOUT, call.timeoutInfo), body)
    case Replied(r) =>
      if r.message.errCode != OK then (c.SetError(r.message.errCode, r.message.errInfo), body)
      else if r.parses then (c, Accepted(r.message.pbData))
      else (c.SetError(SYS_FAILED_DESERIALIZE, Text("Deserialize response failed")), Garbled(r.message.pbData))
  }

  /** Each completion runs `done` and closes the client, which does nothing unless the loop is running. */
  function Complete(s: State, how: Completion, looping: bool): State {
    var (c, b) := Settle(s.call, s.controller, s.body, how);
    s.(controller := c, body := b, closed := s.closed || looping, done := s.done + if s.call.hasDone then 1 else 0,
       history := s.history + [how])
  }

  /** One message read: the callback registered for its id is run and forgotten. */
  function ReadOne(s: State, r: Reply): State {
    if !s.waiting || r.message.msgId != s.call.msgId then s
    else if s.controller.canceled then s.(waiting := false)
    else Complete(s.(waiting := false, task := false), Replied(r), true)
  }

  function ReadAll(s: State, replies: seq<Reply>): State {
    if replies == [] then s else ReadOne(ReadAll(s, replies[..|replies| - 1]), replies[|replies| - 1])
  }

  predicate Can(s: State, step: Step) {
    match step
    case Report(_, _, _) => s.link == Connecting
    case OnWrite(_) => s.link == Connected
    case OnRead(_) => s.link == Connected
    case OnTimer(_) => true
  }

  function Do(s: State, step: Step): State
    requires Can(s, step)
  {
    match step
    case Report(code, info, looping) =>
      if code != OK then Complete(s.(link := Broken), NotConnected(code, info), looping)
      else s.(link := Connected, unsent := true)
    case OnWrite(sent) => if sent && s.unsent then s.(unsent := false, waiting := true) else s
    case OnRead(replies) => ReadAll(s, replies)
    case OnTimer(due) =>
      if !due || !s.timer then s
      else if s.task then Complete(s.(timer := false), TimedOut, true)
      else s.(timer := false)
  }

  predicate IsRun(s: State, steps: seq<Step>)
    decreases |steps|, 0
  {
    steps == [] ||
    (IsRun(s, steps[..|steps| - 1]) && Can(After(s, steps[..|steps| - 1]), steps[|steps| - 1]))
  }

  function After(s: State, steps: seq<Step>): State
    requires IsRun(s, steps)
    decreases |steps|, 1
  {
    if steps == [] then s else Do(After(s, steps[..|steps| - 1]), steps[|steps| - 1])
  }

  lemma RunSnoc(s: State, steps: seq<Step>, step: Step)
    ensures IsRun(s, steps + [step]) <==> IsRun(s, steps) && Can(After(s, steps), step)
    ensures IsRun(s, steps + [step]) ==> After(s, steps + [step]) == Do(After(s, steps), step)
  {
    hide Can, Do;
    assert (steps + [step])[..|steps + [step]| - 1] == steps;
  }

  /** A call whose timeout has just been set and whose connection is being made. */
  predicate Started(s: State) {
    && !s.controller.canceled && s.timer && s.task && s.link == Connecting && !s.unsent && !s.waiting
    && !s.closed && s.done == 0 && s.history == []
  }

  // ---- Who comes first, told from the steps alone ----

  datatype Winner = Nobody | First(how: Completion)

  function FirstReply(id: seq<byte>, replies: seq<Reply>): Winner {
    if replies == [] then Nobody
    else
      var w := FirstReply(id, replies[..|replies| - 1]);
      var r := replies[|replies| - 1];
      if w == Nobody && r.message.msgId == id then First(Replied(r)) else w
  }

  predicate Sent(steps: seq<Step>) {
    OnWrite(true) in steps
  }

  /** The first of: the timer expiring, and a reply to the request being read after the request was sent. */
  function WinnerOf(id: seq<byte>, steps: seq<Step>): Winner {
    if steps == [] then Nobody
    else
      var init, last := steps[..|steps| - 1], steps[|steps| - 1];
      var w := WinnerOf(id, init);
      if w != Nobody then w
      else if last == OnTimer(true) then First(TimedOut)
      else if last.OnRead? && Sent(init) then FirstReply(id, last.replies)
      else Nobody
  }

  predicate Fails(step: Step) {
    step.Report? && step.code != OK
  }

  predicate ConnectFails(steps: seq<Step>) {
    exists i :: 0 <= i < |steps| && Fails(steps[i])
  }

  predicate TimerExpires(steps: seq<Step>) {
    OnTimer(true) in steps
  }

  // ---- A connection that does not fail ----

  /** What a completion has made of the controller and the response, value by value. */
  predicate Outcome(call: Call, c: Controller, body: Body, how: Completion, c': Controller, body': Body) {
    match how
    case TimedOut => c' == Controller.Controller(10000007, call.timeoutInfo, true, true) && body' == body
    case NotConnected(code, info) => c' == Controller.Controller(code, info, true, c.canceled) && body' == body
    case Replied(r) =>
      if r.message.errCode != 0 then
        c' == Controller.Controller(r.message.errCode, r.message.errInfo, true, c.canceled) && body' == body
      else if r.parses then c' == c && body' == Accepted(r.message.pbData)
      else
        && c' == Controller.Controller(10000003, Text("Deserialize response failed"), true, c.canceled)
        && body' == Garbled(r.message.pbData)
  }

  /** The state that a winner leaves: the result is what it made of the controller and the response at the start. */
  ghost predicate Decided(s: State, t: State, w: Winner) {
    && t.call == s.call
    && t.done == (if s.call.hasDone && w != Nobody then 1 else 0)
    && match w
       case Nobody =>
         t.history == [] && t.controller == s.controller && t.body == s.body && t.timer && t.task && !t.closed
       case First(how) =>
         && t.history == [how] && t.closed && Outcome(s.call, s.controller, s.body, how, t.controller, t.body)
         && match how
            case TimedOut => t.controller.canceled && !t.timer
            case Replied(_) => !t.task && !t.waiting && !t.unsent && t.link == Connected
            case NotConnected(_, _) => false
  }

  /** What is registered, told from the steps. */
  ghost predicate Registered(t: State, steps: seq<Step>, w: Winner) {
    && t.link != Broken && (t.link == Connecting ==> !Sent(steps))
    && (t.unsent ==> t.link == Connected && !Sent(steps))
    && (t.waiting ==> t.link == Connected && Sent(steps))
    && (w == Nobody && t.link == Connected ==> (t.waiting <==> Sent(steps)) && (t.unsent <==> !Sent(steps)))
  }

  /** A reading of messages when nobody has won yet: the first reply to the request wins, if there is one. */
  lemma {:induction false} ReadDecides(s: State, t: State, replies: seq<Reply>)
    requires Decided(s, t, Nobody) && t.waiting && !t.unsent && t.link == Connected && !s.controller.canceled
    ensures var w := FirstReply(s.call.msgId, replies);
            && Decided(s, ReadAll(t, replies), w) && ReadAll(t, replies).link == t.link
            && !ReadAll(t, replies).unsent && (w == Nobody ==> ReadAll(t, replies).waiting)
  {
    if replies != [] {
      ReadDecides(s, t, replies[..|replies| - 1]);
    }
  }

  /** Reading when nothing is registered, or the call is cancelled, completes nothing. */
  lemma {:induction false} ReadIdle(t: State, replies: seq<Reply>)
    requires !t.waiting || t.controller.canceled
    ensures ReadAll(t, replies) == t.(waiting := ReadAll(t, replies).waiting)
    ensures !t.waiting ==> !ReadAll(t, replies).waiting
  {
    if replies != [] {
      ReadIdle(t, replies[..|replies| - 1]);
    }
  }

  lemma SentSnoc(steps: seq<Step>, step: Step)
    ensures Sent(steps + [step]) <==> Sent(steps) || step == OnWrite(true)
  {
  }

  lemma WinnerSnoc(id: seq<byte>, steps: seq<Step>, step: Step)
    ensures WinnerOf(id, steps + [step])
         == if WinnerOf(id, steps) != Nobody then WinnerOf(id, steps)
            else if step == OnTimer(true) then First(TimedOut)
            else if step.OnRead? && Sent(steps) then FirstReply(id, step.replies)
            else Nobody
  {
    assert (steps + [step])[..|steps + [step]| - 1] == steps;
  }

  lemma StepDecided(s: State, t: State, steps: seq<Step>, step: Step)
    requires !s.controller.canceled && Can(t, step) && !Fails(step)
    requires Decided(s, t, WinnerOf(s.call.msgId, steps)) && Registered(t, steps, WinnerOf(s.call.msgId, steps))
    ensures var w := WinnerOf(s.call.msgId, steps + [step]);
            Decided(s, Do(t, step), w) && Registered(Do(t, step), steps + [step], w)
  {
    hide Sent, WinnerOf;
    var w := WinnerOf(s.call.msgId, steps);
    SentSnoc(steps, step);
    WinnerSnoc(s.call.msgId, steps, step);
    if step.OnRead? {
      if w == Nobody && t.waiting {
        ReadDecides(s, t, step.replies);
      } else {
        ReadIdle(t, step.replies);
      }
    }
  }

  /**
   In every interleaving in which the connection is not reported to have failed, `done` has run once if the timer has
   expired or a reply has been read, and not otherwise; whichever came first has fixed the controller and the response,
   and the client has been closed.
   */
  lemma {:induction false} FirstDecides(s: State, steps: seq<Step>)
    requires Started(s) && IsRun(s, steps) && !ConnectFails(steps)
    ensures Decided(s, After(s, steps), WinnerOf(s.call.msgId, steps))
    ensures Registered(After(s, steps), steps, WinnerOf(s.call.msgId, steps))
  {
    hide Can, Do, Decided, Registered, Fails;
    if steps == [] {
      NothingDecided(s);
    } else {
      var init, last := steps[..|steps| - 1], steps[|steps| - 1];
      assert steps == init + [last];
      assert !Fails(last) by {
        assert last == steps[|steps| - 1];
      }
      assert !ConnectFails(init) by {
        assert forall i :: 0 <= i < |init| ==> init[i] == steps[i];
      }
      FirstDecides(s, init);
      StepDecided(s, After(s, init), init, last);
    }
  }

  lemma NothingDecided(s: State)
    requires Started(s)
    ensures Decided(s, s, WinnerOf(s.call.msgId, [])) && Registered(s, [], WinnerOf(s.call.msgId, []))
  {
  }

  /** A winner stays the winner. */
  lemma {:induction false} WinnerStays(id: seq<byte>, steps: seq<Step>, more: seq<Step>)
    requires WinnerOf(id, steps) != Nobody
    ensures WinnerOf(id, steps + more) == WinnerOf(id, steps)
  {
    if more == [] {
      assert steps + more == steps;
    } else {
      assert steps + more == (steps + more[..|more| - 1]) + [more[|more| - 1]];
      WinnerStays(id, steps, more[..|more| - 1]);
      WinnerSnoc(id, steps + more[..|more| - 1], more[|more| - 1]);
    }
  }

  /** So once the call has completed, the cancelled flag, the error and the response are fixed for good. */
  lemma CompletedForGood(s: State, steps: seq<Step>, more: seq<Step>)
    requires Started(s) && IsRun(s, steps) && IsRun(s, steps + more) && !ConnectFails(steps + more)
    requires After(s, steps).history != []
    ensures After(s, steps + more).controller == After(s, steps).controller
    ensures After(s, steps + more).body == After(s, steps).body
    ensures After(s, steps + more).done == After(s, steps).done
    ensures After(s, steps + more).history == After(s, steps).history && After(s, steps + more).closed
  {
    hide Can, Do, Fails, WinnerOf, IsRun, After;
    assert !ConnectFails(steps) by {
      assert forall i :: 0 <= i < |steps| ==> steps[i] == (steps + more)[i];
    }
    FirstDecides(s, steps);
    FirstDecides(s, steps + more);
    WinnerStays(s.call.msgId, steps, more);
  }

  // ---- A connection that fails ----

  /** With the connection reported to have failed nothing is sent and nothing read. */
  ghost predicate Tally(t: State, steps: seq<Step>) {
    && (t.link == Broken <==> ConnectFails(steps))
    && (t.link != Connected ==> !t.unsent && !t.waiting && t.task)
    && (t.timer <==> !TimerExpires(steps))
    && (t.link == Broken ==> |t.history| == (if TimerExpires(steps) then 2 else 1))
    && t.done == (if t.call.hasDone then |t.history| else 0)
    && (t.link == Connecting ==> |t.history| == (if TimerExpires(steps) then 1 else 0))
  }

  lemma {:induction false} ReadTally(t: State, replies: seq<Reply>)
    requires t.done == if t.call.hasDone then |t.history| else 0
    ensures var u := ReadAll(t, replies);
            u.link == t.link && u.timer == t.timer && u.call == t.call && u.done == if u.call.hasDone then |u.history| else 0
  {
    if replies != [] {
      ReadTally(t, replies[..|replies| - 1]);
    }
  }

  lemma StepTally(t: State, steps: seq<Step>, step: Step)
    requires Can(t, step) && Tally(t, steps)
    ensures Tally(Do(t, step), steps + [step])
  {
    assert ConnectFails(steps + [step]) <==> ConnectFails(steps) || Fails(step) by {
      assert (steps + [step])[|steps|] == step;
      assert forall i :: 0 <= i < |steps| ==> (steps + [step])[i] == steps[i];
    }
    assert TimerExpires(steps + [step]) <==> TimerExpires(steps) || step == OnTimer(true);
    hide ConnectFails, TimerExpires;
    if step.OnRead? {
      ReadTally(t, step.replies);
    }
  }

  lemma {:induction false} AlwaysTally(s: State, steps: seq<Step>)
    requires Started(s) && IsRun(s, steps)
    ensures Tally(After(s, steps), steps) && After(s, steps).call == s.call
  {
    hide Can, Do, Tally;
    if steps == [] {
      StartTally(s);
    } else {
      var init, last := steps[..|steps| - 1], steps[|steps| - 1];
      assert steps == init + [last];
      AlwaysTally(s, init);
      StepTally(After(s, init), init, last);
      StepCall(After(s, init), last);
    }
  }

  lemma StartTally(s: State)
    requires Started(s)
    ensures Tally(s, [])
  {
  }

  lemma StepCall(t: State, step: Step)
    requires Can(t, step)
    ensures Do(t, step).call == t.call
  {
    if step.OnRead? {
      ReadCall(t, step.replies);
    }
  }

  lemma {:induction false} ReadCall(t: State, replies: seq<Reply>)
    ensures ReadAll(t, replies).call == t.call
  {
    if replies != [] {
      ReadCall(t, replies[..|replies| - 1]);
    }
  }

  /**
   Over every run the call completes at most once unless the connection fails and the timer expires as well, in
   either order: the callback for the failure neither cancels the timer nor asks whether the call is cancelled.
   */
  lemma CompletesTwiceExactlyWhen(s: State, steps: seq<Step>)
    requires Started(s) && IsRun(s, steps)
    ensures |After(s, steps).history| > 1 <==> ConnectFails(steps) && TimerExpires(steps)
    ensures |After(s, steps).history| <= 2
    ensures s.call.hasDone ==> After(s, steps).done == |After(s, steps).history|
  {
    hide Can, Do, IsRun, After, TimerExpires;
    AlwaysTally(s, steps);
    if !ConnectFails(steps) {
      FirstDecides(s, steps);
    }
  }

  /** What a call has come to whose connection is being made or has failed. */
  ghost predicate FailedSo(s: State, t: State) {
    var late := Controller.Controller(10000007, s.call.timeoutInfo, true, true);
    && t.call == s.call && t.body == s.body && t.task
    && (t.timer <==> TimedOut !in t.history)
    && match t.link
       case Connected => false
       case Connecting =>
         (t.history == [] && t.controller == s.controller) || (t.history == [TimedOut] && t.controller == late)
       case Broken =>
         exists code, info {:trigger NotConnected(code, info)} ::
           && code != 0
           && ((t.history == [NotConnected(code, info)]
                && t.controller == Controller.Controller(code, info, true, s.controller.canceled))
            || (t.history == [NotConnected(code, info), TimedOut] && t.controller == late)
            || (t.history == [TimedOut, NotConnected(code, info)]
                && t.controller == Controller.Controller(code, info, true, true)))
  }

  lemma StepFailedSo(s: State, t: State, step: Step)
    requires Can(t, step) && FailedSo(s, t) && Do(t, step).link != Connected
    ensures FailedSo(s, Do(t, step))
  {
    hide FailedSo;
    NotConnectedYet(s, t);
    if step.Report? {
      ReportFailedSo(s, t, step);
    } else if step == OnTimer(true) && t.timer {
      TimerFailedSo(s, t);
    }
  }

  lemma NotConnectedYet(s: State, t: State)
    requires FailedSo(s, t)
    ensures t.link != Connected && t.task
  {
  }

  lemma ReportFailedSo(s: State, t: State, step: Step)
    requires step.Report? && step.code != OK && t.link == Connecting && FailedSo(s, t)
    ensures FailedSo(s, Do(t, step))
  {
    var failure := [NotConnected(step.code, step.info)];
    assert [] + failure == failure && [TimedOut] + failure == [TimedOut, NotConnected(step.code, step.info)];
  }

  lemma TimerFailedSo(s: State, t: State)
    requires t.timer && FailedSo(s, t)
    ensures FailedSo(s, Do(t, OnTimer(true)))
  {
    if t.link == Broken {
      var code, info :| code != 0 && (t.history == [NotConnected(code, info)] ||
                                      t.history == [NotConnected(code, info), TimedOut] ||
                                      t.history == [TimedOut, NotConnected(code, info)]);
      assert TimedOut !in t.history;
      assert t.history == [NotConnected(code, info)] by {
        assert [NotConnected(code, info), TimedOut][1] == TimedOut && [TimedOut, NotConnected(code, info)][0] == TimedOut;
      }
      assert [NotConnected(code, info)] + [TimedOut] == [NotConnected(code, info), TimedOut];
    } else {
      assert t.history == [] by {
        assert [TimedOut][0] == TimedOut;
      }
    }
  }

  /**
   Over every run in which the connection is not reported to be made, the code and the text of the error are those of
   the last completion, the call is cancelled once the timeout has been one, and the response is as it was.
   */
  lemma {:induction false} LastFailureTold(s: State, steps: seq<Step>)
    requires Started(s) && IsRun(s, steps) && After(s, steps).link != Connected
    ensures FailedSo(s, After(s, steps))
  {
    hide Can, Do, FailedSo;
    if steps == [] {
      StartFailedSo(s);
    } else {
      var init := steps[..|steps| - 1];
      StaysConnected(After(s, init), steps[|steps| - 1]);
      LastFailureTold(s, init);
      StepFailedSo(s, After(s, init), steps[|steps| - 1]);
    }
  }

  lemma StartFailedSo(s: State)
    requires Started(s)
    ensures FailedSo(s, s)
  {
  }

  lemma StaysConnected(t: State, step: Step)
    requires Can(t, step) && Do(t, step).link != Connected
    ensures t.link != Connected
  {
    if step.OnRead? && t.link == Connected {
      ReadLink(t, step.replies);
    }
  }

  lemma {:induction false} ReadLink(t: State, replies: seq<Reply>)
    ensures ReadAll(t, replies).link == t.link
  {
    if replies != [] {
      ReadLink(t, replies[..|replies| - 1]);
    }
  }

  lemma StartOf(s: State)
    ensures IsRun(s, []) && After(s, []) == s
  {
  }

  /** The run that shows it: `done` runs for the failure, and again for the timeout. */
  lemma FailureThenTimeout(s: State)
    requires Started(s) && s.call.hasDone
    ensures var steps := [Report(SYS_PEER_CLOSED, Text("Connection refused"), true), OnTimer(true)];
            IsRun(s, steps) && After(s, steps).done == 2 && After(s, steps).controller.errorCode == SYS_RPC_CALL_TIMEOUT
  {
    var fail := Report(SYS_PEER_CLOSED, Text("Connection refused"), true);
    hide IsRun, After;
    StartOf(s);
    assert [fail, OnTimer(true)] == [fail] + [OnTimer(true)] && [] + [fail] == [fail];
    RunSnoc(s, [], fail);
    RunSnoc(s, [fail], OnTimer(true));
  }
}
