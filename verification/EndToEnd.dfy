/** A client and a server joined by two byte streams: every call is answered by what was dispatched for it. */
module EndToEnd {
  import opened Bytes
  import opened Frames
  import opened Coding
  import opened RoundTrips
  import opened Sockets
  import C = Clients
  import S = Connections
  import Streams
  import T = Transducer

  // ---- What a client has heard in a run ----

  /** The messages that a task decodes. */
  function HeardBy(w: C.Client, task: C.ClientTask): seq<Message>
    requires C.CanTask(w, task)
  {
    match task
    case Readable(answers) => C.Heard(w, answers)
    case _ => []
  }

  /** The bytes that it adds to the input. */
  function AdmittedBy(w: C.Client, task: C.ClientTask): seq<byte>
    requires C.CanTask(w, task)
  {
    match task
    case Readable(answers) => C.Admitted(w, answers)
    case _ => []
  }

  /** All bytes that the reads of a run have added to the input. */
  function AdmittedIn(v: C.Client, tasks: seq<C.ClientTask>): seq<byte>
    requires C.CanTasks(v, tasks)
  {
    if tasks == [] then []
    else
      var n := |tasks| - 1;
      AdmittedIn(v, tasks[..n]) + AdmittedBy(C.AfterTasks(v, tasks[..n]), tasks[n])
  }

  /** All messages that they have decoded. */
  function RepliesIn(v: C.Client, tasks: seq<C.ClientTask>): seq<Message>
    requires C.CanTasks(v, tasks)
  {
    if tasks == [] then []
    else
      var n := |tasks| - 1;
      RepliesIn(v, tasks[..n]) + HeardBy(C.AfterTasks(v, tasks[..n]), tasks[n])
  }

  /** All callbacks that they have run. */
  function ReadCalls(v: C.Client, tasks: seq<C.ClientTask>): seq<C.Call>
    requires C.CanTasks(v, tasks)
  {
    if tasks == [] then []
    else
      var n := |tasks| - 1;
      var w := C.AfterTasks(v, tasks[..n]);
      var after := C.AfterTask(w, tasks[n]);
      ReadCalls(v, tasks[..n]) +
      if tasks[n].Readable? && |w.calls| <= |after.calls| then after.calls[|w.calls|..] else []
  }

  /** Over every run, however the stream is cut, the replies are those in all bytes that have come. */
  lemma {:induction false} RunHears(size: nat, tasks: seq<C.ClientTask>)
    requires C.CanTasks(C.Made(size), tasks)
    ensures Streams.InDomain(AdmittedIn(C.Made(size), tasks))
    ensures Streams.Decode(AdmittedIn(C.Made(size), tasks))
         == Streams.Decoded(RepliesIn(C.Made(size), tasks), C.AfterTasks(C.Made(size), tasks).inRest)
  {
    hide C.CanTask, C.AfterTask, C.Admitted, C.Heard, Streams.InDomain, Streams.Decode;
    if tasks == [] {
      S.EmptyInput();
    } else {
      var n := |tasks| - 1;
      RunHears(size, tasks[..n]);
      TaskHears(C.AfterTasks(C.Made(size), tasks[..n]), tasks[n], AdmittedIn(C.Made(size), tasks[..n]));
    }
  }

  lemma TaskHears(w: C.Client, task: C.ClientTask, before: seq<byte>)
    requires C.CanTask(w, task) && Streams.InDomain(before) && w.inRest == Streams.Decode(before).rest
    ensures Streams.InDomain(before + AdmittedBy(w, task))
    ensures Streams.Decode(before + AdmittedBy(w, task))
         == Streams.Decoded(Streams.Decode(before).messages + HeardBy(w, task), C.AfterTask(w, task).inRest)
  {
    hide C.CanTask, C.AfterRead, C.AfterWrite, C.Admitted, Streams.InDomain, Streams.Decode;
    assert before + [] == before;
    match task
    case Readable(answers) =>
      C.ReadFacts(w, answers);
      if C.Executes(w, answers) {
        Streams.DecodeAppend(before, C.Admitted(w, answers));
      }
    case Writable(answers) => WriteKeepsInput(w, answers);
    case _ => OtherKeepsInput(w, task);
  }

  lemma WriteKeepsInput(w: C.Client, answers: seq<WriteAnswer>)
    requires C.CanTask(w, C.Writable(answers))
    ensures C.AfterTask(w, C.Writable(answers)).inRest == w.inRest
  {
  }

  lemma OtherKeepsInput(w: C.Client, task: C.ClientTask)
    requires C.CanTask(w, task) && (task.Send? || task.Await?)
    ensures C.AfterTask(w, task).inRest == w.inRest
  {
  }

  // ---- Which callbacks a client has run ----

  /** The callbacks registered in a run, whether they have run or not. */
  function Registered(tasks: seq<C.ClientTask>): map<seq<byte>, nat> {
    if tasks == [] then map[]
    else
      var before := Registered(tasks[..|tasks| - 1]);
      match tasks[|tasks| - 1]
      case Await(id, callback) => before[id := callback]
      case _ => before
  }

  /** No id is registered twice. */
  predicate RegisteredOnce(tasks: seq<C.ClientTask>) {
    tasks == [] ||
    (RegisteredOnce(tasks[..|tasks| - 1]) &&
     (tasks[|tasks| - 1].Await? ==> tasks[|tasks| - 1].id !in Registered(tasks[..|tasks| - 1])))
  }

  /** Each reply finds its id registered when it is decoded. */
  predicate InTime(v: C.Client, tasks: seq<C.ClientTask>)
    requires C.CanTasks(v, tasks)
  {
    tasks == [] ||
    var n := |tasks| - 1;
    var w := C.AfterTasks(v, tasks[..n]);
    InTime(v, tasks[..n]) &&
    forall m :: m in HeardBy(w, tasks[n]) ==> m.msgId in Registered(tasks[..n])
  }

  /** What a task has to do with the replies: those it decodes and the callbacks it registers and runs. */
  lemma TaskCalls(w: C.Client, task: C.ClientTask)
    requires C.CanTask(w, task)
    ensures var heard := HeardBy(w, task);
            var d, after := C.Deliver(w.waiting, heard), C.AfterTask(w, task);
            && after.waiting == (if task.Await? then w.waiting[task.id := task.callback] else d.waiting)
            && |w.calls| <= |after.calls|
            && (task.Readable? ==> after.calls[|w.calls|..] == d.calls)
            && (!task.Readable? ==> heard == [] && d.calls == [])
  {
    hide C.CanTask, C.AfterRead, C.Heard;
    if task.Readable? {
      C.ReadFacts(w, task.fromRead);
    }
  }

  /** A callback whose reply has not come is waiting as it was registered last. */
  lemma {:induction false} WaitingAsRegistered(size: nat, tasks: seq<C.ClientTask>, id: seq<byte>)
    requires C.CanTasks(C.Made(size), tasks) && !C.Mentions(RepliesIn(C.Made(size), tasks), id)
    ensures var waiting := C.AfterTasks(C.Made(size), tasks).waiting;
            && (id in waiting <==> id in Registered(tasks))
            && (id in waiting ==> waiting[id] == Registered(tasks)[id])
  {
    hide C.CanTask, C.AfterTask, C.Heard, C.Deliver;
    if tasks != [] {
      var n, v := |tasks| - 1, C.Made(size);
      var w := C.AfterTasks(v, tasks[..n]);
      var heard := HeardBy(w, tasks[n]);
      MentionsEither(RepliesIn(v, tasks[..n]), heard, id);
      WaitingAsRegistered(size, tasks[..n], id);
      TaskCalls(w, tasks[n]);
      C.StillWaiting(w.waiting, heard);
    }
  }

  lemma MentionsEither(a: seq<Message>, b: seq<Message>, id: seq<byte>)
    ensures C.Mentions(a + b, id) <==> C.Mentions(a, id) || C.Mentions(b, id)
  {
    if i :| 0 <= i < |a| && a[i].msgId == id {
      assert (a + b)[i].msgId == id;
    }
    if i :| 0 <= i < |b| && b[i].msgId == id {
      assert (a + b)[|a| + i].msgId == id;
    }
  }

  predicate Distinct(ms: seq<Message>) {
    forall i, j :: 0 <= i < j < |ms| ==> ms[i].msgId != ms[j].msgId
  }

  function CallsFor(waiting: map<seq<byte>, nat>, ms: seq<Message>): (cs: seq<C.Call>)
    requires forall i :: 0 <= i < |ms| ==> ms[i].msgId in waiting
    ensures |cs| == |ms|
  {
    seq(|ms|, i requires 0 <= i < |ms| => C.Call(waiting[ms[i].msgId], ms[i]))
  }

  /** Messages with different ids are each given to the callback registered for theirs. */
  lemma {:induction false} DistinctDelivered(waiting: map<seq<byte>, nat>, ms: seq<Message>)
    requires Distinct(ms) && forall i :: 0 <= i < |ms| ==> ms[i].msgId in waiting
    ensures C.Deliver(waiting, ms).calls == CallsFor(waiting, ms)
  {
    if ms != [] {
      var n := |ms| - 1;
      assert ms == ms[..n] + [ms[n]];
      DistinctParts(ms[..n], [ms[n]]);
      DistinctDelivered(waiting, ms[..n]);
      C.StillWaiting(waiting, ms[..n]);
      hide Distinct, C.Mentions;
      assert !C.Mentions(ms[..n], [ms[n]][0].msgId);
      assert CallsFor(waiting, ms) == CallsFor(waiting, ms[..n]) + [C.Call(waiting[ms[n].msgId], ms[n])];
    }
  }

  /** If the replies have different ids and come in time, each is given to the callback registered for its id. */
  lemma {:induction false} CallsInRun(size: nat, tasks: seq<C.ClientTask>)
    requires C.CanTasks(C.Made(size), tasks) && RegisteredOnce(tasks) && InTime(C.Made(size), tasks)
    requires Distinct(RepliesIn(C.Made(size), tasks))
    ensures var replies := RepliesIn(C.Made(size), tasks);
            && (forall i :: 0 <= i < |replies| ==> replies[i].msgId in Registered(tasks))
            && ReadCalls(C.Made(size), tasks) == CallsFor(Registered(tasks), replies)
  {
    hide C.CanTask, C.AfterTask, HeardBy, Registered, Distinct, C.Deliver, C.Mentions;
    if tasks != [] {
      var n, v := |tasks| - 1, C.Made(size);
      var w := C.AfterTasks(v, tasks[..n]);
      DistinctParts(RepliesIn(v, tasks[..n]), HeardBy(w, tasks[n]));
      CallsInRun(size, tasks[..n]);
      Awaiting(size, tasks[..n], HeardBy(w, tasks[n]));
      DistinctDelivered(w.waiting, HeardBy(w, tasks[n]));
      TaskCalls(w, tasks[n]);
      RegisteredSnoc(tasks);
      CallsSplit(Registered(tasks[..n]), w.waiting, Registered(tasks), RepliesIn(v, tasks[..n]), HeardBy(w, tasks[n]));
    }
  }

  /** Messages whose ids are registered and have not come before find their callbacks waiting. */
  lemma Awaiting(size: nat, tasks: seq<C.ClientTask>, ms: seq<Message>)
    requires C.CanTasks(C.Made(size), tasks)
    requires forall m :: m in ms ==> m.msgId in Registered(tasks)
    requires forall i :: 0 <= i < |ms| ==> !C.Mentions(RepliesIn(C.Made(size), tasks), ms[i].msgId)
    ensures var waiting := C.AfterTasks(C.Made(size), tasks).waiting;
            forall i :: 0 <= i < |ms| ==>
              && ms[i].msgId in waiting && ms[i].msgId in Registered(tasks)
              && waiting[ms[i].msgId] == Registered(tasks)[ms[i].msgId]
  {
    hide C.CanTasks, C.AfterTasks, RepliesIn, Registered, C.Mentions;
    forall i | 0 <= i < |ms|
      ensures ms[i].msgId in C.AfterTasks(C.Made(size), tasks).waiting
      ensures ms[i].msgId in Registered(tasks)
      ensures C.AfterTasks(C.Made(size), tasks).waiting[ms[i].msgId] == Registered(tasks)[ms[i].msgId]
    {
      WaitingAsRegistered(size, tasks, ms[i].msgId);
    }
  }

  lemma RegisteredSnoc(tasks: seq<C.ClientTask>)
    requires tasks != [] && RegisteredOnce(tasks)
    ensures forall id :: id in Registered(tasks[..|tasks| - 1]) ==>
              id in Registered(tasks) && Registered(tasks)[id] == Registered(tasks[..|tasks| - 1])[id]
  {
  }

  lemma CallsSplit(before: map<seq<byte>, nat>, waiting: map<seq<byte>, nat>, after: map<seq<byte>, nat>,
                   a: seq<Message>, b: seq<Message>)
    requires forall i :: 0 <= i < |a| ==> a[i].msgId in before
    requires forall id :: id in before ==> id in after && after[id] == before[id]
    requires forall i :: 0 <= i < |b| ==>
               b[i].msgId in waiting && b[i].msgId in after && waiting[b[i].msgId] == after[b[i].msgId]
    ensures forall i :: 0 <= i < |a + b| ==> (a + b)[i].msgId in after
    ensures CallsFor(after, a + b) == CallsFor(before, a) + CallsFor(waiting, b)
  {
  }

  lemma DistinctParts(a: seq<Message>, b: seq<Message>)
    requires Distinct(a + b)
    ensures Distinct(a) && Distinct(b) && forall i :: 0 <= i < |b| ==> !C.Mentions(a, b[i].msgId)
  {
    assert forall i :: 0 <= i < |a| ==> (a + b)[i] == a[i];
    assert forall i :: 0 <= i < |b| ==> (a + b)[|a| + i] == b[i];
  }

  // ---- The letters handed over ----

  /** The messages of the letters that a client has handed over, as it encodes them. */
  function Asked(v: C.Client): seq<Message> {
    if v.courier.Valid() then WithIds(C.Contents(v.courier.added[..v.courier.handed])) else []
  }

  lemma {:induction false} HandedFit(size: nat, tasks: seq<C.ClientTask>)
    requires C.CanTasks(C.Made(size), tasks)
    ensures var c := C.AfterTasks(C.Made(size), tasks).courier;
            c.Valid() && AllFit(C.Contents(c.added[..c.handed]))
  {
    hide C.CanTask, C.AfterTask, AllFit;
    if tasks == [] {
      NoneFit();
    } else {
      var n := |tasks| - 1;
      HandedFit(size, tasks[..n]);
      TaskFit(C.AfterTasks(C.Made(size), tasks[..n]), tasks[n]);
    }
  }

  lemma NoneFit()
    ensures C.Contents(C.IDLE.added[..C.IDLE.handed]) == [] && AllFit([])
  {
  }

  lemma TaskFit(w: C.Client, task: C.ClientTask)
    requires C.CanTask(w, task) && w.courier.Valid() && AllFit(C.Contents(w.courier.added[..w.courier.handed]))
    ensures var c := C.AfterTask(w, task).courier;
            c.Valid() && AllFit(C.Contents(c.added[..c.handed]))
  {
    hide AllFit, ReadSeries, C.Deliver, C.Pending, C.Fails;
    var c := w.courier;
    match task
    case Send(letter) => assert (c.added + [letter])[..c.handed] == c.added[..c.handed];
    case Writable(_) =>
      assert C.Contents(c.added) == C.Contents(c.added[..c.handed]) + C.Contents(c.Queue());
      assert c.added[..|c.added|] == c.added;
      T.AllFitAppend(C.Contents(c.added[..c.handed]), C.Contents(c.Queue()));
    case _ =>
  }

  // ---- Both ends ----

  /** A part of a stream gives the first of its messages. */
  lemma PartDecodes(part: seq<byte>, s: seq<byte>)
    requires part <= s && Streams.InDomain(s)
    ensures Streams.InDomain(part) && Streams.Decode(part).messages <= Streams.Decode(s).messages
  {
    hide Streams.InDomain, Streams.Decode;
    assert part + s[|part|..] == s;
    Streams.DecodeAppend(part, s[|part|..]);
  }

  ghost predicate KeepsIds(dispatch: Message -> Message) {
    forall m :: dispatch(m).msgId == m.msgId
  }

  lemma AnswersHaveIds(dispatch: Message -> Message, ms: seq<Message>, asked: seq<Message>)
    requires KeepsIds(dispatch) && ms <= WithIds(asked)
    ensures WithIds(T.Answers(dispatch, ms)) == T.Answers(dispatch, ms)
    ensures T.Answers(dispatch, ms) <= T.Answers(dispatch, WithIds(asked))
    ensures Distinct(WithIds(asked)) ==> Distinct(T.Answers(dispatch, ms))
  {
    forall i | 0 <= i < |ms| ensures WithId(dispatch(ms[i])) == dispatch(ms[i]) {
      assert ms[i] == WithIds(asked)[i];
    }
  }

  /**
   The bytes `up` are a part of the encoded requests, `io` is a server that has received them, and `down` is a part of
   what it has sent: then `down` gives answers to the first requests, in order, and to all of them once all is carried.
   */
  lemma AnsweredInOrder(dispatch: Message -> Message, asked: seq<Message>, io: T.Io, down: seq<byte>)
    requires AllFit(asked) && KeepsIds(dispatch) && T.Describes(dispatch, io)
    requires io.received <= Encoding(asked) && down <= io.sent
    ensures Streams.InDomain(down)
    ensures Streams.Decode(down).messages <= T.Answers(dispatch, WithIds(asked))
    ensures io.received == Encoding(asked) && io.outRest == [] && down == io.sent ==>
              Streams.Decode(down).messages == T.Answers(dispatch, WithIds(asked))
  {
    hide Streams.InDomain, Streams.Decode, Encoding, AllFit, WithIds, KeepsIds, T.Answers;
    EncodeThenDecode(asked);
    PartDecodes(io.received, Encoding(asked));
    var ms := Streams.Decode(io.received).messages;
    var rs := T.Answers(dispatch, ms);
    AnswersHaveIds(dispatch, ms, asked);
    EncodeThenDecode(rs);
    assert io.sent + io.outRest == Encoding(rs);
    assert down <= Encoding(rs);
    PartDecodes(down, Encoding(rs));
    if io.outRest == [] && down == io.sent {
      assert io.sent + [] == io.sent;
    }
  }

  /** What one side has received is part of what the other has sent. */
  predicate Linked(c: C.Client, io: T.Io, admitted: seq<byte>) {
    io.received <= c.sent && admitted <= io.sent
  }

  /** Nothing is left to be sent, and all that was sent has been received. */
  predicate AllCarried(c: C.Client, io: T.Io, admitted: seq<byte>) {
    c.outRest == [] && io.received == c.sent && io.outRest == [] && admitted == io.sent
  }

  /**
   A client and a server that have run any tasks, in any interleaving: what the server has received is part of what the
   client has sent, and what the client has read is part of what the server has sent. If no write of the client failed
   hard while letters were queued, the replies it has decoded are the answers to the first of its requests, in order;
   and to all of them once both streams have been carried to their ends.
   */
  lemma RepliesAreAnswers(dispatch: Message -> Message, size: nat, tasks: seq<C.ClientTask>, serverSize: nat,
                          served: seq<S.IoTask>)
    requires C.CanTasks(C.Made(size), tasks) && !C.FailedWhileQueued(C.Postings(C.Made(size), tasks))
    requires S.CanTasks(dispatch, S.Accepted(serverSize), served) && KeepsIds(dispatch)
    requires Linked(C.AfterTasks(C.Made(size), tasks), S.AfterTasks(dispatch, S.Accepted(serverSize), served).io,
                    AdmittedIn(C.Made(size), tasks))
    ensures var c, io := C.AfterTasks(C.Made(size), tasks), S.AfterTasks(dispatch, S.Accepted(serverSize), served).io;
            var replies := RepliesIn(C.Made(size), tasks);
            && replies <= T.Answers(dispatch, Asked(c))
            && (AllCarried(c, io, AdmittedIn(C.Made(size), tasks)) ==> replies == T.Answers(dispatch, Asked(c)))
  {
    hide C.CanTasks, C.AfterTasks, S.CanTasks, S.AfterTasks, T.Describes, T.Answers, WithIds, KeepsIds;
    hide C.FailedWhileQueued, C.Postings, AdmittedIn, RepliesIn, Encoding, AllFit, C.EncodedOnce;
    C.SentInOrder(size, tasks);
    HandedFit(size, tasks);
    RunHears(size, tasks);
    T.FreshDescribed(dispatch);
    S.TasksDescribed(dispatch, S.Accepted(serverSize), served);
    var c, io := C.AfterTasks(C.Made(size), tasks), S.AfterTasks(dispatch, S.Accepted(serverSize), served).io;
    var asked := C.Contents(c.courier.added[..c.courier.handed]);
    assert c.sent <= Encoding(asked);
    if c.outRest == [] {
      assert c.sent + [] == c.sent;
    }
    AnsweredInOrder(dispatch, asked, io, AdmittedIn(C.Made(size), tasks));
  }

  /**
   So if the requests have different ids and each reply finds its callback registered, the callbacks that have run are
   those of the first requests, in order, each for what was dispatched for its own request; and they are those of all
   requests once both streams have been carried to their ends.
   */
  lemma AnsweredInTime(dispatch: Message -> Message, size: nat, tasks: seq<C.ClientTask>, serverSize: nat,
                       served: seq<S.IoTask>)
    requires C.CanTasks(C.Made(size), tasks) && !C.FailedWhileQueued(C.Postings(C.Made(size), tasks))
    requires S.CanTasks(dispatch, S.Accepted(serverSize), served) && KeepsIds(dispatch)
    requires Linked(C.AfterTasks(C.Made(size), tasks), S.AfterTasks(dispatch, S.Accepted(serverSize), served).io,
                    AdmittedIn(C.Made(size), tasks))
    requires Distinct(Asked(C.AfterTasks(C.Made(size), tasks))) && RegisteredOnce(tasks) && InTime(C.Made(size), tasks)
    ensures var c, io := C.AfterTasks(C.Made(size), tasks), S.AfterTasks(dispatch, S.Accepted(serverSize), served).io;
            var asked, calls := Asked(c), ReadCalls(C.Made(size), tasks);
            && |calls| <= |asked|
            && (forall i :: 0 <= i < |calls| ==>
                  && asked[i].msgId in Registered(tasks)
                  && calls[i] == C.Call(Registered(tasks)[asked[i].msgId], dispatch(asked[i])))
            && (AllCarried(c, io, AdmittedIn(C.Made(size), tasks)) ==> |calls| == |asked|)
  {
    hide C.CanTasks, C.AfterTasks, S.CanTasks, S.AfterTasks, Asked, C.FailedWhileQueued, C.Postings, AdmittedIn;
    hide RepliesIn, ReadCalls, Registered, RegisteredOnce, InTime;
    RepliesAreAnswers(dispatch, size, tasks, serverSize, served);
    RepliesOf(dispatch, RepliesIn(C.Made(size), tasks), Asked(C.AfterTasks(C.Made(size), tasks)));
    CallsInRun(size, tasks);
  }

  lemma RepliesOf(dispatch: Message -> Message, replies: seq<Message>, asked: seq<Message>)
    requires KeepsIds(dispatch) && Distinct(asked) && replies <= T.Answers(dispatch, asked)
    ensures Distinct(replies) && |replies| <= |asked|
    ensures forall i :: 0 <= i < |replies| ==> replies[i] == dispatch(asked[i]) && replies[i].msgId == asked[i].msgId
  {
    forall i | 0 <= i < |replies| ensures replies[i] == dispatch(asked[i]) && replies[i].msgId == asked[i].msgId {
      assert replies[i] == T.Answers(dispatch, asked)[i];
    }
  }

  // ---- Both ends running at once ----

  datatype Move = AtClient(clientTask: C.ClientTask) | AtServer(serverTask: S.IoTask)

  /** A client, a server, and all bytes that the client's reads have added to its input. */
  datatype Pair = Pair(client: C.Client, server: S.Server, admitted: seq<byte>)

  function Begin(size: nat, serverSize: nat): Pair {
    Pair(C.Made(size), S.Accepted(serverSize), [])
  }

  /** A side can do a task, and reads no byte that the other has not sent. */
  predicate CanMove(dispatch: Message -> Message, p: Pair, move: Move) {
    match move
    case AtClient(task) => C.CanTask(p.client, task) && p.admitted + AdmittedBy(p.client, task) <= p.server.io.sent
    case AtServer(task) =>
      S.CanTask(dispatch, p.server, task) && S.AfterTask(dispatch, p.server, task).io.received <= p.client.sent
  }

  function AfterMove(dispatch: Message -> Message, p: Pair, move: Move): Pair
    requires CanMove(dispatch, p, move)
  {
    match move
    case AtClient(task) =>
      p.(client := C.AfterTask(p.client, task), admitted := p.admitted + AdmittedBy(p.client, task))
    case AtServer(task) => p.(server := S.AfterTask(dispatch, p.server, task))
  }

  predicate IsJoint(dispatch: Message -> Message, p: Pair, moves: seq<Move>)
    decreases |moves|, 0
  {
    moves == [] ||
    (IsJoint(dispatch, p, moves[..|moves| - 1]) &&
     CanMove(dispatch, AfterJoint(dispatch, p, moves[..|moves| - 1]), moves[|moves| - 1]))
  }

  function AfterJoint(dispatch: Message -> Message, p: Pair, moves: seq<Move>): Pair
    requires IsJoint(dispatch, p, moves)
    decreases |moves|, 1
  {
    if moves == [] then p
    else AfterMove(dispatch, AfterJoint(dispatch, p, moves[..|moves| - 1]), moves[|moves| - 1])
  }

  function ClientTasks(moves: seq<Move>): seq<C.ClientTask> {
    if moves == [] then []
    else
      ClientTasks(moves[..|moves| - 1]) +
      if moves[|moves| - 1].AtClient? then [moves[|moves| - 1].clientTask] else []
  }

  function ServerTasks(moves: seq<Move>): seq<S.IoTask> {
    if moves == [] then []
    else
      ServerTasks(moves[..|moves| - 1]) +
      if moves[|moves| - 1].AtServer? then [moves[|moves| - 1].serverTask] else []
  }

  lemma ClientSnoc(v: C.Client, tasks: seq<C.ClientTask>, task: C.ClientTask)
    requires C.CanTasks(v, tasks) && C.CanTask(C.AfterTasks(v, tasks), task)
    ensures C.CanTasks(v, tasks + [task])
    ensures C.AfterTasks(v, tasks + [task]) == C.AfterTask(C.AfterTasks(v, tasks), task)
    ensures AdmittedIn(v, tasks + [task]) == AdmittedIn(v, tasks) + AdmittedBy(C.AfterTasks(v, tasks), task)
    ensures RepliesIn(v, tasks + [task]) == RepliesIn(v, tasks) + HeardBy(C.AfterTasks(v, tasks), task)
  {
    hide C.CanTask, C.AfterTask, AdmittedBy, HeardBy;
    assert (tasks + [task])[..|tasks|] == tasks;
  }

  lemma ServerSnoc(dispatch: Message -> Message, v: S.Server, tasks: seq<S.IoTask>, task: S.IoTask)
    requires S.CanTasks(dispatch, v, tasks) && S.CanTask(dispatch, S.AfterTasks(dispatch, v, tasks), task)
    ensures S.CanTasks(dispatch, v, tasks + [task])
    ensures S.AfterTasks(dispatch, v, tasks + [task]) == S.AfterTask(dispatch, S.AfterTasks(dispatch, v, tasks), task)
  {
    hide S.CanTask, S.AfterTask;
    assert (tasks + [task])[..|tasks|] == tasks;
  }

  /** What a client has sent stays sent. */
  lemma ClientSends(w: C.Client, task: C.ClientTask)
    requires C.CanTask(w, task)
    ensures w.sent <= C.AfterTask(w, task).sent
    ensures !task.Writable? && !task.Send? ==> C.AfterTask(w, task).courier == w.courier
  {
    hide C.Pending, ReadSeries, WriteSeries, C.Deliver;
  }

  lemma ServerSends(dispatch: Message -> Message, v: S.Server, task: S.IoTask)
    requires S.CanTask(dispatch, v, task)
    ensures v.io.sent <= S.AfterTask(dispatch, v, task).io.sent
  {
    hide T.Can, T.Response, ReadSeries, WriteSeries;
  }

  lemma MovesSnoc(moves: seq<Move>)
    requires moves != []
    ensures var init, last := moves[..|moves| - 1], moves[|moves| - 1];
            && ClientTasks(moves) == (if last.AtClient? then ClientTasks(init) + [last.clientTask] else ClientTasks(init))
            && ServerTasks(moves) == (if last.AtServer? then ServerTasks(init) + [last.serverTask] else ServerTasks(init))
  {
  }

  /** Each side has run its own tasks, and has received part of what the other has sent. */
  ghost predicate Reached(dispatch: Message -> Message, size: nat, serverSize: nat, p: Pair, tasks: seq<C.ClientTask>,
                          served: seq<S.IoTask>)
  {
    && C.CanTasks(C.Made(size), tasks) && p.client == C.AfterTasks(C.Made(size), tasks)
    && p.admitted == AdmittedIn(C.Made(size), tasks)
    && S.CanTasks(dispatch, S.Accepted(serverSize), served)
    && p.server == S.AfterTasks(dispatch, S.Accepted(serverSize), served)
    && Linked(p.client, p.server.io, p.admitted)
  }

  lemma ClientMoves(dispatch: Message -> Message, size: nat, serverSize: nat, p: Pair, tasks: seq<C.ClientTask>,
                    served: seq<S.IoTask>, task: C.ClientTask)
    requires Reached(dispatch, size, serverSize, p, tasks, served) && CanMove(dispatch, p, AtClient(task))
    ensures Reached(dispatch, size, serverSize, AfterMove(dispatch, p, AtClient(task)), tasks + [task], served)
  {
    hide C.CanTasks, C.AfterTasks, S.CanTasks, S.AfterTasks, C.CanTask, C.AfterTask, AdmittedBy, AdmittedIn, RepliesIn;
    ClientSnoc(C.Made(size), tasks, task);
    ClientSends(p.client, task);
  }

  lemma ServerMoves(dispatch: Message -> Message, size: nat, serverSize: nat, p: Pair, tasks: seq<C.ClientTask>,
                    served: seq<S.IoTask>, task: S.IoTask)
    requires Reached(dispatch, size, serverSize, p, tasks, served) && CanMove(dispatch, p, AtServer(task))
    ensures Reached(dispatch, size, serverSize, AfterMove(dispatch, p, AtServer(task)), tasks, served + [task])
  {
    hide C.CanTasks, C.AfterTasks, S.CanTasks, S.AfterTasks, S.CanTask, S.AfterTask, AdmittedIn;
    ServerSnoc(dispatch, S.Accepted(serverSize), served, task);
    ServerSends(dispatch, p.server, task);
  }

  /** So it is after every joint run. */
  lemma {:induction false} JointIsLinked(dispatch: Message -> Message, size: nat, serverSize: nat, moves: seq<Move>)
    requires IsJoint(dispatch, Begin(size, serverSize), moves)
    ensures Reached(dispatch, size, serverSize, AfterJoint(dispatch, Begin(size, serverSize), moves),
                    ClientTasks(moves), ServerTasks(moves))
  {
    hide Reached, CanMove, AfterMove;
    if moves == [] {
      NothingMoved(dispatch, size, serverSize);
    } else {
      var n := |moves| - 1;
      JointIsLinked(dispatch, size, serverSize, moves[..n]);
      MovesSnoc(moves);
      hide ClientTasks, ServerTasks;
      var p, tasks := AfterJoint(dispatch, Begin(size, serverSize), moves[..n]), ClientTasks(moves[..n]);
      match moves[n]
      case AtClient(task) => ClientMoves(dispatch, size, serverSize, p, tasks, ServerTasks(moves[..n]), task);
      case AtServer(task) => ServerMoves(dispatch, size, serverSize, p, tasks, ServerTasks(moves[..n]), task);
    }
  }

  lemma NothingMoved(dispatch: Message -> Message, size: nat, serverSize: nat)
    ensures Reached(dispatch, size, serverSize, Begin(size, serverSize), [], [])
  {
  }

  /** Before each read the callbacks of all requests handed over so far are registered. */
  predicate KeepsUp(v: C.Client, tasks: seq<C.ClientTask>)
    requires C.CanTasks(v, tasks)
  {
    tasks == [] ||
    var n := |tasks| - 1;
    KeepsUp(v, tasks[..n]) &&
    (tasks[n].Readable? ==>
       forall m :: m in Asked(C.AfterTasks(v, tasks[..n])) ==> m.msgId in Registered(tasks[..n]))
  }

  /** So it is with a client that registers the callback of each request ahead of queueing the request. */
  predicate AwaitsFirst(tasks: seq<C.ClientTask>) {
    tasks == [] ||
    (AwaitsFirst(tasks[..|tasks| - 1]) &&
     (tasks[|tasks| - 1].Send? ==>
        WithId(tasks[|tasks| - 1].letter.message).msgId in Registered(tasks[..|tasks| - 1])))
  }

  ghost predicate AllRegistered(v: C.Client, tasks: seq<C.ClientTask>) {
    v.courier.Valid() &&
    forall i :: 0 <= i < |v.courier.added| ==> WithId(v.courier.added[i].message).msgId in Registered(tasks)
  }

  lemma {:induction false} AwaitsFirstKeepsUp(size: nat, tasks: seq<C.ClientTask>)
    requires C.CanTasks(C.Made(size), tasks) && AwaitsFirst(tasks)
    ensures KeepsUp(C.Made(size), tasks) && AllRegistered(C.AfterTasks(C.Made(size), tasks), tasks)
  {
    hide C.CanTask, C.AfterTask, WithId, Asked;
    if tasks != [] {
      var n := |tasks| - 1;
      AwaitsFirstKeepsUp(size, tasks[..n]);
      var w := C.AfterTasks(C.Made(size), tasks[..n]);
      AskedRegistered(w, tasks[..n]);
      TaskAdds(w, tasks[n]);
      assert forall id :: id in Registered(tasks[..n]) ==> id in Registered(tasks);
    }
  }

  lemma AskedRegistered(v: C.Client, tasks: seq<C.ClientTask>)
    requires AllRegistered(v, tasks)
    ensures forall m :: m in Asked(v) ==> m.msgId in Registered(tasks)
  {
    hide WithId, Registered;
    forall i | 0 <= i < |Asked(v)| ensures Asked(v)[i].msgId in Registered(tasks) {
      assert Asked(v)[i] == WithId(v.courier.added[i].message);
    }
  }

  lemma TaskAdds(w: C.Client, task: C.ClientTask)
    requires C.CanTask(w, task)
    ensures C.AfterTask(w, task).courier.Valid()
    ensures C.AfterTask(w, task).courier.added == w.courier.added + if task.Send? then [task.letter] else []
  {
    hide C.Pending, ReadSeries, WriteSeries, C.Deliver, C.Fails;
  }

  /** A failure of a part of a run is one of the run. */
  lemma FailureStays(size: nat, tasks: seq<C.ClientTask>, task: C.ClientTask)
    requires C.CanTasks(C.Made(size), tasks) && C.CanTasks(C.Made(size), tasks + [task])
    requires C.FailedWhileQueued(C.Postings(C.Made(size), tasks))
    ensures C.FailedWhileQueued(C.Postings(C.Made(size), tasks + [task]))
  {
    hide C.CanTask, C.AfterTask, C.Pending, C.Fails, C.Posted;
    assert (tasks + [task])[..|tasks|] == tasks;
    var steps := C.Postings(C.Made(size), tasks);
    assert steps + [] == steps;
    assert forall step :: (steps + [step])[..|steps|] == steps;
  }

  /** A task of the client in a joint run decodes nothing ahead of its time. */
  lemma ClientInTime(dispatch: Message -> Message, size: nat, serverSize: nat, p: Pair, tasks: seq<C.ClientTask>,
                     served: seq<S.IoTask>, task: C.ClientTask)
    requires Reached(dispatch, size, serverSize, p, tasks, served) && CanMove(dispatch, p, AtClient(task))
    requires C.CanTasks(C.Made(size), tasks + [task]) && KeepsUp(C.Made(size), tasks + [task]) && KeepsIds(dispatch)
    requires !C.FailedWhileQueued(C.Postings(C.Made(size), tasks + [task])) && InTime(C.Made(size), tasks)
    ensures InTime(C.Made(size), tasks + [task])
  {
    hide C.CanTasks, C.AfterTasks, S.CanTasks, S.AfterTasks, C.CanTask, C.AfterTask, C.FailedWhileQueued, C.Postings;
    hide KeepsUp, InTime, AdmittedIn, RepliesIn, KeepsIds, T.Answers, Asked, Registered;
    ClientMoves(dispatch, size, serverSize, p, tasks, served, task);
    KeptUpBefore(size, tasks, task);
    RepliesAreAnswers(dispatch, size, tasks + [task], serverSize, served);
    LastInTime(dispatch, size, tasks, task);
  }

  /**
   Registering in time is all that is needed: since no reply comes before its request is handed over, each reply finds
   its callback registered.
   */
  lemma {:induction false} RepliesInTime(dispatch: Message -> Message, size: nat, serverSize: nat, moves: seq<Move>)
    requires IsJoint(dispatch, Begin(size, serverSize), moves) && KeepsIds(dispatch)
    requires C.CanTasks(C.Made(size), ClientTasks(moves)) && KeepsUp(C.Made(size), ClientTasks(moves))
    requires !C.FailedWhileQueued(C.Postings(C.Made(size), ClientTasks(moves)))
    ensures InTime(C.Made(size), ClientTasks(moves))
  {
    hide C.CanTasks, C.AfterTasks, C.FailedWhileQueued, C.Postings, CanMove, AfterMove, KeepsIds, KeepsUp, InTime;
    if moves == [] {
      NothingInTime(size);
    } else {
      var n := |moves| - 1;
      var tasks := ClientTasks(moves[..n]);
      JointIsLinked(dispatch, size, serverSize, moves[..n]);
      MovesSnoc(moves);
      hide ClientTasks, ServerTasks;
      if moves[n].AtServer? {
        RepliesInTime(dispatch, size, serverSize, moves[..n]);
      } else {
        if C.FailedWhileQueued(C.Postings(C.Made(size), tasks)) {
          FailureStays(size, tasks, moves[n].clientTask);
        }
        KeptUpBefore(size, tasks, moves[n].clientTask);
        RepliesInTime(dispatch, size, serverSize, moves[..n]);
        ClientInTime(dispatch, size, serverSize, AfterJoint(dispatch, Begin(size, serverSize), moves[..n]), tasks,
                     ServerTasks(moves[..n]), moves[n].clientTask);
      }
    }
  }

  lemma NothingInTime(size: nat)
    ensures C.CanTasks(C.Made(size), []) && InTime(C.Made(size), [])
  {
  }

  lemma KeptUpBefore(size: nat, tasks: seq<C.ClientTask>, task: C.ClientTask)
    requires C.CanTasks(C.Made(size), tasks) && C.CanTasks(C.Made(size), tasks + [task])
    requires KeepsUp(C.Made(size), tasks + [task])
    ensures KeepsUp(C.Made(size), tasks)
    ensures task.Readable? ==>
              forall m :: m in Asked(C.AfterTasks(C.Made(size), tasks)) ==> m.msgId in Registered(tasks)
  {
    hide C.CanTask, C.AfterTask, Asked, Registered;
    assert (tasks + [task])[..|tasks|] == tasks;
  }

  /** What the last task decodes are answers to requests handed over before it. */
  lemma LastInTime(dispatch: Message -> Message, size: nat, tasks: seq<C.ClientTask>, task: C.ClientTask)
    requires C.CanTasks(C.Made(size), tasks) && C.CanTasks(C.Made(size), tasks + [task]) && KeepsIds(dispatch)
    requires C.CanTask(C.AfterTasks(C.Made(size), tasks), task)
    requires InTime(C.Made(size), tasks)
    requires RepliesIn(C.Made(size), tasks + [task])
          <= T.Answers(dispatch, Asked(C.AfterTasks(C.Made(size), tasks + [task])))
    requires task.Readable? ==>
               forall m :: m in Asked(C.AfterTasks(C.Made(size), tasks)) ==> m.msgId in Registered(tasks)
    ensures InTime(C.Made(size), tasks + [task])
  {
    hide C.CanTasks, C.AfterTasks, C.CanTask, C.AfterTask, C.Heard, RepliesIn, AdmittedIn, Registered, WithIds;
    var w := C.AfterTasks(C.Made(size), tasks);
    ClientSnoc(C.Made(size), tasks, task);
    ClientSends(w, task);
    var before, heard := RepliesIn(C.Made(size), tasks), HeardBy(w, task);
    if task.Readable? {
      forall i | 0 <= i < |heard| ensures heard[i].msgId in Registered(tasks) {
        assert (before + heard)[|before| + i] == T.Answers(dispatch, Asked(w))[|before| + i];
      }
    }
    InTimeSnoc(C.Made(size), tasks, task);
  }

  lemma InTimeSnoc(v: C.Client, tasks: seq<C.ClientTask>, task: C.ClientTask)
    requires C.CanTasks(v, tasks) && C.CanTasks(v, tasks + [task]) && InTime(v, tasks)
    requires C.CanTask(C.AfterTasks(v, tasks), task)
    requires forall m :: m in HeardBy(C.AfterTasks(v, tasks), task) ==> m.msgId in Registered(tasks)
    ensures InTime(v, tasks + [task])
  {
    hide C.CanTask, C.AfterTask, HeardBy, Registered;
    assert (tasks + [task])[..|tasks|] == tasks;
  }

  /**
   A client and a server running at once, each reading only what the other has sent. If the requests have different
   ids, each callback is registered before the first read after its request is handed over, and no write of the client
   failed hard while letters were queued, then the callbacks that have run are those of the first requests, in order,
   each for what was dispatched for its own request; and they are those of all requests once both streams have been
   carried to their ends.
   */
  lemma EachCallAnswered(dispatch: Message -> Message, size: nat, serverSize: nat, moves: seq<Move>)
    requires IsJoint(dispatch, Begin(size, serverSize), moves) && KeepsIds(dispatch)
    requires C.CanTasks(C.Made(size), ClientTasks(moves))
    requires !C.FailedWhileQueued(C.Postings(C.Made(size), ClientTasks(moves)))
    requires KeepsUp(C.Made(size), ClientTasks(moves)) && RegisteredOnce(ClientTasks(moves))
    requires Distinct(Asked(AfterJoint(dispatch, Begin(size, serverSize), moves).client))
    ensures var p, tasks := AfterJoint(dispatch, Begin(size, serverSize), moves), ClientTasks(moves);
            var asked, calls := Asked(p.client), ReadCalls(C.Made(size), tasks);
            && |calls| <= |asked|
            && (forall i :: 0 <= i < |calls| ==>
                  && asked[i].msgId in Registered(tasks)
                  && calls[i] == C.Call(Registered(tasks)[asked[i].msgId], dispatch(asked[i])))
            && (AllCarried(p.client, p.server.io, p.admitted) ==> |calls| == |asked|)
  {
    hide C.CanTasks, C.AfterTasks, S.CanTasks, S.AfterTasks, Asked, C.FailedWhileQueued, C.Postings, AdmittedIn, IsJoint;
    hide AfterJoint, ReadCalls, Registered, RegisteredOnce, InTime, KeepsUp, ClientTasks, ServerTasks, KeepsIds;
    JointIsLinked(dispatch, size, serverSize, moves);
    RepliesInTime(dispatch, size, serverSize, moves);
    AnsweredInTime(dispatch, size, ClientTasks(moves), serverSize, ServerTasks(moves));
  }
}
