/** The client's side of a connection: queued messages with their callbacks, and callbacks waiting for replies. */
module Clients {
  import opened Bytes
  import opened Frames
  import opened Buffering
  import opened Coding
  import opened Reactor
  import opened Sockets
  import Streams
  import TaskQueue

  /** A callback that has been run, and the message it was given. */
  datatype Call = Call(callback: nat, message: Message)

  // ---- Replies ----

  /** The callbacks run for a list of messages, and those still waiting. */
  datatype Delivery = Delivery(calls: seq<Call>, waiting: map<seq<byte>, nat>)

  /** For each message in turn the callback registered for its id is run and forgotten. */
  function Deliver(waiting: map<seq<byte>, nat>, ms: seq<Message>): Delivery {
    if ms == [] then Delivery([], waiting)
    else
      var before := Deliver(waiting, ms[..|ms| - 1]);
      var m := ms[|ms| - 1];
      if m.msgId in before.waiting
      then Delivery(before.calls + [Call(before.waiting[m.msgId], m)], before.waiting - {m.msgId})
      else before
  }

  /** `m` is the first message of the list with its id. */
  predicate FirstOfItsId(ms: seq<Message>, m: Message) {
    exists i :: 0 <= i < |ms| && ms[i] == m && forall j :: 0 <= j < i ==> ms[j].msgId != m.msgId
  }

  predicate Mentions(ms: seq<Message>, id: seq<byte>) {
    exists i :: 0 <= i < |ms| && ms[i].msgId == id
  }

  /** Exactly those callbacks keep waiting for whose id there is no message. */
  lemma {:induction false} StillWaiting(waiting: map<seq<byte>, nat>, ms: seq<Message>)
    ensures var d := Deliver(waiting, ms);
            && (forall id :: id in d.waiting <==> id in waiting && !Mentions(ms, id))
            && (forall id :: id in d.waiting ==> d.waiting[id] == waiting[id])
  {
    if ms != [] {
      var ms', m := ms[..|ms| - 1], ms[|ms| - 1];
      StillWaiting(waiting, ms');
      forall id
        ensures Mentions(ms, id) <==> Mentions(ms', id) || id == m.msgId
      {
        MentionsSnoc(ms', m, id);
        assert ms == ms' + [m];
      }
    }
  }

  /** Each callback is run at most once, and for the first message with its id. */
  lemma {:induction false} CalledOnceForTheFirst(waiting: map<seq<byte>, nat>, ms: seq<Message>)
    ensures var d := Deliver(waiting, ms);
            && (forall i, j :: 0 <= i < j < |d.calls| ==> d.calls[i].message.msgId != d.calls[j].message.msgId)
            && (forall i :: 0 <= i < |d.calls| ==>
                  && d.calls[i].message.msgId in waiting && d.calls[i].callback == waiting[d.calls[i].message.msgId]
                  && FirstOfItsId(ms, d.calls[i].message))
  {
    if ms != [] {
      var ms', m := ms[..|ms| - 1], ms[|ms| - 1];
      var d', d := Deliver(waiting, ms'), Deliver(waiting, ms);
      CalledOnceForTheFirst(waiting, ms');
      StillWaiting(waiting, ms');
      assert ms == ms' + [m];
      forall i | 0 <= i < |d'.calls|
        ensures FirstOfItsId(ms, d'.calls[i].message) && Mentions(ms', d'.calls[i].message.msgId)
      {
        FirstStaysFirst(ms', m, d'.calls[i].message);
      }
      if m.msgId in d'.waiting {
        FreshIsFirst(ms', m);
      }
    }
  }

  /** And it is run whenever there is a message with its id. */
  lemma {:induction false} CalledWheneverMentioned(waiting: map<seq<byte>, nat>, ms: seq<Message>, id: seq<byte>)
    returns (i: nat)
    requires id in waiting && Mentions(ms, id)
    ensures i < |Deliver(waiting, ms).calls| && Deliver(waiting, ms).calls[i].message.msgId == id
  {
    var ms', m := ms[..|ms| - 1], ms[|ms| - 1];
    assert ms == ms' + [m];
    MentionsSnoc(ms', m, id);
    StillWaiting(waiting, ms');
    if Mentions(ms', id) {
      i := CalledWheneverMentioned(waiting, ms', id);
    } else {
      i := |Deliver(waiting, ms').calls|;
    }
  }

  lemma FreshIsFirst(ms: seq<Message>, m: Message)
    requires !Mentions(ms, m.msgId)
    ensures FirstOfItsId(ms + [m], m)
  {
    assert (ms + [m])[|ms|] == m;
  }

  lemma MentionsSnoc(ms: seq<Message>, m: Message, id: seq<byte>)
    ensures Mentions(ms + [m], id) <==> Mentions(ms, id) || m.msgId == id
  {
    if Mentions(ms, id) {
      var i :| 0 <= i < |ms| && ms[i].msgId == id;
      assert (ms + [m])[i].msgId == id;
    }
    if m.msgId == id {
      assert (ms + [m])[|ms|].msgId == id;
    }
  }

  /** Messages delivered in two parts are delivered as if they had come at once. */
  lemma {:induction false} DeliverAppend(waiting: map<seq<byte>, nat>, a: seq<Message>, b: seq<Message>)
    ensures var first := Deliver(waiting, a);
            var second := Deliver(first.waiting, b);
            Deliver(waiting, a + b) == Delivery(first.calls + second.calls, second.waiting)
  {
    if b == [] {
      assert a + b == a;
    } else {
      var b', m := b[..|b| - 1], b[|b| - 1];
      assert (a + b)[..|a + b| - 1] == a + b';
      DeliverAppend(waiting, a, b');
    }
  }

  lemma FirstStaysFirst(ms: seq<Message>, m: Message, first: Message)
    requires FirstOfItsId(ms, first)
    ensures FirstOfItsId(ms + [m], first)
  {
    var i :| 0 <= i < |ms| && ms[i] == first && forall j :: 0 <= j < i ==> ms[j].msgId != first.msgId;
    assert (ms + [m])[i] == first;
  }

  // ---- What is sent ----

  /** A message to be sent, with the callback to run once it has been encoded. */
  datatype Letter = Letter(message: Message, callback: nat)

  /**
   The sending side: all letters ever queued, how many of them have been given to the encoder for good, and the
   positions of those encoded, in the order in which they were encoded.
   */
  datatype Courier = Courier(added: seq<Letter>, handed: nat, encoded: seq<nat>) {
    predicate Valid() {
      handed <= |added| && forall i :: 0 <= i < |encoded| ==> encoded[i] < |added|
    }

    function Queue(): seq<Letter>
      requires Valid()
    {
      added[handed..]
    }

    /** A write fails hard, or it does not. */
    function Written(fails: bool): (c: Courier)
      requires Valid()
      ensures c.Valid()
    {
      Courier(added, if fails then handed else |added|, encoded + Positions(handed, |added|))
    }
  }

  datatype Posting = Enqueue(letter: Letter) | Post(fails: bool)

  function Positions(from: nat, to: nat): (s: seq<nat>)
    requires from <= to
    ensures |s| == to - from && forall i :: 0 <= i < |s| ==> s[i] == from + i
  {
    seq(to - from, i => from + i)
  }

  const IDLE := Courier([], 0, [])

  function Step(c: Courier, step: Posting): (c': Courier)
    requires c.Valid()
    ensures c'.Valid()
  {
    if step.Enqueue? then c.(added := c.added + [step.letter]) else c.Written(step.fails)
  }

  function Posted(steps: seq<Posting>): (c: Courier)
    ensures c.Valid()
  {
    if steps == [] then IDLE else Step(Posted(steps[..|steps| - 1]), steps[|steps| - 1])
  }

  /** A write failed hard while letters were queued. */
  predicate FailedWhileQueued(steps: seq<Posting>) {
    steps != [] &&
    (FailedWhileQueued(steps[..|steps| - 1]) ||
     (steps[|steps| - 1] == Post(true) && Posted(steps[..|steps| - 1]).Queue() != []))
  }

  /** Each letter handed over has been encoded once, and no other has been encoded. */
  ghost predicate EncodedOnce(c: Courier) {
    forall i: nat :: multiset(c.encoded)[i] == if i < c.handed then 1 else 0
  }

  lemma {:induction false} CountEncoded(steps: seq<Posting>)
    ensures var c := Posted(steps);
            && (!FailedWhileQueued(steps) ==> c.encoded == Positions(0, c.handed))
            && (FailedWhileQueued(steps) ==> |c.encoded| > c.handed)
            && |c.encoded| >= c.handed
  {
    if steps != [] {
      var init := steps[..|steps| - 1];
      CountEncoded(init);
      var c := Posted(init);
      assert Positions(0, c.handed) + Positions(c.handed, |c.added|) == Positions(0, |c.added|);
    }
  }

  lemma {:induction false} PositionsOnce(n: nat, i: nat)
    ensures multiset(Positions(0, n))[i] == if i < n then 1 else 0
  {
    if n == 0 {
      assert Positions(0, n) == [];
    } else {
      PositionsOnce(n - 1, i);
      assert Positions(0, n) == Positions(0, n - 1) + [n - 1];
    }
  }

  /** Over every run each letter is encoded exactly once if and only if no write failed hard while letters were queued. */
  lemma EncodedOnceExactlyWhen(steps: seq<Posting>)
    ensures EncodedOnce(Posted(steps)) <==> !FailedWhileQueued(steps)
    ensures !FailedWhileQueued(steps) ==> Posted(steps).encoded == Positions(0, Posted(steps).handed)
  {
    hide Posted, FailedWhileQueued;
    CountEncoded(steps);
    var c := Posted(steps);
    forall i: nat ensures multiset(Positions(0, c.handed))[i] == if i < c.handed then 1 else 0 {
      PositionsOnce(c.handed, i);
    }
    if EncodedOnce(c) {
      assert multiset(c.encoded) == multiset(Positions(0, c.handed));
      assert |multiset(c.encoded)| == |multiset(Positions(0, c.handed))|;
    }
  }

  /** The run that sends a message twice: its write fails hard, and the next one does not. */
  lemma SentTwice(letter: Letter)
    ensures var c := Posted([Enqueue(letter), Post(true), Post(false)]);
            c == Courier([letter], 1, [0, 0]) && Messages(c) == [letter.message, letter.message]
  {
    var a, b := [Enqueue(letter)], [Enqueue(letter), Post(true)];
    var all := [Enqueue(letter), Post(true), Post(false)];
    assert a[..0] == [] && b[..1] == a && all[..2] == b;
    assert Posted(a) == Courier([letter], 0, []);
    assert Positions(0, 1) == [0];
    assert Posted(b) == Courier([letter], 0, [0]);
    assert Posted(all) == Courier([letter], 1, [0] + [0]);
  }

  /** The messages encoded, in order. */
  function Messages(c: Courier): (ms: seq<Message>)
    requires c.Valid()
    ensures |ms| == |c.encoded|
  {
    seq(|c.encoded|, i requires 0 <= i < |c.encoded| => c.added[c.encoded[i]].message)
  }

  function Contents(letters: seq<Letter>): (ms: seq<Message>)
    ensures |ms| == |letters|
  {
    seq(|letters|, i requires 0 <= i < |letters| => letters[i].message)
  }

  lemma PostMessages(c: Courier, fails: bool)
    requires c.Valid()
    ensures Messages(c.Written(fails)) == Messages(c) + Contents(c.Queue())
  {
  }

  lemma EnqueueMessages(c: Courier, letter: Letter)
    requires c.Valid()
    ensures c.(added := c.added + [letter]).Valid()
    ensures Messages(c.(added := c.added + [letter])) == Messages(c)
    ensures c.(added := c.added + [letter]).Queue() == c.Queue() + [letter]
  {
  }

  // ---- A client connection, seen from outside ----

  /**
   Its state, where the unread bytes lie and which they are, the bytes to be sent and those sent, the letters, and the
   callbacks waiting for replies and run so far.
   */
  datatype Client = Client(state: TcpState, layout: Layout, inRest: seq<byte>, outRest: seq<byte>, sent: seq<byte>,
                           courier: Courier, waiting: map<seq<byte>, nat>, calls: seq<Call>)

  predicate Sound(v: Client) {
    v.layout.Valid() && v.layout.WriteAvailable() > 0 && v.layout.ReadAvailable() == |v.inRest| && v.courier.Valid()
  }

  datatype ClientTask =
    | Send(letter: Letter)
    | Await(id: seq<byte>, callback: nat)
    | Readable(fromRead: seq<ReadAnswer>)
    | Writable(fromWrite: seq<WriteAnswer>)

  /** The queued messages can be encoded, and the input that is executed on can be decoded. */
  predicate CanTask(v: Client, task: ClientTask) {
    Sound(v) &&
    match task
    case Writable(_) => AllFit(Contents(v.courier.Queue()))
    case Readable(answers) =>
      v.state == Connected ==>
        var r := ReadSeries(answers, v.layout.WriteAvailable());
        r.outcome == Paused ==> Streams.InDomain(v.inRest + r.admitted)
    case _ => true
  }

  /** What a write has to send: what is left, and the queued letters behind it. */
  function Pending(v: Client): seq<byte>
    requires v.courier.Valid()
  {
    v.outRest + Encoding(Contents(v.courier.Queue()))
  }

  predicate Fails(v: Client, answers: seq<WriteAnswer>)
    requires v.courier.Valid()
  {
    v.state == Connected && Pending(v) != [] && WriteSeries(answers, |Pending(v)|).outcome == WriteOutcome.Broken
  }

  /** The callbacks of letters, each with its message as it is encoded. */
  function CallsFor(letters: seq<Letter>): (cs: seq<Call>)
    ensures |cs| == |letters|
  {
    seq(|letters|, i requires 0 <= i < |letters| => Call(letters[i].callback, WithId(letters[i].message)))
  }

  function AfterWrite(v: Client, answers: seq<WriteAnswer>): Client
    requires v.courier.Valid()
  {
    if v.state != Connected || Pending(v) == [] then v
    else
      var pending, n := Pending(v), WriteSeries(answers, |Pending(v)|).taken;
      var fails := Fails(v, answers);
      v.(outRest := pending[n..], sent := v.sent + pending[..n], courier := v.courier.Written(fails),
         calls := v.calls + if fails then [] else CallsFor(v.courier.Queue()))
  }

  function AfterRead(v: Client, answers: seq<ReadAnswer>): Client
    requires CanTask(v, Readable(answers))
  {
    if v.state != Connected then v
    else
      var r := ReadSeries(answers, v.layout.WriteAvailable());
      match r.outcome
      case PeerClosed => v.(state := Closed)
      case Failed => v
      case Paused =>
        var s := v.inRest + r.admitted;
        var d := Deliver(v.waiting, Streams.Decode(s).messages);
        v.(layout := DecodeLayout(Buffering.After(v.layout, MoveWrite(|r.admitted|)), s),
           inRest := Streams.Decode(s).rest, waiting := d.waiting, calls := v.calls + d.calls)
  }

  /** A read after which the input is decoded. */
  predicate Executes(v: Client, answers: seq<ReadAnswer>)
    requires Sound(v)
  {
    v.state == Connected && ReadSeries(answers, v.layout.WriteAvailable()).outcome == Paused
  }

  /** The bytes that a read adds to the input. */
  function Admitted(v: Client, answers: seq<ReadAnswer>): seq<byte>
    requires Sound(v)
  {
    if Executes(v, answers) then ReadSeries(answers, v.layout.WriteAvailable()).admitted else []
  }

  /** The messages decoded by a read. */
  function Heard(v: Client, answers: seq<ReadAnswer>): seq<Message>
    requires CanTask(v, Readable(answers))
  {
    if Executes(v, answers) then Streams.Decode(v.inRest + Admitted(v, answers)).messages else []
  }

  /** What a read decodes, what it leaves, and which callbacks it runs. */
  lemma ReadFacts(v: Client, answers: seq<ReadAnswer>)
    requires CanTask(v, Readable(answers))
    ensures var w, d := AfterRead(v, answers), Deliver(v.waiting, Heard(v, answers));
            && w.calls == v.calls + d.calls && w.waiting == d.waiting && (w.state == v.state || w.state == Closed)
    ensures Sound(v)
    ensures Executes(v, answers) ==>
              && Streams.InDomain(v.inRest + Admitted(v, answers))
              && AfterRead(v, answers).inRest == Streams.Decode(v.inRest + Admitted(v, answers)).rest
    ensures !Executes(v, answers) ==> Admitted(v, answers) == [] && AfterRead(v, answers).inRest == v.inRest
  {
    hide ReadSeries, DecodeLayout, Streams.Decode;
  }

  function AfterTask(v: Client, task: ClientTask): Client
    requires CanTask(v, task)
  {
    match task
    case Send(letter) => v.(courier := v.courier.(added := v.courier.added + [letter]))
    case Await(id, callback) => v.(waiting := v.waiting[id := callback])
    case Readable(answers) => AfterRead(v, answers)
    case Writable(answers) => AfterWrite(v, answers)
  }

  predicate CanTasks(v: Client, tasks: seq<ClientTask>)
    decreases |tasks|, 0
  {
    tasks == [] ||
    (CanTasks(v, tasks[..|tasks| - 1]) && CanTask(AfterTasks(v, tasks[..|tasks| - 1]), tasks[|tasks| - 1]))
  }

  function AfterTasks(v: Client, tasks: seq<ClientTask>): Client
    requires CanTasks(v, tasks)
    decreases |tasks|, 1
  {
    if tasks == [] then v else AfterTask(AfterTasks(v, tasks[..|tasks| - 1]), tasks[|tasks| - 1])
  }

  lemma TasksNext(v: Client, tasks: seq<ClientTask>, i: nat)
    requires i < |tasks| && CanTasks(v, tasks[..i])
    ensures CanTasks(v, tasks[..i + 1]) <==> CanTask(AfterTasks(v, tasks[..i]), tasks[i])
    ensures CanTasks(v, tasks[..i + 1]) ==>
              AfterTasks(v, tasks[..i + 1]) == AfterTask(AfterTasks(v, tasks[..i]), tasks[i])
  {
    hide CanTask, AfterTask;
    assert tasks[..i + 1][..i] == tasks[..i];
  }

  lemma NoTasks(v: Client)
    ensures CanTasks(v, []) && AfterTasks(v, []) == v
  {
  }

  // ---- What a run has sent ----

  /** The posting steps of a run: the letters queued, and for each write on the connection whether it failed hard. */
  function Postings(v: Client, tasks: seq<ClientTask>): seq<Posting>
    requires CanTasks(v, tasks)
  {
    if tasks == [] then []
    else
      var n := |tasks| - 1;
      var w := AfterTasks(v, tasks[..n]);
      Postings(v, tasks[..n]) +
      match tasks[n]
      case Send(letter) => [Enqueue(letter)]
      case Writable(answers) => if w.state == Connected && Pending(w) != [] then [Post(Fails(w, answers))] else []
      case _ => []
  }

  lemma PostedSnoc(steps: seq<Posting>, step: Posting)
    ensures Posted(steps + [step]) == Step(Posted(steps), step)
  {
    assert (steps + [step])[..|steps + [step]| - 1] == steps;
  }

  /** What has been sent and what is left to send are the frames of the letters encoded, one behind the other. */
  ghost predicate Told(v: Client) {
    v.courier.Valid() && v.sent + v.outRest == Encoding(Messages(v.courier))
  }

  lemma WriteTold(v: Client, answers: seq<WriteAnswer>)
    requires Told(v)
    ensures Told(AfterWrite(v, answers))
  {
    hide Encoding, WriteSeries;
    if v.state == Connected && Pending(v) != [] {
      var pending, n := Pending(v), WriteSeries(answers, |Pending(v)|).taken;
      PostMessages(v.courier, Fails(v, answers));
      EncodingAppend(Messages(v.courier), Contents(v.courier.Queue()));
      assert pending == pending[..n] + pending[n..];
      assert v.sent + pending == v.sent + v.outRest + Encoding(Contents(v.courier.Queue()));
      assert v.sent + pending[..n] + pending[n..] == v.sent + pending;
    }
  }

  lemma TaskTold(v: Client, task: ClientTask)
    requires CanTask(v, task) && Told(v)
    ensures Told(AfterTask(v, task))
  {
    hide Encoding, AfterWrite, ReadSeries, Deliver;
    match task
    case Send(letter) => EnqueueMessages(v.courier, letter);
    case Writable(answers) => WriteTold(v, answers);
    case _ =>
  }

  /** A connection just made. */
  function Made(size: nat): Client {
    Client(Connected, Layout(0, 0, size), [], [], [], IDLE, map[], [])
  }

  /** Over every run the letters are those of its postings, and the bytes are the frames of what they encoded. */
  lemma {:induction false} RunTold(size: nat, tasks: seq<ClientTask>)
    requires CanTasks(Made(size), tasks)
    ensures AfterTasks(Made(size), tasks).courier == Posted(Postings(Made(size), tasks))
    ensures Told(AfterTasks(Made(size), tasks))
  {
    hide CanTask, Told, Posted, Pending, Fails;
    if tasks == [] {
      MadeTold(size);
    } else {
      var n := |tasks| - 1;
      RunTold(size, tasks[..n]);
      var w := AfterTasks(Made(size), tasks[..n]);
      TaskTold(w, tasks[n]);
      TaskPosts(w, tasks[n], Postings(Made(size), tasks[..n]));
    }
  }

  lemma MadeTold(size: nat)
    ensures Told(Made(size)) && Posted([]) == IDLE
  {
    EncodingNone();
    assert Messages(IDLE) == [];
  }

  lemma TaskPosts(w: Client, task: ClientTask, steps: seq<Posting>)
    requires CanTask(w, task) && w.courier == Posted(steps)
    ensures AfterTask(w, task).courier == Posted(steps +
              match task
              case Send(letter) => [Enqueue(letter)]
              case Writable(answers) => if w.state == Connected && Pending(w) != [] then [Post(Fails(w, answers))] else []
              case _ => [])
  {
    hide Posted, Pending, Fails, ReadSeries, Deliver;
    assert steps + [] == steps;
    match task
    case Send(letter) => PostedSnoc(steps, Enqueue(letter));
    case Writable(answers) => PostedSnoc(steps, Post(Fails(w, answers)));
    case _ =>
  }

  /**
   So over every run of a connection, if no write failed hard while letters were queued, what it has sent and has left
   to send are the frames of the letters handed over, each once and in the order in which they were queued.
   */
  lemma SentInOrder(size: nat, tasks: seq<ClientTask>)
    requires CanTasks(Made(size), tasks) && !FailedWhileQueued(Postings(Made(size), tasks))
    ensures var v := AfterTasks(Made(size), tasks);
            && v.courier.Valid() && EncodedOnce(v.courier)
            && v.sent + v.outRest == Encoding(Contents(v.courier.added[..v.courier.handed]))
  {
    hide CanTasks, AfterTasks, Posted, Postings, FailedWhileQueued, EncodedOnce, Encoding;
    RunTold(size, tasks);
    EncodedOnceExactlyWhen(Postings(Made(size), tasks));
    var c := AfterTasks(Made(size), tasks).courier;
    assert Messages(c) == Contents(c.added[..c.handed]);
  }

  /**
   A write sends what the kernel would take of what is left and of the frames queued behind it, and all of it if that is
   more.
   */
  lemma WriteSends(v: Client, answers: seq<WriteAnswer>)
    requires v.courier.Valid() && v.state == Connected && AllFit(Contents(v.courier.Queue()))
    ensures var w := AfterWrite(v, answers);
            var n := if Capacity(answers) < |Pending(v)| then Capacity(answers) else |Pending(v)|;
            && w.sent == v.sent + Pending(v)[..n] && w.outRest == Pending(v)[n..]
            && w.courier.Valid() && w.courier.added == v.courier.added
            && (Capacity(answers) >= |Pending(v)| ==> w.courier.Queue() == [])
  {
    hide WriteSeries, Pending, AllFit;
    if Pending(v) == [] {
      assert v.sent + Pending(v)[..0] == v.sent;
      NothingPending(v);
    } else {
      TakenAsOffered(answers, |Pending(v)|);
    }
  }

  /**
   If the kernel fails before all is taken the queue stays and no callback runs; otherwise the queue is empty and each
   callback has run once, in order, with its message under the id it was sent with.
   */
  lemma WriteCalls(v: Client, answers: seq<WriteAnswer>)
    requires v.courier.Valid() && v.state == Connected && AllFit(Contents(v.courier.Queue()))
    ensures var w, queue, k := AfterWrite(v, answers), v.courier.Queue(), |v.calls|;
            if Capacity(answers) < |Pending(v)| && FailsFirst(answers) then
              w.courier.Valid() && w.courier.Queue() == queue && w.calls == v.calls
            else
              && w.courier.Valid() && w.courier.Queue() == []
              && |w.calls| == k + |queue| && w.calls[..k] == v.calls
              && forall i :: 0 <= i < |queue| ==>
                   w.calls[k + i].callback == queue[i].callback && w.calls[k + i].message == WithId(queue[i].message)
  {
    hide WriteSeries, Pending, AllFit, FailsFirst, Capacity;
    if Pending(v) == [] {
      NothingPending(v);
    } else {
      TakenAsOffered(answers, |Pending(v)|);
    }
  }

  lemma NothingPending(v: Client)
    requires v.courier.Valid() && AllFit(Contents(v.courier.Queue())) && Pending(v) == []
    ensures v.outRest == [] && v.courier.Queue() == []
  {
    hide Encoding, AllFit;
    if v.courier.Queue() != [] {
      QueuedIsPending(v);
    }
  }

  /** A read closes the connection exactly if the kernel reports the end of the stream before it pauses. */
  lemma ClosedExactlyWhen(v: Client, answers: seq<ReadAnswer>)
    requires CanTask(v, Readable(answers)) && v.state == Connected
    ensures var w := AfterRead(v, answers);
            && (w.state == Closed <==> Ending(answers, v.layout.WriteAvailable()) == Offer([]))
            && (w.state != Closed ==> w.state == Connected)
  {
    hide ReadSeries, DecodeLayout, Buffering.After, Streams.Decode, Deliver;
    EndingDecides(answers, v.layout.WriteAvailable());
  }

  /** So with room for all that is left all requests have been sent: the bytes are the frames of all letters, in order. */
  lemma AllRequestsSent(size: nat, tasks: seq<ClientTask>, answers: seq<WriteAnswer>)
    requires CanTasks(Made(size), tasks) && !FailedWhileQueued(Postings(Made(size), tasks))
    requires CanTask(AfterTasks(Made(size), tasks), Writable(answers))
    requires var v := AfterTasks(Made(size), tasks); v.state == Connected && Capacity(answers) >= |Pending(v)|
    ensures var v := AfterTasks(Made(size), tasks);
            AfterWrite(v, answers).sent == Encoding(Contents(v.courier.added)) && AfterWrite(v, answers).outRest == []
  {
    hide CanTasks, AfterTasks, Posted, Postings, FailedWhileQueued, EncodedOnce, Encoding, AllFit, AfterWrite;
    SentInOrder(size, tasks);
    var v := AfterTasks(Made(size), tasks);
    WriteSends(v, answers);
    var c := v.courier;
    assert Contents(c.added) == Contents(c.added[..c.handed]) + Contents(c.Queue());
    EncodingAppend(Contents(c.added[..c.handed]), Contents(c.Queue()));
    assert Pending(v)[..|Pending(v)|] == Pending(v);
    assert v.sent + (v.outRest + Encoding(Contents(c.Queue()))) == (v.sent + v.outRest) + Encoding(Contents(c.Queue()));
  }

  /** On the wire: a letter whose write fails hard before anything is taken is sent twice by the next write. */
  lemma FrameSentTwice(size: nat, letter: Letter)
    requires size > 0 && Fits(WithId(letter.message))
    ensures var frame := Wire(letter.message);
            var tasks := [Send(letter), Writable([WriteError]), Writable([Accept(2 * |frame|)])];
            && CanTasks(Made(size), tasks)
            && AfterTasks(Made(size), tasks).sent == frame + frame
            && AfterTasks(Made(size), tasks).calls == [Call(letter.callback, WithId(letter.message))]
  {
    hide CanTasks, AfterTasks, Wire, Fits, WithId;
    var frame := Wire(letter.message);
    var a, b, c := Send(letter), Writable([WriteError]), Writable([Accept(2 * |frame|)]);
    var tasks := [a, b, c];
    assert tasks[..0] == [] && tasks[..1] == [a] && tasks[..2] == [a, b] && tasks[..3] == tasks;
    var v0 := Made(size);
    NoTasks(v0);
    TasksNext(v0, tasks, 0);
    var v1 := v0.(courier := Courier([letter], 0, []));
    assert AfterTask(v0, a) == v1;
    OneQueued(v1, letter);
    TasksNext(v0, tasks, 1);
    assert [] + frame == frame;
    WriteResult(v1, [WriteError]);
    var v2 := v1.(outRest := frame, courier := v1.courier.Written(true));
    assert AfterTask(v1, b) == v2;
    OneQueued(v2, letter);
    TasksNext(v0, tasks, 2);
    WriteResult(v2, [Accept(2 * |frame|)]);
    assert (frame + frame)[..2 * |frame|] == frame + frame;
  }

  lemma OneQueued(v: Client, letter: Letter)
    requires v.courier.Valid() && v.courier.Queue() == [letter] && Fits(WithId(letter.message))
    ensures AllFit(Contents(v.courier.Queue())) && Pending(v) == v.outRest + Wire(letter.message)
    ensures Wire(letter.message) != [] && CallsFor(v.courier.Queue()) == [Call(letter.callback, WithId(letter.message))]
  {
    hide Frame, WithId;
    assert Contents([letter]) == [letter.message];
    EncodingSnoc([], letter.message);
    EncodingNone();
    assert [] + [letter.message] == [letter.message] && [] + Wire(letter.message) == Wire(letter.message);
  }

  // ---- The connection ----

  /** A message object in the queue, and its callback. */
  datatype Queued = Queued(message: TinyPBProtocol, callback: nat)

  function ObjectsOf(queue: seq<Queued>): (ms: seq<TinyPBProtocol>)
    ensures |ms| == |queue| && forall i :: 0 <= i < |ms| ==> ms[i] == queue[i].message
  {
    seq(|queue|, i requires 0 <= i < |queue| => queue[i].message)
  }

  /** A connection made by a client. */
  class ClientConnection {
    const eventLoop: EventLoop
    const fdEvent: FdEvent
    const inBuffer: TcpBuffer
    const outBuffer: TcpBuffer
    var state: TcpState
    var writeCb: seq<Queued>
    var readCb: map<seq<byte>, nat>
    /** Whether the client has closed the fd. */
    var closed: bool
    /** The callbacks run so far. */
    var calls: seq<Call>
    /** All that the kernel has taken. */
    var sent: seq<byte>
    ghost var courier: Courier

    ghost predicate Valid()
      reads this, eventLoop, fdEvent, inBuffer, inBuffer.buffer, outBuffer, outBuffer.buffer, Objects()
    {
      && inBuffer != outBuffer && inBuffer.buffer != outBuffer.buffer
      && inBuffer.Valid() && outBuffer.Valid() && eventLoop.Valid()
      && inBuffer.writeIndex < inBuffer.size
      && Matches()
      && Armed()
    }

    function Objects(): (ms: seq<TinyPBProtocol>)
      reads this`writeCb
      ensures |ms| == |writeCb| && forall i :: 0 <= i < |ms| ==> ms[i] == writeCb[i].message
    {
      ObjectsOf(writeCb)
    }

    /** The queue holds the letters not yet handed over; encoding may have given them their id already. */
    ghost predicate Matches()
      reads this`writeCb, this`courier, Objects()
    {
      && courier.Valid() && |writeCb| == |courier.Queue()|
      && forall i :: 0 <= i < |writeCb| ==>
           && Objects()[i] == writeCb[i].message
           && writeCb[i].callback == courier.Queue()[i].callback
           && WithId(Objects()[i].Value()) == WithId(courier.Queue()[i].message)
    }

    ghost function View(): Client
      requires inBuffer.Valid() && outBuffer.Valid()
      reads this, inBuffer, inBuffer.buffer, outBuffer, outBuffer.buffer
    {
      Client(state, inBuffer.Where(), inBuffer.Contents(), outBuffer.Contents(), sent, courier, readCb, calls)
    }

    predicate Live()
      reads this`closed, this`state
    {
      !closed && (state == NotConnected || state == Connected)
    }

    /** Epoll knows what the fd wants, and this includes writing while there is something to encode or to send. */
    ghost predicate Armed()
      reads this`closed, this`state, this`writeCb, eventLoop, fdEvent, outBuffer, outBuffer.buffer
      requires outBuffer.Valid()
    {
      Live() ==>
        && (fdEvent.fd in eventLoop.registered ==> eventLoop.registered[fdEvent.fd] == fdEvent.events)
        && (writeCb != [] || outBuffer.Contents() != [] ==>
              Out in fdEvent.events && fdEvent.fd in eventLoop.registered && Out in eventLoop.registered[fdEvent.fd])
    }

    constructor (eventLoop: EventLoop, fd: int, bufferSize: nat)
      requires eventLoop.Valid() && fd !in eventLoop.registered && bufferSize > 0
      ensures Valid() && this.eventLoop == eventLoop && fdEvent.fd == fd
      ensures View() == Made(bufferSize).(state := NotConnected) && !closed
      ensures fresh(fdEvent) && fresh(inBuffer) && fresh(outBuffer) && fresh(inBuffer.buffer) && fresh(outBuffer.buffer)
    {
      this.eventLoop := eventLoop;
      inBuffer := new TcpBuffer(bufferSize);
      outBuffer := new TcpBuffer(bufferSize);
      fdEvent := new FdEvent(fd);
      state, writeCb, readCb, closed, calls, sent := NotConnected, [], map[], false, [], [];
      courier := IDLE;
    }

    method SetConnected()
      requires Valid() && (state == NotConnected || state == Connected)
      modifies this`state
      ensures Valid() && View() == old(View()).(state := Connected)
    {
      state := Connected;
    }

    /** `TcpClient::close` on a loop that is running: the loop is told to stop and the fd is closed. */
    method Close()
      requires Valid()
      modifies this`closed, eventLoop, fdEvent`events
      ensures Valid() && closed && eventLoop.stopFlag && fdEvent.events == {} && View() == old(View())
    {
      eventLoop.Stop();
      fdEvent.Close();
      closed := true;
    }

    /** `writeMessage`: queues the message and asks to be told when the fd is writable. */
    method WriteMessage(message: TinyPBProtocol, callback: nat)
      requires Valid()
      modifies this`writeCb, this`courier, eventLoop, fdEvent
      ensures Valid() && writeCb == old(writeCb) + [Queued(message, callback)]
      ensures View() == AfterTask(old(View()), Send(Letter(message.Value(), callback)))
      ensures Out in fdEvent.events && fdEvent.fd in eventLoop.registered && Out in eventLoop.registered[fdEvent.fd]
    {
      hide Encoding, EventLoop.Valid;
      AddMessage(message, callback);
      fdEvent.Listen(Out);
      eventLoop.AddEpollEvent(fdEvent, true);
    }

    method AddMessage(message: TinyPBProtocol, callback: nat)
      requires Matches()
      modifies this`writeCb, this`courier
      ensures Matches() && writeCb == old(writeCb) + [Queued(message, callback)]
      ensures courier == old(courier).(added := old(courier.added) + [Letter(message.Value(), callback)])
    {
      hide WithId;
      EnqueueMessages(courier, Letter(message.Value(), callback));
      writeCb := writeCb + [Queued(message, callback)];
      courier := courier.(added := courier.added + [Letter(message.Value(), callback)]);
    }

    /** `readMessage`: registers the callback for a reply with this id, replacing an earlier one. */
    method ReadMessage(id: seq<byte>, callback: nat)
      requires Valid()
      modifies this`readCb, eventLoop, fdEvent
      ensures Valid() && View() == AfterTask(old(View()), Await(id, callback))
      ensures In in fdEvent.events && fdEvent.fd in eventLoop.registered && In in eventLoop.registered[fdEvent.fd]
    {
      hide EventLoop.Valid;
      readCb := readCb[id := callback];
      fdEvent.Listen(In);
      eventLoop.AddEpollEvent(fdEvent, true);
    }

    /**
     Encodes all queued messages behind what is still unsent, writes, and runs the callbacks, each with the
     message as it was encoded. When a write fails hard the callbacks are not run and the messages stay queued
     although they have been encoded.
     */
    method OnWrite(answers: seq<WriteAnswer>)
      requires Valid() && CanTask(View(), Writable(answers))
      modifies this, eventLoop, fdEvent, outBuffer, outBuffer.buffer, Objects()
      ensures Valid() && closed == old(closed)
      ensures outBuffer.buffer == old(outBuffer.buffer) || fresh(outBuffer.buffer)
      ensures View() == AfterWrite(old(View()), answers)
      ensures old(state) != Connected || old(Fails(View(), answers)) ==> writeCb == old(writeCb)
      ensures old(state) == Connected && !old(Fails(View(), answers)) ==> writeCb == []
      ensures old(state) == Connected && old(Pending(View())) != [] && outBuffer.Contents() == [] ==>
                fdEvent.events == old(fdEvent.events) - {Out}
      ensures forall m :: m in old(Objects()) ==> WithId(m.Value()) == WithId(old(m.Value()))
    {
      hide Encoding, EventLoop.Valid, WriteSeries, CanTask, AllFit;
      Encodable(View(), answers);
      ghost var v := View();
      if state != Connected {
        return;
      }
      EncodeQueued();
      if outBuffer.ReadAvailable() == 0 {
        if writeCb != [] {
          QueuedIsPending(v);
        }
        return;
      }
      FlushAndCall(answers, v);
    }

    /** Appends the frames of all queued messages to the output; the messages have their ids then. */
    method EncodeQueued()
      requires Valid() && AllFit(Contents(courier.Queue())) && state == Connected
      modifies outBuffer, outBuffer.buffer, Objects()
      ensures Valid() && (outBuffer.buffer == old(outBuffer.buffer) || fresh(outBuffer.buffer))
      ensures outBuffer.Contents() == old(outBuffer.Contents()) + Encoding(Contents(courier.Queue()))
      ensures forall i :: 0 <= i < |writeCb| ==> Objects()[i].Value() == WithId(courier.Queue()[i].message)
      ensures forall m :: m in Objects() ==> WithId(m.Value()) == WithId(old(m.Value()))
    {
      hide Encoding, EventLoop.Valid, AllFit, WithId;
      SameEncoding(Values(Objects()), Contents(courier.Queue()));
      if writeCb == [] {
        EncodingNone();
        assert Contents(courier.Queue()) == [];
      }
      ghost var vs := Values(Objects());
      Encode(Objects(), outBuffer);
      forall i | 0 <= i < |writeCb| ensures WithId(Objects()[i].Value()) == WithId(courier.Queue()[i].message) {
        WireOnce(vs[i]);
      }
    }

    method FlushAndCall(answers: seq<WriteAnswer>, ghost v: Client)
      requires Valid() && state == Connected && outBuffer.Contents() != []
      requires v.courier.Valid() && outBuffer.Contents() == Pending(v) && v == View().(outRest := v.outRest)
      requires forall i :: 0 <= i < |writeCb| ==> Objects()[i].Value() == WithId(courier.Queue()[i].message)
      modifies this`sent, this`calls, this`writeCb, this`courier, eventLoop, fdEvent, outBuffer, outBuffer.buffer
      ensures Valid() && outBuffer.buffer == old(outBuffer.buffer) && View() == AfterWrite(v, answers)
      ensures Fails(v, answers) ==> writeCb == old(writeCb)
      ensures !Fails(v, answers) ==> writeCb == []
      ensures outBuffer.Contents() == [] ==> fdEvent.events == old(fdEvent.events) - {Out}
    {
      hide Encoding, EventLoop.Valid, WriteSeries, AfterWrite, Pending, Fails, WithId;
      WriteResult(v, answers);
      var outcome, written := Flush(answers);
      sent := sent + written;
      HandOver(outcome == WriteOutcome.Broken);
    }

    /** Unless writing failed hard, the callbacks are run and the queue is cleared. */
    method HandOver(failed: bool)
      requires Matches()
      requires forall i :: 0 <= i < |writeCb| ==> Objects()[i].Value() == WithId(courier.Queue()[i].message)
      modifies this`calls, this`writeCb, this`courier
      ensures Matches() && courier == old(courier).Written(failed)
      ensures failed ==> writeCb == old(writeCb) && calls == old(calls)
      ensures !failed ==> writeCb == [] && calls == old(calls) + CallsFor(old(courier).Queue())
    {
      hide WithId;
      if !failed {
        RunWriteCallbacks();
      }
      courier := courier.Written(failed);
    }

    /** The write loop; once all is written the fd no longer wants to be written. */
    method Flush(answers: seq<WriteAnswer>) returns (outcome: WriteOutcome, written: seq<byte>)
      requires inBuffer != outBuffer && inBuffer.buffer != outBuffer.buffer
      requires outBuffer.Valid() && eventLoop.Valid() && Armed() && state == Connected && outBuffer.Contents() != []
      modifies eventLoop, fdEvent, outBuffer, outBuffer.buffer
      ensures outBuffer.Valid() && eventLoop.Valid() && outBuffer.buffer == old(outBuffer.buffer)
      ensures var w := WriteSeries(answers, |old(outBuffer.Contents())|);
              && outcome == w.outcome && written == old(outBuffer.Contents())[..w.taken]
              && outBuffer.Contents() == old(outBuffer.Contents())[w.taken..]
      ensures outcome != Drained ==> outBuffer.Contents() != [] && Armed()
      ensures outcome == Drained ==>
                && outBuffer.Contents() == [] && fdEvent.events == old(fdEvent.events) - {Out}
                && fdEvent.fd in eventLoop.registered && eventLoop.registered[fdEvent.fd] == fdEvent.events
    {
      hide EventLoop.Valid, WriteSeries;
      outcome, written := DrainTo(outBuffer, answers);
      if outcome == Drained {
        fdEvent.ClearEvent(Out);
        eventLoop.AddEpollEvent(fdEvent, true);
      }
    }

    method RunWriteCallbacks()
      requires Matches()
      requires forall i :: 0 <= i < |writeCb| ==> Objects()[i].Value() == WithId(courier.Queue()[i].message)
      modifies this`calls, this`writeCb
      ensures writeCb == [] && calls == old(calls) + CallsFor(courier.Queue())
    {
      hide WithId;
      var i := 0;
      while i < |writeCb|
        invariant 0 <= i <= |writeCb| && writeCb == old(writeCb)
        invariant calls == old(calls) + CallsFor(courier.Queue())[..i]
      {
        assert Objects()[i] == writeCb[i].message;
        calls := calls + [Call(writeCb[i].callback, writeCb[i].message.Value())];
        i := i + 1;
      }
      writeCb := [];
    }

    /** Reads what the kernel offers and runs the callbacks of the replies, or closes at the end of the stream. */
    method OnRead(answers: seq<ReadAnswer>)
      requires Valid() && CanTask(View(), Readable(answers))
      modifies this`state, this`calls, this`readCb, eventLoop, fdEvent`events, inBuffer, inBuffer.buffer
      ensures Valid() && inBuffer.buffer == old(inBuffer.buffer)
      ensures View() == AfterRead(old(View()), answers)
      ensures old(state) == Connected && state == Closed ==>
                fdEvent.fd !in eventLoop.registered && fdEvent.events == {}
    {
      hide EventLoop.Valid, CanTask, AfterRead, ReadSeries, DecodeLayout, Buffering.After, Streams.InDomain;
      if state != Connected {
        NotConnectedRead(View(), answers);
        return;
      }
      ghost var v := View();
      var outcome, _ := FillFrom(inBuffer, answers);
      Conclude(outcome, v, answers);
    }

    /** What follows the reading: executing, closing, or nothing when it failed. */
    method Conclude(outcome: ReadOutcome, ghost v: Client, ghost answers: seq<ReadAnswer>)
      requires Valid() && CanTask(v, Readable(answers)) && v.state == Connected
      requires var r := ReadSeries(answers, v.layout.WriteAvailable());
               && outcome == r.outcome
               && View() == v.(layout := Buffering.After(v.layout, MoveWrite(|r.admitted|)), inRest := v.inRest + r.admitted)
      modifies this`state, this`calls, this`readCb, eventLoop, fdEvent`events, inBuffer, inBuffer.buffer
      ensures Valid() && inBuffer.buffer == old(inBuffer.buffer)
      ensures View() == AfterRead(v, answers)
      ensures state == Closed ==> fdEvent.fd !in eventLoop.registered && fdEvent.events == {}
    {
      hide EventLoop.Valid, CanTask, AfterRead, ReadSeries, DecodeLayout, Buffering.After, Deliver;
      hide Streams.InDomain, Streams.Decode;
      if outcome == Paused {
        PausedRead(v, answers);
        Execute();
      } else {
        EndedRead(v, answers);
        if outcome == PeerClosed {
          Quit();
        }
      }
    }

    /** The peer has closed: the fd is given up. */
    method Quit()
      requires Valid()
      modifies this`state, eventLoop, fdEvent`events
      ensures Valid() && View() == old(View()).(state := Closed)
      ensures fdEvent.fd !in eventLoop.registered && fdEvent.events == {}
    {
      hide EventLoop.Valid;
      state := Closed;
      eventLoop.DeleteEpollEvent(fdEvent, true);
      fdEvent.Close();
    }

    /** Runs the callbacks of all complete replies in the input buffer. */
    method Execute()
      requires inBuffer.Valid() && Streams.InDomain(inBuffer.Contents())
      modifies this`calls, this`readCb, inBuffer, inBuffer.buffer
      ensures inBuffer.Valid() && inBuffer.buffer == old(inBuffer.buffer)
      ensures inBuffer.size == old(inBuffer.size) && inBuffer.writeIndex <= old(inBuffer.writeIndex)
      ensures inBuffer.Where() == DecodeLayout(old(inBuffer.Where()), old(inBuffer.Contents()))
      ensures var d := Streams.Decode(old(inBuffer.Contents()));
              && inBuffer.Contents() == d.rest
              && calls == old(calls) + Deliver(old(readCb), d.messages).calls
              && readCb == Deliver(old(readCb), d.messages).waiting
    {
      hide Streams.InDomain, Streams.Decode, Deliver, DecodeLayout;
      ghost var s := inBuffer.Contents();
      var messages := Decode(inBuffer);
      assert Values(messages) == Streams.Decode(s).messages;
      RunReadCallbacks(messages);
    }

    method RunReadCallbacks(messages: seq<TinyPBProtocol>)
      modifies this`calls, this`readCb
      ensures calls == old(calls) + Deliver(old(readCb), Values(messages)).calls
      ensures readCb == Deliver(old(readCb), Values(messages)).waiting
    {
      ghost var vs := Values(messages);
      var i := 0;
      while i < |messages|
        invariant 0 <= i <= |messages| && Values(messages) == vs
        invariant calls == old(calls) + Deliver(old(readCb), vs[..i]).calls
        invariant readCb == Deliver(old(readCb), vs[..i]).waiting
      {
        assert vs[..i + 1][..i] == vs[..i];
        var id := messages[i].msgId;
        if id in readCb {
          calls := calls + [Call(readCb[id], messages[i].Value())];
          readCb := readCb - {id};
        }
        i := i + 1;
      }
      assert vs[..i] == vs;
    }
  }

  /** What is encoded depends on a message only up to its id being filled in. */
  lemma {:induction false} SameEncoding(a: seq<Message>, b: seq<Message>)
    requires |a| == |b| && forall i :: 0 <= i < |a| ==> WithId(a[i]) == WithId(b[i])
    ensures Encoding(a) == Encoding(b) && (AllFit(a) <==> AllFit(b))
  {
    hide Fits, Frame, WithId;
    if a != [] {
      var n := |a| - 1;
      SameEncoding(a[..n], b[..n]);
      assert WithId(a[n]) == WithId(b[n]);
    }
  }

  lemma Encodable(v: Client, answers: seq<WriteAnswer>)
    requires CanTask(v, Writable(answers))
    ensures v.courier.Valid() && AllFit(Contents(v.courier.Queue()))
  {
  }

  /** Every frame has bytes, so what is queued is something to send. */
  lemma QueuedIsPending(v: Client)
    requires v.courier.Valid() && AllFit(Contents(v.courier.Queue())) && v.courier.Queue() != []
    ensures Pending(v) != []
  {
    hide Frame;
    var ms := Contents(v.courier.Queue());
    assert Encoding(ms) == Encoding(ms[..|ms| - 1]) + Wire(ms[|ms| - 1]);
  }

  /** A write of something, written out. */
  lemma WriteResult(v: Client, answers: seq<WriteAnswer>)
    requires v.courier.Valid() && v.state == Connected && Pending(v) != []
    ensures var w := WriteSeries(answers, |Pending(v)|);
            var fails := w.outcome == WriteOutcome.Broken;
            && Fails(v, answers) == fails
            && AfterWrite(v, answers)
               == v.(outRest := Pending(v)[w.taken..], sent := v.sent + Pending(v)[..w.taken],
                     courier := v.courier.Written(fails),
                     calls := v.calls + if fails then [] else CallsFor(v.courier.Queue()))
  {
    hide WriteSeries, Pending;
  }

  lemma NotConnectedRead(v: Client, answers: seq<ReadAnswer>)
    requires CanTask(v, Readable(answers)) && v.state != Connected
    ensures AfterRead(v, answers) == v
  {
  }

  /** A read that pauses, written out. */
  lemma PausedRead(v: Client, answers: seq<ReadAnswer>)
    requires CanTask(v, Readable(answers)) && v.state == Connected
    requires ReadSeries(answers, v.layout.WriteAvailable()).outcome == Paused
    ensures var s := v.inRest + ReadSeries(answers, v.layout.WriteAvailable()).admitted;
            && Streams.InDomain(s)
            && var d := Deliver(v.waiting, Streams.Decode(s).messages);
               AfterRead(v, answers)
               == v.(layout := DecodeLayout(Buffering.After(v.layout, MoveWrite(|s| - |v.inRest|)), s),
                     inRest := Streams.Decode(s).rest, waiting := d.waiting, calls := v.calls + d.calls)
  {
    hide ReadSeries, DecodeLayout, Buffering.After, Streams.Decode, Deliver;
  }

  /** A read that fails or finds the end of the stream delivers nothing. */
  lemma EndedRead(v: Client, answers: seq<ReadAnswer>)
    requires CanTask(v, Readable(answers)) && v.state == Connected
    requires ReadSeries(answers, v.layout.WriteAvailable()).outcome != Paused
    ensures var r := ReadSeries(answers, v.layout.WriteAvailable());
            && r.admitted == [] && Buffering.After(v.layout, MoveWrite(|r.admitted|)) == v.layout
            && v.inRest + r.admitted == v.inRest
            && AfterRead(v, answers) == v.(state := if r.outcome == PeerClosed then Closed else v.state)
  {
    hide ReadSeries, Buffering.After;
    RefusedOrAdmitted(answers, v.layout.WriteAvailable());
    MoveNothing(v.layout);
  }

  /** Any run of a client's tasks, up to the first that the coder has no defined behaviour for. */
  method Use(conn: ClientConnection, tasks: seq<ClientTask>) returns (done: nat)
    requires conn.Valid()
    modifies conn, conn.eventLoop, conn.fdEvent, conn.inBuffer, conn.inBuffer.buffer
    modifies conn.outBuffer, conn.outBuffer.buffer, conn.Objects()
    ensures conn.Valid() && done <= |tasks|
    ensures CanTasks(old(conn.View()), tasks[..done]) && conn.View() == AfterTasks(old(conn.View()), tasks[..done])
    ensures done < |tasks| ==> !CanTask(conn.View(), tasks[done])
  {
    hide CanTasks, AfterTasks, CanTask, AfterRead, AfterWrite;
    done := 0;
    ghost var v := conn.View();
    NoTasks(v);
    while done < |tasks|
      invariant conn.Valid() && done <= |tasks| && conn.inBuffer.buffer == old(conn.inBuffer.buffer)
      invariant conn.outBuffer.buffer == old(conn.outBuffer.buffer) || fresh(conn.outBuffer.buffer)
      invariant fresh((set m | m in conn.Objects()) - (set m | m in old(conn.Objects())))
      invariant CanTasks(v, tasks[..done]) && conn.View() == AfterTasks(v, tasks[..done])
    {
      TasksNext(v, tasks, done);
      var possible := IsDefined(conn, tasks[done]);
      if !possible {
        break;
      }
      Perform(conn, tasks[done]);
      done := done + 1;
    }
  }

  method Perform(conn: ClientConnection, task: ClientTask)
    requires conn.Valid() && CanTask(conn.View(), task)
    modifies conn, conn.eventLoop, conn.fdEvent, conn.inBuffer, conn.inBuffer.buffer
    modifies conn.outBuffer, conn.outBuffer.buffer, conn.Objects()
    ensures conn.Valid() && conn.View() == AfterTask(old(conn.View()), task)
    ensures conn.inBuffer.buffer == old(conn.inBuffer.buffer)
    ensures conn.outBuffer.buffer == old(conn.outBuffer.buffer) || fresh(conn.outBuffer.buffer)
    ensures fresh((set m | m in conn.Objects()) - (set m | m in old(conn.Objects())))
  {
    hide CanTask, AfterRead, AfterWrite, ClientConnection.Armed, ClientConnection.Matches, EventLoop.Valid;
    match task
    case Send(letter) =>
      var m := new TinyPBProtocol();
      Fill(m, letter.message);
      conn.WriteMessage(m, letter.callback);
    case Await(id, callback) => conn.ReadMessage(id, callback);
    case Readable(answers) => conn.OnRead(answers);
    case Writable(answers) => conn.OnWrite(answers);
  }

  method IsDefined(conn: ClientConnection, task: ClientTask) returns (possible: bool)
    requires conn.Valid()
    ensures possible <==> CanTask(conn.View(), task)
  {
    hide ReadSeries, AllFit, WithId, Streams.InDomain, ClientConnection.Armed, EventLoop.Valid;
    match task
    case Writable(_) =>
      var ms := conn.Objects();
      SameEncoding(Values(ms), Contents(conn.courier.Queue()));
      return AllFit(Values(ms));
    case Readable(answers) =>
      if conn.state != Connected {
        return true;
      }
      var r := ReadSeries(answers, conn.inBuffer.WriteAvailable());
      var unread := conn.inBuffer.buffer[conn.inBuffer.readIndex..conn.inBuffer.writeIndex];
      return r.outcome == Paused ==> Streams.InDomain(unread + r.admitted);
    case _ => return true;
  }
}
