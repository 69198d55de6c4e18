/**
 The event loop: its task queue as a machine of interleaved steps, and the class whose methods perform those
 steps and keep the epoll registrations.
 */
module TaskQueue {

  /** Where the loop thread is. */
  datatype Phase = Top | Draining | Waiting | Exited

  /** A queued task, and how many `epoll_wait` calls had returned when it was pushed. */
  datatype Item<T> = Item(task: T, born: nat)

  /**
   `pushed` and `done` record all tasks pushed and dequeued so far; `entered` counts the `epoll_wait` calls
   entered so far; `signals` is the counter of the wakeup eventfd.
   */
  datatype State<T> = State(pending: seq<Item<T>>, batch: seq<Item<T>>, phase: Phase, stop: bool,
                            signals: nat, entered: nat, pushed: seq<T>, done: seq<Item<T>>)

  function Start<T>(): State<T> {
    State([], [], Top, false, 0, 0, [], [])
  }

  /**
   The atomic steps: a producer or a running task pushes, signals the eventfd or asks to stop; the loop thread
   leaves, swaps the queues, dequeues one task of the batch, enters `epoll_wait` or returns from it; the
   wakeup handler reads the eventfd.
   */
  datatype Step<T> =
    | Push(task: T)
    | Signal
    | Stop
    | Leave
    | Swap
    | Dequeue
    | EnterWait
    | ReturnWait
    | ClearSignals

  predicate Can<T>(s: State<T>, step: Step<T>) {
    match step
    case Push(_) => true
    case Signal => true
    case Stop => true
    case Leave => s.phase == Top && s.stop
    case Swap => s.phase == Top && !s.stop
    case Dequeue => s.phase == Draining && s.batch != []
    case EnterWait => s.phase == Draining && s.batch == []
    case ReturnWait => s.phase == Waiting
    case ClearSignals => s.phase == Draining && s.signals > 0
  }

  function Do<T>(s: State<T>, step: Step<T>): State<T>
    requires Can(s, step)
  {
    match step
    case Push(t) =>
      s.(pending := s.pending + [Item(t, if s.phase == Waiting && s.entered > 0 then s.entered - 1 else s.entered)],
         pushed := s.pushed + [t])
    case Signal => s.(signals := s.signals + 1)
    case Stop => s.(stop := true, signals := s.signals + 1)
    case Leave => s.(phase := Exited)
    case Swap => s.(batch := s.pending, pending := [], phase := Draining)
    case Dequeue => s.(batch := s.batch[1..], done := s.done + [s.batch[0]])
    case EnterWait => s.(phase := Waiting, entered := s.entered + 1)
    case ReturnWait => s.(phase := Top)
    case ClearSignals => s.(signals := 0)
  }

  predicate IsRun<T>(s: State<T>, steps: seq<Step<T>>)
    decreases |steps|
  {
    steps == [] || (Can(s, steps[0]) && IsRun(Do(s, steps[0]), steps[1..]))
  }

  function After<T>(s: State<T>, steps: seq<Step<T>>): State<T>
    requires IsRun(s, steps)
    decreases |steps|
  {
    if steps == [] then s else After(Do(s, steps[0]), steps[1..])
  }

  function Tasks<T>(items: seq<Item<T>>): (ts: seq<T>)
    ensures |ts| == |items|
  {
    seq(|items|, i requires 0 <= i < |items| => items[i].task)
  }

  /** How many `epoll_wait` calls the item has lived through, at least in part. */
  function Waits<T>(s: State<T>, item: Item<T>): int {
    s.entered - item.born
  }

  ghost predicate Inv<T>(s: State<T>) {
    && Tasks(s.done) + Tasks(s.batch) + Tasks(s.pending) == s.pushed
    && (s.phase == Waiting ==> s.entered > 0)
    && (s.phase == Top || s.phase == Waiting ==> s.batch == [])
    && (forall x :: x in s.batch ==> 0 <= Waits(s, x) <= 1)
    && (forall x :: x in s.pending ==> 0 <= Waits(s, x) <= 1)
    && (s.phase == Draining ==> forall x :: x in s.pending ==> Waits(s, x) == 0)
    && (forall x :: x in s.done ==> x.born <= s.entered)
  }

  lemma InvStep<T>(s: State<T>, step: Step<T>)
    requires Inv(s) && Can(s, step)
    ensures Inv(Do(s, step))
  {
    var s' := Do(s, step);
    match step
    case Push(t) =>
      assert Tasks(s'.pending) == Tasks(s.pending) + [t];
    case Dequeue =>
      assert Tasks(s'.done) == Tasks(s.done) + [s.batch[0].task];
      assert Tasks(s.batch) == [s.batch[0].task] + Tasks(s'.batch);
      var first := s.batch[0];
      assert first in s.batch;
      forall x | x in s'.batch
        ensures x in s.batch
      {
      }
      forall x | x in s'.done
        ensures x in s.done || x == first
      {
      }
    case _ =>
      assert s.phase == Top ==> Tasks(s.batch) == [];
  }

  lemma {:induction false} InvRun<T>(s: State<T>, steps: seq<Step<T>>)
    requires Inv(s) && IsRun(s, steps)
    ensures Inv(After(s, steps))
    decreases |steps|
  {
    if steps != [] {
      InvStep(s, steps[0]);
      InvRun(Do(s, steps[0]), steps[1..]);
    }
  }

  /**
   In every interleaving: what has been dequeued, what is left of the batch and what is pending are together
   all that was ever pushed, in the order in which it was pushed.
   */
  lemma OrderKept<T>(steps: seq<Step<T>>)
    requires IsRun(Start<T>(), steps)
    ensures var s := After(Start<T>(), steps);
            Tasks(s.done) + Tasks(s.batch) + Tasks(s.pending) == s.pushed
  {
    InvRun(Start<T>(), steps);
  }

  /** In every interleaving: no task still queued has waited through more than one `epoll_wait`. */
  lemma AtMostOneWait<T>(steps: seq<Step<T>>, x: Item<T>)
    requires IsRun(Start<T>(), steps)
    requires x in After(Start<T>(), steps).batch + After(Start<T>(), steps).pending
    ensures 0 <= Waits(After(Start<T>(), steps), x) <= 1
  {
    InvRun(Start<T>(), steps);
  }

  /** A task is handled, and the loop waits for the first time. */
  function FirstTurn<T>(a: T, rest: seq<Step<T>>): seq<Step<T>> {
    [Push(a)] + ([Signal] + ([Swap] + ([Dequeue] + ([EnterWait] + rest))))
  }

  /** The wakeup handler is queued, and a task is pushed and signalled after the queues were swapped for it. */
  function HandlerTurn<T>(handler: T, b: T, rest: seq<Step<T>>): seq<Step<T>> {
    [ReturnWait] + ([Push(handler)] + ([Swap] + ([Push(b)] + ([Signal] + ([Dequeue] + rest)))))
  }

  /** A run in which the wakeup handler swallows the signal of a task pushed after the queues were swapped. */
  function Swallowed<T>(a: T, handler: T, b: T): seq<Step<T>> {
    FirstTurn(a, HandlerTurn(handler, b, [ClearSignals] + ([EnterWait] + [])))
  }

  lemma AfterFirstTurn<T>(a: T, rest: seq<Step<T>>)
    ensures var s := State([], [], Waiting, false, 1, 1, [a], [Item(a, 0)]);
            IsRun(s, rest) ==>
              && IsRun(Start<T>(), FirstTurn(a, rest)) && After(Start<T>(), FirstTurn(a, rest)) == After(s, rest)
  {
    var s1 := Do(Start<T>(), Push(a));
    var s2 := Do(s1, Signal);
    var s3 := Do(s2, Swap);
    var s4 := Do(s3, Dequeue);
    var s5 := Do(s4, EnterWait);
    assert s5 == State([], [], Waiting, false, 1, 1, [a], [Item(a, 0)]);
    hide Can, Do, IsRun, After, Start;
    if IsRun(s5, rest) {
      var r4 := [EnterWait] + rest;
      var r3 := [Dequeue] + r4;
      var r2 := [Swap] + r3;
      var r1 := [Signal] + r2;
      Chain(s4, EnterWait, rest);
      Chain(s3, Dequeue, r4);
      Chain(s2, Swap, r3);
      Chain(s1, Signal, r2);
      Chain(Start<T>(), Push(a), r1);
    }
  }

  lemma AfterHandlerTurn<T>(s: State<T>, handler: T, b: T, rest: seq<Step<T>>) returns (t: State<T>)
    requires s.phase == Waiting && !s.stop && s.pending == [] && s.entered == 1
    ensures t.phase == Draining && t.batch == [] && t.pending == [Item(b, 1)] && t.signals > 0
    ensures IsRun(t, rest) ==>
              && IsRun(s, HandlerTurn(handler, b, rest)) && After(s, HandlerTurn(handler, b, rest)) == After(t, rest)
  {
    var s1 := Do(s, ReturnWait);
    var s2 := Do(s1, Push(handler));
    var s3 := Do(s2, Swap);
    var s4 := Do(s3, Push(b));
    var s5 := Do(s4, Signal);
    t := Do(s5, Dequeue);
    hide Can, Do, IsRun, After;
    if IsRun(t, rest) {
      var r5 := [Dequeue] + rest;
      var r4 := [Signal] + r5;
      var r3 := [Push(b)] + r4;
      var r2 := [Swap] + r3;
      var r1 := [Push(handler)] + r2;
      Chain(s5, Dequeue, rest);
      Chain(s4, Signal, r5);
      Chain(s3, Push(b), r4);
      Chain(s2, Swap, r3);
      Chain(s1, Push(handler), r2);
      Chain(s, ReturnWait, r1);
    }
  }

  lemma AfterClear<T>(s: State<T>)
    requires s.phase == Draining && s.batch == [] && s.signals > 0
    ensures var rest := [ClearSignals] + ([EnterWait] + []);
            IsRun(s, rest) && After(s, rest) == s.(signals := 0, phase := Waiting, entered := s.entered + 1)
  {
    var t := Do(s, ClearSignals);
    EmptyRun(Do(t, EnterWait));
    Chain(t, EnterWait, []);
    Chain(s, ClearSignals, [EnterWait] + []);
  }

  /** The bound is tight: the loop can block in `epoll_wait` with a signalled task pending and no signal left. */
  lemma BlocksWithWorkPending<T>(a: T, handler: T, b: T)
    ensures IsRun(Start<T>(), Swallowed(a, handler, b))
    ensures var s := After(Start<T>(), Swallowed(a, handler, b));
            s.phase == Waiting && s.signals == 0 && Tasks(s.pending) == [b]
  {
    hide IsRun, After, HandlerTurn, FirstTurn;
    var rest := [ClearSignals] + ([EnterWait] + []);
    var s := State([], [], Waiting, false, 1, 1, [a], [Item(a, 0)]);
    var t := AfterHandlerTurn(s, handler, b, rest);
    AfterClear(t);
    AfterFirstTurn(a, HandlerTurn(handler, b, rest));
  }

  /** A task is pending, and nothing is left in the eventfd that would end the wait. */
  ghost predicate SilentWait<T>(s: State<T>) {
    s.phase == Waiting && s.pending != [] && s.signals == 0
  }

  predicate PushedSinceSwap<T>(steps: seq<Step<T>>) {
    steps != [] &&
    (steps[|steps| - 1].Push? || (!steps[|steps| - 1].Swap? && PushedSinceSwap(steps[..|steps| - 1])))
  }

  predicate SignalledSinceClear<T>(steps: seq<Step<T>>) {
    steps != [] &&
    (steps[|steps| - 1].Signal? || steps[|steps| - 1].Stop? ||
     (!steps[|steps| - 1].ClearSignals? && SignalledSinceClear(steps[..|steps| - 1])))
  }

  lemma {:induction false} RunInit<T>(s: State<T>, steps: seq<Step<T>>)
    requires IsRun(s, steps) && steps != []
    ensures var init, last := steps[..|steps| - 1], steps[|steps| - 1];
            IsRun(s, init) && Can(After(s, init), last) && After(s, steps) == Do(After(s, init), last)
    decreases |steps|
  {
    hide Can, Do;
    if |steps| == 1 {
      assert steps[1..] == [] && steps[..0] == [];
    } else {
      RunInit(Do(s, steps[0]), steps[1..]);
      assert steps[1..][..|steps| - 2] == steps[..|steps| - 1][1..];
    }
  }

  /** What is pending and what is signalled, told from the steps alone. */
  lemma {:induction false} QueueAndSignals<T>(steps: seq<Step<T>>)
    requires IsRun(Start<T>(), steps)
    ensures var s := After(Start<T>(), steps);
            (s.pending != [] <==> PushedSinceSwap(steps)) && (s.signals > 0 <==> SignalledSinceClear(steps))
  {
    hide IsRun, After;
    if steps == [] {
      EmptyRun(Start<T>());
    } else {
      RunInit(Start<T>(), steps);
      QueueAndSignals(steps[..|steps| - 1]);
    }
  }

  lemma EmptyRun<T>(s: State<T>)
    ensures IsRun(s, []) && After(s, []) == s
  {
  }

  /**
   Over every run a waiting loop has a task pending and no signal left if and only if a task was pushed after the
   queues were last swapped, and nothing was signalled after the eventfd was last cleared.
   */
  lemma SilentWaitExactlyWhen<T>(steps: seq<Step<T>>)
    requires IsRun(Start<T>(), steps)
    ensures SilentWait(After(Start<T>(), steps))
       <==> After(Start<T>(), steps).phase == Waiting && PushedSinceSwap(steps) && !SignalledSinceClear(steps)
  {
    hide IsRun, After, PushedSinceSwap, SignalledSinceClear;
    QueueAndSignals(steps);
  }

  /** So a task once signalled never meets a silent wait unless the eventfd is cleared after its signal. */
  lemma SilentWaitNeedsClear<T>(steps: seq<Step<T>>, i: nat) returns (j: nat)
    requires IsRun(Start<T>(), steps) && SilentWait(After(Start<T>(), steps))
    requires i < |steps| && steps[i].Signal?
    ensures i < j < |steps| && steps[j].ClearSignals?
  {
    hide IsRun, After, PushedSinceSwap, SignalledSinceClear;
    SilentWaitExactlyWhen(steps);
    j := ClearAfter(steps, i);
  }

  lemma {:induction false} ClearAfter<T>(steps: seq<Step<T>>, i: nat) returns (j: nat)
    requires i < |steps| && steps[i].Signal? && !SignalledSinceClear(steps)
    ensures i < j < |steps| && steps[j].ClearSignals?
  {
    j := |steps| - 1;
    if !steps[j].ClearSignals? {
      j := ClearAfter(steps[..j], i);
    }
  }

  lemma Chain<T>(s: State<T>, step: Step<T>, rest: seq<Step<T>>)
    requires Can(s, step) && IsRun(Do(s, step), rest)
    ensures IsRun(s, [step] + rest) && After(s, [step] + rest) == After(Do(s, step), rest)
  {
    hide Can, Do;
    assert ([step] + rest)[1..] == rest;
  }
}

/** The loop object: the same steps carried out on its fields, and the fds it has registered with epoll. */
module Reactor {
  import opened TaskQueue

  datatype Trigger = In | Out

  /** An fd with the events it wants and the callbacks it has for them. */
  class FdEvent {
    const fd: int
    var events: set<Trigger>
    var callbacks: set<Trigger>

    constructor (fd: int)
      ensures this.fd == fd && events == {} && callbacks == {}
    {
      this.fd := fd;
      events, callbacks := {}, {};
    }

    method Listen(t: Trigger)
      modifies this
      ensures events == old(events) + {t} && callbacks == old(callbacks) + {t}
    {
      events := events + {t};
      callbacks := callbacks + {t};
    }

    method ClearEvent(t: Trigger)
      modifies this
      ensures events == old(events) - {t} && callbacks == old(callbacks) - {t}
    {
      events := events - {t};
      callbacks := callbacks - {t};
    }

    /** `getHandler`, which is empty when the callback has been cleared. */
    function Handler(t: Trigger): Task
      reads this
    {
      if t in callbacks then Handle(this, t) else Empty
    }

    method Close()
      modifies this`events
      ensures events == {}
    {
      events := {};
    }
  }

  /** The closures that reach the task queue. */
  datatype Task =
    | Empty
    | Closure(id: nat)
    | Handle(event: FdEvent, trigger: Trigger)
    | AddFd(event: FdEvent)
    | DeleteFd(event: FdEvent)
    | ReadWakeup

  /** What `epoll_wait` reports for one fd. */
  datatype Ready = Ready(event: FdEvent, triggers: set<Trigger>)

  /** What other threads and the kernel do during one turn of the loop. */
  datatype Turn = Turn(pushes: seq<seq<Task>>, waiting: seq<Task>, ready: seq<Ready>, stop: bool)

  class EventLoop {
    var pendingTasks: seq<Task>
    var tasks: seq<Task>
    var stopFlag: bool
    /** The fds the loop believes to be registered, and the kernel's own registrations. */
    var listenFds: set<int>
    var registered: map<int, set<Trigger>>
    var wakeups: nat
    ghost var queue: State<Task>

    ghost predicate Valid()
      reads this
    {
      && Inv(queue)
      && Tasks(queue.pending) == pendingTasks && Tasks(queue.batch) == tasks
      && queue.stop == stopFlag && queue.signals == wakeups
      && listenFds == registered.Keys
    }

    constructor ()
      ensures Valid() && queue == Start() && pendingTasks == [] && registered == map[]
    {
      pendingTasks, tasks, stopFlag, listenFds, registered, wakeups := [], [], false, {}, map[], 0;
      queue := Start();
    }

    /** `epoll_ctl` succeeds when an fd is added that is not registered or one is modified that is. */
    method EpollCtl(add: bool, fd: int, events: set<Trigger>)
      requires add <==> fd !in registered
      modifies this`registered
      ensures registered == old(registered)[fd := events]
    {
      registered := registered[fd := events];
    }

    method AddToEpoll(event: FdEvent)
      requires Valid()
      modifies this`listenFds, this`registered
      ensures Valid() && registered == old(registered)[event.fd := event.events]
    {
      var add := event.fd !in listenFds;
      if add {
        listenFds := listenFds + {event.fd};
      }
      EpollCtl(add, event.fd, event.events);
    }

    method DeleteFromEpoll(event: FdEvent)
      requires Valid()
      modifies this`listenFds, this`registered
      ensures Valid() && registered == old(registered) - {event.fd}
    {
      if event.fd in listenFds {
        registered := registered - {event.fd};
        listenFds := listenFds - {event.fd};
      }
    }

    /** Registers the current events of an fd, or has the loop thread do it when called from another thread. */
    method AddEpollEvent(event: FdEvent, inLoopThread: bool)
      requires Valid()
      modifies this
      ensures Valid()
      ensures inLoopThread ==>
                registered == old(registered)[event.fd := event.events]
                && queue == old(queue) && pendingTasks == old(pendingTasks) && tasks == old(tasks)
      ensures !inLoopThread ==>
                registered == old(registered) && queue == Do(Do(old(queue), Push(AddFd(event))), Signal)
                && pendingTasks == old(pendingTasks) + [AddFd(event)] && tasks == old(tasks)
                && wakeups == old(wakeups) + 1
    {
      if inLoopThread {
        AddToEpoll(event);
      } else {
        AddTask(AddFd(event), true);
      }
    }

    method DeleteEpollEvent(event: FdEvent, inLoopThread: bool)
      requires Valid()
      modifies this
      ensures Valid()
      ensures inLoopThread ==>
                registered == old(registered) - {event.fd}
                && queue == old(queue) && pendingTasks == old(pendingTasks) && tasks == old(tasks)
      ensures !inLoopThread ==>
                registered == old(registered) && queue == Do(Do(old(queue), Push(DeleteFd(event))), Signal)
                && pendingTasks == old(pendingTasks) + [DeleteFd(event)] && tasks == old(tasks)
                && wakeups == old(wakeups) + 1
    {
      if inLoopThread {
        DeleteFromEpoll(event);
      } else {
        AddTask(DeleteFd(event), true);
      }
    }

    method AddTask(cb: Task, isWakeup: bool)
      requires Valid()
      modifies this
      ensures Valid() && pendingTasks == old(pendingTasks) + [cb] && tasks == old(tasks)
      ensures registered == old(registered) && stopFlag == old(stopFlag)
      ensures queue == (if isWakeup then Do(Do(old(queue), Push(cb)), Signal) else Do(old(queue), Push(cb)))
      ensures wakeups == old(wakeups) + if isWakeup then 1 else 0
    {
      InvStep(queue, Push(cb));
      queue := Do(queue, Push(cb));
      pendingTasks := pendingTasks + [cb];
      if isWakeup {
        InvStep(queue, Signal);
        queue := Do(queue, Signal);
        wakeups := wakeups + 1;
      }
    }

    method Stop()
      requires Valid()
      modifies this
      ensures Valid() && stopFlag && queue == Do(old(queue), TaskQueue.Stop)
      ensures pendingTasks == old(pendingTasks) && tasks == old(tasks) && registered == old(registered)
      ensures wakeups == old(wakeups) + 1
    {
      InvStep(queue, TaskQueue.Stop);
      queue := Do(queue, TaskQueue.Stop);
      stopFlag := true;
      wakeups := wakeups + 1;
    }

    /** Takes the front task of the batch and runs it when it is one of the loop's own. */
    method RunFront() returns (t: Task)
      requires Valid() && queue.phase == Draining && tasks != []
      modifies this
      ensures Valid() && t == old(tasks)[0] && tasks == old(tasks)[1..] && pendingTasks == old(pendingTasks)
      ensures queue.phase == Draining && Tasks(queue.done) == Tasks(old(queue).done) + [t]
      ensures registered == (match t
                             case AddFd(e) => old(registered)[e.fd := e.events]
                             case DeleteFd(e) => old(registered) - {e.fd}
                             case _ => old(registered))
      ensures stopFlag == old(stopFlag) && wakeups == if t.ReadWakeup? then 0 else old(wakeups)
    {
      t := tasks[0];
      ghost var before := queue;
      InvStep(queue, Dequeue);
      queue := Do(queue, Dequeue);
      tasks := tasks[1..];
      assert queue.done == before.done + [before.batch[0]];
      if t.AddFd? {
        AddToEpoll(t.event);
      } else if t.DeleteFd? {
        DeleteFromEpoll(t.event);
      } else if t.ReadWakeup? && wakeups > 0 {
        InvStep(queue, ClearSignals);
        queue := Do(queue, ClearSignals);
        wakeups := 0;
      }
    }

    /** The handlers queued for what `epoll_wait` reports: a readable fd is read first, a writable one waits. */
    method QueueReady(ready: seq<Ready>)
      requires Valid()
      modifies this
      ensures Valid() && pendingTasks == old(pendingTasks) + Handlers(ready) && tasks == old(tasks)
      ensures registered == old(registered) && stopFlag == old(stopFlag)
      ensures queue.phase == old(queue.phase) && queue.done == old(queue.done)
      ensures queue.pushed == old(queue.pushed) + Handlers(ready)
      ensures Reported(ready, pendingTasks[|old(pendingTasks)|..])
    {
      hide Inv, EventLoop.Valid, Flat, Reported;
      ghost var each := HandlersOfEach(ready);
      NothingFlat();
      assert each[..0] == [];
      var i := 0;
      while i < |ready|
        invariant 0 <= i <= |ready|
        invariant Valid() && pendingTasks == old(pendingTasks) + Flat(each[..i]) && tasks == old(tasks)
        invariant registered == old(registered) && stopFlag == old(stopFlag)
        invariant queue.phase == old(queue.phase) && queue.done == old(queue.done)
        invariant queue.pushed == old(queue.pushed) + Flat(each[..i])
      {
        FlatPrefix(each, i);
        assert HandlerOf(ready[i]) == each[i];
        QueueOne(ready[i]);
        i := i + 1;
      }
      assert each[..i] == each;
      assert pendingTasks[|old(pendingTasks)|..] == Handlers(ready);
      HandlersReported(ready);
    }

    method QueueOne(r: Ready)
      requires Valid()
      modifies this
      ensures Valid() && pendingTasks == old(pendingTasks) + HandlerOf(r) && tasks == old(tasks)
      ensures registered == old(registered) && stopFlag == old(stopFlag)
      ensures queue.phase == old(queue.phase) && queue.done == old(queue.done)
      ensures queue.pushed == old(queue.pushed) + HandlerOf(r)
      ensures In in r.triggers ==>
                pendingTasks == old(pendingTasks) + [if In in r.event.callbacks then Handle(r.event, In) else Empty]
      ensures In !in r.triggers && Out in r.triggers ==>
                pendingTasks == old(pendingTasks) + [if Out in r.event.callbacks then Handle(r.event, Out) else Empty]
      ensures r.triggers == {} ==> pendingTasks == old(pendingTasks)
    {
      if In in r.triggers {
        AddTask(r.event.Handler(In), false);
      } else if Out in r.triggers {
        AddTask(r.event.Handler(Out), false);
      }
    }

    /** Tasks pushed by other threads, each with a wakeup. */
    method PushAll(ts: seq<Task>)
      requires Valid()
      modifies this
      ensures Valid() && pendingTasks == old(pendingTasks) + ts && tasks == old(tasks)
      ensures registered == old(registered) && stopFlag == old(stopFlag)
      ensures queue.phase == old(queue.phase) && queue.done == old(queue.done)
      ensures queue.pushed == old(queue.pushed) + ts
    {
      var i := 0;
      while i < |ts|
        invariant 0 <= i <= |ts|
        invariant Valid() && pendingTasks == old(pendingTasks) + ts[..i] && tasks == old(tasks)
        invariant registered == old(registered) && stopFlag == old(stopFlag)
        invariant queue.phase == old(queue.phase) && queue.done == old(queue.done)
        invariant queue.pushed == old(queue.pushed) + ts[..i]
      {
        AddTask(ts[i], true);
        i := i + 1;
      }
    }

    /** Swaps the pending queue for the empty batch. */
    method SwapTasks()
      requires Valid() && queue.phase == Top && !stopFlag
      modifies this
      ensures Valid() && tasks == old(pendingTasks) && pendingTasks == []
      ensures queue.phase == Draining && queue.done == old(queue.done) && queue.pushed == old(queue.pushed)
      ensures registered == old(registered) && stopFlag == old(stopFlag)
    {
      InvStep(queue, Swap);
      queue := Do(queue, Swap);
      tasks, pendingTasks := pendingTasks, [];
    }

    /** Waits once: other threads push `waiting` and may ask to stop, `ready` is what the kernel reports. */
    method Wait(waiting: seq<Task>, ready: seq<Ready>, stop: bool)
      requires Valid() && queue.phase == Draining && tasks == []
      modifies this
      ensures Valid() && tasks == [] && pendingTasks == old(pendingTasks) + waiting + Handlers(ready)
      ensures queue.phase == Top && queue.done == old(queue.done)
      ensures queue.pushed == old(queue.pushed) + waiting + Handlers(ready)
      ensures stopFlag == (old(stopFlag) || stop)
    {
      InvStep(queue, EnterWait);
      queue := Do(queue, EnterWait);
      PushAll(waiting);
      if stop {
        this.Stop();
      }
      InvStep(queue, ReturnWait);
      queue := Do(queue, ReturnWait);
      QueueReady(ready);
    }

    /**
     One turn of the loop, with other threads pushing before each task is taken. It runs exactly the tasks
     that were pending when it began, in order, and leaves those that were pushed meanwhile, in order.
     */
    method Iterate(turn: Turn)
      requires Valid() && queue.phase == Top && !stopFlag
      modifies this
      ensures Valid() && queue.phase == Top && tasks == []
      ensures Tasks(queue.done) == old(Tasks(queue.done)) + old(pendingTasks)
      ensures pendingTasks == Left(old(pendingTasks), PushesOf(turn))
      ensures stopFlag == turn.stop
      ensures exists k :: 0 <= k <= |pendingTasks| && Reported(turn.ready, pendingTasks[k..])
      ensures forall r :: r in turn.ready && In in r.triggers && In in r.event.callbacks ==>
                Handle(r.event, In) in pendingTasks
      ensures forall r :: r in turn.ready && In !in r.triggers && Out in r.triggers && Out in r.event.callbacks ==>
                Handle(r.event, Out) in pendingTasks
      ensures forall t :: t in turn.waiting ==> t in pendingTasks
      ensures forall i, t :: 0 <= i < |turn.pushes| && i < |old(pendingTasks)| && t in turn.pushes[i] ==> t in pendingTasks
    {
      hide Inv, Reported;
      ghost var start, doneBefore := pendingTasks, Tasks(queue.done);
      SwapTasks();
      var i := 0;
      while tasks != []
        invariant Valid() && queue.phase == Draining && 0 <= i <= |start| && tasks == start[i..]
        invariant Tasks(queue.done) == doneBefore + start[..i]
        invariant pendingTasks == Flat(turn.pushes[..if |turn.pushes| < i then |turn.pushes| else i])
        invariant !stopFlag
        decreases |tasks|
      {
        if i < |turn.pushes| {
          FlatPrefix(turn.pushes, i);
          PushAll(turn.pushes[i]);
        }
        var _ := RunFront();
        i := i + 1;
      }
      assert start[..i] == start;
      Wait(turn.waiting, turn.ready, turn.stop);
      LeftHolds(start, turn);
    }

    /** One of a series of turns, which leaves the events that later ones report as they are. */
    method TakeTurn(turns: seq<Turn>, i: nat, ghost all: seq<Pushed>)
      requires Valid() && queue.phase == Top && !stopFlag && i < |turns| && all == Pushes(turns)
      modifies this
      ensures Valid() && queue.phase == Top && all == Pushes(turns) && stopFlag == turns[i].stop
      ensures Tasks(queue.done) == old(Tasks(queue.done)) + old(pendingTasks)
      ensures pendingTasks == Left(old(pendingTasks), all[i])
    {
      hide Inv, Left;
      Iterate(turns[i]);
      SamePushes(turns);
    }

    /**
     The loop: it takes its turns until it is told to stop. It has run, in order, all that was pending when it began
     and all that each turn but the last left, and leaves what the last turn left.
     */
    method Loop(turns: seq<Turn>) returns (taken: nat)
      requires Valid() && queue.phase == Top
      modifies this
      ensures Valid() && queue.phase == Top && taken <= |turns| && (taken < |turns| ==> stopFlag)
      ensures forall k :: 0 <= k < taken - 1 ==> !turns[k].stop
      ensures stopFlag == (old(stopFlag) || (taken > 0 && turns[taken - 1].stop))
      ensures Tasks(queue.done) == old(Tasks(queue.done)) + RanBy(old(pendingTasks), Pushes(turns)[..taken])
      ensures pendingTasks == LeftBy(old(pendingTasks), Pushes(turns)[..taken])
    {
      hide Inv, RanBy, LeftBy, Left, Pushes, EventLoop.Valid, Tasks, PushesOf;
      taken := 0;
      ghost var all := Pushes(turns);
      NoTurns(pendingTasks);
      while taken < |turns| && !stopFlag
        invariant Valid() && queue.phase == Top && 0 <= taken <= |turns| && Pushes(turns) == all
        invariant forall k :: 0 <= k < taken - 1 ==> !turns[k].stop
        invariant stopFlag == (old(stopFlag) || (taken > 0 && turns[taken - 1].stop))
        invariant Tasks(queue.done) == old(Tasks(queue.done)) + RanBy(old(pendingTasks), all[..taken])
        invariant pendingTasks == LeftBy(old(pendingTasks), all[..taken])
      {
        TurnTaken(old(pendingTasks), all, taken);
        TakeTurn(turns, taken, all);
        taken := taken + 1;
      }
    }
  }

  /** The tasks pushed in a turn: before each task that is taken, while waiting, and for what the wait reports. */
  datatype Pushed = Pushed(draining: seq<seq<Task>>, waiting: seq<Task>, handlers: seq<Task>)

  function PushesOf(turn: Turn): Pushed
    reads set r | r in turn.ready :: r.event
  {
    Pushed(turn.pushes, turn.waiting, Handlers(turn.ready))
  }

  function Pushes(turns: seq<Turn>): (p: seq<Pushed>)
    reads Events(turns)
    ensures |p| == |turns| && forall k :: 0 <= k < |turns| ==> p[k] == PushesOf(turns[k])
  {
    seq(|turns|, k requires 0 <= k < |turns| reads Events(turns) => PushesOf(turns[k]))
  }

  /** What is pushed depends on nothing but the events reported. */
  twostate lemma SamePushes(turns: seq<Turn>)
    requires forall t, r :: t in turns && r in t.ready ==> unchanged(r.event)
    ensures Pushes(turns) == old(Pushes(turns))
  {
    forall k | 0 <= k < |turns| ensures PushesOf(turns[k]) == old(PushesOf(turns[k])) {
      SameHandlers(turns[k].ready);
    }
  }

  twostate lemma SameHandlers(ready: seq<Ready>)
    requires forall r :: r in ready ==> unchanged(r.event)
    ensures Handlers(ready) == old(Handlers(ready))
  {
    assert forall i :: 0 <= i < |ready| ==> ready[i] in ready;
    assert forall i :: 0 <= i < |ready| ==> HandlerOf(ready[i]) == old(HandlerOf(ready[i]));
    assert HandlersOfEach(ready) == old(HandlersOfEach(ready));
  }

  /** What a turn that begins with `pending` leaves. */
  function Left(pending: seq<Task>, p: Pushed): seq<Task> {
    Flat(p.draining[..if |p.draining| < |pending| then |p.draining| else |pending|]) + p.waiting + p.handlers
  }

  /** What a turn leaves holds all that was pushed in it, and at its end the handlers of what the wait reported. */
  lemma LeftHolds(pending: seq<Task>, turn: Turn)
    ensures var left := Left(pending, PushesOf(turn));
            && (exists k :: 0 <= k <= |left| && Reported(turn.ready, left[k..]))
            && (forall r :: r in turn.ready && In in r.triggers && In in r.event.callbacks ==>
                  Handle(r.event, In) in left)
            && (forall r :: r in turn.ready && In !in r.triggers && Out in r.triggers && Out in r.event.callbacks ==>
                  Handle(r.event, Out) in left)
            && (forall t :: t in turn.waiting ==> t in left)
            && (forall i, t :: 0 <= i < |turn.pushes| && i < |pending| && t in turn.pushes[i] ==> t in left)
  {
    hide Reported, Flat, HandlersOfEach;
    var left, h := Left(pending, PushesOf(turn)), Handlers(turn.ready);
    assert left[|left| - |h|..] == h;
    HandlersReported(turn.ready);
    forall r | r in turn.ready && (In in r.triggers || Out in r.triggers)
      ensures (if In in r.triggers then if In in r.event.callbacks then Handle(r.event, In) else Empty
               else if Out in r.event.callbacks then Handle(r.event, Out) else Empty) in h
    {
      ReportedMember(turn.ready, h, r);
    }
    var n := if |turn.pushes| < |pending| then |turn.pushes| else |pending|;
    forall i, t | 0 <= i < |turn.pushes| && i < |pending| && t in turn.pushes[i] ensures t in left {
      assert turn.pushes[..n][i] == turn.pushes[i];
      FlatMember(turn.pushes[..n], i, t);
    }
  }

  lemma {:induction false} FlatMember(ts: seq<seq<Task>>, i: nat, t: Task)
    requires i < |ts| && t in ts[i]
    ensures t in Flat(ts)
  {
    if i < |ts| - 1 {
      FlatMember(ts[..|ts| - 1], i, t);
    }
  }

  function LeftBy(pending: seq<Task>, turns: seq<Pushed>): seq<Task> {
    if turns == [] then pending else Left(LeftBy(pending, turns[..|turns| - 1]), turns[|turns| - 1])
  }

  /** The tasks run by a series of turns. */
  function RanBy(pending: seq<Task>, turns: seq<Pushed>): seq<Task> {
    if turns == [] then []
    else RanBy(pending, turns[..|turns| - 1]) + LeftBy(pending, turns[..|turns| - 1])
  }

  lemma NoTurns(pending: seq<Task>)
    ensures RanBy(pending, []) == [] && LeftBy(pending, []) == pending
  {
  }

  lemma TurnTaken(pending: seq<Task>, turns: seq<Pushed>, i: nat)
    requires i < |turns|
    ensures RanBy(pending, turns[..i + 1]) == RanBy(pending, turns[..i]) + LeftBy(pending, turns[..i])
    ensures LeftBy(pending, turns[..i + 1]) == Left(LeftBy(pending, turns[..i]), turns[i])
  {
    assert turns[..i + 1][..i] == turns[..i];
  }

  function Events(turns: seq<Turn>): set<FdEvent> {
    set t, r | t in turns && r in t.ready :: r.event
  }

  function HandlerOf(r: Ready): seq<Task>
    reads r.event
  {
    if In in r.triggers then [r.event.Handler(In)]
    else if Out in r.triggers then [r.event.Handler(Out)]
    else []
  }

  /**
   The tasks queued for a report: for a readable fd its reading callback, for one that is only writable its writing
   callback, an empty task where there is no such callback, and nothing for any other fd, in the order of the report.
   */
  predicate Reported(ready: seq<Ready>, queued: seq<Task>)
    reads set r | r in ready :: r.event
  {
    if ready == [] then queued == []
    else
      var r, rest := ready[0], ready[1..];
      if In in r.triggers then
        && queued != [] && Reported(rest, queued[1..])
        && queued[0] == if In in r.event.callbacks then Handle(r.event, In) else Empty
      else if Out in r.triggers then
        && queued != [] && Reported(rest, queued[1..])
        && queued[0] == if Out in r.event.callbacks then Handle(r.event, Out) else Empty
      else Reported(rest, queued)
  }

  lemma {:induction false} ReportedMember(ready: seq<Ready>, queued: seq<Task>, r: Ready)
    requires r in ready && Reported(ready, queued) && (In in r.triggers || Out in r.triggers)
    ensures (if In in r.triggers then if In in r.event.callbacks then Handle(r.event, In) else Empty
             else if Out in r.event.callbacks then Handle(r.event, Out) else Empty) in queued
  {
    var s := ready[0];
    if s != r {
      assert r in ready[1..];
      ReportedMember(ready[1..], if In in s.triggers || Out in s.triggers then queued[1..] else queued, r);
    }
  }

  lemma {:induction false} HandlersReported(ready: seq<Ready>)
    ensures Reported(ready, Handlers(ready))
  {
    hide Flat;
    if ready == [] {
      NothingFlat();
      assert HandlersOfEach(ready) == [];
    } else {
      HandlersReported(ready[1..]);
      assert HandlersOfEach(ready) == [HandlerOf(ready[0])] + HandlersOfEach(ready[1..]);
      FlatFirst(HandlersOfEach(ready));
      assert HandlersOfEach(ready)[1..] == HandlersOfEach(ready[1..]);
      var h := HandlerOf(ready[0]);
      assert (h + Handlers(ready[1..]))[|h|..] == Handlers(ready[1..]);
    }
  }

  lemma {:induction false} FlatFirst(ts: seq<seq<Task>>)
    requires ts != []
    ensures Flat(ts) == ts[0] + Flat(ts[1..])
  {
    var n := |ts| - 1;
    if n > 0 {
      FlatFirst(ts[..n]);
      assert ts[..n][1..] == ts[1..][..n - 1];
    } else {
      assert ts[..0] == [] && ts[1..] == [];
    }
  }

  function HandlersOfEach(ready: seq<Ready>): (r: seq<seq<Task>>)
    reads set r | r in ready :: r.event
    ensures |r| == |ready| && forall i :: 0 <= i < |ready| ==> r[i] == HandlerOf(ready[i])
  {
    seq(|ready|, i requires 0 <= i < |ready| reads set r | r in ready :: r.event => HandlerOf(ready[i]))
  }

  /** The handlers for a report of `epoll_wait`, in its order. */
  function Handlers(ready: seq<Ready>): seq<Task>
    reads set r | r in ready :: r.event
  {
    Flat(HandlersOfEach(ready))
  }

  function Flat(ts: seq<seq<Task>>): seq<Task> {
    if ts == [] then [] else Flat(ts[..|ts| - 1]) + ts[|ts| - 1]
  }

  lemma NothingFlat()
    ensures Flat([]) == []
  {
  }

  lemma FlatPrefix(ts: seq<seq<Task>>, i: nat)
    requires i < |ts|
    ensures Flat(ts[..i + 1]) == Flat(ts[..i]) + ts[i]
  {
    assert ts[..i + 1][..i] == ts[..i];
  }
}
