/**
 The timer and its events as objects. The list of pending entries is the multimap, the smallest arrival first; the
 ghost state is the bag of deadlines, and every method takes it one or more steps further. Clock readings are
 parameters.
 */
module Timers {
  import opened TimerSpec
  import opened TimerMachine
  import opened TimerHistory
  import opened TimerBatch

  class TimerEvent {
    var arriveTime: int
    const interval: int
    const isRepeat: bool
    var isCanceled: bool
    /** Whether the task is still there to be called. */
    var hasTask: bool

    function Value(): Event
      reads this
    {
      Event(arriveTime, interval, isRepeat, isCanceled, hasTask)
    }

    constructor (interval: int, isRepeat: bool, hasTask: bool, now: int)
      ensures Value() == Event(now + interval, interval, isRepeat, false, hasTask)
    {
      this.interval, this.isRepeat, this.hasTask := interval, isRepeat, hasTask;
      isCanceled := false;
      arriveTime := now + interval;
    }

    method SetCanceled(value: bool)
      modifies this
      ensures Value() == old(Value()).(canceled := value, task := false)
    {
      isCanceled := value;
      hasTask := false;
    }

    method ResetArriveTime(now: int)
      modifies this
      ensures Value() == old(Value()).(arrive := now + interval)
    {
      arriveTime := now + interval;
    }
  }

  // ---- The sorted list against the bag ----

  /** The first entry of the list has the least key of the bag. */
  lemma HeadIsLeast<E>(bag: seq<Entry<E>>)
    ensures |Sort(bag)| == |bag|
    ensures bag != [] ==> Sort(bag)[0].key == MinKey(bag)
  {
    SortSorted(bag);
    if bag != [] {
      MinKeyIsLeast(bag);
      var s := Sort(bag);
      var i :| 0 <= i < |bag| && MinKey(bag) == bag[i].key;
      assert bag[i] in multiset(s) && s[0] in multiset(bag);
      assert s[0] in bag && bag[i] in s;
    }
  }

  lemma {:induction false} WithoutInsert<E>(s: seq<Entry<E>>, y: Entry<E>, x: Entry<E>)
    requires Sorted(s) && x in s
    ensures Without(Insert(s, y), x) == Insert(Without(s, x), y)
  {
    if y.key < s[0].key {
      assert ([y] + s)[1..] == s;
    } else {
      assert s == [s[0]] + s[1..];
      assert ([s[0]] + Insert(s[1..], y))[1..] == Insert(s[1..], y);
      if s[0] != x {
        WithoutInsert(s[1..], y, x);
        assert ([s[0]] + Without(s[1..], x))[1..] == Without(s[1..], x);
      }
    }
  }

  lemma {:induction false} WithoutInserted<E>(s: seq<Entry<E>>, x: Entry<E>)
    requires x !in s
    ensures Without(Insert(s, x), x) == s
  {
    if s == [] || x.key < s[0].key {
      assert ([x] + s)[1..] == s;
    } else {
      WithoutInserted(s[1..], x);
      assert s == [s[0]] + s[1..];
      assert ([s[0]] + Insert(s[1..], x))[1..] == Insert(s[1..], x);
    }
  }

  lemma {:induction false} WithoutSnoc<T>(s: seq<T>, x: T, y: T)
    ensures Without(s + [y], x) == if x in s then Without(s, x) + [y] else if x == y then s else s + [y]
  {
    if s == [] {
      assert [y][1..] == [];
    } else {
      assert (s + [y])[1..] == s[1..] + [y];
      WithoutSnoc(s[1..], x, y);
      assert s == [s[0]] + s[1..];
    }
  }

  /** Erasing an entry from the list erases its oldest copy from the bag. */
  lemma {:induction false} SortWithout<E>(bag: seq<Entry<E>>, x: Entry<E>)
    ensures Sort(Without(bag, x)) == Without(Sort(bag), x)
  {
    if bag != [] {
      var init, y := bag[..|bag| - 1], bag[|bag| - 1];
      assert bag == init + [y];
      SortSorted(init);
      assert x in init <==> x in Sort(init) by {
        assert x in init <==> x in multiset(init);
        assert x in Sort(init) <==> x in multiset(Sort(init));
      }
      SortWithout(init, x);
      WithoutSnoc(init, x, y);
      if x in init {
        WithoutInsert(Sort(init), y, x);
        SortSnoc(Without(init, x), y);
      } else if x == y {
        WithoutInserted(Sort(init), x);
      } else {
        WithoutNothing(bag, x);
        SortSorted(bag);
        assert x !in multiset(bag);
        WithoutNothing(Sort(bag), x);
      }
    }
  }

  lemma {:induction false} WithoutAt<T>(s: seq<T>, x: T, i: nat)
    requires i < |s| && s[i] == x && x !in s[..i]
    ensures Without(s, x) == s[..i] + s[i + 1..]
  {
    if i > 0 {
      assert s[..i] == [s[0]] + s[1..][..i - 1];
      WithoutAt(s[1..], x, i - 1);
    }
  }

  // ---- What is called from outside ----

  /** The calls that tasks and other threads make. */
  predicate IsCall<E>(step: Step<E>) {
    step.Add? || step.Delete? || step.Cancel?
  }

  ghost predicate Closed<E>(s: State<E>) {
    && (forall i :: 0 <= i < |s.bag| ==> s.bag[i].event in s.events)
    && (!s.mode.Idle? ==> forall i :: 0 <= i < |s.mode.batch| ==> s.mode.batch[i] in s.events)
  }

  lemma WithoutClosed<E>(s: State<E>, x: Entry<E>)
    requires Closed(s)
    ensures Closed(s.(bag := Without(s.bag, x)))
  {
    var rest := Without(s.bag, x);
    forall i | 0 <= i < |rest| ensures rest[i].event in s.events {
      WithoutSubset(s.bag, x, rest[i]);
    }
  }

  /** Whatever is called, a batch in progress is not disturbed. */
  lemma CallKeeps<E>(s: State<E>, call: Step<E>)
    requires IsCall(call) && Can(s, call)
    ensures Do(s, call).mode == s.mode && Do(s, call).ran == s.ran && Do(s, call).events.Keys == s.events.Keys
  {
    hide Put, Remove;
    match call
    case Add(e, now) => PutKeeps(s, e, now);
    case Delete(e, now) => RemoveKeeps(SetCanceled(s, e, true), e, now);
    case Cancel(_, _) =>
  }

  // ---- The steps of one call of `onTimer` ----

  /** The steps by which the first `n` events of the batch are put back; `clock` gives the readings at each. */
  function RefileSteps<E>(clock: nat -> (int, int), n: nat): seq<Step<E>> {
    if n == 0 then [] else RefileSteps(clock, n - 1) + [Refile(clock(n - 1).0, clock(n - 1).1)]
  }

  /** The turns of the batch: where a task ran, its calls follow. */
  function TurnSteps<E>(tasks: nat -> seq<Step<E>>, ran: seq<bool>): seq<Step<E>> {
    if ran == [] then []
    else
      var n := |ran| - 1;
      TurnSteps(tasks, ran[..n]) + [Fire] + if ran[n] then tasks(n) else []
  }

  /** The events whose tasks ran. */
  function Picked<E>(batch: seq<E>, ran: seq<bool>): seq<E>
    requires |ran| <= |batch|
  {
    if ran == [] then []
    else
      var n := |ran| - 1;
      Picked(batch, ran[..n]) + if ran[n] then [batch[n]] else []
  }

  ghost predicate Reaches<E>(s: State<E>, steps: seq<Step<E>>, t: State<E>) {
    IsRun(s, steps) && t == After(s, steps)
  }

  lemma ReachesStep<E>(s: State<E>, steps: seq<Step<E>>, t: State<E>, step: Step<E>)
    requires Reaches(s, steps, t) && Can(t, step)
    ensures Reaches(s, steps + [step], Do(t, step))
  {
    hide Can, Do;
    RunSnoc(s, steps, step);
  }

  lemma ReachesNothing<E>(s: State<E>)
    ensures Reaches(s, [], s)
  {
  }

  class Timer {
    var pending: seq<Entry<TimerEvent>>
    var armed: Option<int>
    ghost var state: State<TimerEvent>

    /** The objects agree with the bag, but for the armed deadline. */
    ghost predicate Filed()
      reads this, state.events.Keys
    {
      && (forall e :: e in state.events ==> state.events[e] == e.Value())
      && Closed(state)
      && pending == Sort(state.bag)
    }

    ghost predicate Valid()
      reads this, state.events.Keys
    {
      Filed() && armed == state.armed
    }

    /** A timer that has met the given events; none is pending. */
    constructor (ghost events: set<TimerEvent>, ghost now: int)
      ensures Valid() && state.events.Keys == events
      ensures state.bag == [] && state.armed == None && state.mode == Idle && state.ran == [] && state.adds == multiset{}
      ensures (forall e :: e in events ==> !e.isCanceled) ==> Initial(state)
    {
      pending, armed := [], None;
      state := State(map e | e in events :: e.Value(), [], None, now, Idle, [], multiset{});
    }

    /** An event that the timer is going to be used with. */
    ghost method Meet(event: TimerEvent)
      requires Valid() && event !in state.events
      modifies this`state
      ensures Valid() && state == Do(old(state), Step.Meet(event, event.Value()))
    {
      state := state.(events := state.events[event := event.Value()]);
    }

    method ResetTimer(now: int)
      requires Filed()
      modifies this`armed, this`state
      ensures Valid() && state == Reset(old(state), now)
      ensures pending == old(pending) && (armed == None <==> pending == [])
      ensures pending != [] ==> armed == Some(if pending[0].key > now then pending[0].key else now + 100)
    {
      HeadIsLeast(state.bag);
      state := Reset(state, now);
      if pending == [] {
        armed := None;
        return;
      }
      var interval := SOON;
      if pending[0].key > now {
        interval := pending[0].key - now;
      }
      armed := Some(now + interval);
    }

    /** Files the event under its arrival. */
    method File(event: TimerEvent)
      requires Filed() && event in state.events
      modifies this`pending, this`state
      ensures Filed() && state == old(state).(bag := old(state.bag) + [Entry(event.arriveTime, event)])
      ensures old(pending) == [] || event.arriveTime < old(pending)[0].key ==>
                pending != [] && pending[0].key == event.arriveTime
    {
      hide Sort, Insert;
      ghost var x := Entry(event.arriveTime, event);
      SortSnoc(state.bag, x);
      if pending == [] || x.key < pending[0].key {
        InsertAhead(pending, x);
      }
      pending := Insert(pending, Entry(event.arriveTime, event));
      state := state.(bag := state.bag + [x]);
    }

    /** Whether an event arriving then comes ahead of all that is pending. */
    method ComesFirst(arriveTime: int) returns (first: bool)
      requires Filed()
      ensures Filed() && (first <==> state.bag == [] || arriveTime < MinKey(state.bag))
      ensures first <==> pending == [] || arriveTime < pending[0].key
    {
      hide Sort, MinKey;
      HeadIsLeast(state.bag);
      first := false;
      if pending == [] {
        first := true;
      } else if arriveTime < pending[0].key {
        first := true;
      }
    }

    /** `outside` tells a call from outside from the one by which `OnTimer` puts a repeating event back. */
    method AddTimerEvent(event: TimerEvent, now: int, ghost outside: bool)
      requires Valid() && event in state.events
      modifies this
      ensures Valid()
      ensures state == if outside then Do(old(state), Add(event, now)) else Put(old(state), event, now)
      ensures old(pending) == [] || event.arriveTime < old(pending)[0].key ==>
                armed == Some(if event.arriveTime > now then event.arriveTime else now + 100)
      ensures old(pending) != [] && event.arriveTime >= old(pending)[0].key ==> armed == old(armed)
    {
      ArrivesAsKnown(event);
      hide Sort, MinKey, Timer.Filed;
      var isReset := ComesFirst(event.arriveTime);
      File(event);
      if isReset {
        ResetTimer(now);
      }
      if outside {
        CountAdd(event);
      }
    }

    lemma InsertAhead(s: seq<Entry<TimerEvent>>, x: Entry<TimerEvent>)
      requires s == [] || x.key < s[0].key
      ensures Insert(s, x) != [] && Insert(s, x)[0] == x
    {
    }

    lemma ArrivesAsKnown(event: TimerEvent)
      requires Filed() && event in state.events
      ensures state.events[event] == event.Value()
    {
    }

    ghost method CountAdd(event: TimerEvent)
      requires Valid()
      modifies this`state
      ensures Valid() && state == old(state).(adds := old(state.adds) + multiset{event})
    {
      state := state.(adds := state.adds + multiset{event});
    }

    /** Erases the entry of the event, looking among those filed under its arrival. */
    method Erase(event: TimerEvent) returns (erased: bool)
      requires Sorted(pending)
      modifies this`pending
      ensures erased <==> Entry(event.arriveTime, event) in old(pending)
      ensures pending == Without(old(pending), Entry(event.arriveTime, event))
    {
      var x := Entry(event.arriveTime, event);
      var i := 0;
      while i < |pending| && pending[i].key < event.arriveTime
        invariant i <= |pending| && forall k :: 0 <= k < i ==> pending[k].key < event.arriveTime
      {
        i := i + 1;
      }
      while i < |pending| && pending[i].key == event.arriveTime
        invariant i <= |pending| && x !in pending[..i]
      {
        if pending[i].event == event {
          assert pending[i] == x;
          WithoutAt(pending, x, i);
          pending := pending[..i] + pending[i + 1..];
          return true;
        }
        i := i + 1;
      }
      assert forall k :: i <= k < |pending| ==> pending[k].key > event.arriveTime;
      assert x !in pending by {
        assert pending == pending[..i] + pending[i..];
      }
      WithoutNothing(pending, x);
      return false;
    }

    /** Takes the entry of the event out; says whether there was one. */
    method Unfile(event: TimerEvent) returns (erased: bool)
      requires Filed() && event in state.events
      modifies this`pending, this`state
      ensures Filed() && (erased <==> Entry(event.arriveTime, event) in old(state.bag))
      ensures erased <==> Entry(event.arriveTime, event) in old(pending)
      ensures state == old(state).(bag := Without(old(state.bag), Entry(event.arriveTime, event)))
    {
      hide Sort, Without;
      ghost var x := Entry(event.arriveTime, event);
      SortSorted(state.bag);
      assert x in pending <==> x in state.bag by {
        assert x in pending <==> x in multiset(pending);
        assert x in state.bag <==> x in multiset(state.bag);
      }
      erased := Erase(event);
      SortWithout(state.bag, x);
      WithoutClosed(state, x);
      state := state.(bag := Without(state.bag, x));
    }

    method DeleteTimerEvent(event: TimerEvent, now: int)
      requires Valid() && event in state.events
      modifies this, event
      ensures Valid() && state == Do(old(state), Delete(event, now))
      ensures var x := Entry(event.arriveTime, event);
              armed == if x !in old(pending) || (pending != [] && pending[0].key == event.arriveTime) then old(armed)
                       else if pending == [] then None
                       else Some(if pending[0].key > now then pending[0].key else now + 100)
    {
      Cancel(event, true);
      ArrivesAsKnown(event);
      hide Sort, Without, MinKey, Timer.Filed;
      var erased := Unfile(event);
      if erased {
        var isReset := FirstElsewhere(event.arriveTime);
        if isReset {
          ResetTimer(now);
        }
      }
    }

    /** Whether the first entry pending, if there is one, has another arrival. */
    method FirstElsewhere(arriveTime: int) returns (elsewhere: bool)
      requires Filed()
      ensures Filed() && (elsewhere <==> state.bag == [] || MinKey(state.bag) != arriveTime)
      ensures elsewhere <==> pending == [] || pending[0].key != arriveTime
    {
      hide Sort, MinKey;
      HeadIsLeast(state.bag);
      elsewhere := pending == [] || pending[0].key != arriveTime;
    }

    /** `setCanceled`, called on one of the events by whoever holds it. */
    method Cancel(event: TimerEvent, value: bool)
      requires Valid() && event in state.events
      modifies this`state, event
      ensures Valid() && state == Do(old(state), Step.Cancel(event, value))
    {
      event.SetCanceled(value);
      state := SetCanceled(state, event, value);
    }

    method Perform(call: Step<TimerEvent>)
      requires Valid() && IsCall(call) && call.event in state.events
      modifies this, call.event
      ensures Valid() && state == Do(old(state), call)
    {
      match call
      case Add(event, now) => AddTimerEvent(event, now, true);
      case Delete(event, now) => DeleteTimerEvent(event, now);
      case Cancel(event, value) => Cancel(event, value);
    }

    // ---- onTimer ----

    /** Walks over the due entries, erases them, and returns those events that are not cancelled. */
    method Collect(now: int) returns (events: seq<TimerEvent>)
      requires Valid() && state.mode.Idle?
      modifies this`pending, this`state
      ensures Filed() && events == Batch(old(state), now)
      ensures state == old(state).(bag := Filter(old(state.bag), NotDue(now)), mode := Refiling(events, 0))
    {
      hide Sort, Filter, MinKey, Batch;
      events := [];
      var it := 0;
      HeadIsLeast(state.bag);
      SortSorted(state.bag);
      SortClosed(state);
      while it < |pending| && pending[it].key <= now
        invariant Valid() && pending == old(pending) && state == old(state)
        invariant it <= |pending| && forall k :: 0 <= k < it ==> pending[k].key <= now
        invariant events == Live(state.events, pending[..it])
      {
        LiveSnoc(state.events, pending[..it], pending[it]);
        assert pending[..it + 1] == pending[..it] + [pending[it]];
        assert pending[it].event in state.events;
        if !pending[it].event.isCanceled {
          events := events + [pending[it].event];
        }
        it := it + 1;
      }
      PrefixScan(state, now, it);
      pending := pending[it..];
      ScanClosed(state, now);
      state := state.(bag := Filter(state.bag, NotDue(now)), mode := Refiling(events, 0));
    }

    /** Puts the repeating events of the batch back, each with a new arrival. */
    method PutBack(events: seq<TimerEvent>, clock: nat -> (int, int), ghost s: State<TimerEvent>,
                   ghost steps: seq<Step<TimerEvent>>)
      requires Valid() && state.mode == Refiling(events, 0) && Reaches(s, steps, state)
      modifies this, state.events.Keys
      ensures Valid() && state.events.Keys == old(state.events.Keys) && state.mode == Refiling(events, |events|)
      ensures state.ran == old(state.ran)
      ensures Reaches(s, steps + RefileSteps(clock, |events|), state)
    {
      hide Reaches, Put, Can, Do, Filed;
      ghost var keys := state.events.Keys;
      assert steps + RefileSteps(clock, 0) == steps;
      for i := 0 to |events|
        invariant Valid() && state.events.Keys == keys && state.mode == Refiling(events, i)
        invariant state.ran == old(state.ran)
        invariant Reaches(s, steps + RefileSteps(clock, i), state)
      {
        ghost var before := state;
        PutBackOne(events, i, clock(i).0, clock(i).1);
        ReachesStep(s, steps + RefileSteps(clock, i), before, Refile(clock(i).0, clock(i).1));
        assert steps + RefileSteps(clock, i + 1)
            == steps + RefileSteps(clock, i) + [Refile(clock(i).0, clock(i).1)];
      }
    }

    method PutBackOne(events: seq<TimerEvent>, i: nat, arriveNow: int, now: int)
      requires Valid() && i < |events| && state.mode == Refiling(events, i)
      modifies this, state.events.Keys
      ensures Valid() && state.events.Keys == old(state.events.Keys) && state.mode == Refiling(events, i + 1)
      ensures state.ran == old(state.ran)
      ensures Can(old(state), Refile(arriveNow, now)) && state == Do(old(state), Refile(arriveNow, now))
    {
      hide Put, Sort;
      var event := events[i];
      state := state.(mode := Refiling(events, i + 1));
      if event.isRepeat {
        event.ResetArriveTime(arriveNow);
        state := state.(events := state.events[event := event.Value()]);
        PutKeeps(state, event, now);
        AddTimerEvent(event, now, false);
      }
    }

    /** Runs the tasks of the batch that are still there; `tasks` gives the calls each of them makes. */
    method RunTasks(events: seq<TimerEvent>, tasks: nat -> seq<Step<TimerEvent>>, ghost s: State<TimerEvent>,
                    ghost steps: seq<Step<TimerEvent>>) returns (ran: seq<bool>)
      requires Valid() && state.mode == Firing(events, 0) && Reaches(s, steps, state)
      requires forall i: nat, k :: 0 <= k < |tasks(i)| ==> IsCall(tasks(i)[k]) && tasks(i)[k].event in state.events
      modifies this, state.events.Keys
      ensures Valid() && state.events.Keys == old(state.events.Keys)
      ensures |ran| == |events| && state.mode == Firing(events, |events|)
      ensures state.ran == old(state.ran) + Picked(events, ran)
      ensures Reaches(s, steps + TurnSteps(tasks, ran), state)
    {
      hide Reaches, Can, Do, Filed;
      ghost var keys := state.events.Keys;
      ran := [];
      assert steps + TurnSteps(tasks, []) == steps;
      for i := 0 to |events|
        invariant Valid() && state.events.Keys == keys && state.mode == Firing(events, i)
        invariant |ran| == i && state.ran == old(state.ran) + Picked(events, ran)
        invariant Reaches(s, steps + TurnSteps(tasks, ran), state)
      {
        var here := RunTask(events, i, tasks(i), s, steps + TurnSteps(tasks, ran));
        assert (ran + [here])[..i] == ran;
        ghost var turn := [Fire] + if here then tasks(i) else [];
        assert steps + TurnSteps(tasks, ran + [here]) == steps + TurnSteps(tasks, ran) + turn;
        ran := ran + [here];
      }
    }

    method RunTask(events: seq<TimerEvent>, i: nat, calls: seq<Step<TimerEvent>>, ghost s: State<TimerEvent>,
                   ghost steps: seq<Step<TimerEvent>>) returns (here: bool)
      requires Valid() && i < |events| && state.mode == Firing(events, i) && Reaches(s, steps, state)
      requires forall k :: 0 <= k < |calls| ==> IsCall(calls[k]) && calls[k].event in state.events
      modifies this, state.events.Keys
      ensures Valid() && state.events.Keys == old(state.events.Keys) && state.mode == Firing(events, i + 1)
      ensures state.ran == old(state.ran) + if here then [events[i]] else []
      ensures Reaches(s, steps + ([Fire] + if here then calls else []), state)
    {
      hide Reaches, Put, Remove, Sort;
      here := events[i].hasTask;
      ReachesStep(s, steps, state, Fire);
      state := Do(state, Fire);
      if here {
        PerformAll(calls, s, steps + [Fire]);
        assert steps + [Fire] + calls == steps + ([Fire] + calls);
      } else {
        assert steps + [Fire] == steps + ([Fire] + []);
      }
    }

    method PerformAll(calls: seq<Step<TimerEvent>>, ghost s: State<TimerEvent>, ghost steps: seq<Step<TimerEvent>>)
      requires Valid() && Reaches(s, steps, state)
      requires forall k :: 0 <= k < |calls| ==> IsCall(calls[k]) && calls[k].event in state.events
      modifies this, state.events.Keys
      ensures Valid() && state.events.Keys == old(state.events.Keys)
      ensures state.mode == old(state.mode) && state.ran == old(state.ran)
      ensures Reaches(s, steps + calls, state)
    {
      hide Reaches, Do, Filed;
      ghost var keys := state.events.Keys;
      assert steps + calls[..0] == steps;
      for k := 0 to |calls|
        invariant Valid() && state.events.Keys == keys && state.mode == old(state.mode) && state.ran == old(state.ran)
        invariant Reaches(s, steps + calls[..k], state)
      {
        CallKeeps(state, calls[k]);
        ReachesStep(s, steps + calls[..k], state, calls[k]);
        assert steps + calls[..k + 1] == steps + calls[..k] + [calls[k]];
        Perform(calls[k]);
      }
      assert calls[..|calls|] == calls;
    }

    /** `onTimer` goes from one loop to the next, or returns. */
    ghost method Turn(step: Step<TimerEvent>)
      requires Valid() && (step.BeginFiring? || step.Finish?) && Can(state, step)
      modifies this`state
      ensures Valid() && state == Do(old(state), step)
      ensures state.events == old(state.events) && state.ran == old(state.ran)
      ensures state.mode == if step.Finish? then Idle else Firing(old(state.mode.batch), 0)
    {
      state := Do(state, step);
    }

    /**
     One call: it takes the scan, puts the repeating events back, and gives every event of the batch its turn.
     `ran` says at which turns a task ran.
     */
    method OnTimer(now: int, resetNow: int, clock: nat -> (int, int), tasks: nat -> seq<Step<TimerEvent>>)
      returns (events: seq<TimerEvent>, ran: seq<bool>, ghost steps: seq<Step<TimerEvent>>)
      requires Valid() && state.mode.Idle?
      requires forall i: nat, k :: 0 <= k < |tasks(i)| ==> IsCall(tasks(i)[k]) && tasks(i)[k].event in state.events
      modifies this, state.events.Keys
      ensures Valid() && state.events.Keys == old(state.events.Keys) && state.mode.Idle?
      ensures events == Batch(old(state), now) && |ran| == |events|
      ensures steps == [Scan(now, resetNow)] + RefileSteps(clock, |ran|) + [BeginFiring] + TurnSteps(tasks, ran) + [Finish]
      ensures IsRun(old(state), steps) && state == After(old(state), steps)
      ensures OneCall(steps) && Fired(steps) == |ran|
      ensures Picked(Batch(old(state), now), ran) == Chosen(old(state), steps, Batch(old(state), now))
      ensures state.ran == old(state.ran) + Picked(Batch(old(state), now), ran)
    {
      hide Filed, Batch, IsRun, After, MinKey, Sort, Filter, OneCall, Fired, Chosen;
      ghost var s := state;
      events := Collect(now);
      ResetTimer(resetNow);
      ReachesNothing(s);
      ReachesStep(s, [], s, Scan(now, resetNow));
      steps := [Scan(now, resetNow)];
      assert [] + steps == steps;
      PutBack(events, clock, s, steps);
      steps := steps + RefileSteps(clock, |events|);
      ReachesStep(s, steps, state, BeginFiring);
      steps := steps + [BeginFiring];
      Turn(BeginFiring);
      ran := RunTasks(events, tasks, s, steps);
      steps := steps + TurnSteps(tasks, ran);
      ReachesStep(s, steps, state, Finish);
      steps := steps + [Finish];
      Turn(Finish);
      WholeCall(s, Scan(now, resetNow), clock, tasks, ran, steps);
      SameRest(s.ran, Picked(Batch(s, now), ran), Chosen(s, steps, Batch(s, now)));
    }
  }

  lemma SameRest<T>(s: seq<T>, t: seq<T>, u: seq<T>)
    requires s + t == s + u
    ensures t == u
  {
    assert (s + t)[|s|..] == t && (s + u)[|s|..] == u;
  }

  ghost predicate NoScan<E>(steps: seq<Step<E>>) {
    forall i :: 0 <= i < |steps| ==> !steps[i].Scan?
  }

  lemma NoScanAppend<E>(steps: seq<Step<E>>, more: seq<Step<E>>)
    requires NoScan(steps) && NoScan(more)
    ensures NoScan(steps + more)
  {
  }

  lemma {:induction false} NoScanInRefiles<E>(clock: nat -> (int, int), n: nat)
    ensures NoScan(RefileSteps<E>(clock, n))
  {
    if n > 0 {
      NoScanInRefiles<E>(clock, n - 1);
    }
  }

  lemma {:induction false} NoScanInTurns<E>(tasks: nat -> seq<Step<E>>, ran: seq<bool>)
    requires forall i: nat, k :: 0 <= k < |tasks(i)| ==> IsCall(tasks(i)[k])
    ensures NoScan(TurnSteps(tasks, ran))
  {
    if ran != [] {
      NoScanInTurns(tasks, ran[..|ran| - 1]);
    }
  }

  /** The run of a whole call, summed up. */
  lemma WholeCall<E>(s: State<E>, scan: Step<E>, clock: nat -> (int, int), tasks: nat -> seq<Step<E>>, ran: seq<bool>,
                     steps: seq<Step<E>>)
    requires scan.Scan? && forall i: nat, k :: 0 <= k < |tasks(i)| ==> IsCall(tasks(i)[k])
    requires steps == [scan] + RefileSteps(clock, |ran|) + [BeginFiring] + TurnSteps(tasks, ran) + [Finish]
    requires s.mode.Idle? && IsRun(s, steps) && After(s, steps).mode.Idle?
    ensures OneCall(steps) && Fired(steps) == |Batch(s, scan.now)|
    ensures After(s, steps).ran == s.ran + Chosen(s, steps, Batch(s, scan.now))
  {
    hide NoScan, IsRun, After, Fired, Chosen, Batch, RefileSteps, TurnSteps;
    var refiles, turns := RefileSteps<E>(clock, |ran|), TurnSteps(tasks, ran);
    NoScanInRefiles<E>(clock, |ran|);
    NoScanInTurns(tasks, ran);
    ScanFirst(scan, refiles, turns, steps);
    OnTimerRunsTheChosen(s, steps);
  }

  lemma ScanFirst<E>(scan: Step<E>, refiles: seq<Step<E>>, turns: seq<Step<E>>, steps: seq<Step<E>>)
    requires scan.Scan? && NoScan(refiles) && NoScan(turns)
    requires steps == [scan] + refiles + [BeginFiring] + turns + [Finish]
    ensures OneCall(steps) && steps[0] == scan
  {
    NoScanAppend(refiles, [BeginFiring]);
    NoScanAppend(refiles + [BeginFiring], turns);
    NoScanAppend(refiles + [BeginFiring] + turns, [Finish]);
    assert steps == [scan] + (refiles + [BeginFiring] + turns + [Finish]);
  }

  // ---- An event that the tasks do not mention ----

  lemma LeftAloneAppend<E>(steps: seq<Step<E>>, more: seq<Step<E>>, e: E)
    requires LeftAlone(steps, e) && LeftAlone(more, e)
    ensures LeftAlone(steps + more, e)
  {
  }

  lemma {:induction false} RefilesLeaveAlone<E>(clock: nat -> (int, int), n: nat, e: E)
    ensures LeftAlone(RefileSteps<E>(clock, n), e)
  {
    if n > 0 {
      RefilesLeaveAlone<E>(clock, n - 1, e);
    }
  }

  lemma {:induction false} TurnsLeaveAlone<E>(tasks: nat -> seq<Step<E>>, ran: seq<bool>, e: E)
    requires forall i: nat :: LeftAlone(tasks(i), e)
    ensures LeftAlone(TurnSteps(tasks, ran), e)
  {
    if ran != [] {
      var n := |ran| - 1;
      TurnsLeaveAlone(tasks, ran[..n], e);
      assert LeftAlone(tasks(n), e);
    }
  }

  /** A call of `onTimer` is not about an event that no task of the batch mentions. */
  lemma CallLeavesAlone<E>(scan: Step<E>, clock: nat -> (int, int), tasks: nat -> seq<Step<E>>, ran: seq<bool>, e: E)
    requires scan.Scan? && forall i: nat :: LeftAlone(tasks(i), e)
    ensures LeftAlone([scan] + RefileSteps(clock, |ran|) + [BeginFiring] + TurnSteps(tasks, ran) + [Finish], e)
  {
    hide LeftAlone, RefileSteps, TurnSteps;
    RefilesLeaveAlone<E>(clock, |ran|, e);
    TurnsLeaveAlone(tasks, ran, e);
    OwnStep(scan, e);
    OwnStep(BeginFiring, e);
    OwnStep(Finish, e);
    LeftAloneAppend([scan], RefileSteps(clock, |ran|), e);
    LeftAloneAppend([scan] + RefileSteps(clock, |ran|), [BeginFiring], e);
    LeftAloneAppend([scan] + RefileSteps(clock, |ran|) + [BeginFiring], TurnSteps(tasks, ran), e);
    LeftAloneAppend([scan] + RefileSteps(clock, |ran|) + [BeginFiring] + TurnSteps(tasks, ran), [Finish], e);
  }

  lemma OwnStep<E>(step: Step<E>, e: E)
    requires step.Scan? || step.BeginFiring? || step.Finish?
    ensures LeftAlone([step], e)
  {
  }

  /** The turns at which the task of an event ran are counted by what has run. */
  lemma {:induction false} PickedCount<E>(batch: seq<E>, ran: seq<bool>, e: E)
    requires |ran| <= |batch|
    ensures multiset(Picked(batch, ran))[e] > 0 <==> exists i :: 0 <= i < |ran| && ran[i] && batch[i] == e
  {
    if ran != [] {
      var n := |ran| - 1;
      PickedCount(batch, ran[..n], e);
      if i :| 0 <= i < |ran| && ran[i] && batch[i] == e {
        assert i == n || ran[..n][i];
      }
      if i :| 0 <= i < |ran[..n]| && ran[..n][i] && batch[i] == e {
        assert ran[i];
      }
    }
  }

  // ---- Lemmas for the walk over the due entries ----

  lemma {:induction false} LiveSnoc<E>(events: map<E, Event>, s: seq<Entry<E>>, x: Entry<E>)
    ensures Live(events, s + [x])
         == Live(events, s) + if x.event in events && !events[x.event].canceled then [x.event] else []
  {
    if s == [] {
      assert [x][1..] == [];
    } else {
      assert (s + [x])[1..] == s[1..] + [x];
      LiveSnoc(events, s[1..], x);
    }
  }

  lemma SortClosed<E>(s: State<E>)
    requires Closed(s)
    ensures forall i :: 0 <= i < |Sort(s.bag)| ==> Sort(s.bag)[i].event in s.events
  {
    SortSorted(s.bag);
    forall i | 0 <= i < |Sort(s.bag)| ensures Sort(s.bag)[i].event in s.events {
      assert Sort(s.bag)[i] in multiset(Sort(s.bag));
      assert Sort(s.bag)[i] in s.bag;
    }
  }

  lemma ScanClosed<E>(s: State<E>, now: int)
    requires Closed(s)
    ensures Closed(s.(bag := Filter(s.bag, NotDue(now)), mode := Refiling(Batch(s, now), 0)))
  {
    hide Filter, Batch;
    var rest, batch := Filter(s.bag, NotDue(now)), Batch(s, now);
    forall i | 0 <= i < |rest| ensures rest[i].event in s.events {
      FilterSubset(s.bag, NotDue(now), rest[i]);
    }
    forall i | 0 <= i < |batch| ensures batch[i] in s.events {
      BatchExact(s, now, batch[i]);
    }
  }
}
