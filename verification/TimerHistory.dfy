/** What holds of a single timer event over whole runs of the timer. */
module TimerHistory {
  import opened TimerSpec
  import opened TimerMachine

  // ---- Counting the entries of an event ----

  function Of<E(==)>(e: E): Entry<E> -> bool {
    (x: Entry<E>) => x.event == e
  }

  /** How often the event is pending. */
  function Count<E(==)>(bag: seq<Entry<E>>, e: E): nat {
    |Filter(bag, Of(e))|
  }

  lemma {:induction false} CountMember<E>(bag: seq<Entry<E>>, e: E)
    ensures Count(bag, e) == 0 <==> forall i :: 0 <= i < |bag| ==> bag[i].event != e
  {
    if bag != [] {
      CountMember(bag[1..], e);
      assert forall i :: 0 < i < |bag| ==> bag[i] == bag[1..][i - 1];
    }
  }

  lemma {:induction false} CountSplit<E>(bag: seq<Entry<E>>, now: int, e: E)
    ensures Count(Filter(bag, IsDue(now)), e) + Count(Filter(bag, NotDue(now)), e) == Count(bag, e)
  {
    if bag != [] {
      CountSplit(bag[1..], now, e);
      FilterAppend(if IsDue(now)(bag[0]) then [bag[0]] else [], Filter(bag[1..], IsDue(now)), Of(e));
      FilterAppend(if NotDue(now)(bag[0]) then [bag[0]] else [], Filter(bag[1..], NotDue(now)), Of(e));
      assert [bag[0]][1..] == [];
    }
  }

  lemma {:induction false} CountWithout<E>(bag: seq<Entry<E>>, x: Entry<E>, e: E)
    ensures Count(Without(bag, x), e) == Count(bag, e) - if x in bag && x.event == e then 1 else 0
  {
    if bag != [] && bag[0] != x {
      CountWithout(bag[1..], x, e);
      assert ([bag[0]] + Without(bag[1..], x))[1..] == Without(bag[1..], x);
      assert bag == [bag[0]] + bag[1..];
    }
  }

  lemma {:induction false} LiveCount<E>(events: map<E, Event>, bag: seq<Entry<E>>, e: E)
    ensures multiset(Live(events, bag))[e] == if e in events && !events[e].canceled then Count(bag, e) else 0
  {
    if bag != [] {
      LiveCount(events, bag[1..], e);
    }
  }

  /** A scan collects every due entry of an event that is not cancelled, and none of one that is. */
  lemma BatchCount<E>(s: State<E>, now: int, e: E)
    ensures multiset(Batch(s, now))[e]
         == if e in s.events && !s.events[e].canceled then Count(Filter(s.bag, IsDue(now)), e) else 0
  {
    var due := Filter(s.bag, IsDue(now));
    LiveCount(s.events, Sort(due), e);
    FilterSort(due, Of(e));
    SortSorted(Filter(due, Of(e)));
  }

  lemma PutCount<E>(s: State<E>, e: E, now: int, f: E)
    requires e in s.events
    ensures Count(Put(s, e, now).bag, f) == Count(s.bag, f) + if e == f then 1 else 0
  {
    hide MinKey;
    FilterSnoc(s.bag, Entry(s.events[e].arrive, e), Of(f));
  }

  // ---- A one-shot event ----

  /** The turns the batch still holds for the event. */
  function Turns<E(==)>(mode: Mode<E>, e: E): nat {
    match mode
    case Idle => 0
    case Refiling(batch, _) => multiset(batch)[e]
    case Firing(batch, next) => if next <= |batch| then multiset(batch[next..])[e] else 0
  }

  ghost predicate Spent<E>(s: State<E>, e: E) {
    multiset(s.ran)[e] + Count(s.bag, e) + Turns(s.mode, e) <= s.adds[e]
  }

  lemma ScanSpent<E>(s: State<E>, now: int, resetNow: int, e: E)
    requires Can(s, Scan(now, resetNow)) && Spent(s, e)
    ensures Spent(Do(s, Scan(now, resetNow)), e)
  {
    hide Count, Batch, MinKey;
    CountSplit(s.bag, now, e);
    BatchCount(s, now, e);
  }

  lemma FireSpent<E>(s: State<E>, e: E)
    requires Can(s, Fire) && Spent(s, e)
    ensures Spent(Do(s, Fire), e)
  {
    hide Count;
    var batch, next := s.mode.batch, s.mode.next;
    assert batch[next..] == [batch[next]] + batch[next + 1..];
  }

  lemma StepSpent<E>(s: State<E>, step: Step<E>, e: E)
    requires Can(s, step) && e in s.events && !s.events[e].repeats && Spent(s, e)
    ensures Spent(Do(s, step), e)
  {
    hide Count, Batch, MinKey, Put, Without;
    match step
    case Meet(f, value) =>
    case Add(f, now) => PutKeeps(s, f, now); PutCount(s, f, now, e);
    case Delete(f, now) => CountWithout(s.bag, Entry(s.events[f].arrive, f), e);
    case Cancel(f, value) =>
    case Scan(now, resetNow) => ScanSpent(s, now, resetNow, e);
    case Refile(arriveNow, now) => RefileSpent(s, arriveNow, now, e);
    case BeginFiring => assert s.mode.batch[0..] == s.mode.batch;
    case Fire => FireSpent(s, e);
    case Finish =>
  }

  lemma PutKeeps<E>(s: State<E>, e: E, now: int)
    requires e in s.events
    ensures Put(s, e, now) == s.(bag := Put(s, e, now).bag, armed := Put(s, e, now).armed,
                                 lastReset := Put(s, e, now).lastReset)
    ensures Put(s, e, now).bag == s.bag + [Entry(s.events[e].arrive, e)]
  {
    hide MinKey;
  }

  lemma RemoveKeeps<E>(s: State<E>, e: E, now: int)
    requires e in s.events
    ensures Remove(s, e, now) == s.(bag := Without(s.bag, Entry(s.events[e].arrive, e)),
                                    armed := Remove(s, e, now).armed, lastReset := Remove(s, e, now).lastReset)
  {
    hide MinKey, Without;
  }

  /** The state in which an event put back is inserted: with its arrival renewed. */
  function Renewed<E>(s: State<E>, arriveNow: int): State<E>
    requires s.mode.Refiling? && s.mode.next < |s.mode.batch| && s.mode.batch[s.mode.next] in s.events
  {
    var e := s.mode.batch[s.mode.next];
    s.(mode := Refiling(s.mode.batch, s.mode.next + 1),
       events := s.events[e := s.events[e].(arrive := arriveNow + s.events[e].interval)])
  }

  lemma RefileSpent<E>(s: State<E>, arriveNow: int, now: int, e: E)
    requires Can(s, Refile(arriveNow, now)) && e in s.events && !s.events[e].repeats && Spent(s, e)
    ensures Spent(Do(s, Refile(arriveNow, now)), e)
  {
    hide Count, Put;
    var f := s.mode.batch[s.mode.next];
    if s.events[f].repeats {
      PutKeeps(Renewed(s, arriveNow), f, now);
      PutCount(Renewed(s, arriveNow), f, now, e);
    }
  }

  /** No step changes which events there are, nor which of them repeat. */
  lemma StepEvents<E>(s: State<E>, step: Step<E>, e: E)
    requires Can(s, step) && e in s.events
    ensures e in Do(s, step).events && Do(s, step).events[e].repeats == s.events[e].repeats
    ensures Do(s, step).adds[e] == s.adds[e] + if step.Add? && step.event == e then 1 else 0
  {
    hide MinKey, Without, Filter, Batch;
  }

  lemma {:induction false} RunEvents<E>(s: State<E>, steps: seq<Step<E>>, e: E)
    requires IsRun(s, steps) && e in s.events
    ensures e in After(s, steps).events && After(s, steps).events[e].repeats == s.events[e].repeats
    ensures After(s, steps).adds[e] >= s.adds[e]
  {
    hide Can, Do;
    if steps != [] {
      RunEvents(s, steps[..|steps| - 1], e);
      StepEvents(After(s, steps[..|steps| - 1]), steps[|steps| - 1], e);
    }
  }

  /** An event that the timer has met and that has not been added, cancelled or run, as all events of a new timer. */
  ghost predicate Unused<E>(s: State<E>, e: E) {
    && e in s.events && !s.events[e].canceled
    && Count(s.bag, e) == 0 && Turns(s.mode, e) == 0 && multiset(s.ran)[e] == 0 && s.adds[e] == 0
  }

  /** Over every run the task of an event that does not repeat has run at most once for each time it was added. */
  lemma {:induction false} OneShotRunsOncePerAdd<E>(s: State<E>, steps: seq<Step<E>>, e: E)
    requires Unused(s, e) && IsRun(s, steps) && !s.events[e].repeats
    ensures Spent(After(s, steps), e)
    ensures multiset(After(s, steps).ran)[e] <= After(s, steps).adds[e]
  {
    hide Can, Do;
    if steps != [] {
      var init := steps[..|steps| - 1];
      OneShotRunsOncePerAdd(s, init, e);
      RunEvents(s, init, e);
      StepSpent(After(s, init), steps[|steps| - 1], e);
    }
  }

  // ---- A cancelled event ----

  predicate Touches<E(==)>(step: Step<E>, e: E) {
    (step.Cancel? || step.Delete?) && step.event == e
  }

  ghost predicate Touched<E>(steps: seq<Step<E>>, e: E) {
    exists i :: 0 <= i < |steps| && Touches(steps[i], e)
  }

  lemma TouchedSnoc<E>(steps: seq<Step<E>>, e: E)
    requires steps != []
    ensures Touched(steps, e) <==> Touched(steps[..|steps| - 1], e) || Touches(steps[|steps| - 1], e)
  {
    var init := steps[..|steps| - 1];
    assert forall i :: 0 <= i < |init| ==> steps[i] == init[i];
  }

  lemma StepTask<E>(s: State<E>, step: Step<E>, e: E)
    requires Can(s, step) && e in s.events
    ensures e in Do(s, step).events && Do(s, step).events[e].task == (s.events[e].task && !Touches(step, e))
    ensures !Touches(step, e) ==> Do(s, step).events[e].canceled == s.events[e].canceled
    ensures multiset(Do(s, step).ran)[e] == multiset(s.ran)[e] ||
            (s.events[e].task && multiset(Do(s, step).ran)[e] == multiset(s.ran)[e] + 1)
  {
    hide MinKey, Without, Filter, Batch, Put, Remove;
    match step
    case Add(f, now) => PutKeeps(s, f, now);
    case Delete(f, now) => RemoveKeeps(SetCanceled(s, f, true), f, now);
    case Refile(arriveNow, now) =>
      var f := s.mode.batch[s.mode.next];
      if s.events[f].repeats {
        PutKeeps(Renewed(s, arriveNow), f, now);
      }
    case _ =>
  }

  /** An event has its task just as long as no step cancelled or deleted it, whatever value was set. */
  lemma {:induction false} TaskKept<E>(s: State<E>, steps: seq<Step<E>>, e: E)
    requires IsRun(s, steps) && e in s.events
    ensures e in After(s, steps).events
    ensures After(s, steps).events[e].task <==> s.events[e].task && !Touched(steps, e)
    ensures !Touched(steps, e) ==> After(s, steps).events[e].canceled == s.events[e].canceled
    ensures !s.events[e].task ==> multiset(After(s, steps).ran)[e] == multiset(s.ran)[e]
  {
    hide Can, Do, Touches, Touched;
    if steps != [] {
      var init := steps[..|steps| - 1];
      TaskKept(s, init, e);
      StepTask(After(s, init), steps[|steps| - 1], e);
      TouchedSnoc(steps, e);
    } else {
      NoneTouched(steps, e);
    }
  }

  lemma NoneTouched<E>(steps: seq<Step<E>>, e: E)
    requires steps == []
    ensures !Touched(steps, e)
  {
  }

  lemma {:induction false} RunAppend<E>(s: State<E>, steps: seq<Step<E>>, more: seq<Step<E>>)
    requires IsRun(s, steps + more)
    ensures IsRun(s, steps) && IsRun(After(s, steps), more) && After(s, steps + more) == After(After(s, steps), more)
  {
    hide Can, Do;
    if more == [] {
      assert steps + more == steps;
    } else {
      var init, last := more[..|more| - 1], more[|more| - 1];
      assert steps + more == (steps + init) + [last];
      assert more == init + [last];
      RunSnoc(s, steps + init, last);
      RunAppend(s, steps, init);
      RunSnoc(After(s, steps), init, last);
    }
  }

  /**
   Once an event has been cancelled or deleted its task does not run again in any continuation of the run, even if
   it is in the batch being run, pending, added again, or cancelled with the value `false`.
   */
  lemma CancelledNeverRuns<E>(s: State<E>, before: seq<Step<E>>, cancel: Step<E>, later: seq<Step<E>>, e: E)
    requires IsRun(s, before + [cancel] + later) && e in s.events && Touches(cancel, e)
    ensures IsRun(s, before + [cancel])
    ensures multiset(After(s, before + [cancel] + later).ran)[e] == multiset(After(s, before + [cancel]).ran)[e]
  {
    hide Can, Do, Touches, Touched;
    RunAppend(s, before + [cancel], later);
    RunEvents(s, before + [cancel], e);
    TaskKept(s, before + [cancel], e);
    assert (before + [cancel])[|before|] == cancel;
    TouchedSnoc(before + [cancel], e);
    TaskKept(After(s, before + [cancel]), later, e);
  }

  /** What the last cancel or delete of an event has set, told from the steps. */
  function LastSet<E(==)>(steps: seq<Step<E>>, e: E): Option<bool> {
    if steps == [] then None
    else
      var last := steps[|steps| - 1];
      if last.Cancel? && last.event == e then Some(last.value)
      else if last.Delete? && last.event == e then Some(true)
      else LastSet(steps[..|steps| - 1], e)
  }

  lemma StepSets<E>(s: State<E>, step: Step<E>, e: E)
    requires Can(s, step) && e in s.events
    ensures e in Do(s, step).events
    ensures Do(s, step).events[e].canceled
         == if step.Cancel? && step.event == e then step.value
            else if step.Delete? && step.event == e then true
            else s.events[e].canceled
  {
    hide MinKey, Without, Filter, Batch;
  }

  /** Over every run an event is cancelled just as the last cancel or delete of it says. */
  lemma {:induction false} CanceledAsLastSet<E>(s: State<E>, steps: seq<Step<E>>, e: E)
    requires IsRun(s, steps) && e in s.events
    ensures e in After(s, steps).events
    ensures After(s, steps).events[e].canceled
         == if LastSet(steps, e) == None then s.events[e].canceled else LastSet(steps, e).value
  {
    hide Can, Do;
    if steps != [] {
      CanceledAsLastSet(s, steps[..|steps| - 1], e);
      StepSets(After(s, steps[..|steps| - 1]), steps[|steps| - 1], e);
    }
  }

  // ---- When an event arrives ----

  predicate PutsBack<E(==)>(s: State<E>, step: Step<E>, e: E)
    requires Can(s, step)
  {
    step.Refile? && s.mode.batch[s.mode.next] == e
  }

  /** When an event was put back last. */
  function LastPutBack<E(==)>(s: State<E>, steps: seq<Step<E>>, e: E): Option<int>
    requires IsRun(s, steps)
  {
    if steps == [] then None
    else
      var init, last := steps[..|steps| - 1], steps[|steps| - 1];
      if PutsBack(After(s, init), last, e) then Some(last.arriveNow) else LastPutBack(s, init, e)
  }

  lemma StepArrival<E>(s: State<E>, step: Step<E>, e: E)
    requires Can(s, step) && e in s.events
    ensures var t := Do(s, step);
            var putBack := s.events[e].repeats && PutsBack(s, step, e);
            && e in t.events && t.events[e].interval == s.events[e].interval && t.events[e].repeats == s.events[e].repeats
            && t.events[e].arrive == (if putBack then step.arriveNow + s.events[e].interval else s.events[e].arrive)
            && (putBack ==> t.bag == s.bag + [Entry(t.events[e].arrive, e)])
  {
    hide MinKey, Without, Filter, Batch;
  }

  /**
   Over every run a repeating event arrives one interval after it was put back last, and is pending under that arrival
   then; an event that does not repeat arrives when it did at first.
   */
  lemma {:induction false} ArrivesAfterInterval<E>(s: State<E>, steps: seq<Step<E>>, e: E)
    requires IsRun(s, steps) && e in s.events
    ensures var t := After(s, steps);
            && e in t.events && t.events[e].interval == s.events[e].interval && t.events[e].repeats == s.events[e].repeats
            && t.events[e].arrive
               == if s.events[e].repeats && LastPutBack(s, steps, e).Some?
                  then LastPutBack(s, steps, e).value + s.events[e].interval else s.events[e].arrive
  {
    hide Can, Do, PutsBack;
    if steps != [] {
      ArrivesAfterInterval(s, steps[..|steps| - 1], e);
      StepArrival(After(s, steps[..|steps| - 1]), steps[|steps| - 1], e);
    }
  }

  // ---- How often an event is pending ----

  /** The times the event is still to be put back by the current call of `onTimer`. */
  function Waiting<E(==)>(mode: Mode<E>, e: E): nat {
    if mode.Refiling? && mode.next <= |mode.batch| then multiset(mode.batch[mode.next..])[e] else 0
  }

  lemma ScanWaiting<E>(s: State<E>, now: int, resetNow: int, e: E)
    requires Can(s, Scan(now, resetNow)) && e in s.events
    ensures var t := Do(s, Scan(now, resetNow));
            Count(t.bag, e) + Waiting(t.mode, e) <= Count(s.bag, e) + Waiting(s.mode, e)
    ensures var t := Do(s, Scan(now, resetNow));
            !s.events[e].canceled ==> Count(t.bag, e) + Waiting(t.mode, e) == Count(s.bag, e) + Waiting(s.mode, e)
  {
    hide Count, Batch, MinKey;
    CountSplit(s.bag, now, e);
    BatchCount(s, now, e);
    assert Batch(s, now)[0..] == Batch(s, now);
  }

  lemma RefileWaiting<E>(s: State<E>, arriveNow: int, now: int, e: E)
    requires Can(s, Refile(arriveNow, now)) && e in s.events
    ensures var t := Do(s, Refile(arriveNow, now));
            Count(t.bag, e) + Waiting(t.mode, e) <= Count(s.bag, e) + Waiting(s.mode, e)
    ensures var t := Do(s, Refile(arriveNow, now));
            s.events[e].repeats ==> Count(t.bag, e) + Waiting(t.mode, e) == Count(s.bag, e) + Waiting(s.mode, e)
  {
    hide Count, Put;
    var batch, next := s.mode.batch, s.mode.next;
    var f := batch[next];
    assert batch[next..] == [f] + batch[next + 1..];
    if s.events[f].repeats {
      PutKeeps(Renewed(s, arriveNow), f, now);
      PutCount(Renewed(s, arriveNow), f, now, e);
    }
  }

  lemma StepWaiting<E>(s: State<E>, step: Step<E>, e: E)
    requires Can(s, step) && e in s.events
    ensures var t := Do(s, step);
            Count(t.bag, e) + Waiting(t.mode, e) - t.adds[e] <= Count(s.bag, e) + Waiting(s.mode, e) - s.adds[e]
    ensures var t := Do(s, step);
            s.events[e].repeats && !s.events[e].canceled && !Touches(step, e) ==>
            Count(t.bag, e) + Waiting(t.mode, e) - t.adds[e] == Count(s.bag, e) + Waiting(s.mode, e) - s.adds[e]
  {
    hide Count, Batch, MinKey, Put, Remove, Without;
    match step
    case Meet(f, value) =>
    case Add(f, now) => PutKeeps(s, f, now); PutCount(s, f, now, e);
    case Delete(f, now) =>
      RemoveKeeps(SetCanceled(s, f, true), f, now);
      CountWithout(s.bag, Entry(s.events[f].arrive, f), e);
    case Cancel(f, value) =>
    case Scan(now, resetNow) => ScanWaiting(s, now, resetNow, e);
    case Refile(arriveNow, now) => StepEvents(s, step, e); RefileWaiting(s, arriveNow, now, e);
    case BeginFiring =>
    case Fire =>
    case Finish =>
  }

  /**
   A repeating event that was never cancelled is pending, or about to be put back, exactly as often as it was added;
   no event is pending more often than it was added.
   */
  lemma {:induction false} PendingAsOftenAsAdded<E>(s: State<E>, steps: seq<Step<E>>, e: E)
    requires Unused(s, e) && IsRun(s, steps)
    ensures var t := After(s, steps); Count(t.bag, e) + Waiting(t.mode, e) <= t.adds[e]
    ensures var t := After(s, steps);
            s.events[e].repeats && !Touched(steps, e) ==> Count(t.bag, e) + Waiting(t.mode, e) == t.adds[e]
  {
    hide Can, Do, Touches, Touched, Count, Waiting;
    if steps == [] {
      UnusedWaiting(s, e);
    } else {
      var init, last := steps[..|steps| - 1], steps[|steps| - 1];
      PendingAsOftenAsAdded(s, init, e);
      RunEvents(s, init, e);
      TaskKept(s, init, e);
      TouchedSnoc(steps, e);
      StepWaiting(After(s, init), last, e);
    }
  }

  lemma UnusedWaiting<E>(s: State<E>, e: E)
    requires Unused(s, e)
    ensures Waiting(s.mode, e) == 0
  {
    if s.mode.Refiling? && s.mode.next <= |s.mode.batch| {
      var n := s.mode.next;
      assert s.mode.batch == s.mode.batch[..n] + s.mode.batch[n..];
    }
  }

  /** Between two calls of `onTimer`, a repeating event added once and never cancelled is pending exactly once. */
  lemma RepeatingPendingOnce<E>(s: State<E>, steps: seq<Step<E>>, e: E)
    requires Unused(s, e) && IsRun(s, steps) && s.events[e].repeats && !Touched(steps, e)
    requires After(s, steps).mode.Idle? && After(s, steps).adds[e] == 1
    ensures Count(After(s, steps).bag, e) == 1
  {
    hide Can, Do, Count, Touched;
    PendingAsOftenAsAdded(s, steps, e);
  }

  // ---- Deleting an event ----

  /** Every entry of the event is filed under the arrival the event has now. */
  ghost predicate Keyed<E>(s: State<E>, e: E) {
    e in s.events && forall i :: 0 <= i < |s.bag| && s.bag[i].event == e ==> s.bag[i].key == s.events[e].arrive
  }

  lemma {:induction false} FilterSubset<E>(bag: seq<Entry<E>>, p: Entry<E> -> bool, x: Entry<E>)
    ensures x in Filter(bag, p) <==> x in bag && p(x)
  {
    if bag != [] {
      FilterSubset(bag[1..], p, x);
      assert bag == [bag[0]] + bag[1..];
    }
  }

  lemma {:induction false} WithoutSubset<E>(bag: seq<E>, x: E, y: E)
    requires y in Without(bag, x)
    ensures y in bag
  {
    if bag[0] != x && y != bag[0] {
      WithoutSubset(bag[1..], x, y);
    }
  }

  lemma KeyedSmaller<E>(s: State<E>, t: State<E>, e: E)
    requires Keyed(s, e) && e in t.events && t.events[e].arrive == s.events[e].arrive
    requires forall x :: x in t.bag ==> x in s.bag
    ensures Keyed(t, e)
  {
    assert forall i :: 0 <= i < |t.bag| ==> t.bag[i] in s.bag;
  }

  lemma RefileKeyed<E>(s: State<E>, arriveNow: int, now: int, e: E)
    requires Can(s, Refile(arriveNow, now)) && Keyed(s, e)
    requires Count(s.bag, e) + Waiting(s.mode, e) <= 1
    ensures Keyed(Do(s, Refile(arriveNow, now)), e)
  {
    hide Count, Put;
    var batch, next := s.mode.batch, s.mode.next;
    var f := batch[next];
    assert batch[next..] == [f] + batch[next + 1..];
    if s.events[f].repeats {
      PutKeeps(Renewed(s, arriveNow), f, now);
      CountMember(s.bag, e);
    }
  }

  lemma StepKeyed<E>(s: State<E>, step: Step<E>, e: E)
    requires Can(s, step) && Keyed(s, e)
    requires Count(s.bag, e) + Waiting(s.mode, e) <= 1
    ensures Keyed(Do(s, step), e)
  {
    hide Count, Batch, MinKey, Put, Remove, Without, Filter;
    match step
    case Meet(f, value) =>
    case Add(f, now) => PutKeeps(s, f, now);
    case Delete(f, now) =>
      RemoveKeeps(SetCanceled(s, f, true), f, now);
      forall y | y in Without(s.bag, Entry(s.events[f].arrive, f)) ensures y in s.bag {
        WithoutSubset(s.bag, Entry(s.events[f].arrive, f), y);
      }
      KeyedSmaller(s, Do(s, step), e);
    case Cancel(f, value) =>
    case Scan(now, resetNow) =>
      forall y | y in Filter(s.bag, NotDue(now)) ensures y in s.bag {
        FilterSubset(s.bag, NotDue(now), y);
      }
      KeyedSmaller(s, Do(s, step), e);
    case Refile(arriveNow, now) => RefileKeyed(s, arriveNow, now, e);
    case BeginFiring =>
    case Fire =>
    case Finish =>
  }

  lemma {:induction false} AlwaysKeyed<E>(s: State<E>, steps: seq<Step<E>>, e: E)
    requires Unused(s, e) && IsRun(s, steps) && After(s, steps).adds[e] <= 1
    ensures Keyed(After(s, steps), e)
  {
    hide Can, Do, Count, Waiting, Turns;
    if steps == [] {
      CountMember(s.bag, e);
    } else {
      var init, last := steps[..|steps| - 1], steps[|steps| - 1];
      RunEvents(s, init, e);
      StepEvents(After(s, init), last, e);
      AlwaysKeyed(s, init, e);
      PendingAsOftenAsAdded(s, init, e);
      StepKeyed(After(s, init), last, e);
    }
  }

  /** After `deleteTimerEvent` nothing of an event is pending exactly if it was pending at most once, under its own arrival. */
  lemma DeleteLeavesNothingExactlyWhen<E>(s: State<E>, e: E, now: int)
    requires e in s.events
    ensures Count(Do(s, Delete(e, now)).bag, e) == 0
       <==> (Count(s.bag, e) == 0 || (Count(s.bag, e) == 1 && Entry(s.events[e].arrive, e) in s.bag))
  {
    hide Count, Without, MinKey, Remove;
    RemoveKeeps(SetCanceled(s, e, true), e, now);
    CountWithout(s.bag, Entry(s.events[e].arrive, e), e);
    CountMember(s.bag, e);
  }

  /** So deleting an event that was added at most once leaves nothing of it pending. */
  lemma DeleteLeavesNothing<E>(s: State<E>, steps: seq<Step<E>>, e: E, now: int)
    requires Unused(s, e) && IsRun(s, steps) && After(s, steps).adds[e] <= 1
    ensures e in After(s, steps).events && Count(Do(After(s, steps), Delete(e, now)).bag, e) == 0
  {
    hide Can, Do, Count, Waiting;
    var t := After(s, steps);
    AlwaysKeyed(s, steps, e);
    PendingAsOftenAsAdded(s, steps, e);
    DeleteLeavesNothingExactlyWhen(t, e, now);
    CountMember(t.bag, e);
    if Count(t.bag, e) != 0 {
      var i :| 0 <= i < |t.bag| && t.bag[i].event == e;
      assert t.bag[i] == Entry(t.events[e].arrive, e);
    }
  }
}
