/** What one call of `onTimer` runs and what it leaves pending. */
module TimerBatch {
  import opened TimerSpec
  import opened TimerMachine
  import opened TimerHistory

  // ---- The scan ----

  lemma {:induction false} LiveMember<E>(events: map<E, Event>, s: seq<Entry<E>>, e: E)
    ensures e in Live(events, s)
       <==> e in events && !events[e].canceled && exists i :: 0 <= i < |s| && s[i].event == e
  {
    if s != [] {
      LiveMember(events, s[1..], e);
      assert forall i :: 0 < i < |s| ==> s[i] == s[1..][i - 1];
      if exists i :: 0 <= i < |s| && s[i].event == e && s[0].event != e {
        var i :| 0 <= i < |s| && s[i].event == e && s[0].event != e;
        assert s[1..][i - 1].event == e;
      }
    }
  }

  /** The batch holds just the events that are due and not cancelled. */
  lemma BatchExact<E>(s: State<E>, now: int, e: E)
    ensures e in Batch(s, now)
       <==> e in s.events && !s.events[e].canceled && exists x :: x in s.bag && x.event == e && x.key <= now
  {
    hide Sort, Filter, Live;
    var due := Sort(Filter(s.bag, IsDue(now)));
    LiveMember(s.events, due, e);
    forall x ensures x in due <==> x in s.bag && x.key <= now {
      DueMember(s.bag, now, x);
    }
    if x :| x in s.bag && x.event == e && x.key <= now {
      assert x in due;
      var i :| 0 <= i < |due| && due[i] == x;
    }
    if i :| 0 <= i < |due| && due[i].event == e {
      assert due[i] in due;
    }
  }

  /** The events of a sequence are picked from entries, each further on than the one before it. */
  predicate PickedAt<E(==)>(entries: seq<Entry<E>>, events: seq<E>, at: seq<nat>) {
    && |at| == |events|
    && (forall i :: 0 <= i < |at| ==> at[i] < |entries| && entries[at[i]].event == events[i])
    && forall i, j :: 0 <= i < j < |at| ==> at[i] < at[j]
  }

  /** A batch is in the order of the arrivals, and of insertion where these are equal. */
  lemma BatchInOrder<E>(s: State<E>, now: int)
    ensures exists at :: PickedAt(Sort(Filter(s.bag, IsDue(now))), Batch(s, now), at)
  {
    hide Sort, Filter, Live, PickedAt;
    var due := Sort(Filter(s.bag, IsDue(now)));
    LivePicked(s.events, due);
    var at :| PickedAt(due, Live(s.events, due), at);
    assert PickedAt(due, Batch(s, now), at);
  }

  lemma {:induction false} LivePicked<E>(events: map<E, Event>, s: seq<Entry<E>>)
    ensures exists at :: PickedAt(s, Live(events, s), at)
  {
    if s == [] {
      assert PickedAt(s, Live(events, s), []);
    } else {
      LivePicked(events, s[1..]);
      var later := Live(events, s[1..]);
      var at :| PickedAt(s[1..], later, at);
      hide PickedAt;
      PickedBehind(s, later, at);
      assert Live(events, s) == later || Live(events, s) == [s[0].event] + later;
    }
  }

  lemma PickedBehind<E>(s: seq<Entry<E>>, later: seq<E>, at: seq<nat>)
    requires s != [] && PickedAt(s[1..], later, at)
    ensures exists to :: PickedAt(s, later, to)
    ensures exists to :: PickedAt(s, [s[0].event] + later, to)
  {
    var to: seq<nat> := seq(|at|, i requires 0 <= i < |at| => at[i] + 1);
    assert PickedAt(s, later, to) && forall i :: 0 <= i < |to| ==> to[i] > 0;
    PickedAhead(s, later, to);
  }

  lemma PickedAhead<E>(s: seq<Entry<E>>, later: seq<E>, to: seq<nat>)
    requires s != [] && PickedAt(s, later, to) && forall i :: 0 <= i < |to| ==> to[i] > 0
    ensures exists to' :: PickedAt(s, [s[0].event] + later, to')
  {
    var events, whole := [s[0].event] + later, [0] + to;
    assert forall i :: 0 < i < |whole| ==> whole[i] == to[i - 1] && events[i] == later[i - 1];
    assert PickedAt(s, events, whole);
  }

  lemma DueMember<E>(bag: seq<Entry<E>>, now: int, x: Entry<E>)
    ensures x in Sort(Filter(bag, IsDue(now))) <==> x in bag && x.key <= now
  {
    hide Sort, Filter;
    var due := Filter(bag, IsDue(now));
    FilterSubset(bag, IsDue(now), x);
    SortSorted(due);
    assert x in Sort(due) <==> x in multiset(Sort(due));
  }

  /** A scan leaves every entry that is not yet due, and only those, in the order in which they were inserted. */
  lemma ScanKeepsTheRest<E>(s: State<E>, now: int, resetNow: int, x: Entry<E>)
    requires s.mode.Idle?
    ensures x in Do(s, Scan(now, resetNow)).bag <==> x in s.bag && x.key > now
    ensures multiset(Do(s, Scan(now, resetNow)).bag)[x] == if x.key > now then multiset(s.bag)[x] else 0
  {
    hide MinKey, Batch;
    FilterSubset(s.bag, NotDue(now), x);
    FilterCount(s.bag, NotDue(now), x);
  }

  lemma {:induction false} FilterCount<E>(bag: seq<Entry<E>>, p: Entry<E> -> bool, x: Entry<E>)
    ensures multiset(Filter(bag, p))[x] == if p(x) then multiset(bag)[x] else 0
  {
    if bag != [] {
      FilterCount(bag[1..], p, x);
      assert bag == [bag[0]] + bag[1..];
    }
  }

  /** In a sorted list the due entries are a prefix. */
  lemma {:induction false} DueIsPrefix<E>(s: seq<Entry<E>>, now: int, n: nat)
    requires n <= |s|
    requires forall i :: 0 <= i < n ==> s[i].key <= now
    requires forall i :: n <= i < |s| ==> s[i].key > now
    ensures Filter(s, IsDue(now)) == s[..n] && Filter(s, NotDue(now)) == s[n..]
  {
    if s != [] {
      var rest := s[1..];
      if n == 0 {
        DueIsPrefix(rest, now, 0);
        assert s == [s[0]] + rest[0..];
      } else {
        DueIsPrefix(rest, now, n - 1);
        assert s[..n] == [s[0]] + rest[..n - 1] && s[n..] == rest[n - 1..];
      }
    } else {
      assert s[..n] == [] && s[n..] == [];
    }
  }

  /**
   So walking the sorted list up to the first entry not yet due collects the batch of the bag, and erasing what was
   walked over leaves the sorted rest of the bag.
   */
  lemma PrefixScan<E>(s: State<E>, now: int, n: nat)
    requires n <= |s.bag|
    requires |Sort(s.bag)| == |s.bag|
    requires forall i :: 0 <= i < n ==> Sort(s.bag)[i].key <= now
    requires n < |s.bag| ==> Sort(s.bag)[n].key > now
    ensures Live(s.events, Sort(s.bag)[..n]) == Batch(s, now)
    ensures Sort(s.bag)[n..] == Sort(Filter(s.bag, NotDue(now)))
  {
    SortSorted(s.bag);
    DueIsPrefix(Sort(s.bag), now, n);
    FilterSort(s.bag, IsDue(now));
    FilterSort(s.bag, NotDue(now));
  }

  // ---- The turns of a batch ----

  /** How many turns of the batch are over. */
  function Fired<E>(steps: seq<Step<E>>): nat {
    if steps == [] then 0 else Fired(steps[..|steps| - 1]) + if steps[|steps| - 1].Fire? then 1 else 0
  }

  /** The steps ahead of turn `k`. */
  function Ahead<E>(steps: seq<Step<E>>, k: nat): seq<Step<E>>
    requires k < Fired(steps)
  {
    var init := steps[..|steps| - 1];
    if steps[|steps| - 1].Fire? && Fired(init) == k then init else Ahead(init, k)
  }

  /**
   Those of the batch, in order, that had a task when `onTimer` was called and that no step ahead of their turn has
   cancelled or deleted.
   */
  ghost function Chosen<E>(s: State<E>, steps: seq<Step<E>>, batch: seq<E>): seq<E>
    requires |batch| <= Fired(steps)
  {
    if batch == [] then []
    else
      var n := |batch| - 1;
      var e := batch[n];
      Chosen(s, steps, batch[..n]) +
      if e in s.events && s.events[e].task && !Touched(Ahead(steps, n), e) then [e] else []
  }

  lemma FiredSnoc<E>(steps: seq<Step<E>>, step: Step<E>)
    ensures Fired(steps + [step]) == Fired(steps) + if step.Fire? then 1 else 0
  {
    assert (steps + [step])[..|steps + [step]| - 1] == steps;
  }

  lemma AheadSnoc<E>(steps: seq<Step<E>>, step: Step<E>, k: nat)
    requires k < Fired(steps + [step])
    ensures k < Fired(steps) ==> Ahead(steps + [step], k) == Ahead(steps, k)
    ensures step.Fire? && k == Fired(steps) ==> Ahead(steps + [step], k) == steps
  {
    assert (steps + [step])[..|steps + [step]| - 1] == steps;
  }

  lemma {:induction false} ChosenSnoc<E>(s: State<E>, steps: seq<Step<E>>, step: Step<E>, batch: seq<E>)
    requires |batch| <= Fired(steps)
    ensures |batch| <= Fired(steps + [step])
    ensures Chosen(s, steps + [step], batch) == Chosen(s, steps, batch)
  {
    hide Fired, Ahead;
    FiredSnoc(steps, step);
    if batch != [] {
      ChosenSnoc(s, steps, step, batch[..|batch| - 1]);
      AheadSnoc(steps, step, |batch| - 1);
    }
  }

  /** The steps of one call of `onTimer`, up to wherever it has got, with what other threads and its tasks do in between. */
  predicate OneCall<E>(steps: seq<Step<E>>) {
    steps != [] && steps[0].Scan? && forall i :: 0 < i < |steps| ==> !steps[i].Scan?
  }

  /** How far a call has got. */
  ghost predicate Progress<E>(s: State<E>, steps: seq<Step<E>>, t: State<E>, batch: seq<E>) {
    match t.mode
    case Refiling(b, _) => b == batch && Fired(steps) == 0 && t.ran == s.ran
    case Firing(b, next) => b == batch && Fired(steps) == next <= |batch| && t.ran == s.ran + Chosen(s, steps, batch[..next])
    case Idle => Fired(steps) == |batch| && t.ran == s.ran + Chosen(s, steps, batch)
  }

  lemma StepMode<E>(t: State<E>, step: Step<E>)
    requires Can(t, step)
    ensures (step.Meet? || step.Add? || step.Delete? || step.Cancel?) ==> Do(t, step).mode == t.mode && Do(t, step).ran == t.ran
    ensures step.Refile? ==> Do(t, step).mode == Refiling(t.mode.batch, t.mode.next + 1) && Do(t, step).ran == t.ran
  {
    hide MinKey, Without, Put, Remove;
    match step
    case Add(f, now) => PutKeeps(t, f, now);
    case Delete(f, now) => RemoveKeeps(SetCanceled(t, f, true), f, now);
    case Refile(arriveNow, now) =>
      var f := t.mode.batch[t.mode.next];
      if t.events[f].repeats {
        PutKeeps(Renewed(t, arriveNow), f, now);
      }
    case _ =>
  }

  lemma FireProgress<E>(s: State<E>, steps: seq<Step<E>>, batch: seq<E>)
    requires IsRun(s, steps) && forall e :: e in batch ==> e in s.events
    requires var t := After(s, steps); t.mode.Firing? && Progress(s, steps, t, batch) && Can(t, Fire)
    ensures Progress(s, steps + [Fire], Do(After(s, steps), Fire), batch)
  {
    hide IsRun, After, Touched, Fired, Ahead, Chosen;
    var t := After(s, steps);
    var next := t.mode.next;
    var e := batch[next];
    TaskKept(s, steps, e);
    FiredSnoc(steps, Fire);
    AheadSnoc(steps, Fire, next);
    ChosenSnoc(s, steps, Fire, batch[..next]);
    ChosenNext(s, steps + [Fire], batch, next);
  }

  lemma ChosenNext<E>(s: State<E>, steps: seq<Step<E>>, batch: seq<E>, next: nat)
    requires next < |batch| && next < Fired(steps)
    ensures Chosen(s, steps, batch[..next + 1]) == Chosen(s, steps, batch[..next]) +
      if batch[next] in s.events && s.events[batch[next]].task && !Touched(Ahead(steps, next), batch[next])
      then [batch[next]] else []
  {
    hide Fired, Ahead, Touched;
    assert batch[..next + 1][..next] == batch[..next];
  }

  lemma StepProgress<E>(s: State<E>, steps: seq<Step<E>>, step: Step<E>, batch: seq<E>)
    requires IsRun(s, steps) && Can(After(s, steps), step) && !step.Scan?
    requires forall e :: e in batch ==> e in s.events
    requires Progress(s, steps, After(s, steps), batch)
    ensures Progress(s, steps + [step], Do(After(s, steps), step), batch)
  {
    hide IsRun, After, Touched, Fired, Ahead, Chosen, Put, Remove;
    FiredSnoc(steps, step);
    var t := After(s, steps);
    if step.Fire? {
      FireProgress(s, steps, batch);
    } else {
      StepMode(t, step);
      match t.mode
      case Refiling(b, next) =>
        if step.BeginFiring? { ChosenNothing(s, steps + [step], batch); }
      case Firing(b, next) =>
        ChosenSnoc(s, steps, step, batch[..next]);
        if step.Finish? { assert batch[..next] == batch; }
      case Idle => ChosenSnoc(s, steps, step, batch);
    }
  }

  lemma ChosenNothing<E>(s: State<E>, steps: seq<Step<E>>, batch: seq<E>)
    ensures Chosen(s, steps, batch[..0]) == []
  {
  }

  lemma {:induction false} CallProgress<E>(s: State<E>, steps: seq<Step<E>>)
    requires s.mode.Idle? && IsRun(s, steps) && OneCall(steps)
    ensures Progress(s, steps, After(s, steps), Batch(s, steps[0].now))
  {
    hide Can, Do, Progress, Batch;
    var init, last := steps[..|steps| - 1], steps[|steps| - 1];
    assert steps == init + [last];
    var batch := Batch(s, steps[0].now);
    if |steps| == 1 {
      assert init == [];
      ScanProgress(s, steps);
    } else {
      CallProgress(s, init);
      forall e | e in batch ensures e in s.events {
        BatchExact(s, steps[0].now, e);
      }
      StepProgress(s, init, last, batch);
    }
  }

  lemma ScanProgress<E>(s: State<E>, steps: seq<Step<E>>)
    requires s.mode.Idle? && |steps| == 1 && steps[0].Scan?
    ensures Progress(s, steps, Do(s, steps[0]), Batch(s, steps[0].now))
  {
    hide MinKey, Batch, Filter;
    assert Fired(steps[..0]) == 0;
  }

  /**
   One call of `onTimer` runs the tasks of just those events that were due and not cancelled when it scanned, and
   that nothing cancelled before their turn; each once, by arrival and then in the order in which they were inserted.
   */
  lemma OnTimerRunsTheChosen<E>(s: State<E>, steps: seq<Step<E>>)
    requires s.mode.Idle? && IsRun(s, steps) && OneCall(steps) && After(s, steps).mode.Idle?
    ensures Fired(steps) == |Batch(s, steps[0].now)|
    ensures After(s, steps).ran == s.ran + Chosen(s, steps, Batch(s, steps[0].now))
  {
    hide Can, Do, Batch, Chosen, Fired;
    CallProgress(s, steps);
  }

  // ---- One event that nobody else touches ----

  /** No step is about the event but those of `onTimer` itself. */
  predicate LeftAlone<E(==)>(steps: seq<Step<E>>, e: E) {
    forall i :: 0 <= i < |steps| ==> IsOther(steps[i], e)
  }

  predicate IsOther<E(==)>(step: Step<E>, e: E) {
    step.Meet? || step.Add? || step.Delete? || step.Cancel? ==> step.event != e
  }

  /** An event that does not repeat is pending or has its turn to come as often as before, whatever others do. */
  ghost predicate Stays<E>(s: State<E>, t: State<E>, e: E, pending: nat, runs: nat) {
    && e in s.events && e in t.events && t.events[e] == s.events[e]
    && Count(t.bag, e) == pending
    && multiset(t.ran)[e] + (if s.events[e].task then Turns(t.mode, e) else 0) == runs
  }

  lemma StepStays<E>(s: State<E>, t: State<E>, step: Step<E>, e: E, pending: nat, runs: nat)
    requires Can(t, step) && !step.Scan? && IsOther(step, e)
    requires Stays(s, t, e, pending, runs) && !s.events[e].repeats
    ensures Stays(s, Do(t, step), e, pending, runs)
  {
    hide Count, Put, Remove, Without;
    match step
    case Meet(f, known) =>
    case Add(f, now) => PutKeeps(t, f, now); PutCount(t, f, now, e);
    case Delete(f, now) =>
      RemoveKeeps(SetCanceled(t, f, true), f, now);
      CountWithout(t.bag, Entry(t.events[f].arrive, f), e);
    case Cancel(f, value) =>
    case Refile(arriveNow, now) => RefileStays(s, t, arriveNow, now, e, pending, runs);
    case BeginFiring => assert t.mode.batch[0..] == t.mode.batch;
    case Fire => FireStays(s, t, e, pending, runs);
    case Finish => assert t.mode.batch[t.mode.next..] == [];
  }

  lemma FireStays<E>(s: State<E>, t: State<E>, e: E, pending: nat, runs: nat)
    requires Can(t, Fire) && Stays(s, t, e, pending, runs)
    ensures Stays(s, Do(t, Fire), e, pending, runs)
  {
    hide Count;
    assert t.mode.batch[t.mode.next..] == [t.mode.batch[t.mode.next]] + t.mode.batch[t.mode.next + 1..];
  }

  lemma RefileStays<E>(s: State<E>, t: State<E>, arriveNow: int, now: int, e: E, pending: nat, runs: nat)
    requires Can(t, Refile(arriveNow, now)) && Stays(s, t, e, pending, runs) && !s.events[e].repeats
    ensures Stays(s, Do(t, Refile(arriveNow, now)), e, pending, runs)
  {
    hide Count, Put;
    var f := t.mode.batch[t.mode.next];
    if t.events[f].repeats {
      PutKeeps(Renewed(t, arriveNow), f, now);
      PutCount(Renewed(t, arriveNow), f, now, e);
    }
  }

  lemma ScanStays<E>(s: State<E>, scan: Step<E>, e: E)
    requires s.mode.Idle? && scan.Scan? && e in s.events && (s.events[e].canceled ==> !s.events[e].task)
    ensures Stays(s, Do(s, scan), e, Count(Filter(s.bag, NotDue(scan.now)), e),
                  multiset(s.ran)[e] + if s.events[e].task then Count(Filter(s.bag, IsDue(scan.now)), e) else 0)
  {
    hide Count, Batch, MinKey, Filter;
    BatchCount(s, scan.now, e);
  }

  lemma {:induction false} CallStays<E>(s: State<E>, steps: seq<Step<E>>, e: E)
    requires s.mode.Idle? && IsRun(s, steps) && OneCall(steps) && LeftAlone(steps, e)
    requires e in s.events && !s.events[e].repeats && (s.events[e].canceled ==> !s.events[e].task)
    ensures Stays(s, After(s, steps), e, Count(Filter(s.bag, NotDue(steps[0].now)), e),
                  multiset(s.ran)[e] + if s.events[e].task then Count(Filter(s.bag, IsDue(steps[0].now)), e) else 0)
  {
    hide Can, Do, Stays, Count, Filter, IsOther;
    var init, last := steps[..|steps| - 1], steps[|steps| - 1];
    assert steps == init + [last];
    if |steps| == 1 {
      assert init == [];
      ScanStays(s, last, e);
    } else {
      CallStays(s, init, e);
      StepStays(s, After(s, init), last, e, Count(Filter(s.bag, NotDue(steps[0].now)), e),
                multiset(s.ran)[e] + if s.events[e].task then Count(Filter(s.bag, IsDue(steps[0].now)), e) else 0);
    }
  }

  /**
   A one-shot event pending once that nobody else touches: a call of `onTimer` takes it out and, if it still has its
   task, runs it once, exactly if it is due; otherwise it leaves it as it is.
   */
  lemma OneShotInCall<E>(s: State<E>, steps: seq<Step<E>>, e: E)
    requires s.mode.Idle? && IsRun(s, steps) && OneCall(steps) && LeftAlone(steps, e) && After(s, steps).mode.Idle?
    requires Keyed(s, e) && !s.events[e].repeats && (s.events[e].canceled ==> !s.events[e].task) && Count(s.bag, e) <= 1
    ensures var t := After(s, steps);
            var due := Count(s.bag, e) == 1 && s.events[e].arrive <= steps[0].now;
            && e in t.events && t.events[e] == s.events[e]
            && Count(t.bag, e) == (if due then 0 else Count(s.bag, e))
            && multiset(t.ran)[e] == multiset(s.ran)[e] + if due && s.events[e].task then 1 else 0
  {
    hide Can, Do, IsRun, After, Count, Filter, LeftAlone;
    CallStays(s, steps, e);
    DueCount(s, steps[0].now, e);
  }

  /** As long as it is not added again it stays filed under its own arrival. */
  lemma {:induction false} KeyedInCall<E>(s: State<E>, steps: seq<Step<E>>, e: E)
    requires IsRun(s, steps) && LeftAlone(steps, e)
    requires Keyed(s, e) && Count(s.bag, e) + Waiting(s.mode, e) <= 1
    ensures Keyed(After(s, steps), e)
    ensures Count(After(s, steps).bag, e) + Waiting(After(s, steps).mode, e) <= 1
  {
    hide Can, Do, Count, Waiting;
    if steps != [] {
      var init, last := steps[..|steps| - 1], steps[|steps| - 1];
      KeyedInCall(s, init, e);
      StepWaiting(After(s, init), last, e);
      StepEvents(After(s, init), last, e);
      StepKeyed(After(s, init), last, e);
    }
  }

  lemma DueCount<E>(s: State<E>, now: int, e: E)
    requires Keyed(s, e) && Count(s.bag, e) <= 1
    ensures var due := Count(s.bag, e) == 1 && s.events[e].arrive <= now;
            && Count(Filter(s.bag, IsDue(now)), e) == (if due then 1 else 0)
            && Count(Filter(s.bag, NotDue(now)), e) == if due then 0 else Count(s.bag, e)
  {
    hide Count, Filter;
    CountSplit(s.bag, now, e);
    CountMember(Filter(s.bag, IsDue(now)), e);
    CountMember(Filter(s.bag, NotDue(now)), e);
    forall x ensures x in Filter(s.bag, IsDue(now)) <==> x in s.bag && x.key <= now {
      FilterSubset(s.bag, IsDue(now), x);
    }
    forall x ensures x in Filter(s.bag, NotDue(now)) <==> x in s.bag && x.key > now {
      FilterSubset(s.bag, NotDue(now), x);
    }
    if s.events[e].arrive <= now {
      assert forall x :: x in Filter(s.bag, NotDue(now)) ==> x.event != e;
      assert forall i :: 0 <= i < |Filter(s.bag, NotDue(now))| ==> Filter(s.bag, NotDue(now))[i] in Filter(s.bag, NotDue(now));
    } else {
      assert forall x :: x in Filter(s.bag, IsDue(now)) ==> x.event != e;
      assert forall i :: 0 <= i < |Filter(s.bag, IsDue(now))| ==> Filter(s.bag, IsDue(now))[i] in Filter(s.bag, IsDue(now));
    }
  }
}
