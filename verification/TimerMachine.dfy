/** The steps of the timer on its bag of deadlines, and what holds over all runs of them. */
module TimerMachine {
  import opened TimerSpec

  datatype Option<T> = None | Some(value: T)

  /**
   Where `onTimer` is: not running, putting the repeating events of its batch back, or running the tasks of the
   batch; `next` is the event whose turn it is.
   */
  datatype Mode<E> = Idle | Refiling(batch: seq<E>, next: nat) | Firing(batch: seq<E>, next: nat)

  /**
   `events` holds the events the timer has met; `armed` is the deadline last given to the kernel timer, which stays when
   the timer expires; `ran` lists the tasks run, and `adds` counts the calls of `addTimerEvent` from outside.
   */
  datatype State<E(==)> = State(events: map<E, Event>, bag: seq<Entry<E>>, armed: Option<int>, lastReset: int,
                                mode: Mode<E>, ran: seq<E>, adds: multiset<E>)

  datatype Step<E> =
    | Meet(event: E, known: Event)
    | Add(event: E, now: int)
    | Delete(event: E, now: int)
    | Cancel(event: E, value: bool)
    | Scan(now: int, resetNow: int)
    | Refile(arriveNow: int, now: int)
    | BeginFiring
    | Fire
    | Finish

  // ---- The steps ----

  function MinKey<E>(bag: seq<Entry<E>>): int
    requires bag != []
  {
    if |bag| == 1 then bag[0].key
    else
      var m := MinKey(bag[..|bag| - 1]);
      if bag[|bag| - 1].key < m then bag[|bag| - 1].key else m
  }

  /** The delay of an event that is due already, in milliseconds. */
  const SOON := 100

  /** The deadline for an earliest arrival `first` when the timer is set at `now`. */
  function Deadline(first: int, now: int): int {
    if first > now then first else now + SOON
  }

  /** `resetTimer` */
  function Reset<E>(s: State<E>, now: int): State<E> {
    if s.bag == [] then s.(armed := None, lastReset := now)
    else s.(armed := Some(Deadline(MinKey(s.bag), now)), lastReset := now)
  }

  function Put<E>(s: State<E>, e: E, now: int): State<E>
    requires e in s.events
  {
    var x := Entry(s.events[e].arrive, e);
    var s' := s.(bag := s.bag + [x]);
    if s.bag == [] || x.key < MinKey(s.bag) then Reset(s', now) else s'
  }

  /** `setCanceled`, which drops the task whatever the value. */
  function SetCanceled<E>(s: State<E>, e: E, value: bool): State<E>
    requires e in s.events
  {
    s.(events := s.events[e := s.events[e].(canceled := value, task := false)])
  }

  /** The sequence without the first occurrence of `x`. */
  function Without<T(==)>(s: seq<T>, x: T): seq<T> {
    if s == [] then [] else if s[0] == x then s[1..] else [s[0]] + Without(s[1..], x)
  }

  function Remove<E>(s: State<E>, e: E, now: int): State<E>
    requires e in s.events
  {
    var x := Entry(s.events[e].arrive, e);
    var s' := s.(bag := Without(s.bag, x));
    if x in s.bag && (s'.bag == [] || MinKey(s'.bag) != x.key) then Reset(s', now) else s'
  }

  function IsDue<E>(now: int): Entry<E> -> bool {
    (x: Entry<E>) => x.key <= now
  }

  function NotDue<E>(now: int): Entry<E> -> bool {
    (x: Entry<E>) => x.key > now
  }

  /** The events of entries, less those cancelled. */
  function Live<E>(events: map<E, Event>, s: seq<Entry<E>>): seq<E> {
    if s == [] then []
    else
      (if s[0].event in events && !events[s[0].event].canceled then [s[0].event] else []) + Live(events, s[1..])
  }

  /** What a scan at `now` collects: the due events that are not cancelled, by arrival and then in the order of insertion. */
  function Batch<E>(s: State<E>, now: int): seq<E> {
    Live(s.events, Sort(Filter(s.bag, IsDue(now))))
  }

  predicate Can<E>(s: State<E>, step: Step<E>) {
    match step
    case Meet(e, value) => e !in s.events
    case Add(e, _) => e in s.events
    case Delete(e, _) => e in s.events
    case Cancel(e, _) => e in s.events
    case Scan(_, _) => s.mode.Idle?
    case Refile(_, _) => s.mode.Refiling? && s.mode.next < |s.mode.batch| && s.mode.batch[s.mode.next] in s.events
    case BeginFiring => s.mode.Refiling? && s.mode.next == |s.mode.batch|
    case Fire => s.mode.Firing? && s.mode.next < |s.mode.batch| && s.mode.batch[s.mode.next] in s.events
    case Finish => s.mode.Firing? && s.mode.next == |s.mode.batch|
  }

  function Do<E>(s: State<E>, step: Step<E>): State<E>
    requires Can(s, step)
  {
    match step
    case Meet(e, value) => s.(events := s.events[e := value])
    case Add(e, now) => Put(s, e, now).(adds := s.adds + multiset{e})
    case Delete(e, now) => Remove(SetCanceled(s, e, true), e, now)
    case Cancel(e, value) => SetCanceled(s, e, value)
    case Scan(now, resetNow) =>
      Reset(s.(bag := Filter(s.bag, NotDue(now)), mode := Refiling(Batch(s, now), 0)), resetNow)
    case Refile(arriveNow, now) =>
      var e := s.mode.batch[s.mode.next];
      var ev := s.events[e];
      var s' := s.(mode := Refiling(s.mode.batch, s.mode.next + 1));
      if ev.repeats then Put(s'.(events := s.events[e := ev.(arrive := arriveNow + ev.interval)]), e, now) else s'
    case BeginFiring => s.(mode := Firing(s.mode.batch, 0))
    case Fire =>
      var e := s.mode.batch[s.mode.next];
      s.(mode := Firing(s.mode.batch, s.mode.next + 1), ran := s.ran + if s.events[e].task then [e] else [])
    case Finish => s.(mode := Idle)
  }

  predicate IsRun<E>(s: State<E>, steps: seq<Step<E>>)
    decreases |steps|, 0
  {
    steps == [] ||
    (IsRun(s, steps[..|steps| - 1]) && Can(After(s, steps[..|steps| - 1]), steps[|steps| - 1]))
  }

  function After<E>(s: State<E>, steps: seq<Step<E>>): State<E>
    requires IsRun(s, steps)
    decreases |steps|, 1
  {
    if steps == [] then s else Do(After(s, steps[..|steps| - 1]), steps[|steps| - 1])
  }

  lemma RunSnoc<E>(s: State<E>, steps: seq<Step<E>>, step: Step<E>)
    ensures IsRun(s, steps + [step]) <==> IsRun(s, steps) && Can(After(s, steps), step)
    ensures IsRun(s, steps + [step]) ==> After(s, steps + [step]) == Do(After(s, steps), step)
  {
    hide Can, Do;
    assert (steps + [step])[..|steps + [step]| - 1] == steps;
  }

  /** A timer just created, with events that have not been cancelled. */
  predicate Initial<E>(s: State<E>) {
    && s.bag == [] && s.armed == None && s.mode == Idle && s.ran == [] && s.adds == multiset{}
    && forall e :: e in s.events ==> !s.events[e].canceled
  }

  // ---- The kernel timer is armed for the earliest arrival ----

  /**
   The timer is disarmed exactly when nothing is pending; otherwise it is armed for the earliest arrival, if that
   lay in the future when the timer was last set, and for 100 ms after it was last set if not.
   */
  predicate ArmedRight<E>(s: State<E>) {
    s.armed == if s.bag == [] then None else Some(Deadline(MinKey(s.bag), s.lastReset))
  }

  /** Entry `i` is one of the earliest. */
  ghost predicate Earliest<E>(bag: seq<Entry<E>>, i: nat) {
    i < |bag| && forall j :: 0 <= j < |bag| ==> bag[i].key <= bag[j].key
  }

  /** The kernel timer runs exactly while something is pending, and always for a time after it was set. */
  ghost predicate ArmedFor<E>(bag: seq<Entry<E>>, armed: Option<int>, setAt: int) {
    && (armed == None <==> bag == [])
    && (armed.Some? ==> armed.value > setAt)
    && forall i: nat :: Earliest(bag, i) && armed.Some? ==>
         armed.value == if bag[i].key > setAt then bag[i].key else setAt + 100
  }

  lemma ArmedRightIsFor<E>(s: State<E>)
    ensures ArmedRight(s) <==> ArmedFor(s.bag, s.armed, s.lastReset)
  {
    hide MinKey;
    if s.bag != [] {
      MinKeyIsLeast(s.bag);
      var i :| 0 <= i < |s.bag| && MinKey(s.bag) == s.bag[i].key;
      assert Earliest(s.bag, i);
    }
  }

  lemma MinKeySnoc<E>(bag: seq<Entry<E>>, x: Entry<E>)
    requires bag != []
    ensures MinKey(bag + [x]) == if x.key < MinKey(bag) then x.key else MinKey(bag)
  {
    assert (bag + [x])[..|bag + [x]| - 1] == bag;
  }

  /** The least key is a key of the bag, and a lower bound of all. */
  lemma {:induction false} MinKeyIsLeast<E>(bag: seq<Entry<E>>)
    requires bag != []
    ensures forall i :: 0 <= i < |bag| ==> MinKey(bag) <= bag[i].key
    ensures exists i :: 0 <= i < |bag| && MinKey(bag) == bag[i].key
  {
    if |bag| > 1 {
      MinKeyIsLeast(bag[..|bag| - 1]);
      var i :| 0 <= i < |bag| - 1 && MinKey(bag[..|bag| - 1]) == bag[i].key;
      assert MinKey(bag) == bag[i].key || MinKey(bag) == bag[|bag| - 1].key;
    } else {
      assert MinKey(bag) == bag[0].key;
    }
  }

  lemma {:induction false} WithoutMultiset<T>(s: seq<T>, x: T)
    requires x in s
    ensures multiset(Without(s, x)) == multiset(s) - multiset{x}
    ensures |Without(s, x)| == |s| - 1
  {
    assert s == [s[0]] + s[1..];
    if s[0] != x {
      WithoutMultiset(s[1..], x);
    }
  }

  lemma {:induction false} WithoutNothing<T>(s: seq<T>, x: T)
    requires x !in s
    ensures Without(s, x) == s
  {
    if s != [] {
      WithoutNothing(s[1..], x);
      assert s == [s[0]] + s[1..];
    }
  }

  lemma MinKeyWithout<E>(bag: seq<Entry<E>>, x: Entry<E>)
    requires x in bag && Without(bag, x) != [] && MinKey(Without(bag, x)) == x.key
    ensures MinKey(bag) == x.key
  {
    var rest := Without(bag, x);
    WithoutMultiset(bag, x);
    MinKeyIsLeast(bag);
    MinKeyIsLeast(rest);
    var i :| 0 <= i < |bag| && MinKey(bag) == bag[i].key;
    if bag[i] != x {
      assert bag[i] in multiset(rest);
      assert bag[i] in rest;
    }
  }

  lemma PutArmed<E>(s: State<E>, e: E, now: int)
    requires e in s.events && ArmedRight(s)
    ensures ArmedRight(Put(s, e, now))
  {
    if s.bag != [] {
      MinKeySnoc(s.bag, Entry(s.events[e].arrive, e));
    }
  }

  lemma RemoveArmed<E>(s: State<E>, e: E, now: int)
    requires e in s.events && ArmedRight(s)
    ensures ArmedRight(Remove(s, e, now))
  {
    var x := Entry(s.events[e].arrive, e);
    if x !in s.bag {
      WithoutNothing(s.bag, x);
    } else if Without(s.bag, x) != [] && MinKey(Without(s.bag, x)) == x.key {
      MinKeyWithout(s.bag, x);
    }
  }

  lemma StepArmed<E>(s: State<E>, step: Step<E>)
    requires Can(s, step) && ArmedRight(s)
    ensures ArmedRight(Do(s, step))
  {
    hide Put, Remove, Filter, Batch, MinKey;
    match step
    case Add(e, now) => PutArmed(s, e, now);
    case Delete(e, now) => RemoveArmed(SetCanceled(s, e, true), e, now);
    case Refile(arriveNow, now) =>
      var e := s.mode.batch[s.mode.next];
      var ev := s.events[e];
      if ev.repeats {
        PutArmed(s.(mode := Refiling(s.mode.batch, s.mode.next + 1),
                    events := s.events[e := ev.(arrive := arriveNow + ev.interval)]), e, now);
      }
    case _ =>
  }

  /** After every run of steps, each taken with its reset, the kernel timer is armed as it should be. */
  lemma {:induction false} AlwaysArmedRight<E>(s: State<E>, steps: seq<Step<E>>)
    requires Initial(s) && IsRun(s, steps)
    ensures ArmedRight(After(s, steps))
    ensures ArmedFor(After(s, steps).bag, After(s, steps).armed, After(s, steps).lastReset)
  {
    hide Can, Do, ArmedFor;
    ArmedRightIsFor(After(s, steps));
    if steps != [] {
      AlwaysArmedRight(s, steps[..|steps| - 1]);
      StepArmed(After(s, steps[..|steps| - 1]), steps[|steps| - 1]);
    }
  }
}
