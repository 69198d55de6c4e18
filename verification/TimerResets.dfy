/**
 The timer used by several threads. What `resetTimer` does comes apart: under the lock a thread edits the entries, under
 the lock again it looks for the earliest arrival, and only then, without the lock, it sets the kernel timer. Between
 these parts other threads take theirs.
 */
module TimerResets {
  import opened TimerSpec
  import opened TimerMachine
  import opened TimerHistory

  // ---- A step is an edit, and for some a reset ----

  /** What a step does to the events and the entries. */
  function Edit<E>(s: State<E>, step: Step<E>): State<E>
    requires Can(s, step)
  {
    match step
    case Add(e, _) => s.(bag := s.bag + [Entry(s.events[e].arrive, e)], adds := s.adds + multiset{e})
    case Delete(e, _) => SetCanceled(s, e, true).(bag := Without(s.bag, Entry(s.events[e].arrive, e)))
    case Scan(now, _) => s.(bag := Filter(s.bag, NotDue(now)), mode := Refiling(Batch(s, now), 0))
    case Refile(arriveNow, _) =>
      var e, t := s.mode.batch[s.mode.next], s.(mode := Refiling(s.mode.batch, s.mode.next + 1));
      if s.events[e].repeats then
        var arrive := arriveNow + s.events[e].interval;
        t.(events := s.events[e := s.events[e].(arrive := arrive)], bag := s.bag + [Entry(arrive, e)])
      else t
    case _ => Do(s, step)
  }

  /** Whether `resetTimer` follows. */
  predicate NeedsReset<E(==)>(s: State<E>, step: Step<E>)
    requires Can(s, step)
  {
    match step
    case Add(e, _) => s.bag == [] || s.events[e].arrive < MinKey(s.bag)
    case Delete(e, _) =>
      var x := Entry(s.events[e].arrive, e);
      x in s.bag && (Without(s.bag, x) == [] || MinKey(Without(s.bag, x)) != x.key)
    case Scan(_, _) => true
    case Refile(arriveNow, _) =>
      var e := s.mode.batch[s.mode.next];
      s.events[e].repeats && (s.bag == [] || arriveNow + s.events[e].interval < MinKey(s.bag))
    case _ => false
  }

  function ClockOf<E>(step: Step<E>): int {
    match step
    case Add(_, now) => now
    case Delete(_, now) => now
    case Scan(_, resetNow) => resetNow
    case Refile(_, now) => now
    case _ => 0
  }

  lemma StepIsEditThenReset<E>(s: State<E>, step: Step<E>)
    requires Can(s, step)
    ensures Do(s, step) == if NeedsReset(s, step) then Reset(Edit(s, step), ClockOf(step)) else Edit(s, step)
  {
    hide MinKey, Filter, Batch;
    match step
    case Delete(e, now) =>
      var x := Entry(s.events[e].arrive, e);
      if x !in s.bag {
        WithoutNothing(s.bag, x);
      }
    case _ =>
  }

  // ---- The parts ----

  datatype Phase = MustLook | MustSet(least: int)

  /**
   `resets` holds the threads in the middle of a reset; `looked` is the earliest arrival that was looked up last, and
   `carried` the one that the kernel timer was set for last.
   */
  datatype Racing<E(==)> = Racing(s: State<E>, resets: map<nat, Phase>, looked: Option<int>, carried: Option<int>)

  datatype Part<E> = Edits(thread: nat, step: Step<E>) | Looks(thread: nat) | Sets(thread: nat, now: int)

  /** The thread of the event loop, which alone runs `onTimer`. */
  const LOOP := 0

  predicate OfLoop<E>(step: Step<E>) {
    !step.Meet? && !step.Add? && !step.Delete? && !step.Cancel?
  }

  predicate CanPart<E>(r: Racing<E>, part: Part<E>) {
    match part
    case Edits(thread, step) => thread !in r.resets && Can(r.s, step) && (OfLoop(step) ==> thread == LOOP)
    case Looks(thread) => thread in r.resets && r.resets[thread] == MustLook
    case Sets(thread, _) => thread in r.resets && r.resets[thread].MustSet?
  }

  function DoPart<E>(r: Racing<E>, part: Part<E>): Racing<E>
    requires CanPart(r, part)
  {
    match part
    case Edits(thread, step) =>
      r.(s := Edit(r.s, step), resets := if NeedsReset(r.s, step) then r.resets[thread := MustLook] else r.resets)
    case Looks(thread) =>
      if r.s.bag == [] then r.(s := r.s.(armed := None), resets := r.resets - {thread}, looked := None, carried := None)
      else r.(resets := r.resets[thread := MustSet(MinKey(r.s.bag))], looked := Some(MinKey(r.s.bag)))
    case Sets(thread, now) =>
      var least := r.resets[thread].least;
      r.(s := r.s.(armed := Some(Deadline(least, now)), lastReset := now), resets := r.resets - {thread},
         carried := Some(least))
  }

  predicate IsRace<E>(r: Racing<E>, parts: seq<Part<E>>)
    decreases |parts|, 0
  {
    parts == [] ||
    (IsRace(r, parts[..|parts| - 1]) && CanPart(AfterRace(r, parts[..|parts| - 1]), parts[|parts| - 1]))
  }

  function AfterRace<E>(r: Racing<E>, parts: seq<Part<E>>): Racing<E>
    requires IsRace(r, parts)
    decreases |parts|, 1
  {
    if parts == [] then r else DoPart(AfterRace(r, parts[..|parts| - 1]), parts[|parts| - 1])
  }

  lemma RaceSnoc<E>(r: Racing<E>, parts: seq<Part<E>>, part: Part<E>)
    ensures IsRace(r, parts + [part]) <==> IsRace(r, parts) && CanPart(AfterRace(r, parts), part)
    ensures IsRace(r, parts + [part]) ==> AfterRace(r, parts + [part]) == DoPart(AfterRace(r, parts), part)
  {
    hide CanPart, DoPart;
    assert (parts + [part])[..|parts + [part]| - 1] == parts;
  }

  predicate AtStart<E>(r: Racing<E>) {
    r.s.bag == [] && r.s.armed == None && r.resets == map[] && r.looked == None && r.carried == None
  }

  /** No thread is in the middle of a reset. */
  predicate Quiet<E>(r: Racing<E>) {
    r.resets == map[]
  }

  // ---- But for the kernel timer, a race is a run of the machine ----

  /** The steps whose edits a race is made of. */
  function StepsOf<E>(parts: seq<Part<E>>): seq<Step<E>> {
    if parts == [] then []
    else
      var last := parts[|parts| - 1];
      StepsOf(parts[..|parts| - 1]) + if last.Edits? then [last.step] else []
  }

  predicate SameEntries<E(==)>(s: State<E>, t: State<E>) {
    t == s.(armed := t.armed, lastReset := t.lastReset)
  }

  lemma SameStep<E>(s: State<E>, t: State<E>, step: Step<E>)
    requires SameEntries(s, t) && Can(t, step)
    ensures Can(s, step) && SameEntries(Do(s, step), Edit(t, step))
  {
    hide MinKey, Filter, Without;
    StepIsEditThenReset(s, step);
  }

  /**
   However the parts of several threads interleave, the events, the entries, the batch and what has run are those of a
   run of the machine with the same steps; so all that holds of them over runs holds of races.
   */
  lemma {:induction false} RaceIsRun<E>(r: Racing<E>, parts: seq<Part<E>>)
    requires IsRace(r, parts)
    ensures IsRun(r.s, StepsOf(parts)) && SameEntries(After(r.s, StepsOf(parts)), AfterRace(r, parts).s)
  {
    hide Can, Do, Edit, NeedsReset, MinKey;
    if parts != [] {
      var init, last := parts[..|parts| - 1], parts[|parts| - 1];
      RaceIsRun(r, init);
      if last.Edits? {
        SameStep(After(r.s, StepsOf(init)), AfterRace(r, init).s, last.step);
        RunSnoc(r.s, StepsOf(init), last.step);
      } else {
        assert StepsOf(parts) == StepsOf(init);
      }
    }
  }

  // ---- When the kernel timer is armed for the earliest arrival ----

  function Least<E>(bag: seq<Entry<E>>): Option<int> {
    if bag == [] then None else Some(MinKey(bag))
  }

  /** What the kernel timer is set to for an earliest arrival. */
  function Setting(least: Option<int>, now: int): Option<int> {
    if least == None then None else Some(Deadline(least.value, now))
  }

  /** Unless somebody must look, the last look is up to date; and the kernel timer is set as it was set last. */
  ghost predicate Known<E>(r: Racing<E>) {
    && ((forall t :: t in r.resets ==> r.resets[t].MustSet?) ==> r.looked == Least(r.s.bag))
    && r.s.armed == Setting(r.carried, r.s.lastReset)
  }

  lemma EditKeepsLeast<E>(s: State<E>, step: Step<E>)
    requires Can(s, step) && !NeedsReset(s, step)
    ensures Least(Edit(s, step).bag) == Least(s.bag)
  {
    hide MinKey, Filter, Batch;
    match step
    case Add(e, now) => MinKeySnoc(s.bag, Entry(s.events[e].arrive, e));
    case Delete(e, now) =>
      var x := Entry(s.events[e].arrive, e);
      if x in s.bag {
        MinKeyWithout(s.bag, x);
      } else {
        WithoutNothing(s.bag, x);
      }
    case Refile(arriveNow, now) =>
      var e := s.mode.batch[s.mode.next];
      if s.events[e].repeats {
        MinKeySnoc(s.bag, Entry(arriveNow + s.events[e].interval, e));
      }
    case _ =>
  }

  lemma EditKeepsTimer<E>(s: State<E>, step: Step<E>)
    requires Can(s, step)
    ensures Edit(s, step).armed == s.armed && Edit(s, step).lastReset == s.lastReset
  {
    hide MinKey, Filter, Batch, Without;
  }

  lemma PartKnown<E>(r: Racing<E>, part: Part<E>)
    requires CanPart(r, part) && Known(r)
    ensures Known(DoPart(r, part))
  {
    hide Can, Edit, NeedsReset, MinKey;
    var r' := DoPart(r, part);
    match part
    case Edits(thread, step) =>
      EditKeepsTimer(r.s, step);
      if NeedsReset(r.s, step) {
        assert thread in r'.resets && !r'.resets[thread].MustSet?;
      } else {
        EditKeepsLeast(r.s, step);
      }
    case Looks(thread) =>
      assert forall t :: t in r'.resets && t != thread ==> t in r.resets && r.resets[t] == r'.resets[t];
    case Sets(thread, now) =>
      assert forall t :: t in r.resets && t != thread ==> t in r'.resets && r.resets[t] == r'.resets[t];
  }

  lemma {:induction false} AlwaysKnown<E>(r: Racing<E>, parts: seq<Part<E>>)
    requires AtStart(r) && IsRace(r, parts)
    ensures Known(AfterRace(r, parts))
  {
    hide CanPart, DoPart;
    if parts != [] {
      AlwaysKnown(r, parts[..|parts| - 1]);
      PartKnown(AfterRace(r, parts[..|parts| - 1]), parts[|parts| - 1]);
    }
  }

  /**
   Over every race, once no thread is in the middle of a reset: the kernel timer is armed as it should be if and only
   if it was last set for the earliest arrival that was looked up last, or for one that comes to the same setting.
   */
  lemma ArmedExactlyWhen<E>(r: Racing<E>, parts: seq<Part<E>>)
    requires AtStart(r) && IsRace(r, parts) && Quiet(AfterRace(r, parts))
    ensures var q := AfterRace(r, parts);
            && q.looked == Least(q.s.bag)
            && (ArmedRight(q.s) <==>
                  q.carried == q.looked || Setting(q.carried, q.s.lastReset) == Setting(q.looked, q.s.lastReset))
  {
    hide CanPart, DoPart, IsRace, AfterRace, MinKey;
    AlwaysKnown(r, parts);
  }

  // ---- Resets that are not overtaken ----

  /** The thread that looked last. */
  function LastLook<E>(parts: seq<Part<E>>): Option<nat> {
    if parts == [] then None
    else if parts[|parts| - 1].Looks? then Some(parts[|parts| - 1].thread)
    else LastLook(parts[..|parts| - 1])
  }

  /** No thread sets the timer after another has looked in between. */
  predicate InTurn<E>(parts: seq<Part<E>>) {
    parts == [] ||
    (InTurn(parts[..|parts| - 1]) &&
     (parts[|parts| - 1].Sets? ==> LastLook(parts[..|parts| - 1]) == Some(parts[|parts| - 1].thread)))
  }

  ghost predicate UpToDate<E>(r: Racing<E>, last: Option<nat>) {
    if last.Some? && last.value in r.resets && r.resets[last.value].MustSet?
    then r.looked == Some(r.resets[last.value].least)
    else r.carried == r.looked
  }

  lemma {:induction false} AlwaysUpToDate<E>(r: Racing<E>, parts: seq<Part<E>>)
    requires AtStart(r) && IsRace(r, parts) && InTurn(parts)
    ensures UpToDate(AfterRace(r, parts), LastLook(parts))
  {
    hide Can, Edit, NeedsReset, MinKey;
    if parts != [] {
      AlwaysUpToDate(r, parts[..|parts| - 1]);
    }
  }

  /**
   So over every race in which no thread sets the timer after another has looked in between, the timer is armed for
   the earliest arrival whenever no thread is in the middle of a reset.
   */
  lemma ArmedInTurn<E>(r: Racing<E>, parts: seq<Part<E>>)
    requires AtStart(r) && IsRace(r, parts) && InTurn(parts) && Quiet(AfterRace(r, parts))
    ensures ArmedRight(AfterRace(r, parts).s)
    ensures var s := AfterRace(r, parts).s; ArmedFor(s.bag, s.armed, s.lastReset)
  {
    hide CanPart, DoPart, IsRace, AfterRace, MinKey, InTurn, LastLook, ArmedFor;
    ArmedRightIsFor(AfterRace(r, parts).s);
    AlwaysUpToDate(r, parts);
    ArmedExactlyWhen(r, parts);
  }

  /** A reset that is not interleaved is the reset of the machine. */
  lemma ResetInOnePiece<E>(r: Racing<E>, thread: nat, now: int)
    requires r.resets == map[thread := MustLook]
    ensures var parts := if r.s.bag == [] then [Looks(thread)] else [Looks(thread), Sets(thread, now)];
            && IsRace(r, parts) && Quiet(AfterRace(r, parts))
            && SameEntries(Reset(r.s, now), AfterRace(r, parts).s) && AfterRace(r, parts).s.armed == Reset(r.s, now).armed
  {
    hide MinKey, IsRace, AfterRace;
    EmptyRace(r);
    RaceSnoc(r, [], Looks(thread));
    RaceSnoc(r, [Looks(thread)], Sets(thread, now));
    assert [] + [Part<E>.Looks(thread)] == [Looks(thread)];
    assert [Part<E>.Looks(thread)] + [Sets(thread, now)] == [Looks(thread), Sets(thread, now)];
  }

  /** So a call that is not interleaved with others is the step of the machine. */
  lemma CallInOnePiece<E>(r: Racing<E>, thread: nat, step: Step<E>) returns (resets: seq<Part<E>>)
    requires Quiet(r) && CanPart(r, Edits(thread, step))
    ensures var r' := DoPart(r, Edits(thread, step));
            && IsRace(r', resets) && Quiet(AfterRace(r', resets))
            && SameEntries(Do(r.s, step), AfterRace(r', resets).s) && AfterRace(r', resets).s.armed == Do(r.s, step).armed
  {
    hide Can, Edit, NeedsReset, MinKey, IsRace, AfterRace, Reset;
    StepIsEditThenReset(r.s, step);
    var r' := DoPart(r, Edits(thread, step));
    if NeedsReset(r.s, step) {
      ResetInOnePiece(r', thread, ClockOf(step));
      resets := if r'.s.bag == [] then [Looks(thread)] else [Looks(thread), Sets(thread, ClockOf(step))];
    } else {
      EmptyRace(r');
      resets := [];
    }
  }

  lemma EmptyRace<E>(r: Racing<E>)
    ensures IsRace(r, []) && AfterRace(r, []) == r
  {
  }

  /**
   The race that goes wrong: a thread adds an event and looks, another adds an earlier one, looks and sets the timer,
   and then the first sets it for the later event. All calls are over and the earlier event is not waited for.
   */
  lemma ResetOvertaken<E>(r: Racing<E>, later: E, earlier: E, now: int) returns (parts: seq<Part<E>>)
    requires AtStart(r) && later in r.s.events && earlier in r.s.events
    requires now < r.s.events[earlier].arrive < r.s.events[later].arrive
    ensures IsRace(r, parts) && Quiet(AfterRace(r, parts))
    ensures var s := AfterRace(r, parts).s;
            && s.bag == [Entry(r.s.events[later].arrive, later), Entry(r.s.events[earlier].arrive, earlier)]
            && s.armed == Some(r.s.events[later].arrive) && !ArmedRight(s)
  {
    hide IsRace, AfterRace;
    var x, y := Entry(r.s.events[later].arrive, later), Entry(r.s.events[earlier].arrive, earlier);
    EmptyRace(r);
    parts := [];
    RaceSnoc(r, parts, Edits(1, Add(later, now)));
    parts := parts + [Edits(1, Add(later, now))];
    assert AfterRace(r, parts).s.bag == [x] && MinKey([x]) == x.key;
    RaceSnoc(r, parts, Looks(1));
    parts := parts + [Looks(1)];
    RaceSnoc(r, parts, Edits(2, Add(earlier, now)));
    parts := parts + [Edits(2, Add(earlier, now))];
    assert [x] + [y] == [x, y];
    MinKeySnoc([x], y);
    RaceSnoc(r, parts, Looks(2));
    parts := parts + [Looks(2)];
    RaceSnoc(r, parts, Sets(2, now));
    parts := parts + [Sets(2, now)];
    RaceSnoc(r, parts, Sets(1, now));
    parts := parts + [Sets(1, now)];
  }
}
