/**
 The turn of an event taken apart. `onTimer` reads the task of the event twice, once to see whether it is there and once
 to call it, and holds no lock; other threads may cancel or delete the event in between.
 */
module TimerTurns {
  import opened TimerSpec
  import opened TimerMachine

  /**
   `found` says that the loop's thread has seen the task of the event whose turn it is and is about to call it; `failed`
   that it has called an empty function, which throws, and that nothing catches it.
   */
  datatype Turning<E(==)> = Turning(s: State<E>, found: bool, failed: bool)

  datatype Part<E> = Does(step: Step<E>) | Looks | Calls

  /** A call of another thread, or the arrival of an event. */
  predicate FromOutside<E>(step: Step<E>) {
    step.Meet? || step.Add? || step.Delete? || step.Cancel?
  }

  /** The event whose turn it is. */
  function Current<E>(s: State<E>): E
    requires Can(s, Fire)
  {
    s.mode.batch[s.mode.next]
  }

  predicate CanPart<E>(t: Turning<E>, part: Part<E>) {
    !t.failed &&
    match part
    case Does(step) => Can(t.s, step) && !step.Fire? && (t.found ==> FromOutside(step))
    case Looks => Can(t.s, Fire) && !t.found
    case Calls => Can(t.s, Fire) && t.found
  }

  function DoPart<E>(t: Turning<E>, part: Part<E>): Turning<E>
    requires CanPart(t, part)
  {
    match part
    case Does(step) => t.(s := Do(t.s, step))
    case Looks => if t.s.events[Current(t.s)].task then t.(found := true) else t.(s := Do(t.s, Fire))
    case Calls => if t.s.events[Current(t.s)].task then t.(s := Do(t.s, Fire), found := false) else t.(failed := true)
  }

  predicate IsTurning<E>(t: Turning<E>, parts: seq<Part<E>>)
    decreases |parts|, 0
  {
    parts == [] ||
    (IsTurning(t, parts[..|parts| - 1]) && CanPart(AfterParts(t, parts[..|parts| - 1]), parts[|parts| - 1]))
  }

  function AfterParts<E>(t: Turning<E>, parts: seq<Part<E>>): Turning<E>
    requires IsTurning(t, parts)
    decreases |parts|, 1
  {
    if parts == [] then t else DoPart(AfterParts(t, parts[..|parts| - 1]), parts[|parts| - 1])
  }

  lemma PartsSnoc<E>(t: Turning<E>, parts: seq<Part<E>>, part: Part<E>)
    ensures IsTurning(t, parts + [part]) <==> IsTurning(t, parts) && CanPart(AfterParts(t, parts), part)
    ensures IsTurning(t, parts + [part]) ==> AfterParts(t, parts + [part]) == DoPart(AfterParts(t, parts), part)
  {
    hide CanPart, DoPart;
    assert (parts + [part])[..|parts + [part]| - 1] == parts;
  }

  // ---- But for a call of nothing, a turn is one step ----

  /** The steps of the machine: a turn without a task is taken when it is looked at, one with a task when it is called. */
  function StepsOf<E>(t: Turning<E>, parts: seq<Part<E>>): seq<Step<E>>
    requires IsTurning(t, parts)
  {
    if parts == [] then []
    else
      var before := AfterParts(t, parts[..|parts| - 1]);
      StepsOf(t, parts[..|parts| - 1]) +
      match parts[|parts| - 1]
      case Does(step) => [step]
      case Looks => if before.s.events[Current(before.s)].task then [] else [Fire]
      case Calls => if before.s.events[Current(before.s)].task then [Fire] else []
  }

  /**
   However the calls of other threads fall between the two reads, the timer is in the state of a run of the machine, in
   which the turn of an event is one step; so all that holds of the machine's runs holds here.
   */
  lemma {:induction false} TurningIsRun<E>(t: Turning<E>, parts: seq<Part<E>>)
    requires IsTurning(t, parts)
    ensures IsRun(t.s, StepsOf(t, parts)) && After(t.s, StepsOf(t, parts)) == AfterParts(t, parts).s
  {
    hide Can, Do;
    if parts != [] {
      var init, last := parts[..|parts| - 1], parts[|parts| - 1];
      TurningIsRun(t, init);
      var steps := StepsOf(t, init);
      RunSnoc(t.s, steps, Fire);
      if last.Does? {
        RunSnoc(t.s, steps, last.step);
      }
      assert steps + [] == steps;
    }
  }

  // ---- When nothing is called ----

  predicate Drops<E(==)>(step: Step<E>, e: E) {
    (step.Delete? || step.Cancel?) && step.event == e
  }

  /** The event was cancelled or deleted after the last look. */
  predicate DroppedSinceLook<E(==)>(parts: seq<Part<E>>, e: E) {
    parts != [] &&
    !parts[|parts| - 1].Looks? &&
    ((parts[|parts| - 1].Does? && Drops(parts[|parts| - 1].step, e)) || DroppedSinceLook(parts[..|parts| - 1], e))
  }

  lemma OutsideKeepsTurn<E>(s: State<E>, step: Step<E>)
    requires Can(s, Fire) && Can(s, step) && FromOutside(step)
    ensures Can(Do(s, step), Fire) && Current(Do(s, step)) == Current(s)
    ensures Do(s, step).events[Current(s)].task <==> s.events[Current(s)].task && !Drops(step, Current(s))
  {
    hide MinKey, Without;
  }

  lemma {:induction false} FoundUnlessDropped<E>(t: Turning<E>, parts: seq<Part<E>>)
    requires !t.found && !t.failed && IsTurning(t, parts) && AfterParts(t, parts).found && !AfterParts(t, parts).failed
    ensures var s := AfterParts(t, parts).s;
            Can(s, Fire) && (s.events[Current(s)].task <==> !DroppedSinceLook(parts, Current(s)))
  {
    hide Can, Do, Drops;
    var init, last := parts[..|parts| - 1], parts[|parts| - 1];
    if last.Does? {
      FoundUnlessDropped(t, init);
      OutsideKeepsTurn(AfterParts(t, init).s, last.step);
    }
  }

  /**
   Over every run, an empty function is called by a part if and only if it is the call of a task whose event another
   thread has cancelled or deleted after the task was found.
   */
  lemma EmptyCallExactlyWhen<E>(t: Turning<E>, parts: seq<Part<E>>, part: Part<E>)
    requires !t.found && !t.failed && IsTurning(t, parts + [part]) && IsTurning(t, parts)
    ensures AfterParts(t, parts + [part]).failed <==>
            part.Calls? && Can(AfterParts(t, parts).s, Fire) && DroppedSinceLook(parts, Current(AfterParts(t, parts).s))
  {
    hide Can, Do, DroppedSinceLook, IsTurning, AfterParts;
    PartsSnoc(t, parts, part);
    if part.Calls? {
      FoundUnlessDropped(t, parts);
    }
  }

  /** The run that shows it, for any event whose turn it is and that has its task. */
  lemma CancelledBetweenLooks<E>(t: Turning<E>)
    requires !t.found && !t.failed && Can(t.s, Fire) && t.s.events[Current(t.s)].task
    ensures var parts := [Looks, Does(Cancel(Current(t.s), true)), Calls];
            IsTurning(t, parts) && AfterParts(t, parts).failed
  {
    hide IsTurning, AfterParts;
    var cancel := Part<E>.Does(Cancel(Current(t.s), true));
    NoParts(t);
    PartsSnoc(t, [], Looks);
    assert [] + [Part<E>.Looks] == [Looks];
    PartsSnoc(t, [Looks], cancel);
    assert [Looks] + [cancel] == [Looks, cancel];
    PartsSnoc(t, [Looks, cancel], Calls);
    assert [Looks, cancel] + [Calls] == [Looks, cancel, Calls];
  }

  lemma NoParts<E>(t: Turning<E>)
    ensures IsTurning(t, []) && AfterParts(t, []) == t
  {
  }
}
