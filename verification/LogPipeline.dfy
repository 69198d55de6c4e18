/**
 The asynchronous log as a machine of three kinds of threads: those that log, those that hand the logged messages to
 the writer, and the writer. A step is what one of them does between two lock operations, or one write.
 */
module LogPipeline {

  /** A log file of the day `date`. */
  datatype File = File(date: string, no: nat)

  /** One write of a message to a file. */
  datatype Line = Line(file: File, text: string)

  datatype Writer = Waiting | Taken(batch: seq<string>) | Writing(rest: seq<string>) | Exited

  /**
   `buffer` holds what was logged last, `swapped` the vectors that syncers have taken from it and not yet handed on,
   `queue` the batches handed to the writer. `lines` lists all writes, `placed` the batches and the files chosen for
   them, and `pushed` everything ever logged.
   */
  datatype State = State(buffer: seq<string>, swapped: seq<seq<string>>, queue: seq<seq<string>>, writer: Writer,
                         file: File, stop: bool, lines: seq<Line>, placed: seq<(File, seq<string>)>,
                         pushed: seq<string>)

  datatype Step =
    | Log(text: string)
    | Swap
    | Hand(syncer: nat)
    | Stop
    | Take
    | Open(date: string, size: int, limit: int)
    | Write
    | Flush
    | Exit

  /** The file for the next batch: a new day starts at number 0, a file grown to the limit is followed by the next. */
  function Choose(file: File, date: string, size: int, limit: int): File {
    if date != file.date then File(date, 0)
    else if size >= limit then File(file.date, file.no + 1)
    else file
  }

  predicate Can(s: State, step: Step) {
    match step
    case Log(_) => true
    case Swap => true
    case Hand(i) => i < |s.swapped|
    case Stop => true
    case Take => s.writer == Waiting && s.queue != []
    case Open(date, _, _) => s.writer.Taken? && date != ""
    case Write => s.writer.Writing? && s.writer.rest != []
    case Flush => s.writer == Writing([])
    case Exit => s.writer == Waiting && s.queue == [] && s.stop
  }

  function Do(s: State, step: Step): State
    requires Can(s, step)
  {
    match step
    case Log(text) => s.(buffer := s.buffer + [text], pushed := s.pushed + [text])
    case Swap => if s.buffer == [] then s else s.(buffer := [], swapped := s.swapped + [s.buffer])
    case Hand(i) => s.(swapped := s.swapped[..i] + s.swapped[i + 1..], queue := s.queue + [s.swapped[i]])
    case Stop => s.(stop := true)
    case Take => s.(queue := s.queue[1..], writer := Taken(s.queue[0]))
    case Open(date, size, limit) =>
      var file := Choose(s.file, date, size, limit);
      s.(writer := Writing(s.writer.batch), file := file, placed := s.placed + [(file, s.writer.batch)])
    case Write =>
      var text := s.writer.rest[0];
      s.(writer := Writing(s.writer.rest[1..]), lines := s.lines + if text != "" then [Line(s.file, text)] else [])
    case Flush => s.(writer := Waiting)
    case Exit => s.(writer := Exited)
  }

  predicate IsRun(s: State, steps: seq<Step>)
    decreases |steps|, 0
  {
    steps == [] ||
    (IsRun(s, steps[..|steps| - 1]) && Can(After(s, steps[..|steps| - 1]), steps[|steps| - 1]))
  }

  function After(s: State, steps: seq<Step>): State
    requires IsRun(s, steps)
    decreases |steps|, 1
  {
    if steps == [] then s else Do(After(s, steps[..|steps| - 1]), steps[|steps| - 1])
  }

  lemma RunSnoc(s: State, steps: seq<Step>, step: Step)
    ensures IsRun(s, steps + [step]) <==> IsRun(s, steps) && Can(After(s, steps), step)
    ensures IsRun(s, steps + [step]) ==> After(s, steps + [step]) == Do(After(s, steps), step)
  {
    hide Can, Do;
    assert (steps + [step])[..|steps + [step]| - 1] == steps;
  }

  lemma {:induction false} RunAppend(s: State, steps: seq<Step>, more: seq<Step>)
    requires IsRun(s, steps + more)
    ensures IsRun(s, steps) && IsRun(After(s, steps), more) && After(s, steps + more) == After(After(s, steps), more)
  {
    hide Can, Do;
    if more == [] {
      assert steps + more == steps;
    } else {
      var init, last := more[..|more| - 1], more[|more| - 1];
      assert steps + more == (steps + init) + [last] && more == init + [last];
      RunSnoc(s, steps + init, last);
      RunAppend(s, steps, init);
      RunSnoc(After(s, steps), init, last);
    }
  }

  predicate Initial(s: State) {
    && s.buffer == [] && s.swapped == [] && s.queue == [] && s.writer == Waiting && !s.stop
    && s.lines == [] && s.placed == [] && s.pushed == []
  }

  // ---- What has been written, and what is on its way ----

  function Flatten(batches: seq<seq<string>>): seq<string> {
    if batches == [] then [] else batches[0] + Flatten(batches[1..])
  }

  /** Empty messages are not written. */
  function NonEmpty(texts: seq<string>): seq<string> {
    if texts == [] then [] else (if texts[0] != "" then [texts[0]] else []) + NonEmpty(texts[1..])
  }

  function Texts(lines: seq<Line>): (texts: seq<string>)
    ensures |texts| == |lines|
  {
    seq(|lines|, i requires 0 <= i < |lines| => lines[i].text)
  }

  function InHand(w: Writer): seq<string> {
    match w
    case Taken(batch) => batch
    case Writing(rest) => rest
    case _ => []
  }

  /** Everything not yet written, the oldest first. */
  function OnTheWay(s: State): seq<string> {
    InHand(s.writer) + Flatten(s.queue) + Flatten(s.swapped) + s.buffer
  }

  lemma {:induction false} FlattenAppend(a: seq<seq<string>>, b: seq<seq<string>>)
    ensures Flatten(a + b) == Flatten(a) + Flatten(b)
  {
    if a == [] {
      assert a + b == b;
    } else {
      assert (a + b)[1..] == a[1..] + b;
      FlattenAppend(a[1..], b);
    }
  }

  lemma FlattenOne(a: seq<string>)
    ensures Flatten([a]) == a
  {
    assert [a][1..] == [];
  }

  lemma {:induction false} NonEmptyAppend(a: seq<string>, b: seq<string>)
    ensures NonEmpty(a + b) == NonEmpty(a) + NonEmpty(b)
  {
    if a == [] {
      assert a + b == b;
    } else {
      assert (a + b)[1..] == a[1..] + b;
      NonEmptyAppend(a[1..], b);
    }
  }

  /** Nothing is lost and nothing overtaken. */
  ghost predicate InOrder(s: State) {
    Texts(s.lines) + NonEmpty(OnTheWay(s)) == NonEmpty(s.pushed)
  }

  lemma SwapOnTheWay(s: State)
    ensures OnTheWay(Do(s, Swap)) == OnTheWay(s)
  {
    if s.buffer != [] {
      FlattenAppend(s.swapped, [s.buffer]);
      FlattenOne(s.buffer);
      hide Flatten;
      var a, b, c := InHand(s.writer) + Flatten(s.queue), Flatten(s.swapped), s.buffer;
      assert a + (b + c) + [] == a + b + c;
    }
  }

  lemma HandOnTheWay(s: State)
    requires s.swapped != []
    ensures OnTheWay(Do(s, Hand(0))) == OnTheWay(s)
  {
    var first, rest := s.swapped[0], s.swapped[1..];
    assert s.swapped[..0] + rest == rest;
    FlattenAppend(s.queue, [first]);
    FlattenOne(first);
    assert Flatten(s.swapped) == first + Flatten(rest);
    hide Flatten;
    var a, q, r := InHand(s.writer), Flatten(s.queue), Flatten(rest);
    assert a + (q + first) + r + s.buffer == a + q + (first + r) + s.buffer;
  }

  lemma TakeOnTheWay(s: State)
    requires Can(s, Take)
    ensures OnTheWay(Do(s, Take)) == OnTheWay(s)
  {
    var first, rest := s.queue[0], s.queue[1..];
    assert Flatten(s.queue) == first + Flatten(rest);
    hide Flatten;
    assert [] + (first + Flatten(rest)) == first + Flatten(rest);
  }

  lemma WriteOnTheWay(s: State)
    requires Can(s, Write)
    ensures OnTheWay(s) == [s.writer.rest[0]] + OnTheWay(Do(s, Write))
  {
    hide Flatten;
    var first, rest := s.writer.rest[0], s.writer.rest[1..];
    assert s.writer.rest == [first] + rest;
    var q, w := Flatten(s.queue), Flatten(s.swapped);
    assert ([first] + rest) + q + w + s.buffer == [first] + (rest + q + w + s.buffer);
  }

  /** A step that neither logs nor hands over out of turn changes only how far messages have come. */
  lemma StepOnTheWay(s: State, step: Step)
    requires Can(s, step) && (step.Hand? ==> step.syncer == 0)
    ensures step.Log? ==> OnTheWay(Do(s, step)) == OnTheWay(s) + [step.text]
    ensures step.Write? ==> OnTheWay(s) == [s.writer.rest[0]] + OnTheWay(Do(s, step))
    ensures !step.Log? && !step.Write? ==> OnTheWay(Do(s, step)) == OnTheWay(s)
  {
    hide Flatten, Choose;
    match step
    case Log(text) =>
      var a := InHand(s.writer) + Flatten(s.queue) + Flatten(s.swapped);
      assert a + (s.buffer + [text]) == (a + s.buffer) + [text];
    case Swap => SwapOnTheWay(s);
    case Hand(i) => HandOnTheWay(s);
    case Take => TakeOnTheWay(s);
    case Write => WriteOnTheWay(s);
    case _ =>
  }

  /** What one write adds to the lines. */
  lemma WriteAdds(s: State)
    requires Can(s, Write)
    ensures Texts(Do(s, Write).lines) == Texts(s.lines) + NonEmpty([s.writer.rest[0]])
    ensures NonEmpty(OnTheWay(s)) == NonEmpty([s.writer.rest[0]]) + NonEmpty(OnTheWay(Do(s, Write)))
  {
    var text, t := s.writer.rest[0], Do(s, Write);
    assert [text][1..] == [];
    assert t.lines == s.lines + if text != "" then [Line(s.file, text)] else [];
    assert Texts(t.lines) == Texts(s.lines) + if text != "" then [text] else [];
    hide OnTheWay, NonEmpty, Do;
    WriteOnTheWay(s);
    NonEmptyAppend([text], OnTheWay(t));
  }

  lemma LogAdds(s: State, text: string)
    ensures NonEmpty(OnTheWay(Do(s, Log(text)))) == NonEmpty(OnTheWay(s)) + NonEmpty([text])
    ensures NonEmpty(Do(s, Log(text)).pushed) == NonEmpty(s.pushed) + NonEmpty([text])
  {
    hide OnTheWay, NonEmpty;
    StepOnTheWay(s, Log(text));
    NonEmptyAppend(OnTheWay(s), [text]);
    NonEmptyAppend(s.pushed, [text]);
  }

  lemma StepInOrder(s: State, step: Step)
    requires Can(s, step) && (step.Hand? ==> step.syncer == 0) && InOrder(s)
    ensures InOrder(Do(s, step))
  {
    hide OnTheWay, NonEmpty, Choose;
    if step.Log? {
      LogAdds(s, step.text);
    } else if step.Write? {
      WriteAdds(s);
    } else {
      StepOnTheWay(s, step);
    }
  }

  /** Syncers hand their vectors on in the order in which they took them, as a single one always does. */
  predicate OneByOne(steps: seq<Step>) {
    forall i :: 0 <= i < |steps| && steps[i].Hand? ==> steps[i].syncer == 0
  }

  /**
   In every interleaving the messages written, then those in the writer's hand, queued, swapped out and still in the
   buffer are all those ever logged, in the order in which they were logged.
   */
  lemma {:induction false} NothingLostNothingOvertaken(s: State, steps: seq<Step>)
    requires Initial(s) && IsRun(s, steps) && OneByOne(steps)
    ensures InOrder(After(s, steps))
  {
    hide Can, Do;
    if steps != [] {
      NothingLostNothingOvertaken(s, steps[..|steps| - 1]);
      StepInOrder(After(s, steps[..|steps| - 1]), steps[|steps| - 1]);
    } else {
      assert Texts(s.lines) == [];
    }
  }

  /** A message is logged and swapped out, but not yet handed on. */
  lemma LogAndSwap(s: State, steps: seq<Step>, text: string)
    requires IsRun(s, steps) && After(s, steps).buffer == []
    ensures IsRun(s, steps + [Log(text)] + [Swap])
    ensures var t := After(s, steps);
            After(s, steps + [Log(text)] + [Swap]) == t.(swapped := t.swapped + [[text]], pushed := t.pushed + [text])
  {
    hide IsRun, After;
    RunSnoc(s, steps, Log(text));
    RunSnoc(s, steps + [Log(text)], Swap);
    assert After(s, steps + [Log(text)]).buffer == [text];
  }

  /** Two syncers at once can hand on the later messages first. */
  lemma TwoSyncersOvertake(s: State) returns (steps: seq<Step>)
    requires Initial(s)
    ensures IsRun(s, steps) && Flushed(After(s, steps))
    ensures After(s, steps).pushed == ["a", "b"] && Flatten(After(s, steps).queue) == ["b", "a"]
  {
    hide IsRun, After, Flatten;
    EmptyRun(s);
    LogAndSwap(s, [], "a");
    steps := [] + [Log("a")] + [Swap];
    LogAndSwap(s, steps, "b");
    steps := steps + [Log("b")] + [Swap];
    RunSnoc(s, steps, Hand(1));
    RunSnoc(s, steps + [Hand(1)], Hand(0));
    steps := steps + [Hand(1)] + [Hand(0)];
    assert After(s, steps).queue == [["b"]] + [["a"]];
    FlattenAppend([["b"]], [["a"]]);
    FlattenOne(["a"]);
    FlattenOne(["b"]);
  }

  lemma EmptyRun(s: State)
    ensures IsRun(s, []) && After(s, []) == s
  {
  }

  // ---- When messages are overtaken ----

  /** What has been handed to the writer so far, written or not. */
  function Handed(s: State): seq<string> {
    Texts(s.lines) + NonEmpty(InHand(s.writer) + Flatten(s.queue))
  }

  predicate AllNonEmpty(texts: seq<string>) {
    forall i :: 0 <= i < |texts| ==> texts[i] != ""
  }

  predicate Distinct(texts: seq<string>) {
    AllNonEmpty(texts) && forall i, j :: 0 <= i < j < |texts| ==> texts[i] != texts[j]
  }

  /** What has not been handed over holds no empty message, and no empty vector. */
  predicate Kept(s: State) {
    AllNonEmpty(s.buffer) && forall k :: 0 <= k < |s.swapped| ==> s.swapped[k] != [] && AllNonEmpty(s.swapped[k])
  }

  /** A message has reached the writer in the place of another. */
  ghost predicate Overtaken(s: State) {
    exists k :: 0 <= k < |Handed(s)| && k < |s.pushed| && Handed(s)[k] != s.pushed[k]
  }

  lemma {:induction false} NonEmptyAll(texts: seq<string>)
    requires AllNonEmpty(texts)
    ensures NonEmpty(texts) == texts
  {
    if texts != [] {
      NonEmptyAll(texts[1..]);
      assert texts == [texts[0]] + texts[1..];
    }
  }

  /** What has been handed over only grows. */
  lemma StepHanded(s: State, step: Step)
    requires Can(s, step)
    ensures Handed(Do(s, step)) == Handed(s) + if step.Hand? then NonEmpty(s.swapped[step.syncer]) else []
  {
    hide NonEmpty, Flatten, Choose;
    match step
    case Hand(i) =>
      FlattenAppend(s.queue, [s.swapped[i]]);
      FlattenOne(s.swapped[i]);
      var a, q, v := InHand(s.writer), Flatten(s.queue), s.swapped[i];
      assert a + (q + v) == (a + q) + v;
      NonEmptyAppend(a + q, v);
    case Take => TakeHands(s);
    case Write => WriteHands(s);
    case _ =>
  }

  lemma TakeHands(s: State)
    requires Can(s, Take)
    ensures Handed(Do(s, Take)) == Handed(s)
  {
    assert [] + Flatten(s.queue) == s.queue[0] + Flatten(s.queue[1..]);
  }

  lemma WriteHands(s: State)
    requires Can(s, Write)
    ensures Handed(Do(s, Write)) == Handed(s)
  {
    var text, rest, q := s.writer.rest[0], s.writer.rest[1..], Flatten(s.queue);
    assert s.writer.rest + q == [text] + (rest + q);
    NonEmptyAppend([text], rest + q);
    WriteAdds(s);
    hide NonEmpty, Texts, Flatten;
  }

  lemma StepKept(s: State, step: Step)
    requires Can(s, step) && Kept(s) && AllNonEmpty(Do(s, step).pushed)
    ensures Kept(Do(s, step)) && AllNonEmpty(s.pushed)
  {
    hide Choose;
    var t := Do(s, step);
    assert forall i :: 0 <= i < |s.pushed| ==> s.pushed[i] == t.pushed[i];
    if step.Log? {
      assert t.pushed[|s.pushed|] == step.text;
    }
  }

  /** The order of a state in which it is kept: what is handed over comes first, then the swapped vectors. */
  lemma HandedFirst(s: State)
    requires InOrder(s) && Kept(s) && AllNonEmpty(s.pushed)
    ensures s.pushed == Handed(s) + Flatten(s.swapped) + s.buffer
  {
    hide NonEmpty, Flatten;
    var a, w := InHand(s.writer) + Flatten(s.queue), Flatten(s.swapped);
    FlattenKept(s.swapped);
    NonEmptyAll(s.pushed);
    NonEmptyAll(w + s.buffer);
    assert OnTheWay(s) == a + (w + s.buffer);
    NonEmptyAppend(a, w + s.buffer);
    assert Texts(s.lines) + (NonEmpty(a) + (w + s.buffer)) == Handed(s) + w + s.buffer;
  }

  lemma {:induction false} FlattenKept(vs: seq<seq<string>>)
    requires forall k :: 0 <= k < |vs| ==> AllNonEmpty(vs[k])
    ensures AllNonEmpty(Flatten(vs))
  {
    if vs != [] {
      FlattenKept(vs[1..]);
    }
  }

  /** Handing a vector over ahead of an older one puts its first message in the place of another. */
  lemma HandOvertakes(s: State, i: nat)
    requires Can(s, Hand(i)) && i > 0 && InOrder(s) && Kept(s) && Distinct(s.pushed)
    ensures Overtaken(Do(s, Hand(i)))
  {
    hide NonEmpty, Flatten, Handed, InOrder;
    HandedFirst(s);
    StepHanded(s, Hand(i));
    NonEmptyAll(s.swapped[i]);
    var h, first, mine := Handed(s), s.swapped[0], s.swapped[i];
    var before := SwappedAt(s.swapped, i);
    assert s.pushed[|h|] == first[0];
    assert s.pushed[|h| + before] == mine[0];
    assert Handed(Do(s, Hand(i)))[|h|] == mine[0];
  }

  /** Where a swapped vector stands among all. */
  lemma SwappedAt(vs: seq<seq<string>>, i: nat) returns (at: nat)
    requires 0 < i < |vs| && vs[0] != [] && vs[i] != []
    ensures 0 < at < |Flatten(vs)| && Flatten(vs)[at] == vs[i][0] && Flatten(vs)[0] == vs[0][0]
  {
    assert vs == [vs[0]] + vs[1..i] + vs[i..];
    FlattenAppend([vs[0]] + vs[1..i], vs[i..]);
    FlattenAppend([vs[0]], vs[1..i]);
    FlattenOne(vs[0]);
    assert Flatten(vs[i..]) == vs[i] + Flatten(vs[i..][1..]);
    at := |vs[0]| + |Flatten(vs[1..i])|;
  }

  lemma OvertakenStays(s: State, step: Step)
    requires Can(s, step) && Overtaken(s)
    ensures Overtaken(Do(s, step))
  {
    hide Handed, Choose;
    StepHanded(s, step);
    var k :| 0 <= k < |Handed(s)| && k < |s.pushed| && Handed(s)[k] != s.pushed[k];
    assert Do(s, step).pushed[k] == s.pushed[k];
    assert Handed(Do(s, step))[k] == Handed(s)[k];
  }

  lemma InOrderIsNotOvertaken(s: State)
    requires InOrder(s) && Kept(s) && AllNonEmpty(s.pushed)
    ensures !Overtaken(s)
  {
    hide NonEmpty, Flatten, Handed, InOrder;
    HandedFirst(s);
    assert forall k :: 0 <= k < |Handed(s)| ==> s.pushed[k] == Handed(s)[k];
  }

  lemma {:induction false} OvertakenByThen(s: State, steps: seq<Step>)
    requires Initial(s) && IsRun(s, steps) && Distinct(After(s, steps).pushed)
    ensures Kept(After(s, steps))
    ensures !OneByOne(steps) ==> Overtaken(After(s, steps))
  {
    hide Can, Do, InOrder, Overtaken;
    if steps != [] {
      var init, last := steps[..|steps| - 1], steps[|steps| - 1];
      var t := After(s, init);
      PushedGrows(t, last);
      assert forall i :: 0 <= i < |t.pushed| ==> t.pushed[i] == After(s, steps).pushed[i];
      OvertakenByThen(s, init);
      StepKept(t, last);
      if !OneByOne(init) {
        OvertakenStays(t, last);
      } else if !OneByOne(steps) {
        assert steps == init + [last];
        NothingLostNothingOvertaken(s, init);
        HandIndex(t, last);
        HandOvertakes(t, last.syncer);
      }
    }
  }

  lemma PushedGrows(s: State, step: Step)
    requires Can(s, step)
    ensures s.pushed <= Do(s, step).pushed
  {
    hide Choose;
  }

  lemma HandIndex(s: State, step: Step)
    requires Can(s, step) && step.Hand?
    ensures Can(s, Hand(step.syncer)) && Do(s, step) == Do(s, Hand(step.syncer))
  {
  }

  /**
   Over every run that logs different and non-empty messages, the order in which they were logged is kept if and only
   if every vector swapped out was handed over ahead of those swapped out later.
   */
  lemma OrderKeptExactlyWhen(s: State, steps: seq<Step>)
    requires Initial(s) && IsRun(s, steps) && Distinct(After(s, steps).pushed)
    ensures InOrder(After(s, steps)) <==> OneByOne(steps)
  {
    hide IsRun, After, InOrder, Overtaken, Kept, OneByOne, Initial;
    if OneByOne(steps) {
      NothingLostNothingOvertaken(s, steps);
    } else {
      OvertakenByThen(s, steps);
      if InOrder(After(s, steps)) {
        InOrderIsNotOvertaken(After(s, steps));
      }
    }
  }

  // ---- With any number of syncers ----

  /** Nothing is lost and nothing doubled, in whatever order. */
  ghost predicate Conserved(s: State) {
    multiset(Texts(s.lines)) + multiset(NonEmpty(OnTheWay(s))) == multiset(NonEmpty(s.pushed))
  }

  lemma HandConserves(s: State, i: nat)
    requires Can(s, Hand(i))
    ensures multiset(NonEmpty(OnTheWay(Do(s, Hand(i))))) == multiset(NonEmpty(OnTheWay(s)))
  {
    hide Flatten, NonEmpty;
    var before, mine, later := s.swapped[..i], s.swapped[i], s.swapped[i + 1..];
    assert s.swapped == before + ([mine] + later);
    FlattenAppend(before, [mine] + later);
    FlattenAppend([mine], later);
    FlattenAppend(before, later);
    FlattenAppend(s.queue, [mine]);
    FlattenOne(mine);
    HandMoves(InHand(s.writer), Flatten(s.queue), Flatten(before), mine, Flatten(later), s.buffer);
  }

  lemma HandMoves(h: seq<string>, q: seq<string>, a: seq<string>, b: seq<string>, c: seq<string>, d: seq<string>)
    ensures multiset(NonEmpty(h + (q + b) + (a + c) + d)) == multiset(NonEmpty(h + q + (a + (b + c)) + d))
  {
    hide NonEmpty;
    assert h + (q + b) + (a + c) + d == (h + q) + b + a + c + d;
    assert h + q + (a + (b + c)) + d == (h + q) + a + b + c + d;
    Rearranged(h + q, a, b, c, d);
  }

  lemma Rearranged(a: seq<string>, b: seq<string>, c: seq<string>, d: seq<string>, e: seq<string>)
    ensures multiset(NonEmpty(a + b + c + d + e)) == multiset(NonEmpty(a + c + b + d + e))
  {
    hide NonEmpty;
    NonEmptyAppend(a + b + c + d, e);
    NonEmptyAppend(a + b + c, d);
    NonEmptyAppend(a + b, c);
    NonEmptyAppend(a, b);
    NonEmptyAppend(a + c + b + d, e);
    NonEmptyAppend(a + c + b, d);
    NonEmptyAppend(a + c, b);
    NonEmptyAppend(a, c);
  }

  lemma StepConserved(s: State, step: Step)
    requires Can(s, step) && Conserved(s)
    ensures Conserved(Do(s, step))
  {
    hide OnTheWay, NonEmpty, Choose, Texts;
    if step.Hand? {
      HandConserves(s, step.syncer);
    } else if step.Log? {
      LogAdds(s, step.text);
    } else if step.Write? {
      WriteAdds(s);
    } else {
      StepOnTheWay(s, step);
    }
  }

  /** With any number of syncers every message logged is written once or still on its way. */
  lemma {:induction false} NothingLostNothingDoubled(s: State, steps: seq<Step>)
    requires Initial(s) && IsRun(s, steps)
    ensures Conserved(After(s, steps))
  {
    hide Can, Do;
    if steps != [] {
      NothingLostNothingDoubled(s, steps[..|steps| - 1]);
      StepConserved(After(s, steps[..|steps| - 1]), steps[|steps| - 1]);
    } else {
      assert Texts(s.lines) == [];
    }
  }

  // ---- Stopping ----

  /** Nothing is outside the writer's queue any more. */
  predicate Flushed(s: State) {
    s.buffer == [] && s.swapped == []
  }

  predicate Quiet(steps: seq<Step>) {
    forall i :: 0 <= i < |steps| ==> !steps[i].Log?
  }

  lemma {:induction false} StaysFlushed(s: State, steps: seq<Step>)
    requires IsRun(s, steps) && Flushed(s) && Quiet(steps)
    ensures Flushed(After(s, steps)) && After(s, steps).pushed == s.pushed
    ensures s.writer != Exited && After(s, steps).writer == Exited ==> After(s, steps).queue == []
    ensures s.writer == Exited ==> After(s, steps).writer == Exited && After(s, steps).queue == s.queue
  {
    if steps != [] {
      StaysFlushed(s, steps[..|steps| - 1]);
    }
  }

  /**
   Once everything logged has been handed to the writer and nothing is logged any more, all of it has been written,
   in order, when the writer exits.
   */
  lemma AllWrittenAtExit(s: State, before: seq<Step>, later: seq<Step>)
    requires Initial(s) && IsRun(s, before + later) && OneByOne(before + later)
    requires IsRun(s, before) && Flushed(After(s, before)) && After(s, before).writer != Exited && Quiet(later)
    requires After(s, before + later).writer == Exited
    ensures Texts(After(s, before + later).lines) == NonEmpty(After(s, before + later).pushed)
    ensures After(s, before + later).pushed == After(s, before).pushed
  {
    hide Can, Do, OneByOne;
    RunAppend(s, before, later);
    StaysFlushed(After(s, before), later);
    NothingLostNothingOvertaken(s, before + later);
    AllWritten(After(s, before + later));
  }

  /** The last step of `AllWrittenAtExit`, for a state. */
  lemma AllWritten(s: State)
    requires InOrder(s) && Flushed(s) && s.queue == [] && InHand(s.writer) == []
    ensures Texts(s.lines) == NonEmpty(s.pushed)
  {
    assert OnTheWay(s) == [];
  }

  // ---- Files ----

  /** The writes of a whole batch to one file. */
  function Lines(file: File, batch: seq<string>): seq<Line> {
    if batch == [] then []
    else (if batch[0] != "" then [Line(file, batch[0])] else []) + Lines(file, batch[1..])
  }

  function AllLines(placed: seq<(File, seq<string>)>): seq<Line> {
    if placed == [] then []
    else AllLines(placed[..|placed| - 1]) + Lines(placed[|placed| - 1].0, placed[|placed| - 1].1)
  }

  /** What has been written, with the rest of the batch in hand, is one whole batch after another, each in one file. */
  ghost predicate BatchByBatch(s: State) {
    s.lines + (if s.writer.Writing? then Lines(s.file, s.writer.rest) else []) == AllLines(s.placed)
  }

  lemma OpenBatchByBatch(s: State, file: File)
    requires s.writer.Taken? && BatchByBatch(s)
    ensures AllLines(s.placed + [(file, s.writer.batch)]) == s.lines + Lines(file, s.writer.batch)
  {
    var placed := s.placed + [(file, s.writer.batch)];
    assert placed[..|placed| - 1] == s.placed;
    assert s.lines + [] == s.lines;
  }

  lemma WriteBatchByBatch(s: State)
    requires Can(s, Write) && BatchByBatch(s)
    ensures BatchByBatch(Do(s, Write))
  {
    var text, rest := s.writer.rest[0], s.writer.rest[1..];
    var line := if text != "" then [Line(s.file, text)] else [];
    assert Lines(s.file, s.writer.rest) == line + Lines(s.file, rest);
    hide Lines, AllLines;
    assert s.lines + (line + Lines(s.file, rest)) == (s.lines + line) + Lines(s.file, rest);
  }

  lemma StepBatchByBatch(s: State, step: Step)
    requires Can(s, step) && BatchByBatch(s)
    ensures BatchByBatch(Do(s, step))
  {
    hide Choose, AllLines, Lines;
    match step
    case Open(date, size, limit) => OpenBatchByBatch(s, Choose(s.file, date, size, limit));
    case Write => WriteBatchByBatch(s);
    case Flush => NoLines(s.file);
    case _ =>
  }

  lemma NoLines(file: File)
    ensures Lines(file, []) == [] && AllLines([]) == []
  {
  }

  /** In every run each batch is written wholly to one file. */
  lemma {:induction false} EachBatchInOneFile(s: State, steps: seq<Step>)
    requires Initial(s) && IsRun(s, steps)
    ensures BatchByBatch(After(s, steps))
  {
    hide Can, Do, Lines, AllLines;
    NoLines(s.file);
    if steps != [] {
      EachBatchInOneFile(s, steps[..|steps| - 1]);
      StepBatchByBatch(After(s, steps[..|steps| - 1]), steps[|steps| - 1]);
    }
  }

  /** The openings of files in a run: the day, the size of the last file and the limit. */
  function Opens(steps: seq<Step>): seq<Step> {
    if steps == [] then []
    else Opens(steps[..|steps| - 1]) + if steps[|steps| - 1].Open? then [steps[|steps| - 1]] else []
  }

  /**
   The file `g` for a batch opened after the file `f`: number 0 of another day exactly if the day has changed, the next
   number exactly if it has not and the file has reached the limit, and the same file otherwise.
   */
  predicate Follows(f: File, open: Step, g: File)
    requires open.Open?
  {
    && g.date == open.date
    && (open.date != f.date ==> g.no == 0)
    && (g == File(f.date, f.no + 1) <==> open.date == f.date && open.size >= open.limit)
    && (g == f <==> open.date == f.date && open.size < open.limit)
  }

  /** The file of the last batch, `first` being the one at the start. */
  function LastFile(first: File, placed: seq<(File, seq<string>)>): File {
    if placed == [] then first else placed[|placed| - 1].0
  }

  /** Each batch has its file, which follows that of the batch before. */
  predicate AllFollow(first: File, placed: seq<(File, seq<string>)>, opens: seq<Step>) {
    |placed| == |opens| &&
    (placed != [] ==>
       var n := |placed| - 1;
       && AllFollow(first, placed[..n], opens[..n])
       && opens[n].Open? && Follows(LastFile(first, placed[..n]), opens[n], placed[n].0))
  }

  ghost predicate FilesFollow(s: State, t: State, opens: seq<Step>) {
    AllFollow(s.file, t.placed, opens) && t.file == LastFile(s.file, t.placed)
  }

  /** Only an opening places a batch. */
  lemma StepPlaces(t: State, step: Step)
    requires Can(t, step)
    ensures var u := Do(t, step);
            if step.Open? then u.placed == t.placed + [(u.file, t.writer.batch)] && Follows(t.file, step, u.file)
            else u.placed == t.placed && u.file == t.file
  {
  }

  lemma StepFollows(s: State, t: State, opens: seq<Step>, step: Step)
    requires Can(t, step) && FilesFollow(s, t, opens)
    ensures FilesFollow(s, Do(t, step), opens + if step.Open? then [step] else [])
  {
    StepPlaces(t, step);
    hide Can, Do, Follows;
    var u, opens' := Do(t, step), opens + if step.Open? then [step] else [];
    if step.Open? {
      assert u.placed[..|t.placed|] == t.placed && opens'[..|opens|] == opens;
    } else {
      assert opens' == opens;
    }
  }

  /** Over every run the files of the batches follow each other as the days and the sizes at the openings say. */
  lemma {:induction false} FilesAlwaysFollow(s: State, steps: seq<Step>)
    requires Initial(s) && IsRun(s, steps)
    ensures FilesFollow(s, After(s, steps), Opens(steps))
  {
    hide Can, Do, FilesFollow;
    if steps == [] {
      NoFilesYet(s);
    } else {
      var init := steps[..|steps| - 1];
      FilesAlwaysFollow(s, init);
      StepFollows(s, After(s, init), Opens(init), steps[|steps| - 1]);
    }
  }

  lemma NoFilesYet(s: State)
    requires Initial(s)
    ensures FilesFollow(s, s, [])
  {
  }
}
