/**
 The loggers as objects. Each method does what one thread does without being interrupted, and takes the machine of
 `LogPipeline` the same steps further. The day, the size of the open file and the standard output are outside.
 */
module Loggers {
  import opened LogPipeline

  class AsyncLogger {
    const maxFileSize: int
    var buffer: seq<seq<string>>
    var date: string
    var no: nat
    var isOpen: bool
    var reopen: bool
    var stopFlag: bool
    /** All that has been written, with the file each line went to. */
    var lines: seq<Line>
    /** Where the writer's thread is. */
    var writer: Writer
    ghost var placed: seq<(File, seq<string>)>

    /** The file named last, if there is one, is open. */
    ghost predicate Valid()
      reads this
    {
      !reopen && (date != "" ==> isOpen) && (writer.Writing? ==> isOpen)
    }

    /** The state of the machine, the part outside this object being that of `s`. */
    ghost function Over(s: State): State
      reads this
    {
      s.(queue := buffer, writer := writer, file := File(date, no), stop := stopFlag, lines := lines, placed := placed)
    }

    constructor (maxFileSize: int)
      ensures Valid() && this.maxFileSize == maxFileSize
      ensures buffer == [] && writer == Waiting && !stopFlag && lines == [] && placed == [] && File(date, no) == File("", 0)
    {
      this.maxFileSize := maxFileSize;
      buffer, date, no, isOpen, reopen, stopFlag, lines := [], "", 0, false, false, false, [];
      writer, placed := Waiting, [];
    }

    method PushLogs(logs: seq<string>)
      modifies this`buffer
      ensures buffer == old(buffer) + [logs]
    {
      buffer := buffer + [logs];
    }

    /** The part of `stop` ahead of the join. */
    method SetStop()
      modifies this`stopFlag
      ensures stopFlag
    {
      stopFlag := true;
    }

    /** Chooses the file of the batch taken, and opens it if it is not the one that is open. */
    method ChooseFile(today: string, size: int, ghost s: State)
      requires Valid() && writer.Taken? && today != ""
      modifies this`date, this`no, this`isOpen, this`reopen, this`writer, this`placed
      ensures Valid() && isOpen && Can(old(Over(s)), Open(today, size, maxFileSize))
      ensures Over(s) == Do(old(Over(s)), Open(today, size, maxFileSize))
      ensures date == today
      ensures today != old(date) ==> no == 0
      ensures today == old(date) ==> no == old(no) + if size >= maxFileSize then 1 else 0
    {
      if today != date {
        no := 0;
        reopen := true;
        date := today;
      } else if size >= maxFileSize {
        no := no + 1;
        reopen := true;
      }
      if reopen {
        isOpen := true;
        reopen := false;
      }
      placed := placed + [(File(date, no), writer.batch)];
      writer := Writing(writer.batch);
    }

    method WriteBatch(output: seq<string>, ghost s: State, ghost from: State, ghost before: seq<Step>)
      returns (ghost steps: seq<Step>)
      requires Valid() && writer == Writing(output) && IsRun(from, before) && Over(s) == After(from, before)
      modifies this`lines, this`writer
      ensures Valid() && writer == Writing([])
      ensures steps == before + Writes(|output|)
      ensures IsRun(from, steps) && Over(s) == After(from, steps)
    {
      hide IsRun, After;
      steps := before;
      for i := 0 to |output|
        invariant Valid() && writer == Writing(output[i..])
        invariant steps == before + Writes(i)
        invariant IsRun(from, steps) && Over(s) == After(from, steps)
      {
        assert output[i..][0] == output[i] && output[i..][1..] == output[i + 1..];
        RunSnoc(from, steps, Write);
        steps := steps + [Write];
        if output[i] != "" {
          lines := lines + [Line(File(date, no), output[i])];
        }
        writer := Writing(output[i + 1..]);
      }
    }

    /** Takes the oldest batch from the queue, under the lock. */
    method TakeBatch(ghost s: State)
      requires Valid() && writer == Waiting && buffer != []
      modifies this`buffer, this`writer
      ensures Valid() && writer == Taken(old(buffer)[0]) && |buffer| == |old(buffer)| - 1
      ensures Can(old(Over(s)), Take) && Over(s) == Do(old(Over(s)), Take)
    {
      writer := Taken(buffer[0]);
      buffer := buffer[1..];
    }

    /** The rest of a round: what is left of the batch in hand is written, to a file chosen now if it was not before. */
    method FinishBatch(today: string, size: int, ghost s: State, ghost from: State, ghost before: seq<Step>)
      returns (ghost steps: seq<Step>)
      requires Valid() && (writer.Taken? || writer.Writing?) && today != ""
      requires IsRun(from, before) && Over(s) == After(from, before)
      modifies this`date, this`no, this`isOpen, this`reopen, this`writer, this`placed, this`lines
      ensures Valid() && writer == Waiting
      ensures steps == before + (if old(writer).Taken? then [Open(today, size, maxFileSize)] else [])
                       + Writes(|InHand(old(writer))|) + [Flush]
      ensures IsRun(from, steps) && Over(s) == After(from, steps)
    {
      hide IsRun, After, Choose;
      steps := before;
      if writer.Taken? {
        RunSnoc(from, steps, Open(today, size, maxFileSize));
        ChooseFile(today, size, s);
        steps := steps + [Open(today, size, maxFileSize)];
      } else {
        assert steps == before + [];
      }
      steps := WriteBatch(writer.rest, s, from, steps);
      RunSnoc(from, steps, Flush);
      steps := steps + [Flush];
      writer := Waiting;
    }

    /** One round of the writer's loop that finds a batch: it takes the batch, chooses the file and writes. */
    method Round(today: string, size: int, ghost s: State) returns (ghost steps: seq<Step>)
      requires Valid() && writer == Waiting && buffer != [] && today != ""
      modifies this`buffer, this`date, this`no, this`isOpen, this`reopen, this`writer, this`placed, this`lines
      ensures Valid() && writer == Waiting && |buffer| == |old(buffer)| - 1
      ensures steps == [Take] + [Open(today, size, maxFileSize)] + Writes(|old(buffer)[0]|) + [Flush]
      ensures IsRun(old(Over(s)), steps) && Over(s) == After(old(Over(s)), steps)
    {
      hide IsRun, After, Choose, Do;
      ghost var from := Over(s);
      StartOf(from);
      RunSnoc(from, [], Take);
      TakeBatch(s);
      assert [] + [Take] == [Take];
      steps := FinishBatch(today, size, s, from, [Take]);
    }
  }

  /** The steps by which `n` messages are written. */
  function Writes(n: nat): seq<Step> {
    seq(n, i => Write)
  }

  lemma StartOf(s: State)
    ensures IsRun(s, []) && After(s, []) == s
  {
  }

  /** A run keeps what every step of the machine keeps. */
  lemma {:induction false} RunKeeps(s: State, steps: seq<Step>)
    requires IsRun(s, steps) && Conserved(s) && BatchByBatch(s)
    ensures Conserved(After(s, steps)) && BatchByBatch(After(s, steps))
    ensures InOrder(s) && OneByOne(steps) ==> InOrder(After(s, steps))
  {
    hide Can, Do, InOrder, BatchByBatch, Conserved;
    if steps != [] {
      var init, last := steps[..|steps| - 1], steps[|steps| - 1];
      RunKeeps(s, init);
      StepConserved(After(s, init), last);
      StepBatchByBatch(After(s, init), last);
      if InOrder(s) && OneByOne(steps) {
        StepInOrder(After(s, init), last);
      }
    }
  }

  lemma StepKeeps(s: State, step: Step)
    requires Can(s, step) && Conserved(s) && BatchByBatch(s)
    ensures Conserved(Do(s, step)) && BatchByBatch(Do(s, step))
    ensures InOrder(s) && (step.Hand? ==> step.syncer == 0) ==> InOrder(Do(s, step))
  {
    hide InOrder, BatchByBatch, Conserved, Do;
    StepConserved(s, step);
    StepBatchByBatch(s, step);
    if InOrder(s) && (step.Hand? ==> step.syncer == 0) {
      StepInOrder(s, step);
    }
  }

  /** The writer's steps hand nothing over. */
  lemma WriterIsOneByOne(before: seq<Step>, n: nat)
    requires OneByOne(before)
    ensures OneByOne(before + Writes(n) + [Flush])
  {
  }

  class Logger {
    const isAsync: bool
    const asyncLogger: AsyncLogger
    var buffer: seq<string>
    /** What has gone to the standard output. */
    var printed: seq<string>
    ghost var swapped: seq<seq<string>>
    ghost var pushed: seq<string>

    ghost function View(): State
      reads this, asyncLogger
    {
      asyncLogger.Over(State(buffer, swapped, [], Waiting, File("", 0), false, [], [], pushed))
    }

    /** Nothing is lost or doubled, and every batch is whole in its file. */
    ghost predicate Valid()
      reads this, asyncLogger
    {
      asyncLogger.Valid() && Conserved(View()) && BatchByBatch(View())
    }

    constructor (isAsync: bool, asyncLogger: AsyncLogger)
      requires asyncLogger.Valid() && asyncLogger.writer == Waiting && asyncLogger.buffer == [] && !asyncLogger.stopFlag
      requires asyncLogger.lines == [] && asyncLogger.placed == []
      ensures this.isAsync == isAsync && this.asyncLogger == asyncLogger
      ensures Valid() && Initial(View()) && InOrder(View()) && printed == []
    {
      this.isAsync, this.asyncLogger := isAsync, asyncLogger;
      buffer, printed, swapped, pushed := [], [], [], [];
      new;
      StartOf(View());
      NothingLostNothingOvertaken(View(), []);
      NothingLostNothingDoubled(View(), []);
      EachBatchInOneFile(View(), []);
    }

    method PushLog(msg: string)
      requires Valid()
      modifies this
      ensures Valid() && (old(InOrder(View())) ==> InOrder(View()))
      ensures isAsync ==> View() == Do(old(View()), Log(msg)) && printed == old(printed)
      ensures !isAsync ==> View() == old(View()) && printed == old(printed) + [msg]
    {
      hide InOrder, BatchByBatch, Conserved;
      if !isAsync {
        printed := printed + [msg];
        return;
      }
      StepKeeps(View(), Log(msg));
      buffer := buffer + [msg];
      pushed := pushed + [msg];
    }

    /** The first half of `syncLogs`, under the logger's lock. */
    method SwapBuffer() returns (tmp: seq<string>)
      requires Valid()
      modifies this
      ensures Valid() && (old(InOrder(View())) ==> InOrder(View()))
      ensures tmp == old(buffer) && printed == old(printed) && View() == Do(old(View()), Swap)
    {
      hide InOrder, BatchByBatch, Conserved;
      StepKeeps(View(), Swap);
      tmp := buffer;
      buffer := [];
      if tmp != [] {
        swapped := swapped + [tmp];
      }
    }

    /** The second half, under the writer's lock: one of the syncers hands its vector over. */
    method HandOver(tmp: seq<string>, ghost syncer: nat)
      requires Valid() && syncer < |swapped| && swapped[syncer] == tmp
      modifies this`swapped, asyncLogger`buffer
      ensures Valid() && (old(InOrder(View())) && syncer == 0 ==> InOrder(View()))
      ensures View() == Do(old(View()), Hand(syncer))
    {
      hide InOrder, BatchByBatch, Conserved;
      StepKeeps(View(), Hand(syncer));
      asyncLogger.PushLogs(tmp);
      swapped := swapped[..syncer] + swapped[syncer + 1..];
    }

    /**
     All that is in the buffer goes to the writer's queue, whatever other syncers hold; the order is kept if there is
     no other at work.
     */
    method SyncLogs()
      requires Valid()
      modifies this, asyncLogger`buffer
      ensures Valid() && buffer == [] && swapped == old(swapped) && pushed == old(pushed) && printed == old(printed)
      ensures asyncLogger.buffer == old(asyncLogger.buffer) + if old(buffer) == [] then [] else [old(buffer)]
      ensures old(InOrder(View())) && swapped == [] ==> InOrder(View())
    {
      hide InOrder, BatchByBatch, Conserved;
      ghost var mine := |swapped|;
      var tmp := SwapBuffer();
      if tmp != [] {
        HandOver(tmp, mine);
      }
    }

    /**
     The join: the writer finishes the batch it has in hand and goes on until it exits. `clock` gives the day and the
     size of the file at each round.
     */
    method Join(clock: nat -> (string, int))
      requires Valid() && asyncLogger.stopFlag && asyncLogger.writer != Exited && forall i: nat :: clock(i).0 != ""
      modifies asyncLogger
      ensures Valid() && asyncLogger.writer == Exited && asyncLogger.buffer == []
      ensures old(InOrder(View())) ==> InOrder(View())
    {
      hide InOrder, BatchByBatch, Conserved;
      var i := 0;
      if asyncLogger.writer != Waiting {
        Finish(clock(0).0, clock(0).1);
        i := 1;
      }
      while asyncLogger.buffer != []
        invariant Valid() && asyncLogger.writer == Waiting && asyncLogger.stopFlag
        invariant old(InOrder(View())) ==> InOrder(View())
        decreases |asyncLogger.buffer|
      {
        Work(clock(i).0, clock(i).1);
        i := i + 1;
      }
      StepKeeps(View(), Exit);
      asyncLogger.writer := Exited;
    }

    method Finish(today: string, size: int)
      requires Valid() && (asyncLogger.writer.Taken? || asyncLogger.writer.Writing?) && today != ""
      modifies asyncLogger
      ensures Valid() && asyncLogger.writer == Waiting && asyncLogger.stopFlag == old(asyncLogger.stopFlag)
      ensures old(InOrder(View())) ==> InOrder(View())
    {
      hide InOrder, BatchByBatch, Conserved, IsRun, After;
      ghost var from := View();
      StartOf(from);
      ghost var n := |InHand(asyncLogger.writer)|;
      ghost var opens := if asyncLogger.writer.Taken? then [Open(today, size, asyncLogger.maxFileSize)] else [];
      ghost var steps := asyncLogger.FinishBatch(today, size, from, from, []);
      WriterIsOneByOne([] + opens, n);
      RunKeeps(from, steps);
    }

    method Work(today: string, size: int)
      requires Valid() && asyncLogger.writer == Waiting && asyncLogger.buffer != [] && today != ""
      modifies asyncLogger
      ensures Valid() && asyncLogger.writer == Waiting && |asyncLogger.buffer| < |old(asyncLogger.buffer)|
      ensures asyncLogger.stopFlag == old(asyncLogger.stopFlag)
      ensures old(InOrder(View())) ==> InOrder(View())
    {
      hide InOrder, BatchByBatch, Conserved, IsRun, After;
      ghost var from := View();
      ghost var n := |asyncLogger.buffer[0]|;
      ghost var steps := asyncLogger.Round(today, size, from);
      WriterIsOneByOne([Take] + [Open(today, size, asyncLogger.maxFileSize)], n);
      RunKeeps(from, steps);
    }

    /**
     After `flushAndStop` everything ever logged has been written once, but for what another syncer has swapped out and
     not handed over; with no other syncer at work all is written, in the order in which it was logged.
     */
    method FlushAndStop(clock: nat -> (string, int))
      requires Valid() && asyncLogger.writer != Exited && forall i: nat :: clock(i).0 != ""
      modifies this, asyncLogger
      ensures Valid() && pushed == old(pushed) && swapped == old(swapped) && printed == old(printed)
      ensures !isAsync ==> View() == old(View())
      ensures isAsync ==>
                && multiset(Texts(asyncLogger.lines)) + multiset(NonEmpty(Flatten(swapped))) == multiset(NonEmpty(pushed))
                && AllLines(asyncLogger.placed) == asyncLogger.lines
      ensures isAsync && swapped == [] && old(InOrder(View())) ==> Texts(asyncLogger.lines) == NonEmpty(pushed)
    {
      hide NonEmpty, Texts, AllLines, OnTheWay, InOrder, BatchByBatch, Conserved, Flatten;
      if isAsync {
        SyncLogs();
        StepKeeps(View(), Step.Stop);
        asyncLogger.SetStop();
        Join(clock);
        AllButSwapped(View());
        if swapped == [] && old(InOrder(View())) {
          AllWritten(View());
        }
      }
    }
  }

  /** When the writer has exited and the buffer is empty, what is not written is with a syncer. */
  lemma AllButSwapped(s: State)
    requires Conserved(s) && BatchByBatch(s) && s.buffer == [] && s.queue == [] && s.writer == Exited
    ensures multiset(Texts(s.lines)) + multiset(NonEmpty(Flatten(s.swapped))) == multiset(NonEmpty(s.pushed))
    ensures AllLines(s.placed) == s.lines
  {
    hide NonEmpty, Texts, AllLines;
    assert OnTheWay(s) == Flatten(s.swapped);
    assert s.lines + [] == s.lines;
  }
}
