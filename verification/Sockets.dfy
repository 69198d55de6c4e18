/** Reading from and writing to a socket through the buffers, against a kernel that answers as it likes. */
module Sockets {
  import opened Bytes
  import opened Buffering

  datatype TcpState = NotConnected | Connected | HalfClosed | Closed

  /** The kernel's answer to a `read`: it offers bytes (none at the end of the stream), has none yet, or fails. */
  datatype ReadAnswer = Offer(data: seq<byte>) | NothingYet | ReadError

  /** The kernel's answer to a `write`: it is willing to take so many bytes, has no room, or fails. */
  datatype WriteAnswer = Accept(n: nat) | NoRoom | WriteError

  /** How a series of reads ends. */
  datatype ReadOutcome = Paused | Failed | PeerClosed

  /** The bytes read into `free` bytes of room: those the buffer admits, those it refuses, and how reading ended. */
  datatype Reading = Reading(admitted: seq<byte>, refused: seq<byte>, outcome: ReadOutcome)

  function AtMost(s: seq<byte>, n: nat): seq<byte> {
    if |s| <= n then s else s[..n]
  }

  /**
   A read that fills the free space to the last byte is refused by `moveWriteIndex`, and the next read
   overwrites it; a shorter one is admitted and ends the series.
   */
  function ReadSeries(answers: seq<ReadAnswer>, free: nat): Reading
    requires free > 0
  {
    if answers == [] then Reading([], [], Paused)
    else
      match answers[0]
      case NothingYet => Reading([], [], Paused)
      case ReadError => Reading([], [], Failed)
      case Offer(data) =>
        if data == [] then Reading([], [], PeerClosed)
        else if |data| < free then Reading(data, [], Paused)
        else
          var later := ReadSeries(answers[1..], free);
          later.(refused := AtMost(data, free) + later.refused)
  }

  /** No read of the series fills the free space: the condition under which the buffer's contract is used. */
  predicate ReadsAreShort(answers: seq<ReadAnswer>, free: nat) {
    answers != [] && answers[0].Offer? ==> |answers[0].data| < free
  }

  /** All bytes that the kernel hands over in a series, whether the buffer admits them or not. */
  function HandedOver(answers: seq<ReadAnswer>, free: nat): seq<byte>
    requires free > 0
  {
    if answers == [] || !answers[0].Offer? then []
    else if |answers[0].data| < free then answers[0].data
    else answers[0].data[..free] + HandedOver(answers[1..], free)
  }

  /** What is handed over is refused or admitted, the refused bytes first. */
  lemma {:induction false} RefusedOrAdmitted(answers: seq<ReadAnswer>, free: nat)
    requires free > 0
    ensures var r := ReadSeries(answers, free); r.refused + r.admitted == HandedOver(answers, free)
    ensures ReadSeries(answers, free).outcome != Paused ==> ReadSeries(answers, free).admitted == []
  {
    if answers != [] && answers[0].Offer? && |answers[0].data| >= free {
      RefusedOrAdmitted(answers[1..], free);
      var later := ReadSeries(answers[1..], free);
      var data := AtMost(answers[0].data, free);
      assert data == answers[0].data[..free];
      assert data + later.refused + later.admitted == data + (later.refused + later.admitted);
    }
  }

  /** Bytes that the kernel has handed over are lost exactly when a read fills the free space to the last byte. */
  lemma {:induction false} NothingRefusedExactlyWhen(answers: seq<ReadAnswer>, free: nat)
    requires free > 0
    ensures ReadSeries(answers, free).refused == [] <==> ReadsAreShort(answers, free)
  {
    if !ReadsAreShort(answers, free) {
      assert AtMost(answers[0].data, free) != [];
    }
  }

  /** The answer that ends a series of reads: the first that does not fill the room, or that there is nothing yet. */
  function Ending(answers: seq<ReadAnswer>, free: nat): ReadAnswer {
    if answers == [] then NothingYet
    else if answers[0].Offer? && |answers[0].data| >= free then Ending(answers[1..], free)
    else answers[0]
  }

  /** It alone says what is admitted and how reading ends. */
  lemma {:induction false} EndingDecides(answers: seq<ReadAnswer>, free: nat)
    requires free > 0
    ensures var r, e := ReadSeries(answers, free), Ending(answers, free);
            && (r.outcome == Failed <==> e == ReadError) && (r.outcome == PeerClosed <==> e == Offer([]))
            && r.admitted == if e.Offer? then e.data else []
  {
    if answers != [] && answers[0].Offer? && |answers[0].data| >= free {
      EndingDecides(answers[1..], free);
    }
  }

  /** The buffer never takes more than there is room for, so no package as long as the buffer can ever be complete. */
  lemma {:induction false} AdmittedIsShort(answers: seq<ReadAnswer>, free: nat)
    requires free > 0
    ensures |ReadSeries(answers, free).admitted| < free
  {
    if answers != [] && answers[0].Offer? && |answers[0].data| >= free {
      AdmittedIsShort(answers[1..], free);
    }
  }

  /** The first answer of a series decides, unless it fills the free space: then it is refused and reading goes on. */
  lemma FirstRead(answers: seq<ReadAnswer>, i: nat, free: nat)
    requires i <= |answers| && free > 0
    ensures i == |answers| || answers[i].NothingYet? ==> ReadSeries(answers[i..], free) == Reading([], [], Paused)
    ensures i < |answers| && answers[i].ReadError? ==> ReadSeries(answers[i..], free) == Reading([], [], Failed)
    ensures i < |answers| && answers[i].Offer? ==>
              var data, later := answers[i].data, ReadSeries(answers[i + 1..], free);
              ReadSeries(answers[i..], free)
              == if data == [] then Reading([], [], PeerClosed)
                 else if |data| < free then Reading(data, [], Paused)
                 else later.(refused := AtMost(data, free) + later.refused)
  {
    if i < |answers| {
      assert answers[i..][0] == answers[i] && answers[i..][1..] == answers[i + 1..];
    }
  }

  lemma ShortOffer(data: seq<byte>, free: nat)
    requires 0 < |data| < free
    ensures ReadSeries([Offer(data)], free) == Reading(data, [], Paused)
  {
  }

  lemma LongOffer(data: seq<byte>, free: nat)
    requires 0 < free <= |data|
    ensures ReadSeries([Offer(data)], free) == Reading([], data[..free], Paused)
  {
    var answers := [Offer(data)];
    assert answers[1..] == [];
    assert AtMost(data, free) + [] == data[..free];
  }

  lemma MoveNothing(l: Layout)
    requires l.Valid() && l.WriteAvailable() > 0
    ensures Buffering.After(l, MoveWrite(0)) == l
  {
  }

  /** `onRead` up to the point where it executes or closes: reads until the kernel pauses, fails or ends the stream. */
  method FillFrom(b: TcpBuffer, answers: seq<ReadAnswer>) returns (outcome: ReadOutcome, ghost refused: seq<byte>)
    requires b.Valid() && b.writeIndex < b.size
    modifies b, b.buffer
    ensures b.Valid() && b.writeIndex < b.size == old(b.size) && b.buffer == old(b.buffer)
    ensures var r := ReadSeries(answers, old(b.WriteAvailable()));
            && outcome == r.outcome && refused == r.refused
            && b.Contents() == old(b.Contents()) + r.admitted
            && b.Where() == Buffering.After(old(b.Where()), MoveWrite(|r.admitted|))
  {
    hide Buffering.After, Moved, ReadSeries, AtMost;
    ghost var series := ReadSeries(answers, b.WriteAvailable());
    ghost var before, where := b.Contents(), b.Where();
    MoveNothing(where);
    refused := [];
    var i := 0;
    assert answers[0..] == answers;
    while true
      invariant 0 <= i <= |answers|
      invariant b.Valid() && b.writeIndex < b.size && b.buffer == old(b.buffer)
      invariant b.Where() == where && b.Contents() == before
      invariant var later := ReadSeries(answers[i..], b.WriteAvailable());
                series == Reading(later.admitted, refused + later.refused, later.outcome)
      decreases |answers| - i
    {
      EnsureRoom(b);
      var freeLen := b.WriteAvailable();
      FirstRead(answers, i, freeLen);
      if i == |answers| || answers[i].NothingYet? {
        return Paused, refused;
      }
      if answers[i].ReadError? {
        return Failed, refused;
      }
      var n := ReadOnce(b, answers[i].data);
      if n < freeLen {
        return if n == 0 then PeerClosed else Paused, refused;
      }
      refused := refused + AtMost(answers[i].data, freeLen);
      i := i + 1;
    }
  }

  /** One `read` into the free space, and the move of the write index behind it. */
  method ReadOnce(b: TcpBuffer, offered: seq<byte>) returns (n: nat)
    requires b.Valid()
    modifies b`writeIndex, b.buffer
    ensures b.Valid() && n == (if |offered| < old(b.WriteAvailable()) then |offered| else old(b.WriteAvailable()))
    ensures n < old(b.WriteAvailable()) ==>
              && b.Contents() == old(b.Contents()) + offered && b.writeIndex == old(b.writeIndex) + n
              && b.Where() == Buffering.After(old(b.Where()), MoveWrite(n))
    ensures n == old(b.WriteAvailable()) ==> b.Contents() == old(b.Contents()) && b.Where() == old(b.Where())
  {
    var data := AtMost(offered, b.WriteAvailable());
    n := |data|;
    b.CopyIn(data);
    b.MoveWriteIndex(n);
  }

  /** Grows a full buffer to twice its size. */
  method EnsureRoom(b: TcpBuffer)
    requires b.Valid()
    modifies b
    ensures b.Valid() && (b.buffer == old(b.buffer) || fresh(b.buffer)) && b.Contents() == old(b.Contents())
    ensures old(b.WriteAvailable()) > 0 ==> b.Where() == old(b.Where()) && b.buffer == old(b.buffer)
  {
    if b.WriteAvailable() == 0 {
      b.ResizeBuffer(2 * b.size);
    }
  }

  /** How a series of writes ends. */
  datatype WriteOutcome = Drained | Blocked | Broken

  /** The number of bytes taken by a series of writes of `len` bytes, and how it ended. */
  datatype Writing = Writing(taken: nat, outcome: WriteOutcome)

  function WriteSeries(answers: seq<WriteAnswer>, len: nat): (w: Writing)
    requires len > 0
    ensures w.taken <= len && (w.outcome.Drained? <==> w.taken == len)
  {
    if answers == [] then Writing(0, Blocked)
    else
      match answers[0]
      case NoRoom => Writing(0, Blocked)
      case WriteError => Writing(0, Broken)
      case Accept(n) =>
        if n >= len then Writing(len, Drained)
        else
          var later := WriteSeries(answers[1..], len - n);
          later.(taken := n + later.taken)
  }

  /** What the kernel would take in all before it has no room or fails. */
  function Capacity(answers: seq<WriteAnswer>): nat {
    if answers == [] || !answers[0].Accept? then 0 else answers[0].n + Capacity(answers[1..])
  }

  /** The kernel fails before it has no room. */
  predicate FailsFirst(answers: seq<WriteAnswer>) {
    exists i :: 0 <= i < |answers| && answers[i].WriteError? && forall j :: 0 <= j < i ==> answers[j].Accept?
  }

  /** Writing goes on until all is taken, or all that the kernel would take; it has then no room or fails. */
  lemma {:induction false} TakenAsOffered(answers: seq<WriteAnswer>, len: nat)
    requires len > 0
    ensures WriteSeries(answers, len).taken == if Capacity(answers) < len then Capacity(answers) else len
    ensures WriteSeries(answers, len).outcome == Broken <==> Capacity(answers) < len && FailsFirst(answers)
  {
    if answers != [] && answers[0].Accept? {
      FailsLater(answers);
      if answers[0].n < len {
        TakenAsOffered(answers[1..], len - answers[0].n);
      }
    }
  }

  lemma FailsLater(answers: seq<WriteAnswer>)
    requires answers != [] && answers[0].Accept?
    ensures FailsFirst(answers) <==> FailsFirst(answers[1..])
  {
    var rest := answers[1..];
    if i :| 0 <= i < |answers| && answers[i].WriteError? && forall j :: 0 <= j < i ==> answers[j].Accept? {
      assert rest[i - 1].WriteError? && forall j :: 0 <= j < i - 1 ==> rest[j] == answers[j + 1];
    }
    if i :| 0 <= i < |rest| && rest[i].WriteError? && forall j :: 0 <= j < i ==> rest[j].Accept? {
      assert answers[i + 1].WriteError? && forall j :: 0 < j < i + 1 ==> answers[j] == rest[j - 1];
    }
  }

  /** The first answer of a series decides, unless it takes only a part: then the rest is written on. */
  lemma FirstWrite(answers: seq<WriteAnswer>, i: nat, len: nat)
    requires i <= |answers| && len > 0
    ensures i == |answers| || answers[i].NoRoom? ==> WriteSeries(answers[i..], len) == Writing(0, Blocked)
    ensures i < |answers| && answers[i].WriteError? ==> WriteSeries(answers[i..], len) == Writing(0, Broken)
    ensures i < |answers| && answers[i].Accept? && answers[i].n >= len ==>
              WriteSeries(answers[i..], len) == Writing(len, Drained)
    ensures i < |answers| && answers[i].Accept? && answers[i].n < len ==>
              var later := WriteSeries(answers[i + 1..], len - answers[i].n);
              WriteSeries(answers[i..], len) == Writing(answers[i].n + later.taken, later.outcome)
  {
    if i < |answers| {
      assert answers[i..][0] == answers[i] && answers[i..][1..] == answers[i + 1..];
    }
  }

  /** The write loop of `onWrite`: until all is written, the kernel has no room or fails. `written` is what it took. */
  method DrainTo(b: TcpBuffer, answers: seq<WriteAnswer>) returns (outcome: WriteOutcome, written: seq<byte>)
    requires b.Valid() && b.Contents() != []
    modifies b, b.buffer
    ensures b.Valid() && b.buffer == old(b.buffer)
    ensures var w := WriteSeries(answers, |old(b.Contents())|);
            && outcome == w.outcome && written == old(b.Contents())[..w.taken]
            && b.Contents() == old(b.Contents())[w.taken..]
  {
    hide WriteSeries, TcpBuffer.Valid, TcpBuffer.Contents;
    ghost var all := b.Contents();
    ghost var series := WriteSeries(answers, |all|);
    written, outcome := [], Blocked;
    var i := 0;
    assert answers[0..] == answers;
    while i < |answers|
      invariant 0 <= i <= |answers| && |written| < |all| && written == all[..|written|]
      invariant b.Valid() && b.buffer == old(b.buffer) && b.Contents() == all[|written|..]
      invariant var later := WriteSeries(answers[i..], |all| - |written|);
                series == Writing(|written| + later.taken, later.outcome)
    {
      var len := Unread(b);
      FirstWrite(answers, i, len);
      if answers[i].NoRoom? {
        return;
      }
      if answers[i].WriteError? {
        return Broken, written;
      }
      var n := if answers[i].n < len then answers[i].n else len;
      var taken := WriteOnce(b, n);
      NextPart(all, |written|, n);
      written := written + taken;
      if n >= len {
        return Drained, written;
      }
      i := i + 1;
    }
    FirstWrite(answers, i, |all| - |written|);
  }

  method Unread(b: TcpBuffer) returns (len: nat)
    requires b.Valid()
    ensures len == |b.Contents()|
  {
    len := b.ReadAvailable();
  }

  /** One `write`, of which the kernel takes `n` bytes, and the move of the read index behind them. */
  method WriteOnce(b: TcpBuffer, n: nat) returns (taken: seq<byte>)
    requires b.Valid() && n <= |b.Contents()|
    modifies b, b.buffer
    ensures b.Valid() && b.buffer == old(b.buffer)
    ensures taken == old(b.Contents())[..n] && b.Contents() == old(b.Contents())[n..]
  {
    hide Buffering.After, Moved;
    taken := b.buffer[b.readIndex..b.readIndex + n];
    assert taken == b.Contents()[..n];
    b.MoveReadIndex(n);
  }

  lemma NextPart<X>(all: seq<X>, k: nat, n: nat)
    requires k + n <= |all|
    ensures all[..k] + all[k..][..n] == all[..k + n] && all[k..][n..] == all[k + n..]
  {
  }
}
