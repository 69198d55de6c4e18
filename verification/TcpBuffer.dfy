/**
 The growable byte buffer between a socket and the codec: where its bytes lie (its layout), what each
 operation does to the layout and how many bytes it has to move, and the class itself.
 */
module Buffering {
  import opened Bytes

  /** The two indices of a buffer and its size. The unread bytes are those in `[read, write)`. */
  datatype Layout = Layout(read: nat, write: nat, size: nat) {
    predicate Valid() {
      read <= write <= size
    }

    function ReadAvailable(): int {
      write - read
    }

    function WriteAvailable(): int {
      size - write
    }

    /** `shiftBuffer`: once the read index is past the middle the unread bytes go to the front. */
    function Shifted(): Layout
      requires Valid()
    {
      if read >= size / 2 then Layout(0, write - read, size) else this
    }

    function ShiftCost(): nat
      requires Valid()
    {
      if read >= size / 2 then write - read else 0
    }

    /** `resizeBuffer`, which refuses to drop unread bytes. */
    function Resized(n: int): Layout
      requires Valid()
    {
      if n < write - read then this else Layout(0, write - read, n)
    }

    function ResizeCost(n: int): nat
      requires Valid()
    {
      if n < write - read then 0 else write - read
    }

    /** Whether `writeToBuffer` has to grow the buffer for `n` more bytes. */
    predicate Grows(n: nat) {
      n > WriteAvailable()
    }
  }

  /** A call of one of the operations that carry the stream. */
  datatype Op =
    | Write(data: seq<byte>)
    | Read(len: int)
    | MoveRead(n: nat)
    | MoveWrite(n: nat)

  /** Where the bytes lie after an operation. */
  function After(l: Layout, op: Op): (l': Layout)
    requires l.Valid()
    ensures l'.Valid()
  {
    match op
    case Write(data) =>
      var g := if l.Grows(|data|) then l.Resized(2 * (l.ReadAvailable() + |data|)) else l;
      g.(write := g.write + |data|)
    case Read(n) =>
      if l.ReadAvailable() <= 0 || n <= 0 then l
      else l.(read := l.read + Taken(l, op)).Shifted()
    case MoveRead(n) =>
      if l.read + n >= l.write then Layout(0, 0, l.size) else l.(read := l.read + n).Shifted()
    case MoveWrite(n) =>
      if l.write + n >= l.size then l else l.(write := l.write + n)
  }

  /** How many bytes the operation puts into the buffer. */
  function Added(l: Layout, op: Op): nat {
    match op
    case Write(data) => |data|
    case MoveWrite(n) => if l.write + n >= l.size then 0 else n
    case _ => 0
  }

  /** How many unread bytes the operation consumes. */
  function Taken(l: Layout, op: Op): nat
    requires l.Valid()
  {
    match op
    case Read(n) => if n <= 0 then 0 else if n < l.ReadAvailable() then n else l.ReadAvailable()
    case MoveRead(n) => if n < l.ReadAvailable() then n else l.ReadAvailable()
    case _ => 0
  }

  /** How many bytes the operation moves from one place of the buffer to another. */
  function Moved(l: Layout, op: Op): nat
    requires l.Valid()
  {
    match op
    case Write(data) =>
      if l.Grows(|data|) then l.ResizeCost(2 * (l.ReadAvailable() + |data|)) else 0
    case Read(n) =>
      if l.ReadAvailable() <= 0 || n <= 0 then 0 else l.(read := l.read + Taken(l, op)).ShiftCost()
    case MoveRead(n) =>
      if l.read + n >= l.write then 0 else l.(read := l.read + n).ShiftCost()
    case MoveWrite(n) => 0
  }

  /** The totals over a run of operations. */
  datatype Totals = Totals(layout: Layout, added: nat, taken: nat, moved: nat)

  function Run(l: Layout, ops: seq<Op>): (t: Totals)
    requires l.Valid()
    ensures t.layout.Valid()
  {
    if ops == [] then Totals(l, 0, 0, 0)
    else
      var t := Run(l, ops[..|ops| - 1]);
      var op := ops[|ops| - 1];
      Totals(After(t.layout, op), t.added + Added(t.layout, op), t.taken + Taken(t.layout, op),
             t.moved + Moved(t.layout, op))
  }

  /** Copying already paid for: two per consumed byte not yet shifted away, two per byte beyond half the buffer. */
  function Credit(l: Layout): nat {
    2 * l.read + if 2 * l.write > l.size then 2 * l.write - l.size else 0
  }

  /** A buffer that holds nothing because it has no room, or one of at least two bytes. */
  predicate Roomy(l: Layout) {
    l.Valid() && (l.size >= 2 || l == Layout(0, 0, 0))
  }

  /** A shift is paid for by the bytes consumed since the last one. */
  lemma ShiftCostPaid(l: Layout)
    requires l.Valid() && l.size >= 2
    ensures l.ShiftCost() + Credit(l.Shifted()) <= Credit(l)
  {
    if l.read >= l.size / 2 {
      assert l.write - l.read <= 2 * l.read;
    }
  }

  /** A resize is paid for by the bytes written into the second half of the buffer and those that did not fit. */
  lemma ResizeCostPaid(l: Layout, len: nat)
    requires l.Valid() && l.Grows(len)
    ensures var g := l.Resized(2 * (l.ReadAvailable() + len));
            l.ResizeCost(2 * (l.ReadAvailable() + len)) + Credit(g.(write := g.write + len)) <= Credit(l) + 2 * len
  {
  }

  lemma WriteCost(l: Layout, data: seq<byte>)
    requires Roomy(l)
    ensures StepPaid(l, Write(data))
  {
    if l.Grows(|data|) {
      ResizeCostPaid(l, |data|);
    }
  }

  /** Consuming bytes and then shifting is paid for by the bytes consumed. */
  lemma ConsumeCost(l: Layout, taken: nat)
    requires l.Valid() && l.size >= 2 && l.read + taken <= l.write
    ensures var l' := l.(read := l.read + taken);
            && Roomy(l'.Shifted()) && l'.ShiftCost() + Credit(l'.Shifted()) <= Credit(l) + 2 * taken
  {
    var l' := l.(read := l.read + taken);
    ShiftCostPaid(l');
    assert Credit(l') == Credit(l) + 2 * taken;
  }

  lemma ReadCost(l: Layout, n: int)
    requires Roomy(l)
    ensures StepPaid(l, Read(n))
  {
    if l.ReadAvailable() > 0 && n > 0 {
      hide Credit;
      ConsumeCost(l, Taken(l, Read(n)));
    }
  }

  lemma MoveReadCost(l: Layout, n: nat)
    requires Roomy(l)
    ensures StepPaid(l, MoveRead(n))
  {
    if l.read + n < l.write {
      hide Credit;
      ConsumeCost(l, n);
    }
  }

  predicate StepPaid(l: Layout, op: Op)
    requires l.Valid()
  {
    && Roomy(After(l, op))
    && Moved(l, op) + Credit(After(l, op)) <= Credit(l) + 2 * Added(l, op) + 2 * Taken(l, op)
  }

  lemma StepCost(l: Layout, op: Op)
    requires Roomy(l)
    ensures StepPaid(l, op)
  {
    hide StepPaid;
    match op
    case Write(data) => WriteCost(l, data);
    case Read(n) => ReadCost(l, n);
    case MoveRead(n) => MoveReadCost(l, n);
    case MoveWrite(n) => MoveWriteCost(l, n);
  }

  lemma MoveWriteCost(l: Layout, n: nat)
    requires Roomy(l)
    ensures StepPaid(l, MoveWrite(n))
  {
  }

  lemma {:induction false} RunCost(size: nat, ops: seq<Op>)
    requires size != 1
    ensures var t := Run(Layout(0, 0, size), ops);
            Roomy(t.layout) && t.moved + Credit(t.layout) <= 2 * t.added + 2 * t.taken
  {
    if ops != [] {
      RunCost(size, ops[..|ops| - 1]);
      StepCost(Run(Layout(0, 0, size), ops[..|ops| - 1]).layout, ops[|ops| - 1]);
    }
  }

  ghost predicate CostBounded(size: nat, ops: seq<Op>) {
    var t := Run(Layout(0, 0, size), ops);
    t.moved <= 2 * t.added + 2 * t.taken
  }

  /** One byte written and then a number of moves by nothing. */
  function Nudges(k: nat): seq<Op> {
    if k == 0 then [Write([0])] else Nudges(k - 1) + [MoveRead(0)]
  }

  lemma {:induction false} NudgeCost(k: nat)
    ensures Run(Layout(0, 0, 1), Nudges(k)) == Totals(Layout(0, 1, 1), 1, 0, k)
  {
    var ops := Nudges(k);
    if k == 0 {
      assert ops[..|ops| - 1] == [];
    } else {
      assert ops[..|ops| - 1] == Nudges(k - 1);
      NudgeCost(k - 1);
    }
  }

  /**
   The amortised bound: in every run from an empty buffer the bytes moved by shifts and resizes are at
   most twice the bytes written plus twice the bytes consumed. It holds for every initial size but 1:
   a buffer of size 1 shifts its one byte again at every `moveReadIndex(0)`.
   */
  lemma AmortisedCost(size: nat)
    ensures (forall ops :: CostBounded(size, ops)) <==> size != 1
  {
    if size == 1 {
      NudgeCost(3);
      assert !CostBounded(size, Nudges(3));
    } else {
      forall ops
        ensures CostBounded(size, ops)
      {
        RunCost(size, ops);
      }
    }
  }

  /** Nothing is consumed twice and nothing is lost: what was added is what was taken and what is left. */
  lemma {:induction false} BytesConserved(size: nat, ops: seq<Op>)
    ensures var t := Run(Layout(0, 0, size), ops);
            t.added == t.taken + t.layout.ReadAvailable()
  {
    if ops != [] {
      BytesConserved(size, ops[..|ops| - 1]);
    }
  }

  /** What the operation does to the plain byte sequence that the buffer stands for. */
  function Effect(c: seq<byte>, op: Op): seq<byte>
    requires !op.MoveWrite?
  {
    match op
    case Write(data) => c + data
    case Read(n) => Drop(c, n)
    case MoveRead(n) => Drop(c, n)
  }

  function Drop(c: seq<byte>, n: int): seq<byte> {
    if n <= 0 then c else if n < |c| then c[n..] else []
  }

  function Take(c: seq<byte>, n: int): seq<byte> {
    if n <= 0 then [] else if n < |c| then c[..n] else c
  }

  class TcpBuffer {
    var readIndex: int
    var writeIndex: int
    var size: int
    var buffer: array<byte>
    /** Bytes moved so far by shifts and resizes. */
    ghost var moved: nat

    ghost predicate Valid()
      reads this
    {
      0 <= readIndex <= writeIndex <= size == buffer.Length
    }

    ghost function Where(): Layout
      reads this
      requires Valid()
    {
      Layout(readIndex, writeIndex, size)
    }

    ghost function Contents(): seq<byte>
      reads this, buffer
      requires Valid()
    {
      buffer[readIndex..writeIndex]
    }

    constructor (n: nat)
      ensures Valid() && fresh(buffer)
      ensures Contents() == [] && Where() == Layout(0, 0, n) && moved == 0
    {
      readIndex, writeIndex, size := 0, 0, n;
      buffer := new byte[n](_ => 0);
      moved := 0;
    }

    function ReadAvailable(): int
      reads this
    {
      writeIndex - readIndex
    }

    function WriteAvailable(): int
      reads this
    {
      size - writeIndex
    }

    /** Copies all unread bytes into a new array of the given size. */
    method ResizeBuffer(n: int)
      requires Valid()
      modifies this
      ensures Valid() && (buffer == old(buffer) || fresh(buffer))
      ensures Contents() == old(Contents())
      ensures Where() == old(Where()).Resized(n) && moved == old(moved) + old(Where()).ResizeCost(n)
      ensures n >= |old(Contents())| ==> size == n && readIndex == 0
      ensures n < |old(Contents())| ==> size == old(size) && readIndex == old(readIndex) && writeIndex == old(writeIndex)
    {
      var readLen := ReadAvailable();
      if n < readLen {
        return;
      }
      var newBuffer := new byte[n](_ => 0);
      forall i | 0 <= i < readLen {
        newBuffer[i] := buffer[readIndex + i];
      }
      moved := moved + readLen;
      buffer := newBuffer;
      writeIndex := readLen;
      readIndex := 0;
      size := n;
    }

    method ShiftBuffer()
      requires Valid()
      modifies this, buffer
      ensures Valid() && buffer == old(buffer)
      ensures Contents() == old(Contents())
      ensures Where() == old(Where()).Shifted() && moved == old(moved) + old(Where()).ShiftCost()
      ensures size == old(size) && readIndex == if old(readIndex) >= size / 2 then 0 else old(readIndex)
    {
      if readIndex >= size / 2 {
        var readLen := ReadAvailable();
        forall i | 0 <= i < readLen {
          buffer[i] := buffer[readIndex + i];
        }
        moved := moved + readLen;
        writeIndex := readLen;
        readIndex := 0;
      }
    }

    /** Appends all of `data`, growing the buffer when the space behind the write index is too small. */
    method WriteToBuffer(data: seq<byte>) returns (len: int)
      requires Valid()
      modifies this, buffer
      ensures Valid() && (buffer == old(buffer) || fresh(buffer))
      ensures Contents() == Effect(old(Contents()), Write(data)) && len == |data|
      ensures Where() == After(old(Where()), Write(data)) && moved == old(moved) + Moved(old(Where()), Write(data))
      ensures |data| <= old(size - writeIndex) ==> size == old(size) && readIndex == old(readIndex)
      ensures |data| > old(size - writeIndex) ==> size == 2 * |Contents()| && readIndex == 0
    {
      len := |data|;
      if len > WriteAvailable() {
        ResizeBuffer(2 * (ReadAvailable() + len));
      }
      CopyIn(data);
      writeIndex := writeIndex + len;
    }

    /** Places `data` behind the write index, which stays where it is. */
    method CopyIn(data: seq<byte>)
      requires Valid() && |data| <= WriteAvailable()
      modifies buffer
      ensures buffer[readIndex..writeIndex + |data|] == old(Contents()) + data
      ensures Contents() == old(Contents()) && buffer[writeIndex..writeIndex + |data|] == data
    {
      forall i | 0 <= i < |data| {
        buffer[writeIndex + i] := data[i];
      }
    }

    /** Takes at most `len` bytes from the front. */
    method ReadFromBuffer(len: int) returns (data: seq<byte>, readLen: int)
      requires Valid()
      modifies this, buffer
      ensures Valid() && buffer == old(buffer)
      ensures data == Take(old(Contents()), len) && readLen == |data|
      ensures Contents() == Effect(old(Contents()), Read(len)) && writeIndex <= old(writeIndex)
      ensures Where() == After(old(Where()), Read(len)) && moved == old(moved) + Moved(old(Where()), Read(len))
      ensures size == old(size) && (data != [] ==> readIndex == 0 || readIndex < size / 2)
      ensures old(readIndex) + |data| < size / 2 ==> readIndex == old(readIndex) + |data|
    {
      if ReadAvailable() <= 0 || len <= 0 {
        return [], 0;
      }
      readLen := if len < ReadAvailable() then len else ReadAvailable();
      data := buffer[readIndex..readIndex + readLen];
      assert data == Take(Contents(), len);
      readIndex := readIndex + readLen;
      assert Contents() == Drop(old(Contents()), len);
      ShiftBuffer();
    }

    /** Drops `n` bytes from the front, and everything when there are not more than `n`. */
    method MoveReadIndex(n: nat)
      requires Valid()
      modifies this, buffer
      ensures Valid() && buffer == old(buffer)
      ensures Contents() == Effect(old(Contents()), MoveRead(n)) && writeIndex <= old(writeIndex)
      ensures Where() == After(old(Where()), MoveRead(n)) && moved == old(moved) + Moved(old(Where()), MoveRead(n))
      ensures size == old(size) && (readIndex == 0 || readIndex < size / 2)
      ensures n >= |old(Contents())| ==> readIndex == 0 && writeIndex == 0
      ensures n < |old(Contents())| && old(readIndex) + n < size / 2 ==> readIndex == old(readIndex) + n
    {
      var newReadIndex := readIndex + n;
      if newReadIndex >= writeIndex {
        readIndex := 0;
        writeIndex := 0;
        return;
      }
      readIndex := newReadIndex;
      assert Contents() == Drop(old(Contents()), n);
      ShiftBuffer();
    }

    /**
     Admits `n` bytes that the kernel has placed behind the write index, except when they fill the buffer
     to the last byte: then the index stays where it is.
     */
    method MoveWriteIndex(n: nat)
      requires Valid()
      modifies this`writeIndex
      ensures Valid()
      ensures Where() == After(old(Where()), MoveWrite(n))
      ensures n < old(WriteAvailable()) ==>
                Contents() == old(Contents()) + old(buffer[writeIndex..writeIndex + n])
      ensures n >= old(WriteAvailable()) ==> writeIndex == old(writeIndex) && Contents() == old(Contents())
    {
      var newWriteIndex := writeIndex + n;
      if newWriteIndex >= size {
        return;
      }
      writeIndex := newWriteIndex;
    }
  }

  /** Drives a new buffer through any sequence of operations. */
  method Replay(n: nat, ops: seq<Op>) returns (b: TcpBuffer)
    requires forall i :: 0 <= i < |ops| ==> !ops[i].MoveWrite?
    ensures fresh(b) && fresh(b.buffer) && b.Valid()
    ensures b.Where() == Run(Layout(0, 0, n), ops).layout && b.moved == Run(Layout(0, 0, n), ops).moved
    ensures b.Contents() == Effects(ops)
  {
    b := new TcpBuffer(n);
    var i := 0;
    while i < |ops|
      invariant 0 <= i <= |ops|
      invariant fresh(b) && fresh(b.buffer) && b.Valid()
      invariant b.Where() == Run(Layout(0, 0, n), ops[..i]).layout && b.moved == Run(Layout(0, 0, n), ops[..i]).moved
      invariant b.Contents() == Effects(ops[..i])
    {
      assert ops[..i + 1][..i] == ops[..i];
      match ops[i] {
        case Write(data) =>
          var _ := b.WriteToBuffer(data);
        case Read(k) =>
          var _, _ := b.ReadFromBuffer(k);
        case MoveRead(k) =>
          b.MoveReadIndex(k);
      }
      i := i + 1;
    }
    assert ops[..i] == ops;
  }

  /** The same operations on a plain byte sequence. */
  function Effects(ops: seq<Op>): seq<byte>
    requires forall i :: 0 <= i < |ops| ==> !ops[i].MoveWrite?
  {
    if ops == [] then [] else Effect(Effects(ops[..|ops| - 1]), ops[|ops| - 1])
  }
}
