/** The message objects and the coder that writes them to and reads them from a buffer. */
module Coding {
  import opened Bytes
  import opened Checksum
  import opened Frames
  import opened Buffering
  import Streams

  /** "123456", the id given to a message that has none. */
  const DEFAULT_ID: seq<byte> := [49, 50, 51, 52, 53, 54]

  function WithId(m: Message): Message {
    if m.msgId == [] then m.(msgId := DEFAULT_ID) else m
  }

  predicate AllFit(ms: seq<Message>) {
    forall i :: 0 <= i < |ms| ==> Fits(WithId(ms[i]))
  }

  /** The bytes sent for a message. */
  function Wire(m: Message): seq<byte> {
    if Fits(WithId(m)) then Frame(WithId(m)) else []
  }

  /** The bytes sent for a list of messages. */
  function Encoding(ms: seq<Message>): seq<byte> {
    if ms == [] then [] else Encoding(ms[..|ms| - 1]) + Wire(ms[|ms| - 1])
  }

  lemma WireOnce(m: Message)
    ensures WithId(WithId(m)) == WithId(m) && Wire(WithId(m)) == Wire(m)
  {
    hide Frame, Fits;
  }

  lemma EncodingNone()
    ensures Encoding([]) == []
  {
  }

  lemma EncodingPrefix(ms: seq<Message>, i: nat)
    requires i < |ms|
    ensures Encoding(ms[..i + 1]) == Encoding(ms[..i]) + Wire(ms[i])
  {
    hide Wire, Encoding;
    EncodingSnoc(ms[..i], ms[i]);
    assert ms[..i + 1] == ms[..i] + [ms[i]];
  }

  lemma EncodingSnoc(ms: seq<Message>, m: Message)
    ensures Encoding(ms + [m]) == Encoding(ms) + Wire(m)
  {
    hide Wire;
    assert (ms + [m])[..|ms + [m]| - 1] == ms;
  }

  lemma {:induction false} EncodingAppend(a: seq<Message>, b: seq<Message>)
    ensures Encoding(a + b) == Encoding(a) + Encoding(b)
  {
    hide Wire, Encoding;
    if b == [] {
      EncodingNone();
      assert a + b == a;
    } else {
      var b', last := b[..|b| - 1], b[|b| - 1];
      EncodingAppend(a, b');
      EncodingSnoc(a + b', last);
      EncodingSnoc(b', last);
      assert b == b' + [last];
      assert a + b == a + b' + [last];
    }
  }

  class TinyPBProtocol {
    var pkLen: int
    var msgIdLen: int
    var msgId: seq<byte>
    var methodNameLen: int
    var methodName: seq<byte>
    var errCode: int
    var errInfoLen: int
    var errInfo: seq<byte>
    var pbData: seq<byte>
    var checksum: word

    constructor ()
      ensures Value() == Message([], [], 0, [], []) && checksum == 0
      ensures pkLen == msgIdLen == methodNameLen == errInfoLen == 0
    {
      pkLen, msgIdLen, methodNameLen, errCode, errInfoLen := 0, 0, 0, 0, 0;
      msgId, methodName, errInfo, pbData := [], [], [], [];
      checksum := 0;
    }

    function Value(): Message
      reads this
    {
      Message(msgId, methodName, errCode, errInfo, pbData)
    }

    /** The length fields agree with the payload. */
    predicate Stamped()
      reads this
    {
      && pkLen == FrameLen(Value())
      && msgIdLen == |msgId| && methodNameLen == |methodName| && errInfoLen == |errInfo|
    }

    method SetMsgId(s: seq<byte>)
      modifies this
      ensures Value() == old(Value()).(msgId := s) && msgIdLen == |s|
      ensures methodNameLen == old(methodNameLen) && errInfoLen == old(errInfoLen)
    {
      msgId, msgIdLen := s, |s|;
    }

    method SetMethodName(s: seq<byte>)
      modifies this
      ensures Value() == old(Value()).(methodName := s) && methodNameLen == |s|
      ensures msgIdLen == old(msgIdLen) && errInfoLen == old(errInfoLen)
    {
      methodName, methodNameLen := s, |s|;
    }

    method SetErrCodeAndInfo(err: int, info: seq<byte>)
      modifies this
      ensures Value() == old(Value()).(errCode := err, errInfo := info) && errInfoLen == |info|
      ensures msgIdLen == old(msgIdLen) && methodNameLen == old(methodNameLen)
    {
      errCode, errInfo, errInfoLen := err, info, |info|;
    }

    method SetPbData(s: seq<byte>)
      modifies this
      ensures Value() == old(Value()).(pbData := s)
      ensures msgIdLen == old(msgIdLen) && methodNameLen == old(methodNameLen) && errInfoLen == old(errInfoLen)
    {
      pbData := s;
    }

    method Complete()
      modifies this`pkLen
      ensures pkLen == FrameLen(Value())
    {
      pkLen := 2 * 1 + 6 * 4 + |msgId| + |methodName| + |errInfo| + |pbData|;
    }
  }

  /** Fills a message through its setters, in the way the dispatcher fills a response. */
  method Fill(msg: TinyPBProtocol, v: Message)
    modifies msg
    ensures msg.Value() == v && msg.Stamped()
  {
    msg.SetMsgId(v.msgId);
    msg.SetMethodName(v.methodName);
    msg.SetErrCodeAndInfo(v.errCode, v.errInfo);
    msg.SetPbData(v.pbData);
    msg.Complete();
  }

  // ---- Encoding ----

  /** The frame of a message; an empty id is replaced first, and the derived fields are brought up to date. */
  method EncodeMessage(msg: TinyPBProtocol) returns (data: array<byte>)
    requires Fits(WithId(msg.Value()))
    modifies msg
    ensures fresh(data) && data[..] == Frame(WithId(old(msg.Value()))) == Wire(old(msg.Value()))
    ensures data.Length >= 26 && data[0] == 2 && data[data.Length - 1] == 3
    ensures ((data[1] as int * 256 + data[2] as int) * 256 + data[3] as int) * 256 + data[4] as int == data.Length
    ensures LaidOut(data[..], msg.Value())
    ensures old(msg.msgId) == [] ==> |data[..]| >= 15 && data[9..15] == [49, 50, 51, 52, 53, 54]
    ensures msg.Value() == WithId(old(msg.Value())) && msg.Stamped()
    ensures Store(msg.checksum) == SumField(data[..])
  {
    hide HostToNet, Store, Lanes, Unsummed, LaidOut, WithField, SumField;
    if msg.msgId == [] {
      msg.msgId := DEFAULT_ID;
    }
    ghost var m := msg.Value();
    var pkLen := 2 * 1 + 6 * 4 + |msg.msgId| + |msg.methodName| + |msg.errInfo| + |msg.pbData|;
    msg.pkLen := pkLen;
    msg.msgIdLen := |msg.msgId|;
    msg.methodNameLen := |msg.methodName|;
    msg.errInfoLen := |msg.errInfo|;
    var ret := Layout(msg);
    data, msg.checksum := Seal(ret);
    LengthWord(data[..], m);
  }

  lemma LengthWord(f: seq<byte>, m: Message)
    requires Fits(m) && f == Frame(m)
    ensures LaidOut(f, m) && |f| >= 26 && f[0] == 2 && f[|f| - 1] == 3
    ensures ((f[1] as int * 256 + f[2] as int) * 256 + f[3] as int) * 256 + f[4] as int == |f|
    ensures |f| >= 9 + |m.msgId| && f[9..9 + |m.msgId|] == m.msgId
  {
    hide Lanes, Frame;
    FrameIsLaidOut(f, m);
  }

  /** The frame with a zero checksum, appended field by field. */
  method Layout(msg: TinyPBProtocol) returns (ret: seq<byte>)
    requires Fits(msg.Value()) && msg.Stamped()
    ensures ret == Unsummed(msg.Value())
  {
    hide HostToNet;
    ret := [PB_START];
    ret := ret + HostToNet(msg.pkLen);
    ret := ret + (HostToNet(msg.msgIdLen) + msg.msgId);
    ret := ret + (HostToNet(msg.methodNameLen) + msg.methodName);
    ret := ret + HostToNet(msg.errCode);
    ret := ret + (HostToNet(msg.errInfoLen) + msg.errInfo);
    ret := ret + msg.pbData;
    ret := ret + NO_SUM;
    ret := ret + [PB_END];
    UnsummedFlat(msg.Value());
  }

  lemma UnsummedFlat(m: Message)
    requires Fits(m)
    ensures [PB_START] + HostToNet(FrameLen(m)) + (HostToNet(|m.msgId|) + m.msgId)
            + (HostToNet(|m.methodName|) + m.methodName) + HostToNet(m.errCode)
            + (HostToNet(|m.errInfo|) + m.errInfo) + m.pbData + NO_SUM + [PB_END] == Unsummed(m)
  {
    hide HostToNet;
    var a, b, c, d := Prefixed(m.msgId), Prefixed(m.methodName), HostToNet(m.errCode), Prefixed(m.errInfo);
    var s := [PB_START] + HostToNet(FrameLen(m));
    assert s + a + b + c + d == s + Header(m);
  }

  /** Puts the checksum of a frame into the frame. */
  method Seal(ret: seq<byte>) returns (data: array<byte>, checksum: word)
    requires |ret| >= 5
    ensures fresh(data) && data[..] == WithField(ret, Lanes(ret))
    ensures Store(checksum) == Lanes(ret) == SumField(data[..])
  {
    hide Store, LaneXor;
    data := new byte[|ret|](i requires 0 <= i < |ret| => ret[i]);
    assert data[..] == ret;
    checksum := ChecksumXor(data);
    PutWord(data, data.Length - 1 - 4, checksum, ret);
    assert data[..] == WithField(ret, Store(checksum));
  }

  method EncodeOne(msg: TinyPBProtocol, outBuffer: TcpBuffer)
    requires outBuffer.Valid() && Fits(WithId(msg.Value()))
    modifies msg, outBuffer, outBuffer.buffer
    ensures outBuffer.Valid() && (outBuffer.buffer == old(outBuffer.buffer) || fresh(outBuffer.buffer))
    ensures outBuffer.Contents() == old(outBuffer.Contents()) + Wire(old(msg.Value()))
    ensures msg.Value() == WithId(old(msg.Value())) && msg.Stamped()
  {
    hide Frame, Wire, Fits, After, Moved;
    var data := EncodeMessage(msg);
    var _ := outBuffer.WriteToBuffer(data[..]);
  }

  /** Appends the frames of all messages, in order. */
  method Encode(messages: seq<TinyPBProtocol>, outBuffer: TcpBuffer)
    requires outBuffer.Valid() && AllFit(Values(messages))
    modifies messages, outBuffer, outBuffer.buffer
    ensures outBuffer.Valid() && (outBuffer.buffer == old(outBuffer.buffer) || fresh(outBuffer.buffer))
    ensures outBuffer.Contents() == old(outBuffer.Contents()) + Encoding(old(Values(messages)))
    ensures forall k :: 0 <= k < |messages| ==>
              messages[k].Value() == WithId(old(messages[k].Value())) && messages[k].Stamped()
  {
    hide Wire, Fits, WithId, Encoding;
    ghost var vs := Values(messages);
    EncodingNone();
    assert vs[..0] == [];
    ghost var before := outBuffer.Contents();
    var i := 0;
    while i < |messages|
      invariant 0 <= i <= |messages|
      invariant outBuffer.Valid() && (outBuffer.buffer == old(outBuffer.buffer) || fresh(outBuffer.buffer))
      invariant outBuffer.Contents() == before + Encoding(vs[..i])
      invariant forall k :: 0 <= k < |messages| ==> messages[k].Value() == vs[k] || messages[k].Value() == WithId(vs[k])
      invariant forall k :: 0 <= k < i ==> messages[k].Value() == WithId(vs[k]) && messages[k].Stamped()
    {
      WireOnce(vs[i]);
      EncodeOne(messages[i], outBuffer);
      EncodingPrefix(vs, i);
      i := i + 1;
    }
    assert vs[..i] == vs;
  }

  function Values(messages: seq<TinyPBProtocol>): (vs: seq<Message>)
    reads messages
    ensures |vs| == |messages|
    ensures forall i :: 0 <= i < |messages| ==> vs[i] == messages[i].Value()
  {
    seq(|messages|, i requires 0 <= i < |messages| reads messages => messages[i].Value())
  }

  // ---- Decoding ----

  /** Where the bytes lie once the noise has been dropped byte by byte. */
  function NoiseLayout(l: Buffering.Layout, s: seq<byte>): (r: Buffering.Layout)
    requires l.Valid()
    ensures r.Valid() && r.size == l.size && r.write <= l.write
    decreases |s|
  {
    if s == [] || s[0] == PB_START then l else NoiseLayout(After(l, MoveRead(1)), s[1..])
  }

  lemma NoiseLayoutSteps(l: Buffering.Layout, s: seq<byte>)
    requires l.Valid()
    ensures s != [] && s[0] != PB_START ==> NoiseLayout(l, s) == NoiseLayout(After(l, MoveRead(1)), s[1..])
    ensures s == [] || s[0] == PB_START ==> NoiseLayout(l, s) == l
  {
    hide After;
  }

  /** Where they lie once a complete frame has been dropped, or taken out to be parsed. */
  function TakeLayout(l: Buffering.Layout, f: seq<byte>): (r: Buffering.Layout)
    requires l.Valid() && f != []
    ensures r.Valid() && r.size == l.size && r.write <= l.write
  {
    if f[|f| - 1] != PB_END then After(l, MoveRead(|f|)) else After(l, Read(|f|))
  }

  /** Where they lie after `decode`. */
  function DecodeLayout(l: Buffering.Layout, s: seq<byte>): (r: Buffering.Layout)
    requires l.Valid() && Streams.InDomain(s)
    ensures r.Valid() && r.size == l.size && r.write <= l.write
    decreases |s|
  {
    match Streams.TurnOf(s)
    case Return(_) => NoiseLayout(l, s)
    case Continue(rest, _) =>
      TurnTakesFrame(s);
      var t := Streams.SkipNoise(s);
      DecodeLayout(TakeLayout(NoiseLayout(l, s), t[..Streams.Announced(t)]), rest)
  }

  lemma TurnTakesFrame(s: seq<byte>)
    requires Streams.InDomain(s) && Streams.TurnOf(s).Continue?
    ensures var t := Streams.SkipNoise(s); 5 <= |t| && 0 < Streams.Announced(t) <= |t|
  {
    hide Streams.TurnOf, Streams.SkipNoise, NetToHost;
    Streams.TurnShape(s);
    Streams.ProgressExactlyWhen(s);
  }

  /** Where the bytes lie after one turn, which is `again` if it took a frame out. */
  ghost function TurnLayout(again: bool, l: Buffering.Layout, s: seq<byte>): (r: Buffering.Layout)
    requires l.Valid()
    ensures r.Valid() && r.size == l.size && r.write <= l.write
  {
    var t := Streams.SkipNoise(s);
    if again && 5 <= |t| && 0 < Streams.Announced(t) <= |t|
    then TakeLayout(NoiseLayout(l, s), t[..Streams.Announced(t)])
    else NoiseLayout(l, s)
  }

  /** A turn that returns is the last. */
  lemma LastTurn(l: Buffering.Layout, s: seq<byte>, rest: seq<byte>)
    requires l.Valid() && Streams.TurnOf(s) == Streams.Return(rest)
    ensures Streams.InDomain(s) && Streams.Decode(s) == Streams.Decoded([], rest)
    ensures DecodeLayout(l, s) == TurnLayout(false, l, s)
  {
    hide Streams.TurnOf;
    Streams.DecodeReturned(s);
  }

  /** After a turn that goes on the rest is decoded from where the bytes then lie. */
  lemma NextTurn(l: Buffering.Layout, s: seq<byte>, rest: seq<byte>, out: seq<Message>)
    requires l.Valid() && Streams.InDomain(s) && Streams.TurnOf(s) == Streams.Continue(rest, out)
    ensures |rest| < |s| && Streams.InDomain(rest)
    ensures Streams.Decode(s) == Streams.Decoded(out + Streams.Decode(rest).messages, Streams.Decode(rest).rest)
    ensures DecodeLayout(l, s) == DecodeLayout(TurnLayout(true, l, s), rest)
  {
    hide Streams.TurnOf, Streams.SkipNoise, NetToHost;
    TurnTakesFrame(s);
    Streams.DecodeContinue(s, rest, out);
  }

  method CheckIndexValid(index: int, len: int, end: int) returns (ok: bool)
    ensures ok <==> IndexValid(index, len, end)
  {
    ok := index + len < end;
  }

  /** A length word and the bytes it announces, from `readIndex` on. */
  method ReadSized(tmp: array<byte>, ghost f: seq<byte>, readIndex: nat)
    returns (ok: bool, len: int, data: seq<byte>, next: nat)
    requires f == tmp[..] && !ReadField(f, readIndex).UndefinedField?
    ensures ok ==> ReadField(f, readIndex) == Field(data, next) && len == |data|
    ensures !ok ==> ReadField(f, readIndex).BadField?
  {
    hide NetToHost;
    len, data, next := 0, [], readIndex;
    ok := CheckIndexValid(next, 4, tmp.Length);
    if !ok {
      return;
    }
    assert f[next..next + 4] == tmp[next..next + 4];
    len := NetToHost(tmp[next..next + 4]);
    next := next + 4;
    ok := CheckIndexValid(next, len, tmp.Length);
    if !ok {
      return;
    }
    data := tmp[next..next + len];
    assert data == f[next..next + len];
    next := next + len;
  }

  /** What parsing the fields before the payload data has to find, and where they end. */
  ghost predicate FieldsRead(f: seq<byte>, m: Message, at: nat) {
    var id := ReadField(f, 5);
    && id.Field? && m.msgId == id.data
    && var name := ReadField(f, id.next);
    && name.Field? && m.methodName == name.data
    && name.next + 4 < |f| && m.errCode == NetToHost(f[name.next..name.next + 4])
    && var info := ReadField(f, name.next + 4);
    && info.Field? && m.errInfo == info.data && info.next == at
  }

  /** The fields before the payload data. */
  method ParseFields(tmp: array<byte>, ghost f: seq<byte>, m: TinyPBProtocol) returns (ok: bool, readIndex: nat)
    requires f == tmp[..] && !ParseFrame(f).Undefined?
    modifies m
    ensures ok ==>
              && FieldsRead(f, m.Value(), readIndex) && readIndex < |f| && m.pbData == old(m.pbData)
              && m.msgIdLen == |m.msgId| && m.methodNameLen == |m.methodName| && m.errInfoLen == |m.errInfo|
    ensures m.pkLen == old(m.pkLen) && m.checksum == old(m.checksum)
    ensures !ok ==> ParseFrame(f) == Malformed
  {
    hide NetToHost, ChecksumHolds, ReadField;
    readIndex := 5;
    ok, m.msgIdLen, m.msgId, readIndex := ReadSized(tmp, f, readIndex);
    if !ok {
      return;
    }
    ok, m.methodNameLen, m.methodName, readIndex := ReadSized(tmp, f, readIndex);
    if !ok {
      return;
    }
    ok := CheckIndexValid(readIndex, 4, tmp.Length);
    if !ok {
      return;
    }
    assert tmp[readIndex..readIndex + 4] == f[readIndex..readIndex + 4];
    m.errCode := NetToHost(tmp[readIndex..readIndex + 4]);
    readIndex := readIndex + 4;
    ok, m.errInfoLen, m.errInfo, readIndex := ReadSized(tmp, f, readIndex);
  }

  /** Parses one complete package, or gives it up. */
  method ParsePackage(tmp: array<byte>, pkLen: int) returns (message: TinyPBProtocol?)
    requires tmp.Length == pkLen && !ParseFrame(tmp[..]).Undefined?
    modifies tmp
    ensures message == null <==> !ParseFrame(old(tmp[..])).Parsed?
    ensures message != null ==>
              && fresh(message) && message.Value() == ParseFrame(old(tmp[..])).message
              && message.msgIdLen == |message.msgId| && message.methodNameLen == |message.methodName|
              && message.errInfoLen == |message.errInfo| && message.pkLen == pkLen && message.checksum == 0
  {
    hide NetToHost, ChecksumHolds, ReadField;
    ghost var f := tmp[..];
    var m := new TinyPBProtocol();
    m.pkLen := pkLen;
    assert f == tmp[..];
    var ok, readIndex := ParseFields(tmp, f, m);
    if !ok {
      return null;
    }
    if pkLen < readIndex + 1 + 4 {
      return null;
    }
    m.pbData := tmp[readIndex..pkLen - 1 - 4];
    assert m.pbData == f[readIndex..|f| - 5];
    ok := ChecksumValidate(tmp);
    if !ok {
      return null;
    }
    message := m;
  }

  /** Moves the read index to the first start marker. */
  method MoveToStart(inBuffer: TcpBuffer)
    requires inBuffer.Valid()
    modifies inBuffer, inBuffer.buffer
    ensures inBuffer.Valid() && inBuffer.buffer == old(inBuffer.buffer)
    ensures inBuffer.Where() == NoiseLayout(old(inBuffer.Where()), old(inBuffer.Contents()))
    ensures inBuffer.Contents() == Streams.SkipNoise(old(inBuffer.Contents()))
  {
    hide Streams.SkipNoise, After, Moved, NoiseLayout;
    while inBuffer.ReadAvailable() > 0 && inBuffer.buffer[inBuffer.readIndex] != PB_START
      invariant inBuffer.Valid() && inBuffer.buffer == old(inBuffer.buffer)
      invariant NoiseLayout(inBuffer.Where(), inBuffer.Contents())
             == NoiseLayout(old(inBuffer.Where()), old(inBuffer.Contents()))
      invariant Streams.SkipNoise(inBuffer.Contents()) == Streams.SkipNoise(old(inBuffer.Contents()))
      decreases |inBuffer.Contents()|
    {
      ghost var s := inBuffer.Contents();
      assert s[0] == inBuffer.buffer[inBuffer.readIndex];
      NoiseLayoutSteps(inBuffer.Where(), s);
      Streams.SkipOne(s);
      inBuffer.MoveReadIndex(1);
      assert inBuffer.Contents() == s[1..];
    }
    NoiseLayoutSteps(inBuffer.Where(), inBuffer.Contents());
    MarkedStart(inBuffer);
  }

  lemma MarkedStart(b: TcpBuffer)
    requires b.Valid() && (b.readIndex < b.writeIndex ==> b.buffer[b.readIndex] == PB_START)
    ensures Streams.SkipNoise(b.Contents()) == b.Contents()
  {
    Streams.MarkedIsNoNoise(b.Contents());
  }

  /** The length word behind the start marker. */
  method PeekLength(inBuffer: TcpBuffer) returns (pkLen: int)
    requires inBuffer.Valid() && |inBuffer.Contents()| >= 5
    ensures pkLen == Streams.Announced(inBuffer.Contents())
  {
    hide NetToHost;
    var at := inBuffer.readIndex + 1;
    var w := [inBuffer.buffer[at], inBuffer.buffer[at + 1], inBuffer.buffer[at + 2], inBuffer.buffer[at + 3]];
    assert inBuffer.Contents()[1..5] == w;
    pkLen := NetToHost(w);
  }

  /** What `decode` promises of the messages it puts out. */
  ghost predicate Delivered(messages: seq<TinyPBProtocol>, ms: seq<Message>)
    reads messages
  {
    && |messages| == |ms|
    && forall i :: 0 <= i < |ms| ==> messages[i].Value() == ms[i] && messages[i].Stamped() && messages[i].checksum == 0
  }

  /** A message object or none, as the list of the messages it adds. */
  function Values1(message: TinyPBProtocol?): seq<Message>
    reads message
  {
    if message == null then [] else [message.Value()]
  }

  /** One turn of the decoding loop: `again` unless there is no complete frame. */
  method DecodeTurn(inBuffer: TcpBuffer) returns (again: bool, message: TinyPBProtocol?)
    requires inBuffer.Valid() && Streams.InDomain(inBuffer.Contents())
    modifies inBuffer, inBuffer.buffer
    ensures inBuffer.Valid() && inBuffer.buffer == old(inBuffer.buffer)
    ensures inBuffer.Where() == TurnLayout(again, old(inBuffer.Where()), old(inBuffer.Contents()))
    ensures Streams.TurnOf(old(inBuffer.Contents()))
         == if again then Streams.Continue(inBuffer.Contents(), Values1(message)) else Streams.Return(inBuffer.Contents())
    ensures !again ==> message == null
    ensures message != null ==> fresh(message) && message.Stamped() && message.checksum == 0
  {
    hide NoiseLayout, TakeLayout, Streams.TurnOf, Streams.SkipNoise, Streams.InDomain, Streams.Announced;
    hide Streams.Yield, Streams.Tame;
    message := null;
    ghost var s := inBuffer.Contents();
    MoveToStart(inBuffer);
    if inBuffer.ReadAvailable() < 1 + 4 {
      Streams.TurnWaits(s);
      return false, null;
    }
    var pkLen := PeekLength(inBuffer);
    if inBuffer.ReadAvailable() < pkLen {
      Streams.TurnWaits(s);
      return false, null;
    }
    Streams.TurnGoes(s);
    message := TakePackage(inBuffer, pkLen);
    again := true;
  }

  /** Takes a complete package out of the buffer and parses it when it ends with the end marker. */
  method TakePackage(inBuffer: TcpBuffer, pkLen: int) returns (message: TinyPBProtocol?)
    requires inBuffer.Valid() && 0 < pkLen <= |inBuffer.Contents()| && Streams.Tame(inBuffer.Contents()[..pkLen])
    modifies inBuffer, inBuffer.buffer
    ensures inBuffer.Valid() && inBuffer.buffer == old(inBuffer.buffer)
    ensures inBuffer.Where() == TakeLayout(old(inBuffer.Where()), old(inBuffer.Contents())[..pkLen])
    ensures inBuffer.Contents() == old(inBuffer.Contents())[pkLen..]
    ensures Values1(message) == Streams.Yield(old(inBuffer.Contents())[..pkLen])
    ensures message != null ==> fresh(message) && message.Stamped() && message.checksum == 0
  {
    hide ParseFrame, After, Moved;
    var end := inBuffer.buffer[inBuffer.readIndex + pkLen - 1];
    assert end == inBuffer.Contents()[pkLen - 1];
    if end != PB_END {
      inBuffer.MoveReadIndex(pkLen);
      return null;
    }
    var tmp, _ := inBuffer.ReadFromBuffer(pkLen);
    assert tmp == old(inBuffer.Contents())[..pkLen];
    message := ParseBytes(tmp);
  }

  method ParseBytes(tmp: seq<byte>) returns (message: TinyPBProtocol?)
    requires !ParseFrame(tmp).Undefined?
    ensures message == null <==> !ParseFrame(tmp).Parsed?
    ensures message != null ==>
              && fresh(message) && message.Value() == ParseFrame(tmp).message
              && message.Stamped() && message.checksum == 0
  {
    hide ParseFrame;
    var package := new byte[|tmp|](i requires 0 <= i < |tmp| => tmp[i]);
    assert package[..] == tmp;
    message := ParsePackage(package, |tmp|);
    if message != null {
      StampedParse(tmp, message.Value());
    }
  }

  lemma StampedParse(f: seq<byte>, m: Message)
    requires ParseFrame(f) == Parsed(m)
    ensures |f| == FrameLen(m)
  {
  }

  /** What is still to be decoded completes what is done. */
  ghost predicate Completes(all: Streams.Decoded, layout: Buffering.Layout, done: seq<Message>, again: bool,
                            l: Buffering.Layout, s: seq<byte>)
    requires l.Valid()
  {
    if again then
      && Streams.InDomain(s) && layout == DecodeLayout(l, s)
      && all == Streams.Decoded(done + Streams.Decode(s).messages, Streams.Decode(s).rest)
    else layout == l && all == Streams.Decoded(done, s)
  }

  lemma NothingDone(l: Buffering.Layout, s: seq<byte>)
    requires l.Valid() && Streams.InDomain(s)
    ensures Completes(Streams.Decode(s), DecodeLayout(l, s), [], true, l, s)
  {
    assert [] + Streams.Decode(s).messages == Streams.Decode(s).messages;
  }

  lemma TurnCompletes(all: Streams.Decoded, layout: Buffering.Layout, done: seq<Message>, again: bool,
                      l: Buffering.Layout, s: seq<byte>, rest: seq<byte>, out: seq<Message>)
    requires l.Valid() && Completes(all, layout, done, true, l, s)
    requires Streams.TurnOf(s) == if again then Streams.Continue(rest, out) else Streams.Return(rest)
    requires !again ==> out == []
    ensures Completes(all, layout, done + out, again, TurnLayout(again, l, s), rest)
    ensures again ==> |rest| < |s|
  {
    hide Streams.TurnOf, Streams.InDomain, Streams.Decode, DecodeLayout, TurnLayout;
    if again {
      NextTurn(l, s, rest, out);
      assert done + (out + Streams.Decode(rest).messages) == done + out + Streams.Decode(rest).messages;
    } else {
      LastTurn(l, s, rest);
      assert done + [] == done;
    }
  }

  /** Takes all complete frames out of the buffer and leaves the rest. */
  method Decode(inBuffer: TcpBuffer) returns (messages: seq<TinyPBProtocol>)
    requires inBuffer.Valid() && Streams.InDomain(inBuffer.Contents())
    modifies inBuffer, inBuffer.buffer
    ensures inBuffer.Valid() && inBuffer.buffer == old(inBuffer.buffer)
    ensures inBuffer.Where() == DecodeLayout(old(inBuffer.Where()), old(inBuffer.Contents()))
    ensures inBuffer.Contents() == Streams.Decode(old(inBuffer.Contents())).rest
    ensures Delivered(messages, Streams.Decode(old(inBuffer.Contents())).messages)
    ensures forall k :: 0 <= k < |messages| ==> fresh(messages[k])
  {
    hide Streams.InDomain, Streams.Decode, Streams.TurnOf, DecodeLayout, TurnLayout, Completes;
    messages := [];
    ghost var all, layout := Streams.Decode(inBuffer.Contents()), DecodeLayout(inBuffer.Where(), inBuffer.Contents());
    ghost var done: seq<Message> := [];
    NothingDone(inBuffer.Where(), inBuffer.Contents());
    var again := true;
    while again
      invariant inBuffer.Valid() && inBuffer.buffer == old(inBuffer.buffer)
      invariant Delivered(messages, done) && forall k :: 0 <= k < |messages| ==> fresh(messages[k])
      invariant Completes(all, layout, done, again, inBuffer.Where(), inBuffer.Contents())
      decreases again, |inBuffer.Contents()|
    {
      ghost var s, l := inBuffer.Contents(), inBuffer.Where();
      var message;
      CompletesInDomain(all, layout, done, l, s);
      again, message := DecodeTurn(inBuffer);
      TurnCompletes(all, layout, done, again, l, s, inBuffer.Contents(), Values1(message));
      if message != null {
        messages := messages + [message];
      }
      done := done + Values1(message);
    }
    AllCompleted(all, layout, done, inBuffer.Where(), inBuffer.Contents());
  }

  lemma CompletesInDomain(all: Streams.Decoded, layout: Buffering.Layout, done: seq<Message>, l: Buffering.Layout,
                          s: seq<byte>)
    requires l.Valid() && Completes(all, layout, done, true, l, s)
    ensures Streams.InDomain(s)
  {
  }

  lemma AllCompleted(all: Streams.Decoded, layout: Buffering.Layout, done: seq<Message>, l: Buffering.Layout,
                     s: seq<byte>)
    requires l.Valid() && Completes(all, layout, done, false, l, s)
    ensures layout == l && all == Streams.Decoded(done, s)
  {
  }
}
