/**
 The TinyPB frame: how a message is laid out in bytes, what parsing a frame gives, and the proof that the
 two are inverse to each other on exactly the well-formed frames.
 */
module Frames {
  import opened Bytes
  import opened Checksum

  const PB_START: byte := 0x02
  const PB_END: byte := 0x03
  const FIXED_LEN: int := 2 * 1 + 6 * 4

  /** The payload of a TinyPB message. Its length fields and checksum are functions of it. */
  datatype Message = Message(msgId: seq<byte>, methodName: seq<byte>, errCode: int, errInfo: seq<byte>,
                             pbData: seq<byte>)

  /** `m_pk_len` as `complete` and `encodeMessage` compute it. */
  function FrameLen(m: Message): nat {
    FIXED_LEN + |m.msgId| + |m.methodName| + |m.errInfo| + |m.pbData|
  }

  /** The message and its length can be represented in the 32-bit fields of a frame. */
  predicate Fits(m: Message) {
    IsInt32(m.errCode) && FrameLen(m) <= INT32_MAX
  }

  function Prefixed(s: seq<byte>): (r: seq<byte>)
    requires |s| <= INT32_MAX
    ensures |r| == 4 + |s|
  {
    HostToNet(|s|) + s
  }

  /** The part of a frame between the length word and the payload data. */
  function Header(m: Message): (s: seq<byte>)
    requires Fits(m)
    ensures |s| == 16 + |m.msgId| + |m.methodName| + |m.errInfo|
  {
    Prefixed(m.msgId) + Prefixed(m.methodName) + HostToNet(m.errCode) + Prefixed(m.errInfo)
  }

  /** The frame with zeros in its checksum field. */
  function Unsummed(m: Message): (f: seq<byte>)
    requires Fits(m)
    ensures |f| == FrameLen(m)
  {
    [PB_START] + HostToNet(FrameLen(m)) + Header(m) + m.pbData + NO_SUM + [PB_END]
  }

  /** The frame of a message. */
  function Frame(m: Message): (f: seq<byte>)
    requires Fits(m)
    ensures |f| == FrameLen(m)
  {
    WithField(Unsummed(m), Lanes(Unsummed(m)))
  }

  // ---- Parsing ----

  /** A length-prefixed field read at a position: its bytes and the position behind it. */
  datatype Field = Field(data: seq<byte>, next: nat) | BadField | UndefinedField

  /** `checkIndexValid` */
  predicate IndexValid(index: int, len: int, end: int) {
    index + len < end
  }

  /**
   Reads a length word and that many bytes. The code rejects a field that reaches the end of the frame. It
   has no defined behaviour for a negative length or one whose end exceeds `int32_t`.
   */
  function ReadField(f: seq<byte>, at: nat): (r: Field)
    ensures r.Field? ==> at + 4 + |r.data| == r.next < |f|
  {
    if !IndexValid(at, 4, |f|) then BadField
    else
      var len := NetToHost(f[at..at + 4]);
      if len < 0 || at + 4 + len > INT32_MAX then UndefinedField
      else if !IndexValid(at + 4, len, |f|) then BadField
      else Field(f[at + 4..at + 4 + len], at + 4 + len)
  }

  datatype Parsed = Parsed(message: Message) | Malformed | Undefined

  /** What `decode` makes of one complete frame whose last byte is the end marker. */
  function ParseFrame(f: seq<byte>): Parsed {
    match ReadField(f, 5)
    case BadField => Malformed
    case UndefinedField => Undefined
    case Field(msgId, at1) =>
      match ReadField(f, at1)
      case BadField => Malformed
      case UndefinedField => Undefined
      case Field(methodName, at2) =>
        if !IndexValid(at2, 4, |f|) then Malformed
        else
          var errCode := NetToHost(f[at2..at2 + 4]);
          match ReadField(f, at2 + 4)
          case BadField => Malformed
          case UndefinedField => Undefined
          case Field(errInfo, at3) =>
            if |f| < at3 + 5 then Malformed
            else if !ChecksumHolds(f) then Malformed
            else Parsed(Message(msgId, methodName, errCode, errInfo, f[at3..|f| - 5]))
  }

  // ---- The frame on the wire ----

  /** The number that four bytes spell, the most significant first. */
  function Spelled(f: seq<byte>, at: nat): nat
    requires at + 4 <= |f|
  {
    f[at] as nat * 16777216 + f[at + 1] as nat * 65536 + f[at + 2] as nat * 256 + f[at + 3] as nat
  }

  /** A length word and the bytes of that length behind it. */
  predicate FieldAt(f: seq<byte>, at: nat, data: seq<byte>) {
    at + 4 + |data| <= |f| && Spelled(f, at) == |data| && f[at + 4..at + 4 + |data|] == data
  }

  /** Where everything of a message stands in a frame, told byte by byte; only the checksum is told by its sum. */
  predicate LaidOut(f: seq<byte>, m: Message) {
    var at1 := 9 + |m.msgId|;
    var at2 := at1 + 4 + |m.methodName|;
    var at3 := at2 + 8 + |m.errInfo|;
    && |f| == 26 + |m.msgId| + |m.methodName| + |m.errInfo| + |m.pbData|
    && f[0] == 2 && f[|f| - 1] == 3 && Spelled(f, 1) == |f|
    && FieldAt(f, 5, m.msgId) && FieldAt(f, at1, m.methodName)
    && Spelled(f, at2) == (if m.errCode < 0 then m.errCode + 4294967296 else m.errCode)
    && FieldAt(f, at2 + 4, m.errInfo)
    && f[at3..|f| - 5] == m.pbData
    && f[|f| - 5..|f| - 1] == Lanes(f[..|f| - 5] + [0, 0, 0, 0, 3])
  }

  lemma SpelledAt(pre: seq<byte>, v: int, post: seq<byte>)
    requires IsInt32(v)
    ensures Spelled(pre + HostToNet(v) + post, |pre|) == if v < 0 then v + 4294967296 else v
  {
    hide HostToNet;
    WrittenBigEndian(v);
    var f := pre + HostToNet(v) + post;
    assert forall i :: 0 <= i < 4 ==> f[|pre| + i] == HostToNet(v)[i];
  }

  lemma PrefixedAt(pre: seq<byte>, data: seq<byte>, post: seq<byte>)
    requires |data| <= INT32_MAX
    ensures FieldAt(pre + Prefixed(data) + post, |pre|, data)
  {
    hide HostToNet, Spelled;
    assert pre + Prefixed(data) + post == pre + HostToNet(|data|) + (data + post);
    SpelledAt(pre, |data|, data + post);
  }

  /** The frame of a message is laid out so, and nothing else is. */
  lemma FrameIsLaidOut(f: seq<byte>, m: Message)
    requires Fits(m)
    ensures f == Frame(m) <==> LaidOut(f, m)
  {
    hide Frame;
    LaidOutInFrame(m);
    if LaidOut(f, m) {
      SameLayout(f, Frame(m), m);
    }
  }

  lemma HeaderLaidOut(m: Message, start: seq<byte>, rest: seq<byte>)
    requires Fits(m) && |start| == 5
    ensures var f := start + Header(m) + rest;
            var at1 := 9 + |m.msgId|;
            var at2 := at1 + 4 + |m.methodName|;
            && FieldAt(f, 5, m.msgId) && FieldAt(f, at1, m.methodName)
            && at2 + 4 <= |f| && Spelled(f, at2) == (if m.errCode < 0 then m.errCode + 4294967296 else m.errCode)
            && FieldAt(f, at2 + 4, m.errInfo)
  {
    hide HostToNet, Spelled, FieldAt;
    var f := start + Header(m) + rest;
    var id, name, code, info := Prefixed(m.msgId), Prefixed(m.methodName), HostToNet(m.errCode), Prefixed(m.errInfo);
    hide Prefixed;
    assert f == start + id + (name + code + info + rest);
    PrefixedAt(start, m.msgId, name + code + info + rest);
    assert f == (start + id) + name + (code + info + rest);
    PrefixedAt(start + id, m.methodName, code + info + rest);
    assert f == (start + id + name) + code + (info + rest);
    SpelledAt(start + id + name, m.errCode, info + rest);
    assert f == (start + id + name + code) + info + rest;
    PrefixedAt(start + id + name + code, m.errInfo, rest);
  }

  lemma LaidOutInFrame(m: Message)
    requires Fits(m)
    ensures LaidOut(Frame(m), m)
  {
    hide Lanes, HostToNet, Header, Spelled, FieldAt;
    var f, sum := Frame(m), Lanes(Unsummed(m));
    var len := HostToNet(FrameLen(m));
    var start, rest := [PB_START] + len, m.pbData + sum + [PB_END];
    assert f == start + Header(m) + rest;
    assert f == [PB_START] + len + (Header(m) + rest);
    SpelledAt([PB_START], FrameLen(m), Header(m) + rest);
    HeaderLaidOut(m, start, rest);
    assert f[|f| - |rest|..|f| - 5] == m.pbData;
    assert f[..|f| - 5] + [0, 0, 0, 0, 3] == Unsummed(m);
  }

  lemma SpelledOnce(f: seq<byte>, g: seq<byte>, at: nat)
    requires at + 4 <= |f| && at + 4 <= |g| && Spelled(f, at) == Spelled(g, at)
    ensures f[at..at + 4] == g[at..at + 4]
  {
    var a, b, c, d := f[at] as nat, f[at + 1] as nat, f[at + 2] as nat, f[at + 3] as nat;
    var e, h, k, l := g[at] as nat, g[at + 1] as nat, g[at + 2] as nat, g[at + 3] as nat;
    assert a == e && b == h && c == k && d == l;
  }

  lemma SameField(f: seq<byte>, g: seq<byte>, at: nat, data: seq<byte>)
    requires FieldAt(f, at, data) && FieldAt(g, at, data)
    ensures f[at..at + 4 + |data|] == g[at..at + 4 + |data|]
  {
    hide Spelled;
    SpelledOnce(f, g, at);
    assert f[at..at + 4 + |data|] == f[at..at + 4] + f[at + 4..at + 4 + |data|];
    assert g[at..at + 4 + |data|] == g[at..at + 4] + g[at + 4..at + 4 + |data|];
  }

  lemma CutUp(f: seq<byte>, at1: nat, at2: nat, at3: nat)
    requires 5 <= at1 <= at2 && at2 + 4 <= at3 <= |f| - 5
    ensures f[..|f| - 5]
         == [f[0]] + f[1..5] + f[5..at1] + f[at1..at2] + f[at2..at2 + 4] + f[at2 + 4..at3] + f[at3..|f| - 5]
  {
  }

  lemma SameLayout(f: seq<byte>, g: seq<byte>, m: Message)
    requires LaidOut(f, m) && LaidOut(g, m)
    ensures f == g
  {
    hide Lanes, Spelled, FieldAt;
    var at1 := 9 + |m.msgId|;
    var at2 := at1 + 4 + |m.methodName|;
    SpelledOnce(f, g, 1);
    SameField(f, g, 5, m.msgId);
    SameField(f, g, at1, m.methodName);
    SpelledOnce(f, g, at2);
    SameField(f, g, at2 + 4, m.errInfo);
    CutUp(f, at1, at2, at2 + 8 + |m.errInfo|);
    CutUp(g, at1, at2, at2 + 8 + |m.errInfo|);
    assert f[..|f| - 5] == g[..|g| - 5];
    hide LaidOut;
    TailCut(f);
    TailCut(g);
  }

  lemma TailCut(f: seq<byte>)
    requires |f| >= 5
    ensures f == f[..|f| - 5] + f[|f| - 5..|f| - 1] + [f[|f| - 1]]
  {
  }

  // ---- The round trip ----

  lemma FieldRoundTrip(pre: seq<byte>, s: seq<byte>, post: seq<byte>)
    requires |post| > 0 && |pre| + 4 + |s| + |post| <= INT32_MAX
    ensures ReadField(pre + Prefixed(s) + post, |pre|) == Field(s, |pre| + 4 + |s|)
  {
    hide HostToNet, NetToHost;
    var f := pre + Prefixed(s) + post;
    NetHostRoundTrip(|s|);
    assert f[|pre|..|pre| + 4] == HostToNet(|s|);
    assert f[|pre| + 4..|pre| + 4 + |s|] == s;
  }

  /** Reading a field and writing it back gives the bytes that were read. */
  lemma FieldCanonical(f: seq<byte>, at: nat)
    requires ReadField(f, at).Field?
    ensures var r := ReadField(f, at);
            |r.data| <= INT32_MAX && f[at..r.next] == Prefixed(r.data)
  {
    var r := ReadField(f, at);
    HostNetRoundTrip(f[at..at + 4]);
    assert f[at..r.next] == f[at..at + 4] + f[at + 4..r.next];
  }

  lemma ChecksumOfFrame(m: Message)
    requires Fits(m)
    ensures ChecksumHolds(Frame(m))
  {
    hide Lanes, Header, HostToNet;
    var u := Unsummed(m);
    var f := Frame(m);
    assert u[|u| - 5..|u| - 1] == NO_SUM;
    assert WithField(f, NO_SUM) == u;
  }

  /** Where two byte sequences of the same length differ, they do so within four consecutive bytes clear of the field. */
  predicate DifferInBurst(f: seq<byte>, g: seq<byte>, start: int)
    requires |f| == |g|
  {
    forall i :: 0 <= i < |f| && f[i] != g[i] ==> start <= i < start + 4 && !InField(f, i)
  }

  predicate DifferInField(f: seq<byte>, g: seq<byte>)
    requires |f| == |g|
  {
    forall i :: 0 <= i < |f| && f[i] != g[i] ==> InField(f, i)
  }

  /** An encoded frame altered by a burst, or in its checksum field alone, parses to no message. */
  lemma AlteredFrameIsRefused(m: Message, g: seq<byte>, start: int)
    requires Fits(m) && |g| == FrameLen(m) && g != Frame(m)
    requires DifferInBurst(Frame(m), g, start) || DifferInField(Frame(m), g)
    ensures !ParseFrame(g).Parsed?
  {
    hide Frame, ChecksumHolds, ReadField;
    ChecksumOfFrame(m);
    if DifferInBurst(Frame(m), g, start) {
      BurstRejected(Frame(m), g, start);
    } else {
      FieldAlterationRejected(Frame(m), g);
    }
  }

  /** The three length-prefixed fields and the error code are read back from between any `start` and `rest`. */
  lemma HeaderRoundTrip(m: Message, start: seq<byte>, rest: seq<byte>)
    requires Fits(m) && |start| == 5 && |rest| > 0 && 5 + |Header(m)| + |rest| <= INT32_MAX
    ensures var f := start + Header(m) + rest;
            var at1 := 9 + |m.msgId|;
            var at2 := at1 + 4 + |m.methodName|;
            var at3 := at2 + 8 + |m.errInfo|;
            && ReadField(f, 5) == Field(m.msgId, at1)
            && ReadField(f, at1) == Field(m.methodName, at2)
            && at2 + 4 <= |f| && NetToHost(f[at2..at2 + 4]) == m.errCode
            && ReadField(f, at2 + 4) == Field(m.errInfo, at3)
            && at3 + |rest| == |f|
  {
    hide HostToNet, NetToHost, ReadField;
    var f := start + Header(m) + rest;
    var id, name, code, info := Prefixed(m.msgId), Prefixed(m.methodName), HostToNet(m.errCode), Prefixed(m.errInfo);
    hide Prefixed;
    NetHostRoundTrip(m.errCode);
    assert f == start + id + (name + code + info + rest);
    FieldRoundTrip(start, m.msgId, name + code + info + rest);
    assert f == (start + id) + name + (code + info + rest);
    FieldRoundTrip(start + id, m.methodName, code + info + rest);
    assert f == (start + id + name) + code + (info + rest);
    assert f[|start + id + name|..|start + id + name| + 4] == code;
    assert f == (start + id + name + code) + info + rest;
    FieldRoundTrip(start + id + name + code, m.errInfo, rest);
  }

  /** A frame of a message parses to that message. */
  lemma ParseOfFrame(m: Message)
    requires Fits(m)
    ensures Frame(m)[0] == PB_START && Frame(m)[|Frame(m)| - 1] == PB_END
    ensures NetToHost(Frame(m)[1..5]) == |Frame(m)|
    ensures ParseFrame(Frame(m)) == Parsed(m)
  {
    hide Lanes, ChecksumHolds, HostToNet, NetToHost, ReadField, Header;
    var sum := Lanes(Unsummed(m));
    var f := Frame(m);
    ChecksumOfFrame(m);
    NetHostRoundTrip(FrameLen(m));
    var start, rest := [PB_START] + HostToNet(FrameLen(m)), m.pbData + sum + [PB_END];
    assert f == start + Header(m) + rest;
    assert f[1..5] == HostToNet(FrameLen(m));
    HeaderRoundTrip(m, start, rest);
    assert f[|f| - |rest|..|f| - 5] == m.pbData;
  }

  /** The header of a frame that parses is the header of the message it parses to, with the payload data behind it. */
  lemma HeaderOfParse(f: seq<byte>) returns (end: nat)
    requires |f| <= INT32_MAX && ParseFrame(f).Parsed?
    ensures var m := ParseFrame(f).message;
            && Fits(m) && |f| == FrameLen(m) && end == 5 + |Header(m)| <= |f| - 5 && ChecksumHolds(f)
            && f[5..end] == Header(m) && f[end..|f| - 5] == m.pbData
  {
    hide ChecksumHolds, HostToNet, NetToHost;
    var m := ParseFrame(f).message;
    var r1 := ReadField(f, 5);
    var r2 := ReadField(f, r1.next);
    var r3 := ReadField(f, r2.next + 4);
    end := r3.next;
    FieldCanonical(f, 5);
    FieldCanonical(f, r1.next);
    FieldCanonical(f, r2.next + 4);
    HostNetRoundTrip(f[r2.next..r2.next + 4]);
    hide ReadField;
    assert f[5..r3.next] == f[5..r1.next] + f[r1.next..r2.next] + f[r2.next..r2.next + 4] + f[r2.next + 4..r3.next];
  }

  /** A frame that parses is the frame of the message it parses to: there is one encoding of each message. */
  lemma FrameOfParse(f: seq<byte>)
    requires Delimited(f) && ParseFrame(f).Parsed?
    ensures Fits(ParseFrame(f).message) && f == Frame(ParseFrame(f).message)
  {
    hide Lanes, HostToNet, NetToHost, ParseFrame, Header;
    var m := ParseFrame(f).message;
    var end := HeaderOfParse(f);
    HostNetRoundTrip(f[1..5]);
    assert WithField(f, NO_SUM) == [f[0]] + f[1..5] + f[5..end] + f[end..|f| - 5] + NO_SUM + [f[|f| - 1]];
    assert WithField(f, NO_SUM) == Unsummed(m);
    assert f == WithField(f, SumField(f));
    assert WithField(Unsummed(m), Lanes(Unsummed(m))) == WithField(f, SumField(f));
  }

  /** Complete frames, as `decode` cuts them out of the stream: marked at both ends and as long as they announce. */
  predicate Delimited(f: seq<byte>) {
    5 <= |f| <= INT32_MAX && f[0] == PB_START && f[|f| - 1] == PB_END && NetToHost(f[1..5]) == |f|
  }

  lemma ParsedIsLong(f: seq<byte>)
    requires ParseFrame(f).Parsed?
    ensures |f| >= FIXED_LEN
  {
  }

  /** Parsing and framing are inverse to each other: `f` parses to `m` exactly when it is the frame of `m`. */
  lemma ParsesExactlyFrames(f: seq<byte>, m: Message)
    ensures Delimited(f) && ParseFrame(f) == Parsed(m) <==> Fits(m) && f == Frame(m)
  {
    hide Frame, ParseFrame;
    if Delimited(f) && ParseFrame(f) == Parsed(m) {
      FrameOfParse(f);
    }
    if Fits(m) && f == Frame(m) {
      ParseOfFrame(m);
    }
  }

  // ---- Frames without defined behaviour ----

  /** A length word with its sign bit set, or one whose field would end behind what an `int32_t` can hold. */
  predicate WildLength(f: seq<byte>, at: nat) {
    at + 4 < |f| && (f[at] >= 128 || at + 4 + Spelled(f, at) > 2147483647)
  }

  /** A field that ends ahead of the last byte. */
  predicate Sits(f: seq<byte>, at: nat) {
    at + 4 < |f| && at + 4 + Spelled(f, at) < |f|
  }

  /** The first of the three length words that the decoder cannot step over is a wild one. */
  predicate HasWildLength(f: seq<byte>) {
    WildLength(f, 5) ||
    (Sits(f, 5) &&
     var at1 := 9 + Spelled(f, 5);
     WildLength(f, at1) ||
     (Sits(f, at1) &&
      var at2 := at1 + 4 + Spelled(f, at1);
      at2 + 4 < |f| && WildLength(f, at2 + 4)))
  }

  /** Parsing is undefined exactly there; any other frame that is not that of a message is dropped. */
  lemma UndefinedExactlyWhen(f: seq<byte>)
    requires |f| <= INT32_MAX
    ensures ParseFrame(f).Undefined? <==> HasWildLength(f)
  {
    hide NetToHost, Spelled, ChecksumHolds;
    WildField(f, 5);
    if Sits(f, 5) && !WildLength(f, 5) {
      var at1 := 9 + Spelled(f, 5);
      WildField(f, at1);
      if Sits(f, at1) && !WildLength(f, at1) {
        WildField(f, at1 + 8 + Spelled(f, at1));
      }
    }
  }

  lemma WildField(f: seq<byte>, at: nat)
    requires |f| <= INT32_MAX
    ensures ReadField(f, at).UndefinedField? <==> WildLength(f, at)
    ensures ReadField(f, at).Field? <==> Sits(f, at) && !WildLength(f, at)
    ensures ReadField(f, at).Field? ==> ReadField(f, at).next == at + 4 + Spelled(f, at)
  {
    if at + 4 < |f| {
      SignAndWeight(f, at);
      hide NetToHost, Spelled;
    }
  }

  lemma SignAndWeight(f: seq<byte>, at: nat)
    requires at + 4 <= |f|
    ensures NetToHost(f[at..at + 4]) < 0 <==> f[at] >= 128
    ensures f[at] < 128 ==> NetToHost(f[at..at + 4]) == Spelled(f, at)
  {
    var w := f[at..at + 4];
    assert w[0] == f[at] && w[1] == f[at + 1] && w[2] == f[at + 2] && w[3] == f[at + 3];
  }
}
