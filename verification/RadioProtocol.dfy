/**
 APUS frames on the wire (src/comms/ares_radio_protocol.h, src/comms/ares_radio_protocol.cpp):
 SYNC(4) VER FLAGS NODE TYPE SEQ LEN PAYLOAD(LEN) CRC(4).
 */
module RadioProtocol {
  import opened Bytes
  import opened Crc32
  import CrcPolynomial
  import opened Wrappers

  const PROTOCOL_VERSION: Byte := 0x02
  const SYNC_0: Byte := 0xAE
  const SYNC_1: Byte := 0x55
  const SYNC_2: Byte := 0xC3
  const SYNC_3: Byte := 0x1A
  const HEADER_LEN := 10
  const CRC_LEN := 4
  const MAX_PAYLOAD_LEN := 200
  const MIN_FRAME_LEN := 14
  const MAX_FRAME_LEN := 214

  const NODE_BROADCAST: Byte := 0x00
  const NODE_ROCKET: Byte := 0x01
  const NODE_GROUND: Byte := 0x02
  const NODE_PAYLOAD: Byte := 0x03

  const FLAG_ACK_REQ: Byte := 0x01
  const FLAG_RETRANSMIT: Byte := 0x02
  const FLAG_FRAGMENT: Byte := 0x08

  const TELEMETRY: Byte := 0x01
  const EVENT: Byte := 0x02
  const COMMAND: Byte := 0x03
  const ACK: Byte := 0x04
  const HEARTBEAT: Byte := 0x05

  const FRAG_HEADER_LEN := 6
  const MAX_FRAG_PAYLOAD := 194

  type Payload = s: seq<Byte> | |s| == MAX_PAYLOAD_LEN witness seq(MAX_PAYLOAD_LEN, _ => 0)

  /** The record of the code: a full payload buffer of which `len` octets are meaningful. */
  datatype Frame = Frame(ver: Byte, flags: Byte, node: Byte, msgType: Byte,
                         seqNo: Byte, len: Byte, payload: Payload)

  function BlankPayload(): Payload {
    seq(MAX_PAYLOAD_LEN, _ => 0)
  }

  /** A zero-initialised frame record. */
  function BlankFrame(): Frame {
    Frame(0, 0, 0, 0, 0, 0, BlankPayload())
  }

  predicate ReservedClear(flags: Byte) {
    flags & 0xF0 == 0
  }

  predicate HasFlag(flags: Byte, flag: Byte) {
    flags & flag != 0
  }

  function WithFlag(flags: Byte, flag: Byte): Byte {
    flags | flag
  }

  predicate KnownNode(node: Byte) {
    node == NODE_BROADCAST || node == NODE_ROCKET || node == NODE_GROUND || node == NODE_PAYLOAD
  }

  predicate KnownType(t: Byte) {
    t == TELEMETRY || t == EVENT || t == COMMAND || t == ACK || t == HEARTBEAT
  }

  /** The sizes of TelemetryPayload, EventHeader, CommandHeader and AckPayload. */
  function MinPayload(t: Byte): nat {
    if t == TELEMETRY then 38 else if t == EVENT then 6 else if t == COMMAND then 2
    else if t == ACK then 4 else 0
  }

  predicate LengthFits(flags: Byte, t: Byte, len: Byte) {
    if HasFlag(flags, FLAG_FRAGMENT) then Value(len) >= FRAG_HEADER_LEN else Value(len) >= MinPayload(t)
  }

  // ----- Wire image -----

  const SYNC: seq<Byte> := [SYNC_0, SYNC_1, SYNC_2, SYNC_3]

  /** The octets under the checksum. */
  function Covered(f: Frame): (s: seq<Byte>)
    requires Value(f.len) <= MAX_PAYLOAD_LEN
    ensures |s| == 6 + Value(f.len)
  {
    [f.ver, f.flags, f.node, f.msgType, f.seqNo, f.len] + f.payload[..Value(f.len)]
  }

  function Wire(f: Frame): (s: seq<Byte>)
    requires Value(f.len) <= MAX_PAYLOAD_LEN
    ensures |s| == MIN_FRAME_LEN + Value(f.len)
  {
    SYNC + Covered(f) + Trailer(Checksum(Covered(f)))
  }

  predicate Encodable(f: Frame) {
    Value(f.len) <= MAX_PAYLOAD_LEN && ReservedClear(f.flags)
  }

  /** What a receiver may accept. */
  predicate WellFormed(f: Frame) {
    && f.ver == PROTOCOL_VERSION
    && ReservedClear(f.flags)
    && KnownNode(f.node)
    && KnownType(f.msgType)
    && Value(f.len) <= MAX_PAYLOAD_LEN
    && LengthFits(f.flags, f.msgType, f.len)
  }

  function Splice(s: seq<Byte>, at: nat, data: seq<Byte>): (r: seq<Byte>)
    requires at + |data| <= |s|
    ensures |r| == |s|
  {
    s[..at] + data + s[at + |data|..]
  }

  /** Copying behind what was already written extends it. */
  lemma SpliceExtends(before: seq<Byte>, done: seq<Byte>, data: seq<Byte>)
    requires |done| + |data| <= |before|
    ensures Splice(done + before[|done|..], |done|, data) == (done + data) + before[|done + data|..]
  {
  }

  /** memcpy */
  method CopyInto(buf: array<Byte>, at: nat, data: seq<Byte>)
    requires at + |data| <= buf.Length
    modifies buf
    ensures buf[..] == Splice(old(buf[..]), at, data)
  {
    forall i | 0 <= i < |data| {
      buf[at + i] := data[i];
    }
  }

  /** The writing half of `encode`. */
  method WriteImage(f: Frame, buf: array<Byte>)
    requires Value(f.len) <= MAX_PAYLOAD_LEN && MIN_FRAME_LEN + Value(f.len) <= buf.Length
    modifies buf
    ensures buf[..] == Wire(f) + old(buf[..])[|Wire(f)|..]
  {
    hide Value, Checksum, Octet, Splice, Trailer;
    var len := Value(f.len);
    var at := HEADER_LEN + len;
    var fields := [f.ver, f.flags, f.node, f.msgType, f.seqNo, f.len];
    ghost var before := buf[..];
    ghost var done := SYNC + fields + f.payload[..len];
    assert done == SYNC + Covered(f);
    CopyInto(buf, 0, SYNC);
    assert buf[..] == SYNC + before[4..] by {
      SpliceExtends(before, [], SYNC);
      assert [] + before[0..] == before && [] + SYNC == SYNC;
    }
    ghost var head := SYNC + fields;
    assert |head| == HEADER_LEN && |done| == at;
    CopyInto(buf, 4, fields);
    SpliceExtends(before, SYNC, fields);
    assert buf[..] == head + before[HEADER_LEN..];
    CopyInto(buf, HEADER_LEN, f.payload[..len]);
    SpliceExtends(before, head, f.payload[..len]);
    assert buf[..] == done + before[at..];
    assert buf[4..at] == buf[..][4..at] == Covered(f);
    var checksum := ComputeCrc32(buf, 4, 6 + len);
    CopyInto(buf, at, Trailer(checksum));
    SpliceExtends(before, done, Trailer(checksum));
  }

  method Encode(f: Frame, buf: array?<Byte>, bufLen: nat) returns (n: nat)
    requires buf != null ==> bufLen <= buf.Length
    modifies buf
    ensures n != 0 <==> buf != null && Encodable(f) && bufLen >= MIN_FRAME_LEN + Value(f.len)
    ensures n != 0 ==> n == |Wire(f)| && buf[..] == Wire(f) + old(buf[n..])
    ensures n == 0 && buf != null ==> buf[..] == old(buf[..])
  {
    hide Value, Wire, ReservedClear;
    if buf == null { return 0; }
    if Value(f.len) > MAX_PAYLOAD_LEN { return 0; }
    if !ReservedClear(f.flags) { return 0; }
    var totalLen := HEADER_LEN + Value(f.len) + CRC_LEN;
    if bufLen < totalLen { return 0; }
    WriteImage(f, buf);
    return totalLen;
  }

  /** The tests of `validateDecodeHeader` before the length and checksum tests. */
  predicate HeaderOk(b: seq<Byte>)
    requires |b| >= MIN_FRAME_LEN
  {
    && b[0] == SYNC_0 && b[1] == SYNC_1 && b[2] == SYNC_2 && b[3] == SYNC_3
    && b[4] == PROTOCOL_VERSION
    && ReservedClear(b[5])
    && KnownNode(b[6])
    && Value(b[9]) <= MAX_PAYLOAD_LEN
    && KnownType(b[7])
    && LengthFits(b[5], b[7], b[9])
  }

  function WireLen(b: seq<Byte>): nat
    requires |b| >= MIN_FRAME_LEN
  {
    HEADER_LEN + Value(b[9]) + CRC_LEN
  }

  predicate Accepts(b: seq<Byte>) {
    && |b| >= MIN_FRAME_LEN
    && HeaderOk(b)
    && |b| >= WireLen(b)
    && b[HEADER_LEN + Value(b[9])..WireLen(b)] == Trailer(Checksum(b[4..HEADER_LEN + Value(b[9])]))
  }

  /** The populated frame; payload octets past the length keep what `into` held. */
  function FrameOf(b: seq<Byte>, into: Frame): Frame
    requires |b| >= MIN_FRAME_LEN && Value(b[9]) <= MAX_PAYLOAD_LEN && |b| >= WireLen(b)
  {
    var len := Value(b[9]);
    Frame(b[4], b[5], b[6], b[7], b[8], b[9], b[HEADER_LEN..HEADER_LEN + len] + into.payload[len..])
  }

  method Decode(buf: array?<Byte>, bufLen: nat, into: Frame) returns (ok: bool, f: Frame)
    requires buf != null ==> bufLen <= buf.Length
    ensures ok <==> buf != null && Accepts(buf[..bufLen])
    ensures f == if ok then FrameOf(buf[..bufLen], into) else into
  {
    hide Value, Checksum, ReservedClear, Octet, KnownNode, KnownType, LengthFits;
    f := into;
    if buf == null { return false, f; }
    if bufLen < MIN_FRAME_LEN { return false, f; }
    if !(buf[0] == SYNC_0 && buf[1] == SYNC_1 && buf[2] == SYNC_2 && buf[3] == SYNC_3) { return false, f; }
    if buf[4] != PROTOCOL_VERSION { return false, f; }
    if !ReservedClear(buf[5]) { return false, f; }
    if !KnownNode(buf[6]) { return false, f; }
    var len := Value(buf[9]);
    if len > MAX_PAYLOAD_LEN { return false, f; }
    if !KnownType(buf[7]) { return false, f; }
    if !LengthFits(buf[5], buf[7], buf[9]) { return false, f; }
    var totalLen := HEADER_LEN + len + CRC_LEN;
    if bufLen < totalLen { return false, f; }
    var computed := ComputeCrc32(buf, 4, 6 + len);
    var at := HEADER_LEN + len;
    assert buf[..bufLen][4..at] == buf[4..4 + (6 + len)];
    assert buf[..bufLen][at..totalLen] == [buf[at], buf[at + 1], buf[at + 2], buf[at + 3]];
    if [buf[at], buf[at + 1], buf[at + 2], buf[at + 3]] != Trailer(computed) { return false, f; }
    assert buf[..bufLen][HEADER_LEN..at] == buf[HEADER_LEN..at];
    assert |buf[HEADER_LEN..at]| == len && |into.payload[len..]| == MAX_PAYLOAD_LEN - len;
    f := Frame(buf[4], buf[5], buf[6], buf[7], buf[8], buf[9], buf[HEADER_LEN..at] + into.payload[len..]);
    ok := true;
  }

  // ----- Encode and decode are mutual inverses -----

  /** Every well-formed frame is accepted whatever follows it, and comes back as it was. */
  lemma DecodeOfEncode(f: Frame, tail: seq<Byte>, into: Frame)
    requires WellFormed(f)
    ensures Accepts(Wire(f) + tail) && WireLen(Wire(f) + tail) == |Wire(f)|
    ensures FrameOf(Wire(f) + tail, into)
         == f.(payload := f.payload[..Value(f.len)] + into.payload[Value(f.len)..])
  {
    hide Value, Checksum, ReservedClear, Trailer, KnownNode, KnownType, LengthFits;
    var b := Wire(f) + tail;
    var at := HEADER_LEN + Value(f.len);
    assert b[..10] == SYNC + [f.ver, f.flags, f.node, f.msgType, f.seqNo, f.len];
    assert b[4] == b[..10][4] && b[5] == b[..10][5] && b[6] == b[..10][6] && b[7] == b[..10][7];
    assert b[8] == b[..10][8] && b[9] == b[..10][9];
    assert b[0] == b[..10][0] && b[1] == b[..10][1] && b[2] == b[..10][2] && b[3] == b[..10][3];
    assert b[4..at] == Covered(f);
    assert b[at..at + 4] == Trailer(Checksum(Covered(f)));
    assert b[HEADER_LEN..at] == f.payload[..Value(f.len)];
  }

  /** Every accepted buffer re-encodes to the octets that were accepted. */
  lemma EncodeOfDecode(b: seq<Byte>, into: Frame)
    requires Accepts(b)
    ensures WellFormed(FrameOf(b, into))
    ensures Wire(FrameOf(b, into)) == b[..WireLen(b)]
  {
    hide Value, Checksum, ReservedClear, Trailer, KnownNode, KnownType, LengthFits;
    var f := FrameOf(b, into);
    var at := HEADER_LEN + Value(f.len);
    assert b[..4] == SYNC;
    assert b[4..10] == [f.ver, f.flags, f.node, f.msgType, f.seqNo, f.len];
    assert f.payload[..Value(f.len)] == b[10..at];
    assert Covered(f) == b[4..at];
    assert b[..WireLen(b)] == b[..4] + b[4..at] + b[at..WireLen(b)];
  }

  /** Decoding recognises exactly the buffers that start with the image of a well-formed frame. */
  lemma AcceptsIff(b: seq<Byte>)
    ensures Accepts(b) <==> exists f: Frame :: IsImage(f, b)
  {
    hide Value, Checksum, HeaderOk, Trailer, WellFormed, Wire;
    if Accepts(b) {
      EncodeOfDecode(b, BlankFrame());
      assert IsImage(FrameOf(b, BlankFrame()), b) by {
        WellFormedFits(FrameOf(b, BlankFrame()));
      }
    }
    if f: Frame :| IsImage(f, b) {
      WellFormedFits(f);
      DecodeOfEncode(f, b[|Wire(f)|..], BlankFrame());
      assert b == Wire(f) + b[|Wire(f)|..];
    }
  }

  ghost predicate IsImage(f: Frame, b: seq<Byte>) {
    WellFormed(f) && Wire(f) <= b
  }

  lemma WellFormedFits(f: Frame)
    requires WellFormed(f)
    ensures Value(f.len) <= MAX_PAYLOAD_LEN
  {
    hide Value, ReservedClear, KnownNode, KnownType, LengthFits;
  }

  /** What `encode` lets out is accepted by `decode` exactly when the frame is well formed. */
  lemma SentIsAcceptedIff(f: Frame, tail: seq<Byte>)
    requires Encodable(f)
    ensures Accepts(Wire(f) + tail) <==> WellFormed(f)
  {
    hide Value, Checksum, ReservedClear, Trailer, KnownNode, KnownType, LengthFits;
    if WellFormed(f) {
      DecodeOfEncode(f, tail, BlankFrame());
    }
    var b := Wire(f) + tail;
    assert b[..10] == SYNC + [f.ver, f.flags, f.node, f.msgType, f.seqNo, f.len];
    assert b[4] == b[..10][4] && b[5] == b[..10][5] && b[6] == b[..10][6] && b[7] == b[..10][7] && b[9] == b[..10][9];
  }

  const CONFIG_REPLY_LEN := 1 + 6 * 5

  /** The REQUEST_CONFIG reply: six parameters of five octets behind their count, sent as TELEMETRY. */
  function ConfigReply(seqNo: Byte, table: seq<Byte>): Frame
    requires |table| == CONFIG_REPLY_LEN
  {
    Frame(PROTOCOL_VERSION, 0, NODE_ROCKET, TELEMETRY, seqNo, ToByte(CONFIG_REPLY_LEN),
          table + BlankPayload()[CONFIG_REPLY_LEN..])
  }

  /** That reply goes out, but the length check of `decode` turns it away. */
  lemma ConfigReplyRejected(seqNo: Byte, table: seq<Byte>, tail: seq<Byte>)
    requires |table| == CONFIG_REPLY_LEN
    ensures Encodable(ConfigReply(seqNo, table)) && !Accepts(Wire(ConfigReply(seqNo, table)) + tail)
  {
    hide Value, ToByte, Checksum, Trailer, Wire, Accepts;
    ValueOfByte(CONFIG_REPLY_LEN);
    NoFlags();
    SentIsAcceptedIff(ConfigReply(seqNo, table), tail);
  }

  lemma NoFlags()
    ensures ReservedClear(0) && !HasFlag(0, FLAG_FRAGMENT)
  {
  }

  /**
   The frames a receiver may accept, in numbers: version 2, flags in the low four bits, a node and a type of the
   protocol, and a payload between the least size of its type, or of a fragment, and 200.
   */
  lemma WellFormedMeans(f: Frame)
    ensures WellFormed(f) <==>
              && f.ver == 2 && f.flags <= 0x0F && (f.node <= 3) && 1 <= f.msgType <= 5
              && Value(f.len) <= 200
              && if f.flags & 0x08 != 0 then Value(f.len) >= 6
                 else Value(f.len) >= if f.msgType == 1 then 38 else if f.msgType == 2 then 6
                                      else if f.msgType == 3 then 2 else if f.msgType == 4 then 4 else 0
  {
    hide Value;
  }

  // ----- Error detection -----

  lemma ResidueOfAccepted(b: seq<Byte>)
    requires Accepts(b)
    ensures Feed(INIT, b[4..WireLen(b)]) == RESIDUE
  {
    hide Value, Checksum, HeaderOk, Trailer, Feed;
    var at := HEADER_LEN + Value(b[9]);
    ResidueIff(b[4..at], b[at..WireLen(b)]);
    assert b[4..WireLen(b)] == b[4..at] + b[at..WireLen(b)];
  }

  /** The bits of two images on the air differ only within 32 neighbouring ones. */
  predicate WithinBurst(b: seq<Byte>, c: seq<Byte>, from: nat) {
    CrcPolynomial.DifferWithin(CrcPolynomial.Message(b), CrcPolynomial.Message(c), from)
  }

  /** Behind equal sync octets the burst lies in what the checksum covers. */
  lemma BurstBehindSync(b: seq<Byte>, c: seq<Byte>, from: nat)
    requires 4 <= |b| == |c| && b[..4] == c[..4] && WithinBurst(b, c, from)
    ensures WithinBurst(b[4..], c[4..], if from < 32 then 0 else from - 32)
  {
    hide CrcPolynomial.Message;
    CrcPolynomial.MessageConcat(b[..4], b[4..]);
    CrcPolynomial.MessageConcat(c[..4], c[4..]);
    assert b == b[..4] + b[4..] && c == c[..4] + c[4..];
    var m, n := CrcPolynomial.Message(b), CrcPolynomial.Message(c);
    var x, y := CrcPolynomial.Message(b[4..]), CrcPolynomial.Message(c[4..]);
    forall i | 0 <= i < |x|
      ensures x[i] == m[i + 32] && y[i] == n[i + 32]
    {
    }
  }

  /** Two accepted images of one length that differ only within a burst of 32 bits are equal. */
  lemma ShortBurstsShow(b: seq<Byte>, c: seq<Byte>, from: nat)
    requires Accepts(b) && Accepts(c) && |b| == |c| == WireLen(b) == WireLen(c) && WithinBurst(b, c, from)
    ensures b == c
  {
    hide Value, Checksum, Trailer, Feed, WithinBurst;
    ResidueOfAccepted(b);
    ResidueOfAccepted(c);
    var s, t := b[4..], c[4..];
    assert b[4..WireLen(b)] == s && c[4..WireLen(c)] == t;
    assert b[..4] == [SYNC_0, SYNC_1, SYNC_2, SYNC_3] == c[..4];
    BurstBehindSync(b, c, from);
    BurstOfRest(s, t, if from < 32 then 0 else from - 32);
    assert b == b[..4] + s && c == c[..4] + t;
  }

  lemma BurstOfRest(s: seq<Byte>, t: seq<Byte>, from: nat)
    requires |s| == |t| && Feed(INIT, s) == Feed(INIT, t) && WithinBurst(s, t, from)
    ensures s == t
  {
    hide Feed, CrcPolynomial.DifferWithin;
    CrcPolynomial.BurstDetected(s, t, from);
  }

  /**
   An intact frame image stops being acceptable under any change confined to 32 neighbouring bits, wherever
   they begin and whatever octets they touch, that leaves LEN alone.
   */
  lemma CorruptionRejected(b: seq<Byte>, bad: seq<Byte>, from: nat)
    requires Accepts(b) && |b| == WireLen(b)
    requires |bad| == |b| && bad != b && bad[9] == b[9] && WithinBurst(b, bad, from)
    ensures !Accepts(bad)
  {
    hide Value, Checksum, HeaderOk, Trailer, WithinBurst;
    if Accepts(bad) {
      ShortBurstsShow(b, bad, from);
    }
  }

  // ----- Fragmentation sub-header -----

  datatype FragHeader = FragHeader(transferId: nat, segmentNum: nat, totalSegments: nat)

  predicate FragOk(segmentNum: nat, totalSegments: nat, data: seq<Byte>) {
    |data| <= MAX_FRAG_PAYLOAD && totalSegments != 0 && segmentNum < totalSegments
  }

  /** The frame that `encodeFrag` leaves behind. */
  function FragFrame(f: Frame, h: FragHeader, data: seq<Byte>): (r: Frame)
    requires |data| <= MAX_FRAG_PAYLOAD
  {
    f.(flags := WithFlag(f.flags, FLAG_FRAGMENT),
       payload := [Low(h.transferId), High(h.transferId), Low(h.segmentNum), High(h.segmentNum),
                   Low(h.totalSegments), High(h.totalSegments)]
                  + data + f.payload[FRAG_HEADER_LEN + |data|..],
       len := ToByte(FRAG_HEADER_LEN + |data|))
  }

  method EncodeFrag(f: Frame, h: FragHeader, data: seq<Byte>) returns (ok: bool, r: Frame)
    ensures ok <==> FragOk(h.segmentNum, h.totalSegments, data)
    ensures r == if ok then FragFrame(f, h, data) else f
  {
    hide Low, High, ToByte, WithFlag;
    r := f;
    if |data| > MAX_FRAG_PAYLOAD { return false, r; }
    if h.totalSegments == 0 { return false, r; }
    if h.segmentNum >= h.totalSegments { return false, r; }
    var payload: seq<Byte> := f.payload;
    payload := [Low(h.transferId), High(h.transferId), Low(h.segmentNum), High(h.segmentNum),
                Low(h.totalSegments), High(h.totalSegments)] + payload[FRAG_HEADER_LEN..];
    if |data| > 0 {
      payload := payload[..FRAG_HEADER_LEN] + data + payload[FRAG_HEADER_LEN + |data|..];
    }
    assert payload == FragFrame(f, h, data).payload;
    r := f.(flags := WithFlag(f.flags, FLAG_FRAGMENT), payload := payload, len := ToByte(FRAG_HEADER_LEN + |data|));
    ok := true;
  }

  function DecodeFrag(f: Frame): Option<FragHeader> {
    if !HasFlag(f.flags, FLAG_FRAGMENT) || Value(f.len) < FRAG_HEADER_LEN then None
    else
      var h := FragHeader(Word16(f.payload[0], f.payload[1]), Word16(f.payload[2], f.payload[3]),
                          Word16(f.payload[4], f.payload[5]));
      if h.totalSegments == 0 || h.segmentNum >= h.totalSegments then None else Some(h)
  }

  lemma FlagSet(flags: Byte)
    ensures HasFlag(WithFlag(flags, FLAG_FRAGMENT), FLAG_FRAGMENT)
    ensures ReservedClear(flags) ==> ReservedClear(WithFlag(flags, FLAG_FRAGMENT))
  {
  }

  /** Reading a fragment gives back the sub-header and the data that were written. */
  lemma FragRoundTrip(f: Frame, h: FragHeader, data: seq<Byte>)
    requires FragOk(h.segmentNum, h.totalSegments, data)
    requires h.transferId < 0x1_0000 && h.totalSegments < 0x1_0000
    ensures DecodeFrag(FragFrame(f, h, data)) == Some(h)
    ensures Value(FragFrame(f, h, data).len) == FRAG_HEADER_LEN + |data|
    ensures FragFrame(f, h, data).payload[FRAG_HEADER_LEN..FRAG_HEADER_LEN + |data|] == data
  {
    hide Low, High, ToByte, Word16, Value, HasFlag, WithFlag;
    var r := FragFrame(f, h, data);
    FlagSet(f.flags);
    ValueOfByte(FRAG_HEADER_LEN + |data|);
    Word16OfOctets(h.transferId);
    Word16OfOctets(h.segmentNum);
    Word16OfOctets(h.totalSegments);
  }
}
