/** The MQTT 3.1.1 wire format of main/mqtt_parser.c: the remaining-length codec, framing
    and PUBLISH. Each loop over a buffer is proved against a function on byte sequences;
    the functions are related to one another in WireLaws. */
module Wire {
  import opened Bytes

  /** A topic with its length in a uint16_t. */
  type Topic = s: seq<byte> | |s| < 0x1_0000 witness []

  const MAX_TOPIC := 127  // MQTT_MAX_TOPIC_LEN - 1, the longest topic a parser keeps
  const RL_LIMIT := 0x1000_0000  // 128^4, one past the largest remaining length

  // ---------- remaining length ----------

  datatype Length = NeedMore | Malformed | Length(value: nat, used: nat)

  /** Reads a little-endian base-128 number of at most `room` bytes. Running out of input is
      noticed before running out of room, as in the source. */
  function DecodeIn(b: seq<byte>, room: nat): Length {
    if b == [] then NeedMore
    else if room == 0 then Malformed
    else if b[0] < 0x80 then Length(b[0], 1)
    else
      match DecodeIn(b[1..], room - 1)
      case Length(v, n) => Length(b[0] - 0x80 + 0x80 * v, n + 1)
      case other => other
  }

  function DecodeLength(b: seq<byte>): Length {
    DecodeIn(b, 4)
  }

  function EncodeLength(v: nat): seq<byte> {
    if v < 0x80 then [v] else [v % 0x80 + 0x80] + EncodeLength(v / 0x80)
  }

  /** v * 128^k for k up to 4, written without a variable product. */
  function Scale(v: nat, k: nat): nat
    requires k <= 4
  {
    if k == 0 then v else if k == 1 then 0x80 * v else if k == 2 then 0x4000 * v
    else if k == 3 then 0x20_0000 * v else RL_LIMIT * v
  }

  /** What a decoder that has read `i` bytes worth `val` still owes, given the rest's outcome. */
  ghost function Shifted(val: nat, i: nat, rest: Length): Length
    requires i <= 4
  {
    match rest
    case Length(v, n) => Length(val + Scale(v, i), i + n)
    case other => other
  }

  lemma DecodeStep(b: seq<byte>, i: nat, val: nat)
    requires i < 4 && i < |b| && val < Scale(1, i)
    ensures Scale(1, i + 1) == Scale(1, i) * 0x80 <= RL_LIMIT
    ensures val + Scale(b[i] % 0x80, i) < Scale(1, i + 1)
    ensures Shifted(val, i, DecodeIn(b[i..], 4 - i)) ==
            if b[i] < 0x80 then Length(val + Scale(b[i], i), i + 1)
            else Shifted(val + Scale(b[i] % 0x80, i), i + 1, DecodeIn(b[i + 1..], 3 - i))
  {
    assert b[i..][0] == b[i] && b[i..][1..] == b[i + 1..];
  }

  lemma ScaleIsProduct(v: nat, k: nat)
    requires k <= 4
    ensures v * Scale(1, k) == Scale(v, k)
  {
    assert k == 0 || k == 1 || k == 2 || k == 3 || k == 4;
  }

  /** The 32-bit variables of the decoder do not wrap. */
  lemma NoWrap(val: nat, digit: nat, i: nat, multiplier: nat)
    requires i < 4 && val + Scale(digit, i) < Scale(1, i + 1) && multiplier == Scale(1, i)
    ensures Wrap32(val + digit * multiplier) == val + Scale(digit, i)
    ensures Wrap32(multiplier * 0x80) == Scale(1, i + 1)
  {
    ScaleIsProduct(digit, i);
  }

  /** The decoder has read i bytes of b, worth val. */
  ghost predicate Pending(b: seq<byte>, i: nat, val: nat) {
    i <= 4 && i <= |b| && val < Scale(1, i) && DecodeLength(b) == Shifted(val, i, DecodeIn(b[i..], 4 - i))
  }

  lemma PendingStep(b: seq<byte>, i: nat, val: nat)
    requires Pending(b, i, val) && i < 4 && i < |b|
    ensures val + Scale(b[i] % 0x80, i) < Scale(1, i + 1)
    ensures if b[i] < 0x80 then DecodeLength(b) == Length(val + Scale(b[i] % 0x80, i), i + 1)
            else Pending(b, i + 1, val + Scale(b[i] % 0x80, i))
  {
    DecodeStep(b, i, val);
  }

  lemma PendingEnd(b: seq<byte>, i: nat, val: nat)
    requires Pending(b, i, val) && (i == |b| || i == 4)
    ensures DecodeLength(b) == if i == |b| then NeedMore else Malformed
  {}

  /** mqtt_decode_remaining_length. The 32-bit variables wrap; the contract says that no
      input makes the wrap matter. The result is 0 (more bytes needed), -1 (malformed)
      or the number of bytes used. */
  method DecodeRemainingLength(buf: array<byte>, off: nat, len: nat) returns (used: int, value: nat)
    requires off + len <= buf.Length
    ensures DecodeLength(buf[off..off + len]) ==
            if used == 0 then NeedMore else if used < 0 then Malformed else Length(value, used)
    ensures -1 <= used <= 4
  {
    var multiplier: nat, val: nat, i: nat := 1, 0, 0;
    ghost var b := buf[off..off + len];
    assert b[0..] == b;
    while true
      invariant Pending(b, i, val) && multiplier == Scale(1, i)
      decreases 4 - i
    {
      if i >= len {
        PendingEnd(b, i, val);
        return 0, 0;
      }
      if i >= 4 {
        PendingEnd(b, i, val);
        return -1, 0;
      }
      var x := buf[off + i];
      assert x == b[i];
      PendingStep(b, i, val);
      NoWrap(val, x % 0x80, i, multiplier);
      val := Wrap32(val + x % 0x80 * multiplier);
      multiplier := Wrap32(multiplier * 0x80);
      if x < 0x80 {
        return i + 1, val;
      }
      i := i + 1;
    }
  }

  /** mqtt_encode_remaining_length, for every 32-bit value. */
  method EncodeRemainingLength(buf: array<byte>, off: nat, v: nat) returns (n: nat)
    requires v < 0x1_0000_0000
    requires off + |EncodeLength(v)| <= buf.Length
    modifies buf
    ensures n == |EncodeLength(v)| && buf[off..off + n] == EncodeLength(v)
    ensures forall k | 0 <= k < buf.Length && !(off <= k < off + n) :: buf[k] == old(buf[k])
  {
    n := 0;
    var value := v;
    while true
      invariant off + n + |EncodeLength(value)| <= buf.Length
      invariant EncodeLength(v) == buf[off..off + n] + EncodeLength(value)
      invariant forall k | 0 <= k < buf.Length && !(off <= k < off + n) :: buf[k] == old(buf[k])
      decreases value
    {
      ghost var before := value;
      var b := value % 0x80;
      value := value / 0x80;
      if value > 0 { b := b + 0x80; }
      assert EncodeLength(before) == [b] + if value > 0 then EncodeLength(value) else [];
      ghost var was := buf[off..off + n];
      buf[off + n] := b;
      n := n + 1;
      assert buf[off..off + n] == was + [b];
      if value == 0 { break; }
    }
  }

  // ---------- framing ----------

  datatype Frame = Incomplete | Bad | Whole(len: nat)

  /** The outcome of looking for one packet at the start of `b`. */
  function FrameOf(b: seq<byte>): Frame {
    if |b| < 2 then Incomplete
    else
      match DecodeLength(b[1..])
      case NeedMore => Incomplete
      case Malformed => Bad
      case Length(v, n) => if |b| < 1 + n + v then Incomplete else Whole(1 + n + v)
  }

  /** mqtt_packet_length: 0 with the length, 1 when more bytes are needed, -1 when malformed. */
  method PacketLength(buf: array<byte>, len: nat) returns (rc: int, pktLen: nat)
    requires len <= buf.Length
    ensures FrameOf(buf[..len]) == if rc == 1 then Incomplete else if rc < 0 then Bad else Whole(pktLen)
    ensures -1 <= rc <= 1
  {
    if len < 2 { return 1, 0; }
    var used, remaining := DecodeRemainingLength(buf, 1, len - 1);
    assert buf[..len][1..] == buf[1..1 + (len - 1)];
    if used == 0 { return 1, 0; }
    if used < 0 { return -1, 0; }
    pktLen := 1 + used + remaining;
    if len < pktLen { return 1, pktLen; }
    rc := 0;
  }

  /** The upper nibble of a fixed header. */
  function PacketType(header: byte): byte {
    header - header % 0x10
  }

  // ---------- acknowledgements ----------

  /** The bytes a parser may touch lie inside the packet: what its callers guarantee by framing. */
  predicate BodyInside(b: seq<byte>) {
    |b| >= 2 && DecodeLength(b[1..]).Length? ==>
      var Length(v, n) := DecodeLength(b[1..]); 1 + n + v <= |b|
  }

  function AckBytes(header: byte, pid: u16): seq<byte> {
    [header, 2] + U16Bytes(pid)
  }

  /** mqtt_parse_ack. */
  function ParseAck(b: seq<byte>): Option<u16> {
    if |b| < 4 then None
    else
      match DecodeLength(b[1..])
      case Length(v, n) =>
        if v < 2 || |b| < 1 + n + 2 then None else Some(U16(b[1 + n], b[2 + n]))
      case _ => None
  }

  // ---------- PUBLISH ----------

  datatype Publish = Publish(topic: Topic, payload: seq<byte>, qos: nat, retain: bool, dup: bool, pid: u16)

  function Bit(b: bool): nat {
    if b then 1 else 0
  }

  function PublishHeader(qos: nat, retain: bool, dup: bool): byte
    requires qos <= 2
  {
    0x30 + (if qos > 0 then 8 * Bit(dup) else 0) + 2 * qos + Bit(retain)
  }

  function PublishBody(p: Publish): seq<byte> {
    U16Bytes(|p.topic|) + p.topic + (if p.qos > 0 then U16Bytes(p.pid) else []) + p.payload
  }

  /** The packet that mqtt_build_publish_ex lays out when the buffer is large enough. */
  function PublishBytes(p: Publish): seq<byte>
    requires p.qos <= 2
  {
    [PublishHeader(p.qos, p.retain, p.dup)] + EncodeLength(|PublishBody(p)|) + PublishBody(p)
  }

  /** memcpy at the write cursor. */
  method CopyInto(buf: array<byte>, pos: nat, s: seq<byte>) returns (end: nat)
    requires pos + |s| <= buf.Length
    modifies buf
    ensures end == pos + |s|
    ensures buf[..end] == old(buf[..pos]) + s
    ensures forall i | end <= i < buf.Length :: buf[i] == old(buf[i])
  {
    forall i | 0 <= i < |s| { buf[pos + i] := s[i]; }
    end := pos + |s|;
  }

  lemma BodyPieces(front: seq<byte>, p: Publish)
    ensures front + U16Bytes(|p.topic|) + p.topic + (if p.qos > 0 then U16Bytes(p.pid) else []) + p.payload
            == front + PublishBody(p)
  {}

  /** The copying half of mqtt_build_publish_ex. */
  method LayOut(buf: array<byte>, header: byte, rl: seq<byte>, p: Publish) returns (n: nat)
    requires 1 + |rl| + |PublishBody(p)| <= buf.Length
    modifies buf
    ensures n == 1 + |rl| + |PublishBody(p)| && buf[..n] == [header] + rl + PublishBody(p)
    ensures forall i | n <= i < buf.Length :: buf[i] == old(buf[i])
  {
    buf[0] := header;
    assert buf[..1] == [header];
    var pos := CopyInto(buf, 1, rl);
    pos := CopyInto(buf, pos, U16Bytes(|p.topic|));
    pos := CopyInto(buf, pos, p.topic);
    ghost var id := if p.qos > 0 then U16Bytes(p.pid) else [];
    if p.qos > 0 {
      pos := CopyInto(buf, pos, U16Bytes(p.pid));
    }
    assert buf[..pos] == [header] + rl + U16Bytes(|p.topic|) + p.topic + id;
    n := CopyInto(buf, pos, p.payload);
    BodyPieces([header] + rl, p);
  }

  /** mqtt_build_publish_ex. A rejected call leaves the buffer alone; an accepted one writes
      exactly the packet and nothing past it. The source encodes the length into four bytes
      before it checks the size, so its callers stay below 2^28. */
  method BuildPublish(buf: array<byte>, bufSize: nat, p: Publish) returns (n: int)
    requires bufSize <= buf.Length
    requires |PublishBody(p)| < RL_LIMIT
    modifies buf
    ensures n < 0 <==> p.qos > 2 || |PublishBytes(p)| > bufSize
    ensures n < 0 ==> n == -1 && buf[..] == old(buf[..])
    ensures n >= 0 ==> n == |PublishBytes(p)| && buf[..] == PublishBytes(p) + old(buf[n..])
  {
    if p.qos > 2 { return -1; }
    var remaining := 2 + |p.topic| + |p.payload|;
    if p.qos > 0 { remaining := remaining + 2; }
    EncodeLengthSize(remaining, 4);
    var rl := new byte[4];
    var used := EncodeRemainingLength(rl, 0, remaining);
    var total := 1 + used + remaining;
    assert total == |PublishBytes(p)|;
    if total > bufSize { return -1; }
    var header := 0x30;
    if p.qos > 0 && p.dup { header := header + 8; }
    header := header + 2 * p.qos;
    if p.retain { header := header + 1; }
    assert header == PublishHeader(p.qos, p.retain, p.dup);
    n := LayOut(buf, header, rl[..used], p);
    assert buf[..] == buf[..n] + buf[n..];
  }

  lemma {:induction false} EncodeLengthSize(v: nat, k: nat)
    requires 1 <= k <= 4 && v < Scale(1, k)
    ensures 1 <= |EncodeLength(v)| <= k
  {
    if v >= 0x80 { EncodeLengthSize(v / 0x80, k - 1); }
  }

  /** The variable header and payload of a PUBLISH whose fixed header byte is `h`. */
  function ParseBody(h: byte, v: seq<byte>): Option<Publish> {
    if |v| < 2 then None
    else
      var topicLen := U16(v[0], v[1]);
      var qos := h / 2 % 4;
      var off := 2 + topicLen;
      if |v| < off || (qos > 0 && |v| < off + 2) then None
      else
        Some(Publish(v[2..2 + Min(topicLen, MAX_TOPIC)], if qos > 0 then v[off + 2..] else v[off..],
                     qos, h % 2 == 1, h / 8 % 2 == 1, if qos > 0 then U16(v[off], v[off + 1]) else 0))
  }

  function ParsePublish(b: seq<byte>): Option<Publish>
    requires BodyInside(b)
  {
    if |b| < 2 then None
    else
      match DecodeLength(b[1..])
      case Length(v, n) => ParseBody(b[0], b[1 + n..1 + n + v])
      case _ => None
  }

  /** Where the variable header and payload of a packet lie; an empty range when there is none. */
  method BodyRange(pkt: array<byte>, len: nat) returns (start: nat, end: nat)
    requires 2 <= len <= pkt.Length && BodyInside(pkt[..len])
    ensures start <= end <= len
    ensures start == 0 <==> !DecodeLength(pkt[..len][1..]).Length?
    ensures start > 0 ==> DecodeLength(pkt[..len][1..]) == Length(end - start, start - 1)
  {
    var used, remaining := DecodeRemainingLength(pkt, 1, len - 1);
    assert pkt[..len][1..] == pkt[1..1 + (len - 1)];
    if used <= 0 { return 0, 0; }
    return 1 + used, 1 + used + remaining;
  }

  /** mqtt_parse_publish. */
  method ParsePublishPacket(pkt: array<byte>, len: nat) returns (r: Option<Publish>)
    requires len <= pkt.Length && BodyInside(pkt[..len])
    ensures r == ParsePublish(pkt[..len])
  {
    hide ParseBody;
    if len < 2 { return None; }
    var start, end := BodyRange(pkt, len);
    if start == 0 { return None; }
    assert pkt[..len][start..end] == pkt[start..end];
    r := ParseBody(pkt[0], pkt[start..end]);
  }
}
