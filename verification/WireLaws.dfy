/** The laws of the wire format: encoding and decoding undo each other, encodings are minimal,
    framing is stable when bytes arrive later, and a built PUBLISH parses back to itself. */
module WireLaws {
  import opened Bytes
  import opened Wire

  // ---------- remaining length ----------

  /** Decoding an encoding returns the value and stops at its end, whatever follows. */
  lemma {:induction false} DecodeEncode(v: nat, rest: seq<byte>, room: nat)
    requires 1 <= room <= 4 && v < Scale(1, room)
    ensures DecodeIn(EncodeLength(v) + rest, room) == Length(v, |EncodeLength(v)|)
  {
    if v < 0x80 {
      assert EncodeLength(v) + rest == [v] + rest;
    } else {
      DecodeEncode(v / 0x80, rest, room - 1);
      assert EncodeLength(v) + rest == [0x80 + v % 0x80] + (EncodeLength(v / 0x80) + rest);
    }
  }

  /** The other direction: every accepted form of a value is in range and at least as long as
      the encoder's, which is the only one of its length. */
  lemma {:induction false} EncodeDecode(b: seq<byte>, room: nat)
    requires room <= 4 && DecodeIn(b, room).Length?
    ensures var Length(v, n) := DecodeIn(b, room);
            && 1 <= n <= room && n <= |b| && v < Scale(1, room)
            && |EncodeLength(v)| <= n
            && (|EncodeLength(v)| == n ==> b[..n] == EncodeLength(v))
  {
    if b[0] >= 0x80 {
      EncodeDecode(b[1..], room - 1);
      var Length(v, n) := DecodeIn(b, room);
      assert b[..n] == [b[0]] + b[1..][..n - 1];
    }
  }

  lemma {:induction false} DecodeGrows(b: seq<byte>, more: seq<byte>, room: nat)
    requires !DecodeIn(b, room).NeedMore?
    ensures DecodeIn(b + more, room) == DecodeIn(b, room)
  {
    if room > 0 && b[0] >= 0x80 {
      DecodeGrows(b[1..], more, room - 1);
      assert (b + more)[1..] == b[1..] + more;
    }
  }

  /** Seven bits of the i-th byte of a length of n bytes. */
  function Group(b: seq<byte>, n: nat, i: nat): nat
    requires n <= |b|
  {
    if i < n then b[i] % 0x80 else 0
  }

  /** Every one of the first k bytes says that another one follows. */
  predicate GoesOn(b: seq<byte>, k: nat)
    requires k <= |b|
  {
    forall i | 0 <= i < k :: b[i] >= 0x80
  }

  /** The rule of section 2.2.3: up to four bytes, the lowest seven bits first, the top bit set in all but the last. */
  lemma LengthMeaning(b: seq<byte>)
    ensures DecodeLength(b).NeedMore? <==> |b| <= 4 && GoesOn(b, |b|)
    ensures DecodeLength(b).Malformed? <==> |b| > 4 && GoesOn(b, 4)
    ensures DecodeLength(b).Length? ==>
              var Length(v, n) := DecodeLength(b);
              && 1 <= n <= 4 && n <= |b| && GoesOn(b, n - 1) && b[n - 1] < 0x80
              && v == Group(b, n, 0) + 0x80 * Group(b, n, 1) + 0x4000 * Group(b, n, 2) + 0x20_0000 * Group(b, n, 3)
  {
    DecodeFrom(b, 4);
  }

  lemma {:induction false} DecodeFrom(b: seq<byte>, room: nat)
    requires room <= 4
    ensures DecodeIn(b, room).NeedMore? <==> |b| <= room && GoesOn(b, |b|)
    ensures DecodeIn(b, room).Malformed? <==> |b| > room && GoesOn(b, room)
    ensures DecodeIn(b, room).Length? ==>
              var Length(v, n) := DecodeIn(b, room);
              && 1 <= n <= room && n <= |b| && GoesOn(b, n - 1) && b[n - 1] < 0x80
              && v == Group(b, n, 0) + 0x80 * Group(b, n, 1) + 0x4000 * Group(b, n, 2) + 0x20_0000 * Group(b, n, 3)
  {
    if b != [] && room > 0 && b[0] >= 0x80 {
      var r := b[1..];
      DecodeFrom(r, room - 1);
      GoesOnRest(b);
      hide GoesOn;
    }
  }

  lemma GoesOnRest(b: seq<byte>)
    requires b != [] && b[0] >= 0x80
    ensures forall k | 0 <= k < |b| :: GoesOn(b, k + 1) <==> GoesOn(b[1..], k)
  {
    var r := b[1..];
    forall k | 0 <= k < |b| ensures GoesOn(b, k + 1) <==> GoesOn(r, k) {
      assert forall i | 0 <= i < k :: r[i] == b[i + 1];
      if GoesOn(r, k) {
        forall i | 0 <= i < k + 1 ensures b[i] >= 0x80 { if i > 0 { assert b[i] == r[i - 1]; } }
      }
    }
  }

  // ---------- framing ----------

  /** Bytes that arrive later never change a verdict, and every packet takes at least two bytes. */
  lemma FrameGrows(b: seq<byte>, more: seq<byte>)
    requires !FrameOf(b).Incomplete?
    ensures FrameOf(b + more) == FrameOf(b)
    ensures FrameOf(b).Whole? ==> 2 <= FrameOf(b).len <= |b|
  {
    DecodeGrows(b[1..], more, 4);
    assert (b + more)[1..] == b[1..] + more;
    if FrameOf(b).Whole? { EncodeDecode(b[1..], 4); }
  }

  /** A framed packet keeps its frame when cut out of the stream. */
  lemma {:induction false} DecodePrefix(b: seq<byte>, k: nat, room: nat)
    requires room <= 4 && DecodeIn(b, room).Length? && DecodeIn(b, room).used <= k <= |b|
    ensures DecodeIn(b[..k], room) == DecodeIn(b, room)
  {
    if b[0] >= 0x80 {
      EncodeDecode(b[1..], room - 1);
      DecodePrefix(b[1..], k - 1, room - 1);
      assert b[..k][1..] == b[1..][..k - 1];
    } else {
      EncodeDecode(b, room);
    }
  }

  lemma FrameIsOwnFrame(b: seq<byte>)
    requires FrameOf(b).Whole?
    ensures var n := FrameOf(b).len;
            2 <= n <= |b| && FrameOf(b[..n]) == Whole(n) && BodyInside(b[..n])
  {
    FrameGrows(b, []);
    EncodeDecode(b[1..], 4);
    var n := FrameOf(b).len;
    DecodePrefix(b[1..], n - 1, 4);
    assert b[..n][1..] == b[1..][..n - 1];
  }

  // ---------- PUBLISH ----------

  /** A topic as the parser keeps it: at most 127 bytes. */
  function Heard(topic: Topic): (r: Topic)
    ensures |topic| <= MAX_TOPIC ==> r == topic
  {
    topic[..Min(|topic|, MAX_TOPIC)]
  }

  /** What a receiver with this parser recovers: DUP means nothing at QoS 0, nor does a packet id. */
  function Received(p: Publish): Publish {
    var q := p.(topic := Heard(p.topic));
    if p.qos == 0 then q.(dup := false, pid := 0) else q
  }

  ghost predicate Buildable(p: Publish) {
    p.qos <= 2 && |PublishBody(p)| < RL_LIMIT
  }

  lemma HeaderParts(qos: nat, retain: bool, dup: bool)
    requires qos <= 2
    ensures var h := PublishHeader(qos, retain, dup);
            h / 2 % 4 == qos && (h % 2 == 1 <==> retain) && (h / 8 % 2 == 1 <==> dup && qos > 0)
            && PacketType(h) == 0x30
  {
    assert qos == 0 || qos == 1 || qos == 2;
  }

  lemma BodyRoundTrip(p: Publish)
    requires Buildable(p)
    ensures ParseBody(PublishHeader(p.qos, p.retain, p.dup), PublishBody(p)) == Some(Received(p))
  {
    HeaderParts(p.qos, p.retain, p.dup);
    var v := PublishBody(p);
    assert U16(v[0], v[1]) == |p.topic|;
    var off := 2 + |p.topic|;
    assert v[2..off] == p.topic;
    assert v[2..2 + Min(|p.topic|, MAX_TOPIC)] == Heard(p.topic);
    if p.qos > 0 {
      assert U16(v[off], v[off + 1]) == p.pid;
      assert v[off + 2..] == p.payload;
    } else {
      assert v[off..] == p.payload;
    }
  }

  lemma PublishLayout(p: Publish, rest: seq<byte>)
    requires Buildable(p)
    ensures var n := |EncodeLength(|PublishBody(p)|)|;
            && DecodeLength((PublishBytes(p) + rest)[1..]) == Length(|PublishBody(p)|, n)
            && |PublishBytes(p)| == 1 + n + |PublishBody(p)|
            && PublishBytes(p)[1 + n..] == PublishBody(p)
  {
    var body := PublishBody(p);
    var len := EncodeLength(|body|);
    assert (PublishBytes(p) + rest)[1..] == len + (body + rest);
    DecodeEncode(|body|, body + rest, 4);
  }

  /** A PUBLISH on the wire (section 3.3): its type and flags, its length, then topic with its length, the packet id at
      QoS 1 and 2 only, and the payload, numbers with their high byte first. */
  lemma PublishOnTheWire(p: Publish)
    requires Buildable(p)
    ensures var b := PublishBytes(p);
            && b[0] / 16 == 3 && (b[0] % 2 == 1 <==> p.retain) && b[0] / 2 % 4 == p.qos
            && (b[0] / 8 % 2 == 1 <==> p.dup && p.qos > 0)
            && DecodeLength(b[1..]).Length?
            && var n := 1 + DecodeLength(b[1..]).used; n <= |b| && IsBody(b[n..], p)
  {
    PublishLayout(p, []);
    var b := PublishBytes(p);
    assert b + [] == b && b[0] == PublishHeader(p.qos, p.retain, p.dup);
    BodyMeaning(p);
    hide PublishBytes, IsBody, PublishBody, EncodeLength, DecodeLength;
    HeaderParts(p.qos, p.retain, p.dup);
    hide PublishHeader;
  }

  /** What follows the length: the topic's length and the topic, the id, and the payload. */
  ghost predicate IsBody(v: seq<byte>, p: Publish) {
    var t, id := |p.topic|, if p.qos > 0 then 2 else 0;
    && |v| == 2 + t + id + |p.payload|
    && v[0] == t / 0x100 && v[1] == t % 0x100 && v[2..2 + t] == p.topic
    && (p.qos > 0 ==> v[2 + t] == p.pid / 0x100 && v[3 + t] == p.pid % 0x100)
    && v[2 + t + id..] == p.payload
  }

  lemma BodyMeaning(p: Publish)
    ensures IsBody(PublishBody(p), p)
  {}

  /** A built PUBLISH is framed at exactly its own length whatever follows it, and parsing the
      frame recovers topic, payload, retain, QoS, packet id and the effective DUP. */
  lemma PublishRoundTrip(p: Publish, rest: seq<byte>)
    requires Buildable(p)
    ensures FrameOf(PublishBytes(p) + rest) == Whole(|PublishBytes(p)|)
    ensures BodyInside(PublishBytes(p)) && ParsePublish(PublishBytes(p)) == Some(Received(p))
  {
    PublishLayout(p, rest);
    PublishLayout(p, []);
    var b := PublishBytes(p);
    assert b + [] == b;
    var n := |EncodeLength(|PublishBody(p)|)|;
    assert b[1 + n..1 + n + |PublishBody(p)|] == b[1 + n..];
    BodyRoundTrip(p);
  }

  /** PUBLISH packets carry their content injectively: equal bytes mean equal messages. */
  lemma PublishInjective(p: Publish, q: Publish)
    requires Buildable(p) && Buildable(q) && PublishBytes(p) == PublishBytes(q)
    ensures Received(p) == Received(q)
  {
    PublishRoundTrip(p, []);
    PublishRoundTrip(q, []);
  }

  /** PUBACK and its kin round-trip too. */
  lemma AckRoundTrip(header: byte, pid: u16, rest: seq<byte>)
    ensures FrameOf(AckBytes(header, pid) + rest) == Whole(4)
    ensures ParseAck(AckBytes(header, pid)) == Some(pid)
  {
    var b := AckBytes(header, pid);
    assert (b + rest)[1..][0] == 2 && b[1..][0] == 2;
  }
}
