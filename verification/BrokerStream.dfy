/** A client's byte stream and the broker's tables (main/mqtt_broker.c:1215-1304): how the stream is cut
    into reads does not show in them. */
module BrokerStream {
  import opened Bytes
  import opened Wire
  import opened WireLaws
  import opened Retained
  import opened BrokerState
  import opened BrokerWorld
  import opened BrokerMeaning
  import Framing

  /** What the handlers make of the bytes of a packet. Every packet they are given is framed; packets larger than any
      receive buffer never get there, so what `parse` does with those is immaterial. */
  ghost predicate Parses(parse: seq<byte> -> Packet) {
    forall b :: Framed(parse(b))
  }

  lemma RetainedByIsDeliverable(c: Client, p: Packet, ms: seq<Message>, now: int, cfg: RetainConfig, memory: bool)
    requires Framed(p) && Deliverable(ms)
    ensures Deliverable(RetainedBy(c, p, ms, now, cfg, memory))
  {
    hide Put;
    if p.PublishPacket? && ParsePublish(p.data).Some? {
      var q := ParsePublish(p.data).value;
      ParsedFits(p.data);
      hide ParsePublish;
      PutDeliverable(ms, q.topic, q.payload, now, cfg.limit, memory);
    }
  }

  /** One packet of client ci. */
  ghost function Handle(w: World, env: Env, cfg: RetainConfig, ci: nat, p: Packet, now: int, memory: bool): (r: World)
    requires w.s.Shaped(env) && ci < MAX_CLIENTS && Framed(p) && Deliverable(w.ms)
    ensures r.s.Shaped(env) && Deliverable(r.ms)
  {
    RetainedByIsDeliverable(w.s.clients[ci], p, w.ms, now, cfg, memory);
    World(Dispatch(w.s, env, ci, p, w.ms, now), RetainedBy(w.s.clients[ci], p, w.ms, now, cfg, memory))
  }

  /** process_client_data on the tables themselves: what the buffered bytes do, and which of them are left over. */
  ghost function Digest(w: World, env: Env, cfg: RetainConfig, ci: nat, stream: seq<byte>, parse: seq<byte> -> Packet,
                        now: int, memory: bool): (r: (World, seq<byte>))
    requires w.s.Shaped(env) && ci < MAX_CLIENTS && Parses(parse) && Deliverable(w.ms)
    ensures r.0.s.Shaped(env) && Deliverable(r.0.ms)
    decreases |stream|
  {
    if w.s.clients[ci].fd < 0 then (w, [])
    else
      match FrameOf(stream)
      case Incomplete => (w, stream)
      case Bad => (World(Disconnect(w.s, ci), w.ms), [])
      case Whole(n) =>
        FrameGrows(stream, []);
        Digest(Handle(w, env, cfg, ci, parse(stream[..n]), now, memory), env, cfg, ci, stream[n..], parse, now, memory)
  }

  /** The bytes of a second read are handled after what the first left over, to the same effect as all at once. */
  lemma {:induction false} DigestSplit(w: World, env: Env, cfg: RetainConfig, ci: nat, a: seq<byte>, b: seq<byte>,
                                       parse: seq<byte> -> Packet, now: int, memory: bool)
    requires w.s.Shaped(env) && ci < MAX_CLIENTS && Parses(parse) && Deliverable(w.ms)
    ensures var (v, rest) := Digest(w, env, cfg, ci, a, parse, now, memory);
            Digest(w, env, cfg, ci, a + b, parse, now, memory) == Digest(v, env, cfg, ci, rest + b, parse, now, memory)
    decreases |a|
  {
    if w.s.clients[ci].fd >= 0 && !FrameOf(a).Incomplete? {
      FrameGrows(a, b);
      if FrameOf(a).Whole? {
        var n := FrameOf(a).len;
        assert (a + b)[..n] == a[..n] && (a + b)[n..] == a[n..] + b;
        var v := Handle(w, env, cfg, ci, parse(a[..n]), now, memory);
        hide Handle, FrameOf, Parses;
        DigestSplit(v, env, cfg, ci, a[n..], b, parse, now, memory);
      }
    }
  }

  /** The stream in parts, each after what the ones before left over. */
  ghost function DigestReads(w: World, env: Env, cfg: RetainConfig, ci: nat, rest: seq<byte>, parts: seq<seq<byte>>,
                             parse: seq<byte> -> Packet, now: int, memory: bool): (World, seq<byte>)
    requires w.s.Shaped(env) && ci < MAX_CLIENTS && Parses(parse) && Deliverable(w.ms)
    decreases |parts|
  {
    if parts == [] then (w, rest)
    else
      var (v, left) := Digest(w, env, cfg, ci, rest + parts[0], parse, now, memory);
      DigestReads(v, env, cfg, ci, left, parts[1..], parse, now, memory)
  }

  lemma {:induction false} DigestSettles(w: World, env: Env, cfg: RetainConfig, ci: nat, stream: seq<byte>,
                                         parse: seq<byte> -> Packet, now: int, memory: bool)
    requires w.s.Shaped(env) && ci < MAX_CLIENTS && Parses(parse) && Deliverable(w.ms)
    ensures var (v, rest) := Digest(w, env, cfg, ci, stream, parse, now, memory);
            Digest(v, env, cfg, ci, rest, parse, now, memory) == (v, rest)
  {
    DigestSplit(w, env, cfg, ci, stream, [], parse, now, memory);
    var (v, rest) := Digest(w, env, cfg, ci, stream, parse, now, memory);
    assert stream + [] == stream && rest + [] == rest;
  }

  lemma {:induction false} ReadsAreOneRead(w: World, env: Env, cfg: RetainConfig, ci: nat, rest: seq<byte>,
                                           parts: seq<seq<byte>>, parse: seq<byte> -> Packet, now: int, memory: bool)
    requires w.s.Shaped(env) && ci < MAX_CLIENTS && Parses(parse) && Deliverable(w.ms)
    requires Digest(w, env, cfg, ci, rest, parse, now, memory) == (w, rest)
    ensures DigestReads(w, env, cfg, ci, rest, parts, parse, now, memory)
            == Digest(w, env, cfg, ci, rest + Framing.Flatten(parts), parse, now, memory)
    decreases |parts|
  {
    if parts == [] {
      assert rest + [] == rest;
    } else {
      var more := Framing.Flatten(parts[1..]);
      assert Framing.Flatten(parts) == parts[0] + more;
      hide Digest, Parses, Deliverable, Framing.Flatten;
      var (v, left) := Digest(w, env, cfg, ci, rest + parts[0], parse, now, memory);
      DigestSettles(w, env, cfg, ci, rest + parts[0], parse, now, memory);
      DigestSplit(w, env, cfg, ci, rest + parts[0], more, parse, now, memory);
      assert DigestReads(w, env, cfg, ci, rest, parts, parse, now, memory)
          == DigestReads(v, env, cfg, ci, left, parts[1..], parse, now, memory);
      hide DigestReads;
      ReadsAreOneRead(v, env, cfg, ci, left, parts[1..], parse, now, memory);
      Rejoined(rest, parts[0], more);
    }
  }

  lemma Rejoined(a: seq<byte>, b: seq<byte>, c: seq<byte>)
    ensures (a + b) + c == a + (b + c)
  {}

  /** However a client's stream is cut into reads at one time, the broker's tables, the retained messages, everything
      sent to anyone, and the bytes left over are those of the whole stream in one read. */
  lemma ChunkingDoesNotShow(w: World, env: Env, cfg: RetainConfig, ci: nat, parts: seq<seq<byte>>,
                            parse: seq<byte> -> Packet, now: int, memory: bool)
    requires w.s.Shaped(env) && ci < MAX_CLIENTS && Parses(parse) && Deliverable(w.ms)
    ensures DigestReads(w, env, cfg, ci, [], parts, parse, now, memory)
            == Digest(w, env, cfg, ci, Framing.Flatten(parts), parse, now, memory)
  {
    ReadsAreOneRead(w, env, cfg, ci, [], parts, parse, now, memory);
    assert [] + Framing.Flatten(parts) == Framing.Flatten(parts);
  }

  // ---------- from a packet's bytes to its handler ----------

  /** What the parsers make of the packets whose contents are not modelled. */
  datatype Parsers = Parsers(connect: seq<byte> -> ConnectRequest, subscribe: seq<byte> -> Option<SubscribeRequest>,
                             unsubscribe: seq<byte> -> Option<UnsubscribeRequest>)

  /** The switch of process_client_data on the type of a framed packet. */
  function PacketOf(ps: Parsers, b: seq<byte>): Packet
    requires b != []
  {
    var kind := PacketType(b[0]);
    if kind == 0x10 then ConnectPacket(ps.connect(b))
    else if kind == 0x30 then PublishPacket(b)
    else if kind == 0x80 then SubscribePacket(ps.subscribe(b))
    else if kind == 0xA0 then UnsubscribePacket(ps.unsubscribe(b))
    else if kind == 0xC0 then PingPacket
    else if kind == 0xE0 then DisconnectPacket
    else if kind == 0x40 then PubackPacket(b)
    else OtherPacket
  }

  /** The packet types of section 2.2.1, in the high half of the first byte. */
  lemma TypesMeaning(ps: Parsers, b: seq<byte>)
    requires b != []
    ensures var p, kind := PacketOf(ps, b), b[0] / 16;
            && (p.ConnectPacket? <==> kind == 1) && (p.PublishPacket? <==> kind == 3)
            && (p.PubackPacket? <==> kind == 4)
            && (p.SubscribePacket? <==> kind == 8) && (p.UnsubscribePacket? <==> kind == 10)
            && (p.PingPacket? <==> kind == 12) && (p.DisconnectPacket? <==> kind == 14)
            && (p.PublishPacket? || p.PubackPacket? ==> p.data == b)
  {}

  /** With these parsers, for all packets that a receive buffer can hold. */
  function Reading(ps: Parsers): seq<byte> -> Packet {
    b => if b != [] && BodyInside(b) && |b| <= LOCAL_PAYLOAD then PacketOf(ps, b) else OtherPacket
  }

  lemma ReadingParses(ps: Parsers)
    ensures Parses(Reading(ps))
  {}

  /** The bytes of one whole packet are handled as the packet they are, and none are left over. */
  lemma OnePacketIsHandled(w: World, env: Env, cfg: RetainConfig, ci: nat, b: seq<byte>, ps: Parsers, now: int,
                           memory: bool)
    requires w.s.Shaped(env) && ci < MAX_CLIENTS && w.s.clients[ci].fd >= 0 && Deliverable(w.ms)
    requires FrameOf(b) == Whole(|b|) && |b| <= LOCAL_PAYLOAD
    ensures b != [] && Framed(PacketOf(ps, b)) && Parses(Reading(ps))
    ensures Digest(w, env, cfg, ci, b, Reading(ps), now, memory) ==
            (Handle(w, env, cfg, ci, PacketOf(ps, b), now, memory), [])
  {
    FrameIsOwnFrame(b);
    ReadingParses(ps);
    assert b[..|b|] == b && b[|b|..] == [];
    assert Reading(ps)(b) == PacketOf(ps, b);
    hide Handle, PacketOf, Reading, Parses, Deliverable;
  }

  /** So a built PUBLISH reaches its handler as such; and so do PUBACK, PINGREQ and DISCONNECT as clients send them. */
  lemma KindsMeaning(ps: Parsers, p: Publish, pid: u16)
    requires Buildable(p)
    ensures PublishBytes(p) != [] && PacketOf(ps, PublishBytes(p)) == PublishPacket(PublishBytes(p))
    ensures PacketOf(ps, AckBytes(0x40, pid)) == PubackPacket(AckBytes(0x40, pid))
    ensures PacketOf(ps, [0xC0, 0]) == PingPacket && PacketOf(ps, [0xE0, 0]) == DisconnectPacket
  {
    HeaderParts(p.qos, p.retain, p.dup);
    assert PublishBytes(p)[0] == PublishHeader(p.qos, p.retain, p.dup);
  }

  /** A malformed length loses the client, and changes nothing retained. */
  lemma MalformedIsLost(w: World, env: Env, cfg: RetainConfig, ci: nat, b: seq<byte>, parse: seq<byte> -> Packet,
                        now: int, memory: bool)
    requires w.s.Shaped(env) && ci < MAX_CLIENTS && w.s.clients[ci].fd >= 0 && Deliverable(w.ms) && Parses(parse)
    requires FrameOf(b).Bad?
    ensures var (v, rest) := Digest(w, env, cfg, ci, b, parse, now, memory);
            v.ms == w.ms && rest == [] && OnlyLost(w.s, v.s, i => i == ci)
  {
    DisconnectMeaning(w.s, env, ci);
    hide Disconnect, OnlyLost, Parses, Deliverable;
  }
}
