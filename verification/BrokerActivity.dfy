/** When a client is heard, and which of them the keep-alive check loses over a run
    (main/mqtt_broker.c:836-842, 933, 962, 1195, 1203, 1279, 1308-1323). */
module BrokerActivity {
  import opened Bytes
  import opened Wire
  import opened Retained
  import opened BrokerState
  import opened BrokerInvariant
  import opened BrokerRuns
  import opened BrokerMeaning

  // ---------- what is not heard ----------

  /** No client was heard, got another keep-alive, or became connected. */
  ghost predicate Quiet(s: State, t: State) {
    && |t.clients| == |s.clients|
    && forall i | 0 <= i < |s.clients| ::
         && t.clients[i].lastActivity == s.clients[i].lastActivity && t.clients[i].keepAlive == s.clients[i].keepAlive
         && (t.clients[i].connected ==> s.clients[i].connected)
  }

  lemma SendIsQuiet(s: State, env: Env, ci: nat, data: seq<byte>)
    requires s.Shaped(env) && ci < MAX_CLIENTS
    ensures Quiet(s, Send(s, env, ci, data))
  {}

  lemma TransmitIsQuiet(s: State, env: Env, ci: nat, j: nat, dup: bool)
    requires s.Shaped(env) && ci < MAX_CLIENTS && j < PER_CLIENT
    ensures Quiet(s, Transmit(s, env, ci, j, dup))
  {
    hide PublishBytes, Send;
    var k := Ix(ci, j);
    var data := PublishBytes(SlotPacket(s.table.slots[k], dup));
    if |data| <= env.bufSize {
      SendIsQuiet(s.(sendBuf := Overlay(s.sendBuf, data), table := Note(s.table, k, data)), env, ci, data);
    }
  }

  lemma {:induction false} DeliveryIsQuiet(s: State, env: Env, ci: nat, filter: seq<byte>, ms: seq<Message>)
    requires s.Shaped(env) && ci < MAX_CLIENTS && Deliverable(ms)
    ensures Quiet(s, RetainDeliver(s, env, ci, filter, ms))
    decreases |ms|
  {
    if ms != [] {
      assert ms[0] in ms && Deliverable(ms[1..]);
      var data := PublishBytes(RetainedPacket(ms[0]));
      hide PublishBytes, Send, TopicMatch.Scan, Deliverable;
      if |data| <= env.bufSize {
        var s0 := s.(sendBuf := Overlay(s.sendBuf, data));
        SendIsQuiet(s0, env, ci, data);
        DeliveryIsQuiet(s0, env, ci, filter, ms[1..]);
        DeliveryIsQuiet(Send(s0, env, ci, data), env, ci, filter, ms[1..]);
      }
      DeliveryIsQuiet(s, env, ci, filter, ms[1..]);
    }
  }

  lemma {:induction false} DeliveriesAreQuiet(s: State, env: Env, ci: nat, ts: seq<TopicRequest>, codes: seq<byte>,
                                              ms: seq<Message>)
    requires s.Shaped(env) && ci < MAX_CLIENTS && |ts| == |codes| && Deliverable(ms)
    ensures Quiet(s, DeliverAll(s, env, ci, ts, codes, ms))
    decreases |ts|
  {
    if ts != [] {
      hide RetainDeliver, Deliverable;
      var s1 := if codes[0] != FAILURE then RetainDeliver(s, env, ci, ts[0].filter, ms) else s;
      if codes[0] != FAILURE { DeliveryIsQuiet(s, env, ci, ts[0].filter, ms); }
      DeliveriesAreQuiet(s1, env, ci, ts[1..], codes[1..], ms);
    }
  }

  lemma EnqueueIsQuiet(s: State, env: Env, ci: nat, topic: Topic, payload: seq<byte>, now: int)
    requires s.Shaped(env) && ci < MAX_CLIENTS
    ensures Quiet(s, Enqueue(s, env, ci, topic, payload, false, now).0)
  {
    hide PacketId, FreeSlot;
  }

  lemma TurnIsQuiet(s: State, env: Env, i: nat, topic: Topic, payload: seq<byte>, pubQos: nat, now: int)
    requires s.Shaped(env) && i < MAX_SUBS && |PublishBytes(ForwardPacket(topic, payload))| <= env.bufSize
    ensures Quiet(s, FanoutOne(s, env, i, topic, payload, pubQos, now))
  {
    hide PublishBytes, Send, Enqueue, Transmit, TopicMatch.Scan;
    if Wanted(s, i, topic) {
      var ci, n := s.subs[i].client, |PublishBytes(ForwardPacket(topic, payload))|;
      var (s1, j) := Enqueue(s, env, ci, topic, payload, false, now);
      EnqueueIsQuiet(s, env, ci, topic, payload, now);
      SendIsQuiet(s, env, ci, s.sendBuf[..n]);
      SendIsQuiet(s1, env, ci, s1.sendBuf[..n]);
      if j < PER_CLIENT { TransmitIsQuiet(s1, env, ci, j, false); }
    }
  }

  lemma {:induction false} FanoutIsQuiet(s: State, env: Env, i: nat, topic: Topic, payload: seq<byte>, pubQos: nat,
                                         now: int)
    requires s.Shaped(env) && i <= MAX_SUBS && |PublishBytes(ForwardPacket(topic, payload))| <= env.bufSize
    ensures Quiet(s, Fanout(s, env, i, topic, payload, pubQos, now))
    decreases MAX_SUBS - i
  {
    hide PublishBytes, FanoutOne;
    if i < MAX_SUBS {
      TurnIsQuiet(s, env, i, topic, payload, pubQos, now);
      FanoutIsQuiet(FanoutOne(s, env, i, topic, payload, pubQos, now), env, i + 1, topic, payload, pubQos, now);
    }
  }

  lemma PublishIsQuiet(s: State, env: Env, topic: Topic, payload: seq<byte>, pubQos: nat, now: int)
    requires s.Shaped(env)
    ensures Quiet(s, PublishInternal(s, env, topic, payload, pubQos, now))
  {
    hide PublishBytes, Fanout;
    var data := PublishBytes(ForwardPacket(topic, payload));
    if |data| <= env.bufSize {
      FanoutIsQuiet(s.(sendBuf := Overlay(s.sendBuf, data)), env, 0, topic, payload, pubQos, now);
    }
  }

  lemma WalkSlotIsQuiet(s: State, env: Env, ci: nat, j: nat, now: int)
    requires s.Shaped(env) && ci < MAX_CLIENTS && j < PER_CLIENT
    ensures Quiet(s, WalkSlot(s, env, ci, j, now))
  {
    hide Transmit;
    var k := Ix(ci, j);
    var e := s.table.slots[k];
    if e.active && now >= e.nextRetry && e.retries < RETRY_MAX {
      TransmitIsQuiet(s.(table := s.table.(slots := s.table.slots[k := Later(e, now)])), env, ci, j, true);
    }
  }

  lemma {:induction false} WalkRowIsQuiet(s: State, env: Env, ci: nat, j: nat, now: int)
    requires s.Shaped(env) && ci < MAX_CLIENTS && j <= PER_CLIENT
    ensures Quiet(s, WalkRow(s, env, ci, j, now))
    decreases PER_CLIENT - j
  {
    hide WalkSlot;
    if j < PER_CLIENT {
      WalkSlotIsQuiet(s, env, ci, j, now);
      WalkRowIsQuiet(WalkSlot(s, env, ci, j, now), env, ci, j + 1, now);
    }
  }

  lemma {:induction false} WalkIsQuiet(s: State, env: Env, ci: nat, now: int)
    requires s.Shaped(env) && ci <= MAX_CLIENTS
    ensures Quiet(s, Walk(s, env, ci, now))
    decreases MAX_CLIENTS - ci
  {
    hide WalkRow;
    if ci < MAX_CLIENTS {
      WalkRowIsQuiet(s, env, ci, 0, now);
      WalkIsQuiet(if Live(s.clients[ci]) then WalkRow(s, env, ci, 0, now) else s, env, ci + 1, now);
    }
  }

  lemma CheckIsQuiet(s: State, env: Env, now: int)
    requires s.Shaped(env)
    ensures Quiet(s, KeepAlive(s, env, 0, now))
  {
    KeepAliveMeaning(s, env, 0, now);
    hide KeepAlive;
  }

  // ---------- what is heard ----------

  /** The packets that count as a sign of life: SUBSCRIBE and UNSUBSCRIBE that parse, PUBLISH that parses and is not of
      QoS 2, PUBACK and PINGREQ. */
  predicate Speaks(p: Packet)
    requires Framed(p)
  {
    match p
    case SubscribePacket(req) => req.Some?
    case UnsubscribePacket(req) => req.Some?
    case PublishPacket(data) => ParsePublish(data).Some? && ParsePublish(data).value.qos != 2
    case PubackPacket(_) => true
    case PingPacket => true
    case _ => false
  }

  /** Only client ci, if any, was heard: now. */
  ghost predicate OnlyHeard(s: State, t: State, ci: nat, heard: bool, now: int) {
    && |t.clients| == |s.clients|
    && forall i | 0 <= i < |s.clients| ::
         && t.clients[i].lastActivity == (if i == ci && heard then now else s.clients[i].lastActivity)
         && t.clients[i].keepAlive == s.clients[i].keepAlive
         && (t.clients[i].connected ==> s.clients[i].connected)
  }

  lemma TouchedIsHeard(s: State, t: State, ci: nat, now: int)
    requires Quiet(s, t) && ci < |s.clients|
    ensures OnlyHeard(s, t.(clients := Touched(t.clients, ci, now)), ci, true, now)
  {}

  lemma QuietIsUnheard(s: State, t: State, ci: nat, now: int)
    requires Quiet(s, t)
    ensures OnlyHeard(s, t, ci, false, now)
  {}

  lemma DisconnectIsQuiet(s: State, env: Env, ci: nat)
    requires s.Shaped(env) && ci < MAX_CLIENTS
    ensures Quiet(s, Disconnect(s, ci))
  {}

  lemma PublisherIsHeard(s: State, env: Env, ci: nat, pkt: seq<byte>, now: int)
    requires s.Shaped(env) && ci < MAX_CLIENTS && BodyInside(pkt) && s.clients[ci].authenticated
    ensures OnlyHeard(s, HandlePublish(s, env, ci, pkt, now), ci,
                      ParsePublish(pkt).Some? && ParsePublish(pkt).value.qos != 2, now)
  {
    hide ParsePublish, PublishInternal, Send;
    if ParsePublish(pkt).Some? && ParsePublish(pkt).value.qos != 2 {
      var p := ParsePublish(pkt).value;
      var u := PublishInternal(Counted(s, ci), env, p.topic, p.payload, p.qos, now);
      PublishIsQuiet(Counted(s, ci), env, p.topic, p.payload, p.qos, now);
      SendIsQuiet(u, env, ci, AckBytes(0x40, p.pid));
    }
  }

  lemma SubscriberIsHeard(s: State, env: Env, ci: nat, req: Option<SubscribeRequest>, ms: seq<Message>, now: int)
    requires s.Shaped(env) && ci < MAX_CLIENTS && Deliverable(ms) && s.clients[ci].authenticated
    ensures OnlyHeard(s, Subscribe(s, env, ci, req, ms, now), ci, req.Some?, now)
  {
    hide SubscribeAll, DeliverAll, Send, Disconnect, SubackBytes;
    if req.Some? {
      var (subs, codes) := SubscribeAll(s.subs, ci, req.value.topics);
      var s0, data := s.(subs := subs), SubackBytes(req.value.pid, codes);
      SendIsQuiet(s0, env, ci, data);
      DeliveriesAreQuiet(Send(s0, env, ci, data), env, ci, req.value.topics, codes, ms);
    } else {
      DisconnectIsQuiet(s, env, ci);
    }
  }

  lemma UnsubscriberIsHeard(s: State, env: Env, ci: nat, req: Option<UnsubscribeRequest>, now: int)
    requires s.Shaped(env) && ci < MAX_CLIENTS
    ensures OnlyHeard(s, Unsubscribe(s, env, ci, req, now), ci, req.Some?, now)
  {
    hide UnsubscribeAll, Send, Disconnect, AckBytes;
    if req.Some? {
      SendIsQuiet(s.(subs := UnsubscribeAll(s.subs, ci, req.value.filters)), env, ci, AckBytes(0xB0, req.value.pid));
    } else {
      DisconnectIsQuiet(s, env, ci);
    }
  }

  /** A packet other than CONNECT notes the time of its sender if it is a sign of life of an admitted client, and
      nobody else's. */
  lemma HeardMeaning(s: State, env: Env, ci: nat, p: Packet, ms: seq<Message>, now: int)
    requires s.Shaped(env) && ci < MAX_CLIENTS && Framed(p) && Deliverable(ms) && !p.ConnectPacket?
    requires s.clients[ci].connected == s.clients[ci].authenticated
    ensures OnlyHeard(s, Dispatch(s, env, ci, p, ms, now), ci, s.clients[ci].connected && Speaks(p), now)
  {
    hide HandlePublish, Subscribe, Unsubscribe, Disconnect, Send, ParsePublish, Awaiting, ParseAck;
    DisconnectIsQuiet(s, env, ci);
    if s.clients[ci].connected {
      match p
      case PublishPacket(data) => PublisherIsHeard(s, env, ci, data, now);
      case SubscribePacket(req) => SubscriberIsHeard(s, env, ci, req, ms, now);
      case UnsubscribePacket(req) => UnsubscriberIsHeard(s, env, ci, req, now);
      case PubackPacket(data) =>
      case PingPacket => SendIsQuiet(s, env, ci, [0xD0, 0]);
      case _ =>
    }
  }

  // ---------- one step ----------

  ghost predicate Greets(step: Step, ci: nat) {
    step.Received? && step.client == ci && step.packet.ConnectPacket?
  }

  /** The step is a sign of life of client ci. */
  ghost predicate Hears(s: State, step: Step, ci: nat)
    requires ci < |s.clients|
  {
    step.Received? && step.client == ci && s.clients[ci].connected && Framed(step.packet) && Speaks(step.packet)
  }

  /** What any step but its own CONNECT does to the times of a client: connected, it keeps its keep-alive, and its last
      sign of life is this step if it is one; not connected, it stays so. */
  ghost predicate Goes(c: Client, d: Client, heard: bool, now: int) {
    && (!c.connected ==> !d.connected)
    && (c.connected ==> d.keepAlive == c.keepAlive && d.lastActivity == if heard then now else c.lastActivity)
  }

  lemma StepGoes(s: State, env: Env, step: Step, now: int, ci: nat)
    requires Inv(s, env) && ci < MAX_CLIENTS && Possible(s, env, step, now) && !Greets(step, ci)
    ensures Goes(s.clients[ci], Take(s, env, step, now).clients[ci], Hears(s, step, ci), now)
  {
    assert s.Shaped(env) && ClientsOk(s.clients);
    hide Inv, Dispatch, PublishInternal, KeepAlive, Disconnect, Walk, Accept, ClientsOk, Hears, Goes, Quiet;
    match step {
      case Accepted(fd) => AcceptGoes(s, env, fd, now, ci);
      case Received(i, p, ms) => ReceivedGoes(s, env, i, p, ms, now, ci);
      case Lost(i) =>
        DisconnectIsQuiet(s, env, i);
        QuietGoes(s, Disconnect(s, i), step, now, ci);
      case Local(topic, payload, qos, _) =>
        PublishIsQuiet(s, env, topic, payload, qos, now);
        QuietGoes(s, PublishInternal(s, env, topic, payload, qos, now), step, now, ci);
      case KeepAliveCheck =>
        CheckIsQuiet(s, env, now);
        QuietGoes(s, KeepAlive(s, env, 0, now), step, now, ci);
      case RetryWalk =>
        WalkIsQuiet(s, env, 0, now);
        QuietGoes(s, Walk(s, env, 0, now), step, now, ci);
      case ExpiryCheck =>
        NothingIsQuiet(s);
        QuietGoes(s, s, step, now, ci);
    }
  }

  lemma NothingIsQuiet(s: State)
    ensures Quiet(s, s)
  {}

  lemma QuietGoes(s: State, t: State, step: Step, now: int, ci: nat)
    requires Quiet(s, t) && ci < |s.clients| && !step.Received?
    ensures Goes(s.clients[ci], t.clients[ci], Hears(s, step, ci), now)
  {}

  lemma ReceivedGoes(s: State, env: Env, i: nat, p: Packet, ms: seq<Message>, now: int, ci: nat)
    requires s.Shaped(env) && i < MAX_CLIENTS && ci < MAX_CLIENTS && Framed(p) && Deliverable(ms)
    requires ClientsOk(s.clients) && !Greets(Received(i, p, ms), ci)
    ensures Goes(s.clients[ci], Dispatch(s, env, i, p, ms, now).clients[ci], Hears(s, Received(i, p, ms), ci), now)
  {
    hide Dispatch, Speaks;
    if p.ConnectPacket? {
      OthersConnect(s, env, i, p.connect, ms, now, ci);
    } else {
      HeardMeaning(s, env, i, p, ms, now);
    }
  }

  lemma AcceptGoes(s: State, env: Env, fd: nat, now: int, ci: nat)
    requires s.Shaped(env) && ci < MAX_CLIENTS && ClientsOk(s.clients)
    ensures Goes(s.clients[ci], Accept(s, fd, now).clients[ci], Hears(s, Accepted(fd), ci), now)
  {}

  /** The CONNECT of another slot may take this one's id, but does not touch its times. */
  lemma OthersConnect(s: State, env: Env, i: nat, req: ConnectRequest, ms: seq<Message>, now: int, ci: nat)
    requires s.Shaped(env) && i < MAX_CLIENTS && ci < MAX_CLIENTS && i != ci && Deliverable(ms)
    ensures Goes(s.clients[ci], Dispatch(s, env, i, ConnectPacket(req), ms, now).clients[ci], false, now)
  {
    hide CString;
  }

  /** Its own accepted CONNECT, whose CONNACK goes out, sets both. */
  lemma OwnConnect(s: State, env: Env, ci: nat, req: ConnectRequest, ms: seq<Message>, now: int)
    requires s.Shaped(env) && ci < MAX_CLIENTS && Deliverable(ms)
    ensures var c := Dispatch(s, env, ci, ConnectPacket(req), ms, now).clients[ci];
            && (req.rc == 0 && c.connected ==> c.keepAlive == req.keepAlive && c.lastActivity == now)
            && (req.rc != 0 && s.clients[ci].fd >= 0 ==> !c.connected)
  {
    hide CString;
  }

  // ---------- over runs ----------

  /** The state before the j-th event of a run. */
  ghost function Before(s0: State, env: Env, events: seq<Event>, j: nat): (r: State)
    requires s0.Shaped(env) && j <= |events|
    ensures r.Shaped(env)
  {
    Run(s0, env, events[..j])
  }

  lemma OneStep(s0: State, env: Env, events: seq<Event>, j: nat)
    requires s0.Shaped(env) && j < |events|
    ensures var s, (step, now) := Before(s0, env, events, j), events[j];
            Before(s0, env, events, j + 1) == if Possible(s, env, step, now) then Take(s, env, step, now) else s
  {
    hide Possible, Take;
    assert events[..j + 1][..j] == events[..j];
  }

  lemma BeforeKeeps(s0: State, env: Env, events: seq<Event>, j: nat)
    requires Initial(s0, env) && j <= |events|
    ensures Inv(Before(s0, env, events, j), env)
  {
    RunKeeps(s0, env, events[..j]);
  }

  /** The j-th event takes place and is a sign of life of client ci: a packet that counts, or its CONNECT. */
  ghost predicate HeardAt(s0: State, env: Env, events: seq<Event>, ci: nat, j: nat)
    requires s0.Shaped(env) && ci < MAX_CLIENTS && j < |events|
  {
    var s, (step, now) := Before(s0, env, events, j), events[j];
    Possible(s, env, step, now) && (Greets(step, ci) || Hears(s, step, ci))
  }

  /** The session that begins with the CONNECT that is the a-th event, as far as the e-th. */
  ghost predicate Session(s0: State, env: Env, events: seq<Event>, ci: nat, a: nat, e: nat, keepAlive: nat) {
    && Initial(s0, env) && ci < MAX_CLIENTS && a < e <= |events|
    && Greets(events[a].0, ci) && events[a].0.packet.connect.rc == 0
    && events[a].0.packet.connect.keepAlive == keepAlive
    && Possible(Before(s0, env, events, a), env, events[a].0, events[a].1)
    && forall j | a < j < e :: !Greets(events[j].0, ci)
  }

  /** Time does not pass a possible event backwards. */
  lemma {:induction false} ClockPasses(s0: State, env: Env, events: seq<Event>, j: nat, e: nat)
    requires s0.Shaped(env) && j < e <= |events|
    requires Possible(Before(s0, env, events, j), env, events[j].0, events[j].1)
    ensures events[j].1 <= Before(s0, env, events, e).clock
    decreases e
  {
    OneStep(s0, env, events, e - 1);
    hide Before, Take;
    if j < e - 1 { ClockPasses(s0, env, events, j, e - 1); }
  }

  /** The last of some signs of life was at this time. */
  ghost predicate LastHeard(s0: State, env: Env, events: seq<Event>, ci: nat, a: nat, e: nat, time: int)
    requires s0.Shaped(env) && ci < MAX_CLIENTS && e <= |events|
  {
    && (exists j: nat | a <= j < e :: HeardAt(s0, env, events, ci, j) && events[j].1 == time)
    && (forall j: nat | a <= j < e :: HeardAt(s0, env, events, ci, j) ==> events[j].1 <= time)
  }

  /** While the session lasts, the client's slot has its keep-alive and the time of its last sign of life. */
  lemma {:induction false} SessionKeeps(s0: State, env: Env, events: seq<Event>, ci: nat, a: nat, e: nat,
                                        keepAlive: nat)
    requires Session(s0, env, events, ci, a, e, keepAlive)
    ensures var c := Before(s0, env, events, e).clients[ci];
            c.connected ==> c.keepAlive == keepAlive && LastHeard(s0, env, events, ci, a, e, c.lastActivity)
    decreases e
  {
    if e - 1 == a {
      SessionBegins(s0, env, events, ci, a, keepAlive);
    } else {
      SessionIsShorter(s0, env, events, ci, a, e, keepAlive);
      hide LastHeard, Session;
      SessionKeeps(s0, env, events, ci, a, e - 1, keepAlive);
      EventGoes(s0, env, events, ci, e - 1);
      assert s0.Shaped(env);
      hide *;
      SessionGoesOn(s0, env, events, ci, a, e, keepAlive);
    }
  }

  lemma SessionGoesOn(s0: State, env: Env, events: seq<Event>, ci: nat, a: nat, e: nat, keepAlive: nat)
    requires s0.Shaped(env) && ci < MAX_CLIENTS && a < e - 1 && e <= |events|
    requires var c, d := Before(s0, env, events, e - 1).clients[ci], Before(s0, env, events, e).clients[ci];
             && Goes(c, d, HeardAt(s0, env, events, ci, e - 1), events[e - 1].1)
             && (c.connected ==> c.keepAlive == keepAlive && LastHeard(s0, env, events, ci, a, e - 1, c.lastActivity))
    ensures var d := Before(s0, env, events, e).clients[ci];
            d.connected ==> d.keepAlive == keepAlive && LastHeard(s0, env, events, ci, a, e, d.lastActivity)
  {
    hide Before, HeardAt, LastHeard;
    if Before(s0, env, events, e).clients[ci].connected {
      OneMoreEvent(s0, env, events, ci, a, e, Before(s0, env, events, e - 1).clients[ci].lastActivity);
    }
  }

  lemma SessionIsShorter(s0: State, env: Env, events: seq<Event>, ci: nat, a: nat, e: nat, keepAlive: nat)
    requires Session(s0, env, events, ci, a, e, keepAlive) && a < e - 1
    ensures Session(s0, env, events, ci, a, e - 1, keepAlive) && Initial(s0, env) && !Greets(events[e - 1].0, ci)
  {}

  lemma SessionBegins(s0: State, env: Env, events: seq<Event>, ci: nat, a: nat, keepAlive: nat)
    requires Session(s0, env, events, ci, a, a + 1, keepAlive)
    ensures var c := Before(s0, env, events, a + 1).clients[ci];
            c.connected ==> c.keepAlive == keepAlive && LastHeard(s0, env, events, ci, a, a + 1, c.lastActivity)
  {
    var s, step, now := Before(s0, env, events, a), events[a].0, events[a].1;
    OneStep(s0, env, events, a);
    OwnConnect(s, env, ci, step.packet.connect, step.retained, now);
    assert HeardAt(s0, env, events, ci, a);
    hide Before, Initial, HeardAt, Dispatch;
  }

  /** What one event of a run does to the times of a client that does not send CONNECT in it. */
  lemma EventGoes(s0: State, env: Env, events: seq<Event>, ci: nat, j: nat)
    requires Initial(s0, env) && ci < MAX_CLIENTS && j < |events| && !Greets(events[j].0, ci)
    ensures Goes(Before(s0, env, events, j).clients[ci], Before(s0, env, events, j + 1).clients[ci],
                 HeardAt(s0, env, events, ci, j), events[j].1)
  {
    var s, step, now := Before(s0, env, events, j), events[j].0, events[j].1;
    OneStep(s0, env, events, j);
    BeforeKeeps(s0, env, events, j);
    hide Before, Initial, Inv, Take;
    if Possible(s, env, step, now) {
      hide Possible, Hears;
      StepGoes(s, env, step, now, ci);
    }
  }

  /** Signs of life come in the order of their times. */
  lemma HeardEarlier(s0: State, env: Env, events: seq<Event>, ci: nat, j: nat, e: nat)
    requires s0.Shaped(env) && ci < MAX_CLIENTS && j < e < |events|
    requires HeardAt(s0, env, events, ci, j) && HeardAt(s0, env, events, ci, e)
    ensures events[j].1 <= events[e].1
  {
    hide Before, Hears;
    ClockPasses(s0, env, events, j, e);
  }

  lemma OneMoreEvent(s0: State, env: Env, events: seq<Event>, ci: nat, a: nat, e: nat, time: int)
    requires s0.Shaped(env) && ci < MAX_CLIENTS && a < e - 1 && e <= |events|
    requires LastHeard(s0, env, events, ci, a, e - 1, time)
    ensures LastHeard(s0, env, events, ci, a, e, if HeardAt(s0, env, events, ci, e - 1) then events[e - 1].1 else time)
  {
    hide HeardAt;
    if HeardAt(s0, env, events, ci, e - 1) {
      forall j: nat | a <= j < e && HeardAt(s0, env, events, ci, j) ensures events[j].1 <= events[e - 1].1 {
        if j < e - 1 { HeardEarlier(s0, env, events, ci, j, e - 1); }
      }
    } else {
      var j: nat :| a <= j < e - 1 && HeardAt(s0, env, events, ci, j) && events[j].1 == time;
      assert j < e;
    }
  }

  /** The client was heard within its keep-alive and ten seconds more before the e-th event. */
  ghost predicate HeardInTime(s0: State, env: Env, events: seq<Event>, ci: nat, a: nat, e: nat, keepAlive: nat)
    requires s0.Shaped(env) && ci < MAX_CLIENTS && e < |events|
  {
    exists j: nat | a <= j < e ::
      HeardAt(s0, env, events, ci, j) && events[e].1 - events[j].1 <= (keepAlive + 10) * 1000
  }

  lemma InTimeMeaning(s0: State, env: Env, events: seq<Event>, ci: nat, a: nat, e: nat, keepAlive: nat, time: int)
    requires s0.Shaped(env) && ci < MAX_CLIENTS && e < |events| && LastHeard(s0, env, events, ci, a, e, time)
    ensures HeardInTime(s0, env, events, ci, a, e, keepAlive) <==> events[e].1 - time <= (keepAlive + 10) * 1000
  {
    hide HeardAt;
  }

  /** A keep-alive check takes from a client's slot exactly a connection that was silent too long. */
  lemma CheckMeaning(s: State, env: Env, now: int, ci: nat)
    requires s.Shaped(env) && ci < MAX_CLIENTS && Possible(s, env, KeepAliveCheck, now)
    ensures var c, d := s.clients[ci], Take(s, env, KeepAliveCheck, now).clients[ci];
            if c.fd >= 0 && c.connected && c.keepAlive > 0 && now - c.lastActivity > (c.keepAlive + 10) * 1000
            then !d.connected else d == c
  {
    KeepAliveMeaning(s, env, 0, now);
    hide KeepAlive;
  }

  /** A keep-alive check loses the client of a session exactly when it has a keep-alive and no sign of life of the
      session came within that and ten seconds more; otherwise it leaves the client as it is. */
  lemma TimedOutExactlyWhenSilent(s0: State, env: Env, events: seq<Event>, ci: nat, a: nat, e: nat, keepAlive: nat)
    requires Session(s0, env, events, ci, a, e, keepAlive) && e < |events| && events[e].0 == KeepAliveCheck
    requires Possible(Before(s0, env, events, e), env, KeepAliveCheck, events[e].1)
    requires Before(s0, env, events, e).clients[ci].connected
    ensures var c, d := Before(s0, env, events, e).clients[ci], Before(s0, env, events, e + 1).clients[ci];
            && (!d.connected <==> keepAlive > 0 && !HeardInTime(s0, env, events, ci, a, e, keepAlive))
            && (d.connected ==> d == c)
  {
    var s := Before(s0, env, events, e);
    SessionKeeps(s0, env, events, ci, a, e, keepAlive);
    OneStep(s0, env, events, e);
    BeforeKeeps(s0, env, events, e);
    assert s.clients[ci].fd >= 0;
    CheckMeaning(s, env, events[e].1, ci);
    hide Before, Inv, Take, LastHeard, HeardInTime, Session, Possible;
    InTimeMeaning(s0, env, events, ci, a, e, keepAlive, s.clients[ci].lastActivity);
  }

  /** So a client that lets itself be heard before every check no longer ago than that is never lost to one. */
  lemma TalkingClientIsNeverTimedOut(s0: State, env: Env, events: seq<Event>, ci: nat, a: nat, keepAlive: nat)
    requires Session(s0, env, events, ci, a, |events|, keepAlive)
    requires forall e: nat | a < e < |events| && events[e].0 == KeepAliveCheck ::
               HeardInTime(s0, env, events, ci, a, e, keepAlive)
    ensures forall e: nat | a < e < |events| && events[e].0 == KeepAliveCheck ::
              Before(s0, env, events, e + 1).clients[ci] == Before(s0, env, events, e).clients[ci]
  {
    forall e: nat | a < e < |events| && events[e].0 == KeepAliveCheck
      ensures Before(s0, env, events, e + 1).clients[ci] == Before(s0, env, events, e).clients[ci]
    {
      var s, now := Before(s0, env, events, e), events[e].1;
      OneStep(s0, env, events, e);
      hide Before, Take, HeardInTime, Initial;
      if Possible(s, env, KeepAliveCheck, now) {
        if s.clients[ci].connected {
          TimedOutExactlyWhenSilent(s0, env, events, ci, a, e, keepAlive);
        } else {
          CheckMeaning(s, env, now, ci);
        }
      }
    }
  }
}
