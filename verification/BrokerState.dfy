/** The broker's tables as one value, and the effect of every operation on it
    (main/mqtt_broker.c). Class Broker carries the operations out on arrays and is proved equal
    to these functions; the promises are proved about them.

    The environment is two oracles: `net(n)` says whether the n-th call of send() gets its data
    out, `mem(n)` whether the n-th allocation succeeds. Every theorem holds for all of them. */
module BrokerState {
  import opened Bytes
  import opened Wire
  import opened TopicMatch
  import opened Retained

  const MAX_CLIENTS := 100
  const MAX_SUBS := 2048
  const PER_CLIENT := 20
  const SLOTS := MAX_CLIENTS * PER_CLIENT
  const INFLIGHT_MAX := 0x20_0000
  const RETRY_INITIAL := 15000
  const RETRY_CAP := 60000
  const RETRY_MAX := 5
  const GRACE_SEC := 10
  const FAILURE: byte := 0x80
  const LOCAL_TOPIC := 128  // the longest topic any publisher can hand over
  const LOCAL_PAYLOAD := 0x1_0000  // no payload is larger than a receive buffer

  datatype Client = Client(fd: int, id: seq<byte>, keepAlive: nat, lastActivity: int, connectedAt: int,
                           published: nat, nextPid: u16, connected: bool, authenticated: bool)

  datatype Sub = Sub(active: bool, client: nat, filter: seq<byte>, qos: nat)

  datatype Slot = Slot(active: bool, retries: nat, retain: bool, pid: u16, nextRetry: int,
                       topic: Topic, payload: seq<byte>)

  // ---------- history, kept only to state what the broker promises ----------

  datatype Why = Acked | Abandoned(at: int) | TooLarge | Dropped

  /** An in-flight message: when it was enqueued and the packets transmitted for it so far. */
  datatype Record = Record(enqueuedAt: int, sent: seq<seq<byte>>)

  datatype Closed = Closed(why: Why, slot: Slot, record: Record)

  /** The in-flight slots with their byte counter, and the history of their messages. */
  datatype Table = Table(slots: seq<Slot>, bytes: nat, records: seq<Record>, closed: seq<Closed>, enqueued: nat)
  {
    ghost predicate Shaped() {
      |slots| == |records| == SLOTS
    }
  }

  datatype Sent = Sent(client: nat, data: seq<byte>)

  // ---------- the state ----------

  /** The buffer size, the oracles and, when it is known, the longest time between two walks of
      the in-flight table. */
  datatype Env = Env(bufSize: nat, net: nat -> bool, mem: nat -> bool, gap: Option<nat>)

  /** `log` lists what was handed to the network; `reconnects` counts CONNECTs accepted on a
      connected slot; `sends` and `allocs` are the positions in the oracles; `clock` is the time
      of the last step and `lastWalk` that of the last walk. */
  datatype State = State(clients: seq<Client>, subs: seq<Sub>, table: Table, numConnected: int, dropped: nat,
                         capSkips: nat, sendBuf: seq<byte>, sends: nat, allocs: nat, log: seq<Sent>, reconnects: nat,
                         clock: int, lastWalk: int)
  {
    ghost predicate Shaped(env: Env) {
      |clients| == MAX_CLIENTS && |subs| == MAX_SUBS && table.Shaped() && |sendBuf| == env.bufSize
    }

    /** Nothing inside a step touches the times, and only CONNECT can count a reconnect. */
    ghost predicate Within(s: State) {
      clock == s.clock && lastWalk == s.lastWalk && reconnects == s.reconnects
    }
  }

  const NO_CLIENT := Client(-1, [], 0, 0, 0, 0, 0, false, false)
  const NO_SUB := Sub(false, 0, [], 0)
  const NO_SLOT := Slot(false, 0, false, 0, 0, [], [])

  function Ix(ci: nat, j: nat): nat {
    ci * PER_CLIENT + j
  }

  function Owner(k: nat): nat {
    k / PER_CLIENT
  }

  predicate Live(c: Client) {
    c.fd >= 0 && c.connected
  }

  function SlotBytes(e: Slot): nat {
    |e.topic| + |e.payload|
  }

  // ---------- in-flight slots ----------

  /** inflight_free_slot. */
  ghost function Free(t: Table, k: nat, why: Why): (r: Table)
    requires t.Shaped() && k < SLOTS
    ensures r.Shaped() && r.records == t.records && r.enqueued == t.enqueued
  {
    var e := t.slots[k];
    if !e.active then t
    else
      t.(slots := t.slots[k := Freed(e)], bytes := if t.bytes >= SlotBytes(e) then t.bytes - SlotBytes(e) else 0,
         closed := t.closed + [Closed(why, e, t.records[k])])
  }

  function Freed(e: Slot): Slot {
    e.(active := false, topic := [], payload := [])
  }

  /** inflight_free_all_for_client, from slot j of the client on. */
  ghost function FreeAll(t: Table, ci: nat, j: nat): (r: Table)
    requires t.Shaped() && ci < MAX_CLIENTS && j <= PER_CLIENT
    ensures r.Shaped() && r.records == t.records && r.enqueued == t.enqueued
    decreases PER_CLIENT - j
  {
    if j == PER_CLIENT then t else FreeAll(Free(t, Ix(ci, j), Dropped), ci, j + 1)
  }

  /** inflight_find_free_slot: the client's first inactive slot at or after j, or PER_CLIENT. */
  function FreeSlot(slots: seq<Slot>, ci: nat, j: nat): (r: nat)
    requires ci < MAX_CLIENTS && j <= PER_CLIENT && |slots| == SLOTS
    ensures j <= r <= PER_CLIENT && (r < PER_CLIENT ==> !slots[Ix(ci, r)].active)
    ensures forall i | j <= i < r :: slots[Ix(ci, i)].active
    decreases PER_CLIENT - j
  {
    if j == PER_CLIENT || !slots[Ix(ci, j)].active then j else FreeSlot(slots, ci, j + 1)
  }

  function NextId(p: u16): u16 {
    if p == 0xFFFF then 1 else p + 1
  }

  predicate Collides(slots: seq<Slot>, ci: nat, p: u16)
    requires ci < MAX_CLIENTS && |slots| == SLOTS
  {
    exists j | 0 <= j < PER_CLIENT :: slots[Ix(ci, j)].active && slots[Ix(ci, j)].pid == p
  }

  /** inflight_next_packet_id: the id found (0 for none) and where the counter is left. */
  function PacketId(slots: seq<Slot>, ci: nat, last: u16, attempts: nat): (u16, u16)
    requires ci < MAX_CLIENTS && |slots| == SLOTS
    decreases attempts
  {
    if attempts == 0 then (0, last)
    else
      var next := NextId(last);
      if Collides(slots, ci, next) then PacketId(slots, ci, next, attempts - 1) else (next, next)
  }

  /** The slot an accepted enqueue fills in. */
  function NewSlot(pid: u16, topic: Topic, payload: seq<byte>, retain: bool, now: int): Slot {
    Slot(true, 0, retain, pid, now + RETRY_INITIAL, topic, payload)
  }

  ghost function Place(t: Table, k: nat, e: Slot, now: int): (r: Table)
    requires t.Shaped() && k < SLOTS
    ensures r.Shaped()
  {
    t.(slots := t.slots[k := e], bytes := t.bytes + SlotBytes(e), records := t.records[k := Record(now, [])],
       enqueued := t.enqueued + 1)
  }

  /** Why inflight_enqueue refuses: the cap, the client's slots or memory. */
  predicate Refuses(s: State, env: Env, ci: nat, size: nat)
    requires |s.table.slots| == SLOTS && ci < MAX_CLIENTS
  {
    s.table.bytes + size > INFLIGHT_MAX || FreeSlot(s.table.slots, ci, 0) == PER_CLIENT || !env.mem(s.allocs)
  }

  /** inflight_enqueue: the new state and the slot, or PER_CLIENT when it refuses. */
  ghost function Enqueue(s: State, env: Env, ci: nat, topic: Topic, payload: seq<byte>, retain: bool,
                         now: int): (r: (State, nat))
    requires s.Shaped(env) && ci < MAX_CLIENTS
    ensures r.0.Shaped(env) && r.1 <= PER_CLIENT && r.0.Within(s)
  {
    if s.table.bytes + |topic| + |payload| > INFLIGHT_MAX then (s.(capSkips := s.capSkips + 1), PER_CLIENT)
    else
      var j := FreeSlot(s.table.slots, ci, 0);
      if j == PER_CLIENT then (s, PER_CLIENT)
      else
        var (pid, last) := PacketId(s.table.slots, ci, s.clients[ci].nextPid, 65535);
        var s1 := s.(clients := s.clients[ci := s.clients[ci].(nextPid := last)]);
        if pid == 0 then (s1, PER_CLIENT)
        else
          var s2 := s1.(allocs := s1.allocs + 1);
          if !env.mem(s.allocs) then (s2, PER_CLIENT)
          else (s2.(table := Place(s.table, Ix(ci, j), NewSlot(pid, topic, payload, retain, now), now)), j)
  }

  // ---------- disconnecting and sending ----------

  function DropSubs(subs: seq<Sub>, ci: nat): (r: seq<Sub>)
    ensures |r| == |subs|
    ensures forall i | 0 <= i < |subs| ::
              r[i] == if subs[i].active && subs[i].client == ci then subs[i].(active := false) else subs[i]
  {
    if subs == [] then []
    else
      [if subs[0].active && subs[0].client == ci then subs[0].(active := false) else subs[0]] + DropSubs(subs[1..], ci)
  }

  function IsUp(c: Client): int {
    if c.connected then 1 else 0
  }

  /** A client slot after its connection is gone. */
  function Dead(c: Client): Client {
    c.(fd := -1, id := [], published := 0, nextPid := 0, connected := false, authenticated := false)
  }

  /** client_disconnect. */
  ghost function Disconnect(s: State, ci: nat): (r: State)
    requires ci < |s.clients| == MAX_CLIENTS && s.table.Shaped()
    ensures |r.clients| == |s.clients| && |r.subs| == |s.subs| && r.table.Shaped() && r.sendBuf == s.sendBuf
    ensures r.Within(s)
  {
    var c := s.clients[ci];
    if c.fd < 0 then s
    else
      s.(clients := s.clients[ci := Dead(c)], subs := DropSubs(s.subs, ci), table := FreeAll(s.table, ci, 0),
         numConnected := s.numConnected - IsUp(c))
  }

  /** client_send: all of the data goes out, or the client is disconnected. */
  ghost function Send(s: State, env: Env, ci: nat, data: seq<byte>): (r: State)
    requires s.Shaped(env) && ci < MAX_CLIENTS
    ensures r.Shaped(env) && r.sendBuf == s.sendBuf && r.Within(s)
  {
    if s.clients[ci].fd < 0 then s
    else if env.net(s.sends) then s.(sends := s.sends + 1, log := s.log + [Sent(ci, data)])
    else Disconnect(s.(sends := s.sends + 1), ci)
  }

  /** A packet built at the front of the shared send buffer. */
  function Overlay(buf: seq<byte>, data: seq<byte>): seq<byte>
    requires |data| <= |buf|
  {
    data + buf[|data|..]
  }

  function SlotPacket(e: Slot, dup: bool): Publish {
    Publish(e.topic, e.payload, 1, e.retain, dup, e.pid)
  }

  /** The record of slot k with one more packet. */
  ghost function Note(t: Table, k: nat, data: seq<byte>): (r: Table)
    requires t.Shaped() && k < SLOTS
    ensures r.Shaped()
  {
    t.(records := t.records[k := t.records[k].(sent := t.records[k].sent + [data])])
  }

  /** inflight_transmit. */
  ghost function Transmit(s: State, env: Env, ci: nat, j: nat, dup: bool): (r: State)
    requires s.Shaped(env) && ci < MAX_CLIENTS && j < PER_CLIENT
    ensures r.Shaped(env) && r.Within(s)
  {
    var k := Ix(ci, j);
    var data := PublishBytes(SlotPacket(s.table.slots[k], dup));
    if |data| > env.bufSize then s.(table := Free(s.table, k, TooLarge))
    else Send(s.(sendBuf := Overlay(s.sendBuf, data), table := Note(s.table, k, data)), env, ci, data)
  }

  // ---------- retry ----------

  function Delay(retries: nat): nat
    requires 1 <= retries <= RETRY_MAX
  {
    var d := if retries == 1 then RETRY_INITIAL
             else if retries == 2 then 2 * RETRY_INITIAL
             else if retries == 3 then 4 * RETRY_INITIAL
             else if retries == 4 then 8 * RETRY_INITIAL
             else 16 * RETRY_INITIAL;
    Min(d, RETRY_CAP)
  }

  /** A due slot, counted once more and put off. */
  function Later(e: Slot, now: int): Slot
    requires e.retries < RETRY_MAX
  {
    e.(retries := e.retries + 1, nextRetry := now + Delay(e.retries + 1))
  }

  /** One iteration of inflight_walk. */
  ghost function WalkSlot(s: State, env: Env, ci: nat, j: nat, now: int): (r: State)
    requires s.Shaped(env) && ci < MAX_CLIENTS && j < PER_CLIENT
    ensures r.Shaped(env) && r.Within(s)
  {
    var k := Ix(ci, j);
    var e := s.table.slots[k];
    if !e.active || now < e.nextRetry then s
    else if e.retries >= RETRY_MAX then s.(dropped := s.dropped + 1, table := Free(s.table, k, Abandoned(now)))
    else Transmit(s.(table := s.table.(slots := s.table.slots[k := Later(e, now)])), env, ci, j, true)
  }

  ghost function WalkRow(s: State, env: Env, ci: nat, j: nat, now: int): (r: State)
    requires s.Shaped(env) && ci < MAX_CLIENTS && j <= PER_CLIENT
    ensures r.Shaped(env) && r.Within(s)
    decreases PER_CLIENT - j
  {
    if j == PER_CLIENT then s else WalkRow(WalkSlot(s, env, ci, j, now), env, ci, j + 1, now)
  }

  /** inflight_walk, from client ci on. */
  ghost function Walk(s: State, env: Env, ci: nat, now: int): (r: State)
    requires s.Shaped(env) && ci <= MAX_CLIENTS
    ensures r.Shaped(env) && r.Within(s)
    decreases MAX_CLIENTS - ci
  {
    if ci == MAX_CLIENTS then s
    else Walk(if Live(s.clients[ci]) then WalkRow(s, env, ci, 0, now) else s, env, ci + 1, now)
  }

  // ---------- connections ----------

  /** find_free_client, or MAX_CLIENTS. */
  function FreeClient(clients: seq<Client>): (r: nat)
    ensures r <= |clients| && (r < |clients| ==> clients[r].fd < 0)
    ensures forall i | 0 <= i < r :: clients[i].fd >= 0
  {
    if clients == [] || clients[0].fd < 0 then 0 else 1 + FreeClient(clients[1..])
  }

  /** The accept branch of the main loop. */
  ghost function Accept(s: State, fd: nat, now: int): (r: State)
    ensures |r.clients| == |s.clients| && r.Within(s)
  {
    var i := FreeClient(s.clients);
    if i == |s.clients| then s
    else
      s.(clients := s.clients[i := s.clients[i].(fd := fd, connected := false, id := [], lastActivity := now,
                                                 connectedAt := 0)])
  }

  /** The first other connected client with this id at or after i, or the table's length. */
  function Namesake(clients: seq<Client>, ci: nat, id: seq<byte>, i: nat): (r: nat)
    requires i <= |clients|
    ensures i <= r <= |clients|
    ensures r < |clients| ==> r != ci && clients[r].connected && clients[r].id == id
    ensures forall j | i <= j < r :: j == ci || !clients[j].connected || clients[j].id != id
    decreases |clients| - i
  {
    if i == |clients| || (i != ci && clients[i].connected && clients[i].id == id) then i
    else Namesake(clients, ci, id, i + 1)
  }

  /** What mqtt_parse_connect and the credential check make of a CONNECT packet. */
  datatype ConnectRequest = ConnectRequest(rc: byte, clientId: seq<byte>, keepAlive: nat)

  /** The accepting half of handle_connect. */
  ghost function Admit(s: State, ci: nat, req: ConnectRequest, now: int): (r: State)
    requires ci < |s.clients| == MAX_CLIENTS && s.table.Shaped()
    ensures |r.clients| == |s.clients| && |r.subs| == |s.subs| && r.table.Shaped() && r.sendBuf == s.sendBuf
    ensures r.clock == s.clock && r.lastWalk == s.lastWalk
    ensures r.reconnects == s.reconnects + if s.clients[ci].connected then 1 else 0
  {
    var id := CString(req.clientId);
    var other := Namesake(s.clients, ci, id, 0);
    var s1 := if other < MAX_CLIENTS then Disconnect(s, other) else s;
    Establish(s1, ci, s1.clients[ci].(id := id, keepAlive := req.keepAlive, connected := true, authenticated := true,
                                      lastActivity := now, connectedAt := now))
  }

  /** A slot becomes a connected client, which counts whether it was one already or not. */
  function Establish(s: State, ci: nat, c: Client): (r: State)
    requires ci < |s.clients|
  {
    s.(clients := s.clients[ci := c], numConnected := s.numConnected + 1,
       reconnects := s.reconnects + if s.clients[ci].connected then 1 else 0)
  }

  /** handle_connect. */
  ghost function Connect(s: State, env: Env, ci: nat, req: ConnectRequest, now: int): (r: State)
    requires s.Shaped(env) && ci < MAX_CLIENTS
    ensures r.Shaped(env) && r.clock == s.clock && r.lastWalk == s.lastWalk
    ensures r.reconnects == s.reconnects + if req.rc == 0 && s.clients[ci].connected then 1 else 0
  {
    var s1 := if req.rc == 0 then Admit(s, ci, req, now) else s;
    var s2 := Send(s1, env, ci, [0x20, 2, 0, req.rc]);
    if req.rc != 0 then Disconnect(s2, ci) else s2
  }

  function Touched(clients: seq<Client>, ci: nat, now: int): seq<Client>
    requires ci < |clients|
  {
    clients[ci := clients[ci].(lastActivity := now)]
  }

  // ---------- subscriptions ----------

  predicate Keyed(sub: Sub, ci: nat, filter: seq<byte>) {
    sub.active && sub.client == ci && sub.filter == filter
  }

  /** The first subscription with this key, or the pool's size. */
  function FindSub(subs: seq<Sub>, ci: nat, filter: seq<byte>): (r: nat)
    ensures r <= |subs| && (r < |subs| ==> Keyed(subs[r], ci, filter))
    ensures forall i | 0 <= i < r :: !Keyed(subs[i], ci, filter)
  {
    if subs == [] || Keyed(subs[0], ci, filter) then 0 else 1 + FindSub(subs[1..], ci, filter)
  }

  function FreeSub(subs: seq<Sub>): (r: nat)
    ensures r <= |subs| && (r < |subs| ==> !subs[r].active)
    ensures forall i | 0 <= i < r :: subs[i].active
  {
    if subs == [] || !subs[0].active then 0 else 1 + FreeSub(subs[1..])
  }

  datatype TopicRequest = TopicRequest(filter: seq<byte>, qos: nat)

  function Granted(qos: nat): nat {
    Min(qos, 1)
  }

  /** One topic of a SUBSCRIBE: the new pool and the return code. */
  function SubscribeOne(subs: seq<Sub>, ci: nat, t: TopicRequest): (r: (seq<Sub>, byte))
    ensures |r.0| == |subs|
  {
    var i := FindSub(subs, ci, t.filter);
    if i < |subs| then (subs[i := subs[i].(qos := Granted(t.qos))], Granted(t.qos))
    else
      var j := FreeSub(subs);
      if j == |subs| then (subs, FAILURE) else (subs[j := Sub(true, ci, t.filter, Granted(t.qos))], Granted(t.qos))
  }

  function SubscribeAll(subs: seq<Sub>, ci: nat, ts: seq<TopicRequest>): (r: (seq<Sub>, seq<byte>))
    ensures |r.0| == |subs| && |r.1| == |ts|
  {
    if ts == [] then (subs, [])
    else
      var (before, codes) := SubscribeAll(subs, ci, ts[..|ts| - 1]);
      var (after, code) := SubscribeOne(before, ci, ts[|ts| - 1]);
      (after, codes + [code])
  }

  function UnsubscribeOne(subs: seq<Sub>, ci: nat, filter: seq<byte>): (r: seq<Sub>)
    ensures |r| == |subs|
  {
    var i := FindSub(subs, ci, filter);
    if i < |subs| then subs[i := subs[i].(active := false)] else subs
  }

  function UnsubscribeAll(subs: seq<Sub>, ci: nat, filters: seq<seq<byte>>): (r: seq<Sub>)
    ensures |r| == |subs|
  {
    if filters == [] then subs
    else UnsubscribeOne(UnsubscribeAll(subs, ci, filters[..|filters| - 1]), ci, filters[|filters| - 1])
  }

  function RetainedPacket(m: Message): Publish
    requires |m.topic| < 0x1_0000
  {
    Publish(m.topic, m.payload, 0, true, false, 0)
  }

  /** Retained messages whose topics a parser or the local queue let through. */
  ghost predicate Deliverable(ms: seq<Message>) {
    forall m | m in ms :: |m.topic| <= LOCAL_TOPIC && |m.payload| <= LOCAL_PAYLOAD
  }

  /** retain_deliver, walking the store's list. */
  ghost function RetainDeliver(s: State, env: Env, ci: nat, filter: seq<byte>, ms: seq<Message>): (r: State)
    requires s.Shaped(env) && ci < MAX_CLIENTS && Deliverable(ms)
    ensures r.Shaped(env) && r.Within(s)
    decreases |ms|
  {
    if ms == [] then s
    else
      var data := PublishBytes(RetainedPacket(ms[0]));
      var s1 :=
        if !Scan(filter, ms[0].topic, true) || |data| > env.bufSize then s
        else
          var s0 := s.(sendBuf := Overlay(s.sendBuf, data));
          if Live(s.clients[ci]) then Send(s0, env, ci, data) else s0;
      RetainDeliver(s1, env, ci, filter, ms[1..])
  }

  ghost function DeliverAll(s: State, env: Env, ci: nat, ts: seq<TopicRequest>, codes: seq<byte>,
                            ms: seq<Message>): (r: State)
    requires s.Shaped(env) && ci < MAX_CLIENTS && |ts| == |codes| && Deliverable(ms)
    ensures r.Shaped(env) && r.Within(s)
    decreases |ts|
  {
    if ts == [] then s
    else
      DeliverAll(if codes[0] != FAILURE then RetainDeliver(s, env, ci, ts[0].filter, ms) else s,
                 env, ci, ts[1..], codes[1..], ms)
  }

  datatype SubscribeRequest = SubscribeRequest(pid: u16, topics: seq<TopicRequest>)

  function SubackBytes(pid: u16, codes: seq<byte>): seq<byte> {
    [0x90] + EncodeLength(2 + |codes|) + U16Bytes(pid) + codes
  }

  /** handle_subscribe; `req` is None for a packet that does not parse. */
  ghost function Subscribe(s: State, env: Env, ci: nat, req: Option<SubscribeRequest>, ms: seq<Message>,
                           now: int): (r: State)
    requires s.Shaped(env) && ci < MAX_CLIENTS && Deliverable(ms)
    ensures r.Shaped(env) && r.Within(s)
  {
    if !s.clients[ci].authenticated || req.None? then Disconnect(s, ci)
    else
      var (subs, codes) := SubscribeAll(s.subs, ci, req.value.topics);
      var s1 := Send(s.(subs := subs), env, ci, SubackBytes(req.value.pid, codes));
      var s2 := DeliverAll(s1, env, ci, req.value.topics, codes, ms);
      s2.(clients := Touched(s2.clients, ci, now))
  }

  datatype UnsubscribeRequest = UnsubscribeRequest(pid: u16, filters: seq<seq<byte>>)

  /** handle_unsubscribe. */
  ghost function Unsubscribe(s: State, env: Env, ci: nat, req: Option<UnsubscribeRequest>, now: int): (r: State)
    requires s.Shaped(env) && ci < MAX_CLIENTS
    ensures r.Shaped(env) && r.Within(s)
  {
    if req.None? then Disconnect(s, ci)
    else
      var s1 := Send(s.(subs := UnsubscribeAll(s.subs, ci, req.value.filters)), env, ci, AckBytes(0xB0, req.value.pid));
      s1.(clients := Touched(s1.clients, ci, now))
  }

  // ---------- publishing ----------

  function ForwardPacket(topic: Topic, payload: seq<byte>): Publish {
    Publish(topic, payload, 0, false, false, 0)
  }

  predicate Wanted(s: State, i: nat, topic: seq<byte>)
    requires i < |s.subs|
  {
    && s.subs[i].active && Scan(s.subs[i].filter, topic, true)
    && s.subs[i].client < |s.clients| && Live(s.clients[s.subs[i].client])
  }

  /** One subscription's turn in the fanout loop. A QoS-0 delivery sends the front of the shared
      buffer, whatever the turns before left there. */
  ghost function FanoutOne(s: State, env: Env, i: nat, topic: Topic, payload: seq<byte>, pubQos: nat,
                           now: int): (r: State)
    requires s.Shaped(env) && i < MAX_SUBS && |PublishBytes(ForwardPacket(topic, payload))| <= env.bufSize
    ensures r.Shaped(env) && r.Within(s)
  {
    var q0 := |PublishBytes(ForwardPacket(topic, payload))|;
    if !Wanted(s, i, topic) then s
    else
      var ci := s.subs[i].client;
      if Min(pubQos, s.subs[i].qos) == 0 then Send(s, env, ci, s.sendBuf[..q0])
      else
        var (s1, j) := Enqueue(s, env, ci, topic, payload, false, now);
        if j == PER_CLIENT then Send(s1, env, ci, s1.sendBuf[..q0]) else Transmit(s1, env, ci, j, false)
  }

  ghost function Fanout(s: State, env: Env, i: nat, topic: Topic, payload: seq<byte>, pubQos: nat, now: int): (r: State)
    requires s.Shaped(env) && i <= MAX_SUBS && |PublishBytes(ForwardPacket(topic, payload))| <= env.bufSize
    ensures r.Shaped(env) && r.Within(s)
    decreases MAX_SUBS - i
  {
    if i == MAX_SUBS then s
    else Fanout(FanoutOne(s, env, i, topic, payload, pubQos, now), env, i + 1, topic, payload, pubQos, now)
  }

  /** handle_publish_internal, less the retained store. */
  ghost function PublishInternal(s: State, env: Env, topic: Topic, payload: seq<byte>, pubQos: nat,
                                 now: int): (r: State)
    requires s.Shaped(env)
    ensures r.Shaped(env) && r.Within(s)
  {
    var data := PublishBytes(ForwardPacket(topic, payload));
    if |data| > env.bufSize then s
    else Fanout(s.(sendBuf := Overlay(s.sendBuf, data)), env, 0, topic, payload, pubQos, now)
  }

  /** A reply to the client, where one is due, and the note of its activity. */
  ghost function Reply(s: State, env: Env, ci: nat, due: bool, data: seq<byte>, now: int): (r: State)
    requires s.Shaped(env) && ci < MAX_CLIENTS
    ensures r.Shaped(env) && r.Within(s)
  {
    var t := if due then Send(s, env, ci, data) else s;
    t.(clients := Touched(t.clients, ci, now))
  }

  function Counted(s: State, ci: nat): State
    requires ci < |s.clients|
  {
    var c := s.clients[ci];
    s.(clients := s.clients[ci := c.(published := Wrap32(c.published + 1))])
  }

  /** A parsed PUBLISH of an authenticated client. */
  ghost function AcceptPublish(s: State, env: Env, ci: nat, p: Publish, now: int): (r: State)
    requires s.Shaped(env) && ci < MAX_CLIENTS
    ensures r.Shaped(env) && r.Within(s)
  {
    Reply(PublishInternal(Counted(s, ci), env, p.topic, p.payload, p.qos, now), env, ci, p.qos == 1,
          AckBytes(0x40, p.pid), now)
  }

  /** handle_publish. */
  ghost function HandlePublish(s: State, env: Env, ci: nat, pkt: seq<byte>, now: int): (r: State)
    requires s.Shaped(env) && ci < MAX_CLIENTS && BodyInside(pkt)
    ensures r.Shaped(env) && r.Within(s)
  {
    if !s.clients[ci].authenticated then Disconnect(s, ci)
    else if ParsePublish(pkt).None? || ParsePublish(pkt).value.qos == 2 then s
    else AcceptPublish(s, env, ci, ParsePublish(pkt).value, now)
  }

  /** The first in-flight slot of the client, at or after j, waiting for this id, or PER_CLIENT. */
  function Awaiting(slots: seq<Slot>, ci: nat, pid: u16, j: nat): (r: nat)
    requires ci < MAX_CLIENTS && j <= PER_CLIENT && |slots| == SLOTS
    ensures j <= r <= PER_CLIENT
    ensures r < PER_CLIENT ==> slots[Ix(ci, r)].active && slots[Ix(ci, r)].pid == pid
    ensures forall i | j <= i < r :: !(slots[Ix(ci, i)].active && slots[Ix(ci, i)].pid == pid)
    decreases PER_CLIENT - j
  {
    if j == PER_CLIENT || (slots[Ix(ci, j)].active && slots[Ix(ci, j)].pid == pid) then j
    else Awaiting(slots, ci, pid, j + 1)
  }

  /** The PUBACK case of process_client_data. */
  ghost function Puback(s: State, env: Env, ci: nat, pkt: seq<byte>, now: int): (r: State)
    requires s.Shaped(env) && ci < MAX_CLIENTS
    ensures r.Shaped(env) && r.Within(s)
  {
    var s1 :=
      match ParseAck(pkt)
      case None => s
      case Some(pid) =>
        var j := Awaiting(s.table.slots, ci, pid, 0);
        if j < PER_CLIENT then s.(table := Free(s.table, Ix(ci, j), Acked)) else s;
    s1.(clients := Touched(s1.clients, ci, now))
  }

  // ---------- keep-alive ----------

  predicate Overdue(c: Client, now: int) {
    Live(c) && c.keepAlive != 0 && now - c.lastActivity > (c.keepAlive + GRACE_SEC) * 1000
  }

  /** check_keepalive, from client i on. */
  ghost function KeepAlive(s: State, env: Env, i: nat, now: int): (r: State)
    requires s.Shaped(env) && i <= MAX_CLIENTS
    ensures r.Shaped(env) && r.Within(s)
    decreases MAX_CLIENTS - i
  {
    if i == MAX_CLIENTS then s
    else KeepAlive(if Overdue(s.clients[i], now) then Disconnect(s, i) else s, env, i + 1, now)
  }

  // ---------- steps ----------

  /** A framed packet, parsed as far as its handler needs. */
  datatype Packet =
    | ConnectPacket(connect: ConnectRequest)
    | PublishPacket(data: seq<byte>)
    | SubscribePacket(subscribe: Option<SubscribeRequest>)
    | UnsubscribePacket(unsubscribe: Option<UnsubscribeRequest>)
    | PubackPacket(data: seq<byte>)
    | PingPacket
    | DisconnectPacket
    | OtherPacket

  predicate Framed(p: Packet) {
    p.PublishPacket? ==> BodyInside(p.data) && |p.data| <= LOCAL_PAYLOAD
  }

  /** The switch of process_client_data. */
  ghost function Dispatch(s: State, env: Env, ci: nat, p: Packet, ms: seq<Message>, now: int): (r: State)
    requires s.Shaped(env) && ci < MAX_CLIENTS && Framed(p) && Deliverable(ms)
    ensures r.Shaped(env) && r.clock == s.clock && r.lastWalk == s.lastWalk
    ensures r.reconnects ==
            s.reconnects + if p.ConnectPacket? && p.connect.rc == 0 && s.clients[ci].connected then 1 else 0
  {
    if !s.clients[ci].connected && !p.ConnectPacket? then Disconnect(s, ci)
    else
      match p
      case ConnectPacket(req) => Connect(s, env, ci, req, now)
      case PublishPacket(data) => HandlePublish(s, env, ci, data, now)
      case SubscribePacket(req) => Subscribe(s, env, ci, req, ms, now)
      case UnsubscribePacket(req) => Unsubscribe(s, env, ci, req, now)
      case PubackPacket(data) => Puback(s, env, ci, data, now)
      case PingPacket => Reply(s, env, ci, true, [0xD0, 0], now)
      case DisconnectPacket => Disconnect(s, ci)
      case OtherPacket => s
  }

  /** What the main loop can do: accept a connection, dispatch a packet of an open connection,
      lose a connection, publish for a local source, or run one of the periodic tasks. */
  datatype Step =
    | Accepted(fd: nat)
    | Received(client: nat, packet: Packet, retained: seq<Message>)
    | Lost(client: nat)
    | Local(topic: Topic, payload: seq<byte>, qos: nat, retain: bool)
    | KeepAliveCheck
    | RetryWalk
    | ExpiryCheck

  /** Time does not run backwards, and with a known gap the walks keep to it. */
  ghost predicate Possible(s: State, env: Env, step: Step, now: int) {
    && s.clock <= now
    && (step == RetryWalk && env.gap.Some? ==> now <= s.lastWalk + env.gap.value)
    && match step
       case Received(ci, p, ms) => ci < |s.clients| && s.clients[ci].fd >= 0 && Framed(p) && Deliverable(ms)
       case Lost(ci) => ci < |s.clients|
       case Local(topic, payload, _, _) => |topic| <= LOCAL_TOPIC && |payload| <= LOCAL_PAYLOAD
       case _ => true
  }

  /** The step is an accepted CONNECT on a slot that is connected already. */
  ghost predicate Reconnects(s: State, step: Step)
  {
    && step.Received? && step.packet.ConnectPacket? && step.packet.connect.rc == 0
    && step.client < |s.clients| && s.clients[step.client].connected
  }

  ghost function Effect(s: State, env: Env, step: Step, now: int): (r: State)
    requires s.Shaped(env) && Possible(s, env, step, now)
    ensures r.Shaped(env) && r.clock == s.clock && r.lastWalk == s.lastWalk
    ensures r.reconnects == s.reconnects + if Reconnects(s, step) then 1 else 0
  {
    match step
    case Accepted(fd) => Accept(s, fd, now)
    case Received(ci, p, ms) => Dispatch(s, env, ci, p, ms, now)
    case Lost(ci) => Disconnect(s, ci)
    case Local(topic, payload, qos, _) => PublishInternal(s, env, topic, payload, qos, now)
    case KeepAliveCheck => KeepAlive(s, env, 0, now)
    case RetryWalk => Walk(s, env, 0, now)
    case ExpiryCheck => s
  }

  // ---------- the retained messages ----------

  /** The settings of the retained store: whether it is on, its limit in bytes, and its time to live. */
  datatype RetainConfig = RetainConfig(enabled: bool, limit: nat, ttlSec: int)

  /** What a PUBLISH does to the retained messages; `memory` says whether the allocations succeed. */
  ghost function RetainedAfter(ms: seq<Message>, authenticated: bool, pkt: seq<byte>, now: int, cfg: RetainConfig,
                               memory: bool): seq<Message>
    requires BodyInside(pkt)
  {
    if !authenticated || ParsePublish(pkt).None? || ParsePublish(pkt).value.qos == 2 then ms
    else
      var p := ParsePublish(pkt).value;
      if p.retain && cfg.enabled then Put(ms, p.topic, p.payload, now, cfg.limit, memory) else ms
  }

  /** What a dispatched packet does to them. */
  ghost function RetainedBy(c: Client, p: Packet, ms: seq<Message>, now: int, cfg: RetainConfig,
                            memory: bool): seq<Message>
    requires Framed(p)
  {
    if c.connected && p.PublishPacket? then RetainedAfter(ms, c.authenticated, p.data, now, cfg, memory) else ms
  }

  /** What a step does to them. */
  ghost function Retaining(s: State, step: Step, ms: seq<Message>, now: int, cfg: RetainConfig,
                           memory: bool): seq<Message>
    requires step.Received? ==> step.client < |s.clients| && Framed(step.packet)
  {
    match step
    case Received(ci, p, _) => RetainedBy(s.clients[ci], p, ms, now, cfg, memory)
    case Local(topic, payload, _, retain) =>
      if retain && cfg.enabled then Put(ms, topic, payload, now, cfg.limit, memory) else ms
    case ExpiryCheck => Sweep(ms, now, cfg.ttlSec)
    case _ => ms
  }

  ghost function Take(s: State, env: Env, step: Step, now: int): (r: State)
    requires s.Shaped(env) && Possible(s, env, step, now)
    ensures r.Shaped(env) && r.clock == now && r.lastWalk == (if step == RetryWalk then now else s.lastWalk)
    ensures r.reconnects == s.reconnects + if Reconnects(s, step) then 1 else 0
  {
    Effect(s, env, step, now).(clock := now, lastWalk := if step == RetryWalk then now else s.lastWalk)
  }

  ghost predicate Initial(s: State, env: Env) {
    && s.Shaped(env)
    && (forall i | 0 <= i < MAX_CLIENTS :: s.clients[i] == NO_CLIENT)
    && (forall i | 0 <= i < MAX_SUBS :: s.subs[i] == NO_SUB)
    && (forall k | 0 <= k < SLOTS :: s.table.slots[k] == NO_SLOT)
    && s.table.bytes == 0 && s.table.closed == [] && s.table.enqueued == 0
    && s.numConnected == s.reconnects == 0 && s.log == [] && s.lastWalk <= s.clock
  }
}
