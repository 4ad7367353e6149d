/** The broker on its arrays (main/mqtt_broker.c): each method is proved to take the tables
    exactly where the function of BrokerState says. */
module Broker {
  import opened Bytes
  import opened Wire
  import opened TopicMatch
  import opened Retained
  import opened RetainStore
  import opened BrokerState
  import opened BrokerWorld

  class Broker {
    const env: Env
    const clients: array<Client>
    const subs: array<Sub>
    const slots: array<Slot>
    const sendBuf: array<byte>
    var numConnected: int
    var bytes: nat
    var dropped: nat
    var capSkips: nat
    var sends: nat
    var allocs: nat
    ghost var records: seq<Record>
    ghost var closed: seq<Closed>
    ghost var enqueued: nat
    ghost var log: seq<Sent>
    ghost var reconnects: nat
    ghost var clock: int
    ghost var lastWalk: int

    /** The tables have their sizes, and what is in flight is small enough to be encoded. */
    ghost predicate Valid()
      reads this, slots
    {
      && clients.Length == MAX_CLIENTS && subs.Length == MAX_SUBS && slots.Length == SLOTS
      && sendBuf.Length == env.bufSize <= LOCAL_PAYLOAD && |records| == SLOTS
      && forall k | 0 <= k < SLOTS :: SlotBytes(slots[k]) <= INFLIGHT_MAX
    }

    ghost function TableOf(): Table
      reads this, slots
    {
      Table(slots[..], bytes, records, closed, enqueued)
    }

    ghost function Abs(): State
      reads this, clients, subs, slots, sendBuf
    {
      State(clients[..], subs[..], TableOf(), numConnected, dropped, capSkips, sendBuf[..], sends, allocs, log,
            reconnects, clock, lastWalk)
    }

    constructor (env: Env, now: int)
      requires env.bufSize <= LOCAL_PAYLOAD
      ensures Valid() && Initial(Abs(), env) && this.env == env
    {
      this.env := env;
      clients := new Client[MAX_CLIENTS](i => NO_CLIENT);
      subs := new Sub[MAX_SUBS](i => NO_SUB);
      slots := new Slot[SLOTS](i => NO_SLOT);
      sendBuf := new byte[env.bufSize];
      numConnected, bytes, dropped, capSkips, sends, allocs := 0, 0, 0, 0, 0, 0;
      records := seq(SLOTS, i => Record(0, []));
      closed, enqueued, log, reconnects := [], 0, [], 0;
      clock, lastWalk := now, now;
    }

    // ---------- in-flight slots ----------

    /** inflight_free_slot. */
    method FreeSlotAt(k: nat, ghost why: Why)
      requires Valid() && k < SLOTS
      modifies `bytes, `closed, slots
      ensures Valid() && Abs() == old(Abs()).(table := Free(old(TableOf()), k, why))
    {
      var e := slots[k];
      if !e.active { return; }
      var size := SlotBytes(e);
      if bytes >= size {
        bytes := bytes - size;
      } else {
        bytes := 0;
      }
      slots[k] := Freed(e);
      closed := closed + [Closed(why, e, records[k])];
      assert slots[..] == old(slots[..])[k := Freed(e)];
    }

    /** inflight_free_all_for_client. */
    method FreeAllFor(ci: nat)
      requires Valid() && ci < MAX_CLIENTS
      modifies `bytes, `closed, slots
      ensures Valid() && Abs() == old(Abs()).(table := FreeAll(old(TableOf()), ci, 0))
    {
      var j := 0;
      while j < PER_CLIENT
        invariant Valid() && j <= PER_CLIENT
        invariant Abs() == old(Abs()).(table := TableOf())
        invariant FreeAll(TableOf(), ci, j) == FreeAll(old(TableOf()), ci, 0)
      {
        if slots[Ix(ci, j)].active {
          FreeSlotAt(Ix(ci, j), Dropped);
        }
        j := j + 1;
      }
    }

    /** inflight_find_free_slot, with PER_CLIENT for none. */
    method FindFreeSlot(ci: nat) returns (j: nat)
      requires Valid() && ci < MAX_CLIENTS
      ensures j == FreeSlot(slots[..], ci, 0)
    {
      j := 0;
      while j < PER_CLIENT
        invariant j <= PER_CLIENT && FreeSlot(slots[..], ci, j) == FreeSlot(slots[..], ci, 0)
      {
        if !slots[Ix(ci, j)].active { return; }
        j := j + 1;
      }
    }

    /** The inner scan of inflight_next_packet_id. */
    method HeldBy(ci: nat, pid: u16) returns (held: bool)
      requires Valid() && ci < MAX_CLIENTS
      ensures held == Collides(slots[..], ci, pid)
    {
      held := false;
      var j := 0;
      while j < PER_CLIENT
        invariant j <= PER_CLIENT
        invariant forall i | 0 <= i < j :: !(slots[Ix(ci, i)].active && slots[Ix(ci, i)].pid == pid)
      {
        if slots[Ix(ci, j)].active && slots[Ix(ci, j)].pid == pid { return true; }
        j := j + 1;
      }
    }

    /** inflight_next_packet_id. */
    method NextPacketId(ci: nat) returns (pid: u16)
      requires Valid() && ci < MAX_CLIENTS
      modifies clients
      ensures var (found, last) := PacketId(old(slots[..]), ci, old(clients[ci].nextPid), 65535);
              && pid == found
              && clients[..] == old(clients[..])[ci := old(clients[ci]).(nextPid := last)]
    {
      var attempt := 0;
      ghost var start := clients[ci].nextPid;
      while attempt < 65535
        invariant attempt <= 65535
        invariant clients[..] == old(clients[..])[ci := old(clients[ci]).(nextPid := clients[ci].nextPid)]
        invariant PacketId(slots[..], ci, clients[ci].nextPid, 65535 - attempt) == PacketId(slots[..], ci, start, 65535)
      {
        clients[ci] := clients[ci].(nextPid := NextId(clients[ci].nextPid));
        var held := HeldBy(ci, clients[ci].nextPid);
        if !held { return clients[ci].nextPid; }
        attempt := attempt + 1;
      }
      pid := 0;
    }

    /** The end of inflight_enqueue. */
    method FillSlot(k: nat, e: Slot, ghost now: int)
      requires Valid() && k < SLOTS && bytes + SlotBytes(e) <= INFLIGHT_MAX
      modifies `bytes, `records, `enqueued, slots
      ensures Valid() && Abs() == old(Abs()).(table := Place(old(TableOf()), k, e, now))
    {
      slots[k] := e;
      bytes := bytes + SlotBytes(e);
      records := records[k := Record(now, [])];
      enqueued := enqueued + 1;
      assert slots[..] == old(slots[..])[k := e];
    }

    /** inflight_enqueue, with PER_CLIENT when it refuses. */
    method TryEnqueue(ci: nat, topic: Topic, payload: seq<byte>, retain: bool, now: int) returns (j: nat)
      requires Valid() && ci < MAX_CLIENTS
      modifies this, clients, slots
      ensures Valid() && (Abs(), j) == Enqueue(old(Abs()), env, ci, topic, payload, retain, now)
    {
      hide PacketId, Place, FreeSlot;
      if bytes + |topic| + |payload| > INFLIGHT_MAX {
        capSkips := capSkips + 1;
        return PER_CLIENT;
      }
      j := FindFreeSlot(ci);
      if j == PER_CLIENT { return; }
      var pid := NextPacketId(ci);
      if pid == 0 { return PER_CLIENT; }
      var memory := env.mem(allocs);
      allocs := allocs + 1;
      if !memory { return PER_CLIENT; }
      FillSlot(Ix(ci, j), NewSlot(pid, topic, payload, retain, now), now);
    }

    // ---------- disconnecting and sending ----------

    /** The last loop of client_disconnect. */
    method DropSubsOf(ci: nat)
      requires Valid()
      modifies subs
      ensures subs[..] == DropSubs(old(subs[..]), ci)
    {
      var i := 0;
      ghost var was := subs[..];
      while i < MAX_SUBS
        invariant i <= MAX_SUBS
        invariant forall k | 0 <= k < i ::
                    subs[k] == if was[k].active && was[k].client == ci then was[k].(active := false) else was[k]
        invariant forall k | i <= k < MAX_SUBS :: subs[k] == was[k]
      {
        if subs[i].active && subs[i].client == ci {
          subs[i] := subs[i].(active := false);
        }
        i := i + 1;
      }
    }

    /** client_disconnect. */
    method DisconnectClient(ci: nat)
      requires Valid() && ci < MAX_CLIENTS
      modifies this, clients, subs, slots
      ensures Valid() && Abs() == Disconnect(old(Abs()), ci)
    {
      var c := clients[ci];
      if c.fd < 0 { return; }
      if c.connected {
        numConnected := numConnected - 1;
      }
      FreeAllFor(ci);
      clients[ci] := Dead(c);
      DropSubsOf(ci);
      assert clients[..] == old(clients[..])[ci := Dead(c)];
    }

    /** client_send, as far as its callers can tell. */
    method SendTo(ci: nat, data: seq<byte>)
      requires Valid() && ci < MAX_CLIENTS
      modifies this, clients, subs, slots
      ensures Valid() && Abs() == Send(old(Abs()), env, ci, data)
    {
      if clients[ci].fd < 0 { return; }
      var ok := env.net(sends);
      sends := sends + 1;
      if ok {
        log := log + [Sent(ci, data)];
      } else {
        DisconnectClient(ci);
      }
    }

    /** Building a packet at the front of the shared buffer; false when it does not fit. */
    method Build(p: Publish) returns (n: nat, ok: bool)
      requires Valid() && p.qos <= 2 && |PublishBody(p)| < RL_LIMIT
      modifies sendBuf
      ensures ok <==> |PublishBytes(p)| <= env.bufSize
      ensures ok ==> n == |PublishBytes(p)| && sendBuf[..] == Overlay(old(sendBuf[..]), PublishBytes(p))
                     && sendBuf[..n] == PublishBytes(p)
      ensures !ok ==> sendBuf[..] == old(sendBuf[..])
    {
      var len := BuildPublish(sendBuf, sendBuf.Length, p);
      if len < 0 { return 0, false; }
      return len, true;
    }

    /** inflight_transmit. */
    method TransmitSlot(ci: nat, j: nat, dup: bool)
      requires Valid() && ci < MAX_CLIENTS && j < PER_CLIENT
      modifies this, clients, subs, slots, sendBuf
      ensures Valid() && Abs() == Transmit(old(Abs()), env, ci, j, dup)
    {
      var k := Ix(ci, j);
      var n, ok := Build(SlotPacket(slots[k], dup));
      if !ok {
        FreeSlotAt(k, TooLarge);
        return;
      }
      ghost var data := sendBuf[..n];
      records := records[k := records[k].(sent := records[k].sent + [data])];
      assert Abs() == old(Abs()).(sendBuf := Overlay(old(sendBuf[..]), data), table := Note(old(TableOf()), k, data));
      SendTo(ci, sendBuf[..n]);
    }

    /** The body of the inner loop of inflight_walk. */
    method RetrySlot(ci: nat, j: nat, now: int)
      requires Valid() && ci < MAX_CLIENTS && j < PER_CLIENT
      modifies this, clients, subs, slots, sendBuf
      ensures Valid() && Abs() == WalkSlot(old(Abs()), env, ci, j, now)
    {
      var k := Ix(ci, j);
      var e := slots[k];
      if !e.active { return; }
      if now < e.nextRetry { return; }
      if e.retries >= RETRY_MAX {
        dropped := dropped + 1;
        FreeSlotAt(k, Abandoned(now));
        return;
      }
      slots[k] := Later(e, now);
      assert slots[..] == old(slots[..])[k := Later(e, now)];
      TransmitSlot(ci, j, true);
    }

    /** inflight_walk. */
    method WalkInflight(now: int)
      requires Valid()
      modifies this, clients, subs, slots, sendBuf
      ensures Valid() && Abs() == Walk(old(Abs()), env, 0, now)
    {
      hide WalkRow;
      var ci := 0;
      while ci < MAX_CLIENTS
        invariant Valid() && ci <= MAX_CLIENTS
        invariant Walk(Abs(), env, ci, now) == Walk(old(Abs()), env, 0, now)
      {
        if clients[ci].fd >= 0 && clients[ci].connected {
          WalkClient(ci, now);
        }
        ci := ci + 1;
      }
    }

    method WalkClient(ci: nat, now: int)
      requires Valid() && ci < MAX_CLIENTS
      modifies this, clients, subs, slots, sendBuf
      ensures Valid() && Abs() == WalkRow(old(Abs()), env, ci, 0, now)
    {
      hide WalkSlot;
      var j := 0;
      while j < PER_CLIENT
        invariant Valid() && j <= PER_CLIENT
        invariant WalkRow(Abs(), env, ci, j, now) == WalkRow(old(Abs()), env, ci, 0, now)
      {
        RetrySlot(ci, j, now);
        j := j + 1;
      }
    }

    // ---------- connections ----------

    /** The accept branch of the main loop with find_free_client. */
    method AcceptConnection(fd: nat, now: int)
      requires Valid()
      modifies clients
      ensures Valid() && Abs() == Accept(old(Abs()), fd, now)
    {
      var i := 0;
      while i < MAX_CLIENTS && clients[i].fd >= 0
        invariant i <= MAX_CLIENTS
        invariant forall k | 0 <= k < i :: clients[k].fd >= 0
      {
        i := i + 1;
      }
      assert i == FreeClient(clients[..]);
      if i == MAX_CLIENTS { return; }
      clients[i] := clients[i].(fd := fd, connected := false, id := [], lastActivity := now, connectedAt := 0);
    }

    /** The accepting half of handle_connect. */
    method AdmitClient(ci: nat, req: ConnectRequest, now: int)
      requires Valid() && ci < MAX_CLIENTS
      modifies this, clients, subs, slots
      ensures Valid() && Abs() == Admit(old(Abs()), ci, req, now)
    {
      hide Disconnect, CString;
      var id := CString(req.clientId);
      var i := 0;
      while i < MAX_CLIENTS && !(i != ci && clients[i].connected && clients[i].id == id)
        invariant i <= MAX_CLIENTS
        invariant Namesake(clients[..], ci, id, i) == Namesake(clients[..], ci, id, 0)
      {
        i := i + 1;
      }
      if i < MAX_CLIENTS {
        DisconnectClient(i);
      }
      ghost var s1 := Abs();
      var c := clients[ci];
      clients[ci] := c.(id := id, keepAlive := req.keepAlive, connected := true, authenticated := true,
                        lastActivity := now, connectedAt := now);
      numConnected := numConnected + 1;
      reconnects := reconnects + if c.connected then 1 else 0;
      assert clients[..] == s1.clients[ci := clients[ci]];
    }

    /** handle_connect, given what parsing and the credential check say. */
    method HandleConnect(ci: nat, req: ConnectRequest, now: int)
      requires Valid() && ci < MAX_CLIENTS
      modifies this, clients, subs, slots
      ensures Valid() && Abs() == Connect(old(Abs()), env, ci, req, now)
    {
      hide Admit, Send, Disconnect;
      if req.rc == 0 {
        AdmitClient(ci, req, now);
      }
      SendTo(ci, [0x20, 2, 0, req.rc]);
      if req.rc != 0 {
        DisconnectClient(ci);
      }
    }

    method Touch(ci: nat, now: int)
      requires Valid() && ci < MAX_CLIENTS
      modifies clients
      ensures Valid() && Abs() == old(Abs()).(clients := Touched(old(clients[..]), ci, now))
    {
      clients[ci] := clients[ci].(lastActivity := now);
      assert clients[..] == Touched(old(clients[..]), ci, now);
    }

    /** How a handler ends: the reply, where one is due, and the note of the client's activity. */
    method ReplyTo(ci: nat, due: bool, data: seq<byte>, now: int)
      requires Valid() && ci < MAX_CLIENTS
      modifies this, clients, subs, slots
      ensures Valid() && Abs() == Reply(old(Abs()), env, ci, due, data, now)
    {
      hide Send;
      if due {
        SendTo(ci, data);
      }
      Touch(ci, now);
    }

    /** check_keepalive. */
    method CheckKeepAlive(now: int)
      requires Valid()
      modifies this, clients, subs, slots
      ensures Valid() && Abs() == KeepAlive(old(Abs()), env, 0, now)
    {
      hide Disconnect;
      var i := 0;
      while i < MAX_CLIENTS
        invariant Valid() && i <= MAX_CLIENTS
        invariant KeepAlive(Abs(), env, i, now) == KeepAlive(old(Abs()), env, 0, now)
      {
        if Overdue(clients[i], now) {
          DisconnectClient(i);
        }
        i := i + 1;
      }
    }

    // ---------- subscriptions ----------

    /** The scan for a client's subscription to a filter, with MAX_SUBS for none. */
    method LookupSub(ci: nat, filter: seq<byte>) returns (i: nat)
      requires Valid()
      ensures i == FindSub(subs[..], ci, filter)
    {
      i := 0;
      while i < MAX_SUBS
        invariant i <= MAX_SUBS && forall k | 0 <= k < i :: !Keyed(subs[k], ci, filter)
      {
        if Keyed(subs[i], ci, filter) { return; }
        i := i + 1;
      }
    }

    /** find_free_sub, with MAX_SUBS for none. */
    method FindFreeSub() returns (i: nat)
      requires Valid()
      ensures i == FreeSub(subs[..])
    {
      i := 0;
      while i < MAX_SUBS
        invariant i <= MAX_SUBS && forall k | 0 <= k < i :: subs[k].active
      {
        if !subs[i].active { return; }
        i := i + 1;
      }
    }

    /** One topic of handle_subscribe. */
    method AddSub(ci: nat, t: TopicRequest) returns (code: byte)
      requires Valid()
      modifies subs
      ensures (subs[..], code) == SubscribeOne(old(subs[..]), ci, t)
    {
      var i := LookupSub(ci, t.filter);
      code := Granted(t.qos);
      if i < MAX_SUBS {
        subs[i] := subs[i].(qos := code);
        assert subs[..] == old(subs[..])[i := subs[i]];
        return;
      }
      var j := FindFreeSub();
      if j == MAX_SUBS { return FAILURE; }
      subs[j] := Sub(true, ci, t.filter, code);
      assert subs[..] == old(subs[..])[j := subs[j]];
    }

    method AddSubs(ci: nat, ts: seq<TopicRequest>) returns (codes: seq<byte>)
      requires Valid()
      modifies subs
      ensures (subs[..], codes) == SubscribeAll(old(subs[..]), ci, ts)
    {
      codes := [];
      for i := 0 to |ts|
        invariant (subs[..], codes) == SubscribeAll(old(subs[..]), ci, ts[..i])
      {
        assert ts[..i + 1][..i] == ts[..i];
        var code := AddSub(ci, ts[i]);
        codes := codes + [code];
      }
      assert ts[..|ts|] == ts;
    }

    method RemoveSubs(ci: nat, filters: seq<seq<byte>>)
      requires Valid()
      modifies subs
      ensures subs[..] == UnsubscribeAll(old(subs[..]), ci, filters)
    {
      for i := 0 to |filters|
        invariant subs[..] == UnsubscribeAll(old(subs[..]), ci, filters[..i])
      {
        assert filters[..i + 1][..i] == filters[..i];
        ghost var before := subs[..];
        var j := LookupSub(ci, filters[i]);
        if j < MAX_SUBS {
          subs[j] := subs[j].(active := false);
          assert subs[..] == before[j := subs[j]];
        }
      }
      assert filters[..|filters|] == filters;
    }

    /** retain_deliver: the walk over the retained list survives the client's disconnect. */
    method DeliverRetained(ci: nat, filter: seq<byte>, store: RetainStore)
      requires Valid() && ci < MAX_CLIENTS && store.Valid() && Deliverable(store.contents)
      modifies this, clients, subs, slots, sendBuf
      ensures Valid() && Abs() == RetainDeliver(old(Abs()), env, ci, filter, store.contents)
      ensures store.Valid() && store.contents == old(store.contents)
    {
      var r := store.head;
      ghost var k := 0;
      ghost var ms := store.contents;
      assert ms[0..] == ms;
      while r != null
        invariant Valid() && store.Valid() && store.contents == ms
        invariant k <= |ms| && r == At(store.spine, k)
        invariant RetainDeliver(Abs(), env, ci, filter, ms[k..]) == RetainDeliver(old(Abs()), env, ci, filter, ms)
        decreases |ms| - k
      {
        DeliverStep(Abs(), env, ci, filter, ms, k);
        DeliverOne(ci, filter, r.message);
        r, k := r.next, k + 1;
      }
    }

    /** The body of that walk. */
    method DeliverOne(ci: nat, filter: seq<byte>, m: Message)
      requires Valid() && ci < MAX_CLIENTS && Deliverable([m])
      modifies this, clients, subs, slots, sendBuf
      ensures Valid() && Abs() == RetainDeliver(old(Abs()), env, ci, filter, [m])
    {
      assert m in [m];
      var matches := TopicMatches(filter, m.topic);
      if !matches { return; }
      var n, ok := Build(RetainedPacket(m));
      if !ok { return; }
      if clients[ci].fd >= 0 && clients[ci].connected {
        SendTo(ci, sendBuf[..n]);
      }
    }

    /** The delivery loop at the end of handle_subscribe. */
    method DeliverToAll(ci: nat, ts: seq<TopicRequest>, codes: seq<byte>, store: RetainStore)
      requires Valid() && ci < MAX_CLIENTS && |ts| == |codes| && store.Valid() && Deliverable(store.contents)
      modifies this, clients, subs, slots, sendBuf
      ensures Valid() && Abs() == DeliverAll(old(Abs()), env, ci, ts, codes, store.contents)
      ensures store.Valid() && store.contents == old(store.contents)
    {
      hide RetainDeliver;
      ghost var ms := store.contents;
      assert ts[0..] == ts && codes[0..] == codes;
      for i := 0 to |ts|
        invariant Valid() && store.Valid() && store.contents == ms
        invariant DeliverAll(Abs(), env, ci, ts[i..], codes[i..], ms) == DeliverAll(old(Abs()), env, ci, ts, codes, ms)
      {
        assert ts[i..][1..] == ts[i + 1..] && codes[i..][1..] == codes[i + 1..];
        if codes[i] != FAILURE {
          DeliverRetained(ci, ts[i].filter, store);
        }
      }
    }

    /** handle_subscribe. */
    method HandleSubscribe(ci: nat, req: Option<SubscribeRequest>, store: RetainStore, now: int)
      requires Valid() && ci < MAX_CLIENTS && store.Valid() && Deliverable(store.contents)
      modifies this, clients, subs, slots, sendBuf
      ensures Valid() && Abs() == Subscribe(old(Abs()), env, ci, req, store.contents, now)
      ensures store.Valid() && store.contents == old(store.contents)
    {
      hide SubscribeAll, Send, DeliverAll, Disconnect, SubackBytes;
      if !clients[ci].authenticated {
        DisconnectClient(ci);
        return;
      }
      if req.None? {
        DisconnectClient(ci);
        return;
      }
      var codes := AddSubs(ci, req.value.topics);
      SendTo(ci, SubackBytes(req.value.pid, codes));
      DeliverToAll(ci, req.value.topics, codes, store);
      Touch(ci, now);
    }

    /** handle_unsubscribe. */
    method HandleUnsubscribe(ci: nat, req: Option<UnsubscribeRequest>, now: int)
      requires Valid() && ci < MAX_CLIENTS
      modifies this, clients, subs, slots
      ensures Valid() && Abs() == Unsubscribe(old(Abs()), env, ci, req, now)
    {
      hide UnsubscribeAll, Send, Disconnect, AckBytes;
      if req.None? {
        DisconnectClient(ci);
        return;
      }
      RemoveSubs(ci, req.value.filters);
      SendTo(ci, AckBytes(0xB0, req.value.pid));
      Touch(ci, now);
    }

    // ---------- publishing ----------

    /** The body of the fanout loop; `len` is the length of the prebuilt QoS-0 packet. */
    method FanoutTurn(i: nat, topic: Topic, payload: seq<byte>, pubQos: nat, len: nat, now: int)
      requires Valid() && i < MAX_SUBS && len == |PublishBytes(ForwardPacket(topic, payload))| <= env.bufSize
      modifies this, clients, subs, slots, sendBuf
      ensures Valid() && Abs() == FanoutOne(old(Abs()), env, i, topic, payload, pubQos, now)
    {
      if !subs[i].active { return; }
      var matches := TopicMatches(subs[i].filter, topic);
      if !matches { return; }
      var ci := subs[i].client;
      if ci >= MAX_CLIENTS || clients[ci].fd < 0 || !clients[ci].connected { return; }
      var effQos := if pubQos < subs[i].qos then pubQos else subs[i].qos;
      if effQos == 0 {
        SendTo(ci, sendBuf[..len]);
        return;
      }
      var j := TryEnqueue(ci, topic, payload, false, now);
      if j == PER_CLIENT {
        SendTo(ci, sendBuf[..len]);
        return;
      }
      TransmitSlot(ci, j, false);
    }

    /** handle_publish_internal up to its hooks: the retained store first, then the fanout. */
    method PublishToAll(topic: Topic, payload: seq<byte>, retain: bool, pubQos: nat, now: int,
                        store: RetainStore, cfg: RetainConfig, memory: bool)
      requires Valid() && |payload| <= LOCAL_PAYLOAD && store.Valid()
      modifies this, clients, subs, slots, sendBuf, store, store.repr
      ensures Valid() && Abs() == PublishInternal(old(Abs()), env, topic, payload, pubQos, now)
      ensures store.Valid() && store.repr >= old(store.repr) && fresh(store.repr - old(store.repr))
      ensures store.contents ==
              if retain && cfg.enabled then Put(old(store.contents), topic, payload, now, cfg.limit, memory)
                                else old(store.contents)
    {
      hide Fanout, Put, PublishBytes, Overlay;
      if retain && cfg.enabled {
        store.Store(topic, payload, now, cfg.limit, memory);
      }
      ghost var kept := store.contents;
      var len, ok := Build(ForwardPacket(topic, payload));
      if !ok { return; }
      FanoutAll(topic, payload, pubQos, len, now);
    }

    method FanoutAll(topic: Topic, payload: seq<byte>, pubQos: nat, len: nat, now: int)
      requires Valid() && len == |PublishBytes(ForwardPacket(topic, payload))| <= env.bufSize
      modifies this, clients, subs, slots, sendBuf
      ensures Valid() && Abs() == Fanout(old(Abs()), env, 0, topic, payload, pubQos, now)
    {
      hide FanoutOne, PublishBytes;
      var i := 0;
      while i < MAX_SUBS
        invariant Valid() && i <= MAX_SUBS
        invariant Fanout(Abs(), env, i, topic, payload, pubQos, now) ==
                  Fanout(old(Abs()), env, 0, topic, payload, pubQos, now)
      {
        FanoutTurn(i, topic, payload, pubQos, len, now);
        i := i + 1;
      }
    }

    /** handle_publish. */
    method HandlePublishPacket(ci: nat, pkt: seq<byte>, now: int, store: RetainStore, cfg: RetainConfig, memory: bool)
      requires Valid() && ci < MAX_CLIENTS && BodyInside(pkt) && |pkt| <= LOCAL_PAYLOAD && store.Valid()
      modifies this, clients, subs, slots, sendBuf, store, store.repr
      ensures Valid() && Abs() == HandlePublish(old(Abs()), env, ci, pkt, now)
      ensures store.Valid() && store.repr >= old(store.repr) && fresh(store.repr - old(store.repr))
      ensures store.contents ==
              RetainedAfter(old(store.contents), old(clients[ci].authenticated), pkt, now, cfg, memory)
    {
      hide AcceptPublish, Disconnect, Put;
      if !clients[ci].authenticated {
        DisconnectClient(ci);
        return;
      }
      var pub := ParsePublish(pkt);
      if pub.None? { return; }
      if pub.value.qos == 2 { return; }
      ParsedSize(pkt);
      ForwardPublish(ci, pub.value, now, store, cfg, memory);
    }

    method CountPublish(ci: nat)
      requires Valid() && ci < MAX_CLIENTS
      modifies clients
      ensures Valid() && Abs() == Counted(old(Abs()), ci)
    {
      clients[ci] := clients[ci].(published := Wrap32(clients[ci].published + 1));
      assert clients[..] == old(clients[..])[ci := clients[ci]];
    }

    /** The rest of handle_publish, once the packet is parsed and its QoS is not 2. */
    method ForwardPublish(ci: nat, p: Publish, now: int, store: RetainStore, cfg: RetainConfig, memory: bool)
      requires Valid() && ci < MAX_CLIENTS && |p.payload| <= LOCAL_PAYLOAD && store.Valid()
      modifies this, clients, subs, slots, sendBuf, store, store.repr
      ensures Valid() && Abs() == AcceptPublish(old(Abs()), env, ci, p, now)
      ensures store.Valid() && store.repr >= old(store.repr) && fresh(store.repr - old(store.repr))
      ensures store.contents ==
              if p.retain && cfg.enabled then Put(old(store.contents), p.topic, p.payload, now, cfg.limit, memory)
                                else old(store.contents)
    {
      hide PublishInternal, Reply, Put, PublishBytes;
      CountPublish(ci);
      PublishToAll(p.topic, p.payload, p.retain, p.qos, now, store, cfg, memory);
      ReplyTo(ci, p.qos == 1, AckBytes(0x40, p.pid), now);
    }

    /** The search of the PUBACK case, with PER_CLIENT for no slot waiting for this id. */
    method FindAwaiting(ci: nat, pid: u16) returns (j: nat)
      requires Valid() && ci < MAX_CLIENTS
      ensures j == Awaiting(slots[..], ci, pid, 0)
    {
      j := 0;
      while j < PER_CLIENT && !(slots[Ix(ci, j)].active && slots[Ix(ci, j)].pid == pid)
        invariant j <= PER_CLIENT
        invariant Awaiting(slots[..], ci, pid, j) == Awaiting(slots[..], ci, pid, 0)
      {
        j := j + 1;
      }
    }

    /** The PUBACK case of process_client_data. */
    method HandlePuback(ci: nat, pkt: seq<byte>, now: int)
      requires Valid() && ci < MAX_CLIENTS
      modifies this, clients, slots
      ensures Valid() && Abs() == Puback(old(Abs()), env, ci, pkt, now)
    {
      hide ParseAck, Free, Awaiting;
      var id := ParseAck(pkt);
      if id.Some? {
        var j := FindAwaiting(ci, id.value);
        if j < PER_CLIENT {
          FreeSlotAt(Ix(ci, j), Acked);
        }
      }
      Touch(ci, now);
    }

    // ---------- the main loop ----------

    /** The switch of process_client_data for one framed packet. */
    method DispatchPacket(ci: nat, p: Packet, now: int, store: RetainStore, cfg: RetainConfig, memory: bool)
      requires Valid() && ci < MAX_CLIENTS && Framed(p)
      requires store.Valid() && Deliverable(store.contents)
      modifies this, clients, subs, slots, sendBuf, store, store.repr
      ensures Valid() && Abs() == Dispatch(old(Abs()), env, ci, p, old(store.contents), now)
      ensures store.Valid() && store.repr >= old(store.repr) && fresh(store.repr - old(store.repr))
      ensures store.contents == RetainedBy(old(clients[ci]), p, old(store.contents), now, cfg, memory)
    {
      hide Connect, HandlePublish, Subscribe, Unsubscribe, Puback, Reply, Disconnect, RetainedAfter, ParsePublish, Put;
      if !clients[ci].connected && !p.ConnectPacket? {
        DisconnectClient(ci);
        return;
      }
      match p
      case ConnectPacket(req) => HandleConnect(ci, req, now);
      case PublishPacket(data) => HandlePublishPacket(ci, data, now, store, cfg, memory);
      case SubscribePacket(req) => HandleSubscribe(ci, req, store, now);
      case UnsubscribePacket(req) => HandleUnsubscribe(ci, req, now);
      case PubackPacket(data) => HandlePuback(ci, data, now);
      case PingPacket => ReplyTo(ci, true, [0xD0, 0], now);
      case DisconnectPacket => DisconnectClient(ci);
      case OtherPacket =>
    }

    /** One thing the main loop can do. */
    method Act(step: Step, now: int, store: RetainStore, cfg: RetainConfig, memory: bool)
      requires Valid() && Possible(Abs(), env, step, now) && store.Valid()
      requires step.Received? ==> step.retained == store.contents
      modifies this, clients, subs, slots, sendBuf, store, store.repr
      ensures Valid() && Abs() == Effect(old(Abs()), env, step, now)
      ensures store.Valid() && store.repr >= old(store.repr) && fresh(store.repr - old(store.repr))
      ensures store.contents == Retaining(old(Abs()), step, old(store.contents), now, cfg, memory)
    {
      hide Dispatch, PublishInternal, KeepAlive, Walk, Accept, Disconnect, Put, ParsePublish, RetainedBy, Sweep;
      match step {
        case Accepted(fd) => AcceptConnection(fd, now);
        case Received(ci, p, ms) => DispatchPacket(ci, p, now, store, cfg, memory);
        case Lost(ci) => DisconnectClient(ci);
        case Local(topic, payload, qos, retain) => PublishToAll(topic, payload, retain, qos, now, store, cfg, memory);
        case KeepAliveCheck => CheckKeepAlive(now);
        case RetryWalk => WalkInflight(now);
        case ExpiryCheck => store.EvictExpired(now, cfg.ttlSec);
      }
    }

    /** One step of the main loop, from any state in which it can happen to one in which the next can. */
    method Perform(step: Step, now: int, store: RetainStore, cfg: RetainConfig, memory: bool)
      requires Valid() && Possible(Abs(), env, step, now) && store.Valid() && Deliverable(store.contents)
      requires step.Received? ==> step.retained == store.contents
      modifies this, clients, subs, slots, sendBuf, store, store.repr
      ensures Valid() && Abs() == Take(old(Abs()), env, step, now)
      ensures store.Valid() && store.repr >= old(store.repr) && fresh(store.repr - old(store.repr))
      ensures store.contents == Retaining(old(Abs()), step, old(store.contents), now, cfg, memory)
      ensures Deliverable(store.contents)
    {
      hide Effect, Retaining, Deliverable;
      RetainingIsDeliverable(Abs(), env, step, store.contents, now, cfg, memory);
      Act(step, now, store, cfg, memory);
      clock := now;
      if step == RetryWalk { lastWalk := now; }
    }

    /** The main loop, over any sequence of what can happen: tables and retained messages end where the run of both
        says. */
    method Loop(events: seq<Moment>, store: RetainStore, cfg: RetainConfig)
      requires Valid() && store.Valid() && Deliverable(store.contents)
      requires Happens(World(Abs(), store.contents), env, cfg, events)
      modifies this, clients, subs, slots, sendBuf, store, store.repr
      ensures Valid() && store.Valid() && Deliverable(store.contents)
      ensures World(Abs(), store.contents) == RunWorld(old(World(Abs(), store.contents)), env, cfg, events)
    {
      hide Take, Retaining, Deliverable, Possible, Happens;
      ghost var start := World(Abs(), store.contents);
      var i := 0;
      while i < |events|
        invariant Valid() && store.Valid() && Deliverable(store.contents) && i <= |events|
        invariant store.repr >= old(store.repr) && fresh(store.repr - old(store.repr))
        invariant World(Abs(), store.contents) == RunWorld(start, env, cfg, events[..i])
      {
        NextMoment(start, env, cfg, events, i);
        Perform(events[i].step, events[i].now, store, cfg, events[i].memory);
        i := i + 1;
      }
      assert events[..i] == events;
    }
  }

  lemma ParsedSize(pkt: seq<byte>)
    requires BodyInside(pkt) && ParsePublish(pkt).Some?
    ensures |ParsePublish(pkt).value.payload| <= |pkt| && |ParsePublish(pkt).value.topic| <= MAX_TOPIC
  {}

  /** The walk takes the messages one by one. */
  lemma DeliverStep(s: State, env: Env, ci: nat, filter: seq<byte>, ms: seq<Message>, k: nat)
    requires s.Shaped(env) && ci < MAX_CLIENTS && Deliverable(ms) && k < |ms|
    ensures Deliverable([ms[k]]) && Deliverable(ms[k + 1..])
    ensures RetainDeliver(s, env, ci, filter, ms[k..]) ==
            RetainDeliver(RetainDeliver(s, env, ci, filter, [ms[k]]), env, ci, filter, ms[k + 1..])
  {
    assert ms[k..][0] == ms[k] && ms[k..][1..] == ms[k + 1..] && [ms[k]][1..] == [];
  }
}
