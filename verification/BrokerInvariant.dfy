/** The broker invariant and its preservation by every step, with any send failing and
    disconnecting its client in the middle of the step. */
module BrokerInvariant {
  import opened Bytes
  import opened Wire
  import opened TopicMatch
  import opened Retained
  import opened BrokerState
  import opened Sums
  import opened SubPool
  import opened InflightLaws

  /** Connected and authenticated are the same thing, both need a socket, and no two connected
      clients share an id. */
  ghost predicate ClientsOk(clients: seq<Client>) {
    && (forall i | 0 <= i < |clients| ::
          clients[i].connected == clients[i].authenticated && (clients[i].connected ==> clients[i].fd >= 0))
    && (forall i, j | 0 <= i < j < |clients| ::
          clients[i].connected && clients[j].connected ==> clients[i].id != clients[j].id)
  }

  ghost predicate Up(clients: seq<Client>, ci: nat) {
    ci < |clients| && clients[ci].connected
  }

  /** Subscriptions and in-flight messages belong to connected clients. */
  ghost predicate Owned(clients: seq<Client>, subs: seq<Sub>, slots: seq<Slot>) {
    && (forall j | 0 <= j < |subs| :: subs[j].active ==> Up(clients, subs[j].client))
    && (forall k | 0 <= k < |slots| :: slots[k].active ==> Up(clients, Owner(k)))
  }

  /** The counter is the number of connected slots plus the CONNECTs accepted on a slot that was
      connected already. */
  ghost predicate CountOk(s: State) {
    s.numConnected == Sum(s.clients, IsUp) + s.reconnects
  }

  function PaceOf(s: State, env: Env): Pace {
    Pace(env.bufSize, s.lastWalk, env.gap)
  }

  ghost predicate Inv(s: State, env: Env) {
    && s.Shaped(env)
    && ClientsOk(s.clients) && Owned(s.clients, s.subs, s.table.slots) && CountOk(s)
    && KeysOk(s.subs) && InflightOk(s.table, PaceOf(s, env))
  }

  // ---------- small changes ----------

  /** A client keeps its standing when only its bookkeeping fields change. */
  predicate SameStanding(c: Client, d: Client) {
    c.fd == d.fd && c.id == d.id && c.connected == d.connected && c.authenticated == d.authenticated
  }

  lemma TouchKeeps(s: State, env: Env, ci: nat, c: Client)
    requires Inv(s, env) && ci < MAX_CLIENTS && SameStanding(s.clients[ci], c)
    ensures Inv(s.(clients := s.clients[ci := c]), env)
  {
    SumUpdate(s.clients, ci, c, IsUp);
    var t := s.(clients := s.clients[ci := c]);
    assert forall i | 0 <= i < MAX_CLIENTS :: Up(t.clients, i) == Up(s.clients, i);
  }

  /** Clearing a client's slot leaves exactly the other clients' in-flight slots. */
  lemma DisconnectSlots(t: Table, ci: nat)
    requires t.Shaped() && ci < MAX_CLIENTS
    ensures forall k | 0 <= k < SLOTS ::
              if Owner(k) == ci then !FreeAll(t, ci, 0).slots[k].active else FreeAll(t, ci, 0).slots[k] == t.slots[k]
  {
    FreeAllEffect(t, ci, 0);
    forall k | 0 <= k < SLOTS ensures Owner(k) == ci <==> Ix(ci, 0) <= k < Ix(ci, PER_CLIENT) {}
  }

  lemma OwnedAfter(clients: seq<Client>, subs: seq<Sub>, slots: seq<Slot>, slots': seq<Slot>, ci: nat)
    requires ci < |clients| && |slots'| == |slots| && Owned(clients, subs, slots)
    requires forall k | 0 <= k < |slots| ::
               if Owner(k) == ci then !slots'[k].active else slots'[k] == slots[k]
    ensures Owned(clients[ci := Dead(clients[ci])], DropSubs(subs, ci), slots')
  {
    var clients' := clients[ci := Dead(clients[ci])];
    assert forall i | 0 <= i < |clients| && i != ci :: Up(clients', i) == Up(clients, i);
  }

  lemma DeadClientsOk(clients: seq<Client>, ci: nat)
    requires ClientsOk(clients) && ci < |clients|
    ensures ClientsOk(clients[ci := Dead(clients[ci])])
  {}

  lemma LostKeeps(s: State, env: Env, ci: nat)
    requires Inv(s, env) && ci < MAX_CLIENTS && s.clients[ci].fd >= 0
    ensures Inv(Disconnect(s, ci), env)
  {
    DisconnectSlots(s.table, ci);
    FreeAllKeeps(s.table, ci, 0, PaceOf(s, env));
    DropSubsMeaning(s.subs, ci);
    SumUpdate(s.clients, ci, Dead(s.clients[ci]), IsUp);
    OwnedAfter(s.clients, s.subs, s.table.slots, FreeAll(s.table, ci, 0).slots, ci);
    DeadClientsOk(s.clients, ci);
    assert CountOk(Disconnect(s, ci));
    hide Owned, InflightOk, KeysOk, FreeAll, DropSubs, ClientsOk, CountOk;
  }

  lemma DisconnectKeeps(s: State, env: Env, ci: nat)
    requires Inv(s, env) && ci < MAX_CLIENTS
    ensures Inv(Disconnect(s, ci), env)
    ensures Disconnect(s, ci).clients[ci].fd < 0
    ensures forall i | 0 <= i < MAX_CLIENTS && i != ci :: Disconnect(s, ci).clients[i] == s.clients[i]
  {
    assert s.Shaped(env);
    hide Inv;
    if s.clients[ci].fd >= 0 { LostKeeps(s, env, ci); }
  }

  lemma SendKeeps(s: State, env: Env, ci: nat, data: seq<byte>)
    requires Inv(s, env) && ci < MAX_CLIENTS
    ensures Inv(Send(s, env, ci, data), env)
    ensures forall i | 0 <= i < MAX_CLIENTS && i != ci :: Send(s, env, ci, data).clients[i] == s.clients[i]
  {
    assert s.Shaped(env);
    if s.clients[ci].fd >= 0 {
      var more := s.(sends := s.sends + 1);
      if env.net(s.sends) {
        assert Inv(s.(sends := s.sends + 1, log := s.log + [Sent(ci, data)]), env);
      } else {
        assert Inv(more, env);
        hide Inv, Disconnect;
        DisconnectKeeps(more, env, ci);
      }
    }
  }

  // ---------- QoS 1 ----------

  /** inflight_enqueue refuses exactly for want of room under the cap, of a free slot or of memory, touching no more
      than the id counter; otherwise it fills the first free slot under a fresh nonzero id. */
  lemma EnqueueEffect(s: State, env: Env, ci: nat, topic: Topic, payload: seq<byte>, retain: bool, now: int)
    requires s.Shaped(env) && ci < MAX_CLIENTS && IdsOk(s.table.slots)
    ensures var (t, j) := Enqueue(s, env, ci, topic, payload, retain, now);
            && t.clients == s.clients[ci := s.clients[ci].(nextPid := t.clients[ci].nextPid)]
            && t.subs == s.subs && t.numConnected == s.numConnected && t.sendBuf == s.sendBuf && t.sends == s.sends
            && t.log == s.log && t.reconnects == s.reconnects
            && (j == PER_CLIENT <==> Refuses(s, env, ci, |topic| + |payload|))
            && t.allocs == s.allocs + (if s.table.bytes + |topic| + |payload| > INFLIGHT_MAX
                                          || FreeSlot(s.table.slots, ci, 0) == PER_CLIENT then 0 else 1)
            && if j == PER_CLIENT then t.table == s.table
               else
                 var k, e := Ix(ci, j), t.table.slots[Ix(ci, j)];
                 && !s.table.slots[k].active && e.pid != 0 && !Collides(s.table.slots, ci, e.pid)
                 && e == NewSlot(e.pid, topic, payload, retain, now) && s.table.bytes + SlotBytes(e) <= INFLIGHT_MAX
                 && t.table == Place(s.table, k, e, now)
  {
    if FreeSlot(s.table.slots, ci, 0) < PER_CLIENT {
      PacketIdAlwaysFound(s.table.slots, ci, s.clients[ci].nextPid);
    }
    assert s.clients[ci := s.clients[ci]] == s.clients;
  }

  /** New contents for one in-flight slot of a connected client. */
  lemma TableKeeps(s: State, env: Env, k: nat, table: Table)
    requires Inv(s, env) && k < SLOTS && InflightOk(table, PaceOf(s, env))
    requires exists e :: table.slots == s.table.slots[k := e] && (e.active ==> Up(s.clients, Owner(k)))
    ensures Inv(s.(table := table), env)
  {}

  /** The first transmission of a message just placed in the table. */
  lemma PlacedKeeps(s: State, env: Env, ci: nat, j: nat, e: Slot, now: int)
    requires Inv(s, env) && ci < MAX_CLIENTS && s.clients[ci].connected && j < PER_CLIENT
    requires !s.table.slots[Ix(ci, j)].active && e.pid != 0 && !Collides(s.table.slots, ci, e.pid)
    requires e.active && e.retries == 0 && e.nextRetry == now + RETRY_INITIAL
    requires s.table.bytes + SlotBytes(e) <= INFLIGHT_MAX && s.lastWalk <= now
    ensures Inv(Transmit(s.(table := Place(s.table, Ix(ci, j), e, now)), env, ci, j, false), env)
  {
    var k := Ix(ci, j);
    var data, placed := PublishBytes(SlotPacket(e, false)), Place(s.table, k, e, now);
    if |data| > env.bufSize {
      TooLargeKeeps(s.table, k, e, now, PaceOf(s, env));
      assert Free(placed, k, TooLarge).slots == s.table.slots[k := Freed(e)];
      TableKeeps(s, env, k, Free(placed, k, TooLarge));
    } else {
      PlaceKeeps(s.table, ci, j, e, now, PaceOf(s, env));
      assert Note(placed, k, data).slots == s.table.slots[k := e];
      TableKeeps(s, env, k, Note(placed, k, data));
      SendKeeps(s.(table := Note(placed, k, data), sendBuf := Overlay(s.sendBuf, data)), env, ci, data);
    }
  }

  /** A first transmission, whether it fits, is refused by the buffer, or loses the client. */
  lemma FirstSendKeeps(s: State, env: Env, ci: nat, topic: Topic, payload: seq<byte>, retain: bool, now: int)
    requires Inv(s, env) && ci < MAX_CLIENTS && s.clients[ci].connected && s.lastWalk <= now
    ensures var (s1, j) := Enqueue(s, env, ci, topic, payload, retain, now);
            if j == PER_CLIENT then Inv(s1, env) else Inv(Transmit(s1, env, ci, j, false), env)
  {
    var (s1, j) := Enqueue(s, env, ci, topic, payload, retain, now);
    EnqueueEffect(s, env, ci, topic, payload, retain, now);
    TouchKeeps(s, env, ci, s1.clients[ci]);
    var s0 := s1.(table := s.table);
    assert Inv(s0, env);
    if j < PER_CLIENT {
      var e := s1.table.slots[Ix(ci, j)];
      assert s1 == s0.(table := Place(s.table, Ix(ci, j), e, now));
      PlacedKeeps(s0, env, ci, j, e, now);
    }
  }

  lemma WalkSlotKeeps(s: State, env: Env, ci: nat, j: nat, now: int)
    requires Inv(s, env) && OnPace(PaceOf(s, env), now) && ci < MAX_CLIENTS && j < PER_CLIENT
    ensures Inv(WalkSlot(s, env, ci, j, now), env)
  {
    var k := Ix(ci, j);
    var e := s.table.slots[k];
    if e.active && now >= e.nextRetry {
      assert Tracked(e, s.table.records[k], PaceOf(s, env));
      if e.retries >= RETRY_MAX {
        FreeKeeps(s.table, k, Abandoned(now), PaceOf(s, env));
        assert Free(s.table, k, Abandoned(now)).slots == s.table.slots[k := Freed(e)];
        TableKeeps(s, env, k, Free(s.table, k, Abandoned(now)));
      } else {
        ResendKeeps(s.table, k, now, PaceOf(s, env));
        var data := PublishBytes(SlotPacket(Later(e, now), true));
        var table := Note(s.table.(slots := s.table.slots[k := Later(e, now)]), k, data);
        assert table.slots == s.table.slots[k := Later(e, now)];
        TableKeeps(s, env, k, table);
        SendKeeps(s.(table := table, sendBuf := Overlay(s.sendBuf, data)), env, ci, data);
      }
    }
  }

  lemma {:induction false} WalkRowKeeps(s: State, env: Env, ci: nat, j: nat, now: int)
    requires Inv(s, env) && OnPace(PaceOf(s, env), now) && ci < MAX_CLIENTS && j <= PER_CLIENT
    ensures Inv(WalkRow(s, env, ci, j, now), env)
    decreases PER_CLIENT - j
  {
    assert s.Shaped(env);
    hide Inv, WalkSlot;
    if j < PER_CLIENT {
      WalkSlotKeeps(s, env, ci, j, now);
      WalkRowKeeps(WalkSlot(s, env, ci, j, now), env, ci, j + 1, now);
    }
  }

  lemma {:induction false} WalkKeeps(s: State, env: Env, ci: nat, now: int)
    requires Inv(s, env) && OnPace(PaceOf(s, env), now) && ci <= MAX_CLIENTS
    ensures Inv(Walk(s, env, ci, now), env)
    decreases MAX_CLIENTS - ci
  {
    assert s.Shaped(env);
    if ci < MAX_CLIENTS {
      var t := if Live(s.clients[ci]) then WalkRow(s, env, ci, 0, now) else s;
      assert Walk(s, env, ci, now) == Walk(t, env, ci + 1, now);
      hide Inv, WalkRow, Walk;
      if Live(s.clients[ci]) { WalkRowKeeps(s, env, ci, 0, now); }
      WalkKeeps(t, env, ci + 1, now);
    }
  }

  // ---------- connections ----------

  lemma AcceptKeeps(s: State, env: Env, fd: nat, now: int)
    requires Inv(s, env)
    ensures Inv(Accept(s, fd, now), env)
  {
    var i := FreeClient(s.clients);
    if i < MAX_CLIENTS {
      var t := Accept(s, fd, now);
      SumUpdate(s.clients, i, t.clients[i], IsUp);
      assert forall x | 0 <= x < MAX_CLIENTS :: Up(t.clients, x) == Up(s.clients, x);
    }
  }

  /** Setting a slot to connected under an id nobody else uses. */
  lemma EstablishKeeps(s: State, env: Env, ci: nat, c: Client)
    requires Inv(s, env) && ci < MAX_CLIENTS && c.connected && c.authenticated && c.fd >= 0
    requires forall i | 0 <= i < MAX_CLIENTS && i != ci && s.clients[i].connected :: s.clients[i].id != c.id
    ensures Inv(Establish(s, ci, c), env)
  {
    SumUpdate(s.clients, ci, c, IsUp);
    var t := Establish(s, ci, c);
    assert forall i | 0 <= i < MAX_CLIENTS :: Up(s.clients, i) ==> Up(t.clients, i);
  }

  /** Once the first namesake is gone no other is left. */
  lemma NamesakeGone(s: State, env: Env, ci: nat, id: seq<byte>)
    requires Inv(s, env) && ci < MAX_CLIENTS
    ensures var other := Namesake(s.clients, ci, id, 0);
            var t := if other < MAX_CLIENTS then Disconnect(s, other) else s;
            && Inv(t, env) && t.clients[ci] == s.clients[ci]
            && forall i | 0 <= i < MAX_CLIENTS && i != ci && t.clients[i].connected :: t.clients[i].id != id
  {
    var other := Namesake(s.clients, ci, id, 0);
    assert s.Shaped(env) && ClientsOk(s.clients);
    hide Inv;
    if other < MAX_CLIENTS { DisconnectKeeps(s, env, other); }
  }

  lemma AdmitKeeps(s: State, env: Env, ci: nat, req: ConnectRequest, now: int)
    requires Inv(s, env) && ci < MAX_CLIENTS && s.clients[ci].fd >= 0
    ensures Inv(Admit(s, ci, req, now), env)
  {
    assert s.Shaped(env);
    hide Inv, Disconnect;
    var id := CString(req.clientId);
    NamesakeGone(s, env, ci, id);
    var other := Namesake(s.clients, ci, id, 0);
    var s1 := if other < MAX_CLIENTS then Disconnect(s, other) else s;
    hide Establish, Namesake;
    EstablishKeeps(s1, env, ci, s1.clients[ci].(id := id, keepAlive := req.keepAlive, connected := true,
                                                authenticated := true, lastActivity := now, connectedAt := now));
  }

  lemma ConnectKeeps(s: State, env: Env, ci: nat, req: ConnectRequest, now: int)
    requires Inv(s, env) && ci < MAX_CLIENTS && s.clients[ci].fd >= 0
    ensures Inv(Connect(s, env, ci, req, now), env)
  {
    if req.rc == 0 { AdmitKeeps(s, env, ci, req, now); }
    var s1 := if req.rc == 0 then Admit(s, ci, req, now) else s;
    SendKeeps(s1, env, ci, [0x20, 2, 0, req.rc]);
    if req.rc != 0 { DisconnectKeeps(Send(s1, env, ci, [0x20, 2, 0, req.rc]), env, ci); }
  }

  lemma {:induction false} KeepAliveKeeps(s: State, env: Env, i: nat, now: int)
    requires Inv(s, env) && i <= MAX_CLIENTS
    ensures Inv(KeepAlive(s, env, i, now), env)
    decreases MAX_CLIENTS - i
  {
    if i < MAX_CLIENTS {
      DisconnectKeeps(s, env, i);
      KeepAliveKeeps(if Overdue(s.clients[i], now) then Disconnect(s, i) else s, env, i + 1, now);
    }
  }

  // ---------- subscriptions ----------

  lemma {:induction false} SubscribeAllOwned(subs: seq<Sub>, ci: nat, ts: seq<TopicRequest>)
    ensures forall j | 0 <= j < |subs| :: SubscribeAll(subs, ci, ts).0[j].active ==>
              SubscribeAll(subs, ci, ts).0[j].client == ci
                || (subs[j].active && SubscribeAll(subs, ci, ts).0[j].client == subs[j].client)
    decreases |ts|
  {
    if ts != [] { SubscribeAllOwned(subs, ci, ts[..|ts| - 1]); }
  }

  lemma {:induction false} UnsubscribeAllOwned(subs: seq<Sub>, ci: nat, filters: seq<seq<byte>>)
    ensures forall j | 0 <= j < |subs| :: UnsubscribeAll(subs, ci, filters)[j].active ==>
              UnsubscribeAll(subs, ci, filters)[j] == subs[j]
    decreases |filters|
  {
    if filters != [] { UnsubscribeAllOwned(subs, ci, filters[..|filters| - 1]); }
  }

  lemma {:induction false} RetainDeliverKeeps(s: State, env: Env, ci: nat, filter: seq<byte>, ms: seq<Message>)
    requires Inv(s, env) && ci < MAX_CLIENTS && Deliverable(ms)
    ensures Inv(RetainDeliver(s, env, ci, filter, ms), env)
    decreases |ms|
  {
    if ms != [] {
      var data := PublishBytes(RetainedPacket(ms[0]));
      if Scan(filter, ms[0].topic, true) && |data| <= env.bufSize {
        var s0 := s.(sendBuf := Overlay(s.sendBuf, data));
        SendKeeps(s0, env, ci, data);
        RetainDeliverKeeps(if Live(s.clients[ci]) then Send(s0, env, ci, data) else s0, env, ci, filter, ms[1..]);
      } else {
        RetainDeliverKeeps(s, env, ci, filter, ms[1..]);
      }
    }
  }

  lemma {:induction false} DeliverAllKeeps(s: State, env: Env, ci: nat, ts: seq<TopicRequest>, codes: seq<byte>,
                                           ms: seq<Message>)
    requires Inv(s, env) && ci < MAX_CLIENTS && |ts| == |codes| && Deliverable(ms)
    ensures Inv(DeliverAll(s, env, ci, ts, codes, ms), env)
    decreases |ts|
  {
    if ts != [] {
      RetainDeliverKeeps(s, env, ci, ts[0].filter, ms);
      DeliverAllKeeps(if codes[0] != FAILURE then RetainDeliver(s, env, ci, ts[0].filter, ms) else s,
                      env, ci, ts[1..], codes[1..], ms);
    }
  }

  lemma SubsKeep(s: State, env: Env, ci: nat, subs: seq<Sub>)
    requires Inv(s, env) && ci < MAX_CLIENTS && s.clients[ci].connected && |subs| == MAX_SUBS && KeysOk(subs)
    requires forall j | 0 <= j < MAX_SUBS && subs[j].active ::
               subs[j].client == ci || (s.subs[j].active && subs[j].client == s.subs[j].client)
    ensures Inv(s.(subs := subs), env)
  {}

  lemma SubscribeKeeps(s: State, env: Env, ci: nat, req: Option<SubscribeRequest>, ms: seq<Message>, now: int)
    requires Inv(s, env) && ci < MAX_CLIENTS && Deliverable(ms)
    ensures Inv(Subscribe(s, env, ci, req, ms, now), env)
  {
    if !s.clients[ci].authenticated || req.None? {
      DisconnectKeeps(s, env, ci);
    } else {
      var (subs, codes) := SubscribeAll(s.subs, ci, req.value.topics);
      SubscribeMeaning(s.subs, ci, req.value.topics);
      SubscribeAllOwned(s.subs, ci, req.value.topics);
      SubsKeep(s, env, ci, subs);
      hide Inv, Send, DeliverAll;
      var s0 := s.(subs := subs);
      SendKeeps(s0, env, ci, SubackBytes(req.value.pid, codes));
      var s1 := Send(s0, env, ci, SubackBytes(req.value.pid, codes));
      DeliverAllKeeps(s1, env, ci, req.value.topics, codes, ms);
      var s2 := DeliverAll(s1, env, ci, req.value.topics, codes, ms);
      TouchKeeps(s2, env, ci, s2.clients[ci].(lastActivity := now));
    }
  }

  lemma UnsubscribeKeeps(s: State, env: Env, ci: nat, req: Option<UnsubscribeRequest>, now: int)
    requires Inv(s, env) && ci < MAX_CLIENTS
    ensures Inv(Unsubscribe(s, env, ci, req, now), env)
  {
    if req.None? {
      DisconnectKeeps(s, env, ci);
    } else {
      UnsubscribeMeaning(s.subs, ci, req.value.filters);
      UnsubscribeAllOwned(s.subs, ci, req.value.filters);
      var s0 := s.(subs := UnsubscribeAll(s.subs, ci, req.value.filters));
      SendKeeps(s0, env, ci, AckBytes(0xB0, req.value.pid));
      var s1 := Send(s0, env, ci, AckBytes(0xB0, req.value.pid));
      TouchKeeps(s1, env, ci, s1.clients[ci].(lastActivity := now));
    }
  }

  // ---------- publishing ----------

  lemma FanoutOneKeeps(s: State, env: Env, i: nat, topic: Topic, payload: seq<byte>, pubQos: nat, now: int)
    requires Inv(s, env) && s.lastWalk <= now && i < MAX_SUBS
             && |PublishBytes(ForwardPacket(topic, payload))| <= env.bufSize
    ensures Inv(FanoutOne(s, env, i, topic, payload, pubQos, now), env)
  {
    if Wanted(s, i, topic) {
      var q0, ci := |PublishBytes(ForwardPacket(topic, payload))|, s.subs[i].client;
      if Min(pubQos, s.subs[i].qos) == 0 {
        SendKeeps(s, env, ci, s.sendBuf[..q0]);
      } else {
        FirstSendKeeps(s, env, ci, topic, payload, false, now);
        var (s1, j) := Enqueue(s, env, ci, topic, payload, false, now);
        if j == PER_CLIENT { SendKeeps(s1, env, ci, s1.sendBuf[..q0]); }
      }
    }
  }

  lemma {:induction false} FanoutKeeps(s: State, env: Env, i: nat, topic: Topic, payload: seq<byte>, pubQos: nat,
                                       now: int)
    requires Inv(s, env) && s.lastWalk <= now && i <= MAX_SUBS
             && |PublishBytes(ForwardPacket(topic, payload))| <= env.bufSize
    ensures Inv(Fanout(s, env, i, topic, payload, pubQos, now), env)
    decreases MAX_SUBS - i
  {
    if i < MAX_SUBS {
      FanoutOneKeeps(s, env, i, topic, payload, pubQos, now);
      FanoutKeeps(FanoutOne(s, env, i, topic, payload, pubQos, now), env, i + 1, topic, payload, pubQos, now);
    }
  }

  lemma PublishInternalKeeps(s: State, env: Env, topic: Topic, payload: seq<byte>, pubQos: nat, now: int)
    requires Inv(s, env) && s.lastWalk <= now
    ensures Inv(PublishInternal(s, env, topic, payload, pubQos, now), env)
  {
    var data := PublishBytes(ForwardPacket(topic, payload));
    if |data| <= env.bufSize {
      FanoutKeeps(s.(sendBuf := Overlay(s.sendBuf, data)), env, 0, topic, payload, pubQos, now);
    }
  }

  lemma ReplyKeeps(s: State, env: Env, ci: nat, due: bool, data: seq<byte>, now: int)
    requires Inv(s, env) && ci < MAX_CLIENTS
    ensures Inv(Reply(s, env, ci, due, data, now), env)
  {
    if due { SendKeeps(s, env, ci, data); }
    var t := if due then Send(s, env, ci, data) else s;
    TouchKeeps(t, env, ci, t.clients[ci].(lastActivity := now));
  }

  lemma HandlePublishKeeps(s: State, env: Env, ci: nat, pkt: seq<byte>, now: int)
    requires Inv(s, env) && s.lastWalk <= now && ci < MAX_CLIENTS && BodyInside(pkt)
    ensures Inv(HandlePublish(s, env, ci, pkt, now), env)
  {
    if !s.clients[ci].authenticated {
      DisconnectKeeps(s, env, ci);
    } else if ParsePublish(pkt).Some? && ParsePublish(pkt).value.qos != 2 {
      var p := ParsePublish(pkt).value;
      var s1 := Counted(s, ci);
      TouchKeeps(s, env, ci, s1.clients[ci]);
      PublishInternalKeeps(s1, env, p.topic, p.payload, p.qos, now);
      ReplyKeeps(PublishInternal(s1, env, p.topic, p.payload, p.qos, now), env, ci, p.qos == 1, AckBytes(0x40, p.pid),
                 now);
    }
  }

  lemma PubackKeeps(s: State, env: Env, ci: nat, pkt: seq<byte>, now: int)
    requires Inv(s, env) && ci < MAX_CLIENTS
    ensures Inv(Puback(s, env, ci, pkt, now), env)
  {
    var s1 := s;
    if ParseAck(pkt).Some? {
      var j := Awaiting(s.table.slots, ci, ParseAck(pkt).value, 0);
      if j < PER_CLIENT {
        var k := Ix(ci, j);
        assert Tracked(s.table.slots[k], s.table.records[k], PaceOf(s, env));
        FreeKeeps(s.table, k, Acked, PaceOf(s, env));
        var table := Free(s.table, k, Acked);
        assert table.slots == s.table.slots[k := Freed(s.table.slots[k])];
        TableKeeps(s, env, k, table);
        s1 := s.(table := table);
      }
    }
    TouchKeeps(s1, env, ci, s1.clients[ci].(lastActivity := now));
  }

  // ---------- every step ----------

  lemma DispatchKeeps(s: State, env: Env, ci: nat, p: Packet, ms: seq<Message>, now: int)
    requires Inv(s, env) && s.lastWalk <= now && ci < MAX_CLIENTS && s.clients[ci].fd >= 0 && Framed(p)
             && Deliverable(ms)
    ensures Inv(Dispatch(s, env, ci, p, ms, now), env)
  {
    assert s.Shaped(env);
    hide Inv, Connect, HandlePublish, Subscribe, Unsubscribe, Puback, Reply, Disconnect;
    var t := Dispatch(s, env, ci, p, ms, now);
    if !s.clients[ci].connected && !p.ConnectPacket? {
      assert t == Disconnect(s, ci);
      DisconnectKeeps(s, env, ci);
    } else {
      match p
      case ConnectPacket(req) =>
        assert t == Connect(s, env, ci, req, now);
        ConnectKeeps(s, env, ci, req, now);
      case PublishPacket(data) =>
        assert t == HandlePublish(s, env, ci, data, now);
        HandlePublishKeeps(s, env, ci, data, now);
      case SubscribePacket(req) =>
        assert t == Subscribe(s, env, ci, req, ms, now);
        SubscribeKeeps(s, env, ci, req, ms, now);
      case UnsubscribePacket(req) =>
        assert t == Unsubscribe(s, env, ci, req, now);
        UnsubscribeKeeps(s, env, ci, req, now);
      case PubackPacket(data) =>
        assert t == Puback(s, env, ci, data, now);
        PubackKeeps(s, env, ci, data, now);
      case PingPacket =>
        assert t == Reply(s, env, ci, true, [0xD0, 0], now);
        ReplyKeeps(s, env, ci, true, [0xD0, 0], now);
      case DisconnectPacket =>
        assert t == Disconnect(s, ci);
        DisconnectKeeps(s, env, ci);
      case OtherPacket =>
    }
  }

  lemma ClockKeeps(s: State, env: Env, now: int)
    requires Inv(s, env)
    ensures Inv(s.(clock := now), env)
  {}

  lemma EffectKeeps(s: State, env: Env, step: Step, now: int)
    requires Inv(s, env) && s.lastWalk <= s.clock && Possible(s, env, step, now) && step != RetryWalk
    ensures Inv(Effect(s, env, step, now), env)
  {
    assert s.Shaped(env);
    hide Inv, Dispatch, PublishInternal, KeepAlive, Disconnect, Accept, Walk;
    match step {
      case Accepted(fd) => AcceptKeeps(s, env, fd, now);
      case Received(ci, p, ms) => DispatchKeeps(s, env, ci, p, ms, now);
      case Lost(ci) => DisconnectKeeps(s, env, ci);
      case Local(topic, payload, qos, _) => PublishInternalKeeps(s, env, topic, payload, qos, now);
      case KeepAliveCheck => KeepAliveKeeps(s, env, 0, now);
      case RetryWalk =>
      case ExpiryCheck =>
    }
  }

  lemma RetryKeeps(s: State, env: Env, now: int)
    requires Inv(s, env) && OnPace(PaceOf(s, env), now)
    ensures Inv(Walk(s, env, 0, now).(clock := now, lastWalk := now), env)
  {
    assert s.Shaped(env) && NotDue(s.table.slots, Ix(0, 0), now);
    hide Inv, NotDue;
    WalkKeeps(s, env, 0, now);
    WalkCovers(s, env, 0, now);
    hide Walk;
    WalkedKeeps(Walk(s, env, 0, now), env, now);
  }

  /** Every step of the main loop keeps the invariant. */
  lemma TakeKeeps(s: State, env: Env, step: Step, now: int)
    requires Inv(s, env) && s.lastWalk <= s.clock && Possible(s, env, step, now)
    ensures Inv(Take(s, env, step, now), env)
    ensures var t := Take(s, env, step, now); t.lastWalk <= t.clock
  {
    assert s.Shaped(env);
    hide Inv, Walk;
    if step == RetryWalk {
      RetryKeeps(s, env, now);
    } else {
      EffectKeeps(s, env, step, now);
      hide Effect;
      ClockKeeps(Effect(s, env, step, now), env, now);
    }
  }

  // ---------- a walk leaves nothing due ----------

  ghost predicate NotDue(slots: seq<Slot>, k: nat, now: int)
    requires |slots| == SLOTS
  {
    forall l | 0 <= l < k && l < SLOTS :: slots[l].active ==> now < slots[l].nextRetry
  }

  /** Sending only ever deactivates slots. */
  lemma SendSlots(s: State, env: Env, ci: nat, data: seq<byte>)
    requires s.Shaped(env) && ci < MAX_CLIENTS
    ensures forall k | 0 <= k < SLOTS ::
              Send(s, env, ci, data).table.slots[k].active ==> Send(s, env, ci, data).table.slots[k] == s.table.slots[k]
  {
    DisconnectSlots(s.table, ci);
  }

  lemma WalkSlotCovers(s: State, env: Env, ci: nat, j: nat, now: int)
    requires s.Shaped(env) && ci < MAX_CLIENTS && j < PER_CLIENT && NotDue(s.table.slots, Ix(ci, j), now)
    ensures NotDue(WalkSlot(s, env, ci, j, now).table.slots, Ix(ci, j) + 1, now)
  {
    var k := Ix(ci, j);
    var e := s.table.slots[k];
    hide PublishBytes;
    if e.active && now >= e.nextRetry && e.retries < RETRY_MAX {
      var t := s.(table := s.table.(slots := s.table.slots[k := Later(e, now)]));
      var data := PublishBytes(SlotPacket(Later(e, now), true));
      if |data| <= env.bufSize {
        SendSlots(t.(sendBuf := Overlay(t.sendBuf, data), table := Note(t.table, k, data)), env, ci, data);
      }
    }
  }

  lemma {:induction false} WalkRowCovers(s: State, env: Env, ci: nat, j: nat, now: int)
    requires s.Shaped(env) && ci < MAX_CLIENTS && j <= PER_CLIENT && NotDue(s.table.slots, Ix(ci, j), now)
    ensures NotDue(WalkRow(s, env, ci, j, now).table.slots, Ix(ci, PER_CLIENT), now)
    decreases PER_CLIENT - j
  {
    if j < PER_CLIENT {
      WalkSlotCovers(s, env, ci, j, now);
      WalkRowCovers(WalkSlot(s, env, ci, j, now), env, ci, j + 1, now);
    }
  }

  /** A client that is not live has nothing in flight. */
  lemma IdleRowCovers(s: State, env: Env, ci: nat, now: int)
    requires Inv(s, env) && ci < MAX_CLIENTS && !Live(s.clients[ci]) && NotDue(s.table.slots, Ix(ci, 0), now)
    ensures NotDue(s.table.slots, Ix(ci, PER_CLIENT), now)
  {
    assert forall l | Ix(ci, 0) <= l < Ix(ci + 1, 0) :: Owner(l) == ci && !s.table.slots[l].active;
  }

  lemma {:induction false} WalkCovers(s: State, env: Env, ci: nat, now: int)
    requires Inv(s, env) && OnPace(PaceOf(s, env), now) && ci <= MAX_CLIENTS && NotDue(s.table.slots, Ix(ci, 0), now)
    ensures NotDue(Walk(s, env, ci, now).table.slots, SLOTS, now)
    decreases MAX_CLIENTS - ci
  {
    assert s.Shaped(env);
    hide Inv, WalkRow, NotDue;
    if ci < MAX_CLIENTS {
      assert Ix(ci, PER_CLIENT) == Ix(ci + 1, 0);
      if Live(s.clients[ci]) {
        WalkRowCovers(s, env, ci, 0, now);
        WalkRowKeeps(s, env, ci, 0, now);
        WalkCovers(WalkRow(s, env, ci, 0, now), env, ci + 1, now);
      } else {
        IdleRowCovers(s, env, ci, now);
        WalkCovers(s, env, ci + 1, now);
      }
    }
  }

  lemma WalkedKeeps(s: State, env: Env, now: int)
    requires Inv(s, env) && NotDue(s.table.slots, SLOTS, now)
    ensures Inv(s.(clock := now, lastWalk := now), env)
  {
    forall k | 0 <= k < SLOTS && s.table.slots[k].active
      ensures Tracked(s.table.slots[k], s.table.records[k], PaceOf(s.(lastWalk := now), env))
    {
      assert Tracked(s.table.slots[k], s.table.records[k], PaceOf(s, env));
    }
  }

  lemma InitialInv(s: State, env: Env)
    requires Initial(s, env)
    ensures Inv(s, env)
  {
    SumOfZeros(s.clients, IsUp);
    SumOfZeros(s.table.slots, Weight);
    SumOfZeros(s.table.slots, Counts);
  }
}
