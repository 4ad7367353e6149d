/** What single broker operations amount to for their client and for everyone else
    (main/mqtt_broker.c:485-515, 751-920, 1140-1320). */
module BrokerMeaning {
  import opened Bytes
  import opened Wire
  import opened WireLaws
  import opened TopicMatch
  import opened Retained
  import opened BrokerState
  import opened InflightLaws
  import opened BrokerInvariant
  import opened FanoutLaws

  // ---------- losing clients ----------

  /** What a client slot is after its connection is gone: free, and nothing left of the session but its times. */
  predicate Left(c: Client, d: Client) {
    && d.fd == -1 && !d.connected && !d.authenticated && d.id == [] && d.published == 0 && d.nextPid == 0
    && d.keepAlive == c.keepAlive && d.lastActivity == c.lastActivity && d.connectedAt == c.connectedAt
  }

  /** The slots for which `gone` holds are cleared with everything they own, and nothing else changes. */
  ghost predicate OnlyLost(s: State, t: State, gone: nat -> bool)
    requires |s.clients| == |t.clients| == MAX_CLIENTS && s.table.Shaped() && t.table.Shaped()
  {
    && |t.subs| == |s.subs| && t.log == s.log && t.sends == s.sends
    && (forall i | 0 <= i < MAX_CLIENTS ::
          if gone(i) then Left(s.clients[i], t.clients[i]) else t.clients[i] == s.clients[i])
    && (forall j | 0 <= j < |s.subs| ::
          t.subs[j] == if s.subs[j].active && gone(s.subs[j].client) then s.subs[j].(active := false) else s.subs[j])
    && (forall k | 0 <= k < SLOTS ::
          if gone(Owner(k)) then !t.table.slots[k].active else t.table.slots[k] == s.table.slots[k])
  }

  /** client_disconnect of an open slot loses that client and no other. */
  lemma DisconnectMeaning(s: State, env: Env, ci: nat)
    requires s.Shaped(env) && ci < MAX_CLIENTS && s.clients[ci].fd >= 0
    ensures OnlyLost(s, Disconnect(s, ci), i => i == ci)
  {
    DisconnectSlots(s.table, ci);
    ClearedIsLost(s, ci, DropSubs(s.subs, ci), FreeAll(s.table, ci, 0));
  }

  lemma ClearedIsLost(s: State, ci: nat, subs: seq<Sub>, table: Table)
    requires ci < |s.clients| == MAX_CLIENTS && s.table.Shaped() && table.Shaped() && |subs| == |s.subs|
    requires forall j | 0 <= j < |subs| ::
               subs[j] == if s.subs[j].active && s.subs[j].client == ci then s.subs[j].(active := false) else s.subs[j]
    requires forall k | 0 <= k < SLOTS ::
               if Owner(k) == ci then !table.slots[k].active else table.slots[k] == s.table.slots[k]
    ensures OnlyLost(s, s.(clients := s.clients[ci := Dead(s.clients[ci])], subs := subs, table := table,
                           numConnected := s.numConnected - IsUp(s.clients[ci])), i => i == ci)
  {}

  /** A connected client with a keep-alive was silent for longer than that and ten seconds more. */
  predicate Silent(c: Client, now: int) {
    c.fd >= 0 && c.connected && c.keepAlive > 0 && now - c.lastActivity > 1000 * c.keepAlive + 10000
  }

  /** From client i on, the keep-alive check loses the silent. */
  ghost function LostFrom(s: State, i: nat, now: int): nat -> bool
    requires |s.clients| == MAX_CLIENTS
  {
    x => i <= x < MAX_CLIENTS && Silent(s.clients[x], now)
  }

  /** check_keepalive disconnects exactly the clients that stayed silent past their keep-alive and the grace. */
  lemma {:induction false} KeepAliveMeaning(s: State, env: Env, i: nat, now: int)
    requires s.Shaped(env) && i <= MAX_CLIENTS
    ensures OnlyLost(s, KeepAlive(s, env, i, now), LostFrom(s, i, now))
    decreases MAX_CLIENTS - i
  {
    if i < MAX_CLIENTS {
      if Overdue(s.clients[i], now) {
        var t := Disconnect(s, i);
        DisconnectMeaning(s, env, i);
        KeepAliveMeaning(t, env, i + 1, now);
        LostMore(s, t, KeepAlive(t, env, i + 1, now), i, now);
      } else {
        KeepAliveMeaning(s, env, i + 1, now);
        var r := KeepAlive(s, env, i + 1, now);
        assert forall x: nat :: LostFrom(s, i, now)(x) == LostFrom(s, i + 1, now)(x);
      }
    }
  }

  lemma LostMore(s: State, t: State, r: State, i: nat, now: int)
    requires |s.clients| == |t.clients| == |r.clients| == MAX_CLIENTS
    requires s.table.Shaped() && t.table.Shaped() && r.table.Shaped()
    requires i < MAX_CLIENTS && Silent(s.clients[i], now)
    requires OnlyLost(s, t, x => x == i) && OnlyLost(t, r, LostFrom(t, i + 1, now))
    ensures OnlyLost(s, r, LostFrom(s, i, now))
  {
    var first, later, all := (x: nat) => x == i, LostFrom(t, i + 1, now), LostFrom(s, i, now);
    forall x: nat ensures all(x) == (first(x) || later(x)) {
      if i < x < MAX_CLIENTS { assert t.clients[x] == s.clients[x]; }
    }
  }

  // ---------- CONNECT ----------

  /** An accepted CONNECT whose CONNACK gets out leaves its slot connected under its id as the only one, and takes
      from the table no more than the one session that held the id. */
  lemma ConnectMeaning(s: State, env: Env, ci: nat, req: ConnectRequest, ms: seq<Message>, now: int)
    requires Inv(s, env) && ci < MAX_CLIENTS && s.clients[ci].fd >= 0 && req.rc == 0 && env.net(s.sends)
    requires Deliverable(ms)
    ensures var t, id := Dispatch(s, env, ci, ConnectPacket(req), ms, now), CString(req.clientId);
            && t.clients[ci].connected && t.clients[ci].authenticated && t.clients[ci].id == id
            && t.clients[ci].keepAlive == req.keepAlive && t.clients[ci].lastActivity == now
            && t.clients[ci].connectedAt == now && t.clients[ci].fd == s.clients[ci].fd
            && t.log == s.log + [Sent(ci, [0x20, 2, 0, 0])]
            && (forall i | 0 <= i < MAX_CLIENTS && i != ci ::
                  if s.clients[i].connected && s.clients[i].id == id then Left(s.clients[i], t.clients[i])
                  else t.clients[i] == s.clients[i])
            && (forall j | 0 <= j < MAX_SUBS ::
                  t.subs[j].active <==>
                    s.subs[j].active && (s.subs[j].client == ci || t.clients[s.subs[j].client].connected))
            && (forall k | 0 <= k < SLOTS ::
                  if Owner(k) == ci || (Owner(k) < MAX_CLIENTS && t.clients[Owner(k)].connected)
                  then t.table.slots[k] == s.table.slots[k] else !t.table.slots[k].active)
  {
    hide InflightOk, CountOk, SubPool.KeysOk, CString;
    var id := CString(req.clientId);
    var other := Namesake(s.clients, ci, id, 0);
    if other < MAX_CLIENTS {
      DisconnectMeaning(s, env, other);
    }
    assert forall j | 0 <= j < MAX_SUBS && s.subs[j].active :: Up(s.clients, s.subs[j].client);
  }

  /** A refused CONNECT is answered with its return code and ends the connection, and nobody else's. */
  lemma RefusedConnectMeaning(s: State, env: Env, ci: nat, req: ConnectRequest, ms: seq<Message>, now: int)
    requires s.Shaped(env) && ci < MAX_CLIENTS && s.clients[ci].fd >= 0 && req.rc != 0 && env.net(s.sends)
    requires Deliverable(ms)
    ensures var t := Dispatch(s, env, ci, ConnectPacket(req), ms, now);
            var told := s.(sends := s.sends + 1, log := s.log + [Sent(ci, [0x20, 2, 0, req.rc])]);
            OnlyLost(told, t, i => i == ci)
  {
    var told := s.(sends := s.sends + 1, log := s.log + [Sent(ci, [0x20, 2, 0, req.rc])]);
    DisconnectMeaning(told, env, ci);
  }

  // ---------- PUBACK ----------

  /** The slot found is the only one with the id. */
  lemma AwaitingMeaning(slots: seq<Slot>, ci: nat, pid: u16)
    requires ci < MAX_CLIENTS && |slots| == SLOTS && IdsOk(slots)
    ensures var j := Awaiting(slots, ci, pid, 0);
            && (j < PER_CLIENT <==> Collides(slots, ci, pid))
            && forall k | 0 <= k < SLOTS && slots[k].active && Owner(k) == ci && slots[k].pid == pid ::
                 j < PER_CLIENT && k == Ix(ci, j)
  {
    var j := Awaiting(slots, ci, pid, 0);
    hide Awaiting;
    forall k | 0 <= k < SLOTS && slots[k].active && Owner(k) == ci && slots[k].pid == pid
      ensures j < PER_CLIENT && k == Ix(ci, j)
    {
      assert k == Ix(ci, k - Ix(ci, 0));
    }
  }

  /** A PUBACK ends exactly the in-flight message of this client with its packet id, if there is one. */
  lemma PubackMeaning(s: State, env: Env, ci: nat, pid: u16, ms: seq<Message>, now: int)
    requires Inv(s, env) && ci < MAX_CLIENTS && s.clients[ci].connected && Deliverable(ms)
    ensures var t := Dispatch(s, env, ci, PubackPacket([0x40, 2, pid / 0x100, pid % 0x100]), ms, now);
            && t.log == s.log && t.subs == s.subs
            && t.clients == s.clients[ci := s.clients[ci].(lastActivity := now)]
            && (forall k | 0 <= k < SLOTS ::
                  if s.table.slots[k].active && Owner(k) == ci && s.table.slots[k].pid == pid
                  then !t.table.slots[k].active else t.table.slots[k] == s.table.slots[k])
            && |t.table.closed| - |s.table.closed| == if Collides(s.table.slots, ci, pid) then 1 else 0
  {
    assert AckBytes(0x40, pid) == [0x40, 2, pid / 0x100, pid % 0x100];
    assert s.Shaped(env);
    PubackFrees(s, env, ci, pid, now);
    hide Inv, Puback, AckBytes, Collides, Free;
    assert Dispatch(s, env, ci, PubackPacket(AckBytes(0x40, pid)), ms, now) ==
           Puback(s, env, ci, AckBytes(0x40, pid), now);
  }

  lemma PubackFrees(s: State, env: Env, ci: nat, pid: u16, now: int)
    requires s.Shaped(env) && IdsOk(s.table.slots) && ci < MAX_CLIENTS
    ensures var t := Puback(s, env, ci, AckBytes(0x40, pid), now);
            && t.log == s.log && t.subs == s.subs
            && t.clients == s.clients[ci := s.clients[ci].(lastActivity := now)]
            && (forall k | 0 <= k < SLOTS ::
                  if s.table.slots[k].active && Owner(k) == ci && s.table.slots[k].pid == pid
                  then !t.table.slots[k].active else t.table.slots[k] == s.table.slots[k])
            && |t.table.closed| - |s.table.closed| == if Collides(s.table.slots, ci, pid) then 1 else 0
  {
    AckRoundTrip(0x40, pid, []);
    AwaitingMeaning(s.table.slots, ci, pid);
    hide ParseAck, AckBytes, Awaiting, Collides;
  }

  // ---------- retained messages on SUBSCRIBE ----------

  /** The retained messages a filter selects and the buffer can carry, in the order of the store. */
  function Selected(filter: seq<byte>, ms: seq<Message>, size: nat): (r: seq<Message>)
    requires forall m | m in ms :: |m.topic| < 0x1_0000
  {
    if ms == [] then []
    else
      var rest := Selected(filter, ms[1..], size);
      if Scan(filter, ms[0].topic, true) && |PublishBytes(RetainedPacket(ms[0]))| <= size then [ms[0]] + rest else rest
  }

  lemma {:induction false} SelectedMeaning(filter: seq<byte>, ms: seq<Message>, size: nat)
    requires forall m | m in ms :: |m.topic| < 0x1_0000
    ensures forall m: Message | |m.topic| < 0x1_0000 ::
              m in Selected(filter, ms, size) <==>
                m in ms && Scan(filter, m.topic, true) && |PublishBytes(RetainedPacket(m))| <= size
  {
    if ms != [] {
      SelectedMeaning(filter, ms[1..], size);
      assert ms == [ms[0]] + ms[1..];
    }
  }

  /** The packets a retained delivery puts on the wire: one per selected message, carrying it with RETAIN set at
      QoS 0. */
  ghost predicate Carries(ci: nat, sent: seq<Sent>, ms: seq<Message>) {
    && |sent| == |ms|
    && forall k | 0 <= k < |ms| ::
         && sent[k].client == ci && |ms[k].topic| < 0x1_0000 && BodyInside(sent[k].data)
            && FrameOf(sent[k].data) == Whole(|sent[k].data|)
         && ParsePublish(sent[k].data) == Some(Publish(Heard(ms[k].topic), ms[k].payload, 0, true, false, 0))
  }

  lemma OneCarried(m: Message)
    requires |m.topic| <= LOCAL_TOPIC && |m.payload| <= LOCAL_PAYLOAD
    ensures var data := PublishBytes(RetainedPacket(m));
            && BodyInside(data) && FrameOf(data) == Whole(|data|)
            && ParsePublish(data) == Some(Publish(Heard(m.topic), m.payload, 0, true, false, 0))
  {
    var data := PublishBytes(RetainedPacket(m));
    assert data + [] == data;
    PublishRoundTrip(RetainedPacket(m), []);
  }

  function Packets(ci: nat, ms: seq<Message>): (r: seq<Sent>)
    requires forall m | m in ms :: |m.topic| < 0x1_0000
    ensures |r| == |ms| && forall k | 0 <= k < |ms| :: r[k] == Sent(ci, PublishBytes(RetainedPacket(ms[k])))
  {
    seq(|ms|, k requires 0 <= k < |ms| => Sent(ci, PublishBytes(RetainedPacket(ms[k]))))
  }

  lemma PacketsCarry(ci: nat, ms: seq<Message>)
    requires Deliverable(ms)
    ensures Carries(ci, Packets(ci, ms), ms)
  {
    forall k | 0 <= k < |ms|
      ensures var data := Packets(ci, ms)[k].data;
              && BodyInside(data) && FrameOf(data) == Whole(|data|)
              && ParsePublish(data) == Some(Publish(Heard(ms[k].topic), ms[k].payload, 0, true, false, 0))
    {
      assert ms[k] in ms;
      OneCarried(ms[k]);
    }
  }

  lemma PacketsCons(ci: nat, m: Message, ms: seq<Message>, log: seq<Sent>)
    requires |m.topic| < 0x1_0000 && forall m | m in ms :: |m.topic| < 0x1_0000
    ensures forall x | x in [m] + ms :: |x.topic| < 0x1_0000
    ensures (log + [Sent(ci, PublishBytes(RetainedPacket(m)))]) + Packets(ci, ms) == log + Packets(ci, [m] + ms)
  {}

  /** The state after the first of the messages, sent. */
  function SentFirst(s: State, ci: nat, data: seq<byte>): State
    requires |data| <= |s.sendBuf|
  {
    s.(sendBuf := Overlay(s.sendBuf, data), sends := s.sends + 1, log := s.log + [Sent(ci, data)])
  }

  lemma DeliverFirst(s: State, env: Env, ci: nat, filter: seq<byte>, ms: seq<Message>)
    requires s.Shaped(env) && ci < MAX_CLIENTS && Live(s.clients[ci]) && NoSendFails(env)
    requires ms != [] && Deliverable(ms) && |PublishBytes(RetainedPacket(ms[0]))| <= env.bufSize
    requires Scan(filter, ms[0].topic, true)
    ensures var s1 := SentFirst(s, ci, PublishBytes(RetainedPacket(ms[0])));
            Deliverable(ms[1..]) && RetainDeliver(s, env, ci, filter, ms) == RetainDeliver(s1, env, ci, filter, ms[1..])
  {
    var data := PublishBytes(RetainedPacket(ms[0]));
    SendOk(s.(sendBuf := Overlay(s.sendBuf, data)), env, ci, data);
  }

  lemma {:induction false} DeliverWrites(s: State, env: Env, ci: nat, filter: seq<byte>, ms: seq<Message>)
    requires s.Shaped(env) && ci < MAX_CLIENTS && Live(s.clients[ci]) && NoSendFails(env) && Deliverable(ms)
    ensures forall m | m in Selected(filter, ms, env.bufSize) :: m in ms
    ensures var t := RetainDeliver(s, env, ci, filter, ms);
            && t.clients == s.clients && t.subs == s.subs && t.table == s.table
            && t.log == s.log + Packets(ci, Selected(filter, ms, env.bufSize))
    decreases |ms|
  {
    if ms != [] {
      var m, rest := ms[0], ms[1..];
      var data := PublishBytes(RetainedPacket(m));
      if Scan(filter, m.topic, true) && |data| <= env.bufSize {
        DeliverFirst(s, env, ci, filter, ms);
        DeliverWrites(SentFirst(s, ci, data), env, ci, filter, rest);
        PacketsCons(ci, m, Selected(filter, rest, env.bufSize), s.log);
      } else {
        DeliverWrites(s, env, ci, filter, rest);
      }
    }
  }

  /** With no send failing, a subscriber is sent exactly the retained messages that its filter matches and the buffer
      can carry, each once, in the order of the store; and each parses back to the stored topic, as far as the parser
      keeps it, and payload. */
  lemma RetainedReachSubscriber(s: State, env: Env, ci: nat, filter: seq<byte>, ms: seq<Message>)
    requires s.Shaped(env) && ci < MAX_CLIENTS && Live(s.clients[ci]) && NoSendFails(env) && Deliverable(ms)
    ensures var t, picked := RetainDeliver(s, env, ci, filter, ms), Selected(filter, ms, env.bufSize);
            && t.clients == s.clients && t.subs == s.subs && t.table == s.table
            && s.log <= t.log && Carries(ci, t.log[|s.log|..], picked)
            && InStoreOrder(picked, ms)
            && forall m: Message | |m.topic| < 0x1_0000 ::
                 m in picked <==>
                   m in ms && Scan(filter, m.topic, true) && |PublishBytes(RetainedPacket(m))| <= env.bufSize
  {
    DeliverWrites(s, env, ci, filter, ms);
    SelectedMeaning(filter, ms, env.bufSize);
    SelectedInOrder(filter, ms, env.bufSize);
    PacketsCarry(ci, Selected(filter, ms, env.bufSize));
  }

  /** The picked messages are the store's, in its order, each at a place of its own. */
  ghost predicate InStoreOrder(picked: seq<Message>, ms: seq<Message>)
    decreases |ms|
  {
    picked == [] || (ms != []
                     && ((picked[0] == ms[0] && InStoreOrder(picked[1..], ms[1..])) || InStoreOrder(picked, ms[1..])))
  }

  lemma {:induction false} SelectedInOrder(filter: seq<byte>, ms: seq<Message>, size: nat)
    requires forall m | m in ms :: |m.topic| < 0x1_0000
    ensures InStoreOrder(Selected(filter, ms, size), ms)
  {
    if ms != [] {
      SelectedInOrder(filter, ms[1..], size);
      var rest := Selected(filter, ms[1..], size);
      assert ([ms[0]] + rest)[1..] == rest;
    }
  }
}
