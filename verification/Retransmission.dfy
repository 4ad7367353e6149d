/** What enqueueing a QoS-1 message and walking the in-flight table do, slot by slot and packet by packet
    (main/mqtt_broker.c:969-1065). */
module Retransmission {
  import opened Bytes
  import opened Wire
  import opened BrokerState
  import opened InflightLaws
  import opened BrokerInvariant
  import opened FanoutLaws

  // ---------- into the table ----------

  /** An enqueue is refused exactly when the message would take the table past 2 MB, each of the client's twenty slots
      is taken, or memory fails. Otherwise it fills a free slot of the client, to be sent again in 15 s, under an id
      that is not 0 and that none of the client's messages has. */
  lemma EnqueueMeaning(s: State, env: Env, ci: nat, topic: Topic, payload: seq<byte>, retain: bool, now: int)
    requires s.Shaped(env) && ci < MAX_CLIENTS && IdsOk(s.table.slots)
    ensures var (t, j) := Enqueue(s, env, ci, topic, payload, retain, now);
            && (j >= 20 <==>
                  || s.table.bytes + |topic| + |payload| > 0x20_0000
                  || (forall l | 0 <= l < SLOTS && l / 20 == ci :: s.table.slots[l].active)
                  || !env.mem(s.allocs))
            && (j >= 20 ==> t.table == s.table)
            && (j < 20 ==>
                  var k := 20 * ci + j;
                  var pid := t.table.slots[k].pid;
                  && !s.table.slots[k].active && pid != 0 && t.clients[ci].nextPid == pid
                  && (forall l | 0 <= l < SLOTS && l / 20 == ci && s.table.slots[l].active ::
                        s.table.slots[l].pid != pid)
                  && t.table.slots == s.table.slots[k := Slot(true, 0, retain, pid, now + 15000, topic, payload)]
                  && t.table.bytes == s.table.bytes + |topic| + |payload|)
  {
    hide Enqueue, FreeSlot, Collides, IdsOk;
    EnqueueEffect(s, env, ci, topic, payload, retain, now);
    EnqueuedId(s, env, ci, topic, payload, retain, now);
    var j := Enqueue(s, env, ci, topic, payload, retain, now).1;
    ClientSlots(s.table.slots, ci);
    if j < PER_CLIENT {
      OtherIds(s.table.slots, ci, Enqueue(s, env, ci, topic, payload, retain, now).0.table.slots[Ix(ci, j)].pid);
    }
  }

  /** The id counter is left at the id used. */
  lemma EnqueuedId(s: State, env: Env, ci: nat, topic: Topic, payload: seq<byte>, retain: bool, now: int)
    requires s.Shaped(env) && ci < MAX_CLIENTS && IdsOk(s.table.slots)
    ensures var (t, j) := Enqueue(s, env, ci, topic, payload, retain, now);
            j < PER_CLIENT ==> t.clients[ci].nextPid == t.table.slots[Ix(ci, j)].pid
  {
    if FreeSlot(s.table.slots, ci, 0) < PER_CLIENT { PacketIdAlwaysFound(s.table.slots, ci, s.clients[ci].nextPid); }
    hide PacketId, FreeSlot, IdsOk, Collides;
  }

  lemma ClientSlots(slots: seq<Slot>, ci: nat)
    requires |slots| == SLOTS && ci < MAX_CLIENTS
    ensures FreeSlot(slots, ci, 0) == PER_CLIENT <==> forall l | 0 <= l < SLOTS && l / 20 == ci :: slots[l].active
  {
    var r := FreeSlot(slots, ci, 0);
    if r == PER_CLIENT {
      forall l | 0 <= l < SLOTS && l / 20 == ci ensures slots[l].active { assert l == Ix(ci, l % 20); }
    } else {
      assert Ix(ci, r) / 20 == ci;
    }
  }

  lemma OtherIds(slots: seq<Slot>, ci: nat, pid: u16)
    requires |slots| == SLOTS && ci < MAX_CLIENTS && !Collides(slots, ci, pid)
    ensures forall l | 0 <= l < SLOTS && l / 20 == ci && slots[l].active :: slots[l].pid != pid
  {
    forall l | 0 <= l < SLOTS && l / 20 == ci && slots[l].active ensures slots[l].pid != pid {
      assert l == Ix(ci, l % 20);
    }
  }

  // ---------- out of the table ----------

  /** What a walk makes of one slot: one that is due is given up after five retransmissions, else put off by 15, 30 and
      then 60 seconds; any other stays. */
  ghost predicate Stepped(e: Slot, f: Slot, now: int) {
    if !e.active || now < e.nextRetry then f == e
    else if e.retries >= 5 then !f.active
    else f == e.(retries := e.retries + 1,
                 nextRetry := now + if e.retries == 0 then 15000 else if e.retries == 1 then 30000 else 60000)
  }

  predicate SentAgain(e: Slot, now: int) {
    e.active && now >= e.nextRetry && e.retries < 5
  }

  /** The packet of a retransmission, to the slot's client. */
  function Again(e: Slot, k: nat): Sent {
    Sent(k / 20, PublishBytes(Publish(e.topic, e.payload, 1, e.retain, true, e.pid)))
  }

  /** The slots before k have been stepped, those from it on are as they were. */
  ghost predicate SteppedTo(slots: seq<Slot>, slots': seq<Slot>, now: int, k: nat) {
    && |slots| == |slots'| == SLOTS
    && forall l | 0 <= l < SLOTS :: if l < k then Stepped(slots[l], slots'[l], now) else slots'[l] == slots[l]
  }

  /** The places before k of the slots sent again, in order. */
  ghost predicate AllSentAgain(slots: seq<Slot>, now: int, k: nat, at: seq<nat>) {
    Rising(at) && forall l: nat :: l in at <==> l < k && l < |slots| && SentAgain(slots[l], now)
  }

  /** One packet was sent for each of these places. */
  ghost predicate OnePacketEach(slots: seq<Slot>, before: seq<Sent>, log: seq<Sent>, at: seq<nat>) {
    && |log| == |before| + |at| && before <= log
    && forall i | 0 <= i < |at| :: at[i] < |slots| && log[|before| + i] == Again(slots[at[i]], at[i])
  }

  /** A walk that has come to slot k. */
  ghost predicate Walked(s: State, t: State, now: int, k: nat, at: seq<nat>) {
    && t.clients == s.clients && t.subs == s.subs
    && SteppedTo(s.table.slots, t.table.slots, now, k)
    && AllSentAgain(s.table.slots, now, k, at)
    && OnePacketEach(s.table.slots, s.log, t.log, at)
  }

  /** Every message in flight fits the buffer and belongs to a client that is connected. */
  ghost predicate Sendable(s: State, env: Env) {
    && s.Shaped(env)
    && forall k | 0 <= k < SLOTS && s.table.slots[k].active ::
         Owner(k) < MAX_CLIENTS && Live(s.clients[Owner(k)])
         && |PublishBytes(SlotPacket(s.table.slots[k], true))| <= env.bufSize
  }

  lemma InvIsSendable(s: State, env: Env)
    requires Inv(s, env)
    ensures Sendable(s, env)
  {
    forall k | 0 <= k < SLOTS && s.table.slots[k].active
      ensures Owner(k) < MAX_CLIENTS && Live(s.clients[Owner(k)])
      ensures |PublishBytes(SlotPacket(s.table.slots[k], true))| <= env.bufSize
    {
      assert Tracked(s.table.slots[k], s.table.records[k], PaceOf(s, env));
      assert Up(s.clients, Owner(k));
    }
  }

  /** One slot of the walk, with no send failing. */
  lemma SlotMeaning(s: State, env: Env, ci: nat, j: nat, now: int)
    requires s.Shaped(env) && ci < MAX_CLIENTS && j < PER_CLIENT && NoSendFails(env)
    requires s.table.slots[Ix(ci, j)].active ==>
               Live(s.clients[ci]) && |PublishBytes(SlotPacket(s.table.slots[Ix(ci, j)], true))| <= env.bufSize
    ensures var t, k := WalkSlot(s, env, ci, j, now), Ix(ci, j);
            && t.Shaped(env) && t.clients == s.clients && t.subs == s.subs
            && t.table.slots == s.table.slots[k := t.table.slots[k]]
            && Stepped(s.table.slots[k], t.table.slots[k], now)
            && t.log == s.log + if SentAgain(s.table.slots[k], now) then [Again(s.table.slots[k], k)] else []
  {
    var k := Ix(ci, j);
    var e := s.table.slots[k];
    assert s.log + [] == s.log;
    if SentAgain(e, now) {
      var f := Later(e, now);
      var data := PublishBytes(SlotPacket(f, true));
      var s1 := s.(table := s.table.(slots := s.table.slots[k := f]));
      assert SlotPacket(f, true) == SlotPacket(e, true) == Publish(e.topic, e.payload, 1, e.retain, true, e.pid);
      assert k / 20 == ci;
      var s2 := s1.(sendBuf := Overlay(s1.sendBuf, data), table := Note(s1.table, k, data));
      SendOk(s2, env, ci, data);
      hide PublishBytes, Send;
    }
  }

  lemma {:induction false} RowMeaning(s: State, t: State, env: Env, ci: nat, j: nat, now: int, at: seq<nat>)
    returns (at': seq<nat>)
    requires Sendable(s, env) && t.Shaped(env) && NoSendFails(env) && ci < MAX_CLIENTS && j <= PER_CLIENT
    requires Walked(s, t, now, Ix(ci, j), at)
    ensures Walked(s, WalkRow(t, env, ci, j, now), now, Ix(ci, PER_CLIENT), at')
    decreases PER_CLIENT - j
  {
    hide Sendable, Walked, WalkSlot, WalkRow, SentAgain;
    at' := at;
    RowStep(t, env, ci, j, now);
    if j < PER_CLIENT {
      var k := Ix(ci, j);
      var u := WalkSlot(t, env, ci, j, now);
      NextSlot(s, t, env, ci, j, now, at);
      at' := if SentAgain(s.table.slots[k], now) then at + [k] else at;
      at' := RowMeaning(s, u, env, ci, j + 1, now, at');
    }
  }

  lemma RowStep(t: State, env: Env, ci: nat, j: nat, now: int)
    requires t.Shaped(env) && ci < MAX_CLIENTS && j <= PER_CLIENT
    ensures WalkRow(t, env, ci, j, now) ==
            if j == PER_CLIENT then t else WalkRow(WalkSlot(t, env, ci, j, now), env, ci, j + 1, now)
  {
    hide WalkSlot;
  }

  lemma RowsStep(t: State, env: Env, ci: nat, now: int)
    requires t.Shaped(env) && ci <= MAX_CLIENTS
    ensures Walk(t, env, ci, now) ==
            if ci == MAX_CLIENTS then t
            else Walk(if Live(t.clients[ci]) then WalkRow(t, env, ci, 0, now) else t, env, ci + 1, now)
  {
    hide WalkRow;
  }

  lemma NextSlot(s: State, t: State, env: Env, ci: nat, j: nat, now: int, at: seq<nat>)
    requires Sendable(s, env) && t.Shaped(env) && NoSendFails(env) && ci < MAX_CLIENTS && j < PER_CLIENT
    requires Walked(s, t, now, Ix(ci, j), at)
    ensures var k := Ix(ci, j);
            && k < |s.table.slots|
            && Walked(s, WalkSlot(t, env, ci, j, now), now, k + 1,
                      if SentAgain(s.table.slots[k], now) then at + [k] else at)
  {
    var k := Ix(ci, j);
    assert k < SLOTS && |s.table.slots| == SLOTS && t.table.slots[k] == s.table.slots[k] && t.clients == s.clients;
    hide Walked, WalkSlot, Stepped, SentAgain, Again;
    SendableSlot(s, t, env, ci, j);
    hide Sendable;
    SlotMeaning(t, env, ci, j, now);
    OneMoreSlot(s, t, WalkSlot(t, env, ci, j, now), now, k, at);
  }

  lemma SendableSlot(s: State, t: State, env: Env, ci: nat, j: nat)
    requires Sendable(s, env) && ci < MAX_CLIENTS && j < PER_CLIENT && t.clients == s.clients
    requires |t.table.slots| == SLOTS && t.table.slots[Ix(ci, j)] == s.table.slots[Ix(ci, j)]
    ensures t.table.slots[Ix(ci, j)].active ==>
              Live(t.clients[ci]) && |PublishBytes(SlotPacket(t.table.slots[Ix(ci, j)], true))| <= env.bufSize
  {
    assert Owner(Ix(ci, j)) == ci;
  }

  lemma OneMoreSlot(s: State, t: State, u: State, now: int, k: nat, at: seq<nat>)
    requires Walked(s, t, now, k, at) && k < SLOTS
    requires u.clients == t.clients && u.subs == t.subs && |u.table.slots| == SLOTS
    requires u.table.slots == t.table.slots[k := u.table.slots[k]]
    requires Stepped(s.table.slots[k], u.table.slots[k], now)
    requires u.log == t.log + if SentAgain(s.table.slots[k], now) then [Again(s.table.slots[k], k)] else []
    ensures Walked(s, u, now, k + 1, if SentAgain(s.table.slots[k], now) then at + [k] else at)
  {
    SentOnce(s.table.slots, now, k, at);
    StepOn(s.table.slots, t.table.slots, u.table.slots, now, k);
    SendOn(s.table.slots, s.log, t.log, u.log, at, if SentAgain(s.table.slots[k], now) then [k] else []);
    assert at + [] == at;
    hide Stepped, SentAgain, Again, AllSentAgain, SteppedTo, OnePacketEach;
  }

  lemma StepOn(slots: seq<Slot>, t: seq<Slot>, u: seq<Slot>, now: int, k: nat)
    requires SteppedTo(slots, t, now, k) && k < SLOTS && |u| == SLOTS && u == t[k := u[k]]
    requires Stepped(slots[k], u[k], now)
    ensures SteppedTo(slots, u, now, k + 1)
  {
    hide Stepped;
  }

  lemma SendOn(slots: seq<Slot>, before: seq<Sent>, log: seq<Sent>, log': seq<Sent>, at: seq<nat>, more: seq<nat>)
    requires OnePacketEach(slots, before, log, at) && |more| <= 1 && (more != [] ==> more[0] < |slots|)
    requires log' == log + if more != [] then [Again(slots[more[0]], more[0])] else []
    ensures OnePacketEach(slots, before, log', at + more)
  {
    hide Again;
  }

  lemma SentOnce(slots: seq<Slot>, now: int, k: nat, at: seq<nat>)
    requires AllSentAgain(slots, now, k, at) && k < |slots|
    ensures AllSentAgain(slots, now, k + 1, if SentAgain(slots[k], now) then at + [k] else at)
  {
    hide SentAgain;
    if SentAgain(slots[k], now) {
      RisingSnoc(at, k);
      hide Rising;
      forall l: nat ensures l in at + [k] <==> l < k + 1 && l < |slots| && SentAgain(slots[l], now) {
        assert l in at + [k] <==> l in at || l == k;
      }
    } else {
      hide Rising;
      forall l: nat ensures l in at <==> l < k + 1 && l < |slots| && SentAgain(slots[l], now) {}
    }
  }

  lemma RisingSnoc(at: seq<nat>, k: nat)
    requires Rising(at) && forall l | l in at :: l < k
    ensures Rising(at + [k])
  {
    forall i, l | 0 <= i < l < |at + [k]| ensures (at + [k])[i] < (at + [k])[l] { assert at[i] in at; }
  }

  lemma {:induction false} RowsMeaning(s: State, t: State, env: Env, ci: nat, now: int, at: seq<nat>)
    returns (at': seq<nat>)
    requires Sendable(s, env) && t.Shaped(env) && NoSendFails(env) && ci <= MAX_CLIENTS
    requires Walked(s, t, now, Ix(ci, 0), at)
    ensures Walked(s, Walk(t, env, ci, now), now, SLOTS, at')
    decreases MAX_CLIENTS - ci
  {
    hide Sendable, Walked, WalkRow, Walk;
    at' := at;
    RowsStep(t, env, ci, now);
    if ci < MAX_CLIENTS {
      assert Ix(ci, PER_CLIENT) == Ix(ci + 1, 0);
      if Live(t.clients[ci]) {
        at' := RowMeaning(s, t, env, ci, 0, now, at);
        at' := RowsMeaning(s, WalkRow(t, env, ci, 0, now), env, ci + 1, now, at');
      } else {
        EmptyRow(s, t, env, ci, now, at);
        at' := RowsMeaning(s, t, env, ci + 1, now, at);
      }
    }
  }

  /** A client that is not connected has nothing in flight. */
  lemma EmptyRow(s: State, t: State, env: Env, ci: nat, now: int, at: seq<nat>)
    requires Sendable(s, env) && ci < MAX_CLIENTS && Walked(s, t, now, Ix(ci, 0), at) && !Live(t.clients[ci])
    ensures Walked(s, t, now, Ix(ci + 1, 0), at)
  {
    forall l | Ix(ci, 0) <= l < Ix(ci + 1, 0) ensures !s.table.slots[l].active { assert Owner(l) == ci; }
    hide Sendable, Again;
  }

  /** A walk with no send failing: every message that is not due stays; one due for the sixth time is given up; any
      other is put off by 15, 30 and then 60 seconds and sent again, once, with DUP set and otherwise as before, in the
      order of the slots. Nothing else is sent, and nobody is lost. */
  lemma WalkMeaning(s: State, env: Env, now: int) returns (at: seq<nat>)
    requires Inv(s, env) && NoSendFails(env) && Possible(s, env, RetryWalk, now)
    ensures Walked(s, Take(s, env, RetryWalk, now), now, SLOTS, at)
  {
    InvIsSendable(s, env);
    assert s.Shaped(env);
    NothingWalked(s, now);
    hide Inv, Sendable, Walked, Possible;
    at := RowsMeaning(s, s, env, 0, now, []);
    WalkIsTaken(s, env, now);
    hide Walk, Take;
    SameWalked(s, Walk(s, env, 0, now), Take(s, env, RetryWalk, now), now, SLOTS, at);
  }

  lemma NothingWalked(s: State, now: int)
    requires |s.table.slots| == SLOTS
    ensures Walked(s, s, now, 0, [])
  {}

  lemma WalkIsTaken(s: State, env: Env, now: int)
    requires s.Shaped(env) && Possible(s, env, RetryWalk, now)
    ensures var t, u := Walk(s, env, 0, now), Take(s, env, RetryWalk, now);
            u.clients == t.clients && u.subs == t.subs && u.table == t.table && u.log == t.log
  {
    hide Walk;
  }

  lemma SameWalked(s: State, t: State, u: State, now: int, k: nat, at: seq<nat>)
    requires Walked(s, t, now, k, at)
    requires u.clients == t.clients && u.subs == t.subs && u.table == t.table && u.log == t.log
    ensures Walked(s, u, now, k, at)
  {}
}
