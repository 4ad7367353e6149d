/** Short runs from power-up that show where the broker departs from its own description. */
module BrokerExamples {
  import opened Bytes
  import opened Wire
  import opened TopicMatch
  import opened Retained
  import opened BrokerState
  import opened Sums
  import opened SubPool
  import opened InflightLaws
  import opened BrokerInvariant
  import opened BrokerRuns
  import opened DeliveryLevels
  import opened FanoutLaws

  lemma RunOneMore(s: State, env: Env, before: seq<Event>, step: Step, now: int)
    requires s.Shaped(env) && Possible(Run(s, env, before), env, step, now)
    ensures Run(s, env, before + [(step, now)]) == Take(Run(s, env, before), env, step, now)
    ensures Reconnected(s, env, before + [(step, now)]) ==
            Reconnected(s, env, before) + if Reconnects(Run(s, env, before), step) then 1 else 0
  {
    assert (before + [(step, now)])[..|before|] == before;
  }

  // ---------- one client ----------

  /** Only slot 0 has ever been used, by a client without messages in flight; `subs` are the subscriptions. */
  ghost predicate Alone(s: State, env: Env, subs: seq<Sub>) {
    && s.Shaped(env) && s.subs == subs && s.table.bytes == 0
    && (forall i | 1 <= i < MAX_CLIENTS :: s.clients[i] == NO_CLIENT)
    && (forall k | 0 <= k < SLOTS :: s.table.slots[k] == NO_SLOT)
  }

  const GREETING := ConnectRequest(0, [0x61], 60)

  function Greets(): Step {
    Received(0, ConnectPacket(GREETING), [])
  }

  lemma AcceptedAlone(s: State, env: Env, now: int)
    requires Initial(s, env) && s.clock <= now
    ensures Possible(s, env, Accepted(5), now)
    ensures var t := Take(s, env, Accepted(5), now);
            Alone(t, env, s.subs) && t.clients[0].fd == 5 && !t.clients[0].connected && t.clock == now
  {
    assert s.clients[0] == NO_CLIENT;
    assert FreeClient(s.clients) == 0;
  }

  /** CONNECT on slot 0, whether it is connected already or not. */
  lemma GreetedAlone(s: State, env: Env, subs: seq<Sub>, now: int)
    requires Alone(s, env, subs) && s.clients[0].fd >= 0 && s.clock <= now && NoSendFails(env)
    ensures Possible(s, env, Greets(), now)
    ensures var t := Take(s, env, Greets(), now);
            Alone(t, env, subs) && t.clients[0].connected && t.clients[0].authenticated
              && t.clients[0].fd == s.clients[0].fd
            && t.clock == now
  {
    var id := CString(GREETING.clientId);
    assert Namesake(s.clients, 0, id, 0) == MAX_CLIENTS;
    var s1 := Admit(s, 0, GREETING, now);
    assert env.net(s1.sends);
    assert Send(s1, env, 0, [0x20, 2, 0, 0]) == s1.(sends := s1.sends + 1, log := s1.log + [Sent(0, [0x20, 2, 0, 0])]);
  }

  lemma OneIsUp(s: State, env: Env, subs: seq<Sub>)
    requires Alone(s, env, subs) && s.clients[0].connected
    ensures Sum(s.clients, IsUp) == 1
  {
    var none := s.clients[0 := NO_CLIENT];
    SumOfZeros(none, IsUp);
    SumUpdate(s.clients, 0, NO_CLIENT, IsUp);
  }

  // ---------- the connection counter ----------

  function TwoGreetings(now: int): seq<Event> {
    [] + [(Accepted(5), now)] + [(Greets(), now)] + [(Greets(), now)]
  }

  /** One connection that sends CONNECT twice is counted as two. */
  lemma SecondConnectCountsTwice(s0: State, env: Env, now: int)
    requires Initial(s0, env) && s0.clock <= now && NoSendFails(env)
    ensures var s := Run(s0, env, TwoGreetings(now));
            s.numConnected == 2 && Sum(s.clients, IsUp) == 1
  {
    Greeted(s0, env, now);
    var es := [] + [(Accepted(5), now)] + [(Greets(), now)];
    var s2 := Run(s0, env, es);
    GreetedAlone(s2, env, s0.subs, now);
    RunOneMore(s0, env, es, Greets(), now);
    OneIsUp(Run(s0, env, TwoGreetings(now)), env, s0.subs);
    CounterExactlyWithoutReconnects(s0, env, TwoGreetings(now));
  }

  lemma Greeted(s0: State, env: Env, now: int)
    requires Initial(s0, env) && s0.clock <= now && NoSendFails(env)
    ensures var es := [] + [(Accepted(5), now)] + [(Greets(), now)];
            var s := Run(s0, env, es);
            && Alone(s, env, s0.subs) && s.clients[0].connected && s.clients[0].authenticated && s.clients[0].fd == 5
            && s.clock == now && Reconnected(s0, env, es) == 0
  {
    AcceptedAlone(s0, env, now);
    RunOneMore(s0, env, [], Accepted(5), now);
    var s1 := Run(s0, env, [] + [(Accepted(5), now)]);
    GreetedAlone(s1, env, s0.subs, now);
    RunOneMore(s0, env, [] + [(Accepted(5), now)], Greets(), now);
  }

  // ---------- the shared send buffer ----------

  const TOPIC: Topic := [0x61]
  const ANY: seq<byte> := [0x2B]

  const BOTH := SubscribeRequest(1, [TopicRequest(TOPIC, 1), TopicRequest(ANY, 0)])

  /** The pool with a grant of QoS 1 in its first slot and one of QoS 0 in its second. */
  function Granting(subs: seq<Sub>): seq<Sub>
    requires |subs| == MAX_SUBS
  {
    subs[0 := Sub(true, 0, TOPIC, 1)][1 := Sub(true, 0, ANY, 0)]
  }

  lemma PoolGrants(subs: seq<Sub>)
    requires |subs| == MAX_SUBS && forall i | 0 <= i < MAX_SUBS :: subs[i] == NO_SUB
    ensures SubscribeAll(subs, 0, BOTH.topics) == (Granting(subs), [1, 0])
  {
    var t, u := TopicRequest(TOPIC, 1), TopicRequest(ANY, 0);
    assert FindSub(subs, 0, TOPIC) == MAX_SUBS && FreeSub(subs) == 0;
    var first := subs[0 := Sub(true, 0, TOPIC, 1)];
    assert SubscribeOne(subs, 0, t) == (first, 1);
    assert FindSub(first, 0, ANY) == MAX_SUBS && FreeSub(first) == 1;
    assert SubscribeOne(first, 0, u) == (Granting(subs), 0);
    assert SubscribeAll(subs, 0, []) == (subs, []);
    hide FindSub, FreeSub, SubscribeOne, SubscribeAll, Granting;
    OneMoreTopic(subs, 0, [], t);
    OneMoreTopic(subs, 0, [] + [t], u);
    assert BOTH.topics == [] + [t] + [u];
    var codes: seq<byte> := [] + [1] + [0];
    assert codes == [1, 0];
  }

  lemma OneMoreTopic(subs: seq<Sub>, ci: nat, before: seq<TopicRequest>, t: TopicRequest)
    ensures var (pool, codes) := SubscribeAll(subs, ci, before);
            var (after, code) := SubscribeOne(pool, ci, t);
            SubscribeAll(subs, ci, before + [t]) == (after, codes + [code])
  {
    assert (before + [t])[..|before|] == before;
  }

  function Subscribes(): Step {
    Received(0, SubscribePacket(Some(BOTH)), [])
  }

  lemma SubscribedAlone(s: State, env: Env, subs: seq<Sub>, now: int)
    requires Alone(s, env, subs) && Live(s.clients[0]) && s.clients[0].authenticated && s.clock <= now
             && NoSendFails(env)
    requires forall i | 0 <= i < MAX_SUBS :: subs[i] == NO_SUB
    ensures Possible(s, env, Subscribes(), now)
    ensures var t := Take(s, env, Subscribes(), now);
            Alone(t, env, Granting(subs)) && Live(t.clients[0]) && t.clock == now
  {
    PoolGrants(subs);
    var s0 := s.(subs := Granting(subs));
    var data := SubackBytes(1, [1, 0]);
    SendOk(s0, env, 0, data);
    var s1 := Send(s0, env, 0, data);
    NothingRetained(s1, env, 0, BOTH.topics, [1, 0]);
    hide SubscribeAll, DeliverAll, SubackBytes;
    assert Subscribe(s, env, 0, Some(BOTH), [], now) == s1.(clients := Touched(s1.clients, 0, now));
  }

  lemma {:induction false} NothingRetained(s: State, env: Env, ci: nat, ts: seq<TopicRequest>, codes: seq<byte>)
    requires s.Shaped(env) && ci < MAX_CLIENTS && |ts| == |codes|
    ensures DeliverAll(s, env, ci, ts, codes, []) == s
    decreases |ts|
  {
    if ts != [] { NothingRetained(s, env, ci, ts[1..], codes[1..]); }
  }

  function TwoGrants(now: int): seq<Event> {
    [] + [(Accepted(5), now)] + [(Greets(), now)] + [(Subscribes(), now)]
  }

  const NOTE: seq<byte> := [0x31]

  lemma {:induction false} NobodyElse(s: State, env: Env, subs: seq<Sub>, i: nat)
    requires |subs| == MAX_SUBS && Alone(s, env, Granting(subs)) && 2 <= i <= MAX_SUBS
    requires forall k | 0 <= k < MAX_SUBS :: subs[k] == NO_SUB
    ensures Audience(s, i, TOPIC) == []
    decreases MAX_SUBS - i
  {
    if i < MAX_SUBS { NobodyElse(s, env, subs, i + 1); }
  }

  lemma BothAreServed(s: State, env: Env, subs: seq<Sub>)
    requires |subs| == MAX_SUBS && Alone(s, env, Granting(subs)) && Live(s.clients[0])
    requires forall k | 0 <= k < MAX_SUBS :: subs[k] == NO_SUB
    ensures Audience(s, 0, TOPIC) == [0, 1]
  {
    NobodyElse(s, env, subs, 2);
    assert Scan(TOPIC, TOPIC, true);
    assert Scan(ANY, TOPIC, true);
    hide Scan;
    assert Audience(s, 1, TOPIC) == [1] + Audience(s, 2, TOPIC);
    assert Audience(s, 0, TOPIC) == [0] + Audience(s, 1, TOPIC);
  }

  lemma {:induction false} AllFree(slots: seq<Slot>, ci: nat, j: nat)
    requires ci < MAX_CLIENTS && j <= PER_CLIENT && |slots| == SLOTS && forall k | 0 <= k < SLOTS :: slots[k] == NO_SLOT
    ensures FreeCount(slots, ci, j) == PER_CLIENT - j
    decreases PER_CLIENT - j
  {
    if j < PER_CLIENT { AllFree(slots, ci, j + 1); }
  }

  lemma RoomForOne(s: State, env: Env, subs: seq<Sub>, job: Job)
    requires |subs| == MAX_SUBS && Alone(s, env, Granting(subs)) && Audience(s, 0, job.topic) == [0, 1]
    requires job.qos == 1 && JobSize(job) <= 2
    ensures RoomFor(s, env, job)
  {
    var a, l := [0, 1], LoadOf(s);
    assert a[1..] == [1] && a[1..][1..] == [];
    forall ci | 0 <= ci < MAX_CLIENTS ensures l.free[ci] == PER_CLIENT { AllFree(s.table.slots, ci, 0); }
    hide FreeCount, LoadOf, Audience;
    assert Asks(s.subs, 0, 1) && !Asks(s.subs, 1, 1);
    assert Asking(s.subs, a[1..][1..], 1) == 0 && Asking(s.subs, a[1..], 1) == 0 && Asking(s.subs, a, 1) == 1;
    forall ci | 0 <= ci < MAX_CLIENTS ensures AskingOf(s.subs, a, 1, ci) <= l.free[ci] {
      assert AskingOf(s.subs, a[1..][1..], 1, ci) == 0 && AskingOf(s.subs, a[1..], 1, ci) == 0;
    }
  }

  /** One client with two subscriptions, the earlier at QoS 1 and the later at QoS 0, is enough for a QoS-1 publish to
      reach it broken, in the smallest buffer the broker can be set to. */
  lemma BrokenFanoutIsReachable(s0: State, env: Env, now: int)
    requires Initial(s0, env) && s0.lastWalk <= s0.clock <= now && NoSendFails(env) && MemoryLasts(env)
             && env.bufSize >= 1024
    ensures var s, job := Run(s0, env, TwoGrants(now)), Job(TOPIC, NOTE, 1, now);
            Fits(env, job) && !Intact(s, env, job)
  {
    var es, job := [] + [(Accepted(5), now)] + [(Greets(), now)], Job(TOPIC, NOTE, 1, now);
    Greeted(s0, env, now);
    SubscribedAlone(Run(s0, env, es), env, s0.subs, now);
    RunOneMore(s0, env, es, Subscribes(), now);
    RunKeeps(s0, env, TwoGrants(now));
    hide Alone, Inv, Intact, Run, Take, Fits, Greets, Subscribes;
    BrokenAmong(Run(s0, env, TwoGrants(now)), env, s0.subs, job);
  }

  lemma BrokenAmong(s: State, env: Env, subs: seq<Sub>, job: Job)
    requires |subs| == MAX_SUBS && Alone(s, env, Granting(subs)) && Live(s.clients[0]) && Inv(s, env)
    requires forall k | 0 <= k < MAX_SUBS :: subs[k] == NO_SUB
    requires job == Job(TOPIC, NOTE, 1, job.now) && s.lastWalk <= job.now && NoSendFails(env) && MemoryLasts(env)
    requires env.bufSize >= 1024
    ensures Fits(env, job) && !Intact(s, env, job)
  {
    assert s.Shaped(env) && s.subs[0].qos == 1 && s.subs[1].qos == 0;
    NoteFits(env, job);
    BothAreServed(s, env, subs);
    RoomForOne(s, env, subs, job);
    hide Inv, Intact, RoomFor, Audience, Fits, Alone;
    QoS1PublishIntactIffGrantsOrdered(s, env, job);
    var a := Audience(s, 0, TOPIC);
    assert a[0] == 0 && a[1] == 1 && !GrantsOrdered(s, a);
  }

  lemma NoteFits(env: Env, job: Job)
    requires job.topic == TOPIC && job.payload == NOTE && env.bufSize >= 1024
    ensures Fits(env, job)
  {
    assert |EncodeLength(4)| == 1 && |EncodeLength(6)| == 1;
  }
}
