/** What a fanout puts on the wire (main/mqtt_broker.c:1075-1129). The loop is a single pass over
    one shared send buffer, so a QoS-1 transmission overwrites the packet that later QoS-0
    deliveries of the same publish send; the comment above the loop describes two passes. */
module FanoutLaws {
  import opened Bytes
  import opened Wire
  import opened WireLaws
  import opened TopicMatch
  import opened BrokerState
  import opened InflightLaws
  import opened BrokerInvariant
  import opened DeliveryLevels

  /** A message being published, at the publisher's QoS. */
  datatype Job = Job(topic: Topic, payload: seq<byte>, qos: nat, now: int)

  /** One turn's delivery: the subscription served and, at QoS 1, the packet id used. */
  datatype Delivery = Delivery(sub: nat, client: nat, pid: Option<u16>)

  function Q0(job: Job): seq<byte> {
    PublishBytes(ForwardPacket(job.topic, job.payload))
  }

  function Q1(job: Job, pid: u16): seq<byte> {
    PublishBytes(Publish(job.topic, job.payload, 1, false, false, pid))
  }

  function JobSize(job: Job): nat {
    |job.topic| + |job.payload|
  }

  /** Both forms of the message fit the send buffer. */
  ghost predicate Fits(env: Env, job: Job) {
    |Q0(job)| <= env.bufSize && |Q1(job, 1)| <= env.bufSize
  }

  ghost predicate NoSendFails(env: Env) {
    forall n: nat :: env.net(n)
  }

  lemma Lengths(job: Job, pid: u16)
    ensures |Q1(job, pid)| == |Q1(job, 1)| && |Q0(job)| < |Q1(job, pid)|
    ensures Q0(job)[0] == 0x30 && Q1(job, pid)[0] == 0x32
  {
    LongerEncoding(|PublishBody(ForwardPacket(job.topic, job.payload))|);
  }

  lemma {:induction false} LongerEncoding(v: nat)
    ensures 1 <= |EncodeLength(v)| <= |EncodeLength(v + 2)|
  {
    if v >= 0x80 {
      if v / 0x80 == (v + 2) / 0x80 {
      } else {
        assert (v + 2) / 0x80 == v / 0x80 + 1;
        LongerByOne(v / 0x80);
      }
    }
  }

  lemma {:induction false} LongerByOne(v: nat)
    ensures |EncodeLength(v)| <= |EncodeLength(v + 1)|
  {
    if v >= 0x80 {
      if v / 0x80 != (v + 1) / 0x80 {
        assert (v + 1) / 0x80 == v / 0x80 + 1;
        LongerByOne(v / 0x80);
      }
    }
  }

  /** What the turn of subscription i delivers, if anything. */
  ghost function Turn(s: State, env: Env, i: nat, job: Job): seq<Delivery>
    requires s.Shaped(env) && i < MAX_SUBS
  {
    if !Wanted(s, i, job.topic) then []
    else
      var ci := s.subs[i].client;
      var (t, j) := Enqueue(s, env, ci, job.topic, job.payload, false, job.now);
      if Min(job.qos, s.subs[i].qos) == 0 || j == PER_CLIENT then [Delivery(i, ci, None)]
      else [Delivery(i, ci, Some(t.table.slots[Ix(ci, j)].pid))]
  }

  ghost function Step(s: State, env: Env, i: nat, job: Job): (r: State)
    requires s.Shaped(env) && i < MAX_SUBS && Fits(env, job)
    ensures r.Shaped(env)
  {
    FanoutOne(s, env, i, job.topic, job.payload, job.qos, job.now)
  }

  ghost function Plan(s: State, env: Env, i: nat, job: Job): seq<Delivery>
    requires s.Shaped(env) && i <= MAX_SUBS && Fits(env, job)
    decreases MAX_SUBS - i
  {
    if i == MAX_SUBS then [] else Turn(s, env, i, job) + Plan(Step(s, env, i, job), env, i + 1, job)
  }

  /** What a delivery should put on the wire. */
  function Ideal(job: Job, d: Delivery): Sent {
    Sent(d.client, if d.pid.Some? then Q1(job, d.pid.value) else Q0(job))
  }

  /** What the front of the shared buffer holds, `last` being the id last written into it. */
  function Front(job: Job, last: Option<u16>): seq<byte> {
    if last.None? then Q0(job) else (Lengths(job, last.value); Q1(job, last.value)[..|Q0(job)|])
  }

  function Actual(job: Job, d: Delivery, last: Option<u16>): Sent {
    Sent(d.client, if d.pid.Some? then Q1(job, d.pid.value) else Front(job, last))
  }

  function Written(job: Job, plan: seq<Delivery>, last: Option<u16>): (r: seq<Sent>)
    ensures |r| == |plan|
    decreases |plan|
  {
    if plan == [] then []
    else [Actual(job, plan[0], last)] + Written(job, plan[1..], if plan[0].pid.Some? then plan[0].pid else last)
  }

  /** The id last written into the buffer, after a turn. */
  function After(turn: seq<Delivery>, last: Option<u16>): Option<u16> {
    if turn != [] && turn[0].pid.Some? then turn[0].pid else last
  }

  // ---------- one turn ----------

  /** The load after the turn of subscription i, and the level of its delivery, if there is one. */
  ghost function LoadAfter(s: State, env: Env, i: nat, job: Job): Load
    requires s.Shaped(env) && i < MAX_SUBS
  {
    if Wanted(s, i, job.topic) && Asks(s.subs, i, job.qos) then Offered(LoadOf(s), env, s.subs[i].client, JobSize(job))
    else LoadOf(s)
  }

  ghost function TurnLevel(s: State, env: Env, i: nat, job: Job): seq<bool>
    requires s.Shaped(env) && i < MAX_SUBS
  {
    if Wanted(s, i, job.topic) then [Asks(s.subs, i, job.qos) && Takes(LoadOf(s), env, s.subs[i].client, JobSize(job))]
    else []
  }

  /** What a turn may leave changed without later turns noticing. */
  ghost predicate SameAudience(s: State, t: State) {
    && |t.clients| == |s.clients| && t.subs == s.subs
    && forall i | 0 <= i < |s.clients| :: SameStanding(s.clients[i], t.clients[i])
  }

  lemma SendOk(s: State, env: Env, ci: nat, data: seq<byte>)
    requires s.Shaped(env) && ci < MAX_CLIENTS && s.clients[ci].fd >= 0 && NoSendFails(env)
    ensures Send(s, env, ci, data) == s.(sends := s.sends + 1, log := s.log + [Sent(ci, data)])
  {
    assert env.net(s.sends);
  }

  lemma TurnEffect(s: State, env: Env, i: nat, job: Job, last: Option<u16>)
    requires Inv(s, env) && i < MAX_SUBS && Fits(env, job) && NoSendFails(env)
    requires s.sendBuf[..|Q0(job)|] == Front(job, last)
    ensures var t, turn := Step(s, env, i, job), Turn(s, env, i, job);
            && SameAudience(s, t)
            && t.log == s.log + Written(job, turn, last)
            && t.sendBuf[..|Q0(job)|] == Front(job, After(turn, last))
  {
    assert s.Shaped(env) && IdsOk(s.table.slots);
    hide Inv, PublishBytes, Front, Scan, LoadOf;
    if Wanted(s, i, job.topic) {
      var ci := s.subs[i].client;
      var (s1, j) := Enqueue(s, env, ci, job.topic, job.payload, false, job.now);
      EnqueueEffect(s, env, ci, job.topic, job.payload, false, job.now);
      if Min(job.qos, s.subs[i].qos) == 0 {
        SendOk(s, env, ci, s.sendBuf[..|Q0(job)|]);
      } else if j == PER_CLIENT {
        SendOk(s1, env, ci, s1.sendBuf[..|Q0(job)|]);
      } else {
        TransmitEffect(s1, env, ci, j, job);
      }
    } else {
      assert s.log + [] == s.log;
    }
  }

  lemma TurnLoad(s: State, env: Env, i: nat, job: Job)
    requires s.Shaped(env) && IdsOk(s.table.slots) && i < MAX_SUBS && Fits(env, job) && NoSendFails(env)
    ensures LoadOf(Step(s, env, i, job)) == LoadAfter(s, env, i, job)
  {
    hide PublishBytes, Scan, FreeCount, Offered;
    if Wanted(s, i, job.topic) {
      var ci := s.subs[i].client;
      var (s1, j) := Enqueue(s, env, ci, job.topic, job.payload, false, job.now);
      EnqueueEffect(s, env, ci, job.topic, job.payload, false, job.now);
      EnqueueLoad(s, env, ci, job.topic, job.payload, job.now);
      hide Enqueue;
      if Min(job.qos, s.subs[i].qos) == 0 {
        SendOk(s, env, ci, s.sendBuf[..|Q0(job)|]);
      } else if j == PER_CLIENT {
        SendOk(s1, env, ci, s1.sendBuf[..|Q0(job)|]);
      } else {
        TransmitEffect(s1, env, ci, j, job);
      }
    }
  }

  lemma TransmitEffect(s: State, env: Env, ci: nat, j: nat, job: Job)
    requires s.Shaped(env) && ci < MAX_CLIENTS && j < PER_CLIENT && s.clients[ci].fd >= 0
    requires Fits(env, job) && NoSendFails(env)
    requires s.table.slots[Ix(ci, j)] == NewSlot(s.table.slots[Ix(ci, j)].pid, job.topic, job.payload, false, job.now)
    ensures var t, pid := Transmit(s, env, ci, j, false), s.table.slots[Ix(ci, j)].pid;
            && t.clients == s.clients && t.subs == s.subs && t.log == s.log + [Sent(ci, Q1(job, pid))]
            && LoadOf(t) == LoadOf(s)
            && t.sendBuf[..|Q0(job)|] == Front(job, Some(pid))
  {
    var pid := s.table.slots[Ix(ci, j)].pid;
    Lengths(job, pid);
    assert SlotPacket(s.table.slots[Ix(ci, j)], false) == Publish(job.topic, job.payload, 1, false, false, pid);
    var s1 := s.(sendBuf := Overlay(s.sendBuf, Q1(job, pid)), table := Note(s.table, Ix(ci, j), Q1(job, pid)));
    SendOk(s1, env, ci, Q1(job, pid));
    assert s1.sendBuf[..|Q0(job)|] == Q1(job, pid)[..|Q0(job)|];
  }

  // ---------- the whole pass ----------

  lemma WrittenSplit(job: Job, turn: seq<Delivery>, rest: seq<Delivery>, last: Option<u16>)
    requires |turn| <= 1
    ensures Written(job, turn + rest, last) ==
            Written(job, turn, last) + Written(job, rest, After(turn, last))
  {
    if turn == [] {
      assert turn + rest == rest;
    } else {
      assert (turn + rest)[1..] == rest;
    }
  }

  /** A state in the middle of a fanout that loses no client. */
  ghost predicate Ready(s: State, env: Env, job: Job, last: Option<u16>) {
    && Inv(s, env) && s.lastWalk <= job.now && Fits(env, job) && NoSendFails(env)
    && s.sendBuf[..|Q0(job)|] == Front(job, last)
  }

  lemma StepReady(s: State, env: Env, i: nat, job: Job, last: Option<u16>)
    requires Ready(s, env, job, last) && i < MAX_SUBS
    ensures var t, turn := Step(s, env, i, job), Turn(s, env, i, job);
            && Ready(t, env, job, After(turn, last)) && SameAudience(s, t)
            && t.log == s.log + Written(job, turn, last) && LoadOf(t) == LoadAfter(s, env, i, job)
  {
    TurnEffect(s, env, i, job, last);
    TurnLoad(s, env, i, job);
    hide LoadAfter, LoadOf, Turn, Written, Front;
    FanoutOneKeeps(s, env, i, job.topic, job.payload, job.qos, job.now);
  }

  ghost function Pass(s: State, env: Env, i: nat, job: Job): (r: State)
    requires s.Shaped(env) && i <= MAX_SUBS && Fits(env, job)
  {
    Fanout(s, env, i, job.topic, job.payload, job.qos, job.now)
  }

  lemma PassStep(s: State, env: Env, i: nat, job: Job)
    requires s.Shaped(env) && i < MAX_SUBS && Fits(env, job)
    ensures Pass(s, env, i, job) == Pass(Step(s, env, i, job), env, i + 1, job)
  {}

  lemma PlanStep(s: State, env: Env, i: nat, job: Job)
    requires s.Shaped(env) && i < MAX_SUBS && Fits(env, job)
    ensures Plan(s, env, i, job) == Turn(s, env, i, job) + Plan(Step(s, env, i, job), env, i + 1, job)
    ensures |Turn(s, env, i, job)| <= 1
  {}

  lemma Joined(a: seq<Sent>, b: seq<Sent>, c: seq<Sent>)
    ensures (a + b) + c == a + (b + c)
  {}

  /** The log of a fanout is what the plan writes through the shared buffer. */
  lemma {:induction false} FanoutLog(s: State, env: Env, i: nat, job: Job, last: Option<u16>)
    requires i <= MAX_SUBS && Ready(s, env, job, last)
    ensures Pass(s, env, i, job).log == s.log + Written(job, Plan(s, env, i, job), last)
    decreases MAX_SUBS - i
  {
    if i == MAX_SUBS {
      hide Ready, Fits;
      assert s.log + [] == s.log;
    } else {
      assert s.Shaped(env) && Fits(env, job);
      hide *;
      StepReady(s, env, i, job, last);
      var t, turn := Step(s, env, i, job), Turn(s, env, i, job);
      PassStep(s, env, i, job);
      PlanStep(s, env, i, job);
      FanoutLog(t, env, i + 1, job, After(turn, last));
      var rest := Plan(t, env, i + 1, job);
      WrittenSplit(job, turn, rest, last);
      Joined(s.log, Written(job, turn, last), Written(job, rest, After(turn, last)));
    }
  }

  /** The subscriptions wanted at the start, in slot order. */
  ghost function Audience(s: State, i: nat, topic: seq<byte>): (r: seq<nat>)
    requires i <= |s.subs|
    ensures InPool(s.subs, r, |s.clients|)
    decreases |s.subs| - i
  {
    if i == |s.subs| then [] else (if Wanted(s, i, topic) then [i] else []) + Audience(s, i + 1, topic)
  }

  lemma {:induction false} AudienceSame(s: State, t: State, i: nat, topic: seq<byte>)
    requires SameAudience(s, t) && i <= |s.subs|
    ensures Audience(t, i, topic) == Audience(s, i, topic)
    decreases |s.subs| - i
  {
    if i < |s.subs| { AudienceSame(s, t, i + 1, topic); }
  }

  ghost predicate Rising(a: seq<nat>) {
    forall k, l | 0 <= k < l < |a| :: a[k] < a[l]
  }

  /** Subscription j is to get a message on this topic: it is active, its filter matches, and its client is on a socket
      and connected. */
  ghost predicate Reaches(s: State, j: nat, topic: seq<byte>) {
    && j < |s.subs| && s.subs[j].active && Accepts(s.subs[j].filter, topic)
    && s.subs[j].client < |s.clients| && s.clients[s.subs[j].client].fd >= 0 && s.clients[s.subs[j].client].connected
  }

  /** From subscription i on, exactly those to get a message on this topic, each once, in slot order. */
  ghost predicate AllReached(s: State, i: nat, topic: seq<byte>, a: seq<nat>) {
    Rising(a) && forall j: nat :: j in a <==> i <= j && Reaches(s, j, topic)
  }

  /** The audience of a topic is exactly the subscriptions it reaches, each once, in slot order. */
  lemma {:induction false} AudienceMeaning(s: State, i: nat, topic: seq<byte>)
    requires i <= |s.subs|
    ensures AllReached(s, i, topic, Audience(s, i, topic))
    decreases |s.subs| - i
  {
    if i < |s.subs| {
      WantedIsReached(s, i, topic);
      var rest, wanted := Audience(s, i + 1, topic), Wanted(s, i, topic);
      assert Audience(s, i, topic) == (if wanted then [i] else []) + rest;
      hide Wanted, Reaches, Audience;
      AudienceMeaning(s, i + 1, topic);
      if wanted {
        RisingCons(i, rest);
        forall j: nat ensures j in [i] + rest <==> i <= j && Reaches(s, j, topic) {}
      } else {
        assert [] + rest == rest;
        forall j: nat ensures j in rest <==> i <= j && Reaches(s, j, topic) {}
      }
    }
  }

  lemma WantedIsReached(s: State, i: nat, topic: seq<byte>)
    requires i < |s.subs|
    ensures Wanted(s, i, topic) <==> Reaches(s, i, topic)
  {
    AcceptsIsScan(s.subs[i].filter, topic);
    hide Accepts, Scan;
  }

  lemma RisingCons(i: nat, a: seq<nat>)
    requires Rising(a) && forall j | j in a :: i < j
    ensures Rising([i] + a)
  {
    var r := [i] + a;
    forall k, l | 0 <= k < l < |r| ensures r[k] < r[l] {
      assert r[l] == a[l - 1] && a[l - 1] in a;
    }
  }

  /** The levels of the audience from subscription i on, computed from the state before the fanout. */
  ghost function Expected(s: State, env: Env, i: nat, job: Job): (r: seq<bool>)
    requires s.Shaped(env) && i <= MAX_SUBS
    ensures |r| == |Audience(s, i, job.topic)|
  {
    LevelsOf(s.subs, Audience(s, i, job.topic), LoadOf(s), env, job.qos, JobSize(job))
  }

  /** A delivery's subscription, client and level: it is at QoS 1, under an id that is not 0, exactly when `q1`. */
  ghost predicate Serves(s: State, d: Delivery, i: nat, q1: bool) {
    && i < |s.subs| && d.sub == i && d.client == s.subs[i].client
    && (d.pid.Some? <==> q1) && (d.pid.Some? ==> d.pid.value != 0)
  }

  ghost predicate ServesAll(s: State, plan: seq<Delivery>, audience: seq<nat>, levels: seq<bool>) {
    && |plan| == |audience| == |levels|
    && forall k | 0 <= k < |audience| :: Serves(s, plan[k], audience[k], levels[k])
  }

  lemma TurnServes(s: State, env: Env, i: nat, job: Job)
    requires s.Shaped(env) && IdsOk(s.table.slots) && i < MAX_SUBS
    ensures ServesAll(s, Turn(s, env, i, job), if Wanted(s, i, job.topic) then [i] else [], TurnLevel(s, env, i, job))
  {
    if Wanted(s, i, job.topic) {
      EnqueueEffect(s, env, s.subs[i].client, job.topic, job.payload, false, job.now);
      EnqueueLoad(s, env, s.subs[i].client, job.topic, job.payload, job.now);
      hide Enqueue, Takes, LoadOf, Scan;
    }
  }

  lemma ServesAppend(s: State, t: State, p: seq<Delivery>, a: seq<nat>, q: seq<bool>,
                     p': seq<Delivery>, a': seq<nat>, q': seq<bool>)
    requires ServesAll(s, p, a, q) && ServesAll(t, p', a', q') && t.subs == s.subs
    ensures ServesAll(s, p + p', a + a', q + q')
  {
    forall k | 0 <= k < |a + a'| ensures Serves(s, (p + p')[k], (a + a')[k], (q + q')[k]) {
      if k >= |a| { assert Serves(t, p'[k - |a|], a'[k - |a|], q'[k - |a|]); }
    }
  }

  /** The levels expected of the rest do not depend on whether the turn has been taken yet. */
  lemma ExpectedStep(s: State, env: Env, i: nat, job: Job, t: State)
    requires s.Shaped(env) && t.Shaped(env) && i < MAX_SUBS && SameAudience(s, t)
             && LoadOf(t) == LoadAfter(s, env, i, job)
    ensures Expected(s, env, i, job) == TurnLevel(s, env, i, job) + Expected(t, env, i + 1, job)
  {
    AudienceSame(s, t, i + 1, job.topic);
    var rest := Audience(s, i + 1, job.topic);
    assert Audience(s, i, job.topic) == (if Wanted(s, i, job.topic) then [i] else []) + rest;
    assert t.subs == s.subs && [] + rest == rest && ([i] + rest)[1..] == rest;
    hide LoadOf, Offered, Takes, Scan, Wanted, Audience, Asks, SameAudience;
    assert forall q: seq<bool> :: [] + q == q;
  }

  /** Each matching live subscription gets exactly one delivery, in slot order: at QoS 1 exactly when publisher and
      grant ask for it and the table takes the message, which the state before the fanout decides. */
  lemma {:induction false} PlanServesAudience(s: State, env: Env, i: nat, job: Job, last: Option<u16>)
    requires i <= MAX_SUBS && Ready(s, env, job, last)
    ensures ServesAll(s, Plan(s, env, i, job), Audience(s, i, job.topic), Expected(s, env, i, job))
    ensures AllReached(s, i, job.topic, Audience(s, i, job.topic))
    decreases MAX_SUBS - i
  {
    AudienceMeaning(s, i, job.topic);
    assert s.Shaped(env) && IdsOk(s.table.slots) && Fits(env, job);
    if i < MAX_SUBS {
      hide Ready, Step, Turn, TurnLevel, LoadAfter, Expected, Wanted, SameAudience, AllReached;
      StepReady(s, env, i, job, last);
      PlanStep(s, env, i, job);
      var t, turn := Step(s, env, i, job), Turn(s, env, i, job);
      PlanServesAudience(t, env, i + 1, job, After(turn, last));
      AudienceSame(s, t, i + 1, job.topic);
      ExpectedStep(s, env, i, job, t);
      TurnServes(s, env, i, job);
      SameSubs(s, t);
      ServesAppend(s, t, turn, if Wanted(s, i, job.topic) then [i] else [], TurnLevel(s, env, i, job),
                   Plan(t, env, i + 1, job), Audience(s, i + 1, job.topic), Expected(t, env, i + 1, job));
    }
  }

  lemma SameSubs(s: State, t: State)
    requires SameAudience(s, t)
    ensures t.subs == s.subs
  {}

  // ---------- when it comes out right ----------

  /** No QoS-0 delivery follows a QoS-1 transmission. */
  ghost predicate Ordered(plan: seq<Delivery>) {
    forall k, l | 0 <= k < l < |plan| :: plan[k].pid.Some? ==> plan[l].pid.Some?
  }

  /** Every delivery of the plan is at QoS 1. */
  ghost predicate AllQ1(plan: seq<Delivery>) {
    forall k | 0 <= k < |plan| :: plan[k].pid.Some?
  }

  ghost predicate AsIdeal(job: Job, w: seq<Sent>, plan: seq<Delivery>) {
    |w| == |plan| && forall k | 0 <= k < |plan| :: w[k] == Ideal(job, plan[k])
  }

  lemma AsIdealCons(job: Job, x: Sent, w: seq<Sent>, plan: seq<Delivery>)
    requires plan != [] && |w| == |plan| - 1
    ensures AsIdeal(job, [x] + w, plan) <==> x == Ideal(job, plan[0]) && AsIdeal(job, w, plan[1..])
  {
    hide Ideal;
    if AsIdeal(job, [x] + w, plan) {
      forall k | 0 <= k < |w| ensures w[k] == Ideal(job, plan[1..][k]) {
        assert ([x] + w)[k + 1] == w[k];
      }
      assert ([x] + w)[0] == x;
    }
  }

  lemma ActualIsIdeal(job: Job, d: Delivery, last: Option<u16>)
    ensures Actual(job, d, last) == Ideal(job, d) <==> d.pid.Some? || last.None?
  {
    if last.Some? { Lengths(job, last.value); }
  }

  lemma AllQ1Cons(plan: seq<Delivery>)
    requires plan != []
    ensures AllQ1(plan) <==> plan[0].pid.Some? && AllQ1(plan[1..])
  {
    if plan[0].pid.Some? && AllQ1(plan[1..]) {
      forall k | 0 <= k < |plan| ensures plan[k].pid.Some? {
        if k > 0 { assert plan[k] == plan[1..][k - 1]; }
      }
    }
  }

  lemma {:induction false} WrittenMeaning(job: Job, plan: seq<Delivery>, last: Option<u16>)
    ensures AsIdeal(job, Written(job, plan, last), plan) <==> Ordered(plan) && (last.Some? ==> AllQ1(plan))
    decreases |plan|
  {
    if plan != [] {
      var d, rest := plan[0], plan[1..];
      var last' := if d.pid.Some? then d.pid else last;
      assert Written(job, plan, last) == [Actual(job, d, last)] + Written(job, rest, last');
      hide Written, Actual, Ordered, AllQ1, AsIdeal;
      WrittenMeaning(job, rest, last');
      AsIdealCons(job, Actual(job, d, last), Written(job, rest, last'), plan);
      ActualIsIdeal(job, d, last);
      OrderedCons(plan);
      AllQ1Cons(plan);
    }
  }

  lemma OrderedCons(plan: seq<Delivery>)
    requires plan != []
    ensures Ordered(plan) <==> Ordered(plan[1..]) && (plan[0].pid.Some? ==> AllQ1(plan[1..]))
  {
    var rest := plan[1..];
    assert forall k | 0 <= k < |rest| :: plan[k + 1] == rest[k];
    if Ordered(rest) && (plan[0].pid.Some? ==> AllQ1(rest)) {
      forall k, l | 0 <= k < l < |plan| && plan[k].pid.Some? ensures plan[l].pid.Some? {
        assert plan[l] == rest[l - 1];
        if k > 0 { assert plan[k] == rest[k - 1]; }
      }
    }
    if Ordered(plan) {
      forall k, l | 0 <= k < l < |rest| && rest[k].pid.Some? ensures rest[l].pid.Some? {
        assert plan[k + 1] == rest[k] && plan[l + 1] == rest[l];
      }
    }
  }

  /** No level of QoS 0 after one of QoS 1. */
  predicate LevelsOrdered(levels: seq<bool>) {
    forall k, l | 0 <= k < l < |levels| :: levels[k] ==> levels[l]
  }

  lemma OrderedLikeLevels(s: State, plan: seq<Delivery>, a: seq<nat>, levels: seq<bool>)
    requires ServesAll(s, plan, a, levels)
    ensures Ordered(plan) <==> LevelsOrdered(levels)
  {
    forall k | 0 <= k < |plan| ensures plan[k].pid.Some? <==> levels[k] {
      assert Serves(s, plan[k], a[k], levels[k]);
    }
    if LevelsOrdered(levels) {
      forall k, l | 0 <= k < l < |plan| && plan[k].pid.Some? ensures plan[l].pid.Some? {
        assert levels[l];
      }
    }
    if Ordered(plan) {
      forall k, l | 0 <= k < l < |levels| && levels[k] ensures levels[l] {
        assert plan[l].pid.Some?;
      }
    }
  }

  // ---------- the promise, and exactly when it is kept ----------

  /** Every delivery of the plan reaches its client as the packet it should be. */
  ghost predicate Intact(s: State, env: Env, job: Job)
    requires s.Shaped(env) && Fits(env, job)
  {
    IntactLog(job, s.log, PublishInternal(s, env, job.topic, job.payload, job.qos, job.now).log,
              Plan(Loaded(s, job), env, 0, job))
  }

  /** One packet was added for each delivery of the plan, to the delivery's client. */
  ghost predicate OneEach(before: seq<Sent>, log: seq<Sent>, plan: seq<Delivery>) {
    && |log| == |before| + |plan| && before <= log
    && forall k | 0 <= k < |plan| :: log[|before| + k].client == plan[k].client
  }

  ghost predicate IntactLog(job: Job, before: seq<Sent>, log: seq<Sent>, plan: seq<Delivery>) {
    |log| == |before| + |plan| && forall k | 0 <= k < |plan| :: log[|before| + k] == Ideal(job, plan[k])
  }

  /** The state in which the loop starts: the QoS-0 packet is in the buffer. */
  function Loaded(s: State, job: Job): State
    requires |Q0(job)| <= |s.sendBuf|
  {
    s.(sendBuf := Overlay(s.sendBuf, Q0(job)))
  }

  lemma LoadedReady(s: State, env: Env, job: Job)
    requires Inv(s, env) && s.lastWalk <= job.now && Fits(env, job) && NoSendFails(env)
    ensures Ready(Loaded(s, job), env, job, None)
    ensures PublishInternal(s, env, job.topic, job.payload, job.qos, job.now) == Pass(Loaded(s, job), env, 0, job)
  {}

  lemma FanoutWrites(s: State, env: Env, job: Job)
    requires Inv(s, env) && s.lastWalk <= job.now && Fits(env, job) && NoSendFails(env)
    ensures var plan := Plan(Loaded(s, job), env, 0, job);
            && PublishInternal(s, env, job.topic, job.payload, job.qos, job.now).log == s.log + Written(job, plan, None)
            && ServesAll(s, plan, Audience(s, 0, job.topic), Expected(s, env, 0, job))
            && AllReached(s, 0, job.topic, Audience(s, 0, job.topic))
  {
    AudienceMeaning(s, 0, job.topic);
    hide AllReached;
    LoadedReady(s, env, job);
    var s0 := Loaded(s, job);
    FanoutLog(s0, env, 0, job, None);
    PlanServesAudience(s0, env, 0, job, None);
    AudienceSame(s, s0, 0, job.topic);
    hide Inv, Plan, Audience, PublishInternal, Written, LevelsOf, FreeCount;
    assert LoadOf(s0) == LoadOf(s);
    assert Expected(s0, env, 0, job) == Expected(s, env, 0, job);
    hide Expected;
    ServesFrom(s, s0, Plan(s0, env, 0, job), Audience(s, 0, job.topic), Expected(s, env, 0, job));
  }

  lemma ServesFrom(s: State, t: State, plan: seq<Delivery>, a: seq<nat>, levels: seq<bool>)
    requires ServesAll(t, plan, a, levels) && t.subs == s.subs
    ensures ServesAll(s, plan, a, levels)
  {
    forall k | 0 <= k < |a| ensures Serves(s, plan[k], a[k], levels[k]) {
      assert Serves(t, plan[k], a[k], levels[k]);
    }
  }

  /** With no send failing and the message fitting the buffer, each matching live subscription gets exactly one packet,
      in slot order, at the level the state before the call decides; and all of them are the packets they should be
      exactly when in these levels no QoS 0 comes after a QoS 1. */
  lemma FanoutIntactIffOrdered(s: State, env: Env, job: Job)
    requires Inv(s, env) && s.lastWalk <= job.now && Fits(env, job) && NoSendFails(env)
    ensures var t := PublishInternal(s, env, job.topic, job.payload, job.qos, job.now);
            var plan := Plan(Loaded(s, job), env, 0, job);
            && ServesAll(s, plan, Audience(s, 0, job.topic), Expected(s, env, 0, job))
            && AllReached(s, 0, job.topic, Audience(s, 0, job.topic))
            && OneEach(s.log, t.log, plan)
            && (Intact(s, env, job) <==> LevelsOrdered(Expected(s, env, 0, job)))
  {
    FanoutWrites(s, env, job);
    var plan := Plan(Loaded(s, job), env, 0, job);
    var log := PublishInternal(s, env, job.topic, job.payload, job.qos, job.now).log;
    AppendedLog(s.log, log, job, plan);
    hide Plan, Expected, Audience, PublishInternal, Written, Ordered, LevelsOrdered, Serves, AllReached;
    OrderedLikeLevels(s, plan, Audience(s, 0, job.topic), Expected(s, env, 0, job));
  }

  lemma AppendedLog(before: seq<Sent>, log: seq<Sent>, job: Job, plan: seq<Delivery>)
    requires log == before + Written(job, plan, None)
    ensures OneEach(before, log, plan)
    ensures IntactLog(job, before, log, plan) <==> Ordered(plan)
  {
    var w := Written(job, plan, None);
    WrittenMeaning(job, plan, None);
    WrittenClients(job, plan, None);
    hide Written, Ideal, Ordered;
    assert forall k | 0 <= k < |plan| :: log[|before| + k] == w[k];
    if IntactLog(job, before, log, plan) {
      forall k | 0 <= k < |plan| ensures w[k] == Ideal(job, plan[k]) { assert log[|before| + k] == w[k]; }
    }
  }

  lemma {:induction false} WrittenClients(job: Job, plan: seq<Delivery>, last: Option<u16>)
    ensures forall k | 0 <= k < |plan| :: Written(job, plan, last)[k].client == plan[k].client
    decreases |plan|
  {
    if plan != [] { WrittenClients(job, plan[1..], After([plan[0]], last)); }
  }

  /** With no send failing a fanout loses nobody. */
  lemma {:induction false} FanoutLosesNobody(s: State, env: Env, i: nat, job: Job, last: Option<u16>)
    requires i <= MAX_SUBS && Ready(s, env, job, last)
    ensures SameAudience(s, Pass(s, env, i, job))
    decreases MAX_SUBS - i
  {
    if i == MAX_SUBS {
      hide Ready, Fits;
    } else {
      assert s.Shaped(env) && Fits(env, job);
      hide Ready, Step, Turn, Pass, Written, LoadAfter, LoadOf, Fits;
      StepReady(s, env, i, job, last);
      var t, turn := Step(s, env, i, job), Turn(s, env, i, job);
      PassStep(s, env, i, job);
      FanoutLosesNobody(t, env, i + 1, job, After(turn, last));
    }
  }

  // ---------- each client's share ----------

  /** A client's subscriptions that a message on this topic reaches. */
  ghost function SharesOf(s: State, ci: nat, topic: seq<byte>): set<nat> {
    set j: nat | j < |s.subs| && Reaches(s, j, topic) && s.subs[j].client == ci
  }

  /** The places at which a client is sent something. */
  ghost function PacketsTo(sent: seq<Sent>, ci: nat): set<nat> {
    set k: nat | k < |sent| && sent[k].client == ci
  }

  /** With no send failing and the message fitting the buffer, each client is sent as many packets as it has
      subscriptions that the message reaches. */
  lemma EachClientGetsItsShare(s: State, env: Env, job: Job, ci: nat)
    requires Inv(s, env) && s.lastWalk <= job.now && Fits(env, job) && NoSendFails(env)
    ensures var log := PublishInternal(s, env, job.topic, job.payload, job.qos, job.now).log;
            s.log <= log && |PacketsTo(log[|s.log|..], ci)| == |SharesOf(s, ci, job.topic)|
  {
    FanoutIntactIffOrdered(s, env, job);
    var log := PublishInternal(s, env, job.topic, job.payload, job.qos, job.now).log;
    var a, plan, levels := Audience(s, 0, job.topic), Plan(Loaded(s, job), env, 0, job), Expected(s, env, 0, job);
    hide *;
    PlanShares(s, job.topic, a, plan, levels, log, ci);
  }

  lemma PlanShares(s: State, topic: seq<byte>, a: seq<nat>, plan: seq<Delivery>, levels: seq<bool>, log: seq<Sent>,
                   ci: nat)
    requires AllReached(s, 0, topic, a) && ServesAll(s, plan, a, levels) && OneEach(s.log, log, plan)
    ensures s.log <= log && |PacketsTo(log[|s.log|..], ci)| == |SharesOf(s, ci, topic)|
  {
    hide AllReached;
    var sent := log[|s.log|..];
    forall k | 0 <= k < |a| ensures a[k] < |s.subs| && sent[k].client == s.subs[a[k]].client {
      assert Serves(s, plan[k], a[k], levels[k]);
    }
    hide ServesAll, Serves, OneEach;
    SharesMatch(s, topic, sent, a, ci);
  }

  lemma SharesMatch(s: State, topic: seq<byte>, sent: seq<Sent>, a: seq<nat>, ci: nat)
    requires AllReached(s, 0, topic, a) && |sent| == |a|
    requires forall k | 0 <= k < |a| :: a[k] < |s.subs| && sent[k].client == s.subs[a[k]].client
    ensures |PacketsTo(sent, ci)| == |SharesOf(s, ci, topic)|
  {
    var shares := SharesOf(s, ci, topic);
    forall j | j in shares ensures j in a {}
    forall k: nat | k < |a| ensures a[k] in shares <==> sent[k].client == ci { assert a[k] in a; }
    assert Rising(a);
    hide AllReached, Reaches, SharesOf, Rising;
    assert PacketsTo(sent, ci) == PlacesOf(a, shares);
    OneToOne(a, shares);
  }

  ghost function PlacesOf(a: seq<nat>, js: set<nat>): set<nat> {
    set k: nat | k < |a| && a[k] in js
  }

  lemma {:induction false} OneToOne(a: seq<nat>, js: set<nat>)
    requires Rising(a) && forall j | j in js :: j in a
    ensures |PlacesOf(a, js)| == |js|
  {
    if a == [] {
      assert js == {} && PlacesOf(a, js) == {};
    } else {
      var front, last := a[..|a| - 1], a[|a| - 1];
      assert a == front + [last];
      PlacesStep(front, last, js);
      var few := PlacesOf(front, js - {last});
      hide PlacesOf, Rising;
      assert forall j | j in js - {last} :: j in front;
      assert Rising(front) by { FrontRises(a); }
      OneToOne(front, js - {last});
    }
  }

  lemma FrontRises(a: seq<nat>)
    requires Rising(a) && a != []
    ensures Rising(a[..|a| - 1])
  {}

  lemma PlacesStep(front: seq<nat>, last: nat, js: set<nat>)
    requires Rising(front + [last])
    ensures |front| !in PlacesOf(front, js - {last})
    ensures PlacesOf(front + [last], js) == PlacesOf(front, js - {last}) + if last in js then {|front|} else {}
  {
    var a := front + [last];
    forall k: nat ensures k in PlacesOf(a, js) <==> k in PlacesOf(front, js - {last}) || (last in js && k == |front|) {
      if k < |front| { assert a[k] == front[k] && a[k] < a[|front|]; }
    }
  }

  /** A QoS-0 publish is always delivered intact. */
  lemma QoS0PublishIsIntact(s: State, env: Env, job: Job)
    requires Inv(s, env) && s.lastWalk <= job.now && Fits(env, job) && NoSendFails(env) && job.qos == 0
    ensures Intact(s, env, job)
  {
    assert s.Shaped(env);
    FanoutIntactIffOrdered(s, env, job);
    NothingAsked(s, env, job);
    hide Expected, Intact, Plan, PublishInternal, Inv, Fits;
  }

  lemma NothingAsked(s: State, env: Env, job: Job)
    requires s.Shaped(env) && job.qos == 0
    ensures LevelsOrdered(Expected(s, env, 0, job))
  {
    var a, levels := Audience(s, 0, job.topic), Expected(s, env, 0, job);
    forall k | 0 <= k < |levels| ensures !levels[k] {
      if levels[k] { LevelsOnlyOnRequest(s.subs, a, LoadOf(s), env, 0, JobSize(job), k); }
    }
  }

  /** In the matching live subscriptions, none granted QoS 0 comes after one granted QoS 1. */
  ghost predicate GrantsOrdered(s: State, audience: seq<nat>) {
    forall k, l | 0 <= k < l < |audience| && audience[k] < |s.subs| && audience[l] < |s.subs| ::
      s.subs[audience[k]].qos > 0 ==> s.subs[audience[l]].qos > 0
  }

  /** The in-flight table has room for everyone in the audience who asks for QoS 1. */
  ghost predicate RoomFor(s: State, env: Env, job: Job)
    requires s.Shaped(env)
  {
    RoomForAll(s.subs, Audience(s, 0, job.topic), LoadOf(s), job.qos, JobSize(job))
  }

  /** While memory lasts, nobody who asks for QoS 1 is degraded if and only if the table had room for all of them. */
  lemma NobodyDegradedIffRoom(s: State, env: Env, job: Job)
    requires s.Shaped(env) && MemoryLasts(env)
    ensures AsAsked(s.subs, Audience(s, 0, job.topic), Expected(s, env, 0, job), job.qos) <==> RoomFor(s, env, job)
  {
    ServedAsAskedIffRoom(s.subs, Audience(s, 0, job.topic), LoadOf(s), env, job.qos, JobSize(job));
  }

  /** So with room for all a QoS-1 publish is intact exactly when the grants of its audience are in that order: both can
      be read off the tables before the call. */
  lemma QoS1PublishIntactIffGrantsOrdered(s: State, env: Env, job: Job)
    requires Inv(s, env) && s.lastWalk <= job.now && Fits(env, job) && NoSendFails(env) && job.qos == 1
    requires MemoryLasts(env) && RoomFor(s, env, job)
    ensures Intact(s, env, job) <==> GrantsOrdered(s, Audience(s, 0, job.topic))
  {
    assert s.Shaped(env);
    FanoutIntactIffOrdered(s, env, job);
    NobodyDegradedIffRoom(s, env, job);
    hide Intact, PublishInternal, Audience, Inv, Fits, Expected, RoomFor;
    LevelsLikeGrants(s, Audience(s, 0, job.topic), Expected(s, env, 0, job));
  }

  lemma LevelsLikeGrants(s: State, a: seq<nat>, levels: seq<bool>)
    requires InPool(s.subs, a, |s.clients|) && AsAsked(s.subs, a, levels, 1)
    ensures LevelsOrdered(levels) <==> GrantsOrdered(s, a)
  {
    forall k | 0 <= k < |a| ensures levels[k] <==> s.subs[a[k]].qos > 0 {
      assert Asks(s.subs, a[k], 1) <==> s.subs[a[k]].qos > 0;
    }
    if GrantsOrdered(s, a) {
      forall k, l | 0 <= k < l < |a| && levels[k] ensures levels[l] { assert s.subs[a[l]].qos > 0; }
    }
    if LevelsOrdered(levels) {
      forall k, l | 0 <= k < l < |a| && s.subs[a[k]].qos > 0 ensures s.subs[a[l]].qos > 0 { assert levels[l]; }
    }
  }

  /** What an intact delivery parses back to: the same topic, as far as the parser keeps it, and payload with RETAIN
      clear, at QoS 1 with its packet id or at QoS 0. */
  lemma IdealParses(job: Job, d: Delivery)
    requires |job.payload| <= LOCAL_PAYLOAD
    ensures var data := Ideal(job, d).data;
            && BodyInside(data) && FrameOf(data) == Whole(|data|)
            && ParsePublish(data) == (
                 var (qos, pid) := if d.pid.Some? then (1, d.pid.value) else (0, 0);
                 Some(Publish(Heard(job.topic), job.payload, qos, false, false, pid)))
  {
    var data := Ideal(job, d).data;
    assert data + [] == data;
    if d.pid.Some? {
      PublishRoundTrip(Publish(job.topic, job.payload, 1, false, false, d.pid.value), []);
    } else {
      PublishRoundTrip(ForwardPacket(job.topic, job.payload), []);
    }
  }
}
