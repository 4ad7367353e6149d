/** What each packet of a client does, from its bytes to the tables and to what is sent
    (main/mqtt_broker.c:755-963, 1151-1304). */
module BrokerPackets {
  import opened Bytes
  import opened Wire
  import opened WireLaws
  import opened TopicMatch
  import opened Retained
  import RetainedLaws
  import opened BrokerState
  import opened SubPool
  import opened InflightLaws
  import opened BrokerInvariant
  import opened DeliveryLevels
  import opened FanoutLaws
  import opened BrokerMeaning

  // ---------- connections ----------

  /** A send gets all of its data out, or loses its client and nobody else; on a slot without a socket it does
      nothing. */
  lemma SendMeaning(s: State, env: Env, ci: nat, data: seq<byte>)
    requires s.Shaped(env) && ci < MAX_CLIENTS
    ensures var t := Send(s, env, ci, data);
            if s.clients[ci].fd < 0 then t == s
            else if env.net(s.sends) then t == s.(sends := s.sends + 1, log := s.log + [Sent(ci, data)])
            else OnlyLost(s.(sends := s.sends + 1), t, i => i == ci)
  {
    if s.clients[ci].fd >= 0 && !env.net(s.sends) {
      DisconnectMeaning(s.(sends := s.sends + 1), env, ci);
    }
  }

  /** A new connection takes the first slot without a socket, not connected yet; when there is none it is turned away.
      Nothing else changes. */
  lemma AcceptMeaning(s: State, env: Env, fd: nat, now: int) returns (i: nat)
    requires s.Shaped(env) && s.clock <= now
    ensures i <= MAX_CLIENTS && (forall k | 0 <= k < i :: s.clients[k].fd >= 0)
    ensures var t := Take(s, env, Accepted(fd), now);
            && t == s.(clients := t.clients, clock := now)
            && (i == MAX_CLIENTS ==> t.clients == s.clients)
            && (i < MAX_CLIENTS ==>
                  && s.clients[i].fd < 0 && t.clients[i].fd == fd && !t.clients[i].connected
                  && t.clients[i].authenticated == s.clients[i].authenticated && t.clients[i].id == []
                  && t.clients[i].lastActivity == now && t.clients[i].connectedAt == 0
                  && forall k | 0 <= k < MAX_CLIENTS && k != i :: t.clients[k] == s.clients[k])
  {
    i := FreeClient(s.clients);
  }

  /** A step of the main loop is what it handles, and a connection that breaks loses its client and nobody else. */
  lemma StepMeaning(s: State, env: Env, ci: nat, p: Packet, ms: seq<Message>, now: int)
    requires s.Shaped(env) && ci < MAX_CLIENTS && s.clients[ci].fd >= 0 && Framed(p) && Deliverable(ms)
    requires s.clock <= now
    ensures Take(s, env, BrokerState.Received(ci, p, ms), now) == Dispatch(s, env, ci, p, ms, now).(clock := now)
    ensures OnlyLost(s, Take(s, env, Lost(ci), now), i => i == ci)
  {
    DisconnectMeaning(s, env, ci);
    hide Dispatch, Disconnect;
  }

  /** Who loses the connection by what it sends: anything but CONNECT before a CONNECT, a SUBSCRIBE or UNSUBSCRIBE that
      does not parse, a PUBLISH or SUBSCRIBE without having been admitted, and DISCONNECT. */
  predicate Forfeits(c: Client, p: Packet) {
    || (!c.connected && !p.ConnectPacket?)
    || (p.SubscribePacket? && (p.subscribe.None? || !c.authenticated))
    || (p.UnsubscribePacket? && p.unsubscribe.None?)
    || (p.PublishPacket? && !c.authenticated)
    || p.DisconnectPacket?
  }

  /** Such a client is lost, with all it owns and nobody else, and is sent nothing. */
  lemma ForfeitsMeaning(s: State, env: Env, ci: nat, p: Packet, ms: seq<Message>, now: int)
    requires s.Shaped(env) && ci < MAX_CLIENTS && s.clients[ci].fd >= 0 && Framed(p) && Deliverable(ms)
    requires Forfeits(s.clients[ci], p)
    ensures OnlyLost(s, Dispatch(s, env, ci, p, ms, now), i => i == ci)
  {
    assert Dispatch(s, env, ci, p, ms, now) == Disconnect(s, ci) by {
      hide Disconnect, AcceptPublish, SubscribeAll, UnsubscribeAll, DeliverAll;
    }
    hide Dispatch;
    DisconnectMeaning(s, env, ci);
  }

  /** A PINGREQ is answered with PINGRESP; packets of other types change nothing. */
  lemma PingMeaning(s: State, env: Env, ci: nat, ms: seq<Message>, now: int)
    requires s.Shaped(env) && ci < MAX_CLIENTS && Live(s.clients[ci]) && Deliverable(ms) && env.net(s.sends)
    ensures Dispatch(s, env, ci, PingPacket, ms, now) ==
            s.(sends := s.sends + 1, log := s.log + [Sent(ci, [0xD0, 0])],
               clients := s.clients[ci := s.clients[ci].(lastActivity := now)])
    ensures Dispatch(s, env, ci, OtherPacket, ms, now) == s
  {}

  // ---------- PUBLISH ----------

  /** The publisher's slot with one more publish counted. */
  function OneMore(s: State, ci: nat): State
    requires ci < |s.clients|
  {
    s.(clients := s.clients[ci := s.clients[ci].(published := (s.clients[ci].published + 1) % 0x1_0000_0000)])
  }

  /** What the fanout of a PUBLISH leaves, before the publisher is acknowledged. */
  ghost function Spread(s: State, env: Env, ci: nat, p: Publish, now: int): (r: State)
    requires s.Shaped(env) && ci < MAX_CLIENTS
    ensures r.Shaped(env)
  {
    PublishInternal(OneMore(s, ci), env, Heard(p.topic), p.payload, p.qos, now)
  }

  /** A built PUBLISH, as it arrives. */
  ghost function Arrives(p: Publish): (r: Packet)
    requires Buildable(p) && |PublishBytes(p)| <= LOCAL_PAYLOAD
    ensures r == PublishPacket(PublishBytes(p)) && Framed(r)
  {
    PublishRoundTrip(p, []);
    PublishPacket(PublishBytes(p))
  }

  /** The state t in which a publisher's activity is noted and its QoS-1 publish acknowledged last, after the state u:
      unless the publisher was lost before, or is lost by this send. */
  ghost predicate Answered(u: State, t: State, env: Env, ci: nat, p: Publish, now: int)
    requires ci < |u.clients| == |t.clients|
  {
    && (p.qos != 1 || u.clients[ci].fd < 0 ==> t == Noted(u, ci, now))
    && (p.qos == 1 && u.clients[ci].fd >= 0 && env.net(u.sends) ==>
          t == Noted(u, ci, now).(sends := u.sends + 1,
                                  log := u.log + [Sent(ci, [0x40, 2, p.pid / 0x100, p.pid % 0x100])]))
    && (p.qos == 1 && u.clients[ci].fd >= 0 && !env.net(u.sends) ==>
          t.log == u.log && t.clients[ci].fd < 0 && !t.clients[ci].connected)
  }

  /** The client was heard now. */
  function Noted(s: State, ci: nat, now: int): State
    requires ci < |s.clients|
  {
    s.(clients := s.clients[ci := s.clients[ci].(lastActivity := now)])
  }

  lemma ReplyMeaning(u: State, env: Env, ci: nat, p: Publish, now: int)
    requires u.Shaped(env) && ci < MAX_CLIENTS
    ensures Answered(u, Reply(u, env, ci, p.qos == 1, AckBytes(0x40, p.pid), now), env, ci, p, now)
  {
    assert AckBytes(0x40, p.pid) == [0x40, 2, p.pid / 0x100, p.pid % 0x100];
    SendMeaning(u, env, ci, AckBytes(0x40, p.pid));
    hide OnlyLost;
    if p.qos == 1 && u.clients[ci].fd >= 0 && !env.net(u.sends) { FailedSend(u, env, ci, AckBytes(0x40, p.pid)); }
  }

  lemma FailedSend(u: State, env: Env, ci: nat, data: seq<byte>)
    requires u.Shaped(env) && ci < MAX_CLIENTS && u.clients[ci].fd >= 0 && !env.net(u.sends)
    ensures var t := Send(u, env, ci, data); t.log == u.log && t.clients[ci].fd < 0 && !t.clients[ci].connected
  {}

  /** A PUBLISH of QoS 2 is dropped. One of QoS 0 or 1 is spread at its own QoS, as far as the parser keeps its topic,
      and at QoS 1 the last thing sent is the PUBACK of its id. */
  lemma PublishMeaning(s: State, env: Env, ci: nat, p: Publish, ms: seq<Message>, now: int)
    requires s.Shaped(env) && ci < MAX_CLIENTS && s.clients[ci].connected && s.clients[ci].authenticated
    requires Buildable(p) && |PublishBytes(p)| <= LOCAL_PAYLOAD && Deliverable(ms)
    ensures p.qos == 2 ==> Dispatch(s, env, ci, Arrives(p), ms, now) == s
    ensures p.qos < 2 ==>
              Answered(Spread(s, env, ci, p, now), Dispatch(s, env, ci, Arrives(p), ms, now), env, ci, p, now)
  {
    Parsed(p);
    var pkt, q := Arrives(p), WireLaws.Received(p);
    assert Dispatch(s, env, ci, pkt, ms, now) == HandlePublish(s, env, ci, pkt.data, now) by {
      hide HandlePublish, PublishBytes;
    }
    hide PublishBytes, ParsePublish, PublishInternal, Dispatch, Heard;
    if p.qos < 2 {
      assert Counted(s, ci) == OneMore(s, ci);
      hide Counted, OneMore;
      assert q.qos == p.qos && q.topic == Heard(p.topic) && q.payload == p.payload;
      assert HandlePublish(s, env, ci, pkt.data, now) == AcceptPublish(s, env, ci, q, now);
      ReplyMeaning(Spread(s, env, ci, p, now), env, ci, p, now);
      hide Answered, Reply;
    }
  }

  /** The last thing a QoS-1 PUBLISH does, whatever became of its fanout: its publisher, if still there and if the send
      succeeds, is sent the PUBACK of its packet id, and was heard now. */
  lemma PublisherIsAcknowledged(s: State, env: Env, ci: nat, p: Publish, ms: seq<Message>, now: int)
    requires s.Shaped(env) && ci < MAX_CLIENTS && s.clients[ci].connected && s.clients[ci].authenticated
    requires Buildable(p) && |PublishBytes(p)| <= LOCAL_PAYLOAD && Deliverable(ms) && p.qos == 1
    ensures var t, u := Dispatch(s, env, ci, Arrives(p), ms, now), Spread(s, env, ci, p, now);
            u.clients[ci].fd >= 0 && env.net(u.sends) ==>
              && |t.log| == |u.log| + 1 && t.log[..|u.log|] == u.log && t.log[|u.log|].client == ci
              && ParseAck(t.log[|u.log|].data) == Some(p.pid)
              && t.clients[ci].lastActivity == now
  {
    PublishMeaning(s, env, ci, p, ms, now);
    assert AckBytes(0x40, p.pid) == [0x40, 2, p.pid / 0x100, p.pid % 0x100];
    AckRoundTrip(0x40, p.pid, []);
    hide Dispatch, PublishBytes, ParseAck, AckBytes, Spread, Arrives;
  }

  lemma Parsed(p: Publish)
    requires Buildable(p)
    ensures BodyInside(PublishBytes(p)) && ParsePublish(PublishBytes(p)) == Some(WireLaws.Received(p))
  {
    PublishRoundTrip(p, []);
  }

  // ---------- a publish, from the publisher's bytes to the subscribers' ----------

  /** What the publisher's packet asks to be spread. */
  function JobOf(p: Publish, now: int): Job {
    Job(Heard(p.topic), p.payload, p.qos, now)
  }

  /** The packet is whole and parses back to the job's message, at QoS 1 with an id or at QoS 0. */
  ghost predicate Carried(data: seq<byte>, job: Job, q1: bool) {
    && BodyInside(data) && FrameOf(data) == Whole(|data|) && ParsePublish(data).Some?
    && var q := ParsePublish(data).value;
       && q.topic == job.topic && q.payload == job.payload && !q.retain && !q.dup
       && q.qos == (if q1 then 1 else 0) && (q.pid != 0 <==> q1)
  }

  /** Some packets were added to a log: one to the client of each of these subscriptions, in their order, and all of
      them carrying the job at these levels if the levels are in order. */
  ghost predicate Spreads(s: State, log: seq<Sent>, a: seq<nat>, levels: seq<bool>, job: Job) {
    && s.log <= log && |log| == |s.log| + |a| && |levels| == |a|
    && (forall k | 0 <= k < |a| :: a[k] < |s.subs| && log[|s.log| + k].client == s.subs[a[k]].client)
    && (LevelsOrdered(levels) ==> forall k | 0 <= k < |a| :: Carried(log[|s.log| + k].data, job, levels[k]))
  }

  /** A publish as its subscribers see it: with no send failing and the message fitting the buffer, one packet for each
      subscription reached; all of them the message, at the levels that the tables give before the call, if in these
      no QoS 0 comes after a QoS 1. */
  lemma SpreadMeaning(s: State, env: Env, job: Job)
    requires Inv(s, env) && s.lastWalk <= job.now && Fits(env, job) && NoSendFails(env)
    requires |job.topic| <= MAX_TOPIC && |job.payload| <= LOCAL_PAYLOAD
    ensures var u := PublishInternal(s, env, job.topic, job.payload, job.qos, job.now);
            && Spreads(s, u.log, Audience(s, 0, job.topic), Expected(s, env, 0, job), job)
            && AllReached(s, 0, job.topic, Audience(s, 0, job.topic)) && SameAudience(s, u)
  {
    FanoutIntactIffOrdered(s, env, job);
    LoadedReady(s, env, job);
    FanoutLosesNobody(Loaded(s, job), env, 0, job, None);
    var u, plan := PublishInternal(s, env, job.topic, job.payload, job.qos, job.now), Plan(Loaded(s, job), env, 0, job);
    var a, levels := Audience(s, 0, job.topic), Expected(s, env, 0, job);
    assert SameAudience(s, u) by {
      assert SameAudience(Loaded(s, job), u);
      hide PublishInternal, Pass, Inv, Fits;
    }
    hide PublishInternal, Plan;
    assert Intact(s, env, job) <==> IntactLog(job, s.log, u.log, plan);
    hide *;
    PlanSpreads(s, u.log, plan, a, levels, job);
  }

  lemma PlanSpreads(s: State, log: seq<Sent>, plan: seq<Delivery>, a: seq<nat>, levels: seq<bool>, job: Job)
    requires ServesAll(s, plan, a, levels) && OneEach(s.log, log, plan)
    requires LevelsOrdered(levels) ==> IntactLog(job, s.log, log, plan)
    requires |job.topic| <= MAX_TOPIC && |job.payload| <= LOCAL_PAYLOAD
    ensures Spreads(s, log, a, levels, job)
  {
    hide LevelsOrdered, Carried, Ideal;
    forall k | 0 <= k < |a|
      ensures a[k] < |s.subs| && log[|s.log| + k].client == s.subs[a[k]].client
      ensures LevelsOrdered(levels) ==> Carried(log[|s.log| + k].data, job, levels[k])
    {
      assert Serves(s, plan[k], a[k], levels[k]);
      IdealCarries(job, plan[k]);
    }
  }

  lemma IdealCarries(job: Job, d: Delivery)
    requires |job.topic| <= MAX_TOPIC && |job.payload| <= LOCAL_PAYLOAD && (d.pid.Some? ==> d.pid.value != 0)
    ensures Carried(Ideal(job, d).data, job, d.pid.Some?)
  {
    IdealParses(job, d);
    hide Ideal, ParsePublish;
  }

  /** Counting the publish shows to no subscriber. */
  lemma CountingDoesNotShow(s: State, env: Env, ci: nat, job: Job)
    requires Inv(s, env) && ci < MAX_CLIENTS
    ensures Inv(OneMore(s, ci), env) && OneMore(s, ci).log == s.log && OneMore(s, ci).subs == s.subs
    ensures Audience(OneMore(s, ci), 0, job.topic) == Audience(s, 0, job.topic)
    ensures Expected(OneMore(s, ci), env, 0, job) == Expected(s, env, 0, job)
  {
    var s1 := OneMore(s, ci);
    TouchKeeps(s, env, ci, s1.clients[ci]);
    AudienceSame(s, s1, 0, job.topic);
    hide Inv, Audience, FreeCount, LevelsOf;
    assert LoadOf(s1) == LoadOf(s);
  }

  /** A job is done: each active subscription whose filter matches and whose client is connected got one packet, in
      slot order, none of them at QoS 1 unless publisher and grant both ask for it; if in these levels no QoS 0 comes
      after a QoS 1, as at QoS 0 it never does, every packet is the message at its level; and these last packets came
      after them. */
  ghost predicate Done(s: State, env: Env, log: seq<Sent>, job: Job, last: seq<Sent>)
    requires s.Shaped(env)
  {
    var a, levels := Audience(s, 0, job.topic), Expected(s, env, 0, job);
    && AllReached(s, 0, job.topic, a) && (job.qos == 0 ==> LevelsOrdered(levels))
    && (forall k | 0 <= k < |a| && levels[k] :: job.qos > 0 && s.subs[a[k]].qos > 0)
    && |log| == |s.log| + |a| + |last| && log[|s.log| + |a|..] == last
    && Spreads(s, log[..|s.log| + |a|], a, levels, job)
  }

  lemma SpreadIsDone(s: State, env: Env, log: seq<Sent>, job: Job, last: seq<Sent>)
    requires s.Shaped(env) && Spreads(s, log, Audience(s, 0, job.topic), Expected(s, env, 0, job), job)
    ensures Done(s, env, log + last, job, last)
  {
    AudienceMeaning(s, 0, job.topic);
    if job.qos == 0 { NothingAsked(s, env, job); }
    var a, levels := Audience(s, 0, job.topic), Expected(s, env, 0, job);
    forall k | 0 <= k < |a| && levels[k] ensures job.qos > 0 && s.subs[a[k]].qos > 0 {
      LevelsOnlyOnRequest(s.subs, a, LoadOf(s), env, job.qos, JobSize(job), k);
    }
    hide Audience, Expected, LevelsOrdered, AllReached, Carried;
    assert (log + last)[..|s.log| + |a|] == log;
  }

  /** A PUBLISH of a connected client, with no send failing and the message fitting the buffer, is done; at QoS 1
      the publisher's PUBACK comes last. */
  lemma PublishArrives(s: State, env: Env, ci: nat, p: Publish, ms: seq<Message>, now: int)
    requires Inv(s, env) && s.lastWalk <= now && ci < MAX_CLIENTS && s.clients[ci].connected && NoSendFails(env)
    requires Buildable(p) && |PublishBytes(p)| <= LOCAL_PAYLOAD && p.qos < 2 && Deliverable(ms)
    requires Fits(env, JobOf(p, now))
    ensures Done(s, env, Dispatch(s, env, ci, Arrives(p), ms, now).log, JobOf(p, now),
                 if p.qos == 1 then [Sent(ci, [0x40, 2, p.pid / 0x100, p.pid % 0x100])] else [])
  {
    hide Inv, Dispatch, PublishInternal, PublishBytes, Audience, Expected, Fits, Buildable, Arrives, Spreads,
         Deliverable, Done, AllReached, LevelsOrdered, SameAudience, Answered, NoSendFails, Heard;
    ConnectedIsLive(s, env, ci);
    var s1, u, job := OneMore(s, ci), Spread(s, env, ci, p, now), JobOf(p, now);
    BodyIsLonger(p);
    assert u == PublishInternal(s1, env, job.topic, job.payload, job.qos, job.now);
    CountingDoesNotShow(s, env, ci, job);
    PublishMeaning(s, env, ci, p, ms, now);
    assert s1.clients[ci].fd >= 0 && s1.lastWalk == s.lastWalk && job.payload == p.payload && job.qos == p.qos;
    assert |job.topic| <= MAX_TOPIC by { HeardFits(p.topic); }
    hide *;
    SpreadMeaning(s1, env, job);
    SameStart(s, s1, u.log, Audience(s, 0, job.topic), Expected(s, env, 0, job), job);
    AnsweredLast(s1, u, Dispatch(s, env, ci, Arrives(p), ms, now), env, ci, p, now);
    SpreadIsDone(s, env, u.log, job, if p.qos == 1 then [Sent(ci, [0x40, 2, p.pid / 0x100, p.pid % 0x100])] else []);
  }

  lemma HeardFits(topic: Topic)
    ensures |Heard(topic)| <= MAX_TOPIC
  {}

  lemma ConnectedIsLive(s: State, env: Env, ci: nat)
    requires Inv(s, env) && ci < MAX_CLIENTS && s.clients[ci].connected
    ensures s.Shaped(env) && s.clients[ci].authenticated && s.clients[ci].fd >= 0
  {}

  lemma AnsweredLast(s: State, u: State, t: State, env: Env, ci: nat, p: Publish, now: int)
    requires |s.clients| == |u.clients| == |t.clients| == MAX_CLIENTS && ci < MAX_CLIENTS && s.clients[ci].fd >= 0
    requires SameAudience(s, u) && Answered(u, t, env, ci, p, now) && NoSendFails(env)
    ensures t.log ==
            u.log + if p.qos == 1 then [Sent(ci, [0x40, 2, p.pid / 0x100, p.pid % 0x100])] else []
  {
    assert env.net(u.sends) && SameStanding(s.clients[ci], u.clients[ci]);
    assert u.log + [] == u.log;
  }

  lemma SameStart(s: State, s1: State, log: seq<Sent>, a: seq<nat>, levels: seq<bool>, job: Job)
    requires s1.log == s.log && s1.subs == s.subs && Spreads(s1, log, a, levels, job)
    ensures Spreads(s, log, a, levels, job)
  {}

  lemma BodyIsLonger(p: Publish)
    requires p.qos <= 2
    ensures |p.payload| <= |PublishBytes(p)|
  {}

  /** A local publish reaches the same subscriptions the same way. */
  lemma LocalArrives(s: State, env: Env, job: Job, retain: bool)
    requires Inv(s, env) && s.lastWalk <= s.clock <= job.now && NoSendFails(env) && Fits(env, job)
    requires |job.topic| <= MAX_TOPIC && |job.payload| <= LOCAL_PAYLOAD
    ensures Done(s, env, Take(s, env, Local(job.topic, job.payload, job.qos, retain), job.now).log, job, [])
  {
    assert s.Shaped(env);
    var u := PublishInternal(s, env, job.topic, job.payload, job.qos, job.now);
    LocalIsPublish(s, env, job, retain);
    assert u.log + [] == u.log;
    SpreadMeaning(s, env, job);
    hide *;
    SpreadIsDone(s, env, u.log, job, []);
  }

  lemma LocalIsPublish(s: State, env: Env, job: Job, retain: bool)
    requires s.Shaped(env) && Possible(s, env, Local(job.topic, job.payload, job.qos, retain), job.now)
    ensures Take(s, env, Local(job.topic, job.payload, job.qos, retain), job.now).log ==
            PublishInternal(s, env, job.topic, job.payload, job.qos, job.now).log
  {
    hide PublishInternal;
  }

  // ---------- the retained messages ----------

  /** A retained PUBLISH of an admitted client is stored under what the parser keeps of its topic, whatever becomes of
      its fanout; one without RETAIN or of QoS 2, or with the store off, changes nothing retained. */
  lemma PublishIsRetained(s: State, ci: nat, p: Publish, sent: seq<Message>, ms: seq<Message>, now: int,
                          cfg: RetainConfig, memory: bool)
    requires ci < |s.clients| && s.clients[ci].connected && s.clients[ci].authenticated && Distinct(ms)
    requires Buildable(p) && |PublishBytes(p)| <= LOCAL_PAYLOAD
    ensures var r := Retaining(s, BrokerState.Received(ci, Arrives(p), sent), ms, now, cfg, memory);
            if p.retain && cfg.enabled && p.qos < 2
            then RetainedLaws.Replaces(ms, Heard(p.topic), p.payload, now, cfg.limit, memory, r) else r == ms
  {
    Parsed(p);
    RetainedLaws.PutMeaning(ms, Heard(p.topic), p.payload, now, cfg.limit, memory);
    hide PublishBytes, ParsePublish, Put, RetainedLaws.Replaces, Heard;
  }

  /** Of all other steps only a local publish with RETAIN and the expiry check change what is retained; nor does a
      PUBLISH of a client that is not admitted. */
  lemma OthersAreRetained(s: State, step: Step, ms: seq<Message>, now: int, cfg: RetainConfig, memory: bool)
    requires step.Received? ==> step.client < |s.clients| && Framed(step.packet)
    requires step.Received? && step.packet.PublishPacket? ==>
               !s.clients[step.client].connected || !s.clients[step.client].authenticated
    requires Distinct(ms)
    ensures var r := Retaining(s, step, ms, now, cfg, memory);
            if step.Local? && step.retain && cfg.enabled
            then RetainedLaws.Replaces(ms, step.topic, step.payload, now, cfg.limit, memory, r)
            else if step.ExpiryCheck?
            then forall m :: m in r <==> m in ms && (cfg.ttlSec <= 0 || now <= m.storedAt + 1000 * cfg.ttlSec)
            else r == ms
  {
    if step.Local? { RetainedLaws.PutMeaning(ms, step.topic, step.payload, now, cfg.limit, memory); }
    RetainedLaws.SweepMeaning(ms, now, cfg.ttlSec);
    hide Put, Sweep, RetainedLaws.Replaces, ParsePublish;
  }
}
