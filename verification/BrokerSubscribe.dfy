/** What SUBSCRIBE and UNSUBSCRIBE do, up to the bytes of their answers and the retained messages that follow
    (main/mqtt_broker.c:751-777, 862-963). */
module BrokerSubscribe {
  import opened Bytes
  import opened Wire
  import opened WireLaws
  import opened TopicMatch
  import opened Retained
  import opened BrokerState
  import opened SubPool
  import opened BrokerInvariant
  import opened FanoutLaws
  import opened BrokerMeaning

  // ---------- the acknowledgement ----------

  /** A SUBACK of this packet id with these return codes (section 3.9 of MQTT 3.1.1). */
  ghost predicate IsSuback(data: seq<byte>, pid: u16, codes: seq<byte>) {
    var n := |data| - |codes|;
    && n >= 4 && data[0] == 0x90
    && FrameOf(data) == Whole(|data|) && DecodeLength(data[1..]) == Length(2 + |codes|, n - 3)
    && data[n - 2] == pid / 0x100 && data[n - 1] == pid % 0x100 && data[n..] == codes
  }

  lemma SubackMeaning(pid: u16, codes: seq<byte>)
    requires 2 + |codes| < RL_LIMIT
    ensures IsSuback(SubackBytes(pid, codes), pid, codes)
  {
    var data, len := SubackBytes(pid, codes), EncodeLength(2 + |codes|);
    var body := U16Bytes(pid) + codes;
    assert data == [0x90] + len + body;
    assert data[1..] == len + body;
    DecodeEncode(2 + |codes|, body, 4);
    assert data[|data| - |codes|..] == codes;
  }

  // ---------- the retained messages of one filter ----------

  /** Where in the list the messages stand that the filter matches and the buffer can carry. */
  ghost predicate Picks(at: seq<nat>, filter: seq<byte>, ms: seq<Message>, size: nat)
    requires Deliverable(ms)
  {
    && Rising(at)
    && forall k: nat :: k in at <==>
                        && k < |ms| && Accepts(filter, ms[k].topic)
                        && (assert ms[k] in ms;
                            |PublishBytes(Publish(ms[k].topic, ms[k].payload, 0, true, false, 0))| <= size)
  }

  /** One packet to the client for each of them, in their order, carrying it with RETAIN set at QoS 0. */
  ghost predicate Carry(ci: nat, sent: seq<Sent>, at: seq<nat>, ms: seq<Message>) {
    && |sent| == |at|
    && forall k | 0 <= k < |at| :: at[k] < |ms| && sent[k].client == ci && RetainedAs(sent[k].data, ms[at[k]])
  }

  ghost predicate RetainedAs(data: seq<byte>, m: Message) {
    && |m.topic| < 0x1_0000 && BodyInside(data) && FrameOf(data) == Whole(|data|)
    && ParsePublish(data) == Some(Publish(Heard(m.topic), m.payload, 0, true, false, 0))
  }

  /** What a filter's turn sends: the messages it picks, and nothing else. */
  ghost predicate SendsPicked(ci: nat, filter: seq<byte>, ms: seq<Message>, size: nat, sent: seq<Sent>)
    requires Deliverable(ms)
  {
    exists at: seq<nat> :: Picks(at, filter, ms, size) && Carry(ci, sent, at, ms)
  }

  ghost predicate Picked(filter: seq<byte>, m: Message, size: nat)
    requires |m.topic| < 0x1_0000
  {
    Scan(filter, m.topic, true) && |PublishBytes(RetainedPacket(m))| <= size
  }

  /** Their places from the i-th message on. */
  ghost function PlacesFrom(filter: seq<byte>, ms: seq<Message>, i: nat, size: nat): seq<nat>
    requires Deliverable(ms) && i <= |ms|
    decreases |ms| - i
  {
    if i == |ms| then []
    else
      assert ms[i] in ms;
      (if Picked(filter, ms[i], size) then [i] else []) + PlacesFrom(filter, ms, i + 1, size)
  }

  lemma {:induction false} PlacesRise(filter: seq<byte>, ms: seq<Message>, i: nat, size: nat)
    requires Deliverable(ms) && i <= |ms|
    ensures Rising(PlacesFrom(filter, ms, i, size))
    ensures forall k: nat :: k in PlacesFrom(filter, ms, i, size) <==>
                             i <= k < |ms| && (assert ms[k] in ms; Picked(filter, ms[k], size))
    decreases |ms| - i
  {
    if i < |ms| {
      assert ms[i] in ms;
      var at, rest, first := PlacesFrom(filter, ms, i, size), PlacesFrom(filter, ms, i + 1, size),
                             Picked(filter, ms[i], size);
      assert at == (if first then [i] else []) + rest;
      PlacesRise(filter, ms, i + 1, size);
      hide Picked, PlacesFrom, Deliverable;
      if first {
        RisingCons(i, rest);
        hide Rising;
        assert forall k: nat :: k in [i] + rest <==> k == i || k in rest;
      } else {
        assert [] + rest == rest;
      }
    }
  }

  lemma PlacesPick(filter: seq<byte>, ms: seq<Message>, size: nat)
    requires Deliverable(ms)
    ensures Picks(PlacesFrom(filter, ms, 0, size), filter, ms, size)
  {
    var at := PlacesFrom(filter, ms, 0, size);
    PlacesRise(filter, ms, 0, size);
    hide PlacesFrom, PublishBytes, Scan, Accepts, Rising;
    forall k: nat | k < |ms|
      ensures ms[k] in ms && |ms[k].topic| < 0x1_0000
      ensures Picked(filter, ms[k], size) <==>
              Accepts(filter, ms[k].topic)
              && |PublishBytes(Publish(ms[k].topic, ms[k].payload, 0, true, false, 0))| <= size
    {
      AcceptsIsScan(filter, ms[k].topic);
    }
  }

  /** The selected messages are those at these places. */
  lemma {:induction false} SelectedAt(filter: seq<byte>, ms: seq<Message>, i: nat, size: nat)
    requires Deliverable(ms) && i <= |ms|
    ensures forall m | m in ms[i..] :: |m.topic| < 0x1_0000
    ensures var r, at := Selected(filter, ms[i..], size), PlacesFrom(filter, ms, i, size);
            |r| == |at| && forall j | 0 <= j < |r| :: at[j] < |ms| && r[j] == ms[at[j]]
    decreases |ms| - i
  {
    if i < |ms| {
      SelectedAt(filter, ms, i + 1, size);
      assert ms[i..][0] == ms[i] && ms[i..][1..] == ms[i + 1..] && ms[i] in ms;
      var first, r, at := Picked(filter, ms[i], size), Selected(filter, ms[i + 1..], size),
                          PlacesFrom(filter, ms, i + 1, size);
      hide Scan, PublishBytes;
      assert PlacesFrom(filter, ms, i, size) == (if first then [i] else []) + at;
      assert Selected(filter, ms[i..], size) == if first then [ms[i]] + r else r;
      hide Picked, Selected, PlacesFrom, Deliverable;
      if !first { assert [] + at == at; }
    }
  }

  /** What a retained delivery sends is what the filter picks. */
  lemma DeliverySendsPicked(s: State, env: Env, ci: nat, filter: seq<byte>, ms: seq<Message>)
    requires s.Shaped(env) && ci < MAX_CLIENTS && Live(s.clients[ci]) && NoSendFails(env) && Deliverable(ms)
    ensures var t := RetainDeliver(s, env, ci, filter, ms);
            && t.clients == s.clients && t.subs == s.subs && t.table == s.table
            && s.log <= t.log && SendsPicked(ci, filter, ms, env.bufSize, t.log[|s.log|..])
  {
    DeliverWrites(s, env, ci, filter, ms);
    var picked, at := Selected(filter, ms, env.bufSize), PlacesFrom(filter, ms, 0, env.bufSize);
    var t := RetainDeliver(s, env, ci, filter, ms);
    assert ms[0..] == ms;
    SelectedAt(filter, ms, 0, env.bufSize);
    PlacesPick(filter, ms, env.bufSize);
    assert Deliverable(picked);
    PacketsCarry(ci, picked);
    hide *;
    assert t.log[|s.log|..] == Packets(ci, picked);
    CarriedAt(ci, Packets(ci, picked), picked, at, ms);
    WitnessPicks(ci, filter, ms, env.bufSize, t.log[|s.log|..], at);
  }

  lemma CarriedAt(ci: nat, sent: seq<Sent>, picked: seq<Message>, at: seq<nat>, ms: seq<Message>)
    requires Carries(ci, sent, picked) && |picked| == |at|
    requires forall j | 0 <= j < |picked| :: at[j] < |ms| && picked[j] == ms[at[j]]
    ensures Carry(ci, sent, at, ms)
  {
    hide ParsePublish;
  }

  lemma WitnessPicks(ci: nat, filter: seq<byte>, ms: seq<Message>, size: nat, sent: seq<Sent>, at: seq<nat>)
    requires Deliverable(ms) && Picks(at, filter, ms, size) && Carry(ci, sent, at, ms)
    ensures SendsPicked(ci, filter, ms, size, sent)
  {}

  // ---------- SUBSCRIBE ----------

  /** What follows the SUBACK for one topic: nothing for a refused one. */
  ghost predicate TopicSends(ci: nat, filter: seq<byte>, code: byte, ms: seq<Message>, size: nat, sent: seq<Sent>)
    requires Deliverable(ms)
  {
    if code == 0x80 then sent == [] else SendsPicked(ci, filter, ms, size, sent)
  }

  /** The i-th topic's part of the log lies between its cuts. */
  ghost predicate Part(ci: nat, ts: seq<TopicRequest>, codes: seq<byte>, ms: seq<Message>, size: nat,
                       log: seq<Sent>, cuts: seq<nat>, i: nat)
    requires Deliverable(ms) && i < |ts| == |codes| && |cuts| == |ts| + 1
  {
    && cuts[i] <= cuts[i + 1] <= |log|
    && TopicSends(ci, ts[i].filter, codes[i], ms, size, log[cuts[i]..cuts[i + 1]])
  }

  /** The log from its `since`-th packet on is, topic by topic, what each of them sends. */
  ghost predicate TopicByTopic(ci: nat, ts: seq<TopicRequest>, codes: seq<byte>, ms: seq<Message>, size: nat,
                               log: seq<Sent>, since: nat, cuts: seq<nat>)
    requires Deliverable(ms) && |ts| == |codes|
  {
    && |cuts| == |ts| + 1 && cuts[0] == since && cuts[|ts|] == |log|
    && forall i | 0 <= i < |ts| :: Part(ci, ts, codes, ms, size, log, cuts, i)
  }

  lemma {:induction false} DeliverAllMeaning(s: State, env: Env, ci: nat, ts: seq<TopicRequest>, codes: seq<byte>,
                                             ms: seq<Message>)
    returns (cuts: seq<nat>)
    requires s.Shaped(env) && ci < MAX_CLIENTS && Live(s.clients[ci]) && NoSendFails(env) && Deliverable(ms)
    requires |ts| == |codes|
    ensures var t := DeliverAll(s, env, ci, ts, codes, ms);
            && t.clients == s.clients && t.subs == s.subs && t.table == s.table && s.log <= t.log
            && TopicByTopic(ci, ts, codes, ms, env.bufSize, t.log, |s.log|, cuts)
    decreases |ts|
  {
    if ts == [] {
      cuts := [|s.log|];
    } else {
      var s1 := if codes[0] != FAILURE then RetainDeliver(s, env, ci, ts[0].filter, ms) else s;
      assert DeliverAll(s, env, ci, ts, codes, ms) == DeliverAll(s1, env, ci, ts[1..], codes[1..], ms);
      if codes[0] != FAILURE { DeliverySendsPicked(s, env, ci, ts[0].filter, ms); }
      hide RetainDeliver, DeliverAll, SendsPicked, Deliverable;
      assert TopicSends(ci, ts[0].filter, codes[0], ms, env.bufSize, s1.log[|s.log|..]);
      hide TopicSends;
      var rest := DeliverAllMeaning(s1, env, ci, ts[1..], codes[1..], ms);
      cuts := [|s.log|] + rest;
      FirstTopic(ci, ts, codes, ms, env.bufSize, s1.log, DeliverAll(s1, env, ci, ts[1..], codes[1..], ms).log, |s.log|,
                 rest);
    }
  }

  lemma FirstTopic(ci: nat, ts: seq<TopicRequest>, codes: seq<byte>, ms: seq<Message>, size: nat, first: seq<Sent>,
                   log: seq<Sent>, since: nat, rest: seq<nat>)
    requires Deliverable(ms) && |ts| == |codes| > 0 && since <= |first| && first <= log
    requires TopicSends(ci, ts[0].filter, codes[0], ms, size, first[since..])
    requires TopicByTopic(ci, ts[1..], codes[1..], ms, size, log, |first|, rest)
    ensures TopicByTopic(ci, ts, codes, ms, size, log, since, [since] + rest)
  {
    hide TopicSends, Deliverable;
    var cuts := [since] + rest;
    assert log[since..|first|] == first[since..];
    forall i | 0 <= i < |ts| ensures Part(ci, ts, codes, ms, size, log, cuts, i) {
      if i > 0 {
        assert Part(ci, ts[1..], codes[1..], ms, size, log, rest, i - 1);
        assert ts[i] == ts[1..][i - 1] && codes[i] == codes[1..][i - 1];
      }
    }
  }

  /** A SUBSCRIBE of an admitted client, with no send failing: its topics are applied to the map of subscriptions in
      order, the client is sent one SUBACK with their codes, and then, topic by topic and only where the code is not
      0x80, each retained message that the filter matches and the buffer takes, in list order. */
  lemma SubscriberIsAnswered(s: State, env: Env, ci: nat, req: SubscribeRequest, ms: seq<Message>, now: int)
    returns (cuts: seq<nat>)
    requires s.Shaped(env) && KeysOk(s.subs) && ci < MAX_CLIENTS && Live(s.clients[ci]) && s.clients[ci].authenticated
    requires NoSendFails(env) && Deliverable(ms) && 2 + |req.topics| < RL_LIMIT
    ensures var t := Dispatch(s, env, ci, SubscribePacket(Some(req)), ms, now);
            var (m, codes) := Request(AsMap(s.subs), MAX_SUBS, ci, req.topics);
            && KeysOk(t.subs) && AsMap(t.subs) == m && t.table == s.table
            && t.clients == s.clients[ci := s.clients[ci].(lastActivity := now)]
            && s.log < t.log && t.log[|s.log|].client == ci && IsSuback(t.log[|s.log|].data, req.pid, codes)
            && |codes| == |req.topics|
            && TopicByTopic(ci, req.topics, codes, ms, env.bufSize, t.log, |s.log| + 1, cuts)
  {
    var (subs, codes) := SubscribeAll(s.subs, ci, req.topics);
    SubscribeMeaning(s.subs, ci, req.topics);
    var data := SubackBytes(req.pid, codes);
    SubackMeaning(req.pid, codes);
    var s0 := s.(subs := subs);
    var s1 := Send(s0, env, ci, data);
    SendOk(s0, env, ci, data);
    assert s1.log == s.log + [Sent(ci, data)];
    hide SubscribeAll, Request, AsMap, KeysOk, SubackBytes, IsSuback, DeliverAll, TopicByTopic, Deliverable;
    cuts := DeliverAllMeaning(s1, env, ci, req.topics, codes, ms);
    var s2 := DeliverAll(s1, env, ci, req.topics, codes, ms);
    SubscribeSteps(s, env, ci, req, ms, now);
    assert s2.log[|s.log|] == Sent(ci, data);
  }

  lemma SubscribeSteps(s: State, env: Env, ci: nat, req: SubscribeRequest, ms: seq<Message>, now: int)
    requires s.Shaped(env) && ci < MAX_CLIENTS && s.clients[ci].connected && s.clients[ci].authenticated
    requires Deliverable(ms)
    ensures var (subs, codes) := SubscribeAll(s.subs, ci, req.topics);
            var s1 := Send(s.(subs := subs), env, ci, SubackBytes(req.pid, codes));
            var s2 := DeliverAll(s1, env, ci, req.topics, codes, ms);
            Dispatch(s, env, ci, SubscribePacket(Some(req)), ms, now) ==
            s2.(clients := s2.clients[ci := s2.clients[ci].(lastActivity := now)])
  {
    hide SubscribeAll, Send, SubackBytes, DeliverAll, Deliverable;
  }

  /** An UNSUBSCRIBE of a connected client removes exactly the keys it names and is answered with UNSUBACK. */
  lemma UnsubscriberIsAnswered(s: State, env: Env, ci: nat, req: UnsubscribeRequest, ms: seq<Message>, now: int)
    requires s.Shaped(env) && KeysOk(s.subs) && ci < MAX_CLIENTS && Live(s.clients[ci]) && env.net(s.sends)
    requires Deliverable(ms)
    ensures var t := Dispatch(s, env, ci, UnsubscribePacket(Some(req)), ms, now);
            && KeysOk(t.subs) && AsMap(t.subs) == AsMap(s.subs) - Named(ci, req.filters) && t.table == s.table
            && t.clients == s.clients[ci := s.clients[ci].(lastActivity := now)]
            && t.log == s.log + [Sent(ci, [0xB0, 2, req.pid / 0x100, req.pid % 0x100])]
  {
    UnsubscribeMeaning(s.subs, ci, req.filters);
    assert AckBytes(0xB0, req.pid) == [0xB0, 2, req.pid / 0x100, req.pid % 0x100];
    hide UnsubscribeAll, AsMap, KeysOk, Named, AckBytes, Deliverable;
  }
}
