/** The broker together with its retained messages: what each step does to both, and that over every
    run the retained messages are those of the run's retained publishes and expiry checks. */
module BrokerWorld {
  import opened Bytes
  import opened Wire
  import opened TopicMatch
  import opened Retained
  import RetainedLaws
  import opened BrokerState
  import opened BrokerInvariant
  import BrokerRuns

  datatype World = World(s: State, ms: seq<Message>)

  /** A step with its time and whether the allocations of a retained message succeed in it. */
  datatype Moment = Moment(step: Step, now: int, memory: bool)

  /** The step is possible, and a packet sees the messages that are retained. */
  ghost predicate Can(w: World, env: Env, e: Moment) {
    Possible(w.s, env, e.step, e.now) && (e.step.Received? ==> e.step.retained == w.ms)
  }

  ghost function Advance(w: World, env: Env, cfg: RetainConfig, e: Moment): (r: World)
    requires w.s.Shaped(env)
    ensures r.s.Shaped(env)
  {
    if Can(w, env, e) then World(Take(w.s, env, e.step, e.now), Retaining(w.s, e.step, w.ms, e.now, cfg, e.memory))
      else w
  }

  ghost function RunWorld(w: World, env: Env, cfg: RetainConfig, es: seq<Moment>): (r: World)
    requires w.s.Shaped(env)
    ensures r.s.Shaped(env)
  {
    if es == [] then w else Advance(RunWorld(w, env, cfg, es[..|es| - 1]), env, cfg, es[|es| - 1])
  }

  /** Every event can happen when its turn comes. */
  ghost predicate Happens(w: World, env: Env, cfg: RetainConfig, es: seq<Moment>)
    requires w.s.Shaped(env)
  {
    es == [] ||
    (Happens(w, env, cfg, es[..|es| - 1]) && Can(RunWorld(w, env, cfg, es[..|es| - 1]), env, es[|es| - 1]))
  }

  lemma {:induction false} HappensBefore(w: World, env: Env, cfg: RetainConfig, es: seq<Moment>, i: nat)
    requires w.s.Shaped(env) && Happens(w, env, cfg, es) && i < |es|
    ensures Happens(w, env, cfg, es[..i]) && Can(RunWorld(w, env, cfg, es[..i]), env, es[i])
    decreases |es|
  {
    hide Can, Advance, Take, Retaining;
    var front := es[..|es| - 1];
    if i < |front| {
      HappensBefore(w, env, cfg, front, i);
      assert front[..i] == es[..i];
    }
  }

  /** The event after the first i can happen, and leads to the state after i + 1. */
  lemma NextMoment(w: World, env: Env, cfg: RetainConfig, es: seq<Moment>, i: nat)
    requires w.s.Shaped(env) && Happens(w, env, cfg, es) && i < |es|
    ensures var v := RunWorld(w, env, cfg, es[..i]);
            && Can(v, env, es[i])
            && RunWorld(w, env, cfg, es[..i + 1]) ==
               World(Take(v.s, env, es[i].step, es[i].now),
                     Retaining(v.s, es[i].step, v.ms, es[i].now, cfg, es[i].memory))
  {
    HappensBefore(w, env, cfg, es, i);
    assert es[..i + 1][..i] == es[..i];
  }

  // ---------- what is retained can be delivered ----------

  lemma PutMembers(ms: seq<Message>, topic: seq<byte>, payload: seq<byte>, now: int, limit: nat, memory: bool)
    ensures forall m | m in Put(ms, topic, payload, now, limit, memory) :: m in ms || m == Message(topic, payload, now)
  {
    RetainedLaws.EvictMeaning(Without(ms, topic), Size(Message(topic, payload, now)), limit);
    hide Evict, Size;
  }

  lemma PutDeliverable(ms: seq<Message>, topic: seq<byte>, payload: seq<byte>, now: int, limit: nat, memory: bool)
    requires Deliverable(ms) && |topic| <= LOCAL_TOPIC && |payload| <= LOCAL_PAYLOAD
    ensures Deliverable(Put(ms, topic, payload, now, limit, memory))
  {
    hide Put;
    PutMembers(ms, topic, payload, now, limit, memory);
  }

  lemma ParsedFits(pkt: seq<byte>)
    requires BodyInside(pkt) && ParsePublish(pkt).Some?
    ensures |ParsePublish(pkt).value.topic| <= LOCAL_TOPIC && |ParsePublish(pkt).value.payload| <= |pkt|
  {}

  /** Every step leaves only messages that a later SUBSCRIBE can be sent. */
  lemma RetainingIsDeliverable(s: State, env: Env, step: Step, ms: seq<Message>, now: int, cfg: RetainConfig,
                               memory: bool)
    requires Possible(s, env, step, now) && Deliverable(ms)
    ensures Deliverable(Retaining(s, step, ms, now, cfg, memory))
  {
    hide Put;
    match step
    case Received(ci, p, _) =>
      if p.PublishPacket? && ParsePublish(p.data).Some? {
        var q := ParsePublish(p.data).value;
        ParsedFits(p.data);
        hide ParsePublish;
        PutDeliverable(ms, q.topic, q.payload, now, cfg.limit, memory);
      }
    case Local(topic, payload, _, _) => PutDeliverable(ms, topic, payload, now, cfg.limit, memory);
    case ExpiryCheck => RetainedLaws.FreshMeaning(ms, now, cfg.ttlSec);
    case _ =>
  }

  // ---------- the two halves of a run ----------

  /** What a step does to the retained messages, as an operation of their store, if it does anything. */
  ghost function OpOf(s: State, step: Step, now: int, cfg: RetainConfig, memory: bool): seq<RetainedLaws.Op>
    requires step.Received? ==> step.client < |s.clients| && Framed(step.packet)
  {
    match step
    case Received(ci, p, _) =>
      if !s.clients[ci].connected || !p.PublishPacket? || !s.clients[ci].authenticated
        || ParsePublish(p.data).None? then []
      else
        var q := ParsePublish(p.data).value;
        if q.qos == 2 || !q.retain || !cfg.enabled then [] else [RetainedLaws.Publish(q.topic, q.payload, now, memory)]
    case Local(topic, payload, _, retain) =>
      if retain && cfg.enabled then [RetainedLaws.Publish(topic, payload, now, memory)] else []
    case ExpiryCheck => [RetainedLaws.Tick(now)]
    case _ => []
  }

  /** The store's share of a run. */
  ghost function OpsOf(w: World, env: Env, cfg: RetainConfig, es: seq<Moment>): seq<RetainedLaws.Op>
    requires w.s.Shaped(env)
  {
    if es == [] then []
    else
      var e, v := es[|es| - 1], RunWorld(w, env, cfg, es[..|es| - 1]);
      OpsOf(w, env, cfg, es[..|es| - 1]) + if Can(v, env, e) then OpOf(v.s, e.step, e.now, cfg, e.memory) else []
  }

  /** The broker's share. */
  function StepsOf(es: seq<Moment>): (r: seq<BrokerRuns.Event>)
    ensures |r| == |es|
  {
    if es == [] then [] else StepsOf(es[..|es| - 1]) + [(es[|es| - 1].step, es[|es| - 1].now)]
  }

  lemma RetainingIsApply(s: State, step: Step, ms: seq<Message>, now: int, cfg: RetainConfig, memory: bool)
    requires step.Received? ==> step.client < |s.clients| && Framed(step.packet)
    ensures var ops := OpOf(s, step, now, cfg, memory);
            && |ops| <= 1
            && Retaining(s, step, ms, now, cfg, memory) ==
               if ops == [] then ms else RetainedLaws.Apply(ms, ops[0], cfg.limit, cfg.ttlSec)
  {
    hide Put, Sweep, ParsePublish;
  }

  /** The retained messages after any run of the broker are those of a run of their store, so everything proved about
      the runs of the store holds of the broker's. */
  lemma {:induction false} RetainedFollowTheRun(w: World, env: Env, cfg: RetainConfig, es: seq<Moment>)
    requires w.s.Shaped(env) && w.ms == []
    ensures RunWorld(w, env, cfg, es).ms == RetainedLaws.Run(OpsOf(w, env, cfg, es), cfg.limit, cfg.ttlSec)
    decreases |es|
  {
    if es != [] {
      var e, front := es[|es| - 1], es[..|es| - 1];
      var v := RunWorld(w, env, cfg, front);
      RetainedFollowTheRun(w, env, cfg, front);
      if Can(v, env, e) {
        var ops := OpOf(v.s, e.step, e.now, cfg, e.memory);
        RetainingIsApply(v.s, e.step, v.ms, e.now, cfg, e.memory);
        var before := OpsOf(w, env, cfg, front);
        assert OpsOf(w, env, cfg, es) == before + ops;
        hide *;
        if ops == [] {
          assert before + ops == before;
        } else {
          assert ops == [ops[0]];
          RetainedLaws.RunSnoc(before, ops[0], cfg.limit, cfg.ttlSec);
        }
      } else {
        assert OpsOf(w, env, cfg, es) == OpsOf(w, env, cfg, front) + [] == OpsOf(w, env, cfg, front);
      }
    }
  }

  /** The tables after any run of both are those of a run of the broker, so everything proved about the broker's runs
      holds. */
  lemma {:induction false} TablesFollowTheRun(w: World, env: Env, cfg: RetainConfig, es: seq<Moment>)
    requires w.s.Shaped(env) && Happens(w, env, cfg, es)
    ensures RunWorld(w, env, cfg, es).s == BrokerRuns.Run(w.s, env, StepsOf(es))
    decreases |es|
  {
    if es != [] {
      var e, front := es[|es| - 1], es[..|es| - 1];
      TablesFollowTheRun(w, env, cfg, front);
      hide Take, Possible;
      assert StepsOf(es)[..|es| - 1] == StepsOf(front);
    }
  }

  /** In every reachable state the invariant holds and every retained message can be delivered, so every step can
      follow. */
  lemma {:induction false} WorldKeeps(w: World, env: Env, cfg: RetainConfig, es: seq<Moment>)
    requires Initial(w.s, env) && w.ms == [] && Happens(w, env, cfg, es)
    ensures var v := RunWorld(w, env, cfg, es); Inv(v.s, env) && v.s.lastWalk <= v.s.clock && Deliverable(v.ms)
  {
    TablesFollowTheRun(w, env, cfg, es);
    BrokerRuns.RunKeeps(w.s, env, StepsOf(es));
    hide Inv, Initial;
    DeliverableKept(w, env, cfg, es);
  }

  lemma {:induction false} DeliverableKept(w: World, env: Env, cfg: RetainConfig, es: seq<Moment>)
    requires w.s.Shaped(env) && Deliverable(w.ms)
    ensures Deliverable(RunWorld(w, env, cfg, es).ms)
    decreases |es|
  {
    if es != [] {
      var e, front := es[|es| - 1], es[..|es| - 1];
      var v := RunWorld(w, env, cfg, front);
      DeliverableKept(w, env, cfg, front);
      hide Deliverable, Take, Retaining, Possible;
      if Can(v, env, e) { RetainingIsDeliverable(v.s, env, e.step, v.ms, e.now, cfg, e.memory); }
    }
  }

  /** Over every run of the broker: each retained message is the last one the run kept for its topic, whoever published
      it, and no topic is retained twice. */
  lemma RetainedIsTheLastWord(w: World, env: Env, cfg: RetainConfig, es: seq<Moment>)
    requires w.s.Shaped(env) && w.ms == []
    ensures var v := RunWorld(w, env, cfg, es);
            && Distinct(v.ms)
            && forall m | m in v.ms :: RetainedLaws.LastWord(OpsOf(w, env, cfg, es), m.topic) == Some(m)
  {
    hide *;
    RetainedFollowTheRun(w, env, cfg, es);
    RetainedLaws.StoredIsLastWord(OpsOf(w, env, cfg, es), cfg.limit, cfg.ttlSec);
  }
}
