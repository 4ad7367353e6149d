/** What holds in every reachable state of the broker: for all runs of accepts, packets, losses,
    local publishes and periodic tasks, all times and all network and memory failures. */
module BrokerRuns {
  import opened Bytes
  import opened Wire
  import opened BrokerState
  import opened Sums
  import opened SubPool
  import opened InflightLaws
  import opened BrokerInvariant

  type Event = (Step, int)

  /** The state after a run; an event that cannot happen when its turn comes does not. */
  ghost function Run(s: State, env: Env, events: seq<Event>): (r: State)
    requires s.Shaped(env)
    ensures r.Shaped(env)
  {
    if events == [] then s
    else
      var before := Run(s, env, events[..|events| - 1]);
      var (step, now) := events[|events| - 1];
      if Possible(before, env, step, now) then Take(before, env, step, now) else before
  }

  lemma {:induction false} RunKeeps(s: State, env: Env, events: seq<Event>)
    requires Initial(s, env)
    ensures var r := Run(s, env, events); Inv(r, env) && r.lastWalk <= r.clock
  {
    if events == [] {
      InitialInv(s, env);
    } else {
      var before := Run(s, env, events[..|events| - 1]);
      var (step, now) := events[|events| - 1];
      RunKeeps(s, env, events[..|events| - 1]);
      if Possible(before, env, step, now) { TakeKeeps(before, env, step, now); }
    }
  }

  /** Safety of the tables: connected means authenticated and on a socket, ids are unique among
      connected clients, subscriptions and in-flight messages belong to connected clients, no
      client holds a filter twice, and packet ids in flight are nonzero and distinct per client. */
  lemma TablesAreConsistent(s0: State, env: Env, events: seq<Event>)
    requires Initial(s0, env)
    ensures var s := Run(s0, env, events);
            && (forall i | 0 <= i < MAX_CLIENTS ::
                  s.clients[i].connected == s.clients[i].authenticated
                    && (s.clients[i].connected ==> s.clients[i].fd >= 0))
            && (forall i, j | 0 <= i < j < MAX_CLIENTS ::
                  s.clients[i].connected && s.clients[j].connected ==> s.clients[i].id != s.clients[j].id)
            && (forall j | 0 <= j < MAX_SUBS :: s.subs[j].active ==> Up(s.clients, s.subs[j].client))
            && (forall i, j | 0 <= i < j < MAX_SUBS :: s.subs[i].active && s.subs[j].active ==>
                  s.subs[i].client != s.subs[j].client || s.subs[i].filter != s.subs[j].filter)
            && (forall k | 0 <= k < SLOTS ::
                  s.table.slots[k].active ==> Up(s.clients, Owner(k)) && s.table.slots[k].pid != 0)
            && (forall k, l | 0 <= k < l < SLOTS ::
                  s.table.slots[k].active && s.table.slots[l].active && Owner(k) == Owner(l) ==>
                  s.table.slots[k].pid != s.table.slots[l].pid)
  {
    RunKeeps(s0, env, events);
  }

  /** The in-flight byte counter is the exact size of what is in flight and stays under the cap. */
  lemma InflightBytesExact(s0: State, env: Env, events: seq<Event>)
    requires Initial(s0, env)
    ensures var s := Run(s0, env, events); s.table.bytes == Sum(s.table.slots, Weight) <= INFLIGHT_MAX
  {
    RunKeeps(s0, env, events);
  }

  // ---------- the connection counter ----------

  /** How often the run accepted a CONNECT on a slot that was connected already. */
  ghost function Reconnected(s: State, env: Env, events: seq<Event>): nat
    requires s.Shaped(env)
  {
    if events == [] then 0
    else
      var before := Run(s, env, events[..|events| - 1]);
      var (step, now) := events[|events| - 1];
      Reconnected(s, env, events[..|events| - 1])
      + if Possible(before, env, step, now) && Reconnects(before, step) then 1 else 0
  }

  lemma {:induction false} ReconnectsAreCounted(s: State, env: Env, events: seq<Event>)
    requires s.Shaped(env)
    ensures Run(s, env, events).reconnects == s.reconnects + Reconnected(s, env, events)
  {
    if events != [] { ReconnectsAreCounted(s, env, events[..|events| - 1]); }
  }

  /** s_num_connected is the number of connected slots exactly in the runs that never accept a
      second CONNECT on a live connection; each such CONNECT puts it one further off for good. */
  lemma CounterExactlyWithoutReconnects(s0: State, env: Env, events: seq<Event>)
    requires Initial(s0, env)
    ensures var s := Run(s0, env, events);
            && s.numConnected == Sum(s.clients, IsUp) + Reconnected(s0, env, events)
            && (s.numConnected == Sum(s.clients, IsUp) <==> Reconnected(s0, env, events) == 0)
  {
    RunKeeps(s0, env, events);
    ReconnectsAreCounted(s0, env, events);
  }

  // ---------- the life of a QoS-1 message ----------

  function WasAcked(c: Closed): int { if c.why.Acked? then 1 else 0 }
  function WasAbandoned(c: Closed): int { if c.why.Abandoned? then 1 else 0 }
  function WasTooLarge(c: Closed): int { if c.why.TooLarge? then 1 else 0 }
  function WasDropped(c: Closed): int { if c.why.Dropped? then 1 else 0 }

  lemma {:induction false} EndsAddUp(cs: seq<Closed>)
    ensures |cs| == Sum(cs, WasAcked) + Sum(cs, WasAbandoned) + Sum(cs, WasTooLarge) + Sum(cs, WasDropped)
  {
    if cs != [] { EndsAddUp(cs[1..]); }
  }

  /** No message is lost track of: each one enqueued is still in flight, or was acknowledged,
      abandoned, too large to send, or dropped with its client. */
  lemma MessagesAreConserved(s0: State, env: Env, events: seq<Event>)
    requires Initial(s0, env)
    ensures var t := Run(s0, env, events).table;
            t.enqueued == Sum(t.slots, Counts) + Sum(t.closed, WasAcked) + Sum(t.closed, WasAbandoned)
                          + Sum(t.closed, WasTooLarge) + Sum(t.closed, WasDropped)
  {
    RunKeeps(s0, env, events);
    EndsAddUp(Run(s0, env, events).table.closed);
  }

  /** The packets of a message: the first with DUP clear, then at most five with DUP set, the
      same in everything else. */
  ghost predicate SentOnceThenDup(e: Slot, sent: seq<seq<byte>>) {
    && 1 <= |sent| <= 6 && sent[0] == PublishBytes(Publish(e.topic, e.payload, 1, e.retain, false, e.pid))
    && forall i | 1 <= i < |sent| :: sent[i] == PublishBytes(Publish(e.topic, e.payload, 1, e.retain, true, e.pid))
  }

  /** Every message in flight has been sent that way; so has every message that ended, unless it
      was never sent for being too large; and it is abandoned only after all five retransmissions
      and no sooner than 240 s after it was enqueued. */
  lemma MessageLife(s0: State, env: Env, events: seq<Event>)
    requires Initial(s0, env)
    ensures var t := Run(s0, env, events).table;
            && (forall k | 0 <= k < SLOTS :: t.slots[k].active ==> SentOnceThenDup(t.slots[k], t.records[k].sent))
            && (forall c | c in t.closed :: c.why.TooLarge? ==> c.record.sent == [])
            && (forall c | c in t.closed :: !c.why.TooLarge? ==> SentOnceThenDup(c.slot, c.record.sent))
            && (forall c | c in t.closed :: c.why.Abandoned? ==>
                  |c.record.sent| == 6 && c.why.at >= c.record.enqueuedAt + 240000)
  {
    RunKeeps(s0, env, events);
    var s := Run(s0, env, events);
    forall k | 0 <= k < SLOTS && s.table.slots[k].active
      ensures SentOnceThenDup(s.table.slots[k], s.table.records[k].sent)
    {
      assert Tracked(s.table.slots[k], s.table.records[k], PaceOf(s, env));
    }
    assert forall c | c in s.table.closed :: WellClosed(c, env.gap);
  }

  /** When the table is walked at least every `gap` ms, an abandoned message is given up within
      240000 + 6 gap ms, and none in flight outlives the last walk by more than that. */
  lemma AbandonedInTime(s0: State, env: Env, events: seq<Event>)
    requires Initial(s0, env) && env.gap.Some?
    ensures var s := Run(s0, env, events);
            && (forall c | c in s.table.closed :: c.why.Abandoned? ==>
                  240000 <= c.why.at - c.record.enqueuedAt <= 240000 + 6 * env.gap.value)
            && (forall k | 0 <= k < SLOTS :: s.table.slots[k].active ==>
                  s.lastWalk < s.table.records[k].enqueuedAt + 240000 + 5 * env.gap.value)
  {
    RunKeeps(s0, env, events);
    var s := Run(s0, env, events);
    hide Run, Initial;
    PacedInTime(s.table, PaceOf(s, env));
  }

  lemma PacedInTime(t: Table, p: Pace)
    requires InflightOk(t, p) && p.gap.Some?
    ensures forall c | c in t.closed :: c.why.Abandoned? ==>
              240000 <= c.why.at - c.record.enqueuedAt <= 240000 + 6 * p.gap.value
    ensures forall k | 0 <= k < SLOTS :: t.slots[k].active ==>
              p.lastWalk < t.records[k].enqueuedAt + 240000 + 5 * p.gap.value
  {
    hide IdsOk, BytesOk, Transmitted;
    forall k | 0 <= k < SLOTS && t.slots[k].active
      ensures p.lastWalk < t.records[k].enqueuedAt + 240000 + 5 * p.gap.value
    {
      assert Tracked(t.slots[k], t.records[k], p);
    }
    assert forall c | c in t.closed :: WellClosed(c, p.gap);
  }
}
