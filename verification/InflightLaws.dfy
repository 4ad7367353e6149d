/** The in-flight table: its ids, its byte count and the life of each QoS-1 message. */
module InflightLaws {
  import opened Bytes
  import opened Wire
  import opened BrokerState
  import opened Sums

  function Weight(e: Slot): int {
    if e.active then SlotBytes(e) else 0
  }

  function Counts(e: Slot): int {
    if e.active then 1 else 0
  }

  // ---------- the table ----------

  /** Ids in use by one client are nonzero and pairwise distinct. */
  ghost predicate IdsOk(slots: seq<Slot>) {
    && (forall k | 0 <= k < |slots| :: slots[k].active ==> slots[k].pid != 0)
    && (forall k, l | 0 <= k < l < |slots| ::
          slots[k].active && slots[l].active && Owner(k) == Owner(l) ==> slots[k].pid != slots[l].pid)
  }

  /** The byte counter is exact and within the cap. */
  ghost predicate BytesOk(slots: seq<Slot>, bytes: nat) {
    bytes == Sum(slots, Weight) && bytes <= INFLIGHT_MAX
  }

  // ---------- the life of a message ----------

  /** How long after it was enqueued a message with this many retransmissions may be resent. */
  function Deadline(retries: nat): nat
    requires retries <= RETRY_MAX
  {
    if retries == 0 then 15000 else if retries == 1 then 30000 else if retries == 2 then 60000
    else if retries == 3 then 120000 else if retries == 4 then 180000 else 240000
  }

  /** The time of the last walk and, if known, the longest time between walks. */
  datatype Pace = Pace(bufSize: nat, lastWalk: int, gap: Option<nat>)

  /** How much later than its deadline a retry may come, each one waiting for a walk. */
  function Slack(retries: nat, gap: nat): nat
    requires retries <= RETRY_MAX
  {
    if retries == 0 then 0 else if retries == 1 then gap else if retries == 2 then 2 * gap
    else if retries == 3 then 3 * gap else if retries == 4 then 4 * gap else 5 * gap
  }

  /** The packets sent for a message: once with DUP clear, then once with DUP set for every
      retransmission, and otherwise identical. */
  ghost predicate Transmitted(e: Slot, sent: seq<seq<byte>>) {
    && e.retries <= RETRY_MAX && |sent| == 1 + e.retries
    && forall i | 0 <= i < |sent| :: sent[i] == PublishBytes(SlotPacket(e, i > 0))
  }

  /** A message in flight: not yet due at the last walk, never due early, and never put off by
      more than one gap a retry. */
  ghost predicate Tracked(e: Slot, r: Record, p: Pace) {
    && Transmitted(e, r.sent)
    && e.nextRetry >= r.enqueuedAt + Deadline(e.retries)
    && (p.gap.Some? ==> p.lastWalk < e.nextRetry <= r.enqueuedAt + Deadline(e.retries) + Slack(e.retries, p.gap.value))
    && |PublishBytes(SlotPacket(e, true))| <= p.bufSize
  }

  /** How a message may end. */
  ghost predicate WellClosed(c: Closed, gap: Option<nat>) {
    match c.why
    case TooLarge => c.slot.retries == 0 && c.record.sent == []
    case Abandoned(at) =>
      && Transmitted(c.slot, c.record.sent) && c.slot.retries == RETRY_MAX && at >= c.record.enqueuedAt + 240000
      && (gap.Some? ==> at <= c.record.enqueuedAt + 240000 + 6 * gap.value)
    case _ => Transmitted(c.slot, c.record.sent)
  }

  ghost predicate AllTracked(slots: seq<Slot>, records: seq<Record>, p: Pace) {
    && |slots| == |records|
    && forall k | 0 <= k < |slots| :: slots[k].active ==> Tracked(slots[k], records[k], p)
  }

  /** Every enqueued message is either active or ended, and ended well. */
  ghost predicate HistoryOk(t: Table, gap: Option<nat>) {
    && t.enqueued == Sum(t.slots, Counts) + |t.closed|
    && forall c | c in t.closed :: WellClosed(c, gap)
  }

  ghost predicate InflightOk(t: Table, p: Pace) {
    t.Shaped() && IdsOk(t.slots) && BytesOk(t.slots, t.bytes) && AllTracked(t.slots, t.records, p)
      && HistoryOk(t, p.gap)
  }

  // ---------- freeing ----------

  /** Freeing one slot for a reason its life allows; the underflow guard never matters. */
  lemma FreeKeeps(t: Table, k: nat, why: Why, p: Pace)
    requires k < SLOTS && InflightOk(t, p)
    requires t.slots[k].active ==> WellClosed(Closed(why, t.slots[k], t.records[k]), p.gap)
    ensures InflightOk(Free(t, k, why), p)
    ensures t.slots[k].active ==> Free(t, k, why).bytes == t.bytes - SlotBytes(t.slots[k])
  {
    SumUpdate(t.slots, k, Freed(t.slots[k]), Weight);
    SumUpdate(t.slots, k, Freed(t.slots[k]), Counts);
    SumAtLeast(t.slots, k, Weight);
  }

  lemma {:induction false} FreeAllKeeps(t: Table, ci: nat, j: nat, p: Pace)
    requires ci < MAX_CLIENTS && j <= PER_CLIENT && InflightOk(t, p)
    ensures InflightOk(FreeAll(t, ci, j), p)
    decreases PER_CLIENT - j
  {
    if j < PER_CLIENT {
      FreeKeeps(t, Ix(ci, j), Dropped, p);
      FreeAllKeeps(Free(t, Ix(ci, j), Dropped), ci, j + 1, p);
    }
  }

  /** A disconnect frees exactly the client's slots, and only adds to the history. */
  lemma {:induction false} FreeAllEffect(t: Table, ci: nat, j: nat)
    requires t.Shaped() && ci < MAX_CLIENTS && j <= PER_CLIENT
    ensures var r := FreeAll(t, ci, j);
            && (forall k | 0 <= k < SLOTS ::
                  if Ix(ci, j) <= k < Ix(ci, PER_CLIENT) then !r.slots[k].active else r.slots[k] == t.slots[k])
            && t.closed <= r.closed
    decreases PER_CLIENT - j
  {
    if j < PER_CLIENT {
      var u := Free(t, Ix(ci, j), Dropped);
      FreeEffect(t, Ix(ci, j), Dropped);
      FreeAllEffect(u, ci, j + 1);
      hide Free;
      assert FreeAll(t, ci, j) == FreeAll(u, ci, j + 1);
    }
  }

  lemma FreeEffect(t: Table, k: nat, why: Why)
    requires t.Shaped() && k < SLOTS
    ensures var r := Free(t, k, why);
            && !r.slots[k].active && t.closed <= r.closed
            && forall l | 0 <= l < SLOTS && l != k :: r.slots[l] == t.slots[l]
  {}

  // ---------- packet ids ----------

  lemma {:induction false} SubsetCard<T>(a: set<T>, b: set<T>)
    requires a <= b
    ensures |a| <= |b|
    decreases a
  {
    if x :| x in a { SubsetCard(a - {x}, b - {x}); }
  }

  function Below(n: nat): (r: set<nat>)
    ensures |r| == n && forall j :: j in r <==> 0 <= j < n
  {
    if n == 0 then {} else Below(n - 1) + {n - 1}
  }

  /** How many ids after `last` the id p comes, 0 being skipped. */
  function Distance(last: u16, p: u16): nat {
    if p > last then p - last else p + 0xFFFF - last
  }

  /** The client's slots that hold one of the next n ids. */
  function Ahead(slots: seq<Slot>, ci: nat, last: u16, n: nat): set<nat>
    requires ci < MAX_CLIENTS && |slots| == SLOTS
  {
    set j: nat | j < PER_CLIENT && slots[Ix(ci, j)].active && Distance(last, slots[Ix(ci, j)].pid) <= n
  }

  lemma NextAhead(slots: seq<Slot>, ci: nat, last: u16, n: nat, j: nat)
    requires ci < MAX_CLIENTS && |slots| == SLOTS && IdsOk(slots) && 0 < n < 0xFFFF
    requires j < PER_CLIENT && slots[Ix(ci, j)].active && slots[Ix(ci, j)].pid == NextId(last)
    ensures Ahead(slots, ci, NextId(last), n - 1) <= Ahead(slots, ci, last, n) - {j}
  {}

  /** Pigeonhole: if fewer than n slots hold one of the next n ids, one of those ids is free,
      across the wrap-around and the skipped 0. */
  lemma {:induction false} PacketIdFound(slots: seq<Slot>, ci: nat, last: u16, attempts: nat, n: nat)
    requires ci < MAX_CLIENTS && |slots| == SLOTS && IdsOk(slots)
    requires n <= attempts && n < 0xFFFF && |Ahead(slots, ci, last, n)| < n
    ensures var (pid, end) := PacketId(slots, ci, last, attempts);
            pid != 0 && end == pid && !Collides(slots, ci, pid) && Distance(last, pid) <= n
    decreases attempts
  {
    var next := NextId(last);
    if Collides(slots, ci, next) {
      var j :| 0 <= j < PER_CLIENT && slots[Ix(ci, j)].active && slots[Ix(ci, j)].pid == next;
      var before, after := Ahead(slots, ci, last, n), Ahead(slots, ci, next, n - 1);
      assert j in before;
      assert after <= before - {j} by { NextAhead(slots, ci, last, n, j); }
      SubsetCard(after, before - {j});
      hide Ahead, IdsOk;
      PacketIdFound(slots, ci, next, attempts - 1, n - 1);
    }
  }

  /** With a free slot, the id is found within as many attempts as the client has slots, so
      inflight_enqueue never sees the failure value 0. */
  lemma PacketIdAlwaysFound(slots: seq<Slot>, ci: nat, last: u16)
    requires ci < MAX_CLIENTS && |slots| == SLOTS && IdsOk(slots) && FreeSlot(slots, ci, 0) < PER_CLIENT
    ensures var (pid, end) := PacketId(slots, ci, last, 65535);
            pid != 0 && end == pid && !Collides(slots, ci, pid) && Distance(last, pid) <= PER_CLIENT
  {
    hide PacketId, IdsOk, Collides, Distance;
    FewAhead(slots, ci, last);
    PacketIdFound(slots, ci, last, 65535, PER_CLIENT);
  }

  lemma FewerThan(s: set<nat>, n: nat, missing: nat)
    requires missing < n && forall j | j in s :: j < n && j != missing
    ensures |s| < n
  {
    var most := Below(n) - {missing};
    assert |most| == n - 1;
    SubsetCard(s, most);
  }

  lemma FewAhead(slots: seq<Slot>, ci: nat, last: u16)
    requires ci < MAX_CLIENTS && |slots| == SLOTS && FreeSlot(slots, ci, 0) < PER_CLIENT
    ensures |Ahead(slots, ci, last, PER_CLIENT)| < PER_CLIENT
  {
    var free := FreeSlot(slots, ci, 0);
    hide FreeSlot, Distance;
    FewerThan(Ahead(slots, ci, last, PER_CLIENT), PER_CLIENT, free);
  }

  // ---------- enqueue and transmit ----------

  lemma PlacedIdsOk(slots: seq<Slot>, ci: nat, j: nat, e: Slot)
    requires ci < MAX_CLIENTS && j < PER_CLIENT && |slots| == SLOTS && IdsOk(slots)
    requires e.pid != 0 && !Collides(slots, ci, e.pid)
    ensures IdsOk(slots[Ix(ci, j) := e])
  {
    var k := Ix(ci, j);
    forall l | 0 <= l < SLOTS && l != k && slots[l].active && Owner(l) == Owner(k) ensures slots[l].pid != e.pid {
      assert l == Ix(ci, l - Ix(ci, 0));
    }
  }

  lemma PlacedTracked(e: Slot, now: int, p: Pace)
    requires e.retries == 0 && e.nextRetry == now + RETRY_INITIAL && p.lastWalk <= now
    requires |PublishBytes(SlotPacket(e, false))| <= p.bufSize
    ensures Tracked(e, Record(now, [PublishBytes(SlotPacket(e, false))]), p)
  {
    assert |PublishBytes(SlotPacket(e, false))| == |PublishBytes(SlotPacket(e, true))|;
  }

  /** The table after an accepted enqueue and the first transmission's bookkeeping. */
  lemma PlaceKeeps(t: Table, ci: nat, j: nat, e: Slot, now: int, p: Pace)
    requires ci < MAX_CLIENTS && j < PER_CLIENT && InflightOk(t, p)
    requires !t.slots[Ix(ci, j)].active && e.pid != 0 && !Collides(t.slots, ci, e.pid)
    requires e.active && e.retries == 0 && e.nextRetry == now + RETRY_INITIAL && t.bytes + SlotBytes(e) <= INFLIGHT_MAX
    requires p.lastWalk <= now
    requires |PublishBytes(SlotPacket(e, false))| <= p.bufSize
    ensures var k := Ix(ci, j);
            InflightOk(Note(Place(t, k, e, now), k, PublishBytes(SlotPacket(e, false))), p)
  {
    var k, data := Ix(ci, j), PublishBytes(SlotPacket(e, false));
    SumUpdate(t.slots, k, e, Weight);
    SumUpdate(t.slots, k, e, Counts);
    PlacedIdsOk(t.slots, ci, j, e);
    PlacedTracked(e, now, p);
    var r := Note(Place(t, k, e, now), k, data);
    assert [] + [data] == [data];
    assert r.records == t.records[k := Record(now, [data])] && r.slots == t.slots[k := e];
    hide Tracked, IdsOk, WellClosed, PublishBytes, Collides;
    assert AllTracked(r.slots, r.records, p);
  }

  /** A message that is too large for the buffer is enqueued and ended at once. */
  lemma TooLargeKeeps(t: Table, k: nat, e: Slot, now: int, p: Pace)
    requires k < SLOTS && InflightOk(t, p) && !t.slots[k].active && e.active && e.retries == 0
    ensures InflightOk(Free(Place(t, k, e, now), k, TooLarge), p)
  {
    var r := Free(Place(t, k, e, now), k, TooLarge);
    assert r.slots == t.slots[k := Freed(e)] && r.bytes == t.bytes;
    assert r.closed == t.closed + [Closed(TooLarge, e, Record(now, []))];
    SumUpdate(t.slots, k, Freed(e), Weight);
    SumUpdate(t.slots, k, Freed(e), Counts);
  }

  /** A walk at this time keeps to the gap. */
  ghost predicate OnPace(p: Pace, now: int) {
    p.gap.Some? ==> p.lastWalk <= now <= p.lastWalk + p.gap.value
  }

  /** A due message that is sent again. */
  lemma ResendKeeps(t: Table, k: nat, now: int, p: Pace)
    requires k < SLOTS && InflightOk(t, p) && OnPace(p, now)
    requires t.slots[k].active && t.slots[k].retries < RETRY_MAX && now >= t.slots[k].nextRetry
    ensures var e := Later(t.slots[k], now);
            var data := PublishBytes(SlotPacket(e, true));
            |data| <= p.bufSize && InflightOk(Note(t.(slots := t.slots[k := e]), k, data), p)
  {
    var e, r := t.slots[k], t.records[k];
    var e' := Later(e, now);
    SumUpdate(t.slots, k, e', Weight);
    SumUpdate(t.slots, k, e', Counts);
    assert SlotPacket(e', true) == SlotPacket(e, true) && SlotPacket(e', false) == SlotPacket(e, false);
    assert Tracked(e, r, p);
    var sent' := r.sent + [PublishBytes(SlotPacket(e', true))];
    assert Transmitted(e', sent') by {
      assert forall i | 0 <= i < |r.sent| :: sent'[i] == r.sent[i];
    }
    assert Tracked(e', r.(sent := sent'), p);
  }
}
