/** At which QoS each subscription of a fanout is served, computed from the state before it
    (main/mqtt_broker.c:969-1012, 1109-1128): the level it asks for, unless the in-flight table
    refuses the message for want of room under the cap, of a free slot of the client, or of memory. */
module DeliveryLevels {
  import opened Bytes
  import opened Wire
  import opened BrokerState
  import opened InflightLaws
  import opened BrokerInvariant

  /** The free in-flight slots of a client from the j-th on. */
  function FreeCount(slots: seq<Slot>, ci: nat, j: nat): (n: nat)
    requires ci < MAX_CLIENTS && j <= PER_CLIENT && |slots| == SLOTS
    decreases PER_CLIENT - j
  {
    if j == PER_CLIENT then 0
    else (if slots[Ix(ci, j)].active then 0 else 1) + FreeCount(slots, ci, j + 1)
  }

  /** What an enqueue looks at: the bytes in flight, the free slots of each client, and the next allocation. */
  datatype Load = Load(bytes: nat, free: seq<nat>, allocs: nat)

  ghost function LoadOf(s: State): (l: Load)
    requires s.table.Shaped()
    ensures |l.free| == MAX_CLIENTS
  {
    Load(s.table.bytes, seq(MAX_CLIENTS, ci requires 0 <= ci < MAX_CLIENTS => FreeCount(s.table.slots, ci, 0)),
         s.allocs)
  }

  /** There is room for a message under the cap and in the client's slots. */
  predicate HasRoom(l: Load, ci: nat, size: nat)
    requires ci < |l.free|
  {
    l.bytes + size <= INFLIGHT_MAX && l.free[ci] > 0
  }

  /** The table takes the message. */
  predicate Takes(l: Load, env: Env, ci: nat, size: nat)
    requires ci < |l.free|
  {
    HasRoom(l, ci, size) && env.mem(l.allocs)
  }

  /** The load after a message was offered to the table. */
  function Offered(l: Load, env: Env, ci: nat, size: nat): (r: Load)
    requires ci < |l.free|
    ensures |r.free| == |l.free|
  {
    if !HasRoom(l, ci, size) then l
    else if !env.mem(l.allocs) then l.(allocs := l.allocs + 1)
    else Load(l.bytes + size, l.free[ci := l.free[ci] - 1], l.allocs + 1)
  }

  /** Publisher and grant both ask for QoS 1. */
  predicate Asks(subs: seq<Sub>, i: nat, qos: nat)
    requires i < |subs|
  {
    Min(qos, subs[i].qos) > 0
  }

  predicate InPool(subs: seq<Sub>, a: seq<nat>, clients: nat) {
    forall k | 0 <= k < |a| :: a[k] < |subs| && subs[a[k]].client < clients
  }

  /** Whether each of the subscriptions, served in this order, gets the message at QoS 1. */
  function LevelsOf(subs: seq<Sub>, a: seq<nat>, l: Load, env: Env, qos: nat, size: nat): (r: seq<bool>)
    requires InPool(subs, a, |l.free|)
    ensures |r| == |a|
    decreases |a|
  {
    if a == [] then []
    else
      var ci := subs[a[0]].client;
      if Asks(subs, a[0], qos)
        then [Takes(l, env, ci, size)] + LevelsOf(subs, a[1..], Offered(l, env, ci, size), env, qos, size)
      else [false] + LevelsOf(subs, a[1..], l, env, qos, size)
  }

  /** Nobody who does not ask for QoS 1 gets it. */
  lemma {:induction false} LevelsOnlyOnRequest(subs: seq<Sub>, a: seq<nat>, l: Load, env: Env, qos: nat, size: nat,
                                               k: nat)
    requires InPool(subs, a, |l.free|) && k < |a| && LevelsOf(subs, a, l, env, qos, size)[k]
    ensures qos > 0 && subs[a[k]].qos > 0
    decreases k
  {
    if k > 0 {
      var ci := subs[a[0]].client;
      LevelsOnlyOnRequest(subs, a[1..], if Asks(subs, a[0], qos) then Offered(l, env, ci, size) else l,
                          env, qos, size, k - 1);
    }
  }

  // ---------- when nobody is refused ----------

  /** How many of the subscriptions ask for QoS 1, in all and for one client. */
  function Asking(subs: seq<Sub>, a: seq<nat>, qos: nat): nat
    requires forall k | 0 <= k < |a| :: a[k] < |subs|
  {
    if a == [] then 0 else (if Asks(subs, a[0], qos) then 1 else 0) + Asking(subs, a[1..], qos)
  }

  function AskingOf(subs: seq<Sub>, a: seq<nat>, qos: nat, ci: nat): nat
    requires forall k | 0 <= k < |a| :: a[k] < |subs|
  {
    if a == [] then 0
    else (if Asks(subs, a[0], qos) && subs[a[0]].client == ci then 1 else 0) + AskingOf(subs, a[1..], qos, ci)
  }

  /** There is room for everyone who asks. */
  ghost predicate RoomForAll(subs: seq<Sub>, a: seq<nat>, l: Load, qos: nat, size: nat)
    requires forall k | 0 <= k < |a| :: a[k] < |subs|
  {
    && (Asking(subs, a, qos) > 0 ==> l.bytes + Asking(subs, a, qos) * size <= INFLIGHT_MAX)
    && forall ci | 0 <= ci < |l.free| :: AskingOf(subs, a, qos, ci) <= l.free[ci]
  }

  ghost predicate AsAsked(subs: seq<Sub>, a: seq<nat>, levels: seq<bool>, qos: nat) {
    |levels| == |a| && forall k | 0 <= k < |a| && a[k] < |subs| :: levels[k] <==> qos > 0 && subs[a[k]].qos > 0
  }

  ghost predicate MemoryLasts(env: Env) {
    forall n: nat :: env.mem(n)
  }

  lemma RoomStep(subs: seq<Sub>, a: seq<nat>, l: Load, env: Env, qos: nat, size: nat)
    requires InPool(subs, a, |l.free|) && a != [] && Asks(subs, a[0], qos) && MemoryLasts(env)
    ensures var ci := subs[a[0]].client;
            RoomForAll(subs, a, l, qos, size) <==>
            Takes(l, env, ci, size) && RoomForAll(subs, a[1..], Offered(l, env, ci, size), qos, size)
  {
    var ci, rest := subs[a[0]].client, a[1..];
    var n := Asking(subs, rest, qos);
    assert (n + 1) * size == n * size + size;
    assert env.mem(l.allocs);
    assert forall x | 0 <= x < |l.free| ::
           AskingOf(subs, a, qos, x) == (if x == ci then 1 else 0) + AskingOf(subs, rest, qos, x);
    if Takes(l, env, ci, size) && RoomForAll(subs, rest, Offered(l, env, ci, size), qos, size) {
      var r := Offered(l, env, ci, size);
      forall x | 0 <= x < |l.free| ensures AskingOf(subs, a, qos, x) <= l.free[x] {
        assert AskingOf(subs, rest, qos, x) <= r.free[x];
      }
    }
    if RoomForAll(subs, a, l, qos, size) {
      assert AskingOf(subs, a, qos, ci) <= l.free[ci];
      var r := Offered(l, env, ci, size);
      forall x | 0 <= x < |r.free| ensures AskingOf(subs, rest, qos, x) <= r.free[x] {
        assert AskingOf(subs, a, qos, x) <= l.free[x];
      }
    }
  }

  lemma AsAskedCons(subs: seq<Sub>, a: seq<nat>, first: bool, rest: seq<bool>, qos: nat)
    requires a != [] && a[0] < |subs| && |rest| == |a| - 1
    ensures AsAsked(subs, a, [first] + rest, qos) <==>
              (first <==> Asks(subs, a[0], qos)) && AsAsked(subs, a[1..], rest, qos)
  {
    var all := [first] + rest;
    if AsAsked(subs, a, all, qos) {
      forall k | 0 <= k < |rest| && a[1..][k] < |subs| ensures rest[k] <==> Asks(subs, a[1..][k], qos) {
        assert all[k + 1] == rest[k] && a[k + 1] == a[1..][k];
      }
      assert all[0] == first;
    }
    if (first <==> Asks(subs, a[0], qos)) && AsAsked(subs, a[1..], rest, qos) {
      forall k | 0 <= k < |a| && a[k] < |subs| ensures all[k] <==> Asks(subs, a[k], qos) {
        if k > 0 { assert all[k] == rest[k - 1] && a[k] == a[1..][k - 1]; }
      }
    }
  }

  /** While no allocation fails everyone who asks for QoS 1 gets it if and only if there is room for all of them. */
  lemma {:induction false} ServedAsAskedIffRoom(subs: seq<Sub>, a: seq<nat>, l: Load, env: Env, qos: nat, size: nat)
    requires InPool(subs, a, |l.free|) && MemoryLasts(env)
    ensures AsAsked(subs, a, LevelsOf(subs, a, l, env, qos, size), qos) <==> RoomForAll(subs, a, l, qos, size)
    decreases |a|
  {
    if a != [] {
      var ci, rest := subs[a[0]].client, a[1..];
      var l' := if Asks(subs, a[0], qos) then Offered(l, env, ci, size) else l;
      var first := Asks(subs, a[0], qos) && Takes(l, env, ci, size);
      ServedAsAskedIffRoom(subs, rest, l', env, qos, size);
      AsAskedCons(subs, a, first, LevelsOf(subs, rest, l', env, qos, size), qos);
      assert LevelsOf(subs, a, l, env, qos, size) == [first] + LevelsOf(subs, rest, l', env, qos, size);
      if Asks(subs, a[0], qos) {
        RoomStep(subs, a, l, env, qos, size);
      } else {
        RoomSkips(subs, a, l, qos, size);
      }
    }
  }

  lemma RoomSkips(subs: seq<Sub>, a: seq<nat>, l: Load, qos: nat, size: nat)
    requires InPool(subs, a, |l.free|) && a != [] && !Asks(subs, a[0], qos)
    ensures RoomForAll(subs, a, l, qos, size) <==> RoomForAll(subs, a[1..], l, qos, size)
  {
    assert forall x | 0 <= x < |l.free| :: AskingOf(subs, a, qos, x) == AskingOf(subs, a[1..], qos, x);
  }

  // ---------- what an enqueue does to the load ----------

  lemma {:induction false} FreeCountMeaning(slots: seq<Slot>, ci: nat, j: nat)
    requires ci < MAX_CLIENTS && j <= PER_CLIENT && |slots| == SLOTS
    ensures FreeCount(slots, ci, j) > 0 <==> FreeSlot(slots, ci, j) < PER_CLIENT
    decreases PER_CLIENT - j
  {
    if j < PER_CLIENT { FreeCountMeaning(slots, ci, j + 1); }
  }

  lemma {:induction false} FreeCountSame(slots: seq<Slot>, slots': seq<Slot>, ci: nat, j: nat)
    requires ci < MAX_CLIENTS && j <= PER_CLIENT && |slots| == |slots'| == SLOTS
    requires forall i | j <= i < PER_CLIENT :: slots'[Ix(ci, i)].active == slots[Ix(ci, i)].active
    ensures FreeCount(slots', ci, j) == FreeCount(slots, ci, j)
    decreases PER_CLIENT - j
  {
    if j < PER_CLIENT { FreeCountSame(slots, slots', ci, j + 1); }
  }

  lemma {:induction false} FreeCountTaken(slots: seq<Slot>, ci: nat, k: nat, e: Slot, j: nat)
    requires ci < MAX_CLIENTS && j <= k < PER_CLIENT && |slots| == SLOTS && !slots[Ix(ci, k)].active && e.active
    ensures FreeCount(slots, ci, j) > 0
    ensures FreeCount(slots[Ix(ci, k) := e], ci, j) == FreeCount(slots, ci, j) - 1
    decreases PER_CLIENT - j
  {
    var slots' := slots[Ix(ci, k) := e];
    if j == k {
      FreeCountSame(slots, slots', ci, j + 1);
    } else {
      FreeCountTaken(slots, ci, k, e, j + 1);
    }
  }

  /** A refused offer leaves the slots alone; an accepted one fills one of the client's. */
  lemma TakenLoad(s: State, env: Env, ci: nat, j: nat, e: Slot, now: int)
    requires s.Shaped(env) && ci < MAX_CLIENTS && j < PER_CLIENT && !s.table.slots[Ix(ci, j)].active && e.active
    ensures var l := LoadOf(s);
            l.free[ci] > 0
            && LoadOf(s.(table := Place(s.table, Ix(ci, j), e, now))).free == l.free[ci := l.free[ci] - 1]
  {
    SlotTaken(s.table.slots, ci, j, e);
    hide FreeCount;
  }

  lemma SlotTaken(slots: seq<Slot>, ci: nat, j: nat, e: Slot)
    requires ci < MAX_CLIENTS && j < PER_CLIENT && |slots| == SLOTS && !slots[Ix(ci, j)].active && e.active
    ensures FreeCount(slots, ci, 0) > 0
    ensures forall x | 0 <= x < MAX_CLIENTS ::
              FreeCount(slots[Ix(ci, j) := e], x, 0) == FreeCount(slots, x, 0) - if x == ci then 1 else 0
  {
    hide FreeCount;
    var slots' := slots[Ix(ci, j) := e];
    FreeCountTaken(slots, ci, j, e, 0);
    forall x | 0 <= x < MAX_CLIENTS && x != ci ensures FreeCount(slots', x, 0) == FreeCount(slots, x, 0) {
      FreeCountSame(slots, slots', x, 0);
    }
  }

  lemma EnqueueLoad(s: State, env: Env, ci: nat, topic: Topic, payload: seq<byte>, now: int)
    requires s.Shaped(env) && ci < MAX_CLIENTS && IdsOk(s.table.slots)
    ensures var (t, j) := Enqueue(s, env, ci, topic, payload, false, now);
            && (j < PER_CLIENT <==> Takes(LoadOf(s), env, ci, |topic| + |payload|))
            && LoadOf(t) == Offered(LoadOf(s), env, ci, |topic| + |payload|)
  {
    var (t, j) := Enqueue(s, env, ci, topic, payload, false, now);
    EnqueueEffect(s, env, ci, topic, payload, false, now);
    FreeCountMeaning(s.table.slots, ci, 0);
    hide Enqueue, FreeCount, FreeSlot, Collides;
    if j < PER_CLIENT {
      var e := t.table.slots[Ix(ci, j)];
      TakenLoad(s, env, ci, j, e, now);
    }
  }
}
