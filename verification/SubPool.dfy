/** The flat subscription pool is a map from (client, filter) to granted QoS
    (main/mqtt_broker.c:509-514, 878-920, 945-956). */
module SubPool {
  import opened Bytes
  import opened BrokerState

  type Key = (nat, seq<byte>)

  /** No two active slots share a key. */
  ghost predicate KeysOk(subs: seq<Sub>) {
    forall i, j | 0 <= i < j < |subs| ::
      subs[i].active && subs[j].active ==> subs[i].client != subs[j].client || subs[i].filter != subs[j].filter
  }

  ghost function Keys(subs: seq<Sub>): set<Key> {
    set i | 0 <= i < |subs| && subs[i].active :: (subs[i].client, subs[i].filter)
  }

  /** The map the pool stands for. */
  ghost function AsMap(subs: seq<Sub>): (m: map<Key, nat>)
    ensures m.Keys == Keys(subs)
  {
    map k | k in Keys(subs) :: (FindHit(subs, k); subs[FindSub(subs, k.0, k.1)].qos)
  }

  lemma FindHit(subs: seq<Sub>, k: Key)
    ensures k in Keys(subs) <==> FindSub(subs, k.0, k.1) < |subs|
  {
    var r := FindSub(subs, k.0, k.1);
    if k in Keys(subs) {
      var i :| 0 <= i < |subs| && subs[i].active && (subs[i].client, subs[i].filter) == k;
      assert Keyed(subs[i], k.0, k.1);
    }
    if r < |subs| { assert (subs[r].client, subs[r].filter) == k; }
  }

  /** An active slot's entry is what the map says. */
  lemma EntryIs(subs: seq<Sub>, i: nat)
    requires KeysOk(subs) && i < |subs| && subs[i].active
    ensures var k := (subs[i].client, subs[i].filter);
            k in AsMap(subs) && AsMap(subs)[k] == subs[i].qos && FindSub(subs, k.0, k.1) == i
  {
    var r := FindSub(subs, subs[i].client, subs[i].filter);
    assert Keyed(subs[i], subs[i].client, subs[i].filter);
    assert r == i;
  }

  /** Two pools with unique keys and the same entries stand for the same map. */
  lemma MapIs(subs: seq<Sub>, m: map<Key, nat>)
    requires KeysOk(subs)
    requires forall i | 0 <= i < |subs| && subs[i].active ::
               (subs[i].client, subs[i].filter) in m && m[(subs[i].client, subs[i].filter)] == subs[i].qos
    requires forall k | k in m :: k in Keys(subs)
    ensures AsMap(subs) == m
  {
    forall k | k in m ensures AsMap(subs)[k] == m[k] {
      var i :| 0 <= i < |subs| && subs[i].active && (subs[i].client, subs[i].filter) == k;
      EntryIs(subs, i);
    }
  }

  /** The pool is full exactly when the map has MAX_SUBS entries. */
  lemma {:induction false} MapSize(subs: seq<Sub>)
    requires KeysOk(subs)
    ensures |AsMap(subs)| <= |subs| && (FreeSub(subs) == |subs| <==> |AsMap(subs)| == |subs|)
  {
    assert |AsMap(subs)| == |Keys(subs)|;
    KeyCount(subs);
  }

  lemma KeysOfRest(subs: seq<Sub>)
    requires subs != []
    ensures var k := (subs[0].client, subs[0].filter);
            Keys(subs) == Keys(subs[1..]) + if subs[0].active then {k} else {}
    ensures KeysOk(subs) ==>
              KeysOk(subs[1..]) && (subs[0].active ==> (subs[0].client, subs[0].filter) !in Keys(subs[1..]))
  {
    var rest := subs[1..];
    assert forall i | 0 <= i < |rest| :: rest[i] == subs[i + 1];
    forall k | k in Keys(subs) ensures k in Keys(rest) || (subs[0].active && k == (subs[0].client, subs[0].filter)) {
      var i :| 0 <= i < |subs| && subs[i].active && (subs[i].client, subs[i].filter) == k;
      if i > 0 { assert rest[i - 1] == subs[i]; }
    }
  }

  lemma {:induction false} KeyCount(subs: seq<Sub>)
    requires KeysOk(subs)
    ensures |Keys(subs)| <= |subs| && (FreeSub(subs) == |subs| <==> |Keys(subs)| == |subs|)
  {
    if subs != [] {
      KeysOfRest(subs);
      KeyCount(subs[1..]);
    }
  }

  /** Writing the entry of a key into a slot that is free or already that key's. */
  lemma SetEntry(subs: seq<Sub>, slot: nat, k: Key, qos: nat)
    requires KeysOk(subs) && slot < |subs|
    requires forall i | 0 <= i < |subs| && i != slot :: !Keyed(subs[i], k.0, k.1)
    requires subs[slot].active ==> Keyed(subs[slot], k.0, k.1)
    ensures var r := subs[slot := Sub(true, k.0, k.1, qos)]; KeysOk(r) && AsMap(r) == AsMap(subs)[k := qos]
  {
    var r, m := subs[slot := Sub(true, k.0, k.1, qos)], AsMap(subs)[k := qos];
    forall i | 0 <= i < |subs| && i != slot && subs[i].active ensures (subs[i].client, subs[i].filter) != k {
      assert !Keyed(subs[i], k.0, k.1);
    }
    forall i | 0 <= i < |r| && r[i].active
      ensures (r[i].client, r[i].filter) in m && m[(r[i].client, r[i].filter)] == r[i].qos
    {
      if i != slot { EntryIs(subs, i); }
    }
    forall x | x in m ensures x in Keys(r) {
      if x == k {
        assert (r[slot].client, r[slot].filter) == x;
      } else {
        var i :| 0 <= i < |subs| && subs[i].active && (subs[i].client, subs[i].filter) == x;
        assert r[i] == subs[i];
      }
    }
    MapIs(r, m);
  }

  /** One topic of a SUBSCRIBE updates the map at its key; only a new key can be refused, and
      only by a full pool, which then stays as it was. */
  lemma SubscribeOneMeaning(subs: seq<Sub>, ci: nat, t: TopicRequest)
    requires KeysOk(subs)
    ensures var (r, code) := SubscribeOne(subs, ci, t);
            var k := (ci, t.filter);
            && KeysOk(r)
            && (code == 0x80 <==> k !in AsMap(subs) && |AsMap(subs)| == |subs|)
            && (code == FAILURE ==> r == subs)
            && (code != FAILURE ==> code == (if t.qos == 0 then 0 else 1) && AsMap(r) == AsMap(subs)[k := code])
  {
    var k, found := (ci, t.filter), FindSub(subs, ci, t.filter);
    FindHit(subs, k);
    MapSize(subs);
    if found < |subs| {
      EntryIs(subs, found);
      assert forall i | 0 <= i < |subs| && i != found :: !Keyed(subs[i], ci, t.filter);
      SetEntry(subs, found, k, Granted(t.qos));
    } else if FreeSub(subs) < |subs| {
      SetEntry(subs, FreeSub(subs), k, Granted(t.qos));
    }
  }

  /** What a list of requests does to a map of at most `cap` entries, in order. */
  function Request(m: map<Key, nat>, cap: nat, ci: nat, ts: seq<TopicRequest>): (map<Key, nat>, seq<byte>) {
    if ts == [] then (m, [])
    else
      var (before, codes) := Request(m, cap, ci, ts[..|ts| - 1]);
      var t := ts[|ts| - 1];
      var granted := if t.qos == 0 then 0 else 1;
      if (ci, t.filter) in before || |before| < cap
      then (before[(ci, t.filter) := granted], codes + [granted])
      else (before, codes + [0x80])
  }

  /** A whole SUBSCRIBE, on the pool and on the map. */
  lemma {:induction false} SubscribeMeaning(subs: seq<Sub>, ci: nat, ts: seq<TopicRequest>)
    requires KeysOk(subs)
    ensures var (r, codes) := SubscribeAll(subs, ci, ts);
            KeysOk(r) && (AsMap(r), codes) == Request(AsMap(subs), |subs|, ci, ts)
    decreases |ts|
  {
    if ts != [] {
      var before := SubscribeAll(subs, ci, ts[..|ts| - 1]).0;
      SubscribeMeaning(subs, ci, ts[..|ts| - 1]);
      SubscribeOneMeaning(before, ci, ts[|ts| - 1]);
      MapSize(before);
    }
  }

  lemma UnsubscribeOneMeaning(subs: seq<Sub>, ci: nat, filter: seq<byte>)
    requires KeysOk(subs)
    ensures KeysOk(UnsubscribeOne(subs, ci, filter))
    ensures AsMap(UnsubscribeOne(subs, ci, filter)) == AsMap(subs) - {(ci, filter)}
  {
    var k, slot, r := (ci, filter), FindSub(subs, ci, filter), UnsubscribeOne(subs, ci, filter);
    FindHit(subs, k);
    if slot < |subs| {
      EntryIs(subs, slot);
      StillActive(subs, r, k);
    }
  }

  /** Deactivating the slot of one key removes that key and no other. */
  lemma StillActive(subs: seq<Sub>, r: seq<Sub>, k: Key)
    requires KeysOk(subs) && k in Keys(subs)
    requires r == subs[FindSub(subs, k.0, k.1) := subs[FindSub(subs, k.0, k.1)].(active := false)]
    ensures KeysOk(r) && AsMap(r) == AsMap(subs) - {k}
  {
    var slot := FindSub(subs, k.0, k.1);
    hide AsMap;
    var m := AsMap(subs) - {k};
    forall i | 0 <= i < |r| && r[i].active
      ensures (r[i].client, r[i].filter) in m && m[(r[i].client, r[i].filter)] == r[i].qos
    {
      EntryIs(subs, i);
    }
    forall x | x in m ensures x in Keys(r) {
      var i :| 0 <= i < |subs| && subs[i].active && (subs[i].client, subs[i].filter) == x;
      assert r[i] == subs[i];
    }
    MapIs(r, m);
  }

  function Named(ci: nat, filters: seq<seq<byte>>): set<Key> {
    set f | f in filters :: (ci, f)
  }

  lemma NamedGrows(ci: nat, front: seq<seq<byte>>, last: seq<byte>)
    ensures Named(ci, front + [last]) == Named(ci, front) + {(ci, last)}
  {}

  lemma MapMinusMore(m: map<Key, nat>, a: set<Key>, b: set<Key>)
    ensures (m - a) - b == m - (a + b)
  {}

  lemma RemoveOneMore(mid: seq<Sub>, m: map<Key, nat>, ci: nat, front: seq<seq<byte>>, last: seq<byte>)
    requires KeysOk(mid) && AsMap(mid) == m - Named(ci, front)
    ensures KeysOk(UnsubscribeOne(mid, ci, last))
    ensures AsMap(UnsubscribeOne(mid, ci, last)) == m - Named(ci, front + [last])
  {
    hide AsMap, KeysOk, UnsubscribeOne, Named;
    UnsubscribeOneMeaning(mid, ci, last);
    NamedGrows(ci, front, last);
    MapMinusMore(m, Named(ci, front), {(ci, last)});
  }

  /** An UNSUBSCRIBE removes exactly the keys it names, though it stops at each first hit. */
  lemma {:induction false} UnsubscribeMeaning(subs: seq<Sub>, ci: nat, filters: seq<seq<byte>>)
    requires KeysOk(subs)
    ensures KeysOk(UnsubscribeAll(subs, ci, filters))
    ensures AsMap(UnsubscribeAll(subs, ci, filters)) == AsMap(subs) - Named(ci, filters)
    decreases |filters|
  {
    if filters == [] {
      assert Named(ci, filters) == {};
    } else {
      hide AsMap, KeysOk, UnsubscribeOne, Named;
      var front, last := filters[..|filters| - 1], filters[|filters| - 1];
      UnsubscribeMeaning(subs, ci, front);
      RemoveOneMore(UnsubscribeAll(subs, ci, front), AsMap(subs), ci, front, last);
      assert filters == front + [last];
    }
  }

  lemma DroppedKeysOk(subs: seq<Sub>, ci: nat)
    requires KeysOk(subs)
    ensures KeysOk(DropSubs(subs, ci))
  {}

  lemma DroppedEntries(subs: seq<Sub>, ci: nat, m: map<Key, nat>, i: nat)
    requires KeysOk(subs) && m == (map k | k in AsMap(subs) && k.0 != ci :: AsMap(subs)[k])
    requires i < |subs| && DropSubs(subs, ci)[i].active
    ensures subs[i] == DropSubs(subs, ci)[i]
    ensures (subs[i].client, subs[i].filter) in m && m[(subs[i].client, subs[i].filter)] == subs[i].qos
  {
    EntryIs(subs, i);
  }

  lemma DroppedLeaves(subs: seq<Sub>, ci: nat, x: Key)
    requires KeysOk(subs) && x in Keys(subs) && x.0 != ci
    ensures x in Keys(DropSubs(subs, ci))
  {
    var i :| 0 <= i < |subs| && subs[i].active && (subs[i].client, subs[i].filter) == x;
    assert DropSubs(subs, ci)[i] == subs[i];
  }

  /** A disconnect removes exactly the client's keys. */
  lemma DropSubsMeaning(subs: seq<Sub>, ci: nat)
    requires KeysOk(subs)
    ensures KeysOk(DropSubs(subs, ci))
    ensures AsMap(DropSubs(subs, ci)) == map k | k in AsMap(subs) && k.0 != ci :: AsMap(subs)[k]
  {
    var m := map k | k in AsMap(subs) && k.0 != ci :: AsMap(subs)[k];
    hide DropSubs, AsMap, KeysOk, Keys;
    var r := DropSubs(subs, ci);
    DroppedKeysOk(subs, ci);
    forall i | 0 <= i < |r| && r[i].active
      ensures (r[i].client, r[i].filter) in m && m[(r[i].client, r[i].filter)] == r[i].qos
    {
      DroppedEntries(subs, ci, m, i);
    }
    forall x | x in m ensures x in Keys(r) {
      DroppedLeaves(subs, ci, x);
    }
    MapIs(r, m);
  }
}
