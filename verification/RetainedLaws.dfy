/** What the retained store promises over whole runs, and what eviction takes. */
module RetainedLaws {
  import opened Bytes
  import opened Retained

  datatype Op =
    | Publish(topic: seq<byte>, payload: seq<byte>, now: int, memory: bool)
    | Tick(now: int)

  function Apply(ms: seq<Message>, op: Op, limit: nat, ttlSec: int): seq<Message> {
    match op
    case Publish(topic, payload, now, memory) => Put(ms, topic, payload, now, limit, memory)
    case Tick(now) => Sweep(ms, now, ttlSec)
  }

  /** The store after a run of retained publishes and periodic expiry checks. */
  function Run(ops: seq<Op>, limit: nat, ttlSec: int): seq<Message> {
    if ops == [] then []
    else Apply(Run(ops[..|ops| - 1], limit, ttlSec), ops[|ops| - 1], limit, ttlSec)
  }

  /** The last thing the run said about a topic: its last accepted message, unless an empty
      publish came after it. */
  function LastWord(ops: seq<Op>, topic: seq<byte>): Option<Message> {
    if ops == [] then None
    else
      var op, before := ops[|ops| - 1], LastWord(ops[..|ops| - 1], topic);
      if op.Tick? || op.topic != topic then before
      else if op.payload == [] then None
      else if |op.payload| <= 0x1_0000 && op.memory then Some(Message(topic, op.payload, op.now))
      else before
  }

  // ---------- steps keep the store well formed ----------

  lemma WithoutMeaning(ms: seq<Message>, topic: seq<byte>)
    requires Distinct(ms)
    ensures Distinct(Without(ms, topic))
    ensures forall m :: m in Without(ms, topic) <==> m in ms && m.topic != topic
    ensures Total(Without(ms, topic)) <= Total(ms) && |Without(ms, topic)| <= |ms|
  {
    var k := Find(ms, topic);
    if k < |ms| {
      TotalOfDrop(ms, k);
      DistinctDrop(ms, k);
      DropMembers(ms, k);
    }
  }

  lemma DropMembers(ms: seq<Message>, k: nat)
    requires k < |ms| && Distinct(ms)
    ensures forall m :: m in Drop(ms, k) <==> m in ms && m.topic != ms[k].topic
  {
    var r := Drop(ms, k);
    forall m ensures m in r <==> m in ms && m.topic != ms[k].topic {
      if m in r {
        var i :| 0 <= i < |r| && r[i] == m;
        assert r[i] == ms[if i < k then i else i + 1];
      }
      if m in ms && m.topic != ms[k].topic {
        var i :| 0 <= i < |ms| && ms[i] == m;
        assert m == r[if i < k then i else i - 1];
      }
    }
  }

  /** Some of the messages, in their order, each at a place of its own. */
  ghost predicate InOrder(some: seq<Message>, ms: seq<Message>)
    decreases |ms|
  {
    some == [] || (ms != []
                   && ((some[0] == ms[0] && InOrder(some[1..], ms[1..])) || InOrder(some, ms[1..])))
  }

  /** What an expiry check leaves: without a time to live everything, else what is within it, in order. */
  lemma SweepMeaning(ms: seq<Message>, now: int, ttlSec: int)
    ensures forall m :: m in Sweep(ms, now, ttlSec) <==> m in ms && (ttlSec <= 0 || now <= m.storedAt + 1000 * ttlSec)
    ensures InOrder(Sweep(ms, now, ttlSec), ms)
  {
    FreshMeaning(ms, now, ttlSec);
    FreshStaysInOrder(ms, now, ttlSec);
    AllInOrder(ms);
  }

  lemma {:induction false} FreshStaysInOrder(ms: seq<Message>, now: int, ttlSec: int)
    ensures InOrder(Fresh(ms, now, ttlSec), ms)
  {
    if ms != [] {
      FreshStaysInOrder(ms[1..], now, ttlSec);
      var rest := Fresh(ms[1..], now, ttlSec);
      assert ([ms[0]] + rest)[1..] == rest && [] + rest == rest;
    }
  }

  lemma {:induction false} AllInOrder(ms: seq<Message>)
    ensures InOrder(ms, ms)
  {
    if ms != [] { AllInOrder(ms[1..]); }
  }

  /** What a retained publish does. An empty one deletes its topic; one too large or out of memory changes nothing; any
      other becomes the first of the list, of whose other topics everything stays that need not be evicted. */
  ghost predicate Replaces(ms: seq<Message>, topic: seq<byte>, payload: seq<byte>, now: int, limit: nat, memory: bool,
                           r: seq<Message>) {
    && Distinct(r)
    && (payload == [] ==> forall x :: x in r <==> x in ms && x.topic != topic)
    && (|payload| > 0x1_0000 || (payload != [] && !memory) ==> r == ms)
    && (0 < |payload| <= 0x1_0000 && memory ==>
          && r != [] && r[0] == Message(topic, payload, now)
          && (forall x | x in r[1..] :: x in ms && x.topic != topic)
          && (Total(Without(ms, topic)) + 33 + |topic| + |payload| <= limit ==>
                forall x :: x in r[1..] <==> x in ms && x.topic != topic))
  }

  lemma PutMeaning(ms: seq<Message>, topic: seq<byte>, payload: seq<byte>, now: int, limit: nat, memory: bool)
    requires Distinct(ms)
    ensures Replaces(ms, topic, payload, now, limit, memory, Put(ms, topic, payload, now, limit, memory))
  {
    var rest, m := Without(ms, topic), Message(topic, payload, now);
    WithoutMeaning(ms, topic);
    EvictMeaning(rest, Size(m), limit);
    if 0 < |payload| <= 0x1_0000 && memory {
      var r := Put(ms, topic, payload, now, limit, memory);
      assert r[1..] == Evict(rest, Size(m), limit);
      PutFront(m, rest, limit);
    }
    hide Without, Total;
  }

  /** What the store counts: the texts of its messages and 33 bytes for each of them. */
  lemma {:induction false} TotalMeaning(ms: seq<Message>)
    ensures Total(ms) == 33 * |ms| + Texts(ms)
  {
    if ms != [] { TotalMeaning(ms[1..]); }
  }

  function Texts(ms: seq<Message>): nat {
    if ms == [] then 0 else |ms[0].topic| + |ms[0].payload| + Texts(ms[1..])
  }

  /** Eviction stops as soon as the new message fits, or when nothing is left. */
  lemma {:induction false} EvictMeaning(ms: seq<Message>, needed: nat, limit: nat)
    ensures Total(Evict(ms, needed, limit)) + needed <= limit || Evict(ms, needed, limit) == []
    ensures Total(Evict(ms, needed, limit)) <= Total(ms)
    ensures forall m | m in Evict(ms, needed, limit) :: m in ms
    ensures Distinct(ms) ==> Distinct(Evict(ms, needed, limit))
    decreases |ms|
  {
    if ms != [] && Total(ms) + needed > limit {
      var k := Oldest(ms);
      TotalOfDrop(ms, k);
      if Distinct(ms) { DistinctDrop(ms, k); }
      EvictMeaning(Drop(ms, k), needed, limit);
    }
  }

  /** Expiry removes exactly the messages older than the time to live, in seconds. */
  lemma {:induction false} FreshMeaning(ms: seq<Message>, now: int, ttlSec: int)
    ensures forall m :: m in Fresh(ms, now, ttlSec) <==> m in ms && now <= m.storedAt + 1000 * ttlSec
    ensures Total(Fresh(ms, now, ttlSec)) <= Total(ms) && |Fresh(ms, now, ttlSec)| <= |ms|
    ensures Distinct(ms) ==> Distinct(Fresh(ms, now, ttlSec))
  {
    if ms != [] {
      FreshMeaning(ms[1..], now, ttlSec);
      var r, r' := Fresh(ms, now, ttlSec), Fresh(ms[1..], now, ttlSec);
      if !Expired(ms[0], now, ttlSec) {
        assert r == [ms[0]] + r' && r[1..] == r';
        if Distinct(ms) {
          forall i, j | 0 <= i < j < |r| ensures r[i].topic != r[j].topic {
            assert r[j] == r'[j - 1] && r'[j - 1] in ms[1..];
          }
        }
      } else {
        assert r == r';
      }
    }
  }

  // ---------- whole runs ----------

  /** In every reachable store no topic occurs twice, and each stored message is the last word
      of the run on its topic. */
  lemma {:induction false} StoredIsLastWord(ops: seq<Op>, limit: nat, ttlSec: int)
    ensures Distinct(Run(ops, limit, ttlSec))
    ensures forall m | m in Run(ops, limit, ttlSec) :: LastWord(ops, m.topic) == Some(m)
  {
    if ops != [] {
      var before, op := ops[..|ops| - 1], ops[|ops| - 1];
      StoredIsLastWord(before, limit, ttlSec);
      var ms := Run(before, limit, ttlSec);
      match op {
        case Tick(now) => FreshMeaning(ms, now, ttlSec);
        case Publish(topic, payload, now, memory) =>
          WithoutMeaning(ms, topic);
          hide Evict, Without, Total;
          if Keeps(payload, memory) {
            EvictMeaning(Without(ms, topic), Size(Message(topic, payload, now)), limit);
            PutFront(Message(topic, payload, now), Without(ms, topic), limit);
          }
      }
    }
  }

  lemma PutFront(m: Message, rest: seq<Message>, limit: nat)
    requires Distinct(rest) && forall x | x in rest :: x.topic != m.topic
    ensures Distinct([m] + Evict(rest, Size(m), limit))
  {
    EvictMeaning(rest, Size(m), limit);
    hide Evict, Total;
    var kept := Evict(rest, Size(m), limit);
    var r := [m] + kept;
    forall i, j | 0 <= i < j < |r| ensures r[i].topic != r[j].topic {
      assert r[j] == kept[j - 1] && kept[j - 1] in rest;
    }
  }

  /** With one limit for the whole run, the store is within it, or a lone message is over it. */
  lemma {:induction false} WithinLimit(ops: seq<Op>, limit: nat, ttlSec: int)
    ensures Total(Run(ops, limit, ttlSec)) <= limit || |Run(ops, limit, ttlSec)| == 1
  {
    if ops != [] {
      var before, op := ops[..|ops| - 1], ops[|ops| - 1];
      WithinLimit(before, limit, ttlSec);
      StoredIsLastWord(before, limit, ttlSec);
      var ms := Run(before, limit, ttlSec);
      match op {
        case Tick(now) => FreshMeaning(ms, now, ttlSec);
        case Publish(topic, payload, now, memory) =>
          WithoutMeaning(ms, topic);
          if Keeps(payload, memory) {
            var m := Message(topic, payload, now);
            EvictMeaning(Without(ms, topic), Size(m), limit);
            assert Run(ops, limit, ttlSec)[1..] == Evict(Without(ms, topic), Size(m), limit);
          }
      }
    }
  }

  /** No publish of the run finds the store too full, and nothing expires. */
  ghost predicate Lossless(ops: seq<Op>, limit: nat, ttlSec: int) {
    ops == [] ||
    var ms, op := Run(ops[..|ops| - 1], limit, ttlSec), ops[|ops| - 1];
    && Lossless(ops[..|ops| - 1], limit, ttlSec)
    && match op
       case Tick(now) => ttlSec <= 0 || forall m | m in ms :: !Expired(m, now, ttlSec)
       case Publish(topic, payload, now, memory) =>
         Keeps(payload, memory) ==> Total(Without(ms, topic)) + Size(Message(topic, payload, now)) <= limit
  }

  /** Eviction and expiry are the only ways to lose a message: without them the store is
      exactly the last words of the run. */
  lemma {:induction false} LosslessIsExact(ops: seq<Op>, limit: nat, ttlSec: int)
    requires Lossless(ops, limit, ttlSec)
    ensures forall m :: m in Run(ops, limit, ttlSec) <==> LastWord(ops, m.topic) == Some(m)
  {
    if ops != [] {
      var before, op := ops[..|ops| - 1], ops[|ops| - 1];
      LosslessIsExact(before, limit, ttlSec);
      StoredIsLastWord(before, limit, ttlSec);
      StoredIsLastWord(ops, limit, ttlSec);
      var ms := Run(before, limit, ttlSec);
      match op {
        case Tick(now) => FreshMeaning(ms, now, ttlSec);
        case Publish(topic, payload, now, memory) => WithoutMeaning(ms, topic);
      }
    }
  }

  // ---------- what eviction takes ----------

  /** The messages evicted, in the order they go. */
  function Victims(ms: seq<Message>, needed: nat, limit: nat): seq<Message>
    decreases |ms|
  {
    if ms == [] || Total(ms) + needed <= limit then []
    else [ms[Oldest(ms)]] + Victims(Drop(ms, Oldest(ms)), needed, limit)
  }

  lemma DropOne(ms: seq<Message>, k: nat)
    requires k < |ms|
    ensures multiset(ms) == multiset([ms[k]]) + multiset(Drop(ms, k))
    ensures forall m | m in Drop(ms, k) :: m in ms
  {
    assert ms == ms[..k] + [ms[k]] + ms[k + 1..];
  }

  lemma {:induction false} VictimsAndSurvivors(ms: seq<Message>, needed: nat, limit: nat)
    ensures multiset(Victims(ms, needed, limit)) + multiset(Evict(ms, needed, limit)) == multiset(ms)
    decreases |ms|
  {
    if ms != [] && Total(ms) + needed > limit {
      var k := Oldest(ms);
      DropOne(ms, k);
      VictimsAndSurvivors(Drop(ms, k), needed, limit);
      assert multiset(Victims(ms, needed, limit)) == multiset([ms[k]]) + multiset(Victims(Drop(ms, k), needed, limit));
    }
  }

  lemma {:induction false} LastVictimHadToGo(ms: seq<Message>, needed: nat, limit: nat)
    ensures var vs, kept := Victims(ms, needed, limit), Evict(ms, needed, limit);
            vs != [] ==> Total(kept) + Size(vs[|vs| - 1]) + needed > limit
    decreases |ms|
  {
    if ms != [] && Total(ms) + needed > limit {
      var k := Oldest(ms);
      TotalOfDrop(ms, k);
      LastVictimHadToGo(Drop(ms, k), needed, limit);
    }
  }

  lemma OldestIsLeast(ms: seq<Message>)
    requires ms != []
    ensures forall m | m in ms :: ms[Oldest(ms)].storedAt <= m.storedAt
  {
    assert IsOldest(ms, Oldest(ms));
  }

  lemma {:induction false} VictimsAreOldest(ms: seq<Message>, needed: nat, limit: nat)
    ensures forall v, s | v in Victims(ms, needed, limit) && s in Evict(ms, needed, limit) :: v.storedAt <= s.storedAt
    ensures forall v | v in Victims(ms, needed, limit) :: v in ms
    decreases |ms|
  {
    if ms != [] && Total(ms) + needed > limit {
      var rest := Drop(ms, Oldest(ms));
      DropOne(ms, Oldest(ms));
      OldestIsLeast(ms);
      VictimsAreOldest(rest, needed, limit);
      EvictMeaning(rest, needed, limit);
    }
  }

  ghost predicate OldestFirst(ms: seq<Message>) {
    forall i, j | 0 <= i < j < |ms| :: ms[i].storedAt <= ms[j].storedAt
  }

  lemma ConsOldestFirst(m: Message, vs: seq<Message>)
    requires OldestFirst(vs) && forall v | v in vs :: m.storedAt <= v.storedAt
    ensures OldestFirst([m] + vs)
  {}

  lemma {:induction false} VictimsInOrder(ms: seq<Message>, needed: nat, limit: nat)
    ensures OldestFirst(Victims(ms, needed, limit))
    decreases |ms|
  {
    if ms != [] && Total(ms) + needed > limit {
      var rest, m := Drop(ms, Oldest(ms)), ms[Oldest(ms)];
      VictimsInOrder(rest, needed, limit);
      forall v | v in Victims(rest, needed, limit) ensures m.storedAt <= v.storedAt {
        VictimsAreOldest(rest, needed, limit);
        DropOne(ms, Oldest(ms));
        OldestIsLeast(ms);
      }
      ConsOldestFirst(m, Victims(rest, needed, limit));
    }
  }

  /** Victims and survivors make up the store; no victim is newer than a survivor or than a
      later victim; and the last victim had to go. */
  lemma EvictsOldestAndNoMore(ms: seq<Message>, needed: nat, limit: nat)
    ensures var vs, kept := Victims(ms, needed, limit), Evict(ms, needed, limit);
            && multiset(vs) + multiset(kept) == multiset(ms)
            && (forall v, s | v in vs && s in kept :: v.storedAt <= s.storedAt)
            && OldestFirst(vs)
            && (vs != [] ==> Total(kept) + Size(vs[|vs| - 1]) + needed > limit)
  {
    VictimsAndSurvivors(ms, needed, limit);
    VictimsAreOldest(ms, needed, limit);
    VictimsInOrder(ms, needed, limit);
    LastVictimHadToGo(ms, needed, limit);
  }

  ghost predicate NewestFirst(ms: seq<Message>) {
    forall i, j | 0 <= i < j < |ms| :: ms[i].storedAt > ms[j].storedAt
  }

  /** With distinct timestamps in list order, eviction is first in, first out: what survives is
      a front part of the list. */
  lemma {:induction false} EvictsInOrder(ms: seq<Message>, needed: nat, limit: nat)
    requires NewestFirst(ms)
    ensures Evict(ms, needed, limit) <= ms
    decreases |ms|
  {
    if ms != [] && Total(ms) + needed > limit {
      var k := Oldest(ms);
      assert ms[k].storedAt <= ms[|ms| - 1].storedAt;
      assert k == |ms| - 1;
      assert Drop(ms, k) == ms[..k];
      EvictsInOrder(ms[..k], needed, limit);
    }
  }

  /** Eviction is first in, first out: for every need and limit what survives is a front part of the list. */
  ghost predicate FirstInFirstOut(ms: seq<Message>) {
    forall needed: nat, limit: nat :: Evict(ms, needed, limit) <= ms
  }

  /** A message that does not leave from the end leaves a gap in a list of distinct topics. */
  lemma GapShows(ms: seq<Message>, k: nat)
    requires k + 1 < |ms| && Distinct(ms)
    ensures !(Drop(ms, k) <= ms)
  {
    assert ms[k].topic != ms[k + 1].topic;
    assert Drop(ms, k)[k] == ms[k + 1];
  }

  lemma EvictStep(ms: seq<Message>, needed: nat, limit: nat)
    requires ms != [] && Total(ms) + needed > limit
    ensures Evict(ms, needed, limit) == Evict(Drop(ms, Oldest(ms)), needed, limit)
  {
    hide Total, Oldest;
  }

  lemma EvictNothing(ms: seq<Message>, needed: nat, limit: nat)
    requires Total(ms) + needed <= limit
    ensures Evict(ms, needed, limit) == ms
  {}

  /** With a limit one byte short exactly the oldest message goes. */
  lemma OneByteShort(ms: seq<Message>)
    requires ms != []
    ensures Total(ms) > 0 && Evict(ms, 0, Total(ms) - 1) == Drop(ms, Oldest(ms))
  {
    TotalOfDrop(ms, Oldest(ms));
    assert Total(ms) >= Size(ms[Oldest(ms)]) > 0;
    hide Total, Oldest, Evict;
    EvictStep(ms, 0, Total(ms) - 1);
    EvictNothing(Drop(ms, Oldest(ms)), 0, Total(ms) - 1);
  }

  lemma FrontGoesLikewise(ms: seq<Message>, front: seq<Message>, needed: nat, limit: nat)
    requires ms != [] && front == ms[..|ms| - 1] && Evict(ms, needed, limit) <= ms && Oldest(ms) == |ms| - 1
    ensures Evict(front, needed, limit) <= front
  {
    assert Drop(ms, |ms| - 1) == front;
    TotalOfDrop(ms, |ms| - 1);
    hide Total, Oldest, Evict;
    EvictMeaning(front, needed, limit);
    if Total(ms) + needed > limit {
      EvictStep(ms, needed, limit);
      EvictShrinks(front, needed, limit);
    } else {
      EvictNothing(front, needed, limit);
    }
  }

  lemma {:induction false} EvictShrinks(ms: seq<Message>, needed: nat, limit: nat)
    ensures |Evict(ms, needed, limit)| <= |ms|
    decreases |ms|
  {
    if ms != [] && Total(ms) + needed > limit { EvictShrinks(Drop(ms, Oldest(ms)), needed, limit); }
  }

  /** What goes first is the last message of the list, which is then strictly the oldest, and the rest goes likewise. */
  lemma FirstOutIsLast(ms: seq<Message>)
    requires Distinct(ms) && ms != [] && FirstInFirstOut(ms)
    ensures FirstInFirstOut(ms[..|ms| - 1])
    ensures forall i | 0 <= i < |ms| - 1 :: ms[i].storedAt > ms[|ms| - 1].storedAt
  {
    var k, n := Oldest(ms), |ms| - 1;
    assert IsOldest(ms, k);
    OneByteShort(ms);
    hide Total, Oldest, Evict, Distinct;
    assert Evict(ms, 0, Total(ms) - 1) <= ms;
    if k < n { GapShows(ms, k); }
    forall needed: nat, limit: nat ensures Evict(ms[..n], needed, limit) <= ms[..n] {
      assert Evict(ms, needed, limit) <= ms;
      FrontGoesLikewise(ms, ms[..n], needed, limit);
    }
  }

  /** Eviction is first in, first out exactly for the lists whose timestamps strictly descend; a tie breaks it. */
  lemma {:induction false} FirstInFirstOutExactlyWhenNewestFirst(ms: seq<Message>)
    requires Distinct(ms)
    ensures FirstInFirstOut(ms) <==> NewestFirst(ms)
    decreases |ms|
  {
    if NewestFirst(ms) {
      forall needed: nat, limit: nat ensures Evict(ms, needed, limit) <= ms { EvictsInOrder(ms, needed, limit); }
    }
    if FirstInFirstOut(ms) && ms != [] {
      var front := ms[..|ms| - 1];
      FirstOutIsLast(ms);
      FirstInFirstOutExactlyWhenNewestFirst(front);
      hide FirstInFirstOut;
      forall i, j | 0 <= i < j < |ms| ensures ms[i].storedAt > ms[j].storedAt {
        if j < |front| { assert front[i] == ms[i] && front[j] == ms[j]; }
      }
    }
  }

  function Stored(m: Message): Op {
    Publish(m.topic, m.payload, m.storedAt, true)
  }

  lemma RunSnoc(before: seq<Op>, op: Op, limit: nat, ttlSec: int)
    ensures Run(before + [op], limit, ttlSec) == Apply(Run(before, limit, ttlSec), op, limit, ttlSec)
  {
    assert (before + [op])[..|before|] == before;
  }

  lemma PutNew(ms: seq<Message>, m: Message, limit: nat, kept: seq<Message>)
    requires Keeps(m.payload, true) && (forall x | x in ms :: x.topic != m.topic) && Evict(ms, Size(m), limit) == kept
    ensures Apply(ms, Stored(m), limit, 0) == [m] + kept
  {
    hide Evict;
    assert Find(ms, m.topic) == |ms|;
  }

  lemma RunStores(before: seq<Op>, ms: seq<Message>, m: Message, limit: nat, kept: seq<Message>)
    requires Run(before, limit, 0) == ms && Keeps(m.payload, true) && Evict(ms, Size(m), limit) == kept
    requires forall x | x in ms :: x.topic != m.topic
    ensures Run(before + [Stored(m)], limit, 0) == [m] + kept
  {
    hide Run, Apply, Evict, Stored, Keeps, Size;
    RunSnoc(before, Stored(m), limit, 0);
    PutNew(ms, m, limit, kept);
  }

  lemma TwoStored(older: Message, newer: Message, limit: nat)
    requires older.topic != newer.topic && Keeps(older.payload, true) && Keeps(newer.payload, true)
    requires Size(older) + Size(newer) <= limit
    ensures Run([] + [Stored(older)] + [Stored(newer)], limit, 0) == [newer] + [older]
  {
    Totals(older, newer);
    EvictNothing([], Size(older), limit);
    EvictNothing([older], Size(newer), limit);
    hide Evict, Keeps, Size, Stored, Total;
    RunStores([], [], older, limit, []);
    assert [older] + [] == [older];
    RunStores([] + [Stored(older)], [older], newer, limit, [older]);
  }

  /** A reachable tie: of two messages stored at one time the later one goes when a third needs the room. */
  lemma TieEvictsNewer(older: Message, newer: Message, third: Message)
    requires older.storedAt == newer.storedAt <= third.storedAt
    requires older.topic != newer.topic && newer.topic != third.topic && third.topic != older.topic
    requires Keeps(older.payload, true) && Keeps(newer.payload, true) && Keeps(third.payload, true)
    requires Size(newer) <= Size(third)
    ensures Run([] + [Stored(older)] + [Stored(newer)] + [Stored(third)], Size(older) + Size(third), 0) ==
            [third] + [older]
  {
    hide *;
    var limit := Size(older) + Size(third);
    TwoStored(older, newer, limit);
    TieGoes(older, newer, Size(third), limit);
    RunStores([] + [Stored(older)] + [Stored(newer)], [newer] + [older], third, limit, [older]);
  }

  lemma Totals(a: Message, b: Message)
    ensures Total([]) == 0 && Total([a]) == Size(a) && Total([b] + [a]) == Size(b) + Size(a)
  {
    assert [a][1..] == [] && ([b] + [a])[1..] == [a];
  }

  lemma TieGoes(older: Message, newer: Message, needed: nat, limit: nat)
    requires older.storedAt == newer.storedAt && limit == Size(older) + needed
    ensures Evict([newer] + [older], needed, limit) == [older]
  {
    var ms := [newer] + [older];
    Totals(older, newer);
    assert Oldest(ms) == 0 by { assert IsOldest(ms, Oldest(ms)); }
    assert Drop(ms, 0) == [older];
    hide Oldest, Total, Evict;
    EvictStep(ms, needed, limit);
    EvictNothing([older], needed, limit);
  }

  ghost predicate Ticking(ops: seq<Op>) {
    forall i, j | 0 <= i < j < |ops| :: ops[i].now < ops[j].now
  }

  /** A clock that advances between operations keeps the list newest first in every run. */
  lemma {:induction false} RunIsNewestFirst(ops: seq<Op>, limit: nat, ttlSec: int)
    requires Ticking(ops)
    ensures NewestFirst(Run(ops, limit, ttlSec))
    ensures forall m | m in Run(ops, limit, ttlSec) :: ops != [] && m.storedAt <= ops[|ops| - 1].now
  {
    if ops != [] {
      var before, op := ops[..|ops| - 1], ops[|ops| - 1];
      RunIsNewestFirst(before, limit, ttlSec);
      StoredIsLastWord(before, limit, ttlSec);
      StepIsNewestFirst(Run(before, limit, ttlSec), op, limit, ttlSec);
    }
  }

  lemma StepIsNewestFirst(ms: seq<Message>, op: Op, limit: nat, ttlSec: int)
    requires NewestFirst(ms) && Distinct(ms)
    requires forall m | m in ms :: m.storedAt < op.now
    ensures NewestFirst(Apply(ms, op, limit, ttlSec))
    ensures forall m | m in Apply(ms, op, limit, ttlSec) :: m.storedAt <= op.now
  {
    match op
    case Tick(now) =>
      FreshMeaning(ms, now, ttlSec);
      FreshInOrder(ms, now, ttlSec);
    case Publish(topic, payload, now, memory) =>
      WithoutMeaning(ms, topic);
      if Find(ms, topic) < |ms| { DropInOrder(ms, Find(ms, topic)); }
      if Keeps(payload, memory) { FrontIsNewest(Message(topic, payload, now), Without(ms, topic), limit); }
  }

  lemma FrontIsNewest(m: Message, rest: seq<Message>, limit: nat)
    requires NewestFirst(rest) && forall x | x in rest :: x.storedAt < m.storedAt
    ensures NewestFirst([m] + Evict(rest, Size(m), limit))
    ensures forall x | x in Evict(rest, Size(m), limit) :: x in rest
  {
    EvictsInOrder(rest, Size(m), limit);
    EvictMeaning(rest, Size(m), limit);
    var kept := Evict(rest, Size(m), limit);
    assert forall i | 0 <= i < |kept| :: kept[i] in rest;
  }

  lemma DropInOrder(ms: seq<Message>, k: nat)
    requires k < |ms| && NewestFirst(ms)
    ensures NewestFirst(Drop(ms, k))
  {
    var r := Drop(ms, k);
    assert forall i | 0 <= i < |r| :: r[i] == ms[if i < k then i else i + 1];
  }

  lemma ConsInOrder(m: Message, kept: seq<Message>, rest: seq<Message>)
    requires NewestFirst([m] + rest) && NewestFirst(kept) && forall x | x in kept :: x in rest
    ensures NewestFirst([m] + kept)
  {
    var all := [m] + rest;
    forall j | 0 <= j < |kept| ensures m.storedAt > kept[j].storedAt {
      assert kept[j] in rest;
      var i :| 0 <= i < |rest| && rest[i] == kept[j];
      assert all[0] == m && all[i + 1] == kept[j];
    }
  }

  lemma NewestFirstTail(ms: seq<Message>)
    requires NewestFirst(ms) && ms != []
    ensures NewestFirst(ms[1..])
  {}

  lemma {:induction false} FreshInOrder(ms: seq<Message>, now: int, ttlSec: int)
    requires NewestFirst(ms)
    ensures NewestFirst(Fresh(ms, now, ttlSec))
  {
    if ms != [] {
      NewestFirstTail(ms);
      FreshInOrder(ms[1..], now, ttlSec);
      if !Expired(ms[0], now, ttlSec) {
        FreshMeaning(ms[1..], now, ttlSec);
        assert ms == [ms[0]] + ms[1..];
        ConsInOrder(ms[0], Fresh(ms[1..], now, ttlSec), ms[1..]);
      }
    }
  }
}
