/** The echo detector: per-topic publish counts in a table of 32 topics (main/echo_detect.c:24-167). */
module EchoDetect {
  import opened Bytes

  const MAX_TOPICS := 32
  const MAX_TOPIC_LEN := 128
  const INT64_MAX := 0x7FFF_FFFF_FFFF_FFFF

  type Topic = t: seq<byte> | |t| <= MAX_TOPIC_LEN witness []

  /** Milliseconds of a clock that starts at boot, or of the wall clock. */
  type Millis = x: int | 0 <= x < INT64_MAX

  /** detected is the time of the first detection, 0 when there was none. */
  datatype Entry = Entry(topic: Topic, count: u16, start: Millis, detected: Millis)

  /** The settings: N publishes within M seconds. */
  datatype Config = Config(enabled: bool, minCount: u16, windowSec: u16) {
    function WindowMs(): nat { windowSec * 1000 }
  }

  // ---------- the table as a value ----------

  /** The position of a topic, |tab| when it is not there. */
  function Find(tab: seq<Entry>, topic: Topic): (i: nat)
    ensures i <= |tab| && (i < |tab| ==> tab[i].topic == topic)
    ensures forall k | 0 <= k < i :: tab[k].topic != topic
  {
    if tab == [] then 0 else if tab[0].topic == topic then 0 else 1 + Find(tab[1..], topic)
  }

  /** Where the next new topic goes: the end, else an undetected entry with the oldest window, else the oldest
      detection; the first of several equals. */
  ghost predicate IsSlot(tab: seq<Entry>, v: nat) {
    if |tab| < MAX_TOPICS then v == |tab|
    else if exists k | 0 <= k < |tab| :: tab[k].detected == 0 then
      && v < |tab| && tab[v].detected == 0
      && (forall k | 0 <= k < |tab| && tab[k].detected == 0 :: tab[v].start <= tab[k].start)
      && (forall k | 0 <= k < v && tab[k].detected == 0 :: tab[v].start < tab[k].start)
    else
      && v < |tab|
      && (forall k | 0 <= k < |tab| :: tab[v].detected <= tab[k].detected)
      && (forall k | 0 <= k < v :: tab[v].detected < tab[k].detected)
  }

  function Place(tab: seq<Entry>, v: nat, e: Entry): seq<Entry>
    requires v <= |tab|
  {
    if v < |tab| then tab[v := e] else tab + [e]
  }

  /** A topic's first publish. */
  function NewEntry(c: Config, topic: Topic, now: Millis, stamp: Millis): Entry {
    Entry(topic, 1, now, if c.minCount == 1 then stamp else 0)
  }

  /** A further publish to a tracked topic. */
  function Again(c: Config, e: Entry, now: Millis, stamp: Millis): Entry {
    var e1 := Counted(c, e, now);
    if e1.detected == 0 && e1.count >= c.minCount then e1.(detected := stamp) else e1
  }

  /** Its count and window. */
  function Counted(c: Config, e: Entry, now: Millis): Entry {
    if now - e.start > c.WindowMs() then e.(count := 1, start := now) else e.(count := (e.count + 1) % 0x1_0000)
  }

  function Cleared(tab: seq<Entry>): (r: seq<Entry>) {
    seq(|tab|, i requires 0 <= i < |tab| => tab[i].(detected := 0, count := 0, start := 0))
  }

  /** The table after echo_track of a topic already in it, and of a new one given its slot. */
  function TrackedAgain(c: Config, tab: seq<Entry>, topic: Topic, now: Millis, stamp: Millis): seq<Entry>
    requires Find(tab, topic) < |tab|
  {
    tab[Find(tab, topic) := Again(c, tab[Find(tab, topic)], now, stamp)]
  }

  function TrackedNew(c: Config, tab: seq<Entry>, v: nat, topic: Topic, now: Millis, stamp: Millis): seq<Entry>
    requires v <= |tab|
  {
    Place(tab, v, NewEntry(c, topic, now, stamp))
  }

  /** echo_track's step of the table. */
  ghost predicate TrackStep(c: Config, tab: seq<Entry>, topic: Topic, now: Millis, stamp: Millis, tab': seq<Entry>) {
    if Find(tab, topic) < |tab| then tab' == TrackedAgain(c, tab, topic, now, stamp)
    else exists v: nat | v <= |tab| :: IsSlot(tab, v) && tab' == TrackedNew(c, tab, v, topic, now, stamp)
  }

  predicate Detected(tab: seq<Entry>, topic: Topic) {
    var i := Find(tab, topic);
    i < |tab| && tab[i].detected > 0
  }

  lemma FoundAt(tab: seq<Entry>, topic: Topic, i: nat)
    requires i < |tab| && tab[i].topic == topic && forall k | 0 <= k < i :: tab[k].topic != topic
    ensures Find(tab, topic) == i
  {}

  lemma PlacedAt(tab: seq<Entry>, v: nat, e: Entry)
    requires v <= |tab| && Find(tab, e.topic) == |tab|
    ensures v < |Place(tab, v, e)| && Place(tab, v, e)[v] == e && Find(Place(tab, v, e), e.topic) == v
  {
    FoundAt(Place(tab, v, e), e.topic, v);
  }

  // ---------- the arrays ----------

  class Detector {
    const config: Config
    const entries: array<Entry>
    var count: nat

    ghost predicate Valid()
      reads this
    {
      entries.Length == MAX_TOPICS && count <= MAX_TOPICS
    }

    ghost function Table(): seq<Entry>
      reads this, entries
      requires Valid()
    {
      entries[..count]
    }

    constructor (config: Config)
      ensures Valid() && fresh(entries) && Table() == [] && this.config == config
    {
      this.config := config;
      entries := new Entry[MAX_TOPICS](_ => Entry([], 0, 0, 0));
      count := 0;
    }

    /** find_entry. */
    method FindEntry(topic: Topic) returns (i: int)
      requires Valid()
      ensures var k := Find(Table(), topic); i == if k < count then k else -1
    {
      i := 0;
      while i < count
        invariant 0 <= i <= count
        invariant forall k | 0 <= k < i :: entries[k].topic != topic
      {
        if entries[i].topic == topic {
          return i;
        }
        i := i + 1;
      }
      i := -1;
    }

    /** find_free_slot. */
    method FindFreeSlot() returns (v: nat)
      requires Valid()
      ensures v < MAX_TOPICS && IsSlot(Table(), v)
    {
      if count < MAX_TOPICS { return count; }
      var oldest, oldestTime, i := -1, INT64_MAX, 0;
      while i < count
        invariant 0 <= i <= count && -1 <= oldest < i
        invariant oldest == -1 ==> oldestTime == INT64_MAX && forall k | 0 <= k < i :: entries[k].detected != 0
        invariant oldest >= 0 ==> entries[oldest].detected == 0 && entries[oldest].start == oldestTime
        invariant forall k | 0 <= k < i && entries[k].detected == 0 :: oldestTime <= entries[k].start
        invariant forall k | 0 <= k < oldest && entries[k].detected == 0 :: oldestTime < entries[k].start
      {
        if entries[i].detected == 0 {
          if entries[i].start < oldestTime {
            oldestTime, oldest := entries[i].start, i;
          }
        }
        i := i + 1;
      }
      if oldest >= 0 {
        assert Table()[oldest].detected == 0;
        return oldest;
      }
      assert forall k | 0 <= k < |Table()| :: Table()[k].detected == entries[k].detected;
      oldest, oldestTime, i := 0, entries[0].detected, 1;
      while i < count
        invariant 1 <= i <= count && 0 <= oldest < i && entries[oldest].detected == oldestTime
        invariant forall k | 0 <= k < i :: oldestTime <= entries[k].detected
        invariant forall k | 0 <= k < oldest :: oldestTime < entries[k].detected
      {
        if entries[i].detected < oldestTime {
          oldestTime, oldest := entries[i].detected, i;
        }
        i := i + 1;
      }
      v := oldest;
    }

    /** echo_track: now is read from the tick count, stamp from the wall clock when it is set. */
    method Track(topic: Topic, now: Millis, stamp: Millis) returns (flagged: bool)
      requires Valid()
      modifies `count, entries
      ensures Valid()
      ensures if config.enabled then TrackStep(config, old(Table()), topic, now, stamp, Table())
              else Table() == old(Table())
      ensures flagged == (config.enabled && Detected(Table(), topic))
    {
      if !config.enabled { return false; }
      ghost var was := Table();
      var idx := FindEntry(topic);
      if idx < 0 {
        idx := FindFreeSlot();
        TrackNew(idx, topic, now, stamp);
        assert TrackStep(config, was, topic, now, stamp, Table());
        PlacedAt(was, idx, NewEntry(config, topic, now, stamp));
      } else {
        TrackAgain(idx, now, stamp);
        FoundAt(Table(), topic, idx);
      }
      assert entries[idx] == Table()[idx];
      flagged := entries[idx].detected > 0;
    }

    /** The branch of echo_track for a new topic. */
    method TrackNew(v: nat, topic: Topic, now: Millis, stamp: Millis)
      requires Valid() && v < MAX_TOPICS && v <= count
      modifies `count, entries
      ensures Valid() && v < count
      ensures Table() == TrackedNew(config, old(Table()), v, topic, now, stamp)
    {
      if v >= count { count := count + 1; }
      entries[v] := Entry(topic, 1, now, 0);
      if config.minCount == 1 {
        entries[v] := entries[v].(detected := stamp);
      }
    }

    /** The branch of echo_track for a tracked topic. */
    method TrackAgain(i: nat, now: Millis, stamp: Millis)
      requires Valid() && i < count
      modifies entries
      ensures Valid() && Table() == old(Table())[i := Again(config, old(Table())[i], now, stamp)]
    {
      var slotMs := config.windowSec * 1000;
      if now - entries[i].start > slotMs {
        entries[i] := entries[i].(count := 1, start := now);
      } else {
        entries[i] := entries[i].(count := (entries[i].count + 1) % 0x1_0000);
      }
      if entries[i].detected == 0 && entries[i].count >= config.minCount {
        entries[i] := entries[i].(detected := stamp);
      }
    }

    /** echo_reset. */
    method Reset()
      requires Valid()
      modifies entries
      ensures Valid() && Table() == Cleared(old(Table()))
    {
      var i := 0;
      while i < count
        invariant 0 <= i <= count
        invariant forall k | 0 <= k < i :: entries[k] == old(entries[k]).(detected := 0, count := 0, start := 0)
        invariant forall k | i <= k < count :: entries[k] == old(entries[k])
      {
        entries[i] := entries[i].(detected := 0, count := 0, start := 0);
        i := i + 1;
      }
    }
  }
}
