/** What being flagged means: which histories of publishes the detector flags, and that the table keeps them
    (main/echo_detect.c:56-167). */
module EchoLaws {
  import opened Bytes
  import opened EchoDetect

  // ---------- one topic ----------

  type Times = seq<Millis>

  /** The times of the publishes to a topic since it entered the table; or, once it was cleared, since then, after a
      first time of 0 that stands for the clearing, which leaves an empty window with that start. */
  datatype History = History(cleared: bool, ts: Times) {
    /** Where the publishes begin. */
    function Base(): nat { if cleared then 1 else 0 }

    function Add(t: Millis): History { History(cleared, ts + [t]) }

    ghost predicate Valid() {
      ts != [] && (cleared ==> ts[0] == 0) && Nondecreasing(ts)
    }
  }

  const CLEARED := History(true, [0])

  ghost predicate Nondecreasing(ts: Times) {
    forall j, k | 0 <= j <= k < |ts| :: ts[j] <= ts[k]
  }

  /** The publish, or the clearing, that began the current window. */
  function WindowStart(w: nat, ts: Times): (s: nat)
    requires ts != []
    ensures s < |ts|
  {
    var n := |ts| - 1;
    if n == 0 then 0
    else
      var s := WindowStart(w, ts[..n]);
      if ts[n] - ts[s] > w then n else s
  }

  /** How many of the first k times are publishes in the window of the last of them. */
  function CountAt(w: nat, h: History, k: nat): (n: nat)
    requires 0 < k <= |h.ts|
  {
    var s := WindowStart(w, h.ts[..k]);
    k - s - if s == 0 then h.Base() else 0
  }

  /** The window of the k-th time has N publishes in it; N of 0 is met by any publish but a new topic's first. */
  predicate ReachedAt(w: nat, n: nat, h: History, k: nat)
    requires 0 < k <= |h.ts|
  {
    if n == 0 then k >= 2 else CountAt(w, h, k) >= n
  }

  /** Some prefix of the history has N publishes in its window. */
  ghost predicate Reached(w: nat, n: nat, h: History) {
    exists k | 0 < k <= |h.ts| :: ReachedAt(w, n, h, k)
  }

  /** The last m publishes up to b were within w milliseconds of each other. */
  predicate Within(w: nat, m: nat, h: History, b: nat) {
    0 < m && h.Base() + m - 1 <= b < |h.ts| && h.ts[b] - h.ts[b + 1 - m] <= w
  }

  /** N publishes within M seconds, as a sliding window would see them. */
  ghost predicate Sliding(w: nat, n: nat, h: History) {
    exists b: nat | b < |h.ts| :: Within(w, n, h, b)
  }

  /** A window lasts at most w. */
  lemma {:induction false} WindowSpan(w: nat, ts: Times, k: nat)
    requires 0 < k <= |ts|
    ensures var s := WindowStart(w, ts[..k]); s < k && (ts[k - 1] - ts[s] <= w)
    decreases k
  {
    if k > 1 {
      assert ts[..k][..k - 1] == ts[..k - 1];
      WindowSpan(w, ts, k - 1);
    }
  }

  /** The window that holds the k-th time was begun at s: s begins its own window. */
  lemma {:induction false} WindowBeginsThere(w: nat, ts: Times, k: nat)
    requires 0 < k <= |ts|
    ensures var s := WindowStart(w, ts[..k]);
            WindowStart(w, ts[..s + 1]) == s && (s > 0 ==> ts[s] - ts[WindowStart(w, ts[..s])] > w)
    decreases k
  {
    if k > 1 {
      assert ts[..k][..k - 1] == ts[..k - 1];
      WindowBeginsThere(w, ts, k - 1);
    }
  }

  /** A history that is never flagged keeps every window short of N. */
  lemma SmallBefore(w: nat, n: nat, h: History, k: nat)
    requires !Reached(w, n, h) && n > 0 && 0 < k <= |h.ts|
    ensures CountAt(w, h, k) < n
  {
    assert !ReachedAt(w, n, h, k);
  }

  /** Soundness: a flagged topic really had N publishes within M seconds. */
  lemma FlaggedReallyHadThem(w: nat, n: nat, h: History)
    requires h.Valid() && n > 0 && Reached(w, n, h)
    ensures Sliding(w, n, h)
  {
    var k :| 0 < k <= |h.ts| && ReachedAt(w, n, h, k);
    WindowSpan(w, h.ts, k);
    var s := WindowStart(w, h.ts[..k]);
    var first := if s == 0 then h.Base() else s;
    assert Within(w, n, h, first + n - 1) by {
      assert first + n - 1 <= k - 1;
      assert h.ts[first + n - 1] <= h.ts[k - 1] && h.ts[s] <= h.ts[first];
    }
  }

  /** How many publishes within M seconds the window that starts over cannot miss: one more after a clearing, whose
      empty window may end between them. */
  function Enough(n: nat, cleared: bool): nat {
    if n == 0 then 0 else if cleared then 2 * n - 1 else if n <= 2 then n else 2 * n - 2
  }

  /** Completeness: that many publishes within M seconds are always flagged. */
  lemma EnoughIsFlagged(w: nat, n: nat, h: History, b: nat)
    requires h.Valid() && n > 0 && Within(w, Enough(n, h.cleared), h, b)
    ensures Reached(w, n, h)
  {
    var a := b + 1 - Enough(n, h.cleared);
    var s := WindowStart(w, h.ts[..b + 1]);
    WindowBeginsThere(w, h.ts, b + 1);
    assert CountAt(w, h, b + 1) == b + 1 - s - if s == 0 then h.Base() else 0;
    if s <= a {
      hide WindowStart, CountAt;
      assert ReachedAt(w, n, h, b + 1);
    } else {
      var s' := WindowStart(w, h.ts[..s]);
      EndedBefore(w, h.ts, a, b, s, s');
      assert CountAt(w, h, s) == s - s' - if s' == 0 then h.Base() else 0;
      hide WindowStart, CountAt;
      assert ReachedAt(w, n, h, b + 1) || ReachedAt(w, n, h, s);
    }
  }

  /** A window that ended inside a span of w began before it. */
  lemma EndedBefore(w: nat, ts: Times, a: nat, b: nat, s: nat, s': nat)
    requires Nondecreasing(ts) && a <= b < |ts| && ts[b] - ts[a] <= w && s <= b && s' < s && ts[s] - ts[s'] > w
    ensures s' < a
  {}

  /** A window begun at 0 with N - 1 publishes, all but a new topic's first at its end, and N - 1 just after it: no
      window has N. */
  function Split(w: nat, n: nat, cleared: bool): (h: History)
    requires n >= 2 && w + 1 < INT64_MAX
    ensures h.cleared == cleared && |h.ts| == 2 * n - 2 + h.Base()
  {
    var p := if cleared then 1 else 0;
    History(cleared, seq(2 * n - 2 + p, i => if i == 0 then 0 else if i < n - 1 + p then w else w + 1))
  }

  lemma {:induction false} SplitWindows(w: nat, n: nat, cleared: bool, k: nat)
    requires n >= 2 && w + 1 < INT64_MAX && 0 < k <= |Split(w, n, cleared).ts|
    ensures var h := Split(w, n, cleared);
            WindowStart(w, h.ts[..k]) == if k <= n - 1 + h.Base() then 0 else n - 1 + h.Base()
    decreases k
  {
    if k > 1 {
      var h := Split(w, n, cleared);
      assert h.ts[..k][..k - 1] == h.ts[..k - 1];
      SplitWindows(w, n, cleared, k - 1);
    }
  }

  /** One publish fewer within M seconds goes unseen there. */
  lemma SplitIsMissed(w: nat, n: nat, cleared: bool)
    requires n >= 2 && (cleared || n >= 3) && 0 < w && w + 1 < INT64_MAX
    ensures var h := Split(w, n, cleared);
            h.Valid() && Within(w, Enough(n, cleared) - 1, h, |h.ts| - 1) && !Reached(w, n, h)
  {
    var h := Split(w, n, cleared);
    forall k | 0 < k <= |h.ts| ensures !ReachedAt(w, n, h, k) {
      SplitWindows(w, n, cleared, k);
    }
  }

  /** With no window to speak of, publishes of one millisecond share a window from the first of them. */
  lemma NoWindowSlides(n: nat, h: History, b: nat)
    requires h.Valid() && n > 0 && Within(0, n, h, b)
    ensures Reached(0, n, h)
  {
    if !Reached(0, n, h) {
      var a := b + 1 - n;
      var s := WindowStart(0, h.ts[..b + 1]);
      SmallBefore(0, n, h, b + 1);
      WindowBeginsThere(0, h.ts, b + 1);
      assert s > a;
      WindowSpan(0, h.ts, s);
      assert false;
    }
  }

  /** Some history with one publish fewer than Enough within M seconds is not flagged. */
  ghost predicate Misses(w: nat, n: nat, cleared: bool) {
    exists h: History, b: nat :: MissedBy(w, n, cleared, h, b)
  }

  ghost predicate MissedBy(w: nat, n: nat, cleared: bool, h: History, b: nat) {
    n > 0 && h.Valid() && h.cleared == cleared && b < |h.ts| && Within(w, Enough(n, cleared) - 1, h, b)
      && !Reached(w, n, h)
  }

  /** The bound is sharp exactly for windows of some length. */
  lemma OneFewerIsMissedExactlyWithAWindow(w: nat, n: nat, cleared: bool)
    requires n >= 2 && (cleared || n >= 3) && w + 1 < INT64_MAX
    ensures Misses(w, n, cleared) <==> w > 0
  {
    if w > 0 {
      SplitIsMissed(w, n, cleared);
      var h := Split(w, n, cleared);
      assert MissedBy(w, n, cleared, h, |h.ts| - 1);
    } else if Misses(w, n, cleared) {
      var h: History, b: nat :| MissedBy(w, n, cleared, h, b);
      FewerWithin(n, Enough(n, cleared) - 1, h, b);
      NoWindowSlides(n, h, b);
      assert false;
    }
  }

  lemma FewerWithin(n: nat, m: nat, h: History, b: nat)
    requires h.Valid() && 0 < n <= m && Within(0, m, h, b)
    ensures Within(0, n, h, b)
  {
    assert h.ts[b + 1 - m] <= h.ts[b + 1 - n] <= h.ts[b];
  }

  /** The window slides, as echo_detect.h has it: flagged exactly when N publishes fell within M seconds. */
  ghost predicate Slides(w: nat, n: nat, cleared: bool) {
    forall h: History | h.Valid() && h.cleared == cleared :: Reached(w, n, h) <==> Sliding(w, n, h)
  }

  /** The detector is the sliding window of its header exactly for N up to 2, after a clearing up to 1, or windows of no
      length. */
  lemma SlidesExactlyForSmallCounts(w: nat, n: nat, cleared: bool)
    requires n > 0 && w + 1 < INT64_MAX
    ensures Slides(w, n, cleared) <==> n <= (if cleared then 1 else 2) || w == 0
  {
    if n <= (if cleared then 1 else 2) || w == 0 {
      forall h: History | h.Valid() && h.cleared == cleared ensures Reached(w, n, h) <==> Sliding(w, n, h) {
        if Reached(w, n, h) { FlaggedReallyHadThem(w, n, h); }
        if Sliding(w, n, h) {
          var b: nat :| b < |h.ts| && Within(w, n, h, b);
          if w == 0 { NoWindowSlides(n, h, b); } else { EnoughIsFlagged(w, n, h, b); }
        }
      }
    } else {
      SplitIsMissed(w, n, cleared);
      SplitSlides(w, n, cleared);
    }
  }

  lemma SplitSlides(w: nat, n: nat, cleared: bool)
    requires n >= 2 && (cleared || n >= 3) && 0 < w && w + 1 < INT64_MAX
    ensures Sliding(w, n, Split(w, n, cleared))
  {
    var h := Split(w, n, cleared);
    var b := |h.ts| - 1;
    assert Within(w, n, h, b) by {
      assert h.ts[b] == w + 1 && h.ts[b + 1 - n] >= w;
    }
  }

  // ---------- the entries ----------

  /** The entry keeps the start and the count of the current window, and whether N was reached. */
  ghost predicate Keeps(c: Config, e: Entry, h: History) {
    && h.ts != []
    && e.start == h.ts[WindowStart(c.WindowMs(), h.ts)] && e.count == CountAt(c.WindowMs(), h, |h.ts|) % 0x1_0000
    && (e.detected > 0 <==> Reached(c.WindowMs(), c.minCount, h))
  }

  lemma ReachedGrows(w: nat, n: nat, h: History, t: Millis)
    ensures var h' := h.Add(t);
            Reached(w, n, h') <==> Reached(w, n, h) || ReachedAt(w, n, h', |h'.ts|)
  {
    var h' := h.Add(t);
    forall k | 0 < k <= |h.ts| ensures ReachedAt(w, n, h', k) == ReachedAt(w, n, h, k) {
      assert h'.ts[..k] == h.ts[..k];
    }
    if Reached(w, n, h') {
      var k :| 0 < k <= |h'.ts| && ReachedAt(w, n, h', k);
    }
    if Reached(w, n, h) {
      var k :| 0 < k <= |h.ts| && ReachedAt(w, n, h, k);
      assert ReachedAt(w, n, h', k);
    }
  }

  lemma NewKeeps(c: Config, topic: Topic, now: Millis, stamp: Millis)
    requires stamp > 0
    ensures Keeps(c, NewEntry(c, topic, now, stamp), History(false, [now]))
  {
    var h := History(false, [now]);
    assert h.ts[..1] == h.ts;
    assert Reached(c.WindowMs(), c.minCount, h) <==> ReachedAt(c.WindowMs(), c.minCount, h, 1);
  }

  /** A further publish keeps the entry true to its history. */
  lemma AgainKeeps(c: Config, e: Entry, h: History, now: Millis, stamp: Millis)
    requires stamp > 0 && Keeps(c, e, h)
    ensures Keeps(c, Again(c, e, now, stamp), h.Add(now))
    ensures Again(c, e, now, stamp).topic == e.topic
  {
    hide Reached, WindowStart, CountAt, Counted;
    var w, n, h' := c.WindowMs(), c.minCount, h.Add(now);
    ReachedGrows(w, n, h, now);
    CountedKeeps(c, e, h, now);
    assert n > 0 && !Reached(w, n, h) ==> Counted(c, e, now).count == CountAt(w, h', |h'.ts|) by {
      if n > 0 && !Reached(w, n, h) { SmallCount(w, n, h, now); }
    }
  }

  /** The window start and the 16-bit count stay true, wrap-around included. */
  lemma CountedKeeps(c: Config, e: Entry, h: History, now: Millis)
    requires Keeps(c, e, h)
    ensures var e', h' := Counted(c, e, now), h.Add(now);
            && e'.start == h'.ts[WindowStart(c.WindowMs(), h'.ts)]
            && e'.count == CountAt(c.WindowMs(), h', |h'.ts|) % 0x1_0000
            && e'.detected == e.detected && e'.topic == e.topic
  {
    hide Reached, WindowStart, CountAt;
    CountGrows(c.WindowMs(), h, now);
    CountWraps(CountAt(c.WindowMs(), h, |h.ts|));
  }

  /** Until a detection the count is too small to wrap. */
  lemma SmallCount(w: nat, n: u16, h: History, now: Millis)
    requires n > 0 && !Reached(w, n, h) && h.ts != []
    ensures CountAt(w, h.Add(now), |h.ts| + 1) < 0x1_0000
  {
    SmallBefore(w, n, h, |h.ts|);
    CountGrows(w, h, now);
  }

  lemma CountWraps(k: nat)
    ensures (k % 0x1_0000 + 1) % 0x1_0000 == (k + 1) % 0x1_0000
    ensures k < 0xFFFF ==> (k + 1) % 0x1_0000 == k + 1
  {}

  /** The window after one more publish, as the entry sees it. */
  lemma CountGrows(w: nat, h: History, now: Millis)
    requires h.ts != []
    ensures var ts, ts' := h.ts, h.ts + [now];
            var over := now - ts[WindowStart(w, ts)] > w;
            && ts'[WindowStart(w, ts')] == (if over then now else ts[WindowStart(w, ts)])
            && CountAt(w, h.Add(now), |ts'|) == if over then 1 else CountAt(w, h, |ts|) + 1
  {
    var ts, ts' := h.ts, h.ts + [now];
    assert ts'[..|ts|] == ts && ts'[..|ts'|] == ts' && ts[..|ts|] == ts;
  }

  lemma ClearedEntryKeeps(c: Config, e: Entry)
    requires e.start == 0 && e.count == 0 && e.detected == 0
    ensures Keeps(c, e, CLEARED)
  {
    assert CLEARED.ts[..1] == CLEARED.ts;
    assert !ReachedAt(c.WindowMs(), c.minCount, CLEARED, 1);
  }

  // ---------- what echo_track answers ----------

  /** The publish is the one that flagged the topic. */
  predicate JustDetected(tab: seq<Entry>, topic: Topic, tab': seq<Entry>) {
    !Detected(tab, topic) && Detected(tab', topic)
  }

  lemma StaysDetected(c: Config, tab: seq<Entry>, topic: Topic, now: Millis, stamp: Millis, tab': seq<Entry>)
    requires TrackStep(c, tab, topic, now, stamp, tab') && Detected(tab, topic)
    ensures Detected(tab', topic)
  {
    FoundAt(tab', topic, Find(tab, topic));
  }

  /** The answer of echo_track, that the topic is flagged now, is the answer its header promises, that it was just
      detected, exactly when the topic was not flagged before. */
  lemma AnswerIsNewsExactlyWhenUnflagged(c: Config, tab: seq<Entry>, topic: Topic, now: Millis, stamp: Millis,
                                         tab': seq<Entry>)
    requires TrackStep(c, tab, topic, now, stamp, tab')
    ensures (Detected(tab', topic) <==> JustDetected(tab, topic, tab')) <==> !Detected(tab, topic)
  {
    if Detected(tab, topic) { StaysDetected(c, tab, topic, now, stamp, tab'); }
  }

  /** With N of 1 two publishes to a new topic are both answered with true; only the first is news. */
  lemma SecondAnswerIsNoNews(c: Config, topic: Topic, now: Millis, later: Millis, stamp: Millis, t1: seq<Entry>,
                             t2: seq<Entry>)
    requires c.minCount == 1 && stamp > 0 && now <= later
    requires TrackStep(c, [], topic, now, stamp, t1) && TrackStep(c, t1, topic, later, stamp, t2)
    ensures JustDetected([], topic, t1) && Detected(t2, topic) && !JustDetected(t1, topic, t2)
  {
    assert Find([], topic) == 0;
    assert t1 == [NewEntry(c, topic, now, stamp)];
    assert Find(t1, topic) == 0;
    StaysDetected(c, t1, topic, later, stamp, t2);
  }

  // ---------- the table ----------

  /** Tracked topics are distinct. */
  ghost predicate Distinct(tab: seq<Entry>) {
    forall j, k | 0 <= j < k < |tab| :: tab[j].topic != tab[k].topic
  }

  type Relation = (Entry, History) -> bool

  ghost function Keeping(c: Config): Relation {
    (e, h) => Keeps(c, e, h)
  }

  ghost predicate Holds(tab: seq<Entry>, topic: Topic) {
    exists i | 0 <= i < |tab| :: tab[i].topic == topic
  }

  ghost predicate Related(p: Relation, tab: seq<Entry>, h: map<Topic, History>) {
    && |tab| <= MAX_TOPICS && Distinct(tab)
    && (forall t :: t in h <==> Holds(tab, t))
    && (forall i | 0 <= i < |tab| :: tab[i].topic in h && p(tab[i], h[tab[i].topic]))
  }

  /** The table keeps the history of each of its topics. */
  ghost predicate KeepsAll(c: Config, tab: seq<Entry>, h: map<Topic, History>) {
    Related(Keeping(c), tab, h)
  }

  /** The topic a new one displaces. */
  ghost predicate Displaces(tab: seq<Entry>, v: nat, tab': seq<Entry>) {
    v < |tab| && |tab'| == |tab| && tab'[v].topic != tab[v].topic
    && forall k | 0 <= k < |tab| && k != v :: tab'[k] == tab[k]
  }

  lemma FoundIffHeld(tab: seq<Entry>, topic: Topic)
    ensures Find(tab, topic) < |tab| <==> Holds(tab, topic)
  {}

  lemma UpdateKeeps(p: Relation, tab: seq<Entry>, h: map<Topic, History>, i: nat, e: Entry, ts: History)
    requires Related(p, tab, h) && i < |tab| && e.topic == tab[i].topic && p(e, ts)
    ensures Related(p, tab[i := e], h[e.topic := ts])
  {
    var tab', h' := tab[i := e], h[e.topic := ts];
    assert forall k | 0 <= k < |tab| :: tab'[k].topic == tab[k].topic;
    forall t ensures t in h' <==> Holds(tab', t) {
      if Holds(tab, t) {
        var k :| 0 <= k < |tab| && tab[k].topic == t;
        assert tab'[k].topic == t;
      }
      if Holds(tab', t) {
        var k :| 0 <= k < |tab'| && tab'[k].topic == t;
        assert tab[k].topic == t;
      }
    }
    forall k | 0 <= k < |tab'| ensures tab'[k].topic in h' && p(tab'[k], h'[tab'[k].topic]) {
      if k != i { assert tab[k].topic != tab[i].topic; }
    }
  }

  lemma AppendKeeps(p: Relation, tab: seq<Entry>, h: map<Topic, History>, e: Entry, ts: History)
    requires Related(p, tab, h) && |tab| < MAX_TOPICS && !Holds(tab, e.topic) && p(e, ts)
    ensures Related(p, tab + [e], h[e.topic := ts])
  {
    var tab', h' := tab + [e], h[e.topic := ts];
    assert forall k | 0 <= k < |tab'| :: tab'[k] == if k < |tab| then tab[k] else e;
    forall t ensures t in h' <==> Holds(tab', t) {
      if Holds(tab, t) {
        var k :| 0 <= k < |tab| && tab[k].topic == t;
        assert tab'[k].topic == t;
      }
      assert tab'[|tab|].topic == e.topic;
    }
  }

  lemma ReplaceKeeps(p: Relation, tab: seq<Entry>, h: map<Topic, History>, v: nat, e: Entry, ts: History)
    requires Related(p, tab, h) && v < |tab| && !Holds(tab, e.topic) && p(e, ts)
    ensures Related(p, tab[v := e], (h - {tab[v].topic})[e.topic := ts])
  {
    var tab', h' := tab[v := e], (h - {tab[v].topic})[e.topic := ts];
    forall t ensures t in h' <==> Holds(tab', t) {
      if t in h && t != tab[v].topic {
        var k :| 0 <= k < |tab| && tab[k].topic == t;
        assert tab'[k].topic == t;
      }
      if Holds(tab', t) {
        var k :| 0 <= k < |tab'| && tab'[k].topic == t;
        assert k == v || (tab[k].topic == t && tab[k].topic != tab[v].topic);
      }
      assert tab'[v].topic == e.topic;
    }
    forall k | 0 <= k < |tab'| ensures tab'[k].topic in h' && p(tab'[k], h'[tab'[k].topic]) {
      if k != v { assert tab[k].topic != tab[v].topic; }
    }
  }

  /** The histories after a publish, given the slot a new topic would get. */
  function Recorded(tab: seq<Entry>, h: map<Topic, History>, v: nat, topic: Topic, now: Millis): map<Topic, History> {
    if topic in h then h[topic := h[topic].Add(now)]
    else (if v < |tab| then h - {tab[v].topic} else h)[topic := History(false, [now])]
  }

  /** A publish keeps every history: the topic's grows, a displaced one is dropped, the others stay. */
  lemma PublishKeeps(c: Config, tab: seq<Entry>, h: map<Topic, History>, v: nat, topic: Topic, now: Millis,
                     stamp: Millis, tab': seq<Entry>)
    requires KeepsAll(c, tab, h) && stamp > 0
    requires if Find(tab, topic) < |tab| then tab' == TrackedAgain(c, tab, topic, now, stamp)
             else v <= |tab| && IsSlot(tab, v) && tab' == TrackedNew(c, tab, v, topic, now, stamp)
    ensures KeepsAll(c, tab', Recorded(tab, h, v, topic, now))
  {
    FoundIffHeld(tab, topic);
    if topic in h {
      var i := Find(tab, topic);
      assert Keeping(c)(tab[i], h[topic]);
      AgainKeeps(c, tab[i], h[topic], now, stamp);
      var e := Again(c, tab[i], now, stamp);
      assert Keeping(c)(e, h[topic].Add(now));
      UpdateKeeps(Keeping(c), tab, h, i, e, h[topic].Add(now));
    } else {
      NewKeeps(c, topic, now, stamp);
      var e := NewEntry(c, topic, now, stamp);
      var first := History(false, [now]);
      assert Keeping(c)(e, first);
      if v < |tab| {
        ReplaceKeeps(Keeping(c), tab, h, v, e, first);
      } else {
        AppendKeeps(Keeping(c), tab, h, e, first);
      }
    }
  }

  lemma ClearedHolds(tab: seq<Entry>, t: Topic)
    ensures Holds(Cleared(tab), t) <==> Holds(tab, t)
  {
    var tab' := Cleared(tab);
    if Holds(tab, t) {
      var k :| 0 <= k < |tab| && tab[k].topic == t;
      assert tab'[k].topic == t;
    }
    if Holds(tab', t) {
      var k :| 0 <= k < |tab'| && tab'[k].topic == t;
      assert tab[k].topic == t;
    }
  }

  lemma ClearedRelated(p: Relation, tab: seq<Entry>, h: map<Topic, History>)
    requires Related(p, tab, h) && forall i | 0 <= i < |tab| :: p(Cleared(tab)[i], CLEARED)
    ensures Related(p, Cleared(tab), map t | t in h :: CLEARED)
  {
    var tab', h' := Cleared(tab), map t | t in h :: CLEARED;
    forall t ensures t in h' <==> Holds(tab', t) {
      ClearedHolds(tab, t);
    }
    forall j, k | 0 <= j < k < |tab'| ensures tab'[j].topic != tab'[k].topic {
      assert tab[j].topic != tab[k].topic;
    }
    forall k | 0 <= k < |tab'| ensures tab'[k].topic in h' && p(tab'[k], h'[tab'[k].topic]) {
      assert tab[k].topic in h;
    }
  }

  lemma ClearedKeeps(c: Config, tab: seq<Entry>, h: map<Topic, History>)
    requires KeepsAll(c, tab, h)
    ensures KeepsAll(c, Cleared(tab), map t | t in h :: CLEARED)
  {
    forall i | 0 <= i < |tab| ensures Keeping(c)(Cleared(tab)[i], CLEARED) {
      ClearedEntryKeeps(c, Cleared(tab)[i]);
    }
    ClearedRelated(Keeping(c), tab, h);
  }

  /** A topic is displaced only when 32 are tracked; a flagged one only when every tracked topic is flagged, and then it
      is the earliest detection; of the others the one whose window began first. */
  lemma EvictsFlaggedLast(c: Config, tab: seq<Entry>, v: nat, topic: Topic, now: Millis, stamp: Millis)
    requires Find(tab, topic) == |tab| && IsSlot(tab, v) && v < |tab|
    ensures |tab| >= 32
    ensures tab[v].detected > 0 ==> forall k | 0 <= k < |tab| :: tab[k].detected >= tab[v].detected
    ensures tab[v].detected == 0 ==>
              forall k | 0 <= k < |tab| && tab[k].detected == 0 :: tab[v].start <= tab[k].start
    ensures Displaces(tab, v, TrackedNew(c, tab, v, topic, now, stamp))
  {}

  // ---------- runs ----------

  datatype Event = Publish(topic: Topic, now: Millis, stamp: Millis) | Clear

  /** The detector's table, and beside it the history of each tracked topic. */
  datatype Trace = Trace(tab: seq<Entry>, h: map<Topic, History>)

  /** One event, v being the slot a new topic gets. */
  ghost predicate StepAt(c: Config, s: Trace, ev: Event, v: nat, s': Trace) {
    match ev
    case Publish(topic, now, stamp) =>
      if Find(s.tab, topic) < |s.tab| then
        s' == Trace(TrackedAgain(c, s.tab, topic, now, stamp), Recorded(s.tab, s.h, v, topic, now))
      else
        && v <= |s.tab| && IsSlot(s.tab, v)
        && s' == Trace(TrackedNew(c, s.tab, v, topic, now, stamp), Recorded(s.tab, s.h, v, topic, now))
    case Clear => s' == Trace(Cleared(s.tab), map t | t in s.h :: CLEARED)
  }

  ghost predicate Step(c: Config, s: Trace, ev: Event, s': Trace) {
    exists v: nat :: StepAt(c, s, ev, v, s')
  }

  /** The states a run from an empty table goes through. */
  ghost predicate Run(c: Config, evs: seq<Event>, ss: seq<Trace>) {
    && |ss| == |evs| + 1 && ss[0] == Trace([], map[])
    && forall k | 0 <= k < |evs| :: Step(c, ss[k], evs[k], ss[k + 1])
  }

  /** The clock never goes back and the stamps are set. */
  ghost predicate Timely(evs: seq<Event>) {
    && (forall j, k | 0 <= j <= k < |evs| && evs[j].Publish? && evs[k].Publish? :: evs[j].now <= evs[k].now)
    && (forall k | 0 <= k < |evs| && evs[k].Publish? :: evs[k].stamp > 0)
  }

  /** The histories are in order and no later than now. */
  ghost predicate Ordered(h: map<Topic, History>, now: int) {
    now >= 0 && forall t | t in h :: h[t].Valid() && h[t].ts[|h[t].ts| - 1] <= now
  }

  ghost predicate Latest(evs: seq<Event>, now: int) {
    now >= 0 && forall j | 0 <= j < |evs| && evs[j].Publish? :: evs[j].now <= now
  }

  lemma RecordedOrdered(tab: seq<Entry>, h: map<Topic, History>, v: nat, topic: Topic, now: int, at: Millis)
    requires Ordered(h, now) && now <= at
    ensures Ordered(Recorded(tab, h, v, topic, at), at)
  {
    var h' := Recorded(tab, h, v, topic, at);
    forall t | t in h' ensures h'[t].Valid() && h'[t].ts[|h'[t].ts| - 1] <= at {
      if t != topic { assert t in h && h'[t] == h[t]; }
    }
  }

  lemma StepKeeps(c: Config, s: Trace, ev: Event, v: nat, s': Trace, now: int)
    requires KeepsAll(c, s.tab, s.h) && StepAt(c, s, ev, v, s') && Ordered(s.h, now)
    requires ev.Publish? ==> now <= ev.now && ev.stamp > 0
    ensures KeepsAll(c, s'.tab, s'.h) && Ordered(s'.h, if ev.Publish? then ev.now else now)
  {
    match ev
    case Publish(topic, at, stamp) =>
      PublishKeeps(c, s.tab, s.h, v, topic, at, stamp, s'.tab);
      RecordedOrdered(s.tab, s.h, v, topic, now, at);
    case Clear => ClearedKeeps(c, s.tab, s.h);
  }

  /** In every reachable state the table is true to the histories of its topics. */
  lemma {:induction false} RunKeeps(c: Config, evs: seq<Event>, ss: seq<Trace>, k: nat, now: int)
    requires Run(c, evs, ss) && Timely(evs) && k <= |evs| && Latest(evs[..k], now)
    ensures KeepsAll(c, ss[k].tab, ss[k].h) && Ordered(ss[k].h, now)
    decreases k
  {
    if k > 0 {
      hide KeepsAll, Ordered, StepAt;
      var ev := evs[k - 1];
      assert Step(c, ss[k - 1], ev, ss[k]);
      var v: nat :| StepAt(c, ss[k - 1], ev, v, ss[k]);
      assert forall j | 0 <= j < k :: evs[..k][j] == evs[j];
      if ev.Publish? {
        assert Latest(evs[..k - 1], ev.now);
        RunKeeps(c, evs, ss, k - 1, ev.now);
        StepKeeps(c, ss[k - 1], ev, v, ss[k], ev.now);
        assert ev.now <= now;
      } else {
        assert Latest(evs[..k - 1], now);
        RunKeeps(c, evs, ss, k - 1, now);
        StepKeeps(c, ss[k - 1], ev, v, ss[k], now);
      }
    }
  }

  lemma SomeLatest(evs: seq<Event>) returns (now: int)
    ensures Latest(evs, now)
  {
    now := 0;
    if evs != [] {
      var n := |evs| - 1;
      now := SomeLatest(evs[..n]);
      if evs[n].Publish? && evs[n].now > now { now := evs[n].now; }
      assert forall j | 0 <= j < n :: evs[..n][j] == evs[j];
    }
  }

  /** Over every run of publishes and clearings: tracked topics are distinct; a flagged one had N publishes within M
      seconds since it entered the table or was cleared, and one that had Enough of them is flagged; for N of 0 a topic
      is flagged from its second publish on, or the first after a clearing. */
  lemma DetectionOverRuns(c: Config, evs: seq<Event>, ss: seq<Trace>, k: nat, i: nat)
    requires Run(c, evs, ss) && Timely(evs) && k <= |evs| && i < |ss[k].tab|
    ensures Distinct(ss[k].tab) && |ss[k].tab| <= MAX_TOPICS && ss[k].tab[i].topic in ss[k].h
    ensures var e, h := ss[k].tab[i], ss[k].h[ss[k].tab[i].topic];
            && (c.minCount > 0 && e.detected > 0 ==> Sliding(1000 * c.windowSec, c.minCount, h))
            && (c.minCount > 0 && Sliding(1000 * c.windowSec, Enough(c.minCount, h.cleared), h) ==> e.detected > 0)
            && (c.minCount == 0 ==> (e.detected > 0 <==> |h.ts| >= 2))
  {
    var now := SomeLatest(evs[..k]);
    RunKeeps(c, evs, ss, k, now);
    var e := ss[k].tab[i];
    assert Keeping(c)(e, ss[k].h[e.topic]);
    DetectionOf(c, e, ss[k].h[e.topic]);
  }

  lemma DetectionOf(c: Config, e: Entry, h: History)
    requires Keeps(c, e, h) && h.Valid()
    ensures c.minCount > 0 && e.detected > 0 ==> Sliding(c.WindowMs(), c.minCount, h)
    ensures c.minCount > 0 && Sliding(c.WindowMs(), Enough(c.minCount, h.cleared), h) ==> e.detected > 0
    ensures c.minCount == 0 ==> (e.detected > 0 <==> |h.ts| >= 2)
  {
    var w, n := c.WindowMs(), c.minCount;
    if n > 0 {
      if e.detected > 0 { FlaggedReallyHadThem(w, n, h); }
      if b: nat :| b < |h.ts| && Within(w, Enough(n, h.cleared), h, b) { EnoughIsFlagged(w, n, h, b); }
    } else if |h.ts| >= 2 {
      assert ReachedAt(w, n, h, 2);
    }
  }

  /** A clock that still reads 0 detects nothing: over any run whose stamps are all 0, at whatever counts, echo_track
      answers false to every publish. */
  lemma {:induction false} StampZeroNeverAnswers(c: Config, evs: seq<Event>, ss: seq<Trace>, k: nat, topic: Topic)
    requires Run(c, evs, ss) && k <= |evs|
    requires forall j | 0 <= j < |evs| && evs[j].Publish? :: evs[j].stamp == 0
    ensures !Detected(ss[k].tab, topic)
  {
    NothingStamped(c, evs, ss, k);
  }

  lemma {:induction false} NothingStamped(c: Config, evs: seq<Event>, ss: seq<Trace>, k: nat)
    requires Run(c, evs, ss) && k <= |evs|
    requires forall j | 0 <= j < |evs| && evs[j].Publish? :: evs[j].stamp == 0
    ensures forall i | 0 <= i < |ss[k].tab| :: ss[k].tab[i].detected == 0
    decreases k
  {
    if k > 0 {
      NothingStamped(c, evs, ss, k - 1);
      assert Step(c, ss[k - 1], evs[k - 1], ss[k]);
      var v: nat :| StepAt(c, ss[k - 1], evs[k - 1], v, ss[k]);
    }
  }
}
