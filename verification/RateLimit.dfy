/** The rate limiter of the SNTP server: a table of 32 sources (main/ntp.c:192-206, 475-513). */
module RateLimit {
  import opened Bytes

  const SLOTS := 32
  const PER_SECOND := 10
  const WINDOW_MS := 1000
  const INT64_MAX := 0x7FFF_FFFF_FFFF_FFFF

  type Millis = x: int | 0 <= x < INT64_MAX

  /** addr 0 marks a free slot. */
  datatype Entry = Entry(addr: nat, last: Millis, count: nat, total: nat)

  const FREE := Entry(0, 0, 0, 0)

  // ---------- the table as a value ----------

  /** The first slot with an address, |tab| when there is none. */
  function Find(tab: seq<Entry>, addr: nat): (i: nat)
    ensures i <= |tab| && (i < |tab| ==> tab[i].addr == addr)
    ensures forall k | 0 <= k < i :: tab[k].addr != addr
  {
    if tab == [] then 0 else if tab[0].addr == addr then 0 else 1 + Find(tab[1..], addr)
  }

  /** The slot a new source gets: the first free one, else the first of those served longest ago. */
  ghost predicate IsSlot(tab: seq<Entry>, v: nat) {
    && v < |tab|
    && if Find(tab, 0) < |tab| then v == Find(tab, 0)
       else
         (forall k | 0 <= k < |tab| :: tab[v].last <= tab[k].last)
         && (forall k | 0 <= k < v :: tab[v].last < tab[k].last)
  }

  /** A request from the source of an entry: whether it is served, and the entry then. */
  function Serve(e: Entry, now: Millis): (Entry, bool) {
    var count := if now - e.last > WINDOW_MS then 0 else e.count;
    if count >= PER_SECOND then (e.(count := count), false)
    else (Entry(e.addr, now, count + 1, Wrap32(e.total + 1)), true)
  }

  /** ntp_rate_allow's step of the table. Address 0 never matches a slot. */
  ghost predicate Step(tab: seq<Entry>, addr: nat, now: Millis, v: nat, tab': seq<Entry>, served: bool) {
    var i := Find(tab, addr);
    if addr != 0 && i < |tab| then (tab', served) == (tab[i := Serve(tab[i], now).0], Serve(tab[i], now).1)
    else IsSlot(tab, v) && tab' == tab[v := Entry(addr, now, 1, 1)] && served
  }

  // ---------- the array ----------

  class Limiter {
    const slots: array<Entry>

    ghost predicate Valid() {
      slots.Length == SLOTS
    }

    constructor ()
      ensures Valid() && fresh(slots) && slots[..] == seq(SLOTS, _ => FREE)
    {
      slots := new Entry[SLOTS](_ => FREE);
      new;
      assert slots[..] == seq(SLOTS, _ => FREE);
    }

    /** ntp_rate_allow. */
    method Allow(addr: nat, now: Millis) returns (served: bool, ghost v: nat)
      requires Valid()
      modifies slots
      ensures Step(old(slots[..]), addr, now, v, slots[..], served)
    {
      ghost var tab := slots[..];
      v := 0;
      var oldest, oldestMs, free, i := 0, INT64_MAX, -1, 0;
      while i < SLOTS
        invariant 0 <= i <= SLOTS && slots[..] == tab
        invariant addr != 0 ==> forall k | 0 <= k < i :: tab[k].addr != addr
        invariant if free < 0 then forall k | 0 <= k < i :: tab[k].addr != 0
                  else free < i && tab[free].addr == 0 && forall k | 0 <= k < free :: tab[k].addr != 0
        invariant i > 0 ==> 0 <= oldest < i && oldestMs == tab[oldest].last
        invariant i == 0 ==> oldestMs == INT64_MAX
        invariant forall k | 0 <= k < i :: oldestMs <= tab[k].last
        invariant forall k | 0 <= k < oldest :: k < i && oldestMs < tab[k].last
      {
        var e := slots[i];
        if e.addr == addr && e.addr != 0 {
          FoundAt(tab, addr, i);
          served := ServeSlot(i, now);
          return;
        }
        if e.addr == 0 && free < 0 { free := i; }
        if e.last < oldestMs { oldestMs, oldest := e.last, i; }
        i := i + 1;
      }
      var slot := if free >= 0 then free else oldest;
      if free >= 0 { FoundAt(tab, 0, free); }
      v := slot;
      slots[slot] := Entry(addr, now, 1, 1);
      served := true;
      assert slots[..] == tab[v := Entry(addr, now, 1, 1)];
    }

    /** The branch for a source that is in the table. */
    method ServeSlot(i: nat, now: Millis) returns (served: bool)
      requires Valid() && i < SLOTS
      modifies slots
      ensures slots[..] == old(slots[..])[i := Serve(old(slots[i]), now).0] && served == Serve(old(slots[i]), now).1
    {
      if now - slots[i].last > WINDOW_MS {
        slots[i] := slots[i].(count := 0);
      }
      if slots[i].count >= PER_SECOND { return false; }
      slots[i] := slots[i].(count := slots[i].count + 1);
      slots[i] := slots[i].(total := Wrap32(slots[i].total + 1));
      slots[i] := slots[i].(last := now);
      return true;
    }
  }

  lemma FoundAt(tab: seq<Entry>, addr: nat, i: nat)
    requires i < |tab| && tab[i].addr == addr && forall k | 0 <= k < i :: tab[k].addr != addr
    ensures Find(tab, addr) == i
  {}

  // ---------- one source ----------

  /** The times at which a source was served since it entered the table. */
  type History = seq<Millis>

  ghost predicate Nondecreasing(h: History) {
    forall j, k | 0 <= j <= k < |h| :: h[j] <= h[k]
  }

  /** How many of the last served requests followed each other within a second. */
  function Burst(h: History): (n: nat)
    ensures n <= |h| && (h != [] ==> n > 0)
  {
    if |h| <= 1 then |h|
    else if h[|h| - 1] - h[|h| - 2] > WINDOW_MS then 1
    else Burst(h[..|h| - 1]) + 1
  }

  /** No burst was ever longer than ten. */
  predicate Limited(h: History) {
    h == [] || (Burst(h) <= 10 && Limited(h[..|h| - 1]))
  }

  /** The entry of a source: its last service, its burst, and how often it was served. */
  ghost predicate Keeps(e: Entry, h: History) {
    h != [] && e.last == h[|h| - 1] && e.count == Burst(h) && e.total == Wrap32(|h|)
    && Limited(h) && Nondecreasing(h)
  }

  /** The burst of a history reaches back over requests close to each other. */
  lemma {:induction false} BurstCovers(h: History, j: nat)
    requires j < |h| && Nondecreasing(h) && h[|h| - 1] - h[j] <= 1000
    ensures Burst(h) >= |h| - j
    decreases |h|
  {
    var n := |h| - 1;
    if j < n {
      BurstCovers(h[..n], j);
    }
  }

  /** At most ten requests are served in any second: eleven in a row take longer. */
  lemma {:induction false} ElevenTakeLonger(h: History, j: nat)
    requires Limited(h) && Nondecreasing(h) && j + 10 < |h|
    ensures h[j + 10] - h[j] > 1000
    decreases |h|
  {
    if j + 10 == |h| - 1 {
      if h[j + 10] - h[j] <= 1000 { BurstCovers(h, j); }
    } else {
      ElevenTakeLonger(h[..|h| - 1], j);
    }
  }

  lemma BurstGrows(h: History, now: Millis)
    requires h != []
    ensures Burst(h + [now]) == if now - h[|h| - 1] > 1000 then 1 else Burst(h) + 1
  {
    assert (h + [now])[..|h|] == h;
  }

  lemma WrapGrows(n: int)
    ensures Wrap32(Wrap32(n) + 1) == Wrap32(n + 1)
  {}

  lemma GrownKeeps(e: Entry, h: History, now: Millis)
    requires Keeps(e, h) && h[|h| - 1] <= now && Burst(h + [now]) <= 10
    ensures Keeps(Entry(e.addr, now, Burst(h + [now]), Wrap32(e.total + 1)), h + [now])
  {
    var h' := h + [now];
    assert h'[..|h|] == h;
    WrapGrows(|h|);
    assert Nondecreasing(h');
  }

  /** A source is refused exactly when its burst is ten long and its last service at most a second ago. */
  lemma ServedMeaning(e: Entry, h: History, now: Millis)
    requires Keeps(e, h) && h[|h| - 1] <= now
    ensures var (e', served) := Serve(e, now);
            && (served <==> now - h[|h| - 1] > 1000 || Burst(h) < 10)
            && Keeps(e', if served then h + [now] else h)
            && e'.addr == e.addr && (!served ==> e' == e)
  {
    BurstGrows(h, now);
    if now - h[|h| - 1] > 1000 || Burst(h) < 10 {
      GrownKeeps(e, h, now);
      hide Burst, Limited, Nondecreasing, Wrap32;
    } else {
      assert Serve(e, now) == (e, false);
    }
  }

  lemma FirstKeeps(addr: nat, now: Millis)
    ensures Keeps(Entry(addr, now, 1, 1), [now])
  {
    assert [now][..0] == [];
  }

  // ---------- the table ----------

  /** Resident addresses are distinct. */
  ghost predicate Distinct(tab: seq<Entry>) {
    forall j, k | 0 <= j < k < |tab| && tab[j].addr != 0 :: tab[j].addr != tab[k].addr
  }

  ghost predicate Resident(tab: seq<Entry>, addr: nat) {
    addr != 0 && exists i | 0 <= i < |tab| :: tab[i].addr == addr
  }

  /** The table keeps the history of each resident address, and nothing else. */
  ghost predicate KeepsAll(tab: seq<Entry>, hs: map<nat, History>) {
    && Distinct(tab)
    && (forall a :: a in hs <==> Resident(tab, a))
    && (forall i | 0 <= i < |tab| && tab[i].addr != 0 :: tab[i].addr in hs && Keeps(tab[i], hs[tab[i].addr]))
  }

  /** The histories after a request: served, refused, or new in the place of what slot v held. */
  function Recorded(tab: seq<Entry>, hs: map<nat, History>, addr: nat, now: Millis, v: nat,
                    served: bool): map<nat, History>
    requires v < |tab|
  {
    if addr in hs then (if served then hs[addr := hs[addr] + [now]] else hs)
    else
      var rest := hs - {tab[v].addr};
      if addr != 0 then rest[addr := [now]] else rest
  }

  ghost predicate Before(hs: map<nat, History>, now: int) {
    forall a | a in hs && hs[a] != [] :: hs[a][|hs[a]| - 1] <= now
  }

  lemma FindMeaning(tab: seq<Entry>, addr: nat)
    requires addr != 0
    ensures Find(tab, addr) < |tab| <==> Resident(tab, addr)
  {}

  lemma ServedKeepsAll(tab: seq<Entry>, hs: map<nat, History>, i: nat, e: Entry, h: History)
    requires KeepsAll(tab, hs) && i < |tab| && e.addr == tab[i].addr != 0 && Keeps(e, h)
    ensures KeepsAll(tab[i := e], hs[e.addr := h])
  {
    var tab', hs' := tab[i := e], hs[e.addr := h];
    assert forall k | 0 <= k < |tab| :: tab'[k].addr == tab[k].addr;
    forall a ensures a in hs' <==> Resident(tab', a) {
      if Resident(tab, a) {
        var k :| 0 <= k < |tab| && tab[k].addr == a;
        assert tab'[k].addr == a;
      }
      if Resident(tab', a) {
        var k :| 0 <= k < |tab'| && tab'[k].addr == a;
        assert tab[k].addr == a;
      }
    }
    forall k | 0 <= k < |tab'| && tab'[k].addr != 0 ensures tab'[k].addr in hs' && Keeps(tab'[k], hs'[tab'[k].addr]) {
      if k < i { assert tab[k].addr != tab[i].addr; } else if k > i { assert tab[i].addr != tab[k].addr; }
    }
  }

  lemma NewKeepsAll(tab: seq<Entry>, hs: map<nat, History>, v: nat, addr: nat, now: Millis)
    requires KeepsAll(tab, hs) && v < |tab| && !Resident(tab, addr)
    ensures KeepsAll(tab[v := Entry(addr, now, 1, 1)], Recorded(tab, hs, addr, now, v, true))
  {
    var tab', hs' := tab[v := Entry(addr, now, 1, 1)], Recorded(tab, hs, addr, now, v, true);
    FirstKeeps(addr, now);
    forall a ensures a in hs' <==> Resident(tab', a) {
      if Resident(tab, a) && a != tab[v].addr {
        var k :| 0 <= k < |tab| && tab[k].addr == a;
        assert tab'[k].addr == a;
      }
      if Resident(tab', a) {
        var k :| 0 <= k < |tab'| && tab'[k].addr == a;
        if k < v {
          assert tab[k].addr != tab[v].addr;
        } else if k > v {
          assert tab[v].addr != tab[k].addr || tab[v].addr == 0;
        }
      }
      assert tab'[v].addr == addr;
    }
    forall k | 0 <= k < |tab'| && tab'[k].addr != 0 ensures tab'[k].addr in hs' && Keeps(tab'[k], hs'[tab'[k].addr]) {
      if k < v { assert tab[k].addr != tab[v].addr; }
      else if k > v { assert tab[v].addr != 0 ==> tab[v].addr != tab[k].addr; }
    }
  }

  /** What a request is answered, as seen from the histories: a resident source is refused exactly when its last ten
      services came within a second of each other and of now; everyone else is served. */
  ghost predicate Answered(hs: map<nat, History>, addr: nat, now: Millis, served: bool) {
    if addr in hs && hs[addr] != [] then
      served <==> now - hs[addr][|hs[addr]| - 1] > 1000 || Burst(hs[addr]) < 10
    else served
  }

  /** A request keeps every history, is answered from them, and displaces only when no slot is free, the source served
      longest ago. */
  lemma StepKeeps(tab: seq<Entry>, hs: map<nat, History>, addr: nat, now: Millis, v: nat, tab': seq<Entry>,
                  served: bool)
    requires KeepsAll(tab, hs) && Before(hs, now) && Step(tab, addr, now, v, tab', served) && v < |tab|
    ensures KeepsAll(tab', Recorded(tab, hs, addr, now, v, served)) && |tab'| == |tab|
    ensures Before(Recorded(tab, hs, addr, now, v, served), now)
    ensures Answered(hs, addr, now, served)
  {
    if addr != 0 { FindMeaning(tab, addr); }
    if addr in hs {
      var i := Find(tab, addr);
      ServedMeaning(tab[i], hs[addr], now);
      if served {
        ServedKeepsAll(tab, hs, i, Serve(tab[i], now).0, hs[addr] + [now]);
      } else {
        assert tab' == tab;
      }
    } else {
      NewKeepsAll(tab, hs, v, addr, now);
    }
  }

  /** The source that loses its slot was served no later than any other, and all the slots were taken. */
  lemma DisplacesOldest(tab: seq<Entry>, hs: map<nat, History>, v: nat, a: nat)
    requires KeepsAll(tab, hs) && IsSlot(tab, v) && tab[v].addr != 0 && a in hs
    ensures Find(tab, 0) == |tab|
    ensures var b := tab[v].addr; b in hs && hs[b] != [] && hs[a] != [] && hs[b][|hs[b]| - 1] <= hs[a][|hs[a]| - 1]
  {
    var i :| 0 <= i < |tab| && tab[i].addr == a;
    assert Keeps(tab[i], hs[a]) && Keeps(tab[v], hs[tab[v].addr]);
    assert tab[v].last <= tab[i].last;
  }

  // ---------- runs ----------

  datatype Request = Request(addr: nat, now: Millis)

  datatype Trace = Trace(tab: seq<Entry>, hs: map<nat, History>)

  ghost predicate Turn(s: Trace, r: Request, served: bool, s': Trace) {
    exists v: nat :: TurnAt(s, r, v, served, s')
  }

  ghost predicate TurnAt(s: Trace, r: Request, v: nat, served: bool, s': Trace) {
    && v < |s.tab| && Step(s.tab, r.addr, r.now, v, s'.tab, served)
    && s'.hs == Recorded(s.tab, s.hs, r.addr, r.now, v, served)
  }

  ghost predicate Run(rs: seq<Request>, answers: seq<bool>, ss: seq<Trace>) {
    && |answers| == |rs| && |ss| == |rs| + 1 && ss[0] == Trace(seq(SLOTS, _ => FREE), map[])
    && (forall k | 0 <= k < |rs| :: Turn(ss[k], rs[k], answers[k], ss[k + 1]))
    && (forall j, k | 0 <= j <= k < |rs| :: rs[j].now <= rs[k].now)
  }

  lemma {:induction false} RunKeeps(rs: seq<Request>, answers: seq<bool>, ss: seq<Trace>, k: nat)
    requires Run(rs, answers, ss) && k <= |rs|
    ensures KeepsAll(ss[k].tab, ss[k].hs) && |ss[k].tab| == SLOTS
    ensures forall now: int | k == 0 || rs[k - 1].now <= now :: Before(ss[k].hs, now)
    decreases k
  {
    if k > 0 {
      var r := rs[k - 1];
      RunKeeps(rs, answers, ss, k - 1);
      assert Turn(ss[k - 1], r, answers[k - 1], ss[k]);
      var v: nat :| TurnAt(ss[k - 1], r, v, answers[k - 1], ss[k]);
      StepKeeps(ss[k - 1].tab, ss[k - 1].hs, r.addr, r.now, v, ss[k].tab, answers[k - 1]);
    }
  }

  /** Over every run: resident addresses are distinct, every request is answered from the histories, and of no resident
      source were more than ten requests served in any second. */
  lemma RateHoldsOverRuns(rs: seq<Request>, answers: seq<bool>, ss: seq<Trace>, k: nat)
    requires Run(rs, answers, ss) && k < |rs|
    ensures Distinct(ss[k].tab) && Answered(ss[k].hs, rs[k].addr, rs[k].now, answers[k])
    ensures forall a, j: nat | a in ss[k].hs && j + 10 < |ss[k].hs[a]| ::
              ss[k].hs[a][j + 10] as int - ss[k].hs[a][j] > 1000
  {
    RunKeeps(rs, answers, ss, k);
    var r, s := rs[k], ss[k];
    assert Turn(s, r, answers[k], ss[k + 1]);
    var v: nat :| TurnAt(s, r, v, answers[k], ss[k + 1]);
    StepKeeps(s.tab, s.hs, r.addr, r.now, v, ss[k + 1].tab, answers[k]);
    forall a, j: nat | a in s.hs && j + 10 < |s.hs[a]|
      ensures s.hs[a][j + 10] - s.hs[a][j] > 1000
    {
      var i :| 0 <= i < |s.tab| && s.tab[i].addr == a;
      assert Keeps(s.tab[i], s.hs[a]);
      ElevenTakeLonger(s.hs[a], j);
    }
  }

  // ---------- a source that keeps a steady pace ----------

  function Steady(t0: nat, gap: nat, k: nat): (h: History)
    requires t0 + k * gap < INT64_MAX
    ensures |h| == k
  {
    if k == 0 then [] else (Earlier(t0, gap, k); Steady(t0, gap, k - 1) + [t0 + (k - 1) * gap])
  }

  lemma Earlier(t0: nat, gap: nat, k: nat)
    requires k > 0 && t0 + k * gap < INT64_MAX
    ensures 0 <= t0 + (k - 1) * gap < INT64_MAX && t0 + k * gap == t0 + (k - 1) * gap + gap
  {}

  lemma {:induction false} SteadyBurst(t0: nat, gap: nat, k: nat)
    requires k > 0 && t0 + k * gap < INT64_MAX
    ensures Burst(Steady(t0, gap, k)) == if gap > 1000 then 1 else k
    ensures Steady(t0, gap, k)[k - 1] == t0 + (k - 1) * gap
  {
    Earlier(t0, gap, k);
    if k > 1 {
      Earlier(t0, gap, k - 1);
      SteadyBurst(t0, gap, k - 1);
      BurstGrows(Steady(t0, gap, k - 1), t0 + (k - 1) * gap);
    }
  }

  /** The n requests of the run come from one source, `gap` milliseconds apart. */
  ghost predicate Paced(rs: seq<Request>, a: nat, t0: nat, gap: nat) {
    a != 0 && t0 + |rs| * gap < INT64_MAX && forall k | 0 <= k < |rs| :: rs[k].addr == a && rs[k].now == t0 + k * gap
  }

  lemma InRange(t0: nat, gap: nat, k: nat, n: nat)
    requires k <= n && t0 + n * gap < INT64_MAX
    ensures t0 + k * gap < INT64_MAX
  {
    assert n * gap == k * gap + (n - k) * gap;
  }

  ghost predicate Served(s: Trace, a: nat, t0: nat, gap: nat, k: nat)
    requires t0 + k * gap < INT64_MAX
  {
    s.hs == if k == 0 then map[] else map[a := Steady(t0, gap, k)]
  }

  lemma PacedAnswer(hs: map<nat, History>, a: nat, h: History, now: Millis, served: bool)
    requires Answered(hs, a, now, served) && hs == if h == [] then map[] else map[a := h]
    ensures h == [] ==> served
    ensures h != [] ==> (served <==> now - h[|h| - 1] > 1000 || Burst(h) < 10)
  {}

  lemma PacedRecord(tab: seq<Entry>, hs: map<nat, History>, a: nat, h: History, now: Millis, v: nat)
    requires v < |tab| && a != 0 && hs == if h == [] then map[] else map[a := h]
    ensures Recorded(tab, hs, a, now, v, true) == map[a := h + [now]]
  {
    if h == [] {
      assert hs - {tab[v].addr} == map[];
      assert h + [now] == [now];
    }
  }

  lemma PacedTurn(rs: seq<Request>, answers: seq<bool>, ss: seq<Trace>, a: nat, t0: nat, gap: nat, k: nat)
    requires Run(rs, answers, ss) && Paced(rs, a, t0, gap) && k < |rs|
    requires t0 + k * gap < INT64_MAX && t0 + (k + 1) * gap < INT64_MAX && Served(ss[k], a, t0, gap, k)
    ensures answers[k] <==> gap > 1000 || k < 10
    ensures answers[k] ==> Served(ss[k + 1], a, t0, gap, k + 1)
  {
    RateHoldsOverRuns(rs, answers, ss, k);
    var v := TurnOf(rs, answers, ss, k);
    hide Run, Step, Recorded, Answered, Steady, Burst, Distinct;
    var h, now := Steady(t0, gap, k), rs[k].now;
    if k > 0 {
      SteadyBurst(t0, gap, k);
      Earlier(t0, gap, k);
    }
    SteadyGrows(t0, gap, k);
    PacedAnswer(ss[k].hs, a, h, now, answers[k]);
    PacedRecord(ss[k].tab, ss[k].hs, a, h, now, v);
  }

  lemma SteadyGrows(t0: nat, gap: nat, k: nat)
    requires t0 + k * gap < INT64_MAX && t0 + (k + 1) * gap < INT64_MAX
    ensures Steady(t0, gap, k + 1) == Steady(t0, gap, k) + [t0 + k * gap]
  {}

  lemma TurnOf(rs: seq<Request>, answers: seq<bool>, ss: seq<Trace>, k: nat) returns (v: nat)
    requires Run(rs, answers, ss) && k < |rs|
    ensures v < |ss[k].tab| && ss[k + 1].hs == Recorded(ss[k].tab, ss[k].hs, rs[k].addr, rs[k].now, v, answers[k])
  {
    assert Turn(ss[k], rs[k], answers[k], ss[k + 1]);
    v :| TurnAt(ss[k], rs[k], v, answers[k], ss[k + 1]);
  }

  lemma {:induction false} PacedSoFar(rs: seq<Request>, answers: seq<bool>, ss: seq<Trace>, a: nat, t0: nat, gap: nat,
                                      k: nat)
    requires Run(rs, answers, ss) && Paced(rs, a, t0, gap) && k <= |rs| && (gap > 1000 || k <= 10)
    ensures t0 + k * gap < INT64_MAX && Served(ss[k], a, t0, gap, k)
    ensures forall j | 0 <= j < k :: answers[j]
    decreases k
  {
    InRange(t0, gap, k, |rs|);
    if k > 0 {
      PacedSoFar(rs, answers, ss, a, t0, gap, k - 1);
      PacedTurn(rs, answers, ss, a, t0, gap, k - 1);
    }
  }

  /** A source at a steady pace is served every time if and only if it leaves more than a second between requests or
      stops at ten, however far below ten a second it stays: it is bursts that are limited, not the rate. */
  lemma SteadySourceServedExactlyWhenSlow(rs: seq<Request>, answers: seq<bool>, ss: seq<Trace>, a: nat, t0: nat,
                                          gap: nat)
    requires Run(rs, answers, ss) && Paced(rs, a, t0, gap)
    ensures (forall k | 0 <= k < |rs| :: answers[k]) <==> gap > 1000 || |rs| <= 10
  {
    if gap > 1000 || |rs| <= 10 {
      PacedSoFar(rs, answers, ss, a, t0, gap, |rs|);
    } else {
      PacedSoFar(rs, answers, ss, a, t0, gap, 10);
      InRange(t0, gap, 11, |rs|);
      PacedTurn(rs, answers, ss, a, t0, gap, 10);
      assert !answers[10];
    }
  }
}
