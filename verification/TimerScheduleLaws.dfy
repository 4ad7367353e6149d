/** What the sweeps of one slot amount to between two edits (main/timers.c:612-644, 778-820). */
module TimerScheduleLaws {
  import opened Bytes
  import opened TimerText
  import opened TimerSchedule

  /** The local minute t belongs to, counted from the epoch. */
  function MinuteOf(z: Zone, t: int): int {
    (t + z.offset) / 60
  }

  predicate WholeMinutes(z: Zone) {
    z.offset % 60 == 0
  }

  /** The minute a slot means on a local day, out of the day when the jitter pushes it past midnight. */
  function Target(i: nat, timer: Timer, z: Zone, day: int): int
    requires i < SLOT_COUNT && 0 <= z.yday(day) < 366
  {
    timer.minute + Jitter(i, z.yday(day), timer.window)
  }

  /** The slot should fire at t: armed, a day of the mask, and its minute. */
  predicate Due(i: nat, timer: Timer, z: Zone, t: int)
    requires i < SLOT_COUNT && 0 <= z.yday(LocalDay(z, t)) < 366
  {
    timer.arm && OnLocalDay(timer.days, LocalDay(z, t)) && LocalMinute(z, t) == Target(i, timer, z, LocalDay(z, t))
  }

  // ---------- one sweep ----------

  /** The cached jitter is the jitter of the cached day. */
  predicate Coherent(i: nat, s: Slot)
    requires i < SLOT_COUNT
  {
    s.jitterDay == -1 || (0 <= s.jitterDay < 366 && s.jitter == Jitter(i, s.jitterDay, s.timer.window))
  }

  lemma EmptyMaskHasNoDay(day: int)
    ensures !OnLocalDay(0, day)
  {}

  /** A sweep fires a slot exactly when it is due and has not fired in this UTC minute; the cache never shows. */
  lemma SweepMeaning(i: nat, s: Slot, t: int, z: Zone)
    requires i < SLOT_COUNT && z.Valid() && Coherent(i, s)
    ensures var (s', fired) := SweepSlot(i, s, t, z);
            && (fired <==> Due(i, s.timer, z, t) && s.lastFire != t / 60)
            && s'.lastFire == (if fired then t / 60 else s.lastFire)
            && s'.timer == (if fired && !s.timer.repeat then s.timer.(arm := false) else s.timer)
            && Coherent(i, s')
  {
    EmptyMaskHasNoDay(LocalDay(z, t));
    var yday := z.yday(LocalDay(z, t));
    assert 0 <= yday < 366;
  }

  // ---------- runs of sweeps ----------

  /** Whether the slot fires in each of the sweeps at the given times. */
  function Fires(i: nat, s: Slot, times: seq<int>, z: Zone): (f: seq<bool>)
    requires i < SLOT_COUNT && forall d: int :: 0 <= z.yday(d) < 366
    ensures |f| == |times|
    decreases |times|
  {
    if times == [] then []
    else
      var (s', fired) := SweepSlot(i, s, times[0], z);
      [fired] + Fires(i, s', times[1..], z)
  }

  ghost predicate Nondecreasing(times: seq<int>) {
    forall j, k | 0 <= j <= k < |times| :: times[j] <= times[k]
  }

  /** The clock has been set: the scheduler sweeps at no other time. */
  ghost predicate ClockSet(times: seq<int>) {
    forall j | 0 <= j < |times| :: times[j] >= MIN_VALID
  }

  /** A run of the scheduler between two edits of a slot. */
  ghost predicate Sweeps(i: nat, z: Zone, times: seq<int>) {
    i < SLOT_COUNT && z.Valid() && Nondecreasing(times) && ClockSet(times)
  }

  lemma SweepsTail(i: nat, z: Zone, times: seq<int>)
    requires Sweeps(i, z, times) && times != []
    ensures Sweeps(i, z, times[1..])
  {}

  // ---------- only when due ----------

  /** Whenever the slot fires it is due. */
  lemma {:induction false} FiresOnlyWhenDue(i: nat, s: Slot, times: seq<int>, z: Zone, k: nat)
    requires Sweeps(i, z, times) && Coherent(i, s) && k < |times| && Fires(i, s, times, z)[k]
    ensures Due(i, s.timer, z, times[k])
    decreases k
  {
    SweepMeaning(i, s, times[0], z);
    var (s', fired) := SweepSlot(i, s, times[0], z);
    if k > 0 {
      SweepsTail(i, z, times);
      FiresOnlyWhenDue(i, s', times[1..], z, k - 1);
    }
  }

  /** Between edits a slot fires only on a day of its mask and within its window of its minute. */
  lemma FiresWithinItsWindow(i: nat, timer: Timer, times: seq<int>, z: Zone, k: nat)
    requires Sweeps(i, z, times) && k < |times| && Fires(i, Edited(timer), times, z)[k]
    ensures timer.arm && OnLocalDay(timer.days, LocalDay(z, times[k]))
    ensures timer.minute - timer.window <= LocalMinute(z, times[k]) <= timer.minute + timer.window
  {
    FiresOnlyWhenDue(i, Edited(timer), times, z, k);
  }

  // ---------- whenever due ----------

  /** A repeating slot that is due has fired in that UTC minute. */
  lemma {:induction false} DueHasFired(i: nat, s: Slot, times: seq<int>, z: Zone, k: nat) returns (j: nat)
    requires Sweeps(i, z, times) && Coherent(i, s) && s.timer.repeat
    requires k < |times| && Due(i, s.timer, z, times[k]) && s.lastFire == 0
    ensures j <= k && Fires(i, s, times, z)[j] && times[j] / 60 == times[k] / 60
  {
    j := FiredOrMarked(i, s, times, z, k);
    assert times[k] / 60 != 0;
  }

  lemma {:induction false} FiredOrMarked(i: nat, s: Slot, times: seq<int>, z: Zone, k: nat) returns (j: nat)
    requires Sweeps(i, z, times) && Coherent(i, s) && s.timer.repeat
    requires k < |times| && Due(i, s.timer, z, times[k])
    ensures j <= k
    ensures (Fires(i, s, times, z)[j] && times[j] / 60 == times[k] / 60) || s.lastFire == times[k] / 60
    decreases k
  {
    SweepMeaning(i, s, times[0], z);
    var (s', fired) := SweepSlot(i, s, times[0], z);
    j := 0;
    if k > 0 {
      SweepsTail(i, z, times);
      var j' := FiredOrMarked(i, s', times[1..], z, k - 1);
      if Fires(i, s', times[1..], z)[j'] && times[1..][j'] / 60 == times[1..][k - 1] / 60 {
        j := j' + 1;
      }
    }
  }

  // ---------- one-shot timers ----------

  lemma {:induction false} DisarmedStaysSilent(i: nat, s: Slot, times: seq<int>, z: Zone, k: nat)
    requires Sweeps(i, z, times) && Coherent(i, s) && !s.timer.arm && k < |times|
    ensures !Fires(i, s, times, z)[k]
    decreases k
  {
    SweepMeaning(i, s, times[0], z);
    if k > 0 {
      SweepsTail(i, z, times);
      DisarmedStaysSilent(i, SweepSlot(i, s, times[0], z).0, times[1..], z, k - 1);
    }
  }

  ghost predicate NotDueBefore(i: nat, timer: Timer, z: Zone, times: seq<int>, k: nat)
    requires i < SLOT_COUNT && z.Valid() && k <= |times|
  {
    forall j | 0 <= j < k :: !Due(i, timer, z, times[j])
  }

  /** A one-shot timer fires exactly at the first sweep at which it is due, so at most once ever. */
  lemma {:induction false} OneShotFiresOnce(i: nat, s: Slot, times: seq<int>, z: Zone, k: nat)
    requires Sweeps(i, z, times) && Coherent(i, s) && !s.timer.repeat && s.lastFire == 0 && k < |times|
    ensures Fires(i, s, times, z)[k] <==> Due(i, s.timer, z, times[k]) && NotDueBefore(i, s.timer, z, times, k)
    decreases k
  {
    hide Jitter;
    SweepMeaning(i, s, times[0], z);
    var (s', fired) := SweepSlot(i, s, times[0], z);
    assert times[0] / 60 != 0;
    if k > 0 {
      SweepsTail(i, z, times);
      var rest := times[1..];
      if fired {
        DisarmedStaysSilent(i, s', rest, z, k - 1);
      } else {
        OneShotFiresOnce(i, s', rest, z, k - 1);
        assert forall j | 0 <= j < k - 1 :: rest[j] == times[j + 1];
        assert NotDueBefore(i, s.timer, z, times, k) <==> NotDueBefore(i, s.timer, z, rest, k - 1) by {
          if NotDueBefore(i, s.timer, z, rest, k - 1) {
            forall j | 0 <= j < k ensures !Due(i, s.timer, z, times[j]) {
              if j > 0 { assert times[j] == rest[j - 1]; }
            }
          }
        }
      }
    }
  }

  // ---------- at most once a day ----------

  lemma MinuteAndDay(x: int)
    ensures x / 60 == 1440 * (x / DAY) + x % DAY / 60
  {}

  /** Whole minutes carry over to the minute of UTC. */
  lemma Shift(t: int, k: int)
    ensures (t + 60 * k) / 60 == t / 60 + k && (t + 60 * k) % 60 == t % 60
  {}

  lemma UtcMinute(z: Zone, t: int)
    requires WholeMinutes(z)
    ensures t / 60 == 1440 * LocalDay(z, t) + LocalMinute(z, t) - z.offset / 60
    ensures t % 60 == (t + z.offset) % 60
  {
    MinuteAndDay(t + z.offset);
    var k := z.offset / 60;
    assert z.offset == 60 * k;
    Shift(t, k);
  }

  /** The same minute of the same local day is the same minute of UTC. */
  lemma SameLocalMinute(z: Zone, t: int, u: int)
    requires WholeMinutes(z) && LocalDay(z, t) == LocalDay(z, u) && LocalMinute(z, t) == LocalMinute(z, u)
    ensures t / 60 == u / 60
  {
    hide LocalDay, LocalMinute;
    UtcMinute(z, t);
    UtcMinute(z, u);
  }

  lemma SameUtcMinute(z: Zone, t: int, u: int)
    requires WholeMinutes(z) && t / 60 == u / 60
    ensures LocalDay(z, t) == LocalDay(z, u)
  {
    hide LocalDay, LocalMinute;
    UtcMinute(z, t);
    UtcMinute(z, u);
  }

  ghost predicate SilentOn(fires: seq<bool>, times: seq<int>, z: Zone, day: int) {
    |fires| == |times| && forall k | 0 <= k < |times| && fires[k] :: LocalDay(z, times[k]) != day
  }

  /** After a fire the slot is silent for the rest of the local day. */
  lemma {:induction false} SilentAfterFire(i: nat, s: Slot, last: int, times: seq<int>, z: Zone)
    requires Sweeps(i, z, [last] + times) && Sweeps(i, z, times) && Coherent(i, s) && WholeMinutes(z)
    requires s.lastFire == last / 60 && LocalMinute(z, last) == Target(i, s.timer, z, LocalDay(z, last))
    ensures SilentOn(Fires(i, s, times, z), times, z, LocalDay(z, last))
    decreases |times|
  {
    if times == [] { return; }
    var t, day, rest := times[0], LocalDay(z, last), times[1..];
    assert ([last] + times)[0] == last && ([last] + times)[1] == t;
    assert last <= t;
    DaysAdvance(z, last, t);
    SweepMeaning(i, s, t, z);
    SweepsTail(i, z, times);
    var (s', fired) := SweepSlot(i, s, t, z);
    if LocalDay(z, t) == day {
      if fired { SameLocalMinute(z, last, t); }
      LastStaysFirst(last, times);
      SilentAfterFire(i, s', last, rest, z);
    } else {
      LaterDaysOnly(i, z, times, day);
    }
    forall k | 0 <= k < |times| && Fires(i, s, times, z)[k] ensures LocalDay(z, times[k]) != day {
      if k > 0 { assert times[k] == rest[k - 1] && Fires(i, s, times, z)[k] == Fires(i, s', rest, z)[k - 1]; }
    }
  }

  lemma LastStaysFirst(last: int, times: seq<int>)
    requires times != [] && Nondecreasing([last] + times) && ClockSet([last] + times)
    ensures Nondecreasing([last] + times[1..]) && ClockSet([last] + times[1..])
  {
    var all, few := [last] + times, [last] + times[1..];
    assert forall j | 0 <= j < |few| :: few[j] == if j == 0 then all[0] else all[j + 1];
  }

  lemma LaterDaysOnly(i: nat, z: Zone, times: seq<int>, day: int)
    requires Sweeps(i, z, times) && times != [] && LocalDay(z, times[0]) > day
    ensures forall k | 0 <= k < |times| :: LocalDay(z, times[k]) > day
  {
    forall k | 0 <= k < |times| ensures LocalDay(z, times[k]) > day {
      DaysAdvance(z, times[0], times[k]);
    }
  }

  ghost predicate OncePerDay(fires: seq<bool>, times: seq<int>, z: Zone) {
    |fires| == |times|
    && forall j, k | 0 <= j < k < |times| && fires[j] && fires[k] :: LocalDay(z, times[j]) != LocalDay(z, times[k])
  }

  /** In a zone of whole minutes a slot fires at most once per local day. */
  lemma {:induction false} FiresOncePerDay(i: nat, s: Slot, times: seq<int>, z: Zone)
    requires Sweeps(i, z, times) && Coherent(i, s) && WholeMinutes(z)
    ensures OncePerDay(Fires(i, s, times, z), times, z)
    decreases |times|
  {
    if times == [] { return; }
    var (s', fired) := SweepSlot(i, s, times[0], z);
    var rest := times[1..];
    SweepMeaning(i, s, times[0], z);
    SweepsTail(i, z, times);
    FiresOncePerDay(i, s', rest, z);
    if fired {
      assert [times[0]] + rest == times;
      SilentAfterFire(i, s', times[0], rest, z);
    }
    var f, g := Fires(i, s, times, z), Fires(i, s', rest, z);
    assert f == [fired] + g;
    forall j, k | 0 <= j < k < |times| && f[j] && f[k] ensures LocalDay(z, times[j]) != LocalDay(z, times[k]) {
      assert f[k] == g[k - 1] && times[k] == rest[k - 1];
      if j > 0 { assert f[j] == g[j - 1] && times[j] == rest[j - 1]; }
    }
  }

  /** Every slot, timer and run of sweeps in this zone fires at most once per local day. */
  ghost predicate DedupHolds(z: Zone) {
    forall i: nat, timer: Timer, times: seq<int> | Sweeps(i, z, times) ::
      OncePerDay(Fires(i, Edited(timer), times, z), times, z)
  }

  /** The last second of a UTC minute and the first of the next lie in one local minute. */
  lemma OneLocalMinute(z: Zone, u: int)
    requires z.Valid() && !WholeMinutes(z) && u % 60 == 0
    ensures LocalDay(z, u - 1) == LocalDay(z, u) && LocalMinute(z, u - 1) == LocalMinute(z, u)
    ensures (u - 1) / 60 != u / 60
  {
    assert (u + z.offset) % 60 != 0;
    assert MinuteOf(z, u - 1) == MinuteOf(z, u);
    MinuteAndDay(u - 1 + z.offset);
    MinuteAndDay(u + z.offset);
  }

  lemma FiresTwice(i: nat, s: Slot, t: int, u: int, z: Zone)
    requires i < SLOT_COUNT && z.Valid() && Coherent(i, s) && s.timer.repeat && s.lastFire != t / 60 && t / 60 != u / 60
    requires Due(i, s.timer, z, t) && Due(i, s.timer, z, u)
    ensures Fires(i, s, [t, u], z) == [true, true]
  {
    SweepMeaning(i, s, t, z);
    var (s', fired) := SweepSlot(i, s, t, z);
    SweepMeaning(i, s', u, z);
    assert [t, u][1..] == [u];
    var (s'', fired') := SweepSlot(i, s', u, z);
    assert Fires(i, s', [u], z) == [true] + Fires(i, s'', [], z);
  }

  /** One slot, a second before and at the start of a UTC minute that lies inside a local minute. */
  lemma TwoFiresInOneLocalMinute(z: Zone)
    requires z.Valid() && !WholeMinutes(z)
    ensures !DedupHolds(z)
  {
    var u := 60 * 30_000_000;
    OneLocalMinute(z, u);
    var timer := EMPTY.(arm := true, repeat := true, days := 0x7F, minute := LocalMinute(z, u), topic := "a");
    var s, times := Edited(timer), [u - 1, u];
    EveryDayIsOn(LocalDay(z, u));
    FiresTwice(0, s, u - 1, u, z);
    var f := Fires(0, s, times, z);
    assert f[0] && f[1] && LocalDay(z, times[0]) == LocalDay(z, times[1]);
    assert Sweeps(0, z, times);
  }

  lemma EveryDayIsOn(day: int)
    ensures OnLocalDay(0x7F, day)
  {}

  /** The guard against firing twice works exactly in the zones that are whole minutes from UTC. */
  lemma DedupHoldsExactlyForWholeMinutes(z: Zone)
    requires z.Valid()
    ensures DedupHolds(z) <==> WholeMinutes(z)
  {
    if WholeMinutes(z) {
      forall i: nat, timer: Timer, times: seq<int> | Sweeps(i, z, times)
        ensures OncePerDay(Fires(i, Edited(timer), times, z), times, z)
      {
        FiresOncePerDay(i, Edited(timer), times, z);
      }
    } else {
      TwoFiresInOneLocalMinute(z);
    }
  }

  /** The sweeps of a day at which the slot fires, and at which it is due. */
  ghost predicate FiresOn(fires: seq<bool>, times: seq<int>, z: Zone, day: int)
    requires |fires| == |times|
  {
    exists k | 0 <= k < |times| :: fires[k] && LocalDay(z, times[k]) == day
  }

  ghost predicate DueOn(i: nat, timer: Timer, times: seq<int>, z: Zone, day: int)
    requires i < SLOT_COUNT && z.Valid()
  {
    exists k | 0 <= k < |times| :: Due(i, timer, z, times[k]) && LocalDay(z, times[k]) == day
  }

  /** A repeating timer fires once on each local day that has a sweep at which it is due, and on no other day. */
  lemma RepeatingFiresOnceOnEachDueDay(i: nat, timer: Timer, times: seq<int>, z: Zone, day: int)
    requires Sweeps(i, z, times) && WholeMinutes(z) && timer.repeat
    ensures OncePerDay(Fires(i, Edited(timer), times, z), times, z)
    ensures FiresOn(Fires(i, Edited(timer), times, z), times, z, day) <==> DueOn(i, timer, times, z, day)
  {
    var s := Edited(timer);
    var f := Fires(i, s, times, z);
    FiresOncePerDay(i, s, times, z);
    if DueOn(i, timer, times, z, day) {
      var k :| 0 <= k < |times| && Due(i, timer, z, times[k]) && LocalDay(z, times[k]) == day;
      var j := DueHasFired(i, s, times, z, k);
      SameUtcMinute(z, times[j], times[k]);
      assert f[j] && LocalDay(z, times[j]) == day;
    }
    if FiresOn(f, times, z, day) {
      var k :| 0 <= k < |times| && f[k] && LocalDay(z, times[k]) == day;
      FiresOnlyWhenDue(i, s, times, z, k);
    }
  }

  // ---------- no day is missed ----------

  /** The clock moves forward by at most a minute from sweep to sweep: what the guard against jumps lets through. */
  ghost predicate Steady(times: seq<int>) {
    forall k | 0 < k < |times| :: 0 <= times[k] - times[k - 1] <= 60
  }

  /** A steady clock visits every minute between its first and its last sweep. */
  lemma {:induction false} SteadyVisitsEveryMinute(times: seq<int>, start: int) returns (k: nat)
    requires Steady(times) && times != [] && times[0] <= start <= times[|times| - 1]
    ensures k < |times| && start <= times[k] < start + 60
    decreases |times|
  {
    var last := |times| - 1;
    if times[last] < start + 60 {
      k := last;
    } else {
      k := SteadyVisitsEveryMinute(times[..last], start);
    }
  }

  lemma InsideTheMinute(x: int, day: int, minute: int, e: int)
    requires x == day * DAY + 60 * minute + e && 0 <= minute <= 1439 && 0 <= e < 60
    ensures x / DAY == day && x % DAY / 60 == minute
  {}

  /** On a day of its mask whose target minute is within the run of a steady clock a repeating timer fires, once. */
  lemma SteadyClockMissesNoDay(i: nat, timer: Timer, times: seq<int>, z: Zone, day: int)
    requires Sweeps(i, z, times) && WholeMinutes(z) && Steady(times) && times != []
    requires timer.arm && timer.repeat && OnLocalDay(timer.days, day) && 0 <= Target(i, timer, z, day) <= 1439
    requires times[0] + z.offset <= day * DAY + 60 * Target(i, timer, z, day) <= times[|times| - 1] + z.offset
    ensures FiresOn(Fires(i, Edited(timer), times, z), times, z, day)
    ensures OncePerDay(Fires(i, Edited(timer), times, z), times, z)
  {
    var target := Target(i, timer, z, day);
    var start := day * DAY + 60 * target - z.offset;
    var k := SteadyVisitsEveryMinute(times, start);
    InsideTheMinute(times[k] + z.offset, day, target, times[k] - start);
    assert Due(i, timer, z, times[k]) && LocalDay(z, times[k]) == day;
    RepeatingFiresOnceOnEachDueDay(i, timer, times, z, day);
  }

  // ---------- the predictor ----------

  lemma MinuteParts(x: int)
    ensures x == DAY * (x / DAY) + 60 * (x % DAY / 60) + x % 60
  {
    MinuteAndDay(x);
  }

  lemma DayParts(y: int, d: int, r: int)
    requires y == DAY * d + r && 0 <= r < DAY
    ensures y / DAY == d && y % DAY == r
  {}

  lemma StartOfMinute(x: int)
    ensures (x - x % 60) % DAY == 60 * (x % DAY / 60)
    ensures (x - x % 60) / DAY == x / DAY
  {
    MinuteParts(x);
    DayParts(x - x % 60, x / DAY, 60 * (x % DAY / 60));
  }

  lemma DueBeginsItsMinute(i: nat, timer: Timer, z: Zone, t: int)
    requires i < SLOT_COUNT && z.Valid() && timer.window == 0 && timer.minute <= 1439 && Due(i, timer, z, t)
    ensures Begins(timer, z, t - (t + z.offset) % 60)
  {
    StartOfMinute(t + z.offset);
  }

  lemma BeginsAfter(z: Zone, now: int, t: int)
    requires now < t && MinuteOf(z, t) != MinuteOf(z, now)
    ensures t - (t + z.offset) % 60 > now
  {}

  lemma BeginningIsDue(i: nat, timer: Timer, z: Zone, t: int)
    requires i < SLOT_COUNT && z.Valid() && timer.window == 0 && timer.arm && Begins(timer, z, t)
    ensures Due(i, timer, z, t)
  {}

  /** Without jitter the predicted second is due, and no second before it in a later minute than now is. */
  lemma PredictionIsFirstDue(i: nat, timer: Timer, z: Zone, now: int, r: int)
    requires i < SLOT_COUNT && z.Valid() && timer.window == 0 && timer.arm && timer.minute <= 1439
    requires r > now && Begins(timer, z, r) && NoneBetween(timer, z, now, r)
    ensures Due(i, timer, z, r)
    ensures forall t | now < t < r && MinuteOf(z, t) != MinuteOf(z, now) :: !Due(i, timer, z, t)
  {
    BeginningIsDue(i, timer, z, r);
    forall t | now < t < r && MinuteOf(z, t) != MinuteOf(z, now) ensures !Due(i, timer, z, t) {
      if Due(i, timer, z, t) {
        DueBeginsItsMinute(i, timer, z, t);
        BeginsAfter(z, now, t);
        assert false;
      }
    }
  }

  /** So sweeps after now in later minutes are silent until the predicted second, and a sweep at it fires. */
  lemma {:induction false} PredictionComesTrue(i: nat, s: Slot, z: Zone, now: int, r: int, times: seq<int>)
    requires Sweeps(i, z, times + [r]) && Coherent(i, s) && WholeMinutes(z) && s.lastFire <= now / 60
    requires s.timer.window == 0 && s.timer.arm && s.timer.minute <= 1439
    requires r > now && Begins(s.timer, z, r) && NoneBetween(s.timer, z, now, r)
    requires forall k | 0 <= k < |times| :: times[k] < r && MinuteOf(z, times[k]) > MinuteOf(z, now)
    ensures forall k | 0 <= k < |times| :: !Fires(i, s, times + [r], z)[k]
    ensures Fires(i, s, times + [r], z)[|times|]
    decreases |times|
  {
    PredictionIsFirstDue(i, s.timer, z, now, r);
    var all := times + [r];
    SweepMeaning(i, s, all[0], z);
    if times == [] {
      assert r / 60 > now / 60 by { BeginsInLaterMinute(s.timer, z, now, r); }
    } else {
      var t, rest := times[0], times[1..];
      assert all[0] == t && all[1..] == rest + [r] && t > now;
      SweepsTail(i, z, all);
      var (s', fired) := SweepSlot(i, s, t, z);
      assert !fired;
      PredictionComesTrue(i, s', z, now, r, rest);
      forall k | 0 <= k < |times| ensures !Fires(i, s, all, z)[k] {
        if k > 0 { assert !Fires(i, s', rest + [r], z)[k - 1]; }
      }
    }
  }

  lemma BeginsInLaterMinute(s: Timer, z: Zone, now: int, r: int)
    requires WholeMinutes(z) && Begins(s, z, r) && r > now
    ensures r / 60 > now / 60
  {
    UtcMinute(z, r);
    MinuteParts(r + z.offset);
    OnTheMinute(z, r, s.minute);
  }

  lemma OnTheMinute(z: Zone, r: int, minute: nat)
    requires (r + z.offset) % DAY == 60 * minute
    ensures (r + z.offset) % 60 == 0
  {
    var x := r + z.offset;
    assert x == 60 * (1440 * (x / DAY) + minute);
  }
}
