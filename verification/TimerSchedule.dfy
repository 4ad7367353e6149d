/** When timers fire (main/timers.c:612-644, 772-820), in a zone with a fixed offset. */
module TimerSchedule {
  import opened Bytes
  import opened TimerText

  const DAY := 86400
  const MIN_VALID := 1700000000

  /** A fixed offset to UTC in seconds, and the day of the year of each local day. */
  datatype Zone = Zone(offset: int, yday: int -> int) {
    ghost predicate Valid() {
      -DAY < offset < DAY && forall d: int :: 0 <= yday(d) < 366
    }
  }

  function LocalDay(z: Zone, t: int): int {
    (t + z.offset) / DAY
  }

  function LocalMinute(z: Zone, t: int): (m: nat)
    ensures m < 1440
  {
    (t + z.offset) % DAY / 60
  }

  /** tm_wday: day 0 was a Thursday. */
  function Weekday(day: int): (w: nat)
    ensures w < 7
  {
    (day + 4) % 7
  }

  predicate OnDay(mask: nat, w: nat)
    requires w < 7
  {
    (if w == 0 then mask else if w == 1 then mask / 2 else if w == 2 then mask / 4 else if w == 3 then mask / 8
     else if w == 4 then mask / 16 else if w == 5 then mask / 32 else mask / 64) % 2 == 1
  }

  // ---------- jitter ----------

  /** hash32: one round of xorshift. */
  function Hash32(x: bv32): bv32 {
    var a := x ^ (x << 13);
    var b := a ^ (a >> 17);
    var c := b ^ (b << 5);
    if c != 0 then c else 1
  }

  /** The minutes a slot is shifted by on a day of the year. */
  function Jitter(i: nat, yday: nat, window: nat): (j: int)
    requires i < SLOT_COUNT && yday < 366
    ensures 0 <= j + window <= 2 * window
  {
    if window > 0 then
      var seed := ((i * 131) as bv32) ^ (yday as bv32) ^ 0xA5A5;
      var r: int := Hash32(seed) as int;
      r % (2 * window + 1) - window
    else 0
  }

  // ---------- one slot in one sweep ----------

  /** A slot with its fire and jitter caches. */
  datatype Slot = Slot(timer: Timer, lastFire: int, jitterDay: int, jitter: int)

  /** A slot just edited: timers_set and timers_clear reset the caches. */
  function Edited(timer: Timer): Slot {
    Slot(timer, 0, -1, 0)
  }

  /** The iteration of sweep for slot i at the time t: the slot afterwards and whether it fired. */
  function SweepSlot(i: nat, s: Slot, t: int, z: Zone): (Slot, bool)
    requires i < SLOT_COUNT && 0 <= z.yday(LocalDay(z, t)) < 366
  {
    var day := LocalDay(z, t);
    if !s.timer.arm || s.timer.days == 0 || !OnDay(s.timer.days, Weekday(day)) then (s, false)
    else
      var yday := z.yday(day);
      var s1 := if s.jitterDay != yday then s.(jitterDay := yday, jitter := Jitter(i, yday, s.timer.window)) else s;
      var target := s.timer.minute + s1.jitter;
      if target < 0 || target > 1439 || LocalMinute(z, t) != target || s1.lastFire == t / 60 then (s1, false)
      else (s1.(lastFire := t / 60, timer := if s.timer.repeat then s.timer else s.timer.(arm := false)), true)
  }

  /** The scheduler's arrays and the state of its task. */
  class Scheduler {
    var master: bool
    var lastNow: int
    const timers: array<Timer>
    const lastFire: array<int>
    const jitterDay: array<int>
    const jitter: array<int>

    ghost predicate Valid() {
      && timers.Length == lastFire.Length == jitterDay.Length == jitter.Length == SLOT_COUNT
      && lastFire != jitterDay && lastFire != jitter && jitterDay != jitter
    }

    ghost function SlotAt(i: nat): Slot
      reads timers, lastFire, jitterDay, jitter
      requires Valid() && i < SLOT_COUNT
    {
      Slot(timers[i], lastFire[i], jitterDay[i], jitter[i])
    }

    constructor ()
      ensures Valid() && master && lastNow == 0 && forall i | 0 <= i < SLOT_COUNT :: SlotAt(i) == Edited(EMPTY)
    {
      master, lastNow := true, 0;
      timers := new Timer[SLOT_COUNT](i => EMPTY);
      lastFire := new int[SLOT_COUNT](i => 0);
      jitterDay := new int[SLOT_COUNT](i => -1);
      jitter := new int[SLOT_COUNT](i => 0);
    }

    /** timers_set without the write to flash; a jitter left over is never used. */
    method Set(i: nat, timer: Timer)
      requires Valid() && i < SLOT_COUNT
      modifies timers, lastFire, jitterDay
      ensures SlotAt(i) == Edited(timer).(jitter := old(SlotAt(i)).jitter)
      ensures forall k | 0 <= k < SLOT_COUNT && k != i :: SlotAt(k) == old(SlotAt(k))
    {
      timers[i], lastFire[i], jitterDay[i] := timer, 0, -1;
    }

    /** The body of the loop of sweep. */
    method SweepAt(i: nat, t: int, z: Zone) returns (fired: bool)
      requires Valid() && z.Valid() && i < SLOT_COUNT
      modifies timers, lastFire, jitterDay, jitter
      ensures (SlotAt(i), fired) == SweepSlot(i, old(SlotAt(i)), t, z)
      ensures forall k | 0 <= k < SLOT_COUNT && k != i :: SlotAt(k) == old(SlotAt(k))
    {
      var s, day := timers[i], LocalDay(z, t);
      if !s.arm { return false; }
      if s.days == 0 { return false; }
      if !OnDay(s.days, Weekday(day)) { return false; }
      var yday := z.yday(day);
      if jitterDay[i] != yday {
        jitterDay[i] := yday;
        jitter[i] := Jitter(i, yday, s.window);
      }
      var target := s.minute + jitter[i];
      if target < 0 || target > 1439 { return false; }
      if LocalMinute(z, t) != target { return false; }
      if lastFire[i] == t / 60 { return false; }
      lastFire[i] := t / 60;
      if !s.repeat {
        timers[i] := s.(arm := false);
      }
      fired := true;
    }

    /** sweep: every slot once, in order. */
    method Sweep(t: int, z: Zone) returns (fired: seq<bool>)
      requires Valid() && z.Valid()
      modifies timers, lastFire, jitterDay, jitter
      ensures |fired| == SLOT_COUNT
      ensures forall i | 0 <= i < SLOT_COUNT :: (SlotAt(i), fired[i]) == SweepSlot(i, old(SlotAt(i)), t, z)
    {
      fired := [];
      var i := 0;
      while i < SLOT_COUNT
        invariant i <= SLOT_COUNT && |fired| == i
        invariant forall k | 0 <= k < i :: (SlotAt(k), fired[k]) == SweepSlot(k, old(SlotAt(k)), t, z)
        invariant forall k | i <= k < SLOT_COUNT :: SlotAt(k) == old(SlotAt(k))
      {
        var f := SweepAt(i, t, z);
        fired := fired + [f];
        i := i + 1;
      }
    }

    /** One turn of timers_task. */
    method Tick(now: int, z: Zone) returns (fired: seq<bool>)
      requires Valid() && z.Valid()
      modifies `lastNow, timers, lastFire, jitterDay, jitter
      ensures lastNow == if now < MIN_VALID then old(lastNow) else now
      ensures fired == [] <==>
              now < 1700000000 || (old(lastNow) != 0 && !(-60 <= now - old(lastNow) <= 60)) || !master
      ensures fired == [] ==> forall i | 0 <= i < SLOT_COUNT :: SlotAt(i) == old(SlotAt(i))
      ensures fired != [] ==> |fired| == SLOT_COUNT
                              && forall i | 0 <= i < SLOT_COUNT ::
                                (SlotAt(i), fired[i]) == SweepSlot(i, old(SlotAt(i)), now, z)
    {
      fired := [];
      if now < MIN_VALID { return; }
      var delta := if lastNow != 0 then now - lastNow else 0;
      var largeJump := lastNow != 0 && (delta > 60 || delta < -60);
      lastNow := now;
      if largeJump { return; }
      if !master { return; }
      fired := Sweep(now, z);
    }
  }

  // ---------- the predictor ----------

  predicate OnLocalDay(mask: nat, day: int) {
    OnDay(mask, Weekday(day))
  }

  /** The timer's minute begins at t, on a day of its mask. */
  predicate Begins(s: Timer, z: Zone, t: int) {
    (t + z.offset) % DAY == 60 * s.minute && OnLocalDay(s.days, LocalDay(z, t))
  }

  /** Nothing begins after now on a local day before the given one. */
  ghost predicate NoneBefore(s: Timer, z: Zone, now: int, day: int) {
    forall t | now < t && LocalDay(z, t) < day :: !Begins(s, z, t)
  }

  ghost predicate NoneBetween(s: Timer, z: Zone, now: int, until: int) {
    forall t | now < t < until :: !Begins(s, z, t)
  }

  function Candidate(s: Timer, z: Zone, day: int): int {
    day * DAY + 60 * s.minute - z.offset
  }

  lemma CandidateBegins(s: Timer, z: Zone, day: int)
    requires s.minute <= 1439
    ensures LocalDay(z, Candidate(s, z, day)) == day
    ensures (Candidate(s, z, day) + z.offset) % DAY == 60 * s.minute
  {}

  lemma OnlyCandidateBegins(s: Timer, z: Zone, t: int)
    requires Begins(s, z, t)
    ensures t == Candidate(s, z, LocalDay(z, t))
  {}

  lemma DaysAdvance(z: Zone, t: int, u: int)
    requires t <= u
    ensures LocalDay(z, t) <= LocalDay(z, u)
  {}

  /** The candidate of the first day that has not been looked at is the next beginning. */
  lemma FirstFound(s: Timer, z: Zone, now: int, day: int)
    requires s.minute <= 1439 && NoneBefore(s, z, now, day)
    ensures NoneBetween(s, z, now, Candidate(s, z, day))
  {
    var c := Candidate(s, z, day);
    CandidateBegins(s, z, day);
    forall t | now < t < c ensures !Begins(s, z, t) {
      DaysAdvance(z, t, c);
      if Begins(s, z, t) { OnlyCandidateBegins(s, z, t); }
    }
  }

  lemma DayIsSkipped(s: Timer, z: Zone, now: int, day: int)
    requires s.minute <= 1439 && NoneBefore(s, z, now, day)
    requires Candidate(s, z, day) <= now || !OnLocalDay(s.days, day)
    ensures NoneBefore(s, z, now, day + 1)
  {
    forall t | now < t && LocalDay(z, t) < day + 1 ensures !Begins(s, z, t) {
      if Begins(s, z, t) { OnlyCandidateBegins(s, z, t); }
    }
  }

  /** A later day's candidate is past now. */
  lemma LaterDayIsAfter(s: Timer, z: Zone, now: int, day: int)
    requires s.minute <= 1439 && LocalDay(z, now) < day
    ensures Candidate(s, z, day) > now
  {
    CandidateBegins(s, z, day);
    if Candidate(s, z, day) <= now { DaysAdvance(z, Candidate(s, z, day), now); }
  }

  lemma SomeDayIsOn(mask: nat) returns (w: nat)
    requires 0 < mask < 0x80
    ensures w < 7 && OnDay(mask, w)
  {
    w := if OnDay(mask, 0) then 0 else if OnDay(mask, 1) then 1 else if OnDay(mask, 2) then 2
      else if OnDay(mask, 3) then 3 else if OnDay(mask, 4) then 4 else if OnDay(mask, 5) then 5 else 6;
  }

  lemma DaysUntil(today: int, w: nat) returns (d: nat)
    requires w < 7
    ensures 1 <= d < 8 && Weekday(today + d) == w
  {
    d := 1 + (w - Weekday(today) + 6) % 7;
  }

  lemma SomeDayOfTheWeek(mask: nat, today: int) returns (d: nat)
    requires 0 < mask < 0x80
    ensures 1 <= d < 8 && OnLocalDay(mask, today + d)
  {
    var w := SomeDayIsOn(mask);
    d := DaysUntil(today, w);
  }

  /** next_fire_for_locked: 0 when nothing will fire, else the first beginning after now. */
  method NextFire(s: Timer, master: bool, now: int, z: Zone) returns (r: int)
    requires z.Valid() && s.minute <= 1439 && s.days < 0x80
    ensures r == 0 <==> !s.arm || !master || s.days == 0 || now < MIN_VALID
    ensures r != 0 ==> r > now && Begins(s, z, r) && NoneBetween(s, z, now, r)
  {
    if !s.arm || !master || s.days == 0 { return 0; }
    if now < MIN_VALID { return 0; }
    var today := LocalDay(z, now);
    var dayOff := 0;
    while dayOff < 8
      invariant 0 <= dayOff <= 8
      invariant NoneBefore(s, z, now, today + dayOff)
      invariant forall d: int | today < d < today + dayOff :: !OnLocalDay(s.days, d)
    {
      var candidate := Candidate(s, z, today + dayOff);
      CandidateBegins(s, z, today + dayOff);
      if candidate > now && OnLocalDay(s.days, LocalDay(z, candidate)) {
        FirstFound(s, z, now, today + dayOff);
        return candidate;
      }
      if dayOff > 0 { LaterDayIsAfter(s, z, now, today + dayOff); }
      DayIsSkipped(s, z, now, today + dayOff);
      dayOff := dayOff + 1;
    }
    ghost var d := SomeDayOfTheWeek(s.days, today);
    assert false;
  }
}
