/** The drift estimate from the last eight clock syncs (main/ntp.c:91-142). */
module DriftRing {
  import opened Bytes

  const RING := 8
  const BASELINE_US := 60_000_000
  const CLAMP := 500
  const UNKNOWN := -0x8000_0000  // INT32_MIN
  const INT64_MAX := 0x7FFF_FFFF_FFFF_FFFF

  /** The monotonic clock and the wall clock at a sync, in microseconds. */
  datatype Sample = Sample(mono: int, wall: int)

  /** A C division: it truncates toward zero. */
  function Quotient(n: int, d: int): int
    requires d > 0
  {
    if n >= 0 then n / d else -(-n / d)
  }

  /** A conversion to int32_t. */
  function ToInt32(v: int): int {
    var m := v % 0x1_0000_0000;
    if m < 0x8000_0000 then m else m - 0x1_0000_0000
  }

  function Clamp(v: int): int {
    if v > CLAMP then CLAMP else if v < -CLAMP then -CLAMP else v
  }

  // ---------- what the estimate means ----------

  /** The parts per million by which the wall clock outran the monotonic one between two samples, cut toward zero. */
  function Slope(oldest: Sample, newest: Sample): int
    requires newest.mono > oldest.mono
  {
    var mono := newest.mono - oldest.mono;
    Quotient((newest.wall - oldest.wall - mono) * 1_000_000, mono)
  }

  /** The oldest sample still kept. */
  function Oldest(log: seq<Sample>): (i: nat)
    requires log != []
    ensures i < |log|
  {
    if |log| <= RING then 0 else |log| - RING
  }

  function Baseline(log: seq<Sample>): int
    requires log != []
  {
    log[|log| - 1].mono - log[Oldest(log)].mono
  }

  /** The estimate after all the syncs so far. */
  function Estimate(log: seq<Sample>): int {
    if |log| < 2 then UNKNOWN
    else if Baseline(log) < BASELINE_US then UNKNOWN
    else Clamp(ToInt32(Slope(log[Oldest(log)], log[|log| - 1])))
  }

  /** The 64-bit arithmetic of a record does not overflow. */
  predicate Fits(log: seq<Sample>) {
    log != [] ==>
      var o, n := log[Oldest(log)], log[|log| - 1];
      && -INT64_MAX <= n.mono - o.mono <= INT64_MAX && -INT64_MAX <= n.wall - o.wall <= INT64_MAX
      && -INT64_MAX <= (n.wall - o.wall - (n.mono - o.mono)) * 1_000_000 <= INT64_MAX
  }

  // ---------- the ring ----------

  class Ring {
    const samples: array<Sample>
    var head: nat
    var count: nat
    var ppm: int
    ghost var log: seq<Sample>

    /** The ring holds the last eight of the recorded samples, each at its number modulo eight. */
    ghost predicate Valid()
      reads this, samples
    {
      && samples.Length == RING
      && count == Min(|log|, RING) && head == |log| % RING
      && (forall k | |log| - count <= k < |log| :: samples[k % RING] == log[k])
      && ppm == Estimate(log)
    }

    constructor ()
      ensures Valid() && fresh(samples) && log == [] && ppm == UNKNOWN
    {
      samples := new Sample[RING](_ => Sample(0, 0));
      head, count, ppm, log := 0, 0, UNKNOWN, [];
    }

    /** ntp_drift_record. */
    method Record(mono: int, wall: int)
      requires Valid() && Fits(log + [Sample(mono, wall)])
      modifies this, samples
      ensures Valid() && log == old(log) + [Sample(mono, wall)]
    {
      Put(Sample(mono, wall));
      if count < 2 {
        ppm := UNKNOWN;
        return;
      }
      var newest := (head + RING - 1) % RING;
      var oldest := if count == RING then head else 0;
      NewestSlot(|log|);
      if count == RING { OldestSlot(|log|); }
      var o, n := samples[oldest], samples[newest];
      assert o == log[Oldest(log)] && n == log[|log| - 1];
      var dMono := n.mono - o.mono;
      var dWall := n.wall - o.wall;
      if dMono < BASELINE_US {
        ppm := UNKNOWN;
        return;
      }
      var delta := dWall - dMono;
      var p := ToInt32(Quotient(delta * 1_000_000, dMono));
      if p > CLAMP { p := CLAMP; }
      if p < -CLAMP { p := -CLAMP; }
      ppm := p;
    }

    /** The sample is written at the head, which moves on. */
    method Put(s: Sample)
      requires Valid()
      modifies this, samples
      ensures samples.Length == RING && log == old(log) + [s] && ppm == old(ppm)
      ensures count == Min(|log|, RING) && head == |log| % RING
      ensures forall k | |log| - count <= k < |log| :: samples[k % RING] == log[k]
    {
      ghost var n := |log|;
      samples[head] := s;
      head := (head + 1) % RING;
      if count < RING { count := count + 1; }
      log := log + [s];
      NextHead(n);
      forall k | n + 1 - count <= k < n + 1 ensures samples[k % RING] == log[k] {
        if k < n { OtherSlot(k, n); }
      }
    }
  }

  lemma NextHead(n: nat)
    ensures (n % RING + 1) % RING == (n + 1) % RING
  {}

  lemma OtherSlot(k: nat, n: nat)
    requires n - RING < k < n
    ensures k % RING != n % RING
  {}

  lemma NewestSlot(n: nat)
    requires n > 0
    ensures (n % RING + RING - 1) % RING == (n - 1) % RING
  {}

  lemma OldestSlot(n: nat)
    requires n >= RING
    ensures n % RING == (n - RING) % RING
  {}

  // ---------- what it is worth ----------

  /** The slope is what the wall clock gained, in parts per million of the time that passed, cut toward zero. */
  lemma SlopeMeaning(o: Sample, n: Sample)
    requires n.mono > o.mono
    ensures var passed, gained, q := n.mono - o.mono, 1_000_000 * ((n.wall - o.wall) - (n.mono - o.mono)), Slope(o, n);
            && (gained >= 0 ==> q >= 0 && q * passed <= gained < q * passed + passed)
            && (gained < 0 ==> q <= 0 && q * passed - passed < gained <= q * passed)
  {
    var passed, gained := n.mono - o.mono, 1_000_000 * ((n.wall - o.wall) - (n.mono - o.mono));
    Euclid(gained, passed);
    Euclid(-gained, passed);
    assert -(-gained / passed) * passed == -((-gained / passed) * passed);
  }

  lemma Euclid(n: int, d: int)
    requires d > 0
    ensures n / d * d <= n < n / d * d + d && (n >= 0 ==> n / d >= 0)
  {}

  /** The cast keeps the remainder modulo 2^32 and a 32-bit range. */
  lemma CastMeaning(v: int)
    ensures -0x8000_0000 <= ToInt32(v) < 0x8000_0000 && (v - ToInt32(v)) % 0x1_0000_0000 == 0
  {}

  /** The estimate is unknown exactly without two samples or with a baseline under a minute. */
  lemma UnknownExactlyWithoutBaseline(log: seq<Sample>)
    ensures Estimate(log) == -0x8000_0000 <==>
            |log| < 2 || log[|log| - 1].mono - log[if |log| <= 8 then 0 else |log| - 8].mono < 60_000_000
    ensures Estimate(log) != -0x8000_0000 ==> -500 <= Estimate(log) <= 500
  {}

  /** What the cast to 32 bits leaves of a slope is clamped as the slope itself. */
  predicate SurvivesCast(slope: int) {
    || -0x8000_0000 <= slope <= 0x7FFF_FFFF
    || (slope > 0 && CLAMP <= slope % 0x1_0000_0000 < 0x8000_0000)
    || (slope < 0 && 0x8000_0000 <= slope % 0x1_0000_0000 <= 0x1_0000_0000 - CLAMP)
  }

  /** The estimate is the clamped slope between the oldest and the newest sample kept exactly when that slope survives
      the cast to 32 bits. */
  lemma ClampedSlopeExactlyWhenItFits(log: seq<Sample>)
    requires |log| >= 2 && Baseline(log) >= BASELINE_US
    ensures var slope := Slope(log[Oldest(log)], log[|log| - 1]);
            Estimate(log) == Clamp(slope) <==> SurvivesCast(slope)
  {
    CastAndClamp(Slope(log[Oldest(log)], log[|log| - 1]));
  }

  lemma CastAndClamp(slope: int)
    ensures Clamp(ToInt32(slope)) == Clamp(slope) <==> SurvivesCast(slope)
  {
    if -0x8000_0000 <= slope <= 0x7FFF_FFFF {
      assert ToInt32(slope) == slope;
    }
  }

  /** A wall clock set forward by 71.6 hours between two syncs a minute apart looks perfect. */
  lemma SteppedClockLooksPerfect()
    ensures var log := [Sample(0, 0), Sample(60_000_000, 257_758_037_760)];
            Fits(log) && Estimate(log) == 0 && Clamp(Slope(log[0], log[1])) == CLAMP
  {}

  /** Only the kept samples count: two logs with the same last eight have the same estimate. */
  lemma OnlyLastEightCount(log: seq<Sample>, other: seq<Sample>)
    requires |log| >= RING && |other| >= RING && log[|log| - RING..] == other[|other| - RING..]
    ensures Estimate(log) == Estimate(other)
  {
    var a, b := log[|log| - RING..], other[|other| - RING..];
    assert a[0] == log[Oldest(log)] && a[RING - 1] == log[|log| - 1];
    assert b[0] == other[Oldest(other)] && b[RING - 1] == other[|other| - 1];
  }

  /** The wall clock runs at a constant rate of p parts per million against the monotonic one. */
  ghost predicate ConstantRate(log: seq<Sample>, p: int, c: int) {
    forall k | 0 <= k < |log| :: (log[k].wall - log[k].mono) * 1_000_000 == p * log[k].mono + c
  }

  lemma ExactQuotient(p: int, d: int)
    requires d > 0
    ensures Quotient(p * d, d) == p
  {
    if p >= 0 {
      QuotientUnique(p * d, d, p);
    } else {
      QuotientUnique(-p * d, d, -p);
      assert -(p * d) == -p * d;
      assert p * d < 0;
    }
  }

  lemma AtLeast(k: int, d: int)
    requires k >= 1 && d > 0
    ensures k * d >= d
  {}

  lemma QuotientUnique(n: int, d: int, q: int)
    requires d > 0 && n == q * d
    ensures n / d == q
  {
    var r := n / d;
    assert n % d == (q - r) * d;
    if q - r >= 1 { AtLeast(q - r, d); }
    if r - q >= 1 { AtLeast(r - q, d); }
  }

  /** A constant drift within the clamp is found exactly, whatever else the ring has forgotten. */
  lemma FindsConstantDrift(log: seq<Sample>, p: int, c: int)
    requires ConstantRate(log, p, c) && -CLAMP <= p <= CLAMP && |log| >= 2 && Baseline(log) >= BASELINE_US
    ensures Estimate(log) == p
  {
    var o, n := log[Oldest(log)], log[|log| - 1];
    var mono := n.mono - o.mono;
    assert (n.wall - o.wall - mono) * 1_000_000 == p * n.mono - p * o.mono == p * mono;
    ExactQuotient(p, mono);
  }
}
