/** How readings of the overlay clock move, and with them the position the ring is read at. */
module Playout {
  import opened Machine
  import opened Overlay
  import MediaTime

  /** About 36 years in nanoseconds: local times compared here are no further apart. */
  const LIMIT: int := 0x1000_0000_0000_0000

  // ---- the correction as a function of the elapsed time ----

  /** Truncation toward zero moves a value by less than one, and never past zero. */
  lemma TruncateIsNear(v: real)
    requires -2_000_000_000_000_000_000.0 <= v <= 2_000_000_000_000_000_000.0
    ensures Rounds(v, Truncate(v))
  {
    if v < 0.0 {
      var t := (-v).Floor;
      assert t as real <= -v < t as real + 1.0;
      assert Truncate(v) == -t;
      assert (-t) as real == -(t as real);
    }
  }

  /** The correction of a time within the limit, and the exact product it comes from. */
  lemma CorrectionOf(e: i64, f: real, v: real)
    requires -LIMIT <= e <= LIMIT && -MAX_PPM <= f <= MAX_PPM && v == e as real * f
    ensures Rounds(v, Correction(e, f)) && Abs(Correction(e, f)) <= LIMIT
  {
    SignedProduct(e as real, f);
    TruncateIsNear(v);
  }

  /** n is v truncated toward zero. */
  ghost predicate Rounds(v: real, n: int) {
    && (v >= 0.0 ==> v - 1.0 < n as real <= v && n >= 0)
    && (v <= 0.0 ==> v <= n as real < v + 1.0 && n <= 0)
  }

  /** A later local time never gives an earlier reading of one snapshot: the correction takes back less than the
      time that passed. */
  lemma CorrectionLags(e1: i64, e2: i64, f: real)
    requires -LIMIT <= e1 <= e2 <= LIMIT && -MAX_PPM <= f <= MAX_PPM
    ensures e1 + Correction(e1, f) <= e2 + Correction(e2, f)
  {
    hide Correction, Rounds;
    var u, v, d := e1 as real * f, e2 as real * f, (e2 - e1) as real;
    CorrectionOf(e1, f, u);
    CorrectionOf(e2, f, v);
    SignedProduct(d, f);
    Difference(e1 as real, e2 as real, f);
    assert d == e2 as real - e1 as real;
    LagCore(e1, e2, u, v, Correction(e1, f), Correction(e2, f));
  }

  lemma Difference(a: real, b: real, f: real)
    ensures b * f - a * f == (b - a) * f
  {
  }

  lemma LagCore(e1: int, e2: int, u: real, v: real, a: int, b: int)
    requires e1 <= e2 && -(0.0005 * (e2 - e1) as real) <= v - u
    requires Rounds(u, a) && Rounds(v, b)
    ensures e1 + a <= e2 + b
  {
  }

  // ---- two readings with one publish between them ----

  /** How far the publish's own time lies outside the two readings: a Sync is published when its Follow_Up comes,
      and a reader takes the local time before it takes the snapshot. */
  function Delay(t2: u64, x: u64, y: u64): nat { Max(0, Max(DiffI64(x, t2), DiffI64(t2, y))) }

  /** The readings at x and then at y are a bounded time apart from each other and from the publish. */
  ghost predicate Nearby(c: Clock, t2: u64, x: u64, y: u64) {
    && 0 <= DiffI64(y, x) <= LIMIT
    && -LIMIT <= DiffI64(x, c.lastSync) <= LIMIT && -LIMIT <= DiffI64(y, t2) <= LIMIT
  }

  lemma NearbyAgrees(c: Clock, t2: u64, x: u64, y: u64)
    requires Nearby(c, t2, x, y) && 0 <= LocalStep(c, t2) <= MAX_INTERVAL_NS
    ensures DiffI64(y, t2) == DiffI64(y, x) + DiffI64(x, c.lastSync) - LocalStep(c, t2)
    ensures DiffI64(x, t2) == DiffI64(x, c.lastSync) - LocalStep(c, t2) && DiffI64(t2, y) == -DiffI64(y, t2)
  {
  }

  lemma OverlayTurns(local: u64, sync: u64, shift: i64, f: real) returns (k: int)
    ensures OverlayAt(local, sync, shift, f) == local + shift + Correction(DiffI64(local, sync), f) + k * TWO_64
  {
    k := SumTurns(local, shift, Correction(DiffI64(local, sync), f));
  }

  lemma NoTurns(a: int, b: int, k: int)
    requires a == b + k * TWO_64 && -TWO_63 <= a < TWO_63 && -TWO_63 <= b < TWO_63
    ensures a == b
  {
  }

  lemma FrequencyMoves(c: Clock, t1: u64, t2: u64)
    requires -MAX_PPM <= c.freq <= MAX_PPM && LocalStep(c, t2) > 0
    ensures -0.000125 <= Frequency(c, t1, t2) - c.freq <= 0.000125
    ensures -MAX_PPM <= Frequency(c, t1, t2) <= MAX_PPM
  {
  }

  /** The whole arithmetic of a reading at x before, and one at y after, a publish at t2 that applied `step`. */
  lemma StepCore(e1: i64, e2: i64, g: i64, d: int, h: nat, step: int, f: real, f': real)
    requires -LIMIT <= e1 <= LIMIT && 0 <= e2 <= MAX_INTERVAL_NS && -LIMIT <= g <= LIMIT
    requires 0 <= d <= LIMIT && g == d + e1 - e2 && h == Max(0, Max(e1 - e2, -g))
    requires -MAX_PPM <= f <= MAX_PPM && -MAX_PPM <= f' <= MAX_PPM && -0.000125 <= f' - f <= 0.000125
    ensures h == 0 ==> d + step + Correction(g, f') + Correction(e2, f) - Correction(e1, f) >= step
    ensures d + step + Correction(g, f') + Correction(e2, f) - Correction(e1, f) >= step - h / 8000 - 3
  {
    hide Correction, Rounds;
    if e1 > e2 {
      CorrectionLags(h, g, f');
      BeyondPublish(e1, e2, h, f, f');
    } else if g < 0 {
      CorrectionLags(e1, e2 + g, f);
      BeyondPublish(e2 + g, e2, g, f, f');
    } else {
      CorrectionLags(e1, e2, f);
      CorrectionLags(0, g, f');
      NoCorrection(f');
    }
  }

  lemma NoCorrection(f: real)
    ensures Correction(0, f) == 0
  {
  }

  /** Carrying a reading h ns past the publish with the new frequency instead of the old one. */
  lemma BeyondPublish(e: i64, e2: i64, h: i64, f: real, f': real)
    requires -LIMIT <= e <= LIMIT && 0 <= e2 <= MAX_INTERVAL_NS && h == e - e2 && -LIMIT <= h <= LIMIT
    requires -MAX_PPM <= f <= MAX_PPM && -MAX_PPM <= f' <= MAX_PPM && -0.000125 <= f' - f <= 0.000125
    ensures Correction(h, f') - Correction(e, f) + Correction(e2, f) >= -(Abs(h) / 8000) - 3
  {
    hide Correction, Rounds;
    var p, q, r := h as real * f', e as real * f, e2 as real * f;
    CorrectionOf(h, f', p);
    CorrectionOf(e, f, q);
    CorrectionOf(e2, f, r);
    FrequencyGap(h as real, e as real, e2 as real, f, f', p, q, r);
    BeyondCore(h, p, q, r, Correction(h, f'), Correction(e, f), Correction(e2, f));
  }

  lemma BeyondCore(h: int, p: real, q: real, r: real, i: int, j: int, k: int)
    requires Rounds(p, i) && Rounds(q, j) && Rounds(r, k)
    requires p - (q - r) >= -(0.000125 * AbsReal(h as real))
    ensures i - j + k >= -(Abs(h) / 8000) - 3
  {
    assert p - 1.0 < i as real && j as real < q + 1.0 && r - 1.0 < k as real;
    assert AbsReal(h as real) == Abs(h) as real;
    RoundDown(Abs(h), i - j + k);
  }

  lemma FrequencyGap(h: real, e: real, e2: real, f: real, f': real, p: real, q: real, r: real)
    requires h == e - e2 && -0.000125 <= f' - f <= 0.000125
    requires p == h * f' && q == e * f && r == e2 * f
    ensures p - (q - r) >= -(0.000125 * AbsReal(h))
  {
    Difference(e2, e, f);
    assert h * f' - h * f == h * (f' - f);
    if h >= 0.0 {
      NonNegativeProduct(h, f' - f + 0.000125);
    } else {
      NonNegativeProduct(-h, 0.000125 - (f' - f));
    }
  }

  lemma RoundDown(h: nat, x: int)
    requires x as real > -(0.000125 * h as real) - 3.0
    ensures x >= -(h / 8000) - 3
  {
    var m, rest := h / 8000, h % 8000;
    assert h == 8000 * m + rest;
    assert h as real == 8000.0 * m as real + rest as real;
  }

  function Reading(c: Clock, local: u64): u64 { OverlayAt(local, c.lastSync, c.shift, c.freq) }

  /** Reading snapshot c at x and then snapshot n at y, the overlay time falls by no more than the applied step, with
      1/8000 of the delay and 3 ns added if there is a delay. */
  ghost predicate FallsByAtMost(c: Clock, n: Clock, t2: u64, x: u64, y: u64, step: int) {
    var move, delay := DiffI64(Reading(n, y), Reading(c, x)), Delay(t2, x, y);
    (delay == 0 ==> move >= step) && move >= step - delay / 8000 - 3
  }

  /** n is c after a publish at t2 that applied a slew. */
  ghost predicate SlewedTo(c: Clock, n: Clock, t1: u64, t2: u64) {
    && 0 <= LocalStep(c, t2) <= MAX_INTERVAL_NS && Abs(Applied(c, t1, t2)) <= SLEW_ACQUIRE_NS
    && n.lastSync == t2 && n.shift == DiffI64(ShiftU64(Predicted(c, t2), Applied(c, t1, t2)), t2)
    && -MAX_PPM <= c.freq <= MAX_PPM && -MAX_PPM <= n.freq <= MAX_PPM && -0.000125 <= n.freq - c.freq <= 0.000125
  }

  lemma {:induction false} AcceptedSlews(c: Clock, t1: u64, t2: u64, source: Source)
    requires Valid(c) && Accepted(c, t1, t2, source)
    ensures SlewedTo(c, Observed(c, t1, t2, source), t1, t2)
    ensures Abs(Applied(c, t1, t2)) <= MaxStep(c)
  {
    hide Correction, OverlayAt, DiffI64, ShiftU64, Blend, Residual;
    AcceptedIsSteer(c, t1, t2, source);
    FrequencyMoves(c, t1, t2);
    ClampIsPart(Error(c, t1, t2), MaxStep(c));
  }

  lemma {:induction false} PublishFalls(c: Clock, n: Clock, t1: u64, t2: u64, x: u64, y: u64)
    requires SlewedTo(c, n, t1, t2) && Nearby(c, t2, x, y)
    ensures FallsByAtMost(c, n, t2, x, y, Applied(c, t1, t2))
  {
    NearbyAgrees(c, t2, x, y);
    hide Correction, OverlayAt, DiffI64, ShiftU64, Predicted, Applied, Rounds, Reading;
    var e1, e2, g := DiffI64(x, c.lastSync), LocalStep(c, t2), DiffI64(y, t2);
    CorrectionOf(e1, c.freq, e1 as real * c.freq);
    CorrectionOf(e2, c.freq, e2 as real * c.freq);
    CorrectionOf(g, n.freq, g as real * n.freq);
    StepCore(e1, e2, g, DiffI64(y, x), Delay(t2, x, y), Applied(c, t1, t2), c.freq, n.freq);
    MoveIs(c, t1, t2, x, y, n);
  }

  /** Between a reading at x before an accepted observation is published and one at y after, the overlay time falls
      by at most the slew that was applied, which is at most 1 ms while acquiring and 50 us once locked. */
  lemma {:induction false} ReadingsAcrossPublish(c: Clock, t1: u64, t2: u64, source: Source, x: u64, y: u64)
    requires Valid(c) && Accepted(c, t1, t2, source) && Nearby(c, t2, x, y)
    ensures FallsByAtMost(c, Observed(c, t1, t2, source), t2, x, y, Applied(c, t1, t2))
    ensures Abs(Applied(c, t1, t2)) <= MaxStep(c)
  {
    hide Valid, Accepted, Observed, SlewedTo, Nearby, FallsByAtMost, Applied;
    AcceptedSlews(c, t1, t2, source);
    PublishFalls(c, Observed(c, t1, t2, source), t1, t2, x, y);
  }

  /** The difference of the two readings, in exact arithmetic. */
  lemma {:induction false} MoveIs(c: Clock, t1: u64, t2: u64, x: u64, y: u64, n: Clock)
    requires n.lastSync == t2 && n.shift == DiffI64(ShiftU64(Predicted(c, t2), Applied(c, t1, t2)), t2)
    requires 0 <= DiffI64(y, x) <= LIMIT && Abs(Applied(c, t1, t2)) <= SLEW_ACQUIRE_NS
    requires Abs(Correction(DiffI64(x, c.lastSync), c.freq)) <= LIMIT
    requires Abs(Correction(LocalStep(c, t2), c.freq)) <= LIMIT
    requires Abs(Correction(DiffI64(y, t2), n.freq)) <= LIMIT
    ensures DiffI64(Reading(n, y), Reading(c, x))
      == DiffI64(y, x) + Applied(c, t1, t2) + Correction(DiffI64(y, t2), n.freq)
         + Correction(LocalStep(c, t2), c.freq) - Correction(DiffI64(x, c.lastSync), c.freq)
  {
    var a, pred := Applied(c, t1, t2), Predicted(c, t2);
    var c1, c2, c3 := Correction(DiffI64(x, c.lastSync), c.freq), Correction(LocalStep(c, t2), c.freq),
                      Correction(DiffI64(y, t2), n.freq);
    var before, after := OverlayAt(x, c.lastSync, c.shift, c.freq), OverlayAt(y, n.lastSync, n.shift, n.freq);
    var k1 := OverlayTurns(x, c.lastSync, c.shift, c.freq);
    var k2 := OverlayTurns(y, n.lastSync, n.shift, n.freq);
    var k3 := PredictedTurns(c, t2);
    var k4 := TurnsShift(pred, a);
    var k5 := TurnsDiff(ShiftU64(pred, a), t2);
    var k6 := TurnsDiff(y, x);
    var k7 := TurnsDiff(after, before);
    hide Correction, OverlayAt, DiffI64, ShiftU64, Predicted, Applied;
    NoTurns(DiffI64(after, before), DiffI64(y, x) + a + c3 + c2 - c1, k2 - k1 + k3 + k4 + k5 - k6 + k7);
  }

  lemma ElapsedAdds(y: u64, x: u64, sync: u64)
    requires -TWO_63 <= DiffI64(y, x) + DiffI64(x, sync) < TWO_63
    ensures DiffI64(y, sync) == DiffI64(y, x) + DiffI64(x, sync)
  {
  }

  /** Readings of one snapshot never go back. */
  lemma {:induction false} ReadingsRise(c: Clock, x: u64, y: u64)
    requires -MAX_PPM <= c.freq <= MAX_PPM && 0 <= DiffI64(y, x) <= LIMIT
    requires -LIMIT <= DiffI64(x, c.lastSync) && DiffI64(x, c.lastSync) + DiffI64(y, x) <= LIMIT
    ensures DiffI64(Reading(c, y), Reading(c, x)) >= 0
  {
    var e1, e2, d := DiffI64(x, c.lastSync), DiffI64(y, c.lastSync), DiffI64(y, x);
    ElapsedAdds(y, x, c.lastSync);
    var k1 := OverlayTurns(x, c.lastSync, c.shift, c.freq);
    var k2 := OverlayTurns(y, c.lastSync, c.shift, c.freq);
    var k3 := TurnsDiff(y, x);
    var k4 := TurnsDiff(Reading(c, y), Reading(c, x));
    hide Correction, OverlayAt, DiffI64, Rounds;
    CorrectionOf(e1, c.freq, e1 as real * c.freq);
    CorrectionOf(e2, c.freq, e2 as real * c.freq);
    CorrectionLags(e1, e2, c.freq);
    NoTurns(DiffI64(Reading(c, y), Reading(c, x)), d + Correction(e2, c.freq) - Correction(e1, c.freq),
            k2 - k1 - k3 + k4);
  }

  // ---- the read position ----

  lemma OrdinaryDifference(a: u64, b: u64)
    requires a < TWO_63 && b < TWO_63
    ensures DiffI64(a, b) == a - b
  {
  }

  /** How far the overlay time can fall at a publish. */
  function Fall(delay: nat): nat { if delay == 0 then SLEW_ACQUIRE_NS else SLEW_ACQUIRE_NS + delay / 8000 + 3 }

  /** How far one publish can move the read position back: by the samples of that fall, rounded up; without a delay
      these are at most rate / 1000 + 1. */
  lemma {:induction false} ReadPositionStepsBack(c: Clock, t1: u64, t2: u64, source: Source, x: u64, y: u64,
      latencyNs: u64, rate: u32)
    requires Valid(c) && Accepted(c, t1, t2, source) && Nearby(c, t2, x, y) && MediaTime.AllowedRate(rate)
    requires Reading(c, x) < TWO_63 && Reading(Observed(c, t1, t2, source), y) < TWO_63
    ensures var before, after := Reading(c, x), Reading(Observed(c, t1, t2, source), y);
      var back := MediaTime.Due(before, latencyNs, rate) - MediaTime.Due(after, latencyNs, rate);
      && back <= (Fall(Delay(t2, x, y)) * rate + MediaTime.NS - 1) / MediaTime.NS
      && (Delay(t2, x, y) == 0 ==> back <= rate / 1000 + 1)
  {
    hide Valid, Accepted, Observed, Nearby, Delay, Reading, Applied, MediaTime.Due;
    var before, after := Reading(c, x), Reading(Observed(c, t1, t2, source), y);
    ReadingsAcrossPublish(c, t1, t2, source, x, y);
    OrdinaryDifference(after, before);
    MediaTime.DueStepsBack(before, after, latencyNs, rate, Fall(Delay(t2, x, y)));
    MillisecondOfSamples(rate);
  }

  lemma MillisecondOfSamples(rate: nat)
    ensures (SLEW_ACQUIRE_NS * rate + MediaTime.NS - 1) / MediaTime.NS <= rate / 1000 + 1
  {
  }

  /** A clock that follows media and was right a second ago. */
  const SETTLED: Clock := Clock(1_000_000_000, 0, 0.0, 1_000_000_000, 0, true, MediaSource, 1_000_000_000, true)

  /** It does move back: a packet that is 1 ms late takes the read position 48 samples back at 48 kHz. */
  lemma {:induction false} LatePacketMovesReadBack(latencyNs: u64)
    ensures Valid(SETTLED) && Accepted(SETTLED, 1_999_000_000, 2_000_000_000, Media)
    ensures var n := Observed(SETTLED, 1_999_000_000, 2_000_000_000, Media);
      MediaTime.Due(Reading(n, 2_000_000_000), latencyNs, 48_000)
        == MediaTime.Due(Reading(SETTLED, 2_000_000_000), latencyNs, 48_000) - 48
  {
    var n := Observed(SETTLED, 1_999_000_000, 2_000_000_000, Media);
    assert Correction(1_000_000_000, 0.0) == 0;
    assert Error(SETTLED, 1_999_000_000, 2_000_000_000) == -1_000_000;
    assert n.lastSync == 2_000_000_000 && n.shift == -1_000_000;
    assert Correction(0, n.freq) == 0;
    assert Reading(SETTLED, 2_000_000_000) == 2_000_000_000 && Reading(n, 2_000_000_000) == 1_999_000_000;
  }
}
