/** What one observation, one reading and one stale check of the overlay clock mean, in plain arithmetic: with the
    numbers the program uses, and without the functions that compute them. */
module ServoMeans {
  import opened Machine
  import opened Overlay

  /** The low 64 bits agree. */
  ghost predicate SameBits(x: int, y: int) { (x - y) % 0x1_0000_0000_0000_0000 == 0 }

  /** d is `later - earlier` in wrapping signed 64-bit arithmetic. */
  ghost predicate Difference(d: int, later: int, earlier: int) {
    -0x8000_0000_0000_0000 <= d < 0x8000_0000_0000_0000 && SameBits(d, later - earlier)
  }

  /** n is x without its fraction. */
  ghost predicate TowardZero(n: int, x: real) {
    && (x >= 0.0 ==> n as real <= x < n as real + 1.0)
    && (x < 0.0 ==> n as real - 1.0 < x <= n as real)
  }

  function Distance(x: real, y: real): real { if x < y then y - x else x - y }

  /** No point from -bound to bound is nearer to x than v. */
  ghost predicate Nearest(v: real, x: real, bound: real) {
    && -bound <= v <= bound
    && forall w: real :: -bound <= w <= bound ==> Distance(v, x) <= Distance(w, x)
  }

  /** The same for whole numbers. */
  ghost predicate NearestWhole(v: int, x: int, bound: int) {
    && -bound <= v <= bound
    && forall w: int :: -bound <= w <= bound ==> Apart(v, x) <= Apart(w, x)
  }

  function Apart(x: int, y: int): int { if x < y then y - x else x - y }

  // ---- one reading ----

  /** What a frequency adds to a time. */
  function Gain(elapsed: int, freq: real): real { elapsed as real * freq }

  lemma DifferenceIs(later: u64, earlier: u64, d: int)
    ensures Difference(d, later, earlier) <==> d == DiffI64(later, earlier)
  {
  }

  lemma TowardZeroIs(x: real, n: int)
    requires -9_000_000_000_000_000_000.0 <= x <= 9_000_000_000_000_000_000.0
    ensures TowardZero(n, x) <==> n == Truncate(x)
  {
    var y := if x < 0.0 then -x else x;
    assert y.Floor as real <= y < y.Floor as real + 1.0;
    assert (-y.Floor) as real == -(y.Floor as real);
  }

  lemma SmallGain(elapsed: i64, freq: real)
    requires -0.0005 <= freq <= 0.0005
    ensures -9_000_000_000_000_000_000.0 <= Gain(elapsed, freq) <= 9_000_000_000_000_000_000.0
  {
    SignedProduct(elapsed as real, freq);
  }

  /** The clock is read as now at a local time: the snapshot's shift and, for the time since the snapshot, the part of
      it that its frequency adds. */
  ghost predicate Reads(c: Clock, local: u64, now: u64, elapsed: int, correction: int) {
    && Difference(elapsed, local, c.lastSync)
    && TowardZero(correction, Gain(elapsed, c.freq))
    && SameBits(now, local + c.shift + correction)
  }

  lemma CorrectionIs(c: Clock, elapsed: i64, n: int)
    requires -0.0005 <= c.freq <= 0.0005
    ensures TowardZero(n, Gain(elapsed, c.freq)) <==> n == Correction(elapsed, c.freq)
  {
    SmallGain(elapsed, c.freq);
    TowardZeroIs(Gain(elapsed, c.freq), n);
    assert Correction(elapsed, c.freq) == Truncate(Gain(elapsed, c.freq));
    hide TowardZero, Truncate, Correction, Gain;
  }

  lemma SumIs(local: u64, shift: i64, correction: i64, now: u64)
    ensures SameBits(now, local + shift + correction)
      <==> now == AsU64(AddI64(AddI64(AsI64(local), shift), correction))
  {
    var k := SumTurns(local, shift, correction);
  }

  /** A reading of the clock is exactly this. */
  lemma {:induction false} ReadingMeans(c: Clock, local: u64, now: u64, elapsed: int, correction: int)
    requires -0.0005 <= c.freq <= 0.0005 && Difference(elapsed, local, c.lastSync)
    requires TowardZero(correction, Gain(elapsed, c.freq))
    ensures Reads(c, local, now, elapsed, correction) <==> now == OverlayAt(local, c.lastSync, c.shift, c.freq)
  {
    hide SameBits, TowardZero, Correction, Gain;
    DifferenceIs(local, c.lastSync, elapsed);
    CorrectionIs(c, elapsed, correction);
    SumIs(local, c.shift, correction, now);
  }

  // ---- one observation ----

  /** What the servo measures: local and master time since the last snapshot, the correction for the former, the overlay
      time it predicts, and the error of that. */
  datatype Measurement = Measurement(local: int, master: int, correction: int, predicted: u64, error: int)

  ghost predicate Measured(c: Clock, t1: u64, t2: u64, m: Measurement) {
    && Difference(m.master, t1, c.lastMaster)
    && Reads(c, t2, m.predicted, m.local, m.correction)
    && Difference(m.error, t1, m.predicted)
  }

  lemma {:induction false} MeasuredIs(c: Clock, t1: u64, t2: u64, m: Measurement)
    requires -0.0005 <= c.freq <= 0.0005
    ensures Measured(c, t1, t2, m)
      <==> m == Measurement(LocalStep(c, t2), MasterStep(c, t1), Correction(LocalStep(c, t2), c.freq), Predicted(c, t2),
                            Error(c, t1, t2))
  {
    hide SameBits, TowardZero, Correction, OverlayAt, Gain, Difference;
    DifferenceIs(t1, c.lastMaster, m.master);
    DifferenceIs(t2, c.lastSync, m.local);
    DifferenceIs(t1, m.predicted, m.error);
    if m.local == LocalStep(c, t2) {
      CorrectionIs(c, m.local, m.correction);
      if m.correction == Correction(m.local, c.freq) {
        ReadingMeans(c, t2, m.predicted, m.local, m.correction);
      }
    }
  }

  /** A media observation less than 125 ms after the last one. */
  ghost predicate TooSoon(c: Clock, t2: u64) {
    c.lastMediaT2 != 0 && (t2 - c.lastMediaT2) % 0x1_0000_0000_0000_0000 < 125_000_000
  }

  ghost predicate Locked(c: Clock) { c.source == PtpSource && c.streak >= 4 }

  /** Media is heard only every 125 ms, and not at all while locked to PTP. */
  ghost predicate Heard(c: Clock, t2: u64, source: Source) { source == Media ==> !TooSoon(c, t2) && !Locked(c) }

  /** The interval and the error are plausible. */
  ghost predicate Plausible(m: Measurement) {
    && 200_000_000 <= m.local <= 4_000_000_000 && m.master > 0
    && -50_000_000 <= m.master - m.local <= 50_000_000
    && -200_000_000 <= m.error <= 200_000_000
  }

  /** By how much the master is faster. */
  function RateError(master: int, local: int): real
    requires local > 0
  {
    master as real / local as real - 1.0
  }

  /** The new estimate: an eighth of the way to the measured rate error, held within 500 ppm. */
  ghost predicate BlendedTo(freq: real, after: real, m: Measurement)
    requires m.local > 0
  {
    exists rate: real :: Nearest(rate, RateError(m.master, m.local), 0.0005) && after == 0.875 * freq + 0.125 * rate
  }

  function SlewLimit(acquiring: bool): int { if acquiring then 1_000_000 else 50_000 }

  /** The new shift: the prediction, moved toward the master by at most 1 ms while acquiring, and by 50 us otherwise. */
  ghost predicate SlewedTo(acquiring: bool, shift: i64, t2: u64, m: Measurement) {
    exists step: int ::
      NearestWhole(step, m.error, SlewLimit(acquiring)) && SameBits(t2 + shift, m.predicted + step)
  }

  /** The lock counter: up below 100 us, back to 0 above 1 ms; 4 end the acquisition. */
  ghost predicate CountedTo(c: Clock, n: Clock, error: int) {
    var size := if error < 0 then -error else error;
    if size < 100_000 then
      && n.streak == (if c.streak == 0xFFFF_FFFF then 0 else c.streak + 1)
      && (n.acquiring <==> c.acquiring && n.streak < 4)
    else if size > 1_000_000 then n.streak == 0 && n.acquiring
    else n.streak == c.streak && n.acquiring == c.acquiring
  }

  lemma NearestClamp(x: real)
    ensures Nearest(ClampReal(x, 0.0005), x, 0.0005)
  {
  }

  lemma NearestStep(x: int, bound: nat)
    ensures NearestWhole(Clamp(x, bound), x, bound)
  {
  }

  lemma {:induction false} BlendMeans(c: Clock, t1: u64, t2: u64, m: Measurement)
    requires m.local == LocalStep(c, t2) > 0 && m.master == MasterStep(c, t1)
    ensures BlendedTo(c.freq, Frequency(c, t1, t2), m)
  {
    hide Nearest, ClampReal;
    NearestClamp(RateError(m.master, m.local));
  }

  lemma {:induction false} SlewMeans(c: Clock, n: Clock, t1: u64, t2: u64, m: Measurement)
    requires m.predicted == Predicted(c, t2) && m.error == Error(c, t1, t2)
    requires n.shift == DiffI64(ShiftU64(Predicted(c, t2), Applied(c, t1, t2)), t2)
    ensures SlewedTo(c.acquiring, n.shift, t2, m)
  {
    var overlay := ShiftU64(Predicted(c, t2), Applied(c, t1, t2));
    var k := TurnsShift(Predicted(c, t2), Applied(c, t1, t2));
    var j := TurnsDiff(overlay, t2);
    hide NearestWhole, Clamp, ShiftU64, DiffI64, Predicted;
    NearestStep(Error(c, t1, t2), MaxStep(c));
    assert t2 + n.shift - (m.predicted + Applied(c, t1, t2)) == (j + k) * TWO_64;
    Multiple(t2 + n.shift - (m.predicted + Applied(c, t1, t2)), j + k);
    assert NearestWhole(Applied(c, t1, t2), m.error, SlewLimit(c.acquiring));
    assert SameBits(t2 + n.shift, m.predicted + Applied(c, t1, t2));
  }

  lemma Multiple(x: int, k: int)
    requires x == k * TWO_64
    ensures x % 0x1_0000_0000_0000_0000 == 0
  {
  }

  lemma CountMeans(c: Clock, n: Clock, error: int)
    requires (n.streak, n.acquiring) == LockAfter(c.streak, c.acquiring, Abs(error))
    ensures CountedTo(c, n, error)
  {
  }

  /** The observation is used by an initialised clock. */
  ghost predicate Used(c: Clock, n: Clock, t1: u64, t2: u64, source: Source, m: Measurement)
    requires m.local > 0
  {
    && n.initialized && n.lastSync == t2 && n.lastMaster == t1
    && n.source == (if source == Ptp then PtpSource else MediaSource)
    && BlendedTo(c.freq, n.freq, m) && SlewedTo(c.acquiring, n.shift, t2, m) && CountedTo(c, n, m.error)
  }

  /** The very first observation: the overlay time is the master's. */
  ghost predicate Started(c: Clock, n: Clock, t1: u64, t2: u64, source: Source) {
    && n.initialized && n.acquiring && n.lastSync == t2 && n.lastMaster == t1 && n.freq == 0.0
    && n.streak == c.streak && n.source == (if source == Ptp then PtpSource else MediaSource)
    && SameBits(t2 + n.shift, t1)
  }

  lemma {:induction false} GatesMean(c: Clock, t1: u64, t2: u64, source: Source, m: Measurement)
    requires m.local == LocalStep(c, t2) && m.master == MasterStep(c, t1) && m.error == Error(c, t1, t2)
    ensures Heard(c, t2, source) <==> ReachesServo(c, t2, source)
    ensures Plausible(m) <==> IntervalOk(c, t1, t2) && Abs(Error(c, t1, t2)) <= OUTLIER_NS
    ensures source == Media && !TooSoon(c, t2) <==> source.Media? && !Decimated(c, t2)
  {
    hide Error, LocalStep, MasterStep;
    WrappingIsModular(t2, c.lastMediaT2);
  }

  lemma {:induction false} StartMeans(c: Clock, n: Clock, t1: u64, t2: u64, source: Source)
    requires n == Initialise(c, t1, t2, source)
    ensures Started(c, n, t1, t2, source) && n.lastMediaT2 == c.lastMediaT2
  {
    var k := TurnsDiff(t1, t2);
    Multiple(t2 + n.shift - t1, k);
  }

  lemma {:induction false} SteerMeans(c: Clock, t1: u64, t2: u64, source: Source, m: Measurement)
    requires c.initialized && m.local == LocalStep(c, t2) > 0 && m.master == MasterStep(c, t1)
    requires m.predicted == Predicted(c, t2) && m.error == Error(c, t1, t2)
    ensures Used(c, Steer(c, t1, t2, source), t1, t2, source, m)
    ensures Steer(c, t1, t2, source).lastMediaT2 == c.lastMediaT2
  {
    hide BlendedTo, SlewedTo, CountedTo, Error, Predicted, LocalStep, MasterStep, Frequency, Applied, LockAfter, Abs;
    var n := Steer(c, t1, t2, source);
    BlendMeans(c, t1, t2, m);
    SlewMeans(c, n, t1, t2, m);
    CountMeans(c, n, m.error);
    assert n.freq == Frequency(c, t1, t2) && n.initialized;
  }

  /** Everything one observation does, in every case. */
  lemma {:induction false} ObserveMeans(c: Clock, t1: u64, t2: u64, source: Source, m: Measurement)
    requires Valid(c) && Measured(c, t1, t2, m)
    ensures var n := Observed(c, t1, t2, source);
      && n.lastMediaT2 == (if source == Media && !TooSoon(c, t2) then t2 else c.lastMediaT2)
      && (!Heard(c, t2, source) ==> n == c.(lastMediaT2 := n.lastMediaT2))
      && (Heard(c, t2, source) && !c.initialized ==> Started(c, n, t1, t2, source))
      && (Heard(c, t2, source) && c.initialized && !Plausible(m) ==> n == c.(lastMediaT2 := n.lastMediaT2))
      && (Heard(c, t2, source) && c.initialized && Plausible(m) ==> Used(c, n, t1, t2, source, m))
  {
    MeasuredIs(c, t1, t2, m);
    GatesMean(c, t1, t2, source, m);
    var c' := if source.Media? && !Decimated(c, t2) then c.(lastMediaT2 := t2) else c;
    assert LocalStep(c', t2) == LocalStep(c, t2) && MasterStep(c', t1) == MasterStep(c, t1);
    assert Predicted(c', t2) == Predicted(c, t2);
    assert Error(c', t1, t2) == Error(c, t1, t2);
    hide Measured, Error, Predicted, Plausible, Heard, TooSoon, ReachesServo, Decimated, LockAfter, Frequency, Applied;
    hide Correction, BlendedTo, SlewedTo, CountedTo, LocalStep, MasterStep, Valid, Steer, Initialise, Abs;
    hide IntervalOk, Used, Started, Clamp;
    if ReachesServo(c, t2, source) {
      if !c.initialized {
        StartMeans(c', Initialise(c', t1, t2, source), t1, t2, source);
      } else if Plausible(m) {
        SteerMeans(c', t1, t2, source, m);
        UsedAlike(c', c, Steer(c', t1, t2, source), t1, t2, source, m);
      }
    }
  }

  lemma UsedAlike(c: Clock, d: Clock, n: Clock, t1: u64, t2: u64, source: Source, m: Measurement)
    requires m.local > 0 && Used(c, n, t1, t2, source, m) && d == c.(lastMediaT2 := d.lastMediaT2)
    ensures Used(d, n, t1, t2, source, m)
  {
    hide BlendedTo, SlewedTo;
  }

  /** And there always is something that the servo measures. */
  lemma {:induction false} MeasurementExists(c: Clock, t1: u64, t2: u64) returns (m: Measurement)
    requires Valid(c)
    ensures Measured(c, t1, t2, m)
  {
    m := Measurement(LocalStep(c, t2), MasterStep(c, t1), Correction(LocalStep(c, t2), c.freq), Predicted(c, t2),
                     Error(c, t1, t2));
    MeasuredIs(c, t1, t2, m);
  }

  /** The estimate of every used observation moves an eighth of the way to the measured rate, and no point within
      500 ppm is nearer to that rate than where it is drawn to. */
  lemma {:induction false} EstimateIsNearest(c: Clock, t1: u64, t2: u64, source: Source)
      returns (local: int, master: int, rate: real)
    requires Valid(c) && Accepted(c, t1, t2, source)
    ensures Difference(local, t2, c.lastSync) && Difference(master, t1, c.lastMaster) && local > 0
    ensures -0.0005 <= rate <= 0.0005
    ensures forall w: real :: -0.0005 <= w <= 0.0005 ==>
      Distance(rate, RateError(master, local)) <= Distance(w, RateError(master, local))
    ensures Observed(c, t1, t2, source).freq == 0.875 * c.freq + 0.125 * rate
  {
    var m := MeasurementExists(c, t1, t2);
    MeasuredIs(c, t1, t2, m);
    GatesMean(c, t1, t2, source, m);
    ObserveMeans(c, t1, t2, source, m);
    hide Measured, Error, Predicted, Correction, Valid, Steer, Observed, RateError;
    local, master := m.local, m.master;
    rate :| Nearest(rate, RateError(m.master, m.local), 0.0005)
            && Observed(c, t1, t2, source).freq == 0.875 * c.freq + 0.125 * rate;
  }

  // ---- status and stale checks ----

  lemma {:induction false} StatusMeans(c: Clock)
    ensures StatusOf(c) == PtpLocked <==> Locked(c)
    ensures StatusOf(c) == Unlocked <==> c.source == NoSource
    ensures StatusOf(c) == MediaDriven <==> c.source == MediaSource || (c.source == PtpSource && c.streak < 4)
  {
  }

  /** A stale check takes source and streak from a clock that is not locked to PTP when media was seen, but not within
      the idle time; it does nothing else. */
  lemma {:induction false} StaleCheckMeans(c: Clock, local: u64, idle: u64)
    ensures var n := Staled(c, local, idle);
      var expires := !Locked(c) && c.lastMediaT2 != 0 && (local - c.lastMediaT2) % 0x1_0000_0000_0000_0000 > idle;
      && (expires ==> n.source == NoSource && n.streak == 0 && n == c.(source := n.source, streak := n.streak))
      && (!expires ==> n == c)
  {
    WrappingIsModular(local, c.lastMediaT2);
  }
}
