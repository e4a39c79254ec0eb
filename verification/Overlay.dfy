/** The overlay clock servo: one snapshot (last_sync, shift, freq) steered by (t1, t2) observations. */
module Overlay {
  import opened Machine

  const MAX_PPM: real := 0.0005
  const OUTLIER_NS: int := 200_000_000
  const SLEW_ACQUIRE_NS: int := 1_000_000
  const SLEW_LOCK_NS: int := 50_000
  const LOCK_ERR_NS: int := 100_000
  const UNLOCK_ERR_NS: int := 1_000_000
  const MEDIA_DECIMATE_NS: int := 125_000_000
  const MIN_INTERVAL_NS: int := 200_000_000
  const MAX_INTERVAL_NS: int := 4_000_000_000
  const MAX_INTERVAL_SKEW_NS: int := 50_000_000
  const LOCK_STREAK: int := 4
  const STREAK_WRAP: int := 0x1_0000_0000

  datatype Source = Ptp | Media

  datatype SourceTag = NoSource | MediaSource | PtpSource

  datatype Status = Unlocked | MediaDriven | PtpLocked

  /** The values of the clock's atomics between two calls. */
  datatype Clock = Clock(
    lastSync: u64,
    shift: i64,
    freq: real,
    lastMaster: u64,
    streak: u32,
    acquiring: bool,
    source: SourceTag,
    lastMediaT2: u64,
    initialized: bool)

  const FRESH: Clock := Clock(0, 0, 0.0, 0, 0, true, NoSource, 0, false)

  /** `x as i64` for a float: toward zero, saturating at both ends. */
  function Truncate(x: real): i64 {
    var t := if x >= 0.0 then x.Floor else -((-x).Floor);
    if t < -TWO_63 then -TWO_63 else if t >= TWO_63 then TWO_63 - 1 else t
  }

  function Correction(elapsed: i64, freq: real): i64 { Truncate(elapsed as real * freq) }

  function OverlayAt(local: u64, lastSync: u64, shift: i64, freq: real): u64 {
    var corr := Correction(DiffI64(local, lastSync), freq);
    AsU64(AddI64(AddI64(AsI64(local), shift), corr))
  }

  function Clamp(x: int, bound: int): int
    requires bound >= 0
  {
    if x < -bound then -bound else if x > bound then bound else x
  }

  function ClampReal(x: real, bound: real): real
    requires bound >= 0.0
  {
    if x < -bound then -bound else if x > bound then bound else x
  }

  function TagOf(source: Source): SourceTag { if source.Ptp? then PtpSource else MediaSource }

  function StatusOf(c: Clock): Status {
    if c.source.PtpSource? && c.streak >= LOCK_STREAK then PtpLocked
    else if c.source.NoSource? then Unlocked
    else MediaDriven
  }

  function LocalStep(c: Clock, t2: u64): i64 { DiffI64(t2, c.lastSync) }

  function MasterStep(c: Clock, t1: u64): i64 { DiffI64(t1, c.lastMaster) }

  function Predicted(c: Clock, t2: u64): u64 { OverlayAt(t2, c.lastSync, c.shift, c.freq) }

  function Error(c: Clock, t1: u64, t2: u64): i64 { DiffI64(t1, Predicted(c, t2)) }

  function MaxStep(c: Clock): nat { if c.acquiring then SLEW_ACQUIRE_NS else SLEW_LOCK_NS }

  function Applied(c: Clock, t1: u64, t2: u64): i64 { Clamp(Error(c, t1, t2), MaxStep(c)) }

  /** Both clocks moved forward, by a plausible and nearly equal amount. */
  predicate IntervalOk(c: Clock, t1: u64, t2: u64) {
    && 0 < LocalStep(c, t2) && 0 < MasterStep(c, t1)
    && MIN_INTERVAL_NS <= LocalStep(c, t2) <= MAX_INTERVAL_NS
    && Abs(MasterStep(c, t1) - LocalStep(c, t2)) <= MAX_INTERVAL_SKEW_NS
  }

  /** A media observation within 125 ms of the previous one is thrown away. */
  predicate Decimated(c: Clock, t2: u64) {
    SubU64(t2, c.lastMediaT2) < MEDIA_DECIMATE_NS && c.lastMediaT2 != 0
  }

  predicate ReachesServo(c: Clock, t2: u64, source: Source) {
    source.Media? ==> !Decimated(c, t2) && StatusOf(c) != PtpLocked
  }

  /** The observation is used to publish a new snapshot of an initialised clock. */
  predicate Accepted(c: Clock, t1: u64, t2: u64, source: Source) {
    && ReachesServo(c, t2, source)
    && c.initialized
    && IntervalOk(c, t1, t2)
    && Abs(Error(c, t1, t2)) <= OUTLIER_NS
  }

  /** The moving average of the clamped rate error, with weight 1/8 on the newest interval. */
  function Blend(freq: real, localDt: i64, masterDt: i64): real
    requires localDt > 0
  {
    var raw := masterDt as real / localDt as real - 1.0;
    (1.0 - 0.125) * freq + 0.125 * ClampReal(raw, MAX_PPM)
  }

  function Frequency(c: Clock, t1: u64, t2: u64): real
    requires LocalStep(c, t2) > 0
  {
    Blend(c.freq, LocalStep(c, t2), MasterStep(c, t1))
  }

  /** How a lock-state pair reacts to the size of an accepted error. */
  function LockAfter(streak: u32, acquiring: bool, magnitude: nat): (u32, bool) {
    if magnitude < LOCK_ERR_NS then
      var n := (streak + 1) % STREAK_WRAP;
      (n, acquiring && n < LOCK_STREAK)
    else if magnitude > UNLOCK_ERR_NS then (0, true)
    else (streak, acquiring)
  }

  function Publish(c: Clock, lastSync: u64, shift: i64, freq: real): Clock {
    c.(lastSync := lastSync, shift := shift, freq := freq)
  }

  function Initialise(c: Clock, t1: u64, t2: u64, source: Source): Clock {
    Publish(c, t2, DiffI64(t1, t2), 0.0)
    .(lastMaster := t1, initialized := true, acquiring := true, source := TagOf(source))
  }

  function Steer(c: Clock, t1: u64, t2: u64, source: Source): Clock
    requires LocalStep(c, t2) > 0
  {
    var overlay := ShiftU64(Predicted(c, t2), Applied(c, t1, t2));
    var lock := LockAfter(c.streak, c.acquiring, Abs(Error(c, t1, t2)));
    Publish(c, t2, DiffI64(overlay, t2), Frequency(c, t1, t2))
    .(lastMaster := t1, streak := lock.0, acquiring := lock.1, source := TagOf(source))
  }

  /** What `observe` does to an initialised clock. */
  function Servo(c: Clock, t1: u64, t2: u64, source: Source): Clock {
    if IntervalOk(c, t1, t2) && Abs(Error(c, t1, t2)) <= OUTLIER_NS then Steer(c, t1, t2, source) else c
  }

  /** `observe`, as a function of the state. */
  function Observed(c: Clock, t1: u64, t2: u64, source: Source): Clock {
    var c' := if source.Media? && !Decimated(c, t2) then c.(lastMediaT2 := t2) else c;
    if !ReachesServo(c, t2, source) then c'
    else if !c.initialized then Initialise(c', t1, t2, source)
    else Servo(c', t1, t2, source)
  }

  /** Apart from the media decimation time, an accepted observation is one servo step. */
  lemma AcceptedIsSteer(c: Clock, t1: u64, t2: u64, source: Source)
    requires Accepted(c, t1, t2, source)
    ensures var n := Observed(c, t1, t2, source);
            n == Steer(c, t1, t2, source).(lastMediaT2 := n.lastMediaT2)
  {
  }

  /** `mark_unlocked_if_stale`, given the local time it reads. */
  function Staled(c: Clock, local: u64, idle: u64): Clock {
    if StatusOf(c) != PtpLocked && c.lastMediaT2 != 0 && SubU64(local, c.lastMediaT2) > idle
    then c.(source := NoSource, streak := 0)
    else c
  }

  // ---- the residual invariant ----

  /** The overlay time the snapshot gives to its own local time. */
  function Published(c: Clock): u64 { ShiftU64(c.lastSync, c.shift) }

  /** What the published overlay at last_sync still misses of the master. */
  function Residual(c: Clock): i64 { DiffI64(c.lastMaster, Published(c)) }

  const MAX_RESIDUAL_NS: int := 199_950_000
  const MAX_ERROR_NS: int := 251_950_000

  ghost predicate Valid(c: Clock) {
    && (c.streak >= LOCK_STREAK ==> !c.acquiring)
    && (!c.initialized ==> c.streak == 0 && c.acquiring && c.source.NoSource? && c.freq == 0.0)
    && -MAX_PPM <= c.freq <= MAX_PPM
    && (c.initialized ==> Abs(Residual(c)) <= MAX_RESIDUAL_NS)
  }

  lemma ProductBound(a: real, x: real)
    requires a >= 0.0 && -MAX_PPM <= x <= MAX_PPM
    ensures -(a * MAX_PPM) <= a * x <= a * MAX_PPM
  {
    NonNegativeProduct(a, MAX_PPM - x);
    NonNegativeProduct(a, MAX_PPM + x);
  }

  lemma NonNegativeProduct(a: real, b: real)
    requires a >= 0.0 && b >= 0.0
    ensures a * b >= 0.0
  {
  }

  /** A product with a frequency, whatever its sign. */
  lemma SignedProduct(e: real, f: real)
    requires -MAX_PPM <= f <= MAX_PPM
    ensures -(0.0005 * AbsReal(e)) <= e * f <= 0.0005 * AbsReal(e)
  {
    if e >= 0.0 {
      BoundedProduct(e, f, e * f);
    } else {
      Negated(e, f);
      BoundedProduct(-e, f, -(e * f));
    }
  }

  lemma BoundedProduct(a: real, f: real, p: real)
    requires a >= 0.0 && -MAX_PPM <= f <= MAX_PPM && p == a * f
    ensures -(0.0005 * a) <= p <= 0.0005 * a
  {
    ProductBound(a, f);
    assert a * MAX_PPM == 0.0005 * a;
  }

  lemma Negated(e: real, f: real)
    ensures (-e) * f == -(e * f)
  {
  }

  /** The float correction over an admissible interval is at most 500 ppm of it. */
  lemma CorrectionBound(elapsed: i64, freq: real)
    requires 0 <= elapsed <= MAX_INTERVAL_NS
    requires -MAX_PPM <= freq <= MAX_PPM
    ensures AbsReal(Correction(elapsed, freq) as real) <= elapsed as real * MAX_PPM
    ensures Abs(Correction(elapsed, freq)) <= 2_000_000
  {
    ProductBound(elapsed as real, freq);
    TruncateShrinks(elapsed as real * freq, elapsed as real * MAX_PPM);
  }

  lemma TruncateShrinks(x: real, bound: real)
    requires -bound <= x <= bound <= 2_000_000.0
    ensures AbsReal(Truncate(x) as real) <= bound
    ensures Abs(Truncate(x)) <= 2_000_000
  {
  }

  /** The predicted overlay is local time plus shift plus correction, up to whole turns. */
  lemma PredictedTurns(c: Clock, t2: u64) returns (k: int)
    ensures Predicted(c, t2) == t2 + c.shift + Correction(LocalStep(c, t2), c.freq) + k * TWO_64
  {
    k := SumTurns(t2, c.shift, Correction(LocalStep(c, t2), c.freq));
  }

  lemma SumTurns(a: u64, b: i64, d: i64) returns (k: int)
    ensures AsU64(AddI64(AddI64(AsI64(a), b), d)) == a + b + d + k * TWO_64
  {
    var s := AddI64(AsI64(a), b);
    var i := if s == a + b then 0 else if s == a + b + TWO_64 then 1 else if s == a + b - TWO_64 then -1 else -2;
    var j := TurnsShift(AsU64(s), d);
    k := if s >= 0 then i + j else i + j + 1;
  }

  /** The arithmetic core of the decomposition: whole turns cancel because both sides are small. */
  lemma DecompositionCore(t1: int, t2: int, sync: int, master: int, shift: int, corr: int, pred: int, pub: int,
      l: int, m: int, r: int, e: int, k0: int, k1: int, k2: int, k3: int, k4: int, k5: int)
    requires pred == t2 + shift + corr + k0 * TWO_64 && pub == sync + shift + k1 * TWO_64
    requires l == t2 - sync + k2 * TWO_64 && m == t1 - master + k3 * TWO_64
    requires r == master - pub + k4 * TWO_64 && e == t1 - pred + k5 * TWO_64
    requires -TWO_63 <= e < TWO_63
    requires Abs(r) <= MAX_RESIDUAL_NS && Abs(m - l) <= MAX_INTERVAL_SKEW_NS && Abs(corr) <= 2_000_000
    ensures e == r + (m - l) - corr
  {
    assert e - (r + (m - l) - corr) == (k5 - k0 - k4 - k3 + k2 + k1) * TWO_64;
  }

  /** The next error is the residual, plus the interval skew, minus the float correction. */
  lemma ErrorDecomposition(c: Clock, t1: u64, t2: u64)
    requires Valid(c) && c.initialized && IntervalOk(c, t1, t2)
    ensures Error(c, t1, t2)
         == Residual(c) + (MasterStep(c, t1) - LocalStep(c, t2)) - Correction(LocalStep(c, t2), c.freq)
  {
    var l, m, pred := LocalStep(c, t2), MasterStep(c, t1), Predicted(c, t2);
    var corr := Correction(l, c.freq);
    CorrectionBound(l, c.freq);
    var k0 := PredictedTurns(c, t2);
    var k1 := TurnsShift(c.lastSync, c.shift);
    var k2 := TurnsDiff(t2, c.lastSync);
    var k3 := TurnsDiff(t1, c.lastMaster);
    var k4 := TurnsDiff(c.lastMaster, Published(c));
    var k5 := TurnsDiff(t1, pred);
    DecompositionCore(t1, t2, c.lastSync, c.lastMaster, c.shift, corr, pred, Published(c),
                      l, m, Residual(c), Error(c, t1, t2), k0, k1, k2, k3, k4, k5);
  }

  /** At every observation that passes the interval gates, `error.abs()` is far from overflow. */
  lemma ErrorBounded(c: Clock, t1: u64, t2: u64)
    requires Valid(c) && c.initialized && IntervalOk(c, t1, t2)
    ensures Abs(Error(c, t1, t2)) <= MAX_ERROR_NS
  {
    ErrorDecomposition(c, t1, t2);
    CorrectionBound(LocalStep(c, t2), c.freq);
  }

  /** The published overlay at t2 is the old prediction moved by the applied step. */
  lemma PublishedAfterSteer(c: Clock, t1: u64, t2: u64, source: Source)
    requires LocalStep(c, t2) > 0
    ensures Published(Steer(c, t1, t2, source)) == ShiftU64(Predicted(c, t2), Applied(c, t1, t2))
  {
    ShiftByDiff(ShiftU64(Predicted(c, t2), Applied(c, t1, t2)), t2);
  }

  /** A steered clock misses exactly the part of the error it did not apply. */
  lemma ResidualAfterSteer(c: Clock, t1: u64, t2: u64, source: Source)
    requires LocalStep(c, t2) > 0
    requires Abs(Error(c, t1, t2)) <= OUTLIER_NS
    ensures Residual(Steer(c, t1, t2, source)) == Error(c, t1, t2) - Applied(c, t1, t2)
  {
    PublishedAfterSteer(c, t1, t2, source);
    ClampIsPart(Error(c, t1, t2), MaxStep(c));
    DiffAfterShift(t1, Predicted(c, t2), Applied(c, t1, t2));
  }

  lemma DiffAfterShift(t: u64, p: u64, a: i64)
    requires Abs(DiffI64(t, p)) <= OUTLIER_NS && Abs(a) <= OUTLIER_NS
    ensures DiffI64(t, ShiftU64(p, a)) == DiffI64(t, p) - a
  {
  }

  lemma ClampIsPart(x: int, bound: nat)
    ensures Abs(x - Clamp(x, bound)) == Max(0, Abs(x) - bound)
    ensures Abs(Clamp(x, bound)) <= bound
  {
  }

  lemma FrequencyBound(c: Clock, t1: u64, t2: u64)
    requires -MAX_PPM <= c.freq <= MAX_PPM && LocalStep(c, t2) > 0
    ensures -MAX_PPM <= Frequency(c, t1, t2) <= MAX_PPM
  {
  }

  lemma ResidualAfterInit(c: Clock, t1: u64, t2: u64, source: Source)
    ensures Residual(Initialise(c, t1, t2, source)) == 0
  {
    ShiftByDiff(t1, t2);
  }

  /** Every call keeps the invariant. */
  lemma ObserveKeepsValid(c: Clock, t1: u64, t2: u64, source: Source)
    requires Valid(c)
    ensures Valid(Observed(c, t1, t2, source))
  {
    var c' := if source.Media? && !Decimated(c, t2) then c.(lastMediaT2 := t2) else c;
    assert Residual(c') == Residual(c);
    if !ReachesServo(c, t2, source) {
    } else if !c.initialized {
      ResidualAfterInit(c', t1, t2, source);
    } else if IntervalOk(c', t1, t2) && Abs(Error(c', t1, t2)) <= OUTLIER_NS {
      ResidualAfterSteer(c', t1, t2, source);
      FrequencyBound(c', t1, t2);
    }
  }

  /** The clock object. The sequence lock around `publish` is modelled in module Seqlock. */
  class OverlayClock {
    var lastSync: u64
    var shift: i64
    var freq: real
    var lastMaster: u64
    var streak: u32
    var acquiring: bool
    var source: SourceTag
    var lastMediaT2: u64
    var initialized: bool

    ghost function State(): Clock
      reads this
    {
      Clock(lastSync, shift, freq, lastMaster, streak, acquiring, source, lastMediaT2, initialized)
    }

    constructor ()
      ensures State() == FRESH && Valid(State())
    {
      lastSync, shift, freq, lastMaster, streak := 0, 0, 0.0, 0, 0;
      acquiring, source, lastMediaT2, initialized := true, NoSource, 0, false;
    }

    method GetStatus() returns (s: Status)
      ensures s == StatusOf(State())
    {
      if source.PtpSource? && streak >= LOCK_STREAK {
        s := PtpLocked;
      } else if source.PtpSource? || source.MediaSource? {
        s := MediaDriven;
      } else {
        s := Unlocked;
      }
    }

    method SetSource(src: Source)
      modifies this`source
      ensures source == TagOf(src)
    {
      match src {
        case Ptp => source := PtpSource;
        case Media => source := MediaSource;
      }
    }

    method PublishSnapshot(sync: u64, newShift: i64, newFreq: real)
      modifies this`lastSync, this`shift, this`freq
      ensures State() == Publish(old(State()), sync, newShift, newFreq)
    {
      lastSync := sync;
      shift := newShift;
      freq := newFreq;
    }

    /** The overlay time for a local time, once a snapshot was published. */
    method NowNs(local: u64) returns (now: u64)
      ensures now == if initialized then OverlayAt(local, lastSync, shift, freq) else local
    {
      if !initialized {
        return local;
      }
      now := OverlayAt(local, lastSync, shift, freq);
    }

    method Observe(t1: u64, t2: u64, src: Source)
      requires Valid(State())
      modifies this
      ensures State() == Observed(old(State()), t1, t2, src)
      ensures Valid(State())
    {
      ObserveKeepsValid(State(), t1, t2, src);
      if src.Media? {
        if SubU64(t2, lastMediaT2) < MEDIA_DECIMATE_NS && lastMediaT2 != 0 {
          return;
        }
        lastMediaT2 := t2;
        var status := GetStatus();
        if status == PtpLocked {
          return;
        }
      }
      if !initialized {
        PublishSnapshot(t2, DiffI64(t1, t2), 0.0);
        lastMaster := t1;
        initialized := true;
        acquiring := true;
        SetSource(src);
        return;
      }
      ObserveInitialised(t1, t2, src);
    }

    /** The second half of `observe`: an observation of an initialised clock. */
    method ObserveInitialised(t1: u64, t2: u64, src: Source)
      requires Valid(State()) && initialized
      modifies this
      ensures State() == Servo(old(State()), t1, t2, src)
    {
      var localDt := DiffI64(t2, lastSync);
      var masterDt := DiffI64(t1, lastMaster);
      if localDt <= 0 || masterDt <= 0 {
        return;
      }
      if !(MIN_INTERVAL_NS <= localDt <= MAX_INTERVAL_NS) {
        return;
      }
      var skew: i64 := masterDt - localDt;
      if Abs(skew) > MAX_INTERVAL_SKEW_NS {
        return;
      }
      var newFreq := Blend(freq, localDt, masterDt);
      var pred := OverlayAt(t2, lastSync, shift, freq);
      var error := DiffI64(t1, pred);
      assert Abs(error) <= MAX_ERROR_NS by {
        ErrorBounded(State(), t1, t2);
      }
      var magnitude: i64 := Abs(error);
      if magnitude > OUTLIER_NS {
        return;
      }
      var maxStep := if acquiring then SLEW_ACQUIRE_NS else SLEW_LOCK_NS;
      var applied := Clamp(error, maxStep);
      var newAtT2 := ShiftU64(pred, applied);
      PublishSnapshot(t2, DiffI64(newAtT2, t2), newFreq);
      lastMaster := t1;
      UpdateLock(magnitude);
      SetSource(src);
    }

    method UpdateLock(magnitude: nat)
      modifies this`streak, this`acquiring
      ensures (streak, acquiring) == LockAfter(old(streak), old(acquiring), magnitude)
    {
      if magnitude < LOCK_ERR_NS {
        var n := (streak + 1) % STREAK_WRAP;
        streak := n;
        if n >= LOCK_STREAK {
          acquiring := false;
        }
      } else if magnitude > UNLOCK_ERR_NS {
        streak := 0;
        acquiring := true;
      }
    }

    method MarkUnlockedIfStale(local: u64, idle: u64)
      modifies this
      ensures State() == Staled(old(State()), local, idle)
      ensures old(Valid(State())) ==> Valid(State())
    {
      var status := GetStatus();
      if status == PtpLocked {
        return;
      }
      if lastMediaT2 != 0 && SubU64(local, lastMediaT2) > idle {
        source := NoSource;
        streak := 0;
      }
    }
  }
}
