/** Following a master whose rate is off by a constant ratio: every observation is used, the clock locks in bounded
    time, may lose that lock, and from a fixed observation on keeps it. */
module OverlayLock {
  import opened Machine
  import opened Overlay
  import opened OverlayRuns

  datatype Stamp = Stamp(t1: u64, t2: u64)

  /** The frequency estimate after k observations of a constant ratio error rho. */
  function Estimate(rho: real, k: nat): real {
    if k == 0 then 0.0 else 0.875 * Estimate(rho, k - 1) + 0.125 * rho
  }

  /** The part of a skew x that the estimate after k observations does not predict. */
  function Unpredicted(x: real, k: nat): real { if k == 0 then x else 0.875 * Unpredicted(x, k - 1) }

  /** (7/8)^k. */
  function Decay(k: nat): real { if k == 0 then 1.0 else 0.875 * Decay(k - 1) }

  /** The closed forms: the estimate misses (7/8)^k of rho, and so (7/8)^k of every skew. */
  lemma {:induction false} ClosedForms(rho: real, x: real, k: nat)
    ensures Estimate(rho, k) == rho * (1.0 - Decay(k))
    ensures Unpredicted(x, k) == x * Decay(k)
  {
    if k > 0 {
      ClosedForms(rho, x, k - 1);
    }
  }

  /** The most a master gains or loses in one interval: 2 ms is 500 ppm of the longest one; a gentle run has
      shorter intervals or a better master. */
  function Limit(gentle: bool): nat { if gentle then 1_000_000 else 2_000_000 }

  /** 200 ms to 4 s passed locally, and the master gained rho times that, in a gentle run at most 1 ms. */
  ghost predicate SkewedInterval(dt: int, mt: int, rho: real, gentle: bool) {
    && MIN_INTERVAL_NS <= dt <= MAX_INTERVAL_NS
    && (mt - dt) as real == dt as real * rho
    && (gentle ==> Abs(mt - dt) <= Limit(gentle))
  }

  ghost predicate SkewedBy(prev: Stamp, next: Stamp, rho: real, gentle: bool) {
    SkewedInterval(DiffI64(next.t2, prev.t2), DiffI64(next.t1, prev.t1), rho, gentle)
  }

  /** The first n intervals are all skewed by the same ratio. */
  ghost predicate SkewedUpTo(first: Stamp, obs: seq<Stamp>, rho: real, gentle: bool, n: nat)
    requires n <= |obs|
  {
    n == 0 || (&& SkewedBy(Before(first, obs, n - 1), obs[n - 1], rho, gentle)
               && SkewedUpTo(first, obs, rho, gentle, n - 1))
  }

  ghost predicate SkewedRun(first: Stamp, obs: seq<Stamp>, rho: real, gentle: bool) {
    -MAX_PPM <= rho <= MAX_PPM && SkewedUpTo(first, obs, rho, gentle, |obs|)
  }

  lemma {:induction false} SkewedAt(first: Stamp, obs: seq<Stamp>, rho: real, gentle: bool, n: nat, i: nat)
    requires i < n <= |obs| && SkewedUpTo(first, obs, rho, gentle, n)
    ensures SkewedBy(Before(first, obs, i), obs[i], rho, gentle)
  {
    if i < n - 1 {
      SkewedAt(first, obs, rho, gentle, n - 1, i);
    }
  }

  /** 500 ppm of 4 s are 2 ms. */
  lemma SkewIsLimited(dt: int, mt: int, rho: real, gentle: bool)
    requires SkewedInterval(dt, mt, rho, gentle) && -MAX_PPM <= rho <= MAX_PPM
    ensures Abs(mt - dt) <= Limit(gentle)
  {
    ProductBound(dt as real, rho);
    assert dt as real * MAX_PPM <= 4_000_000_000.0 * MAX_PPM;
    AtMost(mt - dt, 2_000_000);
  }

  lemma AtMost(x: int, bound: nat)
    requires -(bound as real) <= x as real <= bound as real
    ensures Abs(x) <= bound
  {
  }

  function Before(first: Stamp, obs: seq<Stamp>, i: nat): Stamp
    requires i <= |obs|
  {
    if i == 0 then first else obs[i - 1]
  }

  /** The stale checks made before the first observation, at 0, and after each one, any number of them. */
  type Gaps = nat -> seq<Event>

  /** When media was last seen: never, unless the first observation came from media. */
  function SeenAt(first: Stamp, src: Source): u64 { if src.Media? then first.t2 else 0 }

  /** The check finds that media was never seen, or not too long ago. */
  ghost predicate Harmless(e: Event, media: u64) {
    e.StaleCheck? && (media == 0 || SubU64(e.local, media) <= e.idle)
  }

  /** Nothing but stale checks, none of which expires. Before the first observation none can. */
  ghost predicate OnlyChecks(gaps: Gaps, media: u64) {
    && (forall j :: 0 <= j < |gaps(0)| ==> gaps(0)[j].StaleCheck?)
    && (forall i: nat, j :: i > 0 && 0 <= j < |gaps(i)| ==> Harmless(gaps(i)[j], media))
  }

  /** The first observation, from either source, and n more from PTP, with the stale checks around them. */
  function Schedule(first: Stamp, obs: seq<Stamp>, gaps: Gaps, src: Source, n: nat): seq<Event>
    requires n <= |obs|
  {
    if n == 0 then gaps(0) + ([Observe(first.t1, first.t2, src)] + gaps(1))
    else Schedule(first, obs, gaps, src, n - 1) + ([Observe(obs[n - 1].t1, obs[n - 1].t2, Ptp)] + gaps(n + 1))
  }

  /** The clock after these events. */
  function After(first: Stamp, obs: seq<Stamp>, gaps: Gaps, src: Source, n: nat): Clock
    requires n <= |obs|
  {
    Run(FRESH, Schedule(first, obs, gaps, src, n))
  }

  lemma {:induction false} RunConcat(c: Clock, a: seq<Event>, b: seq<Event>)
    ensures Run(c, a + b) == Run(Run(c, a), b)
    decreases |a|
  {
    hide Next;
    if a == [] {
      assert a + b == b;
    } else {
      assert (a + b)[1..] == a[1..] + b;
      RunConcat(Next(c, a[0]), a[1..], b);
    }
  }

  lemma {:induction false} ChecksDoNothing(c: Clock, checks: seq<Event>)
    requires forall j :: 0 <= j < |checks| ==> Harmless(checks[j], c.lastMediaT2)
    ensures Run(c, checks) == c
    decreases |checks|
  {
    if checks != [] {
      assert Harmless(checks[0], c.lastMediaT2);
      ChecksDoNothing(Next(c, checks[0]), checks[1..]);
    }
  }

  lemma {:induction false} ObserveThenChecks(c: Clock, e: Event, checks: seq<Event>)
    requires e.Observe? && (e.source.Media? ==> c == FRESH)
    requires var media := if e.source.Media? then e.t2 else c.lastMediaT2;
      forall j :: 0 <= j < |checks| ==> Harmless(checks[j], media)
    ensures Run(c, [e] + checks) == Next(c, e)
    ensures Next(c, e).lastMediaT2 == if e.source.Media? then e.t2 else c.lastMediaT2
  {
    hide Accepted, Residual, IntervalOk, Error, Harmless;
    assert ([e] + checks)[1..] == checks;
    assert Next(c, e).lastMediaT2 == if e.source.Media? then e.t2 else c.lastMediaT2;
    ChecksDoNothing(Next(c, e), checks);
  }

  lemma {:induction false} AfterIsObserved(first: Stamp, obs: seq<Stamp>, gaps: Gaps, src: Source, n: nat)
    requires OnlyChecks(gaps, SeenAt(first, src)) && n <= |obs|
    ensures After(first, obs, gaps, src, n).lastMediaT2 == SeenAt(first, src)
    ensures After(first, obs, gaps, src, n)
      == if n == 0 then Observed(FRESH, first.t1, first.t2, src)
         else Observed(After(first, obs, gaps, src, n - 1), obs[n - 1].t1, obs[n - 1].t2, Ptp)
  {
    hide Observed, Run;
    if n == 0 {
      var e := Observe(first.t1, first.t2, src);
      RunConcat(FRESH, gaps(0), [e] + gaps(1));
      ChecksDoNothing(FRESH, gaps(0));
      ObserveThenChecks(FRESH, e, gaps(1));
    } else {
      var e, before := Observe(obs[n - 1].t1, obs[n - 1].t2, Ptp), Schedule(first, obs, gaps, src, n - 1);
      AfterIsObserved(first, obs, gaps, src, n - 1);
      RunConcat(FRESH, before, [e] + gaps(n + 1));
      ObserveThenChecks(Run(FRESH, before), e, gaps(n + 1));
    }
  }

  // ---- what the residual can be ----

  /** The age of an estimate: the missing share of 1 ms after k observations is below that of 2 ms after k + 5. */
  function Age(k: nat, gentle: bool): nat { if gentle then k + 5 else k }

  /** The missing share of 2 ms at age j. */
  function Share(j: nat): real { Unpredicted(2_000_000.0, j) }

  /** The most a clock runs behind without unlocking. */
  const LOCKED_RESIDUAL: int := UNLOCK_ERR_NS - SLEW_LOCK_NS

  /** At least the residual of an acquiring clock at age j: what the 1 ms slew left over, or, if the share was large
      enough to unlock a clock, what the 50 us slew left over just then. */
  function Reach(j: nat): real {
    if j == 0 then 0.0
    else
      var error := LOCKED_RESIDUAL as real + Share(j - 1) + 1.0;
      var unlocked := if j > 4 && error > UNLOCK_ERR_NS as real then error - SLEW_LOCK_NS as real else 0.0;
      MaxReal(unlocked, Reach(j - 1) + Share(j - 1) + 1.0 - SLEW_ACQUIRE_NS as real)
  }

  function MaxReal(x: real, y: real): real { if x < y then y else x }

  lemma TwoMore(x: real, k: nat)
    ensures Unpredicted(x, k + 2) == 0.765625 * Unpredicted(x, k)
  {
    assert Unpredicted(x, k + 1) == 0.875 * Unpredicted(x, k);
  }

  lemma FourMore(x: real, k: nat)
    ensures Unpredicted(x, k + 4) == 0.586181640625 * Unpredicted(x, k)
  {
    TwoMore(x, k);
    TwoMore(x, k + 2);
  }

  lemma {:induction false} SharesFall(i: nat, j: nat)
    requires i <= j
    ensures 0.0 <= Share(j) <= Share(i)
    decreases j
  {
    if i < j {
      SharesFall(i, j - 1);
    } else if i > 0 {
      SharesFall(i - 1, i - 1);
    }
  }

  lemma {:induction false} ShareValues()
    ensures Share(5) >= 1_000_000.0
    ensures Share(8) <= 687_300.0 && Share(12) <= 402_900.0 && Share(16) <= 236_200.0 && Share(20) <= 138_500.0
    ensures Share(23) <= 92_800.0 && Share(24) <= 81_200.0 && Share(27) <= 54_400.0 && Share(28) <= 47_600.0
    ensures Share(33) <= 24_400.0
  {
    var x := 2_000_000.0;
    FourMore(x, 0);
    FourMore(x, 4);
    FourMore(x, 8);
    FourMore(x, 12);
    FourMore(x, 16);
    FourMore(x, 20);
    FourMore(x, 23);
    FourMore(x, 24);
    FourMore(x, 28);
  }

  lemma {:induction false} ReachFalls(j: nat, share: real, reach: real)
    requires j >= 4 && 0.0 <= Share(j) <= share && Reach(j) <= reach
    ensures Reach(j + 1) <= MaxReal(900_001.0 + share, reach + share - 999_999.0)
  {
  }

  lemma {:induction false} ReachFallsFour(j: nat, share: real, reach: real)
    requires j >= 4 && Share(j) <= share <= 900_000.0 && Reach(j) <= reach
    ensures Reach(j + 4) <= MaxReal(900_001.0 + share, reach - 4.0 * (999_999.0 - share))
  {
    hide Reach, Share;
    SharesFall(j, j + 1);
    SharesFall(j, j + 2);
    SharesFall(j, j + 3);
    ReachFalls(j, share, reach);
    ReachFalls(j + 1, share, Reach(j + 1));
    ReachFalls(j + 2, share, Reach(j + 2));
    ReachFalls(j + 3, share, Reach(j + 3));
  }

  lemma {:induction false} ReachValues()
    ensures Reach(29) <= 2_100.0
  {
    ShareValues();
    ReachStarts();
    hide Share, Reach;
    ReachFallsFour(8, 687_300.0, 2_900_000.0);
    ReachFallsFour(12, 402_900.0, Reach(12));
    ReachFallsFour(16, 236_200.0, Reach(16));
    ReachFallsFour(20, 138_500.0, Reach(20));
    SharesFall(24, 25);
    SharesFall(24, 26);
    SharesFall(27, 27);
    ReachFalls(24, 81_200.0, Reach(24));
    ReachFalls(25, 81_200.0, Reach(25));
    ReachFalls(26, 81_200.0, Reach(26));
    ReachFalls(27, 54_400.0, Reach(27));
    ReachEnds(28);
  }

  lemma {:induction false} ReachStarts()
    ensures Reach(8) <= 2_900_000.0
  {
  }

  lemma {:induction false} ReachEnds(j: nat)
    requires Share(j) <= 47_600.0
    ensures Reach(j + 1) <= MaxReal(0.0, Reach(j) - 952_399.0)
  {
  }

  /** At age 23 an unpredicted share is a good error; from 28 it cannot unlock a clock any more, from 29 an acquiring
      clock has good errors only, and from 33 the small slew makes up for it twice over. */
  lemma {:induction false} SharesAndReaches(j: nat)
    ensures Share(j) >= 0.0
    ensures j >= 23 ==> Share(j) <= 92_800.0
    ensures j >= 28 ==> Share(j) <= 47_600.0
    ensures j >= 29 ==> Reach(j) <= 2_100.0 && Reach(j + 1) <= 0.0
    ensures j >= 33 ==> Share(j) <= 24_400.0
  {
    ShareValues();
    hide Share, Reach;
    SharesFall(j, j);
    if j >= 23 {
      SharesFall(23, j);
    }
    if j >= 28 {
      SharesFall(28, j);
    }
    if j >= 33 {
      SharesFall(33, j);
    }
    if j >= 29 {
      ReachValues();
      if j > 29 {
        SharesAndReaches(j - 1);
      }
      ReachEnds(j);
    }
  }

  /** How residual, streak and acquiring go together after k observations, at age j. An acquiring clock soon has nothing
      left to correct; one that has locked may run behind by what the small slew leaves over, and catches up at last. */
  ghost predicate Settling(r: int, streak: u32, acquiring: bool, k: nat, j: nat) {
    && streak <= k <= j
    && (acquiring ==> streak < LOCK_STREAK && Abs(r) as real <= MaxReal(0.0, Reach(j)))
    && (acquiring && j >= 29 ==> streak >= j - 29)
    && (!acquiring ==> Abs(r) <= LOCKED_RESIDUAL && j >= 4 && (k < STREAK_WRAP ==> streak >= LOCK_STREAK))
    && (!acquiring && j >= 33 ==> Abs(r) <= Max(0, LOCKED_RESIDUAL - 25_500 * (j - 33)))
  }

  /** The whole state of a clock that has followed the master for k observations. */
  ghost predicate Follows(c: Clock, last: Stamp, rho: real, gentle: bool, k: nat) {
    && Valid(c) && c.initialized && (k > 0 ==> c.source == PtpSource)
    && c.lastSync == last.t2 && c.lastMaster == last.t1
    && c.freq == Estimate(rho, k)
    && Accumulated(Residual(c), gentle, k)
    && Settling(Residual(c), c.streak, c.acquiring, k, Age(k, gentle))
  }

  /** The residual is at most the sum of all missing shares so far. */
  ghost predicate Accumulated(r: int, gentle: bool, k: nat) {
    AbsReal(r as real) <= 8.0 * (Limit(gentle) as real - Unpredicted(Limit(gentle) as real, k))
  }

  /** It has never lost anything: it is still acquiring, and its overlay agrees with the master. */
  ghost predicate Tracking(c: Clock, last: Stamp, rho: real, k: nat) {
    Follows(c, last, rho, true, k) && c.acquiring && Residual(c) == 0 && k - 18 <= c.streak
  }

  /** The unpredicted part lies between 0 and the skew, and shrinks as observations come in. */
  ghost predicate ShareBounds(y: real, x: real, gentle: bool, k: nat) {
    && (if x >= 0.0 then 0.0 <= y <= x else x <= y <= 0.0)
    && (k == 0 ==> y == x)
    && (k > 0 ==> AbsReal(y) <= 0.875 * Limit(gentle) as real)
    && AbsReal(y) <= Unpredicted(Limit(gentle) as real, k)
    && AbsReal(y) <= Share(Age(k, gentle))
  }

  lemma {:induction false} UnpredictedBounds(x: real, gentle: bool, k: nat)
    requires AbsReal(x) <= Limit(gentle) as real
    ensures ShareBounds(Unpredicted(x, k), x, gentle, k)
  {
    if k == 0 {
      ShareValues();
    } else {
      UnpredictedBounds(x, gentle, k - 1);
    }
  }

  /** A correction that is the truncation of p. */
  ghost predicate Near(corr: int, p: real) {
    -1.0 <= corr as real - p <= 1.0 && (p == 0.0 ==> corr == 0)
  }

  lemma CorrectionNear(dt: i64, freq: real, p: real)
    requires dt as real * freq == p && -2_000_000.0 <= p <= 2_000_000.0
    ensures Near(Correction(dt, freq), p)
  {
    TruncateNear(p);
  }

  lemma TruncateNear(p: real)
    requires -2_000_000.0 <= p <= 2_000_000.0
    ensures Near(Truncate(p), p)
  {
  }

  /** How far an error can be from the residual before it. */
  ghost predicate Deviates(d: int, gentle: bool, k: nat) {
    Abs(d) <= Limit(gentle) && Abs(d) as real <= Share(Age(k, gentle)) + 1.0
  }

  /** What is left of a skew by a correction that predicts it up to the missing share y. */
  lemma ErrorCore(skew: int, y: real, gentle: bool, k: nat, d: int)
    requires Abs(skew) <= Limit(gentle)
    requires ShareBounds(y, skew as real, gentle, k) && Near(skew - d, skew as real - y)
    ensures AbsReal(d as real) <= AbsReal(y) + 1.0
    ensures Deviates(d, gentle, k)
  {
  }

  /** Over an interval dt the estimate predicts all of the skew dt * rho but the unpredicted part. */
  lemma {:induction false} PredictedSkew(dt: real, rho: real, x: real, k: nat)
    requires x == dt * rho
    ensures dt * Estimate(rho, k) == x - Unpredicted(x, k)
  {
    if k > 0 {
      PredictedSkew(dt, rho, x, k - 1);
      Distribute(dt, Estimate(rho, k - 1), rho);
    }
  }

  lemma Distribute(a: real, b: real, c: real)
    ensures a * (0.875 * b + 0.125 * c) == 0.875 * (a * b) + 0.125 * (a * c)
  {
  }

  lemma RatioIsSkew(m: real, d: real, rho: real)
    requires d > 0.0 && m - d == d * rho
    ensures m / d - 1.0 == rho
  {
    assert (1.0 + rho) * d == m;
    Cancel(m / d, 1.0 + rho, d);
  }

  lemma Cancel(p: real, q: real, d: real)
    requires d > 0.0 && p * d == q * d
    ensures p == q
  {
    assert (p - q) * d == 0.0;
  }

  /** How much more the master advanced over an interval than the local clock. */
  function Skew(c: Clock, next: Stamp): int { MasterStep(c, next.t1) - LocalStep(c, next.t2) }

  /** What a skewed interval means for the servo after k observations. */
  ghost predicate Foreseen(dt: i64, skew: int, rho: real, gentle: bool, k: nat) {
    && MIN_INTERVAL_NS <= dt <= MAX_INTERVAL_NS && Abs(skew) <= Limit(gentle)
    && Near(Correction(dt, Estimate(rho, k)), skew as real - Unpredicted(skew as real, k))
  }

  ghost predicate RatioSeen(dt: int, mt: int, rho: real) {
    && dt > 0
    && mt as real / dt as real - 1.0 == rho
  }

  lemma SkewIsSeen(dt: int, mt: int, rho: real, gentle: bool)
    requires SkewedInterval(dt, mt, rho, gentle)
    ensures RatioSeen(dt, mt, rho)
  {
    RatioIsSkew(mt as real, dt as real, rho);
  }

  lemma SkewIsForeseen(dt: i64, skew: int, rho: real, gentle: bool, k: nat, x: real)
    requires MIN_INTERVAL_NS <= dt <= MAX_INTERVAL_NS && Abs(skew) <= Limit(gentle)
    requires x == skew as real == dt as real * rho
    ensures Foreseen(dt, skew, rho, gentle, k)
  {
    hide Share, Correction, Truncate, Estimate, Unpredicted;
    UnpredictedBounds(x, gentle, k);
    PredictedSkew(dt as real, rho, x, k);
    CorrectionNear(dt, Estimate(rho, k), x - Unpredicted(x, k));
  }

  /** How the next error e differs from the residual r: by the unpredicted part of the skew, give or take 1 ns. */
  ghost predicate NewError(e: int, r: int, skew: int, gentle: bool, k: nat) {
    && AbsReal((e - r) as real) <= AbsReal(Unpredicted(skew as real, k)) + 1.0
    && AbsReal((e - r) as real) <= Unpredicted(Limit(gentle) as real, k) + 1.0
    && Deviates(e - r, gentle, k)
  }

  lemma FollowingError(c: Clock, last: Stamp, next: Stamp, rho: real, gentle: bool, k: nat)
    requires Follows(c, last, rho, gentle, k) && Expected(c, next, rho, gentle, k)
    ensures Accepted(c, next.t1, next.t2, Ptp)
    ensures NewError(Error(c, next.t1, next.t2), Residual(c), Skew(c, next), gentle, k)
  {
    hide Error, Residual, Correction, Unpredicted, Estimate, Settling, Share;
    ErrorDecomposition(c, next.t1, next.t2);
    var x := Skew(c, next) as real;
    UnpredictedBounds(x, gentle, k);
    UnpredictedBounds(Limit(gentle) as real, gentle, k);
    ErrorCore(Skew(c, next), Unpredicted(x, k), gentle, k, Error(c, next.t1, next.t2) - Residual(c));
  }

  /** Everything the servo needs to know about the interval up to the next observation. */
  ghost predicate Expected(c: Clock, next: Stamp, rho: real, gentle: bool, k: nat) {
    && MasterStep(c, next.t1) > 0
    && Foreseen(LocalStep(c, next.t2), Skew(c, next), rho, gentle, k)
    && RatioSeen(LocalStep(c, next.t2), MasterStep(c, next.t1), rho)
  }

  lemma SkewIsExpected(c: Clock, last: Stamp, next: Stamp, rho: real, gentle: bool, k: nat)
    requires c.lastSync == last.t2 && c.lastMaster == last.t1 && SkewedBy(last, next, rho, gentle)
    requires -MAX_PPM <= rho <= MAX_PPM
    ensures Expected(c, next, rho, gentle, k)
  {
    hide Share, Correction, Truncate, Estimate, Unpredicted, DiffI64, RatioSeen, Foreseen;
    var skew := Skew(c, next);
    SkewIsLimited(LocalStep(c, next.t2), MasterStep(c, next.t1), rho, gentle);
    SkewIsForeseen(LocalStep(c, next.t2), skew, rho, gentle, k, skew as real);
    SkewIsSeen(LocalStep(c, next.t2), MasterStep(c, next.t1), rho, gentle);
  }

  /** The fields of the clock after an accepted PTP observation. */
  lemma SteeredFields(c: Clock, t1: u64, t2: u64)
    requires Accepted(c, t1, t2, Ptp)
    ensures var n := Observed(c, t1, t2, Ptp);
            && n.lastSync == t2 && n.lastMaster == t1 && n.source == PtpSource && n.initialized
            && n.freq == Frequency(c, t1, t2)
            && (n.streak, n.acquiring) == LockAfter(c.streak, c.acquiring, Abs(Error(c, t1, t2)))
            && Residual(n) == Error(c, t1, t2) - Applied(c, t1, t2)
  {
    ResidualAfterSteer(c, t1, t2, Ptp);
  }

  /** One step of an acquiring clock, whose slew is at most 1 ms. */
  lemma AcquiringSettles(r: int, streak: u32, k: nat, j: nat, e: int)
    requires Settling(r, streak, true, k, j) && Abs(e - r) as real <= Share(j) + 1.0
    ensures var lock := LockAfter(streak, true, Abs(e));
      Settling(e - Clamp(e, SLEW_ACQUIRE_NS), lock.0, lock.1, k + 1, j + 1)
  {
    hide Share;
    SharesAndReaches(j);
  }

  /** One step of a clock that has locked, whose slew is at most 50 us. */
  lemma LockedSettles(r: int, streak: u32, k: nat, j: nat, e: int)
    requires Settling(r, streak, false, k, j) && Abs(e - r) as real <= Share(j) + 1.0
    ensures var lock := LockAfter(streak, false, Abs(e));
      Settling(e - Clamp(e, SLEW_LOCK_NS), lock.0, lock.1, k + 1, j + 1)
  {
    hide Share;
    SharesAndReaches(j);
  }

  /** The 1 ns of rounding is less than what either slew takes off. */
  lemma Accumulates(r: int, e: int, slew: nat, gentle: bool, k: nat)
    requires Accumulated(r, gentle, k) && slew >= SLEW_LOCK_NS
    requires AbsReal((e - r) as real) <= Unpredicted(Limit(gentle) as real, k) + 1.0
    ensures Accumulated(e - Clamp(e, slew), gentle, k + 1)
  {
    UnpredictedBounds(Limit(gentle) as real, gentle, k);
  }

  /** One step of either clock. */
  lemma {:induction false} ServoSettles(r: int, streak: u32, acquiring: bool, gentle: bool, k: nat, e: int, skew: int)
    requires Settling(r, streak, acquiring, k, Age(k, gentle)) && Accumulated(r, gentle, k)
    requires NewError(e, r, skew, gentle, k)
    ensures var lock := LockAfter(streak, acquiring, Abs(e));
      var r' := e - Clamp(e, if acquiring then SLEW_ACQUIRE_NS else SLEW_LOCK_NS);
      Settling(r', lock.0, lock.1, k + 1, Age(k + 1, gentle)) && Accumulated(r', gentle, k + 1)
  {
    hide Settling, LockAfter, Clamp, Accumulated, Share, Unpredicted;
    Accumulates(r, e, if acquiring then SLEW_ACQUIRE_NS else SLEW_LOCK_NS, gentle, k);
    if acquiring {
      AcquiringSettles(r, streak, k, Age(k, gentle), e);
    } else {
      LockedSettles(r, streak, k, Age(k, gentle), e);
    }
  }

  lemma NextEstimate(c: Clock, next: Stamp, rho: real, gentle: bool, k: nat)
    requires c.freq == Estimate(rho, k) && Expected(c, next, rho, gentle, k) && -MAX_PPM <= rho <= MAX_PPM
    ensures Frequency(c, next.t1, next.t2) == Estimate(rho, k + 1)
  {
    hide Correction, Unpredicted, DiffI64;
  }

  /** Every observation of the master is accepted and followed. */
  lemma {:induction false} FollowingStep(c: Clock, last: Stamp, next: Stamp, rho: real, gentle: bool, k: nat)
    requires Follows(c, last, rho, gentle, k) && Expected(c, next, rho, gentle, k) && -MAX_PPM <= rho <= MAX_PPM
    ensures Follows(Observed(c, next.t1, next.t2, Ptp), next, rho, gentle, k + 1)
  {
    var e := Error(c, next.t1, next.t2);
    FollowingError(c, last, next, rho, gentle, k);
    ObserveKeepsValid(c, next.t1, next.t2, Ptp);
    SteeredFields(c, next.t1, next.t2);
    NextEstimate(c, next, rho, gentle, k);
    hide Observed, Error, Residual, Accepted, Settling, LockAfter, Clamp, Accumulated, Share, Unpredicted, Estimate;
    hide Frequency, Valid, Expected, IntervalOk, NewError, Age;
    ServoSettles(Residual(c), c.streak, c.acquiring, gentle, k, e, Skew(c, next));
  }

  /** A clock that still tracks has an error of at most the unpredicted skew plus 1 ns. */
  lemma TrackingError(c: Clock, last: Stamp, next: Stamp, rho: real, k: nat)
    requires Tracking(c, last, rho, k) && Expected(c, next, rho, true, k)
    ensures AbsReal(Error(c, next.t1, next.t2) as real) <= AbsReal(Unpredicted(Skew(c, next) as real, k)) + 1.0
    ensures Abs(Error(c, next.t1, next.t2)) <= SLEW_ACQUIRE_NS
    ensures k >= 18 ==> Abs(Error(c, next.t1, next.t2)) < LOCK_ERR_NS
  {
    hide Error, Residual, Unpredicted, Share, Reach;
    FollowingError(c, last, next, rho, true, k);
    SharesAndReaches(k + 5);
  }

  lemma TracksOn(n: Clock, next: Stamp, rho: real, k: nat, streak: u32, e: int)
    requires Follows(n, next, rho, true, k + 1) && k - 18 <= streak < LOCK_STREAK
    requires (n.streak, n.acquiring) == LockAfter(streak, true, Abs(e))
    requires Residual(n) == e - Clamp(e, SLEW_ACQUIRE_NS)
    requires Abs(e) <= SLEW_ACQUIRE_NS && (k >= 18 ==> Abs(e) < LOCK_ERR_NS)
    ensures Tracking(n, next, rho, k + 1) || StatusOf(n) == PtpLocked
  {
    hide Residual, Valid, Estimate;
  }

  /** It corrects that error at once, so it tracks on, or locks. */
  lemma {:induction false} TrackingStep(c: Clock, last: Stamp, next: Stamp, rho: real, k: nat)
    requires Tracking(c, last, rho, k) && Expected(c, next, rho, true, k) && -MAX_PPM <= rho <= MAX_PPM
    ensures var n := Observed(c, next.t1, next.t2, Ptp);
            Tracking(n, next, rho, k + 1) || StatusOf(n) == PtpLocked
  {
    FollowingError(c, last, next, rho, true, k);
    TrackingError(c, last, next, rho, k);
    FollowingStep(c, last, next, rho, true, k);
    SteeredFields(c, next.t1, next.t2);
    hide Observed, Error, Residual, Accepted, NewError, LockAfter, Clamp;
    TracksOn(Observed(c, next.t1, next.t2, Ptp), next, rho, k, c.streak, Error(c, next.t1, next.t2));
  }

  /** What happens at one observation. */
  ghost predicate Taken(c: Clock, last: Stamp, next: Stamp, gentle: bool, k: nat) {
    && Accepted(c, next.t1, next.t2, Ptp)
    && LocalStep(c, next.t2) == DiffI64(next.t2, last.t2)
    && MasterStep(c, next.t1) == DiffI64(next.t1, last.t1)
    && NewError(Error(c, next.t1, next.t2), Residual(c), Skew(c, next), gentle, k)
  }

  /** 22 observations bring at least four good errors in a row, which end the acquisition. */
  lemma TrackingIsShort(c: Clock, last: Stamp, rho: real, k: nat)
    requires Tracking(c, last, rho, k)
    ensures k < 22
  {
  }

  lemma FirstFollows(first: Stamp, src: Source, rho: real, gentle: bool)
    ensures Follows(Observed(FRESH, first.t1, first.t2, src), first, rho, gentle, 0)
    ensures Tracking(Observed(FRESH, first.t1, first.t2, src), first, rho, 0)
  {
    ObserveKeepsValid(FRESH, first.t1, first.t2, src);
    ResidualAfterInit(FRESH, first.t1, first.t2, src);
    assert Residual(Observed(FRESH, first.t1, first.t2, src)) == Residual(Initialise(FRESH, first.t1, first.t2, src));
  }

  ghost predicate TrackingAt(first: Stamp, obs: seq<Stamp>, gaps: Gaps, src: Source, rho: real, i: nat)
    requires i <= |obs|
  {
    Tracking(After(first, obs, gaps, src, i), Before(first, obs, i), rho, i)
  }

  ghost predicate LockedAt(first: Stamp, obs: seq<Stamp>, gaps: Gaps, src: Source, i: nat)
    requires i <= |obs|
  {
    StatusOf(After(first, obs, gaps, src, i)) == PtpLocked
  }

  ghost predicate FollowsAt(first: Stamp, obs: seq<Stamp>, gaps: Gaps, src: Source, rho: real, gentle: bool, i: nat)
    requires i <= |obs|
  {
    Follows(After(first, obs, gaps, src, i), Before(first, obs, i), rho, gentle, i)
  }

  /** Throughout the run, locked or not, every observation is accepted, the estimate is rho (1 - (7/8)^n), the residual
      is at most 8 * 2 ms (in a gentle run 1 ms) * (1 - (7/8)^n), and the error differs from it by at most the
      unpredicted part of the skew plus 1 ns. */
  lemma {:induction false} EveryObservationIsTaken(first: Stamp, obs: seq<Stamp>, gaps: Gaps, src: Source, rho: real,
      gentle: bool, n: nat)
    requires OnlyChecks(gaps, SeenAt(first, src)) && SkewedRun(first, obs, rho, gentle) && n <= |obs|
    ensures FollowsAt(first, obs, gaps, src, rho, gentle, n)
    ensures var c := After(first, obs, gaps, src, n);
      && c.freq == rho * (1.0 - Decay(n))
      && AbsReal(Residual(c) as real) <= 8.0 * (Limit(gentle) as real - Limit(gentle) as real * Decay(n))
    ensures n < |obs| ==> Taken(After(first, obs, gaps, src, n), Before(first, obs, n), obs[n], gentle, n)
    decreases n
  {
    hide OnlyChecks, After, Settling, Observed, Accepted, Error, Residual, Expected, NewError, Valid;
    AfterIsObserved(first, obs, gaps, src, n);
    if n == 0 {
      FirstFollows(first, src, rho, gentle);
    } else {
      EveryObservationIsTaken(first, obs, gaps, src, rho, gentle, n - 1);
      IntervalIsExpected(first, obs, gaps, src, rho, gentle, n - 1);
      FollowingStep(After(first, obs, gaps, src, n - 1), Before(first, obs, n - 1), obs[n - 1], rho, gentle, n - 1);
    }
    ClosedForms(rho, Limit(gentle) as real, n);
    if n < |obs| {
      IntervalIsExpected(first, obs, gaps, src, rho, gentle, n);
      FollowingError(After(first, obs, gaps, src, n), Before(first, obs, n), obs[n], rho, gentle, n);
    }
  }

  lemma {:induction false} IntervalIsExpected(first: Stamp, obs: seq<Stamp>, gaps: Gaps, src: Source, rho: real,
      gentle: bool, i: nat)
    requires SkewedRun(first, obs, rho, gentle) && i < |obs| && FollowsAt(first, obs, gaps, src, rho, gentle, i)
    ensures Expected(After(first, obs, gaps, src, i), obs[i], rho, gentle, i)
  {
    hide After, Settling, Residual, Valid, Expected;
    SkewedAt(first, obs, rho, gentle, |obs|, i);
    SkewIsExpected(After(first, obs, gaps, src, i), Before(first, obs, i), obs[i], rho, gentle, i);
  }

  lemma {:induction false} TrackingNext(first: Stamp, obs: seq<Stamp>, gaps: Gaps, src: Source, rho: real, i: nat)
    requires OnlyChecks(gaps, SeenAt(first, src)) && SkewedRun(first, obs, rho, true)
    requires i < |obs| && TrackingAt(first, obs, gaps, src, rho, i)
    ensures TrackingAt(first, obs, gaps, src, rho, i + 1) || LockedAt(first, obs, gaps, src, i + 1)
  {
    hide OnlyChecks, After, Settling, Observed, Residual, Valid, Expected;
    IntervalIsExpected(first, obs, gaps, src, rho, true, i);
    TrackingStep(After(first, obs, gaps, src, i), Before(first, obs, i), obs[i], rho, i);
    AfterIsObserved(first, obs, gaps, src, i + 1);
  }

  /** What goes on from one index to the next until an exit, and not for ever, comes to an exit. */
  lemma {:induction false} FirstExit(on: nat -> bool, exit: nat -> bool, i: nat, bound: nat) returns (n: nat)
    requires on(i) && !on(bound) && i <= bound
    requires forall j: nat {:trigger exit(j)} :: 0 < j <= bound && on(j - 1) ==> on(j) || exit(j)
    ensures i < n <= bound && exit(n) && forall j: nat :: i <= j < n ==> on(j)
    decreases bound - i
  {
    n := i + 1;
    if !exit(i + 1) {
      n := FirstExit(on, exit, i + 1, bound);
    }
  }

  lemma NoLongTracking(first: Stamp, obs: seq<Stamp>, gaps: Gaps, src: Source, rho: real, n: nat)
    requires 22 <= n <= |obs|
    ensures !TrackingAt(first, obs, gaps, src, rho, n)
  {
    if TrackingAt(first, obs, gaps, src, rho, n) {
      TrackingIsShort(After(first, obs, gaps, src, n), Before(first, obs, n), rho, n);
    }
  }

  lemma LocksBefore(first: Stamp, obs: seq<Stamp>, gaps: Gaps, src: Source, rho: real, bound: nat) returns (lock: nat)
    requires OnlyChecks(gaps, SeenAt(first, src)) && SkewedRun(first, obs, rho, true) && |obs| >= bound >= 22
    ensures 1 <= lock <= bound
    ensures LockedAt(first, obs, gaps, src, lock)
    ensures forall j: nat :: 0 <= j < lock ==> TrackingAt(first, obs, gaps, src, rho, j)
  {
    var on := (i: nat) => i <= |obs| && TrackingAt(first, obs, gaps, src, rho, i);
    var exit := (i: nat) => i <= |obs| && LockedAt(first, obs, gaps, src, i);
    FirstFollows(first, src, rho, true);
    AfterIsObserved(first, obs, gaps, src, 0);
    NoLongTracking(first, obs, gaps, src, rho, bound);
    forall j: nat | 0 < j <= bound && on(j - 1)
      ensures on(j) || exit(j)
    {
      TrackingNext(first, obs, gaps, src, rho, j - 1);
    }
    lock := FirstExit(on, exit, 0, bound);
    forall j: nat | 0 <= j < lock
      ensures TrackingAt(first, obs, gaps, src, rho, j)
    {
      assert on(j);
    }
  }

  /** In a gentle run, within 22 PTP observations after the first, which may come from media, the clock is PtpLocked for
      the first time, whatever stale checks are made around them as long as none expires; before that its residual is
      0. */
  lemma LocksWithin22(first: Stamp, obs: seq<Stamp>, gaps: Gaps, src: Source, rho: real) returns (lock: nat)
    requires OnlyChecks(gaps, SeenAt(first, src)) && SkewedRun(first, obs, rho, true) && |obs| >= 22
    ensures 1 <= lock <= 22
    ensures LockedAt(first, obs, gaps, src, lock)
    ensures forall i :: 0 <= i < lock ==>
              (var c := After(first, obs, gaps, src, i); c.acquiring && Residual(c) == 0)
  {
    lock := LocksBefore(first, obs, gaps, src, rho, 22);
    forall i | 0 <= i < lock
      ensures var c := After(first, obs, gaps, src, i); c.acquiring && Residual(c) == 0
    {
      assert TrackingAt(first, obs, gaps, src, rho, i);
    }
  }

  /** From the 33rd observation after the first on, in a gentle run from the 28th, the clock is PtpLocked for good: it
      never acquires again, and its status is PtpLocked until the streak wraps. */
  lemma {:induction false} LockedForGood(first: Stamp, obs: seq<Stamp>, gaps: Gaps, src: Source, rho: real,
      gentle: bool, n: nat)
    requires OnlyChecks(gaps, SeenAt(first, src)) && SkewedRun(first, obs, rho, gentle)
    requires Age(n, gentle) >= 33 && n <= |obs|
    ensures !After(first, obs, gaps, src, n).acquiring
    ensures n < STREAK_WRAP ==> LockedAt(first, obs, gaps, src, n)
  {
    hide OnlyChecks, After, Residual, Valid, SkewedRun, Reach, Share;
    EveryObservationIsTaken(first, obs, gaps, src, rho, gentle, n);
  }

  /** The error is at most what the estimate misses of the skew, plus 1 ns. */
  ghost predicate MissesShare(e: int, skew: int, k: nat) {
    AbsReal(e as real) <= AbsReal(skew as real * Decay(k)) + 1.0
  }

  lemma {:induction false} CaughtUpError(e: int, r: int, skew: int, gentle: bool, k: nat)
    requires NewError(e, r, skew, gentle, k) && r == 0
    ensures MissesShare(e, skew, k)
  {
    hide Deviates;
    ClosedForms(0.0, skew as real, k);
  }

  /** From the 71st on, in a gentle run from the 66th, nothing of what an early lock left over remains: the published
      overlay agrees with the master, and the next error is at most what the estimate misses of the skew, plus 1 ns. */
  lemma {:induction false} CatchesUp(first: Stamp, obs: seq<Stamp>, gaps: Gaps, src: Source, rho: real,
      gentle: bool, n: nat)
    requires OnlyChecks(gaps, SeenAt(first, src)) && SkewedRun(first, obs, rho, gentle)
    requires Age(n, gentle) >= 71 && n <= |obs|
    ensures var c := After(first, obs, gaps, src, n);
      && Residual(c) == 0
      && (n < |obs| ==> MissesShare(Error(c, obs[n].t1, obs[n].t2), Skew(c, obs[n]), n))
  {
    hide OnlyChecks, After, Residual, Valid, SkewedRun, Error, Accepted, NewError, MissesShare, Reach, Share;
    EveryObservationIsTaken(first, obs, gaps, src, rho, gentle, n);
    if n < |obs| {
      var c := After(first, obs, gaps, src, n);
      CaughtUpError(Error(c, obs[n].t1, obs[n].t2), Residual(c), Skew(c, obs[n]), gentle, n);
    }
  }

  // ---- a lock that is lost again ----

  const LOST_FIRST: Stamp := Stamp(1_000_000_000, 1_000_000_000)

  const LOST: seq<Stamp> := [
    Stamp(1_200_050_000, 1_200_000_000), Stamp(1_400_100_000, 1_400_000_000), Stamp(1_600_150_000, 1_600_000_000),
    Stamp(1_800_200_000, 1_800_000_000), Stamp(5_801_200_000, 5_800_000_000), Stamp(9_802_200_000, 9_800_000_000)]

  const LOST_RATIO: real := 0.00025

  lemma {:induction false} LostIsSkewed(n: nat)
    requires n <= |LOST|
    ensures SkewedUpTo(LOST_FIRST, LOST, LOST_RATIO, true, n)
  {
    if n > 0 {
      LostIsSkewed(n - 1);
    }
  }

  /** What decides the lock after n observations. */
  ghost predicate LostAt(gaps: Gaps, src: Source, n: nat, r: int, streak: u32, acquiring: bool)
    requires n <= |LOST|
  {
    var c := After(LOST_FIRST, LOST, gaps, src, n);
    Residual(c) == r && c.streak == streak && c.acquiring == acquiring
  }

  lemma {:induction false} LostStep(gaps: Gaps, src: Source, n: nat, r: int, streak: u32, acquiring: bool,
      skew: int, corr: int)
    requires OnlyChecks(gaps, SeenAt(LOST_FIRST, src)) && n < |LOST| && LostAt(gaps, src, n, r, streak, acquiring)
    requires corr == Correction(DiffI64(LOST[n].t2, Before(LOST_FIRST, LOST, n).t2), Estimate(LOST_RATIO, n))
    requires skew == DiffI64(LOST[n].t1, Before(LOST_FIRST, LOST, n).t1)
                     - DiffI64(LOST[n].t2, Before(LOST_FIRST, LOST, n).t2)
    ensures var e := r + skew - corr;
      var lock := LockAfter(streak, acquiring, Abs(e));
      LostAt(gaps, src, n + 1, e - Clamp(e, if acquiring then SLEW_ACQUIRE_NS else SLEW_LOCK_NS), lock.0, lock.1)
  {
    hide OnlyChecks, After, Residual, Valid, Error, Correction, Estimate, Observed, LockAfter, DiffI64, Clamp;
    var c := After(LOST_FIRST, LOST, gaps, src, n);
    LostIsSkewed(|LOST|);
    EveryObservationIsTaken(LOST_FIRST, LOST, gaps, src, LOST_RATIO, true, n);
    ErrorDecomposition(c, LOST[n].t1, LOST[n].t2);
    SteeredFields(c, LOST[n].t1, LOST[n].t2);
    AfterIsObserved(LOST_FIRST, LOST, gaps, src, n + 1);
  }

  /** Four short intervals lock the clock. */
  lemma {:induction false} LostStart(gaps: Gaps, src: Source)
    requires OnlyChecks(gaps, SeenAt(LOST_FIRST, src))
    ensures LostAt(gaps, src, 4, 0, 4, false)
  {
    hide OnlyChecks, After, Residual, Valid;
    LostIsSkewed(|LOST|);
    EveryObservationIsTaken(LOST_FIRST, LOST, gaps, src, LOST_RATIO, true, 0);
    LostStep(gaps, src, 0, 0, 0, true, 50_000, 0);
    LostStep(gaps, src, 1, 0, 1, true, 50_000, 6_250);
    LostStep(gaps, src, 2, 0, 2, true, 50_000, 11_718);
    LostStep(gaps, src, 3, 0, 3, true, 50_000, 16_503);
  }

  lemma {:induction false} LostEnd(gaps: Gaps, src: Source)
    requires OnlyChecks(gaps, SeenAt(LOST_FIRST, src)) && LostAt(gaps, src, 4, 0, 4, false)
    ensures LostAt(gaps, src, 6, 999_091, 0, true)
  {
    hide OnlyChecks, After, Residual, LostAt;
    LostStep(gaps, src, 4, 0, 4, false, 1_000_000, 413_818);
    LostStep(gaps, src, 5, 536_182, 4, false, 1_000_000, 487_091);
  }

  /** An early lock can be lost: after four short intervals the clock is locked with a poor estimate, the small slew
      cannot make up for the long intervals that follow, and the second of them unlocks it. */
  lemma {:induction false} EarlyLockIsLost(gaps: Gaps, src: Source)
    requires OnlyChecks(gaps, SeenAt(LOST_FIRST, src))
    ensures SkewedRun(LOST_FIRST, LOST, LOST_RATIO, true)
    ensures LockedAt(LOST_FIRST, LOST, gaps, src, 4)
    ensures After(LOST_FIRST, LOST, gaps, src, 6).acquiring && !LockedAt(LOST_FIRST, LOST, gaps, src, 6)
  {
    hide OnlyChecks, After, Residual, Valid, SkewedUpTo, Estimate;
    LostIsSkewed(|LOST|);
    EveryObservationIsTaken(LOST_FIRST, LOST, gaps, src, LOST_RATIO, true, 4);
    LostStart(gaps, src);
    LostEnd(gaps, src);
  }
}
