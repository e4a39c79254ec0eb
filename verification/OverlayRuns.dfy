/** What the servo guarantees over whole runs of observations and stale checks. */
module OverlayRuns {
  import opened Machine
  import opened Overlay

  datatype Event = Observe(t1: u64, t2: u64, source: Source) | StaleCheck(local: u64, idle: u64)

  function Next(c: Clock, e: Event): Clock {
    match e
    case Observe(t1, t2, source) => Observed(c, t1, t2, source)
    case StaleCheck(local, idle) => Staled(c, local, idle)
  }

  function Run(c: Clock, es: seq<Event>): Clock
    decreases |es|
  {
    if es == [] then c else Run(Next(c, es[0]), es[1..])
  }

  lemma NextKeepsValid(c: Clock, e: Event)
    requires Valid(c)
    ensures Valid(Next(c, e))
  {
    match e
    case Observe(t1, t2, source) => ObserveKeepsValid(c, t1, t2, source);
    case StaleCheck(_, _) =>
  }

  /** The residual, frequency and lock invariant holds in every state of every run. */
  lemma {:induction false} RunKeepsValid(c: Clock, es: seq<Event>)
    requires Valid(c)
    ensures Valid(Run(c, es))
    decreases |es|
  {
    if es != [] {
      NextKeepsValid(c, es[0]);
      RunKeepsValid(Next(c, es[0]), es[1..]);
    }
  }

  /** In every reachable state: no overflow in `error.abs()`, and the invariant's bounds. */
  lemma ReachableErrorsAreSmall(es: seq<Event>, t1: u64, t2: u64)
    ensures var c := Run(FRESH, es);
            && -MAX_PPM <= c.freq <= MAX_PPM
            && (c.streak >= LOCK_STREAK ==> !c.acquiring)
            && (c.initialized ==> Abs(Residual(c)) <= MAX_RESIDUAL_NS)
            && (c.initialized && IntervalOk(c, t1, t2) ==> Abs(Error(c, t1, t2)) <= MAX_ERROR_NS)
  {
    RunKeepsValid(FRESH, es);
    var c := Run(FRESH, es);
    if c.initialized && IntervalOk(c, t1, t2) {
      ErrorBounded(c, t1, t2);
    }
  }

  // ---- drift of the published overlay against local time ----

  predicate Publishes(c: Clock, e: Event) {
    e.Observe? && Accepted(c, e.t1, e.t2, e.source)
  }

  /** Number of publishes, local time and overlay time that passed from publish to publish. */
  datatype Totals = Totals(publishes: nat, local: int, overlay: int)

  function StepTotals(c: Clock, e: Event): Totals {
    if Publishes(c, e) then
      var l := LocalStep(c, e.t2);
      Totals(1, l, l + Correction(l, c.freq) + Applied(c, e.t1, e.t2))
    else Totals(0, 0, 0)
  }

  function Plus(a: Totals, b: Totals): Totals {
    Totals(a.publishes + b.publishes, a.local + b.local, a.overlay + b.overlay)
  }

  function Tally(c: Clock, es: seq<Event>): Totals
    decreases |es|
  {
    if es == [] then Totals(0, 0, 0) else Plus(StepTotals(c, es[0]), Tally(Next(c, es[0]), es[1..]))
  }

  /** Publishes are 200 ms to 4 s apart, and the overlay advances by local time give or take
      500 ppm and 1 ms a publish. */
  ghost predicate WithinDrift(t: Totals) {
    && MIN_INTERVAL_NS * t.publishes <= t.local <= MAX_INTERVAL_NS * t.publishes
    && AbsReal((t.overlay - t.local) as real) <= t.local as real * MAX_PPM + t.publishes as real * 1_000_000.0
  }

  /** The snapshot has moved on by these totals, as wrapping clocks. */
  ghost predicate MovedBy(c: Clock, c': Clock, t: Totals) {
    && c'.lastSync == WrapU64(c.lastSync + t.local)
    && Published(c') == WrapU64(Published(c) + t.overlay)
  }

  lemma StepWithinDrift(c: Clock, e: Event)
    requires Valid(c) && c.initialized
    ensures WithinDrift(StepTotals(c, e))
  {
    if Publishes(c, e) {
      var l, corr, a := LocalStep(c, e.t2), Correction(LocalStep(c, e.t2), c.freq), Applied(c, e.t1, e.t2);
      CorrectionBound(l, c.freq);
      ClampIsPart(Error(c, e.t1, e.t2), MaxStep(c));
      SumBound(corr, a, l as real * MAX_PPM, SLEW_ACQUIRE_NS);
    }
  }

  lemma SumBound(corr: int, a: int, ppm: real, step: nat)
    requires AbsReal(corr as real) <= ppm && Abs(a) <= step
    ensures AbsReal((corr + a) as real) <= ppm + step as real
  {
  }

  lemma StepMoves(c: Clock, e: Event)
    requires c.initialized
    ensures MovedBy(c, Next(c, e), StepTotals(c, e))
  {
    hide MovedBy, Steer, Correction, Applied;
    if Publishes(c, e) {
      AcceptedIsSteer(c, e.t1, e.t2, e.source);
      SteerMoves(c, e.t1, e.t2, e.source);
      MovesAlike(c, Steer(c, e.t1, e.t2, e.source), Next(c, e), StepTotals(c, e));
    } else {
      QuietStep(c, e);
    }
  }

  lemma MovesAlike(c: Clock, x: Clock, y: Clock, t: Totals)
    requires MovedBy(c, x, t) && y.lastSync == x.lastSync && y.shift == x.shift
    ensures MovedBy(c, y, t)
  {
  }

  lemma SteerMoves(c: Clock, t1: u64, t2: u64, source: Source)
    requires LocalStep(c, t2) > 0
    ensures var l := LocalStep(c, t2);
            MovedBy(c, Steer(c, t1, t2, source), Totals(1, l, l + Correction(l, c.freq) + Applied(c, t1, t2)))
  {
    var l, n, pred := LocalStep(c, t2), Steer(c, t1, t2, source), Predicted(c, t2);
    PublishedAfterSteer(c, t1, t2, source);
    var k0 := TurnsDiff(t2, c.lastSync);
    var k1 := TurnsShift(pred, Applied(c, t1, t2));
    var k2 := PredictedTurns(c, t2);
    var k3 := TurnsShift(c.lastSync, c.shift);
    MovedCore(c.lastSync, t2, l, k0, c.shift, Correction(l, c.freq), Applied(c, t1, t2), pred,
              Published(c), Published(n), k1, k2, k3);
  }

  lemma MovedCore(sync: u64, t2: u64, l: int, k0: int, shift: int, corr: int, a: int, pred: int,
      pub: int, pub': u64, k1: int, k2: int, k3: int)
    requires l == t2 - sync + k0 * TWO_64 && pub' == pred + a + k1 * TWO_64
    requires pred == t2 + shift + corr + k2 * TWO_64 && pub == sync + shift + k3 * TWO_64
    ensures t2 == WrapU64(sync + l) && pub' == WrapU64(pub + (l + corr + a))
  {
    SameWord(sync + l, t2, k0);
    SmallWord(t2);
    assert pub' == pub + (l + corr + a) + (k1 + k2 - k3 - k0) * TWO_64;
    SameWord(pub', pub + (l + corr + a), k1 + k2 - k3 - k0);
    SmallWord(pub');
  }

  lemma QuietStep(c: Clock, e: Event)
    requires c.initialized && !Publishes(c, e)
    ensures MovedBy(c, Next(c, e), Totals(0, 0, 0))
  {
    SmallWord(c.lastSync);
    SmallWord(Published(c));
    assert Next(c, e).lastSync == c.lastSync && Next(c, e).shift == c.shift;
  }

  lemma NextStaysInitialised(c: Clock, e: Event)
    requires c.initialized
    ensures Next(c, e).initialized
  {
  }

  /** Over any run the overlay moves strictly forward from publish to publish, and its total
      distance from local time stays within 500 ppm plus 1 ms a publish, hence within 0.55 %. */
  lemma DriftIsBounded(c: Clock, es: seq<Event>) returns (t: Totals)
    requires Valid(c) && c.initialized
    ensures t == Tally(c, es)
    ensures WithinDrift(t)
    ensures AbsReal((t.overlay - t.local) as real) <= t.local as real * 0.0055
    ensures t.publishes > 0 ==> 0 < t.overlay
    ensures MovedBy(c, Run(c, es), t)
  {
    t := Tally(c, es);
    TallyWithinDrift(c, es);
    TallyMoves(c, es);
    DriftAsRatio(t);
  }

  lemma {:induction false} TallyWithinDrift(c: Clock, es: seq<Event>)
    requires Valid(c) && c.initialized
    ensures WithinDrift(Tally(c, es))
    decreases |es|
  {
    if es != [] {
      NextKeepsValid(c, es[0]);
      NextStaysInitialised(c, es[0]);
      StepWithinDrift(c, es[0]);
      TallyWithinDrift(Next(c, es[0]), es[1..]);
      DriftAdds(StepTotals(c, es[0]), Tally(Next(c, es[0]), es[1..]));
    }
  }

  lemma {:induction false} TallyMoves(c: Clock, es: seq<Event>)
    requires c.initialized
    ensures MovedBy(c, Run(c, es), Tally(c, es))
    decreases |es|
  {
    if es == [] {
      SmallWord(c.lastSync);
      SmallWord(Published(c));
    } else {
      var n := Next(c, es[0]);
      NextStaysInitialised(c, es[0]);
      StepMoves(c, es[0]);
      TallyMoves(n, es[1..]);
      MovesCompose(c, n, Run(n, es[1..]), StepTotals(c, es[0]), Tally(n, es[1..]));
    }
  }

  lemma DriftAdds(a: Totals, b: Totals)
    requires WithinDrift(a) && WithinDrift(b)
    ensures WithinDrift(Plus(a, b))
  {
  }

  lemma MovesCompose(x: Clock, y: Clock, z: Clock, a: Totals, b: Totals)
    requires MovedBy(x, y, a) && MovedBy(y, z, b)
    ensures MovedBy(x, z, Plus(a, b))
  {
    WrapChain(x.lastSync, a.local, b.local);
    WrapChain(Published(x), a.overlay, b.overlay);
  }

  lemma DriftAsRatio(t: Totals)
    requires WithinDrift(t)
    ensures AbsReal((t.overlay - t.local) as real) <= t.local as real * 0.0055
    ensures t.publishes > 0 ==> 0 < t.overlay
  {
    assert 200_000_000.0 * t.publishes as real <= t.local as real;
  }

  // ---- the lock ----

  /** Once locked, a publish moves the overlay off its prediction by at most 50 us. */
  lemma LockedStepIsSmall(c: Clock, t1: u64, t2: u64, source: Source)
    requires Valid(c) && StatusOf(c) == PtpLocked && Accepted(c, t1, t2, source)
    ensures var n := Observed(c, t1, t2, source);
            var before, after := Predicted(c, t2), OverlayAt(t2, n.lastSync, n.shift, n.freq);
            && Abs(DiffI64(after, before)) <= SLEW_LOCK_NS
            && DiffI64(after, before) == Applied(c, t1, t2)
  {
    ReadingAfterPublish(c, t1, t2, source);
    ClampIsPart(Error(c, t1, t2), MaxStep(c));
  }

  /** Reading the clock at t2 just after a publish gives the old reading moved by the applied step. */
  lemma ReadingAfterPublish(c: Clock, t1: u64, t2: u64, source: Source)
    requires Accepted(c, t1, t2, source)
    ensures var n := Observed(c, t1, t2, source);
            DiffI64(OverlayAt(t2, n.lastSync, n.shift, n.freq), Predicted(c, t2)) == Applied(c, t1, t2)
  {
    AcceptedIsSteer(c, t1, t2, source);
    var n := Steer(c, t1, t2, source);
    PublishedAfterSteer(c, t1, t2, source);
    ZeroElapsed(t2, n.shift, n.freq);
    ClampIsPart(Error(c, t1, t2), MaxStep(c));
    DiffOfShift(Predicted(c, t2), Applied(c, t1, t2));
  }

  lemma ZeroElapsed(t2: u64, shift: i64, freq: real)
    ensures OverlayAt(t2, t2, shift, freq) == ShiftU64(t2, shift)
  {
    assert Correction(0, freq) == 0;
  }

  lemma DiffOfShift(p: u64, a: i64)
    requires Abs(a) <= SLEW_ACQUIRE_NS
    ensures DiffI64(ShiftU64(p, a), p) == a
  {
  }

  predicate MediaOrStale(es: seq<Event>) {
    forall i :: 0 <= i < |es| ==> es[i].StaleCheck? || es[i].source.Media?
  }

  /** A locked clock ignores any run of media observations and stale checks. */
  lemma {:induction false} MediaCannotDisturbLock(c: Clock, es: seq<Event>)
    requires StatusOf(c) == PtpLocked && MediaOrStale(es)
    ensures Run(c, es) == c.(lastMediaT2 := Run(c, es).lastMediaT2)
    decreases |es|
  {
    if es != [] {
      MediaCannotDisturbLock(Next(c, es[0]), es[1..]);
    }
  }

  /** How a PTP observation changes the two fields the status is read from. */
  lemma PtpStatusFields(c: Clock, t1: u64, t2: u64)
    requires c.initialized
    ensures var n := Observed(c, t1, t2, Ptp);
            if Accepted(c, t1, t2, Ptp)
            then n.source == PtpSource && n.streak == LockAfter(c.streak, c.acquiring, Abs(Error(c, t1, t2))).0
            else n == c
  {
  }

  lemma StreakAfter(c: Clock, error: int)
    ensures var s := LockAfter(c.streak, c.acquiring, Abs(error)).0;
            s >= LOCK_STREAK <==>
              (|| (Abs(error) < LOCK_ERR_NS && LOCK_STREAK - 1 <= c.streak < STREAK_WRAP - 1)
               || (LOCK_ERR_NS <= Abs(error) <= UNLOCK_ERR_NS && c.streak >= LOCK_STREAK))
  {
  }

  /** Exactly which event leaves PtpLocked: an accepted PTP observation that is more than 1 ms off
      (or the u32 streak counter wrapping after 2^32 good observations in a row). */
  lemma LeavingLock(c: Clock, e: Event)
    requires Valid(c) && c.initialized && StatusOf(c) == PtpLocked
    ensures StatusOf(Next(c, e)) != PtpLocked <==>
              && Publishes(c, e) && e.source.Ptp?
              && (|| Abs(Error(c, e.t1, e.t2)) > UNLOCK_ERR_NS
                  || (Abs(Error(c, e.t1, e.t2)) < LOCK_ERR_NS && c.streak == STREAK_WRAP - 1))
  {
    if e.Observe? && e.source.Ptp? {
      PtpStatusFields(c, e.t1, e.t2);
      StreakAfter(c, Error(c, e.t1, e.t2));
    } else {
      assert MediaOrStale([e]);
      MediaCannotDisturbLock(c, [e]);
      assert Run(c, [e]) == Next(c, e);
    }
  }

  /** Exactly which event enters PtpLocked. */
  lemma EnteringLock(c: Clock, e: Event)
    requires Valid(c) && StatusOf(c) != PtpLocked
    ensures StatusOf(Next(c, e)) == PtpLocked <==>
              && Publishes(c, e) && e.source.Ptp?
              && (|| (Abs(Error(c, e.t1, e.t2)) < LOCK_ERR_NS && LOCK_STREAK - 1 <= c.streak < STREAK_WRAP - 1)
                  || (LOCK_ERR_NS <= Abs(Error(c, e.t1, e.t2)) <= UNLOCK_ERR_NS && c.streak >= LOCK_STREAK))
  {
    if e.StaleCheck? {
    } else if e.source.Media? {
      MediaCannotLock(c, e);
    } else if c.initialized {
      PtpStatusFields(c, e.t1, e.t2);
      StreakAfter(c, Error(c, e.t1, e.t2));
    }
  }

  lemma MediaCannotLock(c: Clock, e: Event)
    requires Valid(c) && StatusOf(c) != PtpLocked && e.Observe? && e.source.Media?
    ensures StatusOf(Next(c, e)) != PtpLocked
  {
  }

  // ---- "four consecutive good errors", as the code counts them ----

  /** The clock after the first n events. */
  function ClockAt(es: seq<Event>, n: nat): Clock
    requires n <= |es|
  {
    if n == 0 then FRESH else Next(ClockAt(es, n - 1), es[n - 1])
  }

  lemma {:induction false} RunSnoc(c: Clock, es: seq<Event>, e: Event)
    ensures Run(c, es + [e]) == Next(Run(c, es), e)
    decreases |es|
  {
    hide Next;
    if es == [] {
      assert [e][1..] == [];
    } else {
      assert (es + [e])[1..] == es[1..] + [e];
      RunSnoc(Next(c, es[0]), es[1..], e);
    }
  }

  lemma {:induction false} ClockAtIsRun(es: seq<Event>, n: nat)
    requires n <= |es|
    ensures ClockAt(es, n) == Run(FRESH, es[..n])
  {
    hide Next;
    if n > 0 {
      ClockAtIsRun(es, n - 1);
      RunSnoc(FRESH, es[..n - 1], es[n - 1]);
      assert es[..n] == es[..n - 1] + [es[n - 1]];
    }
  }

  /** The size of the error of an accepted observation. */
  function Magnitude(c: Clock, e: Event): nat
    requires Publishes(c, e)
  {
    Abs(Error(c, e.t1, e.t2))
  }

  /** Event j is an accepted observation with an error below 100 us. */
  predicate Good(es: seq<Event>, j: nat)
    requires j < |es|
  {
    Publishes(ClockAt(es, j), es[j]) && Magnitude(ClockAt(es, j), es[j]) < LOCK_ERR_NS
  }

  /** Event j is an accepted observation with an error above 1 ms. */
  predicate Bad(es: seq<Event>, j: nat)
    requires j < |es|
  {
    Publishes(ClockAt(es, j), es[j]) && Magnitude(ClockAt(es, j), es[j]) > UNLOCK_ERR_NS
  }

  /** The stale check finds media seen, but too long ago, and the clock not locked to PTP. */
  predicate Expires(c: Clock, e: Event) {
    && e.StaleCheck? && StatusOf(c) != PtpLocked
    && c.lastMediaT2 != 0 && SubU64(e.local, c.lastMediaT2) > e.idle
  }

  /** Event j sets the streak back to 0. */
  predicate Resets(es: seq<Event>, j: nat)
    requires j < |es|
  {
    Bad(es, j) || Expires(ClockAt(es, j), es[j])
  }

  /** Just after the last reset among the first n events. */
  function AfterReset(es: seq<Event>, n: nat): (r: nat)
    requires n <= |es|
    ensures r <= n && (r > 0 ==> Resets(es, r - 1))
    ensures forall j: nat :: r <= j < n ==> !Resets(es, j)
  {
    hide Bad, Expires, ClockAt;
    if n == 0 || Resets(es, n - 1) then n else AfterReset(es, n - 1)
  }

  /** Just after the last bad error among the first n events; stale checks do not count here. */
  function AfterBad(es: seq<Event>, n: nat): (r: nat)
    requires n <= |es|
    ensures r <= n && (r > 0 ==> Bad(es, r - 1))
    ensures forall j: nat :: r <= j < n ==> !Bad(es, j)
  {
    hide Publishes, Magnitude, ClockAt;
    if n == 0 || Bad(es, n - 1) then n else AfterBad(es, n - 1)
  }

  /** The good errors among events `from` to n. */
  function GoodIn(es: seq<Event>, from: nat, n: nat): set<nat>
    requires n <= |es|
  {
    set j: nat | from <= j < n && Good(es, j)
  }

  /** How many good errors the first n events brought since the last reset. */
  function GoodSince(es: seq<Event>, n: nat): nat
    requires n <= |es|
  {
    |GoodIn(es, AfterReset(es, n), n)|
  }

  lemma {:induction false} OneMoreEvent(es: seq<Event>, from: nat, n: nat)
    requires from <= n < |es|
    ensures |GoodIn(es, from, n + 1)| == |GoodIn(es, from, n)| + (if Good(es, n) then 1 else 0)
  {
    hide Good;
    var before := GoodIn(es, from, n);
    assert GoodIn(es, from, n + 1) == if Good(es, n) then before + {n} else before;
  }

  /** How one event changes the lock pair. */
  lemma {:induction false} LockStep(c: Clock, e: Event)
    requires Valid(c)
    ensures var n := Next(c, e);
      (n.streak, n.acquiring)
        == if Publishes(c, e) then LockAfter(c.streak, c.acquiring, Magnitude(c, e))
           else if Expires(c, e) then (0, c.acquiring)
           else (c.streak, c.acquiring)
  {
    hide Residual, LockAfter, OverlayAt;
    if Publishes(c, e) {
      AcceptedIsSteer(c, e.t1, e.t2, e.source);
    } else if e.Observe? && c.initialized {
      QuietObservation(c, e);
    }
  }

  lemma {:induction false} QuietObservation(c: Clock, e: Event)
    requires e.Observe? && c.initialized && !Publishes(c, e)
    ensures Next(c, e).streak == c.streak && Next(c, e).acquiring == c.acquiring
  {
    hide OverlayAt, DiffI64, LockAfter;
  }

  /** The streak never reached 4 since the last bad error. */
  ghost predicate StillAcquiring(es: seq<Event>, n: nat)
    requires n <= |es|
  {
    forall m: nat :: AfterBad(es, n) <= m <= n ==> GoodSince(es, m) < LOCK_STREAK
  }

  lemma {:induction false} GoodSinceStep(es: seq<Event>, n: nat)
    requires n < |es|
    ensures GoodSince(es, n + 1)
      == if Resets(es, n) then 0 else if Good(es, n) then GoodSince(es, n) + 1 else GoodSince(es, n)
  {
    hide Good, Resets;
    if !Resets(es, n) {
      OneMoreEvent(es, AfterReset(es, n), n);
    }
  }

  lemma {:induction false} AcquiringStep(es: seq<Event>, n: nat)
    requires n < |es|
    ensures StillAcquiring(es, n + 1)
      <==> (Bad(es, n) || StillAcquiring(es, n)) && GoodSince(es, n + 1) < LOCK_STREAK
  {
    hide GoodSince, Bad;
  }

  /** The lock pair of c is what g good errors and the flag say. */
  ghost predicate Counted(c: Clock, g: nat, still: bool) {
    c.streak == g % STREAK_WRAP && (c.acquiring <==> still) && (still ==> g < LOCK_STREAK)
  }

  lemma {:induction false} LockIsCounted(es: seq<Event>, n: nat)
    requires n <= |es|
    ensures Valid(ClockAt(es, n)) && Counted(ClockAt(es, n), GoodSince(es, n), StillAcquiring(es, n))
  {
    if n == 0 {
      assert GoodIn(es, 0, 0) == {};
    } else {
      hide Valid, Counted, Next, GoodSince, StillAcquiring;
      LockIsCounted(es, n - 1);
      NextKeepsValid(ClockAt(es, n - 1), es[n - 1]);
      CountedStep(es, n - 1);
    }
  }

  lemma {:induction false} CountedStep(es: seq<Event>, n: nat)
    requires n < |es|
    requires Valid(ClockAt(es, n)) && Counted(ClockAt(es, n), GoodSince(es, n), StillAcquiring(es, n))
    ensures Counted(ClockAt(es, n + 1), GoodSince(es, n + 1), StillAcquiring(es, n + 1))
  {
    hide Next, Publishes, Magnitude, Valid, Expires, GoodSince, StillAcquiring, LockAfter, Counted;
    var c, e := ClockAt(es, n), es[n];
    LockStep(c, e);
    GoodSinceStep(es, n);
    AcquiringStep(es, n);
    QuietResets(c, e);
    LockCore(c, ClockAt(es, n + 1), GoodSince(es, n), StillAcquiring(es, n), GoodSince(es, n + 1),
             StillAcquiring(es, n + 1), Publishes(c, e), if Publishes(c, e) then Magnitude(c, e) else 0,
             Expires(c, e));
  }

  /** The count g and the flag `still` follow the lock pair through one event. */
  lemma LockCore(c: Clock, n: Clock, g: nat, still: bool, g': nat, still': bool,
                 publishes: bool, magnitude: nat, expires: bool)
    requires Counted(c, g, still)
    requires !(publishes && expires)
    requires (n.streak, n.acquiring)
      == if publishes then LockAfter(c.streak, c.acquiring, magnitude)
         else if expires then (0, c.acquiring) else (c.streak, c.acquiring)
    requires g' == if (publishes && magnitude > UNLOCK_ERR_NS) || expires then 0
                   else if publishes && magnitude < LOCK_ERR_NS then g + 1 else g
    requires still' <==> ((publishes && magnitude > UNLOCK_ERR_NS) || still) && g' < LOCK_STREAK
    ensures Counted(n, g', still')
  {
    CountStep(g);
  }

  /** Only an observation can publish, and only a stale check can expire. */
  lemma QuietResets(c: Clock, e: Event)
    ensures !(Publishes(c, e) && Expires(c, e))
  {
  }

  lemma CountStep(g: nat)
    ensures (g % STREAK_WRAP + 1) % STREAK_WRAP == (g + 1) % STREAK_WRAP
    ensures g < LOCK_STREAK ==> g % STREAK_WRAP == g && (g % STREAK_WRAP + 1) % STREAK_WRAP == g + 1
  {
  }

  /** After any run: the streak counts the errors below 100 us since the last accepted error above 1 ms or
      effective stale check, in 32 bits; and the clock acquires exactly while that count has not reached 4
      since the last accepted error above 1 ms. Errors in between and rejected observations do not matter. */
  lemma {:induction false} LockCountsGoodErrors(es: seq<Event>)
    ensures Run(FRESH, es).streak == GoodSince(es, |es|) % STREAK_WRAP
    ensures Run(FRESH, es).acquiring
      <==> forall m: nat :: AfterBad(es, |es|) <= m <= |es| ==> GoodSince(es, m) < LOCK_STREAK
  {
    hide Next, GoodSince, AfterBad;
    ClockAtIsRun(es, |es|);
    assert es[..|es|] == es;
    LockIsCounted(es, |es|);
  }

  function Observations(es: seq<Event>): nat { |set j: nat | 0 <= j < |es| && es[j].Observe?| }

  lemma SubsetSize(a: set<nat>, b: set<nat>)
    requires a <= b
    ensures |a| <= |b|
  {
    assert b == a + (b - a);
  }

  /** Below 2^32 observations: locked to PTP means that PTP published last and that at least four good errors
      came since the last reset, consecutive or not. */
  lemma {:induction false} LockedIsFourGoodErrors(es: seq<Event>)
    requires Observations(es) < STREAK_WRAP
    ensures Run(FRESH, es).streak == GoodSince(es, |es|)
    ensures StatusOf(Run(FRESH, es)) == PtpLocked
      <==> Run(FRESH, es).source == PtpSource && GoodSince(es, |es|) >= LOCK_STREAK
  {
    hide Run, AfterReset, GoodSince, Observations, AfterBad;
    LockCountsGoodErrors(es);
    GoodAreObserved(es);
    SmallCount(GoodSince(es, |es|));
  }

  lemma {:induction false} GoodAreObserved(es: seq<Event>)
    ensures GoodSince(es, |es|) <= Observations(es)
  {
    hide AfterReset, ClockAt, Accepted, Magnitude;
    SubsetSize(GoodIn(es, AfterReset(es, |es|), |es|), set j: nat | 0 <= j < |es| && es[j].Observe?);
  }

  lemma SmallCount(g: nat)
    requires g < STREAK_WRAP
    ensures g % STREAK_WRAP == g
  {
  }

  // ---- where the documented rule fails ----

  /** A clock whose last observation left nothing to correct. */
  function Settled(t1: u64, t2: u64, freq: real, streak: u32, acquiring: bool, source: SourceTag, media: u64): Clock {
    Clock(t2, DiffI64(t1, t2), freq, t1, streak, acquiring, source, media, true)
  }

  const INTERRUPTED: seq<Event> := [
    Observe(1_000_000_000, 1_000_000_000, Ptp), Observe(2_000_000_000, 2_000_000_000, Ptp),
    Observe(3_000_500_000, 3_000_000_000, Ptp), Observe(4_000_562_500, 4_000_000_000, Ptp),
    Observe(5_000_125_000, 5_000_000_000, Ptp), Observe(6_000_125_000, 6_000_000_000, Ptp),
    Observe(7_000_625_000, 7_000_000_000, Ptp), Observe(8_000_687_500, 8_000_000_000, Ptp)]

  lemma SecondError(c: Clock, t1: u64, t2: u64, skew: int, corr: int)
    requires c.shift == DiffI64(c.lastMaster, c.lastSync)
    requires t2 == c.lastSync + 1_000_000_000 && t1 == c.lastMaster + 1_000_000_000 + skew
    requires c.lastSync <= c.lastMaster && t1 < TWO_63 && -1_000_000 <= skew <= 1_000_000
    requires corr as real == 1_000_000_000.0 * c.freq && -2_000_000 <= corr <= 2_000_000
    ensures Error(c, t1, t2) == skew - corr
  {
    assert Correction(1_000_000_000, c.freq) == corr;
  }

  /** An acquiring clock makes up an error of up to 1 ms at once. */
  lemma AppliedWhole(c: Clock, t1: u64, t2: u64)
    requires c.acquiring && Abs(Error(c, t1, t2)) <= SLEW_ACQUIRE_NS
    ensures Applied(c, t1, t2) == Error(c, t1, t2)
    ensures ShiftU64(Predicted(c, t2), Error(c, t1, t2)) == t1
  {
    ShiftByDiff(t1, Predicted(c, t2));
  }

  /** One PTP observation a second after the last, at a clock with nothing left to correct. */
  lemma SecondLater(c: Clock, t1: u64, t2: u64, skew: int, corr: int, error: int, freq: real)
    requires c == Settled(c.lastMaster, c.lastSync, c.freq, c.streak, true, PtpSource, c.lastMediaT2)
    requires t2 == c.lastSync + 1_000_000_000 && t1 == c.lastMaster + 1_000_000_000 + skew
    requires c.lastSync <= c.lastMaster && t1 < TWO_63 && -1_000_000 <= skew <= 1_000_000
    requires corr as real == 1_000_000_000.0 * c.freq && error == skew - corr && -1_000_000 <= error <= 1_000_000
    requires freq == 0.875 * c.freq + 0.125 * ClampReal(skew as real / 1_000_000_000.0, MAX_PPM)
    ensures Accepted(c, t1, t2, Ptp) && Error(c, t1, t2) == error
    ensures var lock := LockAfter(c.streak, true, Abs(error));
      Observed(c, t1, t2, Ptp) == Settled(t1, t2, freq, lock.0, lock.1, PtpSource, c.lastMediaT2)
  {
    assert LocalStep(c, t2) == 1_000_000_000 && MasterStep(c, t1) == 1_000_000_000 + skew;
    SecondError(c, t1, t2, skew, corr);
    hide Error, Correction, OverlayAt, Predicted;
    AppliedWhole(c, t1, t2);
    assert Frequency(c, t1, t2) == freq by {
      assert (1_000_000_000 + skew) as real / 1_000_000_000.0 - 1.0 == skew as real / 1_000_000_000.0;
    }
  }

  /** The same, as the n-th event of a run. */
  lemma {:induction false} SecondInRun(es: seq<Event>, n: nat, c: Clock, skew: int, corr: int, error: int, freq: real)
    requires n < |es| && ClockAt(es, n) == c && es[n].Observe? && es[n].source.Ptp?
    requires c == Settled(c.lastMaster, c.lastSync, c.freq, c.streak, true, PtpSource, c.lastMediaT2)
    requires es[n].t2 == c.lastSync + 1_000_000_000 && es[n].t1 == c.lastMaster + 1_000_000_000 + skew
    requires c.lastSync <= c.lastMaster && es[n].t1 < TWO_63 && -1_000_000 <= skew <= 1_000_000
    requires corr as real == 1_000_000_000.0 * c.freq && error == skew - corr && -1_000_000 <= error <= 1_000_000
    requires freq == 0.875 * c.freq + 0.125 * ClampReal(skew as real / 1_000_000_000.0, MAX_PPM)
    ensures Publishes(ClockAt(es, n), es[n]) && (Good(es, n) <==> Abs(error) < LOCK_ERR_NS)
    ensures var lock := LockAfter(c.streak, true, Abs(error));
      ClockAt(es, n + 1) == Settled(es[n].t1, es[n].t2, freq, lock.0, lock.1, PtpSource, c.lastMediaT2)
  {
    hide Settled, ClampReal, Observed, Accepted, Error, LockAfter;
    SecondLater(c, es[n].t1, es[n].t2, skew, corr, error, freq);
  }

  lemma {:induction false} InterruptedFirst()
    ensures ClockAt(INTERRUPTED, 1) == Settled(1_000_000_000, 1_000_000_000, 0.0, 0, true, PtpSource, 0)
    ensures !Good(INTERRUPTED, 0)
  {
    assert ClockAt(INTERRUPTED, 0) == FRESH;
  }

  lemma {:induction false} InterruptedStart()
    ensures var es := INTERRUPTED;
      && ClockAt(es, 5) == Settled(5_000_125_000, 5_000_000_000, 0.0, 2, true, PtpSource, 0)
      && !Good(es, 0) && !Good(es, 2) && !Good(es, 4)
      && forall i :: 1 <= i < 5 ==> Publishes(ClockAt(es, i), es[i])
  {
    var es := INTERRUPTED;
    hide ClockAt, Good, Publishes, Run;
    InterruptedFirst();
    SecondInRun(es, 1, ClockAt(es, 1), 0, 0, 0, 0.0);
    SecondInRun(es, 2, ClockAt(es, 2), 500_000, 0, 500_000, 0.0000625);
    SecondInRun(es, 3, ClockAt(es, 3), 62_500, 62_500, 0, 0.0000625);
    SecondInRun(es, 4, ClockAt(es, 4), -437_500, 62_500, -500_000, 0.0);
  }

  /** Seven accepted observations, no two good ones in a row, and the clock is locked to PTP. */
  lemma {:induction false} InterruptedErrorsLock()
    ensures forall i :: 1 <= i < |INTERRUPTED| ==> Publishes(ClockAt(INTERRUPTED, i), INTERRUPTED[i])
    ensures forall i :: 0 <= i < |INTERRUPTED| - 1 ==> !(Good(INTERRUPTED, i) && Good(INTERRUPTED, i + 1))
    ensures StatusOf(Run(FRESH, INTERRUPTED)) == PtpLocked
  {
    var es := INTERRUPTED;
    hide ClockAt, Good, Publishes, Run;
    InterruptedStart();
    SecondInRun(es, 5, ClockAt(es, 5), 0, 0, 0, 0.0);
    SecondInRun(es, 6, ClockAt(es, 6), 500_000, 0, 500_000, 0.0000625);
    SecondInRun(es, 7, ClockAt(es, 7), 62_500, 62_500, 0, 0.0000625);
    ClockAtIsRun(es, 8);
    assert es[..8] == es;
  }

  /** Media once, then four PTP observations without any error, with a stale check before the last. */
  const STALE_BETWEEN: seq<Event> := [
    Observe(1_000_000_000, 1_000_000_000, Media), Observe(1_300_000_000, 1_300_000_000, Ptp),
    Observe(1_600_000_000, 1_600_000_000, Ptp), Observe(1_900_000_000, 1_900_000_000, Ptp),
    StaleCheck(2_100_000_000, 1_000_000_000), Observe(2_200_000_000, 2_200_000_000, Ptp)]

  /** A PTP observation 300 ms later that is exactly right. */
  lemma {:induction false} ExactInRun(es: seq<Event>, n: nat, c: Clock)
    requires n < |es| && ClockAt(es, n) == c && es[n].Observe? && es[n].source.Ptp?
    requires c == Settled(c.lastSync, c.lastSync, 0.0, c.streak, true, c.source, c.lastMediaT2)
    requires es[n].t1 == es[n].t2 == c.lastSync + 300_000_000 < TWO_63
    ensures Good(es, n)
    ensures var lock := LockAfter(c.streak, true, 0);
      ClockAt(es, n + 1) == Settled(es[n].t1, es[n].t2, 0.0, lock.0, lock.1, PtpSource, c.lastMediaT2)
  {
    var t := es[n].t2;
    assert LocalStep(c, t) == 300_000_000 && MasterStep(c, t) == 300_000_000;
    assert Correction(300_000_000, 0.0) == 0;
    assert Error(c, t, t) == 0;
    hide Error, Correction, OverlayAt, Predicted;
  }

  lemma {:induction false} StreakOfThree()
    ensures var es := STALE_BETWEEN;
      && ClockAt(es, 4) == Settled(1_900_000_000, 1_900_000_000, 0.0, 3, true, PtpSource, 1_000_000_000)
      && Good(es, 1) && Good(es, 2) && Good(es, 3) && !Bad(es, 0)
  {
    var es := STALE_BETWEEN;
    assert ClockAt(es, 0) == FRESH && !Bad(es, 0);
    assert ClockAt(es, 1)
      == Settled(1_000_000_000, 1_000_000_000, 0.0, 0, true, MediaSource, 1_000_000_000);
    hide ClockAt, Good, Bad;
    ExactInRun(es, 1, ClockAt(es, 1));
    ExactInRun(es, 2, ClockAt(es, 2));
    ExactInRun(es, 3, ClockAt(es, 3));
  }

  lemma {:induction false} StreakIsTaken()
    requires ClockAt(STALE_BETWEEN, 4)
      == Settled(1_900_000_000, 1_900_000_000, 0.0, 3, true, PtpSource, 1_000_000_000)
    ensures ClockAt(STALE_BETWEEN, 5)
      == Settled(1_900_000_000, 1_900_000_000, 0.0, 0, true, NoSource, 1_000_000_000)
    ensures !Bad(STALE_BETWEEN, 4)
  {
    var c, e := ClockAt(STALE_BETWEEN, 4), STALE_BETWEEN[4];
    assert ClockAt(STALE_BETWEEN, 5) == Next(c, e);
    hide ClockAt;
  }

  /** Four good errors and nothing bad between them, but the clock is not locked: the stale check took the streak. */
  lemma {:induction false} StaleCheckBreaksStreak()
    ensures Good(STALE_BETWEEN, 1) && Good(STALE_BETWEEN, 2) && Good(STALE_BETWEEN, 3) && Good(STALE_BETWEEN, 5)
    ensures !Bad(STALE_BETWEEN, 4)
    ensures var c := Run(FRESH, STALE_BETWEEN);
      c.streak == 1 && c.acquiring && StatusOf(c) != PtpLocked
  {
    var es := STALE_BETWEEN;
    hide ClockAt, Good, Bad, Run;
    StreakOfThree();
    StreakIsTaken();
    ExactInRun(es, 5, ClockAt(es, 5));
    ClockAtIsRun(es, 6);
    assert es[..6] == es;
  }

  /** Media was seen at `media` and every PTP observation is followed by a stale check that finds it too old. */
  ghost predicate Starved(media: u64, es: seq<Event>)
    decreases |es|
  {
    if es == [] then true
    else if es[0].StaleCheck? then Starved(media, es[1..])
    else
      && es[0].source.Ptp?
      && (|es| > 1 ==> && es[1].StaleCheck? && SubU64(es[1].local, media) > es[1].idle
                       && Starved(media, es[2..]))
  }

  /** Once media was seen and has gone stale, stale checks between the PTP observations keep a clock without
      a streak from ever locking to PTP, however good the observations are. */
  lemma {:induction false} StaleMediaStarvesLock(c: Clock, es: seq<Event>)
    requires c.initialized && c.streak == 0 && c.lastMediaT2 != 0 && Starved(c.lastMediaT2, es)
    ensures StatusOf(Run(c, es)) != PtpLocked
    decreases |es|
  {
    if es == [] {
    } else if es[0].StaleCheck? {
      StaleMediaStarvesLock(Next(c, es[0]), es[1..]);
    } else {
      var n := Next(c, es[0]);
      PtpStatusFields(c, es[0].t1, es[0].t2);
      assert n.streak <= 1 && n.lastMediaT2 == c.lastMediaT2 && n.initialized;
      hide Observed, Accepted;
      if |es| == 1 {
        assert Run(n, []) == n;
      } else {
        assert es[1..][0] == es[1] && es[1..][1..] == es[2..];
        StaleMediaStarvesLock(Next(n, es[1]), es[2..]);
      }
    }
  }
}
