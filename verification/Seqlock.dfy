/** The sequence lock around the overlay snapshot: one writer and any number of readers, interleaved
    at every single load and store. */
module Seqlock {
  import opened Machine

  datatype Snapshot = Snapshot(lastSync: u64, shift: i64, freq: real)

  /** The shared atomics. `count` is the atomic `seq`, taken not to wrap. */
  datatype Memory = Memory(count: nat, lastSync: u64, shift: i64, freq: real, initialized: bool)

  /** Where the writer is: between publishes, or before its n-th store of `next`; the very first
      publish is followed by the store to `initialized`. */
  datatype Writer =
    | Idle
    | StoreSync(next: Snapshot)
    | StoreShift(next: Snapshot)
    | StoreFreq(next: Snapshot)
    | Close(next: Snapshot)
    | SetInitialized

  /** Where a reader of `now_ns` is, with what it has loaded; `began` is the first load of this try. */
  datatype Reader =
    | Outside
    | LoadSeq
    | LoadSync(s1: nat)
    | LoadShift(s1: nat, sync: u64)
    | LoadFreq(s1: nat, sync: u64, shift: i64)
    | Recheck(s1: nat, sync: u64, shift: i64, freq: real)
    | UsesLocal
    | Uses(s1: nat, used: Snapshot)

  /** `published[i]` is the snapshot that count == 2 * i stands for; entry 0 is the constructor's. */
  datatype State = State(mem: Memory, writer: Writer, readers: seq<Reader>, published: seq<Snapshot>)

  const BLANK: Snapshot := Snapshot(0, 0, 0.0)

  predicate Init(s: State) {
    && s.mem == Memory(0, 0, 0, 0.0, false)
    && s.writer == Idle
    && (forall r :: 0 <= r < |s.readers| ==> s.readers[r] == Outside)
    && s.published == [BLANK]
  }

  datatype Action =
    | Publish(snapshot: Snapshot)
    | WriterStep
    | ReaderStep(reader: nat)

  predicate Enabled(s: State, a: Action) {
    match a
    case Publish(_) => s.writer == Idle
    case WriterStep => s.writer != Idle
    case ReaderStep(r) => r < |s.readers|
  }

  function WriterNext(s: State): State
    requires s.writer != Idle
  {
    match s.writer
    case StoreSync(n) => s.(mem := s.mem.(lastSync := n.lastSync), writer := StoreShift(n))
    case StoreShift(n) => s.(mem := s.mem.(shift := n.shift), writer := StoreFreq(n))
    case StoreFreq(n) => s.(mem := s.mem.(freq := n.freq), writer := Close(n))
    case Close(n) =>
      s.(mem := s.mem.(count := s.mem.count + 1),
         writer := if s.mem.initialized then Idle else SetInitialized,
         published := s.published + [n])
    case SetInitialized => s.(mem := s.mem.(initialized := true), writer := Idle)
  }

  function ReaderNext(mem: Memory, r: Reader): Reader {
    match r
    case Outside => if mem.initialized then LoadSeq else UsesLocal
    case LoadSeq => if mem.count % 2 != 0 then LoadSeq else LoadSync(mem.count)
    case LoadSync(s1) => LoadShift(s1, mem.lastSync)
    case LoadShift(s1, sync) => LoadFreq(s1, sync, mem.shift)
    case LoadFreq(s1, sync, shift) => Recheck(s1, sync, shift, mem.freq)
    case Recheck(s1, sync, shift, freq) =>
      if s1 == mem.count && mem.count % 2 == 0 then Uses(s1, Snapshot(sync, shift, freq)) else LoadSeq
    case UsesLocal => Outside
    case Uses(_, _) => Outside
  }

  function Next(s: State, a: Action): State
    requires Enabled(s, a)
  {
    match a
    case Publish(n) => s.(mem := s.mem.(count := s.mem.count + 1), writer := StoreSync(n))
    case WriterStep => WriterNext(s)
    case ReaderStep(r) => s.(readers := s.readers[r := ReaderNext(s.mem, s.readers[r])])
  }

  // ---- the invariant ----

  /** The last completely published snapshot. */
  function Latest(s: State): Snapshot
    requires s.published != []
  {
    s.published[|s.published| - 1]
  }

  /** Inside a publish `count` is odd and the fields already stored are the new ones. */
  ghost predicate WriterOk(s: State) {
    && s.published != []
    && var m, last := s.mem, Latest(s);
       match s.writer
       case Idle => m.count == 2 * (|s.published| - 1) && Snapshot(m.lastSync, m.shift, m.freq) == last
       case SetInitialized =>
         m.count == 2 * (|s.published| - 1) && Snapshot(m.lastSync, m.shift, m.freq) == last && |s.published| >= 2
       case StoreSync(n) => m.count == 2 * |s.published| - 1 && Snapshot(m.lastSync, m.shift, m.freq) == last
       case StoreShift(n) =>
         m.count == 2 * |s.published| - 1 && Snapshot(m.lastSync, m.shift, m.freq) == last.(lastSync := n.lastSync)
       case StoreFreq(n) =>
         m.count == 2 * |s.published| - 1 && Snapshot(m.lastSync, m.shift, m.freq) == n.(freq := last.freq)
       case Close(n) => m.count == 2 * |s.published| - 1 && Snapshot(m.lastSync, m.shift, m.freq) == n
  }

  /** A try that started at `s1` and still sees it has loaded only fields of `published[s1 / 2]`. */
  ghost predicate ReaderOk(s: State, r: Reader) {
    match r
    case Outside => true
    case UsesLocal => true
    case LoadSeq => s.mem.initialized
    case LoadSync(s1) => Started(s, s1)
    case LoadShift(s1, sync) =>
      Started(s, s1) && (s1 == s.mem.count ==> sync == s.published[s1 / 2].lastSync)
    case LoadFreq(s1, sync, shift) =>
      && Started(s, s1)
      && (s1 == s.mem.count ==> sync == s.published[s1 / 2].lastSync && shift == s.published[s1 / 2].shift)
    case Recheck(s1, sync, shift, freq) =>
      Started(s, s1) && (s1 == s.mem.count ==> Snapshot(sync, shift, freq) == s.published[s1 / 2])
    case Uses(s1, used) => Started(s, s1) && used == s.published[s1 / 2]
  }

  ghost predicate Started(s: State, s1: nat) {
    && s.mem.initialized && s1 % 2 == 0 && s1 <= s.mem.count
    && 1 <= s1 / 2 < |s.published|
  }

  ghost predicate Inv(s: State) {
    && WriterOk(s)
    && (s.mem.initialized ==> |s.published| >= 2 && s.writer != SetInitialized)
    && forall r :: 0 <= r < |s.readers| ==> ReaderOk(s, s.readers[r])
  }

  lemma InitInv(s: State)
    requires Init(s)
    ensures Inv(s)
  {
  }

  lemma WriterStepInv(s: State, a: Action)
    requires Inv(s) && Enabled(s, a) && !a.ReaderStep?
    ensures Inv(Next(s, a))
  {
    var n := Next(s, a);
    assert WriterOk(n);
    forall r | 0 <= r < |n.readers|
      ensures ReaderOk(n, n.readers[r])
    {
      assert ReaderOk(s, s.readers[r]);
    }
  }

  /** An even `count` means memory holds exactly the latest snapshot. */
  lemma EvenMeansQuiet(s: State)
    requires Inv(s) && s.mem.count % 2 == 0
    ensures s.mem.count / 2 == |s.published| - 1
    ensures Snapshot(s.mem.lastSync, s.mem.shift, s.mem.freq) == s.published[s.mem.count / 2]
  {
  }

  lemma ReaderStepInv(s: State, r: nat)
    requires Inv(s) && r < |s.readers|
    ensures Inv(Next(s, ReaderStep(r)))
  {
    var n := Next(s, ReaderStep(r));
    if s.mem.count % 2 == 0 {
      EvenMeansQuiet(s);
    }
    forall i | 0 <= i < |n.readers|
      ensures ReaderOk(n, n.readers[i])
    {
      assert ReaderOk(s, s.readers[i]);
    }
  }

  lemma NextInv(s: State, a: Action)
    requires Inv(s) && Enabled(s, a)
    ensures Inv(Next(s, a))
  {
    if a.ReaderStep? {
      ReaderStepInv(s, a.reader);
    } else {
      WriterStepInv(s, a);
    }
  }

  // ---- whole runs ----

  ghost predicate IsRun(run: seq<State>, actions: seq<Action>) {
    && |run| == |actions| + 1
    && Init(run[0])
    && forall i {:trigger actions[i]} :: 0 <= i < |actions| ==>
         Enabled(run[i], actions[i]) && run[i + 1] == Next(run[i], actions[i])
  }

  lemma {:induction false} RunInv(run: seq<State>, actions: seq<Action>, i: nat)
    requires IsRun(run, actions) && i < |run|
    ensures Inv(run[i])
  {
    if i == 0 {
      InitInv(run[0]);
    } else {
      RunInv(run, actions, i - 1);
      NextInv(run[i - 1], actions[i - 1]);
    }
  }

  /** Nothing is ever unpublished, and `count` never goes back. */
  lemma {:induction false} PublishedGrows(run: seq<State>, actions: seq<Action>, i: nat, j: nat)
    requires IsRun(run, actions) && i <= j < |run|
    ensures run[i].published <= run[j].published
    ensures run[i].mem.count <= run[j].mem.count
    ensures |run[i].readers| == |run[j].readers|
    decreases j - i
  {
    if i < j {
      assert actions[j - 1] == actions[j - 1];
      PublishedGrows(run, actions, i, j - 1);
    }
  }

  /** The step at which a reader makes its first `seq` load of a try. */
  predicate FirstLoad(s: State, a: Action, r: nat, s1: nat) {
    && a == ReaderStep(r) && r < |s.readers|
    && s.readers[r] == LoadSeq && s.mem.count == s1 && s1 % 2 == 0
  }

  /** A reader in the middle of a try made its first load of that try earlier in the run. */
  lemma {:induction false} TryBegan(run: seq<State>, actions: seq<Action>, j: nat, r: nat) returns (i: nat)
    requires IsRun(run, actions) && j < |run| && r < |run[j].readers|
    requires var p := run[j].readers[r]; p.LoadSync? || p.LoadShift? || p.LoadFreq? || p.Recheck? || p.Uses?
    ensures i < j && FirstLoad(run[i], actions[i], r, run[j].readers[r].s1)
    decreases j
  {
    assert j > 0;
    var s, a := run[j - 1], actions[j - 1];
    if a == ReaderStep(r) && s.readers[r] == LoadSeq {
      i := j - 1;
    } else {
      i := TryBegan(run, actions, j - 1, r);
    }
  }

  /** Whenever a reader leaves the retry loop, the three fields it uses are one published snapshot,
      never the constructor's blank one, and that snapshot was the latest at every instant between
      the two `seq` loads of the try. */
  lemma ReadsArePublished(run: seq<State>, actions: seq<Action>, j: nat, r: nat) returns (i: nat, v: nat)
    requires IsRun(run, actions) && j < |actions| && actions[j] == ReaderStep(r)
    requires r < |run[j].readers| && run[j].readers[r].Recheck? && run[j + 1].readers[r].Uses?
    ensures 1 <= v && i < j && FirstLoad(run[i], actions[i], r, 2 * v)
    ensures forall m :: i <= m <= j ==>
              (|run[m].published| == v + 1 && Latest(run[m]) == run[j + 1].readers[r].used)
  {
    var n := run[j + 1];
    v := run[j].readers[r].s1 / 2;
    i := TryBegan(run, actions, j, r);
    RunInv(run, actions, j + 1);
    RunInv(run, actions, j);
    assert ReaderOk(n, n.readers[r]);
    assert ReaderOk(run[j], run[j].readers[r]);
    forall m | i <= m <= j
      ensures |run[m].published| == v + 1 && Latest(run[m]) == n.readers[r].used
    {
      PublishedGrows(run, actions, i, m);
      PublishedGrows(run, actions, m, j);
      RunInv(run, actions, m);
      EvenMeansQuiet(run[m]);
      EvenMeansQuiet(run[j]);
    }
  }

  /** A publish that nobody interleaves with: the three fields are the new ones, and `count` has gone up by 2. The first
      one also sets `initialized`. */
  lemma {:induction false} PublishMeans(s: State, n: Snapshot)
    requires s.writer == Idle
    ensures var s1 := WriterNext(WriterNext(WriterNext(WriterNext(Next(s, Publish(n))))));
      && s1.mem == Memory(s.mem.count + 2, n.lastSync, n.shift, n.freq, s.mem.initialized)
      && s1.published == s.published + [n] && s1.readers == s.readers
      && (s.mem.initialized ==> s1.writer == Idle)
      && (!s.mem.initialized ==>
            s1.writer == SetInitialized && WriterNext(s1) == s1.(mem := s1.mem.(initialized := true), writer := Idle))
  {
  }

  // ---- two writers at once ----

  /** Another thread goes on publishing, from where that thread is. */
  function Preempted(s: State, w: Writer): State { s.(writer := w) }

  /** One thread has opened its publish of a, a second thread that of b, and the first stored its `last_sync`. */
  function TwoPublishing(s: State, a: Snapshot, b: Snapshot): (t: State)
    requires s.writer == Idle
    ensures t.readers == s.readers
  {
    var first := Next(s, Publish(a));
    var both := Next(Preempted(first, Idle), Publish(b));
    WriterNext(Preempted(both, first.writer))
  }

  /** Reader r alone makes n steps. */
  function ReadsOn(s: State, r: nat, n: nat): (t: State)
    requires r < |s.readers|
    ensures |t.readers| == |s.readers| && t.mem == s.mem
    ensures n > 0 ==> t.readers[r] == ReaderNext(s.mem, ReadsOn(s, r, n - 1).readers[r])
  {
    if n == 0 then s else Next(ReadsOn(s, r, n - 1), ReaderStep(r))
  }

  /** What one writer at a time is needed for: two opened publishes make `count` even again, and a reader accepts a
      snapshot that nobody published, with the new `last_sync` and the old shift and frequency. */
  lemma {:induction false} TwoWritersTear(s: State, a: Snapshot, b: Snapshot, r: nat)
    requires Inv(s) && s.writer == Idle && s.mem.initialized && r < |s.readers| && s.readers[r] == Outside
    requires a.shift != Latest(s).shift && b.lastSync != a.lastSync
    requires forall p <- s.published :: p.lastSync != a.lastSync
    ensures var after := ReadsOn(TwoPublishing(s, a, b), r, 6).readers[r];
      && after.Uses? && after.used == Latest(s).(lastSync := a.lastSync)
      && after.used !in s.published + [a, b]
  {
    hide Inv;
    var t := TwoPublishing(s, a, b);
    WriterIsIdle(s);
    var m := t.mem;
    assert ReadsOn(t, r, 1).readers[r] == LoadSeq;
    assert ReadsOn(t, r, 2).readers[r] == LoadSync(m.count);
    assert ReadsOn(t, r, 3).readers[r] == LoadShift(m.count, m.lastSync);
    assert ReadsOn(t, r, 4).readers[r] == LoadFreq(m.count, m.lastSync, m.shift);
    assert ReadsOn(t, r, 5).readers[r] == Recheck(m.count, m.lastSync, m.shift, m.freq);
  }

  lemma WriterIsIdle(s: State)
    requires Inv(s) && s.writer == Idle
    ensures s.published != [] && s.mem.count % 2 == 0
    ensures Snapshot(s.mem.lastSync, s.mem.shift, s.mem.freq) == Latest(s)
  {
  }
}
