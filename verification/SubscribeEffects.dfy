/** What the steps of subscribing do, field by field and number by number; exactly when a channel is reported as
    receiving; and that every flow that is given up is stopped. */
module SubscribeEffects {
  import opened Machine
  import opened Bytes
  import opened Subscriptions
  import opened Subscribe
  import opened SubscribeSafety

  // ---- the control task, one record at a time ----

  /** The control task makes its next n steps, and nobody else does anything. */
  function Alone(s: State, n: nat): State
    requires ControlRuns(s, n)
    decreases n
  {
    if n == 0 then s else Alone(ControlNext(s), n - 1)
  }

  predicate ControlRuns(s: State, n: nat)
    decreases n
  {
    n == 0 || (s.control != Ready([]) && ControlRuns(ControlNext(s), n - 1))
  }

  /** A record of no channel is passed over. */
  lemma {:induction false} UnknownIsSkipped(s: State, r: Request, rest: seq<Request>)
    requires s.control == Ready([r] + rest) && (r.localId == 0 || r.localId > |s.subs|)
    ensures Next(s, ControlStep) == s.(control := Ready(rest))
  {
    assert ([r] + rest)[1..] == rest;
  }

  /** A subscribing record names its channel, leaves its old flow in place, patches it and starts a task. */
  lemma {:induction false} SubscribeMeans(s: State, r: Request, rest: seq<Request>)
    requires s.control == Ready([r] + rest) && 0 < r.localId <= |s.subs| == |s.patched|
    requires r.txChannel != None || r.txHost != None
    ensures ControlRuns(s, 2)
    ensures var n, i := Alone(s, 2), r.localId - 1;
      && n == s.(subs := n.subs, patched := n.patched, tasks := s.tasks + [Spawned(r)], control := Ready(rest))
      && n.subs == s.subs[i := Sub(r.txChannel, r.txHost, 1, s.subs[i].flowId)]
      && n.patched == s.patched[i := true]
  {
    assert ([r] + rest)[1..] == rest;
    var s1 := ControlNext(s);
    assert Alone(s1, 1) == Alone(ControlNext(s1), 0);
  }

  /** An unsubscribing record clears its channel. Its flow, if it has one, goes out of the table, the media thread is
      told to remove it, and a stop packet with the flow's handle goes to the transmitter's address, if there is a
      handle. */
  lemma {:induction false} UnsubscribeMeans(s: State, r: Request, rest: seq<Request>)
    requires s.control == Ready([r] + rest) && 0 < r.localId <= |s.subs| == |s.patched|
    requires r.txChannel == None && r.txHost == None
    ensures var i := r.localId - 1;
      var held := s.subs[i].flowId;
      var cleared := s.(subs := s.subs[i := Sub(None, None, 0, None)], patched := s.patched[i := false]);
      && (held == None ==> ControlRuns(s, 2) && Alone(s, 2) == cleared.(control := Ready(rest)))
      && (held != None ==>
            ControlRuns(s, 5) && StopsFlow(cleared.(control := Ready(rest)), Alone(s, 5), held.value, rest))
  {
    ClearMeans(s, r, rest);
    hide ControlNext, StopsFlow;
    var held := s.subs[r.localId - 1].flowId;
    if held != None {
      StopMeans(Alone(s, 2), held.value, rest);
      AloneAdds(s, 2, 3);
      StopsAlike(Alone(s, 2), Alone(s, 5), held.value, rest, Ready(rest));
    }
  }

  lemma StopsAlike(s: State, n: State, id: nat, rest: seq<Request>, c: Control)
    requires StopsFlow(s, n, id, rest)
    ensures StopsFlow(s.(control := c), n, id, rest)
  {
  }

  /** The first two steps. */
  lemma {:induction false} ClearMeans(s: State, r: Request, rest: seq<Request>)
    requires s.control == Ready([r] + rest) && 0 < r.localId <= |s.subs| == |s.patched|
    requires r.txChannel == None && r.txHost == None
    ensures ControlRuns(s, 2)
    ensures var i := r.localId - 1;
      var held := s.subs[i].flowId;
      Alone(s, 2)
        == s.(subs := s.subs[i := Sub(None, None, 0, None)], patched := s.patched[i := false],
              control := if held == None then Ready(rest) else Taking(held.value, rest))
  {
    assert ([r] + rest)[1..] == rest;
    var s1 := ControlNext(s);
    assert Alone(s1, 1) == Alone(ControlNext(s1), 0);
    hide Entry, Without, Send;
  }

  lemma {:induction false} AloneAdds(s: State, m: nat, n: nat)
    requires ControlRuns(s, m) && ControlRuns(Alone(s, m), n)
    ensures ControlRuns(s, m + n) && Alone(s, m + n) == Alone(Alone(s, m), n)
    decreases m
  {
    hide ControlNext;
    if m > 0 {
      AloneAdds(ControlNext(s), m - 1, n);
    }
  }

  /** From s to n, flow `id` was taken out and stopped. */
  ghost predicate StopsFlow(s: State, n: State, id: nat, rest: seq<Request>) {
    && n == s.(rxFlows := n.rxFlows, taken := s.taken + [id], queue := n.queue, stops := n.stops,
               control := Ready(rest))
    && n.queue == (if s.mediaUp then s.queue + [RemoveFlow(id)] else s.queue)
    && ((forall f <- s.rxFlows :: f.id != id) ==> n.rxFlows == s.rxFlows && n.stops == s.stops)
    && (forall k :: 0 <= k < |s.rxFlows| && FirstWith(s.rxFlows, id, k) ==>
          && n.rxFlows == s.rxFlows[..k] + s.rxFlows[k + 1..]
          && var f := s.rxFlows[k];
             n.stops == if f.handle == None then s.stops else s.stops + [Stop(id, f.handle.value, f.txAddr)])
  }

  /** Place k is the first one with the id. */
  ghost predicate FirstWith(flows: seq<FlowInfo>, id: nat, k: nat) {
    k < |flows| && flows[k].id == id && forall j :: 0 <= j < k ==> flows[j].id != id
  }

  lemma {:induction false} FirstIsPosition(flows: seq<FlowInfo>, id: nat, k: nat)
    requires FirstWith(flows, id, k)
    ensures Entry(flows, id) == Some(flows[k]) && Without(flows, id) == flows[..k] + flows[k + 1..]
  {
    assert Position(flows, id) == k;
  }

  lemma {:induction false} NoneIsWithout(flows: seq<FlowInfo>, id: nat)
    requires forall f <- flows :: f.id != id
    ensures Entry(flows, id) == None && Without(flows, id) == flows
  {
  }

  lemma {:induction false} StopMeans(s: State, id: nat, rest: seq<Request>)
    requires s.control == Taking(id, rest)
    ensures ControlRuns(s, 3) && StopsFlow(s, Alone(s, 3), id, rest)
  {
    var s1 := ControlNext(s);
    var s2 := ControlNext(s1);
    var s3 := ControlNext(s2);
    assert Alone(s1, 2) == Alone(s2, 1) == Alone(s3, 0) == s3;
    if forall f <- s.rxFlows :: f.id != id {
      NoneIsWithout(s.rxFlows, id);
    }
    forall k | 0 <= k < |s.rxFlows| && FirstWith(s.rxFlows, id, k)
      ensures Entry(s.rxFlows, id) == Some(s.rxFlows[k])
      ensures Without(s.rxFlows, id) == s.rxFlows[..k] + s.rxFlows[k + 1..]
    {
      FirstIsPosition(s.rxFlows, id, k);
    }
    hide Entry, Without;
  }

  // ---- the media thread ----

  /** The media thread takes its commands in order: it adds a flow it has not heard yet, removes one, or ends. */
  lemma {:induction false} MediaStepMeans(s: State)
    requires s.mediaUp && s.queue != []
    ensures var n, c := Next(s, MediaStep), s.queue[0];
      && n == s.(queue := s.queue[1..], sawPacket := n.sawPacket, mediaUp := n.mediaUp)
      && (c.AddFlow? ==> n.mediaUp && n.sawPacket == s.sawPacket[c.id := false])
      && (c.RemoveFlow? ==> n.mediaUp && n.sawPacket == s.sawPacket - {c.id})
      && (c.Shutdown? ==> !n.mediaUp && n.sawPacket == map[])
  {
  }

  /** The first packet decoded on a flow makes exactly its channels receiving; later ones change no channel. */
  lemma {:induction false} PacketMeans(s: State, id: nat, i: nat)
    requires s.mediaUp && id in s.sawPacket && i < |s.subs|
    ensures var n := Next(s, MediaPacket(id));
      && n == s.(subs := n.subs, sawPacket := s.sawPacket[id := true], heard := s.heard + {id})
      && |n.subs| == |s.subs|
      && n.subs[i] == if !s.sawPacket[id] && s.subs[i].flowId == Some(id)
                      then s.subs[i].(status := 0x0101_0009) else s.subs[i]
  {
    if s.sawPacket[id] {
      assert s.sawPacket[id := true] == s.sawPacket;
    }
  }

  // ---- exactly when a channel is receiving ----

  /** The step is the first packet on the flow that channel i has. */
  predicate FirstPacket(s: State, a: Action, i: nat)
    requires i < |s.subs|
  {
    a.MediaPacket? && a.id in s.sawPacket && !s.sawPacket[a.id] && s.subs[i].flowId == Some(a.id)
  }

  /** The step switches or clears channel i, or is one of an establish task that reports on it. */
  predicate Touches(s: State, a: Action, i: nat) {
    match a
    case ControlStep => s.control.Ready? && s.control.rest != [] && s.control.rest[0].localId == i + 1
    case TaskStep(t, o) =>
      && t < |s.tasks|
      && (match s.tasks[t]
          case Resolving(idx) => idx == i
          case Binding(idx, _) => idx == i && !o.Bound?
          case Requesting(idx, _, _, _) => idx == i && !o.Accepted?
          case Assigning(idx, _) => idx == i
          case Announcing(idx, _) => idx == i && !s.mediaUp
          case _ => false)
    case _ => false
  }

  lemma {:induction false} ControlTouches(s: State, i: nat)
    requires s.control != Ready([]) && i < |s.subs|
    ensures var n := ControlNext(s);
      && |n.subs| == |s.subs|
      && if Touches(s, ControlStep, i) then n.subs[i].status in {0, 1} else n.subs[i] == s.subs[i]
  {
    hide Entry, Without;
  }

  lemma {:induction false} TaskTouches(s: State, t: nat, o: Outcome, i: nat)
    requires t < |s.tasks| && i < |s.subs|
    ensures var n := TaskNext(s, t, o);
      && |n.subs| == |s.subs|
      && if Touches(s, TaskStep(t, o), i) then n.subs[i].status in {1, 8} else n.subs[i] == s.subs[i]
  {
    match s.tasks[t] {
      case Resolving(idx) =>
        StatusAt(s.subs, idx, 1, i);
        StatusAt(s.subs, idx, 8, i);
      case Binding(idx, _) => StatusAt(s.subs, idx, 1, i);
      case Requesting(idx, _, _, _) => StatusAt(s.subs, idx, 1, i);
      case Assigning(idx, id) => AssignedAt(s.subs, idx, id, i);
      case Announcing(idx, _) => StatusAt(s.subs, idx, 1, i);
      case _ =>
    }
    hide WithStatus, Assigned;
  }

  lemma StatusAt(subs: seq<Sub>, idx: nat, status: u32, i: nat)
    requires i < |subs|
    ensures WithStatus(subs, idx, status)[i] == if i == idx then subs[i].(status := status) else subs[i]
  {
  }

  lemma AssignedAt(subs: seq<Sub>, idx: nat, id: nat, i: nat)
    requires i < |subs|
    ensures Assigned(subs, idx, id)[i] == if i == idx then subs[i].(flowId := Some(id), status := 8) else subs[i]
  {
  }

  /** A step that touches a channel leaves it none, unresolved or establishing; the first packet on its flow makes it
      receiving; no other step changes it. */
  lemma {:induction false} StepMeans(s: State, a: Action, i: nat)
    requires Enabled(s, a) && i < |s.subs|
    ensures var n := Next(s, a);
      && |n.subs| == |s.subs|
      && (Touches(s, a, i) ==> n.subs[i].status in {0, 1, 8})
      && (FirstPacket(s, a, i) ==> n.subs[i] == s.subs[i].(status := 0x0101_0009))
      && (!Touches(s, a, i) && !FirstPacket(s, a, i) ==> n.subs[i] == s.subs[i])
  {
    hide ControlNext, TaskNext, MediaNext, PacketNext;
    match a
    case Receive(_) =>
    case ControlStep => ControlTouches(s, i);
    case TaskStep(t, o) => TaskTouches(s, t, o, i);
    case MediaStep => MediaStepMeans(s);
    case MediaPacket(id) => PacketMeans(s, id, i);
    case StopDevice =>
  }

  /** The state before step k. */
  ghost function StateAt(s: State, actions: seq<Action>, k: nat): State
    requires Runs(s, actions) && k <= |actions|
  {
    PrefixRuns(s, actions, k);
    After(s, actions[..k])
  }

  lemma {:induction false} NextState(s: State, actions: seq<Action>, k: nat)
    requires Runs(s, actions) && k < |actions|
    ensures StateAt(s, actions, 0) == s && StateAt(s, actions, |actions|) == After(s, actions)
    ensures Enabled(StateAt(s, actions, k), actions[k])
    ensures StateAt(s, actions, k + 1) == Next(StateAt(s, actions, k), actions[k])
    decreases k
  {
    hide Next, Enabled;
    assert actions[..0] == [] && actions[..|actions|] == actions;
    PrefixRuns(s, actions, k);
    PrefixRuns(s, actions, k + 1);
    if k == 0 {
      assert actions[..1][1..] == [] && actions[1..][..0] == [];
      assert After(Next(s, actions[0]), []) == Next(s, actions[0]);
    } else {
      NextState(Next(s, actions[0]), actions[1..], k - 1);
    }
  }

  lemma {:induction false} ChannelsStay(s: State, actions: seq<Action>, k: nat)
    requires Runs(s, actions) && k <= |actions|
    ensures |StateAt(s, actions, k).subs| == |s.subs|
    decreases k
  {
    hide Next, Enabled, StateAt;
    if k == 0 {
      assert StateAt(s, actions, 0) == s by {
        StartsAt(s, actions);
      }
    } else {
      ChannelsStay(s, actions, k - 1);
      NextState(s, actions, k - 1);
      SizeStays(StateAt(s, actions, k - 1), actions[k - 1]);
    }
  }

  lemma {:induction false} SizeStays(s: State, a: Action)
    requires Enabled(s, a)
    ensures |Next(s, a).subs| == |s.subs|
  {
    if s.subs == [] {
      NoneStay(s, a);
    } else {
      StepMeans(s, a, 0);
    }
  }

  lemma {:induction false} NoneStay(s: State, a: Action)
    requires Enabled(s, a) && s.subs == []
    ensures Next(s, a).subs == []
  {
    if a.TaskStep? {
      TasksKeepStops(s, a.task, a.outcome);
    }
    hide Applied, Entry, Without, Marked, TaskNext;
  }

  lemma StartsAt(s: State, actions: seq<Action>)
    requires Runs(s, actions)
    ensures StateAt(s, actions, 0) == s
  {
    assert actions[..0] == [];
  }

  /** Step k was the first packet on the channel's flow, and nothing has touched the channel since, up to step n. */
  ghost predicate ReceivingSince(s: State, actions: seq<Action>, i: nat, k: nat, n: nat)
    requires Runs(s, actions) && n <= |actions|
  {
    && k < n && i < |StateAt(s, actions, k).subs| && FirstPacket(StateAt(s, actions, k), actions[k], i)
    && forall j :: k < j < n ==> !Touches(StateAt(s, actions, j), actions[j], i)
  }

  ghost predicate Received(s: State, actions: seq<Action>, i: nat, n: nat)
    requires Runs(s, actions) && n <= |actions|
  {
    exists k: nat :: ReceivingSince(s, actions, i, k, n)
  }

  /** One more step of the run. */
  lemma {:induction false} OneMoreStep(s: State, actions: seq<Action>, i: nat, n: nat)
    requires Runs(s, actions) && n < |actions| && i < |StateAt(s, actions, n).subs|
    ensures Received(s, actions, i, n + 1)
      <==> FirstPacket(StateAt(s, actions, n), actions[n], i)
           || (!Touches(StateAt(s, actions, n), actions[n], i) && Received(s, actions, i, n))
  {
    hide Runs, StateAt, FirstPacket, Touches;
    if FirstPacket(StateAt(s, actions, n), actions[n], i) {
      assert ReceivingSince(s, actions, i, n, n + 1);
    } else if !Touches(StateAt(s, actions, n), actions[n], i) && Received(s, actions, i, n) {
      var k: nat :| ReceivingSince(s, actions, i, k, n);
      assert ReceivingSince(s, actions, i, k, n + 1);
    }
    if Received(s, actions, i, n + 1) {
      var k: nat :| ReceivingSince(s, actions, i, k, n + 1);
      if k < n {
        assert ReceivingSince(s, actions, i, k, n);
      }
    }
  }

  lemma {:induction false} ReceivingAt(s: State, actions: seq<Action>, i: nat, n: nat)
    requires Init(s) && Runs(s, actions) && i < |s.subs| && n <= |actions|
    ensures i < |StateAt(s, actions, n).subs|
    ensures StateAt(s, actions, n).subs[i].status == 0x0101_0009 <==> Received(s, actions, i, n)
    decreases n
  {
    ChannelsStay(s, actions, n);
    if n == 0 {
      StartsAt(s, actions);
    } else {
      ReceivingAt(s, actions, i, n - 1);
      NextState(s, actions, n - 1);
      StepMeans(StateAt(s, actions, n - 1), actions[n - 1], i);
      OneMoreStep(s, actions, i, n - 1);
      TouchIsNoPacket(StateAt(s, actions, n - 1), actions[n - 1], i);
      hide Init, Runs, StateAt, Next, Enabled, Touches, FirstPacket, Received;
    }
  }

  lemma TouchIsNoPacket(s: State, a: Action, i: nat)
    requires i < |s.subs|
    ensures !(Touches(s, a, i) && FirstPacket(s, a, i))
  {
  }

  /** After any run a channel is receiving exactly if, at some step, the first packet was decoded on the flow it then
      had, and since then its channel was not switched, cleared, or reported on by an establish task. */
  lemma {:induction false} ReceivingIffDecoded(s: State, actions: seq<Action>, i: nat)
    requires Init(s) && Runs(s, actions) && i < |s.subs|
    ensures i < |After(s, actions).subs|
    ensures After(s, actions).subs[i].status == 0x0101_0009
      <==> exists k: nat :: ReceivingSince(s, actions, i, k, |actions|)
  {
    ReceivingAt(s, actions, i, |actions|);
    assert actions[..|actions|] == actions;
  }

  // ---- every flow that is given up is stopped ----

  /** The stop packet of a flow is on its way. */
  ghost predicate Stopped(s: State, info: FlowInfo) {
    info.handle != None ==> Stop(info.id, info.handle.value, info.txAddr) in s.stops
  }

  /** The control task is about to stop the flow. */
  ghost predicate StoppingNow(s: State, id: nat) {
    match s.control
    case Removing(_, info, _) => info != None && info.value.id == id
    case Stopping(info, _) => info != None && info.value.id == id
    case _ => false
  }

  /** Each flow taken out of the table was stopped, or is being stopped. */
  ghost predicate AllStopped(s: State) {
    forall id <- s.taken :: id in s.granted && (StoppingNow(s, id) || Stopped(s, s.granted[id]))
  }

  lemma {:induction false} TakenIsStopped(s: State)
    requires Inv(s) && AllStopped(s) && s.control != Ready([])
    ensures AllStopped(ControlNext(s))
  {
    assert ControlOk(s);
    if s.control.Taking? {
      TakeFlows(s, s.control.id);
      EntryMeans(s.rxFlows, s.control.id);
    }
    hide FlowsOk, SubsOk, TasksOk, Entry, NoRepeats, StatusOk, StopsOk, Without, Free, Unassigned, MediaOk;
  }

  lemma {:induction false} NextStopped(s: State, a: Action)
    requires Inv(s) && Enabled(s, a) && AllStopped(s)
    ensures AllStopped(Next(s, a))
  {
    if a.ControlStep? {
      TakenIsStopped(s);
    } else {
      OthersKeepStops(s, a);
      forall id | id in s.taken
        ensures s.granted[id] == Next(s, a).granted[id] && id in Next(s, a).granted
      {
        NextGrantsMore(s, a, id);
      }
      hide Inv, Next, Enabled;
    }
  }

  lemma {:induction false} OthersKeepStops(s: State, a: Action)
    requires Enabled(s, a) && !a.ControlStep?
    ensures var n := Next(s, a);
      n.taken == s.taken && n.stops == s.stops && (a.Receive? ==> s.control == Ready([]) && n.control.Ready?)
      && (!a.Receive? ==> n.control == s.control)
  {
    if a.TaskStep? {
      TasksKeepStops(s, a.task, a.outcome);
    }
    hide TaskNext, ControlNext, Receiving;
  }

  lemma {:induction false} TasksKeepStops(s: State, t: nat, o: Outcome)
    requires t < |s.tasks|
    ensures var n := TaskNext(s, t, o);
      n.taken == s.taken && n.stops == s.stops && n.control == s.control && |n.subs| == |s.subs|
  {
    hide WithStatus, Assigned;
  }

  lemma {:induction false} RunStopped(s: State, actions: seq<Action>)
    requires Inv(s) && AllStopped(s) && Runs(s, actions)
    ensures AllStopped(After(s, actions))
    decreases |actions|
  {
    hide Inv, AllStopped, Next, Enabled;
    if actions != [] {
      NextInv(s, actions[0]);
      NextStopped(s, actions[0]);
      RunStopped(Next(s, actions[0]), actions[1..]);
    }
  }

  /** Whenever the control task is between records, every flow taken out of the table for which the transmitter gave a
      handle has had its stop packet: with that handle, to that transmitter. */
  lemma {:induction false} TakenFlowsAreStopped(s: State, actions: seq<Action>, id: nat)
    requires Init(s) && Runs(s, actions) && After(s, actions).control.Ready? && id in After(s, actions).taken
    ensures var e := After(s, actions);
      && id in e.granted
      && (e.granted[id].handle != None ==>
            Stop(id, e.granted[id].handle.value, e.granted[id].txAddr) in e.stops)
  {
    InitInv(s);
    assert AllStopped(s);
    GrantsKeepIds(s, actions);
    hide Inv, Runs, After, Init;
    RunStopped(s, actions);
  }
}
