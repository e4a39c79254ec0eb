/** What holds in every state any interleaving of subscribing can reach. */
module SubscribeSafety {
  import opened Machine
  import opened Bytes
  import opened Subscriptions
  import opened Subscribe

  // ---- the invariant ----

  /** The flow is registered, with exactly the one channel of subscription idx. */
  ghost predicate Registered(flows: seq<FlowInfo>, id: nat, idx: nat) {
    Entry(flows, id).Some? && Entry(flows, id).value.channels == [idx + 1]
  }

  /** No subscription refers to the flow. */
  ghost predicate Free(subs: seq<Sub>, id: nat) {
    forall i :: 0 <= i < |subs| ==> subs[i].flowId != Some(id)
  }

  ghost predicate SubsOk(subs: seq<Sub>, flows: seq<FlowInfo>) {
    forall i :: 0 <= i < |subs| && subs[i].flowId.Some? ==> Registered(flows, subs[i].flowId.value, i)
  }

  ghost predicate StatusOk(subs: seq<Sub>, heard: set<nat>) {
    forall i :: 0 <= i < |subs| && subs[i].status == STATUS_RX_UNICAST ==>
      subs[i].flowId.Some? && subs[i].flowId.value in heard
  }

  ghost predicate FlowsOk(flows: seq<FlowInfo>, nextFlowId: nat, granted: map<nat, FlowInfo>, taken: seq<nat>) {
    && Distinct(flows)
    && (forall f <- flows :: f.id in granted && granted[f.id] == f && f.id !in taken)
    && (forall id <- granted :: id < nextFlowId && granted[id].id == id)
    && (forall id <- taken :: id in granted)
    && (forall id <- granted :: id !in taken ==> Entry(flows, id).Some?)
  }

  /** The flow id a task carries. */
  function Carries(t: Task): Option<nat> {
    match t
    case Requesting(_, _, _, id) => Some(id)
    case Assigning(_, id) => Some(id)
    case Announcing(_, id) => Some(id)
    case _ => None
  }

  ghost predicate TaskOk(t: Task, subs: seq<Sub>, flows: seq<FlowInfo>, nextFlowId: nat,
                         granted: map<nat, FlowInfo>) {
    match t
    case Requesting(_, _, _, id) => id < nextFlowId && id !in granted
    case Assigning(idx, id) => id < nextFlowId && Registered(flows, id, idx) && Free(subs, id)
    case Announcing(_, id) => id < nextFlowId && id in granted
    case _ => true
  }

  ghost predicate TasksOk(tasks: seq<Task>, subs: seq<Sub>, flows: seq<FlowInfo>, nextFlowId: nat,
                          granted: map<nat, FlowInfo>) {
    && (forall t :: 0 <= t < |tasks| ==> TaskOk(tasks[t], subs, flows, nextFlowId, granted))
    && (forall t, u :: 0 <= t < u < |tasks| && Carries(tasks[t]).Some? ==> Carries(tasks[t]) != Carries(tasks[u]))
  }

  /** No task is about to hand the flow to a subscription. */
  ghost predicate Unassigned(tasks: seq<Task>, id: nat) {
    forall t :: 0 <= t < |tasks| && tasks[t].Assigning? ==> tasks[t].id != id
  }

  /** A registered flow that its subscription has given up: only the control task still knows it. */
  ghost predicate Orphan(s: State, id: nat) {
    Entry(s.rxFlows, id).Some? && Free(s.subs, id) && Unassigned(s.tasks, id)
  }

  /** A flow taken out of the table and not stopped yet. */
  ghost predicate Unstopped(s: State, info: FlowInfo) {
    && info.id in s.granted && s.granted[info.id] == info && info.id in s.taken
    && forall k :: 0 <= k < |s.stops| ==> s.stops[k].id != info.id
  }

  ghost predicate ControlOk(s: State) {
    match s.control
    case Disabling(_, freed, _) => freed.Some? ==> Orphan(s, freed.value)
    case Taking(id, _) => Orphan(s, id)
    case Removing(id, info, _) => info.Some? && info.value.id == id && Unstopped(s, info.value)
    case Stopping(info, _) => info.Some? && Unstopped(s, info.value)
    case _ => true
  }

  /** A stop packet carries the handle and goes to the address its flow was granted with. */
  ghost predicate StopOk(p: Stop, granted: map<nat, FlowInfo>, taken: seq<nat>) {
    && p.id in granted && granted[p.id].handle == Some(p.handle) && granted[p.id].txAddr == p.addr
    && p.id in taken
  }

  ghost predicate StopsOk(stops: seq<Stop>, granted: map<nat, FlowInfo>, taken: seq<nat>) {
    && (forall k :: 0 <= k < |stops| ==> StopOk(stops[k], granted, taken))
    && (forall j, k :: 0 <= j < k < |stops| ==> stops[j].id != stops[k].id)
  }

  ghost predicate NoRepeats(ids: seq<nat>) {
    forall j, k :: 0 <= j < k < |ids| ==> ids[j] != ids[k]
  }

  ghost predicate MediaOk(s: State) {
    && (forall k :: 0 <= k < |s.queue| && s.queue[k].AddFlow? ==> s.queue[k].id in s.granted)
    && (forall id <- s.sawPacket :: id in s.granted)
    && (forall id <- s.heard :: id in s.granted)
  }

  ghost predicate Inv(s: State) {
    && SubsOk(s.subs, s.rxFlows)
    && StatusOk(s.subs, s.heard)
    && FlowsOk(s.rxFlows, s.nextFlowId, s.granted, s.taken)
    && TasksOk(s.tasks, s.subs, s.rxFlows, s.nextFlowId, s.granted)
    && ControlOk(s)
    && StopsOk(s.stops, s.granted, s.taken)
    && NoRepeats(s.taken)
    && MediaOk(s)
  }

  lemma {:induction false} InitInv(s: State)
    requires Init(s)
    ensures Inv(s)
  {
  }

  // ---- changes of the subscription table ----

  /** Same flows held, and no channel newly reported as receiving. */
  ghost predicate SameHolders(a: seq<Sub>, b: seq<Sub>) {
    && |a| == |b|
    && forall i :: 0 <= i < |a| ==>
         b[i].flowId == a[i].flowId && (b[i].status == STATUS_RX_UNICAST ==> a[i].status == STATUS_RX_UNICAST)
  }

  lemma {:induction false} HoldersKeep(s: State, s1: State)
    requires Inv(s) && SameHolders(s.subs, s1.subs) && s1 == s.(subs := s1.subs)
    ensures Inv(s1)
  {
    hide Entry, Distinct;
  }

  lemma {:induction false} NewStatusKeeps(s: State, idx: nat, status: u32)
    requires Inv(s) && status != STATUS_RX_UNICAST
    ensures Inv(s.(subs := WithStatus(s.subs, idx, status)))
  {
    hide Inv;
    HoldersKeep(s, s.(subs := WithStatus(s.subs, idx, status)));
  }

  /** A task that ends, or moves without carrying a flow, keeps everything. */
  lemma {:induction false} IdleTaskKeeps(s: State, t: nat, task: Task)
    requires Inv(s) && t < |s.tasks| && Carries(task).None?
    ensures Inv(s.(tasks := s.tasks[t := task]))
  {
    hide Entry, Distinct, StopsOk, NoRepeats, SubsOk, StatusOk, FlowsOk, Registered, Free;
  }

  lemma {:induction false} GiveUpKeeps(s: State, t: nat, idx: nat)
    requires Inv(s) && t < |s.tasks|
    ensures Inv(GiveUp(s, t, idx))
  {
    hide Inv, WithStatus;
    NewStatusKeeps(s, idx, STATUS_UNRESOLVED);
    IdleTaskKeeps(s.(subs := WithStatus(s.subs, idx, STATUS_UNRESOLVED)), t, Finished);
  }

  // ---- the establish task ----

  lemma {:induction false} AllocateKeeps(s: State, t: nat, idx: nat, addr: Addr, port: u16)
    requires Inv(s) && t < |s.tasks|
    ensures Inv(s.(nextFlowId := s.nextFlowId + 1, tasks := s.tasks[t := Requesting(idx, addr, port, s.nextFlowId)]))
  {
    hide Entry, Distinct, StopsOk, NoRepeats, SubsOk, StatusOk, Registered, Free;
  }

  /** An id that was never granted names no registered flow. */
  lemma {:induction false} NewIsUnregistered(s: State, id: nat)
    requires Inv(s) && id !in s.granted
    ensures Entry(s.rxFlows, id).None? && Free(s.subs, id) && id !in s.taken
  {
    hide TasksOk, StopsOk, NoRepeats, MediaOk, StatusOk, ControlOk;
    EntryMeans(s.rxFlows, id);
  }

  lemma {:induction false} RegisterFlows(s: State, info: FlowInfo)
    requires FlowsOk(s.rxFlows, s.nextFlowId, s.granted, s.taken)
    requires info.id !in s.granted && info.id < s.nextFlowId && info.id !in s.taken
    requires Entry(s.rxFlows, info.id).None?
    ensures FlowsOk(s.rxFlows + [info], s.nextFlowId, s.granted[info.id := info], s.taken)
  {
    forall f <- s.rxFlows
      ensures f.id != info.id
    {
    }
    forall id | id in s.granted[info.id := info] && id !in s.taken
      ensures Entry(s.rxFlows + [info], id).Some?
    {
      AfterRegister(s.rxFlows, info, id);
    }
    hide Entry;
  }

  lemma {:induction false} RegisteredStays(flows: seq<FlowInfo>, info: FlowInfo, id: nat, idx: nat)
    requires Entry(flows, info.id).None? && Registered(flows, id, idx)
    ensures Registered(flows + [info], id, idx)
  {
    AfterRegister(flows, info, id);
  }

  lemma {:induction false} RegisterTasks(s: State, t: nat, idx: nat, info: FlowInfo)
    requires Inv(s) && t < |s.tasks| && Carries(s.tasks[t]) == Some(info.id) && info.channels == [idx + 1]
    requires info.id !in s.granted && info.id < s.nextFlowId
    ensures TasksOk(s.tasks[t := Assigning(idx, info.id)], s.subs, s.rxFlows + [info], s.nextFlowId,
                    s.granted[info.id := info])
  {
    hide StopsOk, NoRepeats, MediaOk, StatusOk, ControlOk, FlowsOk, SubsOk;
    NewIsUnregistered(s, info.id);
    AfterRegister(s.rxFlows, info, info.id);
    var after := s.tasks[t := Assigning(idx, info.id)];
    forall u | 0 <= u < |after|
      ensures TaskOk(after[u], s.subs, s.rxFlows + [info], s.nextFlowId, s.granted[info.id := info])
    {
      if u != t && s.tasks[u].Assigning? {
        RegisteredStays(s.rxFlows, info, s.tasks[u].id, s.tasks[u].idx);
      }
    }
  }

  lemma {:induction false} RegisterSubs(s: State, info: FlowInfo)
    requires SubsOk(s.subs, s.rxFlows) && Entry(s.rxFlows, info.id).None?
    ensures SubsOk(s.subs, s.rxFlows + [info])
  {
    hide Registered;
    forall i | 0 <= i < |s.subs| && s.subs[i].flowId.Some?
      ensures Registered(s.rxFlows + [info], s.subs[i].flowId.value, i)
    {
      RegisteredStays(s.rxFlows, info, s.subs[i].flowId.value, i);
    }
  }

  lemma {:induction false} RegisterControl(s: State, t: nat, idx: nat, info: FlowInfo)
    requires Inv(s) && t < |s.tasks| && info.id !in s.granted
    ensures ControlOk(Register(s, t, idx, info))
  {
    hide StopsOk, NoRepeats, MediaOk, StatusOk, FlowsOk, SubsOk, TasksOk, Entry;
    NewIsUnregistered(s, info.id);
    var id := match s.control
      case Disabling(_, freed, _) => if freed.Some? then freed.value else info.id
      case Taking(id, _) => id
      case _ => info.id;
    AfterRegister(s.rxFlows, info, id);
  }

  lemma {:induction false} RegisterKeeps(s: State, t: nat, idx: nat, info: FlowInfo)
    requires Inv(s) && t < |s.tasks| && s.tasks[t].Requesting? && s.tasks[t].id == info.id
    requires info.channels == [idx + 1]
    ensures Inv(Register(s, t, idx, info))
  {
    NewIsUnregistered(s, info.id);
    RegisterFlows(s, info);
    RegisterTasks(s, t, idx, info);
    RegisterSubs(s, info);
    RegisterControl(s, t, idx, info);
    hide FlowsOk, SubsOk, TasksOk, ControlOk, Entry, NoRepeats, StatusOk;
  }

  lemma {:induction false} AssignKeeps(s: State, t: nat, idx: nat, id: nat)
    requires Inv(s) && t < |s.tasks| && s.tasks[t] == Assigning(idx, id)
    ensures Inv(s.(subs := Assigned(s.subs, idx, id), tasks := s.tasks[t := Announcing(idx, id)]))
  {
    EntryMeans(s.rxFlows, id);
    hide Entry, Distinct, StopsOk, NoRepeats;
  }

  lemma {:induction false} SendKeeps(s: State, c: Command)
    requires Inv(s) && (c.AddFlow? ==> c.id in s.granted)
    ensures Inv(Send(s, c))
  {
    hide FlowsOk, SubsOk, TasksOk, Entry, NoRepeats, StatusOk, StopsOk, Free, Unassigned;
  }

  lemma {:induction false} AnnounceKeeps(s: State, t: nat, idx: nat, id: nat)
    requires Inv(s) && t < |s.tasks| && s.tasks[t] == Announcing(idx, id)
    ensures Inv(Send(s, AddFlow(id, idx)).(tasks := s.tasks[t := Finished]))
  {
    assert id in s.granted;
    hide Inv;
    SendKeeps(s, AddFlow(id, idx));
    IdleTaskKeeps(Send(s, AddFlow(id, idx)), t, Finished);
  }

  lemma {:induction false} TaskKeeps(s: State, t: nat, o: Outcome)
    requires Inv(s) && t < |s.tasks|
    ensures Inv(TaskNext(s, t, o))
  {
    hide Inv, GiveUp, WithStatus, Register, Assigned;
    match s.tasks[t]
    case Spawned(r) =>
      IdleTaskKeeps(s, t, if r.txChannel.Some? && r.txHost.Some? && r.localId > 0
                          then Resolving(r.localId - 1) else Finished);
    case Resolving(idx) =>
      if o.Resolved? {
        NewStatusKeeps(s, idx, STATUS_ESTABLISHING);
        IdleTaskKeeps(s.(subs := WithStatus(s.subs, idx, STATUS_ESTABLISHING)), t, Binding(idx, o.addr));
      } else {
        GiveUpKeeps(s, t, idx);
      }
    case Binding(idx, addr) =>
      if o.Bound? {
        AllocateKeeps(s, t, idx, addr, o.port);
      } else {
        GiveUpKeeps(s, t, idx);
      }
    case Requesting(idx, addr, port, id) =>
      if o.Accepted? {
        RegisterKeeps(s, t, idx, FlowInfo(id, [idx + 1], port, o.handle, addr));
      } else {
        GiveUpKeeps(s, t, idx);
      }
    case Assigning(idx, id) =>
      AssignKeeps(s, t, idx, id);
    case Announcing(idx, id) =>
      if s.mediaUp {
        AnnounceKeeps(s, t, idx, id);
      } else {
        GiveUpKeeps(s, t, idx);
      }
    case Finished =>
  }

  // ---- the control task ----

  lemma {:induction false} ControlMoves(s: State, c: Control)
    requires Inv(s) && ControlOk(s.(control := c))
    ensures Inv(s.(control := c))
  {
    hide FlowsOk, SubsOk, TasksOk, Entry, NoRepeats, StatusOk, StopsOk, ControlOk;
  }

  lemma {:induction false} PatchedKeeps(s: State, patched: seq<bool>)
    requires Inv(s)
    ensures Inv(s.(patched := patched))
  {
    hide FlowsOk, SubsOk, TasksOk, Entry, NoRepeats, StatusOk, StopsOk, Free, Unassigned;
  }

  lemma {:induction false} SpawnKeeps(s: State, r: Request)
    requires Inv(s) && s.control.Enabling?
    ensures Inv(s.(tasks := s.tasks + [Spawned(r)]))
  {
    hide FlowsOk, SubsOk, Entry, NoRepeats, StatusOk, StopsOk, Free, Unassigned, Registered;
  }

  lemma {:induction false} ClearedIsOrphan(s: State, idx: nat, id: nat)
    requires Inv(s) && idx < |s.subs| && s.subs[idx].flowId == Some(id)
    ensures Orphan(s.(subs := s.subs[idx := NO_SUB]), id)
  {
    hide FlowsOk, Entry, NoRepeats, StatusOk, StopsOk, MediaOk, ControlOk;
  }

  lemma {:induction false} ClearKeeps(s: State, idx: nat, rest: seq<Request>)
    requires Inv(s) && s.control.Ready? && idx < |s.subs|
    ensures Inv(s.(subs := s.subs[idx := NO_SUB], control := Disabling(idx, s.subs[idx].flowId, rest)))
  {
    var id := s.subs[idx].flowId;
    if id.Some? {
      ClearedIsOrphan(s, idx, id.value);
    }
    hide FlowsOk, Entry, NoRepeats, StopsOk, Registered;
  }

  lemma {:induction false} RecordKeeps(s: State, r: Request, rest: seq<Request>)
    requires Inv(s) && s.control.Ready?
    ensures Inv(NextRecord(s, r, rest))
  {
    hide Inv;
    if r.localId == 0 || r.localId > |s.subs| {
      ControlMoves(s, Ready(rest));
    } else if r.Unsubscribes() {
      ClearKeeps(s, r.localId - 1, rest);
    } else {
      HoldersKeep(s, s.(subs := Applied(s.subs, r)));
      ControlMoves(s.(subs := Applied(s.subs, r)), Enabling(r, rest));
    }
  }

  lemma {:induction false} TakeFlows(s: State, id: nat)
    requires Inv(s) && Entry(s.rxFlows, id).Some?
    ensures FlowsOk(Without(s.rxFlows, id), s.nextFlowId, s.granted, s.taken + [id])
    ensures NoRepeats(s.taken + [id])
    ensures id in s.granted && s.granted[id] == Entry(s.rxFlows, id).value && id !in s.taken
  {
    hide StopsOk, MediaOk, StatusOk, ControlOk, SubsOk, TasksOk;
    EntryMeans(s.rxFlows, id);
    AfterTake(s.rxFlows, id, id);
    forall other | other in s.granted && other !in s.taken + [id]
      ensures Entry(Without(s.rxFlows, id), other).Some?
    {
      AfterTake(s.rxFlows, id, other);
    }
    hide Entry, Distinct, Without;
  }

  lemma {:induction false} RegisteredAfterTake(flows: seq<FlowInfo>, gone: nat, id: nat, idx: nat)
    requires Distinct(flows) && Registered(flows, id, idx) && id != gone
    ensures Registered(Without(flows, gone), id, idx)
  {
    AfterTake(flows, gone, id);
  }

  lemma {:induction false} TakeSubs(s: State, id: nat)
    requires SubsOk(s.subs, s.rxFlows) && Distinct(s.rxFlows) && Free(s.subs, id)
    ensures SubsOk(s.subs, Without(s.rxFlows, id))
  {
    hide Registered, Distinct, Without;
    forall i | 0 <= i < |s.subs| && s.subs[i].flowId.Some?
      ensures Registered(Without(s.rxFlows, id), s.subs[i].flowId.value, i)
    {
      RegisteredAfterTake(s.rxFlows, id, s.subs[i].flowId.value, i);
    }
  }

  lemma {:induction false} TakeTasks(s: State, id: nat)
    requires TasksOk(s.tasks, s.subs, s.rxFlows, s.nextFlowId, s.granted) && Distinct(s.rxFlows)
    requires Unassigned(s.tasks, id)
    ensures TasksOk(s.tasks, s.subs, Without(s.rxFlows, id), s.nextFlowId, s.granted)
  {
    hide Registered, Distinct, Without, Free;
    forall t | 0 <= t < |s.tasks|
      ensures TaskOk(s.tasks[t], s.subs, Without(s.rxFlows, id), s.nextFlowId, s.granted)
    {
      if s.tasks[t].Assigning? {
        RegisteredAfterTake(s.rxFlows, id, s.tasks[t].id, s.tasks[t].idx);
      }
    }
  }

  lemma {:induction false} TakeStops(s: State, id: nat)
    requires StopsOk(s.stops, s.granted, s.taken) && id !in s.taken
    ensures StopsOk(s.stops, s.granted, s.taken + [id])
    ensures forall k :: 0 <= k < |s.stops| ==> s.stops[k].id != id
  {
  }

  lemma {:induction false} TakingKeeps(s: State, id: nat, rest: seq<Request>)
    requires Inv(s) && s.control == Taking(id, rest)
    ensures Inv(s.(rxFlows := Without(s.rxFlows, id), taken := s.taken + [id],
                   control := Removing(id, Entry(s.rxFlows, id), rest)))
  {
    TakeFlows(s, id);
    TakeSubs(s, id);
    TakeTasks(s, id);
    TakeStops(s, id);
    EntryMeans(s.rxFlows, id);
    hide FlowsOk, SubsOk, TasksOk, Entry, NoRepeats, StatusOk, StopsOk, Without;
  }

  lemma {:induction false} StoppingKeeps(s: State, info: FlowInfo, rest: seq<Request>)
    requires Inv(s) && s.control == Stopping(Some(info), rest)
    ensures Inv(s.(control := Ready(rest)))
    ensures info.handle.Some? ==>
      Inv(s.(stops := s.stops + [Stop(info.id, info.handle.value, info.txAddr)], control := Ready(rest)))
  {
    hide FlowsOk, SubsOk, TasksOk, Entry, NoRepeats, StatusOk;
  }

  lemma {:induction false} ControlKeeps(s: State)
    requires Inv(s) && s.control != Ready([])
    ensures Inv(ControlNext(s))
  {
    assert ControlOk(s);
    hide Inv, Send, NextRecord, Entry, Without, Free, Unassigned;
    match s.control
    case Ready(rs) =>
      RecordKeeps(s, rs[0], rs[1..]);
    case Enabling(r, rest) =>
      var patched := SetPatched(s.patched, if r.localId > 0 then r.localId - 1 else 0, true);
      SpawnKeeps(s, r);
      PatchedKeeps(s.(tasks := s.tasks + [Spawned(r)]), patched);
      ControlMoves(s.(tasks := s.tasks + [Spawned(r)], patched := patched), Ready(rest));
    case Disabling(idx, freed, rest) =>
      var s1 := s.(patched := SetPatched(s.patched, idx, false));
      PatchedKeeps(s, s1.patched);
      ControlMoves(s1, if freed.Some? then Taking(freed.value, rest) else Ready(rest));
    case Taking(id, rest) =>
      TakingKeeps(s, id, rest);
    case Removing(id, info, rest) =>
      SendKeeps(s, RemoveFlow(id));
      SendOnlyQueues(s, RemoveFlow(id));
      ControlMoves(Send(s, RemoveFlow(id)), Stopping(info, rest));
    case Stopping(info, rest) =>
      StoppingKeeps(s, info.value, rest);
  }

  lemma {:induction false} SendOnlyQueues(s: State, c: Command)
    ensures Send(s, c) == s.(queue := Send(s, c).queue)
  {
  }

  // ---- the media thread ----

  lemma {:induction false} MediaKeeps(s: State)
    requires Inv(s) && s.queue != []
    ensures Inv(MediaNext(s))
  {
    hide FlowsOk, SubsOk, TasksOk, Entry, NoRepeats, StatusOk, StopsOk, Free, Unassigned;
  }

  lemma {:induction false} ReceivingKeeps(s: State, id: nat)
    requires Inv(s) && id in s.heard
    ensures Inv(s.(subs := Receiving(s.subs, id)))
  {
    hide Entry, Distinct, NoRepeats, StopsOk;
  }

  lemma {:induction false} HeardKeeps(s: State, id: nat)
    requires Inv(s) && id in s.sawPacket
    ensures Inv(s.(heard := s.heard + {id}))
    ensures Inv(s.(heard := s.heard + {id}, sawPacket := s.sawPacket[id := true]))
  {
    hide FlowsOk, SubsOk, TasksOk, Entry, NoRepeats, StopsOk, Free, Unassigned;
  }

  lemma {:induction false} PacketKeeps(s: State, id: nat)
    requires Inv(s) && id in s.sawPacket
    ensures Inv(PacketNext(s, id))
  {
    hide Inv, Receiving;
    HeardKeeps(s, id);
    if !s.sawPacket[id] {
      ReceivingKeeps(s.(heard := s.heard + {id}, sawPacket := s.sawPacket[id := true]), id);
    }
  }

  /** Every enabled step of every thread keeps the invariant. */
  lemma {:induction false} NextInv(s: State, a: Action)
    requires Inv(s) && Enabled(s, a)
    ensures Inv(Next(s, a))
  {
    hide Inv, ControlNext, TaskNext, MediaNext, PacketNext, Send;
    match a
    case Receive(rs) => ControlMoves(s, Ready(rs));
    case ControlStep => ControlKeeps(s);
    case TaskStep(t, o) => TaskKeeps(s, t, o);
    case MediaStep => MediaKeeps(s);
    case MediaPacket(id) => PacketKeeps(s, id);
    case StopDevice => SendKeeps(s, Shutdown);
  }

  lemma {:induction false} RunInv(s: State, actions: seq<Action>)
    requires Inv(s) && Runs(s, actions)
    ensures Inv(After(s, actions))
    decreases |actions|
  {
    hide Inv, Next, Enabled;
    if actions != [] {
      NextInv(s, actions[0]);
      RunInv(Next(s, actions[0]), actions[1..]);
    }
  }

  lemma {:induction false} ReachableInv(s: State, actions: seq<Action>)
    requires Init(s) && Runs(s, actions)
    ensures Inv(After(s, actions))
  {
    hide Inv, Init, Runs, After;
    InitInv(s);
    RunInv(s, actions);
  }

  // ---- what the remembered sets stand for ----

  lemma {:induction false} NextHears(s: State, a: Action, id: nat)
    requires Enabled(s, a) && id in Next(s, a).heard && id !in s.heard
    ensures a == MediaPacket(id)
  {
  }

  lemma {:induction false} HeardWasDecoded(s: State, actions: seq<Action>, id: nat)
    requires Runs(s, actions) && id in After(s, actions).heard && id !in s.heard
    ensures MediaPacket(id) in actions
    decreases |actions|
  {
    hide Next, Enabled;
    if actions != [] {
      if id in Next(s, actions[0]).heard {
        NextHears(s, actions[0], id);
      } else {
        HeardWasDecoded(Next(s, actions[0]), actions[1..], id);
      }
    }
  }

  /** In state s, the action is the acceptance by which the flow is granted: its task has requested exactly this
      flow from this address for this port and channel, and the transmitter answers with this handle. */
  predicate Grants(s: State, a: Action, info: FlowInfo) {
    && a.TaskStep? && a.task < |s.tasks| && s.tasks[a.task].Requesting?
    && s.tasks[a.task].id == info.id && s.tasks[a.task].addr == info.txAddr
    && s.tasks[a.task].port == info.port && [s.tasks[a.task].idx + 1] == info.channels
    && a.outcome == Accepted(info.handle)
  }

  lemma {:induction false} NextGrants(s: State, a: Action, id: nat)
    requires Inv(s) && Enabled(s, a) && id in Next(s, a).granted
    ensures id in s.granted ==> Next(s, a).granted[id] == s.granted[id]
    ensures id !in s.granted ==> Grants(s, a, Next(s, a).granted[id])
  {
    hide FlowsOk, SubsOk, Entry, NoRepeats, StatusOk, StopsOk, ControlOk, MediaOk, Registered, Free, Receiving, Without;
  }

  lemma {:induction false} GrantsPersist(s: State, actions: seq<Action>, id: nat)
    requires Inv(s) && Runs(s, actions) && id in s.granted
    ensures id in After(s, actions).granted && After(s, actions).granted[id] == s.granted[id]
    decreases |actions|
  {
    if actions != [] {
      NextGrantsMore(s, actions[0], id);
      NextInv(s, actions[0]);
      hide Inv, Next, Enabled;
      GrantsPersist(Next(s, actions[0]), actions[1..], id);
    }
  }

  lemma {:induction false} NextGrantsMore(s: State, a: Action, id: nat)
    requires Inv(s) && Enabled(s, a) && id in s.granted
    ensures id in Next(s, a).granted && Next(s, a).granted[id] == s.granted[id]
  {
    hide FlowsOk, SubsOk, Entry, NoRepeats, StatusOk, StopsOk, ControlOk, MediaOk, Registered, Free, Receiving, Without;
  }

  /** A prefix of a run is a run, one step shorter after its first step. */
  lemma {:induction false} PrefixRuns(s: State, actions: seq<Action>, k: nat)
    requires Runs(s, actions) && k <= |actions|
    ensures Runs(s, actions[..k])
    ensures k > 0 ==>
      && Runs(Next(s, actions[0]), actions[1..][..k - 1])
      && After(s, actions[..k]) == After(Next(s, actions[0]), actions[1..][..k - 1])
    decreases k
  {
    hide Next, Enabled;
    if k > 0 {
      PrefixRuns(Next(s, actions[0]), actions[1..], k - 1);
      assert actions[..k][1..] == actions[1..][..k - 1];
    }
  }

  /** Step k of the run is the acceptance by which the flow is granted. */
  ghost predicate GrantedAt(s: State, actions: seq<Action>, k: nat, info: FlowInfo)
    requires Runs(s, actions)
  {
    k < |actions| && Runs(s, actions[..k]) && Grants(After(s, actions[..k]), actions[k], info)
  }

  lemma {:induction false} GrantWasAccepted(s: State, actions: seq<Action>, id: nat) returns (k: nat)
    requires Inv(s) && Runs(s, actions) && id in After(s, actions).granted && id !in s.granted
    ensures GrantedAt(s, actions, k, After(s, actions).granted[id])
    decreases |actions|
  {
    NextInv(s, actions[0]);
    var s1, rest := Next(s, actions[0]), actions[1..];
    if id in s1.granted {
      NextGrants(s, actions[0], id);
      hide Inv, Next, Enabled, Grants;
      GrantsPersist(s1, rest, id);
      k := 0;
      assert actions[..0] == [];
    } else {
      hide Inv, Next, Enabled, Grants;
      var j := GrantWasAccepted(s1, rest, id);
      k := j + 1;
      PrefixRuns(s, actions, k);
    }
  }

  // ---- the safety properties of every run ----

  /** A subscription's flow is in the flow table, as a flow of that one channel, and nobody else's. */
  lemma {:induction false} FlowsBelongToTheirSubs(s: State, actions: seq<Action>, i: nat)
    requires Init(s) && Runs(s, actions)
    requires i < |After(s, actions).subs| && After(s, actions).subs[i].flowId.Some?
    ensures var e := After(s, actions);
      && (exists f <- e.rxFlows :: f.id == e.subs[i].flowId.value && f.channels == [i + 1])
      && forall j :: 0 <= j < |e.subs| && j != i ==> e.subs[j].flowId != e.subs[i].flowId
  {
    ReachableInv(s, actions);
    hide Runs, After, Init, Enabled, Next;
    var e := After(s, actions);
    EntryMeans(e.rxFlows, e.subs[i].flowId.value);
    assert Entry(e.rxFlows, e.subs[i].flowId.value).value in e.rxFlows;
    hide Entry, FlowsOk, TasksOk, ControlOk, StopsOk, StatusOk, NoRepeats, MediaOk;
  }

  /** A channel reported as receiving has a flow on which the media thread decoded a packet. */
  lemma {:induction false} ReceivingMeansDecoded(s: State, actions: seq<Action>, i: nat)
    requires Init(s) && Runs(s, actions)
    requires i < |After(s, actions).subs| && After(s, actions).subs[i].status == STATUS_RX_UNICAST
    ensures After(s, actions).subs[i].flowId.Some?
    ensures MediaPacket(After(s, actions).subs[i].flowId.value) in actions
  {
    ReachableInv(s, actions);
    assert StatusOk(After(s, actions).subs, After(s, actions).heard);
    assert s.heard == {};
    hide Inv, Runs, After, Init;
    HeardWasDecoded(s, actions, After(s, actions).subs[i].flowId.value);
  }

  /** The flow table holds exactly the flows that were granted and that `stop_flow` was not called for:
      a flow replaced by a new subscription of its channel stays. */
  lemma {:induction false} TableIsGrantedMinusTaken(s: State, actions: seq<Action>, id: nat)
    requires Init(s) && Runs(s, actions)
    ensures var e := After(s, actions);
      (exists f <- e.rxFlows :: f.id == id) <==> id in e.granted && id !in e.taken
  {
    ReachableInv(s, actions);
    hide Runs, After, Init, SubsOk, TasksOk, ControlOk, StatusOk, NoRepeats, MediaOk, StopsOk;
    EntryMeans(After(s, actions).rxFlows, id);
  }

  /** No flow is stopped twice, and a stop packet carries a handle that a transmitter gave for that flow. */
  lemma {:induction false} FlowsStopOnce(s: State, actions: seq<Action>)
    requires Init(s) && Runs(s, actions)
    ensures NoRepeats(After(s, actions).taken)
    ensures forall j, k :: 0 <= j < k < |After(s, actions).stops| ==>
      After(s, actions).stops[j].id != After(s, actions).stops[k].id
    ensures forall k :: 0 <= k < |After(s, actions).stops| ==>
      StopOk(After(s, actions).stops[k], After(s, actions).granted, After(s, actions).taken)
  {
    ReachableInv(s, actions);
    hide Runs, After, Init, SubsOk, FlowsOk, TasksOk, ControlOk, StatusOk, NoRepeats, MediaOk, StopOk;
  }

  lemma {:induction false} GrantsKeepIds(s: State, actions: seq<Action>)
    requires Init(s) && Runs(s, actions)
    ensures forall id <- After(s, actions).granted :: After(s, actions).granted[id].id == id
  {
    ReachableInv(s, actions);
    hide Runs, After, Init, SubsOk, TasksOk, ControlOk, StatusOk, NoRepeats, MediaOk, StopsOk, Entry, Distinct;
  }

  /** Every stop packet goes back to the transmitter that accepted its flow: earlier in the run a task requested
      exactly that flow from exactly that address, and the answer was exactly that handle. */
  lemma {:induction false} StopsUseGrantedHandles(s: State, actions: seq<Action>, n: nat) returns (k: nat)
    requires Init(s) && Runs(s, actions) && n < |After(s, actions).stops|
    ensures k < |actions| && Runs(s, actions[..k])
    ensures var stop, before, a := After(s, actions).stops[n], After(s, actions[..k]), actions[k];
      && a.TaskStep? && a.task < |before.tasks| && before.tasks[a.task].Requesting?
      && before.tasks[a.task].id == stop.id && before.tasks[a.task].addr == stop.addr
      && a.outcome == Accepted(Some(stop.handle))
  {
    InitInv(s);
    FlowsStopOnce(s, actions);
    GrantsKeepIds(s, actions);
    assert s.granted == map[];
    hide Inv, Runs, After, Init;
    assert StopOk(After(s, actions).stops[n], After(s, actions).granted, After(s, actions).taken);
    k := GrantWasAccepted(s, actions, After(s, actions).stops[n].id);
  }

  // ---- which channels are patched ----

  predicate Subscribed(s: Sub) { s.txChannel.Some? || s.txHost.Some? }

  /** A channel is patched exactly when it is subscribed, except for the one being switched right now. */
  ghost predicate PatchedOk(s: State) {
    && |s.patched| == |s.subs|
    && match s.control
       case Enabling(r, _) =>
         && 0 < r.localId <= |s.subs| && Subscribed(s.subs[r.localId - 1])
         && forall i :: 0 <= i < |s.subs| && i != r.localId - 1 ==> s.patched[i] == Subscribed(s.subs[i])
       case Disabling(idx, _, _) =>
         && idx < |s.subs| && !Subscribed(s.subs[idx])
         && forall i :: 0 <= i < |s.subs| && i != idx ==> s.patched[i] == Subscribed(s.subs[i])
       case _ => forall i :: 0 <= i < |s.subs| ==> s.patched[i] == Subscribed(s.subs[i])
  }

  /** The step changes no name of a subscription, no patch bit, and does not move the control task. */
  ghost predicate KeepsNames(a: State, b: State) {
    a.patched == b.patched && a.control == b.control && SameNames(a.subs, b.subs)
  }

  ghost predicate SameNames(a: seq<Sub>, b: seq<Sub>) {
    |a| == |b| && forall i :: 0 <= i < |a| ==> Subscribed(b[i]) == Subscribed(a[i])
  }

  lemma {:induction false} TablesKeepNames(subs: seq<Sub>, idx: nat, status: u32, id: nat)
    ensures SameNames(subs, WithStatus(subs, idx, status)) && SameNames(subs, Assigned(subs, idx, id))
    ensures SameNames(subs, Receiving(subs, id)) && SameNames(subs, subs)
  {
  }

  lemma {:induction false} TaskKeepsNames(s: State, t: nat, o: Outcome)
    requires t < |s.tasks|
    ensures KeepsNames(s, TaskNext(s, t, o))
  {
    var status := if o.Resolved? then STATUS_ESTABLISHING else STATUS_UNRESOLVED;
    TablesKeepNames(s.subs, 0, STATUS_UNRESOLVED, 0);
    match s.tasks[t] {
      case Resolving(idx) => TablesKeepNames(s.subs, idx, status, 0);
      case Binding(idx, _) => TablesKeepNames(s.subs, idx, STATUS_UNRESOLVED, 0);
      case Requesting(idx, _, _, _) => TablesKeepNames(s.subs, idx, STATUS_UNRESOLVED, 0);
      case Assigning(idx, id) => TablesKeepNames(s.subs, idx, STATUS_UNRESOLVED, id);
      case Announcing(idx, _) => TablesKeepNames(s.subs, idx, STATUS_UNRESOLVED, 0);
      case _ =>
    }
    hide SameNames, WithStatus, Assigned;
  }

  lemma {:induction false} MediaKeepsNames(s: State, id: nat)
    ensures s.queue != [] ==> KeepsNames(s, MediaNext(s))
    ensures id in s.sawPacket ==> KeepsNames(s, PacketNext(s, id))
    ensures KeepsNames(s, Send(s, Shutdown))
  {
  }

  lemma {:induction false} NamesKeepPatched(s: State, s1: State)
    requires PatchedOk(s) && KeepsNames(s, s1)
    ensures PatchedOk(s1)
  {
    hide Subscribed;
  }

  lemma {:induction false} ControlPatched(s: State)
    requires PatchedOk(s) && s.control != Ready([])
    ensures PatchedOk(ControlNext(s))
  {
    hide Entry, Without;
  }

  lemma {:induction false} NextPatched(s: State, a: Action)
    requires PatchedOk(s) && Enabled(s, a)
    ensures PatchedOk(Next(s, a))
  {
    hide KeepsNames, ControlNext, TaskNext, MediaNext, PacketNext, Send;
    match a
    case Receive(_) =>
    case ControlStep => ControlPatched(s);
    case TaskStep(t, o) =>
      TaskKeepsNames(s, t, o);
      NamesKeepPatched(s, Next(s, a));
    case MediaStep =>
      MediaKeepsNames(s, 0);
      NamesKeepPatched(s, Next(s, a));
    case MediaPacket(id) =>
      MediaKeepsNames(s, id);
      NamesKeepPatched(s, Next(s, a));
    case StopDevice =>
      MediaKeepsNames(s, 0);
      NamesKeepPatched(s, Next(s, a));
  }

  lemma {:induction false} RunPatched(s: State, actions: seq<Action>)
    requires PatchedOk(s) && Runs(s, actions)
    ensures PatchedOk(After(s, actions))
    decreases |actions|
  {
    hide PatchedOk, Next, Enabled;
    if actions != [] {
      NextPatched(s, actions[0]);
      RunPatched(Next(s, actions[0]), actions[1..]);
    }
  }

  lemma {:induction false} InitPatched(s: State)
    requires Init(s)
    ensures PatchedOk(s)
  {
  }

  /** In every reachable state the patched channels are the subscribed ones, leaving aside the one channel whose
      record the control task is applying at that moment. */
  lemma {:induction false} PatchedFollowsSubscribed(s: State, actions: seq<Action>)
    requires Init(s) && Runs(s, actions)
    ensures PatchedOk(After(s, actions))
    ensures var e := After(s, actions);
      e.control.Ready? ==> forall i :: 0 <= i < |e.subs| ==> e.patched[i] == Subscribed(e.subs[i])
  {
    InitPatched(s);
    hide Init, Runs, After, Subscribed;
    RunPatched(s, actions);
  }
}
