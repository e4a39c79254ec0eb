/** Subscribing as atomic steps: one control task, any number of establish tasks, and the media thread,
    interleaved at every locked region and channel send. Network replies and socket calls may do anything. */
module Subscribe {
  import opened Machine
  import opened Bytes
  import opened Subscriptions

  /** Where the control task is inside `apply`, with the records still to come. */
  datatype Control =
    | Ready(rest: seq<Request>)
    | Enabling(record: Request, rest: seq<Request>)
    | Disabling(idx: nat, freed: Option<nat>, rest: seq<Request>)
    | Taking(id: nat, rest: seq<Request>)
    | Removing(id: nat, info: Option<FlowInfo>, rest: seq<Request>)
    | Stopping(info: Option<FlowInfo>, rest: seq<Request>)

  /** Where one `establish` task is. */
  datatype Task =
    | Spawned(record: Request)
    | Resolving(idx: nat)
    | Binding(idx: nat, addr: Addr)
    | Requesting(idx: nat, addr: Addr, port: u16, id: nat)
    | Assigning(idx: nat, id: nat)
    | Announcing(idx: nat, id: nat)
    | Finished

  datatype Command = AddFlow(id: nat, idx: nat) | RemoveFlow(id: nat) | Shutdown

  /** A stop packet on its way to a transmitter. */
  datatype Stop = Stop(id: nat, handle: Handle, addr: Addr)

  /** The shared state, then what only the proof remembers: every flow ever registered, the ids
      `stop_flow` was called with, and the ids the media thread has decoded a packet on. */
  datatype State = State(
    subs: seq<Sub>, patched: seq<bool>, rxFlows: seq<FlowInfo>, nextFlowId: nat,
    control: Control, tasks: seq<Task>,
    mediaUp: bool, queue: seq<Command>, sawPacket: map<nat, bool>,
    stops: seq<Stop>, granted: map<nat, FlowInfo>, taken: seq<nat>, heard: set<nat>)

  predicate Init(s: State) {
    && s.subs == seq(|s.patched|, _ => NO_SUB)
    && (forall i :: 0 <= i < |s.patched| ==> !s.patched[i])
    && s.rxFlows == [] && s.nextFlowId == 1
    && s.control == Ready([]) && s.tasks == []
    && s.mediaUp && s.queue == [] && s.sawPacket == map[]
    && s.stops == [] && s.granted == map[] && s.taken == [] && s.heard == {}
  }

  /** What the world answers to one step of an establish task. */
  datatype Outcome =
    | Failed
    | Resolved(addr: Addr)
    | Bound(port: u16)
    | Accepted(handle: Option<Handle>)

  datatype Action =
    | Receive(records: seq<Request>)
    | ControlStep
    | TaskStep(task: nat, outcome: Outcome)
    | MediaStep
    | MediaPacket(id: nat)
    | StopDevice

  predicate Enabled(s: State, a: Action) {
    match a
    case Receive(_) => s.control == Ready([])
    case ControlStep => s.control != Ready([])
    case TaskStep(t, _) => t < |s.tasks|
    case MediaStep => s.mediaUp && s.queue != []
    case MediaPacket(id) => s.mediaUp && id in s.sawPacket
    case StopDevice => true
  }

  function Send(s: State, c: Command): State { if s.mediaUp then s.(queue := s.queue + [c]) else s }

  function NextRecord(s: State, r: Request, rest: seq<Request>): State {
    if r.localId == 0 || r.localId > |s.subs| then s.(control := Ready(rest))
    else
      s.(subs := Applied(s.subs, r),
         control := if r.Unsubscribes() then Disabling(r.localId - 1, s.subs[r.localId - 1].flowId, rest)
                    else Enabling(r, rest))
  }

  function SetPatched(patched: seq<bool>, idx: nat, on: bool): (r: seq<bool>)
    ensures |r| == |patched|
  {
    if idx < |patched| then patched[idx := on] else patched
  }

  function ControlNext(s: State): State
    requires s.control != Ready([])
  {
    match s.control
    case Ready(rs) => NextRecord(s, rs[0], rs[1..])
    case Enabling(r, rest) =>
      s.(patched := SetPatched(s.patched, if r.localId > 0 then r.localId - 1 else 0, true),
         tasks := s.tasks + [Spawned(r)], control := Ready(rest))
    case Disabling(idx, freed, rest) =>
      s.(patched := SetPatched(s.patched, idx, false),
         control := if freed.Some? then Taking(freed.value, rest) else Ready(rest))
    case Taking(id, rest) =>
      s.(rxFlows := Without(s.rxFlows, id), taken := s.taken + [id],
         control := Removing(id, Entry(s.rxFlows, id), rest))
    case Removing(id, info, rest) => Send(s, RemoveFlow(id)).(control := Stopping(info, rest))
    case Stopping(info, rest) =>
      s.(stops := if info.Some? && info.value.handle.Some?
                  then s.stops + [Stop(info.value.id, info.value.handle.value, info.value.txAddr)] else s.stops,
         control := Ready(rest))
  }

  /** A step that fails reports the channel unresolved and ends its task. */
  function GiveUp(s: State, t: nat, idx: nat): State
    requires t < |s.tasks|
  {
    s.(subs := WithStatus(s.subs, idx, STATUS_UNRESOLVED), tasks := s.tasks[t := Finished])
  }

  function Register(s: State, t: nat, idx: nat, info: FlowInfo): State
    requires t < |s.tasks|
  {
    s.(rxFlows := s.rxFlows + [info], granted := s.granted[info.id := info],
       tasks := s.tasks[t := Assigning(idx, info.id)])
  }

  function TaskNext(s: State, t: nat, o: Outcome): State
    requires t < |s.tasks|
  {
    match s.tasks[t]
    case Spawned(r) =>
      s.(tasks := s.tasks[t := if r.txChannel.Some? && r.txHost.Some? && r.localId > 0
                               then Resolving(r.localId - 1) else Finished])
    case Resolving(idx) =>
      if !o.Resolved? then GiveUp(s, t, idx)
      else s.(subs := WithStatus(s.subs, idx, STATUS_ESTABLISHING), tasks := s.tasks[t := Binding(idx, o.addr)])
    case Binding(idx, addr) =>
      if !o.Bound? then GiveUp(s, t, idx)
      else
        s.(nextFlowId := s.nextFlowId + 1,
           tasks := s.tasks[t := Requesting(idx, addr, o.port, s.nextFlowId)])
    case Requesting(idx, addr, port, id) =>
      if !o.Accepted? then GiveUp(s, t, idx)
      else Register(s, t, idx, FlowInfo(id, [idx + 1], port, o.handle, addr))
    case Assigning(idx, id) =>
      s.(subs := Assigned(s.subs, idx, id), tasks := s.tasks[t := Announcing(idx, id)])
    case Announcing(idx, id) =>
      if s.mediaUp then Send(s, AddFlow(id, idx)).(tasks := s.tasks[t := Finished]) else GiveUp(s, t, idx)
    case Finished => s
  }

  function MediaNext(s: State): State
    requires s.queue != []
  {
    var rest := s.queue[1..];
    match s.queue[0]
    case AddFlow(id, _) => s.(queue := rest, sawPacket := s.sawPacket[id := false])
    case RemoveFlow(id) => s.(queue := rest, sawPacket := s.sawPacket - {id})
    case Shutdown => s.(queue := rest, sawPacket := map[], mediaUp := false)
  }

  /** A decoded packet; the first one on a flow reports its channel as receiving. */
  function PacketNext(s: State, id: nat): State
    requires id in s.sawPacket
  {
    var s1 := s.(heard := s.heard + {id});
    if s.sawPacket[id] then s1
    else s1.(sawPacket := s.sawPacket[id := true], subs := Receiving(s.subs, id))
  }

  function Next(s: State, a: Action): State
    requires Enabled(s, a)
  {
    match a
    case Receive(rs) => s.(control := Ready(rs))
    case ControlStep => ControlNext(s)
    case TaskStep(t, o) => TaskNext(s, t, o)
    case MediaStep => MediaNext(s)
    case MediaPacket(id) => PacketNext(s, id)
    case StopDevice => Send(s, Shutdown)
  }

  /** A run of enabled actions. */
  predicate Runs(s: State, actions: seq<Action>)
    decreases |actions|
  {
    actions == [] || (Enabled(s, actions[0]) && Runs(Next(s, actions[0]), actions[1..]))
  }

  function After(s: State, actions: seq<Action>): State
    requires Runs(s, actions)
    decreases |actions|
  {
    if actions == [] then s else After(Next(s, actions[0]), actions[1..])
  }

  // ---- an establish task that nobody interleaves with ----

  function StepsOf(t: nat, os: seq<Outcome>): (actions: seq<Action>)
    ensures |actions| == |os| && forall i :: 0 <= i < |os| ==> actions[i] == TaskStep(t, os[i])
  {
    seq(|os|, i requires 0 <= i < |os| => TaskStep(t, os[i]))
  }

  /** Task t makes one step for each of the outcomes, and nobody else does anything. */
  function Alone(s: State, t: nat, os: seq<Outcome>): State
    requires t < |s.tasks|
    decreases |os|
  {
    if os == [] then s else Alone(TaskNext(s, t, os[0]), t, os[1..])
  }

  lemma {:induction false} AloneIsARun(s: State, t: nat, os: seq<Outcome>)
    requires t < |s.tasks|
    ensures Runs(s, StepsOf(t, os)) && After(s, StepsOf(t, os)) == Alone(s, t, os)
    decreases |os|
  {
    hide TaskNext;
    if os != [] {
      TasksStay(s, t, os[0]);
      AloneIsARun(TaskNext(s, t, os[0]), t, os[1..]);
      assert StepsOf(t, os)[1..] == StepsOf(t, os[1..]);
    }
  }

  lemma TasksStay(s: State, t: nat, o: Outcome)
    requires t < |s.tasks|
    ensures |TaskNext(s, t, o).tasks| == |s.tasks|
  {
  }

  lemma {:induction false} FinishedStays(s: State, t: nat, os: seq<Outcome>)
    requires t < |s.tasks| && s.tasks[t] == Finished
    ensures Alone(s, t, os) == s
    decreases |os|
  {
    if os != [] {
      FinishedStays(s, t, os[1..]);
    }
  }

  function BookOf(s: State): Book { Book(s.subs, s.rxFlows, s.nextFlowId) }

  /** The answers of the world, as the outcomes of a task's steps. */
  function ReplyOutcomes(w: Answers): seq<Outcome> {
    [if w.reply.Some? then Accepted(w.reply.value) else Failed, Failed, Failed]
  }

  function PortOutcomes(w: Answers): seq<Outcome> {
    [if w.port.Some? then Bound(w.port.value) else Failed] + ReplyOutcomes(w)
  }

  function Outcomes(w: Answers): seq<Outcome> {
    [Failed, if w.transmitter.Some? then Resolved(w.transmitter.value) else Failed] + PortOutcomes(w)
  }

  /** What the task ends with: the tables, the finished task, and the command to the media thread. */
  ghost predicate EndsWith(s: State, after: State, t: nat, b: Book, command: seq<Command>) {
    BookOf(after) == b && after.queue == s.queue + command && |after.tasks| == |s.tasks| &&
    forall i :: 0 <= i < |s.tasks| ==> after.tasks[i] == if i == t then Finished else s.tasks[i]
  }

  /** The tables once an address is known, and once a port and a flow id are. */
  function PortBound(b: Book, idx: nat, addr: Addr, w: Answers): Book {
    if w.port.None? then b.(subs := WithStatus(b.subs, idx, STATUS_UNRESOLVED))
    else Replied(b.(next := b.next + 1), idx, addr, w.port.value, b.next, w)
  }

  function Replied(b: Book, idx: nat, addr: Addr, port: u16, id: nat, w: Answers): Book {
    if w.reply.None? then b.(subs := WithStatus(b.subs, idx, STATUS_UNRESOLVED))
    else
      var subs := Assigned(b.subs, idx, id);
      Book(if w.mediaUp then subs else WithStatus(subs, idx, STATUS_UNRESOLVED),
           b.flows + [FlowInfo(id, [idx + 1], port, w.reply.value, addr)], b.next)
  }

  lemma {:induction false} FromRequesting(s: State, t: nat, idx: nat, addr: Addr, port: u16, id: nat, w: Answers)
    requires t < |s.tasks| && s.tasks[t] == Requesting(idx, addr, port, id) && w.mediaUp == s.mediaUp
    ensures EndsWith(s, Alone(s, t, ReplyOutcomes(w)), t, Replied(BookOf(s), idx, addr, port, id, w),
                     if w.reply.Some? && w.mediaUp then [AddFlow(id, idx)] else [])
  {
    hide WithStatus, Assigned;
    var os := ReplyOutcomes(w);
    var s1 := TaskNext(s, t, os[0]);
    if w.reply.None? {
      FinishedStays(s1, t, os[1..]);
    } else {
      var s2 := TaskNext(s1, t, os[1]);
      var s3 := TaskNext(s2, t, os[2]);
      assert os[1..][1..] == [Failed] && os[1..][0] == Failed;
      assert s1.tasks[t] == Assigning(idx, id) && s2.tasks[t] == Announcing(idx, id);
      assert Alone(s, t, os) == Alone(s1, t, os[1..]) == Alone(s2, t, [Failed]) == Alone(s3, t, []) == s3;
    }
  }

  lemma {:induction false} FromBinding(s: State, t: nat, idx: nat, addr: Addr, w: Answers)
    requires t < |s.tasks| && s.tasks[t] == Binding(idx, addr) && w.mediaUp == s.mediaUp
    ensures EndsWith(s, Alone(s, t, PortOutcomes(w)), t, PortBound(BookOf(s), idx, addr, w),
                     if w.port.Some? && w.reply.Some? && w.mediaUp then [AddFlow(s.nextFlowId, idx)] else [])
  {
    hide WithStatus, Replied, ReplyOutcomes;
    var os := PortOutcomes(w);
    var s1 := TaskNext(s, t, os[0]);
    assert os[1..] == ReplyOutcomes(w);
    if w.port.None? {
      FinishedStays(s1, t, os[1..]);
    } else {
      FromRequesting(s1, t, idx, addr, w.port.value, s.nextFlowId, w);
    }
  }

  lemma LaterStatusWins(subs: seq<Sub>, idx: nat, early: u32, late: u32, id: nat)
    ensures WithStatus(WithStatus(subs, idx, early), idx, late) == WithStatus(subs, idx, late)
    ensures Assigned(WithStatus(subs, idx, early), idx, id) == Assigned(subs, idx, id)
  {
  }

  /** The tables from the resolved address on are those of the whole task. */
  lemma {:induction false} ResolvedIsEstablished(b: Book, r: Request, w: Answers)
    requires r.localId > 0 && r.txChannel.Some? && r.txHost.Some? && w.transmitter.Some?
    ensures PortBound(b.(subs := WithStatus(b.subs, r.localId - 1, STATUS_ESTABLISHING)), r.localId - 1,
                      w.transmitter.value, w)
         == Established(b, r, w)
  {
    hide WithStatus, Assigned;
    LaterStatusWins(b.subs, r.localId - 1, STATUS_ESTABLISHING, STATUS_UNRESOLVED, b.next);
  }

  /** The steps of a task, taken without interruption, do to the tables and to the media thread's queue what the code
      of `establish` does from top to bottom. */
  lemma {:induction false} EstablishIsItsSteps(s: State, t: nat, r: Request, w: Answers)
    requires t < |s.tasks| && s.tasks[t] == Spawned(r) && r.localId > 0 && w.mediaUp == s.mediaUp
    ensures Runs(s, StepsOf(t, Outcomes(w)))
    ensures var id := Announced(BookOf(s), r, w);
      EndsWith(s, After(s, StepsOf(t, Outcomes(w))), t, Established(BookOf(s), r, w),
               if id.Some? then [AddFlow(id.value, r.localId - 1)] else [])
  {
    var os := Outcomes(w);
    AloneIsARun(s, t, os);
    hide WithStatus, Runs, After, PortOutcomes, PortBound;
    var s1 := TaskNext(s, t, os[0]);
    assert os[1..][1..] == os[2..] == PortOutcomes(w);
    if r.txChannel.None? || r.txHost.None? {
      FinishedStays(s1, t, os[1..]);
      return;
    }
    var s2 := TaskNext(s1, t, os[1]);
    assert Alone(s, t, os) == Alone(s1, t, os[1..]) == Alone(s2, t, os[2..]);
    if w.transmitter.None? {
      FinishedStays(s2, t, os[2..]);
    } else {
      ResolvedIsEstablished(BookOf(s), r, w);
      hide Established, TaskNext;
      FromBinding(s2, t, r.localId - 1, w.transmitter.value, w);
    }
  }
}
