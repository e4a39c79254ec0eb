/** The subscription table and the flow table of the device, one method per locked region. */
module Subscriptions {
  import opened Machine
  import opened Bytes

  const STATUS_NONE: u32 := 0
  const STATUS_UNRESOLVED: u32 := 1
  const STATUS_ESTABLISHING: u32 := 8
  const STATUS_RX_UNICAST: u32 := 0x0101_0009

  type Handle = b: Bytes | |b| == 6 witness [0, 0, 0, 0, 0, 0]

  datatype Addr = Addr(ip: Ipv4, port: u16)

  /** A subscription of one receive channel. Flow ids are unbounded here: the counter does not wrap. */
  datatype Sub = Sub(txChannel: Option<Text>, txHost: Option<Text>, status: u32, flowId: Option<nat>)

  const NO_SUB: Sub := Sub(None, None, STATUS_NONE, None)

  datatype FlowInfo = FlowInfo(id: nat, channels: seq<nat>, port: u16, handle: Option<Handle>, txAddr: Addr)

  /** One record of a subscribe request; a record without any name unsubscribes. */
  datatype Request = Request(localId: u16, txChannel: Option<Text>, txHost: Option<Text>) {
    predicate Unsubscribes() { txChannel.None? && txHost.None? }
  }

  // ---- the effect of each locked region ----

  function WithStatus(subs: seq<Sub>, idx: nat, status: u32): (r: seq<Sub>)
    ensures |r| == |subs|
  {
    if idx < |subs| then subs[idx := subs[idx].(status := status)] else subs
  }

  function Applied(subs: seq<Sub>, r: Request): (after: seq<Sub>)
    requires 0 < r.localId <= |subs|
    ensures |after| == |subs|
  {
    var idx := r.localId - 1;
    if r.Unsubscribes() then subs[idx := NO_SUB]
    else subs[idx := subs[idx].(txChannel := r.txChannel, txHost := r.txHost, status := STATUS_UNRESOLVED)]
  }

  function Assigned(subs: seq<Sub>, idx: nat, id: nat): (r: seq<Sub>)
    ensures |r| == |subs|
  {
    if idx < |subs| then subs[idx := subs[idx].(flowId := Some(id), status := STATUS_ESTABLISHING)] else subs
  }

  function Marked(s: Sub, id: nat): Sub {
    if s.flowId == Some(id) then s.(status := STATUS_RX_UNICAST) else s
  }

  function Receiving(subs: seq<Sub>, id: nat): (r: seq<Sub>)
    ensures |r| == |subs|
  {
    seq(|subs|, i requires 0 <= i < |subs| => Marked(subs[i], id))
  }

  /** Position of the first flow with this id, or |flows|. */
  function Position(flows: seq<FlowInfo>, id: nat): (i: nat)
    ensures i <= |flows| && (i < |flows| ==> flows[i].id == id)
    ensures forall k :: 0 <= k < i ==> flows[k].id != id
  {
    if flows == [] || flows[0].id == id then 0 else 1 + Position(flows[1..], id)
  }

  /** The registered flow with this id. */
  function Entry(flows: seq<FlowInfo>, id: nat): Option<FlowInfo> {
    var i := Position(flows, id);
    if i < |flows| then Some(flows[i]) else None
  }

  function Without(flows: seq<FlowInfo>, id: nat): seq<FlowInfo> {
    var i := Position(flows, id);
    if i < |flows| then flows[..i] + flows[i + 1..] else flows
  }

  // ---- the effect of one establish task ----

  /** What the world answers to an establish task: the transmitter's address, if it is found and has our rate; a
      media port; the reply to the flow request; and whether the media thread still takes commands. */
  datatype Answers =
    Answers(transmitter: Option<Addr>, port: Option<u16>, reply: Option<Option<Handle>>, mediaUp: bool)

  datatype Book = Book(subs: seq<Sub>, flows: seq<FlowInfo>, next: nat)

  /** The tables after an establish task that nobody interleaves with. */
  function Established(b: Book, r: Request, w: Answers): Book
    requires r.localId > 0
  {
    var idx := r.localId - 1;
    var failed := WithStatus(b.subs, idx, STATUS_UNRESOLVED);
    if r.txChannel.None? || r.txHost.None? then b
    else if w.transmitter.None? || w.port.None? then b.(subs := failed)
    else if w.reply.None? then b.(subs := failed, next := b.next + 1)
    else
      var onFlow := Assigned(b.subs, idx, b.next);
      Book(if w.mediaUp then onFlow else WithStatus(onFlow, idx, STATUS_UNRESOLVED),
           b.flows + [FlowInfo(b.next, [r.localId], w.port.value, w.reply.value, w.transmitter.value)], b.next + 1)
  }

  /** What that is: without both names nothing changes. A failed step reports the channel unresolved; the flow id is
      used up from the request on. Success registers the flow for the channel and gives it its id, establishing, or
      unresolved if the media thread is gone. */
  lemma {:induction false} EstablishedMeans(b: Book, r: Request, w: Answers, i: nat)
    requires 0 < r.localId <= |b.subs| && i < |b.subs|
    ensures var n, named := Established(b, r, w), r.txChannel != None && r.txHost != None;
      var asked := named && w.transmitter != None && w.port != None;
      && |n.subs| == |b.subs| && (i != r.localId - 1 ==> n.subs[i] == b.subs[i])
      && n.next == (if asked then b.next + 1 else b.next)
      && n.flows == (if asked && w.reply != None
                     then b.flows + [FlowInfo(b.next, [r.localId], w.port.value, w.reply.value, w.transmitter.value)]
                     else b.flows)
      && (i == r.localId - 1 ==>
            n.subs[i] == if !named then b.subs[i]
                         else if !asked || w.reply == None then b.subs[i].(status := 1)
                         else b.subs[i].(flowId := Some(b.next), status := if w.mediaUp then 8 else 1))
  {
  }

  /** The flow the media thread is then told to receive, if any. */
  function Announced(b: Book, r: Request, w: Answers): Option<nat> {
    if r.txChannel.Some? && r.txHost.Some? && w.transmitter.Some? && w.port.Some? && w.reply.Some? && w.mediaUp
    then Some(b.next) else None
  }

  // ---- the code of each locked region ----

  class Tables {
    const subs: array<Sub>
    var rxFlows: seq<FlowInfo>
    var nextFlowId: nat

    constructor (channels: nat)
      ensures fresh(subs) && subs[..] == seq(channels, _ => NO_SUB) && rxFlows == [] && nextFlowId == 1
    {
      subs := new Sub[channels](_ => NO_SUB);
      rxFlows := [];
      nextFlowId := 1;
      new;
      assert subs[..] == seq(channels, _ => NO_SUB);
    }

    /** The locked part of `apply`: the flow the record gives up, if any. */
    method ApplyRecord(r: Request) returns (freed: Option<nat>)
      requires 0 < r.localId <= subs.Length
      modifies subs
      ensures subs[..] == Applied(old(subs[..]), r)
      ensures forall i :: 0 <= i < subs.Length && i != r.localId - 1 ==> subs[i] == old(subs[i])
      ensures var was, now := old(subs[r.localId - 1]), subs[r.localId - 1];
        if r.txChannel == None && r.txHost == None then now == Sub(None, None, 0, None) && freed == was.flowId
        else now == Sub(r.txChannel, r.txHost, 1, was.flowId) && freed == None
    {
      var idx := r.localId - 1;
      freed := None;
      if r.txChannel.None? && r.txHost.None? {
        freed := subs[idx].flowId;
        subs[idx] := NO_SUB;
      } else {
        subs[idx] := subs[idx].(txChannel := r.txChannel);
        subs[idx] := subs[idx].(txHost := r.txHost);
        subs[idx] := subs[idx].(status := STATUS_UNRESOLVED);
      }
    }

    method SetStatus(idx: nat, status: u32)
      modifies subs
      ensures subs[..] == WithStatus(old(subs[..]), idx, status)
    {
      if idx < subs.Length {
        subs[idx] := subs[idx].(status := status);
      }
    }

    method MarkFlowReceiving(id: nat)
      modifies subs
      ensures subs[..] == Receiving(old(subs[..]), id)
      ensures forall i :: 0 <= i < subs.Length ==>
                subs[i] == if old(subs[i]).flowId == Some(id) then old(subs[i]).(status := 0x0101_0009)
                           else old(subs[i])
    {
      for i := 0 to subs.Length
        invariant forall k :: 0 <= k < i ==> subs[k] == Marked(old(subs[k]), id)
        invariant forall k :: i <= k < subs.Length ==> subs[k] == old(subs[k])
      {
        if subs[i].flowId == Some(id) {
          subs[i] := subs[i].(status := STATUS_RX_UNICAST);
        }
      }
    }

    method AllocateFlow() returns (id: nat)
      modifies this`nextFlowId
      ensures id == old(nextFlowId) && nextFlowId == id + 1
    {
      id := nextFlowId;
      nextFlowId := nextFlowId + 1;
    }

    method RegisterFlow(info: FlowInfo)
      modifies this`rxFlows
      ensures rxFlows == old(rxFlows) + [info]
    {
      rxFlows := rxFlows + [info];
    }

    method AssignFlow(idx: nat, id: nat)
      modifies subs
      ensures subs[..] == Assigned(old(subs[..]), idx, id)
    {
      if idx < subs.Length {
        subs[idx] := subs[idx].(flowId := Some(id));
        subs[idx] := subs[idx].(status := STATUS_ESTABLISHING);
      }
    }

    ghost function State(): Book
      reads this, subs
    {
      Book(subs[..], rxFlows, nextFlowId)
    }

    /** `establish`: its locked regions in their order, with every early return. */
    method Establish(r: Request, w: Answers) returns (announced: Option<nat>)
      requires r.localId > 0
      modifies this`rxFlows, this`nextFlowId, subs
      ensures State() == Established(old(State()), r, w)
      ensures announced == Announced(old(State()), r, w)
    {
      announced := None;
      if r.txChannel.None? || r.txHost.None? {
        return;
      }
      var idx := r.localId - 1;
      if w.transmitter.None? {
        SetStatus(idx, STATUS_UNRESOLVED);
        return;
      }
      SetStatus(idx, STATUS_ESTABLISHING);
      if w.port.None? {
        SetStatus(idx, STATUS_UNRESOLVED);
        return;
      }
      var id := AllocateFlow();
      if w.reply.None? {
        SetStatus(idx, STATUS_UNRESOLVED);
        return;
      }
      RegisterFlow(FlowInfo(id, [r.localId], w.port.value, w.reply.value, w.transmitter.value));
      AssignFlow(idx, id);
      if w.mediaUp {
        announced := Some(id);
      } else {
        SetStatus(idx, STATUS_UNRESOLVED);
      }
    }

    /** The locked part of `stop_flow`: take the flow out of the table. */
    method TakeFlow(id: nat) returns (info: Option<FlowInfo>)
      modifies this`rxFlows
      ensures info == Entry(old(rxFlows), id) && rxFlows == Without(old(rxFlows), id)
      ensures info == None ==> rxFlows == old(rxFlows) && forall f <- rxFlows :: f.id != id
      ensures info != None ==>
        exists k :: && 0 <= k < |old(rxFlows)| && old(rxFlows)[k] == info.value && info.value.id == id
                    && (forall j :: 0 <= j < k ==> old(rxFlows)[j].id != id)
                    && rxFlows == old(rxFlows)[..k] + old(rxFlows)[k + 1..]
    {
      var i := 0;
      while i < |rxFlows| && rxFlows[i].id != id
        invariant i <= |rxFlows| && rxFlows == old(rxFlows)
        invariant forall k :: 0 <= k < i ==> rxFlows[k].id != id
      {
        i := i + 1;
      }
      assert i == Position(rxFlows, id);
      if i == |rxFlows| {
        return None;
      }
      info := Some(rxFlows[i]);
      rxFlows := rxFlows[..i] + rxFlows[i + 1..];
    }
  }

  // ---- the flow table as a map from ids ----

  ghost predicate Distinct(flows: seq<FlowInfo>) {
    forall i, j :: 0 <= i < j < |flows| ==> flows[i].id != flows[j].id
  }

  lemma {:induction false} EntryMeans(flows: seq<FlowInfo>, id: nat)
    ensures Entry(flows, id).None? <==> forall i :: 0 <= i < |flows| ==> flows[i].id != id
    ensures Entry(flows, id).Some? ==> Entry(flows, id).value in flows && Entry(flows, id).value.id == id
  {
  }

  lemma {:induction false} AfterRegister(flows: seq<FlowInfo>, info: FlowInfo, id: nat)
    requires Entry(flows, info.id).None?
    ensures Entry(flows + [info], id) == if id == info.id then Some(info) else Entry(flows, id)
  {
    var i := Position(flows + [info], id);
    if i < |flows| {
      assert (flows + [info])[i] == flows[i];
    }
    assert forall k :: 0 <= k < |flows| ==> (flows + [info])[k] == flows[k];
    assert (flows + [info])[|flows|] == info;
  }

  lemma {:induction false} EntryOf(flows: seq<FlowInfo>, i: nat)
    requires Distinct(flows) && i < |flows|
    ensures Entry(flows, flows[i].id) == Some(flows[i])
  {
  }

  /** Which flows are left after one was taken. */
  lemma {:induction false} TakenOut(flows: seq<FlowInfo>, gone: nat)
    requires Distinct(flows)
    ensures var g, rest := Position(flows, gone), Without(flows, gone);
      && |rest| == (if g < |flows| then |flows| - 1 else |flows|)
      && (forall k :: 0 <= k < |rest| ==> rest[k] == if k < g then flows[k] else flows[k + 1])
      && (forall k :: 0 <= k < |rest| ==> rest[k] in flows && rest[k].id != gone)
  {
  }

  lemma {:induction false} StillDistinct(flows: seq<FlowInfo>, gone: nat)
    requires Distinct(flows)
    ensures Distinct(Without(flows, gone))
  {
    TakenOut(flows, gone);
    hide Without, Position;
  }

  lemma {:induction false} AfterTake(flows: seq<FlowInfo>, gone: nat, id: nat)
    requires Distinct(flows)
    ensures Entry(Without(flows, gone), id) == if id == gone then None else Entry(flows, id)
    ensures Distinct(Without(flows, gone))
    ensures forall f <- Without(flows, gone) :: f in flows && f.id != gone
  {
    StillDistinct(flows, gone);
    TakenOut(flows, gone);
    EntryMeans(flows, id);
    EntryMeans(Without(flows, gone), id);
    hide Without, Distinct, Entry;
    var g, rest, j := Position(flows, gone), Without(flows, gone), Position(flows, id);
    hide Position;
    if id != gone && j < |flows| {
      assert rest[if j < g then j else j - 1] == flows[j];
      EntryOf(flows, j);
      EntryOf(rest, if j < g then j else j - 1);
    }
  }
}
