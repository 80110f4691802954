/** One call as its devices see it.  A call is a message; a device stores when it was accepted,
    ended and canceled.  Caller and callee may each have several devices, and the messages that
    keep them in step may be lost, duplicated or reordered. */
module Calls {
  import opened Collections

  const RINGING_SECONDS := 120

  /** The parameters of the call message. */
  datatype Call = Call(
    incoming: bool,
    sent: int,
    accepted: Option<int>,
    ended: Option<int>,
    canceled: Option<int>)

  datatype Event = IncomingCallAccepted(fromThisDevice: bool) | OutgoingCallAccepted | CallEnded

  datatype Kind = AcceptedMsg | EndedMsg

  // ----- views -----

  function RemainingRingSeconds(call: Call, now: int): int {
    var remaining := call.sent + RINGING_SECONDS - now;
    if remaining < 0 then 0 else if remaining > RINGING_SECONDS then RINGING_SECONDS else remaining
  }

  predicate IsStale(call: Call, now: int) {
    (call.incoming || call.sent != 0) && RemainingRingSeconds(call, now) <= 0
  }

  function DurationSeconds(call: Call): int {
    if call.accepted.Some? && call.ended.Some? then
      var seconds := call.ended.value - call.accepted.value;
      if seconds <= 0 then 1 else seconds
    else 0
  }

  datatype CallState = Alerting | Active | Completed(duration: int) | Missed | Declined | Canceled

  function State(call: Call, now: int): CallState {
    if call.incoming then
      if call.accepted.Some? then
        if call.ended.Some? then Completed(DurationSeconds(call)) else Active
      else if call.canceled.Some? then Missed
      else if call.ended.Some? then Declined
      else if IsStale(call, now) then Missed
      else Alerting
    else if call.accepted.Some? then
      if call.ended.Some? then Completed(DurationSeconds(call)) else Active
    else if call.canceled.Some? then Canceled
    else if call.ended.Some? || IsStale(call, now) then Declined
    else Alerting
  }

  // ----- what one device does -----

  /** A device's record of the call and the events it has shown to its user. */
  datatype Device = Device(call: Call, events: seq<Event>)

  function Accepted(d: Device, now: int): Device {
    d.(call := d.call.(accepted := Some(now)))
  }

  function Ended(d: Device, now: int): Device {
    d.(call := d.call.(ended := Some(now)))
  }

  function CanceledBy(d: Device, now: int): Device {
    d.(call := d.call.(ended := Some(now), canceled := Some(now)))
  }

  function Emit(d: Device, e: Event): Device {
    d.(events := d.events + [e])
  }

  predicate CanAccept(call: Call) {
    call.incoming && call.accepted.None? && call.ended.None?
  }

  /** The user picks up; `sends` tells whether the acceptance message could be queued. */
  function Accept(d: Device, now: int, sends: bool): Device {
    if !CanAccept(d.call) then d
    else if sends then Emit(Accepted(d, now), IncomingCallAccepted(true))
    else Accepted(d, now)
  }

  /** The user cancels, declines or hangs up. */
  function Hangup(d: Device, now: int, sends: bool): Device {
    if d.call.ended.Some? then d
    else
      var r := if d.call.accepted.None? && !d.call.incoming then CanceledBy(d, now) else Ended(d, now);
      if sends then Emit(r, CallEnded) else r
  }

  /** The ring timer fires. */
  function RingTimeout(d: Device, now: int): Device {
    if d.call.accepted.Some? || d.call.ended.Some? then d
    else Emit(if d.call.incoming then CanceledBy(d, now) else Ended(d, now), CallEnded)
  }

  /** A message about the call arrives; `fromSelf` if another device of the same user sent it. */
  function Receive(d: Device, kind: Kind, fromSelf: bool, now: int): Device {
    match kind
    case AcceptedMsg =>
      if d.call.ended.Some? || d.call.accepted.Some? then d
      else Emit(Accepted(d, now), if d.call.incoming then IncomingCallAccepted(false) else OutgoingCallAccepted)
    case EndedMsg =>
      if d.call.ended.Some? then d
      else if d.call.accepted.Some? then Emit(Ended(d, now), CallEnded)
      else Emit(if d.call.incoming == fromSelf then Ended(d, now) else CanceledBy(d, now), CallEnded)
  }

  /** The stored call message and the event channel, updated in place. */
  class CallMessage {
    const incoming: bool
    const sent: int
    var accepted: Option<int>
    var ended: Option<int>
    var canceled: Option<int>
    var events: seq<Event>

    function View(): Device
      reads this
    {
      Device(Call(incoming, sent, accepted, ended, canceled), events)
    }

    constructor (incoming: bool, sent: int)
      ensures View() == Device(Call(incoming, sent, None, None, None), [])
    {
      this.incoming, this.sent := incoming, sent;
      accepted, ended, canceled, events := None, None, None, [];
    }

    method MarkAsAccepted(now: int)
      modifies this`accepted
      ensures accepted == Some(now)
    {
      accepted := Some(now);
    }

    method MarkAsEnded(now: int)
      modifies this`ended
      ensures ended == Some(now)
    {
      ended := Some(now);
    }

    method MarkAsCanceled(now: int)
      modifies this`ended, this`canceled
      ensures ended == canceled == Some(now)
    {
      ended := Some(now);
      canceled := Some(now);
    }

    /** `Err` if the call is outgoing or the message could not be queued. */
    method AcceptIncomingCall(now: int, sends: bool) returns (r: Result<bool>)
      modifies this
      ensures View() == Accept(old(View()), now, sends)
      ensures r == if !incoming || (CanAccept(old(View()).call) && !sends) then Err else Ok(CanAccept(old(View()).call))
    {
      if !incoming { return Err; }
      if accepted.Some? || ended.Some? { return Ok(false); }
      MarkAsAccepted(now);
      if !sends { return Err; }
      events := events + [IncomingCallAccepted(true)];
      r := Ok(true);
    }

    method EndCall(now: int, sends: bool) returns (r: Result<bool>)
      modifies this
      ensures View() == Hangup(old(View()), now, sends)
      ensures r == if old(ended).Some? then Ok(false) else if sends then Ok(true) else Err
    {
      if ended.Some? { return Ok(false); }
      if accepted.None? {
        if incoming {
          MarkAsEnded(now);
        } else {
          MarkAsCanceled(now);
        }
      } else {
        MarkAsEnded(now);
      }
      if !sends { return Err; }
      events := events + [CallEnded];
      r := Ok(true);
    }

    method EmitEndCallIfUnaccepted(now: int)
      modifies this
      ensures View() == RingTimeout(old(View()), now)
    {
      if accepted.None? && ended.None? {
        if incoming {
          MarkAsCanceled(now);
        } else {
          MarkAsEnded(now);
        }
        events := events + [CallEnded];
      }
    }

    method HandleCallMsg(kind: Kind, fromSelf: bool, now: int)
      modifies this
      ensures View() == Receive(old(View()), kind, fromSelf, now)
    {
      match kind
      case AcceptedMsg =>
        if ended.Some? || accepted.Some? { return; }
        MarkAsAccepted(now);
        if incoming {
          events := events + [IncomingCallAccepted(false)];
        } else {
          events := events + [OutgoingCallAccepted];
        }
      case EndedMsg =>
        if ended.Some? { return; }
        if accepted.None? {
          if incoming {
            if fromSelf { MarkAsEnded(now); } else { MarkAsCanceled(now); }
          } else {
            if fromSelf { MarkAsCanceled(now); } else { MarkAsEnded(now); }
          }
        } else {
          MarkAsEnded(now);
        }
        events := events + [CallEnded];
    }
  }

  // ----- all devices and the messages between them -----

  type DeviceId = nat

  /** A message in transit: what it says and whose device sent it. */
  datatype Packet = Packet(kind: Kind, fromCallee: bool)

  /** `packets` only grows: a packet may be delivered never, once or often, in any order.
      The remaining sets record what users, timers and the network have done to each device; the mute
      ones those whose message about it could not be queued. */
  datatype Net = Net(
    devices: map<DeviceId, Device>,
    packets: set<Packet>,
    acceptors: set<DeviceId>,
    enders: set<DeviceId>,
    rungOut: set<DeviceId>,
    heard: map<DeviceId, set<Packet>>,
    mutePickups: set<DeviceId>,
    muteEnds: set<DeviceId>)

  datatype Action =
    | Join(device: DeviceId, incoming: bool, sent: int)
    | UserAccepts(device: DeviceId, now: int, sends: bool)
    | UserEnds(device: DeviceId, now: int, sends: bool)
    | TimerFires(device: DeviceId, now: int)
    | Delivery(device: DeviceId, packet: Packet, now: int)

  const SILENCE := Net(map[], {}, {}, {}, {}, map[], {}, {})

  predicate Enabled(net: Net, a: Action) {
    match a
    case Join(d, _, _) => d !in net.devices
    case UserAccepts(d, _, _) => d in net.devices && CanAccept(net.devices[d].call)
    case UserEnds(d, _, _) => d in net.devices && net.devices[d].call.ended.None?
    case TimerFires(d, _) => d in net.devices
    case Delivery(d, p, _) => d in net.devices && p in net.packets
  }

  /** What the action does to the device it happens on. */
  function Operate(d: Device, a: Action): Device {
    match a
    case Join(_, _, _) => d
    case UserAccepts(_, now, sends) => Accept(d, now, sends)
    case UserEnds(_, now, sends) => Hangup(d, now, sends)
    case TimerFires(_, now) => RingTimeout(d, now)
    case Delivery(_, p, now) => Receive(d, p.kind, p.fromCallee == d.call.incoming, now)
  }

  /** What the action sends to the other devices. */
  function Sent(d: Device, a: Action): set<Packet> {
    match a
    case UserAccepts(_, _, sends) => if sends then {Packet(AcceptedMsg, true)} else {}
    case UserEnds(_, _, sends) => if sends then {Packet(EndedMsg, d.call.incoming)} else {}
    case _ => {}
  }

  function Only(applies: bool, d: DeviceId): set<DeviceId> {
    if applies then {d} else {}
  }

  function Joined(net: Net, id: DeviceId, incoming: bool, sent: int): Net {
    net.(devices := net.devices[id := Device(Call(incoming, sent, None, None, None), [])],
         heard := net.heard[id := {}])
  }

  function Operated(net: Net, a: Action): Net
    requires a.device in net.devices
  {
    var id, d := a.device, net.devices[a.device];
    Net(net.devices[id := Operate(d, a)],
        net.packets + Sent(d, a),
        net.acceptors + Only(a.UserAccepts?, id),
        net.enders + Only(a.UserEnds?, id),
        net.rungOut + Only(a.TimerFires?, id),
        if a.Delivery? && id in net.heard then net.heard[id := net.heard[id] + {a.packet}] else net.heard,
        net.mutePickups + Only(a.UserAccepts? && !a.sends, id),
        net.muteEnds + Only(a.UserEnds? && !a.sends, id))
  }

  /** One step; an action that is not enabled leaves everything as it was. */
  function Apply(net: Net, a: Action): Net {
    if !Enabled(net, a) then net
    else if a.Join? then Joined(net, a.device, a.incoming, a.sent)
    else Operated(net, a)
  }

  function Run(net: Net, actions: seq<Action>): Net
    decreases |actions|
  {
    if actions == [] then net else Run(Apply(net, actions[0]), actions[1..])
  }

  // ----- what one device keeps -----

  /** Canceling ends the call at that moment and excludes acceptance; the end is shown at most once. */
  ghost predicate Sound(d: Device) {
    && (d.call.canceled.Some? ==> d.call.ended == d.call.canceled && d.call.accepted.None?)
    && Count(d.events, CallEnded) <= (if d.call.ended.Some? then 1 else 0)
  }

  /** Each timestamp is written at most once, and nothing is written after the end. */
  ghost predicate Extends(d: Device, e: Device) {
    && e.call.incoming == d.call.incoming && e.call.sent == d.call.sent
    && (d.call.accepted.Some? ==> e.call.accepted == d.call.accepted)
    && (d.call.canceled.Some? ==> e.call.canceled == d.call.canceled)
    && (d.call.ended.Some? ==> e == d)
  }

  /** Marking a device as ended, and showing it, is sound for one that had not ended. */
  lemma EndingIsSound(d: Device, now: int)
    requires Sound(d) && d.call.ended.None?
    ensures Sound(Ended(d, now)) && Sound(Emit(Ended(d, now), CallEnded))
    ensures d.call.accepted.None? ==> Sound(CanceledBy(d, now)) && Sound(Emit(CanceledBy(d, now), CallEnded))
  {
    CountAppend(d.events, CallEnded, CallEnded);
  }

  lemma AcceptingIsSound(d: Device, now: int, e: Event)
    requires Sound(d) && d.call.ended.None? && e != CallEnded
    ensures Sound(Accepted(d, now)) && Sound(Emit(Accepted(d, now), e))
  {
    CountAppend(d.events, e, CallEnded);
  }

  lemma AcceptKeepsSound(d: Device, now: int, sends: bool)
    requires Sound(d)
    ensures Sound(Accept(d, now, sends))
  {
    if CanAccept(d.call) { AcceptingIsSound(d, now, IncomingCallAccepted(true)); }
  }

  lemma EndKeepsSound(d: Device, now: int, sends: bool)
    requires Sound(d)
    ensures Sound(Hangup(d, now, sends)) && Sound(RingTimeout(d, now))
  {
    if d.call.ended.None? { EndingIsSound(d, now); }
  }

  lemma ReceiveKeepsSound(d: Device, kind: Kind, fromSelf: bool, now: int)
    requires Sound(d)
    ensures Sound(Receive(d, kind, fromSelf, now))
  {
    if d.call.ended.None? {
      match kind
      case AcceptedMsg =>
        AcceptingIsSound(d, now, if d.call.incoming then IncomingCallAccepted(false) else OutgoingCallAccepted);
      case EndedMsg => EndingIsSound(d, now);
    }
  }

  lemma OperateKeepsSound(d: Device, a: Action)
    requires Sound(d)
    ensures Sound(Operate(d, a))
  {
    match a
    case Join(_, _, _) =>
    case UserAccepts(_, now, sends) => AcceptKeepsSound(d, now, sends);
    case UserEnds(_, now, sends) => EndKeepsSound(d, now, sends);
    case TimerFires(_, now) => EndKeepsSound(d, now, true);
    case Delivery(_, p, now) => ReceiveKeepsSound(d, p.kind, p.fromCallee == d.call.incoming, now);
  }

  lemma OperateExtends(d: Device, a: Action)
    requires d.call.canceled.Some? ==> d.call.ended.Some?
    ensures Extends(d, Operate(d, a))
  {
    match a
    case Join(_, _, _) =>
    case UserAccepts(_, _, _) =>
    case UserEnds(_, _, _) =>
    case TimerFires(_, _) =>
    case Delivery(_, p, _) =>
  }

  // ----- what the whole network keeps -----

  ghost predicate IsCallee(net: Net, d: DeviceId) {
    d in net.devices && net.devices[d].call.incoming
  }

  ghost predicate IsCaller(net: Net, d: DeviceId) {
    d in net.devices && !net.devices[d].call.incoming
  }

  ghost predicate SomeoneAccepted(net: Net) {
    exists a :: a in net.acceptors && IsCallee(net, a) && net.devices[a].call.accepted.Some?
  }

  /** A user of that side ended the call on one of their devices. */
  ghost predicate SideEnded(net: Net, callee: bool) {
    exists e :: e in net.enders && e in net.devices && net.devices[e].call.incoming == callee
  }

  /** Why a device is in the state it is in. */
  ghost predicate Explained(net: Net, d: DeviceId)
    requires d in net.devices
  {
    var call := net.devices[d].call;
    && (call.accepted.Some? ==> SomeoneAccepted(net))
    && (call.ended.Some? && call.accepted.None? && call.canceled.None? ==>
          SideEnded(net, true) || (!call.incoming && d in net.rungOut))
    && (call.canceled.Some? ==> SideEnded(net, false) || (call.incoming && d in net.rungOut))
  }

  ghost predicate PacketExplained(net: Net, p: Packet) {
    match p.kind
    case AcceptedMsg => p.fromCallee && SomeoneAccepted(net)
    case EndedMsg => SideEnded(net, p.fromCallee)
  }

  ghost predicate PacketsExplained(net: Net) {
    forall p :: p in net.packets ==> PacketExplained(net, p)
  }

  ghost predicate HeardEnds(net: Net, d: DeviceId)
    requires d in net.devices
  {
    d in net.heard && forall p :: p in net.heard[d] && p.kind == EndedMsg ==> net.devices[d].call.ended.Some?
  }

  /** Whose user ended the call is ended. */
  ghost predicate EndersEnded(net: Net) {
    forall e :: e in net.enders ==> e in net.devices && net.devices[e].call.ended.Some?
  }

  ghost predicate Inv(net: Net) {
    && PacketsExplained(net)
    && EndersEnded(net)
    && (forall d :: d in net.devices ==> Sound(net.devices[d]))
    && (forall d :: d in net.devices ==> Explained(net, d))
    && (forall d :: d in net.devices ==> HeardEnds(net, d))
  }

  /** The later network knows every device of the earlier one, further along. */
  ghost predicate Grows(net: Net, later: Net) {
    && net.packets <= later.packets && net.acceptors <= later.acceptors
    && net.enders <= later.enders && net.rungOut <= later.rungOut
    && (forall d :: d in net.devices ==> d in later.devices && Extends(net.devices[d], later.devices[d]))
  }

  lemma JoinedGrows(net: Net, id: DeviceId, incoming: bool, sent: int)
    requires id !in net.devices && forall d :: d in net.devices ==> Sound(net.devices[d])
    ensures Grows(net, Joined(net, id, incoming, sent))
    ensures forall d :: d in Joined(net, id, incoming, sent).devices ==> Sound(Joined(net, id, incoming, sent).devices[d])
  {}

  lemma OperatedGrows(net: Net, a: Action)
    requires a.device in net.devices && forall d :: d in net.devices ==> Sound(net.devices[d])
    ensures Grows(net, Operated(net, a))
  {
    assert Sound(net.devices[a.device]);
    OperateExtends(net.devices[a.device], a);
  }

  lemma OperatedSound(net: Net, a: Action)
    requires a.device in net.devices && forall d :: d in net.devices ==> Sound(net.devices[d])
    ensures forall d :: d in Operated(net, a).devices ==> Sound(Operated(net, a).devices[d])
  {
    OperateKeepsSound(net.devices[a.device], a);
  }

  lemma ApplyGrows(net: Net, a: Action)
    requires forall d :: d in net.devices ==> Sound(net.devices[d])
    ensures Grows(net, Apply(net, a))
    ensures forall d :: d in Apply(net, a).devices ==> Sound(Apply(net, a).devices[d])
  {
    if Enabled(net, a) {
      if a.Join? {
        JoinedGrows(net, a.device, a.incoming, a.sent);
      } else {
        OperatedGrows(net, a);
        OperatedSound(net, a);
      }
    }
  }

  lemma GrowthKeepsReasons(net: Net, later: Net)
    requires Grows(net, later)
    ensures SomeoneAccepted(net) ==> SomeoneAccepted(later)
    ensures forall callee :: SideEnded(net, callee) ==> SideEnded(later, callee)
  {
    if SomeoneAccepted(net) {
      var a :| a in net.acceptors && IsCallee(net, a) && net.devices[a].call.accepted.Some?;
      assert a in later.acceptors && IsCallee(later, a);
    }
    forall callee | SideEnded(net, callee) ensures SideEnded(later, callee) {
      var e :| e in net.enders && e in net.devices && net.devices[e].call.incoming == callee;
      assert e in later.enders && e in later.devices;
    }
  }

  /** Whoever was touched by the step can still explain their state. */
  lemma OperatedExplained(net: Net, a: Action)
    requires Inv(net) && Enabled(net, a) && !a.Join?
    ensures Explained(Apply(net, a), a.device)
  {
    var id, later := a.device, Apply(net, a);
    ApplyGrows(net, a);
    GrowthKeepsReasons(net, later);
    assert Explained(net, id);
    match a
    case UserAccepts(_, _, _) => assert id in later.acceptors && IsCallee(later, id);
    case UserEnds(_, _, _) => assert id in later.enders && id in later.devices;
    case TimerFires(_, _) =>
    case Delivery(_, p, _) => assert PacketExplained(net, p);
  }

  lemma ApplyKeepsExplained(net: Net, a: Action, d: DeviceId)
    requires Inv(net) && d in Apply(net, a).devices
    ensures Explained(Apply(net, a), d)
  {
    var later := Apply(net, a);
    ApplyGrows(net, a);
    GrowthKeepsReasons(net, later);
    if d in net.devices && (!Enabled(net, a) || d != a.device) {
      assert Explained(net, d);
    } else if !a.Join? {
      OperatedExplained(net, a);
    }
  }

  /** What is sent can be explained by the one who just acted. */
  lemma SentExplained(net: Net, a: Action, p: Packet)
    requires a.device in net.devices && Enabled(net, a) && p in Sent(net.devices[a.device], a)
    ensures PacketExplained(Operated(net, a), p)
  {
    var later := Operated(net, a);
    if a.UserAccepts? {
      assert a.device in later.acceptors && IsCallee(later, a.device);
    } else {
      assert a.device in later.enders && a.device in later.devices;
    }
  }

  lemma ApplyKeepsPackets(net: Net, a: Action)
    requires Inv(net)
    ensures PacketsExplained(Apply(net, a))
  {
    var later := Apply(net, a);
    ApplyGrows(net, a);
    GrowthKeepsReasons(net, later);
    forall p | p in later.packets ensures PacketExplained(later, p) {
      if p in net.packets {
        assert PacketExplained(net, p);
      } else {
        SentExplained(net, a, p);
      }
    }
  }

  lemma ApplyKeepsHeard(net: Net, a: Action, d: DeviceId)
    requires Inv(net) && d in Apply(net, a).devices
    ensures HeardEnds(Apply(net, a), d)
  {
    ApplyGrows(net, a);
    if d in net.devices { assert HeardEnds(net, d); }
  }

  lemma ApplyKeepsEnders(net: Net, a: Action)
    requires Inv(net)
    ensures EndersEnded(Apply(net, a))
  {
    var later := Apply(net, a);
    ApplyGrows(net, a);
    forall e | e in later.enders ensures e in later.devices && later.devices[e].call.ended.Some? {
      if e in net.enders {
        assert Extends(net.devices[e], later.devices[e]);
      }
    }
  }

  lemma ApplyKeepsInv(net: Net, a: Action)
    requires Inv(net)
    ensures Inv(Apply(net, a)) && Grows(net, Apply(net, a))
  {
    ApplyGrows(net, a);
    ApplyKeepsPackets(net, a);
    ApplyKeepsEnders(net, a);
    forall d | d in Apply(net, a).devices ensures Explained(Apply(net, a), d) && HeardEnds(Apply(net, a), d) {
      ApplyKeepsExplained(net, a, d);
      ApplyKeepsHeard(net, a, d);
    }
  }

  lemma {:induction false} RunKeepsInv(net: Net, actions: seq<Action>)
    requires Inv(net)
    ensures Inv(Run(net, actions)) && Grows(net, Run(net, actions))
    decreases |actions|
  {
    if actions != [] {
      ApplyKeepsInv(net, actions[0]);
      RunKeepsInv(Apply(net, actions[0]), actions[1..]);
    }
  }

  // ----- what devices show -----

  /** The events to be shown for a record: that the call was accepted, and by whom, and that it ended; a
      user's own action is not shown if its message could not be queued. */
  function Story(call: Call, pickedUp: bool, mutePickup: bool, muteEnd: bool): seq<Event> {
    (if call.accepted.None? then []
     else if !call.incoming then [OutgoingCallAccepted]
     else if !pickedUp then [IncomingCallAccepted(false)]
     else if mutePickup then [] else [IncomingCallAccepted(true)])
    + if call.ended.Some? && !muteEnd then [CallEnded] else []
  }

  ghost predicate Told(net: Net, d: DeviceId)
    requires d in net.devices
  {
    net.devices[d].events == Story(net.devices[d].call, d in net.acceptors, d in net.mutePickups, d in net.muteEnds)
  }

  /** Whose user picked up is accepted, and the mute ones are among those who acted. */
  ghost predicate Recorded(net: Net) {
    && (forall a :: a in net.acceptors ==> a in net.devices && net.devices[a].call.accepted.Some?)
    && net.mutePickups <= net.acceptors && net.muteEnds <= net.enders
  }

  lemma PickupTold(d: Device, now: int, sends: bool)
    requires CanAccept(d.call) && d.events == Story(d.call, false, false, false)
    ensures var e := Accept(d, now, sends); e.events == Story(e.call, true, !sends, false)
  {}

  lemma HangupTold(d: Device, now: int, sends: bool, pickedUp: bool, mutePickup: bool)
    requires d.call.ended.None? && d.events == Story(d.call, pickedUp, mutePickup, false)
    ensures var e := Hangup(d, now, sends); e.events == Story(e.call, pickedUp, mutePickup, !sends)
  {}

  lemma TimeoutTold(d: Device, now: int, pickedUp: bool, mutePickup: bool, muteEnd: bool)
    requires d.events == Story(d.call, pickedUp, mutePickup, muteEnd) && (muteEnd ==> d.call.ended.Some?)
    ensures var e := RingTimeout(d, now); e.events == Story(e.call, pickedUp, mutePickup, muteEnd)
  {}

  lemma ReceiptTold(d: Device, kind: Kind, fromSelf: bool, now: int, pickedUp: bool, mutePickup: bool, muteEnd: bool)
    requires d.events == Story(d.call, pickedUp, mutePickup, muteEnd)
    requires (pickedUp ==> d.call.accepted.Some?) && (muteEnd ==> d.call.ended.Some?)
    ensures var e := Receive(d, kind, fromSelf, now); e.events == Story(e.call, pickedUp, mutePickup, muteEnd)
  {}

  lemma OperatedTold(net: Net, a: Action)
    requires a.device in net.devices && Told(net, a.device) && Recorded(net) && EndersEnded(net)
    requires Enabled(net, a) && !a.Join?
    ensures Told(Operated(net, a), a.device)
  {
    var id, d := a.device, net.devices[a.device];
    var picked, mutePickup, muteEnd := id in net.acceptors, id in net.mutePickups, id in net.muteEnds;
    match a
    case UserAccepts(_, now, sends) => PickupTold(d, now, sends);
    case UserEnds(_, now, sends) => HangupTold(d, now, sends, picked, mutePickup);
    case TimerFires(_, now) => TimeoutTold(d, now, picked, mutePickup, muteEnd);
    case Delivery(_, p, now) => ReceiptTold(d, p.kind, p.fromCallee == d.call.incoming, now, picked, mutePickup, muteEnd);
  }

  lemma ApplyTold(net: Net, a: Action, d: DeviceId)
    requires Recorded(net) && EndersEnded(net) && d in Apply(net, a).devices && (d in net.devices ==> Told(net, d))
    ensures Told(Apply(net, a), d)
  {
    if Enabled(net, a) && d == a.device && !a.Join? {
      OperatedTold(net, a);
    }
  }

  lemma ApplyRecorded(net: Net, a: Action)
    requires Recorded(net) && Grows(net, Apply(net, a))
    ensures Recorded(Apply(net, a))
  {
    var later := Apply(net, a);
    forall e | e in later.acceptors ensures e in later.devices && later.devices[e].call.accepted.Some? {
      if e in net.acceptors {
        assert Extends(net.devices[e], later.devices[e]);
      }
    }
  }

  lemma {:induction false} RunTold(net: Net, actions: seq<Action>)
    requires Inv(net) && Recorded(net) && forall d :: d in net.devices ==> Told(net, d)
    ensures forall d :: d in Run(net, actions).devices ==> Told(Run(net, actions), d)
    decreases |actions|
  {
    if actions != [] {
      var next := Apply(net, actions[0]);
      ApplyKeepsInv(net, actions[0]);
      ApplyRecorded(net, actions[0]);
      forall d | d in next.devices ensures Told(next, d) {
        ApplyTold(net, actions[0], d);
      }
      RunTold(next, actions[1..]);
    }
  }

  /** In every run a device has shown exactly its story: acceptance once, with who accepted, then the end
      once, except its own user's actions whose message could not be queued. */
  lemma EventsTellStory(actions: seq<Action>, d: DeviceId)
    requires d in Run(SILENCE, actions).devices
    ensures Told(Run(SILENCE, actions), d)
  {
    RunTold(SILENCE, actions);
  }

  // ----- main results, for every run -----

  /** In every run, a device that is canceled is ended and not accepted, shows the end at most
      once, and a completed call has a duration of at least a second. */
  lemma EveryDeviceSound(actions: seq<Action>, d: DeviceId, now: int)
    requires d in Run(SILENCE, actions).devices
    ensures Sound(Run(SILENCE, actions).devices[d])
    ensures var state := State(Run(SILENCE, actions).devices[d].call, now); state.Completed? ==> state.duration >= 1
  {
    RunKeepsInv(SILENCE, actions);
  }

  /** What is displayed, for every record and at every time. */
  lemma StateMeaning(call: Call, now: int)
    ensures var late := now >= call.sent + 120 && (call.incoming || call.sent != 0);
            var state := State(call, now);
            && (call.accepted.Some? && call.ended.Some? ==>
                  state == Completed(Max(1, call.ended.value - call.accepted.value)))
            && (state.Completed? ==> call.accepted.Some? && call.ended.Some?)
            && (state == Active <==> call.accepted.Some? && call.ended.None?)
            && (state == Alerting <==> call.accepted.None? && call.ended.None? && call.canceled.None? && !late)
            && (state == Canceled <==> !call.incoming && call.accepted.None? && call.canceled.Some?)
            && (state == Missed <==>
                  call.incoming && call.accepted.None? && (call.canceled.Some? || (call.ended.None? && late)))
            && (state == Declined <==>
                  call.accepted.None? && call.canceled.None? && (call.ended.Some? || (!call.incoming && late)))
  {}

  /** The seconds left to ring, between none and two minutes. */
  lemma RingSeconds(call: Call, now: int)
    ensures var r := RemainingRingSeconds(call, now);
            && 0 <= r <= 120
            && (call.sent <= now <= call.sent + 120 ==> r == call.sent + 120 - now)
            && (now < call.sent ==> r == 120) && (now > call.sent + 120 ==> r == 0)
  {}

  /** What every action makes a device display, from then on at any time `t`; after the end nothing. */
  lemma ActionShows(d: Device, a: Action, t: int)
    requires Sound(d)
    ensures d.call.ended.Some? ==> Operate(d, a) == d
    ensures d.call.ended.None? ==>
              var call, after := d.call, State(Operate(d, a).call, t);
              match a
              case Join(_, _, _) => true
              case UserAccepts(_, now, _) =>
                call.incoming && call.accepted.None? ==> after == Active && Operate(d, a).call.accepted == Some(now)
              case UserEnds(_, now, _) =>
                after == if call.accepted.Some? then Completed(Max(1, now - call.accepted.value))
                         else if call.incoming then Declined else Canceled
              case TimerFires(_, _) =>
                if call.accepted.Some? then Operate(d, a) == d else after == if call.incoming then Missed else Declined
              case Delivery(_, Packet(AcceptedMsg, _), now) =>
                after == Active && (call.accepted.None? ==> Operate(d, a).call.accepted == Some(now))
              case Delivery(_, Packet(EndedMsg, fromCallee), now) =>
                after == if call.accepted.Some? then Completed(Max(1, now - call.accepted.value))
                         else if fromCallee then Declined
                         else if call.incoming then Missed else Canceled
  {}

  /** A user's action is told to the other devices, if its message can be queued, and nothing else is. */
  lemma ActionTells(net: Net, a: Action)
    requires Enabled(net, a)
    ensures Apply(net, a).packets == net.packets +
              if a.UserAccepts? && a.sends then {Packet(AcceptedMsg, true)}
              else if a.UserEnds? && a.sends then {Packet(EndedMsg, net.devices[a.device].call.incoming)}
              else {}
  {}

  lemma EndedStays(net: Net, more: seq<Action>, d: DeviceId)
    requires Inv(net) && d in net.devices && net.devices[d].call.ended.Some?
    ensures d in Run(net, more).devices && Run(net, more).devices[d] == net.devices[d]
  {
    RunKeepsInv(net, more);
    assert Extends(net.devices[d], Run(net, more).devices[d]);
  }

  lemma TalkCompletesNow(net: Net, a: Action, t: int)
    requires Inv(net) && Enabled(net, a) && (a.UserEnds? || (a.Delivery? && a.packet.kind == EndedMsg))
    requires net.devices[a.device].call.accepted.Some? && net.devices[a.device].call.ended.None?
    ensures var d := Apply(net, a).devices[a.device];
            d.call.ended.Some? && State(d.call, t) == Completed(Max(1, a.now - net.devices[a.device].call.accepted.value))
  {
    assert Sound(net.devices[a.device]);
    ActionShows(net.devices[a.device], a, t);
  }

  /** Over runs: ending an active call on a device, by its user or by a delivered hang-up, leaves it
      displayed as completed with its duration, whatever follows. */
  lemma TalkCompletes(actions: seq<Action>, a: Action, more: seq<Action>, t: int)
    requires var net := Run(SILENCE, actions);
             && Enabled(net, a) && (a.UserEnds? || (a.Delivery? && a.packet.kind == EndedMsg))
             && net.devices[a.device].call.accepted.Some? && net.devices[a.device].call.ended.None?
    ensures var net := Run(SILENCE, actions);
            var after := Run(Apply(net, a), more);
            && a.device in after.devices
            && State(after.devices[a.device].call, t) == Completed(Max(1, a.now - net.devices[a.device].call.accepted.value))
  {
    RunKeepsInv(SILENCE, actions);
    var net := Run(SILENCE, actions);
    ApplyKeepsInv(net, a);
    TalkCompletesNow(net, a, t);
    EndedStays(Apply(net, a), more, a.device);
  }

  /** Timestamps are never rewritten; once a device has ended, no step and no passage of time
      changes its record, its events or the state it displays. */
  lemma EndIsFinal(actions: seq<Action>, more: seq<Action>, d: DeviceId, now: int, later: int)
    requires d in Run(SILENCE, actions).devices
    ensures d in Run(Run(SILENCE, actions), more).devices
    ensures Extends(Run(SILENCE, actions).devices[d], Run(Run(SILENCE, actions), more).devices[d])
    ensures Run(SILENCE, actions).devices[d].call.ended.Some? ==>
              State(Run(SILENCE, actions).devices[d].call, now) ==
              State(Run(Run(SILENCE, actions), more).devices[d].call, later)
  {
    RunKeepsInv(SILENCE, actions);
    RunKeepsInv(Run(SILENCE, actions), more);
  }

  ghost predicate InTalk(state: CallState) {
    state.Active? || state.Completed?
  }

  /** A device in a talk, on either side, means that some callee device picked up and shows a talk too. */
  lemma TalkNeedsPickup(actions: seq<Action>, d: DeviceId, now: int) returns (a: DeviceId)
    requires d in Run(SILENCE, actions).devices && InTalk(State(Run(SILENCE, actions).devices[d].call, now))
    ensures var net := Run(SILENCE, actions);
            a in net.acceptors && IsCallee(net, a) && forall t :: InTalk(State(net.devices[a].call, t))
  {
    RunKeepsInv(SILENCE, actions);
    var net := Run(SILENCE, actions);
    assert Explained(net, d);
    a :| a in net.acceptors && IsCallee(net, a) && net.devices[a].call.accepted.Some?;
  }

  /** With a single callee device, a caller in a talk is in a talk with it. */
  lemma SingleCalleeAgrees(actions: seq<Action>, caller: DeviceId, callee: DeviceId, now: int)
    requires var net := Run(SILENCE, actions);
             && IsCaller(net, caller) && IsCallee(net, callee)
             && (forall d :: IsCallee(net, d) ==> d == callee)
             && InTalk(State(net.devices[caller].call, now))
    ensures InTalk(State(Run(SILENCE, actions).devices[callee].call, now))
  {
    var a := TalkNeedsPickup(actions, caller, now);
  }

  /** A declined or canceled label is never shown without somebody having declined, canceled or
      let it ring out: which side it was follows from the label. */
  lemma LabelsAreEarned(actions: seq<Action>, d: DeviceId, now: int)
    requires d in Run(SILENCE, actions).devices && Run(SILENCE, actions).devices[d].call.ended.Some?
    ensures var net := Run(SILENCE, actions);
            var state, incoming := State(net.devices[d].call, now), net.devices[d].call.incoming;
            && (state == Declined ==> SideEnded(net, true) || (!incoming && d in net.rungOut))
            && (state == Canceled ==> SideEnded(net, false))
            && (state == Missed ==> SideEnded(net, false) || d in net.rungOut)
  {
    RunKeepsInv(SILENCE, actions);
    assert Explained(Run(SILENCE, actions), d);
  }

  // ----- the end reaches everybody -----

  /** The device was told of the end: by its own user or by a hang-up message.  A device never
      receives what it sent itself. */
  ghost predicate KnowsEnd(net: Net, d: DeviceId) {
    d in net.enders || (d in net.heard && exists p :: p in net.heard[d] && p.kind == EndedMsg)
  }

  ghost predicate AllKnowEnd(net: Net) {
    forall d :: d in net.devices ==> KnowsEnd(net, d)
  }

  ghost predicate NoJoin(actions: seq<Action>) {
    forall i :: 0 <= i < |actions| ==> !actions[i].Join?
  }

  lemma KnowsEndIsEnded(net: Net, d: DeviceId)
    requires Inv(net) && d in net.devices && KnowsEnd(net, d)
    ensures net.devices[d].call.ended.Some?
  {
    assert HeardEnds(net, d);
  }

  /** Between devices that have ended nothing moves any more. */
  lemma {:induction false} EndedStandsStill(net: Net, more: seq<Action>)
    requires NoJoin(more) && forall d :: d in net.devices ==> Sound(net.devices[d]) && net.devices[d].call.ended.Some?
    ensures Run(net, more).devices == net.devices && Run(net, more).packets == net.packets
    decreases |more|
  {
    if more != [] {
      var a := more[0];
      assert !a.Join?;
      if Enabled(net, a) { OperateExtends(net.devices[a.device], a); }
      assert Apply(net, a).devices == net.devices && Apply(net, a).packets == net.packets;
      EndedStandsStill(Apply(net, a), more[1..]);
    }
  }

  /** Once every device was told of the end, all are ended, and nothing that users, timers and the
      network do to them from then on changes anything or sends anything. */
  lemma DeliveredEndSettles(actions: seq<Action>, more: seq<Action>)
    requires AllKnowEnd(Run(SILENCE, actions)) && NoJoin(more)
    ensures var net := Run(SILENCE, actions);
            && (forall d :: d in net.devices ==> net.devices[d].call.ended.Some?)
            && Run(net, more).devices == net.devices && Run(net, more).packets == net.packets
  {
    RunKeepsInv(SILENCE, actions);
    var net := Run(SILENCE, actions);
    forall d | d in net.devices ensures net.devices[d].call.ended.Some? {
      KnowsEndIsEnded(net, d);
    }
    EndedStandsStill(net, more);
  }

  function Deliveries(ds: seq<DeviceId>, p: Packet, now: int): seq<Action> {
    if ds == [] then [] else [Delivery(ds[0], p, now)] + Deliveries(ds[1..], p, now)
  }

  /** What is delivered is heard, and stays heard. */
  lemma DeliveryHeard(net: Net, a: Action, d: DeviceId, p: Packet)
    requires d in net.heard && d in net.devices
    ensures d in Apply(net, a).heard && d in Apply(net, a).devices && net.heard[d] <= Apply(net, a).heard[d]
    ensures a.Delivery? && a.device == d && a.packet == p && p in net.packets ==> p in Apply(net, a).heard[d]
  {}

  lemma {:induction false} DeliveriesHeard(net: Net, ds: seq<DeviceId>, p: Packet, now: int, d: DeviceId)
    requires p in net.packets && d in net.devices && d in net.heard && (d in ds || p in net.heard[d])
    ensures d in Run(net, Deliveries(ds, p, now)).heard && p in Run(net, Deliveries(ds, p, now)).heard[d]
    decreases |ds|
  {
    if ds != [] {
      var a := Delivery(ds[0], p, now);
      assert Deliveries(ds, p, now)[1..] == Deliveries(ds[1..], p, now);
      DeliveryHeard(net, a, d, p);
      DeliveriesHeard(Apply(net, a), ds[1..], p, now, d);
    }
  }

  lemma {:induction false} DeliveriesEnd(net: Net, ds: seq<DeviceId>, p: Packet, now: int, d: DeviceId)
    requires Inv(net) && p in net.packets && p.kind == EndedMsg && d in net.devices
    requires d in ds || net.devices[d].call.ended.Some?
    ensures d in Run(net, Deliveries(ds, p, now)).devices
    ensures Run(net, Deliveries(ds, p, now)).devices[d].call.ended.Some?
    decreases |ds|
  {
    if ds != [] {
      var a := Delivery(ds[0], p, now);
      assert Deliveries(ds, p, now)[1..] == Deliveries(ds[1..], p, now);
      ApplyKeepsInv(net, a);
      DeliveriesEnd(Apply(net, a), ds[1..], p, now, d);
    }
  }

  lemma {:induction false} DeliveriesKeepDevices(net: Net, ds: seq<DeviceId>, p: Packet, now: int)
    ensures Run(net, Deliveries(ds, p, now)).devices.Keys == net.devices.Keys
    decreases |ds|
  {
    if ds != [] {
      assert Deliveries(ds, p, now)[1..] == Deliveries(ds[1..], p, now);
      DeliveriesKeepDevices(Apply(net, Delivery(ds[0], p, now)), ds[1..], p, now);
    }
  }

  /** One hang-up message that reaches the other devices, in any order and however often, ends the
      call everywhere, whatever happened before. */
  lemma HangupEndsCall(actions: seq<Action>, p: Packet, ds: seq<DeviceId>, now: int)
    requires var net := Run(SILENCE, actions);
             p in net.packets && p.kind == EndedMsg && forall d :: d in net.devices ==> d in ds || d in net.enders
    ensures var after := Run(Run(SILENCE, actions), Deliveries(ds, p, now));
            && (forall d :: d in after.devices ==> after.devices[d].call.ended.Some?)
            && (forall d :: d in ds && d in after.devices ==> KnowsEnd(after, d))
  {
    RunKeepsInv(SILENCE, actions);
    var net := Run(SILENCE, actions);
    DeliveriesKeepDevices(net, ds, p, now);
    forall d | d in ds && d in net.devices ensures KnowsEnd(Run(net, Deliveries(ds, p, now)), d) {
      assert HeardEnds(net, d);
      DeliveriesHeard(net, ds, p, now, d);
    }
    forall d | d in net.devices ensures Run(net, Deliveries(ds, p, now)).devices[d].call.ended.Some? {
      DeliveriesEnd(net, ds, p, now, d);
    }
  }

  // ----- missed is not always over -----

  /** Before the end nothing displayed is final: an incoming call shown as missed is over exactly
      when it is flagged as ended, for an unflagged one can still be picked up. */
  lemma MissedIsFinalIff(d: Device, now: int, sends: bool)
    requires d.call.incoming && Sound(d) && State(d.call, now) == Missed
    ensures d.call.ended.Some? <==> State(Accept(d, now, sends).call, now) == Missed
  {}

  /** A call is shown as missed after two minutes, and a pick-up then makes it active. */
  lemma MissedCallTaken()
    ensures var late := Run(SILENCE, [Join(1, true, 0)]);
            var taken := Run(late, [UserAccepts(1, 121, true)]);
            && 1 in late.devices && State(late.devices[1].call, 121) == Missed
            && 1 in taken.devices && State(taken.devices[1].call, 121) == Active
  {
    var late := Apply(SILENCE, Join(1, true, 0));
    assert Run(SILENCE, [Join(1, true, 0)]) == Run(late, []) == late;
    var taken := Apply(late, UserAccepts(1, 121, true));
    assert Run(late, [UserAccepts(1, 121, true)]) == Run(taken, []) == taken;
  }
}
