/** The waypoint manager as the program runs it: one object updated in place, two fixed buffers, and
    the messages a call sends handed back in order. Every method is proved to take the step the model takes. */
module WaypointManager {
  import opened WaypointCycle
  import opened WaypointModel
  import opened WaypointRuns

  lemma ReceivedParts(s: Wpm, now: uint64, from: Peer, msg: Message, sample: Sample)
    requires Shape(s) && InBounds(s, msg)
    ensures var r := Handle(s, now, from, msg);
            var c := Check(r.state, now, sample);
            Step(s, Received(now, from, msg, sample)) == Result(c.state, r.out + c.out)
    ensures Inv(s) ==> Inv(Step(s, Received(now, from, msg, sample)).state)
  {
    if Inv(s) {
      StepKeepsInv(s, Received(now, from, msg, sample));
    }
  }

  lemma SendingIgnoresPhase(s: Wpm, index: uint16)
    requires Shape(s)
    ensures var t := s.(phase := Idle);
            SendCurrent(t, index) == SendCurrent(s, index) && SendSetpoint(t, index) == SendSetpoint(s, index)
  {
  }

  class Manager {
    const waypoints: array<Item>
    const rcvWaypoints: array<Item>
    const systemId: uint8
    var size: uint16
    var rcvSize: uint16
    var phase: Phase
    var wpId: uint16
    var activeId: uint16
    var count: uint16
    var partner: Peer
    var lastAction: uint64
    var firstInsideOrbit: uint64
    var posReached: bool
    var idle: bool

    ghost predicate Valid()
      reads this
    {
      waypoints.Length == MAX_WP_COUNT && rcvWaypoints.Length == MAX_WP_COUNT && waypoints != rcvWaypoints &&
      size <= MAX_WP_COUNT
    }

    ghost function State(): (s: Wpm)
      requires Valid()
      reads this, waypoints, rcvWaypoints
      ensures Shape(s)
    {
      Wpm(waypoints[..], rcvWaypoints[..], size, rcvSize, phase, wpId, activeId, count, partner,
          lastAction, firstInsideOrbit, posReached, idle, systemId)
    }

    constructor (systemId: uint8)
      ensures Valid() && fresh(waypoints) && fresh(rcvWaypoints)
      ensures State() == Init(systemId)
      ensures Inv(State())
    {
      this.systemId := systemId;
      waypoints := new Item[MAX_WP_COUNT](_ => ZERO_ITEM);
      rcvWaypoints := new Item[MAX_WP_COUNT](_ => ZERO_ITEM);
      size, rcvSize, wpId, count := 0, 0, 0, 0;
      phase, partner := Idle, Peer(0, 0);
      lastAction, firstInsideOrbit := 0, 0;
      idle, posReached := false, false;
      activeId := NO_WAYPOINT;
    }

    // ----- sending

    method SendWaypointCurrent(index: uint16) returns (out: seq<Out>)
      requires Valid()
      ensures out == SendCurrent(State(), index)
    {
      out := [];
      if index < size {
        out := [SentCurrent(waypoints[index].seq_)];
      }
    }

    method SendWaypointSetpoint(index: uint16) returns (out: seq<Out>)
      requires Valid()
      ensures out == SendSetpoint(State(), index)
    {
      out := [];
      if index < size {
        out := [SentSetpoint(Mission(waypoints[index]))];
      }
    }

    method SendWaypoint(index: uint16) returns (out: seq<Out>)
      requires Valid()
      modifies waypoints
      ensures State() == SendItem(old(State()), index).state
      ensures out == SendItem(old(State()), index).out
    {
      out := [];
      if index < size {
        waypoints[index] := waypoints[index].(targetSystem := partner.system, targetComponent := partner.component);
        out := [SentItem(waypoints[index])];
      }
    }

    method SendWaypointRequest(index: uint16) returns (out: seq<Out>)
      requires Valid()
      ensures out == SendRequest(State(), index)
    {
      out := [];
      if index < MAX_WP_COUNT {
        out := [SentRequest(partner, index)];
      }
    }

    // ----- one method per message

    method HandleAck(now: uint64, from: Peer, target: uint8)
      requires Valid()
      modifies this
      ensures Valid() && State() == OnAck(old(State()), now, from, target).state
    {
      if from == partner && target == systemId {
        lastAction := now;
        if phase == SendList || phase == SendListSendWps {
          if wpId == size - 1 {
            phase := Idle;
            wpId := 0;
          }
        }
      }
    }

    /** Flag exactly item `index` as current. */
    method FlagCurrent(index: uint16)
      requires Valid()
      modifies waypoints
      ensures waypoints[..] == MarkCurrent(old(waypoints[..]), size, index)
    {
      var i := 0;
      while i < size
        invariant 0 <= i <= size
        invariant forall j :: 0 <= j < i ==>
          waypoints[j] == old(waypoints[j]).(current := if j == index then 1 else 0)
        invariant forall j :: i <= j < MAX_WP_COUNT ==> waypoints[j] == old(waypoints[j])
      {
        waypoints[i] := waypoints[i].(current := if i == index then 1 else 0);
        i := i + 1;
      }
    }

    method HandleSetCurrent(now: uint64, target: uint8, index: uint16) returns (out: seq<Out>)
      requires Valid()
      modifies this, waypoints
      ensures Valid() && State() == OnSetCurrent(old(State()), now, target, index).state
      ensures out == OnSetCurrent(old(State()), now, target, index).out
    {
      out := [];
      if target == systemId {
        lastAction := now;
        if phase == Idle && index < size {
          activeId := index;
          FlagCurrent(activeId);
          posReached := false;
          out := SendWaypointCurrent(activeId);
          var more := SendWaypointSetpoint(activeId);
          out := out + more;
          firstInsideOrbit := 0;
        }
      }
    }

    method HandleRequestList(now: uint64, from: Peer, target: uint8) returns (out: seq<Out>)
      requires Valid()
      modifies this
      ensures Valid() && State() == OnRequestList(old(State()), now, from, target).state
      ensures out == OnRequestList(old(State()), now, from, target).out
    {
      out := [];
      if target == systemId {
        lastAction := now;
        if phase == Idle || phase == SendList {
          if size > 0 {
            phase := SendList;
            wpId := 0;
            partner := from;
          }
          count := size;
          out := [SentCount(partner, count)];
        }
      }
    }

    method HandleRequest(now: uint64, from: Peer, target: uint8, index: uint16) returns (out: seq<Out>)
      requires Valid()
      modifies this, waypoints
      ensures Valid() && State() == OnRequest(old(State()), now, from, target, index).state
      ensures out == OnRequest(old(State()), now, from, target, index).out
    {
      out := [];
      if from == partner && target == systemId {
        lastAction := now;
        if (phase == SendList && index == 0) ||
           (phase == SendListSendWps && (index == wpId || index == wpId + 1) && index < size) {
          phase := SendListSendWps;
          wpId := index;
          out := SendWaypoint(index);
        }
      }
    }

    method HandleCount(now: uint64, from: Peer, target: uint8, announced: uint16) returns (out: seq<Out>)
      requires Valid()
      modifies this
      ensures Valid() && State() == OnCount(old(State()), now, from, target, announced).state
      ensures out == OnCount(old(State()), now, from, target, announced).out
    {
      out := [];
      if target == systemId {
        lastAction := now;
        if phase == Idle || (phase == GetList && wpId == 0) {
          if announced > 0 {
            phase := GetList;
            wpId := 0;
            partner := from;
            count := announced;
            rcvSize := 0;
            out := SendWaypointRequest(wpId);
          } else {
            rcvSize := 0;
            activeId := NO_WAYPOINT;
            posReached := false;
          }
        }
      }
    }

    /** Copy the first `count` received items over the live ones. */
    method CopyReceived()
      requires Valid() && count <= MAX_WP_COUNT
      modifies waypoints
      ensures waypoints[..] == rcvWaypoints[..][..count] + old(waypoints[..])[count..]
    {
      var i: uint16 := 0;
      while i < count
        invariant i <= count
        invariant waypoints[..i] == rcvWaypoints[..i]
        invariant waypoints[i..] == old(waypoints[i..])
      {
        waypoints[i] := rcvWaypoints[i];
        i := i + 1;
      }
    }

    /** Index of the first live item flagged current, or `size`. */
    method FindCurrent() returns (i: uint16)
      requires Valid()
      ensures i == FirstCurrent(waypoints[..], size)
    {
      i := 0;
      while i < size && waypoints[i].current != 1
        invariant i <= size
        invariant forall j :: 0 <= j < i ==> waypoints[..][j].current != 1
      {
        i := i + 1;
      }
    }

    /** Make the first flagged item of the new list the active one. */
    method ActivateFlagged() returns (out: seq<Out>)
      requires Valid()
      modifies this`activeId, this`posReached, this`firstInsideOrbit
      ensures activeId == var i := FirstCurrent(waypoints[..], size); if i < size then i else NO_WAYPOINT
      ensures !posReached && firstInsideOrbit == 0
      ensures out == (SendCurrent(State(), activeId) + SendSetpoint(State(), activeId))
    {
      out := [];
      var i := FindCurrent();
      posReached := false;
      firstInsideOrbit := 0;
      if i < size {
        activeId := i;
        out := SendWaypointCurrent(activeId);
        var more := SendWaypointSetpoint(activeId);
        out := out + more;
      } else {
        activeId := NO_WAYPOINT;
      }
    }

    /** Acknowledge the upload, switch the list and activate its first flagged item. */
    method SwitchList() returns (out: seq<Out>)
      requires Valid() && count <= MAX_WP_COUNT
      modifies this, waypoints
      ensures Valid() && State() == Commit(old(State())).state
      ensures out == Commit(old(State())).out
    {
      hide SendCurrent, SendSetpoint, FirstCurrent;
      out := [SentAck(partner, 0)];
      if activeId > rcvSize - 1 {
        activeId := (rcvSize - 1) % 0x1_0000;
      }
      CopyReceived();
      size := count;
      var more := ActivateFlagged();
      out := out + more;
      SendingIgnoresPhase(State(), activeId);
      phase := Idle;
    }

    method HandleItem(now: uint64, item: Item) returns (out: seq<Out>)
      requires Valid() && ItemInBounds(State(), item)
      modifies this, waypoints, rcvWaypoints
      ensures Valid() && State() == OnItem(old(State()), now, item).state
      ensures out == OnItem(old(State()), now, item).out
    {
      hide Commit, SendRequest;
      out := [];
      if item.targetSystem == systemId && item.targetComponent == MISSIONPLANNER {
        lastAction := now;
        if (phase == GetList && item.seq_ == 0) ||
           (phase == GetListGetWps && item.seq_ == wpId && item.seq_ < count) {
          phase := GetListGetWps;
          rcvWaypoints[item.seq_] := item;
          wpId := item.seq_ + 1;
          if wpId == count {
            out := SwitchList();
          } else {
            out := SendWaypointRequest(wpId);
          }
        } else if phase == Idle {
          out := [SentAck(partner, 0)];
        } else if phase == GetListGetWps && item.seq_ != wpId {
          out := SendWaypointRequest(wpId);
        }
      }
    }

    method HandleClearAll(now: uint64, target: uint8)
      requires Valid()
      modifies this
      ensures Valid() && State() == OnClearAll(old(State()), now, target).state
    {
      if target == systemId && phase == Idle {
        lastAction := now;
        size := 0;
        activeId := NO_WAYPOINT;
        posReached := false;
      }
    }

    // ----- flying

    method FlyToNext() returns (out: seq<Out>)
      requires Valid() && activeId < size
      modifies this, waypoints
      ensures Valid() && State() == Advance(old(State())).state
      ensures out == Advance(old(State())).out
    {
      waypoints[activeId] := waypoints[activeId].(current := 0);
      if activeId == size - 1 && size > 1 {
        activeId := 1;
      } else if (activeId + 1) % 0x1_0000 < size {
        activeId := activeId + 1;
      }
      firstInsideOrbit := 0;
      out := SendWaypointCurrent(activeId);
      var more := SendWaypointSetpoint(activeId);
      out := out + more;
      waypoints[activeId] := waypoints[activeId].(current := 1);
      posReached := false;
    }

    method CheckWaypointsReached(now: uint64, sample: Sample) returns (out: seq<Out>)
      requires Valid()
      modifies this, waypoints
      ensures Valid() && State() == Check(old(State()), now, sample).state
      ensures out == Check(old(State()), now, sample).out
    {
      out := [];
      if activeId < size {
        var orbit := waypoints[activeId].param2;
        var dist := Distance(waypoints[activeId], sample);
        if dist >= 0.0 && dist <= orbit {
          posReached := true;
        }
      }
      if posReached && !idle && activeId < size {
        var item := waypoints[activeId];
        if firstInsideOrbit == 0 {
          out := [SentReached(item.seq_)];
          firstInsideOrbit := now;
        }
        if Elapsed(now, firstInsideOrbit) as real >= item.param2 * 1000.0 && item.autocontinue != 0 {
          var more := FlyToNext();
          out := out + more;
        }
      }
    }

    /** Give up a transfer whose partner has been silent for too long. */
    method ExpireTransfer(now: uint64)
      requires Valid()
      modifies this
      ensures Valid() && State() == Expire(old(State()), now)
    {
      if Elapsed(now, lastAction) > PROTOCOL_TIMEOUT && phase != Idle {
        phase := Idle;
        count := 0;
        partner := Peer(0, 0);
        wpId := 65535;
        if size == 0 {
          activeId := NO_WAYPOINT;
        }
      }
    }

    /** One pass of the event loop. */
    method EventLoop(now: uint64, sample: Sample) returns (out: seq<Out>)
      requires Valid()
      modifies this, waypoints
      ensures Valid() && State() == Step(old(State()), Tick(now, sample)).state
      ensures out == Step(old(State()), Tick(now, sample)).out
      ensures Inv(old(State())) ==> Inv(State())
    {
      ghost var s := State();
      ExpireTransfer(now);
      out := CheckWaypointsReached(now, sample);
      if Inv(s) {
        StepKeepsInv(s, Tick(now, sample));
      }
    }

    method Dispatch(now: uint64, from: Peer, msg: Message) returns (out: seq<Out>)
      requires Valid() && InBounds(State(), msg)
      modifies this, waypoints, rcvWaypoints
      ensures Valid() && State() == Handle(old(State()), now, from, msg).state
      ensures out == Handle(old(State()), now, from, msg).out
    {
      out := [];
      match msg
      case Ack(target) => HandleAck(now, from, target);
      case SetCurrent(target, index) => out := HandleSetCurrent(now, target, index);
      case RequestList(target) => out := HandleRequestList(now, from, target);
      case Request(target, index) => out := HandleRequest(now, from, target, index);
      case Count(target, announced) => out := HandleCount(now, from, target, announced);
      case MissionItem(item) => out := HandleItem(now, item);
      case ClearAll(target) => HandleClearAll(now, target);
      case Other =>
    }

    /** One call of the message handler: the message, then the position. */
    method HandleMessage(now: uint64, from: Peer, msg: Message, sample: Sample) returns (out: seq<Out>)
      requires Valid() && InBounds(State(), msg)
      modifies this, waypoints, rcvWaypoints
      ensures Valid() && State() == Step(old(State()), Received(now, from, msg, sample)).state
      ensures out == Step(old(State()), Received(now, from, msg, sample)).out
      ensures Inv(old(State())) ==> Inv(State())
    {
      ghost var s := State();
      out := Dispatch(now, from, msg);
      var more := CheckWaypointsReached(now, sample);
      out := out + more;
      ReceivedParts(s, now, from, msg, sample);
    }
  }
}
