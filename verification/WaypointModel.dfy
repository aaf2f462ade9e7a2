/** The MAVLink waypoint manager as a state machine on values: one function per message,
    one for the event loop, each returning the new state and the messages sent. */
module WaypointModel {
  import opened WaypointCycle

  const MAX_WP_COUNT: nat := 15
  const NO_WAYPOINT: uint16 := 65535
  const PROTOCOL_TIMEOUT: nat := 5000000
  const MISSIONPLANNER: uint8 := 190

  const FRAME_GLOBAL: uint8 := 0
  const FRAME_LOCAL_NED: uint8 := 1
  const FRAME_GLOBAL_RELATIVE_ALT: uint8 := 3
  const FRAME_LOCAL_ENU: uint8 := 4

  type uint8 = x: int | 0 <= x < 0x100
  type uint16 = x: int | 0 <= x < 0x1_0000
  type uint64 = x: int | 0 <= x < 0x1_0000_0000_0000_0000

  /** A mission item as it travels in MISSION_ITEM and as it is stored. */
  datatype Item = Item(
    seq_: uint16, frame: uint8, command: uint16,
    param1: real, param2: real, param3: real, param4: real, x: real, y: real, z: real,
    current: uint8, autocontinue: uint8, targetSystem: uint8, targetComponent: uint8)

  const ZERO_ITEM := Item(0, 0, 0, 0.0, 0.0, 0.0, 0.0, 0.0, 0.0, 0.0, 0, 0, 0, 0)

  datatype Peer = Peer(system: uint8, component: uint8)

  datatype Phase = Idle | SendList | SendListSendWps | GetList | GetListGetWps

  datatype Wpm = Wpm(
    waypoints: seq<Item>, rcvWaypoints: seq<Item>, size: uint16, rcvSize: uint16,
    phase: Phase, wpId: uint16, activeId: uint16, count: uint16, partner: Peer,
    lastAction: uint64, firstInsideOrbit: uint64, posReached: bool, idle: bool, systemId: uint8)

  datatype Message =
    | Ack(targetSystem: uint8)
    | SetCurrent(targetSystem: uint8, index: uint16)
    | RequestList(targetSystem: uint8)
    | Request(targetSystem: uint8, index: uint16)
    | Count(targetSystem: uint8, count: uint16)
    | MissionItem(item: Item)
    | ClearAll(targetSystem: uint8)
    | Other

  /** Distance from the vehicle to the active waypoint, as each frame's formula would give it. */
  datatype Sample = Sample(global: real, globalRelative: real, local: real)

  datatype Event =
    | Received(now: uint64, from: Peer, msg: Message, sample: Sample)
    | Tick(now: uint64, sample: Sample)

  datatype Out =
    | SentAck(to: Peer, code: uint8)
    | SentCurrent(index: uint16)
    | SentSetpoint(target: Item)
    | SentCount(to: Peer, count: uint16)
    | SentItem(item: Item)
    | SentRequest(to: Peer, index: uint16)
    | SentReached(index: uint16)

  datatype Result = Result(state: Wpm, out: seq<Out>)

  /** What an item says about the mission: everything but the `current` flag and the addressee. */
  function Mission(item: Item): Item {
    item.(current := 0, targetSystem := 0, targetComponent := 0)
  }

  /** An item up to its `current` flag. */
  function Unflagged(item: Item): Item {
    item.(current := 0)
  }

  /** Unsigned 64-bit subtraction. */
  function Elapsed(now: uint64, since: uint64): uint64 {
    (now - since) % 0x1_0000_0000_0000_0000
  }

  /** The arrays have their declared length and the list fits. */
  predicate Shape(s: Wpm) {
    |s.waypoints| == MAX_WP_COUNT && |s.rcvWaypoints| == MAX_WP_COUNT && s.size <= MAX_WP_COUNT
  }

  function Init(systemId: uint8): Wpm {
    var zeros := seq(MAX_WP_COUNT, _ => ZERO_ITEM);
    Wpm(zeros, zeros, 0, 0, Idle, 0, NO_WAYPOINT, 0, Peer(0, 0), 0, 0, false, false, systemId)
  }

  // ----- messages sent

  function SendCurrent(s: Wpm, index: uint16): seq<Out>
    requires Shape(s)
  {
    if index < s.size then [SentCurrent(s.waypoints[index].seq_)] else []
  }

  function SendSetpoint(s: Wpm, index: uint16): seq<Out>
    requires Shape(s)
  {
    if index < s.size then [SentSetpoint(Mission(s.waypoints[index]))] else []
  }

  function SendRequest(s: Wpm, index: uint16): seq<Out> {
    if index < MAX_WP_COUNT then [SentRequest(s.partner, index)] else []
  }

  /** Sending an item first stamps the partner's address into the stored item. */
  function SendItem(s: Wpm, index: uint16): Result
    requires Shape(s)
  {
    if index < s.size then
      var stamped := s.waypoints[index].(targetSystem := s.partner.system, targetComponent := s.partner.component);
      Result(s.(waypoints := s.waypoints[index := stamped]), [SentItem(stamped)])
    else Result(s, [])
  }

  // ----- handlers, one per message

  function OnAck(s: Wpm, now: uint64, from: Peer, target: uint8): Result {
    if from == s.partner && target == s.systemId then
      var s1 := s.(lastAction := now);
      if (s.phase == SendList || s.phase == SendListSendWps) && s.wpId == s.size - 1 then
        Result(s1.(phase := Idle, wpId := 0), [])
      else Result(s1, [])
    else Result(s, [])
  }

  /** The first `size` items with `current` set exactly at `index`. */
  function MarkCurrent(items: seq<Item>, size: nat, index: nat): seq<Item>
    requires size <= |items|
  {
    seq(|items|, i requires 0 <= i < |items| =>
      if i < size then items[i].(current := if i == index then 1 else 0) else items[i])
  }

  function OnSetCurrent(s: Wpm, now: uint64, target: uint8, index: uint16): Result
    requires Shape(s)
  {
    if target != s.systemId then Result(s, [])
    else if s.phase == Idle && index < s.size then
      var s1 := s.(lastAction := now, activeId := index, posReached := false, firstInsideOrbit := 0,
                   waypoints := MarkCurrent(s.waypoints, s.size, index));
      Result(s1, SendCurrent(s1, index) + SendSetpoint(s1, index))
    else Result(s.(lastAction := now), [])
  }

  function OnRequestList(s: Wpm, now: uint64, from: Peer, target: uint8): Result {
    if target != s.systemId then Result(s, [])
    else if s.phase == Idle || s.phase == SendList then
      var s1 := if s.size > 0 then s.(phase := SendList, wpId := 0, partner := from) else s;
      var s2 := s1.(lastAction := now, count := s.size);
      Result(s2, [SentCount(s2.partner, s2.count)])
    else Result(s.(lastAction := now), [])
  }

  /** The request the download protocol expects next: 0 first, then the last index or its successor. */
  predicate ServesRequest(s: Wpm, index: uint16) {
    (s.phase == SendList && index == 0) ||
    (s.phase == SendListSendWps && (index == s.wpId || index == s.wpId + 1) && index < s.size)
  }

  function OnRequest(s: Wpm, now: uint64, from: Peer, target: uint8, index: uint16): Result
    requires Shape(s)
  {
    if from == s.partner && target == s.systemId then
      if ServesRequest(s, index) then
        SendItem(s.(lastAction := now, phase := SendListSendWps, wpId := index), index)
      else Result(s.(lastAction := now), [])
    else Result(s, [])
  }

  predicate AcceptsCount(s: Wpm, target: uint8) {
    target == s.systemId && (s.phase == Idle || (s.phase == GetList && s.wpId == 0))
  }

  function OnCount(s: Wpm, now: uint64, from: Peer, target: uint8, count: uint16): Result {
    if target != s.systemId then Result(s, [])
    else if !AcceptsCount(s, target) then Result(s.(lastAction := now), [])
    else if count > 0 then
      var s1 := s.(lastAction := now, phase := GetList, wpId := 0, partner := from, count := count, rcvSize := 0);
      Result(s1, SendRequest(s1, 0))
    else
      Result(s.(lastAction := now, rcvSize := 0, activeId := NO_WAYPOINT, posReached := false), [])
  }

  predicate ForUs(s: Wpm, item: Item) {
    item.targetSystem == s.systemId && item.targetComponent == MISSIONPLANNER
  }

  /** The item is the next one the upload protocol expects, so it goes into the receive buffer. */
  predicate TakesItem(s: Wpm, item: Item) {
    ForUs(s, item) &&
    ((s.phase == GetList && item.seq_ == 0) ||
     (s.phase == GetListGetWps && item.seq_ == s.wpId && item.seq_ < s.count))
  }

  predicate Commits(s: Wpm, item: Item) {
    TakesItem(s, item) && item.seq_ + 1 == s.count
  }

  /** Index of the first item among the first `size` flagged current, or `size`. */
  function FirstCurrent(items: seq<Item>, size: nat): (i: nat)
    requires size <= |items|
    ensures i <= size
    ensures i < size ==> items[i].current == 1
    ensures forall j :: 0 <= j < i ==> items[j].current != 1
  {
    FirstCurrentFrom(items, size, 0)
  }

  function FirstCurrentFrom(items: seq<Item>, size: nat, from: nat): (i: nat)
    requires from <= size <= |items|
    ensures from <= i <= size
    ensures i < size ==> items[i].current == 1
    ensures forall j :: from <= j < i ==> items[j].current != 1
    decreases size - from
  {
    if from == size || items[from].current == 1 then from else FirstCurrentFrom(items, size, from + 1)
  }

  /** Swap the receive buffer in and look for the new active waypoint. */
  function Commit(s: Wpm): Result
    requires Shape(s) && s.count <= MAX_WP_COUNT
  {
    var items := s.rcvWaypoints[..s.count] + s.waypoints[s.count..];
    var i := FirstCurrent(items, s.count);
    var s1 := s.(waypoints := items, size := s.count, phase := Idle, posReached := false, firstInsideOrbit := 0,
                 activeId := if i < s.count then i else NO_WAYPOINT);
    Result(s1, [SentAck(s.partner, 0)] + (SendCurrent(s1, s1.activeId) + SendSetpoint(s1, s1.activeId)))
  }

  /** The write into the receive buffer lands inside it. */
  predicate ItemInBounds(s: Wpm, item: Item) {
    TakesItem(s, item) ==> item.seq_ < MAX_WP_COUNT
  }

  function OnItem(s: Wpm, now: uint64, item: Item): Result
    requires Shape(s) && ItemInBounds(s, item)
  {
    if !ForUs(s, item) then Result(s, [])
    else
      var s0 := s.(lastAction := now);
      if TakesItem(s, item) then
        var s1 := s0.(phase := GetListGetWps, wpId := item.seq_ + 1,
                      rcvWaypoints := s.rcvWaypoints[item.seq_ := item]);
        if s1.wpId == s1.count then Commit(s1) else Result(s1, SendRequest(s1, s1.wpId))
      else if s.phase == Idle then Result(s0, [SentAck(s.partner, 0)])
      else if s.phase == GetListGetWps && item.seq_ != s.wpId then Result(s0, SendRequest(s0, s.wpId))
      else Result(s0, [])
  }

  function OnClearAll(s: Wpm, now: uint64, target: uint8): Result {
    if target == s.systemId && s.phase == Idle then
      Result(s.(lastAction := now, size := 0, activeId := NO_WAYPOINT, posReached := false), [])
    else Result(s, [])
  }

  predicate InBounds(s: Wpm, msg: Message) {
    msg.MissionItem? ==> ItemInBounds(s, msg.item)
  }

  function Handle(s: Wpm, now: uint64, from: Peer, msg: Message): (r: Result)
    requires Shape(s) && InBounds(s, msg)
    ensures Shape(r.state)
  {
    match msg
    case Ack(target) => OnAck(s, now, from, target)
    case SetCurrent(target, index) => OnSetCurrent(s, now, target, index)
    case RequestList(target) => OnRequestList(s, now, from, target)
    case Request(target, index) => OnRequest(s, now, from, target, index)
    case Count(target, count) => OnCount(s, now, from, target, count)
    case MissionItem(item) => OnItem(s, now, item)
    case ClearAll(target) => OnClearAll(s, now, target)
    case Other => Result(s, [])
  }

  // ----- flying the mission

  function Distance(item: Item, sample: Sample): real {
    if item.frame == FRAME_GLOBAL then sample.global
    else if item.frame == FRAME_GLOBAL_RELATIVE_ALT then sample.globalRelative
    else if item.frame == FRAME_LOCAL_ENU || item.frame == FRAME_LOCAL_NED then sample.local
    else -1.0
  }

  /** The sample lies inside the orbit of the active waypoint. */
  predicate InOrbit(s: Wpm, sample: Sample)
    requires Shape(s)
  {
    s.activeId < s.size &&
    0.0 <= Distance(s.waypoints[s.activeId], sample) <= s.waypoints[s.activeId].param2
  }

  function Advance(s: Wpm): Result
    requires Shape(s) && s.activeId < s.size
  {
    var a := s.activeId;
    var next := NextActive(a, s.size);
    var cleared := s.waypoints[a := s.waypoints[a].(current := 0)];
    var s1 := s.(waypoints := cleared[next := cleared[next].(current := 1)],
                 activeId := next, firstInsideOrbit := 0, posReached := false);
    Result(s1, SendCurrent(s1, next) + SendSetpoint(s1, next))
  }

  /** Dwell time over and the mission may go on. */
  predicate MayAdvance(s: Wpm, now: uint64)
    requires Shape(s) && s.activeId < s.size
  {
    var item := s.waypoints[s.activeId];
    Elapsed(now, s.firstInsideOrbit) as real >= item.param2 * 1000.0 && item.autocontinue != 0
  }

  function Observe(s: Wpm, sample: Sample): Wpm
    requires Shape(s)
  {
    if InOrbit(s, sample) then s.(posReached := true) else s
  }

  predicate Arrived(s: Wpm) {
    s.posReached && !s.idle && s.activeId < s.size
  }

  /** The first arrival is announced and time-stamped. */
  function Announce(s: Wpm, now: uint64): Result
    requires Shape(s) && s.activeId < s.size
  {
    if s.firstInsideOrbit == 0 then
      Result(s.(firstInsideOrbit := now), [SentReached(s.waypoints[s.activeId].seq_)])
    else Result(s, [])
  }

  function Check(s: Wpm, now: uint64, sample: Sample): (r: Result)
    requires Shape(s)
    ensures Shape(r.state)
  {
    var s1 := Observe(s, sample);
    if Arrived(s1) then
      var r2 := Announce(s1, now);
      if MayAdvance(r2.state, now) then
        var r3 := Advance(r2.state);
        Result(r3.state, r2.out + r3.out)
      else r2
    else Result(s1, [])
  }

  predicate TimedOut(s: Wpm, now: uint64) {
    Elapsed(now, s.lastAction) > PROTOCOL_TIMEOUT && s.phase != Idle
  }

  function Expire(s: Wpm, now: uint64): Wpm {
    if TimedOut(s, now) then
      s.(phase := Idle, count := 0, partner := Peer(0, 0), wpId := 65535,
         activeId := if s.size == 0 then NO_WAYPOINT else s.activeId)
    else s
  }

  predicate Enabled(s: Wpm, e: Event) {
    Shape(s) && (e.Received? ==> InBounds(s, e.msg))
  }

  /** The state and the messages after the message or timeout part, before positions are looked at. */
  function First(s: Wpm, e: Event): (r: Result)
    requires Enabled(s, e)
    ensures Shape(r.state)
  {
    match e
    case Received(now, from, msg, _) => Handle(s, now, from, msg)
    case Tick(now, _) => Result(Expire(s, now), [])
  }

  /** One call of the message handler or of the event loop. */
  function Step(s: Wpm, e: Event): (r: Result)
    requires Enabled(s, e)
    ensures Shape(r.state)
  {
    var r1 := First(s, e);
    var r2 := Check(r1.state, e.now, e.sample);
    Result(r2.state, r1.out + r2.out)
  }
}
