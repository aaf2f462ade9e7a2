/** What each message does, in the protocol's own numbers: which messages are for the manager, which it
    refuses and when, and what a whole upload and a whole download say on the wire. */
module WaypointLaws {
  import opened WaypointModel
  import opened WaypointRuns
  import opened WaypointTransfers

  // ----- what counts as the same mission

  /** Two items agree in everything but the `current` flag and the addressee. */
  predicate SameData(a: Item, b: Item) {
    a.seq_ == b.seq_ && a.frame == b.frame && a.command == b.command && a.autocontinue == b.autocontinue &&
    a.param1 == b.param1 && a.param2 == b.param2 && a.param3 == b.param3 && a.param4 == b.param4 &&
    a.x == b.x && a.y == b.y && a.z == b.z
  }

  lemma SameMissionIffSameData(a: Item, b: Item)
    ensures Mission(a) == Mission(b) <==> SameData(a, b)
    ensures Unflagged(a) == Unflagged(b) <==>
              SameData(a, b) && a.targetSystem == b.targetSystem && a.targetComponent == b.targetComponent
    ensures SameData(Mission(a), a) && SameData(Unflagged(a), a)
  {
  }

  /** A manager starts empty, idle, with nobody for its partner and nothing reached. */
  lemma StartsEmptyAndIdle(id: uint8)
    ensures var s := Init(id);
            Shape(s) && s.size == 0 && s.phase == Idle && s.activeId == 65535 && s.partner == Peer(0, 0) &&
            s.wpId == 0 && s.count == 0 && s.rcvSize == 0 && s.lastAction == 0 && s.firstInsideOrbit == 0 &&
            !s.posReached && !s.idle && s.systemId == id
    ensures forall i :: 0 <= i < 15 ==> Init(id).waypoints[i] == ZERO_ITEM && Init(id).rcvWaypoints[i] == ZERO_ITEM
  {
  }

  // ----- messages that do nothing

  /** The message is addressed to system `id`; items are moreover addressed to its mission planner, 190. */
  predicate AddressedTo(msg: Message, id: uint8) {
    match msg
    case Ack(target) => target == id
    case SetCurrent(target, _) => target == id
    case RequestList(target) => target == id
    case Request(target, _) => target == id
    case Count(target, _) => target == id
    case MissionItem(item) => item.targetSystem == id && item.targetComponent == 190
    case ClearAll(target) => target == id
    case Other => false
  }

  /** Acknowledgements and requests for items count only from the partner. */
  predicate Heard(s: Wpm, from: Peer, msg: Message) {
    AddressedTo(msg, s.systemId) && (msg.Ack? || msg.Request? ==> from == s.partner)
  }

  /** What is not for the manager, or from a stranger, leaves it as it is; everything else keeps the transfer
      under way alive, except that a list is cleared only in Idle. */
  lemma UnheardIgnored(s: Wpm, now: uint64, from: Peer, msg: Message)
    requires Shape(s) && InBounds(s, msg)
    ensures !Heard(s, from, msg) ==> Handle(s, now, from, msg) == Result(s, [])
    ensures Heard(s, from, msg) && (msg.ClearAll? ==> s.phase == Idle) ==>
              Handle(s, now, from, msg).state.lastAction == now
  {
  }

  /** The phases in which a message makes sense. */
  predicate Timely(s: Wpm, msg: Message) {
    match msg
    case Ack(_) => (s.phase == SendList || s.phase == SendListSendWps) && s.wpId + 1 == s.size
    case SetCurrent(_, index) => s.phase == Idle && index < s.size
    case RequestList(_) => s.phase == Idle || s.phase == SendList
    case Request(_, index) =>
      (s.phase == SendList && index == 0) ||
      (s.phase == SendListSendWps && index < s.size && (index == s.wpId || index == s.wpId + 1))
    case Count(_, _) => s.phase == Idle || s.phase == GetList
    case MissionItem(item) => s.phase == Idle || s.phase == GetListGetWps || (s.phase == GetList && item.seq_ == 0)
    case ClearAll(_) => s.phase == Idle
    case Other => false
  }

  /** Busy, and an untimely message is refused: nothing is sent and nothing but the time of the last action
      changes. */
  lemma UntimelyRefused(s: Wpm, now: uint64, from: Peer, msg: Message)
    requires Inv(s) && InBounds(s, msg) && !Timely(s, msg)
    ensures Handle(s, now, from, msg).out == []
    ensures Handle(s, now, from, msg).state == s.(lastAction := Handle(s, now, from, msg).state.lastAction)
  {
  }

  // ----- single messages

  /** SET_CURRENT of a listed waypoint in Idle makes it the active one, aims at it and broadcasts it; the list
      keeps its mission data. */
  lemma SetCurrentSelects(s: Wpm, now: uint64, from: Peer, index: uint16)
    requires Inv(s) && s.phase == Idle && index < s.size
    ensures var r := Handle(s, now, from, SetCurrent(s.systemId, index));
            Shape(r.state) && r.state.activeId == index && r.state.size == s.size && r.state.phase == Idle &&
            (forall i :: 0 <= i < s.size ==> SameData(r.state.waypoints[i], s.waypoints[i])) &&
            (forall i :: 0 <= i < s.size ==> r.state.waypoints[i].current == if i == index then 1 else 0) &&
            (forall i :: s.size <= i < 15 ==> r.state.waypoints[i] == s.waypoints[i]) &&
            |r.out| == 2 && r.out[0] == SentCurrent(index) &&
            r.out[1].SentSetpoint? && SameData(r.out[1].target, s.waypoints[index])
  {
  }

  /** The partner's request for item 0, for the item served last or for the next one is served with what is
      stored, addressed to the partner. */
  lemma RequestServesItem(s: Wpm, now: uint64, index: uint16)
    requires Inv(s) && Timely(s, Request(s.systemId, index))
    ensures var r := Handle(s, now, s.partner, Request(s.systemId, index));
            r.state.phase == SendListSendWps && r.state.wpId == index &&
            |r.out| == 1 && r.out[0].SentItem? && SameData(r.out[0].item, s.waypoints[index]) &&
            r.out[0].item.seq_ == index && Peer(r.out[0].item.targetSystem, r.out[0].item.targetComponent) == s.partner
  {
  }

  /** The partner's ACK for the last item ends a download, and nothing else about it. */
  lemma AckEndsDownload(s: Wpm, now: uint64)
    requires Inv(s) && Timely(s, WaypointModel.Ack(s.systemId))
    ensures Handle(s, now, s.partner, WaypointModel.Ack(s.systemId)) ==
            Result(s.(lastAction := now, phase := Idle, wpId := 0), [])
  {
  }

  /** Only items that fit the receive buffer are ever asked for. */
  lemma AsksOnlyForWhatFits(s: Wpm, now: uint64, from: Peer, msg: Message, to_: Peer, index: uint16)
    requires Inv(s) && InBounds(s, msg) && SentRequest(to_, index) in Handle(s, now, from, msg).out
    ensures index < 15
  {
    if msg.MissionItem? {
      ItemKeepsInv(s, now, msg.item);
    }
  }

  /** A committed upload makes its first flagged item the active one, or none if none is flagged. */
  lemma CommitActivatesFirstFlagged(s: Wpm, now: uint64, item: Item)
    requires Inv(s) && ItemInBounds(s, item) && Commits(s, item)
    ensures var t := OnItem(s, now, item).state;
            Shape(t) && t.phase == Idle && t.size == s.count &&
            if t.activeId == 65535 then forall i :: 0 <= i < t.size ==> t.waypoints[i].current != 1
            else t.activeId < t.size && t.waypoints[t.activeId].current == 1 &&
                 forall i :: 0 <= i < t.activeId ==> t.waypoints[i].current != 1
  {
    var s1 := Taken(s, now, item);
    assert OnItem(s, now, item).state == Commit(s1).state;
    var i := FirstCurrent(s1.rcvWaypoints[..s1.count] + s1.waypoints[s1.count..], s1.count);
  }

  /** An advance moves the flag on: the next waypoint's is 1, and every other one's is as it was or now 0. */
  lemma AdvanceMovesFlag(s: Wpm)
    requires Inv(s) && s.activeId < s.size
    ensures var t := Advance(s).state;
            Shape(t) && t.activeId < s.size && t.waypoints[t.activeId].current == 1 &&
            (t.activeId != s.activeId ==> t.waypoints[s.activeId].current == 0) &&
            forall i :: 0 <= i < 15 && i != t.activeId && i != s.activeId ==> t.waypoints[i] == s.waypoints[i]
  {
  }

  /** CLEAR_ALL in Idle empties the list; an announced empty list only ends the flight. */
  lemma ClearAndEmptyAnnouncement(s: Wpm, now: uint64, from: Peer)
    requires Inv(s) && s.phase == Idle
    ensures var t := Handle(s, now, from, ClearAll(s.systemId)).state;
            t.size == 0 && t.activeId == 65535 && !t.posReached && t.phase == Idle
    ensures var t := Handle(s, now, from, Count(s.systemId, 0)).state;
            t.waypoints == s.waypoints && t.size == s.size && t.phase == Idle && t.activeId == 65535 && !t.posReached
  {
  }

  /** Elapsed time is measured on a 64-bit clock that may have gone round: an event-loop pass ends a transfer
      exactly when more than 5 000 000 microseconds lie between the last action and now. */
  lemma TimesOutAround(s: Wpm, now: uint64, sample: Sample)
    requires Inv(s) && s.phase != Idle
    ensures First(s, Tick(now, sample)).state.phase == Idle <==>
            (if now >= s.lastAction then now - s.lastAction
             else now + 18446744073709551616 - s.lastAction) > 5000000
    ensures First(s, Tick(now, sample)).state.phase == Idle ==>
              First(s, Tick(now, sample)).state == s.(phase := Idle, count := 0, partner := Peer(0, 0), wpId := 65535)
  {
  }

  // ----- a whole upload

  /** The station announces `n` items to an idle manager. */
  predicate AnnouncesList(s: Wpm, e: Event, n: nat) {
    s.phase == Idle && e.Received? && e.msg.Count? && e.msg.targetSystem == s.systemId && e.msg.count == n
  }

  /** Event `start + 1 + i` carries item `i` of the list, addressed to the manager's mission planner. */
  predicate CarriesItem(id: uint8, es: seq<Event>, start: nat, items: seq<Item>, i: nat)
    requires i < |items| && start + |items| < |es|
  {
    var e := es[start + 1 + i];
    e.Received? && e.msg.MissionItem? && e.msg.item == items[i] &&
    items[i].seq_ == i && items[i].targetSystem == id && items[i].targetComponent == 190
  }

  ghost predicate LosslessUpload(s: Wpm, es: seq<Event>, start: nat, items: seq<Item>) {
    1 <= |items| <= 15 && start + |items| < |es| && AnnouncesList(s, es[start], |items|) &&
    forall i {:trigger CarriesItem(s.systemId, es, start, items, i)} :: 0 <= i < |items| ==>
      CarriesItem(s.systemId, es, start, items, i)
  }

  lemma LosslessIsInOrder(s: Wpm, es: seq<Event>, start: nat, items: seq<Item>)
    requires LosslessUpload(s, es, start, items)
    ensures InOrderUpload(s, es, start, items)
  {
    forall i | 0 <= i < |items| ensures Delivers(s, es, start, items, i) {
      assert CarriesItem(s.systemId, es, start, items, i);
    }
  }

  /** The station's messages are all the manager answers to. */
  lemma {:induction false} LosslessAwaits(ss: seq<Wpm>, es: seq<Event>, start: nat, items: seq<Item>, k: nat)
    requires IsRun(ss, es) && start < |es| && LosslessUpload(ss[start], es, start, items) && k < |items|
    ensures Awaits(ss[start + 1 + k], |items|, k) && ss[start + 1 + k].partner == es[start].from
    ensures ss[start + 1 + k].systemId == ss[start].systemId
  {
    hide Step, Inv, Awaits;
    LosslessIsInOrder(ss[start], es, start, items);
    var j := start + k;
    RunKeepsInv(ss, es, j);
    assert StepAt(ss, es, j);
    if k == 0 {
      AnnouncedAwaitsFirst(ss[start], es[start], |items|);
    } else {
      LosslessAwaits(ss, es, start, items, k - 1);
      assert Delivers(ss[start], es, start, items, k - 1);
      DeliveredAwaitsNext(ss[j], es[j], items[k - 1], |items|);
    }
  }

  lemma FirstOutIsOut(s: Wpm, e: Event, o: Out)
    requires Enabled(s, e) && o in First(s, e).out
    ensures o in Step(s, e).out
  {
    hide First, Check;
    var i :| 0 <= i < |First(s, e).out| && First(s, e).out[i] == o;
    assert Step(s, e).out[i] == o;
  }

  /** Step `start + k` asks `station` for item `k`. */
  ghost predicate AskedFor(ss: seq<Wpm>, es: seq<Event>, start: nat, k: nat, station: Peer) {
    |ss| == |es| + 1 && start + k < |es| && k < 0x1_0000 && Enabled(ss[start + k], es[start + k]) &&
    SentRequest(station, k) in Step(ss[start + k], es[start + k]).out
  }

  /** A whole upload without losses: the manager asks the station for each item in turn, acknowledges the last,
      holds the list and is idle again. */
  lemma LosslessUploadOnTheWire(ss: seq<Wpm>, es: seq<Event>, start: nat, items: seq<Item>)
    requires IsRun(ss, es) && start < |es| && LosslessUpload(ss[start], es, start, items)
    ensures var t := ss[start + |items| + 1];
            Shape(t) && t.phase == Idle && t.size == |items| &&
            forall i :: 0 <= i < |items| ==> SameData(t.waypoints[i], items[i])
    ensures forall k :: 0 <= k < |items| ==> AskedFor(ss, es, start, k, es[start].from)
    ensures Enabled(ss[start + |items|], es[start + |items|])
    ensures SentAck(es[start].from, 0) in Step(ss[start + |items|], es[start + |items|]).out
  {
    hide Step, Enabled, AskedFor, SameData, InOrderUpload;
    LosslessIsInOrder(ss[start], es, start, items);
    InOrderUploadInstalls(ss, es, start, items);
    InstalledHasData(ss[start + |items| + 1], items);
    forall k | 0 <= k < |items| ensures AskedFor(ss, es, start, k, es[start].from) {
      LosslessAsks(ss, es, start, items, k);
    }
    LosslessAcknowledged(ss, es, start, items);
  }

  lemma InstalledHasData(t: Wpm, items: seq<Item>)
    requires Shape(t) && Installed(t, items)
    ensures t.size == |items| && forall i :: 0 <= i < |items| ==> SameData(t.waypoints[i], items[i])
  {
    forall i | 0 <= i < |items| ensures SameData(t.waypoints[i], items[i]) {
      SameMissionIffSameData(t.waypoints[i], items[i]);
    }
  }

  lemma LosslessAsks(ss: seq<Wpm>, es: seq<Event>, start: nat, items: seq<Item>, k: nat)
    requires IsRun(ss, es) && start < |es| && LosslessUpload(ss[start], es, start, items) && k < |items|
    ensures AskedFor(ss, es, start, k, es[start].from)
  {
    var s, e := ss[start + k], es[start + k];
    RunKeepsInv(ss, es, start + k);
    assert StepAt(ss, es, start + k);
    if k > 0 {
      LosslessAwaits(ss, es, start, items, k - 1);
      assert CarriesItem(ss[start].systemId, es, start, items, k - 1);
    }
    assert First(s, e).out == [SentRequest(es[start].from, k)] by {
      hide Step;
      NextAsked(s, e, es[start].from, |items|, k);
    }
    assert SentRequest(es[start].from, k) in First(s, e).out;
    FirstOutIsOut(s, e, SentRequest(es[start].from, k));
  }

  /** The announcement is answered by a request for item 0, item `k - 1` by one for item `k`. */
  lemma NextAsked(s: Wpm, e: Event, from: Peer, n: nat, k: nat)
    requires Inv(s) && Enabled(s, e) && k < n <= 15
    requires if k == 0 then AnnouncesList(s, e, n) && e.from == from
             else Awaits(s, n, k - 1) && s.partner == from && e.Received? && e.msg.MissionItem? &&
                  e.msg.item.seq_ == k - 1 && AddressedTo(e.msg, s.systemId)
    ensures First(s, e).out == [SentRequest(from, k)]
  {
  }

  lemma LosslessAcknowledged(ss: seq<Wpm>, es: seq<Event>, start: nat, items: seq<Item>)
    requires IsRun(ss, es) && start < |es| && LosslessUpload(ss[start], es, start, items)
    ensures Enabled(ss[start + |items|], es[start + |items|])
    ensures SentAck(es[start].from, 0) in Step(ss[start + |items|], es[start + |items|]).out
  {
    hide Step, Inv, Awaits;
    var n := |items|;
    LosslessIsInOrder(ss[start], es, start, items);
    LosslessAwaits(ss, es, start, items, n - 1);
    LastItemCommits(ss, es, start, items, start + n);
    RunKeepsInv(ss, es, start + n);
    assert StepAt(ss, es, start + n);
    CommitAcknowledges(ss[start + n], es[start + n]);
  }

  // ----- a whole download

  /** Event `start` asks an idle manager for its list. */
  predicate AsksForList(s: Wpm, e: Event) {
    s.phase == Idle && s.size > 0 && e.Received? && e.msg.RequestList? && e.msg.targetSystem == s.systemId
  }

  /** Event `start + 1 + i` asks for item `i`, from where the list was asked for. */
  predicate AsksForItem(id: uint8, es: seq<Event>, start: nat, i: nat) {
    start + 1 + i < |es| && es[start].Received? && es[start + 1 + i].Received? &&
    es[start + 1 + i].from == es[start].from && es[start + 1 + i].msg.Request? &&
    es[start + 1 + i].msg.targetSystem == id && es[start + 1 + i].msg.index == i
  }

  ghost predicate LosslessDownload(s: Wpm, es: seq<Event>, start: nat) {
    start + 1 + s.size < |es| && AsksForList(s, es[start]) &&
    (forall i {:trigger AsksForItem(s.systemId, es, start, i)} :: 0 <= i < s.size ==>
       AsksForItem(s.systemId, es, start, i)) &&
    var e := es[start + 1 + s.size];
    e.Received? && e.msg.Ack? && e.from == es[start].from && e.msg.targetSystem == s.systemId
  }

  /** Asked for its list, an idle manager tells its length and takes whoever asked for its partner. */
  lemma ListAskedFor(s: Wpm, e: Event)
    requires Inv(s) && Enabled(s, e) && AsksForList(s, e)
    ensures var t := Step(s, e).state;
            t.phase == SendList && t.partner == e.from && t.systemId == s.systemId && SameMission(s, t)
    ensures SentCount(e.from, s.size) in Step(s, e).out
  {
    StepFliesAfterFirst(s, e);
    OnlyCommitOrClearChangesMission(s, e);
    assert First(s, e).out == [SentCount(e.from, s.size)];
    assert First(s, e).out[0] == SentCount(e.from, s.size);
    FirstOutIsOut(s, e, SentCount(e.from, s.size));
  }

  /** A whole download without losses: the station is told how many items there are, gets each as it is stored,
      and its ACK leaves the manager idle. */
  lemma LosslessDownloadOnTheWire(ss: seq<Wpm>, es: seq<Event>, start: nat)
    requires IsRun(ss, es) && start < |es| && LosslessDownload(ss[start], es, start)
    ensures StepAt(ss, es, start) && SentCount(es[start].from, ss[start].size) in Step(ss[start], es[start]).out
    ensures ss[start + 1].size == ss[start].size && ss[start + 2 + ss[start].size].phase == Idle
    ensures Shape(ss[start]) &&
            var got := Rebuild(ItemsSent(ss, es, start + 1, start + 1 + ss[start].size));
            |got| == ss[start].size && forall i :: 0 <= i < |got| ==> SameData(got[i], ss[start].waypoints[i])
  {
    hide Step, Inv, Rebuild, ItemsSent;
    var n := ss[start].size;
    RunKeepsInv(ss, es, start);
    RunHasShape(ss, es, start);
    assert StepAt(ss, es, start);
    ListAskedFor(ss[start], es[start]);
    DownloadFollows(ss[start], ss[start + 1], es, start);
    InOrderDownloadCompletes(ss, es, start + 1);
    DownloadedIsStored(ss[start], ss[start + 1]);
  }

  lemma RunHasShape(ss: seq<Wpm>, es: seq<Event>, k: nat)
    requires IsRun(ss, es) && k < |ss|
    ensures Shape(ss[k])
  {
    RunKeepsInv(ss, es, k);
  }

  lemma DownloadFollows(s: Wpm, t: Wpm, es: seq<Event>, start: nat)
    requires LosslessDownload(s, es, start) && t.phase == SendList && t.partner == es[start].from
    requires t.systemId == s.systemId && t.size == s.size
    ensures InOrderDownload(t, es, start + 1)
  {
    var first := start + 1;
    forall i | 0 <= i < t.size ensures Asks(t, es, first, i) {
      assert AsksForItem(s.systemId, es, start, i);
    }
  }

  lemma DownloadedIsStored(s: Wpm, t: Wpm)
    requires Shape(s) && Shape(t) && SameMission(s, t)
    ensures var held := MissionPrefix(t, t.size);
            forall i :: 0 <= i < |held| ==> SameData(held[i], s.waypoints[i])
  {
    var held := MissionPrefix(t, t.size);
    forall i | 0 <= i < |held| ensures SameData(held[i], s.waypoints[i]) {
      assert Mission(t.waypoints[i]) == Mission(s.waypoints[i]);
      SameMissionIffSameData(t.waypoints[i], s.waypoints[i]);
    }
  }
}
