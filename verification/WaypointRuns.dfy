/** What every run of the waypoint manager keeps: the protocol invariant, atomic switching of the
    live list, and time-outs. A run is any interleaving of messages and event-loop calls. */
module WaypointRuns {
  import opened WaypointCycle
  import opened WaypointModel

  ghost predicate ItemsNumbered(s: Wpm)
    requires Shape(s)
  {
    forall i :: 0 <= i < s.size ==> s.waypoints[i].seq_ == i
  }

  ghost predicate ReceivedNumbered(s: Wpm)
    requires Shape(s)
  {
    1 <= s.wpId < s.count && s.wpId <= MAX_WP_COUNT &&
    forall i :: 0 <= i < s.wpId ==> s.rcvWaypoints[i].seq_ == i
  }

  ghost predicate Inv(s: Wpm) {
    Shape(s) && ItemsNumbered(s) && !s.idle &&
    (s.activeId == NO_WAYPOINT || s.activeId < s.size) &&
    (s.phase == GetList ==> s.wpId == 0 < s.count) &&
    (s.phase == GetListGetWps ==> ReceivedNumbered(s)) &&
    (s.phase == SendList ==> s.wpId == 0) &&
    (s.phase == SendList || s.phase == SendListSendWps ==> s.wpId < s.size == s.count)
  }

  lemma CommitKeepsInv(s: Wpm)
    requires Shape(s) && 0 < s.count <= MAX_WP_COUNT && !s.idle
    requires forall i :: 0 <= i < s.count ==> s.rcvWaypoints[i].seq_ == i
    ensures Inv(Commit(s).state)
  {
  }

  /** The state when an item has gone into the receive buffer. */
  function Taken(s: Wpm, now: uint64, item: Item): Wpm
    requires Shape(s) && item.seq_ < MAX_WP_COUNT
  {
    s.(lastAction := now, phase := GetListGetWps, wpId := item.seq_ + 1,
       rcvWaypoints := s.rcvWaypoints[item.seq_ := item])
  }

  lemma TakenKeepsInv(s: Wpm, now: uint64, item: Item)
    requires Inv(s) && TakesItem(s, item) && item.seq_ < MAX_WP_COUNT
    ensures Inv(OnItem(s, now, item).state)
  {
    hide Commit;
    var s1 := Taken(s, now, item);
    if s1.wpId == s1.count {
      CommitKeepsInv(s1);
      assert OnItem(s, now, item).state == Commit(s1).state;
    }
  }

  lemma ItemKeepsInv(s: Wpm, now: uint64, item: Item)
    requires Inv(s) && ItemInBounds(s, item)
    ensures Inv(OnItem(s, now, item).state)
  {
    if TakesItem(s, item) {
      TakenKeepsInv(s, now, item);
    }
  }

  lemma SetCurrentKeepsInv(s: Wpm, now: uint64, target: uint8, index: uint16)
    requires Inv(s)
    ensures Inv(OnSetCurrent(s, now, target, index).state)
  {
  }

  lemma AckKeepsInv(s: Wpm, now: uint64, from: Peer, target: uint8)
    requires Inv(s)
    ensures Inv(OnAck(s, now, from, target).state)
  {
  }

  lemma RequestListKeepsInv(s: Wpm, now: uint64, from: Peer, target: uint8)
    requires Inv(s)
    ensures Inv(OnRequestList(s, now, from, target).state)
  {
  }

  lemma RequestKeepsInv(s: Wpm, now: uint64, from: Peer, target: uint8, index: uint16)
    requires Inv(s)
    ensures Inv(OnRequest(s, now, from, target, index).state)
  {
  }

  lemma CountKeepsInv(s: Wpm, now: uint64, from: Peer, target: uint8, count: uint16)
    requires Inv(s)
    ensures Inv(OnCount(s, now, from, target, count).state)
  {
  }

  lemma ClearAllKeepsInv(s: Wpm, now: uint64, target: uint8)
    requires Inv(s)
    ensures Inv(OnClearAll(s, now, target).state)
  {
  }

  lemma FirstKeepsInv(s: Wpm, e: Event)
    requires Inv(s) && Enabled(s, e)
    ensures Inv(First(s, e).state)
  {
    match e
    case Tick(now, _) =>
    case Received(now, from, msg, _) =>
      match msg
      case Ack(target) => AckKeepsInv(s, now, from, target);
      case SetCurrent(target, index) => SetCurrentKeepsInv(s, now, target, index);
      case RequestList(target) => RequestListKeepsInv(s, now, from, target);
      case Request(target, index) => RequestKeepsInv(s, now, from, target, index);
      case Count(target, count) => CountKeepsInv(s, now, from, target, count);
      case MissionItem(item) => ItemKeepsInv(s, now, item);
      case ClearAll(target) => ClearAllKeepsInv(s, now, target);
      case Other =>
  }

  /** What looking at the position may change: activation, arrival and `current` flags, nothing else. */
  ghost predicate OnlyFlies(s: Wpm, t: Wpm)
    requires Shape(s)
  {
    Shape(t) &&
    t == s.(waypoints := t.waypoints, activeId := t.activeId, firstInsideOrbit := t.firstInsideOrbit,
            posReached := t.posReached) &&
    (t.activeId != s.activeId ==> s.activeId < s.size && t.activeId == NextActive(s.activeId, s.size)) &&
    forall i :: 0 <= i < MAX_WP_COUNT ==> Unflagged(t.waypoints[i]) == Unflagged(s.waypoints[i])
  }

  lemma AdvanceOnlyFlies(s: Wpm)
    requires Shape(s) && s.activeId < s.size
    ensures OnlyFlies(s, Advance(s).state)
  {
  }

  lemma CheckOnlyFlies(s: Wpm, now: uint64, sample: Sample)
    requires Shape(s)
    ensures OnlyFlies(s, Check(s, now, sample).state)
  {
    var s1 := Observe(s, sample);
    if Arrived(s1) {
      AdvanceOnlyFlies(Announce(s1, now).state);
    }
  }

  /** A step is its message or time-out part followed by flying. */
  lemma StepFliesAfterFirst(s: Wpm, e: Event)
    requires Enabled(s, e)
    ensures Shape(First(s, e).state) && OnlyFlies(First(s, e).state, Step(s, e).state)
  {
    CheckOnlyFlies(First(s, e).state, e.now, e.sample);
  }

  lemma FlyingKeepsInv(s: Wpm, t: Wpm)
    requires Inv(s) && OnlyFlies(s, t)
    ensures Inv(t)
  {
    forall i | 0 <= i < t.size ensures t.waypoints[i].seq_ == i {
      assert Unflagged(t.waypoints[i]) == Unflagged(s.waypoints[i]);
    }
  }

  lemma StepKeepsInv(s: Wpm, e: Event)
    requires Inv(s) && Enabled(s, e)
    ensures Inv(Step(s, e).state)
  {
    hide *;
    FirstKeepsInv(s, e);
    StepFliesAfterFirst(s, e);
    FlyingKeepsInv(First(s, e).state, Step(s, e).state);
  }

  // ----- runs

  /** `ss` are the states a freshly initialised manager goes through while `es` happens. */
  ghost predicate IsRun(ss: seq<Wpm>, es: seq<Event>) {
    |ss| == |es| + 1 && (exists id: uint8 :: ss[0] == Init(id)) &&
    forall i {:trigger StepAt(ss, es, i)} :: 0 <= i < |es| ==> StepAt(ss, es, i)
  }

  /** State `i + 1` is what event `i` makes of state `i`. */
  ghost predicate StepAt(ss: seq<Wpm>, es: seq<Event>, i: nat)
    requires i < |es| && |ss| == |es| + 1
  {
    Enabled(ss[i], es[i]) && ss[i + 1] == Step(ss[i], es[i]).state
  }

  lemma StartsInInv(ss: seq<Wpm>, es: seq<Event>)
    requires IsRun(ss, es)
    ensures Inv(ss[0])
  {
  }

  lemma {:induction false} RunKeepsInv(ss: seq<Wpm>, es: seq<Event>, k: nat)
    requires IsRun(ss, es) && k < |ss|
    ensures Inv(ss[k])
  {
    hide Inv, Init, Step;
    if k == 0 {
      StartsInInv(ss, es);
    } else {
      RunKeepsInv(ss, es, k - 1);
      assert StepAt(ss, es, k - 1);
      StepKeepsInv(ss[k - 1], es[k - 1]);
    }
  }

  // ----- the receive buffer is never overrun when announced lengths fit

  ghost predicate CountFits(s: Wpm) {
    s.phase == GetList || s.phase == GetListGetWps ==> s.count <= MAX_WP_COUNT
  }

  predicate Announces(e: Event, limit: nat) {
    e.Received? && e.msg.Count? ==> e.msg.count <= limit
  }

  lemma FirstKeepsCountFits(s: Wpm, e: Event)
    requires Inv(s) && CountFits(s) && Enabled(s, e) && Announces(e, MAX_WP_COUNT)
    ensures CountFits(First(s, e).state)
  {
  }

  lemma FittingCountInBounds(s: Wpm, e: Event)
    requires Inv(s) && CountFits(s)
    ensures Enabled(s, e)
  {
  }

  lemma FittingCountEnables(s: Wpm, e: Event)
    requires Inv(s) && CountFits(s) && Announces(e, MAX_WP_COUNT)
    ensures Enabled(s, e) && CountFits(Step(s, e).state)
  {
    FittingCountInBounds(s, e);
    FirstKeepsCountFits(s, e);
    StepFliesAfterFirst(s, e);
  }

  /** A run goes on with any event that is possible where it stands. */
  lemma ExtendRun(ss: seq<Wpm>, es: seq<Event>, e: Event) returns (more: seq<Wpm>)
    requires IsRun(ss, es) && Enabled(ss[|es|], e)
    ensures IsRun(more, es + [e]) && more == ss + [Step(ss[|es|], e).state]
  {
    hide Step;
    more := ss + [Step(ss[|es|], e).state];
    forall i | 0 <= i < |es| + 1 ensures StepAt(more, es + [e], i) {
      if i < |es| {
        assert StepAt(ss, es, i);
      }
    }
  }

  /** Every sequence of events that announces at most 15 items is a run: nothing else is ever out of bounds. */
  lemma {:induction false} FittingCountsAlwaysRun(id: uint8, es: seq<Event>) returns (ss: seq<Wpm>)
    requires forall i :: 0 <= i < |es| ==> Announces(es[i], MAX_WP_COUNT)
    ensures IsRun(ss, es) && ss[0] == Init(id) && CountFits(ss[|es|])
  {
    if |es| == 0 {
      ss := [Init(id)];
    } else {
      var n := |es| - 1;
      var before := FittingCountsAlwaysRun(id, es[..n]);
      RunKeepsInv(before, es[..n], n);
      FittingCountEnables(before[n], es[n]);
      ss := ExtendRun(before, es[..n], es[n]);
      assert es == es[..n] + [es[n]];
    }
  }

  // ----- the live list switches atomically

  predicate CommitsAt(s: Wpm, e: Event) {
    e.Received? && e.msg.MissionItem? && Commits(s, e.msg.item)
  }

  predicate ClearsAt(s: Wpm, e: Event) {
    e.Received? && e.msg.ClearAll? && e.msg.targetSystem == s.systemId && s.phase == Idle
  }

  ghost predicate SameMission(s: Wpm, t: Wpm)
    requires Shape(s) && Shape(t)
  {
    t.size == s.size && forall i :: 0 <= i < MAX_WP_COUNT ==> Mission(t.waypoints[i]) == Mission(s.waypoints[i])
  }

  lemma FlyingKeepsMission(s: Wpm, t: Wpm)
    requires Shape(s) && OnlyFlies(s, t)
    ensures SameMission(s, t)
  {
    forall i | 0 <= i < MAX_WP_COUNT ensures Mission(t.waypoints[i]) == Mission(s.waypoints[i]) {
      assert Unflagged(t.waypoints[i]) == Unflagged(s.waypoints[i]);
    }
  }

  lemma SetCurrentKeepsMission(s: Wpm, now: uint64, target: uint8, index: uint16)
    requires Shape(s)
    ensures SameMission(s, OnSetCurrent(s, now, target, index).state)
  {
  }

  lemma RequestKeepsMission(s: Wpm, now: uint64, from: Peer, target: uint8, index: uint16)
    requires Shape(s)
    ensures SameMission(s, OnRequest(s, now, from, target, index).state)
  {
  }

  lemma OthersKeepList(s: Wpm, e: Event)
    requires Shape(s) && Enabled(s, e)
    requires !CommitsAt(s, e) && !ClearsAt(s, e)
    requires e.Received? ==> !e.msg.SetCurrent? && !e.msg.Request?
    ensures First(s, e).state.waypoints == s.waypoints && First(s, e).state.size == s.size
  {
  }

  lemma FirstKeepsMission(s: Wpm, e: Event)
    requires Shape(s) && Enabled(s, e)
    requires !CommitsAt(s, e) && !ClearsAt(s, e)
    ensures Shape(First(s, e).state) && SameMission(s, First(s, e).state)
  {
    if e.Received? && e.msg.SetCurrent? {
      SetCurrentKeepsMission(s, e.now, e.msg.targetSystem, e.msg.index);
    } else if e.Received? && e.msg.Request? {
      RequestKeepsMission(s, e.now, e.from, e.msg.targetSystem, e.msg.index);
    } else {
      OthersKeepList(s, e);
    }
  }

  lemma SwitchSetsSize(s: Wpm, e: Event)
    requires Inv(s) && Enabled(s, e)
    ensures CommitsAt(s, e) ==> First(s, e).state.size == s.count
    ensures ClearsAt(s, e) ==> First(s, e).state.size == 0
  {
  }

  /** A step changes the stored mission only by committing an upload or by CLEAR_ALL in Idle. */
  lemma OnlyCommitOrClearChangesMission(s: Wpm, e: Event)
    requires Inv(s) && Enabled(s, e)
    ensures Shape(Step(s, e).state)
    ensures !CommitsAt(s, e) && !ClearsAt(s, e) ==> SameMission(s, Step(s, e).state)
    ensures CommitsAt(s, e) ==> Step(s, e).state.size == s.count
    ensures ClearsAt(s, e) ==> Step(s, e).state.size == 0
  {
    StepFliesAfterFirst(s, e);
    SwitchSetsSize(s, e);
    if !CommitsAt(s, e) && !ClearsAt(s, e) {
      FirstKeepsMission(s, e);
      FlyingKeepsMission(First(s, e).state, Step(s, e).state);
    }
  }

  lemma SameMissionTransitive(s: Wpm, t: Wpm, u: Wpm)
    requires Shape(s) && Shape(t) && Shape(u) && SameMission(s, t) && SameMission(t, u)
    ensures SameMission(s, u)
  {
    forall i | 0 <= i < MAX_WP_COUNT ensures Mission(u.waypoints[i]) == Mission(s.waypoints[i]) {
      assert Mission(t.waypoints[i]) == Mission(s.waypoints[i]);
    }
  }

  lemma SameMissionReflexive(s: Wpm)
    requires Shape(s)
    ensures SameMission(s, s)
  {
  }

  ghost predicate NoSwitch(ss: seq<Wpm>, es: seq<Event>, a: nat, b: nat)
    requires |ss| == |es| + 1 && b <= |es|
  {
    forall j :: a <= j < b ==> !CommitsAt(ss[j], es[j]) && !ClearsAt(ss[j], es[j])
  }

  /** Uploads that are abandoned, refused or timed out leave the mission as it was. */
  lemma {:induction false} QuietIntervalKeepsMission(ss: seq<Wpm>, es: seq<Event>, a: nat, b: nat)
    requires IsRun(ss, es) && a <= b <= |es|
    requires NoSwitch(ss, es, a, b)
    ensures Shape(ss[a]) && Shape(ss[b]) && SameMission(ss[a], ss[b])
    decreases b - a
  {
    hide Step, CommitsAt, ClearsAt, SameMission;
    RunKeepsInv(ss, es, a);
    if a == b {
      SameMissionReflexive(ss[a]);
    } else {
      QuietIntervalKeepsMission(ss, es, a, b - 1);
      RunKeepsInv(ss, es, b - 1);
      assert StepAt(ss, es, b - 1);
      OnlyCommitOrClearChangesMission(ss[b - 1], es[b - 1]);
      SameMissionTransitive(ss[a], ss[b - 1], ss[b]);
    }
  }

  /** An event-loop call more than the timeout after the last action ends any transfer; an earlier one ends none. */
  lemma TickTimesOut(s: Wpm, now: uint64, sample: Sample)
    requires Inv(s) && s.lastAction <= now
    ensures Step(s, Tick(now, sample)).state.phase ==
            if now - s.lastAction > PROTOCOL_TIMEOUT then Idle else s.phase
    ensures now - s.lastAction > PROTOCOL_TIMEOUT && s.phase != Idle ==>
            Step(s, Tick(now, sample)).state.count == 0 && Step(s, Tick(now, sample)).state.partner == Peer(0, 0)
  {
    assert Elapsed(now, s.lastAction) == now - s.lastAction;
    var e := Tick(now, sample);
    hide Check, Step;
    StepFliesAfterFirst(s, e);
  }

  /** The clock is positive and never goes back. */
  ghost predicate ClockRuns(es: seq<Event>) {
    forall i {:trigger ClockAt(es, i)} :: 0 <= i < |es| ==> ClockAt(es, i)
  }

  predicate ClockAt(es: seq<Event>, i: nat)
    requires i < |es|
  {
    0 < es[i].now && (i > 0 ==> es[i - 1].now <= es[i].now)
  }

  lemma {:induction false} ClockMonotone(es: seq<Event>, j: nat, k: nat)
    requires ClockRuns(es) && j <= k < |es|
    ensures es[j].now <= es[k].now
  {
    if j < k {
      ClockMonotone(es, j, k - 1);
      assert ClockAt(es, k);
    }
  }

  /** A step that is not a message's leaves the time of the last action alone and starts no transfer. */
  lemma FirstActs(s: Wpm, e: Event)
    requires Enabled(s, e)
    ensures var t := First(s, e).state;
            (t.lastAction == s.lastAction && (s.phase == Idle ==> t.phase == Idle)) ||
            (e.Received? && t.lastAction == e.now)
  {
  }

  lemma StepActs(s: Wpm, e: Event)
    requires Enabled(s, e)
    ensures var t := Step(s, e).state;
            (t.lastAction == s.lastAction && (s.phase == Idle ==> t.phase == Idle)) ||
            (e.Received? && t.lastAction == e.now)
  {
    hide First, Step;
    FirstActs(s, e);
    StepFliesAfterFirst(s, e);
  }

  /** The last action of a transfer that is under way was some message's. */
  lemma {:induction false} LastActionWasReceived(ss: seq<Wpm>, es: seq<Event>, k: nat)
    requires IsRun(ss, es) && k < |ss| && ss[k].phase != Idle
    ensures exists j :: 0 <= j < k && es[j].Received? && es[j].now == ss[k].lastAction
  {
    if k > 0 {
      hide Step;
      assert StepAt(ss, es, k - 1);
      StepActs(ss[k - 1], es[k - 1]);
      if !(es[k - 1].Received? && es[k - 1].now == ss[k].lastAction) {
        LastActionWasReceived(ss, es, k - 1);
      }
    }
  }

  /** When the link has been silent for longer than the timeout, the next event-loop call leaves the
      manager idle, whatever went on before. */
  lemma SilenceEndsTransfers(ss: seq<Wpm>, es: seq<Event>, k: nat)
    requires IsRun(ss, es) && ClockRuns(es) && k < |es| && es[k].Tick?
    requires forall j :: 0 <= j < k && es[j].Received? ==> es[k].now - es[j].now > PROTOCOL_TIMEOUT
    ensures ss[k + 1].phase == Idle
  {
    RunKeepsInv(ss, es, k);
    assert StepAt(ss, es, k);
    StepActs(ss[k], es[k]);
    if ss[k].phase != Idle {
      LastActionWasReceived(ss, es, k);
      var j :| 0 <= j < k && es[j].Received? && es[j].now == ss[k].lastAction;
      ClockMonotone(es, j, k);
      TickTimesOut(ss[k], es[k].now, es[k].sample);
    }
  }
}
