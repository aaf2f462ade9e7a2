/** Flying the mission: what the messages sent over a whole run say about activations, arrivals and
    advances, the cycle automatic advances follow, and the `current` flags. */
module WaypointFlight {
  import opened WaypointCycle
  import opened WaypointModel
  import opened WaypointRuns

  /** What an observer of the outgoing messages and the position samples has noted so far.
      `announced` and `orbitSeen` are about the latest activation, i.e. the latest setpoint, `target`;
      `current` is the number last broadcast. */
  datatype Notes = Notes(
    setpoints: nat, reached: nat, announced: nat, announcedAt: uint64, orbitSeen: bool, clock: uint64,
    target: Item, current: uint16)

  const NO_NOTES := Notes(0, 0, 0, 0, false, 0, ZERO_ITEM, 0)

  function Hear(h: Notes, o: Out, now: uint64): Notes {
    match o
    case SentSetpoint(target) =>
      h.(setpoints := h.setpoints + 1, announced := 0, orbitSeen := false, target := target)
    case SentReached(_) => h.(reached := h.reached + 1, announced := h.announced + 1, announcedAt := now)
    case SentCurrent(index) => h.(current := index)
    case _ => h
  }

  /** The distance that counts for the item's frame lies between 0 and its radius: the global position for
      frame 0, that relative to home for frame 3, the local one for frames 1 and 4. */
  predicate Inside(item: Item, sample: Sample) {
    (item.frame == 0 && 0.0 <= sample.global <= item.param2) ||
    (item.frame == 3 && 0.0 <= sample.globalRelative <= item.param2) ||
    (item.frame == 1 && 0.0 <= sample.local <= item.param2) ||
    (item.frame == 4 && 0.0 <= sample.local <= item.param2)
  }

  /** The sample lies inside the radius of the waypoint flown to. */
  predicate SeenInside(s: Wpm, sample: Sample)
    requires Shape(s)
  {
    s.activeId < s.size && Inside(s.waypoints[s.activeId], sample)
  }

  function HearAll(h: Notes, out: seq<Out>, now: uint64): Notes
    decreases out
  {
    if out == [] then h else HearAll(Hear(h, out[0], now), out[1..], now)
  }

  lemma {:induction false} HearAllConcat(h: Notes, a: seq<Out>, b: seq<Out>, now: uint64)
    ensures HearAll(h, a + b, now) == HearAll(HearAll(h, a, now), b, now)
    decreases a
  {
    if a == [] {
      assert a + b == b;
    } else {
      assert (a + b)[1..] == a[1..] + b;
      HearAllConcat(Hear(h, a[0], now), a[1..], b, now);
    }
  }

  /** Notes when the position is looked at: the message part's output and the sample are in. */
  function Sighted(h: Notes, s: Wpm, e: Event): Notes
    requires Enabled(s, e)
  {
    var r := First(s, e);
    var h1 := HearAll(h.(clock := e.now), r.out, e.now);
    if SeenInside(r.state, e.sample) then h1.(orbitSeen := true) else h1
  }

  /** State and output when the arrival, if any, has been announced and an advance is decided on. */
  function Announced(s: Wpm, now: uint64, sample: Sample): Result
    requires Shape(s)
  {
    var s1 := Observe(s, sample);
    if Arrived(s1) then Announce(s1, now) else Result(s1, [])
  }

  predicate Advances(s: Wpm, now: uint64, sample: Sample)
    requires Shape(s)
  {
    Arrived(Observe(s, sample)) && MayAdvance(Announced(s, now, sample).state, now)
  }

  lemma CheckIsAnnounceThenAdvance(s: Wpm, now: uint64, sample: Sample)
    requires Shape(s)
    ensures var r := Announced(s, now, sample);
            Check(s, now, sample) ==
            if Advances(s, now, sample) then Result(Advance(r.state).state, r.out + Advance(r.state).out) else r
  {
  }

  /** Looking at the position aims at a waypoint exactly when it advances, and only then changes the active one. */
  lemma AdvancesIff(s: Wpm, now: uint64, sample: Sample)
    requires Shape(s)
    ensures (exists item :: SentSetpoint(item) in Check(s, now, sample).out) <==> Advances(s, now, sample)
    ensures Check(s, now, sample).state.size == s.size
    ensures Check(s, now, sample).state.activeId ==
            if Advances(s, now, sample) then NextActive(s.activeId, s.size) else s.activeId
  {
    CheckIsAnnounceThenAdvance(s, now, sample);
    var r := Announced(s, now, sample);
    if Advances(s, now, sample) {
      var next := Advance(r.state);
      assert SentSetpoint(Mission(next.state.waypoints[next.state.activeId])) in next.out;
    }
  }

  function Noted(h: Notes, s: Wpm, e: Event): Notes
    requires Enabled(s, e)
  {
    HearAll(Sighted(h, s, e), Check(First(s, e).state, e.now, e.sample).out, e.now)
  }

  /** A setpoint is out for the active waypoint and its arrival is not yet announced. */
  predicate Armed(s: Wpm) {
    s.activeId < s.size && s.firstInsideOrbit == 0
  }

  /** How the manager's own fields relate to what was seen from outside. */
  predicate NotesMatch(s: Wpm, h: Notes) {
    Shape(s) && h.reached + (if Armed(s) then 1 else 0) <= h.setpoints &&
    h.announced <= 1 && h.announcedAt <= h.clock &&
    (s.activeId < s.size ==>
       h.announced == (if s.firstInsideOrbit == 0 then 0 else 1) &&
       (s.firstInsideOrbit != 0 ==> h.announcedAt == s.firstInsideOrbit) &&
       (s.posReached <==> h.orbitSeen) &&
       h.target == Mission(s.waypoints[s.activeId]) && h.current == s.waypoints[s.activeId].seq_)
  }

  // ----- each part of a step keeps the notes matching

  lemma QuietOutput(h: Notes, out: seq<Out>, now: uint64)
    requires Quiet(out)
    ensures HearAll(h, out, now) == h
  {
  }

  /** The activation is as it was, or there is none. */
  predicate SameActivation(s: Wpm, t: Wpm)
    requires Shape(s) && Shape(t)
  {
    t.activeId == NO_WAYPOINT ||
    (t.activeId == s.activeId && t.size == s.size &&
     (s.activeId < s.size ==> Mission(t.waypoints[s.activeId]) == Mission(s.waypoints[s.activeId])) &&
     t.firstInsideOrbit == s.firstInsideOrbit && t.posReached == s.posReached)
  }

  lemma SameActivationKeepsNotes(s: Wpm, t: Wpm, h: Notes)
    requires Shape(s) && Shape(t) && NotesMatch(s, h) && SameActivation(s, t)
    ensures NotesMatch(t, h)
  {
    if t.activeId < t.size {
      assert t.waypoints[t.activeId].seq_ == Mission(t.waypoints[t.activeId]).seq_;
    }
  }

  ghost predicate Quiet(out: seq<Out>) {
    |out| <= 1 && forall i :: 0 <= i < |out| ==>
      !out[i].SentSetpoint? && !out[i].SentReached? && !out[i].SentCurrent?
  }

  lemma QuietItem(s: Wpm, now: uint64, item: Item)
    requires Shape(s) && ItemInBounds(s, item) && !Commits(s, item)
    ensures SameActivation(s, OnItem(s, now, item).state) && Quiet(OnItem(s, now, item).out)
  {
  }

  lemma QuietRequest(s: Wpm, now: uint64, from: Peer, target: uint8, index: uint16)
    requires Shape(s)
    ensures SameActivation(s, OnRequest(s, now, from, target, index).state)
    ensures Quiet(OnRequest(s, now, from, target, index).out)
  {
  }

  lemma QuietFirst(s: Wpm, e: Event)
    requires Inv(s) && Enabled(s, e) && !CommitsAt(s, e)
    requires e.Received? ==> !e.msg.SetCurrent?
    ensures SameActivation(s, First(s, e).state) && Quiet(First(s, e).out)
  {
    if e.Received? && e.msg.MissionItem? {
      QuietItem(s, e.now, e.msg.item);
    } else if e.Received? && e.msg.Request? {
      QuietRequest(s, e.now, e.from, e.msg.targetSystem, e.msg.index);
    }
  }

  /** The new waypoint is broadcast and aimed at, and the arrival bookkeeping starts over. */
  ghost predicate FreshActivation(t: Wpm, out: seq<Out>)
    requires Shape(t)
  {
    t.activeId < t.size && t.firstInsideOrbit == 0 && !t.posReached &&
    out == SendCurrent(t, t.activeId) + SendSetpoint(t, t.activeId)
  }

  lemma SetCurrentActivates(s: Wpm, now: uint64, target: uint8, index: uint16)
    requires Inv(s)
    ensures var r := OnSetCurrent(s, now, target, index);
            FreshActivation(r.state, r.out) || (r.out == [] && SameActivation(s, r.state))
  {
  }

  /** A commit acknowledges the upload, then activates the flagged waypoint if there is one. */
  lemma CommitActivates(s: Wpm, now: uint64, item: Item)
    requires Inv(s) && Commits(s, item) && ItemInBounds(s, item)
    ensures var r := OnItem(s, now, item);
            Shape(r.state) && |r.out| > 0 && r.out[0] == SentAck(s.partner, 0) &&
            (FreshActivation(r.state, r.out[1..]) || (r.state.activeId == NO_WAYPOINT && r.out[1..] == []))
  {
    var r := OnItem(s, now, item);
    var i := r.state.activeId;
    assert r.out == [SentAck(s.partner, 0)] + (SendCurrent(r.state, i) + SendSetpoint(r.state, i));
    assert r.out[1..] == SendCurrent(r.state, i) + SendSetpoint(r.state, i);
  }

  lemma ActivationKeepsNotes(t: Wpm, h: Notes, out: seq<Out>, now: uint64)
    requires Shape(t) && FreshActivation(t, out)
    requires h.reached <= h.setpoints && h.announcedAt <= h.clock
    ensures NotesMatch(t, HearAll(h, out, now)) && HearAll(h, out, now).clock == h.clock
  {
    var a, b := SentCurrent(t.waypoints[t.activeId].seq_), SentSetpoint(Mission(t.waypoints[t.activeId]));
    assert out == [a] + [b];
    HearAllConcat(h, [a], [b], now);
    var h1 := Hear(h, a, now);
    assert HearAll(h, [a], now) == h1;
    assert HearAll(h1, [b], now) == Hear(h1, b, now);
  }

  lemma FirstKeepsNotes(s: Wpm, h: Notes, e: Event)
    requires Inv(s) && Enabled(s, e) && NotesMatch(s, h) && h.clock <= e.now
    ensures NotesMatch(First(s, e).state, HearAll(h.(clock := e.now), First(s, e).out, e.now))
    ensures HearAll(h.(clock := e.now), First(s, e).out, e.now).clock == e.now
  {
    var h', t, out := h.(clock := e.now), First(s, e).state, First(s, e).out;
    if e.Received? && e.msg.SetCurrent? {
      SetCurrentActivates(s, e.now, e.msg.targetSystem, e.msg.index);
      if FreshActivation(t, out) {
        ActivationKeepsNotes(t, h', out, e.now);
      } else {
        SameActivationKeepsNotes(s, t, h');
      }
    } else if CommitsAt(s, e) {
      CommitActivates(s, e.now, e.msg.item);
      assert HearAll(h', out, e.now) == HearAll(h', out[1..], e.now);
      if FreshActivation(t, out[1..]) {
        ActivationKeepsNotes(t, h', out[1..], e.now);
      } else {
        SameActivationKeepsNotes(s, t, h');
      }
    } else {
      QuietFirst(s, e);
      QuietOutput(h', out, e.now);
      SameActivationKeepsNotes(s, t, h');
    }
  }

  lemma AnnouncedKeepsNotes(s: Wpm, h: Notes, now: uint64, sample: Sample)
    requires Shape(s) && NotesMatch(Observe(s, sample), h) && 0 < now && h.clock == now
    ensures NotesMatch(Announced(s, now, sample).state, HearAll(h, Announced(s, now, sample).out, now))
    ensures HearAll(h, Announced(s, now, sample).out, now).clock == now
    ensures Arrived(Observe(s, sample)) ==>
              HearAll(h, Announced(s, now, sample).out, now).announced == 1 && h.orbitSeen &&
              HearAll(h, Announced(s, now, sample).out, now).orbitSeen
  {
    var out := Announced(s, now, sample).out;
    if out != [] {
      assert out[1..] == [];
    }
  }

  lemma AdvanceKeepsNotes(s: Wpm, h: Notes, now: uint64)
    requires Shape(s) && s.activeId < s.size && NotesMatch(s, h) && s.firstInsideOrbit != 0
    ensures NotesMatch(Advance(s).state, HearAll(h, Advance(s).out, now))
  {
    var r := Advance(s);
    ActivationKeepsNotes(r.state, h, r.out, now);
  }

  lemma CheckKeepsNotes(s: Wpm, h: Notes, now: uint64, sample: Sample)
    requires Shape(s) && NotesMatch(Observe(s, sample), h) && 0 < now && h.clock == now
    ensures NotesMatch(Check(s, now, sample).state, HearAll(h, Check(s, now, sample).out, now))
    ensures HearAll(h, Check(s, now, sample).out, now).clock == now
  {
    AnnouncedKeepsNotes(s, h, now, sample);
    CheckIsAnnounceThenAdvance(s, now, sample);
    var r := Announced(s, now, sample);
    if Advances(s, now, sample) {
      var h2 := HearAll(h, r.out, now);
      AdvanceKeepsNotes(r.state, h2, now);
      HearAllConcat(h, r.out, Advance(r.state).out, now);
      HearKeepsClock(h2, Advance(r.state).out, now);
    }
  }

  lemma {:induction false} HearKeepsClock(h: Notes, out: seq<Out>, now: uint64)
    ensures HearAll(h, out, now).clock == h.clock
    decreases out
  {
    if out != [] {
      HearKeepsClock(Hear(h, out[0], now), out[1..], now);
    }
  }

  lemma SightedMatches(s: Wpm, h: Notes, e: Event)
    requires Inv(s) && Enabled(s, e) && NotesMatch(s, h) && h.clock <= e.now
    ensures NotesMatch(Observe(First(s, e).state, e.sample), Sighted(h, s, e)) && Sighted(h, s, e).clock == e.now
  {
    hide First;
    FirstKeepsNotes(s, h, e);
  }

  lemma StepKeepsNotes(s: Wpm, h: Notes, e: Event)
    requires Inv(s) && Enabled(s, e) && NotesMatch(s, h) && h.clock <= e.now && 0 < e.now
    ensures NotesMatch(Step(s, e).state, Noted(h, s, e)) && Noted(h, s, e).clock == e.now
  {
    SightedMatches(s, h, e);
    CheckKeepsNotes(First(s, e).state, Sighted(h, s, e), e.now, e.sample);
  }

  // ----- over whole runs

  ghost function NotesAt(ss: seq<Wpm>, es: seq<Event>, k: nat): Notes
    requires IsRun(ss, es) && k <= |es|
  {
    if k == 0 then NO_NOTES
    else
      assert StepAt(ss, es, k - 1);
      Noted(NotesAt(ss, es, k - 1), ss[k - 1], es[k - 1])
  }

  lemma NotesAtNext(ss: seq<Wpm>, es: seq<Event>, k: nat)
    requires IsRun(ss, es) && k < |es| && NotesMatch(ss[k], NotesAt(ss, es, k))
    requires NotesAt(ss, es, k).clock <= es[k].now && 0 < es[k].now
    ensures NotesMatch(ss[k + 1], NotesAt(ss, es, k + 1)) && NotesAt(ss, es, k + 1).clock == es[k].now
  {
    RunKeepsInv(ss, es, k);
    assert StepAt(ss, es, k);
    StepKeepsNotes(ss[k], NotesAt(ss, es, k), es[k]);
  }

  lemma NotesAtStart(ss: seq<Wpm>, es: seq<Event>)
    requires IsRun(ss, es)
    ensures NotesMatch(ss[0], NotesAt(ss, es, 0)) && NotesAt(ss, es, 0).clock == 0
  {
  }

  lemma {:induction false} RunKeepsNotes(ss: seq<Wpm>, es: seq<Event>, k: nat)
    requires IsRun(ss, es) && ClockRuns(es) && k <= |es|
    ensures NotesMatch(ss[k], NotesAt(ss, es, k))
    ensures NotesAt(ss, es, k).clock == if k == 0 then 0 else es[k - 1].now
  {
    hide NotesAt, NotesMatch;
    if k == 0 {
      NotesAtStart(ss, es);
    } else {
      RunKeepsNotes(ss, es, k - 1);
      assert ClockAt(es, k - 1);
      NotesAtNext(ss, es, k - 1);
    }
  }

  /** Arrivals announced never outnumber setpoints sent, and no activation is announced twice. */
  lemma ReachedWithinSetpoints(ss: seq<Wpm>, es: seq<Event>, k: nat)
    requires IsRun(ss, es) && ClockRuns(es) && k <= |es|
    ensures NotesAt(ss, es, k).reached <= NotesAt(ss, es, k).setpoints
    ensures NotesAt(ss, es, k).announced <= 1
  {
    RunKeepsNotes(ss, es, k);
  }

  /** Having looked at the position, the step aims the vehicle at a waypoint of its own accord. */
  ghost predicate AdvancesAt(s: Wpm, e: Event) {
    Enabled(s, e) && exists item :: SentSetpoint(item) in Check(First(s, e).state, e.now, e.sample).out
  }

  /** Notes at the moment a step decides whether to advance. */
  function Deciding(h: Notes, s: Wpm, e: Event): Notes
    requires Enabled(s, e)
  {
    HearAll(Sighted(h, s, e), Announced(First(s, e).state, e.now, e.sample).out, e.now)
  }

  /** One announcement for this activation, a sample inside the orbit, and the dwell time over. */
  predicate Justifies(h: Notes, item: Item, now: uint64) {
    h.announced == 1 && h.orbitSeen && h.announcedAt <= now &&
    (now - h.announcedAt) as real >= item.param2 * 1000.0
  }

  lemma AnnouncedIsTimed(s: Wpm, h: Notes, now: uint64, sample: Sample)
    requires Shape(s) && NotesMatch(Observe(s, sample), h) && 0 < now && h.clock == now
    requires Advances(s, now, sample)
    ensures Justifies(HearAll(h, Announced(s, now, sample).out, now), s.waypoints[s.activeId], now)
  {
    AnnouncedKeepsNotes(s, h, now, sample);
  }

  /** Every automatic advance comes after exactly one announcement for the activation it ends, after a
      sample inside the orbit, and at least `param2 * 1000` ticks after the announcement. */
  lemma AdvanceIsJustified(ss: seq<Wpm>, es: seq<Event>, k: nat)
    requires IsRun(ss, es) && ClockRuns(es) && k < |es| && AdvancesAt(ss[k], es[k])
    ensures First(ss[k], es[k]).state.activeId < First(ss[k], es[k]).state.size
    ensures var before := First(ss[k], es[k]).state;
            Justifies(Deciding(NotesAt(ss, es, k), ss[k], es[k]), before.waypoints[before.activeId], es[k].now)
  {
    RunKeepsNotes(ss, es, k);
    RunKeepsInv(ss, es, k);
    assert ClockAt(es, k);
    SightedMatches(ss[k], NotesAt(ss, es, k), es[k]);
    AdvancesIff(First(ss[k], es[k]).state, es[k].now, es[k].sample);
    AnnouncedIsTimed(First(ss[k], es[k]).state, Sighted(NotesAt(ss, es, k), ss[k], es[k]), es[k].now, es[k].sample);
  }

  // ----- exactly when arrivals are announced and advances made

  /** Since its setpoint went out a sample inside the active waypoint's radius has come, and it may go on: the
      dwell time has passed since the arrival was announced, or is being announced now. */
  predicate DwellOver(n: Notes, item: Item, now: uint64) {
    n.orbitSeen && item.autocontinue != 0 &&
    (if n.announced == 0 then 0.0 else (now - n.announcedAt) as real) >= item.param2 * 1000.0
  }

  lemma CheckSendsIff(t: Wpm, n: Notes, now: uint64, sample: Sample)
    requires Shape(t) && !t.idle && NotesMatch(Observe(t, sample), n) && n.clock == now && 0 < now
    ensures (exists i :: SentReached(i) in Check(t, now, sample).out) <==>
            t.activeId < t.size && n.orbitSeen && n.announced == 0
    ensures forall i :: SentReached(i) in Check(t, now, sample).out ==>
              t.activeId < t.size && i == t.waypoints[t.activeId].seq_
    ensures Advances(t, now, sample) <==> t.activeId < t.size && DwellOver(n, t.waypoints[t.activeId], now)
  {
    CheckIsAnnounceThenAdvance(t, now, sample);
    var r := Announced(t, now, sample);
    if t.activeId < t.size && n.orbitSeen && n.announced == 0 {
      assert r.out == [SentReached(t.waypoints[t.activeId].seq_)];
      assert Check(t, now, sample).out[0] == r.out[0];
    }
  }

  /** One sample inside the radius is enough: the first step that sees it announces the arrival. */
  lemma ArrivalAnnounced(s: Wpm, e: Event)
    requires Inv(s) && Enabled(s, e) && First(s, e).state.activeId < First(s, e).state.size
    requires First(s, e).state.firstInsideOrbit == 0
    requires Inside(First(s, e).state.waypoints[First(s, e).state.activeId], e.sample)
    ensures SentReached(First(s, e).state.activeId) in Step(s, e).out
  {
    FirstKeepsInv(s, e);
    var t := First(s, e).state;
    var out := Check(t, e.now, e.sample).out;
    assert out[0] == SentReached(t.activeId);
    assert Step(s, e).out[|First(s, e).out|] == out[0];
  }

  /** Over every run: the waypoint flown to is the one last aimed at and broadcast, and it counts as reached
      exactly if a sample inside its radius has come since. */
  lemma ActiveAsObserved(ss: seq<Wpm>, es: seq<Event>, k: nat)
    requires IsRun(ss, es) && ClockRuns(es) && k <= |es|
    ensures Shape(ss[k])
    ensures ss[k].activeId < ss[k].size ==>
              NotesAt(ss, es, k).target == Mission(ss[k].waypoints[ss[k].activeId]) &&
              NotesAt(ss, es, k).current == ss[k].activeId &&
              (ss[k].posReached <==> NotesAt(ss, es, k).orbitSeen)
  {
    RunKeepsNotes(ss, es, k);
    RunKeepsInv(ss, es, k);
  }

  /** Having looked at the position, the step announces an arrival. */
  ghost predicate AnnouncesAt(s: Wpm, e: Event) {
    Enabled(s, e) && exists i :: SentReached(i) in Check(First(s, e).state, e.now, e.sample).out
  }

  /** Over every run: a step announces the arrival at the active waypoint exactly if a sample inside its radius
      has come since its setpoint and it was not announced before, and sends a setpoint of its own accord
      exactly if moreover it may go on and the dwell time has passed since the announcement. */
  lemma AdvancesAtIff(ss: seq<Wpm>, es: seq<Event>, k: nat)
    requires IsRun(ss, es) && ClockRuns(es) && k < |es|
    ensures StepAt(ss, es, k)
    ensures var t, n := First(ss[k], es[k]).state, Sighted(NotesAt(ss, es, k), ss[k], es[k]);
            (AnnouncesAt(ss[k], es[k]) <==> t.activeId < t.size && n.orbitSeen && n.announced == 0) &&
            (AdvancesAt(ss[k], es[k]) <==>
               t.activeId < t.size && DwellOver(n, t.waypoints[t.activeId], es[k].now))
  {
    hide NotesMatch, DwellOver, NotesAt, Sighted, First, Step;
    var s, e := ss[k], es[k];
    assert StepAt(ss, es, k);
    RunKeepsNotes(ss, es, k);
    RunKeepsInv(ss, es, k);
    assert ClockAt(es, k);
    SightedMatches(s, NotesAt(ss, es, k), e);
    FirstKeepsInv(s, e);
    CheckSendsIff(First(s, e).state, Sighted(NotesAt(ss, es, k), s, e), e.now, e.sample);
    AdvancesIff(First(s, e).state, e.now, e.sample);
  }

  // ----- the cycle

  /** No message at this event picks a waypoint or changes the list. */
  predicate LeavesCourse(s: Wpm, e: Event) {
    !SelectsAt(s, e) && !CommitsAt(s, e) && !ClearsAt(s, e) && !DeactivatesAt(s, e)
  }

  lemma FirstLeavesCourse(s: Wpm, e: Event)
    requires Inv(s) && Enabled(s, e) && LeavesCourse(s, e) && s.activeId < s.size
    ensures First(s, e).state.activeId == s.activeId && First(s, e).state.size == s.size
  {
    if e.Received? && e.msg.Request? {
      QuietRequest(s, e.now, e.from, e.msg.targetSystem, e.msg.index);
      RequestKeepsMission(s, e.now, e.from, e.msg.targetSystem, e.msg.index);
    } else if !(e.Received? && e.msg.SetCurrent?) {
      OthersKeepActive(s, e);
      OthersKeepList(s, e);
    }
  }

  /** How many of the steps `a` to `b` advance. */
  ghost function AdvancesIn(ss: seq<Wpm>, es: seq<Event>, a: nat, b: nat): nat
    requires IsRun(ss, es) && b <= |es|
  {
    if b <= a then 0 else AdvancesIn(ss, es, a, b - 1) + (if AdvancesAt(ss[b - 1], es[b - 1]) then 1 else 0)
  }

  lemma StepFollowsCourse(s: Wpm, e: Event)
    requires Inv(s) && Enabled(s, e) && LeavesCourse(s, e) && s.activeId < s.size
    ensures Step(s, e).state.size == s.size
    ensures Step(s, e).state.activeId == if AdvancesAt(s, e) then NextActive(s.activeId, s.size) else s.activeId
  {
    FirstLeavesCourse(s, e);
    AdvancesIff(First(s, e).state, e.now, e.sample);
  }

  ghost predicate OnCourse(ss: seq<Wpm>, es: seq<Event>, a: nat, b: nat)
    requires |ss| == |es| + 1 && b <= |es|
  {
    forall j :: a <= j < b ==> LeavesCourse(ss[j], es[j])
  }

  lemma StepCountsAdvance(s: Wpm, e: Event, active: nat, size: nat, k: nat)
    requires Inv(s) && Enabled(s, e) && LeavesCourse(s, e)
    requires s.activeId == AdvanceTimes(active, size, k) < s.size == size
    ensures var t := Step(s, e).state;
            t.size == size && t.activeId == AdvanceTimes(active, size, k + if AdvancesAt(s, e) then 1 else 0) < size
  {
    StepFollowsCourse(s, e);
  }

  lemma RunCountsAdvance(ss: seq<Wpm>, es: seq<Event>, j: nat, active: nat, size: nat, k: nat)
    requires IsRun(ss, es) && j < |es| && LeavesCourse(ss[j], es[j])
    requires ss[j].activeId == AdvanceTimes(active, size, k) < size == ss[j].size
    ensures ss[j + 1].size == size
    ensures ss[j + 1].activeId == AdvanceTimes(active, size, k + if AdvancesAt(ss[j], es[j]) then 1 else 0) < size
  {
    RunKeepsInv(ss, es, j);
    assert StepAt(ss, es, j);
    StepCountsAdvance(ss[j], es[j], active, size, k);
  }

  lemma {:induction false} RunAdvances(ss: seq<Wpm>, es: seq<Event>, a: nat, b: nat, active: nat, size: nat)
    requires IsRun(ss, es) && a <= b <= |es| && OnCourse(ss, es, a, b)
    requires ss[a].activeId == active < size == ss[a].size
    ensures ss[b].size == size
    ensures ss[b].activeId == AdvanceTimes(active, size, AdvancesIn(ss, es, a, b)) < size
    decreases b
  {
    if a < b {
      RunAdvances(ss, es, a, b - 1, active, size);
      RunCountsAdvance(ss, es, b - 1, active, size, AdvancesIn(ss, es, a, b - 1));
    }
  }

  /** Over any stretch of a run without SET_CURRENT or a change of list, the waypoint flown to depends only
      on the number of advances: it goes round 1 .. size - 1. */
  lemma RunFollowsCycle(ss: seq<Wpm>, es: seq<Event>, a: nat, b: nat, active: nat, size: nat)
    requires IsRun(ss, es) && a <= b <= |es| && OnCourse(ss, es, a, b)
    requires 1 <= ss[a].activeId == active < size == ss[a].size
    ensures ss[b].size == size
    ensures ss[b].activeId == 1 + (active - 1 + AdvancesIn(ss, es, a, b)) % (size - 1)
  {
    RunAdvances(ss, es, a, b, active, size);
    AdvancesCycle(active, size, AdvancesIn(ss, es, a, b));
  }

  // ----- `current` flags

  /** Exactly the active waypoint is flagged. */
  ghost predicate OneCurrent(s: Wpm)
    requires Shape(s)
  {
    forall i :: 0 <= i < s.size ==> (s.waypoints[i].current == 0 <==> i != s.activeId)
  }

  predicate SelectsAt(s: Wpm, e: Event) {
    e.Received? && e.msg.SetCurrent? && e.msg.targetSystem == s.systemId && s.phase == Idle && e.msg.index < s.size
  }

  predicate DeactivatesAt(s: Wpm, e: Event) {
    e.Received? && e.msg.Count? && e.msg.count == 0 && AcceptsCount(s, e.msg.targetSystem)
  }

  lemma AdvanceKeepsOneCurrent(s: Wpm)
    requires Shape(s) && s.activeId < s.size && OneCurrent(s)
    ensures OneCurrent(Advance(s).state)
  {
  }

  lemma CheckKeepsOneCurrent(s: Wpm, now: uint64, sample: Sample)
    requires Shape(s) && OneCurrent(s)
    ensures OneCurrent(Check(s, now, sample).state)
  {
    CheckOnlyFlies(s, now, sample);
    CheckIsAnnounceThenAdvance(s, now, sample);
    var r := Announced(s, now, sample);
    assert OneCurrent(r.state);
    if Advances(s, now, sample) {
      AdvanceKeepsOneCurrent(r.state);
    }
  }

  lemma SetCurrentFlagsOne(s: Wpm, now: uint64, target: uint8, index: uint16)
    requires Shape(s)
    requires OneCurrent(s) || (target == s.systemId && s.phase == Idle && index < s.size)
    ensures OneCurrent(OnSetCurrent(s, now, target, index).state)
  {
  }

  lemma RequestKeepsOneCurrent(s: Wpm, now: uint64, from: Peer, target: uint8, index: uint16)
    requires Shape(s) && OneCurrent(s)
    ensures OneCurrent(OnRequest(s, now, from, target, index).state)
  {
  }

  lemma OthersKeepActive(s: Wpm, e: Event)
    requires Inv(s) && Enabled(s, e) && !CommitsAt(s, e) && !DeactivatesAt(s, e)
    requires e.Received? ==> !e.msg.SetCurrent? && !e.msg.Request?
    ensures First(s, e).state.size == 0 || First(s, e).state.activeId == s.activeId
  {
  }

  lemma FirstKeepsOneCurrent(s: Wpm, e: Event)
    requires Inv(s) && Enabled(s, e)
    requires SelectsAt(s, e) || (OneCurrent(s) && !CommitsAt(s, e) && !DeactivatesAt(s, e))
    ensures OneCurrent(First(s, e).state)
  {
    if e.Received? && e.msg.SetCurrent? {
      SetCurrentFlagsOne(s, e.now, e.msg.targetSystem, e.msg.index);
    } else if e.Received? && e.msg.Request? {
      RequestKeepsOneCurrent(s, e.now, e.from, e.msg.targetSystem, e.msg.index);
    } else {
      OthersKeepActive(s, e);
      if !ClearsAt(s, e) {
        OthersKeepList(s, e);
      } else {
        SwitchSetsSize(s, e);
      }
    }
  }

  /** SET_CURRENT leaves exactly the chosen waypoint flagged; automatic advances and everything else
      but a new list or an announced empty one keep that. */
  lemma StepKeepsOneCurrent(s: Wpm, e: Event)
    requires Inv(s) && Enabled(s, e)
    requires SelectsAt(s, e) || (OneCurrent(s) && !CommitsAt(s, e) && !DeactivatesAt(s, e))
    ensures OneCurrent(Step(s, e).state)
  {
    FirstKeepsOneCurrent(s, e);
    CheckKeepsOneCurrent(First(s, e).state, e.now, e.sample);
  }

  /** Over a whole run: once one waypoint is flagged, that stays so until a new list comes in or an empty
      one is announced. */
  lemma {:induction false} RunKeepsOneCurrent(ss: seq<Wpm>, es: seq<Event>, a: nat, b: nat)
    requires IsRun(ss, es) && a <= b <= |es| && Shape(ss[a]) && OneCurrent(ss[a])
    requires forall j :: a <= j < b ==>
               SelectsAt(ss[j], es[j]) || (!CommitsAt(ss[j], es[j]) && !DeactivatesAt(ss[j], es[j]))
    ensures Shape(ss[b]) && OneCurrent(ss[b])
    decreases b - a
  {
    if a < b {
      RunKeepsOneCurrent(ss, es, a, b - 1);
      RunKeepsInv(ss, es, b - 1);
      assert StepAt(ss, es, b - 1);
      StepKeepsOneCurrent(ss[b - 1], es[b - 1]);
    }
  }
}
