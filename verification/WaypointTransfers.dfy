/** Uploads install exactly the list that was sent, downloads hand out exactly the list that is
    stored, and the two compose, over every run and whatever else happens in between. */
module WaypointTransfers {
  import opened WaypointModel
  import opened WaypointRuns

  // ----- upload

  predicate StartsUpload(s: Wpm, e: Event) {
    e.Received? && e.msg.Count? && e.msg.count > 0 && AcceptsCount(s, e.msg.targetSystem)
  }

  /** If this event's item is taken, it is the one list `items` has at its index. */
  predicate CarriesItemOf(s: Wpm, e: Event, items: seq<Item>) {
    e.Received? && e.msg.MissionItem? && TakesItem(s, e.msg.item) ==>
      e.msg.item.seq_ < |items| && e.msg.item == items[e.msg.item.seq_]
  }

  /** An upload that is under way is an upload of `items`, correct as far as it got. */
  ghost predicate Uploading(s: Wpm, items: seq<Item>)
    requires Shape(s)
  {
    (s.phase == GetList || s.phase == GetListGetWps ==> s.count == |items|) &&
    (s.phase == GetListGetWps ==>
       s.wpId <= |items| && s.wpId <= MAX_WP_COUNT && forall i :: 0 <= i < s.wpId ==> s.rcvWaypoints[i] == items[i])
  }

  ghost predicate Installed(s: Wpm, items: seq<Item>)
    requires Shape(s)
  {
    s.size == |items| && forall i :: 0 <= i < s.size ==> Unflagged(s.waypoints[i]) == Unflagged(items[i])
  }

  lemma ItemKeepsUploading(s: Wpm, now: uint64, item: Item, items: seq<Item>)
    requires Inv(s) && ItemInBounds(s, item) && Uploading(s, items)
    requires TakesItem(s, item) ==> item.seq_ < |items| && item == items[item.seq_]
    ensures Shape(OnItem(s, now, item).state) && Uploading(OnItem(s, now, item).state, items)
    ensures Commits(s, item) ==> Installed(OnItem(s, now, item).state, items)
  {
  }

  lemma OthersKeepUploading(s: Wpm, e: Event, items: seq<Item>)
    requires Inv(s) && Enabled(s, e) && Uploading(s, items) && !StartsUpload(s, e)
    requires e.Received? ==> !e.msg.MissionItem?
    ensures Shape(First(s, e).state) && Uploading(First(s, e).state, items)
  {
  }

  lemma FlyingKeepsTransfers(s: Wpm, t: Wpm, items: seq<Item>)
    requires Shape(s) && OnlyFlies(s, t)
    ensures Uploading(s, items) ==> Uploading(t, items)
    ensures Installed(s, items) ==> Installed(t, items)
  {
    if Installed(s, items) {
      forall i | 0 <= i < t.size ensures Unflagged(t.waypoints[i]) == Unflagged(items[i]) {
        assert Unflagged(t.waypoints[i]) == Unflagged(s.waypoints[i]);
      }
    }
  }

  lemma StepKeepsUploading(s: Wpm, e: Event, items: seq<Item>)
    requires Inv(s) && Enabled(s, e) && Uploading(s, items)
    requires !StartsUpload(s, e) && CarriesItemOf(s, e, items)
    ensures Shape(Step(s, e).state) && Uploading(Step(s, e).state, items)
    ensures CommitsAt(s, e) ==> Installed(Step(s, e).state, items)
  {
    if e.Received? && e.msg.MissionItem? {
      ItemKeepsUploading(s, e.now, e.msg.item, items);
    } else {
      OthersKeepUploading(s, e, items);
    }
    StepFliesAfterFirst(s, e);
    FlyingKeepsTransfers(First(s, e).state, Step(s, e).state, items);
  }

  lemma CountStartsUploading(s: Wpm, e: Event, items: seq<Item>)
    requires Inv(s) && Enabled(s, e) && StartsUpload(s, e) && e.msg.count == |items|
    ensures Shape(Step(s, e).state) && Uploading(Step(s, e).state, items)
    ensures Step(s, e).state.phase == GetList && Step(s, e).state.wpId == 0
  {
    StepFliesAfterFirst(s, e);
    FlyingKeepsTransfers(First(s, e).state, Step(s, e).state, items);
  }

  /** Since the accepted announcement at `start`, no other one was accepted and every item taken up to
      and including step `end` came from `items`. Loss, repetition and reordering are all allowed. */
  ghost predicate UploadOf(ss: seq<Wpm>, es: seq<Event>, start: nat, end: nat, items: seq<Item>)
    requires |ss| == |es| + 1
  {
    start < end < |es| && StartsUpload(ss[start], es[start]) && es[start].msg.count == |items| &&
    forall j :: start < j <= end ==> !StartsUpload(ss[j], es[j]) && CarriesItemOf(ss[j], es[j], items)
  }

  lemma {:induction false} RunKeepsUploading(ss: seq<Wpm>, es: seq<Event>, start: nat, end: nat,
                                             items: seq<Item>, k: nat)
    requires IsRun(ss, es) && UploadOf(ss, es, start, end, items) && start < k <= end
    ensures Shape(ss[k]) && Uploading(ss[k], items)
  {
    RunKeepsInv(ss, es, k - 1);
    assert StepAt(ss, es, k - 1);
    if k - 1 == start {
      CountStartsUploading(ss[start], es[start], items);
    } else {
      RunKeepsUploading(ss, es, start, end, items, k - 1);
      StepKeepsUploading(ss[k - 1], es[k - 1], items);
    }
  }

  lemma CommitInstalls(ss: seq<Wpm>, es: seq<Event>, start: nat, end: nat, items: seq<Item>)
    requires IsRun(ss, es) && UploadOf(ss, es, start, end, items)
    requires CommitsAt(ss[end], es[end])
    ensures Shape(ss[end + 1]) && Installed(ss[end + 1], items)
  {
    RunKeepsInv(ss, es, end);
    RunKeepsUploading(ss, es, start, end, items, end);
    assert StepAt(ss, es, end);
    StepKeepsUploading(ss[end], es[end], items);
  }

  lemma CommitAcknowledges(s: Wpm, e: Event)
    requires Inv(s) && Enabled(s, e) && CommitsAt(s, e)
    ensures SentAck(s.partner, 0) in Step(s, e).out
  {
    assert First(s, e).out[0] == SentAck(s.partner, 0);
    assert Step(s, e).out[0] == SentAck(s.partner, 0);
  }

  /** When the final item commits an upload, the live list is the list that was sent. */
  lemma UploadInstallsList(ss: seq<Wpm>, es: seq<Event>, start: nat, end: nat, items: seq<Item>)
    requires IsRun(ss, es) && UploadOf(ss, es, start, end, items)
    requires CommitsAt(ss[end], es[end])
    ensures Shape(ss[end + 1]) && Installed(ss[end + 1], items)
    ensures StepAt(ss, es, end)
    ensures SentAck(ss[end].partner, 0) in Step(ss[end], es[end]).out
  {
    CommitInstalls(ss, es, start, end, items);
    RunKeepsInv(ss, es, end);
    assert StepAt(ss, es, end);
    CommitAcknowledges(ss[end], es[end]);
  }

  /** An item is answered by an ACK exactly when it commits the upload or finds the manager idle. */
  lemma ItemAckedIff(s: Wpm, now: uint64, item: Item)
    requires Inv(s) && ForUs(s, item) && ItemInBounds(s, item)
    ensures SentAck(s.partner, 0) in OnItem(s, now, item).out <==> Commits(s, item) || s.phase == Idle
    ensures !Commits(s, item) ==> OnItem(s, now, item).state.waypoints == s.waypoints
  {
  }

  /** So an ACK alone does not confirm an upload: an idle manager acknowledges any item and stores none. */
  lemma IdleAckInstallsNothing(id: uint8, item: Item, now: uint64)
    requires ForUs(Init(id), item)
    ensures SentAck(Peer(0, 0), 0) in OnItem(Init(id), now, item).out
    ensures OnItem(Init(id), now, item).state == Init(id).(lastAction := now)
  {
    assert OnItem(Init(id), now, item).out[0] == SentAck(Peer(0, 0), 0);
  }

  /** An announcement, and any item for us that leaves the upload unfinished, is answered by asking for
      exactly the item the upload now waits for. */
  lemma UploadAsksForNext(s: Wpm, e: Event)
    requires Inv(s) && Enabled(s, e)
    requires StartsUpload(s, e) ||
             (e.Received? && e.msg.MissionItem? && ForUs(s, e.msg.item) && First(s, e).state.phase == GetListGetWps)
    ensures var t := First(s, e).state;
            t.wpId < MAX_WP_COUNT ==> First(s, e).out == [SentRequest(t.partner, t.wpId)]
    ensures StartsUpload(s, e) ==> First(s, e).state.partner == e.from && First(s, e).state.wpId == 0
  {
  }

  /** The exchange without losses: the announcement, then each item in order, with nothing in between. */
  ghost predicate InOrderUpload(s: Wpm, es: seq<Event>, start: nat, items: seq<Item>) {
    0 < |items| <= MAX_WP_COUNT && start + |items| < |es| &&
    StartsUpload(s, es[start]) && es[start].msg.count == |items| &&
    forall i {:trigger Delivers(s, es, start, items, i)} :: 0 <= i < |items| ==> Delivers(s, es, start, items, i)
  }

  /** Event `start + 1 + i` delivers item `i`, addressed to the manager. */
  predicate Delivers(s: Wpm, es: seq<Event>, start: nat, items: seq<Item>, i: nat)
    requires i < |items| && start + |items| < |es|
  {
    var e := es[start + 1 + i];
    ForUs(s, items[i]) && items[i].seq_ == i && e.Received? && e.msg == MissionItem(items[i])
  }

  /** The manager waits for item `k` of an upload of `n`. */
  predicate Awaits(s: Wpm, n: nat, k: nat) {
    s.count == n && s.wpId == k && s.phase == if k == 0 then GetList else GetListGetWps
  }

  lemma AnnouncedAwaitsFirst(s: Wpm, e: Event, n: nat)
    requires Inv(s) && Enabled(s, e) && StartsUpload(s, e) && e.msg.count == n
    ensures Awaits(Step(s, e).state, n, 0) && Step(s, e).state.systemId == s.systemId
    ensures Step(s, e).state.partner == e.from
  {
    StepFliesAfterFirst(s, e);
  }

  lemma DeliveredAwaitsNext(s: Wpm, e: Event, item: Item, n: nat)
    requires Inv(s) && Enabled(s, e) && e.Received? && e.msg == MissionItem(item)
    requires ForUs(s, item) && Awaits(s, n, item.seq_) && item.seq_ < n
    ensures Step(s, e).state.systemId == s.systemId && Step(s, e).state.partner == s.partner
    ensures if item.seq_ + 1 < n then Awaits(Step(s, e).state, n, item.seq_ + 1)
            else CommitsAt(s, e) && Step(s, e).state.phase == Idle
  {
    StepFliesAfterFirst(s, e);
  }

  lemma {:induction false} InOrderAwaits(ss: seq<Wpm>, es: seq<Event>, start: nat, items: seq<Item>, k: nat)
    requires IsRun(ss, es) && start < |es| && k < |items| && InOrderUpload(ss[start], es, start, items)
    ensures Awaits(ss[start + 1 + k], |items|, k) && ss[start + 1 + k].systemId == ss[start].systemId
  {
    hide Step, Inv;
    var j := start + k;
    RunKeepsInv(ss, es, j);
    assert StepAt(ss, es, j);
    if k == 0 {
      AnnouncedAwaitsFirst(ss[start], es[start], |items|);
    } else {
      InOrderAwaits(ss, es, start, items, k - 1);
      assert Delivers(ss[start], es, start, items, k - 1);
      DeliveredAwaitsNext(ss[j], es[j], items[k - 1], |items|);
    }
  }

  lemma InOrderIsUploadOf(ss: seq<Wpm>, es: seq<Event>, start: nat, items: seq<Item>)
    requires IsRun(ss, es) && start < |es| && InOrderUpload(ss[start], es, start, items)
    ensures UploadOf(ss, es, start, start + |items|, items)
  {
    forall j | start < j <= start + |items|
      ensures !StartsUpload(ss[j], es[j]) && CarriesItemOf(ss[j], es[j], items)
    {
      var i := j - start - 1;
      assert Delivers(ss[start], es, start, items, i);
    }
  }

  lemma LastItemCommits(ss: seq<Wpm>, es: seq<Event>, start: nat, items: seq<Item>, end: nat)
    requires IsRun(ss, es) && start < |es| && InOrderUpload(ss[start], es, start, items) && end == start + |items|
    ensures CommitsAt(ss[end], es[end]) && ss[end + 1].phase == Idle
  {
    hide Step, Inv;
    var n := |items| - 1;
    InOrderAwaits(ss, es, start, items, n);
    assert Delivers(ss[start], es, start, items, n);
    RunKeepsInv(ss, es, end);
    assert StepAt(ss, es, end);
    DeliveredAwaitsNext(ss[end], es[end], items[n], |items|);
  }

  /** An upload without losses is taken item by item, and its last item installs the whole list. */
  lemma InOrderUploadInstalls(ss: seq<Wpm>, es: seq<Event>, start: nat, items: seq<Item>)
    requires IsRun(ss, es) && start < |es| && InOrderUpload(ss[start], es, start, items)
    ensures Shape(ss[start + |items| + 1]) && Installed(ss[start + |items| + 1], items)
    ensures ss[start + |items| + 1].phase == Idle
  {
    var end := start + |items|;
    InOrderIsUploadOf(ss, es, start, items);
    LastItemCommits(ss, es, start, items, end);
    CommitInstalls(ss, es, start, end, items);
  }

  // ----- download

  /** The items among the messages sent. */
  function ItemsIn(out: seq<Out>): seq<Item> {
    if out == [] then []
    else (if out[0].SentItem? then [out[0].item] else []) + ItemsIn(out[1..])
  }

  lemma {:induction false} ItemsInConcat(a: seq<Out>, b: seq<Out>)
    ensures ItemsIn(a + b) == ItemsIn(a) + ItemsIn(b)
  {
    if a == [] {
      assert a + b == b;
    } else {
      var head := if a[0].SentItem? then [a[0].item] else [];
      assert (a + b)[0] == a[0] && (a + b)[1..] == a[1..] + b;
      ItemsInConcat(a[1..], b);
      assert head + (ItemsIn(a[1..]) + ItemsIn(b)) == head + ItemsIn(a[1..]) + ItemsIn(b);
    }
  }

  /** All items sent during steps `a` to `b`. */
  ghost function ItemsSent(ss: seq<Wpm>, es: seq<Event>, a: nat, b: nat): seq<Item>
    requires IsRun(ss, es) && b <= |es|
  {
    if b <= a then []
    else
      assert StepAt(ss, es, b - 1);
      ItemsSent(ss, es, a, b - 1) + ItemsIn(Step(ss[b - 1], es[b - 1]).out)
  }

  /** A ground station that appends an item when it is the next one it lacks and drops repetitions. */
  function Rebuild(items: seq<Item>): seq<Item> {
    if items == [] then []
    else
      var got := Rebuild(items[..|items| - 1]);
      var last := items[|items| - 1];
      if last.seq_ == |got| then got + [Mission(last)] else got
  }

  /** Mission data of the first `n` live items. */
  function MissionPrefix(s: Wpm, n: nat): seq<Item>
    requires Shape(s) && n <= MAX_WP_COUNT
  {
    seq(n, i requires 0 <= i < n => Mission(s.waypoints[i]))
  }

  /** Item `i` repeats the index before it or goes one up. */
  ghost predicate StepsUp(items: seq<Item>, i: nat)
    requires 0 < i < |items|
  {
    items[i].seq_ == items[i - 1].seq_ || items[i].seq_ == items[i - 1].seq_ + 1
  }

  /** Each index equals the one before it or is one higher, and all go to `partner`. */
  ghost predicate WalksUp(items: seq<Item>, partner: Peer) {
    (forall i :: 0 <= i < |items| ==> Peer(items[i].targetSystem, items[i].targetComponent) == partner) &&
    (forall i {:trigger StepsUp(items, i)} :: 0 < i < |items| ==> StepsUp(items, i))
  }

  lemma WalksUpAppend(items: seq<Item>, last: Item, partner: Peer)
    requires WalksUp(items, partner) && Peer(last.targetSystem, last.targetComponent) == partner
    requires items != [] ==> last.seq_ == items[|items| - 1].seq_ || last.seq_ == items[|items| - 1].seq_ + 1
    ensures WalksUp(items + [last], partner)
  {
    forall i | 0 < i < |items| + 1 ensures StepsUp(items + [last], i) {
      if i < |items| {
        assert StepsUp(items, i);
      }
    }
  }

  lemma FlyingSendsNoItems(s: Wpm, now: uint64, sample: Sample)
    requires Shape(s)
    ensures ItemsIn(Check(s, now, sample).out) == []
  {
    var out := Check(s, now, sample).out;
    NoItemsIn(out);
  }

  lemma {:induction false} NoItemsIn(out: seq<Out>)
    requires forall i :: 0 <= i < |out| ==> !out[i].SentItem?
    ensures ItemsIn(out) == []
  {
    if out != [] {
      NoItemsIn(out[1..]);
    }
  }

  /** What a step that is, or ends, in SENDLIST_SENDWPS sends: nothing, or the one item now current. */
  ghost predicate SendsAtMostCurrent(s: Wpm, t: Wpm, sent: seq<Item>)
    requires Shape(s)
  {
    t.partner == s.partner && t.wpId < MAX_WP_COUNT &&
    if sent == [] then s.phase == SendListSendWps && t.wpId == s.wpId
    else
      sent == [s.waypoints[t.wpId].(targetSystem := s.partner.system, targetComponent := s.partner.component)] &&
      if s.phase == SendList then t.wpId == 0 else t.wpId == s.wpId || t.wpId == s.wpId + 1
  }

  lemma RequestServesDownload(s: Wpm, now: uint64, from: Peer, target: uint8, index: uint16)
    requires Inv(s) && (s.phase == SendList || s.phase == SendListSendWps)
    requires OnRequest(s, now, from, target, index).state.phase == SendListSendWps
    ensures var r := OnRequest(s, now, from, target, index); SendsAtMostCurrent(s, r.state, ItemsIn(r.out))
  {
    NoItemsIn([]);
    var out := OnRequest(s, now, from, target, index).out;
    assert out != [] ==> out[1..] == [];
  }

  lemma FirstServesDownload(s: Wpm, e: Event)
    requires Inv(s) && Enabled(s, e)
    requires s.phase == SendList || s.phase == SendListSendWps
    requires First(s, e).state.phase == SendListSendWps
    ensures SendsAtMostCurrent(s, First(s, e).state, ItemsIn(First(s, e).out))
  {
    NoItemsIn([]);
    if e.Received? && e.msg.Request? {
      RequestServesDownload(s, e.now, e.from, e.msg.targetSystem, e.msg.index);
    } else {
      assert First(s, e).out == [] && First(s, e).state.wpId == s.wpId;
    }
  }

  lemma StepServesDownload(s: Wpm, e: Event)
    requires Inv(s) && Enabled(s, e)
    requires s.phase == SendList || s.phase == SendListSendWps
    requires Step(s, e).state.phase == SendListSendWps
    ensures SendsAtMostCurrent(s, Step(s, e).state, ItemsIn(Step(s, e).out))
    ensures Shape(Step(s, e).state) && SameMission(s, Step(s, e).state)
  {
    StepFliesAfterFirst(s, e);
    FirstServesDownload(s, e);
    FlyingSendsNoItems(First(s, e).state, e.now, e.sample);
    ItemsInConcat(First(s, e).out, Check(First(s, e).state, e.now, e.sample).out);
    OnlyCommitOrClearChangesMission(s, e);
  }

  /** Steps `a` to `b` are one download: SENDLIST at `a`, then SENDLIST_SENDWPS through `b`. */
  ghost predicate Download(ss: seq<Wpm>, es: seq<Event>, a: nat, b: nat) {
    |ss| == |es| + 1 && a < b <= |es| && ss[a].phase == SendList &&
    forall j :: a < j <= b ==> ss[j].phase == SendListSendWps
  }

  lemma RebuildAppend(items: seq<Item>, last: Item)
    ensures Rebuild(items + [last]) ==
            if last.seq_ == |Rebuild(items)| then Rebuild(items) + [Mission(last)] else Rebuild(items)
  {
    assert (items + [last])[..|items|] == items;
  }

  /** Part way through a download: what was sent walks up from 0 and rebuilds to the items so far. */
  ghost predicate DownloadedSoFar(s: Wpm, t: Wpm, items: seq<Item>) {
    Inv(s) && Inv(t) && SameMission(s, t) && t.wpId < MAX_WP_COUNT &&
    items != [] && items[0].seq_ == 0 && items[|items| - 1].seq_ == t.wpId &&
    WalksUp(items, t.partner) && Rebuild(items) == MissionPrefix(s, t.wpId + 1)
  }

  lemma ShapeOf(s: Wpm)
    requires Inv(s)
    ensures Shape(s)
  {
  }

  lemma SentIsCurrent(t: Wpm, u: Wpm, last: Item)
    requires Inv(t) && Inv(u) && SameMission(t, u) && u.phase == SendListSendWps
    requires Mission(last) == Mission(t.waypoints[u.wpId])
    ensures last.seq_ == u.wpId
  {
    assert last.seq_ == Mission(last).seq_ == t.waypoints[u.wpId].seq_;
  }

  lemma ExtendDownload(s: Wpm, t: Wpm, u: Wpm, items: seq<Item>, sent: seq<Item>)
    requires DownloadedSoFar(s, t, items) && t.phase == SendListSendWps
    requires Inv(u) && u.phase == SendListSendWps && SameMission(t, u) && SendsAtMostCurrent(t, u, sent)
    ensures DownloadedSoFar(s, u, items + sent)
  {
    hide Inv, Rebuild, WalksUp;
    ShapeOf(s);
    ShapeOf(t);
    ShapeOf(u);
    SameMissionTransitive(s, t, u);
    if sent == [] {
      assert items + sent == items;
    } else {
      var last := sent[0];
      assert sent == [last];
      SentIsCurrent(t, u, last);
      RebuildAppend(items, last);
      WalksUpAppend(items, last, t.partner);
      assert Mission(t.waypoints[u.wpId]) == Mission(s.waypoints[u.wpId]);
      assert |Rebuild(items)| == t.wpId + 1;
    }
  }

  lemma BeginDownload(s: Wpm, t: Wpm, sent: seq<Item>)
    requires Inv(s) && s.phase == SendList && Inv(t)
    requires SameMission(s, t) && SendsAtMostCurrent(s, t, sent)
    ensures DownloadedSoFar(s, t, sent)
  {
    var last := sent[0];
    assert sent == [] + [last];
    RebuildAppend([], last);
    assert Mission(last) == Mission(s.waypoints[0]);
  }

  lemma DownloadFirstStep(s: Wpm, e: Event)
    requires Inv(s) && Enabled(s, e) && s.phase == SendList && Step(s, e).state.phase == SendListSendWps
    ensures DownloadedSoFar(s, Step(s, e).state, ItemsIn(Step(s, e).out))
    ensures Step(s, e).state.partner == s.partner
  {
    StepKeepsInv(s, e);
    StepServesDownload(s, e);
    BeginDownload(s, Step(s, e).state, ItemsIn(Step(s, e).out));
  }

  lemma DownloadNextStep(s0: Wpm, s: Wpm, e: Event, items: seq<Item>)
    requires DownloadedSoFar(s0, s, items) && s.phase == SendListSendWps
    requires Enabled(s, e) && Step(s, e).state.phase == SendListSendWps
    ensures DownloadedSoFar(s0, Step(s, e).state, items + ItemsIn(Step(s, e).out))
    ensures Step(s, e).state.partner == s.partner
  {
    StepKeepsInv(s, e);
    StepServesDownload(s, e);
    ExtendDownload(s0, s, Step(s, e).state, items, ItemsIn(Step(s, e).out));
  }

  lemma {:induction false} DownloadWalksUp(ss: seq<Wpm>, es: seq<Event>, a: nat, b: nat)
    requires IsRun(ss, es) && Download(ss, es, a, b)
    ensures DownloadedSoFar(ss[a], ss[b], ItemsSent(ss, es, a, b))
    ensures ss[b].partner == ss[a].partner
    decreases b
  {
    hide Step, Inv, DownloadedSoFar;
    assert StepAt(ss, es, b - 1);
    if b - 1 == a {
      RunKeepsInv(ss, es, a);
      DownloadFirstStep(ss[a], es[a]);
      assert ItemsSent(ss, es, a, b) == ItemsIn(Step(ss[a], es[a]).out);
    } else {
      DownloadWalksUp(ss, es, a, b - 1);
      DownloadNextStep(ss[a], ss[b - 1], es[b - 1], ItemsSent(ss, es, a, b - 1));
      assert ItemsSent(ss, es, a, b) == ItemsSent(ss, es, a, b - 1) + ItemsIn(Step(ss[b - 1], es[b - 1]).out);
    }
  }

  predicate ClosesDownload(s: Wpm, e: Event) {
    e.Received? && e.msg.Ack? && e.from == s.partner && e.msg.targetSystem == s.systemId &&
    s.phase == SendListSendWps && s.wpId == s.size - 1
  }

  /** A download closed by the partner's ACK has sent the whole list, to that partner, in order. */
  lemma ClosedDownloadSentAll(ss: seq<Wpm>, es: seq<Event>, a: nat, b: nat)
    requires IsRun(ss, es) && Download(ss, es, a, b) && b < |es| && ClosesDownload(ss[b], es[b])
    ensures Inv(ss[a]) && Inv(ss[b + 1]) && ss[b + 1].phase == Idle
    ensures Rebuild(ItemsSent(ss, es, a, b)) == MissionPrefix(ss[a], ss[a].size)
    ensures WalksUp(ItemsSent(ss, es, a, b), ss[a].partner)
  {
    DownloadWalksUp(ss, es, a, b);
    RunKeepsInv(ss, es, b + 1);
    assert StepAt(ss, es, b);
    StepFliesAfterFirst(ss[b], es[b]);
  }

  lemma FirstAnnounces(s: Wpm, e: Event)
    requires Inv(s) && Enabled(s, e) && s.phase == Idle && First(s, e).state.phase == SendList
    ensures e.Received? && e.msg.RequestList? && s.size > 0
    ensures First(s, e).state.partner == e.from && First(s, e).state.size == s.size
    ensures First(s, e).out == [SentCount(e.from, s.size)]
  {
  }

  /** A download starts by announcing the length of the list to whoever asked for it. */
  lemma DownloadIsAnnounced(s: Wpm, e: Event)
    requires Inv(s) && Enabled(s, e) && s.phase == Idle && Step(s, e).state.phase == SendList
    ensures e.Received? && e.msg.RequestList? && s.size > 0
    ensures Step(s, e).state.partner == e.from && Step(s, e).state.size == s.size
    ensures [SentCount(e.from, s.size)] <= Step(s, e).out
  {
    StepFliesAfterFirst(s, e);
    FirstAnnounces(s, e);
  }

  /** The count goes to the partner on record, so whoever asks for an empty list gets an answer exactly if
      it was the partner before. */
  lemma CountReachesAskerIff(s: Wpm, now: uint64, from: Peer)
    requires Inv(s) && (s.phase == Idle || s.phase == SendList)
    ensures SentCount(from, s.size) in OnRequestList(s, now, from, s.systemId).out <==> s.size > 0 || from == s.partner
  {
  }

  /** Event `start + i` is the partner's request for item `i`. */
  predicate Asks(s: Wpm, es: seq<Event>, start: nat, i: nat) {
    start + i < |es| && es[start + i].Received? && es[start + i].from == s.partner &&
    es[start + i].msg.Request? && es[start + i].msg.targetSystem == s.systemId && es[start + i].msg.index == i
  }

  /** The exchange without losses: each item is asked for in order, then all are acknowledged. */
  ghost predicate InOrderDownload(s: Wpm, es: seq<Event>, start: nat) {
    s.phase == SendList && start + s.size < |es| &&
    (forall i {:trigger Asks(s, es, start, i)} :: 0 <= i < s.size ==> Asks(s, es, start, i)) &&
    var e := es[start + s.size];
    e.Received? && e.from == s.partner && e.msg == WaypointModel.Ack(s.systemId)
  }

  /** Item `k` of a download of what `s` holds is the current one. */
  predicate Serving(s: Wpm, t: Wpm, k: nat) {
    t.phase == SendListSendWps && t.wpId == k && t.partner == s.partner && t.systemId == s.systemId && t.size == s.size
  }

  lemma RequestServed(s: Wpm, e: Event)
    requires Inv(s) && Enabled(s, e) && e.Received? && e.msg.Request? && ServesRequest(s, e.msg.index)
    requires e.from == s.partner && e.msg.targetSystem == s.systemId
    ensures Serving(s, Step(s, e).state, e.msg.index)
  {
    StepFliesAfterFirst(s, e);
  }

  lemma {:induction false} InOrderServes(ss: seq<Wpm>, es: seq<Event>, start: nat, k: nat)
    requires IsRun(ss, es) && start < |es| && InOrderDownload(ss[start], es, start) && k < ss[start].size
    ensures Serving(ss[start], ss[start + k + 1], k)
  {
    hide Step, Inv;
    var j := start + k;
    RunKeepsInv(ss, es, j);
    assert StepAt(ss, es, j);
    assert Asks(ss[start], es, start, k);
    if k > 0 {
      InOrderServes(ss, es, start, k - 1);
    }
    RequestServed(ss[j], es[j]);
  }

  /** A download without losses is served item by item, and its ACK closes it: the station has the list. */
  lemma InOrderDownloadCompletes(ss: seq<Wpm>, es: seq<Event>, start: nat)
    requires IsRun(ss, es) && start < |es| && InOrderDownload(ss[start], es, start)
    ensures Inv(ss[start]) && ss[start + ss[start].size + 1].phase == Idle
    ensures Rebuild(ItemsSent(ss, es, start, start + ss[start].size)) == MissionPrefix(ss[start], ss[start].size)
  {
    var n := ss[start].size;
    RunKeepsInv(ss, es, start);
    forall j | start < j <= start + n ensures ss[j].phase == SendListSendWps {
      InOrderServes(ss, es, start, j - start - 1);
    }
    InOrderServes(ss, es, start, n - 1);
    ClosedDownloadSentAll(ss, es, start, start + n);
  }

  /** A download of one item can be closed before that item was ever asked for. */
  lemma AckMayCloseUnservedDownload(s: Wpm, now: uint64)
    requires Inv(s) && s.phase == SendList
    ensures OnAck(s, now, s.partner, s.systemId).state.phase == Idle <==> s.size == 1
  {
  }

  /** Mission data of a list of items. */
  function Missions(items: seq<Item>): (ms: seq<Item>)
    ensures |ms| == |items|
  {
    seq(|items|, i requires 0 <= i < |items| => Mission(items[i]))
  }

  /** A list installed in `s` and kept until `t` is the mission `t` holds. */
  lemma InstalledIsMission(s: Wpm, t: Wpm, items: seq<Item>)
    requires Shape(s) && Shape(t) && Installed(s, items) && SameMission(s, t)
    ensures t.size == |items| && MissionPrefix(t, t.size) == Missions(items)
  {
    forall i | 0 <= i < |items| ensures Mission(t.waypoints[i]) == Mission(items[i]) {
      assert Unflagged(s.waypoints[i]) == Unflagged(items[i]);
      assert Mission(t.waypoints[i]) == Mission(s.waypoints[i]);
    }
  }

  /** The list a commit installed is what the manager holds for as long as nothing switches it. */
  lemma UploadedMissionKept(ss: seq<Wpm>, es: seq<Event>, start: nat, end: nat, items: seq<Item>, a: nat)
    requires IsRun(ss, es) && UploadOf(ss, es, start, end, items) && CommitsAt(ss[end], es[end])
    requires end < a <= |es| && NoSwitch(ss, es, end + 1, a)
    ensures Shape(ss[a]) && ss[a].size == |items| && MissionPrefix(ss[a], ss[a].size) == Missions(items)
  {
    CommitInstalls(ss, es, start, end, items);
    QuietIntervalKeepsMission(ss, es, end + 1, a);
    InstalledIsMission(ss[end + 1], ss[a], items);
  }

  /** Upload, then any events that do not switch the list, then a download: the ground station gets
      back what was sent, up to the `current` flag and the addressee. */
  lemma UploadThenDownload(ss: seq<Wpm>, es: seq<Event>, start: nat, end: nat, items: seq<Item>, a: nat, b: nat)
    requires IsRun(ss, es) && UploadOf(ss, es, start, end, items) && CommitsAt(ss[end], es[end])
    requires end < a && Download(ss, es, a, b) && b < |es| && ClosesDownload(ss[b], es[b])
    requires NoSwitch(ss, es, end + 1, a)
    ensures Rebuild(ItemsSent(ss, es, a, b)) == Missions(items)
  {
    UploadedMissionKept(ss, es, start, end, items, a);
    ClosedDownloadSentAll(ss, es, a, b);
  }
}
