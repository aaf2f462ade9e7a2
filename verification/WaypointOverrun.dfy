/** Why announced counts have to be at most 15: the code checks none, and one more item than the receive
    buffer holds is written behind it. */
module WaypointOverrun {
  import opened WaypointModel
  import opened WaypointRuns
  import opened WaypointTransfers

  const STATION := Peer(255, 0)
  const NOWHERE := Sample(0.0, 0.0, 0.0)

  function ItemNo(id: uint8, k: uint16): Item {
    ZERO_ITEM.(seq_ := k, targetSystem := id, targetComponent := MISSIONPLANNER)
  }

  /** Event `k` of an upload of `n` items: the announcement, then item `k - 1`. */
  function UploadEvent(id: uint8, n: uint16, k: uint16): Event {
    if k == 0 then Received(1, STATION, Count(id, n), NOWHERE)
    else Received(1, STATION, MissionItem(ItemNo(id, k - 1)), NOWHERE)
  }

  /** The announcement of `n` items and the first `k` of them. */
  function UploadEvents(id: uint8, n: uint16, k: uint16): (es: seq<Event>)
    ensures |es| == k as int + 1
  {
    seq(k as int + 1, i requires 0 <= i < k as int + 1 => UploadEvent(id, n, i))
  }

  lemma FirstEventStarts(id: uint8, n: uint16)
    requires n > 0
    ensures var e := UploadEvent(id, n, 0);
            Inv(Init(id)) && Enabled(Init(id), e) && StartsUpload(Init(id), e) && e.msg.count == n
  {
  }

  lemma ItemEnabled(s: Wpm, id: uint8, n: uint16, k: uint16)
    requires Inv(s) && 0 < k <= MAX_WP_COUNT
    ensures Enabled(s, UploadEvent(id, n, k))
  {
  }

  /** An announcement of more than 15 items and items 0 to 14 is a run, and it ends waiting for item 15. */
  lemma {:induction false} BufferFills(id: uint8, n: uint16, k: uint16) returns (ss: seq<Wpm>)
    requires MAX_WP_COUNT < n && k <= MAX_WP_COUNT
    ensures IsRun(ss, UploadEvents(id, n, k)) && ss[0] == Init(id)
    ensures Awaits(ss[k + 1], n, k) && ss[k + 1].systemId == id
  {
    hide Step, Inv;
    var e := UploadEvent(id, n, k);
    if k == 0 {
      FirstEventStarts(id, n);
      AnnouncedAwaitsFirst(Init(id), e, n);
      ss := [Init(id), Step(Init(id), e).state];
      assert StepAt(ss, UploadEvents(id, n, 0), 0);
    } else {
      var es := UploadEvents(id, n, k - 1);
      var before := BufferFills(id, n, k - 1);
      RunKeepsInv(before, es, k);
      ItemEnabled(before[k], id, n, k);
      DeliveredAwaitsNext(before[k], e, ItemNo(id, k - 1), n);
      ss := ExtendRun(before, es, e);
      assert UploadEvents(id, n, k) == es + [e];
    }
  }

  /** There item 15 is taken, and its slot is behind the buffer. */
  lemma SixteenthItemOverruns(id: uint8, n: uint16) returns (ss: seq<Wpm>)
    requires MAX_WP_COUNT < n
    ensures IsRun(ss, UploadEvents(id, n, MAX_WP_COUNT)) && ss[0] == Init(id)
    ensures var s, item := ss[MAX_WP_COUNT + 1], ItemNo(id, MAX_WP_COUNT);
            TakesItem(s, item) && !ItemInBounds(s, item)
  {
    ss := BufferFills(id, n, MAX_WP_COUNT);
  }

  /** Runs from one state through the same events agree. */
  lemma {:induction false} RunsAgree(ss: seq<Wpm>, es: seq<Event>, tt: seq<Wpm>, fs: seq<Event>, k: nat)
    requires IsRun(ss, es) && IsRun(tt, fs) && ss[0] == tt[0] && k <= |es| && k <= |fs|
    requires forall i :: 0 <= i < k ==> es[i] == fs[i]
    ensures ss[k] == tt[k]
  {
    hide Step;
    if k > 0 {
      RunsAgree(ss, es, tt, fs, k - 1);
      assert StepAt(ss, es, k - 1) && StepAt(tt, fs, k - 1);
    }
  }

  ghost predicate RunsFrom(id: uint8, es: seq<Event>) {
    exists ss :: IsRun(ss, es) && ss[0] == Init(id)
  }

  ghost predicate AnnouncesAtMost(es: seq<Event>, limit: nat) {
    forall i :: 0 <= i < |es| ==> Announces(es[i], limit)
  }

  /** Whatever happens, as long as nobody announces more than `limit` items, no write leaves a buffer. */
  ghost predicate AlwaysRuns(limit: nat) {
    forall id: uint8, es {:trigger RunsFrom(id, es)} :: AnnouncesAtMost(es, limit) ==> RunsFrom(id, es)
  }

  lemma OverrunIsNoStep(ss: seq<Wpm>, es: seq<Event>, k: nat)
    requires k < |es| && |ss| == |es| + 1 && es[k].Received? && es[k].msg.MissionItem?
    requires !ItemInBounds(ss[k], es[k].msg.item)
    ensures !StepAt(ss, es, k)
  {
  }

  lemma LongUploadCannotRun(id: uint8, n: uint16)
    requires MAX_WP_COUNT < n
    ensures AnnouncesAtMost(UploadEvents(id, n, MAX_WP_COUNT + 1), n)
    ensures !RunsFrom(id, UploadEvents(id, n, MAX_WP_COUNT + 1))
  {
    hide Step, Inv;
    var es := UploadEvents(id, n, MAX_WP_COUNT + 1);
    var tt := SixteenthItemOverruns(id, n);
    if RunsFrom(id, es) {
      var ss :| IsRun(ss, es) && ss[0] == Init(id);
      RunsAgree(ss, es, tt, UploadEvents(id, n, MAX_WP_COUNT), MAX_WP_COUNT + 1);
      OverrunIsNoStep(ss, es, MAX_WP_COUNT + 1);
      assert false;
    }
  }

  /** Every sequence of events that announces at most `limit` items can run if and only if `limit` is at
      most 15. */
  lemma AlwaysRunsIff(limit: nat)
    ensures AlwaysRuns(limit) <==> limit <= MAX_WP_COUNT
  {
    if limit <= MAX_WP_COUNT {
      forall id: uint8, es | AnnouncesAtMost(es, limit) ensures RunsFrom(id, es) {
        var ss := FittingCountsAlwaysRun(id, es);
      }
    } else {
      LongUploadCannotRun(0, MAX_WP_COUNT + 1);
      assert !RunsFrom(0, UploadEvents(0, MAX_WP_COUNT + 1, MAX_WP_COUNT + 1));
      assert AnnouncesAtMost(UploadEvents(0, MAX_WP_COUNT + 1, MAX_WP_COUNT + 1), limit);
    }
  }
}
