/** What texts that are not UTF-8 do to the session facade: which batches of alerts are taken in
    whole, which finished requests can be handed over, and what stays behind for good. */
module SessionTexts {
  import opened Bytes
  import opened SessionTable
  import opened SessionRuns

  // ---- batches ------------------------------------------------------------------------------

  lemma {:induction false} HandledRequests(t: Table, alerts: seq<Alert>)
    ensures HandleAlerts(t, alerts).requests == ServedAll(t.requests, alerts)
  {
    hide Served;
    if alerts != [] { HandledRequests(t, alerts[..|alerts| - 1]); }
  }

  lemma {:induction false} HandledBacklog(t: Table, alerts: seq<Alert>, earlier: seq<AlertSnapshot>)
    requires t.backlog == Latest(earlier, MAX_BACKLOG)
    ensures HandleAlerts(t, alerts).backlog == Latest(earlier + Snapshots(t.torrents, alerts), MAX_BACKLOG)
  {
    hide Served, SnapshotOf;
    if alerts == [] {
      assert earlier + [] == earlier;
    } else {
      var n := |alerts| - 1;
      HandledBacklog(t, alerts[..n], earlier);
      assert earlier + Snapshots(t.torrents, alerts) ==
        earlier + Snapshots(t.torrents, alerts[..n]) + [SnapshotOf(t.torrents, alerts[n])];
    }
  }

  lemma {:induction false} ServedConcat(requests: seq<ResumeRecord>, a: seq<Alert>, b: seq<Alert>)
    ensures ServedAll(requests, a + b) == ServedAll(ServedAll(requests, a), b)
  {
    hide Served;
    if b == [] {
      assert a + b == a;
    } else {
      var n := |b| - 1;
      ServedConcat(requests, a, b[..n]);
      assert (a + b)[..|a + b| - 1] == a + b[..n];
    }
  }

  function Waiting(requests: seq<ResumeRecord>): nat
  {
    if requests == [] then 0
    else Waiting(requests[..|requests| - 1]) + if requests[|requests| - 1].status.Pending? then 1 else 0
  }

  lemma {:induction false} FinishingLeavesFewer(requests: seq<ResumeRecord>, i: nat, status: Status)
    requires i < |requests| && requests[i].status.Pending? && !status.Pending?
    ensures Waiting(requests[i := requests[i].(status := status)]) == Waiting(requests) - 1
  {
    var n := |requests| - 1;
    var after := requests[i := requests[i].(status := status)];
    if i < n {
      FinishingLeavesFewer(requests[..n], i, status);
      assert after[..n] == requests[..n][i := requests[i].(status := status)];
    } else {
      assert after[..n] == requests[..n];
    }
  }

  lemma ServedLeavesFewer(requests: seq<ResumeRecord>, alert: Alert)
    ensures Served(requests, alert) == requests || Waiting(Served(requests, alert)) < Waiting(requests)
  {
    if alert.TorrentAlert? && AlertStatus(alert.event).Some? && FindPending(requests, alert.handle).Some? {
      FinishingLeavesFewer(requests, FindPending(requests, alert.handle).value, AlertStatus(alert.event).value);
    }
  }

  /** None of the alerts answers a request that is still waiting. */
  ghost predicate AnswersNothing(requests: seq<ResumeRecord>, alerts: seq<Alert>)
  {
    forall i :: 0 <= i < |alerts| ==>
      alerts[i].TorrentAlert? && AlertStatus(alerts[i].event).Some? ==> FindPending(requests, alerts[i].handle).None?
  }

  lemma AnswersOne(requests: seq<ResumeRecord>, alert: Alert)
    ensures Served(requests, alert) == requests <==> AnswersNothing(requests, [alert])
  {
    ServedLeavesFewer(requests, alert);
    if alert.TorrentAlert? && AlertStatus(alert.event).Some? && FindPending(requests, alert.handle).Some? {
      FinishingLeavesFewer(requests, FindPending(requests, alert.handle).value, AlertStatus(alert.event).value);
      assert !AnswersNothing(requests, [alert]) by { assert [alert][0] == alert; }
    }
  }

  lemma {:induction false} ServedAllUnchanged(requests: seq<ResumeRecord>, alerts: seq<Alert>)
    ensures ServedAll(requests, alerts) == requests || Waiting(ServedAll(requests, alerts)) < Waiting(requests)
    ensures ServedAll(requests, alerts) == requests <==> AnswersNothing(requests, alerts)
  {
    hide Served, FindPending, Waiting;
    if alerts != [] {
      var n := |alerts| - 1;
      var front := alerts[..n];
      ServedAllUnchanged(requests, front);
      ServedLeavesFewer(ServedAll(requests, front), alerts[n]);
      AnswersOne(requests, alerts[n]);
      assert AnswersNothing(requests, alerts) <==>
             AnswersNothing(requests, front) && AnswersNothing(requests, [alerts[n]]) by {
        assert alerts == front + [alerts[n]];
        AnswersSplit(requests, front, [alerts[n]]);
      }
    }
  }

  lemma AnswersSplit(requests: seq<ResumeRecord>, a: seq<Alert>, b: seq<Alert>)
    ensures AnswersNothing(requests, a + b) <==> AnswersNothing(requests, a) && AnswersNothing(requests, b)
  {
    hide FindPending, AlertStatus;
    if AnswersNothing(requests, a + b) {
      forall i | 0 <= i < |a| && a[i].TorrentAlert? && AlertStatus(a[i].event).Some?
        ensures FindPending(requests, a[i].handle).None?
      {
        assert (a + b)[i] == a[i];
      }
      forall i | 0 <= i < |b| && b[i].TorrentAlert? && AlertStatus(b[i].event).Some?
        ensures FindPending(requests, b[i].handle).None?
      {
        assert (a + b)[|a| + i] == b[i];
      }
    }
  }

  /** A batch is recorded whole, and purged, if and only if each of its texts is UTF-8. */
  lemma RecordedWhole(t: Table, alerts: seq<Alert>, earlier: seq<AlertSnapshot>)
    requires t.backlog == Latest(earlier, MAX_BACKLOG)
    ensures var (p, whole) := Process(t, alerts);
      && (whole <==> AllReadable(alerts))
      && p.backlog == Latest(earlier + Snapshots(t.torrents, Recorded(alerts)), MAX_BACKLOG)
      && (Recorded(alerts) == alerts <==> AllReadable(alerts))
      && p.torrents == (if AllReadable(alerts) then Purge(t.torrents, Removals(t.torrents, alerts)) else t.torrents)
  {
    hide Served, Readable, SnapshotOf, Latest;
    HandledBacklog(t, alerts[..|Recorded(alerts)|], earlier);
    assert Recorded(alerts) == alerts[..|Recorded(alerts)|];
  }

  /** Matching goes on through the first unreadable alert and no further. */
  lemma ProcessedRequests(t: Table, alerts: seq<Alert>)
    ensures var n := |Recorded(alerts)|;
      Process(t, alerts).0.requests == ServedAll(t.requests, if n == |alerts| then alerts else alerts[..n + 1])
  {
    hide Served, Readable, Purge, Removals, HandleAlerts, Recorded;
    var n := |Recorded(alerts)|;
    HandledRequests(t, alerts[..n]);
    if n == |alerts| {
      assert alerts[..n] == alerts;
    } else {
      assert alerts[..n + 1][..n] == alerts[..n];
    }
  }

  /** A batch leaves the requests as if all of it had been matched if and only if each of its
      texts is UTF-8, or no alert behind the first that is not answers a request still waiting. */
  lemma ServedWhole(t: Table, alerts: seq<Alert>)
    ensures var requests := Process(t, alerts).0.requests;
      requests == ServedAll(t.requests, alerts) <==>
        AllReadable(alerts) || AnswersNothing(requests, alerts[|Recorded(alerts)| + 1..])
  {
    hide Process, ServedAll, Readable, AnswersNothing, Recorded;
    var n, requests := |Recorded(alerts)|, Process(t, alerts).0.requests;
    ProcessedRequests(t, alerts);
    if n < |alerts| {
      var rest := alerts[n + 1..];
      ServedConcat(t.requests, alerts[..n + 1], rest);
      assert alerts[..n + 1] + rest == alerts;
      ServedAllUnchanged(requests, rest);
    }
  }

  // ---- handing over -----------------------------------------------------------------------------

  /** A poll hands a request over, and erases it, if and only if the batch before it was readable,
      the request is finished, and its error text, if it failed, is UTF-8. */
  lemma HandedOverExactly(t: Table, alerts: seq<Alert>, id: u64)
    ensures var p := Process(t, alerts).0;
      var found := FindRequest(p.requests, id);
      && (Poll(t, alerts, id).1.Delivered? <==>
            AllReadable(alerts) && found.Some?
            && !p.requests[found.value].status.Pending? && Presentable(p.requests[found.value].status))
      && (Poll(t, alerts, id).1.Delivered? <==> |Poll(t, alerts, id).0.requests| < |p.requests|)
      && (Poll(t, alerts, id).1.Delivered? ==> Poll(t, alerts, id).1.status == p.requests[found.value].status)
      && (!Poll(t, alerts, id).1.Delivered? ==> Poll(t, alerts, id).0 == p)
  {
    hide Readable, HandleAlerts, Served, Purge, Removals, ValidUtf8;
  }

  lemma ServedKeepsFinished(requests: seq<ResumeRecord>, alert: Alert, r: ResumeRecord)
    requires r in requests && !r.status.Pending?
    ensures r in Served(requests, alert)
  {
    var i :| 0 <= i < |requests| && requests[i] == r;
    assert Served(requests, alert)[i] == r;
  }

  lemma {:induction false} ServedAllKeepsFinished(requests: seq<ResumeRecord>, alerts: seq<Alert>, r: ResumeRecord)
    requires r in requests && !r.status.Pending?
    ensures r in ServedAll(requests, alerts)
  {
    hide Served;
    if alerts != [] {
      var n := |alerts| - 1;
      ServedAllKeepsFinished(requests, alerts[..n], r);
      ServedKeepsFinished(ServedAll(requests, alerts[..n]), alerts[n], r);
    }
  }

  lemma ProcessKeepsFinished(t: Table, alerts: seq<Alert>, r: ResumeRecord)
    requires r in t.requests && !r.status.Pending?
    ensures r in Process(t, alerts).0.requests
  {
    hide Served, Purge, Removals;
    var n := |Recorded(alerts)|;
    HandledRequests(t, alerts[..n]);
    ServedAllKeepsFinished(t.requests, alerts[..n], r);
    if n < |alerts| { ServedKeepsFinished(ServedAll(t.requests, alerts[..n]), alerts[n], r); }
  }

  lemma PollKeepsUnpresentable(t: Table, alerts: seq<Alert>, id: u64, r: ResumeRecord)
    requires r in t.requests && !r.status.Pending? && !Presentable(r.status)
    ensures r in Poll(t, alerts, id).0.requests
  {
    hide Presentable;
    ProcessKeepsFinished(t, alerts, r);
    hide Process;
    var (p, _) := Process(t, alerts);
    var k :| 0 <= k < |p.requests| && p.requests[k] == r;
    if Poll(t, alerts, id).1.Delivered? {
      var i := FindRequest(p.requests, id).value;
      assert Presentable(p.requests[i].status) && k != i;
      var left := p.requests[..i] + p.requests[i + 1..];
      assert left[if k < i then k else k - 1] == r;
      assert Poll(t, alerts, id).0.requests == left;
    }
  }

  lemma StepKeepsUnpresentable(s: Session, call: Call, r: ResumeRecord)
    requires r in s.table.requests && !r.status.Pending? && !Presentable(r.status)
    ensures r in Step(s, call).table.requests
  {
    hide Presentable, Process, Poll, AfterProcess;
    if s.open {
      match call
      case PollResumeData(id, alerts) => PollKeepsUnpresentable(s.table, alerts, id, r);
      case SnapshotSession(alerts, _) => ProcessKeepsFinished(s.table, alerts, r);
      case _ =>
    }
  }

  /** A failed request whose error text is not UTF-8 stays in the table for good: no later call
      hands it over or erases it. */
  lemma {:induction false} UnpresentableStays(calls: seq<Call>, more: seq<Call>, r: ResumeRecord)
    requires r in Run(calls).table.requests && !r.status.Pending? && !Presentable(r.status)
    ensures r in Run(calls + more).table.requests
  {
    hide Step, Presentable;
    if more == [] {
      assert calls + more == calls;
    } else {
      var n := |more| - 1;
      UnpresentableStays(calls, more[..n], r);
      assert (calls + more)[..|calls + more| - 1] == calls + more[..n];
      StepKeepsUnpresentable(Run(calls + more[..n]), more[n], r);
    }
  }

  // ---- records whose removal alert was lost ----------------------------------------------------------

  function AlertsOf(call: Call): seq<Alert>
  {
    match call
    case PollResumeData(_, alerts) => alerts
    case SnapshotSession(alerts, _) => alerts
    case _ => []
  }

  /** No alert among these reports the removal of this torrent. */
  ghost predicate NoRemovalOf(handle: Handle, alerts: seq<Alert>)
  {
    forall a :: a in alerts && a.TorrentAlert? && a.event.TorrentRemoved? ==> a.handle != handle
  }

  lemma OwnHandle(torrents: seq<TorrentRecord>, handle: Handle, r: TorrentRecord)
    requires Ascending(torrents) && r in torrents
    ensures IdForHandle(torrents, handle) == r.id && r.id != 0 ==> handle == r.handle
  {
    if IdForHandle(torrents, handle) == r.id && r.id != 0 {
      var i :| 0 <= i < |torrents| && torrents[i].id == r.id && torrents[i].handle == handle;
      var k :| 0 <= k < |torrents| && torrents[k] == r;
      assert i == k;
    }
  }

  lemma ProcessKeepsInactive(s: Session, alerts: seq<Alert>, r: TorrentRecord)
    requires TorrentsKept(s) && |s.history.torrentIds| < U64_LIMIT
    requires r in s.table.torrents && !r.active && NoRemovalOf(r.handle, alerts)
    ensures r in Process(s.table, alerts).0.torrents
  {
    hide Process, Numbered, Ascending, IdForHandle, AllReadable;
    ErasedExactly(s.table, alerts, r);
    forall a | a in alerts && a.TorrentAlert? && a.event.TorrentRemoved? && r.id != 0
      ensures IdForHandle(s.table.torrents, a.handle) != r.id
    {
      OwnHandle(s.table.torrents, a.handle, r);
    }
  }

  lemma StepKeepsInactive(s: Session, call: Call, r: TorrentRecord)
    requires TorrentsKept(s) && |s.history.torrentIds| < U64_LIMIT
    requires r in s.table.torrents && !r.active && NoRemovalOf(r.handle, AlertsOf(call))
    ensures r in Step(s, call).table.torrents
  {
    hide Process, AfterProcess, TorrentsKept, NoRemovalOf;
    if s.open {
      match call
      case PollResumeData(_, alerts) => ProcessKeepsInactive(s, alerts, r);
      case SnapshotSession(alerts, _) => ProcessKeepsInactive(s, alerts, r);
      case RemoveTorrent(id, nativeOk) =>
        var k :| 0 <= k < |s.table.torrents| && s.table.torrents[k] == r;
        assert Step(s, call).table.torrents[k] == r;
      case _ =>
    }
  }

  lemma NumberedGrows(s: Session, call: Call)
    ensures |s.history.torrentIds| <= |Step(s, call).history.torrentIds|
  {
    hide Process, AfterProcess;
  }

  /** A removed torrent whose removal alert was popped in a batch that stopped before its end
      stays in the table: only another removal alert for the same torrent could erase it. */
  lemma {:induction false} LostRemovalStays(calls: seq<Call>, more: seq<Call>, r: TorrentRecord)
    requires r in Run(calls).table.torrents && !r.active
    requires |Run(calls + more).history.torrentIds| < U64_LIMIT
    requires forall i :: 0 <= i < |more| ==> NoRemovalOf(r.handle, AlertsOf(more[i]))
    ensures r in Run(calls + more).table.torrents
  {
    hide Step, NoRemovalOf;
    if more == [] {
      assert calls + more == calls;
    } else {
      var n := |more| - 1;
      var before := Run(calls + more[..n]);
      assert (calls + more)[..|calls + more| - 1] == calls + more[..n];
      NumberedGrows(before, more[n]);
      LostRemovalStays(calls, more[..n], r);
      RunKeepsTorrents(calls + more[..n]);
      StepKeepsInactive(before, more[n], r);
    }
  }

  // ---- inputs that show it ---------------------------------------------------------------------------

  function Unreadable(): seq<byte> { [0xFF] }

  lemma RunThen(calls: seq<Call>, call: Call)
    ensures Run(calls + [call]) == Step(Run(calls), call)
  {
    assert (calls + [call])[..|calls|] == calls;
  }

  /** A torrent is added, removed, and its removal alert popped together with a tracker alert
      whose text is not UTF-8: its record is still in the table. */
  lemma UnreadableAlertKeepsRecord() returns (calls: seq<Call>)
    ensures Run(calls).table.torrents == [TorrentRecord(1, 7, false)]
    ensures Run(calls).table.backlog == [AlertSnapshot([], 1)]
  {
    var alerts := [TorrentAlert(7, TorrentRemoved, []), TorrentAlert(7, OtherEvent, Unreadable())];
    var added := Step(START, AddTorrent(Added(7, true, true)));
    assert added.table.torrents == [TorrentRecord(1, 7, true)];
    var removed := Step(added, RemoveTorrent(1, true));
    assert removed.table.torrents == [TorrentRecord(1, 7, false)];
    assert Readable(alerts[0]) && !Readable(alerts[1]);
    assert Recorded(alerts) == [alerts[0]] by { assert alerts[1..] == [alerts[1]]; }
    assert alerts[..1] == [alerts[0]] && [alerts[0]][..0] == [];
    assert HandleAlerts(removed.table, alerts[..1]).backlog == [AlertSnapshot([], 1)];
    calls := [] + [AddTorrent(Added(7, true, true))] + [RemoveTorrent(1, true)] + [SnapshotSession(alerts, true)];
    assert Step(removed, SnapshotSession(alerts, true)).table.torrents == removed.table.torrents;
    hide Step;
    RunThen([], AddTorrent(Added(7, true, true)));
    RunThen([] + [AddTorrent(Added(7, true, true))], RemoveTorrent(1, true));
    RunThen([] + [AddTorrent(Added(7, true, true))] + [RemoveTorrent(1, true)], SnapshotSession(alerts, true));
  }

  function FailureAlerts(): seq<Alert>
  {
    [TorrentAlert(7, ResumeFailed(Unreadable()), [])]
  }

  lemma FailureIsPolled(t: Table)
    requires t.requests == [ResumeRecord(1, 7, Pending)]
    ensures Poll(t, FailureAlerts(), 1).1 == UnreadableError
    ensures Poll(t, FailureAlerts(), 1).0.requests == [ResumeRecord(1, 7, Failed(Unreadable()))]
  {
    var alerts := FailureAlerts();
    assert Readable(alerts[0]) && AllReadable(alerts);
    HandledRequests(t, alerts);
    assert alerts[..1] == alerts && alerts[..0] == [];
    assert Served(t.requests, alerts[0]) == [ResumeRecord(1, 7, Failed(Unreadable()))];
  }

  lemma SavedRequest() returns (calls: seq<Call>)
    ensures Run(calls).open && Run(calls).table.requests == [ResumeRecord(1, 7, Pending)]
  {
    var added := Step(START, AddTorrent(Added(7, true, true)));
    assert added.table.torrents == [TorrentRecord(1, 7, true)];
    var saved := Step(added, SaveResumeData(1, true));
    assert saved.table.requests == [ResumeRecord(1, 7, Pending)];
    calls := [] + [AddTorrent(Added(7, true, true))] + [SaveResumeData(1, true)];
    hide Step;
    RunThen([], AddTorrent(Added(7, true, true)));
    RunThen([] + [AddTorrent(Added(7, true, true))], SaveResumeData(1, true));
  }

  /** A resume request that the native library fails with a text that is not UTF-8 is finished,
      reported as failed by every poll, and still in the table. */
  lemma UnreadableErrorIsNeverHandedOver() returns (calls: seq<Call>, r: ResumeRecord)
    ensures r in Run(calls).table.requests && r.id == 1 && r.status == Failed(Unreadable())
    ensures forall more :: r in Run(calls + more).table.requests
  {
    hide Poll, AfterProcess, Process;
    var saved := SavedRequest();
    r := ResumeRecord(1, 7, Failed(Unreadable()));
    calls := saved + [PollResumeData(1, FailureAlerts())];
    FailureIsPolled(Run(saved).table);
    RunThen(saved, PollResumeData(1, FailureAlerts()));
    forall more ensures r in Run(calls + more).table.requests {
      UnpresentableStays(calls, more, r);
    }
  }
}
