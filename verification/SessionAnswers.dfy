/** What the session facade hands out: the ids it returns, the alerts a snapshot delivers, and the
    resume data a poll delivers, over every run of calls. */
module SessionAnswers {
  import opened Bytes
  import opened Outcomes
  import opened Sequences
  import opened SessionTable
  import opened SessionRuns
  import opened SessionTexts

  // ---- snapshots --------------------------------------------------------------------------------

  function Actives(torrents: seq<TorrentRecord>): nat
  {
    Sum(torrents, (r: TorrentRecord) => if r.active then 1 else 0)
  }

  /** `ids` are the ids of the active records, in the order of the table. */
  predicate Lists(ids: seq<u64>, torrents: seq<TorrentRecord>)
  {
    && |ids| == Actives(torrents)
    && forall i :: 0 <= i < |torrents| && torrents[i].active ==>
         Actives(torrents[..i]) < |ids| && ids[Actives(torrents[..i])] == torrents[i].id
  }

  lemma {:induction false} ActiveIdsListed(torrents: seq<TorrentRecord>)
    ensures Lists(ActiveIds(torrents), torrents)
  {
    if torrents != [] {
      var n := |torrents| - 1;
      ActiveIdsListed(torrents[..n]);
      forall i | 0 <= i < n ensures torrents[..n][..i] == torrents[..i] && torrents[..n][i] == torrents[i] {}
    }
  }

  lemma {:induction false} ActiveIdsConcat(a: seq<TorrentRecord>, r: TorrentRecord)
    ensures ActiveIds(a + [r]) == ActiveIds(a) + if r.active then [r.id] else []
  {
    assert (a + [r])[..|a|] == a;
  }

  lemma {:induction false} PurgeKeepsActive(torrents: seq<TorrentRecord>, removals: seq<u64>)
    ensures ActiveIds(Purge(torrents, removals)) == ActiveIds(torrents)
  {
    if torrents != [] {
      var n := |torrents| - 1;
      PurgeKeepsActive(torrents[..n], removals);
      ActiveIdsConcat(Purge(torrents[..n], removals), torrents[n]);
      assert Purge(torrents[..n], removals) + [] == Purge(torrents[..n], removals);
    }
  }

  /** At any moment of any run, a snapshot hands something over if and only if every alert popped
      for it and every torrent can be read; and then exactly the ids of the active torrents, and
      the latest 4096 of the alerts recorded since the last one, those just popped included. */
  lemma SnapshotHandsOver(calls: seq<Call>, alerts: seq<Alert>, readable: bool)
    ensures var s := Run(calls);
      var (after, answer) := Snapshot(s.table, alerts, readable);
      && (answer.Some? <==> readable && AllReadable(alerts))
      && (answer.Some? ==>
            && Lists(answer.value.0, s.table.torrents)
            && answer.value.1 == Latest(s.history.since + Snapshots(s.table.torrents, alerts), 4096)
            && after.backlog == [])
      && (answer.None? ==> after == Process(s.table, alerts).0)
  {
    RunKeepsBacklog(calls);
    hide Run, Process, Lists, AllReadable, Latest;
    var s := Run(calls);
    RecordedWhole(s.table, alerts, s.history.since);
    PurgeKeepsActive(s.table.torrents, Removals(s.table.torrents, alerts));
    ActiveIdsListed(s.table.torrents);
  }

  function Joined(handovers: seq<Handover>): seq<AlertSnapshot>
  {
    if handovers == [] then []
    else Joined(handovers[..|handovers| - 1]) + handovers[|handovers| - 1].recorded
  }

  /** Every alert ever recorded belongs to one handover or is still pending, in order; and each
      handover delivered the latest 4096 of its alerts, once. */
  ghost predicate HandoversKept(s: Session)
  {
    && s.history.recorded == Joined(s.history.handovers) + s.history.since
    && forall i :: 0 <= i < |s.history.handovers| ==>
         s.history.handovers[i].alerts == Latest(s.history.handovers[i].recorded, 4096)
  }

  lemma {:induction false} AlertsKeepHandovers(s: Session, alerts: seq<Alert>)
    requires HandoversKept(s)
    ensures HandoversKept(AfterAlerts(s, alerts))
  {
    hide Latest, Joined, HandleAlerts, CompletionOf;
    if alerts != [] {
      var n := |alerts| - 1;
      AlertsKeepHandovers(s, alerts[..n]);
      var p := AfterAlerts(s, alerts[..n]);
      Assoc(Joined(p.history.handovers), p.history.since, [SnapshotOf(p.table.torrents, alerts[n])]);
    }
  }

  lemma StepKeepsHandovers(s: Session, call: Call)
    requires BacklogIsLatest(s) && HandoversKept(s)
    ensures HandoversKept(Step(s, call))
  {
    hide Latest, Joined, HandleAlerts, CompletionOf, Served, Purge, Removals, ReadableTexts, Add, Remove, SaveResume;
    if s.open {
      match call
      case PollResumeData(_, alerts) => AlertsKeepHandovers(s, alerts[..|Recorded(alerts)|]);
      case SnapshotSession(alerts, readable) =>
        AlertsKeepHandovers(s, alerts[..|Recorded(alerts)|]);
        BatchKeepsBacklog(s, alerts);
        var p := AfterProcess(s, alerts);
        if Snapshot(s.table, alerts, readable).1.Some? {
          HandedOver(p.history.handovers, Handover(p.history.since, p.table.backlog));
        }
      case _ =>
    }
  }

  lemma HandedOver(handovers: seq<Handover>, last: Handover)
    ensures Joined(handovers + [last]) == Joined(handovers) + last.recorded
  {
    assert (handovers + [last])[..|handovers|] == handovers;
  }

  /** No recorded alert is lost but by 4096 newer ones, and none is delivered twice. */
  lemma {:induction false} RunKeepsHandovers(calls: seq<Call>)
    ensures HandoversKept(Run(calls))
  {
    if calls != [] {
      hide HandoversKept, BacklogIsLatest, Step;
      var n := |calls| - 1;
      RunKeepsHandovers(calls[..n]);
      RunKeepsBacklog(calls[..n]);
      StepKeepsHandovers(Run(calls[..n]), calls[n]);
    }
  }

  // ---- resume data --------------------------------------------------------------------------------

  /** The alert is about this torrent and gives its request this status. */
  predicate Answers(alert: Alert, handle: Handle, status: Status)
  {
    && alert.TorrentAlert? && alert.handle == handle
    && match status
       case Pending => false
       case Saved(bytes) => alert.event == ResumeSaved(Buffer(bytes)) && |bytes| <= 16 * 1024 * 1024
       case Failed(message) =>
         || alert.event == ResumeFailed(message)
         || (&& alert.event.ResumeSaved? && alert.event.outcome.Threw?
             && message == Ascii("serializing saved resume data: ") + alert.event.outcome.message)
         || (&& alert.event.ResumeSaved? && alert.event.outcome.Buffer?
             && |alert.event.outcome.bytes| > 16 * 1024 * 1024
             && message == Ascii("saved resume data exceeds the size limit"))
  }

  /** A resume alert gives a status, and only the one that answers. */
  lemma AlertStatusMeaning(alert: Alert, handle: Handle, status: Status)
    ensures Answers(alert, handle, status) <==>
              alert.TorrentAlert? && alert.handle == handle && AlertStatus(alert.event) == Some(status)
  {
  }

  predicate Finished(finished: seq<Completion>, id: u64, status: Status)
  {
    exists i :: 0 <= i < |finished| && finished[i].id == id && finished[i].status == status
  }

  /** Every finished request was answered by an alert of its own about its own torrent, and what
      is in the table or was delivered for it is that answer. */
  ghost predicate AnswersKept(s: Session)
  {
    var finished := s.history.finished;
    && (forall i, j :: 0 <= i < j < |finished| ==> finished[i].at < finished[j].at)
    && (forall i :: 0 <= i < |finished| ==>
          && finished[i].at < |s.history.served|
          && Answers(s.history.served[finished[i].at], finished[i].handle, finished[i].status))
    && (forall r :: r in s.table.requests && !r.status.Pending? ==> Finished(finished, r.id, r.status))
    && (forall d :: d in s.history.delivered ==> Finished(finished, d.id, d.status))
  }

  lemma FinishedGrows(finished: seq<Completion>, more: seq<Completion>, id: u64, status: Status)
    ensures Finished(finished, id, status) ==> Finished(finished + more, id, status)
  {
    if i :| 0 <= i < |finished| && finished[i].id == id && finished[i].status == status {
      assert (finished + more)[i] == finished[i];
    }
  }

  lemma ServeKeepsAnswers(s: Session, alert: Alert)
    requires AnswersKept(s)
    ensures AnswersKept(AfterServe(s, alert))
  {
    hide Finished, Answers, AlertStatus;
    var n := AfterServe(s, alert);
    var c := CompletionOf(s.table.requests, alert, |s.history.served|);
    forall id, status ensures Finished(s.history.finished, id, status) ==> Finished(n.history.finished, id, status) {
      FinishedGrows(s.history.finished, c, id, status);
    }
    if c != [] {
      AlertStatusMeaning(alert, alert.handle, c[0].status);
      LastFinished(s.history.finished, c[0]);
      var i := FindPending(s.table.requests, alert.handle).value;
      forall r | r in n.table.requests && !r.status.Pending? ensures Finished(n.history.finished, r.id, r.status) {
        var k :| 0 <= k < |n.table.requests| && n.table.requests[k] == r;
        if k != i { assert s.table.requests[k] in s.table.requests; }
      }
    } else {
      assert n.table.requests == s.table.requests;
    }
  }

  lemma LastFinished(finished: seq<Completion>, c: Completion)
    ensures Finished(finished + [c], c.id, c.status)
  {
    assert (finished + [c])[|finished|] == c;
  }

  /** Answers are about these parts of the session alone. */
  lemma OnlyAnswersMatter(p: Session, q: Session)
    requires p.table.requests == q.table.requests && p.history.delivered == q.history.delivered
    requires p.history.served == q.history.served && p.history.finished == q.history.finished
    ensures AnswersKept(p) <==> AnswersKept(q)
  {
  }

  lemma {:induction false} AlertsKeepAnswers(s: Session, alerts: seq<Alert>)
    requires AnswersKept(s)
    ensures AnswersKept(AfterAlerts(s, alerts))
  {
    hide AnswersKept, CompletionOf, Served;
    if alerts != [] {
      var n := |alerts| - 1;
      var p := AfterAlerts(s, alerts[..n]);
      AlertsKeepAnswers(s, alerts[..n]);
      ServeKeepsAnswers(p, alerts[n]);
      OnlyAnswersMatter(AfterServe(p, alerts[n]), AfterAlert(p, alerts[n]));
    }
  }

  lemma BatchKeepsAnswers(s: Session, alerts: seq<Alert>)
    requires AnswersKept(s)
    ensures AnswersKept(AfterProcess(s, alerts))
  {
    hide AnswersKept, CompletionOf, Served, Purge, Removals;
    var n := |Recorded(alerts)|;
    var p := AfterAlerts(s, alerts[..n]);
    AlertsKeepAnswers(s, alerts[..n]);
    if n == |alerts| {
      OnlyAnswersMatter(p, AfterProcess(s, alerts));
    } else {
      ServeKeepsAnswers(p, alerts[n]);
      OnlyAnswersMatter(AfterServe(p, alerts[n]), AfterProcess(s, alerts));
    }
  }

  lemma PollKeepsAnswers(s: Session, id: u64, alerts: seq<Alert>)
    requires AnswersKept(s) && s.open
    ensures AnswersKept(Step(s, PollResumeData(id, alerts)))
  {
    hide Finished, Answers, Process, AfterProcess, Presentable;
    BatchKeepsAnswers(s, alerts);
    var p := AfterProcess(s, alerts);
    var n := Step(s, PollResumeData(id, alerts));
    assert p.history.delivered + [] == p.history.delivered;
    forall r | r in n.table.requests ensures r in p.table.requests {}
    if Poll(s.table, alerts, id).1.Delivered? {
      var found := FindRequest(p.table.requests, id).value;
      assert p.table.requests[found] in p.table.requests;
    }
  }

  lemma StepKeepsAnswers(s: Session, call: Call)
    requires AnswersKept(s)
    ensures AnswersKept(Step(s, call))
  {
    hide Finished, Answers, Process, AfterProcess;
    if s.open {
      match call
      case PollResumeData(id, alerts) => PollKeepsAnswers(s, id, alerts);
      case SnapshotSession(alerts, _) =>
        BatchKeepsAnswers(s, alerts);
        OnlyAnswersMatter(AfterProcess(s, alerts), Step(s, call));
      case SaveResumeData(_, _) =>
      case _ => OnlyAnswersMatter(s, Step(s, call));
    }
  }

  /** In every run each finished request was answered by its own alert: saved data handed over are
      the very bytes the alert carried, at most 16 MiB, and failures its message. */
  lemma {:induction false} RunKeepsAnswers(calls: seq<Call>)
    ensures AnswersKept(Run(calls))
  {
    if calls != [] {
      hide AnswersKept, Step;
      var n := |calls| - 1;
      RunKeepsAnswers(calls[..n]);
      StepKeepsAnswers(Run(calls[..n]), calls[n]);
    }
  }

  // ---- single calls ----------------------------------------------------------------------------------

  ghost predicate HasActive(torrents: seq<TorrentRecord>, id: u64)
  {
    exists r :: r in torrents && r.id == id && r.active
  }

  /** An id is returned exactly when the native side added the torrent and its state was read, and
      it is that of an active record of this torrent; a record is added only for a torrent that had
      no active one, and kept after a failure only when the torrent could not be taken back out. */
  lemma AddAnswers(t: Table, outcome: AddOutcome)
    ensures var (n, answer) := Add(t, outcome);
      && (answer.AddedTorrent? <==> outcome.Added? && outcome.readable)
      && (answer.AddedTorrent? ==> TorrentRecord(answer.id, outcome.handle, true) in n.torrents)
      && (n.torrents == t.torrents
          || (&& outcome.Added? && (outcome.readable || !outcome.removable)
              && (forall r :: r in t.torrents && r.active ==> r.handle != outcome.handle)
              && n.torrents == t.torrents + [TorrentRecord(t.nextTorrentId, outcome.handle, true)]))
      && n == t.(nextTorrentId := n.nextTorrentId, torrents := n.torrents)
  {
    if outcome.Added? {
      var found := FindActiveHandle(t.torrents, outcome.handle);
      if found.Some? { assert t.torrents[found.value] in Add(t, outcome).0.torrents; }
    }
  }

  /** Removing succeeds exactly for the id of an active record which the native side lets go, and
      does nothing but make a record of that id inactive. */
  lemma RemoveAnswers(t: Table, id: u64, nativeOk: bool)
    ensures var (n, ok) := Remove(t, id, nativeOk);
      && (ok <==> nativeOk && HasActive(t.torrents, id))
      && (!ok ==> n == t)
      && (ok ==> exists i :: 0 <= i < |t.torrents| && t.torrents[i].id == id && t.torrents[i].active
                   && n == t.(torrents := t.torrents[i := TorrentRecord(id, t.torrents[i].handle, false)]))
  {
    var found := FindActive(t.torrents, id);
    if found.Some? { assert t.torrents[found.value] in t.torrents; }
  }

  /** A request id is returned exactly for the id of an active record on which the native side
      started; that request, pending for the torrent of such a record, is then the last one. */
  lemma SaveAnswers(t: Table, id: u64, nativeOk: bool)
    ensures var (n, request) := SaveResume(t, id, nativeOk);
      && (request.Some? <==> nativeOk && HasActive(t.torrents, id))
      && (request.None? ==> n.requests == t.requests)
      && (request.Some? ==>
            exists r :: r in t.torrents && r.id == id && r.active
              && n.requests == t.requests + [ResumeRecord(request.value, r.handle, Pending)])
      && n == t.(requests := n.requests, nextRequestId := n.nextRequestId)
  {
    var found := FindActive(t.torrents, id);
    if found.Some? { assert t.torrents[found.value] in t.torrents; }
  }

  /** What a recorded alert says: its own text, and the id of the first record of its torrent, or 0
      when there is none or the alert is about the session. */
  lemma SnapshotSays(torrents: seq<TorrentRecord>, alert: Alert)
    ensures SnapshotOf(torrents, alert).text == alert.text
    ensures var id := SnapshotOf(torrents, alert).torrentId;
      if alert.SessionAlert? || forall r :: r in torrents ==> r.handle != alert.handle then id == 0
      else exists i :: 0 <= i < |torrents| && torrents[i].handle == alert.handle && torrents[i].id == id
             && forall j :: 0 <= j < i ==> torrents[j].handle != alert.handle
  {
    if alert.TorrentAlert? {
      var found := Find(torrents, (r: TorrentRecord) => r.handle == alert.handle);
      if found.Some? { assert torrents[found.value] in torrents; }
    }
  }

  /** Record `i` is the first with this id. */
  predicate FirstRequest(requests: seq<ResumeRecord>, id: u64, i: nat)
  {
    i < |requests| && requests[i].id == id && forall j :: 0 <= j < i ==> requests[j].id != id
  }

  /** What a poll answers, whatever the request's fate. */
  lemma PollAnswers(t: Table, alerts: seq<Alert>, id: u64)
    ensures var requests := Process(t, alerts).0.requests;
      match Poll(t, alerts, id).1
      case Interrupted => !AllReadable(alerts)
      case UnknownRequest => AllReadable(alerts) && forall r :: r in requests ==> r.id != id
      case StillPending =>
        AllReadable(alerts) && exists i: nat :: FirstRequest(requests, id, i) && requests[i].status.Pending?
      case UnreadableError =>
        && AllReadable(alerts)
        && exists i: nat :: FirstRequest(requests, id, i) && requests[i].status.Failed?
                       && !ValidUtf8(requests[i].status.message)
      case Delivered(status) =>
        && AllReadable(alerts) && !status.Pending? && (status.Failed? ==> ValidUtf8(status.message))
        && exists i: nat :: FirstRequest(requests, id, i) && requests[i].status == status
  {
    hide Readable, HandleAlerts, Served, Purge, Removals, ValidUtf8;
    var requests := Process(t, alerts).0.requests;
    hide Process;
    var found := FindRequest(requests, id);
    assert Process(t, alerts).1 <==> AllReadable(alerts) by { ProcessedWhole(t, alerts); }
    if found.Some? { assert FirstRequest(requests, id, found.value); }
  }

  lemma ProcessedWhole(t: Table, alerts: seq<Alert>)
    ensures Process(t, alerts).1 <==> AllReadable(alerts)
  {
    hide Readable, HandleAlerts, Served, Purge, Removals;
  }
}
