/** Runs of the session facade: identifiers, conservation of resume requests, first-in
    first-out service, and the backlog as the latest alerts. */
module SessionRuns {
  import opened Bytes
  import opened Outcomes
  import opened SessionTable

  datatype Call =
    | AddTorrent(outcome: AddOutcome)
    | RemoveTorrent(id: u64, nativeOk: bool)
    | SaveResumeData(id: u64, nativeOk: bool)
    | PollResumeData(id: u64, alerts: seq<Alert>)
    | SnapshotSession(alerts: seq<Alert>, readable: bool)
    | Shutdown

  /** A request that finished, by which of the served alerts, and how. */
  datatype Completion = Completion(handle: Handle, id: u64, at: nat, status: Status)

  datatype Delivery = Delivery(id: u64, status: Status)

  /** What a successful snapshot handed over, and all that was recorded since the one before it. */
  datatype Handover = Handover(recorded: seq<AlertSnapshot>, alerts: seq<AlertSnapshot>)

  /** What happened so far: ids numbered, requests taken back or delivered, alerts matched against
      requests, completions in order, every alert recorded, what was handed over, and since the
      last successful snapshot every alert recorded and every alert popped. */
  datatype History = History(
    torrentIds: seq<u64>,
    requestIds: seq<u64>,
    takenBack: set<u64>,
    served: seq<Alert>,
    finished: seq<Completion>,
    delivered: seq<Delivery>,
    recorded: seq<AlertSnapshot>,
    handovers: seq<Handover>,
    since: seq<AlertSnapshot>,
    popped: seq<AlertSnapshot>)

  datatype Session = Session(open: bool, table: Table, history: History)

  const START: Session := Session(true, EMPTY, History([], [], {}, [], [], [], [], [], [], []))

  // ---- one call ---------------------------------------------------------------------------------

  function CompletionOf(requests: seq<ResumeRecord>, alert: Alert, at: nat): seq<Completion>
  {
    match alert
    case SessionAlert(_) => []
    case TorrentAlert(handle, event, _) =>
      if AlertStatus(event).None? then []
      else match FindPending(requests, handle)
        case None => []
        case Some(i) => [Completion(handle, requests[i].id, at, AlertStatus(event).value)]
  }

  /** The matching of an alert, which comes before its text is looked at. */
  function AfterServe(s: Session, alert: Alert): Session
  {
    s.(table := s.table.(requests := Served(s.table.requests, alert)),
       history := s.history.(
         served := s.history.served + [alert],
         finished := s.history.finished + CompletionOf(s.table.requests, alert, |s.history.served|)))
  }

  function AfterAlert(s: Session, alert: Alert): (r: Session)
    ensures r.table == HandleAlert(s.table, alert)
  {
    var p := AfterServe(s, alert);
    var snapshot := SnapshotOf(s.table.torrents, alert);
    p.(table := p.table.(backlog := Append(s.table.backlog, snapshot)),
       history := p.history.(since := s.history.since + [snapshot], recorded := s.history.recorded + [snapshot]))
  }

  function AfterAlerts(s: Session, alerts: seq<Alert>): (r: Session)
    ensures r.table == HandleAlerts(s.table, alerts)
    ensures r.open == s.open
    ensures r.history.torrentIds == s.history.torrentIds && r.history.requestIds == s.history.requestIds
    ensures r.history.takenBack == s.history.takenBack && r.history.delivered == s.history.delivered
    ensures r.history.popped == s.history.popped && r.history.handovers == s.history.handovers
  {
    if alerts == [] then s
    else
      var n := |alerts| - 1;
      AfterAlert(AfterAlerts(s, alerts[..n]), alerts[n])
  }

  function AfterProcess(s: Session, alerts: seq<Alert>): (r: Session)
    ensures r.table == Process(s.table, alerts).0 && r.open == s.open
    ensures r.history.torrentIds == s.history.torrentIds && r.history.requestIds == s.history.requestIds
    ensures r.history.takenBack == s.history.takenBack && r.history.delivered == s.history.delivered
    ensures r.history.handovers == s.history.handovers
  {
    var n := |Recorded(alerts)|;
    var p := AfterAlerts(s, alerts[..n]);
    var q := if n == |alerts| then p.(table := Process(s.table, alerts).0) else AfterServe(p, alerts[n]);
    q.(history := q.history.(popped := s.history.popped + Snapshots(s.table.torrents, alerts)))
  }

  /** A closed session refuses every call and keeps its state. */
  function Step(s: Session, call: Call): Session
  {
    if !s.open then s
    else match call
      case AddTorrent(outcome) =>
        var t := Add(s.table, outcome).0;
        s.(table := t, history := s.history.(torrentIds := s.history.torrentIds +
          if t.nextTorrentId != s.table.nextTorrentId then [s.table.nextTorrentId] else []))
      case RemoveTorrent(id, nativeOk) => s.(table := Remove(s.table, id, nativeOk).0)
      case SaveResumeData(id, nativeOk) =>
        if FindActive(s.table.torrents, id).None? then s
        else
          var request := s.table.nextRequestId;
          s.(table := SaveResume(s.table, id, nativeOk).0,
             history := s.history.(
               requestIds := s.history.requestIds + [request],
               takenBack := s.history.takenBack + if nativeOk then {} else {request}))
      case PollResumeData(id, alerts) =>
        var p := AfterProcess(s, alerts);
        var (t, result) := Poll(s.table, alerts, id);
        p.(table := t, history := p.history.(delivered := p.history.delivered +
          if result.Delivered? then [Delivery(id, result.status)] else []))
      case SnapshotSession(alerts, readable) =>
        var p := AfterProcess(s, alerts);
        var (t, result) := Snapshot(s.table, alerts, readable);
        p.(table := t, history :=
          if result.None? then p.history
          else p.history.(
            handovers := p.history.handovers + [Handover(p.history.since, result.value.1)], since := [], popped := []))
      case Shutdown => s.(open := false)
  }

  function Run(calls: seq<Call>): Session
  {
    if calls == [] then START else Step(Run(calls[..|calls| - 1]), calls[|calls| - 1])
  }

  // ---- torrent records ------------------------------------------------------------------------------

  /** Ids come from a 64-bit counter that starts at 1: the k-th one numbered is k modulo 2^64. */
  ghost predicate Numbered(ids: seq<u64>, next: u64)
  {
    && next == (|ids| + 1) % U64_LIMIT
    && forall k :: 0 <= k < |ids| ==> ids[k] == (k + 1) % U64_LIMIT
  }

  ghost predicate Ascending(torrents: seq<TorrentRecord>)
  {
    forall i, j :: 0 <= i < j < |torrents| ==> torrents[i].id < torrents[j].id
  }

  ghost predicate IssuedAmong(torrents: seq<TorrentRecord>, ids: seq<u64>)
  {
    forall i :: 0 <= i < |torrents| ==> 0 < torrents[i].id <= |ids|
  }

  /** No native torrent has two active records. */
  ghost predicate OneActivePerHandle(torrents: seq<TorrentRecord>)
  {
    forall i, j :: 0 <= i < j < |torrents| && torrents[i].active && torrents[j].active ==>
      torrents[i].handle != torrents[j].handle
  }

  /** As long as fewer than 2^64 torrents were numbered, table ids are nonzero and ascending. */
  ghost predicate TorrentsKept(s: Session)
  {
    && Numbered(s.history.torrentIds, s.table.nextTorrentId)
    && OneActivePerHandle(s.table.torrents)
    && (|s.history.torrentIds| < U64_LIMIT ==>
          Ascending(s.table.torrents) && IssuedAmong(s.table.torrents, s.history.torrentIds))
  }

  lemma {:induction false} PurgeMembers(torrents: seq<TorrentRecord>, removals: seq<u64>, r: TorrentRecord)
    ensures r in Purge(torrents, removals) <==> r in torrents && !(!r.active && r.id in removals)
  {
    if torrents != [] {
      var n := |torrents| - 1;
      PurgeMembers(torrents[..n], removals, r);
      assert torrents == torrents[..n] + [torrents[n]];
    }
  }

  lemma {:induction false} PurgeKeepsShape(torrents: seq<TorrentRecord>, removals: seq<u64>)
    ensures Ascending(torrents) ==> Ascending(Purge(torrents, removals))
    ensures OneActivePerHandle(torrents) ==> OneActivePerHandle(Purge(torrents, removals))
  {
    if torrents != [] {
      var n := |torrents| - 1;
      var front := torrents[..n];
      PurgeKeepsShape(front, removals);
      var kept := Purge(front, removals);
      forall i | 0 <= i < |kept| ensures exists k :: 0 <= k < n && torrents[k] == kept[i] {
        PurgeMembers(front, removals, kept[i]);
        assert kept[i] in front;
      }
    }
  }

  /** Two ids numbered at different times are equal only when 2^64 calls or more lie between
      them, and an id is zero only at a multiple of 2^64: below that bound none is reissued. */
  lemma NeverReissued(ids: seq<u64>, next: u64, j: nat, k: nat)
    requires Numbered(ids, next) && j < k < |ids|
    ensures ids[j] == ids[k] <==> (k - j) % U64_LIMIT == 0
    ensures ids[k] == 0 <==> (k + 1) % U64_LIMIT == 0
    ensures |ids| < U64_LIMIT ==> 0 < ids[j] < ids[k]
  {
    var a, b := j + 1, k + 1;
    assert a == a / U64_LIMIT * U64_LIMIT + a % U64_LIMIT;
    assert b == b / U64_LIMIT * U64_LIMIT + b % U64_LIMIT;
    if a % U64_LIMIT == b % U64_LIMIT {
      MultipleRemainder(b / U64_LIMIT - a / U64_LIMIT);
      assert k - j == (b / U64_LIMIT - a / U64_LIMIT) * U64_LIMIT;
    }
  }

  lemma MultipleRemainder(m: int)
    ensures (m * U64_LIMIT) % U64_LIMIT == 0
  {
  }

  lemma NextNumbered(ids: seq<u64>, next: u64)
    requires Numbered(ids, next)
    ensures Numbered(ids + [next], Next(next)) && Next(next) != next
    ensures |ids| + 1 < U64_LIMIT ==> next == |ids| + 1
  {
    var n := |ids| + 1;
    assert n == n / U64_LIMIT * U64_LIMIT + n % U64_LIMIT;
    assert (n + 1) % U64_LIMIT == (n % U64_LIMIT + 1) % U64_LIMIT;
  }

  lemma PushKeepsTorrents(torrents: seq<TorrentRecord>, ids: seq<u64>, handle: Handle)
    requires |ids| + 1 < U64_LIMIT && Ascending(torrents) && IssuedAmong(torrents, ids)
    ensures Ascending(torrents + [TorrentRecord(|ids| + 1, handle, true)])
    ensures IssuedAmong(torrents + [TorrentRecord(|ids| + 1, handle, true)], ids + [|ids| + 1])
  {
  }

  lemma AddKeepsTorrents(s: Session, outcome: AddOutcome)
    requires TorrentsKept(s) && s.open
    ensures TorrentsKept(Step(s, AddTorrent(outcome)))
  {
    hide Numbered, Next, Ascending, IssuedAmong;
    var ids, next := s.history.torrentIds, s.table.nextTorrentId;
    NextNumbered(ids, next);
    assert ids + [] == ids;
    if outcome.Added? && |ids| + 1 < U64_LIMIT {
      PushKeepsTorrents(s.table.torrents, ids, outcome.handle);
      assert IssuedAmong(s.table.torrents, ids + [next]) by { IssuedMore(s.table.torrents, ids, next); }
    }
  }

  lemma IssuedMore(torrents: seq<TorrentRecord>, ids: seq<u64>, next: u64)
    requires IssuedAmong(torrents, ids)
    ensures IssuedAmong(torrents, ids + [next])
  {
  }

  lemma PurgedTorrentsKept(s: Session, alerts: seq<Alert>)
    requires TorrentsKept(s)
    ensures TorrentsKept(AfterProcess(s, alerts))
  {
    var removals := Removals(s.table.torrents, alerts);
    PurgeKeepsShape(s.table.torrents, removals);
    var purged := Purge(s.table.torrents, removals);
    if |s.history.torrentIds| < U64_LIMIT {
      forall i | 0 <= i < |purged| ensures 0 < purged[i].id <= |s.history.torrentIds| {
        PurgeMembers(s.table.torrents, removals, purged[i]);
        assert purged[i] in s.table.torrents;
      }
    }
  }

  /** Identifiers are about the torrent records alone. */
  lemma OnlyTorrentsMatter(p: Session, q: Session)
    requires p.table.torrents == q.table.torrents && p.table.nextTorrentId == q.table.nextTorrentId
    requires p.history.torrentIds == q.history.torrentIds
    ensures TorrentsKept(p) <==> TorrentsKept(q)
  {
  }

  lemma RemoveKeepsTorrents(s: Session, id: u64, nativeOk: bool)
    requires TorrentsKept(s) && s.open
    ensures TorrentsKept(Step(s, RemoveTorrent(id, nativeOk)))
  {
    hide Numbered;
  }

  lemma StepKeepsTorrents(s: Session, call: Call)
    requires TorrentsKept(s)
    ensures TorrentsKept(Step(s, call))
  {
    hide TorrentsKept, Process, AfterProcess, Poll, Snapshot, Add, Remove;
    if s.open {
      match call
      case AddTorrent(outcome) => AddKeepsTorrents(s, outcome);
      case RemoveTorrent(id, nativeOk) => RemoveKeepsTorrents(s, id, nativeOk);
      case SaveResumeData(_, _) => OnlyTorrentsMatter(s, Step(s, call));
      case PollResumeData(_, alerts) =>
        PurgedTorrentsKept(s, alerts);
        OnlyTorrentsMatter(AfterProcess(s, alerts), Step(s, call));
      case SnapshotSession(alerts, _) =>
        PurgedTorrentsKept(s, alerts);
        OnlyTorrentsMatter(AfterProcess(s, alerts), Step(s, call));
      case Shutdown => OnlyTorrentsMatter(s, Step(s, call));
    }
  }

  /** Every run keeps torrent ids nonzero and ascending along the table, at most one active
      record per native torrent, and numbers the k-th torrent k. */
  lemma {:induction false} RunKeepsTorrents(calls: seq<Call>)
    ensures TorrentsKept(Run(calls))
  {
    if calls != [] {
      RunKeepsTorrents(calls[..|calls| - 1]);
      StepKeepsTorrents(Run(calls[..|calls| - 1]), calls[|calls| - 1]);
    }
  }

  lemma {:induction false} RemovalsMeaning(torrents: seq<TorrentRecord>, alerts: seq<Alert>, id: u64)
    ensures id in Removals(torrents, alerts) <==>
              id != 0 && exists a ::
                a in alerts && a.TorrentAlert? && a.event.TorrentRemoved? && IdForHandle(torrents, a.handle) == id
  {
    if alerts != [] {
      var n := |alerts| - 1;
      RemovalsMeaning(torrents, alerts[..n], id);
      assert alerts == alerts[..n] + [alerts[n]];
    }
  }

  /** Processing alerts erases exactly the inactive records whose removal alert is among them,
      and these only when every text of the batch is readable: one that is not keeps them all. */
  lemma ErasedExactly(t: Table, alerts: seq<Alert>, r: TorrentRecord)
    requires r in t.torrents
    ensures r !in Process(t, alerts).0.torrents <==>
              && AllReadable(alerts)
              && !r.active && r.id != 0
              && exists a ::
                 a in alerts && a.TorrentAlert? && a.event.TorrentRemoved? && IdForHandle(t.torrents, a.handle) == r.id
  {
    hide Readable;
    PurgeMembers(t.torrents, Removals(t.torrents, alerts), r);
    RemovalsMeaning(t.torrents, alerts, r.id);
  }

  // ---- backlog ------------------------------------------------------------------------------------------

  /** The latest `n` entries of `s`. */
  function Latest<T>(s: seq<T>, n: nat): seq<T>
  {
    if |s| <= n then s else s[|s| - n..]
  }

  ghost predicate ReadableTexts(snapshots: seq<AlertSnapshot>)
  {
    forall i :: 0 <= i < |snapshots| ==> ValidUtf8(snapshots[i].text)
  }

  /** The backlog is the latest of what was recorded; and what was recorded is all that was
      popped exactly as long as every popped text could be read. */
  ghost predicate BacklogIsLatest(s: Session)
  {
    && s.table.backlog == Latest(s.history.since, 4096)
    && ReadableTexts(s.history.since)
    && |s.history.since| <= |s.history.popped|
    && (s.history.since == s.history.popped <==> ReadableTexts(s.history.popped))
  }

  lemma {:induction false} AlertsRecorded(s: Session, alerts: seq<Alert>)
    requires s.table.backlog == Latest(s.history.since, MAX_BACKLOG)
    ensures var p := AfterAlerts(s, alerts);
      && p.history.since == s.history.since + Snapshots(s.table.torrents, alerts)
      && p.table.backlog == Latest(p.history.since, MAX_BACKLOG)
  {
    hide CompletionOf, Served, SnapshotOf;
    if alerts == [] {
      assert s.history.since + [] == s.history.since;
    } else {
      var n := |alerts| - 1;
      AlertsRecorded(s, alerts[..n]);
      assert Snapshots(s.table.torrents, alerts) ==
        Snapshots(s.table.torrents, alerts[..n]) + [SnapshotOf(s.table.torrents, alerts[n])];
    }
  }

  lemma SnapshotText(torrents: seq<TorrentRecord>, alert: Alert)
    ensures SnapshotOf(torrents, alert).text == alert.text
  {
  }

  lemma ReadableBatch(torrents: seq<TorrentRecord>, alerts: seq<Alert>)
    ensures ReadableTexts(Snapshots(torrents, alerts)) <==> AllReadable(alerts)
  {
    hide ValidUtf8, SnapshotOf;
    forall i | 0 <= i < |alerts| ensures Snapshots(torrents, alerts)[i].text == alerts[i].text {
      SnapshotText(torrents, alerts[i]);
    }
    if ReadableTexts(Snapshots(torrents, alerts)) {
      forall i | 0 <= i < |alerts| ensures Readable(alerts[i]) {
        assert ValidUtf8(Snapshots(torrents, alerts)[i].text);
      }
    }
  }

  lemma ReadableJoin(a: seq<AlertSnapshot>, b: seq<AlertSnapshot>)
    ensures ReadableTexts(a + b) <==> ReadableTexts(a) && ReadableTexts(b)
  {
    hide ValidUtf8;
    if ReadableTexts(a + b) {
      forall i | 0 <= i < |a| ensures ValidUtf8(a[i].text) { assert (a + b)[i] == a[i]; }
      forall i | 0 <= i < |b| ensures ValidUtf8(b[i].text) { assert (a + b)[|a| + i] == b[i]; }
    }
  }

  lemma BatchKeepsBacklog(s: Session, alerts: seq<Alert>)
    requires BacklogIsLatest(s)
    ensures BacklogIsLatest(AfterProcess(s, alerts))
    ensures var p := AfterProcess(s, alerts);
      && p.history.since == s.history.since + Snapshots(s.table.torrents, Recorded(alerts))
      && p.history.popped == s.history.popped + Snapshots(s.table.torrents, alerts)
  {
    hide CompletionOf, Served, ReadableTexts, Latest, HandleAlerts, Purge, Removals;
    var n, torrents := |Recorded(alerts)|, s.table.torrents;
    var p := AfterProcess(s, alerts);
    AlertsRecorded(s, alerts[..n]);
    assert Recorded(alerts) == alerts[..n];
    var since, popped := s.history.since, s.history.popped;
    var now, all := Snapshots(torrents, alerts[..n]), Snapshots(torrents, alerts);
    ReadableBatch(torrents, alerts[..n]);
    ReadableBatch(torrents, alerts);
    ReadableJoin(since, now);
    ReadableJoin(popped, all);
    assert n == |alerts| ==> alerts[..n] == alerts;
    if since + now == popped + all {
      assert |since| == |popped| && |now| == |all|;
      assert since == (since + now)[..|since|] && popped == (popped + all)[..|popped|];
    }
  }

  lemma StepKeepsBacklog(s: Session, call: Call)
    requires BacklogIsLatest(s)
    ensures BacklogIsLatest(Step(s, call))
  {
    hide BacklogIsLatest, Process, AfterProcess, Poll, Add, Remove, SaveResume;
    if s.open {
      match call
      case PollResumeData(_, alerts) =>
        BatchKeepsBacklog(s, alerts);
        OnlyBacklogMatters(AfterProcess(s, alerts), Step(s, call));
      case SnapshotSession(alerts, readable) =>
        BatchKeepsBacklog(s, alerts);
        var n := Step(s, call);
        if Snapshot(s.table, alerts, readable).1.Some? {
          ClearedBacklog(n);
        } else {
          OnlyBacklogMatters(AfterProcess(s, alerts), n);
        }
      case _ => StepKeepsAlerts(s, call);
    }
  }

  lemma OnlyBacklogMatters(p: Session, q: Session)
    requires p.table.backlog == q.table.backlog && p.history.since == q.history.since
             && p.history.popped == q.history.popped
    ensures BacklogIsLatest(p) <==> BacklogIsLatest(q)
  {
  }

  lemma ClearedBacklog(s: Session)
    requires s.table.backlog == [] && s.history.since == [] && s.history.popped == []
    ensures BacklogIsLatest(s)
  {
  }

  lemma StepKeepsAlerts(s: Session, call: Call)
    requires BacklogIsLatest(s) && !call.PollResumeData? && !call.SnapshotSession?
    ensures BacklogIsLatest(Step(s, call))
  {
    OnlyBacklogMatters(s, Step(s, call));
    hide BacklogIsLatest;
  }

  /** The backlog is always the last at most 4096 recorded alerts since the last successful
      snapshot, and the recorded alerts are all that were popped since then if and only if each
      popped text is UTF-8. */
  lemma {:induction false} RunKeepsBacklog(calls: seq<Call>)
    ensures BacklogIsLatest(Run(calls))
  {
    if calls != [] {
      hide BacklogIsLatest, Step;
      RunKeepsBacklog(calls[..|calls| - 1]);
      StepKeepsBacklog(Run(calls[..|calls| - 1]), calls[|calls| - 1]);
    }
  }

  // ---- resume requests -------------------------------------------------------------------------------------

  ghost predicate DeliveredId(d: seq<Delivery>, id: u64)
  {
    exists i :: 0 <= i < |d| && d[i].id == id
  }

  ghost predicate TableId(requests: seq<ResumeRecord>, id: u64)
  {
    exists i :: 0 <= i < |requests| && requests[i].id == id
  }

  /** Every numbered request is in exactly one place: taken back, waiting or finished in the
      table, or delivered; the table is in order of issue and nothing is delivered twice. */
  ghost predicate Conserved(t: Table, h: History)
  {
    && (forall i, j :: 0 <= i < j < |t.requests| ==> t.requests[i].id < t.requests[j].id)
    && (forall i, j :: 0 <= i < j < |h.delivered| ==> h.delivered[i].id != h.delivered[j].id)
    && (forall i :: 0 <= i < |h.delivered| ==> !h.delivered[i].status.Pending?)
    && (forall id: u64 :: TableId(t.requests, id) ==> !DeliveredId(h.delivered, id) && id !in h.takenBack)
    && (forall id: u64 :: DeliveredId(h.delivered, id) ==> id !in h.takenBack)
    && (forall id: u64 :: TableId(t.requests, id) || DeliveredId(h.delivered, id) || id in h.takenBack <==>
          0 < id <= |h.requestIds|)
  }

  /** Requests of one handle finish in order of issue: each finished one is older than every
      later finished one and than every one still pending. */
  ghost predicate FirstInFirstOut(t: Table, h: History)
  {
    && (forall i, j :: 0 <= i < j < |h.finished| && h.finished[i].handle == h.finished[j].handle ==>
          h.finished[i].id < h.finished[j].id)
    && (forall i, k :: 0 <= i < |h.finished| && 0 <= k < |t.requests| ==>
          t.requests[k].status.Pending? && h.finished[i].handle == t.requests[k].handle ==>
            h.finished[i].id < t.requests[k].id)
    && (forall i :: 0 <= i < |h.finished| ==> 0 < h.finished[i].id <= |h.requestIds|)
  }

  ghost predicate RequestsKept(s: Session)
  {
    && Numbered(s.history.requestIds, s.table.nextRequestId)
    && (|s.history.requestIds| < U64_LIMIT ==> Conserved(s.table, s.history) && FirstInFirstOut(s.table, s.history))
  }

  lemma ServeKeepsConserved(s: Session, alert: Alert)
    requires Conserved(s.table, s.history)
    ensures Conserved(AfterServe(s, alert).table, AfterServe(s, alert).history)
  {
    var r, q := s.table.requests, AfterServe(s, alert).table.requests;
    assert |r| == |q| && forall i :: 0 <= i < |r| ==> r[i].id == q[i].id;
    forall id: u64 ensures TableId(q, id) <==> TableId(r, id) {
      if TableId(q, id) { var i :| 0 <= i < |q| && q[i].id == id; assert r[i].id == id; }
      if TableId(r, id) { var i :| 0 <= i < |r| && r[i].id == id; assert q[i].id == id; }
    }
  }

  lemma ServeKeepsOrder(s: Session, alert: Alert)
    requires Conserved(s.table, s.history) && FirstInFirstOut(s.table, s.history)
    ensures FirstInFirstOut(AfterServe(s, alert).table, AfterServe(s, alert).history)
  {
    var c := CompletionOf(s.table.requests, alert, |s.history.served|);
    if c != [] {
      var i := FindPending(s.table.requests, alert.handle).value;
      assert TableId(s.table.requests, s.table.requests[i].id);
    }
  }

  lemma ServeKeepsRequests(s: Session, alert: Alert)
    requires RequestsKept(s)
    ensures RequestsKept(AfterServe(s, alert))
  {
    hide Conserved, FirstInFirstOut, Numbered;
    if |s.history.requestIds| < U64_LIMIT {
      ServeKeepsConserved(s, alert);
      ServeKeepsOrder(s, alert);
    }
  }

  lemma {:induction false} AlertsKeepRequests(s: Session, alerts: seq<Alert>)
    requires RequestsKept(s)
    ensures RequestsKept(AfterAlerts(s, alerts))
  {
    hide RequestsKept, CompletionOf, Served;
    if alerts != [] {
      var n := |alerts| - 1;
      var p := AfterAlerts(s, alerts[..n]);
      AlertsKeepRequests(s, alerts[..n]);
      ServeKeepsRequests(p, alerts[n]);
      OnlyRequestsMatter(AfterServe(p, alerts[n]), AfterAlert(p, alerts[n]));
    }
  }

  lemma BatchKeepsRequests(s: Session, alerts: seq<Alert>)
    requires RequestsKept(s)
    ensures RequestsKept(AfterProcess(s, alerts))
  {
    hide RequestsKept, CompletionOf, Served, Purge, Removals;
    var n := |Recorded(alerts)|;
    var p := AfterAlerts(s, alerts[..n]);
    AlertsKeepRequests(s, alerts[..n]);
    if n == |alerts| {
      OnlyRequestsMatter(p, AfterProcess(s, alerts));
    } else {
      ServeKeepsRequests(p, alerts[n]);
      OnlyRequestsMatter(AfterServe(p, alerts[n]), AfterProcess(s, alerts));
    }
  }

  lemma SaveKeepsRequests(s: Session, id: u64, nativeOk: bool)
    requires RequestsKept(s) && s.open
    ensures RequestsKept(Step(s, SaveResumeData(id, nativeOk)))
  {
    if FindActive(s.table.torrents, id).Some? {
      var n := Step(s, SaveResumeData(id, nativeOk));
      var h := s.history;
      NextNumbered(h.requestIds, s.table.nextRequestId);
      hide Numbered, Next, Conserved, FirstInFirstOut;
      if |n.history.requestIds| < U64_LIMIT {
        var issued := s.table.nextRequestId;
        assert issued == |h.requestIds| + 1;
        SaveKeepsConserved(s, n, issued, nativeOk);
      }
    }
  }

  lemma SaveKeepsConserved(s: Session, n: Session, issued: u64, nativeOk: bool)
    requires Conserved(s.table, s.history) && FirstInFirstOut(s.table, s.history)
    requires issued == |s.history.requestIds| + 1
    requires n.history == s.history.(requestIds := s.history.requestIds + [issued],
                                     takenBack := s.history.takenBack + if nativeOk then {} else {issued})
    requires nativeOk ==> exists h: Handle :: n.table.requests == s.table.requests + [ResumeRecord(issued, h, Pending)]
    requires !nativeOk ==> n.table.requests == s.table.requests
    ensures Conserved(n.table, n.history) && FirstInFirstOut(n.table, n.history)
  {
    var r, q := s.table.requests, n.table.requests;
    forall i | 0 <= i < |r| ensures 0 < r[i].id < issued { assert TableId(r, r[i].id); }
    forall id: u64 ensures TableId(q, id) <==> TableId(r, id) || (nativeOk && id == issued) {
      if TableId(r, id) { var i :| 0 <= i < |r| && r[i].id == id; assert q[i].id == id; }
      if nativeOk && id == issued { assert q[|r|].id == id; }
    }
    assert !TableId(r, issued) && !DeliveredId(s.history.delivered, issued) && issued !in s.history.takenBack;
  }

  lemma PollKeepsRequests(s: Session, id: u64, alerts: seq<Alert>)
    requires RequestsKept(s) && s.open
    ensures RequestsKept(Step(s, PollResumeData(id, alerts)))
  {
    hide Conserved, FirstInFirstOut, Numbered, Process, AfterProcess;
    BatchKeepsRequests(s, alerts);
    var p := AfterProcess(s, alerts);
    var n := Step(s, PollResumeData(id, alerts));
    assert p.history.delivered + [] == p.history.delivered;
    var found := FindRequest(p.table.requests, id);
    if |s.history.requestIds| < U64_LIMIT && Poll(s.table, alerts, id).1.Delivered? {
      DeliverKeepsConserved(p, n, id, found.value);
    }
  }

  /** Conservation and order are about the requests alone. */
  lemma OnlyRequestsMatter(p: Session, q: Session)
    requires p.table.requests == q.table.requests && p.table.nextRequestId == q.table.nextRequestId
    requires q.history ==
             p.history.(since := q.history.since, popped := q.history.popped, torrentIds := q.history.torrentIds,
                        recorded := q.history.recorded, handovers := q.history.handovers)
    ensures RequestsKept(p) <==> RequestsKept(q)
  {
  }

  lemma TakenFromTable(r: seq<ResumeRecord>, q: seq<ResumeRecord>, id: u64, i: nat)
    requires forall i, j :: 0 <= i < j < |r| ==> r[i].id < r[j].id
    requires i < |r| && r[i].id == id && q == r[..i] + r[i + 1..]
    ensures forall x: u64 :: TableId(q, x) <==> TableId(r, x) && x != id
  {
    assert forall k :: 0 <= k < |q| ==> q[k] == r[if k < i then k else k + 1];
    forall x: u64 ensures TableId(q, x) <==> TableId(r, x) && x != id {
      if TableId(r, x) && x != id {
        var k :| 0 <= k < |r| && r[k].id == x;
        assert q[if k < i then k else k - 1].id == x;
      }
    }
  }

  lemma DeliverKeepsConserved(p: Session, n: Session, id: u64, i: nat)
    requires Conserved(p.table, p.history) && FirstInFirstOut(p.table, p.history)
    requires i < |p.table.requests| && p.table.requests[i].id == id && !p.table.requests[i].status.Pending?
    requires n.table.requests == p.table.requests[..i] + p.table.requests[i + 1..]
    requires n.history == p.history.(delivered := p.history.delivered + [Delivery(id, p.table.requests[i].status)])
    ensures Conserved(n.table, n.history) && FirstInFirstOut(n.table, n.history)
  {
    TakenFromTable(p.table.requests, n.table.requests, id, i);
    var r, q := p.table.requests, n.table.requests;
    var d, e := p.history.delivered, n.history.delivered;
    assert TableId(r, id);
    assert forall k :: 0 <= k < |q| ==> q[k] == r[if k < i then k else k + 1];
    forall x: u64 ensures DeliveredId(e, x) <==> DeliveredId(d, x) || x == id {
      if DeliveredId(d, x) { var k :| 0 <= k < |d| && d[k].id == x; assert e[k].id == x; }
      if x == id { assert e[|d|].id == x; }
    }
    forall k | 0 <= k < |d| ensures d[k].id != id { assert DeliveredId(d, d[k].id); }
  }

  lemma StepKeepsRequests(s: Session, call: Call)
    requires RequestsKept(s)
    ensures RequestsKept(Step(s, call))
  {
    hide Conserved, FirstInFirstOut, Numbered;
    if s.open {
      match call
      case AddTorrent(outcome) => OnlyRequestsMatter(s, Step(s, call));
      case RemoveTorrent(_, _) => OnlyRequestsMatter(s, Step(s, call));
      case SaveResumeData(id, nativeOk) => SaveKeepsRequests(s, id, nativeOk);
      case PollResumeData(id, alerts) => PollKeepsRequests(s, id, alerts);
      case SnapshotSession(alerts, _) =>
        BatchKeepsRequests(s, alerts);
        OnlyRequestsMatter(AfterProcess(s, alerts), Step(s, call));
      case Shutdown =>
    }
  }

  /** Every run conserves resume requests and serves each handle first in, first out. */
  lemma {:induction false} RunKeepsRequests(calls: seq<Call>)
    ensures RequestsKept(Run(calls))
  {
    if calls != [] {
      RunKeepsRequests(calls[..|calls| - 1]);
      StepKeepsRequests(Run(calls[..|calls| - 1]), calls[|calls| - 1]);
    }
  }

  /** The ids still pending for a handle, oldest first. */
  function Queue(requests: seq<ResumeRecord>, handle: Handle): seq<u64>
  {
    if requests == [] then []
    else
      (if requests[0].status.Pending? && requests[0].handle == handle then [requests[0].id] else [])
      + Queue(requests[1..], handle)
  }

  /** Serving an alert takes the front of its handle's queue and touches no other queue: the
      table refines one first-in first-out queue per native torrent. */
  lemma {:induction false} ServeTakesFront(requests: seq<ResumeRecord>, handle: Handle, status: Status, other: Handle)
    requires !status.Pending?
    ensures var after := Queue(Serve(requests, handle, status), other);
      after ==
      if other == handle && Queue(requests, handle) != [] then Queue(requests, handle)[1..] else Queue(requests, other)
  {
    if requests != [] {
      var rest := requests[1..];
      ServeTakesFront(rest, handle, status, other);
      var i := FindPending(requests, handle);
      if i == Some(0) {
        assert Serve(requests, handle, status)[1..] == rest;
      } else {
        assert Serve(requests, handle, status)[0] == requests[0];
        assert Serve(requests, handle, status)[1..] == Serve(rest, handle, status);
        if i.None? { NothingQueued(requests, handle); }
      }
    }
  }

  lemma {:induction false} NothingQueued(requests: seq<ResumeRecord>, handle: Handle)
    ensures Queue(requests, handle) == [] <==> FindPending(requests, handle).None?
  {
    if requests != [] { NothingQueued(requests[1..], handle); }
  }

  lemma {:induction false} QueueConcat(a: seq<ResumeRecord>, b: seq<ResumeRecord>, handle: Handle)
    ensures Queue(a + b, handle) == Queue(a, handle) + Queue(b, handle)
  {
    if a == [] {
      assert a + b == b;
    } else {
      assert (a + b)[0] == a[0] && (a + b)[1..] == a[1..] + b;
      QueueConcat(a[1..], b, handle);
      var head := if a[0].status.Pending? && a[0].handle == handle then [a[0].id] else [];
      Assoc(head, Queue(a[1..], handle), Queue(b, handle));
    }
  }

  /** Saving enqueues the new request at the back of its torrent's queue. */
  lemma SaveEnqueues(t: Table, id: u64, other: Handle)
    requires FindActive(t.torrents, id).Some?
    ensures var handle := t.torrents[FindActive(t.torrents, id).value].handle;
      Queue(SaveResume(t, id, true).0.requests, other) ==
        Queue(t.requests, other) + if other == handle then [t.nextRequestId] else []
  {
    var handle := t.torrents[FindActive(t.torrents, id).value].handle;
    var record := ResumeRecord(t.nextRequestId, handle, Pending);
    QueueConcat(t.requests, [record], other);
    assert [record][1..] == [];
  }

  /** A finished request keeps its status through every alert until it is delivered. */
  lemma {:induction false} FinishedOnce(t: Table, alerts: seq<Alert>, i: nat)
    requires i < |t.requests| && !t.requests[i].status.Pending?
    ensures |HandleAlerts(t, alerts).requests| == |t.requests|
    ensures HandleAlerts(t, alerts).requests[i] == t.requests[i]
  {
    if alerts != [] { FinishedOnce(t, alerts[..|alerts| - 1], i); }
  }
}
