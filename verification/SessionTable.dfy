/** The native torrent session behind its facade: identifiers, two-phase removal, resume
    requests matched to asynchronous alerts, and a bounded alert backlog. What each call
    does to the facade's table, and what every run of calls keeps. */
module SessionTable {
  import opened Bytes
  import opened Outcomes
  import opened Sequences

  /** The identity of a native torrent object. The native library may answer with any. */
  type Handle = nat

  datatype TorrentRecord = TorrentRecord(id: u64, handle: Handle, active: bool)

  datatype Status = Pending | Saved(bytes: seq<byte>) | Failed(message: seq<byte>)

  datatype ResumeRecord = ResumeRecord(id: u64, handle: Handle, status: Status)

  /** What becomes of the parameters of a saved-resume-data alert. */
  datatype Serialized = Buffer(bytes: seq<byte>) | Threw(message: seq<byte>)

  datatype TorrentEvent =
    | ResumeSaved(outcome: Serialized)
    | ResumeFailed(message: seq<byte>)
    | TorrentRemoved
    | OtherEvent

  /** Texts are whatever bytes the native library prints, a tracker's own words among them. */
  datatype Alert = SessionAlert(text: seq<byte>) | TorrentAlert(handle: Handle, event: TorrentEvent, text: seq<byte>)

  /** `torrentId` is 0 when the alert belongs to no known torrent. */
  datatype AlertSnapshot = AlertSnapshot(text: seq<byte>, torrentId: u64)

  const MAX_BACKLOG: nat := 4096
  const MAX_RESUME_BYTES: nat := 16 * 1024 * 1024

  datatype Table = Table(
    nextTorrentId: u64,
    nextRequestId: u64,
    torrents: seq<TorrentRecord>,
    requests: seq<ResumeRecord>,
    backlog: seq<AlertSnapshot>)

  const EMPTY: Table := Table(1, 1, [], [], [])

  /** Post-increment of a 64-bit counter. */
  function Next(n: u64): u64
  {
    (n + 1) % U64_LIMIT
  }

  // ---- searches: each is a `find_if` ----------------------------------------------------------

  function FindActive(torrents: seq<TorrentRecord>, id: u64): Option<nat>
  {
    Find(torrents, (r: TorrentRecord) => r.id == id && r.active)
  }

  function FindActiveHandle(torrents: seq<TorrentRecord>, handle: Handle): Option<nat>
  {
    Find(torrents, (r: TorrentRecord) => r.handle == handle && r.active)
  }

  /** `torrent_id_for_handle`: the first record, active or not. */
  function IdForHandle(torrents: seq<TorrentRecord>, handle: Handle): (id: u64)
    ensures id != 0 ==> exists i :: 0 <= i < |torrents| && torrents[i].id == id && torrents[i].handle == handle
  {
    match Find(torrents, (r: TorrentRecord) => r.handle == handle)
    case None => 0
    case Some(i) => torrents[i].id
  }

  function FindPending(requests: seq<ResumeRecord>, handle: Handle): Option<nat>
  {
    Find(requests, (r: ResumeRecord) => r.status.Pending? && r.handle == handle)
  }

  function FindRequest(requests: seq<ResumeRecord>, id: u64): Option<nat>
  {
    Find(requests, (r: ResumeRecord) => r.id == id)
  }

  // ---- calls ------------------------------------------------------------------------------------

  /** How the native side treats an added torrent: it may refuse it, and reading the new
      record's state may throw, as may taking the torrent back out after that. */
  datatype AddOutcome = Refused | Added(handle: Handle, readable: bool, removable: bool)

  datatype AddResult = AddFailed | AddedTorrent(id: u64)

  /** `add_parameters`. */
  function Add(t: Table, outcome: AddOutcome): (Table, AddResult)
  {
    match outcome
    case Refused => (t, AddFailed)
    case Added(handle, readable, removable) =>
      match FindActiveHandle(t.torrents, handle)
      case Some(i) => (t, if readable then AddedTorrent(t.torrents[i].id) else AddFailed)
      case None =>
        var numbered := t.(nextTorrentId := Next(t.nextTorrentId));
        var pushed := numbered.(torrents := t.torrents + [TorrentRecord(t.nextTorrentId, handle, true)]);
        if readable then (pushed, AddedTorrent(t.nextTorrentId))
        else if removable then (numbered, AddFailed)
        else (pushed, AddFailed)
  }

  /** `remove_torrent`: the record stays, inactive, until the removal alert. */
  function Remove(t: Table, id: u64, nativeOk: bool): (Table, bool)
  {
    match FindActive(t.torrents, id)
    case None => (t, false)
    case Some(i) =>
      if nativeOk then (t.(torrents := t.torrents[i := t.torrents[i].(active := false)]), true) else (t, false)
  }

  /** `save_resume_data`. */
  function SaveResume(t: Table, id: u64, nativeOk: bool): (Table, Option<u64>)
  {
    match FindActive(t.torrents, id)
    case None => (t, None)
    case Some(i) =>
      var numbered := t.(nextRequestId := Next(t.nextRequestId));
      if nativeOk then
        (numbered.(requests := t.requests + [ResumeRecord(t.nextRequestId, t.torrents[i].handle, Pending)]),
         Some(t.nextRequestId))
      else (numbered, None)
  }

  /** The status a resume alert gives the request it serves. */
  function AlertStatus(event: TorrentEvent): (r: Option<Status>)
    ensures r.Some? ==> !r.value.Pending?
  {
    match event
    case ResumeSaved(Buffer(bytes)) =>
      Some(if |bytes| > MAX_RESUME_BYTES then Failed(Ascii("saved resume data exceeds the size limit"))
           else Saved(bytes))
    case ResumeSaved(Threw(message)) => Some(Failed(Ascii("serializing saved resume data: ") + message))
    case ResumeFailed(message) => Some(Failed(message))
    case _ => None
  }

  /** `complete_resume_request` and `fail_resume_request`: the first pending request of the handle. */
  function Serve(requests: seq<ResumeRecord>, handle: Handle, status: Status): (r: seq<ResumeRecord>)
    ensures |r| == |requests|
  {
    match FindPending(requests, handle)
    case None => requests
    case Some(i) => requests[i := requests[i].(status := status)]
  }

  function Served(requests: seq<ResumeRecord>, alert: Alert): (r: seq<ResumeRecord>)
    ensures |r| == |requests|
  {
    match alert
    case SessionAlert(_) => requests
    case TorrentAlert(handle, event, _) =>
      match AlertStatus(event)
      case None => requests
      case Some(status) => Serve(requests, handle, status)
  }

  function SnapshotOf(torrents: seq<TorrentRecord>, alert: Alert): AlertSnapshot
  {
    match alert
    case SessionAlert(text) => AlertSnapshot(text, 0)
    case TorrentAlert(handle, _, text) => AlertSnapshot(text, IdForHandle(torrents, handle))
  }

  /** Turning a text into a Rust string throws unless it is UTF-8. */
  predicate Readable(alert: Alert)
  {
    ValidUtf8(alert.text)
  }

  predicate AllReadable(alerts: seq<Alert>)
  {
    forall i :: 0 <= i < |alerts| ==> Readable(alerts[i])
  }

  /** The alerts in front of the first unreadable one. */
  function Recorded(alerts: seq<Alert>): (r: seq<Alert>)
    ensures r <= alerts && AllReadable(r)
    ensures |r| == |alerts| <==> AllReadable(alerts)
    ensures |r| < |alerts| ==> !Readable(alerts[|r|])
  {
    if alerts == [] || !Readable(alerts[0]) then [] else [alerts[0]] + Recorded(alerts[1..])
  }

  lemma {:induction false} RecordedStops(alerts: seq<Alert>, i: nat)
    requires i < |alerts| && AllReadable(alerts[..i]) && !Readable(alerts[i])
    ensures Recorded(alerts) == alerts[..i]
  {
    hide Readable;
    if i > 0 {
      assert alerts[..i][0] == alerts[0] && alerts[..i][1..] == alerts[1..][..i - 1];
      RecordedStops(alerts[1..], i - 1);
      assert alerts[..i] == [alerts[0]] + alerts[1..][..i - 1];
    }
  }

  /** `append_alert` for a readable alert: the oldest entry gives way when the backlog is full. */
  function Append(backlog: seq<AlertSnapshot>, a: AlertSnapshot): seq<AlertSnapshot>
  {
    (if |backlog| == MAX_BACKLOG then backlog[1..] else backlog) + [a]
  }

  /** The ids whose removal this alert completes. */
  function Removal(torrents: seq<TorrentRecord>, alert: Alert): seq<u64>
  {
    match alert
    case TorrentAlert(handle, TorrentRemoved, _) =>
      var id := IdForHandle(torrents, handle);
      if id != 0 then [id] else []
    case _ => []
  }

  /** The requests once every alert of `alerts` was matched. */
  function ServedAll(requests: seq<ResumeRecord>, alerts: seq<Alert>): (r: seq<ResumeRecord>)
    ensures |r| == |requests|
  {
    if alerts == [] then requests
    else Served(ServedAll(requests, alerts[..|alerts| - 1]), alerts[|alerts| - 1])
  }

  function Snapshots(torrents: seq<TorrentRecord>, alerts: seq<Alert>): (r: seq<AlertSnapshot>)
    ensures |r| == |alerts|
    ensures forall i :: 0 <= i < |r| ==> r[i] == SnapshotOf(torrents, alerts[i])
  {
    seq(|alerts|, i requires 0 <= i < |alerts| => SnapshotOf(torrents, alerts[i]))
  }

  function HandleAlert(t: Table, alert: Alert): (r: Table)
    ensures r.torrents == t.torrents && r.nextTorrentId == t.nextTorrentId && r.nextRequestId == t.nextRequestId
  {
    t.(requests := Served(t.requests, alert), backlog := Append(t.backlog, SnapshotOf(t.torrents, alert)))
  }

  function HandleAlerts(t: Table, alerts: seq<Alert>): (r: Table)
    ensures r.torrents == t.torrents && r.nextTorrentId == t.nextTorrentId && r.nextRequestId == t.nextRequestId
  {
    if alerts == [] then t
    else
      var n := |alerts| - 1;
      HandleAlert(HandleAlerts(t, alerts[..n]), alerts[n])
  }

  function Removals(torrents: seq<TorrentRecord>, alerts: seq<Alert>): seq<u64>
  {
    if alerts == [] then []
    else
      var n := |alerts| - 1;
      Removals(torrents, alerts[..n]) + Removal(torrents, alerts[n])
  }

  /** Erase-remove of the inactive records whose removal completed. */
  function Purge(torrents: seq<TorrentRecord>, removals: seq<u64>): seq<TorrentRecord>
  {
    if torrents == [] then []
    else
      var n := |torrents| - 1;
      Purge(torrents[..n], removals) +
        if !torrents[n].active && torrents[n].id in removals then [] else [torrents[n]]
  }

  /** `process_alerts`, and whether it came to its end. Alerts are already popped when a text
      turns out unreadable: that alert is served but not recorded, the alerts behind it are
      neither, and nothing is erased. */
  function Process(t: Table, alerts: seq<Alert>): (Table, bool)
  {
    var n := |Recorded(alerts)|;
    var p := HandleAlerts(t, alerts[..n]);
    if n == |alerts| then (p.(torrents := Purge(t.torrents, Removals(t.torrents, alerts))), true)
    else (p.(requests := Served(p.requests, alerts[n])), false)
  }

  datatype PollResult = UnknownRequest | StillPending | Delivered(status: Status) | UnreadableError | Interrupted

  /** Whether a finished request can be handed over as Rust values. */
  predicate Presentable(status: Status)
  {
    status.Failed? ==> ValidUtf8(status.message)
  }

  /** `poll_resume_data`: the request is erased only after its answer was built. */
  function Poll(t: Table, alerts: seq<Alert>, id: u64): (r: (Table, PollResult))
    ensures r.0 == Process(t, alerts).0.(requests := r.0.requests)
  {
    var (p, whole) := Process(t, alerts);
    if !whole then (p, Interrupted)
    else match FindRequest(p.requests, id)
      case None => (p, UnknownRequest)
      case Some(i) =>
        var status := p.requests[i].status;
        if status.Pending? then (p, StillPending)
        else if !Presentable(status) then (p, UnreadableError)
        else (p.(requests := p.requests[..i] + p.requests[i + 1..]), Delivered(status))
  }

  function ActiveIds(torrents: seq<TorrentRecord>): seq<u64>
  {
    if torrents == [] then []
    else
      var n := |torrents| - 1;
      ActiveIds(torrents[..n]) + if torrents[n].active then [torrents[n].id] else []
  }

  /** `snapshot_session`: the active torrents and the backlog, which is handed over only when
      the alerts were processed and every torrent could be read. */
  function Snapshot(t: Table, alerts: seq<Alert>, readable: bool): (r: (Table, Option<(seq<u64>, seq<AlertSnapshot>)>))
    ensures r.0 == Process(t, alerts).0.(backlog := r.0.backlog)
  {
    var (p, whole) := Process(t, alerts);
    if whole && readable then (p.(backlog := []), Some((ActiveIds(p.torrents), p.backlog))) else (p, None)
  }
}
