/** The session facade as the object it is: counters and vectors pushed to, flagged and erased
    in place. Every call is proved to do to the table what `SessionTable` says. */
module SessionFacade {
  import opened Bytes
  import opened Outcomes
  import opened SessionTable

  class Facade {
    var open: bool
    var nextTorrentId: u64
    var nextRequestId: u64
    var torrents: seq<TorrentRecord>
    var requests: seq<ResumeRecord>
    var backlog: seq<AlertSnapshot>

    ghost function State(): Table
      reads this
    {
      Table(nextTorrentId, nextRequestId, torrents, requests, backlog)
    }

    constructor ()
      ensures open && State() == EMPTY
    {
      open := true;
      nextTorrentId, nextRequestId := 1, 1;
      torrents, requests, backlog := [], [], [];
    }

    /** `add_parameters`: the record is pushed first and popped again when its state cannot be
        read, unless taking the torrent out of the session throws as well. */
    method AddParameters(outcome: AddOutcome) returns (r: AddResult)
      modifies this
      ensures open == old(open)
      ensures !old(open) ==> State() == old(State()) && r == AddFailed
      ensures old(open) ==> (State(), r) == Add(old(State()), outcome)
    {
      if !open || outcome.Refused? {
        return AddFailed;
      }
      var existing := FindActiveHandle(torrents, outcome.handle);
      if existing.Some? {
        return if outcome.readable then AddedTorrent(torrents[existing.value].id) else AddFailed;
      }
      var id := nextTorrentId;
      nextTorrentId := Next(nextTorrentId);
      torrents := torrents + [TorrentRecord(id, outcome.handle, true)];
      if outcome.readable {
        return AddedTorrent(id);
      }
      if outcome.removable {
        torrents := torrents[..|torrents| - 1];
      }
      return AddFailed;
    }

    /** `remove_torrent`. */
    method RemoveTorrent(id: u64, nativeOk: bool) returns (ok: bool)
      modifies this
      ensures open == old(open)
      ensures !old(open) ==> State() == old(State()) && !ok
      ensures old(open) ==> (State(), ok) == Remove(old(State()), id, nativeOk)
    {
      if !open {
        return false;
      }
      var record := FindActive(torrents, id);
      if record.None? || !nativeOk {
        return false;
      }
      torrents := torrents[record.value := torrents[record.value].(active := false)];
      return true;
    }

    /** `save_resume_data`: the request is pushed first and popped again when the native call throws. */
    method SaveResumeData(id: u64, nativeOk: bool) returns (request: Option<u64>)
      modifies this
      ensures open == old(open)
      ensures !old(open) ==> State() == old(State()) && request == None
      ensures old(open) ==> (State(), request) == SaveResume(old(State()), id, nativeOk)
    {
      if !open {
        return None;
      }
      var record := FindActive(torrents, id);
      if record.None? {
        return None;
      }
      var requestId := nextRequestId;
      nextRequestId := Next(nextRequestId);
      requests := requests + [ResumeRecord(requestId, torrents[record.value].handle, Pending)];
      if !nativeOk {
        requests := requests[..|requests| - 1];
        return None;
      }
      return Some(requestId);
    }

    /** `append_alert`: the snapshot is built first, and its text may throw. */
    method AppendAlert(alert: Alert, torrentId: u64) returns (ok: bool)
      requires SnapshotOf(torrents, alert).torrentId == torrentId
      modifies this`backlog
      ensures ok <==> Readable(alert)
      ensures backlog == if ok then Append(old(backlog), SnapshotOf(torrents, alert)) else old(backlog)
    {
      if !ValidUtf8(alert.text) {
        return false;
      }
      var snapshot := AlertSnapshot(alert.text, torrentId);
      if |backlog| == MAX_BACKLOG {
        backlog := backlog[1..];
      }
      backlog := backlog + [snapshot];
      return true;
    }

    /** `complete_resume_request` and `fail_resume_request`. */
    method ServeRequest(alert: Alert)
      modifies this`requests
      ensures requests == Served(old(requests), alert)
    {
      if alert.TorrentAlert? {
        var status := AlertStatus(alert.event);
        if status.Some? {
          var request := FindPending(requests, alert.handle);
          if request.Some? {
            requests := requests[request.value := requests[request.value].(status := status.value)];
          }
        }
      }
    }

    /** `process_alerts`: serve resume requests, note completed removals, keep the alert; then
        erase. An unreadable alert ends it on the spot. */
    method ProcessAlerts(alerts: seq<Alert>) returns (whole: bool)
      modifies this`requests, this`backlog, this`torrents
      ensures (State(), whole) == Process(old(State()), alerts)
    {
      hide Served, Append, ValidUtf8, Readable, Recorded, IdForHandle, Purge;
      var completedRemovals: seq<u64> := [];
      for i := 0 to |alerts|
        invariant torrents == old(torrents)
        invariant AllReadable(alerts[..i])
        invariant State() == HandleAlerts(old(State()), alerts[..i])
        invariant completedRemovals == Removals(torrents, alerts[..i])
      {
        var alert := alerts[i];
        assert alerts[..i + 1][..i] == alerts[..i];
        var torrentId := 0;
        if alert.TorrentAlert? {
          torrentId := IdForHandle(torrents, alert.handle);
        }
        ServeRequest(alert);
        if alert.TorrentAlert? && alert.event.TorrentRemoved? && torrentId != 0 {
          completedRemovals := completedRemovals + [torrentId];
        }
        var recorded := AppendAlert(alert, torrentId);
        if !recorded {
          RecordedStops(alerts, i);
          return false;
        }
      }
      assert alerts[..|alerts|] == alerts;
      torrents := Purge(torrents, completedRemovals);
      return true;
    }

    /** `poll_resume_data`: a finished request is handed over once and erased; one whose error
        text is unreadable stays. */
    method PollResumeData(alerts: seq<Alert>, id: u64) returns (r: PollResult)
      modifies this
      ensures open == old(open)
      ensures !old(open) ==> State() == old(State()) && r == UnknownRequest
      ensures old(open) ==> (State(), r) == Poll(old(State()), alerts, id)
    {
      if !open {
        return UnknownRequest;
      }
      var whole := ProcessAlerts(alerts);
      if !whole {
        return Interrupted;
      }
      var request := FindRequest(requests, id);
      if request.None? {
        return UnknownRequest;
      }
      var status := requests[request.value].status;
      if status.Pending? {
        return StillPending;
      }
      if status.Failed? && !ValidUtf8(status.message) {
        return UnreadableError;
      }
      requests := requests[..request.value] + requests[request.value + 1..];
      return Delivered(status);
    }

    /** `snapshot_session`: the backlog is cleared only after every active torrent was read. */
    method SnapshotSession(alerts: seq<Alert>, readable: bool)
      returns (r: Option<(seq<u64>, seq<AlertSnapshot>)>)
      modifies this
      ensures open == old(open)
      ensures !old(open) ==> State() == old(State()) && r == None
      ensures old(open) ==> (State(), r) == Snapshot(old(State()), alerts, readable)
    {
      if !open {
        return None;
      }
      var whole := ProcessAlerts(alerts);
      if !whole || !readable {
        return None;
      }
      var listed: seq<u64> := [];
      for i := 0 to |torrents|
        invariant listed == ActiveIds(torrents[..i])
      {
        assert torrents[..i + 1][..i] == torrents[..i];
        if torrents[i].active {
          listed := listed + [torrents[i].id];
        }
      }
      assert torrents[..|torrents|] == torrents;
      var delivered := backlog;
      backlog := [];
      return Some((listed, delivered));
    }

    /** `shutdown_session`. */
    method Shutdown()
      modifies this`open
      ensures !open && State() == old(State())
    {
      open := false;
    }
  }
}
