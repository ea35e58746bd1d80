/** The seeder: a persisted high-water mark per publisher between head resolution and
    reannouncement, against a DHT that may answer anything. */
module Seeder {
  import opened Bytes
  import opened Outcomes
  import opened DatasetManifest
  import opened SwarmHead

  // ---- the durable mark ---------------------------------------------------------------

  /** The `authority_sequences` table; its integer column holds signed 64-bit words. */
  type Marks = map<Bytes32, i64>

  datatype StoreError = InvalidAuthoritySequence | OutOfRange | DatabaseFailed

  function AsI64(n: u64): Option<i64>
  {
    if n < I64_LIMIT then Some(n) else None
  }

  function AsU64(n: i64): Option<u64>
  {
    if n >= 0 then Some(n) else None
  }

  /** The conditional upsert. */
  function Raised(marks: Marks, authority: Bytes32, sequence: i64): Marks
  {
    if authority in marks && sequence <= marks[authority] then marks else marks[authority := sequence]
  }

  /** A statement may have been applied although its result was lost. */
  datatype Outcome = Done | DoneButFailed | NotDone

  class Store {
    var marks: Marks

    constructor ()
      ensures marks == map[]
    {
      marks := map[];
    }

    /** `record_authority_sequence`: the answer is whether the mark moved. */
    method Record(authority: Bytes32, sequence: u64, outcome: Outcome) returns (r: Result<bool, StoreError>)
      modifies this
      ensures sequence == 0 ==> r == Err(InvalidAuthoritySequence) && marks == old(marks)
      ensures sequence >= I64_LIMIT ==> r == Err(OutOfRange) && marks == old(marks)
      ensures 0 < sequence < I64_LIMIT ==>
                && marks == (if outcome.NotDone? then old(marks) else Raised(old(marks), authority, sequence))
                && r == (if outcome.Done? then Ok(marks != old(marks)) else Err(DatabaseFailed))
    {
      if sequence == 0 {
        return Err(InvalidAuthoritySequence);
      }
      var bound := AsI64(sequence);
      if bound.None? {
        return Err(OutOfRange);
      }
      var changed := false;
      if !outcome.NotDone? {
        if authority !in marks {
          marks := marks[authority := bound.value];
          changed := true;
          assert authority in marks;
        } else if bound.value > marks[authority] {
          marks := marks[authority := bound.value];
          changed := true;
          assert marks[authority] != old(marks)[authority];
        }
      }
      if !outcome.Done? {
        return Err(DatabaseFailed);
      }
      return Ok(changed);
    }

    /** `highest_authority_sequence`. */
    method Highest(authority: Bytes32, readable: bool) returns (r: Result<Option<u64>, StoreError>)
      ensures r == HighestOf(marks, authority, readable)
    {
      if !readable {
        return Err(DatabaseFailed);
      }
      if authority !in marks {
        return Ok(None);
      }
      var value := AsU64(marks[authority]);
      if value.None? {
        return Err(OutOfRange);
      }
      return Ok(value);
    }
  }

  function HighestOf(marks: Marks, authority: Bytes32, readable: bool): Result<Option<u64>, StoreError>
  {
    if !readable then Err(DatabaseFailed)
    else if authority !in marks then Ok(None)
    else if AsU64(marks[authority]).None? then Err(OutOfRange)
    else Ok(AsU64(marks[authority]))
  }

  /** The guard handed to `resolve`: a mark that does not fit is silently dropped. */
  function Guard(highest: Option<u64>): Option<i64>
  {
    match highest case None => None case Some(n) => AsI64(n)
  }

  // ---- visits ----------------------------------------------------------------------------

  /** One target of one cycle, and everything the outside decides about it. */
  datatype Visit = Visit(publisher: Bytes32, readable: bool, answer: Option<MutableItem>, record: Outcome)

  datatype Event = Recorded(publisher: Bytes32, sequence: i64) | Reannounced(publisher: Bytes32, sequence: i64)

  /** The table, and what was recorded and reannounced so far, over all cycles and restarts. */
  datatype Journal = Journal(marks: Marks, events: seq<Event>)

  const EMPTY: Journal := Journal(map[], [])

  /** The head a visit settles on, if it gets that far. */
  function Settled(marks: Marks, v: Visit): Option<SignedHead>
  {
    var highest := HighestOf(marks, v.publisher, v.readable);
    if highest.Err? then None
    else match Resolve(v.answer, Guard(highest.value))
      case Err(_) => None
      case Ok(head) => head
  }

  function AfterVisit(j: Journal, v: Visit): Journal
  {
    match Settled(j.marks, v)
    case None => j
    case Some(head) =>
      if v.record.NotDone? then j
      else Journal(
        Raised(j.marks, v.publisher, head.Sequence()),
        j.events + [Recorded(v.publisher, head.Sequence())]
          + if v.record.Done? then [Reannounced(v.publisher, head.Sequence())] else [])
  }

  /** Any visits in any order: cycles, restarts and crashes between visits are all of this form,
      and a crash inside a visit looks like a failed read or an unanswered record. */
  function AfterVisits(j: Journal, visits: seq<Visit>): Journal
  {
    if visits == [] then j
    else
      var n := |visits| - 1;
      AfterVisit(AfterVisits(j, visits[..n]), visits[n])
  }

  function Run(visits: seq<Visit>): Journal
  {
    AfterVisits(EMPTY, visits)
  }

  // ---- rollback protection ------------------------------------------------------------------

  /** The stored mark is the highest sequence ever recorded for the publisher. */
  ghost predicate MarkIsMaximum(j: Journal)
  {
    && (forall a :: a in j.marks ==> j.marks[a] > 0 && Recorded(a, j.marks[a]) in j.events)
    && (forall e :: e in j.events && e.Recorded? ==> e.publisher in j.marks && e.sequence <= j.marks[e.publisher])
  }

  predicate SamePublisher(x: Event, y: Event)
  {
    x.Reannounced? && y.Reannounced? && x.publisher == y.publisher
  }

  /** Reannounced sequences of a publisher never go down, none above its mark. */
  ghost predicate NeverRollsBack(j: Journal)
  {
    && (forall e :: e in j.events && e.Reannounced? ==> e.publisher in j.marks && e.sequence <= j.marks[e.publisher])
    && (forall i, k :: 0 <= i < k < |j.events| && SamePublisher(j.events[i], j.events[k]) ==>
          j.events[i].sequence <= j.events[k].sequence)
  }

  /** Each reannouncement directly follows the durable record of its own sequence. */
  ghost predicate RecordedFirst(j: Journal)
  {
    forall i :: 0 <= i < |j.events| && j.events[i].Reannounced? ==>
      i > 0 && j.events[i - 1] == Recorded(j.events[i].publisher, j.events[i].sequence)
  }

  ghost predicate Kept(j: Journal)
  {
    MarkIsMaximum(j) && NeverRollsBack(j) && RecordedFirst(j)
  }

  /** While marks are positive the conversions lose nothing: the guard is the mark itself. */
  lemma GuardIsMark(j: Journal, authority: Bytes32)
    requires Kept(j)
    ensures HighestOf(j.marks, authority, true).Ok?
    ensures Guard(HighestOf(j.marks, authority, true).value) ==
              if authority in j.marks then Some(j.marks[authority]) else None
  {
  }

  lemma SettledAboveMark(j: Journal, v: Visit)
    requires Kept(j) && Settled(j.marks, v).Some?
    ensures var s := Settled(j.marks, v).value.Sequence();
      0 < s && (v.publisher in j.marks ==> j.marks[v.publisher] <= s)
      && Raised(j.marks, v.publisher, s) == j.marks[v.publisher := s]
  {
    hide FromItem;
    GuardIsMark(j, v.publisher);
    var highest := HighestOf(j.marks, v.publisher, v.readable);
    var head := Settled(j.marks, v).value;
    ResolveMeaning(v.answer, Guard(highest.value), head);
  }

  /** A visit settles on a head exactly when the mark can be read and the answer is a canonical
      head of positive sequence not below the mark: nothing else is let through, nothing that
      qualifies is held back. */
  lemma SettledMeaning(j: Journal, v: Visit, head: SignedHead)
    requires Kept(j)
    ensures Settled(j.marks, v) == Some(head) <==>
              && v.readable && v.answer == Some(head.item)
              && head.item.salt == Some(Ascii("pubky.swarm/v1/dataset"))
              && head.item.value == Ascii("d2:ih20:") + head.infoHash + Ascii("e")
              && head.Sequence() > 0 && (v.publisher in j.marks ==> head.Sequence() >= j.marks[v.publisher])
  {
    hide FromItem;
    GuardIsMark(j, v.publisher);
    var guard := if v.publisher in j.marks then Some(j.marks[v.publisher]) else None;
    ResolveMeaning(v.answer, guard, head);
  }

  /** A visit whose head qualifies raises the mark to its sequence and reannounces it; whether the
      answer of the record is lost or the record is not made decides how much of it happens. Any
      other visit does nothing. */
  lemma VisitMeaning(j: Journal, v: Visit, head: SignedHead)
    requires Kept(j)
    ensures Settled(j.marks, v).None? ==> AfterVisit(j, v) == j
    ensures Settled(j.marks, v) == Some(head) ==>
      var s := head.item.sequence;
      && (v.publisher in j.marks ==> j.marks[v.publisher] <= s)
      && AfterVisit(j, v) ==
         match v.record
         case NotDone => j
         case DoneButFailed => Journal(j.marks[v.publisher := s], j.events + [Recorded(v.publisher, s)])
         case Done =>
           Journal(j.marks[v.publisher := s], j.events + [Recorded(v.publisher, s), Reannounced(v.publisher, s)])
  {
    if Settled(j.marks, v) == Some(head) {
      SettledAboveMark(j, v);
      hide Settled, Raised, Kept;
      assert j.events + [Recorded(v.publisher, head.item.sequence)] + [Reannounced(v.publisher, head.item.sequence)]
        == j.events + [Recorded(v.publisher, head.item.sequence), Reannounced(v.publisher, head.item.sequence)];
    }
  }

  lemma AppendRecordedFirst(j: Journal, marks: Marks, x: Event)
    requires RecordedFirst(j)
    requires x.Reannounced? ==> j.events != [] && j.events[|j.events| - 1] == Recorded(x.publisher, x.sequence)
    ensures RecordedFirst(Journal(marks, j.events + [x]))
  {
  }

  lemma RecordMark(j: Journal, a: Bytes32, s: i64)
    requires MarkIsMaximum(j) && 0 < s && (a in j.marks ==> j.marks[a] <= s)
    ensures MarkIsMaximum(Journal(j.marks[a := s], j.events + [Recorded(a, s)]))
  {
    var n := Journal(j.marks[a := s], j.events + [Recorded(a, s)]);
    assert n.events[|j.events|] == Recorded(a, s);
    forall b | b in n.marks ensures n.marks[b] > 0 && Recorded(b, n.marks[b]) in n.events {
      if b != a { assert Recorded(b, j.marks[b]) in j.events; }
    }
  }

  lemma RecordRolls(j: Journal, a: Bytes32, s: i64)
    requires NeverRollsBack(j) && (a in j.marks ==> j.marks[a] <= s)
    ensures NeverRollsBack(Journal(j.marks[a := s], j.events + [Recorded(a, s)]))
  {
  }

  lemma ReannounceMark(j: Journal, x: Event)
    requires MarkIsMaximum(j) && x.Reannounced?
    ensures MarkIsMaximum(Journal(j.marks, j.events + [x]))
  {
    forall b | b in j.marks ensures Recorded(b, j.marks[b]) in j.events + [x] {
      assert Recorded(b, j.marks[b]) in j.events;
    }
  }

  lemma ReannounceRolls(j: Journal, a: Bytes32, s: i64)
    requires NeverRollsBack(j) && a in j.marks && j.marks[a] == s
    ensures NeverRollsBack(Journal(j.marks, j.events + [Reannounced(a, s)]))
  {
    forall i | 0 <= i < |j.events| && SamePublisher(j.events[i], Reannounced(a, s)) ensures j.events[i].sequence <= s {
      assert j.events[i] in j.events;
    }
  }

  lemma RecordKeeps(j: Journal, a: Bytes32, s: i64)
    requires Kept(j) && 0 < s && (a in j.marks ==> j.marks[a] <= s)
    ensures Kept(Journal(j.marks[a := s], j.events + [Recorded(a, s)]))
  {
    hide MarkIsMaximum, NeverRollsBack, RecordedFirst;
    RecordMark(j, a, s);
    RecordRolls(j, a, s);
    AppendRecordedFirst(j, j.marks[a := s], Recorded(a, s));
  }

  lemma ReannounceKeeps(j: Journal, a: Bytes32, s: i64)
    requires Kept(j) && a in j.marks && j.marks[a] == s
    requires j.events != [] && j.events[|j.events| - 1] == Recorded(a, s)
    ensures Kept(Journal(j.marks, j.events + [Reannounced(a, s)]))
  {
    hide MarkIsMaximum, NeverRollsBack, RecordedFirst;
    ReannounceMark(j, Reannounced(a, s));
    ReannounceRolls(j, a, s);
    AppendRecordedFirst(j, j.marks, Reannounced(a, s));
  }

  lemma VisitKeeps(j: Journal, v: Visit)
    requires Kept(j)
    ensures Kept(AfterVisit(j, v))
  {
    if Settled(j.marks, v).Some? && !v.record.NotDone? {
      SettledAboveMark(j, v);
      hide Kept, Settled, Raised;
      var s := Settled(j.marks, v).value.Sequence();
      var recorded := Journal(j.marks[v.publisher := s], j.events + [Recorded(v.publisher, s)]);
      RecordKeeps(j, v.publisher, s);
      if v.record.Done? {
        ReannounceKeeps(recorded, v.publisher, s);
      } else {
        assert recorded.events + [] == recorded.events;
      }
    }
  }

  /** Over all cycles and restarts and any answers from the DHT: what is reannounced for one
      publisher never goes back to an older sequence, each sequence is durably recorded before
      it is reannounced, and the stored mark is the maximum ever recorded. */
  lemma {:induction false} SeederNeverRollsBack(visits: seq<Visit>)
    ensures Kept(Run(visits))
  {
    if visits != [] {
      hide Kept, AfterVisit;
      var n := |visits| - 1;
      SeederNeverRollsBack(visits[..n]);
      VisitKeeps(Run(visits[..n]), visits[n]);
    }
  }

  /** Recording only ever raises marks, and the last word does not depend on the order. */
  lemma RaisedCommutes(marks: Marks, a: Bytes32, s: i64, b: Bytes32, t: i64)
    ensures Raised(Raised(marks, a, s), b, t) == Raised(Raised(marks, b, t), a, s)
    ensures Raised(Raised(marks, a, s), a, s) == Raised(marks, a, s)
  {
    if a == b {
      assert marks[a := s][b := t] == marks[b := t] && marks[b := t][a := s] == marks[a := s];
    } else {
      assert marks[a := s][b := t] == marks[b := t][a := s];
    }
  }

  // ---- a cycle -----------------------------------------------------------------------------------

  /** What the outside decides about a cycle: the first disk scan, each target's visit, and the
      scan after it. */
  datatype Weather = Weather(
    scanned: Option<nat>,
    readable: nat -> bool,
    answer: nat -> Option<MutableItem>,
    record: nat -> Outcome,
    rescanned: nat -> Option<nat>)

  function VisitOf(targets: seq<Bytes32>, weather: Weather, k: nat): Visit
    requires k < |targets|
  {
    Visit(targets[k], weather.readable(k), weather.answer(k), weather.record(k))
  }

  function VisitsOf(targets: seq<Bytes32>, weather: Weather, count: nat): (visits: seq<Visit>)
    requires count <= |targets|
    ensures |visits| == count
  {
    seq(count, k requires 0 <= k < count => VisitOf(targets, weather, k))
  }

  /** Target `k` of a cycle that starts from `j` gets as far as pinning. */
  predicate Pins(j: Journal, targets: seq<Bytes32>, weather: Weather, k: nat)
    requires k < |targets|
  {
    var before := AfterVisits(j, VisitsOf(targets, weather, k));
    Settled(before.marks, VisitOf(targets, weather, k)).Some? && weather.record(k).Done?
  }

  /** The disk use known before target `k`: the latest scan after a target that reached pinning,
      as far as it succeeded, or the first one. */
  function KnownUse(j: Journal, targets: seq<Bytes32>, weather: Weather, k: nat): nat
    requires weather.scanned.Some? && k <= |targets|
  {
    if k == 0 then weather.scanned.value
    else if Pins(j, targets, weather, k - 1) && weather.rescanned(k - 1).Some? then weather.rescanned(k - 1).value
    else KnownUse(j, targets, weather, k - 1)
  }

  class Cycle {
    const store: Store
    var events: seq<Event>

    constructor (store: Store)
      ensures this.store == store && events == []
    {
      this.store := store;
      events := [];
    }

    ghost function State(): Journal
      reads this, store
    {
      Journal(store.marks, events)
    }

    /** One pass of the loop body up to pinning; the answer is whether pinning is reached. */
    method VisitTarget(v: Visit) returns (pinning: bool)
      requires forall a :: a in store.marks ==> store.marks[a] > 0
      modifies this`events, store
      ensures State() == AfterVisit(old(State()), v)
      ensures pinning <==> Settled(old(store.marks), v).Some? && v.record.Done?
      ensures forall a :: a in store.marks ==> store.marks[a] > 0
    {
      var highest := store.Highest(v.publisher, v.readable);
      if highest.Err? {
        return false;
      }
      var resolved := Resolve(v.answer, Guard(highest.value));
      if resolved.Err? || resolved.value.None? {
        return false;
      }
      var head := resolved.value.value;
      ResolveMeaning(v.answer, Guard(highest.value), head);
      var sequence := AsU64(head.Sequence());
      if sequence.None? {
        return false;
      }
      var recorded := store.Record(v.publisher, sequence.value, v.record);
      if !v.record.NotDone? {
        events := events + [Recorded(v.publisher, head.Sequence())];
      }
      if recorded.Err? {
        return false;
      }
      events := events + [Reannounced(v.publisher, head.Sequence())];
      return true;
    }

    /** `seed_cycle`: visit the targets in order, up to the first in front of which the known disk
        use meets the limit. */
    method SeedCycle(targets: seq<Bytes32>, maxDiskBytes: nat, weather: Weather) returns (visited: nat)
      requires forall a :: a in store.marks ==> store.marks[a] > 0
      modifies this`events, store
      ensures visited <= |targets|
      ensures State() == AfterVisits(old(State()), VisitsOf(targets, weather, visited))
      ensures weather.scanned.None? ==> visited == 0
      ensures weather.scanned.Some? ==>
                forall k :: 0 <= k < visited ==> KnownUse(old(State()), targets, weather, k) < maxDiskBytes
      ensures weather.scanned.Some? && visited < |targets| ==>
                KnownUse(old(State()), targets, weather, visited) >= maxDiskBytes
      ensures forall a :: a in store.marks ==> store.marks[a] > 0
    {
      hide Settled, AfterVisit;
      visited := 0;
      if weather.scanned.None? {
        return;
      }
      ghost var start := State();
      var used := weather.scanned.value;
      while visited < |targets|
        invariant visited <= |targets|
        invariant State() == AfterVisits(start, VisitsOf(targets, weather, visited))
        invariant forall a :: a in store.marks ==> store.marks[a] > 0
        invariant used == KnownUse(start, targets, weather, visited)
        invariant forall k :: 0 <= k < visited ==> KnownUse(start, targets, weather, k) < maxDiskBytes
      {
        if used >= maxDiskBytes {
          return;
        }
        VisitsGrow(targets, weather, visited);
        var pinning := VisitTarget(VisitOf(targets, weather, visited));
        if pinning {
          var rescanned := weather.rescanned(visited);
          used := if rescanned.Some? then rescanned.value else used;
        }
        visited := visited + 1;
      }
    }
  }

  lemma VisitsGrow(targets: seq<Bytes32>, weather: Weather, k: nat)
    requires k < |targets|
    ensures VisitsOf(targets, weather, k + 1)[..k] == VisitsOf(targets, weather, k)
    ensures VisitsOf(targets, weather, k + 1)[k] == VisitOf(targets, weather, k)
  {
  }
}
