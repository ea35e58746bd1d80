/** The in-memory dataset: validation outside the lock, a compare-and-swap commit inside it,
    and a change notification after it is released. */
module MemoryDataset {
  import opened Bytes
  import opened Outcomes
  import opened DatasetManifest
  import opened DatasetCore
  import opened Publications

  datatype Committed = Committed(head: Head, snapshot: Snapshot)

  datatype PublishError =
    | Staging(error: StageError)
    | ConcurrentUpdate(expected: Option<Bytes32>, actual: Option<Bytes32>)
    | SequenceExhausted

  function CurrentDigest(c: Crypto, state: Option<Committed>): Option<Bytes32>
  {
    match state
    case None => None
    case Some(committed) => Some(ManifestDigest(c, committed.snapshot.manifest))
  }

  /** The locked section of `publish`. */
  function Commit(c: Crypto, state: Option<Committed>, snapshot: Snapshot,
                  expected: Option<Bytes32>): Result<Committed, PublishError>
  {
    if CurrentDigest(c, state) != expected then Err(ConcurrentUpdate(expected, CurrentDigest(c, state)))
    else
      var sequence := match state case None => 1 case Some(committed) => committed.head.sequence + 1;
      if sequence == U64_LIMIT then Err(SequenceExhausted)
      else Ok(Committed(HeadOf(c, snapshot.manifest, sequence), snapshot))
  }

  /** `MemoryWatcher::wait_for_change`: the head it returns, or none while it keeps waiting. */
  function Wakes(channel: Option<Head>, since: Option<Head>): (r: Option<Head>)
  {
    match channel
    case None => None
    case Some(current) =>
      if since.Some? && current.sequence == since.value.sequence && current.digest == since.value.digest then None
      else channel
  }

  /** The digest of the current dataset. */
  function DigestAt(c: Crypto, state: Option<Committed>): Option<Bytes32>
  {
    match state case None => None case Some(current) => Some(c.hash(Encode(current.snapshot.manifest)))
  }

  /** The sequence of the next head. */
  function After(state: Option<Committed>): nat
  {
    match state case None => 1 case Some(current) => current.head.sequence + 1
  }

  lemma NotifyLast(unsent: seq<Head>)
    ensures forall h :: Without(unsent + [h], |unsent|) == unsent
  {
    forall h ensures Without(unsent + [h], |unsent|) == unsent {
      assert (unsent + [h])[|unsent| + 1..] == [];
    }
  }

  class MemoryPublisher {
    const identity: Bytes32
    var state: Option<Committed>
    var changes: Option<Head>

    constructor (identity: Bytes32)
      ensures this.identity == identity && state == None && changes == None
    {
      this.identity := identity;
      state, changes := None, None;
    }

    method CommitLocked(c: Crypto, snapshot: Snapshot, expected: Option<Bytes32>)
      returns (r: Result<Head, PublishError>)
      modifies this`state
      ensures r.Ok? <==> Commit(c, old(state), snapshot, expected).Ok?
      ensures r.Ok? ==> state == Some(Commit(c, old(state), snapshot, expected).value) && r.value == state.value.head
      ensures r.Ok? <==> expected == DigestAt(c, old(state)) && After(old(state)) < U64_LIMIT
      ensures r.Ok? ==> state.value == Committed(HeadOf(c, snapshot.manifest, After(old(state))), snapshot)
      ensures r.Err? ==> state == old(state) && Err(r.error) == Commit(c, old(state), snapshot, expected)
    {
      var actual := CurrentDigest(c, state);
      if actual != expected {
        return Err(ConcurrentUpdate(expected, actual));
      }
      var nextSequence: u64 := 1;
      if state.Some? {
        if state.value.head.sequence + 1 == U64_LIMIT {
          return Err(SequenceExhausted);
        }
        nextSequence := state.value.head.sequence + 1;
      }
      var head := HeadOf(c, snapshot.manifest, nextSequence);
      state := Some(Committed(head, snapshot));
      return Ok(head);
    }

    /** `publish`. It succeeds exactly for publishable files, when the caller expects the current
        digest and a sequence is left; a failure names the first of these that is missing and
        leaves the head and the channel alone. To a world that agrees with the object it does a
        publication and its notification. */
    method Publish(c: Crypto, createdAt: u64, files: Files, expected: Option<Bytes32>, ghost w: World)
      returns (r: Result<Snapshot, PublishError>)
      requires c.validKey(identity)
      requires Current(w.log) == state && w.channel == changes
      modifies this
      ensures r.Err? ==> state == old(state) && changes == old(changes)
      ensures r.Ok? ==>
                && Staged(c, identity, createdAt, files) == Ok(r.value)
                && state.Some? && state.value.snapshot == r.value
                && var head := state.value.head;
                && head.publisher == identity && head.createdAt == createdAt
                && head.digest == c.hash(Encode(r.value.manifest)) && head.sequence == After(old(state))
                && changes == Some(head)
      ensures r.Ok? <==>
                Publishable(createdAt, files) && expected == DigestAt(c, old(state)) && After(old(state)) < U64_LIMIT
      ensures r.Err? ==>
        match r.error
        case Staging(e) => !Publishable(createdAt, files) && Staged(c, identity, createdAt, files) == Err(e)
        case ConcurrentUpdate(x, actual) =>
          Publishable(createdAt, files) && x == expected != actual == DigestAt(c, old(state))
        case SequenceExhausted =>
          Publishable(createdAt, files) && expected == DigestAt(c, old(state)) && After(old(state)) == U64_LIMIT
      ensures var n := Step(c, identity, w, Action.Publish(createdAt, files, expected));
        if r.Err? then n == w
        else Step(c, identity, n, Notify(|w.unsent|)) ==
               World(w.log + [Entry(state.value, expected)], w.unsent, changes)
    {
      hide Publishable, Staged, Encode, Without;
      StagedExactly(c, identity, createdAt, files);
      if Staged(c, identity, createdAt, files).Ok? {
        StagedMeaning(c, identity, createdAt, files, Staged(c, identity, createdAt, files).value);
      }
      NotifyLast(w.unsent);
      var staged := Stage(c, identity, createdAt, files);
      if staged.Err? {
        return Err(Staging(staged.error));
      }
      var head :- CommitLocked(c, staged.value, expected);
      changes := Some(head);
      return Ok(staged.value);
    }
  }

  // ---- interleavings ------------------------------------------------------------------------

  datatype Entry = Entry(committed: Committed, expected: Option<Bytes32>)

  /** Every commit so far, the notifications not yet sent, and the watch channel. */
  datatype World = World(log: seq<Entry>, unsent: seq<Head>, channel: Option<Head>)

  datatype Action =
    | Publish(createdAt: u64, files: Files, expected: Option<Bytes32>)
    | Notify(which: nat)
    | Abandon(which: nat)

  const EMPTY: World := World([], [], None)

  function Current(log: seq<Entry>): Option<Committed>
  {
    if log == [] then None else Some(log[|log| - 1].committed)
  }

  function Without<T>(s: seq<T>, i: nat): seq<T>
    requires i < |s|
  {
    s[..i] + s[i + 1..]
  }

  /** Staging reads nothing shared, so a publisher is one atomic commit and a later notification. */
  function Step(c: Crypto, id: Bytes32, w: World, a: Action): World
  {
    match a
    case Publish(createdAt, files, expected) => (
      var staged := Staged(c, id, createdAt, files);
      if staged.Err? then w
      else
        var committed := Commit(c, Current(w.log), staged.value, expected);
        if committed.Err? then w
        else World(w.log + [Entry(committed.value, expected)], w.unsent + [committed.value.head], w.channel))
    case Notify(i) =>
      if i < |w.unsent| then World(w.log, Without(w.unsent, i), Some(w.unsent[i])) else w
    case Abandon(i) =>
      if i < |w.unsent| then w.(unsent := Without(w.unsent, i)) else w
  }

  function Run(c: Crypto, id: Bytes32, actions: seq<Action>): World
  {
    if actions == [] then EMPTY
    else
      var n := |actions| - 1;
      Step(c, id, Run(c, id, actions[..n]), actions[n])
  }

  function Heads(log: seq<Entry>): (heads: seq<Head>)
    ensures |heads| == |log|
    ensures forall i :: 0 <= i < |log| ==> heads[i] == log[i].committed.head
  {
    seq(|log|, i requires 0 <= i < |log| => log[i].committed.head)
  }

  ghost predicate Genuine(c: Crypto, id: Bytes32, snapshot: Snapshot)
  {
    exists createdAt, files :: Staged(c, id, createdAt, files) == Ok(snapshot)
  }

  /** Commit `i` has sequence `i + 1`, describes its own staged snapshot, and replaced exactly
      the head its publisher expected. */
  ghost predicate Succeeds(c: Crypto, id: Bytes32, log: seq<Entry>, i: nat)
    requires i < |log|
  {
    var committed := log[i].committed;
    && i + 1 < U64_LIMIT
    && Genuine(c, id, committed.snapshot)
    && committed.head ==
       Head(id, committed.snapshot.manifest.createdAt, ManifestDigest(c, committed.snapshot.manifest), i + 1)
    && log[i].expected == if i == 0 then None else Some(log[i - 1].committed.head.digest)
  }

  ghost predicate Serial(c: Crypto, id: Bytes32, log: seq<Entry>)
  {
    forall i :: 0 <= i < |log| ==> Succeeds(c, id, log, i)
  }

  ghost predicate Kept(c: Crypto, id: Bytes32, w: World)
  {
    && Serial(c, id, w.log)
    && (forall h :: h in w.unsent ==> h in Heads(w.log))
    && (w.channel.Some? ==> w.channel.value in Heads(w.log))
  }

  lemma StagedByPublisher(c: Crypto, id: Bytes32, createdAt: u64, files: Files)
    ensures var r := Staged(c, id, createdAt, files);
      r.Ok? ==> r.value.manifest.publisher == id && Genuine(c, id, r.value)
  {
  }

  lemma CommitExtends(c: Crypto, id: Bytes32, log: seq<Entry>, snapshot: Snapshot, expected: Option<Bytes32>)
    requires Serial(c, id, log) && Genuine(c, id, snapshot) && snapshot.manifest.publisher == id
    requires Commit(c, Current(log), snapshot, expected).Ok?
    ensures Serial(c, id, log + [Entry(Commit(c, Current(log), snapshot, expected).value, expected)])
  {
    hide ManifestDigest, Genuine;
    var entry := Entry(Commit(c, Current(log), snapshot, expected).value, expected);
    var n := |log|;
    if n > 0 { assert Succeeds(c, id, log, n - 1); }
    forall i | 0 <= i <= n ensures Succeeds(c, id, log + [entry], i) {
      if i < n { assert Succeeds(c, id, log, i); }
    }
  }

  lemma StepKeeps(c: Crypto, id: Bytes32, w: World, a: Action)
    requires Kept(c, id, w)
    ensures Kept(c, id, Step(c, id, w, a))
  {
    hide Staged, Commit, Serial, Genuine;
    if a.Publish? {
      StagedByPublisher(c, id, a.createdAt, a.files);
      var staged := Staged(c, id, a.createdAt, a.files);
      if staged.Ok? && Commit(c, Current(w.log), staged.value, a.expected).Ok? {
        CommitExtends(c, id, w.log, staged.value, a.expected);
        var n := Step(c, id, w, a);
        assert Heads(n.log) == Heads(w.log) + [n.log[|w.log|].committed.head];
      }
    }
  }

  /** Under every interleaving of publishers, notifications and lost notifications, committed
      sequences are 1, 2, 3, ... without gaps and every notified head was committed. */
  lemma {:induction false} RunKeeps(c: Crypto, id: Bytes32, actions: seq<Action>)
    ensures Kept(c, id, Run(c, id, actions))
  {
    if actions != [] {
      var n := |actions| - 1;
      RunKeeps(c, id, actions[..n]);
      StepKeeps(c, id, Run(c, id, actions[..n]), actions[n]);
    }
  }

  lemma HistoryFollows(c: Crypto, id: Bytes32, log: seq<Entry>, i: nat, j: nat)
    requires Serial(c, id, log) && i <= j < |log|
    ensures Follows(log[i].committed.head, log[j].committed.head)
  {
    hide ManifestDigest, Genuine;
    assert Succeeds(c, id, log, i) && Succeeds(c, id, log, j);
  }

  /** A reader that resolves the head again and again never sees its tracker refuse: heads
      taken from the history at nondecreasing points are accepted, all of them. */
  lemma ObservedHeadsAreAccepted(c: Crypto, id: Bytes32, actions: seq<Action>, seen: seq<Head>, at: seq<nat>)
    requires |seen| == |at|
    requires forall i :: 0 <= i < |at| ==> at[i] < |Run(c, id, actions).log|
    requires forall i :: 0 <= i < |at| ==> seen[i] == Run(c, id, actions).log[at[i]].committed.head
    requires forall i, j :: 0 <= i < j < |at| ==> at[i] <= at[j]
    ensures Accepted(None, seen) == seen
  {
    RunKeeps(c, id, actions);
    hide Run, Serial, Accepted, Follows;
    var log := Run(c, id, actions).log;
    forall i, j | 0 <= i < j < |seen| ensures Follows(seen[i], seen[j]) {
      HistoryFollows(c, id, log, at[i], at[j]);
    }
    ConsistentIsAccepted(None, seen);
  }

  /** What a watcher returns was committed, and differs from the head it already had. */
  lemma WatchersSeeCommits(c: Crypto, id: Bytes32, actions: seq<Action>, since: Option<Head>)
    ensures var w := Run(c, id, actions);
      var woken := Wakes(w.channel, since);
      woken.Some? ==> woken.value in Heads(w.log) && woken != since
  {
    RunKeeps(c, id, actions);
  }

  lemma SameSequenceSameHead(c: Crypto, id: Bytes32, log: seq<Entry>, a: Head, b: Head)
    requires Serial(c, id, log) && a in Heads(log) && b in Heads(log) && a.sequence == b.sequence
    ensures a == b
  {
    hide Genuine, ManifestDigest;
    var i :| 0 <= i < |log| && log[i].committed.head == a;
    var j :| 0 <= j < |log| && log[j].committed.head == b;
    assert Succeeds(c, id, log, i) && Succeeds(c, id, log, j);
  }

  /** A watcher that has seen nothing yet, or a committed head, wakes exactly when the channel holds
      another, and with that one. */
  lemma WatchersWakeExactly(c: Crypto, id: Bytes32, actions: seq<Action>, since: Option<Head>)
    requires since.Some? ==> since.value in Heads(Run(c, id, actions).log)
    ensures var channel := Run(c, id, actions).channel;
      Wakes(channel, since) == if channel == since then None else channel
  {
    RunKeeps(c, id, actions);
    hide Run, Serial;
    var w := Run(c, id, actions);
    if w.channel.Some? && since.Some? && w.channel.value.sequence == since.value.sequence {
      SameSequenceSameHead(c, id, w.log, w.channel.value, since.value);
    }
  }

  /** What a reader gets at the current head is the file published there under that path. */
  lemma ReadsCurrentFiles(c: Crypto, id: Bytes32, actions: seq<Action>) returns (createdAt: u64, files: Files)
    requires c.validKey(id) && Run(c, id, actions).log != []
    ensures var committed := Current(Run(c, id, actions).log).value;
      && Staged(c, id, createdAt, files) == Ok(committed.snapshot)
      && (forall f :: f in files ==>
            f.path in committed.snapshot.contents && committed.snapshot.contents[f.path] == f.bytes)
      && (forall p :: p in committed.snapshot.contents ==> p in PathsOf(files))
  {
    hide Step, ManifestDigest, New, ValidManifest;
    RunKeeps(c, id, actions);
    var snapshot := Current(Run(c, id, actions).log).value.snapshot;
    assert Succeeds(c, id, Run(c, id, actions).log, |Run(c, id, actions).log| - 1);
    createdAt, files :| Staged(c, id, createdAt, files) == Ok(snapshot);
    StagedFilesDistinct(c, id, createdAt, files);
    ContentsMeaning(files);
  }

  function Publication(createdAt: u64, expected: Option<Bytes32>): Action
  {
    Publish(createdAt, [], expected)
  }

  lemma EmptyPublicationStages(c: Crypto, id: Bytes32, createdAt: u64)
    requires createdAt > 0
    ensures Staged(c, id, createdAt, []) == Ok(Snapshot(Manifest(id, createdAt, []), map[]))
  {
    assert Entries(c, []) == [];
  }

  /** Notifications sent out of order leave the channel on an old head for good: a watcher that
      has seen it sleeps although a newer head is committed and nothing is left to send. */
  lemma LateNotificationHidesNewHead(c: Crypto, id: Bytes32) returns (actions: seq<Action>)
    ensures var w := Run(c, id, actions);
      && |w.log| == 2 && w.unsent == [] && w.channel == Some(w.log[0].committed.head)
      && Wakes(w.channel, Some(w.log[0].committed.head)) == None
      && w.log[1].committed.head.sequence == 2
  {
    hide ManifestDigest, New, Staged, Run;
    EmptyPublicationStages(c, id, 1);
    EmptyPublicationStages(c, id, 2);
    var m1, m2 := Manifest(id, 1, []), Manifest(id, 2, []);
    var first := Some(ManifestDigest(c, m1));
    var e1 := Entry(Committed(HeadOf(c, m1, 1), Snapshot(m1, map[])), None);
    var e2 := Entry(Committed(HeadOf(c, m2, 2), Snapshot(m2, map[])), first);
    var h1, h2 := e1.committed.head, e2.committed.head;
    assert [] + [Publication(1, None)] == [Publication(1, None)];
    RunThen(c, id, [], Publication(1, None));
    RunThen(c, id, [Publication(1, None)], Publication(2, first));
    var published := [Publication(1, None)] + [Publication(2, first)];
    assert Run(c, id, [Publication(1, None)]) == World([e1], [h1], None);
    assert Run(c, id, published) == World([e1, e2], [h1, h2], None);
    RunThen(c, id, published, Notify(1));
    RunThen(c, id, published + [Notify(1)], Notify(0));
    actions := published + [Notify(1)] + [Notify(0)];
  }

  lemma RunThen(c: Crypto, id: Bytes32, actions: seq<Action>, a: Action)
    ensures Run(c, id, actions + [a]) == Step(c, id, Run(c, id, actions), a)
    ensures Run(c, id, []) == EMPTY
  {
    assert (actions + [a])[..|actions|] == actions;
  }
}
