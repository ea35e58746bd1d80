/** The compare-and-swap of the torrent publisher: each publication names the digest it is to
    replace, and which head it really replaces. */
module TorrentSwaps {
  import opened Bytes
  import opened Outcomes
  import opened DatasetManifest
  import opened DatasetCore
  import opened TorrentReference
  import opened SwarmHead
  import opened TorrentPublisher
  import opened TorrentSequences

  // ---- what a publication expects -----------------------------------------------------------------

  /** The publication is to replace what this local state says, or nothing. */
  predicate InPlaceOf(job: Job, local: Option<Local>)
  {
    match local
    case None => job.expected.None? && job.previous.None?
    case Some(l) => job.expected == Some(l.digest) && job.previous == Some(l.sequence)
  }

  ghost predicate ExpectationsKept(w: World)
  {
    && |w.procs| == |w.locals|
    && forall p :: 0 <= p < |w.procs| && JobOf(w.procs[p]).Some? ==> InPlaceOf(JobOf(w.procs[p]).value, w.locals[p])
  }

  lemma StepKeepsExpectations(env: Env, w: World, a: Action)
    requires ExpectationsKept(w)
    ensures ExpectationsKept(Step(env, w, a))
  {
    hide Advance, AfterPutHead;
    StepShape(env, w, a);
    var n := Step(env, w, a);
    if a.PutHead? {
      if n != w { PutHeadKeepsExpectations(w, a.p, w.procs[a.p].job, w.procs[a.p].infoHash, a.outcome); }
    } else {
      forall q | 0 <= q < |w.procs| && JobOf(n.procs[q]).Some? ensures InPlaceOf(JobOf(n.procs[q]).value, n.locals[q]) {
        assert FoundAgreement(w, n, q);
        CrashedIsIdle(env, w, a, q);
      }
    }
  }

  lemma PutHeadKeepsExpectations(w: World, p: nat, job: Job, h: Bytes20, outcome: Outcome)
    requires ExpectationsKept(w) && p < |w.procs|
    ensures ExpectationsKept(AfterPutHead(w, p, job, h, outcome))
  {
    hide Lands;
  }

  /** At every moment of every run, whatever fails, restarts or is forgotten: a publication under way
      expects the digest and follows the sequence of its own process's local state. */
  lemma {:induction false} RunKeepsExpectations(env: Env, processes: nat, actions: seq<Action>)
    ensures ExpectationsKept(Run(env, processes, actions))
  {
    if actions != [] {
      hide Step, ExpectationsKept;
      var n := |actions| - 1;
      RunKeepsExpectations(env, processes, actions[..n]);
      StepKeepsExpectations(env, Run(env, processes, actions[..n]), actions[n]);
    }
  }

  // ---- what a landing replaces -----------------------------------------------------------------------

  /** A head with this sequence and digest landed. */
  ghost predicate LandedAs(log: seq<Landed>, l: Local)
  {
    exists i :: 0 <= i < |log| && log[i].head.sequence == l.sequence && log[i].job.digest == l.digest
  }

  /** The DHT forgets nothing, and a restart brings back only a state that once landed. */
  ghost predicate Honest(w: World, a: Action)
  {
    Remembers(a) && (a.Crash? && a.restored.Some? ==> LandedAs(w.log, a.restored.value))
  }

  ghost predicate HonestRun(env: Env, processes: nat, actions: seq<Action>)
  {
    forall i :: 0 <= i < |actions| ==> Honest(Run(env, processes, actions[..i]), actions[i])
  }

  /** Landing `i` was a first publication that expected none, or it took the sequence of the head
      before it and expected the digest of a head with that sequence. */
  ghost predicate Replaces(log: seq<Landed>, i: nat)
    requires i < |log|
  {
    match log[i].job.previous
    case None => log[i].job.expected.None? && log[i].head.sequence == 1
    case Some(s) =>
      && i > 0 && log[i - 1].head.sequence == s
      && exists j :: 0 <= j < i && log[j].head.sequence == s && log[i].job.expected == Some(log[j].job.digest)
  }

  ghost predicate Traced(w: World)
  {
    && Sequenced(w) && ExpectationsKept(w)
    && (forall p :: 0 <= p < |w.locals| && w.locals[p].Some? ==> LandedAs(w.log, w.locals[p].value))
    && (forall i :: 0 <= i < |w.log| ==> Replaces(w.log, i))
  }

  lemma LandedStays(log: seq<Landed>, more: Landed, l: Local)
    requires LandedAs(log, l)
    ensures LandedAs(log + [more], l)
  {
    var i :| 0 <= i < |log| && log[i].head.sequence == l.sequence && log[i].job.digest == l.digest;
    assert (log + [more])[i] == log[i];
  }

  lemma ReplacesStays(log: seq<Landed>, more: Landed, i: nat)
    requires i < |log| && Replaces(log, i)
    ensures Replaces(log + [more], i)
  {
    var n := log + [more];
    assert n[i] == log[i] && (i > 0 ==> n[i - 1] == log[i - 1]);
    if log[i].job.previous.Some? {
      var s := log[i].job.previous.value;
      var j :| 0 <= j < i && log[j].head.sequence == s && log[i].job.expected == Some(log[j].job.digest);
      assert n[j] == log[j];
    }
  }

  lemma LastReplaces(w: World, p: nat, job: Job, head: Register)
    requires Traced(w) && p < |w.procs| && JobOf(w.procs[p]) == Some(job) && Lands(w, job, Done)
    requires head.sequence == NextSequence(job.previous).value
    ensures Replaces(w.log + [Landed(job, head)], |w.log|)
  {
    hide Numbered, FirstsFirst, LastIsHighest, Replaces;
    LandingSequence(w, job, Done);
    assert InPlaceOf(job, w.locals[p]);
    var n := w.log + [Landed(job, head)];
    if job.previous.Some? {
      assert LandedAs(w.log, w.locals[p].value);
      var j :| && 0 <= j < |w.log|
               && w.log[j].head.sequence == job.previous.value && w.log[j].job.digest == job.expected.value;
      assert LastSequence(w.log) == job.previous;
      ReplacesByExpected(n, |w.log|, j);
    } else {
      ReplacesNothing(n, |w.log|);
    }
  }

  lemma ReplacesNothing(log: seq<Landed>, i: nat)
    requires i < |log| && log[i].job.previous.None? && log[i].job.expected.None? && log[i].head.sequence == 1
    ensures Replaces(log, i)
  {
  }

  lemma ReplacesByExpected(log: seq<Landed>, i: nat, j: nat)
    requires j < i < |log| && log[i].job.previous == Some(log[i - 1].head.sequence)
    requires log[j].head.sequence == log[i - 1].head.sequence && log[i].job.expected == Some(log[j].job.digest)
    ensures Replaces(log, i)
  {
  }

  lemma PutHeadTraced(w: World, p: nat, job: Job, h: Bytes20, outcome: Outcome)
    requires Traced(w) && p < |w.procs| && w.procs[p] == Confirmed(job, h)
    ensures Traced(AfterPutHead(w, p, job, h, outcome))
  {
    PutHeadSequenced(w, p, job, h, outcome);
    PutHeadKeepsExpectations(w, p, job, h, outcome);
    assert JobOf(w.procs[p]) == Some(job);
    hide Sequenced, ExpectationsKept, Replaces, LandedAs, JobOf;
    var n := AfterPutHead(w, p, job, h, outcome);
    if Lands(w, job, outcome) {
      var head := Register(NextSequence(job.previous).value, h);
      var landed := Landed(job, head);
      assert n.log == w.log + [landed];
      LastReplaces(w, p, job, head);
      forall i | 0 <= i < |n.log| ensures Replaces(n.log, i) {
        if i < |w.log| { ReplacesStays(w.log, landed, i); }
      }
      LandsAs(w.log, landed);
      forall q | 0 <= q < |n.locals| && n.locals[q].Some? ensures LandedAs(n.log, n.locals[q].value) {
        if n.locals[q] == w.locals[q] { LandedStays(w.log, landed, w.locals[q].value); }
      }
    }
  }

  lemma LandsAs(log: seq<Landed>, landed: Landed)
    ensures LandedAs(log + [landed], Local(landed.job.digest, landed.head.sequence))
  {
    assert (log + [landed])[|log|] == landed;
  }

  lemma StepTraced(env: Env, w: World, a: Action)
    requires Traced(w) && Honest(w, a)
    ensures Traced(Step(env, w, a))
  {
    hide Advance, AfterPutHead, Replaces, LandedAs, Sequenced;
    assert |w.procs| == |w.locals| by { assert ExpectationsKept(w); }
    StepSequenced(env, w, a);
    StepKeepsExpectations(env, w, a);
    StepShape(env, w, a);
    hide Step, ExpectationsKept;
    var n := Step(env, w, a);
    if a.PutHead? {
      if n != w { PutHeadTraced(w, a.p, w.procs[a.p].job, w.procs[a.p].infoHash, a.outcome); }
    } else {
      assert n.log == w.log;
    }
  }

  lemma {:induction false} RunTraced(env: Env, processes: nat, actions: seq<Action>)
    requires HonestRun(env, processes, actions)
    ensures Traced(Run(env, processes, actions))
  {
    if actions != [] {
      hide Step, Traced, Honest;
      var n := |actions| - 1;
      forall i | 0 <= i < n ensures Honest(Run(env, processes, actions[..n][..i]), actions[..n][i]) {
        assert actions[..n][..i] == actions[..i];
        assert Honest(Run(env, processes, actions[..i]), actions[i]);
      }
      RunTraced(env, processes, actions[..n]);
      assert Honest(Run(env, processes, actions[..n]), actions[n]);
      StepTraced(env, Run(env, processes, actions[..n]), actions[n]);
    }
  }

  lemma {:induction false} SequencesAscend(log: seq<Landed>, j: nat, i: nat)
    requires Numbered(log) && FirstsFirst(log) && j < i < |log|
    requires forall k :: 0 <= k < |log| ==> log[k].head.sequence > 0
    ensures log[j].head.sequence <= log[i].head.sequence
    ensures log[j].head.sequence == log[i].head.sequence ==> log[i].head.sequence == 1
    decreases i
  {
    assert forall k :: 0 <= k < |log| ==>
      log[k].head.sequence == if k == 0 || log[k].job.previous.None? then 1 else log[k - 1].head.sequence + 1;
    if j < i - 1 { SequencesAscend(log, j, i - 1); }
  }

  /** In every run that forgets nothing and restores only states that landed: a publication that
      expected none lands sequence 1, and any other lands behind the head whose sequence it found and
      expected that head's digest, unless that head was one of several first ones. */
  lemma LandingReplacesExpected(env: Env, processes: nat, actions: seq<Action>, i: nat)
    requires HonestRun(env, processes, actions) && i < |Run(env, processes, actions).log|
    ensures var log := Run(env, processes, actions).log;
      && Replaces(log, i)
      && (log[i].head.sequence > 2 ==> i > 0 && log[i].job.expected == Some(log[i - 1].job.digest))
  {
    RunTraced(env, processes, actions);
    hide Run;
    var log := Run(env, processes, actions).log;
    assert Replaces(log, i);
    if log[i].head.sequence > 2 {
      assert Numbered(log) && log[i].job.previous.Some?;
      var s := log[i].job.previous.value;
      var j :| 0 <= j < i && log[j].head.sequence == s && log[i].job.expected == Some(log[j].job.digest);
      if j < i - 1 { SequencesAscend(log, j, i - 1); }
    }
  }

  /** Every head was put in the place its publisher expected: the first in none, each other in that
      of the head before it. */
  ghost predicate Swapped(log: seq<Landed>)
  {
    forall i {:trigger log[i]} :: 0 <= i < |log| ==>
      log[i].job.expected == if i == 0 then None else Some(log[i - 1].job.digest)
  }

  lemma SwappedWhenConsecutive(log: seq<Landed>, i: nat)
    requires i < |log| && Consecutive(log) && Replaces(log, i)
    ensures log[i].job.expected == if i == 0 then None else Some(log[i - 1].job.digest)
  {
    assert log[i].head.sequence == i + 1;
    if log[i].job.previous.Some? {
      var s := log[i].job.previous.value;
      var j :| 0 <= j < i && log[j].head.sequence == s && log[i].job.expected == Some(log[j].job.digest);
      assert log[j].head.sequence == j + 1 && log[i - 1].head.sequence == i;
    }
  }

  lemma OneProcessSwaps(env: Env, processes: nat, actions: seq<Action>)
    requires processes <= 1 && HonestRun(env, processes, actions)
    ensures Swapped(Run(env, processes, actions).log)
  {
    hide Run, Honest;
    RunTraced(env, processes, actions);
    forall a | a in actions ensures Remembers(a) {
      var i :| 0 <= i < |actions| && actions[i] == a;
      assert Honest(Run(env, processes, actions[..i]), actions[i]);
      HonestRemembers(Run(env, processes, actions[..i]), a);
    }
    SinglePublisherIsSerial(env, processes, actions);
    hide Sequenced, ExpectationsKept, LandedAs, Replaces, Consecutive, Swapped;
    AllSwapped(Run(env, processes, actions).log);
  }

  lemma AllSwapped(log: seq<Landed>)
    requires Consecutive(log) && forall i :: 0 <= i < |log| ==> Replaces(log, i)
    ensures Swapped(log)
  {
    hide Consecutive, Replaces;
    forall i | 0 <= i < |log| ensures log[i].job.expected == if i == 0 then None else Some(log[i - 1].job.digest) {
      SwappedWhenConsecutive(log, i);
    }
  }

  lemma HonestRemembers(w: World, a: Action)
    requires Honest(w, a)
    ensures Remembers(a)
  {
  }

  /** The compare-and-swap protects every head, in every such run, if and only if at most one
      process publishes. */
  lemma SwappedExactly(env: Env, processes: nat)
    ensures (forall actions :: HonestRun(env, processes, actions) ==> Swapped(Run(env, processes, actions).log))
            <==> processes <= 1
  {
    hide Run, HonestRun;
    if processes <= 1 {
      forall actions | HonestRun(env, processes, actions) ensures Swapped(Run(env, processes, actions).log) {
        OneProcessSwaps(env, processes, actions);
      }
    } else {
      var actions := FirstPublicationsRace(env, processes);
      RaceIsHonest(env, processes, actions);
      RunTraced(env, processes, actions);
      var log := Run(env, processes, actions).log;
      assert Numbered(log) && Replaces(log, 1);
      assert log[1].job.previous.None?;
    }
  }

  lemma RaceIsHonest(env: Env, processes: nat, actions: seq<Action>)
    requires forall a :: a in actions ==> Remembers(a) && !a.Crash?
    ensures HonestRun(env, processes, actions)
  {
    hide Run;
    forall i | 0 <= i < |actions| ensures Honest(Run(env, processes, actions[..i]), actions[i]) {
      assert actions[i] in actions;
    }
  }

  /** A process that lost the race of first publications goes on from its own state: the digest it
      expects is that of its own head, but the head it replaces is the other one. */
  lemma RacedHeadIsReplacedUnseen(env: Env) returns (actions: seq<Action>)
    ensures var log := Run(env, 2, actions).log;
      && |log| == 3 && log[0].job.edition != log[1].job.edition
      && log[2].job.previous == Some(log[1].head.sequence)
      && log[2].job.expected == Some(log[0].job.digest)
  {
    hide Step, Steps;
    var road := BothReachPut(env, 2);
    var w0, w := TorrentPublisher.Initial(2), Run(env, 2, road);
    PutLands(env, w, 0, Done);
    var first := Step(env, w, PutHead(0, Done));
    PutLands(env, first, 1, Done);
    StepsThen(env, w0, road, PutHead(0, Done));
    StepsThen(env, w0, road + [PutHead(0, Done)], PutHead(1, Done));
    var raced := road + [PutHead(0, Done)] + [PutHead(1, Done)];
    var second := Step(env, first, PutHead(1, Done));
    var more := BeginsAndReachesPut(env, second, 0, 3);
    StepsConcat(env, w0, raced, more);
    RunKeepsExpectations(env, 2, raced + more);
    var ready := Run(env, 2, raced + more);
    assert JobOf(ready.procs[0]) == Some(ready.procs[0].job);
    PutLands(env, ready, 0, Done);
    StepsThen(env, w0, raced + more, PutHead(0, Done));
    actions := raced + more + [PutHead(0, Done)];
  }
}
