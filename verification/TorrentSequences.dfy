/** Sequences of the torrent publication protocol: how landing heads are numbered, what becomes of
    a head whose publisher never heard of it, and who can overwrite it. */
module TorrentSequences {
  import opened Bytes
  import opened Outcomes
  import opened DatasetManifest
  import opened DatasetCore
  import opened TorrentReference
  import opened SwarmHead
  import opened TorrentPublisher

  // ---- sequences -------------------------------------------------------------------------------

  /** The first head has sequence 1; a later one has the next sequence, unless it too was
      published as a first head. */
  ghost predicate Numbered(log: seq<Landed>)
  {
    forall i :: 0 <= i < |log| ==>
      log[i].head.sequence ==
        if i == 0 || log[i].job.previous.None? then 1 else log[i - 1].head.sequence + 1
  }

  /** First heads can only follow first heads. */
  ghost predicate FirstsFirst(log: seq<Landed>)
  {
    forall i :: 0 < i < |log| && log[i].job.previous.None? ==> log[i - 1].head.sequence == 1
  }

  predicate Remembers(a: Action)
  {
    !a.Forget?
  }

  function LastSequence(log: seq<Landed>): Option<i64>
  {
    if log == [] then None else Some(log[|log| - 1].head.sequence)
  }

  function JobOf(phase: Phase): Option<Job>
  {
    match phase case Idle => None case _ => Some(phase.job)
  }

  /** While the DHT forgets nothing the register carries the sequence of the last landed head. */
  ghost predicate Sequenced(w: World)
  {
    && |w.procs| == |w.locals|
    && Numbered(w.log) && FirstsFirst(w.log)
    && SequenceOf(w.register) == LastSequence(w.log)
    && (forall p :: 0 <= p < |w.procs| && JobOf(w.procs[p]).Some? && JobOf(w.procs[p]).value.previous.Some? ==>
          w.log != [])
    && LastIsHighest(w.log)
  }

  lemma LandingSequence(w: World, job: Job, outcome: Outcome)
    requires Lands(w, job, outcome)
    ensures NextSequence(job.previous).Some?
    ensures job.previous.Some? && w.register.Some? ==>
              SequenceOf(w.register) == job.previous && NextSequence(job.previous).value == job.previous.value + 1
    ensures job.previous.None? ==>
            NextSequence(job.previous).value == 1 && (w.register.Some? ==> w.register.value.sequence <= 1)
  {
  }

  /** Sequences of this log are positive and none is above its last. */
  ghost predicate LastIsHighest(log: seq<Landed>)
  {
    forall i :: 0 <= i < |log| ==> 0 < log[i].head.sequence <= LastSequence(log).value
  }

  lemma Appended(log: seq<Landed>, landed: Landed)
    requires Numbered(log) && FirstsFirst(log) && LastIsHighest(log)
    requires match landed.job.previous
             case None => landed.head.sequence == 1 && (log != [] ==> LastSequence(log).value <= 1)
             case Some(s) => landed.head.sequence == s + 1 && LastSequence(log) == Some(s)
    ensures Numbered(log + [landed]) && FirstsFirst(log + [landed]) && LastIsHighest(log + [landed])
  {
    var n := log + [landed];
    if log != [] { assert log[|log| - 1].head.sequence > 0; }
    assert forall i :: 0 <= i < |log| ==>
      log[i].head.sequence == if i == 0 || log[i].job.previous.None? then 1 else log[i - 1].head.sequence + 1;
    forall i | 0 <= i < |n|
      ensures 0 < n[i].head.sequence <= LastSequence(n).value
      ensures n[i].head.sequence == if i == 0 || n[i].job.previous.None? then 1 else n[i - 1].head.sequence + 1
    {
      if i < |log| {
        assert n[i] == log[i] && (i > 0 ==> n[i - 1] == log[i - 1]);
      } else if i > 0 && landed.job.previous.Some? {
        assert n[i - 1] == log[i - 1] && LastSequence(log) == Some(log[i - 1].head.sequence);
      }
    }
  }

  lemma PutHeadSequenced(w: World, p: nat, job: Job, h: Bytes20, outcome: Outcome)
    requires Sequenced(w) && p < |w.procs| && w.procs[p] == Confirmed(job, h)
    ensures Sequenced(AfterPutHead(w, p, job, h, outcome))
  {
    assert JobOf(w.procs[p]) == Some(job);
    hide Lands, Numbered, FirstsFirst, LastIsHighest;
    if Lands(w, job, outcome) {
      LandingSequence(w, job, outcome);
      Appended(w.log, Landed(job, Register(NextSequence(job.previous).value, h)));
    }
  }

  /** A publication begins from agreement between local state and register. */
  predicate Agrees(local: Option<Local>, register: Option<Register>)
  {
    match local
    case None => register.None?
    case Some(l) => SequenceOf(register) == Some(l.sequence)
  }

  /** A step in the middle of a publication, or its start, keeps the job and the shared sequence. */
  lemma QuietShape(env: Env, w: World, a: Action)
    requires !a.Forget? && !a.Reannounce? && !a.PutHead? && !a.Crash?
    requires |w.procs| == |w.locals| && a.p < |w.procs|
    ensures var n := Advance(env, w, a);
      && |n.procs| == |w.procs|
      && n.register == w.register && n.log == w.log && n.locals == w.locals
      && (forall q :: 0 <= q < |w.procs| && q != a.p ==> n.procs[q] == w.procs[q])
      && (|| n.procs[a.p].Idle?
          || JobOf(n.procs[a.p]) == JobOf(w.procs[a.p])
          || (&& JobOf(n.procs[a.p]).value.previous == SequenceOf(w.register) && Agrees(w.locals[a.p], w.register)
              && JobOf(n.procs[a.p]).value.expected == DigestOf(w.locals[a.p])))
  {
    hide Staged, ManifestDigest, Layout, StagedPath, StagedBytes, Reserved;
  }

  ghost predicate FoundAgreement(w: World, n: World, q: nat)
    requires q < |w.procs| == |n.procs| && q < |w.locals|
  {
    || n.procs[q].Idle?
    || JobOf(n.procs[q]) == JobOf(w.procs[q])
    || (&& JobOf(n.procs[q]).value.previous == SequenceOf(w.register) && Agrees(w.locals[q], w.register)
        && JobOf(n.procs[q]).value.expected == DigestOf(w.locals[q]))
  }

  /** How a step can move the sequence-bearing parts of the world. */
  lemma StepShape(env: Env, w: World, a: Action)
    requires |w.procs| == |w.locals|
    ensures var n := Step(env, w, a);
      && |n.procs| == |w.procs| == |n.locals|
      && (a.Forget? || a.Reannounce? ==> n.procs == w.procs && n.log == w.log && n.locals == w.locals)
      && (!a.Forget? && !a.Reannounce? && !a.PutHead? ==> n.register == w.register && n.log == w.log)
      && (!a.Crash? && !a.PutHead? ==> n.locals == w.locals)
      && (a.Crash? && n.locals != w.locals ==> a.p < |w.locals| && n.locals == w.locals[a.p := a.restored])
      && (!a.PutHead? ==> forall q :: 0 <= q < |w.procs| ==> FoundAgreement(w, n, q))
      && (a.PutHead? && n != w ==>
            a.p < |w.procs| && w.procs[a.p].Confirmed?
            && n == AfterPutHead(w, a.p, w.procs[a.p].job, w.procs[a.p].infoHash, a.outcome))
  {
    match a {
      case Forget =>
      case Reannounce(_) =>
      case PutHead(_, _) => hide AfterPutHead;
      case Crash(_, _) =>
      case _ =>
        if a.p < |w.procs| {
          QuietShape(env, w, a);
          hide Advance;
        }
    }
  }

  lemma StepSequenced(env: Env, w: World, a: Action)
    requires Sequenced(w) && Remembers(a)
    ensures Sequenced(Step(env, w, a))
  {
    hide Numbered, FirstsFirst, Advance, AfterPutHead;
    StepShape(env, w, a);
    var n := Step(env, w, a);
    if !a.PutHead? {
      assert forall q :: 0 <= q < |w.procs| ==> FoundAgreement(w, n, q);
      forall q | 0 <= q < |w.procs| && JobOf(n.procs[q]).Some? && JobOf(n.procs[q]).value.previous.Some?
        ensures w.log != []
      {
        assert FoundAgreement(w, n, q);
      }
    } else if n != w {
      PutHeadSequenced(w, a.p, w.procs[a.p].job, w.procs[a.p].infoHash, a.outcome);
    }
  }

  /** Every head that lands advances the sequence by exactly one, save that first publications
      racing each other all land with sequence 1. */
  lemma {:induction false} LandingsAreNumbered(env: Env, processes: nat, actions: seq<Action>)
    requires forall a :: a in actions ==> Remembers(a)
    ensures Sequenced(Run(env, processes, actions))
  {
    if actions != [] {
      hide Step;
      var n := |actions| - 1;
      LandingsAreNumbered(env, processes, actions[..n]);
      assert actions[n] in actions;
      StepSequenced(env, Run(env, processes, actions[..n]), actions[n]);
    }
  }

  /** Head `i` has sequence `i + 1`. */
  ghost predicate Consecutive(log: seq<Landed>)
  {
    forall i :: 0 <= i < |log| ==> log[i].head.sequence == i + 1
  }

  /** At most one process, whose publication found the register as the log left it. */
  ghost predicate Undisturbed(w: World)
  {
    && Sequenced(w) && |w.procs| <= 1
    && (|w.procs| == 1 && JobOf(w.procs[0]).Some? ==> JobOf(w.procs[0]).value.previous == LastSequence(w.log))
    && Consecutive(w.log)
  }

  lemma StepUndisturbed(env: Env, w: World, a: Action)
    requires Undisturbed(w) && Remembers(a)
    ensures Undisturbed(Step(env, w, a))
  {
    hide Numbered, FirstsFirst, Step;
    StepSequenced(env, w, a);
    StepShape(env, w, a);
    assert |w.procs| == 1 && !a.PutHead? ==> FoundAgreement(w, Step(env, w, a), 0);
  }

  /** One publisher, however often it fails, crashes or is restored with whatever state: the
      heads that land are numbered 1, 2, 3, ... without gaps. */
  lemma {:induction false} SinglePublisherIsSerial(env: Env, processes: nat, actions: seq<Action>)
    requires processes <= 1
    requires forall a :: a in actions ==> Remembers(a)
    ensures Undisturbed(Run(env, processes, actions))
  {
    if actions != [] {
      hide Step;
      var n := |actions| - 1;
      SinglePublisherIsSerial(env, processes, actions[..n]);
      assert actions[n] in actions;
      StepUndisturbed(env, Run(env, processes, actions[..n]), actions[n]);
    }
  }

  /** Each landing on its own, whatever the DHT forgets: one more than the sequence its
      publication found, or 1 when it found none. */
  ghost predicate FollowsJob(landed: Landed)
  {
    landed.head.sequence == match landed.job.previous case None => 1 case Some(s) => s + 1
  }

  lemma {:induction false} EveryLandingFollows(env: Env, processes: nat, actions: seq<Action>)
    ensures var w := Run(env, processes, actions);
      |w.procs| == |w.locals| && forall i :: 0 <= i < |w.log| ==> FollowsJob(w.log[i])
  {
    if actions != [] {
      var n := |actions| - 1;
      EveryLandingFollows(env, processes, actions[..n]);
      hide Step;
      LandingFollows(env, Run(env, processes, actions[..n]), actions[n]);
    }
  }

  lemma LandingFollows(env: Env, w: World, a: Action)
    requires |w.procs| == |w.locals| && forall i :: 0 <= i < |w.log| ==> FollowsJob(w.log[i])
    ensures var n := Step(env, w, a);
      |n.procs| == |n.locals| && forall i :: 0 <= i < |n.log| ==> FollowsJob(n.log[i])
  {
    StepShape(env, w, a);
    hide Advance;
  }

  // ---- going on ------------------------------------------------------------------------------------

  /** A publication under way can take its next step. */
  predicate Sound(env: Env, w: World, p: nat)
    requires p < |w.procs|
  {
    match w.procs[p]
    case Filling(job, k) => k <= |job.edition.files| + 1 && Staging(env, p, job) in w.staging
    case Finished(job) => job.digest in w.finals
    case _ => true
  }

  /** The next step of a publication under way, when nothing fails. */
  function NextAction(p: nat, phase: Phase): Action
  {
    match phase
    case Idle => Begin(p, 1, [], None, true)
    case Clearing(_) => Clear(p, true, map[])
    case Filling(job, k) => if k <= |job.edition.files| then WriteFile(p, true, map[]) else Rename(p, Done, true)
    case Finished(_) => Seed(p, true)
    case Created(_, _) => Announce(p, Done)
    case Announced(_, _) => Reresolve(p, true)
    case Confirmed(_, _) => PutHead(p, Done)
  }

  /** The steps left before the head can be put. */
  function StepsLeft(phase: Phase): nat
  {
    match phase
    case Clearing(job) => |job.edition.files| + 6
    case Filling(job, k) => if k <= |job.edition.files| then |job.edition.files| - k + 5 else 4
    case Finished(_) => 3
    case Created(_, _) => 2
    case Announced(_, _) => 1
    case _ => 0
  }

  /** Nothing happened but to the phase of process `p` and to files and announcements. */
  predicate Beside(w: World, n: World, p: nat)
  {
    && p < |w.procs| == |w.locals| && |n.procs| == |w.procs| && n.procs == w.procs[p := n.procs[p]]
    && n.register == w.register && n.log == w.log && n.locals == w.locals
  }

  lemma NextActionAdvances(env: Env, w: World, p: nat)
    requires p < |w.procs| == |w.locals| && Sound(env, w, p)
    requires !w.procs[p].Idle? && !w.procs[p].Confirmed? && w.procs[p].job.previous == SequenceOf(w.register)
    ensures var n := Step(env, w, NextAction(p, w.procs[p]));
      && Beside(w, n, p) && Sound(env, n, p)
      && !n.procs[p].Idle? && n.procs[p].job == w.procs[p].job
      && StepsLeft(n.procs[p]) < StepsLeft(w.procs[p])
  {
    hide StagedPath, StagedBytes, AfterBegin, AfterPutHead;
  }

  /** Only steps of process `p` that neither restore a state nor touch the register. */
  predicate OwnSteps(actions: seq<Action>, p: nat)
  {
    forall a :: a in actions ==> !a.Reannounce? && !a.Forget? && !a.Crash? && a.p == p
  }

  /** A publication that found the sequence the register still has can be brought to its put. */
  lemma {:induction false} ReachesPut(env: Env, w: World, p: nat) returns (actions: seq<Action>)
    requires p < |w.procs| == |w.locals| && Sound(env, w, p)
    requires !w.procs[p].Idle? && w.procs[p].job.previous == SequenceOf(w.register)
    ensures var n := Steps(env, w, actions);
      Beside(w, n, p) && n.procs[p].Confirmed? && n.procs[p].job == w.procs[p].job
    ensures OwnSteps(actions, p)
    decreases StepsLeft(w.procs[p])
  {
    if w.procs[p].Confirmed? {
      actions := [];
    } else {
      var a := NextAction(p, w.procs[p]);
      NextActionAdvances(env, w, p);
      OneStep(env, w, a);
      hide Step, Steps, Sound;
      var rest := ReachesPut(env, Step(env, w, a), p);
      actions := [a] + rest;
      StepsConcat(env, w, [a], rest);
    }
  }

  lemma OneStep(env: Env, w: World, a: Action)
    ensures Steps(env, w, [a]) == Step(env, w, a)
  {
    assert [a][..0] == [] && Steps(env, w, []) == w;
  }

  function EmptyEdition(env: Env, createdAt: u64): Edition
  {
    Edition([], Manifest(env.id, createdAt, []))
  }

  /** Whoever agrees with the register can begin: here, to publish an empty dataset. */
  lemma Begins(env: Env, w: World, p: nat, createdAt: u64) returns (a: Action)
    requires p < |w.procs| == |w.locals| && w.procs[p].Idle? && Agrees(w.locals[p], w.register) && createdAt > 0
    ensures var n := Step(env, w, a);
      && Beside(w, n, p) && Sound(env, n, p) && !n.procs[p].Idle?
      && n.procs[p].job.previous == SequenceOf(w.register) && n.procs[p].job.edition == EmptyEdition(env, createdAt)
    ensures OwnSteps([a], p)
  {
    hide ManifestDigest;
    a := Begin(p, createdAt, [], DigestOf(w.locals[p]), true);
    assert Staged(env.c, env.id, createdAt, []) == Ok(Snapshot(Manifest(env.id, createdAt, []), map[])) by {
      assert Entries(env.c, []) == [];
    }
  }

  lemma BeginsAndReachesPut(env: Env, w: World, p: nat, createdAt: u64) returns (actions: seq<Action>)
    requires p < |w.procs| == |w.locals| && w.procs[p].Idle? && Agrees(w.locals[p], w.register) && createdAt > 0
    ensures var n := Steps(env, w, actions);
      && Beside(w, n, p) && n.procs[p].Confirmed?
      && n.procs[p].job.previous == SequenceOf(w.register) && n.procs[p].job.edition == EmptyEdition(env, createdAt)
    ensures OwnSteps(actions, p)
  {
    hide Step, Steps, Agrees, Sound;
    var a := Begins(env, w, p, createdAt);
    var rest := ReachesPut(env, Step(env, w, a), p);
    OneStep(env, w, a);
    StepsConcat(env, w, [a], rest);
    actions := [a] + rest;
  }

  /** A put whose publication is not superseded lands. */
  lemma PutLands(env: Env, w: World, p: nat, outcome: Outcome)
    requires p < |w.procs| == |w.locals| && w.procs[p].Confirmed? && !outcome.NotDone?
    requires NextSequence(w.procs[p].job.previous).Some?
    requires Accepts(w.register, NextSequence(w.procs[p].job.previous).value, w.procs[p].job.previous)
    ensures var n := Step(env, w, PutHead(p, outcome));
      var head := Register(NextSequence(w.procs[p].job.previous).value, w.procs[p].infoHash);
      && n.register == Some(head) && n.log == w.log + [Landed(w.procs[p].job, head)]
      && n.procs == w.procs[p := Idle]
      && n.locals ==
         if outcome.Done? then w.locals[p := Some(Local(w.procs[p].job.digest, head.sequence))] else w.locals
  {
  }

  /** A publication under way can give up and leave everything but files as it was. */
  lemma GivesUp(env: Env, w: World, p: nat) returns (a: Action)
    requires p < |w.procs| == |w.locals| && Sound(env, w, p) && !w.procs[p].Idle?
    ensures Beside(w, Step(env, w, a), p) && Step(env, w, a).procs[p].Idle?
    ensures OwnSteps([a], p)
  {
    hide StagedPath, StagedBytes, AfterBegin;
    a := match w.procs[p]
      case Clearing(_) => Clear(p, false, map[])
      case Filling(job, k) => if k <= |job.edition.files| then WriteFile(p, false, map[]) else Rename(p, NotDone, false)
      case Finished(_) => Seed(p, false)
      case Created(_, _) => Announce(p, NotDone)
      case Announced(_, _) => Reresolve(p, false)
      case _ => PutHead(p, NotDone);
  }

  // ---- who can still overwrite a head --------------------------------------------------------------

  /** A publication in this phase can no longer land over a head of this sequence: its put would be
      refused, or the second resolution before it. */
  predicate Doomed(phase: Phase, sequence: i64)
  {
    match phase
    case Idle => true
    case Confirmed(job, _) => (match job.previous case None => sequence > 1 case Some(s) => s != sequence)
    case _ => phase.job.previous != Some(sequence)
  }

  predicate Carries(local: Option<Local>, sequence: i64)
  {
    local.Some? && local.value.sequence == sequence
  }

  /** No publication under way can land, and nobody's local state carries the registered sequence. */
  ghost predicate Stuck(w: World)
  {
    && |w.procs| == |w.locals| && w.register.Some?
    && (forall p :: 0 <= p < |w.procs| ==> Doomed(w.procs[p], w.register.value.sequence))
    && (forall p :: 0 <= p < |w.locals| ==> !Carries(w.locals[p], w.register.value.sequence))
  }

  /** No head that ever landed is newer than the registered one. */
  ghost predicate Newest(w: World)
  {
    w.register.Some? && forall i :: 0 <= i < |w.log| ==> w.log[i].head.sequence <= w.register.value.sequence
  }

  /** Every step but the DHT forgetting the head, and a restart with a state of this sequence. */
  predicate Unaided(a: Action, sequence: i64)
  {
    !a.Forget? && !(a.Crash? && Carries(a.restored, sequence))
  }

  lemma StuckRefuses(env: Env, w: World, a: Action)
    requires Stuck(w) && a.Begin? && a.p < |w.procs|
    ensures Begun(env, w.locals[a.p], w.register, a).Err? && Step(env, w, a) == w
  {
    hide Doomed;
  }

  lemma StuckPutFails(w: World, p: nat, job: Job, h: Bytes20, outcome: Outcome)
    requires Stuck(w) && p < |w.procs| && w.procs[p] == Confirmed(job, h)
    ensures AfterPutHead(w, p, job, h, outcome) == w.(procs := w.procs[p := Idle])
  {
    assert Doomed(w.procs[p], w.register.value.sequence);
  }

  /** A step between begin and put, or a crash, leaves a doomed publication doomed. */
  lemma AdvanceDoomed(env: Env, w: World, a: Action)
    requires !a.Reannounce? && !a.Forget? && !a.Begin? && !a.PutHead? && a.p < |w.procs| == |w.locals|
    requires w.register.Some? && Doomed(w.procs[a.p], w.register.value.sequence)
    ensures var n := Advance(env, w, a);
      && n.register == w.register && n.log == w.log && |n.procs| == |w.procs| == |n.locals|
      && (forall q :: 0 <= q < |w.procs| && q != a.p ==> n.procs[q] == w.procs[q])
      && Doomed(n.procs[a.p], w.register.value.sequence)
      && n.locals == if a.Crash? then w.locals[a.p := a.restored] else w.locals
  {
    hide StagedPath, StagedBytes;
  }

  lemma ReannouncedEqual(env: Env, w: World, i: nat)
    requires Newest(w)
    ensures var n := Step(env, w, Reannounce(i));
      n == w.(register := n.register) && n.register.Some? && SequenceOf(n.register) == SequenceOf(w.register)
  {
  }

  lemma StepStuck(env: Env, w: World, a: Action)
    requires Stuck(w) && Newest(w) && Unaided(a, w.register.value.sequence)
    ensures var n := Step(env, w, a);
      Stuck(n) && Newest(n) && n.log == w.log && SequenceOf(n.register) == SequenceOf(w.register)
  {
    hide Begun, Doomed, Carries, AfterPutHead;
    if a.Reannounce? {
      ReannouncedEqual(env, w, a.which);
    } else if a.p >= |w.procs| {
    } else if a.Begin? {
      StuckRefuses(env, w, a);
    } else if a.PutHead? {
      if w.procs[a.p].Confirmed? {
        StuckPutFails(w, a.p, w.procs[a.p].job, w.procs[a.p].infoHash, a.outcome);
        IdleIsDoomed(w.register.value.sequence);
      }
    } else {
      AdvanceDoomed(env, w, a);
      hide Advance;
    }
  }

  lemma IdleIsDoomed(sequence: i64)
    ensures Doomed(Idle, sequence)
  {
  }

  /** Once stuck, every later publication is refused and none under way goes through, whoever
      restarts with whatever state but the registered sequence: no further head ever lands. */
  lemma {:induction false} StuckForever(env: Env, w: World, actions: seq<Action>)
    requires Stuck(w) && Newest(w)
    requires forall a :: a in actions ==> Unaided(a, w.register.value.sequence)
    ensures var n := Steps(env, w, actions);
      && Stuck(n) && Newest(n) && n.log == w.log && SequenceOf(n.register) == SequenceOf(w.register)
      && forall a: Action :: a.Begin? && a.p < |n.procs| ==>
           Begun(env, n.locals[a.p], n.register, a).Err? && Step(env, n, a) == n
  {
    if actions != [] {
      hide Step, Unaided;
      var n := |actions| - 1;
      StuckForever(env, w, actions[..n]);
      assert actions[n] in actions;
      hide Stuck, Newest;
      StepStuck(env, Steps(env, w, actions[..n]), actions[n]);
    }
    hide Stuck, Newest, Step, Begun;
    var n := Steps(env, w, actions);
    forall a: Action | a.Begin? && a.p < |n.procs|
      ensures Begun(env, n.locals[a.p], n.register, a).Err? && Step(env, n, a) == n
    {
      StuckRefuses(env, n, a);
    }
  }

  ghost predicate AllSound(env: Env, w: World)
  {
    |w.procs| == |w.locals| && forall p :: 0 <= p < |w.procs| ==> Sound(env, w, p)
  }

  /** Every continuation that neither forgets the head nor restores the registered sequence leaves
      the head as it is. */
  ghost predicate Final(env: Env, w: World)
    requires w.register.Some?
  {
    forall later :: (forall a :: a in later ==> Unaided(a, w.register.value.sequence)) ==>
      Steps(env, w, later).log == w.log
  }

  lemma OwnStepsUnaided(actions: seq<Action>, p: nat, sequence: i64)
    requires OwnSteps(actions, p)
    ensures forall a :: a in actions ==> Unaided(a, sequence)
  {
  }

  /** Whoever found the registered sequence, or carries it, can go on and land another head. */
  lemma Overwrites(env: Env, w: World, p: nat) returns (later: seq<Action>)
    requires AllSound(env, w) && w.register.Some? && p < |w.procs|
    requires NextSequence(SequenceOf(w.register)).Some?
    requires !Doomed(w.procs[p], w.register.value.sequence) || Carries(w.locals[p], w.register.value.sequence)
    ensures OwnSteps(later, p) && |Steps(env, w, later).log| == |w.log| + 1
  {
    if !Doomed(w.procs[p], w.register.value.sequence) {
      later := RivalOverwrites(env, w, p);
    } else if w.procs[p].Idle? {
      later := CarrierOverwrites(env, w, p);
    } else {
      hide Step, Steps, Sound, Doomed;
      var a := GivesUp(env, w, p);
      OneStep(env, w, a);
      var rest := CarrierOverwrites(env, Step(env, w, a), p);
      later := [a] + rest;
      StepsConcat(env, w, [a], rest);
    }
  }

  lemma CarrierOverwrites(env: Env, w: World, p: nat) returns (later: seq<Action>)
    requires p < |w.procs| == |w.locals| && w.procs[p].Idle? && w.register.Some?
    requires Carries(w.locals[p], w.register.value.sequence) && NextSequence(SequenceOf(w.register)).Some?
    ensures OwnSteps(later, p) && |Steps(env, w, later).log| == |w.log| + 1
  {
    hide Step, Steps;
    var road := BeginsAndReachesPut(env, w, p, 1);
    PutLands(env, Steps(env, w, road), p, Done);
    later := road + [PutHead(p, Done)];
    StepsThen(env, w, road, PutHead(p, Done));
  }

  lemma RivalOverwrites(env: Env, w: World, p: nat) returns (later: seq<Action>)
    requires p < |w.procs| == |w.locals| && Sound(env, w, p) && w.register.Some?
    requires NextSequence(SequenceOf(w.register)).Some?
    requires !Doomed(w.procs[p], w.register.value.sequence)
    ensures OwnSteps(later, p) && |Steps(env, w, later).log| == |w.log| + 1
  {
    hide Step, Steps;
    if w.procs[p].Confirmed? {
      PutLands(env, w, p, Done);
      OneStep(env, w, PutHead(p, Done));
      later := [PutHead(p, Done)];
    } else {
      var road := ReachesPut(env, w, p);
      PutLands(env, Steps(env, w, road), p, Done);
      later := road + [PutHead(p, Done)];
      StepsThen(env, w, road, PutHead(p, Done));
    }
  }

  /** Nothing can follow the registered head: it has the greatest sequence there is. */
  ghost predicate Exhausted(w: World)
  {
    |w.procs| == |w.locals| && Newest(w) && NextSequence(SequenceOf(w.register)).None?
  }

  lemma StepExhausted(env: Env, w: World, a: Action)
    requires Exhausted(w) && !a.Forget?
    ensures var n := Step(env, w, a);
      Exhausted(n) && n.log == w.log && SequenceOf(n.register) == SequenceOf(w.register)
  {
    StepShape(env, w, a);
    if a.Reannounce? { ReannouncedEqual(env, w, a.which); }
    hide Advance, Step;
  }

  lemma {:induction false} ExhaustedForever(env: Env, w: World, actions: seq<Action>)
    requires Exhausted(w) && forall a :: a in actions ==> Remembers(a)
    ensures Exhausted(Steps(env, w, actions)) && Steps(env, w, actions).log == w.log
  {
    if actions != [] {
      hide Step, Exhausted;
      var n := |actions| - 1;
      ExhaustedForever(env, w, actions[..n]);
      assert actions[n] in actions;
      StepExhausted(env, Steps(env, w, actions[..n]), actions[n]);
    }
  }

  lemma UnaidedRemembers(actions: seq<Action>, sequence: i64)
    requires forall a :: a in actions ==> Unaided(a, sequence)
    ensures forall a :: a in actions ==> Remembers(a)
  {
  }

  /** The registered head can no longer be overwritten if and only if nobody under way can land and
      nobody's local state carries its sequence, or there is no sequence beyond its own. */
  lemma FinalExactly(env: Env, w: World)
    requires AllSound(env, w) && Newest(w)
    ensures Final(env, w) <==> Stuck(w) || NextSequence(SequenceOf(w.register)).None?
  {
    var k := w.register.value.sequence;
    hide Step, Steps, Sound, Doomed, Carries, Newest, Unaided, NextSequence;
    if NextSequence(SequenceOf(w.register)).None? {
      forall later | forall a :: a in later ==> Unaided(a, k) ensures Steps(env, w, later).log == w.log {
        UnaidedRemembers(later, k);
        ExhaustedForever(env, w, later);
      }
    } else if Stuck(w) {
      forall later | forall a :: a in later ==> Unaided(a, k) ensures Steps(env, w, later).log == w.log {
        StuckForever(env, w, later);
      }
    } else {
      var p :| 0 <= p < |w.procs| && (!Doomed(w.procs[p], k) || Carries(w.locals[p], k));
      var later := Overwrites(env, w, p);
      OwnStepsUnaided(later, p, k);
      assert Steps(env, w, later).log != w.log;
    }
  }

  // ---- every run is sound -----------------------------------------------------------------------------

  lemma OwnSound(env: Env, w: World, a: Action)
    requires !a.Reannounce? && !a.Forget? && a.p < |w.procs| == |w.locals| && Sound(env, w, a.p)
    ensures |Advance(env, w, a).procs| == |w.procs| == |Advance(env, w, a).locals|
    ensures Sound(env, Advance(env, w, a), a.p)
  {
    hide StagedPath, StagedBytes, Begun;
  }

  lemma OtherSound(env: Env, w: World, a: Action, q: nat)
    requires !a.Reannounce? && !a.Forget? && a.p < |w.procs| == |w.locals| && q < |w.procs| && q != a.p
    requires Sound(env, w, q) && env.pid(q) != env.pid(a.p)
    ensures |Advance(env, w, a).procs| == |w.procs| && Sound(env, Advance(env, w, a), q)
  {
    hide StagedPath, StagedBytes, Begun;
  }

  lemma StepSound(env: Env, w: World, a: Action)
    requires AllSound(env, w) && ApartInProcess(env, |w.procs|)
    ensures AllSound(env, Step(env, w, a)) && |Step(env, w, a).procs| == |w.procs|
  {
    var n := Step(env, w, a);
    if !a.Reannounce? && !a.Forget? && a.p < |w.procs| {
      hide Advance, Sound;
      OwnSound(env, w, a);
      forall q | 0 <= q < |n.procs| ensures Sound(env, n, q) {
        if q != a.p { OtherSound(env, w, a, q); }
      }
    } else {
      forall q | 0 <= q < |n.procs| ensures Sound(env, n, q) {
        assert Sound(env, w, q);
      }
    }
  }

  lemma {:induction false} RunSound(env: Env, processes: nat, actions: seq<Action>)
    requires ApartInProcess(env, processes)
    ensures AllSound(env, Run(env, processes, actions)) && |Run(env, processes, actions).procs| == processes
  {
    if actions != [] {
      hide Step, AllSound;
      var n := |actions| - 1;
      RunSound(env, processes, actions[..n]);
      StepSound(env, Run(env, processes, actions[..n]), actions[n]);
    }
  }

  // ---- a lost acknowledgement -------------------------------------------------------------------------

  /** How the publisher of a landed head misses it: it is told the put failed, or it crashes before
      it notes the success and restarts with `restored`. */
  datatype Ending = ToldFailed | Crashed(restored: Option<Local>)

  function AfterUnheard(env: Env, w: World, p: nat, ending: Ending): World
  {
    match ending
    case ToldFailed => Step(env, w, PutHead(p, DoneButFailed))
    case Crashed(restored) => Step(env, Step(env, w, PutHead(p, Done)), Crash(p, restored))
  }

  function LandingOf(phase: Phase): Option<i64>
    requires phase.Confirmed?
  {
    NextSequence(phase.job.previous)
  }

  /** The head of process `p` lands, as the newest that ever did. */
  ghost predicate LandsUnheard(w: World, p: nat)
  {
    && p < |w.procs| == |w.locals| && w.procs[p].Confirmed?
    && Lands(w, w.procs[p].job, Done)
    && forall i :: 0 <= i < |w.log| ==> w.log[i].head.sequence <= LandingOf(w.procs[p]).value
  }

  /** No other publication under way can still land over the head of `p`, and no local state, nor
      the one `p` is restored with, carries its sequence. */
  predicate Unrivalled(w: World, p: nat, ending: Ending)
    requires p < |w.procs| == |w.locals| && w.procs[p].Confirmed? && LandingOf(w.procs[p]).Some?
  {
    var k := LandingOf(w.procs[p]).value;
    && (forall q :: 0 <= q < |w.procs| && q != p ==> Doomed(w.procs[q], k) && !Carries(w.locals[q], k))
    && !Carries(if ending.Crashed? then ending.restored else w.locals[p], k)
  }

  lemma UnheardIs(env: Env, w: World, p: nat, ending: Ending)
    requires LandsUnheard(w, p)
    ensures var job := w.procs[p].job;
      var head := Register(LandingOf(w.procs[p]).value, w.procs[p].infoHash);
      AfterUnheard(env, w, p, ending) ==
        w.(register := Some(head), log := w.log + [Landed(job, head)], procs := w.procs[p := Idle],
           locals := if ending.Crashed? then w.locals[p := ending.restored] else w.locals)
  {
    var job := w.procs[p].job;
    assert Lands(w, job, DoneButFailed);
    hide Lands;
    assert w.procs[p := Idle][p := Idle] == w.procs[p := Idle];
    if ending.Crashed? {
      var noted := Some(Local(job.digest, LandingOf(w.procs[p]).value));
      assert w.locals[p := noted][p := ending.restored] == w.locals[p := ending.restored];
    }
  }

  /** After an unheard landing the world is stuck if and only if the head was unrivalled. */
  lemma StuckExactly(env: Env, w: World, p: nat, ending: Ending)
    requires LandsUnheard(w, p)
    ensures Stuck(AfterUnheard(env, w, p, ending)) <==> Unrivalled(w, p, ending)
    ensures Newest(AfterUnheard(env, w, p, ending))
  {
    UnheardIs(env, w, p, ending);
    hide AfterUnheard, Doomed, Carries, Lands, NextSequence;
    var n := AfterUnheard(env, w, p, ending);
    var k := n.register.value.sequence;
    IdleIsDoomed(k);
    if Stuck(n) {
      assert !Carries(n.locals[p], k);
      forall q | 0 <= q < |w.procs| && q != p ensures Doomed(w.procs[q], k) && !Carries(w.locals[q], k) {
        assert Doomed(n.procs[q], k) && !Carries(n.locals[q], k);
      }
    }
  }

  /** With any number of publishers, at any moment of any run, whatever states they were restarted
      with: an unrivalled head that lands without its publisher noting it makes every later
      publication refuse, by whichever process, and stops those under way, rather than let the head
      be overwritten. Later restarts may bring back any state but one of the head's own sequence. */
  lemma LostAcknowledgementSticks(env: Env, w: World, p: nat, ending: Ending, later: seq<Action>)
    requires LandsUnheard(w, p) && Unrivalled(w, p, ending)
    requires forall a :: a in later ==> Unaided(a, LandingOf(w.procs[p]).value)
    ensures var landed := AfterUnheard(env, w, p, ending);
      var n := Steps(env, landed, later);
      && |landed.log| == |w.log| + 1 && n.log == landed.log
      && SequenceOf(n.register) == SequenceOf(landed.register) == LandingOf(w.procs[p])
      && forall a: Action :: a.Begin? && a.p < |n.procs| == |n.locals| ==>
           Begun(env, n.locals[a.p], n.register, a).Err? && Step(env, n, a) == n
  {
    UnheardIs(env, w, p, ending);
    StuckExactly(env, w, p, ending);
    hide AfterUnheard, Stuck, Newest, Step, Unaided, Unrivalled, Lands, Begun, NextSequence;
    StuckForever(env, AfterUnheard(env, w, p, ending), later);
  }

  /** The condition is exact: an unheard head stays for good, over all continuations that neither
      forget it nor restore its sequence, if and only if it was unrivalled or has the greatest
      sequence there is. */
  lemma UnheardHeadIsFinalExactly(env: Env, processes: nat, actions: seq<Action>, w: World, p: nat, ending: Ending)
    requires ApartInProcess(env, processes) && w == Run(env, processes, actions)
    requires LandsUnheard(w, p)
    ensures AfterUnheard(env, w, p, ending).register.Some?
    ensures Final(env, AfterUnheard(env, w, p, ending)) <==>
              Unrivalled(w, p, ending) || NextSequence(LandingOf(w.procs[p])).None?
  {
    RunSound(env, processes, actions);
    UnheardIs(env, w, p, ending);
    StuckExactly(env, w, p, ending);
    UnheardIsSound(env, w, p, ending);
    hide Run, AfterUnheard, Stuck, Newest, Lands, AllSound, Unrivalled, Final, NextSequence;
    FinalExactly(env, AfterUnheard(env, w, p, ending));
  }

  lemma UnheardIsSound(env: Env, w: World, p: nat, ending: Ending)
    requires AllSound(env, w) && LandsUnheard(w, p)
    ensures AllSound(env, AfterUnheard(env, w, p, ending))
  {
    UnheardIs(env, w, p, ending);
    hide AfterUnheard;
    var n := AfterUnheard(env, w, p, ending);
    forall q | 0 <= q < |n.procs| ensures Sound(env, n, q) {
      assert Sound(env, w, q);
    }
  }

  // ---- who is unrivalled --------------------------------------------------------------------------------

  /** The DHT does not forget, and no restart is handed a state from beyond the register. */
  predicate Plausible(w: World, a: Action)
  {
    && !a.Forget?
    && (a.Crash? && a.restored.Some? ==>
          w.register.Some? && a.restored.value.sequence <= w.register.value.sequence)
  }

  ghost predicate PlausibleRun(env: Env, processes: nat, actions: seq<Action>)
  {
    forall i :: 0 <= i < |actions| ==> Plausible(Run(env, processes, actions[..i]), actions[i])
  }

  /** Nobody is ahead of the register, and first publications carry no state. */
  ghost predicate Behind(w: World)
  {
    && Sequenced(w)
    && (forall p :: 0 <= p < |w.locals| && w.locals[p].Some? ==>
          w.register.Some? && w.locals[p].value.sequence <= w.register.value.sequence)
    && (forall p :: 0 <= p < |w.procs| && JobOf(w.procs[p]).Some? ==> JobBehind(w, p))
  }

  predicate JobBehind(w: World, p: nat)
    requires p < |w.procs| == |w.locals| && JobOf(w.procs[p]).Some?
  {
    match JobOf(w.procs[p]).value.previous
    case None => w.locals[p].None?
    case Some(s) => w.register.Some? && s <= w.register.value.sequence
  }

  lemma PutHeadBehind(w: World, p: nat, job: Job, h: Bytes20, outcome: Outcome)
    requires Behind(w) && p < |w.procs| && w.procs[p] == Confirmed(job, h)
    ensures Behind(AfterPutHead(w, p, job, h, outcome))
  {
    PutHeadSequenced(w, p, job, h, outcome);
    hide Sequenced;
    var n := AfterPutHead(w, p, job, h, outcome);
    forall q | 0 <= q < |n.procs| && JobOf(n.procs[q]).Some? ensures JobBehind(n, q) {
      assert JobBehind(w, q);
    }
  }

  lemma StepBehind(env: Env, w: World, a: Action)
    requires Behind(w) && Plausible(w, a)
    ensures Behind(Step(env, w, a))
  {
    hide Numbered, FirstsFirst, Advance, AfterPutHead;
    StepSequenced(env, w, a);
    StepShape(env, w, a);
    var n := Step(env, w, a);
    if a.PutHead? {
      if n != w { PutHeadBehind(w, a.p, w.procs[a.p].job, w.procs[a.p].infoHash, a.outcome); }
    } else {
      SameSequence(env, w, a);
      forall q | 0 <= q < |w.procs| && JobOf(n.procs[q]).Some? ensures JobBehind(n, q) {
        assert FoundAgreement(w, n, q);
        assert JobOf(w.procs[q]).Some? ==> JobBehind(w, q);
        CrashedIsIdle(env, w, a, q);
      }
    }
  }

  lemma SameSequence(env: Env, w: World, a: Action)
    requires Sequenced(w) && !a.Forget? && !a.PutHead?
    ensures SequenceOf(Step(env, w, a).register) == SequenceOf(w.register)
  {
    hide Numbered, FirstsFirst, Advance;
    StepShape(env, w, a);
  }

  lemma CrashedIsIdle(env: Env, w: World, a: Action, q: nat)
    requires |w.procs| == |w.locals| && q < |w.procs| && !a.PutHead?
    ensures |Step(env, w, a).procs| == |w.procs| == |Step(env, w, a).locals|
    ensures Step(env, w, a).procs[q].Idle? || Step(env, w, a).locals[q] == w.locals[q]
  {
    StepShape(env, w, a);
    if !a.Crash? { hide Step; }
  }

  lemma {:induction false} RunBehind(env: Env, processes: nat, actions: seq<Action>)
    requires PlausibleRun(env, processes, actions)
    ensures Behind(Run(env, processes, actions))
  {
    if actions != [] {
      hide Step, Behind, Plausible;
      var n := |actions| - 1;
      forall i | 0 <= i < n ensures Plausible(Run(env, processes, actions[..n][..i]), actions[..n][i]) {
        assert actions[..n][..i] == actions[..i];
        assert Plausible(Run(env, processes, actions[..i]), actions[i]);
      }
      RunBehind(env, processes, actions[..n]);
      assert Plausible(Run(env, processes, actions[..n]), actions[n]);
      StepBehind(env, Run(env, processes, actions[..n]), actions[n]);
    }
  }

  /** While the DHT forgets nothing and no restart brings back a state from beyond the register, a
      head that follows an earlier one has no rivals, and a first head has only those that stand
      ready to put a first head too, found a first head, or remember one. */
  lemma RivalsExactly(env: Env, processes: nat, actions: seq<Action>, w: World, p: nat, ending: Ending)
    requires PlausibleRun(env, processes, actions) && w == Run(env, processes, actions)
    requires p < |w.procs| == |w.locals| && w.procs[p].Confirmed? && Lands(w, w.procs[p].job, Done)
    requires ending.Crashed? ==> !Carries(ending.restored, LandingOf(w.procs[p]).value)
    ensures LandsUnheard(w, p)
    ensures Unrivalled(w, p, ending) <==>
              || w.procs[p].job.previous.Some?
              || forall q :: 0 <= q < |w.procs| && q != p ==> Doomed(w.procs[q], 1) && !Carries(w.locals[q], 1)
  {
    RunBehind(env, processes, actions);
    hide Run;
    assert JobOf(w.procs[p]) == Some(w.procs[p].job) && JobBehind(w, p);
    UnheardIsNewest(w, p, w.procs[p].job);
    LandingSequence(w, w.procs[p].job, Done);
    if w.procs[p].job.previous.Some? {
      forall q | 0 <= q < |w.procs|
        ensures Doomed(w.procs[q], LandingOf(w.procs[p]).value) && !Carries(w.locals[q], LandingOf(w.procs[p]).value)
      {
        OtherIsDoomed(w, p, q);
      }
    }
  }

  /** What is known of process `q` when the head of `p` lands over an earlier one. */
  lemma OtherIsDoomed(w: World, p: nat, q: nat)
    requires Behind(w) && p < |w.procs| && q < |w.procs| && w.procs[p].Confirmed?
    requires Lands(w, w.procs[p].job, Done) && w.procs[p].job.previous.Some?
    ensures var k := LandingOf(w.procs[p]).value;
      k > 1 && Doomed(w.procs[q], k) && !Carries(w.locals[q], k)
  {
    hide Numbered, FirstsFirst;
    assert JobOf(w.procs[p]).Some? && JobBehind(w, p);
    if JobOf(w.procs[q]).Some? { assert JobBehind(w, q); }
    LandingSequence(w, w.procs[p].job, Done);
  }

  lemma UnheardIsNewest(w: World, p: nat, job: Job)
    requires Sequenced(w) && p < |w.procs| && JobOf(w.procs[p]) == Some(job) && Lands(w, job, Done)
    ensures var k := NextSequence(job.previous).value;
      k > 0 && forall i :: 0 <= i < |w.log| ==> w.log[i].head.sequence <= k
  {
    hide Numbered, FirstsFirst;
  }

  // ---- races ------------------------------------------------------------------------------------------------

  lemma BothReachPut(env: Env, processes: nat) returns (actions: seq<Action>)
    requires processes >= 2
    ensures var w := Run(env, processes, actions);
      && |w.procs| == |w.locals| == processes && w.register.None? && w.log == []
      && (forall p :: 0 <= p < processes ==> w.locals[p].None?)
      && (forall p :: 0 <= p < 2 ==>
            && w.procs[p].Confirmed? && w.procs[p].job.previous.None?
            && w.procs[p].job.edition == EmptyEdition(env, p + 1))
    ensures forall a :: a in actions ==> Remembers(a) && !a.Crash?
  {
    hide Step, Steps;
    var w := TorrentPublisher.Initial(processes);
    var first := BeginsAndReachesPut(env, w, 0, 1);
    var n := Steps(env, w, first);
    var second := BeginsAndReachesPut(env, n, 1, 2);
    StepsConcat(env, w, first, second);
    actions := first + second;
  }

  /** Two publishers that both found no head both succeed with sequence 1, and the second head
      replaces the first, because a first publication carries no previous sequence to compare. */
  lemma FirstPublicationsRace(env: Env, processes: nat) returns (actions: seq<Action>)
    requires processes >= 2
    ensures var n := Run(env, processes, actions);
      && |n.log| == 2 && n.log[0].job != n.log[1].job
      && n.log[0].head.sequence == n.log[1].head.sequence == 1
      && n.register == Some(n.log[1].head)
    ensures forall a :: a in actions ==> Remembers(a) && !a.Crash?
  {
    hide Step, Steps;
    var road := BothReachPut(env, processes);
    var w := Run(env, processes, road);
    PutLands(env, w, 0, Done);
    PutLands(env, Step(env, w, PutHead(0, Done)), 1, Done);
    StepsThen(env, TorrentPublisher.Initial(processes), road, PutHead(0, Done));
    StepsThen(env, TorrentPublisher.Initial(processes), road + [PutHead(0, Done)], PutHead(1, Done));
    actions := road + [PutHead(0, Done)] + [PutHead(1, Done)];
  }

  /** Heads are numbered 1, 2, 3, ... in every run that forgets nothing if and only if at most one
      process publishes. */
  lemma ConsecutiveExactly(env: Env, processes: nat)
    ensures (forall actions :: (forall a :: a in actions ==> Remembers(a)) ==>
               Consecutive(Run(env, processes, actions).log))
            <==> processes <= 1
  {
    hide Run;
    if processes <= 1 {
      forall actions | forall a :: a in actions ==> Remembers(a) ensures Consecutive(Run(env, processes, actions).log) {
        SinglePublisherIsSerial(env, processes, actions);
      }
    } else {
      var actions := FirstPublicationsRace(env, processes);
      assert Run(env, processes, actions).log[1].head.sequence == 1;
    }
  }

  /** A rivalled first head is overwritten: it lands unheard, and the other first publication, which
      stood ready too, lands over it and succeeds. */
  lemma UnheardFirstHeadIsOverwritten(env: Env) returns (actions: seq<Action>, w: World)
    ensures w == Run(env, 2, actions) && LandsUnheard(w, 0) && !Unrivalled(w, 0, ToldFailed)
    ensures var landed := AfterUnheard(env, w, 0, ToldFailed);
      var n := Step(env, landed, PutHead(1, Done));
      && |landed.log| == 1 && |n.log| == 2
      && landed.register == Some(landed.log[0].head) && n.register == Some(n.log[1].head) && n.locals[1].Some?
  {
    hide Step, Steps;
    actions := BothReachPut(env, 2);
    w := Run(env, 2, actions);
    PutLands(env, w, 0, DoneButFailed);
    PutLands(env, Step(env, w, PutHead(0, DoneButFailed)), 1, Done);
    assert !Doomed(w.procs[1], 1);
  }

  /** Numbering needs a DHT that remembers: after it forgot the first head, a publisher restarted
      without state publishes a first head again. */
  lemma ForgottenHeadAdmitsFirst(env: Env) returns (actions: seq<Action>)
    ensures var n := Run(env, 1, actions);
      |n.log| == 2 && n.log[0].head.sequence == n.log[1].head.sequence == 1
      && n.log[0].job.previous.None? && n.log[1].job.previous.None?
  {
    hide Step, Steps;
    var w := TorrentPublisher.Initial(1);
    var first := PublishesFirst(env, w, 0, 1);
    var landed := Steps(env, w, first);
    Forgets(env, landed, 0);
    StepsThen(env, w, first, Forget);
    StepsThen(env, w, first + [Forget], Crash(0, None));
    var forgotten := first + [Forget] + [Crash(0, None)];
    var second := PublishesFirst(env, Steps(env, w, forgotten), 0, 2);
    StepsConcat(env, w, forgotten, second);
    actions := forgotten + second;
  }

  lemma PublishesFirst(env: Env, w: World, p: nat, createdAt: u64) returns (actions: seq<Action>)
    requires p < |w.procs| == |w.locals| && w.procs[p].Idle? && w.locals[p].None? && w.register.None? && createdAt > 0
    ensures var n := Steps(env, w, actions);
      && |n.procs| == |n.locals| == |w.procs| && n.procs[p].Idle? && |n.log| == |w.log| + 1 && w.log <= n.log
      && n.log[|w.log|].head.sequence == 1 && n.log[|w.log|].job.previous.None?
  {
    hide Step, Steps;
    var road := BeginsAndReachesPut(env, w, p, createdAt);
    PutLands(env, Steps(env, w, road), p, Done);
    StepsThen(env, w, road, PutHead(p, Done));
    actions := road + [PutHead(p, Done)];
  }

  lemma Forgets(env: Env, w: World, p: nat)
    requires p < |w.procs| == |w.locals| && w.procs[p].Idle?
    ensures Step(env, Step(env, w, Forget), Crash(p, None)) == w.(register := None, locals := w.locals[p := None])
  {
    assert w.procs[p := Idle] == w.procs;
  }
}
