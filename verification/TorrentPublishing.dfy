/** `stage_snapshot` and `TorrentDatasetPublisher::publish` as the methods they are. Each is
    proved to do exactly what the step machine does, whatever fails on the way. */
module TorrentPublishing {
  import opened Bytes
  import opened Outcomes
  import opened DatasetManifest
  import opened DatasetCore
  import opened TorrentReference
  import opened SwarmHead
  import opened TorrentPublisher
  import opened Publications

  /** How each await of one publication turns out. */
  datatype Fortune = Fortune(
    resolvable: bool,
    clearOk: bool, clearLeft: Dir,
    writeOk: nat -> bool, writeLeft: nat -> Dir,
    rename: Outcome, cleaned: bool,
    seedOk: bool,
    announce: Outcome,
    reresolveOk: bool,
    put: Outcome)

  function Writes(p: nat, f: Fortune, count: nat): seq<Action>
  {
    seq(count, k requires 0 <= k => WriteFile(p, f.writeOk(k), f.writeLeft(k)))
  }

  function StagingSteps(p: nat, f: Fortune, files: nat): seq<Action>
  {
    [Clear(p, f.clearOk, f.clearLeft)] + Writes(p, f, files + 1) + [Rename(p, f.rename, f.cleaned)]
  }

  function HeadSteps(p: nat, f: Fortune): seq<Action>
  {
    [Seed(p, f.seedOk), Announce(p, f.announce), Reresolve(p, f.reresolveOk), PutHead(p, f.put)]
  }

  function PublishSteps(p: nat, createdAt: u64, files: Files, expected: Option<Bytes32>, f: Fortune): seq<Action>
  {
    [Begin(p, createdAt, files, expected, f.resolvable)] + (StagingSteps(p, f, |files|) + HeadSteps(p, f))
  }

  /** Staging a directory that does not stand yet meets no failure that matters: a rename that
      went through but reported failure still counts if cleaning up succeeds. */
  predicate StagesWell(f: Fortune, files: nat)
  {
    && f.clearOk
    && (forall k :: 0 <= k <= files ==> f.writeOk(k))
    && (f.rename.Done? || (f.rename.DoneButFailed? && f.cleaned))
  }

  // ---- steps that find nothing to do ---------------------------------------------------------

  predicate Inner(a: Action, p: nat)
  {
    !a.Begin? && !a.Crash? && !a.Reannounce? && !a.Forget? && a.p == p
  }

  predicate StagingAction(a: Action, p: nat)
  {
    (a.Clear? || a.WriteFile? || a.Rename?) && a.p == p
  }

  /** A publication that stopped does nothing more; one whose directory stands skips staging. */
  lemma {:induction false} NothingToDo(env: Env, w: World, p: nat, actions: seq<Action>)
    requires p < |w.procs| == |w.locals|
    requires w.procs[p].Idle? || w.procs[p].Finished?
    requires forall a :: a in actions ==> if w.procs[p].Idle? then Inner(a, p) else StagingAction(a, p)
    ensures Steps(env, w, actions) == w
  {
    if actions != [] {
      var n := |actions| - 1;
      NothingToDo(env, w, p, actions[..n]);
      assert actions[n] in actions;
    }
  }

  lemma IdleStep(env: Env, w: World, p: nat, a: Action)
    requires p < |w.procs| == |w.locals| && w.procs[p].Idle? && Inner(a, p)
    ensures Step(env, w, a) == w
  {
  }

  lemma WritesThen(env: Env, w: World, p: nat, f: Fortune, k: nat)
    ensures Steps(env, w, Writes(p, f, k + 1)) ==
            Step(env, Steps(env, w, Writes(p, f, k)), WriteFile(p, f.writeOk(k), f.writeLeft(k)))
    ensures Steps(env, w, Writes(p, f, 0)) == w
  {
    assert Writes(p, f, k + 1) == Writes(p, f, k) + [WriteFile(p, f.writeOk(k), f.writeLeft(k))];
    StepsThen(env, w, Writes(p, f, k), WriteFile(p, f.writeOk(k), f.writeLeft(k)));
  }

  lemma {:induction false} IdleWrites(env: Env, w: World, p: nat, f: Fortune, k: nat, count: nat)
    requires p < |w.procs| == |w.locals| && k <= count
    requires Steps(env, w, Writes(p, f, k)).procs == w.procs[p := Idle]
    requires |Steps(env, w, Writes(p, f, k)).locals| == |w.locals|
    ensures Steps(env, w, Writes(p, f, count)) == Steps(env, w, Writes(p, f, k))
    decreases count
  {
    hide Step, Steps;
    if k < count {
      IdleWrites(env, w, p, f, k, count - 1);
      WritesThen(env, w, p, f, count - 1);
      IdleStep(env, Steps(env, w, Writes(p, f, k)), p, WriteFile(p, f.writeOk(count - 1), f.writeLeft(count - 1)));
    }
  }

  lemma StagingSplits(env: Env, w: World, p: nat, f: Fortune, files: nat)
    ensures var cleared := Step(env, w, Clear(p, f.clearOk, f.clearLeft));
      Steps(env, w, StagingSteps(p, f, files))
      == Step(env, Steps(env, cleared, Writes(p, f, files + 1)), Rename(p, f.rename, f.cleaned))
  {
    var clear := [Clear(p, f.clearOk, f.clearLeft)];
    assert clear[..0] == [] && Steps(env, w, []) == w && Steps(env, w, clear) == Step(env, w, clear[0]);
    hide Step, Steps;
    StepsConcat(env, w, clear, Writes(p, f, files + 1));
    StepsThen(env, w, clear + Writes(p, f, files + 1), Rename(p, f.rename, f.cleaned));
  }

  // ---- single steps -----------------------------------------------------------------------------

  lemma ClearDoes(env: Env, w: World, p: nat, job: Job, f: Fortune)
    requires p < |w.procs| == |w.locals| && w.procs[p] == Clearing(job)
    ensures Step(env, w, Clear(p, f.clearOk, f.clearLeft)) ==
              w.(staging := w.staging[Staging(env, p, job) := if f.clearOk then map[] else f.clearLeft],
                 procs := w.procs[p := if f.clearOk then Filling(job, 0) else Idle])
  {
  }

  lemma WriteDoes(env: Env, w: World, p: nat, job: Job, k: nat, f: Fortune)
    requires p < |w.procs| == |w.locals| && w.procs[p] == Filling(job, k)
    requires k <= |job.edition.files| && Staging(env, p, job) in w.staging
    ensures var dir := w.staging[Staging(env, p, job)][StagedPath(job.edition, k) := StagedBytes(job.edition, k)];
      Step(env, w, WriteFile(p, f.writeOk(k), f.writeLeft(k))) ==
        w.(staging := w.staging[Staging(env, p, job) := if f.writeOk(k) then dir else f.writeLeft(k)],
           procs := w.procs[p := if f.writeOk(k) then Filling(job, k + 1) else Idle])
  {
    hide StagedPath, StagedBytes;
  }

  lemma RenameDoes(env: Env, w: World, p: nat, job: Job, f: Fortune)
    requires p < |w.procs| == |w.locals| && w.procs[p] == Filling(job, |job.edition.files| + 1)
    ensures Step(env, w, Rename(p, f.rename, f.cleaned)) == AfterRename(env, w, p, job, f.rename, f.cleaned)
  {
    hide AfterRename;
  }

  lemma FinishedStages(env: Env, w: World, p: nat, f: Fortune, files: nat)
    requires p < |w.procs| == |w.locals| && w.procs[p].Finished?
    ensures Steps(env, w, StagingSteps(p, f, files)) == w
  {
    NothingToDo(env, w, p, StagingSteps(p, f, files));
  }

  // ---- staging on disk -----------------------------------------------------------------------------

  class Disk {
    var finals: map<Bytes32, Dir>
    var staging: map<(nat, Bytes32), Dir>

    constructor ()
      ensures finals == map[] && staging == map[]
    {
      finals, staging := map[], map[];
    }

    /** The manifest and every object go into the staging directory, up to the first failure. */
    method WriteFiles(p: nat, job: Job, f: Fortune, env: Env, ghost w: World) returns (ok: bool)
      requires p < |w.procs| == |w.locals| && w.procs[p] == Filling(job, 0) && w.staging == staging
      requires Staging(env, p, job) in staging && staging[Staging(env, p, job)] == map[]
      modifies this`staging
      ensures ok <==> forall k :: 0 <= k <= |job.edition.files| ==> f.writeOk(k)
      ensures Staging(env, p, job) in staging && (ok ==> staging[Staging(env, p, job)] == DirOf(job.edition))
      ensures Steps(env, w, Writes(p, f, |job.edition.files| + 1)) ==
                w.(staging := staging,
                   procs := w.procs[p := if ok then Filling(job, |job.edition.files| + 1) else Idle])
    {
      hide Step, Steps, StagedPath, StagedBytes, Writes;
      var key := Staging(env, p, job);
      var count := |job.edition.files| + 1;
      WritesThen(env, w, p, f, 0);
      for k := 0 to count
        invariant forall i :: 0 <= i < k ==> f.writeOk(i)
        invariant key in staging && staging[key] == Layout(job.edition, k)
        invariant Steps(env, w, Writes(p, f, k)) == w.(staging := staging, procs := w.procs[p := Filling(job, k)])
      {
        WritesThen(env, w, p, f, k);
        WriteDoes(env, Steps(env, w, Writes(p, f, k)), p, job, k, f);
        if !f.writeOk(k) {
          staging := staging[key := f.writeLeft(k)];
          IdleWrites(env, w, p, f, k + 1, count);
          return false;
        }
        staging := staging[key := staging[key][StagedPath(job.edition, k) := StagedBytes(job.edition, k)]];
      }
      return true;
    }

    /** `stage_snapshot`: nothing to do when the final directory exists; otherwise clear the
        staging directory, write the manifest and every object, and rename. */
    method StageSnapshot(p: nat, job: Job, f: Fortune, env: Env, ghost w: World) returns (ok: bool)
      requires p < |w.procs| == |w.locals| && w.finals == finals && w.staging == staging
      requires w.procs[p] == if job.digest in finals then Finished(job) else Clearing(job)
      modifies this
      ensures var n := Steps(env, w, StagingSteps(p, f, |job.edition.files|));
        && n == w.(finals := finals, staging := staging, procs := w.procs[p := if ok then Finished(job) else Idle])
        && (ok ==> job.digest in finals)
      ensures ok <==> job.digest in old(finals) || StagesWell(f, |job.edition.files|)
      ensures finals == old(finals) || finals == old(finals)[job.digest := DirOf(job.edition)]
      ensures ok && job.digest !in old(finals) ==> finals == old(finals)[job.digest := DirOf(job.edition)]
    {
      hide Step, Steps, StagingSteps, Writes, DirOf;
      var key := Staging(env, p, job);
      var count := |job.edition.files| + 1;
      if job.digest in finals {
        FinishedStages(env, w, p, f, |job.edition.files|);
        return true;
      }
      StagingSplits(env, w, p, f, |job.edition.files|);
      ClearDoes(env, w, p, job, f);
      ghost var cleared := Step(env, w, Clear(p, f.clearOk, f.clearLeft));
      ghost var rename := Rename(p, f.rename, f.cleaned);
      if !f.clearOk {
        staging := staging[key := f.clearLeft];
        WritesThen(env, cleared, p, f, 0);
        IdleWrites(env, cleared, p, f, 0, count);
        StoppedRename(env, cleared, rename);
        return false;
      }
      staging := staging[key := map[]];
      var written := WriteFiles(p, job, f, env, cleared);
      if !written {
        StoppedRename(env, Steps(env, cleared, Writes(p, f, count)), rename);
        return false;
      }
      RenameDoes(env, Steps(env, cleared, Writes(p, f, count)), p, job, f);
      if f.rename.NotDone? {
        return false;
      }
      finals := finals[job.digest := staging[key]];
      staging := staging - {key};
      return f.rename.Done? || f.cleaned;
    }
  }

  lemma StoppedRename(env: Env, w: World, a: Action)
    requires a.Rename? && a.p < |w.procs| == |w.locals| && w.procs[a.p].Idle?
    ensures Step(env, w, a) == w
  {
  }

  // ---- publish ---------------------------------------------------------------------------------------

  datatype PublishError =
    | Refused(refusal: Refusal)
    | NotStaged
    | NotSeeded
    | NotAnnounced
    | Conflict
    | Exhausted
    | NotPut

  /** The sequence after the one the DHT holds can be written in 64 signed bits. */
  predicate HasNext(register: Option<Register>)
  {
    register.Some? ==> register.value.sequence < 0x7FFF_FFFF_FFFF_FFFF
  }

  class Network {
    var announced: set<Bytes20>
    var register: Option<Register>

    constructor ()
      ensures announced == {} && register == None
    {
      announced, register := {}, None;
    }

    method Announce(infoHash: Bytes20, outcome: Outcome) returns (ok: bool)
      modifies this`announced
      ensures announced == if outcome.NotDone? then old(announced) else old(announced) + {infoHash}
      ensures ok <==> outcome.Done?
    {
      if !outcome.NotDone? {
        announced := announced + {infoHash};
      }
      return outcome.Done?;
    }

    method PutHead(head: Register, cas: Option<i64>, outcome: Outcome) returns (ok: bool)
      modifies this`register
      ensures var lands := !outcome.NotDone? && Accepts(old(register), head.sequence, cas);
        register == (if lands then Some(head) else old(register)) && (ok <==> lands && outcome.Done?)
    {
      ok := false;
      if !outcome.NotDone? && Accepts(register, head.sequence, cas) {
        register := Some(head);
        ok := outcome.Done?;
      }
    }

    /** `HeadClient::publish_next`: resolve again, and put the next sequence in the place of the
        expected one. */
    method PublishNext(infoHash: Bytes20, expected: Option<i64>, f: Fortune) returns (r: Result<i64, PublishError>)
      modifies this`register
      ensures var found := f.reresolveOk && SequenceOf(old(register)) == expected;
        var next := if old(register).None? then 1 else old(register).value.sequence + 1;
        && register == (if found && HasNext(old(register)) && !f.put.NotDone? then Some(Register(next, infoHash))
                        else old(register))
        && r == (if !found then Err(Conflict)
                 else if !HasNext(old(register)) then Err(Exhausted)
                 else if !f.put.Done? then Err(NotPut)
                 else Ok(next))
    {
      if !f.reresolveOk || SequenceOf(register) != expected {
        return Err(Conflict);
      }
      var next := NextSequence(expected);
      if next.None? {
        return Err(Exhausted);
      }
      var put := PutHead(Register(next.value, infoHash), expected, f.put);
      if !put {
        return Err(NotPut);
      }
      return Ok(next.value);
    }
  }

  lemma SeedDoes(env: Env, w: World, p: nat, job: Job, ok: bool)
    requires p < |w.procs| == |w.locals| && w.procs[p] == Finished(job) && job.digest in w.finals
    ensures Step(env, w, Seed(p, ok)) ==
              w.(procs := w.procs[p := if ok then Created(job, env.torrentOf(w.finals[job.digest])) else Idle])
  {
  }

  lemma AnnounceDoes(env: Env, w: World, p: nat, job: Job, h: Bytes20, outcome: Outcome)
    requires p < |w.procs| == |w.locals| && w.procs[p] == Created(job, h)
    ensures Step(env, w, Announce(p, outcome)) ==
              w.(announced := if outcome.NotDone? then w.announced else w.announced + {h},
                 procs := w.procs[p := if outcome.Done? then Announced(job, h) else Idle])
  {
  }

  lemma ReresolveDoes(env: Env, w: World, p: nat, job: Job, h: Bytes20, ok: bool)
    requires p < |w.procs| == |w.locals| && w.procs[p] == Announced(job, h)
    ensures Step(env, w, Reresolve(p, ok)) ==
              var went := ok && SequenceOf(w.register) == job.previous;
              w.(procs := w.procs[p := if went then Confirmed(job, h) else Idle])
  {
  }

  lemma PutDoes(env: Env, w: World, p: nat, job: Job, h: Bytes20, outcome: Outcome)
    requires p < |w.procs| == |w.locals| && w.procs[p] == Confirmed(job, h)
    ensures Step(env, w, PutHead(p, outcome)) == AfterPutHead(w, p, job, h, outcome)
  {
    hide AfterPutHead;
  }

  lemma StepsUpTo(env: Env, w: World, steps: seq<Action>, k: nat)
    requires k < |steps|
    ensures Steps(env, w, steps[..k + 1]) == Step(env, Steps(env, w, steps[..k]), steps[k])
  {
    hide Step, Steps;
    assert steps[..k + 1] == steps[..k] + [steps[k]];
    StepsThen(env, w, steps[..k], steps[k]);
  }

  lemma FourSteps(env: Env, w: World, steps: seq<Action>)
    requires |steps| == 4
    ensures Steps(env, w, steps) ==
            Step(env, Step(env, Step(env, Step(env, w, steps[0]), steps[1]), steps[2]), steps[3])
  {
    assert Steps(env, w, steps[..0]) == w && steps[..4] == steps;
    hide Step, Steps;
    StepsUpTo(env, w, steps, 0);
    StepsUpTo(env, w, steps, 1);
    StepsUpTo(env, w, steps, 2);
    StepsUpTo(env, w, steps, 3);
  }

  /** The head of a finished job goes out: torrent, announcement, second resolution, put. */
  lemma HeadStepsDo(env: Env, w: World, p: nat, job: Job, f: Fortune)
    requires p < |w.procs| == |w.locals| && w.procs[p] == Finished(job) && job.digest in w.finals
    ensures var h := env.torrentOf(w.finals[job.digest]);
      var announced := w.(announced := if f.announce.NotDone? then w.announced else w.announced + {h});
      var ready := f.seedOk && f.announce.Done? && f.reresolveOk && SequenceOf(w.register) == job.previous;
      Steps(env, w, HeadSteps(p, f)) ==
        if !f.seedOk then w.(procs := w.procs[p := Idle])
        else if !ready then announced.(procs := w.procs[p := Idle])
        else AfterPutHead(announced, p, job, h, f.put)
  {
    FourSteps(env, w, HeadSteps(p, f));
    HeadStepsOneByOne(env, w, p, job, f);
  }

  lemma HeadStepsOneByOne(env: Env, w: World, p: nat, job: Job, f: Fortune)
    requires p < |w.procs| == |w.locals| && w.procs[p] == Finished(job) && job.digest in w.finals
    ensures var h := env.torrentOf(w.finals[job.digest]);
      var announced := w.(announced := if f.announce.NotDone? then w.announced else w.announced + {h});
      var ready := f.seedOk && f.announce.Done? && f.reresolveOk && SequenceOf(w.register) == job.previous;
      var seeding := Step(env, Step(env, w, Seed(p, f.seedOk)), Announce(p, f.announce));
      Step(env, Step(env, seeding, Reresolve(p, f.reresolveOk)), PutHead(p, f.put)) ==
        if !f.seedOk then w.(procs := w.procs[p := Idle])
        else if !ready then announced.(procs := w.procs[p := Idle])
        else AfterPutHead(announced, p, job, h, f.put)
  {
    hide Step, AfterPutHead;
    var h := env.torrentOf(w.finals[job.digest]);
    var idle := w.(procs := w.procs[p := Idle]);
    SeedDoes(env, w, p, job, f.seedOk);
    var n1 := Step(env, w, Seed(p, f.seedOk));
    if !f.seedOk {
      IdleStep(env, idle, p, Announce(p, f.announce));
      IdleStep(env, idle, p, Reresolve(p, f.reresolveOk));
      IdleStep(env, idle, p, PutHead(p, f.put));
      return;
    }
    AnnounceDoes(env, n1, p, job, h, f.announce);
    var n2 := Step(env, n1, Announce(p, f.announce));
    if !f.announce.Done? {
      IdleStep(env, n2, p, Reresolve(p, f.reresolveOk));
      IdleStep(env, n2, p, PutHead(p, f.put));
      return;
    }
    ReresolveDoes(env, n2, p, job, h, f.reresolveOk);
    var n3 := Step(env, n2, Reresolve(p, f.reresolveOk));
    if f.reresolveOk && SequenceOf(w.register) == job.previous {
      PutDoes(env, n3, p, job, h, f.put);
      SamePut(n3, w.(announced := w.announced + {h}), p, job, h, f.put);
    } else {
      IdleStep(env, n3, p, PutHead(p, f.put));
    }
  }

  lemma SamePut(w: World, n: World, p: nat, job: Job, h: Bytes20, outcome: Outcome)
    requires p < |w.procs| == |w.locals| && |n.procs| == |w.procs|
    requires w == n.(procs := w.procs) && w.procs == n.procs[p := w.procs[p]]
    ensures AfterPutHead(w, p, job, h, outcome) == AfterPutHead(n, p, job, h, outcome)
  {
    assert w.procs[p := Idle] == n.procs[p := Idle];
  }

  lemma BeginDoes(env: Env, w: World, p: nat, a: Action)
    requires p < |w.procs| == |w.locals| && w.procs[p].Idle? && a.Begin? && a.p == p
    ensures Step(env, w, a) == AfterBegin(env, w, a)
  {
    hide AfterBegin;
  }

  lemma PublishSplits(env: Env, w: World, p: nat, createdAt: u64, files: Files, expected: Option<Bytes32>, f: Fortune)
    ensures var begun := Step(env, w, Begin(p, createdAt, files, expected, f.resolvable));
      var staged := Steps(env, begun, StagingSteps(p, f, |files|));
      Steps(env, w, PublishSteps(p, createdAt, files, expected, f)) == Steps(env, staged, HeadSteps(p, f))
  {
    var begin := [Begin(p, createdAt, files, expected, f.resolvable)];
    assert begin[..0] == [] && Steps(env, w, []) == w && Steps(env, w, begin) == Step(env, w, begin[0]);
    hide Step, Steps;
    StepsConcat(env, w, begin, StagingSteps(p, f, |files|) + HeadSteps(p, f));
    StepsConcat(env, Step(env, w, begin[0]), StagingSteps(p, f, |files|), HeadSteps(p, f));
  }

  /** A refused publication leaves the whole world as it was. */
  lemma RefusedDoesNothing(env: Env, w: World, p: nat, createdAt: u64, files: Files, expected: Option<Bytes32>,
                           f: Fortune)
    requires p < |w.procs| == |w.locals| && w.procs[p].Idle?
    requires Begun(env, w.locals[p], w.register, Begin(p, createdAt, files, expected, f.resolvable)).Err?
    ensures Steps(env, w, PublishSteps(p, createdAt, files, expected, f)) == w
  {
    PublishSplits(env, w, p, createdAt, files, expected, f);
    BeginDoes(env, w, p, Begin(p, createdAt, files, expected, f.resolvable));
    NothingToDo(env, w, p, StagingSteps(p, f, |files|));
    NothingToDo(env, w, p, HeadSteps(p, f));
  }

  lemma IdleHeadSteps(env: Env, w: World, p: nat, f: Fortune)
    requires p < |w.procs| == |w.locals| && w.procs[p].Idle?
    ensures Steps(env, w, HeadSteps(p, f)) == w
  {
    NothingToDo(env, w, p, HeadSteps(p, f));
  }

  /** The parts of the world process `p` sees while it is in this phase. */
  ghost predicate Holds(w: World, p: nat, phase: Phase, disk: Disk, network: Network, state: Option<Local>)
    reads disk, network
  {
    && p < |w.procs| == |w.locals| && w.procs[p] == phase && w.locals[p] == state
    && w.finals == disk.finals && w.staging == disk.staging
    && w.announced == network.announced && w.register == network.register
  }

  /** The directory of these files stands already, or staging it meets no failure that matters. */
  predicate Stands(env: Env, finals: map<Bytes32, Dir>, createdAt: u64, files: Files, f: Fortune)
  {
    || StagesWell(f, |files|)
    || (Staged(env.c, env.id, createdAt, files).Ok?
        && env.c.hash(Encode(Staged(env.c, env.id, createdAt, files).value.manifest)) in finals)
  }

  /** What went wrong first. */
  predicate Fails(may: bool, stands: bool, next: bool, f: Fortune, e: PublishError)
  {
    match e
    case Refused(refusal) => !may
    case NotStaged => may && !stands
    case NotSeeded => may && stands && !f.seedOk
    case NotAnnounced => may && stands && f.seedOk && !f.announce.Done?
    case Conflict => may && stands && f.seedOk && f.announce.Done? && !f.reresolveOk
    case Exhausted => may && stands && f.seedOk && f.announce.Done? && f.reresolveOk && !next
    case NotPut => may && stands && f.seedOk && f.announce.Done? && f.reresolveOk && next && !f.put.Done?
  }

  lemma StandsExactly(env: Env, finals: map<Bytes32, Dir>, job: Job, createdAt: u64, files: Files, f: Fortune)
    requires Staged(env.c, env.id, createdAt, files).Ok?
    requires job.digest == ManifestDigest(env.c, Staged(env.c, env.id, createdAt, files).value.manifest)
    ensures Stands(env, finals, createdAt, files, f) <==> job.digest in finals || StagesWell(f, |files|)
  {
  }

  class Publisher {
    const env: Env
    const p: nat
    const disk: Disk
    const network: Network
    var state: Option<Local>

    constructor (env: Env, p: nat, disk: Disk, network: Network, restored: Option<Local>)
      ensures this.env == env && this.p == p && this.disk == disk && this.network == network && state == restored
    {
      this.env, this.p, this.disk, this.network := env, p, disk, network;
      state := restored;
    }

    /** `publish`. Whatever fails, disk, network and local state end as the step machine says; the
        local state moves exactly on success, to the digest and sequence that landed. It succeeds
        exactly when the publication may begin, every await that matters goes well and a next
        sequence exists, and otherwise names the first thing that went wrong. */
    method Publish(createdAt: u64, files: Files, expected: Option<Bytes32>, f: Fortune, ghost w: World)
      returns (r: Result<Snapshot, PublishError>)
      requires env.c.validKey(env.id)
      requires Holds(w, p, Idle, disk, network, state)
      modifies this`state, disk, network
      ensures Holds(Steps(env, w, PublishSteps(p, createdAt, files, expected, f)), p, Idle, disk, network, state)
      ensures r.Err? ==> state == old(state)
      ensures r.Ok? ==> expected == match old(state) case None => None case Some(l) => Some(l.digest)
      ensures r.Ok? <==>
                && MayBegin(old(state), old(network.register), Begin(p, createdAt, files, expected, f.resolvable))
                && Stands(env, old(disk.finals), createdAt, files, f)
                && f.seedOk && f.announce.Done? && f.reresolveOk && f.put.Done?
                && HasNext(old(network.register))
      ensures r.Err? ==>
                Fails(MayBegin(old(state), old(network.register), Begin(p, createdAt, files, expected, f.resolvable)),
                      Stands(env, old(disk.finals), createdAt, files, f), HasNext(old(network.register)), f, r.error)
      ensures r.Err? && r.error.Refused? ==>
                var begin := Begin(p, createdAt, files, expected, f.resolvable);
                Begun(env, old(state), old(network.register), begin) == Err(r.error.refusal)
      ensures r.Ok? ==>
                && Staged(env.c, env.id, createdAt, files) == Ok(r.value)
                && state.Some? && state.value.digest == ManifestDigest(env.c, r.value.manifest)
                && network.register.Some? && state.value.sequence == network.register.value.sequence
                && state.value.sequence ==
                   (if old(network.register).None? then 1 else old(network.register).value.sequence + 1)
                && state.value.digest in disk.finals
                && network.register.value.infoHash == env.torrentOf(disk.finals[state.value.digest])
                && network.register.value.infoHash in network.announced
    {
      hide HasNext, Stands, StagesWell, NextSequence, Step, Steps, AfterBegin, Layout, Staged, StagingSteps,
           PublishSteps, HeadSteps, Begun, MayBegin, Encode;
      ghost var begin := Begin(p, createdAt, files, expected, f.resolvable);
      PublishSplits(env, w, p, createdAt, files, expected, f);
      BeginDoes(env, w, p, begin);
      var begun := Begun(env, state, network.register, Begin(p, createdAt, files, expected, f.resolvable));
      AfterBeginIs(env, w, begin);
      BegunWhenMay(env, state, network.register, begin);
      if begun.Err? {
        RefusedDoesNothing(env, w, p, createdAt, files, expected, f);
        return Err(Refused(begun.error));
      }
      var job := begun.value;
      BegunJob(env, state, network.register, begin);
      StandsExactly(env, disk.finals, job, createdAt, files, f);
      var staged := disk.StageSnapshot(p, job, f, env, Step(env, w, begin));
      ghost var n := Steps(env, Step(env, w, begin), StagingSteps(p, f, |files|));
      if !staged {
        IdleHeadSteps(env, n, p, f);
        return Err(NotStaged);
      }
      var sent :- SendHead(job, f, n);
      return Ok(Staged(env.c, env.id, createdAt, files).value);
    }

    /** The part of `publish` behind staging: torrent, announcement, and the next head. */
    method SendHead(job: Job, f: Fortune, ghost w: World) returns (r: Result<i64, PublishError>)
      requires Holds(w, p, Finished(job), disk, network, state)
      requires job.digest in disk.finals && SequenceOf(network.register) == job.previous
      modifies this`state, network
      ensures Holds(Steps(env, w, HeadSteps(p, f)), p, Idle, disk, network, state)
      ensures r.Ok? <==>
                f.seedOk && f.announce.Done? && f.reresolveOk && f.put.Done? && HasNext(old(network.register))
      ensures r.Err? ==> state == old(state) && !r.error.Refused?
      ensures r.Err? ==> Fails(true, true, HasNext(old(network.register)), f, r.error)
      ensures r.Ok? ==>
                && state == Some(Local(job.digest, r.value))
                && network.register == Some(Register(r.value, env.torrentOf(disk.finals[job.digest])))
                && r.value == (if old(network.register).None? then 1 else old(network.register).value.sequence + 1)
                && network.register.value.infoHash in network.announced
    {
      hide Step, Steps, AfterPutHead, HasNext, HeadSteps;
      HeadStepsDo(env, w, p, job, f);
      if !f.seedOk {
        return Err(NotSeeded);
      }
      var infoHash := env.torrentOf(disk.finals[job.digest]);
      var announced := network.Announce(infoHash, f.announce);
      if !announced {
        return Err(NotAnnounced);
      }
      PutHeadEnds(w.(announced := network.announced), p, job, infoHash, f.put);
      var next :- network.PublishNext(infoHash, job.previous, f);
      state := Some(Local(job.digest, next));
      return Ok(next);
    }
  }

  /** What a put ends in while the register still is what the job found. */
  lemma PutHeadEnds(w: World, p: nat, job: Job, h: Bytes20, outcome: Outcome)
    requires p < |w.procs| == |w.locals| && SequenceOf(w.register) == job.previous
    ensures var next := if w.register.None? then 1 else w.register.value.sequence + 1;
      AfterPutHead(w, p, job, h, outcome).(log := w.log) ==
        if !HasNext(w.register) || outcome.NotDone? then w.(procs := w.procs[p := Idle])
        else w.(procs := w.procs[p := Idle], register := Some(Register(next, h)),
                locals := if outcome.Done? then w.locals[p := Some(Local(job.digest, next))] else w.locals)
  {
  }

  lemma BegunWhenMay(env: Env, local: Option<Local>, register: Option<Register>, a: Action)
    requires a.Begin? && env.c.validKey(env.id)
    ensures Begun(env, local, register, a).Ok? <==> MayBegin(local, register, a)
    ensures MayBegin(local, register, a) ==> a.expected == match local case None => None case Some(l) => Some(l.digest)
  {
    hide Reserved, Staged, Publishable, Internal;
    BegunExactly(env, local, register, a);
  }

  lemma AfterBeginIs(env: Env, w: World, a: Action)
    requires a.Begin? && a.p < |w.procs| == |w.locals|
    ensures var begun := Begun(env, w.locals[a.p], w.register, a);
      && (begun.Err? ==> AfterBegin(env, w, a) == w)
      && (begun.Ok? ==>
            var job := begun.value;
            AfterBegin(env, w, a) == w.(begun := w.begun + [job.edition],
                                        procs := w.procs[a.p :=
                                          if job.digest in w.finals then Finished(job) else Clearing(job)]))
  {
    hide Begun;
  }

  lemma BegunJob(env: Env, local: Option<Local>, register: Option<Register>, a: Action)
    requires a.Begin? && Begun(env, local, register, a).Ok?
    ensures var job := Begun(env, local, register, a).value;
      && Staged(env.c, env.id, a.createdAt, a.files).Ok?
      && job.edition == Edition(a.files, Staged(env.c, env.id, a.createdAt, a.files).value.manifest)
      && job.digest == ManifestDigest(env.c, job.edition.manifest)
      && job.previous == SequenceOf(register)
  {
    hide Staged, ManifestDigest;
  }
}
