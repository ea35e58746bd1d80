/** Publisher objects that share an operating-system process share staging directories: why a
    published directory is complete exactly when no two of them do. */
module TorrentSharing {
  import opened Bytes
  import opened Outcomes
  import opened DatasetManifest
  import opened DatasetCore
  import opened TorrentPublisher
  import opened TorrentSequences

  /** A registered head names the torrent of the directory of a published edition, and that
      directory stands under its final name. */
  ghost predicate HeadIsComplete(env: Env, w: World)
  {
    w.register.Some? ==>
      exists e :: e in w.begun && NamesDirectory(env, w, e)
  }

  ghost predicate NamesDirectory(env: Env, w: World, e: Edition)
    requires w.register.Some?
  {
    var digest := ManifestDigest(env.c, e.manifest);
    && GoodEdition(env.c, env.id, e) && digest in w.finals && w.finals[digest] == DirOf(e)
    && w.register.value.infoHash == env.torrentOf(w.finals[digest])
  }

  /** Every registered head of every run is complete if and only if no two publisher objects share
      a process. */
  lemma CompleteExactly(env: Env, processes: nat)
    requires env.c.validKey(env.id)
    ensures (forall actions :: NoCollision(env.c, Run(env, processes, actions).begun) ==>
               HeadIsComplete(env, Run(env, processes, actions)))
            <==> ApartInProcess(env, processes)
  {
    hide Run, NoCollision, GoodEdition, DirOf, ManifestDigest;
    if ApartInProcess(env, processes) {
      forall actions | NoCollision(env.c, Run(env, processes, actions).begun)
        ensures HeadIsComplete(env, Run(env, processes, actions))
      {
        if Run(env, processes, actions).register.Some? {
          var e := RegisteredHeadIsComplete(env, processes, actions);
          assert NamesDirectory(env, Run(env, processes, actions), e);
        }
      }
    } else {
      var p, q :| 0 <= p < processes && 0 <= q < processes && p != q && env.pid(p) == env.pid(q);
      var actions := SharedProcessPublishesEmptyDirectory(env, processes, p, q);
      OneEditionNoCollision(env.c, EmptyEdition(env, 1));
      NoCompleteDirectory(env, Run(env, processes, actions));
    }
  }

  lemma OneEditionNoCollision(c: Crypto, e: Edition)
    requires e.files == []
    ensures NoCollision(c, [e, e])
  {
    hide Encode;
    assert forall x :: Hashed([e, e], x) ==> x == Encode(e.manifest);
  }

  lemma NoCompleteDirectory(env: Env, w: World)
    requires w.register.Some? && forall d :: d in w.finals ==> w.finals[d] == map[]
    ensures !HeadIsComplete(env, w)
  {
    hide GoodEdition, ManifestDigest, DirOf;
    forall e ensures !NamesDirectory(env, w, e) {
      DirectoryNotEmpty(e);
    }
  }

  lemma DirectoryNotEmpty(e: Edition)
    ensures DirOf(e) != map[]
  {
    hide StagedPath, StagedBytes;
    assert StagedPath(e, |e.files|) in DirOf(e);
  }

  /** One publisher object clears the staging directory while another in its process is done filling
      it, and the other renames the empty directory into place and publishes it. */
  lemma SharedProcessPublishesEmptyDirectory(env: Env, processes: nat, p: nat, q: nat) returns (actions: seq<Action>)
    requires p < processes && q < processes && p != q && env.pid(p) == env.pid(q)
    ensures var n := Run(env, processes, actions);
      && n.begun == [EmptyEdition(env, 1), EmptyEdition(env, 1)]
      && |n.log| == 1 && n.register == Some(n.log[0].head)
      && n.finals == map[n.log[0].job.digest := map[]] && n.register.value.infoHash == env.torrentOf(map[])
  {
    hide Step, Steps;
    var w := TorrentPublisher.Initial(processes);
    var begun := BothBegin(env, w, p, q);
    var torn := RenamesEmpty(env, Steps(env, w, begun), p, q);
    StepsConcat(env, w, begun, torn);
    var road := PublishesEmpty(env, Steps(env, w, begun + torn), p);
    StepsConcat(env, w, begun + torn, road);
    actions := begun + torn + road;
  }

  lemma BothBegin(env: Env, w: World, p: nat, q: nat) returns (actions: seq<Action>)
    requires p < |w.procs| == |w.locals| && q < |w.procs| && p != q
    requires w.procs[p].Idle? && w.procs[q].Idle? && w.locals[p].None? && w.locals[q].None?
    requires w.register.None? && w.finals == map[]
    ensures var n := Steps(env, w, actions);
      && |n.procs| == |n.locals| == |w.procs| && n.procs[p].Clearing? && n.procs[q] == n.procs[p]
      && n.procs[p].job.edition == EmptyEdition(env, 1) && n.procs[p].job.previous.None?
      && n.begun == w.begun + [EmptyEdition(env, 1), EmptyEdition(env, 1)]
      && n.finals == map[] && n.register == w.register && n.log == w.log
  {
    hide Steps;
    var first, second := Begin(p, 1, [], None, true), Begin(q, 1, [], None, true);
    BeginsEmpty(env, w, p);
    BeginsEmpty(env, Step(env, w, first), q);
    OneStep(env, w, first);
    StepsThen(env, w, [first], second);
    hide Step;
    actions := [first] + [second];
  }

  lemma BeginsEmpty(env: Env, w: World, p: nat)
    requires p < |w.procs| == |w.locals| && w.procs[p].Idle? && w.locals[p].None?
    requires w.register.None? && w.finals == map[]
    ensures var e := EmptyEdition(env, 1);
      Step(env, w, Begin(p, 1, [], None, true)) ==
        w.(begun := w.begun + [e],
           procs := w.procs[p := Clearing(Job(e, ManifestDigest(env.c, e.manifest), None, None))])
  {
    hide ManifestDigest;
    assert Staged(env.c, env.id, 1, []) == Ok(Snapshot(Manifest(env.id, 1, []), map[])) by {
      assert Entries(env.c, []) == [];
    }
  }

  lemma FourSteps(env: Env, w: World, a: Action, b: Action, c: Action, d: Action)
    ensures Steps(env, w, [a, b, c, d]) == Step(env, Step(env, Step(env, Step(env, w, a), b), c), d)
  {
    hide Step;
    OneStep(env, w, a);
    StepsThen(env, w, [a], b);
    StepsThen(env, w, [a, b], c);
    StepsThen(env, w, [a, b, c], d);
    assert [a] + [b] == [a, b] && [a, b] + [c] == [a, b, c] && [a, b, c] + [d] == [a, b, c, d];
  }

  lemma RenamesEmpty(env: Env, w: World, p: nat, q: nat) returns (actions: seq<Action>)
    requires p < |w.procs| == |w.locals| && q < |w.procs| && p != q && env.pid(p) == env.pid(q)
    requires w.procs[p].Clearing? && w.procs[q] == w.procs[p] && w.procs[p].job.edition.files == []
    requires w.finals == map[]
    ensures var n := Steps(env, w, actions);
      && |n.procs| == |n.locals| == |w.procs| && n.procs[p] == Finished(w.procs[p].job)
      && n.finals == map[w.procs[p].job.digest := map[]]
      && n.begun == w.begun && n.register == w.register && n.log == w.log
  {
    hide StagedPath, StagedBytes, Steps;
    var job := w.procs[p].job;
    var n1 := Step(env, w, Clear(p, true, map[]));
    var n2 := Step(env, n1, WriteFile(p, true, map[]));
    assert n2.procs[p] == Filling(job, 1);
    var n3 := Step(env, n2, Clear(q, true, map[]));
    assert n3.procs[p] == Filling(job, 1) && n3.staging[Staging(env, p, job)] == map[];
    FourSteps(env, w, Clear(p, true, map[]), WriteFile(p, true, map[]), Clear(q, true, map[]), Rename(p, Done, true));
    actions := [Clear(p, true, map[]), WriteFile(p, true, map[]), Clear(q, true, map[]), Rename(p, Done, true)];
  }

  lemma PublishesEmpty(env: Env, w: World, p: nat) returns (actions: seq<Action>)
    requires p < |w.procs| == |w.locals| && w.procs[p].Finished?
    requires w.register.None? && w.log == [] && w.procs[p].job.previous.None?
    requires w.finals == map[w.procs[p].job.digest := map[]]
    ensures var n := Steps(env, w, actions);
      && |n.log| == 1 && n.register == Some(n.log[0].head) && n.log[0].job == w.procs[p].job
      && n.begun == w.begun && n.finals == w.finals && n.register.value.infoHash == env.torrentOf(map[])
  {
    hide Steps;
    var n1 := Step(env, w, Seed(p, true));
    assert n1.procs[p] == Created(w.procs[p].job, env.torrentOf(map[]));
    var n2 := Step(env, n1, Announce(p, Done));
    var n3 := Step(env, n2, Reresolve(p, true));
    assert n3.procs[p] == Confirmed(w.procs[p].job, env.torrentOf(map[]));
    FourSteps(env, w, Seed(p, true), Announce(p, Done), Reresolve(p, true), PutHead(p, Done));
    actions := [Seed(p, true), Announce(p, Done), Reresolve(p, true), PutHead(p, Done)];
  }
}
