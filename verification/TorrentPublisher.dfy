/** The torrent publisher as a step machine: a snapshot is staged file by file, renamed into
    place, turned into a torrent, announced, and only then named by the BEP 46 head. */
module TorrentPublisher {
  import opened Bytes
  import opened Outcomes
  import opened DatasetManifest
  import opened DatasetCore
  import opened TorrentReference
  import opened SwarmHead
  import opened Publications

  // ---- snapshot directories ---------------------------------------------------------------

  function InternalRoot(): seq<byte> { Ascii("__pubky_swarm__") }
  function ManifestFile(): seq<byte> { Ascii("__pubky_swarm__/manifest.v1") }
  function ObjectsRoot(): seq<byte> { Ascii("objects/") }

  type Dir = map<seq<byte>, seq<byte>>

  /** The files of a snapshot directory in the order they are written: the manifest first. */
  function StagedPath(e: Edition, k: nat): seq<byte>
    requires k <= |e.files|
  {
    if k == 0 then ManifestFile() else ObjectsRoot() + e.files[k - 1].path
  }

  function StagedBytes(e: Edition, k: nat): seq<byte>
    requires k <= |e.files|
  {
    if k == 0 then Encode(e.manifest) else e.files[k - 1].bytes
  }

  /** The directory after its first `k` files. */
  function Layout(e: Edition, k: nat): Dir
    requires k <= |e.files| + 1
  {
    if k == 0 then map[] else Layout(e, k - 1)[StagedPath(e, k - 1) := StagedBytes(e, k - 1)]
  }

  function DirOf(e: Edition): Dir
  {
    Layout(e, |e.files| + 1)
  }

  lemma StagedPathsDiffer(e: Edition, i: nat, j: nat)
    requires i < j <= |e.files| && DistinctFiles(e.files)
    ensures StagedPath(e, i) != StagedPath(e, j)
  {
    var root := ObjectsRoot();
    assert ManifestFile()[0] == '_' as int && StagedPath(e, j)[0] == 'o' as int;
    if i > 0 && StagedPath(e, i) == StagedPath(e, j) {
      SplitFixed(root, e.files[i - 1].path, root, e.files[j - 1].path);
      assert false;
    }
  }

  lemma {:induction false} LayoutHolds(e: Edition, k: nat, i: nat)
    requires i < k <= |e.files| + 1 && DistinctFiles(e.files)
    ensures StagedPath(e, i) in Layout(e, k) && Layout(e, k)[StagedPath(e, i)] == StagedBytes(e, i)
    decreases k
  {
    hide StagedPath, StagedBytes;
    if i < k - 1 {
      LayoutHolds(e, k - 1, i);
      StagedPathsDiffer(e, i, k - 1);
    }
  }

  lemma {:induction false} LayoutOnly(e: Edition, k: nat, path: seq<byte>) returns (i: nat)
    requires k <= |e.files| + 1 && path in Layout(e, k)
    ensures i < k && path == StagedPath(e, i)
  {
    if path == StagedPath(e, k - 1) { i := k - 1; } else { i := LayoutOnly(e, k - 1, path); }
  }

  /** Where a snapshot directory keeps its manifest and its objects. */
  lemma DirectoryNames()
    ensures ManifestFile() == Ascii("__pubky_swarm__/manifest.v1") && ObjectsRoot() == Ascii("objects/")
  {
  }

  /** A finished directory holds the canonical manifest and every object under its path, with
      the published bytes, and nothing else. */
  lemma DirOfMeaning(c: Crypto, id: Bytes32, e: Edition)
    requires GoodEdition(c, id, e)
    ensures ManifestFile() in DirOf(e) && DirOf(e)[ManifestFile()] == Encode(e.manifest)
    ensures forall f :: f in e.files ==>
              ObjectsRoot() + f.path in DirOf(e) && DirOf(e)[ObjectsRoot() + f.path] == f.bytes
    ensures forall p :: p in DirOf(e) ==> p == ManifestFile() || exists f :: f in e.files && p == ObjectsRoot() + f.path
  {
    hide ValidManifest, Layout, ManifestFile, ObjectsRoot, Encode;
    LayoutHolds(e, |e.files| + 1, 0);
    forall f | f in e.files ensures ObjectsRoot() + f.path in DirOf(e) && DirOf(e)[ObjectsRoot() + f.path] == f.bytes {
      var i :| 0 <= i < |e.files| && e.files[i] == f;
      LayoutHolds(e, |e.files| + 1, i + 1);
    }
    forall p | p in DirOf(e) ensures p == ManifestFile() || exists f :: f in e.files && p == ObjectsRoot() + f.path {
      var i := LayoutOnly(e, |e.files| + 1, p);
      if i > 0 { assert e.files[i - 1] in e.files; }
    }
  }

  lemma DeclaredBySame(c: Crypto, id: Bytes32, p: Edition, q: Edition, f: File) returns (g: File)
    requires GoodEdition(c, id, p) && GoodEdition(c, id, q) && p.manifest == q.manifest
    requires f in p.files
    ensures g in q.files && g.path == f.path
  {
    hide ValidManifest;
    var o :| o in p.manifest.objects && o.path == f.path;
    g :| g in q.files && g.path == o.path;
  }

  lemma SameManifestSubset(c: Crypto, id: Bytes32, editions: seq<Edition>, p: Edition, q: Edition, path: seq<byte>)
    requires NoCollision(c, editions) && p in editions && q in editions
    requires GoodEdition(c, id, p) && GoodEdition(c, id, q) && p.manifest == q.manifest
    requires path in DirOf(p)
    ensures path in DirOf(q) && DirOf(q)[path] == DirOf(p)[path]
  {
    hide GoodEdition, NoCollision, DirOf, ManifestFile, ObjectsRoot, Encode;
    DirOfMeaning(c, id, p);
    DirOfMeaning(c, id, q);
    if path != ManifestFile() {
      var f :| f in p.files && path == ObjectsRoot() + f.path;
      var g := DeclaredBySame(c, id, p, q, f);
      SamePathSameBytes(c, id, editions, p, f, q, g);
    }
  }

  /** A digest determines the finished directory, whatever order the files were handed in. */
  lemma SameDigestSameDir(c: Crypto, id: Bytes32, editions: seq<Edition>, p: Edition, q: Edition)
    requires NoCollision(c, editions) && p in editions && q in editions
    requires GoodEdition(c, id, p) && GoodEdition(c, id, q)
    requires ManifestDigest(c, p.manifest) == ManifestDigest(c, q.manifest)
    ensures DirOf(p) == DirOf(q)
  {
    hide GoodEdition, NoCollision, DirOf, ManifestDigest;
    SameDigestSameManifest(c, editions, p, q);
    forall path | path in DirOf(p) || path in DirOf(q)
      ensures path in DirOf(p) && path in DirOf(q) && DirOf(q)[path] == DirOf(p)[path]
    {
      if path in DirOf(p) {
        SameManifestSubset(c, id, editions, p, q, path);
      } else {
        SameManifestSubset(c, id, editions, q, p, path);
      }
    }
  }

  // ---- the machine ---------------------------------------------------------------------------

  /** What is fixed in a run: hashing, the publisher, the info hash of a directory, and the
      operating-system process each publisher object lives in. */
  datatype Env = Env(c: Crypto, id: Bytes32, torrentOf: Dir -> Bytes20, pid: nat -> nat)

  /** A publication under way: its edition, its digest, the digest it is to replace, and the
      sequence it found. */
  datatype Job = Job(edition: Edition, digest: Bytes32, expected: Option<Bytes32>, previous: Option<i64>)

  datatype Local = Local(digest: Bytes32, sequence: i64)

  datatype Register = Register(sequence: i64, infoHash: Bytes20)

  /** A head that reached the register. */
  datatype Landed = Landed(job: Job, head: Register)

  datatype Phase =
    | Idle
    | Clearing(job: Job)
    | Filling(job: Job, written: nat)
    | Finished(job: Job)
    | Created(job: Job, infoHash: Bytes20)
    | Announced(job: Job, infoHash: Bytes20)
    | Confirmed(job: Job, infoHash: Bytes20)

  datatype World = World(
    finals: map<Bytes32, Dir>,
    staging: map<(nat, Bytes32), Dir>,
    announced: set<Bytes20>,
    register: Option<Register>,
    locals: seq<Option<Local>>,
    procs: seq<Phase>,
    begun: seq<Edition>,
    log: seq<Landed>)

  datatype Outcome = Done | DoneButFailed | NotDone

  /** One await of process `p`, a crash with whatever state the operator restores, a third
      party reannouncing a head that once landed, or the DHT forgetting the item. A failed file
      operation leaves the staging directory in an arbitrary state `left`. */
  datatype Action =
    | Begin(p: nat, createdAt: u64, files: Files, expected: Option<Bytes32>, resolvable: bool)
    | Clear(p: nat, ok: bool, left: Dir)
    | WriteFile(p: nat, ok: bool, left: Dir)
    | Rename(p: nat, outcome: Outcome, cleaned: bool)
    | Seed(p: nat, ok: bool)
    | Announce(p: nat, outcome: Outcome)
    | Reresolve(p: nat, ok: bool)
    | PutHead(p: nat, outcome: Outcome)
    | Crash(p: nat, restored: Option<Local>)
    | Reannounce(which: nat)
    | Forget

  datatype Refusal =
    | ReservedPath
    | Unresolvable
    | LocalMismatch(expected: Option<Bytes32>, actual: Option<Bytes32>)
    | NeedsRestoredState
    | SequenceDiffers
    | HeadUnavailable
    | Unstageable(error: StageError)

  /** The staging directory is named by digest and operating-system process. */
  function Staging(env: Env, p: nat, job: Job): (nat, Bytes32)
  {
    (env.pid(p), job.digest)
  }

  predicate Reserved(path: seq<byte>)
  {
    path == InternalRoot() || StartsWith(path, InternalRoot() + Ascii("/"))
  }

  function SequenceOf(register: Option<Register>): Option<i64>
  {
    match register case None => None case Some(r) => Some(r.sequence)
  }

  function DigestOf(local: Option<Local>): Option<Bytes32>
  {
    match local case None => None case Some(l) => Some(l.digest)
  }

  /** `publish` up to the first file operation. */
  function Begun(env: Env, local: Option<Local>, register: Option<Register>, a: Action): Result<Job, Refusal>
    requires a.Begin?
  {
    if exists f :: f in a.files && Reserved(f.path) then Err(ReservedPath)
    else if !a.resolvable then Err(Unresolvable)
    else if DigestOf(local) != a.expected then Err(LocalMismatch(a.expected, DigestOf(local)))
    else if local.None? && register.Some? then Err(NeedsRestoredState)
    else if local.Some? && register.Some? && local.value.sequence != register.value.sequence then Err(SequenceDiffers)
    else if local.Some? && register.None? then Err(HeadUnavailable)
    else match Staged(env.c, env.id, a.createdAt, a.files)
      case Err(e) => Err(Unstageable(e))
      case Ok(s) =>
        Ok(Job(Edition(a.files, s.manifest), ManifestDigest(env.c, s.manifest), a.expected, SequenceOf(register)))
  }

  /** The register takes an item that is not older than its own; with a previous sequence
      given, only while that is still its sequence. */
  predicate Accepts(register: Option<Register>, sequence: i64, cas: Option<i64>)
  {
    register.None? || (sequence >= register.value.sequence && (cas.Some? ==> register.value.sequence == cas.value))
  }

  /** `publish_next`: one more than the sequence found, or 1. */
  function NextSequence(previous: Option<i64>): Option<i64>
  {
    match previous
    case None => Some(1)
    case Some(s) => if s + 1 < I64_LIMIT then Some(s + 1) else None
  }

  function AfterBegin(env: Env, w: World, a: Action): World
    requires a.Begin? && a.p < |w.procs| == |w.locals|
  {
    var begun := Begun(env, w.locals[a.p], w.register, a);
    if begun.Err? then w
    else
      var job := begun.value;
      w.(begun := w.begun + [job.edition],
         procs := w.procs[a.p := if job.digest in w.finals then Finished(job) else Clearing(job)])
  }

  /** A rename needs its source; onto an existing directory it fails, and the staging directory
      is cleaned up instead. */
  function AfterRename(env: Env, w: World, p: nat, job: Job, outcome: Outcome, cleaned: bool): World
    requires p < |w.procs|
  {
    var key := Staging(env, p, job);
    if key !in w.staging then w.(procs := w.procs[p := Idle])
    else if job.digest in w.finals then
      w.(staging := if cleaned then w.staging - {key} else w.staging,
         procs := w.procs[p := if cleaned then Finished(job) else Idle])
    else if outcome.NotDone? then w.(procs := w.procs[p := Idle])
    else
      w.(finals := w.finals[job.digest := w.staging[key]],
         staging := w.staging - {key},
         procs := w.procs[p := if outcome.Done? || cleaned then Finished(job) else Idle])
  }

  /** Writing a file creates the directories above it, except for the manifest, which goes
      first and finds the directory just made. */
  function AfterWrite(env: Env, w: World, p: nat, job: Job, k: nat, ok: bool, left: Dir): World
    requires p < |w.procs| && k <= |job.edition.files|
  {
    var key := Staging(env, p, job);
    if ok && (k > 0 || key in w.staging) then
      var dir := if key in w.staging then w.staging[key] else map[];
      w.(staging := w.staging[key := dir[StagedPath(job.edition, k) := StagedBytes(job.edition, k)]],
         procs := w.procs[p := Filling(job, k + 1)])
    else w.(staging := w.staging[key := left], procs := w.procs[p := Idle])
  }

  predicate Lands(w: World, job: Job, outcome: Outcome)
  {
    var next := NextSequence(job.previous);
    next.Some? && !outcome.NotDone? && Accepts(w.register, next.value, job.previous)
  }

  function AfterPutHead(w: World, p: nat, job: Job, infoHash: Bytes20, outcome: Outcome): World
    requires p < |w.procs| == |w.locals|
  {
    var stop := w.(procs := w.procs[p := Idle]);
    if !Lands(w, job, outcome) then stop
    else
      var head := Register(NextSequence(job.previous).value, infoHash);
      stop.(register := Some(head),
            log := w.log + [Landed(job, head)],
            locals := if outcome.Done? then w.locals[p := Some(Local(job.digest, head.sequence))] else w.locals)
  }

  function Advance(env: Env, w: World, a: Action): World
    requires !a.Reannounce? && !a.Forget? && a.p < |w.procs| == |w.locals|
  {
    var stop := w.(procs := w.procs[a.p := Idle]);
    match (a, w.procs[a.p])
    case (Begin(p, _, _, _, _), Idle) => AfterBegin(env, w, a)
    case (Clear(p, ok, left), Clearing(job)) =>
      if ok then w.(staging := w.staging[Staging(env, p, job) := map[]], procs := w.procs[p := Filling(job, 0)])
      else stop.(staging := w.staging[Staging(env, p, job) := left])
    case (WriteFile(p, ok, left), Filling(job, k)) =>
      if k <= |job.edition.files| then AfterWrite(env, w, p, job, k, ok, left) else w
    case (Rename(p, outcome, cleaned), Filling(job, k)) =>
      if k == |job.edition.files| + 1 then AfterRename(env, w, p, job, outcome, cleaned) else w
    case (Seed(p, ok), Finished(job)) =>
      if ok && job.digest in w.finals then w.(procs := w.procs[p := Created(job, env.torrentOf(w.finals[job.digest]))])
      else stop
    case (Announce(p, outcome), Created(job, h)) =>
      w.(announced := if outcome.NotDone? then w.announced else w.announced + {h},
         procs := w.procs[p := if outcome.Done? then Announced(job, h) else Idle])
    case (Reresolve(p, ok), Announced(job, h)) =>
      if ok && SequenceOf(w.register) == job.previous then w.(procs := w.procs[p := Confirmed(job, h)]) else stop
    case (PutHead(p, outcome), Confirmed(job, h)) => AfterPutHead(w, p, job, h, outcome)
    case (Crash(p, restored), _) => stop.(locals := w.locals[p := restored])
    case _ => w
  }

  function Step(env: Env, w: World, a: Action): World
  {
    match a
    case Reannounce(i) =>
      if i < |w.log| && Accepts(w.register, w.log[i].head.sequence, None)
      then w.(register := Some(w.log[i].head))
      else w
    case Forget => w.(register := None)
    case _ => if a.p < |w.procs| == |w.locals| then Advance(env, w, a) else w
  }

  function Initial(processes: nat): World
  {
    World(map[], map[], {}, None, seq(processes, i => None), seq(processes, i => Idle), [], [])
  }

  function Steps(env: Env, w: World, actions: seq<Action>): World
  {
    if actions == [] then w
    else
      var n := |actions| - 1;
      Step(env, Steps(env, w, actions[..n]), actions[n])
  }

  function Run(env: Env, processes: nat, actions: seq<Action>): World
  {
    Steps(env, Initial(processes), actions)
  }

  lemma StepsThen(env: Env, w: World, actions: seq<Action>, a: Action)
    ensures Steps(env, w, actions + [a]) == Step(env, Steps(env, w, actions), a)
  {
    assert (actions + [a])[..|actions|] == actions;
  }

  lemma {:induction false} StepsConcat(env: Env, w: World, a: seq<Action>, b: seq<Action>)
    ensures Steps(env, w, a + b) == Steps(env, Steps(env, w, a), b)
  {
    hide Step;
    if b == [] {
      assert a + b == a;
    } else {
      var n := |b| - 1;
      StepsConcat(env, w, a, b[..n]);
      assert (a + b)[..|a + b| - 1] == a + b[..n];
    }
  }

  // ---- which publications begin ---------------------------------------------------------------

  /** The path of the publisher's own directory, or one below it. */
  predicate Internal(path: seq<byte>)
  {
    path == Ascii("__pubky_swarm__") || Ascii("__pubky_swarm__/") <= path
  }

  /** Local state is that of the head the DHT holds: none and none, or the same sequence. */
  predicate InStep(local: Option<Local>, register: Option<Register>)
  {
    match local
    case None => register.None?
    case Some(l) => register.Some? && register.value.sequence == l.sequence
  }

  /** Exactly the publications that begin: no internal path, a head that could be resolved, the
      caller expecting what local state says, local state in step with the head, and files that
      can be staged. */
  predicate MayBegin(local: Option<Local>, register: Option<Register>, a: Action)
    requires a.Begin?
  {
    && (forall f :: f in a.files ==> !Internal(f.path))
    && a.resolvable
    && a.expected == (match local case None => None case Some(l) => Some(l.digest))
    && InStep(local, register)
    && Publishable(a.createdAt, a.files)
  }

  lemma InternalPaths(path: seq<byte>)
    ensures Reserved(path) <==> Internal(path)
  {
    assert InternalRoot() + Ascii("/") == Ascii("__pubky_swarm__/");
  }

  /** A publication begins if and only if it may, for the edition of its files, in the place of
      what its caller expected, after the sequence found. */
  lemma BegunExactly(env: Env, local: Option<Local>, register: Option<Register>, a: Action)
    requires a.Begin? && env.c.validKey(env.id)
    ensures var begun := Begun(env, local, register, a);
      && (begun.Ok? <==> MayBegin(local, register, a))
      && (begun.Ok? ==>
            var job := begun.value;
            && job.edition.files == a.files && job.edition.manifest.createdAt == a.createdAt
            && GoodEdition(env.c, env.id, job.edition)
            && job.digest == env.c.hash(Encode(job.edition.manifest))
            && job.expected == a.expected
            && job.previous == (match register case None => None case Some(r) => Some(r.sequence)))
  {
    hide Publishable, Reserved, Internal, Staged, GoodEdition, Encode;
    StagedExactly(env.c, env.id, a.createdAt, a.files);
    StagedIsGood(env.c, env.id, a.createdAt, a.files);
    var staged := Staged(env.c, env.id, a.createdAt, a.files);
    if staged.Ok? { StagedMeaning(env.c, env.id, a.createdAt, a.files, staged.value); }
    forall path ensures Reserved(path) <==> Internal(path) { InternalPaths(path); }
    hide ValidManifest;
  }

  /** Each refusal is given exactly when everything asked before it is as it should be. */
  lemma BegunRefuses(env: Env, local: Option<Local>, register: Option<Register>, a: Action, e: Refusal)
    requires a.Begin?
    ensures var internal := exists f :: f in a.files && Internal(f.path);
      var digest := match local case None => None case Some(l) => Some(l.digest);
      Begun(env, local, register, a) == Err(e) <==>
      match e
      case ReservedPath => internal
      case Unresolvable => !internal && !a.resolvable
      case LocalMismatch(expected, actual) =>
        !internal && a.resolvable && expected == a.expected && actual == digest && expected != actual
      case NeedsRestoredState => !internal && a.resolvable && a.expected == digest && local.None? && register.Some?
      case SequenceDiffers =>
        && !internal && a.resolvable && a.expected == digest
        && local.Some? && register.Some? && local.value.sequence != register.value.sequence
      case HeadUnavailable => !internal && a.resolvable && a.expected == digest && local.Some? && register.None?
      case Unstageable(error) =>
        && !internal && a.resolvable && a.expected == digest && InStep(local, register)
        && Staged(env.c, env.id, a.createdAt, a.files) == Err(error)
  {
    hide Reserved, Internal, Staged;
    forall path ensures Reserved(path) <==> Internal(path) { InternalPaths(path); }
  }

  // ---- a head is never ahead of its snapshot --------------------------------------------------

  ghost predicate GoodJob(env: Env, w: World, job: Job)
  {
    && job.edition in w.begun && GoodEdition(env.c, env.id, job.edition)
    && job.digest == ManifestDigest(env.c, job.edition.manifest)
  }

  /** The complete directory of the job stands under its final name. */
  ghost predicate InPlace(env: Env, w: World, job: Job)
  {
    GoodJob(env, w, job) && job.digest in w.finals && w.finals[job.digest] == DirOf(job.edition)
  }

  ghost predicate Seeded(env: Env, w: World, job: Job, infoHash: Bytes20)
  {
    InPlace(env, w, job) && infoHash == env.torrentOf(DirOf(job.edition))
  }

  ghost predicate PhaseKept(env: Env, w: World, p: nat, phase: Phase)
  {
    match phase
    case Idle => true
    case Clearing(job) => GoodJob(env, w, job)
    case Filling(job, k) =>
      && GoodJob(env, w, job) && k <= |job.edition.files| + 1
      && Staging(env, p, job) in w.staging && w.staging[Staging(env, p, job)] == Layout(job.edition, k)
    case Finished(job) => InPlace(env, w, job)
    case Created(job, h) => Seeded(env, w, job, h)
    case Announced(job, h) => Seeded(env, w, job, h) && h in w.announced
    case Confirmed(job, h) => Seeded(env, w, job, h) && h in w.announced
  }

  ghost predicate LandedKept(env: Env, w: World, landed: Landed)
  {
    Seeded(env, w, landed.job, landed.head.infoHash) && landed.head.infoHash in w.announced
  }

  ghost predicate FinalKept(env: Env, w: World, digest: Bytes32)
  {
    digest in w.finals ==> exists job: Job :: job.digest == digest && InPlace(env, w, job)
  }

  /** No two publisher objects share an operating-system process. */
  predicate ApartInProcess(env: Env, processes: nat)
  {
    forall p, q :: 0 <= p < processes && 0 <= q < processes && p != q ==> env.pid(p) != env.pid(q)
  }

  ghost predicate Kept(env: Env, w: World)
  {
    && |w.procs| == |w.locals| && ApartInProcess(env, |w.procs|)
    && (forall d :: d in w.finals ==> FinalKept(env, w, d))
    && (forall p :: 0 <= p < |w.procs| ==> PhaseKept(env, w, p, w.procs[p]))
    && (forall l :: l in w.log ==> LandedKept(env, w, l))
    && (w.register.Some? ==> exists l :: l in w.log && l.head == w.register.value)
  }

  /** Directories under a final name never change, nor is anything else taken back. */
  ghost predicate Extends(w: World, n: World)
  {
    && w.begun <= n.begun && w.log <= n.log && w.announced <= n.announced
    && (forall d :: d in w.finals ==> d in n.finals && n.finals[d] == w.finals[d])
  }

  lemma ExtendsKeeps(env: Env, w: World, n: World)
    requires Extends(w, n)
    ensures forall job :: GoodJob(env, w, job) ==> GoodJob(env, n, job)
    ensures forall job :: InPlace(env, w, job) ==> InPlace(env, n, job)
    ensures forall job, h :: Seeded(env, w, job, h) ==> Seeded(env, n, job, h)
    ensures forall l :: LandedKept(env, w, l) ==> LandedKept(env, n, l)
    ensures forall d :: d in w.finals && FinalKept(env, w, d) ==> FinalKept(env, n, d)
  {
    hide GoodEdition, DirOf;
    forall d | d in w.finals && FinalKept(env, w, d) ensures FinalKept(env, n, d) {
      var job: Job :| job.digest == d && InPlace(env, w, job);
      assert InPlace(env, n, job);
    }
  }

  /** A final directory with the digest of a job is the directory of that job. */
  lemma FinalIsInPlace(env: Env, w: World, job: Job)
    requires Kept(env, w) && NoCollision(env.c, w.begun)
    requires GoodJob(env, w, job) && job.digest in w.finals
    ensures InPlace(env, w, job)
  {
    hide NoCollision, GoodEdition, DirOf, ManifestDigest;
    assert FinalKept(env, w, job.digest);
    var other: Job :| other.digest == job.digest && InPlace(env, w, other);
    SameDigestSameDir(env.c, env.id, w.begun, other.edition, job.edition);
  }

  /** Only the staging directories of process `p` were touched. */
  ghost predicate StagingApart(env: Env, w: World, n: World, p: nat)
  {
    forall key: (nat, Bytes32) :: key.0 != env.pid(p) && key in w.staging ==>
      key in n.staging && n.staging[key] == w.staging[key]
  }

  /** What a step of process `p` must show: its own phase, anything newly final, newly landed
      heads, and that it touched no other process. */
  ghost predicate Moved(env: Env, w: World, n: World, p: nat)
    requires p < |w.procs|
  {
    && Extends(w, n) && |n.procs| == |w.procs| == |n.locals|
    && (forall q :: 0 <= q < |w.procs| && q != p ==> n.procs[q] == w.procs[q])
    && StagingApart(env, w, n, p)
    && PhaseKept(env, n, p, n.procs[p])
    && (forall d :: d in n.finals && d !in w.finals ==> FinalKept(env, n, d))
    && (forall l :: l in n.log && l !in w.log ==> LandedKept(env, n, l))
    && (n.register.Some? && n.register != w.register ==> exists l :: l in n.log && l.head == n.register.value)
  }

  lemma MovedKeeps(env: Env, w: World, n: World, p: nat)
    requires Kept(env, w) && p < |w.procs| && Moved(env, w, n, p)
    ensures Kept(env, n)
  {
    hide GoodJob, InPlace, Seeded, LandedKept, FinalKept;
    ExtendsKeeps(env, w, n);
    forall q | 0 <= q < |n.procs| ensures PhaseKept(env, n, q, n.procs[q]) {
      assert PhaseKept(env, w, q, w.procs[q]);
    }
    if n.register.Some? && n.register == w.register {
      var l :| l in w.log && l.head == w.register.value;
      assert l in n.log;
    }
  }

  lemma BeginMoves(env: Env, w: World, a: Action)
    requires env.c.validKey(env.id) && Kept(env, w) && a.Begin? && a.p < |w.procs| && w.procs[a.p].Idle?
    requires NoCollision(env.c, AfterBegin(env, w, a).begun)
    ensures Moved(env, w, AfterBegin(env, w, a), a.p)
  {
    hide NoCollision, GoodEdition, DirOf, ManifestDigest, Staged, InPlace, Seeded, LandedKept;
    var begun := Begun(env, w.locals[a.p], w.register, a);
    if begun.Ok? {
      var job, n := begun.value, AfterBegin(env, w, a);
      StagedIsGood(env.c, env.id, a.createdAt, a.files);
      assert job.edition in n.begun;
      if job.digest in w.finals {
        var k := w.(begun := n.begun);
        ExtendsKeeps(env, w, k);
        KeptMore(env, w, k);
        FinalIsInPlace(env, k, job);
        ExtendsKeeps(env, k, n);
      }
    }
  }

  lemma KeptMore(env: Env, w: World, n: World)
    requires Kept(env, w) && Extends(w, n) && n == w.(begun := n.begun)
    ensures Kept(env, n)
  {
    hide GoodJob, InPlace, Seeded, LandedKept, FinalKept;
    ExtendsKeeps(env, w, n);
    forall q | 0 <= q < |n.procs| ensures PhaseKept(env, n, q, n.procs[q]) {
      assert PhaseKept(env, w, q, w.procs[q]);
    }
  }

  lemma RenameMoves(env: Env, w: World, p: nat, job: Job, outcome: Outcome, cleaned: bool)
    requires Kept(env, w) && NoCollision(env.c, w.begun)
    requires p < |w.procs| && w.procs[p] == Filling(job, |job.edition.files| + 1)
    ensures Moved(env, w, AfterRename(env, w, p, job, outcome, cleaned), p)
  {
    hide NoCollision, GoodEdition, ManifestDigest, Layout;
    assert PhaseKept(env, w, p, w.procs[p]);
    var n := AfterRename(env, w, p, job, outcome, cleaned);
    if job.digest in w.finals {
      FinalIsInPlace(env, w, job);
    } else if !outcome.NotDone? {
      assert InPlace(env, n, job);
    }
  }

  lemma PutHeadMoves(env: Env, w: World, p: nat, job: Job, h: Bytes20, outcome: Outcome)
    requires Kept(env, w) && p < |w.procs| && w.procs[p] == Confirmed(job, h)
    ensures Moved(env, w, AfterPutHead(w, p, job, h, outcome), p)
  {
    hide Lands, Seeded, GoodJob, InPlace, FinalKept;
    assert PhaseKept(env, w, p, w.procs[p]);
    var n := AfterPutHead(w, p, job, h, outcome);
    ExtendsKeeps(env, w, n);
    if n.log != w.log {
      var l := n.log[|w.log|];
      assert l.job == job && l.head.infoHash == h;
      assert LandedKept(env, n, l);
    }
  }

  /** A step that touches nothing but its own staging directory. */
  lemma StagingMoves(env: Env, w: World, n: World, p: nat)
    requires Kept(env, w) && p < |w.procs| == |n.procs|
    requires n == w.(staging := n.staging, procs := w.procs[p := n.procs[p]])
    requires StagingApart(env, w, n, p)
    requires PhaseKept(env, n, p, n.procs[p])
    ensures Moved(env, w, n, p)
  {
    hide PhaseKept, LandedKept, FinalKept;
  }

  lemma ClearMoves(env: Env, w: World, a: Action)
    requires Kept(env, w) && a.Clear? && a.p < |w.procs|
    ensures Moved(env, w, Advance(env, w, a), a.p)
  {
    hide GoodEdition, ManifestDigest, LandedKept, FinalKept, InPlace, Seeded, Moved;
    var n := Advance(env, w, a);
    assert PhaseKept(env, w, a.p, w.procs[a.p]);
    StillInPlace(env, w, n);
    StagingMoves(env, w, n, a.p);
  }

  lemma WriteFileMoves(env: Env, w: World, a: Action)
    requires Kept(env, w) && a.WriteFile? && a.p < |w.procs|
    ensures Moved(env, w, Advance(env, w, a), a.p)
  {
    hide GoodEdition, ManifestDigest, LandedKept, FinalKept, InPlace, Seeded, Moved, StagedPath, StagedBytes;
    var n := Advance(env, w, a);
    assert PhaseKept(env, w, a.p, w.procs[a.p]);
    StillInPlace(env, w, n);
    StagingMoves(env, w, n, a.p);
  }

  lemma SeedingStepMoves(env: Env, w: World, a: Action)
    requires Kept(env, w) && (a.Seed? || a.Announce? || a.Reresolve? || a.Crash?) && a.p < |w.procs|
    ensures Moved(env, w, Advance(env, w, a), a.p)
  {
    hide GoodEdition, DirOf, ManifestDigest, LandedKept, FinalKept, Layout;
    assert PhaseKept(env, w, a.p, w.procs[a.p]);
  }

  lemma StillInPlace(env: Env, w: World, n: World)
    requires n.finals == w.finals && n.begun == w.begun
    ensures forall job :: InPlace(env, w, job) ==> InPlace(env, n, job)
    ensures forall job, h :: Seeded(env, w, job, h) ==> Seeded(env, n, job, h)
  {
    hide GoodEdition, DirOf, ManifestDigest;
  }

  lemma AdvanceMoves(env: Env, w: World, a: Action)
    requires !a.Reannounce? && !a.Forget? && a.p < |w.procs|
    requires env.c.validKey(env.id) && Kept(env, w) && NoCollision(env.c, Advance(env, w, a).begun)
             && NoCollision(env.c, w.begun)
    ensures Advance(env, w, a) == w || Moved(env, w, Advance(env, w, a), a.p)
  {
    hide NoCollision, Moved, PhaseKept, LandedKept, FinalKept, AfterBegin, AfterRename, AfterPutHead;
    match a {
      case Begin(p, _, _, _, _) =>
        if w.procs[p].Idle? { BeginMoves(env, w, a); }
      case Rename(p, outcome, cleaned) =>
        var phase := w.procs[p];
        if phase.Filling? && phase.written == |phase.job.edition.files| + 1 {
          RenameMoves(env, w, p, phase.job, outcome, cleaned);
        }
      case PutHead(p, outcome) =>
        if w.procs[p].Confirmed? { PutHeadMoves(env, w, p, w.procs[p].job, w.procs[p].infoHash, outcome); }
      case Clear(_, _, _) => ClearMoves(env, w, a);
      case WriteFile(_, _, _) => WriteFileMoves(env, w, a);
      case _ => SeedingStepMoves(env, w, a);
    }
  }

  lemma RegisterKeeps(env: Env, w: World, register: Option<Register>)
    requires Kept(env, w) && (register.Some? ==> exists l :: l in w.log && l.head == register.value)
    ensures Kept(env, w.(register := register))
  {
    hide GoodJob, InPlace, Seeded, LandedKept, FinalKept;
    var n := w.(register := register);
    ExtendsKeeps(env, w, n);
    forall q | 0 <= q < |n.procs| ensures PhaseKept(env, n, q, n.procs[q]) {
      assert PhaseKept(env, w, q, w.procs[q]);
    }
  }

  lemma StepKeeps(env: Env, w: World, a: Action)
    requires env.c.validKey(env.id) && Kept(env, w) && NoCollision(env.c, Step(env, w, a).begun)
    ensures Kept(env, Step(env, w, a)) && Extends(w, Step(env, w, a))
  {
    hide NoCollision, Moved, PhaseKept, LandedKept, FinalKept, Advance;
    match a {
      case Reannounce(i) =>
        if i < |w.log| { RegisterKeeps(env, w, Some(w.log[i].head)); }
      case Forget => RegisterKeeps(env, w, None);
      case _ =>
        if a.p < |w.procs| {
          StepGrows(env, w, a);
          AdvanceMoves(env, w, a);
          var n := Step(env, w, a);
          if n != w {
            MovedKeeps(env, w, n, a.p);
            MovedExtends(env, w, n, a.p);
          }
        }
    }
  }

  lemma MovedExtends(env: Env, w: World, n: World, p: nat)
    requires p < |w.procs| && Moved(env, w, n, p)
    ensures Extends(w, n)
  {
  }

  lemma StepGrows(env: Env, w: World, a: Action)
    ensures w.begun <= Step(env, w, a).begun && w.log <= Step(env, w, a).log
    ensures NoCollision(env.c, Step(env, w, a).begun) ==> NoCollision(env.c, w.begun)
  {
    hide NoCollision;
    if NoCollision(env.c, Step(env, w, a).begun) { FewerEditionsNoCollision(env.c, w.begun, Step(env, w, a).begun); }
  }

  /** In every reachable state, with failures at every await, crashes, reannouncements and a
      forgetful DHT: whatever head is in the register, and every head that ever landed, names
      the torrent of a directory that stands complete under its final name and was announced. */
  lemma {:induction false} RunKeeps(env: Env, processes: nat, actions: seq<Action>)
    requires env.c.validKey(env.id) && ApartInProcess(env, processes)
    requires NoCollision(env.c, Run(env, processes, actions).begun)
    ensures Kept(env, Run(env, processes, actions))
  {
    if actions != [] {
      hide NoCollision, Kept, Step;
      var n := |actions| - 1;
      StepGrows(env, Run(env, processes, actions[..n]), actions[n]);
      RunKeeps(env, processes, actions[..n]);
      StepKeeps(env, Run(env, processes, actions[..n]), actions[n]);
    }
  }

  /** The head a reader resolves leads to the manifest and every object of a published edition. */
  lemma RegisteredHeadIsComplete(env: Env, processes: nat, actions: seq<Action>) returns (e: Edition)
    requires env.c.validKey(env.id) && ApartInProcess(env, processes)
             && NoCollision(env.c, Run(env, processes, actions).begun)
    requires Run(env, processes, actions).register.Some?
    ensures var w := Run(env, processes, actions);
      var digest := ManifestDigest(env.c, e.manifest);
      && GoodEdition(env.c, env.id, e) && e in w.begun
      && digest in w.finals && w.finals[digest] == DirOf(e)
      && w.register.value.infoHash == env.torrentOf(w.finals[digest])
      && w.register.value.infoHash in w.announced
      && ManifestFile() in DirOf(e) && DirOf(e)[ManifestFile()] == Encode(e.manifest)
      && forall f :: f in e.files ==> ObjectsRoot() + f.path in DirOf(e) && DirOf(e)[ObjectsRoot() + f.path] == f.bytes
  {
    hide NoCollision, GoodEdition, DirOf, Run, ManifestDigest;
    RunKeeps(env, processes, actions);
    var w := Run(env, processes, actions);
    var l :| l in w.log && l.head == w.register.value;
    assert LandedKept(env, w, l);
    e := l.job.edition;
    DirOfMeaning(env.c, env.id, e);
  }
}
