/** The homeserver dataset: crash-ordered publication to a key-value store, and readers that
    fetch the head, the manifest and an object one after another. */
module Homeserver {
  import opened Bytes
  import opened Outcomes
  import opened DatasetManifest
  import opened DatasetCore
  import opened TorrentReference
  import opened Publications

  // ---- keys ---------------------------------------------------------------------------

  function HeadPath(): seq<byte> { Ascii("/pub/pubky.swarm/v1/dataset-head.json") }
  function SnapshotsPath(): seq<byte> { Ascii("/pub/pubky.swarm/v1/datasets/") }

  function ManifestPath(digest: Bytes32): seq<byte>
  {
    SnapshotsPath() + (Hex(digest) + Ascii("/manifest.bin"))
  }

  function ObjectPath(digest: Bytes32, path: seq<byte>): seq<byte>
  {
    SnapshotsPath() + (Hex(digest) + (Ascii("/objects/") + path))
  }

  /** The keys of manifests and objects as they are written. */
  lemma KeySpelling(digest: Bytes32, path: seq<byte>)
    ensures var root := Ascii("/pub/pubky.swarm/v1/datasets/") + Hex(digest);
      && ManifestPath(digest) == root + Ascii("/manifest.bin")
      && ObjectPath(digest, path) == root + Ascii("/objects/") + path
  {
    hide Hex, Ascii;
  }

  lemma HeadKeySpelling()
    ensures HeadPath() == Ascii("/pub/pubky.swarm/v1/dataset-head.json")
  {
  }

  lemma HexIdentifies(a: Bytes32, r: seq<byte>, b: Bytes32, s: seq<byte>)
    requires Hex(a) + r == Hex(b) + s
    ensures a == b && r == s
  {
    SplitFixed(Hex(a), r, Hex(b), s);
    UnhexHex(a);
    UnhexHex(b);
  }

  /** No two keys coincide: the head, a manifest and an object never share a path, a manifest
      path determines its digest, and an object path its digest and logical path. */
  lemma KeysIdentify(a: Bytes32, p: seq<byte>, b: Bytes32, q: seq<byte>)
    ensures HeadPath() != ManifestPath(a) && HeadPath() != ObjectPath(a, p)
    ensures ManifestPath(a) != ObjectPath(b, q)
    ensures ManifestPath(a) == ManifestPath(b) ==> a == b
    ensures ObjectPath(a, p) == ObjectPath(b, q) ==> a == b && p == q
  {
    var root, manifest, objects := SnapshotsPath(), Ascii("/manifest.bin"), Ascii("/objects/");
    assert HeadPath()[27] == '-' as int && ManifestPath(a)[27] == root[27] && ObjectPath(a, p)[27] == root[27];
    assert manifest[1] == 'm' as int && (objects + q)[1] == 'o' as int;
    if ManifestPath(a) == ObjectPath(b, q) {
      SplitFixed(root, Hex(a) + manifest, root, Hex(b) + (objects + q));
      HexIdentifies(a, manifest, b, objects + q);
    }
    if ManifestPath(a) == ManifestPath(b) {
      SplitFixed(root, Hex(a) + manifest, root, Hex(b) + manifest);
      HexIdentifies(a, manifest, b, manifest);
    }
    if ObjectPath(a, p) == ObjectPath(b, q) {
      SplitFixed(root, Hex(a) + (objects + p), root, Hex(b) + (objects + q));
      HexIdentifies(a, objects + p, b, objects + q);
      SplitFixed(objects, p, objects, q);
    }
  }

  // ---- the store and its readers ----------------------------------------------------------

  /** What a reader finds under a key: a document that reads as a head, or bytes. */
  datatype Document = HeadDocument(head: Head) | Raw(bytes: seq<byte>)

  type Store = map<seq<byte>, Document>

  datatype ReadError =
    | Transport
    | MalformedHead
    | ForeignHead
    | Undecodable(error: DecodeError)
    | ManifestMismatch
    | Rejected(why: VerifyError)

  /** `load_head`. */
  function LoadHead(id: Bytes32, store: Store): Result<Option<Head>, ReadError>
  {
    if HeadPath() !in store then Ok(None)
    else match store[HeadPath()]
      case Raw(_) => Err(MalformedHead)
      case HeadDocument(head) =>
        if head.sequence == 0 then Err(MalformedHead)
        else if head.publisher != id then Err(ForeignHead)
        else Ok(Some(head))
  }

  function Fetch(store: Store, key: seq<byte>): Result<seq<byte>, ReadError>
  {
    if key in store && store[key].Raw? then Ok(store[key].bytes) else Err(Transport)
  }

  /** `load_manifest`. */
  function LoadManifest(c: Crypto, head: Head, store: Store): Result<Manifest, ReadError>
  {
    var bytes :- Fetch(store, ManifestPath(head.digest));
    match Decode(c, bytes)
    case Err(e) => Err(Undecodable(e))
    case Ok(m) =>
      if ManifestDigest(c, m) != head.digest || m.publisher != head.publisher || m.createdAt != head.createdAt
      then Err(ManifestMismatch)
      else Ok(m)
  }

  /** `get`, whose three fetches see the store at three moments. */
  function Get(c: Crypto, id: Bytes32, atHead: Store, atManifest: Store, atObject: Store,
               path: seq<byte>): Result<Option<seq<byte>>, ReadError>
  {
    var head :- LoadHead(id, atHead);
    if head.None? then Ok(None)
    else
      var m :- LoadManifest(c, head.value, atManifest);
      if Lookup(m, path).None? then Ok(None)
      else
        var bytes :- Fetch(atObject, ObjectPath(head.value.digest, path));
        match VerifyObject(c, m, path, bytes)
        case Err(e) => Err(Rejected(e))
        case Ok(_) => Ok(Some(bytes))
  }

  /** Against any store whatever, at every moment of the read: returned bytes have the size and
      digest declared for that path by a valid manifest of this publisher, whose digest is the
      one the head named. */
  lemma GetIsAuthentic(c: Crypto, id: Bytes32, s1: Store, s2: Store, s3: Store, path: seq<byte>)
    returns (m: Manifest, o: Object)
    requires Get(c, id, s1, s2, s3, path).Ok? && Get(c, id, s1, s2, s3, path).value.Some?
    ensures LoadHead(id, s1).Ok? && LoadHead(id, s1).value.Some?
    ensures ValidManifest(c, m) && m.publisher == id && ManifestDigest(c, m) == LoadHead(id, s1).value.value.digest
    ensures m.createdAt == LoadHead(id, s1).value.value.createdAt && LoadHead(id, s1).value.value.sequence > 0
    ensures o in m.objects && o.path == path && Matches(c, o, Get(c, id, s1, s2, s3, path).value.value)
  {
    hide Decode, ValidManifest, Lookup;
    var head := LoadHead(id, s1).value.value;
    var bytes := Fetch(s2, ManifestPath(head.digest)).value;
    m := LoadManifest(c, head, s2).value;
    EncodeDecode(c, bytes);
    o := Lookup(m, path).value;
    LookupMeaning(c, m, path, o);
  }

  /** What `load_head` answers, for any store. */
  lemma LoadHeadMeaning(id: Bytes32, store: Store, answer: Result<Option<Head>, ReadError>)
    ensures LoadHead(id, store) == answer <==>
              match answer
              case Ok(None) => HeadPath() !in store
              case Ok(Some(head)) =>
                && HeadPath() in store && store[HeadPath()] == HeadDocument(head)
                && head.sequence > 0 && head.publisher == id
              case Err(MalformedHead) =>
                HeadPath() in store && (store[HeadPath()].Raw? || store[HeadPath()].head.sequence == 0)
              case Err(ForeignHead) =>
                && HeadPath() in store && store[HeadPath()].HeadDocument?
                && store[HeadPath()].head.sequence > 0 && store[HeadPath()].head.publisher != id
              case Err(_) => false
  {
    hide HeadPath;
  }

  /** The manifest and the head belong together. */
  predicate Describes(c: Crypto, head: Head, m: Manifest)
  {
    c.hash(Encode(m)) == head.digest && m.publisher == head.publisher && m.createdAt == head.createdAt
  }

  /** What `load_manifest` answers, for any store: a manifest exactly when the bytes stored for the
      head's digest are its encoding and head and manifest belong together. */
  lemma LoadManifestMeaning(c: Crypto, head: Head, store: Store, answer: Result<Manifest, ReadError>)
    ensures var key := ManifestPath(head.digest);
      var stored := key in store && store[key].Raw?;
      LoadManifest(c, head, store) == answer <==>
              match answer
              case Ok(m) => stored && ValidManifest(c, m) && store[key].bytes == Encode(m) && Describes(c, head, m)
              case Err(Transport) => !stored
              case Err(Undecodable(e)) => stored && Decode(c, store[key].bytes) == Err(e)
              case Err(ManifestMismatch) =>
                stored && exists m :: ValidManifest(c, m) && store[key].bytes == Encode(m) && !Describes(c, head, m)
              case Err(_) => false
  {
    hide Decode, ValidManifest, Encode, ManifestPath;
    var key := ManifestPath(head.digest);
    if key in store && store[key].Raw? {
      forall m ensures Decode(c, store[key].bytes) == Ok(m) <==> ValidManifest(c, m) && Encode(m) == store[key].bytes {
        CodecBijection(c, store[key].bytes, m);
      }
    }
  }

  /** What `get` answers for a declared path, from what is stored for the object. */
  predicate Serves(c: Crypto, head: Head, m: Manifest, store: Store, path: seq<byte>, bytes: seq<byte>)
  {
    var key := ObjectPath(head.digest, path);
    && key in store && store[key] == Raw(bytes)
    && exists o :: o in m.objects && o.path == path && Matches(c, o, bytes)
  }

  /** What `get` answers over any three stores: bytes exactly when head, manifest and object load
      and the manifest declares them; nothing exactly without a head or a declaration; and the
      first error otherwise. */
  lemma GetMeaning(c: Crypto, id: Bytes32, s1: Store, s2: Store, s3: Store, path: seq<byte>, bytes: seq<byte>)
    ensures var answer := Get(c, id, s1, s2, s3, path);
      var head := LoadHead(id, s1);
      if head.Err? then answer == Err(head.error)
      else if head.value.None? then answer == Ok(None)
      else
        var manifest := LoadManifest(c, head.value.value, s2);
        if manifest.Err? then answer == Err(manifest.error)
        else
          && (answer == Ok(None) <==> forall o :: o in manifest.value.objects ==> o.path != path)
          && (answer == Ok(Some(bytes)) <==> Serves(c, head.value.value, manifest.value, s3, path, bytes))
          && (forall why :: answer == Err(Rejected(why)) <==>
                && (exists o :: o in manifest.value.objects && o.path == path)
                && Fetch(s3, ObjectPath(head.value.value.digest, path)).Ok?
                && VerifyObject(c, manifest.value, path, Fetch(s3, ObjectPath(head.value.value.digest, path)).value)
                   == Err(why))
          && (answer == Err(Transport) <==>
                && (exists o :: o in manifest.value.objects && o.path == path)
                && Fetch(s3, ObjectPath(head.value.value.digest, path)).Err?)
  {
    hide LoadHead, ValidManifest, Lookup, ObjectPath, LoadManifest;
    var head := LoadHead(id, s1);
    if head.Ok? && head.value.Some? && LoadManifest(c, head.value.value, s2).Ok? {
      var m := LoadManifest(c, head.value.value, s2).value;
      LoadManifestMeaning(c, head.value.value, s2, Ok(m));
      forall o ensures Lookup(m, path) == Some(o) <==> o in m.objects && o.path == path {
        LookupMeaning(c, m, path, o);
      }
    }
  }

  // ---- publication ---------------------------------------------------------------------------

  datatype PublishError =
    | CannotRead(why: ReadError)
    | ConcurrentUpdate(expected: Option<Bytes32>, actual: Option<Bytes32>)
    | SequenceExhausted
    | Staging(error: StageError)
    | WriteFailed

  /** One publication: its files, the manifest declaring them, and the head naming the manifest. */
  datatype Plan = Plan(expected: Option<Bytes32>, files: Files, manifest: Manifest, head: Head)

  function EditionOf(plan: Plan): Edition
  {
    Edition(plan.files, plan.manifest)
  }

  function DigestOf(head: Option<Head>): Option<Bytes32>
  {
    match head case None => None case Some(h) => Some(h.digest)
  }

  /** The part of `publish` before the first write. */
  function Prepare(c: Crypto, id: Bytes32, current: Option<Head>, createdAt: u64, files: Files,
                   expected: Option<Bytes32>): Result<Plan, PublishError>
  {
    if DigestOf(current) != expected then Err(ConcurrentUpdate(expected, DigestOf(current)))
    else
      var next := match current case None => 1 case Some(h) => h.sequence + 1;
      if next == U64_LIMIT then Err(SequenceExhausted)
      else match Staged(c, id, createdAt, files)
        case Err(e) => Err(Staging(e))
        case Ok(s) => Ok(Plan(expected, files, s.manifest, HeadOf(c, s.manifest, next)))
  }

  /** The writes of a plan in order: every object, then the manifest, then the head. */
  function Key(plan: Plan, k: nat): seq<byte>
    requires k <= |plan.files| + 1
  {
    if k < |plan.files| then ObjectPath(plan.head.digest, plan.files[k].path)
    else if k == |plan.files| then ManifestPath(plan.head.digest)
    else HeadPath()
  }

  function Value(plan: Plan, k: nat): Document
    requires k <= |plan.files| + 1
  {
    if k < |plan.files| then Raw(plan.files[k].bytes)
    else if k == |plan.files| then Raw(Encode(plan.manifest))
    else HeadDocument(plan.head)
  }

  /** A write that reports failure may have been applied or not. */
  datatype Outcome = Stored | StoredButFailed | NotStored

  function Write(store: Store, key: seq<byte>, value: Document, outcome: Outcome): Store
  {
    if outcome.NotStored? then store else store[key := value]
  }

  datatype Phase = Idle | Writing(plan: Plan, done: nat)

  /** The store, the publishing processes, every edition begun, and the plans whose head was
      stored, in order. */
  datatype World = World(store: Store, procs: seq<Phase>, begun: seq<Edition>, log: seq<Plan>)

  /** Steps of process `p`: a publication reads the head and prepares its plan, each write goes
      out, and a crash forgets the publication under way. */
  datatype Action =
    | Begin(p: nat, createdAt: u64, files: Files, expected: Option<Bytes32>, readable: bool)
    | Put(p: nat, outcome: Outcome)
    | Crash(p: nat)

  function Begun(c: Crypto, id: Bytes32, w: World, a: Action): Result<Plan, PublishError>
    requires a.Begin?
  {
    if !a.readable then Err(CannotRead(Transport))
    else match LoadHead(id, w.store)
      case Err(e) => Err(CannotRead(e))
      case Ok(current) => Prepare(c, id, current, a.createdAt, a.files, a.expected)
  }

  /** The current head may be replaced: the caller expects its digest, or none, and a sequence is
      left after its own. */
  predicate MayReplace(current: Option<Head>, expected: Option<Bytes32>)
  {
    match current
    case None => expected.None?
    case Some(h) => expected == Some(h.digest) && h.sequence < 0xFFFF_FFFF_FFFF_FFFF
  }

  /** A publication begins if and only if the head can be read and replaced and the files are
      publishable; its plan is the valid manifest of the files and the next head for it. */
  lemma BegunExactly(c: Crypto, id: Bytes32, w: World, a: Action)
    requires a.Begin? && c.validKey(id)
    ensures var begun := Begun(c, id, w, a);
      && (begun.Ok? <==>
            && a.readable && LoadHead(id, w.store).Ok?
            && MayReplace(LoadHead(id, w.store).value, a.expected) && Publishable(a.createdAt, a.files))
      && (begun.Ok? ==>
            var plan, current := begun.value, LoadHead(id, w.store).value;
            && plan.expected == a.expected && plan.files == a.files
            && GoodEdition(c, id, EditionOf(plan)) && plan.manifest.createdAt == a.createdAt
            && plan.head == Head(id, a.createdAt, c.hash(Encode(plan.manifest)),
                                 match current case None => 1 case Some(h) => h.sequence + 1))
  {
    hide LoadHead, Staged, Publishable, Encode, ValidManifest, Supplies;
    StagedExactly(c, id, a.createdAt, a.files);
    StagedIsGood(c, id, a.createdAt, a.files);
    if Staged(c, id, a.createdAt, a.files).Ok? {
      StagedMeaning(c, id, a.createdAt, a.files, Staged(c, id, a.createdAt, a.files).value);
    }
  }

  /** Each refusal is given exactly when everything asked before it is as it should be. */
  lemma BegunRefuses(c: Crypto, id: Bytes32, w: World, a: Action, e: PublishError)
    requires a.Begin?
    ensures Begun(c, id, w, a) == Err(e) <==>
      if !a.readable then e == CannotRead(Transport)
      else match LoadHead(id, w.store)
        case Err(why) => e == CannotRead(why)
        case Ok(current) =>
          var digest := match current case None => None case Some(h) => Some(h.digest);
          match e
          case ConcurrentUpdate(expected, actual) => expected == a.expected && actual == digest && expected != actual
          case SequenceExhausted =>
            a.expected == digest && current.Some? && current.value.sequence == 0xFFFF_FFFF_FFFF_FFFF
          case Staging(error) => MayReplace(current, a.expected) && Staged(c, id, a.createdAt, a.files) == Err(error)
          case _ => false
  {
    hide LoadHead, Staged;
  }

  predicate InRange(phase: Phase)
  {
    phase.Writing? ==> phase.done <= |phase.plan.files| + 1
  }

  function AfterPut(w: World, p: nat, outcome: Outcome): World
    requires p < |w.procs| && w.procs[p].Writing? && InRange(w.procs[p])
  {
    var Writing(plan, done) := w.procs[p];
    var last := done == |plan.files| + 1;
    World(
      Write(w.store, Key(plan, done), Value(plan, done), outcome),
      w.procs[p := if outcome.Stored? && !last then Writing(plan, done + 1) else Idle],
      w.begun,
      if last && !outcome.NotStored? then w.log + [plan] else w.log)
  }

  function Step(c: Crypto, id: Bytes32, w: World, a: Action): World
  {
    if a.p >= |w.procs| then w
    else match a
      case Begin(p, _, _, _, _) =>
        if w.procs[p].Writing? || Begun(c, id, w, a).Err? then w
        else
          var plan := Begun(c, id, w, a).value;
          w.(procs := w.procs[p := Writing(plan, 0)], begun := w.begun + [EditionOf(plan)])
      case Put(p, outcome) =>
        if w.procs[p].Writing? && InRange(w.procs[p]) then AfterPut(w, p, outcome) else w
      case Crash(p) => w.(procs := w.procs[p := Idle])
  }

  function Steps(c: Crypto, id: Bytes32, w: World, actions: seq<Action>): World
  {
    if actions == [] then w
    else
      var n := |actions| - 1;
      Step(c, id, Steps(c, id, w, actions[..n]), actions[n])
  }

  function Initial(processes: nat): World
  {
    World(map[], seq(processes, i => Idle), [], [])
  }

  function Run(c: Crypto, id: Bytes32, processes: nat, actions: seq<Action>): World
  {
    Steps(c, id, Initial(processes), actions)
  }

  // ---- what a run keeps ------------------------------------------------------------------------

  ghost predicate GoodPlan(c: Crypto, id: Bytes32, plan: Plan)
  {
    && GoodEdition(c, id, EditionOf(plan))
    && plan.head == HeadOf(c, plan.manifest, plan.head.sequence) && plan.head.sequence > 0
  }

  ghost predicate Placed(store: Store, plan: Plan, k: nat)
    requires k <= |plan.files| + 1
  {
    Key(plan, k) in store && store[Key(plan, k)] == Value(plan, k)
  }

  /** Objects and manifest of the plan are stored: everything its head will promise. */
  ghost predicate Complete(store: Store, plan: Plan)
  {
    forall k :: 0 <= k <= |plan.files| ==> Placed(store, plan, k)
  }

  ghost predicate PhaseKept(c: Crypto, id: Bytes32, w: World, phase: Phase)
  {
    phase.Writing? ==>
      && GoodPlan(c, id, phase.plan) && EditionOf(phase.plan) in w.begun
      && phase.done <= |phase.plan.files| + 1
      && forall k :: 0 <= k < phase.done ==> Placed(w.store, phase.plan, k)
  }

  ghost predicate LogKept(c: Crypto, id: Bytes32, w: World, plan: Plan)
  {
    GoodPlan(c, id, plan) && EditionOf(plan) in w.begun && Complete(w.store, plan)
  }

  ghost predicate Kept(c: Crypto, id: Bytes32, w: World)
  {
    && (forall p :: 0 <= p < |w.procs| ==> PhaseKept(c, id, w, w.procs[p]))
    && (forall plan :: plan in w.log ==> LogKept(c, id, w, plan))
    && (HeadPath() in w.store <==> w.log != [])
    && (w.log != [] ==> w.store[HeadPath()] == HeadDocument(w.log[|w.log| - 1].head))
  }

  /** Immutable keys are immutable: two writes of one key write the same document. */
  lemma SameKeySameValue(c: Crypto, id: Bytes32, editions: seq<Edition>, p: Plan, k: nat, q: Plan, j: nat)
    requires NoCollision(c, editions) && EditionOf(p) in editions && EditionOf(q) in editions
    requires GoodPlan(c, id, p) && GoodPlan(c, id, q)
    requires k <= |p.files| && j <= |q.files| && Key(p, k) == Key(q, j)
    ensures Value(p, k) == Value(q, j)
  {
    hide NoCollision, ObjectPath, ManifestPath, HeadPath, Supplies, ValidManifest, Encode;
    KeysIdentify(p.head.digest, if k < |p.files| then p.files[k].path else [],
                 q.head.digest, if j < |q.files| then q.files[j].path else []);
    KeysIdentify(q.head.digest, [], p.head.digest, if k < |p.files| then p.files[k].path else []);
    SameDigestSameManifest(c, editions, EditionOf(p), EditionOf(q));
    if k < |p.files| { SamePathSameBytes(c, id, editions, EditionOf(p), p.files[k], EditionOf(q), q.files[j]); }
  }

  lemma HeadKeyApart(plan: Plan, k: nat)
    requires k <= |plan.files|
    ensures Key(plan, k) != HeadPath()
  {
    KeysIdentify(plan.head.digest, if k < |plan.files| then plan.files[k].path else [], plan.head.digest, []);
  }

  /** A write by any plan leaves what another plan has placed in place. */
  lemma WriteKeepsPlaced(c: Crypto, id: Bytes32, editions: seq<Edition>, store: Store, p: Plan, k: nat, q: Plan,
                         j: nat, outcome: Outcome)
    requires NoCollision(c, editions) && EditionOf(p) in editions && EditionOf(q) in editions
    requires GoodPlan(c, id, p) && GoodPlan(c, id, q)
    requires k <= |p.files| && j <= |q.files| + 1 && Placed(store, p, k)
    ensures Placed(Write(store, Key(q, j), Value(q, j), outcome), p, k)
  {
    hide NoCollision, GoodPlan, Key, Value;
    if Key(p, k) == Key(q, j) {
      if j <= |q.files| {
        SameKeySameValue(c, id, editions, p, k, q, j);
      } else {
        HeadKeyApart(p, k);
        LastKey(q);
      }
    }
  }

  lemma LastKey(q: Plan)
    ensures Key(q, |q.files| + 1) == HeadPath() && Value(q, |q.files| + 1) == HeadDocument(q.head)
  {
  }

  lemma PreparedIsGood(c: Crypto, id: Bytes32, current: Option<Head>, createdAt: u64, files: Files,
                       expected: Option<Bytes32>)
    requires c.validKey(id)
    ensures var r := Prepare(c, id, current, createdAt, files, expected);
      r.Ok? ==> GoodPlan(c, id, r.value)
  {
    hide GoodEdition, Staged;
    StagedIsGood(c, id, createdAt, files);
  }

  lemma PutKeeps(c: Crypto, id: Bytes32, w: World, p: nat, outcome: Outcome)
    requires Kept(c, id, w) && NoCollision(c, w.begun)
    requires p < |w.procs| && w.procs[p].Writing? && InRange(w.procs[p])
    ensures Kept(c, id, AfterPut(w, p, outcome))
  {
    hide NoCollision, GoodPlan, Key, Value, Placed;
    var Writing(plan, done) := w.procs[p];
    var n := AfterPut(w, p, outcome);
    assert PhaseKept(c, id, w, w.procs[p]);
    forall q, k | GoodPlan(c, id, q) && EditionOf(q) in w.begun && 0 <= k <= |q.files| && Placed(w.store, q, k)
      ensures Placed(n.store, q, k)
    {
      WriteKeepsPlaced(c, id, w.begun, w.store, q, k, plan, done, outcome);
    }
    PutPlaces(w.store, plan, done, outcome);
    LastKey(plan);
    forall i | 0 <= i < |n.procs| ensures PhaseKept(c, id, n, n.procs[i]) {
      assert PhaseKept(c, id, w, w.procs[i]);
    }
    if done <= |plan.files| { HeadKeyApart(plan, done); }
    forall q | q in n.log ensures LogKept(c, id, n, q) {
      if q in w.log { assert LogKept(c, id, w, q); } else { assert q == plan; }
    }
  }

  lemma PutPlaces(store: Store, plan: Plan, k: nat, outcome: Outcome)
    requires k <= |plan.files| + 1
    ensures !outcome.NotStored? ==> Placed(Write(store, Key(plan, k), Value(plan, k), outcome), plan, k)
  {
  }

  lemma StepKeeps(c: Crypto, id: Bytes32, w: World, a: Action)
    requires c.validKey(id) && Kept(c, id, w) && NoCollision(c, w.begun)
    ensures Kept(c, id, Step(c, id, w, a))
  {
    hide NoCollision, GoodPlan, Placed, AfterPut, LoadHead, Prepare;
    if a.p < |w.procs| {
      match a {
        case Begin(p, createdAt, files, expected, readable) =>
          if LoadHead(id, w.store).Ok? {
            PreparedIsGood(c, id, LoadHead(id, w.store).value, createdAt, files, expected);
          }
          var n := Step(c, id, w, a);
          forall i | 0 <= i < |n.procs| ensures PhaseKept(c, id, n, n.procs[i]) {
            assert PhaseKept(c, id, w, w.procs[i]);
          }
        case Put(p, outcome) =>
          if w.procs[p].Writing? && InRange(w.procs[p]) { PutKeeps(c, id, w, p, outcome); }
        case Crash(p) =>
          var n := Step(c, id, w, a);
          forall i | 0 <= i < |n.procs| ensures PhaseKept(c, id, n, n.procs[i]) {
            assert PhaseKept(c, id, w, w.procs[i]);
          }
      }
    }
  }

  lemma {:induction false} RunGrows(c: Crypto, id: Bytes32, processes: nat, actions: seq<Action>, i: nat)
    requires i <= |actions|
    ensures Run(c, id, processes, actions[..i]).begun <= Run(c, id, processes, actions).begun
    ensures Run(c, id, processes, actions[..i]).log <= Run(c, id, processes, actions).log
    decreases |actions|
  {
    var n := |actions| - 1;
    if i == |actions| {
      assert actions[..i] == actions;
    } else {
      RunGrows(c, id, processes, actions[..n], i);
      assert actions[..n][..i] == actions[..i];
    }
  }

  /** In every reachable state, whatever the interleaving, the crashes and the failed writes:
      the stored head is the last one logged, and the manifest and every object of every head
      ever stored are in place with their published bytes. */
  lemma {:induction false} RunKeeps(c: Crypto, id: Bytes32, processes: nat, actions: seq<Action>)
    requires c.validKey(id) && NoCollision(c, Run(c, id, processes, actions).begun)
    ensures Kept(c, id, Run(c, id, processes, actions))
  {
    if actions != [] {
      hide NoCollision, Kept, Step;
      var n := |actions| - 1;
      RunGrows(c, id, processes, actions, n);
      FewerEditionsNoCollision(c, Run(c, id, processes, actions[..n]).begun, Run(c, id, processes, actions).begun);
      RunKeeps(c, id, processes, actions[..n]);
      StepKeeps(c, id, Run(c, id, processes, actions[..n]), actions[n]);
    }
  }

  /** The head in the store names a digest whose manifest and declared objects are all there. */
  lemma StoredHeadIsComplete(c: Crypto, id: Bytes32, processes: nat, actions: seq<Action>) returns (m: Manifest)
    requires c.validKey(id) && NoCollision(c, Run(c, id, processes, actions).begun)
    requires HeadPath() in Run(c, id, processes, actions).store
    ensures var store := Run(c, id, processes, actions).store;
      && store[HeadPath()].HeadDocument?
      && var head := store[HeadPath()].head;
      && ValidManifest(c, m) && head == HeadOf(c, m, head.sequence)
      && Fetch(store, ManifestPath(head.digest)) == Ok(Encode(m))
      && forall o :: o in m.objects ==>
           && Fetch(store, ObjectPath(head.digest, o.path)).Ok?
           && Matches(c, o, Fetch(store, ObjectPath(head.digest, o.path)).value)
  {
    hide NoCollision, ValidManifest, Run, ObjectPath, ManifestPath, HeadPath;
    RunKeeps(c, id, processes, actions);
    var w := Run(c, id, processes, actions);
    var plan := w.log[|w.log| - 1];
    m := plan.manifest;
    LoggedPlan(c, id, w, plan);
    assert Placed(w.store, plan, |plan.files|);
    forall o | o in m.objects
      ensures Fetch(w.store, ObjectPath(plan.head.digest, o.path)).Ok?
      ensures Matches(c, o, Fetch(w.store, ObjectPath(plan.head.digest, o.path)).value)
    {
      var f :| f in plan.files && f.path == o.path && Matches(c, o, f.bytes);
      var k :| 0 <= k < |plan.files| && plan.files[k] == f;
      assert Placed(w.store, plan, k);
    }
  }

  // ---- readers among writers -----------------------------------------------------------------------

  /** What the newest plan of a log publishes under a path. */
  function Published(log: seq<Plan>, path: seq<byte>): Option<seq<byte>>
  {
    if log == [] then None
    else
      var contents := Contents(log[|log| - 1].files);
      if path in contents then Some(contents[path]) else None
  }

  lemma ManifestReadBack(c: Crypto, id: Bytes32, plan: Plan, store: Store)
    requires GoodPlan(c, id, plan) && Complete(store, plan)
    ensures LoadManifest(c, plan.head, store) == Ok(plan.manifest)
  {
    hide ValidManifest, Decode, Encode, Supplies;
    assert Placed(store, plan, |plan.files|);
    DecodeEncode(c, plan.manifest);
  }

  lemma ObjectReadBack(c: Crypto, id: Bytes32, plan: Plan, store: Store, path: seq<byte>)
    requires GoodPlan(c, id, plan) && Complete(store, plan)
    ensures Lookup(plan.manifest, path).Some? <==> path in Contents(plan.files)
    ensures path in Contents(plan.files) ==>
              && Fetch(store, ObjectPath(plan.head.digest, path)) == Ok(Contents(plan.files)[path])
              && VerifyObject(c, plan.manifest, path, Contents(plan.files)[path]).Ok?
  {
    hide ValidManifest, Lookup, Contents, Complete;
    ContentsMeaning(plan.files);
    DeclaredMeaning(c, plan.manifest, path);
    if path in Contents(plan.files) {
      var f := FileFor(plan.files, path);
      var o := SuppliedFile(c, plan.manifest, plan.files, f);
      LookupMeaning(c, plan.manifest, path, o);
      ObjectStored(store, plan, f);
    }
    if Lookup(plan.manifest, path).Some? {
      var o :| o in plan.manifest.objects && o.path == path;
      var f :| f in plan.files && f.path == o.path;
      assert f.path in Contents(plan.files);
    }
  }

  lemma ObjectStored(store: Store, plan: Plan, f: File)
    requires Complete(store, plan) && f in plan.files
    ensures Fetch(store, ObjectPath(plan.head.digest, f.path)) == Ok(f.bytes)
  {
    var k :| 0 <= k < |plan.files| && plan.files[k] == f;
    assert Placed(store, plan, k);
  }

  lemma HeadReadBack(c: Crypto, id: Bytes32, w: World)
    requires Kept(c, id, w)
    ensures LoadHead(id, w.store) == Ok(if w.log == [] then None else Some(w.log[|w.log| - 1].head))
  {
    if w.log != [] { LoggedPlan(c, id, w, w.log[|w.log| - 1]); }
  }

  /** A read whose head, manifest and object fetches get through at any three successive moments
      of a run, publications going on between them, never errs: it returns nothing when no head
      was stored or the path was not published at the head it read, and otherwise exactly the
      bytes published for that path under that head. It never mixes two snapshots. */
  lemma GetAmongPublications(c: Crypto, id: Bytes32, processes: nat, actions: seq<Action>, i: nat, j: nat, k: nat,
                             path: seq<byte>)
    requires c.validKey(id) && i <= j <= k <= |actions|
    requires NoCollision(c, Run(c, id, processes, actions).begun)
    ensures var at := n requires 0 <= n <= |actions| => Run(c, id, processes, actions[..n]);
      Get(c, id, at(i).store, at(j).store, at(k).store, path) == Ok(Published(at(i).log, path))
  {
    hide NoCollision, Kept, Run, GoodPlan, Complete, LoadHead, LoadManifest, Lookup, Fetch, VerifyObject;
    KeptAt(c, id, processes, actions, i);
    KeptAt(c, id, processes, actions, j);
    KeptAt(c, id, processes, actions, k);
    assert actions[..j][..i] == actions[..i] && actions[..k][..i] == actions[..i];
    RunGrows(c, id, processes, actions[..j], i);
    RunGrows(c, id, processes, actions[..k], i);
    var w := Run(c, id, processes, actions[..i]);
    HeadReadBack(c, id, w);
    if w.log != [] {
      var plan := w.log[|w.log| - 1];
      LoggedPlan(c, id, Run(c, id, processes, actions[..j]), plan);
      LoggedPlan(c, id, Run(c, id, processes, actions[..k]), plan);
      ManifestReadBack(c, id, plan, Run(c, id, processes, actions[..j]).store);
      ObjectReadBack(c, id, plan, Run(c, id, processes, actions[..k]).store, path);
    }
  }

  lemma LoggedPlan(c: Crypto, id: Bytes32, w: World, plan: Plan)
    requires Kept(c, id, w) && plan in w.log
    ensures GoodPlan(c, id, plan) && Complete(w.store, plan)
  {
    hide GoodPlan, Complete;
    assert LogKept(c, id, w, plan);
  }

  lemma KeptAt(c: Crypto, id: Bytes32, processes: nat, actions: seq<Action>, i: nat)
    requires c.validKey(id) && i <= |actions|
    requires NoCollision(c, Run(c, id, processes, actions).begun)
    ensures Kept(c, id, Run(c, id, processes, actions[..i]))
  {
    hide NoCollision, Kept, Run;
    RunGrows(c, id, processes, actions, i);
    FewerEditionsNoCollision(c, Run(c, id, processes, actions[..i]).begun, Run(c, id, processes, actions).begun);
    RunKeeps(c, id, processes, actions[..i]);
  }

  // ---- one process, and two ------------------------------------------------------------------------

  function CurrentDigest(log: seq<Plan>): Option<Bytes32>
  {
    if log == [] then None else Some(log[|log| - 1].head.digest)
  }

  /** Head `k` has sequence `k + 1` and replaced exactly the head its publisher expected. */
  ghost predicate Serial(log: seq<Plan>)
  {
    forall k :: 0 <= k < |log| ==> log[k].head.sequence == k + 1 && log[k].expected == CurrentDigest(log[..k])
  }

  ghost predicate Alone(w: World)
  {
    && |w.procs| <= 1 && Serial(w.log)
    && (|w.procs| == 1 && w.procs[0].Writing? ==>
          w.procs[0].plan.head.sequence == |w.log| + 1 && w.procs[0].plan.expected == CurrentDigest(w.log))
    && (HeadPath() in w.store <==> w.log != [])
    && (w.log != [] ==> w.store[HeadPath()] == HeadDocument(w.log[|w.log| - 1].head))
  }

  lemma SerialGrows(log: seq<Plan>, plan: Plan)
    requires Serial(log) && plan.head.sequence == |log| + 1 && plan.expected == CurrentDigest(log)
    ensures Serial(log + [plan])
  {
    hide CurrentDigest;
    var n := log + [plan];
    forall k | 0 <= k < |n| ensures n[k].head.sequence == k + 1 && n[k].expected == CurrentDigest(n[..k]) {
      assert n[..k] == if k < |log| then log[..k] else log;
    }
  }

  lemma PutKeepsAlone(w: World, outcome: Outcome)
    requires Alone(w) && |w.procs| == 1 && w.procs[0].Writing? && InRange(w.procs[0])
    ensures Alone(AfterPut(w, 0, outcome))
  {
    hide Key, Value, Serial;
    var Writing(plan, done) := w.procs[0];
    LastKey(plan);
    if done <= |plan.files| { HeadKeyApart(plan, done); }
    SerialGrows(w.log, plan);
  }

  lemma PreparedSequence(c: Crypto, id: Bytes32, current: Option<Head>, createdAt: u64, files: Files,
                         expected: Option<Bytes32>)
    ensures var r := Prepare(c, id, current, createdAt, files, expected);
      r.Ok? ==>
        && r.value.expected == DigestOf(current)
        && r.value.head.sequence == match current case None => 1 case Some(h) => h.sequence + 1
  {
    hide Staged, ManifestDigest;
  }

  lemma StepKeepsAlone(c: Crypto, id: Bytes32, w: World, a: Action)
    requires Alone(w)
    ensures Alone(Step(c, id, w, a))
  {
    hide AfterPut, Prepare, Serial, HeadPath;
    if a.p < |w.procs| {
      match a {
        case Begin(_, createdAt, files, expected, readable) =>
          if LoadHead(id, w.store).Ok? {
            PreparedSequence(c, id, LoadHead(id, w.store).value, createdAt, files, expected);
          }
          LoggedSequence(w);
        case Put(_, outcome) =>
          if w.procs[0].Writing? && InRange(w.procs[0]) { PutKeepsAlone(w, outcome); }
        case Crash(_) =>
      }
    }
  }

  lemma LoggedSequence(w: World)
    requires Serial(w.log)
    ensures w.log != [] ==> w.log[|w.log| - 1].head.sequence == |w.log|
  {
  }

  /** With a single process, whose lock serialises its publications, heads are numbered 1, 2,
      3, ... without gaps and none is overwritten unseen. */
  lemma {:induction false} SingleProcessIsSerial(c: Crypto, id: Bytes32, processes: nat, actions: seq<Action>)
    requires processes <= 1
    ensures Serial(Run(c, id, processes, actions).log) && Alone(Run(c, id, processes, actions))
  {
    hide Step;
    if actions != [] {
      var n := |actions| - 1;
      SingleProcessIsSerial(c, id, processes, actions[..n]);
      StepKeepsAlone(c, id, Run(c, id, processes, actions[..n]), actions[n]);
    }
  }

  lemma StepsThen(c: Crypto, id: Bytes32, w: World, actions: seq<Action>, a: Action)
    ensures Steps(c, id, w, actions + [a]) == Step(c, id, Steps(c, id, w, actions), a)
  {
    assert (actions + [a])[..|actions|] == actions;
  }

  function EmptyPlan(c: Crypto, id: Bytes32, createdAt: u64): Plan
  {
    var m := Manifest(id, createdAt, []);
    Plan(None, [], m, HeadOf(c, m, 1))
  }

  lemma FirstEmptyPlan(c: Crypto, id: Bytes32, createdAt: u64)
    requires createdAt > 0
    ensures Prepare(c, id, None, createdAt, [], None) == Ok(EmptyPlan(c, id, createdAt))
  {
    assert Entries(c, []) == [];
  }

  /** Two processes are not serialised: both may read an absent head, both publish sequence 1,
      and the second head replaces the first unseen. */
  lemma TwoProcessesLoseUpdates(c: Crypto, id: Bytes32, processes: nat) returns (actions: seq<Action>)
    requires processes >= 2
    ensures var log := Run(c, id, processes, actions).log;
      |log| == 2 && log[0] != log[1]
      && log[0].head.sequence == log[1].head.sequence == 1 && log[0].expected == log[1].expected == None
  {
    hide HeadPath, ObjectPath, ManifestPath, Encode, Prepare, ManifestDigest, Steps, Key, Value;
    var p, q := EmptyPlan(c, id, 1), EmptyPlan(c, id, 2);
    var w := Initial(processes);
    var a1, a2 := Begin(0, 1, [], None, true), Begin(1, 2, [], None, true);
    var put0, put1 := Put(0, Stored), Put(1, Stored);
    FirstEmptyPlan(c, id, 1);
    FirstEmptyPlan(c, id, 2);
    actions := [a1, a2, put0, put0, put1, put1];
    var w1 := w.(procs := w.procs[0 := Writing(p, 0)], begun := [EditionOf(p)]);
    var w2 := w1.(procs := w1.procs[1 := Writing(q, 0)], begun := [EditionOf(p), EditionOf(q)]);
    assert Step(c, id, w, a1) == w1 && Step(c, id, w1, a2) == w2;
    var w3, w4 := Step(c, id, w2, put0), Step(c, id, Step(c, id, w2, put0), put0);
    assert w3.procs[0] == Writing(p, 1) && w3.procs[1] == Writing(q, 0);
    assert w4.procs[1] == Writing(q, 0) && w4.log == [p];
    var w5 := Step(c, id, w4, put1);
    assert w5.procs[1] == Writing(q, 1) && w5.log == [p];
    assert Step(c, id, w5, put1).log == [p, q];
    SixSteps(c, id, w, actions);
  }

  /** Publications are serialised, in every run, if and only if at most one process publishes. */
  lemma SerialExactly(c: Crypto, id: Bytes32, processes: nat)
    ensures (forall actions :: Serial(Run(c, id, processes, actions).log)) <==> processes <= 1
  {
    hide Run;
    if processes <= 1 {
      forall actions ensures Serial(Run(c, id, processes, actions).log) {
        SingleProcessIsSerial(c, id, processes, actions);
      }
    } else {
      var actions := TwoProcessesLoseUpdates(c, id, processes);
      assert Run(c, id, processes, actions).log[1].head.sequence == 1;
    }
  }

  lemma StepsUpTo(c: Crypto, id: Bytes32, w: World, a: seq<Action>, k: nat)
    requires k < |a|
    ensures Steps(c, id, w, a[..k + 1]) == Step(c, id, Steps(c, id, w, a[..k]), a[k])
  {
    assert a[..k + 1] == a[..k] + [a[k]];
    StepsThen(c, id, w, a[..k], a[k]);
  }

  lemma SixSteps(c: Crypto, id: Bytes32, w: World, a: seq<Action>)
    requires |a| == 6
    ensures Steps(c, id, w, a) ==
            var third := Step(c, id, Step(c, id, Step(c, id, w, a[0]), a[1]), a[2]);
            Step(c, id, Step(c, id, Step(c, id, third, a[3]), a[4]), a[5])
  {
    assert Steps(c, id, w, a[..0]) == w && a[..6] == a;
    hide Step, Steps;
    StepsUpTo(c, id, w, a, 0);
    StepsUpTo(c, id, w, a, 1);
    StepsUpTo(c, id, w, a, 2);
    StepsUpTo(c, id, w, a, 3);
    StepsUpTo(c, id, w, a, 4);
    StepsUpTo(c, id, w, a, 5);
  }

  /** The hypotheses of the run theorems can be met with a head in place: whatever the hash, a
      run that publishes one empty dataset hashes a single byte string. */
  lemma SmallestRun(c: Crypto, id: Bytes32) returns (actions: seq<Action>)
    ensures var w := Run(c, id, 1, actions);
      NoCollision(c, w.begun) && |w.log| == 1 && HeadPath() in w.store
  {
    hide ObjectPath, ManifestPath, Encode, Prepare, ManifestDigest, Key;
    var plan, w := EmptyPlan(c, id, 1), Initial(1);
    FirstEmptyPlan(c, id, 1);
    LastKey(plan);
    actions := [Begin(0, 1, [], None, true)] + [Put(0, Stored)] + [Put(0, Stored)];
    assert [] + actions[..1] == actions[..1];
    StepsThen(c, id, w, [], actions[0]);
    StepsThen(c, id, w, [actions[0]], Put(0, Stored));
    StepsThen(c, id, w, [actions[0]] + [Put(0, Stored)], Put(0, Stored));
    assert Steps(c, id, w, [actions[0]]) == w.(procs := [Writing(plan, 0)], begun := [EditionOf(plan)]);
    assert Run(c, id, 1, actions).begun == [EditionOf(plan)];
  }
}
