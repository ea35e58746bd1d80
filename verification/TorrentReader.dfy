/** The torrent reader: a cache keyed on sequence and info hash in front of a resolved head's
    directory, and reads back of what publishers put there. */
module TorrentReader {
  import opened Bytes
  import opened Outcomes
  import opened DatasetManifest
  import opened DatasetCore
  import opened TorrentReference
  import opened SwarmHead
  import P = TorrentPublisher

  const MAX_MANIFEST_BYTES: nat := 16 * 1024 * 1024
  const MAX_OBJECT_BYTES: nat := 100 * 1024 * 1024

  datatype Loaded = Loaded(signed: SignedHead, head: Head, manifest: Manifest)

  datatype LoadError =
    | BadHead(error: HeadError)
    | ForeignHead
    | Transport
    | MissingObject(path: seq<byte>)
    | TooLarge
    | Undecodable(why: DecodeError)
    | ForeignManifest
    | Unverified(reason: VerifyError)

  /** `load` without its cache: fetch the torrent of the signed head and read its manifest.
      `dir` is what the swarm delivers for the head's info hash. */
  function LoadFrom(c: Crypto, publisher: Bytes32, dir: Option<P.Dir>, signed: SignedHead): Result<Loaded, LoadError>
  {
    if signed.Publisher() != publisher then Err(ForeignHead)
    else if dir.None? then Err(Transport)
    else if P.ManifestFile() !in dir.value then Err(MissingObject(P.ManifestFile()))
    else if |dir.value[P.ManifestFile()]| > MAX_MANIFEST_BYTES then Err(TooLarge)
    else match Decode(c, dir.value[P.ManifestFile()])
      case Err(e) => Err(Undecodable(e))
      case Ok(m) =>
        if m.publisher != publisher then Err(ForeignManifest)
        else if signed.Sequence() <= 0 then Err(Transport)
        else Ok(Loaded(signed, HeadOf(c, m, signed.Sequence()), m))
  }

  /** `get` after `load`. */
  function GetFrom(c: Crypto, dir: P.Dir, m: Manifest, path: seq<byte>): Result<Option<seq<byte>>, LoadError>
  {
    var name := P.ObjectsRoot() + path;
    match Lookup(m, path)
    case None => Ok(None)
    case Some(o) =>
      if o.size > MAX_OBJECT_BYTES then Err(TooLarge)
      else if name !in dir then Err(MissingObject(name))
      else if |dir[name]| > MAX_OBJECT_BYTES then Err(TooLarge)
      else match VerifyObject(c, m, path, dir[name])
        case Err(e) => Err(Unverified(e))
        case Ok(_) => Ok(Some(dir[name]))
  }

  /** What the DHT answered, resolved and loaded with no cache in between. */
  function Load(c: Crypto, publisher: Bytes32, content: Bytes20 -> Option<P.Dir>,
                answer: Option<MutableItem>): Result<Option<Loaded>, LoadError>
  {
    match Resolve(answer, None)
    case Err(e) => Err(BadHead(e))
    case Ok(None) => Ok(None)
    case Ok(Some(signed)) =>
      match LoadFrom(c, publisher, content(signed.infoHash), signed)
      case Err(e) => Err(e)
      case Ok(l) => Ok(Some(l))
  }

  /** Heads of one publisher with one sequence and one info hash are the same head. */
  lemma SameKeySameHead(a: Option<MutableItem>, b: Option<MutableItem>)
    requires Resolve(a, None).Ok? && Resolve(a, None).value.Some?
    requires Resolve(b, None).Ok? && Resolve(b, None).value.Some?
    ensures var x, y := Resolve(a, None).value.value, Resolve(b, None).value.value;
      x.Publisher() == y.Publisher() && x.Sequence() == y.Sequence() && x.infoHash == y.infoHash ==> x == y
  {
    ResolveMeaning(a, None, Resolve(a, None).value.value);
    ResolveMeaning(b, None, Resolve(b, None).value.value);
  }

  /** A torrent's info hash fixes its content for good; only whether it can be fetched varies. */
  class Reader {
    const c: Crypto
    const publisher: Bytes32
    const content: Bytes20 -> Option<P.Dir>
    var loaded: Option<Loaded>

    ghost predicate Valid()
      reads this
    {
      loaded.Some? ==> Load(c, publisher, content, Some(loaded.value.signed.item)) == Ok(loaded)
    }

    constructor (c: Crypto, publisher: Bytes32, content: Bytes20 -> Option<P.Dir>)
      ensures Valid() && this.c == c && this.publisher == publisher && this.content == content && loaded == None
    {
      this.c, this.publisher, this.content := c, publisher, content;
      loaded := None;
    }

    /** `load`: the cached and the uncached answer are one and the same, and a hit needs no
        peers. Nothing is returned for a head other than the one just resolved. */
    method LoadCurrent(answer: Option<MutableItem>, reachable: bool) returns (r: Result<Option<Loaded>, LoadError>)
      requires Valid()
      modifies this`loaded
      ensures Valid()
      ensures reachable ==> r == Load(c, publisher, content, answer)
      ensures r.Ok? ==> r == Load(c, publisher, content, answer)
      ensures loaded == if r.Ok? && r.value.Some? then r.value else old(loaded)
      ensures old(loaded).Some? && answer == Some(old(loaded).value.signed.item) ==> r == Ok(old(loaded))
    {
      hide Decode, FromItem;
      var resolved := Resolve(answer, None);
      if resolved.Err? {
        return Err(BadHead(resolved.error));
      }
      if resolved.value.None? {
        return Ok(None);
      }
      var signed := resolved.value.value;
      ResolvesItself(answer);
      if signed.Publisher() != publisher {
        return Err(ForeignHead);
      }
      if loaded.Some? {
        SameKeySameHead(answer, Some(loaded.value.signed.item));
        var current := loaded.value.signed;
        if current.Sequence() == signed.Sequence() && current.infoHash == signed.infoHash {
          return Ok(loaded);
        }
      }
      if !reachable {
        return Err(Transport);
      }
      var l :- LoadFrom(c, publisher, content(signed.infoHash), signed);
      loaded := Some(l);
      return Ok(loaded);
    }
  }

  lemma ResolvesItself(answer: Option<MutableItem>)
    requires Resolve(answer, None).Ok? && Resolve(answer, None).value.Some?
    ensures answer == Some(Resolve(answer, None).value.value.item)
  {
    ResolveMeaning(answer, None, Resolve(answer, None).value.value);
  }

  // ---- every answer ----------------------------------------------------------------------------

  /** What loading a delivered directory answers, whatever is in it: a manifest exactly when the
      file of that name, at most 16 MiB, is the encoding of a valid one of this publisher. */
  lemma LoadFromMeaning(c: Crypto, publisher: Bytes32, dir: P.Dir, signed: SignedHead,
                        answer: Result<Loaded, LoadError>)
    requires signed.item.sequence > 0
    ensures var file := P.ManifestFile();
      var found := signed.item.key == publisher && file in dir;
      LoadFrom(c, publisher, Some(dir), signed) == answer <==>
      match answer
      case Ok(l) =>
        && found && |dir[file]| <= 16 * 1024 * 1024 && dir[file] == Encode(l.manifest)
        && ValidManifest(c, l.manifest) && l.manifest.publisher == publisher
        && l.signed == signed
        && l.head == Head(publisher, l.manifest.createdAt, c.hash(Encode(l.manifest)), signed.item.sequence)
      case Err(ForeignHead) => signed.item.key != publisher
      case Err(MissingObject(path)) => signed.item.key == publisher && file !in dir && path == file
      case Err(TooLarge) => found && |dir[file]| > 16 * 1024 * 1024
      case Err(Undecodable(why)) =>
        found && |dir[file]| <= 16 * 1024 * 1024 && Decode(c, dir[file]) == Err(why)
      case Err(ForeignManifest) =>
        && found && |dir[file]| <= 16 * 1024 * 1024
        && exists m :: ValidManifest(c, m) && dir[file] == Encode(m) && m.publisher != publisher
      case Err(_) => false
  {
    hide Decode, ValidManifest, Encode, P.ManifestFile;
    var file := P.ManifestFile();
    if file in dir {
      forall m ensures Decode(c, dir[file]) == Ok(m) <==> ValidManifest(c, m) && Encode(m) == dir[file] {
        CodecBijection(c, dir[file], m);
      }
    }
  }

  /** What the DHT answered decides whether anything is loaded at all. */
  lemma LoadMeaning(c: Crypto, publisher: Bytes32, content: Bytes20 -> Option<P.Dir>, answer: Option<MutableItem>)
    ensures var r := Load(c, publisher, content, answer);
      && (r == Ok(None) <==> answer.None?)
      && (forall e :: r == Err(BadHead(e)) <==> Resolve(answer, None) == Err(e))
      && (forall l: Loaded :: r == Ok(Some(l)) <==>
            && Resolve(answer, None) == Ok(Some(l.signed))
            && LoadFrom(c, publisher, content(l.signed.infoHash), l.signed) == Ok(l))
  {
    hide Decode, FromItem;
  }

  /** What reading a path answers, whatever was delivered: its bytes exactly when an object of at
      most 100 MiB is declared there and they match it. */
  lemma GetFromMeaning(c: Crypto, dir: P.Dir, m: Manifest, path: seq<byte>,
                       answer: Result<Option<seq<byte>>, LoadError>)
    requires ValidManifest(c, m)
    ensures var name := P.ObjectsRoot() + path;
      var fits := exists o :: o in m.objects && o.path == path && o.size <= 100 * 1024 * 1024;
      var found := fits && name in dir;
      GetFrom(c, dir, m, path) == answer <==>
      match answer
      case Ok(None) => forall o :: o in m.objects ==> o.path != path
      case Ok(Some(bytes)) =>
        found && dir[name] == bytes && exists o :: o in m.objects && o.path == path && Matches(c, o, bytes)
      case Err(MissingObject(missing)) => fits && name !in dir && missing == name
      case Err(TooLarge) =>
        || (exists o :: o in m.objects && o.path == path && o.size > 100 * 1024 * 1024)
        || (found && |dir[name]| > 100 * 1024 * 1024)
      case Err(Unverified(reason)) =>
        found && |dir[name]| <= 100 * 1024 * 1024 && VerifyObject(c, m, path, dir[name]) == Err(reason)
      case Err(_) => false
  {
    hide ValidManifest, Lookup, P.ObjectsRoot;
    forall o ensures Lookup(m, path) == Some(o) <==> o in m.objects && o.path == path {
      LookupMeaning(c, m, path, o);
    }
  }

  // ---- what readers get ------------------------------------------------------------------------

  /** Whatever the swarm delivers: returned bytes have the size and digest a valid manifest of
      this publisher declares for the path. */
  lemma GetFromIsAuthentic(c: Crypto, publisher: Bytes32, dir: P.Dir, signed: SignedHead, path: seq<byte>)
    returns (o: Object)
    requires LoadFrom(c, publisher, Some(dir), signed).Ok?
    requires var m := LoadFrom(c, publisher, Some(dir), signed).value.manifest;
      GetFrom(c, dir, m, path).Ok? && GetFrom(c, dir, m, path).value.Some?
    ensures var m := LoadFrom(c, publisher, Some(dir), signed).value.manifest;
      && ValidManifest(c, m) && m.publisher == publisher
      && o in m.objects && o.path == path && Matches(c, o, GetFrom(c, dir, m, path).value.value)
  {
    hide Decode, ValidManifest, Lookup;
    var m := LoadFrom(c, publisher, Some(dir), signed).value.manifest;
    EncodeDecode(c, dir[P.ManifestFile()]);
    o := Lookup(m, path).value;
    LookupMeaning(c, m, path, o);
  }

  /** From a publication to its readers: the directory of an edition loads as its manifest and
      reads back every file exactly, as long as the size limits allow, and nothing else. */
  lemma PublishedReadsBack(c: Crypto, id: Bytes32, e: Edition, signed: SignedHead, path: seq<byte>)
    requires GoodEdition(c, id, e) && signed.Publisher() == id && signed.Sequence() > 0
    ensures LoadFrom(c, id, Some(P.DirOf(e)), signed) ==
              if |Encode(e.manifest)| > MAX_MANIFEST_BYTES then Err(TooLarge)
              else Ok(Loaded(signed, HeadOf(c, e.manifest, signed.Sequence()), e.manifest))
    ensures GetFrom(c, P.DirOf(e), e.manifest, path) ==
              if path !in Contents(e.files) then Ok(None)
              else if |Contents(e.files)[path]| > MAX_OBJECT_BYTES then Err(TooLarge)
              else Ok(Some(Contents(e.files)[path]))
  {
    hide Decode, ValidManifest, Lookup, Encode, P.DirOf, Contents, P.ManifestFile, P.ObjectsRoot;
    P.DirOfMeaning(c, id, e);
    DecodeEncode(c, e.manifest);
    ContentsMeaning(e.files);
    DeclaredMeaning(c, e.manifest, path);
    if path in Contents(e.files) {
      var f := FileFor(e.files, path);
      var o := SuppliedFile(c, e.manifest, e.files, f);
      LookupMeaning(c, e.manifest, path, o);
    }
    if Lookup(e.manifest, path).Some? {
      var o :| o in e.manifest.objects && o.path == path;
      var f :| f in e.files && f.path == o.path;
      assert f.path in Contents(e.files);
    }
  }

  /** The info hash of a delivered directory binds its content: the swarm delivers what hashes to
      the info hash, and among the published directories no other one does. */
  ghost predicate Binds(env: P.Env, w: P.World, infoHash: Bytes20, dir: P.Dir)
  {
    && env.torrentOf(dir) == infoHash
    && forall d :: d in w.finals && env.torrentOf(w.finals[d]) == infoHash ==> w.finals[d] == dir
  }

  /** The DHT answers with the registered head of this publisher, and the swarm delivers `dir`
      for its info hash, which the info hash binds. */
  ghost predicate Delivered(env: P.Env, w: P.World, answer: Option<MutableItem>, signed: SignedHead, dir: P.Dir)
  {
    && Resolve(answer, None) == Ok(Some(signed))
    && signed.Publisher() == env.id
    && w.register == Some(P.Register(signed.Sequence(), signed.infoHash))
    && Binds(env, w, signed.infoHash, dir)
  }

  lemma DeliveredIsPublished(env: P.Env, processes: nat, actions: seq<P.Action>,
                             answer: Option<MutableItem>, signed: SignedHead, dir: P.Dir)
    returns (e: Edition)
    requires env.c.validKey(env.id) && P.ApartInProcess(env, processes)
    requires NoCollision(env.c, P.Run(env, processes, actions).begun)
    requires Delivered(env, P.Run(env, processes, actions), answer, signed, dir)
    ensures GoodEdition(env.c, env.id, e) && e in P.Run(env, processes, actions).begun
    ensures dir == P.DirOf(e)
  {
    hide P.Run, NoCollision, Encode, P.DirOf, GoodEdition, Resolve, ManifestDigest;
    e := P.RegisteredHeadIsComplete(env, processes, actions);
  }

  /** End to end, in any run of the publishers: a reader that resolves the registered head loads,
      from whatever the swarm delivers under its info hash, the manifest of the registered
      edition, and reads back exactly its files, as long as the size limits allow. */
  lemma RegisteredHeadReadsBack(env: P.Env, processes: nat, actions: seq<P.Action>,
                                content: Bytes20 -> Option<P.Dir>, answer: Option<MutableItem>,
                                signed: SignedHead, dir: P.Dir, path: seq<byte>)
    returns (e: Edition)
    requires env.c.validKey(env.id) && P.ApartInProcess(env, processes)
    requires NoCollision(env.c, P.Run(env, processes, actions).begun)
    requires Delivered(env, P.Run(env, processes, actions), answer, signed, dir)
    requires content(signed.infoHash) == Some(dir)
    ensures GoodEdition(env.c, env.id, e) && e in P.Run(env, processes, actions).begun
    ensures Load(env.c, env.id, content, answer) ==
              if |Encode(e.manifest)| > MAX_MANIFEST_BYTES then Err(TooLarge)
              else Ok(Some(Loaded(signed, HeadOf(env.c, e.manifest, signed.Sequence()), e.manifest)))
    ensures GetFrom(env.c, dir, e.manifest, path) ==
              if path !in Contents(e.files) then Ok(None)
              else if |Contents(e.files)[path]| > MAX_OBJECT_BYTES then Err(TooLarge)
              else Ok(Some(Contents(e.files)[path]))
  {
    hide P.Run, NoCollision, Load, GetFrom, Encode, Contents, P.DirOf, GoodEdition, Resolve, Binds;
    e := DeliveredIsPublished(env, processes, actions, answer, signed, dir);
    PublishedLoads(env.c, env.id, e, content, answer, signed);
    PublishedReadsBack(env.c, env.id, e, signed, path);
  }

  lemma PublishedLoads(c: Crypto, id: Bytes32, e: Edition, content: Bytes20 -> Option<P.Dir>,
                       answer: Option<MutableItem>, signed: SignedHead)
    requires GoodEdition(c, id, e) && signed.Publisher() == id
    requires Resolve(answer, None) == Ok(Some(signed)) && content(signed.infoHash) == Some(P.DirOf(e))
    ensures signed.Sequence() > 0
    ensures Load(c, id, content, answer) ==
              if |Encode(e.manifest)| > MAX_MANIFEST_BYTES then Err(TooLarge)
              else Ok(Some(Loaded(signed, HeadOf(c, e.manifest, signed.Sequence()), e.manifest)))
  {
    ResolveMeaning(answer, None, signed);
    hide Resolve, LoadFrom, GetFrom, Encode, Contents, P.DirOf, GoodEdition;
    PublishedReadsBack(c, id, e, signed, []);
  }
}
