/** Release torrents: declared files, their total size and the sorted neighbour check; and
    what the same check means for manifests. */
module Release {
  import opened Bytes
  import opened Order
  import opened Outcomes
  import opened Sequences
  import opened LogicalPath
  import opened DatasetManifest
  import opened Collisions

  datatype ReleaseFile = ReleaseFile(path: Utf8, size: u64)

  datatype Torrent = Torrent(size: u64, files: seq<ReleaseFile>, trackers: seq<Utf8>)

  const MAX_FILES: nat := 10_000
  const MAX_TRACKERS: nat := 16
  const MAX_TRACKER_BYTES: nat := 2048

  datatype TorrentFault =
    | ZeroSize
    | FileCount
    | InvalidFilePath(path: seq<byte>)
    | SizeOverflow
    | PathCollision
    | SizeMismatch(filesTotal: u64)
    | TooManyTrackers
    | InvalidTracker(url: seq<byte>)

  function SizeOf(f: ReleaseFile): nat
  {
    f.size
  }

  function Total(files: seq<ReleaseFile>): nat
  {
    Sum(files, SizeOf)
  }

  function ReleasePath(f: ReleaseFile): seq<byte>
  {
    f.path
  }

  function FilePaths(files: seq<ReleaseFile>): seq<seq<byte>>
  {
    Mapped(files, ReleasePath)
  }

  lemma FilePathListed(files: seq<ReleaseFile>, i: nat)
    requires i < |files|
    ensures files[i].path in FilePaths(files)
  {
    assert FilePaths(files)[i] == files[i].path;
  }

  /** `allowed` stands for parsing the URL and looking at its parts. */
  predicate ValidTracker(allowed: seq<byte> -> bool, url: seq<byte>)
  {
    |url| <= 2048 && allowed(url)
  }

  /** What a release torrent must satisfy. */
  predicate ValidTorrent(allowed: seq<byte> -> bool, t: Torrent)
  {
    && 0 < t.size
    && 0 < |t.files| <= 10_000
    && (forall i :: 0 <= i < |t.files| ==> PortablePath(t.files[i].path))
    && NeighboursAccepted(Sort(PathLeq, FilePaths(t.files)))
    && Total(t.files) == t.size
    && |t.trackers| <= 16
    && (forall i :: 0 <= i < |t.trackers| ==> ValidTracker(allowed, t.trackers[i]))
  }

  /** What each refusal says about the torrent. */
  predicate Explains(allowed: seq<byte> -> bool, t: Torrent, fault: TorrentFault)
  {
    match fault
    case ZeroSize => t.size == 0
    case FileCount => t.files == [] || |t.files| > 10_000
    case InvalidFilePath(path) => path in FilePaths(t.files) && !PortablePath(path)
    case SizeOverflow => Total(t.files) >= U64_LIMIT
    case PathCollision => !NeighboursAccepted(Sort(PathLeq, FilePaths(t.files)))
    case SizeMismatch(total) => total == Total(t.files) != t.size
    case TooManyTrackers => |t.trackers| > 16
    case InvalidTracker(url) => url in t.trackers && !ValidTracker(allowed, url)
  }

  /** The file loop: every path is checked and the running total never wraps; an overflow is
      reported only when the true sum does not fit. */
  method ScanFiles(files: seq<ReleaseFile>) returns (r: Result<(u64, seq<seq<byte>>), TorrentFault>)
    ensures r.Ok? <==> (forall i :: 0 <= i < |files| ==> PortablePath(files[i].path)) && Total(files) < U64_LIMIT
    ensures r.Ok? ==> r.value == (Total(files), FilePaths(files))
    ensures r.Err? ==> r.error == SizeOverflow || r.error.InvalidFilePath?
    ensures r == Err(SizeOverflow) ==> Total(files) >= U64_LIMIT
    ensures r.Err? && r.error.InvalidFilePath? ==> r.error.path in FilePaths(files) && !PortablePath(r.error.path)
  {
    hide PortablePath;
    var paths: seq<seq<byte>> := [];
    var total: u64 := 0;
    for i := 0 to |files|
      invariant total == Total(files[..i])
      invariant |paths| == i
      invariant forall k :: 0 <= k < i ==> paths[k] == files[k].path && PortablePath(files[k].path)
    {
      var file := files[i];
      if !PortablePath(file.path) {
        FilePathListed(files, i);
        return Err(InvalidFilePath(file.path));
      }
      SumStep(files, SizeOf, i);
      if total + file.size >= U64_LIMIT {
        return Err(SizeOverflow);
      }
      total := total + file.size;
      paths := paths + [file.path];
    }
    assert files[..|files|] == files;
    assert paths == FilePaths(files);
    return Ok((total, paths));
  }

  /** The loop over sorted neighbours. */
  method ScanNeighbours(paths: seq<seq<byte>>) returns (accepted: bool)
    ensures accepted == NeighboursAccepted(paths)
  {
    var i := 1;
    while i < |paths|
      invariant i >= 1
      invariant forall k :: 0 < k < i && k < |paths| ==> paths[k - 1] != paths[k] && !Below(paths[k - 1], paths[k])
    {
      if paths[i - 1] == paths[i] || Below(paths[i - 1], paths[i]) {
        return false;
      }
      i := i + 1;
    }
    return true;
  }

  /** `validate_trackers`. */
  method ScanTrackers(allowed: seq<byte> -> bool, trackers: seq<Utf8>) returns (fault: Option<TorrentFault>)
    ensures fault.None? <==>
            |trackers| <= MAX_TRACKERS && forall i :: 0 <= i < |trackers| ==> ValidTracker(allowed, trackers[i])
    ensures fault.Some? ==>
      match fault.value
      case TooManyTrackers => |trackers| > MAX_TRACKERS
      case InvalidTracker(url) => url in trackers && !ValidTracker(allowed, url)
      case _ => false
  {
    if |trackers| > MAX_TRACKERS {
      return Some(TooManyTrackers);
    }
    for i := 0 to |trackers|
      invariant forall k :: 0 <= k < i ==> ValidTracker(allowed, trackers[k])
    {
      if |trackers[i]| > MAX_TRACKER_BYTES || !allowed(trackers[i]) {
        return Some(InvalidTracker(trackers[i]));
      }
    }
    return None;
  }

  /** `validate_torrent`: accepted exactly when valid, and otherwise refused for a true reason. */
  method ValidateTorrent(allowed: seq<byte> -> bool, t: Torrent) returns (r: Result<(), TorrentFault>)
    ensures r.Ok? <==> ValidTorrent(allowed, t)
    ensures r.Err? ==> Explains(allowed, t, r.error)
  {
    hide PortablePath, Sort, NeighboursAccepted, Total, FilePaths, ValidTracker;
    if t.size == 0 {
      return Err(ZeroSize);
    }
    if |t.files| == 0 || |t.files| > MAX_FILES {
      return Err(FileCount);
    }
    var scanned :- ScanFiles(t.files);
    var accepted := ScanNeighbours(Sort(PathLeq, scanned.1));
    if !accepted {
      return Err(PathCollision);
    }
    if scanned.0 != t.size {
      return Err(SizeMismatch(scanned.0));
    }
    var fault := ScanTrackers(allowed, t.trackers);
    return match fault case None => Ok(()) case Some(f) => Err(f);
  }

  /** Listing the same files in another order changes no verdict. */
  lemma ValidTorrentIgnoresOrder(allowed: seq<byte> -> bool, a: Torrent, b: Torrent)
    requires a.size == b.size && a.trackers == b.trackers
    requires multiset(a.files) == multiset(b.files)
    ensures ValidTorrent(allowed, a) <==> ValidTorrent(allowed, b)
  {
    hide PortablePath, Sort, NeighboursAccepted;
    SumIgnoresOrder(a.files, b.files, SizeOf);
    MappedIgnoresOrder(a.files, b.files, ReleasePath);
    SortPathsUnique(FilePaths(a.files), FilePaths(b.files));
    assert |multiset(a.files)| == |a.files| && |multiset(b.files)| == |b.files|;
    forall f ensures f in a.files <==> f in b.files {
      assert f in a.files <==> f in multiset(a.files);
      assert f in b.files <==> f in multiset(b.files);
    }
    AllPortable(a.files);
    AllPortable(b.files);
  }

  lemma AllPortable(files: seq<ReleaseFile>)
    ensures (forall i :: 0 <= i < |files| ==> PortablePath(files[i].path)) <==>
            (forall f :: f in files ==> PortablePath(f.path))
  {
  }

  lemma SortPathsUnique(a: seq<seq<byte>>, b: seq<seq<byte>>)
    requires multiset(a) == multiset(b)
    ensures Sort(PathLeq, a) == Sort(PathLeq, b)
  {
    PathOrder();
    SortSorts(PathLeq, a);
    SortSorts(PathLeq, b);
    SortMultiset(PathLeq, a);
    SortMultiset(PathLeq, b);
    SortedUnique(PathLeq, Sort(PathLeq, a), Sort(PathLeq, b));
  }

  // ---- manifests -----------------------------------------------------------------------

  /** A valid manifest keeps every file from being a directory exactly when no declared file
      is both extended by a byte below the separator and used as a directory. */
  lemma ManifestCollisionFree(c: Crypto, m: Manifest)
    requires ValidManifest(c, m)
    ensures CollisionFree(Paths(m.objects)) <==>
              forall a, x, y :: a in Paths(m.objects) && x in Paths(m.objects) && y in Paths(m.objects) ==>
                !(Shields(a, x) && Below(a, y))
  {
    var paths := Paths(m.objects);
    PathOrder();
    forall i, j | 0 <= i < j < |paths| ensures PathLeq(paths[i], paths[j]) {
      ChainedAscends(paths, i, j);
    }
    assert NeighboursAccepted(paths);
    AcceptedIsCollisionFree(paths);
  }

  /** The condition is not implied: this manifest is constructed without fault. */
  lemma ManifestMissesCollision(publisher: Bytes32, digest: Bytes32)
    ensures var objects := [Object(File(), 1, digest), Object(Sibling(), 1, digest), Object(Child(), 1, digest)];
      var m := Manifest(publisher, 1, objects);
      Validation(m) == None && !CollisionFree(Paths(m.objects))
  {
    var objects := [Object(File(), 1, digest), Object(Sibling(), 1, digest), Object(Child(), 1, digest)];
    var m := Manifest(publisher, 1, objects);
    var paths := Paths(m.objects);
    assert paths == [File(), Sibling(), Child()];
    NeighbourCheckMissesCollision();
    PathOrder();
    assert Chained(paths);
    PathFaultMeaning(paths, None);
  }
}
