/** Dataset snapshots, heads, and the tracker that guards a reader against rollback. */
module DatasetCore {
  import opened Bytes
  import opened Order
  import opened Outcomes
  import opened Sequences
  import opened LogicalPath
  import opened DatasetManifest

  // ---- snapshots ---------------------------------------------------------------------

  datatype File = File(path: Utf8, bytes: Blob)

  type Files = s: seq<File> | |s| < U64_LIMIT

  datatype Snapshot = Snapshot(manifest: Manifest, contents: map<seq<byte>, Blob>)

  datatype SnapshotError =
    | DuplicateFile(path: seq<byte>)
    | MissingFile(path: seq<byte>)
    | WrongLength(path: seq<byte>)
    | WrongDigest(path: seq<byte>)
    | UndeclaredFile(path: seq<byte>)

  function FilePath(f: File): seq<byte>
  {
    f.path
  }

  function PathsOf(files: seq<File>): seq<seq<byte>>
  {
    Mapped(files, FilePath)
  }

  /** The files inserted one after another into a map. */
  function Contents(files: seq<File>): map<seq<byte>, Blob>
  {
    if files == [] then map[]
    else
      var n := |files| - 1;
      Contents(files[..n])[files[n].path := files[n].bytes]
  }

  predicate DistinctFiles(files: seq<File>)
  {
    forall i, j :: 0 <= i < j < |files| ==> files[i].path != files[j].path
  }

  lemma {:induction false} ContentsMeaning(files: seq<File>)
    ensures forall p :: p in Contents(files) <==> p in PathsOf(files)
    ensures DistinctFiles(files) ==>
      forall f :: f in files ==> f.path in Contents(files) && Contents(files)[f.path] == f.bytes
  {
    if files != [] {
      var n := |files| - 1;
      ContentsMeaning(files[..n]);
      assert files == files[..n] + [files[n]];
      assert PathsOf(files) == PathsOf(files[..n]) + [files[n].path];
      if DistinctFiles(files) {
        assert DistinctFiles(files[..n]);
        assert forall f :: f in files[..n] ==> f.path != files[n].path;
      }
    }
  }

  predicate Declared(m: Manifest, path: seq<byte>)
  {
    exists o :: o in m.objects && o.path == path
  }

  /** The supplied files are exactly the declared objects: no path twice, the same set of
      paths, and every object with its declared size and digest. */
  predicate Supplies(c: Crypto, m: Manifest, files: seq<File>)
  {
    && DistinctFiles(files)
    && (forall f :: f in files ==> Declared(m, f.path))
    && (forall o :: o in m.objects ==> exists f :: f in files && f.path == o.path && Matches(c, o, f.bytes))
  }

  /** What each refusal of `NewSnapshot` says about its input. */
  ghost predicate Explains(c: Crypto, m: Manifest, files: seq<File>, e: SnapshotError)
  {
    match e
    case DuplicateFile(p) => Repeated(files, p)
    case MissingFile(p) => Declared(m, p) && p !in PathsOf(files)
    case WrongLength(p) => exists o, f :: o in m.objects && f in files && o.path == f.path == p && o.size != |f.bytes|
    case WrongDigest(p) => exists o, f ::
      o in m.objects && f in files && o.path == f.path == p && o.digest != c.hash(f.bytes)
    case UndeclaredFile(p) => p in PathsOf(files) && !Declared(m, p)
  }

  lemma FileFor(files: seq<File>, path: seq<byte>) returns (f: File)
    requires DistinctFiles(files) && path in Contents(files)
    ensures f in files && f.path == path && f.bytes == Contents(files)[path]
  {
    ContentsMeaning(files);
    var i :| 0 <= i < |files| && PathsOf(files)[i] == path;
    f := files[i];
  }

  predicate Repeated(files: seq<File>, path: seq<byte>)
  {
    exists i, j :: 0 <= i < j < |files| && files[i].path == files[j].path == path
  }

  lemma FirstRepeat(files: seq<File>, n: nat)
    requires n < |files| && DistinctFiles(files[..n])
    ensures files[n].path in PathsOf(files[..n]) <==> !DistinctFiles(files[..n + 1])
    ensures files[n].path in PathsOf(files[..n]) ==> Repeated(files, files[n].path) && !DistinctFiles(files)
  {
    var before, upto := files[..n], files[..n + 1];
    assert forall i :: 0 <= i < n ==> upto[i] == before[i] == files[i] && PathsOf(before)[i] == files[i].path;
    assert upto[n] == files[n];
    if files[n].path in PathsOf(before) {
      var i :| 0 <= i < n && PathsOf(before)[i] == files[n].path;
      assert upto[i].path == upto[n].path;
      assert files[i].path == files[n].path;
    } else {
      forall i | 0 <= i < n ensures upto[i].path != upto[n].path {
        assert PathsOf(before)[i] == files[i].path;
      }
    }
  }

  lemma CollectStep(files: seq<File>, n: nat)
    requires n < |files| && DistinctFiles(files[..n])
    ensures files[n].path in Contents(files[..n]) <==> !DistinctFiles(files[..n + 1])
    ensures files[n].path in Contents(files[..n]) ==> Repeated(files, files[n].path) && !DistinctFiles(files)
    ensures Contents(files[..n + 1]) == Contents(files[..n])[files[n].path := files[n].bytes]
  {
    assert files[..n + 1][..n] == files[..n];
    hide DistinctFiles, Repeated;
    ContentsMeaning(files[..n]);
    FirstRepeat(files, n);
  }

  /** First loop of `Snapshot::new`. */
  method CollectFiles(files: seq<File>) returns (r: Result<map<seq<byte>, Blob>, SnapshotError>)
    ensures r.Ok? <==> DistinctFiles(files)
    ensures r.Ok? ==> r.value == Contents(files)
    ensures r.Err? ==> r.error.DuplicateFile? && Repeated(files, r.error.path)
  {
    var contents: map<seq<byte>, Blob> := map[];
    assert DistinctFiles(files[..0]) && Contents(files[..0]) == contents;
    hide Contents, DistinctFiles, Repeated;
    for n := 0 to |files|
      invariant contents == Contents(files[..n])
      invariant DistinctFiles(files[..n])
    {
      var file := files[n];
      CollectStep(files, n);
      if file.path in contents {
        return Err(DuplicateFile(file.path));
      }
      contents := contents[file.path := file.bytes];
    }
    assert files[..|files|] == files;
    return Ok(contents);
  }

  /** Second loop: every declared object is present with its size and digest. */
  method CheckObjects(c: Crypto, m: Manifest, files: seq<File>, contents: map<seq<byte>, Blob>)
    returns (fault: Option<SnapshotError>)
    requires DistinctFiles(files) && contents == Contents(files)
    ensures fault.None? <==> forall o :: o in m.objects ==> o.path in contents && Matches(c, o, contents[o.path])
    ensures fault.Some? ==> Explains(c, m, files, fault.value)
  {
    ContentsMeaning(files);
    for n := 0 to |m.objects|
      invariant forall k :: 0 <= k < n ==>
                m.objects[k].path in contents && Matches(c, m.objects[k], contents[m.objects[k].path])
    {
      var o := m.objects[n];
      if o.path !in contents {
        return Some(MissingFile(o.path));
      }
      var bytes := contents[o.path];
      ghost var f := FileFor(files, o.path);
      if o.size != |bytes| {
        return Some(WrongLength(o.path));
      }
      if o.digest != c.hash(bytes) {
        return Some(WrongDigest(o.path));
      }
    }
    return None;
  }

  /** Third loop: every supplied path is declared. */
  method CheckDeclared(c: Crypto, m: Manifest, paths: seq<seq<byte>>) returns (undeclared: Option<seq<byte>>)
    requires ValidManifest(c, m)
    ensures undeclared.None? <==> forall p :: p in paths ==> Declared(m, p)
    ensures undeclared.Some? ==> undeclared.value in paths && !Declared(m, undeclared.value)
  {
    hide ValidManifest, Search;
    for n := 0 to |paths|
      invariant forall k :: 0 <= k < n ==> Declared(m, paths[k])
    {
      var found := Lookup(m, paths[n]);
      DeclaredMeaning(c, m, paths[n]);
      if found.None? {
        return Some(paths[n]);
      }
    }
    return None;
  }

  lemma DeclaredMeaning(c: Crypto, m: Manifest, path: seq<byte>)
    requires ValidManifest(c, m)
    ensures Lookup(m, path).Some? <==> Declared(m, path)
  {
    if o :| o in m.objects && o.path == path { LookupMeaning(c, m, path, o); }
  }

  /** `Snapshot::new` accepts exactly the files the manifest declares. */
  method NewSnapshot(c: Crypto, m: Manifest, files: seq<File>) returns (r: Result<Snapshot, SnapshotError>)
    requires ValidManifest(c, m)
    ensures r.Ok? <==> Supplies(c, m, files)
    ensures r.Ok? ==> r.value == Snapshot(m, Contents(files))
    ensures r.Err? ==> Explains(c, m, files, r.error)
  {
    hide ValidManifest, Contents;
    var contents :- CollectFiles(files);
    var fault := CheckObjects(c, m, files, contents);
    ContentsMeaning(files);
    ObjectsSupplied(c, m, files);
    if fault.Some? {
      return Err(fault.value);
    }
    var keys := Sort(PathLeq, PathsOf(files));
    KeysDeclared(m, files);
    var undeclared := CheckDeclared(c, m, keys);
    if undeclared.Some? {
      SortMembers(PathLeq, PathsOf(files), undeclared.value);
      return Err(UndeclaredFile(undeclared.value));
    }
    return Ok(Snapshot(m, contents));
  }

  lemma ObjectsSupplied(c: Crypto, m: Manifest, files: seq<File>)
    requires DistinctFiles(files)
    ensures (forall o :: o in m.objects ==> o.path in Contents(files) && Matches(c, o, Contents(files)[o.path]))
            <==> (forall o :: o in m.objects ==> exists f :: f in files && f.path == o.path && Matches(c, o, f.bytes))
  {
    ContentsMeaning(files);
    forall o | o in m.objects
      ensures (o.path in Contents(files) && Matches(c, o, Contents(files)[o.path]))
              <==> exists f :: f in files && f.path == o.path && Matches(c, o, f.bytes)
    {
      if o.path in Contents(files) { var f := FileFor(files, o.path); }
    }
  }

  lemma KeysDeclared(m: Manifest, files: seq<File>)
    ensures (forall p :: p in Sort(PathLeq, PathsOf(files)) ==> Declared(m, p))
            <==> (forall f :: f in files ==> Declared(m, f.path))
  {
    forall f | f in files ensures f.path in Sort(PathLeq, PathsOf(files)) {
      var i :| 0 <= i < |files| && files[i] == f;
      assert PathsOf(files)[i] == f.path;
      SortMembers(PathLeq, PathsOf(files), f.path);
    }
    forall p | p in Sort(PathLeq, PathsOf(files)) ensures exists f :: f in files && f.path == p {
      SortMembers(PathLeq, PathsOf(files), p);
      var i :| 0 <= i < |files| && PathsOf(files)[i] == p;
      assert files[i] in files;
    }
  }

  // ---- publications ---------------------------------------------------------------------

  /** The manifest entries declared for the files. */
  function Entries(c: Crypto, files: Files): (objects: Objects)
    ensures |objects| == |files|
    ensures forall i :: 0 <= i < |files| ==> objects[i] == Declare(c, files[i].path, files[i].bytes)
  {
    seq(|files|, i requires 0 <= i < |files| => Declare(c, files[i].path, files[i].bytes))
  }

  datatype StageError = BadManifest(fault: Fault) | BadSnapshot(error: SnapshotError)

  /** What a publisher stages before it touches shared state. */
  function Staged(c: Crypto, publisher: Bytes32, createdAt: u64, files: Files): Result<Snapshot, StageError>
  {
    match New(publisher, createdAt, Entries(c, files))
    case Err(fault) => Err(BadManifest(fault))
    case Ok(m) => Ok(Snapshot(m, Contents(files)))
  }

  lemma EntryMember(c: Crypto, publisher: Bytes32, createdAt: u64, files: Files, o: Object)
    requires New(publisher, createdAt, Entries(c, files)).Ok?
    ensures o in New(publisher, createdAt, Entries(c, files)).value.objects <==>
              exists f :: f in files && o == Declare(c, f.path, f.bytes)
  {
    var entries := Entries(c, files);
    SortMembers(ObjectLeq, entries, o);
    if f :| f in files && o == Declare(c, f.path, f.bytes) {
      var i :| 0 <= i < |files| && files[i] == f;
      assert entries[i] == o;
    }
    if o in entries {
      var i :| 0 <= i < |entries| && entries[i] == o;
      assert files[i] in files;
    }
  }

  lemma StagedFilesDistinct(c: Crypto, publisher: Bytes32, createdAt: u64, files: Files)
    requires c.validKey(publisher)
    requires New(publisher, createdAt, Entries(c, files)).Ok?
    ensures DistinctFiles(files)
  {
    hide ValidManifest, New, Sort;
    var entries := Entries(c, files);
    var m := New(publisher, createdAt, entries).value;
    NewMeaning(c, publisher, createdAt, entries);
    ValidIsSorted(c, m);
    MappedIgnoresOrder(m.objects, entries, EntryPath);
    Singles(Paths(m.objects));
    Singles(Paths(entries));
    assert Paths(entries) == PathsOf(files);
  }

  /** Once the manifest of a publication is built, the snapshot check cannot refuse it: paths
      given twice are already refused as unsorted, and entries declare their own bytes. */
  lemma StagedIsSupplied(c: Crypto, publisher: Bytes32, createdAt: u64, files: Files)
    requires c.validKey(publisher)
    requires New(publisher, createdAt, Entries(c, files)).Ok?
    ensures var m := New(publisher, createdAt, Entries(c, files)).value;
      ValidManifest(c, m) && Supplies(c, m, files)
  {
    hide ValidManifest, New;
    var m := New(publisher, createdAt, Entries(c, files)).value;
    NewMeaning(c, publisher, createdAt, Entries(c, files));
    StagedFilesDistinct(c, publisher, createdAt, files);
    forall f | f in files ensures Declared(m, f.path) {
      EntryMember(c, publisher, createdAt, files, Declare(c, f.path, f.bytes));
    }
    forall o | o in m.objects ensures exists f :: f in files && f.path == o.path && Matches(c, o, f.bytes) {
      EntryMember(c, publisher, createdAt, files, o);
    }
  }

  /** The validation every publisher does first. */
  method Stage(c: Crypto, publisher: Bytes32, createdAt: u64, files: Files) returns (r: Result<Snapshot, StageError>)
    requires c.validKey(publisher)
    ensures r == Staged(c, publisher, createdAt, files)
  {
    hide ValidManifest, New, Supplies, Explains;
    var made := New(publisher, createdAt, Entries(c, files));
    if made.Err? {
      return Err(BadManifest(made.error));
    }
    StagedIsSupplied(c, publisher, createdAt, files);
    var snapshot := NewSnapshot(c, made.value, files);
    return Ok(snapshot.value);
  }

  // ---- editions ----------------------------------------------------------------------------

  /** One published state: the files handed in and the manifest declaring them. */
  datatype Edition = Edition(files: Files, manifest: Manifest)

  ghost predicate GoodEdition(c: Crypto, id: Bytes32, e: Edition)
  {
    ValidManifest(c, e.manifest) && e.manifest.publisher == id && Supplies(c, e.manifest, e.files)
  }

  /** The byte strings a run that publishes these editions hashes. */
  ghost predicate Hashed(editions: seq<Edition>, b: seq<byte>)
  {
    exists e :: e in editions && (b == Encode(e.manifest) || exists f :: f in e.files && f.bytes == b)
  }

  /** No two of them collide. */
  ghost predicate NoCollision(c: Crypto, editions: seq<Edition>)
  {
    forall x, y :: Hashed(editions, x) && Hashed(editions, y) && c.hash(x) == c.hash(y) ==> x == y
  }

  lemma FewerEditionsNoCollision(c: Crypto, few: seq<Edition>, editions: seq<Edition>)
    requires few <= editions && NoCollision(c, editions)
    ensures NoCollision(c, few)
  {
    forall x, y | Hashed(few, x) && Hashed(few, y) && c.hash(x) == c.hash(y) ensures x == y {
      assert Hashed(editions, x) && Hashed(editions, y);
    }
  }

  lemma StagedIsGood(c: Crypto, id: Bytes32, createdAt: u64, files: Files)
    requires c.validKey(id)
    ensures var r := Staged(c, id, createdAt, files);
      r.Ok? ==> GoodEdition(c, id, Edition(files, r.value.manifest))
  {
    hide ValidManifest, Supplies, New;
    if New(id, createdAt, Entries(c, files)).Ok? {
      StagedIsSupplied(c, id, createdAt, files);
      NewMeaning(c, id, createdAt, Entries(c, files));
    }
  }

  lemma SameDigestSameManifest(c: Crypto, editions: seq<Edition>, p: Edition, q: Edition)
    requires NoCollision(c, editions) && p in editions && q in editions
    requires ManifestDigest(c, p.manifest) == ManifestDigest(c, q.manifest)
    ensures p.manifest == q.manifest
  {
    hide Encode;
    assert Hashed(editions, Encode(p.manifest)) && Hashed(editions, Encode(q.manifest));
    assert Encode(p.manifest) + [] == Encode(q.manifest) + [];
    EncodePrefixFree(p.manifest, [], q.manifest, []);
  }

  lemma SuppliedFile(c: Crypto, m: Manifest, files: Files, f: File) returns (o: Object)
    requires ValidManifest(c, m) && Supplies(c, m, files) && f in files
    ensures o in m.objects && o.path == f.path && Matches(c, o, f.bytes)
  {
    hide ValidManifest;
    o :| o in m.objects && o.path == f.path;
    var g :| g in files && g.path == o.path && Matches(c, o, g.bytes);
    assert g == f;
  }

  /** Editions with the same digest hold the same bytes under the same path. */
  lemma SamePathSameBytes(c: Crypto, id: Bytes32, editions: seq<Edition>, p: Edition, f: File, q: Edition, g: File)
    requires NoCollision(c, editions) && p in editions && q in editions
    requires GoodEdition(c, id, p) && GoodEdition(c, id, q) && p.manifest == q.manifest
    requires f in p.files && g in q.files && f.path == g.path
    ensures f.bytes == g.bytes
  {
    hide ValidManifest, Supplies;
    var o := SuppliedFile(c, p.manifest, p.files, f);
    var o' := SuppliedFile(c, q.manifest, q.files, g);
    LookupMeaning(c, p.manifest, f.path, o);
    LookupMeaning(c, p.manifest, f.path, o');
    assert Hashed(editions, f.bytes) && Hashed(editions, g.bytes);
  }

  // ---- heads -----------------------------------------------------------------------------

  datatype Head = Head(publisher: Bytes32, createdAt: u64, digest: Bytes32, sequence: u64)

  function HeadOf(c: Crypto, m: Manifest, sequence: u64): Head
  {
    Head(m.publisher, m.createdAt, ManifestDigest(c, m), sequence)
  }

  // ---- freshness ---------------------------------------------------------------------------

  datatype Freshness = Initial | Unchanged | Advanced

  datatype Stale =
    | PublisherMismatch
    | Rollback(highestSeen: u64, resolved: u64)
    | ConflictingHead(sequence: u64)

  /** `FreshnessTracker::check`. */
  function Check(highest: Option<Head>, head: Head): Result<Freshness, Stale>
  {
    match highest
    case None => Ok(Initial)
    case Some(h) =>
      if h.publisher != head.publisher then Err(PublisherMismatch)
      else if head.sequence > h.sequence then Ok(Advanced)
      else if head.sequence < h.sequence then Err(Rollback(h.sequence, head.sequence))
      else if head.digest == h.digest then Ok(Unchanged)
      else Err(ConflictingHead(head.sequence))
  }

  /** Every answer of the check with the heads that get it: which comes first when several would
      fit is part of it, the publisher before the sequence and the sequence before the digest. */
  lemma CheckMeaning(h: Head, head: Head, answer: Result<Freshness, Stale>)
    ensures Check(None, head) == Ok(Initial)
    ensures Check(Some(h), head) == answer <==>
              match answer
              case Ok(Initial) => false
              case Ok(Unchanged) => h.(createdAt := head.createdAt) == head
              case Ok(Advanced) => h.publisher == head.publisher && h.sequence < head.sequence
              case Err(PublisherMismatch) => h.publisher != head.publisher
              case Err(Rollback(seen, resolved)) =>
                h.publisher == head.publisher && seen == h.sequence > head.sequence == resolved
              case Err(ConflictingHead(sequence)) =>
                h.publisher == head.publisher && h.sequence == head.sequence == sequence && h.digest != head.digest
  {
  }

  /** `Unchanged` is answered whatever the creation time: one head with two times shows it. */
  lemma UnchangedIgnoresTime(h: Head, t: u64)
    requires t != h.createdAt
    ensures Check(Some(h), h.(createdAt := t)) == Ok(Unchanged) && h.(createdAt := t) != h
  {
  }

  /** `Unchanged` means publisher, sequence and digest agree; the documented reading, that the
      head is the same, holds exactly when the creation times agree too. */
  lemma UnchangedExactly(h: Head, x: Head)
    ensures Check(Some(h), x) == Ok(Unchanged) <==>
              h.publisher == x.publisher && h.sequence == x.sequence && h.digest == x.digest
    ensures Check(Some(h), x) == Ok(Unchanged) ==> (x == h <==> x.createdAt == h.createdAt)
  {
  }

  /** For heads that describe manifests the documented reading always holds: the digest fixes the
      manifest, and with it the creation time, so `Unchanged` is answered for the same head only. */
  lemma UnchangedForManifests(c: Crypto, editions: seq<Edition>, e: Edition, f: Edition, s: u64, t: u64)
    requires NoCollision(c, editions) && e in editions && f in editions
    ensures Check(Some(HeadOf(c, e.manifest, s)), HeadOf(c, f.manifest, t)) == Ok(Unchanged)
            <==> HeadOf(c, e.manifest, s) == HeadOf(c, f.manifest, t)
    ensures HeadOf(c, e.manifest, s) == HeadOf(c, f.manifest, t) <==> s == t && e.manifest == f.manifest
  {
    hide NoCollision, ManifestDigest;
    if ManifestDigest(c, e.manifest) == ManifestDigest(c, f.manifest) {
      SameDigestSameManifest(c, editions, e, f);
    }
  }

  /** `FreshnessTracker`. */
  class FreshnessTracker {
    var highest: Option<Head>

    constructor (persisted: Option<Head>)
      ensures highest == persisted
    {
      highest := persisted;
    }

    method Accept(head: Head) returns (r: Result<Freshness, Stale>)
      modifies this
      ensures r == Check(old(highest), head)
      ensures highest == if r.Ok? then Some(head) else old(highest)
    {
      var freshness :- Check(highest, head);
      highest := Some(head);
      return Ok(freshness);
    }
  }

  /** The heads accepted out of `heads`, in order. */
  function Accepted(highest: Option<Head>, heads: seq<Head>): seq<Head>
    decreases heads
  {
    if heads == [] then []
    else if Check(highest, heads[0]).Ok? then [heads[0]] + Accepted(Some(heads[0]), heads[1..])
    else Accepted(highest, heads[1..])
  }

  /** `b` may follow `a`: same publisher, no lower sequence, one digest a sequence. */
  predicate Follows(a: Head, b: Head)
  {
    a.publisher == b.publisher && (a.sequence < b.sequence || (a.sequence == b.sequence && a.digest == b.digest))
  }

  ghost predicate Consistent(highest: Option<Head>, heads: seq<Head>)
  {
    && (forall i :: highest.Some? && 0 <= i < |heads| ==> Follows(highest.value, heads[i]))
    && (forall i, j :: 0 <= i < j < |heads| ==> Follows(heads[i], heads[j]))
  }

  /** Fed arbitrary heads, the tracker never lowers its mark, never accepts two digests at one
      sequence and never mixes publishers. */
  lemma {:induction false} AcceptedIsConsistent(highest: Option<Head>, heads: seq<Head>)
    ensures Consistent(highest, Accepted(highest, heads))
    decreases heads
  {
    if heads == [] {
    } else if Check(highest, heads[0]).Ok? {
      var rest := Accepted(Some(heads[0]), heads[1..]);
      AcceptedIsConsistent(Some(heads[0]), heads[1..]);
      assert forall i :: 0 <= i < |rest| ==> Follows(heads[0], rest[i]);
    } else {
      AcceptedIsConsistent(highest, heads[1..]);
    }
  }

  /** It accepts a whole list exactly when the list is consistent: honest histories never err. */
  lemma {:induction false} ConsistentIsAccepted(highest: Option<Head>, heads: seq<Head>)
    ensures Accepted(highest, heads) == heads <==> Consistent(highest, heads)
    decreases heads
  {
    AcceptedIsConsistent(highest, heads);
    if heads != [] && Consistent(highest, heads) {
      var rest := heads[1..];
      assert forall i :: 0 <= i < |rest| ==> rest[i] == heads[i + 1];
      assert forall i :: 0 <= i < |rest| ==> Follows(heads[0], rest[i]);
      ConsistentIsAccepted(Some(heads[0]), rest);
      assert heads == [heads[0]] + rest;
    }
  }
}
