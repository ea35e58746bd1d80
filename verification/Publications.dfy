/** Which publications every publisher accepts for staging, and what it stages for them. */
module Publications {
  import opened Bytes
  import opened Order
  import opened Outcomes
  import opened Sequences
  import opened LogicalPath
  import opened DatasetManifest
  import opened DatasetCore
  import Collisions
  import ManifestRefusals

  /** A nonzero time and at most 100,000 files under portable paths, no path twice, which pass the
      neighbour check once sorted. */
  predicate Publishable(createdAt: u64, files: Files)
  {
    && createdAt > 0 && |files| <= 100_000
    && DistinctFiles(files)
    && (forall f :: f in files ==> PortablePath(f.path))
    && Collisions.NeighboursAccepted(Sort(PathLeq, PathsOf(files)))
  }

  lemma SortedPaths(c: Crypto, files: Files, sorted: seq<Object>)
    requires sorted == Sort(ObjectLeq, Entries(c, files))
    ensures Paths(sorted) == Sort(PathLeq, PathsOf(files)) && |sorted| == |files|
  {
    var entries := Entries(c, files);
    SortMultiset(ObjectLeq, entries);
    ObjectOrder();
    SortSorts(ObjectLeq, entries);
    MappedIgnoresOrder(sorted, entries, EntryPath);
    assert Paths(entries) == PathsOf(files);
    PathOrder();
    SortSorts(PathLeq, PathsOf(files));
    SortMultiset(PathLeq, PathsOf(files));
    PathsSorted(sorted);
    SortedUnique(PathLeq, Paths(sorted), Sort(PathLeq, PathsOf(files)));
  }

  lemma PathsSorted(sorted: seq<Object>)
    requires Sorted(ObjectLeq, sorted)
    ensures Sorted(PathLeq, Paths(sorted))
  {
    hide PathLeq;
    forall i, j | 0 <= i < j < |sorted| ensures PathLeq(Paths(sorted)[i], Paths(sorted)[j]) {
      assert ObjectLeq(sorted[i], sorted[j]);
    }
  }

  lemma DistinctPaths(files: Files)
    ensures DistinctFiles(files) <==> Collisions.Distinct(Sort(PathLeq, PathsOf(files)))
  {
    SortMultiset(PathLeq, PathsOf(files));
    Singles(PathsOf(files));
    Singles(Sort(PathLeq, PathsOf(files)));
    assert forall i :: 0 <= i < |files| ==> PathsOf(files)[i] == files[i].path;
  }

  lemma PortableFiles(files: Files)
    ensures (forall f :: f in files ==> PortablePath(f.path)) <==>
              forall p :: p in Sort(PathLeq, PathsOf(files)) ==> PortablePath(p)
  {
    hide PortablePath;
    forall f | f in files ensures f.path in Sort(PathLeq, PathsOf(files)) {
      var i :| 0 <= i < |files| && files[i] == f;
      assert PathsOf(files)[i] == f.path;
      SortMembers(PathLeq, PathsOf(files), f.path);
    }
    forall p | p in Sort(PathLeq, PathsOf(files)) ensures exists f :: f in files && f.path == p {
      SortMembers(PathLeq, PathsOf(files), p);
      var i :| 0 <= i < |files| && PathsOf(files)[i] == p;
      assert files[i] in files;
    }
  }

  lemma ChainedExactly(paths: seq<seq<byte>>)
    requires Sorted(PathLeq, paths)
    ensures Chained(paths) <==>
              && (forall p :: p in paths ==> PortablePath(p))
              && Collisions.Distinct(paths) && Collisions.NeighboursAccepted(paths)
  {
    hide PortablePath, Below, PathLeq;
    if Chained(paths) {
      forall i, j | 0 <= i < j < |paths| ensures paths[i] != paths[j] {
        PathOrder();
        ChainedAscends(paths, i, j);
      }
    }
    if Collisions.Distinct(paths) && Collisions.NeighboursAccepted(paths) {
      forall i | 0 < i < |paths| ensures PathLess(paths[i - 1], paths[i]) && !Below(paths[i - 1], paths[i]) {
        PathOrder();
        assert PathLeq(paths[i - 1], paths[i]) && paths[i - 1] != paths[i];
      }
    }
  }

  /** Staging succeeds exactly for publishable files. */
  lemma StagedExactly(c: Crypto, publisher: Bytes32, createdAt: u64, files: Files)
    requires c.validKey(publisher)
    ensures Staged(c, publisher, createdAt, files).Ok? <==> Publishable(createdAt, files)
  {
    hide PortablePath, PathLeq, Below, Sort, Chained, Collisions.Distinct, Collisions.NeighboursAccepted, Validation;
    hide DistinctFiles;
    var m := Manifest(publisher, createdAt, Sort(ObjectLeq, Entries(c, files)));
    SortedPaths(c, files, m.objects);
    ValidationMeaning(c, m);
    PathOrder();
    SortSorts(PathLeq, PathsOf(files));
    ChainedExactly(Paths(m.objects));
    DistinctPaths(files);
    PortableFiles(files);
  }

  /** What is staged: the valid manifest of this publisher and time whose objects are the entries
      of the files, and the files by path. */
  lemma StagedMeaning(c: Crypto, publisher: Bytes32, createdAt: u64, files: Files, s: Snapshot)
    requires c.validKey(publisher)
    ensures Staged(c, publisher, createdAt, files) == Ok(s) <==>
              && ValidManifest(c, s.manifest)
              && s.manifest.publisher == publisher && s.manifest.createdAt == createdAt
              && multiset(s.manifest.objects) == multiset(Entries(c, files))
              && s.contents == Contents(files)
  {
    hide ValidManifest, New, Contents;
    NewExactly(c, publisher, createdAt, Entries(c, files), s.manifest);
  }

  /** Every refusal of the staging is the manifest's, and true of the entries of the files. */
  lemma StagedRefuses(c: Crypto, publisher: Bytes32, createdAt: u64, files: Files)
    ensures var r := Staged(c, publisher, createdAt, files);
      r.Err? ==> r.error.BadManifest? && ManifestRefusals.Explains(createdAt, Entries(c, files), r.error.fault)
  {
    hide New, ManifestRefusals.Explains;
    ManifestRefusals.NewRefuses(publisher, createdAt, Entries(c, files));
  }
}
