/** Structural validation of torrent metainfo: safe components, limits, and the check that no
    file path equals or extends another, done on neighbours in component order. */
module Metainfo {
  import opened Bytes
  import opened Order
  import opened Outcomes
  import opened Sequences
  import opened LogicalPath

  type Path = seq<Name>

  datatype FileInfo = FileInfo(path: Path, length: u64, symlink: bool)

  /** The parsed `info` dictionary. */
  datatype Info = Info(name: Option<Name>, files: Option<seq<FileInfo>>, length: Option<u64>, symlink: bool)

  datatype Limits = Limits(
    maxFiles: nat, maxTotalBytes: u64, maxPathComponents: nat, maxComponentBytes: nat, maxPathBytes: nat)

  datatype Fault =
    | MissingName
    | MissingLength
    | EmptyContent
    | UnsafeComponent(name: Name)
    | SymlinkEntry
    | EmptyPath
    | LengthsOverflow
    | LimitExceeded
    | DuplicateFilePath(path: Path)
    | PrefixPathCollision(directory: Path, file: Path)

  /** Slicing a string away from a character boundary stops the program. */
  datatype Verdict = Accepted | Rejected(fault: Fault) | Panicked

  // ---- components ------------------------------------------------------------------------

  predicate AsciiControl(b: byte) {
    b < 0x20 || b == 0x7F
  }

  predicate AsciiLetter(b: byte) {
    'A' as int <= Upper(b) <= 'Z' as int
  }

  predicate SafeComponent(n: Name)
  {
    && n != []
    && ValidUtf8(n)
    && n != [DOT] && n != [DOT, DOT]
    && SLASH !in n && BACKSLASH !in n
    && (forall b :: b in n ==> !AsciiControl(b))
    && n[|n| - 1] != DOT && n[|n| - 1] != SPACE
    && !(|n| == 2 && AsciiLetter(n[0]) && n[1] == ':' as int)
    && !ReservedName(n)
  }

  /** The four-byte stem of `n` ends inside a character, so taking its first three bytes
      as a string is not possible. */
  predicate SplitsCharacter(n: Name)
  {
    |Stem(n)| == 4 && Continuation(Stem(n)[3])
  }

  /** `is_windows_reserved_name` of this crate, or `None` where it stops the program. */
  function ReservedCheck(n: Name): Option<bool>
  {
    var stem := Stem(n);
    if UpperAll(stem) in [Ascii("CON"), Ascii("PRN"), Ascii("AUX"), Ascii("NUL")] then Some(true)
    else if |stem| != 4 then Some(false)
    else if Continuation(stem[3]) then None
    else Some(UpperAll(stem[..3]) in [Ascii("COM"), Ascii("LPT")] && '0' as int < stem[3] <= '9' as int)
  }

  /** The two crates agree on reserved device names wherever this one answers at all. */
  lemma ReservedChecksAgree(n: Name)
    ensures ReservedCheck(n).None? <==> SplitsCharacter(n)
    ensures ReservedCheck(n).Some? ==> ReservedCheck(n).value == ReservedName(n)
    ensures ReservedCheck(n).None? ==> !ReservedName(n)
  {
    var stem := Stem(n);
    var up := UpperAll(stem);
    if |stem| == 4 {
      assert UpperAll(stem[..3]) == up[..3];
      assert SerialDigit(up[3]) <==> SerialDigit(stem[3]);
      assert Ascii("COM") <= up <==> up[..3] == Ascii("COM");
      assert Ascii("LPT") <= up <==> up[..3] == Ascii("LPT");
    }
  }

  function ComponentCheck(n: Name, limits: Option<Limits>): Verdict
  {
    if n == [] then Rejected(UnsafeComponent(n))
    else if !ValidUtf8(n) then Rejected(UnsafeComponent(n))
    else if n == [DOT] || n == [DOT, DOT] then Rejected(UnsafeComponent(n))
    else if SLASH in n || BACKSLASH in n then Rejected(UnsafeComponent(n))
    else if exists b :: b in n && AsciiControl(b) then Rejected(UnsafeComponent(n))
    else if n[|n| - 1] == DOT || n[|n| - 1] == SPACE then Rejected(UnsafeComponent(n))
    else if |n| == 2 && AsciiLetter(n[0]) && n[1] == ':' as int then Rejected(UnsafeComponent(n))
    else match ReservedCheck(n)
      case None => Panicked
      case Some(true) => Rejected(UnsafeComponent(n))
      case Some(false) =>
        if limits.Some? && |n| > limits.value.maxComponentBytes then Rejected(LimitExceeded) else Accepted
  }

  predicate ComponentFits(n: Name, limits: Option<Limits>)
  {
    limits.Some? ==> |n| <= limits.value.maxComponentBytes
  }

  /** A component passes exactly when it is safe, within its limit, and does not trip the slice. */
  lemma ComponentCheckMeaning(n: Name, limits: Option<Limits>)
    ensures ComponentCheck(n, limits) == Accepted <==>
              SafeComponent(n) && ComponentFits(n, limits) && !SplitsCharacter(n)
    ensures ComponentCheck(n, limits) == Panicked <==> SafeComponent(n) && SplitsCharacter(n)
    ensures ComponentCheck(n, limits) == Rejected(UnsafeComponent(n)) <==> !SafeComponent(n)
    ensures ComponentCheck(n, limits) == Rejected(LimitExceeded) <==>
              SafeComponent(n) && !SplitsCharacter(n) && !ComponentFits(n, limits)
    ensures ComponentCheck(n, limits).Rejected? ==>
              ComponentCheck(n, limits).fault in [UnsafeComponent(n), LimitExceeded]
  {
    ReservedChecksAgree(n);
  }

  // ---- entries -----------------------------------------------------------------------------

  /** `file_entries`. */
  function Entries(info: Info): Result<seq<FileInfo>, Fault>
  {
    match info.files
    case Some(files) => if files == [] then Err(EmptyContent) else Ok(files)
    case None =>
      if info.length.None? then Err(MissingLength)
      else if info.name.None? then Err(MissingName)
      else Ok([FileInfo([info.name.value], info.length.value, info.symlink)])
  }

  function NameBytes(p: Path): nat
  {
    if p == [] then 0 else NameBytes(p[..|p| - 1]) + |p[|p| - 1]|
  }

  /** With one byte for each separator these are the bytes of the joined path. */
  lemma {:induction false} JoinedBytes(p: Path)
    requires p != []
    ensures |Join(p)| == NameBytes(p) + |p| - 1
  {
    var n := |p| - 1;
    if n > 0 {
      JoinedBytes(p[..n]);
      JoinConcat(p[..n], [p[n]]);
      assert p == p[..n] + [p[n]];
    } else {
      assert NameBytes(p[..0]) == 0;
    }
  }

  predicate EntryFits(e: FileInfo, limits: Option<Limits>)
  {
    limits.Some? ==>
      && |e.path| <= limits.value.maxPathComponents
      && NameBytes(e.path) + |e.path| - 1 <= limits.value.maxPathBytes
  }

  predicate GoodName(n: Name, limits: Option<Limits>)
  {
    SafeComponent(n) && ComponentFits(n, limits) && !SplitsCharacter(n)
  }

  predicate GoodEntry(e: FileInfo, limits: Option<Limits>)
  {
    && !e.symlink
    && e.path != []
    && EntryFits(e, limits)
    && forall k :: 0 <= k < |e.path| ==> GoodName(e.path[k], limits)
  }

  function LengthOf(e: FileInfo): nat
  {
    e.length
  }

  function Total(entries: seq<FileInfo>): nat
  {
    Sum(entries, LengthOf)
  }

  function PathOf(e: FileInfo): Path
  {
    e.path
  }

  function PathsOf(entries: seq<FileInfo>): seq<Path>
  {
    Mapped(entries, PathOf)
  }

  // ---- collisions -----------------------------------------------------------------------------

  predicate PathOrdered(a: Path, b: Path)
  {
    LexLeq(PathLeq, a, b)
  }

  lemma ComponentOrder()
    ensures TotalOrder(PathLeq) && TotalOrder(PathOrdered)
  {
    PathOrder();
    LexTotalOrder(PathLeq, PathOrdered);
  }

  /** Over all pairs: no path equals or lies below another. */
  predicate PrefixFree(paths: seq<Path>)
  {
    forall i, j :: 0 <= i < |paths| && 0 <= j < |paths| && i != j ==> !(paths[i] <= paths[j])
  }

  predicate NeighboursPrefixFree(paths: seq<Path>)
  {
    forall i :: 0 < i < |paths| ==> !(paths[i - 1] <= paths[i])
  }

  lemma NeighbourShortens(paths: seq<Path>, i: nat, j: nat)
    requires Sorted(PathOrdered, paths) && NeighboursPrefixFree(paths)
    requires i < |paths| && j < |paths| && i != j
    ensures !(paths[i] <= paths[j])
  {
    ComponentOrder();
    if i < j {
      assert !(paths[i + 1 - 1] <= paths[i + 1]);
      if paths[i] <= paths[j] { LexBetween(PathLeq, paths[i], paths[i + 1], paths[j]); }
    } else {
      assert !(paths[j + 1 - 1] <= paths[j + 1]);
      if paths[i] <= paths[j] {
        LexPrefix(PathLeq, paths[i], paths[j]);
        SortedBetween(paths, j, i);
      }
    }
  }

  lemma SortedBetween(paths: seq<Path>, j: nat, i: nat)
    requires Sorted(PathOrdered, paths) && j < i < |paths|
    requires PathOrdered(paths[i], paths[j])
    ensures paths[j] == paths[j + 1]
  {
    ComponentOrder();
    assert PathOrdered(paths[j], paths[j + 1]) && PathOrdered(paths[j + 1], paths[i]);
  }

  /** In component order the descendants of a path follow it in one block, so comparing
      neighbours finds every collision among all pairs. */
  lemma NeighboursFindEveryCollision(paths: seq<Path>)
    requires Sorted(PathOrdered, paths)
    ensures NeighboursPrefixFree(paths) <==> PrefixFree(paths)
  {
    ComponentOrder();
    if NeighboursPrefixFree(paths) {
      forall i, j | 0 <= i < |paths| && 0 <= j < |paths| && i != j ensures !(paths[i] <= paths[j]) {
        NeighbourShortens(paths, i, j);
      }
    }
  }

  /** Equal multisets are equally free of collisions: the sort loses nothing. */
  lemma PrefixFreeByMultiset(paths: seq<Path>)
    ensures PrefixFree(paths) <==>
              && (forall p :: p in multiset(paths) ==> multiset(paths)[p] == 1)
              && (forall p, q :: p in multiset(paths) && q in multiset(paths) && p <= q ==> p == q)
  {
    Singles(paths);
    var m := multiset(paths);
    if PrefixFree(paths) {
      forall p, q | p in m && q in m && p <= q ensures p == q {
        assert p in paths && q in paths;
        var i :| 0 <= i < |paths| && paths[i] == p;
        var j :| 0 <= j < |paths| && paths[j] == q;
      }
    } else {
      var i, j :| 0 <= i < |paths| && 0 <= j < |paths| && i != j && paths[i] <= paths[j];
      assert paths[i] in m && paths[j] in m;
    }
  }

  lemma SortedPrefixFree(paths: seq<Path>)
    ensures NeighboursPrefixFree(Sort(PathOrdered, paths)) <==> PrefixFree(paths)
  {
    ComponentOrder();
    SortSorts(PathOrdered, paths);
    SortMultiset(PathOrdered, paths);
    NeighboursFindEveryCollision(Sort(PathOrdered, paths));
    PrefixFreeByMultiset(paths);
    PrefixFreeByMultiset(Sort(PathOrdered, paths));
  }

  // ---- the whole check -------------------------------------------------------------------------

  /** What the listed files must satisfy together. */
  predicate FilesAcceptable(files: seq<FileInfo>, limits: Option<Limits>)
  {
    && files != []
    && (limits.Some? ==> |files| <= limits.value.maxFiles)
    && (forall i :: 0 <= i < |files| ==> GoodEntry(files[i], limits))
    && PrefixFree(PathsOf(files))
    && 0 < Total(files) < U64_LIMIT
    && (limits.Some? ==> Total(files) <= limits.value.maxTotalBytes)
  }

  /** What a single file, stored under the torrent's own name, must satisfy. */
  predicate SingleAcceptable(name: Name, length: u64, symlink: bool, limits: Option<Limits>)
  {
    && !symlink && length > 0
    && (limits.Some? ==>
          && limits.value.maxFiles >= 1 && limits.value.maxPathComponents >= 1
          && |name| <= limits.value.maxPathBytes && length <= limits.value.maxTotalBytes)
  }

  /** Exactly the metainfo that is let through. */
  predicate Acceptable(info: Info, limits: Option<Limits>)
  {
    && info.name.Some? && GoodName(info.name.value, limits)
    && match info.files
       case Some(files) => FilesAcceptable(files, limits)
       case None => info.length.Some? && SingleAcceptable(info.name.value, info.length.value, info.symlink, limits)
  }

  /** The checks of an entry before its components. */
  predicate HeaderFits(e: FileInfo, limits: Option<Limits>)
  {
    !e.symlink && e.path != [] && EntryFits(e, limits)
  }

  /** Checking `n` stops the program: it passes every rule in front of the slice. */
  predicate StopsAt(n: Name)
  {
    SafeComponent(n) && SplitsCharacter(n)
  }

  predicate EntryStops(e: FileInfo, limits: Option<Limits>)
  {
    HeaderFits(e, limits)
    && exists j :: 0 <= j < |e.path| && StopsAt(e.path[j]) && forall k :: 0 <= k < j ==> GoodName(e.path[k], limits)
  }

  predicate EntriesStop(entries: seq<FileInfo>, limits: Option<Limits>)
  {
    exists i :: 0 <= i < |entries| && EntryStops(entries[i], limits)
                && Total(entries[..i]) < U64_LIMIT && forall k :: 0 <= k < i ==> GoodEntry(entries[k], limits)
  }

  /** Exactly the metainfo that stops the program: in scan order, the first name that is not
      good is safe and splits a character, and everything scanned before it is within limits. */
  predicate Stops(info: Info, limits: Option<Limits>)
  {
    info.name.Some? &&
    (|| StopsAt(info.name.value)
     || (&& GoodName(info.name.value, limits)
         && info.files.Some?
         && (limits.Some? ==> |info.files.value| <= limits.value.maxFiles)
         && EntriesStop(info.files.value, limits)))
  }

  lemma SingleEntry(info: Info, limits: Option<Limits>)
    requires info.name.Some? && GoodName(info.name.value, limits) && info.files.None? && info.length.Some?
    ensures var entries := [FileInfo([info.name.value], info.length.value, info.symlink)];
      && Entries(info) == Ok(entries)
      && !EntriesStop(entries, limits)
      && (FilesAcceptable(entries, limits) <==> Acceptable(info, limits))
  {
    var e := FileInfo([info.name.value], info.length.value, info.symlink);
    hide SafeComponent, ComponentFits, SplitsCharacter;
    assert NameBytes(e.path) == |e.path[0]| by { assert e.path[..0] == []; }
    assert Total([e]) == e.length by { assert Sum([e][..0], LengthOf) == 0; }
    assert !EntryStops(e, limits) by { assert GoodName(e.path[0], limits); }
    assert GoodEntry(e, limits) <==> !e.symlink && EntryFits(e, limits);
    assert [e][0] == e && |[e]| == 1;
    hide GoodEntry, EntryStops, Total;
    assert PrefixFree(PathsOf([e]));
  }

  /** The entries scanned are the listed files, or the one file of the torrent's own name. */
  lemma EntriesDecide(info: Info, limits: Option<Limits>)
    requires info.name.Some? && GoodName(info.name.value, limits)
    ensures Entries(info).Err? ==> !Acceptable(info, limits) && !Stops(info, limits)
    ensures Entries(info).Ok? ==>
              && (Acceptable(info, limits) <==> FilesAcceptable(Entries(info).value, limits))
              && (Stops(info, limits) <==>
                    (limits.Some? ==> |Entries(info).value| <= limits.value.maxFiles)
                    && EntriesStop(Entries(info).value, limits))
  {
    hide SafeComponent, ComponentFits, GoodEntry, EntryStops, Total, PrefixFree;
    if info.files.None? && info.length.Some? { SingleEntry(info, limits); }
    hide SplitsCharacter;
  }

  // ---- what each fault says ----------------------------------------------------------------------

  predicate ExplainsEntry(e: FileInfo, limits: Option<Limits>, fault: Fault)
  {
    match fault
    case SymlinkEntry => e.symlink
    case EmptyPath => e.path == []
    case UnsafeComponent(name) => name in e.path && !SafeComponent(name)
    case LimitExceeded => !EntryFits(e, limits) || exists name :: name in e.path && !ComponentFits(name, limits)
    case _ => false
  }

  predicate ExplainsFiles(files: seq<FileInfo>, limits: Option<Limits>, fault: Fault)
  {
    match fault
    case LengthsOverflow => Total(files) >= U64_LIMIT
    case EmptyContent => Total(files) == 0
    case DuplicateFilePath(path) => exists i, j :: 0 <= i < j < |files| && files[i].path == files[j].path == path
    case PrefixPathCollision(directory, file) =>
      directory < file && (exists e :: e in files && e.path == directory) && exists e :: e in files && e.path == file
    case LimitExceeded =>
      || (limits.Some? && (|files| > limits.value.maxFiles || Total(files) > limits.value.maxTotalBytes))
      || exists e :: e in files && ExplainsEntry(e, limits, fault)
    case _ => exists e :: e in files && ExplainsEntry(e, limits, fault)
  }

  /** Every refusal is true of the metainfo. */
  predicate Explains(info: Info, limits: Option<Limits>, fault: Fault)
  {
    if info.name.None? then fault.MissingName?
    else if !SafeComponent(info.name.value) then fault == UnsafeComponent(info.name.value)
    else if !ComponentFits(info.name.value, limits) then fault.LimitExceeded?
    else match info.files
      case Some(files) => ExplainsFiles(files, limits, fault)
      case None =>
        match fault
        case MissingLength => info.length.None?
        case EmptyContent => info.length == Some(0)
        case SymlinkEntry => info.length.Some? && info.symlink
        case LimitExceeded =>
          && info.length.Some? && limits.Some?
          && (|| limits.value.maxFiles < 1 || limits.value.maxPathComponents < 1
              || |info.name.value| > limits.value.maxPathBytes || info.length.value > limits.value.maxTotalBytes)
        case _ => false
  }

  /** The letters a, b and U+00E9 make such a name, whatever the limits: its four bytes end inside the last
      character, although every rule in front of the slice is met. */
  lemma StoppingName(length: u64, limits: Option<Limits>)
    ensures var info := Info(Some([0x61, 0x62, 0xC3, 0xA9]), None, Some(length), false);
      Stops(info, limits) && !Acceptable(info, limits)
  {
    var n: Name := [0x61, 0x62, 0xC3, 0xA9];
    assert Stem(n) == n;
    assert n[1..] == [0x62, 0xC3, 0xA9] && n[1..][1..] == [0xC3, 0xA9] && n[2..] == [0xC3, 0xA9] && n[2..][2..] == [];
    assert ScalarWidth(n) == 1 && ScalarWidth(n[1..]) == 1 && ScalarWidth(n[2..]) == 2;
    assert UpperAll(n)[0] == 'A' as int && UpperAll(n)[3] == 0xA9;
  }

  lemma HeaderExplains(e: FileInfo, limits: Option<Limits>)
    ensures e.symlink ==> ExplainsEntry(e, limits, SymlinkEntry)
    ensures e.path == [] ==> ExplainsEntry(e, limits, EmptyPath)
    ensures !EntryFits(e, limits) ==> ExplainsEntry(e, limits, LimitExceeded)
  {
  }

  lemma NameExplains(e: FileInfo, k: nat, limits: Option<Limits>)
    requires k < |e.path| && ComponentCheck(e.path[k], limits).Rejected?
    ensures ExplainsEntry(e, limits, ComponentCheck(e.path[k], limits).fault)
  {
    ComponentCheckMeaning(e.path[k], limits);
    hide ComponentCheck, SafeComponent, ComponentFits, SplitsCharacter, EntryFits;
    assert e.path[k] in e.path;
  }

  /** The scan of an entry ends at its first name that is not good. */
  lemma EntryEndsAt(e: FileInfo, k: nat, limits: Option<Limits>)
    requires HeaderFits(e, limits) && k <= |e.path| && forall l :: 0 <= l < k ==> GoodName(e.path[l], limits)
    ensures k == |e.path| ==> GoodEntry(e, limits) && !EntryStops(e, limits)
    ensures k < |e.path| && !GoodName(e.path[k], limits) ==>
              !GoodEntry(e, limits) && (EntryStops(e, limits) <==> StopsAt(e.path[k]))
  {
    hide SafeComponent, ComponentFits, SplitsCharacter, EntryFits;
    if k == |e.path| { GoodEntriesGoOn(e, limits); }
  }

  lemma HeaderDecides(e: FileInfo, limits: Option<Limits>)
    requires !HeaderFits(e, limits)
    ensures !GoodEntry(e, limits) && !EntryStops(e, limits)
  {
  }

  method ScanEntry(e: FileInfo, limits: Option<Limits>) returns (v: Verdict)
    ensures v == Accepted <==> GoodEntry(e, limits)
    ensures v == Panicked <==> EntryStops(e, limits)
    ensures v.Rejected? ==> ExplainsEntry(e, limits, v.fault)
  {
    HeaderExplains(e, limits);
    if !HeaderFits(e, limits) { HeaderDecides(e, limits); }
    hide ExplainsEntry, GoodEntry, EntryStops;
    if e.symlink {
      return Rejected(SymlinkEntry);
    }
    if e.path == [] {
      return Rejected(EmptyPath);
    }
    if limits.Some? {
      if |e.path| > limits.value.maxPathComponents {
        return Rejected(LimitExceeded);
      }
      if NameBytes(e.path) + |e.path| - 1 > limits.value.maxPathBytes {
        return Rejected(LimitExceeded);
      }
    }
    hide SafeComponent, SplitsCharacter, ComponentFits, ComponentCheck;
    for k := 0 to |e.path|
      invariant forall l :: 0 <= l < k ==> GoodName(e.path[l], limits)
    {
      ComponentCheckMeaning(e.path[k], limits);
      v := ComponentCheck(e.path[k], limits);
      if v != Accepted {
        if v.Rejected? { NameExplains(e, k, limits); }
        EntryEndsAt(e, k, limits);
        return v;
      }
    }
    EntryEndsAt(e, |e.path|, limits);
    return Accepted;
  }

  lemma GoodEntriesGoOn(e: FileInfo, limits: Option<Limits>)
    ensures GoodEntry(e, limits) ==> !EntryStops(e, limits)
  {
    hide SafeComponent, SplitsCharacter, ComponentFits;
  }

  /** The scan ends at the first entry that is not good. */
  lemma StoppedHere(entries: seq<FileInfo>, i: nat, limits: Option<Limits>)
    requires i < |entries| && !GoodEntry(entries[i], limits)
    requires Total(entries[..i]) < U64_LIMIT && forall k :: 0 <= k < i ==> GoodEntry(entries[k], limits)
    ensures EntriesStop(entries, limits) <==> EntryStops(entries[i], limits)
  {
    hide GoodEntry, EntryStops;
    forall k | 0 <= k < i ensures !EntryStops(entries[k], limits) {
      GoodEntriesGoOn(entries[k], limits);
    }
  }

  lemma OverflowedHere(entries: seq<FileInfo>, i: nat, limits: Option<Limits>)
    requires i < |entries| && Total(entries[..i + 1]) >= U64_LIMIT
    requires forall k :: 0 <= k <= i ==> GoodEntry(entries[k], limits)
    ensures !EntriesStop(entries, limits)
  {
    hide GoodEntry, EntryStops;
    forall k | 0 <= k < |entries| ensures !EntryStops(entries[k], limits) || Total(entries[..k]) >= U64_LIMIT {
      if k <= i {
        GoodEntriesGoOn(entries[k], limits);
      } else {
        SumGrows(entries[..k], LengthOf, i + 1);
        assert entries[..k][..i + 1] == entries[..i + 1];
      }
    }
  }

  lemma GoodListsGoOn(entries: seq<FileInfo>, limits: Option<Limits>)
    requires forall i :: 0 <= i < |entries| ==> GoodEntry(entries[i], limits)
    ensures !EntriesStop(entries, limits)
  {
    hide GoodEntry, EntryStops;
    forall k | 0 <= k < |entries| ensures !EntryStops(entries[k], limits) {
      GoodEntriesGoOn(entries[k], limits);
    }
  }

  /** The entry loop and its running total, which equals the true sum and never wraps. */
  method ScanEntries(entries: seq<FileInfo>, limits: Option<Limits>) returns (v: Verdict, total: u64)
    ensures v == Accepted <==>
            (forall i :: 0 <= i < |entries| ==> GoodEntry(entries[i], limits)) && Total(entries) < U64_LIMIT
    ensures v == Accepted ==> total == Total(entries)
    ensures v == Panicked <==> EntriesStop(entries, limits)
    ensures v.Rejected? ==> ExplainsFiles(entries, limits, v.fault)
    ensures v.Rejected? ==> !v.fault.DuplicateFilePath? && !v.fault.PrefixPathCollision? && !v.fault.EmptyContent?
  {
    hide GoodEntry, EntryStops, ExplainsFiles;
    total := 0;
    for i := 0 to |entries|
      invariant total == Total(entries[..i])
      invariant forall k :: 0 <= k < i ==> GoodEntry(entries[k], limits)
    {
      v := ScanEntry(entries[i], limits);
      GoodEntriesGoOn(entries[i], limits);
      if v != Accepted {
        StoppedHere(entries, i, limits);
        if v.Rejected? { EntryExplains(entries, i, limits, v.fault); }
        return;
      }
      SumStep(entries, LengthOf, i);
      if total + entries[i].length >= U64_LIMIT {
        OverflowedHere(entries, i, limits);
        OverflowExplains(entries, limits);
        return Rejected(LengthsOverflow), total;
      }
      total := total + entries[i].length;
    }
    assert entries[..|entries|] == entries;
    GoodListsGoOn(entries, limits);
    v := Accepted;
  }

  lemma EntryExplains(entries: seq<FileInfo>, i: nat, limits: Option<Limits>, fault: Fault)
    requires i < |entries| && ExplainsEntry(entries[i], limits, fault)
    ensures ExplainsFiles(entries, limits, fault)
    ensures !fault.DuplicateFilePath? && !fault.PrefixPathCollision? && !fault.EmptyContent?
  {
    assert entries[i] in entries;
  }

  lemma OverflowExplains(entries: seq<FileInfo>, limits: Option<Limits>)
    requires Total(entries) >= U64_LIMIT
    ensures ExplainsFiles(entries, limits, LengthsOverflow)
  {
  }

  /** The neighbour loop over the sorted paths names an actual colliding pair. */
  method ScanPaths(paths: seq<Path>) returns (collision: Option<Fault>)
    ensures collision.None? <==> NeighboursPrefixFree(paths)
    ensures collision.Some? ==>
      match collision.value
      case DuplicateFilePath(p) => exists i, j :: 0 <= i < j < |paths| && paths[i] == paths[j] == p
      case PrefixPathCollision(d, f) => d in paths && f in paths && d < f
      case _ => false
  {
    var i := 1;
    while i < |paths|
      invariant i >= 1
      invariant forall k :: 0 < k < i && k < |paths| ==> !(paths[k - 1] <= paths[k])
    {
      if paths[i - 1] == paths[i] {
        assert paths[i - 1] <= paths[i];
        return Some(DuplicateFilePath(paths[i - 1]));
      }
      if paths[i - 1] <= paths[i] {
        return Some(PrefixPathCollision(paths[i - 1], paths[i]));
      }
      i := i + 1;
    }
    return None;
  }

  lemma {:induction false} TwicePlaced(s: seq<Path>, p: Path)
    ensures multiset(s)[p] >= 1 ==> p in s
    ensures multiset(s)[p] >= 2 ==> exists i, j :: 0 <= i < j < |s| && s[i] == s[j] == p
  {
    if s != [] && s[0] == p {
      assert s == [p] + s[1..];
      if multiset(s)[p] >= 2 {
        assert p in multiset(s[1..]);
        var j :| 0 <= j < |s| - 1 && s[1..][j] == p;
        assert s[0] == s[j + 1] == p;
      }
    } else if s != [] {
      assert s == [s[0]] + s[1..] && multiset(s)[p] == multiset(s[1..])[p];
      TwicePlaced(s[1..], p);
      if multiset(s)[p] >= 2 {
        var i, j :| 0 <= i < j < |s| - 1 && s[1..][i] == s[1..][j] == p;
        assert s[i + 1] == s[j + 1] == p;
      }
    }
  }

  lemma ListedPath(files: seq<FileInfo>, p: Path)
    ensures p in PathsOf(files) <==> exists e :: e in files && e.path == p
  {
    if p in PathsOf(files) {
      var i :| 0 <= i < |files| && PathsOf(files)[i] == p;
      assert files[i] in files;
    }
    if e :| e in files && e.path == p {
      var i :| 0 <= i < |files| && files[i] == e;
      assert PathsOf(files)[i] == p;
    }
  }

  /** The collision found among the sorted paths is one among the files. */
  lemma CollisionExplains(files: seq<FileInfo>, paths: seq<Path>, limits: Option<Limits>, fault: Fault)
    requires multiset(paths) == multiset(PathsOf(files))
    requires match fault
             case DuplicateFilePath(p) => exists i, j :: 0 <= i < j < |paths| && paths[i] == paths[j] == p
             case PrefixPathCollision(d, f) => d in paths && f in paths && d < f
             case _ => false
    ensures ExplainsFiles(files, limits, fault)
  {
    if fault.DuplicateFilePath? {
      DuplicateCount(paths, fault.path);
      TwicePlaced(PathsOf(files), fault.path);
      var i, j :| 0 <= i < j < |files| && PathsOf(files)[i] == PathsOf(files)[j] == fault.path;
      assert files[i].path == files[j].path == fault.path;
    } else {
      assert fault.directory in multiset(paths) && fault.file in multiset(paths);
      TwicePlaced(PathsOf(files), fault.directory);
      TwicePlaced(PathsOf(files), fault.file);
      ListedPath(files, fault.directory);
      ListedPath(files, fault.file);
    }
  }

  lemma FaultExplained(info: Info, limits: Option<Limits>, fault: Fault)
    requires info.name.Some? && GoodName(info.name.value, limits)
    requires Entries(info).Ok? && ExplainsFiles(Entries(info).value, limits, fault)
    ensures Explains(info, limits, fault)
  {
    if info.files.None? {
      hide SafeComponent, SplitsCharacter;
      var e := FileInfo([info.name.value], info.length.value, info.symlink);
      assert NameBytes(e.path) == |e.path[0]| by { assert e.path[..0] == []; }
      assert Total([e]) == e.length by { assert Sum([e][..0], LengthOf) == 0; }
      hide Total;
    }
  }

  /** `validate_metainfo`. */
  method ValidateMetainfo(info: Info, limits: Option<Limits>) returns (v: Verdict)
    ensures v == Accepted <==> Acceptable(info, limits)
    ensures v == Panicked <==> Stops(info, limits)
    ensures v.Rejected? ==> Explains(info, limits, v.fault)
  {
    hide SafeComponent, ComponentFits, SplitsCharacter, PrefixFree, NeighboursPrefixFree, GoodEntry, EntriesStop,
         Total, Sort, FilesAcceptable, SingleAcceptable, ExplainsFiles;
    if info.name.None? {
      return Rejected(MissingName);
    }
    ComponentCheckMeaning(info.name.value, limits);
    v := ComponentCheck(info.name.value, limits);
    if v != Accepted {
      return;
    }
    EntriesDecide(info, limits);
    hide ComponentCheck, Acceptable, Stops;
    var listed := Entries(info);
    if listed.Err? {
      NothingListed(info, limits);
      return Rejected(listed.error);
    }
    hide Entries, Explains;
    var entries := listed.value;
    forall fault ensures ExplainsFiles(entries, limits, fault) ==> Explains(info, limits, fault) {
      if ExplainsFiles(entries, limits, fault) { FaultExplained(info, limits, fault); }
    }
    v := ValidateEntries(entries, limits);
  }

  lemma NothingListed(info: Info, limits: Option<Limits>)
    requires info.name.Some? && GoodName(info.name.value, limits) && Entries(info).Err?
    ensures Explains(info, limits, Entries(info).error)
  {
    assert info.files.Some? ==> Total(info.files.value) == 0;
  }

  /** The rest of `validate_metainfo`, once the entries are at hand. */
  method ValidateEntries(entries: seq<FileInfo>, limits: Option<Limits>) returns (v: Verdict)
    requires entries != []
    ensures v == Accepted <==> FilesAcceptable(entries, limits)
    ensures v == Panicked <==>
              (limits.Some? ==> |entries| <= limits.value.maxFiles) && EntriesStop(entries, limits)
    ensures v.Rejected? ==> ExplainsFiles(entries, limits, v.fault)
  {
    hide PrefixFree, NeighboursPrefixFree, GoodEntry, EntryStops, Total, Sort;
    if limits.Some? && |entries| > limits.value.maxFiles {
      return Rejected(LimitExceeded);
    }
    var total;
    v, total := ScanEntries(entries, limits);
    if v != Accepted {
      return;
    }
    GoodListsGoOn(entries, limits);
    hide EntriesStop;
    var paths := Sort(PathOrdered, PathsOf(entries));
    var collision := ScanPaths(paths);
    SortedPrefixFree(PathsOf(entries));
    if collision.Some? {
      SortMultiset(PathOrdered, PathsOf(entries));
      CollisionExplains(entries, paths, limits, collision.value);
      return Rejected(collision.value);
    }
    if total == 0 {
      return Rejected(EmptyContent);
    }
    if limits.Some? && total > limits.value.maxTotalBytes {
      return Rejected(LimitExceeded);
    }
    return Accepted;
  }

  lemma DuplicateCount(paths: seq<Path>, p: Path)
    requires exists i, j :: 0 <= i < j < |paths| && paths[i] == paths[j] == p
    ensures multiset(paths)[p] >= 2
  {
    var i, j :| 0 <= i < j < |paths| && paths[i] == paths[j] == p;
    assert paths == paths[..j] + paths[j..];
    assert paths[..j][i] in multiset(paths[..j]);
    assert paths[j..][0] in multiset(paths[j..]);
  }
}
