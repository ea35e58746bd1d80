/** What each refusal of the manifest code says about its input: the fault named by validation and
    construction, the error of the strict decoder, and why bytes do not verify. */
module ManifestRefusals {
  import opened Bytes
  import opened Order
  import opened Outcomes
  import opened Sequences
  import opened LogicalPath
  import opened DatasetManifest

  // ---- validation -----------------------------------------------------------------------------

  /** Path `i` is at fault with respect to its neighbour in front, in the order of the checks. */
  predicate FaultAt(paths: seq<seq<byte>>, i: nat, fault: Fault)
    requires i < |paths|
  {
    match fault
    case InvalidPath(path) => path == paths[i] && !PortablePath(path)
    case NotSorted => PortablePath(paths[i]) && i > 0 && PathLeq(paths[i], paths[i - 1])
    case FileUsedAsDirectory =>
      PortablePath(paths[i]) && i > 0 && PathLess(paths[i - 1], paths[i]) && Below(paths[i - 1], paths[i])
    case _ => false
  }

  ghost predicate FirstFault(paths: seq<seq<byte>>, i: nat, fault: Fault)
  {
    i < |paths| && Chained(paths[..i]) && FaultAt(paths, i, fault)
  }

  lemma ChainedOneMore(paths: seq<seq<byte>>, k: nat)
    requires k < |paths| && Chained(paths[..k])
    ensures Chained(paths[..k + 1]) <==> forall f :: !FaultAt(paths, k, f)
  {
    hide PortablePath, Below, PathLeq;
    var more := paths[..k + 1];
    assert forall i :: 0 <= i < k ==> more[i] == paths[..k][i];
    assert more[k] == paths[k];
    if Chained(more) {
      assert PortablePath(more[k]) && (k > 0 ==> PathLess(more[k - 1], more[k]) && !Below(more[k - 1], more[k]));
    } else if PortablePath(paths[k]) {
      assert k > 0 && (FaultAt(paths, k, NotSorted) || FaultAt(paths, k, FileUsedAsDirectory)) by {
        if k > 0 && PathLess(paths[k - 1], paths[k]) && !Below(paths[k - 1], paths[k]) {
          forall i | 0 < i < |more| ensures PathLess(more[i - 1], more[i]) && !Below(more[i - 1], more[i]) {
            if i < k { assert PathLess(paths[..k][i - 1], paths[..k][i]); }
          }
        }
      }
    } else {
      assert FaultAt(paths, k, InvalidPath(paths[k]));
    }
  }

  lemma ChainedPrefix(paths: seq<seq<byte>>, k: nat)
    requires k <= |paths| && Chained(paths)
    ensures Chained(paths[..k])
  {
    hide PortablePath, Below, PathLeq;
  }

  lemma {:induction false} PathFaultFrom(paths: seq<seq<byte>>, k: nat, fault: Fault)
    requires k <= |paths| && Chained(paths[..k])
    ensures var previous := if k == 0 then None else Some(paths[k - 1]);
      PathFault(paths[k..], previous) == Some(fault) <==> exists i :: i >= k && FirstFault(paths, i, fault)
    decreases |paths| - k
  {
    hide PortablePath, Below, PathLeq, Chained;
    if k < |paths| {
      ChainedOneMore(paths, k);
      assert paths[k..][0] == paths[k] && paths[k..][1..] == paths[k + 1..];
      if forall f :: !FaultAt(paths, k, f) {
        PathFaultFrom(paths, k + 1, fault);
        assert !FaultAt(paths, k, InvalidPath(paths[k])) && !FaultAt(paths, k, NotSorted);
        assert !FaultAt(paths, k, FileUsedAsDirectory);
        assert forall i :: FirstFault(paths, i, fault) ==> i != k;
      } else {
        forall i | i > k && FirstFault(paths, i, fault) ensures false {
          assert paths[..i][..k + 1] == paths[..k + 1];
          ChainedPrefix(paths[..i], k + 1);
        }
        if FaultAt(paths, k, fault) { assert FirstFault(paths, k, fault); }
      }
    }
  }

  /** Validation names the zero timestamp before the number of objects, and both before the first
      path at fault, for what is wrong with that path first. */
  lemma ValidationNames(m: Manifest, fault: Fault)
    ensures Validation(m) == Some(fault) <==>
              match fault
              case ZeroTimestamp => m.createdAt == 0
              case TooManyObjects => m.createdAt > 0 && |m.objects| > 100_000
              case _ =>
                && m.createdAt > 0 && |m.objects| <= 100_000
                && exists i :: FirstFault(Paths(m.objects), i, fault)
  {
    var paths := Paths(m.objects);
    assert Chained(paths[..0]);
    hide PathFault, Chained, PortablePath, PathLeq, Below;
    PathFaultFrom(paths, 0, fault);
    assert paths[0..] == paths;
  }

  // ---- construction ---------------------------------------------------------------------------

  /** What a refused construction says about the entries handed in. */
  ghost predicate Explains(createdAt: u64, objects: Objects, fault: Fault)
  {
    match fault
    case ZeroTimestamp => createdAt == 0
    case TooManyObjects => createdAt > 0 && |objects| > 100_000
    case InvalidPath(path) => !PortablePath(path) && exists o :: o in objects && o.path == path
    case NotSorted => exists i, j :: 0 <= i < j < |objects| && objects[i].path == objects[j].path
    case FileUsedAsDirectory => exists a, b :: a in objects && b in objects && Below(a.path, b.path)
  }

  lemma SortedMember(objects: Objects, i: nat) returns (o: Object)
    requires i < |objects|
    ensures o in objects && o.path == Paths(Sort(ObjectLeq, objects))[i]
  {
    o := Sort(ObjectLeq, objects)[i];
    SortMembers(ObjectLeq, objects, o);
  }

  lemma SortedRepeat(objects: Objects, sorted: seq<Object>, i: nat)
    requires sorted == Sort(ObjectLeq, objects) && 0 < i < |sorted|
    requires PathLeq(sorted[i].path, sorted[i - 1].path)
    ensures exists j, k :: 0 <= j < k < |objects| && objects[j].path == objects[k].path
  {
    SortMultiset(ObjectLeq, objects);
    ObjectOrder();
    SortSorts(ObjectLeq, objects);
    hide Sort, PathLeq;
    assert ObjectLeq(sorted[i - 1], sorted[i]);
    BothWays(sorted[i - 1].path, sorted[i].path);
    assert Paths(sorted)[i - 1] == Paths(sorted)[i];
    RepeatedPath(sorted, objects);
  }

  lemma BothWays(a: seq<byte>, b: seq<byte>)
    requires PathLeq(a, b) && PathLeq(b, a)
    ensures a == b
  {
    PathOrder();
  }

  lemma RepeatedPath(sorted: seq<Object>, objects: seq<Object>)
    requires multiset(sorted) == multiset(objects)
    requires exists j, k :: 0 <= j < k < |sorted| && Paths(sorted)[j] == Paths(sorted)[k]
    ensures exists j, k :: 0 <= j < k < |objects| && objects[j].path == objects[k].path
  {
    MappedIgnoresOrder(sorted, objects, EntryPath);
    Singles(Paths(sorted));
    Singles(Paths(objects));
    var j, k :| 0 <= j < k < |objects| && Paths(objects)[j] == Paths(objects)[k];
    assert objects[j].path == objects[k].path;
  }

  /** Every refusal of the construction is true of the entries, and the first two are never
      missed. */
  lemma NewRefuses(publisher: Bytes32, createdAt: u64, objects: Objects)
    ensures New(publisher, createdAt, objects).Err? ==>
              Explains(createdAt, objects, New(publisher, createdAt, objects).error)
    ensures createdAt == 0 ==> New(publisher, createdAt, objects) == Err(ZeroTimestamp)
    ensures createdAt > 0 && |objects| > 100_000 ==> New(publisher, createdAt, objects) == Err(TooManyObjects)
  {
    var m := Manifest(publisher, createdAt, Sort(ObjectLeq, objects));
    if Validation(m).Some? {
      var fault := Validation(m).value;
      ValidationNames(m, fault);
      hide Validation, Chained, PortablePath, Below, PathLeq, Sort;
      if !fault.ZeroTimestamp? && !fault.TooManyObjects? {
        var i: nat :| FirstFault(Paths(m.objects), i, fault);
        var o := SortedMember(objects, i);
        if fault.NotSorted? { SortedRepeat(objects, m.objects, i); }
        if fault.FileUsedAsDirectory? { var p := SortedMember(objects, i - 1); }
      }
    }
  }

  // ---- strict decoding ------------------------------------------------------------------------

  /** The input ends inside the object that begins here. */
  predicate CutShort(tail: seq<byte>)
  {
    || |tail| < 8
    || |tail| - 8 < U64FromBytes(tail[..8])
    || (ValidUtf8(tail[8..8 + U64FromBytes(tail[..8])]) && |tail| - 8 - U64FromBytes(tail[..8]) < 40)
  }

  /** The object that begins here has a path that is not UTF-8. */
  predicate BadText(tail: seq<byte>)
  {
    && |tail| >= 8 && |tail| - 8 >= U64FromBytes(tail[..8])
    && !ValidUtf8(tail[8..8 + U64FromBytes(tail[..8])])
  }

  lemma ObjectErrors(tail: seq<byte>)
    ensures DecodeObject(tail) == Err(Truncated) <==> CutShort(tail)
    ensures DecodeObject(tail) == Err(PathNotUtf8) <==> BadText(tail)
    ensures DecodeObject(tail).Err? ==> DecodeObject(tail).error in [Truncated, PathNotUtf8]
  {
    hide ValidUtf8;
    if |tail| >= 8 && |tail| - 8 >= U64FromBytes(tail[..8]) {
      var length := U64FromBytes(tail[..8]);
      assert tail[8..][..length] == tail[8..8 + length];
    }
  }

  ghost predicate StopsAt(cursor: seq<byte>, count: nat, objects: seq<Object>, tail: seq<byte>, e: DecodeError)
  {
    |objects| < count && cursor == EncodeObjects(objects) + tail && DecodeObject(tail) == Err(e)
  }

  lemma {:induction false} StopReported(cursor: seq<byte>, count: nat, objects: seq<Object>, tail: seq<byte>,
                                        e: DecodeError)
    requires StopsAt(cursor, count, objects, tail, e)
    ensures DecodeObjects(cursor, count) == Err(e)
    decreases count
  {
    hide DecodeObject, EncodeObject;
    if objects == [] {
      assert cursor == tail;
    } else {
      var rest := EncodeObjects(objects[1..]) + tail;
      Assoc(EncodeObject(objects[0]), EncodeObjects(objects[1..]), tail);
      DecodeObjectComplete(objects[0], rest);
      StopReported(rest, count - 1, objects[1..], tail, e);
    }
  }

  lemma {:induction false} StopFound(cursor: seq<byte>, count: nat) returns (objects: seq<Object>, tail: seq<byte>)
    requires DecodeObjects(cursor, count).Err?
    ensures StopsAt(cursor, count, objects, tail, DecodeObjects(cursor, count).error)
    decreases count
  {
    hide DecodeObject, EncodeObject;
    if DecodeObject(cursor).Err? {
      objects, tail := [], cursor;
      assert EncodeObjects([]) + cursor == cursor;
    } else {
      var first := DecodeObject(cursor).value;
      DecodeObjectSound(cursor);
      var others;
      others, tail := StopFound(first.1, count - 1);
      objects := [first.0] + others;
      EncodeCons(first.0, others, tail);
    }
  }

  predicate Prefixed(bytes: seq<byte>)
  {
    |bytes| >= 32 && bytes[..32] == Prefix()
  }

  predicate Keyed(c: Crypto, bytes: seq<byte>)
  {
    Prefixed(bytes) && |bytes| >= 64 && c.validKey(bytes[32..64])
  }

  predicate Counted(c: Crypto, bytes: seq<byte>)
  {
    Keyed(c, bytes) && |bytes| >= 80 && U64FromBytes(bytes[72..80]) <= 100_000
  }

  /** The objects in front of `tail` could be read, and more were announced. */
  predicate ReadUpTo(c: Crypto, bytes: seq<byte>, objects: seq<Object>, tail: seq<byte>)
  {
    && Counted(c, bytes) && |objects| < U64FromBytes(bytes[72..80])
    && bytes[80..] == EncodeObjects(objects) + tail
  }

  /** The input is a whole manifest, valid or not, and `rest`. */
  predicate ReadWhole(c: Crypto, bytes: seq<byte>, m: Manifest, rest: seq<byte>)
  {
    c.validKey(m.publisher) && |m.objects| <= 100_000 && bytes == Encode(m) + rest
  }

  /** The decoder reads the input from its front: each error is given exactly when everything
      before that point could be read. */
  ghost predicate Refuses(c: Crypto, bytes: seq<byte>, e: DecodeError)
  {
    match e
    case Truncated =>
      || |bytes| < 32 || (Prefixed(bytes) && |bytes| < 64) || (Keyed(c, bytes) && |bytes| < 80)
      || exists objects, tail :: ReadUpTo(c, bytes, objects, tail) && CutShort(tail)
    case UnsupportedPrefix => |bytes| >= 32 && !Prefixed(bytes)
    case InvalidPublisher => Prefixed(bytes) && |bytes| >= 64 && !Keyed(c, bytes)
    case CountExceedsLimit => Keyed(c, bytes) && |bytes| >= 80 && !Counted(c, bytes)
    case PathNotUtf8 => exists objects, tail :: ReadUpTo(c, bytes, objects, tail) && BadText(tail)
    case TrailingBytes => exists m, rest :: ReadWhole(c, bytes, m, rest) && rest != []
    case Invalid(fault) => exists m :: ReadWhole(c, bytes, m, []) && Validation(m) == Some(fault)
  }

  lemma DecodeFlat(c: Crypto, bytes: seq<byte>)
    ensures |bytes| < 32 || (Prefixed(bytes) && |bytes| < 64) || (Keyed(c, bytes) && |bytes| < 80) ==>
              Decode(c, bytes) == Err(Truncated)
    ensures |bytes| >= 32 && !Prefixed(bytes) ==> Decode(c, bytes) == Err(UnsupportedPrefix)
    ensures Prefixed(bytes) && |bytes| >= 64 && !Keyed(c, bytes) ==> Decode(c, bytes) == Err(InvalidPublisher)
    ensures Keyed(c, bytes) && |bytes| >= 80 && !Counted(c, bytes) ==> Decode(c, bytes) == Err(CountExceedsLimit)
    ensures Counted(c, bytes) ==>
      Decode(c, bytes) ==
      match DecodeObjects(bytes[80..], U64FromBytes(bytes[72..80]))
      case Err(e) => Err(e)
      case Ok((objects, rest)) =>
        if rest != [] then Err(TrailingBytes)
        else match Validation(Manifest(bytes[32..64], U64FromBytes(bytes[64..72]), objects))
          case None => Ok(Manifest(bytes[32..64], U64FromBytes(bytes[64..72]), objects))
          case Some(fault) => Err(Invalid(fault))
  {
    hide Validation, DecodeObjects, U64FromBytes, Prefix;
    if |bytes| >= 32 {
      var body := bytes[32..];
      if |bytes| >= 64 { assert body[..32] == bytes[32..64] && body[32..] == bytes[64..]; }
      if |bytes| >= 80 {
        assert bytes[64..][..8] == bytes[64..72] && bytes[64..][8..] == bytes[72..];
        assert bytes[72..][..8] == bytes[72..80] && bytes[72..][8..] == bytes[80..];
      }
    }
  }

  lemma WholeSlices(c: Crypto, bytes: seq<byte>, m: Manifest, rest: seq<byte>)
    requires ReadWhole(c, bytes, m, rest)
    ensures Counted(c, bytes) && bytes[32..64] == m.publisher
    ensures U64FromBytes(bytes[64..72]) == m.createdAt && U64FromBytes(bytes[72..80]) == |m.objects|
    ensures bytes[80..] == EncodeObjects(m.objects) + rest
  {
    hide Prefix, EncodeObjects, U64Bytes, U64FromBytes;
    U64RoundTrip(m.createdAt);
    U64RoundTrip(|m.objects|);
    var created, count, tail := U64Bytes(m.createdAt), U64Bytes(|m.objects|), EncodeObjects(m.objects) + rest;
    Rejoined(m, rest);
    FiveParts(Prefix(), m.publisher, created, count, tail);
  }

  lemma FiveParts(a: seq<byte>, b: seq<byte>, c: seq<byte>, d: seq<byte>, e: seq<byte>)
    requires |a| == |b| == 32 && |c| == |d| == 8
    ensures var s := a + b + c + d + e;
      s[..32] == a && s[32..64] == b && s[64..72] == c && s[72..80] == d && s[80..] == e
  {
  }

  lemma WholeRead(c: Crypto, bytes: seq<byte>, m: Manifest, rest: seq<byte>)
    ensures ReadWhole(c, bytes, m, rest) <==>
              && Counted(c, bytes) && m.publisher == bytes[32..64] && m.createdAt == U64FromBytes(bytes[64..72])
              && DecodeObjects(bytes[80..], U64FromBytes(bytes[72..80])) == Ok((m.objects, rest))
  {
    hide Prefix, EncodeObjects, DecodeObjects, U64Bytes, U64FromBytes;
    if ReadWhole(c, bytes, m, rest) {
      WholeSlices(c, bytes, m, rest);
      DecodeObjectsComplete(m.objects, rest);
    }
    if Counted(c, bytes) && m.publisher == bytes[32..64] && m.createdAt == U64FromBytes(bytes[64..72])
       && DecodeObjects(bytes[80..], U64FromBytes(bytes[72..80])) == Ok((m.objects, rest)) {
      DecodeObjectsSound(bytes[80..], U64FromBytes(bytes[72..80]));
      U64Canonical(bytes[64..72]);
      U64Canonical(bytes[72..80]);
      assert bytes == bytes[..32] + bytes[32..64] + bytes[64..72] + bytes[72..80] + bytes[80..];
      Rejoined(m, rest);
    }
  }

  lemma Rejoined(m: Manifest, rest: seq<byte>)
    ensures Encode(m) + rest ==
              Prefix() + m.publisher + U64Bytes(m.createdAt) + U64Bytes(|m.objects|) + (EncodeObjects(m.objects) + rest)
  {
    hide Prefix, EncodeObjects, U64Bytes;
  }

  lemma ObjectsRefused(c: Crypto, bytes: seq<byte>, e: DecodeError)
    requires Counted(c, bytes) && (e.Truncated? || e.PathNotUtf8?)
    ensures DecodeObjects(bytes[80..], U64FromBytes(bytes[72..80])) == Err(e) <==>
              exists objects, tail :: ReadUpTo(c, bytes, objects, tail) && DecodeObject(tail) == Err(e)
  {
    hide DecodeObject, DecodeObjects, EncodeObjects, U64FromBytes;
    var cursor, count := bytes[80..], U64FromBytes(bytes[72..80]);
    if DecodeObjects(cursor, count) == Err(e) {
      var objects, tail := StopFound(cursor, count);
      assert ReadUpTo(c, bytes, objects, tail);
    }
    if objects, tail :| ReadUpTo(c, bytes, objects, tail) && DecodeObject(tail) == Err(e) {
      StopReported(cursor, count, objects, tail, e);
    }
  }

  lemma ObjectsErrors(cursor: seq<byte>, count: nat)
    requires DecodeObjects(cursor, count).Err?
    ensures DecodeObjects(cursor, count).error in [Truncated, PathNotUtf8]
  {
    var objects, tail := StopFound(cursor, count);
    ObjectErrors(tail);
  }

  /** The decoder answers an error exactly when that error is true of the input. */
  lemma DecodeRefuses(c: Crypto, bytes: seq<byte>, e: DecodeError)
    ensures Decode(c, bytes) == Err(e) <==> Refuses(c, bytes, e)
  {
    DecodeFlat(c, bytes);
    hide Decode, DecodeObjects, DecodeObject, EncodeObjects, Encode, Validation, U64FromBytes, Prefix;
    hide ReadWhole, CutShort, BadText;
    forall m, rest ensures ReadWhole(c, bytes, m, rest) ==> Counted(c, bytes) {
      WholeRead(c, bytes, m, rest);
    }
    if Counted(c, bytes) {
      var read := DecodeObjects(bytes[80..], U64FromBytes(bytes[72..80]));
      ObjectsRefused(c, bytes, Truncated);
      ObjectsRefused(c, bytes, PathNotUtf8);
      forall tail ensures DecodeObject(tail) == Err(Truncated) <==> CutShort(tail)
                  ensures DecodeObject(tail) == Err(PathNotUtf8) <==> BadText(tail)
      {
        ObjectErrors(tail);
      }
      if read.Err? {
        ObjectsErrors(bytes[80..], U64FromBytes(bytes[72..80]));
        forall m, rest ensures !ReadWhole(c, bytes, m, rest) { WholeRead(c, bytes, m, rest); }
      } else {
        WholeRefused(c, bytes, e);
      }
    }
  }

  lemma WholeRefused(c: Crypto, bytes: seq<byte>, e: DecodeError)
    requires Counted(c, bytes) && DecodeObjects(bytes[80..], U64FromBytes(bytes[72..80])).Ok?
    ensures var (objects, rest) := DecodeObjects(bytes[80..], U64FromBytes(bytes[72..80])).value;
      var m := Manifest(bytes[32..64], U64FromBytes(bytes[64..72]), objects);
      && ((exists x, r :: ReadWhole(c, bytes, x, r) && r != []) <==> rest != [])
      && (e.Invalid? ==>
            ((exists x :: ReadWhole(c, bytes, x, []) && Validation(x) == Some(e.fault)) <==>
             rest == [] && Validation(m) == Some(e.fault)))
  {
    hide DecodeObjects, EncodeObjects, Encode, Validation, U64FromBytes, Prefix, ReadWhole;
    var (objects, rest) := DecodeObjects(bytes[80..], U64FromBytes(bytes[72..80])).value;
    var m := Manifest(bytes[32..64], U64FromBytes(bytes[64..72]), objects);
    WholeRead(c, bytes, m, rest);
    forall x, r ensures ReadWhole(c, bytes, x, r) ==> x == m && r == rest {
      WholeRead(c, bytes, x, r);
    }
  }

  // ---- object verification ----------------------------------------------------------------------

  /** Which of the three reasons is given. */
  lemma VerifyRefuses(c: Crypto, m: Manifest, path: seq<byte>, bytes: seq<byte>, e: VerifyError)
    requires ValidManifest(c, m)
    ensures VerifyObject(c, m, path, bytes) == Err(e) <==>
              match e
              case UnknownObject => forall o :: o in m.objects ==> o.path != path
              case LengthMismatch => exists o :: o in m.objects && o.path == path && o.size != |bytes|
              case DigestMismatch =>
                exists o :: o in m.objects && o.path == path && o.size == |bytes| && o.digest != c.hash(bytes)
  {
    hide ValidManifest, Lookup;
    forall o ensures Lookup(m, path) == Some(o) <==> o in m.objects && o.path == path {
      LookupMeaning(c, m, path, o);
    }
  }
}
