/** The dataset manifest: validation, sorted construction, lookup and its canonical bytes. */
module DatasetManifest {
  import opened Bytes
  import opened Order
  import opened Outcomes
  import opened Sequences
  import opened LogicalPath

  /** A 32-byte hash or Ed25519 key. */
  type Bytes32 = d: seq<byte> | |d| == 32 witness seq(32, i => 0)

  /** The hash function and the key check are parameters of every statement. */
  datatype Crypto = Crypto(hash: seq<byte> -> Bytes32, validKey: seq<byte> -> bool)

  datatype Object = Object(path: Utf8, size: u64, digest: Bytes32)

  type Objects = s: seq<Object> | |s| < U64_LIMIT

  datatype Manifest = Manifest(publisher: Bytes32, createdAt: u64, objects: Objects)

  const MAX_OBJECTS: nat := 100_000

  // ---- object order ------------------------------------------------------------------

  predicate ObjectLeq(a: Object, b: Object) {
    PathLeq(a.path, b.path)
  }

  lemma ObjectOrder()
    ensures Preorder(ObjectLeq)
  {
    PathOrder();
  }

  function EntryPath(o: Object): seq<byte>
  {
    o.path
  }

  function Paths(objects: seq<Object>): seq<seq<byte>>
  {
    Mapped(objects, EntryPath)
  }

  // ---- validation ------------------------------------------------------------------

  datatype Fault =
    | ZeroTimestamp
    | TooManyObjects
    | InvalidPath(path: seq<byte>)
    | NotSorted
    | FileUsedAsDirectory

  /** The first fault the validation loop meets, coming from `previous`. */
  function PathFault(paths: seq<seq<byte>>, previous: Option<seq<byte>>): Option<Fault>
    decreases |paths|
  {
    if paths == [] then None
    else if !PortablePath(paths[0]) then Some(InvalidPath(paths[0]))
    else if previous.Some? && PathLeq(paths[0], previous.value) then Some(NotSorted)
    else if previous.Some? && Below(previous.value, paths[0]) then Some(FileUsedAsDirectory)
    else PathFault(paths[1..], Some(paths[0]))
  }

  function Validation(m: Manifest): Option<Fault>
  {
    if m.createdAt == 0 then Some(ZeroTimestamp)
    else if |m.objects| > MAX_OBJECTS then Some(TooManyObjects)
    else PathFault(Paths(m.objects), None)
  }

  /** Each path is portable, sorts strictly after its neighbour and does not lie below it. */
  predicate Chained(paths: seq<seq<byte>>)
  {
    && (forall i :: 0 <= i < |paths| ==> PortablePath(paths[i]))
    && (forall i :: 0 < i < |paths| ==> PathLess(paths[i - 1], paths[i]) && !Below(paths[i - 1], paths[i]))
  }

  predicate ValidManifest(c: Crypto, m: Manifest)
  {
    && c.validKey(m.publisher)
    && m.createdAt > 0
    && |m.objects| <= 100_000
    && Chained(Paths(m.objects))
  }

  lemma {:induction false} PathFaultMeaning(paths: seq<seq<byte>>, previous: Option<seq<byte>>)
    ensures PathFault(paths, previous).None? <==>
              && Chained(paths)
              && (previous.Some? && paths != [] ==>
                    PathLess(previous.value, paths[0]) && !Below(previous.value, paths[0]))
    decreases |paths|
  {
    hide PortablePath, Below, PathLeq;
    if paths != [] {
      var rest := paths[1..];
      PathFaultMeaning(rest, Some(paths[0]));
      if Chained(paths) {
        assert forall i :: 0 <= i < |rest| ==> rest[i] == paths[i + 1];
        assert rest != [] ==> PathLess(paths[0], paths[1]);
      }
      if PortablePath(paths[0]) && Chained(rest)
         && (rest != [] ==> PathLess(paths[0], rest[0]) && !Below(paths[0], rest[0])) {
        forall i | 0 < i < |paths| ensures PathLess(paths[i - 1], paths[i]) && !Below(paths[i - 1], paths[i]) {
          if i > 1 { assert PathLess(rest[i - 2], rest[i - 1]); }
        }
      }
    }
  }

  /** The loop reports no fault exactly on valid manifests. */
  lemma ValidationMeaning(c: Crypto, m: Manifest)
    requires c.validKey(m.publisher)
    ensures Validation(m).None? <==> ValidManifest(c, m)
  {
    PathFaultMeaning(Paths(m.objects), None);
  }

  /** `DatasetManifestV1::validate`. */
  method Validate(m: Manifest) returns (fault: Option<Fault>)
    ensures fault == Validation(m)
  {
    hide PortablePath, Below, PathLeq;
    if m.createdAt == 0 {
      return Some(ZeroTimestamp);
    }
    if |m.objects| > MAX_OBJECTS {
      return Some(TooManyObjects);
    }
    ghost var paths := Paths(m.objects);
    var previous: Option<seq<byte>> := None;
    for i := 0 to |m.objects|
      invariant PathFault(paths, None) == PathFault(paths[i..], previous)
    {
      var path: seq<byte> := m.objects[i].path;
      assert paths[i..][0] == path && paths[i..][1..] == paths[i + 1..];
      if !PortablePath(path) {
        return Some(InvalidPath(path));
      }
      if previous.Some? {
        if PathLeq(path, previous.value) {
          return Some(NotSorted);
        }
        if Below(previous.value, path) {
          return Some(FileUsedAsDirectory);
        }
      }
      previous := Some(path);
    }
    return None;
  }

  lemma {:induction false} ChainedAscends(paths: seq<seq<byte>>, i: nat, j: nat)
    requires Chained(paths) && i < j < |paths|
    ensures PathLess(paths[i], paths[j]) && PathLeq(paths[i], paths[j])
    decreases j
  {
    PathOrder();
    assert PathLess(paths[j - 1], paths[j]);
    if i < j - 1 { ChainedAscends(paths, i, j - 1); }
  }

  /** Neighbour checks make the whole object list strictly sorted. */
  lemma ValidIsSorted(c: Crypto, m: Manifest)
    requires ValidManifest(c, m)
    ensures StrictlySorted(ObjectLeq, m.objects)
    ensures forall i, j :: 0 <= i < j < |m.objects| ==> m.objects[i].path != m.objects[j].path
  {
    forall i, j | 0 <= i < j < |m.objects|
      ensures ObjectLeq(m.objects[i], m.objects[j]) && !ObjectLeq(m.objects[j], m.objects[i])
      ensures m.objects[i].path != m.objects[j].path
    {
      PathOrder();
      ChainedAscends(Paths(m.objects), i, j);
    }
  }

  // ---- construction ------------------------------------------------------------------

  /** `DatasetManifestV1::new`: sort by path, then validate. */
  function New(publisher: Bytes32, createdAt: u64, objects: Objects): Result<Manifest, Fault>
  {
    var m := Manifest(publisher, createdAt, Sort(ObjectLeq, objects));
    match Validation(m)
    case None => Ok(m)
    case Some(fault) => Err(fault)
  }

  /** Construction forgets the order of the entries: any permutation gives the same outcome,
      the same manifest and hence the same canonical bytes, or the same fault. */
  lemma NewIgnoresOrder(publisher: Bytes32, createdAt: u64, a: Objects, b: Objects)
    requires multiset(a) == multiset(b)
    ensures New(publisher, createdAt, a) == New(publisher, createdAt, b)
  {
    var sa, sb := Sort(ObjectLeq, a), Sort(ObjectLeq, b);
    ObjectOrder();
    PathOrder();
    SortSorts(ObjectLeq, a);
    SortSorts(ObjectLeq, b);
    SortMultiset(ObjectLeq, a);
    SortMultiset(ObjectLeq, b);
    MappedIgnoresOrder(sa, sb, EntryPath);
    SortedUnique(PathLeq, Paths(sa), Paths(sb));
    assert |multiset(a)| == |a| && |multiset(b)| == |b|;
    var ma, mb := Manifest(publisher, createdAt, sa), Manifest(publisher, createdAt, sb);
    assert Validation(ma) == Validation(mb);
    if Validation(ma).None? {
      var any := Crypto(_ => publisher, _ => true);
      ValidationMeaning(any, ma);
      ValidIsSorted(any, ma);
      StrictUnique(ObjectLeq, sa, sb);
    }
  }

  /** What a successful construction holds: the given entries, once each, in path order. */
  lemma NewMeaning(c: Crypto, publisher: Bytes32, createdAt: u64, objects: Objects)
    requires c.validKey(publisher)
    ensures var r := New(publisher, createdAt, objects);
      r.Ok? ==>
        && ValidManifest(c, r.value)
        && r.value.publisher == publisher && r.value.createdAt == createdAt
        && multiset(r.value.objects) == multiset(objects)
  {
    SortMultiset(ObjectLeq, objects);
    ValidationMeaning(c, Manifest(publisher, createdAt, Sort(ObjectLeq, objects)));
  }

  /** Construction succeeds whenever some valid manifest holds the given entries, with that one. */
  lemma NewExactly(c: Crypto, publisher: Bytes32, createdAt: u64, objects: Objects, m: Manifest)
    requires c.validKey(publisher)
    ensures New(publisher, createdAt, objects) == Ok(m) <==>
              && ValidManifest(c, m) && m.publisher == publisher && m.createdAt == createdAt
              && multiset(m.objects) == multiset(objects)
  {
    NewMeaning(c, publisher, createdAt, objects);
    if ValidManifest(c, m) && m.publisher == publisher && m.createdAt == createdAt
       && multiset(m.objects) == multiset(objects) {
      ValidIsSorted(c, m);
      ObjectOrder();
      SortSorts(ObjectLeq, objects);
      SortMultiset(ObjectLeq, objects);
      StrictUnique(ObjectLeq, m.objects, Sort(ObjectLeq, objects));
      ValidationMeaning(c, m);
    }
  }

  // ---- lookup --------------------------------------------------------------------------

  /** Binary search by path in `objects[lo..hi]`. */
  function Search(objects: seq<Object>, path: seq<byte>, lo: nat, hi: nat): (r: Option<Object>)
    requires lo <= hi <= |objects|
    ensures r.Some? ==> r.value in objects && r.value.path == path
    decreases hi - lo
  {
    if lo == hi then None
    else
      var mid := (lo + hi) / 2;
      if objects[mid].path == path then Some(objects[mid])
      else if PathLeq(objects[mid].path, path) then Search(objects, path, mid + 1, hi)
      else Search(objects, path, lo, mid)
  }

  /** `DatasetManifestV1::object`. */
  function Lookup(m: Manifest, path: seq<byte>): Option<Object>
  {
    Search(m.objects, path, 0, |m.objects|)
  }

  lemma {:induction false} SearchFinds(objects: seq<Object>, lo: nat, hi: nat, k: nat)
    requires StrictlySorted(ObjectLeq, objects)
    requires forall i, j :: 0 <= i < j < |objects| ==> objects[i].path != objects[j].path
    requires lo <= k < hi <= |objects|
    ensures Search(objects, objects[k].path, lo, hi) == Some(objects[k])
    decreases hi - lo
  {
    var mid := (lo + hi) / 2;
    if mid < k {
      assert ObjectLeq(objects[mid], objects[k]);
      SearchFinds(objects, mid + 1, hi, k);
    } else if k < mid {
      assert !ObjectLeq(objects[mid], objects[k]);
      SearchFinds(objects, lo, mid, k);
    }
  }

  /** Lookup finds a path exactly when the manifest declares it, and then its declaration. */
  lemma LookupMeaning(c: Crypto, m: Manifest, path: seq<byte>, o: Object)
    requires ValidManifest(c, m)
    ensures Lookup(m, path) == Some(o) <==> o in m.objects && o.path == path
  {
    ValidIsSorted(c, m);
    if o in m.objects && o.path == path {
      var k :| 0 <= k < |m.objects| && m.objects[k] == o;
      SearchFinds(m.objects, 0, |m.objects|, k);
    }
  }

  // ---- canonical bytes -------------------------------------------------------------------

  function Prefix(): (p: seq<byte>)
    ensures |p| == 32
  {
    Ascii("pubky.swarm/dataset-manifest/v1") + [0]
  }

  function EncodeObject(o: Object): seq<byte>
  {
    Framed(o.path) + U64Bytes(o.size) + o.digest
  }

  function EncodeObjects(objects: seq<Object>): seq<byte>
  {
    if objects == [] then [] else EncodeObject(objects[0]) + EncodeObjects(objects[1..])
  }

  /** The fixed-width fields between the domain prefix and the objects. */
  function Header(m: Manifest): (h: seq<byte>)
    ensures |h| == 48
  {
    m.publisher + U64Bytes(m.createdAt) + U64Bytes(|m.objects|)
  }

  function Body(m: Manifest): seq<byte>
  {
    Header(m) + EncodeObjects(m.objects)
  }

  /** The canonical bytes of a manifest. */
  function Encode(m: Manifest): seq<byte>
  {
    Prefix() + Body(m)
  }

  lemma {:induction false} EncodeAppend(objects: seq<Object>, o: Object)
    ensures EncodeObjects(objects + [o]) == EncodeObjects(objects) + EncodeObject(o)
  {
    if objects == [] {
      assert objects + [o] == [o] && [o][1..] == [];
    } else {
      assert (objects + [o])[1..] == objects[1..] + [o];
      EncodeAppend(objects[1..], o);
    }
  }

  lemma AppendFour<T>(a: seq<T>, b: seq<T>, c: seq<T>, d: seq<T>, e: seq<T>)
    ensures a + b + c + d + e == a + (b + c + d + e)
  {
  }

  lemma AppendEntry(front: seq<byte>, objects: seq<Object>, i: nat)
    requires i < |objects|
    ensures front + EncodeObjects(objects[..i]) + EncodeObject(objects[i]) == front + EncodeObjects(objects[..i + 1])
  {
    assert objects[..i + 1] == objects[..i] + [objects[i]];
    EncodeAppend(objects[..i], objects[i]);
    Assoc(front, EncodeObjects(objects[..i]), EncodeObject(objects[i]));
  }

  /** `to_canonical_bytes`: one buffer, appended to field by field. */
  method ToCanonicalBytes(m: Manifest) returns (bytes: seq<byte>)
    ensures bytes == Encode(m)
  {
    ghost var prefix := Prefix();
    bytes := Prefix();
    bytes := bytes + m.publisher;
    bytes := bytes + U64Bytes(m.createdAt);
    bytes := bytes + U64Bytes(|m.objects|);
    ghost var front := bytes;
    assert front == prefix + Header(m);
    for i := 0 to |m.objects|
      invariant bytes == front + EncodeObjects(m.objects[..i])
    {
      var entry := m.objects[i];
      ghost var before := bytes;
      bytes := bytes + U64Bytes(|entry.path|);
      bytes := bytes + entry.path;
      bytes := bytes + U64Bytes(entry.size);
      bytes := bytes + entry.digest;
      AppendFour(before, U64Bytes(|entry.path|), entry.path, U64Bytes(entry.size), entry.digest);
      AppendEntry(front, m.objects, i);
    }
    assert m.objects[..|m.objects|] == m.objects;
    Assoc(prefix, Header(m), EncodeObjects(m.objects));
  }

  lemma ObjectTail(o: Object, r: seq<byte>)
    ensures EncodeObject(o) + r == Framed(o.path) + (U64Bytes(o.size) + (o.digest + r))
  {
    Assoc(Framed(o.path) + U64Bytes(o.size), o.digest, r);
    Assoc(Framed(o.path), U64Bytes(o.size), o.digest + r);
  }

  lemma SplitObject(x: Object, r: seq<byte>, y: Object, s: seq<byte>)
    requires EncodeObject(x) + r == EncodeObject(y) + s
    ensures x == y && r == s
  {
    ObjectTail(x, r);
    ObjectTail(y, s);
    SplitFramed(x.path, U64Bytes(x.size) + (x.digest + r), y.path, U64Bytes(y.size) + (y.digest + s));
    SplitU64(x.size, x.digest + r, y.size, y.digest + s);
    SplitFixed(x.digest, r, y.digest, s);
  }

  lemma {:induction false} SplitObjects(x: seq<Object>, r: seq<byte>, y: seq<Object>, s: seq<byte>)
    requires |x| == |y|
    requires EncodeObjects(x) + r == EncodeObjects(y) + s
    ensures x == y && r == s
  {
    if x == [] {
      assert EncodeObjects(x) + r == r && EncodeObjects(y) + s == s;
    } else {
      var xt, yt := EncodeObjects(x[1..]) + r, EncodeObjects(y[1..]) + s;
      Assoc(EncodeObject(x[0]), EncodeObjects(x[1..]), r);
      Assoc(EncodeObject(y[0]), EncodeObjects(y[1..]), s);
      SplitObject(x[0], xt, y[0], yt);
      SplitObjects(x[1..], r, y[1..], s);
      assert x == [x[0]] + x[1..] && y == [y[0]] + y[1..];
    }
  }

  lemma SplitHeader(x: Manifest, y: Manifest)
    requires Header(x) == Header(y)
    ensures x.publisher == y.publisher && x.createdAt == y.createdAt && |x.objects| == |y.objects|
  {
    var xc, yc := U64Bytes(|x.objects|), U64Bytes(|y.objects|);
    SplitFixed(x.publisher + U64Bytes(x.createdAt), xc, y.publisher + U64Bytes(y.createdAt), yc);
    SplitFixed(x.publisher, U64Bytes(x.createdAt), y.publisher, U64Bytes(y.createdAt));
    U64RoundTrip(x.createdAt);
    U64RoundTrip(y.createdAt);
    U64RoundTrip(|x.objects|);
    U64RoundTrip(|y.objects|);
  }

  lemma BodyPrefixFree(x: Manifest, r: seq<byte>, y: Manifest, s: seq<byte>)
    requires Body(x) + r == Body(y) + s
    ensures x == y && r == s
  {
    var xt, yt := EncodeObjects(x.objects) + r, EncodeObjects(y.objects) + s;
    Assoc(Header(x), EncodeObjects(x.objects), r);
    Assoc(Header(y), EncodeObjects(y.objects), s);
    SplitFixed(Header(x), xt, Header(y), yt);
    SplitHeader(x, y);
    SplitObjects(x.objects, r, y.objects, s);
  }

  /** The encoding is injective and prefix-free: canonical bytes followed by anything
      determine the manifest and where its bytes end. */
  lemma EncodePrefixFree(x: Manifest, r: seq<byte>, y: Manifest, s: seq<byte>)
    requires Encode(x) + r == Encode(y) + s
    ensures x == y && r == s
  {
    var p := Prefix();
    Assoc(p, Body(x), r);
    Assoc(p, Body(y), s);
    SplitFixed(p, Body(x) + r, p, Body(y) + s);
    BodyPrefixFree(x, r, y, s);
  }

  // ---- strict decoding ---------------------------------------------------------------------

  datatype DecodeError =
    | Truncated
    | UnsupportedPrefix
    | InvalidPublisher
    | CountExceedsLimit
    | PathNotUtf8
    | TrailingBytes
    | Invalid(fault: Fault)

  type Parsed<T> = Result<(T, seq<byte>), DecodeError>

  function Take(cursor: seq<byte>, length: nat): (r: Parsed<seq<byte>>)
    ensures r.Ok? <==> length <= |cursor|
    ensures r.Ok? ==> cursor == r.value.0 + r.value.1 && |r.value.0| == length
    ensures r.Err? ==> r.error == Truncated
  {
    if |cursor| < length then Err(Truncated) else Ok((cursor[..length], cursor[length..]))
  }

  lemma TakeFront(front: seq<byte>, rest: seq<byte>)
    ensures Take(front + rest, |front|) == Ok((front, rest))
  {
    assert (front + rest)[..|front|] == front && (front + rest)[|front|..] == rest;
  }

  function DecodeObject(cursor: seq<byte>): Parsed<Object>
  {
    var (length, afterLength) :- Take(cursor, 8);
    var (path, afterPath) :- Take(afterLength, U64FromBytes(length));
    if !ValidUtf8(path) then Err(PathNotUtf8)
    else
      var (size, afterSize) :- Take(afterPath, 8);
      var (digest, rest) :- Take(afterSize, 32);
      Ok((Object(path, U64FromBytes(size), digest), rest))
  }

  function DecodeObjects(cursor: seq<byte>, count: nat): (r: Parsed<seq<Object>>)
    ensures r.Ok? ==> |r.value.0| == count
  {
    if count == 0 then Ok(([], cursor))
    else
      var (first, afterFirst) :- DecodeObject(cursor);
      var (others, rest) :- DecodeObjects(afterFirst, count - 1);
      Ok(([first] + others, rest))
  }

  function DecodeBody(c: Crypto, cursor: seq<byte>): Result<Manifest, DecodeError>
  {
    var (publisher, afterPublisher) :- Take(cursor, 32);
    if !c.validKey(publisher) then Err(InvalidPublisher)
    else
      var (createdAt, afterCreated) :- Take(afterPublisher, 8);
      var (count, afterCount) :- Take(afterCreated, 8);
      if U64FromBytes(count) > MAX_OBJECTS then Err(CountExceedsLimit)
      else
        var (objects, rest) :- DecodeObjects(afterCount, U64FromBytes(count));
        if rest != [] then Err(TrailingBytes)
        else
          var m := Manifest(publisher, U64FromBytes(createdAt), objects);
          match Validation(m)
          case None => Ok(m)
          case Some(fault) => Err(Invalid(fault))
  }

  /** `from_canonical_bytes`. */
  function Decode(c: Crypto, bytes: seq<byte>): Result<Manifest, DecodeError>
  {
    var (prefix, rest) :- Take(bytes, 32);
    if prefix != Prefix() then Err(UnsupportedPrefix) else DecodeBody(c, rest)
  }

  lemma DecodeObjectSound(cursor: seq<byte>)
    requires DecodeObject(cursor).Ok?
    ensures cursor == EncodeObject(DecodeObject(cursor).value.0) + DecodeObject(cursor).value.1
  {
    var (o, rest) := DecodeObject(cursor).value;
    var (length, t1) := Take(cursor, 8).value;
    var (path, t2) := Take(t1, U64FromBytes(length)).value;
    var (size, t3) := Take(t2, 8).value;
    U64Canonical(length);
    U64Canonical(size);
    ObjectTail(o, rest);
    Assoc(length, path, t2);
  }

  lemma EncodeCons(o: Object, others: seq<Object>, rest: seq<byte>)
    ensures EncodeObjects([o] + others) + rest == EncodeObject(o) + (EncodeObjects(others) + rest)
  {
    assert ([o] + others)[1..] == others;
    Assoc(EncodeObject(o), EncodeObjects(others), rest);
  }

  lemma {:induction false} DecodeObjectsSound(cursor: seq<byte>, count: nat)
    requires DecodeObjects(cursor, count).Ok?
    ensures cursor == EncodeObjects(DecodeObjects(cursor, count).value.0) + DecodeObjects(cursor, count).value.1
  {
    if count == 0 {
      assert EncodeObjects([]) + cursor == cursor;
    } else {
      DecodeObjectSound(cursor);
      var first := DecodeObject(cursor).value;
      DecodeObjectsSound(first.1, count - 1);
      var others := DecodeObjects(first.1, count - 1).value;
      EncodeCons(first.0, others.0, others.1);
    }
  }

  lemma DecodeObjectComplete(o: Object, rest: seq<byte>)
    ensures DecodeObject(EncodeObject(o) + rest) == Ok((o, rest))
  {
    var t3 := o.digest + rest;
    var t2 := U64Bytes(o.size) + t3;
    ObjectTail(o, rest);
    Assoc(U64Bytes(|o.path|), o.path, t2);
    TakeFront(U64Bytes(|o.path|), o.path + t2);
    U64RoundTrip(|o.path|);
    TakeFront(o.path, t2);
    TakeFront(U64Bytes(o.size), t3);
    U64RoundTrip(o.size);
    TakeFront(o.digest, rest);
  }

  lemma {:induction false} DecodeObjectsComplete(objects: seq<Object>, rest: seq<byte>)
    ensures DecodeObjects(EncodeObjects(objects) + rest, |objects|) == Ok((objects, rest))
  {
    hide EncodeObject, DecodeObject;
    if objects == [] {
      assert EncodeObjects(objects) + rest == rest;
    } else {
      var tail := EncodeObjects(objects[1..]) + rest;
      Assoc(EncodeObject(objects[0]), EncodeObjects(objects[1..]), rest);
      DecodeObjectComplete(objects[0], tail);
      DecodeObjectsComplete(objects[1..], rest);
      assert objects == [objects[0]] + objects[1..];
    }
  }

  lemma HeaderTail(m: Manifest, r: seq<byte>)
    ensures Header(m) + r == m.publisher + (U64Bytes(m.createdAt) + (U64Bytes(|m.objects|) + r))
  {
    Assoc(m.publisher + U64Bytes(m.createdAt), U64Bytes(|m.objects|), r);
    Assoc(m.publisher, U64Bytes(m.createdAt), U64Bytes(|m.objects|) + r);
  }

  lemma DecodeBodyComplete(c: Crypto, m: Manifest)
    requires ValidManifest(c, m)
    ensures DecodeBody(c, Body(m)) == Ok(m)
  {
    var objects := EncodeObjects(m.objects);
    HeaderTail(m, objects);
    TakeFront(m.publisher, U64Bytes(m.createdAt) + (U64Bytes(|m.objects|) + objects));
    TakeFront(U64Bytes(m.createdAt), U64Bytes(|m.objects|) + objects);
    TakeFront(U64Bytes(|m.objects|), objects);
    U64RoundTrip(m.createdAt);
    U64RoundTrip(|m.objects|);
    DecodeObjectsComplete(m.objects, []);
    assert objects + [] == objects;
    ValidationMeaning(c, m);
  }

  lemma DecodeBodySound(c: Crypto, cursor: seq<byte>)
    requires DecodeBody(c, cursor).Ok?
    ensures ValidManifest(c, DecodeBody(c, cursor).value) && Body(DecodeBody(c, cursor).value) == cursor
  {
    var m := DecodeBody(c, cursor).value;
    var (publisher, t1) := Take(cursor, 32).value;
    var (createdAt, t2) := Take(t1, 8).value;
    var (count, t3) := Take(t2, 8).value;
    U64Canonical(createdAt);
    U64Canonical(count);
    DecodeObjectsSound(t3, U64FromBytes(count));
    assert t3 == EncodeObjects(m.objects);
    HeaderTail(m, t3);
    ValidationMeaning(c, m);
  }

  /** Decoding the encoding of a valid manifest gives the manifest back. */
  lemma DecodeEncode(c: Crypto, m: Manifest)
    requires ValidManifest(c, m)
    ensures Decode(c, Encode(m)) == Ok(m)
  {
    TakeFront(Prefix(), Body(m));
    DecodeBodyComplete(c, m);
  }

  /** Whatever the decoder accepts is a valid manifest whose encoding is the input itself. */
  lemma EncodeDecode(c: Crypto, bytes: seq<byte>)
    requires Decode(c, bytes).Ok?
    ensures ValidManifest(c, Decode(c, bytes).value) && Encode(Decode(c, bytes).value) == bytes
  {
    DecodeBodySound(c, Take(bytes, 32).value.1);
  }

  /** The codec is a bijection: a string is accepted exactly when it is the encoding of a
      valid manifest, and then that manifest is the answer. */
  lemma CodecBijection(c: Crypto, bytes: seq<byte>, m: Manifest)
    ensures Decode(c, bytes) == Ok(m) <==> ValidManifest(c, m) && Encode(m) == bytes
  {
    if Decode(c, bytes).Ok? { EncodeDecode(c, bytes); }
    if ValidManifest(c, m) && Encode(m) == bytes { DecodeEncode(c, m); }
  }

  /** No accepted string is a proper prefix of another. */
  lemma AcceptedPrefixFree(c: Crypto, a: seq<byte>, b: seq<byte>)
    requires Decode(c, a).Ok? && Decode(c, b).Ok? && a <= b
    ensures a == b
  {
    hide Encode, ValidManifest;
    EncodeDecode(c, a);
    EncodeDecode(c, b);
    hide Decode;
    var rest := b[|a|..];
    assert a + rest == b + [];
    EncodePrefixFree(Decode(c, a).value, rest, Decode(c, b).value, []);
  }

  function Prepend(objects: seq<Object>, r: Parsed<seq<Object>>): Parsed<seq<Object>>
  {
    match r
    case Ok((others, rest)) => Ok((objects + others, rest))
    case Err(e) => Err(e)
  }

  lemma PrependNothing(r: Parsed<seq<Object>>)
    ensures Prepend([], r) == r
  {
    if r.Ok? { assert [] + r.value.0 == r.value.0; }
  }

  lemma PrependMore(objects: seq<Object>, o: Object, r: Parsed<seq<Object>>)
    ensures Prepend(objects, Prepend([o], r)) == Prepend(objects + [o], r)
  {
    if r.Ok? { Assoc(objects, [o], r.value.0); }
  }

  /** The decoder's loop: a cursor advances over the input, one object a turn. */
  method ReadObjects(start: seq<byte>, count: nat) returns (r: Parsed<seq<Object>>)
    ensures r == DecodeObjects(start, count)
  {
    hide DecodeObject;
    var cursor := start;
    var objects: seq<Object> := [];
    PrependNothing(DecodeObjects(start, count));
    for i := 0 to count
      invariant |objects| == i
      invariant DecodeObjects(start, count) == Prepend(objects, DecodeObjects(cursor, count - i))
    {
      var entry :- DecodeObject(cursor);
      PrependMore(objects, entry.0, DecodeObjects(entry.1, count - i - 1));
      objects := objects + [entry.0];
      cursor := entry.1;
    }
    assert objects + [] == objects;
    return Ok((objects, cursor));
  }

  /** `from_canonical_bytes`: the fixed fields, the objects, and nothing after them. */
  method FromCanonicalBytes(c: Crypto, bytes: seq<byte>) returns (r: Result<Manifest, DecodeError>)
    ensures r == Decode(c, bytes)
  {
    var prefix :- Take(bytes, 32);
    if prefix.0 != Prefix() {
      return Err(UnsupportedPrefix);
    }
    var publisher :- Take(prefix.1, 32);
    if !c.validKey(publisher.0) {
      return Err(InvalidPublisher);
    }
    var createdAt :- Take(publisher.1, 8);
    var count :- Take(createdAt.1, 8);
    if U64FromBytes(count.0) > MAX_OBJECTS {
      return Err(CountExceedsLimit);
    }
    var objects :- ReadObjects(count.1, U64FromBytes(count.0));
    if objects.1 != [] {
      return Err(TrailingBytes);
    }
    var m := Manifest(publisher.0, U64FromBytes(createdAt.0), objects.0);
    var fault := Validate(m);
    return match fault case None => Ok(m) case Some(f) => Err(Invalid(f));
  }

  // ---- object verification ------------------------------------------------------------------

  datatype VerifyError = UnknownObject | LengthMismatch | DigestMismatch

  /** `ManifestObjectV1::from_bytes`. */
  function Declare(c: Crypto, path: Utf8, bytes: Blob): Object
  {
    Object(path, |bytes|, c.hash(bytes))
  }

  predicate Matches(c: Crypto, o: Object, bytes: seq<byte>)
  {
    o.size == |bytes| && o.digest == c.hash(bytes)
  }

  /** `verify_object`. */
  function VerifyObject(c: Crypto, m: Manifest, path: seq<byte>, bytes: seq<byte>): Result<Object, VerifyError>
  {
    match Lookup(m, path)
    case None => Err(UnknownObject)
    case Some(o) =>
      if o.size != |bytes| then Err(LengthMismatch)
      else if o.digest != c.hash(bytes) then Err(DigestMismatch)
      else Ok(o)
  }

  /** Bytes verify exactly when the manifest declares the path with their size and digest. */
  lemma VerifyObjectMeaning(c: Crypto, m: Manifest, path: seq<byte>, bytes: seq<byte>)
    requires ValidManifest(c, m)
    ensures VerifyObject(c, m, path, bytes).Ok? <==>
              exists o :: o in m.objects && o.path == path && Matches(c, o, bytes)
  {
    if o :| o in m.objects && o.path == path && Matches(c, o, bytes) {
      LookupMeaning(c, m, path, o);
    }
  }

  /** `DatasetManifestV1::digest`. */
  function ManifestDigest(c: Crypto, m: Manifest): Bytes32
  {
    c.hash(Encode(m))
  }
}
