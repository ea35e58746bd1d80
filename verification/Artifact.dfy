/** Catalog artifacts: the canonical writer behind every artifact id, and why two different
    artifacts never share their canonical bytes. */
module Artifact {
  import opened Bytes
  import opened Order
  import opened Outcomes
  import opened LogicalPath
  import opened DatasetManifest
  import opened TorrentReference

  datatype Subject = Torrent(reference: TorrentRef) | Uri(uri: Utf8)

  type Subjects = s: seq<Subject> | |s| < U64_LIMIT

  datatype Provenance =
    | InfoAuthenticated
    | TopLevelHint
    | MagnetHint
    | IndexerClaim(indexer: Bytes32)
    | LocalClient

  datatype Source =
    | Direct
    | FromUri(uri: Utf8)
    | Import(provenance: Provenance, locator: Option<Utf8>)

  datatype TagOperation = Add | Remove

  datatype Action = Allow | Block | Review

  /** What every artifact carries besides its content. */
  datatype Stamp = Stamp(createdAt: u64, revision: u64, source: Source)

  /** The five artifact kinds, without the id derived from their bytes. */
  datatype Artifact =
    | TagClaim(issuer: Bytes32, subject: Subject, tag: Utf8, operation: TagOperation, stamp: Stamp)
    | Collection(issuer: Bytes32, title: Utf8, description: Utf8, subjects: Subjects, stamp: Stamp)
    | Tombstone(issuer: Bytes32, subject: Subject, reason: Utf8, stamp: Stamp)
    | Moderation(issuer: Bytes32, subject: Subject, action: Action, reason: Utf8, stamp: Stamp)
    | Blocklist(issuer: Bytes32, title: Utf8, subjects: Subjects, stamp: Stamp)

  // ---- field encodings --------------------------------------------------------------------

  function SubjectBytes(s: Subject): seq<byte>
  {
    match s
    case Torrent(r) => [0] + Framed(Print(r))
    case Uri(u) => [1] + Framed(u)
  }

  function SubjectList(subjects: seq<Subject>): seq<byte>
  {
    if subjects == [] then [] else SubjectBytes(subjects[0]) + SubjectList(subjects[1..])
  }

  function SubjectsBytes(subjects: Subjects): seq<byte>
  {
    U64Bytes(|subjects|) + SubjectList(subjects)
  }

  function ProvenanceBytes(p: Provenance): seq<byte>
  {
    match p
    case InfoAuthenticated => [0]
    case TopLevelHint => [1]
    case MagnetHint => [2]
    case IndexerClaim(indexer) => [3] + indexer
    case LocalClient => [4]
  }

  function LocatorBytes(l: Option<Utf8>): seq<byte>
  {
    match l
    case Some(u) => [1] + Framed(u)
    case None => [0]
  }

  function SourceBytes(s: Source): seq<byte>
  {
    match s
    case Direct => [0]
    case FromUri(u) => [1] + Framed(u)
    case Import(p, l) => [2] + ProvenanceBytes(p) + LocatorBytes(l)
  }

  function StampBytes(s: Stamp): seq<byte>
  {
    U64Bytes(s.createdAt) + U64Bytes(s.revision) + SourceBytes(s.source)
  }

  function OperationByte(o: TagOperation): byte { if o.Add? then 0 else 1 }

  function ActionByte(a: Action): byte { match a case Allow => 0 case Block => 1 case Review => 2 }

  function TagClaimName(): seq<byte> { Ascii("pubky.swarm/tag-claim/v1") }
  function CollectionName(): seq<byte> { Ascii("pubky.swarm/collection/v1") }
  function TombstoneName(): seq<byte> { Ascii("pubky.swarm/tombstone/v1") }
  function ModerationName(): seq<byte> { Ascii("pubky.swarm/moderation-decision/v1") }
  function BlocklistName(): seq<byte> { Ascii("pubky.swarm/blocklist/v1") }

  /** The domain separator: the kind's name and a NUL. */
  function KindPrefix(a: Artifact): seq<byte>
  {
    (match a
     case TagClaim(_, _, _, _, _) => TagClaimName()
     case Collection(_, _, _, _, _) => CollectionName()
     case Tombstone(_, _, _, _) => TombstoneName()
     case Moderation(_, _, _, _, _) => ModerationName()
     case Blocklist(_, _, _, _) => BlocklistName()) + [0]
  }

  /** The fields between issuer and stamp. */
  function Content(a: Artifact): seq<byte>
  {
    match a
    case TagClaim(_, subject, tag, operation, _) => SubjectBytes(subject) + Framed(tag) + [OperationByte(operation)]
    case Collection(_, title, description, subjects, _) => Framed(title) + Framed(description) + SubjectsBytes(subjects)
    case Tombstone(_, subject, reason, _) => SubjectBytes(subject) + Framed(reason)
    case Moderation(_, subject, action, reason, _) => SubjectBytes(subject) + [ActionByte(action)] + Framed(reason)
    case Blocklist(_, title, subjects, _) => Framed(title) + SubjectsBytes(subjects)
  }

  /** The canonical bytes of an artifact. */
  function Encode(a: Artifact): seq<byte>
  {
    KindPrefix(a) + a.issuer + Content(a) + StampBytes(a.stamp)
  }

  // ---- the writer --------------------------------------------------------------------------

  lemma {:induction false} SubjectListAppend(subjects: seq<Subject>, s: Subject)
    ensures SubjectList(subjects + [s]) == SubjectList(subjects) + SubjectBytes(s)
  {
    hide SubjectBytes;
    if subjects == [] {
      assert subjects + [s] == [s] && [s][1..] == [];
    } else {
      assert (subjects + [s])[1..] == subjects[1..] + [s];
      SubjectListAppend(subjects[1..], s);
    }
  }

  lemma SubjectListStep(front: seq<byte>, values: seq<Subject>, i: nat)
    requires i < |values|
    ensures front + SubjectList(values[..i]) + SubjectBytes(values[i]) == front + SubjectList(values[..i + 1])
  {
    hide SubjectBytes;
    assert values[..i + 1] == values[..i] + [values[i]];
    SubjectListAppend(values[..i], values[i]);
    Assoc(front, SubjectList(values[..i]), SubjectBytes(values[i]));
  }

  lemma ThreeAfter<T>(buffer: seq<T>, a: seq<T>, b: seq<T>, c: seq<T>)
    ensures buffer + a + b + c == buffer + (a + b + c)
  {
    Assoc(buffer, a + b, c);
    Assoc(buffer, a, b);
  }

  /** `CanonicalWriter`: an append-only byte buffer. */
  class CanonicalWriter {
    var buffer: seq<byte>

    constructor (prefix: seq<byte>)
      ensures buffer == prefix
    {
      buffer := prefix;
    }

    method PutByte(value: byte)
      modifies this
      ensures buffer == old(buffer) + [value]
    {
      buffer := buffer + [value];
    }

    method PutU64(value: u64)
      modifies this
      ensures buffer == old(buffer) + U64Bytes(value)
    {
      buffer := buffer + U64Bytes(value);
    }

    method PutString(value: Blob)
      modifies this
      ensures buffer == old(buffer) + Framed(value)
    {
      PutU64(|value|);
      buffer := buffer + value;
    }

    method PutPublisher(value: Bytes32)
      modifies this
      ensures buffer == old(buffer) + value
    {
      buffer := buffer + value;
    }

    method PutSubject(value: Subject)
      modifies this
      ensures buffer == old(buffer) + SubjectBytes(value)
    {
      hide Framed, Print;
      match value
      case Torrent(reference) =>
        Assoc(buffer, [0], Framed(Print(reference)));
        PutByte(0);
        PutString(Print(reference));
      case Uri(uri) =>
        Assoc(buffer, [1], Framed(uri));
        PutByte(1);
        PutString(uri);
    }

    method PutSubjects(values: Subjects)
      modifies this
      ensures buffer == old(buffer) + SubjectsBytes(values)
    {
      hide U64Bytes, SubjectBytes;
      ghost var start := buffer;
      PutU64(|values|);
      assert SubjectList(values[..0]) == [];
      for i := 0 to |values|
        invariant buffer == start + U64Bytes(|values|) + SubjectList(values[..i])
      {
        PutSubject(values[i]);
        SubjectListStep(start + U64Bytes(|values|), values, i);
      }
      assert values[..|values|] == values;
      Assoc(start, U64Bytes(|values|), SubjectList(values));
    }

    method PutProvenance(value: Provenance)
      modifies this
      ensures buffer == old(buffer) + ProvenanceBytes(value)
    {
      match value
      case InfoAuthenticated => PutByte(0);
      case TopLevelHint => PutByte(1);
      case MagnetHint => PutByte(2);
      case IndexerClaim(indexer) =>
        Assoc(buffer, [3], indexer);
        PutByte(3);
        PutPublisher(indexer);
      case LocalClient => PutByte(4);
    }

    method PutLocator(value: Option<Utf8>)
      modifies this
      ensures buffer == old(buffer) + LocatorBytes(value)
    {
      hide Framed;
      match value
      case Some(uri) =>
        Assoc(buffer, [1], Framed(uri));
        PutByte(1);
        PutString(uri);
      case None => PutByte(0);
    }

    method PutSource(value: Source)
      modifies this
      ensures buffer == old(buffer) + SourceBytes(value)
    {
      hide Framed, ProvenanceBytes, LocatorBytes;
      match value
      case Direct =>
        PutByte(0);
      case FromUri(uri) =>
        Assoc(buffer, [1], Framed(uri));
        PutByte(1);
        PutString(uri);
      case Import(provenance, locator) =>
        ThreeAfter(buffer, [2], ProvenanceBytes(provenance), LocatorBytes(locator));
        PutByte(2);
        PutProvenance(provenance);
        PutLocator(locator);
    }

    method PutStamp(value: Stamp)
      modifies this
      ensures buffer == old(buffer) + StampBytes(value)
    {
      hide U64Bytes, SourceBytes;
      ThreeAfter(buffer, U64Bytes(value.createdAt), U64Bytes(value.revision), SourceBytes(value.source));
      PutU64(value.createdAt);
      PutU64(value.revision);
      PutSource(value.source);
    }
  }

  /** The five `to_canonical_bytes`: the writer fed field by field. */
  method ToCanonicalBytes(a: Artifact) returns (bytes: seq<byte>)
    ensures bytes == Encode(a)
  {
    hide SubjectBytes, SubjectsBytes, StampBytes, KindPrefix, U64Bytes, Framed;
    var w := new CanonicalWriter(KindPrefix(a));
    w.PutPublisher(a.issuer);
    ghost var head := w.buffer;
    match a {
      case TagClaim(_, subject, tag, operation, _) =>
        ThreeAfter(head, SubjectBytes(subject), Framed(tag), [OperationByte(operation)]);
        w.PutSubject(subject);
        w.PutString(tag);
        w.PutByte(OperationByte(operation));
      case Collection(_, title, description, subjects, _) =>
        ThreeAfter(head, Framed(title), Framed(description), SubjectsBytes(subjects));
        w.PutString(title);
        w.PutString(description);
        w.PutSubjects(subjects);
      case Tombstone(_, subject, reason, _) =>
        Assoc(head, SubjectBytes(subject), Framed(reason));
        w.PutSubject(subject);
        w.PutString(reason);
      case Moderation(_, subject, action, reason, _) =>
        ThreeAfter(head, SubjectBytes(subject), [ActionByte(action)], Framed(reason));
        w.PutSubject(subject);
        w.PutByte(ActionByte(action));
        w.PutString(reason);
      case Blocklist(_, title, subjects, _) =>
        Assoc(head, Framed(title), SubjectsBytes(subjects));
        w.PutString(title);
        w.PutSubjects(subjects);
    }
    w.PutStamp(a.stamp);
    bytes := w.buffer;
  }

  // ---- unique decodability, field by field -------------------------------------------------

  lemma SplitByte(x: byte, r: seq<byte>, y: byte, s: seq<byte>)
    requires [x] + r == [y] + s
    ensures x == y && r == s
  {
    SplitFixed([x], r, [y], s);
  }

  lemma SplitTaggedString(tag: byte, x: Blob, r: seq<byte>, y: Blob, s: seq<byte>)
    requires [tag] + Framed(x) + r == [tag] + Framed(y) + s
    ensures x == y && r == s
  {
    Assoc([tag], Framed(x), r);
    Assoc([tag], Framed(y), s);
    SplitByte(tag, Framed(x) + r, tag, Framed(y) + s);
    SplitFramed(x, r, y, s);
  }

  lemma SplitSubject(x: Subject, r: seq<byte>, y: Subject, s: seq<byte>)
    requires SubjectBytes(x) + r == SubjectBytes(y) + s
    ensures x == y && r == s
  {
    hide Framed, Print;
    assert (SubjectBytes(x) + r)[0] == (SubjectBytes(y) + s)[0];
    if x.Torrent? {
      SplitTaggedString(0, Print(x.reference), r, Print(y.reference), s);
      PrintInjective(x.reference, y.reference);
    } else {
      SplitTaggedString(1, x.uri, r, y.uri, s);
    }
  }

  lemma {:induction false} SplitSubjectList(x: seq<Subject>, r: seq<byte>, y: seq<Subject>, s: seq<byte>)
    requires |x| == |y|
    requires SubjectList(x) + r == SubjectList(y) + s
    ensures x == y && r == s
  {
    hide SubjectBytes;
    if x == [] {
      assert SubjectList(x) + r == r && SubjectList(y) + s == s;
    } else {
      Assoc(SubjectBytes(x[0]), SubjectList(x[1..]), r);
      Assoc(SubjectBytes(y[0]), SubjectList(y[1..]), s);
      SplitSubject(x[0], SubjectList(x[1..]) + r, y[0], SubjectList(y[1..]) + s);
      SplitSubjectList(x[1..], r, y[1..], s);
      assert x == [x[0]] + x[1..] && y == [y[0]] + y[1..];
    }
  }

  lemma SplitSubjects(x: Subjects, r: seq<byte>, y: Subjects, s: seq<byte>)
    requires SubjectsBytes(x) + r == SubjectsBytes(y) + s
    ensures x == y && r == s
  {
    hide SubjectList;
    Assoc(U64Bytes(|x|), SubjectList(x), r);
    Assoc(U64Bytes(|y|), SubjectList(y), s);
    SplitU64(|x|, SubjectList(x) + r, |y|, SubjectList(y) + s);
    SplitSubjectList(x, r, y, s);
  }

  lemma SplitProvenance(x: Provenance, r: seq<byte>, y: Provenance, s: seq<byte>)
    requires ProvenanceBytes(x) + r == ProvenanceBytes(y) + s
    ensures x == y && r == s
  {
    assert (ProvenanceBytes(x) + r)[0] == (ProvenanceBytes(y) + s)[0];
    SplitFixed(ProvenanceBytes(x), r, ProvenanceBytes(y), s);
    if x.IndexerClaim? { SplitByte(3, x.indexer, 3, y.indexer); }
  }

  lemma SplitLocator(x: Option<Utf8>, r: seq<byte>, y: Option<Utf8>, s: seq<byte>)
    requires LocatorBytes(x) + r == LocatorBytes(y) + s
    ensures x == y && r == s
  {
    hide Framed;
    assert (LocatorBytes(x) + r)[0] == (LocatorBytes(y) + s)[0];
    if x.Some? { SplitTaggedString(1, x.value, r, y.value, s); } else { SplitByte(0, r, 0, s); }
  }

  lemma SplitSource(x: Source, r: seq<byte>, y: Source, s: seq<byte>)
    requires SourceBytes(x) + r == SourceBytes(y) + s
    ensures x == y && r == s
  {
    hide Framed, ProvenanceBytes, LocatorBytes;
    assert (SourceBytes(x) + r)[0] == (SourceBytes(y) + s)[0];
    match x {
      case Direct => SplitByte(0, r, 0, s);
      case FromUri(u) => SplitTaggedString(1, u, r, y.uri, s);
      case Import(p, l) =>
        ImportTail(p, l, r);
        ImportTail(y.provenance, y.locator, s);
        SplitByte(2, ProvenanceBytes(p) + (LocatorBytes(l) + r),
                  2, ProvenanceBytes(y.provenance) + (LocatorBytes(y.locator) + s));
        SplitProvenance(p, LocatorBytes(l) + r, y.provenance, LocatorBytes(y.locator) + s);
        SplitLocator(l, r, y.locator, s);
    }
  }

  lemma ThreeTail<T>(a: seq<T>, b: seq<T>, c: seq<T>, r: seq<T>)
    ensures (a + b + c) + r == a + (b + (c + r))
  {
    Assoc(a + b, c, r);
    Assoc(a, b, c + r);
  }

  lemma ImportTail(p: Provenance, l: Option<Utf8>, r: seq<byte>)
    ensures SourceBytes(Import(p, l)) + r == [2] + (ProvenanceBytes(p) + (LocatorBytes(l) + r))
  {
    ThreeTail([2], ProvenanceBytes(p), LocatorBytes(l), r);
  }

  lemma SplitStamp(x: Stamp, r: seq<byte>, y: Stamp, s: seq<byte>)
    requires StampBytes(x) + r == StampBytes(y) + s
    ensures x == y && r == s
  {
    hide SourceBytes;
    ThreeTail(U64Bytes(x.createdAt), U64Bytes(x.revision), SourceBytes(x.source), r);
    ThreeTail(U64Bytes(y.createdAt), U64Bytes(y.revision), SourceBytes(y.source), s);
    var xt, yt := SourceBytes(x.source) + r, SourceBytes(y.source) + s;
    SplitU64(x.createdAt, U64Bytes(x.revision) + xt, y.createdAt, U64Bytes(y.revision) + yt);
    SplitU64(x.revision, xt, y.revision, yt);
    SplitSource(x.source, r, y.source, s);
  }

  predicate SameKind(x: Artifact, y: Artifact)
  {
    || (x.TagClaim? && y.TagClaim?) || (x.Collection? && y.Collection?) || (x.Tombstone? && y.Tombstone?)
    || (x.Moderation? && y.Moderation?) || (x.Blocklist? && y.Blocklist?)
  }

  lemma SplitTagClaim(x: Artifact, r: seq<byte>, y: Artifact, s: seq<byte>)
    requires x.TagClaim? && y.TagClaim?
    requires Content(x) + r == Content(y) + s
    ensures x.subject == y.subject && x.tag == y.tag && x.operation == y.operation && r == s
  {
    hide SubjectBytes, Framed;
    var xo, yo := [OperationByte(x.operation)], [OperationByte(y.operation)];
    ThreeTail(SubjectBytes(x.subject), Framed(x.tag), xo, r);
    ThreeTail(SubjectBytes(y.subject), Framed(y.tag), yo, s);
    SplitSubject(x.subject, Framed(x.tag) + (xo + r), y.subject, Framed(y.tag) + (yo + s));
    SplitFramed(x.tag, xo + r, y.tag, yo + s);
    SplitByte(xo[0], r, yo[0], s);
  }

  lemma SplitCollection(x: Artifact, r: seq<byte>, y: Artifact, s: seq<byte>)
    requires x.Collection? && y.Collection?
    requires Content(x) + r == Content(y) + s
    ensures x.title == y.title && x.description == y.description && x.subjects == y.subjects && r == s
  {
    hide SubjectsBytes, Framed;
    var xs, ys := SubjectsBytes(x.subjects), SubjectsBytes(y.subjects);
    ThreeTail(Framed(x.title), Framed(x.description), xs, r);
    ThreeTail(Framed(y.title), Framed(y.description), ys, s);
    SplitFramed(x.title, Framed(x.description) + (xs + r), y.title, Framed(y.description) + (ys + s));
    SplitFramed(x.description, xs + r, y.description, ys + s);
    SplitSubjects(x.subjects, r, y.subjects, s);
  }

  lemma SplitTombstone(x: Artifact, r: seq<byte>, y: Artifact, s: seq<byte>)
    requires x.Tombstone? && y.Tombstone?
    requires Content(x) + r == Content(y) + s
    ensures x.subject == y.subject && x.reason == y.reason && r == s
  {
    hide SubjectBytes, Framed;
    Assoc(SubjectBytes(x.subject), Framed(x.reason), r);
    Assoc(SubjectBytes(y.subject), Framed(y.reason), s);
    SplitSubject(x.subject, Framed(x.reason) + r, y.subject, Framed(y.reason) + s);
    SplitFramed(x.reason, r, y.reason, s);
  }

  lemma SplitModeration(x: Artifact, r: seq<byte>, y: Artifact, s: seq<byte>)
    requires x.Moderation? && y.Moderation?
    requires Content(x) + r == Content(y) + s
    ensures x.subject == y.subject && x.action == y.action && x.reason == y.reason && r == s
  {
    hide SubjectBytes, Framed;
    var xa, ya := [ActionByte(x.action)], [ActionByte(y.action)];
    ThreeTail(SubjectBytes(x.subject), xa, Framed(x.reason), r);
    ThreeTail(SubjectBytes(y.subject), ya, Framed(y.reason), s);
    SplitSubject(x.subject, xa + (Framed(x.reason) + r), y.subject, ya + (Framed(y.reason) + s));
    SplitByte(xa[0], Framed(x.reason) + r, ya[0], Framed(y.reason) + s);
    SplitFramed(x.reason, r, y.reason, s);
  }

  lemma SplitBlocklist(x: Artifact, r: seq<byte>, y: Artifact, s: seq<byte>)
    requires x.Blocklist? && y.Blocklist?
    requires Content(x) + r == Content(y) + s
    ensures x.title == y.title && x.subjects == y.subjects && r == s
  {
    hide SubjectsBytes, Framed;
    Assoc(Framed(x.title), SubjectsBytes(x.subjects), r);
    Assoc(Framed(y.title), SubjectsBytes(y.subjects), s);
    SplitFramed(x.title, SubjectsBytes(x.subjects) + r, y.title, SubjectsBytes(y.subjects) + s);
    SplitSubjects(x.subjects, r, y.subjects, s);
  }

  /** Two bytes of the prefix tell the kinds apart. */
  lemma KindBytes(a: Artifact)
    ensures |KindPrefix(a)| >= 14
    ensures a.TagClaim? <==> KindPrefix(a)[12] == 't' as int && KindPrefix(a)[13] == 'a' as int
    ensures a.Collection? <==> KindPrefix(a)[12] == 'c' as int
    ensures a.Tombstone? <==> KindPrefix(a)[12] == 't' as int && KindPrefix(a)[13] == 'o' as int
    ensures a.Moderation? <==> KindPrefix(a)[12] == 'm' as int
    ensures a.Blocklist? <==> KindPrefix(a)[12] == 'b' as int
  {
  }

  /** The kind prefixes differ within their first fourteen bytes, from each other and from the
      manifest's prefix: no one of them is a prefix of another. */
  lemma KindPrefixesDiffer(x: Artifact, y: Artifact)
    requires KindPrefix(x)[..14] == KindPrefix(y)[..14]
    ensures SameKind(x, y) && KindPrefix(x) == KindPrefix(y)
  {
    KindBytes(x);
    KindBytes(y);
    assert SameKind(x, y) by {
      hide KindPrefix;
      var px, py := KindPrefix(x), KindPrefix(y);
      assert px[..14][12] == px[12] && px[..14][13] == px[13];
      assert py[..14][12] == py[12] && py[..14][13] == py[13];
    }
  }

  lemma SplitFields(x: Artifact, r: seq<byte>, y: Artifact, s: seq<byte>)
    requires SameKind(x, y) && x.issuer == y.issuer
    requires Content(x) + (StampBytes(x.stamp) + r) == Content(y) + (StampBytes(y.stamp) + s)
    ensures x == y && r == s
  {
    hide Content, StampBytes;
    var xt, yt := StampBytes(x.stamp) + r, StampBytes(y.stamp) + s;
    match x {
      case TagClaim(_, _, _, _, _) => SplitTagClaim(x, xt, y, yt);
      case Collection(_, _, _, _, _) => SplitCollection(x, xt, y, yt);
      case Tombstone(_, _, _, _) => SplitTombstone(x, xt, y, yt);
      case Moderation(_, _, _, _, _) => SplitModeration(x, xt, y, yt);
      case Blocklist(_, _, _, _) => SplitBlocklist(x, xt, y, yt);
    }
    SplitStamp(x.stamp, r, y.stamp, s);
  }

  lemma EncodeTail(a: Artifact, r: seq<byte>)
    ensures Encode(a) + r == KindPrefix(a) + (a.issuer + (Content(a) + (StampBytes(a.stamp) + r)))
  {
    hide KindPrefix, Content, StampBytes;
    Assoc(KindPrefix(a) + a.issuer + Content(a), StampBytes(a.stamp), r);
    ThreeTail(KindPrefix(a), a.issuer, Content(a), StampBytes(a.stamp) + r);
  }

  /** The encoding is injective, prefix-free and domain-separated: canonical bytes followed by
      anything determine the kind, every field, and where the bytes end. */
  lemma EncodePrefixFree(x: Artifact, r: seq<byte>, y: Artifact, s: seq<byte>)
    requires Encode(x) + r == Encode(y) + s
    ensures x == y && r == s
  {
    hide Encode, Content, StampBytes, KindPrefix;
    EncodeTail(x, r);
    EncodeTail(y, s);
    var xt, yt := Content(x) + (StampBytes(x.stamp) + r), Content(y) + (StampBytes(y.stamp) + s);
    var px, py := KindPrefix(x), KindPrefix(y);
    assert |px| >= 14 && |py| >= 14 by { KindBytes(x); KindBytes(y); }
    assert px[..14] == (px + (x.issuer + xt))[..14] && py[..14] == (py + (y.issuer + yt))[..14];
    KindPrefixesDiffer(x, y);
    SplitFixed(px, x.issuer + xt, py, y.issuer + yt);
    SplitFixed(x.issuer, xt, y.issuer, yt);
    SplitFields(x, r, y, s);
  }

  /** Artifacts with equal canonical bytes are equal. */
  lemma EncodeInjective(x: Artifact, y: Artifact)
    requires Encode(x) == Encode(y)
    ensures x == y
  {
    hide Encode;
    EncodePrefixFree(x, [], y, []);
  }

  /** `ArtifactId::derive`. Equal ids mean equal artifacts, or a hash collision at hand. */
  function Id(c: Crypto, a: Artifact): Bytes32
  {
    c.hash(Encode(a))
  }

  lemma IdsIdentify(c: Crypto, x: Artifact, y: Artifact)
    requires Id(c, x) == Id(c, y)
    ensures x == y || (Encode(x) != Encode(y) && c.hash(Encode(x)) == c.hash(Encode(y)))
  {
    hide Encode;
    if Encode(x) == Encode(y) { EncodeInjective(x, y); }
  }

  lemma KindByte(a: Artifact)
    ensures |KindPrefix(a)| > 12 && KindPrefix(a)[12] != Prefix()[12]
  {
    assert Prefix()[12] == 'd' as int;
  }

  /** No artifact's bytes are those of a manifest, or begin with them, or the other way round. */
  lemma NeverAManifest(a: Artifact, r: seq<byte>, m: Manifest, s: seq<byte>)
    ensures Encode(a) + r != DatasetManifest.Encode(m) + s
  {
    hide KindPrefix, Content, StampBytes, Body, Prefix;
    EncodeTail(a, r);
    KindByte(a);
    hide Encode;
    Assoc(Prefix(), Body(m), s);
    var rest := a.issuer + (Content(a) + (StampBytes(a.stamp) + r));
    assert (KindPrefix(a) + rest)[12] == KindPrefix(a)[12];
    assert (Prefix() + (Body(m) + s))[12] == Prefix()[12];
  }

  // ---- sorted subjects ------------------------------------------------------------------------

  /** The derived order on references: by kind, then by bytes. */
  predicate RefLeq(a: TorrentRef, b: TorrentRef)
  {
    match (a, b)
    case (Btih(x), Btih(y)) => PathLeq(x, y)
    case (Btih(_), _) => true
    case (BtmhRef(_), Btih(_)) => false
    case (BtmhRef(x), BtmhRef(y)) => PathLeq(x, y)
    case (BtmhRef(_), VerifiedHybrid(_, _)) => true
    case (VerifiedHybrid(x, p), VerifiedHybrid(y, q)) => if x == y then PathLeq(p, q) else PathLeq(x, y)
    case (VerifiedHybrid(_, _), _) => false
  }

  predicate SubjectLeq(a: Subject, b: Subject)
  {
    match (a, b)
    case (Torrent(x), Torrent(y)) => RefLeq(x, y)
    case (Torrent(_), Uri(_)) => true
    case (Uri(_), Torrent(_)) => false
    case (Uri(x), Uri(y)) => PathLeq(x, y)
  }

  lemma RefOrder()
    ensures TotalOrder(RefLeq)
  {
    PathOrder();
    hide PathLeq;
  }

  lemma SubjectOrder()
    ensures TotalOrder(SubjectLeq)
  {
    PathOrder();
    RefOrder();
    hide PathLeq, RefLeq;
  }

  function RefKey(r: TorrentRef): seq<byte>
  {
    match r
    case Btih(h) => [0] + h
    case BtmhRef(m) => [1] + m
    case VerifiedHybrid(h, m) => [2] + (h + m)
  }

  /** A string that sorts as the subject does: torrents before URIs, v1 before v2 before hybrid
      references, each kind by its bytes. */
  function SortKey(s: Subject): seq<byte>
  {
    match s case Torrent(r) => [0] + RefKey(r) case Uri(u) => [1] + u
  }

  lemma {:induction false} OrderOfParts(x: seq<byte>, p: seq<byte>, y: seq<byte>, q: seq<byte>)
    requires |x| == |y|
    ensures PathLeq(x + p, y + q) <==> if x == y then PathLeq(p, q) else PathLeq(x, y)
  {
    if x == [] {
      assert x + p == p && y + q == q;
    } else {
      assert (x + p)[1..] == x[1..] + p && (y + q)[1..] == y[1..] + q;
      assert x == [x[0]] + x[1..] && y == [y[0]] + y[1..];
      if x[0] == y[0] { OrderOfParts(x[1..], p, y[1..], q); }
    }
  }

  lemma OneByteOrder(a: byte, b: byte)
    ensures PathLeq([a], [b]) <==> a <= b
  {
    PathOrder();
    assert PathLeq([a], [b]) == if [a][0] == [b][0] then PathLeq([a][1..], [b][1..]) else ByteLeq(a, b);
  }

  lemma RefsSortByKey(a: TorrentRef, b: TorrentRef)
    ensures RefLeq(a, b) <==> PathLeq(RefKey(a), RefKey(b))
  {
    var x, y := RefKey(a), RefKey(b);
    assert x == [x[0]] + x[1..] && y == [y[0]] + y[1..];
    OrderOfParts([x[0]], x[1..], [y[0]], y[1..]);
    OneByteOrder(x[0], y[0]);
    if a.VerifiedHybrid? && b.VerifiedHybrid? { OrderOfParts(a.btih, a.btmh, b.btih, b.btmh); }
  }

  lemma SubjectsSortByKey(a: Subject, b: Subject)
    ensures SubjectLeq(a, b) <==> PathLeq(SortKey(a), SortKey(b))
  {
    var x, y := SortKey(a), SortKey(b);
    assert x == [x[0]] + x[1..] && y == [y[0]] + y[1..];
    OrderOfParts([x[0]], x[1..], [y[0]], y[1..]);
    OneByteOrder(x[0], y[0]);
    if a.Torrent? && b.Torrent? { RefsSortByKey(a.reference, b.reference); }
  }

  const MAX_SUBJECTS: nat := 10_000

  /** `validate_subjects`. */
  predicate ValidSubjects(subjects: seq<Subject>)
  {
    && 1 <= |subjects| <= MAX_SUBJECTS
    && forall i :: 0 < i < |subjects| ==> !SubjectLeq(subjects[i], subjects[i - 1])
  }

  /** How `CollectionV1::new` and `BlocklistV1::new` prepare their subjects: sort, then validate. */
  function PrepareSubjects(subjects: seq<Subject>): (r: Option<Subjects>)
    ensures r.Some? ==> ValidSubjects(r.value)
  {
    var sorted := Sort(SubjectLeq, subjects);
    if ValidSubjects(sorted) then Some(sorted) else None
  }

  /** `CollectionV1::new`, as far as the subjects decide it. */
  function NewCollection(issuer: Bytes32, title: Utf8, description: Utf8, subjects: seq<Subject>,
                         stamp: Stamp): Option<Artifact>
  {
    match PrepareSubjects(subjects)
    case Some(sorted) => Some(Collection(issuer, title, description, sorted, stamp))
    case None => None
  }

  /** `BlocklistV1::new`, as far as the subjects decide it. */
  function NewBlocklist(issuer: Bytes32, title: Utf8, subjects: seq<Subject>, stamp: Stamp): Option<Artifact>
  {
    match PrepareSubjects(subjects)
    case Some(sorted) => Some(Blocklist(issuer, title, sorted, stamp))
    case None => None
  }

  lemma SubjectsIgnoreOrder(a: seq<Subject>, b: seq<Subject>)
    requires multiset(a) == multiset(b)
    ensures PrepareSubjects(a) == PrepareSubjects(b)
  {
    SubjectOrder();
    SortSorts(SubjectLeq, a);
    SortSorts(SubjectLeq, b);
    SortMultiset(SubjectLeq, a);
    SortMultiset(SubjectLeq, b);
    SortedUnique(SubjectLeq, Sort(SubjectLeq, a), Sort(SubjectLeq, b));
  }

  /** Any permutation of the subjects builds the same collection and blocklist, with the same
      canonical bytes, or none at all. */
  lemma ConstructionIgnoresOrder(issuer: Bytes32, title: Utf8, description: Utf8, a: seq<Subject>, b: seq<Subject>,
                                 stamp: Stamp)
    requires multiset(a) == multiset(b)
    ensures NewCollection(issuer, title, description, a, stamp) == NewCollection(issuer, title, description, b, stamp)
    ensures NewBlocklist(issuer, title, a, stamp) == NewBlocklist(issuer, title, b, stamp)
  {
    SubjectsIgnoreOrder(a, b);
  }

  /** What is constructed carries what was handed in, the subjects in their order. */
  lemma ConstructionKeepsFields(issuer: Bytes32, title: Utf8, description: Utf8, subjects: seq<Subject>, stamp: Stamp)
    ensures var r := NewCollection(issuer, title, description, subjects, stamp);
      r.Some? ==>
        && r.value.Collection? && r.value.issuer == issuer && r.value.title == title
        && r.value.description == description && r.value.stamp == stamp
        && multiset(r.value.subjects) == multiset(subjects)
    ensures var r := NewBlocklist(issuer, title, subjects, stamp);
      r.Some? ==>
        && r.value.Blocklist? && r.value.issuer == issuer && r.value.title == title && r.value.stamp == stamp
        && multiset(r.value.subjects) == multiset(subjects)
  {
    SortMultiset(SubjectLeq, subjects);
    hide SubjectLeq, Sort;
  }

  lemma {:induction false} AscendingSubjects(s: seq<Subject>, i: nat, j: nat)
    requires ValidSubjects(s) && i < j < |s|
    ensures SubjectLeq(s[i], s[j]) && s[i] != s[j]
    decreases j
  {
    SubjectOrder();
    hide SubjectLeq;
    assert !SubjectLeq(s[j], s[j - 1]);
    if i < j - 1 { AscendingSubjects(s, i, j - 1); }
  }

  /** Preparation succeeds exactly on 1 to 10000 distinct subjects, and keeps each of them. */
  lemma PrepareSubjectsMeaning(subjects: seq<Subject>)
    ensures PrepareSubjects(subjects).Some? <==>
              && 1 <= |subjects| <= 10_000
              && forall s :: s in multiset(subjects) ==> multiset(subjects)[s] == 1
    ensures PrepareSubjects(subjects).Some? ==> multiset(PrepareSubjects(subjects).value) == multiset(subjects)
  {
    hide SubjectLeq;
    var sorted := Sort(SubjectLeq, subjects);
    SortMultiset(SubjectLeq, subjects);
    SubjectOrder();
    SortSorts(SubjectLeq, subjects);
    Singles(sorted);
    if ValidSubjects(sorted) {
      forall i, j | 0 <= i < j < |sorted| ensures sorted[i] != sorted[j] {
        AscendingSubjects(sorted, i, j);
      }
    }
    if 1 <= |subjects| <= MAX_SUBJECTS && forall s :: s in multiset(subjects) ==> multiset(subjects)[s] == 1 {
      forall i | 0 < i < |sorted| ensures !SubjectLeq(sorted[i], sorted[i - 1]) {
        assert sorted[i - 1] != sorted[i] && SubjectLeq(sorted[i - 1], sorted[i]);
      }
    }
  }

  /** Prepared subjects stand in strictly ascending order of their sort keys. */
  lemma PreparedAscend(subjects: seq<Subject>, i: nat, j: nat)
    requires PrepareSubjects(subjects).Some? && i < j < |PrepareSubjects(subjects).value|
    ensures var prepared := PrepareSubjects(subjects).value;
      PathLess(SortKey(prepared[i]), SortKey(prepared[j]))
  {
    hide SubjectLeq, SortKey, Sort, PathLeq;
    var prepared := PrepareSubjects(subjects).value;
    AscendingSubjects(prepared, i, j);
    SubjectOrder();
    SubjectsSortByKey(prepared[j], prepared[i]);
    hide PrepareSubjects, ValidSubjects;
  }
}
