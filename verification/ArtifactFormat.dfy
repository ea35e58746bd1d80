/** The wire format of the five artifact kinds, position by position. */
module ArtifactFormat {
  import opened Bytes
  import opened Outcomes
  import opened Sequences
  import opened DatasetManifest
  import opened TorrentReference
  import opened A = Artifact
  import opened WireFormat

  // ---- fields ---------------------------------------------------------------------------------

  predicate ByteAt(bytes: seq<byte>, at: nat, b: int)
  {
    at < |bytes| && bytes[at] == b
  }

  function SubjectText(s: Subject): Blob
  {
    match s case Torrent(r) => Print(r) case Uri(u) => u
  }

  function SubjectSize(s: Subject): nat
  {
    |SubjectText(s)| + 9
  }

  function SubjectsSize(subjects: seq<Subject>): nat
  {
    Sum(subjects, SubjectSize)
  }

  /** 0 and the printed reference of a torrent, or 1 and a URI. */
  predicate SubjectAt(bytes: seq<byte>, at: nat, s: Subject)
  {
    ByteAt(bytes, at, if s.Torrent? then 0 else 1) && TextAt(bytes, at + 1, SubjectText(s))
  }

  /** The number of subjects and each of them at its running offset. */
  predicate SubjectsAt(bytes: seq<byte>, at: nat, subjects: Subjects)
  {
    && WordAt(bytes, at, |subjects|)
    && forall i :: 0 <= i < |subjects| ==> SubjectAt(bytes, at + 8 + SubjectsSize(subjects[..i]), subjects[i])
  }

  /** 0 to 4; an indexer's claim carries its key. */
  predicate ProvenanceAt(bytes: seq<byte>, at: nat, p: Provenance)
  {
    match p
    case InfoAuthenticated => ByteAt(bytes, at, 0)
    case TopLevelHint => ByteAt(bytes, at, 1)
    case MagnetHint => ByteAt(bytes, at, 2)
    case IndexerClaim(indexer) => ByteAt(bytes, at, 3) && BytesAt(bytes, at + 1, indexer)
    case LocalClient => ByteAt(bytes, at, 4)
  }

  function ProvenanceSize(p: Provenance): nat
  {
    if p.IndexerClaim? then 33 else 1
  }

  /** 0 for none, or 1 and the text. */
  predicate LocatorAt(bytes: seq<byte>, at: nat, l: Option<Utf8>)
  {
    if l.None? then ByteAt(bytes, at, 0) else ByteAt(bytes, at, 1) && TextAt(bytes, at + 1, l.value)
  }

  function LocatorSize(l: Option<Utf8>): nat
  {
    if l.None? then 1 else 9 + |l.value|
  }

  /** 0; 1 and a URI; or 2, the provenance and the locator. */
  predicate SourceAt(bytes: seq<byte>, at: nat, s: Source)
  {
    match s
    case Direct => ByteAt(bytes, at, 0)
    case FromUri(u) => ByteAt(bytes, at, 1) && TextAt(bytes, at + 1, u)
    case Import(p, l) =>
      ByteAt(bytes, at, 2) && ProvenanceAt(bytes, at + 1, p) && LocatorAt(bytes, at + 1 + ProvenanceSize(p), l)
  }

  function SourceSize(s: Source): nat
  {
    match s
    case Direct => 1
    case FromUri(u) => 9 + |u|
    case Import(p, l) => 1 + ProvenanceSize(p) + LocatorSize(l)
  }

  /** Creation time and revision as words, then the source. */
  predicate StampAt(bytes: seq<byte>, at: nat, s: Stamp)
  {
    WordAt(bytes, at, s.createdAt) && WordAt(bytes, at + 8, s.revision) && SourceAt(bytes, at + 16, s.source)
  }

  // ---- artifacts ------------------------------------------------------------------------------

  /** The domain name of each kind. */
  function Domain(a: Artifact): seq<byte>
  {
    match a
    case TagClaim(_, _, _, _, _) => Ascii("pubky.swarm/tag-claim/v1")
    case Collection(_, _, _, _, _) => Ascii("pubky.swarm/collection/v1")
    case Tombstone(_, _, _, _) => Ascii("pubky.swarm/tombstone/v1")
    case Moderation(_, _, _, _, _) => Ascii("pubky.swarm/moderation-decision/v1")
    case Blocklist(_, _, _, _) => Ascii("pubky.swarm/blocklist/v1")
  }

  /** The fields of each kind in their order, the first at `at`. */
  predicate ContentAt(bytes: seq<byte>, at: nat, a: Artifact)
  {
    match a
    case TagClaim(_, subject, tag, operation, _) =>
      && SubjectAt(bytes, at, subject)
      && TextAt(bytes, at + SubjectSize(subject), tag)
      && ByteAt(bytes, at + SubjectSize(subject) + 8 + |tag|, if operation.Add? then 0 else 1)
    case Collection(_, title, description, subjects, _) =>
      && TextAt(bytes, at, title)
      && TextAt(bytes, at + 8 + |title|, description)
      && SubjectsAt(bytes, at + 16 + |title| + |description|, subjects)
    case Tombstone(_, subject, reason, _) =>
      SubjectAt(bytes, at, subject) && TextAt(bytes, at + SubjectSize(subject), reason)
    case Moderation(_, subject, action, reason, _) =>
      && SubjectAt(bytes, at, subject)
      && ByteAt(bytes, at + SubjectSize(subject), if action.Allow? then 0 else if action.Block? then 1 else 2)
      && TextAt(bytes, at + SubjectSize(subject) + 1, reason)
    case Blocklist(_, title, subjects, _) =>
      TextAt(bytes, at, title) && SubjectsAt(bytes, at + 8 + |title|, subjects)
  }

  function ContentSize(a: Artifact): nat
  {
    match a
    case TagClaim(_, subject, tag, _, _) => SubjectSize(subject) + 9 + |tag|
    case Collection(_, title, description, subjects, _) => 24 + |title| + |description| + SubjectsSize(subjects)
    case Tombstone(_, subject, reason, _) => SubjectSize(subject) + 8 + |reason|
    case Moderation(_, subject, _, reason, _) => SubjectSize(subject) + 9 + |reason|
    case Blocklist(_, title, subjects, _) => 16 + |title| + SubjectsSize(subjects)
  }

  // ---- where the encoding puts them ------------------------------------------------------------

  lemma BytePlaced(front: seq<byte>, b: byte, rest: seq<byte>)
    ensures ByteAt(front + [b] + rest, |front|, b)
  {
  }

  lemma TaggedText(front: seq<byte>, tag: byte, text: Blob, rest: seq<byte>)
    ensures var bytes := front + ([tag] + Framed(text)) + rest;
      ByteAt(bytes, |front|, tag) && TextAt(bytes, |front| + 1, text)
    ensures |[tag] + Framed(text)| == 9 + |text|
  {
    hide Framed, TextAt, ByteAt;
    TwoParts(front, [tag], Framed(text), rest);
    BytePlaced(front, tag, Framed(text) + rest);
    TextPlaced(front + [tag], text, rest);
  }

  lemma SubjectPlaced(front: seq<byte>, s: Subject, rest: seq<byte>)
    ensures SubjectAt(front + SubjectBytes(s) + rest, |front|, s)
    ensures |SubjectBytes(s)| == SubjectSize(s)
  {
    hide Framed, TextAt, ByteAt, Print;
    TaggedText(front, if s.Torrent? then 0 else 1, SubjectText(s), rest);
  }

  lemma {:induction false} SubjectListConcat(a: seq<Subject>, b: seq<Subject>)
    ensures SubjectList(a + b) == SubjectList(a) + SubjectList(b)
  {
    hide SubjectBytes;
    if a == [] {
      assert a + b == b;
    } else {
      assert (a + b)[1..] == a[1..] + b;
      SubjectListConcat(a[1..], b);
      Assoc(SubjectBytes(a[0]), SubjectList(a[1..]), SubjectList(b));
    }
  }

  lemma {:induction false} SubjectListSize(subjects: seq<Subject>)
    ensures |SubjectList(subjects)| == SubjectsSize(subjects)
  {
    hide SubjectBytes, SubjectSize;
    if subjects != [] {
      var n := |subjects| - 1;
      SubjectListSize(subjects[..n]);
      SubjectPlaced([], subjects[n], []);
      assert subjects[..n] + [subjects[n]] == subjects;
      SubjectListAppend(subjects[..n], subjects[n]);
      hide SubjectList;
    }
  }

  lemma ListedAround(subjects: seq<Subject>, i: nat)
    requires i < |subjects|
    ensures SubjectList(subjects) ==
              SubjectList(subjects[..i]) + (SubjectBytes(subjects[i]) + SubjectList(subjects[i + 1..]))
  {
    hide SubjectBytes, SubjectList;
    SubjectListConcat(subjects[..i], subjects[i..]);
    ListedHead(subjects[i..]);
    assert subjects[..i] + subjects[i..] == subjects && subjects[i..][1..] == subjects[i + 1..];
  }

  lemma ListedHead(subjects: seq<Subject>)
    requires subjects != []
    ensures SubjectList(subjects) == SubjectBytes(subjects[0]) + SubjectList(subjects[1..])
  {
  }

  lemma InTheMiddle(front: seq<byte>, a: seq<byte>, b: seq<byte>, c: seq<byte>, rest: seq<byte>)
    ensures front + (a + (b + c)) + rest == front + a + b + (c + rest)
  {
  }

  lemma ListedSubjectPlaced(front: seq<byte>, subjects: seq<Subject>, i: nat, rest: seq<byte>)
    requires i < |subjects|
    ensures SubjectAt(front + SubjectList(subjects) + rest, |front| + SubjectsSize(subjects[..i]), subjects[i])
  {
    hide SubjectAt, SubjectBytes, SubjectsSize, SubjectList;
    var before, after := SubjectList(subjects[..i]), SubjectList(subjects[i + 1..]);
    ListedAround(subjects, i);
    SubjectListSize(subjects[..i]);
    SubjectPlaced(front + before, subjects[i], after + rest);
    InTheMiddle(front, before, SubjectBytes(subjects[i]), after, rest);
  }

  lemma SubjectsPlaced(front: seq<byte>, subjects: Subjects, rest: seq<byte>)
    ensures SubjectsAt(front + SubjectsBytes(subjects) + rest, |front|, subjects)
    ensures |SubjectsBytes(subjects)| == 8 + SubjectsSize(subjects)
  {
    hide SubjectAt, SubjectList, SubjectsSize, U64Bytes, WordAt;
    var count := U64Bytes(|subjects|);
    TwoParts(front, count, SubjectList(subjects), rest);
    WordPlaced(front, |subjects|, SubjectList(subjects) + rest);
    forall i | 0 <= i < |subjects|
      ensures SubjectAt(front + SubjectsBytes(subjects) + rest, |front| + 8 + SubjectsSize(subjects[..i]), subjects[i])
    {
      ListedSubjectPlaced(front + count, subjects, i, rest);
    }
    SubjectListSize(subjects);
  }

  lemma ProvenancePlaced(front: seq<byte>, p: Provenance, rest: seq<byte>)
    ensures ProvenanceAt(front + ProvenanceBytes(p) + rest, |front|, p)
    ensures |ProvenanceBytes(p)| == ProvenanceSize(p)
  {
    if p.IndexerClaim? {
      TwoParts(front, [3], p.indexer, rest);
      PartPlaced(front + [3], p.indexer, rest);
    }
  }

  lemma LocatorPlaced(front: seq<byte>, l: Option<Utf8>, rest: seq<byte>)
    ensures LocatorAt(front + LocatorBytes(l) + rest, |front|, l)
    ensures |LocatorBytes(l)| == LocatorSize(l)
  {
    if l.Some? {
      hide Framed, TextAt;
      TaggedText(front, 1, l.value, rest);
    } else {
      BytePlaced(front, 0, rest);
    }
  }

  lemma SourcePlaced(front: seq<byte>, s: Source, rest: seq<byte>)
    ensures SourceAt(front + SourceBytes(s) + rest, |front|, s)
    ensures |SourceBytes(s)| == SourceSize(s)
  {
    hide Framed, TextAt, ProvenanceAt, LocatorAt, ProvenanceBytes, LocatorBytes, ProvenanceSize, LocatorSize;
    match s {
      case Direct => BytePlaced(front, 0, rest);
      case FromUri(u) => TaggedText(front, 1, u, rest);
      case Import(p, l) =>
        ThreeParts(front, [2], ProvenanceBytes(p), LocatorBytes(l), rest);
        BytePlaced(front, 2, ProvenanceBytes(p) + LocatorBytes(l) + rest);
        ProvenancePlaced(front + [2], p, LocatorBytes(l) + rest);
        LocatorPlaced(front + [2] + ProvenanceBytes(p), l, rest);
    }
  }

  lemma StampPlaced(front: seq<byte>, s: Stamp, rest: seq<byte>)
    ensures StampAt(front + StampBytes(s) + rest, |front|, s)
    ensures |StampBytes(s)| == 16 + SourceSize(s.source)
  {
    hide U64Bytes, WordAt, SourceAt, SourceBytes, SourceSize;
    var created, revision := U64Bytes(s.createdAt), U64Bytes(s.revision);
    ThreeParts(front, created, revision, SourceBytes(s.source), rest);
    WordPlaced(front, s.createdAt, revision + SourceBytes(s.source) + rest);
    WordPlaced(front + created, s.revision, SourceBytes(s.source) + rest);
    SourcePlaced(front + created + revision, s.source, rest);
  }

  lemma TagClaimPlaced(front: seq<byte>, a: Artifact, rest: seq<byte>)
    requires a.TagClaim?
    ensures ContentAt(front + Content(a) + rest, |front|, a) && |Content(a)| == ContentSize(a)
  {
    hide SubjectBytes, Framed, SubjectAt, TextAt, SubjectSize;
    var subject, tag, op := SubjectBytes(a.subject), Framed(a.tag), [OperationByte(a.operation)];
    ThreeParts(front, subject, tag, op, rest);
    SubjectPlaced(front, a.subject, tag + op + rest);
    TextPlaced(front + subject, a.tag, op + rest);
    BytePlaced(front + subject + tag, op[0], rest);
  }

  lemma CollectionPlaced(front: seq<byte>, a: Artifact, rest: seq<byte>)
    requires a.Collection?
    ensures ContentAt(front + Content(a) + rest, |front|, a) && |Content(a)| == ContentSize(a)
  {
    hide SubjectsBytes, Framed, SubjectsAt, TextAt, SubjectsSize;
    var title, description, subjects := Framed(a.title), Framed(a.description), SubjectsBytes(a.subjects);
    ThreeParts(front, title, description, subjects, rest);
    TextPlaced(front, a.title, description + subjects + rest);
    TextPlaced(front + title, a.description, subjects + rest);
    SubjectsPlaced(front + title + description, a.subjects, rest);
  }

  lemma TombstonePlaced(front: seq<byte>, a: Artifact, rest: seq<byte>)
    requires a.Tombstone?
    ensures ContentAt(front + Content(a) + rest, |front|, a) && |Content(a)| == ContentSize(a)
  {
    hide SubjectBytes, Framed, SubjectAt, TextAt, SubjectSize;
    TwoParts(front, SubjectBytes(a.subject), Framed(a.reason), rest);
    SubjectPlaced(front, a.subject, Framed(a.reason) + rest);
    TextPlaced(front + SubjectBytes(a.subject), a.reason, rest);
  }

  lemma ModerationPlaced(front: seq<byte>, a: Artifact, rest: seq<byte>)
    requires a.Moderation?
    ensures ContentAt(front + Content(a) + rest, |front|, a) && |Content(a)| == ContentSize(a)
  {
    hide SubjectBytes, Framed, SubjectAt, TextAt, SubjectSize;
    var subject, action, reason := SubjectBytes(a.subject), [ActionByte(a.action)], Framed(a.reason);
    ThreeParts(front, subject, action, reason, rest);
    SubjectPlaced(front, a.subject, action + reason + rest);
    BytePlaced(front + subject, action[0], reason + rest);
    TextPlaced(front + subject + action, a.reason, rest);
  }

  lemma BlocklistPlaced(front: seq<byte>, a: Artifact, rest: seq<byte>)
    requires a.Blocklist?
    ensures ContentAt(front + Content(a) + rest, |front|, a) && |Content(a)| == ContentSize(a)
  {
    hide SubjectsBytes, Framed, SubjectsAt, TextAt, SubjectsSize;
    TwoParts(front, Framed(a.title), SubjectsBytes(a.subjects), rest);
    TextPlaced(front, a.title, SubjectsBytes(a.subjects) + rest);
    SubjectsPlaced(front + Framed(a.title), a.subjects, rest);
  }

  lemma ContentPlaced(front: seq<byte>, a: Artifact, rest: seq<byte>)
    ensures ContentAt(front + Content(a) + rest, |front|, a) && |Content(a)| == ContentSize(a)
  {
    hide Content, ContentAt, ContentSize;
    match a {
      case TagClaim(_, _, _, _, _) => TagClaimPlaced(front, a, rest);
      case Collection(_, _, _, _, _) => CollectionPlaced(front, a, rest);
      case Tombstone(_, _, _, _) => TombstonePlaced(front, a, rest);
      case Moderation(_, _, _, _, _) => ModerationPlaced(front, a, rest);
      case Blocklist(_, _, _, _) => BlocklistPlaced(front, a, rest);
    }
  }

  lemma KindPrefixIsDomain(a: Artifact)
    ensures KindPrefix(a) == Domain(a) + [0]
  {
  }

  /** An artifact byte by byte: the NUL-terminated domain name of its kind, the issuer, its fields,
      creation time, revision and source, and nothing after. */
  lemma ArtifactLayout(a: Artifact, bytes: seq<byte>)
    requires bytes == A.Encode(a)
    ensures BytesAt(bytes, 0, Domain(a) + [0])
    ensures var at := |Domain(a)| + 1;
      && BytesAt(bytes, at, a.issuer)
      && ContentAt(bytes, at + 32, a)
      && StampAt(bytes, at + 32 + ContentSize(a), a.stamp)
      && |bytes| == at + 48 + ContentSize(a) + SourceSize(a.stamp.source)
  {
    hide KindPrefix, Domain, BytesAt, ContentAt, StampAt, Content, ContentSize, StampBytes, SourceSize;
    KindPrefixIsDomain(a);
    var prefix, content, stamp := KindPrefix(a), Content(a), StampBytes(a.stamp);
    PartPlaced([], prefix, a.issuer + content + stamp);
    PartPlaced(prefix, a.issuer, content + stamp);
    ContentPlaced(prefix + a.issuer, a, stamp);
    StampPlaced(prefix + a.issuer + content, a.stamp, []);
    FourInARow(prefix, a.issuer, content, stamp);
  }

  lemma FourInARow(a: seq<byte>, b: seq<byte>, c: seq<byte>, d: seq<byte>)
    ensures a + b + c + d == [] + a + (b + c + d) == a + b + (c + d) == a + b + c + d + []
  {
  }
}
