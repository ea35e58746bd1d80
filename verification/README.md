# Pubky Swarm: a verified model of the authenticated-dataset stack

This project models, in Dafny, the parts of the repository that decide what a reader may
believe: the canonical encodings, the publication protocols, rollback protection, the
libtorrent session facade, metainfo validation, the federated catalogue merge and the HTTP
range parser. `dafny verify dfyconfig.toml` checks all of it.

## How the model is built

- Pure code is functions and lemmas. Code that updates state is classes and methods with
  loops, each proved against a specification function or against a step machine.
- A protocol is a step machine. Each await is one step; a step of any process may come between
  any two steps of another; a crash or a failed operation may come at any step. A write that
  reports failure may have been applied or not. Theorems quantify over every list of steps.
- Functions that the methods share with their specifications are pinned by laws that do not name
  them: positions of bytes, answers by input, and what each refusal says.
- Three long functions of the source are two methods here: `Publisher.SendHead` and `WritePlan` are
  the second halves of `publish`, and `ValidateEntries` that of `validate_metainfo`.
- BLAKE3 and Ed25519 key validity are the parameters `Crypto(hash, validKey)`. No lemma assumes
  a collision-free hash. Where a digest must identify content, the hypothesis is `NoCollision`:
  no two of the byte strings hashed in that very run collide.
- Integers carry their width: 64-bit words are `u64`/`i64` subsets, counters wrap where the
  source's do, and checked additions fail where the source's fail. Strings are UTF-8 bytes.
- The DHT item of a publisher is a register: it takes a put that is not older than what it
  holds and, when the put names a previous sequence, only while that is still its sequence. It
  may also forget, and third parties may put back any head that once landed.
- One PUT, one rename, one SQL statement and one compare-and-swap on a DHT item are atomic. A
  request that takes effect long after its failure was reported is not modelled.

| file | models |
|---|---|
| `Outcomes`, `Sequences`, `Bytes`, `Order` | option and result types; mapping, sums, searches; words, framing, UTF-8; orders and stable sorting |
| `LogicalPath`, `Collisions`, `Release` | portable paths; the neighbour check on path strings; release torrents |
| `DatasetManifest`, `Artifact`, `TorrentReference` | canonical manifests, the five artifact kinds, printed torrent references |
| `WireFormat`, `ArtifactFormat`, `ManifestRefusals` | canonical bytes position by position; what each refusal of the manifest code says |
| `Metainfo` | metainfo validation |
| `DatasetCore`, `Publications`, `MemoryDataset` | snapshots, heads, the freshness tracker; which publications can be staged; the in-memory publisher |
| `Homeserver`, `HomeserverPublisher` | the Homeserver protocol and its `publish` method |
| `SwarmHead`, `TorrentPublisher`, `TorrentPublishing`, `TorrentReader` | BEP 46 heads; the torrent publication protocol, its methods, and the cached reader |
| `TorrentSequences`, `TorrentSwaps`, `TorrentSharing` | which heads land over which in that protocol; the digests publications expect; publishers that share a process |
| `Seeder` | the persisted high-water mark and the seeding cycle |
| `SessionTable`, `SessionRuns`, `SessionTexts`, `SessionAnswers`, `SessionFacade` | the session facade: calls, runs, texts that are not UTF-8, what is handed out, and the class |
| `CatalogMerge`, `ByteRange` | the catalogue merge; HTTP byte ranges |

## Where the code and its promises part

- **Neighbour check on path strings.** Manifests and releases sort whole path strings and
  compare neighbours to keep a file from also being a directory. Bytes below `/` break this:
  `a`, `a.txt`, `a/b` is accepted. `Collisions.AcceptedIsCollisionFree` and
  `Collisions.TrustedPools` give the exact condition, `Release.ManifestMissesCollision` the
  manifest. The component-ordered check of metainfo has no such gap
  (`Metainfo.NeighboursFindEveryCollision`).
- **A panic in metainfo validation.** `crates/torrent-engine/src/validate.rs:35-38` slices the
  first three bytes of a four-byte stem, which stops the program when a character straddles that
  point. `Metainfo.ValidateMetainfo` says for which metainfo exactly (`Stops`), and
  `Metainfo.StoppingName` gives one: a torrent named with the letters a, b and U+00E9.
- **Alert texts.** The session facade turns native texts into Rust strings, which throws on bytes
  that are not UTF-8 (`crates/libtorrent-engine/src/facade.cc:40-42`). Alerts are already popped
  then: the rest of the batch is lost, and removals noted so far erase nothing
  (`SessionTexts.RecordedWhole`, `SessionTexts.ServedWhole`, `SessionRuns.ErasedExactly` are the
  exact conditions, `SessionTexts.UnreadableAlertKeepsRecord` an input, and
  `SessionTexts.LostRemovalStays` how long it lasts). A failed resume request whose error text is
  such a text is never handed over nor erased (`SessionTexts.HandedOverExactly`,
  `SessionTexts.UnreadableErrorIsNeverHandedOver`).
- **`Freshness::Unchanged`** is documented as the same creation time and digest
  (`crates/dataset-core/src/lib.rs:228-229`); `check` never looks at the time
  (`DatasetCore.UnchangedIgnoresTime`). The documented reading holds exactly when the times agree
  (`DatasetCore.UnchangedExactly`), and always for heads made from manifests, whose digest fixes
  their time (`DatasetCore.UnchangedForManifests`).
- **Duplicate paths in a publication** are promised to be rejected at publish time. They are,
  but always by the manifest as unsorted; the snapshot check can never refuse a staged
  publication (`DatasetCore.StagedIsSupplied`).
- **First torrent publications** carry no previous sequence, so two of them can both succeed
  with sequence 1 (`TorrentSequences.FirstPublicationsRace`); heads are numbered 1, 2, 3, ...
  exactly when at most one process publishes (`TorrentSequences.ConsecutiveExactly`). For the same
  reason a first head that landed without its publisher hearing of it can be overwritten, instead
  of making later publications refuse. `TorrentSequences.UnheardHeadIsFinalExactly` says by whom
  exactly, and `TorrentSequences.RivalsExactly` that only first heads are exposed.
- **The digest a torrent publication expects** is compared with local state only, never with the
  head itself (`crates/dataset-torrent/src/lib.rs:331-336`). A process that lost the race of first
  publications can therefore replace a head its caller has not seen
  (`TorrentSwaps.RacedHeadIsReplacedUnseen`). The comparison protects every head exactly when at most
  one process publishes (`TorrentSwaps.SwappedExactly`), and every head after the second in any
  case (`TorrentSwaps.LandingReplacesExpected`).
- **Staging directories** of the torrent publisher are named by digest and operating-system
  process (`crates/dataset-torrent/src/lib.rs:463-467`), so two publisher objects in one process can
  rename each other's half-filled directory into place. Registered heads are complete exactly when
  no two publishers share a process (`TorrentSharing.CompleteExactly`).
- **HTTP ranges.** Section 14.1 of RFC 9110 makes unit names case-insensitive and section 14.1.2
  puts no bound on numbers and has no signs; the parser wants `bytes` in lower case, refuses
  numbers of 2^64 and more, and takes a plus sign. `ByteRange.AgreementExactly` says on which
  headers they part, `ByteRange.ParserAccepts` what the parser answers on every header, and
  `ByteRange.UpperCaseUnitRefused`, `ByteRange.LargeNumberExample` and
  `ByteRange.SignedRangeAccepted` give inputs.

## Model

| member | source | states |
|---|---|---|
| LogicalPath.PortablePathMeaning | crates/swarm-protocol/src/lib.rs:553-598 | the path check accepts exactly relative, `/`-joined lists of portable names within the length limits, and no other spelling of the same path |
| LogicalPath.PortablePathExactly | crates/swarm-protocol/src/lib.rs:553-611 | every rule spelled out: at most 4096 bytes and 64 components, each of 1 to 255 bytes without control characters or backslashes, not ending in a dot or a space, and no device name |
| LogicalPath.ReservedExactly | crates/swarm-protocol/src/lib.rs:600-611 | a name is reserved exactly when what stands before its first dot spells, in either case, CON, PRN, AUX, NUL, or COM or LPT with a digit from 1 to 9 |
| LogicalPath.JoinSplit | crates/swarm-protocol/src/lib.rs:553-598 | splitting a path at its separators loses nothing: joining the pieces gives the path back |
| Bytes.ValidUtf8Meaning | crates/swarm-protocol/src/lib.rs:1010-1011 | the text check accepts exactly the UTF-8 forms of sequences of Unicode scalar values |
| Bytes.WordBytes | crates/swarm-protocol/src/lib.rs:957-966 | a word is eight bytes, the most significant first |
| WireFormat.WordsAscend | crates/swarm-protocol/src/lib.rs:957-966 | encoded words sort as their numbers |
| LogicalPath.BelowIsComponentPrefix | crates/swarm-protocol/src/lib.rs:897-915 | the string prefix test the collision check uses is the proper-prefix relation on component lists |
| DatasetManifest.ValidationMeaning | crates/swarm-protocol/src/lib.rs:881-918 | validation reports no fault exactly for a nonzero timestamp, at most 100,000 entries, and portable, strictly ascending paths of which none lies below its neighbour |
| DatasetManifest.Validate | crates/swarm-protocol/src/lib.rs:881-918 | the loop over entries with its remembered previous path reports the first fault of the list |
| DatasetManifest.ValidIsSorted | crates/swarm-protocol/src/lib.rs:881-918 | checking neighbours is enough: all pairs of a valid manifest are strictly ordered and distinct |
| DatasetManifest.NewMeaning | crates/swarm-protocol/src/lib.rs:852-867 | a constructed manifest is valid and holds the given entries, each as often as given, under the given publisher and time |
| DatasetManifest.NewExactly | crates/swarm-protocol/src/lib.rs:852-867 | construction answers a manifest if and only if it is a valid one of this publisher and time holding exactly the given entries |
| ManifestRefusals.ValidationNames | crates/swarm-protocol/src/lib.rs:881-918 | validation names a fault exactly when it is the first in its order: time, number of objects, then the first path at fault and what is wrong with it first |
| ManifestRefusals.NewRefuses | crates/swarm-protocol/src/lib.rs:852-867 | every refusal is true of the entries handed in |
| DatasetManifest.NewIgnoresOrder | crates/swarm-protocol/src/lib.rs:852-867 | any permutation of the entries gives the same manifest, hence the same canonical bytes, or the same fault |
| DatasetManifest.LookupMeaning | crates/swarm-protocol/src/lib.rs:939-944 | binary search finds an entry for a path if and only if the manifest declares it, and then that entry |
| DatasetManifest.ToCanonicalBytes | crates/swarm-protocol/src/lib.rs:952-967 | the byte-pushing loop writes the encoding the codec theorems are about |
| WireFormat.ManifestLayout | crates/swarm-protocol/src/lib.rs:952-967 | byte by byte: NUL-terminated domain name, publisher, creation time and count as big-endian words, then path length, path, size and digest of each object at its running offset, and nothing after |
| DatasetManifest.DecodeEncode | crates/swarm-protocol/src/lib.rs:952-1028 | decoding the encoding of a valid manifest gives it back |
| DatasetManifest.EncodeDecode | crates/swarm-protocol/src/lib.rs:974-1028 | whatever the strict decoder accepts is the encoding of the valid manifest it returns |
| DatasetManifest.CodecBijection | crates/swarm-protocol/src/lib.rs:952-1028 | accepted byte strings and valid manifests correspond one to one |
| DatasetManifest.EncodePrefixFree | crates/swarm-protocol/src/lib.rs:952-967 | canonical bytes followed by anything determine the manifest and where its bytes end |
| DatasetManifest.AcceptedPrefixFree | crates/swarm-protocol/src/lib.rs:974-1028 | no accepted input has a proper prefix or extension that is also accepted |
| DatasetManifest.ReadObjects | crates/swarm-protocol/src/lib.rs:1005-1015 | the decoder's cursor loop reads exactly the recursive decoding of the object list |
| DatasetManifest.FromCanonicalBytes | crates/swarm-protocol/src/lib.rs:974-1028 | the cursor-advancing decoder computes the decoding the bijection is about, error for error |
| ManifestRefusals.DecodeRefuses | crates/swarm-protocol/src/lib.rs:974-1028 | each error of the decoder is given exactly when it is true of the input and everything in front of that point could be read |
| DatasetManifest.VerifyObjectMeaning | crates/swarm-protocol/src/lib.rs:1042-1059 | bytes verify if and only if the manifest declares the path with their size and digest |
| ManifestRefusals.VerifyRefuses | crates/swarm-protocol/src/lib.rs:1042-1059 | which of the three reasons is given, exactly |
| Collisions.NeighboursAcceptedMeaning | crates/swarm-protocol/src/lib.rs:535-543 | the neighbour check accepts a sorted list exactly when paths are distinct and each file also used as a directory is shielded by a path extending it with a byte below the separator |
| Collisions.AcceptedIsCollisionFree | crates/swarm-protocol/src/lib.rs:897-915 | an accepted list is free of collisions over all pairs exactly when no file of it is both so extended and used as a directory |
| Collisions.UnshieldedCheckIsExact | crates/swarm-protocol/src/lib.rs:535-543 | without such an extension in the list, comparing neighbours is comparing all pairs |
| Collisions.TrustedPools | crates/swarm-protocol/src/lib.rs:897-915 | the check can be trusted on every selection from a pool of paths if and only if the pool has no shielded directory |
| Collisions.NeighbourCheckMissesCollision | crates/swarm-protocol/src/lib.rs:535-543 | the portable paths a, a.txt, a/b are sorted and pass although a is a directory of a/b |
| Release.ScanFiles | crates/swarm-protocol/src/lib.rs:519-534 | the running total is the true sum, reported as overflowing only when it does not fit 64 bits |
| Release.ScanNeighbours | crates/swarm-protocol/src/lib.rs:535-543 | the neighbour loop decides the neighbour check |
| Release.ScanTrackers | crates/swarm-protocol/src/lib.rs:613-621 | the tracker list passes exactly when it is short enough and each URL passes; a refusal names its cause |
| Release.ValidateTorrent | crates/swarm-protocol/src/lib.rs:519-551 | a release torrent is accepted if and only if size, counts, paths, neighbours, total and trackers are as required, and every refusal is true of the torrent |
| Release.ValidTorrentIgnoresOrder | crates/swarm-protocol/src/lib.rs:519-551 | listing the same files in another order changes no verdict |
| Release.ManifestCollisionFree | crates/swarm-protocol/src/lib.rs:897-915 | for valid manifests: no file is a directory, over all pairs, if and only if no shielded directory is declared |
| Release.ManifestMissesCollision | crates/swarm-protocol/src/lib.rs:897-915 | the condition is needed: a manifest of a, a.txt, a/b is valid |
| TorrentReference.FromSha256 | crates/swarm-protocol/src/catalog.rs:29-40 | the copying loop gives the multihash tag followed by the digest |
| TorrentReference.ParsePrint | crates/swarm-protocol/src/catalog.rs:177-213 | parsing a printed v1, v2 or hybrid reference gives it back |
| TorrentReference.PrintParse | crates/swarm-protocol/src/catalog.rs:62-93 | printing any accepted string gives that string: each reference has one spelling |
| TorrentReference.PrintInjective | crates/swarm-protocol/src/catalog.rs:177-187 | distinct references print differently |
| TorrentReference.HexUnhex | crates/swarm-protocol/src/catalog.rs:2065-2077 | lower-case hexadecimal text is recovered from the bytes it decodes to |
| TorrentReference.HexAt | crates/swarm-protocol/src/catalog.rs:177-187 | each byte is spelled by two lower-case digits, the high one first |
| TorrentReference.PrintSpelling | crates/swarm-protocol/src/catalog.rs:177-187 | the three printed forms |
| TorrentReference.SplitOnceMeaning | crates/swarm-protocol/src/catalog.rs:188-213 | splitting is around the first separator |
| TorrentReference.ParseRefuses | crates/swarm-protocol/src/catalog.rs:188-213 | each refusal of the parser with exactly the texts that get it |
| Artifact.CanonicalWriter.PutString | crates/swarm-protocol/src/catalog.rs:2110-2113 | appends the eight-byte length and the bytes, and nothing before them changes |
| Artifact.CanonicalWriter.PutSubjects | crates/swarm-protocol/src/catalog.rs:2132-2137 | the subject loop appends the counted list encoding the prefix-freeness lemmas are about |
| Artifact.CanonicalWriter.PutSource | crates/swarm-protocol/src/catalog.rs:2139-2170 | each attribution appends its tagged encoding |
| Artifact.ToCanonicalBytes | crates/swarm-protocol/src/catalog.rs:1232-1246 | the writer's calls for each of the five kinds produce the canonical encoding |
| ArtifactFormat.ArtifactLayout | crates/swarm-protocol/src/catalog.rs:2095-2175 | byte by byte, for each kind: NUL-terminated domain name, issuer, the fields in order at their offsets, creation time, revision and source, and nothing after |
| Artifact.SplitSubjects | crates/swarm-protocol/src/catalog.rs:2132-2137 | subject lists followed by anything are determined by the bytes |
| Artifact.SplitSource | crates/swarm-protocol/src/catalog.rs:2139-2170 | source attributions followed by anything are determined by the bytes |
| Artifact.SplitTagClaim | crates/swarm-protocol/src/catalog.rs:1232-1246 | the fields of a tag claim are determined by its bytes |
| Artifact.SplitCollection | crates/swarm-protocol/src/catalog.rs:1404-1415 | the fields of a collection are determined by its bytes |
| Artifact.SplitTombstone | crates/swarm-protocol/src/catalog.rs:1560-1570 | the fields of a tombstone are determined by its bytes |
| Artifact.SplitModeration | crates/swarm-protocol/src/catalog.rs:1736-1751 | the fields of a moderation decision are determined by its bytes |
| Artifact.SplitBlocklist | crates/swarm-protocol/src/catalog.rs:1897-1907 | the fields of a blocklist are determined by its bytes |
| Artifact.KindPrefixesDiffer | crates/swarm-protocol/src/catalog.rs:2097-2100 | the five domain prefixes are pairwise no prefixes of one another, whatever follows |
| Artifact.EncodePrefixFree | crates/swarm-protocol/src/catalog.rs:2095-2175 | canonical bytes followed by anything determine kind, every field, and the rest |
| Artifact.EncodeInjective | crates/swarm-protocol/src/catalog.rs:2095-2175 | equal canonical bytes mean the same kind and equal fields |
| Artifact.IdsIdentify | crates/swarm-protocol/src/catalog.rs:1038-1042 | two artifacts with one id are equal, or their encodings are a hash collision |
| Artifact.NeverAManifest | crates/swarm-protocol/src/catalog.rs:2097-2100 | no artifact's bytes begin the bytes of a dataset manifest, nor the reverse |
| Artifact.ConstructionIgnoresOrder | crates/swarm-protocol/src/catalog.rs:1313-1338 | any permutation of the subjects gives the same collection or blocklist, or the same refusal |
| Artifact.PrepareSubjectsMeaning | crates/swarm-protocol/src/catalog.rs:1958-1972 | sorting and checking neighbours accepts exactly nonempty, bounded lists without a repeated subject, and keeps their members |
| Artifact.SubjectsSortByKey | crates/swarm-protocol/src/catalog.rs:316-323 | the derived order on subjects is by kind and then by bytes |
| Artifact.PreparedAscend | crates/swarm-protocol/src/catalog.rs:1958-1972 | prepared subjects stand in strictly ascending order |
| Artifact.ConstructionKeepsFields | crates/swarm-protocol/src/catalog.rs:1313-1338 | what is constructed carries issuer, title, description, stamp and subjects as handed in |
| Metainfo.ReservedChecksAgree | crates/torrent-engine/src/validate.rs:27-42 | this crate and the protocol crate agree on reserved device names wherever this one answers at all |
| Metainfo.ComponentCheckMeaning | crates/torrent-engine/src/validate.rs:45-83 | a component passes exactly when safe and within its limit; the program stops exactly on safe names whose four-byte stem ends inside a character |
| Metainfo.JoinedBytes | crates/torrent-engine/src/validate.rs:169-180 | the counted path bytes are the length of the components joined with separators |
| Metainfo.NeighboursFindEveryCollision | crates/torrent-engine/src/validate.rs:189-207 | in component order, comparing neighbours finds every pair of which one path equals or extends the other |
| Metainfo.SortedPrefixFree | crates/torrent-engine/src/validate.rs:189-207 | sorting first makes the neighbour check decide prefix-freeness of the files as listed |
| Metainfo.ScanEntry | crates/torrent-engine/src/validate.rs:150-187 | an entry passes exactly when good, and stops the program exactly when its header fits and the first name that is not good splits a character |
| Metainfo.ScanEntries | crates/torrent-engine/src/validate.rs:149-188 | the loop's total is the true sum of lengths, without overflow, of entries that all pass; it stops the program exactly at the first entry that is not good, when that one does |
| Metainfo.ScanPaths | crates/torrent-engine/src/validate.rs:189-207 | the neighbour loop finds a collision exactly when there is one between neighbours, and reports a real pair |
| Metainfo.ValidateMetainfo | crates/torrent-engine/src/validate.rs:127-222 | metainfo is accepted if and only if its name, each listed file or the single file, all paths together and the total meet the rules and limits; it stops the program exactly as `Stops` says; every refusal is true of the metainfo |
| Metainfo.StoppingName | crates/torrent-engine/src/validate.rs:33-39 | a concrete name, safe in every other respect, stops validation whatever the limits |
| DatasetCore.ContentsMeaning | crates/dataset-core/src/lib.rs:335-341 | the map built from the files has exactly their paths, and without duplicates exactly their bytes |
| DatasetCore.CollectFiles | crates/dataset-core/src/lib.rs:335-341 | inserting stops if and only if a path repeats |
| DatasetCore.CheckObjects | crates/dataset-core/src/lib.rs:342-358 | every declared object is present with its size and digest, or the fault is true of the input |
| DatasetCore.CheckDeclared | crates/dataset-core/src/lib.rs:359-363 | every supplied path is declared, or the one reported is not |
| DatasetCore.NewSnapshot | crates/dataset-core/src/lib.rs:335-368 | a snapshot is built if and only if paths are distinct, equal as a set to the declared ones, and sizes and digests match; every refusal is true of the input |
| DatasetCore.StagedIsSupplied | crates/dataset-core/src/lib.rs:676-687 | once its manifest is constructed, a publication always passes the snapshot check |
| DatasetCore.Stage | crates/dataset-core/src/lib.rs:676-687 | staging runs the manifest construction and the snapshot check and yields the staged snapshot |
| Publications.StagedExactly | crates/dataset-core/src/lib.rs:676-687 | staging succeeds exactly for a nonzero time and at most 100,000 files under distinct portable paths that pass the neighbour check |
| Publications.StagedMeaning | crates/dataset-core/src/lib.rs:676-687 | what is staged: the one valid manifest of the entries of the files, and the files by path |
| Publications.StagedRefuses | crates/dataset-core/src/lib.rs:676-687 | a refusal is always the manifest's and true of the files |
| DatasetCore.FreshnessTracker.Accept | crates/dataset-core/src/lib.rs:308-312 | classifies as `check` does, records the head on success, and records nothing on error |
| DatasetCore.CheckMeaning | crates/dataset-core/src/lib.rs:276-301 | each of the six answers with exactly the heads that get it |
| DatasetCore.UnchangedIgnoresTime | crates/dataset-core/src/lib.rs:228-301 | a head that differs from the highest in its creation time alone is called unchanged |
| DatasetCore.UnchangedExactly | crates/dataset-core/src/lib.rs:276-301 | unchanged means publisher, sequence and digest agree; the head is the same if and only if the times agree too |
| DatasetCore.UnchangedForManifests | crates/dataset-core/src/lib.rs:228-301 | for heads of manifests that do not collide, unchanged means the same head and the same manifest |
| DatasetCore.AcceptedIsConsistent | crates/dataset-core/src/lib.rs:276-312 | fed any heads, the tracker never lowers its mark, never accepts two digests at one sequence, never mixes publishers |
| DatasetCore.ConsistentIsAccepted | crates/dataset-core/src/lib.rs:276-312 | it accepts a whole list of heads if and only if the list is consistent in that sense |
| MemoryDataset.MemoryPublisher.CommitLocked | crates/dataset-core/src/lib.rs:694-714 | the locked section commits one head after the expected one, or changes nothing |
| MemoryDataset.MemoryPublisher.Publish | crates/dataset-core/src/lib.rs:670-717 | publication succeeds exactly for publishable files when the caller expects the current digest and a sequence is left, names what is missing otherwise, and does to the run model what a publication and its notification do |
| MemoryDataset.RunKeeps | crates/dataset-core/src/lib.rs:670-717 | under every interleaving, commits are numbered 1, 2, 3, ... without gaps, each replaced exactly the head it expected, and every notified head was committed |
| MemoryDataset.ObservedHeadsAreAccepted | crates/dataset-core/src/lib.rs:276-312 | heads read from the dataset at successive moments are all accepted by a tracker |
| MemoryDataset.WatchersSeeCommits | crates/dataset-core/src/lib.rs:727-744 | a watcher returns only committed heads, and never the one it already had |
| MemoryDataset.WatchersWakeExactly | crates/dataset-core/src/lib.rs:727-744 | in every run, a watcher that has seen nothing or a committed head wakes if and only if the channel holds another, with that one |
| MemoryDataset.LateNotificationHidesNewHead | crates/dataset-core/src/lib.rs:715-744 | notifications out of order can leave the channel on an old head for good: watching is a hint only |
| MemoryDataset.ReadsCurrentFiles | crates/dataset-core/src/lib.rs:641-646 | the current snapshot holds exactly the files of one publication |
| Homeserver.KeysIdentify | crates/dataset-homeserver/src/lib.rs:282-288 | head, manifest and object keys never coincide, and determine their digest and logical path |
| Homeserver.KeySpelling | crates/dataset-homeserver/src/lib.rs:282-288 | the keys of manifests and objects as they are written |
| Homeserver.LoadHeadMeaning | crates/dataset-homeserver/src/lib.rs:72-90 | what loading the head answers, exactly, for any store |
| Homeserver.LoadManifestMeaning | crates/dataset-homeserver/src/lib.rs:91-114 | a manifest is loaded if and only if its encoding is stored under the head's digest and agrees with the head in digest, publisher and time; each error exactly |
| Homeserver.GetMeaning | crates/dataset-homeserver/src/lib.rs:118-133 | over any three stores, bytes are returned if and only if they are stored for the object and match a declaration; nothing, and each error, exactly |
| Homeserver.BegunExactly | crates/dataset-homeserver/src/lib.rs:188-215 | a publication begins if and only if the head can be read, the caller expects its digest, a sequence is left and the files are publishable; its head is the next one |
| Homeserver.BegunRefuses | crates/dataset-homeserver/src/lib.rs:188-215 | each refusal is given exactly when everything asked before it is as it should be |
| Homeserver.GetIsAuthentic | crates/dataset-homeserver/src/lib.rs:72-133 | against any store at every fetch, returned bytes match the size and digest a valid manifest of this publisher declares, whose digest the head named |
| Homeserver.SameKeySameValue | crates/dataset-homeserver/src/lib.rs:218-233 | two publications that write one immutable key write the same document |
| Homeserver.RunKeeps | crates/dataset-homeserver/src/lib.rs:188-240 | in every reachable state, with any interleaving, crash or failed write, everything any stored head promised is in place |
| Homeserver.StoredHeadIsComplete | crates/dataset-homeserver/src/lib.rs:218-239 | the stored head names a digest whose manifest and every declared object are stored with matching bytes |
| Homeserver.GetAmongPublications | crates/dataset-homeserver/src/lib.rs:118-133 | a read whose three fetches get through, interleaved with publications, never errs and returns exactly what the head it read published under the path, or nothing; never a mix |
| Homeserver.SingleProcessIsSerial | crates/dataset-homeserver/src/lib.rs:188-207 | with one serialised publisher heads are numbered 1, 2, 3, ... and each replaced exactly the head it expected |
| Homeserver.TwoProcessesLoseUpdates | crates/dataset-homeserver/src/lib.rs:147-155 | the disclaimed case is real: with two or more processes both can publish sequence 1 and one head is lost |
| Homeserver.SerialExactly | crates/dataset-homeserver/src/lib.rs:147-207 | publications are serialised in every run if and only if at most one process publishes |
| Homeserver.SmallestRun | crates/dataset-homeserver/src/lib.rs:188-240 | for every hash there is a run without collisions that stores a head, so the theorems above speak of something |
| HomeserverPublisher.Publisher.Publish | crates/dataset-homeserver/src/lib.rs:188-240 | the method does to the store exactly what the step machine does, and succeeds exactly when the head can be read and replaced, the files are publishable and every write succeeds |
| HomeserverPublisher.Server.Put | crates/dataset-homeserver/src/lib.rs:218-239 | one PUT: applied, applied but reported as failed, or not applied |
| SwarmHead.EncodeValue | crates/swarm-head/src/lib.rs:60-67 | filling the buffer piece by piece gives the canonical value |
| SwarmHead.ValueBijection | crates/swarm-head/src/lib.rs:60-85 | a value decodes if and only if it is the encoding of an info hash, and then to that one |
| SwarmHead.SignedHeadsReadBack | crates/swarm-head/src/lib.rs:102-181 | signing succeeds exactly for positive sequences; an item reads as a head if and only if it is what signing would produce |
| SwarmHead.ResolveMeaning | crates/swarm-head/src/lib.rs:204-226 | a head resolves if and only if the item is canonical, positive and not below the highest sequence seen |
| SwarmHead.ResolveRefuses | crates/swarm-head/src/lib.rs:204-226 | nothing is answered exactly for an absent item, and each error exactly for the first of salt, sequence, value and mark that is wrong |
| TorrentPublisher.DirOfMeaning | crates/dataset-torrent/src/lib.rs:470-486 | a finished directory holds the canonical manifest, every object under its path with its bytes, and nothing else |
| TorrentPublisher.DirectoryNames | crates/dataset-torrent/src/lib.rs:470-486 | where a snapshot directory keeps manifest and objects |
| TorrentPublisher.BegunExactly | crates/dataset-torrent/src/lib.rs:317-364 | a publication begins if and only if no path is internal, the head could be resolved, the caller expects the local digest, local state is in step with the head, and the files are publishable |
| TorrentPublisher.BegunRefuses | crates/dataset-torrent/src/lib.rs:317-364 | each refusal is given exactly when everything asked before it is as it should be |
| TorrentPublisher.SameDigestSameDir | crates/dataset-torrent/src/lib.rs:456-458 | a digest determines the directory, so skipping an existing one is safe |
| TorrentPublisher.RunKeeps | crates/dataset-torrent/src/lib.rs:311-417 | with a failure at any await, torn files, crashes and a forgetful DHT, every head that lands names a complete, renamed and announced directory, publishers living in distinct operating-system processes |
| TorrentPublisher.RegisteredHeadIsComplete | crates/dataset-torrent/src/lib.rs:365-411 | the registered head leads to the manifest and every object of a published edition |
| TorrentSharing.CompleteExactly | crates/dataset-torrent/src/lib.rs:451-495 | every registered head of every run leads to a complete directory of a published edition if and only if no two publishers share an operating-system process |
| TorrentSharing.SharedProcessPublishesEmptyDirectory | crates/dataset-torrent/src/lib.rs:463-491 | two publishers in one process: one clears the staging directory the other has just filled, and the other publishes it empty |
| TorrentSequences.LandingsAreNumbered | crates/swarm-head/src/lib.rs:237-261 | while the DHT forgets nothing, every landing head has the next sequence, except that first publications racing each other all have 1 |
| TorrentSequences.EveryLandingFollows | crates/swarm-head/src/lib.rs:237-261 | whatever the DHT forgets, each landing head has one more than the sequence its publication found, or 1 when it found none |
| TorrentSequences.ForgottenHeadAdmitsFirst | crates/dataset-torrent/src/lib.rs:335-353 | after the DHT forgot the head, a publisher without state lands sequence 1 again |
| TorrentSequences.SinglePublisherIsSerial | crates/swarm-head/src/lib.rs:237-261 | one publisher, however often it fails or restarts, lands 1, 2, 3, ... without gaps |
| TorrentSequences.ConsecutiveExactly | crates/swarm-head/src/lib.rs:237-261 | every run that forgets nothing lands 1, 2, 3, ... if and only if at most one process publishes |
| TorrentSequences.StuckRefuses | crates/dataset-torrent/src/lib.rs:335-353 | while no local state carries the registered sequence, every process that begins a publication is refused and nothing changes |
| TorrentSequences.StuckForever | crates/dataset-torrent/src/lib.rs:335-353 | while no local state carries the registered sequence and no publication under way can land, no continuation lands a head or changes the registered sequence, and every publication is refused, whoever restarts with whatever state but the registered one |
| TorrentSequences.FinalExactly | crates/dataset-torrent/src/lib.rs:335-411 | the registered head can no longer be overwritten if and only if nobody under way can land over it and no local state carries its sequence, or its sequence is the greatest there is |
| TorrentSequences.StuckExactly | crates/dataset-torrent/src/lib.rs:406-416 | a head that landed without the local update leaves everyone stuck if and only if no other publication under way can land over it and no other state carries its sequence |
| TorrentSequences.LostAcknowledgementSticks | crates/dataset-torrent/src/lib.rs:406-416 | with any number of publishers, restarted before and after with whatever state but the head's own sequence: an unrivalled head that landed without the local update, by a lost answer or a crash, makes every later publication refuse and stops those under way |
| TorrentSequences.UnheardHeadIsFinalExactly | crates/dataset-torrent/src/lib.rs:406-416 | the condition is exact: in any run, such a head stays for good if and only if it was unrivalled or has the greatest sequence there is |
| TorrentSequences.RivalsExactly | crates/dataset-torrent/src/lib.rs:295-353 | while the DHT forgets nothing and no restart brings a state from beyond the register, a head that follows another is never rivalled, and a first head only by a process ready to put a first head, one that found a first head, or one that remembers one |
| TorrentSequences.UnheardFirstHeadIsOverwritten | crates/dataset-torrent/src/lib.rs:406-416 | rivals are real: a first head that landed unheard is overwritten by another first publication that stood ready |
| TorrentSequences.FirstPublicationsRace | crates/swarm-head/src/lib.rs:237-261 | with two or more processes, two first publications can both succeed with sequence 1, the second replacing the first |
| TorrentPublishing.Disk.WriteFiles | crates/dataset-torrent/src/lib.rs:474-486 | the write loop fills the staging directory with the finished layout, or stops at the first failed write |
| TorrentPublishing.Disk.StageSnapshot | crates/dataset-torrent/src/lib.rs:451-495 | clears, writes every file and renames as the machine does; the final directory appears complete or not at all, and success means it stands |
| TorrentPublishing.Publisher.Publish | crates/dataset-torrent/src/lib.rs:312-417 | whatever fails, disk, network and local state end as the machine says; it succeeds exactly when the publication may begin, every await that matters goes well and a next sequence exists, and otherwise names what went wrong first |
| TorrentPublishing.Network.PutHead | crates/swarm-head/src/lib.rs:255-260 | a put lands only if it is not older than the item and the given previous sequence is still current |
| TorrentPublishing.Network.PublishNext | crates/swarm-head/src/lib.rs:237-261 | the head lands with the next sequence only if the second resolution finds the expected one; each failure exactly |
| TorrentPublishing.Publisher.SendHead | crates/dataset-torrent/src/lib.rs:367-416 | torrent, announcement and head do what the machine does, and succeed exactly when every await does and a next sequence exists |
| TorrentSwaps.RunKeepsExpectations | crates/dataset-torrent/src/lib.rs:331-353 | at every moment of every run a publication under way expects the digest and follows the sequence of its own process's local state |
| TorrentSwaps.LandingReplacesExpected | crates/dataset-torrent/src/lib.rs:331-416 | where nothing is forgotten and only states that landed are restored: each head expected the digest of a head with the sequence in front of it, which from the third sequence on is the very head it replaces |
| TorrentSwaps.SwappedExactly | crates/dataset-torrent/src/lib.rs:331-416 | every head replaces the one its caller expected, in every such run, if and only if at most one process publishes |
| TorrentSwaps.RacedHeadIsReplacedUnseen | crates/dataset-torrent/src/lib.rs:331-416 | a run in which a publication expecting its own earlier head replaces another one |
| TorrentPublishing.RefusedDoesNothing | crates/dataset-torrent/src/lib.rs:317-353 | a refused publication leaves disk, network and local state as they were |
| TorrentReader.Reader.LoadCurrent | crates/dataset-torrent/src/lib.rs:75-160 | the cache changes nothing but the need for peers: every answer is the uncached one for the head just resolved |
| TorrentReader.LoadMeaning | crates/dataset-torrent/src/lib.rs:75-160 | what the DHT answered decides whether anything is loaded |
| TorrentReader.LoadFromMeaning | crates/dataset-torrent/src/lib.rs:100-160 | a directory loads if and only if its manifest file, at most 16 MiB, encodes a valid manifest of this publisher; each error exactly |
| TorrentReader.GetFromMeaning | crates/dataset-torrent/src/lib.rs:202-242 | bytes are returned if and only if an object of at most 100 MiB is declared and they match it; each error exactly |
| TorrentReader.SameKeySameHead | crates/dataset-torrent/src/lib.rs:90-98 | heads of one publisher with equal sequence and info hash are the same head, so the cache key is sound |
| TorrentReader.GetFromIsAuthentic | crates/dataset-torrent/src/lib.rs:202-242 | whatever the swarm delivers, returned bytes match what a valid manifest of the publisher declares |
| TorrentReader.PublishedReadsBack | crates/dataset-torrent/src/lib.rs:202-242 | the directory of an edition loads as its manifest and reads back every file exactly, up to the size limits |
| TorrentReader.RegisteredHeadReadsBack | crates/dataset-torrent/src/lib.rs:75-242 | end to end: in any run of publishers in distinct processes, a reader that resolves the registered head loads the registered edition's manifest and reads back its files from whatever the swarm delivers under the info hash, when the info hash binds the content |
| Seeder.Store.Record | crates/swarm-store/src/catalog.rs:283-300 | refuses 0 and numbers beyond the column, each by its name, raises the mark and never lowers it, and answers whether it moved |
| Seeder.Store.Highest | crates/swarm-store/src/catalog.rs:307-317 | reads the mark back through its conversion |
| Seeder.GuardIsMark | services/seeder/src/main.rs:92-100 | the conversions never drop the guard: it is the stored mark whenever there is one |
| Seeder.SettledMeaning | services/seeder/src/main.rs:92-115 | a visit goes on to record and reannounce exactly the canonical heads not below the stored mark |
| Seeder.VisitMeaning | services/seeder/src/main.rs:92-127 | what a visit does: nothing without a head that qualifies, and otherwise mark, record and reannouncement as far as the record got |
| Seeder.SeederNeverRollsBack | services/seeder/src/main.rs:92-127 | over all cycles, restarts and DHT answers, reannounced sequences of a publisher never go down, each is recorded first, and the mark is the maximum ever recorded |
| Seeder.RaisedCommutes | crates/swarm-store/src/catalog.rs:291-299 | marks do not depend on the order or repetition of records |
| Seeder.Cycle.VisitTarget | services/seeder/src/main.rs:92-134 | one pass of the loop body is one visit of the run model, and reaches pinning exactly after a durable record |
| Seeder.Cycle.SeedCycle | services/seeder/src/main.rs:76-150 | a cycle visits the targets in order up to the first in front of which the latest known disk use meets the limit, and no further |
| SessionRuns.RunKeepsTorrents | crates/libtorrent-engine/src/facade.cc:466-497 | every run numbers torrents consecutively, keeps ids nonzero and ascending along the table, and at most one active record per native handle |
| SessionRuns.NeverReissued | crates/libtorrent-engine/src/facade.cc:208-209 | two ids numbered at different times are equal only 2^64 numbers apart |
| SessionRuns.ErasedExactly | crates/libtorrent-engine/src/facade.cc:558-592 | processing erases exactly the inactive records whose removal alert is in the batch, and only when every text of the batch is UTF-8 |
| SessionRuns.RunKeepsBacklog | crates/libtorrent-engine/src/facade.cc:499-513 | the backlog is always the last at most 4096 alerts recorded since the last successful snapshot, in order; these are all that were popped if and only if every popped text is UTF-8 |
| SessionRuns.RunKeepsRequests | crates/libtorrent-engine/src/facade.cc:807-867 | through whole and cut-short batches and failed hand-overs, each resume request is in exactly one place: taken back, in the table, or delivered, once; those of a handle finish in order of issue |
| SessionRuns.ServeTakesFront | crates/libtorrent-engine/src/facade.cc:515-556 | a resume alert takes the front of its handle's queue and touches no other: the table refines one queue per handle |
| SessionRuns.SaveEnqueues | crates/libtorrent-engine/src/facade.cc:807-829 | a request joins the back of its handle's queue |
| SessionRuns.FinishedOnce | crates/libtorrent-engine/src/facade.cc:515-556 | a finished request keeps its status through every later alert |
| SessionAnswers.SnapshotHandsOver | crates/libtorrent-engine/src/facade.cc:869-906 | at any moment of any run a snapshot delivers if and only if batch and torrents can be read: the ids of exactly the active torrents in table order, and the latest 4096 alerts recorded since the last one |
| SessionAnswers.RunKeepsHandovers | crates/libtorrent-engine/src/facade.cc:499-513 | every alert ever recorded belongs to exactly one delivery or is pending, and each delivery gave the latest 4096 of its own |
| SessionAnswers.RunKeepsAnswers | crates/libtorrent-engine/src/facade.cc:515-556 | each finished request was answered by an alert of its own about its own torrent, and what is delivered are the bytes, at most 16 MiB, or the message of that alert |
| SessionAnswers.AlertStatusMeaning | crates/libtorrent-engine/src/facade.cc:515-556 | which status a resume alert gives, exactly |
| SessionAnswers.AddAnswers | crates/libtorrent-engine/src/facade.cc:466-497 | the id returned is that of an active record of the torrent; what a failed addition leaves behind |
| SessionAnswers.RemoveAnswers | crates/libtorrent-engine/src/facade.cc:697-705 | removal succeeds exactly for the id of an active record the native side lets go |
| SessionAnswers.SaveAnswers | crates/libtorrent-engine/src/facade.cc:807-829 | the request id returned is that of a new pending request for the torrent of an active record with the given id |
| SessionAnswers.SnapshotSays | crates/libtorrent-engine/src/facade.cc:499-513 | a recorded alert carries its own text and the id of the first record of its torrent, or 0 |
| SessionAnswers.PollAnswers | crates/libtorrent-engine/src/facade.cc:831-867 | what each answer of a poll says about the batch and the request |
| SessionTexts.RecordedWhole | crates/libtorrent-engine/src/facade.cc:499-592 | a batch is recorded whole, and purged, if and only if each of its texts is UTF-8; otherwise exactly the alerts before the first that is not are recorded and nothing is erased |
| SessionTexts.ServedWhole | crates/libtorrent-engine/src/facade.cc:515-592 | the requests end as if the whole batch was matched if and only if each text is UTF-8 or no alert behind the first that is not answers a request still waiting |
| SessionTexts.HandedOverExactly | crates/libtorrent-engine/src/facade.cc:831-867 | a poll hands a request over, and erases it, if and only if the batch was readable, the request finished, and its error text, if any, is UTF-8 |
| SessionTexts.UnpresentableStays | crates/libtorrent-engine/src/facade.cc:831-867 | a failed request whose error text is not UTF-8 is in the table after every continuation |
| SessionTexts.LostRemovalStays | crates/libtorrent-engine/src/facade.cc:558-592 | an inactive record stays in the table through every continuation without another removal alert for its torrent |
| SessionTexts.UnreadableAlertKeepsRecord | crates/libtorrent-engine/src/facade.cc:558-592 | a removal alert popped together with an unreadable tracker alert leaves the record in the table |
| SessionTexts.UnreadableErrorIsNeverHandedOver | crates/libtorrent-engine/src/facade.cc:831-867 | a run after which a failed request can never be handed over or erased |
| SessionFacade.Facade.AddParameters | crates/libtorrent-engine/src/facade.cc:466-497 | pushing first and popping on failure changes the table as the run model says, ids consumed included |
| SessionFacade.Facade.RemoveTorrent | crates/libtorrent-engine/src/facade.cc:697-705 | marks the active record inactive, or changes nothing |
| SessionFacade.Facade.SaveResumeData | crates/libtorrent-engine/src/facade.cc:807-829 | pushes a pending request, or pops it again when the native call throws |
| SessionFacade.Facade.AppendAlert | crates/libtorrent-engine/src/facade.cc:499-513 | the oldest entry gives way when the ring is full; a text that is not UTF-8 appends nothing |
| SessionFacade.Facade.ServeRequest | crates/libtorrent-engine/src/facade.cc:515-556 | a resume alert finishes the first pending request of its handle |
| SessionFacade.Facade.ProcessAlerts | crates/libtorrent-engine/src/facade.cc:558-592 | the alert loop, its early end at an unreadable text, and the erase after it change the table as the run model says |
| SessionFacade.Facade.PollResumeData | crates/libtorrent-engine/src/facade.cc:831-867 | a finished request is handed over once and erased; a cut-short batch or an unreadable error text hands over nothing |
| SessionFacade.Facade.SnapshotSession | crates/libtorrent-engine/src/facade.cc:869-906 | does what the table function says, whose answer `SessionAnswers.SnapshotHandsOver` pins down; the backlog is cleared only after a whole batch and readable torrents |
| CatalogMerge.Merge | apps/desktop/src-tauri/src/lib.rs:642-669 | the extend, sort, retain and truncate loops compute the merged results and errors the theorems are about |
| CatalogMerge.RetainFirsts | apps/desktop/src-tauri/src/lib.rs:659-666 | retaining against a growing set keeps the first item of every key |
| CatalogMerge.ArrivalOrderDoesNotMatter | apps/desktop/src-tauri/src/lib.rs:627-669 | for distinct source ids every order of arrival yields the same results and errors |
| CatalogMerge.ResultsAreFirst | apps/desktop/src-tauri/src/lib.rs:653-667 | no key twice; each result ranks no later by source and title than any gathered item with its key; below the limit no key is lost |
| CatalogMerge.PlacesMeaning | apps/desktop/src-tauri/src/lib.rs:659-666 | an item is kept if and only if no earlier one has its key |
| CatalogMerge.TiesKeepBatchOrder | apps/desktop/src-tauri/src/lib.rs:653-666 | each result comes from its own source's batch, and there precedes every other item with its title and key |
| CatalogMerge.ResultsExactly | apps/desktop/src-tauri/src/lib.rs:641-667 | the results without reference to keys: fetched items, no info hash twice, by source and title, and below the limit no fetched torrent missing |
| CatalogMerge.LimitOnlyCuts | apps/desktop/src-tauri/src/lib.rs:667-668 | a smaller limit only cuts the end off |
| CatalogMerge.ErrorsExactly | apps/desktop/src-tauri/src/lib.rs:641-669 | one error for each failed fetch, with the id and name of its own source and its own message, by source id |
| CatalogMerge.LimitMeaning | apps/desktop/src-tauri/src/lib.rs:618 | fifty results unless asked otherwise, at least 1 and at most 100 |
| ByteRange.AcceptedIsInside | crates/stream-gateway/src/lib.rs:210-255 | an accepted range satisfies start <= end < length, so its response length cannot wrap |
| ByteRange.ParserAccepts | crates/stream-gateway/src/lib.rs:210-255 | on every header, with signs or without: accepted exactly when the unit is in lower case, the numbers without their plus signs spell a satisfiable range and fit 64 bits, and answered with the interval these select |
| ByteRange.ParseRangeRefuses | crates/stream-gateway/src/lib.rs:210-255 | each refusal with exactly the headers that get it |
| ByteRange.StandardRangesParse | crates/stream-gateway/src/lib.rs:222-249 | a range spelled as sections 14.1 and 14.1.2 of RFC 9110 define is answered as they say if and only if its unit is in lower case and its numbers fit, and is refused otherwise |
| ByteRange.ParseRangeMeaning | crates/stream-gateway/src/lib.rs:210-255 | without a plus sign, exactly the standard's satisfiable ranges with a lower-case unit and fitting numbers are accepted, with the interval it selects |
| ByteRange.AgreementExactly | crates/stream-gateway/src/lib.rs:210-255 | parser and standard part exactly on headers that would be satisfiable ranges but for a plus sign, and on satisfiable ranges whose unit is not in lower case or whose numbers do not fit |
| ByteRange.OtherCaseRefused | crates/stream-gateway/src/lib.rs:222-226 | every other casing of the unit is refused although the standard selects an interval |
| ByteRange.UpperCaseUnitRefused | crates/stream-gateway/src/lib.rs:222-226 | the header BYTES=0-1 is refused where the standard selects bytes 0 and 1 |
| ByteRange.LargeNumberRefused | crates/stream-gateway/src/lib.rs:237-243 | a last position of 2^64 or more is refused where the standard clips it to the end of the file |
| ByteRange.LargeNumberExample | crates/stream-gateway/src/lib.rs:237-243 | the header bytes=0-18446744073709551616 is refused on a ten-byte file where the standard selects it whole |
| ByteRange.SignedRangeAccepted | crates/stream-gateway/src/lib.rs:231-243 | a signed first position is let through with the interval of the number without it, although no spelling of the standard matches the header |
| ByteRange.PrintedRangeParses | crates/stream-gateway/src/lib.rs:210-255 | printing an interval inside the file as a range and parsing it gives it back |
| ByteRange.BodyIsExact | crates/stream-gateway/src/lib.rs:166-199 | the body sent is the selected slice of the file and as long as announced |

## Left out

- Sockets, HTTP, the DHT, SQLite and the native torrent library: each is a store, a register, a table or a source of arbitrary answers.
- Ed25519 signatures and BLAKE3: parameters; an item whose signature the DHT client verified is taken as given.
- JSON forms of manifests, artifacts and heads, and their schema and version fields: thin layers over serde; a stored head document is a value.
- Text, tag and URI rules of artifacts and releases: per-field checks. Parsing a tracker URL and looking at its parts is a parameter of the release check.
- Import observations, discovery feeds, settings and the rest of the desktop application: plumbing.
- `list` and the polling watchers of both network readers: a filter over the same verified manifest, and a comparison of heads.
- Timeouts, polling intervals and disk scanning: a scan's result is a parameter of the seeding cycle.
- Running out of memory inside the facade, and native calls that only forward to a torrent.
- A native error message that is not UTF-8 inside one of the facade's exception handlers (`exception_message` at crates/libtorrent-engine/src/facade.cc:62-74): it ends the process, and with it the run.
- Delayed writes: a PUT or DHT put that takes effect after its caller gave up is not modelled.
- Several seeder processes over one store: each would read the mark before the other records; the model has one.
- First-contact rollback and a DHT that answers differently to different clients: `pin_current` resolves without the mark, so nothing is claimed about it.
- TorrentSequences.StuckForever: speaks of continuations in which the DHT does not forget the head and no restart brings back a state with the head's own sequence; either lets another head land.
- TorrentSequences.LostAcknowledgementSticks: the same.
- TorrentSequences.LandingsAreNumbered: needs that the DHT does not forget the head; without that only EveryLandingFollows holds, as ForgottenHeadAdmitsFirst shows.
- TorrentSequences.SinglePublisherIsSerial: the same.
- SessionRuns.RunKeepsTorrents: ids ascend below 2^64 torrents numbered; beyond that the 64-bit counter wraps, as NeverReissued states.
- SessionRuns.RunKeepsRequests: conservation is stated below 2^64 requests numbered, for the same reason.
- HTTP range lists: a header with a comma is refused before its elements are looked at, and only single ranges are compared with the standard.
- A process id that changes when a publisher restarts: each publisher keeps one for the whole run. Staging directories are cleared before use, so only leftover files would differ.
- Windows path semantics when staging: directories are maps from relative paths, and a file that cannot be created is a failed write.
