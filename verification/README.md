# Verified models of the release and verification scripts

This project models, in Dafny, the parts of the repository's TypeScript tooling whose correctness
is not obvious from reading one function, and proves what those scripts promise for every input,
every run and every interleaving.

| file | what it models |
|---|---|
| `LockProtocol.dfy`, `LockCleanup.dfy`, `LockWitnesses.dfy` | the data-directory lock: claim, confirmation, heartbeat, takeover by rename, sweep, release, as a transition system over one shared filesystem; what each removal takes away; and the runs that show each assumption is needed |
| `Publication.dfy` | the stage / back up / publish / prove / commit transaction under that lock, as a class whose fields are the three directories and the flags |
| `Crc32.dfy`, `Division.dfy`, `Iteration.dfy`, `ByteBits.dfy` | the table-driven CRC-32 against division of the message bits by the polynomial (section 8 of RFC 1952) |
| `Layout.dfy`, `Zip.dfy`, `ZipRecords.dfy`, `ZipDamage.dfy` | the ZIP writer and reader, byte by byte (PKWARE APPNOTE sections 4.3.7, 4.3.12, 4.3.16) |
| `Octal.dfy`, `Ustar.dfy` | the USTAR writer and lister (POSIX.1 pax, "ustar Interchange Format") |
| `FileTree.dfy`, `TreeListing.dfy`, `ReleasePaths.dfy` | directory trees, the work queue that lists a copied tree, and how archive-relative paths are normalised and resolved |
| `Release.dfy`, `Staging.dfy`, `ReleasePlan.dfy`, `AssemblyConditions.dfy` | release assembly: the specification and the running code, what is in a release, and when there is one |
| `ReleaseVerifier.dfy`, `ReleaseArchive.dfy`, `ReleaseExamples.dfy` | the integrity verifier, packing and unpacking a release, two releases that assemble and are refused |
| `ChildHost.dfy`, `FramePump.dfy`, `HostRequests.dfy`, `HostProcess.dfy` | the driver of the host child process: what it does to each event, what its waiters hear, and the class that does it |
| `CanonicalJson.dfy`, `JsonSpelling.dfy`, `Sbom.dfy` | canonical JSON, how it is spelled, a reader that inverts it, and the snapshot comparison built on it |
| `SessionFixtures.dfy`, `Decimal.dfy` | the session normaliser, the checks of its output, the downgrade to format 1 |
| `CargoLinkage.dfy`, `TopLevelSplit.dfy` | the search for crates linked into the shipped binary, the dev-edge check, the comma splitter |
| `LegacyIdentity.dfy` | the scan for legacy names and the per-file allowances |
| `Prelude.dfy`, `Strings.dfy`, `Ordering.dfy`, `ArchivePath.dfy` | shared: bytes and UTF-16 text, split and join, the order of strings and sorting, which archive paths are safe |

Code that only computes is modelled by functions; code that updates fields, buffers or lists in
place is modelled by classes, arrays and loops, each proved equal to a function or against the
property itself.  Foreign code enters as parameters: compression, UTF-8 and the JSON text of
`release.json` as pairs in which reading inverts writing, SHA-256 as a function that is assumed to
be free of collisions only where a statement says so, regular expressions as lists of matches.

Assumptions of the lock, each of which is shown to be needed (`EveryAssumptionIsNeeded`): **A1** no
live claimant or holder is judged stale; **A2** at the canonical path nothing comes between reading
one's own token and removing the directory; **A3** nothing comes between `mkdir` and the first
record; **A4** the listing of a confirmation and the read after a rename report what is there (the
code takes a failed listing for an empty one, lines 433-446).  Removing quarantine directories
needs no such assumption, because their records never change.

Where the code does not keep a promise, the promise is stated as an equivalence with a condition
the caller can see, beside an input on which it fails:

- the first failure of a publication is the thrown error or its root cause, except when the rollback's
  own removal of the staging directory fails too (`MaskedFailure`);
- a failure before the commit leaves the live path as it began, except when a restore fails or a failed
  publish leaves something at the live path of a run that began without a tree (`OccupantStays`);
- a tar path survives unless its name part has 100 bytes or its prefix 155 (`HundredUnitsAreCut`);
- an assembled release is accepted unless an extra's destination has an empty, `.` or `..` segment or a
  copied tree holds a symbolic link to a file (`UntidyIsRefused`, `LinkIsRefused`);
- a downgraded compaction points at the entry it kept unless the session id equals that entry's new id
  (`KeptIndexOfHeader`);
- equal content is reported as drift exactly when it repeats an asset target or a lockfile path with
  different values (`RepeatedPinDrifts`).

## Model

| member | source | states |
|---|---|---|
| LockProtocol.MutualExclusionHolds | scripts/reconstruct-provider-data.ts:665-728 | after every run of any number of claimants, reapers, sweepers and releasers that meets A1-A4, at most one process is between a successful claim and the removal of its directories by its release |
| LockProtocol.OwnershipPersists | scripts/reconstruct-provider-data.ts:455-542 | an owner's token stays recorded at the canonical path or in a quarantine; no step of another process takes the ownership away or makes that process entitled; while the owner's directory is displaced every confirmation that lists quarantines withdraws |
| LockProtocol.RemovalsAreAuthorised | scripts/reconstruct-provider-data.ts:636-656 | the canonical directory disappears only by its own owner's removal or by a rename that keeps its record in a fresh quarantine; a quarantine is removed only by its owner or when its owner is dead |
| LockProtocol.TrustedRunsKeepInv | scripts/reconstruct-provider-data.ts:553-583 | the inductive invariant (records, program counters, one entitled process, no rivals) holds after every run that meets A1-A4 |
| LockProtocol.InvKept | scripts/reconstruct-provider-data.ts:553-728 | every single step of the protocol that meets A1-A4 keeps that invariant |
| LockCleanup.RemovalIsThorough | scripts/reconstruct-provider-data.ts:479-485 | over every run: when a release or a withdrawal is done and none of its listings and reads failed, its token is neither at the canonical path nor in any quarantine that was there when it listed them; a release is then over and a withdrawal begins again |
| LockCleanup.NothingLeftBehind | scripts/reconstruct-provider-data.ts:553-583 | over every run: as long as none of its removals failed and it did not crash, a process that is not claiming, owning or on its way out is not recorded at the canonical path |
| LockCleanup.ScansWhatItListed | scripts/reconstruct-provider-data.ts:479-485 | a removal looks only at quarantines it listed |
| LockCleanup.FailedRemovalEnds | scripts/reconstruct-provider-data.ts:717-728 | a failed removal ends a release; a withdrawal may go on or give up |
| LockCleanup.SweepIsThorough | scripts/reconstruct-provider-data.ts:455-471 | over every run: a sweep that is done has read every quarantine it listed, and those it judged dead are gone |
| LockCleanup.ReapsWhatItObserved | scripts/reconstruct-provider-data.ts:636-656 | a directory renamed away is removed iff the token read in it is the one observed before, where an unreadable record has none |
| LockCleanup.HeartbeatStopsForCause | scripts/reconstruct-provider-data.ts:505-542 | over every run: a heartbeat that stopped by itself could not see its own record at the canonical path |
| LockCleanup.HeartbeatIsAwaited | scripts/reconstruct-provider-data.ts:534-541 | over every run: a beat is under way iff its process still holds or is waiting to release, so no removal begins before the beat has ended |
| LockCleanup.WritesNeedTheDirectory | scripts/reconstruct-provider-data.ts:505-583 | every write of a record may fail, and may succeed iff the canonical directory is there |
| LockCleanup.DirectoriesChangeAsNamed | scripts/reconstruct-provider-data.ts:455-728 | only `mkdir` makes the canonical directory and only a rename or its removal takes it away; a quarantine is what a rename found; no step moves another process |
| LockCleanup.NobodyIsStuck | scripts/reconstruct-provider-data.ts:665-728 | whoever is not gone has a step to take other than to crash, whatever the others left on disk |
| LockWitnesses.EveryAssumptionIsNeeded | scripts/reconstruct-provider-data.ts:433-542 | for each of A1-A4 there is a run that meets the other three and ends with two owners |
| LockWitnesses.WithoutA1 | scripts/reconstruct-provider-data.ts:505-542 | a concrete run: the heartbeat of a displaced holder stops, its record is swept, a second process owns the lock |
| LockWitnesses.WithoutA2 | scripts/reconstruct-provider-data.ts:455-485 | a concrete run: between a releaser's read and its removal the directory changes hands, and two processes own the lock |
| LockWitnesses.WithoutA3 | scripts/reconstruct-provider-data.ts:553-583 | a concrete run: a directory without its first record is reaped while its creator lives, and two processes own the lock |
| LockWitnesses.WithoutA4 | scripts/reconstruct-provider-data.ts:433-446 | a concrete run: a failed listing hides a displaced owner, and two processes own the lock |
| Publication.Run.Reconstruct | scripts/reconstruct-provider-data.ts:1091-1253 | for every placement of failures: the lock is released exactly once; until commit the initial tree is whole at the live path or in the backup and no backup is deleted; from commit on the staged tree is live; live path, staging directory and backup at the end and what is returned or thrown are each given outright as functions of the failures; it returns iff it committed, the backup went away and the release succeeded; without a commit the live path is as it began and no backup is left iff `RollsBack` holds of the failures; a failed restore keeps the backup; the first failure is the root of what is thrown iff it was not masked |
| Publication.Run.Transact | scripts/reconstruct-provider-data.ts:1096-1211 | the same for the body under the lock: it commits iff no call up to commit fails, leaves the live path as it began iff `RollsBack`, leaves the staging directory only when its removal fails, and says exactly what it throws |
| Publication.Run.Attempt | scripts/reconstruct-provider-data.ts:1122-1159 | the failure reported is the first failing call in order, and live path, staging directory, backup and flags are as that call left them |
| Publication.Run.RollBack | scripts/reconstruct-provider-data.ts:1160-1197 | leaves exactly the live tree of `LiveAfter`, the staging directory of `StagingAfter` (none unless its removal fails) and the backup of `BackupAfter`; live is the initial one with no backup left iff `RollsBack`; keeps the backup when a restore fails; throws exactly the failure or the chain the code builds |
| Publication.Run.RestoreBackup | scripts/reconstruct-provider-data.ts:1167-1178 | moves the backup back or changes nothing |
| Publication.MaskedFailure | scripts/reconstruct-provider-data.ts:1183-1185 | a run with failures exactly in staging and in the removal of staging: its first failure is staging, and the root of what it throws is the removal |
| Publication.OccupantStays | scripts/reconstruct-provider-data.ts:1160-1185 | a run without an initial tree whose publish alone fails and leaves something at the live path: it throws, commits nothing and leaves that thing live |
| Publication.FirstFailureCases | scripts/reconstruct-provider-data.ts:1122-1159 | which call is the first to fail, for every set of failing calls |
| Publication.NoFailureMeansAllSucceed | scripts/reconstruct-provider-data.ts:1122-1159 | no first failure iff every call succeeds |
| Crc32.ByTable | scripts/release/archive.ts:527-536 | the table-driven loop returns the remainder of the message bits divided by 0xedb88320, for every byte sequence |
| Crc32.BuildTable | scripts/release/archive.ts:539-549 | each of the 256 entries is eight division steps of its index |
| Crc32.StepDividesByte | scripts/release/archive.ts:530-533 | one lookup equals division by the eight bits of the byte |
| Crc32.Lookup | scripts/release/archive.ts:530-533 | shifting the low byte through and xoring the rest is eight steps on the whole register |
| Crc32.OneByteChangeIsDetected | scripts/release/archive.ts:527-536 | messages that differ in one byte have different checksums |
| Crc32.KnownAnswers | scripts/release/archive.ts:527-549 | the checksums of nothing and of the letter a are 0 and 0xe8b7be43 |
| Ordering.SortBySorts | scripts/release/archive.ts:96-100 | sorting by path gives a sorted permutation |
| Ordering.BelowIff | scripts/release/archive.ts:96-100 | strings are ordered by the first code unit that differs, a proper prefix before what it begins |
| Ordering.SortIsStable | scripts/release/archive.ts:96-100 | entries with the same path keep their order |
| Ordering.SortedIsUnique | scripts/release/archive.ts:96-100 | entries with distinct paths have one sorted order |
| ArchivePath.SafeIsNotDirectory | scripts/release/archive.ts:109-135 | a path that `safeRelativePath` accepts never ends in a slash |
| ArchivePath.SafeIsPlainNames | scripts/release/archive.ts:109-135 | the paths that `safeRelativePath` accepts are exactly the non-empty joins of names that are not empty, `.` or `..` and hold no NUL, slash, colon or backslash |
| Layout.WriteFields | scripts/release/archive.ts:276-330 | writing each field at its offset into a buffer gives the fields one after the other |
| Zip.Encode | scripts/release/archive.ts:263-340 | fails iff some path is unsafe; otherwise the archive is local records, central records with the right offsets, end record |
| Zip.FindEocd | scripts/release/archive.ts:475-487 | finds the last end record within the comment limit whose comment reaches the end of the file, or reports that there is none |
| Zip.SearchEocd | scripts/release/archive.ts:475-487 | the offset found is a match and nothing after it is; none found means no offset in range matches |
| Zip.FindDirectory | scripts/release/archive.ts:349-367 | the central directory that the end record describes, after every check on it |
| Zip.DecodeDirectory | scripts/release/archive.ts:369-436 | the loop with its seen paths, running size and offset equals the record-by-record specification |
| Zip.Decode | scripts/release/archive.ts:349-436 | decoding is total: every byte sequence gives entries or an error |
| Zip.ReadData | scripts/release/archive.ts:408-428 | data that is accepted has the size and checksum of its central record, and every range was inside the file |
| Zip.DecodedIsWellFormed | scripts/release/archive.ts:349-436 | whatever the bytes, decoded entries have distinct safe paths, at most 10,000 entries and 512 MiB in all, and the central directory was consumed exactly |
| Zip.RoundTrip | scripts/release/archive.ts:263-436 | decoding the encoding of packable entries gives them back in order with their bytes and mode 0o644 iff their paths are distinct, and rejects the archive otherwise |
| Zip.ShippedRoundTrip | scripts/release/archive.ts:76-100 | packed in path order, distinct entries come back as the sorted permutation with their bytes |
| Zip.ArchiveIsSmall | scripts/release/archive.ts:263-340 | within those limits no offset or section size reaches the 32-bit fields' bound |
| ZipRecords.ArchiveSays | scripts/release/archive.ts:263-330 | for every entry, what stands at the offsets of its local and central record: signature, versions, method, stamp, checksum, both sizes, name, mode and the place of the local record, with the payload behind the name |
| ZipRecords.EndRecordSays | scripts/release/archive.ts:330-340 | what stands in the end record: signature, both counts, size and place of the central directory, no comment |
| ZipRecords.BeginsWithPk | scripts/release/archive.ts:276-290 | an archive begins with the letters PK |
| ZipRecords.ModesAreTaken | scripts/release/archive.ts:408-436 | the mode of a member is the nine permission bits of the upper half of its attributes, and 0o644 when that half is 0 |
| ZipRecords.MembersAreRead | scripts/release/archive.ts:369-436 | at any offset of any bytes, a member is read iff every field meets its check, each stated by its offset; and it has the path, bytes and mode that those fields say |
| ZipRecords.DirectoryIsFound | scripts/release/archive.ts:349-367 | for any bytes, a central directory is found iff the last end record whose comment reaches the end of the file describes it and it lies before that record |
| ZipDamage.DamageIsRejected | scripts/release/archive.ts:408-428 | changing any one byte of a stored member makes the archive undecodable |
| Octal.DigitsFit | scripts/release/archive.ts:230-240 | a number takes at most k octal digits iff it is below 8^k |
| Octal.ValueOfDigits | scripts/release/archive.ts:230-240 | reading the octal digits of a number gives the number |
| Ustar.ClampMtime | scripts/release/archive.ts:89-93 | the result always fits the field and is the floor of a time in range |
| Ustar.WriteHeader | scripts/release/archive.ts:168-210 | the header written in place, checksum last, equals the field-by-field specification, errors included |
| Ustar.SumAdds | scripts/release/archive.ts:201-206 | the sum of nothing is 0, of one byte the byte, of two pieces the sum of theirs |
| Ustar.SumOf | scripts/release/archive.ts:201-206 | the loop computes the byte sum of the header |
| Ustar.Encode | scripts/release/archive.ts:156-165 | succeeds iff every header does; then the archive is header and padded data for each entry and two zero blocks |
| Ustar.List | scripts/release/archive.ts:450-473 | the listing loop equals header-by-header reading, for every byte sequence |
| Ustar.OnlySizeOverflows | scripts/release/archive.ts:168-240 | with a clamped time, a header fails iff the path is unsafe, does not split, or the size is 8^11 or more; the last is the only octal overflow |
| Ustar.ChecksumFits | scripts/release/archive.ts:201-209 | the byte sum of a header always fits its field |
| Ustar.ChecksumHolds | scripts/release/archive.ts:201-209 | the stored checksum is the octal byte sum of the header with eight spaces in its place, and ends with a space |
| Ustar.HeaderSays | scripts/release/archive.ts:168-210 | what a reader finds in a written header: of the nine permission bits exactly those that the entry and 0o555 share, owner, group and devices 0, size, time, a regular file, magic and version, and NUL everywhere else |
| Ustar.ReadableModeBits | scripts/release/archive.ts:187-187 | a permission bit is kept iff 0o555 has it too |
| Ustar.SplitsIff | scripts/release/archive.ts:168-185 | a path is stored iff it has at most 100 units or some slash leaves at most 155 before it and 99 after it |
| Ustar.StoredPathIsPath | scripts/release/archive.ts:168-227 | the header keeps a safe path that splits iff it is ASCII, its name part has at most 99 bytes and its prefix at most 154 |
| Ustar.RoundTrip | scripts/release/archive.ts:156-240 | listing an encoded archive gives exactly the paths, in order, iff every path survives; and iff so, the bytes behind each header, in the length it states, are those of its entry; no data block is read as a header and the listing does not stop early |
| Ustar.ListedIsContents | scripts/release/archive.ts:450-473 | for every byte sequence, what is listed is the paths of the files that the headers describe, or the same error |
| Ustar.HeadersAreRead | scripts/release/archive.ts:450-473 | at any offset of any bytes, a header is read iff its path is safe, its size a number and its data there; which members are regular files, and where the next header stands |
| Ustar.ListsHeaderByHeader | scripts/release/archive.ts:455-470 | the listing ends at the first block of zeros, and before it lists the regular files header by header or reports the first bad one |
| Ustar.IntegersAreParsed | scripts/release/archive.ts:461-463 | a size is an optional sign and octal digits, whatever comes behind them, and without digits none |
| Ustar.TrimsBlanks | scripts/release/archive.ts:461-462 | trimming takes spaces and the units from tab to carriage return off both ends, and nothing else |
| Ustar.PaddedSizeRead | scripts/release/archive.ts:450-473 | a size field with blanks on either side is what its octal digits say |
| Ustar.BlankSizeRead | scripts/release/archive.ts:450-473 | a size field of blanks counts as 0 |
| Ustar.ShippedRoundTrip | scripts/release/archive.ts:58-68 | sorted by path and with the clamped time, the entries come back as the sorted permutation, each with its own bytes, iff every path survives |
| Ustar.HundredUnitsAreCut | scripts/release/archive.ts:222-227 | a safe path of one hundred letters is stored with ninety-nine |
| FileTree.LeafAfterWrite | scripts/release/stage.ts:360-362 | writing a file with its directories puts the bytes at its path and leaves every other file as it was |
| FileTree.LookupAfterWrite | scripts/release/stage.ts:360-362 | what stands at every path after a write: the file, the directories on its way, and all that was there |
| FileTree.WritesIffWritable | scripts/release/stage.ts:360-362 | a write succeeds iff no file is on the way and no directory at its end |
| FileTree.LookupAfterPut | scripts/release/stage.ts:467-491 | what stands at every path after a tree was copied to a name |
| FileTree.Walk | scripts/release/verify.ts:42-57 | the recursive walk adds exactly the regular files, at their full paths, and no link |
| TreeListing.BreadthMeetsAll | scripts/release/stage.ts:494-519 | the work queue meets every file below the queued directories and nothing else |
| TreeListing.BreadthIsDistinct | scripts/release/stage.ts:494-519 | the work queue meets no path twice |
| TreeListing.TreeIsListed | scripts/release/stage.ts:492-521 | a tree copied under a name is listed by exactly its own files, links included |
| ReleasePaths.NormalizeSettles | scripts/release/stage.ts:246-248 | normalising leaves no backslash and no leading slash and is idempotent |
| ReleasePaths.NormalizesExactly | scripts/release/stage.ts:246-248 | unit by unit: the slashes and backslashes in front are dropped, every other backslash becomes a slash, nothing else changes |
| ReleasePaths.JoinsIff | scripts/release/runner.ts:327-350 | a target is accepted, and leads to a given path below the base, iff it is relative, has neither NUL nor backslash, and resolving its segments from the base gives that path |
| ReleasePaths.ResolvesSegment | scripts/release/runner.ts:327-350 | no segment stays where it is, and with one more segment: an empty one or `.` stays, `..` goes up, any other goes down |
| ReleasePaths.SafeJoinOfNames | scripts/release/runner.ts:327-350 | a text made of names leads to exactly its segments below any base |
| ReleasePaths.SafeJoinIsPath | scripts/release/runner.ts:327-350 | whatever is not rejected leads to a path of names inside the base, through whatever `.` and `..` |
| Staging.UsedPaths.Claim | scripts/release/stage.ts:251-260 | a path is claimed iff its normal form is new; a refused claim changes nothing |
| Staging.ListTree | scripts/release/stage.ts:494-521 | the queue loop claims and lists the files in the order of the specification, and stops at the first duplicate |
| Staging.StageFile | scripts/release/stage.ts:398-461 | reads, claims, writes and lists one file, passes over a missing source iff it is optional, and fails on a missing required one |
| Staging.AssembleRelease | scripts/release/stage.ts:290-395 | the loop over the plan equals the specification `Assemble`, failures included |
| Release.PlaceKeeps | scripts/release/stage.ts:398-423 | staging a file under a path of names keeps claimed paths, manifest entries and disk in agreement |
| Release.CopyTreeKeeps | scripts/release/stage.ts:467-521 | so does copying a tree to a free name and listing it; links on disk are those of the tree |
| Release.FixedIsFixed | scripts/release/stage.ts:123-198 | every planned input goes to a plain name, and no tree to a name that something before it takes |
| Release.ManifestIsExact | scripts/release/stage.ts:290-395 | whenever assembly succeeds, the manifest is sorted, duplicate-free and lists exactly the files other than `release.json` with their sizes and digests, iff no extra's destination has an empty, `.` or `..` segment |
| AssemblyConditions.AssemblesIff | scripts/release/stage.ts:290-395 | assembly succeeds iff the binary, the host with its runtime, the change log, the readme and the documentation are there, no script is staged for host and fallback both, every extra is there and goes to a place that is allowed, free and reachable, no extra leads below the manifest, the binary does not contain the host, and the binaries are executable |
| AssemblyConditions.SlotsAreReserved | scripts/release/stage.ts:233-271 | an extra in or below one of the eight reserved names is never assembled |
| ReleasePlan.MembersByName | scripts/release/stage.ts:123-215 | whenever assembly succeeds, a file is listed iff it is, with its size, digest and executable flag, the binary, the host or its script and runtime, the fallback, one of the four documents that is there, a file of one of the three trees that is there, or an extra |
| ReleasePlan.MembersAreInputs | scripts/release/stage.ts:290-395 | the manifest lists exactly what the staged inputs bring, and every input that is not optional was there |
| ReleasePlan.RequiredMembersShip | scripts/release/stage.ts:123-198 | every release has its binary and host, its script and runtime if it has a bundle, `CHANGELOG.md`, `README.md` and every file of `docs`, each with the bytes of its source |
| ReleasePlan.NamesAreSpelled | scripts/release/stage.ts:123-170 | the names of the binaries, unit by unit |
| ReleasePlan.DocumentsAreSpelled | scripts/release/stage.ts:171-212 | the names of the documents, the trees and the manifest, unit by unit |
| ReleaseVerifier.CollectFiles | scripts/release/verify.ts:42-57 | the set of archive-relative texts of exactly the regular files |
| ReleaseVerifier.VerifyUnpackedArchive | scripts/release/verify.ts:68-173 | gives exactly the reports of the specification, in order, and accepts iff the directory holds exactly the files its manifest lists with those sizes and digests |
| ReleaseVerifier.SilentIffAccepted | scripts/release/verify.ts:68-173 | no report is made iff manifest and directory agree in both directions |
| ReleaseVerifier.MalformedIsReported | scripts/release/verify.ts:93-122 | a report is made of a malformed manifest iff it is about its schema or one of its bad entries |
| ReleaseVerifier.MismatchIsReported | scripts/release/verify.ts:124-168 | a report is made of a well-formed manifest iff it names the files on one side only, or a listed file that cannot be read or has another digest or size |
| ReleaseVerifier.SchemaIsSpelled | scripts/release/verify.ts:93-98 | the schema is `pi.release.v1`, unit by unit |
| ReleaseVerifier.AssembledIsAccepted | scripts/release/stage.ts:290-395 | the verifier accepts an assembled release iff its extras' destinations are tidy and its trees hold no link to a file |
| ReleaseVerifier.ManifestDeterminesFiles | scripts/release/verify.ts:124-168 | two accepted directories with the same `release.json` have the same files with the same bytes |
| ReleaseArchive.PackageRelease | scripts/package-release.ts:283-297 | one member for each manifest entry in order, then the manifest, or nothing if a file cannot be read |
| ReleaseArchive.PackedModes | scripts/package-release.ts:283-297 | members are packed in the order of the manifest below the release directory, with mode 0o755 iff the manifest calls them executable and 0o644 otherwise, and `release.json` last |
| ReleaseArchive.ExtractZip | scripts/release/archive.ts:439-447 | writes the decoded members in order below the output directory |
| ReleaseArchive.TidyIsPackaged | scripts/package-release.ts:283-297 | every file of a release with tidy extras can be read back for packing |
| ReleaseArchive.UnpackedRebuilds | scripts/release/archive.ts:439-447 | unpacking never runs into its own files and rebuilds the release directory file for file |
| ReleaseArchive.ShippedIsAccepted | scripts/package-release.ts:283-302 | an assembled release within the archive limits, encoded, decoded and unpacked anywhere, has exactly its files, with links replaced by their contents, and is accepted |
| ReleaseExamples.UntidyIsRefused | scripts/release/stage.ts:353-364 | an extra for `./x` is assembled and then refused |
| ReleaseExamples.LinkIsRefused | scripts/release/stage.ts:505-518 | a documentation tree with one link to a file is assembled and then refused |
| ChildHost.EveryRun | scripts/lean-scaling.ts:255-455 | after any sequence of events: every waiter was settled at most once and exactly once when it no longer waits, with a retained frame it accepts; no pending waiter matches a retained frame; frames stay within the cap; after a fatal error or `close` nobody waits |
| ChildHost.StepKeeps | scripts/lean-scaling.ts:255-383 | each event keeps those invariants and every outcome already given |
| ChildHost.RunKeeps | scripts/lean-scaling.ts:255-383 | so does every sequence of events |
| ChildHost.ChunksDoNotMatter | scripts/lean-scaling.ts:255-308 | with lines of at most 64 Ki characters, any cutting of the stream does what the stream as one chunk does |
| ChildHost.FramingIndependence | scripts/lean-scaling.ts:255-308 | and that is what the lines of the whole stream do one after the other: same frames, outcomes, waiters and failure |
| FramePump.PumpHears | scripts/lean-scaling.ts:255-308 | for every cutting of a stream of such lines: while every line is good, the retained frames are those from before followed by the parses of the non-blank lines in order, and every waiter is told the first of them that its predicate matches; the driver fails exactly at the first line that does not parse, exceeds the cap or meets a predicate that throws, for that reason, after hearing all before it |
| FramePump.HearsAll | scripts/lean-scaling.ts:272-303 | the same of a sequence of good lines |
| FramePump.StopsAtFirst | scripts/lean-scaling.ts:272-303 | the same of a sequence with a line that is not good: who was told what, and why everyone else was rejected |
| FramePump.WakeHears | scripts/lean-scaling.ts:297-302 | a frame that no predicate throws on resolves exactly the waiters that match it and leaves the others waiting |
| FramePump.WakeThrows | scripts/lean-scaling.ts:297-302 | a frame on which a predicate throws resolves the matching waiters behind the last such one and rejects all the others |
| FramePump.FailAllTells | scripts/lean-scaling.ts:328-340 | the first failure rejects every waiter with itself, and nobody else |
| FramePump.AskHears | scripts/lean-scaling.ts:350-383 | a new waiter is answered from the first retained frame that it matches or throws on, and otherwise not |
| FramePump.AskAnswers | scripts/lean-scaling.ts:350-383 | so it is told at once iff the driver has failed or such a frame is retained, and waits iff not |
| FramePump.GiveUpTells | scripts/lean-scaling.ts:342-374 | giving up rejects a waiter that waits, once, and changes nothing else |
| ChildHost.LongLinesDependOnChunks | scripts/lean-scaling.ts:263-271 | a longer line is taken when its end is in the same chunk and fatal when it is not |
| ChildHost.ResponsesAreNotMixed | scripts/lean-scaling.ts:395-417 | over every run of requests and other events, what a request resolves to carries its own id and method, and two requests of a driver never share a response |
| ChildHost.ResponseIs | scripts/lean-scaling.ts:395-400 | a frame answers a request iff it has its id and method and is a result or an error |
| ChildHost.CallsKeep | scripts/lean-scaling.ts:395-417 | whatever is called in whatever order, the invariants hold, every request waits for its own id, and ids are below the counter and strictly increasing |
| HostRequests.CallsAreEvents | scripts/lean-scaling.ts:350-417 | any run of calls does to the driver what its events do: a request asks for the frame of its own id, and is given up at once if it could not be written |
| HostRequests.RequestsAreNumbered | scripts/lean-scaling.ts:395-400 | the requests are those that were made, in order, with the ids 1, 2, 3 and so on |
| HostRequests.SendAnswers | scripts/lean-scaling.ts:395-417 | a request is told the driver's failure, else the first retained frame that answers it, else that its write failed, else it waits; nobody else is told anything |
| HostProcess.Driver.FailAll | scripts/lean-scaling.ts:328-340 | the first fatal error rejects every waiter once; later ones change nothing |
| HostProcess.Driver.RemoveWaiter | scripts/lean-scaling.ts:342-348 | removes exactly that waiter, and says whether it was there |
| HostProcess.Driver.Offer | scripts/lean-scaling.ts:297-302 | the backward loop over waiters equals the recursive specification although resolving and failing change the list |
| HostProcess.Driver.TakeLine | scripts/lean-scaling.ts:272-303 | one line: ignored, fatal, or a frame retained and offered |
| HostProcess.Driver.OnData | scripts/lean-scaling.ts:255-308 | one chunk keeps the invariant and equals the specification |
| HostProcess.Driver.CreateWaiter | scripts/lean-scaling.ts:350-383 | a waiter is settled from retained frames or registered |
| HostProcess.Driver.RejectAndRemove | scripts/lean-scaling.ts:371-374 | rejects a pending waiter once and does nothing to a settled one |
| HostProcess.Driver.Request | scripts/lean-scaling.ts:395-417 | draws the next id, registers the waiter before writing, rejects it on a failed write, and keeps every request's id its own |
| HostProcess.Driver.Close | scripts/lean-scaling.ts:420-454 | leaves nobody waiting and every promise settled exactly once |
| CanonicalJson.ReadsBack | scripts/verification/deps-sbom.ts:174-182 | a reader recovers the meaning of any value from its canonical text, followed by anything that ends a value |
| CanonicalJson.StringReadsBack | scripts/verification/deps-sbom.ts:174-182 | a string is recovered from its escapes, lone surrogates and control units included |
| CanonicalJson.SameTextIffSameMeaning | scripts/verification/deps-sbom.ts:174-182 | two values have the same canonical text iff they are the same up to the order of members |
| CanonicalJson.KeyOrderIsIrrelevant | scripts/verification/deps-sbom.ts:174-182 | reordering an object's members does not change its text |
| CanonicalJson.RenderThenSort | scripts/verification/deps-sbom.ts:174-182 | sorting rendered members by key is rendering the sorted members |
| JsonSpelling.WordsAreSpelled | scripts/verification/deps-sbom.ts:174-182 | the words for null, true and false, and the quotation marks of a string, unit by unit |
| JsonSpelling.ListsAreSpelled | scripts/verification/deps-sbom.ts:174-182 | a list is its items' texts between brackets with commas between them |
| JsonSpelling.ObjectsAreSpelled | scripts/verification/deps-sbom.ts:174-182 | an object is the permutation of its defined members in the order of their keys, between braces, each a quoted key, a colon and a text |
| JsonSpelling.EscapesAreSpelled | scripts/verification/deps-sbom.ts:174-182 | quotation mark and backslash, five control units and every other control unit or lone surrogate are escaped as JSON asks |
| JsonSpelling.PlainIsKept | scripts/verification/deps-sbom.ts:174-182 | every other unit stands for itself |
| JsonSpelling.PairIsKept | scripts/verification/deps-sbom.ts:174-182 | a surrogate pair stands for itself |
| JsonSpelling.EscapesOneByOne | scripts/verification/deps-sbom.ts:174-182 | a unit that begins no pair is escaped on its own |
| Sbom.VerifySnapshot | scripts/verification/deps-sbom.ts:570-617 | the drift list holds exactly the specified differences |
| Sbom.CompareCrates | scripts/verification/deps-sbom.ts:579-586 | reports exactly the crates that left or entered |
| Sbom.CompareLockfiles | scripts/verification/deps-sbom.ts:592-604 | reports exactly the missing lockfiles and changed packages |
| Sbom.ComparePins | scripts/verification/deps-sbom.ts:610-615 | reports exactly the pins whose last baseline value differs |
| Sbom.NoDriftIffSame | scripts/verification/deps-sbom.ts:570-617 | with a collision-free hash, no drift iff baseline and live content are equal and the content does not contradict itself on a repeated target or path |
| Sbom.RepeatedPinDrifts | scripts/verification/deps-sbom.ts:610-615 | concrete content with two pins for one target drifts from itself |
| Sbom.DistinctIsConsistent | scripts/verification/deps-sbom.ts:592-615 | distinct asset targets and lockfile paths are enough for that |
| Sbom.FirstIsFirst | scripts/verification/deps-sbom.ts:592-596 | of the lockfiles at one path, the first is compared |
| Sbom.LastIsLast | scripts/verification/deps-sbom.ts:610-611 | of the pins for one target, the last counts |
| Sbom.PartsAreRead | scripts/verification/deps-sbom.ts:570-617 | crates, channel, lockfiles, runtime version and pins are read from where a content holds them |
| Sbom.RecordsAreRead | scripts/verification/deps-sbom.ts:579-615 | a package is known by name and version, a lockfile by its path, a pin by its target and digest |
| SessionFixtures.Normalize | scripts/generate-session-fixtures.ts:401-524 | the two passes over the objects in place give the normalised lines, or the first problem |
| SessionFixtures.CollectIds | scripts/generate-session-fixtures.ts:418-427 | pass one maps each entry id to the id of its last position |
| SessionFixtures.Rewrite | scripts/generate-session-fixtures.ts:429-524 | pass two rewrites every line or stops at the first that fails |
| SessionFixtures.NormalizesIffResolves | scripts/generate-session-fixtures.ts:401-524 | succeeds iff every parent, kept entry and target names an entry and every header can be rewritten |
| SessionFixtures.ReferencesAreKept | scripts/generate-session-fixtures.ts:401-524 | parent, kept-entry, target and origin relations and equality of ids are the same after as before |
| SessionFixtures.Idempotent | scripts/generate-session-fixtures.ts:401-524 | normalising twice is normalising once |
| SessionFixtures.EntryIdsDiffer | scripts/generate-session-fixtures.ts:90-92 | different positions have different ids, none of them `root` |
| SessionFixtures.EntryIdSpells | scripts/generate-session-fixtures.ts:90-92 | an id is the letter e and at least seven decimal digits whose value is the position |
| SessionFixtures.HeadersAreFilled | scripts/generate-session-fixtures.ts:429-447 | a header is given the session id, the base instant and the placeholders for its directory and parent session, and keeps all else |
| SessionFixtures.EntriesAreTimed | scripts/generate-session-fixtures.ts:449-521 | an entry is given the instant of its position, also as the time of its message if it has one; an origin outside the file becomes the root; all else is kept |
| SessionFixtures.ValidatesIffWellShaped | scripts/generate-session-fixtures.ts:796-888 | the output passes every header, id, reference and timestamp check iff the input had one leading header of the right version and distinct entry ids |
| SessionFixtures.VersionsFit | scripts/generate-session-fixtures.ts:812-827 | format 1 asks for no version field, formats 2 and 3 for their number |
| SessionFixtures.DowngradeToV1 | scripts/generate-session-fixtures.ts:532-573 | in place: every line indexed before any is stripped, or the first line that cannot be indexed is reported |
| SessionFixtures.DowngradeStrips | scripts/generate-session-fixtures.ts:532-573 | the header loses its version, an entry its ids, and a compaction its kept id for the index of the first line that has it; all else is kept |
| SessionFixtures.DowngradesIff | scripts/generate-session-fixtures.ts:532-573 | a session can be downgraded iff every compaction names a line of it as the first that it keeps |
| SessionFixtures.FindId | scripts/generate-session-fixtures.ts:532-573 | the search loop finds the first line with an id |
| SessionFixtures.KeptIndexIsPosition | scripts/generate-session-fixtures.ts:532-573 | the index is the position of the kept entry iff the session id is not that entry's new id; otherwise it is the header's |
| SessionFixtures.KeptIndexOfHeader | scripts/generate-session-fixtures.ts:532-573 | a concrete session whose compaction points at the header |
| SessionFixtures.DowngradeIsInjective | scripts/generate-session-fixtures.ts:532-573 | linear sessions with the same downgrade are the same session |
| SessionFixtures.LinearNormalizes | scripts/generate-session-fixtures.ts:401-524 | a linear session stays linear when normalised |
| CargoLinkage.LinkedIntoShippedBinary | scripts/verification/dependency-exposure.ts:1598-1618 | terminates on every graph and returns true iff some chain of edges with a non-dev kind leads from a workspace member to the crate |
| CargoLinkage.ShippingEdges | scripts/verification/dependency-exposure.ts:1600-1605 | the adjacency lists hold exactly the edges with a non-dev kind |
| CargoLinkage.Offenders | scripts/verification/dependency-exposure.ts:814-816 | exactly the edges to the crate that ship |
| CargoLinkage.ShipsUnlessDev | scripts/verification/dependency-exposure.ts:814-816 | an edge ships iff it has a kind other than `dev` |
| CargoLinkage.CheckEdges | scripts/verification/dependency-exposure.ts:823-851 | passes iff both graphs are known and reach the crate by dev edges only; otherwise names the offending edges |
| CargoLinkage.DevOnlyIsNotLinked | scripts/verification/dependency-exposure.ts:814-851 | so a crate that passes is linked iff it is itself a workspace member |
| TopLevelSplit.SplitTopLevel | scripts/verification/dependency-exposure.ts:1178-1205 | the loop over depth, quote and current part equals the specification |
| TopLevelSplit.JoinOfParts | scripts/verification/dependency-exposure.ts:1178-1205 | joining the parts with commas gives back every text |
| TopLevelSplit.PartsAreWellCut | scripts/verification/dependency-exposure.ts:1178-1205 | every part but the last is whole: no comma of its own at top level, nothing left open |
| TopLevelSplit.SplitsExactly | scripts/verification/dependency-exposure.ts:1178-1205 | the parts are the only well-cut sequence that joins to the text |
| TopLevelSplit.CutsExactly | scripts/verification/dependency-exposure.ts:1178-1205 | the text is cut exactly at the commas outside string literals with as many opening as closing brackets outside literals before them, and the parts are what lies between the cuts |
| LegacyIdentity.Scan | scripts/verification/alignment.ts:329-350 | the nested loops record the specified matches with their line numbers |
| LegacyIdentity.RecordedAreDisjoint | scripts/verification/alignment.ts:329-350 | recorded spans never overlap |
| LegacyIdentity.OverlapIsShared | scripts/verification/alignment.ts:329-350 | two spans overlap iff some position lies in both |
| LegacyIdentity.RecordedUnlessTaken | scripts/verification/alignment.ts:329-350 | a match is recorded unless it overlaps a recorded one |
| LegacyIdentity.OnlyChoiceByPriority | scripts/verification/alignment.ts:329-350 | the scan is the only choice in which a match is taken iff no earlier taken one overlaps it |
| LegacyIdentity.LineHolds | scripts/verification/alignment.ts:332-332 | the recorded line number is that of the line the match starts in |
| LegacyIdentity.GroupByKind | scripts/verification/alignment.ts:428-436 | the buckets are the occurrences of each kind, in order |
| LegacyIdentity.CheckBucket | scripts/verification/alignment.ts:437-454 | reports exactly an unallowed kind, the unlabelled lines and a count that is too high |
| LegacyIdentity.CheckCounts | scripts/verification/alignment.ts:426-460 | reports exactly the specified problems, and none iff per-kind counts match and every occurrence's line is labelled |
| LegacyIdentity.SilentMeansExact | scripts/verification/alignment.ts:426-460 | the same equivalence, about the specification |
| LegacyIdentity.CheckFile | scripts/verification/alignment.ts:399-460 | reports exactly the unclassified occurrences, the drifted digest or what the counts say; none iff the file has no occurrence or what its allowance says |
| LegacyIdentity.Verify | scripts/verification/alignment.ts:370-468 | reports exactly the complaints about tracked files and the allowances for files that are not tracked; none iff every tracked file is clean and every allowance is for a tracked file |
| LegacyIdentity.LabelledIff | scripts/verification/alignment.ts:443-445 | a line is labelled iff it is there and has the words `historical witness` in it |

## Left out

- Deflate, inflate, gzip, UTF-8, SHA-256, regular expressions and the text of `release.json` are parameters with the inverse or injectivity laws each statement names.
- Clocks, timeouts, retry sleeps, heartbeat intervals and diagnostics: whether a record is stale is a free choice of the environment, bound by A1.
- DOS date and time encoding: two sixteen-bit numbers that are written and not read back.
- Publication.Run.Reconstruct: acquiring the lock and building the staged tree are single calls that fail or succeed; the inversion proof is one call.
- ZipDamage.DamageIsRejected: stored members only; what one changed byte does to a deflated member depends on the foreign decompressor.
- Ustar.RoundTrip: extraction; the repository has no tar extractor of its own, so the bytes are said to stand where a reader of the headers looks for them.
- FileTree.Walk: a symbolic link stands for the regular file it leads to; links to directories and names with a backslash are not part of this model, and every directory can be listed.
- TreeListing.BreadthMeetsAll: children come in any order, where the code sorts each directory; the order decides only which of two duplicates is reported.
- Staging.AssembleRelease: assembly starts from an empty archive directory on a POSIX host; executable bits are one yes-or-no answer, and error messages are reduced to their kind.
- ReleaseVerifier.VerifyUnpackedArchive: the paths of a set report are a set, where the code prints them sorted and joined; a size that is not an integer stands for any number no file has.
- ReleaseArchive.ExtractZip: the output directory is empty at first, and modes are not set.
- ReleasePaths.SafeJoinIsPath: POSIX semantics only; the win32 branch is not part of this model.
- HostProcess.Driver.Request: the frame written, and turning an error frame into an exception.
- HostProcess.Driver.Close: the grace period and the kill signals; what remains is that everything pending is failed.
- CanonicalJson.SameTextIffSameMeaning: a number is its literal; how a number is printed is foreign.
- SessionFixtures.Normalize: an object's other properties are one opaque text, and fields the passes do not touch are not told apart.
- SessionFixtures.ValidatesIffWellShaped: the checks against the expected view of the session manager.
- LegacyIdentity.Verify: map generations and closure sources, whose allowances are held in files outside this model.
- CargoLinkage.CheckEdges: projecting the graph from cargo metadata.
- Capture of software bills of materials, the Rust product, benchmarks, gate and arbitration scripts, catalog and schema generators: not part of this model.
