# Verified models of Atomic's hard cores

This project models eight parts of the repository that keep state, recurse or do delicate arithmetic,
and proves what each of them is for. Each part stands beside a simple thing it has to agree with: the
virtual drive beside one byte sequence per file, a class constraint beside a validity relation, an import
beside "local edits survive", dates beside "tomorrow is one day later", the shared drive record beside a
list ordered by last publish, Markdown lists beside the tree they were written from, a keyring beside its
list of members, and the connection transport beside "each secret is sent once".

| module | what it models |
|---|---|
| `VfsContent` | `desktop/src/vfs.rs`: contents stored whole or as content-defined chunks, commits with the unchanged-content skip, windows, the one-entry read cache |
| `VfsStaging` | the staging map under every interleaving of requests with the flusher's snapshot, commit and clear steps, file by file |
| `VfsLostWrites` | when a repeated clock reading, or a blob that is not held, loses bytes |
| `VfsDriver` | the driver's operations run to completion, in place |
| `VfsIds` | file ids: cache, delayed write queue and store |
| `VfsDirectory` | directory listings, paging by last id, the listing cache |
| `JsonValues`, `Constraints`, `ConstraintCheck`, `ConstraintMeet` | `lib/src/class_constraints.rs`: JSON equality and pointers; parser and printer; checker; `tighten`, `overlay` and the fold over classes |
| `ImportRecords`, `ImportMerge`, `ImportAgain`, `ImportTwice`, `ImportIdempotent`, `ImportHistory` | `integrations/localthought/plugin.js`: parent resolution; the three-way merge; applying plans; the second run; idempotence; histories of imports and edits |
| `Calendar`, `DayBuckets` | `lib/src/aggregate.rs`: the proleptic Gregorian calendar; printing and parsing of buckets |
| `Discovery`, `DiscoveryRuns` | `lib/src/discovery.rs`: the merge and one call; many replicas against one register |
| `MarkdownInline`, `MarkdownSpans`, `MarkdownLists`, `MarkdownTrees` | `lib/src/document_markdown.rs`: inline marks; printing spans and reading them back; the list parser; rendering trees and reading them back |
| `Sealing`, `SealingModel`, `Keyrings`, `KeyringRuns` | `lib/src/conversation.rs`: framing and sealing; a model of the assumed primitives; the keyring; runs of membership changes |
| `Transport`, `ImportBudget` | `integrations/localthought/browser.ts`: rotating secrets; request budgets |
| `Basics`, `Text` | shared types; numerals and string order |

Code that updates state step by step is a class or a method with loops (`VfsContent.Db`,
`VfsDriver.AtomicNfsFs`, `VfsIds.IdMap`, `VfsDirectory.DirectoryCache`, the parser, the checker, the two
loops of the import, `Discovery.Editing`, `MarkdownInline.ParseInline`, `MarkdownLists.ReadLists`,
`Keyrings.Keyring`, `Transport.BrowserIntegrations`, `ImportBudget.ImportRun`), proved against functions
of the old state; the properties are then lemmas about those functions, and about every run of them.

## Assumptions

- Content digests are injective (`Digest` holds its preimage) and blobs are stored under their own; the
  chunker splits contiguously; store calls in a commit succeed; where it is said so, a write reads a stamp
  that no snapshot in flight of its file carries (`Timely`). Results about a file ask that this file can be
  read; other files may lack their blobs.
- Each method of the id map is one atomic step.
- Which characters are alphanumeric is a parameter of the inline parser (`Alphabet`).
- JSON numbers are reals; a pattern either compiles or not and matches or not (`Regex`).
- An applied import rewrites every `local:` string of a plan, as `server/src/plugins/plan.rs` does, and
  the subjects minted for created records are new (`Mints`). Rows may hold any text; histories ask only
  that no saved source value names a local record at the start, and idempotence asks it of the rows the
  batch is bound to.
- The relay is a compare-and-swap register that takes only newer packets; `None` means absent;
  normalizing an origin twice is normalizing it once.
- The cryptographic primitives satisfy `Sealing.Ideal`; `SealingModel.SymbolicIsIdeal` shows that this can
  be met. Random draws, clocks and answers from the network are parameters.

## What was found false

Where the code does less than a property promises, the model keeps the code, and a lemma says exactly
when the property holds.

- A commit whose digest equals the stored one is skipped even when the blob is missing:
  `VfsContent.CommitReadsBackIff`, with the failing case in `VfsContent.SkippedCommitCanStayUnreadable`.
- A file without a digest is cached under an empty key, so an older version of it can be served:
  `VfsContent.CacheTransparentIff`.
- Staging a file whose blob is not held seeds it as empty, so a save replaces what it did not cover:
  `VfsLostWrites.SavePersistsIff`, with a run that does so in `VfsLostWrites.UnreadableSeedLoses`.
- With a stamp read twice the flusher marks an unpersisted write clean: `VfsLostWrites.WriteLostIff`,
  `VfsLostWrites.TwoWritesOneStampIff`, with a run in `VfsLostWrites.RepeatedStampLosesWrite`.
- `forget` with a pair that is no longer current breaks the two directions of the id map:
  `VfsIds.ForgetKeepsInverseIff`, `VfsIds.OverlappingRemovalsBreakInverse`. Ids stay unique and are never
  given to another subject all the same.
- `tighten` lets one constant win: `ConstraintMeet.TightenConstIff`.
- A date key whose year is negative does not parse back: `DayBuckets.DayKeyParses`.
- A month key is the first seven characters of the day key for years -999 to 9999 only:
  `DayBuckets.MonthKeyIsPrefixIff`.
- A created record whose source id looks like a reference to a created record loses its identity when its
  references are rewritten: `ImportIdempotent.CreatedRowIdentity`.
- Truncating the drive record on every publish keeps what truncating once would exactly when no id repeats
  among the first six with another one behind it (a foreign packet may repeat ids): `Discovery.TameIff`, and
  for a single publish `Discovery.TruncateEachOrOnceIff`.
- A closing emphasis delimiter is searched for without regard to escapes:
  `MarkdownInline.DelimitedReadsBackIff`.
- Neighbouring lists of one kind run together: `MarkdownTrees.RenderedReadsBackIff`.
- Epoch numbers wrap in 32 bits: `Keyrings.AddedKeepsIncreasingIff`.
- One wrapper that does not open withholds every other key of its agent: `Keyrings.OpensIff`, with a keyring
  that does so in `KeyringRuns.SpoiltWrapperWithholdsAll`.
- A cancelled connection comes back when one of its requests is still waiting for its answer:
  `Transport.CancelStaysIff`.

## Model

| member | source | states |
|---|---|---|
| VfsContent.CommitReadsBackIff | desktop/src/vfs.rs:1326-1380 | after a commit the file reads back as the committed bytes if and only if the commit was not skipped or the file already read as them |
| VfsContent.SkippedCommitCanStayUnreadable | desktop/src/vfs.rs:1338-1350 | a concrete file whose blob is missing stays unreadable after its own bytes are saved |
| VfsContent.WrittenReadsBack | desktop/src/vfs.rs:1326-1412 | a commit that writes makes the file readable as exactly the data, whole or chunked, with its digest and size, and a chunk list exactly above the threshold |
| VfsContent.CommitKeepsEach | desktop/src/vfs.rs:1326-1380 | committing one file keeps every other readable file readable with its own bytes, whatever else the store lacks, and gives this one the data |
| VfsContent.RunReadsLastSaved | desktop/src/vfs.rs:1326-1412 | after any run of commits, crossing the chunking threshold in both directions, a file that was readable reads as the bytes last committed to it, whatever other files lack |
| VfsContent.ChunksFlattenToData | desktop/src/vfs.rs:1387-1412 | the chunk pieces of contiguous chunks concatenate to the data |
| VfsContent.SliceRead | desktop/src/vfs.rs:1074-1080 | the window holds exactly the bytes at the offset, is short only at the end, and says whether it reaches the end |
| VfsContent.ReadThroughIsWhole | desktop/src/vfs.rs:1074-1080 | reading window after window until the end flag gives everything from the offset on |
| VfsContent.CacheTransparent | desktop/src/vfs.rs:749-779 | a cached read of a file that reads as its digest says equals reading its blobs, whatever was cached, and the cache stays sound for it |
| VfsContent.CacheTransparentIff | desktop/src/vfs.rs:312-321 | a readable file is served as it is through whatever an earlier read cached, if and only if it has a digest |
| VfsContent.Db.StoreBytes | desktop/src/vfs.rs:1387-1412 | the loop inserts every piece under its digest and returns the digests in order, or none for a small file |
| VfsContent.Db.CommitFile | desktop/src/vfs.rs:1326-1380 | the new store is the commit of the old one |
| VfsContent.Db.Read | desktop/src/vfs.rs:1051-1072 | concatenates the chunk blobs in order, else the whole blob, with the missing-blob errors |
| VfsStaging.StepKeepsInv | desktop/src/vfs.rs:420-438 | every step of a request or of the flusher keeps the staging invariant of a readable file, whatever other files are |
| VfsStaging.StepRefines | desktop/src/vfs.rs:722-843 | only the locked write changes what a file stands for, by exactly its own patch |
| VfsStaging.RestIsStart | desktop/src/vfs.rs:336-347 | a drive at rest is in order for each file that can be read, and the file stands for what it persisted |
| VfsStaging.RunReplays | desktop/src/vfs.rs:1417-1445 | in every interleaving a file stands for its bytes at the start with every completed write applied in order |
| VfsStaging.CleanFilesPersistEveryWrite | desktop/src/vfs.rs:1417-1445 | in every interleaving a file that is not dirty has persisted all its writes: none arriving during a commit is lost |
| VfsStaging.ReadsAreLinearizable | desktop/src/vfs.rs:722-780 | an answered read returned the window of the file's bytes at one moment between its call and its answer |
| VfsStaging.WritePatchesWindow | desktop/src/vfs.rs:816-843 | a write changes its window only, zero-filling a gap, and never shortens the file |
| VfsLostWrites.MutateKeepsInvIff | desktop/src/vfs.rs:1417-1445 | a write keeps its file in order if and only if no snapshot in flight of it has the same stamp and other bytes |
| VfsLostWrites.WriteLostIff | desktop/src/vfs.rs:1417-1445 | whatever stamp it reads, a write is lost in some continuation if and only if such a snapshot is in flight |
| VfsLostWrites.TwoWritesOneStampIff | desktop/src/vfs.rs:1430-1444 | two writes at one stamp around the flusher's snapshot, on any drive: the second is lost if and only if it changes the bytes |
| VfsLostWrites.RepeatedStampLosesWrite | desktop/src/vfs.rs:1430-1444 | a concrete run of two writes at one stamp ends clean without the second |
| VfsLostWrites.SaveOutcome | desktop/src/vfs.rs:420-438 | a write and its flush, on a file readable or not, leave the patched seed clean, persisted unless its digest was the stored one |
| VfsLostWrites.SavePersistsIff | desktop/src/vfs.rs:382-438 | that run persists what the write should give if and only if the file was readable, or the patch overwrites all of it but zeros and the result has another digest than the stored one; for writes and resizes |
| VfsLostWrites.UnreadableSeedLoses | desktop/src/vfs.rs:382-438 | a concrete run writes one byte to an unsynced file of two and ends clean with the other gone |
| VfsDriver.AtomicNfsFs.EnsureStaged | desktop/src/vfs.rs:420-438 | staging changes no file's bytes, readable or not, and keeps every file in order that was |
| VfsDriver.Overwrite | desktop/src/vfs.rs:831-835 | the grown and copied-over buffer is the patched one |
| VfsDriver.AtomicNfsFs.Write | desktop/src/vfs.rs:816-843 | refuses above the cap, else patches exactly this file and returns its new size |
| VfsDriver.AtomicNfsFs.SetSize | desktop/src/vfs.rs:793-814 | refuses above the cap, else keeps the bytes that fit, byte by byte and in place, zero-fills the rest, and changes no other file |
| VfsDriver.AtomicNfsFs.ReadPersisted | desktop/src/vfs.rs:749-779 | the persisted half of a read is the cached read of the specification |
| VfsDriver.AtomicNfsFs.Read | desktop/src/vfs.rs:722-780 | returns the window of the bytes of a staged file or one in order, the read error of another, and changes none |
| VfsDriver.AtomicNfsFs.FlushOne | desktop/src/vfs.rs:1427-1444 | commits one snapshot and clears its flag; files in order keep their bytes, the store keeps what it holds of every other file, and this one has persisted the snapshot exactly when the commit was not skipped over missing bytes |
| VfsDriver.AtomicNfsFs.FlushReady | desktop/src/vfs.rs:1417-1445 | cleans exactly the dirty files, gated only those not written for the debounce time; leaves what the store holds of every other file; files in order keep their bytes, and ungated each of them has persisted what it stands for |
| VfsIds.GetOrAllocValid | desktop/src/vfs.rs:156-191 | keeps both directions inverse, returns the known id or mints one above all, and changes no other id |
| VfsIds.SubjectForValid | desktop/src/vfs.rs:229-247 | looking an id up keeps the map and answers what both layers say |
| VfsIds.PersistPendingValid | desktop/src/vfs.rs:193-226 | draining the queue keeps what the layers add up to and leaves nothing queued |
| VfsIds.PersistedSurvivesRemount | desktop/src/vfs.rs:193-226 | an id persisted before a crash is the subject's id after it |
| VfsIds.ForgetKeepsInverseIff | desktop/src/vfs.rs:250-267 | forgetting keeps the two directions inverse if and only if the pair is current or neither side is known |
| VfsIds.OverlappingRemovalsBreakInverse | desktop/src/vfs.rs:250-267 | two overlapping removals with a listing between them pass a stale pair |
| VfsIds.FreshStoreValid | desktop/src/vfs.rs:145-153 | the store of a first mount meets the starting conditions of every run |
| VfsIds.GetOrAllocCounted | desktop/src/vfs.rs:156-191 | even after a stale pair was forgotten an allocation gives the subject an id no other has and changes no other subject's |
| VfsIds.RunCounted | desktop/src/vfs.rs:145-296 | in every run of the calls and remounts, with any pairs forgotten, no subject gets the root id and no two share one |
| VfsIds.RunInverse | desktop/src/vfs.rs:145-296 | in every run that forgets only current pairs the two directions stay inverse |
| VfsIds.PersistedIdNeverReassigned | desktop/src/vfs.rs:145-296 | an id once persisted is never another subject's, in any later part of any run: whatever is forgotten, by current or stale pairs, and across remounts |
| VfsIds.IdMap.Get | desktop/src/vfs.rs:156-191 | the new layers and the id are those of the allocation function |
| VfsIds.IdMap.Subject | desktop/src/vfs.rs:229-247 | the new layers and the answer are those of the lookup function |
| VfsIds.IdMap.Persist | desktop/src/vfs.rs:193-226 | the write batch leaves the drained state |
| VfsIds.IdMap.Remove | desktop/src/vfs.rs:250-267 | both maps of both layers and the queue lose the pair |
| VfsDirectory.SortByIdAscending | desktop/src/vfs.rs:571-603 | sorting distinct ids gives the strictly ascending listing of the same entries |
| VfsDirectory.EntriesForIds | desktop/src/vfs.rs:571-603 | collecting gives each child its own id in the map, distinct, and changes no other subject's id |
| VfsDirectory.PageOfWindow | desktop/src/vfs.rs:685-720 | a page is ascending, past the cursor, leaves out only what lies past its last entry, and is the end if and only if it leaves out nothing |
| VfsDirectory.EnumerationIsExact | desktop/src/vfs.rs:685-720 | however the directory changes between pages, ids strictly increase, each entry was there, and none that was there throughout is missed |
| VfsDirectory.ServedByIsServed | desktop/src/vfs.rs:616-634 | whatever the cache serves is an ascending listing, so the exactness holds through it |
| VfsDirectory.AscendingUnique | desktop/src/vfs.rs:571-603 | the sorted listing is determined by the entries |
| VfsDirectory.EnumerationIsSnapshot | desktop/src/vfs.rs:616-720 | an enumeration returns the sorted directory of its first call, whole after at most one call per entry, within the cache lifetime whatever changes, and at any times when nothing changes |
| VfsDirectory.ServedWithinLifetime | desktop/src/vfs.rs:616-720 | every page of an enumeration comes from the directory as it was, at one of its own calls, less than the cache lifetime before: nothing stale is served |
| VfsDirectory.DirectoryCache.Collect | desktop/src/vfs.rs:571-603 | the loop gives the sorted entries and the id map after them |
| VfsDirectory.DirectoryCache.Readdir | desktop/src/vfs.rs:685-720 | within its lifetime the cached listing is served; a stale one, or any at cursor zero, is rebuilt as exactly the current children in id order; the page is served from what is then cached |
| JsonValues.JsonEqReflexive | lib/src/class_constraints.rs:588-601 | with the two below, the comparison of `const` and `enum` values is an equivalence |
| JsonValues.JsonEqSymmetric | lib/src/class_constraints.rs:588-601 | the comparison does not depend on the order of its sides |
| JsonValues.JsonEqTransitive | lib/src/class_constraints.rs:588-601 | values equal to one value are equal |
| JsonValues.JsonEqIff | lib/src/class_constraints.rs:581-601 | two values are equal if and only if every path leads somewhere in both or neither, to nodes of the same kind, size and names, the same number however written, the same text up to the legacy scheme |
| JsonValues.CanonicalSchemeMeans | lib/src/identifiers.rs:112-117 | `did:ad:` becomes `atomic:` with the rest kept, and every other text stays |
| JsonValues.IndexIff | lib/src/class_constraints.rs:603-608 | a pointer token is an array index exactly when it is a number as printed, without leading zeros (section 4 of RFC 6901) |
| JsonValues.EscapeRoundTrip | lib/src/class_constraints.rs:603-607 | unescaping a pointer token gives the key back (section 4 of RFC 6901) |
| JsonValues.PointerRoundTrip | lib/src/class_constraints.rs:603-607 | a built pointer splits into exactly the path's keys |
| JsonValues.PointerResolves | lib/src/class_constraints.rs:603-607 | the pointer of a path resolves to what following the path reaches |
| Constraints.ParsedIsWellFormed | lib/src/class_constraints.rs:130-267 | whatever parses is well formed: within the depth limit, distinct types, compiling patterns, counts in 64 bits |
| Constraints.PrintedIsAccepted | lib/src/class_constraints.rs:393-479 | whatever is printed from a well-formed constraint is accepted by the parser |
| Constraints.PrintParse | lib/src/class_constraints.rs:122-479 | parsing the printed form of a well-formed constraint succeeds and gives it back, at every depth |
| Constraints.ParsePrintParse | lib/src/class_constraints.rs:122-479 | for every accepted JSON, parse then print then parse gives the same constraint |
| Constraints.OneMoreArgument | lib/src/class_constraints.rs:130-267 | filling one field is parsing with that keyword added, so key order does not matter |
| Constraints.ParseTypes | lib/src/class_constraints.rs:130-267 | accepts exactly the type lists, in order without repeats |
| Constraints.ParseRequired | lib/src/class_constraints.rs:130-267 | accepts exactly arrays of strings, in order |
| Constraints.ParseMap | lib/src/class_constraints.rs:126-267 | accepts exactly objects of acceptable schemas and parses each |
| Constraints.ParseList | lib/src/class_constraints.rs:126-267 | accepts exactly non-empty arrays of acceptable schemas and parses each |
| Constraints.ParseKeyword | lib/src/class_constraints.rs:130-267 | sets exactly the keyword's field, or fails exactly on an unacceptable argument |
| Constraints.ParseAt | lib/src/class_constraints.rs:130-267 | the loop over keys accepts exactly what the specification accepts and builds the constraint it denotes |
| ConstraintCheck.WellFormedFits | lib/src/class_constraints.rs:643-655 | a parsed constraint never reaches the depth failure |
| ConstraintCheck.BreaksRefutes | lib/src/class_constraints.rs:647-831 | a keyword broken at any place the schemas lead to makes the value invalid, and the place is in the value |
| ConstraintCheck.CheckValue | lib/src/class_constraints.rs:647-831 | reports the first of enum, const and type that the value breaks, or none |
| ConstraintCheck.InEnumIff | lib/src/class_constraints.rs:669-690 | an enum holds a value if and only if one of its members is that value node by node |
| ConstraintCheck.HasTypeIff | lib/src/class_constraints.rs:609-625 | a value has its own JSON type and no other, and is an integer if and only if it is the number of one, however written |
| ConstraintCheck.CheckLimits | lib/src/class_constraints.rs:647-831 | reports a bound, count or pattern that the value breaks, or none |
| ConstraintCheck.CheckItems | lib/src/class_constraints.rs:647-831 | checks items in order, restores the path, and blames a broken keyword inside an item |
| ConstraintCheck.CheckFields | lib/src/class_constraints.rs:647-831 | checks required and every key in order, restores the path, and blames a broken keyword at the first bad key |
| ConstraintCheck.CheckBranches | lib/src/class_constraints.rs:647-831 | fails exactly when every branch does, leaving the path alone |
| ConstraintCheck.CheckAt | lib/src/class_constraints.rs:647-831 | no error means valid and the path restored; an error's pointer leads to a broken keyword |
| ConstraintCheck.CheckJson | lib/src/class_constraints.rs:643-831 | accepts exactly the valid values; an error's path resolves in the value and names a keyword broken there |
| ConstraintMeet.CommonMeans | lib/src/class_constraints.rs:325-335 | a value is in the common enum exactly when it is in both |
| ConstraintMeet.TightenIsConjunction | lib/src/class_constraints.rs:310-362 | the tightened constraint accepts exactly what both accept, with enum, bounds and counts unrestricted |
| ConstraintMeet.TightenConstIff | lib/src/class_constraints.rs:348-362 | for two constants tightening is conjunction if and only if they are equal values |
| ConstraintMeet.FoldKeyword | lib/src/class_constraints.rs:539-571 | a keyword of the fold over the classes means every class's own |
| ConstraintMeet.OverlayKeyword | lib/src/class_constraints.rs:365-391 | an overlay means the top constraint where it sets a keyword, else the one under it |
| ConstraintMeet.EffectiveMeans | lib/src/class_constraints.rs:539-571 | the effective constraint accepts exactly what all classes' rules, and the Property's where none has one, accept |
| ConstraintMeet.ClassOrderIrrelevant | lib/src/class_constraints.rs:539-571 | its verdict does not depend on the order or repetition of classes |
| ConstraintMeet.EffectiveConstraint | lib/src/class_constraints.rs:539-571 | the loop folds exactly the entries that are present, and the result is still decided by the checker |
| ImportRecords.DestStep | integrations/localthought/plugin.js:100-161 | a destination is the parent, or the parent record's binding, whatever the record order |
| ImportRecords.BatchSize | integrations/localthought/plugin.js:76-78 | the batch is as large as the records exactly when no local id repeats |
| ImportRecords.StuckNeverLeave | integrations/localthought/plugin.js:157-161 | records left when a pass binds nothing have no finite chain of parents |
| ImportRecords.BindOne | integrations/localthought/plugin.js:108-156 | a record binds exactly when its identity is new and its match is clean, to its row or its own local name |
| ImportRecords.BindsCleanlyIff | integrations/localthought/plugin.js:114-155 | a record binds cleanly if and only if at most one row of its source and destination exists, awaits no review and has every class of the record; it is then bound to that row, else to its own local name |
| ImportRecords.BindRecord | integrations/localthought/plugin.js:102-159 | a pending record waits exactly when its local parent is not bound yet; else it binds as the specification says or its trouble is real |
| ImportRecords.PureDropsHint | integrations/localthought/plugin.js:71 | an identifier loses its first question mark and what follows; other subjects stay |
| ImportRecords.BindPass | integrations/localthought/plugin.js:102-159 | one pass binds exactly records whose parent is known; binding none means all wait |
| ImportRecords.BindAll | integrations/localthought/plugin.js:100-161 | every record binds if and only if the batch is sound and every chain of local parents leaves it; a sound batch otherwise reports a cycle |
| ImportMerge.MergeRecord | integrations/localthought/plugin.js:193-231 | the loop over incoming properties gives the plan of the specification: a conflict exactly when some property is disputed, reporting exactly those, and otherwise every unedited property the source's value and every edited one its own |
| ImportMerge.ConflictMeans | integrations/localthought/plugin.js:201-225 | a merge conflicts if and only if some property is disputed: without a baseline the row does not hold the incoming value; appending, the saved value is not the incoming one; otherwise the row holds neither the incoming nor the saved value and these differ; it reports exactly those, with their values |
| ImportMerge.MergeMeans | integrations/localthought/plugin.js:198-231 | without a conflict an unedited property holds the incoming value and an edited one stays; the saved values are the old overridden by the incoming, the old kept as the previous; every write changes something, and nothing is planned only when nothing would change |
| ImportMerge.ResolvedInside | integrations/localthought/plugin.js:85-98 | resolving replaces exactly the texts that name a local record, at any depth, by its binding, and leaves every other node what and where it is |
| ImportMerge.MergeAll | integrations/localthought/plugin.js:162-232 | the loop plans every record or stops at a real error, and counts each record once |
| ImportMerge.RunImport | integrations/localthought/plugin.js:72-233 | ends exactly on an importable batch with every record's plan; created, updated, unchanged and conflicting records add up to the batch; a collision yields no plans |
| ImportMerge.OrderIrrelevant | integrations/localthought/plugin.js:72-233 | reordering the records changes neither whether the run ends nor any record's plan |
| ImportAgain.RewriteClean | server/src/plugins/plan.rs:335-352 | only a value without local names or minted subjects rewrites to such a value |
| ImportAgain.RewriteInside | server/src/plugins/plan.rs:335-352 | rewriting replaces exactly the texts that name a minted record, at any depth, by its subject, and leaves every other node |
| ImportAgain.RewriteResolved | integrations/localthought/plugin.js:85-98 | resolving with rewritten bindings is resolving, then rewriting |
| ImportAgain.PlannedRow | server/src/plugins/plan.rs:355-421 | with distinct targets every planned write is found in the rows after the run |
| ImportAgain.SettledIsBound | integrations/localthought/plugin.js:100-161 | the one-step equations of the binding loop have one solution |
| ImportTwice.MatchesAgain | integrations/localthought/plugin.js:115-156 | in the second run a record matches exactly the row it was bound to or created as |
| ImportTwice.BoundAgain | integrations/localthought/plugin.js:100-161 | the second run binds every record to the rewritten binding at the rewritten destination |
| ImportIdempotent.AgreedBaselineUnchanged | integrations/localthought/plugin.js:198-231 | where the baseline holds the incoming values nothing is written, whatever the row holds |
| ImportIdempotent.ConflictAgain | integrations/localthought/plugin.js:201-224 | a conflict over an unchanged row is met again with its references rewritten |
| ImportIdempotent.CreatedRowIdentity | integrations/localthought/plugin.js:178-190 | a created row carries its record's identity if and only if rewriting leaves the source id alone |
| ImportIdempotent.RunLands | server/src/plugins/plan.rs:355-421 | applying a run keeps every old row's identity and adds exactly the created rows |
| ImportIdempotent.MergeAgain | integrations/localthought/plugin.js:193-231 | merging a record into the row its own plan left plans nothing, or the same conflict |
| ImportIdempotent.CreatedSaves | integrations/localthought/plugin.js:178-190 | a created row's saved values are those its record supplied, with references rewritten |
| ImportIdempotent.ImportIsIdempotent | integrations/localthought/plugin.js:72-233 | after applying a run, the same records plan no create and no update and meet exactly the first run's conflicts, whatever rows outside the batch hold |
| ImportHistory.MergeOutcome | integrations/localthought/plugin.js:193-231 | without a conflict a property that still holds its saved value becomes the source's, an edited one stays and the saved values become the source's; a conflict leaves row and baseline alone |
| ImportHistory.ConflictIff | integrations/localthought/plugin.js:201-225 | a record conflicts if and only if source and row disagree beyond repair on some property, by the row's, the saved and the incoming value; then its row stays, else it gets exactly the changes |
| ImportHistory.RunStaysPlain | integrations/localthought/plugin.js:193-231 | no run saves a value that names a local record |
| ImportHistory.BaselineIsLastSupplied | integrations/localthought/plugin.js:193-231 | in every history of imports and edits, rows added and removed among them, each saved value is the one the last conflict-free import supplied |
| ImportHistory.LocalEditsSurvive | integrations/localthought/plugin.js:193-231 | no import changes a property whose value differs from the last supplied one; a changed one becomes what the source says |
| ImportHistory.SourceArrives | integrations/localthought/plugin.js:193-231 | in every history, a property that still holds the last supplied value becomes what the source says when its record does not conflict; a created record's row says it from the start |
| ImportHistory.UneditedRowFollows | integrations/localthought/plugin.js:198-231 | in every history, a record that may do more than append never conflicts over an imported row without local edits: every property it carries becomes what the source says |
| ImportHistory.ConflictLeavesRow | integrations/localthought/plugin.js:201-225 | in every history a record with a conflict leaves its row wholly as it was |
| Calendar.Epoch | lib/src/aggregate.rs:216-256 | day zero is 1 January 1970 |
| Calendar.CivilThenDays | lib/src/aggregate.rs:216-256 | the date of any day number is valid and has that number, before year 0 too |
| Calendar.DaysThenCivil | lib/src/aggregate.rs:216-256 | the number of any valid date leads back to the date |
| Calendar.DayNumberInjective | lib/src/aggregate.rs:245-256 | different dates have different numbers |
| Calendar.NextDayIsNextNumber | lib/src/aggregate.rs:245-256 | the next calendar day under the leap-year rule has the next number |
| Calendar.SuccessorDay | lib/src/aggregate.rs:216-229 | the date of day n+1 is the calendar successor of the date of day n |
| DayBuckets.DayKeyParses | lib/src/aggregate.rs:198-243 | a printed day key parses to its date's number exactly when the year is not negative |
| DayBuckets.IsoDateParses | lib/src/aggregate.rs:231-243 | three dash-separated numbers are a day if and only if month and day are in range |
| DayBuckets.DayBucketParses | lib/src/aggregate.rs:198-243 | parsing a printed day bucket gives the floor-divided local day, for every instant and offset |
| DayBuckets.DayKeyInjective | lib/src/aggregate.rs:198-212 | day keys are equal exactly for equal dates |
| DayBuckets.SameBucketIff | lib/src/aggregate.rs:198-212 | two instants share a day bucket if and only if they share a local day |
| DayBuckets.DayOrder | lib/src/aggregate.rs:216-229 | day numbers and calendar dates are ordered alike |
| DayBuckets.DayKeyOrder | lib/src/aggregate.rs:198-212 | for years 0 to 9999 day keys sort as the dates do |
| DayBuckets.DayBucketsSortChronologically | lib/src/aggregate.rs:198-212 | for those years day buckets sort as the local days do |
| DayBuckets.MonthKeyIsPrefixIff | lib/src/aggregate.rs:198-212 | the month key is the day key's first seven characters exactly for years -999 to 9999 |
| DayBuckets.SameMonthIff | lib/src/aggregate.rs:198-212 | two instants share a month bucket if and only if their local dates have the same year and month |
| DayBuckets.MonthBucketIsPrefix | lib/src/aggregate.rs:198-212 | an instant's day bucket is its month bucket, a dash and two characters; the month bucket is its first seven exactly in years -999 to 9999 |
| DayBuckets.ExactBucketParses | lib/src/aggregate.rs:198-212 | an exact bucket is the instant in decimal, with a sign only when negative |
| DayBuckets.SameInstantIff | lib/src/aggregate.rs:198-212 | two instants share an exact bucket if and only if they are equal |
| Discovery.TruncateEachOrOnceIff | lib/src/discovery.rs:82-86 | truncating on every update keeps what truncating once would, if and only if the id is not repeated among the kept or nothing was beyond them |
| Discovery.TameIff | lib/src/discovery.rs:80-86 | whatever is published, truncating every time keeps what truncating once at the end would, if and only if no id repeats among the starting first six with another one behind it |
| Discovery.TameKeepsExactly | lib/src/discovery.rs:80-86 | from such a start the two agree after every log of publishes |
| Discovery.NoRepeatsTame | lib/src/discovery.rs:80-86 | a list without repeats is such a start |
| Discovery.RecentOrder | lib/src/discovery.rs:80-86 | the untruncated list orders ids by most recent publish |
| Discovery.Editing.AddNodeId | lib/src/discovery.rs:82-86 | moves the id to the front, once, and keeps six |
| Discovery.Editing.PushUnique | lib/src/discovery.rs:74-78 | what was there stays in place, the item is there, at most one entry is new, and a list without repeats stays so |
| Discovery.AddedIs | lib/src/discovery.rs:74-78 | that determines the list |
| Discovery.PublishDriveRecord | lib/src/discovery.rs:138-199 | at most three packets, each the merge of what was just read under its stamp; success if and only if some attempt is accepted and all before it were overtaken |
| DiscoveryRuns.MergedRecord | lib/src/discovery.rs:163-171 | one merge extends the record by exactly what the call publishes |
| DiscoveryRuns.RunKeepsInv | lib/src/discovery.rs:138-199 | in every interleaving the register holds the merges of the accepted calls, in order |
| DiscoveryRuns.NodeIdsAreMostRecent | lib/src/discovery.rs:138-199 | in every interleaving and from any record the register's ids are those of the accepted publishes, moved to the front and truncated one by one; from a tame start, the first six by most recent publish |
| DiscoveryRuns.ListedByRecency | lib/src/discovery.rs:31-34 | what that list means: no repeats, newest first, and every unlisted published id is older than each listed one |
| DiscoveryRuns.OriginsOnlyGrow | lib/src/discovery.rs:74-78 | whatever origins a run reads, every longer run still reads, in the same places |
| DiscoveryRuns.OnlyMergesAreTaken | lib/src/discovery.rs:126-137 | the register changes only to the merge of one unfinished call into what it held: no writer erases another |
| DiscoveryRuns.FailedCallsChangeNothing | lib/src/discovery.rs:152-198 | a failed call changed nothing unless its accepted packet's answer was lost; a successful one wrote exactly once |
| DiscoveryRuns.UndisturbedPublishSucceeds | lib/src/discovery.rs:152-198 | a call that reads and whose write then meets what it read succeeds, and the register holds its merge |
| DiscoveryRuns.FreshPublishSucceeds | lib/src/discovery.rs:138-199 | so does a new call nobody disturbs |
| DiscoveryRuns.OvertakenReadsAgain | lib/src/discovery.rs:180-194 | a call overtaken on its first or second attempt reads again, and fails on its third; it changes nothing |
| MarkdownInline.ParseInline | lib/src/document_markdown.rs:385-478 | the loop with its recursion on slices gives the runs of the specification |
| MarkdownInline.EscapedReadsBack | lib/src/document_markdown.rs:430-434 | text whose markup characters are escaped, whichever others are too, reads back as one run of it |
| MarkdownInline.DelimitedReadsBackIff | lib/src/document_markdown.rs:398-463 | escaped text between emphasis delimiters reads back with its mark if and only if the closing delimiter does not show inside it |
| MarkdownInline.InsideWordsReadsBack | lib/src/document_markdown.rs:480-483 | underscores inside words are not emphasis: such text reads back as it is |
| MarkdownSpans.SpansReadBack | lib/src/document_markdown.rs:385-478 | words, code, emphasis and links, nested and in sequence in any way that keeps delimiters apart, read back as themselves: every mark, every address, every character |
| MarkdownSpans.AnchorIff | lib/src/document_markdown.rs:455-464 | a link is read if and only if one is written there, its name without `]`, its address without `)` or white space, neither empty |
| MarkdownSpans.VerbatimIff | lib/src/document_markdown.rs:436-448 | code is read if and only if it is written there, not empty and without a backquote |
| MarkdownSpans.WrappedIff | lib/src/document_markdown.rs:415-428 | emphasis is read if and only if it is written there, not empty and up to the first place its delimiter shows again |
| MarkdownInline.TextIsSubsequence | lib/src/document_markdown.rs:385-478 | the text of the runs is a subsequence of the input |
| MarkdownLists.ReadLists | lib/src/document_markdown.rs:318-383 | the loop over lines, recursing on strictly fewer nested ones, gives the lists of the specification |
| MarkdownLists.Flush | lib/src/document_markdown.rs:324-333 | nested lines become the last item's children |
| MarkdownLists.LineReads | lib/src/document_markdown.rs:82-84 | a rendered item line is an item at its depth with its kind, state and text |
| MarkdownLists.ItemOfIff | lib/src/document_markdown.rs:82-83 | a line is read as an item with a marker and content if and only if it is white space, a bullet or number marker, white space and that content |
| MarkdownLists.TaskOfIff | lib/src/document_markdown.rs:84 | a task's state and text are read if and only if the content is a box, white space and that text |
| MarkdownLists.KindMeans | lib/src/document_markdown.rs:220-228 | numbers make ordered lists; a bullet makes a task with its state and text where there is a box, else a bullet |
| MarkdownLists.IndentIsTrimmed | lib/src/document_markdown.rs:241-243 | the indent is what trimming takes off, in bytes |
| MarkdownTrees.LinesRead | lib/src/document_markdown.rs:318-383 | reading any rendered tree gives the tree with neighbouring lists of one kind run together |
| MarkdownTrees.RenderedReadsBackIff | lib/src/document_markdown.rs:318-383 | reading inverts rendering if and only if neighbouring lists differ in kind at every level |
| MarkdownTrees.PlainTreeReadsBack | lib/src/document_markdown.rs:318-478 | any tree of plain texts, escaped and rendered, comes back under the same condition, and each text reads as one plain run |
| Sealing.ParseFrame | lib/src/conversation.rs:324-371 | parsing a framed message gives its parts |
| Sealing.FrameParsed | lib/src/conversation.rs:324-344 | whatever parses is the frame of its parts |
| Sealing.ParsesIff | lib/src/conversation.rs:324-344 | a message parses if and only if it is long enough and of this version, and otherwise the error says which |
| Sealing.NotAFrame | lib/src/conversation.rs:382-428 | what does not decode or parse gives that error whichever way it is opened |
| Sealing.WrapperBindingInjective | lib/src/conversation.rs:150-152 | a wrapper's binding determines its agent and epoch |
| Sealing.SealedAadInjective | lib/src/conversation.rs:346-348 | a message's associated data determines its header and conversation |
| Sealing.FileAadApart | lib/src/conversation.rs:430-432 | a file's associated data determines its conversation and is never a message's |
| Sealing.OpenSealedIff | lib/src/conversation.rs:352-399 | a sealed message opens, to its text, if and only if its epoch's key is first among the keys and the conversation is its own; without a key of its epoch, that is the error |
| Sealing.OnlySealedOpens | lib/src/conversation.rs:382-399 | whatever opens is what sealing with one of the keys makes |
| Sealing.RevealedOpensIff | lib/src/conversation.rs:401-428 | a revealed message key opens exactly the messages of the same epoch key and message id, in their own conversation |
| Sealing.SealFile | lib/src/conversation.rs:443-461 | what it returns opens to the plaintext with the returned key in the same conversation, and in no other |
| Sealing.OpenSealedFileIff | lib/src/conversation.rs:443-485 | a sealed file opens, to its bytes, if and only if key and conversation are its own |
| Sealing.FileBytesUnique | lib/src/conversation.rs:465-485 | under one key, conversation and nonce only one sequence of bytes opens to a given text |
| SealingModel.SymbolicIsIdeal | lib/src/conversation.rs:154-188 | the assumptions on the primitives, with key lengths idealised away, can be met together |
| Keyrings.UnwrapsIff | lib/src/conversation.rs:196-241 | a wrapper opens, to the wrapped key, exactly for its owner's proof, its agent and its epoch, and otherwise fails to decrypt |
| Keyrings.AddedKeepsIncreasingIff | lib/src/conversation.rs:261-283 | a new epoch keeps the epochs increasing if and only if the newest is not the last 32-bit number |
| Keyrings.BegunIff | lib/src/conversation.rs:265-283 | a membership change takes effect if and only if there are members and every one's key can be wrapped to, with one wrapper for each in order |
| Keyrings.WrapIff | lib/src/conversation.rs:196-222 | a key can be wrapped to a member if and only if its published key decodes and the exchange contributes |
| Keyrings.WrapAllFails | lib/src/conversation.rs:276-279 | otherwise the error is that of the first member that cannot be wrapped to |
| Keyrings.SortedIsSorted | lib/src/conversation.rs:285-294 | sorting orders the keys by epoch, keeps them all, and leaves ordered keys alone |
| Keyrings.OpensIff | lib/src/conversation.rs:285-294 | the keyring opens for an agent if and only if each of its wrappers does |
| Keyrings.FailedStays | lib/src/conversation.rs:285-294 | when one does not, the error is that of the first |
| Keyrings.Keyring.AddEpoch | lib/src/conversation.rs:269-283 | appends the epoch of the change, wrapped to exactly the members, if and only if it takes effect; else fails with its error and changes nothing |
| Keyrings.Keyring.Open | lib/src/conversation.rs:285-294 | the keys of the agent's wrappers, oldest first, or an error if one fails |
| Keyrings.Keyring.OpenCurrent | lib/src/conversation.rs:297-305 | the key of the newest epoch, or the error that says why not |
| KeyringRuns.RunKeepsInv | lib/src/conversation.rs:269-283 | in every run the epochs are numbered consecutively from zero |
| KeyringRuns.OpenedIs | lib/src/conversation.rs:285-294 | with its own proof an agent opens exactly the keys of the epochs it was a member of |
| KeyringRuns.WrongProofOpensNothing | lib/src/conversation.rs:285-294 | a wrong proof fails where the agent has a wrapper and opens nothing elsewhere |
| KeyringRuns.CurrentIs | lib/src/conversation.rs:297-305 | an agent can seal exactly when it is a member of the newest epoch |
| KeyringRuns.MessageReadersIff | lib/src/conversation.rs:269-399 | a message sealed by a then-current member opens, now and at every later state, for exactly its epoch's members and only in its conversation |
| KeyringRuns.SpoiltWrapperWithholdsAll | lib/src/conversation.rs:285-294 | a keyring whose newest wrapper has an ephemeral key that does not decode gives its agent not even the key of the first epoch |
| Transport.StepKeepsInv | integrations/localthought/browser.ts:198-370 | every step keeps the balance of secrets made, held and sent |
| Transport.SecretsSentOnce | integrations/localthought/browser.ts:263-370 | in every interleaving with lost answers no secret is sent more often than it was made, so fresh ones at most once, and what is held was never sent |
| Transport.RotatedCodeIsSpentNext | integrations/localthought/browser.ts:334-370 | whatever happened while a request was out, a rotated code is kept: the same owner's next request goes out and spends it, nobody else finds the connection, and the others are found as before |
| Transport.RedeemedCodeIsSpentNext | integrations/localthought/browser.ts:263-302 | the same of the code a handoff redeems, and the handoff cannot be finished again |
| Transport.ConversationSpendsEach | integrations/localthought/browser.ts:334-370 | as long as answers carry codes a connection never dies: each request spends the code of the answer before, in order, and the last is left for the next |
| Transport.HandoffConnects | integrations/localthought/browser.ts:198-302 | a handoff carried through within its ten minutes makes a connection: its verifier is sent and its first request spends the code it was redeemed for |
| Transport.CancelIsOwners | integrations/localthought/browser.ts:259-262 | only its owner cancels a connection; anyone else changes nothing |
| Transport.CancelStaysIff | integrations/localthought/browser.ts:259-262 | a cancelled connection stays out of storage in every continuation that does not start it anew, if and only if no request of it was waiting, to finish it or through it, when it was cancelled |
| Transport.BrowserIntegrations.Start | integrations/localthought/browser.ts:198-250 | its owner and nobody else can finish the handoff, for ten minutes, and no other connection is touched |
| Transport.BrowserIntegrations.BeginFinish | integrations/localthought/browser.ts:263-286 | takes the verifier out of storage before it is sent, or refuses and says why |
| Transport.BrowserIntegrations.EndFinish | integrations/localthought/browser.ts:287-302 | succeeds if and only if the answer has the right platform and a usable code; then the owner's first request spends that code; else storage stays |
| Transport.BrowserIntegrations.BeginSend | integrations/localthought/browser.ts:334-362 | takes the code out of storage before it is sent, or refuses |
| Transport.BrowserIntegrations.EndSend | integrations/localthought/browser.ts:363-370 | succeeds if and only if a rotated code shows; then the owner's next request spends exactly it; else storage stays; other connections are untouched |
| ImportBudget.AttemptsWithin | integrations/localthought/browser.ts:452-489 | the retry loop of one URL stays within its attempts and within the import's remaining requests |
| ImportBudget.UrlWithinRetries | integrations/localthought/browser.ts:452-489 | one URL costs at most four sends |
| ImportBudget.ImportWithinBudget | integrations/localthought/browser.ts:381-520 | however many URLs the engine asks for, an import sends at most its budget and an access check at most one |
| ImportBudget.AttemptsExactly | integrations/localthought/browser.ts:452-489 | with codes rotating, one URL is sent again after exactly the leading answers worth it, up to three times and while requests are left, each time with the code of the answer before, and ends as the answer it stops at says |
| ImportBudget.RefusedSendsNothing | integrations/localthought/browser.ts:414-450 | an aborted import and a URL off the catalog's origin send nothing and cost no request |
| ImportBudget.CheckSendsOnceIff | integrations/localthought/browser.ts:413-446 | an access check of a usable connection sends once if and only if some URL passes the checks |
| ImportBudget.ImportRun.Send | integrations/localthought/browser.ts:334-370 | one send is its request and its answer on the shared storage |
| ImportBudget.ImportRun.Fetch | integrations/localthought/browser.ts:412-489 | the checks and the retry loop give the state, the request count and the answer of the specification |
| ImportBudget.ImportRun.Probe | integrations/localthought/browser.ts:413-446 | sends once for the first URL that passes the checks, and never again |

## Left out

- Constraints.ParseAt: which error is reported, and its wording, are not modelled; `parse_constraint` is accept or reject.
- Constraints.PrintParse: printing is a map comprehension over the keywords; the order of insertion into the JSON object is not modelled.
- ConstraintCheck.CheckJson: the `detail` text and the list of reasons of a failed `anyOf` are not modelled; non-finite and rounded numbers are outside the reals.
- ConstraintMeet.TightenIsConjunction: asks that of the keywords where one side wins (`pattern`, `const`, `type`, `required`, `items`, `anyOf`, object rules) at most one side has each or both agree, because the code lets that side win.
- VfsContent.Db.CommitFile: a failing store call is not modelled; the flusher clears the flag after it all the same.
- VfsStaging.CleanFilesPersistEveryWrite: asks that the file could be read at the start and that stamps are timely; `VfsLostWrites` says what happens otherwise.
- VfsDriver.AtomicNfsFs.FlushReady: run without other requests in between; the interleaved flusher is the `World` of `VfsStaging`.
- VfsIds.IdMap.Persist: one atomic step; two overlapping calls and 64-bit overflow of the counter are not modelled.
- ImportRecords.BindOne: matching by a legacy property and the review of collisions (`resolvedImportSubject`) are not modelled; several matches, or one that awaits review, count as unresolved. So every bound row already has the record's local id and the merge never sets it.
- ImportMerge.MergeRecord: problems are reported as a map from properties, so their order within a record is not modelled; `same` is equality of values, so ties in the locale order of keys are not modelled.
- ImportHistory.LocalEditsSurvive: edits may add and remove rows and change anything but a baseline; minted subjects are new to every saved source value.
- ImportMerge.OrderIrrelevant: when a batch fails, which of several errors is thrown may depend on the order; only that it fails is stated.
- ImportIdempotent.ImportIsIdempotent: asks that the rows the batch is bound to name no local record where the records have something to say and among their saved values, and that a created record's source id is not itself rewritten, as `CreatedRowIdentity` explains.
- DayBuckets.DayBucketParses: integers are unbounded; 64-bit overflow is not modelled.
- DiscoveryRuns.NodeIdsAreMostRecent: packet encoding, signatures and the rules for a reachable origin are parameters.
- MarkdownLists.LineReads: digits in a number marker are ASCII; other decimal digits that the pattern would take are not modelled.
- MarkdownTrees.RenderedReadsBackIff: for rendered trees; text that continues an item and over-indented first lines are dropped by the parser and have no round trip.
- MarkdownSpans.SpansReadBack: asks that neighbouring words are one span and that delimiters stay apart (`Readable`); what is read elsewhere is said construct by construct in `AnchorIff`, `VerbatimIff` and `WrappedIff`.
- Keyrings.Keyring.AddEpoch: an epoch after the last 32-bit number wraps to zero, as an unchecked build does; a checked build stops instead.
- Sealing.OpenSealedFileIff: keys and ciphertexts are not given a fixed length, because injective ones cannot have one; base64 and UTF-8 are an encoding with an inverse, and names are bytes.
- Transport.SecretsSentOnce: the handoff code given to `finish` by its caller is not tracked, only the verifier and the connection codes; Web Locks are not needed for the property and not modelled.
- ImportBudget.ImportRun.Fetch: time is what each send meets (remaining time, abort), not a clock; the access check's response is not inspected.
- Rename, remove, create, symbolic links and attributes of the virtual drive, and link entries for resources that are not files: they would add requests of the same shapes.
- `parse_blocks`, headings, quotes and fenced code: a dispatch over lines around the two parsers modelled.
- `Accumulator` of `lib/src/aggregate.rs`: running sums only; `group_key` beyond its date buckets reads values out of resources.
- `importLimits`, `mergeQuerySelections`, catalog and proxy URL checks of `browser.ts`: validation of inputs only.
- The keyring's JSON form, and everything that talks to NFS, HTTP, Loro, redb, the relay's DNS packets or the operating system.
