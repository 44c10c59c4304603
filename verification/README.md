# Contest Management System: verified models

Dafny models of the algorithms and protocols at the core of the Contest Management
System, with the guarantees its code and documentation promise proved for every input,
every run or every reachable state. `dafny verify dfyconfig.toml` checks the whole project.

| files | what they model |
|---|---|
| `Common` | optional values, bytes, digests and blob stores |
| `EditScripts`, `LineDiff` | the Myers line diff: search over furthest points, backtrack over snapshots, trimming |
| `BackupFormat`, `BackupWriter`, `BackupReader`, `BackupAccept`, `BackupRoundTrip`, `BackupTamper` | the backup archive: chunked tables, sums, manifest last |
| `ImportModel`, `ImportState`, `ImportResult`, `ImportWrites`, `ContestImport`, `ImportCatalog` | the import of a contest archive under fresh ids, and every moment it writes a row |
| `ImportConstraints`, `ImportSchema` | constraints of the database that never refuse a row of an import, and those of the real schema |
| `BlobStore`, `CacheList`, `CacheView`, `CacheRecency`, `BlobCache`, `CacheSteps` | the blob cache, used by one caller and under every interleaving |
| `Tokens`, `Participation`, `SubmissionLimits` | contest rules: token pools, the phases of a participation, submission limits and their countdown |
| `Words`, `Checkers` | the streaming comparators of outputs |
| `TaskOrder`, `ContestConfig` | applying a contest directory, with renumbering under a unique constraint |
| `AuditLog`, `Alerts`, `Awards`, `Decimal` | the audit log verifier, the health alerts, the award bands of certificates |

Conventions. SHA-256 and the audit hash are arbitrary function parameters. No claim takes
them to be free of collisions everywhere: the cache and the audit log need only that no two
different contents or rows occurring in the run collide, and a changed backup is rejected
unless the change itself is a collision. JSON is an abstract pair of
encodings that undo each other, tar and zip are sequences of named members, the database
is maps of rows with the constraints the code relies on; in the import its further constraints
are an arbitrary predicate of the row about to be written and the database at that moment. Instants and durations are
unbounded integers. Loops and objects of the source are loops and classes here; each such
method is proved against a specification function or a property, and the lemmas are about
those. What a specification function computes is also stated apart from it, of the inputs and
results alone: as a member's own `ensures`, or as a lemma about the function.

Where a promise does not hold of the code as it stands, the exact condition is proved:

- `Tokens.GrowsAtNext`: the announced next generation raises availability exactly when the
  pool is not further below zero than one generation, as it may be once rules are tightened after
  tokens were played (`Tokens.NextBringsNothing`); after plays that were all allowed it always does.
- `Participation.DeclaredOrder`: phases in their declared order go back exactly when an
  analysis closes without practice, as in `Participation.DeclaredOrderGoesBack`.
- `SubmissionLimits.RefusesForInterval`: a reached maximum hides a pending interval, so the countdown
  may run while the check names the maximum (`SubmissionLimits.MaximumHidesInterval`);
  `SubmissionLimits.EpochForgotten`: a submission in the first second of 1970 is forgotten by the
  check, which takes a server whose clock stands there.
- `BackupReader.PanicsExactly`: the reader crashes exactly when, after an accepted header and
  before any error or manifest, it meets a member under `db/` whose name has no second slash;
  `BackupReader.PanicsAt` has such an archive for every header.
- `ContestImport.Importer.Import`: an archive with a reference that must not be null to a row outside
  it is refused; `ImportState.FilledExactly` is the exact condition for a row.
- `AuditLog.ZeroEntryEscapes`: an entry at place 0 escapes verification; with positive places
  (which the database's trigger gives) a verified head pins down the whole log.
- `Alerts.SentAlternatesExactly`: a monitor that stops between storing a state and sending its
  message loses the message for good. What is sent alternates exactly when every message sent has an
  even number of lost ones before it; with none lost it always does, and `Alerts.LostAlert` is a
  history where the resolution arrives without its alert.
- `CacheSteps.StaleEntryReachable`: an indexed entry whose file is gone is reachable;
  `OpenFile` copes with it.

## Model

| member | source | states |
|---|---|---|
| `LineDiff.Diff` | internal/adminweb/diff.go:15-45 | for all texts and every bound the script spells both texts and is numbered 1.. on both sides; the longest common prefix, and the longest common suffix of what follows it, are kept; within the bound it has the fewest "+" and "-" lines of all scripts, beyond it everything between the kept ends is deleted and then inserted; in every block of changes the deletions come first |
| `LineDiff.Myers` | internal/adminweb/diff.go:47-118 | the middle is a minimal script whenever some script costs at most the bound, else the replacement |
| `LineDiff.Search` | internal/adminweb/diff.go:52-83 | the snapshots hold the furthest points before each round, only the last round hits, and without a hit no script is within the bound |
| `LineDiff.Round` | internal/adminweb/diff.go:56-80 | one round turns the furthest points of d-1 edits into those of d edits, in place in the array, all accesses in bounds |
| `LineDiff.Advance` | internal/adminweb/diff.go:61-70 | the next furthest point of a diagonal, after its snake |
| `LineDiff.PointReached` | internal/adminweb/diff.go:60-71 | every recorded point inside the grid is reached by a script of at most d edits |
| `LineDiff.PointFurthest` | internal/adminweb/diff.go:60-71 | no script of at most d edits ends further on the diagonal |
| `LineDiff.FirstHitIsCorner` | internal/adminweb/diff.go:72-75 | points may leave the grid, yet the first hit is exactly (n, m) |
| `LineDiff.ScriptHits` | internal/adminweb/diff.go:56-80 | a script of d edits makes the search hit by round d |
| `LineDiff.Backtrack` | internal/adminweb/diff.go:84-112 | walking the snapshots back from (n, m) stays in bounds and gathers, reversed, a script with exactly the found number of edits and no insertion right before a deletion |
| `LineDiff.WalkBack` | internal/adminweb/diff.go:98-101 | the diagonal part of a step back keeps what is gathered |
| `LineDiff.Reverse` | internal/adminweb/diff.go:113-117 | the gathered lines in reverse |
| `LineDiff.Replace` | internal/adminweb/diff.go:120-129 | all deletions then all insertions |
| `LineDiff.ReplacedSpells` | internal/adminweb/diff.go:120-129 | the replacement spells both texts, is numbered, and costs both lengths |
| `LineDiff.CountPrefix` | internal/adminweb/diff.go:18-21 | the longest common prefix |
| `LineDiff.CountSuffix` | internal/adminweb/diff.go:22-25 | the longest common suffix of what the prefix leaves |
| `LineDiff.Assemble` | internal/adminweb/diff.go:26-44 | prefix, shifted middle and suffix put together |
| `LineDiff.AssembledSpells` | internal/adminweb/diff.go:26-44 | around a script of the middle it spells the whole texts, numbered, at the same cost |
| `LineDiff.TrimPreservesDistance` | internal/adminweb/diff.go:17-30 | trimming common ends changes no edit distance, in either direction |
| `BackupWriter.ChunkWriter.Write` | internal/backup/archive.go:321-339 | any piece keeps the chunks a cut of the stream so far into full chunks and a shorter buffer |
| `BackupWriter.ChunkWriter.Flush` | internal/backup/archive.go:341-352 | the buffer becomes the next numbered member, nothing when empty |
| `BackupWriter.ArchiveWriter.WriteFile` | internal/backup/archive.go:285-289 | the member is appended and its sum recorded |
| `BackupWriter.ArchiveWriter.WriteBlob` | internal/backup/archive.go:291-309 | a blob whose size or content disagrees with its row is refused, otherwise appended |
| `BackupWriter.DumpTable` | internal/backup/archive.go:175-187 | the table's members cut its COPY bytes into chunks, all but the last full, none when empty |
| `BackupWriter.DumpBlobs` | internal/backup/archive.go:197-208 | blobs present are written, absent ones listed as missing |
| `BackupWriter.Dump` | internal/backup/archive.go:133-212 | fails exactly without migrations or with a damaged blob, never crashes, and otherwise writes an archive of the snapshot with the manifest last |
| `BackupReader.Read` | internal/backup/archive.go:428-596 | the member loop and its checks compute the same verdict as the fold over the members: the restored content, a rejection, or a crash |
| `BackupReader.CheckManifest` | internal/backup/archive.go:637-668 | accepts exactly equal sums, blob counts and bytes, and rows of known tables |
| `BackupReader.AcceptedShape` | internal/backup/archive.go:490-596 | an accepted archive is header, files and blobs, and the manifest last, with the sums the manifest lists |
| `BackupReader.RunAccounts` | internal/backup/archive.go:490-574 | after any members the sums and counts are those of the members |
| `BackupAccept.AcceptedExactly` | internal/backup/archive.go:428-668 | an archive is accepted exactly when its header has format 1 and migrations that are a non-empty prefix of the installation's, its members are sequences, chunks of listed tables each in one block, or blobs that hash to their names, its last member and no other is the manifest, and the manifest lists exactly these files with their sums, the number and size of the blobs and (when restoring) the rows; then the data of the members is what is given |
| `BackupAccept.RunReads` | internal/backup/archive.go:490-574 | members before a manifest are read exactly when each of them may be where it is |
| `BackupReader.PanicsExactly` | internal/backup/archive.go:513-514 | the reader crashes exactly at a `db/` member without a second slash that it comes to with no error and no manifest before |
| `BackupReader.PanicsAt` | internal/backup/archive.go:513-514 | after any header it accepts it crashes on a member `db/x` |
| `BackupRoundTrip.ReadDump` | internal/backup/archive.go:428-596 | reading what the dump wrote succeeds, with or without a target, and gives back each table's bytes, sequences, blobs, row counts and missing list |
| `BackupRoundTrip.DumpComesBack` | internal/backup/archive.go:133-212 | a dump gives back the header, the sequences, every table's bytes and rows, every registered blob the store has with its registered bytes, and as missing, in order, exactly those it does not have |
| `BackupRoundTrip.DumpLaidOut` | internal/backup/archive.go:133-212 | a dump is the header, the chunks table by table under their six-digit numbers, the sequences, the blobs as they are registered, and the manifest |
| `BackupRoundTrip.ReadTables` | internal/backup/archive.go:513-544 | the chunks of all tables load exactly their concatenations |
| `BackupRoundTrip.ReadBlobs` | internal/backup/archive.go:545-558 | the blob members store exactly the dumped contents |
| `BackupFormat.ClassifyChunk` | internal/backup/archive.go:513-516 | a chunk's member name names its table, whatever the table is called |
| `BackupFormat.ChunkNameInjective` | internal/backup/archive.go:345 | different chunks have different member names |
| `Decimal.PaddedExactly` | internal/backup/archive.go:345 | a chunk's numeral denotes its number with six digits, or as many as it takes |
| `BackupTamper.RejectsPrefix` | internal/backup/archive.go:490-596 | every proper prefix of a dump is rejected |
| `BackupTamper.RejectsAppended` | internal/backup/archive.go:498-500 | a member after the manifest is rejected |
| `BackupTamper.RejectsRemoved` | internal/backup/archive.go:578-580 | a dump with any one member removed is rejected |
| `BackupTamper.RejectsChanged` | internal/backup/archive.go:578-580 | a dump with the content of any member but the manifest changed is rejected, unless old and new content have the same hash |
| `ImportCatalog.CmsSound` | internal/contestarchive/archive.go:71-154 | no reference column is an administrator column or one the import sets itself |
| `ImportCatalog.CmsOrder` | internal/contestarchive/archive.go:71-97 | the catalog lists 25 tables and none twice |
| `ImportCatalog.CmsKnown` | internal/contestarchive/archive.go:71-97 | an archive of exported tables is one whose tables the import knows |
| `ImportCatalog.CmsForward` | internal/contestarchive/archive.go:71-154 | of all references of archived rows only `tasks.active_dataset_id` is ever deferred |
| `ImportCatalog.CmsRequired` | internal/contestarchive/archive.go:71-154 | a reference that must be filled is to a table imported before its own, so it is never deferred |
| `ImportSchema.CmsUniqueAccepts` | internal/db/migrations/0001_schema.sql:105-421 | none of the 15 unique constraints and primary keys within a contest refuses a row, whatever other contests are there, if the archived rows keep it |
| `ImportSchema.ContestNameAccepts` | internal/db/migrations/0001_schema.sql:48 | the unique name of a contest refuses nothing if no other contest has the chosen name |
| `ImportSchema.TaskNamesAccept` | internal/db/migrations/0001_schema.sql:109 | the unique name of a task refuses nothing if the archived names differ and none is taken with its suffix |
| `ImportSchema.EvaluationsAccept` | internal/db/migrations/0001_schema.sql:343 | the key of evaluations to submission results refuses nothing if every archived evaluation has its result |
| `ImportSchema.OwnerAccepts` | internal/db/migrations/0003_task_types.sql:9 | the check of a submission's owner refuses nothing if the archived submissions of contestants come with their participation |
| `ImportSchema.SchemaAccepts` | internal/db/migrations/0001_schema.sql:14-425 | all of these constraints together, with any checks of single rows, accept every row of an import, if the archive keeps them and the names are free; so such an archive, when well-formed, is imported |
| `ContestImport.Importer.constructor` | internal/contestarchive/import.go:196-199 | an importer starts with empty maps and no deferred reference |
| `ContestImport.Importer.RewriteRow` | internal/contestarchive/import.go:496-525 | administrator columns become null, references become images or null, and exactly those to later tables are deferred; fails only for a reference that is no id or that cannot wait |
| `ContestImport.Importer.StoreRow` | internal/contestarchive/import.go:487-526 | the row is stored under a fresh id with its archived id mapped to it; otherwise it lacks an id or a usable reference, leaves a required column empty, or a constraint of the database refuses exactly the row that would be stored |
| `ContestImport.Importer.Reuse` | internal/contestarchive/import.go:405-446 | rows whose natural key exists are mapped to the existing rows, the others stay pending, each once |
| `ContestImport.Importer.InsertBatch` | internal/contestarchive/import.go:448-554 | after a batch of a table with ids the invariant holds of all rows so far; it fails only if some row cannot be loaded or a constraint refuses one at a moment of an import |
| `ContestImport.Importer.InsertPlain` | internal/contestarchive/import.go:448-554 | the same for a table without ids |
| `ContestImport.Importer.Batches` | internal/contestarchive/import.go:386-402 | every batch size at least 1 handles every row once, in order |
| `ContestImport.Importer.Table` | internal/contestarchive/import.go:380-403 | a whole table joins the imported ones and the earlier ones are as before |
| `ContestImport.Importer.GroupDeferred` | internal/contestarchive/import.go:558-569 | the groups hold exactly the deferred references whose target is archived, by table and column |
| `ContestImport.Importer.FixColumn` | internal/contestarchive/import.go:570-575 | one group's references are written and nothing else; it fails only if a constraint refuses one of the updated rows over the database of that moment |
| `ContestImport.Importer.FixDeferred` | internal/contestarchive/import.go:556-577 | whatever every single write keeps holds once all deferred references are written, in whatever order the groups come; it fails only if a constraint refuses the row one of the writes makes, over the database of that moment |
| `ContestImport.Importer.Import` | internal/contestarchive/import.go:196-211 | success gives a copy of the archive beside what was there, every cell of every row as the import is to make it (`ImportResult.CopyHasRows`), and means that every row could be loaded and every required reference is to an archived row; failure leaves the database as it was; a well-formed archive is imported whenever the constraints accept every row at the moment an import may come to write it: inserts in the order of tables and rows, then the deferred references in any order |
| `ContestImport.ImportableExactly` | internal/contestarchive/import.go:448-554 | which archives are well-formed, stated of their rows: keys of users and teams, known columns, ids, names of tasks, references that are null or ids, and a value for every column that must have one |
| `ContestImport.ProgressDuring` | internal/contestarchive/import.go:448-550 | at every insert the tables before are whole, those after untouched, and of the table itself the rows before are there; the database holds the old rows and, under the ids the maps give them, images of archived rows, none twice, with exactly the references to later tables empty |
| `ImportWrites.PatchesDuring` | internal/contestarchive/import.go:570-575 | while the deferred references are written every table is whole, after any of them in any order |
| `ImportConstraints.ForeignKeysAccept` | internal/contestarchive/import.go:496-525 | no foreign key over one column refuses a row at any moment of any import |
| `ImportConstraints.ForeignKeyAccepts` | internal/contestarchive/import.go:200-208 | a foreign key over several columns to a table imported earlier never refuses a row if the archived rows keep it |
| `ImportConstraints.ChecksAccept` | internal/contestarchive/import.go:487-550 | a check of a row that does not look at ids never refuses one if the archived rows satisfy it, with references outside the archive empty |
| `ImportConstraints.UniqueAccepts` | internal/contestarchive/import.go:487-550 | a unique constraint over any columns, references included, never refuses a row if the archived rows keep it and bring new values |
| `ImportConstraints.UniquePlainAccepts` | internal/contestarchive/import.go:487-550 | the same for a table without ids |
| `ImportConstraints.KeysAccept` | internal/contestarchive/import.go:405-446 | taking over existing users and teams makes their unique keys never refuse a row |
| `ImportState.AddRow` | internal/contestarchive/import.go:487-525 | one stored row keeps the invariant of its table and all old rows |
| `ImportState.ReuseRow` | internal/contestarchive/import.go:436-442 | one reused row keeps the invariant; no two archived rows share an image |
| `ImportState.FilledExactly` | internal/contestarchive/import.go:513-522 | what would be inserted fills the required columns exactly when the archive does: no administrator column, no null, and every reference to an archived row of an earlier table |
| `ImportState.RequiredReference` | internal/contestarchive/import.go:513-522 | a required reference to a later table or outside the archive keeps its row from being imported |
| `ImportState.TableDoneFrame` | internal/contestarchive/import.go:200-208 | importing a later table does not disturb an earlier one |
| `ImportResult.PatchSteps` | internal/contestarchive/import.go:556-577 | writing any deferred reference closes it in its own row, leaves every other row alone, and keeps all rows the images they should be |
| `ImportResult.Finished` | internal/contestarchive/import.go:200-211 | the id maps are injective on exactly the archived ids, every row is its image, nothing else is new |
| `ImportResult.CopyHasRows` | internal/contestarchive/import.go:448-554 | in a copy every row that no existing user or team stands for has exactly its columns that can be written: a contest the new name and status, a task its name with the suffix, new ids, null for administrators, images or null for references, everything else as archived |
| `ImportResult.CopiedCell` | internal/contestarchive/import.go:496-525 | in a copy a reference is the image of its target or null when the target is not archived, administrators are null, other columns are unchanged |
| `BlobCache.Cache.constructor` | internal/blob/cache.go:53-99 | what is kept at start is the longest fitting part of the files, newest first, and of the files only those |
| `BlobCache.SortByTime` | internal/blob/cache.go:90 | the same files, most recently modified first |
| `BlobCache.Cache.EvictLocked` | internal/blob/cache.go:120-131 | entries are dropped from the back, with index, size and file, until the rest fits or one is left |
| `BlobCache.Cache.Insert` | internal/blob/cache.go:133-153 | the file is placed, the entry the digest has, or the new one, becomes the first, and the longest prefix that fits stays, the others in their order; evicted files are unlinked; the cache stays sound |
| `BlobCache.Cache.Download` | internal/blob/cache.go:198-225 | content is cached only when it hashes to the digest |
| `BlobCache.Cache.Fetch` | internal/blob/cache.go:158-196 | a hit, or one verified download followed by a hit: at most two looks; on success the entry is the first and the others kept are in their order, on failure the list is as it was |
| `BlobCache.Cache.OpenFile` | internal/blob/cache.go:229-246 | returns bytes that hash to the digest, even when an indexed file is gone, and never gives up when used by one caller; the entry opened becomes the first of the list |
| `BlobCache.Cache.Forget` | internal/blob/cache.go:248-256 | the entry leaves list, index and size |
| `BlobCache.Cache.Put` | internal/blob/cache.go:259-308 | writes through and keeps a copy unless the digest is indexed |
| `BlobCache.Cache.Stat` | internal/blob/cache.go:314-326 | the recorded size or the backend's, which is the backend's answer as long as the contents in use do not collide |
| `BlobCache.Cache.Delete` | internal/blob/cache.go:328-335 | removed from index, files and backend |
| `BlobCache.Cache.Do` | internal/blob/cache.go:158-335 | one operation answers what the backend alone would, keeps the cache coherent, and does to the list what it is to do |
| `BlobCache.Cache.Run` | internal/blob/cache.go:158-335 | over every run of operations whose contents do not collide the answers and the backend are those of the backend alone, and the list is in the order of last use: opening a content uses it, and putting one that is not in the list; no file is without its entry |
| `BlobCache.OpenAndRun` | internal/blob/cache.go:53-335 | a cache opened on the files a previous run left answers every run as its backend alone would |
| `BlobCache.SampleRun` | internal/blob/cache.go:53-335 | such a run exists: a full cache with a file of a previous run, a put that evicts it, and both contents read back |
| `BlobStore.KeepsWhatWasPut` | internal/blob/cache.go:158-335 | what was put is read back until it is deleted, whatever else the run does |
| `BlobStore.AnswersMean` | internal/blob/cache.go:158-335 | every answer of a run follows from what was put before it and not deleted since |
| `CacheRecency.OrderOfUse` | internal/blob/cache.go:146-182 | of two entries in the list the one used later is ahead, and of two never used the one that was ahead at the start |
| `CacheRecency.StepOrder` | internal/blob/cache.go:120-335 | an operation puts what it uses first and keeps the order of the rest |
| `CacheList.EvictedFits` | internal/blob/cache.go:120-131 | eviction leaves the longest non-empty prefix of the recency order that fits |
| `CacheList.LongestUnique` | internal/blob/cache.go:120-131 | there is only one such prefix |
| `CacheView.InsertedLongest` | internal/blob/cache.go:133-153 | an insertion leaves exactly that prefix of the new order, and its first entry is the one inserted |
| `CacheView.InsertedSound` | internal/blob/cache.go:133-153 | an insertion keeps list, index, size, bound and file hashes right |
| `CacheSteps.StepKeepsInv` | internal/blob/cache.go:120-335 | every step of every thread keeps the invariant of the interleaved cache |
| `CacheSteps.Safe` | internal/blob/cache.go:120-335 | in every reachable state list and index agree without repeats, size is the sum, the bound holds unless one entry is left, files hash to their names, opened handles hold the right bytes, recorded sizes are true as long as the contents in use do not collide, and no digest has two downloads in flight |
| `CacheSteps.StepsDo` | internal/blob/cache.go:120-335 | what each step of a thread does to the list, the files and the backend: hits and insertions go to the front with the longest prefix that fits, evicted files are unlinked, a forgotten entry alone leaves the list; a failing step does nothing to them |
| `CacheSteps.NoDeadlock` | internal/blob/cache.go:162-195 | while a thread is at work some thread at work can move; a waiter waits for a download that is finished or still held |
| `CacheSteps.StaleEntryReachable` | internal/blob/cache.go:242-243 | an indexed entry without its file is reachable |
| `Tokens.Tokens` | internal/contest/tokens.go:44-91 | the replay loops end and give, for plays in any order: exhausted, unlimited and the wait as the rules and the latest play say; availability, never below 0, as the least of what the pool would hold had it never been full, or been last full at any generation; and as next the first generation after now, unless the pool is full |
| `Tokens.CanPlayExactly` | internal/contest/tokens.go:36-38 | a token can be played exactly when tokens are enabled, the total is not reached, the interval since every play is over, and one is available or they are unlimited |
| `Tokens.LeastAfter` | internal/contest/tokens.go:64-82 | with a cap the level after some plays is that least value |
| `Tokens.Generate` | internal/contest/tokens.go:76-85 | the generation loop adds exactly the generations up to an instant |
| `Tokens.OrderIrrelevant` | internal/contest/tokens.go:50-51 | the state does not depend on the order of the plays |
| `Tokens.CapAndIntervalKept` | internal/contest/tokens.go:37-58 | allowed plays never exceed the total and are at least the interval apart |
| `Tokens.NeverNegative` | internal/contest/tokens.go:70-86 | after allowed plays the level is never negative |
| `Tokens.WindowBound` | internal/contest/tokens.go:64-85 | allowed plays in any window number at most the cap plus what is generated within it |
| `Tokens.GenerationsInWindow` | internal/contest/tokens.go:74-85 | the generations counted for a window are those whose instants lie in it |
| `Tokens.UncappedAvailable` | internal/contest/tokens.go:70-86 | without a cap availability is the initial number plus all generations minus the plays |
| `Tokens.ExtraPlayAvailable` | internal/contest/tokens.go:75-86 | one more play lowers availability by at most one and never raises it |
| `Tokens.NothingBeforeNext` | internal/contest/tokens.go:82-89 | nothing changes before the announced instant, and never without one |
| `Tokens.GrowsAtNext` | internal/contest/tokens.go:86-89 | at that instant availability grows exactly when the level is above minus one generation |
| `Tokens.NextBringsNothing` | internal/contest/tokens.go:86-89 | a pool two below zero announces an instant at which nothing becomes available |
| `Tokens.LegitimateGrowsAtNext` | internal/contest/tokens.go:86-89 | after allowed plays it always grows there |
| `Checkers.CompareExact` | internal/checkers/checkers.go:87-110 | decides equality for every buffer size |
| `Checkers.LineReader.ReadSlice` | internal/checkers/checkers.go:123-139 | up to and including the first newline, a full buffer without one, or the end |
| `Checkers.LineReader.Next` | internal/checkers/checkers.go:123-139 | exactly the next line, however many buffers it fills |
| `Checkers.Fields` | internal/checkers/checkers.go:142-159 | the two-index scan gives the words of the line |
| `Checkers.Blank` | internal/checkers/checkers.go:161-168 | true exactly for lines without words |
| `Checkers.CompareWhite` | internal/checkers/checkers.go:173-210 | accepts exactly texts whose lines, cut at newlines, have the same words one by one, lines that are missing having none, for every buffer size (hence an equivalence) |
| `Words.WordsShape` | internal/checkers/checkers.go:112-159 | words are non-empty, free of spaces, and spell the text without its spaces |
| `Words.WovenWords` | internal/checkers/checkers.go:112-159 | words apart by at least one space, with any spaces around them, are the words of the text they make |
| `Words.TextWoven` | internal/checkers/checkers.go:112-159 | every text is made of its words and such gaps |
| `Words.NormalByLines` | internal/checkers/checkers.go:123-210 | two texts are equal to the comparator exactly when their lines have the same words |
| `Words.RowsOfLines` | internal/checkers/checkers.go:123-159 | the rows of newline-free lines put together with newlines are the words of each |
| `Words.HasLines` | internal/checkers/checkers.go:123-139 | every text is made of such lines |
| `Words.RowsWords` | internal/checkers/checkers.go:123-159 | the words of the lines, one after the other, are the words of the text |
| `Words.TrimShape` | internal/checkers/checkers.go:189-196 | what is dropped is blank and what stays does not end in a blank line |
| `Checkers.TokenReader.Next` | internal/checkers/checkers.go:218-239 | the next word across lines, an error exactly for one over 1 MiB |
| `Checkers.CompareFloat` | internal/checkers/checkers.go:244-273 | an error exactly when, after words that agree, one is over 1 MiB; accepted exactly when there are as many words and each pair is one word, or two finite numbers within the absolute tolerance or the relative one of the expected number, whatever the arithmetic does |
| `Checkers.VerdictMatches` | internal/checkers/checkers.go:244-273 | without overlong words: accepted exactly when the lists have equal length and match word by word |
| `Checkers.WhiteImpliesFloat` | internal/checkers/checkers.go:173-273 | what the white comparator accepts the float one accepts for all tolerances, unless (and only unless) a word is overlong |
| `TaskOrder.TaskDb.SetTaskContest` | internal/contestconfig/contestconfig.go:611-616 | the task moves unless the unique constraint would break |
| `TaskOrder.TaskDb.ListTasksByContest` | internal/db/queries/tasks.sql:18-19 | the contest's tasks by number, then id, those without a number last |
| `TaskOrder.ListsSame` | internal/db/queries/tasks.sql:18-19 | that list is unique |
| `TaskOrder.TaskDb.Park` | internal/contestconfig/contestconfig.go:609-616 | all tasks are moved to the parking range, without a clash when nobody was there |
| `TaskOrder.TaskDb.NumberListed` | internal/contestconfig/contestconfig.go:617-630 | the listed tasks get 0, 1, ... in order; with every listed task known, everyone parked and at most 100000 names it succeeds |
| `TaskOrder.TaskDb.NumberOthers` | internal/contestconfig/contestconfig.go:631-640 | the others follow in their old order; with listed and unlisted tasks together at most 100000 it succeeds |
| `TaskOrder.TaskDb.Reorder` | internal/contestconfig/contestconfig.go:603-643 | the constraint holds in every intermediate state; success numbers the listed tasks 0, 1, ... by name, the contest's other tasks after them without a gap in their old order, and changes nothing else; failure changes nothing, and with known names, nobody parked and at most 100000 tasks it succeeds |
| `TaskOrder.ReorderedLists` | internal/contestconfig/contestconfig.go:601-643 | afterwards the contest's list is the listed tasks, then the unlisted in their old order |
| `ContestConfig.Current` | internal/contestconfig/contestconfig.go:570-599 | whether the live dataset is the package, and the first dataset imported from it |
| `ContestConfig.MakeReport` | internal/contestconfig/contestconfig.go:399-422 | the planned action of every task |
| `ContestConfig.FindOrder` | internal/contestconfig/contestconfig.go:423-440 | the order has to change exactly when the contest does not begin with the listed tasks, in the order of the list and each once |
| `ContestConfig.NeedsReorderExactly` | internal/contestconfig/contestconfig.go:423-440 | comparing the listed names and the prefix, as the source does, decides just that |
| `ContestConfig.PrefixOf` | internal/contestconfig/contestconfig.go:536-546 | whether the listed tasks come first, in order |
| `ContestConfig.WriteTasks` | internal/contestconfig/contestconfig.go:473-501 | every task, or every task before the one whose writing fails, has had its planned action, the places of all being unchanged and new tasks at the end of the contest |
| `ContestConfig.WrittenQuiet` | internal/contestconfig/contestconfig.go:475-500 | after its action a task is unchanged or pending for the same package |
| `ContestConfig.WrittenAs` | internal/contestconfig/contestconfig.go:475-500 | the action leaves a task whose package is live alone, makes the first dataset imported from it live if it may go live, and otherwise takes over its content with one new dataset, live if it may |
| `ContestConfig.QuietMeans` | internal/contestconfig/contestconfig.go:570-599 | nothing is to be done exactly when the live dataset's description carries the package's tag, the task exports to its digest, or it may not go live and some dataset carries the tag |
| `ContestConfig.ReorderedSettles` | internal/contestconfig/contestconfig.go:432-440 | a reordered contest needs no reordering |
| `ContestConfig.Apply` | internal/contestconfig/contestconfig.go:399-508 | on success every listed task is in the contest, the contest begins with them in the order of the list, and each package is live as far as it may be; each listed task is what its package makes of it, and the others are as they were but for their numbers; the report says what was to be done to every task and whether the order was wrong. Applied to a contest that is already so it reports no reordering, only unchanged or pending tasks, and changes nothing; without a failing write it succeeds unless a listed task is in another contest or the tasks do not fit below the parking range; when writing one task fails, the tasks before it need nothing |
| `ContestConfig.SettledExactly` | internal/contestconfig/contestconfig.go:399-440 | nothing is left to do exactly when the contest matches the directory in this sense |
| `AuditLog.Verify` | internal/auditlog/verify.go:38-85 | for every page size it ends with all problems of the chain in order, the first 20 listed and the others counted: rows outside the chain, and for each row with a positive place the places missing before it, a previous hash that is not that of the row before, and a hash that is not that of its fields |
| `AuditLog.AllProblemsListed` | internal/auditlog/verify.go:44-71 | the walk finds each of these problems once and no other |
| `AuditLog.NextPage` | internal/auditlog/verify.go:54-75 | each page begins where the last one ended |
| `AuditLog.NoProblemsIffChained` | internal/auditlog/verify.go:59-71 | a walk finds nothing exactly when places count from 1 and every link and hash is right |
| `AuditLog.SameHeadSameLog` | internal/auditlog/verify.go:14-26 | two verified logs with the same head, no two rows of which collide, have the same walked entries, and are the same when all places are positive |
| `AuditLog.ZeroEntryEscapes` | internal/db/queries/admin.sql:61-69 | an entry at place 0 is neither walked nor shown by the head |
| `AuditLog.AppendVerifies` | internal/db/migrations/0021_operations.sql:53-71 | an entry chained by the trigger keeps a verified log verified, and all rows before it and its own content as they are |
| `Alerts.Manager.EvaluateRule` | internal/alerts/alerts.go:72-102 | one check stores exactly the state the rule calls for and sends exactly its message, unless the monitor stops between the two |
| `Alerts.Manager.Evaluate` | internal/alerts/alerts.go:61-105 | after every round, completed or broken off at any rule before or after its store, each rule's stored state is that of its own history of checks and what was sent for it is what that history announces without the lost messages |
| `Alerts.StateMeans` | internal/alerts/alerts.go:86-98 | a state exists exactly during a streak of failing checks, records its start, and is fired exactly when the streak has lasted long enough |
| `Alerts.StoredState` | internal/alerts/alerts.go:72-102 | the stored state has the detail of the latest check made, the time of the first failing check since the last passing one, and whether it has fired |
| `Alerts.MessageExactly` | internal/alerts/alerts.go:78-101 | an alert with that check's detail is announced exactly at the check where a streak first lasts long enough, its end exactly at the first passing check after it, with the last detail stored |
| `Alerts.DeliveredSays` | internal/alerts/alerts.go:72-102 | what is sent is, in order, the message of every turn that is not cut off |
| `Alerts.AnnouncementsAlternate` | internal/alerts/alerts.go:78-102 | announcements alternate, beginning with an alert |
| `Alerts.SentAlternates` | internal/alerts/alerts.go:61-105 | over all rounds and restarts the messages sent for a rule alternate exactly when lost ones come in pairs before every sent one, and always when no round broke off between its store and its send |
| `Alerts.RaisedExactly` | internal/alerts/alerts.go:86-101 | an alert is sent exactly at the check where a streak of only failing checks first lasts `For` |
| `Alerts.FatesAnnounced` | internal/alerts/alerts.go:72-102 | stopping before a send changes neither the stored states nor what is announced later |
| `Alerts.SentAlternatesExactly` | internal/alerts/alerts.go:72-102 | for every history with any sends cut off, what is sent alternates exactly when every message sent has an even number of lost ones before it; with none lost it does |
| `Alerts.Monitor` | internal/alerts/alerts.go:61-105 | a monitor restarted before every round, on whatever the last one left, stores and sends for every rule exactly what its checks call for |
| `Alerts.LostAlert` | internal/alerts/alerts.go:95-101 | a stored alert whose send is cut off, then a passing check: only the resolution is sent, and the alternation is broken |
| `Participation.PhasesGoForward` | internal/contest/timing.go:70-130 | over every run of instants and presses the phase rank never decreases and practice never ends |
| `Participation.StatusMeans` | internal/contest/timing.go:70-130 | when each phase is, from the site's or the contest's start with delay, extra and per-user time; that submitting is possible exactly when running, in analysis or practice, or unrestricted; which submissions are official; and the window and the remaining time |
| `Participation.AfterAnalysis` | internal/contest/timing.go:111-117 | analysis lasts to its stop, then practice or the end |
| `Participation.DeclaredOrder` | internal/contest/timing.go:11-27 | the declared order goes back exactly when an analysis closes without practice |
| `Participation.DeclaredOrderGoesBack` | internal/contest/timing.go:111-117 | an hour of contest and an hour of analysis without practice go from analysis to finished |
| `Participation.StartRuns` | internal/contestweb/handlers.go:33-46 | pressing start makes the participation run at that instant exactly when its window is not empty, which it never is with an extra time that is not negative, as the schema demands |
| `Participation.PressOnce` | internal/db/queries/users.sql:104-106 | a second press changes nothing |
| `Participation.OfficialWindow` | internal/contest/timing.go:76-127 | official instants of a restricted contestant are exactly [begin, end), at most the per-user time plus extra |
| `Participation.OfficialInRun` | internal/contest/timing.go:80-99 | in a run every official instant lies in the window opened by one press |
| `Participation.RemainingIsExact` | internal/contest/timing.go:104-106 | the remaining time ends exactly with the window |
| `SubmissionLimits.AdmittedRespects` | internal/contest/limits.go:49-67 | an admitted submission keeps both maxima and both intervals |
| `SubmissionLimits.CheckSays` | internal/contest/limits.go:49-67 | which refusal is given, of the submissions themselves: the contest's maximum, else the task's, else the contest's interval, else the task's, each with the time left since the latest submission |
| `SubmissionLimits.RefusesForInterval` | internal/contest/limits.go:49-67 | an interval is the reason exactly when one is pending and no maximum is reached, and waiting as told is enough |
| `SubmissionLimits.MaximumHidesInterval` | internal/contest/limits.go:49-67 | a check that names the maximum while an interval is pending |
| `SubmissionLimits.Contestant.constructor` | internal/contest/limits.go:15-20 | a contestant starts without submissions |
| `SubmissionLimits.Contestant.Submit` | internal/contestweb/handlers.go:352-369 | in every one-at-a-time run the official submissions stay within maxima and intervals, and a refusal is the one these submissions call for |
| `SubmissionLimits.Contestant.ReadyAt` | internal/contestweb/handlers.go:193-215 | 0 exactly when no interval since an earlier submission holds this one back, else, to the millisecond, the first instant at which none does |
| `SubmissionLimits.EpochForgotten` | internal/contest/limits.go:45 | a submission in the epoch's first second is counted but forgotten by the interval check |
| `Awards.ParseAwards` | internal/certificate/certificate.go:80-99 | accepts exactly when every line that is not blank is a name, a colon and a rank of 64 bits greater than the one before, and gives these awards; otherwise it names the first line that is neither blank nor such an award |
| `Awards.AcceptsExactly` | internal/certificate/certificate.go:80-99 | lines parse to awards exactly when they hold them in this sense |
| `Awards.ParseLineMeans` | internal/certificate/certificate.go:87-96 | a line parses to an award exactly when, white space aside, it is the name, a colon and the rank, and the rank is greater than the last |
| `Awards.HasPieces` | internal/certificate/certificate.go:82 | every text is made of lines between newlines |
| `Awards.ParseGivesProper` | internal/certificate/certificate.go:80-99 | every parsed list has trimmed, non-empty, newline-free names and strictly growing positive ranks |
| `Awards.FormatAwards` | internal/certificate/certificate.go:110-116 | one line per award: the name, a colon, a space and the rank |
| `Awards.RoundTrip` | internal/certificate/certificate.go:80-116 | parsing the formatted text gives the list back exactly when it has that shape |
| `Awards.AwardFor` | internal/certificate/certificate.go:119-126 | the name of the band containing the rank, none beyond the last, the first for ranks below 1 |
| `Awards.BandUnique` | internal/certificate/certificate.go:119-126 | a rank lies in one band only |

## Left out

- HTTP handlers, templates and forms, apart from the start button, the submission gate and the countdown; they are plumbing around SQL.
- Scoring, ranking, the dispatcher, the queue, sandboxing and printing: other packages, not needed by these properties.
- Restoring a schema (dropping tables, foreign keys, triggers) and the rate limiter of the backup: sequences of SQL statements and waiting.
- BackupRoundTrip.ReadDump: metadata is taken to be within the size limit and the restoring installation to know the dump's migrations, as the reader demands.
- Exporting a contest archive: the import is proved for well-formed archives; that the SQL of an export yields one is not modelled. Header, name-conflict and blob checks before the import, and the contest id and counts it reports, are left out too.
- ContestImport.Importer.InsertBatch: a batch is one INSERT statement in the source; the model stores its rows one after the other, each checked as it is stored, which differs only inside the transaction.
- ContestImport.Importer.FixColumn: the UPDATE of one group is written row by row.
- ContestImport.Importer.Import: archives are taken to have distinct ids and natural keys, the same columns in every row of a table, and no reference from a table to itself, as an export makes them. Required columns are modelled; the other constraints are an arbitrary predicate, of which foreign keys over one column or two, unique constraints and checks of single rows are proved to accept archives that keep them. What a check says, apart from the owner of a submission, and what a trigger does to a row are not modelled.
- BlobCache.Cache.Put: stands for `Put` and `PutBytes`, which differ only in how failures to write the temporary file are reported; I/O failures are in the interleaved model.
- BlobCache.Cache.Fetch: the table of shared downloads is only in the interleaved model.
- CacheSteps.Safe: each locked section, rename, unlink, open and backend call is one atomic step. `Stat`, which only reads the index or the backend, is not a step; that recorded sizes are true is what it needs.
- Checkers.CompareFloat: parsing, arithmetic and order of numbers are arbitrary functions, so the verdict holds of IEEE arithmetic with its rounding, but nothing is said about how close two accepted numbers are as reals.
- Custom checkers' protocols (CMS and testlib output) are left out: they are short parsers.
- ContestConfig.Apply: settings, package checks and the content of an import are abstract; an import adds a dataset whose description carries the package's tag. A failing write of a task changes nothing of that task.
- Alerts.Manager.Evaluate: rules have distinct names, and for the rules a broken round does not come to it is a round whose check failed.
- AuditLog.Verify: a last row without a hash, which the trigger never leaves, makes the query of the head fail in the source; the model reports an empty hash. The number of rows without a place or a hash is given beside the chain, not derived from it.
- AuditLog.SameHeadSameLog: the audit hash is a function of its fields, and no row of one log may collide with one of the other; how the fields are joined before hashing is not modelled. Row ids are not part of the hash and may differ.
- SubmissionLimits.Contestant.Submit: submissions are received one at a time; concurrent ones are checked and stored without a lock. 64-bit overflow of intervals and the database's microsecond rounding are not modelled.
- Tokens.Tokens: 64-bit overflow of instants is not modelled.
- Signatures on certificates, rendering and ranking of recipients are left out: easy members.
