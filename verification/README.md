# A verified model of the v-m-io storage engine

v-m-io keeps small *entries* in an SQL table and the content of files, cut into
encrypted chunks, in blob files on disk next to it. A backend node keeps its
configuration in the same store as a newest-wins register that nodes copy to
each other. This project models that engine in Dafny and proves what it
promises: that a committed chunk row keeps its file, whatever crashes, fails and
is retried and however calls and cleanup interleave, as long as they keep a
discipline that is spelled out and that asks for no more than it must; that
replicas converge; that timestamps
are handed out in order; that prune and cleanup take exactly what they should;
and that the encodings and the query builder mean what they say.

`dafny verify dfyconfig.toml` checks everything.

## How the model is laid out

Two views of the engine are kept side by side and tied together.

* **The step machine** (`Protocol`) gives every call of the storage engine its
  micro-steps: stat, write (all of the file or any part), commit, failed
  commit, removal of a file (which may silently fail), cleanup's stat, query
  and removal; a stat may fail, too. Steps of any number of calls interleave,
  time passes, and any call may stop for good after any step. `Safety` proves
  the invariant,
  `Grace` the two ways of running in an orderly manner, `Necessity` that the
  discipline of the first is exact, `Hazards` runs that go wrong outside of it,
  `History` the refinement to the abstract map from
  (class, key, index) to plaintext and finality.
* **The objects** (`SqlConnection.Sql`, `Store.VmIoDb`, `Cleanup.FileSystem`,
  `Counter.AtomicCounter`, `Register.Node`, `Pool.RingPool`) are classes whose
  methods follow the source's functions step by step, with the
  faults they meet as parameters. Each method of `Store.VmIoDb` also returns
  the run of the step machine that it performed, so the theorems about runs
  hold of the methods.

| module | what it covers |
|---|---|
| `Utf8`, `Bytes`, `Order` | text as bytes, little-endian words, SQL ordering as sorted listings of a set |
| `Entries` | the `entries` table and its newest-wins upsert |
| `Blobs`, `ChunkIdentity`, `BlobLayout` | chunk rows and idealised encryption; the identity frame; hex names and paths |
| `Protocol`, `Safety`, `Grace`, `Necessity`, `Hazards`, `History`, `Serial` | the two-store protocol as a step machine |
| `SqlConnection`, `Store` | the two tables behind one connection; the database object on top |
| `Glob`, `Listing` | GLOB and its escaping; the query that `list` builds, and paging |
| `Cleanup`, `Reclaim` | the recursive walk over the blob directory; that it takes what the database's own cleanup takes |
| `Counter`, `Register`, `Sync` | the timestamp counter, the config register, copying between nodes |
| `Pool` | the ring of connections |

## What the model takes for granted

* Cryptography is symbolic. Hashes and derived ids are injective, a byte of
  ciphertext is bound to the identity it was made under and to its position,
  and a tag opens exactly the ciphertext it was made with. 32-byte ids are used
  only where their spelling matters (`BlobLayout`, `Cleanup`).
* An SQL transaction is one atomic step; an error means it did not commit. A
  crash is a crash of the process between steps.
* A conflict on (class, key) is resolved before the UNIQUE timestamp is looked
  at, so a stale or equal write to an existing key changes nothing even when
  its timestamp belongs to another key.
* GLOB is SQLite's matcher, which reads both operands up to their first NUL. A
  negative LIMIT means no limit.

## Findings

* "A row implies its file" does not hold for calls that overlap freely. It
  holds under the discipline of `Grace.Disciplined`: when an upload begins (or
  its missing entry appears) no other call endangers its blob and a file of it
  that is already there is referenced or younger than the grace period; until it
  commits, its unreferenced file does not outlive the grace period; and stat does
  not fail on a blob that a row references. Uploads of different chunks,
  uploads of one chunk with different content that is not stored yet, removals,
  entry writes and prunes may overlap as they like.
* That discipline is exact (`Necessity.DisciplineExact`). In every sound state a
  step keeps it if and only if no run that keeps it afterwards takes a committed
  row's file away. What endangers a blob is spelled out by `Safety.Harmless`: a
  removal that is pending anywhere in a list, an examination by cleanup while no
  row references it, another upload of the same unreferenced blob that may yet
  write it, and another upload of the same chunk while one of the two blobs is
  the one its row names.
* `Hazards` gives five concrete runs, each of which slips in one step, keeps the
  discipline in all others, and leaves a committed row without its complete
  file: two uploads of the same chunk at once (`OverlapLosesBlob`); a commit
  later than the grace period (`LateCommitLosesBlob`); a re-upload between
  prune's transaction and its removal of the file (`DeferredRemovalLosesBlob`);
  a retry that finds the complete file of an upload that failed longer ago than
  the grace period, skips the write and so leaves the file's age as it is
  (`OldLeftoverLosesBlob`); and a stat that fails on a file that is there, which
  the code takes for a missing file and rewrites (`FailedStatLosesBlob`).
  `Store.VmIoDb.UpsertChunk` says exactly when an upload whose stat failed does damage.
* The retry loop of a server-assigned write gives up only after 64 timestamps
  that were taken or whose transactions failed; when nobody else writes or
  removes meanwhile and nothing else fails, 64 distinct entries hold them (`Register.RefusedHasHolders`).
* The key prefix filter is exact if and only if the prefix has no NUL
  (`Glob.PatternExactIff`); with one it can only select too much. An unbounded
  start of a time range means "not negative". `Listing.AnswerExactIff` gives, for every filter, the exact
  condition under which `list` answers what was asked.
* A comment in `schema.sql` says that the blob id derives from class, key,
  index and hash; the code also includes the finality flag, and so does the
  model. A comment in `cleanup_dir` says that a parent directory becomes
  collectable only on a later pass; the code reads a directory's age before it
  descends, so one pass removes the whole chain (`Cleanup.PassCleans`).

## Model

| member | source | states |
|---|---|---|
| Safety.StepKeepsInv | rs/v-m-io-db/src/lib.rs:304-386 | every micro-step of every call keeps, as long as the way is clear for uploads that begin: each row's ciphertext complete on disk, each file a prefix of the ciphertext of its id, each row equal to what its identity determines, and no call about to remove a referenced blob |
| Safety.OrderlyRunSafe | rs/v-m-io-db/design.md:31-33 | the invariant holds after every run of orderly steps, wherever its calls stopped |
| Safety.EachBlobOneRow | rs/v-m-io-db/src/sql/schema.sql:20-24 | two rows that name the same blob are the same row |
| Safety.ReferencedByOwnRow | rs/v-m-io-db/src/lib.rs:372-384 | a blob is referenced if and only if the row of its own chunk index names it, so removing a replaced or dropped row's blob hits no other row |
| Safety.StatKeepsInv | rs/v-m-io-db/src/lib.rs:338-349 | skipping the write on a file of full length is safe, because a prefix of full length is the whole blob |
| Safety.StatFailsKeepsInv | rs/v-m-io-db/src/lib.rs:342-348 | a failing stat, which leads to a rewrite, is safe on a blob that no row references |
| Safety.CommitFailsKeepsInv | rs/v-m-io-db/src/lib.rs:365-371 | after an SQL error, removing the file only if this call wrote it keeps the invariant |
| Safety.DropKeepsInv | rs/v-m-io-db/src/sql.rs:316-352 | deleting entries with their chunk rows first leaves only unreferenced files to remove |
| Safety.CleanupKeepsInv | rs/v-m-io-db/src/lib.rs:207-227 | cleanup's stat and query steps keep the invariant |
| Safety.ReplacedByNone | rs/v-m-io-db/src/lib.rs:372-384 | the blob a commit replaces is not one that another open upload is about to commit |
| Grace.DisciplinedRunSafe | rs/v-m-io-db/src/lib.rs:143-150 | with the steps of any uploads, removals, entry writes, prunes and cleanups interleaved, with crashes, failures and retries on young leftovers, every run under the discipline keeps every row backed by its file |
| Necessity.DisciplineExact | rs/v-m-io-db/src/lib.rs:143-235 | in a sound state a step keeps the discipline if and only if no run that keeps it afterwards takes the file of a committed row away |
| Necessity.SlipLoses | rs/v-m-io-db/src/lib.rs:338-386 | from every sound state, after any step that slips, a run that keeps the discipline ends with a committed row without its complete file |
| Necessity.BeginLoses | rs/v-m-io-db/src/lib.rs:338-349 | so it is for an upload that begins when the way is not clear or its leftover is old and unreferenced |
| Necessity.TargetedLoses | rs/v-m-io-db/src/lib.rs:106-112 | a pending removal of the blob of an upload, anywhere in a list, can take the file of the row it commits |
| Necessity.ExposedLoses | rs/v-m-io-db/src/lib.rs:207-227 | cleanup can take the file of a pending upload that is neither referenced nor young |
| Necessity.WriterLoses | rs/v-m-io-db/src/lib.rs:342-371 | of two uploads of one unreferenced blob, one that may yet write it can take it back from under the other's row |
| Necessity.ReplacedLoses | rs/v-m-io-db/src/lib.rs:372-384 | of two uploads of one chunk, one can replace and remove the blob that the other found referenced and commits again |
| Grace.SerialRunSafe | rs/v-m-io-db/design.md:31-33 | calls one at a time, each stopped after any micro-step with any leftovers, keep the invariant over any stretch of time |
| Hazards.BackingLostIffHarmful | rs/v-m-io-db/src/lib.rs:338-386 | a step takes a row's backing away if and only if it removes a referenced blob, writes less than all of one, or commits a row whose file is not complete |
| Hazards.OverlapLosesBlob | rs/v-m-io-db/src/lib.rs:338-371 | two overlapping uploads of one chunk, one skipping the write and the other failing and deleting, leave a row without its file; only the second `Begin` is undisciplined |
| Hazards.LateCommitLosesBlob | rs/v-m-io-db/src/lib.rs:143-150 | a commit that comes after the grace period can lose its file to cleanup; only the passing of time is undisciplined |
| Hazards.DeferredRemovalLosesBlob | rs/v-m-io-db/src/lib.rs:98-119 | a re-upload between prune's transaction and its file removal loses its file; only its `Begin` is undisciplined |
| Hazards.OldLeftoverLosesBlob | rs/v-m-io-db/src/lib.rs:338-349 | a retry that skips the write on an old complete leftover loses it to cleanup; only its `Begin` is undisciplined |
| Hazards.FailedStatLosesBlob | rs/v-m-io-db/src/lib.rs:342-348 | a failing stat on a referenced blob and a write that stops short leave the row without its complete file; only the stat is undisciplined |
| History.ReadMeetsView | rs/v-m-io-db/src/lib.rs:411-454 | under the invariant `get_chunk` answers what the abstract map says, for either finality flag |
| History.ReadIntactIff | rs/v-m-io-db/src/lib.rs:411-454 | whatever the disk holds, a read gives the committed content or an error, and the content if and only if the file is intact; the error is `BlobMissing` exactly if the file is gone and `Corrupted` exactly if it has another length |
| History.ForeignFileRefused | rs/v-m-io-db/src/blob.rs:190-202 | a file made for another identity or content is refused |
| History.OverlappingRead | rs/v-m-io-db/src/lib.rs:411-454 | a read whose file access comes any orderly run after its row lookup gives the content of that moment, `BlobMissing` exactly if the file is gone, `Corrupted` exactly if it has another length, and no error while the row stands |
| History.ReadsLastCommit | rs/v-m-io-db/src/lib.rs:304-454 | after any orderly run a chunk reads back as what was last committed for its index since its entry was last removed or pruned |
| History.ReadsLastCommitEitherWay | rs/v-m-io-db/src/lib.rs:143-150 | the same for serialized calls with crashes and for a server under the grace period |
| History.FileRoundTrip | rs/v-m-io-db/src/lib.rs:971-1005 | any file cut into 5 MiB chunks and uploaded among other activity, in any order, in parallel, with repeats, or going on from an earlier attempt, reads back byte for byte, and the entry counts as many chunks as the file has |
| History.JoinSplit | rs/v-m-io-db/src/lib.rs:312-320 | cutting a file into valid chunks loses nothing |
| History.RowsAsReadersExpect | rs/v-m-io-db/src/sql/schema.sql:16-37 | in every reachable state rows have valid sizes (5,242,880 bytes, or at most that if final), a parent entry, the blob id that reads re-derive, and a blob of their own |
| Blobs.DecryptExact | rs/v-m-io-db/src/blob.rs:190-202 | decryption gives a content back if and only if tag and ciphertext are those of that content under that identity |
| Blobs.EncryptInjective | rs/v-m-io-db/src/blob.rs:163-187 | equal ciphertexts come from equal contents, and, unless empty, from one identity |
| Store.VmIoDb.Upsert | rs/v-m-io-db/src/lib.rs:274-301 | each field limit in bytes with its error; then, unless the transaction fails, the row given is stored exactly if its key has none as new and no other key has its timestamp, and the result says which |
| Store.VmIoDb.UpsertChunk | rs/v-m-io-db/src/lib.rs:304-386 | exactly when it ends how, in terms of the size, the parent entry, the file on disk, the rounds of writing, the SQL fault and where the process dies (`EndsAsTold`): with nothing of that in the way it commits, a shard directory that vanished once included; the row, the replaced blob's file, its own file and all others afterwards (`LeavesAsTold`); the abstract map changes exactly when the row was committed; the call is a run of the step machine; and the database stays valid if and only if it did not rewrite a referenced blob after a failed stat and then cut it short or take it back |
| Store.VmIoDb.WriteBlob | rs/v-m-io-db/src/blob.rs:142-153 | the file is whole if and only if the first round wrote it or the shard directory vanished under the first and the second wrote it; a failing mkdir or a second vanishing leaves the disk alone, a write that stops short or a death leaves its part |
| Store.VmIoDb.StoreBlob | rs/v-m-io-db/src/lib.rs:338-349 | the file is written exactly when stat failed or found it missing or of another length |
| Store.VmIoDb.CommitBlob | rs/v-m-io-db/src/lib.rs:351-386 | row committed and the replaced blob removed, or nothing committed and the file taken back if this call wrote it |
| Store.VmIoDb.AfterSqlError | rs/v-m-io-db/src/lib.rs:365-371 | only a file this call wrote is removed |
| Store.VmIoDb.AfterCommit | rs/v-m-io-db/src/lib.rs:372-384 | the blob the row named before is removed if it is another one |
| Store.VmIoDb.GetChunk | rs/v-m-io-db/src/lib.rs:411-454 | in a valid database the answer, errors included, is the abstract map's, unless sql or the file cannot be read; each answer with its cause in the row |
| Store.VmIoDb.CleanBlob | rs/v-m-io-db/src/lib.rs:187-230 | a blob file goes exactly when it is at least 300 seconds old and no row names it, unless the query fails or the removal does; the call is a serial run of the step machine |
| Store.VmIoDb.CollectGarbage | rs/v-m-io-db/src/lib.rs:153-235 | a pass over any blob files takes exactly those it came to that are at least 300 seconds old and named by no row, and reads answer as before |
| Store.VmIoDb.Rm | rs/v-m-io-db/src/lib.rs:388-398 | entry and chunk rows go together and no others; the files removed are those these rows named, all that can be removed unless the process died |
| Store.VmIoDb.PrunePass | rs/v-m-io-db/src/lib.rs:102-116 | one batch: at most 256 entries go, a batch that is not full leaves nothing expired, and the books stay balanced even if the process dies among the file removals |
| Store.VmIoDb.PruneBacklog | rs/v-m-io-db/src/lib.rs:98-119 | each end has its cause (clock, transaction, death), so without faults it works through the backlog; a normal end leaves nothing with an expiry at or before the last clock reading; only entries with an expiry at or before a reading used went, with exactly their rows, and no files but those of these rows, all of them unless the process died; every pass but the last took 256 |
| SqlConnection.Sql.Upsert | rs/v-m-io-db/src/sql.rs:161-189 | applied, superseded, UNIQUE error or any other error, with the resulting table, each with its cause in the columns |
| SqlConnection.Sql.UpsertChunk | rs/v-m-io-db/src/sql.rs:196-242 | fails exactly without a parent entry or on an SQL fault, with the error for each; otherwise replaces the row and returns the previous blob id if it differs |
| SqlConnection.Sql.BlobIdExists | rs/v-m-io-db/src/sql.rs:245-261 | where rows name their own blobs, true if and only if the row of the blob's own chunk names it |
| SqlConnection.Sql.SelectBlobIds | rs/v-m-io-db/src/sql.rs:277-292 | collects the blob id of each selected row, one per row |
| SqlConnection.Sql.Rm | rs/v-m-io-db/src/sql.rs:267-308 | deletes the entry, cascades to its chunk rows and returns their blob ids |
| SqlConnection.Sql.PruneExpired | rs/v-m-io-db/src/sql.rs:316-352 | the ids returned are exactly those of the rows the delete cascaded to |
| SqlConnection.BatchIsEarliest | rs/v-m-io-db/src/sql/prune_expired.sql:3-11 | what had expired and is left out of a batch expires later than anything taken, or at the same time and then has the greater class or key by their bytes |
| SqlConnection.BatchHasNoRepeats | rs/v-m-io-db/src/sql/prune_expired_blob_ids.sql:4-14 | a batch lists each entry once, so its length counts the entries deleted |
| SqlConnection.Sql.List | rs/v-m-io-db/src/sql.rs:421-539 | rows of the class with their chunks counted, keys rising or falling by their UTF-8 bytes or times strictly rising or falling, up to the limit; for an honoured filter all fit it, and what fits and is left out stands behind all that is listed, the limit being reached |
| Entries.Upsert | rs/v-m-io-db/src/sql/upsert.sql:15-21 | keeps timestamps unique, never moves a key back in time, and unless it clashes leaves the key at least as new as the write |
| Entries.UpsertExact | rs/v-m-io-db/src/sql/upsert.sql:15-21 | the table changes if and only if the write applies; it is refused if and only if it is newer and its timestamp would break uniqueness; no other key is touched |
| Entries.ReplayIsNewest | rs/v-m-io-db/src/sql/upsert.sql:19-21 | replaying consistent writes in any order with any repetition never clashes and leaves each key's newest write |
| Entries.Convergence | rs/v-m-io-db/src/sql/upsert.sql:19-21 | any two orders of delivery of the same writes end in the same table |
| ChunkIdentity.EncodeFrame | rs/v-m-io-db/src/blob.rs:59-77 | appending field by field builds the frame |
| ChunkIdentity.FrameLayout | rs/v-m-io-db/src/blob.rs:59-77 | the frame byte by byte: eight-byte little-endian lengths before class and key, then index, hash and finality |
| ChunkIdentity.UnframeFrame | rs/v-m-io-db/src/blob.rs:52-77 | the frame has a left inverse, whatever follows it |
| ChunkIdentity.FramePrefixFree | rs/v-m-io-db/src/blob.rs:52-58 | no frame is a prefix of another identity's frame |
| BlobLayout.IdPathRoundTrip | rs/v-m-io-db/src/blob.rs:117-139 | a blob's file name parses back to its id and its parents are shard names |
| BlobLayout.IdPathInjective | rs/v-m-io-db/src/blob.rs:117-127 | distinct ids have distinct paths |
| BlobLayout.IdPathInDigits | rs/v-m-io-db/src/blob.rs:117-127 | the path of an id, digit by digit |
| BlobLayout.AcceptedPathIsCanonical | rs/v-m-io-db/src/lib.rs:215-223 | a parsed name is at its id's path exactly when it is lowercase and each parent repeats its digits |
| BlobLayout.HexDecodeCanonical | rs/v-m-io-db/src/blob.rs:130-139 | digits of either case decode, but only the lowercase spelling is an encoding |
| BlobLayout.KeyLiteral | rs/v-m-io-db/src/sql.rs:25-41 | the loop fills all 67 characters of the literal |
| BlobLayout.KeyLiteralDecodes | rs/v-m-io-db/src/sql.rs:18-41 | the digits of the literal decode to the secret |
| BlobLayout.KeyLiteralInDigits | rs/v-m-io-db/src/sql.rs:25-41 | the literal, character by character |
| Glob.GlobPrefixPattern | rs/v-m-io-db/src/sql.rs:43-62 | the loop escapes each wildcard as a one-character class and ends the pattern with a star |
| Glob.EscapeMatches | rs/v-m-io-db/src/sql.rs:43-62 | an escaped literal followed by any pattern matches a string if and only if the literal is its prefix and the pattern matches the rest |
| Glob.PatternMeaning | rs/v-m-io-db/src/sql.rs:453-457 | what the pattern selects, for every prefix and key, NULs included |
| Glob.PatternExactIff | rs/v-m-io-db/src/sql.rs:453-457 | the pattern is the prefix test for every key if and only if the prefix has no NUL |
| Glob.StarRule | rs/v-m-io-db/src/sql.rs:43-46 | a star matches any stretch of text |
| Glob.CharacterRules | rs/v-m-io-db/src/sql.rs:43-46 | what a question mark, a class, a range, an inverted class and a plain character match |
| Glob.NulPrefix | rs/v-m-io-db/src/sql.rs:453-457 | a prefix with a NUL still selects every key it is a prefix of |
| Listing.BuildQuery | rs/v-m-io-db/src/sql.rs:427-511 | the clauses with their numbered parameters select exactly the filtered rows as the code filters them |
| Listing.QueryMeaning | rs/v-m-io-db/src/sql.rs:421-539 | running a built query gives take(limit, sort(rows that the code's filter selects)), for every filter, order and limit |
| Listing.RowsAgreeIff | rs/v-m-io-db/src/sql.rs:451-493 | the rows selected are those asked for if and only if no key of the class agrees with a prefix only before its NUL, and an open start meets no negative timestamp; a prefix never selects too little, a range never too much |
| Listing.AnswerExactIff | rs/v-m-io-db/src/sql.rs:421-539 | without a limit the answer is the listing asked for if and only if the filter is honoured in that sense |
| Listing.AnswerIsListed | rs/v-m-io-db/src/sql.rs:421-539 | an honoured filter gives the listing asked for, with any limit |
| Listing.DescendingIsReverse | rs/v-m-io-db/src/sql.rs:495-508 | the query's unlimited answer in descending order is its ascending answer reversed |
| Listing.AnswerUnique | rs/v-m-io-db/src/sql/schema.sql:4-9 | the schema's uniqueness leaves one possible answer |
| Listing.AnswerInOrder | rs/v-m-io-db/src/sql.rs:495-511 | the answer stands in the byte order of the keys or in time order, holds no more than the limit, and leaves out only what stands behind it |
| Listing.PagingComplete | rs/v-m-io-db/src/sql/schema.sql:4-6 | asking the query page by page from the last timestamp seen, with any limit of at least one, concatenates to its full time-ordered answer |
| Listing.PagingListsClassIff | rs/v-m-io-db/src/sql/schema.sql:4-6 | from an unbounded start the pages add up to the class if and only if no timestamp in it is negative |
| Listing.PagingMissesNothing | rs/v-m-io-db/src/sql/schema.sql:4-6 | with the table changing between pages, an entry that stands throughout is listed at least once |
| Listing.WritesLetStand | rs/v-m-io-db/src/sql/upsert.sql:15-21 | newest-wins writes and the removal of other entries let an entry stand |
| Cleanup.FileSystem.CleanupDir | rs/v-m-io-db/src/lib.rs:172-235 | under any faults, a listing that breaks off included, only garbage and stale shard directories that are empty go; a path with a directory that is not named by four hex digits among its first three components stays as it was, with all below it; without faults exactly what is specified to stay stays; nothing outside the directory changes |
| Cleanup.FileSystem.CleanupShard | rs/v-m-io-db/src/lib.rs:192-206 | a shard directory goes when it was stale before the descent and the descent left it empty |
| Cleanup.FileSystem.CleanupBlob | rs/v-m-io-db/src/lib.rs:207-227 | a file goes when it is stale, sits at the path of the id it names and no row references it |
| Cleanup.FileSystem.CleanupPass | rs/v-m-io-db/src/lib.rs:153-167 | one pass from the root with the cutoff 300 seconds back is sound, leaves whatever does not belong to the layout as it was, and without faults takes every stale unreferenced blob at its path and every stale empty shard directory |
| Cleanup.PassCleans | rs/v-m-io-db/src/lib.rs:168-235 | from a quiescent state one pass leaves the referenced blobs and no empty shard directory |
| Cleanup.StraysUntouched | rs/v-m-io-db/src/lib.rs:192-206 | what is not named like a shard directory, or lies below such a thing, is not touched |
| Cleanup.GarbageIsCollectable | rs/v-m-io-db/src/lib.rs:207-227 | a stale file at the path its id spells, with no row, is what a faultless pass takes |
| Reclaim.SameGarbage | rs/v-m-io-db/src/lib.rs:207-227 | for a file of the database's disk, the walk keeps its path if and only if the database does not count it as garbage |
| Reclaim.WalkCollects | rs/v-m-io-db/src/lib.rs:153-235 | under a naming that keeps the ids in use apart, a faultless walk leaves in the tree what `CollectGarbage` leaves on the disk |
| Counter.StepKeepsInv | rs/v-m-io-back/src/lib.rs:118-130 | every atomic step keeps the log ordered and the counter at its maximum, and the counter never decreases |
| Counter.RunKeepsInv | rs/v-m-io-back/src/lib.rs:118-130 | the same over every interleaving of any number of threads |
| Counter.TimestampsIncrease | rs/v-m-io-back/src/lib.rs:118-130 | timestamps handed out are distinct, increasing in exchange order, at least their caller's clock and above every explicit timestamp applied before; each is its clock reading or one more than an earlier value or the start |
| Counter.DoneMeansIssued | rs/v-m-io-back/src/lib.rs:118-130 | a thread leaves the loop only with a timestamp of its own, issued for the clock reading it came with |
| Counter.FailureMeansProgress | rs/v-m-io-back/src/lib.rs:118-130 | a failed exchange means another thread raised the counter in between |
| Counter.AtomicCounter.NextMicros | rs/v-m-io-back/src/lib.rs:118-130 | the clock reading if the counter and what others raised it to meanwhile are below it, otherwise one more than the greatest of these; or, if and only if that has no successor, overflow |
| Register.Node.UpsertAt | rs/v-m-io-back/src/lib.rs:259-306 | explicit timestamps: byte limits with their errors, the counter raised to the timestamp, the row stored as given, absorbed, or refused with the database's own error |
| Register.Node.UpsertNow | rs/v-m-io-back/src/lib.rs:259-339 | byte limits with their errors, then the retry loop; when nobody else writes or removes and nothing else fails, an error means that 64 distinct other entries hold the tried timestamps |
| Register.Node.Attempts | rs/v-m-io-back/src/lib.rs:308-339 | with other threads writing, removing and raising the counter in between: strictly increasing timestamps, each its clock reading or one more than the greatest the counter had come to; success leaves the key at least as new as the one tried; failure means each of the 64 was held by another entry when tried, or its transaction failed, and the error is that of the last |
| Register.Node.Attempt | rs/v-m-io-back/src/lib.rs:312-333 | one round: a fresh timestamp, and the write applied or superseded, or refused with the table untouched |
| Register.RefusedHasHolders | rs/v-m-io-back/src/lib.rs:306-333 | with nothing else going on, n refusals mean n distinct entries in the way |
| Register.Pigeonhole | rs/v-m-io-back/src/lib.rs:308-339 | timestamps that are all taken are held by as many distinct other entries |
| Register.Node.ReadAll | rs/v-m-io-back/src/lib.rs:389-418 | every config entry's fields once, keys rising by their UTF-8 bytes; or an error, which means that a config value is not well-formed UTF-8 |
| Register.UpsertKeepsWellWritten | rs/v-m-io-back/src/lib.rs:259-282 | accepted writes keep every config row readable and within limits |
| Register.ReadOutWrites | rs/v-m-io-back/src/lib.rs:383-418 | each item read out is one every node accepts, and writing it back gives the row |
| Sync.PullIsJoin | rs/v-m-io-back/src/lib.rs:383-418 | replaying a readable peer's `read_all`, when its config rows do not clash with the node's rows, is refused nowhere and leaves each key's newest row of either node |
| Sync.PullIdempotent | rs/v-m-io-back/src/lib.rs:283-306 | pulling from an equal node changes nothing |
| Sync.PullCommutes | rs/v-m-io-back/src/lib.rs:283-306 | two nodes pulling from each other hold the same config |
| Sync.PullAssociates | rs/v-m-io-back/src/lib.rs:283-306 | the order in which three nodes join does not matter |
| Sync.ExchangeEqualises | rs/v-m-io-back/src/lib.rs:283-306 | pulling in both directions, one after the other, leaves equal config |
| Sync.NoResurrection | rs/v-m-io-cli/src/lib.rs:110-130 | a newer tombstone survives an older value of its key, whichever way it is pulled |
| Sync.PullKeepsPulling | rs/v-m-io-back/src/lib.rs:283-306 | a node that pulled can pull from a third |
| Sync.PullKeepsPullable | rs/v-m-io-back/src/lib.rs:283-306 | a node that pulled can be pulled from |
| Pool.TakeConserves | rs/v-m-io-db/src/sql.rs:581-587 | taking from the queue keeps every connection in exactly one place |
| Pool.ReturnConserves | rs/v-m-io-db/src/sql.rs:603-609 | so does dropping a guard |
| Pool.WaitsOnlyWhenAllOut | rs/v-m-io-db/src/sql.rs:581-587 | queued and held connections add up; a `get` waits only while all are out |
| Pool.RingPool.Get | rs/v-m-io-db/src/sql.rs:581-587 | hands out the head of the queue in a guard that has its item, after waiting for a drop if the queue is empty |
| Pool.RingPool.Drop | rs/v-m-io-db/src/sql.rs:603-609 | the connection goes back to the end of the queue |
| Utf8.DecodeEncode | rs/v-m-io-back/src/lib.rs:400-406 | strict UTF-8 decoding undoes encoding |
| Utf8.EncodedForm | rs/v-m-io-db/src/lib.rs:280-291 | how many bytes each scalar value takes, which is what the limits count, and how its bits are spread over them |
| Utf8.DecodesIffWellFormed | rs/v-m-io-back/src/lib.rs:400-406 | strict decoding accepts exactly the well-formed byte sequences of table 3-7 of the Unicode standard |

## Left out

- Cryptographic internals (HKDF, SHA-256, AEGIS, the page cipher), key handling and zeroizing: library calls, replaced by the symbolic model above. `derive` is therefore covered only through `frame`.
- SQLite itself: WAL, busy timeouts, power loss. In-place encryption of the caller's buffer is modelled on values.
- Store.VmIoDb.WriteBlob: that the shard directory is there, or vanishes between its creation and the write, is a parameter; directories themselves appear only in `Cleanup`.
- Store.VmIoDb.GetChunk: reads row and file in one step; a read that other calls overlap is `History.OverlappingRead`.
- Register.Node.UpsertNow: ends with `CounterOverflow` where the source's addition overflows; whether that panics or wraps depends on how it is built, and nothing is said of what follows.
- Sync.PullIsJoin: for tables of at most `i64::MAX` rows, the limit `read_all` passes; the same goes for the laws built on it. The exchange between nodes over the network is not modelled, only its effect on the tables.
- Cleanup.FileSystem.CleanupPass: other calls do not touch the directory tree during a walk; cleanup among other calls is `Grace.DisciplinedRunSafe`, and `Reclaim.WalkCollects` ties the walk to the tables. Links are treated as things the walk cannot look at.
- Pool.RingPool.Get: dropping the pool while guards are out is not modelled.
- Address announcement (`announce_addrs`), authorization, HTTP, the command line, `bincode`, configuration files and signals: plumbing around the engine.
- The interface described in `design.md` that the code does not implement; only its reliability requirements are used.
