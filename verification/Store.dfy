/**
 The database object of lib.rs: an SQL connection and a directory of blob files.
 Every call takes the faults it meets as parameters: where the process stops,
 whether a write or a transaction fails, which files cannot be removed. Every
 call leaves a trace of the step machine, so what is proved of its serial runs
 holds of these methods.
 */
module Store {
  import opened Wrappers
  import opened Bytes
  import opened Entries
  import opened Blobs
  import opened Protocol
  import opened Safety
  import opened Grace
  import opened Serial
  import opened History
  import opened SqlConnection
  import Utf8

  const PRUNE_BATCH: i64 := 256

  datatype DbError =
    | ClassTooLong
    | KeyTooLong
    | MetadataTooLong
    | BadChunkSize
    | WriteFailed
    | SqlFailed(error: SqlError)

  /** Where the process dies during an upload, if it does. */
  datatype StopPoint = Never | BeforeStat | BeforeWrite | BeforeCommit | BeforeRemove

  /** What one round of creating the shard directory and writing the file yields. */
  datatype WriteTry = Done | MkdirFails | DirVanished | Short(n: nat) | Dies(n: nat)

  /** How the write ends: `Dead` if the process died in it. */
  datatype WriteEnd = Complete | Untouched | Part(n: nat) | Dead(n: nat)

  /** `tries` are the rounds of writing the file, `statFails` an error from stat although the file may be there. */
  datatype PutFaults = PutFaults(stop: StopPoint, statFails: bool, tries: nat -> WriteTry, sqlFails: bool, removeFails: bool)

  datatype PutEnd = Committed | Failed(error: DbError) | Crashed(committed: bool)

  datatype DrainEnd = Drained(lastClock: i64) | ClockFailed | DrainFailed(error: SqlError) | Died

  function FieldError(w: Write): Option<DbError> {
    if |Utf8.Encode(w.key.class_)| > 256 then Some(ClassTooLong)
    else if |Utf8.Encode(w.key.key)| > 1024 then Some(KeyTooLong)
    else if w.entry.metadata.Some? && |w.entry.metadata.value| > 4096 then Some(MetadataTooLong)
    else None
  }

  /** A second round is granted only if the shard directory was removed under the first. */
  function WriteEndOf(tries: nat -> WriteTry): WriteEnd {
    match if tries(0).DirVanished? then tries(1) else tries(0)
    case Done => Complete
    case Short(n) => Part(n)
    case Dies(n) => Dead(n)
    case _ => Untouched
  }

  /** Whether an upload writes its file: stat did not find it at full length. */
  predicate NeedsWrite(disk: Disk, put: Call, faults: PutFaults)
    requires put.Put?
  {
    faults.statFails || StatStage(disk, PutId(put), |put.data|).Writing?
  }

  /** The disk once the upload's file is there. */
  function Written(disk: Disk, put: Call, faults: PutFaults, now: nat): Disk
    requires put.Put?
  {
    if NeedsWrite(disk, put, faults) then disk[PutId(put) := File(Encrypt(PutId(put), put.data), now)] else disk
  }

  function Cut(cells: seq<Cell>, n: nat): seq<Cell> {
    if n <= |cells| then cells[..n] else cells
  }

  /** What a round of writing leaves, by how it ended. */
  function AfterWrite(disk: Disk, id: BlobId, cells: seq<Cell>, now: nat, end: WriteEnd): Disk {
    match end
    case Complete => disk[id := File(cells, now)]
    case Part(n) => disk[id := File(Cut(cells, n), now)]
    case Dead(n) => disk[id := File(Cut(cells, n), now)]
    case Untouched => disk
  }

  /** The blob that committing another blob for a chunk leaves without a row. */
  function Replaced(chunks: Chunks, ck: ChunkKey, id: BlobId): Option<BlobId> {
    if ck in chunks && chunks[ck].blobId != id then Some(chunks[ck].blobId) else None
  }

  function WithoutBlob(disk: Disk, id: Option<BlobId>): Disk {
    if id.Some? then disk - {id.value} else disk
  }

  /** How the transaction of an upload ends: a row needs its entry. */
  function SqlEnd(entries: Table, ck: ChunkKey, faults: PutFaults): PutEnd {
    if ck.entry !in entries then Failed(SqlFailed(ForeignKey))
    else if faults.sqlFails then Failed(SqlFailed(SqlFailure))
    else Committed
  }

  /** How the second half of an upload ends; only where a file is to be removed can the process die after the transaction. */
  function CommitEnd(entries: Table, chunks: Chunks, put: Call, wrote: bool, faults: PutFaults): PutEnd
    requires put.Put?
  {
    var end := SqlEnd(entries, put.ck, faults);
    if faults.stop == BeforeCommit then Crashed(false)
    else if faults.stop != BeforeRemove then end
    else if end == Committed then if Replaced(chunks, put.ck, PutId(put)).Some? then Crashed(true) else end
    else if wrote then Crashed(false) else end
  }

  lemma StopsBeforeCommit(entries: Table, chunks: Chunks, put: Call, wrote: bool, faults: PutFaults)
    requires put.Put? && faults.stop == BeforeCommit
    ensures CommitEnd(entries, chunks, put, wrote, faults) == Crashed(false)
  {
  }

  /** What the second half of an upload leaves. */
  function CommitLeaves(s: State, put: Call, wrote: bool, faults: PutFaults, r: PutEnd): State
    requires put.Put?
  {
    s.(chunks := if r == Committed || r == Crashed(true)
                 then s.chunks[put.ck := RowFor(put.ck, put.data, put.isFinal)] else s.chunks,
       disk := if r == Committed
               then WithoutBlob(s.disk, if faults.removeFails then None else Replaced(s.chunks, put.ck, PutId(put)))
               else Unlinked(s.disk, PutId(put), r.Failed? && wrote && !faults.removeFails))
  }

  lemma EndsFailed(s: State, s1: State, put: Call, wrote: bool, faults: PutFaults, e: SqlError, r: PutEnd)
    requires put.Put? && faults.stop != BeforeCommit && (faults.sqlFails || put.ck.entry !in s.entries)
    requires e == if put.ck.entry !in s.entries then ForeignKey else SqlFailure
    requires r == if wrote && faults.stop == BeforeRemove then Crashed(false) else Failed(SqlFailed(e))
    requires s1 == s.(disk := Unlinked(s.disk, PutId(put), r.Failed? && wrote && !faults.removeFails))
    ensures r == CommitEnd(s.entries, s.chunks, put, wrote, faults) && s1 == CommitLeaves(s, put, wrote, faults, r)
  {
  }

  lemma EndsCommitted(s: State, s1: State, put: Call, wrote: bool, faults: PutFaults, prev: Option<BlobId>, r: PutEnd)
    requires put.Put? && faults.stop != BeforeCommit && !faults.sqlFails && put.ck.entry in s.entries
    requires prev == Replaced(s.chunks, put.ck, PutId(put))
    requires r == if prev.Some? && faults.stop == BeforeRemove then Crashed(true) else Committed
    requires s1 == WithRow(s, put).(disk := WithoutBlob(s.disk, if r != Committed || faults.removeFails then None else prev))
    ensures r == CommitEnd(s.entries, s.chunks, put, wrote, faults) && s1 == CommitLeaves(s, put, wrote, faults, r)
  {
  }

  predicate PastGrace(s: State, id: BlobId) {
    id in s.disk && s.disk[id].mtime + CLEANUP_GRACE <= s.now
  }

  /** A blob file that cleanup may take: stale, and without a row. */
  ghost predicate GarbageBlob(s: State, id: BlobId) {
    PastGrace(s, id) && !Referenced(s, id)
  }

  /** The disk without the garbage among some blobs. */
  ghost function Collected(s: State, ids: seq<BlobId>, removable: BlobId -> bool): Disk {
    map id | id in s.disk && !(id in ids && removable(id) && GarbageBlob(s, id)) :: s.disk[id]
  }

  /** What cleanup did to the disk: nothing but remove, of some files, those last written 300 seconds ago or earlier that no row names. */
  ghost predicate CollectedAsTold(before: Disk, after: Disk, chunks: Chunks, clock: nat, ids: seq<BlobId>,
                                  removable: BlobId -> bool) {
    && (forall id :: id in after ==> id in before && after[id] == before[id])
    && forall id :: id in before ==>
         (id !in after <==>
          && id in ids && removable(id) && before[id].mtime + 300_000_000 <= clock
          && !exists ck :: ck in chunks && chunks[ck].blobId == id)
  }

  lemma CollectionTold(s: State, ids: seq<BlobId>, removable: BlobId -> bool)
    ensures CollectedAsTold(s.disk, Collected(s, ids, removable), s.chunks, s.now, ids, removable)
  {
  }

  lemma CollectNothing(s: State, removable: BlobId -> bool)
    ensures Collected(s, [], removable) == s.disk
  {
  }

  lemma CollectOne(s: State, ids: seq<BlobId>, id: BlobId, removable: BlobId -> bool)
    ensures var m := s.(disk := Collected(s, ids, removable));
            Collected(s, ids + [id], removable) ==
            if removable(id) && GarbageBlob(m, id) then m.disk - {id} else m.disk
  {
    SameRows(s, s.(disk := Collected(s, ids, removable)));
  }

  /** How an upload ends. */
  function EndOf(entries: Table, chunks: Chunks, disk: Disk, put: Call, faults: PutFaults): PutEnd
    requires put.Put?
  {
    if !ValidSize(|put.data|, put.isFinal) then Failed(BadChunkSize)
    else if faults.stop == BeforeStat || faults.stop == BeforeWrite then Crashed(false)
    else if NeedsWrite(disk, put, faults) && WriteEndOf(faults.tries).Dead? then Crashed(false)
    else if NeedsWrite(disk, put, faults) && !WriteEndOf(faults.tries).Complete? then Failed(WriteFailed)
    else CommitEnd(entries, chunks, put, NeedsWrite(disk, put, faults), faults)
  }

  /**
   The disk an upload leaves, by how it ended: a commit takes away the replaced
   blob, an SQL error takes back the file if this call wrote it, a failed
   write leaves its part, and nothing else changes.
   */
  function DiskAfter(disk: Disk, chunks: Chunks, now: nat, put: Call, faults: PutFaults, r: PutEnd): Disk
    requires put.Put?
  {
    match r
    case Committed =>
      WithoutBlob(Written(disk, put, faults, now),
                  if faults.removeFails then None else Replaced(chunks, put.ck, PutId(put)))
    case Failed(BadChunkSize) => disk
    case Failed(WriteFailed) =>
      AfterWrite(disk, PutId(put), Encrypt(PutId(put), put.data), now, WriteEndOf(faults.tries))
    case Failed(_) =>
      if !NeedsWrite(disk, put, faults) then disk
      else if faults.removeFails then Written(disk, put, faults, now)
      else disk - {PutId(put)}
    case Crashed(_) =>
      if faults.stop == BeforeStat || faults.stop == BeforeWrite || !NeedsWrite(disk, put, faults) then disk
      else AfterWrite(disk, PutId(put), Encrypt(PutId(put), put.data), now, WriteEndOf(faults.tries))
  }

  /** The database after an upload. */
  function UploadLeaves(s: State, put: Call, faults: PutFaults, r: PutEnd): State
    requires put.Put?
  {
    s.(chunks := if r == Committed || r == Crashed(true)
                 then s.chunks[put.ck := RowFor(put.ck, put.data, put.isFinal)] else s.chunks,
       disk := DiskAfter(s.disk, s.chunks, s.now, put, faults, r))
  }

  /** The two halves of an upload together. */
  lemma StoredAndCommitted(s: State, m: State, put: Call, wrote: bool, faults: PutFaults, r: PutEnd)
    requires put.Put? && ValidSize(|put.data|, put.isFinal)
    requires faults.stop != BeforeStat && faults.stop != BeforeWrite
    requires wrote == NeedsWrite(s.disk, put, faults) && (wrote ==> WriteEndOf(faults.tries).Complete?)
    requires m == s.(disk := Written(s.disk, put, faults, s.now))
    requires r == CommitEnd(s.entries, s.chunks, put, wrote, faults)
    ensures r == EndOf(s.entries, s.chunks, s.disk, put, faults) && r != Failed(BadChunkSize)
    ensures CommitLeaves(m, put, wrote, faults, r) == UploadLeaves(s, put, faults, r)
  {
    hide ValidSize, NeedsWrite, Written, Replaced, Encrypt, RowFor, WithoutBlob;
    TakenBack(s.disk, put, faults, s.now);
    AllWritten(s.disk, put, faults, s.now);
  }

  /** How far the upload has come makes no difference to what it commits. */
  lemma StageAside(s: State, m: State, put: Call, wrote: bool, faults: PutFaults, r: PutEnd)
    requires put.Put?
    ensures var ready := put.(stage := Ready(wrote));
            && CommitEnd(s.entries, s.chunks, ready, wrote, faults) == CommitEnd(s.entries, s.chunks, put, wrote, faults)
            && CommitLeaves(m, ready, wrote, faults, r) == CommitLeaves(m, put, wrote, faults, r)
  {
  }

  /** An upload that did not get as far as its transaction. */
  lemma NotStored(s: State, s1: State, put: Call, faults: PutFaults, died: bool, r: PutEnd)
    requires put.Put? && ValidSize(|put.data|, put.isFinal) && faults.stop != BeforeStat
    requires died == (faults.stop == BeforeWrite || WriteEndOf(faults.tries).Dead?)
    requires r == if died then Crashed(false) else Failed(WriteFailed)
    requires s1 == s.(disk := s1.disk)
    requires if faults.stop == BeforeWrite then s1.disk == s.disk
             else
               && NeedsWrite(s.disk, put, faults) && !WriteEndOf(faults.tries).Complete?
               && s1.disk == AfterWrite(s.disk, PutId(put), Encrypt(PutId(put), put.data), s.now, WriteEndOf(faults.tries))
    ensures r == EndOf(s.entries, s.chunks, s.disk, put, faults) && s1 == UploadLeaves(s, put, faults, r)
  {
    hide ValidSize, NeedsWrite, Replaced, Encrypt, RowFor, WithoutBlob, AfterWrite;
  }

  lemma TracedKeepsInv(s0: State, trace: seq<Step>, s: State)
    requires Inv(s0) && Traced(s0, trace, s)
    ensures Inv(s)
  {
    SerialRunSafe(s0, trace);
  }

  /** Taking back the file this call wrote leaves the disk without it. */
  lemma TakenBack(disk: Disk, put: Call, faults: PutFaults, now: nat)
    requires put.Put?
    ensures NeedsWrite(disk, put, faults) ==>
              Written(disk, put, faults, now) - {PutId(put)} == disk - {PutId(put)}
    ensures !NeedsWrite(disk, put, faults) ==> Written(disk, put, faults, now) == disk
  {
  }

  lemma AllWritten(disk: Disk, put: Call, faults: PutFaults, now: nat)
    requires put.Put? && (NeedsWrite(disk, put, faults) ==> WriteEndOf(faults.tries).Complete?)
    ensures Written(disk, put, faults, now) ==
            if NeedsWrite(disk, put, faults)
            then AfterWrite(disk, PutId(put), Encrypt(PutId(put), put.data), now, WriteEndOf(faults.tries)) else disk
  {
  }

  /** An upload rewrote a referenced blob because stat failed, and then did not keep it whole. */
  ghost predicate Damaged(s: State, put: Call, faults: PutFaults, r: PutEnd)
    requires put.Put?
  {
    && faults.statFails && Referenced(s, PutId(put))
    && match r {
         case Failed(WriteFailed) => CutShort(WriteEndOf(faults.tries), |put.data|)
         case Failed(SqlFailed(_)) => !faults.removeFails
         case Crashed(_) =>
           faults.stop != BeforeStat && faults.stop != BeforeWrite && CutShort(WriteEndOf(faults.tries), |put.data|)
         case _ => false
       }
  }

  predicate CutShort(end: WriteEnd, size: nat) {
    match end
    case Part(n) => n < size
    case Dead(n) => n < size
    case _ => false
  }

  /** A rewrite of a referenced blob is harmless if and only if the blob is whole afterwards. */
  lemma RewriteSoundIff(s: State, s1: State, id: BlobId)
    requires Inv(s) && s.calls == map[] && Referenced(s, id)
    requires s1 == s.(disk := s1.disk)
    requires forall other :: other != id ==> (other in s1.disk <==> other in s.disk)
    requires forall other :: other != id && other in s.disk ==> s1.disk[other] == s.disk[other]
    requires id in s1.disk ==> s1.disk[id].cells <= FullBlob(id)
    ensures Inv(s1) <==> FullOnDisk(s1, id)
  {
    SameRows(s, s1);
    if FullOnDisk(s1, id) {
      forall ck | ck in s1.chunks
        ensures FullOnDisk(s1, s1.chunks[ck].blobId)
      {
        assert FullOnDisk(s, s.chunks[ck].blobId);
      }
    } else {
      var ck :| ck in s.chunks && s.chunks[ck].blobId == id;
      assert !FullOnDisk(s1, s1.chunks[ck].blobId);
    }
  }

  /** The same, for everything an upload of a referenced blob may leave. */
  lemma RewriteEnds(s: State, s1: State, put: Call, faults: PutFaults, r: PutEnd)
    requires Inv(s) && s.calls == map[] && put.Put? && put.stage.Begun? && faults.statFails && Referenced(s, PutId(put))
    requires r != Failed(BadChunkSize) && r == EndOf(s.entries, s.chunks, s.disk, put, faults)
    requires s1 == UploadLeaves(s, put, faults, r)
    ensures Inv(s1) <==> !Damaged(s, put, faults, r)
  {
    var id := PutId(put);
    ReferencedByOwnRow(s, id);
    var row := s.chunks[put.ck];
    assert RowOk(s, put.ck, row) && row == RowFor(put.ck, put.data, put.isFinal);
    assert FullOnDisk(s, id) && FullBlob(id) == Encrypt(id, put.data);
    assert s1.chunks == s.chunks;
    RewriteSoundIff(s, s1, id);
  }

  /** An upload keeps the invariant if and only if it did no damage. */
  lemma UploadSoundIff(s: State, s1: State, put: Call, faults: PutFaults, honest: bool, trace: seq<Step>, r: PutEnd)
    requires Inv(s) && s.calls == map[] && put.Put? && put.stage.Begun?
    requires honest == (!faults.statFails || !Referenced(s, PutId(put))) && TracedIf(honest, s, trace, s1)
    requires r != Failed(BadChunkSize) && r == EndOf(s.entries, s.chunks, s.disk, put, faults)
    requires s1 == UploadLeaves(s, put, faults, r)
    ensures Inv(s1) <==> !Damaged(s, put, faults, r)
  {
    if honest {
      SerialRunSafe(s, trace);
    } else {
      RewriteEnds(s, s1, put, faults, r);
    }
  }

  lemma WholeWrite(s: State, put: Call, now: nat)
    requires s.calls == map[0 := put] && put.Put? && put.stage.Writing? && s.now == now
    ensures Next(s, WriteAll(0)) ==
            Some(Alone(s.(disk := s.disk[PutId(put) := File(Encrypt(PutId(put), put.data), now)]),
                       put.(stage := Ready(true))))
  {
    WriteAllStep(s, put);
    assert Encrypt(PutId(put), put.data)[..|put.data|] == Encrypt(PutId(put), put.data);
  }

  lemma PartWrite(s: State, put: Call, n: nat)
    requires s.calls == map[0 := put] && put.Put? && put.stage.Writing?
    ensures Next(s, WriteSome(0, if n <= |put.data| then n else |put.data|)) ==
            Some(s.(disk := s.disk[PutId(put) := File(Cut(Encrypt(PutId(put), put.data), n), s.now)]))
  {
    var cells := Encrypt(PutId(put), put.data);
    assert cells[..|cells|] == cells;
    WriteSomeStep(s, put, if n <= |put.data| then n else |put.data|);
  }

  /** The abstract map follows the chunk rows. */
  lemma SameView(s0: State, s1: State, ck: ChunkKey, data: seq<Byte>, isFinal: bool)
    ensures s1.chunks == s0.chunks ==> ViewOf(s1) == ViewOf(s0)
    ensures s1.chunks == s0.chunks[ck := RowFor(ck, data, isFinal)] ==>
              ViewOf(s1) == ViewOf(s0)[ck := Content(data, isFinal)]
  {
  }

  /**
   How an upload ends, in terms of its arguments, the tables, the disk and the
   faults alone. A second round of writing is granted only if the shard directory
   was removed under the first.
   */
  ghost predicate EndsAsTold(s: State, ck: ChunkKey, data: seq<Byte>, isFinal: bool, faults: PutFaults, r: PutEnd) {
    var id := BlobId(ck, Sha256(data), isFinal);
    var fits := if isFinal then |data| <= 5_242_880 else |data| == 5_242_880;
    var there := !faults.statFails && id in s.disk && |s.disk[id].cells| == |data|;
    var first, second := faults.tries(0), faults.tries(1);
    var stored := there || first.Done? || (first.DirVanished? && second.Done?);
    var diesWriting := !there && (first.Dies? || (first.DirVanished? && second.Dies?));
    var refused := ck.entry !in s.entries || faults.sqlFails;
    var overwrites := ck in s.chunks && s.chunks[ck].blobId != id;
    var reached := faults.stop != BeforeStat && faults.stop != BeforeWrite;
    && (r == Failed(BadChunkSize) <==> !fits)
    && (r == Failed(WriteFailed) <==> fits && reached && !stored && !diesWriting)
    && (r == Committed <==>
        fits && stored && !refused && (faults.stop == Never || (faults.stop == BeforeRemove && !overwrites)))
    && (r == Crashed(true) <==> fits && stored && !refused && overwrites && faults.stop == BeforeRemove)
    && (r == Crashed(false) <==>
        fits && (!reached || diesWriting
                 || (stored && (faults.stop == BeforeCommit || (faults.stop == BeforeRemove && refused && !there)))))
    && (r.Failed? && r.error.SqlFailed? ==> r.error.error == if ck.entry !in s.entries then ForeignKey else SqlFailure)
  }

  ghost predicate SameFile(before: Disk, after: Disk, id: BlobId) {
    (id in after <==> id in before) && (id in before ==> after[id] == before[id])
  }

  /** The file holds the first `n` bytes of the data, encrypted under its own id. */
  ghost predicate HoldsFirst(disk: Disk, id: BlobId, data: seq<Byte>, n: nat, now: nat) {
    var size := if n <= |data| then n else |data|;
    && id in disk && disk[id].mtime == now && |disk[id].cells| == size
    && forall i :: 0 <= i < size ==> disk[id].cells[i] == Cell(id, i, data[i])
  }

  /**
   What an upload leaves: the row if and only if it was committed; the replaced
   blob's file removed after a commit and only then; its own file as the last
   round of writing left it, unless it was there already, and taken back if
   the database refused the row; everything else untouched.
   */
  ghost predicate LeavesAsTold(s: State, s1: State, ck: ChunkKey, data: seq<Byte>, isFinal: bool,
                               faults: PutFaults, r: PutEnd) {
    var id := BlobId(ck, Sha256(data), isFinal);
    && s1.entries == s.entries && s1.now == s.now
    && (if r == Committed || r == Crashed(true)
        then s1.chunks == s.chunks[ck := ChunkRow(id, Sha256(data), Tag(id, data), |data|, isFinal)]
        else s1.chunks == s.chunks)
    && (forall other :: other != id && !(ck in s.chunks && s.chunks[ck].blobId == other) ==>
          SameFile(s.disk, s1.disk, other))
    && (ck in s.chunks && s.chunks[ck].blobId != id ==>
          if r == Committed && !faults.removeFails then s.chunks[ck].blobId !in s1.disk
          else SameFile(s.disk, s1.disk, s.chunks[ck].blobId))
    && OwnFileAsTold(s, s1, id, data, faults, r)
  }

  ghost predicate OwnFileAsTold(s: State, s1: State, id: BlobId, data: seq<Byte>, faults: PutFaults, r: PutEnd) {
    var there := !faults.statFails && id in s.disk && |s.disk[id].cells| == |data|;
    if there || r == Failed(BadChunkSize) || faults.stop == BeforeStat || faults.stop == BeforeWrite then
      SameFile(s.disk, s1.disk, id)
    else
      match if faults.tries(0).DirVanished? then faults.tries(1) else faults.tries(0)
      case Done =>
        if r.Failed? && !faults.removeFails then id !in s1.disk else HoldsFirst(s1.disk, id, data, |data|, s.now)
      case Short(n) => HoldsFirst(s1.disk, id, data, n, s.now)
      case Dies(n) => HoldsFirst(s1.disk, id, data, n, s.now)
      case _ => SameFile(s.disk, s1.disk, id)
  }

  lemma UploadEndsAsTold(s: State, ck: ChunkKey, data: seq<Byte>, isFinal: bool, faults: PutFaults)
    ensures EndsAsTold(s, ck, data, isFinal, faults, EndOf(s.entries, s.chunks, s.disk, Put(ck, data, isFinal, Begun), faults))
  {
  }

  lemma UploadLeavesAsTold(s: State, ck: ChunkKey, data: seq<Byte>, isFinal: bool, faults: PutFaults, r: PutEnd)
    requires r == EndOf(s.entries, s.chunks, s.disk, Put(ck, data, isFinal, Begun), faults)
    ensures LeavesAsTold(s, UploadLeaves(s, Put(ck, data, isFinal, Begun), faults, r), ck, data, isFinal, faults, r)
  {
    var s1 := UploadLeaves(s, Put(ck, data, isFinal, Begun), faults, r);
    var id := BlobId(ck, Sha256(data), isFinal);
    OtherFilesLeft(s, s1, ck, data, isFinal, faults, r);
    OwnFileLeft(s, s1, ck, data, isFinal, faults, r);
    hide EndOf, DiskAfter, OwnFileAsTold, SameFile;
  }

  lemma OtherFilesLeft(s: State, s1: State, ck: ChunkKey, data: seq<Byte>, isFinal: bool, faults: PutFaults, r: PutEnd)
    requires s1.disk == DiskAfter(s.disk, s.chunks, s.now, Put(ck, data, isFinal, Begun), faults, r)
    ensures var id := BlobId(ck, Sha256(data), isFinal);
            && (forall other :: other != id && !(ck in s.chunks && s.chunks[ck].blobId == other) ==>
                  SameFile(s.disk, s1.disk, other))
            && (ck in s.chunks && s.chunks[ck].blobId != id ==>
                  if r == Committed && !faults.removeFails then s.chunks[ck].blobId !in s1.disk
                  else SameFile(s.disk, s1.disk, s.chunks[ck].blobId))
  {
    hide Encrypt, NeedsWrite, WriteEndOf;
  }

  lemma OwnFileLeft(s: State, s1: State, ck: ChunkKey, data: seq<Byte>, isFinal: bool, faults: PutFaults, r: PutEnd)
    requires r == EndOf(s.entries, s.chunks, s.disk, Put(ck, data, isFinal, Begun), faults)
    requires s1.disk == DiskAfter(s.disk, s.chunks, s.now, Put(ck, data, isFinal, Begun), faults, r)
    ensures OwnFileAsTold(s, s1, BlobId(ck, Sha256(data), isFinal), data, faults, r)
  {
    var put := Put(ck, data, isFinal, Begun);
    var id := PutId(put);
    var end := WriteEndOf(faults.tries);
    if NeedsWrite(s.disk, put, faults) && r != Failed(BadChunkSize)
       && faults.stop != BeforeStat && faults.stop != BeforeWrite {
      WrittenPart(s.disk, id, data, s.now, end);
      if end.Complete? && r == Committed {
        assert AfterWrite(s.disk, id, Encrypt(id, data), s.now, end) == Written(s.disk, put, faults, s.now);
      }
      hide Encrypt, AfterWrite, HoldsFirst, Cut;
    }
  }

  lemma WrittenPart(disk: Disk, id: BlobId, data: seq<Byte>, now: nat, end: WriteEnd)
    ensures var after := AfterWrite(disk, id, Encrypt(id, data), now, end);
            match end
            case Complete => HoldsFirst(after, id, data, |data|, now)
            case Part(n) => HoldsFirst(after, id, data, n, now)
            case Dead(n) => HoldsFirst(after, id, data, n, now)
            case Untouched => after == disk
  {
  }

  lemma NothingUploaded(s: State, ck: ChunkKey, data: seq<Byte>, isFinal: bool, faults: PutFaults)
    requires !ValidSize(|data|, isFinal)
    ensures var put, r := Put(ck, data, isFinal, Begun), Failed(BadChunkSize);
            && EndOf(s.entries, s.chunks, s.disk, put, faults) == r
            && UploadLeaves(s, put, faults, r) == s && !Damaged(s, put, faults, r)
  {
  }

  lemma UploadShows(s: State, put: Call, faults: PutFaults, r: PutEnd)
    requires put.Put?
    ensures ViewOf(UploadLeaves(s, put, faults, r)) ==
            if r == Committed || r == Crashed(true)
            then ViewOf(s)[put.ck := Content(put.data, put.isFinal)] else ViewOf(s)
  {
    SameView(s, UploadLeaves(s, put, faults, r), put.ck, put.data, put.isFinal);
  }

  class VmIoDb {
    const sql: Sql
    var disk: Disk
    var now: nat

    ghost function S(): State
      reads this, sql
    {
      State(sql.entries, sql.chunks, disk, now, map[])
    }

    ghost predicate Valid()
      reads this, sql
    {
      sql.Valid() && Inv(S())
    }

    constructor ()
      ensures Valid() && fresh(sql)
      ensures S() == State(map[], map[], map[], 0, map[])
    {
      sql := new Sql();
      disk := map[];
      now := 0;
    }

    method Upsert(w: Write, fails: bool) returns (r: Result<bool, DbError>, ghost trace: seq<Step>)
      requires Valid()
      modifies sql
      ensures Valid()
      ensures Traced(old(S()), trace, S())
      ensures FieldError(w).Some? ==> r == Err(FieldError(w).value) && S() == old(S())
      ensures FieldError(w).None? ==>
                && S() == old(S()).(entries := if fails then old(sql.entries) else Entries.Upsert(old(sql.entries), w))
                && r == if fails then Err(SqlFailed(SqlFailure)) else
                        match UpsertOutcome(old(sql.entries), w) {
                          case Applied => Ok(true)
                          case Superseded => Ok(false)
                          case Clash => Err(SqlFailed(UniqueTimestamp))
                        }
      ensures r == Err(ClassTooLong) <==> |Utf8.Encode(w.key.class_)| > 256
      ensures r == Err(KeyTooLong) <==> |Utf8.Encode(w.key.class_)| <= 256 && |Utf8.Encode(w.key.key)| > 1024
      ensures r == Err(MetadataTooLong) <==>
              |Utf8.Encode(w.key.class_)| <= 256 && |Utf8.Encode(w.key.key)| <= 1024
              && w.entry.metadata.Some? && |w.entry.metadata.value| > 4096
      ensures r == Err(SqlFailed(SqlFailure)) ==> fails
      ensures r.Err? ==> S() == old(S())
      ensures r.Ok? || r == Err(SqlFailed(UniqueTimestamp)) ==>
                && NewestWins(old(sql.entries), sql.entries, w,
                              if r == Ok(true) then Applied else if r == Ok(false) then Superseded else Clash)
                && S() == old(S()).(entries := sql.entries)
    {
      ghost var s0 := S();
      trace := [];
      TraceNothing(s0);
      if |Utf8.Encode(w.key.class_)| > 256 {
        return Err(ClassTooLong), trace;
      }
      if |Utf8.Encode(w.key.key)| > 1024 {
        return Err(KeyTooLong), trace;
      }
      if w.entry.metadata.Some? && |w.entry.metadata.value| > 4096 {
        return Err(MetadataTooLong), trace;
      }
      var applied := sql.Upsert(w, fails);
      if !fails {
        TraceStep(s0, trace, s0, UpsertEntry(w), S());
        trace := trace + [UpsertEntry(w)];
        UpsertKeepsInv(s0, w);
      }
      match applied {
        case Ok(yes) => r := Ok(yes);
        case Err(e) => r := Err(SqlFailed(e));
      }
    }

    /** Creates the shard directory and writes the file, once more if the directory was removed in between. */
    method WriteBlob(id: BlobId, cells: seq<Cell>, tries: nat -> WriteTry) returns (end: WriteEnd)
      modifies this`disk
      ensures end == WriteEndOf(tries)
      ensures disk == AfterWrite(old(disk), id, cells, now, end)
      ensures end.Complete? <==> tries(0).Done? || (tries(0).DirVanished? && tries(1).Done?)
      ensures end.Complete? ==> disk == old(disk)[id := File(cells, now)]
      ensures tries(0).MkdirFails? || (tries(0).DirVanished? && (tries(1).MkdirFails? || tries(1).DirVanished?)) ==>
                end.Untouched? && disk == old(disk)
      ensures var last := if tries(0).DirVanished? then tries(1) else tries(0);
              last.Short? || last.Dies? ==>
                && end == (if last.Short? then Part(last.n) else Dead(last.n))
                && disk == old(disk)[id := File(if last.n <= |cells| then cells[..last.n] else cells, now)]
    {
      for i := 0 to 2
        invariant disk == old(disk)
        invariant forall j :: 0 <= j < i ==> tries(j).DirVanished?
      {
        match tries(i) {
          case MkdirFails => return Untouched;
          case DirVanished =>
          case Short(n) =>
            disk := disk[id := File(Cut(cells, n), now)];
            return Part(n);
          case Dies(n) =>
            disk := disk[id := File(Cut(cells, n), now)];
            return Dead(n);
          case Done =>
            disk := disk[id := File(cells, now)];
            return Complete;
        }
      }
      return Untouched;
    }

    /** The first half of an upload: stat the blob's path, and write the file unless it is there at full length. */
    method StoreBlob(put: Call, faults: PutFaults, ghost honest: bool, ghost s0: State, ghost trace0: seq<Step>)
      returns (stored: Option<bool>, died: bool, ghost trace: seq<Step>)
      requires put.Put? && put.stage.Begun?
      requires honest && faults.statFails ==> !Referenced(S(), PutId(put))
      requires TracedIf(honest, s0, trace0, Alone(S(), put))
      modifies this`disk
      ensures stored.Some? ==>
                && TracedIf(honest, s0, trace, Alone(S(), put.(stage := Ready(stored.value))))
                && (stored.value <==> NeedsWrite(old(disk), put, faults))
                && disk == Written(old(disk), put, faults, now)
                && faults.stop != BeforeWrite && (stored.value ==> WriteEndOf(faults.tries).Complete?)
      ensures stored.None? ==>
                && TracedIf(honest, s0, trace, S())
                && died == (faults.stop == BeforeWrite || WriteEndOf(faults.tries).Dead?)
                && if faults.stop == BeforeWrite then disk == old(disk)
                   else
                     && NeedsWrite(old(disk), put, faults) && !WriteEndOf(faults.tries).Complete?
                     && disk == AfterWrite(old(disk), PutId(put), Encrypt(PutId(put), put.data), now,
                                           WriteEndOf(faults.tries))
    {
      hide TracedIf, Next, Encrypt;
      var id := PutId(put);
      var cells := Encrypt(id, put.data);
      ghost var m := Alone(S(), put);
      ghost var seen := put.(stage := if faults.statFails then Writing else StatStage(disk, id, |put.data|));
      trace := trace0 + [if faults.statFails then StatFails(0) else Stat(0)];
      StatStep(m, put);
      StatFailsStep(m, put);
      TraceStepIf(honest, s0, trace0, m, if faults.statFails then StatFails(0) else Stat(0), Alone(S(), seen));
      if faults.stop == BeforeWrite {
        TraceStop(honest, s0, trace, Alone(S(), seen), seen);
        return None, true, trace + [Stop(0)];
      }
      if !faults.statFails && id in disk && |disk[id].cells| == |cells| {
        return Some(false), false, trace;
      }
      m := Alone(S(), seen);
      var end := WriteBlob(id, cells, faults.tries);
      if end.Complete? {
        WholeWrite(m, seen, now);
        TraceStepIf(honest, s0, trace, m, WriteAll(0), Alone(S(), put.(stage := Ready(true))));
        return Some(true), false, trace + [WriteAll(0)];
      }
      if end.Part? || end.Dead? {
        ghost var n := if end.n <= |cells| then end.n else |cells|;
        PartWrite(m, seen, end.n);
        TraceStepIf(honest, s0, trace, m, WriteSome(0, n), Alone(S(), seen));
        trace := trace + [WriteSome(0, n)];
      }
      TraceStop(honest, s0, trace, Alone(S(), seen), seen);
      return None, end.Dead?, trace + [Stop(0)];
    }

    /** The second half: commit the row, then remove the file that nothing references any more. */
    method CommitBlob(put: Call, faults: PutFaults, ghost honest: bool, ghost s0: State, ghost trace0: seq<Step>)
      returns (r: PutEnd, ghost trace: seq<Step>)
      requires put.Put? && put.stage.Ready? && sql.Valid()
      requires TracedIf(honest, s0, trace0, Alone(S(), put))
      modifies this`disk, sql`chunks
      ensures sql.Valid() && TracedIf(honest, s0, trace, S())
      ensures r == CommitEnd(sql.entries, old(sql.chunks), put, put.stage.wrote, faults)
      ensures S() == CommitLeaves(old(S()), put, put.stage.wrote, faults, r)
    {
      ghost var m := S();
      if faults.stop == BeforeCommit {
        TraceStop(honest, s0, trace0, Alone(m, put), put);
        return Crashed(false), trace0 + [Stop(0)];
      }
      var committed := Insert(put, faults.sqlFails);
      hide TracedIf, RowFor, UniqueTimes, PutId, CommitEnd, CommitLeaves, Replaced, WithoutBlob, Unlinked;
      match committed {
        case Err(e) =>
          r, trace := AfterSqlError(put, e, faults, honest, s0, trace0);
          EndsFailed(m, S(), put, put.stage.wrote, faults, e, r);
        case Ok(prev) =>
          r, trace := AfterCommit(put, prev, faults, Alone(m, put), honest, s0, trace0);
          EndsCommitted(m, S(), put, put.stage.wrote, faults, prev, r);
      }
    }

    /** The transaction of an upload. */
    method Insert(put: Call, fails: bool) returns (committed: Result<Option<BlobId>, SqlError>)
      requires put.Put? && sql.Valid()
      modifies sql`chunks
      ensures sql.Valid()
      ensures committed.Err? <==> fails || put.ck.entry !in sql.entries
      ensures committed.Err? ==>
                && S() == old(S())
                && committed.error == if put.ck.entry !in sql.entries then ForeignKey else SqlFailure
      ensures committed.Ok? ==>
                && S() == WithRow(old(S()), put)
                && committed.value == Replaced(old(sql.chunks), put.ck, PutId(put))
    {
      var row := RowFor(put.ck, put.data, put.isFinal);
      assert row.blobId == PutId(put);
      hide RowFor, UniqueTimes, PutId;
      committed := sql.UpsertChunk(put.ck, row, fails);
    }

    /** The row is committed: remove the blob it used to name, if that was another. */
    method AfterCommit(put: Call, prev: Option<BlobId>, faults: PutFaults, ghost m: State, ghost honest: bool, ghost s0: State,
                       ghost trace0: seq<Step>)
      returns (r: PutEnd, ghost trace: seq<Step>)
      requires put.Put? && put.stage.Ready? && m.calls == map[0 := put] && put.ck.entry in m.entries
      requires prev == Replaced(m.chunks, put.ck, PutId(put))
      requires TracedIf(honest, s0, trace0, m) && S() == Idle(WithRow(m, put))
      modifies this`disk
      ensures TracedIf(honest, s0, trace, S())
      ensures r == if prev.Some? && faults.stop == BeforeRemove then Crashed(true) else Committed
      ensures disk == WithoutBlob(old(disk), if r != Committed || faults.removeFails then None else prev)
    {
      hide TracedIf, Next, Encrypt;
      CommitStep(m, put);
      if prev.Some? {
        ghost var replace := put.(stage := Replace(prev.value));
        assert Alone(WithRow(m, put), replace) == Alone(S(), replace);
        TraceStepIf(honest, s0, trace0, m, Commit(0), Alone(S(), replace));
        r, trace := RemoveBlob(prev.value, replace, faults, honest, s0, trace0 + [Commit(0)]);
      } else {
        TraceStepIf(honest, s0, trace0, m, Commit(0), S());
        r, trace := Committed, trace0 + [Commit(0)];
      }
    }

    /** Nothing was committed: take back the file if this call wrote it. */
    method AfterSqlError(put: Call, e: SqlError, faults: PutFaults, ghost honest: bool, ghost s0: State, ghost trace0: seq<Step>)
      returns (r: PutEnd, ghost trace: seq<Step>)
      requires put.Put? && put.stage.Ready?
      requires TracedIf(honest, s0, trace0, Alone(S(), put))
      modifies this`disk
      ensures TracedIf(honest, s0, trace, S())
      ensures r == if put.stage.wrote && faults.stop == BeforeRemove then Crashed(false) else Failed(SqlFailed(e))
      ensures disk == Unlinked(old(disk), PutId(put), r.Failed? && put.stage.wrote && !faults.removeFails)
    {
      ghost var m := Alone(S(), put);
      CommitFailsStep(m, put);
      trace := trace0 + [CommitFails(0)];
      if !put.stage.wrote {
        TraceStepIf(honest, s0, trace0, m, CommitFails(0), S());
        return Failed(SqlFailed(e)), trace;
      }
      ghost var undo := put.(stage := Undo);
      TraceStepIf(honest, s0, trace0, m, CommitFails(0), Alone(m, undo));
      r, trace := RemoveBlob(PutId(put), undo, faults, honest, s0, trace);
      r := if r.Crashed? then Crashed(false) else Failed(SqlFailed(e));
    }

    /** Best effort removal of one file; only a crash is noticed. */
    method RemoveBlob(id: BlobId, ghost call: Call, faults: PutFaults, ghost honest: bool, ghost s0: State, ghost trace0: seq<Step>)
      returns (r: PutEnd, ghost trace: seq<Step>)
      requires call.Put? && Target(call) == Some(id)
      requires TracedIf(honest, s0, trace0, Alone(S(), call))
      modifies this`disk
      ensures TracedIf(honest, s0, trace, S())
      ensures r == if faults.stop == BeforeRemove then Crashed(true) else Committed
      ensures disk == Unlinked(old(disk), id, r == Committed && !faults.removeFails)
    {
      ghost var m := Alone(S(), call);
      if faults.stop == BeforeRemove {
        TraceStop(honest, s0, trace0, m, call);
        return Crashed(true), trace0 + [Stop(0)];
      }
      UnlinkStep(m, call, !faults.removeFails);
      if !faults.removeFails {
        disk := disk - {id};
      }
      TraceStepIf(honest, s0, trace0, m, Unlink(0, !faults.removeFails), S());
      return Committed, trace0 + [Unlink(0, !faults.removeFails)];
    }

    /** Store, commit: an upload from its stat on. */
    method Proceed(put: Call, faults: PutFaults, ghost honest: bool, ghost s0: State, ghost trace0: seq<Step>)
      returns (r: PutEnd, ghost trace: seq<Step>)
      requires put.Put? && put.stage.Begun? && ValidSize(|put.data|, put.isFinal) && faults.stop != BeforeStat && sql.Valid()
      requires honest && faults.statFails ==> !Referenced(S(), PutId(put))
      requires TracedIf(honest, s0, trace0, Alone(S(), put))
      modifies this`disk, sql`chunks
      ensures sql.Valid() && TracedIf(honest, s0, trace, S())
      ensures r == EndOf(sql.entries, old(sql.chunks), old(disk), put, faults)
      ensures S() == UploadLeaves(old(S()), put, faults, r)
    {
      hide TracedIf, Written, AfterWrite, NeedsWrite, Encrypt, UniqueTimes, WriteEndOf, EndOf, UploadLeaves, CommitEnd,
        CommitLeaves, ValidSize;
      ghost var s := S();
      var stored, died;
      stored, died, trace := StoreBlob(put, faults, honest, s0, trace0);
      ghost var m := S();
      if stored.None? {
        r := if died then Crashed(false) else Failed(WriteFailed);
        NotStored(s, m, put, faults, died, r);
      } else {
        r, trace := CommitBlob(put.(stage := Ready(stored.value)), faults, honest, s0, trace);
        StageAside(s, m, put, stored.value, faults, r);
        StoredAndCommitted(s, m, put, stored.value, faults, r);
      }
    }

    /** An upload whose arguments were found to be in order. */
    method Upload(put: Call, faults: PutFaults, ghost honest: bool, ghost s0: State) returns (r: PutEnd, ghost trace: seq<Step>)
      requires put.Put? && put.stage.Begun? && ValidSize(|put.data|, put.isFinal)
      requires sql.Valid() && S() == s0
      requires honest && faults.statFails ==> !Referenced(s0, PutId(put))
      modifies this`disk, sql`chunks
      ensures sql.Valid() && TracedIf(honest, s0, trace, S())
      ensures r == EndOf(sql.entries, old(sql.chunks), old(disk), put, faults)
      ensures S() == UploadLeaves(old(S()), put, faults, r)
    {
      hide TracedIf, Next, Written, AfterWrite, NeedsWrite, Replaced, Encrypt, RowFor, WithoutBlob, UniqueTimes, WriteEndOf;
      TraceBegin(honest, s0, put);
      trace := [Begin(0, put.ck, put.data, put.isFinal)];
      if faults.stop == BeforeStat {
        TraceStop(honest, s0, trace, Alone(S(), put), put);
        return Crashed(false), trace + [Stop(0)];
      }
      r, trace := Proceed(put, faults, honest, s0, trace);
    }

    /**
     Upload one chunk. The abstract map changes exactly when the row was committed.
     The database stays valid unless stat failed on the file of this very blob,
     already referenced, and the rewrite was then cut short or taken back.
     */
    method UpsertChunk(ck: ChunkKey, data: seq<Byte>, isFinal: bool, faults: PutFaults)
      returns (r: PutEnd, ghost trace: seq<Step>)
      requires Valid()
      modifies this`disk, sql
      ensures Valid() <==> !Damaged(old(S()), Put(ck, data, isFinal, Begun), faults, r)
      ensures TracedIf(!faults.statFails || !Referenced(old(S()), GenId(ck, Sha256(data), isFinal)),
                       old(S()), trace, S())
      ensures ViewOf(S()) == if r == Committed || r == Crashed(true)
                             then ViewOf(old(S()))[ck := Content(data, isFinal)]
                             else ViewOf(old(S()))
      ensures r == EndOf(old(sql.entries), old(sql.chunks), old(disk), Put(ck, data, isFinal, Begun), faults)
      ensures S() == UploadLeaves(old(S()), Put(ck, data, isFinal, Begun), faults, r)
      ensures EndsAsTold(old(S()), ck, data, isFinal, faults, r)
      ensures LeavesAsTold(old(S()), S(), ck, data, isFinal, faults, r)
    {
      ghost var s0, put := S(), Put(ck, data, isFinal, Begun);
      UploadEndsAsTold(s0, ck, data, isFinal, faults);
      ghost var honest := !faults.statFails || !Referenced(s0, PutId(put));
      assert TracedIf(honest, s0, [], s0) by { TraceNothing(s0); }
      hide Damaged, TracedIf, EndOf, RowFor, UploadLeaves, EndsAsTold, LeavesAsTold, ViewOf;
      if !isFinal && |data| != CHUNK_SIZE {
        NothingUploaded(s0, ck, data, isFinal, faults);
        UploadLeavesAsTold(s0, ck, data, isFinal, faults, Failed(BadChunkSize));
        return Failed(BadChunkSize), [];
      } else if isFinal && |data| > CHUNK_SIZE {
        NothingUploaded(s0, ck, data, isFinal, faults);
        UploadLeavesAsTold(s0, ck, data, isFinal, faults, Failed(BadChunkSize));
        return Failed(BadChunkSize), [];
      }
      hide Inv;
      r, trace := Upload(Put(ck, data, isFinal, Begun), faults, honest, s0);
      UploadSoundIff(s0, S(), put, faults, honest, trace, r);
      UploadLeavesAsTold(s0, ck, data, isFinal, faults, r);
      UploadShows(s0, put, faults, r);
    }

    /** Reads one chunk back; in a valid database the answer is what the abstract map says, unless sql or the file cannot be read. */
    method GetChunk(ck: ChunkKey, isFinal: bool, sqlFails: bool, readFails: bool)
      returns (r: Result<Option<seq<Byte>>, ReadError>)
      requires Valid()
      ensures r == if sqlFails then Err(SqlUnreadable)
                   else if readFails && Expected(ViewOf(S()), ck, isFinal).Ok? && ck in ViewOf(S()) then Err(FileUnreadable)
                   else Expected(ViewOf(S()), ck, isFinal)
      ensures sqlFails <==> r == Err(SqlUnreadable)
      ensures !sqlFails ==>
                && (r == Ok(None) <==> ck !in sql.chunks)
                && (r == Err(FinalityMismatch) <==> ck in sql.chunks && sql.chunks[ck].isFinal != isFinal)
                && (r == Err(FileUnreadable) <==> ck in sql.chunks && sql.chunks[ck].isFinal == isFinal && readFails)
                && (r.Ok? && r.value.Some? ==> r.value == Some(sql.chunks[ck].hash.content))
                && (r.Err? ==> r.error in {FinalityMismatch, FileUnreadable})
    {
      ReadMeetsView(S(), ck, isFinal);
      if sqlFails {
        return Err(SqlUnreadable);
      }
      if ck !in sql.chunks {
        return Ok(None);
      }
      var row := sql.chunks[ck];
      if isFinal != row.isFinal {
        return Err(FinalityMismatch);
      }
      var id := GenId(ck, row.hash, isFinal);
      if readFails {
        return Err(FileUnreadable);
      }
      if id !in disk {
        return Err(BlobMissing);
      }
      var cells := disk[id].cells;
      if |cells| != row.size {
        return Err(Corrupted);
      }
      match Decrypt(id, cells, row.tag) {
        case None => return Err(BadTag);
        case Some(data) => return Ok(Some(data));
      }
    }

    /** The clock is read again. */
    method PassTime(to: nat) returns (ghost trace: seq<Step>)
      requires Valid() && now <= to
      modifies this`now
      ensures Valid() && Traced(old(S()), trace, S())
      ensures S() == old(S()).(now := to)
    {
      ghost var s0 := S();
      now := to;
      TickKeepsInv(s0, to);
      TraceNothing(s0);
      TraceStep(s0, [], s0, Tick(to), S());
      trace := [] + [Tick(to)];
    }

    /** Cleanup of one blob file: removed if it is stale and sql knows no row for it. */
    method CleanBlob(id: BlobId, queryFails: bool, removable: bool) returns (ok: bool, ghost trace: seq<Step>)
      requires Valid()
      modifies this`disk
      ensures Valid()
      ensures Traced(old(S()), trace, S())
      ensures ok <==> !(queryFails && PastGrace(old(S()), id))
      ensures disk == if ok && removable && GarbageBlob(old(S()), id) then old(disk) - {id} else old(disk)
      ensures var stale := id in old(disk) && old(disk)[id].mtime + 300_000_000 <= now;
              var named := exists ck :: ck in sql.chunks && sql.chunks[ck].blobId == id;
              && (ok <==> !(queryFails && stale))
              && (id in disk <==> id in old(disk) && !(ok && removable && stale && !named))
    {
      ghost var s0 := S();
      TraceNothing(s0);
      if id !in disk || now < disk[id].mtime + CLEANUP_GRACE {
        return true, [];
      }
      StaleStep(s0, id);
      TraceStep(s0, [], s0, Stale(0, id), Alone(s0, Examining(id)));
      trace := [] + [Stale(0, id)];
      if queryFails {
        TraceStop(true, s0, trace, Alone(s0, Examining(id)), Examining(id));
        return false, trace + [Stop(0)];
      }
      var found := sql.BlobIdExists(id);
      ReferencedByOwnRow(s0, id);
      QueryStep(Alone(s0, Examining(id)), id);
      SameRows(s0, Alone(s0, Examining(id)));
      if found {
        TraceStep(s0, trace, Alone(s0, Examining(id)), Query(0), S());
        return true, trace + [Query(0)];
      }
      TraceStep(s0, trace, Alone(s0, Examining(id)), Query(0), Alone(s0, Doomed(id)));
      trace := trace + [Query(0)];
      UnlinkStep(Alone(s0, Doomed(id)), Doomed(id), removable);
      if removable {
        disk := disk - {id};
      }
      TraceStep(s0, trace, Alone(s0, Doomed(id)), Unlink(0, removable), S());
      trace := trace + [Unlink(0, removable)];
      SerialRunSafe(s0, trace);
      return true, trace;
    }

    /**
     A pass of cleanup over the blob files it meets, in whatever order: `done` are
     the ones it dealt with before a failing query ended it. It takes exactly the
     garbage among them, and reads answer as before.
     */
    method CollectGarbage(clock: nat, ids: seq<BlobId>, queryFails: BlobId -> bool, removable: BlobId -> bool)
      returns (done: nat, ghost trace: seq<Step>)
      requires Valid() && now <= clock
      modifies this`disk, this`now
      ensures Valid()
      ensures Traced(old(S()), trace, S())
      ensures done <= |ids| && (done < |ids| ==> queryFails(ids[done]))
      ensures now == clock && disk == Collected(old(S()).(now := clock), ids[..done], removable)
      ensures ViewOf(S()) == ViewOf(old(S()))
      ensures CollectedAsTold(old(disk), disk, sql.chunks, clock, ids[..done], removable)
    {
      ghost var s0 := S();
      trace := PassTime(clock);
      ghost var s := S();
      done := 0;
      CollectNothing(s, removable);
      hide Traced, Collected, GarbageBlob, CollectedAsTold;
      CollectionTold(s, [], removable);
      while done < |ids|
        invariant Valid() && done <= |ids|
        invariant Traced(s0, trace, S())
        invariant S() == s.(disk := Collected(s, ids[..done], removable))
        invariant CollectedAsTold(s.disk, disk, s.chunks, clock, ids[..done], removable)
      {
        hide Inv, Next;
        ghost var m := S();
        var ok;
        ghost var more;
        ok, more := CleanBlob(ids[done], queryFails(ids[done]), removable(ids[done]));
        TraceJoin(s0, trace, m, more, S());
        trace := trace + more;
        if !ok {
          return;
        }
        CollectOne(s, ids[..done], ids[done], removable);
        assert ids[..done + 1] == ids[..done] + [ids[done]];
        done := done + 1;
        CollectionTold(s, ids[..done], removable);
      }
    }

    /**
     Best effort removal of the blobs of rows already gone. `removable` says which
     removals succeed; after `attempts` of them the process dies.
     */
    method RemoveFiles(ids: seq<BlobId>, removable: BlobId -> bool, attempts: nat,
                       ghost s0: State, ghost trace0: seq<Step>)
      returns (ghost trace: seq<Step>)
      requires Traced(s0, trace0, Alone(S(), Removing(ids)))
      modifies this`disk
      ensures Traced(s0, trace, S())
      ensures disk == WithoutFiles(old(disk), ids, removable, attempts)
    {
      hide Traced, Next, Encrypt, WithoutFiles;
      trace := trace0;
      var i := 0;
      assert ids[0..] == ids;
      NoFilesYet(disk, ids, removable);
      while i < |ids| && i < attempts
        invariant i <= |ids| && i <= attempts
        invariant Traced(s0, trace, Alone(S(), Removing(ids[i..])))
        invariant disk == WithoutFiles(old(disk), ids, removable, i)
      {
        RemovalTraced(s0, trace, S(), ids, i, removable(ids[i]));
        OneFileLess(old(disk), ids, removable, i);
        if removable(ids[i]) {
          disk := disk - {ids[i]};
        }
        trace := trace + [Unlink(0, removable(ids[i]))];
        i := i + 1;
      }
      StoppedThere(old(disk), ids, removable, i, attempts);
      StopTraced(s0, trace, S(), Removing(ids[i..]));
      trace := trace + [Stop(0)];
    }

    /** The rows of a batch are gone; record that, then remove their files. */
    method RemoveDropped(ids: seq<BlobId>, removable: BlobId -> bool, attempts: nat,
                         ghost batch: set<EntryKey>,
                         ghost before: State, ghost s0: State, ghost trace0: seq<Step>)
      returns (ghost trace: seq<Step>)
      requires before.calls == map[] && S() == WithoutBatch(before, batch)
      requires BlobIdsOf(ids, before.chunks, RowsOf(before.chunks, batch))
      requires Traced(s0, trace0, before)
      modifies this`disk
      ensures Traced(s0, trace, S())
      ensures disk == WithoutFiles(old(disk), ids, removable, attempts)
    {
      DropStep(before, batch, ids);
      TraceStep(s0, trace0, before, Drop(0, batch, ids), Alone(S(), Removing(ids)));
      trace := RemoveFiles(ids, removable, attempts, s0, trace0 + [Drop(0, batch, ids)]);
    }

    /** Removes an entry with its chunks: first the rows, then, best effort, the files of exactly those rows. */
    method Rm(k: EntryKey, sqlFails: bool, removable: BlobId -> bool, attempts: nat)
      returns (r: Result<seq<BlobId>, DbError>, ghost trace: seq<Step>)
      requires Valid()
      modifies this`disk, sql
      ensures Valid()
      ensures Traced(old(S()), trace, S())
      ensures r.Err? <==> sqlFails
      ensures r.Err? ==> S() == old(S())
      ensures r.Ok? ==>
                && S() == WithoutBatch(old(S()), {k}).(disk := WithoutFiles(old(disk), r.value, removable, attempts))
                && BlobIdsOf(r.value, old(sql.chunks), RowsOf(old(sql.chunks), {k}))
      ensures r.Err? ==> r.error == SqlFailed(SqlFailure)
      ensures r.Ok? ==> RemovedAsTold(old(S()), S(), k, removable) && (|r.value| <= attempts ==> FilesGone(old(S()), S(), removable))
    {
      hide Traced, BlobIdsOf, RowsOf, WithoutRowsOf, WithoutFiles, RemovedAsTold, FilesGone, UniqueTimes;
      ghost var s0 := S();
      TraceNothing(s0);
      var removed := sql.Rm(k, sqlFails);
      match removed {
        case Err(e) =>
          return Err(SqlFailed(e)), [];
        case Ok(ids) =>
          trace := RemoveDropped(ids, removable, attempts, {k}, s0, s0, []);
          TracedKeepsInv(s0, trace, S());
          r := Ok(ids);
          RemovalTold(s0, S(), k, ids, attempts, removable);
      }
    }

    /** One batch: the transaction, then the files of its rows, until the process dies if it does. */
    method PrunePass(clock: nat -> Option<i64>, passes: nat, fails: bool, dies: Option<nat>, removable: BlobId -> bool,
                     removed0: seq<BlobId>, ghost s0: State, ghost trace0: seq<Step>)
      returns (r: Result<nat, SqlError>, removed: seq<BlobId>, tried: nat, ghost trace: seq<Step>)
      requires sql.Valid() && clock(passes).Some?
      requires Traced(s0, trace0, S()) && Books(s0, S(), clock, passes, removed0, |removed0|, removable)
      modifies this`disk, sql
      ensures sql.Valid() && Traced(s0, trace, S())
      ensures r.Err? <==> fails
      ensures r.Err? ==> r.error == SqlFailure && S() == old(S()) && removed == removed0 && tried == |removed0|
      ensures r.Ok? ==>
                && Books(s0, S(), clock, passes + 1, removed, tried, removable)
                && (dies.None? ==> tried == |removed|)
                && |old(sql.entries)| - |sql.entries| == r.value <= PRUNE_BATCH
                && (r.value < PRUNE_BATCH ==> ExpiredKeys(sql.entries, clock(passes).value) == {})
    {
      hide Traced, Books, Batch, ExpiredKeys, WithoutFiles, KeySet, BlobIdsOf, RowsOf, WithoutRowsOf, WithoutBatch, UniqueTimes;
      ghost var before := S();
      var pruned := sql.PruneExpired(clock(passes).value, PRUNE_BATCH, fails);
      match pruned {
        case Err(e) =>
          return Err(e), removed0, |removed0|, trace0;
        case Ok((count, ids)) =>
          ghost var batch := KeySet(Batch(before.entries, clock(passes).value, PRUNE_BATCH));
          IsWithoutBatch(before, S(), batch);
          r := Ok(count);
          removed, tried, trace := RemovePruned(ids, dies, removable, clock, passes, removed0, batch, before, s0, trace0);
      }
    }

    /** The files of a pruned batch, as many as the process lives to try. */
    method RemovePruned(ids: seq<BlobId>, dies: Option<nat>, removable: BlobId -> bool, ghost clock: nat -> Option<i64>,
                        ghost passes: nat, removed0: seq<BlobId>, ghost batch: set<EntryKey>,
                        ghost before: State, ghost s0: State, ghost trace0: seq<Step>)
      returns (removed: seq<BlobId>, tried: nat, ghost trace: seq<Step>)
      requires clock(passes).Some? && batch == KeySet(Batch(before.entries, clock(passes).value, PRUNE_BATCH))
      requires before.calls == map[] && S() == WithoutBatch(before, batch)
      requires BlobIdsOf(ids, before.chunks, RowsOf(before.chunks, batch))
      requires Traced(s0, trace0, before) && Books(s0, before, clock, passes, removed0, |removed0|, removable)
      modifies this`disk
      ensures Traced(s0, trace, S()) && Books(s0, S(), clock, passes + 1, removed, tried, removable)
      ensures dies.None? ==> tried == |removed|
      ensures |before.entries| - |sql.entries| == |batch| <= PRUNE_BATCH
      ensures |batch| < PRUNE_BATCH ==> ExpiredKeys(sql.entries, clock(passes).value) == {}
    {
      hide Traced, Books, Batch, ExpiredKeys, WithoutFiles, KeySet, BlobIdsOf, RowsOf, WithoutRowsOf;
      var attempts := if dies.Some? && dies.value < |ids| then dies.value else |ids|;
      trace := RemoveDropped(ids, removable, attempts, batch, before, s0, trace0);
      removed, tried := removed0 + ids, |removed0| + attempts;
      AfterPass(s0, before, S(), clock, passes, batch, removed0, ids, attempts, removable, removed, tried);
    }

    /**
     Works through the expired entries a batch at a time. `clock` and `sqlFails`
     say what the n-th reading of the clock and the n-th transaction yield,
     `dies` whether the process dies in the n-th batch and after how many file
     removals. A normal end leaves nothing that had expired when the clock was
     last read.
     */
    method PruneBacklog(clock: nat -> Option<i64>, sqlFails: nat -> bool, dies: nat -> Option<nat>,
                        removable: BlobId -> bool)
      returns (r: DrainEnd, passes: nat, removed: seq<BlobId>, tried: nat, ghost trace: seq<Step>)
      requires Valid()
      modifies this`disk, sql
      ensures Valid()
      ensures Traced(old(S()), trace, S())
      ensures Books(old(S()), S(), clock, passes, removed, tried, removable)
      ensures DrainMeasure(r, |old(sql.entries)| - |sql.entries|, clock, passes)
      ensures r != Died ==> tried == |removed|
      ensures r.ClockFailed? ==> clock(passes).None?
      ensures r.DrainFailed? ==> sqlFails(passes) && r.error == SqlFailure
      ensures r.Died? ==> passes > 0 && dies(passes - 1).Some?
      ensures (forall i: nat :: clock(i).Some? && !sqlFails(i) && dies(i).None?) ==> r.Drained?
      ensures PrunedAsTold(old(S()), S(), clock, passes, removable)
      ensures r.Drained? ==>
                && passes > 0 && clock(passes - 1) == Some(r.lastClock)
                && forall k :: k in sql.entries ==>
                     sql.entries[k].expiresAt.None? || r.lastClock < sql.entries[k].expiresAt.value
      ensures r != Died ==> FilesGone(old(S()), S(), removable)
    {
      ghost var s0 := S();
      r, passes, removed, tried, trace := Drain(clock, sqlFails, dies, removable);
      SerialRunSafe(s0, trace);
      BooksTell(s0, S(), clock, passes, removed, tried, removable);
    }

    method Drain(clock: nat -> Option<i64>, sqlFails: nat -> bool, dies: nat -> Option<nat>, removable: BlobId -> bool)
      returns (r: DrainEnd, passes: nat, removed: seq<BlobId>, tried: nat, ghost trace: seq<Step>)
      requires sql.Valid()
      modifies this`disk, sql
      ensures sql.Valid()
      ensures Traced(old(S()), trace, S())
      ensures Books(old(S()), S(), clock, passes, removed, tried, removable)
      ensures DrainMeasure(r, |old(sql.entries)| - |sql.entries|, clock, passes)
      ensures r != Died ==> tried == |removed|
      ensures r.ClockFailed? ==> clock(passes).None?
      ensures r.DrainFailed? ==> sqlFails(passes) && r.error == SqlFailure
      ensures r.Died? ==> passes > 0 && dies(passes - 1).Some?
      ensures r.Drained? ==>
                forall k :: k in sql.entries ==>
                  sql.entries[k].expiresAt.None? || r.lastClock < sql.entries[k].expiresAt.value
    {
      hide Books, Traced, Run, SerialRun;
      ghost var s0 := S();
      TraceNothing(s0);
      trace := [];
      passes, removed, tried := 0, [], 0;
      EmptyBooks(s0, clock, removable);
      while true
        invariant sql.Valid() && Traced(s0, trace, S())
        invariant Books(s0, S(), clock, passes, removed, tried, removable) && tried == |removed|
        invariant |s0.entries| - |sql.entries| == PRUNE_BATCH * passes
        decreases |sql.entries|
      {
        if clock(passes).None? {
          return ClockFailed, passes, removed, tried, trace;
        }
        var pass;
        pass, removed, tried, trace :=
          PrunePass(clock, passes, sqlFails(passes), dies(passes), removable, removed, s0, trace);
        if pass.Err? {
          return DrainFailed(pass.error), passes, removed, tried, trace;
        }
        passes := passes + 1;
        if dies(passes - 1).Some? {
          return Died, passes, removed, tried, trace;
        }
        if pass.value < PRUNE_BATCH {
          NoneExpired(sql.entries, clock(passes - 1).value);
          return Drained(clock(passes - 1).value), passes, removed, tried, trace;
        }
      }
    }
  }

  /**
   What pruning did, in the columns: entries that stay are as they were, those
   that went had an expiry not after a clock reading used; chunk rows went
   exactly with their entries, and no other files than theirs.
   */
  ghost predicate PrunedAsTold(s0: State, s: State, clock: nat -> Option<i64>, passes: nat, removable: BlobId -> bool) {
    && OnlyExpiredGone(s0.entries, s.entries, clock, passes)
    && s.chunks == (map ck | ck in s0.chunks && ck.entry in s.entries :: s0.chunks[ck])
    && OnlyTheirFilesGone(s0, s, removable)
  }

  /** No file changes, and one that went could be removed and a row that named it went. */
  ghost predicate OnlyTheirFilesGone(s0: State, s: State, removable: BlobId -> bool) {
    && (forall id :: id in s.disk ==> id in s0.disk && s.disk[id] == s0.disk[id])
    && (forall id :: id in s0.disk && id !in s.disk ==>
          removable(id) && exists ck :: ck in s0.chunks && ck !in s.chunks && s0.chunks[ck].blobId == id)
  }

  /** The files of the rows that went are gone, but for those that cannot be removed. */
  ghost predicate FilesGone(s0: State, s: State, removable: BlobId -> bool) {
    forall ck :: ck in s0.chunks && ck !in s.chunks && removable(s0.chunks[ck].blobId) ==> s0.chunks[ck].blobId !in s.disk
  }

  /** Removing the files that some rows name, as many as were tried. */
  lemma FilesOfRows(s0: State, s: State, rows: set<ChunkKey>, ids: seq<BlobId>, tried: nat, removable: BlobId -> bool)
    requires rows == s0.chunks.Keys - s.chunks.Keys && BlobIdsOf(ids, s0.chunks, rows)
    requires s.disk == WithoutFiles(s0.disk, ids, removable, tried)
    ensures OnlyTheirFilesGone(s0, s, removable)
    ensures |ids| <= tried ==> FilesGone(s0, s, removable)
  {
    forall id | id in s0.disk && id !in s.disk
      ensures removable(id) && exists ck :: ck in s0.chunks && ck !in s.chunks && s0.chunks[ck].blobId == id
    {
      assert id in ids;
      var ck :| ck in rows && s0.chunks[ck].blobId == id;
    }
    if |ids| <= tried {
      forall ck | ck in s0.chunks && ck !in s.chunks && removable(s0.chunks[ck].blobId)
        ensures s0.chunks[ck].blobId !in s.disk
      {
        assert ck in rows;
      }
    }
  }

  /** What removing an entry did: the entry, its rows and no others, and no other files than theirs. */
  ghost predicate RemovedAsTold(s0: State, s: State, k: EntryKey, removable: BlobId -> bool) {
    && s.entries == s0.entries - {k} && s.now == s0.now
    && (forall ck :: ck in s.chunks <==> ck in s0.chunks && ck.entry != k)
    && (forall ck :: ck in s.chunks ==> s.chunks[ck] == s0.chunks[ck])
    && OnlyTheirFilesGone(s0, s, removable)
  }

  lemma RemovalTold(s0: State, s: State, k: EntryKey, ids: seq<BlobId>, tried: nat, removable: BlobId -> bool)
    requires s == WithoutBatch(s0, {k}).(disk := WithoutFiles(s0.disk, ids, removable, tried))
    requires BlobIdsOf(ids, s0.chunks, RowsOf(s0.chunks, {k}))
    ensures RemovedAsTold(s0, s, k, removable)
    ensures |ids| <= tried ==> FilesGone(s0, s, removable)
  {
    hide BlobIdsOf, WithoutFiles, OnlyTheirFilesGone, FilesGone;
    assert RowsOf(s0.chunks, {k}) == s0.chunks.Keys - s.chunks.Keys;
    FilesOfRows(s0, s, RowsOf(s0.chunks, {k}), ids, tried, removable);
  }

  lemma BooksTell(s0: State, s: State, clock: nat -> Option<i64>, passes: nat,
                  removed: seq<BlobId>, tried: nat, removable: BlobId -> bool)
    requires Books(s0, s, clock, passes, removed, tried, removable)
    ensures PrunedAsTold(s0, s, clock, passes, removable)
    ensures tried == |removed| ==> FilesGone(s0, s, removable)
  {
    FilesOfRows(s0, s, s0.chunks.Keys - s.chunks.Keys, removed, tried, removable);
    hide OnlyExpiredGone, OnlyTheirFilesGone, FilesGone, BlobIdsOf, WithoutFiles;
  }

  lemma NoneExpired(table: Table, now: i64)
    requires ExpiredKeys(table, now) == {}
    ensures forall k :: k in table ==> table[k].expiresAt.None? || now < table[k].expiresAt.value
  {
    assert forall k :: k in table && Expired(table[k], now) ==> k in ExpiredKeys(table, now);
  }

  /** Every pass but the last takes a full batch; a normal end names the last clock reading. */
  predicate DrainMeasure(r: DrainEnd, gone: int, clock: nat -> Option<i64>, passes: nat) {
    if r.Drained? then
      && passes > 0
      && clock(passes - 1) == Some(r.lastClock)
      && 256 * (passes - 1) <= gone < 256 * passes
    else if r.Died? then
      passes > 0 && 256 * (passes - 1) <= gone <= 256 * passes
    else
      gone == 256 * passes
  }

  /**
   What a drain may have done so far: entries that went had expired, entries
   that stayed are untouched, chunk rows went exactly with their entries,
   `removed` are the blobs of exactly these rows, each listed once, and the files
   of the first `tried` of them have been asked for, and no others.
   */
  ghost predicate Books(s0: State, s: State, clock: nat -> Option<i64>, passes: nat,
                        removed: seq<BlobId>, tried: nat, removable: BlobId -> bool) {
    && OnlyExpiredGone(s0.entries, s.entries, clock, passes)
    && s.chunks == RowsUnder(s0.chunks, s.entries)
    && BlobIdsOf(removed, s0.chunks, s0.chunks.Keys - s.chunks.Keys)
    && tried <= |removed| && s.disk == WithoutFiles(s0.disk, removed, removable, tried)
  }

  /** Entries that remain are as they were; the others had expired at one of the clock readings used. */
  ghost predicate OnlyExpiredGone(before: Table, after: Table, clock: nat -> Option<i64>, passes: nat) {
    && (forall k :: k in after ==> k in before && after[k] == before[k])
    && (forall k :: k in before && k !in after ==> ExpiredByThen(before[k], clock, passes))
  }

  ghost predicate ExpiredByThen(e: Entry, clock: nat -> Option<i64>, passes: nat) {
    e.expiresAt.Some? && exists i: nat :: i < passes && clock(i).Some? && e.expiresAt.value <= clock(i).value
  }

  function RowsUnder(chunks: Chunks, table: Table): Chunks {
    map ck | ck in chunks && ck.entry in table :: chunks[ck]
  }

  /** The disk after trying to remove the first `n` of the listed files. */
  function WithoutFiles(disk: Disk, ids: seq<BlobId>, removable: BlobId -> bool, n: nat): Disk {
    map id | id in disk && !(id in (if n < |ids| then ids[..n] else ids) && removable(id)) :: disk[id]
  }

  lemma NoFilesYet(disk: Disk, ids: seq<BlobId>, removable: BlobId -> bool)
    ensures WithoutFiles(disk, ids, removable, 0) == disk
  {
  }

  lemma OneFileLess(disk: Disk, ids: seq<BlobId>, removable: BlobId -> bool, n: nat)
    requires n < |ids|
    ensures WithoutFiles(disk, ids, removable, n + 1) ==
            var d := WithoutFiles(disk, ids, removable, n); if removable(ids[n]) then d - {ids[n]} else d
  {
    assert ids[..n + 1] == ids[..n] + [ids[n]];
    assert n + 1 == |ids| ==> ids[..n + 1] == ids;
  }

  lemma StoppedThere(disk: Disk, ids: seq<BlobId>, removable: BlobId -> bool, n: nat, attempts: nat)
    requires n == attempts <= |ids| || n == |ids| <= attempts
    ensures WithoutFiles(disk, ids, removable, n) == WithoutFiles(disk, ids, removable, attempts)
  {
  }

  lemma RemovalTraced(s0: State, trace: seq<Step>, s: State, ids: seq<BlobId>, n: nat, removed: bool)
    requires n < |ids| && s.calls == map[] && Traced(s0, trace, Alone(s, Removing(ids[n..])))
    ensures Traced(s0, trace + [Unlink(0, removed)],
                   Alone(s.(disk := Unlinked(s.disk, ids[n], removed)), Removing(ids[n + 1..])))
  {
    hide Traced;
    var call := Removing(ids[n..]);
    UnlinkStep(Alone(s, call), call, removed);
    assert ids[n..][0] == ids[n] && ids[n..][1..] == ids[n + 1..];
    var s1 := s.(disk := Unlinked(s.disk, ids[n], removed));
    TraceStep(s0, trace, Alone(s, call), Unlink(0, removed), Alone(s1, Removing(ids[n + 1..])));
  }

  lemma StopTraced(s0: State, trace: seq<Step>, s: State, call: Call)
    requires s.calls == map[] && Traced(s0, trace, Alone(s, call))
    ensures Traced(s0, trace + [Stop(0)], s)
  {
    TraceStop(true, s0, trace, Alone(s, call), call);
    assert Idle(Alone(s, call)) == s;
  }

  lemma BatchHasExpired(table: Table, now: i64, limit: i64)
    ensures KeySet(Batch(table, now, limit)) <= ExpiredKeys(table, now)
  {
  }

  lemma EntriesGone(before: Table, after: Table, batch: set<EntryKey>)
    requires batch <= before.Keys && after == before - batch
    ensures |before| - |after| == |batch|
  {
    assert after.Keys == before.Keys - batch;
    assert before.Keys == after.Keys + batch;
  }

  lemma StillOnlyExpired(first: Table, before: Table, after: Table, clock: nat -> Option<i64>, passes: nat, batch: set<EntryKey>)
    requires OnlyExpiredGone(first, before, clock, passes)
    requires clock(passes).Some? && batch <= ExpiredKeys(before, clock(passes).value) && after == before - batch
    ensures OnlyExpiredGone(first, after, clock, passes + 1)
  {
    forall k | k in first && k !in after
      ensures ExpiredByThen(first[k], clock, passes + 1)
    {
      if k in before {
        assert k in batch && Expired(before[k], clock(passes).value);
      } else {
        assert ExpiredByThen(first[k], clock, passes);
      }
    }
  }

  lemma BlobIdsAdd(chunks: Chunks, rows1: set<ChunkKey>, ids1: seq<BlobId>, rows2: set<ChunkKey>, ids2: seq<BlobId>)
    requires BlobIdsOf(ids1, chunks, rows1) && BlobIdsOf(ids2, chunks, rows2) && rows1 !! rows2
    ensures BlobIdsOf(ids1 + ids2, chunks, rows1 + rows2)
  {
    forall id | id in ids1 + ids2
      ensures exists ck :: ck in rows1 + rows2 && chunks[ck].blobId == id
    {
      if id in ids1 {
        var ck :| ck in rows1 && chunks[ck].blobId == id;
        assert ck in rows1 + rows2;
      } else {
        var ck :| ck in rows2 && chunks[ck].blobId == id;
        assert ck in rows1 + rows2;
      }
    }
  }

  lemma EmptyBooks(s0: State, clock: nat -> Option<i64>, removable: BlobId -> bool)
    requires forall ck :: ck in s0.chunks ==> ck.entry in s0.entries
    ensures Books(s0, s0, clock, 0, [], 0, removable)
  {
    assert s0.chunks.Keys - s0.chunks.Keys == {};
  }

  lemma FilesAdd(disk: Disk, ids1: seq<BlobId>, ids2: seq<BlobId>, n: nat, removable: BlobId -> bool)
    requires n <= |ids2|
    ensures WithoutFiles(WithoutFiles(disk, ids1, removable, |ids1|), ids2, removable, n)
            == WithoutFiles(disk, ids1 + ids2, removable, |ids1| + n)
  {
    assert (ids1 + ids2)[..|ids1| + n] == ids1 + ids2[..n];
    assert n == |ids2| ==> ids2[..n] == ids2;
  }

  lemma RowsUnderLess(chunks: Chunks, before: Table, batch: set<EntryKey>)
    ensures WithoutRowsOf(RowsUnder(chunks, before), batch) == RowsUnder(chunks, before - batch)
  {
  }

  lemma RowsGone(chunks: Chunks, before: Table, batch: set<EntryKey>)
    requires batch <= before.Keys
    ensures var rows := RowsUnder(chunks, before);
            && (chunks.Keys - rows.Keys) !! RowsOf(rows, batch)
            && (chunks.Keys - rows.Keys) + RowsOf(rows, batch) == chunks.Keys - WithoutRowsOf(rows, batch).Keys
  {
  }

  lemma BlobIdsOfMore(ids: seq<BlobId>, rows: Chunks, chunks: Chunks, keys: set<ChunkKey>)
    requires BlobIdsOf(ids, rows, keys)
    requires forall ck :: ck in rows ==> ck in chunks && chunks[ck] == rows[ck]
    ensures BlobIdsOf(ids, chunks, keys)
  {
  }

  lemma RowsAdd(chunks: Chunks, before: Table, batch: set<EntryKey>, removed: seq<BlobId>, ids: seq<BlobId>)
    requires batch <= before.Keys
    requires BlobIdsOf(removed, chunks, chunks.Keys - RowsUnder(chunks, before).Keys)
    requires BlobIdsOf(ids, RowsUnder(chunks, before), RowsOf(RowsUnder(chunks, before), batch))
    ensures BlobIdsOf(removed + ids, chunks, chunks.Keys - RowsUnder(chunks, before - batch).Keys)
  {
    var rows := RowsUnder(chunks, before);
    BlobIdsOfMore(ids, rows, chunks, RowsOf(rows, batch));
    RowsGone(chunks, before, batch);
    BlobIdsAdd(chunks, chunks.Keys - rows.Keys, removed, RowsOf(rows, batch), ids);
    RowsUnderLess(chunks, before, batch);
  }

  lemma IsWithoutBatch(before: State, after: State, batch: set<EntryKey>)
    requires after.entries == before.entries - batch && after.chunks == WithoutRowsOf(before.chunks, batch)
    requires after.disk == before.disk && after.now == before.now && after.calls == before.calls
    ensures after == WithoutBatch(before, batch)
  {
  }

  /** Books and batch after the transaction and as many removals as the process lived to try. */
  lemma AfterPass(s0: State, before: State, after: State, clock: nat -> Option<i64>, passes: nat,
                  batch: set<EntryKey>, removed: seq<BlobId>, ids: seq<BlobId>, n: nat, removable: BlobId -> bool,
                  all: seq<BlobId>, tried: nat)
    requires n <= |ids| && clock(passes).Some? && all == removed + ids && tried == |removed| + n
    requires batch == KeySet(Batch(before.entries, clock(passes).value, PRUNE_BATCH))
    requires Books(s0, before, clock, passes, removed, |removed|, removable)
    requires BlobIdsOf(ids, before.chunks, RowsOf(before.chunks, batch))
    requires after.entries == before.entries - batch && after.chunks == WithoutRowsOf(before.chunks, batch)
    requires after.disk == WithoutFiles(before.disk, ids, removable, n)
    ensures Books(s0, after, clock, passes + 1, all, tried, removable)
    ensures |before.entries| - |after.entries| == |batch| <= PRUNE_BATCH
    ensures |batch| < PRUNE_BATCH ==> ExpiredKeys(after.entries, clock(passes).value) == {}
  {
    hide Books, BlobIdsOf, WithoutFiles, RowsOf, WithoutRowsOf, KeySet, Batch, ExpiredKeys;
    BatchHasExpired(before.entries, clock(passes).value, PRUNE_BATCH);
    PassBooks(s0, before, after, clock, passes, batch, removed, ids, n, removable);
    PassShrinks(before, after, clock(passes).value, batch);
  }

  /** The books after one more pass. */
  lemma PassBooks(s0: State, before: State, after: State, clock: nat -> Option<i64>, passes: nat,
                  batch: set<EntryKey>, removed: seq<BlobId>, ids: seq<BlobId>, n: nat, removable: BlobId -> bool)
    requires n <= |ids| && clock(passes).Some? && batch <= ExpiredKeys(before.entries, clock(passes).value)
    requires Books(s0, before, clock, passes, removed, |removed|, removable)
    requires BlobIdsOf(ids, before.chunks, RowsOf(before.chunks, batch))
    requires after.entries == before.entries - batch && after.chunks == WithoutRowsOf(before.chunks, batch)
    requires after.disk == WithoutFiles(before.disk, ids, removable, n)
    ensures Books(s0, after, clock, passes + 1, removed + ids, |removed| + n, removable)
  {
    StillOnlyExpired(s0.entries, before.entries, after.entries, clock, passes, batch);
    RowsAdd(s0.chunks, before.entries, batch, removed, ids);
    RowsUnderLess(s0.chunks, before.entries, batch);
    FilesAdd(s0.disk, removed, ids, n, removable);
  }

  /** A pass takes as many entries as its batch holds; a batch that is not full takes all that had expired. */
  lemma PassShrinks(before: State, after: State, now: i64, batch: set<EntryKey>)
    requires batch == KeySet(Batch(before.entries, now, PRUNE_BATCH))
    requires after.entries == before.entries - batch
    ensures |before.entries| - |after.entries| == |batch| <= PRUNE_BATCH
    ensures |batch| < PRUNE_BATCH ==> ExpiredKeys(after.entries, now) == {}
  {
    BatchHasNoRepeats(before.entries, now, PRUNE_BATCH);
    EntriesGone(before.entries, after.entries, batch);
  }
}
