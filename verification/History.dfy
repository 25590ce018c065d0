/**
 The protocol refined to the map it implements: what `get_chunk` returns is
 decided by the commits and removals of the run so far, and by nothing else.
 Files uploaded in chunks read back whole.
 */
module History {
  import opened Wrappers
  import opened Bytes
  import opened Entries
  import opened Blobs
  import opened Protocol
  import opened Safety
  import opened Grace

  datatype Content = Content(data: seq<Byte>, isFinal: bool)

  /** (class, key, idx) to plaintext and finality. */
  type View = map<ChunkKey, Content>

  function ViewOf(s: State): View {
    map ck | ck in s.chunks :: Content(s.chunks[ck].hash.content, s.chunks[ck].isFinal)
  }

  /** What one step does to the abstract map: only commits write it and only removals of entries shrink it. */
  function Effect(view: View, s: State, step: Step): View {
    match step
    case Commit(c) =>
      if c in s.calls && s.calls[c].Put? then
        view[s.calls[c].ck := Content(s.calls[c].data, s.calls[c].isFinal)]
      else view
    case Drop(_, batch, _) => map ck | ck in view && ck.entry !in batch :: view[ck]
    case _ => view
  }

  ghost function Track(view: View, s: State, steps: seq<Step>): View
    decreases |steps|
  {
    if steps == [] || Next(s, steps[0]).None? then view
    else Track(Effect(view, s, steps[0]), Next(s, steps[0]).value, steps[1..])
  }

  lemma CommitEffect(s: State, c: CallId, put: Call)
    requires put.Put?
    ensures ViewOf(CommitState(s, c, put)) == ViewOf(s)[put.ck := Content(put.data, put.isFinal)]
  {
    assert CommitState(s, c, put).chunks == s.chunks[put.ck := RowFor(put.ck, put.data, put.isFinal)];
  }

  lemma DropEffect(s: State, s1: State, batch: set<EntryKey>)
    requires s1.chunks == WithoutRowsOf(s.chunks, batch)
    ensures ViewOf(s1) == map ck | ck in ViewOf(s) && ck.entry !in batch :: ViewOf(s)[ck]
  {
  }

  lemma StepEffect(s: State, step: Step)
    requires Next(s, step).Some?
    ensures ViewOf(Next(s, step).value) == Effect(ViewOf(s), s, step)
  {
    if step.Commit? {
      CommitEffect(s, step.c, s.calls[step.c]);
    } else if step.Drop? {
      DropEffect(s, Next(s, step).value, step.batch);
    } else {
      assert Next(s, step).value.chunks == s.chunks;
    }
  }

  lemma {:induction false} ViewTracksRun(s: State, steps: seq<Step>)
    requires Run(s, steps).Some?
    ensures ViewOf(Run(s, steps).value) == Track(ViewOf(s), s, steps)
    decreases |steps|
  {
    if steps != [] {
      StepEffect(s, steps[0]);
      ViewTracksRun(Next(s, steps[0]).value, steps[1..]);
    }
  }

  datatype ReadError = FinalityMismatch | BlobMissing | Corrupted | BadTag | SqlUnreadable | FileUnreadable

  /** `get_chunk`: the row decides which blob to open, and the blob must be whole and authentic. */
  function GetChunk(s: State, ck: ChunkKey, isFinal: bool): Result<Option<seq<Byte>>, ReadError> {
    if ck !in s.chunks then Ok(None) else ReadBlob(s.chunks[ck], ck, isFinal, s.disk)
  }

  /** The second half of a read, which comes to the disk some time after the row was looked up. */
  function ReadBlob(row: ChunkRow, ck: ChunkKey, isFinal: bool, disk: Disk): Result<Option<seq<Byte>>, ReadError> {
    if isFinal != row.isFinal then Err(FinalityMismatch)
    else
      var id := GenId(ck, row.hash, isFinal);
      if id !in disk then Err(BlobMissing)
      else if |disk[id].cells| != row.size then Err(Corrupted)
      else
        match Decrypt(id, disk[id].cells, row.tag)
        case None => Err(BadTag)
        case Some(data) => Ok(Some(data))
  }

  /** The answer the abstract map calls for. */
  function Expected(view: View, ck: ChunkKey, isFinal: bool): Result<Option<seq<Byte>>, ReadError> {
    if ck !in view then Ok(None)
    else if view[ck].isFinal != isFinal then Err(FinalityMismatch)
    else Ok(Some(view[ck].data))
  }

  lemma ReadMeetsView(s: State, ck: ChunkKey, isFinal: bool)
    requires Inv(s)
    ensures GetChunk(s, ck, isFinal) == Expected(ViewOf(s), ck, isFinal)
  {
    if ck in s.chunks {
      var row := s.chunks[ck];
      assert RowOk(s, ck, row) && FullOnDisk(s, row.blobId);
    }
  }

  /**
   Whatever the disk holds, a read with the stored finality flag gives back the
   committed content or an error, and the content if and only if the file is intact.
   */
  lemma ReadIntactIff(s: State, ck: ChunkKey)
    requires RowsOk(s) && ck in s.chunks
    ensures var row := s.chunks[ck];
            var r := GetChunk(s, ck, row.isFinal);
            && (r.Ok? ==> r.value == Some(row.hash.content) == Some(ViewOf(s)[ck].data))
            && (r.Ok? <==> FullOnDisk(s, row.blobId))
            && (r == Err(BlobMissing) <==> row.blobId !in s.disk)
            && (r == Err(Corrupted) <==> row.blobId in s.disk && |s.disk[row.blobId].cells| != row.size)
            && (r.Err? ==> r.error in {BlobMissing, Corrupted, BadTag})
  {
    var row := s.chunks[ck];
    assert RowOk(s, ck, row);
    var id, content := row.blobId, row.hash.content;
    if id in s.disk {
      DecryptExact(id, s.disk[id].cells, row.tag, content);
      assert FullBlob(id) == Encrypt(id, content);
    }
  }

  /** A file made for another chunk, or for other content, is refused where this one's should be. */
  lemma ForeignFileRefused(s: State, ck: ChunkKey, id: BlobId, data: seq<Byte>)
    requires RowsOk(s) && ck in s.chunks && s.chunks[ck].blobId in s.disk
    requires s.disk[s.chunks[ck].blobId].cells == Encrypt(id, data)
    requires data != s.chunks[ck].hash.content || (data != [] && id != s.chunks[ck].blobId)
    ensures GetChunk(s, ck, s.chunks[ck].isFinal).Err?
  {
    var row := s.chunks[ck];
    ReadIntactIff(s, ck);
    assert RowOk(s, ck, row);
    if FullOnDisk(s, row.blobId) {
      EncryptInjective(id, data, row.blobId, row.hash.content);
    }
  }

  /**
   A read overlapping other calls: the row is looked up in `s`, the file read
   after any orderly run. The answer is what was committed when the row was
   looked up, unless the file is gone or of another length, and then the error
   says which; and no error if the row still stands at the end.
   */
  lemma OverlappingRead(s: State, steps: seq<Step>, ck: ChunkKey)
    requires Inv(s) && OrderlyRun(s, steps) && Run(s, steps).Some? && ck in s.chunks
    ensures var row := s.chunks[ck];
            var s1 := Run(s, steps).value;
            var r := ReadBlob(row, ck, row.isFinal, s1.disk);
            && (r == Err(BlobMissing) <==> row.blobId !in s1.disk)
            && (r == Err(Corrupted) <==> row.blobId in s1.disk && |s1.disk[row.blobId].cells| != row.size)
            && (r.Ok? || r == Err(BlobMissing) || r == Err(Corrupted))
            && (r.Ok? ==> r.value == Some(row.hash.content) == Some(ViewOf(s)[ck].data))
            && (Referenced(s1, row.blobId) ==> r.Ok?)
  {
    OrderlyRunSafe(s, steps);
    StillWholeOrShort(s, Run(s, steps).value, ck);
  }

  lemma StillWholeOrShort(s: State, s1: State, ck: ChunkKey)
    requires Inv(s) && Inv(s1) && ck in s.chunks
    ensures var row := s.chunks[ck];
            var r := ReadBlob(row, ck, row.isFinal, s1.disk);
            && (r == Err(BlobMissing) <==> row.blobId !in s1.disk)
            && (r == Err(Corrupted) <==> row.blobId in s1.disk && |s1.disk[row.blobId].cells| != row.size)
            && (r.Ok? || r == Err(BlobMissing) || r == Err(Corrupted))
            && (r.Ok? ==> r.value == Some(row.hash.content) == Some(ViewOf(s)[ck].data))
            && (Referenced(s1, row.blobId) ==> r.Ok?)
  {
    var row := s.chunks[ck];
    assert RowOk(s, ck, row);
    var id, content := row.blobId, row.hash.content;
    if Referenced(s1, id) {
      ReferencedByOwnRow(s1, id);
      assert FullOnDisk(s1, s1.chunks[id.ck].blobId);
    }
    if id in s1.disk {
      var cells := s1.disk[id].cells;
      assert cells <= FullBlob(id);
      assert |cells| == row.size ==> cells == FullBlob(id);
      DecryptExact(id, cells, row.tag, content);
    }
  }

  /**
   Refinement over whole runs: after any orderly run, wherever its calls
   stopped, a chunk reads back as exactly what was committed last for its index
   since its entry was last removed or pruned.
   */
  lemma ReadsLastCommit(s: State, steps: seq<Step>, ck: ChunkKey, isFinal: bool)
    requires Inv(s) && OrderlyRun(s, steps) && Run(s, steps).Some?
    ensures GetChunk(Run(s, steps).value, ck, isFinal) == Expected(Track(ViewOf(s), s, steps), ck, isFinal)
  {
    OrderlyRunSafe(s, steps);
    ViewTracksRun(s, steps);
    ReadMeetsView(Run(s, steps).value, ck, isFinal);
  }

  /** The same for serialized calls with crashes, and for a server under the grace period. */
  lemma ReadsLastCommitEitherWay(s: State, steps: seq<Step>, ck: ChunkKey, isFinal: bool)
    requires Inv(s) && Run(s, steps).Some?
    requires SerialRun(s, steps) || (AllSheltered(s) && DisciplinedRun(s, steps))
    ensures GetChunk(Run(s, steps).value, ck, isFinal) == Expected(Track(ViewOf(s), s, steps), ck, isFinal)
  {
    if SerialRun(s, steps) {
      SerialRunSafe(s, steps);
    } else {
      DisciplinedRunSafe(s, steps);
    }
    ReadsLastCommit(s, steps, ck, isFinal);
  }

  /** A file cut into chunks of 5 MiB, the last one final and possibly shorter. */
  function Split(file: seq<Byte>): (chunks: seq<Content>)
    ensures |chunks| > 0
    ensures forall i :: 0 <= i < |chunks| ==> chunks[i].isFinal == (i == |chunks| - 1)
    ensures forall i :: 0 <= i < |chunks| ==> ValidSize(|chunks[i].data|, chunks[i].isFinal)
    decreases |file|
  {
    if |file| <= CHUNK_SIZE then [Content(file, true)]
    else [Content(file[..CHUNK_SIZE], false)] + Split(file[CHUNK_SIZE..])
  }

  function Join(chunks: seq<Content>): seq<Byte> {
    if chunks == [] then [] else chunks[0].data + Join(chunks[1..])
  }

  lemma {:induction false} JoinSplit(file: seq<Byte>)
    ensures Join(Split(file)) == file
    decreases |file|
  {
    if |file| <= CHUNK_SIZE {
      assert Split(file)[1..] == [];
    } else {
      JoinSplit(file[CHUNK_SIZE..]);
      assert Split(file)[1..] == Split(file[CHUNK_SIZE..]);
      assert file == file[..CHUNK_SIZE] + file[CHUNK_SIZE..];
    }
  }

  /**
   Whatever the run commits at `k` are chunks of the file at their indices, in
   any order and any number of times, and with those in `done` it is all of
   them; it does not remove `k`, and does as it likes elsewhere.
   */
  ghost predicate Uploads(s: State, steps: seq<Step>, k: EntryKey, chunks: seq<Content>, done: set<int>)
    decreases |steps|
  {
    if steps == [] then forall i :: 0 <= i < |chunks| ==> i in done
    else
      Next(s, steps[0]).Some? &&
      var s1 := Next(s, steps[0]).value;
      match steps[0]
      case Commit(c) =>
        var put := s.calls[c];
        if put.ck.entry != k then Uploads(s1, steps[1..], k, chunks, done)
        else
          && 0 <= put.ck.idx < |chunks|
          && Content(put.data, put.isFinal) == chunks[put.ck.idx]
          && Uploads(s1, steps[1..], k, chunks, done + {put.ck.idx})
      case Drop(_, batch, _) => k !in batch && Uploads(s1, steps[1..], k, chunks, done)
      case _ => Uploads(s1, steps[1..], k, chunks, done)
  }

  /** The entry's chunk rows are the chunks in `done`, by index. */
  ghost predicate HoldsChunks(view: View, k: EntryKey, chunks: seq<Content>, done: set<int>) {
    && (forall ck :: ck in view && ck.entry == k ==>
          ck.idx in done && 0 <= ck.idx < |chunks| && view[ck] == chunks[ck.idx])
    && (forall i: i64 :: i in done ==> ChunkKey(k, i) in view)
  }

  lemma CommitHolds(view: View, ck: ChunkKey, content: Content, k: EntryKey, chunks: seq<Content>, done: set<int>)
    requires HoldsChunks(view, k, chunks, done)
    requires ck.entry == k ==> 0 <= ck.idx < |chunks| && content == chunks[ck.idx]
    ensures HoldsChunks(view[ck := content], k, chunks, if ck.entry == k then done + {ck.idx} else done)
  {
    if ck.entry == k {
      assert ck == ChunkKey(k, ck.idx);
    }
  }

  lemma DropHolds(view: View, batch: set<EntryKey>, k: EntryKey, chunks: seq<Content>, done: set<int>)
    requires HoldsChunks(view, k, chunks, done) && k !in batch
    ensures HoldsChunks(map ck | ck in view && ck.entry !in batch :: view[ck], k, chunks, done)
  {
  }

  lemma {:induction false} UploadHolds(s: State, steps: seq<Step>, k: EntryKey, chunks: seq<Content>, done: set<int>)
    returns (all: set<int>)
    requires Uploads(s, steps, k, chunks, done) && HoldsChunks(ViewOf(s), k, chunks, done)
    ensures Run(s, steps).Some? && HoldsChunks(ViewOf(Run(s, steps).value), k, chunks, all)
    ensures forall i :: 0 <= i < |chunks| ==> i in all
    decreases |steps|
  {
    if steps == [] {
      all := done;
    } else {
      hide ViewOf, HoldsChunks, Next;
      var s1 := Next(s, steps[0]).value;
      StepEffect(s, steps[0]);
      match steps[0] {
        case Commit(c) =>
          var put := s.calls[c];
          CommitHolds(ViewOf(s), put.ck, Content(put.data, put.isFinal), k, chunks, done);
          all := UploadHolds(s1, steps[1..], k, chunks, if put.ck.entry == k then done + {put.ck.idx} else done);
        case Drop(_, batch, _) =>
          DropHolds(ViewOf(s), batch, k, chunks, done);
          all := UploadHolds(s1, steps[1..], k, chunks, done);
        case _ =>
          all := UploadHolds(s1, steps[1..], k, chunks, done);
      }
    }
  }

  /** Reading a file back: chunk by chunk, the last one as final. */
  function ReadFile(s: State, k: EntryKey, from: nat, n: nat): Option<seq<Byte>>
    requires from <= n < TWO_TO_63
    decreases n - from
  {
    if from == n then Some([])
    else
      match GetChunk(s, ChunkKey(k, from), from == n - 1)
      case Ok(Some(data)) =>
        (match ReadFile(s, k, from + 1, n)
         case Some(rest) => Some(data + rest)
         case None => None)
      case _ => None
  }

  predicate Has(view: View, ck: ChunkKey, content: Content) {
    ck in view && view[ck] == content
  }

  lemma {:induction false} ReadFileJoins(s: State, k: EntryKey, chunks: seq<Content>, from: nat)
    requires Inv(s) && forall i: i64 :: 0 <= i < |chunks| ==> Has(ViewOf(s), ChunkKey(k, i), chunks[i])
    requires from <= |chunks| < TWO_TO_63
    requires forall i :: 0 <= i < |chunks| ==> chunks[i].isFinal == (i == |chunks| - 1)
    ensures ReadFile(s, k, from, |chunks|) == Some(Join(chunks[from..]))
    decreases |chunks| - from
  {
    if from < |chunks| {
      var ck := ChunkKey(k, from);
      ReadMeetsView(s, ck, from == |chunks| - 1);
      assert Has(ViewOf(s), ck, chunks[from]);
      ReadFileJoins(s, k, chunks, from + 1);
      assert chunks[from..][1..] == chunks[from + 1..];
    }
  }

  lemma {:induction false} CountFirst(k: EntryKey, keys: set<ChunkKey>, n: nat)
    requires n < TWO_TO_63
    requires forall ck :: ck in keys <==> ck.entry == k && 0 <= ck.idx < n
    ensures |keys| == n
  {
    if n == 0 {
      assert keys == {};
    } else {
      var last := ChunkKey(k, n - 1);
      CountFirst(k, keys - {last}, n - 1);
    }
  }

  /**
   Any file, cut into chunks and uploaded while the rest of the database
   carries on, reads back byte for byte, and the entry counts as many chunks as
   the file has. Chunks may be sent in any order, in parallel and again, and an
   upload may go on from what an earlier one left.
   */
  lemma FileRoundTrip(s: State, steps: seq<Step>, k: EntryKey, file: seq<Byte>, done: set<int>)
    requires Inv(s) && OrderlyRun(s, steps) && |Split(file)| < TWO_TO_63
    requires HoldsChunks(ViewOf(s), k, Split(file), done)
    requires Uploads(s, steps, k, Split(file), done)
    ensures var run := Run(s, steps);
            && run.Some?
            && ReadFile(run.value, k, 0, |Split(file)|) == Some(file)
            && CountChunks(run.value.chunks, k) == |Split(file)|
  {
    hide Inv, OrderlyRun, Uploads, Join;
    var chunks := Split(file);
    var all := UploadHolds(s, steps, k, chunks, done);
    OrderlyRunSafe(s, steps);
    var s1 := Run(s, steps).value;
    HeldIsRead(s1, k, chunks, all);
    assert chunks[0..] == chunks;
    JoinSplit(file);
  }

  lemma HeldIsRead(s: State, k: EntryKey, chunks: seq<Content>, all: set<int>)
    requires Inv(s) && |chunks| < TWO_TO_63 && HoldsChunks(ViewOf(s), k, chunks, all)
    requires forall i :: 0 <= i < |chunks| ==> i in all
    requires forall i :: 0 <= i < |chunks| ==> chunks[i].isFinal == (i == |chunks| - 1)
    ensures ReadFile(s, k, 0, |chunks|) == Some(Join(chunks[0..]))
    ensures CountChunks(s.chunks, k) == |chunks|
  {
    forall i: i64 | 0 <= i < |chunks|
      ensures Has(ViewOf(s), ChunkKey(k, i), chunks[i])
    {
      assert i in all;
    }
    ReadFileJoins(s, k, chunks, 0);
    var keys := RowsOf(s.chunks, {k});
    forall ck
      ensures ck in keys <==> ck.entry == k && 0 <= ck.idx < |chunks|
    {
      assert ck in keys <==> ck in ViewOf(s) && ck.entry == k;
      if ck.entry == k && 0 <= ck.idx < |chunks| {
        assert Has(ViewOf(s), ChunkKey(k, ck.idx), chunks[ck.idx]);
        assert ck == ChunkKey(k, ck.idx);
      }
    }
    CountFirst(k, keys, |chunks|);
  }

  /** In every reachable state: chunk sizes, parent entries and blob ids as the readers expect them. */
  lemma RowsAsReadersExpect(s: State, steps: seq<Step>, ck: ChunkKey)
    requires Inv(s) && OrderlyRun(s, steps) && Run(s, steps).Some?
    ensures var s1 := Run(s, steps).value;
            ck in s1.chunks ==>
              var row := s1.chunks[ck];
              && ck.entry in s1.entries
              && (if row.isFinal then 0 <= row.size <= 5_242_880 else row.size == 5_242_880)
              && row.blobId == GenId(ck, row.hash, row.isFinal)
              && forall other :: other in s1.chunks && s1.chunks[other].blobId == row.blobId ==> other == ck
  {
    OrderlyRunSafe(s, steps);
    var s1 := Run(s, steps).value;
    if ck in s1.chunks {
      assert RowOk(s1, ck, s1.chunks[ck]);
      forall other | other in s1.chunks && s1.chunks[other].blobId == s1.chunks[ck].blobId
        ensures other == ck
      {
        EachBlobOneRow(s1, other, ck);
      }
    }
  }
}
