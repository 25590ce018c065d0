/**
 How a committed row can lose its file: exactly which steps do it, and runs
 that disregard one clause of the discipline once and do it.
 */
module Hazards {
  import opened Wrappers
  import opened Bytes
  import opened Entries
  import opened Blobs
  import opened Protocol
  import opened Safety
  import opened Grace

  /**
   Which steps can take a row's backing away: removing a referenced blob,
   writing less than all of one, or committing a row whose file is not complete. No other.
   */
  ghost predicate Harmful(s: State, step: Step) {
    match step
    case Unlink(c, removed) =>
      c in s.calls && Target(s.calls[c]).Some? && removed && Referenced(s, Target(s.calls[c]).value)
    case WriteSome(c, n) =>
      c in s.calls && s.calls[c].Put? && n < |s.calls[c].data| && Referenced(s, PutId(s.calls[c]))
    case Commit(c) =>
      c in s.calls && s.calls[c].Put? && !FullOnDisk(s, PutId(s.calls[c]))
    case _ => false
  }

  lemma BackingLostIffHarmful(s: State, step: Step)
    requires RowsBacked(s) && Next(s, step).Some?
    ensures RowsBacked(Next(s, step).value) <==> !Harmful(s, step)
  {
    match step
    case Unlink(_, _) => UnlinkHarm(s, step);
    case WriteSome(_, _) => WriteHarm(s, step);
    case WriteAll(c) =>
      var put := s.calls[c];
      assert Encrypt(PutId(put), put.data)[..|put.data|] == FullBlob(PutId(put));
      UnharmedBacked(s, Next(s, step).value);
    case Commit(_) => CommitHarm(s, step);
    case _ =>
      UnharmedBacked(s, Next(s, step).value);
  }

  lemma UnlinkHarm(s: State, step: Step)
    requires RowsBacked(s) && step.Unlink? && Next(s, step).Some?
    ensures RowsBacked(Next(s, step).value) <==> !Harmful(s, step)
  {
    hide Encrypt;
    var s1 := Next(s, step).value;
    if Harmful(s, step) {
      var id := Target(s.calls[step.c]).value;
      var ck :| ck in s.chunks && s.chunks[ck].blobId == id;
      assert !FullOnDisk(s1, s1.chunks[ck].blobId);
    } else {
      UnharmedBacked(s, s1);
    }
  }

  lemma WriteHarm(s: State, step: Step)
    requires RowsBacked(s) && step.WriteSome? && Next(s, step).Some?
    ensures RowsBacked(Next(s, step).value) <==> !Harmful(s, step)
  {
    var s1 := Next(s, step).value;
    var put, n := s.calls[step.c], step.n;
    var id := PutId(put);
    if Harmful(s, step) {
      var ck :| ck in s.chunks && s.chunks[ck].blobId == id;
      assert |s1.disk[id].cells| == n < |FullBlob(id)|;
      assert !FullOnDisk(s1, s1.chunks[ck].blobId);
    } else {
      assert n == |put.data| ==> Encrypt(id, put.data)[..n] == FullBlob(id);
      UnharmedBacked(s, s1);
    }
  }

  lemma CommitHarm(s: State, step: Step)
    requires RowsBacked(s) && step.Commit? && Next(s, step).Some?
    ensures RowsBacked(Next(s, step).value) <==> !Harmful(s, step)
  {
    hide Encrypt;
    var s1 := Next(s, step).value;
    var put := s.calls[step.c];
    assert put.ck in s1.chunks && s1.chunks[put.ck].blobId == PutId(put);
    assert FullOnDisk(s1, PutId(put)) <==> FullOnDisk(s, PutId(put));
    forall ck | ck in s1.chunks && ck != put.ck
      ensures FullOnDisk(s1, s1.chunks[ck].blobId)
    {
      assert FullOnDisk(s, s.chunks[ck].blobId);
    }
  }

  lemma UnharmedBacked(s: State, s1: State)
    requires RowsBacked(s)
    requires forall ck :: ck in s1.chunks ==> ck in s.chunks && s1.chunks[ck] == s.chunks[ck]
    requires forall id :: Referenced(s, id) && FullOnDisk(s, id) ==> FullOnDisk(s1, id)
    ensures RowsBacked(s1)
  {
    forall ck | ck in s1.chunks
      ensures FullOnDisk(s1, s1.chunks[ck].blobId)
    {
      assert FullOnDisk(s, s.chunks[ck].blobId) && Referenced(s, s.chunks[ck].blobId);
    }
  }

  /** Every step but the one numbered `slip` keeps the discipline. */
  ghost predicate DisciplinedBut(s: State, steps: seq<Step>, slip: int)
    decreases |steps|
  {
    steps == [] ||
    ((slip == 0 || Disciplined(s, steps[0]))
     && (Next(s, steps[0]).Some? ==> DisciplinedBut(Next(s, steps[0]).value, steps[1..], slip - 1)))
  }

  /** A run from a sound state that slips once and leaves a committed row without its complete file. */
  ghost predicate OneSlipLoses(s: State, steps: seq<Step>, slip: int, ck: ChunkKey) {
    && Inv(s) && AllSheltered(s)
    && DisciplinedBut(s, steps, slip)
    && var run := Run(s, steps);
       && run.Some?
       && ck in run.value.chunks && !FullOnDisk(run.value, run.value.chunks[ck].blobId)
  }

  /** A run given by the states it goes through. */
  ghost predicate Passes(states: seq<State>, steps: seq<Step>, slip: int) {
    && |states| == |steps| + 1
    && forall i :: 0 <= i < |steps| ==>
         Next(states[i], steps[i]) == Some(states[i + 1]) && (i == slip || Disciplined(states[i], steps[i]))
  }

  lemma {:induction false} PassesRuns(states: seq<State>, steps: seq<Step>, slip: int)
    requires Passes(states, steps, slip)
    ensures Run(states[0], steps) == Some(states[|steps|]) && DisciplinedBut(states[0], steps, slip)
    decreases |steps|
  {
    if steps != [] {
      hide Next, Disciplined;
      assert Next(states[0], steps[0]) == Some(states[1]);
      PassesRuns(states[1..], steps[1..], slip - 1);
    }
  }

  /** Two databases with one entry and nothing under way: without chunks, and with one. */
  function OneEntry(k: EntryKey, now: nat): State {
    State(map[k := Entry(1, None, None)], map[], map[], now, map[])
  }

  function OneChunk(ck: ChunkKey, data: seq<Byte>, now: nat): State {
    var row := RowFor(ck, data, true);
    OneEntry(ck.entry, now).(chunks := map[ck := row], disk := map[row.blobId := File(Encrypt(row.blobId, data), now)])
  }

  /** An entry whose chunk was written once but never committed; the file has been lying there since time 0. */
  function OldLeftover(ck: ChunkKey, data: seq<Byte>, now: nat): State {
    var id := GenId(ck, Sha256(data), true);
    OneEntry(ck.entry, now).(disk := map[id := File(Encrypt(id, data), 0)])
  }

  lemma StartsSound(ck: ChunkKey, data: seq<Byte>, now: nat)
    requires |data| <= CHUNK_SIZE
    ensures Inv(OneEntry(ck.entry, now)) && AllSheltered(OneEntry(ck.entry, now))
    ensures Inv(OneChunk(ck, data, now)) && AllSheltered(OneChunk(ck, data, now))
    ensures Inv(OldLeftover(ck, data, now)) && AllSheltered(OldLeftover(ck, data, now))
  {
  }

  lemma BeginNext(s: State, c: CallId, put: Call)
    requires put.Put? && put.stage.Begun? && ValidSize(|put.data|, put.isFinal) && c !in s.calls
    ensures Next(s, Begin(c, put.ck, put.data, put.isFinal)) == Some(Become(s, c, put))
  {
  }

  /** A call may begin when nothing else is under way and its file is absent, referenced or young. */
  lemma BeginAlone(s: State, c: CallId, put: Call)
    requires put.Put? && put.stage.Begun? && s.calls == map[] && Sheltered(s, put, s.now)
    ensures Disciplined(s, Begin(c, put.ck, put.data, put.isFinal))
  {
  }

  lemma StatNext(s: State, c: CallId, put: Call)
    requires c in s.calls && s.calls[c] == put && put.Put? && put.stage.Begun?
    ensures Next(s, Stat(c)) == Some(Become(s, c, put.(stage := StatStage(s.disk, PutId(put), |put.data|))))
    ensures Disciplined(s, Stat(c))
  {
  }

  lemma WriteAllNext(s: State, c: CallId, put: Call)
    requires c in s.calls && s.calls[c] == put && put.Put? && put.stage.Writing?
    ensures Next(s, WriteAll(c)) == Some(Become(WriteState(s, put, |put.data|), c, put.(stage := Ready(true))))
    ensures Disciplined(s, WriteAll(c))
  {
  }

  lemma CommitFailsNext(s: State, c: CallId, put: Call)
    requires c in s.calls && s.calls[c] == put && put.Put? && put.stage == Ready(true)
    ensures Next(s, CommitFails(c)) == Some(Become(s, c, put.(stage := Undo)))
    ensures Disciplined(s, CommitFails(c))
  {
  }

  lemma FirstCommitNext(s: State, c: CallId, put: Call)
    requires c in s.calls && s.calls[c] == put && put.Put? && put.stage.Ready?
    requires put.ck.entry in s.entries && put.ck !in s.chunks
    ensures Next(s, Commit(c)) == Some(WithRow(End(s, c), put))
    ensures Disciplined(s, Commit(c))
  {
  }

  lemma UnlinkNext(s: State, c: CallId, id: BlobId)
    requires c in s.calls && Target(s.calls[c]) == Some(id)
    ensures Next(s, Unlink(c, true)) == Some(UnlinkState(s, c, true))
    ensures UnlinkState(s, c, true).chunks == s.chunks && id !in UnlinkState(s, c, true).disk
    ensures Disciplined(s, Unlink(c, true))
  {
  }

  lemma ExamineNext(s: State, c: CallId, id: BlobId)
    requires c !in s.calls && id in s.disk && s.disk[id].mtime + CLEANUP_GRACE <= s.now && s.chunks == map[]
    ensures var s1 := Become(s, c, Examining(id));
            && Next(s, Stale(c, id)) == Some(s1)
            && Next(s1, Query(c)) == Some(Become(s1, c, Doomed(id)))
            && Disciplined(s, Stale(c, id)) && Disciplined(s1, Query(c))
  {
  }

  /** Two uploads of the same chunk at once: one skips the write, the other fails and removes the file. */
  function OverlappingUploads(ck: ChunkKey, data: seq<Byte>): seq<Step> {
    [Begin(0, ck, data, true), Begin(1, ck, data, true), Stat(0), WriteAll(0),
     Stat(1), CommitFails(0), Commit(1), Unlink(0, true)]
  }

  /** Only the second `Begin` slips: a foreground call on the entry is under way. */
  lemma OverlapLosesBlob(ck: ChunkKey, data: seq<Byte>, now: nat)
    requires |data| <= CHUNK_SIZE
    ensures OneSlipLoses(OneEntry(ck.entry, now), OverlappingUploads(ck, data), 1, ck)
  {
    hide Next, Disciplined, Inv, AllSheltered, Encrypt;
    var s0, put := OneEntry(ck.entry, now), Put(ck, data, true, Begun);
    StartsSound(ck, data, now);
    BeginAlone(s0, 0, put);
    BeginNext(s0, 0, put);
    var s1 := Become(s0, 0, put);
    BeginNext(s1, 1, put);
    var s2 := Become(s1, 1, put);
    var s3, s4 := StoresBeside(s2, put);
    var s5, s6, s7, s8 := SecondSkipsFirstFails(s4, put);
    hide Become, OneEntry, PutId;
    PassesRuns([s0, s1, s2, s3, s4, s5, s6, s7, s8], OverlappingUploads(ck, data), 1);
  }

  /** One of two uploads that have begun finds no file and writes it. */
  lemma StoresBeside(s: State, put: Call) returns (s1: State, s2: State)
    requires put.Put? && put.stage.Begun? && s.calls == map[0 := put, 1 := put] && PutId(put) !in s.disk
    ensures Next(s, Stat(0)) == Some(s1) && Disciplined(s, Stat(0))
    ensures Next(s1, WriteAll(0)) == Some(s2) && Disciplined(s1, WriteAll(0))
    ensures s2.calls == map[0 := put.(stage := Ready(true)), 1 := put]
    ensures s2.entries == s.entries && s2.chunks == s.chunks
    ensures PutId(put) in s2.disk && |s2.disk[PutId(put)].cells| == |put.data|
  {
    hide Next, Disciplined, Encrypt;
    var writing := put.(stage := Writing);
    StatNext(s, 0, put);
    s1 := Become(s, 0, writing);
    WriteAllNext(s1, 0, writing);
    s2 := Become(WriteState(s1, writing, |put.data|), 0, put.(stage := Ready(true)));
  }

  /** The other half of the overlap: the file is there, and both calls are under way. */
  lemma SecondSkipsFirstFails(s4: State, put: Call) returns (s5: State, s6: State, s7: State, s8: State)
    requires put.Put? && put.stage.Begun? && put.ck.entry in s4.entries && s4.chunks == map[]
    requires s4.calls == map[0 := put.(stage := Ready(true)), 1 := put]
    requires PutId(put) in s4.disk && |s4.disk[PutId(put)].cells| == |put.data|
    ensures Next(s4, Stat(1)) == Some(s5) && Disciplined(s4, Stat(1))
    ensures Next(s5, CommitFails(0)) == Some(s6) && Disciplined(s5, CommitFails(0))
    ensures Next(s6, Commit(1)) == Some(s7) && Disciplined(s6, Commit(1))
    ensures Next(s7, Unlink(0, true)) == Some(s8) && Disciplined(s7, Unlink(0, true))
    ensures put.ck in s8.chunks && !FullOnDisk(s8, s8.chunks[put.ck].blobId)
  {
    hide Next, Disciplined, Encrypt;
    var wrote, skips := put.(stage := Ready(true)), put.(stage := Ready(false));
    StatNext(s4, 1, put);
    s5 := Become(s4, 1, skips);
    CommitFailsNext(s5, 0, wrote);
    s6 := Become(s5, 0, put.(stage := Undo));
    FirstCommitNext(s6, 1, skips);
    s7 := WithRow(End(s6, 1), skips);
    UnlinkNext(s7, 0, PutId(put));
    s8 := UnlinkState(s7, 0, true);
  }

  /** An upload that dawdles past the grace period between its write and its commit. */
  function LateCommit(ck: ChunkKey, data: seq<Byte>, now: nat): seq<Step> {
    [Begin(0, ck, data, true), Stat(0), WriteAll(0), Tick(now + CLEANUP_GRACE),
     Stale(1, GenId(ck, Sha256(data), true)), Query(1), Commit(0), Unlink(1, true)]
  }

  /** Only the `Tick` slips. */
  lemma LateCommitLosesBlob(ck: ChunkKey, data: seq<Byte>, now: nat)
    requires |data| <= CHUNK_SIZE
    ensures OneSlipLoses(OneEntry(ck.entry, now), LateCommit(ck, data, now), 3, ck)
  {
    hide Next, Disciplined, Inv, AllSheltered, Encrypt;
    var s0, put := OneEntry(ck.entry, now), Put(ck, data, true, Begun);
    var late := now + CLEANUP_GRACE;
    StartsSound(ck, data, now);
    var s1, s2, s3 := StoresAlone(s0, 0, put);
    TickNext(s3, late);
    var s4 := s3.(now := late);
    var s5, s6, s7, s8 := CleanedUp(s4, 0, put.(stage := Ready(true)), 1);
    hide OneEntry, PutId;
    PassesRuns([s0, s1, s2, s3, s4, s5, s6, s7, s8], LateCommit(ck, data, now), 3);
  }

  /** An upload that runs alone up to its commit. */
  lemma StoresAlone(s: State, c: CallId, put: Call) returns (s1: State, s2: State, s3: State)
    requires put.Put? && put.stage.Begun? && ValidSize(|put.data|, put.isFinal)
    requires s.calls == map[] && PutId(put) !in s.disk
    ensures var begin := Begin(c, put.ck, put.data, put.isFinal);
            Next(s, begin) == Some(s1) && Disciplined(s, begin)
    ensures Next(s1, Stat(c)) == Some(s2) && Disciplined(s1, Stat(c))
    ensures Next(s2, WriteAll(c)) == Some(s3) && Disciplined(s2, WriteAll(c))
    ensures s3.calls == map[c := put.(stage := Ready(true))]
    ensures s3.entries == s.entries && s3.chunks == s.chunks && s3.now == s.now
    ensures PutId(put) in s3.disk && s3.disk[PutId(put)].mtime == s.now
  {
    hide Next, Disciplined, Encrypt;
    var writing := put.(stage := Writing);
    BeginAlone(s, c, put);
    BeginNext(s, c, put);
    s1 := Become(s, c, put);
    StatNext(s1, c, put);
    s2 := Become(s1, c, writing);
    WriteAllNext(s2, c, writing);
    s3 := Become(WriteState(s2, writing, |put.data|), c, put.(stage := Ready(true)));
  }

  /** Cleanup finds the file of a waiting upload stale and without a row; the row comes, and the file goes. */
  lemma CleanedUp(s: State, c: CallId, put: Call, d: CallId) returns (s1: State, s2: State, s3: State, s4: State)
    requires put.Put? && put.stage.Ready? && put.ck.entry in s.entries && s.chunks == map[]
    requires s.calls == map[c := put] && c != d
    requires PutId(put) in s.disk && s.disk[PutId(put)].mtime + CLEANUP_GRACE <= s.now
    ensures Next(s, Stale(d, PutId(put))) == Some(s1) && Disciplined(s, Stale(d, PutId(put)))
    ensures Next(s1, Query(d)) == Some(s2) && Disciplined(s1, Query(d))
    ensures Next(s2, Commit(c)) == Some(s3) && Disciplined(s2, Commit(c))
    ensures Next(s3, Unlink(d, true)) == Some(s4) && Disciplined(s3, Unlink(d, true))
    ensures put.ck in s4.chunks && !FullOnDisk(s4, s4.chunks[put.ck].blobId)
  {
    hide Next, Disciplined, Encrypt;
    var id := PutId(put);
    ExamineNext(s, d, id);
    s1 := Become(s, d, Examining(id));
    s2 := Become(s1, d, Doomed(id));
    FirstCommitNext(s2, c, put);
    s3 := WithRow(End(s2, c), put);
    UnlinkNext(s3, d, id);
    s4 := UnlinkState(s3, d, true);
  }

  /** An upload finds its file at full length and commits; a removal put off before takes the file. */
  lemma SkipsThenLoses(s: State, c: CallId, put: Call, d: CallId) returns (s1: State, s2: State, s3: State)
    requires put.Put? && put.stage.Begun? && put.ck.entry in s.entries && s.chunks == map[] && c != d
    requires s.calls == map[c := put, d := Removing([PutId(put)])]
    requires PutId(put) in s.disk && |s.disk[PutId(put)].cells| == |put.data|
    ensures Next(s, Stat(c)) == Some(s1) && Disciplined(s, Stat(c))
    ensures Next(s1, Commit(c)) == Some(s2) && Disciplined(s1, Commit(c))
    ensures Next(s2, Unlink(d, true)) == Some(s3) && Disciplined(s2, Unlink(d, true))
    ensures put.ck in s3.chunks && !FullOnDisk(s3, s3.chunks[put.ck].blobId)
  {
    hide Next, Disciplined, Encrypt;
    var skips := put.(stage := Ready(false));
    StatNext(s, c, put);
    s1 := Become(s, c, skips);
    FirstCommitNext(s1, c, skips);
    s2 := WithRow(End(s1, c), skips);
    UnlinkNext(s2, d, PutId(put));
    s3 := UnlinkState(s2, d, true);
  }

  lemma TickNext(s: State, to: nat)
    requires s.now <= to
    ensures Next(s, Tick(to)) == Some(s.(now := to))
  {
  }

  /** Prune drops the entry; before it gets to removing the file, the same chunk is uploaded again. */
  function ReuploadBeforeRemoval(ck: ChunkKey, data: seq<Byte>): seq<Step> {
    [Drop(0, {ck.entry}, [GenId(ck, Sha256(data), true)]), UpsertEntry(Write(ck.entry, Entry(2, None, None))),
     Begin(1, ck, data, true), Stat(1), Commit(1), Unlink(0, true)]
  }

  /** Only the `Begin` slips: a removal of its blob is still open. */
  lemma DeferredRemovalLosesBlob(ck: ChunkKey, data: seq<Byte>, now: nat)
    requires |data| <= CHUNK_SIZE
    ensures OneSlipLoses(OneChunk(ck, data, now), ReuploadBeforeRemoval(ck, data), 2, ck)
  {
    hide Next, Disciplined, Inv, AllSheltered, Encrypt;
    var s0, put := OneChunk(ck, data, now), Put(ck, data, true, Begun);
    var id, w := PutId(put), Write(ck.entry, Entry(2, None, None));
    StartsSound(ck, data, now);
    PruneNext(s0, put);
    var s1 := s0.(entries := map[], chunks := map[], calls := map[0 := Removing([id])]);
    ReturnNext(s1, w);
    var s2 := s1.(entries := map[w.key := w.entry]);
    BeginNext(s2, 1, put);
    var s3 := Become(s2, 1, put);
    var s4, s5, s6 := SkipsThenLoses(s3, 1, put, 0);
    hide Become, OneEntry, OneChunk, PutId;
    PassesRuns([s0, s1, s2, s3, s4, s5, s6], ReuploadBeforeRemoval(ck, data), 2);
  }

  lemma PruneNext(s: State, put: Call)
    requires put.Put? && s.calls == map[] && s.entries.Keys == {put.ck.entry}
    requires s.chunks == map[put.ck := RowFor(put.ck, put.data, put.isFinal)]
    ensures var prune := Drop(0, {put.ck.entry}, [PutId(put)]);
            && Next(s, prune) ==
               Some(s.(entries := map[], chunks := map[], calls := map[0 := Removing([PutId(put)])]))
            && Disciplined(s, prune)
  {
    var id, batch := PutId(put), {put.ck.entry};
    assert RowsOf(s.chunks, batch) == {put.ck} && BlobIdsOf([id], s.chunks, {put.ck});
    var s1 := Become(WithoutBatch(s, batch), 0, Removing([id]));
    assert s1.chunks == map[] && s1.entries == map[] && s1.calls == map[0 := Removing([id])];
  }

  lemma ReturnNext(s: State, w: Write)
    requires s.entries == map[] && forall c :: c in s.calls ==> !s.calls[c].Put?
    ensures Next(s, UpsertEntry(w)) == Some(s.(entries := map[w.key := w.entry]))
    ensures Disciplined(s, UpsertEntry(w))
  {
    assert UpsertOutcome(map[], w) == Applied;
  }

  /** A retry finds the complete file of an upload that crashed long ago; cleanup has found it too. */
  function RetryOnOldLeftover(ck: ChunkKey, data: seq<Byte>): seq<Step> {
    [Begin(0, ck, data, true), Stat(0), Stale(1, GenId(ck, Sha256(data), true)), Query(1), Commit(0), Unlink(1, true)]
  }

  /** Only the `Begin` slips: its file is neither referenced nor young, and skipping the write leaves it so. */
  lemma OldLeftoverLosesBlob(ck: ChunkKey, data: seq<Byte>, now: nat)
    requires |data| <= CHUNK_SIZE && CLEANUP_GRACE <= now
    ensures OneSlipLoses(OldLeftover(ck, data, now), RetryOnOldLeftover(ck, data), 0, ck)
  {
    hide Next, Disciplined, Inv, AllSheltered, Encrypt;
    var s0, put := OldLeftover(ck, data, now), Put(ck, data, true, Begun);
    var skips := put.(stage := Ready(false));
    StartsSound(ck, data, now);
    BeginNext(s0, 0, put);
    var s1 := Become(s0, 0, put);
    StatNext(s1, 0, put);
    assert StatStage(s1.disk, PutId(put), |data|) == Ready(false);
    var s2 := Become(s1, 0, skips);
    var s3, s4, s5, s6 := CleanedUp(s2, 0, skips, 1);
    hide Become, OneEntry, OldLeftover, StatStage, PutId;
    PassesRuns([s0, s1, s2, s3, s4, s5, s6], RetryOnOldLeftover(ck, data), 0);
  }

  /** An upload of a chunk that is already there, whose stat fails and whose write then stops at once. */
  function RewriteAfterFailedStat(ck: ChunkKey, data: seq<Byte>): seq<Step> {
    [Begin(0, ck, data, true), StatFails(0), WriteSome(0, 0)]
  }

  /** Only the failing stat slips. */
  lemma FailedStatLosesBlob(ck: ChunkKey, data: seq<Byte>, now: nat)
    requires 0 < |data| <= CHUNK_SIZE
    ensures OneSlipLoses(OneChunk(ck, data, now), RewriteAfterFailedStat(ck, data), 1, ck)
  {
    hide Disciplined, Inv, AllSheltered;
    var s0, put := OneChunk(ck, data, now), Put(ck, data, true, Begun);
    var id, writing, begin := PutId(put), put.(stage := Writing), Begin(0, ck, data, true);
    StartsSound(ck, data, now);
    BeginAlone(s0, 0, put) by {
      assert s0.chunks[ck].blobId == id;
    }
    BeginNext(s0, 0, put);
    var s1 := Become(s0, 0, put);
    assert Next(s1, StatFails(0)) == Some(Become(s1, 0, writing));
    var s2 := Become(s1, 0, writing);
    assert Next(s2, WriteSome(0, 0)) == Some(WriteState(s2, writing, 0));
    assert Disciplined(s2, WriteSome(0, 0)) by {
      WriteSomeDisciplined(s2, 0, 0);
    }
    var s3 := WriteState(s2, writing, 0);
    assert ck in s3.chunks && s3.chunks[ck].blobId == id && |s3.disk[id].cells| == 0 < |FullBlob(id)|;
    hide Next;
    PassesRuns([s0, s1, s2, s3], RewriteAfterFailedStat(ck, data), 1);
  }

  lemma WriteSomeDisciplined(s: State, c: CallId, n: nat)
    ensures Disciplined(s, WriteSome(c, n))
  {
  }
}
