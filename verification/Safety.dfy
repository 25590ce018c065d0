/**
 What keeps every committed row backed by its file. `Orderly` is the
 condition on a step that the protocol relies on; under it every reachable
 state, with calls stopped anywhere, satisfies `Inv`.
 */
module Safety {
  import opened Entries
  import opened Blobs
  import opened Protocol

  /** A row agrees with the identity `get_chunk` derives its blob from, and has its parent entry. */
  predicate RowOk(s: State, ck: ChunkKey, row: ChunkRow) {
    && ck.entry in s.entries
    && row == RowFor(ck, row.hash.content, row.isFinal)
    && ValidSize(row.size, row.isFinal)
  }

  predicate FullOnDisk(s: State, id: BlobId) {
    id in s.disk && s.disk[id].cells == FullBlob(id)
  }

  ghost predicate RowsOk(s: State) {
    forall ck :: ck in s.chunks ==> RowOk(s, ck, s.chunks[ck])
  }

  /** Every committed row has its complete ciphertext on disk. */
  ghost predicate RowsBacked(s: State) {
    forall ck :: ck in s.chunks ==> FullOnDisk(s, s.chunks[ck].blobId)
  }

  ghost predicate FilesArePrefixes(s: State) {
    forall id :: id in s.disk ==> s.disk[id].cells <= FullBlob(id)
  }

  /** The blobs a call is going to remove. */
  function Targets(call: Call): set<BlobId> {
    match call
    case Removing(ids) => set id | id in ids
    case _ => if Target(call).Some? then {Target(call).value} else {}
  }

  ghost predicate CallOk(s: State, call: Call) {
    && (forall id :: id in Targets(call) ==> !Referenced(s, id))
    && (call.Put? ==>
          && ValidSize(|call.data|, call.isFinal)
          && (call.stage == Writing || call.stage == Ready(true) ==> !Referenced(s, PutId(call)))
          && (call.stage.Ready? && call.ck.entry in s.entries ==> FullOnDisk(s, PutId(call))))
  }

  ghost predicate CallsOk(s: State) {
    forall c :: c in s.calls ==> CallOk(s, s.calls[c])
  }

  /** An upload that may yet commit: its entry is there. */
  predicate MayCommit(s: State, call: Call) {
    PreCommit(call) && call.ck.entry in s.entries
  }

  /**
   Another call does not endanger the blob of an upload. It is not about to
   remove it, nor examining it while no row references it. If it is an upload of
   the same chunk, it is either of the same blob, which is referenced already or
   which both are done storing without having written it; or it is of another
   blob and neither of the two is referenced, so neither can replace the other's.
   */
  ghost predicate Harmless(s: State, put: Call, other: Call)
    requires put.Put?
  {
    var id := PutId(put);
    && id !in Targets(other)
    && (other == Examining(id) ==> Referenced(s, id))
    && (PreCommit(other) && other.ck == put.ck ==>
          if PutId(other) == id then Referenced(s, id) || (put.stage == Ready(false) && other.stage == Ready(false))
          else !Referenced(s, id) && !Referenced(s, PutId(other)))
  }

  ghost predicate Compatible(s: State, put: Call, other: Call) {
    MayCommit(s, put) ==> Harmless(s, put, other)
  }

  ghost predicate CallsCompatible(s: State) {
    forall c1, c2 :: c1 in s.calls && c2 in s.calls && c1 != c2 ==> Compatible(s, s.calls[c1], s.calls[c2])
  }

  /** No two other uploads of the chunk share a blob that is not this one's: one could commit it and the other come too late. */
  ghost predicate Untwinned(calls: map<CallId, Call>, c: CallId, put: Call)
    requires put.Put?
  {
    forall d, e :: d in calls && e in calls && d != e && d != c && e != c && PreCommit(calls[d]) && PreCommit(calls[e])
                   && calls[d].ck == put.ck && PutId(calls[d]) == PutId(calls[e])
                   ==> PutId(calls[d]) == PutId(put)
  }

  ghost predicate CallsUntwinned(s: State) {
    forall c :: c in s.calls && MayCommit(s, s.calls[c]) ==> Untwinned(s.calls, c, s.calls[c])
  }

  ghost predicate Inv(s: State) {
    && RowsOk(s)
    && RowsBacked(s)
    && FilesArePrefixes(s)
    && CallsOk(s)
    && CallsCompatible(s)
    && CallsUntwinned(s)
  }

  /** Nothing is in the way of an upload: what it is about to commit is stored, and no other call endangers it. */
  ghost predicate Clear(s: State, c: CallId, put: Call)
    requires put.Put?
  {
    && (put.stage.Ready? ==> FullOnDisk(s, PutId(put)))
    && Untwinned(s.calls, c, put)
    && forall d :: d in s.calls && d != c ==> Harmless(s, put, s.calls[d])
  }

  /** A write that brings an entry into being, for which uploads may be waiting. */
  predicate Creates(s: State, w: Write) {
    w.key !in s.entries && UpsertOutcome(s.entries, w).Applied?
  }

  /**
   The way is clear for an upload when it begins and when its missing entry
   appears; stat does not fail on a blob that a row references; cleanup does not
   start on a blob that an upload may yet commit while no row references it.
   */
  ghost predicate Orderly(s: State, step: Step) {
    match step
    case UpsertEntry(w) =>
      Creates(s, w) ==>
        forall c :: c in s.calls && PreCommit(s.calls[c]) && s.calls[c].ck.entry == w.key ==> Clear(s, c, s.calls[c])
    case Begin(c, ck, data, isFinal) =>
      ck.entry in s.entries ==> Clear(s, c, Put(ck, data, isFinal, Begun))
    case StatFails(c) => c in s.calls && s.calls[c].Put? ==> !Referenced(s, PutId(s.calls[c]))
    case Stale(_, id) =>
      forall c :: c in s.calls && MayCommit(s, s.calls[c]) && PutId(s.calls[c]) == id ==> Referenced(s, id)
    case _ => true
  }

  ghost predicate OrderlyRun(s: State, steps: seq<Step>)
    decreases |steps|
  {
    steps == [] || (Orderly(s, steps[0]) && (Next(s, steps[0]).Some? ==> OrderlyRun(Next(s, steps[0]).value, steps[1..])))
  }

  /** A blob belongs to one chunk index, so replacing or dropping that row frees the blob. */
  lemma ReferencedByOwnRow(s: State, id: BlobId)
    requires RowsOk(s)
    ensures Referenced(s, id) <==> id.ck in s.chunks && s.chunks[id.ck].blobId == id
  {
    if Referenced(s, id) {
      var ck :| ck in s.chunks && s.chunks[ck].blobId == id;
      assert RowOk(s, ck, s.chunks[ck]);
    }
  }

  lemma EachBlobOneRow(s: State, ck1: ChunkKey, ck2: ChunkKey)
    requires RowsOk(s) && ck1 in s.chunks && ck2 in s.chunks
    requires s.chunks[ck1].blobId == s.chunks[ck2].blobId
    ensures ck1 == ck2
  {
    assert RowOk(s, ck1, s.chunks[ck1]) && RowOk(s, ck2, s.chunks[ck2]);
  }

  /** Calls ending or advancing without touching tables or disk. */
  lemma EndKeepsInv(s: State, c: CallId)
    requires Inv(s)
    ensures Inv(End(s, c))
  {
    var s1 := End(s, c);
    SameTables(s, s1);
    forall a | a in s1.calls && MayCommit(s1, s1.calls[a])
      ensures Untwinned(s1.calls, a, s1.calls[a])
    {
      assert Untwinned(s.calls, a, s.calls[a]);
    }
  }

  /** Obligations that depend only on tables and disk carry over when those stay. */
  lemma SameTables(s: State, s1: State)
    requires s1.entries == s.entries && s1.chunks == s.chunks && s1.disk == s.disk
    ensures RowsOk(s) ==> RowsOk(s1)
    ensures RowsBacked(s) ==> RowsBacked(s1)
    ensures FilesArePrefixes(s) ==> FilesArePrefixes(s1)
    ensures forall id :: Referenced(s1, id) <==> Referenced(s, id)
    ensures forall call :: CallOk(s, call) <==> CallOk(s1, call)
    ensures forall put, other :: Compatible(s, put, other) <==> Compatible(s1, put, other)
  {
    assert forall id :: Referenced(s1, id) <==> Referenced(s, id);
    assert forall id :: FullOnDisk(s1, id) <==> FullOnDisk(s, id);
    assert forall ck, row :: RowOk(s1, ck, row) <==> RowOk(s, ck, row);
  }

  /** A call takes a new shape, tables and disk as they are. */
  lemma BecomeKeepsInv(s: State, c: CallId, call: Call)
    requires Inv(s) && CallOk(s, call)
    requires forall d :: d in s.calls && d != c ==> Compatible(s, s.calls[d], call) && Compatible(s, call, s.calls[d])
    requires CallsUntwinned(Become(s, c, call))
    ensures Inv(Become(s, c, call))
  {
    SameTables(s, Become(s, c, call));
  }

  /** A call that becomes an upload of what it was before, or no upload about to commit, makes no twins. */
  lemma StaysUntwinned(s: State, c: CallId, call: Call)
    requires CallsUntwinned(s)
    requires PreCommit(call) ==>
               c in s.calls && PreCommit(s.calls[c]) && call.ck == s.calls[c].ck && PutId(call) == PutId(s.calls[c])
    ensures CallsUntwinned(Become(s, c, call))
  {
    var s1 := Become(s, c, call);
    forall a | a in s1.calls && MayCommit(s1, s1.calls[a])
      ensures Untwinned(s1.calls, a, s1.calls[a])
    {
      assert Untwinned(s.calls, a, s.calls[a]);
    }
  }

  /** Nor does an upload that begins with the way clear. */
  lemma BeginsUntwinned(s: State, c: CallId, put: Call)
    requires CallsUntwinned(s) && CallsCompatible(s) && c !in s.calls && put.Put? && put.stage.Begun?
    requires put.ck.entry in s.entries ==> Clear(s, c, put)
    ensures CallsUntwinned(Become(s, c, put))
  {
    var s1 := Become(s, c, put);
    forall a | a in s1.calls && MayCommit(s1, s1.calls[a])
      ensures Untwinned(s1.calls, a, s1.calls[a])
    {
      if a == c {
        assert Untwinned(s.calls, c, put);
      } else {
        assert Untwinned(s.calls, a, s.calls[a]);
        forall d | d in s.calls && d != a && PreCommit(s.calls[d]) && s.calls[d].ck == s.calls[a].ck
                   && PutId(s.calls[d]) == PutId(put)
          ensures PutId(put) == PutId(s.calls[a])
        {
          assert Harmless(s, put, s.calls[d]) && Compatible(s, s.calls[a], s.calls[d]);
        }
      }
    }
  }

  lemma TickKeepsInv(s: State, to: nat)
    requires Inv(s)
    ensures Inv(s.(now := to))
  {
    SameTables(s, s.(now := to));
  }

  lemma UpsertKeepsInv(s: State, w: Write)
    requires Inv(s) && Orderly(s, UpsertEntry(w))
    ensures Inv(s.(entries := Upsert(s.entries, w)))
  {
    var s1 := s.(entries := Upsert(s.entries, w));
    SameRows(s, s1);
    UpsertedKeys(s, w);
    hide Upsert, Creates, Referenced;
    forall c | c in s.calls
      ensures CallOk(s1, s1.calls[c])
    {
      assert CallOk(s, s.calls[c]);
    }
    forall c1, c2 | c1 in s.calls && c2 in s.calls && c1 != c2
      ensures Compatible(s1, s1.calls[c1], s1.calls[c2])
    {
      assert Compatible(s, s.calls[c1], s.calls[c2]);
    }
  }

  lemma UpsertedKeys(s: State, w: Write)
    ensures forall k :: k in Upsert(s.entries, w) <==> k in s.entries || (k == w.key && Creates(s, w))
  {
  }

  lemma SameRows(s: State, s1: State)
    requires s1.chunks == s.chunks
    ensures forall id :: Referenced(s1, id) <==> Referenced(s, id)
  {
  }

  /** Writing a blob touches no file that a row or another upload depends on. */
  lemma WriteKeepsInv(s: State, c: CallId, n: nat)
    requires Inv(s) && c in s.calls && s.calls[c].Put? && s.calls[c].stage.Writing? && n <= |s.calls[c].data|
    ensures Inv(WriteState(s, s.calls[c], n))
  {
    var put := s.calls[c];
    var s1 := WriteState(s, put, n);
    assert CallOk(s, put);
    assert forall id :: Referenced(s1, id) <==> Referenced(s, id);
    forall d | d in s.calls
      ensures CallOk(s1, s1.calls[d])
    {
      assert CallOk(s, s.calls[d]);
      assert d != c ==> Compatible(s, s.calls[d], put);
    }
    forall c1, c2 | c1 in s.calls && c2 in s.calls && c1 != c2
      ensures Compatible(s1, s1.calls[c1], s1.calls[c2])
    {
      assert Compatible(s, s.calls[c1], s.calls[c2]);
    }
  }

  /** Removing a blob that some call targets touches no file that a row or an upload depends on. */
  lemma UnlinkKeepsInv(s: State, c: CallId, id: BlobId)
    requires Inv(s) && c in s.calls && id in Targets(s.calls[c])
    ensures Inv(s.(disk := s.disk - {id}))
  {
    var call := s.calls[c];
    var s1 := s.(disk := s.disk - {id});
    assert CallOk(s, call);
    assert forall id :: Referenced(s1, id) <==> Referenced(s, id);
    forall d | d in s.calls
      ensures CallOk(s1, s1.calls[d])
    {
      assert CallOk(s, s.calls[d]);
      if d != c {
        assert Compatible(s, s.calls[d], call);
      }
    }
    forall c1, c2 | c1 in s.calls && c2 in s.calls && c1 != c2
      ensures Compatible(s1, s1.calls[c1], s1.calls[c2])
    {
      assert Compatible(s, s.calls[c1], s.calls[c2]);
    }
  }

  /** A row for a complete blob changes no other reference than to the blob it names and the one it named. */
  lemma InsertedRow(s: State, ck: ChunkKey, row: ChunkRow, id: BlobId)
    requires RowsOk(s) && RowsOk(s.(chunks := s.chunks[ck := row])) && row.blobId.ck == ck
    ensures var s1 := s.(chunks := s.chunks[ck := row]);
            && (id.ck != ck ==> (Referenced(s1, id) <==> Referenced(s, id)))
            && (id.ck == ck ==> (Referenced(s1, id) <==> id == row.blobId))
  {
    ReferencedByOwnRow(s, id);
    ReferencedByOwnRow(s.(chunks := s.chunks[ck := row]), id);
  }

  /** Committing the row of an upload for which the way is clear, the call itself being over. */
  lemma InsertKeepsInv(s: State, c: CallId, put: Call)
    requires Inv(s) && c !in s.calls && put.Put? && put.stage.Ready? && ValidSize(|put.data|, put.isFinal)
    requires put.ck.entry in s.entries && Clear(s, c, put)
    requires forall d :: d in s.calls ==> Compatible(s, s.calls[d], put)
    requires forall d1, d2 :: d1 in s.calls && d2 in s.calls && d1 != d2 ==> NoTwinOf(s, put, s.calls[d1], s.calls[d2])
    ensures Inv(WithRow(s, put))
  {
    var id, row := PutId(put), RowFor(put.ck, put.data, put.isFinal);
    var s1 := WithRow(s, put);
    assert RowsOk(s1) && RowsBacked(s1);
    forall other: BlobId
      ensures other.ck != put.ck ==> (Referenced(s1, other) <==> Referenced(s, other))
      ensures other.ck == put.ck ==> (Referenced(s1, other) <==> other == id)
    {
      InsertedRow(s, put.ck, row, other);
    }
    forall d | d in s.calls
      ensures CallOk(s1, s1.calls[d])
    {
      assert CallOk(s, s.calls[d]) && Harmless(s, put, s.calls[d]);
    }
    forall d1, d2 | d1 in s.calls && d2 in s.calls && d1 != d2
      ensures Compatible(s1, s1.calls[d1], s1.calls[d2])
    {
      CommittedBeside(s, s1, put, s.calls[d1], s.calls[d2]);
    }
  }

  ghost predicate NoTwinOf(s: State, put: Call, a: Call, b: Call)
    requires put.Put?
  {
    MayCommit(s, a) && PreCommit(b) && a.ck == b.ck == put.ck ==>
      PutId(a) == PutId(b) || (PutId(a) != PutId(put) && PutId(b) != PutId(put))
  }

  /** Two other calls are as harmless to each other after the commit as before it. */
  lemma CommittedBeside(s: State, s1: State, put: Call, a: Call, b: Call)
    requires put.Put? && put.stage.Ready? && put.ck.entry in s.entries && s1.entries == s.entries
    requires forall id: BlobId :: id.ck != put.ck ==> (Referenced(s1, id) <==> Referenced(s, id))
    requires forall id: BlobId :: id.ck == put.ck ==> (Referenced(s1, id) <==> id == PutId(put))
    requires Compatible(s, a, b) && Compatible(s, a, put) && Compatible(s, b, put)
    requires NoTwinOf(s, put, a, b)
    ensures Compatible(s1, a, b)
  {
  }

  lemma DropRowsKeepsInv(s: State, batch: set<EntryKey>)
    requires Inv(s)
    ensures Inv(WithoutBatch(s, batch))
  {
    var s1 := WithoutBatch(s, batch);
    forall ck | ck in s1.chunks
      ensures RowOk(s1, ck, s1.chunks[ck]) && FullOnDisk(s1, s1.chunks[ck].blobId)
    {
      assert RowOk(s, ck, s.chunks[ck]) && FullOnDisk(s, s.chunks[ck].blobId);
    }
    forall id
      ensures Referenced(s1, id) ==> Referenced(s, id)
      ensures Referenced(s, id) && id.ck.entry !in batch ==> Referenced(s1, id)
    {
      ReferencedByOwnRow(s, id);
      ReferencedByOwnRow(s1, id);
    }
    forall c | c in s.calls
      ensures CallOk(s1, s1.calls[c])
    {
      assert CallOk(s, s.calls[c]);
    }
    forall c1, c2 | c1 in s.calls && c2 in s.calls && c1 != c2
      ensures Compatible(s1, s1.calls[c1], s1.calls[c2])
    {
      assert Compatible(s, s.calls[c1], s.calls[c2]);
    }
  }

  lemma BeginKeepsInv(s: State, step: Step)
    requires Inv(s) && step.Begin? && Orderly(s, step) && Next(s, step).Some?
    ensures Inv(Next(s, step).value)
  {
    var call := Put(step.ck, step.data, step.isFinal, Begun);
    BeginsUntwinned(s, step.c, call);
    BecomeKeepsInv(s, step.c, call);
  }

  lemma StatKeepsInv(s: State, step: Step)
    requires Inv(s) && step.Stat? && Next(s, step).Some?
    ensures Inv(Next(s, step).value)
  {
    var put := s.calls[step.c];
    var id := PutId(put);
    assert CallOk(s, put);
    if Referenced(s, id) {
      var ck :| ck in s.chunks && s.chunks[ck].blobId == id;
      assert FullOnDisk(s, s.chunks[ck].blobId);
    }
    if id in s.disk && |s.disk[id].cells| == |put.data| {
      // a prefix of full length is the whole blob
      assert s.disk[id].cells <= FullBlob(id);
      assert FullOnDisk(s, id);
    }
    AdvanceKeepsInv(s, step.c, put.(stage := StatStage(s.disk, id, |put.data|)));
  }

  lemma StatFailsKeepsInv(s: State, step: Step)
    requires Inv(s) && step.StatFails? && Orderly(s, step) && Next(s, step).Some?
    ensures Inv(Next(s, step).value)
  {
    var put := s.calls[step.c];
    assert CallOk(s, put);
    AdvanceKeepsInv(s, step.c, put.(stage := Writing));
  }

  /** An upload moves on to another stage before its commit. */
  lemma AdvanceKeepsInv(s: State, c: CallId, put: Call)
    requires Inv(s) && c in s.calls && CallOk(s, put)
    requires put.Put? && PreCommit(s.calls[c]) && s.calls[c].stage != Ready(false)
    requires put == s.calls[c].(stage := put.stage) && (PreCommit(put) || put.stage.Undo?)
    ensures Inv(Become(s, c, put))
  {
    var was := s.calls[c];
    forall d | d in s.calls && d != c
      ensures Compatible(s, s.calls[d], put) && Compatible(s, put, s.calls[d])
    {
      assert Compatible(s, s.calls[d], was) && Compatible(s, was, s.calls[d]);
      assert PutId(was) == PutId(put);
    }
    StaysUntwinned(s, c, put);
    BecomeKeepsInv(s, c, put);
  }

  lemma WriteAllKeepsInv(s: State, c: CallId, put: Call)
    requires Inv(s) && c in s.calls && s.calls[c] == put && put.Put? && put.stage.Writing?
    ensures Inv(Become(WriteState(s, put, |put.data|), c, put.(stage := Ready(true))))
  {
    var s1 := WriteState(s, put, |put.data|);
    WriteKeepsInv(s, c, |put.data|);
    var id := PutId(put);
    assert Encrypt(id, put.data)[..|put.data|] == FullBlob(id);
    assert CallOk(s1, put);
    AdvanceKeepsInv(s1, c, put.(stage := Ready(true)));
  }

  lemma CommitKeepsInv(s: State, c: CallId, put: Call)
    requires Inv(s) && c in s.calls && s.calls[c] == put
    requires put.Put? && put.stage.Ready? && put.ck.entry in s.entries
    ensures Inv(CommitState(s, c, put))
  {
    assert CallOk(s, put);
    EndKeepsInv(s, c);
    var ended := End(s, c);
    SameTables(s, ended);
    forall d | d in ended.calls
      ensures Harmless(ended, put, ended.calls[d]) && Compatible(ended, ended.calls[d], put)
    {
      assert Compatible(s, put, s.calls[d]) && Compatible(s, s.calls[d], put);
      assert Compatible(ended, put, s.calls[d]) && Compatible(ended, s.calls[d], put);
    }
    forall d1, d2 | d1 in ended.calls && d2 in ended.calls && d1 != d2
      ensures NoTwinOf(ended, put, s.calls[d1], s.calls[d2])
    {
      if MayCommit(s, s.calls[d1]) && PreCommit(s.calls[d2]) {
        assert Untwinned(s.calls, d1, s.calls[d1]);
        if s.calls[d1].ck == s.calls[d2].ck {
          assert MayCommit(s, s.calls[d2]) && Untwinned(s.calls, d2, s.calls[d2]);
        }
      }
    }
    InsertKeepsInv(ended, c, put);
    if put.ck in s.chunks && s.chunks[put.ck].blobId != PutId(put) {
      ReplacedByNone(s, c, put);
      ReplaceKeepsInv(WithRow(ended, put), c, put, s.chunks[put.ck].blobId);
    }
  }

  /** The blob that a commit replaces is not that of another upload: of two on one chunk, neither's is referenced. */
  lemma ReplacedByNone(s: State, c: CallId, put: Call)
    requires Inv(s) && c in s.calls && s.calls[c] == put && MayCommit(s, put)
    requires put.ck in s.chunks && s.chunks[put.ck].blobId != PutId(put)
    ensures var prev := s.chunks[put.ck].blobId;
            prev.ck == put.ck && forall d :: d in s.calls && d != c && MayCommit(s, s.calls[d]) ==> PutId(s.calls[d]) != prev
  {
    var prev := s.chunks[put.ck].blobId;
    assert RowOk(s, put.ck, s.chunks[put.ck]) && Referenced(s, prev);
    forall d | d in s.calls && d != c && MayCommit(s, s.calls[d])
      ensures PutId(s.calls[d]) != prev
    {
      assert Compatible(s, put, s.calls[d]);
    }
  }

  /** After a commit the call owns the removal of the blob its row used to name. */
  lemma ReplaceKeepsInv(s: State, c: CallId, put: Call, prev: BlobId)
    requires Inv(s) && c !in s.calls && put.Put? && ValidSize(|put.data|, put.isFinal)
    requires forall d :: d in s.calls && MayCommit(s, s.calls[d]) ==> PutId(s.calls[d]) != prev
    requires prev.ck == put.ck && put.ck in s.chunks && s.chunks[put.ck].blobId != prev
    ensures Inv(Become(s, c, put.(stage := Replace(prev))))
  {
    ReferencedByOwnRow(s, prev);
    var call := put.(stage := Replace(prev));
    assert CallOk(s, call);
    StaysUntwinned(s, c, call);
    BecomeKeepsInv(s, c, call);
  }

  lemma CommitFailsKeepsInv(s: State, step: Step)
    requires Inv(s) && step.CommitFails? && Next(s, step).Some?
    ensures Inv(Next(s, step).value)
  {
    var put := s.calls[step.c];
    assert CallOk(s, put);
    if put.stage.wrote {
      var call := put.(stage := Undo);
      forall d | d in s.calls && d != step.c
        ensures Compatible(s, s.calls[d], call)
      {
        assert Compatible(s, s.calls[d], put) && Compatible(s, put, s.calls[d]);
      }
      StaysUntwinned(s, step.c, call);
      BecomeKeepsInv(s, step.c, call);
    } else {
      EndKeepsInv(s, step.c);
    }
  }

  lemma DropKeepsInv(s: State, step: Step)
    requires Inv(s) && step.Drop? && Orderly(s, step) && Next(s, step).Some?
    ensures Inv(Next(s, step).value)
  {
    var s1 := WithoutBatch(s, step.batch);
    DropRowsKeepsInv(s, step.batch);
    var call := Removing(step.ids);
    forall id | id in step.ids
      ensures !Referenced(s1, id)
    {
      var ck :| ck in RowsOf(s.chunks, step.batch) && s.chunks[ck].blobId == id;
      assert RowOk(s, ck, s.chunks[ck]);
      ReferencedByOwnRow(s1, id);
    }
    assert CallOk(s1, call);
    StaysUntwinned(s1, step.c, call);
    BecomeKeepsInv(s1, step.c, call);
  }

  lemma UnlinkStepKeepsInv(s: State, step: Step)
    requires Inv(s) && step.Unlink? && Next(s, step).Some?
    ensures Inv(Next(s, step).value)
  {
    var c := step.c;
    var call := s.calls[c];
    var id := Target(call).value;
    var s1 := if step.removed then s.(disk := s.disk - {id}) else s;
    assert id in Targets(call);
    UnlinkKeepsInv(s, c, id);
    if call.Removing? {
      var rest := call.(ids := call.ids[1..]);
      assert CallOk(s1, call);
      assert forall x :: x in rest.ids ==> x in call.ids;
      forall d | d in s1.calls && d != c
        ensures Compatible(s1, s1.calls[d], rest)
      {
        assert Compatible(s1, s1.calls[d], call);
      }
      StaysUntwinned(s1, c, rest);
      BecomeKeepsInv(s1, c, rest);
    } else {
      EndKeepsInv(s1, c);
    }
  }

  lemma CleanupKeepsInv(s: State, step: Step)
    requires Inv(s) && (step.Stale? || step.Query?) && Orderly(s, step) && Next(s, step).Some?
    ensures Inv(Next(s, step).value)
  {
    if step.Stale? {
      StaysUntwinned(s, step.c, Examining(step.id));
      BecomeKeepsInv(s, step.c, Examining(step.id));
    } else if Referenced(s, s.calls[step.c].id) {
      EndKeepsInv(s, step.c);
    } else {
      var call := s.calls[step.c];
      forall d | d in s.calls && d != step.c
        ensures Compatible(s, s.calls[d], Doomed(call.id))
      {
        assert Compatible(s, s.calls[d], call);
      }
      StaysUntwinned(s, step.c, Doomed(call.id));
      BecomeKeepsInv(s, step.c, Doomed(call.id));
    }
  }

  /** Every micro-step of every call keeps the invariant, as long as it is orderly. */
  lemma StepKeepsInv(s: State, step: Step)
    requires Inv(s) && Orderly(s, step) && Next(s, step).Some?
    ensures Inv(Next(s, step).value)
  {
    match step
    case Tick(to) => TickKeepsInv(s, to);
    case UpsertEntry(w) => UpsertKeepsInv(s, w);
    case Begin(_, _, _, _) => BeginKeepsInv(s, step);
    case Stat(_) => StatKeepsInv(s, step);
    case StatFails(_) => StatFailsKeepsInv(s, step);
    case WriteSome(c, n) => WriteKeepsInv(s, c, n);
    case WriteAll(c) => WriteAllKeepsInv(s, c, s.calls[c]);
    case Commit(c) => CommitKeepsInv(s, c, s.calls[c]);
    case CommitFails(_) => CommitFailsKeepsInv(s, step);
    case Drop(_, _, _) => DropKeepsInv(s, step);
    case Unlink(_, _) => UnlinkStepKeepsInv(s, step);
    case Stale(_, _) => CleanupKeepsInv(s, step);
    case Query(_) => CleanupKeepsInv(s, step);
    case Stop(c) => EndKeepsInv(s, c);
  }

  /** Safety over whole runs: no orderly run ever leaves a committed row without its file. */
  lemma {:induction false} OrderlyRunSafe(s: State, steps: seq<Step>)
    requires Inv(s) && OrderlyRun(s, steps) && Run(s, steps).Some?
    ensures Inv(Run(s, steps).value)
    decreases |steps|
  {
    if steps != [] {
      StepKeepsInv(s, steps[0]);
      OrderlyRunSafe(Next(s, steps[0]).value, steps[1..]);
    }
  }
}
