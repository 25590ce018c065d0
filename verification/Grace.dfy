/**
 Two ways to run the protocol in an orderly manner: under the grace period,
 with cleanup interleaved freely, or one call at a time over any stretch of
 time. Either way calls may stop anywhere, leave any part of a file behind and
 be tried again.
 */
module Grace {
  import opened Entries
  import opened Blobs
  import opened Protocol
  import opened Safety

  predicate Young(disk: Disk, id: BlobId, now: nat) {
    id in disk ==> now < disk[id].mtime + CLEANUP_GRACE
  }

  /** Cleanup cannot find the file of an upload both stale and unreferenced. */
  ghost predicate Sheltered(s: State, put: Call, now: nat)
    requires put.Put?
  {
    Referenced(s, PutId(put)) || Young(s.disk, PutId(put), now)
  }

  /**
   The discipline of a running server. When an upload begins, and when its
   missing entry appears, the way is clear for it and a file of it that is
   already there is referenced or younger than the grace period; until it
   commits, its unreferenced file does not outlive the grace period; stat does
   not fail on a referenced blob. Nothing else is asked of uploads, removals,
   entry writes and prunes that run at the same time, of cleanup, or of what
   crashes, fails and is tried again.
   */
  ghost predicate Disciplined(s: State, step: Step) {
    match step
    case Tick(to) =>
      forall c :: c in s.calls && MayCommit(s, s.calls[c]) ==> Sheltered(s, s.calls[c], to)
    case UpsertEntry(w) =>
      Creates(s, w) ==>
        forall c :: c in s.calls && PreCommit(s.calls[c]) && s.calls[c].ck.entry == w.key ==>
          Clear(s, c, s.calls[c]) && Sheltered(s, s.calls[c], s.now)
    case Begin(c, ck, data, isFinal) =>
      var put := Put(ck, data, isFinal, Begun);
      ck.entry in s.entries ==> Clear(s, c, put) && Sheltered(s, put, s.now)
    case Stale(_, _) => true
    case _ => Orderly(s, step)
  }

  ghost predicate DisciplinedRun(s: State, steps: seq<Step>)
    decreases |steps|
  {
    steps == [] ||
    (Disciplined(s, steps[0]) && (Next(s, steps[0]).Some? ==> DisciplinedRun(Next(s, steps[0]).value, steps[1..])))
  }

  ghost predicate AllSheltered(s: State) {
    forall c :: c in s.calls && MayCommit(s, s.calls[c]) ==> Sheltered(s, s.calls[c], s.now)
  }

  lemma DisciplinedIsOrderly(s: State, step: Step)
    requires Inv(s) && AllSheltered(s) && Disciplined(s, step) && Next(s, step).Some?
    ensures Orderly(s, step)
  {
    if step.Stale? {
      forall c | c in s.calls && MayCommit(s, s.calls[c]) && PutId(s.calls[c]) == step.id
        ensures Referenced(s, step.id)
      {
        assert Sheltered(s, s.calls[c], s.now);
      }
    }
  }

  lemma KeptRow(s: State, s1: State, id: BlobId)
    requires RowsOk(s)
    requires id.ck in s.chunks ==> id.ck in s1.chunks && s1.chunks[id.ck] == s.chunks[id.ck]
    ensures Referenced(s, id) ==> Referenced(s1, id)
  {
    ReferencedByOwnRow(s, id);
  }

  /** Steps that leave the rows alone and touch files only to remove them or to write them afresh. */
  lemma FilesShelter(s: State, s1: State, put: Call)
    requires put.Put? && Sheltered(s, put, s.now)
    requires s1.chunks == s.chunks && s1.now == s.now
    requires forall id :: id in s1.disk ==> (id in s.disk && s1.disk[id] == s.disk[id]) || s1.disk[id].mtime == s.now
    ensures Sheltered(s1, put, s1.now)
  {
    SameRows(s, s1);
  }

  lemma TimeShelters(s: State, put: Call, to: nat)
    requires put.Put? && Sheltered(s, put, to)
    ensures Sheltered(s.(now := to), put, to)
  {
    SameRows(s, s.(now := to));
  }

  lemma DropShelters(s: State, s1: State, put: Call, batch: set<EntryKey>)
    requires RowsOk(s) && put.Put? && Sheltered(s, put, s.now) && put.ck.entry !in batch
    requires s1.disk == s.disk && s1.now == s.now && s1.chunks == WithoutRowsOf(s.chunks, batch)
    ensures Sheltered(s1, put, s1.now)
  {
    KeptRow(s, s1, PutId(put));
  }

  /** Another upload commits: its row is another chunk's, or names this blob, or neither was referenced. */
  lemma CommitShelters(s: State, step: Step, c: CallId)
    requires RowsOk(s) && CallsCompatible(s) && step.Commit? && Next(s, step).Some?
    requires c in s.calls && MayCommit(s, s.calls[c]) && step.c != c && Sheltered(s, s.calls[c], s.now)
    ensures Sheltered(Next(s, step).value, s.calls[c], s.now)
  {
    var s1, put, id := Next(s, step).value, s.calls[c], PutId(s.calls[c]);
    var other := s.calls[step.c];
    assert Compatible(s, put, other);
    if Referenced(s, id) {
      ReferencedByOwnRow(s, id);
      if other.ck == put.ck {
        assert s1.chunks[put.ck].blobId == id;
      } else {
        KeptRow(s, s1, id);
      }
    }
  }

  /** Steps of calls that leave the tables alone. */
  lemma QuietShelters(s: State, step: Step, put: Call)
    requires Next(s, step).Some? && !step.Tick? && !step.UpsertEntry? && !step.Drop? && !step.Commit?
    requires put.Put? && Sheltered(s, put, s.now)
    ensures Sheltered(Next(s, step).value, put, s.now)
  {
    hide Sheltered, Encrypt;
    FilesShelter(s, Next(s, step).value, put);
  }

  /** An upload that was there before, and is not the one committing, keeps its shelter. */
  lemma StaysSheltered(s: State, step: Step, c: CallId)
    requires RowsOk(s) && CallsCompatible(s) && Disciplined(s, step) && Next(s, step).Some?
    requires c in s.calls && MayCommit(s, s.calls[c]) && Sheltered(s, s.calls[c], s.now)
    requires step.Commit? ==> step.c != c
    requires MayCommit(Next(s, step).value, s.calls[c])
    ensures Sheltered(Next(s, step).value, s.calls[c], Next(s, step).value.now)
  {
    hide Sheltered, RowsOk, CallsCompatible, Referenced, BlobIdsOf, Encrypt;
    var s1 := Next(s, step).value;
    match step
    case Drop(_, batch, _) => DropShelters(s, s1, s.calls[c], batch);
    case Commit(_) => CommitShelters(s, step, c);
    case UpsertEntry(_) => FilesShelter(s, s1, s.calls[c]);
    case Tick(to) => TimeShelters(s, s.calls[c], to);
    case _ => QuietShelters(s, step, s.calls[c]);
  }

  /** An upload whose way becomes free to commit in this step: it begins, or its entry appears. */
  lemma ArrivesSheltered(s: State, step: Step, c: CallId)
    requires Disciplined(s, step) && Next(s, step).Some?
    requires var s1 := Next(s, step).value; c in s1.calls && MayCommit(s1, s1.calls[c])
    requires c in s.calls ==> !MayCommit(s, s.calls[c])
    ensures Sheltered(Next(s, step).value, Next(s, step).value.calls[c], Next(s, step).value.now)
  {
    var s1 := Next(s, step).value;
    SameRows(s, s1.(chunks := s.chunks));
    if step.UpsertEntry? {
      assert s1.calls == s.calls && forall k :: k in s1.entries && k !in s.entries ==> k == step.write.key;
      assert Creates(s, step.write) && PreCommit(s.calls[c]) && s.calls[c].ck.entry == step.write.key;
    } else {
      assert step.Begin? && step.c == c;
    }
  }

  /** What an upload is about to commit never changes. */
  lemma SameUpload(s: State, step: Step, c: CallId)
    requires Next(s, step).Some? && c in s.calls && c in Next(s, step).value.calls
    requires PreCommit(Next(s, step).value.calls[c])
    ensures var was, put := s.calls[c], Next(s, step).value.calls[c];
            PreCommit(was) && was.ck == put.ck && PutId(was) == PutId(put) && !(step.Commit? && step.c == c)
  {
  }

  lemma StepKeepsShelter(s: State, step: Step)
    requires RowsOk(s) && CallsCompatible(s) && AllSheltered(s) && Disciplined(s, step) && Next(s, step).Some?
    ensures AllSheltered(Next(s, step).value)
  {
    var s1 := Next(s, step).value;
    forall c | c in s1.calls && MayCommit(s1, s1.calls[c])
      ensures Sheltered(s1, s1.calls[c], s1.now)
    {
      if c in s.calls && MayCommit(s, s.calls[c]) {
        hide Next, Disciplined;
        SameUpload(s, step, c);
        StaysSheltered(s, step, c);
      } else {
        ArrivesSheltered(s, step, c);
      }
    }
  }

  /**
   The grace period does its job: cleanup's stat, query and removal may fall
   anywhere among the steps of uploads, removals and prunes, calls may crash,
   fail and be retried on what they left, and still no step ever takes away a
   file that a committed row references.
   */
  lemma {:induction false} DisciplinedRunSafe(s: State, steps: seq<Step>)
    requires Inv(s) && AllSheltered(s) && DisciplinedRun(s, steps) && Run(s, steps).Some?
    ensures OrderlyRun(s, steps)
    ensures Inv(Run(s, steps).value) && AllSheltered(Run(s, steps).value)
    decreases |steps|
  {
    if steps != [] {
      DisciplinedIsOrderly(s, steps[0]);
      StepKeepsInv(s, steps[0]);
      StepKeepsShelter(s, steps[0]);
      DisciplinedRunSafe(Next(s, steps[0]).value, steps[1..]);
    }
  }

  /**
   One call at a time: a call, an entry write or a cleanup examination starts
   only when none is under way; and stat does not fail on a referenced blob.
   */
  ghost predicate OneAtATime(s: State, step: Step) {
    && (step.UpsertEntry? || step.Begin? || step.Drop? || step.Stale? ==> s.calls == map[])
    && (step.StatFails? ==> Orderly(s, step))
  }

  ghost predicate SerialRun(s: State, steps: seq<Step>)
    decreases |steps|
  {
    steps == [] || (OneAtATime(s, steps[0]) && (Next(s, steps[0]).Some? ==> SerialRun(Next(s, steps[0]).value, steps[1..])))
  }

  /**
   Crash safety: serialized calls may each stop after any micro-step, leave
   any part of a file behind and fail to remove files, over any stretch of time.
   */
  lemma {:induction false} SerialRunSafe(s: State, steps: seq<Step>)
    requires Inv(s) && SerialRun(s, steps) && Run(s, steps).Some?
    ensures OrderlyRun(s, steps) && Inv(Run(s, steps).value)
    decreases |steps|
  {
    if steps != [] {
      assert Orderly(s, steps[0]);
      StepKeepsInv(s, steps[0]);
      SerialRunSafe(Next(s, steps[0]).value, steps[1..]);
    }
  }
}
