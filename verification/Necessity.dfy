/**
 The discipline asks for no more than it must. A step that disregards it, in
 any sound state, opens the way to a run that keeps it from there on and yet
 ends with a committed row without its complete file.
 */
module Necessity {
  import opened Wrappers
  import opened Entries
  import opened Blobs
  import opened Protocol
  import opened Safety
  import opened Grace

  /** A disciplined run that ends with a row whose file is not complete. */
  ghost predicate Loses(s: State, steps: seq<Step>) {
    DisciplinedRun(s, steps) && Run(s, steps).Some? && !RowsBacked(Run(s, steps).value)
  }

  lemma LosesNow(s: State, ck: ChunkKey)
    requires ck in s.chunks && !FullOnDisk(s, s.chunks[ck].blobId)
    ensures Loses(s, [])
  {
  }

  /** Losing runs are put together from their last step backwards. */
  lemma LosesAfter(s: State, step: Step, rest: seq<Step>)
    requires Disciplined(s, step) && Next(s, step).Some? && Loses(Next(s, step).value, rest)
    ensures Loses(s, [step] + rest)
  {
    hide Next, Disciplined, RowsBacked;
    assert ([step] + rest)[1..] == rest;
  }

  /** An upload under way, which may commit, at its call id. */
  ghost predicate Pending(s: State, c: CallId, put: Call) {
    c in s.calls && s.calls[c] == put && MayCommit(s, put)
  }

  function Stage(put: Call): nat
    requires PreCommit(put)
  {
    match put.stage case Begun => 2 case Writing => 1 case _ => 0
  }

  /** One step on from `Begun` or `Writing`: nothing changes but the stage and this blob's own file. */
  lemma Advances(s: State, c: CallId, put: Call) returns (step: Step, s1: State, put1: Call)
    requires Pending(s, c, put) && Stage(put) > 0
    ensures Disciplined(s, step) && Next(s, step) == Some(s1)
    ensures Pending(s1, c, put1) && put1 == put.(stage := put1.stage) && Stage(put1) < Stage(put)
    ensures s1.entries == s.entries && s1.chunks == s.chunks && s1.now == s.now && s1.calls == s.calls[c := put1]
  {
    step := if put.stage.Begun? then Stat(c) else WriteAll(c);
    s1 := Next(s, step).value;
    put1 := s1.calls[c];
  }

  /** The commit of a pending upload puts its row in place. */
  lemma Commits(s: State, c: CallId, put: Call) returns (s1: State)
    requires Pending(s, c, put) && Stage(put) == 0
    ensures Disciplined(s, Commit(c)) && Next(s, Commit(c)) == Some(s1) && s1 == CommitState(s, c, put)
    ensures put.ck in s1.chunks && s1.chunks[put.ck].blobId == PutId(put)
    ensures s1.entries == s.entries && s1.disk == s.disk
    ensures forall d :: d != c ==> (d in s1.calls <==> d in s.calls) && (d in s.calls ==> s1.calls[d] == s.calls[d])
  {
    s1 := CommitState(s, c, put);
  }

  /** A call that can remove the blob of a pending upload next: the upload commits, and the file goes. */
  lemma {:induction false} TargetLoses(s: State, c: CallId, put: Call, d: CallId) returns (rest: seq<Step>)
    requires Pending(s, c, put) && d in s.calls && d != c && Target(s.calls[d]) == Some(PutId(put))
    ensures Loses(s, rest)
    decreases Stage(put)
  {
    if Stage(put) > 0 {
      var step, s1, put1 := Advances(s, c, put);
      rest := TargetLoses(s1, c, put1, d);
      LosesAfter(s, step, rest);
      rest := [step] + rest;
    } else {
      var s1 := Commits(s, c, put);
      var s2 := UnlinkState(s1, d, true);
      assert Next(s1, Unlink(d, true)) == Some(s2) && Disciplined(s1, Unlink(d, true));
      LosesNow(s2, put.ck);
      LosesAfter(s1, Unlink(d, true), []);
      LosesAfter(s, Commit(c), [Unlink(d, true)] + []);
      rest := [Commit(c)] + ([Unlink(d, true)] + []);
    }
  }

  /** The blob may be anywhere in the list of a removal: those before it are tried in vain first. */
  lemma {:induction false} TargetedLoses(s: State, c: CallId, put: Call, d: CallId) returns (rest: seq<Step>)
    requires Pending(s, c, put) && d in s.calls && d != c && PutId(put) in Targets(s.calls[d])
    ensures Loses(s, rest)
    decreases if s.calls[d].Removing? then |s.calls[d].ids| else 0
  {
    var call := s.calls[d];
    if Target(call) == Some(PutId(put)) {
      rest := TargetLoses(s, c, put, d);
    } else {
      assert call.Removing? && PutId(put) in call.ids[1..];
      var s1 := UnlinkState(s, d, false);
      assert Next(s, Unlink(d, false)) == Some(s1) && Disciplined(s, Unlink(d, false));
      rest := TargetedLoses(s1, c, put, d);
      LosesAfter(s, Unlink(d, false), rest);
      rest := [Unlink(d, false)] + rest;
    }
  }

  /** Cleanup has found the file stale and is yet to ask sql, which knows no row. */
  lemma ExaminedLoses(s: State, c: CallId, put: Call, d: CallId) returns (rest: seq<Step>)
    requires Pending(s, c, put) && d in s.calls && d != c
    requires s.calls[d] == Examining(PutId(put)) && !Referenced(s, PutId(put))
    ensures Loses(s, rest)
  {
    var s1 := Become(s, d, Doomed(PutId(put)));
    assert Next(s, Query(d)) == Some(s1) && Disciplined(s, Query(d));
    rest := TargetLoses(s1, c, put, d);
    LosesAfter(s, Query(d), rest);
    rest := [Query(d)] + rest;
  }

  lemma {:induction false} FreshCall(ids: set<CallId>) returns (unused: CallId)
    ensures forall d :: d in ids ==> d < unused
  {
    if ids == {} {
      unused := 0;
    } else {
      var d :| d in ids;
      var more := FreshCall(ids - {d});
      unused := if more <= d then d + 1 else more;
      assert ids == (ids - {d}) + {d};
    }
  }

  /** The file is neither referenced nor young: cleanup may start on it now. */
  lemma ExposedLoses(s: State, c: CallId, put: Call) returns (rest: seq<Step>)
    requires Pending(s, c, put) && !Sheltered(s, put, s.now)
    ensures Loses(s, rest)
  {
    var id := PutId(put);
    var d := FreshCall(s.calls.Keys);
    var s1 := Become(s, d, Examining(id));
    assert d !in s.calls;
    assert Next(s, Stale(d, id)) == Some(s1) && Disciplined(s, Stale(d, id));
    SameRows(s, s1);
    rest := ExaminedLoses(s1, c, put, d);
    LosesAfter(s, Stale(d, id), rest);
    rest := [Stale(d, id)] + rest;
  }

  /** What is about to be committed is not all there. */
  lemma UnstoredLoses(s: State, c: CallId, put: Call) returns (rest: seq<Step>)
    requires Pending(s, c, put) && put.stage.Ready? && !FullOnDisk(s, PutId(put))
    ensures Loses(s, rest)
  {
    var s1 := Commits(s, c, put);
    LosesNow(s1, put.ck);
    LosesAfter(s, Commit(c), []);
    rest := [Commit(c)] + [];
  }

  /** Two uploads of one unreferenced blob, one of which can write it yet: it does, fails and takes it back. */
  lemma {:induction false} WriterLoses(s: State, c: CallId, put: Call, d: CallId, writer: Call) returns (rest: seq<Step>)
    requires Pending(s, c, put) && Pending(s, d, writer) && c != d
    requires PutId(writer) == PutId(put) && !Referenced(s, PutId(put)) && writer.stage != Ready(false)
    ensures Loses(s, rest)
    decreases Stage(writer)
  {
    var step, s1, writer1;
    if Stage(writer) > 0 {
      step := if writer.stage.Begun? then StatFails(d) else WriteAll(d);
      s1 := Next(s, step).value;
      writer1 := s1.calls[d];
      SameRows(s, s1);
      assert Disciplined(s, step) && Pending(s1, c, put) && Pending(s1, d, writer1);
      rest := WriterLoses(s1, c, put, d, writer1);
    } else {
      step := CommitFails(d);
      s1 := Become(s, d, writer.(stage := Undo));
      assert Next(s, step) == Some(s1) && Disciplined(s, step);
      rest := TargetLoses(s1, c, put, d);
    }
    LosesAfter(s, step, rest);
    rest := [step] + rest;
  }

  /** The blob of one upload is referenced, and another upload of the chunk replaces it first. */
  lemma {:induction false} ReplacedLoses(s: State, c: CallId, put: Call, d: CallId, other: Call) returns (rest: seq<Step>)
    requires Pending(s, c, put) && Pending(s, d, other) && c != d
    requires other.ck == put.ck && PutId(other) != PutId(put)
    requires put.ck in s.chunks && s.chunks[put.ck].blobId == PutId(put)
    ensures Loses(s, rest)
    decreases Stage(other)
  {
    if Stage(other) > 0 {
      var step, s1, other1 := Advances(s, d, other);
      rest := ReplacedLoses(s1, c, put, d, other1);
      LosesAfter(s, step, rest);
      rest := [step] + rest;
    } else {
      var s1 := Commits(s, d, other);
      rest := TargetLoses(s1, c, put, d);
      LosesAfter(s, Commit(d), rest);
      rest := [Commit(d)] + rest;
    }
  }

  /** Two uploads that both found the blob stored, and one of another blob for the same chunk. */
  lemma TwinsLose(s: State, c: CallId, put: Call, d: CallId, twin: Call, e: CallId, other: Call) returns (rest: seq<Step>)
    requires Pending(s, c, put) && Pending(s, d, twin) && Pending(s, e, other) && c != d && c != e && d != e
    requires PutId(twin) == PutId(put) && other.ck == put.ck && PutId(other) != PutId(put)
    requires put.stage == Ready(false) && twin.stage == Ready(false)
    ensures Loses(s, rest)
  {
    var s1 := Commits(s, d, twin);
    rest := ReplacedLoses(s1, c, put, e, other);
    LosesAfter(s, Commit(d), rest);
    rest := [Commit(d)] + rest;
  }

  /** Another call that is not harmless does harm. */
  lemma HarmfulLoses(s: State, c: CallId, put: Call, d: CallId) returns (rest: seq<Step>)
    requires RowsOk(s) && Pending(s, c, put) && d in s.calls && d != c && !Harmless(s, put, s.calls[d])
    ensures Loses(s, rest)
  {
    var other, id := s.calls[d], PutId(put);
    if id in Targets(other) {
      rest := TargetedLoses(s, c, put, d);
    } else if other == Examining(id) {
      rest := ExaminedLoses(s, c, put, d);
    } else if PutId(other) == id {
      if other.stage != Ready(false) {
        rest := WriterLoses(s, c, put, d, other);
      } else {
        rest := WriterLoses(s, d, other, c, put);
      }
    } else if Referenced(s, id) {
      ReferencedByOwnRow(s, id);
      rest := ReplacedLoses(s, c, put, d, other);
    } else {
      ReferencedByOwnRow(s, PutId(other));
      rest := ReplacedLoses(s, d, other, c, put);
    }
  }

  lemma TwinnedLoses(s: State, c: CallId, put: Call) returns (rest: seq<Step>)
    requires Pending(s, c, put) && !Untwinned(s.calls, c, put)
    ensures Loses(s, rest) || exists d :: d in s.calls && d != c && !Harmless(s, put, s.calls[d])
  {
    var d, e :| d in s.calls && e in s.calls && d != e && d != c && e != c && PreCommit(s.calls[d]) && PreCommit(s.calls[e])
                && s.calls[d].ck == put.ck && PutId(s.calls[d]) == PutId(s.calls[e]) && PutId(s.calls[d]) != PutId(put);
    var a, b := s.calls[d], s.calls[e];
    if Referenced(s, PutId(a)) {
      assert !Harmless(s, put, a);
      rest := [];
    } else if a.stage != Ready(false) {
      rest := WriterLoses(s, e, b, d, a);
    } else if b.stage != Ready(false) {
      rest := WriterLoses(s, d, a, e, b);
    } else {
      rest := TwinsLose(s, d, a, e, b, c, put);
    }
  }

  /** A pending upload for which the way is not clear. */
  lemma UnclearLoses(s: State, c: CallId, put: Call) returns (rest: seq<Step>)
    requires RowsOk(s) && Pending(s, c, put) && !Clear(s, c, put)
    ensures Loses(s, rest)
  {
    if put.stage.Ready? && !FullOnDisk(s, PutId(put)) {
      rest := UnstoredLoses(s, c, put);
    } else if d :| d in s.calls && d != c && !Harmless(s, put, s.calls[d]) {
      rest := HarmfulLoses(s, c, put, d);
    } else {
      rest := TwinnedLoses(s, c, put);
    }
  }

  /** An upload about to rewrite a blob that a row references: it does, fails and takes it back. */
  lemma RewriterLoses(s: State, c: CallId, put: Call) returns (rest: seq<Step>)
    requires c in s.calls && s.calls[c] == put && put.Put? && put.stage.Writing? && Referenced(s, PutId(put))
    ensures Loses(s, rest)
  {
    var wrote, undo := put.(stage := Ready(true)), put.(stage := Undo);
    var s1 := Become(WriteState(s, put, |put.data|), c, wrote);
    assert Next(s, WriteAll(c)) == Some(s1) && Disciplined(s, WriteAll(c));
    var s2 := Become(s1, c, undo);
    assert Next(s1, CommitFails(c)) == Some(s2) && Disciplined(s1, CommitFails(c));
    var s3 := UnlinkState(s2, c, true);
    assert Next(s2, Unlink(c, true)) == Some(s3) && Disciplined(s2, Unlink(c, true));
    var ck :| ck in s.chunks && s.chunks[ck].blobId == PutId(put);
    LosesNow(s3, ck);
    LosesAfter(s2, Unlink(c, true), []);
    LosesAfter(s1, CommitFails(c), [Unlink(c, true)] + []);
    LosesAfter(s, WriteAll(c), [CommitFails(c)] + ([Unlink(c, true)] + []));
    rest := [WriteAll(c)] + ([CommitFails(c)] + ([Unlink(c, true)] + []));
  }

  /** Which upload a slip leaves exposed in the state after it. */
  lemma SlipLoses(s: State, step: Step) returns (rest: seq<Step>)
    requires Inv(s) && Next(s, step).Some? && !Disciplined(s, step)
    ensures Loses(Next(s, step).value, rest)
  {
    match step
    case Tick(to) => rest := TickLoses(s, to);
    case UpsertEntry(w) => rest := ReturnLoses(s, w);
    case Begin(_, _, _, _) => rest := BeginLoses(s, step);
    case StatFails(c) =>
      var s1 := Next(s, step).value;
      SameRows(s, s1);
      rest := RewriterLoses(s1, c, s1.calls[c]);
  }

  lemma TickLoses(s: State, to: nat) returns (rest: seq<Step>)
    requires Next(s, Tick(to)).Some? && !Disciplined(s, Tick(to))
    ensures Loses(Next(s, Tick(to)).value, rest)
  {
    var s1 := s.(now := to);
    SameRows(s, s1);
    var c :| c in s.calls && MayCommit(s, s.calls[c]) && !Sheltered(s, s.calls[c], to);
    rest := ExposedLoses(s1, c, s.calls[c]);
  }

  lemma ReturnLoses(s: State, w: Write) returns (rest: seq<Step>)
    requires Inv(s) && !Disciplined(s, UpsertEntry(w))
    ensures Loses(Next(s, UpsertEntry(w)).value, rest)
  {
    var s1 := s.(entries := Upsert(s.entries, w));
    var c :| c in s.calls && PreCommit(s.calls[c]) && s.calls[c].ck.entry == w.key
             && !(Clear(s, c, s.calls[c]) && Sheltered(s, s.calls[c], s.now));
    var put := s.calls[c];
    SameRows(s, s1);
    UpsertKeepsRows(s, w);
    SameWay(s, s1, c, put);
    if Sheltered(s, put, s.now) {
      rest := UnclearLoses(s1, c, put);
    } else {
      rest := ExposedLoses(s1, c, put);
    }
  }

  lemma UpsertKeepsRows(s: State, w: Write)
    requires RowsOk(s)
    ensures RowsOk(s.(entries := Upsert(s.entries, w)))
  {
    forall ck | ck in s.chunks
      ensures RowOk(s.(entries := Upsert(s.entries, w)), ck, s.chunks[ck])
    {
      assert RowOk(s, ck, s.chunks[ck]);
    }
  }

  /** Whether the way is clear depends on rows, files and the other calls. */
  lemma SameWay(s: State, s1: State, c: CallId, put: Call)
    requires put.Put? && s1.chunks == s.chunks && s1.disk == s.disk
    requires forall d :: d != c ==> (d in s1.calls <==> d in s.calls) && (d in s.calls ==> s1.calls[d] == s.calls[d])
    ensures Clear(s1, c, put) <==> Clear(s, c, put)
  {
    SameRows(s, s1);
    forall d
      ensures d in s.calls && d != c ==> (Harmless(s1, put, s1.calls[d]) <==> Harmless(s, put, s.calls[d]))
    {
    }
    assert Untwinned(s1.calls, c, put) <==> Untwinned(s.calls, c, put);
  }

  lemma BeginLoses(s: State, step: Step) returns (rest: seq<Step>)
    requires Inv(s) && step.Begin? && Next(s, step).Some? && !Disciplined(s, step)
    ensures Loses(Next(s, step).value, rest)
  {
    var c, put := step.c, Put(step.ck, step.data, step.isFinal, Begun);
    var s1 := Become(s, c, put);
    SameRows(s, s1);
    SameTables(s, s1);
    SameWay(s, s1, c, put);
    if Sheltered(s, put, s.now) {
      rest := UnclearLoses(s1, c, put);
    } else {
      rest := ExposedLoses(s1, c, put);
    }
  }

  /**
   The discipline is exact. In a sound state a step keeps it if and only if
   after the step no run that keeps it takes the file of a committed row away.
   */
  lemma DisciplineExact(s: State, step: Step)
    requires Inv(s) && AllSheltered(s) && Next(s, step).Some?
    ensures Disciplined(s, step) <==> forall rest :: !Loses(Next(s, step).value, rest)
  {
    var s1 := Next(s, step).value;
    if Disciplined(s, step) {
      DisciplinedIsOrderly(s, step);
      StepKeepsInv(s, step);
      StepKeepsShelter(s, step);
      forall rest
        ensures !Loses(s1, rest)
      {
        if DisciplinedRun(s1, rest) && Run(s1, rest).Some? {
          DisciplinedRunSafe(s1, rest);
        }
      }
    } else {
      var rest := SlipLoses(s, step);
      assert Loses(s1, rest);
    }
  }
}
