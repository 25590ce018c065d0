/** The steps of a call that runs alone, and the trace it leaves. */
module Serial {
  import opened Wrappers
  import opened Entries
  import opened Blobs
  import opened Protocol
  import opened Grace

  /** `trace` is a run of the step machine from `s0` to `m`, and a serial one if the call met an honest stat. */
  ghost predicate TracedIf(honest: bool, s0: State, trace: seq<Step>, m: State) {
    Run(s0, trace) == Some(m) && (honest ==> SerialRun(s0, trace))
  }

  ghost predicate Traced(s0: State, trace: seq<Step>, m: State) {
    TracedIf(true, s0, trace, m)
  }

  lemma TraceNothing(s0: State)
    ensures Traced(s0, [], s0)
  {
  }

  lemma TraceStepIf(honest: bool, s0: State, trace: seq<Step>, m: State, step: Step, m1: State)
    requires TracedIf(honest, s0, trace, m) && (honest ==> OneAtATime(m, step)) && Next(m, step) == Some(m1)
    ensures TracedIf(honest, s0, trace + [step], m1)
  {
    RunAppend(s0, trace, step);
    if honest {
      SerialAppend(s0, trace, step);
    }
  }

  lemma TraceStep(s0: State, trace: seq<Step>, m: State, step: Step, m1: State)
    requires Traced(s0, trace, m) && OneAtATime(m, step) && Next(m, step) == Some(m1)
    ensures Traced(s0, trace + [step], m1)
  {
    TraceStepIf(true, s0, trace, m, step, m1);
  }

  lemma {:induction false} SerialAppend(s: State, steps: seq<Step>, step: Step)
    requires SerialRun(s, steps) && Run(s, steps).Some? && OneAtATime(Run(s, steps).value, step)
    ensures SerialRun(s, steps + [step])
    decreases |steps|
  {
    if steps == [] {
      assert (steps + [step])[1..] == [];
    } else {
      assert (steps + [step])[1..] == steps[1..] + [step];
      SerialAppend(Next(s, steps[0]).value, steps[1..], step);
    }
  }

  /** Traces of consecutive calls join up. */
  lemma {:induction false} TraceJoin(s0: State, t1: seq<Step>, m: State, t2: seq<Step>, m1: State)
    requires Traced(s0, t1, m) && Traced(m, t2, m1)
    ensures Traced(s0, t1 + t2, m1)
    decreases |t1|
  {
    if t1 == [] {
      assert t1 + t2 == t2;
    } else {
      assert (t1 + t2)[1..] == t1[1..] + t2;
      TraceJoin(Next(s0, t1[0]).value, t1[1..], m, t2, m1);
    }
  }

  function Alone(s: State, call: Call): State {
    s.(calls := map[0 := call])
  }

  function Idle(s: State): State {
    s.(calls := map[])
  }

  lemma BeginStep(s: State, put: Call)
    requires s.calls == map[] && put.Put? && put.stage.Begun? && ValidSize(|put.data|, put.isFinal)
    ensures Next(s, Begin(0, put.ck, put.data, put.isFinal)) == Some(Alone(s, put))
  {
    assert Become(s, 0, put) == Alone(s, put);
  }

  lemma StatStep(s: State, put: Call)
    requires s.calls == map[0 := put] && put.Put? && put.stage.Begun?
    ensures Next(s, Stat(0)) == Some(Alone(s, put.(stage := StatStage(s.disk, PutId(put), |put.data|))))
  {
    var next := put.(stage := StatStage(s.disk, PutId(put), |put.data|));
    assert Become(s, 0, next) == Alone(s, next);
  }

  lemma StatFailsStep(s: State, put: Call)
    requires s.calls == map[0 := put] && put.Put? && put.stage.Begun?
    ensures Next(s, StatFails(0)) == Some(Alone(s, put.(stage := Writing)))
    ensures !Referenced(s, PutId(put)) ==> OneAtATime(s, StatFails(0))
  {
    var next := put.(stage := Writing);
    assert Become(s, 0, next) == Alone(s, next);
  }

  lemma WriteSomeStep(s: State, put: Call, n: nat)
    requires s.calls == map[0 := put] && put.Put? && put.stage.Writing? && n <= |put.data|
    ensures Next(s, WriteSome(0, n)) == Some(WriteState(s, put, n))
  {
  }

  lemma WriteAllStep(s: State, put: Call)
    requires s.calls == map[0 := put] && put.Put? && put.stage.Writing?
    ensures Next(s, WriteAll(0)) == Some(Alone(WriteState(s, put, |put.data|), put.(stage := Ready(true))))
  {
    var next := put.(stage := Ready(true));
    var s1 := WriteState(s, put, |put.data|);
    assert Become(s1, 0, next) == Alone(s1, next);
  }

  lemma CommitStep(s: State, put: Call)
    requires s.calls == map[0 := put] && put.Put? && put.stage.Ready? && put.ck.entry in s.entries
    ensures Next(s, Commit(0)) ==
            Some(if put.ck in s.chunks && s.chunks[put.ck].blobId != PutId(put)
                 then Alone(WithRow(s, put), put.(stage := Replace(s.chunks[put.ck].blobId)))
                 else Idle(WithRow(s, put)))
  {
    assert End(s, 0) == Idle(s);
    if put.ck in s.chunks && s.chunks[put.ck].blobId != PutId(put) {
      var next := put.(stage := Replace(s.chunks[put.ck].blobId));
      assert Become(WithRow(Idle(s), put), 0, next) == Alone(WithRow(s, put), next);
    }
  }

  lemma CommitFailsStep(s: State, put: Call)
    requires s.calls == map[0 := put] && put.Put? && put.stage.Ready?
    ensures Next(s, CommitFails(0)) ==
            Some(if put.stage.wrote then Alone(s, put.(stage := Undo)) else Idle(s))
  {
    assert End(s, 0) == Idle(s);
    var next := put.(stage := Undo);
    assert Become(s, 0, next) == Alone(s, next);
  }

  function Unlinked(disk: Disk, id: BlobId, removed: bool): Disk {
    if removed then disk - {id} else disk
  }

  lemma UnlinkStep(s: State, call: Call, removed: bool)
    requires s.calls == map[0 := call] && Target(call).Some?
    ensures var s1 := s.(disk := Unlinked(s.disk, Target(call).value, removed));
            Next(s, Unlink(0, removed)) ==
            Some(if call.Removing? then Alone(s1, call.(ids := call.ids[1..])) else Idle(s1))
  {
    var s1 := s.(disk := Unlinked(s.disk, Target(call).value, removed));
    assert End(s1, 0) == Idle(s1);
    if call.Removing? {
      var next := call.(ids := call.ids[1..]);
      assert Become(s1, 0, next) == Alone(s1, next);
    }
  }

  lemma StopStep(s: State, call: Call)
    requires s.calls == map[0 := call]
    ensures Next(s, Stop(0)) == Some(Idle(s))
  {
    assert End(s, 0) == Idle(s);
  }

  /** The steps of cleanup on one blob file. */
  lemma StaleStep(s: State, id: BlobId)
    requires s.calls == map[] && id in s.disk && s.disk[id].mtime + CLEANUP_GRACE <= s.now
    ensures Next(s, Stale(0, id)) == Some(Alone(s, Examining(id)))
  {
    assert Become(s, 0, Examining(id)) == Alone(s, Examining(id));
  }

  lemma QueryStep(s: State, id: BlobId)
    requires s.calls == map[0 := Examining(id)]
    ensures Next(s, Query(0)) == Some(if Referenced(s, id) then Idle(s) else Alone(s, Doomed(id)))
  {
    assert End(s, 0) == Idle(s);
    assert Become(s, 0, Doomed(id)) == Alone(s, Doomed(id));
  }

  lemma DropStep(s: State, batch: set<EntryKey>, ids: seq<BlobId>)
    requires s.calls == map[] && BlobIdsOf(ids, s.chunks, RowsOf(s.chunks, batch))
    ensures Next(s, Drop(0, batch, ids)) == Some(Alone(WithoutBatch(s, batch), Removing(ids)))
  {
    assert Become(WithoutBatch(s, batch), 0, Removing(ids)) == Alone(WithoutBatch(s, batch), Removing(ids));
  }

  lemma TraceBegin(honest: bool, s: State, put: Call)
    requires s.calls == map[] && put.Put? && put.stage.Begun? && ValidSize(|put.data|, put.isFinal)
    ensures TracedIf(honest, s, [Begin(0, put.ck, put.data, put.isFinal)], Alone(s, put))
  {
    var begin := Begin(0, put.ck, put.data, put.isFinal);
    BeginStep(s, put);
    TraceNothing(s);
    TraceStepIf(honest, s, [], s, begin, Alone(s, put));
    assert [] + [begin] == [begin];
  }

  lemma TraceStop(honest: bool, s0: State, trace: seq<Step>, s: State, call: Call)
    requires TracedIf(honest, s0, trace, s) && s.calls == map[0 := call]
    ensures TracedIf(honest, s0, trace + [Stop(0)], Idle(s))
  {
    StopStep(s, call);
    TraceStepIf(honest, s0, trace, s, Stop(0), Idle(s));
  }
}
