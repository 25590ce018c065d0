/**
 The two-store chunk protocol of lib.rs as a step machine. Chunk rows live in
 SQL, ciphertext in blob files; each call moves through the micro-steps of its
 source function, any other call may step in between, and any call may stop
 after any step (a crash is every call stopping).
 */
module Protocol {
  import opened Wrappers
  import opened Bytes
  import opened Entries
  import opened Blobs

  datatype File = File(cells: seq<Cell>, mtime: nat)

  type Disk = map<BlobId, File>

  datatype Stage =
    | Begun
    | Writing
    | Ready(wrote: bool)
    | Undo                     // sql failed and this call wrote the file: remove it
    | Replace(prev: BlobId)    // committed over another blob: remove that one

  datatype Call =
    | Put(ck: ChunkKey, data: seq<Byte>, isFinal: bool, stage: Stage)
    | Removing(ids: seq<BlobId>)  // rm or prune, committed
    | Examining(id: BlobId)    // cleanup found the file stale and is about to ask sql
    | Doomed(id: BlobId)       // sql knows no row: cleanup is about to remove the file

  type CallId = nat

  datatype State = State(entries: Table, chunks: Chunks, disk: Disk, now: nat, calls: map<CallId, Call>)

  datatype Step =
    | Tick(to: nat)
    | UpsertEntry(write: Write)
    | Begin(c: CallId, ck: ChunkKey, data: seq<Byte>, isFinal: bool)
    | Stat(c: CallId)
    | StatFails(c: CallId)     // an error from stat is taken for a missing file
    | WriteSome(c: CallId, n: nat)
    | WriteAll(c: CallId)
    | Commit(c: CallId)
    | CommitFails(c: CallId)
    | Drop(c: CallId, batch: set<EntryKey>, ids: seq<BlobId>)
    | Unlink(c: CallId, removed: bool)
    | Stale(c: CallId, id: BlobId)
    | Query(c: CallId)
    | Stop(c: CallId)

  /** How long a file must go untouched before cleanup looks at it, in the clock's microseconds. */
  const CLEANUP_GRACE: nat := 60 * 5 * 1_000_000

  function PutId(put: Call): BlobId
    requires put.Put?
  {
    GenId(put.ck, Sha256(put.data), put.isFinal)
  }

  predicate PreCommit(call: Call) {
    call.Put? && (call.stage.Begun? || call.stage.Writing? || call.stage.Ready?)
  }

  ghost predicate Referenced(s: State, id: BlobId) {
    exists ck :: ck in s.chunks && s.chunks[ck].blobId == id
  }

  /** The first blob a call is about to remove. */
  function Target(call: Call): Option<BlobId> {
    match call
    case Put(_, _, _, Undo) => Some(PutId(call))
    case Put(_, _, _, Replace(prev)) => Some(prev)
    case Removing(ids) => if ids == [] then None else Some(ids[0])
    case Doomed(id) => Some(id)
    case _ => None
  }

  function End(s: State, c: CallId): State {
    s.(calls := s.calls - {c})
  }

  function Become(s: State, c: CallId, call: Call): State {
    s.(calls := s.calls[c := call])
  }

  /** Entries gone, and their chunk rows with them. */
  function WithoutBatch(s: State, batch: set<EntryKey>): State {
    s.(entries := s.entries - batch, chunks := WithoutRowsOf(s.chunks, batch))
  }

  function WithRow(s: State, put: Call): State
    requires put.Put?
  {
    s.(chunks := s.chunks[put.ck := RowFor(put.ck, put.data, put.isFinal)])
  }

  /** The row replaces the one before it, whose blob the call must then remove if it is another. */
  function CommitState(s: State, c: CallId, put: Call): State
    requires put.Put?
  {
    var committed := WithRow(End(s, c), put);
    if put.ck in s.chunks && s.chunks[put.ck].blobId != PutId(put) then
      Become(committed, c, put.(stage := Replace(s.chunks[put.ck].blobId)))
    else
      committed
  }

  /** SQL failed: only a file this call put there is its own to remove. */
  function CommitFailsState(s: State, c: CallId, put: Call): State
    requires put.Put? && put.stage.Ready?
  {
    if put.stage.wrote then Become(s, c, put.(stage := Undo)) else End(s, c)
  }

  function StatStage(disk: Disk, id: BlobId, size: nat): Stage {
    if id in disk && |disk[id].cells| == size then Ready(false) else Writing
  }

  function WriteState(s: State, put: Call, n: nat): State
    requires put.Put? && n <= |put.data|
  {
    var id := PutId(put);
    s.(disk := s.disk[id := File(Encrypt(id, put.data)[..n], s.now)])
  }

  function UnlinkState(s: State, c: CallId, removed: bool): State
    requires c in s.calls && Target(s.calls[c]).Some?
  {
    var call := s.calls[c];
    var s1 := if removed then s.(disk := s.disk - {Target(call).value}) else s;
    if call.Removing? then Become(s1, c, call.(ids := call.ids[1..])) else End(s1, c)
  }

  /** A step is possible only where the source could take it; the result is then unique. */
  ghost function Next(s: State, step: Step): Option<State> {
    match step
    case Tick(to) =>
      if s.now <= to then Some(s.(now := to)) else None
    case UpsertEntry(w) =>
      Some(s.(entries := Upsert(s.entries, w)))
    case Begin(c, ck, data, isFinal) =>
      if c !in s.calls && ValidSize(|data|, isFinal) then Some(Become(s, c, Put(ck, data, isFinal, Begun))) else None
    case Drop(c, batch, ids) =>
      if c !in s.calls && BlobIdsOf(ids, s.chunks, RowsOf(s.chunks, batch)) then
        Some(Become(WithoutBatch(s, batch), c, Removing(ids)))
      else None
    case Stale(c, id) =>
      if c !in s.calls && id in s.disk && s.disk[id].mtime + CLEANUP_GRACE <= s.now then
        Some(Become(s, c, Examining(id)))
      else None
    case _ =>
      if step.c !in s.calls then None else Continue(s, step, s.calls[step.c])
  }

  /** The steps of a call that is already under way. */
  ghost function Continue(s: State, step: Step, call: Call): Option<State>
    requires !step.Tick? && !step.UpsertEntry? && !step.Begin? && !step.Drop? && !step.Stale?
    requires step.c in s.calls && call == s.calls[step.c]
  {
    var c := step.c;
    if step.Stop? then Some(End(s, c))
    else if step.Unlink? then
      if Target(call).Some? then Some(UnlinkState(s, c, step.removed)) else None
    else if step.Query? then
      if !call.Examining? then None
      else if Referenced(s, call.id) then Some(End(s, c))
      else Some(Become(s, c, Doomed(call.id)))
    else if call.Put? then ContinuePut(s, step, call)
    else None
  }

  function ContinuePut(s: State, step: Step, put: Call): Option<State>
    requires step.Stat? || step.StatFails? || step.WriteSome? || step.WriteAll? || step.Commit? || step.CommitFails?
    requires step.c in s.calls && put == s.calls[step.c] && put.Put?
  {
    var c := step.c;
    if step.Stat? && put.stage.Begun? then
      Some(Become(s, c, put.(stage := StatStage(s.disk, PutId(put), |put.data|))))
    else if step.StatFails? && put.stage.Begun? then
      Some(Become(s, c, put.(stage := Writing)))
    else if step.WriteSome? && put.stage.Writing? && step.n <= |put.data| then
      Some(WriteState(s, put, step.n))
    else if step.WriteAll? && put.stage.Writing? then
      Some(Become(WriteState(s, put, |put.data|), c, put.(stage := Ready(true))))
    else if step.Commit? && put.stage.Ready? && put.ck.entry in s.entries then
      // the foreign key makes the row need its entry
      Some(CommitState(s, c, put))
    else if step.CommitFails? && put.stage.Ready? then
      Some(CommitFailsState(s, c, put))
    else None
  }

  ghost function Run(s: State, steps: seq<Step>): Option<State>
    decreases |steps|
  {
    if steps == [] then Some(s)
    else
      match Next(s, steps[0])
      case None => None
      case Some(s1) => Run(s1, steps[1..])
  }

  lemma {:induction false} RunAppend(s: State, steps: seq<Step>, step: Step)
    ensures Run(s, steps + [step]) ==
            match Run(s, steps) { case None => None case Some(m) => Next(m, step) }
    decreases |steps|
  {
    if steps == [] {
      assert [step][1..] == [] && steps + [step] == [step];
    } else {
      assert (steps + [step])[1..] == steps[1..] + [step];
      if Next(s, steps[0]).Some? {
        RunAppend(Next(s, steps[0]).value, steps[1..], step);
      }
    }
  }
}
