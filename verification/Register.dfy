/** The config register of a backend node (v-m-io-back): newest-wins values that nodes copy to each other. */
module Register {
  import opened Wrappers
  import opened Bytes
  import opened Entries
  import opened Blobs
  import opened Counter
  import opened Order
  import opened Listing
  import opened SqlConnection
  import opened Store
  import Utf8

  const CFG_CLASS: string := "cfg"
  const CFG_KEY_MAX: nat := 1024
  const CFG_VALUE_MAX: nat := 4096
  const ATTEMPTS: nat := 64

  datatype CfgError = CfgKeyTooLong | CfgValueTooLong | Db(error: DbError) | NotUtf8 | CounterOverflow

  datatype Item = Item(key: string, value: string, modifiedAt: i64, expiresAt: Option<i64>)

  function CfgKey(key: string): EntryKey {
    EntryKey(CFG_CLASS, key)
  }

  function CfgWrite(key: string, value: string, modifiedAt: i64, expiresAt: Option<i64>): Write {
    Write(CfgKey(key), Entry(modifiedAt, expiresAt, Some(Utf8.Encode(value))))
  }

  function ArgumentError(key: string, value: string): Option<CfgError> {
    if |Utf8.Encode(key)| > CFG_KEY_MAX then Some(CfgKeyTooLong)
    else if |Utf8.Encode(value)| > CFG_VALUE_MAX then Some(CfgValueTooLong)
    else None
  }

  lemma CfgClassFits()
    ensures |Utf8.Encode(CFG_CLASS)| <= 256
  {
    assert CFG_CLASS[1..] == "fg" && "fg"[1..] == "g" && "g"[1..] == "";
  }

  lemma FieldsFit(key: string, value: string)
    requires ArgumentError(key, value).None?
    ensures forall t, x :: FieldError(CfgWrite(key, value, t, x)).None?
  {
    CfgClassFits();
  }

  ghost predicate StrictlyIncreasing(ts: seq<i64>) {
    forall i, j :: 0 <= i < j < |ts| ==> ts[i] < ts[j]
  }


  /**
   What goes on around a write that the node stamps: what other threads write
   and remove (by `rm` or by pruning) before the n-th attempt and raise the
   counter to during it, and whether its transaction fails for any other reason
   than the UNIQUE constraint.
   */
  datatype Others = Others(acts: nat -> seq<Act>, raises: nat -> seq<i64>, sqlFails: nat -> bool)

  /**
   Timestamps tried one after the other: increasing, above the counter before,
   and each no later than it must be, for its clock reading, the counter as the
   attempt before left it and what others raised the counter to meanwhile.
   */
  ghost predicate Advancing(tried: seq<i64>, floor: i64, clock: nat -> i64, others: Others) {
    && StrictlyIncreasing(tried)
    && (forall i :: 0 <= i < |tried| ==> floor < tried[i] && clock(i) <= tried[i])
    && forall i: nat :: i < |tried| ==> LeastAt(tried, i, floor, clock, others)
  }

  ghost predicate LeastAt(tried: seq<i64>, i: nat, floor: i64, clock: nat -> i64, others: Others)
    requires i < |tried|
  {
    LeastStamp(tried[i], CounterAt(tried, i, floor), clock(i), others.raises(i))
  }

  /** Where the counter stood before the n-th attempt. */
  function CounterAt(tried: seq<i64>, n: nat, floor: i64): i64
    requires n <= |tried|
  {
    if n == 0 then floor else tried[n - 1]
  }

  /** The stamp for some of the raises: the exchange succeeds before the others come, if they come at all. */
  ghost predicate LeastStamp(t: i64, counter: i64, clock: i64, raises: seq<i64>) {
    exists seen :: 0 <= seen <= |raises| && Stamped(counter, clock, raises[..seen], t)
  }

  datatype Act = Wrote(write: Write) | Removed(key: EntryKey)

  function Acted(table: Table, acts: seq<Act>): Table
    decreases |acts|
  {
    if acts == [] then table
    else
      match acts[0]
      case Wrote(w) => Acted(Entries.Upsert(table, w), acts[1..])
      case Removed(k) => Acted(table - {k}, acts[1..])
  }

  /** The table that the n-th attempt meets, those before it having written nothing. */
  function Met(table: Table, others: Others, n: nat): Table {
    Acted(if n == 0 then table else Met(table, others, n - 1), others.acts(n))
  }

  /** Each timestamp tried was held by another entry when it was tried, or its transaction failed. */
  ghost predicate AllRefused(table: Table, others: Others, k: EntryKey, tried: seq<i64>) {
    forall i :: 0 <= i < |tried| ==> others.sqlFails(i) || TakenByOther(Met(table, others, i), k, tried[i])
  }

  ghost predicate AllTaken(table: Table, k: EntryKey, tried: seq<i64>) {
    forall i :: 0 <= i < |tried| ==> TakenByOther(table, k, tried[i])
  }

  /** Nobody else writes or removes, and nothing but the UNIQUE constraint fails. */
  ghost predicate Quiet(others: Others) {
    forall n: nat :: others.acts(n) == [] && !others.sqlFails(n)
  }

  lemma NotYetAdvancing(floor: i64, clock: nat -> i64, others: Others)
    ensures Advancing([], floor, clock, others)
  {
  }

  lemma StillAdvancing(tried: seq<i64>, next: i64, floor: i64, clock: nat -> i64, others: Others)
    requires Advancing(tried, floor, clock, others)
    requires CounterAt(tried, |tried|, floor) < next && clock(|tried|) <= next
    requires LeastStamp(next, CounterAt(tried, |tried|, floor), clock(|tried|), others.raises(|tried|))
    ensures Advancing(tried + [next], floor, clock, others)
  {
    var more := tried + [next];
    hide LeastStamp;
    forall i: nat | i < |more|
      ensures LeastAt(more, i, floor, clock, others)
    {
      if i < |tried| {
        assert LeastAt(tried, i, floor, clock, others);
        assert more[i] == tried[i] && CounterAt(more, i, floor) == CounterAt(tried, i, floor);
      }
    }
  }

  lemma StillRefused(table: Table, others: Others, k: EntryKey, tried: seq<i64>, next: i64)
    ensures AllRefused(table, others, k, [])
    ensures AllRefused(table, others, k, tried)
            && (others.sqlFails(|tried|) || TakenByOther(Met(table, others, |tried|), k, next)) ==>
              AllRefused(table, others, k, tried + [next])
  {
  }

  lemma {:induction false} QuietMeets(table: Table, others: Others, n: nat)
    requires Quiet(others)
    ensures Met(table, others, n) == table
  {
    if n > 0 {
      QuietMeets(table, others, n - 1);
    }
  }

  /** Distinct entries other than `k` that hold the tried timestamps, one each. */
  ghost predicate Holders(holders: set<EntryKey>, table: Table, k: EntryKey, tried: seq<i64>) {
    && holders <= table.Keys - {k} && |holders| == |tried|
    && forall h :: h in holders ==> table[h].modifiedAt in tried
  }

  /** With nothing else going on, a write that was refused n times met n entries in its way. */
  lemma RefusedHasHolders(table: Table, others: Others, k: EntryKey, tried: seq<i64>)
    requires Quiet(others) && StrictlyIncreasing(tried) && AllRefused(table, others, k, tried)
    ensures exists holders :: Holders(holders, table, k, tried)
  {
    forall i | 0 <= i < |tried|
      ensures TakenByOther(table, k, tried[i])
    {
      QuietMeets(table, others, i);
      assert !others.sqlFails(i);
    }
    var holders := Pigeonhole(table, k, tried);
    assert Holders(holders, table, k, tried);
  }

  /** If every tried timestamp is taken, there are as many entries as tries. */
  lemma {:induction false} Pigeonhole(table: Table, k: EntryKey, tried: seq<i64>) returns (holders: set<EntryKey>)
    requires StrictlyIncreasing(tried)
    requires AllTaken(table, k, tried)
    ensures Holders(holders, table, k, tried)
  {
    if tried == [] {
      holders := {};
    } else {
      var n := |tried| - 1;
      holders := Pigeonhole(table, k, tried[..n]);
      assert TakenByOther(table, k, tried[n]);
      var h :| h in table && h != k && table[h].modifiedAt == tried[n];
      assert h !in holders by {
        assert forall i :: 0 <= i < n ==> tried[..n][i] == tried[i] < tried[n];
      }
      holders := holders + {h};
      assert tried == tried[..n] + [tried[n]];
    }
  }

  lemma ClashIsTaken(table: Table, w: Write)
    ensures UpsertOutcome(table, w).Clash? ==>
              Entries.Upsert(table, w) == table && TakenByOther(table, w.key, w.entry.modifiedAt)
  {
  }

  ghost predicate WellFormed(others: Others) {
    forall n: nat, w :: Wrote(w) in others.acts(n) ==> FieldError(w).None?
  }

  /** What the database says of a write it does not take. */
  function Refusal(sqlFails: bool): DbError {
    SqlFailed(if sqlFails then SqlFailure else UniqueTimestamp)
  }

  /**
   A write that is to go in as it is. It is refused, and nothing written, if the
   transaction fails or it would be the newest of its key but another key has its
   timestamp; otherwise it is stored unless the key has an entry at least as new.
   */
  ghost predicate TakenAsGiven(before: Table, after: Table, k: EntryKey, e: Entry, sqlFails: bool, r: Result<(), CfgError>) {
    var stale := k in before && e.modifiedAt <= before[k].modifiedAt;
    var taken := exists other :: other in before && other != k && before[other].modifiedAt == e.modifiedAt;
    if sqlFails then r == Err(Db(SqlFailed(SqlFailure))) && after == before
    else if stale then r == Ok(()) && after == before
    else if taken then r == Err(Db(SqlFailed(UniqueTimestamp))) && after == before
    else r == Ok(()) && after == before[k := e]
  }

  /** How the retry loop ends. `table` and `floor` are the table and the counter it started from. */
  ghost predicate Attempted(table: Table, after: Table, floor: i64, counter: i64, key: string, value: string,
                            expiresAt: Option<i64>, clock: nat -> i64, others: Others,
                            r: Result<(), CfgError>, tried: seq<i64>) {
    && |tried| <= 64 && Advancing(tried, floor, clock, others)
    && match r {
         case Ok(_) =>
           && tried != [] && counter == tried[|tried| - 1]
           && AllRefused(table, others, CfgKey(key), tried[..|tried| - 1])
           && var met := Met(table, others, |tried| - 1);
              var w := CfgWrite(key, value, tried[|tried| - 1], expiresAt);
              && !others.sqlFails(|tried| - 1) && UpsertOutcome(met, w) != Clash
              && after == Entries.Upsert(met, w)
         case Err(CounterOverflow) =>
           && |tried| < 64 && counter == 0x7fff_ffff_ffff_ffff
           && (CounterAt(tried, |tried|, floor) == counter || counter in others.raises(|tried|))
           && AllRefused(table, others, CfgKey(key), tried)
           && after == Met(table, others, |tried|)
         case Err(error) =>
           && error == Db(SqlFailed(if others.sqlFails(63) then SqlFailure else UniqueTimestamp))
           && |tried| == 64 && counter == tried[63]
           && AllRefused(table, others, CfgKey(key), tried)
           && after == Met(table, others, 63)
       }
  }

  lemma MetNext(table: Table, others: Others, n: nat, entries: Table)
    requires entries == if n == 0 then table else Met(table, others, n - 1)
    ensures Acted(entries, others.acts(n)) == Met(table, others, n)
    ensures WellFormed(others) ==> forall w :: Wrote(w) in others.acts(n) ==> FieldError(w).None?
  {
  }

  /** The retry loop under way: `tried` timestamps were refused, and the table and counter are as they left them. */
  ghost predicate Going(table: Table, entries: Table, floor: i64, counter: i64, k: EntryKey,
                        clock: nat -> i64, others: Others, tried: seq<i64>) {
    && |tried| <= ATTEMPTS && Advancing(tried, floor, clock, others) && AllRefused(table, others, k, tried)
    && entries == (if tried == [] then table else Met(table, others, |tried| - 1))
    && counter == CounterAt(tried, |tried|, floor)
  }

  lemma GoingStarts(table: Table, floor: i64, k: EntryKey, clock: nat -> i64, others: Others)
    ensures Going(table, table, floor, floor, k, clock, others, [])
  {
    NotYetAdvancing(floor, clock, others);
    StillRefused(table, others, k, [], floor);
  }

  lemma MetSoFar(table: Table, entries: Table, floor: i64, counter: i64, k: EntryKey,
                 clock: nat -> i64, others: Others, tried: seq<i64>)
    requires Going(table, entries, floor, counter, k, clock, others, tried)
    ensures entries == if |tried| == 0 then table else Met(table, others, |tried| - 1)
  {
  }

  /** What the n-th attempt comes to: no stamp left, or a fresh one and the write applied, superseded or refused under it. */
  ghost predicate AttemptEnds(table: Table, others: Others, n: nat, key: string, value: string, expiresAt: Option<i64>,
                              now: i64, before: i64, stamped: Option<i64>, applied: Result<bool, DbError>,
                              counter: i64, entries: Table) {
    var met := Met(table, others, n);
    if stamped.None? then
      && counter == I64_MAX && entries == met
      && (before == I64_MAX || I64_MAX in others.raises(n))
    else
      && counter == stamped.value && before < stamped.value && now <= stamped.value
      && LeastStamp(stamped.value, before, now, others.raises(n))
      && var w := CfgWrite(key, value, stamped.value, expiresAt);
         if applied.Ok? then
           !others.sqlFails(n) && UpsertOutcome(met, w) != Clash && entries == Entries.Upsert(met, w)
         else
           && entries == met && applied.error == Refusal(others.sqlFails(n))
           && (others.sqlFails(n) || TakenByOther(met, CfgKey(key), stamped.value))
  }

  lemma GoesOn(table: Table, entries: Table, entries1: Table, floor: i64, counter: i64, counter1: i64, key: string, value: string,
               expiresAt: Option<i64>, clock: nat -> i64, others: Others, tried: seq<i64>,
               stamped: Option<i64>, applied: Result<bool, DbError>)
    requires Going(table, entries, floor, counter, CfgKey(key), clock, others, tried) && |tried| < ATTEMPTS
    requires AttemptEnds(table, others, |tried|, key, value, expiresAt, clock(|tried|), counter, stamped, applied,
                         counter1, entries1)
    requires stamped.Some? && applied.Err?
    ensures Going(table, entries1, floor, counter1, CfgKey(key), clock, others, tried + [stamped.value])
    ensures applied.error == Refusal(others.sqlFails(|tried|))
  {
    StillAdvancing(tried, stamped.value, floor, clock, others);
    StillRefused(table, others, CfgKey(key), tried, stamped.value);
    hide Met, TakenByOther, LeastStamp, Advancing, AllRefused;
  }

  lemma EndsWell(table: Table, entries: Table, entries1: Table, floor: i64, counter: i64, counter1: i64, key: string, value: string,
                 expiresAt: Option<i64>, clock: nat -> i64, others: Others, before: seq<i64>,
                 stamped: Option<i64>, applied: Result<bool, DbError>)
    requires Going(table, entries, floor, counter, CfgKey(key), clock, others, before) && |before| < ATTEMPTS
    requires AttemptEnds(table, others, |before|, key, value, expiresAt, clock(|before|), counter, stamped, applied,
                         counter1, entries1)
    requires stamped.Some? && applied.Ok?
    ensures Attempted(table, entries1, floor, counter1, key, value, expiresAt, clock, others, Ok(()), before + [stamped.value])
  {
    StillAdvancing(before, stamped.value, floor, clock, others);
    hide Met, Entries.Upsert, UpsertOutcome, AllRefused, Advancing, LeastStamp;
    var tried := before + [stamped.value];
    assert tried[..|tried| - 1] == before;
  }

  lemma EndsByOverflow(table: Table, entries: Table, entries1: Table, floor: i64, counter: i64, counter1: i64,
                       key: string, value: string, expiresAt: Option<i64>, clock: nat -> i64, others: Others, tried: seq<i64>,
                       stamped: Option<i64>, applied: Result<bool, DbError>)
    requires Going(table, entries, floor, counter, CfgKey(key), clock, others, tried) && |tried| < ATTEMPTS
    requires AttemptEnds(table, others, |tried|, key, value, expiresAt, clock(|tried|), counter, stamped, applied,
                         counter1, entries1)
    requires stamped.None?
    ensures Attempted(table, entries1, floor, counter1, key, value, expiresAt, clock, others, Err(CounterOverflow), tried)
  {
    hide Met, AllRefused, Advancing;
  }

  lemma EndsRefused(table: Table, entries: Table, floor: i64, counter: i64, key: string, value: string,
                    expiresAt: Option<i64>, clock: nat -> i64, others: Others, tried: seq<i64>, error: CfgError)
    requires Going(table, entries, floor, counter, CfgKey(key), clock, others, tried)
    requires error == Db(Refusal(others.sqlFails(ATTEMPTS - 1))) && |tried| == ATTEMPTS
    ensures Attempted(table, entries, floor, counter, key, value, expiresAt, clock, others, Err(error), tried)
  {
  }

  class Node {
    const db: VmIoDb
    const counter: AtomicCounter

    ghost predicate Valid()
      reads this, db, db.sql
    {
      db.Valid()
    }

    constructor ()
      ensures Valid() && fresh(db) && fresh(db.sql) && fresh(counter)
      ensures counter.value == 0 && db.sql.entries == map[]
    {
      db := new VmIoDb();
      counter := new AtomicCounter(0);
    }

    /** Hands one well-formed write to the database. */
    method Put(w: Write, sqlFails: bool) returns (r: Result<bool, DbError>)
      requires Valid() && FieldError(w).None?
      modifies db.sql
      ensures Valid()
      ensures db.sql.entries == if sqlFails then old(db.sql.entries) else Entries.Upsert(old(db.sql.entries), w)
      ensures r.Err? <==> sqlFails || UpsertOutcome(old(db.sql.entries), w).Clash?
      ensures r.Err? ==> r.error == Refusal(sqlFails)
    {
      ghost var trace;
      r, trace := db.Upsert(w, sqlFails);
    }

    /** A write whose timestamp the caller fixed, as when copying from a peer. It is applied as it is or not at all. */
    method UpsertAt(key: string, value: string, modifiedAt: i64, expiresAt: Option<i64>, sqlFails: bool)
      returns (r: Result<(), CfgError>)
      requires Valid()
      modifies counter, db.sql
      ensures Valid()
      ensures |Utf8.Encode(key)| > 1024 ==> r == Err(CfgKeyTooLong)
      ensures |Utf8.Encode(key)| <= 1024 && |Utf8.Encode(value)| > 4096 ==> r == Err(CfgValueTooLong)
      ensures |Utf8.Encode(key)| > 1024 || |Utf8.Encode(value)| > 4096 ==>
                db.sql.entries == old(db.sql.entries) && counter.value == old(counter.value)
      ensures |Utf8.Encode(key)| <= 1024 && |Utf8.Encode(value)| <= 4096 ==>
                && counter.value == (if old(counter.value) < modifiedAt then modifiedAt else old(counter.value))
                && TakenAsGiven(old(db.sql.entries), db.sql.entries, EntryKey("cfg", key),
                                Entry(modifiedAt, expiresAt, Some(Utf8.Encode(value))), sqlFails, r)
      ensures var w := CfgWrite(key, value, modifiedAt, expiresAt);
              ArgumentError(key, value).None? && !sqlFails ==> db.sql.entries == Entries.Upsert(old(db.sql.entries), w)
    {
      if |Utf8.Encode(key)| > CFG_KEY_MAX {
        return Err(CfgKeyTooLong);
      }
      var metadata := Utf8.Encode(value);
      if |metadata| > CFG_VALUE_MAX {
        return Err(CfgValueTooLong);
      }
      CfgClassFits();
      counter.FetchMax(modifiedAt);
      var applied := Put(Write(EntryKey(CFG_CLASS, key), Entry(modifiedAt, expiresAt, Some(metadata))), sqlFails);
      match applied {
        case Ok(_) => r := Ok(());
        case Err(e) => r := Err(Db(e));
      }
    }

    /**
     A write that the node itself stamps, trying up to 64 timestamps. `clock`
     gives the n-th reading; `tried` are the timestamps allocated.
     */
    method UpsertNow(key: string, value: string, expiresAt: Option<i64>, clock: nat -> i64, others: Others)
      returns (r: Result<(), CfgError>, tried: seq<i64>)
      requires Valid() && WellFormed(others)
      modifies counter, db, db.sql
      ensures Valid()
      ensures |Utf8.Encode(key)| > 1024 ==> r == Err(CfgKeyTooLong)
      ensures |Utf8.Encode(key)| <= 1024 && |Utf8.Encode(value)| > 4096 ==> r == Err(CfgValueTooLong)
      ensures |Utf8.Encode(key)| > 1024 || |Utf8.Encode(value)| > 4096 ==>
                tried == [] && db.sql.entries == old(db.sql.entries) && counter.value == old(counter.value)
      ensures |Utf8.Encode(key)| <= 1024 && |Utf8.Encode(value)| <= 4096 ==>
                Attempted(old(db.sql.entries), db.sql.entries, old(counter.value), counter.value,
                          key, value, expiresAt, clock, others, r, tried)
      ensures ArgumentError(key, value).None? && Quiet(others) && r.Err? && r.error != CounterOverflow ==>
                && db.sql.entries == old(db.sql.entries)
                && exists holders :: Holders(holders, db.sql.entries, CfgKey(key), tried) && |holders| == ATTEMPTS
    {
      if |Utf8.Encode(key)| > CFG_KEY_MAX {
        return Err(CfgKeyTooLong), [];
      }
      var metadata := Utf8.Encode(value);
      if |metadata| > CFG_VALUE_MAX {
        return Err(CfgValueTooLong), [];
      }
      r, tried := Attempts(key, value, expiresAt, clock, others);
      if Quiet(others) && r.Err? && r.error != CounterOverflow {
        QuietMeets(old(db.sql.entries), others, ATTEMPTS - 1);
        RefusedHasHolders(old(db.sql.entries), others, CfgKey(key), tried);
      }
    }

    /** The retry loop: the counter's strict increase gets past timestamps that are taken. */
    method Attempts(key: string, value: string, expiresAt: Option<i64>, clock: nat -> i64, others: Others)
      returns (r: Result<(), CfgError>, tried: seq<i64>)
      requires Valid() && ArgumentError(key, value).None? && WellFormed(others)
      modifies counter, db, db.sql
      ensures Valid()
      ensures Attempted(old(db.sql.entries), db.sql.entries, old(counter.value), counter.value,
                        key, value, expiresAt, clock, others, r, tried)
    {
      FieldsFit(key, value);
      ghost var table, floor := db.sql.entries, counter.value;
      hide *;
      var lastErr: Option<CfgError> := None;
      tried := [];
      GoingStarts(table, floor, CfgKey(key), clock, others);
      for attempt := 0 to ATTEMPTS
        invariant Valid() && |tried| == attempt
        invariant Going(table, db.sql.entries, floor, counter.value, CfgKey(key), clock, others, tried)
        invariant attempt > 0 ==> lastErr == Some(Db(Refusal(others.sqlFails(attempt - 1))))
      {
        ghost var entries, count := db.sql.entries, counter.value;
        MetSoFar(table, entries, floor, count, CfgKey(key), clock, others, tried);
        var stamped, applied := Attempt(key, value, expiresAt, clock(attempt), others, attempt, table);
        if stamped.None? {
          EndsByOverflow(table, entries, db.sql.entries, floor, count, counter.value, key, value, expiresAt, clock, others,
                         tried, stamped, applied);
          return Err(CounterOverflow), tried;
        }
        match applied {
          case Ok(_) =>
            EndsWell(table, entries, db.sql.entries, floor, count, counter.value, key, value, expiresAt, clock, others,
                     tried, stamped, applied);
            return Ok(()), tried + [stamped.value];
          case Err(e) =>
            GoesOn(table, entries, db.sql.entries, floor, count, counter.value, key, value, expiresAt, clock, others,
                   tried, stamped, applied);
            tried := tried + [stamped.value];
            lastErr := Some(Db(e));
        }
      }
      EndsRefused(table, db.sql.entries, floor, counter.value, key, value, expiresAt, clock, others, tried, lastErr.value);
      return Err(lastErr.value), tried;
    }

    /** The n-th attempt: stamp the write with the next timestamp and hand it to the database. */
    method Attempt(key: string, value: string, expiresAt: Option<i64>, now: i64, others: Others, n: nat, ghost table: Table)
      returns (stamped: Option<i64>, applied: Result<bool, DbError>)
      requires Valid() && WellFormed(others) && forall t, x :: FieldError(CfgWrite(key, value, t, x)).None?
      requires db.sql.entries == if n == 0 then table else Met(table, others, n - 1)
      modifies counter, db, db.sql
      ensures Valid()
      ensures AttemptEnds(table, others, n, key, value, expiresAt, now, old(counter.value), stamped, applied,
                          counter.value, db.sql.entries)
    {
      hide Met, FieldError, Entries.Upsert, UpsertOutcome, TakenByOther, RaiseAll, Candidate, Stamped, Utf8.Encode;
      MetNext(table, others, n, db.sql.entries);
      Meanwhile(others.acts(n));
      var seen;
      stamped, seen := counter.NextMicros(now, others.raises(n));
      if stamped.None? {
        return stamped, Ok(false);
      }
      var w := CfgWrite(key, value, stamped.value, expiresAt);
      ClashIsTaken(db.sql.entries, w);
      applied := Put(w, others.sqlFails(n));
    }

    /** What other threads do in between. */
    method Meanwhile(acts: seq<Act>)
      requires Valid() && forall w :: Wrote(w) in acts ==> FieldError(w).None?
      modifies db, db.sql
      ensures Valid()
      ensures db.sql.entries == Acted(old(db.sql.entries), acts)
    {
      hide FieldError, Entries.Upsert, UpsertOutcome;
      assert acts[0..] == acts;
      for i := 0 to |acts|
        invariant Valid()
        invariant Acted(db.sql.entries, acts[i..]) == Acted(old(db.sql.entries), acts)
      {
        assert acts[i..][0] == acts[i] && acts[i..][1..] == acts[i + 1..];
        match acts[i] {
          case Wrote(w) => var applied := Put(w, false);
          case Removed(k) => Remove(k);
        }
      }
    }

    method Remove(k: EntryKey)
      requires Valid()
      modifies db, db.sql
      ensures Valid() && db.sql.entries == old(db.sql.entries) - {k}
    {
      var removed;
      ghost var trace;
      removed, trace := db.Rm(k, false, _ => true, 0);
    }

    /** The value of one row, unless it is not text. */
    method ReadItem(row: ListRow) returns (item: Option<Item>)
      ensures item == ItemOf(row.key, row.entry)
      ensures item.Some? ==> ReadsRow(item.value, row)
      ensures item.None? ==> NotText(row.entry)
    {
      var value := "";
      if row.entry.metadata.Some? {
        var text := Utf8.Decode(row.entry.metadata.value);
        Utf8.DecodesIffWellFormed(row.entry.metadata.value);
        if text.None? {
          return None;
        }
        value := text.value;
      }
      return Some(Item(row.key.key, value, row.entry.modifiedAt, row.entry.expiresAt));
    }

    method ReadItems(rows: seq<ListRow>, ghost table: Table, ghost keys: seq<EntryKey>) returns (r: Result<seq<Item>, CfgError>)
      requires |keys| == |rows|
      requires forall i :: 0 <= i < |keys| ==> keys[i] in table && rows[i].key == keys[i] && rows[i].entry == table[keys[i]]
      ensures r == ItemsOf(table, keys)
      ensures r.Ok? ==> |r.value| == |rows| && forall i :: 0 <= i < |rows| ==> ReadsRow(r.value[i], rows[i])
      ensures r.Err? ==> r.error == NotUtf8 && exists i :: 0 <= i < |rows| && NotText(rows[i].entry)
    {
      hide ItemsOf, ItemOf, Prepend, ReadsRow, NotText;
      var out := [];
      assert keys[0..] == keys;
      PrependNothing(ItemsOf(table, keys));
      for i := 0 to |rows|
        invariant ItemsOf(table, keys) == Prepend(out, ItemsOf(table, keys[i..]))
        invariant |out| == i && forall j :: 0 <= j < i ==> ReadsRow(out[j], rows[j])
      {
        ItemsFrom(table, keys, i);
        var item := ReadItem(rows[i]);
        if item.None? {
          PrependError(out);
          return Err(NotUtf8);
        }
        PrependTwice(out, [item.value], ItemsOf(table, keys[i + 1..]));
        out := out + [item.value];
      }
      PrependLast(table, out, keys[|keys|..]);
      return Ok(out);
    }

    /** Reads every config value, in key order; a value that is not text fails the whole read. */
    method ReadAll() returns (r: Result<seq<Item>, CfgError>)
      requires Valid()
      ensures r == ReadOut(db.sql.entries)
      ensures r.Ok? ==> ReadsConfig(r.value, db.sql.entries)
      ensures r.Err? ==>
                && r.error == NotUtf8
                && exists k :: k in db.sql.entries && k.class_ == "cfg" && NotText(db.sql.entries[k])
    {
      var rows := db.sql.List(CFG_CLASS, All, KeyAsc, I64_MAX);
      RowsAreConfig(rows, db.sql.entries, db.sql.chunks);
      hide CfgKeys, Listed, ItemsOf, IsList, UniqueTimes, ReadsConfig, NotText, CountChunks;
      r := ReadItems(rows, db.sql.entries, CfgKeys(db.sql.entries));
      if r.Ok? {
        ReadsAll(r.value, rows, db.sql.entries, db.sql.chunks);
      }
    }
  }

  ghost predicate ReadsEntry(item: Item, k: EntryKey, e: Entry) {
    && item.key == k.key && item.modifiedAt == e.modifiedAt && item.expiresAt == e.expiresAt
    && if e.metadata.None? then item.value == "" else Utf8.Encode(item.value) == e.metadata.value
  }

  ghost predicate ReadsRow(item: Item, row: ListRow) {
    ReadsEntry(item, row.key, row.entry)
  }

  ghost predicate NotText(e: Entry) {
    e.metadata.Some? && !Utf8.WellFormed(e.metadata.value)
  }

  /**
   Each item gives the fields of a config entry, keys rise by their bytes, and
   every config entry is there unless the limit of the query is reached.
   */
  ghost predicate ReadsConfig(items: seq<Item>, table: Table) {
    && (forall i :: 0 <= i < |items| ==>
          var k := EntryKey("cfg", items[i].key);
          k in table && ReadsEntry(items[i], k, table[k]))
    && (forall i, j :: 0 <= i < j < |items| ==> Precedes(Utf8.Encode(items[i].key), Utf8.Encode(items[j].key)))
    && (|items| == 0x7fff_ffff_ffff_ffff
        || forall k :: k in table && k.class_ == "cfg" ==> exists i :: 0 <= i < |items| && items[i].key == k.key)
  }

  lemma RowsAreConfig(rows: seq<ListRow>, table: Table, chunks: Chunks)
    requires IsList(rows, table, chunks, CFG_CLASS, All, KeyAsc, I64_MAX)
    ensures forall i :: 0 <= i < |rows| ==>
              rows[i].key in table && rows[i].key.class_ == "cfg" && rows[i].entry == table[rows[i].key]
  {
    hide Before;
  }

  lemma ReadsAll(items: seq<Item>, rows: seq<ListRow>, table: Table, chunks: Chunks)
    requires IsList(rows, table, chunks, CFG_CLASS, All, KeyAsc, I64_MAX)
    requires |items| == |rows| && forall j :: 0 <= j < |rows| ==> ReadsRow(items[j], rows[j])
    ensures ReadsConfig(items, table)
  {
    hide Precedes, Utf8.Encode;
    assert WantedRows(table, CFG_CLASS, All) == set k | k in table && k.class_ == "cfg";
    forall i | 0 <= i < |items|
      ensures rows[i].key == EntryKey("cfg", items[i].key)
    {
      assert rows[i].key.class_ == "cfg";
    }
    if |items| != 0x7fff_ffff_ffff_ffff {
      forall k | k in table && k.class_ == "cfg"
        ensures exists i :: 0 <= i < |items| && items[i].key == k.key
      {
        assert k in WantedRows(table, CFG_CLASS, All);
        var i :| 0 <= i < |rows| && rows[i].key == k;
        assert items[i].key == k.key;
      }
    }
  }

  function Prepend(items: seq<Item>, rest: Result<seq<Item>, CfgError>): Result<seq<Item>, CfgError> {
    match rest
    case Ok(more) => Ok(items + more)
    case Err(e) => Err(e)
  }

  lemma PrependNothing(rest: Result<seq<Item>, CfgError>)
    ensures Prepend([], rest) == rest
  {
    if rest.Ok? {
      assert [] + rest.value == rest.value;
    }
  }

  lemma PrependError(items: seq<Item>)
    ensures Prepend(items, Err(NotUtf8)) == Err(NotUtf8)
  {
  }

  lemma PrependLast(table: Table, items: seq<Item>, keys: seq<EntryKey>)
    requires keys == []
    ensures Prepend(items, ItemsOf(table, keys)) == Ok(items)
  {
    assert items + [] == items;
  }

  lemma ItemsFrom(table: Table, keys: seq<EntryKey>, i: nat)
    requires i < |keys| && keys[i] in table
    ensures ItemsOf(table, keys[i..]) ==
              match ItemOf(keys[i], table[keys[i]]) {
                case None => Err(NotUtf8)
                case Some(item) => Prepend([item], ItemsOf(table, keys[i + 1..]))
              }
  {
    assert keys[i..][0] == keys[i] && keys[i..][1..] == keys[i + 1..];
  }

  lemma PrependTwice(first: seq<Item>, second: seq<Item>, rest: Result<seq<Item>, CfgError>)
    ensures Prepend(first, Prepend(second, rest)) == Prepend(first + second, rest)
  {
    if rest.Ok? {
      assert first + (second + rest.value) == first + second + rest.value;
    }
  }

  function ItemOf(k: EntryKey, e: Entry): Option<Item> {
    if e.metadata.None? then Some(Item(k.key, "", e.modifiedAt, e.expiresAt))
    else
      match Utf8.Decode(e.metadata.value)
      case None => None
      case Some(value) => Some(Item(k.key, value, e.modifiedAt, e.expiresAt))
  }

  function ItemsOf(table: Table, keys: seq<EntryKey>): Result<seq<Item>, CfgError> {
    if keys == [] then Ok([])
    else if keys[0] !in table then ItemsOf(table, keys[1..])
    else
      match ItemOf(keys[0], table[keys[0]])
      case None => Err(NotUtf8)
      case Some(item) => Prepend([item], ItemsOf(table, keys[1..]))
  }

  /** The config keys in the order `read_all` lists them. */
  function CfgKeys(table: Table): seq<EntryKey>
    requires UniqueTimes(table)
  {
    Listed(table, CFG_CLASS, All, KeyAsc, I64_MAX)
  }

  function ReadOut(table: Table): Result<seq<Item>, CfgError>
    requires UniqueTimes(table)
  {
    ItemsOf(table, CfgKeys(table))
  }

  function CfgRows(table: Table): Table {
    map k | k in table && k.class_ == CFG_CLASS :: table[k]
  }

  /** Config rows as `upsert_value` writes them: text within the length limits. */
  ghost predicate WellWritten(table: Table) {
    forall k :: k in table && k.class_ == CFG_CLASS ==>
      && table[k].metadata.Some?
      && Utf8.Decode(table[k].metadata.value).Some?
      && ArgumentError(k.key, Utf8.Decode(table[k].metadata.value).value).None?
  }

  lemma UpsertKeepsWellWritten(table: Table, key: string, value: string, modifiedAt: i64, expiresAt: Option<i64>)
    requires WellWritten(table) && ArgumentError(key, value).None?
    ensures WellWritten(Entries.Upsert(table, CfgWrite(key, value, modifiedAt, expiresAt)))
  {
    Utf8.DecodeEncode(value);
  }

  function WriteOf(item: Item): Write {
    CfgWrite(item.key, item.value, item.modifiedAt, item.expiresAt)
  }

  function WritesOf(items: seq<Item>): seq<Write> {
    if items == [] then [] else [WriteOf(items[0])] + WritesOf(items[1..])
  }

  lemma RowReadsOut(table: Table, k: EntryKey)
    requires WellWritten(table) && k in table && k.class_ == CFG_CLASS
    ensures var item := ItemOf(k, table[k]);
            item.Some? && ArgumentError(item.value.key, item.value.value).None? && WriteOf(item.value) == Write(k, table[k])
  {
  }

  /** Reading a row out gives an item every node accepts, and writing it back gives the row. */
  lemma {:induction false} ReadOutWrites(table: Table, keys: seq<EntryKey>)
    requires WellWritten(table)
    requires forall i :: 0 <= i < |keys| ==> keys[i] in table && keys[i].class_ == CFG_CLASS
    ensures ItemsOf(table, keys).Ok?
    ensures forall item :: item in ItemsOf(table, keys).value ==> ArgumentError(item.key, item.value).None?
    ensures WritesOf(ItemsOf(table, keys).value) == seq(|keys|, i requires 0 <= i < |keys| => Write(keys[i], table[keys[i]]))
  {
    if keys != [] {
      ReadOutWrites(table, keys[1..]);
      var k := keys[0];
      RowReadsOut(table, k);
      hide ItemOf, WriteOf, WellWritten, ArgumentError;
      var item := ItemOf(k, table[k]).value;
      var items := ItemsOf(table, keys).value;
      assert items[0] == item && items[1..] == ItemsOf(table, keys[1..]).value;
    }
  }
}
