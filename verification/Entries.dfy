/**
 The `entries` table (schema.sql) and its newest-wins upsert (upsert.sql), with
 the convergence it is for: replicas that see the same writes hold the same rows.
 */
module Entries {
  import opened Wrappers
  import opened Bytes

  datatype EntryKey = EntryKey(class_: string, key: string)

  datatype Entry = Entry(modifiedAt: i64, expiresAt: Option<i64>, metadata: Option<seq<Byte>>)

  /** Keyed by the primary key (class, key). */
  type Table = map<EntryKey, Entry>

  datatype Write = Write(key: EntryKey, entry: Entry)

  /** `Clash` is the UNIQUE constraint error on `modified_at_micros`; nothing is written then. */
  datatype Outcome = Applied | Superseded | Clash

  /** The UNIQUE constraint of the schema. */
  ghost predicate UniqueTimes(table: Table) {
    forall k1, k2 :: k1 in table && k2 in table && table[k1].modifiedAt == table[k2].modifiedAt ==> k1 == k2
  }

  predicate TakenByOther(table: Table, k: EntryKey, t: i64) {
    exists k2 :: k2 in table && k2 != k && table[k2].modifiedAt == t
  }

  function UpsertOutcome(table: Table, w: Write): Outcome {
    if w.key in table && w.entry.modifiedAt <= table[w.key].modifiedAt then Superseded
    else if TakenByOther(table, w.key, w.entry.modifiedAt) then Clash
    else Applied
  }

  function Upsert(table: Table, w: Write): (after: Table)
    ensures UniqueTimes(table) ==> UniqueTimes(after)
    ensures w.key in table ==> w.key in after && table[w.key].modifiedAt <= after[w.key].modifiedAt
    ensures UpsertOutcome(table, w) != Clash ==> w.key in after && w.entry.modifiedAt <= after[w.key].modifiedAt
  {
    if UpsertOutcome(table, w).Applied? then table[w.key := w.entry] else table
  }

  /**
   What an upsert did, in the columns: nothing if the key has an entry at least
   as new; nothing but an error if another key has the timestamp; otherwise the
   key's row is the one given, and no other row changes.
   */
  ghost predicate NewestWins(before: Table, after: Table, w: Write, outcome: Outcome) {
    var stale := w.key in before && w.entry.modifiedAt <= before[w.key].modifiedAt;
    var taken := exists k :: k in before && k != w.key && before[k].modifiedAt == w.entry.modifiedAt;
    && (outcome.Superseded? <==> stale)
    && (outcome.Clash? <==> !stale && taken)
    && after == if stale || taken then before else before[w.key := w.entry]
  }

  function Replay(table: Table, ws: seq<Write>): (after: Table)
    ensures UniqueTimes(table) ==> UniqueTimes(after)
    decreases |ws|
  {
    if ws == [] then table else Replay(Upsert(table, ws[0]), ws[1..])
  }

  predicate NeverClashes(table: Table, ws: seq<Write>)
    decreases |ws|
  {
    ws == [] || (UpsertOutcome(table, ws[0]) != Clash && NeverClashes(Upsert(table, ws[0]), ws[1..]))
  }

  function AsSet(ws: seq<Write>): set<Write> {
    set w | w in ws
  }

  function Rows(table: Table): set<Write> {
    set k | k in table :: Write(k, table[k])
  }

  /** Equal timestamps mean the same write: what syncing nodes promise each other. */
  ghost predicate Consistent(ws: set<Write>) {
    forall w1, w2 :: w1 in ws && w2 in ws && w1.entry.modifiedAt == w2.entry.modifiedAt ==> w1 == w2
  }

  /** `table` holds, per key written in `ws`, the write with the greatest timestamp, and nothing else. */
  ghost predicate IsNewest(table: Table, ws: set<Write>) {
    && (forall k :: k in table ==> Write(k, table[k]) in ws)
    && (forall w :: w in ws ==> w.key in table && w.entry.modifiedAt <= table[w.key].modifiedAt)
  }

  lemma IsNewestUnique(t1: Table, t2: Table, ws: set<Write>)
    requires Consistent(ws) && IsNewest(t1, ws) && IsNewest(t2, ws)
    ensures t1 == t2
  {
    forall k | k in t1
      ensures k in t2 && t1[k] == t2[k]
    {
      var w1 := Write(k, t1[k]);
      assert w1 in ws;
      var w2 := Write(k, t2[k]);
      assert w2 in ws;
    }
    forall k | k in t2
      ensures k in t1
    {
      assert Write(k, t2[k]) in ws;
    }
  }

  lemma UpsertKeepsNewest(table: Table, seen: set<Write>, w: Write)
    requires Consistent(seen + {w}) && IsNewest(table, seen)
    ensures UpsertOutcome(table, w) != Clash
    ensures IsNewest(Upsert(table, w), seen + {w})
  {
    forall k | k in table && table[k].modifiedAt == w.entry.modifiedAt
      ensures k == w.key
    {
      assert Write(k, table[k]) in seen;
    }
  }

  /**
   Replaying writes in any order and with any repetition onto a table never
   hits the UNIQUE error, and ends with the newest write of each key.
   */
  lemma {:induction false} ReplayIsNewest(table: Table, seen: set<Write>, ws: seq<Write>)
    requires Consistent(seen + AsSet(ws)) && IsNewest(table, seen)
    ensures NeverClashes(table, ws)
    ensures IsNewest(Replay(table, ws), seen + AsSet(ws))
    decreases |ws|
  {
    var all := seen + AsSet(ws);
    if ws == [] {
      assert all == seen;
    } else {
      var w := ws[0];
      assert ws == [w] + ws[1..];
      assert AsSet(ws) == {w} + AsSet(ws[1..]);
      assert all == seen + {w} + AsSet(ws[1..]);
      assert Consistent(seen + {w});
      UpsertKeepsNewest(table, seen, w);
      ReplayIsNewest(Upsert(table, w), seen + {w}, ws[1..]);
    }
  }

  lemma RowsAreNewest(table: Table)
    ensures IsNewest(table, Rows(table))
  {
  }

  /** Two orders of delivery of the same writes converge on the same table. */
  lemma Convergence(table: Table, ws1: seq<Write>, ws2: seq<Write>)
    requires Consistent(Rows(table) + AsSet(ws1))
    requires AsSet(ws1) == AsSet(ws2)
    ensures NeverClashes(table, ws1) && NeverClashes(table, ws2)
    ensures Replay(table, ws1) == Replay(table, ws2)
  {
    RowsAreNewest(table);
    ReplayIsNewest(table, Rows(table), ws1);
    ReplayIsNewest(table, Rows(table), ws2);
    IsNewestUnique(Replay(table, ws1), Replay(table, ws2), Rows(table) + AsSet(ws1));
  }

  /**
   Whether an upsert changes the table depends only on its own key: a stale
   or equal write is absorbed even when its timestamp belongs to another key.
   */
  lemma UpsertExact(table: Table, w: Write)
    requires UniqueTimes(table)
    ensures var after := Upsert(table, w);
            && (after != table <==> UpsertOutcome(table, w).Applied?)
            && (UpsertOutcome(table, w).Clash? <==>
                && (w.key in table ==> table[w.key].modifiedAt < w.entry.modifiedAt)
                && !UniqueTimes(table[w.key := w.entry]))
            && forall k :: k != w.key ==> (k in after <==> k in table) && (k in table ==> after[k] == table[k])
  {
    var after := Upsert(table, w);
    var forced := table[w.key := w.entry];
    if TakenByOther(table, w.key, w.entry.modifiedAt) {
      var k :| k in table && k != w.key && table[k].modifiedAt == w.entry.modifiedAt;
      assert k in forced && w.key in forced && forced[k].modifiedAt == forced[w.key].modifiedAt;
    }
    if UpsertOutcome(table, w).Applied? {
      assert after[w.key] == w.entry;
      assert w.key !in table || table[w.key] != w.entry;
    }
  }
}
