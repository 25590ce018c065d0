/** The SQL connection (sql.rs): each method is one transaction over the two tables. */
module SqlConnection {
  import opened Wrappers
  import opened Bytes
  import opened Entries
  import opened Blobs
  import opened Order
  import opened Listing
  import Utf8

  datatype SqlError = UniqueTimestamp | ForeignKey | SqlFailure

  predicate Expired(e: Entry, now: i64) {
    e.expiresAt.Some? && e.expiresAt.value <= now
  }

  function ExpiredKeys(table: Table, now: i64): set<EntryKey> {
    set k | k in table && Expired(table[k], now)
  }

  function ExpiryOf(table: Table, k: EntryKey): int {
    if k in table && table[k].expiresAt.Some? then table[k].expiresAt.value else 0
  }

  /** ORDER BY expires_at_micros, class, key */
  function ExpiryLe(table: Table): (EntryKey, EntryKey) -> bool {
    (a, b) => ExpiryOf(table, a) < ExpiryOf(table, b) || (ExpiryOf(table, a) == ExpiryOf(table, b) && KeyLe(a, b))
  }

  lemma ExpiryIsTotal(table: Table, rows: set<EntryKey>)
    ensures TotalOn(rows, ExpiryLe(table))
  {
    forall a: EntryKey, b: EntryKey
      ensures KeyLe(a, b) || KeyLe(b, a)
      ensures KeyLe(a, b) && KeyLe(b, a) ==> a == b
    {
      KeyLeTotal(a, b);
    }
    forall a: EntryKey, b: EntryKey, c: EntryKey | KeyLe(a, b) && KeyLe(b, c)
      ensures KeyLe(a, c)
    {
      KeyLeTransitive(a, b, c);
    }
  }

  /** The subquery that both prune statements share. */
  function Batch(table: Table, now: i64, limit: int): (batch: seq<EntryKey>)
    ensures forall k :: k in batch ==> k in ExpiredKeys(table, now)
    ensures limit >= 0 ==> |batch| <= limit
    ensures limit >= 0 && |batch| < limit ==> forall k :: k in ExpiredKeys(table, now) ==> k in batch
  {
    ExpiryIsTotal(table, ExpiredKeys(table, now));
    Limit(Sort(ExpiredKeys(table, now), ExpiryLe(table)), limit)
  }

  function KeySet(ks: seq<EntryKey>): set<EntryKey> {
    set k | k in ks
  }

  /**
   The batch is the earliest expirations: whatever had expired and is left out
   expires later than anything taken, or at the same time and has the greater
   class or key, by their bytes.
   */
  lemma BatchIsEarliest(table: Table, now: i64, limit: int, taken: EntryKey, left: EntryKey)
    requires taken in Batch(table, now, limit)
    requires left in table && table[left].expiresAt.Some? && table[left].expiresAt.value <= now
    requires left !in Batch(table, now, limit)
    ensures taken in table && table[taken].expiresAt.Some? && table[taken].expiresAt.value <= now
    ensures var t, l := table[taken].expiresAt.value, table[left].expiresAt.value;
            || t < l
            || (t == l
                && if taken.class_ == left.class_ then Precedes(Utf8.Encode(taken.key), Utf8.Encode(left.key))
                   else Precedes(Utf8.Encode(taken.class_), Utf8.Encode(left.class_)))
  {
    ExpiryIsTotal(table, ExpiredKeys(table, now));
    var all := Sort(ExpiredKeys(table, now), ExpiryLe(table));
    var n := |Batch(table, now, limit)|;
    assert Batch(table, now, limit) == all[..n];
    hide Batch, Precedes, TextLe, Lists, TotalOn;
    PrefixIsLeast(all, ExpiredKeys(table, now), ExpiryLe(table), n, taken, left);
    KeyLePrecedes(taken, left);
  }

  lemma {:induction false} BatchSize(ks: seq<EntryKey>)
    requires forall i, j :: 0 <= i < j < |ks| ==> ks[i] != ks[j]
    ensures |KeySet(ks)| == |ks|
  {
    if ks == [] {
      assert KeySet(ks) == {};
    } else {
      BatchSize(ks[1..]);
      assert KeySet(ks) == KeySet(ks[1..]) + {ks[0]};
      assert ks[0] !in KeySet(ks[1..]);
    }
  }

  lemma BatchHasNoRepeats(table: Table, now: i64, limit: int)
    ensures |KeySet(Batch(table, now, limit))| == |Batch(table, now, limit)|
  {
    ExpiryIsTotal(table, ExpiredKeys(table, now));
    var all := Sort(ExpiredKeys(table, now), ExpiryLe(table));
    BatchSize(Batch(table, now, limit));
  }

  /** The redundant blob id column holds the id derived for the row's own chunk. */
  ghost predicate RowsNameTheirBlobs(chunks: Chunks) {
    forall ck :: ck in chunks ==> chunks[ck].blobId.ck == ck
  }

  datatype ListRow = ListRow(key: EntryKey, entry: Entry, chunkCount: nat)

  /**
   A list as the caller sees it: entries of the class with their rows counted,
   in the byte order of their keys or in time order, up to the limit; with an
   honoured filter all of them fit it, and what fits and is not listed stands
   behind everything that is, the limit being reached.
   */
  ghost predicate IsList(out: seq<ListRow>, entries: Table, chunks: Chunks,
                         class_: string, filter: Filter, sort: SortBy, limit: int) {
    && AreCounted(out, entries, chunks)
    && (forall i :: 0 <= i < |out| ==> out[i].key.class_ == class_)
    && (forall i, j :: 0 <= i < j < |out| ==> Before(sort, out[i].key, out[i].entry, out[j].key, out[j].entry))
    && (limit >= 0 ==> |out| <= limit)
    && (Honoured(entries, class_, filter) ==>
          && (forall i :: 0 <= i < |out| ==> Wanted(class_, filter, out[i].key, out[i].entry))
          && LeavesOutOnlyLater(out, entries, WantedRows(entries, class_, filter), sort, limit))
  }

  ghost predicate AreCounted(out: seq<ListRow>, entries: Table, chunks: Chunks) {
    forall i :: 0 <= i < |out| ==>
      && out[i].key in entries && out[i].entry == entries[out[i].key]
      && out[i].chunkCount == |set ck | ck in chunks && ck.entry == out[i].key|
  }

  /** Each of some entries is listed, or the limit is reached and it stands behind all that are. */
  ghost predicate LeavesOutOnlyLater(out: seq<ListRow>, entries: Table, rows: set<EntryKey>, sort: SortBy, limit: int) {
    forall k :: k in rows && k in entries ==>
      || (exists i :: 0 <= i < |out| && out[i].key == k)
      || (|out| == limit && forall i :: 0 <= i < |out| ==> Before(sort, out[i].key, out[i].entry, k, entries[k]))
  }

  /** The rows of some keys of the table. */
  ghost predicate RowsAt(out: seq<ListRow>, keys: seq<EntryKey>, entries: Table, chunks: Chunks) {
    && |out| == |keys|
    && forall i :: 0 <= i < |keys| ==>
         keys[i] in entries && out[i] == ListRow(keys[i], entries[keys[i]], CountChunks(chunks, keys[i]))
  }

  lemma AnswerIsList(out: seq<ListRow>, entries: Table, chunks: Chunks,
                     class_: string, filter: Filter, sort: SortBy, limit: int)
    requires UniqueTimes(entries)
    requires RowsAt(out, Answered(entries, class_, filter, sort, limit), entries, chunks)
    ensures IsList(out, entries, chunks, class_, filter, sort, limit)
  {
    var keys := Answered(entries, class_, filter, sort, limit);
    var rows := CodedRows(entries, class_, filter);
    AnswerInOrder(entries, class_, filter, sort, limit);
    AnswerFits(entries, class_, filter, sort, limit);
    hide Answered, CodedRows, WantedRows, Wanted, Honoured, Before, UniqueTimes, AreCounted, LeavesOutOnlyLater, InOrder, RowsAt;
    RowsCounted(out, keys, entries, chunks);
    RowsInOrder(out, keys, rows, entries, chunks, sort, limit);
  }

  lemma AnswerFits(entries: Table, class_: string, filter: Filter, sort: SortBy, limit: int)
    requires UniqueTimes(entries)
    ensures Honoured(entries, class_, filter) ==>
              CodedRows(entries, class_, filter) == WantedRows(entries, class_, filter)
    ensures forall k :: k in Answered(entries, class_, filter, sort, limit) ==>
              && k in entries && k.class_ == class_
              && (Honoured(entries, class_, filter) ==> Wanted(class_, filter, k, entries[k]))
  {
    RowsAgreeIff(entries, class_, filter);
    hide Honoured, Answered;
  }

  lemma RowsCounted(out: seq<ListRow>, keys: seq<EntryKey>, entries: Table, chunks: Chunks)
    requires RowsAt(out, keys, entries, chunks)
    ensures AreCounted(out, entries, chunks)
  {
    forall i | 0 <= i < |out|
      ensures out[i].chunkCount == |set ck | ck in chunks && ck.entry == out[i].key|
    {
      assert RowsOf(chunks, {keys[i]}) == set ck | ck in chunks && ck.entry == keys[i];
    }
  }

  lemma RowsInOrder(out: seq<ListRow>, keys: seq<EntryKey>, rows: set<EntryKey>, entries: Table, chunks: Chunks,
                    sort: SortBy, limit: int)
    requires RowsAt(out, keys, entries, chunks) && InOrder(entries, keys, rows, sort, limit)
    ensures forall i :: 0 <= i < |out| ==> out[i].key in keys && out[i].key in entries && out[i].entry == entries[out[i].key]
    ensures forall i, j :: 0 <= i < j < |out| ==> Before(sort, out[i].key, out[i].entry, out[j].key, out[j].entry)
    ensures |out| == |keys| && (limit >= 0 ==> |out| <= limit)
    ensures LeavesOutOnlyLater(out, entries, rows, sort, limit)
  {
    hide Before, CountChunks;
    forall k | k in rows && k in keys
      ensures exists i :: 0 <= i < |out| && out[i].key == k
    {
      var i :| 0 <= i < |keys| && keys[i] == k;
      assert out[i].key == k;
    }
  }

  class Sql {
    var entries: Table
    var chunks: Chunks

    /** What the schema itself enforces: UNIQUE timestamps and the foreign key of chunk rows. */
    ghost predicate Valid()
      reads this
    {
      && UniqueTimes(entries)
      && forall ck :: ck in chunks ==> ck.entry in entries
    }

    constructor ()
      ensures Valid() && entries == map[] && chunks == map[]
    {
      entries, chunks := map[], map[];
    }

    /** `fails` stands for any error of the database other than the UNIQUE constraint; nothing is written then. */
    method Upsert(w: Write, fails: bool) returns (r: Result<bool, SqlError>)
      requires Valid()
      modifies this`entries
      ensures Valid()
      ensures entries == if fails then old(entries) else Entries.Upsert(old(entries), w)
      ensures r == if fails then Err(SqlFailure) else
                   match UpsertOutcome(old(entries), w) {
                     case Applied => Ok(true)
                     case Superseded => Ok(false)
                     case Clash => Err(UniqueTimestamp)
                   }
      ensures !fails ==>
                NewestWins(old(entries), entries, w,
                           if r == Ok(true) then Applied else if r == Ok(false) then Superseded else Clash)
    {
      if fails {
        return Err(SqlFailure);
      }
      if w.key in entries {
        if w.entry.modifiedAt <= entries[w.key].modifiedAt {
          return Ok(false);
        }
      }
      if TakenByOther(entries, w.key, w.entry.modifiedAt) {
        return Err(UniqueTimestamp);
      }
      entries := entries[w.key := w.entry];
      return Ok(true);
    }

    /** Replaces the row of one chunk and returns the blob that row named before, unless it is the same. */
    method UpsertChunk(ck: ChunkKey, row: ChunkRow, fails: bool) returns (r: Result<Option<BlobId>, SqlError>)
      requires Valid()
      modifies this`chunks
      ensures Valid()
      ensures r.Err? <==> fails || ck.entry !in entries
      ensures r.Err? ==> chunks == old(chunks) && r.error == if ck.entry !in entries then ForeignKey else SqlFailure
      ensures r.Ok? ==> chunks == old(chunks)[ck := row]
      ensures r.Ok? ==>
                r.value == if ck in old(chunks) && old(chunks)[ck].blobId != row.blobId
                           then Some(old(chunks)[ck].blobId) else None
    {
      var prev := if ck in chunks then Some(chunks[ck].blobId) else None;
      if ck.entry !in entries {
        return Err(ForeignKey);
      }
      if fails {
        return Err(SqlFailure);
      }
      chunks := chunks[ck := row];
      if prev == Some(row.blobId) {
        prev := None;
      }
      return Ok(prev);
    }

    /** Whether any row names the blob: where rows name their own blobs, whether the row of its own chunk does. */
    method BlobIdExists(id: BlobId) returns (found: bool)
      requires RowsNameTheirBlobs(chunks)
      ensures found <==> id.ck in chunks && chunks[id.ck].blobId == id
    {
      found := exists ck :: ck in chunks && chunks[ck].blobId == id;
    }

    /** `SELECT blob_id` over a set of rows, in whatever order SQLite visits them. */
    method SelectBlobIds(rows: set<ChunkKey>) returns (out: seq<BlobId>)
      requires rows <= chunks.Keys
      ensures BlobIdsOf(out, chunks, rows)
    {
      out := [];
      var todo := rows;
      while todo != {}
        invariant todo <= rows
        invariant BlobIdsOf(out, chunks, rows - todo)
        decreases todo
      {
        var ck :| ck in todo;
        ghost var done := rows - todo;
        out := out + [chunks[ck].blobId];
        todo := todo - {ck};
        assert rows - todo == done + {ck};
        forall id | id in out
          ensures exists r :: r in rows - todo && chunks[r].blobId == id
        {
          if id != chunks[ck].blobId {
            assert id in out[..|out| - 1];
            var r :| r in done && chunks[r].blobId == id;
            assert r in rows - todo;
          } else {
            assert ck in rows - todo;
          }
        }
      }
      assert rows - {} == rows;
    }

    /** Removes an entry; its chunk rows go with it by the cascading foreign key. */
    method Rm(k: EntryKey, fails: bool) returns (r: Result<seq<BlobId>, SqlError>)
      requires Valid()
      modifies this
      ensures Valid()
      ensures r.Err? <==> fails
      ensures r.Err? ==> r.error == SqlFailure && entries == old(entries) && chunks == old(chunks)
      ensures r.Ok? ==>
                && entries == old(entries) - {k}
                && chunks == WithoutRowsOf(old(chunks), {k})
                && BlobIdsOf(r.value, old(chunks), RowsOf(old(chunks), {k}))
    {
      var out := SelectBlobIds(RowsOf(chunks, {k}));
      if fails {
        return Err(SqlFailure);
      }
      entries := entries - {k};
      chunks := WithoutRowsOf(chunks, {k});
      return Ok(out);
    }

    /** Both statements of the transaction work out the batch for themselves, and it is the same one. */
    method PruneExpired(now: i64, limit: i64, fails: bool) returns (r: Result<(nat, seq<BlobId>), SqlError>)
      requires Valid()
      modifies this
      ensures Valid()
      ensures r.Err? <==> fails
      ensures r.Err? ==> r.error == SqlFailure && entries == old(entries) && chunks == old(chunks)
      ensures var batch := KeySet(Batch(old(entries), now, limit));
              r.Ok? ==>
                && entries == old(entries) - batch
                && chunks == WithoutRowsOf(old(chunks), batch)
                && r.value.0 == |batch|
                && BlobIdsOf(r.value.1, old(chunks), RowsOf(old(chunks), batch))
    {
      var blobIds := SelectBlobIds(RowsOf(chunks, KeySet(Batch(entries, now, limit))));
      if fails {
        return Err(SqlFailure);
      }
      var doomed := KeySet(Batch(entries, now, limit));
      entries := entries - doomed;
      chunks := WithoutRowsOf(chunks, doomed);
      return Ok((|doomed|, blobIds));
    }

    method QueryKeys(class_: string, filter: Filter, sort: SortBy, limit: i64) returns (keys: seq<EntryKey>)
      requires Valid()
      ensures forall i :: 0 <= i < |keys| ==> keys[i] in entries
      ensures keys == Answered(entries, class_, filter, sort, limit)
    {
      var q, params := BuildQuery(class_, filter, sort, limit);
      QueryMeaning(entries, q, params, class_, filter, limit);
      keys := Execute(entries, q, params).value;
    }

    method CollectRows(keys: seq<EntryKey>) returns (out: seq<ListRow>)
      requires forall i :: 0 <= i < |keys| ==> keys[i] in entries
      ensures RowsAt(out, keys, entries, chunks)
    {
      out := [];
      for i := 0 to |keys|
        invariant RowsAt(out, keys[..i], entries, chunks)
      {
        out := out + [ListRow(keys[i], entries[keys[i]], CountChunks(chunks, keys[i]))];
      }
      assert keys[..|keys|] == keys;
    }

    /** Builds the query, runs it and collects the rows; every row counts its entry's chunks. */
    method List(class_: string, filter: Filter, sort: SortBy, limit: i64) returns (out: seq<ListRow>)
      requires Valid()
      ensures RowsAt(out, Answered(entries, class_, filter, sort, limit), entries, chunks)
      ensures Honoured(entries, class_, filter) ==>
                RowsAt(out, Listed(entries, class_, filter, sort, limit), entries, chunks)
      ensures IsList(out, entries, chunks, class_, filter, sort, limit)
    {
      var keys := QueryKeys(class_, filter, sort, limit);
      out := CollectRows(keys);
      hide IsList, RowsAt;
      AnswerIsList(out, entries, chunks, class_, filter, sort, limit);
      if Honoured(entries, class_, filter) {
        AnswerIsListed(entries, class_, filter, sort, limit);
      }
    }
  }
}
