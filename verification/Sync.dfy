/** Copying config between nodes (`read_all` replayed through explicit writes) is a semilattice join. */
module Sync {
  import opened Bytes
  import opened Entries
  import opened Listing
  import opened Order
  import opened Register

  /** One node's `read_all` replayed into another through explicit-timestamp writes. */
  function Pull(target: Table, source: Table): (after: Table)
    requires UniqueTimes(source)
    ensures UniqueTimes(target) ==> UniqueTimes(after)
  {
    match ReadOut(source)
    case Err(_) => target
    case Ok(items) => Replay(target, WritesOf(items))
  }

  /** The config rows of a node, as the writes that would recreate them. */
  function CfgWrites(table: Table): set<Write> {
    Rows(CfgRows(table))
  }

  /**
   A node whose config can be read out, and whose config rows do not clash with
   the rows of the node that pulls them: equal timestamps are the same row.
   */
  ghost predicate Pullable(target: Table, source: Table) {
    && UniqueTimes(source) && WellWritten(source) && |source| <= I64_MAX
    && Consistent(Rows(target) + CfgWrites(source))
  }

  predicate AllAccepted(items: seq<Item>) {
    forall item :: item in items ==> ArgumentError(item.key, item.value).None?
  }

  function AsKeys(keys: seq<EntryKey>): set<EntryKey> {
    set k | k in keys
  }

  /** The keys `read_all` visits are exactly those of the config rows. */
  lemma KeysAreCfgRows(source: Table)
    requires UniqueTimes(source) && |source| <= I64_MAX
    ensures AsKeys(CfgKeys(source)) == CfgRows(source).Keys
  {
    var wanted := WantedRows(source, CFG_CLASS, All);
    OrderIsTotal(source, KeyAsc, wanted);
    SubsetSize(wanted, source.Keys);
    var keys := CfgKeys(source);
    assert keys == Sort(wanted, OrderLe(source, KeyAsc));
    assert AsKeys(keys) == wanted;
    assert wanted == CfgRows(source).Keys;
  }

  /** What `read_all` hands over is exactly the config rows. */
  lemma ReadOutIsRows(source: Table)
    requires UniqueTimes(source) && WellWritten(source) && |source| <= I64_MAX
    ensures ReadOut(source).Ok? && AllAccepted(ReadOut(source).value)
    ensures AsSet(WritesOf(ReadOut(source).value)) == CfgWrites(source)
  {
    hide Listed, WellWritten;
    KeysAreCfgRows(source);
    var keys := CfgKeys(source);
    forall i | 0 <= i < |keys|
      ensures keys[i] in source && keys[i].class_ == CFG_CLASS
    {
      assert keys[i] in AsKeys(keys);
    }
    ReadOutWrites(source, keys);
    var ws := WritesOf(ReadOut(source).value);
    forall w
      ensures w in AsSet(ws) <==> w in CfgWrites(source)
    {
      if w in ws {
        var i :| 0 <= i < |ws| && ws[i] == w;
        assert w == Write(keys[i], source[keys[i]]) && keys[i] in AsKeys(keys);
      }
      if w in CfgWrites(source) {
        assert w.key in AsKeys(keys);
        var i :| 0 <= i < |keys| && keys[i] == w.key;
        assert ws[i] == w;
      }
    }
  }

  lemma CfgWithinRows(table: Table)
    ensures CfgWrites(table) <= Rows(table)
  {
  }

  lemma ConsistentWithin(ws: set<Write>, all: set<Write>)
    requires Consistent(all) && ws <= all
    ensures Consistent(ws)
  {
  }

  /** Pulling is the join: per key the newest row of either node, with no write refused. */
  lemma PullIsJoin(a: Table, b: Table)
    requires Pullable(a, b)
    ensures ReadOut(b).Ok? && AllAccepted(ReadOut(b).value) && NeverClashes(a, WritesOf(ReadOut(b).value))
    ensures IsNewest(Pull(a, b), Rows(a) + CfgWrites(b))
    ensures IsNewest(CfgRows(Pull(a, b)), CfgWrites(a) + CfgWrites(b))
  {
    hide Consistent, IsNewest, Rows, CfgRows, ReadOut;
    ReadOutIsRows(b);
    RowsAreNewest(a);
    ReplayIsNewest(a, Rows(a), WritesOf(ReadOut(b).value));
    CfgOfNewest(Pull(a, b), a, b);
  }

  lemma CfgOfNewest(joined: Table, a: Table, b: Table)
    requires IsNewest(joined, Rows(a) + CfgWrites(b))
    ensures IsNewest(CfgRows(joined), CfgWrites(a) + CfgWrites(b))
  {
    var cfg := CfgRows(joined);
    forall k | k in cfg
      ensures Write(k, cfg[k]) in CfgWrites(a) + CfgWrites(b)
    {
      var w := Write(k, joined[k]);
      assert w in Rows(a) + CfgWrites(b);
      if w in Rows(a) {
        assert k in CfgRows(a) && CfgRows(a)[k] == joined[k];
      }
    }
    forall w | w in CfgWrites(a) + CfgWrites(b)
      ensures w.key in cfg && w.entry.modifiedAt <= cfg[w.key].modifiedAt
    {
      assert w in Rows(a) + CfgWrites(b);
    }
  }

  lemma NewestAddsNothing(joined: Table, ws: set<Write>)
    requires IsNewest(joined, ws)
    ensures Rows(joined) <= ws
  {
    forall w | w in Rows(joined)
      ensures w in ws
    {
      assert Write(w.key, joined[w.key]) in ws;
    }
  }

  /** Every row of a node that pulled was its own or a config row of its peer. */
  lemma PullAddsNothing(a: Table, b: Table)
    requires Pullable(a, b)
    ensures Rows(Pull(a, b)) <= Rows(a) + CfgWrites(b)
    ensures CfgWrites(Pull(a, b)) <= CfgWrites(a) + CfgWrites(b)
  {
    PullIsJoin(a, b);
    hide Pull, Pullable, IsNewest, Rows, CfgRows;
    NewestAddsNothing(Pull(a, b), Rows(a) + CfgWrites(b));
    NewestAddsNothing(CfgRows(Pull(a, b)), CfgWrites(a) + CfgWrites(b));
  }

  lemma RowsKeys(table: Table, a: Table, b: Table)
    requires Rows(table) <= Rows(a) + CfgWrites(b)
    ensures table.Keys <= a.Keys + b.Keys
  {
    forall k | k in table.Keys
      ensures k in a.Keys + b.Keys
    {
      assert Write(k, table[k]) in Rows(table);
    }
  }

  /** So a node grows by at most its peer's rows. */
  lemma PullSize(a: Table, b: Table)
    requires Pullable(a, b)
    ensures |Pull(a, b)| <= |a| + |b|
  {
    PullAddsNothing(a, b);
    hide Pull, Pullable, Rows, CfgWrites;
    RowsKeys(Pull(a, b), a, b);
    SubsetSize(Pull(a, b).Keys, a.Keys + b.Keys);
    UnionSize(a.Keys, b.Keys);
  }

  lemma UnionSize<T>(x: set<T>, y: set<T>)
    ensures |x + y| <= |x| + |y|
  {
    assert x + y == x + (y - x);
    SubsetSize(y - x, y);
  }

  lemma WellWrittenWithin(table: Table, a: Table, b: Table)
    requires CfgWrites(table) <= CfgWrites(a) + CfgWrites(b) && WellWritten(a) && WellWritten(b)
    ensures WellWritten(table)
  {
    forall k | k in table && k.class_ == CFG_CLASS
      ensures (k in a && a[k] == table[k]) || (k in b && b[k] == table[k])
    {
      assert k in CfgRows(table) && Write(k, CfgRows(table)[k]) in CfgWrites(table);
    }
  }

  lemma ConsistentThree(a: set<Write>, b: set<Write>, c: set<Write>)
    requires Consistent(a + b) && Consistent(b + c) && Consistent(a + c)
    ensures Consistent(a + b + c)
  {
  }

  lemma PullableCfg(a: Table, b: Table, c: Table)
    requires Pullable(a, b) && Pullable(a, c) && Pullable(b, c)
    ensures Consistent(Rows(a) + CfgWrites(b) + CfgWrites(c))
    ensures Consistent(CfgWrites(a) + CfgWrites(b) + CfgWrites(c))
  {
    hide Consistent, Rows, CfgRows, WellWritten, UniqueTimes;
    CfgWithinRows(a);
    CfgWithinRows(b);
    ConsistentWithin(CfgWrites(b) + CfgWrites(c), Rows(b) + CfgWrites(c));
    ConsistentThree(Rows(a), CfgWrites(b), CfgWrites(c));
    ConsistentWithin(CfgWrites(a) + CfgWrites(b) + CfgWrites(c), Rows(a) + CfgWrites(b) + CfgWrites(c));
  }

  /** A node that pulled can pull from a third. */
  lemma PullKeepsPulling(a: Table, b: Table, c: Table)
    requires Pullable(a, b) && Pullable(a, c) && Pullable(b, c)
    ensures Pullable(Pull(a, b), c)
  {
    PullableCfg(a, b, c);
    PullAddsNothing(a, b);
    hide Pull, Consistent, Rows, CfgWrites, WellWritten, UniqueTimes;
    ConsistentWithin(Rows(Pull(a, b)) + CfgWrites(c), Rows(a) + CfgWrites(b) + CfgWrites(c));
  }

  /** A node that pulled can be pulled from. */
  lemma PullKeepsPullable(a: Table, b: Table, c: Table)
    requires Pullable(a, b) && Pullable(a, c) && Pullable(b, c) && |Pull(b, c)| <= I64_MAX
    ensures Pullable(a, Pull(b, c))
  {
    PullableCfg(a, b, c);
    PullAddsNothing(b, c);
    WellWrittenWithin(Pull(b, c), b, c);
    hide Pull, Consistent, Rows, CfgWrites, WellWritten, UniqueTimes;
    ConsistentWithin(Rows(a) + CfgWrites(Pull(b, c)), Rows(a) + CfgWrites(b) + CfgWrites(c));
  }

  lemma SelfPullable(a: Table)
    requires UniqueTimes(a) && WellWritten(a) && |a| <= I64_MAX
    ensures Pullable(a, a)
  {
    CfgWithinRows(a);
    assert Consistent(Rows(a));
    hide Consistent, Rows, CfgWrites;
    ConsistentWithin(Rows(a) + CfgWrites(a), Rows(a));
  }

  lemma PullIdempotent(a: Table)
    requires UniqueTimes(a) && WellWritten(a) && |a| <= I64_MAX
    ensures Pull(a, a) == a
  {
    SelfPullable(a);
    PullIsJoin(a, a);
    RowsAreNewest(a);
    CfgWithinRows(a);
    hide Pull, WellWritten, UniqueTimes, Consistent, IsNewest, Rows, CfgWrites;
    assert Rows(a) + CfgWrites(a) == Rows(a);
    IsNewestUnique(Pull(a, a), a, Rows(a));
  }

  /** Two nodes that pull from each other at the same moment hold the same config. */
  lemma PullCommutes(a: Table, b: Table)
    requires Pullable(a, b) && Pullable(b, a)
    ensures CfgRows(Pull(a, b)) == CfgRows(Pull(b, a))
  {
    PullIsJoin(a, b);
    PullIsJoin(b, a);
    CfgWithinRows(a);
    hide Pull, WellWritten, UniqueTimes, Consistent, IsNewest, Rows, CfgWrites;
    var ws := CfgWrites(a) + CfgWrites(b);
    assert CfgWrites(b) + CfgWrites(a) == ws;
    ConsistentWithin(ws, Rows(a) + CfgWrites(b));
    IsNewestUnique(CfgRows(Pull(a, b)), CfgRows(Pull(b, a)), ws);
  }

  /** Joining with an already joined node equals joining with its sources. */
  lemma JoinOfJoin(joined: Table, ab: Table, ws: set<Write>, more: set<Write>)
    requires IsNewest(ab, ws) && IsNewest(joined, Rows(ab) + more)
    ensures IsNewest(joined, ws + more)
  {
    forall w | w in ws + more
      ensures w.key in joined && w.entry.modifiedAt <= joined[w.key].modifiedAt
    {
      if w in ws {
        assert Write(w.key, ab[w.key]) in Rows(ab) + more;
      } else {
        assert w in Rows(ab) + more;
      }
    }
    forall k | k in joined
      ensures Write(k, joined[k]) in ws + more
    {
      assert Write(k, joined[k]) in Rows(ab) + more;
    }
  }

  lemma JoinWithJoin(joined: Table, bc: Table, a: set<Write>, b: set<Write>, c: set<Write>)
    requires IsNewest(bc, b + c) && IsNewest(joined, a + Rows(bc))
    ensures IsNewest(joined, a + b + c)
  {
    assert a + Rows(bc) == Rows(bc) + a;
    assert b + c + a == a + b + c;
    hide IsNewest, Rows;
    JoinOfJoin(joined, bc, b + c, a);
  }

  /** Pulling twice leaves the newest row of the three sources. */
  lemma PullTwice(a: Table, b: Table, c: Table)
    requires Pullable(a, b) && Pullable(a, c) && Pullable(b, c)
    ensures IsNewest(CfgRows(Pull(Pull(a, b), c)), CfgWrites(a) + CfgWrites(b) + CfgWrites(c))
  {
    assert UniqueTimes(b) && UniqueTimes(c);
    hide Pull, Pullable, UniqueTimes, IsNewest, Rows, CfgRows;
    PullKeepsPulling(a, b, c);
    PullIsJoin(a, b);
    PullIsJoin(Pull(a, b), c);
    JoinOfJoin(CfgRows(Pull(Pull(a, b), c)), CfgRows(Pull(a, b)), CfgWrites(a) + CfgWrites(b), CfgWrites(c));
  }

  /** The same, when the node pulled from had pulled before. */
  lemma PullFromPuller(a: Table, b: Table, c: Table)
    requires Pullable(a, b) && Pullable(a, c) && Pullable(b, c) && |Pull(b, c)| <= I64_MAX
    ensures IsNewest(CfgRows(Pull(a, Pull(b, c))), CfgWrites(a) + CfgWrites(b) + CfgWrites(c))
  {
    assert UniqueTimes(b) && UniqueTimes(c) && UniqueTimes(Pull(b, c));
    hide Pull, Pullable, UniqueTimes, IsNewest, Rows, CfgRows;
    PullKeepsPullable(a, b, c);
    var bc := Pull(b, c);
    PullIsJoin(b, c);
    PullIsJoin(a, bc);
    JoinWithJoin(CfgRows(Pull(a, bc)), CfgRows(bc), CfgWrites(a), CfgWrites(b), CfgWrites(c));
  }

  lemma PullAssociates(a: Table, b: Table, c: Table)
    requires Pullable(a, b) && Pullable(a, c) && Pullable(b, c) && |b| + |c| <= I64_MAX
    ensures CfgRows(Pull(Pull(a, b), c)) == CfgRows(Pull(a, Pull(b, c)))
  {
    assert UniqueTimes(b) && UniqueTimes(c) && UniqueTimes(Pull(b, c));
    PullSize(b, c);
    hide Pull, Pullable, UniqueTimes, Consistent, IsNewest, Rows, CfgRows;
    PullTwice(a, b, c);
    PullFromPuller(a, b, c);
    PullableCfg(a, b, c);
    IsNewestUnique(CfgRows(Pull(Pull(a, b), c)), CfgRows(Pull(a, Pull(b, c))),
                   CfgWrites(a) + CfgWrites(b) + CfgWrites(c));
  }

  /** Pulling in both directions, one after the other, leaves both nodes with equal config. */
  lemma ExchangeEqualises(a: Table, b: Table)
    requires Pullable(a, b) && Pullable(b, a) && |a| + |b| <= I64_MAX
    ensures var a1 := Pull(a, b);
            CfgRows(Pull(b, a1)) == CfgRows(a1)
  {
    assert UniqueTimes(a) && UniqueTimes(b) && UniqueTimes(Pull(a, b));
    PullSize(a, b);
    SelfPullable(b);
    hide Pull, Pullable, UniqueTimes, Consistent, IsNewest, Rows, CfgRows;
    var a1 := Pull(a, b);
    PullIsJoin(a, b);
    PullFromPuller(b, a, b);
    PullableCfg(b, a, b);
    SameUnion(CfgWrites(a), CfgWrites(b));
    IsNewestUnique(CfgRows(Pull(b, a1)), CfgRows(a1), CfgWrites(a) + CfgWrites(b));
  }

  lemma SameUnion(x: set<Write>, y: set<Write>)
    ensures y + x + y == x + y
  {
  }

  /** A row that is already newer, such as a tombstone, survives an older row for its key, whichever way it is pulled. */
  lemma NoResurrection(a: Table, b: Table, k: EntryKey)
    requires Pullable(a, b) && Pullable(b, a) && k in a && k in b && k.class_ == CFG_CLASS
    requires b[k].modifiedAt < a[k].modifiedAt
    ensures k in Pull(a, b) && Pull(a, b)[k] == a[k]
    ensures k in Pull(b, a) && Pull(b, a)[k] == a[k]
  {
    PullIsJoin(a, b);
    PullIsJoin(b, a);
    hide Pull, Pullable, UniqueTimes, IsNewest, Rows, CfgRows;
    JoinTakesNewer(Pull(a, b), a, b, k, a, b);
    JoinTakesNewer(Pull(b, a), a, b, k, b, a);
  }

  lemma JoinTakesNewer(joined: Table, a: Table, b: Table, k: EntryKey, target: Table, source: Table)
    requires IsNewest(joined, Rows(target) + CfgWrites(source))
    requires (target == a && source == b) || (target == b && source == a)
    requires k in a && k in b && k.class_ == CFG_CLASS && b[k].modifiedAt < a[k].modifiedAt
    ensures k in joined && joined[k] == a[k]
  {
    var all := Rows(target) + CfgWrites(source);
    assert k in CfgRows(a) && CfgRows(a)[k] == a[k];
    assert Write(k, a[k]) in Rows(a) && Write(k, a[k]) in CfgWrites(a);
    assert Write(k, a[k]) in all;
    assert k in joined && a[k].modifiedAt <= joined[k].modifiedAt;
    assert Write(k, joined[k]) in all;
  }
}
