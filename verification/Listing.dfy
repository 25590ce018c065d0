/** The query `list` builds clause by clause (sql.rs), what it selects, and paging on top of it. */
module Listing {
  import opened Wrappers
  import opened Bytes
  import opened Entries
  import opened Order
  import Glob
  import Utf8

  datatype Bound = Unbounded | Included(t: i64) | Excluded(t: i64)

  datatype Filter = All | KeyPrefix(prefix: string) | TimeRange(start: Bound, end: Bound)

  datatype SortBy = KeyAsc | KeyDesc | TimeAsc | TimeDesc

  datatype Param = Text(s: string) | Int(n: int)

  datatype Op = Ge | Gt | Le | Lt

  /** One conjunct of the WHERE clause; `n` is the number after the question mark. */
  datatype Clause = ClassIs(n: nat) | KeyGlob(n: nat) | TimeIs(op: Op, n: nat)

  datatype Query = Query(where_: seq<Clause>, order: SortBy, limit: nat)

  /** `?n` is the n-th parameter pushed, counting from one. */
  predicate Bind(params: seq<Param>, n: nat) {
    1 <= n <= |params|
  }

  predicate ClauseHolds(clause: Clause, params: seq<Param>, k: EntryKey, e: Entry) {
    Bind(params, clause.n) &&
    match (clause, params[clause.n - 1])
    case (ClassIs(_), Text(s)) => k.class_ == s
    case (KeyGlob(_), Text(s)) => Glob.SqlGlob(s, k.key)
    case (TimeIs(op, _), Int(t)) =>
      (match op
       case Ge => e.modifiedAt >= t
       case Gt => e.modifiedAt > t
       case Le => e.modifiedAt <= t
       case Lt => e.modifiedAt < t)
    case _ => false
  }

  predicate Selects(q: Query, params: seq<Param>, k: EntryKey, e: Entry) {
    forall i :: 0 <= i < |q.where_| ==> ClauseHolds(q.where_[i], params, k, e)
  }

  predicate KeyLe(a: EntryKey, b: EntryKey) {
    if a.class_ == b.class_ then TextLe(a.key, b.key) else TextLe(a.class_, b.class_)
  }

  function TimeOf(table: Table, k: EntryKey): int {
    if k in table then table[k].modifiedAt else 0
  }

  function OrderLe(table: Table, sort: SortBy): (EntryKey, EntryKey) -> bool {
    match sort
    case KeyAsc => (a, b) => KeyLe(a, b)
    case KeyDesc => (a, b) => KeyLe(b, a)
    case TimeAsc => (a, b) => TimeOf(table, a) <= TimeOf(table, b)
    case TimeDesc => (a, b) => TimeOf(table, b) <= TimeOf(table, a)
  }

  lemma KeyLeTotal(a: EntryKey, b: EntryKey)
    ensures KeyLe(a, b) || KeyLe(b, a)
    ensures KeyLe(a, b) && KeyLe(b, a) ==> a == b
  {
    TextTotal(a.class_, b.class_);
    TextTotal(a.key, b.key);
  }

  lemma KeyLeTransitive(a: EntryKey, b: EntryKey, c: EntryKey)
    requires KeyLe(a, b) && KeyLe(b, c)
    ensures KeyLe(a, c)
  {
    if a.class_ == b.class_ == c.class_ {
      TextTransitive(a.key, b.key, c.key);
    } else if a.class_ != b.class_ && b.class_ != c.class_ {
      TextTransitive(a.class_, b.class_, c.class_);
      TextTotal(a.class_, b.class_);
    }
  }

  /** The primary key and the UNIQUE timestamp make every sort order of `list` total. */
  lemma OrderIsTotal(table: Table, sort: SortBy, rows: set<EntryKey>)
    requires UniqueTimes(table) && rows <= table.Keys
    ensures TotalOn(rows, OrderLe(table, sort))
  {
    if sort.KeyAsc? || sort.KeyDesc? {
      forall a: EntryKey, b: EntryKey
        ensures KeyLe(a, b) || KeyLe(b, a)
        ensures KeyLe(a, b) && KeyLe(b, a) ==> a == b
      {
        KeyLeTotal(a, b);
      }
      forall a: EntryKey, b: EntryKey, c: EntryKey | KeyLe(a, b) && KeyLe(b, c)
        ensures KeyLe(a, c)
      {
        KeyLeTransitive(a, b, c);
      }
    }
  }

  /** SQLite's LIMIT: a negative value is no limit. */
  function Limit<T>(xs: seq<T>, limit: int): seq<T> {
    if limit < 0 || limit >= |xs| then xs else xs[..limit]
  }

  function Execute(table: Table, q: Query, params: seq<Param>): (keys: Option<seq<EntryKey>>)
    requires UniqueTimes(table)
    ensures keys.Some? <==> Bind(params, q.limit) && params[q.limit - 1].Int?
    ensures keys.Some? ==> forall i :: 0 <= i < |keys.value| ==> keys.value[i] in table
  {
    if !Bind(params, q.limit) || !params[q.limit - 1].Int? then None
    else
      var rows := set k | k in table && Selects(q, params, k, table[k]);
      OrderIsTotal(table, q.order, rows);
      Some(Limit(Sort(rows, OrderLe(table, q.order)), params[q.limit - 1].n))
  }

  /** What the caller asked for, in the terms of the filter's documentation. */
  predicate Wanted(class_: string, filter: Filter, k: EntryKey, e: Entry) {
    && k.class_ == class_
    && match filter {
         case All => true
         case KeyPrefix(prefix) => prefix <= k.key
         case TimeRange(start, end) =>
           && (start.Included? ==> start.t <= e.modifiedAt) && (start.Excluded? ==> start.t < e.modifiedAt)
           && (end.Included? ==> e.modifiedAt <= end.t) && (end.Excluded? ==> e.modifiedAt < end.t)
       }
  }

  /** One entry of a class stands before another: keys by the bytes of their UTF-8 form, or times. */
  ghost predicate Before(sort: SortBy, k1: EntryKey, e1: Entry, k2: EntryKey, e2: Entry) {
    match sort
    case KeyAsc => Precedes(Utf8.Encode(k1.key), Utf8.Encode(k2.key))
    case KeyDesc => Precedes(Utf8.Encode(k2.key), Utf8.Encode(k1.key))
    case TimeAsc => e1.modifiedAt < e2.modifiedAt
    case TimeDesc => e2.modifiedAt < e1.modifiedAt
  }

  /** The order of keys is that of the bytes of class, then key. */
  lemma KeyLePrecedes(a: EntryKey, b: EntryKey)
    requires a != b
    ensures KeyLe(a, b) <==>
            if a.class_ == b.class_ then Precedes(Utf8.Encode(a.key), Utf8.Encode(b.key))
            else Precedes(Utf8.Encode(a.class_), Utf8.Encode(b.class_))
  {
    var x, y := if a.class_ == b.class_ then a.key else a.class_, if a.class_ == b.class_ then b.key else b.class_;
    if Utf8.Encode(x) == Utf8.Encode(y) {
      Utf8.EncodeInjective(x, y);
    }
    BytesLeIsPrecedes(Utf8.Encode(x), Utf8.Encode(y));
  }

  /** What the order of the query says about two entries of one class. */
  lemma OrderIsBefore(table: Table, sort: SortBy, a: EntryKey, b: EntryKey)
    requires UniqueTimes(table) && a in table && b in table && a != b && a.class_ == b.class_
    ensures OrderLe(table, sort)(a, b) <==> Before(sort, a, table[a], b, table[b])
  {
    KeyLePrecedes(a, b);
    KeyLePrecedes(b, a);
    hide KeyLe, Precedes;
  }

  predicate AfterStart(start: Bound, t: int) {
    match start
    case Unbounded => true
    case Included(from) => from <= t
    case Excluded(from) => from < t
  }

  predicate BeforeEnd(end: Bound, t: int) {
    match end
    case Unbounded => true
    case Included(to) => t <= to
    case Excluded(to) => t < to
  }

  function WantedRows(table: Table, class_: string, filter: Filter): set<EntryKey> {
    set k | k in table && Wanted(class_, filter, k, table[k])
  }

  function Listed(table: Table, class_: string, filter: Filter, sort: SortBy, limit: int): (keys: seq<EntryKey>)
    requires UniqueTimes(table)
    ensures forall k :: k in keys ==> k in WantedRows(table, class_, filter)
  {
    var rows := WantedRows(table, class_, filter);
    OrderIsTotal(table, sort, rows);
    Limit(Sort(rows, OrderLe(table, sort)), limit)
  }

  /** What the built query selects: like `Wanted`, but an unbounded start means zero and a NUL ends a prefix. */
  predicate Coded(class_: string, filter: Filter, k: EntryKey, e: Entry) {
    && k.class_ == class_
    && match filter {
         case All => true
         case KeyPrefix(prefix) => Glob.SqlGlob(Glob.Escape(prefix) + "*", k.key)
         case TimeRange(start, end) =>
           && (if start.Unbounded? then 0 <= e.modifiedAt else AfterStart(start, e.modifiedAt))
           && BeforeEnd(end, e.modifiedAt)
       }
  }

  function StartCompare(start: Bound): (Op, Param) {
    match start
    case Unbounded => (Ge, Int(0))
    case Included(t) => (Ge, Int(t))
    case Excluded(t) => (Gt, Int(t))
  }

  function EndCompare(end: Bound): (Op, Param) {
    match end
    case Unbounded => (Le, Int(I64_MAX))
    case Included(t) => (Le, Int(t))
    case Excluded(t) => (Lt, Int(t))
  }

  method AddRange(start: Bound, end: Bound, clauses0: seq<Clause>, params0: seq<Param>)
    returns (clauses: seq<Clause>, params: seq<Param>)
    ensures params == params0 + [StartCompare(start).1, EndCompare(end).1]
    ensures clauses == clauses0 + [TimeIs(StartCompare(start).0, |params0| + 1), TimeIs(EndCompare(end).0, |params0| + 2)]
  {
    clauses, params := clauses0, params0;
    match start {
      case Unbounded =>
        params := params + [Int(0)];
        clauses := clauses + [TimeIs(Ge, |params|)];
      case Included(t) =>
        params := params + [Int(t)];
        clauses := clauses + [TimeIs(Ge, |params|)];
      case Excluded(t) =>
        params := params + [Int(t)];
        clauses := clauses + [TimeIs(Gt, |params|)];
    }
    match end {
      case Unbounded =>
        params := params + [Int(I64_MAX)];
        clauses := clauses + [TimeIs(Le, |params|)];
      case Included(t) =>
        params := params + [Int(t)];
        clauses := clauses + [TimeIs(Le, |params|)];
      case Excluded(t) =>
        params := params + [Int(t)];
        clauses := clauses + [TimeIs(Lt, |params|)];
    }
  }

  /** Pushes parameters and appends clauses, numbering each placeholder by the parameters pushed so far. */
  method BuildQuery(class_: string, filter: Filter, sort: SortBy, limit: i64) returns (q: Query, params: seq<Param>)
    ensures Bind(params, q.limit) && params[q.limit - 1] == Int(limit) && q.order == sort
    ensures forall k, e :: Selects(q, params, k, e) <==> Coded(class_, filter, k, e)
  {
    params := [Text(class_)];
    var clauses := [ClassIs(1)];
    match filter {
      case All =>
      case KeyPrefix(prefix) =>
        var pattern := Glob.GlobPrefixPattern(prefix);
        params := params + [Text(pattern)];
        clauses := clauses + [KeyGlob(|params|)];
      case TimeRange(start, end) =>
        clauses, params := AddRange(start, end, clauses, params);
    }
    params := params + [Int(limit)];
    q := Query(clauses, sort, |params|);
    SelectsByCases(q, params, class_, filter);
  }

  /** Reading a query of at most three clauses off one by one. */
  lemma SelectsByCases(q: Query, params: seq<Param>, class_: string, filter: Filter)
    requires 1 <= |q.where_| <= 3
    ensures forall k, e :: Selects(q, params, k, e) <==>
            && ClauseHolds(q.where_[0], params, k, e)
            && (|q.where_| >= 2 ==> ClauseHolds(q.where_[1], params, k, e))
            && (|q.where_| >= 3 ==> ClauseHolds(q.where_[2], params, k, e))
  {
  }

  /** The rows the built query selects. */
  function CodedRows(table: Table, class_: string, filter: Filter): set<EntryKey> {
    set k | k in table && Coded(class_, filter, k, table[k])
  }

  /** The answer of the built query, whatever the filter. */
  function Answered(table: Table, class_: string, filter: Filter, sort: SortBy, limit: int): (keys: seq<EntryKey>)
    requires UniqueTimes(table)
    ensures forall k :: k in keys ==> k in CodedRows(table, class_, filter)
  {
    var rows := CodedRows(table, class_, filter);
    OrderIsTotal(table, sort, rows);
    Limit(Sort(rows, OrderLe(table, sort)), limit)
  }

  /** Running a built query sorts what its clauses select and takes up to the limit. */
  lemma QueryMeaning(table: Table, q: Query, params: seq<Param>, class_: string, filter: Filter, limit: i64)
    requires UniqueTimes(table)
    requires Bind(params, q.limit) && params[q.limit - 1] == Int(limit)
    requires forall k, e :: Selects(q, params, k, e) <==> Coded(class_, filter, k, e)
    ensures Execute(table, q, params) == Some(Answered(table, class_, filter, q.order, limit))
  {
    assert (set k | k in table && Selects(q, params, k, table[k])) == CodedRows(table, class_, filter);
    hide Selects, Coded, CodedRows, OrderLe;
  }

  /**
   When a filter selects what it says. A prefix with a NUL must not meet a key of
   the class that agrees with it only before the NUL; an open start must not
   meet an entry of the class with a negative timestamp.
   */
  predicate Honoured(table: Table, class_: string, filter: Filter) {
    match filter
    case All => true
    case KeyPrefix(prefix) =>
      '\0' !in prefix ||
      forall k :: k in table && k.class_ == class_ ==>
        Glob.UpToNul(prefix) == Glob.UpToNul(k.key) ==> prefix <= k.key
    case TimeRange(start, end) =>
      start.Unbounded? ==>
        !exists k :: k in table && k.class_ == class_ && table[k].modifiedAt < 0 && BeforeEnd(end, table[k].modifiedAt)
  }

  /** The query selects the requested rows if and only if the filter is honoured; a prefix never selects less, a range never more. */
  lemma RowsAgreeIff(table: Table, class_: string, filter: Filter)
    ensures CodedRows(table, class_, filter) == WantedRows(table, class_, filter) <==> Honoured(table, class_, filter)
    ensures !filter.TimeRange? ==> WantedRows(table, class_, filter) <= CodedRows(table, class_, filter)
    ensures !filter.KeyPrefix? ==> CodedRows(table, class_, filter) <= WantedRows(table, class_, filter)
  {
    var coded, wanted := CodedRows(table, class_, filter), WantedRows(table, class_, filter);
    forall k | k in table && k.class_ == class_
      ensures (k in coded <==> k in wanted) <==>
              match filter {
                case All => true
                case KeyPrefix(prefix) =>
                  '\0' !in prefix || (Glob.UpToNul(prefix) == Glob.UpToNul(k.key) ==> prefix <= k.key)
                case TimeRange(start, end) =>
                  start.Unbounded? ==> !(table[k].modifiedAt < 0 && BeforeEnd(end, table[k].modifiedAt))
              }
      ensures !filter.TimeRange? && k in wanted ==> k in coded
    {
      if filter.KeyPrefix? {
        Glob.PatternMeaning(filter.prefix, k.key);
        if '\0' in filter.prefix && filter.prefix <= k.key {
          Glob.NulPrefix(filter.prefix, k.key);
        }
      }
    }
    assert forall k :: (k in coded || k in wanted) ==> k in table && k.class_ == class_;
  }

  /** Without a limit, the answer is the requested listing if and only if the filter is honoured. */
  lemma AnswerExactIff(table: Table, class_: string, filter: Filter, sort: SortBy)
    requires UniqueTimes(table)
    ensures Answered(table, class_, filter, sort, -1) == Listed(table, class_, filter, sort, -1)
            <==> Honoured(table, class_, filter)
  {
    var coded, wanted := CodedRows(table, class_, filter), WantedRows(table, class_, filter);
    RowsAgreeIff(table, class_, filter);
    SortSame(table, sort, coded, wanted);
  }

  lemma SortSame(table: Table, sort: SortBy, rows1: set<EntryKey>, rows2: set<EntryKey>)
    requires UniqueTimes(table) && rows1 <= table.Keys && rows2 <= table.Keys
    ensures TotalOn(rows1, OrderLe(table, sort)) && TotalOn(rows2, OrderLe(table, sort))
    ensures Sort(rows1, OrderLe(table, sort)) == Sort(rows2, OrderLe(table, sort)) <==> rows1 == rows2
  {
    OrderIsTotal(table, sort, rows1);
    OrderIsTotal(table, sort, rows2);
    hide OrderLe, TotalOn;
    var xs, ys := Sort(rows1, OrderLe(table, sort)), Sort(rows2, OrderLe(table, sort));
    assert forall k :: k in rows1 <==> k in xs;
    assert forall k :: k in rows2 <==> k in ys;
  }

  /** An honoured filter with any limit. */
  lemma AnswerIsListed(table: Table, class_: string, filter: Filter, sort: SortBy, limit: int)
    requires UniqueTimes(table) && Honoured(table, class_, filter)
    ensures Answered(table, class_, filter, sort, limit) == Listed(table, class_, filter, sort, limit)
  {
    RowsAgreeIff(table, class_, filter);
  }

  /** An answer is in order, and nothing that would stand before one of its entries is left out. */
  ghost predicate InOrder(table: Table, keys: seq<EntryKey>, rows: set<EntryKey>, sort: SortBy, limit: int) {
    && (forall k :: k in keys ==> k in table) && rows <= table.Keys
    && (forall i, j :: 0 <= i < j < |keys| ==> Before(sort, keys[i], table[keys[i]], keys[j], table[keys[j]]))
    && (limit >= 0 ==> |keys| <= limit)
    && forall k :: k in rows && k !in keys ==>
         |keys| == limit && forall l :: l in keys ==> Before(sort, l, table[l], k, table[k])
  }

  lemma AnswerInOrder(table: Table, class_: string, filter: Filter, sort: SortBy, limit: int)
    requires UniqueTimes(table)
    ensures InOrder(table, Answered(table, class_, filter, sort, limit), CodedRows(table, class_, filter), sort, limit)
  {
    var rows := CodedRows(table, class_, filter);
    OrderIsTotal(table, sort, rows);
    var all := Sort(rows, OrderLe(table, sort));
    hide UniqueTimes, OrderLe, TotalOn, Coded, Before, InOrder, Lists;
    LimitedInOrder(table, all, rows, class_, sort, limit);
  }

  lemma LimitedInOrder(table: Table, all: seq<EntryKey>, rows: set<EntryKey>, class_: string, sort: SortBy, limit: int)
    requires UniqueTimes(table) && Lists(all, rows, OrderLe(table, sort))
    requires forall k :: k in rows ==> k in table && k.class_ == class_
    ensures InOrder(table, Limit(all, limit), rows, sort, limit)
  {
    var keys := Limit(all, limit);
    assert forall i :: 0 <= i < |keys| ==> keys[i] == all[i] && all[i] in rows;
    forall i, j | 0 <= i < j < |keys|
      ensures Before(sort, keys[i], table[keys[i]], keys[j], table[keys[j]])
    {
      hide Before, OrderLe, UniqueTimes;
      OrderIsBefore(table, sort, keys[i], keys[j]);
    }
    forall k, l | k in rows && k !in keys && l in keys
      ensures Before(sort, l, table[l], k, table[k])
    {
      hide Before, OrderLe, UniqueTimes;
      assert keys == all[..|keys|];
      PrefixIsLeast(all, rows, OrderLe(table, sort), |keys|, l, k);
      OrderIsBefore(table, sort, l, k);
    }
    hide Before, OrderLe, UniqueTimes;
  }

  lemma OppositeOrders(table: Table, asc: SortBy, desc: SortBy)
    requires (asc.KeyAsc? && desc.KeyDesc?) || (asc.TimeAsc? && desc.TimeDesc?)
    ensures forall a, b :: OrderLe(table, desc)(a, b) <==> OrderLe(table, asc)(b, a)
  {
  }

  /** Without a limit, descending is ascending backwards. */
  lemma DescendingIsReverse(table: Table, class_: string, filter: Filter)
    requires UniqueTimes(table)
    ensures Answered(table, class_, filter, KeyDesc, -1) == Reverse(Answered(table, class_, filter, KeyAsc, -1))
    ensures Answered(table, class_, filter, TimeDesc, -1) == Reverse(Answered(table, class_, filter, TimeAsc, -1))
  {
    OppositeOrders(table, KeyAsc, KeyDesc);
    OppositeOrders(table, TimeAsc, TimeDesc);
    hide Answered, OrderLe;
    Opposite(table, class_, filter, KeyAsc, KeyDesc);
    Opposite(table, class_, filter, TimeAsc, TimeDesc);
  }

  lemma Opposite(table: Table, class_: string, filter: Filter, asc: SortBy, desc: SortBy)
    requires UniqueTimes(table)
    requires forall a, b :: OrderLe(table, desc)(a, b) <==> OrderLe(table, asc)(b, a)
    ensures Answered(table, class_, filter, desc, -1) == Reverse(Answered(table, class_, filter, asc, -1))
  {
    var rows := CodedRows(table, class_, filter);
    OrderIsTotal(table, asc, rows);
    OrderIsTotal(table, desc, rows);
    SortOpposite(rows, OrderLe(table, asc), OrderLe(table, desc));
  }

  /** The schema leaves no freedom in the answer: any listing of the selected rows in order is this one. */
  lemma AnswerUnique(table: Table, class_: string, filter: Filter, sort: SortBy, xs: seq<EntryKey>)
    requires UniqueTimes(table)
    requires Lists(xs, CodedRows(table, class_, filter), OrderLe(table, sort))
    ensures xs == Answered(table, class_, filter, sort, -1)
  {
    var rows := CodedRows(table, class_, filter);
    OrderIsTotal(table, sort, rows);
    ListsUnique(xs, Sort(rows, OrderLe(table, sort)), rows, OrderLe(table, sort));
  }

  function Later(table: Table, class_: string, start: Bound): set<EntryKey> {
    CodedRows(table, class_, TimeRange(start, Unbounded))
  }

  function Page(table: Table, class_: string, start: Bound, limit: int): (page: seq<EntryKey>)
    requires UniqueTimes(table)
    ensures forall k :: k in page ==> k in Later(table, class_, start)
  {
    Answered(table, class_, TimeRange(start, Unbounded), TimeAsc, limit)
  }

  /** Asks for page after page, each from just past the last timestamp seen, until one comes back empty. */
  function AllPages(table: Table, class_: string, start: Bound, limit: int): seq<EntryKey>
    requires UniqueTimes(table) && limit >= 1
    decreases |Later(table, class_, start)|
  {
    var page := Page(table, class_, start, limit);
    if page == [] then []
    else
      var last := page[|page| - 1];
      LaterShrinks(table, class_, start, last);
      page + AllPages(table, class_, Excluded(table[last].modifiedAt), limit)
  }

  lemma LaterShrinks(table: Table, class_: string, start: Bound, last: EntryKey)
    requires last in Later(table, class_, start)
    ensures last !in Later(table, class_, Excluded(table[last].modifiedAt))
    ensures Later(table, class_, Excluded(table[last].modifiedAt)) < Later(table, class_, start)
    ensures |Later(table, class_, Excluded(table[last].modifiedAt))| < |Later(table, class_, start)|
  {
    var rest, all := Later(table, class_, Excluded(table[last].modifiedAt)), Later(table, class_, start);
    assert rest <= all - {last};
    SubsetSize(rest, all - {last});
  }

  lemma {:induction false} SubsetSize<T>(a: set<T>, b: set<T>)
    requires a <= b
    ensures |a| <= |b|
    decreases |a|
  {
    if a != {} {
      var x :| x in a;
      SubsetSize(a - {x}, b - {x});
    }
  }

  function Timeline(table: Table, class_: string, start: Bound): (keys: seq<EntryKey>)
    requires UniqueTimes(table)
  {
    Answered(table, class_, TimeRange(start, Unbounded), TimeAsc, -1)
  }

  lemma TimelineLists(table: Table, class_: string, start: Bound)
    requires UniqueTimes(table)
    ensures TotalOn(Later(table, class_, start), OrderLe(table, TimeAsc))
    ensures Lists(Timeline(table, class_, start), Later(table, class_, start), OrderLe(table, TimeAsc))
  {
    OrderIsTotal(table, TimeAsc, Later(table, class_, start));
  }

  lemma LaterThan(table: Table, class_: string, start: Bound, last: EntryKey)
    requires last in Later(table, class_, start)
    ensures (set k | k in Later(table, class_, start) && !OrderLe(table, TimeAsc)(k, last))
         == Later(table, class_, Excluded(table[last].modifiedAt))
  {
  }

  /** Past the `n`-th row of the time ordered list lie exactly the rows with a later timestamp. */
  lemma RestIsLater(table: Table, class_: string, start: Bound, n: nat, last: EntryKey)
    requires UniqueTimes(table) && last in Later(table, class_, start)
    requires 0 < n <= |Timeline(table, class_, start)| && Timeline(table, class_, start)[n - 1] == last
    ensures Timeline(table, class_, start)[n..] == Timeline(table, class_, Excluded(table[last].modifiedAt))
  {
    var all := Timeline(table, class_, start);
    var le := OrderLe(table, TimeAsc);
    var rows := Later(table, class_, start);
    var after := Excluded(table[last].modifiedAt);
    TimelineLists(table, class_, start);
    SuffixLists(all, rows, le, n);
    LaterThan(table, class_, start, last);
    hide Later, OrderLe;
    TimelineLists(table, class_, after);
    ListsUnique(all[n..], Timeline(table, class_, after), Later(table, class_, after), le);
  }

  /** Paging misses nothing and repeats nothing, whatever the page size. */
  lemma {:induction false} PagingComplete(table: Table, class_: string, start: Bound, limit: int)
    requires UniqueTimes(table) && limit >= 1
    ensures AllPages(table, class_, start, limit) == Timeline(table, class_, start)
    decreases |Later(table, class_, start)|
  {
    hide Answered;
    var page := Page(table, class_, start, limit);
    if page == [] {
      PageIsPrefix(table, class_, start, limit);
    } else {
      var last := page[|page| - 1];
      assert last in page;
      LaterShrinks(table, class_, start, last);
      PagingComplete(table, class_, Excluded(table[last].modifiedAt), limit);
      PageThenRest(table, class_, start, limit, page, last);
    }
  }

  lemma PageThenRest(table: Table, class_: string, start: Bound, limit: int, page: seq<EntryKey>, last: EntryKey)
    requires UniqueTimes(table) && page == Page(table, class_, start, limit)
    requires page != [] && last == page[|page| - 1] && last in Later(table, class_, start)
    ensures Timeline(table, class_, start) == page + Timeline(table, class_, Excluded(table[last].modifiedAt))
  {
    var all := Timeline(table, class_, start);
    PageIsPrefix(table, class_, start, limit);
    LimitIsPrefix(all, limit);
    hide Page, Timeline, Answered, Later, Limit;
    RestIsLater(table, class_, start, |page|, last);
  }

  lemma LimitIsPrefix<T>(xs: seq<T>, limit: int)
    ensures var page := Limit(xs, limit);
            && |page| <= |xs|
            && xs == page + xs[|page|..]
            && (page != [] ==> page[|page| - 1] == xs[|page| - 1])
  {
  }

  lemma PageIsPrefix(table: Table, class_: string, start: Bound, limit: int)
    requires UniqueTimes(table)
    ensures Page(table, class_, start, limit) == Limit(Timeline(table, class_, start), limit)
  {
  }

  /** From an open start the pages add up to the whole class if and only if no timestamp in it is negative. */
  lemma PagingListsClassIff(table: Table, class_: string, limit: int)
    requires UniqueTimes(table) && limit >= 1
    ensures AllPages(table, class_, Unbounded, limit) == Listed(table, class_, All, TimeAsc, -1)
            <==> forall k :: k in table && k.class_ == class_ ==> 0 <= table[k].modifiedAt
  {
    var open := TimeRange(Unbounded, Unbounded);
    PagingComplete(table, class_, Unbounded, limit);
    AnswerExactIff(table, class_, open, TimeAsc);
    OpenRangeIsAll(table, class_);
    hide AllPages, WantedRows, Answered, UniqueTimes;
  }

  lemma OpenRangeIsAll(table: Table, class_: string)
    ensures WantedRows(table, class_, TimeRange(Unbounded, Unbounded)) == WantedRows(table, class_, All)
  {
  }

  /** Where the next page starts: just past the last row of this one, if there is one. */
  function NextStart(table: Table, class_: string, start: Bound, limit: int): (next: Option<Bound>)
    requires UniqueTimes(table)
    ensures next.None? <==> Page(table, class_, start, limit) == []
    ensures next.Some? ==> next.value.Excluded?
  {
    var page := Page(table, class_, start, limit);
    if page == [] then None
    else
      var last := page[|page| - 1];
      assert last in page;
      Some(Excluded(table[last].modifiedAt))
  }

  ghost predicate AllUnique(tables: seq<Table>) {
    forall i :: 0 <= i < |tables| ==> UniqueTimes(tables[i])
  }

  /** The pages seen when the table changes between them: `tables` is what each of them meets. */
  function Seen(tables: seq<Table>, class_: string, start: Bound, limit: int): seq<EntryKey>
    requires AllUnique(tables)
    decreases |tables|
  {
    if tables == [] then []
    else
      var next := NextStart(tables[0], class_, start, limit);
      if next.None? then []
      else Page(tables[0], class_, start, limit) + Seen(tables[1..], class_, next.value, limit)
  }

  /** The paging came to an empty page. */
  predicate Finished(tables: seq<Table>, class_: string, start: Bound, limit: int)
    requires AllUnique(tables)
    decreases |tables|
  {
    tables != [] &&
    var next := NextStart(tables[0], class_, start, limit);
    next.None? || Finished(tables[1..], class_, next.value, limit)
  }

  /** An entry that is there all the time and only ever moves forward in time. */
  ghost predicate StandsThrough(k: EntryKey, tables: seq<Table>) {
    && (forall i :: 0 <= i < |tables| ==> k in tables[i])
    && (forall i, j :: 0 <= i < j < |tables| ==> tables[i][k].modifiedAt <= tables[j][k].modifiedAt)
  }

  /** Which is what entry writes and the removal of other entries make of it. */
  lemma WritesLetStand(table: Table, w: Write, gone: set<EntryKey>, k: EntryKey)
    requires k in table && k !in gone
    ensures StandsThrough(k, [table, Upsert(table, w)]) && StandsThrough(k, [table, table - gone])
  {
  }

  /** What a page leaves out lies past its last row. */
  lemma LeftOutIsLater(table: Table, class_: string, start: Bound, limit: int, k: EntryKey)
    requires UniqueTimes(table) && limit >= 1 && k in Later(table, class_, start)
    ensures NextStart(table, class_, start, limit).Some?
    ensures k !in Page(table, class_, start, limit) ==>
              NextStart(table, class_, start, limit).value.t < table[k].modifiedAt
  {
    var all, page := Timeline(table, class_, start), Page(table, class_, start, limit);
    TimelineLists(table, class_, start);
    PageIsPrefix(table, class_, start, limit);
    hide Timeline, Page, Later, UniqueTimes, TotalOn;
    assert k in all;
    if k !in page {
      var n := |page|;
      assert page == all[..n];
      var last := page[n - 1];
      assert last in page;
      hide Lists;
      PrefixIsLeast(all, Later(table, class_, start), OrderLe(table, TimeAsc), n, last, k);
      SameTime(table, last, k);
    }
  }

  lemma SameTime(table: Table, a: EntryKey, b: EntryKey)
    requires UniqueTimes(table) && a in table && b in table && a != b
    ensures table[a].modifiedAt != table[b].modifiedAt
  {
  }

  /**
   Paging while others write: an entry that stands throughout is listed at
   least once, wherever the newest-wins writes move it in the meantime.
   */
  lemma {:induction false} PagingMissesNothing(tables: seq<Table>, class_: string, start: Bound, limit: int, k: EntryKey)
    requires limit >= 1 && AllUnique(tables)
    requires tables != [] && StandsThrough(k, tables) && k in Later(tables[0], class_, start)
    requires Finished(tables, class_, start, limit)
    ensures k in Seen(tables, class_, start, limit)
    decreases |tables|
  {
    LeftOutIsLater(tables[0], class_, start, limit, k);
    if k !in Page(tables[0], class_, start, limit) {
      var next := NextStart(tables[0], class_, start, limit).value;
      hide NextStart, Page, Later, UniqueTimes;
      var rest := tables[1..];
      assert Finished(rest, class_, next, limit);
      StandsOn(k, tables);
      StillLater(tables[0], rest[0], class_, start, next, k);
      PagingMissesNothing(rest, class_, next, limit, k);
    }
  }

  lemma StandsOn(k: EntryKey, tables: seq<Table>)
    requires |tables| > 1 && StandsThrough(k, tables)
    ensures StandsThrough(k, tables[1..]) && tables[0][k].modifiedAt <= tables[1][k].modifiedAt
  {
  }

  lemma StillLater(table: Table, table1: Table, class_: string, start: Bound, next: Bound, k: EntryKey)
    requires k in Later(table, class_, start) && next.Excluded? && next.t < table[k].modifiedAt
    requires k in table1 && table[k].modifiedAt <= table1[k].modifiedAt
    ensures k in Later(table1, class_, next)
  {
  }
}
