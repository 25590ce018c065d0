/** Sorting of finite sets, as an ORDER BY over rows that the order tells apart. */
module Order {
  import opened Bytes
  import Utf8

  /** `le` is a total order on `s`; outside `s` nothing is asked of it. */
  ghost predicate TotalOn<T(!new)>(s: set<T>, le: (T, T) -> bool) {
    && (forall x, y :: x in s && y in s ==> le(x, y) || le(y, x))
    && (forall x, y :: x in s && y in s && le(x, y) && le(y, x) ==> x == y)
    && (forall x, y, z :: x in s && y in s && z in s && le(x, y) && le(y, z) ==> le(x, z))
  }

  ghost predicate SortedBy<T(!new)>(xs: seq<T>, le: (T, T) -> bool) {
    forall i, j :: 0 <= i < j < |xs| ==> le(xs[i], xs[j])
  }

  /** `xs` lists the members of `s`, each once, in ascending order. */
  ghost predicate Lists<T(!new)>(xs: seq<T>, s: set<T>, le: (T, T) -> bool) {
    && SortedBy(xs, le)
    && (forall i, j :: 0 <= i < j < |xs| ==> xs[i] != xs[j])
    && (forall x :: x in xs <==> x in s)
  }

  lemma {:induction false} FindLeast<T(!new)>(s: set<T>, le: (T, T) -> bool) returns (m: T)
    requires s != {} && TotalOn(s, le)
    ensures m in s && forall x :: x in s ==> le(m, x)
    decreases |s|
  {
    var a :| a in s;
    var rest := s - {a};
    if rest == {} {
      m := a;
      assert forall x :: x in s ==> x == a || x in rest;
      assert le(a, a);
    } else {
      var b := FindLeast(rest, le);
      m := if le(a, b) then a else b;
      forall x | x in s
        ensures le(m, x)
      {
        assert x == a || (x in rest && le(b, x));
        assert le(a, a) && le(m, a) && le(m, b);
      }
    }
  }

  lemma LeastExists<T(!new)>(s: set<T>, le: (T, T) -> bool)
    requires s != {} && TotalOn(s, le)
    ensures exists m :: m in s && forall x :: x in s ==> le(m, x)
  {
    var m := FindLeast(s, le);
  }

  function Least<T(!new, ==)>(s: set<T>, le: (T, T) -> bool): (m: T)
    requires s != {} && TotalOn(s, le)
    ensures m in s && forall x :: x in s ==> le(m, x)
  {
    LeastExists(s, le);
    var m :| m in s && forall x :: x in s ==> le(m, x);
    m
  }

  function Sort<T(!new, ==)>(s: set<T>, le: (T, T) -> bool): (xs: seq<T>)
    requires TotalOn(s, le)
    ensures Lists(xs, s, le)
    ensures |xs| == |s|
    decreases |s|
  {
    if s == {} then []
    else
      var m := Least(s, le);
      var rest := Sort(s - {m}, le);
      ListsCons(m, rest, s, le);
      [m] + rest
  }

  lemma ListsCons<T(!new)>(m: T, rest: seq<T>, s: set<T>, le: (T, T) -> bool)
    requires m in s && forall x :: x in s ==> le(m, x)
    requires Lists(rest, s - {m}, le)
    ensures Lists([m] + rest, s, le)
  {
    var xs := [m] + rest;
    assert forall i :: 0 < i < |xs| ==> xs[i] == rest[i - 1] && xs[i] in s - {m};
    forall x
      ensures x in xs <==> x in s
    {
      assert x in xs <==> x == m || x in rest;
    }
  }

  /** There is only one way to list a set in a total order. */
  lemma {:induction false} ListsUnique<T(!new)>(xs: seq<T>, ys: seq<T>, s: set<T>, le: (T, T) -> bool)
    requires TotalOn(s, le) && Lists(xs, s, le) && Lists(ys, s, le)
    ensures xs == ys
    decreases |xs|
  {
    if xs == [] || ys == [] {
      SameEmptiness(xs, ys, s, le);
    } else {
      FirstIsLeast(xs, s, le);
      FirstIsLeast(ys, s, le);
      assert xs[0] in s && ys[0] in s;
      assert xs[0] == ys[0];
      ListsTail(xs, s, le);
      ListsTail(ys, s, le);
      ListsUnique(xs[1..], ys[1..], s - {xs[0]}, le);
      assert xs == [xs[0]] + xs[1..] && ys == [ys[0]] + ys[1..];
    }
  }

  lemma SameEmptiness<T(!new)>(xs: seq<T>, ys: seq<T>, s: set<T>, le: (T, T) -> bool)
    requires Lists(xs, s, le) && Lists(ys, s, le)
    ensures xs == [] <==> ys == []
  {
    if xs != [] {
      assert xs[0] in xs && xs[0] in s && xs[0] in ys;
    }
    if ys != [] {
      assert ys[0] in ys && ys[0] in s && ys[0] in xs;
    }
  }

  lemma FirstIsLeast<T(!new)>(xs: seq<T>, s: set<T>, le: (T, T) -> bool)
    requires TotalOn(s, le) && Lists(xs, s, le) && xs != []
    ensures forall x :: x in s ==> le(xs[0], x)
  {
    forall x | x in s
      ensures le(xs[0], x)
    {
      assert x in xs;
      var i :| 0 <= i < |xs| && xs[i] == x;
    }
  }

  lemma ListsTail<T(!new)>(xs: seq<T>, s: set<T>, le: (T, T) -> bool)
    requires Lists(xs, s, le) && xs != []
    ensures Lists(xs[1..], s - {xs[0]}, le)
  {
    forall x
      ensures x in xs[1..] <==> x in s - {xs[0]}
    {
      if x in s - {xs[0]} {
        assert x in xs;
        var i :| 0 <= i < |xs| && xs[i] == x;
        assert xs[1..][i - 1] == x;
      }
    }
  }

  /** What a listing has left after its first `n` members: those not ordered up to the n-th. */
  lemma SuffixLists<T(!new)>(xs: seq<T>, s: set<T>, le: (T, T) -> bool, n: nat)
    requires TotalOn(s, le) && Lists(xs, s, le) && 0 < n <= |xs|
    ensures Lists(xs[n..], (set x | x in s && !le(x, xs[n - 1])), le)
  {
    var last := xs[n - 1];
    assert last in s;
    forall x
      ensures x in xs[n..] <==> x in s && !le(x, last)
    {
      if x in s && !le(x, last) {
        assert x in xs;
        var i :| 0 <= i < |xs| && xs[i] == x;
        assert i >= n by { assert le(last, last); }
        assert xs[n..][i - n] == x;
      }
      if x in xs[n..] {
        var i :| 0 <= i < |xs[n..]| && xs[n..][i] == x;
        assert x == xs[n + i] && x in s && le(last, x) && x != last;
      }
    }
  }

  /** A prefix of a listing holds its least members. */
  lemma PrefixIsLeast<T(!new)>(xs: seq<T>, s: set<T>, le: (T, T) -> bool, n: nat, taken: T, left: T)
    requires Lists(xs, s, le) && n <= |xs|
    requires taken in xs[..n] && left in s && left !in xs[..n]
    ensures le(taken, left)
  {
    var i :| 0 <= i < n && xs[i] == taken;
    assert left in xs;
    var j :| 0 <= j < |xs| && xs[j] == left;
    assert forall m :: 0 <= m < n ==> xs[..n][m] in xs[..n] && xs[m] != left;
  }

  function Reverse<T>(xs: seq<T>): (ys: seq<T>)
    ensures |ys| == |xs| && forall i :: 0 <= i < |xs| ==> ys[i] == xs[|xs| - 1 - i]
  {
    if xs == [] then [] else Reverse(xs[1..]) + [xs[0]]
  }

  lemma ReverseLists<T(!new)>(xs: seq<T>, s: set<T>, le: (T, T) -> bool, ge: (T, T) -> bool)
    requires Lists(xs, s, le)
    requires forall x, y :: x in s && y in s ==> (ge(x, y) <==> le(y, x))
    ensures Lists(Reverse(xs), s, ge)
  {
    var ys := Reverse(xs);
    forall x
      ensures x in ys <==> x in s
    {
      if x in s {
        assert x in xs;
        var i :| 0 <= i < |xs| && xs[i] == x;
        assert ys[|xs| - 1 - i] == x;
      }
      if x in ys {
        var i :| 0 <= i < |ys| && ys[i] == x;
        assert xs[|xs| - 1 - i] == x;
      }
    }
  }

  /** Sorting by the opposite order lists the same set backwards. */
  lemma SortOpposite<T(!new)>(s: set<T>, le: (T, T) -> bool, ge: (T, T) -> bool)
    requires TotalOn(s, le) && TotalOn(s, ge)
    requires forall x, y :: x in s && y in s ==> (ge(x, y) <==> le(y, x))
    ensures Sort(s, ge) == Reverse(Sort(s, le))
  {
    ReverseLists(Sort(s, le), s, le, ge);
    hide Lists, TotalOn, Reverse;
    ListsUnique(Sort(s, ge), Reverse(Sort(s, le)), s, ge);
  }

  /** `memcmp` order of byte strings: SQLite's default collation. */
  predicate BytesLe(a: seq<Byte>, b: seq<Byte>) {
    a == [] || (b != [] && (a[0] < b[0] || (a[0] == b[0] && BytesLe(a[1..], b[1..]))))
  }

  /** One string of bytes stands before another: some bytes agree, and then it ends or has the smaller byte. */
  ghost predicate Precedes(a: seq<Byte>, b: seq<Byte>) {
    exists n :: 0 <= n <= |a| && n < |b| && a[..n] == b[..n] && (n == |a| || a[n] < b[n])
  }

  lemma PrecedesWitness(a: seq<Byte>, b: seq<Byte>, n: nat)
    requires n <= |a| && n < |b| && a[..n] == b[..n] && (n == |a| || a[n] < b[n])
    ensures Precedes(a, b)
  {
  }

  lemma PrecedesBehind(x: Byte, a: seq<Byte>, b: seq<Byte>)
    requires Precedes(a, b)
    ensures Precedes([x] + a, [x] + b)
  {
    var n :| 0 <= n <= |a| && n < |b| && a[..n] == b[..n] && (n == |a| || a[n] < b[n]);
    var xa, xb := [x] + a, [x] + b;
    assert xa[..n + 1] == [x] + a[..n] && xb[..n + 1] == [x] + b[..n];
    hide Precedes;
    PrecedesWitness(xa, xb, n + 1);
  }

  lemma PrecedesAfter(a: seq<Byte>, b: seq<Byte>)
    requires a != [] && b != [] && a[0] == b[0] && Precedes(a, b)
    ensures Precedes(a[1..], b[1..])
  {
    var n :| 0 <= n <= |a| && n < |b| && a[..n] == b[..n] && (n == |a| || a[n] < b[n]);
    hide Precedes;
    assert a[1..][..n - 1] == a[..n][1..] && b[1..][..n - 1] == b[..n][1..];
    PrecedesWitness(a[1..], b[1..], n - 1);
  }

  /** The collation is the order of bytes. */
  lemma {:induction false} BytesLeIsPrecedes(a: seq<Byte>, b: seq<Byte>)
    ensures BytesLe(a, b) <==> a == b || Precedes(a, b)
  {
    if a == [] || b == [] {
      if b != [] {
        PrecedesWitness(a, b, 0);
      }
    } else {
      assert a == [a[0]] + a[1..] && b == [b[0]] + b[1..];
      if a[0] == b[0] {
        BytesLeIsPrecedes(a[1..], b[1..]);
        if Precedes(a[1..], b[1..]) {
          PrecedesBehind(a[0], a[1..], b[1..]);
        }
        if Precedes(a, b) {
          PrecedesAfter(a, b);
        }
      } else if a[0] < b[0] {
        PrecedesWitness(a, b, 0);
      }
    }
  }

  predicate TextLe(a: string, b: string) {
    BytesLe(Utf8.Encode(a), Utf8.Encode(b))
  }

  lemma {:induction false} BytesTotal(a: seq<Byte>, b: seq<Byte>)
    ensures BytesLe(a, b) || BytesLe(b, a)
    ensures BytesLe(a, b) && BytesLe(b, a) ==> a == b
  {
    if a != [] && b != [] && a[0] == b[0] {
      BytesTotal(a[1..], b[1..]);
      assert a == [a[0]] + a[1..] && b == [b[0]] + b[1..];
    }
  }

  lemma {:induction false} BytesTransitive(a: seq<Byte>, b: seq<Byte>, c: seq<Byte>)
    requires BytesLe(a, b) && BytesLe(b, c)
    ensures BytesLe(a, c)
  {
    if a != [] && a[0] == b[0] == c[0] {
      BytesTransitive(a[1..], b[1..], c[1..]);
    }
  }

  lemma TextTotal(a: string, b: string)
    ensures TextLe(a, b) || TextLe(b, a)
    ensures TextLe(a, b) && TextLe(b, a) ==> a == b
  {
    BytesTotal(Utf8.Encode(a), Utf8.Encode(b));
    if TextLe(a, b) && TextLe(b, a) {
      Utf8.EncodeInjective(a, b);
    }
  }

  lemma TextTransitive(a: string, b: string, c: string)
    requires TextLe(a, b) && TextLe(b, c)
    ensures TextLe(a, c)
  {
    BytesTransitive(Utf8.Encode(a), Utf8.Encode(b), Utf8.Encode(c));
  }
}
