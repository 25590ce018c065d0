/** The ring of three connections (sql.rs): a channel that guards take from and return to. */
module Pool {
  import opened Wrappers

  /** Every connection is in exactly one place: queued once, or held by one guard. */
  ghost predicate Conserved<G, T>(connections: set<T>, queue: seq<T>, held: map<G, T>) {
    && (forall i, j :: 0 <= i < j < |queue| ==> queue[i] != queue[j])
    && (forall g :: g in held ==> held[g] !in queue)
    && (forall g1, g2 :: g1 in held && g2 in held && held[g1] == held[g2] ==> g1 == g2)
    && connections == (set x | x in queue) + held.Values
  }

  lemma TakeConserves<G, T>(connections: set<T>, queue: seq<T>, held: map<G, T>, g: G)
    requires Conserved(connections, queue, held) && queue != [] && g !in held
    ensures Conserved(connections, queue[1..], held[g := queue[0]])
  {
    var rest, after := queue[1..], held[g := queue[0]];
    assert queue == [queue[0]] + rest;
    assert g in after.Keys && after[g] == queue[0];
    forall x: T
      ensures x in connections <==> x in rest || x in after.Values
    {
      if x in held.Values {
        var h :| h in held && held[h] == x;
        assert h in after.Keys && after[h] == x;
      }
    }
  }

  lemma ReturnConserves<G, T>(connections: set<T>, queue: seq<T>, held: map<G, T>, g: G)
    requires Conserved(connections, queue, held) && g in held
    ensures Conserved(connections, queue + [held[g]], held - {g})
  {
    var more, after := queue + [held[g]], held - {g};
    forall x: T
      ensures x in connections <==> x in more || x in after.Values
    {
      if x in held.Values {
        var h :| h in held && held[h] == x;
        assert h == g || (h in after.Keys && after[h] == x);
      }
    }
  }

  lemma {:induction false} DistinctCount<T>(s: seq<T>)
    requires forall i, j :: 0 <= i < j < |s| ==> s[i] != s[j]
    ensures |set x | x in s| == |s|
  {
    if s != [] {
      var n := |s| - 1;
      DistinctCount(s[..n]);
      assert s == s[..n] + [s[n]];
      assert (set x | x in s) == (set x | x in s[..n]) + {s[n]};
    }
  }

  lemma {:induction false} HeldCount<G, T>(held: map<G, T>)
    requires forall g1, g2 :: g1 in held && g2 in held && held[g1] == held[g2] ==> g1 == g2
    ensures |held.Values| == |held|
    decreases |held|
  {
    if held != map[] {
      var g :| g in held;
      var rest := held - {g};
      HeldCount(rest);
      assert held == rest[g := held[g]];
      assert held.Values == rest.Values + {held[g]};
      assert held.Keys == rest.Keys + {g};
    }
  }

  /** A `get` is held up only while every connection is out, each in a guard of its own. */
  lemma WaitsOnlyWhenAllOut<G, T>(connections: set<T>, queue: seq<T>, held: map<G, T>)
    requires Conserved(connections, queue, held)
    ensures |queue| + |held| == |connections|
    ensures queue == [] <==> |held| == |connections|
    ensures queue == [] && connections != {} ==> exists g :: g in held
  {
    var queued := set x | x in queue;
    DistinctCount(queue);
    HeldCount(held);
    assert connections == queued + held.Values && queued !! held.Values;
  }

  class PoolGuard<T> {
    var item: Option<T>

    constructor (item: T)
      ensures this.item == Some(item)
    {
      this.item := Some(item);
    }
  }

  class RingPool<T> {
    var queue: seq<T>
    ghost var held: map<PoolGuard<T>, T>
    ghost const connections: set<T>

    /** A guard that has not been dropped always has its item, so dereferencing it cannot fail. */
    ghost predicate Valid()
      reads this, held.Keys
    {
      && Conserved(connections, queue, held)
      && forall g :: g in held ==> g.item == Some(held[g])
    }

    constructor (a: T, b: T, c: T)
      requires a != b && a != c && b != c
      ensures Valid() && queue == [a, b, c] && held == map[] && connections == {a, b, c}
    {
      queue := [a, b, c];
      held := map[];
      connections := {a, b, c};
    }

    /** Dropping a guard puts its connection back at the end. */
    method Drop(g: PoolGuard<T>)
      requires Valid() && g in held
      modifies this`queue, this`held, g
      ensures Valid() && held == old(held) - {g} && queue == old(queue) + [old(held[g])]
      ensures g.item == None
    {
      ReturnConserves(connections, queue, held, g);
      queue := queue + [g.item.value];
      held := held - {g};
      g.item := None;
    }

    /**
     Takes the connection at the head of the queue. While the queue is empty
     `recv` waits; `next` is then the guard whose drop ends the wait. It cannot
     fail, as the pool itself holds a sender.
     */
    method Get(next: PoolGuard<T>) returns (g: PoolGuard<T>)
      requires Valid() && (queue == [] ==> next in held)
      modifies this`queue, this`held, next
      ensures Valid() && fresh(g)
      ensures old(queue) != [] ==>
                && held == old(held)[g := old(queue)[0]] && queue == old(queue)[1..]
                && next.item == old(next.item)
      ensures old(queue) == [] ==>
                held == (old(held) - {next})[g := old(held)[next]] && queue == [] && next.item == None
    {
      if queue == [] {
        Drop(next);
      }
      g := new PoolGuard(queue[0]);
      TakeConserves(connections, queue, held, g);
      held := held[g := queue[0]];
      queue := queue[1..];
    }
  }
}
