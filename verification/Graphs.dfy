/** Finite directed graphs: paths, cycles, reachability. */
module Graphs {

  type Graph<!N> = map<N, seq<N>>

  predicate Closed<N>(g: Graph<N>) {
    forall n, k :: n in g && 0 <= k < |g[n]| ==> g[n][k] in g
  }

  predicate IsPath<N>(g: Graph<N>, p: seq<N>) {
    && p != []
    && (forall i :: 0 <= i < |p| ==> p[i] in g)
    && (forall i :: 0 <= i < |p| - 1 ==> p[i + 1] in g[p[i]])
  }

  ghost predicate Goes<N>(g: Graph<N>, p: seq<N>, from: N, to: N) {
    IsPath(g, p) && p[0] == from && p[|p| - 1] == to
  }

  ghost predicate Reaches<N(!new)>(g: Graph<N>, from: N, to: N) {
    exists p: seq<N> :: Goes(g, p, from, to)
  }

  /** A cycle is a path of at least one edge back to its start, a self-edge included. */
  ghost predicate IsCycle<N>(g: Graph<N>, p: seq<N>) {
    |p| >= 2 && IsPath(g, p) && p[0] == p[|p| - 1]
  }

  ghost predicate HasCycle<N(!new)>(g: Graph<N>) {
    exists p: seq<N> :: IsCycle(g, p)
  }

  lemma PathStep<N>(g: Graph<N>, p: seq<N>, from: N, to: N, next: N)
    requires Goes(g, p, from, to) && next in g && next in g[to]
    ensures Goes(g, p + [next], from, next)
  {
    var q := p + [next];
    forall i | 0 <= i < |q| - 1 ensures q[i + 1] in g[q[i]] {
      if i < |p| - 1 { assert q[i + 1] == p[i + 1]; }
    }
  }

  lemma PathFrom<N>(g: Graph<N>, p: seq<N>, from: N, start: N, to: N)
    requires Goes(g, p, start, to) && from in g && start in g[from]
    ensures Goes(g, [from] + p, from, to)
  {
    var q := [from] + p;
    forall i | 0 <= i < |q| - 1 ensures q[i + 1] in g[q[i]] {
      if i > 0 { assert q[i + 1] == p[i] && q[i] == p[i - 1]; }
    }
  }

  lemma PathTail<N>(g: Graph<N>, p: seq<N>, k: nat)
    requires IsPath(g, p) && k < |p|
    ensures Goes(g, p[k..], p[k], p[|p| - 1])
  {
  }

  // ---------- finishing order ----------

  /** Every node comes after all its successors. */
  ghost predicate Ordered<N>(g: Graph<N>, order: seq<N>) {
    forall i, k :: 0 <= i < |order| && order[i] in g && 0 <= k < |g[order[i]]| ==> g[order[i]][k] in order[..i]
  }

  lemma OrderedAppend<N>(g: Graph<N>, order: seq<N>, n: N)
    requires Ordered(g, order) && n in g && forall k :: 0 <= k < |g[n]| ==> g[n][k] in order
    ensures Ordered(g, order + [n])
  {
    var longer := order + [n];
    forall i, k | 0 <= i < |longer| && longer[i] in g && 0 <= k < |g[longer[i]]| ensures g[longer[i]][k] in longer[..i] {
      if i < |order| { assert longer[..i] == order[..i]; } else { assert longer[..i] == order; }
    }
  }

  function FirstIndex<N(==)>(order: seq<N>, n: N): (i: nat)
    requires n in order
    ensures i < |order| && order[i] == n
    ensures forall k :: 0 <= k < i ==> order[k] != n
  {
    if order[0] == n then 0 else 1 + FirstIndex(order[1..], n)
  }

  lemma {:induction false} PathDescends<N>(g: Graph<N>, order: seq<N>, p: seq<N>)
    requires Ordered(g, order) && IsPath(g, p) && p[0] in order
    ensures p[|p| - 1] in order
    ensures |p| >= 2 ==> FirstIndex(order, p[|p| - 1]) < FirstIndex(order, p[0])
    decreases |p|
  {
    if |p| >= 2 {
      var i := FirstIndex(order, p[0]);
      var k :| 0 <= k < |g[p[0]]| && g[p[0]][k] == p[1];
      assert p[1] in order[..i];
      var j :| 0 <= j < i && order[j] == p[1];
      assert FirstIndex(order, p[1]) <= j;
      PathTail(g, p, 1);
      PathDescends(g, order, p[1..]);
    }
  }

  /** A graph with a finishing order has no cycle. */
  lemma OrderedHasNoCycle<N(!new)>(g: Graph<N>, order: seq<N>)
    requires Ordered(g, order) && forall n :: n in g ==> n in order
    ensures !HasCycle(g)
  {
    forall p: seq<N> ensures !IsCycle(g, p) {
      if |p| >= 2 && IsPath(g, p) { PathDescends(g, order, p); }
    }
  }

  // ---------- reachability that avoids some nodes ----------

  ghost predicate Avoids<N>(p: seq<N>, closed: set<N>) {
    forall i :: 0 <= i < |p| ==> p[i] !in closed
  }

  ghost predicate ReachesAround<N(!new)>(g: Graph<N>, from: N, to: N, closed: set<N>) {
    exists p: seq<N> :: Goes(g, p, from, to) && Avoids(p, closed)
  }

  lemma AroundNothing<N(!new)>(g: Graph<N>, from: N, to: N)
    ensures ReachesAround(g, from, to, {}) <==> Reaches(g, from, to)
  {
    if Reaches(g, from, to) {
      var p: seq<N> :| Goes(g, p, from, to);
      assert Avoids(p, {});
    }
  }

  function LastIndex<N(==)>(p: seq<N>, n: N): (i: nat)
    requires n in p
    ensures i < |p| && p[i] == n
    ensures forall k :: i < k < |p| ==> p[k] != n
  {
    if p[|p| - 1] == n then |p| - 1 else LastIndex(p[..|p| - 1], n)
  }

  /** From a node that is not closed one gets to itself, and through a successor to what that reaches without coming back. */
  lemma AroundStep<N(!new)>(g: Graph<N>, from: N, to: N, closed: set<N>)
    requires Closed(g) && from in g && from !in closed
    ensures ReachesAround(g, from, to, closed) <==>
      (to == from || exists k :: 0 <= k < |g[from]| && ReachesAround(g, g[from][k], to, closed + {from}))
  {
    if ReachesAround(g, from, to, closed) && to != from {
      var p: seq<N> :| Goes(g, p, from, to) && Avoids(p, closed);
      var last := LastIndex(p, from);
      var q := p[last + 1..];
      PathTail(g, p, last + 1);
      assert Avoids(q, closed + {from});
      var k :| 0 <= k < |g[from]| && g[from][k] == p[last + 1];
      assert ReachesAround(g, g[from][k], to, closed + {from});
    }
    if to == from {
      assert Goes(g, [from], from, to) && Avoids([from], closed);
    }
    if k :| 0 <= k < |g[from]| && ReachesAround(g, g[from][k], to, closed + {from}) {
      var q: seq<N> :| Goes(g, q, g[from][k], to) && Avoids(q, closed + {from});
      PathFrom(g, q, from, g[from][k], to);
      assert Avoids([from] + q, closed);
    }
  }

  ghost predicate ReachedFromSome<N(!new)>(g: Graph<N>, starts: seq<N>, to: N, closed: set<N>) {
    exists k :: 0 <= k < |starts| && ReachesAround(g, starts[k], to, closed)
  }

  /** Afterwards the set also holds exactly what these starts reach around the closed nodes. */
  ghost predicate Grown<N(!new)>(g: Graph<N>, before: set<N>, after: set<N>, starts: seq<N>, closed: set<N>) {
    forall n :: n in after <==> n in before || ReachedFromSome(g, starts, n, closed)
  }

  lemma ReachedFromConcat<N(!new)>(g: Graph<N>, one: seq<N>, two: seq<N>, to: N, closed: set<N>)
    ensures ReachedFromSome(g, one + two, to, closed) <==> ReachedFromSome(g, one, to, closed) || ReachedFromSome(g, two, to, closed)
  {
    if k :| 0 <= k < |one| && ReachesAround(g, one[k], to, closed) {
      assert ReachesAround(g, (one + two)[k], to, closed);
    }
    if k :| 0 <= k < |two| && ReachesAround(g, two[k], to, closed) {
      assert ReachesAround(g, (one + two)[|one| + k], to, closed);
    }
  }

  lemma GrownThen<N(!new)>(g: Graph<N>, a: set<N>, b: set<N>, c: set<N>, one: seq<N>, two: seq<N>, closed: set<N>)
    requires Grown(g, a, b, one, closed) && Grown(g, b, c, two, closed)
    ensures Grown(g, a, c, one + two, closed)
  {
    hide ReachedFromSome;
    forall n { ReachedFromConcat(g, one, two, n, closed); }
  }

  lemma GrownByNothing<N(!new)>(g: Graph<N>, a: set<N>, closed: set<N>)
    ensures Grown(g, a, a, [], closed)
  {
  }

  /** A start that is closed reaches nothing around the closed nodes. */
  lemma GrownByClosed<N(!new)>(g: Graph<N>, a: set<N>, start: N, closed: set<N>)
    requires start in closed
    ensures Grown(g, a, a, [start], closed)
  {
    forall n ensures !ReachedFromSome(g, [start], n, closed) {
      forall p: seq<N> ensures !(Goes(g, p, start, n) && Avoids(p, closed)) {
        if Goes(g, p, start, n) { assert p[0] in closed; }
      }
    }
  }

  /** A node adds itself and what its successors reach around it. */
  lemma GrownByNode<N(!new)>(g: Graph<N>, a: set<N>, b: set<N>, start: N, closed: set<N>)
    requires Closed(g) && start in g && start !in closed
    requires Grown(g, a + {start}, b, g[start], closed + {start})
    ensures Grown(g, a, b, [start], closed)
  {
    hide ReachesAround;
    forall n ensures n in b <==> n in a || ReachedFromSome(g, [start], n, closed) {
      AroundStep(g, start, n, closed);
      assert ReachedFromSome(g, [start], n, closed) <==> ReachesAround(g, [start][0], n, closed);
    }
  }
}
