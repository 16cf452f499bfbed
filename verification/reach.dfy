/**
 * Reachability over a successor graph. Every breadth- or depth-first search
 * of the system (islands, customer cones, core and non-core reach, components
 * without hegemons) visits exactly the least set that contains its start
 * nodes and is closed under the successor lists it follows; `Closure` is
 * that set and `Explore` is the worklist loop that finds it.
 */
module Reach {
  import opened Utils

  /** A successor list per node; a node that is not a key has none. */
  type Graph<T> = map<T, seq<T>>

  function Succ<T>(g: Graph<T>, x: T): seq<T> {
    if x in g then g[x] else []
  }

  /** Every node some edge points to. */
  function Targets<T>(g: Graph<T>): set<T> {
    set x, y | x in g && y in g[x] :: y
  }

  /** No edge leaves `c`. */
  predicate ClosedUnder<T>(g: Graph<T>, c: set<T>) {
    forall x, y :: x in c && y in Succ(g, x) ==> y in c
  }

  /** `S` together with the successors of its members. */
  function Step<T>(g: Graph<T>, S: set<T>): (r: set<T>)
    ensures S <= r
    ensures r - S <= Targets(g)
    ensures r == S <==> ClosedUnder(g, S)
  {
    var r := S + set x, y | x in S && y in Succ(g, x) :: y;
    assert ClosedUnder(g, S) ==> r == S;
    r
  }

  /** A step that adds a node leaves fewer targets to add. */
  lemma StepShrinks<T>(g: Graph<T>, S: set<T>)
    requires Step(g, S) != S
    ensures |Targets(g) - Step(g, S)| < |Targets(g) - S|
  {
    var S' := Step(g, S);
    assert S' - S != {};
    var y :| y in S' - S;
    var a, b := Targets(g) - S', Targets(g) - S;
    assert y in b;
    assert a <= b - {y};
    SubsetCard(a, b - {y});
  }

  /** The least superset of `S` that no edge leaves. */
  function Closure<T>(g: Graph<T>, S: set<T>): (c: set<T>)
    ensures S <= c
    ensures ClosedUnder(g, c)
    ensures c - S <= Targets(g)
    decreases |Targets(g) - S|
  {
    var S' := Step(g, S);
    if S' == S then S
    else
      StepShrinks(g, S);
      Closure(g, S')
  }

  /** Leastness: `Closure(g, S)` lies inside every closed superset of `S`. */
  lemma {:induction false} ClosureLeast<T>(g: Graph<T>, S: set<T>, z: set<T>)
    requires S <= z && ClosedUnder(g, z)
    ensures Closure(g, S) <= z
    decreases |Targets(g) - S|
  {
    var S' := Step(g, S);
    if S' != S {
      StepShrinks(g, S);
      ClosureLeast(g, S', z);
    }
  }

  /** More start nodes reach at least as much. */
  lemma ClosureMonotone<T>(g: Graph<T>, S1: set<T>, S2: set<T>)
    requires S1 <= S2
    ensures Closure(g, S1) <= Closure(g, S2)
  {
    ClosureLeast(g, S1, Closure(g, S2));
  }

  /** Closing again adds nothing. */
  lemma ClosureIdempotent<T>(g: Graph<T>, S: set<T>)
    ensures Closure(g, Closure(g, S)) == Closure(g, S)
  {
    ClosureLeast(g, Closure(g, S), Closure(g, S));
  }

  /** Whatever is reachable from a reachable node is reachable. */
  lemma ClosureTransitive<T>(g: Graph<T>, S: set<T>, x: T)
    requires x in Closure(g, S)
    ensures Closure(g, {x}) <= Closure(g, S)
  {
    ClosureLeast(g, {x}, Closure(g, S));
  }

  /** Removing edges never adds reachable nodes. */
  lemma ClosureSubgraph<T>(g1: Graph<T>, g2: Graph<T>, S: set<T>)
    requires forall x, y :: y in Succ(g1, x) ==> y in Succ(g2, x)
    ensures Closure(g1, S) <= Closure(g2, S)
  {
    ClosureLeast(g1, S, Closure(g2, S));
  }

  /**
   * In a graph whose edges go both ways, reachability is symmetric: the
   * closures of two nodes are equal as soon as one reaches the other.
   */
  lemma ClosureSymmetric<T>(g: Graph<T>, a: T, b: T)
    requires forall x, y :: y in Succ(g, x) ==> x in Succ(g, y)
    requires b in Closure(g, {a})
    ensures a in Closure(g, {b})
    ensures Closure(g, {a}) == Closure(g, {b})
  {
    var z := set x | x in Closure(g, {a}) && a in Closure(g, {x});
    assert a in z;
    forall x, y | x in z && y in Succ(g, x)
      ensures y in z
    {
      assert x in Succ(g, y);
      assert y in Closure(g, {a});
      ClosureTransitive(g, {y}, x);
    }
    ClosureLeast(g, {a}, z);
    ClosureTransitive(g, {a}, b);
    ClosureTransitive(g, {b}, a);
  }

  /**
   * The worklist search: a node is queued the first time it is seen and each
   * queued node has its successors examined once, in queue order.
   */
  method Explore<T>(g: Graph<T>, starts: seq<T>) returns (order: seq<T>)
    ensures Distinct(order)
    ensures forall x :: x in order <==> x in Closure(g, set s | s in starts)
    ensures forall i :: 0 <= i < |starts| ==> starts[i] in order
  {
    ghost var c := Closure(g, set s | s in starts);
    var visited: set<T>;
    order, visited := EnqueueNew(starts, [], {});
    var head := 0;
    while head < |order|
      invariant 0 <= head <= |order|
      invariant visited == set x | x in order
      invariant Distinct(order)
      invariant (set s | s in starts) <= visited <= c
      invariant Expanded(g, order, head, visited)
      decreases |c| - head
    {
      DistinctCard(order);
      SubsetCard(visited, c);
      var x := order[head];
      ghost var before := order;
      ghost var seen := visited;
      order, visited := EnqueueNew(Succ(g, x), order, visited);
      assert x in c;
      assert (set y | y in Succ(g, x)) <= c;
      assert visited <= c;
      ExpandedGrow(g, before, order, head, seen, visited);
      head := head + 1;
    }
    assert ClosedUnder(g, visited);
    ClosureLeast(g, (set s | s in starts), visited);
    assert visited == c;
  }

  /** Every successor of the first `head` nodes of `order` is in `visited`. */
  ghost predicate Expanded<T>(g: Graph<T>, order: seq<T>, head: int, visited: set<T>) {
    forall i, y :: 0 <= i < head && i < |order| && y in Succ(g, order[i]) ==> y in visited
  }

  lemma ExpandedGrow<T>(g: Graph<T>, before: seq<T>, after: seq<T>, head: nat, v1: set<T>, v2: set<T>)
    requires head < |before| <= |after| && after[..|before|] == before
    requires Expanded(g, before, head, v1)
    requires v1 <= v2
    requires forall y :: y in Succ(g, before[head]) ==> y in v2
    ensures Expanded(g, after, head + 1, v2)
  {
    assert forall i :: 0 <= i < |before| ==> after[i] == before[i];
  }

  /** Appends the members of `succ` not yet visited, each once. */
  method EnqueueNew<T>(succ: seq<T>, order: seq<T>, visited: set<T>)
    returns (order': seq<T>, visited': set<T>)
    requires visited == set x | x in order
    requires Distinct(order)
    ensures visited' == visited + set y | y in succ
    ensures visited' == set x | x in order'
    ensures Distinct(order')
    ensures |order| <= |order'| && order'[..|order|] == order
  {
    order', visited' := order, visited;
    for j := 0 to |succ|
      invariant visited' == visited + set i | 0 <= i < j :: succ[i]
      invariant visited' == set x | x in order'
      invariant Distinct(order')
      invariant |order| <= |order'| && order'[..|order|] == order
    {
      if succ[j] !in visited' {
        order' := order' + [succ[j]];
        visited' := visited' + {succ[j]};
      }
    }
    assert (set i | 0 <= i < |succ| :: succ[i]) == set y | y in succ;
  }

  lemma SubsetCard<T>(a: set<T>, b: set<T>)
    requires a <= b
    ensures |a| <= |b|
  {
    assert b == a + (b - a);
  }
}
