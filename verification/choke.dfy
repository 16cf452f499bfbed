/**
 * `choke_potential.py`: chokepoint potentials of the border ASes of a
 * country's mainland. For every destination outside the mainland the loaded
 * routing tree is reversed, every AS of it is given the number of mainland
 * ASes in its subtree, and a border AS whose next hop leaves the mainland is
 * credited with its subtree. The path count adds up the routed mainland ASes.
 */
module Choke {
  import opened Wrappers
  import opened Utils
  import opened Topology
  import Load
  import Walks
  import Censorship
  import Strings
  import CountryNet
  import Reach

  /** `reverse_topo`: for a next hop, the sources routed through it, in the order met. */
  type Tree = map<Asn, seq<Asn>>

  /** `order` is an iteration of the loaded routing map: every key once. */
  ghost predicate Lists(order: seq<Asn>, r: Routes) {
    Distinct(order) && forall a :: a in order <==> a in r
  }

  /** `reverse_topo[h]` on a defaultdict(list). */
  function Children(t: Tree, h: Asn): seq<Asn> {
    if h in t then t[h] else []
  }

  /** `_get_reverse_routing_topo` over the items of `r` in the order `order`; a loaded map has no `None` hops. */
  function Reverse(r: Routes, dest: Asn, order: seq<Asn>): Tree
    requires forall a :: a in order ==> a in r
    decreases |order|
  {
    if |order| == 0 then map[]
    else
      var t := Reverse(r, dest, order[..|order| - 1]);
      var s := order[|order| - 1];
      if s == dest then t else t[r[s] := Children(t, r[s]) + [s]]
  }

  /**
   * A source is listed under `h` as often as the iteration meets it when its next
   * hop is `h` and it is not the destination, and never otherwise; only next hops
   * with at least one source become keys.
   */
  lemma {:induction false} ReverseSpec(r: Routes, dest: Asn, order: seq<Asn>, h: Asn, s: Asn)
    requires forall a :: a in order ==> a in r
    ensures Occurrences(Children(Reverse(r, dest, order), h), s) ==
      if s in r && s != dest && r[s] == h then Occurrences(order, s) else 0
    ensures h in Reverse(r, dest, order) ==> |Children(Reverse(r, dest, order), h)| > 0
    decreases |order|
  {
    if |order| > 0 {
      var o := order[..|order| - 1];
      var z := order[|order| - 1];
      assert order == o + [z];
      var t := Reverse(r, dest, o);
      ReverseSpec(r, dest, o, h, s);
      Load.OccurrencesAppend(o, z, s);
      if z != dest && r[z] == h {
        assert Children(Reverse(r, dest, order), h) == Children(t, h) + [z];
        Load.OccurrencesAppend(Children(t, h), z, s);
      } else {
        assert Children(Reverse(r, dest, order), h) == Children(t, h);
      }
    }
  }

  /** Over an iteration of the map, `h`'s list holds exactly the sources routed to it, each once. */
  lemma ReverseChildren(r: Routes, dest: Asn, order: seq<Asn>, h: Asn)
    requires Lists(order, r)
    ensures forall k :: k in Children(Reverse(r, dest, order), h) <==> k in r && k != dest && r[k] == h
    ensures Distinct(Children(Reverse(r, dest, order), h))
  {
    var kids := Children(Reverse(r, dest, order), h);
    forall k
      ensures k in kids <==> k in r && k != dest && r[k] == h
      ensures Occurrences(kids, k) <= 1
    {
      ReverseSpec(r, dest, order, h, k);
      DistinctOccurrences(order, k);
      assert k in order <==> Occurrences(order, k) > 0;
    }
    forall i, j | 0 <= i < j < |kids|
      ensures kids[i] != kids[j]
    {
      if kids[i] == kids[j] {
        RepeatOccurrences(kids, i, j);
      }
    }
  }

  /** `t` lists under every AS exactly the sources routed to it, each once. */
  ghost predicate ReverseOf(t: Tree, r: Routes, dest: Asn) {
    forall h :: Distinct(Children(t, h)) && forall k :: k in Children(t, h) <==> k in r && k != dest && r[k] == h
  }

  lemma ReverseIsReverseOf(r: Routes, dest: Asn, order: seq<Asn>)
    requires Lists(order, r)
    ensures ReverseOf(Reverse(r, dest, order), r, dest)
  {
    forall h
      ensures Distinct(Children(Reverse(r, dest, order), h))
      ensures forall k :: k in Children(Reverse(r, dest, order), h) <==> k in r && k != dest && r[k] == h
    {
      ReverseChildren(r, dest, order, h);
    }
  }

  lemma ReverseKids(t: Tree, r: Routes, dest: Asn, h: Asn)
    requires ReverseOf(t, r, dest)
    ensures Distinct(Children(t, h))
    ensures forall k :: k in Children(t, h) <==> k in r && k != dest && r[k] == h
  {
  }

  /** `_is_in_mainland(root)` as the count it contributes. */
  function Own(m: set<Asn>, a: Asn): int {
    if a in m then 1 else 0
  }

  /**
   * `_sub_tree_cnt`: records in `acc` the number of mainland ASes in the subtree
   * of `root` and, on the way, of every AS below it. `fuel` bounds the depth of
   * the recursion; `SubTreeCounts` shows `|r| + 1` is never exhausted.
   */
  function SubTree(acc: map<Asn, int>, t: Tree, m: set<Asn>, root: Asn, fuel: nat): (res: map<Asn, int>)
    ensures root in res
    decreases fuel, 0
  {
    if root !in t || fuel == 0 then acc[root := Own(m, root)]
    else
      var kr := SubTreeKids(acc, t, m, t[root], fuel - 1);
      kr.0[root := Own(m, root) + kr.1]
  }

  /** The loop over `tree[root]`: count each child's subtree, then add up its recorded entry. */
  function SubTreeKids(acc: map<Asn, int>, t: Tree, m: set<Asn>, kids: seq<Asn>, fuel: nat): (map<Asn, int>, int)
    decreases fuel, 1, |kids|
  {
    if |kids| == 0 then (acc, 0)
    else
      var acc1 := SubTree(acc, t, m, kids[0], fuel);
      var rest := SubTreeKids(acc1, t, m, kids[1..], fuel);
      (rest.0, acc1[kids[0]] + rest.1)
  }

  // ---------------------------------------------------------------------------
  // What a subtree is: the ASes whose route passes through its root
  // ---------------------------------------------------------------------------

  /** The ASes of a loaded tree: the routed sources and the destination. */
  function Nodes(r: Routes, dest: Asn): set<Asn> {
    r.Keys + {dest}
  }

  /** The ASes of the tree whose route passes through `x`, `x` itself included. */
  ghost function Through(r: Routes, dest: Asn, x: Asn): set<Asn> {
    set y | y in Nodes(r, dest) && exists j: nat :: Walks.Iter(r, y, j) == x
  }

  /** The same set on a ranked tree: `x` lies exactly `len[y] - len[x]` hops after `y`. */
  ghost function Desc(r: Routes, dest: Asn, len: map<Asn, nat>, x: Asn): set<Asn> {
    set y | y in Nodes(r, dest) && Under(r, dest, len, x, y)
  }

  ghost predicate Under(r: Routes, dest: Asn, len: map<Asn, nat>, x: Asn, y: Asn) {
    y in Nodes(r, dest) && y in len && x in len && len[y] >= len[x] && Walks.Iter(r, y, len[y] - len[x]) == x
  }

  lemma DescMember(r: Routes, dest: Asn, len: map<Asn, nat>, x: Asn, y: Asn)
    ensures y in Desc(r, dest, len, x) <==> Under(r, dest, len, x, y)
  {
  }

  /** One hop of a ranked tree, as the facts the subtree proofs use. */
  lemma Hop(r: Routes, dest: Asn, len: map<Asn, nat>, k: Asn)
    requires Walks.RoutesRanked(r, dest, len) && k in r
    ensures k in len && r[k] in len && len[k] == len[r[k]] + 1 && k != dest
    ensures r[k] == dest || r[k] in r
  {
  }

  lemma DescThrough(r: Routes, dest: Asn, len: map<Asn, nat>, x: Asn)
    requires Walks.RoutesRanked(r, dest, len) && x in Nodes(r, dest)
    ensures Desc(r, dest, len, x) == Through(r, dest, x)
  {
    forall y | y in Through(r, dest, x)
      ensures y in Desc(r, dest, len, x)
    {
      var j: nat :| Walks.Iter(r, y, j) == x;
      Walks.IterRank(r, dest, len, y, j);
      if j >= len[y] {
        Walks.IterRank(r, dest, len, y, len[y]);
      }
      DescMember(r, dest, len, x, y);
    }
    forall y | y in Desc(r, dest, len, x)
      ensures y in Through(r, dest, x)
    {
      DescMember(r, dest, len, x, y);
      assert Walks.Iter(r, y, len[y] - len[x]) == x;
    }
  }

  /** Every AS of a ranked tree routes through the destination. */
  lemma DescDest(r: Routes, dest: Asn, len: map<Asn, nat>)
    requires Walks.RoutesRanked(r, dest, len)
    ensures Desc(r, dest, len, dest) == Nodes(r, dest)
  {
    forall y | y in Nodes(r, dest)
      ensures y in Desc(r, dest, len, dest)
    {
      Walks.IterRank(r, dest, len, y, len[y]);
      DescMember(r, dest, len, dest, y);
    }
  }

  /** The subtrees of a list of children, together. */
  ghost function KidsDesc(r: Routes, dest: Asn, len: map<Asn, nat>, kids: seq<Asn>): set<Asn>
    decreases |kids|
  {
    if |kids| == 0 then {}
    else Desc(r, dest, len, kids[0]) + KidsDesc(r, dest, len, kids[1..])
  }

  lemma {:induction false} KidsDescMember(r: Routes, dest: Asn, len: map<Asn, nat>, kids: seq<Asn>, y: Asn)
    ensures y in KidsDesc(r, dest, len, kids) <==> exists k :: k in kids && y in Desc(r, dest, len, k)
    decreases |kids|
  {
    if |kids| > 0 {
      KidsDescMember(r, dest, len, kids[1..], y);
      assert forall k :: k in kids <==> k == kids[0] || k in kids[1..];
    }
  }

  /** The mainland ASes of the children's subtrees, added up child by child. */
  ghost function KidsCnt(r: Routes, dest: Asn, len: map<Asn, nat>, m: set<Asn>, kids: seq<Asn>): int
    decreases |kids|
  {
    if |kids| == 0 then 0
    else |Desc(r, dest, len, kids[0]) * m| + KidsCnt(r, dest, len, m, kids[1..])
  }

  /** A subtree is its root and the subtrees of the sources routed to it. */
  lemma DescSplit(r: Routes, dest: Asn, len: map<Asn, nat>, t: Tree, x: Asn)
    requires Walks.RoutesRanked(r, dest, len) && ReverseOf(t, r, dest) && (x in r || x == dest)
    ensures Desc(r, dest, len, x) == {x} + KidsDesc(r, dest, len, Children(t, x))
    ensures x !in KidsDesc(r, dest, len, Children(t, x))
  {
    var kids := Children(t, x);
    ReverseKids(t, r, dest, x);
    KidsUnder(r, dest, len, kids, x);
    UnderKids(r, dest, len, t, x);
    assert Walks.Iter(r, x, 0) == x;
    forall y
      ensures y in Desc(r, dest, len, x) <==> y == x || y in KidsDesc(r, dest, len, kids)
    {
      DescMember(r, dest, len, x, y);
    }
  }

  /** The children's subtrees lie in the parent's, one rank further from the destination. */
  lemma KidsUnder(r: Routes, dest: Asn, len: map<Asn, nat>, kids: seq<Asn>, x: Asn)
    requires Walks.RoutesRanked(r, dest, len)
    requires forall k :: k in kids ==> k in r && r[k] == x
    ensures forall y :: y in KidsDesc(r, dest, len, kids) ==> Under(r, dest, len, x, y) && y != x
  {
    forall y | y in KidsDesc(r, dest, len, kids)
      ensures Under(r, dest, len, x, y) && y != x
    {
      KidsDescMember(r, dest, len, kids, y);
      var k :| k in kids && y in Desc(r, dest, len, k);
      DescMember(r, dest, len, k, y);
      UnderStep(r, dest, len, k, y);
    }
  }

  /** Every other AS of the parent's subtree lies in a child's. */
  lemma UnderKids(r: Routes, dest: Asn, len: map<Asn, nat>, t: Tree, x: Asn)
    requires Walks.RoutesRanked(r, dest, len) && ReverseOf(t, r, dest)
    ensures forall y :: Under(r, dest, len, x, y) && y != x ==> y in KidsDesc(r, dest, len, Children(t, x))
  {
    var kids := Children(t, x);
    ReverseKids(t, r, dest, x);
    forall y | Under(r, dest, len, x, y) && y != x
      ensures y in KidsDesc(r, dest, len, kids)
    {
      var k := UnderChild(r, dest, len, x, y);
      assert k in kids;
      DescMember(r, dest, len, k, y);
      KidsDescMember(r, dest, len, kids, y);
    }
  }

  /** The AS one hop before `x` on a route through `x`. */
  lemma UnderChild(r: Routes, dest: Asn, len: map<Asn, nat>, x: Asn, y: Asn) returns (k: Asn)
    requires Walks.RoutesRanked(r, dest, len) && Under(r, dest, len, x, y) && y != x
    ensures k in r && r[k] == x && Under(r, dest, len, k, y)
  {
    var j := len[y] - len[x] - 1;
    assert y in r || y == dest;
    Walks.IterRank(r, dest, len, y, j);
    Walks.IterSucc(r, y, j);
    k := Walks.Iter(r, y, j);
    Hop(r, dest, len, k);
  }

  /** A route through `k` also passes through `k`'s next hop. */
  lemma UnderStep(r: Routes, dest: Asn, len: map<Asn, nat>, k: Asn, y: Asn)
    requires Walks.RoutesRanked(r, dest, len) && k in r && Under(r, dest, len, k, y)
    ensures Under(r, dest, len, r[k], y)
  {
    var n := len[y] - len[k];
    Walks.IterSucc(r, y, n);
    assert n + 1 == len[y] - len[r[k]];
  }

  /** Two sources with the same next hop share no route through them. */
  lemma SameParent(r: Routes, dest: Asn, len: map<Asn, nat>, p: Asn, k1: Asn, k2: Asn, y: Asn)
    requires Walks.RoutesRanked(r, dest, len)
    requires k1 in r && k2 in r && r[k1] == p && r[k2] == p
    requires Under(r, dest, len, k1, y) && Under(r, dest, len, k2, y)
    ensures k1 == k2
  {
    Hop(r, dest, len, k1);
    Hop(r, dest, len, k2);
  }

  /** Children of one parent have disjoint subtrees, so their counts add up. */
  lemma {:induction false} KidsCard(r: Routes, dest: Asn, len: map<Asn, nat>, m: set<Asn>, kids: seq<Asn>, p: Asn)
    requires Walks.RoutesRanked(r, dest, len) && Distinct(kids)
    requires forall k :: k in kids ==> k in r && r[k] == p
    ensures |KidsDesc(r, dest, len, kids) * m| == KidsCnt(r, dest, len, m, kids)
    decreases |kids|
  {
    if |kids| > 0 {
      var k0 := kids[0];
      var rest := kids[1..];
      assert Distinct(rest);
      KidsCard(r, dest, len, m, rest, p);
      var a := Desc(r, dest, len, k0) * m;
      var b := KidsDesc(r, dest, len, rest) * m;
      forall y | y in a && y in b
        ensures false
      {
        KidsDescMember(r, dest, len, rest, y);
        var k :| k in rest && y in Desc(r, dest, len, k);
        assert k0 !in rest;
        DescMember(r, dest, len, k0, y);
        DescMember(r, dest, len, k, y);
        SameParent(r, dest, len, p, k0, k, y);
      }
      assert KidsDesc(r, dest, len, kids) * m == a + b;
    }
  }

  /** A subtree's mainland count is its root's own plus its children's. */
  lemma DescCount(r: Routes, dest: Asn, len: map<Asn, nat>, t: Tree, m: set<Asn>, x: Asn)
    requires Walks.RoutesRanked(r, dest, len) && ReverseOf(t, r, dest) && (x in r || x == dest)
    ensures Desc(r, dest, len, x) == {x} + KidsDesc(r, dest, len, Children(t, x))
    ensures x !in KidsDesc(r, dest, len, Children(t, x))
    ensures |Desc(r, dest, len, x) * m| == Own(m, x) + KidsCnt(r, dest, len, m, Children(t, x))
  {
    var kids := Children(t, x);
    DescSplit(r, dest, len, t, x);
    ReverseKids(t, r, dest, x);
    KidsCard(r, dest, len, m, kids, x);
    CardSplit(x, KidsDesc(r, dest, len, kids), m);
  }

  lemma CardSplit<T>(x: T, b: set<T>, m: set<T>)
    requires x !in b
    ensures |({x} + b) * m| == (if x in m then 1 else 0) + |b * m|
  {
    if x in m {
      assert ({x} + b) * m == (b * m) + {x};
    } else {
      assert ({x} + b) * m == b * m;
    }
  }

  // ---------------------------------------------------------------------------
  // The recorded counts, for any family of subtrees that splits like a tree
  // ---------------------------------------------------------------------------

  /** The subtrees `D` of a list of children, together. */
  ghost function Union(D: Asn -> set<Asn>, kids: seq<Asn>): set<Asn>
    decreases |kids|
  {
    if |kids| == 0 then {} else D(kids[0]) + Union(D, kids[1..])
  }

  /** Their mainland counts, added up child by child. */
  ghost function Total(D: Asn -> set<Asn>, m: set<Asn>, kids: seq<Asn>): int
    decreases |kids|
  {
    if |kids| == 0 then 0 else |D(kids[0]) * m| + Total(D, m, kids[1..])
  }

  /**
   * `D` assigns every `good` AS a subtree that is the AS and its children's
   * subtrees, counted accordingly; children are good and lower in `h`.
   */
  ghost predicate Splits(t: Tree, m: set<Asn>, good: Asn -> bool, D: Asn -> set<Asn>, h: Asn -> nat) {
    forall y {:trigger good(y)} :: good(y) ==>
      && D(y) == {y} + Union(D, Children(t, y))
      && |D(y) * m| == Own(m, y) + Total(D, m, Children(t, y))
      && forall k :: k in Children(t, y) ==> good(k) && h(k) < h(y)
  }

  lemma LeafUnfold(acc: map<Asn, int>, t: Tree, m: set<Asn>, x: Asn, fuel: nat)
    requires x !in t
    ensures SubTree(acc, t, m, x, fuel) == acc[x := Own(m, x)]
  {
  }

  lemma NodeUnfold(acc: map<Asn, int>, t: Tree, m: set<Asn>, x: Asn, fuel: nat)
    requires x in t && fuel > 0
    ensures SubTree(acc, t, m, x, fuel) ==
      SubTreeKids(acc, t, m, t[x], fuel - 1).0[x := Own(m, x) + SubTreeKids(acc, t, m, t[x], fuel - 1).1]
  {
  }

  lemma KidsUnfold(acc: map<Asn, int>, t: Tree, m: set<Asn>, kids: seq<Asn>, fuel: nat)
    requires |kids| > 0
    ensures SubTreeKids(acc, t, m, kids, fuel).0 ==
      SubTreeKids(SubTree(acc, t, m, kids[0], fuel), t, m, kids[1..], fuel).0
    ensures SubTreeKids(acc, t, m, kids, fuel).1 ==
      SubTree(acc, t, m, kids[0], fuel)[kids[0]] + SubTreeKids(SubTree(acc, t, m, kids[0], fuel), t, m, kids[1..], fuel).1
  {
  }

  /** `_sub_tree_cnt` from a good AS records the count of every subtree below it and nothing else. */
  lemma {:induction false} AccTree(acc: map<Asn, int>, t: Tree, m: set<Asn>, x: Asn, fuel: nat,
                                   good: Asn -> bool, D: Asn -> set<Asn>, h: Asn -> nat)
    requires Splits(t, m, good, D, h) && good(x) && fuel > h(x)
    ensures forall y :: y in SubTree(acc, t, m, x, fuel) <==> y in acc || y in D(x)
    ensures forall y :: y in D(x) ==> SubTree(acc, t, m, x, fuel)[y] == |D(y) * m|
    ensures forall y :: y in acc && y !in D(x) ==> SubTree(acc, t, m, x, fuel)[y] == acc[y]
    decreases fuel, 0
  {
    assert D(x) == {x} + Union(D, Children(t, x));
    assert |D(x) * m| == Own(m, x) + Total(D, m, Children(t, x));
    if x in t {
      var kids := t[x];
      assert forall k :: k in kids ==> good(k) && h(k) < fuel - 1;
      AccKids(acc, t, m, kids, fuel - 1, good, D, h);
      Graft(acc, t, m, x, fuel, D);
    } else {
      assert Children(t, x) == [];
      LeafUnfold(acc, t, m, x, fuel);
    }
  }

  /** Recording an AS's own count over what the pass over its children recorded. */
  lemma Graft(acc: map<Asn, int>, t: Tree, m: set<Asn>, x: Asn, fuel: nat, D: Asn -> set<Asn>)
    requires x in t && fuel > 0
    requires D(x) == {x} + Union(D, t[x]) && |D(x) * m| == Own(m, x) + Total(D, m, t[x])
    requires forall y :: y in SubTreeKids(acc, t, m, t[x], fuel - 1).0 <==> y in acc || y in Union(D, t[x])
    requires forall y :: y in Union(D, t[x]) ==> SubTreeKids(acc, t, m, t[x], fuel - 1).0[y] == |D(y) * m|
    requires forall y :: y in acc && y !in Union(D, t[x]) ==> SubTreeKids(acc, t, m, t[x], fuel - 1).0[y] == acc[y]
    requires SubTreeKids(acc, t, m, t[x], fuel - 1).1 == Total(D, m, t[x])
    ensures forall y :: y in SubTree(acc, t, m, x, fuel) <==> y in acc || y in D(x)
    ensures forall y :: y in D(x) ==> SubTree(acc, t, m, x, fuel)[y] == |D(y) * m|
    ensures forall y :: y in acc && y !in D(x) ==> SubTree(acc, t, m, x, fuel)[y] == acc[y]
  {
    NodeUnfold(acc, t, m, x, fuel);
  }

  /** The pass over a list of good children records each one's subtree and returns their total. */
  lemma {:induction false} AccKids(acc: map<Asn, int>, t: Tree, m: set<Asn>, kids: seq<Asn>, fuel: nat,
                                   good: Asn -> bool, D: Asn -> set<Asn>, h: Asn -> nat)
    requires Splits(t, m, good, D, h)
    requires forall k :: k in kids ==> good(k) && h(k) < fuel
    ensures forall y :: y in SubTreeKids(acc, t, m, kids, fuel).0 <==> y in acc || y in Union(D, kids)
    ensures forall y :: y in Union(D, kids) ==> SubTreeKids(acc, t, m, kids, fuel).0[y] == |D(y) * m|
    ensures forall y :: y in acc && y !in Union(D, kids) ==> SubTreeKids(acc, t, m, kids, fuel).0[y] == acc[y]
    ensures SubTreeKids(acc, t, m, kids, fuel).1 == Total(D, m, kids)
    decreases fuel, 1, |kids|
  {
    if |kids| > 0 {
      var k := kids[0];
      var acc1 := SubTree(acc, t, m, k, fuel);
      KidsUnfold(acc, t, m, kids, fuel);
      AccTree(acc, t, m, k, fuel, good, D, h);
      assert forall j :: j in kids[1..] ==> j in kids;
      AccKids(acc1, t, m, kids[1..], fuel, good, D, h);
      assert Union(D, kids) == D(k) + Union(D, kids[1..]);
      assert D(k) == {k} + Union(D, Children(t, k));
    }
  }

  // ---------------------------------------------------------------------------
  // A ranked tree splits like that, and `_sub_tree_cnt` counts routes through each AS
  // ---------------------------------------------------------------------------

  ghost function DescOf(r: Routes, dest: Asn, len: map<Asn, nat>): Asn -> set<Asn> {
    y => Desc(r, dest, len, y)
  }

  function InTree(r: Routes, dest: Asn): Asn -> bool {
    y => y in Nodes(r, dest)
  }

  /** How many more hops a subtree can hang below `y`. */
  function Height(r: Routes, len: map<Asn, nat>): Asn -> nat {
    y => if y in len && len[y] <= |r| then |r| - len[y] else 0
  }

  lemma {:induction false} KidsDescUnion(r: Routes, dest: Asn, len: map<Asn, nat>, m: set<Asn>, kids: seq<Asn>)
    ensures KidsDesc(r, dest, len, kids) == Union(DescOf(r, dest, len), kids)
    ensures KidsCnt(r, dest, len, m, kids) == Total(DescOf(r, dest, len), m, kids)
    decreases |kids|
  {
    if |kids| > 0 {
      KidsDescUnion(r, dest, len, m, kids[1..]);
    }
  }

  lemma RankedSplits(r: Routes, dest: Asn, len: map<Asn, nat>, t: Tree, m: set<Asn>)
    requires Walks.RoutesRanked(r, dest, len) && ReverseOf(t, r, dest)
    ensures Splits(t, m, InTree(r, dest), DescOf(r, dest, len), Height(r, len))
  {
    forall y | InTree(r, dest)(y)
      ensures DescOf(r, dest, len)(y) == {y} + Union(DescOf(r, dest, len), Children(t, y))
      ensures |DescOf(r, dest, len)(y) * m| == Own(m, y) + Total(DescOf(r, dest, len), m, Children(t, y))
      ensures forall k :: k in Children(t, y) ==> InTree(r, dest)(k) && Height(r, len)(k) < Height(r, len)(y)
    {
      DescCount(r, dest, len, t, m, y);
      KidsDescUnion(r, dest, len, m, Children(t, y));
      ReverseKids(t, r, dest, y);
      if y in r {
        Walks.RankBound(r, dest, len, y);
      }
      forall k | k in Children(t, y)
        ensures InTree(r, dest)(k) && Height(r, len)(k) < Height(r, len)(y)
      {
        Hop(r, dest, len, k);
        Walks.RankBound(r, dest, len, k);
      }
    }
  }

  /** On a ranked tree, `_sub_tree_cnt` from the destination records every subtree and nothing else. */
  lemma SubTreeDesc(r: Routes, dest: Asn, len: map<Asn, nat>, t: Tree, m: set<Asn>)
    requires Walks.RoutesRanked(r, dest, len) && ReverseOf(t, r, dest)
    ensures forall y :: y in SubTree(map[], t, m, dest, |r| + 1) <==> y in Nodes(r, dest)
    ensures forall y :: y in Nodes(r, dest) ==> SubTree(map[], t, m, dest, |r| + 1)[y] == |Desc(r, dest, len, y) * m|
  {
    RankedSplits(r, dest, len, t, m);
    AccTree(map[], t, m, dest, |r| + 1, InTree(r, dest), DescOf(r, dest, len), Height(r, len));
    DescDest(r, dest, len);
  }

  /**
   * On a ranked tree, `_sub_tree_cnt` from the destination gives every AS of the
   * tree, and nothing else, the number of mainland ASes whose route passes through it.
   */
  lemma SubTreeCounts(r: Routes, dest: Asn, len: map<Asn, nat>, t: Tree, m: set<Asn>)
    requires Walks.RoutesRanked(r, dest, len) && ReverseOf(t, r, dest)
    ensures SubTree(map[], t, m, dest, |r| + 1).Keys == Nodes(r, dest)
    ensures forall y :: y in Nodes(r, dest) ==> SubTree(map[], t, m, dest, |r| + 1)[y] == |Through(r, dest, y) * m|
  {
    SubTreeDesc(r, dest, len, t, m);
    forall y | y in Nodes(r, dest)
      ensures SubTree(map[], t, m, dest, |r| + 1)[y] == |Through(r, dest, y) * m|
    {
      DescThrough(r, dest, len, y);
    }
  }

  /** The path count is the destination's own subtree count when the destination lies outside the mainland. */
  lemma DestCount(r: Routes, dest: Asn, len: map<Asn, nat>, t: Tree, m: set<Asn>)
    requires Walks.RoutesRanked(r, dest, len) && ReverseOf(t, r, dest) && dest !in m
    ensures SubTree(map[], t, m, dest, |r| + 1)[dest] == |r.Keys * m|
  {
    SubTreeCounts(r, dest, len, t, m);
    assert dest in Nodes(r, dest);
    DescDest(r, dest, len);
    DescThrough(r, dest, len, dest);
    var nodes := Nodes(r, dest);
    assert Through(r, dest, dest) == nodes;
    assert nodes * m == r.Keys * m;
  }

  // ---------------------------------------------------------------------------
  // Crediting the border ASes
  // ---------------------------------------------------------------------------

  /** A border AS is credited for a tree when its next hop there lies outside the mainland. */
  predicate Exits(r: Routes, m: set<Asn>, b: Asn) {
    b in r && r[b] !in m
  }

  /**
   * `_update_cp_intercepted`: every listed border AS that exits adds its
   * recorded subtree count to its potential; a repeated listing adds it again.
   */
  function UpdateCp(cp: map<Asn, int>, counts: map<Asn, int>, borders: seq<Asn>, r: Routes, m: set<Asn>): map<Asn, int>
    decreases |borders|
  {
    if |borders| == 0 then cp
    else
      var b := borders[0];
      var cp' := if Exits(r, m, b) then cp[b := Load.CountOf(cp, b) + Load.CountOf(counts, b)] else cp;
      UpdateCp(cp', counts, borders[1..], r, m)
  }

  /** Each AS gains its count once per listing as an exiting border AS; every other AS keeps its potential. */
  lemma {:induction false} UpdateCpSpec(cp: map<Asn, int>, counts: map<Asn, int>, borders: seq<Asn>, r: Routes, m: set<Asn>, a: Asn)
    ensures Load.CountOf(UpdateCp(cp, counts, borders, r, m), a) ==
      Load.CountOf(cp, a) + (if Exits(r, m, a) then Occurrences(borders, a) * Load.CountOf(counts, a) else 0)
    decreases |borders|
  {
    if |borders| > 0 {
      var b := borders[0];
      var cp' := if Exits(r, m, b) then cp[b := Load.CountOf(cp, b) + Load.CountOf(counts, b)] else cp;
      assert UpdateCp(cp, counts, borders, r, m) == UpdateCp(cp', counts, borders[1..], r, m);
      UpdateCpSpec(cp', counts, borders[1..], r, m, a);
      var here := if b == a then 1 else 0;
      var c := Load.CountOf(counts, a);
      assert Occurrences(borders, a) == here + Occurrences(borders[1..], a);
      if Exits(r, m, a) {
        assert Load.CountOf(cp', a) == Load.CountOf(cp, a) + here * c;
        DistributeRight(here, Occurrences(borders[1..], a), c);
      } else {
        assert Load.CountOf(cp', a) == Load.CountOf(cp, a);
      }
    }
  }

  /** Only the exiting border ASes gain an entry. */
  lemma {:induction false} UpdateCpKeys(cp: map<Asn, int>, counts: map<Asn, int>, borders: seq<Asn>, r: Routes, m: set<Asn>, a: Asn)
    ensures a in UpdateCp(cp, counts, borders, r, m) <==> a in cp || (a in borders && Exits(r, m, a))
    decreases |borders|
  {
    if |borders| > 0 {
      var b := borders[0];
      var cp' := if Exits(r, m, b) then cp[b := Load.CountOf(cp, b) + Load.CountOf(counts, b)] else cp;
      UpdateCpKeys(cp', counts, borders[1..], r, m, a);
      assert a in borders <==> a == b || a in borders[1..];
    }
  }

  /**
   * What one destination's tree adds to an AS: the number of mainland ASes routed
   * through it, once per listing as a border AS, when its next hop leaves the mainland.
   */
  ghost function Credit(r: Routes, dest: Asn, m: set<Asn>, borders: seq<Asn>, a: Asn): int {
    if Exits(r, m, a) then Occurrences(borders, a) * |Through(r, dest, a) * m| else 0
  }

  // ---------------------------------------------------------------------------
  // One destination
  // ---------------------------------------------------------------------------

  /**
   * `_routing_topo_of_destination`: no tree for a destination in the mainland, a
   * missing file or a file naming another destination; a malformed file stops the program.
   */
  function RoutingFor(files: map<Asn, Load.Lines>, m: set<Asn>, d: Asn): (res: Result<Option<Routes>>)
    ensures res.Ok? && res.value.Some? <==> d !in m && Censorship.RoutingOf(files, d).Ok?
    ensures res.Ok? && res.value.Some? ==> res.value.value == Censorship.RoutingOf(files, d).value
    ensures d in m || d !in files ==> res == Ok(None)
    ensures d in files && Load.LoadRoutingTopo(files[d]).Ok? && Load.LoadRoutingTopo(files[d]).value.0 != d ==> res == Ok(None)
    ensures res.Err? ==> d in files && Load.LoadRoutingTopo(files[d]).Err?
  {
    if d in m then Ok(None)
    else
      match Censorship.RoutingOf(files, d)
      case Ok(r) => Ok(Some(r))
      case Err(e) => if e == MissingRoutes || e == LabelMismatch then Ok(None) else Err(e)
  }

  /** A file the simulator saved for a destination outside the mainland is the tree the metric uses. */
  lemma SavedRoutingFor(files: map<Asn, Load.Lines>, m: set<Asn>, d: Asn, order: seq<Asn>, routing: map<Asn, Option<Asn>>)
    requires forall a :: a in order <==> a in routing
    requires Strings.FieldOk(d) && Load.RoutingClean(routing) && d !in m
    requires d in files && files[d] == Load.SaveRoutingTopo(d, order, routing)
    ensures RoutingFor(files, m, d) == Ok(Some(Load.Present(routing)))
  {
    Censorship.SavedRoutingOf(files, d, order, routing);
  }

  /** The destination's tree, when it has one. */
  function TreeOf(files: map<Asn, Load.Lines>, m: set<Asn>, d: Asn): Option<Routes> {
    match RoutingFor(files, m, d)
    case Ok(Some(r)) => Some(r)
    case _ => None
  }

  /** Mainland ASes routed towards `d`: what `d` adds to the path count. */
  function PathsOf(files: map<Asn, Load.Lines>, m: set<Asn>, d: Asn): nat {
    match TreeOf(files, m, d)
    case Some(r) => |r.Keys * m|
    case None => 0
  }

  /** What `d` adds to the potential of `a`. */
  ghost function CreditOf(files: map<Asn, Load.Lines>, m: set<Asn>, borders: seq<Asn>, d: Asn, a: Asn): int {
    match TreeOf(files, m, d)
    case Some(r) => Credit(r, d, m, borders, a)
    case None => 0
  }

  /** The tree of `d`, if any, chains every AS to `d`: what the simulator guarantees. */
  ghost predicate LoopFreeFor(files: map<Asn, Load.Lines>, m: set<Asn>, d: Asn) {
    TreeOf(files, m, d).Some? ==> Walks.LoopFree(TreeOf(files, m, d).value, d)
  }

  /** An iteration of a loaded map: its keys, each once, in some order. */
  method KeyOrder(r: Routes) returns (order: seq<Asn>)
    ensures Lists(order, r)
  {
    order := [];
    var rest := r.Keys;
    while rest != {}
      invariant Distinct(order) && rest <= r.Keys
      invariant forall a :: a in order <==> a in r && a !in rest
      decreases |rest|
    {
      var a :| a in rest;
      order := order + [a];
      rest := rest - {a};
    }
  }

  /**
   * `_update_chokepoint_potentials_by_destination`: skip a destination without a tree;
   * otherwise add its routed mainland ASes to the path count and credit the exiting
   * border ASes with their subtrees. The credit is exact on a loop-free tree.
   */
  method ByDestination(files: map<Asn, Load.Lines>, m: set<Asn>, borders: seq<Asn>,
                       cp: map<Asn, int>, pc: int, d: Asn) returns (res: Result<(int, map<Asn, int>)>)
    ensures res.Ok? <==> RoutingFor(files, m, d).Ok?
    ensures res.Ok? ==> res.value.0 == pc + PathsOf(files, m, d)
    ensures res.Ok? && TreeOf(files, m, d).None? ==> res.value.1 == cp
    ensures res.Ok? && TreeOf(files, m, d).Some? ==>
      forall a :: !Exits(TreeOf(files, m, d).value, m, a) ==> Load.CountOf(res.value.1, a) == Load.CountOf(cp, a)
    ensures res.Ok? && LoopFreeFor(files, m, d) ==>
      forall a :: Load.CountOf(res.value.1, a) == Load.CountOf(cp, a) + CreditOf(files, m, borders, d, a)
  {
    var routing := RoutingFor(files, m, d);
    if routing.Err? {
      return Err(routing.error);
    }
    if routing.value.None? {
      return Ok((pc, cp));
    }
    var r := routing.value.value;
    var order := KeyOrder(r);
    var t := Reverse(r, d, order);
    var counts := SubTree(map[], t, m, d, |r| + 1);
    var cp' := UpdateCp(cp, counts, borders, r, m);
    forall a ensures Load.CountOf(cp', a) ==
      Load.CountOf(cp, a) + (if Exits(r, m, a) then Occurrences(borders, a) * Load.CountOf(counts, a) else 0)
    {
      UpdateCpSpec(cp, counts, borders, r, m, a);
    }
    if Walks.LoopFree(r, d) {
      TreeCredits(r, d, m, borders, order, cp, cp');
    }
    res := Ok((pc + |r.Keys * m|, cp'));
  }

  /** On a loop-free tree the recorded subtree counts are the credits. */
  lemma TreeCredits(r: Routes, d: Asn, m: set<Asn>, borders: seq<Asn>, order: seq<Asn>, cp: map<Asn, int>, cp': map<Asn, int>)
    requires Lists(order, r) && Walks.LoopFree(r, d)
    requires forall a :: Load.CountOf(cp', a) == Load.CountOf(cp, a) +
               (if Exits(r, m, a) then Occurrences(borders, a) * Load.CountOf(SubTree(map[], Reverse(r, d, order), m, d, |r| + 1), a) else 0)
    ensures forall a :: Load.CountOf(cp', a) == Load.CountOf(cp, a) + Credit(r, d, m, borders, a)
  {
    var t := Reverse(r, d, order);
    var counts := SubTree(map[], t, m, d, |r| + 1);
    var len :| Walks.RoutesRanked(r, d, len);
    ReverseIsReverseOf(r, d, order);
    SubTreeCounts(r, d, len, t, m);
    forall a | Exits(r, m, a) ensures Load.CountOf(counts, a) == |Through(r, d, a) * m| {
      assert a in Nodes(r, d);
    }
  }

  // ---------------------------------------------------------------------------
  // Every destination, and the saved file
  // ---------------------------------------------------------------------------

  function PathsFn(files: map<Asn, Load.Lines>, m: set<Asn>): Asn -> int {
    d => PathsOf(files, m, d)
  }

  ghost function CreditFn(files: map<Asn, Load.Lines>, m: set<Asn>, borders: seq<Asn>, a: Asn): Asn -> int {
    d => CreditOf(files, m, borders, d, a)
  }

  /**
   * `_chokepoint_potentials`: the update for every destination in `dests` (the
   * topology's ASes in order), stopping at the first malformed routing file. The
   * path count adds up every destination's; on loop-free trees each potential adds
   * up every destination's credit.
   */
  method ChokepointPotentials(files: map<Asn, Load.Lines>, m: set<Asn>, borders: seq<Asn>, dests: seq<Asn>)
    returns (res: Result<(int, map<Asn, int>)>)
    ensures res.Ok? <==> forall i :: 0 <= i < |dests| ==> RoutingFor(files, m, dests[i]).Ok?
    ensures res.Ok? ==> res.value.0 == Sum(dests, PathsFn(files, m))
    ensures res.Ok? && (forall i :: 0 <= i < |dests| ==> LoopFreeFor(files, m, dests[i])) ==>
      forall a :: Load.CountOf(res.value.1, a) == Sum(dests, CreditFn(files, m, borders, a))
  {
    var pc := 0;
    var cp: map<Asn, int> := map[];
    var i := 0;
    while i < |dests|
      invariant 0 <= i <= |dests|
      invariant forall j :: 0 <= j < i ==> RoutingFor(files, m, dests[j]).Ok?
      invariant pc == Sum(dests[..i], PathsFn(files, m))
      invariant (forall j :: 0 <= j < i ==> LoopFreeFor(files, m, dests[j])) ==>
        forall a :: Load.CountOf(cp, a) == Sum(dests[..i], CreditFn(files, m, borders, a))
    {
      var out := ByDestination(files, m, borders, cp, pc, dests[i]);
      if out.Err? {
        return Err(out.error);
      }
      DestStep(files, m, borders, dests, i);
      CreditsAdvance(files, m, borders, dests, i, cp, out.value.1);
      pc, cp := out.value.0, out.value.1;
      i := i + 1;
    }
    assert dests[..i] == dests;
    res := Ok((pc, cp));
  }

  /** One more destination adds its paths and its credits to the totals so far. */
  lemma DestStep(files: map<Asn, Load.Lines>, m: set<Asn>, borders: seq<Asn>, dests: seq<Asn>, i: nat)
    requires i < |dests|
    ensures Sum(dests[..i + 1], PathsFn(files, m)) == Sum(dests[..i], PathsFn(files, m)) + PathsOf(files, m, dests[i])
    ensures forall a :: Sum(dests[..i + 1], CreditFn(files, m, borders, a))
                     == Sum(dests[..i], CreditFn(files, m, borders, a)) + CreditOf(files, m, borders, dests[i], a)
  {
    assert dests[..i + 1] == dests[..i] + [dests[i]];
    SumSnoc(dests[..i], dests[i], PathsFn(files, m));
    forall a ensures Sum(dests[..i + 1], CreditFn(files, m, borders, a))
                  == Sum(dests[..i], CreditFn(files, m, borders, a)) + CreditOf(files, m, borders, dests[i], a)
    {
      SumSnoc(dests[..i], dests[i], CreditFn(files, m, borders, a));
    }
  }

  /** The credits recorded so far, plus those of one more destination. */
  lemma CreditsAdvance(files: map<Asn, Load.Lines>, m: set<Asn>, borders: seq<Asn>, dests: seq<Asn>, i: nat,
                       cp: map<Asn, int>, cp': map<Asn, int>)
    requires i < |dests|
    requires (forall j :: 0 <= j < i ==> LoopFreeFor(files, m, dests[j])) ==>
      forall a :: Load.CountOf(cp, a) == Sum(dests[..i], CreditFn(files, m, borders, a))
    requires LoopFreeFor(files, m, dests[i]) ==>
      forall a :: Load.CountOf(cp', a) == Load.CountOf(cp, a) + CreditOf(files, m, borders, dests[i], a)
    ensures (forall j :: 0 <= j < i + 1 ==> LoopFreeFor(files, m, dests[j])) ==>
      forall a :: Load.CountOf(cp', a) == Sum(dests[..i + 1], CreditFn(files, m, borders, a))
  {
    DestStep(files, m, borders, dests, i);
  }

  /** The totals do not depend on the order in which the destinations are visited. */
  lemma PotentialsOrderFree(files: map<Asn, Load.Lines>, m: set<Asn>, borders: seq<Asn>, d1: seq<Asn>, d2: seq<Asn>, a: Asn)
    requires multiset(d1) == multiset(d2)
    ensures Sum(d1, PathsFn(files, m)) == Sum(d2, PathsFn(files, m))
    ensures Sum(d1, CreditFn(files, m, borders, a)) == Sum(d2, CreditFn(files, m, borders, a))
  {
    SumPermutation(d1, d2, PathsFn(files, m));
    SumPermutation(d1, d2, CreditFn(files, m, borders, a));
  }

  /** Each mainland AS routed through a border AS is one of the tree's routed mainland ASes. */
  lemma CreditBound(r: Routes, dest: Asn, m: set<Asn>, borders: seq<Asn>, a: Asn)
    requires dest !in m
    ensures 0 <= Credit(r, dest, m, borders, a) <= Occurrences(borders, a) * |r.Keys * m|
  {
    var all := r.Keys * m;
    if Exits(r, m, a) {
      var th := Through(r, dest, a) * m;
      assert th <= all;
      Reach.SubsetCard(th, all);
      MulMonotone(Occurrences(borders, a), |th|, |all|);
    } else {
      MulMonotone(Occurrences(borders, a), 0, |all|);
    }
  }

  lemma MulMonotone(k: nat, x: nat, y: nat)
    requires x <= y
    ensures 0 <= k * x <= k * y
  {
  }

  /**
   * A border AS listed once is credited at most once per path: its potential
   * never exceeds the path count, so the ratio the report draws is at most one.
   */
  lemma {:induction false} PotentialAtMostPaths(files: map<Asn, Load.Lines>, m: set<Asn>, borders: seq<Asn>, dests: seq<Asn>, a: Asn)
    requires Occurrences(borders, a) <= 1
    ensures 0 <= Sum(dests, CreditFn(files, m, borders, a)) <= Sum(dests, PathsFn(files, m))
    decreases |dests|
  {
    if |dests| > 0 {
      var d := dests[0];
      PotentialAtMostPaths(files, m, borders, dests[1..], a);
      match TreeOf(files, m, d)
      case Some(r) =>
        CreditBound(r, d, m, borders, a);
        MulMonotone(|r.Keys * m|, Occurrences(borders, a), 1);
      case None =>
    }
  }

  /** `cp_potentials[border_asn]` for each border AS, in the writer's order. */
  lemma {:induction false} CpItemsAt(borders: seq<Asn>, cp: map<Asn, int>, i: int)
    requires 0 <= i < |borders|
    ensures |Load.CpItems(borders, cp)| == |borders|
    ensures Load.CpItems(borders, cp)[i] == (borders[i], Load.CountOf(cp, borders[i]))
    decreases i
  {
    if i > 0 {
      CpItemsAt(borders[1..], cp, i - 1);
    }
  }

  /**
   * `_calc_save_chokepoint_potentials`: the border ASes of the mainland, their
   * potentials over every destination, and the file that stores them. Read back,
   * the file gives the country, the path count, and each border AS with its
   * potential, in the border list's order.
   */
  method CalcSaveChokePotentials(t: Topo, mainland: set<Asn>, ms: seq<Asn>, dests: seq<Asn>,
                                 files: map<Asn, Load.Lines>, country: string) returns (res: Result<Load.Lines>)
    requires Distinct(ms) && (set a | a in ms) == mainland
    ensures res.Ok? <==> forall i :: 0 <= i < |dests| ==> RoutingFor(files, mainland, dests[i]).Ok?
    ensures res.Ok? && Strings.FieldOk(country) && (forall a :: a in ms ==> Strings.FieldOk(a))
              && (forall i :: 0 <= i < |dests| ==> LoopFreeFor(files, mainland, dests[i])) ==>
      var borders := CountryNet.GetBorderAses(t, mainland, ms);
      var back := Load.LoadChokePotentials(res.value);
      && back.Ok? && back.value.0 == country
      && back.value.1 == Sum(dests, PathsFn(files, mainland))
      && |back.value.2| == |borders|
      && forall i :: 0 <= i < |borders| ==>
           back.value.2[i] == (borders[i], Sum(dests, CreditFn(files, mainland, borders, borders[i])))
  {
    var borders := CountryNet.GetBorderAses(t, mainland, ms);
    var out := ChokepointPotentials(files, mainland, borders, dests);
    if out.Err? {
      return Err(out.error);
    }
    var (pc, cp) := out.value;
    res := Ok(Load.SaveChokePotentials(country, pc, borders, cp));
    if Strings.FieldOk(country) && (forall a :: a in ms ==> Strings.FieldOk(a)) {
      assert Distinct(borders) && forall i :: 0 <= i < |borders| ==> Strings.FieldOk(borders[i]);
      SavedPotentials(country, pc, borders, cp);
    }
  }

  /** The saved potentials read back as the country, the total and one item per border AS. */
  lemma SavedPotentials(country: string, pc: int, borders: seq<Asn>, cp: map<Asn, int>)
    requires Strings.FieldOk(country)
    requires Distinct(borders) && forall i :: 0 <= i < |borders| ==> Strings.FieldOk(borders[i])
    ensures var back := Load.LoadChokePotentials(Load.SaveChokePotentials(country, pc, borders, cp));
      && back.Ok? && back.value.0 == country && back.value.1 == pc && |back.value.2| == |borders|
      && forall i :: 0 <= i < |borders| ==> back.value.2[i] == (borders[i], Load.CountOf(cp, borders[i]))
  {
    Load.LoadSaveChokePotentials(country, pc, borders, cp);
    forall i | 0 <= i < |borders|
      ensures Load.CpItems(borders, cp)[i] == (borders[i], Load.CountOf(cp, borders[i]))
    {
      CpItemsAt(borders, cp, i);
    }
  }
}
