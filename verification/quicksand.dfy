/**
 * The BGP route simulator of source/simulation/bgp/quicksand.py, after the
 * "Modeling on quicksand" algorithm. For one destination every AS collects
 * the next hops it would accept, in three stages: stage 1 climbs provider
 * links breadth-first from the destination, stage 2 takes one peer hop from
 * every AS stage 1 reached, stage 3 descends customer links breadth-first
 * from everything reached so far. A hash tiebreak then picks one next hop
 * per AS.
 *
 * The simulator works on a deep copy of the topology that carries two extra
 * fields per AS; here the topology stays an immutable value and those fields
 * live in a separate `State`.
 */
module Quicksand {
  import opened Wrappers
  import opened Utils
  import opened Topology
  import opened Reach

  /** `hop_type`: how the recorded next hop relates to the AS (`None` at the destination). */
  datatype Hop = Origin | ViaCustomer | ViaPeer | ViaProvider

  /** One entry of `preferred_next`. */
  datatype Cand = Cand(next: Option<Asn>, hop: Hop, len: nat)

  /** The two fields `_bgp_simulate_prep` adds to every AS. */
  datatype Node = Node(visited: bool, pref: seq<Cand>)

  type State = map<Asn, Node>

  /** The result of `bgp_simulate`: next hop per routed AS, `None` at the destination. */
  type Routing = map<Asn, Option<Asn>>

  /** The destination's own entry. */
  const Root := Cand(None, Origin, 0)

  /** `_bgp_simulate_prep`: every AS of the topology starts unvisited with no candidates. */
  function Prep(t: Topo): (s: State)
    ensures s.Keys == t.Keys
    ensures forall a :: a in s ==> s[a] == Node(false, [])
  {
    map a | a in t :: Node(false, [])
  }

  // ---------------------------------------------------------------------------
  // What every reachable state satisfies
  // ---------------------------------------------------------------------------

  /** The relation that makes `n` a next hop of `a` for a hop of type `h`. */
  predicate Linked(t: Topo, a: Asn, h: Hop, n: Asn) {
    match h
    case Origin => false
    case ViaCustomer => a in Providers(t, n)
    case ViaPeer => a in Peers(t, n)
    case ViaProvider => a in Customers(t, n)
  }

  /** The valley-free rule for two consecutive hops: after a peer or customer hop only customer hops follow. */
  predicate Continues(h: Hop, next: Hop) {
    h == ViaProvider || next == ViaCustomer || next == Origin
  }

  /**
   * A candidate of `a` is either the destination's own entry or a hop to an
   * AS that already has candidates, one step longer than that AS's route,
   * along a link of the recorded kind, and continuing valley-free.
   */
  ghost predicate CandOk(t: Topo, dest: Asn, s: State, a: Asn, c: Cand) {
    if c.hop == Origin then a == dest && c.next == None && c.len == 0
    else
      && c.next.Some? && c.next.value in s && s[c.next.value].pref != []
      && c.len == s[c.next.value].pref[0].len + 1
      && Linked(t, a, c.hop, c.next.value)
      && Continues(c.hop, s[c.next.value].pref[0].hop)
  }

  /** All candidates of one AS share hop type and path length. */
  predicate Homogeneous(p: seq<Cand>) {
    forall i :: 0 <= i < |p| ==> p[i].hop == p[0].hop && p[i].len == p[0].len
  }

  /** Every candidate of every AS is well formed. */
  ghost predicate CandsOk(t: Topo, dest: Asn, s: State) {
    forall a, i :: a in s && 0 <= i < |s[a].pref| ==> CandOk(t, dest, s, a, s[a].pref[i])
  }

  ghost predicate Wf(t: Topo, dest: Asn, s: State) {
    && s.Keys == t.Keys
    && dest in s && s[dest].pref == [Root]
    && (forall a :: a in s ==> (s[a].visited <==> s[a].pref != []))
    && (forall a :: a in s ==> Homogeneous(s[a].pref))
    && CandsOk(t, dest, s)
  }

  function Seen(xs: seq<Asn>): set<Asn> {
    set x | x in xs
  }

  lemma SeenPrefix(xs: seq<Asn>, j: nat)
    requires j < |xs|
    ensures Seen(xs[..j + 1]) == Seen(xs[..j]) + {xs[j]}
  {
    assert xs[..j + 1] == xs[..j] + [xs[j]];
  }

  /** `routing_tree` lists the visited ASes, each once. */
  ghost predicate TreeOk(s: State, tree: seq<Asn>) {
    Distinct(tree) && forall a :: a in tree <==> a in s && s[a].visited
  }

  /** Candidate lists only grow at the end and visited flags stay set. */
  ghost predicate Grows(s: State, s': State) {
    s'.Keys == s.Keys && forall a :: a in s ==> s[a].pref <= s'[a].pref && (s[a].visited ==> s'[a].visited)
  }

  /** Every candidate added between `s` and `s'` has hop type `h`. */
  ghost predicate AddedOnly(s: State, s': State, h: Hop) {
    forall a, i :: a in s && a in s' && |s[a].pref| <= i < |s'[a].pref| ==> s'[a].pref[i].hop == h
  }

  /** No candidate has a hop type other than `Origin` and `h`. */
  ghost predicate OnlyHops(s: State, h: Hop) {
    forall a, i :: a in s && 0 <= i < |s[a].pref| ==> s[a].pref[i].hop == Origin || s[a].pref[i].hop == h
  }

  lemma CandOkGrow(t: Topo, dest: Asn, s: State, s': State, a: Asn, c: Cand)
    requires Grows(s, s') && CandOk(t, dest, s, a, c)
    ensures CandOk(t, dest, s', a, c)
  {
    if c.hop != Origin {
      var n := c.next.value;
      assert s'[n].pref[0] == s[n].pref[0];
    }
  }

  lemma GrowsTrans(s1: State, s2: State, s3: State, h: Hop)
    requires Grows(s1, s2) && Grows(s2, s3)
    requires AddedOnly(s1, s2, h) && AddedOnly(s2, s3, h)
    ensures Grows(s1, s3) && AddedOnly(s1, s3, h)
  {
    forall a, i | a in s1 && a in s3 && |s1[a].pref| <= i < |s3[a].pref|
      ensures s3[a].pref[i].hop == h
    {
      if i < |s2[a].pref| {
        assert s3[a].pref[i] == s2[a].pref[i];
      }
    }
  }

  lemma OnlyHopsGrow(s: State, s': State, h: Hop)
    requires OnlyHops(s, h) && Grows(s, s') && AddedOnly(s, s', h)
    ensures OnlyHops(s', h)
  {
    forall a, i | a in s' && 0 <= i < |s'[a].pref|
      ensures s'[a].pref[i].hop == Origin || s'[a].pref[i].hop == h
    {
      if i < |s[a].pref| {
        assert s'[a].pref[i] == s[a].pref[i];
      }
    }
  }

  // ---------------------------------------------------------------------------
  // One relaxation: what a stage does for one neighbour
  // ---------------------------------------------------------------------------

  /**
   * Whether a list headed by `head` takes `c` too. Stage 1 compares only the
   * path length; stages 2 and 3 also compare the hop type.
   */
  predicate Admits(head: Cand, c: Cand, hopChecked: bool) {
    head.len == c.len && (hopChecked ==> head.hop == c.hop)
  }

  /** Marks `x` visited and appends `c` when its list is empty or admits `c`. */
  function Relax(s: State, x: Asn, c: Cand, hopChecked: bool): State
    requires x in s
  {
    var p := s[x].pref;
    s[x := Node(true, if p == [] || Admits(p[0], c, hopChecked) then p + [c] else p)]
  }

  lemma RelaxGrows(s: State, x: Asn, c: Cand, hopChecked: bool)
    requires x in s
    ensures Grows(s, Relax(s, x, c, hopChecked)) && AddedOnly(s, Relax(s, x, c, hopChecked), c.hop)
  {
  }

  lemma RelaxCands(t: Topo, dest: Asn, s: State, x: Asn, c: Cand, hopChecked: bool)
    requires CandsOk(t, dest, s) && x in s && CandOk(t, dest, s, x, c)
    ensures CandsOk(t, dest, Relax(s, x, c, hopChecked))
  {
    var r := Relax(s, x, c, hopChecked);
    var p := s[x].pref;
    RelaxGrows(s, x, c, hopChecked);
    forall a, i | a in r && 0 <= i < |r[a].pref|
      ensures CandOk(t, dest, r, a, r[a].pref[i])
    {
      if a != x || i < |p| {
        assert r[a].pref[i] == s[a].pref[i];
        CandOkGrow(t, dest, s, r, a, s[a].pref[i]);
      } else {
        CandOkGrow(t, dest, s, r, x, c);
      }
    }
  }

  lemma RelaxWf(t: Topo, dest: Asn, s: State, x: Asn, c: Cand, hopChecked: bool)
    requires Wf(t, dest, s) && x in s
    requires c.hop != Origin && CandOk(t, dest, s, x, c)
    requires hopChecked || OnlyHops(s, c.hop)
    ensures Wf(t, dest, Relax(s, x, c, hopChecked))
  {
    RelaxShape(t, dest, s, x, c, hopChecked);
    RelaxHomogeneous(t, dest, s, x, c, hopChecked);
    RelaxCands(t, dest, s, x, c, hopChecked);
  }

  /** The keys, the destination's entry and the visited flags stay consistent. */
  lemma RelaxShape(t: Topo, dest: Asn, s: State, x: Asn, c: Cand, hopChecked: bool)
    requires Wf(t, dest, s) && x in s
    requires c.hop != Origin && CandOk(t, dest, s, x, c)
    ensures var r := Relax(s, x, c, hopChecked);
      && r.Keys == t.Keys && dest in r && r[dest].pref == [Root]
      && forall a :: a in r ==> (r[a].visited <==> r[a].pref != [])
  {
    var r := Relax(s, x, c, hopChecked);
    if x == dest {
      assert !Admits(Root, c, hopChecked);
    }
  }

  /** The list that takes the new candidate already agrees with it in hop type and length. */
  lemma RelaxHomogeneous(t: Topo, dest: Asn, s: State, x: Asn, c: Cand, hopChecked: bool)
    requires Wf(t, dest, s) && x in s
    requires c.hop != Origin && CandOk(t, dest, s, x, c)
    requires hopChecked || OnlyHops(s, c.hop)
    ensures forall a :: a in Relax(s, x, c, hopChecked) ==> Homogeneous(Relax(s, x, c, hopChecked)[a].pref)
  {
    var r := Relax(s, x, c, hopChecked);
    var p := s[x].pref;
    if p != [] && Admits(p[0], c, hopChecked) {
      assert CandOk(t, dest, s, x, p[0]);
      assert p[0].hop != Origin;
      assert r[x].pref == p + [c];
      assert Homogeneous(r[x].pref);
    }
  }

  /** Relaxing marks `x` visited; the tree gains `x` when it was not visited before. */
  lemma RelaxTree(s: State, tree: seq<Asn>, x: Asn, c: Cand, hopChecked: bool)
    requires TreeOk(s, tree) && x in s
    ensures var tree' := if s[x].visited then tree else tree + [x];
      TreeOk(Relax(s, x, c, hopChecked), tree') && Seen(tree') == Seen(tree) + {x}
  {
    if !s[x].visited {
      assert x !in tree;
    }
  }

  /** One neighbour of the inner loop: the state and the tree after it. */
  lemma RelaxStep(t: Topo, dest: Asn, s: State, tree: seq<Asn>, x: Asn, c: Cand, hopChecked: bool)
    requires Wf(t, dest, s) && TreeOk(s, tree) && x in s
    requires c.hop != Origin && CandOk(t, dest, s, x, c)
    requires hopChecked || OnlyHops(s, c.hop)
    ensures var r := Relax(s, x, c, hopChecked);
      var tree' := if s[x].visited then tree else tree + [x];
      && Wf(t, dest, r) && TreeOk(r, tree')
      && Grows(s, r) && AddedOnly(s, r, c.hop)
      && (hopChecked || OnlyHops(r, c.hop))
      && Seen(tree') == Seen(tree) + {x}
  {
    var r := Relax(s, x, c, hopChecked);
    RelaxWf(t, dest, s, x, c, hopChecked);
    RelaxGrows(s, x, c, hopChecked);
    RelaxTree(s, tree, x, c, hopChecked);
    if !hopChecked {
      OnlyHopsGrow(s, r, c.hop);
    }
  }

  /**
   * The inner `for` loop of a stage: relaxes every neighbour in `nbrs` with
   * a hop of type `h` back to `curr`, appending newly visited ASes to the tree.
   */
  method RelaxAll(t: Topo, dest: Asn, s0: State, tree0: seq<Asn>, curr: Asn, nbrs: seq<Asn>, h: Hop, hopChecked: bool)
    returns (s: State, tree: seq<Asn>)
    requires Wf(t, dest, s0) && TreeOk(s0, tree0)
    requires curr in s0 && s0[curr].pref != []
    requires forall x :: x in nbrs ==> x in t && Linked(t, x, h, curr)
    requires h != Origin && Continues(h, s0[curr].pref[0].hop)
    requires hopChecked || OnlyHops(s0, h)
    ensures Wf(t, dest, s) && TreeOk(s, tree)
    ensures Grows(s0, s) && AddedOnly(s0, s, h)
    ensures tree0 <= tree && Seen(tree) == Seen(tree0) + Seen(nbrs)
  {
    s, tree := s0, tree0;
    var c := Cand(Some(curr), h, s0[curr].pref[0].len + 1);
    for j := 0 to |nbrs|
      invariant Wf(t, dest, s) && TreeOk(s, tree)
      invariant Grows(s0, s) && AddedOnly(s0, s, h)
      invariant hopChecked || OnlyHops(s, h)
      invariant tree0 <= tree && Seen(tree) == Seen(tree0) + Seen(nbrs[..j])
    {
      var x := nbrs[j];
      RelaxNext(t, dest, s0, s, tree, curr, x, h, hopChecked);
      var prev := tree;
      if !s[x].visited {
        tree := tree + [x];
      }
      TreeNext(tree0, prev, tree, nbrs, j);
      s := Relax(s, x, c, hopChecked);
    }
    assert nbrs[..|nbrs|] == nbrs;
  }

  /** One turn of the inner loop keeps what the loop maintains of the state. */
  lemma RelaxNext(t: Topo, dest: Asn, s0: State, s: State, tree: seq<Asn>, curr: Asn, x: Asn, h: Hop, hopChecked: bool)
    requires curr in s0 && s0[curr].pref != []
    requires x in t && Linked(t, x, h, curr)
    requires h != Origin && Continues(h, s0[curr].pref[0].hop)
    requires Wf(t, dest, s) && TreeOk(s, tree)
    requires Grows(s0, s) && AddedOnly(s0, s, h)
    requires hopChecked || OnlyHops(s, h)
    ensures var r := Relax(s, x, Cand(Some(curr), h, s0[curr].pref[0].len + 1), hopChecked);
      var tree' := if s[x].visited then tree else tree + [x];
      && Wf(t, dest, r) && TreeOk(r, tree')
      && Grows(s0, r) && AddedOnly(s0, r, h)
      && (hopChecked || OnlyHops(r, h))
      && tree <= tree' && Seen(tree') == Seen(tree) + {x}
  {
    var c := Cand(Some(curr), h, s0[curr].pref[0].len + 1);
    CurrCand(t, dest, s0, s, curr, x, h);
    RelaxStep(t, dest, s, tree, x, c, hopChecked);
    GrowsTrans(s0, s, Relax(s, x, c, hopChecked), h);
  }

  /** The tree after one more neighbour has seen that neighbour too. */
  lemma TreeNext(tree0: seq<Asn>, tree: seq<Asn>, tree': seq<Asn>, nbrs: seq<Asn>, j: nat)
    requires j < |nbrs|
    requires tree0 <= tree <= tree' && Seen(tree) == Seen(tree0) + Seen(nbrs[..j])
    requires Seen(tree') == Seen(tree) + {nbrs[j]}
    ensures tree0 <= tree' && Seen(tree') == Seen(tree0) + Seen(nbrs[..j + 1])
  {
    SeenPrefix(nbrs, j);
  }

  /** A neighbour linked to `curr` may take the hop back to `curr`, one step longer than its route. */
  lemma CurrCand(t: Topo, dest: Asn, s0: State, s: State, curr: Asn, x: Asn, h: Hop)
    requires Grows(s0, s) && curr in s0 && s0[curr].pref != []
    requires Linked(t, x, h, curr) && h != Origin && Continues(h, s0[curr].pref[0].hop)
    ensures CandOk(t, dest, s, x, Cand(Some(curr), h, s0[curr].pref[0].len + 1))
  {
    assert s[curr].pref[0] == s0[curr].pref[0];
  }

  // ---------------------------------------------------------------------------
  // The three stages
  // ---------------------------------------------------------------------------

  /** Stage 1 follows `providers` lists. */
  function ProviderGraph(t: Topo): Graph<Asn> {
    map a | a in t :: Providers(t, a)
  }

  /** Stage 2 follows `peers` lists, one hop. */
  function PeerGraph(t: Topo): Graph<Asn> {
    map a | a in t :: Peers(t, a)
  }

  /** Stage 3 follows `customers` lists. */
  function CustomerGraph(t: Topo): Graph<Asn> {
    map a | a in t :: Customers(t, a)
  }

  lemma TreeSize(t: Topo, dest: Asn, s: State, tree: seq<Asn>)
    requires Wf(t, dest, s) && TreeOk(s, tree)
    ensures |tree| <= |t|
  {
    DistinctCard(tree);
    SubsetCard(Seen(tree), t.Keys);
  }

  /**
   * The queue loop of stages 1 (`up`: climbing providers, recording customer
   * hops, comparing lengths only) and 3 (descending customers, recording
   * provider hops). The queue starts as a copy of the tree and both grow
   * together, so the queue is the tree read from position `head`.
   */
  method Bfs(t: Topo, dest: Asn, s0: State, tree0: seq<Asn>, up: bool) returns (s: State, tree: seq<Asn>)
    requires Closed(t) && Wf(t, dest, s0) && TreeOk(s0, tree0)
    requires up ==> OnlyHops(s0, ViaCustomer)
    ensures Wf(t, dest, s) && TreeOk(s, tree)
    ensures Grows(s0, s) && AddedOnly(s0, s, HopOf(up))
    ensures up ==> OnlyHops(s, ViaCustomer)
    ensures tree0 <= tree
    ensures Seen(tree) == Closure(Along(t, up), Seen(tree0))
  {
    s, tree := s0, tree0;
    var head := 0;
    BfsStart(t, dest, s0, tree0, up);
    while head < |tree|
      invariant BfsInv(t, dest, s0, tree0, up, s, tree, head)
      decreases |t| - head
    {
      TreeSize(t, dest, s, tree);
      var curr := tree[head];
      var nbrs := if up then Providers(t, curr) else Customers(t, curr);
      BfsNeighbours(t, dest, s0, tree0, up, s, tree, head);
      ghost var before, seen := s, tree;
      s, tree := RelaxAll(t, dest, s, tree, curr, nbrs, HopOf(up), !up);
      BfsAdvance(t, dest, s0, tree0, up, before, seen, head, s, tree);
      head := head + 1;
    }
    BfsDone(t, dest, s0, tree0, up, s, tree);
  }

  function HopOf(up: bool): Hop {
    if up then ViaCustomer else ViaProvider
  }

  function Along(t: Topo, up: bool): Graph<Asn> {
    if up then ProviderGraph(t) else CustomerGraph(t)
  }

  /** What the queue loop keeps: the first `head` tree members have been expanded. */
  ghost predicate BfsInv(t: Topo, dest: Asn, s0: State, tree0: seq<Asn>, up: bool, s: State, tree: seq<Asn>, head: int) {
    && 0 <= head <= |tree|
    && Wf(t, dest, s) && TreeOk(s, tree)
    && Grows(s0, s) && AddedOnly(s0, s, HopOf(up))
    && (up ==> OnlyHops(s, ViaCustomer))
    && tree0 <= tree
    && Seen(tree0) <= Seen(tree) <= Closure(Along(t, up), Seen(tree0))
    && Expanded(Along(t, up), tree, head, Seen(tree))
  }

  lemma BfsStart(t: Topo, dest: Asn, s0: State, tree0: seq<Asn>, up: bool)
    requires Wf(t, dest, s0) && TreeOk(s0, tree0)
    requires up ==> OnlyHops(s0, ViaCustomer)
    ensures BfsInv(t, dest, s0, tree0, up, s0, tree0, 0)
  {
  }

  /** The neighbours of the AS at `head` meet what `RelaxAll` needs. */
  lemma BfsNeighbours(t: Topo, dest: Asn, s0: State, tree0: seq<Asn>, up: bool, s: State, tree: seq<Asn>, head: int)
    requires Closed(t) && BfsInv(t, dest, s0, tree0, up, s, tree, head) && head < |tree|
    ensures var curr := tree[head];
      var nbrs := if up then Providers(t, curr) else Customers(t, curr);
      && curr in s && s[curr].pref != []
      && (forall x :: x in nbrs ==> x in t && Linked(t, x, HopOf(up), curr))
      && Continues(HopOf(up), s[curr].pref[0].hop)
      && (!up || OnlyHops(s, HopOf(up)))
  {
    var curr := tree[head];
    var nbrs := if up then Providers(t, curr) else Customers(t, curr);
    forall x | x in nbrs
      ensures x in t && Linked(t, x, HopOf(up), curr)
    {
      assert x in Neighbours(t, curr);
    }
    if up {
      assert s[curr].pref[0].hop == Origin || s[curr].pref[0].hop == ViaCustomer;
    }
  }

  lemma BfsAdvance(t: Topo, dest: Asn, s0: State, tree0: seq<Asn>, up: bool,
                   s: State, tree: seq<Asn>, head: int, s': State, tree': seq<Asn>)
    requires BfsInv(t, dest, s0, tree0, up, s, tree, head) && head < |tree|
    requires Wf(t, dest, s') && TreeOk(s', tree')
    requires Grows(s, s') && AddedOnly(s, s', HopOf(up))
    requires tree <= tree'
    requires Seen(tree') == Seen(tree) + Seen(if up then Providers(t, tree[head]) else Customers(t, tree[head]))
    ensures BfsInv(t, dest, s0, tree0, up, s', tree', head + 1)
  {
    var g := Along(t, up);
    var curr := tree[head];
    assert curr in t by {
      assert curr in Seen(tree);
    }
    assert Succ(g, curr) == if up then Providers(t, curr) else Customers(t, curr);
    GrowsTrans(s0, s, s', HopOf(up));
    if up {
      OnlyHopsGrow(s, s', HopOf(up));
    }
    SeenWithin(g, Seen(tree0), tree, tree', curr);
    ExpandedGrow(g, tree, tree', head, Seen(tree), Seen(tree'));
  }

  /** Adding the successors of a reached AS keeps the tree inside the closure. */
  lemma SeenWithin(g: Graph<Asn>, base: set<Asn>, tree: seq<Asn>, tree': seq<Asn>, curr: Asn)
    requires Seen(tree) <= Closure(g, base) && curr in Seen(tree)
    requires Seen(tree') == Seen(tree) + Seen(Succ(g, curr))
    ensures Seen(tree') <= Closure(g, base)
  {
    assert curr in Closure(g, base);
  }

  lemma BfsDone(t: Topo, dest: Asn, s0: State, tree0: seq<Asn>, up: bool, s: State, tree: seq<Asn>)
    requires BfsInv(t, dest, s0, tree0, up, s, tree, |tree|)
    ensures Seen(tree) == Closure(Along(t, up), Seen(tree0))
  {
    var g := Along(t, up);
    forall x, y | x in Seen(tree) && y in Succ(g, x)
      ensures y in Seen(tree)
    {
      var i :| 0 <= i < |tree| && tree[i] == x;
    }
    ClosureLeast(g, Seen(tree0), Seen(tree));
  }

  /** `_stage_1`: the destination gets its own entry, then providers are climbed. */
  method Stage1(t: Topo, s0: State, dest: Asn) returns (s: State, tree: seq<Asn>)
    requires Closed(t) && dest in t && s0 == Prep(t)
    ensures Wf(t, dest, s) && TreeOk(s, tree) && OnlyHops(s, ViaCustomer)
    ensures Seen(tree) == Closure(ProviderGraph(t), {dest})
  {
    var s1 := s0[dest := Node(true, [Root])];
    assert Seen([dest]) == {dest};
    s, tree := Bfs(t, dest, s1, [dest], true);
  }

  /**
   * `_stage_2`: every AS of the stage-1 tree (a snapshot: peers added here
   * are not expanded again) offers a peer hop to each of its peers.
   */
  method Stage2(t: Topo, dest: Asn, s0: State, tree0: seq<Asn>) returns (s: State, tree: seq<Asn>)
    requires Closed(t) && Wf(t, dest, s0) && TreeOk(s0, tree0) && OnlyHops(s0, ViaCustomer)
    ensures Wf(t, dest, s) && TreeOk(s, tree)
    ensures Grows(s0, s) && AddedOnly(s0, s, ViaPeer)
    ensures forall a :: a in s0 && s0[a].pref != [] && s0[a].pref[0].hop != ViaPeer ==> s[a].pref == s0[a].pref
    ensures tree0 <= tree
    ensures Seen(tree) == Step(PeerGraph(t), Seen(tree0))
  {
    s, tree := s0, tree0;
    for i := 0 to |tree0|
      invariant PeerInv(t, dest, s0, tree0, s, tree, i)
    {
      var curr := tree0[i];
      var nbrs := Peers(t, curr);
      PeerNeighbours(t, dest, s0, tree0, s, tree, i);
      ghost var before, seen := s, tree;
      s, tree := RelaxAll(t, dest, s, tree, curr, nbrs, ViaPeer, true);
      PeerAdvance(t, dest, s0, tree0, before, seen, i, s, tree);
    }
    PeerDone(t, dest, s0, tree0, s, tree);
    LocalPreference(t, dest, s0, s, ViaPeer);
  }

  /** What the stage-2 loop keeps: the first `i` snapshot members have offered their peer hops. */
  ghost predicate PeerInv(t: Topo, dest: Asn, s0: State, tree0: seq<Asn>, s: State, tree: seq<Asn>, i: int) {
    && 0 <= i <= |tree0|
    && Wf(t, dest, s0) && TreeOk(s0, tree0) && OnlyHops(s0, ViaCustomer)
    && Wf(t, dest, s) && TreeOk(s, tree)
    && Grows(s0, s) && AddedOnly(s0, s, ViaPeer)
    && tree0 <= tree
    && Seen(tree0) <= Seen(tree) <= Step(PeerGraph(t), Seen(tree0))
    && Expanded(PeerGraph(t), tree0, i, Seen(tree))
  }

  lemma PeerNeighbours(t: Topo, dest: Asn, s0: State, tree0: seq<Asn>, s: State, tree: seq<Asn>, i: int)
    requires Closed(t) && PeerInv(t, dest, s0, tree0, s, tree, i) && i < |tree0|
    ensures var curr := tree0[i];
      && curr in s && s[curr].pref != []
      && (forall x :: x in Peers(t, curr) ==> x in t && Linked(t, x, ViaPeer, curr))
      && Continues(ViaPeer, s[curr].pref[0].hop)
  {
    var curr := tree0[i];
    assert s[curr].pref[0] == s0[curr].pref[0];
    forall x | x in Peers(t, curr)
      ensures x in t && Linked(t, x, ViaPeer, curr)
    {
      assert x in Neighbours(t, curr);
    }
  }

  lemma PeerAdvance(t: Topo, dest: Asn, s0: State, tree0: seq<Asn>,
                    s: State, tree: seq<Asn>, i: int, s': State, tree': seq<Asn>)
    requires PeerInv(t, dest, s0, tree0, s, tree, i) && i < |tree0|
    requires Wf(t, dest, s') && TreeOk(s', tree')
    requires Grows(s, s') && AddedOnly(s, s', ViaPeer)
    requires tree <= tree'
    requires Seen(tree') == Seen(tree) + Seen(Peers(t, tree0[i]))
    ensures PeerInv(t, dest, s0, tree0, s', tree', i + 1)
  {
    var g := PeerGraph(t);
    var curr := tree0[i];
    assert curr in t by {
      assert curr in Seen(tree0);
    }
    assert Succ(g, curr) == Peers(t, curr);
    GrowsTrans(s0, s, s', ViaPeer);
    assert tree0[..|tree0|] == tree0;
    ExpandedGrow(g, tree0, tree0, i, Seen(tree), Seen(tree'));
  }

  lemma PeerDone(t: Topo, dest: Asn, s0: State, tree0: seq<Asn>, s: State, tree: seq<Asn>)
    requires PeerInv(t, dest, s0, tree0, s, tree, |tree0|)
    ensures Seen(tree) == Step(PeerGraph(t), Seen(tree0))
  {
    var g := PeerGraph(t);
    forall y | y in Step(g, Seen(tree0))
      ensures y in Seen(tree)
    {
      if y !in Seen(tree0) {
        var x :| x in Seen(tree0) && y in Succ(g, x);
        var k :| 0 <= k < |tree0| && tree0[k] == x;
      }
    }
  }

  /** `_stage_3`: customers are descended from everything reached so far. */
  method Stage3(t: Topo, dest: Asn, s0: State, tree0: seq<Asn>) returns (s: State, tree: seq<Asn>)
    requires Closed(t) && Wf(t, dest, s0) && TreeOk(s0, tree0)
    ensures Wf(t, dest, s) && TreeOk(s, tree)
    ensures Grows(s0, s) && AddedOnly(s0, s, ViaProvider)
    ensures forall a :: a in s0 && s0[a].pref != [] && s0[a].pref[0].hop != ViaProvider ==> s[a].pref == s0[a].pref
    ensures tree0 <= tree
    ensures Seen(tree) == Closure(CustomerGraph(t), Seen(tree0))
  {
    s, tree := Bfs(t, dest, s0, tree0, false);
    LocalPreference(t, dest, s0, s, ViaProvider);
  }

  /** The hop type of the `i`th candidate, `Origin` past the end of the list. */
  function HopAt(p: seq<Cand>, i: nat): Hop {
    if i < |p| then p[i].hop else Origin
  }

  /**
   * Local preference: a stage that only adds `h` candidates leaves every
   * list that already held a candidate of another type as it was, because
   * lists stay homogeneous.
   */
  lemma LocalPreference(t: Topo, dest: Asn, s0: State, s: State, h: Hop)
    requires Wf(t, dest, s) && Grows(s0, s) && AddedOnly(s0, s, h)
    ensures forall a :: a in s0 && s0[a].pref != [] && s0[a].pref[0].hop != h ==> s[a].pref == s0[a].pref
  {
    forall a | a in s0 && s0[a].pref != [] && s0[a].pref[0].hop != h
      ensures s[a].pref == s0[a].pref
    {
      var p0, p := s0[a].pref, s[a].pref;
      assert p[0] == p0[0];
      // the first candidate a stage could have appended, if any
      var added := HopAt(p, |p0|);
    }
  }

  /**
   * The ASes that end up with a route: climb providers from the destination,
   * take at most one peer hop from there, then descend customers.
   */
  ghost function Routable(t: Topo, dest: Asn): set<Asn> {
    Closure(CustomerGraph(t), Step(PeerGraph(t), Closure(ProviderGraph(t), {dest})))
  }

  /** `_bgp_simulate_prep` and the three stages. */
  method Simulate(t: Topo, dest: Asn) returns (s: State)
    requires Closed(t) && dest in t
    ensures Wf(t, dest, s)
    ensures forall a :: a in s && s[a].pref != [] <==> a in Routable(t, dest)
  {
    var s1, tree1 := Stage1(t, Prep(t), dest);
    var s2, tree2 := Stage2(t, dest, s1, tree1);
    var s3, tree3 := Stage3(t, dest, s2, tree2);
    s := s3;
  }

  // ---------------------------------------------------------------------------
  // Tiebreak and clean-up
  // ---------------------------------------------------------------------------

  /** The `next_hop` string of a candidate (never `None` outside the destination). */
  function NextId(c: Cand): Asn {
    if c.next.Some? then c.next.value else ""
  }

  /** The tiebreak key of `a`'s candidates: `H(asn + next_hop)`, standing for the sha256 hex digest. */
  function TieKey(h: string -> int, a: Asn): Cand -> int {
    c => h(a + NextId(c))
  }

  /** `_sort_with_tiebreak_policies`: every list but the destination's, sorted by ascending key. */
  function Tiebreak(h: string -> int, s: State, dest: Asn): State {
    map a | a in s :: if a == dest then s[a] else s[a].(pref := SortBy(s[a].pref, TieKey(h, a), false))
  }

  /** `_clean_routing_topo`: the first candidate's next hop of every AS that has one. */
  function Clean(s: State): Routing {
    map a | a in s && s[a].pref != [] :: s[a].pref[0].next
  }

  /** The first position holding the smallest key: an independent reading of "sort, then take the head". */
  function FirstMin(p: seq<Cand>, key: Cand -> int): (i: nat)
    requires |p| > 0
    ensures i < |p|
    ensures forall j :: 0 <= j < |p| ==> key(p[i]) <= key(p[j])
    ensures forall j :: 0 <= j < i ==> key(p[j]) > key(p[i])
  {
    if |p| == 1 then 0
    else
      var k := FirstMin(p[1..], key);
      if key(p[0]) <= key(p[1 + k]) then 0 else 1 + k
  }

  lemma {:induction false} WithKeyHead(p: seq<Cand>, key: Cand -> int, i: nat)
    requires i < |p|
    requires forall j :: 0 <= j < i ==> key(p[j]) != key(p[i])
    ensures WithKey(p, key, key(p[i])) != [] && WithKey(p, key, key(p[i]))[0] == p[i]
    decreases i
  {
    if i > 0 {
      WithKeyHead(p[1..], key, i - 1);
    }
  }

  /** The head of the stable ascending sort is the first candidate with the smallest key. */
  lemma SortHead(p: seq<Cand>, key: Cand -> int)
    requires |p| > 0
    ensures SortBy(p, key, false)[0] == p[FirstMin(p, key)]
  {
    var r := SortBy(p, key, false);
    var i := FirstMin(p, key);
    SortHeadKey(p, key);
    WithKeyHead(p, key, i);
    WithKeyHead(r, key, 0);
    SortByStable(p, key, false, key(p[i]));
  }

  /** The head of the ascending sort has the smallest key. */
  lemma SortHeadKey(p: seq<Cand>, key: Cand -> int)
    requires |p| > 0
    ensures |SortBy(p, key, false)| > 0 && key(SortBy(p, key, false)[0]) == key(p[FirstMin(p, key)])
  {
    var r := SortBy(p, key, false);
    var i := FirstMin(p, key);
    assert r[0] in multiset(p);
    var m :| 0 <= m < |p| && p[m] == r[0];
    assert p[i] in multiset(r);
    var n :| 0 <= n < |r| && r[n] == p[i];
    assert n == 0 || InOrder(false, key(r[0]), key(r[n]));
  }

  /**
   * The next hop chosen for an AS other than the destination is that of its
   * first candidate with the smallest tiebreak key; the destination keeps
   * `None`.
   */
  lemma TiebreakChoice(h: string -> int, s: State, dest: Asn, a: Asn)
    requires a in s && s[a].pref != []
    ensures a in Clean(Tiebreak(h, s, dest))
    ensures a == dest ==> Clean(Tiebreak(h, s, dest))[a] == s[a].pref[0].next
    ensures a != dest ==> Clean(Tiebreak(h, s, dest))[a] == s[a].pref[FirstMin(s[a].pref, TieKey(h, a))].next
  {
    if a != dest {
      SortHead(s[a].pref, TieKey(h, a));
    }
  }

  // ---------------------------------------------------------------------------
  // Properties of the resulting routing tree
  // ---------------------------------------------------------------------------

  /**
   * `len` ranks the tree: the destination has rank 0 and `None`, every other
   * AS has a next hop that is itself routed and ranked one lower.
   */
  ghost predicate Ranked(r: Routing, dest: Asn, len: map<Asn, nat>) {
    forall a :: a in r ==>
      && a in len
      && (a == dest ==> r[a] == None && len[a] == 0)
      && (a != dest ==> r[a].Some? && r[a].value in r && r[a].value in len && len[a] == len[r[a].value] + 1)
  }

  /**
   * `hop` labels the tree valley-free: each next hop is linked by the recorded
   * relation and consecutive hops obey `Continues`; only the destination has `Origin`.
   */
  ghost predicate ValleyFree(t: Topo, r: Routing, dest: Asn, hop: map<Asn, Hop>) {
    forall a :: a in r ==>
      && a in hop && (hop[a] == Origin <==> a == dest)
      && (a != dest ==> r[a].Some? && r[a].value in hop && Linked(t, a, hop[a], r[a].value) && Continues(hop[a], hop[r[a].value]))
  }

  /** Following next hops from `a` reaches `dest` within `fuel` steps. */
  predicate ReachesWithin(r: Routing, dest: Asn, a: Asn, fuel: nat)
    decreases fuel
  {
    a == dest || (fuel > 0 && a in r && r[a].Some? && ReachesWithin(r, dest, r[a].value, fuel - 1))
  }

  /** The path length of every AS with candidates. */
  ghost function Lengths(s: State): map<Asn, nat> {
    map a | a in s && s[a].pref != [] :: s[a].pref[0].len
  }

  /** The hop type of every AS with candidates. */
  ghost function HopTypes(s: State): map<Asn, Hop> {
    map a | a in s && s[a].pref != [] :: s[a].pref[0].hop
  }

  /** The chosen next hop of one AS agrees with the rank and the hop type of its candidates. */
  lemma CleanNode(t: Topo, h: string -> int, s: State, dest: Asn, a: Asn)
    requires Wf(t, dest, s) && a in Clean(Tiebreak(h, s, dest))
    ensures var r, len, hop := Clean(Tiebreak(h, s, dest)), Lengths(s), HopTypes(s);
      && a in len && a in hop && (hop[a] == Origin <==> a == dest)
      && (a == dest ==> r[a] == None && len[a] == 0)
      && (a != dest ==> r[a].Some? && r[a].value in r && r[a].value in len && len[a] == len[r[a].value] + 1)
      && (a != dest ==> r[a].Some? && r[a].value in hop && Linked(t, a, hop[a], r[a].value) && Continues(hop[a], hop[r[a].value]))
  {
    assert s[a].pref != [];
    TiebreakChoice(h, s, dest, a);
    CleanHead(t, s, dest, a);
    if a != dest {
      var n := CleanNext(t, h, s, dest, a);
      TiebreakChoice(h, s, dest, n);
    }
  }

  /** Every AS with candidates has a rank and a hop type; only the destination's hop is the origin. */
  lemma CleanHead(t: Topo, s: State, dest: Asn, a: Asn)
    requires Wf(t, dest, s) && a in s && s[a].pref != []
    ensures a in Lengths(s) && a in HopTypes(s) && (HopTypes(s)[a] == Origin <==> a == dest)
    ensures a == dest ==> Lengths(s)[a] == 0 && s[a].pref[0].next == None
  {
    assert CandOk(t, dest, s, a, s[a].pref[0]);
  }

  /** The chosen candidate of an AS other than the destination leads one step down a valley-free link. */
  lemma CleanNext(t: Topo, h: string -> int, s: State, dest: Asn, a: Asn) returns (n: Asn)
    requires Wf(t, dest, s) && a in s && s[a].pref != [] && a != dest
    ensures s[a].pref[FirstMin(s[a].pref, TieKey(h, a))].next == Some(n)
    ensures n in s && s[n].pref != [] && a in Lengths(s) && n in Lengths(s) && Lengths(s)[a] == Lengths(s)[n] + 1
    ensures a in HopTypes(s) && n in HopTypes(s)
    ensures Linked(t, a, HopTypes(s)[a], n) && Continues(HopTypes(s)[a], HopTypes(s)[n])
  {
    var p := s[a].pref;
    var i := FirstMin(p, TieKey(h, a));
    assert CandOk(t, dest, s, a, p[i]);
    assert Homogeneous(p);
    assert p[i].hop == p[0].hop && p[i].len == p[0].len;
    n := p[i].next.value;
  }

  /** The ranks and hop types read off a well-formed final state witness both tree properties. */
  lemma CleanTree(t: Topo, h: string -> int, s: State, dest: Asn)
    requires Wf(t, dest, s)
    ensures Ranked(Clean(Tiebreak(h, s, dest)), dest, Lengths(s))
    ensures ValleyFree(t, Clean(Tiebreak(h, s, dest)), dest, HopTypes(s))
  {
    forall a | a in Clean(Tiebreak(h, s, dest)) {
      CleanNode(t, h, s, dest, a);
    }
  }

  lemma CleanKeys(h: string -> int, s: State, dest: Asn)
    ensures forall a :: a in Clean(Tiebreak(h, s, dest)) <==> a in s && s[a].pref != []
  {
    forall a | a in s && s[a].pref != []
      ensures a in Clean(Tiebreak(h, s, dest))
    {
      TiebreakChoice(h, s, dest, a);
    }
  }

  /** In a ranked tree every routed AS reaches the destination within as many hops as there are routed ASes. */
  lemma TreeReaches(r: Routing, dest: Asn, len: map<Asn, nat>)
    requires Ranked(r, dest, len)
    ensures forall a :: a in r ==> ReachesWithin(r, dest, a, |r|)
  {
    forall a | a in r
      ensures ReachesWithin(r, dest, a, |r|)
    {
      RankedReaches(r, dest, len, a);
      RankBound(r, dest, len, a);
      ReachesMore(r, dest, a, len[a], |r|);
    }
  }

  /** A ranked tree reaches the destination from every routed AS in exactly its rank. */
  lemma {:induction false} RankedReaches(r: Routing, dest: Asn, len: map<Asn, nat>, a: Asn)
    requires Ranked(r, dest, len) && a in r
    ensures ReachesWithin(r, dest, a, len[a])
    decreases len[a]
  {
    if a != dest {
      RankedReaches(r, dest, len, r[a].value);
    }
  }

  /** The ASes on the way from `a` to the destination, `a` included. */
  ghost function Chain(r: Routing, dest: Asn, len: map<Asn, nat>, a: Asn): (c: set<Asn>)
    requires Ranked(r, dest, len) && a in r
    ensures a in c && c <= r.Keys
    ensures forall x :: x in c ==> x in len && len[x] <= len[a]
    ensures |c| == len[a] + 1
    decreases len[a]
  {
    if a == dest then {a}
    else
      var rest := Chain(r, dest, len, r[a].value);
      assert a !in rest;
      {a} + rest
  }

  /** Hence every rank is below the number of routed ASes: no route loops. */
  lemma RankBound(r: Routing, dest: Asn, len: map<Asn, nat>, a: Asn)
    requires Ranked(r, dest, len) && a in r
    ensures len[a] < |r|
  {
    SubsetCard(Chain(r, dest, len, a), r.Keys);
  }

  lemma {:induction false} ReachesMore(r: Routing, dest: Asn, a: Asn, fuel: nat, more: nat)
    requires ReachesWithin(r, dest, a, fuel) && fuel <= more
    ensures ReachesWithin(r, dest, a, more)
    decreases fuel
  {
    if a != dest {
      ReachesMore(r, dest, r[a].value, fuel - 1, more - 1);
    }
  }

  /** The hop types met walking `fuel` next hops from `a`. */
  ghost function HopsAlong(r: Routing, hop: map<Asn, Hop>, a: Asn, fuel: nat): seq<Hop>
    decreases fuel
  {
    if fuel == 0 || a !in r || r[a].None? || a !in hop then []
    else [hop[a]] + HopsAlong(r, hop, r[a].value, fuel - 1)
  }

  predicate DownOnly(w: seq<Hop>) {
    forall k :: 0 <= k < |w| ==> w[k] == ViaCustomer
  }

  /** `provider`* then either `peer customer`* or `customer`*. */
  predicate ValleyWord(w: seq<Hop>) {
    |w| == 0 || DownOnly(w) || (w[0] == ViaPeer && DownOnly(w[1..])) || (w[0] == ViaProvider && ValleyWord(w[1..]))
  }

  lemma {:induction false} DownAlong(t: Topo, r: Routing, dest: Asn, len: map<Asn, nat>, hop: map<Asn, Hop>, a: Asn)
    requires Ranked(r, dest, len) && ValleyFree(t, r, dest, hop) && a in r
    requires hop[a] == ViaCustomer || hop[a] == Origin
    ensures DownOnly(HopsAlong(r, hop, a, len[a]))
    decreases len[a]
  {
    if a != dest {
      DownAlong(t, r, dest, len, hop, r[a].value);
    }
  }

  /** One step along a ranked, labelled route: the first hop type, then the rest from the next hop. */
  lemma AlongStep(t: Topo, r: Routing, dest: Asn, len: map<Asn, nat>, hop: map<Asn, Hop>, a: Asn) returns (n: Asn)
    requires Ranked(r, dest, len) && ValleyFree(t, r, dest, hop) && a in r && a != dest
    ensures r[a] == Some(n) && n in r && len[a] == len[n] + 1
    ensures hop[a] != Origin && n in hop && Continues(hop[a], hop[n])
    ensures HopsAlong(r, hop, a, len[a]) == [hop[a]] + HopsAlong(r, hop, n, len[n])
  {
    n := r[a].value;
  }

  /** Every route of a valley-free labelled tree reads `provider`* `peer`? `customer`*. */
  lemma {:induction false} RouteValleyFree(t: Topo, r: Routing, dest: Asn, len: map<Asn, nat>, hop: map<Asn, Hop>, a: Asn)
    requires Ranked(r, dest, len) && ValleyFree(t, r, dest, hop) && a in r
    ensures ValleyWord(HopsAlong(r, hop, a, len[a]))
    decreases len[a]
  {
    if a != dest {
      var n := AlongStep(t, r, dest, len, hop, a);
      var w := HopsAlong(r, hop, a, len[a]);
      assert w[0] == hop[a] && w[1..] == HopsAlong(r, hop, n, len[n]);
      match hop[a]
      case ViaProvider => RouteValleyFree(t, r, dest, len, hop, n);
      case ViaPeer => DownAlong(t, r, dest, len, hop, n);
      case ViaCustomer => DownAlong(t, r, dest, len, hop, a);
    }
  }

  /**
   * `bgp_simulate`: the ASes that get a route are exactly the routable ones,
   * the destination maps to `None`, every route reaches the destination
   * within as many hops as there are routed ASes, and the tree admits a
   * ranking and a valley-free labelling.
   */
  method BgpSimulate(t: Topo, dest: Asn, h: string -> int) returns (routing: Routing)
    requires Closed(t) && dest in t
    ensures forall a :: a in routing <==> a in Routable(t, dest)
    ensures dest in routing && routing[dest] == None
    ensures forall a :: a in routing ==> ReachesWithin(routing, dest, a, |routing|)
    ensures exists len :: Ranked(routing, dest, len)
    ensures exists hop :: ValleyFree(t, routing, dest, hop)
  {
    var s := Simulate(t, dest);
    routing := Clean(Tiebreak(h, s, dest));
    CleanKeys(h, s, dest);
    CleanTree(t, h, s, dest);
    TreeReaches(routing, dest, Lengths(s));
  }
}
