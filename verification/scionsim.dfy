/**
 * Reachability inside one isolation domain (source/simulation/scion/scionsim.py):
 * which ISD cores a core reaches over core links, which non-cores a core
 * reaches when the arrival relation decides where a beacon goes next, and
 * what the domain can still reach from the outside when some ASes censor.
 * Each depth-first search of the source visits exactly a `Reach.Closure`;
 * the methods run `Reach.Explore` and the functions name the closure.
 */
module ScionSim {
  import opened Utils
  import opened Topology
  import opened Reach
  import Load

  /** Outside `s`, as a filter. */
  function NotIn(s: set<Asn>): Asn -> bool {
    a => a !in s
  }

  // ---------------------------------------------------------------------------
  // Core reach
  // ---------------------------------------------------------------------------

  /** The core links a search may take: none out of a censored core, none into one. */
  function CoreGraph(isd: map<Asn, seq<Asn>>, censors: set<Asn>): (g: Graph<Asn>)
    ensures forall a, b :: b in Succ(g, a) <==> a !in censors && b !in censors && b in Load.CoresOf(isd, a)
  {
    var g := map a | a in isd && a !in censors :: Filter(isd[a], NotIn(censors));
    assert forall a :: Succ(g, a) == if a in isd && a !in censors then Filter(isd[a], NotIn(censors)) else [];
    g
  }

  /**
   * What `cores_within_reach` returns: nothing for a destination that is not
   * an ISD core or censors, otherwise everything the destination reaches over
   * core links without passing a censor.
   */
  function CoreReach(isd: map<Asn, seq<Asn>>, dest: Asn, censors: set<Asn>): (r: set<Asn>)
    ensures dest in r <==> dest in isd && dest !in censors
    ensures forall a :: a in r ==> a !in censors
  {
    if dest in isd && dest !in censors then
      var c := Closure(CoreGraph(isd, censors), {dest});
      assert forall a :: a in c && a != dest ==> a in Targets(CoreGraph(isd, censors));
      c
    else {}
  }

  /** The reach is closed: an uncensored core link out of it stays in it. */
  lemma CoreReachClosed(isd: map<Asn, seq<Asn>>, dest: Asn, censors: set<Asn>, a: Asn, b: Asn)
    requires a in CoreReach(isd, dest, censors) && b in Load.CoresOf(isd, a) && b !in censors
    ensures b in CoreReach(isd, dest, censors)
  {
    var g := CoreGraph(isd, censors);
    assert b in Succ(g, a);
    assert ClosedUnder(g, Closure(g, {dest}));
  }

  /** Leastness: any set holding the destination and closed under uncensored core links holds the reach. */
  lemma CoreReachLeast(isd: map<Asn, seq<Asn>>, dest: Asn, censors: set<Asn>, z: set<Asn>)
    requires dest in z
    requires forall a, b :: a in z && a !in censors && b in Load.CoresOf(isd, a) && b !in censors ==> b in z
    ensures CoreReach(isd, dest, censors) <= z
  {
    if dest in isd && dest !in censors {
      ClosureLeast(CoreGraph(isd, censors), {dest}, z);
    }
  }

  /** `cores_within_reach`: the search itself. */
  method CoresWithinReach(isd: map<Asn, seq<Asn>>, dest: Asn, censors: set<Asn>) returns (reach: set<Asn>)
    ensures reach == CoreReach(isd, dest, censors)
  {
    if dest !in isd || dest in censors {
      return {};
    }
    var visited := Explore(CoreGraph(isd, censors), [dest]);
    assert (set x | x in [dest]) == {dest};
    reach := set x | x in visited;
  }

  /** More censors never let a core reach more. */
  lemma CoreReachMonotone(isd: map<Asn, seq<Asn>>, dest: Asn, c1: set<Asn>, c2: set<Asn>)
    requires c1 <= c2
    ensures CoreReach(isd, dest, c2) <= CoreReach(isd, dest, c1)
  {
    if dest in isd && dest !in c2 {
      ClosureSubgraph(CoreGraph(isd, c2), CoreGraph(isd, c1), {dest});
    }
  }

  // ---------------------------------------------------------------------------
  // Non-core reach
  // ---------------------------------------------------------------------------

  /** The list of the forwarding AS in which the next AS was found. */
  datatype Via = ViaCustomer | ViaProvider | ViaPeer

  const AllVia: set<Via> := {ViaCustomer, ViaProvider, ViaPeer}

  /** An AS together with the relation it was reached by. */
  type State = (Asn, Via)

  /** The members of `s`, each tagged with `v`. */
  function Tag(s: seq<Asn>, v: Via): (r: seq<State>)
    ensures forall x :: x in r <==> x.1 == v && x.0 in s
    decreases |s|
  {
    if |s| == 0 then [] else [(s[0], v)] + Tag(s[1..], v)
  }

  /**
   * `_get_next_visit_rels`: an AS reached as a provider forwards to its
   * customers, providers and peers; reached any other way, only to its
   * customers.
   */
  function Forward(t: Topo, a: Asn, v: Via): (r: seq<State>)
    ensures forall x :: x in r <==>
      || (x.1 == ViaCustomer && x.0 in Customers(t, a))
      || (v == ViaProvider && x.1 == ViaProvider && x.0 in Providers(t, a))
      || (v == ViaProvider && x.1 == ViaPeer && x.0 in Peers(t, a))
  {
    if v == ViaProvider then Tag(Customers(t, a), ViaCustomer) + Tag(Providers(t, a), ViaProvider) + Tag(Peers(t, a), ViaPeer)
    else Tag(Customers(t, a), ViaCustomer)
  }

  /** The search does not enter the destination or a censor. */
  predicate Stops(dest: Asn, censors: set<Asn>, a: Asn) {
    a == dest || a in censors
  }

  function StatesOf(t: Topo): set<State> {
    set a, v | a in t && v in AllVia :: (a, v)
  }

  /** The moves of the search over (AS, arrival relation) states. */
  function StateGraph(t: Topo, dest: Asn, censors: set<Asn>): (g: Graph<State>)
    ensures forall s :: Succ(g, s) == if Stops(dest, censors, s.0) then [] else Forward(t, s.0, s.1)
  {
    map s | s in StatesOf(t) :: if Stops(dest, censors, s.0) then [] else Forward(t, s.0, s.1)
  }

  /** The destination starts the search in all three of its lists, as if reached from a customer. */
  function Starts(t: Topo, dest: Asn): seq<State> {
    Forward(t, dest, ViaProvider)
  }

  /** The states the search marks: every state it reaches that does not stop it. */
  function Marked(t: Topo, dest: Asn, censors: set<Asn>): set<State> {
    set s | s in Closure(StateGraph(t, dest, censors), set x | x in Starts(t, dest)) && !Stops(dest, censors, s.0)
  }

  /**
   * What `non_cores_within_reach` returns: the ASes of marked states that are
   * not cores; nothing when the destination has no entry.
   */
  function NonCoreReach(cores: set<Asn>, t: Topo, dest: Asn, censors: set<Asn>): (r: set<Asn>)
    ensures forall a :: a in r ==> a != dest && a !in censors && a !in cores
  {
    if dest in t then set s | s in Marked(t, dest, censors) && s.0 !in cores :: s.0 else {}
  }

  /**
   * The forwarding rule: a marked state passes the search on to every state
   * its relation allows, unless that one stops it.
   */
  lemma Forwarding(t: Topo, dest: Asn, censors: set<Asn>, s: State, x: State)
    requires s in Marked(t, dest, censors)
    requires x in Forward(t, s.0, s.1) && !Stops(dest, censors, x.0)
    ensures x in Marked(t, dest, censors)
  {
    assert x in Succ(StateGraph(t, dest, censors), s);
  }

  /** `non_cores_within_reach`: the search itself. */
  method NonCoresWithinReach(cores: set<Asn>, t: Topo, dest: Asn, censors: set<Asn>) returns (reach: set<Asn>)
    ensures reach == NonCoreReach(cores, t, dest, censors)
  {
    if dest !in t {
      return {};
    }
    var visited := Explore(StateGraph(t, dest, censors), Starts(t, dest));
    ghost var marked := Marked(t, dest, censors);
    assert forall s :: s in marked <==> s in visited && !Stops(dest, censors, s.0);
    reach := set s | s in visited && !Stops(dest, censors, s.0) && s.0 !in cores :: s.0;
    assert reach == set s | s in marked && s.0 !in cores :: s.0;
  }

  /** More censors never let a core reach more non-cores. */
  lemma NonCoreReachMonotone(cores: set<Asn>, t: Topo, dest: Asn, c1: set<Asn>, c2: set<Asn>)
    requires c1 <= c2
    ensures NonCoreReach(cores, t, dest, c2) <= NonCoreReach(cores, t, dest, c1)
  {
    var starts := set x | x in Starts(t, dest);
    ClosureSubgraph(StateGraph(t, dest, c2), StateGraph(t, dest, c1), starts);
  }

  // ---------------------------------------------------------------------------
  // Reach from outside the domain
  // ---------------------------------------------------------------------------

  /** `_has_foreign_connection`: some core link of the AS leaves the ISD. */
  predicate ForeignConnected(scion: map<Asn, seq<Asn>>, isdCores: set<Asn>, a: Asn) {
    exists c :: c in Load.CoresOf(scion, a) && c !in isdCores
  }

  function ForeignCores(scion: map<Asn, seq<Asn>>, isd: map<Asn, seq<Asn>>): set<Asn> {
    set a | a in isd && ForeignConnected(scion, isd.Keys, a)
  }

  /**
   * `cores_within_foreign_reach`: the uncensored ISD cores that are
   * foreign-connected or reached from a foreign-connected core.
   */
  function CoresWithinForeignReach(scion: map<Asn, seq<Asn>>, isd: map<Asn, seq<Asn>>, censors: set<Asn>): (r: set<Asn>)
    ensures r <= isd.Keys - censors
  {
    set c | c in isd && c !in censors &&
      exists f :: f in ForeignCores(scion, isd) && (c == f || c in CoreReach(isd, f, censors))
  }

  /** Every uncensored core a search from some core in `S` reaches. */
  lemma ClosureFromEach(g: Graph<Asn>, S: set<Asn>)
    ensures forall x :: x in Closure(g, S) ==> exists f :: f in S && x in Closure(g, {f})
  {
    var z := set x | x in Closure(g, S) && exists f :: f in S && x in Closure(g, {f});
    forall x, y | x in z && y in Succ(g, x)
      ensures y in z
    {
      var f :| f in S && x in Closure(g, {f});
      ClosedStep(g, Closure(g, {f}), x, y);
      ClosedStep(g, Closure(g, S), x, y);
    }
    forall f | f in S
      ensures f in z
    {
      assert f in Closure(g, {f});
    }
    ClosureLeast(g, S, z);
  }

  lemma ClosedStep(g: Graph<Asn>, c: set<Asn>, x: Asn, y: Asn)
    requires ClosedUnder(g, c) && x in c && y in Succ(g, x)
    ensures y in c
  {
  }

  /**
   * The foreign reach of the cores is one search started from all
   * uncensored foreign-connected cores at once.
   */
  lemma CoresWithinForeignReachClosure(scion: map<Asn, seq<Asn>>, isd: map<Asn, seq<Asn>>, censors: set<Asn>)
    ensures CoresWithinForeignReach(scion, isd, censors)
         == Closure(CoreGraph(isd, censors), ForeignCores(scion, isd) - censors) * isd.Keys
  {
    var g := CoreGraph(isd, censors);
    var fu := ForeignCores(scion, isd) - censors;
    var r := CoresWithinForeignReach(scion, isd, censors);
    forall c | c in r
      ensures c in Closure(g, fu)
    {
      var f :| f in ForeignCores(scion, isd) && (c == f || c in CoreReach(isd, f, censors));
      if c != f {
        ClosureMonotone(g, {f}, fu);
      }
    }
    ClosureFromEach(g, fu);
    forall c | c in Closure(g, fu) * isd.Keys
      ensures c in r
    {
      var f :| f in fu && c in Closure(g, {f});
      assert c in CoreReach(isd, f, censors);
    }
  }

  /**
   * `non_cores_within_foreign_reach`: the non-cores reached from the cores
   * that the foreign reach includes (the source repeats the same test).
   */
  function NonCoresWithinForeignReach(scion: map<Asn, seq<Asn>>, isd: map<Asn, seq<Asn>>, nonCore: Topo, censors: set<Asn>)
    : (r: set<Asn>)
    ensures forall a :: a in r ==> a !in isd && a !in censors
  {
    set a, c | c in CoresWithinForeignReach(scion, isd, censors) && a in NonCoreReach(isd.Keys, nonCore, c, censors) :: a
  }

  /** `nodes_within_foreign_reach`: both together. */
  function NodesWithinForeignReach(scion: map<Asn, seq<Asn>>, isd: map<Asn, seq<Asn>>, nonCore: Topo, censors: set<Asn>)
    : (r: set<Asn>)
    ensures forall a :: a in r ==> a !in censors
    ensures forall a :: a in r && a in isd <==> a in CoresWithinForeignReach(scion, isd, censors)
  {
    NonCoresWithinForeignReach(scion, isd, nonCore, censors) + CoresWithinForeignReach(scion, isd, censors)
  }

  /** More censors never let the domain reach more from outside. */
  lemma ForeignReachMonotone(scion: map<Asn, seq<Asn>>, isd: map<Asn, seq<Asn>>, nonCore: Topo, c1: set<Asn>, c2: set<Asn>)
    requires c1 <= c2
    ensures CoresWithinForeignReach(scion, isd, c2) <= CoresWithinForeignReach(scion, isd, c1)
    ensures NodesWithinForeignReach(scion, isd, nonCore, c2) <= NodesWithinForeignReach(scion, isd, nonCore, c1)
  {
    var r1, r2 := CoresWithinForeignReach(scion, isd, c1), CoresWithinForeignReach(scion, isd, c2);
    forall c | c in r2
      ensures c in r1
    {
      var f :| f in ForeignCores(scion, isd) && (c == f || c in CoreReach(isd, f, c2));
      CoreReachMonotone(isd, f, c1, c2);
    }
    forall a | a in NonCoresWithinForeignReach(scion, isd, nonCore, c2)
      ensures a in NonCoresWithinForeignReach(scion, isd, nonCore, c1)
    {
      var c :| c in r2 && a in NonCoreReach(isd.Keys, nonCore, c, c2);
      NonCoreReachMonotone(isd.Keys, nonCore, c, c1, c2);
    }
  }

  // ---------------------------------------------------------------------------
  // Core components without hegemons
  // ---------------------------------------------------------------------------

  /**
   * The core links a component search follows: from an AS that is neither of
   * hegemon origin nor already visited, to another such AS.
   */
  function AvoidGraph(core: map<Asn, seq<Asn>>, hegs: set<Asn>, visited: set<Asn>): (g: Graph<Asn>)
    ensures forall a, b :: b in Succ(g, a) <==>
      a !in hegs && a !in visited && b !in hegs && b !in visited && b in Load.CoresOf(core, a)
  {
    var g := map a | a in core && a !in hegs && a !in visited :: Filter(core[a], NotIn(hegs + visited));
    assert forall a :: Succ(g, a) == if a in core && a !in hegs && a !in visited then Filter(core[a], NotIn(hegs + visited)) else [];
    g
  }

  /** The core graph without the ASes of hegemon origin. */
  function HegFree(core: map<Asn, seq<Asn>>, hegs: set<Asn>): Graph<Asn> {
    AvoidGraph(core, hegs, {})
  }

  /**
   * The components found so far: non-empty, duplicate-free, free of
   * hegemons, pairwise disjoint, and together exactly `visited`.
   */
  ghost predicate Partitioned(comps: seq<seq<Asn>>, visited: set<Asn>, hegs: set<Asn>) {
    && (forall i :: 0 <= i < |comps| ==> |comps[i]| > 0 && Distinct(comps[i]))
    && (forall i, x :: 0 <= i < |comps| && x in comps[i] ==> x in visited && x !in hegs)
    && (forall x :: x in visited ==> exists i :: 0 <= i < |comps| && x in comps[i])
    && (forall i, j, x :: 0 <= i < j < |comps| && x in comps[i] ==> x !in comps[j])
  }

  lemma PartitionGrow(comps: seq<seq<Asn>>, visited: set<Asn>, hegs: set<Asn>, comp: seq<Asn>)
    requires Partitioned(comps, visited, hegs)
    requires |comp| > 0 && Distinct(comp)
    requires forall x :: x in comp ==> x !in visited && x !in hegs
    ensures Partitioned(comps + [comp], visited + (set x | x in comp), hegs)
  {
    var c2 := comps + [comp];
    assert forall i :: 0 <= i < |comps| ==> c2[i] == comps[i];
    forall x | x in visited || x in comp
      ensures exists i :: 0 <= i < |c2| && x in c2[i]
    {
      if x in visited {
        var i :| 0 <= i < |comps| && x in comps[i];
        assert x in c2[i];
      } else {
        assert x in c2[|comps|];
      }
    }
  }

  /**
   * With links recorded on both ends, each component found is a whole
   * connected piece of the hegemon-free core graph: the closure of any of
   * its members.
   */
  ghost predicate Whole(h: Graph<Asn>, comps: seq<seq<Asn>>, visited: set<Asn>) {
    && ClosedUnder(h, visited)
    && forall i, x :: 0 <= i < |comps| && x in comps[i] ==> (set y | y in comps[i]) == Closure(h, {x})
  }

  /** In a symmetric core topology the hegemon-free graph has its links both ways. */
  lemma HegFreeSymmetric(core: map<Asn, seq<Asn>>, hegs: set<Asn>)
    requires Load.CoreSymmetric(core)
    ensures forall x, y :: y in Succ(HegFree(core, hegs), x) ==> x in Succ(HegFree(core, hegs), y)
  {
    forall x, y | y in Succ(HegFree(core, hegs), x)
      ensures x in Succ(HegFree(core, hegs), y)
    {
      assert Occurrences(Load.CoresOf(core, y), x) == Occurrences(Load.CoresOf(core, x), y) > 0;
    }
  }

  /**
   * A search from an unvisited AS that avoids the visited ones finds its
   * whole closure, when what was visited is closed and links go both ways.
   */
  lemma AvoidFindsWhole(core: map<Asn, seq<Asn>>, hegs: set<Asn>, visited: set<Asn>, s: Asn)
    requires Load.CoreSymmetric(core)
    requires ClosedUnder(HegFree(core, hegs), visited)
    requires s !in visited && s !in hegs
    ensures Closure(AvoidGraph(core, hegs, visited), {s}) == Closure(HegFree(core, hegs), {s})
    ensures Closure(HegFree(core, hegs), {s}) !! visited
  {
    var h := HegFree(core, hegs);
    var a := AvoidGraph(core, hegs, visited);
    var ch := Closure(h, {s});
    var ca := Closure(a, {s});
    HegFreeSymmetric(core, hegs);
    WholeAvoidsVisited(h, visited, s);
    ClosureSubgraph(a, h, {s});
    forall x, y | x in ca && y in Succ(h, x)
      ensures y in ca
    {
      ClosedStep(h, ch, x, y);
      AvoidStep(core, hegs, visited, x, y);
      ClosedStep(a, ca, x, y);
    }
    ClosureLeast(h, {s}, ca);
  }

  /** A hegemon-free link between unvisited ASes is a link of the avoiding graph. */
  lemma AvoidStep(core: map<Asn, seq<Asn>>, hegs: set<Asn>, visited: set<Asn>, x: Asn, y: Asn)
    requires y in Succ(HegFree(core, hegs), x) && x !in visited && y !in visited
    ensures y in Succ(AvoidGraph(core, hegs, visited), x)
  {
  }

  /** In a graph with links both ways, a closed set holds all or none of a closure. */
  lemma WholeAvoidsVisited(h: Graph<Asn>, visited: set<Asn>, s: Asn)
    requires forall x, y :: y in Succ(h, x) ==> x in Succ(h, y)
    requires ClosedUnder(h, visited) && s !in visited
    ensures Closure(h, {s}) !! visited
  {
    forall y | y in Closure(h, {s}) && y in visited
      ensures false
    {
      ClosureSymmetric(h, s, y);
      ClosureLeast(h, {y}, visited);
    }
  }

  lemma WholeGrow(core: map<Asn, seq<Asn>>, hegs: set<Asn>, comps: seq<seq<Asn>>, visited: set<Asn>, s: Asn, comp: seq<Asn>)
    requires Load.CoreSymmetric(core)
    requires Whole(HegFree(core, hegs), comps, visited)
    requires s !in visited && s !in hegs
    requires forall x :: x in comp <==> x in Closure(AvoidGraph(core, hegs, visited), {s})
    ensures Whole(HegFree(core, hegs), comps + [comp], visited + (set x | x in comp))
  {
    var h := HegFree(core, hegs);
    AvoidFindsWhole(core, hegs, visited, s);
    HegFreeSymmetric(core, hegs);
    var c2 := comps + [comp];
    assert (set y | y in comp) == Closure(h, {s});
    forall i, x | 0 <= i < |c2| && x in c2[i]
      ensures (set y | y in c2[i]) == Closure(h, {x})
    {
      if i == |comps| {
        ClosureSymmetric(h, s, x);
      } else {
        assert c2[i] == comps[i];
      }
    }
    forall x, y | x in visited + (set x | x in comp) && y in Succ(h, x)
      ensures y in visited + (set x | x in comp)
    {
      if x in visited {
        ClosedStep(h, visited, x, y);
      } else {
        ClosedStep(h, Closure(h, {s}), x, y);
      }
    }
  }

  function Length(c: seq<Asn>): int {
    |c|
  }

  /**
   * `graph_components_wo_hegs`: a breadth-first search from every AS of the
   * core topology, in key order, that is not of hegemon origin and not yet
   * in a component; the search skips hegemon-origin and visited ASes. The
   * components are then sorted largest first; the comparison of the source
   * only ever says "larger comes first", so the sort is stable.
   *
   * `hegs` is the set of core ASes the origin test excludes, taken as given.
   * The source's local `_country_origin` returns the whole label list
   * `as_info[asn]` rather than its first code, so comparing it with a list
   * of country strings never matches and comparing it with a set of them
   * raises TypeError; neither reading is modelled.
   */
  method GraphComponentsWoHegs(core: Load.CoreState, hegs: set<Asn>) returns (comps: seq<seq<Asn>>)
    ensures Partitioned(comps, set i, x | 0 <= i < |comps| && x in comps[i] :: x, hegs)
    ensures forall a :: a in core.order && a !in hegs ==> exists i :: 0 <= i < |comps| && a in comps[i]
    ensures forall i, j :: 0 <= i < j < |comps| ==> |comps[i]| >= |comps[j]|
    ensures Load.CoreSymmetric(core.cores) ==>
      forall i, x :: 0 <= i < |comps| && x in comps[i] ==> (forall y :: y in comps[i] <==> y in Closure(HegFree(core.cores, hegs), {x}))
  {
    var visited: set<Asn> := {};
    var raw: seq<seq<Asn>> := [];
    ghost var h := HegFree(core.cores, hegs);
    for k := 0 to |core.order|
      invariant Partitioned(raw, visited, hegs)
      invariant forall i :: 0 <= i < k && core.order[i] !in hegs ==> core.order[i] in visited
      invariant Load.CoreSymmetric(core.cores) ==> Whole(h, raw, visited)
    {
      var s := core.order[k];
      if s !in hegs && s !in visited {
        var g := AvoidGraph(core.cores, hegs, visited);
        var comp := Explore(g, [s]);
        assert (set x | x in [s]) == {s};
        forall x | x in comp
          ensures x !in visited && x !in hegs
        {
          AvoidTargets(core.cores, hegs, visited, s, x);
        }
        PartitionGrow(raw, visited, hegs, comp);
        if Load.CoreSymmetric(core.cores) {
          WholeGrow(core.cores, hegs, raw, visited, s, comp);
        }
        raw := raw + [comp];
        visited := visited + set x | x in comp;
      }
    }
    comps := SortBy(raw, Length, true);
    SortedPartition(raw, comps, visited, hegs);
    assert forall i, j :: 0 <= i < j < |comps| ==> InOrder(true, Length(comps[i]), Length(comps[j]));
    if Load.CoreSymmetric(core.cores) {
      forall i, x | 0 <= i < |comps| && x in comps[i]
        ensures forall y :: y in comps[i] <==> y in Closure(h, {x})
      {
        assert comps[i] in multiset(raw);
        var p :| 0 <= p < |raw| && raw[p] == comps[i];
        assert (set y | y in raw[p]) == Closure(h, {x});
      }
    }
  }

  /** What a search over the avoiding graph finds avoids the visited and the hegemons. */
  lemma AvoidTargets(core: map<Asn, seq<Asn>>, hegs: set<Asn>, visited: set<Asn>, s: Asn, x: Asn)
    requires s !in visited && s !in hegs
    requires x in Closure(AvoidGraph(core, hegs, visited), {s})
    ensures x !in visited && x !in hegs
  {
    var g := AvoidGraph(core, hegs, visited);
    if x != s {
      assert x in Targets(g);
      var a :| a in g && x in g[a];
      assert x in Succ(g, a);
    }
  }

  /** Sorting the components keeps them a partition of the same ASes. */
  lemma SortedPartition(raw: seq<seq<Asn>>, comps: seq<seq<Asn>>, visited: set<Asn>, hegs: set<Asn>)
    requires Partitioned(raw, visited, hegs)
    requires multiset(comps) == multiset(raw)
    ensures Partitioned(comps, visited, hegs)
    ensures visited == set i, x | 0 <= i < |comps| && x in comps[i] :: x
  {
    assert Distinct(raw) by {
      forall i, j | 0 <= i < j < |raw|
        ensures raw[i] != raw[j]
      {
        assert raw[i][0] in raw[i];
      }
    }
    PermutationDistinct(raw, comps);
    forall i | 0 <= i < |comps|
      ensures exists p :: 0 <= p < |raw| && raw[p] == comps[i]
    {
      assert comps[i] in multiset(raw);
    }
    forall i, j, x | 0 <= i < j < |comps| && x in comps[i]
      ensures x !in comps[j]
    {
      var p :| 0 <= p < |raw| && raw[p] == comps[i];
      var q :| 0 <= q < |raw| && raw[q] == comps[j];
      assert p != q;
    }
    forall x | x in visited
      ensures exists i :: 0 <= i < |comps| && x in comps[i]
    {
      var p :| 0 <= p < |raw| && x in raw[p];
      assert raw[p] in multiset(comps);
      var i :| 0 <= i < |comps| && comps[i] == raw[p];
    }
  }
}
