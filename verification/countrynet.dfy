/**
 * The country partitioner of source/simulation/bgp/countrynet.py. The ASes
 * of one country split into islands: maximal sets connected through
 * in-country provider, customer and peer links. The mainland is the largest
 * island (the first one met, in topology key order, among the largest), and
 * its border ASes are those with a link leaving it.
 */
module CountryNet {
  import opened Wrappers
  import opened Utils
  import opened Topology
  import opened Reach

  /** The country origin of an AS: one code, or a list of codes (multiple origin). */
  datatype Label = Code(code: string) | Codes(codes: seq<string>)

  type CountryMap = map<Asn, Label>

  /** `as_country_map[asn]` on the `defaultdict(list)` the AS-info loader returns. */
  function LabelOf(m: CountryMap, a: Asn): Label {
    if a in m then m[a] else Codes([])
  }

  /** `in_country`: membership for a list label, equality for a single code. */
  predicate InCountry(m: CountryMap, country: string, a: Asn) {
    match LabelOf(m, a)
    case Codes(cs) => country in cs
    case Code(c) => c == country
  }

  /** The set of countries a label names. */
  function Countries(l: Label): set<string> {
    match l
    case Code(c) => {c}
    case Codes(cs) => set c | c in cs
  }

  /** An AS belongs to exactly the countries its label names; an unlabelled AS to none. */
  lemma InCountryCountries(m: CountryMap, country: string, a: Asn)
    ensures InCountry(m, country, a) <==> country in Countries(LabelOf(m, a))
    ensures a !in m ==> !InCountry(m, country, a)
  {
  }

  /** A link between two in-country ASes, seen from the first, which is a key of the topology. */
  predicate CountryLink(t: Topo, m: CountryMap, country: string, a: Asn, b: Asn) {
    a in t && InCountry(m, country, a) && b in Neighbours(t, a) && InCountry(m, country, b)
  }

  /**
   * The edges the island search follows: from an in-country AS to each of
   * its in-country providers, customers and peers.
   */
  function CountryGraph(t: Topo, m: CountryMap, country: string): (g: Graph<Asn>)
    ensures forall a :: a in g <==> a in t && InCountry(m, country, a)
    ensures forall a, b :: b in Succ(g, a) <==> CountryLink(t, m, country, a, b)
  {
    var g := map a | a in t && InCountry(m, country, a) :: InCountryNeighbours(t, m, country, a);
    assert forall a, b :: b in Succ(g, a) <==> CountryLink(t, m, country, a, b) by {
      forall a, b
        ensures b in Succ(g, a) <==> CountryLink(t, m, country, a, b)
      {
        if a in g {
          assert Succ(g, a) == InCountryNeighbours(t, m, country, a);
        }
      }
    }
    g
  }

  function InCountryNeighbours(t: Topo, m: CountryMap, country: string, a: Asn): (r: seq<Asn>)
    ensures forall b :: b in r <==> b in Neighbours(t, a) && InCountry(m, country, b)
  {
    Filter(Neighbours(t, a), b => InCountry(m, country, b))
  }

  /** `_get_island(start_asn)` as a set: everything in-country links reach from the start. */
  function Island(g: Graph<Asn>, s: Asn): set<Asn> {
    Closure(g, {s})
  }

  /**
   * `_get_island`: the breadth-first search itself, whose list holds each AS
   * of the island once, so that its length is the island's size.
   */
  method GetIsland(g: Graph<Asn>, s: Asn) returns (island: seq<Asn>)
    ensures Distinct(island)
    ensures forall a :: a in island <==> a in Island(g, s)
    ensures |island| == |Island(g, s)|
  {
    island := Explore(g, [s]);
    assert (set x | x in [s]) == {s};
    assert (set x | x in island) == Island(g, s);
    DistinctCard(island);
  }

  /** `_get_country_asns`: the in-country ASes in topology key order. */
  function CountryAsns(order: seq<Asn>, m: CountryMap, country: string): (r: seq<Asn>)
    ensures forall a :: a in r <==> a in order && InCountry(m, country, a)
  {
    Filter(order, a => InCountry(m, country, a))
  }

  /**
   * `_get_islands`: each AS not yet covered starts a new island; the pairs
   * are (start AS, island size).
   */
  function Islands(g: Graph<Asn>, asns: seq<Asn>, visited: set<Asn>): (r: Dict<Asn, int>)
    ensures forall i :: 0 <= i < |r| ==> r[i].0 in asns && r[i].0 !in visited && r[i].1 == |Island(g, r[i].0)|
    decreases |asns|
  {
    if |asns| == 0 then []
    else if asns[0] in visited then Islands(g, asns[1..], visited)
    else [(asns[0], |Island(g, asns[0])|)] + Islands(g, asns[1..], visited + Island(g, asns[0]))
  }

  /** `_get_country_islands`: the islands, largest first; equal sizes keep their order. */
  function CountryIslands(t: Topo, order: seq<Asn>, m: CountryMap, country: string): Dict<Asn, int> {
    SortDict(Islands(CountryGraph(t, m, country), CountryAsns(order, m, country), {}), true)
  }

  /** `get_mainland`: the island of the first start in the ranking; no in-country AS is an IndexError. */
  function GetMainland(t: Topo, order: seq<Asn>, m: CountryMap, country: string): (r: Result<set<Asn>>)
    ensures r.Ok? ==> forall a :: a in r.value ==> InCountry(m, country, a)
    ensures r.Ok? ==> ClosedUnder(CountryGraph(t, m, country), r.value)
  {
    var islands := CountryIslands(t, order, m, country);
    if |islands| == 0 then Err(TooFewRanked)
    else
      var g := CountryGraph(t, m, country);
      var s := islands[0].0;
      assert islands[0] in multiset(Islands(g, CountryAsns(order, m, country), {}));
      IslandInCountry(t, m, country, s);
      Ok(Island(g, s))
  }

  /** An island started from an in-country AS is in-country throughout. */
  lemma IslandInCountry(t: Topo, m: CountryMap, country: string, s: Asn)
    requires InCountry(m, country, s)
    ensures forall a :: a in Island(CountryGraph(t, m, country), s) ==> InCountry(m, country, a)
  {
    var g := CountryGraph(t, m, country);
    var z := set a | a in Island(g, s) && InCountry(m, country, a);
    assert ClosedUnder(g, z);
    ClosureLeast(g, {s}, z);
  }

  /** With a closed topology every island lies inside the topology. */
  lemma IslandInTopology(t: Topo, m: CountryMap, country: string, s: Asn)
    requires Closed(t) && s in t
    ensures Island(CountryGraph(t, m, country), s) <= t.Keys
  {
    var g := CountryGraph(t, m, country);
    var z := Island(g, s) * t.Keys;
    assert ClosedUnder(g, z);
    ClosureLeast(g, {s}, z);
  }

  // ---------------------------------------------------------------------------
  // The islands partition the country
  // ---------------------------------------------------------------------------

  /** Every edge can be walked back. */
  ghost predicate Undirected(g: Graph<Asn>) {
    forall x, y :: y in Succ(g, x) ==> x in Succ(g, y)
  }

  /** A loaded topology gives an undirected country graph. */
  lemma CountryGraphUndirected(t: Topo, m: CountryMap, country: string)
    requires Symmetric(t) && Closed(t)
    ensures Undirected(CountryGraph(t, m, country))
  {
    var g := CountryGraph(t, m, country);
    forall x, y | y in Succ(g, x)
      ensures x in Succ(g, y)
    {
      NeighbourSymmetric(t, x, y);
    }
  }

  /** `visited` is a union of whole islands. */
  ghost predicate UnionOfIslands(g: Graph<Asn>, visited: set<Asn>) {
    forall x :: x in visited ==> Island(g, x) <= visited
  }

  /** In an undirected graph two islands are equal or disjoint. */
  lemma IslandsMeet(g: Graph<Asn>, a: Asn, b: Asn, x: Asn)
    requires Undirected(g)
    requires x in Island(g, a) && x in Island(g, b)
    ensures Island(g, a) == Island(g, b)
  {
    ClosureSymmetric(g, a, x);
    ClosureSymmetric(g, b, x);
  }

  /** Each island of `r` misses `visited`. */
  ghost predicate AvoidsVisited(g: Graph<Asn>, r: Dict<Asn, int>, visited: set<Asn>) {
    forall i :: 0 <= i < |r| ==> Island(g, r[i].0) !! visited
  }

  ghost predicate PairwiseDisjoint(g: Graph<Asn>, r: Dict<Asn, int>) {
    forall i, j :: 0 <= i < j < |r| ==> Island(g, r[i].0) !! Island(g, r[j].0)
  }

  /** A new start's island misses the islands already covered, and covering it keeps `visited` a union of islands. */
  lemma NewIsland(g: Graph<Asn>, visited: set<Asn>, a: Asn)
    requires Undirected(g) && UnionOfIslands(g, visited) && a !in visited
    ensures Island(g, a) !! visited
    ensures UnionOfIslands(g, visited + Island(g, a))
  {
    var c := Island(g, a);
    forall x | x in c
      ensures x !in visited && Island(g, x) <= visited + c
    {
      assert x in Island(g, x);
      IslandsMeet(g, a, x, x);
    }
  }

  lemma {:induction false} IslandsDisjoint(g: Graph<Asn>, asns: seq<Asn>, visited: set<Asn>)
    requires Undirected(g) && UnionOfIslands(g, visited)
    ensures AvoidsVisited(g, Islands(g, asns, visited), visited)
    ensures PairwiseDisjoint(g, Islands(g, asns, visited))
    decreases |asns|
  {
    if |asns| > 0 {
      var a := asns[0];
      if a in visited {
        IslandsDisjoint(g, asns[1..], visited);
      } else {
        var c := Island(g, a);
        NewIsland(g, visited, a);
        IslandsDisjoint(g, asns[1..], visited + c);
        DisjointCons(g, (a, |c|), Islands(g, asns[1..], visited + c), visited);
      }
    }
  }

  lemma DisjointCons(g: Graph<Asn>, x: (Asn, int), rest: Dict<Asn, int>, visited: set<Asn>)
    requires Island(g, x.0) !! visited
    requires AvoidsVisited(g, rest, visited + Island(g, x.0)) && PairwiseDisjoint(g, rest)
    ensures AvoidsVisited(g, [x] + rest, visited) && PairwiseDisjoint(g, [x] + rest)
  {
    var r := [x] + rest;
    forall i | 0 <= i < |r|
      ensures Island(g, r[i].0) !! visited
    {
      if i > 0 { assert r[i] == rest[i - 1]; }
    }
    forall i, j | 0 <= i < j < |r|
      ensures Island(g, r[i].0) !! Island(g, r[j].0)
    {
      assert r[j] == rest[j - 1];
      if i > 0 { assert r[i] == rest[i - 1]; }
    }
  }

  /** `a` lies in one of the islands of `r`. */
  ghost predicate Covered(g: Graph<Asn>, r: Dict<Asn, int>, a: Asn) {
    exists i :: 0 <= i < |r| && a in Island(g, r[i].0)
  }

  /** Covered in the tail means covered in the whole. */
  lemma CoveredCons(g: Graph<Asn>, x: (Asn, int), rest: Dict<Asn, int>, a: Asn)
    requires Covered(g, rest, a) || a in Island(g, x.0)
    ensures Covered(g, [x] + rest, a)
  {
    var r := [x] + rest;
    if a in Island(g, x.0) {
      assert r[0] == x;
    } else {
      var i :| 0 <= i < |rest| && a in Island(g, rest[i].0);
      assert r[i + 1] == rest[i];
    }
  }

  lemma {:induction false} IslandsCover(g: Graph<Asn>, asns: seq<Asn>, visited: set<Asn>, a: Asn)
    requires a in asns
    ensures a in visited || Covered(g, Islands(g, asns, visited), a)
    decreases |asns|
  {
    var b := asns[0];
    if b in visited {
      if a != b {
        assert a in asns[1..];
        IslandsCover(g, asns[1..], visited, a);
      }
    } else {
      var c := Island(g, b);
      var rest := Islands(g, asns[1..], visited + c);
      assert b in c;
      if a !in visited {
        if a !in c {
          assert a in asns[1..];
          IslandsCover(g, asns[1..], visited + c, a);
        }
        CoveredCons(g, (b, |c|), rest, a);
      }
    }
  }

  /** The islands in the order they were found: disjoint, with distinct starts. */
  lemma RawIslands(t: Topo, order: seq<Asn>, m: CountryMap, country: string)
    requires Symmetric(t) && Closed(t)
    ensures var g := CountryGraph(t, m, country);
      var raw := Islands(g, CountryAsns(order, m, country), {});
      && Distinct(raw)
      && (forall p, q :: 0 <= p < |raw| && 0 <= q < |raw| && p != q ==> Island(g, raw[p].0) !! Island(g, raw[q].0))
  {
    var g := CountryGraph(t, m, country);
    var raw := Islands(g, CountryAsns(order, m, country), {});
    CountryGraphUndirected(t, m, country);
    IslandsDisjoint(g, CountryAsns(order, m, country), {});
    forall p, q | 0 <= p < q < |raw|
      ensures raw[p] != raw[q]
    {
      assert raw[p].0 in Island(g, raw[p].0);
      assert raw[q].0 in Island(g, raw[q].0);
    }
    forall p, q | 0 <= p < |raw| && 0 <= q < |raw| && p != q
      ensures Island(g, raw[p].0) !! Island(g, raw[q].0)
    {
      if p > q { assert Island(g, raw[q].0) !! Island(g, raw[p].0); }
    }
  }

  /** Re-ordering the islands keeps them pairwise disjoint. */
  lemma SortedPairwise(g: Graph<Asn>, raw: Dict<Asn, int>, isl: Dict<Asn, int>)
    requires multiset(isl) == multiset(raw) && Distinct(raw)
    requires forall p, q :: 0 <= p < |raw| && 0 <= q < |raw| && p != q ==> Island(g, raw[p].0) !! Island(g, raw[q].0)
    ensures forall i, j :: 0 <= i < |isl| && 0 <= j < |isl| && i != j ==> Island(g, isl[i].0) !! Island(g, isl[j].0)
  {
    PermutationDistinct(raw, isl);
    forall i, j | 0 <= i < |isl| && 0 <= j < |isl| && i != j
      ensures Island(g, isl[i].0) !! Island(g, isl[j].0)
    {
      assert isl[i] in multiset(raw) && isl[j] in multiset(raw);
      var p :| 0 <= p < |raw| && raw[p] == isl[i];
      var q :| 0 <= q < |raw| && raw[q] == isl[j];
    }
  }

  /** Re-ordering the islands covers the same ASes. */
  lemma SortedCovered(g: Graph<Asn>, raw: Dict<Asn, int>, isl: Dict<Asn, int>, a: Asn)
    requires multiset(isl) == multiset(raw) && Covered(g, raw, a)
    ensures Covered(g, isl, a)
  {
    var k :| 0 <= k < |raw| && a in Island(g, raw[k].0);
    assert raw[k] in multiset(isl);
    var i :| 0 <= i < |isl| && isl[i] == raw[k];
  }

  /** Every island found lies in the country and, for a closed topology, in the topology. */
  lemma IslandsInside(t: Topo, order: seq<Asn>, m: CountryMap, country: string, a: Asn)
    requires Closed(t) && Enumerates(order, t)
    requires Covered(CountryGraph(t, m, country), Islands(CountryGraph(t, m, country), CountryAsns(order, m, country), {}), a)
    ensures a in t && InCountry(m, country, a)
  {
    var g := CountryGraph(t, m, country);
    var asns := CountryAsns(order, m, country);
    var raw := Islands(g, asns, {});
    assert Covered(g, raw, a);
    var k :| 0 <= k < |raw| && a in Island(g, raw[k].0);
    var s := raw[k].0;
    assert s in asns;
    assert s in t && InCountry(m, country, s);
    IslandInCountry(t, m, country, s);
    IslandInTopology(t, m, country, s);
  }

  /**
   * The islands partition the country: every in-country AS of the topology
   * lies in exactly one island, and the islands hold nothing else.
   */
  lemma IslandsPartition(t: Topo, order: seq<Asn>, m: CountryMap, country: string)
    requires Symmetric(t) && Closed(t) && Enumerates(order, t)
    ensures forall a :: a in t && InCountry(m, country, a) <==>
      Covered(CountryGraph(t, m, country), CountryIslands(t, order, m, country), a)
    ensures var g := CountryGraph(t, m, country);
      var isl := CountryIslands(t, order, m, country);
      forall i, j :: 0 <= i < |isl| && 0 <= j < |isl| && i != j ==> Island(g, isl[i].0) !! Island(g, isl[j].0)
  {
    var g := CountryGraph(t, m, country);
    var asns := CountryAsns(order, m, country);
    var raw := Islands(g, asns, {});
    var isl := CountryIslands(t, order, m, country);
    assert multiset(isl) == multiset(raw);
    RawIslands(t, order, m, country);
    SortedPairwise(g, raw, isl);
    forall a | a in t && InCountry(m, country, a)
      ensures Covered(g, isl, a)
    {
      IslandsCover(g, asns, {}, a);
      SortedCovered(g, raw, isl, a);
    }
    forall a | Covered(g, isl, a)
      ensures a in t && InCountry(m, country, a)
    {
      SortedCovered(g, isl, raw, a);
      IslandsInside(t, order, m, country, a);
    }
  }

  /** Each ranked pair carries the size of its island. */
  lemma SortedSizes(g: Graph<Asn>, raw: Dict<Asn, int>, isl: Dict<Asn, int>)
    requires multiset(isl) == multiset(raw)
    requires forall p :: 0 <= p < |raw| ==> raw[p].1 == |Island(g, raw[p].0)|
    ensures forall i :: 0 <= i < |isl| ==> isl[i].1 == |Island(g, isl[i].0)|
  {
    forall i | 0 <= i < |isl|
      ensures isl[i].1 == |Island(g, isl[i].0)|
    {
      assert isl[i] in multiset(raw);
    }
  }

  /** The mainland is at least as large as any island of the country. */
  lemma MainlandLargest(t: Topo, order: seq<Asn>, m: CountryMap, country: string, a: Asn)
    requires Symmetric(t) && Closed(t) && Enumerates(order, t)
    requires a in t && InCountry(m, country, a)
    ensures GetMainland(t, order, m, country).Ok?
    ensures |Island(CountryGraph(t, m, country), a)| <= |GetMainland(t, order, m, country).value|
  {
    var g := CountryGraph(t, m, country);
    var asns := CountryAsns(order, m, country);
    var raw := Islands(g, asns, {});
    var isl := CountryIslands(t, order, m, country);
    assert multiset(isl) == multiset(raw);
    CountryGraphUndirected(t, m, country);
    IslandsCover(g, asns, {}, a);
    SortedCovered(g, raw, isl, a);
    SortedSizes(g, raw, isl);
    var i :| 0 <= i < |isl| && a in Island(g, isl[i].0);
    assert a in Island(g, a);
    IslandsMeet(g, a, isl[i].0, a);
    assert i == 0 || InOrder(true, isl[0].1, isl[i].1);
    assert GetMainland(t, order, m, country) == Ok(Island(g, isl[0].0));
  }

  /** Without any in-country AS there is no island to rank, and `get_mainland` fails. */
  lemma MainlandNeedsCountry(t: Topo, order: seq<Asn>, m: CountryMap, country: string)
    requires Enumerates(order, t)
    ensures GetMainland(t, order, m, country).Err? <==> forall a :: a in t ==> !InCountry(m, country, a)
  {
    var g := CountryGraph(t, m, country);
    var asns := CountryAsns(order, m, country);
    if |asns| > 0 {
      IslandsCover(g, asns, {}, asns[0]);
    }
  }

  // ---------------------------------------------------------------------------
  // get_border_ases
  // ---------------------------------------------------------------------------

  /** The scan with `break`: does any connection lie outside the mainland? */
  function LeavesMainland(conns: seq<Asn>, mainland: set<Asn>): (r: bool)
    ensures r <==> exists b :: b in conns && b !in mainland
  {
    if |conns| == 0 then false
    else if conns[0] !in mainland then true
    else
      assert forall b :: b in conns[1..] ==> b in conns;
      assert forall b :: b in conns && b != conns[0] ==> b in conns[1..];
      LeavesMainland(conns[1..], mainland)
  }

  /**
   * `get_border_ases`. The source walks the mainland set; `ms` is that walk,
   * each mainland AS once, and the result keeps its order.
   */
  function GetBorderAses(t: Topo, mainland: set<Asn>, ms: seq<Asn>): (r: seq<Asn>)
    requires Distinct(ms) && (set a | a in ms) == mainland
    ensures Distinct(r)
    ensures forall a :: a in r <==> a in mainland && exists b :: b in Neighbours(t, a) && b !in mainland
  {
    var r := Filter(ms, a => LeavesMainland(Customers(t, a) + Peers(t, a) + Providers(t, a), mainland));
    FilterDistinct(ms, a => LeavesMainland(Customers(t, a) + Peers(t, a) + Providers(t, a), mainland));
    r
  }
}
