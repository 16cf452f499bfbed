/**
 * Building the SCION topologies out of the AS graph
 * (source/simulation/scion/sciongen.py): picking the core ASes with the
 * largest customer cones, projecting the AS graph onto them, and cutting
 * out one country's isolation domain (ISD) as a core view and a non-core
 * view in which some links are deliberately filed under another relation.
 */
module ScionGen {
  import opened Wrappers
  import opened Utils
  import opened Topology
  import Load
  import CountryNet

  // ---------------------------------------------------------------------------
  // Ranking by customer cone
  // ---------------------------------------------------------------------------

  /** The ASes of `keep`, as a filter. */
  function Among(keep: seq<Asn>): Asn -> bool {
    a => a in keep
  }

  /** Items whose value is `v`, as a filter. */
  function HasValue(v: int): ((Asn, int)) -> bool {
    (item: (Asn, int)) => item.1 == v
  }

  /**
   * In a non-increasing run of values no smaller than `v`, those equal to
   * `v` are its last `Count(s, HasValue(v))` items.
   */
  lemma {:induction false} TieRun(s: Dict<Asn, int>, v: int)
    requires forall i, j :: 0 <= i < j < |s| ==> s[i].1 >= s[j].1
    requires forall i :: 0 <= i < |s| ==> s[i].1 >= v
    ensures forall i :: 0 <= i < |s| ==> (s[i].1 > v <==> i < |s| - Count(s, HasValue(v)))
    decreases |s|
  {
    if |s| > 0 {
      var rest := s[1..];
      assert forall i :: 1 <= i < |s| ==> s[i] == rest[i - 1];
      TieRun(rest, v);
      if s[0].1 == v {
        AllTied(rest, v);
      }
    }
  }

  /** A run whose every value is `v` is counted whole. */
  lemma {:induction false} AllTied(s: Dict<Asn, int>, v: int)
    requires forall i :: 0 <= i < |s| ==> s[i].1 == v
    ensures Count(s, HasValue(v)) == |s|
    decreases |s|
  {
    if |s| > 0 {
      assert forall i :: 1 <= i < |s| ==> s[i] == s[1..][i - 1];
      AllTied(s[1..], v);
    }
  }

  /**
   * `_get_with_highest_cone`: the `n` ASes with the largest customer cones,
   * except that when the `n`-th and the `(n+1)`-th cones are equal every AS
   * tied with them is dropped. Reading position `n` of the ranking fails
   * unless more than `n` ASes are ranked. The cone of an AS is the value of
   * its item (the input has one item per AS). What is chosen is a prefix of
   * the ranking no longer than `n`; `HighestConesRanked` says which one.
   */
  function HighestCones(cones: Dict<Asn, int>, n: nat): (r: Result<seq<Asn>>)
    ensures r.Err? <==> n >= |cones|
    ensures r.Ok? ==> |r.value| <= n && r.value == Keys(SortDict(cones, true))[..|r.value|]
  {
    var ranked := SortDict(cones, true);
    if n >= |ranked| then Err(TooFewRanked)
    else Ok(Keys(ranked)[..TopCount(ranked, n)])
  }

  /** How many of the top `n` items are kept: all, unless the boundary is a tie. */
  function TopCount(ranked: Dict<Asn, int>, n: nat): (c: nat)
    requires n < |ranked|
    ensures c <= n
  {
    if n == 0 then 0
    else
      var deg := ranked[n - 1].1;
      if deg != ranked[n].1 then n
      else n - Count(ranked[..n], HasValue(deg))
  }

  /**
   * The chosen ASes are exactly those ranked above the first AS left out of
   * the top `n`: each has a strictly larger cone, and no other does. When
   * the boundary is not a tie these are exactly the top `n`.
   */
  lemma HighestConesRanked(cones: Dict<Asn, int>, n: nat)
    requires n < |cones|
    ensures var r, ranked := HighestCones(cones, n).value, SortDict(cones, true);
      && (forall i :: 0 <= i < |r| ==> ranked[i].1 > ranked[n].1)
      && (forall i :: |r| <= i < |cones| ==> ranked[i].1 <= ranked[n].1)
      && (n > 0 && ranked[n - 1].1 != ranked[n].1 ==> |r| == n)
  {
    var ranked := SortDict(cones, true);
    assert |HighestCones(cones, n).value| == TopCount(ranked, n);
    TopCountRanked(ranked, n);
  }

  /** The kept count cuts a non-increasing ranking just above the `(n+1)`-th item. */
  lemma TopCountRanked(ranked: Dict<Asn, int>, n: nat)
    requires n < |ranked|
    requires forall i, j :: 0 <= i < j < |ranked| ==> InOrder(true, ranked[i].1, ranked[j].1)
    ensures var c := TopCount(ranked, n);
      && (forall i :: 0 <= i < c ==> ranked[i].1 > ranked[n].1)
      && (forall i :: c <= i < |ranked| ==> ranked[i].1 <= ranked[n].1)
      && (n > 0 && ranked[n - 1].1 != ranked[n].1 ==> c == n)
  {
    assert forall i, j :: 0 <= i < j < |ranked| ==> ranked[i].1 >= ranked[j].1;
    if n > 0 && ranked[n - 1].1 == ranked[n].1 {
      TiedCut(ranked, n);
    }
  }

  /**
   * When the `n`-th and `(n+1)`-th items of a non-increasing ranking tie,
   * dropping the tied ones from the top `n` leaves exactly the items ranked
   * strictly above the `(n+1)`-th.
   */
  lemma TiedCut(ranked: Dict<Asn, int>, n: nat)
    requires 0 < n < |ranked| && ranked[n - 1].1 == ranked[n].1
    requires forall i, j :: 0 <= i < j < |ranked| ==> ranked[i].1 >= ranked[j].1
    ensures var c := n - Count(ranked[..n], HasValue(ranked[n - 1].1));
      && 0 <= c <= n
      && (forall i :: 0 <= i < c ==> ranked[i].1 > ranked[n].1)
      && (forall i :: c <= i < |ranked| ==> ranked[i].1 <= ranked[n].1)
  {
    var deg := ranked[n - 1].1;
    var top := ranked[..n];
    assert forall i :: 0 <= i < n ==> top[i] == ranked[i];
    TieRun(top, deg);
  }

  /** Two AS ids that never become cores. */
  const Excluded: set<Asn> := {"64302", "306"}

  function NotExcluded(a: Asn): bool {
    a !in Excluded
  }

  // ---------------------------------------------------------------------------
  // Projections onto a set of cores
  // ---------------------------------------------------------------------------

  /** The core topology in one of its two shapes. */
  datatype CoreTopo = WithRels(topo: Topo) | NoRels(core: Load.CoreState)

  function CoreKeys(c: CoreTopo): set<Asn> {
    match c
    case WithRels(t) => t.Keys
    case NoRels(s) => s.cores.Keys
  }

  /**
   * `_get_scion_core_topo_with_rels`: every kept AS with the links of each
   * relation that stay among the kept ASes.
   */
  function ProjectWithRels(t: Topo, keep: seq<Asn>): (r: Topo)
    ensures forall a :: a in r <==> a in keep
    ensures forall a, b :: a in keep ==>
      && (b in Providers(r, a) <==> b in Providers(t, a) && b in keep)
      && (b in Customers(r, a) <==> b in Customers(t, a) && b in keep)
      && (b in Peers(r, a) <==> b in Peers(t, a) && b in keep)
  {
    map a | a in keep ::
      Rels(Filter(Providers(t, a), Among(keep)), Filter(Customers(t, a), Among(keep)), Filter(Peers(t, a), Among(keep)))
  }

  /**
   * `_get_scion_core_topo_no_rels`: every kept AS with a single `cores` list
   * of its kept neighbours; the keys keep the order of `keep`.
   */
  function ProjectNoRels(t: Topo, keep: seq<Asn>): (r: Load.CoreState)
    ensures r.order == keep
    ensures forall a :: a in r.cores <==> a in keep
    ensures forall a, b :: a in keep ==> (b in r.cores[a] <==> b in Neighbours(t, a) && b in keep)
  {
    Load.CoreState(keep, map a | a in keep :: Filter(Neighbours(t, a), Among(keep)))
  }

  /**
   * The single `cores` list is the providers, then the customers, then the
   * peers of the projection with relations, each in its own order.
   */
  lemma NoRelsFlattens(t: Topo, keep: seq<Asn>, a: Asn)
    requires a in keep
    ensures ProjectNoRels(t, keep).cores[a] == Neighbours(ProjectWithRels(t, keep), a)
  {
    var p := Among(keep);
    FilterAppend(Providers(t, a) + Customers(t, a), Peers(t, a), p);
    FilterAppend(Providers(t, a), Customers(t, a), p);
  }

  /**
   * `select_scion_cores`: the ASes with the highest cones without the two
   * excluded ids, and the AS graph projected onto them.
   */
  function SelectScionCores(cones: Dict<Asn, int>, t: Topo, n: nat, withRels: bool): (r: Result<CoreTopo>)
    ensures r.Err? <==> n >= |cones|
    ensures r.Ok? ==> r.value.WithRels? == withRels
    ensures r.Ok? ==> forall a :: a in CoreKeys(r.value) <==> a in HighestCones(cones, n).value && a !in Excluded
    ensures r.Ok? ==> |CoreKeys(r.value)| <= n
  {
    var top :- HighestCones(cones, n);
    var cores := Filter(top, NotExcluded);
    SeqSetCard(cores);
    Ok(if withRels then WithRels(ProjectWithRels(t, cores)) else NoRels(ProjectNoRels(t, cores)))
  }

  // ---------------------------------------------------------------------------
  // One country's isolation domain
  // ---------------------------------------------------------------------------

  /** `max_cores`: the most ISD cores a country gets. */
  const MaxCores: nat := 2000

  function Min(a: int, b: int): int {
    if a <= b then a else b
  }

  /** A cone item of a core AS, present in the core topology, located in the country. */
  function IsCandidate(coreKeys: set<Asn>, m: CountryNet.CountryMap, country: string): ((Asn, int)) -> bool {
    (item: (Asn, int)) => item.0 in coreKeys && CountryNet.InCountry(m, country, item.0)
  }

  function Candidates(coreKeys: set<Asn>, cones: Dict<Asn, int>, m: CountryNet.CountryMap, country: string): Dict<Asn, int> {
    Filter(cones, IsCandidate(coreKeys, m, country))
  }

  /**
   * `_select_isd_cores`, as cone items: the candidates with the largest
   * cones, `maxCores` of them or all if there are fewer, largest first.
   */
  function IsdChosen(coreKeys: set<Asn>, cones: Dict<Asn, int>, m: CountryNet.CountryMap, country: string, maxCores: nat)
    : (chosen: Dict<Asn, int>)
    ensures |chosen| == Min(maxCores, |Candidates(coreKeys, cones, m, country)|)
    ensures forall x :: x in chosen ==> x in cones && x.0 in coreKeys && CountryNet.InCountry(m, country, x.0)
    ensures forall x, y :: x in chosen && y in Candidates(coreKeys, cones, m, country) && y !in chosen ==> x.1 >= y.1
    ensures forall i, j :: 0 <= i < j < |chosen| ==> chosen[i].1 >= chosen[j].1
  {
    var cands := Candidates(coreKeys, cones, m, country);
    var ranked := SortDict(cands, true);
    var k := Min(maxCores, |ranked|);
    RankedChoice(cands, k);
    ranked[..k]
  }

  /** The first `k` of the ranked candidates are candidates, none smaller than one left out. */
  lemma RankedChoice(cands: Dict<Asn, int>, k: nat)
    requires k <= |cands|
    ensures forall x :: x in SortDict(cands, true)[..k] ==> x in cands
    ensures forall x, y :: x in SortDict(cands, true)[..k] && y in cands && y !in SortDict(cands, true)[..k] ==> x.1 >= y.1
  {
    var ranked := SortDict(cands, true);
    PrefixLargest(ranked, k);
    assert forall y :: y in cands ==> y in multiset(ranked);
    assert forall x :: x in ranked[..k] ==> x in multiset(cands);
  }

  /** A prefix of a list ranked largest first holds no item smaller than one left out. */
  lemma PrefixLargest(ranked: Dict<Asn, int>, k: nat)
    requires forall i, j :: 0 <= i < j < |ranked| ==> ranked[i].1 >= ranked[j].1
    requires k <= |ranked|
    ensures forall x, y :: x in ranked[..k] && y in ranked && y !in ranked[..k] ==> x.1 >= y.1
  {
    forall x, y | x in ranked[..k] && y in ranked && y !in ranked[..k]
      ensures x.1 >= y.1
    {
      var i :| 0 <= i < k && ranked[..k][i] == x;
      var j :| 0 <= j < |ranked| && ranked[j] == y;
      assert forall l :: 0 <= l < k ==> ranked[..k][l] == ranked[l];
      assert j >= k;
    }
  }

  /** The ISD cores, largest cone first. */
  function IsdCores(coreKeys: set<Asn>, cones: Dict<Asn, int>, m: CountryNet.CountryMap, country: string, maxCores: nat): seq<Asn> {
    Keys(IsdChosen(coreKeys, cones, m, country, maxCores))
  }

  /**
   * `_get_isd_core_topo_no_rels`: every ISD core with those of its core
   * links that stay inside the ISD, in the order the cores were chosen.
   */
  function IsdCoreTopoNoRels(cores: map<Asn, seq<Asn>>, isd: seq<Asn>): (r: Load.CoreState)
    ensures r.order == isd
    ensures forall a :: a in r.cores <==> a in isd
    ensures forall a, b :: a in isd ==> (b in r.cores[a] <==> b in Load.CoresOf(cores, a) && b in isd)
  {
    Load.CoreState(isd, map a | a in isd :: Filter(Load.CoresOf(cores, a), Among(isd)))
  }

  /** Cutting a symmetric core topology down to an ISD leaves it symmetric. */
  lemma IsdCoreTopoSymmetric(cores: map<Asn, seq<Asn>>, isd: seq<Asn>)
    requires Load.CoreSymmetric(cores)
    ensures Load.CoreSymmetric(IsdCoreTopoNoRels(cores, isd).cores)
  {
    var r := IsdCoreTopoNoRels(cores, isd).cores;
    forall a, b
      ensures Occurrences(Load.CoresOf(r, a), b) == Occurrences(Load.CoresOf(r, b), a)
    {
      if a in isd {
        FilterOccurrences(Load.CoresOf(cores, a), Among(isd), b);
      }
      if b in isd {
        FilterOccurrences(Load.CoresOf(cores, b), Among(isd), a);
      }
    }
  }

  /** `select_isd_cores_of_country` on the loaded core topology. */
  function SelectIsdCoresOfCountry(core: Load.CoreState, cones: Dict<Asn, int>, m: CountryNet.CountryMap, country: string)
    : (r: Load.CoreState)
    ensures forall a :: a in r.cores ==> a in core.cores && CountryNet.InCountry(m, country, a)
    ensures |r.order| == Min(MaxCores, |Candidates(core.cores.Keys, cones, m, country)|)
  {
    var chosen := IsdChosen(core.cores.Keys, cones, m, country, MaxCores);
    assert forall a :: a in Keys(chosen) ==> exists i :: 0 <= i < |chosen| && chosen[i].0 == a;
    IsdCoreTopoNoRels(core.cores, Keys(chosen))
  }

  /** The members of `s`, as a filter. */
  function InSet(s: set<Asn>): Asn -> bool {
    a => a in s
  }

  /**
   * A non-core AS keeps its providers and peers inside the ISD and its
   * customers among the non-cores; a customer that is an ISD core is filed
   * as a peer, ahead of the peers proper.
   */
  function NonCoreRels(t: Topo, a: Asn, nonCores: set<Asn>, cores: set<Asn>): (r: Rels)
    ensures forall b :: b in r.customers <==> b in Customers(t, a) && b in nonCores
    ensures forall b :: b in cores && b in Customers(t, a) ==> b in r.peers
    ensures forall b :: b in r.providers || b in r.customers || b in r.peers ==> b in nonCores || b in cores
  {
    Rels(
      Filter(Providers(t, a), InSet(nonCores + cores)),
      Filter(Customers(t, a), InSet(nonCores)),
      Filter(Customers(t, a), InSet(cores)) + Filter(Peers(t, a), InSet(nonCores + cores)))
  }

  /**
   * An ISD core keeps only its links to non-cores; its providers are filed
   * as peers, so it has no providers at all.
   */
  function CoreRels(t: Topo, a: Asn, nonCores: set<Asn>): (r: Rels)
    ensures r.providers == []
    ensures forall b :: b in r.customers <==> b in Customers(t, a) && b in nonCores
    ensures forall b :: b in nonCores && b in Providers(t, a) ==> b in r.peers
    ensures forall b :: b in r.providers || b in r.customers || b in r.peers ==> b in nonCores
  {
    Rels(
      [],
      Filter(Customers(t, a), InSet(nonCores)),
      Filter(Providers(t, a), InSet(nonCores)) + Filter(Peers(t, a), InSet(nonCores)))
  }

  /**
   * `_get_isd_non_core_topo`: the ISD's ASes with their relabelled links.
   * Cores are written after the non-cores and so win for an AS that is both.
   */
  function IsdNonCoreTopo(t: Topo, nonCores: set<Asn>, cores: set<Asn>): (r: Topo)
    ensures forall a :: a in r <==> a in nonCores || a in cores
    ensures forall a, b :: a in r && b in Neighbours(r, a) ==> b in nonCores || b in cores
    ensures forall a, b :: b in Customers(r, a) ==> b in nonCores
    ensures forall a :: a in cores ==> Providers(r, a) == []
  {
    map a | a in nonCores + cores :: if a in cores then CoreRels(t, a, nonCores) else NonCoreRels(t, a, nonCores, cores)
  }

  /**
   * The relabelling keeps every link of a non-core inside the ISD and every
   * link between a core and a non-core; only core-to-core links, which the
   * core topology carries, are dropped. A non-core sees its core customers
   * as peers and a core sees its non-core providers as peers.
   */
  lemma IsdNonCoreLinks(t: Topo, nonCores: set<Asn>, cores: set<Asn>, a: Asn, b: Asn)
    ensures var r := IsdNonCoreTopo(t, nonCores, cores);
      && (a in nonCores && a !in cores ==> (b in Neighbours(r, a) <==> b in Neighbours(t, a) && (b in nonCores || b in cores)))
      && (a in cores ==> (b in Neighbours(r, a) <==> b in Neighbours(t, a) && b in nonCores))
      && (a in nonCores && a !in cores && b in cores && b in Customers(t, a) ==> b in Peers(r, a))
      && (a in cores && b in nonCores && b in Providers(t, a) ==> b in Peers(r, a))
  {
  }

  /**
   * `get_isd_topos`: the ISD core topology, then the non-core view of the
   * country's mainland without those cores.
   */
  function GetIsdTopos(core: Load.CoreState, t: Topo, order: seq<Asn>, cones: Dict<Asn, int>,
                       m: CountryNet.CountryMap, country: string): (r: Result<(Load.CoreState, Topo)>)
    ensures r.Err? <==> CountryNet.GetMainland(t, order, m, country).Err?
    ensures r.Ok? ==> r.value.0 == SelectIsdCoresOfCountry(core, cones, m, country)
    ensures r.Ok? ==> forall a :: a in r.value.1 <==> a in CountryNet.GetMainland(t, order, m, country).value || a in r.value.0.cores
  {
    var isd := SelectIsdCoresOfCountry(core, cones, m, country);
    var mainland :- CountryNet.GetMainland(t, order, m, country);
    var cores := isd.cores.Keys;
    Ok((isd, IsdNonCoreTopo(t, mainland - cores, cores)))
  }
}
