/**
 * Customer cones (source/simulation/scion/conesize.py): the number of ASes
 * an AS reaches by following customer links, itself included, each counted
 * once. The breadth-first search of the source is `Reach.Explore` over the
 * customer graph; `Cone` is the set it visits.
 */
module ConeSize {
  import opened Wrappers
  import opened Utils
  import opened Topology
  import opened Reach
  import Load
  import Strings
  import ScionGen

  /** The edges the search follows: every AS to its customers. */
  function CustomerGraph(t: Topo): (g: Graph<Asn>)
    ensures forall a :: Succ(g, a) == Customers(t, a)
  {
    map a | a in t :: Customers(t, a)
  }

  /** The customer cone of `a`: `a` and everything its customer links lead to. */
  function Cone(t: Topo, a: Asn): set<Asn> {
    Closure(CustomerGraph(t), {a})
  }

  /** `get_customer_cone_for_as`: one for the AS, plus one per newly visited customer. */
  method ConeSizeOf(t: Topo, a: Asn) returns (cone: int)
    ensures cone == |Cone(t, a)|
  {
    var visited := Explore(CustomerGraph(t), [a]);
    assert (set x | x in [a]) == {a};
    DistinctCard(visited);
    assert (set x | x in visited) == Cone(t, a);
    cone := |visited|;
  }

  /**
   * The cone is the AS together with the ASes one or more customer hops
   * away, so the AS counts once even when a customer loop leads back to it.
   */
  lemma ConeSplit(t: Topo, a: Asn)
    ensures Cone(t, a) == {a} + Closure(CustomerGraph(t), set c | c in Customers(t, a))
  {
    var g := CustomerGraph(t);
    var custs := set c | c in Customers(t, a);
    var below := Closure(g, custs);
    ClosureLeast(g, custs, Cone(t, a));
    ClosureLeast(g, {a}, {a} + below);
  }

  /** Every cone holds its AS; an AS without customers has cone 1. */
  lemma ConeAtLeastOne(t: Topo, a: Asn)
    ensures |Cone(t, a)| >= 1
    ensures Customers(t, a) == [] ==> |Cone(t, a)| == 1
  {
    ConeSplit(t, a);
    assert a in Cone(t, a);
    if Customers(t, a) == [] {
      assert (set c | c in Customers(t, a)) == {};
      ClosureLeast(CustomerGraph(t), {}, {});
      assert Cone(t, a) == {a};
    }
  }

  /** A provider's cone contains the cone of each of its customers. */
  lemma ConeCustomer(t: Topo, a: Asn, b: Asn)
    requires b in Customers(t, a)
    ensures Cone(t, b) <= Cone(t, a)
    ensures |Cone(t, b)| <= |Cone(t, a)|
  {
    assert b in Cone(t, a);
    ClosureTransitive(CustomerGraph(t), {a}, b);
    SubsetCard(Cone(t, b), Cone(t, a));
  }

  /** The (AS, cone) items in the order of `order`. */
  function ConeItems(t: Topo, order: seq<Asn>): Dict<Asn, int> {
    seq(|order|, i requires 0 <= i < |order| => (order[i], |Cone(t, order[i])|))
  }

  /** The search run from each AS of `asns` in turn, its cone recorded under it. */
  method ConeList(t: Topo, asns: seq<Asn>) returns (items: Dict<Asn, int>)
    ensures |items| == |asns|
    ensures forall i :: 0 <= i < |asns| ==> items[i] == (asns[i], |Cone(t, asns[i])|)
  {
    items := [];
    for k := 0 to |asns|
      invariant |items| == k
      invariant forall i :: 0 <= i < k ==> items[i] == (asns[i], |Cone(t, asns[i])|)
    {
      var c := ConeSizeOf(t, asns[k]);
      items := items + [(asns[k], c)];
    }
  }

  /**
   * `get_customer_cone_for_all`: the cone of every AS of `order` (the keys
   * of the topology in insertion order), largest first; ASes with equal
   * cones stay in key order.
   */
  method CustomerConeForAll(t: Topo, order: seq<Asn>) returns (cc: Dict<Asn, int>)
    ensures multiset(Keys(cc)) == multiset(order)
    ensures Enumerates(order, t) ==> DistinctKeys(cc) && forall a :: a in Keys(cc) <==> a in t
    ensures forall i :: 0 <= i < |cc| ==> cc[i].1 == |Cone(t, cc[i].0)|
    ensures forall i, j :: 0 <= i < j < |cc| ==> cc[i].1 >= cc[j].1
    ensures forall v :: WithKey(cc, Value, v) == WithKey(ConeItems(t, order), Value, v)
  {
    var items := ConeList(t, order);
    assert items == ConeItems(t, order);
    cc := SortDict(items, true);
    SortedCones(t, order, items, cc);
  }

  /** What sorting the recorded cones keeps and what it establishes. */
  lemma SortedCones(t: Topo, order: seq<Asn>, items: Dict<Asn, int>, cc: Dict<Asn, int>)
    requires items == ConeItems(t, order) && cc == SortDict(items, true)
    ensures multiset(Keys(cc)) == multiset(order)
    ensures Enumerates(order, t) ==> DistinctKeys(cc) && forall a :: a in Keys(cc) <==> a in t
    ensures forall i :: 0 <= i < |cc| ==> cc[i].1 == |Cone(t, cc[i].0)|
    ensures forall v :: WithKey(cc, Value, v) == WithKey(items, Value, v)
  {
    SortedConeKeys(t, order, items, cc);
    SortedConeValues(t, order, items, cc);
    forall v {
      SortDictStable(items, true, v);
    }
  }

  /** Sorting re-orders the ASes and loses or adds none. */
  lemma SortedConeKeys(t: Topo, order: seq<Asn>, items: Dict<Asn, int>, cc: Dict<Asn, int>)
    requires items == ConeItems(t, order) && cc == SortDict(items, true)
    ensures multiset(Keys(cc)) == multiset(order)
    ensures Enumerates(order, t) ==> DistinctKeys(cc) && forall a :: a in Keys(cc) <==> a in t
  {
    assert forall i :: 0 <= i < |items| ==> Keys(items)[i] == order[i];
    assert Keys(items) == order;
    KeysPermutation(items, cc);
    if Enumerates(order, t) {
      PermutationDistinct(order, Keys(cc));
      assert forall a :: a in Keys(cc) <==> a in multiset(order);
    }
  }

  /** Sorting keeps each AS with its own cone. */
  lemma SortedConeValues(t: Topo, order: seq<Asn>, items: Dict<Asn, int>, cc: Dict<Asn, int>)
    requires items == ConeItems(t, order) && cc == SortDict(items, true)
    ensures forall i :: 0 <= i < |cc| ==> cc[i].1 == |Cone(t, cc[i].0)|
  {
    forall i | 0 <= i < |cc|
      ensures cc[i].1 == |Cone(t, cc[i].0)|
    {
      assert cc[i] in multiset(items);
    }
  }

  /**
   * `_get_save_customer_cone`: the cones written as `idx|ASN|cone` lines;
   * reading the file back gives the same items.
   */
  method GetSaveCustomerCone(t: Topo, order: seq<Asn>) returns (lines: Load.Lines, cc: Dict<Asn, int>)
    ensures lines == Load.SaveCustomerCone(cc)
    ensures forall i :: 0 <= i < |cc| ==> cc[i].1 == |Cone(t, cc[i].0)|
    ensures Enumerates(order, t) && (forall a :: a in t ==> Strings.FieldOk(a)) ==> Load.LoadCustomerCone(lines) == Ok(cc)
  {
    cc := CustomerConeForAll(t, order);
    lines := Load.SaveCustomerCone(cc);
    if Enumerates(order, t) && (forall a :: a in t ==> Strings.FieldOk(a)) {
      assert forall i :: 0 <= i < |cc| ==> cc[i].0 in Keys(cc);
      Load.LoadSaveCustomerCone(cc);
    }
  }

  /**
   * `get_customer_cone_size_core_ISD`: the cone of every ISD core, in the
   * key order of the ISD core topology, over the non-core view alone.
   */
  method CustomerConeSizeCoreIsd(isd: Load.CoreState, nonCore: Topo) returns (cc: Dict<Asn, int>)
    ensures Keys(cc) == isd.order
    ensures forall i :: 0 <= i < |cc| ==> cc[i].1 == |Cone(nonCore, cc[i].0)|
  {
    cc := ConeList(nonCore, isd.order);
    assert forall i :: 0 <= i < |cc| ==> Keys(cc)[i] == isd.order[i];
  }

  /**
   * In the non-core view every customer list holds non-cores only, so an
   * ISD cone is the core and some non-cores.
   */
  lemma IsdConeWithin(t: Topo, nonCores: set<Asn>, cores: set<Asn>, c: Asn)
    ensures Cone(ScionGen.IsdNonCoreTopo(t, nonCores, cores), c) <= {c} + nonCores
    ensures |Cone(ScionGen.IsdNonCoreTopo(t, nonCores, cores), c)| <= 1 + |nonCores|
  {
    var r := ScionGen.IsdNonCoreTopo(t, nonCores, cores);
    ClosureLeast(CustomerGraph(r), {c}, {c} + nonCores);
    SubsetCard(Cone(r, c), {c} + nonCores);
  }
}
