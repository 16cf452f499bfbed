/**
 * The AS-relationship graph every part of the system works on: a map from
 * AS id to its `providers`, `customers` and `peers` lists. The Python keeps
 * it in a `defaultdict(lambda: defaultdict(list))`, so an AS that is not a
 * key behaves as one with three empty lists; `RelsOf` makes that default
 * explicit.
 */
module Topology {
  import opened Utils

  /** AS ids are kept as the strings read from the data files. */
  type Asn = string

  datatype Rels = Rels(providers: seq<Asn>, customers: seq<Asn>, peers: seq<Asn>)

  const NoRels := Rels([], [], [])

  type Topo = map<Asn, Rels>

  /** A loaded routing tree: the next hop of every AS that has one. */
  type Routes = map<Asn, Asn>

  /** `as_topo[asn]`, with the default of the defaultdict for a missing AS. */
  function RelsOf(t: Topo, a: Asn): (r: Rels)
    ensures a !in t ==> r == NoRels
  {
    if a in t then t[a] else NoRels
  }

  function Providers(t: Topo, a: Asn): seq<Asn> { RelsOf(t, a).providers }
  function Customers(t: Topo, a: Asn): seq<Asn> { RelsOf(t, a).customers }
  function Peers(t: Topo, a: Asn): seq<Asn> { RelsOf(t, a).peers }

  /** `rels['providers'] + rels['customers'] + rels['peers']`. */
  function Neighbours(t: Topo, a: Asn): (ns: seq<Asn>)
    ensures forall b :: b in ns <==> b in Providers(t, a) || b in Customers(t, a) || b in Peers(t, a)
  {
    Providers(t, a) + Customers(t, a) + Peers(t, a)
  }

  /** Every AS listed as a neighbour is itself a key. */
  predicate Closed(t: Topo) {
    forall a, b :: a in t && b in Neighbours(t, a) ==> b in t
  }

  /**
   * Links are recorded on both ends, with equal multiplicities: `b` is a
   * customer of `a` as often as `a` is a provider of `b`, and peering is
   * mutual.
   */
  ghost predicate Symmetric(t: Topo) {
    && (forall a, b :: Occurrences(Customers(t, a), b) == Occurrences(Providers(t, b), a))
    && (forall a, b :: Occurrences(Peers(t, a), b) == Occurrences(Peers(t, b), a))
  }

  /** In a symmetric topology the neighbour relation is symmetric. */
  lemma NeighbourSymmetric(t: Topo, a: Asn, b: Asn)
    requires Symmetric(t)
    requires b in Neighbours(t, a)
    ensures a in Neighbours(t, b)
  {
    if b in Providers(t, a) {
      assert Occurrences(Customers(t, b), a) == Occurrences(Providers(t, a), b) > 0;
    } else if b in Customers(t, a) {
      assert Occurrences(Providers(t, b), a) == Occurrences(Customers(t, a), b) > 0;
    } else {
      assert Occurrences(Peers(t, b), a) == Occurrences(Peers(t, a), b) > 0;
    }
  }

  /** An insertion-ordered view of the keys of a topology. */
  ghost predicate Enumerates(order: seq<Asn>, t: Topo) {
    Distinct(order) && (forall a :: a in order <==> a in t)
  }
}
