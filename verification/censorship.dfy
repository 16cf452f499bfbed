/**
 * The country-level censorship metrics: pick the top-N chokepoints as
 * censors, then count the (mainland source, foreign destination) pairs
 * that stay reachable, directly over BGP or relayed through a VPN AS.
 */
module Censorship {
  import opened Wrappers
  import opened Utils
  import opened Topology
  import Load
  import Walks
  import Strings
  import Reach

  // ---------------------------------------------------------------------------
  // Censors
  // ---------------------------------------------------------------------------

  /**
   * `_get_potential_censors`: the chokepoint file must belong to the country;
   * its border ASes come out by non-increasing chokepoint potential.
   */
  function PotentialCensors(country: string, cpf: (string, int, Dict<Asn, int>)): (r: Result<seq<Asn>>)
    ensures r.Err? <==> cpf.0 != country
    ensures r.Ok? ==> multiset(r.value) == multiset(Keys(cpf.2))
    ensures r.Ok? && DistinctKeys(cpf.2) ==> Distinct(r.value)
    ensures r.Ok? && DistinctKeys(cpf.2) ==> forall i :: 0 <= i < |r.value| ==> r.value[i] in ToMap(cpf.2)
    ensures r.Ok? && DistinctKeys(cpf.2) ==>
      forall i, j :: 0 <= i < j < |r.value| ==> ToMap(cpf.2)[r.value[i]] >= ToMap(cpf.2)[r.value[j]]
  {
    if cpf.0 != country then Err(LabelMismatch)
    else
      CensorsDescending(cpf.2);
      Ok(Keys(SortDict(cpf.2, true)))
  }

  lemma CensorsDescending(d: Dict<Asn, int>)
    ensures multiset(Keys(SortDict(d, true))) == multiset(Keys(d))
    ensures DistinctKeys(d) ==> Distinct(Keys(SortDict(d, true)))
    ensures DistinctKeys(d) ==> forall i :: 0 <= i < |d| ==>
      && Keys(SortDict(d, true))[i] in ToMap(d)
      && ToMap(d)[Keys(SortDict(d, true))[i]] == SortDict(d, true)[i].1
    ensures DistinctKeys(d) ==>
      forall i, j :: 0 <= i < j < |d| ==> ToMap(d)[Keys(SortDict(d, true))[i]] >= ToMap(d)[Keys(SortDict(d, true))[j]]
  {
    var sorted := SortDict(d, true);
    var ks := Keys(sorted);
    KeysPermutation(sorted, d);
    if DistinctKeys(d) {
      PermutationDistinct(Keys(d), ks);
      forall i | 0 <= i < |sorted|
        ensures ks[i] in ToMap(d) && ToMap(d)[ks[i]] == sorted[i].1
      {
        assert sorted[i] in multiset(d);
        var k :| 0 <= k < |d| && d[k] == sorted[i];
      }
      forall i, j | 0 <= i < j < |sorted|
        ensures ToMap(d)[ks[i]] >= ToMap(d)[ks[j]]
      {
        assert InOrder(true, sorted[i].1, sorted[j].1);
      }
    }
  }

  /** How many elements Python's `s[:n]` keeps of a sequence of length `len`. */
  function Take(len: nat, n: int): (k: nat)
    ensures k <= len
  {
    if n >= len then len
    else if n >= 0 then n
    else if len + n >= 0 then len + n
    else 0
  }

  /** The first `k` potential censors, as a set. */
  function Top(pot: seq<Asn>, k: nat): set<Asn>
    requires k <= |pot|
  {
    set i | 0 <= i < k :: pot[i]
  }

  /**
   * `_create_censors_by_num`: for every requested N up to the number of
   * potential censors, the set of the first N of them (Python's `[:N]`, so a
   * negative N drops the last -N); larger N are skipped.
   */
  function CensorsByNum(pot: seq<Asn>, ns: seq<int>): (m: map<int, set<Asn>>)
    ensures forall n :: n in m <==> n in ns && n <= |pot|
    ensures forall n :: n in m ==> m[n] == Top(pot, Take(|pot|, n))
    decreases |ns|
  {
    if |ns| == 0 then map[]
    else
      var m := CensorsByNum(pot, ns[..|ns| - 1]);
      var n := ns[|ns| - 1];
      assert ns == ns[..|ns| - 1] + [n];
      if n > |pot| then m
      else
        var p := pot[..Take(|pot|, if |pot| < n then |pot| else n)];
        assert (set x | x in p) == Top(pot, Take(|pot|, n)) by {
          forall x | x in p
            ensures x in Top(pot, Take(|pot|, n))
          {
            var i :| 0 <= i < |p| && p[i] == x;
            assert pot[i] == x;
          }
          forall x | x in Top(pot, Take(|pot|, n))
            ensures x in p
          {
            var i :| 0 <= i < Take(|pot|, n) && pot[i] == x;
            assert p[i] == x;
          }
        }
        m[n := set x | x in p]
  }

  /** The first `a` are among the first `b` when `a <= b`. */
  lemma TopNested(pot: seq<Asn>, a: nat, b: nat)
    requires a <= b <= |pot|
    ensures Top(pot, a) <= Top(pot, b)
  {
  }

  /** `censors_by_num[N]` through `defaultdict(set)`: an N that was skipped has no censors. */
  function CensorsOf(m: map<int, set<Asn>>, n: int): set<Asn> {
    if n in m then m[n] else {}
  }

  /** Censor sets grow with N. */
  lemma CensorsNested(pot: seq<Asn>, ns: seq<int>, n1: int, n2: int)
    requires n1 <= n2 && (0 <= n1 || n2 < 0) && n1 in ns && n2 in ns && n2 <= |pot|
    ensures CensorsOf(CensorsByNum(pot, ns), n1) <= CensorsOf(CensorsByNum(pot, ns), n2)
  {
    TopNested(pot, Take(|pot|, n1), Take(|pot|, n2));
  }

  /**
   * Python's `[:N]` makes -1 keep all but the last potential censor while 0
   * keeps none: across the sign change the sets are not nested.
   */
  lemma CensorsNotNestedAcrossZero(pot: seq<Asn>)
    requires |pot| >= 2 && Distinct(pot)
    ensures CensorsOf(CensorsByNum(pot, [-1, 0]), -1) == Top(pot, |pot| - 1)
    ensures !(CensorsOf(CensorsByNum(pot, [-1, 0]), -1) <= CensorsOf(CensorsByNum(pot, [-1, 0]), 0))
  {
    assert pot[0] in Top(pot, |pot| - 1);
  }

  /** With distinct potential censors, the N-th set holds exactly N censors. */
  lemma CensorsCount(pot: seq<Asn>, ns: seq<int>, n: int)
    requires Distinct(pot) && n in ns && 0 <= n <= |pot|
    ensures |CensorsOf(CensorsByNum(pot, ns), n)| == n
  {
    var m := CensorsByNum(pot, ns);
    DistinctCard(pot[..n]);
    assert m[n] == set x | x in pot[..n] by {
      forall x | x in m[n]
        ensures x in pot[..n]
      {
        var i :| 0 <= i < n && pot[i] == x;
        assert pot[..n][i] == x;
      }
    }
  }

  /** An N above the number of potential censors runs with no censor at all. */
  lemma CensorsAboveCount(pot: seq<Asn>, ns: seq<int>, n: int)
    requires n > |pot|
    ensures CensorsOf(CensorsByNum(pot, ns), n) == {}
  {
  }

  // ---------------------------------------------------------------------------
  // Routing files
  // ---------------------------------------------------------------------------

  /**
   * `_routing_topo_of_destination`: the routing file saved for `d`, which must
   * exist and name `d` as its destination (the program stops otherwise).
   */
  function RoutingOf(files: map<Asn, Load.Lines>, d: Asn): (r: Result<Routes>)
    ensures r.Ok? <==> d in files && Load.LoadRoutingTopo(files[d]).Ok? && Load.LoadRoutingTopo(files[d]).value.0 == d
    ensures r.Ok? ==> r.value == Load.LoadRoutingTopo(files[d]).value.1
  {
    if d !in files then Err(MissingRoutes)
    else
      var (d', routes) :- Load.LoadRoutingTopo(files[d]);
      if d' != d then Err(LabelMismatch) else Ok(routes)
  }

  /** A file the simulator saved for `d` reads back as its routing without the `None` entries. */
  lemma SavedRoutingOf(files: map<Asn, Load.Lines>, d: Asn, order: seq<Asn>, routing: map<Asn, Option<Asn>>)
    requires forall a :: a in order <==> a in routing
    requires Strings.FieldOk(d) && Load.RoutingClean(routing)
    requires d in files && files[d] == Load.SaveRoutingTopo(d, order, routing)
    ensures RoutingOf(files, d) == Ok(Load.Present(routing))
  {
    Load.LoadSaveRoutingTopo(d, order, routing);
  }

  /** Reads the routing file of every destination in `ds`, stopping at the first failure. */
  function LoadAll(files: map<Asn, Load.Lines>, ds: seq<Asn>): (r: Result<map<Asn, Routes>>)
    ensures r.Ok? <==> forall i :: 0 <= i < |ds| ==> RoutingOf(files, ds[i]).Ok?
    ensures r.Ok? ==> forall d :: d in r.value <==> d in ds
    ensures r.Ok? ==> forall d :: d in r.value ==> RoutingOf(files, d) == Ok(r.value[d])
    decreases |ds|
  {
    if |ds| == 0 then Ok(map[])
    else
      var routes :- RoutingOf(files, ds[0]);
      var rest :- LoadAll(files, ds[1..]);
      assert forall i :: 1 <= i < |ds| ==> ds[i] == ds[1..][i - 1];
      Ok(rest[ds[0] := routes])
  }

  // ---------------------------------------------------------------------------
  // Reachability under censors
  // ---------------------------------------------------------------------------

  function Censored(c: set<Asn>): Asn -> bool {
    x => x in c
  }

  /** `_could_reach` with a censor set, for both the BGP and the VPN metric. */
  function Reaches(r: Routes, d: Asn, s: Asn, c: set<Asn>): bool {
    Walks.CouldReach(r, d, s, Censored(c), |c| == 0)
  }

  /**
   * On a ranked tree: a censored endpoint never reaches; otherwise the source
   * reaches iff it has an entry and no AS from it up to (not including) the
   * destination is a censor.
   */
  lemma ReachesSpec(r: Routes, d: Asn, len: map<Asn, nat>, s: Asn, c: set<Asn>)
    requires Walks.RoutesRanked(r, d, len)
    ensures Reaches(r, d, s, c) <==>
      && s in r && d !in c
      && forall k :: 0 <= k < len[s] ==> Walks.Iter(r, s, k) !in c
  {
    if |c| == 0 {
      assert c == {};
    }
    Walks.CouldReachSpec(r, d, len, s, Censored(c), |c| == 0);
    assert Censored(c)(d) == (d in c);
    if s in r {
      ChainHitsCensored(r, s, len[s], c);
    }
  }

  lemma ChainHitsCensored(r: Routes, s: Asn, n: nat, c: set<Asn>)
    ensures Walks.ChainHits(r, s, n, Censored(c)) <==> exists k :: 0 <= k < n && Walks.Iter(r, s, k) in c
  {
    if Walks.ChainHits(r, s, n, Censored(c)) {
      var k: nat :| k < n && Censored(c)(Walks.Iter(r, s, k));
      assert Walks.Iter(r, s, k) in c;
    }
    if exists k :: 0 <= k < n && Walks.Iter(r, s, k) in c {
      var k :| 0 <= k < n && Walks.Iter(r, s, k) in c;
      assert Censored(c)(Walks.Iter(r, s, k));
    }
  }

  /** With no censors, reaching is having a route. */
  lemma ReachesUncensored(r: Routes, d: Asn, s: Asn)
    ensures Reaches(r, d, s, {}) <==> s in r
  {
  }

  /** More censors never reach more: C1 <= C2 and reachable under C2 give reachable under C1. */
  lemma ReachesMonotone(r: Routes, d: Asn, s: Asn, c1: set<Asn>, c2: set<Asn>)
    requires c1 <= c2
    ensures Reaches(r, d, s, c2) ==> Reaches(r, d, s, c1)
  {
    Walks.CouldReachMonotone(r, d, s, Censored(c1), |c1| == 0, Censored(c2), |c2| == 0);
  }

  // ---------------------------------------------------------------------------
  // BGP metric
  // ---------------------------------------------------------------------------

  /** `data[N]` through `defaultdict(int)`. */
  function Get(data: map<int, int>, n: int): int {
    if n in data then data[n] else 0
  }

  /** Only counts that were incremented are keys. */
  predicate Positive(data: map<int, int>) {
    forall n :: n in data ==> data[n] > 0
  }

  /** The inner `for N in N_CENSORS` loop: bump `data[N]` whenever `hit(N)`. */
  function TallyNs(data: map<int, int>, ns: seq<int>, hit: int -> bool): (out: map<int, int>)
    ensures forall n :: Get(out, n) == Get(data, n) + (if hit(n) then Occurrences(ns, n) else 0)
    ensures Positive(data) ==> Positive(out)
    decreases |ns|
  {
    if |ns| == 0 then data
    else
      var n := ns[0];
      TallyNs(if hit(n) then data[n := Get(data, n) + 1] else data, ns[1..], hit)
  }

  function HitN(r: Routes, d: Asn, s: Asn, cbn: map<int, set<Asn>>): int -> bool {
    n => Reaches(r, d, s, CensorsOf(cbn, n))
  }

  function SourceHits(r: Routes, d: Asn, cbn: map<int, set<Asn>>, n: int): Asn -> bool {
    s => Reaches(r, d, s, CensorsOf(cbn, n))
  }

  /** The `for source in mainland` loop for one destination. */
  function TallySources(data: map<int, int>, srcs: seq<Asn>, ns: seq<int>, r: Routes, d: Asn, cbn: map<int, set<Asn>>): (out: map<int, int>)
    ensures Positive(data) ==> Positive(out)
    decreases |srcs|
  {
    if |srcs| == 0 then data
    else
      var next := TallyNs(data, ns, HitN(r, d, srcs[0], cbn));
      TallySources(next, srcs[1..], ns, r, d, cbn)
  }

  /** Every source reaching under the censors of N adds one per occurrence of N. */
  lemma {:induction false} TallySourcesGet(data: map<int, int>, srcs: seq<Asn>, ns: seq<int>, r: Routes, d: Asn, cbn: map<int, set<Asn>>, n: int)
    ensures Get(TallySources(data, srcs, ns, r, d, cbn), n)
         == Get(data, n) + Occurrences(ns, n) * Count(srcs, SourceHits(r, d, cbn, n))
    decreases |srcs|
  {
    if |srcs| > 0 {
      var next := TallyNs(data, ns, HitN(r, d, srcs[0], cbn));
      TallySourcesGet(next, srcs[1..], ns, r, d, cbn, n);
      var o := Occurrences(ns, n);
      var hits := SourceHits(r, d, cbn, n);
      var rest := Count(srcs[1..], hits);
      assert TallySources(data, srcs, ns, r, d, cbn) == TallySources(next, srcs[1..], ns, r, d, cbn);
      assert Get(next, n) == Get(data, n) + (if HitN(r, d, srcs[0], cbn)(n) then o else 0);
      assert HitN(r, d, srcs[0], cbn)(n) == hits(srcs[0]);
      TallyStep(Get(data, n), Get(next, n), o, hits(srcs[0]), Count(srcs, hits), rest);
    } else {
      assert Count(srcs, SourceHits(r, d, cbn, n)) == 0;
    }
  }

  lemma TallyStep(before: int, after: int, o: int, hit: bool, total: int, rest: int)
    requires after == before + (if hit then o else 0)
    requires total == (if hit then 1 else 0) + rest
    ensures after + o * rest == before + o * total
  {
    Distribute(o, if hit then 1 else 0, rest);
  }

  lemma AddStep(before: int, after: int, o: int, here: int, total: int, rest: int)
    requires after == before + o * here
    requires total == here + rest
    ensures after + o * rest == before + o * total
  {
    Distribute(o, here, rest);
  }

  /** Reachable pairs towards `d` under the censors of N (0 when `d` has no routes). */
  function DestPairs(rs: map<Asn, Routes>, mainland: seq<Asn>, cbn: map<int, set<Asn>>, n: int): Asn -> int {
    d => if d in rs then Count(mainland, SourceHits(rs[d], d, cbn, n)) else 0
  }

  /** The reachable (mainland source, destination) pairs under the censors of N. */
  function Pairs(rs: map<Asn, Routes>, mainland: seq<Asn>, dests: seq<Asn>, cbn: map<int, set<Asn>>, n: int): int {
    Sum(dests, DestPairs(rs, mainland, cbn, n))
  }

  /** The `for destination in non_mainland` loop. */
  function TallyDests(data: map<int, int>, rs: map<Asn, Routes>, dests: seq<Asn>, mainland: seq<Asn>, ns: seq<int>, cbn: map<int, set<Asn>>): (out: map<int, int>)
    requires forall d :: d in dests ==> d in rs
    ensures Positive(data) ==> Positive(out)
    decreases |dests|
  {
    if |dests| == 0 then data
    else
      var d := dests[0];
      TallyDests(TallySources(data, mainland, ns, rs[d], d, cbn), rs, dests[1..], mainland, ns, cbn)
  }

  /** Every destination adds its reachable pairs under the censors of N, once per occurrence of N. */
  lemma {:induction false} TallyDestsGet(data: map<int, int>, rs: map<Asn, Routes>, dests: seq<Asn>, mainland: seq<Asn>, ns: seq<int>, cbn: map<int, set<Asn>>, n: int)
    requires forall d :: d in dests ==> d in rs
    ensures Get(TallyDests(data, rs, dests, mainland, ns, cbn), n)
         == Get(data, n) + Occurrences(ns, n) * Pairs(rs, mainland, dests, cbn, n)
    decreases |dests|
  {
    if |dests| > 0 {
      var d := dests[0];
      var next := TallySources(data, mainland, ns, rs[d], d, cbn);
      TallySourcesGet(data, mainland, ns, rs[d], d, cbn, n);
      TallyDestsGet(next, rs, dests[1..], mainland, ns, cbn, n);
      var o := Occurrences(ns, n);
      var here := Count(mainland, SourceHits(rs[d], d, cbn, n));
      var rest := Pairs(rs, mainland, dests[1..], cbn, n);
      assert Pairs(rs, mainland, dests, cbn, n) == here + rest;
      AddStep(Get(data, n), Get(next, n), o, here, Pairs(rs, mainland, dests, cbn, n), rest);
    }
  }

  /** The BGP tally from an empty `data`: N's count is its occurrences times its reachable pairs. */
  lemma BgpTally(rs: map<Asn, Routes>, dests: seq<Asn>, mainland: seq<Asn>, ns: seq<int>, cbn: map<int, set<Asn>>)
    requires forall d :: d in dests ==> d in rs
    ensures forall n :: Get(TallyDests(map[], rs, dests, mainland, ns, cbn), n) == Occurrences(ns, n) * Pairs(rs, mainland, dests, cbn, n)
  {
    forall n
      ensures Get(TallyDests(map[], rs, dests, mainland, ns, cbn), n) == Occurrences(ns, n) * Pairs(rs, mainland, dests, cbn, n)
    {
      TallyDestsGet(map[], rs, dests, mainland, ns, cbn, n);
    }
  }

  /**
   * `_get_bgp_results`: for each N, how many (mainland source, foreign destination)
   * pairs stay reachable under the censors of N, counted once per occurrence of N
   * in the request. An N whose count stays 0 is never a key. A destination
   * without a usable routing file stops the program.
   */
  function GetBgpResults(files: map<Asn, Load.Lines>, mainland: seq<Asn>, dests: seq<Asn>, ns: seq<int>, cbn: map<int, set<Asn>>): (r: Result<map<int, int>>)
    ensures r.Ok? <==> forall i :: 0 <= i < |dests| ==> RoutingOf(files, dests[i]).Ok?
    ensures r.Ok? ==> forall n ::
      var pairs := Pairs(LoadAll(files, dests).value, mainland, dests, cbn, n);
      && (n in r.value <==> n in ns && pairs > 0)
      && (n in r.value ==> r.value[n] == Occurrences(ns, n) * pairs)
  {
    var rs :- LoadAll(files, dests);
    var data := TallyDests(map[], rs, dests, mainland, ns, cbn);
    BgpTally(rs, dests, mainland, ns, cbn);
    BgpKeys(data, ns, rs, mainland, dests, cbn);
    Ok(data)
  }

  /** Only the N that were incremented at least once are keys. */
  lemma BgpKeys(data: map<int, int>, ns: seq<int>, rs: map<Asn, Routes>, mainland: seq<Asn>, dests: seq<Asn>, cbn: map<int, set<Asn>>)
    requires Positive(data)
    requires forall n :: Get(data, n) == Occurrences(ns, n) * Pairs(rs, mainland, dests, cbn, n)
    ensures forall n :: n in data <==> n in ns && Pairs(rs, mainland, dests, cbn, n) > 0
  {
    PairsNonNegative(rs, mainland, dests, cbn);
    forall n
      ensures n in data <==> n in ns && Pairs(rs, mainland, dests, cbn, n) > 0
    {
      PositiveProduct(Occurrences(ns, n), Pairs(rs, mainland, dests, cbn, n));
    }
  }

  lemma PositiveProduct(a: int, b: int)
    requires a >= 0 && b >= 0
    ensures a * b > 0 <==> a > 0 && b > 0
  {
  }

  lemma PairsNonNegative(rs: map<Asn, Routes>, mainland: seq<Asn>, dests: seq<Asn>, cbn: map<int, set<Asn>>)
    ensures forall n :: Pairs(rs, mainland, dests, cbn, n) >= 0
  {
    forall n
      ensures Pairs(rs, mainland, dests, cbn, n) >= 0
    {
      SumNonNegative(dests, DestPairs(rs, mainland, cbn, n));
    }
  }

  /** At most every (source, destination) pair is reachable. */
  lemma PairsBound(rs: map<Asn, Routes>, mainland: seq<Asn>, dests: seq<Asn>, cbn: map<int, set<Asn>>, n: int)
    ensures Pairs(rs, mainland, dests, cbn, n) <= |dests| * |mainland|
  {
    SumBound(dests, DestPairs(rs, mainland, cbn, n), |mainland|);
  }

  /** Nested censor sets give non-increasing counts: more censors, fewer reachable pairs. */
  lemma PairsMonotone(rs: map<Asn, Routes>, mainland: seq<Asn>, dests: seq<Asn>, cbn: map<int, set<Asn>>, n1: int, n2: int)
    requires CensorsOf(cbn, n1) <= CensorsOf(cbn, n2)
    ensures Pairs(rs, mainland, dests, cbn, n2) <= Pairs(rs, mainland, dests, cbn, n1)
  {
    forall d | d in dests
      ensures DestPairs(rs, mainland, cbn, n2)(d) <= DestPairs(rs, mainland, cbn, n1)(d)
    {
      if d in rs {
        forall s | s in mainland && SourceHits(rs[d], d, cbn, n2)(s)
          ensures SourceHits(rs[d], d, cbn, n1)(s)
        {
          ReachesMonotone(rs[d], d, s, CensorsOf(cbn, n1), CensorsOf(cbn, n2));
        }
        CountMonotone(mainland, SourceHits(rs[d], d, cbn, n2), SourceHits(rs[d], d, cbn, n1));
      }
    }
    SumMonotone(dests, DestPairs(rs, mainland, cbn, n2), DestPairs(rs, mainland, cbn, n1));
  }

  /** Within the potential count, a larger N never reaches more pairs. */
  lemma BgpNonIncreasing(pot: seq<Asn>, ns: seq<int>, rs: map<Asn, Routes>, mainland: seq<Asn>, dests: seq<Asn>, n1: int, n2: int)
    requires n1 <= n2 && (0 <= n1 || n2 < 0) && n1 in ns && n2 in ns && n2 <= |pot|
    ensures Pairs(rs, mainland, dests, CensorsByNum(pot, ns), n2) <= Pairs(rs, mainland, dests, CensorsByNum(pot, ns), n1)
  {
    CensorsNested(pot, ns, n1, n2);
    PairsMonotone(rs, mainland, dests, CensorsByNum(pot, ns), n1, n2);
  }

  // ---------------------------------------------------------------------------
  // VPN metric
  // ---------------------------------------------------------------------------

  /** `_get_vpn_nodes`: the listed VPN ASes that are in the topology, in list order. */
  function VpnNodes(t: Topo, listed: seq<Asn>): (r: seq<Asn>)
    ensures forall v :: v in r <==> v in listed && v in t
    ensures |r| <= |listed|
  {
    Filter(listed, v => v in t)
  }

  function ReachedBy(rd: map<Asn, Routes>, v: Asn, c: set<Asn>): Asn -> bool {
    d => d in rd && Reaches(rd[d], d, v, c)
  }

  /** `vpn_to_dest_set[vpn]`: the destinations the VPN AS reaches under the censors. */
  function VpnDests(rd: map<Asn, Routes>, dests: seq<Asn>, c: set<Asn>): Asn -> set<Asn> {
    v => set d | d in dests && ReachedBy(rd, v, c)(d)
  }

  function ViaVpn(rv: map<Asn, Routes>, s: Asn, c: set<Asn>): Asn -> bool {
    v => v in rv && Reaches(rv[v], v, s, c)
  }

  /** `source_reach`: the union of the destination sets of the VPN ASes the source reaches. */
  function SourceReach(rv: map<Asn, Routes>, rd: map<Asn, Routes>, dests: seq<Asn>, vpns: seq<Asn>, c: set<Asn>): Asn -> set<Asn> {
    s => UnionOf(vpns, ViaVpn(rv, s, c), VpnDests(rd, dests, c))
  }

  /** A source reaches `d` iff it reaches some VPN AS that reaches `d`; each `d` counts once. */
  lemma SourceReachSpec(rv: map<Asn, Routes>, rd: map<Asn, Routes>, dests: seq<Asn>, vpns: seq<Asn>, c: set<Asn>, s: Asn, d: Asn)
    ensures d in SourceReach(rv, rd, dests, vpns, c)(s) <==>
      d in dests && d in rd &&
      exists v :: v in vpns && v in rv && Reaches(rv[v], v, s, c) && Reaches(rd[d], d, v, c)
  {
    if d in SourceReach(rv, rd, dests, vpns, c)(s) {
      SourceReachSound(rv, rd, dests, vpns, c, s, d);
    }
    if d in dests && d in rd && exists v :: v in vpns && v in rv && Reaches(rv[v], v, s, c) && Reaches(rd[d], d, v, c) {
      var v :| v in vpns && v in rv && Reaches(rv[v], v, s, c) && Reaches(rd[d], d, v, c);
      SourceReachComplete(rv, rd, dests, vpns, c, s, d, v);
    }
  }

  lemma SourceReachSound(rv: map<Asn, Routes>, rd: map<Asn, Routes>, dests: seq<Asn>, vpns: seq<Asn>, c: set<Asn>, s: Asn, d: Asn)
    requires d in SourceReach(rv, rd, dests, vpns, c)(s)
    ensures d in dests && d in rd
    ensures exists v :: v in vpns && v in rv && Reaches(rv[v], v, s, c) && Reaches(rd[d], d, v, c)
  {
    var i :| 0 <= i < |vpns| && ViaVpn(rv, s, c)(vpns[i]) && d in VpnDests(rd, dests, c)(vpns[i]);
    var v := vpns[i];
    assert v in rv && Reaches(rv[v], v, s, c);
    assert d in dests && ReachedBy(rd, v, c)(d);
  }

  lemma SourceReachComplete(rv: map<Asn, Routes>, rd: map<Asn, Routes>, dests: seq<Asn>, vpns: seq<Asn>, c: set<Asn>, s: Asn, d: Asn, v: Asn)
    requires d in dests && d in rd && v in vpns && v in rv && Reaches(rv[v], v, s, c) && Reaches(rd[d], d, v, c)
    ensures d in SourceReach(rv, rd, dests, vpns, c)(s)
  {
    var i :| 0 <= i < |vpns| && vpns[i] == v;
    assert ReachedBy(rd, v, c)(d);
    assert d in VpnDests(rd, dests, c)(v);
    assert ViaVpn(rv, s, c)(v);
  }

  function ReachSize(rv: map<Asn, Routes>, rd: map<Asn, Routes>, dests: seq<Asn>, vpns: seq<Asn>, c: set<Asn>): Asn -> int {
    s => |SourceReach(rv, rd, dests, vpns, c)(s)|
  }

  /**
   * `_get_reach_via_vpns`: the total, over mainland sources, of the number of
   * foreign destinations reachable through some VPN AS. Every destination file
   * is read first; the VPN ASes' files only when there is a source.
   */
  function ReachViaVpns(files: map<Asn, Load.Lines>, mainland: seq<Asn>, dests: seq<Asn>, vpns: seq<Asn>, c: set<Asn>): (r: Result<int>)
    ensures r.Ok? <==>
      && (forall i :: 0 <= i < |dests| ==> RoutingOf(files, dests[i]).Ok?)
      && (|mainland| > 0 ==> forall i :: 0 <= i < |vpns| ==> RoutingOf(files, vpns[i]).Ok?)
    ensures r.Ok? ==> 0 <= r.value <= |mainland| * |dests|
  {
    var rd :- LoadAll(files, dests);
    var rv :- if |mainland| == 0 then Ok(map[]) else LoadAll(files, vpns);
    ReachBound(rv, rd, mainland, dests, vpns, c);
    Ok(Sum(mainland, ReachSize(rv, rd, dests, vpns, c)))
  }

  lemma ReachBound(rv: map<Asn, Routes>, rd: map<Asn, Routes>, mainland: seq<Asn>, dests: seq<Asn>, vpns: seq<Asn>, c: set<Asn>)
    ensures 0 <= Sum(mainland, ReachSize(rv, rd, dests, vpns, c)) <= |mainland| * |dests|
  {
    var all := set d | d in dests;
    SeqSetCard(dests);
    forall s | s in mainland
      ensures ReachSize(rv, rd, dests, vpns, c)(s) <= |dests|
    {
      forall v | v in vpns
        ensures VpnDests(rd, dests, c)(v) <= all
      {
      }
      UnionOfBound(vpns, ViaVpn(rv, s, c), VpnDests(rd, dests, c), all);
      Reach.SubsetCard(SourceReach(rv, rd, dests, vpns, c)(s), all);
    }
    SumBound(mainland, ReachSize(rv, rd, dests, vpns, c), |dests|);
    SumNonNegative(mainland, ReachSize(rv, rd, dests, vpns, c));
  }

  /** `_get_all_vpn_results`: one total per requested N, under the censors of N. */
  function AllVpnResults(files: map<Asn, Load.Lines>, mainland: seq<Asn>, dests: seq<Asn>, vpns: seq<Asn>, ns: seq<int>, cbn: map<int, set<Asn>>): (r: Result<map<int, int>>)
    ensures r.Ok? ==> forall n :: n in r.value <==> n in ns
    ensures r.Ok? ==> forall n :: n in r.value ==> ReachViaVpns(files, mainland, dests, vpns, CensorsOf(cbn, n)) == Ok(r.value[n])
    ensures r.Err? ==> exists n :: n in ns && ReachViaVpns(files, mainland, dests, vpns, CensorsOf(cbn, n)).Err?
    decreases |ns|
  {
    if |ns| == 0 then Ok(map[])
    else
      var n := ns[|ns| - 1];
      var data :- AllVpnResults(files, mainland, dests, vpns, ns[..|ns| - 1], cbn);
      var total :- ReachViaVpns(files, mainland, dests, vpns, CensorsOf(cbn, n));
      assert ns == ns[..|ns| - 1] + [n];
      Ok(data[n := total])
  }
}
