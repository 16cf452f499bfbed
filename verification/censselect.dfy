/**
 * Choosing the SCION censors (source/simulation/scion/scion_cens_select.py,
 * repeated in source/report_crp_results.py): the ISD cores with the biggest
 * customer cones in the ISD's non-core view, counting only cores that have a
 * core link to a core outside the ISD.
 */
module CensSelect {
  import opened Wrappers
  import opened Utils
  import opened Topology
  import Load
  import Strings
  import CountryNet
  import ScionGen
  import ConeSize
  import ScionSim

  // ---------------------------------------------------------------------------
  // The selection loop over a ranking
  // ---------------------------------------------------------------------------

  /** The first `k` elements of `s`, or all of `s` when it is shorter. */
  function FirstOf<T>(s: seq<T>, k: nat): (r: seq<T>)
    ensures |r| == ScionGen.Min(k, |s|)
    ensures forall i :: 0 <= i < |r| ==> r[i] == s[i]
  {
    if k < |s| then s[..k] else s
  }

  /** The first `k` cores of `ranked` that pass `p`: what a selection loop should yield. */
  function Leading(ranked: seq<Asn>, p: Asn -> bool, k: nat): seq<Asn> {
    FirstOf(Filter(ranked, p), k)
  }

  /**
   * How many cores the loop as written takes for `n`: the count is compared
   * with `n` only after a core has been added, so at least one.
   */
  function AsWrittenLimit(n: int): (k: nat)
    ensures k >= 1 && (n >= 1 ==> k == n)
  {
    if n <= 1 then 1 else n
  }

  /** How many cores `n` asks for; none when `n` is not positive. */
  function FixedLimit(n: int): (k: nat)
    ensures n <= 0 ==> k == 0
    ensures n >= 0 ==> k == n
  {
    if n <= 0 then 0 else n
  }

  /** The elements of a sequence, as the set the loop fills. */
  function SetOf(s: seq<Asn>): set<Asn> {
    set a | a in s
  }

  /** A prefix of the ranking whose passing cores number `k` holds the leading `k`. */
  lemma LeadingPrefix(ranked: seq<Asn>, p: Asn -> bool, c: nat)
    requires c <= |ranked|
    ensures Leading(ranked, p, |Filter(ranked[..c], p)|) == Filter(ranked[..c], p)
  {
    assert ranked == ranked[..c] + ranked[c..];
    FilterAppend(ranked[..c], ranked[c..], p);
  }

  /** One more core of the ranking adds itself to the passing ones when it passes. */
  lemma PickStep(ranked: seq<Asn>, p: Asn -> bool, k: nat)
    requires k < |ranked|
    ensures |Filter(ranked[..k + 1], p)| == |Filter(ranked[..k], p)| + (if p(ranked[k]) then 1 else 0)
    ensures SetOf(Filter(ranked[..k + 1], p)) == SetOf(Filter(ranked[..k], p)) + (if p(ranked[k]) then {ranked[k]} else {})
  {
    assert ranked[..k + 1] == ranked[..k] + [ranked[k]];
    FilterAppend(ranked[..k], [ranked[k]], p);
    assert [ranked[k]][1..] == [];
  }

  /**
   * The loop of `select_biggest_cone_size` as written: walk the ranking,
   * skip the cores failing `p`, add the core, count it, and stop once the
   * count reaches `n`.
   */
  method PickAsWritten(ranked: seq<Asn>, p: Asn -> bool, n: int) returns (chosen: set<Asn>)
    ensures chosen == SetOf(Leading(ranked, p, AsWrittenLimit(n)))
  {
    chosen := {};
    var idx := 0;
    for k := 0 to |ranked|
      invariant idx == |Filter(ranked[..k], p)| < AsWrittenLimit(n)
      invariant chosen == SetOf(Filter(ranked[..k], p))
    {
      PickStep(ranked, p, k);
      if p(ranked[k]) {
        chosen := chosen + {ranked[k]};
        idx := idx + 1;
        if idx >= n {
          StopAt(ranked, p, k + 1, AsWrittenLimit(n));
          return;
        }
      }
    }
    StopAt(ranked, p, |ranked|, AsWrittenLimit(n));
  }

  /** Where a loop stops, the cores it holds are the leading `lim`. */
  lemma StopAt(ranked: seq<Asn>, p: Asn -> bool, c: nat, lim: nat)
    requires c <= |ranked|
    requires |Filter(ranked[..c], p)| == lim || (c == |ranked| && |Filter(ranked[..c], p)| <= lim)
    ensures SetOf(Filter(ranked[..c], p)) == SetOf(Leading(ranked, p, lim))
  {
    LeadingPrefix(ranked, p, c);
    if c == |ranked| {
      assert ranked[..c] == ranked;
    }
  }

  /** The same loop with the count compared before a core is added. */
  method PickFixed(ranked: seq<Asn>, p: Asn -> bool, n: int) returns (chosen: set<Asn>)
    ensures chosen == SetOf(Leading(ranked, p, FixedLimit(n)))
  {
    chosen := {};
    var idx := 0;
    for k := 0 to |ranked|
      invariant idx == |Filter(ranked[..k], p)| <= FixedLimit(n)
      invariant chosen == SetOf(Filter(ranked[..k], p))
    {
      if idx >= n {
        StopAt(ranked, p, k, FixedLimit(n));
        return;
      }
      PickStep(ranked, p, k);
      if p(ranked[k]) {
        chosen := chosen + {ranked[k]};
        idx := idx + 1;
      }
    }
    StopAt(ranked, p, |ranked|, FixedLimit(n));
  }

  /** The leading cores are exactly the passing cores of some prefix of the ranking. */
  lemma {:induction false} LeadingCut(ranked: seq<Asn>, p: Asn -> bool, k: nat) returns (cut: nat)
    ensures cut <= |ranked|
    ensures Leading(ranked, p, k) == Filter(ranked[..cut], p)
    decreases |ranked|
  {
    if |ranked| == 0 || k == 0 {
      cut := 0;
      assert ranked[..0] == [];
    } else {
      var rest := LeadingCut(ranked[1..], p, if p(ranked[0]) then k - 1 else k);
      cut := rest + 1;
      assert ranked[..cut] == [ranked[0]] + ranked[1..][..rest];
      assert ranked == [ranked[0]] + ranked[1..];
      FilterAppend([ranked[0]], ranked[1..][..rest], p);
      FilterAppend([ranked[0]], ranked[1..], p);
      assert [ranked[0]][1..] == [];
    }
  }

  /** A passing core left out of the leading ones sits at or after the cut. */
  lemma AfterCut(ks: seq<Asn>, p: Asn -> bool, k: nat, cut: nat, b: Asn)
    requires cut <= |ks| && Leading(ks, p, k) == Filter(ks[..cut], p)
    requires p(b) && b !in Leading(ks, p, k)
    ensures forall j :: 0 <= j < cut ==> ks[j] != b
  {
    forall j | 0 <= j < cut
      ensures ks[j] != b
    {
      assert ks[..cut][j] == ks[j];
    }
  }

  /** A leading core sits before the cut. */
  lemma BeforeCut(ks: seq<Asn>, p: Asn -> bool, k: nat, cut: nat, a: Asn) returns (i: nat)
    requires cut <= |ks| && Leading(ks, p, k) == Filter(ks[..cut], p)
    requires a in Leading(ks, p, k)
    ensures i < cut && ks[i] == a
  {
    assert a in ks[..cut];
    i :| 0 <= i < cut && ks[..cut][i] == a;
  }

  /**
   * On a ranking sorted largest first, a leading core scores at least as
   * much as every passing core left out.
   */
  lemma LeadingBiggest(ranked: Dict<Asn, int>, score: Asn -> int, p: Asn -> bool, k: nat, a: Asn, b: Asn)
    requires forall i, j :: 0 <= i < j < |ranked| ==> ranked[i].1 >= ranked[j].1
    requires forall i :: 0 <= i < |ranked| ==> ranked[i].1 == score(ranked[i].0)
    requires a in Leading(Keys(ranked), p, k)
    requires b in Keys(ranked) && p(b) && b !in Leading(Keys(ranked), p, k)
    ensures score(a) >= score(b)
  {
    var ks := Keys(ranked);
    var cut := LeadingCut(ks, p, k);
    AfterCut(ks, p, k, cut, b);
    var i := BeforeCut(ks, p, k, cut, a);
    var j :| 0 <= j < |ks| && ks[j] == b;
    assert ranked[i].1 >= ranked[j].1;
  }

  // ---------------------------------------------------------------------------
  // The censors of one ISD
  // ---------------------------------------------------------------------------

  /** `_has_foreign_connection`: a core link of the whole SCION core topology leaves the ISD. */
  function HasForeignConnection(scion: map<Asn, seq<Asn>>, isd: Load.CoreState): (p: Asn -> bool)
    ensures forall a :: p(a) <==> ScionSim.ForeignConnected(scion, isd.cores.Keys, a)
  {
    (a: Asn) => ScionSim.ForeignConnected(scion, isd.cores.Keys, a)
  }

  /** The ISD cores in the ranking with a foreign connection. */
  function ForeignIsdCores(scion: map<Asn, seq<Asn>>, isd: Load.CoreState): set<Asn> {
    set a | a in isd.order && ScionSim.ForeignConnected(scion, isd.cores.Keys, a)
  }

  /**
   * `sort_dict(isd_cone)`: the ISD cores with their cone in the non-core
   * view, largest first.
   */
  function Ranking(isd: Load.CoreState, nonCore: Topo): (r: Dict<Asn, int>)
    ensures multiset(Keys(r)) == multiset(isd.order)
    ensures forall i, j :: 0 <= i < j < |r| ==> r[i].1 >= r[j].1
    ensures forall i :: 0 <= i < |r| ==> r[i].1 == |ConeSize.Cone(nonCore, r[i].0)|
  {
    var items := ConeSize.ConeItems(nonCore, isd.order);
    var r := SortDict(items, true);
    ConeSize.SortedCones(nonCore, isd.order, items, r);
    r
  }

  /** The ranking holds the ISD cores and nothing else. */
  lemma RankingKeys(isd: Load.CoreState, nonCore: Topo)
    ensures forall a :: a in Keys(Ranking(isd, nonCore)) <==> a in isd.order
  {
    var ks := Keys(Ranking(isd, nonCore));
    forall a
      ensures a in ks <==> a in isd.order
    {
      assert a in ks <==> a in multiset(ks);
      assert a in isd.order <==> a in multiset(isd.order);
    }
  }

  /** The censors: the first `k` foreign-connected cores of the ranking. */
  function BorderCores(scion: map<Asn, seq<Asn>>, isd: Load.CoreState, nonCore: Topo, k: nat): set<Asn> {
    SetOf(Leading(Keys(Ranking(isd, nonCore)), HasForeignConnection(scion, isd), k))
  }

  /** Every censor is an ISD core with a foreign connection. */
  lemma BorderCoresForeign(scion: map<Asn, seq<Asn>>, isd: Load.CoreState, nonCore: Topo, k: nat)
    ensures BorderCores(scion, isd, nonCore, k) <= ForeignIsdCores(scion, isd)
  {
    RankingKeys(isd, nonCore);
  }

  /** No foreign-connected ISD core left out has a bigger cone than a censor. */
  lemma BorderCoresBiggest(scion: map<Asn, seq<Asn>>, isd: Load.CoreState, nonCore: Topo, k: nat)
    ensures forall a, b :: a in BorderCores(scion, isd, nonCore, k) && b in ForeignIsdCores(scion, isd)
              && b !in BorderCores(scion, isd, nonCore, k)
              ==> |ConeSize.Cone(nonCore, a)| >= |ConeSize.Cone(nonCore, b)|
  {
    var r := Ranking(isd, nonCore);
    var p := HasForeignConnection(scion, isd);
    var score := (a: Asn) => |ConeSize.Cone(nonCore, a)|;
    RankingKeys(isd, nonCore);
    forall a, b | a in BorderCores(scion, isd, nonCore, k) && b in ForeignIsdCores(scion, isd)
        && b !in BorderCores(scion, isd, nonCore, k)
      ensures |ConeSize.Cone(nonCore, a)| >= |ConeSize.Cone(nonCore, b)|
    {
      LeadingBiggest(r, score, p, k, a, b);
    }
  }

  /** With distinct ISD cores there are `k` censors, or every foreign-connected core when fewer. */
  lemma BorderCoresCount(scion: map<Asn, seq<Asn>>, isd: Load.CoreState, nonCore: Topo, k: nat)
    requires Distinct(isd.order)
    ensures |BorderCores(scion, isd, nonCore, k)| == ScionGen.Min(k, |ForeignIsdCores(scion, isd)|)
  {
    var ks := Keys(Ranking(isd, nonCore));
    var p := HasForeignConnection(scion, isd);
    var f := Filter(ks, p);
    var lead := Leading(ks, p, k);
    RankingKeys(isd, nonCore);
    assert SetOf(f) == ForeignIsdCores(scion, isd);
    PermutationDistinct(isd.order, ks);
    FilterDistinct(ks, p);
    DistinctCard(f);
    assert Distinct(lead) by {
      forall i, j | 0 <= i < j < |lead|
        ensures lead[i] != lead[j]
      {
        assert lead[i] == f[i] && lead[j] == f[j];
      }
    }
    DistinctCard(lead);
  }

  /**
   * What the censors are: foreign-connected ISD cores, none with a smaller
   * cone than a foreign-connected core left out, and `k` of them unless
   * fewer exist.
   */
  lemma BorderCoresChosen(scion: map<Asn, seq<Asn>>, isd: Load.CoreState, nonCore: Topo, k: nat)
    ensures BorderCores(scion, isd, nonCore, k) <= ForeignIsdCores(scion, isd)
    ensures forall a, b :: a in BorderCores(scion, isd, nonCore, k) && b in ForeignIsdCores(scion, isd)
              && b !in BorderCores(scion, isd, nonCore, k)
              ==> |ConeSize.Cone(nonCore, a)| >= |ConeSize.Cone(nonCore, b)|
    ensures Distinct(isd.order) ==> |BorderCores(scion, isd, nonCore, k)| == ScionGen.Min(k, |ForeignIsdCores(scion, isd)|)
  {
    BorderCoresForeign(scion, isd, nonCore, k);
    BorderCoresBiggest(scion, isd, nonCore, k);
    if Distinct(isd.order) {
      BorderCoresCount(scion, isd, nonCore, k);
    }
  }

  /** Asking for more censors never drops one already chosen. */
  lemma {:induction false} BorderCoresNested(scion: map<Asn, seq<Asn>>, isd: Load.CoreState, nonCore: Topo, k1: nat, k2: nat)
    requires k1 <= k2
    ensures BorderCores(scion, isd, nonCore, k1) <= BorderCores(scion, isd, nonCore, k2)
  {
    var f := Filter(Keys(Ranking(isd, nonCore)), HasForeignConnection(scion, isd));
    forall a | a in BorderCores(scion, isd, nonCore, k1)
      ensures a in BorderCores(scion, isd, nonCore, k2)
    {
      var i :| 0 <= i < |FirstOf(f, k1)| && FirstOf(f, k1)[i] == a;
      assert FirstOf(f, k2)[i] == a;
    }
  }

  /**
   * `_select_biggest_cone_size_ISD` as written: the cones of the ISD cores,
   * ranked, then the selection loop.
   */
  method SelectBiggestConeSizeIsd(scion: map<Asn, seq<Asn>>, isd: Load.CoreState, nonCore: Topo, n: int)
    returns (chosen: set<Asn>)
    ensures chosen == BorderCores(scion, isd, nonCore, AsWrittenLimit(n))
    ensures n >= 1 && Distinct(isd.order) ==> |chosen| == ScionGen.Min(n, |ForeignIsdCores(scion, isd)|)
  {
    var isdCone := ConeSize.CustomerConeSizeCoreIsd(isd, nonCore);
    assert isdCone == ConeSize.ConeItems(nonCore, isd.order);
    chosen := PickAsWritten(Keys(SortDict(isdCone, true)), HasForeignConnection(scion, isd), n);
    BorderCoresChosen(scion, isd, nonCore, AsWrittenLimit(n));
  }

  /** The selection with the count tested first: exactly `n` censors when that many exist. */
  method SelectBiggestConeSizeIsdFixed(scion: map<Asn, seq<Asn>>, isd: Load.CoreState, nonCore: Topo, n: int)
    returns (chosen: set<Asn>)
    ensures chosen == BorderCores(scion, isd, nonCore, FixedLimit(n))
    ensures n <= 0 ==> chosen == {}
    ensures Distinct(isd.order) ==> |chosen| == ScionGen.Min(FixedLimit(n), |ForeignIsdCores(scion, isd)|)
  {
    var isdCone := ConeSize.CustomerConeSizeCoreIsd(isd, nonCore);
    assert isdCone == ConeSize.ConeItems(nonCore, isd.order);
    chosen := PickFixed(Keys(SortDict(isdCone, true)), HasForeignConnection(scion, isd), n);
    BorderCoresChosen(scion, isd, nonCore, FixedLimit(n));
  }

  /**
   * The loop as written never comes back empty while a foreign-connected
   * core exists, even when no censor is asked for.
   */
  lemma AsWrittenNeverEmpty(scion: map<Asn, seq<Asn>>, isd: Load.CoreState, nonCore: Topo, n: int)
    requires ForeignIsdCores(scion, isd) != {}
    ensures BorderCores(scion, isd, nonCore, AsWrittenLimit(n)) != {}
    ensures n <= 0 ==> BorderCores(scion, isd, nonCore, AsWrittenLimit(n)) != BorderCores(scion, isd, nonCore, FixedLimit(n))
  {
    var ks := Keys(Ranking(isd, nonCore));
    var p := HasForeignConnection(scion, isd);
    var a :| a in ForeignIsdCores(scion, isd);
    assert a in multiset(isd.order);
    assert a in ks;
    assert a in Filter(ks, p);
    var lead := Leading(ks, p, AsWrittenLimit(n));
    assert lead[0] in BorderCores(scion, isd, nonCore, AsWrittenLimit(n));
  }

  /** One ISD core linked to a core abroad: asking for no censor still censors it. */
  lemma ZeroCensorsExample()
    ensures BorderCores(map["1" := ["2"]], Load.CoreState(["1"], map["1" := []]), map[], AsWrittenLimit(0)) == {"1"}
    ensures BorderCores(map["1" := ["2"]], Load.CoreState(["1"], map["1" := []]), map[], FixedLimit(0)) == {}
  {
    var scion: map<Asn, seq<Asn>> := map["1" := ["2"]];
    var isd := Load.CoreState(["1"], map["1" := []]);
    var nonCore: Topo := map[];
    assert "2" in Load.CoresOf(scion, "1");
    assert "1" in ForeignIsdCores(scion, isd);
    AsWrittenNeverEmpty(scion, isd, nonCore, 0);
    BorderCoresChosen(scion, isd, nonCore, AsWrittenLimit(0));
    assert ForeignIsdCores(scion, isd) == {"1"};
  }

  /**
   * `select_biggest_cone_size`: the ISD of the country, then the selection
   * as written; it fails where the ISD cannot be built.
   */
  method SelectBiggestConeSize(core: Load.CoreState, t: Topo, order: seq<Asn>, cones: Dict<Asn, int>,
                               m: CountryNet.CountryMap, country: string, n: int)
    returns (r: Result<set<Asn>>)
    ensures r.Err? <==> CountryNet.GetMainland(t, order, m, country).Err?
    ensures r.Ok? ==> var isd := ScionGen.GetIsdTopos(core, t, order, cones, m, country).value;
                      r.value == BorderCores(core.cores, isd.0, isd.1, AsWrittenLimit(n))
  {
    var topos := ScionGen.GetIsdTopos(core, t, order, cones, m, country);
    if topos.Err? {
      return Err(topos.error);
    }
    var chosen := SelectBiggestConeSizeIsd(core.cores, topos.value.0, topos.value.1, n);
    return Ok(chosen);
  }

  // ---------------------------------------------------------------------------
  // Results files of the other architectures
  // ---------------------------------------------------------------------------

  /**
   * `_bgp_vpn_load`: the censor sets, the number of potential censors and
   * the reach per N of a results file, refused when the file names another
   * country.
   */
  function BgpVpnLoad(country: string, lines: Load.Lines): (r: Result<(map<int, set<Asn>>, int, map<int, int>)>)
    ensures r.Ok? <==> Load.LoadBgpCrpResults(lines).Ok? && Load.LoadBgpCrpResults(lines).value.0 == country
    ensures Load.LoadBgpCrpResults(lines).Ok? && Load.LoadBgpCrpResults(lines).value.0 != country
            ==> r == Err(LabelMismatch)
  {
    var (c, censors, total, results) :- Load.LoadBgpCrpResults(lines);
    if c != country then Err(LabelMismatch) else Ok((censors, total, results))
  }

  /**
   * A file saved for a country reads back for that country and is refused
   * for any other.
   */
  lemma BgpVpnLoadSaved(country: string, other: string, pot: int, cs: seq<(int, seq<Asn>)>, data: Dict<int, int>)
    requires Strings.FieldOk(country)
    requires forall i :: 0 <= i < |cs| ==> Load.CleanList(cs[i].1)
    ensures BgpVpnLoad(country, Load.SaveBgpResults(country, pot, cs, data))
         == Ok((ToMap(Load.ReadBackItems(cs)), pot, ToMap(data)))
    ensures other != country ==> BgpVpnLoad(other, Load.SaveBgpResults(country, pot, cs, data)) == Err(LabelMismatch)
  {
    Load.LoadSaveBgpResults(country, pot, cs, data);
  }
}
