/**
 * Global reachability under a group of hegemon countries: how many
 * (source, destination) routes in the whole topology avoid every AS whose
 * country of origin is a hegemon, directly over BGP or through a VPN AS.
 *
 * `as_info` is a `defaultdict(list)`, so the origin of an AS without a label
 * is `[][0]` and raises IndexError; a routing file that does not parse raises
 * out of `load_routing_topo`. Neither is caught, so both end the run: every
 * operation here returns a `Result` that carries them.
 */
module GlobalReach {
  import opened Wrappers
  import opened Utils
  import opened Topology
  import Load
  import Walks
  import Reach
  import Strings

  /** AS id to its list of country codes, as read from the AS-info file. */
  type AsInfo = map<Asn, seq<string>>

  /** An AS registered in several countries is relabelled `['-']`. */
  function Relabel(info: AsInfo): (r: AsInfo)
    ensures r.Keys == info.Keys
    ensures forall a :: a in info && |info[a]| > 1 ==> r[a] == ["-"]
    ensures forall a :: a in info && |info[a]| <= 1 ==> r[a] == info[a]
  {
    map a | a in info :: if |info[a]| > 1 then ["-"] else info[a]
  }

  /** After relabelling every AS has at most one country, so relabelling again changes nothing. */
  lemma RelabelIdempotent(info: AsInfo)
    ensures Relabel(Relabel(info)) == Relabel(info)
  {
  }

  /** The AS has a first country code to read. */
  predicate Labelled(info: AsInfo, a: Asn) {
    a in info && |info[a]| > 0
  }

  /** `_country_origin(asn) in hegemons`, for an AS that has a label. */
  predicate HegemonOrigin(info: AsInfo, hegs: set<string>, a: Asn) {
    Labelled(info, a) && info[a][0] in hegs
  }

  /**
   * Relabelling keeps who has a label; an AS of several countries is of
   * hegemon origin only if `-` is a hegemon code, one of a single country
   * exactly when that country is a hegemon.
   */
  lemma RelabelledOrigin(info: AsInfo, hegs: set<string>, a: Asn)
    ensures Labelled(Relabel(info), a) <==> Labelled(info, a)
    ensures a in info && |info[a]| > 1 ==> (HegemonOrigin(Relabel(info), hegs, a) <==> "-" in hegs)
    ensures a in info && |info[a]| == 1 ==> (HegemonOrigin(Relabel(info), hegs, a) <==> info[a][0] in hegs)
  {
  }

  /** `_country_origin(a) in hegemons`, raising for an AS without a label. */
  function OriginIn(info: AsInfo, hegs: set<string>, a: Asn): (r: Result<bool>)
    ensures r.Err? <==> !Labelled(info, a)
    ensures r.Err? ==> r.error == Lookup
    ensures r.Ok? ==> (r.value <==> HegemonOrigin(info, hegs, a))
  {
    if Labelled(info, a) then Ok(info[a][0] in hegs) else Err(Lookup)
  }

  // ---------------------------------------------------------------------------
  // The walk
  // ---------------------------------------------------------------------------

  /**
   * `_is_intercepted`: from `a`, look up each AS's origin before taking its
   * next hop, until the destination. An AS without an entry leads nowhere
   * the lookup can follow; the walk is cut after `fuel` hops.
   */
  function InterceptedWalk(r: Routes, d: Asn, a: Asn, info: AsInfo, hegs: set<string>, fuel: nat): (w: Result<bool>)
    ensures w.Err? ==> w.error == Lookup
    decreases fuel
  {
    if a == d then Ok(false)
    else
      var h :- OriginIn(info, hegs, a);
      if h then Ok(true)
      else if a !in r then Err(Lookup)
      else if fuel == 0 then Ok(false)
      else InterceptedWalk(r, d, r[a], info, hegs, fuel - 1)
  }

  /**
   * `_could_reach` against hegemons. The source's origin is read first and
   * the destination's only when the source is not a hegemon; with no hegemons
   * an entry suffices, otherwise the walk must not be intercepted.
   */
  function Reached(r: Routes, d: Asn, s: Asn, info: AsInfo, hegs: set<string>): (c: Result<bool>)
    ensures c.Err? ==> c.error == Lookup
  {
    var hs :- OriginIn(info, hegs, s);
    if hs then Ok(false)
    else
      var hd :- OriginIn(info, hegs, d);
      if hd then Ok(false)
      else if |hegs| == 0 then Ok(s in r)
      else if s !in r then Ok(false)
      else
        var hit :- InterceptedWalk(r, d, s, info, hegs, |r|);
        Ok(!hit)
  }

  /** Among the first `n` ASes from `a`, one without a label comes before any of hegemon origin. */
  ghost predicate UnlabelledFirst(r: Routes, a: Asn, n: nat, info: AsInfo, hegs: set<string>) {
    exists k: nat :: k < n && !Labelled(info, Walks.Iter(r, a, k))
      && forall j: nat :: j < k ==> !HegemonOrigin(info, hegs, Walks.Iter(r, a, j))
  }

  /** Among the first `n` ASes from `a`, one is of hegemon origin. */
  ghost predicate HegemonOnWalk(r: Routes, a: Asn, n: nat, info: AsInfo, hegs: set<string>) {
    exists k: nat :: k < n && HegemonOrigin(info, hegs, Walks.Iter(r, a, k))
  }

  /** Every one of the first `n` ASes from `a` is labelled and not of hegemon origin. */
  ghost predicate ClearWalk(r: Routes, a: Asn, n: nat, info: AsInfo, hegs: set<string>) {
    forall k: nat :: k < n ==> Labelled(info, Walks.Iter(r, a, k)) && !HegemonOrigin(info, hegs, Walks.Iter(r, a, k))
  }

  /** A walk that neither meets an unlabelled AS first nor a hegemon is clear, and conversely. */
  lemma ClearWalkSplit(r: Routes, a: Asn, n: nat, info: AsInfo, hegs: set<string>)
    ensures ClearWalk(r, a, n, info, hegs) <==> !UnlabelledFirst(r, a, n, info, hegs) && !HegemonOnWalk(r, a, n, info, hegs)
  {
    if !UnlabelledFirst(r, a, n, info, hegs) && !HegemonOnWalk(r, a, n, info, hegs) {
      forall k: nat | k < n
        ensures Labelled(info, Walks.Iter(r, a, k))
      {
        assert forall j: nat :: j < k ==> !HegemonOrigin(info, hegs, Walks.Iter(r, a, j));
      }
    }
  }

  /** Past a labelled, non-hegemon first AS, the walk from `a` is the walk from its next hop. */
  lemma ShiftWalk(r: Routes, a: Asn, n: nat, info: AsInfo, hegs: set<string>)
    requires a in r && Labelled(info, a) && !HegemonOrigin(info, hegs, a)
    ensures UnlabelledFirst(r, a, n + 1, info, hegs) <==> UnlabelledFirst(r, r[a], n, info, hegs)
    ensures HegemonOnWalk(r, a, n + 1, info, hegs) <==> HegemonOnWalk(r, r[a], n, info, hegs)
  {
    assert Walks.Iter(r, a, 0) == a;
    assert forall k: nat :: Walks.Iter(r, a, k + 1) == Walks.Iter(r, r[a], k);
    if UnlabelledFirst(r, a, n + 1, info, hegs) {
      var k: nat :| k < n + 1 && !Labelled(info, Walks.Iter(r, a, k))
        && forall j: nat :: j < k ==> !HegemonOrigin(info, hegs, Walks.Iter(r, a, j));
      assert k > 0;
      forall j: nat | j < k - 1
        ensures !HegemonOrigin(info, hegs, Walks.Iter(r, r[a], j))
      {
        assert Walks.Iter(r, a, j + 1) == Walks.Iter(r, r[a], j);
      }
      assert !Labelled(info, Walks.Iter(r, r[a], k - 1));
    }
    if UnlabelledFirst(r, r[a], n, info, hegs) {
      var k: nat :| k < n && !Labelled(info, Walks.Iter(r, r[a], k))
        && forall j: nat :: j < k ==> !HegemonOrigin(info, hegs, Walks.Iter(r, r[a], j));
      forall j: nat | j < k + 1
        ensures !HegemonOrigin(info, hegs, Walks.Iter(r, a, j))
      {
        if j > 0 {
          assert Walks.Iter(r, a, j) == Walks.Iter(r, r[a], j - 1);
        }
      }
      assert !Labelled(info, Walks.Iter(r, a, k + 1));
    }
    if HegemonOnWalk(r, a, n + 1, info, hegs) {
      var k: nat :| k < n + 1 && HegemonOrigin(info, hegs, Walks.Iter(r, a, k));
      assert k > 0;
      assert HegemonOrigin(info, hegs, Walks.Iter(r, r[a], k - 1));
    }
    if HegemonOnWalk(r, r[a], n, info, hegs) {
      var k: nat :| k < n && HegemonOrigin(info, hegs, Walks.Iter(r, r[a], k));
      assert HegemonOrigin(info, hegs, Walks.Iter(r, a, k + 1));
    }
  }

  /**
   * On a ranked tree the walk raises exactly when an unlabelled AS comes before
   * any hegemon, and reports interception exactly when it meets a hegemon first.
   */
  lemma {:induction false} WalkSpec(r: Routes, d: Asn, len: map<Asn, nat>, a: Asn, info: AsInfo, hegs: set<string>, fuel: nat)
    requires Walks.RoutesRanked(r, d, len) && (a in r || a == d) && fuel >= len[a]
    ensures InterceptedWalk(r, d, a, info, hegs, fuel).Err? <==> UnlabelledFirst(r, a, len[a], info, hegs)
    ensures InterceptedWalk(r, d, a, info, hegs, fuel) == Ok(true) <==>
      !UnlabelledFirst(r, a, len[a], info, hegs) && HegemonOnWalk(r, a, len[a], info, hegs)
    decreases fuel
  {
    if a != d {
      assert a in r && len[a] == len[r[a]] + 1;
      assert Walks.Iter(r, a, 0) == a;
      if !Labelled(info, a) {
        assert UnlabelledFirst(r, a, len[a], info, hegs);
      } else if HegemonOrigin(info, hegs, a) {
        assert HegemonOnWalk(r, a, len[a], info, hegs);
        assert !UnlabelledFirst(r, a, len[a], info, hegs);
      } else {
        WalkSpec(r, d, len, r[a], info, hegs, fuel - 1);
        ShiftWalk(r, a, len[r[a]], info, hegs);
      }
    }
  }

  /**
   * On a ranked tree `_could_reach` raises iff an origin it reads is missing:
   * the source's, the destination's behind a non-hegemon source, or one on
   * the walk before any hegemon. It returns `True` iff the source has an entry,
   * neither end is a hegemon, and (with hegemons) every AS on the walk is
   * labelled and not of hegemon origin.
   */
  lemma ReachedSpec(r: Routes, d: Asn, len: map<Asn, nat>, s: Asn, info: AsInfo, hegs: set<string>)
    requires Walks.RoutesRanked(r, d, len)
    ensures Reached(r, d, s, info, hegs).Err? <==>
      || !Labelled(info, s)
      || (!HegemonOrigin(info, hegs, s) && !Labelled(info, d))
      || (&& !HegemonOrigin(info, hegs, s) && !HegemonOrigin(info, hegs, d) && |hegs| > 0 && s in r
          && UnlabelledFirst(r, s, len[s], info, hegs))
    ensures Reached(r, d, s, info, hegs) == Ok(true) <==>
      && Labelled(info, s) && Labelled(info, d) && s in r && !HegemonOrigin(info, hegs, d)
      && (|hegs| == 0 || ClearWalk(r, s, len[s], info, hegs))
  {
    if s in r {
      Walks.RankBound(r, d, len, s);
      WalkSpec(r, d, len, s, info, hegs, |r|);
      ClearWalkSplit(r, s, len[s], info, hegs);
      assert Walks.Iter(r, s, 0) == s;
      if HegemonOrigin(info, hegs, s) {
        assert !ClearWalk(r, s, len[s], info, hegs);
      }
    }
  }

  /** On a loop-free tree whose entries are all labelled, no walk raises. */
  lemma {:induction false} WalkLabelled(r: Routes, d: Asn, len: map<Asn, nat>, a: Asn, info: AsInfo, hegs: set<string>)
    requires Walks.RoutesRanked(r, d, len) && a in r
    requires forall x :: x in r ==> Labelled(info, x)
    ensures !UnlabelledFirst(r, a, len[a], info, hegs)
  {
    forall k: nat | k < len[a]
      ensures Labelled(info, Walks.Iter(r, a, k))
    {
      Walks.IterRank(r, d, len, a, k);
    }
  }

  /** A routing file that parses, and, when it is for `d`, holds a loop-free tree of labelled entries. */
  ghost predicate SoundFile(files: map<Asn, Load.Lines>, info: AsInfo, d: Asn) {
    d in files ==>
      && Load.LoadRoutingTopo(files[d]).Ok?
      && (Load.LoadRoutingTopo(files[d]).value.0 == d ==>
            && Walks.LoopFree(Load.LoadRoutingTopo(files[d]).value.1, d)
            && forall x :: x in Load.LoadRoutingTopo(files[d]).value.1 ==> Labelled(info, x))
  }

  /** Between labelled ends of a loop-free tree of labelled entries `_could_reach` never raises. */
  lemma ReachedOk(r: Routes, d: Asn, s: Asn, info: AsInfo, hegs: set<string>)
    requires Walks.LoopFree(r, d) && forall x :: x in r ==> Labelled(info, x)
    requires Labelled(info, s) && Labelled(info, d)
    ensures Reached(r, d, s, info, hegs).Ok?
  {
    var len :| Walks.RoutesRanked(r, d, len);
    ReachedSpec(r, d, len, s, info, hegs);
    if s in r {
      WalkLabelled(r, d, len, s, info, hegs);
    }
  }

  // ---------------------------------------------------------------------------
  // Routing files
  // ---------------------------------------------------------------------------

  /**
   * `_routing_topo_of_destination`: `None` when the file is missing or names
   * another destination; a file that does not parse raises.
   */
  function Routing(files: map<Asn, Load.Lines>, d: Asn): (r: Result<Option<Routes>>)
    ensures r.Err? <==> d in files && Load.LoadRoutingTopo(files[d]).Err?
    ensures r.Err? ==> r.error == Load.LoadRoutingTopo(files[d]).error
    ensures r == Ok(None) <==> d !in files || (Load.LoadRoutingTopo(files[d]).Ok? && Load.LoadRoutingTopo(files[d]).value.0 != d)
    ensures r.Ok? && r.value.Some? ==> r.value.value == Load.LoadRoutingTopo(files[d]).value.1
  {
    if d !in files then Ok(None)
    else
      var (d', routes) :- Load.LoadRoutingTopo(files[d]);
      Ok(if d' != d then None else Some(routes))
  }

  /** The tree a run uses for `d`, if it has one. */
  function Loaded(files: map<Asn, Load.Lines>, d: Asn): Option<Routes> {
    if Routing(files, d).Ok? then Routing(files, d).value else None
  }

  /** A file the simulator saved for `d` is the tree `_routing_topo_of_destination` hands back. */
  lemma SavedRouting(files: map<Asn, Load.Lines>, d: Asn, order: seq<Asn>, routing: map<Asn, Option<Asn>>)
    requires forall a :: a in order <==> a in routing
    requires Strings.FieldOk(d) && Load.RoutingClean(routing)
    requires d in files && files[d] == Load.SaveRoutingTopo(d, order, routing)
    ensures Routing(files, d) == Ok(Some(Load.Present(routing)))
  {
    Load.LoadSaveRoutingTopo(d, order, routing);
  }

  // ---------------------------------------------------------------------------
  // BGP global reach
  // ---------------------------------------------------------------------------

  /** The sources `_not_intercepted` counts: entries other than the destination, not of hegemon origin. */
  function Sources(r: Routes, d: Asn, info: AsInfo, hegs: set<string>): set<Asn> {
    set s | s in r && s != d && !HegemonOrigin(info, hegs, s)
  }

  /** Those of them for which `_could_reach` returns `True`. */
  function FreeSources(r: Routes, d: Asn, info: AsInfo, hegs: set<string>): set<Asn> {
    set s | s in Sources(r, d, info, hegs) && Reached(r, d, s, info, hegs) == Ok(true)
  }

  /** The pass of `_not_intercepted` over the entry `s` raises. */
  predicate SourceFails(r: Routes, d: Asn, info: AsInfo, hegs: set<string>, s: Asn) {
    s != d && (!Labelled(info, s) || (!HegemonOrigin(info, hegs, s) && Reached(r, d, s, info, hegs).Err?))
  }

  /**
   * `_reachability_by_dest`: an unlabelled destination raises; a hegemon one,
   * or one whose routing file is missing or for another destination, adds
   * (0, 0); an unparsable file raises; otherwise the counts of the sources and
   * of those not intercepted, unless some entry raises on the way.
   */
  function DestCounts(files: map<Asn, Load.Lines>, info: AsInfo, hegs: set<string>, d: Asn): (c: Result<(int, int)>)
    ensures !Labelled(info, d) ==> c == Err(Lookup)
    ensures HegemonOrigin(info, hegs, d) ==> c == Ok((0, 0))
    ensures Labelled(info, d) && !HegemonOrigin(info, hegs, d) ==>
      && (d !in files ==> c == Ok((0, 0)))
      && (d in files && Load.LoadRoutingTopo(files[d]).Err? ==> c == Err(Load.LoadRoutingTopo(files[d]).error))
      && (d in files && Load.LoadRoutingTopo(files[d]).Ok? && Load.LoadRoutingTopo(files[d]).value.0 != d ==> c == Ok((0, 0)))
    ensures (&& Labelled(info, d) && !HegemonOrigin(info, hegs, d)
             && d in files && Load.LoadRoutingTopo(files[d]).Ok? && Load.LoadRoutingTopo(files[d]).value.0 == d) ==>
        var r := Load.LoadRoutingTopo(files[d]).value.1;
        && (c.Err? <==> exists s :: s in r && SourceFails(r, d, info, hegs, s))
        && (c.Err? ==> c.error == Lookup)
        && (c.Ok? ==> c.value == (|Sources(r, d, info, hegs)|, |FreeSources(r, d, info, hegs)|))
    ensures c.Ok? ==> 0 <= c.value.1 <= c.value.0
  {
    var hd :- OriginIn(info, hegs, d);
    if hd then Ok((0, 0))
    else
      var routing :- Routing(files, d);
      match routing
      case None => Ok((0, 0))
      case Some(r) =>
        if exists s :: s in r && SourceFails(r, d, info, hegs, s) then Err(Lookup)
        else
          FreeFewer(r, d, info, hegs);
          Ok((|Sources(r, d, info, hegs)|, |FreeSources(r, d, info, hegs)|))
  }

  lemma FreeFewer(r: Routes, d: Asn, info: AsInfo, hegs: set<string>)
    ensures |FreeSources(r, d, info, hegs)| <= |Sources(r, d, info, hegs)|
  {
    Reach.SubsetCard(FreeSources(r, d, info, hegs), Sources(r, d, info, hegs));
  }

  /** A labelled destination with a sound routing file never raises. */
  lemma DestCountsOk(files: map<Asn, Load.Lines>, info: AsInfo, hegs: set<string>, d: Asn)
    requires Labelled(info, d) && SoundFile(files, info, d)
    ensures DestCounts(files, info, hegs, d).Ok?
  {
    if !HegemonOrigin(info, hegs, d) && Routing(files, d).value.Some? {
      var r := Routing(files, d).value.value;
      forall s | s in r
        ensures !SourceFails(r, d, info, hegs, s)
      {
        if s != d {
          ReachedOk(r, d, s, info, hegs);
        }
      }
    }
  }

  /** Without hegemons every counted path is free. */
  lemma AllFreeWithoutHegemons(files: map<Asn, Load.Lines>, info: AsInfo, d: Asn)
    ensures DestCounts(files, info, {}, d).Ok? ==> DestCounts(files, info, {}, d).value.1 == DestCounts(files, info, {}, d).value.0
  {
    if DestCounts(files, info, {}, d).Ok? && Labelled(info, d) && Routing(files, d).value.Some? {
      var r := Routing(files, d).value.value;
      forall s | s in Sources(r, d, info, {})
        ensures s in FreeSources(r, d, info, {})
      {
        assert !SourceFails(r, d, info, {}, s);
      }
      assert FreeSources(r, d, info, {}) == Sources(r, d, info, {});
    }
  }

  /**
   * `_not_intercepted`: one pass over the routing entries counting the sources
   * and those whose route avoids the hegemons, stopping at the first that raises.
   */
  method NotIntercepted(r: Routes, d: Asn, info: AsInfo, hegs: set<string>) returns (c: Result<(int, int)>)
    ensures c.Err? <==> exists s :: s in r && SourceFails(r, d, info, hegs, s)
    ensures c.Err? ==> c.error == Lookup
    ensures c.Ok? ==> c.value == (|Sources(r, d, info, hegs)|, |FreeSources(r, d, info, hegs)|)
  {
    var todo := r.Keys;
    ghost var done: set<Asn> := {};
    var paths, free := 0, 0;
    while todo != {}
      invariant CountInv(r, d, info, hegs, todo, done, paths, free)
      invariant forall s :: s in done ==> !SourceFails(r, d, info, hegs, s)
      decreases |todo|
    {
      var s :| s in todo;
      var p, f := paths, free;
      if s != d {
        var hs := OriginIn(info, hegs, s);
        if hs.Err? {
          assert SourceFails(r, d, info, hegs, s);
          return Err(hs.error);
        }
        if !hs.value {
          p := p + 1;
          var ok := Reached(r, d, s, info, hegs);
          if ok.Err? {
            assert SourceFails(r, d, info, hegs, s);
            return Err(ok.error);
          }
          if ok.value {
            f := f + 1;
          }
        }
      }
      CountAdvance(r, d, info, hegs, todo, done, paths, free, s, p, f);
      todo, done, paths, free := todo - {s}, done + {s}, p, f;
    }
    CountDone(r, d, info, hegs, done, paths, free);
    return Ok((paths, free));
  }

  /** The entries already visited have been counted. */
  ghost predicate CountInv(r: Routes, d: Asn, info: AsInfo, hegs: set<string>, todo: set<Asn>, done: set<Asn>, paths: int, free: int) {
    && todo !! done && todo + done == r.Keys
    && paths == |Sources(r, d, info, hegs) * done|
    && free == |FreeSources(r, d, info, hegs) * done|
  }

  lemma CountAdvance(r: Routes, d: Asn, info: AsInfo, hegs: set<string>, todo: set<Asn>, done: set<Asn>, paths: int, free: int, s: Asn, p: int, f: int)
    requires CountInv(r, d, info, hegs, todo, done, paths, free) && s in todo
    requires p == paths + (if s != d && !HegemonOrigin(info, hegs, s) then 1 else 0)
    requires f == free + (if s != d && !HegemonOrigin(info, hegs, s) && Reached(r, d, s, info, hegs) == Ok(true) then 1 else 0)
    ensures CountInv(r, d, info, hegs, todo - {s}, done + {s}, p, f)
    ensures |todo - {s}| < |todo|
  {
    MoveOne(todo, done, s);
    CountStep(Sources(r, d, info, hegs), done, s);
    CountStep(FreeSources(r, d, info, hegs), done, s);
  }

  lemma CountDone(r: Routes, d: Asn, info: AsInfo, hegs: set<string>, done: set<Asn>, paths: int, free: int)
    requires CountInv(r, d, info, hegs, {}, done, paths, free)
    ensures paths == |Sources(r, d, info, hegs)|
    ensures free == |FreeSources(r, d, info, hegs)|
  {
    assert Sources(r, d, info, hegs) * done == Sources(r, d, info, hegs);
    assert FreeSources(r, d, info, hegs) * done == FreeSources(r, d, info, hegs);
  }

  lemma MoveOne(todo: set<Asn>, done: set<Asn>, s: Asn)
    requires s in todo && todo !! done
    ensures (todo - {s}) !! (done + {s}) && (todo - {s}) + (done + {s}) == todo + done
    ensures s !in done && |todo - {s}| < |todo|
  {
  }

  /** Adding a fresh element to the visited part grows its intersection with `a` by at most that element. */
  lemma CountStep(a: set<Asn>, done: set<Asn>, s: Asn)
    requires s !in done
    ensures |a * (done + {s})| == |a * done| + (if s in a then 1 else 0)
  {
    if s in a {
      assert a * (done + {s}) == (a * done) + {s};
    } else {
      assert a * (done + {s}) == a * done;
    }
  }

  /** `_reachability_by_dest`, step by step. */
  method ReachabilityByDest(files: map<Asn, Load.Lines>, info: AsInfo, hegs: set<string>, d: Asn) returns (c: Result<(int, int)>)
    ensures c == DestCounts(files, info, hegs, d)
  {
    var hd := OriginIn(info, hegs, d);
    if hd.Err? {
      return Err(hd.error);
    }
    if hd.value {
      return Ok((0, 0));
    }
    var routing := Routing(files, d);
    if routing.Err? {
      return Err(routing.error);
    }
    if routing.value.None? {
      return Ok((0, 0));
    }
    c := NotIntercepted(routing.value.value, d, info, hegs);
  }

  /** What a destination adds to the path total in a run that does not raise. */
  function PathsOf(files: map<Asn, Load.Lines>, info: AsInfo, hegs: set<string>): Asn -> int {
    d => if DestCounts(files, info, hegs, d).Ok? then DestCounts(files, info, hegs, d).value.0 else 0
  }

  /** What a destination adds to the not-intercepted total in a run that does not raise. */
  function FreeOf(files: map<Asn, Load.Lines>, info: AsInfo, hegs: set<string>): Asn -> int {
    d => if DestCounts(files, info, hegs, d).Ok? then DestCounts(files, info, hegs, d).value.1 else 0
  }

  /** No destination of `all` raises. */
  ghost predicate AllCount(files: map<Asn, Load.Lines>, info: AsInfo, hegs: set<string>, all: seq<Asn>) {
    forall d :: d in all ==> DestCounts(files, info, hegs, d).Ok?
  }

  /**
   * `_global_reach_potentials`: both totals summed over every destination of
   * the topology, or the first destination's exception.
   */
  method GlobalReachPotentials(files: map<Asn, Load.Lines>, info: AsInfo, hegs: set<string>, all: seq<Asn>) returns (res: Result<(int, int)>)
    ensures res.Ok? <==> AllCount(files, info, hegs, all)
    ensures res.Err? ==> exists i :: (0 <= i < |all| && DestCounts(files, info, hegs, all[i]) == Err(res.error)
      && forall j :: 0 <= j < i ==> DestCounts(files, info, hegs, all[j]).Ok?)
    ensures res.Ok? ==> res.value == (Sum(all, PathsOf(files, info, hegs)), Sum(all, FreeOf(files, info, hegs)))
    ensures res.Ok? ==> 0 <= res.value.1 <= res.value.0
  {
    var paths, free := 0, 0;
    var i := 0;
    while i < |all|
      invariant 0 <= i <= |all|
      invariant forall j :: 0 <= j < i ==> DestCounts(files, info, hegs, all[j]).Ok?
      invariant paths == Sum(all[..i], PathsOf(files, info, hegs))
      invariant free == Sum(all[..i], FreeOf(files, info, hegs))
      decreases |all| - i
    {
      var c := ReachabilityByDest(files, info, hegs, all[i]);
      if c.Err? {
        FailsAt(files, info, hegs, all, i);
        return Err(c.error);
      }
      PotentialsStep(files, info, hegs, all, i);
      paths, free := paths + c.value.0, free + c.value.1;
      i := i + 1;
    }
    PotentialsDone(files, info, hegs, all);
    return Ok((paths, free));
  }

  /** The first destination that raises decides the run's exception. */
  lemma FailsAt(files: map<Asn, Load.Lines>, info: AsInfo, hegs: set<string>, all: seq<Asn>, i: int)
    requires 0 <= i < |all| && DestCounts(files, info, hegs, all[i]).Err?
    requires forall j :: 0 <= j < i ==> DestCounts(files, info, hegs, all[j]).Ok?
    ensures !AllCount(files, info, hegs, all)
    ensures exists k :: (0 <= k < |all| && DestCounts(files, info, hegs, all[k]) == Err(DestCounts(files, info, hegs, all[i]).error)
      && forall j :: 0 <= j < k ==> DestCounts(files, info, hegs, all[j]).Ok?)
  {
    assert all[i] in all;
  }

  lemma PotentialsStep(files: map<Asn, Load.Lines>, info: AsInfo, hegs: set<string>, all: seq<Asn>, i: int)
    requires 0 <= i < |all|
    ensures Sum(all[..i + 1], PathsOf(files, info, hegs)) == Sum(all[..i], PathsOf(files, info, hegs)) + PathsOf(files, info, hegs)(all[i])
    ensures Sum(all[..i + 1], FreeOf(files, info, hegs)) == Sum(all[..i], FreeOf(files, info, hegs)) + FreeOf(files, info, hegs)(all[i])
  {
    assert all[..i + 1] == all[..i] + [all[i]];
    SumSnoc(all[..i], all[i], PathsOf(files, info, hegs));
    SumSnoc(all[..i], all[i], FreeOf(files, info, hegs));
  }

  lemma PotentialsDone(files: map<Asn, Load.Lines>, info: AsInfo, hegs: set<string>, all: seq<Asn>)
    requires forall j :: 0 <= j < |all| ==> DestCounts(files, info, hegs, all[j]).Ok?
    ensures all[..|all|] == all
    ensures AllCount(files, info, hegs, all)
    ensures 0 <= Sum(all, FreeOf(files, info, hegs)) <= Sum(all, PathsOf(files, info, hegs))
  {
    assert all[..|all|] == all;
    forall d | d in all
      ensures DestCounts(files, info, hegs, d).Ok?
    {
      var j :| 0 <= j < |all| && all[j] == d;
    }
    TotalsOrdered(files, info, hegs, all);
  }

  /** Not-intercepted paths never outnumber paths, in total as per destination. */
  lemma TotalsOrdered(files: map<Asn, Load.Lines>, info: AsInfo, hegs: set<string>, all: seq<Asn>)
    ensures 0 <= Sum(all, FreeOf(files, info, hegs)) <= Sum(all, PathsOf(files, info, hegs))
  {
    SumNonNegative(all, FreeOf(files, info, hegs));
    SumMonotone(all, FreeOf(files, info, hegs), PathsOf(files, info, hegs));
  }

  /** The shuffle of the destinations changes neither whether the run raises nor its totals. */
  lemma TotalsShuffle(files: map<Asn, Load.Lines>, info: AsInfo, hegs: set<string>, a: seq<Asn>, b: seq<Asn>)
    requires multiset(a) == multiset(b)
    ensures AllCount(files, info, hegs, a) <==> AllCount(files, info, hegs, b)
    ensures Sum(a, PathsOf(files, info, hegs)) == Sum(b, PathsOf(files, info, hegs))
    ensures Sum(a, FreeOf(files, info, hegs)) == Sum(b, FreeOf(files, info, hegs))
  {
    forall d
      ensures d in a <==> d in b
    {
      assert d in a <==> d in multiset(a);
      assert d in b <==> d in multiset(b);
    }
    SumPermutation(a, b, PathsOf(files, info, hegs));
    SumPermutation(a, b, FreeOf(files, info, hegs));
  }

  // ---------------------------------------------------------------------------
  // VPN global reach
  // ---------------------------------------------------------------------------

  /** Apply `f` along `xs` in order, stopping at the first exception. */
  function Each<T>(xs: seq<Asn>, f: Asn -> Result<T>): (r: Result<()>)
    ensures r.Ok? <==> forall x :: x in xs ==> f(x).Ok?
    ensures r.Err? ==> exists i :: (0 <= i < |xs| && f(xs[i]).Err? && f(xs[i]).error == r.error
      && forall j :: 0 <= j < i ==> f(xs[j]).Ok?)
    decreases |xs|
  {
    if |xs| == 0 then Ok(())
    else if f(xs[0]).Err? then Err(f(xs[0]).error)
    else
      assert forall x :: x in xs <==> x == xs[0] || x in xs[1..];
      Each(xs[1..], f)
  }

  /**
   * The first loop of the VPN `_global_reach_potentials` at destination `d`:
   * its origin, its routing file, and each VPN AS's `_could_reach` to it.
   */
  function DestPass(files: map<Asn, Load.Lines>, info: AsInfo, hegs: set<string>, vpns: seq<Asn>, d: Asn): Result<()> {
    var hd :- OriginIn(info, hegs, d);
    if hd then Ok(())
    else
      var routing :- Routing(files, d);
      match routing
      case None => Ok(())
      case Some(r) => Each(vpns, v => Reached(r, d, v, info, hegs))
  }

  /** The second loop at one VPN AS: its routing file and the source's `_could_reach` to it. */
  function ViaStep(files: map<Asn, Load.Lines>, info: AsInfo, hegs: set<string>, v: Asn, s: Asn): Result<bool> {
    var routing :- Routing(files, v);
    match routing
    case None => Ok(false)
    case Some(r) => Reached(r, v, s, info, hegs)
  }

  /** The second loop at source `s`: its origin, then each VPN AS in turn. */
  function SourcePass(files: map<Asn, Load.Lines>, info: AsInfo, hegs: set<string>, vpns: seq<Asn>, s: Asn): Result<()> {
    var hs :- OriginIn(info, hegs, s);
    if hs then Ok(()) else Each(vpns, v => ViaStep(files, info, hegs, v, s))
  }

  /** A destination the VPN AS has a route to: not of hegemon origin, with a tree for it. */
  function VpnPlain(files: map<Asn, Load.Lines>, info: AsInfo, hegs: set<string>, all: seq<Asn>): Asn -> set<Asn> {
    v => set d | d in all && !HegemonOrigin(info, hegs, d) && Loaded(files, d).Some? && v in Loaded(files, d).value
  }

  /** The destinations for which the VPN AS's `_could_reach` returns `True`. */
  function VpnFree(files: map<Asn, Load.Lines>, info: AsInfo, hegs: set<string>, all: seq<Asn>): Asn -> set<Asn> {
    v => set d | d in all && !HegemonOrigin(info, hegs, d) && Loaded(files, d).Some?
      && Reached(Loaded(files, d).value, d, v, info, hegs) == Ok(true)
  }

  /** A VPN AS the source has a route to. */
  function ViaPlain(files: map<Asn, Load.Lines>, s: Asn): Asn -> bool {
    v => Loaded(files, v).Some? && s in Loaded(files, v).value
  }

  /** A VPN AS the source reaches avoiding the hegemons. */
  function ViaFree(files: map<Asn, Load.Lines>, info: AsInfo, hegs: set<string>, s: Asn): Asn -> bool {
    v => Loaded(files, v).Some? && Reached(Loaded(files, v).value, v, s, info, hegs) == Ok(true)
  }

  /** `source_reach`: the destinations of the VPN ASes the source has a route to. */
  function PlainReach(files: map<Asn, Load.Lines>, info: AsInfo, hegs: set<string>, all: seq<Asn>, vpns: seq<Asn>, s: Asn): set<Asn> {
    UnionOf(vpns, ViaPlain(files, s), VpnPlain(files, info, hegs, all))
  }

  /** `source_reach_not_intercept`: the same, avoiding the hegemons on both legs. */
  function FreeReach(files: map<Asn, Load.Lines>, info: AsInfo, hegs: set<string>, all: seq<Asn>, vpns: seq<Asn>, s: Asn): set<Asn> {
    UnionOf(vpns, ViaFree(files, info, hegs, s), VpnFree(files, info, hegs, all))
  }

  /** `_could_reach` returns `True` only for a source with an entry. */
  lemma ReachedHasEntry(r: Routes, d: Asn, s: Asn, info: AsInfo, hegs: set<string>)
    ensures Reached(r, d, s, info, hegs) == Ok(true) ==> s in r
  {
  }

  /** A free route is a route, so each VPN AS's free destinations are among its destinations. */
  lemma VpnFreeSubset(files: map<Asn, Load.Lines>, info: AsInfo, hegs: set<string>, all: seq<Asn>, v: Asn)
    ensures VpnFree(files, info, hegs, all)(v) <= VpnPlain(files, info, hegs, all)(v)
  {
    forall d | d in VpnFree(files, info, hegs, all)(v)
      ensures d in VpnPlain(files, info, hegs, all)(v)
    {
      ReachedHasEntry(Loaded(files, d).value, d, v, info, hegs);
    }
  }

  /** Per source, the free reach is part of the reach, and both lie within the topology's ASes. */
  lemma FreeReachSubset(files: map<Asn, Load.Lines>, info: AsInfo, hegs: set<string>, all: seq<Asn>, vpns: seq<Asn>, s: Asn)
    ensures FreeReach(files, info, hegs, all, vpns, s) <= PlainReach(files, info, hegs, all, vpns, s)
    ensures PlainReach(files, info, hegs, all, vpns, s) <= set d | d in all
  {
    forall v | v in vpns && ViaFree(files, info, hegs, s)(v)
      ensures ViaPlain(files, s)(v) && VpnFree(files, info, hegs, all)(v) <= VpnPlain(files, info, hegs, all)(v)
    {
      ReachedHasEntry(Loaded(files, v).value, v, s, info, hegs);
      VpnFreeSubset(files, info, hegs, all, v);
    }
    UnionOfMonotone(vpns, ViaFree(files, info, hegs, s), VpnFree(files, info, hegs, all), ViaPlain(files, s), VpnPlain(files, info, hegs, all));
    UnionOfBound(vpns, ViaPlain(files, s), VpnPlain(files, info, hegs, all), set d | d in all);
  }

  function PlainSize(files: map<Asn, Load.Lines>, info: AsInfo, hegs: set<string>, all: seq<Asn>, vpns: seq<Asn>): Asn -> int {
    s => if HegemonOrigin(info, hegs, s) then 0 else |PlainReach(files, info, hegs, all, vpns, s)|
  }

  function FreeSize(files: map<Asn, Load.Lines>, info: AsInfo, hegs: set<string>, all: seq<Asn>, vpns: seq<Asn>): Asn -> int {
    s => if HegemonOrigin(info, hegs, s) then 0 else |FreeReach(files, info, hegs, all, vpns, s)|
  }

  /**
   * `_global_reach_potentials` (VPN): over every non-hegemon source, the number
   * of destinations reachable through some VPN AS, and of those reachable
   * avoiding the hegemons; each destination counts once per source. The run
   * raises if any AS of the topology has no label, or if the routing file of
   * a non-hegemon destination does not parse.
   */
  function VpnGlobalReach(files: map<Asn, Load.Lines>, info: AsInfo, hegs: set<string>, all: seq<Asn>, vpns: seq<Asn>): (res: Result<(int, int)>)
    ensures (exists a :: a in all && !Labelled(info, a)) ==> res.Err?
    ensures (exists d :: (d in all && Labelled(info, d) && !HegemonOrigin(info, hegs, d)
      && d in files && Load.LoadRoutingTopo(files[d]).Err?)) ==> res.Err?
    ensures res.Ok? ==> 0 <= res.value.1 <= res.value.0 <= |all| * |all|
    ensures res.Ok? ==> res.value == (Sum(all, PlainSize(files, info, hegs, all, vpns)), Sum(all, FreeSize(files, info, hegs, all, vpns)))
  {
    var _ :- Each(all, d => DestPass(files, info, hegs, vpns, d));
    var _ :- Each(all, s => SourcePass(files, info, hegs, vpns, s));
    VpnTotalsOrdered(files, info, hegs, all, vpns);
    Ok((Sum(all, PlainSize(files, info, hegs, all, vpns)), Sum(all, FreeSize(files, info, hegs, all, vpns))))
  }

  /**
   * A topology whose ASes are all labelled, whose VPN ASes belong to it, and
   * whose routing files are sound runs to the end.
   */
  lemma VpnSoundOk(files: map<Asn, Load.Lines>, info: AsInfo, hegs: set<string>, all: seq<Asn>, vpns: seq<Asn>)
    requires forall a :: a in all ==> Labelled(info, a) && SoundFile(files, info, a)
    requires forall v :: v in vpns ==> v in all
    ensures VpnGlobalReach(files, info, hegs, all, vpns).Ok?
  {
    forall d | d in all
      ensures DestPass(files, info, hegs, vpns, d).Ok?
    {
      if !HegemonOrigin(info, hegs, d) && Routing(files, d).value.Some? {
        var r := Routing(files, d).value.value;
        forall v | v in vpns
          ensures Reached(r, d, v, info, hegs).Ok?
        {
          ReachedOk(r, d, v, info, hegs);
        }
      }
    }
    forall s | s in all
      ensures SourcePass(files, info, hegs, vpns, s).Ok?
    {
      forall v | v in vpns
        ensures ViaStep(files, info, hegs, v, s).Ok?
      {
        if Routing(files, v).value.Some? {
          ReachedOk(Routing(files, v).value.value, v, s, info, hegs);
        }
      }
    }
  }

  lemma VpnTotalsOrdered(files: map<Asn, Load.Lines>, info: AsInfo, hegs: set<string>, all: seq<Asn>, vpns: seq<Asn>)
    ensures 0 <= Sum(all, FreeSize(files, info, hegs, all, vpns))
    ensures Sum(all, FreeSize(files, info, hegs, all, vpns)) <= Sum(all, PlainSize(files, info, hegs, all, vpns))
    ensures Sum(all, PlainSize(files, info, hegs, all, vpns)) <= |all| * |all|
  {
    var free, plain := FreeSize(files, info, hegs, all, vpns), PlainSize(files, info, hegs, all, vpns);
    forall s | s in all
      ensures free(s) <= plain(s) <= |all|
    {
      SizesOrdered(files, info, hegs, all, vpns, s);
    }
    SumNonNegative(all, free);
    SumMonotone(all, free, plain);
    SumBound(all, plain, |all|);
  }

  /** For one source, no more destinations avoid the hegemons than are reached at all, nor more than exist. */
  lemma SizesOrdered(files: map<Asn, Load.Lines>, info: AsInfo, hegs: set<string>, all: seq<Asn>, vpns: seq<Asn>, s: Asn)
    ensures 0 <= FreeSize(files, info, hegs, all, vpns)(s) <= PlainSize(files, info, hegs, all, vpns)(s) <= |all|
  {
    var every := set d | d in all;
    SeqSetCard(all);
    FreeReachSubset(files, info, hegs, all, vpns, s);
    Reach.SubsetCard(FreeReach(files, info, hegs, all, vpns, s), PlainReach(files, info, hegs, all, vpns, s));
    Reach.SubsetCard(PlainReach(files, info, hegs, all, vpns, s), every);
  }

  /** A source reaches `d` through a VPN AS iff some VPN AS it has a route to has a route to `d`. */
  lemma PlainReachSpec(files: map<Asn, Load.Lines>, info: AsInfo, hegs: set<string>, all: seq<Asn>, vpns: seq<Asn>, s: Asn, d: Asn)
    ensures d in PlainReach(files, info, hegs, all, vpns, s) <==>
      exists v :: v in vpns && ViaPlain(files, s)(v) && d in VpnPlain(files, info, hegs, all)(v)
  {
    if exists v :: v in vpns && ViaPlain(files, s)(v) && d in VpnPlain(files, info, hegs, all)(v) {
      var v :| v in vpns && ViaPlain(files, s)(v) && d in VpnPlain(files, info, hegs, all)(v);
      var i :| 0 <= i < |vpns| && vpns[i] == v;
    }
  }
}
