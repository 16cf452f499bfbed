/**
 * Walks along a loaded routing tree: following next hops from a source
 * towards the destination, and asking whether any AS on the way is blocked
 * (a censor, or an AS of hegemon origin). All four metrics share this walk.
 */
module Walks {
  import opened Topology
  import Quicksand
  import Load
  import Reach

  /**
   * `len` ranks the loaded tree: the destination has rank 0 and is not a key,
   * every other entry points at the destination or at another entry, one rank lower.
   */
  ghost predicate RoutesRanked(r: Routes, dest: Asn, len: map<Asn, nat>) {
    && dest in len && len[dest] == 0 && dest !in r
    && forall a {:trigger r[a]} :: a in r ==>
         && a in len && r[a] in len
         && (r[a] == dest || r[a] in r)
         && len[a] == len[r[a]] + 1
  }

  /** Some ranking exists: every entry chains to the destination. */
  ghost predicate LoopFree(r: Routes, dest: Asn) {
    exists len :: RoutesRanked(r, dest, len)
  }

  /** The AS reached after `k` next hops; a walk stops where the tree has no entry. */
  function Iter(r: Routes, a: Asn, k: nat): Asn
    decreases k
  {
    if k == 0 || a !in r then a else Iter(r, r[a], k - 1)
  }

  /** Taking one more hop is taking the next hop of where `k` hops lead. */
  lemma {:induction false} IterSucc(r: Routes, a: Asn, k: nat)
    ensures Iter(r, a, k + 1) == if Iter(r, a, k) in r then r[Iter(r, a, k)] else Iter(r, a, k)
    decreases k
  {
    if k > 0 && a in r {
      IterSucc(r, r[a], k - 1);
    }
  }

  /** Along a ranked tree each hop lowers the rank by one, down to the destination. */
  lemma {:induction false} IterRank(r: Routes, dest: Asn, len: map<Asn, nat>, a: Asn, k: nat)
    requires RoutesRanked(r, dest, len) && (a in r || a == dest)
    ensures Iter(r, a, k) in len
    ensures k <= len[a] ==> len[Iter(r, a, k)] == len[a] - k
    ensures k >= len[a] ==> Iter(r, a, k) == dest
    ensures k < len[a] ==> Iter(r, a, k) in r
    decreases k
  {
    if k > 0 && a in r {
      IterRank(r, dest, len, r[a], k - 1);
    }
  }

  /** The entries ranked below `n`: a ranked tree on its own. */
  function Below(r: Routes, len: map<Asn, nat>, n: nat): (b: Routes)
    ensures forall a :: a in b <==> a in r && a in len && len[a] < n
  {
    map a | a in r && a in len && len[a] < n :: r[a]
  }

  lemma BelowRanked(r: Routes, dest: Asn, len: map<Asn, nat>, n: nat)
    requires RoutesRanked(r, dest, len)
    ensures RoutesRanked(Below(r, len, n), dest, len)
  {
  }

  /** No rank exceeds the number of entries, so `|r|` hops always suffice. */
  lemma {:induction false} RankBound(r: Routes, dest: Asn, len: map<Asn, nat>, a: Asn)
    requires RoutesRanked(r, dest, len) && a in r
    ensures len[a] <= |r|
    decreases len[a]
  {
    var b := Below(r, len, len[a]);
    assert b.Keys <= r.Keys - {a};
    assert |b.Keys| <= |r.Keys - {a}| by {
      Reach.SubsetCard(b.Keys, r.Keys - {a});
    }
    if r[a] != dest {
      BelowRanked(r, dest, len, len[a]);
      assert r[a] in b;
      RankBound(b, dest, len, r[a]);
    }
  }

  /** Some AS among the first `n` on the walk from `a` is blocked. */
  ghost predicate ChainHits(r: Routes, a: Asn, n: nat, blocked: Asn -> bool) {
    exists k: nat :: k < n && blocked(Iter(r, a, k))
  }

  /**
   * `_is_censored` / `_is_intercepted`: walk from `a` to `dest` and report
   * whether a blocked AS comes first. The walk is cut after `fuel` hops and
   * where the tree has no entry; neither happens on a ranked tree (`BlockedSpec`).
   */
  function Blocked(r: Routes, dest: Asn, a: Asn, blocked: Asn -> bool, fuel: nat): bool
    decreases fuel
  {
    if a == dest then false
    else if blocked(a) then true
    else if fuel == 0 || a !in r then false
    else Blocked(r, dest, r[a], blocked, fuel - 1)
  }

  /** On a ranked tree the walk reports exactly whether a blocked AS precedes the destination. */
  lemma {:induction false} BlockedSpec(r: Routes, dest: Asn, len: map<Asn, nat>, a: Asn, blocked: Asn -> bool, fuel: nat)
    requires RoutesRanked(r, dest, len) && (a in r || a == dest) && fuel >= len[a]
    ensures Blocked(r, dest, a, blocked, fuel) <==> ChainHits(r, a, len[a], blocked)
    decreases fuel
  {
    if a == dest {
      assert len[a] == 0;
    } else {
      assert a in r;
      if blocked(a) {
        assert Iter(r, a, 0) == a;
      } else {
        BlockedSpec(r, dest, len, r[a], blocked, fuel - 1);
        if ChainHits(r, r[a], len[r[a]], blocked) {
          var k: nat :| k < len[r[a]] && blocked(Iter(r, r[a], k));
          assert Iter(r, a, k + 1) == Iter(r, r[a], k);
        }
        if ChainHits(r, a, len[a], blocked) {
          var k: nat :| k < len[a] && blocked(Iter(r, a, k));
          assert k > 0;
          assert Iter(r, a, k) == Iter(r, r[a], k - 1);
        }
      }
    }
  }

  /** Blocking more ASes never unblocks a walk. */
  lemma {:induction false} BlockedMonotone(r: Routes, dest: Asn, a: Asn, b1: Asn -> bool, b2: Asn -> bool, fuel: nat)
    requires forall x :: b1(x) ==> b2(x)
    ensures Blocked(r, dest, a, b1, fuel) ==> Blocked(r, dest, a, b2, fuel)
    decreases fuel
  {
    if a != dest && !b2(a) && fuel > 0 && a in r {
      BlockedMonotone(r, dest, r[a], b1, b2, fuel - 1);
    }
  }

  /**
   * `_could_reach`: a blocked endpoint fails; with nothing blocked the source
   * only needs an entry; otherwise the entry must exist and the walk must be clear.
   * `none` is the source's "no censors / no hegemons" test.
   */
  function CouldReach(r: Routes, dest: Asn, src: Asn, blocked: Asn -> bool, none: bool): bool {
    if blocked(src) || blocked(dest) then false
    else if none then src in r
    else if src !in r then false
    else !Blocked(r, dest, src, blocked, |r|)
  }

  /**
   * On a ranked tree a source reaches the destination iff it has an entry and
   * no AS on its walk, itself included and the destination excluded, is blocked.
   */
  lemma CouldReachSpec(r: Routes, dest: Asn, len: map<Asn, nat>, src: Asn, blocked: Asn -> bool, none: bool)
    requires RoutesRanked(r, dest, len)
    requires none ==> forall x :: !blocked(x)
    ensures CouldReach(r, dest, src, blocked, none) <==>
      src in r && !blocked(dest) && !ChainHits(r, src, len[src], blocked)
  {
    if src in r && !blocked(src) && !blocked(dest) && !none {
      RankBound(r, dest, len, src);
      BlockedSpec(r, dest, len, src, blocked, |r|);
    }
    if src in r && blocked(src) {
      assert Iter(r, src, 0) == src;
      assert len[src] > 0;
    }
  }

  /** Blocking more ASes never lets more sources through; no ranking is needed. */
  lemma CouldReachMonotone(r: Routes, dest: Asn, src: Asn, b1: Asn -> bool, n1: bool, b2: Asn -> bool, n2: bool)
    requires forall x :: b1(x) ==> b2(x)
    requires n2 ==> n1
    ensures CouldReach(r, dest, src, b2, n2) ==> CouldReach(r, dest, src, b1, n1)
  {
    BlockedMonotone(r, dest, src, b1, b2, |r|);
  }

  /** With nothing blocked, reaching is having an entry. */
  lemma CouldReachUnblocked(r: Routes, dest: Asn, src: Asn, blocked: Asn -> bool, none: bool)
    requires forall x :: !blocked(x)
    ensures CouldReach(r, dest, src, blocked, none) <==> src in r
  {
    if !none && src in r {
      NeverBlocked(r, dest, src, blocked, |r|);
    }
  }

  lemma {:induction false} NeverBlocked(r: Routes, dest: Asn, a: Asn, blocked: Asn -> bool, fuel: nat)
    requires forall x :: !blocked(x)
    ensures !Blocked(r, dest, a, blocked, fuel)
    decreases fuel
  {
    if a != dest && fuel > 0 && a in r {
      NeverBlocked(r, dest, r[a], blocked, fuel - 1);
    }
  }

  /** The simulator's ranked output, once saved and loaded, is a ranked tree. */
  lemma SimulatedRanked(routing: Quicksand.Routing, dest: Asn, len: map<Asn, nat>)
    requires Quicksand.Ranked(routing, dest, len) && dest in routing
    ensures RoutesRanked(Load.Present(routing), dest, len)
  {
    var r := Load.Present(routing);
    forall a | a in r
      ensures a in len && r[a] in len && (r[a] == dest || r[a] in r) && len[a] == len[r[a]] + 1
    {
      assert a != dest;
    }
  }

  /** A ranked tree: the shape the metrics rely on. */
  lemma SimulatedLoopFree(routing: Quicksand.Routing, dest: Asn)
    requires (exists len :: Quicksand.Ranked(routing, dest, len)) && dest in routing
    ensures LoopFree(Load.Present(routing), dest)
  {
    var len :| Quicksand.Ranked(routing, dest, len);
    SimulatedRanked(routing, dest, len);
  }
}
