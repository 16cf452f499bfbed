# Charting censorship: the routing and reachability core in Dafny

This project models the routing and reachability engine of *charting
censorship*. That engine measures how well a country's networks can be
censored when an adversary controls a few chosen Autonomous Systems (ASes).

Everything works over an AS-relationship topology. The topology maps each AS
id, a string, to its `providers`, `customers` and `peers` lists. The model
covers these parts:

- **The line formats the programs exchange.** These are comment-sectioned,
  pipe-delimited text files, modelled as pure parsers over `seq<string>`. Each
  is paired with its writer, and a round trip is proved for each pair.
- **The BGP route simulator.** It follows the three-stage "Modeling on
  quicksand" algorithm and ends with a tiebreak step.
- **The country partitioner.** It finds the islands of a country, its
  mainland and its border ASes.
- **Customer cones and SCION core selection.** This covers the ISD core view
  and the non-core view.
- **Reachability over SCION topologies.**
- **Chokepoint potentials.** These are computed by counting subtrees of
  reversed routing trees.
- **The censorship and global-reach metrics.** They walk next-hop chains, for
  BGP and through VPNs.
- **The cone-ranked choice of censoring cores.**

Modules follow the repository's files:

- `Wrappers`: `Option` and `Result`.
- `Strings`: Python's `strip`, `split`, `join`, `int` and `str`.
- `Utils`: `sort_dict`, dictionaries as association lists, and sums.
- `Topology`: topologies, with explicit defaults for missing ASes.
- `Reach`: the least closure of a successor graph, and the worklist search
  that computes it.
- `Load`: the loaders of `source/utils/load.py`, with their writers.
- `CountryNet`, `Quicksand`, `ConeSize`, `ScionGen`, `ScionSim` and `Choke`:
  one module per simulation file.
- `Walks`: next-hop chains.
- `Censorship`: the BGP and VPN censorship metrics.
- `GlobalReach`: the BGP and VPN global-reach metrics.
- `CensSelect`: censor choice by ISD cone.

Some design choices hold throughout:

- **Ordered dicts.** A Python dict whose iteration order matters is an
  association list `seq<(K, V)>`. A topology is a Dafny `map` together with
  its key order wherever that order changes a result.
- **Explicit defaults.** Every `defaultdict` default is written out. A missing
  AS has empty lists, a missing count is 0, and a missing censor set is empty.
- **Parameters instead of environment.** Module globals (`mainland`,
  `censors_by_num`, `as_info`, the core topology) are parameters. So are the
  routing files a metric reads, given as `map<Asn, Lines>`. The order
  `random.shuffle` produces is a parameter too.
- **Tiebreak hash.** The sha256 tiebreak is an arbitrary key function
  `h: string -> int`.
- **Errors.** A Python exception the source does not catch becomes an `Err`
  result: a malformed line, a missing AS label, a `sys.exit` on a country
  mismatch. Where the source returns `None` or skips instead (a missing
  routing file), so does the model. The report drivers that catch the
  results loader's `sys.exit` are not modelled; `CensSelect.BgpVpnLoad`
  stops at the error they catch.

## Model

| member | source | states |
|---|---|---|
| Utils.SortDict | source/utils/utils.py:60-64 | the result is a permutation of the input items, so each key keeps its own value, in value order |
| Utils.SortBy | source/utils/utils.py:60-63 | the result is a permutation of the input in key order: non-increasing with `reverse=True`, non-decreasing otherwise |
| Utils.SortBySorted | source/utils/utils.py:60-63 | an input already in key order comes back unchanged |
| Utils.SortDictStable | source/utils/utils.py:63 | the items with any one value keep their original relative order |
| Utils.SortDictIdempotent | source/utils/utils.py:61-64 | sorting a sorted dict again changes nothing |
| Utils.SumPermutation | source/simulation/bgp/choke_potential.py:147-159 | a sum over destinations does not depend on their order, so shuffling cannot change a total |
| Strings.JoinSplit | source/utils/load.py:32 | splitting a line and joining the fields with the same separator gives the line back |
| Strings.SplitJoin | source/utils/load.py:32 | splitting a join of separator-free fields gives the fields back |
| Strings.ParseIntToString | source/utils/load.py:33 | `int(str(i)) == i` for every integer, negative ones included |
| Topology.NeighbourSymmetric | source/utils/load.py:35-40 | in a symmetric topology, `b` neighbours `a` exactly when `a` neighbours `b` |
| Reach.ClosureLeast | source/simulation/scion/conesize.py:9-23 | the closure is the least set that contains the start nodes and is closed under successors |
| Reach.Explore | source/simulation/scion/conesize.py:14-22 | the worklist search returns each node reachable from the starts exactly once, and nothing else |
| Load.LoadAsTopologyWellFormed | source/utils/load.py:19-41 | a loaded topology is closed and symmetric with equal multiplicities, and its key order lists every AS once |
| Load.LoadAsTopologySkipsComments | source/utils/load.py:31 | inserting a comment line anywhere leaves the loaded topology unchanged |
| Load.TopoStepPeer | source/utils/load.py:35-40 | any relation code other than -1 links both ASes as peers |
| Load.RoutingDestinationLast | source/utils/load.py:97-112 | of the data lines before the first comment that follows one, the last names the destination |
| Load.RouteStepEntry | source/utils/load.py:107-110 | after the header each `asn\|next_hop` line overwrites any earlier entry for that AS |
| Load.LoadSaveRoutingTopo | source/utils/load.py:80-113 | reading a saved routing tree gives back its destination and every non-`None` entry |
| Load.LoadSaveChokePotentials | source/utils/load.py:163-199 | reading saved chokepoint potentials gives back the country, the path count and the border potentials in file order |
| Load.LoadScionCoreTopoSymmetric | source/utils/load.py:201-220 | the loaded core adjacency is symmetric with equal multiplicities |
| Load.CoreStepIgnoresLinkType | source/utils/load.py:209-218 | a core link line means the same whatever its third field says |
| Load.LoadSaveCustomerCone | source/utils/load.py:222-236 | reading a saved cone file gives back the same (AS, cone) items in the same order |
| Load.LoadSaveBgpResults | source/utils/load.py:244-290 | reading saved results gives back the country, the potential-censor count, every censor set (empty ones as `{""}`) and every result |
| Load.LoadAsInfoLines | source/utils/load.py:330-346 | an AS-info file maps each AS to its comma-separated labels, and a later line for an AS replaces an earlier one |
| Load.LoadAsListAppend | source/utils/load.py:348-359 | the AS list of concatenated files is the concatenation of their AS lists |
| Load.LoadAsListSkipsComments | source/utils/load.py:354-355 | comment lines contribute nothing to an AS list |
| Load.LoadAsListIds | source/utils/load.py:348-359 | a file of clean ids, one per line, reads back as exactly those ids |
| CountryNet.InCountryCountries | source/simulation/bgp/countrynet.py:4-8 | an AS is in the country exactly when the country is among its labels: membership for a list, equality for a string, never for an unlabelled AS |
| CountryNet.CountryGraph | source/simulation/bgp/countrynet.py:32-53 | the island search follows exactly the in-country provider, customer and peer links between in-country ASes |
| CountryNet.GetIsland | source/simulation/bgp/countrynet.py:32-53 | the island search lists each AS connected to the start through in-country links exactly once |
| CountryNet.CountryAsns | source/simulation/bgp/countrynet.py:26-30 | the country's ASes are the topology ASes labelled with the country |
| CountryNet.GetMainland | source/simulation/bgp/countrynet.py:81-83 | every mainland AS is in the country, and every in-country neighbour of a mainland AS is in the mainland |
| CountryNet.IslandsPartition | source/simulation/bgp/countrynet.py:61-79 | the islands are pairwise disjoint, cover exactly the in-country ASes, and carry their own sizes |
| CountryNet.MainlandLargest | source/simulation/bgp/countrynet.py:70-83 | no island is larger than the mainland |
| CountryNet.MainlandNeedsCountry | source/simulation/bgp/countrynet.py:82 | the mainland fails to exist exactly when the country has no AS in the topology |
| CountryNet.GetBorderAses | source/simulation/bgp/countrynet.py:85-98 | border ASes are listed once each, and an AS is one exactly when it is in the mainland and has a neighbour outside it |
| Quicksand.Stage1 | source/simulation/bgp/quicksand.py:19-53 | stage 1 visits exactly the ASes reachable from the destination over provider links, records only customer hops, and keeps every candidate list homogeneous |
| Quicksand.Stage2 | source/simulation/bgp/quicksand.py:55-79 | stage 2 visits exactly the stage-1 ASes and their peers, adds only peer hops, and leaves every customer-routed list unchanged |
| Quicksand.Stage3 | source/simulation/bgp/quicksand.py:81-108 | stage 3 visits everything reachable over customer links from what was visited, adds only provider hops, and leaves customer- and peer-routed lists unchanged |
| Quicksand.LocalPreference | source/simulation/bgp/quicksand.py:66-71 | a stage that adds only one hop type cannot change a list that already holds another type |
| Quicksand.Simulate | source/simulation/bgp/quicksand.py:142-146 | an AS has a candidate exactly when it can be reached by climbing providers, then at most one peer hop, then descending customers |
| Quicksand.TiebreakChoice | source/simulation/bgp/quicksand.py:110-132 | every AS except the destination takes the first of its candidates with the smallest key `h(asn + next_hop)`, and the destination keeps its own entry |
| Quicksand.CleanTree | source/simulation/bgp/quicksand.py:126-132 | each next hop's path length is one less than its AS's, and each hop continues valley-free |
| Quicksand.RankBound | source/simulation/bgp/quicksand.py:32 | a route's path length is below the number of routed ASes |
| Quicksand.RouteValleyFree | source/simulation/bgp/quicksand.py:47-51 | read from source to destination, every route is providers, then at most one peer, then customers |
| Quicksand.BgpSimulate | source/simulation/bgp/quicksand.py:134-149 | the routed ASes are exactly the reachable ones, the destination maps to `None`, every route reaches the destination within as many hops as there are routed ASes, and the tree is ranked and valley-free |
| ConeSize.ConeSizeOf | source/simulation/scion/conesize.py:9-23 | the search counts each AS of the customer cone once, the AS itself included |
| ConeSize.ConeSplit | source/simulation/scion/conesize.py:10-22 | the cone is the AS plus everything one or more customer hops away |
| ConeSize.ConeAtLeastOne | source/simulation/scion/conesize.py:14-22 | every cone has at least one AS, and an AS without customers has cone one |
| ConeSize.ConeCustomer | source/simulation/scion/conesize.py:16-22 | a provider's cone contains, and is at least as large as, each customer's cone |
| ConeSize.CustomerConeForAll | source/simulation/scion/conesize.py:25-29 | there is one entry per topology AS with its own cone, in non-increasing cone order, and ASes with equal cones keep key order |
| ConeSize.GetSaveCustomerCone | source/simulation/scion/conesize.py:67-81 | the written cone file reads back as the computed cones |
| ConeSize.CustomerConeSizeCoreIsd | source/simulation/scion/conesize.py:31-52 | there is one entry per ISD core, in core-topology order, with its cone over the non-core view |
| ConeSize.IsdConeWithin | source/simulation/scion/conesize.py:42 | an ISD cone holds only the core and non-cores |
| ScionGen.HighestCones | source/simulation/scion/sciongen.py:18-34 | the selection fails exactly when there are no more than N ranked ASes; otherwise it is a prefix of the ranking with at most N ASes |
| ScionGen.HighestConesRanked | source/simulation/scion/sciongen.py:25-34 | the top N are taken when the Nth and (N+1)th cones differ; otherwise every AS tied with the Nth is dropped, and each chosen cone is strictly larger |
| ScionGen.ProjectWithRels | source/simulation/scion/sciongen.py:36-53 | the projection's keys are the cores, and each relation list keeps exactly the cores of that relation |
| ScionGen.ProjectNoRels | source/simulation/scion/sciongen.py:55-70 | each core's `cores` list holds exactly its core neighbours, in provider, customer, peer order |
| ScionGen.NoRelsFlattens | source/simulation/scion/sciongen.py:36-70 | the no-rels projection is the with-rels projection with its three lists joined |
| ScionGen.SelectScionCores | source/simulation/scion/sciongen.py:14-80 | the cores are the highest-cone ASes minus the excluded ids `64302` and `306`, at most N of them |
| ScionGen.IsdChosen | source/simulation/scion/sciongen.py:91-100 | there are min(max_cores, candidates) ISD cores, each an in-country core, largest cone first, none smaller than a candidate left out |
| ScionGen.IsdCoreTopoSymmetric | source/simulation/scion/sciongen.py:121-130 | the ISD core topology keeps symmetric core links symmetric |
| ScionGen.SelectIsdCoresOfCountry | source/simulation/scion/sciongen.py:86-179 | the ISD cores are in-country cores of the core topology, min(max_cores, candidates) of them |
| ScionGen.NonCoreRels | source/simulation/scion/sciongen.py:199-216 | a non-core lists only ISD members, keeps exactly its non-core customers as customers, and files each core customer under `peers` |
| ScionGen.CoreRels | source/simulation/scion/sciongen.py:219-235 | a core lists only non-cores, keeps exactly its non-core customers as customers, files each non-core provider under `peers`, and has no providers at all |
| ScionGen.IsdNonCoreLinks | source/simulation/scion/sciongen.py:192-237 | the non-core view keeps every link of a non-core inside the ISD and every core-to-non-core link, and drops only core-to-core links |
| ScionGen.IsdNonCoreTopo | source/simulation/scion/sciongen.py:192-237 | the non-core view covers the ISD, links only within it, lists only non-cores as customers, and gives cores no providers |
| ScionGen.GetIsdTopos | source/simulation/scion/sciongen.py:243-254 | it fails exactly when the country has no mainland; otherwise it gives the ISD cores and a non-core view covering the mainland and the cores |
| ScionSim.CoreReach | source/simulation/scion/scionsim.py:8-28 | an absent or censored destination reaches nothing, and no censored core is ever reached |
| ScionSim.CoreReachLeast | source/simulation/scion/scionsim.py:10-21 | core reach is the least set closed under uncensored core links from the destination |
| ScionSim.CoresWithinReach | source/simulation/scion/scionsim.py:8-28 | the search returns exactly the core reach |
| ScionSim.CoreReachMonotone | source/simulation/scion/scionsim.py:8-28 | more censors never enlarge core reach |
| ScionSim.Forward | source/simulation/scion/scionsim.py:34-54 | an AS reached from one of its customers (found in that customer's `providers` list) passes the walk on to its customers, providers and peers; one reached any other way passes it on only to its customers |
| ScionSim.NonCoreReach | source/simulation/scion/scionsim.py:30-70 | non-core reach never holds the destination, a censored AS or a core |
| ScionSim.NonCoresWithinReach | source/simulation/scion/scionsim.py:30-70 | the depth-first search returns exactly the non-core reach |
| ScionSim.NonCoreReachMonotone | source/simulation/scion/scionsim.py:30-70 | more censors never enlarge non-core reach |
| ScionSim.CoresWithinForeignReach | source/simulation/scion/scionsim.py:76-115 | foreign core reach holds only uncensored ISD cores |
| ScionSim.CoresWithinForeignReachClosure | source/simulation/scion/scionsim.py:80-115 | a core is reached exactly when it is foreign-connected itself or reachable from a foreign-connected core |
| ScionSim.NonCoresWithinForeignReach | source/simulation/scion/scionsim.py:117-163 | foreign non-core reach holds no ISD core and no censored AS |
| ScionSim.NodesWithinForeignReach | source/simulation/scion/scionsim.py:165-176 | the foreign reach is uncensored, and its cores are exactly the foreign core reach |
| ScionSim.ForeignReachMonotone | source/simulation/scion/scionsim.py:76-176 | more censors never enlarge the foreign reach |
| ScionSim.GraphComponentsWoHegs | source/simulation/scion/scionsim.py:182-226 | the components are disjoint and avoid hegemon-origin ASes, cover every other core, and come in non-increasing size; in a symmetric topology each is a full connected component |
| Choke.ReverseChildren | source/simulation/bgp/choke_potential.py:64-72 | `s` is a child of `h` exactly when `s` routes to `h` and is not the destination, and no child is listed twice |
| Choke.SubTreeCounts | source/simulation/bgp/choke_potential.py:95-108 | on a ranked tree each node's count is the number of mainland ASes whose route passes through it |
| Choke.DestCount | source/simulation/bgp/choke_potential.py:133-139 | the destination's count equals the number of mainland ASes present in its routing map |
| Choke.UpdateCpSpec | source/simulation/bgp/choke_potential.py:110-122 | a border AS whose next hop leaves the mainland gains its subtree count, once per listing; every other AS keeps its potential |
| Choke.RoutingFor | source/simulation/bgp/choke_potential.py:74-93 | a mainland destination, a missing file or a file for another destination gives no tree; a malformed file is an error |
| Choke.ByDestination | source/simulation/bgp/choke_potential.py:124-145 | the path count grows by the number of mainland ASes in the tree, and on a loop-free tree each AS gains its credit |
| Choke.ChokepointPotentials | source/simulation/bgp/choke_potential.py:147-159 | the totals are sums over destinations of the per-destination path counts and credits |
| Choke.PotentialsOrderFree | source/simulation/bgp/choke_potential.py:147-159 | the totals do not depend on the order of destinations |
| Choke.PotentialAtMostPaths | source/simulation/bgp/choke_potential.py:110-159 | a once-listed border AS never has a potential above the total path count |
| Choke.CalcSaveChokePotentials | source/simulation/bgp/choke_potential.py:161-187 | the written file reads back as the country, the total path count and each border AS with its potential |
| Walks.IterRank | source/simulation/bgp/bgp_censorship_metric.py:123-128 | on a ranked tree each next-hop step lowers the rank by one and ends at the destination |
| Walks.BlockedSpec | source/simulation/bgp/bgp_censorship_metric.py:123-128 | the walk is blocked exactly when some AS on the chain before the destination is blocked |
| Walks.SimulatedLoopFree | source/simulation/bgp/quicksand.py:134-149 | a simulated tree, once saved, is loop-free |
| Censorship.PotentialCensors | source/simulation/bgp/bgp_censorship_metric.py:57-64 | the potential censors are the chokepoint file's border ASes in non-increasing potential order; a file for another country is an error |
| Censorship.CensorsByNum | source/simulation/bgp/bgp_censorship_metric.py:66-80 | `censors_by_num[N]` exists only for N up to the potential count, and is the first N potential censors with Python slice semantics |
| Censorship.CensorsNested | source/simulation/bgp/bgp_censorship_metric.py:73-74 | censor sets grow with N for non-negative N |
| Censorship.CensorsNotNestedAcrossZero | source/simulation/bgp/bgp_censorship_metric.py:73-74 | with a negative N (Python's `[:-1]`) the sets are not nested across zero |
| Censorship.CensorsCount | source/simulation/bgp/bgp_censorship_metric.py:73-74 | with distinct potential censors `censors_by_num[N]` has N members |
| Censorship.CensorsAboveCount | source/simulation/bgp/bgp_censorship_metric.py:148 | an N above the potential count silently uses no censors |
| Censorship.RoutingOf | source/simulation/bgp/bgp_censorship_metric.py:107-121 | a destination's tree is its parsed file, provided that file names that destination |
| Censorship.ReachesSpec | source/simulation/bgp/bgp_censorship_metric.py:123-134 | a censored source or destination never reaches; without censors a source reaches when it has an entry; otherwise its chain must avoid censors before the destination |
| Censorship.ReachesUncensored | source/simulation/bgp/bgp_censorship_metric.py:132 | with no censors a source reaches exactly when it has a routing entry |
| Censorship.ReachesMonotone | source/simulation/bgp/bgp_censorship_metric.py:123-134 | what is reachable under more censors is reachable under fewer |
| Censorship.GetBgpResults | source/simulation/bgp/bgp_censorship_metric.py:136-155 | `data[N]` counts the reachable (mainland source, non-mainland destination) pairs once per listing of N, and is present exactly when positive |
| Censorship.PairsBound | source/simulation/bgp/bgp_censorship_metric.py:136-155 | the pair count is at most mainland size times destination count |
| Censorship.BgpNonIncreasing | source/simulation/bgp/bgp_censorship_metric.py:136-155 | within the potential count, the reachable pair count does not grow with N |
| Censorship.VpnNodes | source/simulation/vpn/vpn_censorship_metric.py:188-197 | the VPN nodes are exactly the listed ones present in the topology |
| Censorship.SourceReachSound | source/simulation/vpn/vpn_censorship_metric.py:141-178 | a destination counts for a source only through a VPN the source reaches and that reaches the destination |
| Censorship.SourceReachComplete | source/simulation/vpn/vpn_censorship_metric.py:141-178 | any destination reached through a reachable VPN counts for the source |
| Censorship.ReachViaVpns | source/simulation/vpn/vpn_censorship_metric.py:141-178 | the total is at most mainland size times destination count, since each destination counts once per source |
| Censorship.AllVpnResults | source/simulation/vpn/vpn_censorship_metric.py:180-186 | there is one result per N, each the VPN reach under that N's censors |
| GlobalReach.RelabelledOrigin | source/simulation/bgp/bgp_global_reach.py:50-57 | relabelling keeps which ASes have a label; an AS of several countries is of hegemon origin only when `-` is a hegemon code, one of a single country exactly when that country is a hegemon |
| GlobalReach.RelabelIdempotent | source/simulation/vpn/vpn_global_reach.py:59-60 | relabelling twice is relabelling once |
| GlobalReach.WalkSpec | source/simulation/bgp/bgp_global_reach.py:75-80 | on a ranked tree the walk raises exactly when an AS without a label comes before every hegemon-origin AS, and reports interception exactly when a hegemon-origin AS comes first |
| GlobalReach.ReachedSpec | source/simulation/bgp/bgp_global_reach.py:75-86 | on a ranked tree `_could_reach` raises exactly when the source has no label, or the source is not a hegemon and the destination has no label, or (with hegemons and an entry) the walk meets an unlabelled AS first; it returns `True` exactly when the source has an entry, both ends are labelled, the destination is not a hegemon, and with hegemons every AS of the walk is labelled and none is a hegemon |
| GlobalReach.ReachedOk | source/simulation/bgp/bgp_global_reach.py:82-86 | between labelled ends of a loop-free tree whose entries are all labelled, `_could_reach` never raises |
| GlobalReach.Routing | source/simulation/bgp/bgp_global_reach.py:59-73 | a missing file or one naming another destination gives no tree; a file that does not parse raises with the parser's error; otherwise the parsed tree |
| GlobalReach.SavedRouting | source/simulation/bgp/bgp_global_reach.py:59-73 | a file the simulator saved for a destination gives back its tree without the `None` entries |
| GlobalReach.DestCounts | source/simulation/bgp/bgp_global_reach.py:88-111 | an unlabelled destination raises; a hegemon one, a missing file or a file for another destination counts (0, 0); a file that does not parse raises its error; otherwise it raises exactly when some entry raises, and else counts the sources and the free ones, free at most paths |
| GlobalReach.DestCountsOk | source/simulation/bgp/bgp_global_reach.py:88-111 | a labelled destination whose routing file parses into a loop-free tree of labelled entries never raises |
| GlobalReach.NotIntercepted | source/simulation/bgp/bgp_global_reach.py:90-100 | the loop raises exactly when some entry other than the destination has no label or its walk raises; otherwise it counts exactly the non-hegemon sources other than the destination, and those `_could_reach` accepts |
| GlobalReach.AllFreeWithoutHegemons | source/simulation/bgp/bgp_global_reach.py:84-99 | with no hegemons, every path of a destination that does not raise is free |
| GlobalReach.GlobalReachPotentials | source/simulation/bgp/bgp_global_reach.py:113-130 | the run raises exactly when some destination raises, with the first such destination's error; otherwise the totals are the sums of the per-destination counts, with free at most paths |
| GlobalReach.TotalsShuffle | source/simulation/bgp/bgp_global_reach.py:117-118 | neither whether the run raises nor its totals depend on the shuffled destination order |
| GlobalReach.Each | source/simulation/vpn/vpn_global_reach.py:113-131 | a loop over a list fails exactly when some step fails, with the first failing step's error |
| GlobalReach.VpnFreeSubset | source/simulation/vpn/vpn_global_reach.py:114-131 | a VPN's free destinations are among its plain destinations |
| GlobalReach.FreeReachSubset | source/simulation/vpn/vpn_global_reach.py:142-167 | a source's free reach is within its plain reach, which lies within the destinations |
| GlobalReach.PlainReachSpec | source/simulation/vpn/vpn_global_reach.py:142-164 | a destination is in a source's plain reach exactly when some VPN reachable from the source reaches it |
| GlobalReach.VpnGlobalReach | source/simulation/vpn/vpn_global_reach.py:102-169 | the run raises when some AS of the topology has no label or some non-hegemon destination's routing file does not parse; otherwise the free total is at most the plain total, which is at most the square of the AS count |
| GlobalReach.VpnSoundOk | source/simulation/vpn/vpn_global_reach.py:102-169 | with every AS labelled, the VPN ASes inside the topology and every routing file sound, the run does not raise |
| CensSelect.BorderCoresChosen | source/simulation/scion/scion_cens_select.py:69-93 | only foreign-connected ISD cores are chosen, none smaller in ISD cone than one left out, min(k, candidates) of them |
| CensSelect.BorderCoresNested | source/simulation/scion/scion_cens_select.py:85-91 | choosing more cores keeps the ones chosen for fewer |
| CensSelect.PickAsWritten | source/simulation/scion/scion_cens_select.py:85-91 | the loop as written keeps the first max(N, 1) cores of the ranking that pass the test, since it adds a core before comparing the count with N |
| CensSelect.SelectBiggestConeSizeIsd | source/report_crp_results.py:117-138 | the choice as written: the foreign-connected cores largest first, min(N, candidates) for N at least one |
| CensSelect.AsWrittenNeverEmpty | source/report_crp_results.py:128-136 | as written, an ISD with a foreign-connected core always yields a censor, even for N of zero |
| CensSelect.SelectBiggestConeSizeIsdFixed | source/report_crp_results.py:128-136 | with the bound checked first, N of zero or less chooses nothing |
| CensSelect.SelectBiggestConeSize | source/simulation/scion/scion_cens_select.py:69-93 | it fails exactly when the country has no mainland; otherwise it chooses the cores of the ISD built from the mainland |
| CensSelect.BgpVpnLoad | source/report_crp_results.py:109-115 | a results file is accepted only when it parses and its country is the requested one; a file for any other country is an error |
| CensSelect.BgpVpnLoadSaved | source/report_crp_results.py:109-115 | a saved results file is accepted for its own country and refused for any other |

## Left out

- File opening, reading and writing, argument parsing, logging, progress counters and the `__main__` drivers are not modelled. Parsers and writers work on `seq<string>` lines, and the files a metric reads are a `map<Asn, Lines>` parameter.
- The sha256 digest is replaced by an arbitrary key function `h`. Hex digests of equal length compare like the numbers they spell, so only the order of keys matters.
- The `random.shuffle` calls are not modelled. The destination order is a parameter, and totals are proved independent of it.
- Floating-point ratios, rounding and table printing are not modelled (source/report_crp_results.py:166-178), nor is the `perc` computation of N (source/report_crp_results.py:215-216). N is taken as an integer parameter.
- Loaders that need a JSON library or only feed visualisation are not modelled: `load_RIPE_geo_address`, `load_RIPE_geo_countries`, `load_from_json`, `load_ORG_AS_info`, `load_clean_CAIDA_data`. Neither are `load_hegemony_info` and `load_global_reach_info`, whose outputs enter as parameters: AS info as a map, and hegemon countries as a set.
- `_add_missing_core_links` is not modelled: its only call is commented out (source/simulation/scion/sciongen.py:137-172, 177).
- The writers' fixed header comments are modelled as constants. Header lines and file-name construction are not modelled.
- Walks.Blocked: the walk carries fuel `|r|`. On a tree with a loop the source's `while` never ends; the model stops after `|r|` steps. All its lemmas assume a ranked, loop-free tree.
- GlobalReach.InterceptedWalk: the walk carries fuel `|r|` in the same way. A step from an AS without a routing entry is an error at once; the source reads `""` from the `defaultdict(str)` and raises at the origin lookup of `""` that follows, unless `""` itself has a label.
- Choke.SubTree: the recursion carries fuel `|r| + 1`. The child lists come from `Choke.KeyOrder`, which picks one enumeration of the tree's keys, since Python's dict order depends on how the file was written. The counts are proved the same for every enumeration.
- Choke.ByDestination: the property that one destination's credits sum to its path-count increment when no route leaves and re-enters the mainland is not stated. The model proves the weaker `Choke.PotentialAtMostPaths`.
- ScionSim.NonCoreReach: the recursive depth-first search is modelled as the least closure over (AS, arrival relation) states. The claim that each state is expanded at most once is not stated.
- Censorship.CensorsNested: nesting is stated only for non-negative N, or when both N are negative. Python's slice with a negative N drops elements from the end, and `Censorship.CensorsNotNestedAcrossZero` shows the sets are not nested across zero.
- ScionGen.HighestCones: N is a natural number. A negative N would index the ranking from the end.
- The `defaultdict` side effect of inserting a key on lookup is not modelled. Only the default value a lookup returns is modelled.
- `sys.exit` on a country mismatch and Python exceptions on malformed lines or missing labels become `Err` results. The error message is not modelled.
- The per-country loops of `report_crp_results` and `get_crp_results` are not modelled (source/report_crp_results.py:185-203, 256-273). They catch the error of `CensSelect.BgpVpnLoad`: a BGP file that fails skips the country, and a VPN file that fails either sets the VPN results to `{0: 1}` or skips the country.
- Strings.ParseInt: underscores between digits (`1_000`) and non-ASCII decimal digits, which Python's `int()` accepts, are refused as a ValueError. No writer of the model produces them.
- ScionSim.GraphComponentsWoHegs: the excluded ASes are a parameter. The source's local `_country_origin` returns the whole label list (source/simulation/scion/scionsim.py:184-185), so its test against a list of country codes never excludes anything and against a set of them raises TypeError; no caller in the repository shows which was meant.
- The with-rels core topology is modelled as `ScionGen.ProjectWithRels` and as the `WithRels` case of `ScionGen.SelectScionCores`. It is not written to a file.

## Findings

| source | as written | input that shows it | evidently intended | confidence | as-written member | corrected member |
|---|---|---|---|---|---|---|
| source/simulation/scion/scion_cens_select.py:88-91 and source/report_crp_results.py:133-136 | a core is added before the count is compared with N, so the loop always keeps at least one core | N = 0 (the `perc` mode gives it when there are no potential censors) with one foreign-connected ISD core: that core is chosen as a censor | N of zero or less chooses no censor | medium, not executed | CensSelect.SelectBiggestConeSizeIsd (shown by CensSelect.ZeroCensorsExample and CensSelect.AsWrittenNeverEmpty) | CensSelect.SelectBiggestConeSizeIsdFixed |
