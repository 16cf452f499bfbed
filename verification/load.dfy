/**
 * The line formats of source/utils/load.py and the writers that produce
 * them. A file is the sequence of its lines without their line breaks; each
 * loader is a left fold over the lines whose step either updates the loader's
 * state or fails as the Python would (an `IndexError` on a missing field, a
 * `ValueError` from `int`, an unbound local when a section never appeared).
 */
module Load {
  import opened Wrappers
  import opened Strings
  import opened Utils
  import opened Topology

  type Lines = seq<string>

  /** Runs `step` over the lines in order, stopping at the first failure. */
  function Fold<S>(step: (S, string) -> Result<S>, st: S, lines: Lines): Result<S>
    decreases |lines|
  {
    if |lines| == 0 then Ok(st)
    else
      match step(st, lines[0])
      case Err(e) => Err(e)
      case Ok(st') => Fold(step, st', lines[1..])
  }

  function Then<S>(r: Result<S>, step: (S, string) -> Result<S>, lines: Lines): Result<S> {
    match r
    case Err(e) => Err(e)
    case Ok(st) => Fold(step, st, lines)
  }

  lemma {:induction false} FoldAppend<S>(step: (S, string) -> Result<S>, st: S, a: Lines, b: Lines)
    ensures Fold(step, st, a + b) == Then(Fold(step, st, a), step, b)
    decreases |a|
  {
    if |a| > 0 {
      assert (a + b)[0] == a[0];
      assert (a + b)[1..] == a[1..] + b;
      match step(st, a[0])
      case Err(e) =>
      case Ok(st') => FoldAppend(step, st', a[1..], b);
    } else {
      assert a + b == b;
    }
  }

  lemma FoldCons<S>(step: (S, string) -> Result<S>, st: S, l: string, rest: Lines)
    ensures Fold(step, st, [l] + rest) == Then(step(st, l), step, rest)
  {
    assert ([l] + rest)[0] == l && ([l] + rest)[1..] == rest;
  }

  /** Lines the state `st` ignores can be dropped from the front. */
  lemma {:induction false} FoldIgnored<S>(step: (S, string) -> Result<S>, st: S, cs: Lines, body: Lines)
    requires forall i :: 0 <= i < |cs| ==> step(st, cs[i]) == Ok(st)
    ensures Fold(step, st, cs + body) == Fold(step, st, body)
    decreases |cs|
  {
    if |cs| > 0 {
      assert (cs + body)[0] == cs[0];
      assert (cs + body)[1..] == cs[1..] + body;
      FoldIgnored(step, st, cs[1..], body);
    } else {
      assert cs + body == body;
    }
  }

  /** Every line of `cs` starts with `#`. */
  predicate AllHashLed(cs: Lines) {
    forall i :: 0 <= i < |cs| ==> |cs[i]| > 0 && cs[i][0] == '#'
  }

  lemma AllHashLedComments(cs: Lines)
    requires AllHashLed(cs)
    ensures forall i :: 0 <= i < |cs| ==> IsComment(cs[i])
  {
    forall i | 0 <= i < |cs| ensures IsComment(cs[i]) {
      HashLedIsComment(cs[i]);
    }
  }

  /** A line every state ignores can be dropped. */
  lemma FoldSkip<S>(step: (S, string) -> Result<S>, st: S, a: Lines, c: string, b: Lines)
    requires forall s :: step(s, c) == Ok(s)
    ensures Fold(step, st, a + [c] + b) == Fold(step, st, a + b)
  {
    FoldAppend(step, st, a + [c], b);
    FoldAppend(step, st, a, [c]);
    FoldAppend(step, st, a, b);
    match Fold(step, st, a)
    case Err(e) =>
    case Ok(s1) => assert Fold(step, s1, [c]) == Ok(s1);
  }

  /** `line.strip().split('|')`. */
  function Fields(line: string): (r: seq<string>)
    ensures |r| >= 1
  {
    Split(Strip(line), '|')
  }

  // ---------------------------------------------------------------------------
  // load_AS_topology
  // ---------------------------------------------------------------------------

  /** The topology built so far and the order in which its keys appeared. */
  datatype TopoState = TopoState(order: seq<Asn>, topo: Topo)

  /** `topology[asn]` on the defaultdict: a first access creates the key. */
  function Touch(st: TopoState, a: Asn): (r: TopoState)
    ensures a in r.topo && r.topo.Keys == st.topo.Keys + {a}
    ensures forall x :: x in st.topo ==> r.topo[x] == st.topo[x]
  {
    if a in st.topo then st else TopoState(st.order + [a], st.topo[a := NoRels])
  }

  /** One `asn1|asn2|rel` line: `-1` is provider to customer, any other code a peering. */
  function AddLink(st: TopoState, a1: Asn, a2: Asn, rel: int): TopoState {
    var s := Touch(Touch(st, a1), a2);
    var t := s.topo;
    if rel == -1 then
      var t1 := t[a1 := t[a1].(customers := t[a1].customers + [a2])];
      TopoState(s.order, t1[a2 := t1[a2].(providers := t1[a2].providers + [a1])])
    else
      var t1 := t[a1 := t[a1].(peers := t[a1].peers + [a2])];
      TopoState(s.order, t1[a2 := t1[a2].(peers := t1[a2].peers + [a1])])
  }

  function TopoStep(st: TopoState, line: string): Result<TopoState> {
    if IsComment(line) then Ok(st)
    else
      var arr := Fields(line);
      if |arr| < 3 then Err(MissingField)
      else
        var rel :- ParseInt(arr[2]);
        Ok(AddLink(st, arr[0], arr[1], rel))
  }

  /** `load_AS_topology`: the topology and its keys in insertion order. */
  function LoadAsTopology(lines: Lines): Result<TopoState> {
    Fold(TopoStep, TopoState([], map[]), lines)
  }

  ghost predicate TopoInv(st: TopoState) {
    Symmetric(st.topo) && Closed(st.topo) && Enumerates(st.order, st.topo)
  }

  lemma OccurrencesAppend<T>(s: seq<T>, z: T, x: T)
    ensures Occurrences(s + [z], x) == Occurrences(s, x) + (if z == x then 1 else 0)
  {
    assert multiset(s + [z]) == multiset(s) + multiset{z};
  }

  lemma TouchInv(st: TopoState, a: Asn)
    requires TopoInv(st)
    ensures TopoInv(Touch(st, a))
  {
    if a !in st.topo {
      TouchSameLinks(st, a);
      TouchEnumerates(st, a);
    }
  }

  /** A new AS starts without links, so every link list stays as it was. */
  lemma TouchSameLinks(st: TopoState, a: Asn)
    requires a !in st.topo
    ensures forall x :: Customers(Touch(st, a).topo, x) == Customers(st.topo, x)
    ensures forall x :: Providers(Touch(st, a).topo, x) == Providers(st.topo, x)
    ensures forall x :: Peers(Touch(st, a).topo, x) == Peers(st.topo, x)
  {
  }

  lemma TouchEnumerates(st: TopoState, a: Asn)
    requires a !in st.topo && Enumerates(st.order, st.topo)
    ensures Enumerates(Touch(st, a).order, Touch(st, a).topo)
  {
    assert forall x :: x in st.order ==> x != a;
  }

  lemma AddLinkInv(st: TopoState, a1: Asn, a2: Asn, rel: int)
    requires TopoInv(st)
    ensures TopoInv(AddLink(st, a1, a2, rel))
  {
    TouchInv(st, a1);
    TouchInv(Touch(st, a1), a2);
    var s := Touch(Touch(st, a1), a2);
    var r := AddLink(st, a1, a2, rel);
    assert r.topo.Keys == s.topo.Keys;
    AddLinkClosed(s, a1, a2, rel);
    if rel == -1 {
      AddCustomerSymmetric(s, a1, a2);
    } else {
      AddPeerSymmetric(s, a1, a2);
    }
  }

  lemma AddLinkClosed(s: TopoState, a1: Asn, a2: Asn, rel: int)
    requires Closed(s.topo) && a1 in s.topo && a2 in s.topo
    requires s == Touch(Touch(s, a1), a2)
    ensures Closed(AddLink(s, a1, a2, rel).topo)
  {
    var r := AddLink(s, a1, a2, rel).topo;
    forall a, b | a in r && b in Neighbours(r, a)
      ensures b in r
    {
      assert b in Neighbours(s.topo, a) || b == a1 || b == a2;
    }
  }

  lemma AddCustomerSymmetric(s: TopoState, a1: Asn, a2: Asn)
    requires Symmetric(s.topo) && a1 in s.topo && a2 in s.topo
    requires s == Touch(Touch(s, a1), a2)
    ensures Symmetric(AddLink(s, a1, a2, -1).topo)
  {
    var r := AddLink(s, a1, a2, -1);
    forall x, y
      ensures Occurrences(Customers(r.topo, x), y) == Occurrences(Providers(r.topo, y), x)
    {
      CustomersAfterLink(s, a1, a2, x, y);
    }
    assert forall x :: Peers(r.topo, x) == Peers(s.topo, x);
  }

  lemma CustomersAfterLink(s: TopoState, a1: Asn, a2: Asn, x: Asn, y: Asn)
    requires a1 in s.topo && a2 in s.topo
    requires s == Touch(Touch(s, a1), a2)
    ensures var r := AddLink(s, a1, a2, -1);
      && Occurrences(Customers(r.topo, x), y) == Occurrences(Customers(s.topo, x), y) + (if x == a1 && y == a2 then 1 else 0)
      && Occurrences(Providers(r.topo, y), x) == Occurrences(Providers(s.topo, y), x) + (if x == a1 && y == a2 then 1 else 0)
  {
    var r := AddLink(s, a1, a2, -1);
    assert Customers(r.topo, x) == Customers(s.topo, x) + (if x == a1 then [a2] else []);
    assert Providers(r.topo, y) == Providers(s.topo, y) + (if y == a2 then [a1] else []);
    if x == a1 { OccurrencesAppend(Customers(s.topo, x), a2, y); }
    if y == a2 { OccurrencesAppend(Providers(s.topo, y), a1, x); }
  }

  lemma AddPeerSymmetric(s: TopoState, a1: Asn, a2: Asn)
    requires Symmetric(s.topo) && a1 in s.topo && a2 in s.topo
    requires s == Touch(Touch(s, a1), a2)
    ensures Symmetric(AddLink(s, a1, a2, 0).topo)
  {
    var r := AddLink(s, a1, a2, 0);
    forall x, y
      ensures Occurrences(Peers(r.topo, x), y) == Occurrences(Peers(r.topo, y), x)
    {
      PeersAfterLink(s, a1, a2, x, y);
      PeersAfterLink(s, a1, a2, y, x);
    }
    assert forall x :: Customers(r.topo, x) == Customers(s.topo, x);
    assert forall x :: Providers(r.topo, x) == Providers(s.topo, x);
  }

  lemma PeersAfterLink(s: TopoState, a1: Asn, a2: Asn, x: Asn, y: Asn)
    requires a1 in s.topo && a2 in s.topo
    ensures var t := s.topo;
      var t1 := t[a1 := t[a1].(peers := t[a1].peers + [a2])];
      var t2 := t1[a2 := t1[a2].(peers := t1[a2].peers + [a1])];
      Occurrences(Peers(t2, x), y) == Occurrences(Peers(t, x), y)
        + (if x == a1 && y == a2 then 1 else 0) + (if x == a2 && y == a1 then 1 else 0)
  {
    var t := s.topo;
    var t1 := t[a1 := t[a1].(peers := t[a1].peers + [a2])];
    var t2 := t1[a2 := t1[a2].(peers := t1[a2].peers + [a1])];
    if x == a1 { OccurrencesAppend(Peers(t, x), a2, y); }
    if x == a2 { OccurrencesAppend(Peers(t1, x), a1, y); }
  }

  lemma {:induction false} TopoFoldInv(st: TopoState, lines: Lines)
    requires TopoInv(st)
    ensures Fold(TopoStep, st, lines).Ok? ==> TopoInv(Fold(TopoStep, st, lines).value)
    decreases |lines|
  {
    if |lines| > 0 {
      var r := TopoStep(st, lines[0]);
      if r.Ok? {
        if !IsComment(lines[0]) {
          var arr := Fields(lines[0]);
          AddLinkInv(st, arr[0], arr[1], ParseInt(arr[2]).value);
        }
        TopoFoldInv(r.value, lines[1..]);
      }
    }
  }

  /**
   * The loaded topology records every link on both ends with equal
   * multiplicities, lists only ASes that are keys, and its key order lists
   * each key once.
   */
  lemma LoadAsTopologyWellFormed(lines: Lines)
    requires LoadAsTopology(lines).Ok?
    ensures TopoInv(LoadAsTopology(lines).value)
  {
    TopoFoldInv(TopoState([], map[]), lines);
  }

  /** Comment lines do not change what is loaded. */
  lemma LoadAsTopologySkipsComments(a: Lines, c: string, b: Lines)
    requires IsComment(c)
    ensures LoadAsTopology(a + [c] + b) == LoadAsTopology(a + b)
  {
    FoldSkip(TopoStep, TopoState([], map[]), a, c, b);
  }

  /** A data line whose code is not `-1` records a peering on both ends. */
  lemma TopoStepPeer(st: TopoState, line: string, a1: Asn, a2: Asn)
    requires !IsComment(line)
    requires |Fields(line)| >= 3 && Fields(line)[0] == a1 && Fields(line)[1] == a2
    requires ParseInt(Fields(line)[2]).Ok? && ParseInt(Fields(line)[2]).value != -1
    ensures TopoStep(st, line).Ok?
    ensures a2 in Peers(TopoStep(st, line).value.topo, a1)
    ensures a1 in Peers(TopoStep(st, line).value.topo, a2)
  {
  }

  // ---------------------------------------------------------------------------
  // load_routing_topo and _save_routing_topo
  // ---------------------------------------------------------------------------

  /** A routing tree as stored on disk: AS to next hop, without the destination. */
  datatype RouteState = RouteState(parsing: bool, parsed: bool, dest: Option<Asn>, routes: Routes)

  /**
   * Until the first comment that follows a data line, every data line
   * replaces the destination; afterwards each is an `asn|next_hop` entry.
   */
  function RouteStep(st: RouteState, line: string): Result<RouteState> {
    if IsComment(line) then Ok(if st.parsing then st.(parsed := true) else st)
    else if !st.parsed then Ok(st.(parsing := true, dest := Some(Strip(line))))
    else
      var arr := Fields(line);
      if |arr| < 2 then Err(MissingField)
      else Ok(st.(routes := st.routes[arr[0] := arr[1]]))
  }

  function LoadRoutingTopo(lines: Lines): Result<(Asn, Routes)> {
    var st :- Fold(RouteStep, RouteState(false, false, None, map[]), lines);
    if st.dest.None? then Err(Unbound) else Ok((st.dest.value, st.routes))
  }

  const RoutingTopoInfo: Lines := ["# Routing topo", "#", "# Format:", "# ASN|next_hop"]

  /** The entries `_save_routing_topo` writes: one per AS whose next hop is not `None`. */
  function RouteEntries(order: seq<Asn>, routing: map<Asn, Option<Asn>>): Lines
    requires forall a :: a in order ==> a in routing
  {
    if |order| == 0 then []
    else
      var a := order[0];
      (if routing[a].Some? then [Join([a, routing[a].value], '|')] else [])
        + RouteEntries(order[1..], routing)
  }

  /** `_save_routing_topo`, with the dictionary's items in the order `order`. */
  function SaveRoutingTopo(dest: Asn, order: seq<Asn>, routing: map<Asn, Option<Asn>>): Lines
    requires forall a :: a in order ==> a in routing
  {
    ["# Destination", dest] + RoutingTopoInfo + RouteEntries(order, routing)
  }

  /** The entries of a routing map that have a next hop. */
  function Present(routing: map<Asn, Option<Asn>>): (r: Routes)
    ensures forall a :: a in r <==> a in routing && routing[a].Some?
    ensures forall a :: a in r ==> r[a] == routing[a].value
  {
    map a | a in routing && routing[a].Some? :: routing[a].value
  }

  predicate RoutingClean(routing: map<Asn, Option<Asn>>) {
    forall a :: a in routing ==> FieldOk(a) && (routing[a].Some? ==> FieldOk(routing[a].value))
  }

  /** `m` after the entries of `order` with a next hop have been assigned in turn. */
  function Assign(m: Routes, order: seq<Asn>, routing: map<Asn, Option<Asn>>): (r: Routes)
    requires forall a :: a in order ==> a in routing
    ensures forall a :: a in r <==> a in m || (a in order && routing[a].Some?)
    ensures forall a :: a in r ==> r[a] == if a in order && routing[a].Some? then routing[a].value else m[a]
    decreases |order|
  {
    if |order| == 0 then m
    else
      var a := order[0];
      var m' := if routing[a].Some? then m[a := routing[a].value] else m;
      assert forall x :: x in order <==> x == a || x in order[1..];
      Assign(m', order[1..], routing)
  }

  lemma RouteStepEntry(d: Asn, m: Routes, a: Asn, h: Asn)
    requires FieldOk(a) && FieldOk(h)
    ensures RouteStep(RouteState(true, true, Some(d), m), Join([a, h], '|'))
         == Ok(RouteState(true, true, Some(d), m[a := h]))
  {
    DataLine([a, h]);
  }

  /**
   * Before the entries every data line replaces the destination, and the first
   * comment after one closes the header: the last data line names the destination.
   */
  lemma {:induction false} RoutingDestinationLast(st: RouteState, heads: Lines, c: string, body: Lines)
    requires !st.parsed && st.routes == map[]
    requires |heads| > 0 && forall i :: 0 <= i < |heads| ==> !IsComment(heads[i])
    requires IsComment(c)
    ensures Fold(RouteStep, st, heads + [c] + body)
         == Fold(RouteStep, RouteState(true, true, Some(Strip(heads[|heads| - 1])), map[]), body)
    decreases |heads|
  {
    var st' := st.(parsing := true, dest := Some(Strip(heads[0])));
    HeadsSplit(heads, c, body);
    HeaderLine(st, heads[0], heads[1..] + [c] + body);
    if |heads| == 1 {
      HeaderClose(st', c, body);
    } else {
      RoutingDestinationLast(st', heads[1..], c, body);
    }
  }

  /** How the header lines split around their first line. */
  lemma HeadsSplit(heads: Lines, c: string, body: Lines)
    requires |heads| > 0 && forall i :: 0 <= i < |heads| ==> !IsComment(heads[i])
    ensures heads + [c] + body == [heads[0]] + (heads[1..] + [c] + body)
    ensures !IsComment(heads[0])
    ensures |heads| == 1 ==> heads[1..] + [c] + body == [c] + body
    ensures |heads| > 1 ==> heads[1..][|heads[1..]| - 1] == heads[|heads| - 1]
    ensures forall i :: 0 <= i < |heads[1..]| ==> !IsComment(heads[1..][i])
  {
    ConsSplit(heads, c, body);
    TailNoComments(heads);
  }

  lemma ConsSplit<T>(heads: seq<T>, c: T, body: seq<T>)
    requires |heads| > 0
    ensures heads + [c] + body == [heads[0]] + (heads[1..] + [c] + body)
    ensures |heads| == 1 ==> heads[1..] + [c] + body == [c] + body
    ensures |heads| > 1 ==> heads[1..][|heads[1..]| - 1] == heads[|heads| - 1]
  {
  }

  lemma TailNoComments(heads: Lines)
    requires |heads| > 0 && forall i :: 0 <= i < |heads| ==> !IsComment(heads[i])
    ensures forall i :: 0 <= i < |heads[1..]| ==> !IsComment(heads[1..][i])
  {
    forall i | 0 <= i < |heads[1..]|
      ensures !IsComment(heads[1..][i])
    {
      assert heads[1..][i] == heads[i + 1];
    }
  }

  lemma HeaderLine(st: RouteState, l: string, rest: Lines)
    requires !st.parsed && !IsComment(l)
    ensures Fold(RouteStep, st, [l] + rest) == Fold(RouteStep, st.(parsing := true, dest := Some(Strip(l))), rest)
  {
    FoldCons(RouteStep, st, l, rest);
  }

  lemma HeaderClose(st: RouteState, c: string, body: Lines)
    requires st.parsing && IsComment(c)
    ensures Fold(RouteStep, st, [c] + body) == Fold(RouteStep, st.(parsed := true), body)
  {
    FoldCons(RouteStep, st, c, body);
  }

  lemma {:induction false} RouteEntriesFold(d: Asn, m: Routes, order: seq<Asn>, routing: map<Asn, Option<Asn>>)
    requires forall a :: a in order ==> a in routing
    requires RoutingClean(routing)
    ensures Fold(RouteStep, RouteState(true, true, Some(d), m), RouteEntries(order, routing))
         == Ok(RouteState(true, true, Some(d), Assign(m, order, routing)))
    decreases |order|
  {
    if |order| > 0 {
      var a := order[0];
      var rest := RouteEntries(order[1..], routing);
      var m' := if routing[a].Some? then m[a := routing[a].value] else m;
      if routing[a].Some? {
        var line := Join([a, routing[a].value], '|');
        RouteStepEntry(d, m, a, routing[a].value);
        FoldAppend(RouteStep, RouteState(true, true, Some(d), m), [line], rest);
      } else {
        assert RouteEntries(order, routing) == rest;
      }
      RouteEntriesFold(d, m', order[1..], routing);
    }
  }

  /**
   * Reading back what `_save_routing_topo` wrote gives the destination and
   * every entry whose next hop is not `None`.
   */
  lemma LoadSaveRoutingTopo(dest: Asn, order: seq<Asn>, routing: map<Asn, Option<Asn>>)
    requires forall a :: a in order <==> a in routing
    requires FieldOk(dest) && RoutingClean(routing)
    ensures LoadRoutingTopo(SaveRoutingTopo(dest, order, routing)) == Ok((dest, Present(routing)))
  {
    var body := RouteEntries(order, routing);
    var lines := SaveRoutingTopo(dest, order, routing);
    assert lines == ["# Destination", dest] + RoutingTopoInfo + body;
    RouteHeader(dest, body);
    RouteEntriesFold(dest, map[], order, routing);
    AssignAll(order, routing);
    var fin := RouteState(true, true, Some(dest), Present(routing));
    assert Fold(RouteStep, RouteState(false, false, None, map[]), lines) == Ok(fin);
  }

  lemma AssignAll(order: seq<Asn>, routing: map<Asn, Option<Asn>>)
    requires forall a :: a in order <==> a in routing
    ensures Assign(map[], order, routing) == Present(routing)
  {
    var r, p := Assign(map[], order, routing), Present(routing);
    assert forall a :: a in r <==> a in p;
    assert forall a :: a in r ==> r[a] == p[a];
  }

  lemma RoutingHeaderComments()
    ensures forall i :: 0 <= i < |RoutingTopoInfo| ==> IsComment(RoutingTopoInfo[i])
    ensures IsComment("# Destination")
  {
    AllHashLedComments(RoutingTopoInfo);
    HashLedIsComment("# Destination");
  }

  /** The header leaves the parser with the destination read and the entries to come. */
  lemma RouteHeader(dest: Asn, body: Lines)
    requires FieldOk(dest)
    ensures Fold(RouteStep, RouteState(false, false, None, map[]), ["# Destination", dest] + RoutingTopoInfo + body)
         == Fold(RouteStep, RouteState(true, true, Some(dest), map[]), body)
  {
    RoutingHeaderComments();
    var init := RouteState(false, false, None, map[]);
    var st1 := RouteState(true, false, Some(dest), map[]);
    var st2 := RouteState(true, true, Some(dest), map[]);
    StripTrimmed(dest);
    var info := RoutingTopoInfo + body;
    var lines := ["# Destination", dest] + RoutingTopoInfo + body;
    Regroup("# Destination", dest, RoutingTopoInfo, body);
    Uncons(RoutingTopoInfo, body);
    calc {
      Fold(RouteStep, init, lines);
      { FoldCons(RouteStep, init, "# Destination", [dest] + info); }
      Then(RouteStep(init, "# Destination"), RouteStep, [dest] + info);
      { assert RouteStep(init, "# Destination") == Ok(init); }
      Fold(RouteStep, init, [dest] + info);
      { FoldCons(RouteStep, init, dest, info); }
      Then(RouteStep(init, dest), RouteStep, info);
      { assert !IsComment(dest); assert RouteStep(init, dest) == Ok(st1); }
      Fold(RouteStep, st1, info);
      { FoldCons(RouteStep, st1, RoutingTopoInfo[0], RoutingTopoInfo[1..] + body); }
      Then(RouteStep(st1, RoutingTopoInfo[0]), RouteStep, RoutingTopoInfo[1..] + body);
      { assert RouteStep(st1, RoutingTopoInfo[0]) == Ok(st2); }
      Fold(RouteStep, st2, RoutingTopoInfo[1..] + body);
      { FoldIgnored(RouteStep, st2, RoutingTopoInfo[1..], body); }
      Fold(RouteStep, st2, body);
    }
  }

  /**
   * The shape shared by the sectioned formats: comment lines the start state
   * ignores, one data line, then a comment block whose first line closes the
   * section and whose other lines are ignored.
   */
  lemma {:induction false} Sections<S>(step: (S, string) -> Result<S>, s0: S, s1: S, s2: S,
                                      pre: Lines, line: string, mid: Lines, body: Lines)
    requires forall i :: 0 <= i < |pre| ==> step(s0, pre[i]) == Ok(s0)
    requires step(s0, line) == Ok(s1)
    requires |mid| > 0 && step(s1, mid[0]) == Ok(s2)
    requires forall i :: 1 <= i < |mid| ==> step(s2, mid[i]) == Ok(s2)
    ensures Fold(step, s0, pre + [line] + mid + body) == Fold(step, s2, body)
  {
    assert pre + [line] + mid + body == pre + ([line] + (mid + body));
    FoldIgnored(step, s0, pre, [line] + (mid + body));
    FoldCons(step, s0, line, mid + body);
    Uncons(mid, body);
    FoldCons(step, s1, mid[0], mid[1..] + body);
    FoldIgnored(step, s2, mid[1..], body);
  }

  // ---------------------------------------------------------------------------
  // load_choke_potentials and the writer of choke_potential.py
  // ---------------------------------------------------------------------------

  datatype CpState = CpState(parsing: bool, parsed: bool, country: Option<string>, total: Option<int>, cpp: Dict<Asn, int>)

  /**
   * Until the first comment after a data line, each data line sets the
   * country and the total path count; afterwards each is `border|count`.
   */
  function CpStep(st: CpState, line: string): Result<CpState> {
    if IsComment(line) then Ok(if st.parsing then st.(parsed := true) else st)
    else
      var arr := Fields(line);
      if |arr| < 2 then Err(MissingField)
      else
        var n :- ParseInt(arr[1]);
        if !st.parsed then Ok(st.(parsing := true, country := Some(arr[0]), total := Some(n)))
        else Ok(st.(cpp := Put(st.cpp, arr[0], n)))
  }

  /** `load_choke_potentials`: country, total path count, and the potentials in file order. */
  function LoadChokePotentials(lines: Lines): Result<(string, int, Dict<Asn, int>)> {
    var st :- Fold(CpStep, CpState(false, false, None, None, []), lines);
    if st.country.None? || st.total.None? then Err(Unbound)
    else Ok((st.country.value, st.total.value, st.cpp))
  }

  const CpInitialInfo: Lines := ["# Country info; focus on the mainland only", "#", "# Format:", "# Country|total_path_cnt"]
  const CpChokepointInfo: Lines := ["# Chokepoint potentials", "#", "# Format:", "# Border_ASN|intercepted_outflow_cnt"]

  /** `cp_potentials[border_asn]` on a defaultdict(int). */
  function CountOf(cp: map<Asn, int>, a: Asn): int {
    if a in cp then cp[a] else 0
  }

  function CpEntries(borders: seq<Asn>, cp: map<Asn, int>): Lines {
    if |borders| == 0 then []
    else [Join([borders[0], IntToString(CountOf(cp, borders[0]))], '|')] + CpEntries(borders[1..], cp)
  }

  /** The file `_calc_save_chokepoint_potentials` writes. */
  function SaveChokePotentials(country: string, pathCnt: int, borders: seq<Asn>, cp: map<Asn, int>): Lines {
    CpInitialInfo + [Join([country, IntToString(pathCnt)], '|')] + CpChokepointInfo + CpEntries(borders, cp)
  }

  /** The items the writer stores, in the order of the border list. */
  function CpItems(borders: seq<Asn>, cp: map<Asn, int>): (r: Dict<Asn, int>)
    ensures Keys(r) == borders
  {
    if |borders| == 0 then [] else [(borders[0], CountOf(cp, borders[0]))] + CpItems(borders[1..], cp)
  }

  /** One `border|count` line appends its item to the potentials read so far. */
  lemma CpEntryStep(st: CpState, b: Asn, n: int)
    requires st.parsed && FieldOk(b) && b !in Keys(st.cpp)
    ensures CpStep(st, Join([b, IntToString(n)], '|')) == Ok(st.(cpp := st.cpp + [(b, n)]))
  {
    IntToStringShape(n);
    DataLine([b, IntToString(n)]);
    ParseIntToString(n);
  }

  lemma {:induction false} CpEntriesFold(st: CpState, borders: seq<Asn>, cp: map<Asn, int>)
    requires st.parsed && DistinctKeys(st.cpp)
    requires Distinct(borders) && forall i :: 0 <= i < |borders| ==> FieldOk(borders[i])
    requires forall i :: 0 <= i < |borders| ==> borders[i] !in Keys(st.cpp)
    ensures Fold(CpStep, st, CpEntries(borders, cp)) == Ok(st.(cpp := st.cpp + CpItems(borders, cp)))
    decreases |borders|
  {
    if |borders| > 0 {
      var b := borders[0];
      var n := CountOf(cp, b);
      CpEntriesHead(st, borders, cp);
      CpTail(st.cpp, borders, n);
      CpEntriesFold(st.(cpp := st.cpp + [(b, n)]), borders[1..], cp);
    } else {
      assert st.cpp + [] == st.cpp;
    }
  }

  /** After the first border is read, the rest are still fresh and distinct. */
  lemma CpTail(cpp: Dict<Asn, int>, borders: seq<Asn>, n: int)
    requires DistinctKeys(cpp) && |borders| > 0 && Distinct(borders)
    requires forall i :: 0 <= i < |borders| ==> borders[i] !in Keys(cpp)
    requires forall i :: 0 <= i < |borders| ==> FieldOk(borders[i])
    ensures DistinctKeys(cpp + [(borders[0], n)]) && Distinct(borders[1..])
    ensures forall i :: 0 <= i < |borders[1..]| ==> borders[1..][i] !in Keys(cpp + [(borders[0], n)])
    ensures forall i :: 0 <= i < |borders[1..]| ==> FieldOk(borders[1..][i])
  {
    PutNewKeys(cpp, borders[0], n);
    DistinctTail(borders, Keys(cpp));
    assert forall i :: 0 <= i < |borders[1..]| ==> borders[1..][i] == borders[i + 1];
  }

  /** The first `border|count` line, then the rest. */
  lemma CpEntriesHead(st: CpState, borders: seq<Asn>, cp: map<Asn, int>)
    requires st.parsed && |borders| > 0 && FieldOk(borders[0]) && borders[0] !in Keys(st.cpp)
    ensures Fold(CpStep, st, CpEntries(borders, cp))
         == Fold(CpStep, st.(cpp := st.cpp + [(borders[0], CountOf(cp, borders[0]))]), CpEntries(borders[1..], cp))
    ensures st.cpp + [(borders[0], CountOf(cp, borders[0]))] + CpItems(borders[1..], cp) == st.cpp + CpItems(borders, cp)
  {
    var b := borders[0];
    var n := CountOf(cp, b);
    CpEntryStep(st, b, n);
    FoldCons(CpStep, st, Join([b, IntToString(n)], '|'), CpEntries(borders[1..], cp));
    Reassoc(st.cpp, (b, n), CpItems(borders[1..], cp));
  }

  lemma CpHeaderComments()
    ensures forall i :: 0 <= i < |CpInitialInfo| ==> IsComment(CpInitialInfo[i])
    ensures forall i :: 0 <= i < |CpChokepointInfo| ==> IsComment(CpChokepointInfo[i])
  {
    AllHashLedComments(CpInitialInfo);
    AllHashLedComments(CpChokepointInfo);
  }

  /** The `country|total` line starts the chokepoint section. */
  lemma CpCountryLine(country: string, pathCnt: int)
    requires FieldOk(country)
    ensures CpStep(CpState(false, false, None, None, []), Join([country, IntToString(pathCnt)], '|'))
         == Ok(CpState(true, false, Some(country), Some(pathCnt), []))
  {
    IntToStringShape(pathCnt);
    DataLine([country, IntToString(pathCnt)]);
    ParseIntToString(pathCnt);
  }

  /**
   * Reading back the chokepoint file gives the country, the total, and each
   * border AS with its potential (0 when it had none), in the writer's order.
   */
  lemma LoadSaveChokePotentials(country: string, pathCnt: int, borders: seq<Asn>, cp: map<Asn, int>)
    requires FieldOk(country)
    requires Distinct(borders) && forall i :: 0 <= i < |borders| ==> FieldOk(borders[i])
    ensures LoadChokePotentials(SaveChokePotentials(country, pathCnt, borders, cp))
         == Ok((country, pathCnt, CpItems(borders, cp)))
  {
    var s2 := CpState(true, true, Some(country), Some(pathCnt), []);
    CpSections(country, pathCnt, CpEntries(borders, cp));
    CpEntriesFold(s2, borders, cp);
    NilConcat(CpItems(borders, cp));
    CpLoaded(SaveChokePotentials(country, pathCnt, borders, cp), s2.(cpp := CpItems(borders, cp)));
  }

  lemma CpLoaded(lines: Lines, st: CpState)
    requires Fold(CpStep, CpState(false, false, None, None, []), lines) == Ok(st)
    requires st.country.Some? && st.total.Some?
    ensures LoadChokePotentials(lines) == Ok((st.country.value, st.total.value, st.cpp))
  {
  }

  /** The header comments, the `country|total` line and the second comment block. */
  lemma CpSections(country: string, pathCnt: int, body: Lines)
    requires FieldOk(country)
    ensures Fold(CpStep, CpState(false, false, None, None, []),
                 CpInitialInfo + [Join([country, IntToString(pathCnt)], '|')] + CpChokepointInfo + body)
         == Fold(CpStep, CpState(true, true, Some(country), Some(pathCnt), []), body)
  {
    CpHeaderComments();
    var s0 := CpState(false, false, None, None, []);
    var s1 := CpState(true, false, Some(country), Some(pathCnt), []);
    var s2 := CpState(true, true, Some(country), Some(pathCnt), []);
    CpCountryLine(country, pathCnt);
    assert CpStep(s1, CpChokepointInfo[0]) == Ok(s2);
    Sections(CpStep, s0, s1, s2, CpInitialInfo, Join([country, IntToString(pathCnt)], '|'), CpChokepointInfo, body);
  }

  // ---------------------------------------------------------------------------
  // load_SCION_core_topo_no_rels
  // ---------------------------------------------------------------------------

  /** Core links: `scion_core_topo[asn]['cores']`, with keys in order of appearance. */
  datatype CoreState = CoreState(order: seq<Asn>, cores: map<Asn, seq<Asn>>)

  function CoresOf(m: map<Asn, seq<Asn>>, a: Asn): seq<Asn> {
    if a in m then m[a] else []
  }

  function CoreStep(st: CoreState, line: string): Result<CoreState> {
    if IsComment(line) then Ok(st)
    else
      var arr := Fields(line);
      if |arr| < 2 then Err(MissingField)
      else Ok(AddCoreLink(st, arr[0], arr[1]))
  }

  function AddCoreLink(st: CoreState, a1: Asn, a2: Asn): CoreState {
    var o1 := if a1 in st.cores then st.order else st.order + [a1];
    var m1 := st.cores[a1 := CoresOf(st.cores, a1) + [a2]];
    var o2 := if a2 in m1 then o1 else o1 + [a2];
    CoreState(o2, m1[a2 := CoresOf(m1, a2) + [a1]])
  }

  /** `load_SCION_core_topo_no_rels`: whatever the optional third field says, a link is a core link. */
  function LoadScionCoreTopoNoRels(lines: Lines): Result<CoreState> {
    Fold(CoreStep, CoreState([], map[]), lines)
  }

  ghost predicate CoreSymmetric(m: map<Asn, seq<Asn>>) {
    forall a, b :: Occurrences(CoresOf(m, a), b) == Occurrences(CoresOf(m, b), a)
  }

  /** Appending `b` to the core list of `a` adds one occurrence of exactly that pair. */
  lemma CoreAppend(m: map<Asn, seq<Asn>>, a: Asn, b: Asn, x: Asn, y: Asn)
    ensures Occurrences(CoresOf(m[a := CoresOf(m, a) + [b]], x), y)
         == Occurrences(CoresOf(m, x), y) + (if x == a && y == b then 1 else 0)
  {
    if x == a { OccurrencesAppend(CoresOf(m, a), b, y); }
  }

  lemma AddCoreLinkSymmetric(st: CoreState, a1: Asn, a2: Asn)
    requires CoreSymmetric(st.cores)
    ensures CoreSymmetric(AddCoreLink(st, a1, a2).cores)
  {
    var m := st.cores;
    var m1 := m[a1 := CoresOf(m, a1) + [a2]];
    var m2 := m1[a2 := CoresOf(m1, a2) + [a1]];
    assert AddCoreLink(st, a1, a2).cores == m2;
    forall x, y
      ensures Occurrences(CoresOf(m2, x), y) == Occurrences(CoresOf(m2, y), x)
    {
      CoreAppend(m, a1, a2, x, y);
      CoreAppend(m1, a2, a1, x, y);
      CoreAppend(m, a1, a2, y, x);
      CoreAppend(m1, a2, a1, y, x);
    }
  }

  lemma {:induction false} CoreFoldSymmetric(st: CoreState, lines: Lines)
    requires CoreSymmetric(st.cores)
    ensures Fold(CoreStep, st, lines).Ok? ==> CoreSymmetric(Fold(CoreStep, st, lines).value.cores)
    decreases |lines|
  {
    if |lines| > 0 {
      var r := CoreStep(st, lines[0]);
      if r.Ok? {
        if !IsComment(lines[0]) {
          var arr := Fields(lines[0]);
          AddCoreLinkSymmetric(st, arr[0], arr[1]);
        }
        CoreFoldSymmetric(r.value, lines[1..]);
      }
    }
  }

  /** The core adjacency is symmetric, with equal multiplicities. */
  lemma LoadScionCoreTopoSymmetric(lines: Lines)
    requires LoadScionCoreTopoNoRels(lines).Ok?
    ensures CoreSymmetric(LoadScionCoreTopoNoRels(lines).value.cores)
  {
    CoreFoldSymmetric(CoreState([], map[]), lines);
  }

  /** Only the first two fields of a link line matter. */
  lemma CoreStepIgnoresLinkType(st: CoreState, a1: Asn, a2: Asn, kind: string)
    requires FieldOk(a1) && FieldOk(a2) && FieldOk(kind)
    ensures CoreStep(st, Join([a1, a2, kind], '|')) == CoreStep(st, Join([a1, a2], '|'))
    ensures CoreStep(st, Join([a1, a2], '|')) == Ok(AddCoreLink(st, a1, a2))
  {
    DataLine([a1, a2, kind]);
    DataLine([a1, a2]);
  }

  // ---------------------------------------------------------------------------
  // load_customer_cone and the writer of conesize.py
  // ---------------------------------------------------------------------------

  function ConeStep(d: Dict<Asn, int>, line: string): Result<Dict<Asn, int>> {
    if IsComment(line) then Ok(d)
    else
      var arr := Fields(line);
      if |arr| < 3 then Err(MissingField)
      else
        var cc :- ParseInt(arr[2]);
        Ok(Put(d, arr[1], cc))
  }

  /** `load_customer_cone`: the cone of each AS, in file order; the index field is read past. */
  function LoadCustomerCone(lines: Lines): Result<Dict<Asn, int>> {
    Fold(ConeStep, [], lines)
  }

  const ConeInfo: Lines := ["# Customer cone info.", "# ASes are sorted by their customer cone.", "#", "# Format:", "# idx|ASN|customer_cone"]

  function ConeEntries(idx: int, cc: Dict<Asn, int>): Lines
    decreases |cc|
  {
    if |cc| == 0 then []
    else [Join([IntToString(idx), cc[0].0, IntToString(cc[0].1)], '|')] + ConeEntries(idx + 1, cc[1..])
  }

  /** The file `_get_save_customer_cone` writes: `idx|ASN|cone`, counting from 1. */
  function SaveCustomerCone(cc: Dict<Asn, int>): Lines {
    ConeInfo + ConeEntries(1, cc)
  }

  /** One `idx|ASN|cone` line appends its item to the cones read so far. */
  lemma ConeEntryStep(d: Dict<Asn, int>, idx: int, a: Asn, n: int)
    requires FieldOk(a) && a !in Keys(d)
    ensures ConeStep(d, Join([IntToString(idx), a, IntToString(n)], '|')) == Ok(d + [(a, n)])
  {
    ConeLine(idx, a, n);
    var arr := Fields(Join([IntToString(idx), a, IntToString(n)], '|'));
    assert arr[1] == a && arr[2] == IntToString(n);
  }

  /** An `idx|ASN|cone` line is data, splits into its three fields, and its cone parses back. */
  lemma ConeLine(idx: int, a: Asn, n: int)
    requires FieldOk(a)
    ensures !IsComment(Join([IntToString(idx), a, IntToString(n)], '|'))
    ensures Fields(Join([IntToString(idx), a, IntToString(n)], '|')) == [IntToString(idx), a, IntToString(n)]
    ensures ParseInt(IntToString(n)) == Ok(n)
  {
    IntToStringShape(idx);
    IntToStringShape(n);
    DataLine([IntToString(idx), a, IntToString(n)]);
    ParseIntToString(n);
  }

  lemma {:induction false} ConeEntriesFold(d: Dict<Asn, int>, idx: int, cc: Dict<Asn, int>)
    requires DistinctKeys(d) && Distinct(Keys(cc))
    requires forall i :: 0 <= i < |cc| ==> Keys(cc)[i] !in Keys(d)
    requires forall i :: 0 <= i < |cc| ==> FieldOk(cc[i].0)
    ensures Fold(ConeStep, d, ConeEntries(idx, cc)) == Ok(d + cc)
    decreases |cc|
  {
    if |cc| == 0 {
      assert d + cc == d;
    } else {
      ConeEntriesHead(d, idx, cc);
      ConeTail(d, cc);
      ConeEntriesFold(d + [cc[0]], idx + 1, cc[1..]);
    }
  }

  /** The first `idx|ASN|cone` line, then the rest. */
  lemma ConeEntriesHead(d: Dict<Asn, int>, idx: int, cc: Dict<Asn, int>)
    requires |cc| > 0 && FieldOk(cc[0].0) && cc[0].0 !in Keys(d)
    ensures Fold(ConeStep, d, ConeEntries(idx, cc)) == Fold(ConeStep, d + [cc[0]], ConeEntries(idx + 1, cc[1..]))
    ensures d + [cc[0]] + cc[1..] == d + cc
  {
    var (a, n) := cc[0];
    ConeEntryStep(d, idx, a, n);
    FoldCons(ConeStep, d, Join([IntToString(idx), a, IntToString(n)], '|'), ConeEntries(idx + 1, cc[1..]));
    SnocHead(d, cc);
  }

  /** After the first item is read, the rest still meet what reading them needs. */
  lemma ConeTail(d: Dict<Asn, int>, cc: Dict<Asn, int>)
    requires |cc| > 0 && DistinctKeys(d) && Distinct(Keys(cc))
    requires forall i :: 0 <= i < |cc| ==> Keys(cc)[i] !in Keys(d)
    requires forall i :: 0 <= i < |cc| ==> FieldOk(cc[i].0)
    ensures DistinctKeys(d + [cc[0]]) && Distinct(Keys(cc[1..]))
    ensures forall i :: 0 <= i < |cc[1..]| ==> Keys(cc[1..])[i] !in Keys(d + [cc[0]])
    ensures forall i :: 0 <= i < |cc[1..]| ==> FieldOk(cc[1..][i].0)
  {
    assert Keys(cc)[0] == cc[0].0;
    PutNew(d, cc[0].0, cc[0].1);
    DistinctTail(Keys(cc), Keys(d));
    assert Keys(cc)[1..] == Keys(cc[1..]);
  }

  /** Reading back the cone file gives the same items in the same order. */
  lemma LoadSaveCustomerCone(cc: Dict<Asn, int>)
    requires DistinctKeys(cc)
    requires forall i :: 0 <= i < |cc| ==> FieldOk(cc[i].0)
    ensures LoadCustomerCone(SaveCustomerCone(cc)) == Ok(cc)
  {
    AllHashLedComments(ConeInfo);
    var empty: Dict<Asn, int> := [];
    FoldIgnored(ConeStep, empty, ConeInfo, ConeEntries(1, cc));
    assert empty + cc == cc;
    assert Distinct(Keys(cc));
    ConeEntriesFold(empty, 1, cc);
  }

  /** A comment block whose first line moves the state on and whose other lines it ignores. */
  lemma CommentBlock<S>(step: (S, string) -> Result<S>, s1: S, s2: S, mid: Lines, body: Lines)
    requires |mid| > 0 && step(s1, mid[0]) == Ok(s2)
    requires forall i :: 1 <= i < |mid| ==> step(s2, mid[i]) == Ok(s2)
    ensures Fold(step, s1, mid + body) == Fold(step, s2, body)
  {
    Uncons(mid, body);
    FoldCons(step, s1, mid[0], mid[1..] + body);
    FoldIgnored(step, s2, mid[1..], body);
  }

  // ---------------------------------------------------------------------------
  // load_bgp_crp_results and the writer of bgp_censorship_metric.py
  // ---------------------------------------------------------------------------

  /**
   * `part` counts the sections; a comment line starts a new one only when a
   * data line came since the last comment (`comment_parsing` starts true, so
   * the leading comments do not count).
   */
  datatype CrpState = CrpState(part: int, commentParsing: bool, country: Option<string>, total: Option<int>,
                               censors: map<int, set<Asn>>, results: map<int, int>)

  /** `set(s.strip().split(','))`. */
  function CensorSet(s: string): set<Asn> {
    set c | c in Split(Strip(s), ',')
  }

  function CrpStep(st: CrpState, line: string): Result<CrpState> {
    if IsComment(line) then
      Ok(if st.commentParsing then st else st.(part := st.part + 1, commentParsing := true))
    else
      var st := st.(commentParsing := false);
      var arr := Fields(line);
      if st.part == 1 then Ok(st.(country := Some(Strip(line))))
      else if st.part == 2 then
        if |arr| == 1 then
          var n :- ParseInt(arr[0]);
          Ok(st.(total := Some(n)))
        else
          var n :- ParseInt(arr[0]);
          Ok(st.(censors := st.censors[n := CensorSet(arr[1])]))
      else if |arr| < 2 then Err(MissingField)
      else
        var reach :- ParseInt(arr[1]);
        var n :- ParseInt(arr[0]);
        Ok(st.(results := st.results[n := reach]))
  }

  const CrpStart := CrpState(1, true, None, None, map[], map[])

  /** `load_bgp_crp_results`: country, censor set per N, number of potential censors, reach per N. */
  function LoadBgpCrpResults(lines: Lines): Result<(string, map<int, set<Asn>>, int, map<int, int>)> {
    var st :- Fold(CrpStep, CrpStart, lines);
    if st.country.None? || st.total.None? then Err(Unbound)
    else Ok((st.country.value, st.censors, st.total.value, st.results))
  }

  const CrpInitialInfo: Lines := ["# Country info", "#", "# Format:", "# <Country>"]
  const CrpCensorsInfo: Lines := ["# Info about censors", "#", "# Format:", "# <total_potential_censor_num>",
                                  "# censors_num_N|censor_1,censor_2,...,censor_N"]
  const CrpMetricInfo: Lines := ["# Chokepoint potentials", "#", "# Format:", "# censor_num|total_reach_outflow_path"]

  lemma CrpHeaderComments()
    ensures forall i :: 0 <= i < |CrpInitialInfo| ==> IsComment(CrpInitialInfo[i])
    ensures forall i :: 0 <= i < |CrpCensorsInfo| ==> IsComment(CrpCensorsInfo[i])
    ensures forall i :: 0 <= i < |CrpMetricInfo| ==> IsComment(CrpMetricInfo[i])
  {
    CrpInitialComments();
    CrpCensorsComments();
    CrpMetricComments();
  }

  lemma CrpInitialComments()
    ensures forall i :: 0 <= i < |CrpInitialInfo| ==> IsComment(CrpInitialInfo[i])
  {
    AllHashLedComments(CrpInitialInfo);
  }

  lemma CrpCensorsComments()
    ensures forall i :: 0 <= i < |CrpCensorsInfo| ==> IsComment(CrpCensorsInfo[i])
  {
    assert CrpCensorsInfo[3][0] == '#' && CrpCensorsInfo[4][0] == '#';
    AllHashLedComments(CrpCensorsInfo);
  }

  lemma CrpMetricComments()
    ensures forall i :: 0 <= i < |CrpMetricInfo| ==> IsComment(CrpMetricInfo[i])
  {
    AllHashLedComments(CrpMetricInfo);
  }

  /**
   * A censor set as the writer meets it: `','.join(cens)` walks the set in
   * some order, given here as a duplicate-free sequence.
   */
  function CensorLines(cs: seq<(int, seq<Asn>)>): Lines {
    if |cs| == 0 then []
    else [Join([IntToString(cs[0].0), Join(cs[0].1, ',')], '|')] + CensorLines(cs[1..])
  }

  function ResultLines(data: Dict<int, int>): Lines {
    if |data| == 0 then []
    else [Join([IntToString(data[0].0), IntToString(data[0].1)], '|')] + ResultLines(data[1..])
  }

  /** The file `_calc_save_bgp_results` writes. */
  function SaveBgpResults(country: string, potCensorsNum: int, cs: seq<(int, seq<Asn>)>, data: Dict<int, int>): Lines {
    CrpInitialInfo + [country] + CrpCensorsInfo
      + ([IntToString(potCensorsNum)] + CensorLines(cs) + (CrpMetricInfo + ResultLines(data)))
  }

  /** A `,`-separated list as it reads back: an empty one comes back as `['']`. */
  function ReadBackList(codes: seq<string>): (r: seq<string>)
    ensures |codes| > 0 ==> r == codes
  {
    if |codes| == 0 then [""] else codes
  }

  /** What a written censor set reads back as: an empty set comes back as `{''}`. */
  function ReadBack(cens: seq<Asn>): (r: set<Asn>)
    ensures |cens| > 0 ==> forall c :: c in r <==> c in cens
    ensures |cens| == 0 ==> r == {""}
  {
    set c | c in ReadBackList(cens)
  }

  function ReadBackItems(cs: seq<(int, seq<Asn>)>): (r: Dict<int, set<Asn>>)
    ensures |r| == |cs|
    ensures forall i :: 0 <= i < |cs| ==> r[i] == (cs[i].0, ReadBack(cs[i].1))
  {
    if |cs| == 0 then [] else [(cs[0].0, ReadBack(cs[0].1))] + ReadBackItems(cs[1..])
  }

  predicate CleanList(cens: seq<Asn>) {
    forall i :: 0 <= i < |cens| ==> CleanId(cens[i])
  }

  /** A list written with `,` splits back into the same members; an empty one into `['']`. */
  lemma CommaList(xs: seq<string>)
    requires CleanList(xs)
    ensures FieldOk(Join(xs, ','))
    ensures Split(Strip(Join(xs, ',')), ',') == ReadBackList(xs)
  {
    JoinFieldOk(xs, ',');
    StripTrimmed(Join(xs, ','));
    if |xs| > 0 {
      forall i | 0 <= i < |xs| ensures ',' !in xs[i] {
        assert forall k :: 0 <= k < |xs[i]| ==> xs[i][k] != ',';
      }
      SplitJoin(xs, ',');
    }
  }

  /** The censor list written with `,` splits back into the same members. */
  lemma CensorSetJoin(cens: seq<Asn>)
    requires CleanList(cens)
    ensures FieldOk(Join(cens, ','))
    ensures CensorSet(Join(cens, ',')) == ReadBack(cens)
  {
    CommaList(cens);
  }

  lemma CensorLineStep(st: CrpState, n: int, cens: seq<Asn>)
    requires st.part == 2 && !st.commentParsing && CleanList(cens)
    ensures CrpStep(st, Join([IntToString(n), Join(cens, ',')], '|'))
         == Ok(st.(censors := st.censors[n := ReadBack(cens)]))
  {
    CensorSetJoin(cens);
    IntToStringShape(n);
    DataLine([IntToString(n), Join(cens, ',')]);
    ParseIntToString(n);
  }

  lemma {:induction false} CensorLinesFold(st: CrpState, done: Dict<int, set<Asn>>, cs: seq<(int, seq<Asn>)>)
    requires st.part == 2 && !st.commentParsing && st.censors == ToMap(done)
    requires forall i :: 0 <= i < |cs| ==> CleanList(cs[i].1)
    ensures Fold(CrpStep, st, CensorLines(cs)) == Ok(st.(censors := ToMap(done + ReadBackItems(cs))))
    decreases |cs|
  {
    if |cs| == 0 {
      assert done + ReadBackItems(cs) == done;
    } else {
      var (n, cens) := cs[0];
      CensorLineStep(st, n, cens);
      FoldCons(CrpStep, st, Join([IntToString(n), Join(cens, ',')], '|'), CensorLines(cs[1..]));
      ToMapSnoc(done, n, ReadBack(cens));
      CensorLinesFold(st.(censors := ToMap(done + [(n, ReadBack(cens))])), done + [(n, ReadBack(cens))], cs[1..]);
      Reassoc(done, (n, ReadBack(cens)), ReadBackItems(cs[1..]));
      assert [(n, ReadBack(cens))] + ReadBackItems(cs[1..]) == ReadBackItems(cs);
    }
  }

  lemma ResultLineStep(st: CrpState, n: int, reach: int)
    requires st.part >= 3
    ensures CrpStep(st, Join([IntToString(n), IntToString(reach)], '|'))
         == Ok(st.(commentParsing := false, results := st.results[n := reach]))
  {
    var a, b := IntToString(n), IntToString(reach);
    var line := Join([a, b], '|');
    assert !IsComment(line) && Fields(line) == [a, b] by {
      IntToStringShape(n);
      IntToStringShape(reach);
      DataLine([a, b]);
    }
    ParseIntToString(n);
    ParseIntToString(reach);
    ResultData(st, line, a, b);
  }

  /** A data line of the results section sets the result of its first field to its second. */
  lemma ResultData(st: CrpState, line: string, a: string, b: string)
    requires st.part >= 3 && !IsComment(line) && Fields(line) == [a, b]
    requires ParseInt(a).Ok? && ParseInt(b).Ok?
    ensures CrpStep(st, line) == Ok(st.(commentParsing := false, results := st.results[ParseInt(a).value := ParseInt(b).value]))
  {
  }

  lemma {:induction false} ResultLinesFold(st: CrpState, done: Dict<int, int>, data: Dict<int, int>)
    requires st.part >= 3 && st.results == ToMap(done)
    ensures Fold(CrpStep, st, ResultLines(data))
         == Ok(st.(commentParsing := st.commentParsing && |data| == 0, results := ToMap(done + data)))
    decreases |data|
  {
    if |data| == 0 {
      assert done + data == done;
    } else {
      var done' := done + [data[0]];
      ResultLinesFold(st.(commentParsing := false, results := ToMap(done')), done', data[1..]);
      ResultLinesHead(st, done, data);
    }
  }

  /** One results line, then the rest: the fold through the head line. */
  lemma ResultLinesHead(st: CrpState, done: Dict<int, int>, data: Dict<int, int>)
    requires st.part >= 3 && st.results == ToMap(done) && |data| > 0
    ensures Fold(CrpStep, st, ResultLines(data))
         == Fold(CrpStep, st.(commentParsing := false, results := ToMap(done + [data[0]])), ResultLines(data[1..]))
    ensures done + [data[0]] + data[1..] == done + data
  {
    var line := Join([IntToString(data[0].0), IntToString(data[0].1)], '|');
    ResultLineSnoc(st, done, data[0].0, data[0].1);
    FoldCons(CrpStep, st, line, ResultLines(data[1..]));
    SnocHead(done, data);
  }

  /** A results line read after the items `done` gives the results of `done` and the line. */
  lemma ResultLineSnoc(st: CrpState, done: Dict<int, int>, n: int, reach: int)
    requires st.part >= 3 && st.results == ToMap(done)
    ensures CrpStep(st, Join([IntToString(n), IntToString(reach)], '|'))
         == Ok(st.(commentParsing := false, results := ToMap(done + [(n, reach)])))
  {
    ResultLineStep(st, n, reach);
    ToMapSnoc(done, n, reach);
  }

  /** The single field `f'{pot_censors_num}'` in the censors section sets the total. */
  lemma TotalLineStep(st: CrpState, pot: int)
    requires st.part == 2
    ensures CrpStep(st, IntToString(pot)) == Ok(st.(commentParsing := false, total := Some(pot)))
  {
    IntToStringShape(pot);
    DataLine([IntToString(pot)]);
    ParseIntToString(pot);
  }

  /**
   * Reading back the results file gives the country, each censor set (an
   * empty one as `{''}`), the number of potential censors and the reach per N;
   * a later N overwrites an earlier one, as in the dict the loader fills.
   */
  lemma LoadSaveBgpResults(country: string, pot: int, cs: seq<(int, seq<Asn>)>, data: Dict<int, int>)
    requires FieldOk(country)
    requires forall i :: 0 <= i < |cs| ==> CleanList(cs[i].1)
    ensures LoadBgpCrpResults(SaveBgpResults(country, pot, cs, data))
         == Ok((country, ToMap(ReadBackItems(cs)), pot, ToMap(data)))
  {
    CrpHeaderComments();
    CrpRead(CrpInitialInfo, CrpCensorsInfo, CrpMetricInfo, country, pot, cs, data);
    var s6 := CrpState(3, |data| == 0, Some(country), Some(pot), ToMap(ReadBackItems(cs)), ToMap(data));
    CrpLoaded(SaveBgpResults(country, pot, cs, data), s6);
  }

  /** The results file read with any comment blocks in place of the writer's. */
  lemma CrpRead(init: Lines, cinfo: Lines, minfo: Lines, country: string, pot: int,
                cs: seq<(int, seq<Asn>)>, data: Dict<int, int>)
    requires forall i :: 0 <= i < |init| ==> IsComment(init[i])
    requires |cinfo| > 0 && forall i :: 0 <= i < |cinfo| ==> IsComment(cinfo[i])
    requires |minfo| > 0 && forall i :: 0 <= i < |minfo| ==> IsComment(minfo[i])
    requires FieldOk(country)
    requires forall i :: 0 <= i < |cs| ==> CleanList(cs[i].1)
    ensures Fold(CrpStep, CrpStart, init + [country] + cinfo
                   + ([IntToString(pot)] + CensorLines(cs) + (minfo + ResultLines(data))))
         == Ok(CrpState(3, |data| == 0, Some(country), Some(pot), ToMap(ReadBackItems(cs)), ToMap(data)))
  {
    DataLine([country]);
    StripTrimmed(country);
    var s1 := CrpState(1, false, Some(country), None, map[], map[]);
    var s2 := s1.(part := 2, commentParsing := true);
    assert CrpStep(CrpStart, country) == Ok(s1);
    var x := [IntToString(pot)] + CensorLines(cs) + (minfo + ResultLines(data));
    Sections(CrpStep, CrpStart, s1, s2, init, country, cinfo, x);
    CrpBody(s2, pot, cs, minfo, data);
  }

  /** The part after the country: the total, the censor sets, then the results section. */
  lemma CrpBody(s2: CrpState, pot: int, cs: seq<(int, seq<Asn>)>, minfo: Lines, data: Dict<int, int>)
    requires s2.part == 2 && s2.commentParsing && s2.censors == map[] && s2.results == map[]
    requires forall i :: 0 <= i < |cs| ==> CleanList(cs[i].1)
    requires |minfo| > 0 && forall i :: 0 <= i < |minfo| ==> IsComment(minfo[i])
    ensures Fold(CrpStep, s2, [IntToString(pot)] + CensorLines(cs) + (minfo + ResultLines(data)))
         == Ok(s2.(part := 3, commentParsing := |data| == 0, total := Some(pot),
                   censors := ToMap(ReadBackItems(cs)), results := ToMap(data)))
  {
    var potLine := IntToString(pot);
    var tail := minfo + ResultLines(data);
    var s3 := s2.(commentParsing := false, total := Some(pot));
    TotalLineStep(s2, pot);
    FoldAppend(CrpStep, s2, [potLine] + CensorLines(cs), tail);
    FoldCons(CrpStep, s2, potLine, CensorLines(cs));
    var empty: Dict<int, set<Asn>> := [];
    CensorLinesFold(s3, empty, cs);
    assert empty + ReadBackItems(cs) == ReadBackItems(cs);
    var s4 := s3.(censors := ToMap(ReadBackItems(cs)));
    assert Fold(CrpStep, s2, [potLine] + CensorLines(cs)) == Ok(s4);
    var s5 := s4.(part := 3, commentParsing := true);
    CommentBlock(CrpStep, s4, s5, minfo, ResultLines(data));
    var none: Dict<int, int> := [];
    ResultLinesFold(s5, none, data);
    assert none + data == data;
  }

  lemma CrpLoaded(lines: Lines, st: CrpState)
    requires Fold(CrpStep, CrpStart, lines) == Ok(st) && st.country.Some? && st.total.Some?
    ensures LoadBgpCrpResults(lines) == Ok((st.country.value, st.censors, st.total.value, st.results))
  {
  }

  // ---------------------------------------------------------------------------
  // load_as_info and load_AS_list
  // ---------------------------------------------------------------------------

  /** `as_info[asn] = countries` for one `asn|cc1,cc2,...` line; the ASN is stripped again. */
  function AsInfoStep(info: map<Asn, seq<string>>, line: string): Result<map<Asn, seq<string>>> {
    if IsComment(line) then Ok(info)
    else
      var arr := Fields(line);
      if |arr| < 2 then Err(MissingField)
      else Ok(info[Strip(arr[0]) := Split(Strip(arr[1]), ',')])
  }

  /** `load_as_info`: the country labels of each AS. */
  function LoadAsInfo(lines: Lines): Result<map<Asn, seq<string>>> {
    Fold(AsInfoStep, map[], lines)
  }

  /** The `asn|cc1,...,ccN` lines the AS-info files hold, one per entry. */
  function AsInfoLines(entries: seq<(Asn, seq<string>)>): Lines {
    if |entries| == 0 then []
    else [Join([entries[0].0, Join(entries[0].1, ',')], '|')] + AsInfoLines(entries[1..])
  }

  function ReadBackInfo(entries: seq<(Asn, seq<string>)>): (r: Dict<Asn, seq<string>>)
    ensures |r| == |entries|
    ensures forall i :: 0 <= i < |r| ==> r[i] == (entries[i].0, ReadBackList(entries[i].1))
  {
    if |entries| == 0 then [] else [(entries[0].0, ReadBackList(entries[0].1))] + ReadBackInfo(entries[1..])
  }

  lemma AsInfoLineStep(info: map<Asn, seq<string>>, a: Asn, codes: seq<string>)
    requires FieldOk(a) && CleanList(codes)
    ensures AsInfoStep(info, Join([a, Join(codes, ',')], '|')) == Ok(info[a := ReadBackList(codes)])
  {
    AsInfoLineShape(a, codes);
    AsInfoData(info, Join([a, Join(codes, ',')], '|'), a, Join(codes, ','));
  }

  /** An `asn|cc1,...,ccN` line is data with two fields, and both read back as written. */
  lemma AsInfoLineShape(a: Asn, codes: seq<string>)
    requires FieldOk(a) && CleanList(codes)
    ensures !IsComment(Join([a, Join(codes, ',')], '|'))
    ensures Fields(Join([a, Join(codes, ',')], '|')) == [a, Join(codes, ',')]
    ensures Strip(a) == a && Split(Strip(Join(codes, ',')), ',') == ReadBackList(codes)
  {
    CommaList(codes);
    DataLine([a, Join(codes, ',')]);
    StripTrimmed(a);
  }

  lemma AsInfoData(info: map<Asn, seq<string>>, line: string, a: string, j: string)
    requires !IsComment(line) && Fields(line) == [a, j]
    ensures AsInfoStep(info, line) == Ok(info[Strip(a) := Split(Strip(j), ',')])
  {
  }

  lemma {:induction false} AsInfoLinesFold(done: Dict<Asn, seq<string>>, entries: seq<(Asn, seq<string>)>)
    requires forall i :: 0 <= i < |entries| ==> FieldOk(entries[i].0) && CleanList(entries[i].1)
    ensures Fold(AsInfoStep, ToMap(done), AsInfoLines(entries)) == Ok(ToMap(done + ReadBackInfo(entries)))
    decreases |entries|
  {
    if |entries| == 0 {
      assert done + ReadBackInfo(entries) == done;
    } else {
      var (a, codes) := entries[0];
      AsInfoLineStep(ToMap(done), a, codes);
      ToMapSnoc(done, a, ReadBackList(codes));
      FoldCons(AsInfoStep, ToMap(done), Join([a, Join(codes, ',')], '|'), AsInfoLines(entries[1..]));
      AsInfoLinesFold(done + [(a, ReadBackList(codes))], entries[1..]);
      Reassoc(done, (a, ReadBackList(codes)), ReadBackInfo(entries[1..]));
      assert [(a, ReadBackList(codes))] + ReadBackInfo(entries[1..]) == ReadBackInfo(entries);
    }
  }

  /**
   * Each `asn|cc1,...,ccN` line assigns the list of codes to the AS, a later
   * line for the same AS replacing the earlier one.
   */
  lemma LoadAsInfoLines(entries: seq<(Asn, seq<string>)>)
    requires forall i :: 0 <= i < |entries| ==> FieldOk(entries[i].0) && CleanList(entries[i].1)
    ensures LoadAsInfo(AsInfoLines(entries)) == Ok(ToMap(ReadBackInfo(entries)))
  {
    var none: Dict<Asn, seq<string>> := [];
    AsInfoLinesFold(none, entries);
    assert none + ReadBackInfo(entries) == ReadBackInfo(entries);
  }

  /** `load_AS_list`: every line that is not a comment, stripped, in file order. */
  function LoadAsList(lines: Lines): (r: seq<Asn>)
    ensures |r| <= |lines|
  {
    if |lines| == 0 then []
    else if IsComment(lines[0]) then LoadAsList(lines[1..])
    else [Strip(lines[0])] + LoadAsList(lines[1..])
  }

  lemma {:induction false} LoadAsListAppend(a: Lines, b: Lines)
    ensures LoadAsList(a + b) == LoadAsList(a) + LoadAsList(b)
    decreases |a|
  {
    if |a| == 0 {
      assert a + b == b;
    } else {
      assert (a + b)[0] == a[0] && (a + b)[1..] == a[1..] + b;
      LoadAsListAppend(a[1..], b);
    }
  }

  /** Comment lines anywhere in the file leave the list unchanged. */
  lemma LoadAsListSkipsComments(a: Lines, c: string, b: Lines)
    requires IsComment(c)
    ensures LoadAsList(a + [c] + b) == LoadAsList(a + b)
  {
    LoadAsListAppend(a + [c], b);
    LoadAsListAppend(a, [c]);
    LoadAsListAppend(a, b);
    assert LoadAsList([c]) == [];
  }

  /** A file of clean ids, one per line, reads back as exactly those ids. */
  lemma {:induction false} LoadAsListIds(ids: seq<Asn>)
    requires forall x :: x in ids ==> FieldOk(x)
    ensures LoadAsList(ids) == ids
    decreases |ids|
  {
    if |ids| > 0 {
      var x, rest := ids[0], ids[1..];
      assert forall y :: y in rest ==> y in ids;
      calc {
        LoadAsList(ids);
        { assert ids == [x] + rest; }
        LoadAsList([x] + rest);
        { IdLine(x); AsListCons(x, rest); }
        [Strip(x)] + LoadAsList(rest);
        { IdLine(x); LoadAsListIds(rest); }
        [x] + rest;
      }
    }
  }

  lemma AsListCons(x: string, rest: Lines)
    requires !IsComment(x)
    ensures LoadAsList([x] + rest) == [Strip(x)] + LoadAsList(rest)
  {
    assert ([x] + rest)[0] == x && ([x] + rest)[1..] == rest;
  }

  /** A clean id on its own line is not a comment and survives `strip()`. */
  lemma IdLine(x: string)
    requires FieldOk(x)
    ensures !IsComment(x) && Strip(x) == x
  {
    StripTrimmed(x);
  }
}
