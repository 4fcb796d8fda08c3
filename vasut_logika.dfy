/**
 * The simulation core of the rail power diagram ("vasut logika"): it builds the logical node
 * graph and the switch-state table from the topology, computes by a multi-source breadth-first
 * traversal from the feed nodes which sections are energized, crossing only switches whose
 * state is exactly "closed", and changes the switch table by toggling one switch or by applying
 * a predefined scenario.
 *
 * Here the topology is the array-shaped document: `stations` is an array of stations, each with
 * an array of node records and an array of switch records, and `feeds` is an array of feed
 * records. Colour fields are not modelled, so a node record is just its id.
 */
module VasutLogika {
  import opened Wrappers
  import opened Reach

  const Closed := "closed"
  const Open := "open"

  /** A switch record: its id, the two node ids it joins and its declared state. */
  datatype SwitchDecl = SwitchDecl(id: string, from: string, to: string, state: string)

  /** A station: the ids of its node records and its switch records, in array order. */
  datatype Station = Station(nodes: seq<string>, switches: seq<SwitchDecl>)

  /** The topology: the stations and the `node` field of each feed record, in array order. */
  datatype Topology = Topology(stations: seq<Station>, feeds: seq<string>)

  /** An entry of a node's neighbour list: the node on the far side and the switch between. */
  datatype Neighbour = Neighbour(node: string, sw: string)

  /**
   * A node of the logical graph, stored under its id: whether it is a feed, whether it is
   * energized, and its neighbour list in the order the entries were appended.
   */
  datatype GraphNode = GraphNode(isFeed: bool, energized: bool, neighbours: seq<Neighbour>)

  type NodeGraph = map<string, GraphNode>

  /** The switch-state table: switch id -> state. */
  type SwitchTable = map<string, string>

  /** A scenario: switch id -> the state the scenario prescribes. */
  type Scenario = map<string, string>

  // ---------------------------------------------------------------------------------------
  // What the build produces
  // ---------------------------------------------------------------------------------------

  /** Every switch record, station by station. */
  function AllSwitches(stations: seq<Station>): seq<SwitchDecl> {
    if |stations| == 0 then []
    else AllSwitches(stations[..|stations| - 1]) + stations[|stations| - 1].switches
  }

  /** Every node id, station by station. */
  function AllNodeIds(stations: seq<Station>): seq<string> {
    if |stations| == 0 then []
    else AllNodeIds(stations[..|stations| - 1]) + stations[|stations| - 1].nodes
  }

  /** The ids of the switch records, in order. */
  function SwitchIds(sws: seq<SwitchDecl>): seq<string> {
    if |sws| == 0 then [] else SwitchIds(sws[..|sws| - 1]) + [sws[|sws| - 1].id]
  }

  /**
   * The distinct elements of `xs` in order of first occurrence: the key order of an object
   * that is assigned the keys `xs` one after the other.
   */
  function FirstOccurrences(xs: seq<string>): seq<string> {
    if |xs| == 0 then []
    else
      var r := FirstOccurrences(xs[..|xs| - 1]);
      if xs[|xs| - 1] in r then r else r + [xs[|xs| - 1]]
  }

  /** The switch index: each id -> the last record with that id. */
  function SwitchIndex(sws: seq<SwitchDecl>): map<string, SwitchDecl> {
    if |sws| == 0 then map[]
    else SwitchIndex(sws[..|sws| - 1])[sws[|sws| - 1].id := sws[|sws| - 1]]
  }

  /** The switch table after the build: each id -> the state of the last record with that id. */
  function DeclaredStates(sws: seq<SwitchDecl>): SwitchTable {
    if |sws| == 0 then map[]
    else DeclaredStates(sws[..|sws| - 1])[sws[|sws| - 1].id := sws[|sws| - 1].state]
  }

  /** The values of the switch index in its key order: the order in which edges are added. */
  function EdgeOrder(sws: seq<SwitchDecl>): seq<SwitchDecl> {
    var ids := FirstOccurrences(SwitchIds(sws));
    FirstOccurrencesSpec(SwitchIds(sws));
    SwitchIndexKeys(sws);
    seq(|ids|, i requires 0 <= i < |ids| => SwitchIndex(sws)[ids[i]])
  }

  /** The neighbour entries switch `sw` gives node `n` when both its ends are among `known`. */
  function Contrib(sw: SwitchDecl, known: set<string>, n: string): seq<Neighbour> {
    if sw.from in known && sw.to in known then
      (if sw.from == n then [Neighbour(sw.to, sw.id)] else [])
      + (if sw.to == n then [Neighbour(sw.from, sw.id)] else [])
    else []
  }

  /** The neighbour list of node `n` after the switches `sws` are added in order. */
  function Adj(sws: seq<SwitchDecl>, known: set<string>, n: string): seq<Neighbour> {
    if |sws| == 0 then [] else Adj(sws[..|sws| - 1], known, n) + Contrib(sws[|sws| - 1], known, n)
  }

  /** The ids of the nodes of the topology. */
  function KnownNodes(t: Topology): set<string> {
    set n | n in AllNodeIds(t.stations)
  }

  /**
   * The graph after the build: a node per node id, a feed exactly when some feed record names
   * it, not energized, with the neighbour entries of every indexed switch.
   */
  function InitialGraph(t: Topology): NodeGraph {
    map n | n in KnownNodes(t) ::
      GraphNode(n in t.feeds, false, Adj(EdgeOrder(AllSwitches(t.stations)), KnownNodes(t), n))
  }

  // ---------------------------------------------------------------------------------------
  // Properties of the build
  // ---------------------------------------------------------------------------------------

  lemma {:induction false} FirstOccurrencesSpec(xs: seq<string>)
    ensures Distinct(FirstOccurrences(xs))
    ensures forall x :: x in FirstOccurrences(xs) <==> x in xs
  {
    if |xs| > 0 {
      var init := xs[..|xs| - 1];
      FirstOccurrencesSpec(init);
      assert xs == init + [xs[|xs| - 1]];
    }
  }

  lemma {:induction false} SwitchIdsSpec(sws: seq<SwitchDecl>)
    ensures |SwitchIds(sws)| == |sws|
    ensures forall k :: 0 <= k < |sws| ==> SwitchIds(sws)[k] == sws[k].id
  {
    if |sws| > 0 {
      SwitchIdsSpec(sws[..|sws| - 1]);
    }
  }

  /** The index and the table hold exactly the ids of the records, and agree on the states. */
  lemma {:induction false} SwitchIndexKeys(sws: seq<SwitchDecl>)
    ensures forall id :: id in SwitchIndex(sws) <==> id in SwitchIds(sws)
    ensures forall id :: id in DeclaredStates(sws) <==> id in SwitchIds(sws)
    ensures forall id :: id in SwitchIndex(sws) ==>
      SwitchIndex(sws)[id].id == id && DeclaredStates(sws)[id] == SwitchIndex(sws)[id].state
  {
    if |sws| > 0 {
      SwitchIndexKeys(sws[..|sws| - 1]);
    }
  }

  /** `k` is the last record with id `id`. */
  predicate LastWithId(sws: seq<SwitchDecl>, id: string, k: int) {
    0 <= k < |sws| && sws[k].id == id && forall j :: k < j < |sws| ==> sws[j].id != id
  }

  /** The last record with an id decides what the index holds for it. */
  lemma {:induction false} SwitchIndexLast(sws: seq<SwitchDecl>, id: string, k: int)
    requires LastWithId(sws, id, k)
    ensures id in SwitchIndex(sws) && SwitchIndex(sws)[id] == sws[k]
  {
    if k < |sws| - 1 {
      SwitchIndexLast(sws[..|sws| - 1], id, k);
    }
  }

  /**
   * After the build every switch id of the topology is a key of the switch table, no other
   * key is, and each holds the declared state of the last record with that id.
   */
  lemma DeclaredStatesSpec(sws: seq<SwitchDecl>)
    ensures forall id :: id in DeclaredStates(sws) <==> exists k :: 0 <= k < |sws| && sws[k].id == id
    ensures forall id, k :: LastWithId(sws, id, k) ==> DeclaredStates(sws)[id] == sws[k].state
  {
    SwitchIndexKeys(sws);
    SwitchIdsSpec(sws);
    forall id, k | LastWithId(sws, id, k)
      ensures DeclaredStates(sws)[id] == sws[k].state
    {
      SwitchIndexLast(sws, id, k);
    }
  }

  /**
   * Node `a` has the entry (b, s) exactly when some added switch with id `s` has both ends
   * known and joins `a` and `b`, in either direction.
   */
  lemma {:induction false} AdjMember(sws: seq<SwitchDecl>, known: set<string>, a: string, b: string, s: string)
    ensures Neighbour(b, s) in Adj(sws, known, a) <==>
      exists k :: 0 <= k < |sws| && Joins(sws[k], known, a, b, s)
  {
    if |sws| > 0 {
      var init, last := sws[..|sws| - 1], sws[|sws| - 1];
      AdjMember(init, known, a, b, s);
      assert Adj(sws, known, a) == Adj(init, known, a) + Contrib(last, known, a);
      assert Neighbour(b, s) in Contrib(last, known, a) <==> Joins(last, known, a, b, s);
      if k :| 0 <= k < |sws| && Joins(sws[k], known, a, b, s) {
        if k < |init| {
          assert Joins(init[k], known, a, b, s);
        }
      }
      if k :| 0 <= k < |init| && Joins(init[k], known, a, b, s) {
        assert Joins(sws[k], known, a, b, s);
      }
    }
  }

  /** Switch `sw`, with id `s` and both ends known, joins `a` and `b`. */
  predicate Joins(sw: SwitchDecl, known: set<string>, a: string, b: string, s: string) {
    sw.id == s && sw.from in known && sw.to in known
    && ((sw.from == a && sw.to == b) || (sw.to == a && sw.from == b))
  }

  /**
   * Adjacency of the built graph is symmetric and stays inside the graph: a node lists
   * (b, s) only when `b` is a node, which then lists (a, s).
   */
  lemma InitialGraphSymmetric(t: Topology, a: string, b: string, s: string)
    requires a in InitialGraph(t) && Neighbour(b, s) in InitialGraph(t)[a].neighbours
    ensures b in InitialGraph(t) && Neighbour(a, s) in InitialGraph(t)[b].neighbours
  {
    var sws := EdgeOrder(AllSwitches(t.stations));
    var known := KnownNodes(t);
    AdjMember(sws, known, a, b, s);
    var k :| 0 <= k < |sws| && Joins(sws[k], known, a, b, s);
    AdjMember(sws, known, b, a, s);
    assert Joins(sws[k], known, b, a, s);
  }

  /**
   * Each switch of the index whose two ends are nodes gives `from` the entry (to, id) and
   * `to` the entry (from, id).
   */
  lemma InitialGraphHasEdge(t: Topology, id: string)
    requires id in SwitchIndex(AllSwitches(t.stations))
    requires SwitchIndex(AllSwitches(t.stations))[id].from in KnownNodes(t)
    requires SwitchIndex(AllSwitches(t.stations))[id].to in KnownNodes(t)
    ensures var sw := SwitchIndex(AllSwitches(t.stations))[id];
      && Neighbour(sw.to, id) in InitialGraph(t)[sw.from].neighbours
      && Neighbour(sw.from, id) in InitialGraph(t)[sw.to].neighbours
  {
    var all := AllSwitches(t.stations);
    var sw := SwitchIndex(all)[id];
    var ids := FirstOccurrences(SwitchIds(all));
    var sws := EdgeOrder(all);
    FirstOccurrencesSpec(SwitchIds(all));
    SwitchIndexKeys(all);
    var k :| 0 <= k < |ids| && ids[k] == id;
    assert sws[k] == sw;
    AdjMember(sws, KnownNodes(t), sw.from, sw.to, id);
    AdjMember(sws, KnownNodes(t), sw.to, sw.from, id);
    assert Joins(sws[k], KnownNodes(t), sw.from, sw.to, id);
    assert Joins(sws[k], KnownNodes(t), sw.to, sw.from, id);
  }

  /** A node is a feed exactly when some feed record names it; no node starts energized. */
  lemma InitialGraphFlags(t: Topology, n: string)
    requires n in InitialGraph(t)
    ensures InitialGraph(t)[n].isFeed <==> exists i :: 0 <= i < |t.feeds| && t.feeds[i] == n
    ensures !InitialGraph(t)[n].energized
  {
  }

  // ---------------------------------------------------------------------------------------
  // The build (epitesi_kapcsolasi_graf)
  // ---------------------------------------------------------------------------------------

  lemma AllSwitchesStep(stations: seq<Station>, i: int)
    requires 0 <= i < |stations|
    ensures AllSwitches(stations[..i + 1]) == AllSwitches(stations[..i]) + stations[i].switches
  {
    assert stations[..i + 1][..i] == stations[..i];
  }

  lemma AllNodeIdsStep(stations: seq<Station>, i: int)
    requires 0 <= i < |stations|
    ensures AllNodeIds(stations[..i + 1]) == AllNodeIds(stations[..i]) + stations[i].nodes
  {
    assert stations[..i + 1][..i] == stations[..i];
  }

  /** Indexing one more switch record. */
  lemma IndexStep(seen: seq<SwitchDecl>, sw: SwitchDecl)
    ensures SwitchIndex(seen + [sw]) == SwitchIndex(seen)[sw.id := sw]
    ensures DeclaredStates(seen + [sw]) == DeclaredStates(seen)[sw.id := sw.state]
    ensures FirstOccurrences(SwitchIds(seen + [sw])) ==
      if sw.id in SwitchIndex(seen) then FirstOccurrences(SwitchIds(seen))
      else FirstOccurrences(SwitchIds(seen)) + [sw.id]
  {
    assert (seen + [sw])[..|seen|] == seen;
    SwitchIndexKeys(seen);
    FirstOccurrencesSpec(SwitchIds(seen));
    assert SwitchIds(seen + [sw])[..|SwitchIds(seen + [sw])| - 1] == SwitchIds(seen);
  }

  /** Adding one more switch to the neighbour lists. */
  lemma AdjStep(sws: seq<SwitchDecl>, k: int, known: set<string>)
    requires 0 <= k < |sws|
    ensures forall n :: Adj(sws[..k + 1], known, n) == Adj(sws[..k], known, n) + Contrib(sws[k], known, n)
  {
    assert sws[..k + 1][..k] == sws[..k];
  }

  /** Taking one more element of `xs` after `seen`. */
  lemma AppendStep<T>(seen: seq<T>, xs: seq<T>, j: int)
    requires 0 <= j < |xs|
    ensures seen + xs[..j + 1] == (seen + xs[..j]) + [xs[j]]
  {
    assert xs[..j + 1] == xs[..j] + [xs[j]];
  }

  /** Creating one more node. */
  lemma NodeStep(ids: seq<string>, id: string)
    ensures FirstOccurrences(ids + [id]) ==
      if id in ids then FirstOccurrences(ids) else FirstOccurrences(ids) + [id]
  {
    assert (ids + [id])[..|ids|] == ids;
    FirstOccurrencesSpec(ids);
  }

  /**
   * Builds the switch table, the graph and the key order of the graph: first every switch
   * record is indexed and its state recorded, then a node per node record is created, then
   * each indexed switch whose two ends are nodes is added to both ends' neighbour lists.
   */
  method Build(t: Topology) returns (g: NodeGraph, order: seq<string>, kap: SwitchTable)
    ensures kap == DeclaredStates(AllSwitches(t.stations))
    ensures g == InitialGraph(t)
    ensures order == FirstOccurrences(AllNodeIds(t.stations))
  {
    var index, indexOrder;
    index, indexOrder, kap := IndexSwitches(t);
    g, order := CreateNodes(t);
    g := AddEdges(t, g, index, indexOrder);
  }

  /**
   * Step 1 of the build: the switch index and the switch table, record by record; a later
   * record with the same id replaces an earlier one, and the index keeps its keys in order
   * of first assignment.
   */
  method IndexSwitches(t: Topology)
    returns (index: map<string, SwitchDecl>, indexOrder: seq<string>, kap: SwitchTable)
    ensures index == SwitchIndex(AllSwitches(t.stations))
    ensures indexOrder == FirstOccurrences(SwitchIds(AllSwitches(t.stations)))
    ensures kap == DeclaredStates(AllSwitches(t.stations))
  {
    index, indexOrder, kap := map[], [], map[];
    for i := 0 to |t.stations|
      invariant index == SwitchIndex(AllSwitches(t.stations[..i]))
      invariant kap == DeclaredStates(AllSwitches(t.stations[..i]))
      invariant indexOrder == FirstOccurrences(SwitchIds(AllSwitches(t.stations[..i])))
    {
      AllSwitchesStep(t.stations, i);
      index, indexOrder, kap := IndexStation(t.stations[i].switches, AllSwitches(t.stations[..i]), index, indexOrder, kap);
    }
    assert t.stations[..|t.stations|] == t.stations;
  }

  /** The switch records of one station indexed after the records `seen`. */
  method IndexStation(sws: seq<SwitchDecl>, ghost seen: seq<SwitchDecl>,
                      index: map<string, SwitchDecl>, indexOrder: seq<string>, kap: SwitchTable)
    returns (index': map<string, SwitchDecl>, indexOrder': seq<string>, kap': SwitchTable)
    requires index == SwitchIndex(seen) && kap == DeclaredStates(seen)
    requires indexOrder == FirstOccurrences(SwitchIds(seen))
    ensures index' == SwitchIndex(seen + sws) && kap' == DeclaredStates(seen + sws)
    ensures indexOrder' == FirstOccurrences(SwitchIds(seen + sws))
  {
    index', indexOrder', kap' := index, indexOrder, kap;
    ghost var done := seen;
    for j := 0 to |sws|
      invariant done == seen + sws[..j]
      invariant index' == SwitchIndex(done) && kap' == DeclaredStates(done)
      invariant indexOrder' == FirstOccurrences(SwitchIds(done))
    {
      var sw := sws[j];
      IndexStep(done, sw);
      if sw.id !in index' {
        indexOrder' := indexOrder' + [sw.id];
      }
      index' := index'[sw.id := sw];
      kap' := kap'[sw.id := sw.state];
      done := done + [sw];
      AppendStep(seen, sws, j);
    }
    assert sws[..|sws|] == sws;
  }

  /**
   * Step 2 of the build: a node for every node record, a feed when some feed record names it,
   * not energized and without neighbours; the graph keeps its keys in order of first assignment.
   */
  method CreateNodes(t: Topology) returns (g: NodeGraph, order: seq<string>)
    ensures forall n :: n in g <==> n in KnownNodes(t)
    ensures forall n :: n in g ==> g[n] == GraphNode(n in t.feeds, false, [])
    ensures order == FirstOccurrences(AllNodeIds(t.stations))
  {
    g, order := map[], [];
    for i := 0 to |t.stations|
      invariant order == FirstOccurrences(AllNodeIds(t.stations[..i]))
      invariant forall n :: n in g <==> n in AllNodeIds(t.stations[..i])
      invariant forall n :: n in g ==> g[n] == GraphNode(n in t.feeds, false, [])
    {
      AllNodeIdsStep(t.stations, i);
      g, order := CreateStationNodes(t.stations[i].nodes, t.feeds, AllNodeIds(t.stations[..i]), g, order);
    }
    assert t.stations[..|t.stations|] == t.stations;
  }

  /** The node records of one station created after the node ids `seen`. */
  method CreateStationNodes(nodes: seq<string>, feeds: seq<string>, ghost seen: seq<string>,
                            g: NodeGraph, order: seq<string>)
    returns (g': NodeGraph, order': seq<string>)
    requires order == FirstOccurrences(seen)
    requires forall n :: n in g <==> n in seen
    requires forall n :: n in g ==> g[n] == GraphNode(n in feeds, false, [])
    ensures order' == FirstOccurrences(seen + nodes)
    ensures forall n :: n in g' <==> n in seen + nodes
    ensures forall n :: n in g' ==> g'[n] == GraphNode(n in feeds, false, [])
  {
    g', order' := g, order;
    ghost var done := seen;
    for j := 0 to |nodes|
      invariant done == seen + nodes[..j]
      invariant order' == FirstOccurrences(done)
      invariant forall n :: n in g' <==> n in done
      invariant forall n :: n in g' ==> g'[n] == GraphNode(n in feeds, false, [])
    {
      var id := nodes[j];
      g', order' := CreateNode(id, feeds, done, g', order');
      AppendStep(seen, nodes, j);
      done := done + [id];
    }
    assert nodes[..|nodes|] == nodes;
  }

  /**
   * The node record `id` created after the node ids `seen`: a fresh node, not energized and
   * without neighbours, replaces any earlier one; a new id is appended to the key order.
   */
  method CreateNode(id: string, feeds: seq<string>, ghost seen: seq<string>, g: NodeGraph, order: seq<string>)
    returns (g': NodeGraph, order': seq<string>)
    requires order == FirstOccurrences(seen)
    requires forall n :: n in g <==> n in seen
    requires forall n :: n in g ==> g[n] == GraphNode(n in feeds, false, [])
    ensures order' == FirstOccurrences(seen + [id])
    ensures forall n :: n in g' <==> n in seen + [id]
    ensures forall n :: n in g' ==> g'[n] == GraphNode(n in feeds, false, [])
  {
    NodeStep(seen, id);
    order' := order;
    if id !in g {
      order' := order' + [id];
    }
    g' := g[id := GraphNode(id in feeds, false, [])];
  }

  /**
   * Step 3 of the build: for each indexed switch, in key order, whose `from` and `to` are both
   * nodes, `from` gets the entry (to, id) and `to` the entry (from, id).
   */
  method AddEdges(t: Topology, g0: NodeGraph, index: map<string, SwitchDecl>, indexOrder: seq<string>)
    returns (g: NodeGraph)
    requires index == SwitchIndex(AllSwitches(t.stations))
    requires indexOrder == FirstOccurrences(SwitchIds(AllSwitches(t.stations)))
    requires forall n :: n in g0 <==> n in KnownNodes(t)
    requires forall n :: n in g0 ==> g0[n] == GraphNode(n in t.feeds, false, [])
    ensures g == InitialGraph(t)
  {
    g := g0;
    ghost var known := KnownNodes(t);
    ghost var edges := EdgeOrder(AllSwitches(t.stations));
    EdgeOrderIndex(t.stations);
    assert edges[..0] == [];
    for k := 0 to |indexOrder|
      invariant EdgesAdded(t.feeds, g, known, edges[..k])
    {
      var sw := index[indexOrder[k]];
      ghost var before := g;
      g := AddEdge(g, sw, known);
      AddedStep(t.feeds, before, g, sw, known, edges, k);
    }
    assert edges[..|indexOrder|] == edges;
  }

  /** Every node of `known` is in the graph, with the neighbour entries of the switches `sws`. */
  ghost predicate EdgesAdded(feeds: seq<string>, g: NodeGraph, known: set<string>, sws: seq<SwitchDecl>) {
    && (forall n :: n in g <==> n in known)
    && (forall n :: n in g ==> g[n] == GraphNode(n in feeds, false, Adj(sws, known, n)))
  }

  /** The switch index in key order is the edge order of the build. */
  lemma EdgeOrderIndex(stations: seq<Station>)
    ensures |FirstOccurrences(SwitchIds(AllSwitches(stations)))| == |EdgeOrder(AllSwitches(stations))|
    ensures forall k :: 0 <= k < |EdgeOrder(AllSwitches(stations))| ==>
      FirstOccurrences(SwitchIds(AllSwitches(stations)))[k] in SwitchIndex(AllSwitches(stations))
      && SwitchIndex(AllSwitches(stations))[FirstOccurrences(SwitchIds(AllSwitches(stations)))[k]]
         == EdgeOrder(AllSwitches(stations))[k]
  {
    FirstOccurrencesSpec(SwitchIds(AllSwitches(stations)));
    SwitchIndexKeys(AllSwitches(stations));
  }

  /** Adding edge `k` of the edge order. */
  lemma AddedStep(feeds: seq<string>, before: NodeGraph, g: NodeGraph, sw: SwitchDecl, known: set<string>,
                  edges: seq<SwitchDecl>, k: int)
    requires 0 <= k < |edges| && sw == edges[k] && EdgesAdded(feeds, before, known, edges[..k])
    requires forall n :: n in g <==> n in known
    requires forall n :: n in before ==> g[n] == before[n].(neighbours := before[n].neighbours + Contrib(sw, known, n))
    ensures EdgesAdded(feeds, g, known, edges[..k + 1])
  {
    AdjStep(edges, k, known);
    forall n | n in g
      ensures g[n] == GraphNode(n in feeds, false, Adj(edges[..k + 1], known, n))
    {
      assert before[n] == GraphNode(n in feeds, false, Adj(edges[..k], known, n));
    }
  }

  /**
   * One switch joins the graph: when both its ends are nodes, `from` gets the entry
   * (to, id) and then `to` gets the entry (from, id).
   */
  method AddEdge(g: NodeGraph, sw: SwitchDecl, ghost known: set<string>) returns (g': NodeGraph)
    requires forall n :: n in g <==> n in known
    ensures forall n :: n in g' <==> n in known
    ensures forall n :: n in g ==> g'[n] == g[n].(neighbours := g[n].neighbours + Contrib(sw, known, n))
  {
    g' := g;
    if sw.from in g && sw.to in g {
      g' := g'[sw.from := g'[sw.from].(neighbours := g'[sw.from].neighbours + [Neighbour(sw.to, sw.id)])];
      g' := g'[sw.to := g'[sw.to].(neighbours := g'[sw.to].neighbours + [Neighbour(sw.from, sw.id)])];
    }
    forall n | n in g
      ensures g'[n] == g[n].(neighbours := g[n].neighbours + Contrib(sw, known, n))
    {
      if sw.from in g && sw.to in g && n == sw.from && n == sw.to {
        assert Contrib(sw, known, n) == [Neighbour(sw.to, sw.id)] + [Neighbour(sw.from, sw.id)];
      }
    }
  }

  // ---------------------------------------------------------------------------------------
  // Energization (szamol_feszultsegi_allapotok)
  // ---------------------------------------------------------------------------------------

  /** A neighbour entry conducts when its switch's state in the table is exactly "closed". */
  predicate Conducts(nb: Neighbour, kap: SwitchTable) {
    nb.sw in kap && kap[nb.sw] == Closed
  }

  /** The far nodes of the conducting entries of a neighbour list. */
  function ClosedTargets(nbs: seq<Neighbour>, kap: SwitchTable): set<string> {
    set k | 0 <= k < |nbs| && Conducts(nbs[k], kap) :: nbs[k].node
  }

  /** The graph of conducting connections: each node -> the far nodes of its closed switches. */
  function ClosedAdj(g: NodeGraph, kap: SwitchTable): Graph {
    map a | a in g :: ClosedTargets(g[a].neighbours, kap)
  }

  /** Node `n` can be reached from a feed node through closed switches only. */
  ghost predicate Fed(g: NodeGraph, kap: SwitchTable, n: string) {
    exists f :: f in g && g[f].isFeed && Reachable(ClosedAdj(g, kap), f, n)
  }

  /** The two graphs have the same nodes, feed flags and neighbour lists. */
  ghost predicate SameShape(g1: NodeGraph, g2: NodeGraph) {
    && (forall n :: n in g1 <==> n in g2)
    && (forall n :: n in g1 ==> g1[n].isFeed == g2[n].isFeed && g1[n].neighbours == g2[n].neighbours)
  }

  /** The graph's key order lists every node once, and every neighbour entry names a node. */
  ghost predicate WellFormed(g: NodeGraph, order: seq<string>) {
    && Distinct(order)
    && (forall n :: n in g <==> n in order)
    && (forall a, k :: a in g && 0 <= k < |g[a].neighbours| ==> g[a].neighbours[k].node in g)
  }

  /** The feed nodes in key order: the order in which they are queued. */
  function FeedOrder(g: NodeGraph, order: seq<string>): seq<string> {
    if |order| == 0 then []
    else
      var last := order[|order| - 1];
      FeedOrder(g, order[..|order| - 1]) + (if last in g && g[last].isFeed then [last] else [])
  }

  lemma {:induction false} FeedOrderSpec(g: NodeGraph, order: seq<string>)
    requires Distinct(order)
    ensures Distinct(FeedOrder(g, order))
    ensures forall n :: n in FeedOrder(g, order) <==> n in order && n in g && g[n].isFeed
  {
    if |order| > 0 {
      var init := order[..|order| - 1];
      assert order == init + [order[|order| - 1]];
      FeedOrderSpec(g, init);
    }
  }

  /**
   * The energized flags depend only on the nodes, the feed flags, the neighbour lists and the
   * switch table: a graph that differs only in its energized flags conducts the same way and
   * feeds the same nodes.
   */
  lemma FedIgnoresFlags(g1: NodeGraph, g2: NodeGraph, kap: SwitchTable, n: string)
    requires SameShape(g1, g2)
    ensures ClosedAdj(g1, kap) == ClosedAdj(g2, kap)
    ensures Fed(g1, kap, n) <==> Fed(g2, kap, n)
  {
    assert ClosedAdj(g1, kap) == ClosedAdj(g2, kap);
  }

  /** Completeness of one step: a node joined to a fed node by a closed switch is fed. */
  lemma FedStep(g: NodeGraph, kap: SwitchTable, a: string, k: int)
    requires a in g && 0 <= k < |g[a].neighbours| && Conducts(g[a].neighbours[k], kap)
    requires Fed(g, kap, a)
    ensures Fed(g, kap, g[a].neighbours[k].node)
  {
    var G := ClosedAdj(g, kap);
    var b := g[a].neighbours[k].node;
    assert b in Succ(G, a);
    var f :| f in g && g[f].isFeed && Reachable(G, f, a);
    ReachableStep(G, f, a, b);
  }

  /**
   * Soundness of one step: a fed node that is not a feed has a fed neighbour through a closed
   * switch: it lists (c, s) and `c` is fed, and, the adjacency being symmetric in a built
   * graph, `c` lists it through `s` too.
   */
  lemma FedHasFedNeighbour(g: NodeGraph, kap: SwitchTable, n: string)
    requires n in g && Fed(g, kap, n) && !g[n].isFeed
    ensures exists c, k ::
      && c in g && 0 <= k < |g[c].neighbours| && Conducts(g[c].neighbours[k], kap)
      && g[c].neighbours[k].node == n && Fed(g, kap, c)
  {
    var G := ClosedAdj(g, kap);
    var f :| f in g && g[f].isFeed && Reachable(G, f, n);
    ReachableHasPredecessor(G, f, n);
    var c :| Reachable(G, f, c) && n in Succ(G, c);
    var k :| 0 <= k < |g[c].neighbours| && Conducts(g[c].neighbours[k], kap) && g[c].neighbours[k].node == n;
  }

  /** The feed nodes of the graph. */
  function FeedSet(g: NodeGraph): set<string> {
    set n | n in g && g[n].isFeed
  }

  /** The working copy `g'` is `g` with exactly the nodes of `en` energized. */
  ghost predicate Tracked(g: NodeGraph, g': NodeGraph, en: set<string>) {
    && en <= g.Keys && g'.Keys == g.Keys
    && forall n {:trigger g'[n]} :: n in g' ==> g'[n] == g[n].(energized := n in en)
  }

  /** The working copy has the shape of `g`, and exactly the nodes of `en` energized. */
  lemma TrackedShape(g: NodeGraph, g': NodeGraph, en: set<string>)
    requires Tracked(g, g', en)
    ensures SameShape(g', g)
    ensures forall n :: n in g' ==> (g'[n].energized <==> n in en)
  {
    forall n | n in g'
      ensures g'[n].isFeed == g[n].isFeed && g'[n].neighbours == g[n].neighbours
      ensures g'[n].energized <==> n in en
    {
      assert g'[n] == g[n].(energized := n in en);
    }
  }

  /** The result list holds the energized nodes, each once. */
  ghost predicate Listed(en: set<string>, result: seq<string>) {
    (forall n :: n in result <==> n in en) && Distinct(result)
  }

  /** Every energized node is fed. */
  ghost predicate Justified(g: NodeGraph, kap: SwitchTable, en: set<string>) {
    forall n {:trigger Fed(g, kap, n)} :: n in en ==> Fed(g, kap, n)
  }

  /** Setting the flag of one more node. */
  lemma TrackedEnergize(g: NodeGraph, g0: NodeGraph, en0: set<string>, b: string)
    requires Tracked(g, g0, en0) && b in g0
    ensures Tracked(g, g0[b := g0[b].(energized := true)], en0 + {b})
  {
  }

  /** Listing one more node. */
  lemma ListedPush(en0: set<string>, result0: seq<string>, b: string)
    requires Listed(en0, result0) && b !in en0
    ensures Listed(en0 + {b}, result0 + [b])
  {
  }

  /** Every conducting connection out of a node of `done` leads into `en`. */
  ghost predicate DoneClosed(G: Graph, done: set<string>, en: set<string>) {
    forall a, b :: a in done && b in Succ(G, a) ==> b in en
  }

  /**
   * The state while node `a` is expanded: the working flags follow `en`, the queue holds the
   * energized nodes that are neither done nor `a`, the result lists the energized nodes, and
   * those are all fed.
   */
  ghost predicate Expanding(g: NodeGraph, kap: SwitchTable, a: string, g': NodeGraph, en: set<string>,
                            queue: seq<string>, result: seq<string>, done: set<string>) {
    a in en && Tracked(g, g', en) && Frontier(en, done, a, queue) && Listed(en, result)
    && Justified(g, kap, en)
  }

  /**
   * The state between two nodes taken off the queue: as while expanding, with the queue
   * holding every energized node not done; every conducting connection out of a done node
   * leads to an energized node, the feed nodes are energized and listed first.
   */
  ghost predicate Traversal(g: NodeGraph, kap: SwitchTable, order: seq<string>, g': NodeGraph,
                            en: set<string>, queue: seq<string>, result: seq<string>, done: set<string>) {
    && Tracked(g, g', en) && Listed(en, result) && Justified(g, kap, en)
    && (forall n :: n in en <==> n in done || n in queue) && (forall n :: n in done ==> n !in queue)
    && Distinct(queue) && DoneClosed(ClosedAdj(g, kap), done, en)
    && FeedSet(g) <= en && FeedOrder(g, order) <= result
  }

  /**
   * The reset: every node's flag is cleared, then set again exactly for the feed nodes, which
   * are queued, and listed, in key order.
   */
  method ResetFlags(g: NodeGraph, order: seq<string>) returns (g': NodeGraph, feeds: seq<string>)
    requires WellFormed(g, order)
    ensures Tracked(g, g', FeedSet(g))
    ensures feeds == FeedOrder(g, order)
  {
    g', feeds := g, [];
    for i := 0 to |order|
      invariant ResetUpTo(g, g', order[..i])
      invariant feeds == FeedOrder(g, order[..i])
    {
      var id := order[i];
      var node := g'[id];
      ghost var before := g';
      g' := g'[id := node.(energized := node.isFeed)];
      if node.isFeed {
        feeds := feeds + [id];
      }
      ResetStep(g, before, g', order, i);
      FeedOrderStep(g, order, i);
    }
    ResetDone(g, g', order);
  }

  /** The feeds among the first `i + 1` nodes of the key order. */
  lemma FeedOrderStep(g: NodeGraph, order: seq<string>, i: int)
    requires 0 <= i < |order|
    ensures FeedOrder(g, order[..i + 1])
         == FeedOrder(g, order[..i]) + (if order[i] in g && g[order[i]].isFeed then [order[i]] else [])
  {
    assert order[..i + 1][..i] == order[..i];
  }

  /** The working copy `g'` is `g` with the flag of every node of `done` set to its feed flag. */
  ghost predicate ResetUpTo(g: NodeGraph, g': NodeGraph, done: seq<string>) {
    && g'.Keys == g.Keys
    && forall n :: n in g' ==> g'[n] == g[n].(energized := if n in done then g[n].isFeed else g[n].energized)
  }

  /** Resetting node `i` of the key order. */
  lemma ResetStep(g: NodeGraph, before: NodeGraph, g': NodeGraph, order: seq<string>, i: int)
    requires 0 <= i < |order| && order[i] in before && ResetUpTo(g, before, order[..i])
    requires g' == before[order[i] := before[order[i]].(energized := before[order[i]].isFeed)]
    ensures ResetUpTo(g, g', order[..i + 1])
    ensures before[order[i]].isFeed == g[order[i]].isFeed
  {
    assert order[..i + 1] == order[..i] + [order[i]];
  }

  /** Once every node is reset, exactly the feeds are energized. */
  lemma ResetDone(g: NodeGraph, g': NodeGraph, order: seq<string>)
    requires WellFormed(g, order) && ResetUpTo(g, g', order[..|order|])
    ensures Tracked(g, g', FeedSet(g)) && order[..|order|] == order
  {
    assert order[..|order|] == order;
  }

  /**
   * Visits neighbour entry `k` of the node `a` being expanded: when its switch is closed and
   * its far node is not yet energized, that node is energized, queued and listed; any other
   * entry changes nothing.
   */
  method VisitNeighbour(g: NodeGraph, kap: SwitchTable, a: string, k: int,
                        g0: NodeGraph, ghost en0: set<string>, queue0: seq<string>, result0: seq<string>,
                        ghost done: set<string>)
    returns (g1: NodeGraph, ghost en1: set<string>, queue1: seq<string>, result1: seq<string>)
    requires (forall a, k :: a in g && 0 <= k < |g[a].neighbours| ==> g[a].neighbours[k].node in g)
    requires a in g && 0 <= k < |g[a].neighbours|
    requires Expanding(g, kap, a, g0, en0, queue0, result0, done) && LeadsInto(g, kap, a, k, en0)
    ensures Expanding(g, kap, a, g1, en1, queue1, result1, done) && LeadsInto(g, kap, a, k + 1, en1)
    ensures var b := g[a].neighbours[k].node;
      if Conducts(g[a].neighbours[k], kap) && b !in en0
      then g1 == g0[b := g0[b].(energized := true)] && en1 == en0 + {b}
        && queue1 == queue0 + [b] && result1 == result0 + [b]
      else g1 == g0 && en1 == en0 && queue1 == queue0 && result1 == result0
    ensures en0 <= en1 && result0 <= result1
    ensures (en1 == en0 && queue1 == queue0) || |g.Keys - en1| < |g.Keys - en0|
  {
    g1, en1, queue1, result1 := g0, en0, queue0, result0;
    assert g0[a] == g[a].(energized := a in en0);
    assert g0[g[a].neighbours[k].node] == g[g[a].neighbours[k].node].(energized := g[a].neighbours[k].node in en0);
    var nb := g0[a].neighbours[k];
    var b := nb.node;
    var closed := nb.sw in kap && kap[nb.sw] == Closed;
    if closed && !g0[b].energized {
      g1 := g0[b := g0[b].(energized := true)];
      en1 := en0 + {b};
      queue1 := queue0 + [b];
      result1 := result0 + [b];
      VisitEnergizes(g, kap, a, k, g0, en0, queue0, result0, done);
    } else {
      VisitSkips(g, kap, a, k, g0, en0, queue0, result0, done);
    }
  }

  /** The visit that energizes the far node `b` of entry `k`. */
  lemma VisitEnergizes(g: NodeGraph, kap: SwitchTable, a: string, k: int,
                       g0: NodeGraph, en0: set<string>, queue0: seq<string>, result0: seq<string>,
                       done: set<string>)
    requires (forall a, k :: a in g && 0 <= k < |g[a].neighbours| ==> g[a].neighbours[k].node in g)
    requires a in g && 0 <= k < |g[a].neighbours|
    requires Expanding(g, kap, a, g0, en0, queue0, result0, done) && LeadsInto(g, kap, a, k, en0)
    requires Conducts(g[a].neighbours[k], kap) && !g0[g[a].neighbours[k].node].energized
    ensures var b := g[a].neighbours[k].node;
      && Expanding(g, kap, a, g0[b := g0[b].(energized := true)], en0 + {b}, queue0 + [b], result0 + [b], done)
      && LeadsInto(g, kap, a, k + 1, en0 + {b})
      && |g.Keys - (en0 + {b})| < |g.Keys - en0|
  {
    var b := g[a].neighbours[k].node;
    assert g0[b] == g[b].(energized := b in en0);
    FrontierPush(en0, done, a, queue0, b);
    TrackedEnergize(g, g0, en0, b);
    ListedPush(en0, result0, b);
    FedStep(g, kap, a, k);
    FewerUnvisited(g.Keys, en0, b);
    assert LeadsInto(g, kap, a, k, en0 + {b});
  }

  /** The visit that changes nothing: entry `k` does not conduct or its far node is energized. */
  lemma VisitSkips(g: NodeGraph, kap: SwitchTable, a: string, k: int,
                   g0: NodeGraph, en0: set<string>, queue0: seq<string>, result0: seq<string>,
                   done: set<string>)
    requires (forall a, k :: a in g && 0 <= k < |g[a].neighbours| ==> g[a].neighbours[k].node in g)
    requires a in g && 0 <= k < |g[a].neighbours|
    requires Expanding(g, kap, a, g0, en0, queue0, result0, done) && LeadsInto(g, kap, a, k, en0)
    requires Conducts(g[a].neighbours[k], kap) ==> g0[g[a].neighbours[k].node].energized
    ensures LeadsInto(g, kap, a, k + 1, en0)
  {
    var b := g[a].neighbours[k].node;
    assert g0[b] == g[b].(energized := b in en0);
  }

  /** The conducting entries among the first `j` of node `a`'s neighbour list lead into `en`. */
  ghost predicate LeadsInto(g: NodeGraph, kap: SwitchTable, a: string, j: int, en: set<string>)
    requires a in g
  {
    forall k :: 0 <= k < j && k < |g[a].neighbours| && Conducts(g[a].neighbours[k], kap) ==>
      g[a].neighbours[k].node in en
  }

  /** Once all of `a`'s conducting entries lead into `en`, `a` may count as done. */
  lemma ExpandedClosed(g: NodeGraph, kap: SwitchTable, a: string, done: set<string>, en: set<string>)
    requires a in g && DoneClosed(ClosedAdj(g, kap), done, en)
    requires LeadsInto(g, kap, a, |g[a].neighbours|, en)
    ensures DoneClosed(ClosedAdj(g, kap), done + {a}, en)
  {
    var nbs := g[a].neighbours;
    forall x, y | x in done + {a} && y in Succ(ClosedAdj(g, kap), x)
      ensures y in en
    {
      if x == a {
        var k :| 0 <= k < |nbs| && Conducts(nbs[k], kap) && nbs[k].node == y;
      }
    }
  }

  /**
   * Expands the dequeued node `a`: visits its neighbour entries in order. Afterwards every
   * conducting connection out of `a` leads to an energized node.
   */
  method ExpandNode(g: NodeGraph, kap: SwitchTable, a: string,
                    g0: NodeGraph, ghost en0: set<string>, queue0: seq<string>, result0: seq<string>,
                    ghost done: set<string>)
    returns (g1: NodeGraph, ghost en1: set<string>, queue1: seq<string>, result1: seq<string>)
    requires (forall a, k :: a in g && 0 <= k < |g[a].neighbours| ==> g[a].neighbours[k].node in g)
    requires a in g && Expanding(g, kap, a, g0, en0, queue0, result0, done)
    requires DoneClosed(ClosedAdj(g, kap), done, en0)
    ensures Expanding(g, kap, a, g1, en1, queue1, result1, done)
    ensures DoneClosed(ClosedAdj(g, kap), done + {a}, en1)
    ensures en0 <= en1 && result0 <= result1
    ensures (en1 == en0 && queue1 == queue0) || |g.Keys - en1| < |g.Keys - en0|
  {
    g1, en1, queue1, result1 := g0, en0, queue0, result0;
    var nbs := g0[a].neighbours;
    for j := 0 to |nbs|
      invariant Expanding(g, kap, a, g1, en1, queue1, result1, done) && LeadsInto(g, kap, a, j, en1)
      invariant en0 <= en1 && result0 <= result1
      invariant (en1 == en0 && queue1 == queue0) || |g.Keys - en1| < |g.Keys - en0|
    {
      g1, en1, queue1, result1 := VisitNeighbour(g, kap, a, j, g1, en1, queue1, result1, done);
    }
    assert DoneClosed(ClosedAdj(g, kap), done, en1);
    ExpandedClosed(g, kap, a, done, en1);
  }

  /**
   * The traversal loop, from the state after the reset until the queue is empty. Then every
   * conducting connection out of an energized node leads to an energized node.
   */
  method Traverse(g: NodeGraph, kap: SwitchTable, ghost order: seq<string>, g0: NodeGraph, feeds: seq<string>)
    returns (g1: NodeGraph, ghost en: set<string>, result: seq<string>)
    requires (forall a, k :: a in g && 0 <= k < |g[a].neighbours| ==> g[a].neighbours[k].node in g)
    requires Tracked(g, g0, FeedSet(g)) && feeds == FeedOrder(g, order)
    requires Listed(FeedSet(g), feeds) && Justified(g, kap, FeedSet(g))
    ensures Tracked(g, g1, en) && Listed(en, result) && Justified(g, kap, en)
    ensures DoneClosed(ClosedAdj(g, kap), en, en) && FeedSet(g) <= en && FeedOrder(g, order) <= result
  {
    var queue := feeds;
    g1, en, result := g0, FeedSet(g), feeds;
    ghost var done: set<string> := {};
    TraversalStart(g, kap, order, g0, feeds);
    while |queue| > 0
      invariant Traversal(g, kap, order, g1, en, queue, result, done)
      decreases |g.Keys - en|, |queue|
    {
      g1, en, queue, result, done := TakeNext(g, kap, order, g1, en, queue, result, done);
    }
    TraversalEnd(g, kap, order, g1, en, queue, result, done);
  }

  /** The state after the reset is a traversal state with nothing done. */
  lemma TraversalStart(g: NodeGraph, kap: SwitchTable, order: seq<string>, g0: NodeGraph, feeds: seq<string>)
    requires Tracked(g, g0, FeedSet(g)) && feeds == FeedOrder(g, order)
    requires Listed(FeedSet(g), feeds) && Justified(g, kap, FeedSet(g))
    ensures Traversal(g, kap, order, g0, FeedSet(g), feeds, feeds, {})
  {
  }

  /** With the queue empty, every energized node is done, so their set is closed. */
  lemma TraversalEnd(g: NodeGraph, kap: SwitchTable, order: seq<string>, g1: NodeGraph,
                     en: set<string>, queue: seq<string>, result: seq<string>, done: set<string>)
    requires Traversal(g, kap, order, g1, en, queue, result, done) && |queue| == 0
    ensures Tracked(g, g1, en) && Listed(en, result) && Justified(g, kap, en)
    ensures DoneClosed(ClosedAdj(g, kap), en, en) && FeedSet(g) <= en && FeedOrder(g, order) <= result
  {
    assert done == en;
  }

  /**
   * One turn of the traversal loop: the node at the head of the queue is taken off and
   * expanded, then counts as done.
   */
  method TakeNext(g: NodeGraph, kap: SwitchTable, ghost order: seq<string>, g0: NodeGraph,
                  ghost en0: set<string>, queue0: seq<string>, result0: seq<string>, ghost done0: set<string>)
    returns (g1: NodeGraph, ghost en1: set<string>, queue1: seq<string>, result1: seq<string>,
             ghost done1: set<string>)
    requires (forall a, k :: a in g && 0 <= k < |g[a].neighbours| ==> g[a].neighbours[k].node in g)
    requires |queue0| > 0 && Traversal(g, kap, order, g0, en0, queue0, result0, done0)
    ensures Traversal(g, kap, order, g1, en1, queue1, result1, done1)
    ensures |g.Keys - en1| < |g.Keys - en0| || (en1 == en0 && |queue1| < |queue0|)
  {
    var a := queue0[0];
    var rest := queue0[1..];
    assert forall n :: n in queue0 <==> n == a || n in rest;
    assert Frontier(en0, done0, a, rest);
    g1, en1, queue1, result1 := ExpandNode(g, kap, a, g0, en0, rest, result0, done0);
    done1 := done0 + {a};
  }

  /** The state after the reset: exactly the feed nodes are energized, listed and fed. */
  lemma StartState(g: NodeGraph, kap: SwitchTable, order: seq<string>)
    requires WellFormed(g, order)
    ensures Listed(FeedSet(g), FeedOrder(g, order)) && Justified(g, kap, FeedSet(g))
  {
    FeedOrderSpec(g, order);
    forall n | n in FeedSet(g)
      ensures Fed(g, kap, n)
    {
      ReachableRefl(ClosedAdj(g, kap), n);
    }
  }

  /**
   * When the energized nodes include the feed nodes, are all fed, and every conducting
   * connection out of one leads to another, they are exactly the fed nodes.
   */
  lemma Saturated(g: NodeGraph, kap: SwitchTable, en: set<string>)
    requires en <= g.Keys && Justified(g, kap, en) && FeedSet(g) <= en
    requires DoneClosed(ClosedAdj(g, kap), en, en)
    ensures forall n :: n in g ==> (n in en <==> Fed(g, kap, n))
  {
    var G := ClosedAdj(g, kap);
    assert ClosedUnder(G, en);
    forall n | n in g
      ensures n in en <==> Fed(g, kap, n)
    {
      if Fed(g, kap, n) {
        var f :| f in g && g[f].isFeed && Reachable(G, f, n);
        assert f in FeedSet(g);
        ClosedContainsReachable(G, en, f, n);
      }
    }
  }

  /**
   * The energization pass: resets every flag, energizes and queues the feed nodes in key
   * order, then propagates breadth-first through closed switches. Afterwards a node is
   * energized exactly when it is fed, and the result lists the energized nodes, each once,
   * the feed nodes first.
   */
  method Energize(g: NodeGraph, order: seq<string>, kap: SwitchTable) returns (g': NodeGraph, result: seq<string>)
    requires WellFormed(g, order)
    ensures SameShape(g', g)
    ensures forall n :: n in g' ==> (g'[n].energized <==> Fed(g, kap, n))
    ensures Distinct(result) && forall n :: n in result <==> n in g' && g'[n].energized
    ensures FeedOrder(g, order) <= result
  {
    var g0, feeds := ResetFlags(g, order);
    StartState(g, kap, order);
    ghost var en;
    g', en, result := Traverse(g, kap, order, g0, feeds);
    Saturated(g, kap, en);
    TrackedShape(g, g', en);
  }

  /**
   * Idempotence: the flags depend only on the shape and the switch table, so a second pass over
   * the result of a first one, with the table unchanged, yields the same graph.
   */
  lemma EnergizeIdempotent(g: NodeGraph, g1: NodeGraph, g2: NodeGraph, kap: SwitchTable)
    requires SameShape(g1, g) && forall n :: n in g1 ==> (g1[n].energized <==> Fed(g, kap, n))
    requires SameShape(g2, g1) && forall n :: n in g2 ==> (g2[n].energized <==> Fed(g1, kap, n))
    ensures g2 == g1
  {
    forall n | n in g2
      ensures g2[n] == g1[n]
    {
      FedIgnoresFlags(g1, g, kap, n);
    }
  }

  /** A graph of the same shape is well formed with the same key order. */
  lemma SameShapeWellFormed(g1: NodeGraph, g2: NodeGraph, order: seq<string>)
    requires WellFormed(g1, order) && SameShape(g2, g1)
    ensures WellFormed(g2, order)
  {
    forall a, k | a in g2 && 0 <= k < |g2[a].neighbours|
      ensures g2[a].neighbours[k].node in g2
    {
      assert g2[a].neighbours == g1[a].neighbours;
    }
  }

  /** The built graph is well formed with the key order of the build. */
  lemma BuiltWellFormed(t: Topology)
    ensures WellFormed(InitialGraph(t), FirstOccurrences(AllNodeIds(t.stations)))
  {
    var g := InitialGraph(t);
    FirstOccurrencesSpec(AllNodeIds(t.stations));
    forall a, k | a in g && 0 <= k < |g[a].neighbours|
      ensures g[a].neighbours[k].node in g
    {
      var nb := g[a].neighbours[k];
      InitialGraphSymmetric(t, a, nb.node, nb.sw);
    }
  }

  // ---------------------------------------------------------------------------------------
  // Switch handling (kapcsolo_kezeles, alkalmaz_szcenario)
  // ---------------------------------------------------------------------------------------

  /** The table after toggling switch `id`: "closed" becomes "open", anything else "closed". */
  function Flip(kap: SwitchTable, id: string): (r: SwitchTable)
    requires id in kap
    ensures r.Keys == kap.Keys
    ensures forall s :: s in r && s != id ==> r[s] == kap[s]
    ensures r[id] == Closed <==> kap[id] != Closed
    ensures r[id] == Closed || r[id] == Open
  {
    kap[id := if kap[id] == Closed then Open else Closed]
  }

  /** Toggling twice restores a switch that was "closed" or "open". */
  lemma FlipTwice(kap: SwitchTable, id: string)
    requires id in kap && (kap[id] == Closed || kap[id] == Open)
    ensures Flip(Flip(kap, id), id) == kap
  {
    assert Flip(Flip(kap, id), id)[id] == kap[id];
  }

  /**
   * The table after scenario `sc`: every switch is "closed" unless the scenario names it, in
   * which case it takes the scenario's state; ids the scenario names that are not switches
   * are ignored.
   */
  function Apply(kap: SwitchTable, sc: Scenario): SwitchTable {
    map s | s in kap :: if s in sc then sc[s] else Closed
  }

  /** The scenario result keeps the switch ids and does not depend on the states before. */
  lemma ApplyForgets(kap1: SwitchTable, kap2: SwitchTable, sc: Scenario)
    requires kap1.Keys == kap2.Keys
    ensures Apply(kap1, sc).Keys == kap1.Keys
    ensures Apply(kap1, sc) == Apply(kap2, sc)
  {
  }

  /** Applying the same scenario again changes nothing. */
  lemma ApplyIdempotent(kap: SwitchTable, sc: Scenario)
    ensures Apply(Apply(kap, sc), sc) == Apply(kap, sc)
  {
  }

  /** With the empty scenario every switch ends up "closed". */
  lemma ApplyEmpty(kap: SwitchTable)
    ensures forall s :: s in Apply(kap, map[]) ==> Apply(kap, map[])[s] == Closed
    ensures Apply(kap, map[]).Keys == kap.Keys
  {
  }

  /** Closing every switch and then laying the scenario over the table is `Apply`. */
  lemma ApplySteps(kap: SwitchTable, closedAll: SwitchTable, r: SwitchTable, sc: Scenario)
    requires closedAll.Keys == kap.Keys && forall s :: s in closedAll ==> closedAll[s] == Closed
    requires r.Keys == closedAll.Keys
    requires forall s :: s in r ==> r[s] == if s in sc then sc[s] else closedAll[s]
    ensures r == Apply(kap, sc)
  {
  }

  /** Step 1 of a scenario: every switch of the table is set to "closed", one key at a time. */
  method CloseAll(kap: SwitchTable) returns (r: SwitchTable)
    ensures r.Keys == kap.Keys
    ensures forall s :: s in r ==> r[s] == Closed
  {
    r := kap;
    var todo := kap.Keys;
    while todo != {}
      invariant todo <= kap.Keys && r.Keys == kap.Keys
      invariant forall s :: s in r && s !in todo ==> r[s] == Closed
      decreases |todo|
    {
      var s :| s in todo;
      r := r[s := Closed];
      todo := todo - {s};
    }
  }

  /** Step 2 of a scenario: each entry of the scenario whose id is a switch overwrites its state. */
  method Overlay(kap: SwitchTable, sc: Scenario) returns (r: SwitchTable)
    ensures r.Keys == kap.Keys
    ensures forall s :: s in r ==> r[s] == if s in sc then sc[s] else kap[s]
  {
    r := kap;
    var todo := sc.Keys;
    while todo != {}
      invariant todo <= sc.Keys && r.Keys == kap.Keys
      invariant forall s :: s in r ==> r[s] == if s in sc && s !in todo then sc[s] else kap[s]
      decreases |todo|
    {
      var s :| s in todo;
      if s in r {
        r := r[s := sc[s]];
      }
      todo := todo - {s};
    }
  }

  /**
   * The logic module's state: the node graph with its key order, the switch-state table and
   * the scenarios, all built once from the topology. Every change of the switch table is
   * followed by a full energization pass, whose result list is what the display is given.
   */
  class Logika {
    var graf: NodeGraph
    var order: seq<string>
    var kapcsolok: SwitchTable
    var szcenariok: map<string, Scenario>

    ghost predicate Valid()
      reads this
    {
      WellFormed(graf, order)
    }

    /** The build, followed by storing the scenarios. */
    constructor (t: Topology, scenarios: map<string, Scenario>)
      ensures Valid()
      ensures graf == InitialGraph(t) && order == FirstOccurrences(AllNodeIds(t.stations))
      ensures kapcsolok == DeclaredStates(AllSwitches(t.stations)) && szcenariok == scenarios
    {
      var g, o, k := Build(t);
      BuiltWellFormed(t);
      graf, order, kapcsolok, szcenariok := g, o, k, scenarios;
    }

    /**
     * Recomputes the energized flags from the current switch table: afterwards a node is
     * energized exactly when it is fed; nothing but the flags changes.
     */
    method Propagate() returns (result: seq<string>)
      requires Valid()
      modifies this
      ensures Valid()
      ensures order == old(order) && kapcsolok == old(kapcsolok) && szcenariok == old(szcenariok)
      ensures SameShape(graf, old(graf))
      ensures forall n :: n in graf ==> (graf[n].energized <==> Fed(graf, kapcsolok, n))
      ensures Distinct(result) && forall n :: n in result <==> n in graf && graf[n].energized
      ensures FeedOrder(graf, order) <= result
    {
      ghost var g0 := graf;
      graf, result := Energize(graf, order, kapcsolok);
      SameShapeWellFormed(g0, graf, order);
      forall n | n in graf
        ensures Fed(graf, kapcsolok, n) <==> Fed(g0, kapcsolok, n)
      {
        FedIgnoresFlags(graf, g0, kapcsolok, n);
      }
      FeedOrderSame(g0, graf, order);
    }

    /**
     * A click on switch `id`: an id that is not in the table is ignored; otherwise its state
     * is toggled and the energization is recomputed.
     */
    method Toggle(id: string) returns (r: Option<seq<string>>)
      requires Valid()
      modifies this
      ensures Valid()
      ensures order == old(order) && szcenariok == old(szcenariok) && SameShape(graf, old(graf))
      ensures id !in old(kapcsolok) ==> r.None? && graf == old(graf) && kapcsolok == old(kapcsolok)
      ensures id in old(kapcsolok) ==> r.Some? && kapcsolok == Flip(old(kapcsolok), id)
      ensures r.Some? ==> forall n :: n in graf ==> (graf[n].energized <==> Fed(graf, kapcsolok, n))
      ensures r.Some? ==> Distinct(r.value) && forall n :: n in r.value <==> n in graf && graf[n].energized
    {
      if id !in kapcsolok {
        return None;
      }
      kapcsolok := Flip(kapcsolok, id);
      var result := Propagate();
      r := Some(result);
    }

    /**
     * Selecting scenario `id`: an unknown scenario is ignored; otherwise every switch is set
     * to "closed", the scenario's states are laid over the switches it names, and the
     * energization is recomputed.
     */
    method ApplyScenario(id: string) returns (r: Option<seq<string>>)
      requires Valid()
      modifies this
      ensures Valid()
      ensures order == old(order) && szcenariok == old(szcenariok) && SameShape(graf, old(graf))
      ensures id !in szcenariok ==> r.None? && graf == old(graf) && kapcsolok == old(kapcsolok)
      ensures id in szcenariok ==> r.Some? && kapcsolok == Apply(old(kapcsolok), szcenariok[id])
      ensures r.Some? ==> forall n :: n in graf ==> (graf[n].energized <==> Fed(graf, kapcsolok, n))
      ensures r.Some? ==> Distinct(r.value) && forall n :: n in r.value <==> n in graf && graf[n].energized
    {
      if id !in szcenariok {
        return None;
      }
      var sc := szcenariok[id];
      var closedAll := CloseAll(kapcsolok);
      var next := Overlay(closedAll, sc);
      ApplySteps(kapcsolok, closedAll, next, sc);
      kapcsolok := next;
      var result := Propagate();
      r := Some(result);
    }
  }

  /** The feed order depends only on the feed flags. */
  lemma {:induction false} FeedOrderSame(g1: NodeGraph, g2: NodeGraph, order: seq<string>)
    requires SameShape(g2, g1)
    ensures FeedOrder(g1, order) == FeedOrder(g2, order)
  {
    if |order| > 0 {
      FeedOrderSame(g1, g2, order[..|order| - 1]);
    }
  }
}
