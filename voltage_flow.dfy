/**
 * The voltage-flow engine: builds an undirected graph of the switches that are "closed" in
 * the live switch-state document, then spreads a voltage value from each of up to three feed
 * points by breadth-first search. The visited set is shared between the searches, so a
 * section reached from an earlier feed keeps that feed's value.
 */
module VoltageFlow {
  import opened Wrappers
  import opened KeyedTopology
  import opened Reach

  // ---------------------------------------------------------------------------------------
  // The graph of closed switches (buildGraph)
  // ---------------------------------------------------------------------------------------

  /** A switch entry conducts when its live state is "closed" and both its ends are set. */
  predicate Conducting(data: SwitchData, e: Entry<SwitchDef>) {
    e.key in data && data[e.key] == Closed && e.val.from != "" && e.val.to != ""
  }

  /** Switch entry `e` conducts and joins `a` and `b`, in either direction. */
  predicate ClosedLink(data: SwitchData, e: Entry<SwitchDef>, a: string, b: string) {
    Conducting(data, e) && ((e.val.from == a && e.val.to == b) || (e.val.to == a && e.val.from == b))
  }

  /** Some switch of some station conducts and joins `a` and `b`. */
  ghost predicate Linked(stations: seq<Entry<Station>>, data: SwitchData, a: string, b: string) {
    exists i, j :: 0 <= i < |stations| && 0 <= j < |stations[i].val.switches|
      && ClosedLink(data, stations[i].val.switches[j], a, b)
  }

  /** The graph with the edge `from`-`to` added in both directions. */
  function Link(g: Graph, from: string, to: string): Graph {
    var g1 := g[from := Succ(g, from) + {to}];
    g1[to := Succ(g1, to) + {from}]
  }

  /** The graph after the conducting entries of `sws` are added in order. */
  function LinkAll(g: Graph, data: SwitchData, sws: seq<Entry<SwitchDef>>): Graph {
    if |sws| == 0 then g
    else
      var g1 := LinkAll(g, data, sws[..|sws| - 1]);
      var e := sws[|sws| - 1];
      if Conducting(data, e) then Link(g1, e.val.from, e.val.to) else g1
  }

  /** The graph after the conducting switches of the stations are added, station by station. */
  function StationLinks(stations: seq<Entry<Station>>, data: SwitchData): Graph {
    if |stations| == 0 then map[]
    else LinkAll(StationLinks(stations[..|stations| - 1], data), data, stations[|stations| - 1].val.switches)
  }

  /** Every key of the graph has at least one neighbour. */
  ghost predicate NoBareKeys(g: Graph) {
    forall a :: a in g ==> g[a] != {}
  }

  /** Adding one edge. */
  lemma LinkSpec(g: Graph, from: string, to: string)
    ensures forall a, b :: b in Succ(Link(g, from, to), a) <==>
      b in Succ(g, a) || (a == from && b == to) || (a == to && b == from)
    ensures NoBareKeys(g) ==> NoBareKeys(Link(g, from, to))
  {
  }

  /** The edges after a run of switch entries: those before, and those of its conducting entries. */
  lemma {:induction false} LinkAllSpec(g: Graph, data: SwitchData, sws: seq<Entry<SwitchDef>>)
    ensures forall a, b :: b in Succ(LinkAll(g, data, sws), a) <==>
      b in Succ(g, a) || exists j :: 0 <= j < |sws| && ClosedLink(data, sws[j], a, b)
    ensures NoBareKeys(g) ==> NoBareKeys(LinkAll(g, data, sws))
  {
    if |sws| > 0 {
      var init, e := sws[..|sws| - 1], sws[|sws| - 1];
      var g1 := LinkAll(g, data, init);
      LinkAllSpec(g, data, init);
      if Conducting(data, e) {
        LinkSpec(g1, e.val.from, e.val.to);
      }
      forall a, b
        ensures b in Succ(LinkAll(g, data, sws), a) <==>
          b in Succ(g, a) || exists j :: 0 <= j < |sws| && ClosedLink(data, sws[j], a, b)
      {
        if j :| 0 <= j < |sws| && ClosedLink(data, sws[j], a, b) {
          if j < |init| {
            assert ClosedLink(data, init[j], a, b);
          }
        }
        if j :| 0 <= j < |init| && ClosedLink(data, init[j], a, b) {
          assert ClosedLink(data, sws[j], a, b);
        }
      }
    }
  }

  /**
   * After the build the graph has an edge from `a` to `b` exactly when some closed switch with
   * both ends set joins them, and it has no node without an edge: nothing else is left in it.
   */
  lemma {:induction false} StationLinksSpec(stations: seq<Entry<Station>>, data: SwitchData)
    ensures forall a, b :: b in Succ(StationLinks(stations, data), a) <==> Linked(stations, data, a, b)
    ensures NoBareKeys(StationLinks(stations, data))
  {
    if |stations| > 0 {
      var init := stations[..|stations| - 1];
      var sws := stations[|stations| - 1].val.switches;
      StationLinksSpec(init, data);
      LinkAllSpec(StationLinks(init, data), data, sws);
      forall a, b
        ensures b in Succ(StationLinks(stations, data), a) <==> Linked(stations, data, a, b)
      {
        if Linked(stations, data, a, b) {
          var i, j :| 0 <= i < |stations| && 0 <= j < |stations[i].val.switches|
            && ClosedLink(data, stations[i].val.switches[j], a, b);
          if i < |init| {
            assert init[i] == stations[i];
            assert Linked(init, data, a, b);
          }
        }
        if Linked(init, data, a, b) {
          var i, j :| 0 <= i < |init| && 0 <= j < |init[i].val.switches|
            && ClosedLink(data, init[i].val.switches[j], a, b);
          assert stations[i] == init[i];
        }
        if j :| 0 <= j < |sws| && ClosedLink(data, sws[j], a, b) {
          assert ClosedLink(data, stations[|stations| - 1].val.switches[j], a, b);
        }
      }
    }
  }

  /** The graph of closed switches is undirected. */
  lemma StationLinksSymmetric(stations: seq<Entry<Station>>, data: SwitchData, a: string, b: string)
    ensures b in Succ(StationLinks(stations, data), a) <==> a in Succ(StationLinks(stations, data), b)
  {
    StationLinksSpec(stations, data);
    if Linked(stations, data, a, b) {
      var i, j :| 0 <= i < |stations| && 0 <= j < |stations[i].val.switches|
        && ClosedLink(data, stations[i].val.switches[j], a, b);
      assert ClosedLink(data, stations[i].val.switches[j], b, a);
    }
    if Linked(stations, data, b, a) {
      var i, j :| 0 <= i < |stations| && 0 <= j < |stations[i].val.switches|
        && ClosedLink(data, stations[i].val.switches[j], b, a);
      assert ClosedLink(data, stations[i].val.switches[j], a, b);
    }
  }

  lemma StationLinksStep(stations: seq<Entry<Station>>, data: SwitchData, i: int)
    requires 0 <= i < |stations|
    ensures StationLinks(stations[..i + 1], data) == LinkAll(StationLinks(stations[..i], data), data, stations[i].val.switches)
  {
    assert stations[..i + 1][..i] == stations[..i];
  }

  lemma LinkAllStep(g: Graph, data: SwitchData, sws: seq<Entry<SwitchDef>>, j: int)
    requires 0 <= j < |sws|
    ensures LinkAll(g, data, sws[..j + 1]) ==
      if Conducting(data, sws[j]) then Link(LinkAll(g, data, sws[..j]), sws[j].val.from, sws[j].val.to)
      else LinkAll(g, data, sws[..j])
  {
    assert sws[..j + 1][..j] == sws[..j];
  }

  // ---------------------------------------------------------------------------------------
  // The feed points (getFeedNodes)
  // ---------------------------------------------------------------------------------------

  /** A feed point: the node the voltage starts from and the value it spreads. */
  datatype FeedPoint = FeedPoint(node: string, value: int)

  /** The `node` of the feed named `name`, or "" when there is none. */
  function FeedId(t: Topology, name: string): string {
    match t.feeds
    case None => ""
    case Some(fs) =>
      match Lookup(fs, name)
      case None => ""
      case Some(f) => f.node
  }

  /**
   * The feed points in the fixed order of their values: the HTK substation (1) and the Hatvan
   * substation (2), each falling back to its default node, and the JBH feed (3), which is
   * dropped when it names no node.
   */
  function GetFeedNodes(t: Topology): (r: seq<FeedPoint>)
    ensures 2 <= |r| <= 3
    ensures forall i :: 0 <= i < |r| ==> r[i].value == i + 1 && r[i].node != ""
  {
    var htk := FeedId(t, "Alallomas_HTK");
    var hatvan := FeedId(t, "Alallomas_Hatvan");
    var jbh := FeedId(t, "JBH_feed");
    [FeedPoint(if htk != "" then htk else "w_Alallomas_HTK_gys", 1),
     FeedPoint(if hatvan != "" then hatvan else "w_Hn_gys", 2)]
    + (if jbh != "" then [FeedPoint(jbh, 3)] else [])
  }

  /** Which node each feed point names, and when the third one is present. */
  lemma GetFeedNodesSpec(t: Topology)
    ensures var r := GetFeedNodes(t);
      && (FeedId(t, "Alallomas_HTK") != "" ==> r[0].node == FeedId(t, "Alallomas_HTK"))
      && (FeedId(t, "Alallomas_HTK") == "" ==> r[0].node == "w_Alallomas_HTK_gys")
      && (FeedId(t, "Alallomas_Hatvan") != "" ==> r[1].node == FeedId(t, "Alallomas_Hatvan"))
      && (FeedId(t, "Alallomas_Hatvan") == "" ==> r[1].node == "w_Hn_gys")
      && (|r| == 3 <==> FeedId(t, "JBH_feed") != "")
      && (|r| == 3 ==> r[2].node == FeedId(t, "JBH_feed"))
  {
  }

  // ---------------------------------------------------------------------------------------
  // Spreading the voltage (simulateVoltageFlow, bfs)
  // ---------------------------------------------------------------------------------------

  /** Node `n` is reached from feed point `j`. */
  ghost predicate ReachedFrom(g: Graph, feeds: seq<FeedPoint>, j: int, n: string) {
    0 <= j < |feeds| && Reachable(g, feeds[j].node, n)
  }

  /** Node `n` is reached from one of the first `k` feed points. */
  ghost predicate ReachedBefore(g: Graph, feeds: seq<FeedPoint>, k: int, n: string) {
    exists j :: ReachedFrom(g, feeds, j, n) && j < k
  }

  /** Feed point `j` is the first, in order, from which node `n` is reached. */
  ghost predicate FirstFeed(g: Graph, feeds: seq<FeedPoint>, n: string, j: int) {
    ReachedFrom(g, feeds, j, n) && forall i :: 0 <= i < j ==> !ReachedFrom(g, feeds, i, n)
  }

  /** A node reached from some feed point has a first one. */
  lemma FirstFeedExists(g: Graph, feeds: seq<FeedPoint>, n: string, j: int)
    requires ReachedFrom(g, feeds, j, n)
    ensures exists k :: FirstFeed(g, feeds, n, k)
  {
    var k := j;
    while exists i :: 0 <= i < k && ReachedFrom(g, feeds, i, n)
      invariant 0 <= k <= j && ReachedFrom(g, feeds, k, n)
      decreases k
    {
      var i :| 0 <= i < k && ReachedFrom(g, feeds, i, n);
      k := i;
    }
    assert FirstFeed(g, feeds, n, k);
  }

  /** Every node that appears in the graph, as a key or as a neighbour. */
  function Nodes(g: Graph): set<string> {
    g.Keys + set a, b | a in g && b in g[a] :: b
  }

  /** `after` is `before` with every node of `reached` given the value `value`. */
  ghost predicate Painted(before: map<string, int>, after: map<string, int>, reached: set<string>, value: int) {
    && (forall n :: n in after <==> n in before || n in reached)
    && (forall n :: n in after ==> after[n] == if n in reached then value else before[n])
  }

  /** The nodes one search has reached: those it added to `visited`, and its start node. */
  function NewlyReached(visited: set<string>, vis: set<string>, start: string): set<string> {
    (vis - visited) + {start}
  }

  /** Every successor of a node of `done` is in `vis`. */
  ghost predicate DoneInto(g: Graph, done: set<string>, vis: set<string>) {
    forall a, b :: a in done && b in Succ(g, a) ==> b in vis
  }

  /**
   * The state of one search from `start` with value `value`: it has painted what it reached,
   * all of it reachable from `start`, only nodes of the graph besides the start.
   */
  ghost predicate Searching(g: Graph, start: string, value: int, visited: set<string>, vis: set<string>,
                            m0: map<string, int>, m: map<string, int>) {
    && visited + {start} <= vis && vis <= visited + Nodes(g) + {start}
    && Painted(m0, m, NewlyReached(visited, vis, start), value)
    && (forall n {:trigger Reachable(g, start, n)} :: n in NewlyReached(visited, vis, start) ==> Reachable(g, start, n))
  }

  /** The nodes the search has reached are those expanded (`settled`) and those queued. */
  ghost predicate Queued(visited: set<string>, vis: set<string>, start: string, settled: set<string>, queue: seq<string>) {
    forall n :: n in NewlyReached(visited, vis, start) <==> n in settled || n in queue
  }

  /** Visiting the unvisited neighbour `b` of a node the search has reached. */
  lemma SearchPush(g: Graph, start: string, value: int, visited: set<string>, vis: set<string>,
                   m0: map<string, int>, m: map<string, int>, current: string, b: string,
                   done: set<string>, queue: seq<string>)
    requires Searching(g, start, value, visited, vis, m0, m)
    requires current in NewlyReached(visited, vis, start) && b in Succ(g, current) && b !in vis
    requires Queued(visited, vis, start, done + {current}, queue) && DoneInto(g, done, vis)
    ensures Searching(g, start, value, visited, vis + {b}, m0, m[b := value])
    ensures Queued(visited, vis + {b}, start, done + {current}, queue + [b]) && DoneInto(g, done, vis + {b})
    ensures b in Nodes(g) + {start}
  {
    ReachableStep(g, start, current, b);
    assert current in g;
    assert NewlyReached(visited, vis + {b}, start) == NewlyReached(visited, vis, start) + {b};
  }

  /**
   * What one finished search guarantees: it painted what it reached, all of it reachable from
   * `start`, and every neighbour of a node it reached is visited.
   */
  ghost predicate Searched(g: Graph, start: string, value: int, visited: set<string>, vis: set<string>,
                           m0: map<string, int>, m: map<string, int>) {
    && visited + {start} <= vis
    && Painted(m0, m, NewlyReached(visited, vis, start), value)
    && (forall n :: n in NewlyReached(visited, vis, start) ==> Reachable(g, start, n))
    && DoneInto(g, NewlyReached(visited, vis, start), vis)
  }

  /** Every visited node is reached from one of the first `k` feed points. */
  ghost predicate FromEarlier(g: Graph, feeds: seq<FeedPoint>, k: int, visited: set<string>) {
    forall n {:trigger ReachedBefore(g, feeds, k, n)} :: n in visited ==> ReachedBefore(g, feeds, k, n)
  }

  /** Every visited node holds the value of the first feed point that reaches it. */
  ghost predicate FirstValues(g: Graph, feeds: seq<FeedPoint>, visited: set<string>, m: map<string, int>)
    requires visited <= m.Keys
  {
    forall n, j {:trigger FirstFeed(g, feeds, n, j)} :: n in visited && FirstFeed(g, feeds, n, j) ==> m[n] == feeds[j].value
  }

  /**
   * The shared state of the searches after the first `k` feed points: the visited nodes are
   * the keys of the voltage map, are closed under the graph, include those feed points'
   * nodes, are each reached from one of them and hold the value of the first that reaches it.
   */
  ghost predicate Simulated(g: Graph, feeds: seq<FeedPoint>, k: int, visited: set<string>, m: map<string, int>) {
    && 0 <= k <= |feeds|
    && m.Keys == visited
    && FromEarlier(g, feeds, k, visited)
    && ClosedUnder(g, visited)
    && (forall j :: 0 <= j < k ==> feeds[j].node in visited)
    && FirstValues(g, feeds, visited, m)
  }

  /** A feed point whose node is already visited adds nothing. */
  lemma SkipFeed(g: Graph, feeds: seq<FeedPoint>, k: int, visited: set<string>, m: map<string, int>)
    requires Simulated(g, feeds, k, visited, m) && k < |feeds| && feeds[k].node in visited
    ensures Simulated(g, feeds, k + 1, visited, m)
  {
    forall n | n in visited
      ensures ReachedBefore(g, feeds, k + 1, n)
    {
      assert ReachedBefore(g, feeds, k, n);
      var j :| ReachedFrom(g, feeds, j, n) && j < k;
    }
  }

  /** The search from feed point `k`, whose node was not visited, keeps the shared state. */
  lemma FeedStep(g: Graph, feeds: seq<FeedPoint>, k: int, visited: set<string>, vis: set<string>,
                 m0: map<string, int>, m: map<string, int>)
    requires Simulated(g, feeds, k, visited, m0) && k < |feeds| && feeds[k].node !in visited
    requires Searched(g, feeds[k].node, feeds[k].value, visited, vis, m0, m)
    ensures Simulated(g, feeds, k + 1, vis, m)
  {
    var R := NewlyReached(visited, vis, feeds[k].node);
    assert R == vis - visited;
    FeedStepSound(g, feeds, k, visited, vis);
    FeedStepValues(g, feeds, k, visited, vis, m0, m);
    assert ClosedUnder(g, vis);
  }

  lemma FeedStepSound(g: Graph, feeds: seq<FeedPoint>, k: int, visited: set<string>, vis: set<string>)
    requires 0 <= k < |feeds| && FromEarlier(g, feeds, k, visited) && visited <= vis
    requires forall n :: n in vis - visited ==> Reachable(g, feeds[k].node, n)
    ensures FromEarlier(g, feeds, k + 1, vis)
  {
    forall n | n in vis
      ensures ReachedBefore(g, feeds, k + 1, n)
    {
      if n in visited {
        assert ReachedBefore(g, feeds, k, n);
      var j :| ReachedFrom(g, feeds, j, n) && j < k;
      } else {
        assert ReachedFrom(g, feeds, k, n);
      }
    }
  }

  lemma FeedStepValues(g: Graph, feeds: seq<FeedPoint>, k: int, visited: set<string>, vis: set<string>,
                       m0: map<string, int>, m: map<string, int>)
    requires Simulated(g, feeds, k, visited, m0) && k < |feeds| && feeds[k].node !in visited
    requires Searched(g, feeds[k].node, feeds[k].value, visited, vis, m0, m)
    requires NewlyReached(visited, vis, feeds[k].node) == vis - visited
    ensures vis <= m.Keys && FirstValues(g, feeds, vis, m)
  {
    var R := vis - visited;
    forall n, j | n in vis && FirstFeed(g, feeds, n, j)
      ensures m[n] == feeds[j].value
    {
      if n in R {
        assert ReachedFrom(g, feeds, k, n);
        if j < k {
          ClosedContainsReachable(g, visited, feeds[j].node, n);
        }
      } else {
        assert FirstFeed(g, feeds, n, j);
      }
    }
  }

  /** After all feed points the voltage map holds exactly the nodes reached from one of them. */
  lemma SimulatedKeys(g: Graph, feeds: seq<FeedPoint>, visited: set<string>, m: map<string, int>)
    requires Simulated(g, feeds, |feeds|, visited, m)
    ensures forall n :: n in m <==> ReachedBefore(g, feeds, |feeds|, n)
  {
    forall n | ReachedBefore(g, feeds, |feeds|, n)
      ensures n in m
    {
      var j :| ReachedFrom(g, feeds, j, n) && j < |feeds|;
      ClosedContainsReachable(g, visited, feeds[j].node, n);
    }
  }

  /** After all feed points every value in the voltage map is one of the feed values 1..3. */
  lemma SimulatedRange(g: Graph, feeds: seq<FeedPoint>, visited: set<string>, m: map<string, int>)
    requires Simulated(g, feeds, |feeds|, visited, m)
    requires forall i :: 0 <= i < |feeds| ==> 1 <= feeds[i].value <= 3
    ensures forall n :: n in m ==> 1 <= m[n] <= 3
  {
    forall n | n in m
      ensures 1 <= m[n] <= 3
    {
      assert ReachedBefore(g, feeds, |feeds|, n);
      var j :| ReachedFrom(g, feeds, j, n) && j < |feeds|;
      FirstFeedExists(g, feeds, n, j);
      var k :| FirstFeed(g, feeds, n, k);
    }
  }

  /**
   * Of the candidates `r`, exactly those not in `vis0` were added: to the visited set, to the
   * voltage map with `value`, and to the end of the queue; everything else is as before.
   */
  ghost predicate Added(vis0: set<string>, m1: map<string, int>, queue0: seq<string>, value: int,
                        r: set<string>, vis: set<string>, m: map<string, int>, queue: seq<string>) {
    && vis == vis0 + r
    && Painted(m1, m, r - vis0, value)
    && |queue0| <= |queue| && queue[..|queue0|] == queue0
    && (forall n :: n in queue[|queue0|..] <==> n in r - vis0) && |queue| - |queue0| == |r - vis0|
  }

  /** Considering one more candidate `b`: it is added exactly when it is not yet visited. */
  lemma AddedStep(vis0: set<string>, m1: map<string, int>, queue0: seq<string>, value: int,
                  r: set<string>, vis: set<string>, m: map<string, int>, queue: seq<string>, b: string,
                  vis': set<string>, m': map<string, int>, queue': seq<string>)
    requires Added(vis0, m1, queue0, value, r, vis, m, queue) && b !in r
    requires if b !in vis then vis' == vis + {b} && m' == m[b := value] && queue' == queue + [b]
             else vis' == vis && m' == m && queue' == queue
    ensures Added(vis0, m1, queue0, value, r + {b}, vis', m', queue')
  {
    if b !in vis {
      assert queue'[..|queue0|] == queue0;
      assert queue'[|queue0|..] == queue[|queue0|..] + [b];
      assert (r + {b}) - vis0 == (r - vis0) + {b};
    } else {
      assert (r + {b}) - vis0 == r - vis0;
    }
  }

  /** A subset is no larger than its superset. */
  lemma {:induction false} SubsetSmaller(a: set<string>, b: set<string>)
    requires a <= b
    ensures |a| <= |b|
    decreases |a|
  {
    if a != {} {
      var x :| x in a;
      SubsetSmaller(a - {x}, b - {x});
    }
  }

  /** Adding the unvisited neighbours of `current` adds nothing, or leaves fewer nodes unvisited. */
  lemma AddedMeasure(g: Graph, start: string, current: string, vis0: set<string>, queue0: seq<string>,
                     vis: set<string>, queue: seq<string>)
    requires vis == vis0 + Succ(g, current)
    requires |queue0| <= |queue| && queue[..|queue0|] == queue0 && |queue| - |queue0| == |Succ(g, current) - vis0|
    ensures (vis == vis0 && queue == queue0) || |(Nodes(g) + {start}) - vis| < |(Nodes(g) + {start}) - vis0|
  {
    if Succ(g, current) - vis0 == {} {
      NothingAdded(Succ(g, current), vis0, queue0, vis, queue);
    } else {
      var b :| b in Succ(g, current) - vis0;
      assert current in g && b in g[current];
      SomethingAdded(Nodes(g) + {start}, vis0, vis, b);
    }
  }

  /** When every candidate was visited already, the visited set and the queue are unchanged. */
  lemma NothingAdded(r: set<string>, vis0: set<string>, queue0: seq<string>, vis: set<string>, queue: seq<string>)
    requires vis == vis0 + r && r - vis0 == {}
    requires |queue0| <= |queue| && queue[..|queue0|] == queue0 && |queue| - |queue0| == |r - vis0|
    ensures vis == vis0 && queue == queue0
  {
    assert forall x :: x in r ==> x in r - vis0 || x in vis0;
    assert queue == queue[..|queue0|];
  }

  /** Visiting a node `b` of `u` besides others leaves fewer nodes of `u` unvisited. */
  lemma SomethingAdded(u: set<string>, vis0: set<string>, vis: set<string>, b: string)
    requires b in u && b !in vis0 && vis0 + {b} <= vis
    ensures |u - vis| < |u - vis0|
  {
    FewerUnvisited(u, vis0, b);
    SubsetSmaller(u - vis, u - (vis0 + {b}));
  }

  /** The state of a search while the reached node `current` is expanded. */
  ghost predicate ExpandingFrom(g: Graph, start: string, value: int, visited: set<string>, m0: map<string, int>,
                                current: string, done: set<string>, vis: set<string>, m: map<string, int>,
                                queue: seq<string>) {
    && Searching(g, start, value, visited, vis, m0, m)
    && current in NewlyReached(visited, vis, start)
    && Queued(visited, vis, start, done + {current}, queue) && DoneInto(g, done, vis)
  }

  /** One neighbour `b` of `current`: when it is not yet visited, it is visited, painted and queued. */
  method VisitNeighbor(g: Graph, ghost start: string, value: int, ghost visited: set<string>, ghost m0: map<string, int>,
                       current: string, b: string, vis0: set<string>, m1: map<string, int>, queue0: seq<string>,
                       ghost done: set<string>)
    returns (vis: set<string>, m: map<string, int>, queue: seq<string>)
    requires ExpandingFrom(g, start, value, visited, m0, current, done, vis0, m1, queue0) && b in Succ(g, current)
    ensures ExpandingFrom(g, start, value, visited, m0, current, done, vis, m, queue)
    ensures if b !in vis0 then vis == vis0 + {b} && m == m1[b := value] && queue == queue0 + [b]
            else vis == vis0 && m == m1 && queue == queue0
    ensures b !in vis0 ==> |(Nodes(g) + {start}) - vis| < |(Nodes(g) + {start}) - vis0|
  {
    vis, m, queue := vis0, m1, queue0;
    if b !in vis {
      SearchPush(g, start, value, visited, vis, m0, m, current, b, done, queue);
      FewerUnvisited(Nodes(g) + {start}, vis, b);
      vis := vis + {b};
      m := m[b := value];
      queue := queue + [b];
    }
  }

  /**
   * Visits the neighbours of the dequeued node `current`: each one not yet visited is marked
   * visited, given the value in the voltage map `m` and queued behind the nodes already
   * queued; nothing else changes.
   */
  method Expand(g: Graph, ghost start: string, value: int, ghost visited: set<string>, ghost m0: map<string, int>,
                current: string, vis0: set<string>, m1: map<string, int>, queue0: seq<string>, ghost done: set<string>)
    returns (vis: set<string>, m: map<string, int>, queue: seq<string>)
    requires Searching(g, start, value, visited, vis0, m0, m1)
    requires current in NewlyReached(visited, vis0, start)
    requires Queued(visited, vis0, start, done + {current}, queue0) && DoneInto(g, done, vis0)
    ensures Searching(g, start, value, visited, vis, m0, m)
    ensures Queued(visited, vis, start, done + {current}, queue) && DoneInto(g, done + {current}, vis)
    ensures Added(vis0, m1, queue0, value, Succ(g, current), vis, m, queue)
    ensures (vis == vis0 && queue == queue0) || |(Nodes(g) + {start}) - vis| < |(Nodes(g) + {start}) - vis0|
  {
    var neighbors := if current in g then g[current] else {};
    assert neighbors == Succ(g, current);
    vis, m, queue := VisitAll(g, start, value, visited, m0, current, neighbors, vis0, m1, queue0, done);
    AddedMeasure(g, start, current, vis0, queue0, vis, queue);
    forall a, b | a in done + {current} && b in Succ(g, a)
      ensures b in vis
    {
    }
  }

  /** The loop over the neighbour set of `current`, one neighbour at a time. */
  method VisitAll(g: Graph, ghost start: string, value: int, ghost visited: set<string>, ghost m0: map<string, int>,
                  current: string, neighbors: set<string>, vis0: set<string>, m1: map<string, int>,
                  queue0: seq<string>, ghost done: set<string>)
    returns (vis: set<string>, m: map<string, int>, queue: seq<string>)
    requires neighbors == Succ(g, current)
    requires ExpandingFrom(g, start, value, visited, m0, current, done, vis0, m1, queue0)
    ensures ExpandingFrom(g, start, value, visited, m0, current, done, vis, m, queue)
    ensures Added(vis0, m1, queue0, value, neighbors, vis, m, queue)
  {
    vis, m, queue := vis0, m1, queue0;
    var seen: set<string> := {};
    while seen != neighbors
      invariant seen <= neighbors
      invariant ExpandingFrom(g, start, value, visited, m0, current, done, vis, m, queue)
      invariant Added(vis0, m1, queue0, value, seen, vis, m, queue)
      decreases |neighbors - seen|
    {
      var b :| b in neighbors - seen;
      FewerUnvisited(neighbors, seen, b);
      ghost var pv, pm, pq := vis, m, queue;
      vis, m, queue := VisitNeighbor(g, start, value, visited, m0, current, b, vis, m, queue, done);
      AddedStep(vis0, m1, queue0, value, seen, pv, pm, pq, b, vis, m, queue);
      seen := seen + {b};
    }
  }

  /**
   * The engine's state: the graph of closed switches (node -> neighbour set) and the voltage
   * value of every node reached from a feed.
   */
  class Engine {
    var graph: Graph
    var voltageMap: map<string, int>

    constructor ()
      ensures graph == map[] && voltageMap == map[]
    {
      graph, voltageMap := map[], map[];
    }

    /**
     * Clears the graph, then adds both directions of every switch that is "closed" in `data`
     * and has both ends set, station by station and switch by switch.
     */
    method BuildGraph(t: Topology, data: SwitchData)
      modifies this
      ensures graph == StationLinks(t.stations, data)
      ensures voltageMap == old(voltageMap)
    {
      graph := map[];
      for i := 0 to |t.stations|
        invariant graph == StationLinks(t.stations[..i], data)
        invariant voltageMap == old(voltageMap)
      {
        AddStation(data, t.stations[i].val.switches);
        StationLinksStep(t.stations, data, i);
      }
      assert t.stations[..|t.stations|] == t.stations;
    }

    /** Adds the conducting switches of one station, in order. */
    method AddStation(data: SwitchData, sws: seq<Entry<SwitchDef>>)
      modifies this
      ensures graph == LinkAll(old(graph), data, sws)
      ensures voltageMap == old(voltageMap)
    {
      for j := 0 to |sws|
        invariant graph == LinkAll(old(graph), data, sws[..j])
        invariant voltageMap == old(voltageMap)
      {
        LinkAllStep(old(graph), data, sws, j);
        var e := sws[j];
        if e.key in data && data[e.key] == Closed {
          var from, to := e.val.from, e.val.to;
          if from != "" && to != "" {
            AddEdge(from, to);
          }
        }
      }
      assert sws[..|sws|] == sws;
    }

    /** Adds `to` to the neighbour set of `from` and `from` to that of `to`, creating either set. */
    method AddEdge(from: string, to: string)
      modifies this
      ensures graph == Link(old(graph), from, to)
      ensures voltageMap == old(voltageMap)
    {
      var fromSet := if from in graph then graph[from] else {};
      graph := graph[from := fromSet + {to}];
      var toSet := if to in graph then graph[to] else {};
      graph := graph[to := toSet + {from}];
    }

    /**
     * One search from `start` with value `value`, sharing `visited` with the other searches:
     * the start and every node it newly visits get the value; afterwards every neighbour of
     * a node it reached is visited, and nothing visited before has changed its value.
     */
    method Bfs(start: string, value: int, visited: set<string>) returns (visited': set<string>)
      modifies this
      ensures graph == old(graph)
      ensures Searched(graph, start, value, visited, visited', old(voltageMap), voltageMap)
    {
      ghost var m0 := voltageMap;
      var queue := [start];
      visited' := visited + {start};
      voltageMap := voltageMap[start := value];
      ReachableRefl(graph, start);
      ghost var done: set<string> := {};
      ghost var U := Nodes(graph) + {start};
      while |queue| > 0
        invariant graph == old(graph)
        invariant Searching(graph, start, value, visited, visited', m0, voltageMap)
        invariant Queued(visited, visited', start, done, queue) && DoneInto(graph, done, visited')
        decreases |U - visited'|, |queue|
      {
        var current := queue[0];
        assert forall n :: n in queue <==> n == current || n in queue[1..];
        assert Queued(visited, visited', start, done + {current}, queue[1..]);
        var m;
        visited', m, queue := Expand(graph, start, value, visited, m0, current, visited', voltageMap, queue[1..], done);
        voltageMap := m;
        done := done + {current};
      }
    }

    /**
     * Clears the voltage map, then starts a search from each feed point in order whose node
     * is not yet visited. Afterwards the voltage map holds exactly the nodes reached from a
     * feed point, each with the value of the first feed point that reaches it.
     */
    method SimulateVoltageFlow(t: Topology)
      modifies this
      ensures graph == old(graph)
      ensures forall n :: n in voltageMap <==> ReachedBefore(graph, GetFeedNodes(t), |GetFeedNodes(t)|, n)
      ensures forall n, j :: n in voltageMap && FirstFeed(graph, GetFeedNodes(t), n, j) ==>
        voltageMap[n] == GetFeedNodes(t)[j].value
      ensures forall n :: n in voltageMap ==> 1 <= voltageMap[n] <= 3
    {
      voltageMap := map[];
      var visited: set<string> := {};
      var feeds := GetFeedNodes(t);
      for k := 0 to |feeds|
        invariant graph == old(graph)
        invariant Simulated(graph, feeds, k, visited, voltageMap)
      {
        if feeds[k].node !in visited {
          ghost var m0 := voltageMap;
          var visited' := Bfs(feeds[k].node, feeds[k].value, visited);
          FeedStep(graph, feeds, k, visited, visited', m0, voltageMap);
          visited := visited';
        } else {
          SkipFeed(graph, feeds, k, visited, voltageMap);
        }
      }
      SimulatedKeys(graph, feeds, visited, voltageMap);
      SimulatedRange(graph, feeds, visited, voltageMap);
    }

    /** The full refresh without the colouring: the graph is rebuilt, then the flow simulated. */
    method RefreshVoltage(t: Topology, data: SwitchData)
      modifies this
      ensures graph == StationLinks(t.stations, data)
      ensures forall n :: n in voltageMap <==> ReachedBefore(graph, GetFeedNodes(t), |GetFeedNodes(t)|, n)
      ensures forall n, j :: n in voltageMap && FirstFeed(graph, GetFeedNodes(t), n, j) ==>
        voltageMap[n] == GetFeedNodes(t)[j].value
    {
      BuildGraph(t, data);
      SimulateVoltageFlow(t);
    }
  }
}
