/**
 * The advanced network logic: read-only lookups over the id-keyed topology, the three-level
 * switch-state fallback, and the breadth-first computation of the active set (node ids and
 * switch ids alike) from the feeds, crossing only switches whose state is "closed" and
 * repairing a switch's far endpoint when its `from`/`to` does not name the current node.
 *
 * The lookups are plain functions; what they return is stated by the lemmas after each.
 */
module NetworkLogic {
  import opened Wrappers
  import opened KeyedTopology
  import opened Reach


  /** What `findNode` returns: the name of the station holding the node, and the node. */
  datatype Found = Found(stationName: string, node: NodeDef)

  /** Station `i` is the first, in iteration order, whose `nodes` has `nodeId`. */
  predicate FirstWithNode(stations: seq<Entry<Station>>, nodeId: string, i: int) {
    0 <= i < |stations| && Lookup(stations[i].val.nodes, nodeId).Some?
    && forall j :: 0 <= j < i ==> Lookup(stations[j].val.nodes, nodeId).None?
  }

  /** Station `i` is the first, in iteration order, whose `switches` has `switchId`. */
  predicate FirstWithSwitch(stations: seq<Entry<Station>>, switchId: string, i: int) {
    0 <= i < |stations| && Lookup(stations[i].val.switches, switchId).Some?
    && forall j :: 0 <= j < i ==> Lookup(stations[j].val.switches, switchId).None?
  }

  /** findNode: the node `nodeId` as held by the first station that has it, with that station's name. */
  function FindNode(stations: seq<Entry<Station>>, nodeId: string): Option<Found> {
    if |stations| == 0 then None
    else match Lookup(stations[0].val.nodes, nodeId)
      case Some(n) => Some(Found(stations[0].key, n))
      case None => FindNode(stations[1..], nodeId)
  }

  lemma {:induction false} FindNodeSpec(stations: seq<Entry<Station>>, nodeId: string)
    ensures FindNode(stations, nodeId).None? <==>
      forall i :: 0 <= i < |stations| ==> Lookup(stations[i].val.nodes, nodeId).None?
    ensures FindNode(stations, nodeId).Some? ==>
      exists i :: FirstWithNode(stations, nodeId, i)
        && FindNode(stations, nodeId).value == Found(stations[i].key, Lookup(stations[i].val.nodes, nodeId).value)
  {
    if |stations| > 0 && Lookup(stations[0].val.nodes, nodeId).None? {
      var rest := stations[1..];
      FindNodeSpec(rest, nodeId);
      assert forall i :: 0 <= i < |rest| ==> rest[i] == stations[i + 1];
      if FindNode(rest, nodeId).Some? {
        var i :| FirstWithNode(rest, nodeId, i)
          && FindNode(rest, nodeId).value == Found(rest[i].key, Lookup(rest[i].val.nodes, nodeId).value);
        assert FirstWithNode(stations, nodeId, i + 1);
      }
    } else if |stations| > 0 {
      assert FirstWithNode(stations, nodeId, 0);
    }
  }

  /** The first station with a given id is unique. */
  lemma FirstWithNodeUnique(stations: seq<Entry<Station>>, nodeId: string, i: int, i': int)
    requires FirstWithNode(stations, nodeId, i) && FirstWithNode(stations, nodeId, i')
    ensures i == i'
  {
  }

  /** findSwitchDefinition: the definition of `switchId` in the first station that has one. */
  function FindSwitchDefinition(stations: seq<Entry<Station>>, switchId: string): Option<SwitchDef> {
    if |stations| == 0 then None
    else match Lookup(stations[0].val.switches, switchId)
      case Some(d) => Some(d)
      case None => FindSwitchDefinition(stations[1..], switchId)
  }

  lemma {:induction false} FindSwitchDefinitionSpec(stations: seq<Entry<Station>>, switchId: string)
    ensures FindSwitchDefinition(stations, switchId).None? <==>
      forall i :: 0 <= i < |stations| ==> Lookup(stations[i].val.switches, switchId).None?
    ensures FindSwitchDefinition(stations, switchId).Some? ==>
      exists i :: FirstWithSwitch(stations, switchId, i)
        && FindSwitchDefinition(stations, switchId) == Lookup(stations[i].val.switches, switchId)
  {
    if |stations| > 0 && Lookup(stations[0].val.switches, switchId).None? {
      var rest := stations[1..];
      FindSwitchDefinitionSpec(rest, switchId);
      assert forall i :: 0 <= i < |rest| ==> rest[i] == stations[i + 1];
      if FindSwitchDefinition(rest, switchId).Some? {
        var i :| FirstWithSwitch(rest, switchId, i)
          && FindSwitchDefinition(rest, switchId) == Lookup(rest[i].val.switches, switchId);
        assert FirstWithSwitch(stations, switchId, i + 1);
      }
    } else if |stations| > 0 {
      assert FirstWithSwitch(stations, switchId, 0);
    }
  }

  /** The first station that defines `switchId` declares it with the truthy state `state`. */
  ghost predicate DeclaredState(stations: seq<Entry<Station>>, switchId: string, state: string) {
    exists i :: FirstWithSwitch(stations, switchId, i)
      && Lookup(stations[i].val.switches, switchId).value.state == state
      && state != ""
  }

  /** The switch data holds a truthy state for the switch. */
  predicate HasLiveState(data: SwitchData, switchId: string) {
    switchId in data && data[switchId] != ""
  }

  /**
   * getSwitchState: the live switch data's truthy `state` first, then the truthy `state` of the
   * first topology definition, and "closed" when neither has one. Which of the three it
   * returns in each case is stated by GetSwitchStatePriority.
   */
  function GetSwitchState(data: SwitchData, stations: seq<Entry<Station>>, switchId: string): (r: string)
    ensures r != ""
  {
    if HasLiveState(data, switchId) then data[switchId]
    else
      var def := FindSwitchDefinition(stations, switchId);
      if def.Some? && def.value.state != "" then def.value.state else Closed
  }

  /** The three levels of getSwitchState, each stated against the data it comes from. */
  lemma GetSwitchStatePriority(data: SwitchData, stations: seq<Entry<Station>>, switchId: string)
    ensures HasLiveState(data, switchId) ==> GetSwitchState(data, stations, switchId) == data[switchId]
    ensures !HasLiveState(data, switchId) ==>
      forall s :: DeclaredState(stations, switchId, s) ==> GetSwitchState(data, stations, switchId) == s
    ensures !HasLiveState(data, switchId) && GetSwitchState(data, stations, switchId) != Closed ==>
      DeclaredState(stations, switchId, GetSwitchState(data, stations, switchId))
    ensures !HasLiveState(data, switchId) && (forall s :: !DeclaredState(stations, switchId, s)) ==>
      GetSwitchState(data, stations, switchId) == Closed
  {
    var r := GetSwitchState(data, stations, switchId);
    if !HasLiveState(data, switchId) {
      FindSwitchDefinitionSpec(stations, switchId);
      var def := FindSwitchDefinition(stations, switchId);
      forall s | DeclaredState(stations, switchId, s)
        ensures def.Some? && def.value.state == s
      {
        var i :| FirstWithSwitch(stations, switchId, i)
          && Lookup(stations[i].val.switches, switchId).value.state == s && s != "";
        var i' :| FirstWithSwitch(stations, switchId, i')
          && FindSwitchDefinition(stations, switchId) == Lookup(stations[i'].val.switches, switchId);
        assert i == i';
      }
      if def.Some? && def.value.state != "" {
        var i' :| FirstWithSwitch(stations, switchId, i')
          && FindSwitchDefinition(stations, switchId) == Lookup(stations[i'].val.switches, switchId);
        assert DeclaredState(stations, switchId, r);
      }
    }
  }

  /** switchAllows: energy crosses a switch exactly when its current state is "closed". */
  function SwitchAllows(data: SwitchData, stations: seq<Entry<Station>>, switchId: string): bool {
    GetSwitchState(data, stations, switchId) == Closed
  }

  /** SwitchAllows in terms of the two sources, in priority order; with neither, it is closed. */
  lemma SwitchAllowsCases(data: SwitchData, stations: seq<Entry<Station>>, switchId: string)
    ensures HasLiveState(data, switchId) ==>
      (SwitchAllows(data, stations, switchId) <==> data[switchId] == Closed)
    ensures !HasLiveState(data, switchId) ==>
      (SwitchAllows(data, stations, switchId) <==>
        forall s :: DeclaredState(stations, switchId, s) ==> s == Closed)
  {
    GetSwitchStatePriority(data, stations, switchId);
  }

  /** getNodeConnects: a copy of the node's `connects` array; empty when it is not found or not an array. */
  function GetNodeConnects(stations: seq<Entry<Station>>, nodeId: string): seq<string> {
    var found := FindNode(stations, nodeId);
    if found.None? then []
    else match found.value.node.connects
      case Some(conn) => conn
      case None => []
  }

  lemma GetNodeConnectsSpec(stations: seq<Entry<Station>>, nodeId: string)
    ensures (forall i :: 0 <= i < |stations| ==> Lookup(stations[i].val.nodes, nodeId).None?) ==>
      GetNodeConnects(stations, nodeId) == []
    ensures forall i :: FirstWithNode(stations, nodeId, i) ==>
      GetNodeConnects(stations, nodeId) == Lookup(stations[i].val.nodes, nodeId).value.connects.GetOr([])
  {
    FindNodeSpec(stations, nodeId);
    forall i | FirstWithNode(stations, nodeId, i)
      ensures GetNodeConnects(stations, nodeId) == Lookup(stations[i].val.nodes, nodeId).value.connects.GetOr([])
    {
      var i' :| FirstWithNode(stations, nodeId, i')
        && FindNode(stations, nodeId).value == Found(stations[i'].key, Lookup(stations[i'].val.nodes, nodeId).value);
      FirstWithNodeUnique(stations, nodeId, i, i');
    }
  }

  /** The node's `connects` is an array that contains `swId`. */
  predicate ListsSwitch(n: NodeDef, swId: string) {
    n.connects.Some? && swId in n.connects.value
  }

  /** A node the endpoint repair accepts: one other than `cur` that lists `swId`. */
  predicate Candidate(e: Entry<NodeDef>, swId: string, cur: string) {
    ListsSwitch(e.val, swId) && e.key != cur
  }

  /** Within one station: the id of the first candidate node, if any. */
  function FirstCandidate(nodes: seq<Entry<NodeDef>>, swId: string, cur: string): Option<string> {
    if |nodes| == 0 then None
    else if Candidate(nodes[0], swId, cur) then Some(nodes[0].key)
    else FirstCandidate(nodes[1..], swId, cur)
  }

  lemma {:induction false} FirstCandidateSpec(nodes: seq<Entry<NodeDef>>, swId: string, cur: string)
    ensures FirstCandidate(nodes, swId, cur).None? <==> forall k :: 0 <= k < |nodes| ==> !Candidate(nodes[k], swId, cur)
    ensures FirstCandidate(nodes, swId, cur).Some? ==>
      exists k :: 0 <= k < |nodes| && nodes[k].key == FirstCandidate(nodes, swId, cur).value
        && Candidate(nodes[k], swId, cur) && forall j :: 0 <= j < k ==> !Candidate(nodes[j], swId, cur)
  {
    if |nodes| > 0 && !Candidate(nodes[0], swId, cur) {
      var rest := nodes[1..];
      FirstCandidateSpec(rest, swId, cur);
      assert forall k :: 0 <= k < |rest| ==> rest[k] == nodes[k + 1];
      if FirstCandidate(rest, swId, cur).Some? {
        var k :| 0 <= k < |rest| && rest[k].key == FirstCandidate(rest, swId, cur).value
          && Candidate(rest[k], swId, cur) && forall j :: 0 <= j < k ==> !Candidate(rest[j], swId, cur);
        assert nodes[k + 1] == rest[k];
      }
    }
  }

  /** What one station contributes to the scan: no candidate, or one whose id is falsy. */
  predicate NoEndpoint(o: Option<string>) {
    o.None? || o.value == ""
  }

  /**
   * The endpoint repair: stations in order, the first candidate of each; the scan stops at the
   * first station whose first candidate has a truthy id. "" stands for `null`.
   */
  function ScanForEndpoint(stations: seq<Entry<Station>>, swId: string, cur: string): string {
    if |stations| == 0 then ""
    else
      var c := FirstCandidate(stations[0].val.nodes, swId, cur);
      if !NoEndpoint(c) then c.value else ScanForEndpoint(stations[1..], swId, cur)
  }

  lemma {:induction false} ScanForEndpointSpec(stations: seq<Entry<Station>>, swId: string, cur: string)
    ensures ScanForEndpoint(stations, swId, cur) == "" <==>
      forall i :: 0 <= i < |stations| ==> NoEndpoint(FirstCandidate(stations[i].val.nodes, swId, cur))
    ensures ScanForEndpoint(stations, swId, cur) != "" ==>
      exists i :: 0 <= i < |stations| && FirstCandidate(stations[i].val.nodes, swId, cur) == Some(ScanForEndpoint(stations, swId, cur))
        && forall j :: 0 <= j < i ==> NoEndpoint(FirstCandidate(stations[j].val.nodes, swId, cur))
  {
    if |stations| > 0 && NoEndpoint(FirstCandidate(stations[0].val.nodes, swId, cur)) {
      var rest := stations[1..];
      ScanForEndpointSpec(rest, swId, cur);
      assert forall i :: 0 <= i < |rest| ==> rest[i] == stations[i + 1];
      if ScanForEndpoint(rest, swId, cur) != "" {
        var i :| 0 <= i < |rest| && FirstCandidate(rest[i].val.nodes, swId, cur) == Some(ScanForEndpoint(rest, swId, cur))
          && forall j :: 0 <= j < i ==> NoEndpoint(FirstCandidate(rest[j].val.nodes, swId, cur));
        assert stations[i + 1] == rest[i];
      }
    }
  }

  /** Some station holds a node with id `n` that lists switch `swId`. */
  ghost predicate ListedBySomeNode(stations: seq<Entry<Station>>, swId: string, n: string) {
    exists i, k :: 0 <= i < |stations| && 0 <= k < |stations[i].val.nodes|
      && stations[i].val.nodes[k].key == n && ListsSwitch(stations[i].val.nodes[k].val, swId)
  }

  /** Node `k` of station `i` is a candidate of the endpoint repair. */
  predicate CandidateAt(stations: seq<Entry<Station>>, swId: string, cur: string, i: int, k: int) {
    0 <= i < |stations| && 0 <= k < |stations[i].val.nodes| && Candidate(stations[i].val.nodes[k], swId, cur)
  }

  /** Every node id in the topology is truthy (non-empty). */
  predicate TruthyNodeIds(stations: seq<Entry<Station>>) {
    forall i, k :: 0 <= i < |stations| && 0 <= k < |stations[i].val.nodes| ==> stations[i].val.nodes[k].key != ""
  }

  /**
   * The far endpoint of switch `swId` (definition `d`) seen from node `cur`: `to` when `from`
   * names `cur`, `from` when `to` does, and otherwise the repair scan. "" means there is none.
   */
  function FarEnd(stations: seq<Entry<Station>>, d: SwitchDef, swId: string, cur: string): string {
    if d.from == cur then d.to
    else if d.to == cur then d.from
    else ScanForEndpoint(stations, swId, cur)
  }

  /**
   * The far-endpoint rule: `to` when `from` is the current node, else `from` when `to` is;
   * otherwise a repaired endpoint is a node, other than `cur`, that lists the switch, and (when
   * every node id is truthy) there is one exactly when some node other than `cur` lists it.
   */
  lemma FarEndSpec(stations: seq<Entry<Station>>, d: SwitchDef, swId: string, cur: string)
    ensures d.from == cur ==> FarEnd(stations, d, swId, cur) == d.to
    ensures d.from != cur && d.to == cur ==> FarEnd(stations, d, swId, cur) == d.from
    ensures d.from != cur && d.to != cur && FarEnd(stations, d, swId, cur) != "" ==>
      FarEnd(stations, d, swId, cur) != cur && ListedBySomeNode(stations, swId, FarEnd(stations, d, swId, cur))
    ensures d.from != cur && d.to != cur && TruthyNodeIds(stations) ==>
      (FarEnd(stations, d, swId, cur) == "" <==> forall i, k :: CandidateAt(stations, swId, cur, i, k) ==> false)
  {
    if d.from != cur && d.to != cur {
      var r := FarEnd(stations, d, swId, cur);
      ScanForEndpointSpec(stations, swId, cur);
      if r != "" {
        var i :| 0 <= i < |stations| && FirstCandidate(stations[i].val.nodes, swId, cur) == Some(r);
        FirstCandidateSpec(stations[i].val.nodes, swId, cur);
        var k :| 0 <= k < |stations[i].val.nodes| && stations[i].val.nodes[k].key == r
          && Candidate(stations[i].val.nodes[k], swId, cur);
        assert CandidateAt(stations, swId, cur, i, k);
      } else if TruthyNodeIds(stations) {
        forall i, k | CandidateAt(stations, swId, cur, i, k)
          ensures false
        {
          FirstCandidateSpec(stations[i].val.nodes, swId, cur);
        }
      }
    }
  }

  /** The far endpoint of switch `swId` from node `m`, or "" when it has no definition or none. */
  function FarFrom(stations: seq<Entry<Station>>, swId: string, m: string): string {
    match FindSwitchDefinition(stations, swId)
    case None => ""
    case Some(d) => FarEnd(stations, d, swId, m)
  }

  /** `n` is the truthy `node` of some feed. */
  ghost predicate IsFeedNode(t: Topology, n: string) {
    n != "" && t.feeds.Some? && exists i :: 0 <= i < |t.feeds.value| && t.feeds.value[i].val.node == n
  }

  /** One propagation step: from node `m` through the closed switch `s`, which `m` lists, to `n`. */
  ghost predicate Step(t: Topology, data: SwitchData, m: string, s: string, n: string) {
    s != "" && s in GetNodeConnects(t.stations, m) && SwitchAllows(data, t.stations, s)
    && n != "" && FarFrom(t.stations, s, m) == n
  }

  /**
   * Switch `s` was taken from node `m`: `m` lists it, it is closed, and its far endpoint from
   * `m`, if any, is among `nodes`.
   */
  ghost predicate TakenFrom(t: Topology, data: SwitchData, s: string, m: string, nodes: set<string>) {
    s != "" && s in GetNodeConnects(t.stations, m) && SwitchAllows(data, t.stations, s)
    && (FarFrom(t.stations, s, m) != "" ==> FarFrom(t.stations, s, m) in nodes)
  }

  /** Every id the traversal can enqueue: node keys, switch endpoints and feed nodes. */
  ghost function NodeUniverse(t: Topology): set<string> {
    (set i, k | 0 <= i < |t.stations| && 0 <= k < |t.stations[i].val.nodes| :: t.stations[i].val.nodes[k].key)
    + (set i, k | 0 <= i < |t.stations| && 0 <= k < |t.stations[i].val.switches| :: t.stations[i].val.switches[k].val.from)
    + (set i, k | 0 <= i < |t.stations| && 0 <= k < |t.stations[i].val.switches| :: t.stations[i].val.switches[k].val.to)
    + (if t.feeds.Some? then set i | 0 <= i < |t.feeds.value| :: t.feeds.value[i].val.node else {})
  }

  /** A far endpoint is always one of the ids in the topology. */
  lemma FarFromInUniverse(t: Topology, swId: string, m: string)
    ensures FarFrom(t.stations, swId, m) == "" || FarFrom(t.stations, swId, m) in NodeUniverse(t)
  {
    var r := FarFrom(t.stations, swId, m);
    var def := FindSwitchDefinition(t.stations, swId);
    FindSwitchDefinitionSpec(t.stations, swId);
    if def.Some? && r != "" {
      var d := def.value;
      FarEndSpec(t.stations, d, swId, m);
      var i :| FirstWithSwitch(t.stations, swId, i) && def == Lookup(t.stations[i].val.switches, swId);
      LookupSpec(t.stations[i].val.switches, swId);
      var k :| FirstWithKey(t.stations[i].val.switches, swId, k) && t.stations[i].val.switches[k].val == d;
      if d.from == m || d.to == m {
        assert r == d.from || r == d.to;
      } else {
        assert ListedBySomeNode(t.stations, swId, r);
        var i', k' :| 0 <= i' < |t.stations| && 0 <= k' < |t.stations[i'].val.nodes|
          && t.stations[i'].val.nodes[k'].key == r;
      }
    }
  }

  /**
   * A finite set holding every id the traversal can enqueue: each far endpoint and each feed
   * node. It bounds the number of nodes the traversal visits, so the traversal terminates.
   */
  lemma EnqueueableIds(t: Topology) returns (u: set<string>)
    ensures forall s, m :: FarFrom(t.stations, s, m) != "" ==> FarFrom(t.stations, s, m) in u
    ensures t.feeds.Some? ==> forall i :: 0 <= i < |t.feeds.value| ==> t.feeds.value[i].val.node in u
  {
    u := NodeUniverse(t);
    forall s, m
      ensures FarFrom(t.stations, s, m) != "" ==> FarFrom(t.stations, s, m) in u
    {
      FarFromInUniverse(t, s, m);
    }
  }

  /** The truthy far endpoints of the closed switches node `m` lists: the nodes one Step from `m`. */
  function StepTargets(t: Topology, data: SwitchData, m: string): set<string> {
    set s | s in GetNodeConnects(t.stations, m) && s != "" && SwitchAllows(data, t.stations, s)
              && FarFrom(t.stations, s, m) != "" :: FarFrom(t.stations, s, m)
  }

  /** The Step relation as a graph over the ids of the topology. */
  ghost function StepGraph(t: Topology, data: SwitchData): Graph {
    map m | m in NodeUniverse(t) :: StepTargets(t, data, m)
  }

  /** Node `n` can be reached from a feed node by a chain of Steps. */
  ghost predicate Fed(t: Topology, data: SwitchData, n: string) {
    exists f :: IsFeedNode(t, f) && Reachable(StepGraph(t, data), f, n)
  }

  /** A feed node is fed. */
  lemma FeedIsFed(t: Topology, data: SwitchData, n: string)
    requires IsFeedNode(t, n)
    ensures Fed(t, data, n)
  {
    ReachableRefl(StepGraph(t, data), n);
  }

  /** A node that lists a switch is a node of some station, so one of the ids of the topology. */
  lemma ListingNodeKnown(t: Topology, m: string, s: string)
    requires s in GetNodeConnects(t.stations, m)
    ensures m in NodeUniverse(t)
  {
    FindNodeSpec(t.stations, m);
    var i :| FirstWithNode(t.stations, m, i)
      && FindNode(t.stations, m).value == Found(t.stations[i].key, Lookup(t.stations[i].val.nodes, m).value);
    LookupSpec(t.stations[i].val.nodes, m);
    var k :| FirstWithKey(t.stations[i].val.nodes, m, k) && t.stations[i].val.nodes[k].val == Lookup(t.stations[i].val.nodes, m).value;
  }

  /** One Step from a fed node leads to a fed node. */
  lemma StepFromFed(t: Topology, data: SwitchData, m: string, s: string, n: string)
    requires Fed(t, data, m) && Step(t, data, m, s, n)
    ensures Fed(t, data, n)
  {
    ListingNodeKnown(t, m, s);
    var G := StepGraph(t, data);
    assert n in StepTargets(t, data, m);
    var f :| IsFeedNode(t, f) && Reachable(G, f, m);
    ReachableStep(G, f, m, n);
  }

  /**
   * What the traversal knows of what it has visited: each visited node is fed, and each
   * visited switch was taken from the visited node `via` names.
   */
  ghost predicate Sound(t: Topology, data: SwitchData, vn: set<string>, vs: set<string>, via: map<string, string>) {
    && (forall n {:trigger Fed(t, data, n)} :: n in vn ==> Fed(t, data, n))
    && (forall n {:trigger NodeJustified(t, vn, vs, via, n)} :: n in vn ==> NodeJustified(t, vn, vs, via, n))
    && (forall s {:trigger SwitchJustified(t, data, vn, via, s)} :: s in vs ==> SwitchJustified(t, data, vn, via, s))
  }

  /** Visited node `n` is a feed node, or the far end of a visited switch from the node it was taken from. */
  ghost predicate NodeJustified(t: Topology, vn: set<string>, vs: set<string>, via: map<string, string>, n: string) {
    IsFeedNode(t, n) || exists s :: ReachedThrough(t, vn, vs, via, s, n)
  }

  /** Node `n` is the far end of the visited switch `s` from the visited node `via[s]`. */
  ghost predicate ReachedThrough(t: Topology, vn: set<string>, vs: set<string>, via: map<string, string>, s: string, n: string) {
    s in vs && s in via && via[s] in vn && FarFrom(t.stations, s, via[s]) == n
  }

  /** Visited switch `s` was taken from the visited node `via[s]`. */
  ghost predicate SwitchJustified(t: Topology, data: SwitchData, vn: set<string>, via: map<string, string>, s: string) {
    s in via && via[s] in vn && TakenFrom(t, data, s, via[s], vn)
  }

  /** Node `m` lists the truthy, closed switch `s`. */
  ghost predicate ListsClosed(t: Topology, data: SwitchData, m: string, s: string) {
    s in GetNodeConnects(t.stations, m) && s != "" && SwitchAllows(data, t.stations, s)
  }

  /** Every closed switch listed by a node of `done` has been visited. */
  ghost predicate Complete(t: Topology, data: SwitchData, done: set<string>, vs: set<string>) {
    forall m, s {:trigger ListsClosed(t, data, m, s)} :: m in done && ListsClosed(t, data, m, s) ==> s in vs
  }

  /** Entry `j` of the expanded node's `connects` list, with the bookkeeping of the loop over it. */
  method ExpandStep(t: Topology, data: SwitchData, cur: string, connects: seq<string>, j: int,
                    ghost vn0: set<string>, ghost q0: seq<string>,
                    active: set<string>, vn: set<string>, vs: set<string>, q: seq<string>,
                    ghost done: set<string>, ghost via: map<string, string>,
                    ghost u: set<string>)
    returns (active': set<string>, vn': set<string>, vs': set<string>, q': seq<string>,
             ghost via': map<string, string>)
    requires connects == GetNodeConnects(t.stations, cur) && 0 <= j < |connects|
    requires FarFrom(t.stations, connects[j], cur) != "" ==> FarFrom(t.stations, connects[j], cur) in u
    requires active == vn + vs && vn0 <= vn <= u
    requires (vn == vn0 && q == q0) || |u - vn| < |u - vn0|
    requires Frontier(vn, done, cur, q)
    requires Sound(t, data, vn, vs, via)
    requires forall k :: 0 <= k < j && connects[k] != "" && SwitchAllows(data, t.stations, connects[k]) ==>
      connects[k] in vs
    ensures active' == vn' + vs' && vn0 <= vn' <= u && vs <= vs'
    ensures (vn' == vn0 && q' == q0) || |u - vn'| < |u - vn0|
    ensures Frontier(vn', done, cur, q')
    ensures Sound(t, data, vn', vs', via')
    ensures forall k :: 0 <= k < j + 1 && connects[k] != "" && SwitchAllows(data, t.stations, connects[k]) ==>
      connects[k] in vs'
  {
    active', vn', vs', q', via' := TakeSwitch(t, data, cur, connects[j], active, vn, vs, q, via);
    if vn' != vn {
      FewerUnvisited(u, vn, FarFrom(t.stations, connects[j], cur));
      FrontierPush(vn, done, cur, q, FarFrom(t.stations, connects[j], cur));
    }
    PrefixTaken(t, data, connects, j, vs, vs');
  }

  /** The closed switches among the first `j + 1` entries of `connects` are visited. */
  lemma PrefixTaken(t: Topology, data: SwitchData, connects: seq<string>, j: int, vs: set<string>, vs': set<string>)
    requires 0 <= j < |connects| && vs <= vs'
    requires forall k :: 0 <= k < j && connects[k] != "" && SwitchAllows(data, t.stations, connects[k]) ==>
      connects[k] in vs
    requires connects[j] != "" && SwitchAllows(data, t.stations, connects[j]) ==> connects[j] in vs'
    ensures forall k :: 0 <= k < j + 1 && connects[k] != "" && SwitchAllows(data, t.stations, connects[k]) ==>
      connects[k] in vs'
  {
    forall k | 0 <= k < j + 1 && connects[k] != "" && SwitchAllows(data, t.stations, connects[k])
      ensures connects[k] in vs'
    {
      if k < j {
        assert connects[k] in vs;
      }
    }
  }

  /** Switch `swId` is taken: it is truthy, not yet visited and closed. */
  predicate Takes(t: Topology, data: SwitchData, swId: string, vs: set<string>) {
    swId != "" && swId !in vs && SwitchAllows(data, t.stations, swId)
  }

  /**
   * One iteration of the loop over the current node's `connects`: a truthy, unvisited, closed
   * switch becomes active; when it has a definition, its far endpoint from `cur`, if truthy and
   * unvisited, becomes active and is enqueued.
   */
  method TakeSwitch(t: Topology, data: SwitchData, cur: string, swId: string,
                    active: set<string>, vn: set<string>, vs: set<string>, q: seq<string>,
                    ghost via: map<string, string>)
    returns (active': set<string>, vn': set<string>, vs': set<string>, q': seq<string>,
             ghost via': map<string, string>)
    requires cur in vn && swId in GetNodeConnects(t.stations, cur)
    requires Sound(t, data, vn, vs, via)
    ensures Sound(t, data, vn', vs', via')
    ensures active' == active + (vn' - vn) + (vs' - vs)
    ensures vs' == if Takes(t, data, swId, vs) then vs + {swId} else vs
    ensures if Takes(t, data, swId, vs) && FarFrom(t.stations, swId, cur) != "" && FarFrom(t.stations, swId, cur) !in vn
            then vn' == vn + {FarFrom(t.stations, swId, cur)} && q' == q + [FarFrom(t.stations, swId, cur)]
            else vn' == vn && q' == q
  {
    active', vn', vs', q', via' := active, vn, vs, q, via;
    if Takes(t, data, swId, vs) {
      vs' := vs + {swId};
      active' := active + {swId};
      via' := via[swId := cur];
      var swDef := FindSwitchDefinition(t.stations, swId);
      if swDef.Some? {
        var other := FarEnd(t.stations, swDef.value, swId, cur);
        if other != "" && other !in vn {
          vn' := vn + {other};
          active' := active' + {other};
          q' := q + [other];
          assert Step(t, data, cur, swId, other);
          StepFromFed(t, data, cur, swId, other);
          assert ReachedThrough(t, vn', vs', via', swId, other);
        }
      }
      assert TakenFrom(t, data, swId, cur, vn');
    }
    forall s | s in vs'
      ensures SwitchJustified(t, data, vn', via', s)
    {
      if s in vs {
        assert SwitchJustified(t, data, vn, via, s);
      }
    }
    forall n | n in vn
      ensures NodeJustified(t, vn', vs', via', n)
    {
      assert NodeJustified(t, vn, vs, via, n);
      if !IsFeedNode(t, n) {
        var s :| ReachedThrough(t, vn, vs, via, s, n);
        assert ReachedThrough(t, vn', vs', via', s, n);
      }
    }
  }

  /**
   * The first loop of the traversal: every truthy feed node is visited and queued once.
   */
  method SeedFeeds(t: Topology, ghost u: set<string>) returns (vn: set<string>, q: seq<string>)
    requires t.feeds.Some?
    requires forall i :: 0 <= i < |t.feeds.value| ==> t.feeds.value[i].val.node in u
    ensures forall n :: n in vn <==> n in q
    ensures Distinct(q)
    ensures forall n :: n in vn ==> IsFeedNode(t, n) && n in u
    ensures forall i :: 0 <= i < |t.feeds.value| && t.feeds.value[i].val.node != "" ==> t.feeds.value[i].val.node in vn
  {
    var feeds := t.feeds.value;
    vn, q := {}, [];
    for i := 0 to |feeds|
      invariant forall n :: n in vn <==> n in q
      invariant Distinct(q)
      invariant forall n :: n in vn ==> IsFeedNode(t, n) && n in u
      invariant forall j :: 0 <= j < i && feeds[j].val.node != "" ==> feeds[j].val.node in vn
    {
      var n := feeds[i].val.node;
      if n != "" && n !in vn {
        vn := vn + {n};
        q := q + [n];
      }
    }
  }

  /** When the queue is empty, the visited sets are closed under the closed switches and justified. */
  lemma TraversalClosed(t: Topology, data: SwitchData, nodes: set<string>, switches: set<string>,
                        via: map<string, string>)
    requires Sound(t, data, nodes, switches, via) && Complete(t, data, nodes, switches)
    ensures forall n :: n in nodes ==> Fed(t, data, n)
    ensures forall n :: n in nodes ==>
      IsFeedNode(t, n) || exists s :: s in switches && s in via && via[s] in nodes && FarFrom(t.stations, s, via[s]) == n
    ensures forall s :: s in switches ==> s in via && via[s] in nodes && TakenFrom(t, data, s, via[s], nodes)
    ensures forall m, s ::
      (m in nodes && s in GetNodeConnects(t.stations, m) && s != "" && SwitchAllows(data, t.stations, s))
      ==> s in switches
  {
    forall m, s | m in nodes && s in GetNodeConnects(t.stations, m) && s != "" && SwitchAllows(data, t.stations, s)
      ensures s in switches
    {
      assert ListsClosed(t, data, m, s);
    }
    forall s | s in switches
      ensures s in via && via[s] in nodes && TakenFrom(t, data, s, via[s], nodes)
    {
      assert SwitchJustified(t, data, nodes, via, s);
    }
    forall n | n in nodes && !IsFeedNode(t, n)
      ensures exists s :: s in switches && s in via && via[s] in nodes && FarFrom(t.stations, s, via[s]) == n
    {
      assert NodeJustified(t, nodes, switches, via, n);
      var s :| ReachedThrough(t, nodes, switches, via, s, n);
    }
  }

  /**
   * The loop over the `connects` of the dequeued node `cur`: it takes each of its switches in
   * turn. Afterwards every closed switch `cur` lists is visited, the queue holds exactly the
   * visited nodes that are not done, and the visited nodes only grew within `u`.
   */
  method ExpandNode(t: Topology, data: SwitchData, cur: string,
                    active: set<string>, vn: set<string>, vs: set<string>, q: seq<string>,
                    ghost done: set<string>, ghost via: map<string, string>,
                    ghost u: set<string>)
    returns (active': set<string>, vn': set<string>, vs': set<string>, q': seq<string>,
             ghost via': map<string, string>)
    requires forall s, m :: FarFrom(t.stations, s, m) != "" ==> FarFrom(t.stations, s, m) in u
    requires active == vn + vs && vn <= u
    requires Frontier(vn, done, cur, q)
    requires Sound(t, data, vn, vs, via) && Complete(t, data, done, vs)
    ensures active' == vn' + vs' && vn <= vn' <= u && vs <= vs'
    ensures (vn' == vn && q' == q) || |u - vn'| < |u - vn|
    ensures Frontier(vn', done, cur, q')
    ensures Sound(t, data, vn', vs', via') && Complete(t, data, done + {cur}, vs')
  {
    var connects := GetNodeConnects(t.stations, cur);
    active', vn', vs', q', via' := active, vn, vs, q, via;
    for j := 0 to |connects|
      invariant active' == vn' + vs' && vn <= vn' <= u && vs <= vs'
      invariant (vn' == vn && q' == q) || |u - vn'| < |u - vn|
      invariant Frontier(vn', done, cur, q')
      invariant Sound(t, data, vn', vs', via') && Complete(t, data, done, vs')
      invariant forall k :: 0 <= k < j && connects[k] != "" && SwitchAllows(data, t.stations, connects[k]) ==>
        connects[k] in vs'
    {
      active', vn', vs', q', via' :=
        ExpandStep(t, data, cur, connects, j, vn, q, active', vn', vs', q', done, via', u);
    }
    forall m, s | m in done + {cur} && ListsClosed(t, data, m, s)
      ensures s in vs'
    {
      if m == cur {
        var k :| 0 <= k < |connects| && connects[k] == s;
      }
    }
  }

  /**
   * The state of the traversal loop: the visited nodes are the done ones and the queued ones,
   * each queued once, within `u`; what is visited is sound, and every node done has had all
   * its closed switches taken.
   */
  ghost predicate Traversing(t: Topology, data: SwitchData, u: set<string>, active: set<string>,
                             vn: set<string>, vs: set<string>, q: seq<string>, done: set<string>,
                             via: map<string, string>) {
    && active == vn + vs
    && (forall n :: n in vn <==> n in done || n in q) && (forall n :: n in done ==> n !in q)
    && Distinct(q) && vn <= u
    && Sound(t, data, vn, vs, via) && Complete(t, data, done, vs)
  }

  /** The feed nodes the traversal starts from are fed. */
  lemma SeedsFed(t: Topology, data: SwitchData, vn: set<string>)
    requires forall n :: n in vn ==> IsFeedNode(t, n)
    ensures forall n :: n in vn ==> Fed(t, data, n)
  {
    forall n | n in vn
      ensures Fed(t, data, n)
    {
      FeedIsFed(t, data, n);
    }
  }

  /** One turn of the traversal loop: the head of the queue is taken off and expanded. */
  method Dequeue(t: Topology, data: SwitchData, ghost u: set<string>, active: set<string>,
                 vn: set<string>, vs: set<string>, q: seq<string>, ghost done: set<string>,
                 ghost via: map<string, string>)
    returns (active': set<string>, vn': set<string>, vs': set<string>, q': seq<string>,
             ghost done': set<string>, ghost via': map<string, string>)
    requires forall s, m :: FarFrom(t.stations, s, m) != "" ==> FarFrom(t.stations, s, m) in u
    requires |q| > 0 && Traversing(t, data, u, active, vn, vs, q, done, via)
    ensures Traversing(t, data, u, active', vn', vs', q', done', via')
    ensures vn <= vn'
    ensures |u - vn'| < |u - vn| || (vn' == vn && |q'| < |q|)
  {
    var cur := q[0];
    var rest := q[1..];
    assert forall n :: n in q <==> n == cur || n in rest;
    assert Frontier(vn, done, cur, rest);
    active', vn', vs', q', via' := ExpandNode(t, data, cur, active, vn, vs, rest, done, via, u);
    done' := done + {cur};
  }

  /**
   * The `while (q.length)` loop: nodes are dequeued and expanded until the queue is empty.
   * The visited nodes only grow, so every feed node seeded before stays visited.
   */
  method RunQueue(t: Topology, data: SwitchData, ghost u: set<string>, active: set<string>,
                  vn: set<string>, vs: set<string>, q: seq<string>, ghost done: set<string>,
                  ghost via: map<string, string>)
    returns (active': set<string>, vn': set<string>, vs': set<string>, ghost via': map<string, string>)
    requires forall s, m :: FarFrom(t.stations, s, m) != "" ==> FarFrom(t.stations, s, m) in u
    requires Traversing(t, data, u, active, vn, vs, q, done, via)
    ensures vn <= vn' && active' == vn' + vs'
    ensures Sound(t, data, vn', vs', via') && Complete(t, data, vn', vs')
  {
    active', vn', vs' := active, vn, vs;
    var q' := q;
    ghost var done' := done;
    via' := via;
    while |q'| > 0
      invariant Traversing(t, data, u, active', vn', vs', q', done', via')
      invariant vn <= vn'
      decreases |u - vn'|, |q'|
    {
      active', vn', vs', q', done', via' := Dequeue(t, data, u, active', vn', vs', q', done', via');
    }
    assert vn' == done';
  }

  /**
   * computeActiveSet: the ids energized from the feeds. It returns the empty set when the
   * topology is not loaded or has no feeds object. Otherwise `nodes` (the visited nodes) and
   * `switches` (the visited switches) make up the result; `via` names, for each visited switch,
   * the visited node it was taken from; and:
   *  - every feed with a truthy node is a visited node;
   *  - a visited node is a feed node or the far end of a visited switch from the node `via`
   *    names, so it is reachable from a feed node by a chain of steps;
   *  - a visited switch is closed and was taken from a visited node, whose far endpoint through
   *    it, if any, is visited (a switch without definition is active but leads nowhere);
   *  - every closed switch listed by a visited node is visited.
   */
  method ComputeActiveSet(loaded: bool, t: Topology, data: SwitchData)
    returns (active: set<string>, ghost nodes: set<string>, ghost switches: set<string>,
             ghost via: map<string, string>)
    ensures active == nodes + switches
    ensures !loaded || t.feeds.None? ==> active == {}
    ensures loaded && t.feeds.Some? ==>
      forall i :: 0 <= i < |t.feeds.value| && t.feeds.value[i].val.node != "" ==> t.feeds.value[i].val.node in nodes
    ensures forall n :: n in nodes ==> Fed(t, data, n)
    ensures forall n :: n in nodes ==>
      IsFeedNode(t, n) || exists s :: s in switches && s in via && via[s] in nodes && FarFrom(t.stations, s, via[s]) == n
    ensures forall s :: s in switches ==> s in via && via[s] in nodes && TakenFrom(t, data, s, via[s], nodes)
    ensures forall m, s ::
      (m in nodes && s in GetNodeConnects(t.stations, m) && s != "" && SwitchAllows(data, t.stations, s))
      ==> s in switches
  {
    active, nodes, switches, via := {}, {}, {}, map[];
    if !loaded || t.feeds.None? {
      return;
    }
    ghost var U := EnqueueableIds(t);
    var visitedNodes, q := SeedFeeds(t, U);
    var visitedSwitches: set<string> := {};
    active := visitedNodes;

    SeedsFed(t, data, visitedNodes);
    active, visitedNodes, visitedSwitches, via := RunQueue(t, data, U, active, visitedNodes, visitedSwitches, q, {}, map[]);
    nodes, switches := visitedNodes, visitedSwitches;
    TraversalClosed(t, data, nodes, switches, via);
  }
}
