# Energization of a rail power single-line diagram, in Dafny

This project models the cores of a browser tool that shows which sections of a railway
power network are live. The tool takes a topology of stations, nodes (track or busbar
sections, with ids like `w_...`), switches (`s_...`, each joining two nodes) and feeds (the
substation points where voltage enters). It colours every section that can be reached from
a feed through closed switches. Three source files each implement this idea their own way,
and each is modelled in its own module:

- `VasutLogika` (vasut_logika.js) builds a node graph and a switch-state table from an
  array-shaped topology. The graph has a symmetric neighbour list for every node, and each
  entry carries the id of its switch. The engine runs a multi-source breadth-first traversal
  from the feed nodes and crosses only switches whose state is exactly `"closed"`. The table
  changes only through a toggle and through applying a scenario. Either one re-runs the
  traversal.
  - The graph and the table are held in a `class Logika`, whose methods update them in place.
  - The traversal is a queue loop over a working copy of the graph, proved against the
    reachability predicate `Fed`.
- `NetworkLogic` (82_networkLogic_advanced.js) works on the id-keyed topology.
  - The lookups (`findNode`, `findSwitchDefinition`, `getSwitchState`, `switchAllows`,
    `getNodeConnects`) are functions, and a lemma after each states what it returns.
  - `computeActiveSet` is a method. It walks each node's `connects` list, takes every closed
    switch once, and repairs a far endpoint that the switch record does not name.
- `VoltageFlow` (82_voltageFlow.js) works on the same id-keyed topology.
  - It builds an undirected graph from the switches that are closed in the live switch data.
  - It then runs one breadth-first search per feed point, in the fixed order given by the
    values 1, 2, 3, with a visited set that all searches share. A node therefore keeps the
    value of the first feed point that reaches it.
  - The graph and the voltage map live in a `class Engine`.

Shared modules:
- `Wrappers` provides `Option`.
- `KeyedTopology` holds the id-keyed document. A JSON object is the sequence of its own
  properties in iteration order, so "the first station that has it" keeps its meaning.
- `Reach` holds paths, reachability and closed sets over an adjacency map, plus the queue
  bookkeeping that the breadth-first loops share.

The colour palette, the DOM and the asynchronous loading are not part of the model (see
"Left out"). The topology, the live switch data, the scenarios and the "topology loaded"
flag are inputs.

`computeActiveSet` takes each switch only once, from the first visited node that lists it.
It therefore promises less than full reachability:
- every visited node is a feed node, or the far end of a visited switch from the visited node that switch was taken from, and so can be reached from a feed node by a chain of single steps;
- every closed switch listed by a visited node is visited.

It does not promise that every node reachable by steps is visited. In a document whose
switch records do not name the nodes that list them, the far side seen from a second
lister is never followed. `ComputeActiveSet` states what the code does.

## Model

| member | source | states |
|---|---|---|
| `KeyedTopology.LookupSpec` | 82_networkLogic_advanced.js:53 | a property lookup finds the first entry with the key, and nothing exactly when no entry has it |
| `NetworkLogic.FindNodeSpec` | 82_networkLogic_advanced.js:50-56 | what `FindNode` returns: findNode is null exactly when no station has the node; otherwise it is the first station that has it, with that station's name and node |
| `NetworkLogic.FindSwitchDefinitionSpec` | 82_networkLogic_advanced.js:58-64 | what `FindSwitchDefinition` returns: findSwitchDefinition is null exactly when no station defines the switch; otherwise it is the first station's definition |
| `NetworkLogic.GetSwitchState` | 82_networkLogic_advanced.js:66-76 | the state returned is never empty (falsy) |
| `NetworkLogic.GetSwitchStatePriority` | 82_networkLogic_advanced.js:66-76 | the live switch data's truthy state wins; otherwise the first definition's truthy state; with neither, "closed" |
| `NetworkLogic.SwitchAllowsCases` | 82_networkLogic_advanced.js:78-80 | what `SwitchAllows` returns: a switch conducts exactly when the live state is "closed", or, with no live state, when the declared state (if any) is "closed" |
| `NetworkLogic.GetNodeConnectsSpec` | 82_networkLogic_advanced.js:82-87 | what `GetNodeConnects` returns: connects of a missing node is empty; otherwise it is the first matching node's array, or empty when that is not an array |
| `NetworkLogic.FirstCandidateSpec` | 82_networkLogic_advanced.js:151-154 | what `FirstCandidate` returns: within one station the repair picks the first node, other than the current one, whose connects contains the switch, or none |
| `NetworkLogic.ScanForEndpointSpec` | 82_networkLogic_advanced.js:150-157 | what `ScanForEndpoint` returns: the scan stops at the first station whose first candidate has a truthy id, and gives null when there is no such station |
| `NetworkLogic.FarEndSpec` | 82_networkLogic_advanced.js:141-158 | what `FarEnd` returns: the far end is `to` when `from` is the current node, else `from` when `to` is; a repaired end is another node that lists the switch, found exactly when one exists |
| `NetworkLogic.FarFromInUniverse` | 82_networkLogic_advanced.js:138-158 | a far endpoint is always an id that occurs in the topology, so the queue can only take finitely many nodes |
| `NetworkLogic.StepFromFed` | 82_networkLogic_advanced.js:160-164 | the far endpoint of a closed switch taken from a fed node is fed |
| `NetworkLogic.TakeSwitch` | 82_networkLogic_advanced.js:127-164 | the switch becomes visited and active exactly when it is truthy, unvisited and closed; in that case, and only then, its truthy unvisited far end from the current node is visited, made active and queued at the end; otherwise nothing changes; soundness is kept |
| `NetworkLogic.ExpandStep` | 82_networkLogic_advanced.js:126-164 | one entry of the current node's connects is taken, keeping the queue bookkeeping and soundness, and afterwards every closed switch among the entries so far is visited |
| `NetworkLogic.ExpandNode` | 82_networkLogic_advanced.js:125-165 | after the loop over the current node's connects, every closed switch it lists is visited and the queue holds exactly the visited nodes not yet done |
| `NetworkLogic.SeedFeeds` | 82_networkLogic_advanced.js:109-121 | every truthy feed node is visited and queued exactly once, and nothing else is |
| `NetworkLogic.Dequeue` | 82_networkLogic_advanced.js:123-125 | one turn of the queue loop keeps the traversal state, and the visited nodes grow or the queue shrinks |
| `NetworkLogic.RunQueue` | 82_networkLogic_advanced.js:123-166 | the queue loop ends with the visited nodes grown, sound, and with every closed switch listed by a visited node visited |
| `NetworkLogic.ComputeActiveSet` | 82_networkLogic_advanced.js:92-169 | the result is empty when the topology is not loaded or has no feeds; otherwise every truthy feed node is in it; each visited node is a feed node or the far end of a visited switch from the visited node it was taken from, and so reachable from a feed by steps; each visited switch is closed and was taken from a visited node; every closed switch listed by a visited node is in it |
| `VasutLogika.FirstOccurrencesSpec` | vasut_logika.js:75 | the key order of a table assigned keys one after another lists every key once and nothing else |
| `VasutLogika.SwitchIndexKeys` | vasut_logika.js:73-78 | the switch index and the switch table hold exactly the switch ids of the records and agree on the states |
| `VasutLogika.SwitchIndexLast` | vasut_logika.js:75 | the last record with an id is the one the index keeps |
| `VasutLogika.DeclaredStatesSpec` | vasut_logika.js:73-78 | after the build every switch id of the topology is a key of the table, no other key is, and each holds the declared state of its last record |
| `VasutLogika.AdjMember` | vasut_logika.js:97-106 | a node has the neighbour entry (b, s) exactly when some indexed switch s with both ends known joins it to b |
| `VasutLogika.InitialGraphSymmetric` | vasut_logika.js:97-106 | adjacency is symmetric and stays in the graph: an entry (b, s) of a names a node b that has the entry (a, s) |
| `VasutLogika.InitialGraphHasEdge` | vasut_logika.js:97-106 | every indexed switch whose two ends are nodes gives `from` the entry (to, id) and `to` the entry (from, id) |
| `VasutLogika.InitialGraphFlags` | vasut_logika.js:86-92 | a node is a feed exactly when some feed record names it, and no node starts energized |
| `VasutLogika.BuiltWellFormed` | vasut_logika.js:97-106 | the built graph's key order lists every node once, and every neighbour entry names a node |
| `VasutLogika.IndexSwitches` | vasut_logika.js:73-78 | step 1 of the build produces the switch index, its key order and the switch table of all records |
| `VasutLogika.IndexStation` | vasut_logika.js:74-77 | one station's switch records extend the index, its key order and the switch table as if they had been listed with all records before |
| `VasutLogika.CreateStationNodes` | vasut_logika.js:82-93 | one station's nodes are each created once, a feed exactly when a feed names them, not energized, without neighbours |
| `VasutLogika.CreateNode` | vasut_logika.js:83-92 | one node id becomes a node, a feed exactly when a feed names it, not energized, without neighbours; the key order gains it on its first occurrence |
| `VasutLogika.CreateNodes` | vasut_logika.js:81-94 | step 2 creates one node per node id: a feed exactly when a feed names it, not energized, without neighbours |
| `VasutLogika.AddEdges` | vasut_logika.js:97-106 | step 3 turns the nodes into the built graph |
| `VasutLogika.AddEdge` | vasut_logika.js:98-105 | one switch appends (to, id) to `from` and (from, id) to `to` when both are nodes, and changes nothing else |
| `VasutLogika.Build` | vasut_logika.js:68-107 | the build yields exactly the built graph, its key order and the declared switch table |
| `VasutLogika.FeedOrderSpec` | vasut_logika.js:136-143 | the feed nodes queued by the reset are each listed once, and they are exactly the feed nodes |
| `VasutLogika.ResetFlags` | vasut_logika.js:136-143 | after the reset exactly the feed nodes are energized and queued, in key order |
| `VasutLogika.FedIgnoresFlags` | vasut_logika.js:136-143 | which nodes are fed depends only on the nodes, feed flags, neighbour lists and switch table, not on the old flags |
| `VasutLogika.FedStep` | vasut_logika.js:155-166 | completeness: the far node of a closed switch of a fed node is fed |
| `VasutLogika.FedHasFedNeighbour` | vasut_logika.js:155-166 | soundness: a fed node that is not a feed has a fed neighbour that lists it through a closed switch |
| `VasutLogika.VisitNeighbour` | vasut_logika.js:152-166 | a neighbour entry with a closed switch and an unenergized far node sets that node's flag and appends it to the queue and to the result; any other entry leaves the flags, the queue and the result unchanged |
| `VasutLogika.ExpandNode` | vasut_logika.js:148-167 | after the dequeued node's neighbour list, every closed switch out of it leads to an energized node |
| `VasutLogika.TakeNext` | vasut_logika.js:147-149 | one turn of the queue loop keeps the traversal state and brings the loop closer to its end |
| `VasutLogika.Traverse` | vasut_logika.js:145-168 | when the queue is empty the energized nodes are all fed, include the feeds, and are closed under the closed switches |
| `VasutLogika.Saturated` | vasut_logika.js:145-168 | a set of nodes that contains the feeds, is fed and is closed under closed switches is exactly the set of fed nodes |
| `VasutLogika.Energize` | vasut_logika.js:130-171 | after a pass a node is energized exactly when a feed reaches it through switches that are exactly "closed"; the result lists the energized nodes once each, feeds first |
| `VasutLogika.EnergizeIdempotent` | vasut_logika.js:136-143 | a second pass over the result of a first, with the table unchanged, gives the same graph |
| `VasutLogika.Flip` | vasut_logika.js:180-183 | a toggle keeps the keys and every other switch; "closed" becomes "open" and any other state, such as "fault", becomes "closed" |
| `VasutLogika.FlipTwice` | vasut_logika.js:182-183 | toggling a "closed" or "open" switch twice restores it |
| `VasutLogika.ApplyForgets` | vasut_logika.js:200-209 | `Apply`, the scenario table: a scenario keeps the key set, and its result does not depend on the states before |
| `VasutLogika.ApplyIdempotent` | vasut_logika.js:200-209 | applying the same scenario again changes nothing |
| `VasutLogika.ApplyEmpty` | vasut_logika.js:200-202 | with an empty scenario every switch ends "closed" |
| `VasutLogika.ApplySteps` | vasut_logika.js:198-209 | closing every switch and then laying the scenario over the table's own keys gives the scenario table |
| `VasutLogika.CloseAll` | vasut_logika.js:200-202 | every switch of the table is set to "closed", and the keys are kept |
| `VasutLogika.Overlay` | vasut_logika.js:205-209 | each scenario entry whose id is already a switch overwrites its state; other ids are ignored |
| `VasutLogika.Logika.constructor` | vasut_logika.js:46-53 | the module state after loading holds the built graph, its key order, the declared switch table and the scenarios |
| `VasutLogika.Logika.Propagate` | vasut_logika.js:115-124 | the energization pass on the module state: only the flags change, and a node is energized exactly when it is fed |
| `VasutLogika.Logika.Toggle` | vasut_logika.js:179-188 | an id that is not a switch changes nothing; otherwise the table is the toggled one and the energization is recomputed |
| `VasutLogika.Logika.ApplyScenario` | vasut_logika.js:193-213 | an unknown scenario changes nothing; otherwise the table is the scenario table and the energization is recomputed |
| `VoltageFlow.LinkSpec` | 82_voltageFlow.js:18-21 | adding a switch adds exactly the edge from-to in both directions |
| `VoltageFlow.LinkAllSpec` | 82_voltageFlow.js:13-24 | after one station's switches the edges are those before plus those of its conducting switches |
| `VoltageFlow.StationLinksSpec` | 82_voltageFlow.js:8-26 | after the build the graph has an edge a-b exactly when some switch that is "closed" in the live data, with truthy ends, joins them; no key is left without an edge |
| `VoltageFlow.StationLinksSymmetric` | 82_voltageFlow.js:20-21 | the graph is undirected |
| `VoltageFlow.GetFeedNodes` | 82_voltageFlow.js:29-36 | two or three feed points, numbered 1, 2, 3 in order, each with a truthy node |
| `VoltageFlow.GetFeedNodesSpec` | 82_voltageFlow.js:31-35 | the first two take the named feed's node or their default; the third is present exactly when the JBH feed names a node |
| `VoltageFlow.Expand` | 82_voltageFlow.js:57-66 | the visited set grows by exactly the dequeued node's neighbours; exactly the ones not visited before get the search's value and are appended to the queue; every other map entry and the queue before them are kept |
| `VoltageFlow.VisitAll` | 82_voltageFlow.js:60-66 | the loop over the neighbour set adds exactly the unvisited neighbours, in any iteration order, and keeps the search state |
| `VoltageFlow.VisitNeighbor` | 82_voltageFlow.js:61-65 | an unvisited neighbour is visited, given the value and queued; a visited one changes nothing |
| `VoltageFlow.SkipFeed` | 82_voltageFlow.js:45 | a feed point whose node is already visited adds nothing |
| `VoltageFlow.FeedStep` | 82_voltageFlow.js:44-48 | the search from a feed point keeps the shared state: map keys are the visited nodes, closed under the graph, each holding the value of the first feed point that reaches it |
| `VoltageFlow.SimulatedKeys` | 82_voltageFlow.js:38-68 | after all feed points the voltage map holds exactly the nodes reachable from one of them |
| `VoltageFlow.SimulatedRange` | 82_voltageFlow.js:31-35 | every voltage value is one of the feed values 1, 2, 3 |
| `VoltageFlow.Engine.constructor` | 82_voltageFlow.js:4-5 | the engine starts with an empty graph and an empty voltage map |
| `VoltageFlow.Engine.BuildGraph` | 82_voltageFlow.js:8-26 | the graph is cleared and rebuilt from the closed switches; the voltage map is untouched |
| `VoltageFlow.Engine.AddStation` | 82_voltageFlow.js:13-24 | one station's conducting switches are added in order |
| `VoltageFlow.Engine.AddEdge` | 82_voltageFlow.js:18-21 | each end is added to the other's neighbour set, creating a missing set |
| `VoltageFlow.Engine.Bfs` | 82_voltageFlow.js:51-68 | the start and every node newly visited get the value, all of them reachable from the start; every neighbour of a reached node ends visited; earlier values are kept |
| `VoltageFlow.Engine.SimulateVoltageFlow` | 82_voltageFlow.js:39-49 | the voltage map is cleared, then holds exactly the nodes reachable from a feed point, each with the value of the first feed point that reaches it, all in 1..3 |
| `VoltageFlow.Engine.RefreshVoltage` | 82_voltageFlow.js:105-107 | rebuilding and simulating gives the closed-switch graph and its first-feed-wins voltage map |

## Left out

- Asynchronous loading (`betolt_json`, `init`, `loadTopology`, the `fetch` calls) is not modelled. The loaded documents are inputs. The first refresh that `init` runs is a call of `Logika.Propagate`.
- Everything about colours is not modelled: `Szinek`, `aktiv_szin`, `wireColors`, `szinTabla`, `resolveNodeColor`, `applyColors`, `updateColors`, `setStrokeImportant`. It is presentation and decides no energization. Its one effect on the vasut build, a throw when `szinek` is missing, is listed with the other throws below.
- DOM, timers and event wiring are not modelled: the `switchToggled`, `DOMContentLoaded` and `onSwitchStateChange` hooks, the `setTimeout`/`setInterval` delays, and the graphics callbacks in `futtat_es_frissit`. The model returns the traversal result and exposes the switch table instead.
- grafika_kezelo.js, 82_switchControl.js, 82_updateSwitches_interactive.js and 82_networkLogic.js are not part of this model. They are DOM rendering, geometry and persistence. For a switch click grafika_kezelo.js calls `kapcsolo_kezeles` (grafika_kezelo.js:55) and has no toggle of its own; its scenario selector calls `alkalmaz_szcenario` (grafika_kezelo.js:144), which is `Logika.ApplyScenario` here. The toggle in 82_updateSwitches_interactive.js is `Flip` with its unknown-id guard. The one in 82_switchControl.js flips without that guard and throws on an unknown id.
- `console` logging is not modelled.
- JS object key order is modelled as insertion order. JS lists integer-like keys (such as "12") first, in numeric order. That would change the key order of the vasut graph and switch index, and hence the order of the result list and of each node's neighbour entries, but not which nodes are energized.
- `VasutLogika.Energize`: of the result list's order it states only that the feed nodes come first, in key order. The breadth-first order of the rest is not stated.
- The order in which a JS `Set` iterates a node's neighbours in 82_voltageFlow.js is not modelled. `VoltageFlow.Expand` takes them in any order. Keys and values of the voltage map are proved for every order.
- A string field that is absent or falsy is the empty string. In vasut_logika.js an absent `from`/`to`/`node` is `undefined` in the source. That differs only if some node id is itself the empty string, or is the string "undefined", which an absent endpoint would match as an object key.
- `hasOwnProperty` and `obj[key]` are map membership and lookup. Inherited prototype keys (such as "constructor") are not modelled.
- A scenario that is present but falsy (`null`, `0`, `""`) is ignored by `alkalmaz_szcenario`. Each scenario here is an object, so this case is not modelled.
- A scenario entry is assigned whatever value it holds. Here the values are strings.
- The vasut build is modelled as running once on empty tables. The source never clears `Logikai_Adatmodell_Graf` or `Kapcsolo_Allapotok`, so a second build would merge into the first.
- A missing `stations`, `feeds`, `nodes` or `switches` array throws in vasut_logika.js. The array-shaped topology here always has them.
- A topology without a `szinek` table throws in vasut_logika.js:84 at the first node, after step 1 has already filled the switch table. The model's build always completes, so it does not capture that partly built state.
- A node record's `id` field is assumed to equal the key it is stored under, so the result lists ids rather than node objects.
- Duplicate keys in one JSON object are not modelled. Each object is a sequence of distinct properties as parsed.
- In 82_voltageFlow.js, a missing `window.switchData` throws in `buildGraph`. Here the live switch data is always a map, possibly empty.
- `bfs` mutates the caller's `visited` Set. `VoltageFlow.Engine.Bfs` takes it by value and returns the new set, which the caller stores.
- A node entry whose value is falsy (`null`) in 82_networkLogic_advanced.js is skipped by `findNode`, and it would make the repair scan throw. Every node entry here is an object, so this case is not modelled.
- A switch entry whose value is falsy (`null`) in 82_networkLogic_advanced.js is skipped by `findSwitchDefinition`, so a later station's definition of the same id wins. Every switch entry here is an object, so this case is not modelled.
