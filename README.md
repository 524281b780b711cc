# Pathfinder-Visualizer core, modelled in Dafny

This project models the two algorithmic pieces of Pathfinder-Visualizer and proves what they guarantee.

- **The graph store** (`Graph` in src/graph.hpp). A node table (id → lat, lon) and an edge list (from, to, weight) become an id-keyed adjacency map. Every edge is appended to the neighbour lists of both endpoints.
- **The shortest-path engine** (`Pathfinder` in src/pathfinder.hpp). It runs Dijkstra's algorithm with a lazy min-priority queue, filling a distance map and a predecessor map. It then rebuilds the path from the end node back along the predecessors.

Both source files change state step by step, so both are modelled as classes with loops:

- `Graphs.Graph` holds the adjacency map in a field. Its constructor runs the node loop and then the edge loop in place.
- `Pathfinding.Pathfinder` holds the distance map `dist` and the predecessor map `prev`. A ghost map `order` records the order in which nodes were settled.
- `Dijkstra` is a `while` loop over the queue. Each round (`Step`) pops an entry and runs a `for` loop over the popped node's neighbour list (`RelaxAll`, one `Relax` per entry).
- `GetPath` is the loop that pushes ids, followed by a reversal.

Each method is proved against a specification function:

- `Build` gives the map the constructor fills.
- `Trace` and `PathOf` give the list `GetPath` pushes and the reversed result.
- `RelaxEntry` and `RelaxFrom` give the state after one entry and after the rest of a neighbour list, which `Relax` and `RelaxAll` compute.
- The loop invariants `Outer` and `Inner`, and the change relation `Lowered`, say what that state satisfies.

The properties of those functions are proved as lemmas:

- **Graph:** the keys, coordinates and list contents the constructor produces; closure of neighbour ids; symmetry; list lengths; weights kept exactly.
- **Pathfinder:** shortest distances; unreachable keys staying at infinity; the path being a walk of the right weight; the failure of `GetPath` on a missing predecessor.

Files:

- `results.dfy`: `Result` and `Option`.
- `graph.dfy`: module `Graphs`.
- `pathfinder.dfy`: module `Pathfinding`.

### Behaviour of the code worth noting

The model follows the code in each of these cases.

- **Weight validation.** The loader does not validate weights, and negative weights are stored as given. `Build` stores every weight as given (`IncidentMembers`). Non-negativity is a precondition of the pathfinder (`NonNegative`), which nothing in the source checks.
- **Missing predecessors.** A broken predecessor chain is not turned into a "no path" value. `m_Prev.at` throws; the model returns `Err(NoPredecessor(at))`.
- **Stale queue entries.** Stale entries are not skipped on pop. Popping one relaxes the node's list again and changes nothing (`RelaxAll`, `RelaxFromSettled`).
- **Missing neighbour ids.** `m_Dist[v]` on an id that is not a key inserts a distance of 0 for it, and `alt` is then compared against that 0. The model does this too (`RelaxEntry`); with non-negative weights the comparison always fails (`RelaxPhantom`). A graph built by `Graph` has no such ids (`BuildClosed`), but `Pathfinder` accepts any map.

## Model

| member | source | states |
|---|---|---|
| Graphs.Graph.constructor | src/graph.hpp:23-44 | the node loop then the edge loop, run in place, leave exactly `Build(ds)` in the map, and every neighbour id is a key |
| Graphs.Graph.GetGraph | src/graph.hpp:46 | returns the map built from the dataset, changing nothing; that map is closed under neighbour ids |
| Graphs.Load | src/graph.hpp:24-27 | a source that cannot be opened is an error and builds nothing; otherwise the graph holds the map built from the dataset |
| Graphs.PlaceNodesEffect | src/graph.hpp:31-34 | after the node loop an id is a key exactly when it was one or the table lists it; its lat/lon are those of the last row carrying it; neighbour lists are untouched, and unlisted ids are unchanged |
| Graphs.PlaceEdgeStep | src/graph.hpp:36-43 | one edge makes both endpoints keys, leaves every coordinate alone, and appends `(to, w)` at `from` and `(from, w)` at `to`, in that order |
| Graphs.PlaceEdgesEffect | src/graph.hpp:36-43 | after the edge loop an id is a key exactly when it was one or an edge names it; lat/lon never change; each list is the old list followed by the entries its edges give, in edge-list order |
| Graphs.IncidentMembers | src/graph.hpp:39-42 | an entry `(y, w)` is in `x`'s list exactly when some edge joins `x` and `y` with weight exactly `w` |
| Graphs.IncidentLength | src/graph.hpp:41-42 | `x`'s list has one entry per edge naming `x` as `from` plus one per edge naming it as `to`, so a self-loop counts twice |
| Graphs.IncidentSymmetric | src/graph.hpp:41-42 | `(y, w)` occurs in `x`'s list as often as `(x, w)` in `y`'s |
| Graphs.BuildShape | src/graph.hpp:23-44 | the keys are the table's ids and the edges' endpoints; each list is exactly the edge entries in order; table ids carry their last row's coordinates, endpoint-only ids (0, 0) |
| Graphs.BuildClosed | src/graph.hpp:41-42 | every neighbour id of the built map is a key |
| Graphs.BuildSymmetric | src/graph.hpp:36-43 | the built graph is undirected: `(y, w)` at `x` as often as `(x, w)` at `y` |
| Graphs.BuildNonNegative | src/graph.hpp:39-42 | weights are stored as given, so non-negative input weights give a graph with no negative weight |
| Pathfinding.Create | src/pathfinder.hpp:22-30 | a start that is not a key is an error and nothing runs; otherwise a fresh pathfinder for `g`, `s` and `e` whose final state satisfies `Valid`; non-negative weights are required only when the start is a key |
| Pathfinding.Pathfinder.constructor | src/pathfinder.hpp:22-30 | stores graph, start and end, runs Dijkstra, and leaves a state satisfying `Valid` |
| Pathfinding.Pathfinder.Initialise | src/pathfinder.hpp:45-53 | every key gets a distance, infinity except the start at 0; the queue holds exactly `(0, start)` |
| Pathfinding.Pathfinder.Dijkstra | src/pathfinder.hpp:44-68 | terminates; every reached key has the least walk weight from the start, every unreachable key stays at infinity, and the start has distance 0 and no predecessor; the distance map's keys are graph keys or neighbour ids, and exactly the graph keys when every neighbour id is a key |
| Pathfinding.Pathfinder.Step | src/pathfinder.hpp:55-67 | one round pops an entry `top` of least cost; afterwards `top`'s node is settled and relaxed along its whole list; distances only fell, each with `top`'s node as predecessor and a matching entry pushed, other predecessors are unchanged, new ids sit at 0, and the queue holds at least the remaining entries; the main-loop invariant holds, settled nodes are kept, and the queue shrinks when nothing new is settled |
| Pathfinding.Pathfinder.RelaxAll | src/pathfinder.hpp:58-66 | the new state is `RelaxFrom` of the old one, the list relaxed entry by entry in order; no distance rose, each changed distance has predecessor `u` and a matching queue entry, every other predecessor is unchanged, new ids are `u`'s neighbours at 0, entries are only pushed; for a node already relaxed (a stale entry) nothing changes |
| Pathfinding.Pathfinder.Relax | src/pathfinder.hpp:59-65 | the new state is `RelaxEntry` of the old one: an absent id is first inserted at distance 0; then, if `alt < m_Dist[v]` (for an absent id, `alt < 0`) the distance becomes `alt`, the predecessor becomes `u` and `(alt, v)` is pushed; otherwise nothing more changes |
| Pathfinding.Pathfinder.GetDistances | src/pathfinder.hpp:32 | the distance map satisfies `ShortestDistances`, with the start at 0 and ids outside the graph at 0; its keys are graph keys or neighbour ids, and exactly the graph keys when every neighbour id is a key |
| Pathfinding.Pathfinder.GetPath | src/pathfinder.hpp:33-41 | the result is the reversed trace: follow `m_Prev.at` from the end, stop at the empty id or after the start, throw at a missing predecessor |
| Pathfinding.DistancesAreShortest | src/pathfinder.hpp:55-67 | the final state gives shortest distances: a finite distance is the weight of a walk from the start and no walk is lighter; no walk reaches a node at infinity |
| Pathfinding.NoShorterWalk | src/pathfinder.hpp:58-64 | no walk from the start to a node weighs less than the node's distance |
| Pathfinding.ChainIsShortest | src/pathfinder.hpp:62-63 | for a reached key the predecessor chain is a walk from the start whose weight is the key's distance |
| Pathfinding.PrevTight | src/pathfinder.hpp:58-64 | after completion `u = m_Prev[v]` lists `v`, and `m_Dist[v] = m_Dist[u] + w` for the lightest such entry `w` |
| Pathfinding.MinWeight | src/pathfinder.hpp:59-60 | the lightest entry for `v` in a list is one of its entries and no entry for `v` is lighter |
| Pathfinding.TraceFollowsChain | src/pathfinder.hpp:35-38 | without an empty id among the keys, the pushed list for a reached key is its predecessor chain, end first |
| Pathfinding.ReversedAt | src/pathfinder.hpp:39 | `std::reverse` keeps the length and puts element `i` at `n - 1 - i` |
| Pathfinding.PathToReached | src/pathfinder.hpp:33-41 | for a reached end, `GetPath` returns the predecessor chain, a walk from the start to the end whose weight is the end's distance |
| Pathfinding.PathOutcome | src/pathfinder.hpp:33-41 | a path comes back exactly when the end is the start (then `[start]`) or a reached key; that path is a walk from the start to the end of weight equal to the end's distance; otherwise, and whenever the end is not the start and has no predecessor, `m_Prev.at` throws at the end |
| Pathfinding.MinExists | src/pathfinder.hpp:56 | a non-empty queue has a least-cost entry for `top()` to return |
| Pathfinding.ImprovingMeansSettling | src/pathfinder.hpp:58-61 | only the node being settled can still improve a neighbour's distance; a node settled earlier is fully relaxed |
| Pathfinding.RelaxPhantom | src/pathfinder.hpp:60-61 | reading `m_Dist[v]` for an absent id inserts 0, which `alt` is never below, and the loop invariant survives |
| Pathfinding.RelaxLower | src/pathfinder.hpp:61-64 | lowering `m_Dist[v]` to `alt`, setting `m_Prev[v] = u` and pushing `(alt, v)` keeps the loop invariant |
| Pathfinding.RelaxKeep | src/pathfinder.hpp:61 | an entry that does not improve leaves the state unchanged, and the invariant holds for one more entry |
| Pathfinding.RelaxEntryInner | src/pathfinder.hpp:59-65 | relaxing entry `j` of `u`'s list keeps the relaxation-loop invariant, now up to entry `j + 1` |
| Pathfinding.RelaxFromInner | src/pathfinder.hpp:59-66 | relaxing the rest of the list from entry `j` keeps the relaxation-loop invariant to the end of the list |
| Pathfinding.RelaxAllInner | src/pathfinder.hpp:56-66 | relaxing the popped node's whole list restores the main-loop invariant, with that node settled and relaxed |
| Pathfinding.LoweredNothing | src/pathfinder.hpp:58 | before any entry is relaxed the state has changed only as relaxing allows |
| Pathfinding.LoweredPhantom | src/pathfinder.hpp:60 | inserting 0 for an absent neighbour id changes the state only as relaxing allows |
| Pathfinding.LoweredLower | src/pathfinder.hpp:61-64 | lowering a distance to a non-negative `alt`, setting predecessor `u` and pushing `(alt, v)` changes the state only as relaxing allows |
| Pathfinding.RelaxEntryLowered | src/pathfinder.hpp:59-65 | with no negative weight, one more entry extends what relaxing the earlier ones did: no distance rises, changed ones have predecessor `u` and a queue entry |
| Pathfinding.RelaxEntryNonNegative | src/pathfinder.hpp:60-62 | with no negative weight, relaxing never makes a distance negative nor `u`'s distance infinite |
| Pathfinding.RelaxFromLowered | src/pathfinder.hpp:59-66 | relaxing the rest of the list changes the state only as relaxing allows |
| Pathfinding.RelaxFromSettled | src/pathfinder.hpp:59-66 | for a node already relaxed, relaxing its list again leaves the state exactly as it was |
| Pathfinding.PopSettle | src/pathfinder.hpp:56 | popping a least-cost entry of a new node and settling it keeps the invariant; the popped node has a finite distance and no distance is negative |
| Pathfinding.PopStale | src/pathfinder.hpp:56 | popping a stale least-cost entry keeps the invariant; the popped node has a finite distance and no distance is negative |
| Pathfinding.SettleShrinks | src/pathfinder.hpp:55 | settling more of the finite set of ids the distance map can hold shrinks the remainder, which bounds the main loop |

## Left out

- File opening and JSON parsing (src/graph.hpp:24-29) are I/O through an external library. The dataset arrives already parsed, and `Load` takes an `Option` whose `None` stands for a file that could not be opened. Malformed or missing JSON fields are not modelled.
- Doubles are modelled as mathematical reals, without rounding. `numeric_limits<double>::infinity()` is the `Inf` case of `Dist`, and infinity plus a weight is infinity.
- `std::priority_queue` is a multiset, and a pop takes any least-cost entry. Among entries of equal cost, the order in which `std::pair` breaks ties is not modelled, and every property holds for any such choice.
- `m_Graph[u]` at src/pathfinder.hpp:58 would insert a blank node for a missing `u`. The model reads through without inserting, because every popped id is a key (`QueueOk`).
- Pathfinding.Pathfinder.Dijkstra: requires non-negative weights (`NonNegative`), as do `Create` and the constructor. The source never checks this, so with negative weights its results are outside the model.
- Pathfinding.PathOutcome: assumes no key is the empty id and the end is not the empty id. On an empty id the source's loop stops early. `GetPath`'s own contract (`Trace`) covers those cases as well.
- Pathfinding.DistancesAreShortest: weighs a walk with the lightest of any parallel entries between consecutive nodes, which is the least weight any edge choice gives.
- The popped `cost` is unused by the source (only `m_Dist[u]` is read). The model keeps it only as a ghost bound.
- src/renderer.hpp, src/main.cpp and src/map_loader.py are not part of this model. They are the window and rendering loop, the start and end choice and screen projection, and the download script.
