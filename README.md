# Sonya transfer graph — a Dafny model

Sonya is a public-transport journey planner. Its search works on a *transfer graph*:

- there is one vertex per line ("path", one direction of a route);
- vertices are ordered by ascending line id;
- an edge from line A to line B records one place where a passenger can walk from a stop of A to a stop of B.

This project models four pieces:

- **The graph structure** (`Graph`): its adjacency lists, edge counter and diagnostics.
- **The graph constructor** (`GraphConstructor`):
  - it sorts the lines and builds a stop-to-lines index;
  - for each line it runs the transfer analysis (`analyzePath`), which keeps at most a first and a last crossing per target line;
  - it emits one edge per surviving crossing;
  - the registry initialiser builds a graph per transport profile and isolates failures per profile.
- **The search engine's post-filter** (`BFS.clearUnrealResults`), which drops journeys that transfer back into the departure zone, and the task that transforms one portion of search decisions.
- **The admin UI's stop list** (`busstop.grid.ts`): moving stops up and down, and deleting them.

Modules follow the program's structure:

| file | module | models |
|---|---|---|
| `entities.dfy` | `Entities` | bus stops, lines, the `"mock"` placeholder name |
| `lists.dfy` | `Lists` | `indexOf` on lists and arrays |
| `graph.dfy` | `PathGraph` | `Graph.java` |
| `path_order.dfy` | `PathOrder` | the id sort before the graph is built |
| `stop_index.dfy` | `StopIndex` | the stop-to-lines index `bsPaths` |
| `transfer_analysis.dfy` | `TransferAnalysis` | `analyzePath`, `accessZoneBusstops`, `isClosest` |
| `graph_constructor.dfy` | `GraphConstructor` | `buildGraph`'s edge emission, `buildGraph`, `init` |
| `bfs.dfy` | `Bfs` | `clearUnrealResults`, `TransformDecisionsTask` |
| `admin_grid.dfy` | `AdminGrid` | `busstop.grid.ts` |

External collaborators are parameters:

- the distance calculator is a function `Geometry` on coordinates, used only through `<`;
- the radius search is a function from a stop to a list of stops;
- the transport data service is a pair of functions from a profile id to an optional list (None when the query throws);
- the engine's abstract `transformDecisions` is a function-valued field.

Nulls in the transfer arrays are `Option` values, and a `BusStop[4]` record is the datatype `Transfer`. The Java `HashMap`s are Dafny maps. Their key order is unspecified, so the map loops pick keys with `:|`, and every result is stated so that it holds for any order.

The transfer analysis has a specification function per loop level. `Crossing` is one crossing into one line. `ScanPaths`, `ScanZone` and `ScanWay` fold the crossings in the source's order: way index, then access-zone stop, then the index entry's lines. `ClearAll` applies the final pass to every record, and `Analysis` is the whole of `analyzePath`. Each analysis method is proved equal to its function. `GraphConstructor.TransferEdges` turns the record that `Analysis` keeps for a target line into the edges the builder emits.

Notes on the code as written:

- The access-zone cache `nearBsCache` is created once per `buildGraph` call and shared by all lines of the profile, not created per line.
- `buildGraph` calls `addEdge` with four arguments, but `Graph.addEdge` takes six. The model gives the edge record optional second-transfer slots, and the constructor always leaves them absent.
- Equality of lines and stops is the entity's value. The `Path` and `BusStop` entity classes (and their `equals`) are not part of this model.

## Model

| member | source | states |
|---|---|---|
| PathGraph.Graph.constructor | sonya-transport/src/main/java/ss/sonya/transport/search/Graph.java:74-81 | a new graph has one empty adjacency list per line, zero edges, the given line order and no metro graph |
| PathGraph.Graph.AddEdge | sonya-transport/src/main/java/ss/sonya/transport/search/Graph.java:91-94 | appends exactly one record `(w, vb1, wb1, vb2, wb2)` to the end of `adj[v]`, leaves every other list unchanged, increments `edges` by one and keeps `edges` equal to the sum of the list lengths |
| PathGraph.SumDegreesAppend | sonya-transport/src/main/java/ss/sonya/transport/search/Graph.java:91-94 | appending one record to one list raises the sum of the degrees by exactly one |
| PathGraph.SumDegreesEmpty | sonya-transport/src/main/java/ss/sonya/transport/search/Graph.java:78-80 | a graph whose lists are all empty has degree sum zero |
| PathGraph.Graph.Vertices | sonya-transport/src/main/java/ss/sonya/transport/search/Graph.java:99-101 | the vertex count is the number of lines |
| PathGraph.Graph.Edges | sonya-transport/src/main/java/ss/sonya/transport/search/Graph.java:106-108 | the edge counter equals the sum of all vertex degrees |
| PathGraph.Graph.IndexOfPath | sonya-transport/src/main/java/ss/sonya/transport/search/Graph.java:122-124 | -1 exactly for a line not in the graph; otherwise the first position holding that line |
| PathGraph.Graph.IndexOfGetPath | sonya-transport/src/main/java/ss/sonya/transport/search/Graph.java:122-132 | when no line repeats, `indexOfPath(getPath(i)) == i` for every vertex |
| PathGraph.Graph.NumbersOfSelfLoops | sonya-transport/src/main/java/ss/sonya/transport/search/Graph.java:144-154 | the count is exactly the number of records in `adj[v]` whose target is `v`, summed over `v`, and it is at most `edges()` |
| PathGraph.LoopsAtBound | sonya-transport/src/main/java/ss/sonya/transport/search/Graph.java:147-151 | the self loops of one vertex are at most its degree |
| PathGraph.SelfLoopsBound | sonya-transport/src/main/java/ss/sonya/transport/search/Graph.java:144-154 | all self loops together are at most the degree sum |
| PathGraph.Graph.AvgDegree | sonya-transport/src/main/java/ss/sonya/transport/search/Graph.java:167-169 | 0 for a graph without vertices; otherwise the integer quotient of `2*edges` by the vertex count, pinned between `r*n <= 2*edges < (r+1)*n`; 0 for a graph without edges |
| PathGraph.Graph.MaxDegree | sonya-transport/src/main/java/ss/sonya/transport/search/Graph.java:174-182 | at least every vertex degree, equal to some vertex's degree, and 0 for a graph without vertices |
| PathGraph.Graph.SetMetroGraph | sonya-transport/src/main/java/ss/sonya/transport/search/Graph.java:187-196 | the metro graph read back afterwards is the one set; the adjacency lists and `edges` are untouched |
| Lists.IndexOf | sonya-transport/src/main/java/ss/sonya/transport/search/GraphConstructor.java:131-153 | -1 exactly when the element is absent; otherwise the element sits there and nowhere before |
| Lists.IndexOfDistinct | sonya-transport/src/main/java/ss/sonya/transport/search/GraphConstructor.java:131 | in a list without repetitions, the position of the element at `i` is `i` |
| Lists.IndexOfInjective | sonya-transport/src/main/java/ss/sonya/transport/search/GraphConstructor.java:150-153 | two member elements with the same position are equal |
| PathOrder.SortById | sonya-transport/src/main/java/ss/sonya/transport/search/GraphConstructor.java:102-105 | the sorted list is a permutation of the loaded lines (same length, same multiset) with ids in non-decreasing order |
| PathOrder.Insert | sonya-transport/src/main/java/ss/sonya/transport/search/GraphConstructor.java:104-105 | inserting a line adds exactly that line to the multiset |
| PathOrder.InsertMembers | sonya-transport/src/main/java/ss/sonya/transport/search/GraphConstructor.java:104-105 | after insertion the members are the inserted line and the old members |
| PathOrder.InsertSorted | sonya-transport/src/main/java/ss/sonya/transport/search/GraphConstructor.java:104-105 | insertion into an id-ordered list keeps it id-ordered |
| PathOrder.InsertStrict | sonya-transport/src/main/java/ss/sonya/transport/search/GraphConstructor.java:104-105 | insertion of a new id into a strictly ascending list keeps it strictly ascending |
| PathOrder.SortByIdStrict | sonya-transport/src/main/java/ss/sonya/transport/search/GraphConstructor.java:102-105 | lines with pairwise different ids come out in strictly ascending id order |
| PathOrder.AscendingIsDistinct | sonya-transport/src/main/java/ss/sonya/transport/search/GraphConstructor.java:102-131 | a strictly ascending line list has no repetitions, so each line's vertex is its own position |
| StopIndex.BuildStopIndex | sonya-transport/src/main/java/ss/sonya/transport/search/GraphConstructor.java:111-122 | a stop is a key exactly when some line passes through it; its entry lists the lines in list order, once per occurrence of the stop in the line's way; so the map is the closed-form index `Index` over all stops of all lines |
| StopIndex.IndexIsThrough | sonya-transport/src/main/java/ss/sonya/transport/search/GraphConstructor.java:111-122 | a map whose keys are the stops with a non-empty entry, each holding its entry, is exactly `Index` |
| StopIndex.ThroughMembers | sonya-transport/src/main/java/ss/sonya/transport/search/GraphConstructor.java:111-122 | a line is in a stop's entry exactly when it is one of the lines and its way contains the stop |
| StopIndex.OccurrencesMember | sonya-transport/src/main/java/ss/sonya/transport/search/GraphConstructor.java:113-120 | a stop occurs a positive number of times in a way exactly when it is in the way |
| StopIndex.IndexSoundOfThrough | sonya-transport/src/main/java/ss/sonya/transport/search/GraphConstructor.java:111-122 | the built index lists only lines that pass through the stop |
| StopIndex.RepeatMembers | sonya-transport/src/main/java/ss/sonya/transport/search/GraphConstructor.java:115 | n copies of a line: length n, and its members are exactly that line when n > 0 |
| StopIndex.AddLine | sonya-transport/src/main/java/ss/sonya/transport/search/GraphConstructor.java:113-121 | after the loop over one line's way, every stop's entry has grown by that line once per occurrence of the stop in the way, and no entry is empty |
| StopIndex.LookupAddTo | sonya-transport/src/main/java/ss/sonya/transport/search/GraphConstructor.java:114-120 | one step of the loop extends the entry of its stop by the line and leaves every other entry alone |
| StopIndex.LookupAddAll | sonya-transport/src/main/java/ss/sonya/transport/search/GraphConstructor.java:113-121 | adding a line along a way grows each entry by one copy of the line per occurrence of its stop |
| StopIndex.AddAllNonEmpty | sonya-transport/src/main/java/ss/sonya/transport/search/GraphConstructor.java:114-120 | the loop never leaves an empty entry |
| TransferAnalysis.AccessZoneBusstops | sonya-transport/src/main/java/ss/sonya/transport/search/GraphConstructor.java:335-347 | a cached stop returns the cached list and leaves the cache as it is; otherwise the radius search result followed by the stop is returned and cached; with a consistent cache the result is the stop's zone, contains the stop, and the cache stays consistent |
| TransferAnalysis.IsClosest | sonya-transport/src/main/java/ss/sonya/transport/search/GraphConstructor.java:355-364 | true exactly when the new transfer stop is strictly closer to the stop than the old one |
| TransferAnalysis.MergeCandidate | sonya-transport/src/main/java/ss/sonya/transport/search/GraphConstructor.java:208-271 | keeps the record well shaped; only the current crossing enters a pair, and at most one pair changes; same first stop: the first transfer stop changes exactly when strictly closer; next to the first stop: the first pair is replaced exactly when shorter; otherwise an empty second pair is filled, a neighbouring second pair is replaced exactly when shorter, and a separate one is replaced exactly when the new transfer stop lies further along the target's way |
| TransferAnalysis.Crossing | sonya-transport/src/main/java/ss/sonya/transport/search/GraphConstructor.java:202-280 | one crossing leaves the map unchanged for a line of the same route, else merges or creates that line's record; records stay well shaped |
| TransferAnalysis.ScanPaths | sonya-transport/src/main/java/ss/sonya/transport/search/GraphConstructor.java:201-282 | the crossings into the listed lines in list order keep every record well shaped |
| TransferAnalysis.ScanZone | sonya-transport/src/main/java/ss/sonya/transport/search/GraphConstructor.java:195-283 | the crossings through the zone stops in list order, where a stop without index entry adds nothing, keep every record well shaped |
| TransferAnalysis.ScanWay | sonya-transport/src/main/java/ss/sonya/transport/search/GraphConstructor.java:182-284 | the crossings of the way indexes below n, skipping index 0 and placeholder stops, keep every record well shaped |
| TransferAnalysis.RecordCrossing | sonya-transport/src/main/java/ss/sonya/transport/search/GraphConstructor.java:208-280 | a crossing into a line of another route adds that line to the keys; an absent line gets the fresh record `(bs, transferBs, null, null)`, a present one becomes `MergeCandidate` of its old record; every other record is unchanged; so the result is `Crossing` of the old map |
| TransferAnalysis.MergedRecorded | sonya-transport/src/main/java/ss/sonya/transport/search/GraphConstructor.java:208-271 | a record whose pairs are its old pairs or the admissible crossing is still admissible |
| TransferAnalysis.ClearedRecorded | sonya-transport/src/main/java/ss/sonya/transport/search/GraphConstructor.java:286-312 | a record whose pairs are its old pairs, or whose second pair is gone, is still admissible |
| TransferAnalysis.CrossingRecorded | sonya-transport/src/main/java/ss/sonya/transport/search/GraphConstructor.java:202-280 | an admissible crossing keeps every record admissible and adds its line to the keys exactly when that line is of another route |
| TransferAnalysis.ScanPathsRecorded | sonya-transport/src/main/java/ss/sonya/transport/search/GraphConstructor.java:201-282 | the crossings into listed lines keep every record admissible and add exactly the listed lines of other routes |
| TransferAnalysis.ListedInStep | sonya-transport/src/main/java/ss/sonya/transport/search/GraphConstructor.java:195-200 | a zone list lists a line exactly when its front part or its last stop does |
| TransferAnalysis.ScanZoneRecorded | sonya-transport/src/main/java/ss/sonya/transport/search/GraphConstructor.java:195-283 | the crossings through the zone stops keep every record admissible and add exactly the lines of other routes listed for some zone stop |
| TransferAnalysis.ScanWayRecorded | sonya-transport/src/main/java/ss/sonya/transport/search/GraphConstructor.java:182-284 | after the way indexes below n the map is admissible and its keys are exactly the lines of other routes reached from those indexes |
| TransferAnalysis.AnalysisRecorded | sonya-transport/src/main/java/ss/sonya/transport/search/GraphConstructor.java:175-326 | the records `Analysis` keeps are exactly those of the transfer targets, each admissible and settled |
| TransferAnalysis.ScanTransferPaths | sonya-transport/src/main/java/ss/sonya/transport/search/GraphConstructor.java:201-282 | the result is `ScanPaths` of the input map, i.e. each listed line of another route in turn gets `Crossing`; the keys grow by exactly those lines; every record stays admissible |
| TransferAnalysis.ScanNearStops | sonya-transport/src/main/java/ss/sonya/transport/search/GraphConstructor.java:195-283 | the result is `ScanZone` of the input map over the zone list; the keys grow by exactly the lines of other routes listed for some stop of the zone (a stop without an index entry contributes nothing); every record stays admissible |
| TransferAnalysis.ScanZoneStep | sonya-transport/src/main/java/ss/sonya/transport/search/GraphConstructor.java:195-200 | one more zone stop extends the fold by that stop's crossings when it has an index entry, and by nothing otherwise |
| TransferAnalysis.ReachedBeforeStep | sonya-transport/src/main/java/ss/sonya/transport/search/GraphConstructor.java:182-190 | one more way index reaches a line exactly when the earlier indexes do or the new index is neither the origin nor a placeholder and its zone reaches the line |
| TransferAnalysis.CollectTransfers | sonya-transport/src/main/java/ss/sonya/transport/search/GraphConstructor.java:179-284 | the map is `ScanWay` over the whole way, i.e. every crossing merged by the precedence rules in the source's order; its keys are exactly the transfer targets (other route, reached from a stop at way index at least 1 not named `"mock"`); every record is well shaped, its "from" stops are such stops, and its "to" stops are in their zones and on the target line |
| TransferAnalysis.ClearAdjacentSecond | sonya-transport/src/main/java/ss/sonya/transport/search/GraphConstructor.java:287-311 | afterwards a present second pair is never next to the first; a record without neighbouring pairs is unchanged; on a collapse the second pair is cleared and the survivor is the pair with the smaller distance, the second on a tie |
| TransferAnalysis.ClearAdjacentTransfers | sonya-transport/src/main/java/ss/sonya/transport/search/GraphConstructor.java:286-312 | the result is `ClearAll`: the same keys, each record replaced by what `ClearAdjacentSecond` makes of it, so every record is settled |
| TransferAnalysis.AnalyzePath | sonya-transport/src/main/java/ss/sonya/transport/search/GraphConstructor.java:175-326 | the result is `Analysis` of the line: the crossings folded by `MergeCandidate` in way, zone and index order, then the final pass; it has a record for exactly the transfer targets; every record is admissible; no record keeps two pairs whose "from" stops are neighbours; the cache stays consistent |
| GraphConstructor.EmitEdges | sonya-transport/src/main/java/ss/sonya/transport/search/GraphConstructor.java:140-156 | appends to the line's vertex one edge per filled pair, first transfer first, each carrying the target's vertex and the stops' positions on their own ways; no other list changes |
| GraphConstructor.EmitRecord | sonya-transport/src/main/java/ss/sonya/transport/search/GraphConstructor.java:138-157 | one record's edges go to the end of the line's vertex list; the edges into the record's vertex grow by exactly them and no other vertex's edges change |
| GraphConstructor.EmittedForStep | sonya-transport/src/main/java/ss/sonya/transport/search/GraphConstructor.java:138-157 | handling one more record adds its edges to its own vertex only |
| GraphConstructor.EmitTransfers | sonya-transport/src/main/java/ss/sonya/transport/search/GraphConstructor.java:138-157 | for any key order, the edges into each vertex grow by exactly that line's record edges and come only from records |
| GraphConstructor.TargetingAppend | sonya-transport/src/main/java/ss/sonya/transport/search/GraphConstructor.java:154-155 | the edges into a vertex of a concatenation are those of the parts, in order |
| GraphConstructor.TargetingUniform | sonya-transport/src/main/java/ss/sonya/transport/search/GraphConstructor.java:150-155 | a batch of edges into one vertex adds nothing to any other vertex |
| GraphConstructor.EdgesOfTarget | sonya-transport/src/main/java/ss/sonya/transport/search/GraphConstructor.java:150 | every edge of a record leads to the record's line |
| GraphConstructor.LookupMembers | sonya-transport/src/main/java/ss/sonya/transport/search/GraphConstructor.java:111-122 | a line is listed for a stop, with a missing key read as no lines, exactly when it passes through it |
| GraphConstructor.IsTargetIff | sonya-transport/src/main/java/ss/sonya/transport/search/GraphConstructor.java:182-206 | the analysis' targets are exactly the lines of other routes with a stop in the zone of an analysed stop |
| GraphConstructor.EdgesOfSound | sonya-transport/src/main/java/ss/sonya/transport/search/GraphConstructor.java:141-155 | the edges of an admissible record are sound |
| GraphConstructor.CompleteAt | sonya-transport/src/main/java/ss/sonya/transport/search/GraphConstructor.java:138-157 | for one target vertex: an edge exactly when it is a transfer target, at most two, two only when their stops on the source line are not neighbours |
| GraphConstructor.CompleteFromMap | sonya-transport/src/main/java/ss/sonya/transport/search/GraphConstructor.java:138-157 | the same for every target vertex of a line |
| GraphConstructor.AddLineTransfers | sonya-transport/src/main/java/ss/sonya/transport/search/GraphConstructor.java:130-157 | one line's transfers become edges of its vertex only and every edge stays sound; with no repeated lines the edges into each vertex w are exactly those of the record `Analysis` keeps for w's line, and so they are complete |
| GraphConstructor.ConstructGraph | sonya-transport/src/main/java/ss/sonya/transport/search/GraphConstructor.java:110-163 | a fresh valid graph over the given lines without metro graph. Every edge leads to a line of another route, has no second-transfer slots, and leaves from a stop at way index at least 1 not named `"mock"`. It arrives at a stop of the target inside that stop's zone. When no line repeats, the edges from v into w are exactly those of the record the analysis of v's line keeps for w's line; so there is an edge exactly when w is a transfer target of v, at most two such edges, and two only from stops that are not neighbours |
| GraphConstructor.BuildGraph | sonya-transport/src/main/java/ss/sonya/transport/search/GraphConstructor.java:97-164 | a graph exactly when both queries of the profile succeed; it is fresh and built over the lines sorted by id, with sound edges and, when no line repeats, each vertex's edges those of its line's analysis, as for `ConstructGraph` |
| GraphConstructor.GraphRegistry.PutGraph | sonya-transport/src/main/java/ss/sonya/transport/search/GraphConstructor.java:78-84 | a profile whose data loads gets a fresh graph under its id, replacing any earlier one; a failing profile leaves the registry unchanged |
| GraphConstructor.GraphRegistry.constructor | sonya-transport/src/main/java/ss/sonya/transport/search/GraphConstructor.java:57 | the registry starts empty |
| GraphConstructor.LoadedIds | sonya-transport/src/main/java/ss/sonya/transport/search/GraphConstructor.java:77-85 | the ids of exactly the profiles whose data loads |
| GraphConstructor.GraphRegistry.Init | sonya-transport/src/main/java/ss/sonya/transport/search/GraphConstructor.java:72-90 | a failed profile query leaves the registry unchanged; otherwise the keys grow by exactly the ids of the profiles that load, each of those ids holds a fresh graph, and every other entry stays as it was |
| Bfs.CollectUnreal | sonya-transport/src/main/java/ss/sonya/transport/search/BFS.java:94-111 | fails exactly when some journey has an empty second segment; otherwise collects exactly the unreal journeys, in order |
| Bfs.ClearUnrealResults | sonya-transport/src/main/java/ss/sonya/transport/search/BFS.java:91-118 | on failure the list is unchanged; otherwise it becomes the journeys that are not unreal, in their original order |
| Bfs.ResultList.RemoveAll | sonya-transport/src/main/java/ss/sonya/transport/search/BFS.java:116 | the list loses every element equal to one in the argument and keeps the rest in order |
| Bfs.ListRemoveAll | sonya-transport/src/main/java/ss/sonya/transport/search/BFS.java:116 | an element survives exactly when it was present and is not in the removal list |
| Bfs.UnrealOfMembers | sonya-transport/src/main/java/ss/sonya/transport/search/BFS.java:95-101 | a journey is collected exactly when it is in the list and its second segment starts at a start stop |
| Bfs.RemoveUnrealIsRealistic | sonya-transport/src/main/java/ss/sonya/transport/search/BFS.java:112-117 | removing the collected journeys leaves exactly the journeys that are not unreal |
| Bfs.RemoveMatching | sonya-transport/src/main/java/ss/sonya/transport/search/BFS.java:116 | removing any list that holds exactly the unreal members of the list gives the same result |
| Bfs.RealisticMembers | sonya-transport/src/main/java/ss/sonya/transport/search/BFS.java:94-117 | a journey survives exactly when it was in the list and is not unreal; so no survivor satisfies the removal rule and every survivor was there |
| Bfs.RealisticCounts | sonya-transport/src/main/java/ss/sonya/transport/search/BFS.java:116 | survivors keep their multiplicity and removed journeys are gone entirely |
| Bfs.RealisticAppend | sonya-transport/src/main/java/ss/sonya/transport/search/BFS.java:116 | the filter distributes over concatenation, so survivors keep their relative order |
| Bfs.RealisticUnchanged | sonya-transport/src/main/java/ss/sonya/transport/search/BFS.java:96-112 | a list with no unreal journey is left as it is, in particular journeys of at most one segment |
| Bfs.TransformDecisionsTask.Call | sonya-transport/src/main/java/ss/sonya/transport/search/BFS.java:138-141 | the result is the engine's transformation of exactly the task's own portion and graph |
| Bfs.TransformDecisionsTask.constructor | sonya-transport/src/main/java/ss/sonya/transport/search/BFS.java:133-137 | the task holds exactly the given portion, graph and transformation |
| AdminGrid.BusStopGrid.MoveBusStop | sonya-transport-html5/src/app/component/busstop.grid.ts:90-94 | the stop list becomes the old one with the element at `fromIndex` taken out and reinserted at `toIndex` |
| AdminGrid.SpliceTwiceIsMoved | sonya-transport-html5/src/app/component/busstop.grid.ts:91-93 | the two splices compute exactly that move |
| AdminGrid.MovedIsPermutation | sonya-transport-html5/src/app/component/busstop.grid.ts:90-94 | a move keeps the length and the multiset of stops and puts the moved stop at `toIndex` |
| AdminGrid.MovedNeighbourIsSwap | sonya-transport-html5/src/app/component/busstop.grid.ts:69-94 | a move by at most one position swaps the two stops and leaves every other position unchanged |
| AdminGrid.BusStopGrid.MoveBusStopUp | sonya-transport-html5/src/app/component/busstop.grid.ts:69-74 | the first stop stays where it is; any other stop swaps with its predecessor |
| AdminGrid.BusStopGrid.MoveBusStopDown | sonya-transport-html5/src/app/component/busstop.grid.ts:75-80 | the last stop stays where it is; any other stop swaps with its successor |
| AdminGrid.BusStopGrid.DeleteBusStop | sonya-transport-html5/src/app/component/busstop.grid.ts:65-68 | the list becomes the stops whose id differs from the target's, in order |
| AdminGrid.WithoutId | sonya-transport-html5/src/app/component/busstop.grid.ts:66 | a stop survives exactly when it was present and its id differs; the list does not grow |
| AdminGrid.WithoutIdCounts | sonya-transport-html5/src/app/component/busstop.grid.ts:66 | every kept stop occurs as often as before, and no stop with the target id remains |
| AdminGrid.WithoutIdAppend | sonya-transport-html5/src/app/component/busstop.grid.ts:66 | deletion by id distributes over concatenation, so the kept stops stay in order |

## Left out

- Distance arithmetic (`Geometry.calcDistance`, Haversine, floating point) and `findBusStopsInRadius` are uninterpreted parameters. Distances are mathematical reals, so Java's NaN comparisons are not modelled.
- Java `int` wrap-around of the `edges` counter and of `2 * edges` in `avgDegree` is not modelled; counts are unbounded.
- Only `avgDegree`'s `vertices() == 0` guard is modelled. There is no overflow guard in the source to model.
- PathOrder.SortById: it states the order `Collections.sort` produces up to the relative order of lines with equal ids. The model keeps lines with equal ids in their input order. The source's comparator never returns 0, so TimSort treats a later line with an equal id as smaller; on short lists its run detection then puts that later line first.
- `Graph.toString` (its logarithmic density figure) and `printVertex` string formatting.
- The `Adj`, `VertexDegree`, `GetPath`, `GetPaths` and `GetMetroGraph` accessors have no contract of their own. They return fields, and `VertexDegree`, `Adj`, `GetPath` and `GetMetroGraph` are what the other contracts are stated in.
- The `ResultList` and `BusStopGrid` constructors only hold the given list. They stand for the Java result list and the Angular component, whose creation is not part of this model.
- Logging, timing (`System.currentTimeMillis`), `System.out` progress output, and the debug-only `total` and `total2` counters of `analyzePath`.
- Spring injection, `@PostConstruct` wiring and the concurrency of the static `GRAPHS` map. The registry is a plain map field.
- GraphConstructor.GraphRegistry.Init: states which ids receive a fresh graph. That each such graph is built as `BuildGraph` promises is stated per profile by `GraphRegistry.PutGraph`.
- Exceptions other than a failing data query (for example a line without a route) are not modelled in `init`/`buildGraph`.
- GraphConstructor.ConstructGraph: the completeness half (an edge exactly for each transfer target) is stated for line lists without repetitions. With a repeated line, `indexOf` sends all its edges to the first occurrence. Soundness is stated for every input.
- GraphConstructor.ConstructGraph: "from" stops are stated to lie in `way[1..]`, not to sit at index ≥ 1. A line whose origin stop reappears later has that stop's `indexOf` equal to 0.
- The abstract search methods `createPointVertices`, `straightPaths` and `transformDecisions` have no bodies in the source. `transformDecisions` is a function parameter of the task, and the remaining BFS search code is not part of this model.
- `OptimalPath` keeps only the journey's way segments. The journey's other fields and its `equals` (used by `removeAll`) are abstracted to value equality of that datatype; the filter reads the way alone.
- `metroGraph` is only stored and read back. The source has no code that builds or collapses a metro graph.
- AdminGrid.BusStopGrid.MoveBusStopUp and AdminGrid.BusStopGrid.MoveBusStopDown require the stop to be in the list. With a missing stop, `indexOf` gives -1 and JavaScript's negative `splice` indexes count from the end; that case is not modelled.
- AdminGrid.BusStopGrid.MoveBusStop requires in-range indexes for the same reason.
- `indexOf` in the UI compares object identity, while the model compares stop values.
- The map redraw (`drawRoute`), `saveBusStops` and the other UI and HTTP glue of `busstop.grid.ts`.
- The Angular/Leaflet components, the Spring configurations and the security interface are not part of this model.
- Of `TransportConst`, only the `"mock"` placeholder name is used.
