/**
 * Building the transfer graph of a transport profile: one vertex per line in id order, and
 * from each line an edge per transfer (first and last crossing) into every line of another
 * route that its stops reach on foot.
 */
module GraphConstructor {
  import opened Entities
  import opened Lists
  import opened PathGraph
  import opened PathOrder
  import opened StopIndex
  import opened TransferAnalysis

  /** The edges of es that lead to vertex w, in order. */
  function Targeting(es: seq<Edge>, w: int): seq<Edge> {
    if es == [] then [] else (if es[0].w == w then [es[0]] else []) + Targeting(es[1..], w)
  }

  lemma {:induction false} TargetingAppend(a: seq<Edge>, b: seq<Edge>, w: int)
    ensures Targeting(a + b, w) == Targeting(a, w) + Targeting(b, w)
  {
    if a != [] {
      assert (a + b)[1..] == a[1..] + b;
      TargetingAppend(a[1..], b, w);
    } else {
      assert a + b == b;
    }
  }

  /** A list whose edges all lead to u contributes all of itself to u and nothing to any other vertex. */
  lemma {:induction false} TargetingUniform(es: seq<Edge>, u: int, w: int)
    requires forall i :: 0 <= i < |es| ==> es[i].w == u
    ensures Targeting(es, w) == if w == u then es else []
  {
    if es != [] {
      TargetingUniform(es[1..], u, w);
      assert es == [es[0]] + es[1..];
    }
  }

  /** The four slots of a record, as the array positions 0..3 of the source. */
  function Slot(pairs: Transfer, k: int): Option<Stop> {
    if k == 0 then pairs.from1 else if k == 1 then pairs.to1 else if k == 2 then pairs.from2 else pairs.to2
  }

  /** The edge of one transfer pair, when both its slots are filled: target vertex and the two stop positions. */
  function PairEdges(w: int, way: seq<Stop>, tWay: seq<Stop>, bs: Option<Stop>, transferBs: Option<Stop>): seq<Edge> {
    if bs.Some? && transferBs.Some? then [Edge(w, IndexOf(way, bs.value), IndexOf(tWay, transferBs.value), None, None)]
    else []
  }

  /** The edges of one record: the first transfer, then the last one. */
  function EdgesOf(w: int, way: seq<Stop>, tWay: seq<Stop>, pairs: Transfer): seq<Edge> {
    PairEdges(w, way, tWay, pairs.from1, pairs.to1) + PairEdges(w, way, tWay, pairs.from2, pairs.to2)
  }

  /** Every edge of a record leads to the record's line. */
  lemma EdgesOfTarget(w: int, way: seq<Stop>, tWay: seq<Stop>, pairs: Transfer)
    ensures forall i :: 0 <= i < |EdgesOf(w, way, tWay, pairs)| ==> EdgesOf(w, way, tWay, pairs)[i].w == w
  {
  }

  /**
   * The k-loop over one record: an edge from `vertex` into the record's line for each
   * filled pair, the first transfer before the last one.
   */
  method EmitEdges(graph: Graph, vertex: int, paths: seq<Path>, way: seq<Stop>, transferPath: Path, pairs: Transfer)
    requires graph.Valid() && 0 <= vertex < graph.adj.Length
    modifies graph`edges, graph.adj
    ensures graph.Valid()
    ensures graph.adj[vertex] == old(graph.adj[vertex]) + EdgesOf(IndexOf(paths, transferPath), way, transferPath.way, pairs)
    ensures forall u :: 0 <= u < graph.adj.Length && u != vertex ==> graph.adj[u] == old(graph.adj[u])
  {
    var k := 0;
    while k < 4
      invariant k == 0 || k == 2 || k == 4
      invariant graph.Valid()
      invariant graph.adj[vertex] == old(graph.adj[vertex]) +
        (if k == 0 then []
         else if k == 2 then PairEdges(IndexOf(paths, transferPath), way, transferPath.way, pairs.from1, pairs.to1)
         else EdgesOf(IndexOf(paths, transferPath), way, transferPath.way, pairs))
      invariant forall u :: 0 <= u < graph.adj.Length && u != vertex ==> graph.adj[u] == old(graph.adj[u])
    {
      var bs := Slot(pairs, k);
      var transferBs := Slot(pairs, k + 1);
      if bs.Some? && transferBs.Some? {
        var tPathVertex := IndexOf(paths, transferPath);
        var pathBsOrder := IndexOf(way, bs.value);
        var tPathBsOrder := IndexOf(transferPath.way, transferBs.value);
        graph.AddEdge(vertex, tPathVertex, pathBsOrder, tPathBsOrder, None, None);
      }
      k := k + 2;
    }
  }

  /** The edges the records of `done` give to vertex w: those of w's line when w is that line's first position. */
  ghost function EmittedFor(paths: seq<Path>, way: seq<Stop>, tMap: map<Path, Transfer>, done: set<Path>, w: int): seq<Edge> {
    if 0 <= w < |paths| && paths[w] in tMap && paths[w] in done && IndexOf(paths, paths[w]) == w
    then EdgesOf(w, way, paths[w].way, tMap[paths[w]])
    else []
  }

  /** An edge of vertex `v` that one of the records produced. */
  ghost predicate FromRecord(paths: seq<Path>, way: seq<Stop>, tMap: map<Path, Transfer>, e: Edge) {
    0 <= e.w < |paths| && paths[e.w] in tMap && e in EdgesOf(e.w, way, paths[e.w].way, tMap[paths[e.w]])
  }

  /** Adding one more record to `done` adds its edges to its own vertex and changes no other vertex. */
  lemma EmittedForStep(paths: seq<Path>, way: seq<Stop>, tMap: map<Path, Transfer>, done: set<Path>, t: Path, w: int)
    requires t in tMap && t !in done && t in paths
    ensures EmittedFor(paths, way, tMap, done + {t}, w) ==
      EmittedFor(paths, way, tMap, done, w) +
      (if w == IndexOf(paths, t) then EdgesOf(w, way, t.way, tMap[t]) else [])
  {
    if w == IndexOf(paths, t) {
      assert paths[w] == t;
    }
  }

  /** One turn of the loop over the transfer map: the record's edges go to the record's vertex only. */
  method EmitRecord(graph: Graph, vertex: int, way: seq<Stop>, transferPath: Path, pairs: Transfer)
    requires graph.Valid() && 0 <= vertex < graph.adj.Length
    modifies graph`edges, graph.adj
    ensures graph.Valid()
    ensures forall u :: 0 <= u < graph.adj.Length && u != vertex ==> graph.adj[u] == old(graph.adj[u])
    ensures forall w ::
      Targeting(graph.adj[vertex], w) == Targeting(old(graph.adj[vertex]), w) +
        (if w == IndexOf(graph.paths, transferPath) then EdgesOf(w, way, transferPath.way, pairs) else [])
    ensures forall e :: e in graph.adj[vertex] ==>
      e in old(graph.adj[vertex]) || (e.w == IndexOf(graph.paths, transferPath) && e in EdgesOf(e.w, way, transferPath.way, pairs))
  {
    ghost var w0 := IndexOf(graph.paths, transferPath);
    ghost var added := EdgesOf(w0, way, transferPath.way, pairs);
    EmitEdges(graph, vertex, graph.paths, way, transferPath, pairs);
    EdgesOfTarget(w0, way, transferPath.way, pairs);
    forall w
      ensures Targeting(graph.adj[vertex], w) == Targeting(old(graph.adj[vertex]), w) + (if w == w0 then added else [])
    {
      TargetingAppend(old(graph.adj[vertex]), added, w);
      TargetingUniform(added, w0, w);
    }
  }

  /** The loop over the transfer map of one line: the records' edges, appended to the line's vertex. */
  method EmitTransfers(graph: Graph, vertex: int, path: Path, tMap: map<Path, Transfer>)
    requires graph.Valid() && 0 <= vertex < graph.adj.Length
    requires forall t :: t in tMap ==> t in graph.paths
    modifies graph`edges, graph.adj
    ensures graph.Valid()
    ensures forall u :: 0 <= u < graph.adj.Length && u != vertex ==> graph.adj[u] == old(graph.adj[u])
    ensures forall w :: 0 <= w < graph.adj.Length ==>
      Targeting(graph.adj[vertex], w) ==
        Targeting(old(graph.adj[vertex]), w) + EmittedFor(graph.paths, path.way, tMap, tMap.Keys, w)
    ensures forall e :: e in graph.adj[vertex] ==>
      e in old(graph.adj[vertex]) || FromRecord(graph.paths, path.way, tMap, e)
  {
    var paths := graph.paths;
    var todo := tMap.Keys;
    while todo != {}
      invariant todo <= tMap.Keys
      invariant graph.Valid()
      invariant forall u :: 0 <= u < graph.adj.Length && u != vertex ==> graph.adj[u] == old(graph.adj[u])
      invariant forall w :: 0 <= w < graph.adj.Length ==>
        Targeting(graph.adj[vertex], w) ==
          Targeting(old(graph.adj[vertex]), w) + EmittedFor(paths, path.way, tMap, tMap.Keys - todo, w)
      invariant forall e :: e in graph.adj[vertex] ==> e in old(graph.adj[vertex]) || FromRecord(paths, path.way, tMap, e)
      decreases todo
    {
      var transferPath :| transferPath in todo;
      ghost var done := tMap.Keys - todo;
      EmitRecord(graph, vertex, path.way, transferPath, tMap[transferPath]);
      todo := todo - {transferPath};
      assert tMap.Keys - todo == done + {transferPath};
      forall w | 0 <= w < graph.adj.Length
        ensures Targeting(graph.adj[vertex], w) ==
          Targeting(old(graph.adj[vertex]), w) + EmittedFor(paths, path.way, tMap, tMap.Keys - todo, w)
      {
        EmittedForStep(paths, path.way, tMap, done, transferPath, w);
      }
    }
  }

  /**
   * An edge the construction may produce from vertex v: into another route's line, with no
   * second-transfer positions, leaving from a non-origin, non-placeholder stop of v's way and
   * arriving at a stop of the target's way inside that stop's access zone.
   */
  ghost predicate EdgeSound(paths: seq<Path>, v: int, e: Edge, zone: RadiusSearch)
    requires 0 <= v < |paths|
  {
    && 0 <= e.w < |paths|
    && e.vb2.None? && e.wb2.None?
    && paths[e.w].routeId != paths[v].routeId
    && 0 <= e.vb1 < |paths[v].way| && 0 <= e.wb1 < |paths[e.w].way|
    && paths[v].way[e.vb1] in paths[v].way[1..]
    && paths[v].way[e.vb1].name != MockBs
    && paths[e.w].way[e.wb1] in Near(zone, paths[v].way[e.vb1])
  }

  /** Line t is a transfer target of line p: another route, and a stop of t lies in the zone of an analysed stop of p. */
  ghost predicate Transfers(p: Path, t: Path, zone: RadiusSearch) {
    && t.routeId != p.routeId
    && exists k :: 1 <= k < |p.way| && p.way[k].name != MockBs &&
         exists j :: 0 <= j < |Near(zone, p.way[k])| && Near(zone, p.way[k])[j] in t.way
  }

  /**
   * The edges es of vertex v: into every other vertex w there is an edge exactly when w's line
   * is a transfer target, at most two, and two only when their stops on v's line are not neighbours.
   */
  ghost predicate TransfersComplete(paths: seq<Path>, v: int, es: seq<Edge>, zone: RadiusSearch)
    requires 0 <= v < |paths|
  {
    forall w :: 0 <= w < |paths| ==>
      && (Targeting(es, w) != [] <==> Transfers(paths[v], paths[w], zone))
      && |Targeting(es, w)| <= 2
      && (|Targeting(es, w)| == 2 ==> Abs(Targeting(es, w)[0].vb1 - Targeting(es, w)[1].vb1) != 1)
  }

  /**
   * The edges from vertex v into vertex w that the construction emits: those of the record
   * the analysis of v's line keeps for w's line, none when it keeps no record.
   */
  ghost function TransferEdges(paths: seq<Path>, v: int, w: int, zone: RadiusSearch, bsPaths: map<Stop, seq<Path>>,
                               geometry: Geometry): seq<Edge>
    requires 0 <= v < |paths| && 0 <= w < |paths|
  {
    var tMap := Analysis(paths[v], zone, bsPaths, geometry);
    if paths[w] in tMap then EdgesOf(w, paths[v].way, paths[w].way, tMap[paths[w]]) else []
  }

  /** Into every vertex w, the edges es of vertex v are exactly those the construction emits for w. */
  ghost predicate EdgesAsAnalysed(paths: seq<Path>, v: int, es: seq<Edge>, zone: RadiusSearch,
                                  bsPaths: map<Stop, seq<Path>>, geometry: Geometry)
    requires 0 <= v < |paths|
  {
    forall w :: 0 <= w < |paths| ==> Targeting(es, w) == TransferEdges(paths, v, w, zone, bsPaths, geometry)
  }

  /** Vertex v is finished: its edges are complete and exactly those the analysis of its line gives. */
  ghost predicate VertexBuilt(paths: seq<Path>, v: int, es: seq<Edge>, zone: RadiusSearch,
                              bsPaths: map<Stop, seq<Path>>, geometry: Geometry)
    requires 0 <= v < |paths|
  {
    TransfersComplete(paths, v, es, zone) && EdgesAsAnalysed(paths, v, es, zone, bsPaths, geometry)
  }

  /** The entries of the index built from the lines list exactly the lines through each stop. */
  lemma LookupMembers(paths: seq<Path>, bsPaths: map<Stop, seq<Path>>)
    requires forall s :: Lookup(bsPaths, s) == Through(paths, s)
    ensures forall s, p :: p in Lookup(bsPaths, s) <==> p in paths && s in p.way
  {
    forall s
      ensures forall p :: p in Lookup(bsPaths, s) <==> p in paths && s in p.way
    {
      ThroughMembers(paths, s);
    }
  }

  /** With such an index, the analysis' notion of target is the closed form. */
  lemma IsTargetIff(bsPaths: map<Stop, seq<Path>>, p: Path, t: Path, zone: RadiusSearch)
    requires forall s :: t in Lookup(bsPaths, s) <==> s in t.way
    ensures IsTarget(p, t, zone, bsPaths) <==> Transfers(p, t, zone)
  {
    if IsTarget(p, t, zone, bsPaths) {
      var k :| 1 <= k < |p.way| && k < |p.way| && p.way[k].name != MockBs && ZoneHits(p.way[k], t, zone, bsPaths);
      var j :| 0 <= j < |Near(zone, p.way[k])| && t in Lookup(bsPaths, Near(zone, p.way[k])[j]);
      assert Near(zone, p.way[k])[j] in t.way;
    }
    if Transfers(p, t, zone) {
      var k :| 1 <= k < |p.way| && p.way[k].name != MockBs &&
        exists j :: 0 <= j < |Near(zone, p.way[k])| && Near(zone, p.way[k])[j] in t.way;
      var j :| 0 <= j < |Near(zone, p.way[k])| && Near(zone, p.way[k])[j] in t.way;
      assert t in Lookup(bsPaths, Near(zone, p.way[k])[j]);
      assert ZoneHits(p.way[k], t, zone, bsPaths);
    }
  }

  /** The edges of a recorded transfer are sound. */
  lemma EdgesOfSound(paths: seq<Path>, v: int, w: int, pairs: Transfer, zone: RadiusSearch, bsPaths: map<Stop, seq<Path>>)
    requires 0 <= v < |paths| && 0 <= w < |paths|
    requires IndexSound(paths, bsPaths)
    requires Recorded(paths[v], paths[w], pairs, zone, bsPaths)
    ensures forall e :: e in EdgesOf(w, paths[v].way, paths[w].way, pairs) ==> EdgeSound(paths, v, e, zone)
  {
    var t := paths[w];
    var to1 := pairs.to1.value;
    assert to1 in t.way;
    if pairs.to2.Some? {
      var to2 := pairs.to2.value;
      assert to2 in t.way;
    }
  }

  /** One target vertex w of a line list without repetitions gets what TransfersComplete asks for. */
  lemma CompleteAt(paths: seq<Path>, v: int, es: seq<Edge>, tMap: map<Path, Transfer>,
                   zone: RadiusSearch, bsPaths: map<Stop, seq<Path>>, w: int)
    requires Distinct(paths) && 0 <= v < |paths| && 0 <= w < |paths|
    requires forall s :: paths[w] in Lookup(bsPaths, s) <==> s in paths[w].way
    requires paths[w] in tMap <==> IsTarget(paths[v], paths[w], zone, bsPaths)
    requires paths[w] in tMap ==> Settled(tMap[paths[w]], paths[v].way)
    requires Targeting(es, w) == EmittedFor(paths, paths[v].way, tMap, tMap.Keys, w)
    ensures Targeting(es, w) != [] <==> Transfers(paths[v], paths[w], zone)
    ensures |Targeting(es, w)| <= 2
    ensures |Targeting(es, w)| == 2 ==> Abs(Targeting(es, w)[0].vb1 - Targeting(es, w)[1].vb1) != 1
  {
    IndexOfDistinct(paths, w);
    IsTargetIff(bsPaths, paths[v], paths[w], zone);
  }

  /** One vertex of a line list without repetitions gets exactly the edges TransfersComplete asks for. */
  lemma CompleteFromMap(paths: seq<Path>, v: int, es: seq<Edge>, tMap: map<Path, Transfer>,
                        zone: RadiusSearch, bsPaths: map<Stop, seq<Path>>)
    requires Distinct(paths) && 0 <= v < |paths|
    requires forall s, p :: p in Lookup(bsPaths, s) <==> p in paths && s in p.way
    requires forall t :: t in tMap <==> IsTarget(paths[v], t, zone, bsPaths)
    requires forall t :: t in tMap ==> Settled(tMap[t], paths[v].way)
    requires forall w :: 0 <= w < |paths| ==> Targeting(es, w) == EmittedFor(paths, paths[v].way, tMap, tMap.Keys, w)
    ensures TransfersComplete(paths, v, es, zone)
  {
    forall w | 0 <= w < |paths|
      ensures Targeting(es, w) != [] <==> Transfers(paths[v], paths[w], zone)
      ensures |Targeting(es, w)| <= 2
      ensures |Targeting(es, w)| == 2 ==> Abs(Targeting(es, w)[0].vb1 - Targeting(es, w)[1].vb1) != 1
    {
      CompleteAt(paths, v, es, tMap, zone, bsPaths, w);
    }
  }

  /**
   * One turn of the loop over the lines: the transfers of line i become edges of its vertex,
   * and no other adjacency list changes.
   */
  method AddLineTransfers(graph: Graph, i: int, bsPaths: map<Stop, seq<Path>>, nearBsCache: map<Stop, seq<Stop>>,
                          zone: RadiusSearch, geometry: Geometry)
    returns (cache: map<Stop, seq<Stop>>)
    requires graph.Valid() && 0 <= i < |graph.paths|
    requires forall s, p :: p in Lookup(bsPaths, s) <==> p in graph.paths && s in p.way
    requires IndexSound(graph.paths, bsPaths)
    requires CacheValid(nearBsCache, zone)
    requires forall v, e :: 0 <= v < |graph.paths| && e in graph.adj[v] ==> EdgeSound(graph.paths, v, e, zone)
    modifies graph`edges, graph.adj
    ensures graph.Valid() && CacheValid(cache, zone)
    ensures forall u :: 0 <= u < graph.adj.Length && u != IndexOf(graph.paths, graph.paths[i]) ==>
      graph.adj[u] == old(graph.adj[u])
    ensures forall v, e :: 0 <= v < |graph.paths| && e in graph.adj[v] ==> EdgeSound(graph.paths, v, e, zone)
    ensures Distinct(graph.paths) && old(graph.adj[i]) == [] ==>
      VertexBuilt(graph.paths, i, graph.adj[i], zone, bsPaths, geometry)
  {
    var paths := graph.paths;
    var path := paths[i];
    var vertex := IndexOf(paths, path);
    var tMap;
    tMap, cache := AnalyzePath(path, nearBsCache, bsPaths, zone, geometry);
    forall t | t in tMap
      ensures t in paths
    {
      assert t in Lookup(bsPaths, tMap[t].to1.value);
    }
    ghost var before := graph.adj[vertex];
    EmitTransfers(graph, vertex, path, tMap);
    forall v, e | 0 <= v < |paths| && e in graph.adj[v]
      ensures EdgeSound(paths, v, e, zone)
    {
      if v == vertex && e !in before {
        var t := paths[e.w];
        EdgesOfSound(paths, vertex, e.w, tMap[t], zone, bsPaths);
      }
    }
    if Distinct(paths) && old(graph.adj[i]) == [] {
      IndexOfDistinct(paths, i);
      forall w | 0 <= w < |paths|
        ensures Targeting(graph.adj[i], w) == EmittedFor(paths, path.way, tMap, tMap.Keys, w)
        ensures Targeting(graph.adj[i], w) == TransferEdges(paths, i, w, zone, bsPaths, geometry)
      {
        assert Targeting(before, w) == [];
        IndexOfDistinct(paths, w);
      }
      CompleteFromMap(paths, i, graph.adj[i], tMap, zone, bsPaths);
    }
  }

  /**
   * buildGraph after loading: a fresh graph over the given line order whose every edge is
   * sound and, when no line repeats, whose edges into each vertex are exactly those of the
   * record the analysis keeps for that vertex's line.
   */
  method ConstructGraph(paths: seq<Path>, zone: RadiusSearch, geometry: Geometry) returns (graph: Graph)
    ensures fresh(graph) && fresh(graph.adj)
    ensures graph.Valid() && graph.paths == paths && graph.metroGraph == null
    ensures forall v, e :: 0 <= v < |paths| && e in graph.adj[v] ==> EdgeSound(paths, v, e, zone)
    ensures Distinct(paths) ==>
      forall v :: 0 <= v < |paths| ==> VertexBuilt(paths, v, graph.adj[v], zone, Index(paths), geometry)
  {
    graph := new Graph(paths);
    var bsPaths := BuildStopIndex(paths);
    IndexSoundOfThrough(paths, bsPaths);
    assert forall s :: Lookup(bsPaths, s) == Through(paths, s);
    LookupMembers(paths, bsPaths);
    var nearBsCache: map<Stop, seq<Stop>> := map[];
    var i := 0;
    while i < |paths|
      invariant 0 <= i <= |paths|
      invariant graph.Valid() && graph.paths == paths && graph.metroGraph == null
      invariant CacheValid(nearBsCache, zone)
      invariant forall v :: i <= v < |paths| ==> graph.adj[v] == []
      invariant forall v, e :: 0 <= v < |paths| && e in graph.adj[v] ==> EdgeSound(paths, v, e, zone)
      invariant Distinct(paths) ==> forall v :: 0 <= v < i ==> VertexBuilt(paths, v, graph.adj[v], zone, bsPaths, geometry)
    {
      label before:
      if Distinct(paths) {
        IndexOfDistinct(paths, i);
      }
      nearBsCache := AddLineTransfers(graph, i, bsPaths, nearBsCache, zone, geometry);
      if Distinct(paths) {
        forall v | 0 <= v < i
          ensures VertexBuilt(paths, v, graph.adj[v], zone, bsPaths, geometry)
        {
          assert graph.adj[v] == old@before(graph.adj[v]);
        }
      }
      i := i + 1;
    }
  }

  /** A transport profile: its id and the access zone radius of its stops. */
  datatype Profile = Profile(id: int, busStopAccessZoneRadius: real)

  /** What the transport data service returns per profile id: None where the query fails. */
  datatype TransportData = TransportData(paths: int -> Option<seq<Path>>, busStops: int -> Option<seq<Stop>>)

  /** TransportGeometry.findBusStopsInRadius(all, bs, radius). */
  type StopsInRadius = (seq<Stop>, Stop, real) -> seq<Stop>

  /** The access zone search of a profile: the stops of `all` within `radius` of the stop. */
  function ZoneOf(all: seq<Stop>, radius: real, findBusStopsInRadius: StopsInRadius): RadiusSearch {
    bs => findBusStopsInRadius(all, bs, radius)
  }

  /** Both queries of a profile succeed. */
  predicate Loads(data: TransportData, id: int) {
    data.paths(id).Some? && data.busStops(id).Some?
  }

  /** The ids of the profiles whose data loads. */
  function LoadedIds(ps: seq<Profile>, data: TransportData): (ids: set<int>)
    ensures forall p :: p in ps && Loads(data, p.id) ==> p.id in ids
    ensures forall id :: id in ids ==> exists p :: p in ps && Loads(data, p.id) && p.id == id
  {
    if ps == [] then {}
    else
      var init := ps[..|ps| - 1];
      assert ps == init + [ps[|ps| - 1]];
      LoadedIds(init, data) + (if Loads(data, ps[|ps| - 1].id) then {ps[|ps| - 1].id} else {})
  }

  /**
   * A graph built for profile `id`: over its lines in id order, with sound edges and, when no
   * line repeats, with each vertex's edges exactly those its line's transfer analysis gives.
   */
  ghost predicate BuiltFor(graph: Graph, data: TransportData, profile: Profile, findBusStopsInRadius: StopsInRadius,
                          geometry: Geometry)
    reads graph, graph.adj
  {
    && Loads(data, profile.id)
    && graph.Valid()
    && graph.paths == SortById(data.paths(profile.id).value)
    && graph.metroGraph == null
    && var zone := ZoneOf(data.busStops(profile.id).value, profile.busStopAccessZoneRadius, findBusStopsInRadius);
       && (forall v, e :: 0 <= v < |graph.paths| && e in graph.adj[v] ==> EdgeSound(graph.paths, v, e, zone))
       && (Distinct(graph.paths) ==>
             forall v :: 0 <= v < |graph.paths| ==>
               VertexBuilt(graph.paths, v, graph.adj[v], zone, Index(graph.paths), geometry))
  }

  /** buildGraph: loads the lines and sorts them by id, loads the stops, and builds the graph; a failed query fails it. */
  method BuildGraph(profile: Profile, data: TransportData, findBusStopsInRadius: StopsInRadius, geometry: Geometry)
    returns (graph: Option<Graph>)
    ensures graph.Some? <==> Loads(data, profile.id)
    ensures graph.Some? ==> fresh(graph.value) && fresh(graph.value.adj) && BuiltFor(graph.value, data, profile, findBusStopsInRadius, geometry)
  {
    var loaded := data.paths(profile.id);
    if loaded.None? {
      return None;
    }
    var paths := SortById(loaded.value);
    var all := data.busStops(profile.id);
    if all.None? {
      return None;
    }
    var zone := ZoneOf(all.value, profile.busStopAccessZoneRadius, findBusStopsInRadius);
    var g := ConstructGraph(paths, zone, geometry);
    return Some(g);
  }

  /** The graph registry: one graph per transport profile id (the GRAPHS map). */
  class GraphRegistry {
    var graphs: map<int, Graph>

    constructor ()
      ensures graphs == map[]
    {
      graphs := map[];
    }

    /** The body of init's loop: a profile whose graph builds is registered under its id, replacing any earlier graph. */
    method PutGraph(profile: Profile, data: TransportData, findBusStopsInRadius: StopsInRadius, geometry: Geometry)
      modifies this
      ensures !Loads(data, profile.id) ==> graphs == old(graphs)
      ensures Loads(data, profile.id) ==>
        && profile.id in graphs && graphs == old(graphs)[profile.id := graphs[profile.id]]
        && fresh(graphs[profile.id])
        && BuiltFor(graphs[profile.id], data, profile, findBusStopsInRadius, geometry)
    {
      var built := BuildGraph(profile, data, findBusStopsInRadius, geometry);
      if built.Some? {
        graphs := graphs[profile.id := built.value];
      }
    }

    /**
     * init: a fresh graph for every profile whose data loads; a profile that fails leaves the
     * others unaffected, and when the profile list itself fails nothing changes.
     */
    method Init(profiles: Option<seq<Profile>>, data: TransportData, findBusStopsInRadius: StopsInRadius, geometry: Geometry)
      modifies this
      ensures profiles.None? ==> graphs == old(graphs)
      ensures profiles.Some? ==> graphs.Keys == old(graphs).Keys + LoadedIds(profiles.value, data)
      ensures profiles.Some? ==> forall id :: id in LoadedIds(profiles.value, data) ==> fresh(graphs[id])
      ensures forall id :: id in graphs && (profiles.None? || id !in LoadedIds(profiles.value, data)) ==>
        id in old(graphs) && graphs[id] == old(graphs)[id]
    {
      if profiles.None? {
        return;
      }
      var ps := profiles.value;
      var k := 0;
      while k < |ps|
        invariant 0 <= k <= |ps|
        invariant graphs.Keys == old(graphs).Keys + LoadedIds(ps[..k], data)
        invariant forall id :: id in LoadedIds(ps[..k], data) ==> fresh(graphs[id])
        invariant forall id :: id in graphs && id !in LoadedIds(ps[..k], data) ==> id in old(graphs) && graphs[id] == old(graphs)[id]
      {
        var profile := ps[k];
        assert ps[..k + 1][..k] == ps[..k];
        PutGraph(profile, data, findBusStopsInRadius, geometry);
        k := k + 1;
      }
      assert ps[..k] == ps;
    }
  }
}
