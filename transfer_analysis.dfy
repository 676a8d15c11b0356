/**
 * Transfer analysis of one line: for every other line reachable on foot from one of its
 * stops, the first and the last crossing, with the tie-break rules that keep at most two.
 */
module TransferAnalysis {
  import opened Entities
  import opened Lists
  import opened StopIndex

  /** Geometry.calcDistance(lat1, lon1, lat2, lon2); only its order matters here. */
  type Geometry = (real, real, real, real) -> real

  /** The profile's access-zone search: findBusStopsInRadius over the profile's stops and radius. */
  type RadiusSearch = Stop -> seq<Stop>

  function Dist(geometry: Geometry, a: Stop, b: Stop): real {
    geometry(a.lat, a.lon, b.lat, b.lon)
  }

  function Abs(x: int): int {
    if x < 0 then -x else x
  }

  /** The access zone list of a stop: the radius search result followed by the stop itself. */
  function Near(zone: RadiusSearch, bs: Stop): seq<Stop> {
    zone(bs) + [bs]
  }

  /** Every cached access zone is the one the radius search gives. */
  ghost predicate CacheValid(cache: map<Stop, seq<Stop>>, zone: RadiusSearch) {
    forall s :: s in cache ==> cache[s] == Near(zone, s)
  }

  /**
   * The access zone of a stop, through the cache: a cached stop gets its cached list and
   * the cache stays as it is; otherwise the search result plus the stop is cached and returned.
   */
  method AccessZoneBusstops(bs: Stop, zone: RadiusSearch, zoneBsCache: map<Stop, seq<Stop>>)
    returns (zoneBs: seq<Stop>, cache: map<Stop, seq<Stop>>)
    ensures bs in zoneBsCache ==> zoneBs == zoneBsCache[bs] && cache == zoneBsCache
    ensures bs !in zoneBsCache ==> zoneBs == zone(bs) + [bs] && cache == zoneBsCache[bs := zoneBs]
    ensures CacheValid(zoneBsCache, zone) ==> zoneBs == Near(zone, bs) && bs in zoneBs && CacheValid(cache, zone)
  {
    if bs in zoneBsCache {
      return zoneBsCache[bs], zoneBsCache;
    }
    zoneBs := zone(bs);
    zoneBs := zoneBs + [bs];
    cache := zoneBsCache[bs := zoneBs];
  }

  /** The new transfer stop is strictly closer to bs than the old one. */
  function IsClosest(geometry: Geometry, bs: Stop, oldT: Stop, newT: Stop): (r: bool)
    ensures r <==> Dist(geometry, bs, newT) < Dist(geometry, bs, oldT)
  {
    Dist(geometry, bs, oldT) > Dist(geometry, bs, newT)
  }

  /**
   * The four slots of a transfer record: the first transfer's stop on the analysed line and
   * on the target line, then the same for the last transfer. None stands for an empty slot.
   */
  datatype Transfer = Transfer(from1: Option<Stop>, to1: Option<Stop>, from2: Option<Stop>, to2: Option<Stop>)

  /** The first pair is filled, and the second pair is either filled or empty as a whole. */
  ghost predicate WellShaped(t: Transfer) {
    t.from1.Some? && t.to1.Some? && (t.from2.Some? <==> t.to2.Some?)
  }

  /** The two stops stand next to each other in the way (their first positions differ by one). */
  predicate Adjacent(way: seq<Stop>, a: Stop, b: Stop) {
    Abs(IndexOf(way, a) - IndexOf(way, b)) == 1
  }

  /** A record whose two transfers, if both present, are not one stop apart. */
  ghost predicate Settled(t: Transfer, way: seq<Stop>) {
    WellShaped(t) && (t.from2.Some? ==> !Adjacent(way, t.from1.value, t.from2.value))
  }

  /**
   * Folds a crossing (bs on the analysed line, transferBs on the target line) into an
   * existing record, with the precedence rules of the analysis.
   */
  function MergeCandidate(pairs: Transfer, bs: Stop, transferBs: Stop, way: seq<Stop>, tWay: seq<Stop>, geometry: Geometry)
    : (r: Transfer)
    requires WellShaped(pairs)
    ensures WellShaped(r)
    // only the crossing at hand ever enters a pair, and at most one pair changes
    ensures (r.from1 == pairs.from1 && r.to1 == pairs.to1) || (r.from1 == Some(bs) && r.to1 == Some(transferBs))
    ensures (r.from2 == pairs.from2 && r.to2 == pairs.to2) || (r.from2 == Some(bs) && r.to2 == Some(transferBs))
    ensures (r.from1 == pairs.from1 && r.to1 == pairs.to1) || (r.from2 == pairs.from2 && r.to2 == pairs.to2)
    // same stop as the first transfer: its transfer stop moves exactly when the new one is strictly closer
    ensures bs == pairs.from1.value ==>
      && r.from1 == pairs.from1 && r.from2 == pairs.from2 && r.to2 == pairs.to2
      && (r.to1 != pairs.to1 <==> Dist(geometry, bs, transferBs) < Dist(geometry, bs, pairs.to1.value))
    // next to the first transfer: the first pair is replaced exactly when the crossing is shorter
    ensures bs != pairs.from1.value && Adjacent(way, bs, pairs.from1.value) ==>
      && r.from2 == pairs.from2 && r.to2 == pairs.to2
      && (r.from1 != pairs.from1 <==>
          Dist(geometry, bs, transferBs) < Dist(geometry, pairs.from1.value, pairs.to1.value))
    // a separate crossing: it becomes the last transfer
    ensures bs != pairs.from1.value && !Adjacent(way, bs, pairs.from1.value) ==>
      && r.from1 == pairs.from1 && r.to1 == pairs.to1
      && (pairs.from2.None? ==> r.from2 == Some(bs) && r.to2 == Some(transferBs))
      && (pairs.from2.Some? && Adjacent(way, bs, pairs.from2.value) ==>
          (r.from2 != pairs.from2 <==>
           Dist(geometry, bs, transferBs) < Dist(geometry, pairs.from2.value, pairs.to2.value)))
      && (pairs.from2.Some? && !Adjacent(way, bs, pairs.from2.value) ==>
          (r.from2 == Some(bs) && r.to2 == Some(transferBs)) ||
          (r == pairs && IndexOf(tWay, transferBs) <= IndexOf(tWay, pairs.to2.value)))
      && (pairs.from2.Some? && !Adjacent(way, bs, pairs.from2.value) &&
          IndexOf(tWay, pairs.to2.value) < IndexOf(tWay, transferBs) ==>
          r.from2 == Some(bs) && r.to2 == Some(transferBs))
  {
    if bs == pairs.from1.value then
      if IsClosest(geometry, bs, pairs.to1.value, transferBs) then pairs.(to1 := Some(transferBs)) else pairs
    else if Abs(IndexOf(way, bs) - IndexOf(way, pairs.from1.value)) == 1 then
      if Dist(geometry, bs, transferBs) < Dist(geometry, pairs.from1.value, pairs.to1.value)
      then pairs.(from1 := Some(bs), to1 := Some(transferBs))
      else pairs
    else if pairs.from2.None? then
      pairs.(from2 := Some(bs), to2 := Some(transferBs))
    else if Abs(IndexOf(way, bs) - IndexOf(way, pairs.from2.value)) == 1 then
      if Dist(geometry, bs, transferBs) < Dist(geometry, pairs.from2.value, pairs.to2.value)
      then pairs.(from2 := Some(bs), to2 := Some(transferBs))
      else pairs
    else if IndexOf(tWay, pairs.to2.value) < IndexOf(tWay, transferBs) then
      pairs.(from2 := Some(bs), to2 := Some(transferBs))
    else pairs
  }

  /**
   * The final pass over one record: when both transfers are present and their stops on the
   * analysed line are one apart, only the shorter pair survives (the second on a tie).
   */
  function ClearAdjacentSecond(pairs: Transfer, way: seq<Stop>, geometry: Geometry): (r: Transfer)
    requires WellShaped(pairs)
    ensures Settled(r, way)
    ensures pairs.from2.None? || !Adjacent(way, pairs.from1.value, pairs.from2.value) ==> r == pairs
    ensures pairs.from2.Some? && Adjacent(way, pairs.from1.value, pairs.from2.value) ==>
      var d1 := Dist(geometry, pairs.from1.value, pairs.to1.value);
      var d2 := Dist(geometry, pairs.from2.value, pairs.to2.value);
      && r.from2 == None && r.to2 == None
      && ((r.from1 == pairs.from1 && r.to1 == pairs.to1 && d1 < d2) ||
          (r.from1 == pairs.from2 && r.to1 == pairs.to2 && d2 <= d1))
  {
    if pairs.from1.Some? && pairs.from2.Some? &&
       Abs(IndexOf(way, pairs.from1.value) - IndexOf(way, pairs.from2.value)) == 1
    then
      var d1 := Dist(geometry, pairs.from1.value, pairs.to1.value);
      var d2 := Dist(geometry, pairs.from2.value, pairs.to2.value);
      Transfer(if d1 < d2 then pairs.from1 else pairs.from2, if d1 < d2 then pairs.to1 else pairs.to2, None, None)
    else pairs
  }

  /** Every record of the map is well shaped. */
  ghost predicate AllWellShaped(tm: map<Path, Transfer>) {
    forall t :: t in tm ==> WellShaped(tm[t])
  }

  /**
   * The map after one crossing into transferPath: nothing for a line of the same route,
   * otherwise a new record, or the old one merged with the crossing.
   */
  function Crossing(tm: map<Path, Transfer>, path: Path, transferPath: Path, bs: Stop, transferBs: Stop, geometry: Geometry)
    : (r: map<Path, Transfer>)
    requires AllWellShaped(tm)
    ensures AllWellShaped(r)
  {
    if path.routeId == transferPath.routeId then tm
    else if transferPath in tm then
      tm[transferPath := MergeCandidate(tm[transferPath], bs, transferBs, path.way, transferPath.way, geometry)]
    else tm[transferPath := Transfer(Some(bs), Some(transferBs), None, None)]
  }

  /** The crossings from bs to transferBs into each of the listed lines, in list order. */
  function ScanPaths(tm: map<Path, Transfer>, path: Path, bs: Stop, transferBs: Stop, transferPaths: seq<Path>,
                     geometry: Geometry): (r: map<Path, Transfer>)
    requires AllWellShaped(tm)
    ensures AllWellShaped(r)
  {
    if transferPaths == [] then tm
    else
      var n := |transferPaths| - 1;
      Crossing(ScanPaths(tm, path, bs, transferBs, transferPaths[..n], geometry), path, transferPaths[n], bs, transferBs, geometry)
  }

  /** The crossings from bs through each stop of its zone list, in list order; a stop without an index entry adds none. */
  function ScanZone(tm: map<Path, Transfer>, path: Path, bs: Stop, nears: seq<Stop>, bsPaths: map<Stop, seq<Path>>,
                    geometry: Geometry): (r: map<Path, Transfer>)
    requires AllWellShaped(tm)
    ensures AllWellShaped(r)
  {
    if nears == [] then tm
    else
      var m := ScanZone(tm, path, bs, nears[..|nears| - 1], bsPaths, geometry);
      var transferBs := nears[|nears| - 1];
      if transferBs in bsPaths then ScanPaths(m, path, bs, transferBs, bsPaths[transferBs], geometry) else m
  }

  /** The transfer map after the way loop has visited indexes 0 .. n - 1, skipping the origin and placeholders. */
  function ScanWay(path: Path, n: nat, zone: RadiusSearch, bsPaths: map<Stop, seq<Path>>, geometry: Geometry)
    : (r: map<Path, Transfer>)
    requires n <= |path.way|
    ensures AllWellShaped(r)
  {
    if n == 0 then map[]
    else
      var m := ScanWay(path, n - 1, zone, bsPaths, geometry);
      var bs := path.way[n - 1];
      if n - 1 == 0 || bs.name == MockBs then m else ScanZone(m, path, bs, Near(zone, bs), bsPaths, geometry)
  }

  /** The final pass applied to every record. */
  function ClearAll(tm: map<Path, Transfer>, way: seq<Stop>, geometry: Geometry): map<Path, Transfer>
    requires AllWellShaped(tm)
  {
    map t | t in tm :: ClearAdjacentSecond(tm[t], way, geometry)
  }

  /** What analyzePath computes for a line: all crossings folded in way, zone and index order, then the final pass. */
  function Analysis(path: Path, zone: RadiusSearch, bsPaths: map<Stop, seq<Path>>, geometry: Geometry): map<Path, Transfer> {
    ClearAll(ScanWay(path, |path.way|, zone, bsPaths, geometry), path.way, geometry)
  }

  /** `from` is a stop of the line other than its origin and not a placeholder; `to` is in its zone and on t. */
  ghost predicate PairFrom(path: Path, t: Path, from: Stop, to: Stop, zone: RadiusSearch, bsPaths: map<Stop, seq<Path>>) {
    |path.way| > 0 && from in path.way[1..] && from.name != MockBs && to in Near(zone, from) && t in Lookup(bsPaths, to)
  }

  /** What a record for target t may hold: a well-shaped record of such pairs, for a line of another route. */
  ghost predicate Recorded(path: Path, t: Path, pairs: Transfer, zone: RadiusSearch, bsPaths: map<Stop, seq<Path>>) {
    && t.routeId != path.routeId
    && WellShaped(pairs)
    && PairFrom(path, t, pairs.from1.value, pairs.to1.value, zone, bsPaths)
    && (pairs.from2.Some? ==> PairFrom(path, t, pairs.from2.value, pairs.to2.value, zone, bsPaths))
  }

  /** Some stop of bs's access zone has t in its index entry. */
  ghost predicate ZoneHits(bs: Stop, t: Path, zone: RadiusSearch, bsPaths: map<Stop, seq<Path>>) {
    exists j :: 0 <= j < |Near(zone, bs)| && t in Lookup(bsPaths, Near(zone, bs)[j])
  }

  /** One of the analysed stops way[1..n), not a placeholder, reaches t through its access zone. */
  ghost predicate ReachedBefore(path: Path, t: Path, n: int, zone: RadiusSearch, bsPaths: map<Stop, seq<Path>>) {
    exists k :: 1 <= k < n && k < |path.way| && path.way[k].name != MockBs && ZoneHits(path.way[k], t, zone, bsPaths)
  }

  /** t is a transfer target of the line: another route, reached from some non-origin, non-placeholder stop. */
  ghost predicate IsTarget(path: Path, t: Path, zone: RadiusSearch, bsPaths: map<Stop, seq<Path>>) {
    t.routeId != path.routeId && ReachedBefore(path, t, |path.way|, zone, bsPaths)
  }

  /** A record whose pairs are old pairs or an admissible crossing is still admissible. */
  lemma MergedRecorded(path: Path, t: Path, pairs: Transfer, r: Transfer, bs: Stop, transferBs: Stop,
                       zone: RadiusSearch, bsPaths: map<Stop, seq<Path>>)
    requires Recorded(path, t, pairs, zone, bsPaths) && WellShaped(r)
    requires PairFrom(path, t, bs, transferBs, zone, bsPaths)
    requires (r.from1 == pairs.from1 && r.to1 == pairs.to1) || (r.from1 == Some(bs) && r.to1 == Some(transferBs))
    requires (r.from2 == pairs.from2 && r.to2 == pairs.to2) || (r.from2 == Some(bs) && r.to2 == Some(transferBs))
    ensures Recorded(path, t, r, zone, bsPaths)
  {
  }

  /** The final pass keeps a record admissible: its pairs are old pairs, or the second pair is gone. */
  lemma ClearedRecorded(path: Path, t: Path, pairs: Transfer, r: Transfer, zone: RadiusSearch, bsPaths: map<Stop, seq<Path>>)
    requires Recorded(path, t, pairs, zone, bsPaths) && Settled(r, path.way)
    requires (r.from1 == pairs.from1 && r.to1 == pairs.to1) || (r.from1 == pairs.from2 && r.to1 == pairs.to2)
    requires (r.from2 == pairs.from2 && r.to2 == pairs.to2) || r.from2.None?
    ensures Recorded(path, t, r, zone, bsPaths)
  {
  }

  /** Every record of the map is admissible for the line. */
  ghost predicate AllRecorded(path: Path, tm: map<Path, Transfer>, zone: RadiusSearch, bsPaths: map<Stop, seq<Path>>) {
    AllWellShaped(tm) && forall t :: t in tm ==> Recorded(path, t, tm[t], zone, bsPaths)
  }

  /** An admissible crossing keeps the map admissible, and adds its line unless that line is of the same route. */
  lemma CrossingRecorded(tm: map<Path, Transfer>, path: Path, transferPath: Path, bs: Stop, transferBs: Stop,
                         zone: RadiusSearch, bsPaths: map<Stop, seq<Path>>, geometry: Geometry)
    requires AllRecorded(path, tm, zone, bsPaths)
    requires PairFrom(path, transferPath, bs, transferBs, zone, bsPaths)
    ensures AllRecorded(path, Crossing(tm, path, transferPath, bs, transferBs, geometry), zone, bsPaths)
    ensures forall t :: t in Crossing(tm, path, transferPath, bs, transferBs, geometry) <==>
      t in tm || (t == transferPath && t.routeId != path.routeId)
  {
    if path.routeId != transferPath.routeId && transferPath in tm {
      var pairs := tm[transferPath];
      var r := MergeCandidate(pairs, bs, transferBs, path.way, transferPath.way, geometry);
      MergedRecorded(path, transferPath, pairs, r, bs, transferBs, zone, bsPaths);
    }
  }

  /** The crossings into the listed lines keep the map admissible and add exactly the lines of other routes. */
  lemma {:induction false} ScanPathsRecorded(tm: map<Path, Transfer>, path: Path, bs: Stop, transferBs: Stop,
                                             transferPaths: seq<Path>, zone: RadiusSearch, bsPaths: map<Stop, seq<Path>>,
                                             geometry: Geometry)
    requires AllRecorded(path, tm, zone, bsPaths)
    requires forall k :: 0 <= k < |transferPaths| ==> PairFrom(path, transferPaths[k], bs, transferBs, zone, bsPaths)
    ensures AllRecorded(path, ScanPaths(tm, path, bs, transferBs, transferPaths, geometry), zone, bsPaths)
    ensures forall t :: t in ScanPaths(tm, path, bs, transferBs, transferPaths, geometry) <==>
      t in tm || (t in transferPaths && t.routeId != path.routeId)
  {
    if transferPaths != [] {
      var n := |transferPaths| - 1;
      var init := transferPaths[..n];
      ScanPathsRecorded(tm, path, bs, transferBs, init, zone, bsPaths, geometry);
      var m := ScanPaths(tm, path, bs, transferBs, init, geometry);
      CrossingRecorded(m, path, transferPaths[n], bs, transferBs, zone, bsPaths, geometry);
      assert transferPaths == init + [transferPaths[n]];
    }
  }

  /** Some stop of `nears` has t in its index entry. */
  ghost predicate ListedIn(t: Path, nears: seq<Stop>, bsPaths: map<Stop, seq<Path>>) {
    exists k :: 0 <= k < |nears| && t in Lookup(bsPaths, nears[k])
  }

  /** A non-empty zone list lists t iff its front part does or its last stop does. */
  lemma ListedInStep(t: Path, nears: seq<Stop>, bsPaths: map<Stop, seq<Path>>)
    requires nears != []
    ensures ListedIn(t, nears, bsPaths) <==>
      ListedIn(t, nears[..|nears| - 1], bsPaths) || t in Lookup(bsPaths, nears[|nears| - 1])
  {
    var n := |nears| - 1;
    if ListedIn(t, nears, bsPaths) {
      var k :| 0 <= k < |nears| && t in Lookup(bsPaths, nears[k]);
      if k < n {
        assert nears[..n][k] == nears[k];
      }
    }
    if ListedIn(t, nears[..n], bsPaths) {
      var k :| 0 <= k < n && t in Lookup(bsPaths, nears[..n][k]);
      assert nears[k] == nears[..n][k];
    }
  }

  /** The crossings through the zone stops keep the map admissible and add exactly the lines of other routes listed for them. */
  lemma {:induction false} ScanZoneRecorded(tm: map<Path, Transfer>, path: Path, bs: Stop, nears: seq<Stop>,
                                            zone: RadiusSearch, bsPaths: map<Stop, seq<Path>>, geometry: Geometry)
    requires AllRecorded(path, tm, zone, bsPaths)
    requires |path.way| > 0 && bs in path.way[1..] && bs.name != MockBs
    requires forall k :: 0 <= k < |nears| ==> nears[k] in Near(zone, bs)
    ensures AllRecorded(path, ScanZone(tm, path, bs, nears, bsPaths, geometry), zone, bsPaths)
    ensures forall t :: t in ScanZone(tm, path, bs, nears, bsPaths, geometry) <==>
      t in tm || (t.routeId != path.routeId && ListedIn(t, nears, bsPaths))
  {
    if nears != [] {
      var n := |nears| - 1;
      var init := nears[..n];
      var transferBs := nears[n];
      ScanZoneRecorded(tm, path, bs, init, zone, bsPaths, geometry);
      var m := ScanZone(tm, path, bs, init, bsPaths, geometry);
      if transferBs in bsPaths {
        var transferPaths := bsPaths[transferBs];
        forall k | 0 <= k < |transferPaths|
          ensures PairFrom(path, transferPaths[k], bs, transferBs, zone, bsPaths)
        {
          assert transferPaths[k] in Lookup(bsPaths, transferBs);
        }
        ScanPathsRecorded(m, path, bs, transferBs, transferPaths, zone, bsPaths, geometry);
      }
      forall t {
        ListedInStep(t, nears, bsPaths);
      }
    }
  }

  lemma ReachedBeforeStep(path: Path, t: Path, i: int, zone: RadiusSearch, bsPaths: map<Stop, seq<Path>>)
    requires 0 <= i < |path.way|
    ensures ReachedBefore(path, t, i + 1, zone, bsPaths) <==>
      ReachedBefore(path, t, i, zone, bsPaths) ||
      (1 <= i && path.way[i].name != MockBs && ZoneHits(path.way[i], t, zone, bsPaths))
  {
    if ReachedBefore(path, t, i + 1, zone, bsPaths) {
      var k :| 1 <= k < i + 1 && k < |path.way| && path.way[k].name != MockBs && ZoneHits(path.way[k], t, zone, bsPaths);
      if k < i {
        assert ReachedBefore(path, t, i, zone, bsPaths);
      }
    }
  }

  /** The way loop's map after n indexes is admissible and holds exactly the lines of other routes reached so far. */
  lemma {:induction false} ScanWayRecorded(path: Path, n: nat, zone: RadiusSearch, bsPaths: map<Stop, seq<Path>>,
                                           geometry: Geometry)
    requires n <= |path.way|
    ensures AllRecorded(path, ScanWay(path, n, zone, bsPaths, geometry), zone, bsPaths)
    ensures forall t :: t in ScanWay(path, n, zone, bsPaths, geometry) <==>
      t.routeId != path.routeId && ReachedBefore(path, t, n, zone, bsPaths)
  {
    if n > 0 {
      var i := n - 1;
      ScanWayRecorded(path, i, zone, bsPaths, geometry);
      forall t {
        ReachedBeforeStep(path, t, i, zone, bsPaths);
      }
      var bs := path.way[i];
      if i != 0 && bs.name != MockBs {
        assert path.way[1..][i - 1] == bs;
        var m := ScanWay(path, i, zone, bsPaths, geometry);
        ScanZoneRecorded(m, path, bs, Near(zone, bs), zone, bsPaths, geometry);
      }
    }
  }

  /** analyzePath's records: exactly the transfer targets, each admissible and settled. */
  lemma AnalysisRecorded(path: Path, zone: RadiusSearch, bsPaths: map<Stop, seq<Path>>, geometry: Geometry)
    ensures forall t :: t in Analysis(path, zone, bsPaths, geometry) <==> IsTarget(path, t, zone, bsPaths)
    ensures forall t :: t in Analysis(path, zone, bsPaths, geometry) ==>
      Recorded(path, t, Analysis(path, zone, bsPaths, geometry)[t], zone, bsPaths) &&
      Settled(Analysis(path, zone, bsPaths, geometry)[t], path.way)
  {
    var scanned := ScanWay(path, |path.way|, zone, bsPaths, geometry);
    ScanWayRecorded(path, |path.way|, zone, bsPaths, geometry);
    var a := Analysis(path, zone, bsPaths, geometry);
    forall t | t in a
      ensures Recorded(path, t, a[t], zone, bsPaths) && Settled(a[t], path.way)
    {
      ClearedRecorded(path, t, scanned[t], a[t], zone, bsPaths);
    }
  }

  /** One crossing into a line of another route: a new record, or the old one merged with it. */
  method RecordCrossing(transferMap: map<Path, Transfer>, path: Path, transferPath: Path, bs: Stop, transferBs: Stop,
                        geometry: Geometry)
    returns (tm: map<Path, Transfer>)
    requires path.routeId != transferPath.routeId
    requires AllWellShaped(transferMap)
    ensures tm.Keys == transferMap.Keys + {transferPath}
    ensures forall t :: t in transferMap && t != transferPath ==> tm[t] == transferMap[t]
    ensures transferPath !in transferMap ==> tm[transferPath] == Transfer(Some(bs), Some(transferBs), None, None)
    ensures transferPath in transferMap ==>
      tm[transferPath] == MergeCandidate(transferMap[transferPath], bs, transferBs, path.way, transferPath.way, geometry)
    ensures tm == Crossing(transferMap, path, transferPath, bs, transferBs, geometry)
  {
    if transferPath in transferMap {
      var pairs := MergeCandidate(transferMap[transferPath], bs, transferBs, path.way, transferPath.way, geometry);
      tm := transferMap[transferPath := pairs];
    } else {
      tm := transferMap[transferPath := Transfer(Some(bs), Some(transferBs), None, None)];
    }
  }

  /** Processing the lines listed for one zone stop: each line of another route gets or updates its record. */
  method ScanTransferPaths(transferMap: map<Path, Transfer>, path: Path, bs: Stop, transferBs: Stop,
                           transferPaths: seq<Path>, ghost zone: RadiusSearch, ghost bsPaths: map<Stop, seq<Path>>,
                           geometry: Geometry)
    returns (tm: map<Path, Transfer>)
    requires |path.way| > 0 && bs in path.way[1..] && bs.name != MockBs && transferBs in Near(zone, bs)
    requires transferPaths == Lookup(bsPaths, transferBs)
    requires AllRecorded(path, transferMap, zone, bsPaths)
    ensures tm == ScanPaths(transferMap, path, bs, transferBs, transferPaths, geometry)
    ensures forall t :: t in tm <==> t in transferMap || (t in transferPaths && t.routeId != path.routeId)
    ensures AllRecorded(path, tm, zone, bsPaths)
  {
    tm := transferMap;
    var k := 0;
    while k < |transferPaths|
      invariant 0 <= k <= |transferPaths|
      invariant tm == ScanPaths(transferMap, path, bs, transferBs, transferPaths[..k], geometry)
    {
      var transferPath := transferPaths[k];
      assert transferPaths[..k + 1][..k] == transferPaths[..k];
      if path.routeId != transferPath.routeId {
        tm := RecordCrossing(tm, path, transferPath, bs, transferBs, geometry);
      }
      k := k + 1;
    }
    assert transferPaths[..k] == transferPaths;
    forall k | 0 <= k < |transferPaths|
      ensures PairFrom(path, transferPaths[k], bs, transferBs, zone, bsPaths)
    {
      assert transferPaths[k] in Lookup(bsPaths, transferBs);
    }
    ScanPathsRecorded(transferMap, path, bs, transferBs, transferPaths, zone, bsPaths, geometry);
  }

  /** One more zone stop extends the fold by the crossings through that stop, if it has an index entry. */
  lemma ScanZoneStep(tm: map<Path, Transfer>, path: Path, bs: Stop, nears: seq<Stop>, j: int,
                     bsPaths: map<Stop, seq<Path>>, geometry: Geometry)
    requires AllWellShaped(tm) && 0 <= j < |nears|
    ensures ScanZone(tm, path, bs, nears[..j + 1], bsPaths, geometry) ==
      var m := ScanZone(tm, path, bs, nears[..j], bsPaths, geometry);
      if nears[j] in bsPaths then ScanPaths(m, path, bs, nears[j], bsPaths[nears[j]], geometry) else m
  {
    assert nears[..j + 1][..j] == nears[..j];
  }

  /** Processing one analysed stop: every stop of its access zone, and the lines listed for it. */
  method ScanNearStops(transferMap: map<Path, Transfer>, path: Path, bs: Stop, nears: seq<Stop>,
                       bsPaths: map<Stop, seq<Path>>, ghost zone: RadiusSearch, geometry: Geometry)
    returns (tm: map<Path, Transfer>)
    requires |path.way| > 0 && bs in path.way[1..] && bs.name != MockBs && nears == Near(zone, bs)
    requires AllRecorded(path, transferMap, zone, bsPaths)
    ensures tm == ScanZone(transferMap, path, bs, nears, bsPaths, geometry)
    ensures forall t :: t in tm <==> t in transferMap || (t.routeId != path.routeId && ZoneHits(bs, t, zone, bsPaths))
    ensures AllRecorded(path, tm, zone, bsPaths)
  {
    tm := transferMap;
    var j := 0;
    while j < |nears|
      invariant 0 <= j <= |nears|
      invariant tm == ScanZone(transferMap, path, bs, nears[..j], bsPaths, geometry)
      invariant AllRecorded(path, tm, zone, bsPaths)
    {
      var transferBs := nears[j];
      ScanZoneStep(transferMap, path, bs, nears, j, bsPaths, geometry);
      if transferBs in bsPaths {
        var transferPaths := bsPaths[transferBs];
        tm := ScanTransferPaths(tm, path, bs, transferBs, transferPaths, zone, bsPaths, geometry);
      }
      j := j + 1;
    }
    assert nears[..j] == nears;
    ScanZoneRecorded(transferMap, path, bs, nears, zone, bsPaths, geometry);
  }

  /** The scan over the way: a record for exactly the transfer targets, each holding admissible pairs. */
  method CollectTransfers(path: Path, accessZoneBsCache: map<Stop, seq<Stop>>, bsPaths: map<Stop, seq<Path>>,
                          zone: RadiusSearch, geometry: Geometry)
    returns (transferMap: map<Path, Transfer>, cache: map<Stop, seq<Stop>>)
    requires CacheValid(accessZoneBsCache, zone)
    ensures CacheValid(cache, zone)
    ensures transferMap == ScanWay(path, |path.way|, zone, bsPaths, geometry)
    ensures forall t :: t in transferMap <==> IsTarget(path, t, zone, bsPaths)
    ensures AllRecorded(path, transferMap, zone, bsPaths)
  {
    transferMap := map[];
    cache := accessZoneBsCache;
    var way := path.way;
    var i := 0;
    while i < |way|
      invariant 0 <= i <= |way|
      invariant CacheValid(cache, zone)
      invariant transferMap == ScanWay(path, i, zone, bsPaths, geometry)
    {
      ScanWayRecorded(path, i, zone, bsPaths, geometry);
      if i != 0 {
        var bs := way[i];
        if bs.name != MockBs {
          var nears;
          nears, cache := AccessZoneBusstops(bs, zone, cache);
          assert way[1..][i - 1] == bs;
          transferMap := ScanNearStops(transferMap, path, bs, nears, bsPaths, zone, geometry);
        }
      }
      i := i + 1;
    }
    ScanWayRecorded(path, i, zone, bsPaths, geometry);
  }

  /** The final pass over all records: each record becomes what ClearAdjacentSecond makes of it. */
  method ClearAdjacentTransfers(transferMap: map<Path, Transfer>, way: seq<Stop>, geometry: Geometry)
    returns (tm: map<Path, Transfer>)
    requires AllWellShaped(transferMap)
    ensures tm == ClearAll(transferMap, way, geometry)
    ensures tm.Keys == transferMap.Keys
    ensures forall t :: t in tm ==> tm[t] == ClearAdjacentSecond(transferMap[t], way, geometry) && Settled(tm[t], way)
  {
    tm := transferMap;
    var todo := transferMap.Keys;
    while todo != {}
      invariant todo <= transferMap.Keys && tm.Keys == transferMap.Keys
      invariant forall t :: t in todo ==> tm[t] == transferMap[t]
      invariant forall t :: t in tm && t !in todo ==> tm[t] == ClearAdjacentSecond(transferMap[t], way, geometry)
      decreases todo
    {
      var tPath :| tPath in todo;
      var pairs := tm[tPath];
      if pairs.from1.Some? && pairs.from2.Some? {
        var diff := IndexOf(way, pairs.from1.value) - IndexOf(way, pairs.from2.value);
        if Abs(diff) == 1 {
          var d1 := Dist(geometry, pairs.from1.value, pairs.to1.value);
          var d2 := Dist(geometry, pairs.from2.value, pairs.to2.value);
          pairs := pairs.(from1 := if d1 < d2 then pairs.from1 else pairs.from2);
          pairs := pairs.(to1 := if d1 < d2 then pairs.to1 else pairs.to2);
          pairs := pairs.(from2 := None, to2 := None);
        }
      }
      tm := tm[tPath := pairs];
      todo := todo - {tPath};
    }
  }

  /**
   * analyzePath: for every line of another route that a non-origin, non-placeholder stop reaches
   * through its access zone, the record the crossings leave after the precedence rules and the
   * final pass; each record holds admissible pairs and, when it holds two, their stops are not one apart.
   */
  method AnalyzePath(path: Path, accessZoneBsCache: map<Stop, seq<Stop>>, bsPaths: map<Stop, seq<Path>>,
                     zone: RadiusSearch, geometry: Geometry)
    returns (transferMap: map<Path, Transfer>, cache: map<Stop, seq<Stop>>)
    requires CacheValid(accessZoneBsCache, zone)
    ensures CacheValid(cache, zone)
    ensures transferMap == Analysis(path, zone, bsPaths, geometry)
    ensures forall t :: t in transferMap <==> IsTarget(path, t, zone, bsPaths)
    ensures forall t :: t in transferMap ==> Recorded(path, t, transferMap[t], zone, bsPaths)
    ensures forall t :: t in transferMap ==> Settled(transferMap[t], path.way)
  {
    var collected;
    collected, cache := CollectTransfers(path, accessZoneBsCache, bsPaths, zone, geometry);
    transferMap := ClearAdjacentTransfers(collected, path.way, geometry);
    AnalysisRecorded(path, zone, bsPaths, geometry);
  }
}
