/**
 * The concrete parts of the breadth-first search engine: the post-filter that drops journeys
 * which transfer back into the departure zone, and the task that transforms one portion of
 * search decisions into journeys.
 */
module Bfs {
  import opened Entities
  import opened PathGraph

  /** A found journey: its ordered way segments, one list of stops per line ridden. */
  datatype OptimalPath = OptimalPath(way: seq<seq<Stop>>)

  /** Reading the first stop of the second segment fails: the segment is empty. */
  predicate Malformed(op: OptimalPath) {
    |op.way| > 1 && op.way[1] == []
  }

  /** The journey's second segment starts at one of the start stops. */
  predicate Unreal(op: OptimalPath, startBs: seq<Stop>) {
    |op.way| > 1 && op.way[1] != [] && op.way[1][0] in startBs
  }

  /** The journeys of s that are unreal, in their order in s. */
  function UnrealOf(s: seq<OptimalPath>, startBs: seq<Stop>): seq<OptimalPath> {
    if s == [] then []
    else UnrealOf(s[..|s| - 1], startBs) + (if Unreal(s[|s| - 1], startBs) then [s[|s| - 1]] else [])
  }

  /** java.util.List.removeAll: every element equal to some element of `drop` goes, the rest keep their order. */
  function ListRemoveAll(s: seq<OptimalPath>, drop: seq<OptimalPath>): (r: seq<OptimalPath>)
    ensures forall x :: x in r <==> x in s && x !in drop
  {
    if s == [] then []
    else if s[0] in drop then ListRemoveAll(s[1..], drop)
    else [s[0]] + ListRemoveAll(s[1..], drop)
  }

  /** The journeys of s that are not unreal, in their order in s. */
  function Realistic(s: seq<OptimalPath>, startBs: seq<Stop>): seq<OptimalPath> {
    if s == [] then []
    else (if Unreal(s[0], startBs) then [] else [s[0]]) + Realistic(s[1..], startBs)
  }

  lemma {:induction false} UnrealOfMembers(s: seq<OptimalPath>, startBs: seq<Stop>)
    ensures forall x :: x in UnrealOf(s, startBs) <==> x in s && Unreal(x, startBs)
  {
    if s != [] {
      UnrealOfMembers(s[..|s| - 1], startBs);
      assert s == s[..|s| - 1] + [s[|s| - 1]];
    }
  }

  /** Removing the unreal journeys that were collected leaves exactly the realistic ones. */
  lemma {:induction false} RemoveUnrealIsRealistic(s: seq<OptimalPath>, startBs: seq<Stop>)
    ensures ListRemoveAll(s, UnrealOf(s, startBs)) == Realistic(s, startBs)
  {
    UnrealOfMembers(s, startBs);
    RemoveMatching(s, UnrealOf(s, startBs), startBs);
  }

  lemma {:induction false} RemoveMatching(s: seq<OptimalPath>, drop: seq<OptimalPath>, startBs: seq<Stop>)
    requires forall x :: x in s ==> (x in drop <==> Unreal(x, startBs))
    ensures ListRemoveAll(s, drop) == Realistic(s, startBs)
  {
    if s != [] {
      RemoveMatching(s[1..], drop, startBs);
    }
  }

  /** A journey survives iff it is in the list and its second segment does not start in the start zone. */
  lemma {:induction false} RealisticMembers(s: seq<OptimalPath>, startBs: seq<Stop>)
    ensures forall x :: x in Realistic(s, startBs) <==> x in s && !Unreal(x, startBs)
  {
    if s != [] {
      RealisticMembers(s[1..], startBs);
      assert s == [s[0]] + s[1..];
    }
  }

  /** Survivors keep their multiplicity; filtered journeys are gone entirely. */
  lemma {:induction false} RealisticCounts(s: seq<OptimalPath>, startBs: seq<Stop>, x: OptimalPath)
    ensures multiset(Realistic(s, startBs))[x] == if Unreal(x, startBs) then 0 else multiset(s)[x]
  {
    if s != [] {
      RealisticCounts(s[1..], startBs, x);
      assert s == [s[0]] + s[1..];
    }
  }

  /** Filtering distributes over concatenation: survivors keep their relative order. */
  lemma {:induction false} RealisticAppend(a: seq<OptimalPath>, b: seq<OptimalPath>, startBs: seq<Stop>)
    ensures Realistic(a + b, startBs) == Realistic(a, startBs) + Realistic(b, startBs)
  {
    if a != [] {
      assert (a + b)[1..] == a[1..] + b;
      RealisticAppend(a[1..], b, startBs);
    } else {
      assert a + b == b;
    }
  }

  /** A list without unreal journeys is left as it is; in particular journeys of at most one segment always stay. */
  lemma {:induction false} RealisticUnchanged(s: seq<OptimalPath>, startBs: seq<Stop>)
    requires forall i :: 0 <= i < |s| ==> !Unreal(s[i], startBs)
    ensures Realistic(s, startBs) == s
  {
    if s != [] {
      RealisticUnchanged(s[1..], startBs);
    }
  }

  /**
   * The scan of clearUnrealResults: collects the unreal journeys in order, and reports
   * failure when some journey has an empty second segment (reading its first stop throws).
   */
  method CollectUnreal(dirty: seq<OptimalPath>, startBs: seq<Stop>) returns (unreal: seq<OptimalPath>, failed: bool)
    ensures failed <==> exists i :: 0 <= i < |dirty| && Malformed(dirty[i])
    ensures !failed ==> unreal == UnrealOf(dirty, startBs)
  {
    unreal := [];
    var i := 0;
    while i < |dirty|
      invariant 0 <= i <= |dirty|
      invariant forall k :: 0 <= k < i ==> !Malformed(dirty[k])
      invariant unreal == UnrealOf(dirty[..i], startBs)
    {
      var op := dirty[i];
      assert dirty[..i + 1][..i] == dirty[..i];
      if |op.way| > 1 {
        if op.way[1] == [] {
          return unreal, true;
        }
        if op.way[1][0] in startBs {
          unreal := unreal + [op];
          i := i + 1;
          continue;
        }
      }
      i := i + 1;
    }
    assert dirty[..i] == dirty;
    failed := false;
  }

  /** The mutable result list the search passes around (java.util.List<OptimalPath>). */
  class ResultList {
    var elements: seq<OptimalPath>

    constructor (items: seq<OptimalPath>)
      ensures elements == items
    {
      elements := items;
    }

    method RemoveAll(drop: seq<OptimalPath>)
      modifies this
      ensures elements == ListRemoveAll(old(elements), drop)
    {
      elements := ListRemoveAll(elements, drop);
    }
  }

  /**
   * Drops from `dirty` every journey whose second segment starts at a start stop. On an
   * empty second segment the scan fails and `dirty` is left as it was.
   */
  method ClearUnrealResults(dirty: ResultList, startBs: seq<Stop>) returns (failed: bool)
    modifies dirty
    ensures failed <==> exists i :: 0 <= i < |old(dirty.elements)| && Malformed(old(dirty.elements)[i])
    ensures failed ==> dirty.elements == old(dirty.elements)
    ensures !failed ==> dirty.elements == Realistic(old(dirty.elements), startBs)
  {
    var unreal;
    unreal, failed := CollectUnreal(dirty.elements, startBs);
    if failed {
      return;
    }
    if unreal != [] {
      RemoveUnrealIsRealistic(dirty.elements, startBs);
      dirty.RemoveAll(unreal);
    } else {
      UnrealOfMembers(dirty.elements, startBs);
      RealisticUnchanged(dirty.elements, startBs);
    }
  }

  /** One portion of search decisions, transformed by the engine's transformDecisions. */
  class TransformDecisionsTask<Decision> {
    const decisions: seq<Decision>
    const graph: Graph
    /** The engine's transformDecisions, which concrete search strategies supply. */
    const transformDecisions: (seq<Decision>, Graph) -> seq<OptimalPath>

    constructor (pDecisions: seq<Decision>, g: Graph, transform: (seq<Decision>, Graph) -> seq<OptimalPath>)
      ensures decisions == pDecisions && graph == g && transformDecisions == transform
    {
      decisions := pDecisions;
      graph := g;
      transformDecisions := transform;
    }

    /** The task's result is the engine's transformation of exactly its own portion. */
    method Call() returns (r: seq<OptimalPath>)
      ensures r == transformDecisions(decisions, graph)
    {
      r := transformDecisions(decisions, graph);
    }
  }
}
