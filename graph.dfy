/**
 * The path graph: one vertex per transit line, in the order of the sorted line list,
 * and for every vertex a list of transfer records to other lines.
 */
module PathGraph {
  import opened Entities
  import opened Lists

  /**
   * One transfer record of an adjacency list: the target vertex w, then the way position
   * of the first transfer stop on the vertex's own line (vb1) and on w's line (wb1), and
   * the same two positions for an optional second transfer.
   */
  datatype Edge = Edge(w: int, vb1: int, wb1: int, vb2: Option<int>, wb2: Option<int>)

  /** Total length of all adjacency lists. */
  function SumDegrees(lists: seq<seq<Edge>>): nat {
    if lists == [] then 0 else SumDegrees(lists[..|lists| - 1]) + |lists[|lists| - 1]|
  }

  /** Number of records in es whose target is v. */
  function LoopsAt(es: seq<Edge>, v: int): nat {
    if es == [] then 0
    else LoopsAt(es[..|es| - 1], v) + (if es[|es| - 1].w == v then 1 else 0)
  }

  /** Number of records, over all vertices, that lead back to their own vertex. */
  function SelfLoops(lists: seq<seq<Edge>>): nat {
    if lists == [] then 0
    else SelfLoops(lists[..|lists| - 1]) + LoopsAt(lists[|lists| - 1], |lists| - 1)
  }

  lemma {:induction false} LoopsAtBound(es: seq<Edge>, v: int)
    ensures LoopsAt(es, v) <= |es|
  {
    if es != [] {
      LoopsAtBound(es[..|es| - 1], v);
    }
  }

  /** Self-loops are a part of all records, so there are never more of them than edges. */
  lemma {:induction false} SelfLoopsBound(lists: seq<seq<Edge>>)
    ensures SelfLoops(lists) <= SumDegrees(lists)
  {
    if lists != [] {
      SelfLoopsBound(lists[..|lists| - 1]);
      LoopsAtBound(lists[|lists| - 1], |lists| - 1);
    }
  }

  /** Appending one record to one list adds one to the total. */
  lemma {:induction false} SumDegreesAppend(lists: seq<seq<Edge>>, v: int, e: Edge)
    requires 0 <= v < |lists|
    ensures SumDegrees(lists[v := lists[v] + [e]]) == SumDegrees(lists) + 1
  {
    var n := |lists|;
    var updated := lists[v := lists[v] + [e]];
    if v < n - 1 {
      assert updated[..n - 1] == lists[..n - 1][v := lists[v] + [e]];
      SumDegreesAppend(lists[..n - 1], v, e);
    } else {
      assert updated[..n - 1] == lists[..n - 1];
    }
  }

  /** A list of empty adjacency lists holds no records. */
  lemma {:induction false} SumDegreesEmpty(lists: seq<seq<Edge>>)
    requires forall v :: 0 <= v < |lists| ==> lists[v] == []
    ensures SumDegrees(lists) == 0
  {
    if lists != [] {
      SumDegreesEmpty(lists[..|lists| - 1]);
    }
  }

  class Graph {
    /** The lines, in vertex order. */
    const paths: seq<Path>
    /** Adjacency lists, one per vertex. */
    const adj: array<seq<Edge>>
    /** Number of records added so far. */
    var edges: int
    /** Optional graph of the metro lines. */
    var metroGraph: Graph?

    /** One adjacency list per line, and the edge counter equals the total number of records. */
    ghost predicate Valid()
      reads this, adj
    {
      adj.Length == |paths| && edges == SumDegrees(adj[..])
    }

    /** A graph over the given sorted lines, with no edges. */
    constructor (sortedPaths: seq<Path>)
      ensures Valid() && fresh(adj)
      ensures paths == sortedPaths && adj.Length == |sortedPaths|
      ensures edges == 0 && metroGraph == null
      ensures forall v :: 0 <= v < adj.Length ==> adj[v] == []
    {
      paths := sortedPaths;
      adj := new seq<Edge>[|sortedPaths|];
      edges := 0;
      metroGraph := null;
      new;
      var i := 0;
      while i < adj.Length
        invariant 0 <= i <= adj.Length
        invariant forall v :: 0 <= v < i ==> adj[v] == []
        modifies adj
      {
        adj[i] := [];
        i := i + 1;
      }
      SumDegreesEmpty(adj[..]);
    }

    /** Appends one transfer record to the list of v and counts it. */
    method AddEdge(v: int, w: int, vb1: int, wb1: int, vb2: Option<int>, wb2: Option<int>)
      requires Valid() && 0 <= v < adj.Length
      modifies this`edges, adj
      ensures Valid()
      ensures adj[v] == old(adj[v]) + [Edge(w, vb1, wb1, vb2, wb2)]
      ensures forall u :: 0 <= u < adj.Length && u != v ==> adj[u] == old(adj[u])
      ensures edges == old(edges) + 1
    {
      SumDegreesAppend(adj[..], v, Edge(w, vb1, wb1, vb2, wb2));
      adj[v] := adj[v] + [Edge(w, vb1, wb1, vb2, wb2)];
      edges := edges + 1;
    }

    /** Number of vertices: one per line. */
    function Vertices(): (n: nat)
      reads this, adj
      requires Valid()
      ensures n == |paths|
    {
      adj.Length
    }

    /** The edge counter, which always equals the sum of all vertex degrees. */
    function Edges(): (e: int)
      reads this, adj
      requires Valid()
      ensures e == SumDegrees(adj[..])
    {
      edges
    }

    function Adj(v: int): seq<Edge>
      reads this, adj
      requires 0 <= v < adj.Length
    {
      adj[v]
    }

    function VertexDegree(v: int): nat
      reads this, adj
      requires 0 <= v < adj.Length
    {
      |adj[v]|
    }

    /** Vertex of a line: its position in the line list, or -1 for a line the graph does not hold. */
    function IndexOfPath(p: Path): (i: int)
      ensures -1 <= i < |paths|
      ensures i == -1 <==> p !in paths
      ensures 0 <= i ==> paths[i] == p && p !in paths[..i]
    {
      IndexOf(paths, p)
    }

    function GetPath(i: int): Path
      requires 0 <= i < |paths|
    {
      paths[i]
    }

    function GetPaths(): seq<Path> {
      paths
    }

    /** With pairwise different lines, the vertex of the line at vertex i is i. */
    lemma IndexOfGetPath(i: int)
      requires Distinct(paths) && 0 <= i < |paths|
      ensures IndexOfPath(GetPath(i)) == i
    {
      IndexOfDistinct(paths, i);
    }

    /** Counts the records whose target is the vertex whose list holds them. */
    method NumbersOfSelfLoops() returns (count: int)
      requires Valid()
      ensures count == SelfLoops(adj[..])
      ensures 0 <= count <= Edges()
    {
      count := 0;
      var v := 0;
      while v < adj.Length
        invariant 0 <= v <= adj.Length
        invariant count == SelfLoops(adj[..v])
      {
        var es := adj[v];
        var k := 0;
        while k < |es|
          invariant 0 <= k <= |es|
          invariant count == SelfLoops(adj[..v]) + LoopsAt(es[..k], v)
        {
          assert es[..k + 1][..k] == es[..k];
          if v == es[k].w {
            count := count + 1;
          }
          k := k + 1;
        }
        assert es[..k] == es;
        assert adj[..v + 1][..v] == adj[..v];
        v := v + 1;
      }
      assert adj[..v] == adj[..];
      SelfLoopsBound(adj[..]);
    }

    /** Integer average degree 2E/V, and 0 for a graph without vertices. */
    function AvgDegree(): (r: int)
      reads this, adj
      requires Valid()
      ensures adj.Length == 0 ==> r == 0
      ensures adj.Length > 0 ==> 0 <= r * adj.Length <= 2 * edges < (r + 1) * adj.Length
      ensures edges == 0 ==> r == 0
    {
      if adj.Length == 0 then 0 else 2 * edges / adj.Length
    }

    /** The largest vertex degree, and 0 for a graph without vertices. */
    method MaxDegree() returns (max: int)
      requires Valid()
      ensures forall v :: 0 <= v < adj.Length ==> VertexDegree(v) <= max
      ensures adj.Length == 0 ==> max == 0
      ensures adj.Length > 0 ==> exists v :: 0 <= v < adj.Length && max == VertexDegree(v)
    {
      max := 0;
      var v := 0;
      while v < adj.Length
        invariant 0 <= v <= adj.Length
        invariant forall u :: 0 <= u < v ==> VertexDegree(u) <= max
        invariant v == 0 ==> max == 0
        invariant v > 0 ==> exists u :: 0 <= u < v && max == VertexDegree(u)
      {
        if VertexDegree(v) > max {
          max := VertexDegree(v);
        }
        v := v + 1;
      }
    }

    /** Associates the metro graph; nothing else changes. */
    method SetMetroGraph(graph: Graph?)
      modifies this`metroGraph
      ensures GetMetroGraph() == graph
      ensures edges == old(edges)
      ensures unchanged(adj)
    {
      metroGraph := graph;
    }

    function GetMetroGraph(): Graph?
      reads this
    {
      metroGraph
    }
  }
}
