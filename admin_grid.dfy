/** The bus stop list of the admin UI's path editor: reordering and deletion of stops. */
module AdminGrid {
  import opened Entities
  import opened Lists

  /** Array.prototype.splice with in-range arguments: delete `deleteCount` elements at `start`, insert `items` there. */
  function Splice(s: seq<Stop>, start: int, deleteCount: int, items: seq<Stop>): seq<Stop>
    requires 0 <= start && 0 <= deleteCount && start + deleteCount <= |s|
  {
    s[..start] + items + s[start + deleteCount..]
  }

  /**
   * The list with the element at `from` taken out and put back at `to`: that element lands
   * at `to`, the ones between the two positions shift by one towards `from`, the rest stay.
   */
  function Moved(s: seq<Stop>, from: int, to: int): (r: seq<Stop>)
    requires 0 <= from < |s| && 0 <= to < |s|
  {
    seq(|s|, k requires 0 <= k < |s| =>
      if k == to then s[from]
      else if from < to && from <= k < to then s[k + 1]
      else if to < from && to < k <= from then s[k - 1]
      else s[k])
  }

  /** The two splices of moveBusStop compute Moved. */
  lemma SpliceTwiceIsMoved(s: seq<Stop>, from: int, to: int)
    requires 0 <= from < |s| && 0 <= to < |s|
    ensures Splice(Splice(s, from, 1, []), to, 0, [s[from]]) == Moved(s, from, to)
  {
    var t := Splice(s, from, 1, []);
    assert forall k :: 0 <= k < |t| ==> t[k] == if k < from then s[k] else s[k + 1];
    var r := Splice(t, to, 0, [s[from]]);
    assert forall k :: 0 <= k < |r| ==> r[k] == if k < to then t[k] else if k == to then s[from] else t[k - 1];
  }

  /** Moving an element keeps the length and the elements, and puts the moved element at `to`. */
  lemma MovedIsPermutation(s: seq<Stop>, from: int, to: int)
    requires 0 <= from < |s| && 0 <= to < |s|
    ensures |Moved(s, from, to)| == |s|
    ensures multiset(Moved(s, from, to)) == multiset(s)
    ensures Moved(s, from, to)[to] == s[from]
  {
    SpliceTwiceIsMoved(s, from, to);
    var t := Splice(s, from, 1, []);
    assert s == s[..from] + [s[from]] + s[from + 1..];
    assert multiset(t) + multiset{s[from]} == multiset(s);
    var r := Splice(t, to, 0, [s[from]]);
    assert t == t[..to] + t[to..];
    assert multiset(r) == multiset(t[..to]) + multiset{s[from]} + multiset(t[to..]);
  }

  /** Moving by at most one position swaps the two elements and leaves every other position alone. */
  lemma MovedNeighbourIsSwap(s: seq<Stop>, from: int, to: int)
    requires 0 <= from < |s| && 0 <= to < |s| && -1 <= from - to <= 1
    ensures Moved(s, from, to) == s[from := s[to]][to := s[from]]
  {
  }

  /** The stops whose id differs from `targetId`, in their original order. */
  function WithoutId(s: seq<Stop>, targetId: int): (r: seq<Stop>)
    ensures forall x :: x in r <==> x in s && x.id != targetId
    ensures |r| <= |s|
  {
    if s == [] then []
    else if s[0].id != targetId then [s[0]] + WithoutId(s[1..], targetId)
    else WithoutId(s[1..], targetId)
  }

  /** Deleting by id keeps every other stop as often as it occurred and drops all stops with that id. */
  lemma {:induction false} WithoutIdCounts(s: seq<Stop>, targetId: int, x: Stop)
    ensures multiset(WithoutId(s, targetId))[x] == if x.id == targetId then 0 else multiset(s)[x]
  {
    if s != [] {
      WithoutIdCounts(s[1..], targetId, x);
      assert s == [s[0]] + s[1..];
    }
  }

  /** Deletion by id distributes over concatenation, so the kept stops stay in their order. */
  lemma {:induction false} WithoutIdAppend(a: seq<Stop>, b: seq<Stop>, targetId: int)
    ensures WithoutId(a + b, targetId) == WithoutId(a, targetId) + WithoutId(b, targetId)
  {
    if a != [] {
      assert (a + b)[1..] == a[1..] + b;
      WithoutIdAppend(a[1..], b, targetId);
    } else {
      assert a + b == b;
    }
  }

  class BusStopGrid {
    /** The stops of the edited path, in way order. */
    var busstops: seq<Stop>

    constructor (stops: seq<Stop>)
      ensures busstops == stops
    {
      busstops := stops;
    }

    /** Removes every stop with the target's id. */
    method DeleteBusStop(targetBs: Stop)
      modifies this
      ensures busstops == WithoutId(old(busstops), targetBs.id)
    {
      busstops := WithoutId(busstops, targetBs.id);
    }

    /** Moves the stop one position towards the start; the first stop stays where it is. */
    method MoveBusStopUp(bs: Stop)
      requires bs in busstops
      modifies this
      ensures var i := IndexOf(old(busstops), bs);
        if i == 0 then busstops == old(busstops)
        else busstops == old(busstops)[i := old(busstops)[i - 1]][i - 1 := old(busstops)[i]]
    {
      var index := IndexOf(busstops, bs);
      var nextIndex := if index == 0 then 0 else index - 1;
      MovedNeighbourIsSwap(busstops, index, nextIndex);
      MoveBusStop(index, nextIndex);
    }

    /** Moves the stop one position towards the end; the last stop stays where it is. */
    method MoveBusStopDown(bs: Stop)
      requires bs in busstops
      modifies this
      ensures var i := IndexOf(old(busstops), bs);
        if i == |old(busstops)| - 1 then busstops == old(busstops)
        else busstops == old(busstops)[i := old(busstops)[i + 1]][i + 1 := old(busstops)[i]]
    {
      var index := IndexOf(busstops, bs);
      var nextIndex := if index == |busstops| - 1 then index else index + 1;
      MovedNeighbourIsSwap(busstops, index, nextIndex);
      MoveBusStop(index, nextIndex);
    }

    /** Takes the stop at `fromIndex` out and inserts it again at `toIndex`. */
    method MoveBusStop(fromIndex: int, toIndex: int)
      requires 0 <= fromIndex < |busstops| && 0 <= toIndex < |busstops|
      modifies this
      ensures busstops == Moved(old(busstops), fromIndex, toIndex)
    {
      SpliceTwiceIsMoved(busstops, fromIndex, toIndex);
      var element := busstops[fromIndex];
      busstops := Splice(busstops, fromIndex, 1, []);
      busstops := Splice(busstops, toIndex, 0, [element]);
    }
  }
}
