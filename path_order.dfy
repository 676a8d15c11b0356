/**
 * The order of the lines before the graph is built. The vertex of a line is its position
 * in this order, so the order fixes every edge.
 */
module PathOrder {
  import opened Entities
  import opened Lists

  /** Ids do not decrease along s. */
  predicate SortedById(s: seq<Path>) {
    forall i, j :: 0 <= i < j < |s| ==> s[i].id <= s[j].id
  }

  /** Ids strictly increase along s. */
  predicate StrictlyAscending(s: seq<Path>) {
    forall i, j :: 0 <= i < j < |s| ==> s[i].id < s[j].id
  }

  /** No two lines share an id. */
  predicate DistinctIds(s: seq<Path>) {
    forall i, j :: 0 <= i < j < |s| ==> s[i].id != s[j].id
  }

  /** Puts p in front of the first line whose id is not smaller than p's. */
  function Insert(p: Path, s: seq<Path>): (r: seq<Path>)
    ensures |r| == |s| + 1
    ensures multiset(r) == multiset(s) + multiset{p}
  {
    if s == [] then [p]
    else if p.id > s[0].id then
      assert s == [s[0]] + s[1..];
      [s[0]] + Insert(p, s[1..])
    else [p] + s
  }

  /**
   * The list sorted by ascending id, as Collections.sort orders it with the comparator
   * `o1.getId() > o2.getId() ? 1 : -1`: a permutation of the input with non-decreasing ids.
   */
  function SortById(s: seq<Path>): (r: seq<Path>)
    ensures |r| == |s|
    ensures multiset(r) == multiset(s)
    ensures SortedById(r)
  {
    if s == [] then []
    else
      var rest := SortById(s[1..]);
      InsertSorted(s[0], rest);
      assert s == [s[0]] + s[1..];
      Insert(s[0], rest)
  }

  /** Every line of Insert(p, s) is p or a line of s. */
  lemma InsertMembers(p: Path, s: seq<Path>)
    ensures forall x :: x in Insert(p, s) <==> x == p || x in s
  {
    forall x
      ensures x in Insert(p, s) <==> x == p || x in s
    {
      assert x in Insert(p, s) <==> x in multiset(Insert(p, s));
      assert x in s <==> x in multiset(s);
    }
  }

  lemma {:induction false} InsertSorted(p: Path, s: seq<Path>)
    requires SortedById(s)
    ensures SortedById(Insert(p, s))
  {
    if s != [] && p.id > s[0].id {
      InsertSorted(p, s[1..]);
      InsertMembers(p, s[1..]);
      var tail := Insert(p, s[1..]);
      forall k | 0 <= k < |tail|
        ensures s[0].id <= tail[k].id
      {
        assert tail[k] in tail;
        if tail[k] != p {
          var m :| 0 <= m < |s[1..]| && s[1..][m] == tail[k];
          assert s[m + 1] == tail[k];
        }
      }
    }
  }

  lemma {:induction false} InsertStrict(p: Path, s: seq<Path>)
    requires StrictlyAscending(s)
    requires forall x :: x in s ==> x.id != p.id
    ensures StrictlyAscending(Insert(p, s))
  {
    if s != [] && p.id > s[0].id {
      InsertStrict(p, s[1..]);
      InsertMembers(p, s[1..]);
      var tail := Insert(p, s[1..]);
      forall k | 0 <= k < |tail|
        ensures s[0].id < tail[k].id
      {
        assert tail[k] in tail;
        if tail[k] != p {
          var m :| 0 <= m < |s[1..]| && s[1..][m] == tail[k];
          assert s[m + 1] == tail[k];
        }
      }
    }
  }

  /** Lines with pairwise different ids come out in strictly ascending id order. */
  lemma {:induction false} SortByIdStrict(s: seq<Path>)
    requires DistinctIds(s)
    ensures StrictlyAscending(SortById(s))
  {
    if s != [] {
      SortByIdStrict(s[1..]);
      var rest := SortById(s[1..]);
      forall x | x in rest
        ensures x.id != s[0].id
      {
        assert x in multiset(rest);
        assert x in s[1..];
      }
      InsertStrict(s[0], rest);
    }
  }

  /** Lines in strictly ascending id order are pairwise different, so each line's vertex is its position. */
  lemma AscendingIsDistinct(s: seq<Path>)
    requires StrictlyAscending(s)
    ensures Distinct(s)
  {
  }
}
