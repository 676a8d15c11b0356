/** The index from each bus stop to the lines whose way passes through it. */
module StopIndex {
  import opened Entities

  /** How often s occurs in the way. */
  function Occurrences(way: seq<Stop>, s: Stop): nat {
    if way == [] then 0
    else Occurrences(way[..|way| - 1], s) + (if way[|way| - 1] == s then 1 else 0)
  }

  /** n copies of p. */
  function Repeat(p: Path, n: nat): seq<Path> {
    if n == 0 then [] else Repeat(p, n - 1) + [p]
  }

  /** n copies of p: length n, and every member is p. */
  lemma {:induction false} RepeatMembers(p: Path, n: nat)
    ensures |Repeat(p, n)| == n
    ensures forall x :: x in Repeat(p, n) <==> n > 0 && x == p
  {
    if n > 0 {
      RepeatMembers(p, n - 1);
    }
  }

  /** The index entry of s: lines in list order, each once per occurrence of s in its way. */
  function Through(paths: seq<Path>, s: Stop): seq<Path> {
    if paths == [] then []
    else
      var last := paths[|paths| - 1];
      Through(paths[..|paths| - 1], s) + Repeat(last, Occurrences(last.way, s))
  }

  /** The entry of s, where a missing key (a null from get) reads as no lines. */
  function Lookup(index: map<Stop, seq<Path>>, s: Stop): seq<Path> {
    if s in index then index[s] else []
  }

  lemma {:induction false} OccurrencesMember(way: seq<Stop>, s: Stop)
    ensures Occurrences(way, s) > 0 <==> s in way
  {
    if way != [] {
      OccurrencesMember(way[..|way| - 1], s);
      assert way == way[..|way| - 1] + [way[|way| - 1]];
    }
  }

  /** A line is listed for a stop iff it is one of the lines and its way holds the stop. */
  lemma {:induction false} ThroughMembers(paths: seq<Path>, s: Stop)
    ensures forall p :: p in Through(paths, s) <==> p in paths && s in p.way
  {
    if paths != [] {
      var init, last := paths[..|paths| - 1], paths[|paths| - 1];
      ThroughMembers(init, s);
      OccurrencesMember(last.way, s);
      assert paths == init + [last];
      RepeatMembers(last, Occurrences(last.way, s));
    }
  }

  /** The index lists only lines that pass through the stop. */
  ghost predicate IndexSound(paths: seq<Path>, index: map<Stop, seq<Path>>) {
    forall s :: s in index ==> forall p :: p in index[s] ==> p in paths && s in p.way
  }

  /** The map update of the inner loop: the line is appended to the entry of bs, or starts it. */
  function AddTo(index: map<Stop, seq<Path>>, bs: Stop, path: Path): map<Stop, seq<Path>> {
    if bs in index then index[bs := index[bs] + [path]] else index[bs := [path]]
  }

  /** Adding a line under bs extends the entry of bs by that line and leaves every other entry alone. */
  lemma LookupAddTo(index: map<Stop, seq<Path>>, bs: Stop, path: Path, s: Stop)
    ensures Lookup(AddTo(index, bs, path), s) == Lookup(index, s) + (if s == bs then [path] else [])
  {
  }

  /** The index after the inner loop has added `path` under each stop of `way`, in order. */
  function AddAll(index: map<Stop, seq<Path>>, way: seq<Stop>, path: Path): map<Stop, seq<Path>> {
    if way == [] then index else AddTo(AddAll(index, way[..|way| - 1], path), way[|way| - 1], path)
  }

  /** After adding a line along its way, each entry has grown by one copy of the line per occurrence of its stop. */
  lemma {:induction false} LookupAddAll(index: map<Stop, seq<Path>>, way: seq<Stop>, path: Path, s: Stop)
    ensures Lookup(AddAll(index, way, path), s) == Lookup(index, s) + Repeat(path, Occurrences(way, s))
  {
    if way != [] {
      var init := way[..|way| - 1];
      LookupAddAll(index, init, path, s);
      LookupAddTo(AddAll(index, init, path), way[|way| - 1], path, s);
    }
  }

  /** Adding lines never leaves an empty entry behind. */
  lemma {:induction false} AddAllNonEmpty(index: map<Stop, seq<Path>>, way: seq<Stop>, path: Path)
    requires forall s :: s in index ==> index[s] != []
    ensures forall s :: s in AddAll(index, way, path) ==> AddAll(index, way, path)[s] != []
  {
    if way != [] {
      AddAllNonEmpty(index, way[..|way| - 1], path);
    }
  }

  /** The inner loop over one line's way: the line is appended to the entry of each of its stops. */
  method AddLine(index: map<Stop, seq<Path>>, path: Path) returns (bsPaths: map<Stop, seq<Path>>)
    requires forall s :: s in index ==> index[s] != []
    ensures forall s :: Lookup(bsPaths, s) == Lookup(index, s) + Repeat(path, Occurrences(path.way, s))
    ensures forall s :: s in bsPaths ==> bsPaths[s] != []
  {
    bsPaths := index;
    var way := path.way;
    var j := 0;
    while j < |way|
      invariant 0 <= j <= |way|
      invariant bsPaths == AddAll(index, way[..j], path)
    {
      var bs := way[j];
      assert way[..j + 1][..j] == way[..j];
      if bs in bsPaths {
        bsPaths := bsPaths[bs := bsPaths[bs] + [path]];
      } else {
        bsPaths := bsPaths[bs := [path]];
      }
      j := j + 1;
    }
    assert way[..j] == way;
    forall s
      ensures Lookup(bsPaths, s) == Lookup(index, s) + Repeat(path, Occurrences(path.way, s))
    {
      LookupAddAll(index, way, path, s);
    }
    AddAllNonEmpty(index, way, path);
  }

  /**
   * Builds the index: a stop is a key iff some line passes through it, and its entry
   * lists the lines in list order, once per occurrence of the stop in each way.
   */
  method BuildStopIndex(paths: seq<Path>) returns (bsPaths: map<Stop, seq<Path>>)
    ensures forall s :: s in bsPaths <==> Through(paths, s) != []
    ensures forall s :: s in bsPaths ==> bsPaths[s] == Through(paths, s)
    ensures bsPaths == Index(paths)
  {
    bsPaths := map[];
    var i := 0;
    while i < |paths|
      invariant 0 <= i <= |paths|
      invariant forall s :: Lookup(bsPaths, s) == Through(paths[..i], s)
      invariant forall s :: s in bsPaths ==> bsPaths[s] != []
    {
      assert paths[..i + 1][..i] == paths[..i];
      bsPaths := AddLine(bsPaths, paths[i]);
      i := i + 1;
    }
    assert paths[..i] == paths;
    IndexIsThrough(paths, bsPaths);
  }

  /** The stops of all the lines' ways. */
  ghost function StopsOf(paths: seq<Path>): set<Stop> {
    set p, s | p in paths && s in p.way :: s
  }

  /** The index as a whole: every stop of some line, mapped to its entry. */
  ghost function Index(paths: seq<Path>): map<Stop, seq<Path>> {
    map s | s in StopsOf(paths) :: Through(paths, s)
  }

  /** A map with non-empty entries, each the entry of its stop, is the index. */
  lemma IndexIsThrough(paths: seq<Path>, index: map<Stop, seq<Path>>)
    requires forall s :: s in index <==> Through(paths, s) != []
    requires forall s :: s in index ==> index[s] == Through(paths, s)
    ensures index == Index(paths)
  {
    forall s
      ensures s in index <==> s in StopsOf(paths)
    {
      ThroughMembers(paths, s);
      if s in StopsOf(paths) {
        var p :| p in paths && s in p.way;
        assert p in Through(paths, s);
      } else if Through(paths, s) != [] {
        assert Through(paths, s)[0] in Through(paths, s);
      }
    }
  }

  /** The index built from the lines is sound for them. */
  lemma IndexSoundOfThrough(paths: seq<Path>, index: map<Stop, seq<Path>>)
    requires forall s :: s in index ==> index[s] == Through(paths, s)
    ensures IndexSound(paths, index)
  {
    forall s | s in index
      ensures forall p :: p in index[s] ==> p in paths && s in p.way
    {
      ThroughMembers(paths, s);
    }
  }
}
