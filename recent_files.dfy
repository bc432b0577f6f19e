/**
 * `add_recent_file`: the recent-files dict of a section is kept most recent
 * first, keyed by file name, and cut down to `num_recents_to_show` entries.
 * Both handler versions share this behaviour.
 */
module RecentFiles {
  import opened Results
  import opened Strings
  import opened OrderedDicts
  import opened ConfigModel

  /** What `popitem()` raises on an empty dict. */
  const PopEmptyError: Error := KeyError("popitem(): dictionary is empty")

  /** The recent-files dict the section reads as (after backfilling it). */
  function Recents(s: Section): (d: Dict<string, string>)
    requires WellTyped(s)
    ensures UniqueKeys(d)
    ensures RecentFilesList in s ==> Files(d) == s[RecentFilesList]
    ensures RecentFilesList !in s ==> d == []
  {
    KnownFieldRead(s, RecentFilesList);
    Backfilled(s, RecentFilesList)[RecentFilesList].entries
  }

  /** The number of recent files the section asks to show (after backfilling it). */
  function Limit(s: Section): (n: int)
    requires WellTyped(s)
    ensures NumRecentsToShow in s ==> Number(n) == s[NumRecentsToShow]
    ensures NumRecentsToShow !in s ==> n == 10
  {
    KnownFieldRead(s, NumRecentsToShow);
    Backfilled(s, NumRecentsToShow)[NumRecentsToShow].n
  }

  /** A dict and, when the cut went wrong, the error raised. */
  datatype Truncation = Truncation(kept: Dict<string, string>, outcome: Outcome)

  /**
   * `while len(d) > limit: d.popitem()`: the first `limit` entries are kept;
   * a negative limit empties the dict and then `popitem()` raises.
   */
  function Truncated(d: Dict<string, string>, limit: int): Truncation
  {
    if limit < 0 then Truncation([], Fail(PopEmptyError))
    else if |d| <= limit then Truncation(d, Pass)
    else Truncation(d[..limit], Pass)
  }

  /** The popping loop itself, one `popitem()` per iteration. */
  method PopWhileLonger(d: Dict<string, string>, limit: int) returns (kept: Dict<string, string>, outcome: Outcome)
    ensures Truncation(kept, outcome) == Truncated(d, limit)
  {
    kept := d;
    outcome := Pass;
    while |kept| > limit
      invariant kept == d[..|kept|]
      invariant limit >= 0 ==> |kept| >= limit || kept == d
      decreases |kept|
    {
      if kept == [] {
        outcome := Fail(PopEmptyError);
        return;
      }
      kept := kept[..|kept| - 1];
    }
  }

  /** The result of adding a path: the new section, and the error if one was raised. */
  datatype AddResult = AddResult(section: Section, outcome: Outcome)

  /** The truncation keeps a prefix, so keys stay distinct and the length is within the limit. */
  lemma TruncatedPrefix(d: Dict<string, string>, limit: int)
    ensures |Truncated(d, limit).kept| <= |d|
    ensures forall i :: 0 <= i < |Truncated(d, limit).kept| ==> Truncated(d, limit).kept[i] == d[i]
    ensures |Truncated(d, limit).kept| <= if limit < 0 then 0 else limit
    ensures UniqueKeys(d) ==> UniqueKeys(Truncated(d, limit).kept)
  {
  }

  /** Cutting a list with a head to `limit` keeps the head and cuts the rest to one fewer. */
  lemma TruncatedCons(x: (string, string), d: Dict<string, string>, limit: int)
    requires limit >= 1
    ensures Truncated([x] + d, limit).kept == [x] + Truncated(d, limit - 1).kept
  {
    if |d| + 1 > limit {
      assert ([x] + d)[..limit] == [x] + d[..limit - 1];
    }
  }

  /** A recent-files dict with distinct keys fits its field. */
  lemma FilesFit(d: Dict<string, string>)
    requires UniqueKeys(d)
    ensures FitsField(RecentFilesList, Files(d))
  {
    assert StarterConfig[RecentFilesList] == Files([]);
  }

  /**
   * `add_recent_file(path)` once the file name `name` has been split off the
   * path.
   */
  function AddEntry(s: Section, name: string, path: string): (r: AddResult)
    requires WellTyped(s)
    ensures WellTyped(r.section)
  {
    var files := Recents(s);
    var s1 := Backfilled(s, RecentFilesList);
    match IndexOfValue(files, path)
    case Some(i) =>
      var moved := MoveToFront(files, i);
      FilesFit(moved);
      StoreFits(s1, RecentFilesList, Files(moved));
      AddResult(s1[RecentFilesList := Files(moved)], Pass)
    case None =>
      var merged := Merge([(name, path)], files);
      MergeSingleFront(name, path, files);
      FilesFit(merged);
      StoreFits(s1, RecentFilesList, Files(merged));
      var s2 := s1[RecentFilesList := Files(merged)];
      var t := Truncated(merged, Limit(s2));
      TruncatedPrefix(merged, Limit(s2));
      FilesFit(t.kept);
      var s3 := Backfilled(s2, NumRecentsToShow);
      StoreFits(s3, RecentFilesList, Files(t.kept));
      AddResult(s3[RecentFilesList := Files(t.kept)], t.outcome)
  }

  /** `add_recent_file(path)` on section `s`: the dict key is the path's file name. */
  function AddRecentFile(s: Section, path: string): (r: AddResult)
    requires WellTyped(s)
    ensures WellTyped(r.section)
  {
    AddEntry(s, Basename(path), path)
  }

  /**
   * A path already in the list moves to the front, keeping its key, and
   * nothing else changes: the same entries, the same count, the other fields
   * as they were (in particular the limit is not read).
   */
  lemma AddKnownPath(s: Section, name: string, path: string, i: nat)
    requires WellTyped(s) && IndexOfValue(Recents(s), path) == Some(i)
    ensures AddEntry(s, name, path).outcome == Pass
    ensures Recents(AddEntry(s, name, path).section) == MoveToFront(Recents(s), i)
    ensures Recents(AddEntry(s, name, path).section)[0] == Recents(s)[i]
    ensures Recents(AddEntry(s, name, path).section)[0].1 == path
    ensures multiset(Recents(AddEntry(s, name, path).section)) == multiset(Recents(s))
    ensures forall f :: f != RecentFilesList ==>
              (f in AddEntry(s, name, path).section <==> f in s)
              && (f in s ==> AddEntry(s, name, path).section[f] == s[f])
  {
    MoveToFrontPermutes(Recents(s), i);
  }

  /**
   * A path not in the list goes to the front under its file name; if another
   * path already has that file name, the older entry moves to the front
   * instead and the new path is dropped.  The list is then cut to the limit,
   * which fails exactly when the limit is negative.  Only the two recent-file
   * fields can change.
   */
  lemma AddNewPath(s: Section, name: string, path: string)
    requires WellTyped(s) && IndexOfValue(Recents(s), path).None?
    ensures var front := match IndexOfKey(Recents(s), name)
                         case None => [(name, path)] + Recents(s)
                         case Some(j) => MoveToFront(Recents(s), j);
            Recents(AddEntry(s, name, path).section) == Truncated(front, Limit(s)).kept
    ensures AddEntry(s, name, path).outcome == Pass <==> Limit(s) >= 0
    ensures Limit(AddEntry(s, name, path).section) == Limit(s)
    ensures forall f :: f != RecentFilesList && f != NumRecentsToShow ==>
              (f in AddEntry(s, name, path).section <==> f in s)
              && (f in s ==> AddEntry(s, name, path).section[f] == s[f])
  {
    var r := AddNewPathSection(s, name, path);
    assert AddEntry(s, name, path).section == r;
    MergeSingleFront(name, path, Recents(s));
    var s3 := Backfilled(s, NumRecentsToShow);
    assert Limit(s3) == Limit(s);
    assert r[NumRecentsToShow] == s3[NumRecentsToShow];
    forall f | f != RecentFilesList && f != NumRecentsToShow
      ensures (f in r <==> f in s) && (f in s ==> r[f] == s[f])
    {
      assert f in r <==> f in s3;
    }
  }

  /** The section `add_recent_file` builds for a new path, written out. */
  lemma AddNewPathSection(s: Section, name: string, path: string) returns (r: Section)
    requires WellTyped(s) && IndexOfValue(Recents(s), path).None?
    ensures WellTyped(r)
    ensures var t := Truncated(Merge([(name, path)], Recents(s)), Limit(s));
            AddEntry(s, name, path) == AddResult(r, t.outcome) && Recents(r) == t.kept
    ensures r == Backfilled(s, NumRecentsToShow)[RecentFilesList := r[RecentFilesList]]
  {
    var files := Recents(s);
    MergeSingleFront(name, path, files);
    var merged := Merge([(name, path)], files);
    FilesFit(merged);
    var s1 := Backfilled(s, RecentFilesList);
    StoreFits(s1, RecentFilesList, Files(merged));
    var s2 := s1[RecentFilesList := Files(merged)];
    assert Limit(s2) == Limit(s);
    var t := Truncated(merged, Limit(s));
    TruncatedPrefix(merged, Limit(s));
    FilesFit(t.kept);
    var s3 := Backfilled(s2, NumRecentsToShow);
    StoreFits(s3, RecentFilesList, Files(t.kept));
    r := s3[RecentFilesList := Files(t.kept)];
    assert AddEntry(s, name, path) == AddResult(r, t.outcome);
  }

  /** With a limit of at least one, a new path whose file name is new heads the list. */
  lemma AddNewNameFirst(s: Section, name: string, path: string)
    requires WellTyped(s) && IndexOfValue(Recents(s), path).None?
    requires IndexOfKey(Recents(s), name).None? && Limit(s) >= 1
    ensures Recents(AddEntry(s, name, path).section)
            == [(name, path)] + Truncated(Recents(s), Limit(s) - 1).kept
  {
    AddNewPath(s, name, path);
    TruncatedCons((name, path), Recents(s), Limit(s));
  }

  /**
   * The invariant the truncation keeps: a list within its limit stays within
   * it, and after any addition of a new path that succeeds the list is within
   * the limit; either way it grows by at most one.
   */
  lemma AddKeepsBound(s: Section, name: string, path: string)
    requires WellTyped(s)
    ensures AddEntry(s, name, path).outcome == Pass && IndexOfValue(Recents(s), path).None? ==>
              |Recents(AddEntry(s, name, path).section)| <= Limit(AddEntry(s, name, path).section)
    ensures |Recents(s)| <= Limit(s) ==>
              |Recents(AddEntry(s, name, path).section)| <= Limit(AddEntry(s, name, path).section)
    ensures |Recents(AddEntry(s, name, path).section)| <= |Recents(s)| + 1
  {
    match IndexOfValue(Recents(s), path)
    case None =>
      AddNewPath(s, name, path);
      TruncatedPrefix([(name, path)] + Recents(s), Limit(s));
      if i :| IndexOfKey(Recents(s), name) == Some(i) {
        TruncatedPrefix(MoveToFront(Recents(s), i), Limit(s));
      }
    case Some(i) =>
      AddKnownPath(s, name, path, i);
      if |Recents(s)| <= Limit(s) {
        assert Limit(AddEntry(s, name, path).section) == Limit(s);
      }
  }

  /** One addition of a path whose name and path are both new, to a list with room for two. */
  lemma AddFreshWithRoomForTwo(s: Section, name: string, path: string)
    requires WellTyped(s) && Limit(s) == 2 && |Recents(s)| <= 2
    requires forall j :: 0 <= j < |Recents(s)| ==> Recents(s)[j].1 != path && Recents(s)[j].0 != name
    ensures Recents(AddEntry(s, name, path).section)
            == [(name, path)] + Recents(s)[..if |Recents(s)| < 1 then |Recents(s)| else 1]
    ensures Limit(AddEntry(s, name, path).section) == 2
  {
    AddNewPath(s, name, path);
    AddNewNameFirst(s, name, path);
  }

  /**
   * With room for two, adding three entries with different names and paths
   * to an empty list leaves the third and then the second.
   */
  lemma AddEntrySequence(s0: Section, na: string, a: string, nb: string, b: string, nc: string, c: string)
    requires WellTyped(s0) && Recents(s0) == [] && Limit(s0) == 2
    requires na != nb && nb != nc && na != nc && a != b && b != c && a != c
    ensures var s1 := AddEntry(s0, na, a).section;
            var s2 := AddEntry(s1, nb, b).section;
            var s3 := AddEntry(s2, nc, c).section;
            Recents(s3) == [(nc, c), (nb, b)] && Limit(s3) == 2
  {
    var s1 := AddEntry(s0, na, a).section;
    AddFreshWithRoomForTwo(s0, na, a);
    var s2 := AddEntry(s1, nb, b).section;
    AddFreshWithRoomForTwo(s1, nb, b);
    AddFreshWithRoomForTwo(s2, nc, c);
  }

  /** Adding again the second of two paths swaps the two entries. */
  lemma ReopenSecond(s: Section, nc: string, c: string, nb: string, b: string)
    requires WellTyped(s) && Recents(s) == [(nc, c), (nb, b)] && b != c
    ensures Recents(AddEntry(s, nb, b).section) == [(nb, b), (nc, c)]
  {
    assert IndexOfValue(Recents(s), b) == Some(1);
    AddKnownPath(s, nb, b, 1);
  }

  /**
   * With room for two, opening three files with different names A, B and C
   * leaves C then B; opening B again moves it back to the front.
   */
  lemma AddSequenceExample(s0: Section, a: string, b: string, c: string)
    requires WellTyped(s0) && Recents(s0) == [] && Limit(s0) == 2
    requires Basename(a) != Basename(b) && Basename(b) != Basename(c) && Basename(a) != Basename(c)
    ensures var s1 := AddRecentFile(s0, a).section;
            var s2 := AddRecentFile(s1, b).section;
            var s3 := AddRecentFile(s2, c).section;
            var s4 := AddRecentFile(s3, b).section;
            Recents(s3) == [(Basename(c), c), (Basename(b), b)]
            && Recents(s4) == [(Basename(b), b), (Basename(c), c)]
  {
    AddEntrySequence(s0, Basename(a), a, Basename(b), b, Basename(c), c);
    var s3 := AddRecentFile(AddRecentFile(AddRecentFile(s0, a).section, b).section, c).section;
    ReopenSecond(s3, Basename(c), c, Basename(b), b);
  }
}
