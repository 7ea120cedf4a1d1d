/**
 * Merging on any clock (rdc_tool/context_snapshot.py, _trim_artifacts and merge_recent_artifacts): what is
 * left of a history when reports arrive late, in time or, on a clock that steps back, too early.
 */
module RetentionHistory {
  import opened Wrappers
  import opened RecentArtifacts
  import Sorting

  // ----- Sorting in a report

  /** A report takes its place in time and the place of its path's older entry. */
  function Arrive(a: Artifact, s: seq<Artifact>): seq<Artifact> {
    Sorting.Insert(a, Without(s, a.path), Age)
  }

  /** The list already has a newer entry of this path. */
  predicate Stale(s: seq<Artifact>, path: string, ts: int) {
    exists b :: b in s && b.path == path && ts < b.tsMs
  }

  lemma DescendingTail(s: seq<Artifact>)
    requires Descending(s) && s != []
    ensures Descending(s[1..]) && forall b :: b in s ==> b.tsMs <= s[0].tsMs
  {
    forall b | b in s ensures b.tsMs <= s[0].tsMs {
      var i :| 0 <= i < |s| && s[i] == b;
    }
  }

  lemma {:induction false} InsertWithout(a: Artifact, s: seq<Artifact>, path: string)
    requires Descending(s)
    ensures Without(Sorting.Insert(a, s, Age), path) ==
      if a.path == path then Without(s, path) else Sorting.Insert(a, Without(s, path), Age)
  {
    WithoutMembers(s, path);
    if s == [] || s[0].tsMs <= a.tsMs {
      assert ([a] + s)[1..] == s;
      if s != [] {
        DescendingTail(s);
      }
      assert Without(s, path) != [] ==> Without(s, path)[0] in s;
    } else {
      DescendingTail(s);
      InsertWithout(a, s[1..], path);
      assert Sorting.Insert(a, s, Age)[1..] == Sorting.Insert(a, s[1..], Age);
      assert s[0].path != path ==> Without(s, path)[1..] == Without(s[1..], path);
    }
  }

  lemma {:induction false} SortWithout(s: seq<Artifact>, path: string)
    ensures NewestFirst(Without(s, path)) == Without(NewestFirst(s), path)
  {
    if s != [] {
      SortWithout(s[1..], path);
      NewestFirstIsStableSort(s[1..], 0);
      InsertWithout(s[0], NewestFirst(s[1..]), path);
      if s[0].path != path {
        assert Without(s, path)[1..] == Without(s[1..], path);
      }
    }
  }

  lemma {:induction false} NamedWithout(s: seq<Artifact>, path: string)
    ensures Named(Without(s, path)) == Without(Named(s), path)
  {
    if s != [] {
      NamedWithout(s[1..], path);
      assert s[0].path != path ==> Without(s, path)[1..] == Without(s[1..], path);
      assert HasPath(s[0]) ==> Named(s)[1..] == Named(s[1..]);
    }
  }

  lemma CandidatesWithout(s: seq<Artifact>, path: string)
    ensures Candidates(Without(s, path)) == Without(Candidates(s), path)
  {
    NamedWithout(s, path);
    SortWithout(Named(s), path);
    DistinctCommutesWithWithout(NewestFirst(Named(s)), path);
  }

  /** Deduplicating after sorting in: the entry is dropped as stale, or replaces the older one of its path. */
  lemma {:induction false} DistinctInsert(a: Artifact, s: seq<Artifact>)
    requires Descending(s)
    ensures Distinct(Sorting.Insert(a, s, Age)) ==
      if Stale(s, a.path, a.tsMs) then Distinct(s) else Arrive(a, Distinct(s))
    decreases |s|
  {
    DistinctMembers(s);
    WithoutMembers(Distinct(s), a.path);
    if s != [] {
      DescendingTail(s);
    }
    if s == [] || s[0].tsMs <= a.tsMs {
      assert ([a] + s)[1..] == s;
      DistinctCommutesWithWithout(s, a.path);
      var rest := Without(Distinct(s), a.path);
      assert rest != [] ==> rest[0] in s;
    } else {
      var first, rest := s[0].path, Without(s[1..], s[0].path);
      WithoutShrinks(s[1..], first);
      WithoutMembers(s[1..], first);
      DescendingWithout(s[1..], first);
      InsertWithout(a, s[1..], first);
      assert Sorting.Insert(a, s, Age)[1..] == Sorting.Insert(a, s[1..], Age);
      assert Distinct(s)[1..] == Distinct(rest);
      if first == a.path {
        assert Stale(s, a.path, a.tsMs);
      } else {
        DistinctInsert(a, rest);
        assert Stale(s, a.path, a.tsMs) <==> Stale(rest, a.path, a.tsMs);
        assert Without(Distinct(s), a.path)[1..] == Without(Distinct(rest), a.path);
      }
    }
  }

  lemma SortedMembers(s: seq<Artifact>)
    ensures forall a :: a in NewestFirst(Named(s)) <==> a in s && HasPath(a)
  {
    NamedMembers(s);
    Sorting.SortedMembers(Named(s), Age);
  }

  /** What one more report does to the deduplicated history. */
  lemma CandidatesOfReport(a: Artifact, past: seq<Artifact>)
    requires HasPath(a)
    ensures Candidates([a] + past) ==
      if Stale(past, a.path, a.tsMs) then Candidates(past) else Arrive(a, Candidates(past))
  {
    var sorted := NewestFirst(Named(past));
    assert ([a] + past)[1..] == past && ([a] + Named(past))[1..] == Named(past);
    NewestFirstIsStableSort(Named(past), 0);
    SortedMembers(past);
    DistinctInsert(a, sorted);
    assert Stale(past, a.path, a.tsMs) <==> Stale(sorted, a.path, a.tsMs);
  }

  lemma CandidatesOfFront(a: Artifact, s: seq<Artifact>)
    requires HasPath(a)
    ensures Candidates(Front(a, s)) == Arrive(a, Candidates(s))
  {
    var older := Without(s, a.path);
    WithoutMembers(s, a.path);
    CandidatesOfReport(a, older);
    CandidatesWithout(s, a.path);
    WithoutMembers(Candidates(s), a.path);
    AbsentPath(Without(Candidates(s), a.path), a.path);
  }

  /** Deduplicating keeps the newest entry of each path, so nothing becomes stale or fresh by it. */
  lemma StaleInCandidates(s: seq<Artifact>, path: string, ts: int)
    requires path != ""
    ensures Stale(Candidates(s), path, ts) <==> Stale(s, path, ts)
  {
    CandidatesAreRanked(s);
    NewestBounds(s, path);
    if Newest(s, path).Some? {
      var i := NewestIsThere(s, path);
      CandidateIffNewest(s, s[i]);
      if b :| b in s && b.path == path && ts < b.tsMs {
        var j :| 0 <= j < |s| && s[j] == b;
        assert s[i] in Candidates(s) && b.tsMs <= s[i].tsMs;
      }
    } else {
      assert forall b :: b in s ==> b.path != path;
    }
  }

  // ----- A whole batch

  function Arrived(s: seq<Artifact>, reports: seq<Report>, m: Merge): seq<Artifact>
    decreases reports
  {
    if reports == [] then s
    else if reports[0].path == "" then Arrived(s, reports[1..], m)
    else Arrived(Arrive(Stamp(reports[0], m), s), reports[1..], m)
  }

  /** A merge keeps every report, stale or not. */
  lemma {:induction false} CandidatesOfPromote(s: seq<Artifact>, reports: seq<Report>, m: Merge)
    ensures Candidates(Promote(s, reports, m)) == Arrived(Candidates(s), reports, m)
    decreases reports
  {
    if reports != [] {
      if reports[0].path == "" {
        CandidatesOfPromote(s, reports[1..], m);
      } else {
        var a := Stamp(reports[0], m);
        CandidatesOfFront(a, s);
        CandidatesOfPromote(Front(a, s), reports[1..], m);
      }
    }
  }

  /** The reports whose path is not listed. */
  function Unlisted(reports: seq<Report>, paths: set<string>): seq<Report> {
    if reports == [] then []
    else if reports[0].path in paths then Unlisted(reports[1..], paths)
    else [reports[0]] + Unlisted(reports[1..], paths)
  }

  /** These are the reported paths of which the list has an entry newer than the merge. */
  predicate AreStale(paths: set<string>, s: seq<Artifact>, reports: seq<Report>, ts: int) {
    forall i :: 0 <= i < |reports| && reports[i].path != "" ==>
      (reports[i].path in paths <==> Stale(s, reports[i].path, ts))
  }

  /** The full history drops stale reports and sorts in the others. */
  lemma {:induction false} CandidatesOfPile(past: seq<Artifact>, reports: seq<Report>, m: Merge, stale: set<string>)
    requires AreStale(stale, past, reports, m.tsMs) && "" !in stale
    ensures Candidates(Pile(past, reports, m)) == Arrived(Candidates(past), Unlisted(reports, stale), m)
    decreases reports
  {
    if reports != [] {
      var rest := reports[1..];
      assert forall i :: 0 <= i < |rest| ==> rest[i] == reports[i + 1];
      if reports[0].path == "" {
        CandidatesOfPile(past, rest, m, stale);
      } else {
        var a := Stamp(reports[0], m);
        CandidatesOfReport(a, past);
        forall i | 0 <= i < |rest| && rest[i].path != ""
          ensures Stale([a] + past, rest[i].path, m.tsMs) <==> Stale(past, rest[i].path, m.tsMs)
        {
          assert forall b :: b in [a] + past <==> b == a || b in past;
        }
        CandidatesOfPile([a] + past, rest, m, stale);
      }
    }
  }

  lemma ArriveIsRanked(a: Artifact, s: seq<Artifact>)
    requires Ranked(s) && HasPath(a)
    ensures Ranked(Arrive(a, s)) && forall b :: b in Arrive(a, s) ==> b == a || (b in s && b.path != a.path)
  {
    RankedWithout(s, a.path);
    WithoutMembers(s, a.path);
    Sorting.InsertAdds(a, Without(s, a.path), Age);
    InsertIsRanked(a, Without(s, a.path));
  }

  lemma {:induction false} InsertIsRanked(a: Artifact, s: seq<Artifact>)
    requires Ranked(s) && HasPath(a) && forall b :: b in s ==> b.path != a.path
    ensures Ranked(Sorting.Insert(a, s, Age))
  {
    if s == [] || s[0].tsMs <= a.tsMs {
      assert ([a] + s)[1..] == s;
    } else {
      var rest := Sorting.Insert(a, s[1..], Age);
      InsertIsRanked(a, s[1..]);
      Sorting.InsertAdds(a, s[1..], Age);
      assert ([s[0]] + rest)[1..] == rest;
    }
  }

  lemma {:induction false} ArrivedIsRanked(s: seq<Artifact>, reports: seq<Report>, m: Merge)
    requires Ranked(s)
    ensures Ranked(Arrived(s, reports, m))
    decreases reports
  {
    if reports != [] {
      if reports[0].path == "" {
        ArrivedIsRanked(s, reports[1..], m);
      } else {
        ArriveIsRanked(Stamp(reports[0], m), s);
        ArrivedIsRanked(Arrive(Stamp(reports[0], m), s), reports[1..], m);
      }
    }
  }

  lemma {:induction false} RankedIsDescending(s: seq<Artifact>)
    requires Ranked(s)
    ensures Descending(s)
  {
    if s != [] {
      RankedIsDescending(s[1..]);
      assert forall j :: 0 < j < |s| ==> s[j] == s[1..][j - 1] && s[j] in s[1..];
    }
  }

  /** What a merge into a trimmed list keeps, on any clock. */
  lemma MergeIntoTrimmed(kept: seq<Artifact>, m: Merge, r: Retention)
    requires Ranked(kept) && Trim(kept, r) == kept && forall a :: a in kept ==> Clean(a)
    ensures Merged(kept, m, r) == Quota(Arrived(kept, m.reports, m), r)
  {
    CleanStays(kept);
    RankedIsSettled(kept);
    CandidatesOfPromote(kept, m.reports, m);
  }

  // ----- What the quotas leave does not depend on the order of what stands before

  lemma FirstSwaps(
    h: Artifact, e: Artifact, rest: seq<Artifact>, perType: int, seen: multiset<string>, kind: string)
    ensures CountKind([h, e] + rest, kind) == CountKind([e, h] + rest, kind)
    ensures |WithinTypeQuota([h, e] + rest, perType, seen)| == |WithinTypeQuota([e, h] + rest, perType, seen)|
  {
    var (k, l) := (multiset{KindOf(h)}, multiset{KindOf(e)});
    assert ([h, e] + rest)[1..] == [e] + rest && ([e] + rest)[1..] == rest;
    assert ([e, h] + rest)[1..] == [h] + rest && ([h] + rest)[1..] == rest;
    assert seen + k + l == seen + l + k;
  }

  lemma Regroup(first: Artifact, x: seq<Artifact>, y: seq<Artifact>)
    ensures ([first] + x) + y == [first] + (x + y)
  {
  }

  lemma {:induction false} MoveToFront(
    x: seq<Artifact>, e: Artifact, y: seq<Artifact>, perType: int, seen: multiset<string>, kind: string)
    ensures CountKind(x + ([e] + y), kind) == CountKind([e] + (x + y), kind)
    ensures |WithinTypeQuota(x + ([e] + y), perType, seen)| == |WithinTypeQuota([e] + (x + y), perType, seen)|
  {
    if x == [] {
      assert x + ([e] + y) == [e] + (x + y);
    } else {
      var h, t := x[0], x[1..];
      MoveToFront(t, e, y, perType, Counted(seen, h, perType), kind);
      SameFirst(h, t + ([e] + y), [e] + (t + y), perType, seen, kind);
      FirstSwaps(h, e, t + y, perType, seen, kind);
      Regroup(h, t, [e] + y);
      Regroup(h, t, y);
      Regroup(h, [e], t + y);
      Regroup(e, [h], t + y);
      assert x == [h] + t && [h] + [e] == [h, e] && [e] + [h] == [e, h];
    }
  }

  lemma {:induction false} CountsByMultiset(
    x: seq<Artifact>, y: seq<Artifact>, perType: int, seen: multiset<string>, kind: string)
    requires multiset(x) == multiset(y)
    ensures CountKind(x, kind) == CountKind(y, kind)
    ensures |WithinTypeQuota(x, perType, seen)| == |WithinTypeQuota(y, perType, seen)|
    decreases |x|
  {
    if x == [] {
      assert |multiset(y)| == 0;
    } else {
      var e, t := x[0], x[1..];
      assert x == [e] + t && e in multiset(x);
      var before, after := PickOut(y, e);
      assert multiset(before + after) == multiset(t);
      CountsByMultiset(t, before + after, perType, Counted(seen, e, perType), kind);
      SameFirst(e, t, before + after, perType, seen, kind);
      MoveToFront(before, e, after, perType, seen, kind);
    }
  }

  function Counted(seen: multiset<string>, e: Artifact, perType: int): multiset<string> {
    if seen[KindOf(e)] < perType then seen + multiset{KindOf(e)} else seen
  }

  lemma SameFirst(
    e: Artifact, t: seq<Artifact>, u: seq<Artifact>, perType: int, seen: multiset<string>, kind: string)
    requires CountKind(t, kind) == CountKind(u, kind)
    requires |WithinTypeQuota(t, perType, Counted(seen, e, perType))|
          == |WithinTypeQuota(u, perType, Counted(seen, e, perType))|
    ensures CountKind([e] + t, kind) == CountKind([e] + u, kind)
    ensures |WithinTypeQuota([e] + t, perType, seen)| == |WithinTypeQuota([e] + u, perType, seen)|
  {
    assert ([e] + t)[1..] == t && ([e] + u)[1..] == u;
  }

  lemma PickOut(y: seq<Artifact>, e: Artifact) returns (before: seq<Artifact>, after: seq<Artifact>)
    requires e in multiset(y)
    ensures y == before + ([e] + after) && multiset(before + after) == multiset(y) - multiset{e}
  {
    var i :| 0 <= i < |y| && y[i] == e;
    before, after := y[..i], y[i + 1..];
    assert y == before + ([e] + after);
    assert multiset(y) == multiset(before) + (multiset{e} + multiset(after));
  }

  /** Only what stands before counts, in whatever order. */
  lemma AdmittedByMultiset(x: seq<Artifact>, y: seq<Artifact>, e: Artifact, r: Retention)
    requires multiset(x) == multiset(y)
    ensures Admitted(x, e, r) <==> Admitted(y, e, r)
  {
    CountsByMultiset(x, y, r.perTypeLimit, multiset{}, KindOf(e));
  }

  lemma {:induction false} WithoutMultiset(x: seq<Artifact>, path: string, e: Artifact)
    ensures multiset(Without(x, path))[e] == if e.path == path then 0 else multiset(x)[e]
  {
    if x != [] {
      WithoutMultiset(x[1..], path, e);
      assert x == [x[0]] + x[1..];
    }
  }

  lemma FrontByMultiset(a: Artifact, x: seq<Artifact>, y: seq<Artifact>)
    requires multiset(x) == multiset(y)
    ensures multiset(Front(a, x)) == multiset(Front(a, y)) == multiset(Arrive(a, x))
  {
    forall e ensures multiset(Without(x, a.path))[e] == multiset(Without(y, a.path))[e] {
      WithoutMultiset(x, a.path, e);
      WithoutMultiset(y, a.path, e);
    }
    assert multiset(Without(x, a.path)) == multiset(Without(y, a.path));
    Sorting.InsertPermutes(a, Without(x, a.path), Age);
  }

  lemma {:induction false} PromoteByMultiset(x: seq<Artifact>, y: seq<Artifact>, reports: seq<Report>, m: Merge)
    requires multiset(x) == multiset(y)
    ensures multiset(Promote(x, reports, m)) == multiset(Promote(y, reports, m))
    decreases reports
  {
    if reports != [] {
      if reports[0].path == "" {
        PromoteByMultiset(x, y, reports[1..], m);
      } else {
        var a := Stamp(reports[0], m);
        FrontByMultiset(a, x, y);
        PromoteByMultiset(Front(a, x), Front(a, y), reports[1..], m);
      }
    }
  }

  // ----- Where an untouched entry stands after a batch

  /** No report moves or replaces this path. */
  predicate Untouched(path: string, reports: seq<Report>) {
    path == "" || forall i :: 0 <= i < |reports| ==> reports[i].path != path
  }

  predicate NoneStale(s: seq<Artifact>, reports: seq<Report>, ts: int) {
    forall i :: 0 <= i < |reports| && reports[i].path != "" ==> !Stale(s, reports[i].path, ts)
  }

  lemma {:induction false} InsertBefore(a: Artifact, x: seq<Artifact>, e: Artifact, y: seq<Artifact>)
    requires e.tsMs <= a.tsMs
    ensures Sorting.Insert(a, x + ([e] + y), Age) == Sorting.Insert(a, x, Age) + ([e] + y)
  {
    if x == [] {
      assert x + ([e] + y) == [e] + y && Sorting.Insert(a, x, Age) == [a];
    } else {
      assert (x + ([e] + y))[0] == x[0] && (x + ([e] + y))[1..] == x[1..] + ([e] + y);
      if a.tsMs < x[0].tsMs {
        InsertBefore(a, x[1..], e, y);
        Associates([x[0]], Sorting.Insert(a, x[1..], Age), [e] + y);
      } else {
        Associates([a], x, [e] + y);
      }
    }
  }

  lemma {:induction false} InsertAfter(a: Artifact, x: seq<Artifact>, y: seq<Artifact>)
    requires forall b :: b in x ==> a.tsMs < b.tsMs
    ensures Sorting.Insert(a, x + y, Age) == x + Sorting.Insert(a, y, Age)
  {
    if x == [] {
      assert x + y == y && x + Sorting.Insert(a, y, Age) == Sorting.Insert(a, y, Age);
    } else {
      assert (x + y)[0] == x[0] && (x + y)[1..] == x[1..] + y;
      InsertAfter(a, x[1..], y);
      Associates([x[0]], x[1..], Sorting.Insert(a, y, Age));
      assert [x[0]] + x[1..] == x;
    }
  }

  /** What stands before an untouched entry: with the reports if it is no newer than the batch. */
  function Before(s: seq<Artifact>, j: nat, reports: seq<Report>, m: Merge): seq<Artifact>
    requires j < |s|
  {
    if s[j].tsMs <= m.tsMs then Promote(s[..j], reports, m) else s[..j]
  }

  lemma ArrivePlace(a: Artifact, s: seq<Artifact>, j: nat) returns (k: nat)
    requires Ranked(s) && j < |s| && s[j].path != a.path && !Stale(s, a.path, a.tsMs)
    ensures k < |Arrive(a, s)| && Arrive(a, s)[k] == s[j]
    ensures multiset(Arrive(a, s)[..k]) == multiset(if s[j].tsMs <= a.tsMs then Front(a, s[..j]) else s[..j])
  {
    var x, e, y := s[..j], s[j], s[j + 1..];
    var x', y' := Without(x, a.path), Without(y, a.path);
    WithoutAround(s, j, a.path);
    if e.tsMs <= a.tsMs {
      InsertBefore(a, x', e, y');
      var before := Sorting.Insert(a, x', Age);
      k := |before|;
      assert (before + ([e] + y'))[..k] == before;
      FrontByMultiset(a, x, x);
    } else {
      NewerStay(a, s, j);
      Associates(x, [e], y');
      InsertAfter(a, x + [e], y');
      k := j;
      assert (x + [e] + Sorting.Insert(a, y', Age))[..j] == x;
    }
  }

  lemma WithoutAround(s: seq<Artifact>, j: nat, path: string)
    requires j < |s| && s[j].path != path
    ensures Without(s, path) == Without(s[..j], path) + ([s[j]] + Without(s[j + 1..], path))
  {
    var rest := [s[j]] + s[j + 1..];
    assert s == s[..j] + rest && rest[1..] == s[j + 1..];
    WithoutConcat(s[..j], rest, path);
  }

  lemma NewerStay(a: Artifact, s: seq<Artifact>, j: nat)
    requires Ranked(s) && j < |s| && a.tsMs < s[j].tsMs && !Stale(s, a.path, a.tsMs)
    ensures Without(s[..j], a.path) == s[..j]
    ensures forall b :: b in s[..j] ==> a.tsMs < b.tsMs
  {
    RankedIsDescending(s);
    forall b | b in s[..j] ensures a.tsMs < b.tsMs && b.path != a.path {
      var i :| 0 <= i < j && s[..j][i] == b;
      assert s[i] == b && b in s && s[j].tsMs <= s[i].tsMs;
    }
    AbsentPath(s[..j], a.path);
  }

  lemma {:induction false} ArrivedPlace(s: seq<Artifact>, j: nat, reports: seq<Report>, m: Merge) returns (k: nat)
    requires Ranked(s) && j < |s| && Untouched(s[j].path, reports) && NoneStale(s, reports, m.tsMs)
    ensures k < |Arrived(s, reports, m)| && Arrived(s, reports, m)[k] == s[j]
    ensures multiset(Arrived(s, reports, m)[..k]) == multiset(Before(s, j, reports, m))
    decreases reports
  {
    if reports == [] {
      k := j;
    } else {
      var rest := reports[1..];
      assert forall i :: 0 <= i < |rest| ==> rest[i] == reports[i + 1];
      RankedHavePaths(s);
      if reports[0].path == "" {
        k := ArrivedPlace(s, j, rest, m);
      } else {
        var a := Stamp(reports[0], m);
        var i := ArrivePlace(a, s, j);
        var next := Arrive(a, s);
        ArriveIsRanked(a, s);
        k := ArrivedPlace(next, i, rest, m);
        if s[j].tsMs <= m.tsMs {
          PromoteByMultiset(next[..i], Front(a, s[..j]), rest, m);
        }
      }
    }
  }
}
