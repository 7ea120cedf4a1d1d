/**
 * Exactly when merging into a trimmed list keeps what the full history would keep
 * (rdc_tool/context_snapshot.py, _trim_artifacts and merge_recent_artifacts).
 *
 * The quotas choose greedily, so leaving out entries they would not choose anyway changes nothing.
 * A merge therefore disagrees with the history exactly when it gives a dropped entry its place back, or
 * when it takes a report for the newest of its path that the history does not.
 */
module RetentionAgreement {
  import opened Wrappers
  import opened RecentArtifacts
  import opened RetentionHistory
  import Sorting

  // ----- Entries that are not chosen do not matter

  function Those(s: seq<Artifact>, keep: set<Artifact>): seq<Artifact> {
    if s == [] then []
    else if s[0] in keep then [s[0]] + Those(s[1..], keep)
    else Those(s[1..], keep)
  }

  function Elements(s: seq<Artifact>): set<Artifact> {
    set a | a in s
  }

  lemma {:induction false} GreedyIgnores(
    s: seq<Artifact>, keep: set<Artifact>, perType: int, seen: multiset<string>, n: nat)
    requires forall a :: a in Take(WithinTypeQuota(s, perType, seen), n) ==> a in keep
    ensures Take(WithinTypeQuota(Those(s, keep), perType, seen), n) == Take(WithinTypeQuota(s, perType, seen), n)
  {
    if s != [] && 0 < n {
      if seen[KindOf(s[0])] < perType {
        var next := seen + multiset{KindOf(s[0])};
        var rest := WithinTypeQuota(s[1..], perType, next);
        assert Take([s[0]] + rest, n) == [s[0]] + Take(rest, n - 1);
        GreedyIgnores(s[1..], keep, perType, next, n - 1);
        var fewer := WithinTypeQuota(Those(s[1..], keep), perType, next);
        assert Those(s, keep)[1..] == Those(s[1..], keep);
        assert Take([s[0]] + fewer, n) == [s[0]] + Take(fewer, n - 1);
      } else {
        GreedyIgnores(s[1..], keep, perType, seen, n);
        assert s[0] in keep ==> Those(s, keep)[1..] == Those(s[1..], keep);
      }
    }
  }

  /** Leaving out entries that the quotas drop anyway changes nothing. */
  lemma DroppedDoNotMatter(s: seq<Artifact>, keep: set<Artifact>, r: Retention)
    requires forall a :: a in Quota(s, r) ==> a in keep
    ensures Quota(Those(s, keep), r) == Quota(s, r)
  {
    GreedyIgnores(s, keep, r.perTypeLimit, multiset{}, Room(r));
  }

  lemma ThoseMembers(s: seq<Artifact>, keep: set<Artifact>)
    ensures forall a :: a in Those(s, keep) <==> a in s && a in keep
  {
  }

  lemma {:induction false} ThoseAgree(s: seq<Artifact>, keep: set<Artifact>, other: set<Artifact>)
    requires forall a :: a in s ==> (a in keep <==> a in other)
    ensures Those(s, keep) == Those(s, other)
  {
    if s != [] {
      ThoseAgree(s[1..], keep, other);
    }
  }

  lemma {:induction false} ThoseTwice(s: seq<Artifact>, keep: set<Artifact>, fewer: set<Artifact>)
    requires fewer <= keep
    ensures Those(Those(s, keep), fewer) == Those(s, fewer)
  {
    if s != [] {
      ThoseTwice(s[1..], keep, fewer);
      assert s[0] in keep ==> Those(s, keep)[1..] == Those(s[1..], keep);
    }
  }

  lemma {:induction false} WithoutThose(s: seq<Artifact>, keep: set<Artifact>, path: string)
    ensures Without(Those(s, keep), path) == Those(Without(s, path), keep)
  {
    if s != [] {
      WithoutThose(s[1..], keep, path);
      assert s[0] in keep ==> Those(s, keep)[1..] == Those(s[1..], keep);
      assert s[0].path != path ==> Without(s, path)[1..] == Without(s[1..], path);
    }
  }

  lemma {:induction false} ChosenAreThose(
    s: seq<Artifact>, perType: int, seen: multiset<string>, n: nat, keep: set<Artifact>)
    requires OnePerPath(s)
    requires forall a :: a in s ==> (a in keep <==> a in Take(WithinTypeQuota(s, perType, seen), n))
    ensures Those(s, keep) == Take(WithinTypeQuota(s, perType, seen), n)
  {
    if s != [] {
      OnePerPathTail(s);
      var accepted := seen[KindOf(s[0])] < perType;
      var next := if accepted then seen + multiset{KindOf(s[0])} else seen;
      var rest := WithinTypeQuota(s[1..], perType, next);
      QuotaMembers(s[1..], perType, next);
      if accepted && 0 < n {
        assert Take([s[0]] + rest, n) == [s[0]] + Take(rest, n - 1);
        ChosenAreThose(s[1..], perType, next, n - 1, keep);
      } else {
        assert s[0] !in keep;
        assert n == 0 ==> Take(rest, n) == [];
        ChosenAreThose(s[1..], perType, next, n, keep);
      }
    }
  }

  lemma KeptAreThose(s: seq<Artifact>, r: Retention)
    requires OnePerPath(s)
    ensures Quota(s, r) == Those(s, Elements(Quota(s, r)))
  {
    ChosenAreThose(s, r.perTypeLimit, multiset{}, Room(r), Elements(Quota(s, r)));
  }

  // ----- Promotion

  function Stamps(reports: seq<Report>, m: Merge): set<Artifact> {
    set i | 0 <= i < |reports| && reports[i].path != "" :: Stamp(reports[i], m)
  }

  lemma StampsStep(reports: seq<Report>, m: Merge)
    requires reports != []
    ensures Stamps(reports, m) ==
      (if reports[0].path == "" then {} else {Stamp(reports[0], m)}) + Stamps(reports[1..], m)
  {
    assert forall i :: 0 < i < |reports| ==> reports[i] == reports[1..][i - 1];
    forall a | a in Stamps(reports[1..], m) ensures a in Stamps(reports, m) {
      var i :| 0 <= i < |reports[1..]| && reports[1..][i].path != "" && Stamp(reports[1..][i], m) == a;
      assert reports[i + 1] == reports[1..][i];
    }
    forall a | a in Stamps(reports, m) && (reports[0].path == "" || a != Stamp(reports[0], m))
      ensures a in Stamps(reports[1..], m)
    {
      var i :| 0 <= i < |reports| && reports[i].path != "" && Stamp(reports[i], m) == a;
      assert reports[1..][i - 1] == reports[i];
    }
  }

  lemma {:induction false} PromoteThose(s: seq<Artifact>, keep: set<Artifact>, reports: seq<Report>, m: Merge)
    ensures Promote(Those(s, keep), reports, m) == Those(Promote(s, reports, m), keep + Stamps(reports, m))
    decreases reports
  {
    if reports == [] {
      assert keep + Stamps(reports, m) == keep;
    } else {
      StampsStep(reports, m);
      if reports[0].path == "" {
        PromoteThose(s, keep, reports[1..], m);
        assert keep + Stamps(reports[1..], m) == keep + Stamps(reports, m);
      } else {
        var a := Stamp(reports[0], m);
        WithoutThose(s, keep, a.path);
        WithoutMembers(s, a.path);
        ThoseAgree(Without(s, a.path), keep, keep + {a});
        assert Front(a, s)[1..] == Without(s, a.path);
        assert Those(Front(a, s), keep + {a}) == Front(a, Those(s, keep));
        PromoteThose(Front(a, s), keep + {a}, reports[1..], m);
        assert keep + {a} + Stamps(reports[1..], m) == keep + Stamps(reports, m);
      }
    }
  }

  lemma {:induction false} PromoteMembers(s: seq<Artifact>, reports: seq<Report>, m: Merge)
    ensures forall a :: a in Promote(s, reports, m) ==>
              a in Stamps(reports, m) || (a in s && Untouched(a.path, reports))
    decreases reports
  {
    if reports != [] {
      var rest := reports[1..];
      StampsStep(reports, m);
      var next := if reports[0].path == "" then s else Front(Stamp(reports[0], m), s);
      PromoteMembers(next, rest, m);
      WithoutMembers(s, reports[0].path);
      forall a | a in s && a in next && Untouched(a.path, rest) && a !in Stamps(reports, m)
        ensures Untouched(a.path, reports)
      {
        assert forall i :: 0 < i < |reports| ==> reports[i] == rest[i - 1];
      }
    }
  }

  lemma {:induction false} PromoteKeepsOnePerPath(s: seq<Artifact>, reports: seq<Report>, m: Merge)
    requires OnePerPath(s)
    ensures OnePerPath(Promote(s, reports, m))
    decreases reports
  {
    if reports != [] {
      if reports[0].path == "" {
        PromoteKeepsOnePerPath(s, reports[1..], m);
      } else {
        FrontIsOnePerPath(Stamp(reports[0], m), s);
        PromoteKeepsOnePerPath(Front(Stamp(reports[0], m), s), reports[1..], m);
      }
    }
  }

  function Unreported(s: seq<Artifact>, reports: seq<Report>): seq<Artifact>
    decreases reports
  {
    if reports == [] then s
    else Unreported(if reports[0].path == "" then s else Without(s, reports[0].path), reports[1..])
  }

  lemma {:induction false} PromoteAppends(s: seq<Artifact>, t: seq<Artifact>, reports: seq<Report>, m: Merge)
    ensures Promote(s + t, reports, m) == Promote(s, reports, m) + Unreported(t, reports)
    decreases reports
  {
    if reports != [] {
      if reports[0].path == "" {
        PromoteAppends(s, t, reports[1..], m);
      } else {
        var a := Stamp(reports[0], m);
        WithoutConcat(s, t, a.path);
        Associates([a], Without(s, a.path), Without(t, a.path));
        PromoteAppends(Front(a, s), Without(t, a.path), reports[1..], m);
      }
    }
  }

  lemma {:induction false} UnreportedFirst(a: Artifact, s: seq<Artifact>, reports: seq<Report>)
    requires Untouched(a.path, reports)
    ensures Unreported([a] + s, reports) == [a] + Unreported(s, reports)
    decreases reports
  {
    if reports != [] {
      assert ([a] + s)[1..] == s;
      assert forall i :: 0 <= i < |reports[1..]| ==> reports[1..][i] == reports[i + 1];
      var next := if reports[0].path == "" then s else Without(s, reports[0].path);
      UnreportedFirst(a, next, reports[1..]);
    }
  }

  /** Where an untouched entry stands after a promotion, and what stands before it. */
  lemma PlaceAfterPromotion(s: seq<Artifact>, j: nat, reports: seq<Report>, m: Merge)
    requires j < |s| && Untouched(s[j].path, reports)
    ensures var all, before := Promote(s, reports, m), Promote(s[..j], reports, m);
            |before| < |all| && all[|before|] == s[j] && all[..|before|] == before
  {
    assert s == s[..j] + ([s[j]] + s[j + 1..]);
    PromoteAppends(s[..j], [s[j]] + s[j + 1..], reports, m);
    UnreportedFirst(s[j], s[j + 1..], reports);
  }

  // ----- Main results

  /**
   * Every untouched entry that the quotas drop before a batch they also drop after it. This can be
   * computed from the list, the reports and the limits before the merge.
   */
  predicate DroppedStayOut(s: seq<Artifact>, reports: seq<Report>, m: Merge, r: Retention) {
    forall j :: 0 <= j < |s| && Untouched(s[j].path, reports) && !Admitted(s[..j], s[j], r) ==>
      !Admitted(Promote(s[..j], reports, m), s[j], r)
  }

  /** A choice from fewer entries is the same exactly when they include all that is chosen from more. */
  lemma ChoiceAgreesIff(s: seq<Artifact>, keep: set<Artifact>, r: Retention)
    ensures Quota(Those(s, keep), r) == Quota(s, r) <==> forall a :: a in Quota(s, r) ==> a in keep
  {
    if forall a :: a in Quota(s, r) ==> a in keep {
      DroppedDoNotMatter(s, keep, r);
    } else {
      QuotaMembers(Those(s, keep), r.perTypeLimit, multiset{});
      ThoseMembers(s, keep);
      assert forall a :: a in Quota(Those(s, keep), r) ==> a in keep;
    }
  }

  /** A batch agrees with the history exactly when it gives no dropped entry its place back. */
  lemma BatchAgreesIff(s: seq<Artifact>, reports: seq<Report>, m: Merge, r: Retention)
    requires OnePerPath(s)
    ensures Quota(Promote(Quota(s, r), reports, m), r) == Quota(Promote(s, reports, m), r)
       <==> DroppedStayOut(s, reports, m, r)
  {
    var all := Promote(s, reports, m);
    var keep := Elements(Quota(s, r));
    KeptAreThose(s, r);
    PromoteThose(s, keep, reports, m);
    ChoiceAgreesIff(all, keep + Stamps(reports, m), r);
    PromoteKeepsOnePerPath(s, reports, m);
    ChosenAreKnownIff(s, reports, m, r);
  }

  lemma ChosenAreKnownIff(s: seq<Artifact>, reports: seq<Report>, m: Merge, r: Retention)
    requires OnePerPath(s) && OnePerPath(Promote(s, reports, m))
    ensures (forall a :: a in Quota(Promote(s, reports, m), r) ==>
               a in Elements(Quota(s, r)) + Stamps(reports, m))
       <==> DroppedStayOut(s, reports, m, r)
  {
    var all := Promote(s, reports, m);
    var known := Elements(Quota(s, r)) + Stamps(reports, m);
    forall j | 0 <= j < |s| && Untouched(s[j].path, reports)
      ensures s[j] in Quota(s, r) <==> Admitted(s[..j], s[j], r)
      ensures s[j] in Quota(all, r) <==> Admitted(Promote(s[..j], reports, m), s[j], r)
      ensures s[j] in Stamps(reports, m) ==> s[j].path == ""
    {
      QuotaKeepsIff(s, r, j);
      PlaceAfterPromotion(s, j, reports, m);
      QuotaKeepsIff(all, r, |Promote(s[..j], reports, m)|);
    }
    if DroppedStayOut(s, reports, m, r) {
      forall a | a in Quota(all, r) ensures a in known {
        QuotaMembers(all, r.perTypeLimit, multiset{});
        PromoteMembers(s, reports, m);
        if a !in Stamps(reports, m) {
          var j :| 0 <= j < |s| && s[j] == a;
        }
      }
    } else {
      var j :| 0 <= j < |s| && Untouched(s[j].path, reports) && !Admitted(s[..j], s[j], r)
               && Admitted(Promote(s[..j], reports, m), s[j], r);
      assert s[j] in Quota(all, r) && s[j] !in known;
    }
  }

  /** One arrival, of whatever type: exactly when the entries that a trim dropped stay out. */
  lemma ArrivalAgreesIff(a: Artifact, s: seq<Artifact>, r: Retention)
    requires OnePerPath(s) && Clean(a)
    ensures Quota(Front(a, Quota(s, r)), r) == Quota(Front(a, s), r) <==>
      forall j :: 0 <= j < |s| && s[j].path != a.path && !Admitted(s[..j], s[j], r) ==>
        !Admitted(Front(a, s[..j]), s[j], r)
  {
    var reports := [Report(a.path, a.kind)];
    var m := Merge(reports, a.sourceTool, a.tsMs);
    assert Stamp(reports[0], m) == a && reports[1..] == [];
    assert forall t :: Promote(t, reports, m) == Promote(Front(a, t), [], m) == Front(a, t);
    assert forall path :: Untouched(path, reports) <==> path != a.path by {
      assert forall path :: Untouched(path, reports) ==> path == "" || reports[0].path != path;
    }
    BatchAgreesIff(s, reports, m, r);
  }

  /** With limits that drop nothing, every batch agrees. */
  lemma SlackAgrees(s: seq<Artifact>, reports: seq<Report>, m: Merge, r: Retention)
    requires OnePerPath(s) && Quota(s, r) == s
    ensures DroppedStayOut(s, reports, m, r)
  {
    forall j | 0 <= j < |s| ensures Admitted(s[..j], s[j], r) {
      QuotaKeepsIff(s, r, j);
    }
  }

  // ----- Merges on any clock

  lemma {:induction false} InsertThose(a: Artifact, s: seq<Artifact>, keep: set<Artifact>)
    requires Descending(s) && a !in s
    ensures Sorting.Insert(a, Those(s, keep), Age) == Those(Sorting.Insert(a, s, Age), keep + {a})
  {
    ThoseMembers(s, keep);
    if s == [] || s[0].tsMs <= a.tsMs {
      assert ([a] + s)[1..] == s;
      if s != [] {
        DescendingTail(s);
      }
      assert Those(s, keep) != [] ==> Those(s, keep)[0] in s;
      ThoseAgree(s, keep, keep + {a});
    } else {
      DescendingTail(s);
      InsertThose(a, s[1..], keep);
      assert Sorting.Insert(a, s, Age)[1..] == Sorting.Insert(a, s[1..], Age);
      assert s[0] in keep ==> Those(s, keep)[1..] == Those(s[1..], keep);
    }
  }

  lemma {:induction false} ArrivedThose(s: seq<Artifact>, keep: set<Artifact>, reports: seq<Report>, m: Merge)
    requires Ranked(s)
    ensures Arrived(Those(s, keep), reports, m) == Those(Arrived(s, reports, m), keep + Stamps(reports, m))
    decreases reports
  {
    if reports == [] {
      assert keep + Stamps(reports, m) == keep;
    } else {
      StampsStep(reports, m);
      if reports[0].path == "" {
        ArrivedThose(s, keep, reports[1..], m);
        assert keep + Stamps(reports[1..], m) == keep + Stamps(reports, m);
      } else {
        var a := Stamp(reports[0], m);
        RankedWithout(s, a.path);
        RankedIsDescending(Without(s, a.path));
        WithoutMembers(s, a.path);
        WithoutThose(s, keep, a.path);
        InsertThose(a, Without(s, a.path), keep);
        ArriveIsRanked(a, s);
        ArrivedThose(Arrive(a, s), keep + {a}, reports[1..], m);
        assert keep + {a} + Stamps(reports[1..], m) == keep + Stamps(reports, m);
      }
    }
  }

  lemma {:induction false} ArrivedMembers(s: seq<Artifact>, reports: seq<Report>, m: Merge)
    requires Ranked(s)
    ensures forall a :: a in Arrived(s, reports, m) ==>
              a in Stamps(reports, m) || (a in s && Untouched(a.path, reports))
    decreases reports
  {
    if reports != [] {
      var rest := reports[1..];
      StampsStep(reports, m);
      assert forall i :: 0 < i < |reports| ==> reports[i] == rest[i - 1];
      if reports[0].path == "" {
        ArrivedMembers(s, rest, m);
        RankedHavePaths(s);
      } else {
        ArriveIsRanked(Stamp(reports[0], m), s);
        ArrivedMembers(Arrive(Stamp(reports[0], m), s), rest, m);
      }
    }
  }

  function Except(s: seq<Artifact>, paths: set<string>): seq<Artifact> {
    if s == [] then []
    else if s[0].path in paths then Except(s[1..], paths)
    else [s[0]] + Except(s[1..], paths)
  }

  lemma ExceptMembers(s: seq<Artifact>, paths: set<string>)
    ensures forall a :: a in Except(s, paths) <==> a in s && a.path !in paths
  {
  }

  lemma {:induction false} ExceptIsThose(s: seq<Artifact>, paths: set<string>, keep: set<Artifact>)
    requires forall a :: a in s ==> (a in keep <==> a.path !in paths)
    ensures Except(s, paths) == Those(s, keep)
  {
    if s != [] {
      ExceptIsThose(s[1..], paths, keep);
    }
  }

  lemma {:induction false} ExceptWithout(s: seq<Artifact>, paths: set<string>, path: string)
    ensures Except(Without(s, path), paths) == Without(Except(s, paths), path)
    ensures path in paths ==> Except(Without(s, path), paths) == Except(s, paths)
  {
    if s != [] {
      ExceptWithout(s[1..], paths, path);
      assert s[0].path != path ==> Without(s, path)[1..] == Without(s[1..], path);
      assert s[0].path !in paths ==> Except(s, paths)[1..] == Except(s[1..], paths);
    }
  }

  lemma {:induction false} ExceptInsert(a: Artifact, s: seq<Artifact>, paths: set<string>)
    requires Descending(s)
    ensures Except(Sorting.Insert(a, s, Age), paths) ==
      if a.path in paths then Except(s, paths) else Sorting.Insert(a, Except(s, paths), Age)
  {
    ExceptMembers(s, paths);
    if s == [] || s[0].tsMs <= a.tsMs {
      assert ([a] + s)[1..] == s;
      if s != [] {
        DescendingTail(s);
      }
      assert Except(s, paths) != [] ==> Except(s, paths)[0] in s;
    } else {
      DescendingTail(s);
      ExceptInsert(a, s[1..], paths);
      assert Sorting.Insert(a, s, Age)[1..] == Sorting.Insert(a, s[1..], Age);
      assert s[0].path !in paths ==> Except(s, paths)[1..] == Except(s[1..], paths);
    }
  }

  /** Leaving out some paths and their reports. */
  lemma {:induction false} ExceptArrived(s: seq<Artifact>, reports: seq<Report>, m: Merge, paths: set<string>)
    requires Ranked(s) && "" !in paths
    ensures Except(Arrived(s, reports, m), paths) == Arrived(Except(s, paths), Unlisted(reports, paths), m)
    decreases reports
  {
    if reports != [] {
      if reports[0].path == "" {
        ExceptArrived(s, reports[1..], m, paths);
      } else {
        var a := Stamp(reports[0], m);
        RankedWithout(s, a.path);
        RankedIsDescending(Without(s, a.path));
        ExceptWithout(s, paths, a.path);
        ExceptInsert(a, Without(s, a.path), paths);
        ArriveIsRanked(a, s);
        ExceptArrived(Arrive(a, s), reports[1..], m, paths);
      }
    }
  }

  /** The reported paths of which the list has an entry newer than the merge. */
  function StalePaths(s: seq<Artifact>, reports: seq<Report>, ts: int): set<string> {
    set i | 0 <= i < |reports| && reports[i].path != "" && Stale(s, reports[i].path, ts) :: reports[i].path
  }

  function TimelyReports(s: seq<Artifact>, m: Merge): seq<Report> {
    Unlisted(m.reports, StalePaths(s, m.reports, m.tsMs))
  }

  /**
   * What can be computed from the deduplicated history, the merge and the limits before the merge: no newer
   * entry of a reported path is kept; of the entries of other paths that are no newer than the merge, those
   * that are dropped stay out; and the reports that come too late for the history find no room.
   */
  predicate KeepsUp(s: seq<Artifact>, m: Merge, r: Retention) {
    && NewerAreDropped(s, m, r)
    && OlderStayOut(s, m, r)
    && StaleFindNoRoom(Arrived(Quota(s, r), m.reports, m), StalePaths(s, m.reports, m.tsMs), r)
  }

  predicate NewerAreDropped(s: seq<Artifact>, m: Merge, r: Retention) {
    forall j :: 0 <= j < |s| && s[j].path in StalePaths(s, m.reports, m.tsMs) ==> !Admitted(s[..j], s[j], r)
  }

  predicate OlderStayOut(s: seq<Artifact>, m: Merge, r: Retention) {
    forall j :: 0 <= j < |s| && Untouched(s[j].path, m.reports) && s[j].tsMs <= m.tsMs && !Admitted(s[..j], s[j], r) ==>
      !Admitted(Promote(s[..j], TimelyReports(s, m), m), s[j], r)
  }

  predicate StaleFindNoRoom(held: seq<Artifact>, stale: set<string>, r: Retention) {
    forall i :: 0 <= i < |held| && held[i].path in stale ==> !Admitted(held[..i], held[i], r)
  }

  lemma {:induction false} UnlistedReports(reports: seq<Report>, paths: set<string>, m: Merge)
    ensures forall i :: 0 <= i < |Unlisted(reports, paths)| ==>
              Unlisted(reports, paths)[i] in reports && Unlisted(reports, paths)[i].path !in paths
    ensures forall path :: path !in paths ==> (Untouched(path, Unlisted(reports, paths)) <==> Untouched(path, reports))
    ensures forall path :: path in paths ==> Untouched(path, Unlisted(reports, paths))
  {
    if reports != [] {
      var rest := reports[1..];
      UnlistedReports(rest, paths, m);
      assert forall i :: 0 < i < |reports| ==> reports[i] == rest[i - 1];
      if reports[0].path !in paths {
        var all := Unlisted(reports, paths);
        assert forall i :: 0 < i < |all| ==> all[i] == Unlisted(rest, paths)[i - 1];
        forall path | path !in paths ensures Untouched(path, all) <==> Untouched(path, reports) {
          UntouchedStep(path, reports);
          UntouchedStep(path, all);
          assert all[1..] == Unlisted(rest, paths);
        }
        forall path | path in paths ensures Untouched(path, all) {
          UntouchedStep(path, all);
          assert all[1..] == Unlisted(rest, paths);
        }
      } else {
        forall path | path !in paths ensures Untouched(path, rest) <==> Untouched(path, reports) {
          UntouchedStep(path, reports);
        }
      }
    }
  }

  lemma UntouchedStep(path: string, reports: seq<Report>)
    requires reports != []
    ensures Untouched(path, reports) <==> path == "" || (reports[0].path != path && Untouched(path, reports[1..]))
  {
    assert forall i :: 0 < i < |reports| ==> reports[i] == reports[1..][i - 1];
    if path != "" && Untouched(path, reports) {
      forall i | 0 <= i < |reports[1..]| ensures reports[1..][i].path != path {
        assert reports[i + 1].path != path;
      }
    }
  }

  lemma TimelyAreNotStale(s: seq<Artifact>, m: Merge)
    ensures NoneStale(s, TimelyReports(s, m), m.tsMs)
  {
    UnlistedReports(m.reports, StalePaths(s, m.reports, m.tsMs), m);
  }

  /** Where an entry of a path without a timely report stands in the history after the merge. */
  lemma ChosenAfterMergeIff(s: seq<Artifact>, m: Merge, r: Retention, j: nat)
    requires Ranked(s) && j < |s| && Untouched(s[j].path, TimelyReports(s, m))
    ensures s[j] in Quota(Arrived(s, TimelyReports(s, m), m), r)
       <==> Admitted(Before(s, j, TimelyReports(s, m), m), s[j], r)
  {
    var timely := TimelyReports(s, m);
    var full := Arrived(s, timely, m);
    TimelyAreNotStale(s, m);
    ArrivedIsRanked(s, timely, m);
    RankedIsOnePerPath(full);
    var k := ArrivedPlace(s, j, timely, m);
    QuotaKeepsIff(full, r, k);
    AdmittedByMultiset(full[..k], Before(s, j, timely, m), s[j], r);
  }

  lemma StaleIsNewer(s: seq<Artifact>, m: Merge, j: nat)
    requires Ranked(s) && j < |s| && s[j].path in StalePaths(s, m.reports, m.tsMs)
    ensures m.tsMs < s[j].tsMs
  {
    RankedIsOnePerPath(s);
    var b :| b in s && b.path == s[j].path && m.tsMs < b.tsMs;
    var i :| 0 <= i < |s| && s[i] == b;
  }

  /** What is still there, of what the history chooses from, when the merge chooses. */
  function StillThere(s: seq<Artifact>, m: Merge, r: Retention): set<Artifact> {
    (set a | a in Quota(s, r) && a.path !in StalePaths(s, m.reports, m.tsMs)) + Stamps(TimelyReports(s, m), m)
  }

  lemma ChosenAreThereIff(s: seq<Artifact>, m: Merge, r: Retention)
    requires Ranked(s)
    ensures (forall a :: a in Quota(Arrived(s, TimelyReports(s, m), m), r) ==> a in StillThere(s, m, r))
       <==> NewerAreDropped(s, m, r) && OlderStayOut(s, m, r)
  {
    var stale, timely := StalePaths(s, m.reports, m.tsMs), TimelyReports(s, m);
    var full := Arrived(s, timely, m);
    RankedIsOnePerPath(s);
    RankedHavePaths(s);
    UnlistedReports(m.reports, stale, m);
    forall j | 0 <= j < |s| ensures ChosenByPlace(s, m, r, full, j) {
      if Untouched(s[j].path, timely) {
        QuotaKeepsIff(s, r, j);
        ChosenAfterMergeIff(s, m, r, j);
        if s[j].path in stale {
          StaleIsNewer(s, m, j);
        }
      }
    }
    QuotaMembers(full, r.perTypeLimit, multiset{});
    ArrivedMembers(s, timely, m);
    ChoiceByPlace(s, m, r, full);
  }

  /** Whether an entry without a timely report is chosen depends on what stands before it. */
  predicate ChosenByPlace(s: seq<Artifact>, m: Merge, r: Retention, full: seq<Artifact>, j: nat)
    requires j < |s|
  {
    var timely, stale := TimelyReports(s, m), StalePaths(s, m.reports, m.tsMs);
    && (Untouched(s[j].path, timely) <==> s[j].path in stale || Untouched(s[j].path, m.reports))
    && (Untouched(s[j].path, timely) ==>
          && (s[j] in Quota(s, r) <==> Admitted(s[..j], s[j], r))
          && (s[j] in Quota(full, r) <==> Admitted(Before(s, j, timely, m), s[j], r))
          && s[j] !in Stamps(timely, m)
          && (s[j].path in stale ==> m.tsMs < s[j].tsMs))
  }

  predicate IsUntouched(s: seq<Artifact>, m: Merge, a: Artifact) {
    exists j :: 0 <= j < |s| && s[j] == a && Untouched(s[j].path, TimelyReports(s, m))
  }

  lemma ChoiceByPlace(s: seq<Artifact>, m: Merge, r: Retention, full: seq<Artifact>)
    requires forall j :: 0 <= j < |s| ==> ChosenByPlace(s, m, r, full, j)
    requires forall a :: a in Quota(full, r) ==> a in Stamps(TimelyReports(s, m), m) || IsUntouched(s, m, a)
    ensures (forall a :: a in Quota(full, r) ==> a in StillThere(s, m, r))
       <==> NewerAreDropped(s, m, r) && OlderStayOut(s, m, r)
  {
    var timely, stale := TimelyReports(s, m), StalePaths(s, m.reports, m.tsMs);
    if forall a :: a in Quota(full, r) ==> a in StillThere(s, m, r) {
      forall j | 0 <= j < |s|
        ensures s[j].path in stale ==> !Admitted(s[..j], s[j], r) && m.tsMs < s[j].tsMs
        ensures Untouched(s[j].path, m.reports) && s[j].path !in stale && !Admitted(s[..j], s[j], r) ==>
                  !Admitted(Before(s, j, timely, m), s[j], r)
      {
        assert ChosenByPlace(s, m, r, full, j);
        assert s[j] in Quota(full, r) ==> s[j] in StillThere(s, m, r);
      }
    } else {
      var a :| a in Quota(full, r) && a !in StillThere(s, m, r);
      var j :| 0 <= j < |s| && s[j] == a && Untouched(s[j].path, timely);
      assert ChosenByPlace(s, m, r, full, j);
      assert s[j].path in stale || !Admitted(s[..j], s[j], r);
    }
  }

  /** A merge into a trimmed list, against the trim of the longer history, both deduplicated. */
  lemma ArrivalsAgreeIff(s: seq<Artifact>, m: Merge, r: Retention)
    requires Ranked(s)
    ensures Quota(Arrived(Quota(s, r), m.reports, m), r) == Quota(Arrived(s, TimelyReports(s, m), m), r)
       <==> KeepsUp(s, m, r)
  {
    var held := Arrived(Quota(s, r), m.reports, m);
    TrimOfRanked(s, r);
    ArrivedIsRanked(Quota(s, r), m.reports, m);
    NoRoomIff(held, StalePaths(s, m.reports, m.tsMs), r);
    if StaleFindNoRoom(held, StalePaths(s, m.reports, m.tsMs), r) {
      WithoutStale(s, m, r);
      ChoiceAgreesIff(Arrived(s, TimelyReports(s, m), m), StillThere(s, m, r), r);
      ChosenAreThereIff(s, m, r);
    } else {
      StaleAreNotKept(s, m, r);
      QuotaMembers(held, r.perTypeLimit, multiset{});
    }
  }

  lemma NoRoomIff(held: seq<Artifact>, stale: set<string>, r: Retention)
    requires Ranked(held)
    ensures StaleFindNoRoom(held, stale, r) <==> forall a :: a in Quota(held, r) ==> a.path !in stale
  {
    RankedIsOnePerPath(held);
    forall i | 0 <= i < |held| ensures held[i] in Quota(held, r) <==> Admitted(held[..i], held[i], r) {
      QuotaKeepsIff(held, r, i);
    }
    QuotaMembers(held, r.perTypeLimit, multiset{});
    forall a | a in Quota(held, r) ensures exists i :: 0 <= i < |held| && held[i] == a {
      assert a in held;
    }
  }

  /** With no room for stale reports, a merge chooses from what is still there. */
  lemma WithoutStale(s: seq<Artifact>, m: Merge, r: Retention)
    requires Ranked(s)
    requires forall a :: a in Quota(Arrived(Quota(s, r), m.reports, m), r) ==>
               a.path !in StalePaths(s, m.reports, m.tsMs)
    ensures Quota(Arrived(Quota(s, r), m.reports, m), r)
         == Quota(Those(Arrived(s, TimelyReports(s, m), m), StillThere(s, m, r)), r)
  {
    var stale, kept := StalePaths(s, m.reports, m.tsMs), Quota(s, r);
    var held := Arrived(kept, m.reports, m);
    var remaining := set a | a in kept && a.path !in stale;
    TrimOfRanked(s, r);
    RankedIsOnePerPath(s);
    var others := set a | a in held && a.path !in stale;
    QuotaMembers(held, r.perTypeLimit, multiset{});
    DroppedDoNotMatter(held, others, r);
    ExceptIsThose(held, stale, others);
    ExceptArrived(kept, m.reports, m, stale);
    ExceptIsThose(kept, stale, remaining);
    KeptAreThose(s, r);
    ThoseTwice(s, Elements(kept), remaining);
    ArrivedThose(s, remaining, TimelyReports(s, m), m);
  }

  /** The history keeps no report that is stale: its entry of that path is newer. */
  lemma StaleAreNotKept(s: seq<Artifact>, m: Merge, r: Retention)
    requires Ranked(s)
    ensures forall a :: a in Arrived(Quota(s, r), m.reports, m) && a.path in StalePaths(s, m.reports, m.tsMs) ==>
              a !in Quota(Arrived(s, TimelyReports(s, m), m), r)
  {
    var full := Arrived(s, TimelyReports(s, m), m);
    TrimOfRanked(s, r);
    ArrivedMembers(Quota(s, r), m.reports, m);
    StaleInFullAreNewer(s, m);
    QuotaMembers(full, r.perTypeLimit, multiset{});
    forall a | a in Arrived(Quota(s, r), m.reports, m) && a.path in StalePaths(s, m.reports, m.tsMs)
      ensures a.tsMs == m.tsMs
    {
      assert !Untouched(a.path, m.reports);
    }
  }

  lemma StaleInFullAreNewer(s: seq<Artifact>, m: Merge)
    requires Ranked(s)
    ensures forall a :: a in Arrived(s, TimelyReports(s, m), m) && a.path in StalePaths(s, m.reports, m.tsMs) ==>
              m.tsMs < a.tsMs
  {
    var stale, timely := StalePaths(s, m.reports, m.tsMs), TimelyReports(s, m);
    ArrivedMembers(s, timely, m);
    UnlistedReports(m.reports, stale, m);
    forall a | a in Arrived(s, timely, m) && a.path in stale ensures m.tsMs < a.tsMs {
      assert Untouched(a.path, timely);
      var j :| 0 <= j < |s| && s[j] == a;
      StaleIsNewer(s, m, j);
    }
  }

  /**
   * One merge into the trimmed list, against the trim of the whole history: on any clock, for any types,
   * batches and limits.
   */
  lemma MergeAgreesIff(past: seq<Artifact>, m: Merge, r: Retention)
    requires forall a :: a in past ==> Clean(a)
    ensures Merged(Trim(past, r), m, r) == Trim(Pile(past, m.reports, m), r) <==> KeepsUp(Candidates(past), m, r)
  {
    var s := Candidates(past);
    CandidatesAreRanked(past);
    TrimOfRanked(s, r);
    TrimIsIdempotent(past, r);
    MergeIntoTrimmed(Trim(past, r), m, r);
    StaleAsBefore(past, m);
    CandidatesOfPile(past, m.reports, m, StalePaths(s, m.reports, m.tsMs));
    ArrivalsAgreeIff(s, m, r);
  }

  lemma StaleAsBefore(past: seq<Artifact>, m: Merge)
    ensures AreStale(StalePaths(Candidates(past), m.reports, m.tsMs), past, m.reports, m.tsMs)
  {
    forall i | 0 <= i < |m.reports| && m.reports[i].path != ""
      ensures m.reports[i].path in StalePaths(Candidates(past), m.reports, m.tsMs)
         <==> Stale(past, m.reports[i].path, m.tsMs)
    {
      StaleInCandidates(past, m.reports[i].path, m.tsMs);
    }
  }

  // ----- When every report is the newest of its path

  lemma {:induction false} NothingUnlisted(reports: seq<Report>)
    ensures Unlisted(reports, {}) == reports
  {
    if reports != [] {
      NothingUnlisted(reports[1..]);
    }
  }

  /** No report comes too late: then only the older entries matter. */
  lemma InOrderKeepsUpIff(s: seq<Artifact>, m: Merge, r: Retention)
    requires NoneStale(s, m.reports, m.tsMs)
    ensures KeepsUp(s, m, r) <==>
      forall j :: 0 <= j < |s| && Untouched(s[j].path, m.reports) && s[j].tsMs <= m.tsMs
                  && !Admitted(s[..j], s[j], r) ==>
        !Admitted(Promote(s[..j], m.reports, m), s[j], r)
    ensures DroppedStayOut(s, m.reports, m, r) ==> KeepsUp(s, m, r)
    ensures NoLaterThan(s, m.tsMs) ==> (KeepsUp(s, m, r) <==> DroppedStayOut(s, m.reports, m, r))
  {
    assert StalePaths(s, m.reports, m.tsMs) == {};
    NothingUnlisted(m.reports);
  }

  /** A single report, at any time, in terms of the list before it. */
  lemma ReportAgreesIff(past: seq<Artifact>, report: Report, m: Merge, r: Retention)
    requires forall a :: a in past ==> Clean(a)
    requires report.path != "" && m.reports == [report]
    ensures var s, a := Candidates(past), Stamp(report, m);
            Merged(Trim(past, r), m, r) == Trim(Pile(past, m.reports, m), r) <==>
              if Stale(s, a.path, a.tsMs) then
                && (forall j :: 0 <= j < |s| && s[j].path == a.path ==> !Admitted(s[..j], s[j], r))
                && !Admitted(NewerThan(Quota(s, r), a.tsMs), a, r)
              else
                forall j :: 0 <= j < |s| && s[j].path != a.path && s[j].tsMs <= a.tsMs
                            && !Admitted(s[..j], s[j], r) ==>
                  !Admitted(Front(a, s[..j]), s[j], r)
  {
    var s := Candidates(past);
    CandidatesAreRanked(past);
    MergeAgreesIff(past, m, r);
    if Stale(s, report.path, m.tsMs) {
      LateReportKeepsUpIff(s, report, m, r);
    } else {
      TimelyReportKeepsUpIff(s, report, m, r);
    }
  }

  lemma OnlyReportTouches(report: Report, m: Merge)
    requires report.path != "" && m.reports == [report]
    ensures forall path :: path != "" ==> (Untouched(path, m.reports) <==> path != report.path)
    ensures forall s :: Promote(s, m.reports, m) == Front(Stamp(report, m), s)
    ensures forall s :: Arrived(s, m.reports, m) == Arrive(Stamp(report, m), s)
  {
    var a := Stamp(report, m);
    assert m.reports[0] == report && m.reports[1..] == [];
    assert forall s :: Promote(s, m.reports, m) == Promote(Front(a, s), [], m);
    assert forall s :: Arrived(s, m.reports, m) == Arrived(Arrive(a, s), [], m);
  }

  lemma TimelyReportKeepsUpIff(s: seq<Artifact>, report: Report, m: Merge, r: Retention)
    requires Ranked(s) && report.path != "" && m.reports == [report] && !Stale(s, report.path, m.tsMs)
    ensures var a := Stamp(report, m);
            KeepsUp(s, m, r) <==>
              forall j :: 0 <= j < |s| && s[j].path != a.path && s[j].tsMs <= a.tsMs && !Admitted(s[..j], s[j], r) ==>
                !Admitted(Front(a, s[..j]), s[j], r)
  {
    RankedHavePaths(s);
    OnlyReportTouches(report, m);
    InOrderKeepsUpIff(s, m, r);
  }

  lemma LateReportKeepsUpIff(s: seq<Artifact>, report: Report, m: Merge, r: Retention)
    requires Ranked(s) && report.path != "" && m.reports == [report] && Stale(s, report.path, m.tsMs)
    ensures var a := Stamp(report, m);
            KeepsUp(s, m, r) <==>
              && (forall j :: 0 <= j < |s| && s[j].path == a.path ==> !Admitted(s[..j], s[j], r))
              && !Admitted(NewerThan(Quota(s, r), a.tsMs), a, r)
  {
    var a := Stamp(report, m);
    OnlyReportTouches(report, m);
    OnlyReportIsStale(s, report, m);
    assert OlderStayOut(s, m, r);
    if forall j :: 0 <= j < |s| && s[j].path == a.path ==> !Admitted(s[..j], s[j], r) {
      StaleReportIff(s, a, r);
    }
  }

  lemma OnlyReportIsStale(s: seq<Artifact>, report: Report, m: Merge)
    requires report.path != "" && m.reports == [report] && Stale(s, report.path, m.tsMs)
    ensures StalePaths(s, m.reports, m.tsMs) == {report.path} && TimelyReports(s, m) == []
  {
    assert m.reports[0] == report && m.reports[1..] == [];
    var stale := StalePaths(s, m.reports, m.tsMs);
    assert forall path :: path in stale <==> path == m.reports[0].path;
    assert Unlisted([], stale) == [];
  }

  function NewerThan(s: seq<Artifact>, ts: int): seq<Artifact> {
    if s == [] then []
    else if ts < s[0].tsMs then [s[0]] + NewerThan(s[1..], ts)
    else NewerThan(s[1..], ts)
  }

  lemma {:induction false} InsertPlace(a: Artifact, s: seq<Artifact>)
    requires Descending(s)
    ensures var k := |NewerThan(s, a.tsMs)|;
            && k < |Sorting.Insert(a, s, Age)|
            && Sorting.Insert(a, s, Age)[k] == a
            && Sorting.Insert(a, s, Age)[..k] == NewerThan(s, a.tsMs)
  {
    if s != [] {
      DescendingTail(s);
      if a.tsMs < s[0].tsMs {
        InsertPlace(a, s[1..]);
      } else {
        NoneNewer(s, a.tsMs);
      }
    }
  }

  lemma NoneNewer(s: seq<Artifact>, ts: int)
    requires forall b :: b in s ==> b.tsMs <= ts
    ensures NewerThan(s, ts) == []
  {
  }

  lemma StaleReportIff(s: seq<Artifact>, a: Artifact, r: Retention)
    requires Ranked(s) && HasPath(a) && Stale(s, a.path, a.tsMs)
    requires forall j :: 0 <= j < |s| && s[j].path == a.path ==> !Admitted(s[..j], s[j], r)
    ensures StaleFindNoRoom(Arrive(a, Quota(s, r)), {a.path}, r)
       <==> !Admitted(NewerThan(Quota(s, r), a.tsMs), a, r)
  {
    var kept := Quota(s, r);
    TrimOfRanked(s, r);
    RankedIsOnePerPath(s);
    forall b | b in kept ensures b.path != a.path {
      var j :| 0 <= j < |s| && s[j] == b;
      QuotaKeepsIff(s, r, j);
    }
    AbsentPath(kept, a.path);
    RoomForArrivalIff(a, kept, r);
  }

  lemma RoomForArrivalIff(a: Artifact, kept: seq<Artifact>, r: Retention)
    requires Ranked(kept) && HasPath(a) && Without(kept, a.path) == kept
    ensures StaleFindNoRoom(Arrive(a, kept), {a.path}, r) <==> !Admitted(NewerThan(kept, a.tsMs), a, r)
  {
    var held, k := Arrive(a, kept), |NewerThan(kept, a.tsMs)|;
    RankedIsDescending(kept);
    InsertPlace(a, kept);
    ArriveIsRanked(a, kept);
    RankedIsOnePerPath(held);
    assert forall i :: 0 <= i < |held| && held[i].path == a.path ==> i == k;
  }

  /** From a list that nothing was dropped from, under each limit that drops nothing. */
  lemma UntrimmedReportAgreesIff(s: seq<Artifact>, report: Report, m: Merge, r: Retention)
    requires Ranked(s) && Trim(s, r) == s && forall a :: a in s ==> Clean(a)
    requires report.path != "" && m.reports == [report]
    ensures Merged(s, m, r) == Trim(Pile(s, m.reports, m), r) <==> !Stale(s, report.path, m.tsMs)
  {
    RankedIsSettled(s);
    RankedIsOnePerPath(s);
    ReportAgreesIff(s, report, m, r);
    forall j | 0 <= j < |s| ensures Admitted(s[..j], s[j], r) {
      QuotaKeepsIff(s, r, j);
    }
    if Stale(s, report.path, m.tsMs) {
      var b :| b in s && b.path == report.path && m.tsMs < b.tsMs;
      var j :| 0 <= j < |s| && s[j] == b;
      assert Admitted(s[..j], s[j], r);
    }
  }

  // ----- Whole runs

  /** The list agrees with the trim of the full history after every merge so far. */
  predicate AgreesThroughout(initial: seq<Artifact>, merges: seq<Merge>, r: Retention) {
    && Run(initial, merges, r) == Trim(History(initial, merges), r)
    && (merges != [] ==> AgreesThroughout(initial, merges[..|merges| - 1], r))
  }

  /** Every merge keeps up with the history before it, which no trim has touched. */
  predicate KeepsUpThroughout(initial: seq<Artifact>, merges: seq<Merge>, r: Retention) {
    merges != [] ==>
      && KeepsUpThroughout(initial, merges[..|merges| - 1], r)
      && KeepsUp(Candidates(History(initial, merges[..|merges| - 1])), merges[|merges| - 1], r)
  }

  /** Whole runs, on any clock, for any types, batches, limits and initial list. */
  lemma {:induction false} RunAgreesIff(initial: seq<Artifact>, merges: seq<Merge>, r: Retention)
    ensures AgreesThroughout(initial, merges, r) <==> KeepsUpThroughout(initial, merges, r)
  {
    if merges != [] {
      var last, prior := merges[|merges| - 1], merges[..|merges| - 1];
      RunAgreesIff(initial, prior, r);
      HistoryIsClean(initial, prior);
      MergeAgreesIff(History(initial, prior), last, r);
      if AgreesThroughout(initial, prior, r) {
        assert Run(initial, prior, r) == Trim(History(initial, prior), r);
      }
    }
  }

  /** Each report is no older than the earlier entries of its own path. */
  predicate ReportsInOrder(initial: seq<Artifact>, merges: seq<Merge>) {
    merges != [] ==>
      var last, prior := merges[|merges| - 1], merges[..|merges| - 1];
      ReportsInOrder(initial, prior) && NoneStale(History(initial, prior), last.reports, last.tsMs)
  }

  /** A clock that does not run backwards is more than enough. */
  lemma {:induction false} ClockPutsInOrder(initial: seq<Artifact>, merges: seq<Merge>)
    requires ClockAdvances(initial, merges)
    ensures ReportsInOrder(initial, merges)
  {
    if merges != [] {
      var last, prior := merges[|merges| - 1], merges[..|merges| - 1];
      ClockPutsInOrder(initial, prior);
      HistoryIsNoLater(initial, prior, last.tsMs);
    }
  }

  /** Types that stay, and reports in order: no merge gives a dropped entry its place back. */
  lemma KeptTypesKeepUp(past: seq<Artifact>, m: Merge, r: Retention, kindOf: string -> string)
    requires forall a :: a in past ==> Clean(a)
    requires NoneStale(past, m.reports, m.tsMs) && KeepsKind(Pile(past, m.reports, m), kindOf)
    ensures KeepsUp(Candidates(past), m, r)
  {
    var s := Candidates(past);
    CandidatesAreRanked(past);
    RankedIsOnePerPath(s);
    RankedHavePaths(s);
    PileMembers(past, m.reports, m);
    PileKeepsStamps(past, m.reports, m);
    assert NoneStale(s, m.reports, m.tsMs);
    BatchForgets(s, m.reports, m, r, kindOf);
    BatchAgreesIff(s, m.reports, m, r);
    InOrderKeepsUpIff(s, m, r);
  }

  /**
   * Incremental retention agrees with the unbounded history, for any batches, limits and initial list,
   * as long as each report is no older than the earlier entries of its path and no path changes its type.
   */
  lemma {:induction false} RunAgreesWithHistory(
    initial: seq<Artifact>, merges: seq<Merge>, r: Retention, kindOf: string -> string)
    requires ReportsInOrder(initial, merges)
    requires KeepsKind(History(initial, merges), kindOf)
    ensures Run(initial, merges, r) == Trim(History(initial, merges), r)
    ensures AgreesThroughout(initial, merges, r)
  {
    if merges != [] {
      var last, prior := merges[|merges| - 1], merges[..|merges| - 1];
      var past := History(initial, prior);
      HistoryIsClean(initial, prior);
      PileMembers(past, last.reports, last);
      RunAgreesWithHistory(initial, prior, r, kindOf);
      KeptTypesKeepUp(past, last, r, kindOf);
      MergeAgreesIff(past, last, r);
    }
  }

  /** With reports in order, a run's list holds only what the deduplicated history holds, in its order. */
  lemma {:induction false} RunIsPartOfHistory(initial: seq<Artifact>, merges: seq<Merge>, r: Retention)
    requires ReportsInOrder(initial, merges)
    ensures var kept, all := Run(initial, merges, r), Candidates(History(initial, merges));
            Ranked(kept) && Trim(kept, r) == kept && kept == Those(all, Elements(kept))
    ensures forall a :: a in Run(initial, merges, r) ==> a in History(initial, merges)
  {
    var kept, all := Run(initial, merges, r), Candidates(History(initial, merges));
    CandidatesAreRanked(History(initial, merges));
    RankedIsOnePerPath(all);
    if merges == [] {
      TrimOfRanked(all, r);
      TrimIsIdempotent(Normalize(initial), r);
      KeptAreThose(all, r);
    } else {
      var last, prior := merges[|merges| - 1], merges[..|merges| - 1];
      RunIsPartOfHistory(initial, prior, r);
      HistoryIsClean(initial, prior);
      MergeStaysPart(History(initial, prior), Run(initial, prior, r), last, r);
    }
  }

  lemma MergeStaysPart(past: seq<Artifact>, kept: seq<Artifact>, m: Merge, r: Retention)
    requires forall a :: a in past ==> Clean(a)
    requires Ranked(kept) && Trim(kept, r) == kept && kept == Those(Candidates(past), Elements(kept))
    requires NoneStale(past, m.reports, m.tsMs)
    ensures var next, all := Merged(kept, m, r), Candidates(Pile(past, m.reports, m));
            Ranked(next) && Trim(next, r) == next && next == Those(all, Elements(next))
    ensures forall a :: a in Merged(kept, m, r) ==> a in Pile(past, m.reports, m)
  {
    var s := Candidates(past);
    var more := Arrived(kept, m.reports, m);
    var keep := Elements(kept) + Stamps(m.reports, m);
    CandidatesAreRanked(past);
    ThoseMembers(s, Elements(kept));
    MergeIntoTrimmed(kept, m, r);
    StaleAsBefore(past, m);
    assert AreStale({}, past, m.reports, m.tsMs);
    CandidatesOfPile(past, m.reports, m, {});
    NothingUnlisted(m.reports);
    ArrivedThose(s, Elements(kept), m.reports, m);
    ArrivedIsRanked(kept, m.reports, m);
    RankedIsOnePerPath(more);
    TrimOfRanked(more, r);
    RankedIsSettled(Quota(more, r));
    KeptAreThose(more, r);
    ThoseMembers(Candidates(Pile(past, m.reports, m)), keep);
    ThoseTwice(Candidates(Pile(past, m.reports, m)), keep, Elements(Quota(more, r)));
    CandidatesAreRanked(Pile(past, m.reports, m));
  }
}
