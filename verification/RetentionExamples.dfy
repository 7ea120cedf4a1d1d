/**
 * Instances of disagreement between an incremental run and the full history
 * (rdc_tool/context_snapshot.py, merge_recent_artifacts).
 */
module RetentionExamples {
  import opened Wrappers
  import opened RecentArtifacts
  import opened RetentionHistory

  // ----- A type that changes

  const OLD_PNG := Artifact("old", "png", "t", 1)
  const NEW_PNG := Artifact("new", "png", "t", 2)
  const NEW_TXT := Artifact("new", "txt", "t", 3)

  const RETYPED: seq<Merge> := [
    Merge([Report("old", "png")], "t", 1),
    Merge([Report("new", "png")], "t", 2),
    Merge([Report("new", "txt")], "t", 3)]

  /** An instance: a path that changes its type frees a place that only the full history can give back. */
  lemma TypeChangeBreaksAgreement()
    ensures Trim(History([], RETYPED), Retention(8, 1)) == [NEW_TXT, OLD_PNG]
    ensures Run([], RETYPED, Retention(8, 1)) == [NEW_TXT]
    ensures ClockAdvances([], RETYPED)
  {
    RetypedHistory();
    RetypedRun();
    RetypedClock();
  }

  lemma RetypedClock()
    ensures ClockAdvances([], RETYPED)
  {
    assert |RETYPED| == 3;
    assert RETYPED[0].tsMs == 1 && RETYPED[1].tsMs == 2 && RETYPED[2].tsMs == 3;
  }

  lemma RetypedHistory()
    ensures Trim(History([], RETYPED), Retention(8, 1)) == [NEW_TXT, OLD_PNG]
  {
    assert RETYPED[..2][..1] == RETYPED[..1] && RETYPED[..1][..0] == [];
    assert forall k :: 0 <= k < 3 ==> RETYPED[k].reports[1..] == [];
    assert History([], RETYPED[..1]) == [OLD_PNG];
    assert History([], RETYPED[..2]) == [NEW_PNG, OLD_PNG];
    var all := [NEW_TXT, NEW_PNG, OLD_PNG];
    assert History([], RETYPED) == all;
    assert all[1..] == [NEW_PNG, OLD_PNG] && all[1..][1..] == [OLD_PNG];
    assert Without([OLD_PNG], "new") == [OLD_PNG];
    assert Distinct([OLD_PNG]) == [OLD_PNG];
    assert Without(all[1..], "new") == [OLD_PNG];
    assert Distinct(all) == [NEW_TXT, OLD_PNG];
    assert WithinTypeQuota([OLD_PNG], 1, multiset{"txt"}) == [OLD_PNG];
    assert multiset{} + multiset{"txt"} == multiset{"txt"} && [NEW_TXT, OLD_PNG][1..] == [OLD_PNG];
    assert WithinTypeQuota([NEW_TXT, OLD_PNG], 1, multiset{}) == [NEW_TXT, OLD_PNG];
    TrimOf(all, [NEW_TXT, OLD_PNG], Retention(8, 1));
  }

  lemma RetypedRun()
    ensures Run([], RETYPED, Retention(8, 1)) == [NEW_TXT]
  {
    var r := Retention(8, 1);
    assert RETYPED[..2][..1] == RETYPED[..1] && RETYPED[..1][..0] == [];
    TrimOf([], [], r);
    assert Run([], [], r) == [];
    RetypedStep([], RETYPED[0], OLD_PNG, r);
    assert Run([], RETYPED[..1], r) == [OLD_PNG];
    RetypedStep([OLD_PNG], RETYPED[1], NEW_PNG, r);
    assert Run([], RETYPED[..2], r) == [NEW_PNG];
    RetypedStep([NEW_PNG], RETYPED[2], NEW_TXT, r);
  }

  lemma RetypedStep(kept: seq<Artifact>, m: Merge, a: Artifact, r: Retention)
    requires r == Retention(8, 1) && |m.reports| == 1 && Stamp(m.reports[0], m) == a && Clean(a)
    requires |kept| <= 1 && NoLaterThan(kept, a.tsMs) && forall b :: b in kept ==> Clean(b)
    requires kept != [] ==> kept[0].path == a.path || KindOf(kept[0]) == KindOf(a)
    ensures Merged(kept, m, r) == [a]
  {
    assert kept != [] ==> Clean(kept[0]);
    TrimOfRanked(kept, r);
    RankedIsSettled(kept);
    CleanStays(kept);
    assert m.reports[1..] == [];
    FrontIsRanked(a, kept);
    TrimOfRanked(Front(a, kept), r);
    if kept != [] {
      OnePlace(kept);
    }
    assert Quota(kept, r) == kept;
    var all := Front(a, kept);
    assert Promote(kept, m.reports, m) == all;
    FrontOfOne(a, kept);
    OnePlace(all);
  }

  lemma FrontOfOne(a: Artifact, kept: seq<Artifact>)
    requires |kept| <= 1 && (kept != [] ==> kept[0].path == a.path || KindOf(kept[0]) == KindOf(a))
    ensures 1 <= |Front(a, kept)| <= 2 && Front(a, kept)[0] == a
    ensures |Front(a, kept)| == 2 ==> KindOf(Front(a, kept)[1]) == KindOf(a)
  {
    if kept != [] {
      assert kept[1..] == [] && kept == [kept[0]];
    }
  }

  lemma OnePlace(s: seq<Artifact>)
    requires 1 <= |s| <= 2 && (|s| == 2 ==> KindOf(s[0]) == KindOf(s[1]))
    ensures WithinTypeQuota(s, 1, multiset{}) == [s[0]]
  {
    var seen := multiset{} + multiset{KindOf(s[0])};
    assert seen[KindOf(s[0])] == 1;
    assert |s[1..]| <= 1 && s[1..] != [] ==> s[1..][1..] == [];
    assert WithinTypeQuota(s[1..], 1, seen) == [];
  }

  lemma TrimOf(s: seq<Artifact>, distinct: seq<Artifact>, r: Retention)
    requires Descending(s) && forall a :: a in s ==> HasPath(a)
    requires Distinct(s) == distinct
    ensures Trim(s, r) == Quota(distinct, r)
  {
    SortedStays(s);
    AllNamed(s);
  }

  lemma AllNamed(s: seq<Artifact>)
    requires forall a :: a in s ==> HasPath(a)
    ensures Named(s) == s
  {
  }

  // ----- A clock that steps back

  /**
   * A report is what the history keeps of its path exactly when nothing older in the list is newer on the
   * clock; merging puts it in place of the older entries in any case.
   */
  lemma ReportIsCandidateIff(past: seq<Artifact>, report: Report, m: Merge)
    requires report.path != ""
    ensures var a := Stamp(report, m);
            a in Candidates([a] + past) <==> forall b :: b in past && b.path == a.path ==> b.tsMs <= a.tsMs
  {
    var a := Stamp(report, m);
    var all := [a] + past;
    CandidateIffNewest(all, a);
    if forall b :: b in past && b.path == a.path ==> b.tsMs <= a.tsMs {
      assert forall j :: 0 < j < |all| ==> all[j] == past[j - 1];
      assert all[0] == a && NewestOfPath(all, 0);
    } else {
      var b :| b in past && b.path == a.path && a.tsMs < b.tsMs;
      var j :| 0 <= j < |past| && past[j] == b;
      assert all[j + 1] == b;
    }
  }

  const LATE := Artifact("p", "png", "t", 5)
  const EARLY := Artifact("p", "png", "t", 3)

  /** With a clock that steps back, merging keeps the last report and the history the newest stamp. */
  lemma ClockStepsBack(r: Retention)
    requires 0 < r.perTypeLimit
    ensures Merged([LATE], Merge([Report("p", "png")], "t", 3), r) == [EARLY]
    ensures Trim(Pile([LATE], [Report("p", "png")], Merge([Report("p", "png")], "t", 3)), r) == [LATE]
  {
    var m := Merge([Report("p", "png")], "t", 3);
    assert m.reports[1..] == [] && Stamp(m.reports[0], m) == EARLY;
    OneStays(LATE, r);
    OneStays(EARLY, r);
    LateGivesWay();
    assert Promote([LATE], m.reports, m) == Promote(Front(EARLY, [LATE]), [], m);
    assert Promote([EARLY], [], m) == [EARLY];
    assert Pile([LATE], m.reports, m) == Pile([EARLY] + [LATE], [], m) == [EARLY] + [LATE];
    CandidatesOfReport(EARLY, [LATE]);
    assert LATE in [LATE] && Stale([LATE], EARLY.path, EARLY.tsMs);
  }

  lemma LateGivesWay()
    ensures Normalize([LATE]) == [LATE] && Front(EARLY, [LATE]) == [EARLY]
  {
    assert [LATE][1..] == [] && [LATE][0].path == EARLY.path;
    assert Without([LATE], EARLY.path) == Without([], EARLY.path) == [];
    assert Normalize([]) == [] && LATE.(kind := KindOf(LATE)) == LATE;
  }

  lemma OneStays(a: Artifact, r: Retention)
    requires 0 < r.perTypeLimit && HasPath(a)
    ensures Trim([a], r) == [a] && Quota([a], r) == [a]
  {
    RankedIsSettled([a]);
    assert WithinTypeQuota([a], r.perTypeLimit, multiset{}) == [a];
  }
}
