/**
 * The bounded recency index of a context snapshot
 * (rdc_tool/context_snapshot.py, _trim_artifacts and merge_recent_artifacts).
 *
 * What a trim keeps, and what one more arrival does to it. How merging batch after batch compares with
 * trimming the whole untrimmed history once is the subject of RetentionAgreement.
 */
module RecentArtifacts {
  import opened Wrappers
  import Sorting

  datatype Artifact = Artifact(path: string, kind: string, sourceTool: string, tsMs: int)

  /** The limits as given; a policy object is used as it is, without a floor. */
  datatype Retention = Retention(totalLimit: int, perTypeLimit: int)

  /** `_coerce_retention_policy` on optional limits: an absent or zero limit means the default. */
  function Coerce(total: Option<int>, perType: Option<int>): (r: Retention)
    ensures total in {None, Some(0)} ==> r.totalLimit == 32
    ensures perType in {None, Some(0)} ==> r.perTypeLimit == 8
    ensures forall n :: n != 0 && total == Some(n) ==> r.totalLimit == if n < 0 then 1 else n
    ensures forall n :: n != 0 && perType == Some(n) ==> r.perTypeLimit == if n < 0 then 1 else n
  {
    var t := if total.Some? && total.value != 0 then total.value else 32;
    var p := if perType.Some? && perType.value != 0 then perType.value else 8;
    Retention(if t < 1 then 1 else t, if p < 1 then 1 else p)
  }

  function KindOf(a: Artifact): string {
    if a.kind == "" then "file" else a.kind
  }

  // ----- sorted(..., key=ts_ms, reverse=True): newest first, ties in input order

  function Age(a: Artifact): int {
    -a.tsMs
  }

  function NewestFirst(entries: seq<Artifact>): seq<Artifact> {
    Sorting.Sorted(entries, Age)
  }

  predicate Descending(s: seq<Artifact>) {
    forall i, j :: 0 <= i < j < |s| ==> s[j].tsMs <= s[i].tsMs
  }

  /** The entries stamped `ts`, in order. */
  function Stamped(s: seq<Artifact>, ts: int): seq<Artifact> {
    Sorting.Keyed(s, Age, -ts)
  }

  /** A stable descending sort, characterised: ordered, a permutation, ties in input order. */
  lemma NewestFirstIsStableSort(entries: seq<Artifact>, ts: int)
    ensures Descending(NewestFirst(entries))
    ensures multiset(NewestFirst(entries)) == multiset(entries)
    ensures Stamped(NewestFirst(entries), ts) == Stamped(entries, ts)
  {
    Sorting.SortedIsStable(entries, Age, -ts);
    var sorted := NewestFirst(entries);
    forall i, j | 0 <= i < j < |sorted| ensures sorted[j].tsMs <= sorted[i].tsMs {
      assert Age(sorted[i]) <= Age(sorted[j]);
    }
  }

  lemma SortedStays(s: seq<Artifact>)
    requires Descending(s)
    ensures NewestFirst(s) == s
  {
    Sorting.SortedStays(s, Age);
  }

  // ----- Deduplication by path, newest kept

  function Without(s: seq<Artifact>, path: string): seq<Artifact> {
    if s == [] then []
    else if s[0].path == path then Without(s[1..], path)
    else [s[0]] + Without(s[1..], path)
  }

  function Distinct(s: seq<Artifact>): seq<Artifact>
    decreases |s|
  {
    if s == [] then []
    else
      WithoutShrinks(s[1..], s[0].path);
      [s[0]] + Distinct(Without(s[1..], s[0].path))
  }

  lemma WithoutShrinks(s: seq<Artifact>, path: string)
    ensures |Without(s, path)| <= |s|
  {
  }

  predicate OnePerPath(s: seq<Artifact>) {
    forall i, j :: 0 <= i < j < |s| ==> s[i].path != s[j].path
  }

  // ----- Type quota and total quota

  /** Entries whose type still has room, counting the entries in `seen` as well. */
  function WithinTypeQuota(s: seq<Artifact>, perType: int, seen: multiset<string>): seq<Artifact> {
    if s == [] then []
    else if seen[KindOf(s[0])] < perType then
      [s[0]] + WithinTypeQuota(s[1..], perType, seen + multiset{KindOf(s[0])})
    else WithinTypeQuota(s[1..], perType, seen)
  }

  function Take(s: seq<Artifact>, n: nat): seq<Artifact> {
    if |s| <= n then s else s[..n]
  }

  /** The loop stops after an append, so at least one entry survives even a limit of zero. */
  function Room(r: Retention): nat {
    if r.totalLimit < 1 then 1 else r.totalLimit
  }

  function Quota(s: seq<Artifact>, r: Retention): seq<Artifact> {
    Take(WithinTypeQuota(s, r.perTypeLimit, multiset{}), Room(r))
  }

  function HasPath(a: Artifact): bool {
    a.path != ""
  }

  function Named(s: seq<Artifact>): seq<Artifact> {
    if s == [] then [] else if HasPath(s[0]) then [s[0]] + Named(s[1..]) else Named(s[1..])
  }

  function Trim(entries: seq<Artifact>, r: Retention): seq<Artifact> {
    Quota(Distinct(NewestFirst(Named(entries))), r)
  }

  // ----- The source's loops

  method TrimArtifacts(entries: seq<Artifact>, r: Retention) returns (kept: seq<Artifact>)
    ensures kept == Trim(entries, r)
  {
    var deduped := DropOlderPaths(NewestFirst(Named(entries)));
    kept := ApplyQuotas(deduped, r);
  }

  method DropOlderPaths(ordered: seq<Artifact>) returns (deduped: seq<Artifact>)
    ensures deduped == Distinct(ordered)
  {
    deduped := [];
    var seen: set<string> := {};
    NothingSeen(ordered);
    assert ordered[0..] == ordered;
    for k := 0 to |ordered|
      invariant Distinct(ordered) == deduped + Distinct(Unseen(ordered[k..], seen))
    {
      var item := ordered[k];
      VisitNext(ordered[k..], seen);
      assert ordered[k..][0] == item && ordered[k..][1..] == ordered[k + 1..];
      if item.path !in seen {
        Associates(deduped, [item], Distinct(Unseen(ordered[k + 1..], seen + {item.path})));
        deduped := deduped + [item];
        seen := seen + {item.path};
      }
    }
  }

  lemma VisitNext(s: seq<Artifact>, seen: set<string>)
    requires s != []
    ensures Distinct(Unseen(s, seen)) ==
      if s[0].path in seen then Distinct(Unseen(s[1..], seen))
      else [s[0]] + Distinct(Unseen(s[1..], seen + {s[0].path}))
  {
    if s[0].path !in seen {
      UnseenWithout(s[1..], seen, s[0].path);
      assert Unseen(s, seen)[1..] == Unseen(s[1..], seen);
    }
  }

  method ApplyQuotas(deduped: seq<Artifact>, r: Retention) returns (kept: seq<Artifact>)
    ensures kept == Quota(deduped, r)
  {
    kept := [];
    var counts: map<string, nat> := map[];
    ghost var tally: multiset<string> := multiset{};
    assert deduped[0..] == deduped;
    for k := 0 to |deduped|
      invariant forall t :: tally[t] == if t in counts then counts[t] else 0
      invariant |kept| < Room(r)
      invariant WithinTypeQuota(deduped, r.perTypeLimit, multiset{})
             == kept + WithinTypeQuota(deduped[k..], r.perTypeLimit, tally)
    {
      var entry := deduped[k];
      assert deduped[k..][0] == entry && deduped[k..][1..] == deduped[k + 1..];
      var kind := KindOf(entry);
      var count := if kind in counts then counts[kind] else 0;
      if count < r.perTypeLimit {
        counts := counts[kind := count + 1];
        tally := tally + multiset{kind};
        Associates(kept, [entry], WithinTypeQuota(deduped[k + 1..], r.perTypeLimit, tally));
        kept := kept + [entry];
        if |kept| >= r.totalLimit {
          return;
        }
      }
    }
  }

  lemma NothingSeen(s: seq<Artifact>)
    ensures Unseen(s, {}) == s
  {
  }

  function Unseen(s: seq<Artifact>, seen: set<string>): seq<Artifact> {
    if s == [] then []
    else if s[0].path in seen then Unseen(s[1..], seen)
    else [s[0]] + Unseen(s[1..], seen)
  }

  lemma {:induction false} UnseenWithout(s: seq<Artifact>, seen: set<string>, path: string)
    ensures Unseen(s, seen + {path}) == Without(Unseen(s, seen), path)
  {
    if s != [] {
      UnseenWithout(s[1..], seen, path);
      if s[0].path !in seen {
        assert ([s[0]] + Unseen(s[1..], seen))[1..] == Unseen(s[1..], seen);
      }
    }
  }

  // ----- Merging

  /** One artifact as a tool reports it. */
  datatype Report = Report(path: string, kind: string)

  datatype Merge = Merge(reports: seq<Report>, sourceTool: string, tsMs: int)

  function Stamp(report: Report, m: Merge): Artifact {
    Artifact(report.path, if report.kind == "" then "file" else report.kind, m.sourceTool, m.tsMs)
  }

  function Normalize(entries: seq<Artifact>): seq<Artifact> {
    if entries == [] then []
    else if HasPath(entries[0]) then [entries[0].(kind := KindOf(entries[0]))] + Normalize(entries[1..])
    else Normalize(entries[1..])
  }

  /** A report becomes an entry under the merge's tool and stamp; no type means a file. */
  lemma ReportShows(report: Report, m: Merge)
    ensures Stamp(report, m).path == report.path
    ensures Stamp(report, m).kind == if report.kind == "" then "file" else report.kind
    ensures Stamp(report, m).sourceTool == m.sourceTool && Stamp(report, m).tsMs == m.tsMs
  {
  }

  /** Loaded entries without a path go, the others stay in order, and no type means a file. */
  lemma {:induction false} NormalizeIs(before: seq<Artifact>, a: Artifact)
    ensures Normalize([]) == []
    ensures Normalize(before + [a]) ==
      Normalize(before)
      + if a.path == "" then []
        else [Artifact(a.path, if a.kind == "" then "file" else a.kind, a.sourceTool, a.tsMs)]
  {
    if before == [] {
      assert before + [a] == [a] && [a][1..] == [];
    } else {
      assert (before + [a])[1..] == before[1..] + [a];
      NormalizeIs(before[1..], a);
    }
  }

  /** The reports come one after the other: each goes to the front, and what had its path goes. */
  lemma {:induction false} PromoteIs(s: seq<Artifact>, reports: seq<Report>, last: Report, m: Merge)
    ensures var before, after := Promote(s, reports, m), Promote(s, reports + [last], m);
      if last.path == "" then after == before
      else
        && after != [] && after[0] == Stamp(last, m)
        && after[1..] == Without(before, last.path)
    decreases reports
  {
    if reports == [] {
      assert reports + [last] == [last] && [last][1..] == [];
    } else {
      assert (reports + [last])[1..] == reports[1..] + [last];
      PromoteIs(if reports[0].path == "" then s else Front(Stamp(reports[0], m), s), reports[1..], last, m);
    }
  }

  lemma {:induction false} WithoutIs(before: seq<Artifact>, a: Artifact, path: string)
    ensures Without([], path) == []
    ensures Without(before + [a], path) == Without(before, path) + if a.path == path then [] else [a]
  {
    if before == [] {
      assert before + [a] == [a] && [a][1..] == [];
    } else {
      assert (before + [a])[1..] == before[1..] + [a];
      WithoutIs(before[1..], a, path);
    }
  }

  function Front(a: Artifact, s: seq<Artifact>): seq<Artifact> {
    [a] + Without(s, a.path)
  }

  /** Every report moves to the front and takes older entries of its path with it. */
  function Promote(s: seq<Artifact>, reports: seq<Report>, m: Merge): seq<Artifact>
    decreases reports
  {
    if reports == [] then s
    else if reports[0].path == "" then Promote(s, reports[1..], m)
    else Promote(Front(Stamp(reports[0], m), s), reports[1..], m)
  }

  function Merged(current: seq<Artifact>, m: Merge, r: Retention): seq<Artifact> {
    Trim(Promote(Trim(Normalize(current), r), m.reports, m), r)
  }

  method MergeRecentArtifacts(lastArtifacts: seq<Artifact>, m: Merge, r: Retention)
    returns (kept: seq<Artifact>)
    ensures kept == Merged(lastArtifacts, m, r)
  {
    var current := TrimArtifacts(Normalize(lastArtifacts), r);
    ghost var goal := Promote(current, m.reports, m);
    assert m.reports[0..] == m.reports;
    for k := 0 to |m.reports|
      invariant goal == Promote(current, m.reports[k..], m)
    {
      assert m.reports[k..][1..] == m.reports[k + 1..];
      if m.reports[k].path != "" {
        var entry := Stamp(m.reports[k], m);
        current := [entry] + Without(current, entry.path);
      }
    }
    kept := TrimArtifacts(current, r);
  }

  // ----- The unbounded history

  /** Reports piled on top of everything older; nothing is removed. */
  function Pile(s: seq<Artifact>, reports: seq<Report>, m: Merge): seq<Artifact>
    decreases reports
  {
    if reports == [] then s
    else if reports[0].path == "" then Pile(s, reports[1..], m)
    else Pile([Stamp(reports[0], m)] + s, reports[1..], m)
  }

  function History(initial: seq<Artifact>, merges: seq<Merge>): seq<Artifact> {
    if merges == [] then Normalize(initial)
    else
      var last := merges[|merges| - 1];
      Pile(History(initial, merges[..|merges| - 1]), last.reports, last)
  }

  function Run(initial: seq<Artifact>, merges: seq<Merge>, r: Retention): seq<Artifact> {
    if merges == [] then Trim(Normalize(initial), r)
    else Merged(Run(initial, merges[..|merges| - 1], r), merges[|merges| - 1], r)
  }

  /** The clock never runs backwards, and starts no earlier than the loaded entries. */
  predicate ClockAdvances(initial: seq<Artifact>, merges: seq<Merge>) {
    && (forall a, i :: a in initial && 0 <= i < |merges| ==> a.tsMs <= merges[i].tsMs)
    && (forall i, j :: 0 <= i < j < |merges| ==> merges[i].tsMs <= merges[j].tsMs)
  }

  /** Each path keeps one type. */
  ghost predicate KeepsKind(s: seq<Artifact>, kindOf: string -> string) {
    forall a :: a in s ==> KindOf(a) == kindOf(a.path)
  }

  // ----- Membership

  lemma WithoutMembers(s: seq<Artifact>, path: string)
    ensures forall a :: a in Without(s, path) <==> a in s && a.path != path
  {
  }

  lemma {:induction false} DistinctMembers(s: seq<Artifact>)
    ensures forall a :: a in Distinct(s) ==> a in s
    decreases |s|
  {
    if s != [] {
      WithoutShrinks(s[1..], s[0].path);
      DistinctMembers(Without(s[1..], s[0].path));
      WithoutMembers(s[1..], s[0].path);
    }
  }

  lemma QuotaMembers(s: seq<Artifact>, perType: int, seen: multiset<string>)
    ensures forall a :: a in WithinTypeQuota(s, perType, seen) ==> a in s
  {
  }

  lemma NormalizeMembers(s: seq<Artifact>)
    ensures forall a :: a in Normalize(s) ==> HasPath(a) && a.kind != "" && exists b :: b in s && b.tsMs == a.tsMs
  {
  }

  // ----- Trimmed lists: newest first, one entry per path, no empty path

  predicate Clean(a: Artifact) {
    HasPath(a) && a.kind != ""
  }

  predicate Ranked(s: seq<Artifact>) {
    s != [] ==>
      && HasPath(s[0])
      && (forall a :: a in s[1..] ==> a.tsMs <= s[0].tsMs && a.path != s[0].path)
      && Ranked(s[1..])
  }

  lemma {:induction false} RankedWithout(s: seq<Artifact>, path: string)
    requires Ranked(s)
    ensures Ranked(Without(s, path))
  {
    if s != [] {
      RankedWithout(s[1..], path);
      WithoutMembers(s[1..], path);
    }
  }

  lemma {:induction false} RankedQuota(s: seq<Artifact>, perType: int, seen: multiset<string>)
    requires Ranked(s)
    ensures Ranked(WithinTypeQuota(s, perType, seen))
  {
    if s != [] {
      var seen' := if seen[KindOf(s[0])] < perType then seen + multiset{KindOf(s[0])} else seen;
      RankedQuota(s[1..], perType, seen');
      QuotaMembers(s[1..], perType, seen');
    }
  }

  lemma {:induction false} RankedTake(s: seq<Artifact>, n: nat)
    requires Ranked(s) && n <= |s|
    ensures Ranked(s[..n])
  {
    if 0 < n {
      RankedTake(s[1..], n - 1);
      assert s[..n][1..] == s[1..][..n - 1];
    }
  }

  lemma {:induction false} RankedDistinct(s: seq<Artifact>)
    requires Descending(s) && forall a :: a in s ==> HasPath(a)
    ensures Ranked(Distinct(s))
    decreases |s|
  {
    if s != [] {
      var rest := Without(s[1..], s[0].path);
      WithoutShrinks(s[1..], s[0].path);
      WithoutMembers(s[1..], s[0].path);
      DescendingWithout(s[1..], s[0].path);
      RankedDistinct(rest);
      DistinctMembers(rest);
      forall a | a in s[1..] ensures a.tsMs <= s[0].tsMs {
        var i :| 0 <= i < |s[1..]| && s[1..][i] == a;
        assert s[i + 1] == a;
      }
    }
  }

  lemma {:induction false} DescendingWithout(s: seq<Artifact>, path: string)
    requires Descending(s)
    ensures Descending(Without(s, path))
  {
    if s != [] {
      DescendingWithout(s[1..], path);
      WithoutMembers(s[1..], path);
      var rest := Without(s[1..], path);
      forall j | 0 <= j < |rest| ensures rest[j].tsMs <= s[0].tsMs {
        assert rest[j] in s[1..];
        var i :| 0 <= i < |s[1..]| && s[1..][i] == rest[j];
        assert s[i + 1] == rest[j];
      }
    }
  }

  /** Sorting, deduplicating and filtering leave a trimmed list alone. */
  lemma {:induction false} RankedIsSettled(s: seq<Artifact>)
    requires Ranked(s)
    ensures Named(s) == s && NewestFirst(s) == s && Distinct(s) == s
  {
    if s != [] {
      RankedIsSettled(s[1..]);
      AbsentPath(s[1..], s[0].path);
    }
  }

  lemma {:induction false} CleanStays(s: seq<Artifact>)
    requires forall a :: a in s ==> Clean(a)
    ensures Normalize(s) == s
  {
    if s != [] {
      CleanStays(s[1..]);
      assert Clean(s[0]) && s[0].(kind := KindOf(s[0])) == s[0];
    }
  }

  lemma AbsentPath(s: seq<Artifact>, path: string)
    requires forall a :: a in s ==> a.path != path
    ensures Without(s, path) == s
  {
  }

  // ----- The greedy quota

  lemma {:induction false} QuotaConcat(a: seq<Artifact>, b: seq<Artifact>, perType: int, seen: multiset<string>)
    ensures exists seen' ::
      WithinTypeQuota(a + b, perType, seen) == WithinTypeQuota(a, perType, seen) + WithinTypeQuota(b, perType, seen')
  {
    if a == [] {
      assert a + b == b;
      assert WithinTypeQuota(a + b, perType, seen)
          == WithinTypeQuota(a, perType, seen) + WithinTypeQuota(b, perType, seen);
    } else {
      assert (a + b)[1..] == a[1..] + b;
      var next := if seen[KindOf(a[0])] < perType then seen + multiset{KindOf(a[0])} else seen;
      QuotaConcat(a[1..], b, perType, next);
      var seen' :| WithinTypeQuota(a[1..] + b, perType, next)
                == WithinTypeQuota(a[1..], perType, next) + WithinTypeQuota(b, perType, seen');
      assert WithinTypeQuota(a + b, perType, seen)
          == WithinTypeQuota(a, perType, seen) + WithinTypeQuota(b, perType, seen');
    }
  }

  /** Filtering first changes nothing for a reader that has already counted at least as much. */
  lemma {:induction false} QuotaAbsorbs(
    s: seq<Artifact>, perType: int, seen: multiset<string>, more: multiset<string>, path: string, kind: string)
    requires OnePerPath(s) && seen <= more
    requires forall a :: a in s && a.path == path ==> KindOf(a) == kind
    requires (exists a :: a in s && a.path == path) ==> seen[kind] < more[kind] || perType <= more[kind]
    ensures WithinTypeQuota(Without(WithinTypeQuota(s, perType, seen), path), perType, more)
         == WithinTypeQuota(Without(s, path), perType, more)
  {
    if s != [] {
      var e := s[0];
      var k := KindOf(e);
      var rest := s[1..];
      OnePerPathTail(s);
      if perType <= seen[k] {
        QuotaAbsorbs(rest, perType, seen, more, path, kind);
      } else {
        var seen' := seen + multiset{k};
        assert WithinTypeQuota(s, perType, seen)[1..] == WithinTypeQuota(rest, perType, seen');
        if e.path == path {
          QuotaAbsorbs(rest, perType, seen', more, path, kind);
        } else {
          var more' := if more[k] < perType then more + multiset{k} else more;
          QuotaAbsorbs(rest, perType, seen', more', path, kind);
        }
      }
    }
  }

  predicate Fits(s: seq<Artifact>, perType: int, seen: multiset<string>) {
    WithinTypeQuota(s, perType, seen) == s
  }

  lemma {:induction false} FitsTail(s: seq<Artifact>, perType: int, seen: multiset<string>)
    requires s != [] && Fits(s, perType, seen)
    ensures seen[KindOf(s[0])] < perType && Fits(s[1..], perType, seen + multiset{KindOf(s[0])})
  {
    QuotaShrinks(s[1..], perType, seen);
  }

  lemma QuotaShrinks(s: seq<Artifact>, perType: int, seen: multiset<string>)
    ensures |WithinTypeQuota(s, perType, seen)| <= |s|
  {
  }

  lemma {:induction false} FitsPrefix(s: seq<Artifact>, n: nat, perType: int, seen: multiset<string>)
    requires Fits(s, perType, seen) && n <= |s|
    ensures Fits(s[..n], perType, seen)
  {
    if 0 < n {
      FitsTail(s, perType, seen);
      FitsPrefix(s[1..], n - 1, perType, seen + multiset{KindOf(s[0])});
      assert s[..n][1..] == s[1..][..n - 1];
    }
  }

  lemma {:induction false} RoomForMember(s: seq<Artifact>, perType: int, seen: multiset<string>, a: Artifact)
    requires Fits(s, perType, seen) && a in s
    ensures seen[KindOf(a)] < perType
  {
    FitsTail(s, perType, seen);
    if a != s[0] {
      RoomForMember(s[1..], perType, seen + multiset{KindOf(s[0])}, a);
    }
  }

  /** A new arrival of type `kind` displaces at most one entry. */
  lemma {:induction false} DisplacesOne(s: seq<Artifact>, perType: int, seen: multiset<string>, kind: string)
    requires Fits(s, perType, seen)
    ensures |s| - 1 <= |WithinTypeQuota(s, perType, seen + multiset{kind})|
  {
    if s != [] {
      var k := KindOf(s[0]);
      FitsTail(s, perType, seen);
      if (seen + multiset{kind})[k] < perType {
        DisplacesOne(s[1..], perType, seen + multiset{k}, kind);
        assert seen + multiset{kind} + multiset{k} == seen + multiset{k} + multiset{kind};
      }
    }
  }

  /** An arrival that replaces an entry of its own path and type displaces nothing else. */
  lemma {:induction false} ReplacesItself(
    s: seq<Artifact>, perType: int, seen: multiset<string>, a: Artifact)
    requires Fits(s, perType, seen) && OnePerPath(s) && a in s
    ensures Fits(Without(s, a.path), perType, seen + multiset{KindOf(a)})
    ensures |Without(s, a.path)| == |s| - 1
  {
    FitsTail(s, perType, seen);
    OnePerPathTail(s);
    var k := KindOf(s[0]);
    if s[0].path == a.path {
      assert a == s[0];
      AbsentPath(s[1..], a.path);
    } else {
      RoomForMember(s[1..], perType, seen + multiset{k}, a);
      ReplacesItself(s[1..], perType, seen + multiset{k}, a);
      assert seen + multiset{KindOf(a)} + multiset{k} == seen + multiset{k} + multiset{KindOf(a)};
      assert Without(s, a.path)[1..] == Without(s[1..], a.path);
    }
  }

  lemma {:induction false} WithoutConcat(a: seq<Artifact>, b: seq<Artifact>, path: string)
    ensures Without(a + b, path) == Without(a, path) + Without(b, path)
  {
    if a == [] {
      assert a + b == b;
    } else {
      WithoutConcat(a[1..], b, path);
      assert (a + b)[0] == a[0] && (a + b)[1..] == a[1..] + b;
      Associates([a[0]], Without(a[1..], path), Without(b, path));
    }
  }

  // ----- Main results

  /** One arrival: the entries that a trim already dropped could not have been kept anyway. */
  lemma ArrivalForgets(a: Artifact, s: seq<Artifact>, r: Retention)
    requires OnePerPath(s) && forall b :: b in s ==> HasPath(b)
    requires forall b :: b in s && b.path == a.path ==> KindOf(b) == KindOf(a)
    ensures Quota(Front(a, Quota(s, r)), r) == Quota(Front(a, s), r)
  {
    var n, per := Room(r), r.perTypeLimit;
    var full := WithinTypeQuota(s, per, multiset{});
    var kind := multiset{KindOf(a)};
    QuotaAbsorbs(s, per, multiset{}, kind, a.path, KindOf(a));
    QuotaMembers(s, per, multiset{});
    OnePerPathQuota(s, per, multiset{});
    QuotaIsIdempotent(s, per);
    assert Front(a, full)[1..] == Without(full, a.path) && Front(a, s)[1..] == Without(s, a.path);
    assert multiset{} + kind == kind;
    if per <= 0 {
      NothingFits(Front(a, Quota(s, r)), per, multiset{});
      NothingFits(Front(a, s), per, multiset{});
    } else {
      assert WithinTypeQuota(Front(a, full), per, multiset{}) == WithinTypeQuota(Front(a, s), per, multiset{});
      if n < |full| {
        ArrivalAmongKept(a, full, n, per);
      }
    }
  }

  lemma ArrivalAmongKept(a: Artifact, full: seq<Artifact>, n: nat, per: int)
    requires OnePerPath(full) && Fits(full, per, multiset{}) && 0 < n <= |full| && 0 < per
    requires forall b :: b in full && b.path == a.path ==> KindOf(b) == KindOf(a)
    ensures Take(WithinTypeQuota(Front(a, full[..n]), per, multiset{}), n)
         == Take(WithinTypeQuota(Front(a, full), per, multiset{}), n)
  {
    var kept, older := full[..n], full[n..];
    assert full == kept + older;
    WithoutConcat(kept, older, a.path);
    assert Front(a, full) == Front(a, kept) + Without(older, a.path);
    FitsPrefix(full, n, per, multiset{});
    StillFull(a, kept, per);
    QuotaConcat(Front(a, kept), Without(older, a.path), per, multiset{});
  }

  /** A full list stays full when an entry arrives, whether or not it replaces one of its path. */
  lemma StillFull(a: Artifact, kept: seq<Artifact>, per: int)
    requires OnePerPath(kept) && Fits(kept, per, multiset{}) && 0 < per
    requires forall b :: b in kept && b.path == a.path ==> KindOf(b) == KindOf(a)
    ensures |kept| <= |WithinTypeQuota(Front(a, kept), per, multiset{})|
  {
    assert Front(a, kept)[1..] == Without(kept, a.path);
    assert multiset{} + multiset{KindOf(a)} == multiset{KindOf(a)};
    if b :| b in kept && b.path == a.path {
      ReplacesItself(kept, per, multiset{}, b);
    } else {
      AbsentPath(kept, a.path);
      DisplacesOne(kept, per, multiset{}, KindOf(a));
    }
  }

  lemma NothingFits(s: seq<Artifact>, per: int, seen: multiset<string>)
    requires per <= 0
    ensures WithinTypeQuota(s, per, seen) == []
  {
  }

  lemma QuotaIsIdempotent(s: seq<Artifact>, per: int)
    requires OnePerPath(s) && forall a :: a in s ==> HasPath(a)
    ensures Fits(WithinTypeQuota(s, per, multiset{}), per, multiset{})
  {
    var full := WithinTypeQuota(s, per, multiset{});
    QuotaMembers(s, per, multiset{});
    AbsentPath(full, "");
    AbsentPath(s, "");
    QuotaAbsorbs(s, per, multiset{}, multiset{}, "", "");
  }

  lemma {:induction false} OnePerPathQuota(s: seq<Artifact>, perType: int, seen: multiset<string>)
    requires OnePerPath(s)
    ensures OnePerPath(WithinTypeQuota(s, perType, seen))
  {
    if s != [] {
      OnePerPathTail(s);
      var next := if seen[KindOf(s[0])] < perType then seen + multiset{KindOf(s[0])} else seen;
      var rest := WithinTypeQuota(s[1..], perType, next);
      OnePerPathQuota(s[1..], perType, next);
      QuotaMembers(s[1..], perType, next);
      OnePerPathFrom(s[0], rest);
    }
  }

  lemma OnePerPathFrom(a: Artifact, s: seq<Artifact>)
    requires OnePerPath(s) && forall b :: b in s ==> b.path != a.path
    ensures OnePerPath([a] + s)
  {
    assert forall j :: 0 < j < |[a] + s| ==> ([a] + s)[j] == s[j - 1] && s[j - 1] in s;
  }

  /** The quotas are idempotent, and add nothing. */
  lemma QuotaTwice(s: seq<Artifact>, r: Retention)
    requires OnePerPath(s) && forall a :: a in s ==> HasPath(a)
    ensures Quota(Quota(s, r), r) == Quota(s, r) && OnePerPath(Quota(s, r))
    ensures forall a :: a in Quota(s, r) ==> a in s
  {
    var full := WithinTypeQuota(s, r.perTypeLimit, multiset{});
    QuotaMembers(s, r.perTypeLimit, multiset{});
    OnePerPathQuota(s, r.perTypeLimit, multiset{});
    QuotaIsIdempotent(s, r.perTypeLimit);
    FitsPrefix(full, |Quota(s, r)|, r.perTypeLimit, multiset{});
    assert full[..|full|] == full;
  }

  lemma RankedHavePaths(s: seq<Artifact>)
    requires Ranked(s)
    ensures forall a :: a in s ==> HasPath(a)
  {
  }

  lemma TrimOfRanked(s: seq<Artifact>, r: Retention)
    requires Ranked(s)
    ensures Trim(s, r) == Quota(s, r) && Ranked(Quota(s, r)) && Quota(Quota(s, r), r) == Quota(s, r)
    ensures forall a :: a in Quota(s, r) ==> a in s
  {
    RankedIsSettled(s);
    RankedIsOnePerPath(s);
    RankedHavePaths(s);
    QuotaTwice(s, r);
    var full := WithinTypeQuota(s, r.perTypeLimit, multiset{});
    RankedQuota(s, r.perTypeLimit, multiset{});
    RankedTake(full, |Quota(s, r)|);
    assert full[..|full|] == full;
  }

  predicate NoLaterThan(s: seq<Artifact>, ts: int) {
    forall a :: a in s ==> a.tsMs <= ts
  }

  lemma PileMembers(s: seq<Artifact>, reports: seq<Report>, m: Merge)
    ensures forall a :: a in s ==> a in Pile(s, reports, m)
    ensures forall a :: a in Pile(s, reports, m) ==> a in s || (Clean(a) && a.tsMs == m.tsMs)
    decreases reports
  {
    if reports != [] && reports[0].path != "" {
      PileMembers([Stamp(reports[0], m)] + s, reports[1..], m);
    }
  }

  lemma NamedMembers(s: seq<Artifact>)
    ensures forall a :: a in Named(s) <==> a in s && HasPath(a)
  {
  }

  lemma {:induction false} DistinctCommutesWithWithout(s: seq<Artifact>, path: string)
    ensures Distinct(Without(s, path)) == Without(Distinct(s), path)
    decreases |s|
  {
    if s != [] {
      var first, rest := s[0].path, Without(s[1..], s[0].path);
      WithoutShrinks(s[1..], first);
      DistinctCommutesWithWithout(rest, path);
      assert Distinct(s)[1..] == Distinct(rest);
      if first == path {
        DistinctMembers(rest);
        WithoutMembers(s[1..], first);
        AbsentPath(rest, path);
      } else {
        WithoutTwice(s[1..], first, path);
        assert Without(s, path)[1..] == Without(s[1..], path);
      }
    }
  }

  lemma {:induction false} WithoutTwice(s: seq<Artifact>, p: string, q: string)
    ensures Without(Without(s, p), q) == Without(Without(s, q), p)
  {
    if s != [] {
      WithoutTwice(s[1..], p, q);
      assert s[0].path != p ==> Without(s, p)[1..] == Without(s[1..], p);
      assert s[0].path != q ==> Without(s, q)[1..] == Without(s[1..], q);
    }
  }

  lemma FrontIsRanked(a: Artifact, s: seq<Artifact>)
    requires Ranked(s) && NoLaterThan(s, a.tsMs) && HasPath(a)
    ensures Ranked(Front(a, s)) && NoLaterThan(Front(a, s), a.tsMs)
  {
    RankedWithout(s, a.path);
    WithoutMembers(s, a.path);
    assert Front(a, s)[1..] == Without(s, a.path);
  }

  /** A whole batch: merging into the trimmed list or into the untrimmed one keeps the same entries. */
  lemma {:induction false} BatchForgets(
    s: seq<Artifact>, reports: seq<Report>, m: Merge, r: Retention, kindOf: string -> string)
    requires OnePerPath(s) && (forall a :: a in s ==> HasPath(a)) && KeepsKind(s, kindOf)
    requires forall i :: 0 <= i < |reports| && reports[i].path != "" ==>
               KindOf(Stamp(reports[i], m)) == kindOf(reports[i].path)
    ensures Quota(Promote(Quota(s, r), reports, m), r) == Quota(Promote(s, reports, m), r)
    decreases reports
  {
    QuotaTwice(s, r);
    if reports != [] {
      assert forall i :: 0 <= i < |reports[1..]| ==> reports[1..][i] == reports[i + 1];
      if reports[0].path == "" {
        BatchForgets(s, reports[1..], m, r, kindOf);
      } else {
        var a := Stamp(reports[0], m);
        var t := Quota(s, r);
        FrontIsOnePerPath(a, s);
        FrontIsOnePerPath(a, t);
        ArrivalForgets(a, s, r);
        BatchForgets(Front(a, s), reports[1..], m, r, kindOf);
        BatchForgets(Front(a, t), reports[1..], m, r, kindOf);
      }
    }
  }

  lemma FrontIsOnePerPath(a: Artifact, s: seq<Artifact>)
    requires OnePerPath(s)
    ensures OnePerPath(Front(a, s)) && forall b :: b in Front(a, s) ==> b == a || b in s
  {
    OnePerPathWithout(s, a.path);
    WithoutMembers(s, a.path);
    OnePerPathFrom(a, Without(s, a.path));
  }

  lemma {:induction false} OnePerPathWithout(s: seq<Artifact>, path: string)
    requires OnePerPath(s)
    ensures OnePerPath(Without(s, path))
  {
    if s != [] {
      OnePerPathTail(s);
      OnePerPathWithout(s[1..], path);
      WithoutMembers(s[1..], path);
      if s[0].path != path {
        OnePerPathFrom(s[0], Without(s[1..], path));
      }
    }
  }

  lemma PileKeepsStamps(s: seq<Artifact>, reports: seq<Report>, m: Merge)
    ensures forall i :: 0 <= i < |reports| && reports[i].path != "" ==> Stamp(reports[i], m) in Pile(s, reports, m)
    decreases reports
  {
    if reports != [] {
      var next := if reports[0].path == "" then s else [Stamp(reports[0], m)] + s;
      PileKeepsStamps(next, reports[1..], m);
      PileMembers(next, reports[1..], m);
      forall i | 0 <= i < |reports| && reports[i].path != ""
        ensures Stamp(reports[i], m) in Pile(s, reports, m)
      {
        if i == 0 {
          assert next[0] == Stamp(reports[0], m);
        } else {
          assert reports[1..][i - 1] == reports[i];
        }
      }
    }
  }

  lemma {:induction false} HistoryIsClean(initial: seq<Artifact>, merges: seq<Merge>)
    ensures forall a :: a in History(initial, merges) ==> Clean(a)
  {
    if merges == [] {
      NormalizeMembers(initial);
    } else {
      var last := merges[|merges| - 1];
      HistoryIsClean(initial, merges[..|merges| - 1]);
      PileMembers(History(initial, merges[..|merges| - 1]), last.reports, last);
    }
  }

  lemma {:induction false} HistoryIsNoLater(initial: seq<Artifact>, merges: seq<Merge>, ts: int)
    requires NoLaterThan(initial, ts) && forall i :: 0 <= i < |merges| ==> merges[i].tsMs <= ts
    ensures NoLaterThan(History(initial, merges), ts)
  {
    if merges == [] {
      NormalizeMembers(initial);
    } else {
      var last := merges[|merges| - 1];
      HistoryIsNoLater(initial, merges[..|merges| - 1], ts);
      PileMembers(History(initial, merges[..|merges| - 1]), last.reports, last);
    }
  }

  /** The deduplicated history, newest first: what a trim chooses from. */
  function Candidates(s: seq<Artifact>): seq<Artifact> {
    Distinct(NewestFirst(Named(s)))
  }

  lemma CandidatesAreRanked(s: seq<Artifact>)
    ensures Ranked(Candidates(s))
    ensures forall a :: a in Candidates(s) ==> a in s
  {
    NamedMembers(s);
    NewestFirstIsStableSort(Named(s), 0);
    var sorted := NewestFirst(Named(s));
    forall a | a in sorted ensures a in s && HasPath(a) {
      assert a in multiset(Named(s));
    }
    DistinctMembers(sorted);
    RankedDistinct(sorted);
  }

  // ----- Which entries a trim keeps

  function CountKind(s: seq<Artifact>, kind: string): nat {
    if s == [] then 0 else (if KindOf(s[0]) == kind then 1 else 0) + CountKind(s[1..], kind)
  }

  /** What the entries before it leave for `a`: room for its type, and room at all. */
  predicate Admitted(before: seq<Artifact>, a: Artifact, r: Retention) {
    && CountKind(before, KindOf(a)) < r.perTypeLimit
    && |WithinTypeQuota(before, r.perTypeLimit, multiset{})| < Room(r)
  }

  lemma {:induction false} RankedIsOnePerPath(s: seq<Artifact>)
    requires Ranked(s)
    ensures OnePerPath(s)
  {
    if s != [] {
      RankedIsOnePerPath(s[1..]);
      forall i, j | 0 <= i < j < |s| ensures s[i].path != s[j].path {
        assert s[j] == s[1..][j - 1] && (0 < i ==> s[i] == s[1..][i - 1]);
      }
    }
  }

  lemma OnePerPathTail(s: seq<Artifact>)
    requires OnePerPath(s) && s != []
    ensures OnePerPath(s[1..]) && forall a :: a in s[1..] ==> a.path != s[0].path
  {
    forall a | a in s[1..] ensures a.path != s[0].path {
      var i :| 0 <= i < |s[1..]| && s[1..][i] == a;
      assert s[i + 1] == a;
    }
  }

  lemma {:induction false} GreedyKeepsIff(s: seq<Artifact>, i: nat, perType: int, seen: multiset<string>, n: nat)
    requires OnePerPath(s) && i < |s|
    ensures s[i] in Take(WithinTypeQuota(s, perType, seen), n) <==>
      && seen[KindOf(s[i])] + CountKind(s[..i], KindOf(s[i])) < perType
      && |WithinTypeQuota(s[..i], perType, seen)| < n
  {
    var accepted := seen[KindOf(s[0])] < perType;
    var next := if accepted then seen + multiset{KindOf(s[0])} else seen;
    var rest := WithinTypeQuota(s[1..], perType, next);
    OnePerPathTail(s);
    QuotaMembers(s[1..], perType, next);
    if accepted && 0 < n {
      assert Take([s[0]] + rest, n) == [s[0]] + Take(rest, n - 1);
    }
    if 0 < i {
      assert s[i] == s[1..][i - 1] && s[..i][0] == s[0] && s[..i][1..] == s[1..][..i - 1];
      GreedyKeepsIff(s[1..], i - 1, perType, next, if accepted && 0 < n then n - 1 else n);
    }
  }

  /** An entry survives the quotas exactly when what stands before it leaves it room. */
  lemma QuotaKeepsIff(s: seq<Artifact>, r: Retention, i: nat)
    requires OnePerPath(s) && i < |s|
    ensures s[i] in Quota(s, r) <==> Admitted(s[..i], s[i], r)
  {
    GreedyKeepsIff(s, i, r.perTypeLimit, multiset{}, Room(r));
  }

  /** No other entry of its path is newer, or as new and earlier in the list. */
  predicate NewestOfPath(entries: seq<Artifact>, i: nat)
    requires i < |entries|
  {
    && HasPath(entries[i])
    && forall j :: 0 <= j < |entries| && j != i && entries[j].path == entries[i].path ==>
         entries[j].tsMs < entries[i].tsMs || (entries[j].tsMs == entries[i].tsMs && i < j)
  }

  function FirstWith(s: seq<Artifact>, path: string): Option<Artifact> {
    if s == [] then None else if s[0].path == path then Some(s[0]) else FirstWith(s[1..], path)
  }

  lemma {:induction false} FirstWithout(s: seq<Artifact>, path: string, other: string)
    requires path != other
    ensures FirstWith(Without(s, other), path) == FirstWith(s, path)
  {
    if s != [] {
      FirstWithout(s[1..], path, other);
      if s[0].path != other {
        assert Without(s, other)[1..] == Without(s[1..], other);
      }
    }
  }

  lemma {:induction false} DistinctKeepsFirst(s: seq<Artifact>, a: Artifact)
    ensures a in Distinct(s) <==> FirstWith(s, a.path) == Some(a)
    decreases |s|
  {
    if s != [] {
      var rest := Without(s[1..], s[0].path);
      WithoutShrinks(s[1..], s[0].path);
      if a.path == s[0].path {
        DistinctMembers(rest);
        WithoutMembers(s[1..], s[0].path);
      } else {
        DistinctKeepsFirst(rest, a);
        FirstWithout(s[1..], a.path, s[0].path);
      }
    }
  }

  /** Sorting puts the newest entry of each path first; a new entry counts as older than its equals. */
  lemma {:induction false} FirstAfterInsert(a: Artifact, sorted: seq<Artifact>, path: string)
    requires Descending(sorted)
    ensures FirstWith(Sorting.Insert(a, sorted, Age), path) ==
      if path != a.path then FirstWith(sorted, path)
      else match FirstWith(sorted, path)
        case Some(b) => if a.tsMs < b.tsMs then Some(b) else Some(a)
        case None => Some(a)
  {
    if sorted == [] || sorted[0].tsMs <= a.tsMs {
      assert ([a] + sorted)[1..] == sorted;
      FirstIsMember(sorted, path);
      assert forall b :: b in sorted ==> b.tsMs <= a.tsMs by {
        forall b | b in sorted ensures b.tsMs <= a.tsMs {
          var i :| 0 <= i < |sorted| && sorted[i] == b;
        }
      }
    } else {
      FirstAfterInsert(a, sorted[1..], path);
      assert Sorting.Insert(a, sorted, Age)[1..] == Sorting.Insert(a, sorted[1..], Age);
    }
  }

  lemma {:induction false} FirstIsMember(s: seq<Artifact>, path: string)
    ensures FirstWith(s, path).Some? ==> FirstWith(s, path).value in s && FirstWith(s, path).value.path == path
    ensures FirstWith(s, path).None? ==> forall a :: a in s ==> a.path != path
  {
    if s != [] && s[0].path != path {
      FirstIsMember(s[1..], path);
    }
  }

  /** The newest entry of a path, the earliest of equally new ones. */
  function Newest(entries: seq<Artifact>, path: string): Option<Artifact> {
    if entries == [] then None
    else
      var later := Newest(entries[1..], path);
      if entries[0].path != path || (later.Some? && entries[0].tsMs < later.value.tsMs) then later
      else Some(entries[0])
  }

  lemma {:induction false} FirstIsNewest(entries: seq<Artifact>, path: string)
    requires path != ""
    ensures FirstWith(NewestFirst(Named(entries)), path) == Newest(entries, path)
  {
    if entries != [] {
      var a, rest := entries[0], entries[1..];
      FirstIsNewest(rest, path);
      if HasPath(a) {
        NewestFirstIsStableSort(Named(rest), 0);
        assert ([a] + Named(rest))[1..] == Named(rest);
        FirstAfterInsert(a, NewestFirst(Named(rest)), path);
      }
    }
  }

  lemma {:induction false} NewestIsThere(entries: seq<Artifact>, path: string) returns (i: nat)
    requires Newest(entries, path).Some? && path != ""
    ensures i < |entries| && entries[i] == Newest(entries, path).value
    ensures entries[i].path == path && NewestOfPath(entries, i)
  {
    var later := Newest(entries[1..], path);
    if entries[0].path != path || (later.Some? && entries[0].tsMs < later.value.tsMs) {
      var k := NewestIsThere(entries[1..], path);
      i := k + 1;
      forall j | 0 <= j < |entries| && j != i && entries[j].path == path
        ensures entries[j].tsMs < entries[i].tsMs || (entries[j].tsMs == entries[i].tsMs && i < j)
      {
        assert 0 < j ==> entries[j] == entries[1..][j - 1];
      }
    } else {
      i := 0;
      NewestBounds(entries[1..], path);
      forall j | 0 < j < |entries| && entries[j].path == path ensures entries[j].tsMs <= entries[0].tsMs {
        assert entries[j] == entries[1..][j - 1];
      }
    }
  }

  lemma {:induction false} NewestBounds(entries: seq<Artifact>, path: string)
    ensures forall j :: 0 <= j < |entries| && entries[j].path == path ==>
              Newest(entries, path).Some? && entries[j].tsMs <= Newest(entries, path).value.tsMs
  {
    if entries != [] {
      NewestBounds(entries[1..], path);
      forall j | 0 <= j < |entries| && entries[j].path == path
        ensures Newest(entries, path).Some? && entries[j].tsMs <= Newest(entries, path).value.tsMs
      {
        assert 0 < j ==> entries[j] == entries[1..][j - 1];
      }
    }
  }

  /** An entry is dropped as a duplicate exactly when a newer one, or an earlier equally new one, has its path. */
  lemma CandidateIffNewest(entries: seq<Artifact>, a: Artifact)
    ensures a in Candidates(entries)
       <==> exists i :: 0 <= i < |entries| && entries[i] == a && NewestOfPath(entries, i)
  {
    DistinctKeepsFirst(NewestFirst(Named(entries)), a);
    if a.path == "" {
      CandidatesAreRanked(entries);
      RankedHavePaths(Candidates(entries));
    } else {
      FirstIsNewest(entries, a.path);
      NewestBounds(entries, a.path);
      if Newest(entries, a.path).Some? {
        var k := NewestIsThere(entries, a.path);
      }
    }
  }

  /**
   * The greedy characterisation: of the distinct entries, newest first, one is dropped exactly when
   * its type quota is already full or the total is already full.
   */
  lemma KeptIff(entries: seq<Artifact>, r: Retention, i: nat)
    requires i < |Candidates(entries)|
    ensures Candidates(entries)[i] in Trim(entries, r)
       <==> Admitted(Candidates(entries)[..i], Candidates(entries)[i], r)
  {
    CandidatesAreRanked(entries);
    RankedIsOnePerPath(Candidates(entries));
    QuotaKeepsIff(Candidates(entries), r, i);
  }

  /** Trimming twice changes nothing more, and a trim adds nothing. */
  lemma TrimIsIdempotent(entries: seq<Artifact>, r: Retention)
    ensures Trim(Trim(entries, r), r) == Trim(entries, r)
    ensures forall a :: a in Trim(entries, r) ==> a in Candidates(entries) && a in entries
  {
    CandidatesAreRanked(entries);
    TrimOfRanked(Candidates(entries), r);
    RankedIsSettled(Trim(entries, r));
  }

  // ----- Bounds

  lemma {:induction false} TypeQuotaBounds(s: seq<Artifact>, perType: int, seen: multiset<string>, kind: string)
    ensures var kept := CountKind(WithinTypeQuota(s, perType, seen), kind);
            kept == 0 || seen[kind] + kept <= perType
  {
    if s != [] {
      if seen[KindOf(s[0])] < perType {
        TypeQuotaBounds(s[1..], perType, seen + multiset{KindOf(s[0])}, kind);
        assert WithinTypeQuota(s, perType, seen)[1..]
            == WithinTypeQuota(s[1..], perType, seen + multiset{KindOf(s[0])});
      } else {
        TypeQuotaBounds(s[1..], perType, seen, kind);
      }
    }
  }

  lemma {:induction false} CountInPrefix(s: seq<Artifact>, n: nat, kind: string)
    requires n <= |s|
    ensures CountKind(s[..n], kind) <= CountKind(s, kind)
  {
    if 0 < n {
      CountInPrefix(s[1..], n - 1, kind);
      assert s[..n][0] == s[0] && s[..n][1..] == s[1..][..n - 1];
    }
  }

  /** At most the total, which counts as one when it is less, and at most the type limit of each type. */
  lemma TrimIsBounded(entries: seq<Artifact>, r: Retention, kind: string)
    ensures |Trim(entries, r)| <= if r.totalLimit < 1 then 1 else r.totalLimit
    ensures CountKind(Trim(entries, r), kind) <= if r.perTypeLimit < 0 then 0 else r.perTypeLimit
  {
    var full := WithinTypeQuota(Candidates(entries), r.perTypeLimit, multiset{});
    TypeQuotaBounds(Candidates(entries), r.perTypeLimit, multiset{}, kind);
    CountInPrefix(full, |Trim(entries, r)|, kind);
    assert full[..|Trim(entries, r)|] == Trim(entries, r);
  }

  /** A total below one still keeps the newest entry, unless the type limit admits nothing. */
  lemma ZeroTotalKeepsOne(entries: seq<Artifact>, r: Retention)
    requires r.totalLimit < 1
    ensures Trim(entries, r) ==
      if 0 < r.perTypeLimit && Candidates(entries) != [] then [Candidates(entries)[0]] else []
  {
    if r.perTypeLimit <= 0 {
      NothingFits(Candidates(entries), r.perTypeLimit, multiset{});
    }
  }
}
