/**
 * What a preparation of the Android service did and saw, as a trace
 * (rdc_tool/remote_bootstrap.py, _start_android_helper and cleanup_android_remote).
 */
module AndroidTrace {
  datatype Row = Row(serial: string, local: string, remote: int)

  /** `Became` marks a change on the device that nothing has reported yet. */
  datatype Act =
    | Listed(rows: seq<Row>)
    | RemoveIssued
    | Probed(pids: seq<int>)
    | LaunchIssued
    | StopIssued(owned: seq<int>)
    | ForwardIssued
    | Became(pids: seq<int>)

  /** The rows of the table that use this local port. */
  function RowsFor(rows: seq<Row>, local: string): seq<Row> {
    if rows == [] then []
    else if rows[0].local == local then [rows[0]] + RowsFor(rows[1..], local)
    else RowsFor(rows[1..], local)
  }

  lemma RowsForAppend(rows: seq<Row>, row: Row)
    ensures RowsFor(rows + [row], row.local) == RowsFor(rows, row.local) + [row]
  {
    if rows == [] {
      assert rows + [row] == [row];
    } else {
      assert (rows + [row])[1..] == rows[1..] + [row];
    }
  }

  // ----- Guards

  /** A removal directly follows a listing that held exactly the recorded mapping for the local port;
      a stop directly follows a probe that found exactly the recorded, non-empty process list. */
  predicate GuardedAct(t: seq<Act>, i: nat, mapping: Row)
    requires i < |t|
  {
    && (t[i].RemoveIssued? ==> 0 < i && t[i - 1].Listed? && RowsFor(t[i - 1].rows, mapping.local) == [mapping])
    && (t[i].StopIssued? ==> 0 < i && t[i].owned != [] && t[i - 1] == Probed(t[i].owned))
  }

  predicate GuardedFrom(t: seq<Act>, from: nat, mapping: Row) {
    forall i :: from <= i < |t| ==> GuardedAct(t, i, mapping)
  }

  predicate NoRemoval(t: seq<Act>, from: nat) {
    forall i :: from <= i < |t| ==> !t[i].RemoveIssued?
  }

  predicate NoStop(t: seq<Act>, from: nat) {
    forall i :: from <= i < |t| ==> !t[i].StopIssued?
  }

  predicate NoLaunch(t: seq<Act>, from: nat) {
    forall i :: from <= i < |t| ==> !t[i].LaunchIssued?
  }

  /** No probe finds the package without a process. */
  predicate NoneAbsent(t: seq<Act>, from: nat) {
    forall i :: from <= i < |t| ==> t[i] != Probed([])
  }

  /** Only observations and changes of the device's own. */
  predicate Calm(t: seq<Act>, from: nat) {
    forall i :: from <= i < |t| ==> t[i].Listed? || t[i].Probed? || t[i].Became?
  }

  lemma ListingIsHarmless(before: seq<Act>, seen: seq<Row>, mapping: Row)
    ensures var after := before + [Listed(seen)];
            && GuardedFrom(after, |before|, mapping)
            && NoStop(after, |before|) && NoLaunch(after, |before|)
  {
  }

  lemma ForwardRemovalIsGuarded(before: seq<Act>, seen: seq<Row>, after: seq<Act>, later: seq<Row>, mapping: Row)
    requires RowsFor(seen, mapping.local) == [mapping]
    requires before + [Listed(seen)] + [RemoveIssued] <= after
    requires after <= before + [Listed(seen)] + [RemoveIssued, Listed(later)]
    ensures before <= after && GuardedFrom(after, |before|, mapping)
    ensures NoStop(after, |before|) && NoLaunch(after, |before|)
  {
    var n := |before|;
    var least := before + [Listed(seen)] + [RemoveIssued];
    var most := before + [Listed(seen)] + [RemoveIssued, Listed(later)];
    assert after[..n + 2] == least && least[..n] == before;
    assert after[n] == least[n] && after[n + 1] == least[n + 1];
    if n + 2 < |after| {
      assert after[n + 2] == most[n + 2];
    }
  }

  /** A stop right after a probe that saw the recorded processes, and what the stop may change. */
  lemma StopIsGuarded(before: seq<Act>, probed: seq<Act>, owned: seq<int>, after: seq<Act>, mapping: Row)
    requires before <= probed && Calm(probed, |before|) && |before| < |probed|
    requires probed[|probed| - 1] == Probed(owned) && owned != []
    requires after == probed + [StopIssued(owned)] || after == probed + [StopIssued(owned)] + [Became([])]
    ensures before <= after && GuardedFrom(after, |before|, mapping)
    ensures NoRemoval(after, |before|) && NoLaunch(after, |before|)
  {
    assert after[..|probed|] == probed;
  }

  lemma GuardsJoin(a: seq<Act>, b: seq<Act>, c: seq<Act>, mapping: Row)
    requires a <= b <= c
    requires GuardedFrom(b, |a|, mapping) && GuardedFrom(c, |b|, mapping)
    ensures GuardedFrom(c, |a|, mapping)
    ensures NoRemoval(b, |a|) && NoRemoval(c, |b|) ==> NoRemoval(c, |a|)
    ensures NoStop(b, |a|) && NoStop(c, |b|) ==> NoStop(c, |a|)
    ensures NoLaunch(b, |a|) && NoLaunch(c, |b|) ==> NoLaunch(c, |a|)
  {
    assert c[..|b|] == b;
    forall i | |a| <= i < |c| ensures GuardedAct(c, i, mapping) {
      if i < |b| {
        assert GuardedAct(b, i, mapping);
      }
    }
    forall i | |a| <= i < |b| ensures c[i] == b[i] {}
  }

  lemma QuietJoins(a: seq<Act>, b: seq<Act>, c: seq<Act>)
    requires a <= b <= c && NoStop(c, |b|) && NoRemoval(c, |b|) && NoLaunch(c, |b|)
    ensures NoStop(b, |a|) ==> NoStop(c, |a|)
    ensures NoRemoval(b, |a|) ==> NoRemoval(c, |a|)
    ensures NoLaunch(c, |a|) <==> NoLaunch(b, |a|)
  {
    assert forall i :: 0 <= i < |b| ==> c[i] == b[i];
  }

  lemma QuietIsGuarded(t: seq<Act>, mapping: Row)
    requires NoRemoval(t, 0) && NoStop(t, 0)
    ensures GuardedFrom(t, 0, mapping)
  {
  }

  lemma CalmIsGuarded(before: seq<Act>, after: seq<Act>, mapping: Row)
    requires before <= after && Calm(after, |before|) && GuardedFrom(before, 0, mapping)
    ensures GuardedFrom(after, 0, mapping)
    ensures NoRemoval(before, 0) ==> NoRemoval(after, 0)
    ensures NoStop(before, 0) ==> NoStop(after, 0)
    ensures NoLaunch(before, 0) ==> NoLaunch(after, 0)
  {
    assert after[..|before|] == before;
    forall i | 0 <= i < |after| ensures GuardedAct(after, i, mapping) {
      if i < |before| {
        assert GuardedAct(before, i, mapping);
      }
    }
  }

  // ----- The helper's processes: what runs, what a probe has seen, and what is news

  /** Whether the package has a process at the end, given whether it had one before. */
  predicate Running(t: seq<Act>, before: bool) {
    if t == [] then before
    else
      match t[|t| - 1]
      case Probed(pids) => pids != []
      case Became(pids) => pids != []
      case _ => Running(t[..|t| - 1], before)
  }

  /** The last probe saw it running, and nothing has changed since. */
  predicate Sighted(t: seq<Act>) {
    t != [] &&
    match t[|t| - 1]
    case Probed(pids) => pids != []
    case Became(_) => false
    case _ => Sighted(t[..|t| - 1])
  }

  /** It runs, and no readable probe has looked since it appeared. */
  predicate Unseen(t: seq<Act>, before: bool) {
    if t == [] then before
    else
      match t[|t| - 1]
      case Probed(_) => false
      case Became(pids) => pids != []
      case _ => Unseen(t[..|t| - 1], before)
  }

  /** A process needs a launch, unless there was one before. */
  predicate Launched(t: seq<Act>, before: bool) {
    before || exists i :: 0 <= i < |t| && t[i].LaunchIssued?
  }

  lemma After(t: seq<Act>, act: Act, before: bool)
    ensures Running(t + [act], before) ==
      match act
      case Probed(pids) => pids != []
      case Became(pids) => pids != []
      case _ => Running(t, before)
    ensures Sighted(t + [act]) ==
      match act
      case Probed(pids) => pids != []
      case Became(_) => false
      case _ => Sighted(t)
    ensures Launched(t, before) || act == LaunchIssued ==> Launched(t + [act], before)
    ensures act != LaunchIssued ==> Launched(t + [act], before) == Launched(t, before)
  {
    assert (t + [act])[..|t|] == t;
    assert (t + [act])[|t|] == act;
    assert forall i :: 0 <= i < |t| ==> (t + [act])[i] == t[i];
  }

  /** What runs has either been seen by the last word on it, or not been looked at since it appeared. */
  lemma {:induction false} RunningIsSeenOrNot(t: seq<Act>, before: bool)
    ensures Running(t, before) <==> Sighted(t) || Unseen(t, before)
    ensures !(Sighted(t) && Unseen(t, before))
  {
    if t != [] {
      RunningIsSeenOrNot(t[..|t| - 1], before);
    }
  }

  predicate IsNews(t: seq<Act>, from: nat) {
    forall j :: from <= j < |t| ==> !t[j].Probed? && !t[j].Became?
  }

  /** In full: it appeared at some point, or was there before, and neither a probe nor a change came later. */
  lemma {:induction false} UnseenIff(t: seq<Act>, before: bool)
    ensures Unseen(t, before) <==>
      || (before && IsNews(t, 0))
      || exists i :: 0 <= i < |t| && t[i].Became? && t[i].pids != [] && IsNews(t, i + 1)
  {
    if t != [] {
      var last, prior := |t| - 1, t[..|t| - 1];
      UnseenIff(prior, before);
      if t[last].Became? {
        assert IsNews(t, last + 1);
      } else if !t[last].Probed? {
        assert forall i :: 0 <= i <= last ==> (IsNews(t, i) <==> IsNews(prior, i)) by {
          forall i | 0 <= i <= last ensures IsNews(t, i) <==> IsNews(prior, i) {
            assert forall j :: 0 <= j < last ==> t[j] == prior[j];
          }
        }
        assert forall i :: 0 <= i < last ==> t[i] == prior[i];
      }
    }
  }
}
