/**
 * Accepting a release: the archive and its metadata files move into place together, or are undone in
 * reverse order (scripts/package_release.py, _accept_release), under every schedule of failures.
 */
module ReleaseAcceptance {
  import opened Wrappers

  type Name = string

  /** A file's bytes; a write that fails may leave it torn. */
  datatype File = Bytes(id: int) | Torn

  type Folder = map<Name, File>

  /** A move is done, refused without effect, or raises after it has taken effect. */
  datatype Step = Done | Refused | Late

  datatype Moving = Moving(name: Name, overwrite: bool, step: Step)

  datatype Verdict = Accepted | RolledBack | RollbackIncomplete | RecoveryFailed

  /** The output folder, the staging folder and, when one was made, the recovery folder. */
  class Release {
    var out: Folder
    var staging: Folder
    var recovery: Option<Folder>
    ghost var moves: seq<Moving>  // each move, and how it went
    ghost var tried: seq<Name>    // whose undoing was tried, in that order
    ghost var failed: set<Name>   // whose undoing failed
    ghost var saves: seq<bool>    // how each saving of the metadata went
    const overwrites: bool        // a rename replaces an existing file, as outside Windows

    constructor (out: Folder, staging: Folder, overwrites: bool)
      ensures this.out == out && this.staging == staging && recovery == None && this.overwrites == overwrites
      ensures Untouched()
    {
      moves, tried, failed, saves := [], [], {}, [];
      this.out, this.staging, this.recovery, this.overwrites := out, staging, None, overwrites;
    }

    /** Nothing has been moved, undone or saved yet. */
    ghost predicate Untouched()
      reads this
    {
      moves == [] && tried == [] && failed == {} && saves == []
    }

    /** Move one staged file into the output; `overwrite` tells replace from rename. */
    method Move(name: Name, overwrite: bool) returns (o: Step)
      modifies this`out, this`staging, this`moves
      ensures moves == old(moves) + [Moving(name, overwrite, o)]
      ensures if o == Refused
              then out == old(out) && staging == old(staging)
              else name in old(staging) && out == old(out)[name := old(staging)[name]]
                   && staging == old(staging) - {name}
      ensures o != Refused && !overwrite && !overwrites ==> name !in old(out)
    {
      o := *;
      if name !in staging || (!overwrite && !overwrites && name in out) {
        o := Refused;
      }
      if o != Refused {
        out := out[name := staging[name]];
        staging := staging - {name};
      }
      moves := moves + [Moving(name, overwrite, o)];
    }

    /** Undo one file: remove it, or write its previous bytes back. */
    method Undo(name: Name, original: Option<File>) returns (ok: bool)
      modifies this`out, this`tried, this`failed
      ensures tried == old(tried) + [name] && failed == if ok then old(failed) else old(failed) + {name}
      ensures ok ==> out == Undone(old(out), name, original)
      ensures out - {name} == old(out) - {name}
    {
      ok := *;
      var torn: bool := *;
      if ok {
        out := Undone(out, name, original);
      } else if torn && original.Some? {
        out := out[name := Torn];
      }
      tried, failed := tried + [name], if ok then failed else failed + {name};
    }

    /** A fresh recovery folder with all previous metadata, or an error on the way. */
    method Save(previous: Folder) returns (ok: bool)
      modifies this`recovery, this`saves
      ensures saves == old(saves) + [ok]
      ensures ok ==> recovery == Some(previous)
    {
      ok := *;
      saves := saves + [ok];
      if ok {
        recovery := Some(previous);
      }
    }
  }

  function Undone(out: Folder, name: Name, original: Option<File>): Folder {
    match original
    case None => out - {name}
    case Some(file) => out[name := file]
  }

  function Original(previous: Folder, name: Name): Option<File> {
    if name in previous then Some(previous[name]) else None
  }

  predicate Unique(names: seq<Name>) {
    forall i, j :: 0 <= i < j < |names| ==> names[i] != names[j]
  }

  /** The metadata files as they were, which is what is kept for a rollback. */
  function Previous(out: Folder, metadata: seq<Name>): Folder {
    map name | name in metadata && name in out :: out[name]
  }

  /** `names`, accepted one after another, on top of `out`. */
  function Overlaid(out: Folder, staging: Folder, names: seq<Name>): Folder
    requires forall i :: 0 <= i < |names| ==> names[i] in staging
  {
    if names == [] then out
    else
      var last := names[|names| - 1];
      Overlaid(out, staging, names[..|names| - 1])[last := staging[last]]
  }

  predicate AgreeOutside(a: Folder, b: Folder, names: set<Name>) {
    a - names == b - names
  }

  lemma {:induction false} OverlayTouchesOnly(out: Folder, staging: Folder, names: seq<Name>)
    requires forall i :: 0 <= i < |names| ==> names[i] in staging
    ensures var all := Overlaid(out, staging, names);
            && all.Keys == out.Keys + (set name | name in names)
            && (forall name :: name in names ==> name in all && all[name] == staging[name])
            && (forall name :: name in out && name !in names ==> name in all && all[name] == out[name])
  {
    if names != [] {
      OverlayTouchesOnly(out, staging, names[..|names| - 1]);
      assert names == names[..|names| - 1] + [names[|names| - 1]];
    }
  }

  /** Undo every accepted file, newest first, and go on when one cannot be undone. */
  method Rollback(r: Release, accepted: seq<Name>, previous: Folder) returns (complete: bool)
    requires Unique(accepted) && r.tried == [] && r.failed == {}
    modifies r`out, r`tried, r`failed
    ensures |r.tried| == |accepted|
    ensures forall i :: 0 <= i < |accepted| ==> r.tried[i] == accepted[|accepted| - 1 - i]
    ensures r.failed <= (set name | name in accepted) && (complete <==> r.failed == {})
    ensures AgreeOutside(r.out, old(r.out), set name | name in accepted)
    ensures forall name :: name in accepted && name !in r.failed ==> Original(r.out, name) == Original(previous, name)
  {
    complete := true;
    var k := |accepted|;
    while k > 0
      invariant 0 <= k <= |accepted|
      invariant |r.tried| == |accepted| - k
      invariant forall i :: 0 <= i < |r.tried| ==> r.tried[i] == accepted[|accepted| - 1 - i]
      invariant r.failed <= (set name | name in accepted) && (complete <==> r.failed == {})
      invariant AgreeOutside(r.out, old(r.out), set name | name in accepted)
      invariant forall i :: k <= i < |accepted| && accepted[i] !in r.failed ==>
        Original(r.out, accepted[i]) == Original(previous, accepted[i])
    {
      k := k - 1;
      var name := accepted[k];
      ghost var before := r.out;
      var ok := r.Undo(name, Original(previous, name));
      complete := complete && ok;
      OthersKept(before, r.out, name);
      assert name in accepted;
    }
  }

  lemma OthersKept(before: Folder, after: Folder, name: Name)
    requires after - {name} == before - {name}
    ensures forall n :: n != name ==> (n in after <==> n in before) && (n in after ==> after[n] == before[n])
  {
    forall n | n != name ensures (n in after <==> n in before) && (n in after ==> after[n] == before[n]) {
      assert n in after <==> n in after - {name};
      assert n in before <==> n in before - {name};
      if n in after {
        assert (after - {name})[n] == (before - {name})[n];
      }
    }
  }

  /** What a stopped acceptance left behind: the accepted files, and the one whose move raised late. */
  ghost function Stopped(before: Folder, staged: Folder, accepted: seq<Name>, late: Option<Name>): Folder
    requires forall i :: 0 <= i < |accepted| ==> accepted[i] in staged
    requires late.Some? ==> late.value in staged
  {
    var out := Overlaid(before, staged, accepted);
    if late.Some? then out[late.value := staged[late.value]] else out
  }

  /**
   * Every accepted file was tried, newest first; the metadata were saved, or tried to be, exactly when one of
   * them could not be undone; and the verdict says how that went.
   */
  predicate Handled(tried: seq<Name>, failed: set<Name>, saves: seq<bool>, accepted: seq<Name>, verdict: Verdict) {
    && |tried| == |accepted|
    && (forall i :: 0 <= i < |accepted| ==> tried[i] == accepted[|accepted| - 1 - i])
    && failed <= (set name | name in accepted)
    && match verdict
       case Accepted => false
       case RolledBack => failed == {} && saves == []
       case RollbackIncomplete => failed != {} && saves == [true]
       case RecoveryFailed => failed != {} && saves == [false]
  }

  /** The handler: undo, and save the metadata when that was not complete. */
  method UndoAll(r: Release, accepted: seq<Name>, previous: Folder,
                 ghost before: Folder, ghost staged: Folder, ghost late: Option<Name>)
    returns (verdict: Verdict)
    requires Unique(accepted)
    requires forall i :: 0 <= i < |accepted| ==> accepted[i] in staged
    requires late.Some? ==> late.value in staged && late.value !in accepted
    requires r.out == Stopped(before, staged, accepted, late)
    requires forall name :: name in accepted ==> Original(previous, name) == Original(before, name)
    requires r.recovery == None && r.tried == [] && r.failed == {} && r.saves == []
    modifies r`out, r`recovery, r`tried, r`failed, r`saves
    ensures Handled(r.tried, r.failed, r.saves, accepted, verdict)
    ensures forall name :: name in accepted && name !in r.failed ==> Original(r.out, name) == Original(before, name)
    ensures verdict == RolledBack ==> r.out == Stopped(before, staged, [], late)
    ensures verdict == RollbackIncomplete ==> r.recovery == Some(previous)
    ensures AgreeOutside(r.out, before, (set name | name in accepted) + if late.Some? then {late.value} else {})
  {
    ghost var names := set name | name in accepted;
    ghost var stopped := r.out;
    ghost var goal := Stopped(before, staged, [], late);
    StoppedAgrees(before, staged, accepted, late);
    var complete := Rollback(r, accepted, previous);
    assert AgreeOutside(r.out, goal, names);
    if complete {
      RestoredEverywhere(r.out, goal, names);
      return RolledBack;
    }
    assert AgreeOutside(r.out, before, names + if late.Some? then {late.value} else {}) by {
      AgreeFurther(r.out, goal, before, names, late);
    }
    var saved := r.Save(previous);
    verdict := if saved then RollbackIncomplete else RecoveryFailed;
  }

  /** Outside the accepted files, only the late one differs. */
  lemma StoppedAgrees(before: Folder, staged: Folder, accepted: seq<Name>, late: Option<Name>)
    requires forall i :: 0 <= i < |accepted| ==> accepted[i] in staged
    requires late.Some? ==> late.value in staged && late.value !in accepted
    ensures AgreeOutside(Stopped(before, staged, accepted, late), Stopped(before, staged, [], late),
                         set name | name in accepted)
  {
    OverlayTouchesOnly(before, staged, accepted);
  }

  lemma RestoredEverywhere(a: Folder, b: Folder, names: set<Name>)
    requires AgreeOutside(a, b, names)
    requires forall name :: name in names ==> (name in a <==> name in b) && (name in b ==> a[name] == b[name])
    ensures a == b
  {
    forall n ensures (n in a <==> n in b) && (n in a ==> a[n] == b[n]) {
      if n !in names {
        assert n in a <==> n in a - names;
        assert n in b <==> n in b - names;
        if n in a {
          assert (a - names)[n] == (b - names)[n];
        }
      }
    }
  }

  lemma AgreeOutsideMore(a: Folder, b: Folder, few: set<Name>, many: set<Name>)
    requires AgreeOutside(a, b, few) && few <= many
    ensures AgreeOutside(a, b, many)
  {
    assert a - many == (a - few) - many;
    assert b - many == (b - few) - many;
  }

  lemma AgreeFurther(a: Folder, b: Folder, c: Folder, names: set<Name>, late: Option<Name>)
    requires AgreeOutside(a, b, names)
    requires if late.Some? then b - {late.value} == c - {late.value} else b == c
    ensures AgreeOutside(a, c, names + if late.Some? then {late.value} else {})
  {
    var extra := if late.Some? then {late.value} else {};
    assert a - (names + extra) == (a - names) - extra;
    assert b - (names + extra) == (b - names) - extra;
    assert b - (names + extra) == (b - extra) - names;
    assert c - (names + extra) == (c - extra) - names;
    assert b - extra == c - extra;
  }

  /** The names in turn, only the first without overwriting; `count` moves were done, and the next one was not. */
  predicate Moves(moves: seq<Moving>, names: seq<Name>, count: nat) {
    && count <= |names|
    && |moves| == (if count < |names| then count + 1 else count)
    && (forall i :: 0 <= i < |moves| ==> moves[i].name == names[i] && (moves[i].overwrite <==> 0 < i))
    && (forall i :: 0 <= i < count ==> moves[i].step == Done)
    && (count < |names| ==> moves[count].step != Done)
  }

  /** The try block: move the files one by one until one raises; `count` files were recorded as accepted. */
  method MoveAll(r: Release, names: seq<Name>) returns (count: nat, ghost late: Option<Name>)
    requires Unique(names) && names != [] && r.moves == []
    modifies r`out, r`staging, r`moves
    ensures Moves(r.moves, names, count)
    ensures late.Some? <==> count < |names| && r.moves[count].step == Late
    ensures forall i :: 0 <= i < count ==> names[i] in old(r.staging)
    ensures late.Some? ==> count < |names| && late.value == names[count] && late.value in old(r.staging)
    ensures r.out == Stopped(old(r.out), old(r.staging), names[..count], late)
    ensures 0 < count && !r.overwrites ==> names[0] !in old(r.out)
  {
    late := None;
    count := 0;
    while count < |names|
      invariant count <= |names| && |r.moves| == count
      invariant forall i :: 0 <= i < count ==> r.moves[i] == Moving(names[i], 0 < i, Done)
      invariant forall i :: 0 <= i < count ==> names[i] in old(r.staging)
      invariant forall i :: count <= i < |names| ==> Original(r.staging, names[i]) == Original(old(r.staging), names[i])
      invariant r.out == Overlaid(old(r.out), old(r.staging), names[..count])
      invariant late == None
      invariant 0 < count && !r.overwrites ==> names[0] !in old(r.out)
    {
      var o := r.Move(names[count], count > 0);
      if o == Refused {
        return;
      }
      assert Original(old(r.staging), names[count]).Some?;
      if o == Late {
        late := Some(names[count]);
        return;
      }
      assert names[..count + 1][..count] == names[..count];
      count := count + 1;
    }
  }

  /**
   * All-or-recoverable. Accepted: every file is new. Rolled back: everything is as before, unless a move
   * raised after taking effect; that one file, and no other, then keeps its new content. Rollback
   * incomplete: all previous metadata is in the recovery folder. One exact exception: where a rename
   * replaces files, a package that was there before and was replaced is removed by the rollback.
   */
  method AcceptRelease(r: Release, package: Name, metadata: seq<Name>)
    returns (verdict: Verdict, ghost count: nat, ghost late: Option<Name>, ghost replaced: bool)
    requires Unique([package] + metadata)
    requires r.recovery == None && r.Untouched()
    modifies r
    ensures Moves(r.moves, [package] + metadata, count)
    ensures count == 1 + |metadata| <==> verdict == Accepted
    ensures verdict != Accepted ==>
      && Handled(r.tried, r.failed, r.saves, ([package] + metadata)[..count], verdict)
      && forall name :: name in ([package] + metadata)[..count] && name !in r.failed ==>
           Original(r.out, name) == Original(Previous(old(r.out), metadata), name)
    ensures verdict == Accepted ==>
      && late == None
      && (forall name :: name in [package] + metadata ==>
            name in old(r.staging) && Original(r.out, name) == Original(old(r.staging), name))
      && AgreeOutside(r.out, old(r.out), set name | name in [package] + metadata)
    ensures verdict == RolledBack ==>
      (replaced ==> r.overwrites && package in old(r.out)) && (late == Some(package) ==> !replaced)
    ensures verdict == RolledBack ==>
      var kept := if replaced then old(r.out) - {package} else old(r.out);
      match late
      case None => r.out == kept
      case Some(name) =>
        && name in [package] + metadata && name in old(r.staging)
        && r.out == kept[name := old(r.staging)[name]]
    ensures verdict == RollbackIncomplete ==>
      && r.recovery.Some?
      && r.recovery.value.Keys == (set name | name in metadata && name in old(r.out))
      && forall name :: name in r.recovery.value ==> r.recovery.value[name] == old(r.out)[name]
    ensures AgreeOutside(r.out, old(r.out), set name | name in [package] + metadata)
  {
    var previous := Previous(r.out, metadata);
    var names := [package] + metadata;
    ghost var before, staged := r.out, r.staging;
    var moved: nat;
    moved, late := MoveAll(r, names);
    count, replaced := moved, 0 < moved && package in before;
    if moved == |names| {
      assert names[..moved] == names;
      OverlayTouchesOnly(before, staged, names);
      return Accepted, count, late, replaced;
    }
    verdict := UndoFirst(r, package, metadata, moved, previous, before, staged, late);
    assert late.Some? ==> late.value in names;
    assert package !in before ==> before - {package} == before;
    assert names[0] == package;
  }

  /** The handler, for the first `count` files: whatever a replaced package was, it is not recorded. */
  method UndoFirst(r: Release, package: Name, metadata: seq<Name>, count: nat, previous: Folder,
                   ghost before: Folder, ghost staged: Folder, ghost late: Option<Name>)
    returns (verdict: Verdict)
    requires Unique([package] + metadata) && count < |[package] + metadata|
    requires forall i :: 0 <= i < count ==> ([package] + metadata)[i] in staged
    requires late.Some? ==> late.value == ([package] + metadata)[count] && late.value in staged
    requires r.out == Stopped(before, staged, ([package] + metadata)[..count], late)
    requires previous == Previous(before, metadata) && r.recovery == None
    requires r.tried == [] && r.failed == {} && r.saves == []
    modifies r`out, r`recovery, r`tried, r`failed, r`saves
    ensures Handled(r.tried, r.failed, r.saves, ([package] + metadata)[..count], verdict)
    ensures forall name :: name in ([package] + metadata)[..count] && name !in r.failed ==>
              Original(r.out, name) == Original(previous, name)
    ensures verdict == RolledBack ==>
      r.out == Stopped(if 0 < count then before - {package} else before, staged, [], late)
    ensures verdict == RollbackIncomplete ==> r.recovery == Some(previous)
    ensures AgreeOutside(r.out, before, set name | name in [package] + metadata)
  {
    var names := [package] + metadata;
    ghost var all := set name | name in names;
    ghost var base := if 0 < count then before - {package} else before;
    ghost var touched := (set name | name in names[..count]) + if late.Some? then {late.value} else {};
    PreviousIsExact(before, package, metadata, count);
    if 0 < count {
      FirstIsOverlaid(before, staged, names[..count]);
    }
    verdict := UndoAll(r, names[..count], previous, base, staged, late);
    AgreeOutsideMore(r.out, base, touched, all);
    assert base - all == before - all;
  }

  /** What was there before of the first file no longer shows. */
  lemma {:induction false} FirstIsOverlaid(out: Folder, staging: Folder, names: seq<Name>)
    requires names != [] && forall i :: 0 <= i < |names| ==> names[i] in staging
    ensures Overlaid(out - {names[0]}, staging, names) == Overlaid(out, staging, names)
  {
    var prior, last := names[..|names| - 1], names[|names| - 1];
    if prior == [] {
      assert (out - {last})[last := staging[last]] == out[last := staging[last]];
    } else {
      FirstIsOverlaid(out, staging, prior);
    }
  }

  lemma PreviousIsExact(before: Folder, package: Name, metadata: seq<Name>, count: nat)
    requires Unique([package] + metadata) && count <= |[package] + metadata|
    ensures forall name :: name in ([package] + metadata)[..count] ==>
              Original(Previous(before, metadata), name) == Original(before - {package}, name)
  {
    PackageIsNoMetadata(package, metadata);
    forall name | name in ([package] + metadata)[..count]
      ensures Original(Previous(before, metadata), name) == Original(before - {package}, name)
    {
      assert name == package || name in metadata;
    }
  }

  lemma PackageIsNoMetadata(package: Name, metadata: seq<Name>)
    requires Unique([package] + metadata)
    ensures package !in metadata
  {
    var names := [package] + metadata;
    assert forall j :: 0 <= j < |metadata| ==> metadata[j] == names[j + 1] && names[0] != names[j + 1];
  }
}
