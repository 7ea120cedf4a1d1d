/**
 * Promoting a temporary file or directory over its final path (rdc_tool/io_utils.py,
 * atomic_swap_path with _cleanup_path), under every schedule of failures and interrupts.
 */
module AtomicSwap {
  type Path = string

  /** What a path holds; a directory whose removal broke off half-way is left partial. */
  datatype Content = File(id: int) | Directory(id: int) | Partial

  /** A rename succeeds, is refused without effect, or is interrupted before or after its effect. */
  datatype Outcome = Done | Refused | Interrupted

  datatype Swap = Promoted | Failed | Aborted

  predicate Holds(at: map<Path, Content>, p: Path, c: Content) {
    p in at && at[p] == c
  }

  function Renamed(at: map<Path, Content>, source: Path, target: Path): map<Path, Content>
    requires source in at
  {
    (at - {source})[target := at[source]]
  }

  /** One rename, as asked for and as it went. */
  datatype Renaming = Renaming(source: Path, target: Path, outcome: Outcome)

  /** How many attempts these renames make: each ends with its rename of `temp`, or before it. */
  function Tries(log: seq<Renaming>, temp: Path, backup: Path): nat {
    if log == [] then 0
    else
      var last := log[|log| - 1];
      var ends := last.source == temp || (last.target == backup && last.outcome != Done);
      Tries(log[..|log| - 1], temp, backup) + if ends then 1 else 0
  }

  lemma TriesStep(log: seq<Renaming>, e: Renaming, temp: Path, backup: Path)
    ensures Tries(log + [e], temp, backup) == Tries(log, temp, backup)
         + if e.source == temp || (e.target == backup && e.outcome != Done) then 1 else 0
  {
    assert (log + [e])[..|log|] == log;
  }

  class Disk {
    var at: map<Path, Content>
    ghost var log: seq<Renaming>
    ghost var removals: set<Path> // whose removal was tried
    ghost var paused: bool        // a pause was interrupted
    ghost var pauses: nat

    /** os.replace: atomic, and it overwrites. */
    method Replace(source: Path, target: Path) returns (o: Outcome)
      requires source != target
      modifies this`at, this`log
      ensures log == old(log) + [Renaming(source, target, o)]
      ensures o == Done ==> source in old(at) && at == Renamed(old(at), source, target)
      ensures o == Refused ==> at == old(at)
      ensures at == old(at) || (source in old(at) && at == Renamed(old(at), source, target))
    {
      o := *;
      var late: bool := *;
      if source !in at {
        if o == Done {
          o := Refused;
        }
      } else if o == Done || (o == Interrupted && late) {
        at := Renamed(at, source, target);
      }
      log := log + [Renaming(source, target, o)];
    }

    /** The pause before the next attempt. */
    method Pause() returns (interrupted: bool)
      modifies this`paused, this`pauses
      ensures paused == (old(paused) || interrupted) && pauses == old(pauses) + 1
    {
      interrupted := *;
      paused, pauses := paused || interrupted, pauses + 1;
    }

    /** _cleanup_path: errors are swallowed, so the path may survive or a directory may end up partial. */
    method Cleanup(p: Path)
      modifies this`at, this`removals
      ensures removals == old(removals) + {p}
      ensures
        || at == old(at)
        || at == old(at) - {p}
        || (p in old(at) && old(at)[p].Directory? && at == old(at)[p := Partial])
    {
      var removed: bool := *;
      var broken: bool := *;
      if p in at {
        if removed {
          at := at - {p};
        } else if broken && at[p].Directory? {
          at := at[p := Partial];
        }
      }
      removals := removals + {p};
    }
  }

  /** Nothing but the three paths of a swap has changed. */
  predicate Elsewhere(before: map<Path, Content>, after: map<Path, Content>, temp: Path, final: Path, backup: Path) {
    before - {temp, final, backup} == after - {temp, final, backup}
  }

  /** The final path is as it was. */
  predicate Intact(before: map<Path, Content>, after: map<Path, Content>, final: Path) {
    (final in before <==> final in after) && (final in before ==> after[final] == before[final])
  }

  /** The old content was moved aside and waits in the backup. */
  predicate SetAside(before: map<Path, Content>, after: map<Path, Content>, final: Path, backup: Path) {
    final in before && final !in after && Holds(after, backup, before[final])
  }

  /** The new content stands at the final path; the old one is in the backup or was overwritten. */
  predicate InPlace(before: map<Path, Content>, after: map<Path, Content>, temp: Path, final: Path, backup: Path) {
    && temp in before && temp !in after
    && Holds(after, final, before[temp])
    && (backup in after ==> final in before && after[backup] == before[final])
  }

  /** Between attempts: nothing is lost yet, and `backedUp` tells where the old content is. */
  predicate Waiting(before: map<Path, Content>, after: map<Path, Content>, temp: Path, final: Path, backup: Path,
                    backedUp: bool)
  {
    && Elsewhere(before, after, temp, final, backup)
    && Intact(before, after, temp)
    && if backedUp then SetAside(before, after, final, backup)
       else Intact(before, after, final) && backup !in after
  }

  predicate Settled(before: map<Path, Content>, after: map<Path, Content>, temp: Path, final: Path, backup: Path) {
    && Elsewhere(before, after, temp, final, backup)
    && InPlace(before, after, temp, final, backup)
  }

  /** Wherever an interrupt lands, the old content is in one of the two places or the new one is in. */
  predicate Safe(before: map<Path, Content>, after: map<Path, Content>, temp: Path, final: Path, backup: Path) {
    && Elsewhere(before, after, temp, final, backup)
    && (|| (Intact(before, after, final) && backup !in after)
        || SetAside(before, after, final, backup)
        || InPlace(before, after, temp, final, backup))
  }

  /** The try block of one attempt. */
  method Attempt(disk: Disk, temp: Path, final: Path, backup: Path, backedUp: bool,
                 ghost before: map<Path, Content>)
    returns (o: Outcome, moved: bool)
    requires temp != final && temp != backup && final != backup
    requires Waiting(before, disk.at, temp, final, backup, backedUp)
    modifies disk`at, disk`log
    ensures Tries(disk.log, temp, backup) == Tries(old(disk.log), temp, backup) + 1
    ensures disk.log != [] && disk.log[|disk.log| - 1].outcome == o
    ensures old(disk.log) < disk.log
    ensures var first := disk.log[|old(disk.log)|];
            if temp in old(disk.at) && old(disk.at)[temp].Directory? && final in old(disk.at)
            then first.source == final && first.target == backup
            else first.source == temp && first.target == final
    ensures o == Done ==> disk.log[|disk.log| - 1] == Renaming(temp, final, Done)
    ensures o == Done ==> Settled(before, disk.at, temp, final, backup)
    ensures o == Refused ==> Waiting(before, disk.at, temp, final, backup, moved)
    ensures o == Interrupted ==> Safe(before, disk.at, temp, final, backup)
  {
    o, moved := MoveAside(disk, temp, final, backup, backedUp, before);
    if o != Done {
      return;
    }
    o := Promote(disk, temp, final, backup, moved, before);
  }

  /** The rename that puts the new content in place. */
  method Promote(disk: Disk, temp: Path, final: Path, backup: Path, backedUp: bool,
                 ghost before: map<Path, Content>)
    returns (o: Outcome)
    requires temp != final && temp != backup && final != backup
    requires Waiting(before, disk.at, temp, final, backup, backedUp)
    modifies disk`at, disk`log
    ensures disk.log == old(disk.log) + [Renaming(temp, final, o)]
    ensures Tries(disk.log, temp, backup) == Tries(old(disk.log), temp, backup) + 1
    ensures o == Done ==> Settled(before, disk.at, temp, final, backup)
    ensures o == Refused ==> Waiting(before, disk.at, temp, final, backup, backedUp)
    ensures o == Interrupted ==> Safe(before, disk.at, temp, final, backup)
  {
    o := disk.Replace(temp, final);
    TriesStep(old(disk.log), Renaming(temp, final, o), temp, backup);
  }

  /** A directory cannot replace another one, so the old content goes to the backup first. */
  method MoveAside(disk: Disk, temp: Path, final: Path, backup: Path, backedUp: bool,
                   ghost before: map<Path, Content>)
    returns (o: Outcome, moved: bool)
    requires temp != final && temp != backup && final != backup
    requires Waiting(before, disk.at, temp, final, backup, backedUp)
    modifies disk`at, disk`log
    ensures
      if temp in old(disk.at) && old(disk.at)[temp].Directory? && final in old(disk.at)
      then disk.log == old(disk.log) + [Renaming(final, backup, o)]
      else disk.log == old(disk.log) && o == Done
    ensures Tries(disk.log, temp, backup) == Tries(old(disk.log), temp, backup) + if o == Done then 0 else 1
    ensures o != Interrupted ==> Waiting(before, disk.at, temp, final, backup, moved)
    ensures Safe(before, disk.at, temp, final, backup)
  {
    o, moved := Done, backedUp;
    if temp in disk.at && disk.at[temp].Directory? && final in disk.at {
      o := disk.Replace(final, backup);
      TriesStep(old(disk.log), Renaming(final, backup, o), temp, backup);
      moved := moved || o == Done;
    }
  }

  /** The handler's restoration; a refused rename leaves the old content in the backup. */
  method Restore(disk: Disk, temp: Path, final: Path, backup: Path, backedUp: bool,
                 ghost before: map<Path, Content>)
    returns (interrupted: bool, moved: bool)
    requires temp != final && temp != backup && final != backup
    requires Waiting(before, disk.at, temp, final, backup, backedUp)
    modifies disk`at, disk`log
    ensures Tries(disk.log, temp, backup) == Tries(old(disk.log), temp, backup)
    ensures interrupted || moved ==>
      disk.log == old(disk.log) + [Renaming(backup, final, if interrupted then Interrupted else Refused)]
    ensures !interrupted ==> Waiting(before, disk.at, temp, final, backup, moved)
    ensures Safe(before, disk.at, temp, final, backup)
  {
    interrupted, moved := false, backedUp;
    if backedUp {
      if final !in disk.at {
        var o := disk.Replace(backup, final);
        TriesStep(old(disk.log), Renaming(backup, final, o), temp, backup);
        match o
        case Done => moved := false;
        case Refused =>
        case Interrupted => interrupted := true;
      } else {
        moved := false;
      }
    }
  }

  /**
   * Swap never loses content. After `Promoted` the new content is at the final path; after a failure the
   * old content is at the final path or, untouched, in the backup; only an interrupt that lands on a
   * completed promotion can raise with the new content in place. It gives up only after `retries` further
   * attempts; old content stays in the backup only when its last restoration was refused; and what is left
   * of the temporary path, or of the backup of a promotion, was at least tried to be removed.
   */
  method AtomicSwapPath(disk: Disk, temp: Path, final: Path, backup: Path, retries: int) returns (r: Swap)
    requires temp != final && temp != backup && final != backup
    requires backup !in disk.at && disk.log == [] && disk.removals == {} && !disk.paused && disk.pauses == 0
    modifies disk
    ensures r == Promoted ==> disk.log != [] && disk.log[|disk.log| - 1] == Renaming(temp, final, Done)
    ensures r == Promoted ==> Tries(disk.log, temp, backup) <= retries + 1
    ensures r == Failed ==> Tries(disk.log, temp, backup) == if retries < 0 then 0 else retries + 1
    ensures r == Aborted ==> disk.paused || (disk.log != [] && disk.log[|disk.log| - 1].outcome == Interrupted)
    ensures r == Failed && !(Intact(old(disk.at), disk.at, final) && backup !in disk.at) ==>
      disk.log != [] && disk.log[|disk.log| - 1] == Renaming(backup, final, Refused)
    ensures r == Promoted ==> disk.pauses + 1 == Tries(disk.log, temp, backup)
    ensures r == Failed ==> disk.pauses == if retries < 0 then 0 else retries
    ensures temp in disk.at ==> temp in disk.removals
    ensures r == Promoted && backup in disk.at ==> backup in disk.removals
    ensures r != Promoted ==> disk.removals <= {temp}
    ensures Elsewhere(old(disk.at), disk.at, temp, final, backup)
    ensures r == Promoted ==>
      temp in old(disk.at) && temp !in disk.at && Holds(disk.at, final, old(disk.at)[temp])
    ensures r == Failed ==>
      || (Intact(old(disk.at), disk.at, final) && backup !in disk.at)
      || SetAside(old(disk.at), disk.at, final, backup)
    ensures r == Aborted ==> SafeButTemp(old(disk.at), disk.at, temp, final, backup)
  {
    ghost var before := disk.at;
    var promoted, backedUp, aborted := false, false, false;
    var attempt := 0;
    while attempt <= retries && !promoted && !aborted
      invariant !promoted && !aborted ==> Waiting(before, disk.at, temp, final, backup, backedUp)
      invariant promoted ==> !aborted && Settled(before, disk.at, temp, final, backup)
      invariant aborted ==> Safe(before, disk.at, temp, final, backup)
      invariant disk.removals == {} && 0 <= attempt && (attempt == 0 || attempt <= retries + 1)
      invariant !promoted && !aborted ==> Tries(disk.log, temp, backup) == attempt
      invariant !promoted && !aborted ==>
        disk.pauses == if attempt <= retries || attempt == 0 then attempt else attempt - 1
      invariant promoted ==> disk.pauses == attempt
      invariant promoted ==> attempt <= retries && Tries(disk.log, temp, backup) == attempt + 1
      invariant promoted ==> disk.log != [] && disk.log[|disk.log| - 1] == Renaming(temp, final, Done)
      invariant aborted ==> disk.paused || (disk.log != [] && disk.log[|disk.log| - 1].outcome == Interrupted)
      invariant !promoted && !aborted && backedUp ==>
        disk.log != [] && disk.log[|disk.log| - 1] == Renaming(backup, final, Refused)
      decreases retries - attempt, !promoted && !aborted
    {
      var o: Outcome;
      o, backedUp := Attempt(disk, temp, final, backup, backedUp, before);
      match o
      case Done => promoted := true;
      case Interrupted => aborted := true;
      case Refused =>
        aborted, backedUp := Restore(disk, temp, final, backup, backedUp, before);
        if !aborted && attempt < retries {
          aborted := disk.Pause();
        }
      attempt := attempt + 1;
    }
    if promoted && backup in disk.at {
      disk.Cleanup(backup);
    }
    if temp in disk.at {
      disk.Cleanup(temp);
    }
    r := if aborted then Aborted else if promoted then Promoted else Failed;
  }

  /** As `Safe`, once the temporary path has been cleaned up. */
  predicate SafeButTemp(before: map<Path, Content>, after: map<Path, Content>, temp: Path, final: Path, backup: Path) {
    || (Intact(before, after, final) && backup !in after)
    || SetAside(before, after, final, backup)
    || (&& temp in before && Holds(after, final, before[temp])
        && (backup in after ==> final in before && after[backup] == before[final]))
  }
}
