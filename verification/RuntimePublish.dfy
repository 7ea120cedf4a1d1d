/**
 * Publishing a staged runtime over the previous one (scripts/package_runtime.py, main: stage, backup,
 * publish, restore), under every schedule of refused, interrupted and half-done steps.
 */
module RuntimePublish {
  import opened Wrappers

  /** A directory tree; removing one may break off and leave it damaged. */
  datatype Tree = Whole(id: int) | Damaged

  /**
   * A step is done, refused without effect, or stopped by something other than an ordinary error
   * (a keyboard interrupt), before or after its effect.
   */
  datatype Step = Done | Refused | StoppedBefore | StoppedAfter

  /** How main ends: an exit code, or an exception that leaves it. */
  datatype Exit = Code(code: int) | Raised

  /** A step, by its line: into the backup, into place, back again, and the two removals. */
  datatype What = IntoBackup | IntoPlace | BackAgain | RemoveBackup | RemoveStage

  datatype Event = Event(what: What, step: Step)

  /** How an exception ends main: an ordinary error is reported, anything else leaves. */
  function Ending(step: Step): Exit {
    if step == Refused then Code(1) else Raised
  }

  /** The steps of a swap, its exit and whether it asks for the stage to stay, given a previous tree or none. */
  predicate SwapSteps(had: bool, steps: seq<Event>, exit: Exit, retain: bool) {
    if !had then PlaceSteps(had, steps, exit, retain)
    else
      && steps != [] && steps[0].what == IntoBackup
      && if steps[0].step == Done then PlaceSteps(had, steps[1..], exit, retain)
         else |steps| == 1 && exit == Ending(steps[0].step) && !retain
  }

  /** From the publish on: after it the backup is removed, or after its failure put back. */
  predicate PlaceSteps(had: bool, steps: seq<Event>, exit: Exit, retain: bool) {
    && steps != [] && steps[0].what == IntoPlace
    && if !had then |steps| == 1 && !retain && exit == if steps[0].step == Done then Code(0) else Ending(steps[0].step)
       else
         && |steps| == 2
         && if steps[0].step == Done then
              && steps[1].what == RemoveBackup
              && exit == (if steps[1].step == Done then Code(0) else Ending(steps[1].step))
              && retain == (steps[1].step == Refused)
            else
              && steps[1].what == BackAgain
              && exit == (if steps[1].step == Done then Ending(steps[0].step) else Code(1))
              && retain == (steps[1].step != Done)
  }

  /**
   * The three places of a publish. The stage directory holds both the staged tree and the backup
   * ("previous-binaries"), so removing the stage removes them with it.
   */
  class Workspace {
    var destination: Option<Tree>
    var staged: Option<Tree>
    var backup: Option<Tree>
    ghost var log: seq<Event>
    ghost var lateStop: bool // the rename into the backup took effect and was then stopped

    constructor (destination: Option<Tree>, staged: Tree)
      ensures this.destination == destination && this.staged == Some(staged)
      ensures this.backup == None && !lateStop && log == []
    {
      log := [];
      this.destination, this.staged, this.backup := destination, Some(staged), None;
      lateStop := false;
    }

    method BackUp() returns (o: Step)
      requires destination.Some? && backup == None
      modifies this
      ensures log == old(log) + [Event(IntoBackup, o)]
      ensures staged == old(staged)
      ensures if o == Done || o == StoppedAfter
              then destination == None && backup == old(destination)
              else destination == old(destination) && backup == None
      ensures lateStop == (old(lateStop) || o == StoppedAfter)
    {
      o := *;
      if o == Done || o == StoppedAfter {
        backup, destination := destination, None;
      }
      lateStop := lateStop || o == StoppedAfter;
      log := log + [Event(IntoBackup, o)];
    }

    /** A directory is never renamed over an existing one. */
    method Publish() returns (o: Step)
      requires staged.Some?
      modifies this
      ensures log == old(log) + [Event(IntoPlace, o)]
      ensures backup == old(backup) && lateStop == old(lateStop)
      ensures if o == Done || o == StoppedAfter
              then old(destination) == None && destination == old(staged) && staged == None
              else destination == old(destination) && staged == old(staged)
    {
      o := *;
      if destination != None && o != StoppedBefore {
        o := Refused;
      }
      if o == Done || o == StoppedAfter {
        destination, staged := staged, None;
      }
      log := log + [Event(IntoPlace, o)];
    }

    method Restore() returns (o: Step)
      requires backup.Some?
      modifies this
      ensures log == old(log) + [Event(BackAgain, o)]
      ensures staged == old(staged) && lateStop == old(lateStop)
      ensures if o == Done || o == StoppedAfter
              then old(destination) == None && destination == old(backup) && backup == None
              else destination == old(destination) && backup == old(backup)
    {
      o := *;
      if destination != None && o != StoppedBefore {
        o := Refused;
      }
      if o == Done || o == StoppedAfter {
        destination, backup := backup, None;
      }
      log := log + [Event(BackAgain, o)];
    }

    /** Removing the backup once the new tree is published. */
    method DropBackup() returns (o: Step)
      modifies this
      ensures log == old(log) + [Event(RemoveBackup, o)]
      ensures destination == old(destination) && staged == old(staged) && lateStop == old(lateStop)
      ensures o == Done ==> backup == None
    {
      o := *;
      var broken: bool := *;
      if o == Done {
        backup := None;
      } else if broken {
        backup := Some(Damaged);
      }
      log := log + [Event(RemoveBackup, o)];
    }

    /** Removing the stage removes whatever it still holds, possibly only in part. */
    method DropStage() returns (o: Step)
      modifies this
      ensures log == old(log) + [Event(RemoveStage, o)]
      ensures destination == old(destination) && lateStop == old(lateStop)
      ensures o == Done ==> staged == None && backup == None
      ensures o != Done && old(backup).Some? ==> backup == old(backup) || backup == Some(Damaged)
    {
      o := *;
      if o == Done {
        staged, backup := None, None;
      } else {
        var broken: bool := *;
        if broken {
          staged := if staged == None then None else Some(Damaged);
          backup := if backup == None then None else Some(Damaged);
        }
      }
      log := log + [Event(RemoveStage, o)];
    }
  }

  /** The try block from the backup on. `retain` keeps the stage; `Raised` is not an ordinary error. */
  method Swap(w: Workspace) returns (exit: Exit, retain: bool, ghost steps: seq<Event>)
    requires w.staged.Some? && w.backup == None
    modifies w
    ensures w.log == old(w.log) + steps && SwapSteps(old(w.destination).Some?, steps, exit, retain)
    ensures || (w.staged == None && w.destination == old(w.staged))
            || (w.staged == old(w.staged) && w.destination in {None, old(w.destination)})
    ensures exit == Code(0) ==> w.destination == old(w.staged) && w.backup == None && !retain
    ensures exit != Code(0) && !w.lateStop ==>
      || w.destination == old(w.staged)
      || w.destination == old(w.destination)
      || (retain && w.backup == old(w.destination))
    ensures w.lateStop != old(w.lateStop) ==>
      !retain && exit == Raised && w.destination == None && w.backup == old(w.destination) && old(w.destination).Some?
  {
    retain := false;
    steps := [];
    if w.destination.Some? {
      var o := w.BackUp();
      steps := [Event(IntoBackup, o)];
      if o != Done {
        return (if o == Refused then Code(1) else Raised), retain, steps;
      }
    }
    ghost var before := steps;
    var o := w.Publish();
    steps := before + [Event(IntoPlace, o)];
    if o != Done {
      if w.backup.Some? {
        var restored := w.Restore();
        steps := before + [Event(IntoPlace, o), Event(BackAgain, restored)];
        if restored != Done {
          retain := true;
          return Code(1), retain, steps;
        }
      }
      return (if o == Refused then Code(1) else Raised), retain, steps;
    }
    if w.backup.Some? {
      var dropped := w.DropBackup();
      steps := before + [Event(IntoPlace, o), Event(RemoveBackup, dropped)];
      match dropped
      case Done =>
      case Refused =>
        retain := true;
        return Code(1), retain, steps;
      case _ => return Raised, retain, steps;
    }
    return Code(0), retain, steps;
  }

  /**
   * main, from assembly on. `separate` is the mode with its own output root, which must not exist yet.
   *
   * The previous tree is gone only when the new one is in place, with one exact exception: a stop that
   * lands between the rename into the backup and the publish. Then nothing is restored, and the stage is
   * removed with the backup in it; only if that fails, the backup stays there, whole or damaged.
   */
  method PublishRuntime(w: Workspace, separate: bool, assembled: bool)
    returns (exit: Exit, ghost steps: seq<Event>, ghost swapped: Exit, ghost retain: bool, ghost dropped: Option<Step>)
    requires w.staged.Some? && w.backup == None && !w.lateStop && w.log == []
    modifies w
    ensures w.log == steps + if dropped.Some? then [Event(RemoveStage, dropped.value)] else []
    ensures assembled && !(separate && old(w.destination).Some?) ==>
      SwapSteps(old(w.destination).Some?, steps, swapped, retain)
    ensures !assembled || (separate && old(w.destination).Some?) ==> steps == [] && swapped == Code(1) && !retain
    ensures dropped.None? <==> retain || (separate && w.destination == old(w.staged) && w.staged == None && steps != [])
    ensures exit == if dropped.Some? && dropped.value != Done then Raised else swapped
    ensures exit == Code(0) ==>
      assembled && w.destination == old(w.staged) && w.backup == None && w.staged == None
    ensures old(w.destination).Some? && !w.lateStop ==>
      || w.destination == old(w.destination)
      || w.destination == old(w.staged)
      || w.backup == old(w.destination)
    ensures w.lateStop ==> w.destination == None && old(w.destination).Some? && exit == Raised
    ensures w.lateStop && dropped == Some(Done) ==> w.backup == None
    ensures w.lateStop && dropped != Some(Done) ==> w.backup == old(w.destination) || w.backup == Some(Damaged)
    ensures !assembled || (separate && old(w.destination).Some?) ==>
      w.destination == old(w.destination) && exit != Code(0)
  {
    var keep := false;
    steps := [];
    if !assembled || (separate && w.destination.Some?) {
      exit := Code(1);
    } else {
      exit, keep, steps := Swap(w);
    }
    swapped, retain, dropped := exit, keep, None;
    if !keep && !(separate && w.staged == None) { // a separate output takes the stage itself
      var o := w.DropStage();
      dropped := Some(o);
      if o != Done {
        exit := Raised;
      }
    }
  }
}
