/**
 * Installing or replacing the Android helper (rdc_tool/remote_bootstrap.py, _install_android_helper,
 * _wait_for_android_install and their callers). Every device reply is arbitrary; the trace records what
 * was observed and what was commanded.
 */
module AndroidInstall {
  import opened Wrappers

  datatype Fault =
    | Timeout | Cancelled | Unconfirmed | ApkUnreadable | ProbeFailed | IdentityUnknown
    | UninstallFailed | InstallNotStarted | InstallFailed | ConfigFailed | LaunchFailed
    | SocketMissing | SocketAmbiguous | ForwardFailed | ForwardOwnershipChanged | ForwardCleanupUnconfirmed
    | RemoveFailed | HelperOwnershipChanged | StopFailed | LocalConfigLeft

  /** What PackageManager says about sessions that could block this package. */
  datatype SessionState = Clear | Pending | Unknown

  /** What the output of an install command amounts to. */
  datatype Verdict = Clean | Unclear | Conflict | NewerInstalled | OtherFailure

  datatype Event =
    | Observed(state: SessionState)
    | Compared(matched: bool)
    | Snapshot
    | ApkRead
    | InstallIssued(update: bool, downgrade: bool)
    | Receipt(verdict: Verdict)
    | UninstallIssued

  /** The classified reply to one install command. */
  datatype Reply =
    | TimedOut
    | Finished(succeeded: bool, failed: bool, exitZero: bool, incompatible: bool, downgradeBlocked: bool)

  datatype Mode = NoInstall | Existing | Install | Update | ForceReplace

  /**
   * Success without exit code 0, with a failure beside it, or neither of the two, is unclear; an
   * incompatible update outranks a blocked downgrade.
   */
  function VerdictOf(succeeded: bool, failed: bool, exitZero: bool, incompatible: bool, downgradeBlocked: bool)
    : Verdict
  {
    if succeeded == failed || (succeeded && !exitZero) then Unclear
    else if succeeded then Clean
    else if incompatible then Conflict
    else if downgradeBlocked then NewerInstalled
    else OtherFailure
  }

  /** A clean receipt is a plain success, a rejection a plain failure; everything else is unclear. */
  lemma VerdictMeans(succeeded: bool, failed: bool, exitZero: bool, incompatible: bool, downgradeBlocked: bool)
    ensures var verdict := VerdictOf(succeeded, failed, exitZero, incompatible, downgradeBlocked);
            && (verdict == Clean <==> succeeded && exitZero && !failed)
            && (verdict in {Conflict, NewerInstalled, OtherFailure} <==> failed && !succeeded)
            && (verdict == Conflict ==> incompatible)
            && (verdict == NewerInstalled ==> downgradeBlocked && !incompatible)
            && (verdict == OtherFailure ==> !incompatible && !downgradeBlocked)
  {
  }

  function Receipts(reply: Reply): seq<Event> {
    match reply
    case TimedOut => []
    case Finished(succeeded, failed, exitZero, incompatible, blocked) =>
      [Receipt(VerdictOf(succeeded, failed, exitZero, incompatible, blocked))]
  }

  // ----- What the trace says

  predicate IsCommand(e: Event) {
    e.InstallIssued? || e.Receipt? || e.UninstallIssued?
  }

  /** The commands and receipts of a trace, without the observations. */
  function Commands(t: seq<Event>): seq<Event> {
    if t == [] then []
    else Commands(t[..|t| - 1]) + if IsCommand(t[|t| - 1]) then [t[|t| - 1]] else []
  }

  /** This observation has been made since the last command. */
  predicate Since(t: seq<Event>, e: Event) {
    && t != []
    && (t[|t| - 1] == e || (!IsCommand(t[|t| - 1]) && Since(t[..|t| - 1], e)))
  }

  /**
   * Each install command directly follows an observation of no blocking session, and its APK has been read
   * since the last command, as has the identity for an update; each uninstall follows such an observation
   * with only the identity snapshot in between.
   */
  predicate Guarded(t: seq<Event>) {
    forall i :: 0 <= i < |t| ==> GuardedAt(t, i)
  }

  predicate GuardedAt(t: seq<Event>, i: nat)
    requires i < |t|
  {
    && (t[i].InstallIssued? ==> 0 < i && t[i - 1] == Observed(Clear) && Ready(t[..i], t[i].update))
    && (t[i].UninstallIssued? ==> 1 < i && t[i - 1] == Snapshot && t[i - 2] == Observed(Clear))
  }

  predicate Ready(t: seq<Event>, update: bool) {
    Since(t, ApkRead) && (update ==> Since(t, Snapshot))
  }

  lemma GuardedExtends(before: seq<Event>, after: seq<Event>)
    requires Guarded(before) && before <= after
    requires forall i :: |before| <= i < |after| ==> GuardedAt(after, i)
    ensures Guarded(after)
  {
    forall i | 0 <= i < |after| ensures GuardedAt(after, i) {
      if i < |before| {
        assert GuardedAt(before, i);
        assert after[..|before|] == before && after[..i] == before[..i];
      }
    }
  }

  /** The trace ends with a clean receipt, or with a matching device identity and no blocking session. */
  predicate ProvesInstalled(t: seq<Event>) {
    || (0 < |t| && t[|t| - 1] == Receipt(Clean))
    || (1 < |t| && t[|t| - 1] == Compared(true) && t[|t| - 2] == Observed(Clear))
  }

  predicate EndsClear(t: seq<Event>) {
    0 < |t| && t[|t| - 1] == Observed(Clear)
  }

  /** `after` adds observations to `before`, and commands nothing. */
  predicate Watched(before: seq<Event>, after: seq<Event>) {
    && before <= after
    && forall i :: |before| <= i < |after| ==> !IsCommand(after[i])
  }

  lemma {:induction false} WatchingIsHarmless(before: seq<Event>, after: seq<Event>)
    requires Watched(before, after)
    ensures Commands(after) == Commands(before)
    ensures Guarded(before) ==> Guarded(after)
    ensures forall e :: Since(before, e) ==> Since(after, e)
    decreases |after|
  {
    if |before| < |after| {
      var last := |after| - 1;
      WatchingIsHarmless(before, after[..last]);
    } else {
      assert after == before;
    }
    if Guarded(before) {
      GuardedExtends(before, after);
    }
  }

  // ----- Which commands one call may issue, and in which order

  /** How many install commands one call may still lead to. */
  function Attempts(update: bool, downgrade: bool): nat {
    if !update then 1 else if downgrade then 2 else 3
  }

  /**
   * The command sequences of one call, which may stop after any command; `done` says whether it ends
   * with the helper installed.
   */
  predicate Strategy(update: bool, downgrade: bool, steps: seq<Event>, done: bool)
    decreases Attempts(update, downgrade), 1
  {
    if steps == [] then !done
    else steps[0] == InstallIssued(update, downgrade) && AfterInstall(update, downgrade, steps[1..], done)
  }

  /** Without a receipt, or with an unclear one, the device decides. */
  predicate AfterInstall(update: bool, downgrade: bool, steps: seq<Event>, done: bool)
    decreases Attempts(update, downgrade), 0
  {
    steps != [] ==>
      && steps[0].Receipt?
      && match steps[0].verdict
         case Clean => |steps| == 1 && done
         case Unclear => |steps| == 1
         case Conflict => if update then AfterConflict(steps[1..], done) else |steps| == 1 && !done
         case NewerInstalled =>
           if update && !downgrade then Strategy(true, true, steps[1..], done) else |steps| == 1 && !done
         case OtherFailure => |steps| == 1 && !done
  }

  predicate AfterConflict(steps: seq<Event>, done: bool)
    decreases Attempts(false, false), 2
  {
    if steps == [] then !done
    else steps[0] == UninstallIssued && Strategy(false, false, steps[1..], done)
  }

  function Installs(steps: seq<Event>): nat {
    if steps == [] then 0 else (if steps[0].InstallIssued? then 1 else 0) + Installs(steps[1..])
  }

  function Uninstalls(steps: seq<Event>): nat {
    if steps == [] then 0 else (if steps[0].UninstallIssued? then 1 else 0) + Uninstalls(steps[1..])
  }

  /**
   * A first install needs no reason. A second one retries a refused downgrade with permission, or
   * installs afresh after an uninstall; an uninstall answers an update that conflicted.
   */
  predicate JustifiedAt(steps: seq<Event>, i: nat)
    requires i < |steps|
  {
    match steps[i]
    case InstallIssued(update, downgrade) =>
      || i == 0
      || (update && downgrade && steps[i - 1] == Receipt(NewerInstalled))
      || (!update && !downgrade && steps[i - 1] == UninstallIssued)
    case Receipt(_) => 0 < i && steps[i - 1].InstallIssued?
    case UninstallIssued =>
      1 < i && steps[i - 1] == Receipt(Conflict) && steps[i - 2].InstallIssued? && steps[i - 2].update
    case _ => false
  }

  predicate Justified(steps: seq<Event>) {
    forall i :: 0 <= i < |steps| ==> JustifiedAt(steps, i)
  }

  /** A success ends with a clean receipt, or leaves the last word to the device. */
  predicate EndsInstalled(steps: seq<Event>) {
    && steps != []
    && var last := steps[|steps| - 1];
       last.InstallIssued? || last == Receipt(Clean) || last == Receipt(Unclear)
  }

  lemma CountsFrom(steps: seq<Event>, rest: seq<Event>)
    requires steps != [] && steps[1..] == rest
    ensures Installs(steps) == Installs(rest) + if steps[0].InstallIssued? then 1 else 0
    ensures Uninstalls(steps) == Uninstalls(rest) + if steps[0].UninstallIssued? then 1 else 0
  {
  }

  /** Every strategy is bounded and justified, command by command. */
  lemma {:induction false} StrategyIsJustified(update: bool, downgrade: bool, steps: seq<Event>, done: bool)
    requires Strategy(update, downgrade, steps, done)
    ensures Justified(steps)
    ensures Installs(steps) <= Attempts(update, downgrade)
    ensures Uninstalls(steps) <= if update then 1 else 0
    ensures done ==> EndsInstalled(steps)
    decreases Attempts(update, downgrade)
  {
    if steps != [] && steps[1..] != [] {
      var receipt, rest := steps[1], steps[2..];
      assert AfterInstall(update, downgrade, steps[1..], done);
      assert steps[1..][0] == receipt && steps[1..][1..] == rest;
      CountsFrom(steps[1..], rest);
      if receipt.verdict == Conflict && update {
        assert AfterConflict(rest, done);
        if rest != [] {
          assert rest[0] == steps[2] && rest[1..] == steps[3..];
          CountsFrom(rest, steps[3..]);
          StrategyIsJustified(false, false, steps[3..], done);
          JustifiedAfter(steps, 3);
        }
      } else if receipt.verdict == NewerInstalled && update && !downgrade {
        StrategyIsJustified(true, true, rest, done);
        JustifiedAfter(steps, 2);
      }
    }
  }

  /** A rejected install, and what a strategy allows after it. */
  lemma StrategyGoesOn(update: bool, downgrade: bool, first: seq<Event>, rest: seq<Event>, done: bool)
    requires |first| == 2 && first[0] == InstallIssued(update, downgrade) && first[1].Receipt? && update
    requires
      || (first[1].verdict == Conflict && AfterConflict(rest, done))
      || (first[1].verdict == NewerInstalled && !downgrade && Strategy(true, true, rest, done))
    ensures Strategy(update, downgrade, first + rest, done)
  {
    var steps := first + rest;
    assert steps[1..][0] == first[1] && steps[1..][1..] == rest;
  }

  /** A justified continuation stays so when its own first command is justified by what precedes it. */
  lemma JustifiedAfter(steps: seq<Event>, from: nat)
    requires from <= |steps| && Justified(steps[from..])
    requires forall i :: 0 <= i <= from && i < |steps| ==> JustifiedAt(steps, i)
    ensures Justified(steps)
  {
    forall i | from < i < |steps| ensures JustifiedAt(steps, i) {
      var rest := steps[from..];
      assert JustifiedAt(rest, i - from);
      assert rest[i - from] == steps[i] && rest[i - from - 1] == steps[i - 1];
      assert 1 < i - from ==> rest[i - from - 2] == steps[i - 2];
    }
  }

  class Session {
    var ticks: nat                // how often the budget can be asked before the deadline
    var installed: bool
    var uninstalled: bool
    var matched: bool             // apk_identity_status == "matched"
    var mode: Mode
    ghost var trace: seq<Event>
    ghost var faults: seq<Fault>  // what the device, the clock or the files answered with

    constructor (patience: nat)
      ensures ticks == patience && !installed && !uninstalled && !matched && mode == NoInstall
      ensures trace == [] && faults == []
    {
      ticks, installed, uninstalled, matched, mode := patience, false, false, false, NoInstall;
      trace, faults := [], [];
    }

    /** An answer from outside, which is the only thing that adds a fault. */
    method Suffer(f: Option<Fault>)
      modifies this`faults
      ensures faults == if f.Some? then old(faults) + [f.value] else old(faults)
    {
      faults := if f.Some? then faults + [f.value] else faults;
    }

    /** ConnectionBudget.remaining: may be cancelled at any call, and expires eventually. */
    method Remaining() returns (f: Option<Fault>)
      modifies this`ticks, this`faults
      ensures faults == if f.Some? then old(faults) + [f.value] else old(faults)
      ensures f in {None, Some(Cancelled), Some(Timeout)}
      ensures f == None ==> ticks < old(ticks)
      ensures ticks <= old(ticks)
    {
      var cancelled: bool := *;
      f := if cancelled then Some(Cancelled) else if ticks == 0 then Some(Timeout) else None;
      if f == None {
        ticks := ticks - 1;
      }
      Suffer(f);
    }

    /** _inspect_android_install_state: unreadable output counts as unknown, never as clear. */
    method Inspect() returns (r: Result<SessionState, Fault>)
      modifies this`trace, this`faults
      ensures r.Success? ==> trace == old(trace) + [Observed(r.value)] && faults == old(faults)
      ensures r.Failure? ==> trace == old(trace) && r.error in {Timeout, Cancelled} && faults == old(faults) + [r.error]
    {
      var state: SessionState := *;
      var stopped: bool := *;
      if stopped {
        Suffer(Some(Cancelled));
        return Failure(Cancelled);
      }
      trace := trace + [Observed(state)];
      return Success(state);
    }

    /** _observe_installed_apk: forgets the previous status first. */
    method ObserveInstalledApk() returns (f: Option<Fault>)
      modifies this`matched, this`trace, this`faults
      ensures f == None ==> trace == old(trace) + [Compared(matched)] && faults == old(faults)
      ensures f.Some? ==> trace == old(trace) && !matched && f.value in {Timeout, Cancelled}
      ensures f.Some? ==> faults == old(faults) + [f.value]
    {
      matched := false;
      var stopped: bool := *;
      if stopped {
        Suffer(Some(Cancelled));
        return Some(Cancelled);
      }
      matched := *;
      trace := trace + [Compared(matched)];
      return None;
    }

    /** _wait_for_android_install: polls within the budget and commands nothing. */
    method WaitForInstall(requireTarget: bool) returns (f: Option<Fault>)
      modifies this`ticks, this`matched, this`trace, this`faults
      ensures if f == None then faults == old(faults) else old(faults) < faults
      ensures f == None ==> ticks < old(ticks)
      ensures ticks <= old(ticks)
      ensures Watched(old(trace), trace)
      ensures f == None ==> if requireTarget then ProvesInstalled(trace) else EndsClear(trace)
      ensures f.Some? ==> f.value in {Timeout, Cancelled, Unconfirmed}
      ensures f.Some? && requireTarget ==> f.value == Unconfirmed
      ensures f.Some? && !requireTarget ==>
        f.value == if trace == old(trace) then faults[|faults| - 1] else Unconfirmed
      ensures forall i :: |old(trace)| <= i < |trace| - 1 ==>
        trace[i] != if requireTarget then Compared(true) else Observed(Clear)
    {
      var observed := false;
      while true
        invariant ticks <= old(ticks)
        invariant Watched(old(trace), trace) && faults == old(faults)
        invariant observed <==> trace != old(trace)
        invariant forall i :: |old(trace)| <= i < |trace| ==>
          trace[i] != if requireTarget then Compared(true) else Observed(Clear)
        decreases ticks
      {
        f := Remaining();
        if f.Some? {
          return WaitFault(f.value, requireTarget, observed);
        }
        var state := Inspect();
        if state.Failure? {
          return WaitFault(state.error, requireTarget, observed);
        }
        observed := true;
        if state.value == Clear {
          if !requireTarget {
            return None;
          }
          f := ObserveInstalledApk();
          if f.Some? {
            return WaitFault(f.value, requireTarget, observed);
          }
          if matched {
            return None;
          }
        }
        f := Remaining();
        if f.Some? {
          return WaitFault(f.value, requireTarget, observed);
        }
      }
    }

    function WaitFault(f: Fault, requireTarget: bool, observed: bool): Option<Fault> {
      if !requireTarget && !observed then Some(f) else Some(Unconfirmed)
    }

    /** A read-only snapshot that must identify the selected package. */
    method AssertHelperIdentity() returns (f: Option<Fault>)
      modifies this`trace, this`faults
      ensures f == None ==> trace == old(trace) + [Snapshot] && faults == old(faults)
      ensures f.Some? ==> trace == old(trace) && faults == old(faults) + [f.value]
    {
      var failed: bool := *;
      if failed {
        Suffer(Some(IdentityUnknown));
        return Some(IdentityUnknown);
      }
      trace := trace + [Snapshot];
      return None;
    }

    /** The command runs to its end whatever the budget says; only its reply is recorded. */
    method RunInstall(update: bool, downgrade: bool) returns (reply: Reply)
      modifies this`trace
      ensures trace == old(trace) + [InstallIssued(update, downgrade)] + Receipts(reply)
    {
      reply := *;
      trace := trace + [InstallIssued(update, downgrade)] + Receipts(reply);
    }

    method RunUninstall() returns (confirmed: bool)
      modifies this`trace, this`faults
      ensures trace == old(trace) + [UninstallIssued]
      ensures faults == if confirmed then old(faults) else old(faults) + [UninstallFailed]
    {
      confirmed := *;
      Suffer(if confirmed then None else Some(UninstallFailed));
      trace := trace + [UninstallIssued];
    }

    method ReadHelperApk() returns (f: Option<Fault>)
      modifies this`trace, this`faults
      ensures f == None ==> trace == old(trace) + [ApkRead] && faults == old(faults)
      ensures f.Some? ==> trace == old(trace) && faults == old(faults) + [f.value]
    {
      var unreadable: bool := *;
      f := if unreadable then Some(ApkUnreadable) else None;
      trace := if unreadable then trace else trace + [ApkRead];
      Suffer(f);
    }

    /** Whether the install command can be started at all. */
    method StartInstall() returns (f: Option<Fault>)
      modifies this`faults
      ensures faults == if f.Some? then old(faults) + [f.value] else old(faults)
    {
      var startable: bool := *;
      f := if startable then None else Some(InstallNotStarted);
      Suffer(f);
    }

    /** What PackageManager lists, and the versions when the helper is there. */
    method ProbePackage() returns (probe: PackageProbe)
      modifies this`faults
      ensures faults == if probe.Unreadable? then old(faults) + [ProbeFailed] else old(faults)
    {
      probe := *;
      Suffer(if probe.Unreadable? then Some(ProbeFailed) else None);
    }

    /** Up to the install command: the APK is read and no session blocks. */
    method ReadyToInstall() returns (f: Option<Fault>)
      modifies this`ticks, this`matched, this`trace, this`faults
      ensures if f == None then faults == old(faults) else old(faults) < faults
      ensures f == None ==> ticks + 1 < old(ticks)
      ensures ticks <= old(ticks) && Watched(old(trace), trace)
      ensures Commands(trace) == Commands(old(trace))
      ensures Guarded(old(trace)) ==> Guarded(trace)
      ensures f == None ==> EndsClear(trace) && Since(trace, ApkRead)
    {
      f := ReadHelperApk();
      if f.Some? {
        return;
      }
      ghost var read := trace;
      f := WaitForInstall(false);
      WatchingIsHarmless(old(trace), trace);
      WatchingIsHarmless(read, trace);
      if f.Some? {
        return;
      }
      f := Remaining();
      if f.Some? {
        return;
      }
      f := StartInstall();
    }

    /** From the APK check to a settled reply: a timeout or a contradictory reply waits for the device. */
    method Command(update: bool, downgrade: bool) returns (r: Result<Settled, Fault>, ghost steps: seq<Event>)
      requires update ==> Since(trace, Snapshot)
      modifies this`ticks, this`matched, this`trace, this`faults
      ensures if r.Success? then faults == old(faults) else old(faults) < faults
      ensures r.Success? ==> ticks + 1 < old(ticks)
      ensures ticks <= old(ticks)
      ensures old(trace) <= trace && Commands(trace) == Commands(old(trace)) + steps
      ensures Answered(update, downgrade, steps, r)
      ensures Guarded(old(trace)) ==> Guarded(trace)
      ensures r == Success(Settled.Done) ==> ProvesInstalled(trace)
    {
      steps := [];
      var f := ReadyToInstall();
      if f.Some? {
        return Failure(f.value), steps;
      }
      WatchingIsHarmless(old(trace), trace);
      ghost var clear := trace;
      var reply := RunInstall(update, downgrade);
      ghost var replied := trace;
      CommandIsGuarded(clear, update, downgrade, reply);
      steps := [InstallIssued(update, downgrade)] + Receipts(reply);
      assert old(trace) <= replied;
      r := Settle(reply);
      WatchingIsHarmless(replied, trace);
    }

    /** A timeout or a contradictory reply leaves the word to the device; a plain reply is taken as it is. */
    method Settle(reply: Reply) returns (r: Result<Settled, Fault>)
      requires reply.Finished? ==> trace != [] && Receipts(reply) == [trace[|trace| - 1]]
      modifies this`ticks, this`matched, this`trace, this`faults
      ensures if r.Success? then faults == old(faults) else old(faults) < faults
      ensures ticks <= old(ticks) && Watched(old(trace), trace)
      ensures Settles(Receipts(reply), r)
      ensures r == Success(Settled.Done) ==> ProvesInstalled(trace)
    {
      match reply
      case TimedOut =>
        r := AskDevice();
      case Finished(succeeded, failed, exitZero, incompatible, blocked) =>
        if (!succeeded && !failed) || (succeeded && (failed || !exitZero)) {
          r := AskDevice();
        } else if failed {
          r := Success(Rejected(VerdictOf(succeeded, failed, exitZero, incompatible, blocked)));
        } else {
          r := Success(Settled.Done);
        }
    }

    method AskDevice() returns (r: Result<Settled, Fault>)
      modifies this`ticks, this`matched, this`trace, this`faults
      ensures if r.Success? then faults == old(faults) else old(faults) < faults
      ensures ticks <= old(ticks) && Watched(old(trace), trace)
      ensures r.Success? ==> r.value == Settled.Done && ProvesInstalled(trace)
    {
      var f := WaitForInstall(true);
      r := if f.Some? then Failure(f.value) else Success(Settled.Done);
    }

    /** Up to the uninstall command: no session blocks and the identity is known. */
    method ReadyToRemove() returns (f: Option<Fault>)
      modifies this`ticks, this`matched, this`trace, this`faults
      ensures if f == None then faults == old(faults) else old(faults) < faults
      ensures f == None ==> ticks + 1 < old(ticks)
      ensures ticks <= old(ticks) && Watched(old(trace), trace)
      ensures Commands(trace) == Commands(old(trace))
      ensures Guarded(old(trace)) ==> Guarded(trace)
      ensures f == None ==> 1 < |trace| && trace[|trace| - 1] == Snapshot && trace[|trace| - 2] == Observed(Clear)
    {
      f := WaitForInstall(false);
      WatchingIsHarmless(old(trace), trace);
      if f.Some? {
        return;
      }
      f := AssertHelperIdentity();
      WatchingIsHarmless(old(trace), trace);
      if f.Some? {
        return;
      }
      f := Remaining();
    }

    /** The conflicting helper is removed only once no session blocks and its identity is known. */
    method RemoveConflicting() returns (f: Option<Fault>, ghost steps: seq<Event>)
      modifies this`ticks, this`matched, this`trace, this`faults, this`uninstalled
      ensures if f == None then faults == old(faults) else old(faults) < faults
      ensures f == None ==> ticks + 2 < old(ticks)
      ensures ticks <= old(ticks)
      ensures old(trace) <= trace && Commands(trace) == Commands(old(trace)) + steps
      ensures steps == [] || steps == [UninstallIssued]
      ensures Guarded(old(trace)) ==> Guarded(trace)
      ensures f == None ==> uninstalled && steps == [UninstallIssued]
      ensures uninstalled != old(uninstalled) ==> uninstalled && steps == [UninstallIssued]
    {
      steps := [];
      f := ReadyToRemove();
      if f.Some? {
        return;
      }
      ghost var known := trace;
      var confirmed := RunUninstall();
      RemovalIsGuarded(known);
      assert trace == known + [UninstallIssued];
      steps := [UninstallIssued];
      if !confirmed {
        return Some(UninstallFailed), steps;
      }
      uninstalled := true;
      f := Remaining();
    }

    /**
     * _install_android_helper. The recursion over (update, downgrade) is strict; the commands follow the
     * strategy, and success is claimed only on proof.
     */
    method InstallHelper(update: bool, downgrade: bool) returns (f: Option<Fault>, ghost steps: seq<Event>)
      requires !installed && (update ==> Since(trace, Snapshot))
      modifies this
      ensures f == None ==> faults == old(faults)
      ensures f.Some? ==> old(faults) < faults || (faults == old(faults) && Refuses(steps))
      ensures f == None ==> ticks + 2 < old(ticks)
      ensures ticks <= old(ticks)
      ensures old(trace) <= trace && Commands(trace) == Commands(old(trace)) + steps
      ensures Strategy(update, downgrade, steps, installed)
      ensures Guarded(old(trace)) ==> Guarded(trace)
      ensures f == None ==> installed
      ensures installed ==> ProvesInstalled(trace)
      ensures uninstalled != old(uninstalled) ==> uninstalled && UninstallIssued in steps
      ensures f == None && !old(uninstalled) ==>
        mode == if uninstalled then ForceReplace else if update then Update else Install
      decreases Attempts(update, downgrade), 0
    {
      var settled: Result<Settled, Fault>;
      settled, steps := Command(update, downgrade);
      if settled.Failure? {
        return Some(settled.error), steps;
      }
      if settled.value.Rejected? {
        if settled.value.verdict == Conflict && update {
          ghost var more: seq<Event>;
          f, more := ReplaceHelper();
          StrategyGoesOn(update, downgrade, steps, more, installed);
          Associates(Commands(old(trace)), steps, more);
          steps := steps + more;
          return;
        }
        if settled.value.verdict == NewerInstalled && update && !downgrade {
          ghost var again: seq<Event>;
          f, again := RetryDowngrade();
          StrategyGoesOn(update, downgrade, steps, again, installed);
          Associates(Commands(old(trace)), steps, again);
          steps := steps + again;
          return;
        }
        return Some(InstallFailed), steps;
      }
      installed := true;
      mode := if update then Update else Install;
      f := Remaining();
    }

    /** Its branch for a refused downgrade: assert the identity, then update with permission. */
    method RetryDowngrade() returns (f: Option<Fault>, ghost steps: seq<Event>)
      requires !installed
      modifies this
      ensures f == None ==> faults == old(faults)
      ensures f.Some? ==> old(faults) < faults || (faults == old(faults) && Refuses(steps))
      ensures f == None ==> ticks + 2 < old(ticks)
      ensures ticks <= old(ticks)
      ensures old(trace) <= trace && Commands(trace) == Commands(old(trace)) + steps
      ensures Strategy(true, true, steps, installed)
      ensures Guarded(old(trace)) ==> Guarded(trace)
      ensures f == None ==> installed
      ensures installed ==> ProvesInstalled(trace)
      ensures uninstalled != old(uninstalled) ==> uninstalled && UninstallIssued in steps
      ensures f == None && !old(uninstalled) ==> mode == if uninstalled then ForceReplace else Update
      decreases Attempts(true, true), 1
    {
      f := AssertHelperIdentity();
      if f.Some? {
        return f, [];
      }
      WatchingIsHarmless(old(trace), trace);
      f, steps := InstallHelper(true, true);
    }

    /** Its branch for a conflicting update: uninstall, then install afresh. */
    method ReplaceHelper() returns (f: Option<Fault>, ghost steps: seq<Event>)
      requires !installed
      modifies this
      ensures f == None ==> faults == old(faults)
      ensures f.Some? ==> old(faults) < faults || (faults == old(faults) && Refuses(steps))
      ensures f == None ==> ticks + 2 < old(ticks)
      ensures ticks <= old(ticks)
      ensures old(trace) <= trace && Commands(trace) == Commands(old(trace)) + steps
      ensures AfterConflict(steps, installed)
      ensures Guarded(old(trace)) ==> Guarded(trace)
      ensures f == None ==> installed && uninstalled && mode == ForceReplace
      ensures installed ==> ProvesInstalled(trace)
      ensures uninstalled != old(uninstalled) ==> uninstalled && UninstallIssued in steps
      decreases Attempts(false, false), 1
    {
      f, steps := RemoveConflicting();
      if f.Some? {
        return;
      }
      ghost var again: seq<Event>;
      f, again := InstallHelper(false, false);
      Associates(Commands(old(trace)), steps, again);
      steps := steps + again;
      assert steps[1..] == again;
      if f == None {
        mode := ForceReplace;
      }
    }

    /** _ensure_android_helper_installed: an installed helper is kept unless a different version is asked for. */
    method EnsureInstalled(versionExpected: bool)
      returns (f: Option<Fault>, ghost steps: seq<Event>, ghost found: PackageProbe)
      requires !installed && !uninstalled
      modifies this
      ensures f == None ==> faults == old(faults) && Decided(found, versionExpected, installed)
      ensures f.Some? ==> old(faults) < faults || (faults == old(faults) && Refuses(steps))
      ensures Begins(found, versionExpected, steps)
      ensures !Wants(found, versionExpected) ==> !installed && steps == []
      ensures found.Present? && !versionExpected ==> f == None && trace == old(trace)
      ensures found.Unreadable? ==> f == Some(ProbeFailed) && trace == old(trace)
      ensures ticks <= old(ticks)
      ensures old(trace) <= trace && Commands(trace) == Commands(old(trace)) + steps
      ensures Orderly(steps) && (installed ==> EndsInstalled(steps) && ProvesInstalled(trace))
      ensures Guarded(old(trace)) ==> Guarded(trace)
      ensures uninstalled ==> UninstallIssued in steps
      ensures f == None && !installed ==> mode == Existing && steps == []
      ensures f == None && !installed && versionExpected ==> trace == old(trace) + [Snapshot]
    {
      var probe := ProbePackage();
      found := probe;
      match probe
      case Unreadable => return Some(ProbeFailed), [], found;
      case Absent =>
        f, steps := InstallHelper(false, false);
        StrategyIsJustified(false, false, steps, installed);
      case Present(installedCode, targetCode) =>
        mode := Existing;
        if !versionExpected {
          return None, [], found;
        }
        f := AssertHelperIdentity(); // the snapshot, which may fail
        WatchingIsHarmless(old(trace), trace);
        if f.Some? || installedCode == None || installedCode.value == targetCode {
          return f, [], found;
        }
        f, steps := UpdateHelper(installedCode.value > targetCode);
    }

    /** Its last branch: the identity is asserted once more before the update. */
    method UpdateHelper(downgrade: bool) returns (f: Option<Fault>, ghost steps: seq<Event>)
      requires !installed && !uninstalled
      modifies this
      ensures f == None ==> faults == old(faults)
      ensures f.Some? ==> old(faults) < faults || (faults == old(faults) && Refuses(steps))
      ensures steps != [] ==> steps[0] == InstallIssued(true, downgrade)
      ensures ticks <= old(ticks)
      ensures old(trace) <= trace && Commands(trace) == Commands(old(trace)) + steps
      ensures Orderly(steps) && (installed ==> EndsInstalled(steps) && ProvesInstalled(trace))
      ensures Guarded(old(trace)) ==> Guarded(trace)
      ensures uninstalled ==> UninstallIssued in steps
      ensures f == None ==> installed && mode == if uninstalled then ForceReplace else Update
    {
      f := AssertHelperIdentity();
      WatchingIsHarmless(old(trace), trace);
      if f.Some? {
        return f, [];
      }
      f, steps := InstallHelper(true, downgrade);
      StrategyIsJustified(true, downgrade, steps, installed);
    }
  }

  datatype Settled = Done | Rejected(verdict: Verdict)

  /** The steps of one command and what its caller makes of them. */
  predicate Answered(update: bool, downgrade: bool, steps: seq<Event>, r: Result<Settled, Fault>) {
    if steps == [] then r.Failure?
    else steps[0] == InstallIssued(update, downgrade) && Settles(steps[1..], r)
  }

  predicate Settles(receipts: seq<Event>, r: Result<Settled, Fault>) {
    if receipts == [] then r.Failure? || r.value == Settled.Done
    else
      && |receipts| == 1 && receipts[0].Receipt?
      && match receipts[0].verdict
         case Clean => r == Success(Settled.Done)
         case Unclear => r.Failure? || r.value == Settled.Done
         case _ => r == Success(Rejected(receipts[0].verdict))
  }

  /** At most three installs and one uninstall, each with its reason. */
  predicate Orderly(steps: seq<Event>) {
    Justified(steps) && Installs(steps) <= 3 && Uninstalls(steps) <= 1
  }

  /** The helper is missing, or of another version than the one that is asked for. */
  predicate Wants(found: PackageProbe, versionExpected: bool) {
    match found
    case Unreadable => false
    case Absent => true
    case Present(None, _) => false
    case Present(Some(code), target) => versionExpected && code != target
  }

  /** What success means: the helper was there in the right version, or is installed now. */
  predicate Decided(found: PackageProbe, versionExpected: bool, installed: bool) {
    !found.Unreadable? && (installed <==> Wants(found, versionExpected))
  }

  /** Commands are issued only when they are wanted, and the first has the flags that the versions ask for. */
  predicate Begins(found: PackageProbe, versionExpected: bool, steps: seq<Event>) {
    steps != [] ==>
      match found
      case Unreadable => false
      case Absent => steps[0] == InstallIssued(false, false)
      case Present(None, _) => false
      case Present(Some(code), target) =>
        versionExpected && code != target && steps[0] == InstallIssued(true, target < code)
  }

  /** The device refused the last install, and for these flags nothing follows. */
  predicate Refuses(steps: seq<Event>) {
    && 1 < |steps|
    && var (last, refused) := (steps[|steps| - 2], steps[|steps| - 1]);
       && last.InstallIssued?
       && refused.Receipt?
       && match refused.verdict
          case OtherFailure => true
          case Conflict => !last.update
          case NewerInstalled => !last.update || last.downgrade
          case _ => false
  }

  datatype PackageProbe = Unreadable | Absent | Present(installedCode: Option<int>, targetCode: int)

  lemma CommandIsGuarded(clear: seq<Event>, update: bool, downgrade: bool, reply: Reply)
    requires EndsClear(clear) && Ready(clear, update)
    ensures var steps := [InstallIssued(update, downgrade)] + Receipts(reply);
            var t := clear + [InstallIssued(update, downgrade)] + Receipts(reply);
            Commands(t) == Commands(clear) + steps && (Guarded(clear) ==> Guarded(t))
  {
    var issued := clear + [InstallIssued(update, downgrade)];
    var t := issued + Receipts(reply);
    assert issued[..|issued| - 1] == clear;
    if reply.Finished? {
      assert t[..|t| - 1] == issued;
    } else {
      assert t == issued;
    }
    if Guarded(clear) {
      assert t[..|clear|] == clear && GuardedAt(t, |clear|);
      GuardedExtends(clear, t);
    }
  }

  lemma RemovalIsGuarded(known: seq<Event>)
    requires 1 < |known| && known[|known| - 1] == Snapshot && known[|known| - 2] == Observed(Clear)
    ensures var t := known + [UninstallIssued];
            Commands(t) == Commands(known) + [UninstallIssued] && (Guarded(known) ==> Guarded(t))
  {
    var t := known + [UninstallIssued];
    assert t[..|t| - 1] == known;
    assert GuardedAt(t, |known|);
    if Guarded(known) {
      GuardedExtends(known, t);
    }
  }
}
