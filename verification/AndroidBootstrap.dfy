/**
 * Preparing the Android service as a transaction (rdc_tool/remote_bootstrap.py,
 * _prepare_android_service, its steps, _start_android_helper and cleanup_android_remote). Device and ADB
 * replies are arbitrary; a reply that lists the forward table or the helper's processes is true of them at
 * that moment.
 */
module AndroidBootstrap {
  import opened Wrappers
  import opened AndroidInstall
  import opened AndroidTrace

  /** What became of one `adb forward` command: only the first is reported as success. */
  datatype ForwardReply = Mapped | NotMapped | MappedButFailed

  function SelectPort(requested: int, ports: seq<int>): Result<int, Fault> {
    if 0 < requested && requested in ports then Success(requested)
    else if |ports| == 1 then Success(ports[0])
    else if ports == [] then Failure(SocketMissing)
    else Failure(SocketAmbiguous)
  }

  /** The chosen port is listed, and is either the requested one or the only one. */
  predicate ChosenFrom(requested: int, ports: seq<int>, port: int) {
    port in ports && ((0 < requested && port == requested) || ports == [port])
  }

  /** Only safe choices are made, and one is made whenever there is one. */
  lemma SelectPortIsSafe(requested: int, ports: seq<int>)
    ensures SelectPort(requested, ports).Success? ==> ChosenFrom(requested, ports, SelectPort(requested, ports).value)
    ensures SelectPort(requested, ports).Failure? ==> forall port :: !ChosenFrom(requested, ports, port)
    ensures SelectPort(requested, ports) == Failure(SocketMissing) <==> ports == []
  {
    if |ports| == 1 {
      assert ports == [ports[0]];
    }
  }

  // ----- Why a cleanup leaves something behind

  /** The port is listed as taken: by someone else, or still by this mapping after its removal. */
  predicate Occupied(t: seq<Act>, i: nat, mapping: Row)
    requires i < |t|
  {
    && t[i].Listed?
    && var rows := RowsFor(t[i].rows, mapping.local);
       rows != [] && (rows == [mapping] ==> 0 < i && t[i - 1] == RemoveIssued)
  }

  /** Other processes than the recorded ones run. */
  predicate Others(t: seq<Act>, i: nat, owned: seq<int>)
    requires i < |t|
  {
    t[i].Probed? && t[i].pids != [] && t[i].pids != owned
  }

  predicate Suffered(faults: seq<Fault>, from: nat, kinds: set<Fault>) {
    exists i :: from <= i < |faults| && faults[i] in kinds
  }

  /** The forward is kept only when ADB failed to answer or to remove it, or the port is still taken. */
  predicate ForwardKept(t: seq<Act>, from: nat, mapping: Row, faults: seq<Fault>, since: nat) {
    || Suffered(faults, since, {ForwardCleanupUnconfirmed, RemoveFailed})
    || exists i :: from <= i < |t| && Occupied(t, i, mapping)
  }

  /** The helper is kept only when the device failed to answer or to stop it, or others run in its place. */
  predicate HelperKept(t: seq<Act>, from: nat, owned: seq<int>, faults: seq<Fault>, since: nat) {
    || Suffered(faults, since, {ProbeFailed, StopFailed})
    || exists i :: from <= i < |t| && Others(t, i, owned)
  }

  /** One error, which is the fault that was answered or what the last listing showed. */
  predicate ForwardError(errors: seq<Fault>, t: seq<Act>, from: nat, mapping: Row, before: seq<Fault>,
                         faults: seq<Fault>) {
    && |errors| == 1
    && if faults == before
       then
         && from < |t| && Occupied(t, |t| - 1, mapping)
         && errors[0] ==
            if RowsFor(t[|t| - 1].rows, mapping.local) == [mapping] then ForwardCleanupUnconfirmed
            else ForwardOwnershipChanged
       else faults == before + errors && errors[0] in {ForwardCleanupUnconfirmed, RemoveFailed}
  }

  predicate HelperError(errors: seq<Fault>, t: seq<Act>, from: nat, owned: seq<int>, before: seq<Fault>,
                        faults: seq<Fault>) {
    && |errors| == 1
    && if faults == before then from < |t| && Others(t, |t| - 1, owned) && errors == [HelperOwnershipChanged]
       else faults == before + errors && errors[0] in {ProbeFailed, StopFailed}
  }

  /** Whatever is done later does not take the reason away. */
  lemma ErrorsAreReasons(errors: seq<Fault>, t: seq<Act>, later: seq<Act>, from: nat, mapping: Row, owned: seq<int>,
                         before: seq<Fault>, faults: seq<Fault>, after: seq<Fault>)
    requires t <= later && faults <= after
    ensures ForwardError(errors, t, from, mapping, before, faults) ==>
      ForwardKept(later, from, mapping, after, |before|)
    ensures HelperError(errors, t, from, owned, before, faults) ==> HelperKept(later, from, owned, after, |before|)
  {
    if ForwardError(errors, t, from, mapping, before, faults) {
      if faults == before {
        assert Occupied(later, |t| - 1, mapping);
      } else {
        assert after[|before|] == faults[|before|] == errors[0];
      }
    }
    if HelperError(errors, t, from, owned, before, faults) {
      if faults == before {
        assert Others(later, |t| - 1, owned);
      } else {
        assert after[|before|] == faults[|before|] == errors[0];
      }
    }
  }

  lemma ReasonsStay(t: seq<Act>, later: seq<Act>, from: nat, first: nat, mapping: Row, owned: seq<int>,
                    faults: seq<Fault>, after: seq<Fault>, since: nat, start: nat)
    requires t <= later && faults <= after && first <= from && start <= since
    ensures ForwardKept(t, from, mapping, faults, since) ==> ForwardKept(later, first, mapping, after, start)
    ensures HelperKept(t, from, owned, faults, since) ==> HelperKept(later, first, owned, after, start)
  {
    assert forall i :: 0 <= i < |t| && Occupied(t, i, mapping) ==> Occupied(later, i, mapping);
    assert forall i :: 0 <= i < |t| && Others(t, i, owned) ==> Others(later, i, owned);
  }

  /** None of the listed sockets may be chosen. */
  ghost predicate NoSafePort(f: Fault, requested: int, ports: seq<int>) {
    f == SocketAmbiguous && ports != [] && forall port :: !ChosenFrom(requested, ports, port)
  }

  /** A failure is the last thing the outside answered with. */
  predicate Blames(f: Fault, before: seq<Fault>, faults: seq<Fault>) {
    before < faults && faults[|faults| - 1] == f
  }

  class Preparation {
    const session: Session
    const serial: string
    const local: string           // the forward spec, "tcp:<port>"
    var remotePort: int
    var created: bool             // created_forward
    var started: bool             // started_activity
    var owned: seq<int>           // owned_pids
    var localConfig: bool         // config_local_path is set
    var table: seq<Row>           // the ADB server's forward table
    var alive: seq<int>           // the package's processes on the device
    const before: bool            // the package had a process before
    var acts: seq<Act>            // what was done and seen, and what changed
    ghost var sockets: seq<int>   // the service sockets of the last listing
    ghost var lost: bool          // a forward took effect but its command was reported as failed
    ghost var configFile: bool    // the local copy of the configuration is on disk
    ghost var configured: bool    // the configuration step ran

    constructor (session: Session, serial: string, local: string, requested: int, table: seq<Row>, alive: seq<int>)
      ensures this.session == session && this.serial == serial && this.local == local
      ensures remotePort == requested && !created && !started && owned == [] && !localConfig
      ensures this.table == table && !lost && acts == [] && this.alive == alive && Honest()
      ensures !configFile && !configured
    {
      this.session, this.serial, this.local := session, serial, local;
      remotePort, created, started, owned, localConfig := requested, false, false, [], false;
      this.table, this.alive, before := table, alive, alive != [];
      sockets, lost, acts, configFile, configured := [], false, [], false, false;
    }

    function Mapping(): Row
      reads this
    {
      Row(serial, local, remotePort)
    }

    predicate Maps()
      reads this
    {
      RowsFor(table, local) != []
    }

    /** The trace tells whether the package runs; without a launch only what ran before can run. */
    ghost predicate Honest()
      reads this
    {
      && (alive != [] <==> Running(acts, before))
      && (alive != [] ==> Launched(acts, before))
    }

    // ----- Device and server commands

    /** The device's own doing: a launched process may appear, be replaced or end at any time. */
    method Drift(next: seq<int>)
      requires Honest()
      modifies this`acts, this`alive
      ensures Honest() && (acts == old(acts) || acts == old(acts) + [Became(next)])
      ensures alive == if Launched(old(acts), before) then next else old(alive)
      ensures Sighted(acts) ==> Sighted(old(acts))
      ensures Launched(acts, before) == Launched(old(acts), before)
    {
      if Launched(acts, before) && next != alive {
        After(acts, Became(next), before);
        acts, alive := acts + [Became(next)], next;
      }
    }

    /** _package_pids: the processes as they are by then, or an unreadable reply. */
    method Probe(next: seq<int>, readable: bool) returns (r: Result<seq<int>, Fault>)
      requires Honest()
      modifies session`faults, this`acts, this`alive
      ensures session.faults == if readable then old(session.faults) else old(session.faults) + [ProbeFailed]
      ensures Honest() && old(acts) <= acts && Calm(acts, |old(acts)|)
      ensures alive == if Launched(old(acts), before) then next else old(alive)
      ensures Launched(acts, before) == Launched(old(acts), before)
      ensures r.Success? <==> readable
      ensures r == Success([]) || NoneAbsent(acts, |old(acts)|)
      ensures r.Success? ==> |old(acts)| < |acts| && acts[|acts| - 1] == Probed(r.value) && r.value == alive
      ensures r.Success? ==> (Sighted(acts) <==> r.value != [])
      ensures r.Failure? ==> r.error == ProbeFailed && (Sighted(acts) ==> Sighted(old(acts)))
    {
      Drift(next);
      if !readable {
        session.Suffer(Some(ProbeFailed));
        return Failure(ProbeFailed);
      }
      After(acts, Probed(alive), before);
      acts := acts + [Probed(alive)];
      return Success(alive);
    }

    /** One framed listing. Other clients may have changed the table since the last one. */
    method ListForwards() returns (r: Result<seq<Row>, Fault>)
      requires Honest()
      modifies session`faults, this`acts, this`table
      ensures Honest() && Sighted(acts) == Sighted(old(acts))
      ensures r.Success? ==> table == r.value && acts == old(acts) + [Listed(r.value)]
      ensures r.Success? ==> session.faults == old(session.faults)
      ensures r.Failure? ==> acts == old(acts) && r.error == ForwardCleanupUnconfirmed
      ensures r.Failure? ==> session.faults == old(session.faults) + [ForwardCleanupUnconfirmed]
    {
      var unreadable: bool := *;
      table := *;
      if unreadable {
        session.Suffer(Some(ForwardCleanupUnconfirmed));
        return Failure(ForwardCleanupUnconfirmed);
      }
      After(acts, Listed(table), before);
      acts := acts + [Listed(table)];
      return Success(table);
    }

    /** adb forward --no-rebind: joined even when cancelled. */
    method AddForward() returns (reply: ForwardReply)
      requires Honest()
      modifies session`faults, this`acts, this`table, this`lost
      ensures session.faults == if reply == Mapped then old(session.faults) else old(session.faults) + [ForwardFailed]
      ensures Honest() && Sighted(acts) == Sighted(old(acts))
      ensures acts == old(acts) + [ForwardIssued]
      ensures reply == NotMapped ==> table == old(table)
      ensures reply != NotMapped ==> RowsFor(old(table), local) == [] && table == old(table) + [Mapping()]
      ensures lost == (old(lost) || reply == MappedButFailed)
    {
      reply := *;
      if RowsFor(table, local) != [] {
        reply := NotMapped;
      }
      if reply != NotMapped {
        table := table + [Mapping()];
      }
      lost := lost || reply == MappedButFailed;
      session.Suffer(if reply == Mapped then None else Some(ForwardFailed));
      After(acts, ForwardIssued, before);
      acts := acts + [ForwardIssued];
    }

    method RemoveForward() returns (ok: bool)
      requires Honest()
      modifies session`faults, this`acts, this`table
      ensures session.faults == if ok then old(session.faults) else old(session.faults) + [RemoveFailed]
      ensures Honest() && Sighted(acts) == Sighted(old(acts))
      ensures acts == old(acts) + [RemoveIssued]
    {
      ok := *;
      session.Suffer(if ok then None else Some(RemoveFailed));
      table := *;
      After(acts, RemoveIssued, before);
      acts := acts + [RemoveIssued];
    }

    /** A confirmed stop ends the package's processes; an unconfirmed one may have. */
    method ForceStop() returns (ok: bool)
      requires Honest()
      modifies session`faults, this`acts, this`alive
      ensures session.faults == if ok then old(session.faults) else old(session.faults) + [StopFailed]
      ensures Honest() && (ok ==> alive == [] && !Sighted(acts))
      ensures acts == old(acts) + [StopIssued(owned)] || acts == old(acts) + [StopIssued(owned)] + [Became([])]
    {
      var ended: bool := *;
      ok := *;
      session.Suffer(if ok then None else Some(StopFailed));
      After(acts, StopIssued(owned), before);
      acts := acts + [StopIssued(owned)];
      if ok || ended {
        After(acts, Became([]), before);
        acts, alive := acts + [Became([])], [];
      }
    }

    method Launch(ok: bool)
      requires Honest()
      modifies session`faults, this`acts
      ensures session.faults == if ok then old(session.faults) else old(session.faults) + [LaunchFailed]
      ensures Honest() && Sighted(acts) == Sighted(old(acts))
      ensures acts == old(acts) + [LaunchIssued] && Launched(acts, before)
    {
      session.Suffer(if ok then None else Some(LaunchFailed));
      After(acts, LaunchIssued, before);
      acts := acts + [LaunchIssued];
    }

    method ListSockets() returns (r: Result<seq<int>, Fault>)
      modifies session`faults, this`sockets
      ensures r.Success? ==> sockets == r.value && session.faults == old(session.faults)
      ensures r.Failure? ==> session.faults == old(session.faults) + [r.error]
    {
      var unreadable: bool, ports: seq<int>, fault: Fault := *, *, *;
      if unreadable {
        session.Suffer(Some(fault));
        return Failure(fault);
      }
      sockets := ports;
      return Success(ports);
    }

    /** Whether the deadline for `late` has passed. */
    method Deadline(late: Fault) returns (over: bool)
      modifies session`faults
      ensures session.faults == if over then old(session.faults) + [late] else old(session.faults)
    {
      over := *;
      session.Suffer(if over then Some(late) else None);
    }

    method DeleteLocalConfig() returns (left: bool)
      modifies session`faults, this`configFile
      ensures configFile == left
      ensures session.faults == if left then old(session.faults) + [LocalConfigLeft] else old(session.faults)
    {
      left := *;
      configFile := left;
      session.Suffer(if left then Some(LocalConfigLeft) else None);
    }

    // ----- cleanup_android_remote

    /** Release the forward, or say why not. */
    method ReleaseForward() returns (errors: seq<Fault>)
      requires created && Honest()
      modifies session`faults, this`created, this`acts, this`table
      ensures Honest() && Sighted(acts) == Sighted(old(acts))
      ensures old(acts) <= acts && GuardedFrom(acts, |old(acts)|, Mapping()) && NoStop(acts, |old(acts)|)
      ensures NoLaunch(acts, |old(acts)|)
      ensures errors == [] <==> !created
      ensures errors == [] ==> session.faults == old(session.faults)
      ensures errors != [] ==> ForwardError(errors, acts, |old(acts)|, Mapping(), old(session.faults), session.faults)
      ensures errors == [] ==> |old(acts)| < |acts| && acts[|acts| - 1] == Listed(table) && !Maps()
    {
      var listing := ListForwards();
      if listing.Failure? {
        return [listing.error];
      }
      var matches := RowsFor(listing.value, local);
      if matches != [] && matches != [Mapping()] {
        return [ForwardOwnershipChanged];
      }
      if matches == [] {
        created := false;
        ListingIsHarmless(old(acts), listing.value, Mapping());
        return [];
      }
      errors := RemoveListed(listing.value);
    }

    /** Only right after a listing of exactly the recorded mapping. */
    method RemoveListed(ghost seen: seq<Row>) returns (errors: seq<Fault>)
      requires created && Honest() && RowsFor(seen, local) == [Mapping()]
      requires acts != [] && acts[|acts| - 1] == Listed(seen)
      modifies session`faults, this`created, this`acts, this`table
      ensures Honest() && Sighted(acts) == Sighted(old(acts))
      ensures old(acts) <= acts && GuardedFrom(acts, |old(acts)| - 1, Mapping()) && NoStop(acts, |old(acts)| - 1)
      ensures NoLaunch(acts, |old(acts)| - 1)
      ensures errors == [] <==> !created
      ensures errors == [] ==> session.faults == old(session.faults)
      ensures errors != [] ==> ForwardError(errors, acts, |old(acts)|, Mapping(), old(session.faults), session.faults)
      ensures errors == [] ==> acts[|acts| - 1] == Listed(table) && !Maps()
    {
      ghost var before := acts[..|acts| - 1];
      assert acts == before + [Listed(seen)];
      errors := RemoveAndConfirm();
      ForwardRemovalIsGuarded(before, seen, acts, table, Mapping());
    }

    /** Remove the mapping, and believe it only when a second listing agrees. */
    method RemoveAndConfirm() returns (errors: seq<Fault>)
      requires created && Honest()
      modifies session`faults, this`created, this`acts, this`table
      ensures Honest() && Sighted(acts) == Sighted(old(acts))
      ensures old(acts) + [RemoveIssued] <= acts <= old(acts) + [RemoveIssued, Listed(table)]
      ensures errors == [] <==> !created
      ensures errors == [] ==> session.faults == old(session.faults)
      ensures errors != [] ==> ForwardError(errors, acts, |old(acts)|, Mapping(), old(session.faults), session.faults)
      ensures errors == [] ==> acts == old(acts) + [RemoveIssued, Listed(table)] && !Maps()
      ensures errors == [] ==> acts[|acts| - 1] == Listed(table)
    {
      var ok := RemoveForward();
      if !ok {
        return [RemoveFailed];
      }
      var again := ListForwards();
      if again.Failure? {
        return [again.error];
      }
      assert acts == old(acts) + [RemoveIssued, Listed(table)];
      var remaining := RowsFor(again.value, local);
      if remaining != [] && remaining != [Mapping()] {
        return [ForwardOwnershipChanged];
      }
      if remaining != [] {
        return [ForwardCleanupUnconfirmed];
      }
      created := false;
      return [];
    }

    /** Stop the helper only if its process identity is still the recorded one. */
    method ReleaseHelper() returns (errors: seq<Fault>)
      requires started && Honest()
      modifies session`faults, this`started, this`owned, this`acts, this`alive
      ensures Honest()
      ensures old(acts) <= acts && GuardedFrom(acts, |old(acts)|, Mapping()) && NoRemoval(acts, |old(acts)|)
      ensures NoLaunch(acts, |old(acts)|)
      ensures errors == [] <==> !started
      ensures errors == [] ==> session.faults == old(session.faults)
      ensures errors != [] ==> owned == old(owned)
      ensures errors != [] ==> HelperError(errors, acts, |old(acts)|, owned, old(session.faults), session.faults)
      ensures errors == [] ==> alive == [] && !Sighted(acts)
    {
      var next: seq<int>, readable: bool := *, *;
      var current := Probe(next, readable);
      if current.Failure? {
        return [current.error];
      }
      if current.value == [] {
        started := false;
      } else if owned == [] || current.value != owned {
        return [HelperOwnershipChanged];
      }
      errors := [];
      if started {
        errors := StopHelper(old(acts));
      }
    }

    /** Only right after a probe that saw exactly the recorded processes. */
    method StopHelper(ghost past: seq<Act>) returns (errors: seq<Fault>)
      requires started && owned != [] && Honest()
      requires past < acts && Calm(acts, |past|) && acts[|acts| - 1] == Probed(owned)
      modifies session`faults, this`started, this`owned, this`acts, this`alive
      ensures Honest() && past <= acts && GuardedFrom(acts, |past|, Mapping())
      ensures NoRemoval(acts, |past|) && NoLaunch(acts, |past|)
      ensures if errors == [] then !started && session.faults == old(session.faults)
              else started && owned == old(owned) && errors == [StopFailed]
                   && session.faults == old(session.faults) + errors
      ensures errors == [] ==> alive == [] && !Sighted(acts)
    {
      var ok := ForceStop();
      StopIsGuarded(past, old(acts), owned, acts, Mapping());
      if !ok {
        return [StopFailed];
      }
      started, owned := false, [];
      return [];
    }

    method Cleanup() returns (errors: seq<Fault>)
      requires Honest()
      modifies session`faults, this`created, this`started, this`owned, this`acts, this`alive, this`table
      modifies this`configFile
      ensures Honest()
      ensures old(acts) <= acts && GuardedFrom(acts, |old(acts)|, Mapping())
      ensures errors == [] <==> !created && !started && !(localConfig && configFile)
      ensures old(session.faults) <= session.faults
      ensures created ==> ForwardKept(acts, |old(acts)|, Mapping(), session.faults, |old(session.faults)|)
      ensures started ==> owned == old(owned)
      ensures started ==> HelperKept(acts, |old(acts)|, owned, session.faults, |old(session.faults)|)
      ensures localConfig && configFile ==> Suffered(session.faults, |old(session.faults)|, {LocalConfigLeft})
      ensures old(created) && errors == [] ==> !Maps()
      ensures errors == [] && (Sighted(old(acts)) ==> old(started)) ==> !Sighted(acts)
      ensures errors == [] && old(started) ==> alive == []
      ensures !old(created) ==> table == old(table) && NoRemoval(acts, |old(acts)|) && !created
      ensures !old(started) ==> NoStop(acts, |old(acts)|) && alive == old(alive) && !started
      ensures !old(created) && !old(started) && !old(localConfig) ==> errors == [] && acts == old(acts)
      ensures NoLaunch(acts, |old(acts)|)
    {
      errors := ReleaseBoth();
      ghost var late := session.faults;
      if localConfig {
        var left := DeleteLocalConfig();
        assert left ==> session.faults[|late|] == LocalConfigLeft;
        errors := errors + if left then [LocalConfigLeft] else [];
      }
      ReasonsStay(acts, acts, |old(acts)|, |old(acts)|, Mapping(), owned, late, session.faults,
                  |old(session.faults)|, |old(session.faults)|);
    }

    /** The helper's turn comes whatever became of the forward. */
    method ReleaseBoth() returns (errors: seq<Fault>)
      requires Honest()
      modifies session`faults, this`created, this`started, this`owned, this`acts, this`alive, this`table
      ensures Honest()
      ensures old(acts) <= acts && GuardedFrom(acts, |old(acts)|, Mapping())
      ensures errors == [] <==> !created && !started
      ensures old(session.faults) <= session.faults
      ensures created ==> ForwardKept(acts, |old(acts)|, Mapping(), session.faults, |old(session.faults)|)
      ensures started ==> owned == old(owned)
      ensures started ==> HelperKept(acts, |old(acts)|, owned, session.faults, |old(session.faults)|)
      ensures old(created) && errors == [] ==> !Maps()
      ensures errors == [] && (Sighted(old(acts)) ==> old(started)) ==> !Sighted(acts)
      ensures errors == [] && old(started) ==> alive == []
      ensures !old(created) ==> table == old(table) && NoRemoval(acts, |old(acts)|) && !created
      ensures !old(started) ==> NoStop(acts, |old(acts)|) && alive == old(alive) && !started
      ensures !old(created) && !old(started) ==> errors == [] && acts == old(acts)
      ensures NoLaunch(acts, |old(acts)|)
    {
      errors := [];
      if created {
        errors := ReleaseForward();
      }
      ghost var mid, known := acts, session.faults;
      var more := [];
      if started {
        more := ReleaseHelper();
      }
      GuardsJoin(old(acts), mid, acts, Mapping());
      ErrorsAreReasons(errors, mid, acts, |old(acts)|, Mapping(), owned, old(session.faults), known, session.faults);
      ErrorsAreReasons(more, acts, acts, |mid|, Mapping(), owned, known, session.faults, session.faults);
      errors := errors + more;
    }

    // ----- _start_android_helper

    /** Take ownership of whatever processes a probe sees. */
    method TakeOwnership(next: seq<int>, readable: bool) returns (f: Option<Fault>)
      requires Honest()
      modifies session`faults, this`started, this`owned, this`acts, this`alive
      ensures session.faults == if readable then old(session.faults) else old(session.faults) + [ProbeFailed]
      ensures Honest() && old(acts) <= acts && Calm(acts, |old(acts)|)
      ensures alive == if Launched(old(acts), before) then next else old(alive)
      ensures f == if readable then None else Some(ProbeFailed)
      ensures f == None ==> |old(acts)| < |acts| && acts[|acts| - 1] == Probed(owned)
      ensures f == None ==> owned == alive && (started <==> owned != []) && (Sighted(acts) <==> started)
      ensures f == None && started ==> NoneAbsent(acts, |old(acts)|)
      ensures f.Some? ==> started == old(started) && owned == old(owned) && (Sighted(acts) ==> Sighted(old(acts)))
    {
      var pids := Probe(next, readable);
      if pids.Failure? {
        return Some(pids.error);
      }
      owned, started := pids.value, pids.value != [];
      return None;
    }

    /** Launch unless the budget already failed, then look, whatever became of the launch. */
    method LaunchAndLook(launching: bool, ok: bool, next: seq<int>, readable: bool) returns (f: Option<Fault>)
      requires !started && Honest()
      modifies session`faults, this`started, this`owned, this`acts, this`alive
      ensures readable && (launching ==> ok) ==> session.faults == old(session.faults)
      ensures readable && launching && !ok ==> session.faults == old(session.faults) + [LaunchFailed]
      ensures !readable ==> Blames(ProbeFailed, old(session.faults), session.faults)
      ensures Honest() && old(acts) <= acts && NoStop(acts, |old(acts)|) && NoRemoval(acts, |old(acts)|)
      ensures NoLaunch(acts, |old(acts)|) <==> !launching
      ensures alive == if launching || Launched(old(acts), before) then next else old(alive)
      ensures f == if readable then None else Some(ProbeFailed)
      ensures f == None ==> owned == alive && (started <==> owned != [])
      ensures started ==> f == None && |old(acts)| < |acts| && acts[|acts| - 1] == Probed(owned) && owned != []
      ensures started ==> NoneAbsent(acts, |old(acts)|)
      ensures Sighted(acts) && !started ==> Sighted(old(acts))
    {
      if launching {
        Launch(ok);
        assert acts[|old(acts)|] == LaunchIssued;
      }
      f := TakeOwnership(next, readable);
    }

    /** A failed launch that left no process raises; otherwise poll until there is one. */
    method StartHelper() returns (f: Option<Fault>)
      requires !started && Honest()
      modifies session`ticks, session`faults, this`started, this`owned, this`acts, this`alive
      ensures session.ticks <= old(session.ticks)
      ensures Honest() && old(acts) <= acts && NoStop(acts, |old(acts)|) && NoRemoval(acts, |old(acts)|)
      ensures f == None <==> started
      ensures f.Some? ==> Blames(f.value, old(session.faults), session.faults)
      ensures NoLaunch(acts, |old(acts)|) ==> old(session.faults) < session.faults
      ensures f == None && session.faults != old(session.faults) ==> NoneAbsent(acts, |old(acts)|)
      ensures started ==> |old(acts)| < |acts| && owned != [] && acts[|acts| - 1] == Probed(owned)
      ensures Sighted(acts) && !started ==> Sighted(old(acts))
    {
      var launchFault := session.Remaining();
      var ok: bool, next: seq<int>, readable: bool := *, *, *;
      var launching := launchFault == None;
      if launching && !ok {
        launchFault := Some(LaunchFailed);
      }
      f := LaunchAndLook(launching, ok, next, readable);
      if f == None && !started {
        if launchFault.Some? {
          return launchFault;
        }
        ghost var launched := acts;
        f := AwaitHelper();
        QuietJoins(old(acts), launched, acts);
      }
    }

    method AwaitHelper() returns (f: Option<Fault>)
      requires !started && Honest()
      modifies session`ticks, session`faults, this`started, this`owned, this`acts, this`alive
      ensures session.ticks <= old(session.ticks)
      ensures Honest() && old(acts) <= acts && Calm(acts, |old(acts)|)
      ensures f == None <==> started
      ensures f == None ==> session.faults == old(session.faults)
      ensures f.Some? ==> session.faults == old(session.faults) + [f.value]
      ensures started ==> |old(acts)| < |acts| && owned != [] && acts[|acts| - 1] == Probed(owned)
      ensures Sighted(acts) && !started ==> Sighted(old(acts))
    {
      while !started
        invariant session.ticks <= old(session.ticks) && session.faults == old(session.faults)
        invariant Honest() && old(acts) <= acts && Calm(acts, |old(acts)|)
        invariant started ==> |old(acts)| < |acts| && owned != [] && acts[|acts| - 1] == Probed(owned)
        invariant Sighted(acts) && !started ==> Sighted(old(acts))
        decreases session.ticks
      {
        f := session.Remaining();
        if f.Some? {
          return;
        }
        var expired := Deadline(LaunchFailed);
        if expired {
          return Some(LaunchFailed);
        }
        var next: seq<int>, readable: bool := *, *;
        f := TakeOwnership(next, readable);
        if f.Some? {
          return;
        }
        if !started {
          f := session.Remaining();
          if f.Some? {
            return;
          }
        }
      }
      return None;
    }

    /** _ensure_renderdoc_conf, as far as the transaction sees it. */
    method EnsureConfig() returns (f: Option<Fault>)
      modifies session`faults, this`localConfig, this`configFile, this`configured
      ensures configured
      ensures session.faults == if f.Some? then old(session.faults) + [f.value] else old(session.faults)
    {
      var wrote: bool := *;
      var failed: bool := *;
      localConfig, configFile := localConfig || wrote, configFile || wrote;
      configured := true;
      f := if failed then Some(ConfigFailed) else None;
      session.Suffer(f);
    }

    /** Poll for the service socket until a deadline, then choose its port. */
    method FindSocket() returns (r: Result<int, Fault>)
      modifies session`ticks, session`faults, this`sockets
      ensures r.Success? ==> session.ticks < old(session.ticks)
      ensures session.ticks <= old(session.ticks)
      ensures r.Success? ==> ChosenFrom(remotePort, sockets, r.value) && session.faults == old(session.faults)
      ensures r.Failure? && session.faults != old(session.faults) ==>
        session.faults == old(session.faults) + [r.error]
      ensures r.Failure? && session.faults == old(session.faults) ==> NoSafePort(r.error, remotePort, sockets)
    {
      var f := session.Remaining();
      if f.Some? {
        return Failure(f.value);
      }
      var ports := ListSockets();
      if ports.Failure? {
        return Failure(ports.error);
      }
      while ports.value == []
        invariant session.ticks < old(session.ticks)
        invariant ports.Success? && sockets == ports.value && session.faults == old(session.faults)
        decreases session.ticks
      {
        var over := Deadline(SocketMissing);
        if over {
          break;
        }
        f := session.Remaining();
        if f.Some? {
          return Failure(f.value);
        }
        ports := ListSockets();
        if ports.Failure? {
          return Failure(ports.error);
        }
      }
      r := SelectPort(remotePort, ports.value);
      SelectPortIsSafe(remotePort, ports.value);
    }

    /** The steps before the forward: install and start, unless the helper is borrowed. */
    method BringUp(borrowed: bool, pushConfig: bool, versionExpected: bool)
      returns (f: Option<Fault>, ghost found: PackageProbe)
      requires !started && Honest() && !session.installed && !session.uninstalled
      requires session.trace == [] && session.faults == [] && !configured
      modifies session, this`started, this`owned, this`acts, this`alive
      modifies this`localConfig, this`configFile, this`configured
      ensures Honest() && old(acts) <= acts && NoStop(acts, |old(acts)|) && NoRemoval(acts, |old(acts)|)
      ensures borrowed ==> f == None && acts == old(acts) && !started && session.trace == [] && session.faults == []
      ensures f == None && !borrowed ==> started && Decided(found, versionExpected, session.installed)
      ensures f == None && !borrowed ==> (configured <==> pushConfig && session.installed)
      ensures f.Some? ==> session.faults != [] || Refuses(Commands(session.trace))
      ensures started ==> f == None
      ensures f == None && NoLaunch(acts, |old(acts)|) ==> borrowed || session.faults != []
      ensures Sighted(acts) && !started ==> Sighted(old(acts))
      ensures Guarded(session.trace) && Orderly(Commands(session.trace))
      ensures Begins(found, versionExpected, Commands(session.trace)) || borrowed
      ensures session.installed ==> ProvesInstalled(session.trace)
    {
      if borrowed {
        return None, Unreadable;
      }
      f, found := InstallAndConfigure(pushConfig, versionExpected);
      if f.Some? {
        return;
      }
      f := StartHelper();
    }

    /** The configuration is only for a helper that was installed just now. */
    method InstallAndConfigure(pushConfig: bool, versionExpected: bool)
      returns (f: Option<Fault>, ghost found: PackageProbe)
      requires !session.installed && !session.uninstalled
      requires session.trace == [] && session.faults == [] && !configured
      modifies session, this`localConfig, this`configFile, this`configured
      ensures f == None ==> Decided(found, versionExpected, session.installed)
      ensures f == None ==> (configured <==> pushConfig && session.installed)
      ensures f.Some? ==> session.faults != [] || Refuses(Commands(session.trace))
      ensures Guarded(session.trace) && Orderly(Commands(session.trace))
      ensures Begins(found, versionExpected, Commands(session.trace))
      ensures session.installed ==> ProvesInstalled(session.trace)
    {
      ghost var steps: seq<Event>;
      f, steps, found := session.EnsureInstalled(versionExpected);
      assert Commands([]) + steps == steps;
      if f.Some? {
        return;
      }
      if pushConfig && session.installed {
        f := EnsureConfig();
      }
    }

    /** From the service socket to the recorded mapping and the last identity observation. */
    method Connect() returns (f: Option<Fault>)
      requires !created && !lost && Honest()
      modifies session`ticks, session`matched, session`trace, session`faults, this`remotePort, this`sockets
      modifies this`created, this`acts, this`table, this`lost
      ensures Honest() && Sighted(acts) == Sighted(old(acts))
      ensures acts == old(acts) || acts == old(acts) + [ForwardIssued]
      ensures f == None ==> session.ticks + 2 < old(session.ticks)
      ensures f == None ==> created && ChosenFrom(old(remotePort), sockets, remotePort)
      ensures f == None ==> session.trace == old(session.trace) + [Compared(session.matched)]
      ensures f == None ==> session.faults == old(session.faults)
      ensures f.Some? ==> old(session.faults) < session.faults || NoSafePort(f.value, old(remotePort), sockets)
      ensures created ==> !lost
      ensures !created && !lost ==> table == old(table)
      ensures created || lost ==> RowsFor(old(table), local) == [] && RowsFor(table, local) == [Mapping()]
      ensures Commands(session.trace) == Commands(old(session.trace))
      ensures Guarded(old(session.trace)) ==> Guarded(session.trace)
    {
      var port := FindSocket();
      if port.Failure? {
        return Some(port.error);
      }
      remotePort := port.value;
      f := session.Remaining();
      if f.Some? {
        return;
      }
      f := OpenForward();
      if f.Some? {
        return;
      }
      f := session.ObserveInstalledApk();
      WatchingIsHarmless(old(session.trace), session.trace);
    }

    /** Record the mapping only when its command reported success, then look at the budget. */
    method OpenForward() returns (f: Option<Fault>)
      requires !created && !lost && Honest()
      modifies session`ticks, session`faults, this`created, this`acts, this`table, this`lost
      ensures session.faults == if f.Some? then old(session.faults) + [f.value] else old(session.faults)
      ensures Honest() && Sighted(acts) == Sighted(old(acts))
      ensures acts == old(acts) + [ForwardIssued]
      ensures f == None ==> created && session.ticks < old(session.ticks)
      ensures created ==> !lost
      ensures !created && !lost ==> table == old(table)
      ensures created || lost ==> RowsFor(old(table), local) == [] && RowsFor(table, local) == [Mapping()]
    {
      RowsForAppend(table, Mapping());
      var reply := AddForward();
      if reply != Mapped {
        return Some(ForwardFailed);
      }
      created := true;
      f := session.Remaining();
    }

    method Steps(borrowed: bool, pushConfig: bool, versionExpected: bool)
      returns (f: Option<Fault>, ghost found: PackageProbe)
      requires !started && !created && !lost && Honest()
      requires !session.installed && !session.uninstalled
      requires session.trace == [] && session.faults == [] && !configured
      modifies session, this`started, this`owned, this`acts, this`alive, this`localConfig, this`configFile
      modifies this`configured, this`remotePort, this`sockets, this`created, this`table, this`lost
      ensures Honest() && old(acts) <= acts && NoStop(acts, |old(acts)|) && NoRemoval(acts, |old(acts)|)
      ensures borrowed ==> !started && NoLaunch(acts, |old(acts)|) && Commands(session.trace) == []
      ensures f == None ==> created && (borrowed || started) && ChosenFrom(old(remotePort), sockets, remotePort)
      ensures f == None && !borrowed ==> Decided(found, versionExpected, session.installed)
      ensures f == None && !borrowed ==> (configured <==> pushConfig && session.installed)
      ensures f.Some? ==>
        || session.faults != [] || Refuses(Commands(session.trace))
        || NoSafePort(f.value, old(remotePort), sockets)
      ensures f == None && NoLaunch(acts, |old(acts)|) ==> borrowed || session.faults != []
      ensures Begins(found, versionExpected, Commands(session.trace)) || borrowed
      ensures Sighted(acts) && !started ==> Sighted(old(acts))
      ensures created ==> !lost
      ensures !created && !lost ==> table == old(table)
      ensures created || lost ==> RowsFor(old(table), local) == [] && RowsFor(table, local) == [Mapping()]
      ensures Guarded(session.trace) && Orderly(Commands(session.trace))
    {
      var existing := ListSockets();
      if existing.Failure? {
        return Some(existing.error), Unreadable;
      }
      f, found := Establish(borrowed, pushConfig, versionExpected);
    }

    /** From the first listing of the sockets on. */
    method Establish(borrowed: bool, pushConfig: bool, versionExpected: bool)
      returns (f: Option<Fault>, ghost found: PackageProbe)
      requires !started && !created && !lost && Honest()
      requires !session.installed && !session.uninstalled
      requires session.trace == [] && session.faults == [] && !configured
      modifies session, this`started, this`owned, this`acts, this`alive, this`localConfig, this`configFile
      modifies this`configured, this`remotePort, this`sockets, this`created, this`table, this`lost
      ensures Honest() && old(acts) <= acts && NoStop(acts, |old(acts)|) && NoRemoval(acts, |old(acts)|)
      ensures borrowed ==> !started && NoLaunch(acts, |old(acts)|) && Commands(session.trace) == []
      ensures f == None ==> created && (borrowed || started) && ChosenFrom(old(remotePort), sockets, remotePort)
      ensures f == None && !borrowed ==> Decided(found, versionExpected, session.installed)
      ensures f == None && !borrowed ==> (configured <==> pushConfig && session.installed)
      ensures f.Some? ==>
        || session.faults != [] || Refuses(Commands(session.trace))
        || NoSafePort(f.value, old(remotePort), sockets)
      ensures f == None && NoLaunch(acts, |old(acts)|) ==> borrowed || session.faults != []
      ensures Begins(found, versionExpected, Commands(session.trace)) || borrowed
      ensures Sighted(acts) && !started ==> Sighted(old(acts))
      ensures created ==> !lost
      ensures !created && !lost ==> table == old(table)
      ensures created || lost ==> RowsFor(old(table), local) == [] && RowsFor(table, local) == [Mapping()]
      ensures Guarded(session.trace) && Orderly(Commands(session.trace))
    {
      f, found := BringUp(borrowed, pushConfig, versionExpected);
      if f.Some? {
        return;
      }
      ghost var brought := acts;
      f := Connect();
      QuietJoins(old(acts), brought, acts);
    }

    /** Its handler, with what the steps and the cleanup come to together. */
    method UndoSteps() returns (errors: seq<Fault>)
      requires Honest() && NoStop(acts, 0) && NoRemoval(acts, 0)
      modifies session`faults, this`created, this`started, this`owned, this`acts, this`alive, this`table
      modifies this`configFile
      ensures Honest() && GuardedFrom(acts, 0, Mapping())
      ensures errors == [] <==> !created && !started && !(localConfig && configFile)
      ensures old(session.faults) <= session.faults
      ensures created ==> ForwardKept(acts, 0, Mapping(), session.faults, 0)
      ensures started ==> HelperKept(acts, 0, owned, session.faults, 0)
      ensures old(created) && errors == [] ==> !Maps()
      ensures errors == [] && (Sighted(old(acts)) ==> old(started)) ==> !Sighted(acts)
      ensures !old(created) ==> table == old(table)
      ensures !old(started) ==> NoStop(acts, 0) && !started
      ensures NoLaunch(old(acts), 0) ==> NoLaunch(acts, 0)
    {
      QuietIsGuarded(acts, Mapping());
      errors := Cleanup();
      GuardsJoin([], old(acts), acts, Mapping());
      ReasonsStay(acts, acts, |old(acts)|, 0, Mapping(), owned, session.faults, session.faults,
                  |old(session.faults)|, 0);
    }

    /**
     * The transaction. For every interleaving of failures and cancellation, a failed preparation has a cause
     * outside, and one whose cleanup reports no error ends without recorded ownership. Its local port is then
     * mapped exactly when it was mapped before or when the forward command took effect although it was
     * reported as failed. A helper process is left behind exactly when no readable probe looked after it
     * appeared, and what cleanup keeps it was kept from releasing. A borrowed helper is neither installed,
     * launched nor stopped. Installs and uninstalls are few, guarded and justified.
     */
    method Prepare(borrowed: bool, pushConfig: bool, versionExpected: bool)
      returns (f: Option<Fault>, errors: seq<Fault>, ghost found: PackageProbe)
      requires !started && !created && !lost && acts == [] && Honest()
      requires !session.installed && !session.uninstalled
      requires session.trace == [] && session.faults == [] && !configured
      modifies session, this
      ensures f == None ==> created && errors == [] && RowsFor(table, local) == [Mapping()] && (borrowed || started)
      ensures f == None ==> ChosenFrom(old(remotePort), sockets, remotePort)
      ensures f == None && !borrowed ==> Decided(found, versionExpected, session.installed)
      ensures f == None && !borrowed ==> (configured <==> pushConfig && session.installed)
      ensures f == None && NoLaunch(acts, 0) ==> borrowed || session.faults != []
      ensures f.Some? ==>
        || session.faults != [] || Refuses(Commands(session.trace))
        || NoSafePort(f.value, old(remotePort), sockets)
      ensures errors != [] ==> f.Some? && (created || started || (localConfig && configFile))
      ensures f.Some? && created ==> ForwardKept(acts, 0, Mapping(), session.faults, 0)
      ensures f.Some? && started ==> HelperKept(acts, 0, owned, session.faults, 0)
      ensures f.Some? && errors == [] ==> !created && !started && !(localConfig && configFile)
      ensures f.Some? && errors == [] ==> (Maps() <==> RowsFor(old(table), local) != [] || lost)
      ensures f.Some? && errors == [] ==> (alive != [] <==> Unseen(acts, before))
      ensures alive != [] ==> Launched(acts, before)
      ensures borrowed ==> NoStop(acts, 0) && NoLaunch(acts, 0) && Commands(session.trace) == []
      ensures Begins(found, versionExpected, Commands(session.trace)) || borrowed
      ensures f == None ==> NoStop(acts, 0) && NoRemoval(acts, 0)
      ensures GuardedFrom(acts, 0, Mapping())
      ensures Guarded(session.trace) && Orderly(Commands(session.trace))
    {
      errors := [];
      f, found := Steps(borrowed, pushConfig, versionExpected);
      QuietIsGuarded(acts, Mapping());
      if f.Some? {
        errors := UndoSteps();
      }
      ghost var cleaned := acts;
      var next: seq<int> := *;
      Drift(next);
      ReasonsStay(cleaned, acts, 0, 0, Mapping(), owned, session.faults, session.faults, 0, 0);
      CalmIsGuarded(cleaned, acts, Mapping());
      RunningIsSeenOrNot(acts, before);
    }
  }

  /**
   * A run that leaves its helper behind: the launch works, the probe after it cannot be read, and cleanup,
   * with nothing recorded, has nothing to do and no error to report.
   */
  method HelperStaysBehind(p: Preparation, pid: int) returns (f: Option<Fault>, errors: seq<Fault>)
    requires !p.started && !p.created && !p.localConfig && p.Honest()
    modifies p, p.session`faults
    ensures f == Some(ProbeFailed) && errors == []
    ensures p.alive == [pid] && !p.started
  {
    f := p.LaunchAndLook(true, true, [pid], false);
    errors := p.Cleanup();
  }
}
