/** The upgrade as it runs: loops over the targets that change the database and call the Worker, proved to follow
    the functions of `GpuUpgrade`, with the saga's atomicity as the contract of the whole. */
module GpuUpgradeSession {
  import opened Options
  import opened GpuUpgrade
  import opened GpuUpgradeProofs

  /** What the loop of upgrades will have reached from `index` on. */
  ghost function Onward(w: World, targets: seq<Target>, index: nat): Progress
    requires index <= |targets| && forall t :: t in targets ==> t.user in w.containers
  {
    var rest := UpgradeEach(w, targets[index..]);
    rest.(migrated := rest.migrated + index)
  }

  lemma OnwardEnd(w: World, targets: seq<Target>)
    requires forall t :: t in targets ==> t.user in w.containers
    ensures Onward(w, targets, |targets|) == Progress(w, Fine, |targets|)
  {
    assert targets[|targets|..] == [];
  }

  lemma OnwardStep(w: World, targets: seq<Target>, index: nat)
    requires index < |targets| && forall t :: t in targets ==> t.user in w.containers
    ensures var (next, signal) := UpgradeOne(w, targets[index]);
            && (forall t :: t in targets ==> t.user in next.containers)
            && Onward(w, targets, index)
               == if signal == Fine then Onward(next, targets, index + 1) else Progress(next, signal, index)
  {
    assert targets[index..][1..] == targets[index + 1..] && targets[index..][0] == targets[index];
    UpgradeOneKeeps(w, targets[index]);
    var (next, signal) := UpgradeOne(w, targets[index]);
    if signal == Fine {
      UpgradeEachFirst(w, targets[index..]);
    } else {
      assert UpgradeEach(w, targets[index..]) == Progress(next, signal, 0);
    }
  }

  class Session {
    var containers: map<User, Container>
    var operations: map<OperationKey, OperationStatus>
    var script: seq<Reply>
    ghost var log: seq<Call>

    ghost function State(): World
      reads this
    {
      World(containers, operations, script, log)
    }

    constructor (w: World)
      ensures State() == w
    {
      containers, operations, script, log := w.containers, w.operations, w.script, w.log;
    }

    /** `call_worker`: the next answer, or a transport error when there is none. */
    method CallWorker(phase: Phase) returns (reply: Reply)
      modifies this`script, this`log
      ensures reply == Answer(old(State())) && State() == Called(old(State()), phase)
    {
      reply := if |script| == 0 then NoReply else script[0];
      log := log + [Call(phase, reply)];
      script := if |script| == 0 then [] else script[1..];
    }

    method SelectTargets(rows: seq<User>, managed: map<User, Managed>, now: int) returns (targets: Option<seq<Target>>)
      requires Known(rows, managed, containers)
      ensures targets == Targets(rows, managed, containers, now)
    {
      var found: seq<Target> := [];
      ghost var goal := Targets(rows, managed, containers, now);
      assert rows[0..] == rows && (goal.Some? ==> found + goal.value == goal.value);
      for index := 0 to |rows|
        invariant var rest := Targets(rows[index..], managed, containers, now);
                  goal == if rest.None? then None else Some(found + rest.value)
      {
        var u := rows[index];
        assert rows[index..][1..] == rows[index + 1..];
        if containers[u].profile != GPU_PROFILE {
          if !Eligible(managed[u], containers[u], now) {
            return None;
          }
          ghost var rest := Targets(rows[index + 1..], managed, containers, now);
          var t := TargetOf(u, managed[u], containers[u]);
          assert rest.Some? ==> found + ([t] + rest.value) == found + [t] + rest.value;
          found := found + [t];
        }
      }
      assert rows[|rows|..] == [] && found + [] == found;
      return Some(found);
    }

    method PreflightTarget(t: Target) returns (signal: Signal)
      modifies this`operations, this`script, this`log
      ensures (State(), signal) == PreflightOne(old(State()), t)
    {
      var key := UpgradeOf(t.user);
      var status := if key in operations then operations[key] else Draft;
      if status !in {Draft, FailedOperation} {
        return Caught;
      }
      var reply := CallWorker(Preflight);
      if Unavailable(reply) {
        return Caught;
      }
      if reply.Undecodable? {
        return Escaped;
      }
      if reply.status == "DRY_RUN" && reply.upgradeStatus.Unhashable? {
        return Escaped;
      }
      if !PreflightPasses(reply) {
        if reply.error.NotAnObject? {
          return Escaped;
        }
        operations := operations[key := FailedOperation];
        return Caught;
      }
      operations := operations[key := Draft];
      return Fine;
    }

    method PreflightTargets(targets: seq<Target>) returns (signal: Signal)
      modifies this`operations, this`script, this`log
      ensures (State(), signal) == PreflightAll(old(State()), targets)
    {
      ghost var goal := PreflightAll(State(), targets);
      for index := 0 to |targets|
        invariant PreflightAll(State(), targets[index..]) == goal && containers == old(containers)
      {
        assert targets[index..][1..] == targets[index + 1..];
        signal := PreflightTarget(targets[index]);
        if signal != Fine {
          return;
        }
      }
      return Fine;
    }

    method UpgradeTarget(t: Target) returns (signal: Signal)
      requires t.user in containers
      modifies this
      ensures (State(), signal) == UpgradeOne(old(State()), t)
    {
      var key := UpgradeOf(t.user);
      var preflight := CallWorker(Preflight);
      if Unavailable(preflight) {
        return Caught;
      }
      if preflight.Undecodable? {
        return Escaped;
      }
      if preflight.status == "DRY_RUN" && preflight.upgradeStatus.Unhashable? {
        return Escaped;
      }
      if !PreflightPasses(preflight) {
        if preflight.error.NotAnObject? {
          return Escaped;
        }
        operations := operations[key := FailedOperation];
        return Caught;
      }
      operations := operations[key := Running];
      var reply := CallWorker(Upgrade);
      if Unavailable(reply) {
        return Caught;
      }
      if reply.Undecodable? {
        return Escaped;
      }
      if !UpgradePasses(reply) {
        if reply.error.NotAnObject? {
          return Escaped;
        }
        operations := operations[key := FailedOperation];
        return Caught;
      }
      if reply.backup.None? {
        return Escaped;
      }
      var container := containers[t.user];
      containers := containers[t.user := Container(GPU_PROFILE, 1, None, None, "STOPPED", "STOPPED",
                                                   UpgradedSpec(container.safeSpec))];
      operations := operations[key := Succeeded];
      return Fine;
    }

    method UpgradeTargets(targets: seq<Target>) returns (signal: Signal, migrated: seq<Target>)
      requires forall t :: t in targets ==> t.user in containers
      modifies this
      ensures var p := UpgradeEach(old(State()), targets);
              State() == p.world && signal == p.signal && p.migrated <= |targets| && migrated == targets[..p.migrated]
    {
      UpgradeEachKeeps(State(), targets);
      ghost var goal := UpgradeEach(State(), targets);
      assert targets[0..] == targets;
      migrated := [];
      for index := 0 to |targets|
        invariant migrated == targets[..index] && forall t :: t in targets ==> t.user in containers
        invariant Onward(State(), targets, index) == goal
      {
        OnwardStep(State(), targets, index);
        signal := UpgradeTarget(targets[index]);
        if signal != Fine {
          assert goal == Progress(State(), signal, index);
          return;
        }
        assert targets[..index + 1] == targets[..index] + [targets[index]];
        migrated := migrated + [targets[index]];
      }
      OnwardEnd(State(), targets);
      assert targets[..|targets|] == targets;
      return Fine, migrated;
    }

    method StartTarget(t: Target) returns (signal: Signal, left: bool)
      requires t.user in containers
      modifies this
      ensures (State(), signal, left) == StartOne(old(State()), t)
    {
      var key := StartOf(t.user);
      if key in operations {
        return Caught, false;
      }
      operations := operations[key := Running];
      var reply := CallWorker(Start);
      if Unavailable(reply) {
        return Caught, false;
      }
      if reply.Undecodable? {
        return Escaped, false;
      }
      if StartPasses(reply) {
        var started := containers[t.user].(desired := "RUNNING", observed := "RUNNING", job := None, uuid := None);
        containers := containers[t.user := started];
        operations := operations[key := Succeeded];
        return Fine, false;
      }
      if reply.error.NotAnObject? {
        return Escaped, false;
      }
      operations := operations[key := FailedOperation];
      return Fine, true;
    }

    method StartTargets(targets: seq<Target>) returns (signal: Signal)
      requires forall t :: t in targets ==> t.user in containers
      modifies this
      ensures (State(), signal) == StartEach(old(State()), targets, false)
    {
      ghost var goal := StartEach(State(), targets, false);
      var stopped := false;
      for index := 0 to |targets|
        invariant containers.Keys == old(containers).Keys
        invariant StartEach(State(), targets[index..], stopped) == goal
      {
        assert targets[index..][1..] == targets[index + 1..] && targets[index] in targets;
        StartOneKeeps(State(), targets[index]);
        var left;
        signal, left := StartTarget(targets[index]);
        if signal != Fine {
          return;
        }
        stopped := stopped || left;
      }
      return if stopped then Caught else Fine;
    }

    method RollbackTarget(t: Target) returns (signal: Signal)
      modifies this
      ensures (State(), signal) == RollbackOne(old(State()), t)
    {
      if t.user !in containers {
        return Caught;
      }
      if containers[t.user].job.Some? {
        var stopped := CallWorker(Stop);
        if RollbackRaises(stopped) {
          return Escaped;
        }
        if !StopPasses(stopped) {
          return Caught;
        }
        var container := containers[t.user].(desired := "STOPPED", observed := "STOPPED", job := None, uuid := None);
        containers := containers[t.user := container];
      }
      var reply := CallWorker(Restore);
      if RollbackRaises(reply) {
        return Escaped;
      }
      if !RestorePasses(reply) || UpgradeOf(t.user) !in operations {
        return Caught;
      }
      var power := if t.wasRunning then "RUNNING" else "STOPPED";
      containers := containers[t.user := Container(CPU_PROFILE, 0, None, None, power, power, t.originalSpec)];
      operations := operations[UpgradeOf(t.user) := RolledBack];
      return Fine;
    }

    /** `_rollback_completed_gpu_upgrades`: latest first; an exception leaves the loop where it is. */
    method RollbackCompleted(migrated: seq<Target>) returns (failures: seq<User>, escaped: bool)
      modifies this
      ensures var back := RollbackEach(old(State()), migrated);
              State() == back.world && failures == back.unresolved && escaped == back.escaped
    {
      ghost var goal := RollbackEach(State(), migrated);
      failures := [];
      var left := |migrated|;
      assert migrated[..left] == migrated && failures + goal.unresolved == goal.unresolved;
      while left > 0
        invariant 0 <= left <= |migrated|
        invariant var rest := RollbackEach(State(), migrated[..left]);
                  goal == rest.(unresolved := failures + rest.unresolved)
      {
        assert migrated[..left][..left - 1] == migrated[..left - 1];
        ghost var before := failures;
        var signal := RollbackTarget(migrated[left - 1]);
        if signal == Escaped {
          assert failures + [] == failures;
          return failures, true;
        }
        left := left - 1;
        if signal != Fine {
          failures := failures + [migrated[left].user];
        }
        ghost var rest := RollbackEach(State(), migrated[..left]).unresolved;
        assert before + (if signal == Fine then rest else [migrated[left].user] + rest) == failures + rest;
      }
      assert migrated[..0] == [] && failures + [] == failures;
      return failures, false;
    }

    method HasActiveOperation() returns (b: bool)
      ensures b == ActiveOperations(operations)
    {
      return exists key :: key in operations && operations[key] in {PendingApproval, Approved, Running};
    }

    /** From the first preflight on, with the handler that compensates. */
    method RunAll(targets: seq<Target>) returns (outcome: Outcome, unresolved: seq<User>, migrated: seq<Target>)
      requires forall t :: t in targets ==> t.user in containers
      modifies this
      ensures Finish(State(), outcome, unresolved, migrated) == RunTargets(old(State()), targets)
    {
      PreflightAllKeeps(State(), targets);
      unresolved, migrated := [], [];
      var signal := PreflightTargets(targets);
      if signal == Fine {
        UpgradeEachKeeps(State(), targets);
        signal, migrated := UpgradeTargets(targets);
        if signal == Fine {
          RestartOrderMembers(migrated);
          signal := StartTargets(RestartOrder(migrated));
        }
        if signal == Caught {
          var failures, escaped := RollbackCompleted(migrated);
          if escaped {
            return Raised, [], migrated;
          }
          unresolved := failures;
        }
      }
      outcome := if signal == Escaped then Raised else if signal == Caught then Returned(2) else Returned(0);
    }

    /** `upgrade_all_containers_to_gpu` */
    method UpgradeAllContainersToGpu(approved: bool, ownerPresent: bool, rows: seq<User>, managed: map<User, Managed>,
                                     now: int)
      returns (outcome: Outcome, unresolved: seq<User>, migrated: seq<Target>)
      requires Known(rows, managed, containers) && DistinctRows(rows) && log == []
      modifies this
      ensures Finish(State(), outcome, unresolved, migrated)
              == Saga(old(State()), approved, ownerPresent, rows, managed, now)
      ensures Atomic(old(containers), rows, Finish(State(), outcome, unresolved, migrated))
      ensures outcome == Raised <==> LastMalformed(log)
    {
      SagaIsAtomic(State(), approved, ownerPresent, rows, managed, now);
      unresolved, migrated, outcome := [], [], Returned(2);
      if !approved || !ownerPresent {
        return;
      }
      var active := HasActiveOperation();
      if active || |rows| == 0 {
        return;
      }
      var targets := SelectTargets(rows, managed, now);
      if targets.None? {
        return;
      }
      TargetsKnown(rows, managed, containers, now);
      outcome, unresolved, migrated := RunAll(targets.value);
    }
  }
}
