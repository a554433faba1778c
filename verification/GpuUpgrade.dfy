/** The GPU profile upgrade of all containers: a saga against an arbitrary Root Worker, with compensation. */
module GpuUpgrade {
  import opened Options

  type User = string

  const GPU_PROFILE: string := "GPU_1_8CPU_32GB"
  const CPU_PROFILE: string := "STANDARD_8CPU_32GB"

  datatype Container = Container(
    profile: string, gpuCount: int, job: Option<int>, uuid: Option<string>,
    desired: string, observed: string, safeSpec: map<string, string>)

  datatype LeaseInfo = LeaseInfo(gpuCount: int, expiresAt: int)

  /** An ordinary user's identity, with its current lease and the key fingerprints in the expected state. */
  datatype Managed = Managed(
    environment: string, slurmAccount: string, slurmQos: string, lease: Option<LeaseInfo>, keys: seq<string>)

  datatype OperationStatus = Draft | PendingApproval | Approved | Running | Succeeded | FailedOperation | RolledBack

  datatype OperationKey = UpgradeOf(user: User) | StartOf(user: User) | OtherKey(name: string)

  // ----- The Worker -----

  /** The "error" field of a reply; reading a code from anything but an object raises. */
  datatype ErrorField = Absent | Object(code: Option<string>) | NotAnObject

  /** The "upgrade_status" field; a list or an object in it cannot be looked up in a set. */
  datatype StatusField = Text(value: string) | Unhashable

  /** No reply; bytes that cannot be decoded, for which the client raises an exception that nobody expects; an object
      nested too deeply to be read, for which it raises one that the batch catches and its compensation does not; or
      one with arbitrary fields. */
  datatype Reply =
    | NoReply
    | Undecodable
    | TooDeep
    | Reply(status: string, upgradeStatus: StatusField, profile: string, containerState: string, containerGpu: string,
            job: Option<int>, uuid: Option<string>, backup: Option<string>, error: ErrorField)

  datatype Phase = Preflight | Upgrade | Start | Stop | Restore

  datatype Call = Call(phase: Phase, reply: Reply)

  /** The database and the Worker: `script` holds its answers to come, `log` the calls made. */
  datatype World = World(
    containers: map<User, Container>, operations: map<OperationKey, OperationStatus>,
    script: seq<Reply>, log: seq<Call>)

  function Answer(w: World): Reply {
    if |w.script| == 0 then NoReply else w.script[0]
  }

  function Called(w: World, phase: Phase): World {
    w.(script := if |w.script| == 0 then [] else w.script[1..], log := w.log + [Call(phase, Answer(w))])
  }

  predicate PreflightPasses(r: Reply) {
    r.Reply? && r.status == "DRY_RUN" && r.upgradeStatus in {Text("READY"), Text("ALREADY_APPLIED")}
  }

  predicate UpgradePasses(r: Reply) {
    && r.Reply? && r.status == "SUCCEEDED" && r.profile == GPU_PROFILE && r.containerState == "STOPPED"
    && r.job.None? && r.uuid.None?
  }

  predicate StartPasses(r: Reply) {
    && r.Reply? && r.status == "SUCCEEDED" && r.containerState == "RUNNING" && r.containerGpu == "NONE"
    && r.job.None? && r.uuid.None?
  }

  predicate StopPasses(r: Reply) {
    r.Reply? && r.status == "SUCCEEDED" && r.containerState == "STOPPED" && r.job.None? && r.uuid.None?
  }

  predicate RestorePasses(r: Reply) {
    r.Reply? && r.status == "SUCCEEDED" && r.profile == CPU_PROFILE
  }

  /** The lookup of a list or an object among the good statuses raises, and so does reading an error code from
      anything but an object. The lookup is made only for a dry run. */
  predicate PreflightRaises(r: Reply) {
    || r.Undecodable?
    || (r.Reply? && r.status == "DRY_RUN" && r.upgradeStatus.Unhashable?)
    || (r.Reply? && !PreflightPasses(r) && r.error.NotAnObject?)
  }

  /** A successful upgrade without its backup digest raises too. */
  predicate UpgradeRaises(r: Reply) {
    r.Undecodable? || (r.Reply? && if UpgradePasses(r) then r.backup.None? else r.error.NotAnObject?)
  }

  predicate StartRaises(r: Reply) {
    r.Undecodable? || (r.Reply? && !StartPasses(r) && r.error.NotAnObject?)
  }

  /** The compensation expects transport errors alone. */
  predicate RollbackRaises(r: Reply) {
    r.Undecodable? || r.TooDeep?
  }

  /** The call itself raises an exception that the batch catches. */
  predicate Unavailable(r: Reply) {
    r.NoReply? || r.TooDeep?
  }

  /** A reply that makes its caller raise an exception that no handler catches. */
  predicate Malformed(c: Call) {
    match c.phase
    case Preflight => PreflightRaises(c.reply)
    case Upgrade => UpgradeRaises(c.reply)
    case Start => StartRaises(c.reply)
    case _ => RollbackRaises(c.reply)
  }

  predicate LastMalformed(log: seq<Call>) {
    |log| > 0 && Malformed(log[|log| - 1])
  }

  // ----- Targets -----

  datatype Target = Target(user: User, wasRunning: bool, originalSpec: map<string, string>, expiresAt: int,
                           active: bool)

  predicate Baseline(m: Managed, c: Container) {
    && c.profile == CPU_PROFILE && c.gpuCount == 0 && c.job.None? && c.uuid.None?
    && m.environment in {"ACTIVE", "RECYCLED"}
    && c.observed in {"RUNNING", "STOPPED"} && c.desired == c.observed
    && (m.environment == "RECYCLED" ==> c.observed == "STOPPED")
    && m.slurmAccount == "company" && m.slurmQos == "general"
    && m.lease.Some? && m.lease.value.gpuCount == 1 && m.keys != []
  }

  predicate Eligible(m: Managed, c: Container, now: int) {
    Baseline(m, c) && (m.environment == "ACTIVE" ==> m.lease.value.expiresAt > now)
  }

  function TargetOf(user: User, m: Managed, c: Container): Target
    requires m.lease.Some?
  {
    Target(user, c.observed == "RUNNING", c.safeSpec, m.lease.value.expiresAt, m.environment == "ACTIVE")
  }

  /** The containers still on the CPU profile; none at all if one of them is outside the baseline. */
  function Targets(rows: seq<User>, managed: map<User, Managed>, containers: map<User, Container>, now: int)
    : Option<seq<Target>>
    requires forall u :: u in rows ==> u in managed && u in containers
  {
    if |rows| == 0 then Some([])
    else
      var u := rows[0];
      if containers[u].profile == GPU_PROFILE then Targets(rows[1..], managed, containers, now)
      else if !Eligible(managed[u], containers[u], now) then None
      else
        var rest := Targets(rows[1..], managed, containers, now);
        if rest.None? then None else Some([TargetOf(u, managed[u], containers[u])] + rest.value)
  }

  // ----- The steps -----

  /** How a step ends: normally, with an exception the saga catches, or with one it does not. */
  datatype Signal = Fine | Caught | Escaped

  function StatusOf(w: World, key: OperationKey): OperationStatus {
    if key in w.operations then w.operations[key] else Draft
  }

  function WithOperation(w: World, key: OperationKey, status: OperationStatus): World {
    w.(operations := w.operations[key := status])
  }

  /** One round of the batch preflight. */
  function PreflightOne(w: World, t: Target): (World, Signal) {
    var key := UpgradeOf(t.user);
    if StatusOf(w, key) !in {Draft, FailedOperation} then (w, Caught)
    else
      var r, called := Answer(w), Called(w, Preflight);
      if Unavailable(r) then (called, Caught)
      else if PreflightPasses(r) then (WithOperation(called, key, Draft), Fine)
      else if PreflightRaises(r) then (called, Escaped)
      else (WithOperation(called, key, FailedOperation), Caught)
  }

  function PreflightAll(w: World, targets: seq<Target>): (World, Signal)
    decreases |targets|
  {
    if |targets| == 0 then (w, Fine)
    else
      var (after, signal) := PreflightOne(w, targets[0]);
      if signal != Fine then (after, signal) else PreflightAll(after, targets[1..])
  }

  function UpgradedSpec(spec: map<string, string>): map<string, string> {
    spec["gpu" := "NONE"]["development_profile" := GPU_PROFILE]
  }

  function UpgradedContainer(c: Container): Container {
    Container(GPU_PROFILE, 1, None, None, "STOPPED", "STOPPED", UpgradedSpec(c.safeSpec))
  }

  /** The second preflight and the upgrade of one container. */
  function UpgradeOne(w: World, t: Target): (World, Signal)
    requires t.user in w.containers
  {
    var key := UpgradeOf(t.user);
    var p, checked := Answer(w), Called(w, Preflight);
    if Unavailable(p) then (checked, Caught)
    else if !PreflightPasses(p) then
      if PreflightRaises(p) then (checked, Escaped) else (WithOperation(checked, key, FailedOperation), Caught)
    else
      var running := WithOperation(checked, key, Running);
      var r, called := Answer(running), Called(running, Upgrade);
      if Unavailable(r) then (called, Caught)
      else if UpgradeRaises(r) then (called, Escaped)
      else if !UpgradePasses(r) then (WithOperation(called, key, FailedOperation), Caught)
      else
        (WithOperation(called, key, Succeeded).(
           containers := called.containers[t.user := UpgradedContainer(called.containers[t.user])]), Fine)
  }

  datatype Progress = Progress(world: World, signal: Signal, migrated: nat)

  /** The upgrades in order; `migrated` counts those committed. */
  function UpgradeEach(w: World, targets: seq<Target>): Progress
    requires forall t :: t in targets ==> t.user in w.containers
    decreases |targets|
  {
    if |targets| == 0 then Progress(w, Fine, 0)
    else
      var (after, signal) := UpgradeOne(w, targets[0]);
      if signal != Fine then Progress(after, signal, 0)
      else
        var rest := UpgradeEach(after, targets[1..]);
        rest.(migrated := rest.migrated + 1)
  }

  /** Earliest lease expiry first; equal ones keep their user-name order. */
  function InsertByExpiry(t: Target, sorted: seq<Target>): seq<Target> {
    if |sorted| == 0 || t.expiresAt <= sorted[0].expiresAt then [t] + sorted
    else [sorted[0]] + InsertByExpiry(t, sorted[1..])
  }

  /** The containers to start again. */
  function RestartOrder(targets: seq<Target>): seq<Target> {
    if |targets| == 0 then []
    else if targets[0].wasRunning && targets[0].active then InsertByExpiry(targets[0], RestartOrder(targets[1..]))
    else RestartOrder(targets[1..])
  }

  function StartedContainer(c: Container): Container {
    c.(desired := "RUNNING", observed := "RUNNING", job := None, uuid := None)
  }

  function StoppedContainer(c: Container): Container {
    c.(desired := "STOPPED", observed := "STOPPED", job := None, uuid := None)
  }

  /** Starting one container; the flag tells that it was left stopped. */
  function StartOne(w: World, t: Target): (World, Signal, bool)
    requires t.user in w.containers
  {
    var key := StartOf(t.user);
    if key in w.operations then (w, Caught, false)
    else
      var running := WithOperation(w, key, Running);
      var r, called := Answer(running), Called(running, Start);
      if Unavailable(r) then (called, Caught, false)
      else if StartPasses(r) then
        (WithOperation(called, key, Succeeded).(
           containers := called.containers[t.user := StartedContainer(called.containers[t.user])]),
         Fine, false)
      else if StartRaises(r) then (called, Escaped, false)
      else (WithOperation(called, key, FailedOperation), Fine, true)
  }

  /** All starts; a container left stopped fails the batch only after the last one. */
  function StartEach(w: World, targets: seq<Target>, stopped: bool): (World, Signal)
    requires forall t :: t in targets ==> t.user in w.containers
    decreases |targets|
  {
    if |targets| == 0 then (w, if stopped then Caught else Fine)
    else
      var (after, signal, left) := StartOne(w, targets[0]);
      if signal != Fine then (after, signal) else StartEach(after, targets[1..], stopped || left)
  }

  /** The container given up by the Worker's stop, where an allocation is still held. */
  function StopOne(w: World, user: User): (World, Signal)
    requires user in w.containers
  {
    if w.containers[user].job.None? then (w, Fine)
    else
      var r, called := Answer(w), Called(w, Stop);
      if RollbackRaises(r) then (called, Escaped)
      else if !StopPasses(r) then (called, Caught)
      else
        (called.(containers := called.containers[user := StoppedContainer(called.containers[user])]), Fine)
  }

  function RestoredContainer(t: Target): Container {
    var power := if t.wasRunning then "RUNNING" else "STOPPED";
    Container(CPU_PROFILE, 0, None, None, power, power, t.originalSpec)
  }

  /** One round of the compensation; `Caught` where the user is reported as unresolved. */
  function RollbackOne(w: World, t: Target): (World, Signal) {
    if t.user !in w.containers then (w, Caught)
    else
      var (stopped, signal) := StopOne(w, t.user);
      if signal != Fine then (stopped, signal)
      else
        var r, called := Answer(stopped), Called(stopped, Restore);
        if RollbackRaises(r) then (called, Escaped)
        else if !RestorePasses(r) || UpgradeOf(t.user) !in called.operations then (called, Caught)
        else
          (WithOperation(called, UpgradeOf(t.user), RolledBack).(
             containers := called.containers[t.user := RestoredContainer(t)]), Fine)
  }

  /** `unresolved` are the users that could not be restored; `left` counts the targets not yet done when an exception
      escaped, the one at which it did included. */
  datatype Rollback = Rollback(world: World, escaped: bool, unresolved: seq<User>, left: nat)

  /** The compensation of `migrated`, latest first. */
  function RollbackEach(w: World, migrated: seq<Target>): Rollback
    decreases |migrated|
  {
    if |migrated| == 0 then Rollback(w, false, [], 0)
    else
      var last := |migrated| - 1;
      var (after, signal) := RollbackOne(w, migrated[last]);
      if signal == Escaped then Rollback(after, true, [], |migrated|)
      else
        var rest := RollbackEach(after, migrated[..last]);
        if signal == Fine then rest else rest.(unresolved := [migrated[last].user] + rest.unresolved)
  }

  // ----- The saga -----

  datatype Outcome = Returned(code: int) | Raised

  datatype Finish = Finish(world: World, outcome: Outcome, unresolved: seq<User>, migrated: seq<Target>)

  /** Everything from the first preflight on; a caught exception starts the compensation. */
  function RunTargets(w: World, targets: seq<Target>): Finish
    requires forall t :: t in targets ==> t.user in w.containers
  {
    var (checked, signal) := PreflightAll(w, targets);
    if signal == Escaped then Finish(checked, Raised, [], [])
    else if signal == Caught then Finish(checked, Returned(2), [], [])
    else
      PreflightAllKeeps(w, targets);
      var p := UpgradeEach(checked, targets);
      UpgradeEachKeeps(checked, targets);
      var migrated := targets[..p.migrated];
      if p.signal == Escaped then Finish(p.world, Raised, [], migrated)
      else if p.signal == Caught then Compensated(p.world, migrated)
      else
        RestartOrderMembers(migrated);
        var (started, end) := StartEach(p.world, RestartOrder(migrated), false);
        if end == Escaped then Finish(started, Raised, [], migrated)
        else if end == Caught then Compensated(started, migrated)
        else Finish(started, Returned(0), [], migrated)
  }

  /** An exception out of the compensation takes its list of users with it. */
  function Compensated(w: World, migrated: seq<Target>): Finish {
    var back := RollbackEach(w, migrated);
    if back.escaped then Finish(back.world, Raised, [], migrated)
    else Finish(back.world, Returned(2), back.unresolved, migrated)
  }

  predicate ActiveOperations(operations: map<OperationKey, OperationStatus>) {
    exists key :: key in operations && operations[key] in {PendingApproval, Approved, Running}
  }

  predicate Known(rows: seq<User>, managed: map<User, Managed>, containers: map<User, Container>) {
    forall u :: u in rows ==> u in managed && u in containers
  }

  /** `upgrade_all_containers_to_gpu` */
  function Saga(w: World, approved: bool, ownerPresent: bool, rows: seq<User>, managed: map<User, Managed>, now: int)
    : Finish
    requires Known(rows, managed, w.containers)
  {
    if !approved || !ownerPresent || ActiveOperations(w.operations) || |rows| == 0 then Finish(w, Returned(2), [], [])
    else
      var targets := Targets(rows, managed, w.containers, now);
      if targets.None? then Finish(w, Returned(2), [], [])
      else
        TargetsKnown(rows, managed, w.containers, now);
        RunTargets(w, targets.value)
  }

  // ----- Small facts about the steps -----

  lemma {:induction false} PreflightAllKeeps(w: World, targets: seq<Target>)
    ensures PreflightAll(w, targets).0.containers == w.containers
    ensures !LastMalformed(w.log) ==> (PreflightAll(w, targets).1 == Escaped <==>
                                       LastMalformed(PreflightAll(w, targets).0.log))
    decreases |targets|
  {
    if |targets| > 0 {
      PreflightAllKeeps(PreflightOne(w, targets[0]).0, targets[1..]);
    }
  }

  lemma UpgradeOneKeeps(w: World, t: Target)
    requires t.user in w.containers
    ensures var (after, signal) := UpgradeOne(w, t);
            && after.containers == (if signal != Fine then w.containers
                                    else w.containers[t.user := UpgradedContainer(w.containers[t.user])])
            && (signal == Escaped <==> LastMalformed(after.log))
            && (signal == Fine ==> UpgradeOf(t.user) in after.operations)
            && (forall key :: key in w.operations ==> key in after.operations)
  {
  }

  lemma UpgradeEachFirst(w: World, targets: seq<Target>)
    requires |targets| > 0 && (forall t :: t in targets ==> t.user in w.containers)
    requires UpgradeOne(w, targets[0]).1 == Fine && UpgradeOne(w, targets[0]).0.containers.Keys == w.containers.Keys
    ensures var rest := UpgradeEach(UpgradeOne(w, targets[0]).0, targets[1..]);
            UpgradeEach(w, targets) == rest.(migrated := rest.migrated + 1)
  {
  }

  /** The upgrades commit a prefix of the targets and touch nothing else. */
  lemma {:induction false} UpgradeEachKeeps(w: World, targets: seq<Target>)
    requires forall t :: t in targets ==> t.user in w.containers
    ensures var p := UpgradeEach(w, targets);
            && p.migrated <= |targets| && (p.signal == Fine ==> p.migrated == |targets|)
            && p.world.containers.Keys == w.containers.Keys
            && (forall key :: key in w.operations ==> key in p.world.operations)
            && (forall k :: 0 <= k < p.migrated ==> UpgradeOf(targets[k].user) in p.world.operations)
            && (!LastMalformed(w.log) ==> (p.signal == Escaped <==> LastMalformed(p.world.log)))
    decreases |targets|
  {
    if |targets| > 0 {
      UpgradeOneKeeps(w, targets[0]);
      var (after, signal) := UpgradeOne(w, targets[0]);
      if signal == Fine {
        UpgradeEachKeeps(after, targets[1..]);
        UpgradeEachFirst(w, targets);
      } else {
        assert UpgradeEach(w, targets) == Progress(after, signal, 0);
      }
    }
  }

  lemma {:induction false} InsertMembers(t: Target, sorted: seq<Target>)
    ensures forall x :: x in InsertByExpiry(t, sorted) <==> x == t || x in sorted
  {
    if |sorted| > 0 && t.expiresAt > sorted[0].expiresAt {
      InsertMembers(t, sorted[1..]);
      assert sorted == [sorted[0]] + sorted[1..];
    }
  }

  lemma {:induction false} RestartOrderMembers(targets: seq<Target>)
    ensures forall x :: x in RestartOrder(targets) <==> x in targets && x.wasRunning && x.active
  {
    if |targets| > 0 {
      RestartOrderMembers(targets[1..]);
      assert targets == [targets[0]] + targets[1..];
      InsertMembers(targets[0], RestartOrder(targets[1..]));
    }
  }

  lemma {:induction false} TargetsKnown(rows: seq<User>, managed: map<User, Managed>,
                                        containers: map<User, Container>, now: int)
    requires Known(rows, managed, containers)
    ensures var targets := Targets(rows, managed, containers, now);
            targets.Some? ==> forall t :: t in targets.value ==> t.user in rows && t.user in containers
  {
    if |rows| > 0 {
      TargetsKnown(rows[1..], managed, containers, now);
    }
  }
}
