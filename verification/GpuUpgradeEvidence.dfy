/** What the GPU upgrade rests on and what it records: which containers it takes, in which order it starts them, which
    answers make it succeed or restore, and what its operations tell the next batch. */
module GpuUpgradeEvidence {
  import opened Options
  import opened GpuUpgrade
  import opened GpuUpgradeProofs
  import opened GpuUpgradeReplies
  import opened GpuUpgradeTraces

  // ----- The containers taken -----

  /** The baseline of the migration. */
  ghost predicate InBaseline(m: Managed, c: Container, now: int) {
    && c.profile == "STANDARD_8CPU_32GB" && c.gpuCount == 0 && c.job == None && c.uuid == None
    && (m.environment == "ACTIVE" || m.environment == "RECYCLED")
    && (c.observed == "STOPPED" || (c.observed == "RUNNING" && m.environment == "ACTIVE"))
    && c.desired == c.observed && m.slurmAccount == "company" && m.slurmQos == "general" && |m.keys| > 0
    && m.lease.Some? && m.lease.value.gpuCount == 1
    && (m.environment == "ACTIVE" ==> now < m.lease.value.expiresAt)
  }

  /** A batch is taken exactly when every container not yet on the GPU profile is in the baseline. */
  lemma {:induction false} TakenExactly(rows: seq<User>, managed: map<User, Managed>, containers: map<User, Container>,
                                        now: int)
    requires Known(rows, managed, containers)
    ensures Targets(rows, managed, containers, now).Some? <==>
            forall u :: u in rows ==>
              containers[u].profile == "GPU_1_8CPU_32GB" || InBaseline(managed[u], containers[u], now)
    decreases |rows|
  {
    if |rows| > 0 {
      TakenExactly(rows[1..], managed, containers, now);
      EligibleIsBaseline(managed[rows[0]], containers[rows[0]], now);
      assert forall u :: u in rows <==> u == rows[0] || u in rows[1..];
    }
  }

  lemma EligibleIsBaseline(m: Managed, c: Container, now: int)
    ensures Eligible(m, c, now) <==> InBaseline(m, c, now)
  {
  }

  /** A target remembers what its container, identity and lease were. */
  ghost predicate Remembers(t: Target, m: Managed, c: Container) {
    && (t.wasRunning <==> c.observed == "RUNNING") && t.originalSpec == c.safeSpec
    && m.lease.Some? && t.expiresAt == m.lease.value.expiresAt && (t.active <==> m.environment == "ACTIVE")
  }

  lemma {:induction false} TargetsRemember(rows: seq<User>, managed: map<User, Managed>,
                                           containers: map<User, Container>, now: int)
    requires Known(rows, managed, containers) && Targets(rows, managed, containers, now).Some?
    ensures forall t :: t in Targets(rows, managed, containers, now).value ==>
              t.user in managed && t.user in containers && Remembers(t, managed[t.user], containers[t.user])
    decreases |rows|
  {
    if |rows| > 0 {
      TargetsRemember(rows[1..], managed, containers, now);
    }
  }

  // ----- The order of the starts -----

  function Restartable(targets: seq<Target>): seq<Target> {
    if |targets| == 0 then []
    else (if targets[0].wasRunning && targets[0].active then [targets[0]] else []) + Restartable(targets[1..])
  }

  function OfExpiry(targets: seq<Target>, e: int): seq<Target> {
    if |targets| == 0 then []
    else (if targets[0].expiresAt == e then [targets[0]] else []) + OfExpiry(targets[1..], e)
  }

  ghost predicate ByExpiry(order: seq<Target>) {
    forall i, j :: 0 <= i < j < |order| ==> order[i].expiresAt <= order[j].expiresAt
  }

  lemma {:induction false} InsertIsByExpiry(t: Target, sorted: seq<Target>)
    requires ByExpiry(sorted)
    ensures ByExpiry(InsertByExpiry(t, sorted))
  {
    InsertMembers(t, sorted);
    if |sorted| > 0 && t.expiresAt > sorted[0].expiresAt {
      var rest := sorted[1..];
      InsertIsByExpiry(t, rest);
      InsertMembers(t, rest);
      var next := InsertByExpiry(t, rest);
      forall x | x in next ensures sorted[0].expiresAt <= x.expiresAt {
      }
      forall j | 0 <= j < |next| ensures sorted[0].expiresAt <= next[j].expiresAt {
        assert next[j] in next;
      }
    }
  }

  lemma OfExpiryFirst(t: Target, rest: seq<Target>, e: int)
    ensures OfExpiry([t] + rest, e) == (if t.expiresAt == e then [t] else []) + OfExpiry(rest, e)
  {
    assert ([t] + rest)[1..] == rest;
  }

  lemma {:induction false} InsertKeepsTies(t: Target, sorted: seq<Target>, e: int)
    requires ByExpiry(sorted)
    ensures OfExpiry(InsertByExpiry(t, sorted), e) == (if t.expiresAt == e then [t] else []) + OfExpiry(sorted, e)
  {
    if |sorted| == 0 || t.expiresAt <= sorted[0].expiresAt {
      OfExpiryFirst(t, sorted, e);
    } else {
      var first, rest := sorted[0], sorted[1..];
      assert sorted == [first] + rest;
      InsertKeepsTies(t, rest, e);
      OfExpiryFirst(first, rest, e);
      OfExpiryFirst(first, InsertByExpiry(t, rest), e);
      if t.expiresAt == e {
        assert [] + OfExpiry(rest, e) == OfExpiry(rest, e);
      } else {
        assert [] + OfExpiry(rest, e) == OfExpiry(rest, e) && [] + OfExpiry(sorted, e) == OfExpiry(sorted, e);
      }
    }
  }

  /** The starts go by the expiry of the lease, equal ones in the order of the targets. */
  lemma {:induction false} RestartsByExpiry(targets: seq<Target>, e: int)
    ensures ByExpiry(RestartOrder(targets))
    ensures OfExpiry(RestartOrder(targets), e) == OfExpiry(Restartable(targets), e)
  {
    if |targets| > 0 {
      var t, rest := targets[0], targets[1..];
      RestartsByExpiry(rest, e);
      if t.wasRunning && t.active {
        InsertIsByExpiry(t, RestartOrder(rest));
        InsertKeepsTies(t, RestartOrder(rest), e);
        assert ([t] + Restartable(rest))[1..] == Restartable(rest);
      } else {
        assert [] + Restartable(rest) == Restartable(rest);
      }
    }
  }

  // ----- What success rests on -----

  predicate GoodPreflight(r: Reply) {
    && r.Reply? && r.status == "DRY_RUN"
    && (r.upgradeStatus == Text("READY") || r.upgradeStatus == Text("ALREADY_APPLIED"))
  }

  predicate GoodUpgrade(r: Reply) {
    && r.Reply? && r.status == "SUCCEEDED" && r.profile == "GPU_1_8CPU_32GB" && r.containerState == "STOPPED"
    && r.job == None && r.uuid == None && r.backup.Some?
  }

  predicate GoodStart(r: Reply) {
    && r.Reply? && r.status == "SUCCEEDED" && r.containerState == "RUNNING" && r.containerGpu == "NONE"
    && r.job == None && r.uuid == None
  }

  predicate GoodRestore(r: Reply) {
    r.Reply? && r.status == "SUCCEEDED" && r.profile == "STANDARD_8CPU_32GB"
  }

  /** Every operation is free, and every reply good where it is read: a dry run for each target, a dry run and an
      upgrade for each, a start for each to be started. */
  ghost predicate AllGood(w: World, targets: seq<Target>) {
    var n, order := |targets|, RestartOrder(targets);
    && (forall k :: 0 <= k < n ==> StatusOf(w, UpgradeOf(targets[k].user)) in {Draft, FailedOperation})
    && (forall k :: 0 <= k < n ==> GoodPreflight(ReplyAt(w.script, k)))
    && (forall k: nat :: k < n ==> GoodPair(Later(w.script, n), k))
    && (forall j :: 0 <= j < |order| ==> StartOf(order[j].user) !in w.operations)
    && (forall j :: 0 <= j < |order| ==> GoodStart(ReplyAt(Later(w.script, 3 * n), j)))
  }

  predicate GoodPair(script: seq<Reply>, k: nat) {
    GoodPreflight(ReplyAt(script, 2 * k)) && GoodUpgrade(ReplyAt(script, 2 * k + 1))
  }

  ghost predicate StartsPass(w: World, order: seq<Target>) {
    && (forall j :: 0 <= j < |order| ==> StartOf(order[j].user) !in w.operations)
    && (forall j :: 0 <= j < |order| ==> GoodStart(ReplyAt(w.script, j)))
  }

  lemma StartsPassLater(w: World, next: World, order: seq<Target>)
    requires WentOn(w, next, order)
    ensures StartsPass(w, order) <==> GoodStart(ReplyAt(w.script, 0)) && StartsPass(next, order[1..])
  {
    OneLater(w, next, order);
    var rest := order[1..];
    if GoodStart(ReplyAt(w.script, 0)) && StartsPass(next, rest) {
      forall j | 0 <= j < |order|
        ensures StartOf(order[j].user) !in w.operations && GoodStart(ReplyAt(w.script, j))
      {
        assert j > 0 ==> StartOf(rest[j - 1].user) !in next.operations;
        assert j > 0 ==> ReplyAt(next.script, j - 1) == ReplyAt(w.script, j);
      }
    }
    if StartsPass(w, order) {
      forall j | 0 <= j < |rest|
        ensures StartOf(rest[j].user) !in next.operations && GoodStart(ReplyAt(next.script, j))
      {
        assert ReplyAt(next.script, j) == ReplyAt(w.script, j + 1);
      }
    }
  }

  lemma {:induction false} StartsPassExactly(w: World, order: seq<Target>, stopped: bool)
    requires (forall t :: t in order ==> t.user in w.containers) && DistinctUsers(order)
    ensures StartEach(w, order, stopped).1 == Fine <==> !stopped && StartsPass(w, order)
    decreases |order|
  {
    if |order| > 0 {
      StartOneKeeps(w, order[0]);
      var (next, signal, left) := StartOne(w, order[0]);
      if signal == Fine {
        assert next.script == Later(w.script, 1);
        StartsPassExactly(next, order[1..], stopped || left);
        StartsPassLater(w, next, order);
      } else {
        assert !(StartOf(order[0].user) !in w.operations && GoodStart(ReplyAt(w.script, 0)));
      }
    }
  }

  /** The saga's main part succeeds exactly when everything is good. */
  lemma MainFineExactly(w: World, targets: seq<Target>)
    requires DistinctUsers(targets) && forall t :: t in targets ==> t.user in w.containers
    ensures Main(w, targets).signal == Fine <==> AllGood(w, targets)
  {
    PreflightScript(w, targets);
    var (checked, signal) := PreflightAll(w, targets);
    if signal == Fine {
      PreflightAllKeeps(w, targets);
      UpgradeScript(checked, targets);
      var p := UpgradeEach(checked, targets);
      EndsExactly(Later(w.script, |targets|), |targets|, p, 0);
      PairsAreGood(Later(w.script, |targets|), |targets|);
      if p.signal == Fine {
        UpgradeEachKeeps(checked, targets);
        RestartOrderMembers(targets);
        RestartsAreDistinct(targets);
        FineIsUpgraded(w, targets, p);
        StartsPassExactly(p.world, RestartOrder(targets), false);
      }
    }
  }

  lemma PairsAreGood(script: seq<Reply>, n: nat)
    ensures AllApply(script, n) <==> forall k: nat :: k < n ==> GoodPair(script, k)
  {
    forall k: nat ensures PairApplies(script, k) <==> GoodPair(script, k) {
    }
  }

  /** Code 0 comes exactly of a permitted batch in the baseline whose replies are good one and all. */
  lemma SucceedsExactly(w: World, approved: bool, ownerPresent: bool, rows: seq<User>, managed: map<User, Managed>,
                        now: int)
    requires Known(rows, managed, w.containers) && DistinctRows(rows)
    ensures var targets := Targets(rows, managed, w.containers, now);
            Saga(w, approved, ownerPresent, rows, managed, now).outcome == Returned(0) <==>
            Begins(w, approved, ownerPresent, rows) && targets.Some? && AllGood(w, targets.value)
  {
    var targets := Targets(rows, managed, w.containers, now);
    if Begins(w, approved, ownerPresent, rows) && targets.Some? {
      TargetsTaken(rows, managed, w.containers, now);
      TargetsKnown(rows, managed, w.containers, now);
      RunIsMain(w, targets.value);
      MainFineExactly(w, targets.value);
    }
  }

  // ----- What the compensation rests on -----

  ghost predicate Recorded(w: World, migrated: seq<Target>) {
    forall k :: 0 <= k < |migrated| ==> UpgradeOf(migrated[k].user) in w.operations
  }

  lemma RestoreDecides(w: World, t: Target)
    requires t.user in w.containers && w.containers[t.user].job.None? && UpgradeOf(t.user) in w.operations
    ensures var (after, signal) := RollbackOne(w, t);
            && (signal == Fine <==> GoodRestore(ReplyAt(w.script, 0)))
            && (signal == Fine ==> after.operations == w.operations[UpgradeOf(t.user) := RolledBack])
            && (signal != Fine ==> after.operations == w.operations)
  {
  }

  /** What the compensation asks of the Worker for one container: to give up an allocation, where one is held, and only
      if that went well, to restore the container. A container that is gone is reported without a call, and one whose
      stop went wrong is reported as it is. */
  lemma RollbackOneCalls(w: World, t: Target)
    ensures var (after, signal) := RollbackOne(w, t);
            var first := Call(if Allocated(w, t) then Stop else Restore, ReplyAt(w.script, 0));
            && (t.user !in w.containers ==> signal == Caught && after == w)
            && (t.user in w.containers && !(Allocated(w, t) && GoodStop(ReplyAt(w.script, 0))) ==>
                  && after.log == w.log + [first]
                  && (Allocated(w, t) ==> signal != Fine && after.containers == w.containers))
            && (t.user in w.containers && Allocated(w, t) && GoodStop(ReplyAt(w.script, 0)) ==>
                  after.log == w.log + [first] + [Call(Restore, ReplyAt(w.script, 1))])
  {
  }

  predicate Allocated(w: World, t: Target) {
    t.user in w.containers && w.containers[t.user].job.Some?
  }

  predicate GoodStop(r: Reply) {
    r.Reply? && r.status == "SUCCEEDED" && r.containerState == "STOPPED" && r.job == None && r.uuid == None
  }

  /** A migrated container is reported exactly when the reply to its restore is not good, and its operation is rolled
      back otherwise; replies are read latest container first. */
  ghost predicate ReportedExactly(w: World, migrated: seq<Target>, back: Rollback) {
    forall k: nat :: k < |migrated| ==> ReportedAt(w, migrated, back, k)
  }

  ghost predicate ReportedAt(w: World, migrated: seq<Target>, back: Rollback, k: nat)
    requires k < |migrated|
  {
    var u := migrated[|migrated| - 1 - k].user;
    && (u in back.unresolved <==> !GoodRestore(ReplyAt(w.script, k)))
    && UpgradeOf(u) in back.world.operations
    && (u !in back.unresolved ==> back.world.operations[UpgradeOf(u)] == RolledBack)
  }

  lemma {:induction false} RollbackKeepsOthers(w: World, migrated: seq<Target>, key: OperationKey)
    requires key in w.operations && forall t :: t in migrated ==> key != UpgradeOf(t.user)
    ensures key in RollbackEach(w, migrated).world.operations
    ensures RollbackEach(w, migrated).world.operations[key] == w.operations[key]
    decreases |migrated|
  {
    if |migrated| > 0 {
      var t := migrated[|migrated| - 1];
      RollbackOneKeepsOthers(w, t, key);
      var (after, signal) := RollbackOne(w, t);
      if signal != Escaped {
        RollbackKeepsOthers(after, migrated[..|migrated| - 1], key);
      }
    }
  }

  lemma RollbackOneKeepsOthers(w: World, t: Target, key: OperationKey)
    requires key in w.operations && key != UpgradeOf(t.user)
    ensures key in RollbackOne(w, t).0.operations && RollbackOne(w, t).0.operations[key] == w.operations[key]
  {
  }

  lemma {:induction false} RollbackReports(w: World, migrated: seq<Target>)
    requires WithoutJobs(w.containers, migrated) && DistinctUsers(migrated) && Recorded(w, migrated)
    requires !RollbackEach(w, migrated).escaped
    ensures ReportedExactly(w, migrated, RollbackEach(w, migrated))
    decreases |migrated|
  {
    if |migrated| > 0 {
      var last := |migrated| - 1;
      var t, front := migrated[last], migrated[..last];
      RollbackOneScript(w, t);
      RestoreDecides(w, t);
      var (after, signal) := RollbackOne(w, t);
      forall k | 0 <= k < last ensures front[k].user != t.user && after.containers[front[k].user].job.None? {
        assert front[k] == migrated[k] && w.containers[migrated[k].user].job.None?;
      }
      RollbackReports(after, front);
      RollbackEachRestores(after, front);
      RollbackKeepsOthers(after, front, UpgradeOf(t.user));
      LastReported(w, after, migrated, signal == Fine, RollbackEach(after, front));
    }
  }

  lemma LastReported(w: World, after: World, migrated: seq<Target>, ok: bool, back: Rollback)
    requires |migrated| > 0 && DistinctUsers(migrated) && after.script == Later(w.script, 1)
    requires ReportedExactly(after, migrated[..|migrated| - 1], back)
    requires forall u :: u in back.unresolved ==> IsUserOf(migrated[..|migrated| - 1], u)
    requires ok <==> GoodRestore(ReplyAt(w.script, 0))
    requires var key := UpgradeOf(migrated[|migrated| - 1].user);
             key in back.world.operations && (ok ==> back.world.operations[key] == RolledBack)
    ensures ReportedExactly(w, migrated, if ok then back
                                         else back.(unresolved := [migrated[|migrated| - 1].user] + back.unresolved))
  {
    var t, front := migrated[|migrated| - 1], migrated[..|migrated| - 1];
    var more := if ok then back else back.(unresolved := [t.user] + back.unresolved);
    forall k: nat | k < |migrated| ensures ReportedAt(w, migrated, more, k) {
      if k == 0 {
        NotAmong(front, t.user, migrated);
      } else {
        assert ReportedAt(after, front, back, k - 1);
        EarlierReported(w, after, migrated, back, more, k);
      }
    }
  }

  lemma NotAmong(front: seq<Target>, u: User, migrated: seq<Target>)
    requires |migrated| > 0 && DistinctUsers(migrated) && front == migrated[..|migrated| - 1]
    requires u == migrated[|migrated| - 1].user
    ensures !IsUserOf(front, u)
  {
  }

  lemma EarlierReported(w: World, after: World, migrated: seq<Target>, back: Rollback, more: Rollback, k: nat)
    requires 0 < k < |migrated| && DistinctUsers(migrated) && after.script == Later(w.script, 1)
    requires ReportedAt(after, migrated[..|migrated| - 1], back, k - 1) && more.world == back.world
    requires more.unresolved == back.unresolved
             || more.unresolved == [migrated[|migrated| - 1].user] + back.unresolved
    ensures ReportedAt(w, migrated, more, k)
  {
    LaterAt(w.script, 1, k - 1);
    var u := migrated[|migrated| - 1 - k].user;
    assert u != migrated[|migrated| - 1].user;
    assert u in more.unresolved <==> u in back.unresolved;
  }

  // ----- What is recorded -----

  /** What the two replies of an upgrade leave as the status of its operation: failed where either refuses, running
      where the upgrade has begun and its outcome is not known, and as before where nothing has begun. */
  function StatusAfter(before: OperationStatus, preflight: Reply, upgrade: Reply): OperationStatus {
    if !preflight.Reply? || PreflightRaises(preflight) then before
    else if !GoodPreflight(preflight) then FailedOperation
    else if GoodUpgrade(upgrade) then Succeeded
    else if !upgrade.Reply? || UpgradeRaises(upgrade) then Running
    else FailedOperation
  }

  lemma UpgradeOneRecords(w: World, t: Target)
    requires t.user in w.containers
    ensures var (after, signal) := UpgradeOne(w, t);
            && (forall key :: key in w.operations && key != UpgradeOf(t.user) ==>
                  key in after.operations && after.operations[key] == w.operations[key])
            && (signal == Fine ==> Succeeds(after.operations, UpgradeOf(t.user)))
            && StatusOf(after, UpgradeOf(t.user))
               == StatusAfter(StatusOf(w, UpgradeOf(t.user)), ReplyAt(w.script, 0), ReplyAt(w.script, 1))
  {
    assert Answer(Called(w, Preflight)) == ReplyAt(w.script, 1);
  }

  /** The batch preflight records a refusal as failed and a pass as a draft. */
  lemma PreflightOneRecords(w: World, t: Target)
    ensures var (after, signal) := PreflightOne(w, t);
            StatusOf(after, UpgradeOf(t.user))
            == if StatusOf(w, UpgradeOf(t.user)) !in {Draft, FailedOperation} || !Answer(w).Reply?
                  || PreflightRaises(Answer(w)) then StatusOf(w, UpgradeOf(t.user))
               else if GoodPreflight(Answer(w)) then Draft else FailedOperation
  {
  }

  ghost predicate Succeeds(operations: map<OperationKey, OperationStatus>, key: OperationKey) {
    key in operations && operations[key] == Succeeded
  }

  /** Every committed upgrade is recorded as succeeded, and the other operations are as they were. */
  lemma {:induction false} UpgradesRecord(w: World, targets: seq<Target>)
    requires (forall t :: t in targets ==> t.user in w.containers) && DistinctUsers(targets)
    ensures var p := UpgradeEach(w, targets);
            && p.migrated <= |targets|
            && (forall k :: 0 <= k < p.migrated ==> Succeeds(p.world.operations, UpgradeOf(targets[k].user)))
            && (forall key :: key in w.operations && (forall t :: t in targets ==> key != UpgradeOf(t.user)) ==>
                  key in p.world.operations && p.world.operations[key] == w.operations[key])
    decreases |targets|
  {
    if |targets| > 0 {
      var t, rest := targets[0], targets[1..];
      UpgradeOneKeeps(w, t);
      UpgradeOneRecords(w, t);
      var (after, signal) := UpgradeOne(w, t);
      if signal == Fine {
        UpgradesRecord(after, rest);
        UpgradeEachFirst(w, targets);
        forall x | x in rest ensures UpgradeOf(x.user) != UpgradeOf(t.user) {
          var k :| 0 <= k < |rest| && rest[k] == x;
          assert targets[k + 1] == x && targets[0] == t;
        }
        forall k | 0 < k <= UpgradeEach(after, rest).migrated ensures targets[k] == rest[k - 1] {
        }
      } else {
        assert UpgradeEach(w, targets) == Progress(after, signal, 0);
      }
    }
  }

  lemma StartOneRecords(w: World, t: Target)
    requires t.user in w.containers
    ensures var (after, signal, left) := StartOne(w, t);
            && (forall key :: key in w.operations ==>
                  key in after.operations && (key == StartOf(t.user) || after.operations[key] == w.operations[key]))
            && (signal == Fine && !left ==> Succeeds(after.operations, StartOf(t.user)))
            && (StartOf(t.user) !in w.operations ==>
                  StatusOf(after, StartOf(t.user))
                  == if GoodStart(Answer(w)) then Succeeded
                     else if Answer(w).Reply? && !StartRaises(Answer(w)) then FailedOperation else Running)
  {
  }

  lemma {:induction false} StartsRecord(w: World, order: seq<Target>, stopped: bool)
    requires (forall t :: t in order ==> t.user in w.containers) && DistinctUsers(order)
    ensures var (after, signal) := StartEach(w, order, stopped);
            && (forall key :: key in w.operations && !key.StartOf? ==>
                  key in after.operations && after.operations[key] == w.operations[key])
            && (forall key :: key in w.operations && (forall t :: t in order ==> key != StartOf(t.user)) ==>
                  key in after.operations && after.operations[key] == w.operations[key])
            && (signal == Fine ==> forall t :: t in order ==> Succeeds(after.operations, StartOf(t.user)))
    decreases |order|
  {
    if |order| > 0 {
      var t, rest := order[0], order[1..];
      StartOneKeeps(w, t);
      StartOneRecords(w, t);
      var (after, signal, left) := StartOne(w, t);
      if signal == Fine {
        StartsRecord(after, rest, stopped || left);
        StartsEndLeft(after, rest, stopped || left);
        forall x | x in rest ensures StartOf(x.user) != StartOf(t.user) {
          var k :| 0 <= k < |rest| && rest[k] == x;
          assert order[k + 1] == x && order[0] == t;
        }
      }
    }
  }

  /** A container left stopped keeps the starts from ending well. */
  lemma {:induction false} StartsEndLeft(w: World, order: seq<Target>, stopped: bool)
    requires forall t :: t in order ==> t.user in w.containers
    ensures stopped ==> StartEach(w, order, stopped).1 != Fine
    decreases |order|
  {
    if |order| > 0 {
      StartOneKeeps(w, order[0]);
      var (after, signal, left) := StartOne(w, order[0]);
      if signal == Fine {
        StartsEndLeft(after, order[1..], stopped || left);
      }
    }
  }

  /** After code 0 every upgrade is recorded as succeeded, and so is the start of every container that was running. */
  lemma SuccessIsRecorded(w: World, approved: bool, ownerPresent: bool, rows: seq<User>, managed: map<User, Managed>,
                          now: int, u: User)
    requires Known(rows, managed, w.containers) && DistinctRows(rows)
    requires Saga(w, approved, ownerPresent, rows, managed, now).outcome == Returned(0)
    requires u in rows && w.containers[u].profile != GPU_PROFILE
    ensures var operations := Saga(w, approved, ownerPresent, rows, managed, now).world.operations;
            && Succeeds(operations, UpgradeOf(u))
            && (w.containers[u].observed == "RUNNING" ==> Succeeds(operations, StartOf(u)))
  {
    var targets := Targets(rows, managed, w.containers, now).value;
    TargetsTaken(rows, managed, w.containers, now);
    TargetsKnown(rows, managed, w.containers, now);
    TargetsAreRows(rows, managed, w.containers, now, u);
    var k :| 0 <= k < |targets| && targets[k].user == u;
    assert TakenFrom(targets[k], w.containers[u]);
    RunIsMain(w, targets);
    MainRecords(w, targets, k);
    assert "RUNNING"[0] != "STOPPED"[0];
  }

  lemma MainRecords(w: World, targets: seq<Target>, k: nat)
    requires DistinctUsers(targets) && (forall t :: t in targets ==> t.user in w.containers) && k < |targets|
    requires Main(w, targets).signal == Fine
    ensures Succeeds(Main(w, targets).world.operations, UpgradeOf(targets[k].user))
    ensures targets[k].wasRunning && targets[k].active ==>
              Succeeds(Main(w, targets).world.operations, StartOf(targets[k].user))
  {
    PreflightAllKeeps(w, targets);
    var (checked, signal) := PreflightAll(w, targets);
    UpgradesRecord(checked, targets);
    UpgradeEachKeeps(checked, targets);
    RestartOrderMembers(targets);
    RestartsAreDistinct(targets);
    StartsRecord(UpgradeEach(checked, targets).world, RestartOrder(targets), false);
  }

  /** When the compensation begins, every migrated container has its operation. */
  lemma MainHasRecords(w: World, targets: seq<Target>)
    requires DistinctUsers(targets) && forall t :: t in targets ==> t.user in w.containers
    ensures var p := Main(w, targets); p.migrated <= |targets| && Recorded(p.world, targets[..p.migrated])
  {
    PreflightAllKeeps(w, targets);
    var (checked, signal) := PreflightAll(w, targets);
    if signal == Fine {
      UpgradeEachKeeps(checked, targets);
      var p := UpgradeEach(checked, targets);
      if p.signal == Fine {
        RestartOrderMembers(targets);
        StartEachKeeps(p.world, RestartOrder(targets), false);
      }
    }
  }

  lemma CaughtAndCompensated(w: World, targets: seq<Target>, m: nat, p: nat)
    requires DistinctUsers(targets) && forall t :: t in targets ==> t.user in w.containers
    requires 0 < m && CaughtAfter(w, targets, m, p) && !SomeRollbackRaises(Later(w.script, p), m)
    ensures m <= |targets| && Main(w, targets).world.script == Later(w.script, p)
    ensures var back := RollbackEach(Main(w, targets).world, targets[..m]);
            && RunTargets(w, targets) == Finish(back.world, Returned(2), back.unresolved, targets[..m])
            && ReportedExactly(Main(w, targets).world, targets[..m], back)
  {
    var caught := Main(w, targets).world;
    CaughtRun(w, targets, m, p);
    MainHasRecords(w, targets);
    MainScript(w, targets, m);
    assert SomeCaught(w, targets, m);
    RollbackScript(caught, targets[..m]);
    RollbackReports(caught, targets[..m]);
  }

  /** After a failure that is caught, `m` upgrades committed and `p` replies read: if none of the next `m` replies
      raises, a container is reported exactly when the reply to its restore is not good, latest container first, and
      the operations of the others are rolled back. */
  lemma CompensationReports(w: World, targets: seq<Target>, m: nat, p: nat, k: nat)
    requires DistinctUsers(targets) && forall t :: t in targets ==> t.user in w.containers
    requires CaughtAfter(w, targets, m, p) && !SomeRollbackRaises(Later(w.script, p), m) && k < m
    ensures var f := RunTargets(w, targets);
            && f.outcome == Returned(2) && m <= |targets|
            && var u := targets[m - 1 - k].user;
               && (u in f.unresolved <==> !GoodRestore(ReplyAt(Later(w.script, p), k)))
               && (u !in f.unresolved ==> UpgradeOf(u) in f.world.operations
                                          && f.world.operations[UpgradeOf(u)] == RolledBack)
  {
    CaughtAndCompensated(w, targets, m, p);
    var caught := Main(w, targets).world;
    ReportedInRun(caught, targets, m, RollbackEach(caught, targets[..m]), k);
  }

  lemma ReportedInRun(caught: World, targets: seq<Target>, m: nat, back: Rollback, k: nat)
    requires k < m <= |targets| && ReportedExactly(caught, targets[..m], back)
    ensures var u := targets[m - 1 - k].user;
            && (u in back.unresolved <==> !GoodRestore(ReplyAt(caught.script, k)))
            && (u !in back.unresolved ==> UpgradeOf(u) in back.world.operations
                                          && back.world.operations[UpgradeOf(u)] == RolledBack)
  {
    assert ReportedAt(caught, targets[..m], back, k);
  }

  // ----- What the next batch makes of it -----

  /** A container whose operation is neither a draft nor failed, because an earlier batch was rolled back, makes every
      batch that takes it fail, and no container changes. */
  lemma RolledBackRefuses(w: World, approved: bool, ownerPresent: bool, rows: seq<User>, managed: map<User, Managed>,
                          now: int, u: User)
    requires Known(rows, managed, w.containers) && DistinctRows(rows)
    requires u in rows && w.containers[u].profile != GPU_PROFILE
    requires UpgradeOf(u) in w.operations && w.operations[UpgradeOf(u)] == RolledBack
    ensures var f := Saga(w, approved, ownerPresent, rows, managed, now);
            f.outcome != Returned(0) && f.world.containers == w.containers && f.migrated == []
  {
    var targets := Targets(rows, managed, w.containers, now);
    if Begins(w, approved, ownerPresent, rows) && targets.Some? {
      TargetsTaken(rows, managed, w.containers, now);
      TargetsKnown(rows, managed, w.containers, now);
      TargetsAreRows(rows, managed, w.containers, now, u);
      var k :| 0 <= k < |targets.value| && targets.value[k].user == u;
      assert !Admissible(w, targets.value[k]);
      PreflightScript(w, targets.value);
      PreflightAllKeeps(w, targets.value);
    }
  }

  /** The upgrade call of the `m`-th target is not answered, or with something too deep to be read. */
  ghost predicate Unanswered(script: seq<Reply>, m: nat) {
    && GoodPreflight(ReplyAt(script, 2 * m))
    && (ReplyAt(script, 2 * m + 1).NoReply? || ReplyAt(script, 2 * m + 1).TooDeep?)
  }

  lemma {:induction false} UnansweredIsLeftRunning(w: World, targets: seq<Target>, m: nat)
    requires (forall t :: t in targets ==> t.user in w.containers) && m < |targets|
    requires AllApply(w.script, m) && Unanswered(w.script, m)
    ensures var p := UpgradeEach(w, targets);
            && p.signal == Caught && p.migrated == m && UpgradeOf(targets[m].user) in p.world.operations
            && p.world.operations[UpgradeOf(targets[m].user)] == Running
    decreases |targets|
  {
    UpgradeOneScript(w, targets[0]);
    UpgradeOneKeeps(w, targets[0]);
    var (next, signal) := UpgradeOne(w, targets[0]);
    if m == 0 {
      UnansweredOne(w, targets[0]);
      assert UpgradeEach(w, targets) == Progress(next, signal, 0);
    } else {
      assert PairApplies(w.script, 0);
      UnansweredLater(w.script, m);
      UnansweredIsLeftRunning(next, targets[1..], m - 1);
      UpgradeEachFirst(w, targets);
    }
  }

  lemma UnansweredLater(script: seq<Reply>, m: nat)
    requires m > 0 && AllApply(script, m) && Unanswered(script, m)
    ensures AllApply(Later(script, 2), m - 1) && Unanswered(Later(script, 2), m - 1)
  {
    forall k: nat | k < m - 1 ensures PairApplies(Later(script, 2), k) {
      PairLater(script, k);
      assert PairApplies(script, k + 1);
    }
    LaterAt(script, 2, 2 * (m - 1));
    LaterAt(script, 2, 2 * (m - 1) + 1);
  }

  lemma UnansweredOne(w: World, t: Target)
    requires t.user in w.containers && Unanswered(w.script, 0)
    ensures var (after, signal) := UpgradeOne(w, t);
            && signal == Caught && UpgradeOf(t.user) in after.operations
            && after.operations[UpgradeOf(t.user)] == Running
  {
    assert ReplyAt(w.script, 2 * 0) == Answer(w);
    assert ReplyAt(w.script, 2 * 0 + 1) == Answer(Called(w, Preflight));
  }

  /** An upgrade call without an answer leaves its operation running, whatever the compensation does; so every later
      batch is refused before it begins. */
  lemma UnansweredBlocks(w: World, targets: seq<Target>, m: nat, approved: bool, ownerPresent: bool, rows: seq<User>,
                         managed: map<User, Managed>, now: int)
    requires DistinctUsers(targets) && (forall t :: t in targets ==> t.user in w.containers) && m < |targets|
    requires Commits(w, targets, m) && Unanswered(Later(w.script, |targets|), m)
    requires Known(rows, managed, RunTargets(w, targets).world.containers)
    ensures var after := RunTargets(w, targets).world;
            && UpgradeOf(targets[m].user) in after.operations && after.operations[UpgradeOf(targets[m].user)] == Running
            && Saga(after, approved, ownerPresent, rows, managed, now) == Finish(after, Returned(2), [], [])
  {
    PreflightScript(w, targets);
    PreflightAllKeeps(w, targets);
    var (checked, signal) := PreflightAll(w, targets);
    UnansweredIsLeftRunning(checked, targets, m);
    UpgradeEachKeeps(checked, targets);
    var caught, key := UpgradeEach(checked, targets).world, UpgradeOf(targets[m].user);
    forall t | t in targets[..m] ensures key != UpgradeOf(t.user) {
      var k :| 0 <= k < m && targets[..m][k] == t;
      assert targets[k].user != targets[m].user;
    }
    RollbackKeepsOthers(caught, targets[..m], key);
  }
}
