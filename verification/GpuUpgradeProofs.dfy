/** Atomicity of the GPU upgrade: all, nothing, or exactly the reported rest; and the replies that break it. */
module GpuUpgradeProofs {
  import opened Options
  import opened GpuUpgrade

  ghost predicate DistinctUsers(targets: seq<Target>) {
    forall i, j :: 0 <= i < j < |targets| ==> targets[i].user != targets[j].user
  }

  ghost predicate IsUserOf(targets: seq<Target>, u: User) {
    exists k :: 0 <= k < |targets| && targets[k].user == u
  }

  /** The target was taken from this container, which met the baseline. */
  ghost predicate TakenFrom(t: Target, c: Container) {
    && c.profile == CPU_PROFILE && c.gpuCount == 0 && c.job.None? && c.uuid.None?
    && c.desired == c.observed && c.observed == (if t.wasRunning then "RUNNING" else "STOPPED")
    && (t.wasRunning ==> t.active) && t.originalSpec == c.safeSpec
  }

  ghost predicate Taken(targets: seq<Target>, containers: map<User, Container>) {
    forall k :: 0 <= k < |targets| ==>
      targets[k].user in containers && TakenFrom(targets[k], containers[targets[k].user])
  }

  // ----- Selection -----

  ghost predicate DistinctRows(rows: seq<User>) {
    forall i, j :: 0 <= i < j < |rows| ==> rows[i] != rows[j]
  }

  /** The targets are the rows that are not on the GPU profile yet. */
  lemma {:induction false} TargetsAreRows(rows: seq<User>, managed: map<User, Managed>,
                                          containers: map<User, Container>, now: int, u: User)
    requires Known(rows, managed, containers) && Targets(rows, managed, containers, now).Some?
    ensures IsUserOf(Targets(rows, managed, containers, now).value, u) <==>
            u in rows && containers[u].profile != GPU_PROFILE
    decreases |rows|
  {
    if |rows| > 0 {
      var u0, rest := rows[0], rows[1..];
      TargetsAreRows(rest, managed, containers, now, u);
      assert u in rows <==> u == u0 || u in rest;
      if containers[u0].profile != GPU_PROFILE {
        var t, before := TargetOf(u0, managed[u0], containers[u0]), Targets(rest, managed, containers, now).value;
        assert Targets(rows, managed, containers, now).value == [t] + before;
        ConsUser(t, before, u);
      }
    }
  }

  /** Each is taken from its container, which met the baseline, and no user is taken twice. */
  lemma {:induction false} TargetsTaken(rows: seq<User>, managed: map<User, Managed>,
                                        containers: map<User, Container>, now: int)
    requires Known(rows, managed, containers) && DistinctRows(rows) && Targets(rows, managed, containers, now).Some?
    ensures var targets := Targets(rows, managed, containers, now).value;
            Taken(targets, containers) && DistinctUsers(targets)
    decreases |rows|
  {
    if |rows| > 0 {
      var u0, rest := rows[0], rows[1..];
      TargetsTaken(rest, managed, containers, now);
      if containers[u0].profile != GPU_PROFILE {
        var t, before := TargetOf(u0, managed[u0], containers[u0]), Targets(rest, managed, containers, now).value;
        assert Targets(rows, managed, containers, now).value == [t] + before;
        TargetsAreRows(rest, managed, containers, now, u0);
        assert u0 !in rest;
        ConsUsers(t, before);
        assert TakenFrom(t, containers[u0]);
        ConsTaken(t, before, containers);
      }
    }
  }

  lemma ConsTaken(t: Target, rest: seq<Target>, containers: map<User, Container>)
    requires Taken(rest, containers) && t.user in containers && TakenFrom(t, containers[t.user])
    ensures Taken([t] + rest, containers)
  {
  }

  lemma ConsUsers(t: Target, rest: seq<Target>)
    requires DistinctUsers(rest) && !IsUserOf(rest, t.user)
    ensures DistinctUsers([t] + rest)
    ensures forall u :: IsUserOf([t] + rest, u) <==> u == t.user || IsUserOf(rest, u)
  {
    forall u ensures IsUserOf([t] + rest, u) <==> u == t.user || IsUserOf(rest, u) {
      ConsUser(t, rest, u);
    }
    forall i, j | 0 <= i < j < |[t] + rest| ensures ([t] + rest)[i].user != ([t] + rest)[j].user {
      assert i == 0 ==> rest[j - 1].user != t.user;
    }
  }

  lemma ConsUser(t: Target, rest: seq<Target>, u: User)
    ensures IsUserOf([t] + rest, u) <==> u == t.user || IsUserOf(rest, u)
  {
    if IsUserOf(rest, u) {
      var k :| 0 <= k < |rest| && rest[k].user == u;
      assert ([t] + rest)[k + 1].user == u;
    }
    if u == t.user {
      assert ([t] + rest)[0].user == u;
    }
  }

  // ----- Upgrading -----

  /** Exactly the first `n` targets carry the upgraded container. */
  ghost predicate UpgradedUpTo(before: map<User, Container>, after: map<User, Container>, targets: seq<Target>, n: nat)
    requires n <= |targets|
  {
    && after.Keys == before.Keys
    && (forall k :: 0 <= k < n ==>
          targets[k].user in before && after[targets[k].user] == UpgradedContainer(before[targets[k].user]))
    && (forall u :: u in before && !IsUserOf(targets[..n], u) ==> after[u] == before[u])
  }

  lemma UpgradedConsStep(before: map<User, Container>, middle: map<User, Container>, after: map<User, Container>,
                         t: Target, rest: seq<Target>, n: nat)
    requires t.user in before && middle == before[t.user := UpgradedContainer(before[t.user])]
    requires DistinctUsers([t] + rest) && n <= |rest| && UpgradedUpTo(middle, after, rest, n)
    ensures UpgradedUpTo(before, after, [t] + rest, n + 1)
  {
    var all := [t] + rest;
    assert all[..n + 1] == [t] + rest[..n];
    forall u ensures IsUserOf(all[..n + 1], u) <==> u == t.user || IsUserOf(rest[..n], u) {
      ConsUser(t, rest[..n], u);
    }
    forall k | 0 <= k < n ensures rest[k].user != t.user {
      assert all[k + 1] == rest[k] && all[0].user == t.user;
    }
    assert !IsUserOf(rest[..n], t.user);
    assert after[t.user] == middle[t.user];
    forall u | u in before && !IsUserOf(all[..n + 1], u) ensures after[u] == before[u] {
      assert u != t.user && !IsUserOf(rest[..n], u) && middle[u] == before[u];
    }
    forall k | 0 <= k < n + 1
      ensures all[k].user in before && after[all[k].user] == UpgradedContainer(before[all[k].user])
    {
      if k > 0 {
        assert all[k] == rest[k - 1];
      }
    }
  }

  lemma NothingUpgraded(containers: map<User, Container>, targets: seq<Target>)
    ensures UpgradedUpTo(containers, containers, targets, 0)
  {
  }

  lemma {:induction false} UpgradeEachUpgrades(w: World, targets: seq<Target>)
    requires (forall t :: t in targets ==> t.user in w.containers) && DistinctUsers(targets)
    ensures var p := UpgradeEach(w, targets);
            p.migrated <= |targets| && UpgradedUpTo(w.containers, p.world.containers, targets, p.migrated)
    decreases |targets|
  {
    if |targets| > 0 {
      var t, rest := targets[0], targets[1..];
      assert targets == [t] + rest;
      UpgradeOneKeeps(w, t);
      var (after, signal) := UpgradeOne(w, t);
      if signal != Fine {
        NothingUpgraded(w.containers, targets);
      } else {
        UpgradeEachUpgrades(after, rest);
        var p := UpgradeEach(after, rest);
        UpgradedConsStep(w.containers, after.containers, p.world.containers, t, rest, p.migrated);
      }
    }
  }

  // ----- Starting -----

  lemma StartOneKeeps(w: World, t: Target)
    requires t.user in w.containers
    ensures var (after, signal, left) := StartOne(w, t);
            && (after.containers == w.containers
                || after.containers == w.containers[t.user := StartedContainer(w.containers[t.user])])
            && (signal == Fine && !left ==>
                  after.containers == w.containers[t.user := StartedContainer(w.containers[t.user])])
            && (forall key :: key in w.operations ==> key in after.operations)
            && (!LastMalformed(w.log) ==> (signal == Escaped <==> LastMalformed(after.log)))
  {
  }

  /** Starts change only the containers on their list, and only by starting them. */
  lemma {:induction false} StartEachKeeps(w: World, targets: seq<Target>, stopped: bool)
    requires forall t :: t in targets ==> t.user in w.containers
    ensures var (after, signal) := StartEach(w, targets, stopped);
            && after.containers.Keys == w.containers.Keys
            && (forall u :: u in w.containers ==>
                  after.containers[u] == w.containers[u]
                  || (IsUserOf(targets, u) && after.containers[u] == StartedContainer(w.containers[u])))
            && (signal == Fine ==> !stopped && forall u :: u in w.containers && IsUserOf(targets, u)
                                                    ==> after.containers[u] == StartedContainer(w.containers[u]))
            && (forall key :: key in w.operations ==> key in after.operations)
            && (!LastMalformed(w.log) ==> (signal == Escaped <==> LastMalformed(after.log)))
    decreases |targets|
  {
    if |targets| > 0 {
      var t, rest := targets[0], targets[1..];
      assert targets == [t] + rest;
      StartOneKeeps(w, t);
      var (after, signal, left) := StartOne(w, t);
      assert after.containers.Keys == w.containers.Keys;
      forall u ensures IsUserOf(targets, u) <==> u == t.user || IsUserOf(rest, u) {
        ConsUser(t, rest, u);
      }
      if signal == Fine {
        StartEachKeeps(after, rest, stopped || left);
      }
    }
  }

  // ----- Compensating -----

  lemma StopOneKeeps(w: World, user: User)
    requires user in w.containers
    ensures var (after, signal) := StopOne(w, user);
            && after.containers.Keys == w.containers.Keys && after.operations == w.operations
            && (forall u :: u in w.containers && u != user ==> after.containers[u] == w.containers[u])
            && after.containers[user].profile == w.containers[user].profile
            && (!LastMalformed(w.log) ==> (signal == Escaped <==> LastMalformed(after.log)))
            && (signal == Escaped ==> InCompensation(after.log))
  {
  }

  lemma RollbackOneKeeps(w: World, t: Target)
    ensures var (after, signal) := RollbackOne(w, t);
            && after.containers.Keys == w.containers.Keys
            && (forall u :: u in w.containers && u != t.user ==> after.containers[u] == w.containers[u])
            && (signal == Fine ==> t.user in w.containers && after.containers[t.user] == RestoredContainer(t))
            && (signal != Fine && t.user in w.containers ==>
                  after.containers[t.user].profile == w.containers[t.user].profile)
            && (!LastMalformed(w.log) ==> (signal == Escaped <==> LastMalformed(after.log)))
            && (signal == Escaped ==> t.user in w.containers && InCompensation(after.log))
  {
    if t.user in w.containers {
      StopOneKeeps(w, t.user);
    }
  }

  /** The last call was one of the compensation. */
  predicate InCompensation(log: seq<Call>) {
    |log| > 0 && log[|log| - 1].phase in {Stop, Restore}
  }

  /** Everyone migrated is restored, keeps the profile it had and is reported, or keeps the profile it had and was not
      reached before an exception; nobody else is touched. */
  ghost predicate RestoresOrReports(before: map<User, Container>, migrated: seq<Target>, back: Rollback) {
    && back.world.containers.Keys == before.Keys && back.left <= |migrated|
    && (back.escaped <==> back.left > 0)
    && (forall u :: u in before && !IsUserOf(migrated, u) ==> back.world.containers[u] == before[u])
    && (forall k :: 0 <= k < |migrated| ==> Settled(before, migrated, back, k))
    && (forall u :: u in back.unresolved ==> IsUserOf(migrated, u))
  }

  ghost predicate Settled(before: map<User, Container>, migrated: seq<Target>, back: Rollback, k: nat)
    requires k < |migrated| && back.world.containers.Keys == before.Keys
  {
    var t, after := migrated[k], back.world.containers;
    if k >= back.left && t.user !in back.unresolved then t.user in before && after[t.user] == RestoredContainer(t)
    else t.user in before ==> after[t.user].profile == before[t.user].profile
  }

  lemma {:induction false} RollbackEachRestores(w: World, migrated: seq<Target>)
    requires DistinctUsers(migrated)
    ensures var back := RollbackEach(w, migrated);
            && RestoresOrReports(w.containers, migrated, back)
            && (!LastMalformed(w.log) ==> (back.escaped <==> LastMalformed(back.world.log)))
            && (back.escaped ==> InCompensation(back.world.log))
    decreases |migrated|
  {
    if |migrated| > 0 {
      var last := |migrated| - 1;
      var t, rest := migrated[last], migrated[..last];
      RollbackOneKeeps(w, t);
      var (middle, signal) := RollbackOne(w, t);
      assert migrated == rest + [t];
      if signal == Escaped {
        EscapesAtOnce(w.containers, middle, migrated);
      } else {
        RollbackEachRestores(middle, rest);
        RestoresOneMore(w.containers, middle.containers, RollbackEach(middle, rest), rest, t, signal == Fine);
      }
    }
  }

  lemma EscapesAtOnce(before: map<User, Container>, middle: World, migrated: seq<Target>)
    requires |migrated| > 0 && DistinctUsers(migrated)
    requires var t := migrated[|migrated| - 1];
             && middle.containers.Keys == before.Keys
             && (forall u :: u in before && u != t.user ==> middle.containers[u] == before[u])
             && t.user in before && middle.containers[t.user].profile == before[t.user].profile
    ensures RestoresOrReports(before, migrated, Rollback(middle, true, [], |migrated|))
  {
    assert IsUserOf(migrated, migrated[|migrated| - 1].user);
  }

  lemma RestoresOneMore(before: map<User, Container>, middle: map<User, Container>, back: Rollback,
                        rest: seq<Target>, t: Target, ok: bool)
    requires DistinctUsers(rest + [t]) && RestoresOrReports(middle, rest, back)
    requires middle.Keys == before.Keys && (forall u :: u in before && u != t.user ==> middle[u] == before[u])
    requires ok ==> t.user in before && middle[t.user] == RestoredContainer(t)
    requires !ok && t.user in before ==> middle[t.user].profile == before[t.user].profile
    ensures RestoresOrReports(before, rest + [t],
                              if ok then back else back.(unresolved := [t.user] + back.unresolved))
  {
    var all := rest + [t];
    var more := if ok then back else back.(unresolved := [t.user] + back.unresolved);
    forall u ensures IsUserOf(all, u) <==> u == t.user || IsUserOf(rest, u) {
      if IsUserOf(rest, u) {
        var k :| 0 <= k < |rest| && rest[k].user == u;
        assert all[k].user == u;
      }
      assert all[|rest|].user == t.user;
    }
    forall k | 0 <= k < |rest| ensures rest[k].user != t.user {
      assert all[k] == rest[k] && all[|rest|] == t;
    }
    assert !IsUserOf(rest, t.user);
    forall k | 0 <= k < |all| ensures Settled(before, all, more, k) {
      if k < |rest| {
        assert Settled(middle, rest, back, k) && all[k] == rest[k];
      }
    }
  }

  /** A container taken from the baseline is restored to what it was. */
  lemma RestoredIsOriginal(t: Target, c: Container)
    requires TakenFrom(t, c)
    ensures RestoredContainer(t) == c
  {
  }

  // ----- The saga -----

  /** The whole old specification, with two entries written over or added. */
  ghost predicate SpecUpgraded(before: map<string, string>, after: map<string, string>) {
    && after.Keys == before.Keys + {"gpu", "development_profile"}
    && after["gpu"] == "NONE" && after["development_profile"] == "GPU_1_8CPU_32GB"
    && forall key :: key in before && key != "gpu" && key != "development_profile" ==> after[key] == before[key]
  }

  /** The container after a successful upgrade: GPU profile, no allocation, and the power state it had. */
  ghost predicate FullyUpgraded(before: Container, after: Container) {
    && after.profile == "GPU_1_8CPU_32GB" && after.gpuCount == 1 && after.job.None? && after.uuid.None?
    && after.desired == after.observed == before.observed && SpecUpgraded(before.safeSpec, after.safeSpec)
  }

  lemma UpgradeKeepsSpec(spec: map<string, string>)
    ensures SpecUpgraded(spec, UpgradedSpec(spec))
  {
    assert "gpu"[0] != "development_profile"[0];
  }

  /** What each outcome means for the containers. */
  ghost predicate Meaning(before: map<User, Container>, f: Finish, targets: seq<Target>) {
    && f.world.containers.Keys == before.Keys
    && f.migrated <= targets
    && match f.outcome
       case Returned(code) =>
         if code == 0 then
           && f.unresolved == []
           && forall u :: u in before ==> if IsUserOf(targets, u) then FullyUpgraded(before[u], f.world.containers[u])
                                          else f.world.containers[u] == before[u]
         else
           && (forall u :: u in before && u !in f.unresolved ==> f.world.containers[u] == before[u])
           && (forall u :: u in f.unresolved ==> IsUserOf(f.migrated, u))
       case Raised =>
         && f.unresolved == []
         && (forall u :: u in before && !IsUserOf(f.migrated, u) ==> f.world.containers[u] == before[u])
         && LeftUpgraded(before, f)
  }

  /** What an exception leaves: the migrated containers keep the GPU profile, except that one escaping from the
      compensation finds some of them restored, never the first. */
  ghost predicate LeftUpgraded(before: map<User, Container>, f: Finish)
    requires f.world.containers.Keys == before.Keys
  {
    && (forall u :: u in before && IsUserOf(f.migrated, u) ==>
          || f.world.containers[u].profile == GPU_PROFILE
          || (InCompensation(f.world.log) && f.world.containers[u] == before[u]))
    && (f.migrated != [] ==> f.migrated[0].user in before
                             && f.world.containers[f.migrated[0].user].profile == GPU_PROFILE)
  }

  /** Compensating after upgrades, and perhaps starts, of exactly the migrated targets. */
  lemma CompensatedMeans(before: map<User, Container>, w: World, targets: seq<Target>, n: nat)
    requires n <= |targets| && DistinctUsers(targets) && Taken(targets, before)
    requires w.containers.Keys == before.Keys
    requires forall u :: u in before && !IsUserOf(targets[..n], u) ==> w.containers[u] == before[u]
    requires forall k :: 0 <= k < n ==> w.containers[targets[k].user].profile == GPU_PROFILE
    ensures Meaning(before, Compensated(w, targets[..n]), targets)
    ensures var f := Compensated(w, targets[..n]);
            !LastMalformed(w.log) ==> (f.outcome == Raised <==> LastMalformed(f.world.log))
  {
    var migrated := targets[..n];
    RollbackEachRestores(w, migrated);
    var back, f := RollbackEach(w, migrated), Compensated(w, migrated);
    forall k | 0 <= k < n
      ensures if k >= back.left && targets[k].user !in back.unresolved
              then f.world.containers[targets[k].user] == before[targets[k].user]
              else f.world.containers[targets[k].user].profile == GPU_PROFILE
    {
      assert migrated[k] == targets[k] && Settled(w.containers, migrated, back, k);
      RestoredIsOriginal(targets[k], before[targets[k].user]);
    }
    forall u | u in before && IsUserOf(migrated, u)
      ensures f.world.containers[u].profile == GPU_PROFILE || f.world.containers[u] == before[u]
      ensures !back.escaped && u !in f.unresolved ==> f.world.containers[u] == before[u]
    {
      var k :| 0 <= k < |migrated| && migrated[k].user == u;
    }
  }

  lemma RunTargetsMeans(w: World, targets: seq<Target>)
    requires DistinctUsers(targets) && Taken(targets, w.containers) && !LastMalformed(w.log)
    requires forall t :: t in targets ==> t.user in w.containers
    ensures Meaning(w.containers, RunTargets(w, targets), targets)
    ensures RunTargets(w, targets).outcome == Raised <==> LastMalformed(RunTargets(w, targets).world.log)
  {
    var before := w.containers;
    PreflightAllKeeps(w, targets);
    var (checked, signal) := PreflightAll(w, targets);
    assert forall u :: !IsUserOf([], u);
    if signal == Fine {
      UpgradeEachKeeps(checked, targets);
      UpgradeEachUpgrades(checked, targets);
      var p := UpgradeEach(checked, targets);
      var migrated := targets[..p.migrated];
      if p.signal == Escaped {
        MigratedCarryProfile(before, p.world.containers, targets, p.migrated);
      } else if p.signal == Caught {
        MigratedCarryProfile(before, p.world.containers, targets, p.migrated);
        CompensatedMeans(before, p.world, targets, p.migrated);
      } else {
        assert migrated == targets;
        StartPhaseMeans(before, p.world, targets);
      }
    }
  }

  lemma MigratedCarryProfile(before: map<User, Container>, after: map<User, Container>, targets: seq<Target>, n: nat)
    requires n <= |targets| && UpgradedUpTo(before, after, targets, n)
    ensures forall u :: u in before && IsUserOf(targets[..n], u) ==> after[u].profile == GPU_PROFILE
    ensures forall k :: 0 <= k < n ==> targets[k].user in before && after[targets[k].user].profile == GPU_PROFILE
  {
    forall u | u in before && IsUserOf(targets[..n], u) ensures after[u].profile == GPU_PROFILE {
      var k :| 0 <= k < n && targets[..n][k].user == u;
      assert targets[k].user == u;
    }
  }

  ghost predicate InRestart(targets: seq<Target>, u: User) {
    IsUserOf(RestartOrder(targets), u)
  }

  /** The restart list names exactly the targets that were running. */
  lemma RestartNames(targets: seq<Target>, containers: map<User, Container>, k: nat)
    requires k < |targets| && DistinctUsers(targets) && Taken(targets, containers)
    ensures InRestart(targets, targets[k].user) <==> targets[k].wasRunning
    ensures forall u :: InRestart(targets, u) ==> IsUserOf(targets, u)
  {
    RestartOrderMembers(targets);
    var order := RestartOrder(targets);
    if targets[k].wasRunning {
      assert targets[k] in order;
    }
    forall u | InRestart(targets, u)
      ensures exists j :: 0 <= j < |targets| && targets[j].user == u && targets[j].wasRunning
    {
      var i :| 0 <= i < |order| && order[i].user == u;
      assert order[i] in order;
      var j :| 0 <= j < |targets| && targets[j] == order[i];
    }
  }

  lemma StartPhaseMeans(before: map<User, Container>, w: World, targets: seq<Target>)
    requires DistinctUsers(targets) && Taken(targets, before) && !LastMalformed(w.log)
    requires UpgradedUpTo(before, w.containers, targets, |targets|)
    ensures forall t :: t in RestartOrder(targets) ==> t.user in w.containers
    ensures var (started, end) := StartEach(w, RestartOrder(targets), false);
            var f := if end == Escaped then Finish(started, Raised, [], targets)
                     else if end == Caught then Compensated(started, targets)
                     else Finish(started, Returned(0), [], targets);
            Meaning(before, f, targets) && (f.outcome == Raised <==> LastMalformed(f.world.log))
  {
    var order := RestartOrder(targets);
    RestartOrderMembers(targets);
    assert targets[..|targets|] == targets;
    forall t | t in order ensures t.user in w.containers {
      var k :| 0 <= k < |targets| && targets[k] == t;
    }
    StartEachKeeps(w, order, false);
    var (started, end) := StartEach(w, order, false);
    MigratedCarryProfile(before, w.containers, targets, |targets|);
    if |targets| > 0 {
      RestartNames(targets, before, 0);
    } else {
      assert order == [];
    }
    if end == Caught {
      CompensatedMeans(before, started, targets, |targets|);
    } else if end == Fine {
      StartedFully(before, w.containers, started.containers, targets);
    }
  }

  lemma StartedFully(before: map<User, Container>, upgraded: map<User, Container>, started: map<User, Container>,
                     targets: seq<Target>)
    requires DistinctUsers(targets) && Taken(targets, before) && UpgradedUpTo(before, upgraded, targets, |targets|)
    requires started.Keys == before.Keys
    requires forall u :: u in before ==>
               started[u] == if InRestart(targets, u) then StartedContainer(upgraded[u]) else upgraded[u]
    ensures forall u :: u in before && IsUserOf(targets, u) ==> FullyUpgraded(before[u], started[u])
  {
    forall u | u in before && IsUserOf(targets, u) ensures FullyUpgraded(before[u], started[u]) {
      var k :| 0 <= k < |targets| && targets[k].user == u;
      RestartNames(targets, before, k);
      assert TakenFrom(targets[k], before[u]);
      assert upgraded[u] == UpgradedContainer(before[u]);
      UpgradeKeepsSpec(before[u].safeSpec);
    }
  }

  /** What the saga promises for its three ways to end. */
  ghost predicate Atomic(before: map<User, Container>, rows: seq<User>, f: Finish) {
    && f.world.containers.Keys == before.Keys
    && match f.outcome
       case Returned(code) =>
         if code == 0 then
           && f.unresolved == []
           && forall u :: u in before ==>
                if u in rows && before[u].profile != GPU_PROFILE then FullyUpgraded(before[u], f.world.containers[u])
                else f.world.containers[u] == before[u]
         else
           forall u :: u in before && u !in f.unresolved ==> f.world.containers[u] == before[u]
       case Raised =>
         && (forall u :: u in before && !IsUserOf(f.migrated, u) ==> f.world.containers[u] == before[u])
         && (forall u :: u in before && IsUserOf(f.migrated, u) ==> before[u].profile != GPU_PROFILE)
         && LeftUpgraded(before, f)
  }

  /** All or nothing, against any Worker. Code 0: every container that was not on the GPU profile is fully upgraded
      and keeps its power state. Code 2: every container not reported as unresolved is exactly as it was. An
      exception escapes exactly when the last reply was malformed where it was read; then the migrated ones stay
      upgraded, or some of them if it escaped from the compensation. */
  lemma SagaIsAtomic(w: World, approved: bool, ownerPresent: bool, rows: seq<User>, managed: map<User, Managed>,
                     now: int)
    requires Known(rows, managed, w.containers) && DistinctRows(rows) && w.log == []
    ensures var f := Saga(w, approved, ownerPresent, rows, managed, now);
            && f.outcome in {Returned(0), Returned(2), Raised}
            && Atomic(w.containers, rows, f)
            && (f.outcome == Raised <==> LastMalformed(f.world.log))
  {
    if approved && ownerPresent && !ActiveOperations(w.operations) && |rows| > 0 {
      var targets := Targets(rows, managed, w.containers, now);
      if targets.Some? {
        TargetsKnown(rows, managed, w.containers, now);
        RunIsAtomic(w, rows, managed, now, targets.value);
      }
    }
  }

  lemma RunIsAtomic(w: World, rows: seq<User>, managed: map<User, Managed>, now: int, targets: seq<Target>)
    requires Known(rows, managed, w.containers) && DistinctRows(rows) && w.log == []
    requires Targets(rows, managed, w.containers, now) == Some(targets)
    requires forall t :: t in targets ==> t.user in w.containers
    ensures var f := RunTargets(w, targets);
            Atomic(w.containers, rows, f) && (f.outcome == Raised <==> LastMalformed(f.world.log))
  {
    TargetsTaken(rows, managed, w.containers, now);
    RunTargetsMeans(w, targets);
    forall u ensures IsUserOf(targets, u) <==> u in rows && w.containers[u].profile != GPU_PROFILE {
      TargetsAreRows(rows, managed, w.containers, now, u);
    }
    MeaningIsAtomic(w.containers, RunTargets(w, targets), targets, rows);
  }

  lemma MeaningIsAtomic(before: map<User, Container>, f: Finish, targets: seq<Target>, rows: seq<User>)
    requires Meaning(before, f, targets) && forall u :: u in rows ==> u in before
    requires forall u :: IsUserOf(targets, u) <==> u in rows && before[u].profile != GPU_PROFILE
    ensures Atomic(before, rows, f)
  {
    MigratedAreTargets(f.migrated, targets);
  }

  lemma MigratedAreTargets(migrated: seq<Target>, targets: seq<Target>)
    requires migrated <= targets
    ensures forall u :: IsUserOf(migrated, u) ==> IsUserOf(targets, u)
  {
    forall u | IsUserOf(migrated, u) ensures IsUserOf(targets, u) {
      var k :| 0 <= k < |migrated| && migrated[k].user == u;
      assert targets[k].user == u;
    }
  }
}
