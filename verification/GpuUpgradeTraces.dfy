/** Exactly which Worker replies break the atomicity of the GPU upgrade, told from the replies alone. */
module GpuUpgradeTraces {
  import opened Options
  import opened GpuUpgrade
  import opened GpuUpgradeProofs
  import opened GpuUpgradeReplies

  // ----- Before the compensation -----

  ghost predicate AllApply(script: seq<Reply>, m: nat) {
    forall k: nat :: k < m ==> PairApplies(script, k)
  }

  /** The batch preflight is good and the first `m` upgrades commit. */
  ghost predicate Commits(w: World, targets: seq<Target>, m: nat) {
    m <= |targets| && PreflightGood(w, targets) && AllApply(Later(w.script, |targets|), m)
  }

  /** Then a malformed reply is read, by the next upgrade or, once all have committed, by one of the starts. */
  ghost predicate RaisesAfter(w: World, targets: seq<Target>, m: nat) {
    && Commits(w, targets, m)
    && if m < |targets| then PairRaises(Later(w.script, |targets|), m)
       else SomeStartRaises(w, RestartOrder(targets), Later(w.script, 3 * |targets|))
  }

  ghost predicate CaughtInStarts(w: World, targets: seq<Target>, p: nat) {
    var before := 3 * |targets|;
    p >= before && StartsCaught(w, RestartOrder(targets), Later(w.script, before), false, p - before)
  }

  /** Or the next upgrade, or the starts, fail in a way that is caught, `p` replies read in all. */
  ghost predicate CaughtAfter(w: World, targets: seq<Target>, m: nat, p: nat) {
    var n := |targets|;
    && Commits(w, targets, m)
    && if m < n then
         && !PairApplies(Later(w.script, n), m) && !PairRaises(Later(w.script, n), m)
         && p == n + UpgradeReplies(Later(w.script, n), n, m)
       else CaughtInStarts(w, targets, p)
  }

  /** Everything before the compensation. */
  ghost function Main(w: World, targets: seq<Target>): Progress
    requires forall t :: t in targets ==> t.user in w.containers
  {
    var (checked, signal) := PreflightAll(w, targets);
    if signal != Fine then Progress(checked, signal, 0)
    else
      PreflightAllKeeps(w, targets);
      var p := UpgradeEach(checked, targets);
      UpgradeEachKeeps(checked, targets);
      if p.signal != Fine then p
      else
        RestartOrderMembers(targets);
        var (started, end) := StartEach(p.world, RestartOrder(targets), false);
        Progress(started, end, p.migrated)
  }

  lemma RunIsMain(w: World, targets: seq<Target>)
    requires forall t :: t in targets ==> t.user in w.containers
    ensures var p, f := Main(w, targets), RunTargets(w, targets);
            && p.migrated <= |targets| && f.migrated == targets[..p.migrated]
            && f == match p.signal
                    case Escaped => Finish(p.world, Raised, [], f.migrated)
                    case Caught => Compensated(p.world, f.migrated)
                    case Fine => Finish(p.world, Returned(0), [], f.migrated)
  {
    PreflightAllKeeps(w, targets);
    var (checked, signal) := PreflightAll(w, targets);
    if signal == Fine {
      UpgradeEachKeeps(checked, targets);
      assert targets[..|targets|] == targets;
    }
  }

  lemma EndsExactly(script: seq<Reply>, n: nat, p: Progress, m: nat)
    requires Ends(script, n, p)
    ensures p.signal == Escaped && p.migrated == m <==> m < n && AllApply(script, m) && PairRaises(script, m)
    ensures p.signal == Caught && p.migrated == m <==>
            m < n && AllApply(script, m) && !PairApplies(script, m) && !PairRaises(script, m)
    ensures p.signal == Fine <==> AllApply(script, n)
  {
    if AllApply(script, m) {
      assert p.migrated < m ==> PairApplies(script, p.migrated);
      assert m < p.migrated ==> PairApplies(script, m);
    }
    PairEndsOnce(script, m);
  }

  lemma PairEndsOnce(script: seq<Reply>, k: nat)
    ensures !(PairApplies(script, k) && PairRaises(script, k))
  {
  }

  lemma SameStartsRaise(a: World, b: World, order: seq<Target>, script: seq<Reply>)
    requires SameStarts(a, b)
    ensures SomeStartRaises(a, order, script) <==> SomeStartRaises(b, order, script)
  {
    if j: nat :| StartRaisesAt(a, order, script, j) {
      assert StartRaisesAt(b, order, script, j);
    }
    if j: nat :| StartRaisesAt(b, order, script, j) {
      assert StartRaisesAt(a, order, script, j);
    }
  }

  lemma SameStartsCaught(a: World, b: World, order: seq<Target>, script: seq<Reply>, used: nat)
    requires SameStarts(a, b)
    ensures StartsCaught(a, order, script, false, used) <==> StartsCaught(b, order, script, false, used)
  {
    if j: nat :| StartCaughtAt(a, order, script, false, j, used) {
      assert StartCaughtAt(b, order, script, false, j, used);
    }
    if j: nat :| StartCaughtAt(b, order, script, false, j, used) {
      assert StartCaughtAt(a, order, script, false, j, used);
    }
  }

  /** How the part before the compensation ends, from the replies alone. */
  ghost predicate MainEnds(w: World, targets: seq<Target>, p: Progress, m: nat) {
    && (p.signal == Escaped && p.migrated == m <==> RaisesAfter(w, targets, m))
    && (p.signal == Caught && p.migrated == m <==> SomeCaught(w, targets, m))
    && (forall q: nat :: CaughtAfter(w, targets, m, q) ==> p.world.script == Later(w.script, q))
  }

  ghost predicate SomeCaught(w: World, targets: seq<Target>, m: nat) {
    exists q: nat :: CaughtAfter(w, targets, m, q)
  }

  lemma UpgradesEndMain(w: World, targets: seq<Target>, p: Progress, m: nat)
    requires PreflightGood(w, targets) && 0 < m
    requires Ends(Later(w.script, |targets|), |targets|, p) && p.signal != Fine
    ensures MainEnds(w, targets, p, m)
  {
    var n, rest := |targets|, Later(w.script, |targets|);
    EndsExactly(rest, n, p, m);
    assert !AllApply(rest, n);
    var q := n + UpgradeReplies(rest, n, m);
    if p.signal == Caught && p.migrated == m {
      assert CaughtAfter(w, targets, m, q);
      LaterAt(w.script, n, UpgradeReplies(rest, n, m));
    }
  }

  /** Once all upgrades have committed, only the starts can end it. */
  lemma AllCommitted(w: World, targets: seq<Target>, m: nat)
    requires PreflightGood(w, targets) && AllApply(Later(w.script, |targets|), |targets|)
    ensures RaisesAfter(w, targets, m) <==>
            m == |targets| && SomeStartRaises(w, RestartOrder(targets), Later(w.script, 3 * |targets|))
    ensures forall q: nat :: CaughtAfter(w, targets, m, q) <==> m == |targets| && CaughtInStarts(w, targets, q)
  {
    var rest := Later(w.script, |targets|);
    if m < |targets| {
      assert PairApplies(rest, m);
      PairEndsOnce(rest, m);
      assert !RaisesAfter(w, targets, m);
      assert forall q: nat :: !CaughtAfter(w, targets, m, q);
    } else if m == |targets| {
      assert Commits(w, targets, m);
    } else {
      assert !Commits(w, targets, m);
    }
  }

  /** The world after all upgrades of a run, every reply up to there read. */
  ghost predicate Upgraded(w: World, targets: seq<Target>, upgraded: World) {
    && PreflightGood(w, targets) && AllApply(Later(w.script, |targets|), |targets|)
    && SameStarts(w, upgraded) && upgraded.script == Later(w.script, 3 * |targets|)
  }

  lemma StartsEndMain(w: World, targets: seq<Target>, upgraded: World, started: World, end: Signal, m: nat)
    requires Upgraded(w, targets, upgraded) && 0 < m
    requires StartsEnd(upgraded, RestartOrder(targets), false, started, end)
    ensures MainEnds(w, targets, Progress(started, end, |targets|), m)
  {
    StartsEndRaises(w, targets, upgraded, started, end, m);
    StartsEndCaught(w, targets, upgraded, started, end, m);
    forall q: nat | CaughtAfter(w, targets, m, q) ensures started.script == Later(w.script, q) {
      StartsEndReads(w, targets, upgraded, started, end, m, q);
    }
  }

  lemma StartsEndRaises(w: World, targets: seq<Target>, upgraded: World, started: World, end: Signal, m: nat)
    requires Upgraded(w, targets, upgraded) && StartsEnd(upgraded, RestartOrder(targets), false, started, end)
    ensures end == Escaped && m == |targets| <==> RaisesAfter(w, targets, m)
  {
    RaisesIsStartRaises(w, targets, upgraded, m);
  }

  lemma StartsEndCaught(w: World, targets: seq<Target>, upgraded: World, started: World, end: Signal, m: nat)
    requires Upgraded(w, targets, upgraded) && StartsEnd(upgraded, RestartOrder(targets), false, started, end)
    ensures end == Caught && m == |targets| <==> SomeCaught(w, targets, m)
  {
    CaughtIsSomeUse(w, targets, upgraded, m);
  }

  lemma StartsEndReads(w: World, targets: seq<Target>, upgraded: World, started: World, end: Signal, m: nat, q: nat)
    requires Upgraded(w, targets, upgraded) && StartsEnd(upgraded, RestartOrder(targets), false, started, end)
    requires CaughtAfter(w, targets, m, q)
    ensures started.script == Later(w.script, q)
  {
    CaughtReadsOn(w, targets, upgraded, m, q);
    UseReads(upgraded, RestartOrder(targets), started, end, q - 3 * m);
  }

  lemma RaisesIsStartRaises(w: World, targets: seq<Target>, upgraded: World, m: nat)
    requires Upgraded(w, targets, upgraded)
    ensures RaisesAfter(w, targets, m) <==>
            m == |targets| && SomeStartRaises(upgraded, RestartOrder(targets), upgraded.script)
  {
    AllCommitted(w, targets, m);
    SameStartsRaise(w, upgraded, RestartOrder(targets), upgraded.script);
  }

  lemma CaughtIsSomeUse(w: World, targets: seq<Target>, upgraded: World, m: nat)
    requires Upgraded(w, targets, upgraded)
    ensures SomeCaught(w, targets, m) <==>
            m == |targets| && SomeUse(upgraded, RestartOrder(targets), upgraded.script, false)
  {
    AllCommitted(w, targets, m);
    if q: nat :| CaughtAfter(w, targets, m, q) {
      CaughtReadsOn(w, targets, upgraded, m, q);
    }
    if m == |targets| && SomeUse(upgraded, RestartOrder(targets), upgraded.script, false) {
      SomeUseIsCaught(w, targets, upgraded);
    }
  }

  lemma CaughtReadsOn(w: World, targets: seq<Target>, upgraded: World, m: nat, q: nat)
    requires Upgraded(w, targets, upgraded) && CaughtAfter(w, targets, m, q)
    ensures m == |targets| && q >= 3 * m
    ensures StartsCaught(upgraded, RestartOrder(targets), upgraded.script, false, q - 3 * m)
    ensures Later(upgraded.script, q - 3 * m) == Later(w.script, q)
  {
    AllCommitted(w, targets, m);
    StartsReadOn(w, targets, upgraded, q - 3 * m);
  }

  lemma UseReads(w: World, order: seq<Target>, after: World, signal: Signal, used: nat)
    requires StartsEnd(w, order, false, after, signal) && StartsCaught(w, order, w.script, false, used)
    ensures after.script == Later(w.script, used)
  {
  }

  lemma StartsReadOn(w: World, targets: seq<Target>, upgraded: World, used: nat)
    requires SameStarts(w, upgraded) && upgraded.script == Later(w.script, 3 * |targets|)
    ensures CaughtInStarts(w, targets, 3 * |targets| + used) <==>
            StartsCaught(upgraded, RestartOrder(targets), upgraded.script, false, used)
    ensures Later(upgraded.script, used) == Later(w.script, 3 * |targets| + used)
  {
    SameStartsCaught(w, upgraded, RestartOrder(targets), upgraded.script, used);
    LaterAt(w.script, 3 * |targets|, used);
  }

  lemma SomeUseIsCaught(w: World, targets: seq<Target>, upgraded: World)
    requires SameStarts(w, upgraded) && upgraded.script == Later(w.script, 3 * |targets|)
    requires SomeUse(upgraded, RestartOrder(targets), upgraded.script, false)
    ensures exists q: nat :: CaughtInStarts(w, targets, q)
  {
    var used: nat :| StartsCaught(upgraded, RestartOrder(targets), upgraded.script, false, used);
    StartsReadOn(w, targets, upgraded, used);
    assert CaughtInStarts(w, targets, 3 * |targets| + used);
  }

  lemma MainScript(w: World, targets: seq<Target>, m: nat)
    requires DistinctUsers(targets) && (forall t :: t in targets ==> t.user in w.containers) && 0 < m
    ensures MainEnds(w, targets, Main(w, targets), m)
  {
    PreflightScript(w, targets);
    var (checked, signal) := PreflightAll(w, targets);
    if signal == Fine {
      PreflightAllKeeps(w, targets);
      UpgradeScript(checked, targets);
      var p := UpgradeEach(checked, targets);
      if p.signal != Fine {
        UpgradesEndMain(w, targets, p, m);
      } else {
        UpgradeEachKeeps(checked, targets);
        RestartOrderMembers(targets);
        StartsEndRun(w, targets, p, m);
      }
    }
  }

  lemma StartsEndRun(w: World, targets: seq<Target>, p: Progress, m: nat)
    requires PreflightGood(w, targets) && DistinctUsers(targets) && 0 < m
    requires Ends(Later(w.script, |targets|), |targets|, p) && p.signal == Fine && SameStarts(w, p.world)
    requires forall t :: t in RestartOrder(targets) ==> t.user in p.world.containers
    ensures var (started, end) := StartEach(p.world, RestartOrder(targets), false);
            MainEnds(w, targets, Progress(started, end, |targets|), m)
  {
    FineIsUpgraded(w, targets, p);
    RestartsAreDistinct(targets);
    StartScript(p.world, RestartOrder(targets), false);
    var (started, end) := StartEach(p.world, RestartOrder(targets), false);
    StartsEndMain(w, targets, p.world, started, end, m);
  }

  lemma FineIsUpgraded(w: World, targets: seq<Target>, p: Progress)
    requires PreflightGood(w, targets) && SameStarts(w, p.world)
    requires Ends(Later(w.script, |targets|), |targets|, p) && p.signal == Fine
    ensures Upgraded(w, targets, p.world)
  {
    EndsExactly(Later(w.script, |targets|), |targets|, p, |targets|);
    LaterAt(w.script, |targets|, 2 * |targets|);
  }

  // ----- The compensation -----

  ghost predicate WithoutJobs(containers: map<User, Container>, migrated: seq<Target>) {
    forall k :: 0 <= k < |migrated| ==> migrated[k].user in containers && containers[migrated[k].user].job.None?
  }

  ghost predicate OnProfile(containers: map<User, Container>, migrated: seq<Target>) {
    forall k :: 0 <= k < |migrated| ==>
      migrated[k].user in containers && containers[migrated[k].user].profile == GPU_PROFILE
  }

  /** No allocation is held by then: upgrades and starts leave none. */
  lemma MainLeavesNoJobs(w: World, targets: seq<Target>)
    requires DistinctUsers(targets) && (forall t :: t in targets ==> t.user in w.containers)
    ensures var p := Main(w, targets);
            && p.migrated <= |targets| && WithoutJobs(p.world.containers, targets[..p.migrated])
            && OnProfile(p.world.containers, targets[..p.migrated])
  {
    PreflightAllKeeps(w, targets);
    var (checked, signal) := PreflightAll(w, targets);
    if signal == Fine {
      UpgradeEachKeeps(checked, targets);
      UpgradeEachUpgrades(checked, targets);
      var p := UpgradeEach(checked, targets);
      if p.signal == Fine {
        RestartOrderMembers(targets);
        StartEachKeeps(p.world, RestartOrder(targets), false);
      }
    }
  }

  ghost predicate SomeRollbackRaises(script: seq<Reply>, m: nat) {
    exists k: nat :: k < m && RollbackRaises(ReplyAt(script, k))
  }

  /** The reply `k` is the first that raises in the compensation. */
  ghost predicate FirstRaises(script: seq<Reply>, k: nat) {
    RollbackRaises(ReplyAt(script, k)) && forall i: nat :: i < k ==> !RollbackRaises(ReplyAt(script, i))
  }

  /** An exception escapes exactly when one of `n` replies raises, and at the first that does. */
  ghost predicate RollbackEnds(script: seq<Reply>, n: nat, back: Rollback) {
    && (back.escaped <==> SomeRollbackRaises(script, n))
    && (back.escaped ==> back.left <= n && FirstRaises(script, n - back.left))
  }

  lemma RollbackEndsLater(script: seq<Reply>, n: nat, back: Rollback)
    requires !RollbackRaises(ReplyAt(script, 0)) && RollbackEnds(Later(script, 1), n, back)
    ensures RollbackEnds(script, n + 1, back)
    ensures forall unresolved :: RollbackEnds(script, n + 1, back.(unresolved := unresolved))
  {
    SomeRollbackRaisesLater(script, n);
    if back.escaped {
      FirstRaisesLater(script, n - back.left);
    }
  }

  lemma FirstRaisesLater(script: seq<Reply>, k: nat)
    requires !RollbackRaises(ReplyAt(script, 0)) && FirstRaises(Later(script, 1), k)
    ensures FirstRaises(script, k + 1)
  {
    LaterAt(script, 1, k);
    forall i: nat | i < k + 1 ensures !RollbackRaises(ReplyAt(script, i)) {
      if i > 0 {
        LaterAt(script, 1, i - 1);
        assert !RollbackRaises(ReplyAt(Later(script, 1), i - 1));
      }
    }
  }

  lemma RollbackOneScript(w: World, t: Target)
    requires t.user in w.containers && w.containers[t.user].job.None?
    ensures var (after, signal) := RollbackOne(w, t);
            && after.script == Later(w.script, 1) && (signal == Escaped <==> RollbackRaises(ReplyAt(w.script, 0)))
            && after.containers.Keys == w.containers.Keys && after.containers[t.user].job.None?
            && forall u :: u in w.containers && u != t.user ==> after.containers[u] == w.containers[u]
  {
    RollbackOneKeeps(w, t);
  }

  /** So each round reads one reply, and an exception escapes exactly when one of them raises. */
  lemma {:induction false} RollbackScript(w: World, migrated: seq<Target>)
    requires WithoutJobs(w.containers, migrated)
    ensures RollbackEnds(w.script, |migrated|, RollbackEach(w, migrated))
    decreases |migrated|
  {
    if |migrated| > 0 {
      var last := |migrated| - 1;
      RollbackOneScript(w, migrated[last]);
      var (after, signal) := RollbackOne(w, migrated[last]);
      if signal != Escaped {
        forall k | 0 <= k < last ensures after.containers[migrated[k].user].job.None? {
          assert w.containers[migrated[k].user].job.None?;
        }
        RollbackScript(after, migrated[..last]);
        RollbackEndsLater(w.script, last, RollbackEach(after, migrated[..last]));
      }
    }
  }

  lemma SomeRollbackRaisesLater(script: seq<Reply>, m: nat)
    requires !RollbackRaises(ReplyAt(script, 0))
    ensures SomeRollbackRaises(script, m + 1) <==> SomeRollbackRaises(Later(script, 1), m)
  {
    if k: nat :| k < m + 1 && RollbackRaises(ReplyAt(script, k)) {
      LaterAt(script, 1, if k > 0 then k - 1 else 0);
      assert k > 0 && RollbackRaises(ReplyAt(Later(script, 1), k - 1));
    }
    if k: nat :| k < m && RollbackRaises(ReplyAt(Later(script, 1), k)) {
      LaterAt(script, 1, k);
      assert RollbackRaises(ReplyAt(script, k + 1));
    }
  }

  // ----- The exact condition -----

  ghost predicate CompensationRaisesAt(w: World, targets: seq<Target>, m: nat, p: nat) {
    CaughtAfter(w, targets, m, p) && SomeRollbackRaises(Later(w.script, p), m)
  }

  /** A failure is caught after `m` commits, and one of the next `m` replies raises in the compensation. */
  ghost predicate CompensationRaises(w: World, targets: seq<Target>, m: nat) {
    exists p: nat :: CompensationRaisesAt(w, targets, m, p)
  }

  lemma RaisesAfterExactly(w: World, targets: seq<Target>, m: nat)
    requires DistinctUsers(targets) && forall t :: t in targets ==> t.user in w.containers
    requires 0 < m
    ensures var f := RunTargets(w, targets);
            f.outcome == Raised && |f.migrated| == m <==>
            RaisesAfter(w, targets, m) || CompensationRaises(w, targets, m)
  {
    var p := Main(w, targets);
    RunIsMain(w, targets);
    MainScript(w, targets, m);
    MainLeavesNoJobs(w, targets);
    if p.signal == Caught && p.migrated == m {
      RollbackScript(p.world, targets[..m]);
      CaughtIsCompensated(w, targets, m, p.world);
    }
  }

  lemma CaughtIsCompensated(w: World, targets: seq<Target>, m: nat, caught: World)
    requires SomeCaught(w, targets, m)
    requires forall q: nat :: CaughtAfter(w, targets, m, q) ==> caught.script == Later(w.script, q)
    ensures CompensationRaises(w, targets, m) <==> SomeRollbackRaises(caught.script, m)
  {
    var q: nat :| CaughtAfter(w, targets, m, q);
    if SomeRollbackRaises(caught.script, m) {
      assert CompensationRaisesAt(w, targets, m, q);
    }
  }

  /** Of the containers migrated, an exception at the `k`-th reply of the compensation leaves all but the last `k` on
      the GPU profile. */
  lemma EscapedCompensationLeaves(w: World, targets: seq<Target>, m: nat, p: nat, k: nat)
    requires DistinctUsers(targets) && forall t :: t in targets ==> t.user in w.containers
    requires k < m && CaughtAfter(w, targets, m, p) && FirstRaises(Later(w.script, p), k)
    ensures var f := RunTargets(w, targets);
            && f.outcome == Raised && m <= |targets| && f.migrated == targets[..m]
            && OnProfile(f.world.containers, targets[..m - k])
  {
    CaughtRun(w, targets, m, p);
    var caught := Main(w, targets).world;
    LeftOnProfile(caught, targets[..m], k);
    assert targets[..m][..m - k] == targets[..m - k];
  }

  lemma CaughtRun(w: World, targets: seq<Target>, m: nat, p: nat)
    requires DistinctUsers(targets) && forall t :: t in targets ==> t.user in w.containers
    requires 0 < m && CaughtAfter(w, targets, m, p)
    ensures var caught := Main(w, targets).world;
            && m <= |targets| && RunTargets(w, targets) == Compensated(caught, targets[..m])
            && caught.script == Later(w.script, p)
            && WithoutJobs(caught.containers, targets[..m]) && OnProfile(caught.containers, targets[..m])
  {
    MainScript(w, targets, m);
    assert SomeCaught(w, targets, m);
    MainLeavesNoJobs(w, targets);
    RunIsMain(w, targets);
  }

  lemma LeftOnProfile(caught: World, migrated: seq<Target>, k: nat)
    requires DistinctUsers(migrated) && WithoutJobs(caught.containers, migrated)
    requires OnProfile(caught.containers, migrated) && k < |migrated| && FirstRaises(caught.script, k)
    ensures RollbackEach(caught, migrated).escaped
    ensures OnProfile(RollbackEach(caught, migrated).world.containers, migrated[..|migrated| - k])
  {
    RollbackScript(caught, migrated);
    RollbackEachRestores(caught, migrated);
    var back := RollbackEach(caught, migrated);
    assert SomeRollbackRaises(caught.script, |migrated|);
    var first := |migrated| - back.left;
    assert FirstRaises(caught.script, first) && first == k;
    forall j | 0 <= j < |migrated| - k
      ensures migrated[j].user in back.world.containers
              && back.world.containers[migrated[j].user].profile == GPU_PROFILE
    {
      assert Settled(caught.containers, migrated, back, j);
    }
  }

  /** Some container is neither in its old state nor reported, although the batch did not succeed. */
  ghost predicate LeavesTraces(before: map<User, Container>, f: Finish) {
    && f.outcome != Returned(0)
    && exists u :: u in before && u !in f.unresolved && (u !in f.world.containers || f.world.containers[u] != before[u])
  }

  /** The guards before the first target is taken. */
  predicate Begins(w: World, approved: bool, ownerPresent: bool, rows: seq<User>) {
    && approved && ownerPresent && |rows| > 0
    && forall key :: key in w.operations ==> w.operations[key] !in {PendingApproval, Approved, Running}
  }

  /** Atomicity fails exactly when the replies, read in their order, hold a malformed one after a committed upgrade:
      one that ends the upgrades or the starts, or one among those the compensation reads. */
  lemma TracesExactly(w: World, approved: bool, ownerPresent: bool, rows: seq<User>, managed: map<User, Managed>,
                      now: int)
    requires Known(rows, managed, w.containers) && DistinctRows(rows) && w.log == []
    ensures var f := Saga(w, approved, ownerPresent, rows, managed, now);
            var targets := Targets(rows, managed, w.containers, now);
            LeavesTraces(w.containers, f) <==>
            && Begins(w, approved, ownerPresent, rows) && targets.Some?
            && exists m: nat :: 0 < m && (RaisesAfter(w, targets.value, m) || CompensationRaises(w, targets.value, m))
  {
    var f := Saga(w, approved, ownerPresent, rows, managed, now);
    var targets := Targets(rows, managed, w.containers, now);
    TracesMeanRaised(w, approved, ownerPresent, rows, managed, now);
    if Begins(w, approved, ownerPresent, rows) && targets.Some? {
      TargetsTaken(rows, managed, w.containers, now);
      TargetsKnown(rows, managed, w.containers, now);
      forall m: nat | 0 < m
        ensures f.outcome == Raised && |f.migrated| == m <==>
                RaisesAfter(w, targets.value, m) || CompensationRaises(w, targets.value, m)
      {
        RaisesAfterExactly(w, targets.value, m);
      }
      if f.outcome == Raised && f.migrated != [] {
        var m := |f.migrated|;
        assert RaisesAfter(w, targets.value, m) || CompensationRaises(w, targets.value, m);
      }
    }
  }

  lemma TracesMeanRaised(w: World, approved: bool, ownerPresent: bool, rows: seq<User>, managed: map<User, Managed>,
                         now: int)
    requires Known(rows, managed, w.containers) && DistinctRows(rows) && w.log == []
    ensures var f := Saga(w, approved, ownerPresent, rows, managed, now);
            LeavesTraces(w.containers, f) <==> f.outcome == Raised && f.migrated != []
  {
    var f := Saga(w, approved, ownerPresent, rows, managed, now);
    SagaIsAtomic(w, approved, ownerPresent, rows, managed, now);
    if f.outcome == Raised {
      RaisedReportsNobody(w, approved, ownerPresent, rows, managed, now);
      if f.migrated != [] {
        var u := f.migrated[0].user;
        assert IsUserOf(f.migrated, u);
        assert f.world.containers[u].profile != w.containers[u].profile;
      }
    }
  }

  lemma RaisedReportsNobody(w: World, approved: bool, ownerPresent: bool, rows: seq<User>,
                            managed: map<User, Managed>, now: int)
    requires Known(rows, managed, w.containers) && DistinctRows(rows)
    ensures var f := Saga(w, approved, ownerPresent, rows, managed, now);
            f.outcome == Raised ==> f.unresolved == [] && forall t :: t in f.migrated ==> t.user in w.containers
  {
    var targets := Targets(rows, managed, w.containers, now);
    if targets.Some? {
      TargetsKnown(rows, managed, w.containers, now);
    }
  }

  /** A reply that no phase that can raise finds malformed. */
  predicate WellFormedReply(r: Reply) {
    !PreflightRaises(r) && !UpgradeRaises(r) && !StartRaises(r) && !RollbackRaises(r)
  }

  /** So a Worker that never sends such a reply, whatever else it answers or fails to answer, leaves no traces: the
      saga returns, with everything upgraded or everything restored or reported. */
  lemma WellFormedRepliesLeaveNoTraces(w: World, approved: bool, ownerPresent: bool, rows: seq<User>,
                                       managed: map<User, Managed>, now: int)
    requires Known(rows, managed, w.containers) && DistinctRows(rows) && w.log == []
    requires forall r :: r in w.script ==> WellFormedReply(r)
    ensures var f := Saga(w, approved, ownerPresent, rows, managed, now);
            f.outcome != Raised && !LeavesTraces(w.containers, f)
  {
    TracesMeanRaised(w, approved, ownerPresent, rows, managed, now);
    SagaIsAtomic(w, approved, ownerPresent, rows, managed, now);
    var targets := Targets(rows, managed, w.containers, now);
    if Begins(w, approved, ownerPresent, rows) && targets.Some? {
      TargetsTaken(rows, managed, w.containers, now);
      TargetsKnown(rows, managed, w.containers, now);
      WellFormedNeverRaises(w, targets.value);
    }
  }

  lemma WellFormedNeverRaises(w: World, targets: seq<Target>)
    requires DistinctUsers(targets) && forall t :: t in targets ==> t.user in w.containers
    requires forall r :: r in w.script ==> WellFormedReply(r)
    ensures RunTargets(w, targets).outcome != Raised
  {
    forall k: nat, i: nat ensures WellFormedReply(ReplyAt(Later(w.script, k), i)) {
      WellFormedLater(w.script, k, i);
    }
    RunIsMain(w, targets);
    var f := RunTargets(w, targets);
    if f.outcome == Raised {
      if |f.migrated| > 0 {
        RaisesAfterExactly(w, targets, |f.migrated|);
      } else {
        RaisesWithNoneMigrated(w, targets);
      }
    }
  }

  lemma WellFormedLater(script: seq<Reply>, k: nat, i: nat)
    requires forall r :: r in script ==> WellFormedReply(r)
    ensures WellFormedReply(ReplyAt(Later(script, k), i))
  {
    LaterAt(script, k, i);
  }

  lemma RaisesWithNoneMigrated(w: World, targets: seq<Target>)
    requires DistinctUsers(targets) && forall t :: t in targets ==> t.user in w.containers
    requires RunTargets(w, targets).outcome == Raised && RunTargets(w, targets).migrated == []
    ensures exists k: nat, i: nat :: !WellFormedReply(ReplyAt(Later(w.script, k), i))
  {
    RunIsMain(w, targets);
    PreflightAllKeeps(w, targets);
    PreflightScript(w, targets);
    var (checked, signal) := PreflightAll(w, targets);
    if signal == Fine {
      UpgradeScript(checked, targets);
      EndsExactly(checked.script, |targets|, UpgradeEach(checked, targets), 0);
    } else {
      var k: nat :| PreflightRaises(ReplyAt(w.script, k));
      assert Later(w.script, 0) == w.script;
    }
  }

  // ----- Runs that leave traces -----

  const READY: Reply := Reply("DRY_RUN", Text("READY"), "", "", "", None, None, None, Absent)
  const APPLIED: Reply := Reply("SUCCEEDED", Text(""), GPU_PROFILE, "STOPPED", "", None, None, Some("digest"), Absent)
  const WITHOUT_BACKUP: Reply := APPLIED.(backup := None)
  const LIST_AS_STATUS: Reply := READY.(upgradeStatus := Unhashable)
  const ERROR_AS_TEXT: Reply := Reply("FAILED", Text(""), "", "", "", None, None, None, NotAnObject)

  const ORIGINAL: Container := Container(CPU_PROFILE, 0, None, None, "RUNNING", "RUNNING", map[])
  const IDENTITY: Managed := Managed("ACTIVE", "company", "general", Some(LeaseInfo(1, 100)), ["key"])

  lemma TwoTargets(containers: map<User, Container>, managed: map<User, Managed>)
    requires containers == map["a" := ORIGINAL, "b" := ORIGINAL] && managed == map["a" := IDENTITY, "b" := IDENTITY]
    ensures Known(["a", "b"], managed, containers) && DistinctRows(["a", "b"])
    ensures Targets(["a", "b"], managed, containers, 0)
            == Some([TargetOf("a", IDENTITY, ORIGINAL), TargetOf("b", IDENTITY, ORIGINAL)])
  {
    assert "a"[0] != "b"[0];
    assert CPU_PROFILE[0] != GPU_PROFILE[0];
    assert Eligible(IDENTITY, ORIGINAL, 0);
    assert ["a", "b"][1..] == ["b"] && ["b"][1..] == [];
    assert Targets([], managed, containers, 0) == Some([]);
    var a, b := TargetOf("a", IDENTITY, ORIGINAL), TargetOf("b", IDENTITY, ORIGINAL);
    assert containers["a"] == ORIGINAL && containers["b"] == ORIGINAL;
    assert managed["a"] == IDENTITY && managed["b"] == IDENTITY;
    assert Targets(["b"], managed, containers, 0) == Some([b]) by {
      assert [b] + [] == [b];
    }
    assert [a] + [b] == [a, b];
  }

  /** Two containers; the Worker upgrades the first, and then omits the backup digest of the second, refuses its
      preflight or upgrade with an error that is not an object, or answers the preflight with a list as status or with
      bytes that cannot be decoded: nothing is compensated, and the first stays upgraded, unreported. */
  lemma MalformedReplyLeavesTraces(bad: seq<Reply>)
    requires bad in {[READY, WITHOUT_BACKUP], [READY, ERROR_AS_TEXT], [LIST_AS_STATUS], [ERROR_AS_TEXT], [Undecodable]}
    ensures var containers := map["a" := ORIGINAL, "b" := ORIGINAL];
            var managed := map["a" := IDENTITY, "b" := IDENTITY];
            var w := World(containers, map[], [READY, READY, READY, APPLIED] + bad, []);
            var f := Saga(w, true, true, ["a", "b"], managed, 0);
            LeavesTraces(containers, f) && f.outcome == Raised && f.unresolved == [] && |f.migrated| == 1
  {
    var containers := map["a" := ORIGINAL, "b" := ORIGINAL];
    var managed := map["a" := IDENTITY, "b" := IDENTITY];
    var script := [READY, READY, READY, APPLIED] + bad;
    var w := World(containers, map[], script, []);
    TwoTargets(containers, managed);
    var targets := Targets(["a", "b"], managed, containers, 0).value;
    TargetsTaken(["a", "b"], managed, containers, 0);
    TargetsKnown(["a", "b"], managed, containers, 0);
    var upgrades := Later(script, 2);
    assert upgrades == [READY, APPLIED] + bad;
    assert PairApplies(upgrades, 0);
    assert ReplyAt(upgrades, 2) == bad[0] && (|bad| == 2 ==> ReplyAt(upgrades, 3) == bad[1]);
    assert PairRaises(upgrades, 1);
    assert RaisesAfter(w, targets, 1);
    assert Begins(w, true, true, ["a", "b"]);
    RaisesAfterExactly(w, targets, 1);
    assert Saga(w, true, true, ["a", "b"], managed, 0) == RunTargets(w, targets);
    assert RunTargets(w, targets).outcome == Raised && |RunTargets(w, targets).migrated| == 1;
    TracesMeanRaised(w, true, true, ["a", "b"], managed, 0);
    RaisedReportsNobody(w, true, true, ["a", "b"], managed, 0);
  }

  /** Two containers; the Worker upgrades the first, is not reached for the second, and answers the compensation with
      bytes that cannot be decoded, or nested too deeply: that exception escapes, the first stays upgraded, and its
      user is not reported. No reply but the one in the compensation is malformed. */
  lemma CompensationLeavesTraces(bad: Reply)
    requires RollbackRaises(bad)
    ensures var containers := map["a" := ORIGINAL, "b" := ORIGINAL];
            var managed := map["a" := IDENTITY, "b" := IDENTITY];
            var w := World(containers, map[], [READY, READY, READY, APPLIED, NoReply, bad], []);
            var f := Saga(w, true, true, ["a", "b"], managed, 0);
            LeavesTraces(containers, f) && f.outcome == Raised && f.unresolved == [] && |f.migrated| == 1
  {
    var containers := map["a" := ORIGINAL, "b" := ORIGINAL];
    var managed := map["a" := IDENTITY, "b" := IDENTITY];
    var script := [READY, READY, READY, APPLIED, NoReply, bad];
    var w := World(containers, map[], script, []);
    TwoTargets(containers, managed);
    var targets := Targets(["a", "b"], managed, containers, 0).value;
    TargetsTaken(["a", "b"], managed, containers, 0);
    TargetsKnown(["a", "b"], managed, containers, 0);
    CompensationOfOne(w, targets, bad);
    assert Begins(w, true, true, ["a", "b"]);
    RaisesAfterExactly(w, targets, 1);
    assert Saga(w, true, true, ["a", "b"], managed, 0) == RunTargets(w, targets);
    TracesMeanRaised(w, true, true, ["a", "b"], managed, 0);
    RaisedReportsNobody(w, true, true, ["a", "b"], managed, 0);
  }

  lemma CompensationOfOne(w: World, targets: seq<Target>, bad: Reply)
    requires w.script == [READY, READY, READY, APPLIED, NoReply, bad] && w.operations == map[] && |targets| == 2
    requires RollbackRaises(bad)
    ensures CompensationRaises(w, targets, 1)
  {
    var upgrades := Later(w.script, 2);
    assert upgrades == [READY, APPLIED, NoReply, bad];
    assert PairApplies(upgrades, 0);
    assert ReplyAt(upgrades, 2) == NoReply;
    assert PairReplies(upgrades, 1) == 1 && UpgradeReplies(upgrades, 2, 1) == 3;
    assert CaughtAfter(w, targets, 1, 5);
    assert Later(w.script, 5) == [bad];
    assert RollbackRaises(ReplyAt([bad], 0));
    assert SomeRollbackRaises(Later(w.script, 5), 1);
    assert CompensationRaisesAt(w, targets, 1, 5);
  }
}
