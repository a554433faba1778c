/** How each phase of the GPU upgrade ends, told from the Worker's replies by position. */
module GpuUpgradeReplies {
  import opened Options
  import opened GpuUpgrade
  import opened GpuUpgradeProofs

  // ----- Replies by position -----

  function ReplyAt(script: seq<Reply>, i: nat): Reply {
    if i < |script| then script[i] else NoReply
  }

  function Later(script: seq<Reply>, k: nat): seq<Reply> {
    if k <= |script| then script[k..] else []
  }

  lemma LaterAt(script: seq<Reply>, k: nat, i: nat)
    ensures ReplyAt(Later(script, k), i) == ReplyAt(script, k + i)
    ensures Later(Later(script, k), i) == Later(script, k + i)
  {
  }

  // ----- What each phase makes of the replies -----

  predicate Admissible(w: World, t: Target) {
    StatusOf(w, UpgradeOf(t.user)) in {Draft, FailedOperation}
  }

  ghost predicate SameStarts(a: World, b: World) {
    forall u :: StartOf(u) in a.operations <==> StartOf(u) in b.operations
  }

  ghost predicate PreflightGood(w: World, targets: seq<Target>) {
    forall k :: 0 <= k < |targets| ==> Admissible(w, targets[k]) && PreflightPasses(ReplyAt(w.script, k))
  }

  lemma PreflightGoodFirst(w: World, next: World, targets: seq<Target>)
    requires |targets| > 0 && DistinctUsers(targets) && next.script == Later(w.script, 1)
    requires forall t :: t in targets && t.user != targets[0].user ==> (Admissible(next, t) <==> Admissible(w, t))
    ensures PreflightGood(w, targets) <==>
            Admissible(w, targets[0]) && PreflightPasses(ReplyAt(w.script, 0)) && PreflightGood(next, targets[1..])
  {
    var rest := targets[1..];
    forall k | 0 <= k < |rest|
      ensures Admissible(next, rest[k]) <==> Admissible(w, targets[k + 1])
      ensures ReplyAt(next.script, k) == ReplyAt(w.script, k + 1)
    {
      assert rest[k] == targets[k + 1] && targets[0].user != targets[k + 1].user;
      LaterAt(w.script, 1, k);
    }
    if Admissible(w, targets[0]) && PreflightPasses(ReplyAt(w.script, 0)) && PreflightGood(next, rest) {
      forall k | 0 <= k < |targets| ensures Admissible(w, targets[k]) && PreflightPasses(ReplyAt(w.script, k)) {
        assert k > 0 ==> Admissible(next, rest[k - 1]) && PreflightPasses(ReplyAt(next.script, k - 1));
      }
    }
  }

  /** The batch preflight takes one reply per target, and passes exactly when all are good. */
  lemma {:induction false} PreflightScript(w: World, targets: seq<Target>)
    requires DistinctUsers(targets)
    ensures var (after, signal) := PreflightAll(w, targets);
            && (signal == Fine <==> PreflightGood(w, targets))
            && (signal == Escaped ==> exists k: nat :: PreflightRaises(ReplyAt(w.script, k)))
            && (signal == Fine ==> after.script == Later(w.script, |targets|) && SameStarts(w, after))
    decreases |targets|
  {
    if |targets| > 0 {
      var (next, signal) := PreflightOne(w, targets[0]);
      if signal == Fine {
        PreflightScript(next, targets[1..]);
        PreflightGoodFirst(w, next, targets);
        LaterAt(w.script, 1, |targets[1..]|);
        if k: nat :| PreflightRaises(ReplyAt(next.script, k)) {
          LaterAt(w.script, 1, k);
        }
      } else {
        assert !(Admissible(w, targets[0]) && PreflightPasses(ReplyAt(w.script, 0)));
        assert signal == Escaped ==> PreflightRaises(ReplyAt(w.script, 0));
      }
    }
  }

  /** The two replies of the `k`-th upgrade let it commit. */
  predicate PairApplies(script: seq<Reply>, k: nat) {
    && PreflightPasses(ReplyAt(script, 2 * k))
    && UpgradePasses(ReplyAt(script, 2 * k + 1)) && ReplyAt(script, 2 * k + 1).backup.Some?
  }

  /** One of them is malformed where it is read. */
  predicate PairRaises(script: seq<Reply>, k: nat) {
    || PreflightRaises(ReplyAt(script, 2 * k))
    || (PreflightPasses(ReplyAt(script, 2 * k)) && UpgradeRaises(ReplyAt(script, 2 * k + 1)))
  }

  /** How many of them are read: the second only after a good preflight. */
  function PairReplies(script: seq<Reply>, k: nat): nat {
    if PreflightPasses(ReplyAt(script, 2 * k)) then 2 else 1
  }

  lemma UpgradeOneScript(w: World, t: Target)
    requires t.user in w.containers
    ensures var (after, signal) := UpgradeOne(w, t);
            && (signal == Fine <==> PairApplies(w.script, 0)) && (signal == Escaped <==> PairRaises(w.script, 0))
            && after.script == Later(w.script, PairReplies(w.script, 0))
            && (signal == Fine ==> SameStarts(w, after))
  {
    var checked := Called(w, Preflight);
    assert checked.script == Later(w.script, 1);
    LaterAt(w.script, 1, 0);
    LaterAt(w.script, 1, 1);
  }

  /** The replies read by the upgrades of `n` targets of which `done` commit. */
  function UpgradeReplies(script: seq<Reply>, n: nat, done: nat): nat {
    2 * done + (if done < n then PairReplies(script, done) else 0)
  }

  /** How upgrades of `n` targets end on a script of replies. */
  ghost predicate Ends(script: seq<Reply>, n: nat, p: Progress) {
    && p.migrated <= n
    && (forall k: nat :: k < p.migrated ==> PairApplies(script, k))
    && (p.migrated < n ==> !PairApplies(script, p.migrated))
    && (p.signal == Escaped <==> p.migrated < n && PairRaises(script, p.migrated))
    && (p.signal == Fine <==> p.migrated == n)
    && p.world.script == Later(script, UpgradeReplies(script, n, p.migrated))
  }

  lemma EndsOneMore(script: seq<Reply>, n: nat, p: Progress)
    requires Ends(Later(script, 2), n, p) && PairApplies(script, 0)
    ensures Ends(script, n + 1, p.(migrated := p.migrated + 1))
  {
    forall k: nat ensures PairApplies(Later(script, 2), k) <==> PairApplies(script, k + 1)
      ensures PairRaises(Later(script, 2), k) <==> PairRaises(script, k + 1)
      ensures PairReplies(Later(script, 2), k) == PairReplies(script, k + 1)
    {
      PairLater(script, k);
    }
    forall k: nat | k < p.migrated + 1 ensures PairApplies(script, k) {
      assert k > 0 ==> PairApplies(Later(script, 2), k - 1);
    }
    assert 2 + UpgradeReplies(Later(script, 2), n, p.migrated) == UpgradeReplies(script, n + 1, p.migrated + 1);
    LaterAt(script, 2, UpgradeReplies(Later(script, 2), n, p.migrated));
  }

  /** The upgrades commit exactly the longest prefix whose pairs apply. */
  lemma {:induction false} UpgradeScript(w: World, targets: seq<Target>)
    requires forall t :: t in targets ==> t.user in w.containers
    ensures var p := UpgradeEach(w, targets);
            Ends(w.script, |targets|, p) && (p.signal == Fine ==> SameStarts(w, p.world))
    decreases |targets|
  {
    if |targets| > 0 {
      UpgradeOneScript(w, targets[0]);
      UpgradeOneKeeps(w, targets[0]);
      var (next, signal) := UpgradeOne(w, targets[0]);
      if signal == Fine {
        UpgradeScript(next, targets[1..]);
        UpgradeEachFirst(w, targets);
        EndsOneMore(w.script, |targets| - 1, UpgradeEach(next, targets[1..]));
      } else {
        assert UpgradeEach(w, targets) == Progress(next, signal, 0);
      }
    }
  }

  lemma PairLater(script: seq<Reply>, k: nat)
    ensures PairApplies(Later(script, 2), k) <==> PairApplies(script, k + 1)
    ensures PairRaises(Later(script, 2), k) <==> PairRaises(script, k + 1)
    ensures PairReplies(Later(script, 2), k) == PairReplies(script, k + 1)
  {
    LaterAt(script, 2, 2 * k);
    LaterAt(script, 2, 2 * k + 1);
  }

  /** The first `j` starts find no operation of their own and are answered with something that does not raise. */
  ghost predicate StartsGoOn(w: World, order: seq<Target>, script: seq<Reply>, j: nat) {
    && j <= |order|
    && (forall i: nat :: i < j ==> StartOf(order[i].user) !in w.operations)
    && (forall i: nat :: i < j ==> ReplyAt(script, i).Reply? && !StartRaises(ReplyAt(script, i)))
  }

  /** The `j`-th start raises, and nothing has stopped the starts before it. */
  ghost predicate StartRaisesAt(w: World, order: seq<Target>, script: seq<Reply>, j: nat) {
    && j < |order| && StartsGoOn(w, order, script, j)
    && StartOf(order[j].user) !in w.operations && StartRaises(ReplyAt(script, j))
  }

  ghost predicate SomeStartRaises(w: World, order: seq<Target>, script: seq<Reply>) {
    exists j: nat :: StartRaisesAt(w, order, script, j)
  }

  ghost predicate LeftStopped(script: seq<Reply>, j: nat) {
    exists i: nat :: i < j && !StartPasses(ReplyAt(script, i))
  }

  /** The starts end with an exception that is caught, `used` replies read: the `j`-th has an operation already or gets
      no answer, or all were made and one was left stopped. */
  ghost predicate StartCaughtAt(w: World, order: seq<Target>, script: seq<Reply>, stopped: bool, j: nat, used: nat) {
    && StartsGoOn(w, order, script, j)
    && if j == |order| then used == j && (stopped || LeftStopped(script, j))
       else if StartOf(order[j].user) in w.operations then used == j
       else used == j + 1 && Unavailable(ReplyAt(script, j))
  }

  ghost predicate StartsCaught(w: World, order: seq<Target>, script: seq<Reply>, stopped: bool, used: nat) {
    exists j: nat :: StartCaughtAt(w, order, script, stopped, j, used)
  }

  ghost predicate SomeUse(w: World, order: seq<Target>, script: seq<Reply>, stopped: bool) {
    exists used: nat :: StartsCaught(w, order, script, stopped, used)
  }

  /** How the starts end, told from the replies. */
  ghost predicate StartsEnd(w: World, order: seq<Target>, stopped: bool, after: World, signal: Signal) {
    && (signal == Escaped <==> SomeStartRaises(w, order, w.script))
    && (signal == Caught <==> SomeUse(w, order, w.script, stopped))
    && (forall used: nat :: StartsCaught(w, order, w.script, stopped, used) ==> after.script == Later(w.script, used))
  }

  lemma {:induction false} StartScript(w: World, order: seq<Target>, stopped: bool)
    requires (forall t :: t in order ==> t.user in w.containers) && DistinctUsers(order)
    ensures StartsEnd(w, order, stopped, StartEach(w, order, stopped).0, StartEach(w, order, stopped).1)
    decreases |order|
  {
    if |order| == 0 {
      NoStarts(w, stopped);
      assert order == [];
    } else {
      StartOneKeeps(w, order[0]);
      var (next, signal, left) := StartOne(w, order[0]);
      if signal == Fine {
        assert next.script == Later(w.script, 1);
        StartScript(next, order[1..], stopped || left);
        var (after, end) := StartEach(next, order[1..], stopped || left);
        StartsEndLater(w, next, order, stopped, left, after, end);
      } else {
        FirstStartEnds(w, order, stopped);
      }
    }
  }

  lemma NoStarts(w: World, stopped: bool)
    ensures StartsEnd(w, [], stopped, w, if stopped then Caught else Fine)
  {
    if stopped {
      assert StartCaughtAt(w, [], w.script, stopped, 0, 0);
      assert StartsCaught(w, [], w.script, stopped, 0);
    }
  }

  lemma FirstStartEnds(w: World, order: seq<Target>, stopped: bool)
    requires |order| > 0 && order[0].user in w.containers
    requires StartOne(w, order[0]).1 != Fine
    ensures StartsEnd(w, order, stopped, StartOne(w, order[0]).0, StartOne(w, order[0]).1)
  {
    var first := ReplyAt(w.script, 0);
    var exists0 := StartOf(order[0].user) in w.operations;
    forall j: nat | StartsGoOn(w, order, w.script, j) ensures j == 0 {
      if j > 0 {
        assert false;
      }
    }
    if exists0 || Unavailable(first) {
      var used := if exists0 then 0 else 1;
      assert StartCaughtAt(w, order, w.script, stopped, 0, used);
      assert StartsCaught(w, order, w.script, stopped, used);
    } else {
      assert StartRaisesAt(w, order, w.script, 0);
    }
  }

  /** The second world is the first after its first start went on. */
  ghost predicate WentOn(w: World, next: World, order: seq<Target>) {
    && |order| > 0 && DistinctUsers(order) && next.script == Later(w.script, 1)
    && StartOf(order[0].user) !in w.operations
    && ReplyAt(w.script, 0).Reply? && !StartRaises(ReplyAt(w.script, 0))
    && forall u :: u != order[0].user ==> (StartOf(u) in next.operations <==> StartOf(u) in w.operations)
  }

  lemma OneLater(w: World, next: World, order: seq<Target>)
    requires WentOn(w, next, order)
    ensures forall i: nat :: ReplyAt(next.script, i) == ReplyAt(w.script, i + 1)
    ensures forall i: nat :: i < |order[1..]| ==>
              (StartOf(order[1..][i].user) in next.operations <==> StartOf(order[i + 1].user) in w.operations)
  {
    forall i: nat ensures ReplyAt(next.script, i) == ReplyAt(w.script, i + 1) {
      LaterAt(w.script, 1, i);
    }
    forall i: nat | i < |order[1..]|
      ensures StartOf(order[1..][i].user) in next.operations <==> StartOf(order[i + 1].user) in w.operations
    {
      assert order[1..][i] == order[i + 1] && order[0].user != order[i + 1].user;
    }
  }

  lemma StartsGoOnLater(w: World, next: World, order: seq<Target>, j: nat)
    requires WentOn(w, next, order)
    ensures StartsGoOn(next, order[1..], next.script, j) <==> StartsGoOn(w, order, w.script, j + 1)
  {
    OneLater(w, next, order);
    var rest := order[1..];
    if StartsGoOn(next, rest, next.script, j) {
      forall i: nat | i < j + 1
        ensures StartOf(order[i].user) !in w.operations
        ensures ReplyAt(w.script, i).Reply? && !StartRaises(ReplyAt(w.script, i))
      {
        assert i > 0 ==> StartOf(rest[i - 1].user) !in next.operations;
        assert i > 0 ==> ReplyAt(next.script, i - 1) == ReplyAt(w.script, i);
      }
    }
    if StartsGoOn(w, order, w.script, j + 1) {
      forall i: nat | i < j
        ensures StartOf(rest[i].user) !in next.operations
        ensures ReplyAt(next.script, i).Reply? && !StartRaises(ReplyAt(next.script, i))
      {
        assert StartOf(order[i + 1].user) !in w.operations && ReplyAt(w.script, i + 1).Reply?;
      }
    }
  }

  lemma StartRaisesLater(w: World, next: World, order: seq<Target>, j: nat)
    requires WentOn(w, next, order)
    ensures StartRaisesAt(next, order[1..], next.script, j) <==> StartRaisesAt(w, order, w.script, j + 1)
    ensures !StartRaisesAt(w, order, w.script, 0)
  {
    OneLater(w, next, order);
    StartsGoOnLater(w, next, order, j);
  }

  lemma LeftStoppedLater(w: World, next: World, order: seq<Target>, j: nat)
    requires WentOn(w, next, order)
    ensures LeftStopped(w.script, j + 1) <==> !StartPasses(ReplyAt(w.script, 0)) || LeftStopped(next.script, j)
  {
    OneLater(w, next, order);
    if i: nat :| i < j && !StartPasses(ReplyAt(next.script, i)) {
      assert i + 1 < j + 1 && !StartPasses(ReplyAt(w.script, i + 1));
    }
    if i: nat :| i < j + 1 && !StartPasses(ReplyAt(w.script, i)) {
      assert i > 0 ==> !StartPasses(ReplyAt(next.script, i - 1));
    }
  }

  lemma StartCaughtLater(w: World, next: World, order: seq<Target>, stopped: bool, left: bool, j: nat, used: nat)
    requires WentOn(w, next, order) && (left <==> !StartPasses(ReplyAt(w.script, 0)))
    ensures StartCaughtAt(next, order[1..], next.script, stopped || left, j, used)
            <==> StartCaughtAt(w, order, w.script, stopped, j + 1, used + 1)
    ensures !StartCaughtAt(w, order, w.script, stopped, 0, used)
  {
    OneLater(w, next, order);
    StartsGoOnLater(w, next, order, j);
    LeftStoppedLater(w, next, order, j);
  }

  lemma StartsCaughtLater(w: World, next: World, order: seq<Target>, stopped: bool, left: bool, used: nat)
    requires WentOn(w, next, order) && (left <==> !StartPasses(ReplyAt(w.script, 0)))
    ensures StartsCaught(next, order[1..], next.script, stopped || left, used)
            <==> StartsCaught(w, order, w.script, stopped, used + 1)
    ensures !StartsCaught(w, order, w.script, stopped, 0)
  {
    var rest, both := order[1..], stopped || left;
    if j: nat :| StartCaughtAt(next, rest, next.script, both, j, used) {
      StartCaughtLater(w, next, order, stopped, left, j, used);
    }
    var more := used + 1;
    if j: nat :| StartCaughtAt(w, order, w.script, stopped, j, more) {
      StartCaughtLater(w, next, order, stopped, left, if j > 0 then j - 1 else 0, used);
      StartCaughtLater(w, next, order, stopped, left, 0, used + 1);
    }
    if j: nat :| StartCaughtAt(w, order, w.script, stopped, j, 0) {
      StartCaughtLater(w, next, order, stopped, left, 0, 0);
    }
  }

  lemma StartsEndLater(w: World, next: World, order: seq<Target>, stopped: bool, left: bool, after: World,
                       signal: Signal)
    requires WentOn(w, next, order) && (left <==> !StartPasses(ReplyAt(w.script, 0)))
    requires StartsEnd(next, order[1..], stopped || left, after, signal)
    ensures StartsEnd(w, order, stopped, after, signal)
  {
    SomeStartRaisesLater(w, next, order);
    var rest, both := order[1..], stopped || left;
    forall used: nat | StartsCaught(w, order, w.script, stopped, used)
      ensures after.script == Later(w.script, used) && SomeUse(next, rest, next.script, both)
    {
      StartsCaughtLater(w, next, order, stopped, left, if used > 0 then used - 1 else 0);
      assert used > 0 && StartsCaught(next, rest, next.script, both, used - 1);
      LaterAt(w.script, 1, used - 1);
    }
    if used: nat :| StartsCaught(next, rest, next.script, both, used) {
      StartsCaughtLater(w, next, order, stopped, left, used);
      assert StartsCaught(w, order, w.script, stopped, used + 1);
    }
  }

  lemma SomeStartRaisesLater(w: World, next: World, order: seq<Target>)
    requires WentOn(w, next, order)
    ensures SomeStartRaises(next, order[1..], next.script) <==> SomeStartRaises(w, order, w.script)
  {
    if j: nat :| StartRaisesAt(next, order[1..], next.script, j) {
      StartRaisesLater(w, next, order, j);
    }
    if j: nat :| StartRaisesAt(w, order, w.script, j) {
      StartRaisesLater(w, next, order, if j > 0 then j - 1 else 0);
    }
  }

  lemma {:induction false} InsertKeepsDistinct(t: Target, sorted: seq<Target>)
    requires DistinctUsers(sorted) && !IsUserOf(sorted, t.user)
    ensures DistinctUsers(InsertByExpiry(t, sorted))
    ensures forall u :: IsUserOf(InsertByExpiry(t, sorted), u) <==> u == t.user || IsUserOf(sorted, u)
  {
    if |sorted| == 0 || t.expiresAt <= sorted[0].expiresAt {
      ConsUsers(t, sorted);
    } else {
      var rest := sorted[1..];
      forall u ensures IsUserOf(sorted, u) <==> u == sorted[0].user || IsUserOf(rest, u) {
        ConsUser(sorted[0], rest, u);
        assert sorted == [sorted[0]] + rest;
      }
      InsertKeepsDistinct(t, rest);
      assert !IsUserOf(rest, sorted[0].user);
      ConsUsers(sorted[0], InsertByExpiry(t, rest));
    }
  }

  lemma {:induction false} RestartsAreDistinct(targets: seq<Target>)
    requires DistinctUsers(targets)
    ensures DistinctUsers(RestartOrder(targets))
    ensures forall u :: IsUserOf(RestartOrder(targets), u) ==> IsUserOf(targets, u)
  {
    if |targets| > 0 {
      var rest := targets[1..];
      RestartsAreDistinct(rest);
      forall u ensures IsUserOf(targets, u) <==> u == targets[0].user || IsUserOf(rest, u) {
        ConsUser(targets[0], rest, u);
        assert targets == [targets[0]] + rest;
      }
      assert !IsUserOf(rest, targets[0].user);
      InsertKeepsDistinct(targets[0], RestartOrder(rest));
    }
  }
}
