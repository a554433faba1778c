/** Plans that no batch reaches, because enough plans that never succeed come before them. */
module ProvisionStarvation {
  import opened Options
  import opened Counting
  import opened ProvisionReconciliation
  import opened ProvisionQueue

  // ----- Plans that never succeed -----

  /** Whatever the Worker answers, the plan is not verified. */
  ghost predicate NeverVerifies(s: Store, p: Id) {
    forall reply, now :: ReconcilePlan(s, p, reply, now).1.status != Verified
  }

  const CLEAN: WorkerReply :=
    Reply(Some([]), Some([]), "PASS", "DRY_RUN", "compute.provision.retry_verify", "VERIFIED_ZERO_RESIDUE")

  lemma PendingIsNotReconciled(s: Store, p: Id, op: Id)
    requires PendingPlan(s, p) && op < |s.operations|
    ensures !AlreadyReconciled(s, p, op)
  {
  }

  /** A pending plan never succeeds exactly when it is not eligible, or the portal itself still holds something. */
  lemma NeverVerifiesExactly(s: Store, p: Id)
    requires PendingPlan(s, p)
    ensures var stage := FailedStage(s.operations, s.plans[p], p, |s.operations|);
            NeverVerifies(s, p) <==>
            || stage.None? || !Eligible(s, p, stage.value)
            || PortalResidue(s.portal, s.requests[s.plans[p].request].account) != []
  {
    var stage := FailedStage(s.operations, s.plans[p], p, |s.operations|);
    var residue := PortalResidue(s.portal, s.requests[s.plans[p].request].account);
    if stage.Some? {
      PendingIsNotReconciled(s, p, stage.value);
      if Eligible(s, p, stage.value) {
        AllAbsentExactly(residue, CLEAN);
        assert residue == [] ==> ReconcilePlan(s, p, CLEAN, 0).1.status == Verified;
        forall reply, now ensures residue != [] ==> ReconcilePlan(s, p, reply, now).1.status != Verified {
          AllAbsentExactly(residue, reply);
        }
      }
    }
  }

  /** After a manual review the next verdicts are what they would have been. */
  lemma ReviewKeepsVerdict(s: Store, p: Id, reply: WorkerReply, now: Time, next: WorkerReply, later: Time)
    requires ReconcilePlan(s, p, reply, now).1.status == ManualReview
    ensures ReconcilePlan(ReconcilePlan(s, p, reply, now).0, p, next, later).1.status
            == ReconcilePlan(s, p, next, later).1.status
  {
    ManualReviewStaysEligible(s, p, reply, now);
    var (after, outcome) := ReconcilePlan(s, p, reply, now);
    ReviewedIsEligible(s, p, reply, now);
    VerdictOfEligible(s, p, outcome.stage.value, next, later);
    VerdictOfEligible(after, p, outcome.stage.value, next, later);
  }

  lemma ReviewedIsEligible(s: Store, p: Id, reply: WorkerReply, now: Time)
    requires ReconcilePlan(s, p, reply, now).1.status == ManualReview
    ensures var (after, outcome) := ReconcilePlan(s, p, reply, now);
            && p < |s.plans| && s.plans[p].request < |s.requests|
            && outcome.stage == FailedStage(s.operations, s.plans[p], p, |s.operations|) && outcome.stage.Some?
            && !AlreadyReconciled(s, p, outcome.stage.value) && Eligible(s, p, outcome.stage.value)
            && after.plans == s.plans && after.requests == s.requests && after.portal == s.portal
  {
  }

  lemma VerdictOfEligible(s: Store, p: Id, op: Id, reply: WorkerReply, now: Time)
    requires p < |s.plans| && op < |s.operations| && s.plans[p].request < |s.requests|
    requires FailedStage(s.operations, s.plans[p], p, |s.operations|) == Some(op)
    requires !AlreadyReconciled(s, p, op) && Eligible(s, p, op)
    ensures ReconcilePlan(s, p, reply, now).1.status ==
            if reply.Undecodable? then Escaped
            else if AllAbsent(ZeroResidue(PortalResidue(s.portal, s.requests[s.plans[p].request].account), reply))
            then Verified else ManualReview
  {
  }

  ghost predicate Stuck(s: Store, p: Id) {
    PendingPlan(s, p) && NeverVerifies(s, p)
  }

  /** Such a plan stays on the queue whatever is attempted. */
  lemma StuckStays(s: Store, a: Attempt, p: Id)
    requires Stuck(s, p)
    ensures Stuck(AttemptOne(s, a).0, p) && AttemptOne(s, a).0.plans == s.plans
  {
    var (after, outcome) := AttemptOne(s, a);
    AttemptChangesTables(s, a.plan, a.reply, a.now);
    if a.plan != p {
      OtherPlansUntouched(s, a.plan, p, a.reply, a.now);
      AttemptSpares(s, a.plan, p, a.reply, a.now);
    } else {
      QueueFollowsOutcome(s, p, a.reply, a.now);
    }
    forall reply, now ensures ReconcilePlan(after, p, reply, now).1.status != Verified {
      assert ReconcilePlan(s, p, reply, now).1.status != Verified;
      if a.plan != p {
        OutcomeStays(s, after, p, reply, now);
      } else if outcome.status == ManualReview {
        ReviewKeepsVerdict(s, p, a.reply, a.now, reply, now);
      }
    }
  }

  lemma {:induction false} StuckOverBatch(s: Store, attempts: seq<Attempt>, p: Id)
    requires Stuck(s, p)
    ensures Stuck(RunPending(s, attempts).store, p) && RunPending(s, attempts).store.plans == s.plans
    decreases |attempts|
  {
    if |attempts| > 0 {
      StuckStays(s, attempts[0], p);
      if AttemptOne(s, attempts[0]).1.status != Escaped {
        StuckOverBatch(AttemptOne(s, attempts[0]).0, attempts[1..], p);
      }
    }
  }

  // ----- Plans that are never reached -----

  datatype Batch = Batch(limit: nat, moments: seq<Moment>)

  predicate Long(batches: seq<Batch>) {
    forall k :: 0 <= k < |batches| ==> batches[k].limit <= |batches[k].moments|
  }

  function After(s: Store, b: Batch): Store
    requires b.limit <= |b.moments|
  {
    RunPending(s, AttemptsOf(PendingIds(s, b.limit), b.moments)).store
  }

  /** One of the batches, run one after the other, attempts the plan. */
  ghost predicate SomeReaches(s: Store, batches: seq<Batch>, p: Id)
    requires Long(batches)
    decreases |batches|
  {
    && |batches| > 0
    && (Reaches(s, batches[0].limit, batches[0].moments, p) || SomeReaches(After(s, batches[0]), batches[1..], p))
  }

  ghost predicate StuckBefore(s: Store, waiting: set<Id>, p: Id) {
    && p < |s.plans|
    && forall w :: w in waiting ==> Stuck(s, w) && Before(s.plans, w, p)
  }

  lemma FilledBatch(s: Store, b: Batch, waiting: set<Id>, p: Id)
    requires b.limit <= |b.moments| && b.limit <= |waiting| && StuckBefore(s, waiting, p)
    ensures !Reaches(s, b.limit, b.moments, p)
  {
    var queue, ids := PendingQueue(s), PendingIds(s, b.limit);
    if k: nat :| k < |Outcomes(s, AttemptsOf(ids, b.moments))| && ids[k] == p {
      forall w | w in waiting ensures w in queue[..k] {
        assert Stuck(s, w);
        var j :| 0 <= j < |queue| && queue[j] == w;
        if k <= j {
          LaterIsNotBefore(s.plans, queue, k, j);
        }
        assert queue[..k][j] == w;
      }
      ListedAtMost(waiting, queue[..k]);
    }
  }

  lemma LaterIsNotBefore(plans: seq<Plan>, queue: seq<Id>, k: nat, j: nat)
    requires InOrder(plans, queue) && k <= j < |queue|
    ensures !Before(plans, queue[j], queue[k])
  {
    assert k < j ==> Before(plans, queue[k], queue[j]);
  }

  /** Behind `limit` plans or more that never succeed a plan is attempted by no batch of `limit`, ever. */
  lemma {:induction false} StuckStarve(s: Store, batches: seq<Batch>, waiting: set<Id>, p: Id)
    requires Long(batches) && StuckBefore(s, waiting, p)
    requires forall k :: 0 <= k < |batches| ==> batches[k].limit <= |waiting|
    ensures !SomeReaches(s, batches, p)
    decreases |batches|
  {
    if |batches| > 0 {
      var b := batches[0];
      FilledBatch(s, b, waiting, p);
      if waiting == {} {
        NothingReached(s, batches, p);
      } else {
        var w :| w in waiting;
        StuckOverBatch(s, AttemptsOf(PendingIds(s, b.limit), b.moments), w);
        forall x | x in waiting ensures Stuck(After(s, b), x) {
          StuckOverBatch(s, AttemptsOf(PendingIds(s, b.limit), b.moments), x);
        }
        StuckStarve(After(s, b), batches[1..], waiting, p);
      }
    }
  }

  /** Batches of none reach none. */
  lemma {:induction false} NothingReached(s: Store, batches: seq<Batch>, p: Id)
    requires Long(batches) && forall k :: 0 <= k < |batches| ==> batches[k].limit == 0
    ensures !SomeReaches(s, batches, p)
    decreases |batches|
  {
    if |batches| > 0 {
      NothingReached(After(s, batches[0]), batches[1..], p);
    }
  }

  // ----- Stores where that happens -----

  /** Numerals of different lengths. */
  function Numeral(i: nat): (text: string)
    ensures |text| == i + 1
  {
    if i == 0 then "1" else Numeral(i - 1) + "1"
  }

  function TypeAt(j: nat): ResourceType
    requires j < 5
  {
    if j == 0 then Uid else if j == 1 then Gid else if j == 2 then ProjectId else if j == 3 then SshPort
    else ContainerName
  }

  function RowAt(k: nat): Reservation {
    var i, t := k / 5, TypeAt(k % 5);
    Reservation(i, i, i, t, Numeral(i), FailedHold, Some(TypeName(t) + ":" + Numeral(i)), None, None)
  }

  /** Five held reservations for each plan, one after the other; the first `n` of them. */
  function Table(n: nat): (table: seq<Reservation>)
    ensures |table| == n && forall k :: 0 <= k < n ==> table[k] == RowAt(k)
  {
    if n == 0 then [] else Table(n - 1) + [RowAt(n - 1)]
  }

  function PlanAt(i: nat): Plan {
    Plan(i, i, "FAILED", Numeral(i), Numeral(i), Numeral(i), Numeral(i), Numeral(i), i)
  }

  function Plans(n: nat): (plans: seq<Plan>)
    ensures |plans| == n && forall i :: 0 <= i < n ==> plans[i] == PlanAt(i)
  {
    if n == 0 then [] else Plans(n - 1) + [PlanAt(n - 1)]
  }

  function RequestAt(i: nat): Request {
    Request("FAILED", None, None, Some(i), i)
  }

  function Requests(n: nat): (requests: seq<Request>)
    ensures |requests| == n && forall i :: 0 <= i < n ==> requests[i] == RequestAt(i)
  {
    if n == 0 then [] else Requests(n - 1) + [RequestAt(n - 1)]
  }

  function IdsAt(i: nat): map<ResourceType, Id> {
    map[Uid := 5 * i, Gid := 5 * i + 1, ProjectId := 5 * i + 2, SshPort := 5 * i + 3, ContainerName := 5 * i + 4]
  }

  function StageAt(i: nat): Operation {
    Operation("compute_resource_request", i, "compute.provision", true, Some("REQUIRES_MANUAL_REVIEW"),
              Some(Payload(i, i, IdsAt(i))), None, i)
  }

  function Stages(n: nat): (stages: seq<Operation>)
    ensures |stages| == n && forall i :: 0 <= i < n ==> stages[i] == StageAt(i)
  {
    if n == 0 then [] else Stages(n - 1) + [StageAt(n - 1)]
  }

  /** The portal still holds an identity for the accounts below `n`. */
  function Identities(n: nat): (portal: map<Id, PortalRows>)
    ensures forall i: Id :: i in portal <==> i < n
    ensures forall i: Id :: i < n ==> portal[i].identity
  {
    if n == 0 then map[] else Identities(n - 1)[n - 1 := PortalRows(true, false, false, false, false)]
  }

  /** `n` + 1 failed plans with their stages and reservations; all but the last have left something in the portal. */
  function Family(n: nat): Store {
    Store(Plans(n + 1), Requests(n + 1), Stages(n + 1), Table(5 * n + 5), Identities(n))
  }

  lemma FamilyMeetsConstraints(n: nat)
    ensures Constraints(Family(n).reservations)
  {
    var table := Family(n).reservations;
    forall a, b | 0 <= a < b < |table| ensures table[a].activeKey != table[b].activeKey {
      KeysDiffer(a, b);
    }
  }

  lemma KeysDiffer(a: nat, b: nat)
    requires a < b
    ensures RowAt(a).activeKey != RowAt(b).activeKey
  {
    var s, t := TypeName(TypeAt(a % 5)), TypeName(TypeAt(b % 5));
    if a % 5 == b % 5 {
      assert a / 5 != b / 5;
      assert |s + ":" + Numeral(a / 5)| == |s| + 2 + a / 5;
      assert |t + ":" + Numeral(b / 5)| == |t| + 2 + b / 5;
    } else {
      NamesDiffer(TypeAt(a % 5), TypeAt(b % 5));
      assert (s + ":" + Numeral(a / 5))[0] == s[0] && (t + ":" + Numeral(b / 5))[0] == t[0];
    }
  }

  lemma NamesDiffer(s: ResourceType, t: ResourceType)
    requires s != t
    ensures |TypeName(s)| > 0 && |TypeName(t)| > 0 && TypeName(s)[0] != TypeName(t)[0]
  {
  }

  /** A list in strict order with exactly the numbers from `lo` to `hi` is that range. */
  lemma {:induction false} IsRange(rows: seq<nat>, lo: nat, hi: nat)
    requires lo <= hi && (forall j, k :: 0 <= j < k < |rows| ==> rows[j] < rows[k])
    requires forall x: nat :: x in rows <==> lo <= x < hi
    ensures |rows| == hi - lo && forall k :: 0 <= k < |rows| ==> rows[k] == lo + k
    decreases |rows|
  {
    if |rows| == 0 {
      assert lo !in rows;
    } else {
      var front, last := rows[..|rows| - 1], rows[|rows| - 1];
      assert rows == front + [last];
      LastOfRange(front, last, lo, hi);
      IsRange(front, lo, hi - 1);
    }
  }

  lemma LastOfRange(front: seq<nat>, last: nat, lo: nat, hi: nat)
    requires forall k :: 0 <= k < |front| ==> front[k] < last
    requires forall x: nat :: x in front + [last] <==> lo <= x < hi
    ensures lo < hi && last == hi - 1 && forall x: nat :: x in front <==> lo <= x < hi - 1
  {
    assert (front + [last])[|front|] == last;
    assert last in front + [last] && hi - 1 in front + [last];
    forall x: nat ensures x in front <==> lo <= x < hi - 1 {
      assert x in front + [last] <==> x in front || x == last;
    }
  }

  ghost predicate InFives(table: seq<Reservation>) {
    forall x :: 0 <= x < |table| ==> table[x].plan == x / 5
  }

  lemma TableInFives(n: nat)
    ensures InFives(Table(n))
  {
    forall x | 0 <= x < n ensures Table(n)[x].plan == x / 5 {
      assert Table(n)[x] == RowAt(x);
    }
  }

  lemma RowsInFives(table: seq<Reservation>, i: nat)
    requires InFives(table) && 5 * i + 5 <= |table|
    ensures RowsOf(table, i, |table|) == [5 * i, 5 * i + 1, 5 * i + 2, 5 * i + 3, 5 * i + 4]
  {
    var rows := RowsOf(table, i, |table|);
    forall x: nat ensures x in rows <==> 5 * i <= x < 5 * i + 5 {
      if x in rows {
        var k :| 0 <= k < |rows| && rows[k] == x;
      }
      if 5 * i <= x < 5 * i + 5 {
        assert table[x].plan == i;
      }
    }
    IsRange(rows, 5 * i, 5 * i + 5);
  }

  lemma RowsOfPlan(i: nat, j: nat)
    requires j < 5
    ensures RowAt(5 * i + j).plan == i && RowAt(5 * i + j).request == i && RowAt(5 * i + j).account == i
    ensures RowAt(5 * i + j).resource == TypeAt(j) && RowAt(5 * i + j).value == Numeral(i) && Held(RowAt(5 * i + j))
  {
    assert (5 * i + j) / 5 == i && (5 * i + j) % 5 == j;
  }

  /** Row `j` of plan `i` is held, as planned. */
  ghost predicate HeldAt(table: seq<Reservation>, i: nat, j: nat)
    requires j < 5 && 5 * i + 5 <= |table|
  {
    var r := table[5 * i + j];
    && r.plan == i && r.request == i && r.account == i && r.resource == TypeAt(j) && r.value == Numeral(i) && Held(r)
  }

  ghost predicate FiveHeld(table: seq<Reservation>, i: nat) {
    5 * i + 5 <= |table| && forall j :: 0 <= j < 5 ==> HeldAt(table, i, j)
  }

  lemma BoundRows(table: seq<Reservation>, i: nat, rows: seq<Id>)
    requires FiveHeld(table, i) && rows == [5 * i, 5 * i + 1, 5 * i + 2, 5 * i + 3, 5 * i + 4]
    ensures IdsByType(table, rows) == IdsAt(i)
    ensures Pairs(table, rows) == ExpectedPairs(PlanAt(i))
  {
    assert HeldAt(table, i, 0) && HeldAt(table, i, 1) && HeldAt(table, i, 2) && HeldAt(table, i, 3);
    assert HeldAt(table, i, 4);
    IdsOfFive(table, 5 * i, rows);
    PairsOfFive(table, i, rows);
  }

  lemma PairsOfFive(table: seq<Reservation>, i: nat, rows: seq<Id>)
    requires FiveHeld(table, i) && |rows| == 5 && forall j :: 0 <= j < 5 ==> rows[j] == 5 * i + j
    ensures Pairs(table, rows) == ExpectedPairs(PlanAt(i))
  {
    forall j | 0 <= j < 5 ensures table[rows[j]].resource == TypeAt(j) && table[rows[j]].value == Numeral(i) {
      assert HeldAt(table, i, j);
    }
    forall t: ResourceType ensures (t, Numeral(i)) in Pairs(table, rows) && Expected(PlanAt(i), t) == Numeral(i) {
      var j := PlaceOf(t);
      assert (table[rows[j]].resource, table[rows[j]].value) == (t, Numeral(i));
    }
  }

  function PlaceOf(t: ResourceType): (j: nat)
    ensures j < 5 && TypeAt(j) == t
  {
    match t
    case Uid => 0
    case Gid => 1
    case ProjectId => 2
    case SshPort => 3
    case ContainerName => 4
  }

  lemma IdsOfFive(table: seq<Reservation>, k: nat, rows: seq<Id>)
    requires rows == [k, k + 1, k + 2, k + 3, k + 4] && k + 5 <= |table|
    requires table[k].resource == Uid && table[k + 1].resource == Gid && table[k + 2].resource == ProjectId
    requires table[k + 3].resource == SshPort && table[k + 4].resource == ContainerName
    ensures IdsByType(table, rows)
            == map[Uid := k, Gid := k + 1, ProjectId := k + 2, SshPort := k + 3, ContainerName := k + 4]
  {
    assert rows[..4] == [k, k + 1, k + 2, k + 3] && rows[..3] == [k, k + 1, k + 2];
    assert rows[..2] == [k, k + 1] && rows[..1] == [k] && rows[..0] == [];
    assert rows[..4][..3] == rows[..3] && rows[..3][..2] == rows[..2] && rows[..2][..1] == rows[..1];
    assert rows[..1][..0] == [];
    assert IdsByType(table, []) == map[];
    assert IdsByType(table, rows[..1]) == map[Uid := k];
    assert IdsByType(table, rows[..2]) == map[Uid := k, Gid := k + 1];
    assert IdsByType(table, rows[..3]) == map[Uid := k, Gid := k + 1, ProjectId := k + 2];
    assert IdsByType(table, rows[..4]) == map[Uid := k, Gid := k + 1, ProjectId := k + 2, SshPort := k + 3];
  }

  lemma TableHolds(n: nat, i: nat)
    requires i <= n
    ensures FiveHeld(Table(5 * n + 5), i)
  {
    var table := Table(5 * n + 5);
    forall j | 0 <= j < 5 ensures HeldAt(table, i, j) {
      assert table[5 * i + j] == RowAt(5 * i + j);
      RowsOfPlan(i, j);
    }
  }

  lemma FiveAreBound(table: seq<Reservation>, i: nat)
    requires InFives(table) && FiveHeld(table, i)
    ensures RowsBound(table, i, PlanAt(i), Some(Payload(i, i, IdsAt(i))))
  {
    RowsInFives(table, i);
    var rows := RowsOf(table, i, |table|);
    BoundRows(table, i, rows);
    RowsBelong(table, i, rows);
  }

  lemma RowsBelong(table: seq<Reservation>, i: nat, rows: seq<Id>)
    requires FiveHeld(table, i) && |rows| == 5 && forall j :: 0 <= j < 5 ==> rows[j] == 5 * i + j
    ensures forall k :: 0 <= k < |rows| ==> table[rows[k]].request == i && table[rows[k]].account == i
  {
    forall k | 0 <= k < |rows| ensures table[rows[k]].request == i && table[rows[k]].account == i {
      assert HeldAt(table, i, k);
    }
  }

  lemma RowsAreHeld(table: seq<Reservation>, i: nat, k: Id)
    requires InFives(table) && FiveHeld(table, i) && k < |table| && table[k].plan == i
    ensures Held(table[k])
  {
    assert k / 5 == i && HeldAt(table, i, k - 5 * i);
  }

  lemma StageOfFamily(n: nat, i: nat)
    requires i <= n
    ensures FailedStage(Stages(n + 1), PlanAt(i), i, n + 1) == Some(i)
  {
    var stages := Stages(n + 1);
    assert stages[i] == StageAt(i) && IsFailedStage(stages[i], PlanAt(i), i);
    var stage := FailedStage(stages, PlanAt(i), i, n + 1);
    if stage.Some? {
      assert stages[stage.value] == StageAt(stage.value);
    }
  }

  /** Every plan of the family is eligible. */
  lemma FamilyIsEligible(n: nat, i: nat)
    requires i <= n
    ensures PendingPlan(Family(n), i) && Eligible(Family(n), i, i)
    ensures FailedStage(Family(n).operations, Family(n).plans[i], i, |Family(n).operations|) == Some(i)
  {
    var s := Family(n);
    assert s.plans[i] == PlanAt(i) && s.requests[i] == RequestAt(i) && s.operations[i] == StageAt(i);
    TableInFives(5 * n + 5);
    TableHolds(n, i);
    FiveAreBound(s.reservations, i);
    forall k: Id | k < |s.reservations| && s.reservations[k].plan == i ensures Held(s.reservations[k]) {
      RowsAreHeld(s.reservations, i, k);
    }
    StageOfFamily(n, i);
    assert Bound(s, i, i);
    EligibleIsPending(s, i, i);
  }

  /** The last plan would succeed at once on a clean answer; the others never do. */
  lemma FamilyVerdicts(n: nat, i: nat)
    requires i <= n
    ensures i < n ==> Stuck(Family(n), i)
    ensures i == n ==> ReconcilePlan(Family(n), i, CLEAN, 0).1.status == Verified
  {
    var s := Family(n);
    FamilyIsEligible(n, i);
    assert s.plans[i] == PlanAt(i) && s.requests[i] == RequestAt(i);
    assert PortalResidue(s.portal, i) == [] <==> i == n;
    if i < n {
      NeverVerifiesExactly(s, i);
    } else {
      PendingIsNotReconciled(s, i, i);
      AllAbsentExactly([], CLEAN);
    }
  }

  /** For every `n`, a store that meets the constraints: `n` plans with something left in the portal, and a younger one
      that a clean answer would settle. No series of batches of `n` plans or fewer ever attempts it. */
  lemma {:induction false} FamilyStarves(n: nat, batches: seq<Batch>)
    requires Long(batches) && forall k :: 0 <= k < |batches| ==> batches[k].limit <= n
    ensures Constraints(Family(n).reservations) && PendingPlan(Family(n), n)
    ensures ReconcilePlan(Family(n), n, CLEAN, 0).1.status == Verified
    ensures !SomeReaches(Family(n), batches, n)
  {
    var s := Family(n);
    FamilyMeetsConstraints(n);
    FamilyIsEligible(n, n);
    FamilyVerdicts(n, n);
    forall w | w in Below(n) ensures Stuck(s, w) && Before(s.plans, w, n) {
      FamilyVerdicts(n, w);
      assert s.plans[w] == PlanAt(w) && s.plans[n] == PlanAt(n);
    }
    StuckStarve(s, batches, Below(n), n);
  }
}
