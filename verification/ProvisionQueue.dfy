/** The queue of pending plans: the query that picks a batch, which plans it reaches, and plans that it never does. */
module ProvisionQueue {
  import opened Options
  import opened ProvisionReconciliation

  // ----- The pending queue -----

  /** `_pending_plan_query` */
  predicate PendingPlan(s: Store, p: Id) {
    && p < |s.plans| && s.plans[p].state == "FAILED"
    && s.plans[p].request < |s.requests| && s.requests[s.plans[p].request].status == "FAILED"
    && exists k :: 0 <= k < |s.reservations| && s.reservations[k].plan == p && s.reservations[k].state == FailedHold
  }

  /** Success takes the plan off the queue; manual review keeps it there, and otherwise nothing changes at all. */
  lemma QueueFollowsOutcome(s: Store, p: Id, reply: WorkerReply, now: Time)
    ensures var (after, outcome) := ReconcilePlan(s, p, reply, now);
            && (outcome.status == Verified ==> !PendingPlan(after, p))
            && (outcome.status == ManualReview ==> PendingPlan(after, p))
            && (outcome.status in {NotEligible, Escaped} ==> after == s)
  {
    var (after, outcome) := ReconcilePlan(s, p, reply, now);
    OthersChangeNothing(s, p, reply, now);
    if outcome.status == Verified {
      VerifiedIsFreed(s, p, reply, now);
      FreedIsNotPending(after, p);
    } else if outcome.status == ManualReview {
      ReviewedIsPending(s, p, reply, now);
    }
  }

  lemma OthersChangeNothing(s: Store, p: Id, reply: WorkerReply, now: Time)
    ensures var (after, outcome) := ReconcilePlan(s, p, reply, now);
            outcome.status in {NotEligible, Escaped} ==> after == s
  {
  }

  lemma ReviewedIsPending(s: Store, p: Id, reply: WorkerReply, now: Time)
    requires ReconcilePlan(s, p, reply, now).1.status == ManualReview
    ensures PendingPlan(ReconcilePlan(s, p, reply, now).0, p)
  {
    ManualReviewStaysEligible(s, p, reply, now);
    var (after, outcome) := ReconcilePlan(s, p, reply, now);
    EligibleIsPending(after, p, outcome.stage.value);
  }

  ghost predicate AllFreed(s: Store, p: Id) {
    forall k :: 0 <= k < |s.reservations| && s.reservations[k].plan == p ==> Freed(s.reservations[k])
  }

  lemma VerifiedIsFreed(s: Store, p: Id, reply: WorkerReply, now: Time)
    requires ReconcilePlan(s, p, reply, now).1.status == Verified
    ensures AllFreed(ReconcilePlan(s, p, reply, now).0, p)
  {
    AllOrNone(s, p, reply, now);
  }

  lemma FreedIsNotPending(s: Store, p: Id)
    requires AllFreed(s, p)
    ensures !PendingPlan(s, p)
  {
  }

  lemma EligibleIsPending(s: Store, p: Id, op: Id)
    requires p < |s.plans| && op < |s.operations| && s.plans[p].request < |s.requests| && Eligible(s, p, op)
    ensures PendingPlan(s, p)
  {
    OneOfEachType(s, p, op, Uid);
  }

  /** Reconciling one plan never changes what another plan's reservations or queue entry look like. */
  lemma OtherPlansUntouched(s: Store, p: Id, q: Id, reply: WorkerReply, now: Time)
    requires p != q
    ensures PendingPlan(ReconcilePlan(s, p, reply, now).0, q) <==> PendingPlan(s, q)
  {
    ReservationsOfOthersStay(s, p, q, reply, now);
    HeldStays(s, ReconcilePlan(s, p, reply, now).0, q);
  }

  lemma ReservationsOfOthersStay(s: Store, p: Id, q: Id, reply: WorkerReply, now: Time)
    requires p != q
    ensures var after := ReconcilePlan(s, p, reply, now).0;
            && after.plans == s.plans && after.requests == s.requests && |after.reservations| == |s.reservations|
            && forall k :: 0 <= k < |s.reservations| ==>
                 && after.reservations[k].plan == s.reservations[k].plan
                 && (s.reservations[k].plan == q ==> after.reservations[k] == s.reservations[k])
  {
    AttemptChangesTables(s, p, reply, now);
  }

  lemma HeldStays(s: Store, t: Store, q: Id)
    requires t.plans == s.plans && t.requests == s.requests && |t.reservations| == |s.reservations|
    requires forall k :: 0 <= k < |s.reservations| ==>
               && t.reservations[k].plan == s.reservations[k].plan
               && (s.reservations[k].plan == q ==> t.reservations[k] == s.reservations[k])
    ensures PendingPlan(t, q) <==> PendingPlan(s, q)
  {
  }

  datatype Attempt = Attempt(plan: Id, reply: WorkerReply, now: Time)

  datatype Tally = Tally(store: Store, verified: nat, manualReview: nat, escaped: bool)

  function RunPending(s: Store, attempts: seq<Attempt>): Tally
    decreases |attempts|
  {
    if |attempts| == 0 then Tally(s, 0, 0, false)
    else
      var (after, outcome) := AttemptOne(s, attempts[0]);
      if outcome.status == Escaped then Tally(after, 0, 0, true)
      else
        var rest := RunPending(after, attempts[1..]);
        rest.(verified := rest.verified + (if outcome.status == Verified then 1 else 0),
              manualReview := rest.manualReview + (if outcome.status == ManualReview then 1 else 0))
  }

  function AttemptOne(s: Store, a: Attempt): (Store, Outcome) {
    ReconcilePlan(s, a.plan, a.reply, a.now)
  }

  /** The whole run, with its counts so far, seen from `index`. */
  ghost function Remaining(s: Store, attempts: seq<Attempt>, index: nat, verified: nat, manualReview: nat): Tally
    requires index <= |attempts|
  {
    var rest := RunPending(s, attempts[index..]);
    rest.(verified := verified + rest.verified, manualReview := manualReview + rest.manualReview)
  }

  lemma RemainingStep(s: Store, attempts: seq<Attempt>, index: nat, verified: nat, manualReview: nat)
    requires index < |attempts|
    ensures var a := attempts[index];
            var (after, outcome) := ReconcilePlan(s, a.plan, a.reply, a.now);
            Remaining(s, attempts, index, verified, manualReview)
            == if outcome.status == Escaped then Tally(after, verified, manualReview, true)
               else Remaining(after, attempts, index + 1, verified + (if outcome.status == Verified then 1 else 0),
                              manualReview + (if outcome.status == ManualReview then 1 else 0))
  {
    assert attempts[index..][1..] == attempts[index + 1..];
  }

  /** Over any run the constraints hold and every plan that was not attempted stays on or off the queue. */
  lemma {:induction false} RunKeepsConstraints(s: Store, attempts: seq<Attempt>, q: Id)
    requires Constraints(s.reservations)
    ensures Constraints(RunPending(s, attempts).store.reservations)
    ensures (forall k :: 0 <= k < |attempts| ==> attempts[k].plan != q) ==>
              (PendingPlan(RunPending(s, attempts).store, q) <==> PendingPlan(s, q))
    ensures RunPending(s, attempts).verified + RunPending(s, attempts).manualReview <= |attempts|
    decreases |attempts|
  {
    if |attempts| > 0 {
      var a := attempts[0];
      ReconcileKeepsConstraints(s, a.plan, a.reply, a.now);
      if a.plan != q {
        OtherPlansUntouched(s, a.plan, q, a.reply, a.now);
      }
      RunKeepsConstraints(ReconcilePlan(s, a.plan, a.reply, a.now).0, attempts[1..], q);
    }
  }

  // ----- The plans that are attempted -----

  /** How the attempts begun end: all of them, or those up to the first that escapes. */
  function Outcomes(s: Store, attempts: seq<Attempt>): (outcomes: seq<Outcome>)
    ensures |outcomes| <= |attempts|
    decreases |attempts|
  {
    if |attempts| == 0 then []
    else
      var (after, outcome) := AttemptOne(s, attempts[0]);
      if outcome.status == Escaped then [outcome] else [outcome] + Outcomes(after, attempts[1..])
  }

  function HowMany(outcomes: seq<Outcome>, status: Status): nat {
    if |outcomes| == 0 then 0 else (if outcomes[0].status == status then 1 else 0) + HowMany(outcomes[1..], status)
  }

  /** What a batch says of the attempts begun. */
  ghost predicate Counts(tally: Tally, outcomes: seq<Outcome>) {
    && tally.verified == HowMany(outcomes, Verified) && tally.manualReview == HowMany(outcomes, ManualReview)
    && (tally.escaped <==> |outcomes| > 0 && outcomes[|outcomes| - 1].status == Escaped)
  }

  lemma CountsOneMore(tally: Tally, rest: Tally, outcome: Outcome, more: seq<Outcome>)
    requires Counts(rest, more) && outcome.status != Escaped
    requires tally.verified == rest.verified + (if outcome.status == Verified then 1 else 0)
    requires tally.manualReview == rest.manualReview + (if outcome.status == ManualReview then 1 else 0)
    requires tally.escaped == rest.escaped
    ensures Counts(tally, [outcome] + more)
  {
    assert ([outcome] + more)[1..] == more;
  }

  /** A batch counts the attempts begun that verified, and those left to manual review, and is cut short exactly when
      the last one raised. */
  lemma {:induction false} TallyTellsOutcomes(s: Store, attempts: seq<Attempt>)
    ensures Counts(RunPending(s, attempts), Outcomes(s, attempts))
    decreases |attempts|
  {
    if |attempts| > 0 {
      var (after, outcome) := AttemptOne(s, attempts[0]);
      if outcome.status == Escaped {
        assert [outcome][1..] == [];
      } else {
        TallyTellsOutcomes(after, attempts[1..]);
        CountsOneMore(RunPending(s, attempts), RunPending(after, attempts[1..]), outcome,
                      Outcomes(after, attempts[1..]));
      }
    }
  }

  // ----- Attempts on different plans are independent -----

  /** The attempt records its verification on this stage of the plan. */
  ghost predicate SettledAt(s: Store, p: Id, op: Id, reply: WorkerReply, now: Time, after: Store) {
    && p < |s.plans| && op < |s.operations| && s.plans[p].request < |s.requests| && !reply.Undecodable?
    && IsFailedStage(s.operations[op], s.plans[p], p)
    && after == SettleStage(s, p, op, reply, now).0
  }

  lemma AttemptSettles(s: Store, p: Id, reply: WorkerReply, now: Time)
    ensures var (after, outcome) := ReconcilePlan(s, p, reply, now);
            after == s || (outcome.stage.Some? && SettledAt(s, p, outcome.stage.value, reply, now, after))
  {
  }

  lemma SettlingChangesTables(s: Store, p: Id, op: Id, reply: WorkerReply, now: Time, after: Store)
    requires SettledAt(s, p, op, reply, now, after)
    ensures after.plans == s.plans && after.requests == s.requests && after.portal == s.portal
    ensures after.reservations == s.reservations || after.reservations == ReleaseAll(s.reservations, p, now)
    ensures StageRewritten(s.operations, after.operations, p)
  {
  }

  /** At most the plan's own stage is rewritten, and it stays what it is. */
  lemma AttemptChangesTables(s: Store, p: Id, reply: WorkerReply, now: Time)
    ensures var after := ReconcilePlan(s, p, reply, now).0;
            && after.plans == s.plans && after.requests == s.requests && after.portal == s.portal
            && (after.reservations == s.reservations || after.reservations == ReleaseAll(s.reservations, p, now))
            && StageRewritten(s.operations, after.operations, p)
  {
    var (after, outcome) := ReconcilePlan(s, p, reply, now);
    AttemptSettles(s, p, reply, now);
    if after != s {
      SettlingChangesTables(s, p, outcome.stage.value, reply, now, after);
    }
  }

  lemma ReleaseSpares(table: seq<Reservation>, p: Id, q: Id, now: Time)
    requires p != q
    ensures SameReservations(table, ReleaseAll(table, p, now), q)
  {
  }

  ghost predicate StageRewritten(a: seq<Operation>, b: seq<Operation>, p: Id) {
    && |a| == |b|
    && forall k :: 0 <= k < |a| ==>
         a[k] == b[k] || (SameIdentity(a[k], b[k]) && a[k].payload.Some? && a[k].payload.value.plan == p)
  }

  /** What an outcome of plan `q` depends on is the same in both stores. */
  ghost predicate SameFor(s: Store, t: Store, q: Id) {
    && t.plans == s.plans && t.requests == s.requests && t.portal == s.portal
    && SameReservations(s.reservations, t.reservations, q) && SameStages(s.operations, t.operations, q)
  }

  /** Attempting one plan leaves another plan's stage and reservations as they were. */
  lemma AttemptSpares(s: Store, p: Id, q: Id, reply: WorkerReply, now: Time)
    requires p != q
    ensures SameFor(s, ReconcilePlan(s, p, reply, now).0, q)
  {
    AttemptChangesTables(s, p, reply, now);
    ReleaseSpares(s.reservations, p, q, now);
    NothingSpares(s.reservations, q);
    StageSpares(s, p, q, reply, now);
  }

  lemma NothingSpares(table: seq<Reservation>, q: Id)
    ensures SameReservations(table, table, q)
  {
  }

  lemma StageSpares(s: Store, p: Id, q: Id, reply: WorkerReply, now: Time)
    requires p != q
    ensures SameStages(s.operations, ReconcilePlan(s, p, reply, now).0.operations, q)
  {
    AttemptChangesTables(s, p, reply, now);
  }

  ghost predicate SameReservations(a: seq<Reservation>, b: seq<Reservation>, q: Id) {
    && |a| == |b|
    && (forall k :: 0 <= k < |a| ==> SameBinding(a[k], b[k]))
    && (forall k :: 0 <= k < |a| && a[k].plan == q ==> a[k] == b[k])
  }

  ghost predicate SameStages(a: seq<Operation>, b: seq<Operation>, q: Id) {
    && |a| == |b|
    && (forall k :: 0 <= k < |a| ==> SameIdentity(a[k], b[k]))
    && (forall k :: 0 <= k < |a| && a[k].payload.Some? && a[k].payload.value.plan == q ==> a[k] == b[k])
  }

  lemma SameBound(s: Store, t: Store, q: Id, op: Id)
    requires t.plans == s.plans && t.requests == s.requests
    requires SameReservations(s.reservations, t.reservations, q) && SameStages(s.operations, t.operations, q)
    requires q < |s.plans| && op < |s.operations| && s.plans[q].request < |s.requests|
    ensures Bound(s, q, op) <==> Bound(t, q, op)
  {
    if Bound(s, q, op) {
      BoundStays(s, t, q, op);
    }
    if Bound(t, q, op) {
      BoundStays(t, s, q, op);
    }
  }

  lemma SameRecognized(s: Store, t: Store, q: Id, op: Id)
    requires t.plans == s.plans && t.requests == s.requests
    requires SameReservations(s.reservations, t.reservations, q) && SameStages(s.operations, t.operations, q)
    requires q < |s.plans| && op < |s.operations| && s.plans[q].request < |s.requests|
    requires s.operations[op] == t.operations[op]
    ensures Eligible(s, q, op) <==> Eligible(t, q, op)
    ensures AlreadyReconciled(s, q, op) <==> AlreadyReconciled(t, q, op)
  {
    SameBound(s, t, q, op);
    forall k | 0 <= k < |s.reservations| && s.reservations[k].plan == q
      ensures t.reservations[k] == s.reservations[k] && t.reservations[k].plan == q
    {
    }
    forall k | 0 <= k < |s.reservations| ensures t.reservations[k].plan == s.reservations[k].plan {
      assert SameBinding(s.reservations[k], t.reservations[k]);
    }
  }

  /** So it ends as it would have. */
  lemma OutcomeStays(s: Store, t: Store, q: Id, reply: WorkerReply, now: Time)
    requires SameFor(s, t, q)
    ensures ReconcilePlan(t, q, reply, now).1 == ReconcilePlan(s, q, reply, now).1
  {
    if q < |s.plans| && s.plans[q].request < |s.requests| {
      StageStays(s.operations, t.operations, s.plans[q], q, |s.operations|);
      var stage := FailedStage(s.operations, s.plans[q], q, |s.operations|);
      if stage.Some? {
        assert s.operations[stage.value] == t.operations[stage.value];
        SameRecognized(s, t, q, stage.value);
      }
    } else if q < |s.plans| {
      StageStays(s.operations, t.operations, s.plans[q], q, |s.operations|);
    }
  }

  ghost predicate Different(attempts: seq<Attempt>) {
    forall i, j :: 0 <= i < j < |attempts| ==> attempts[i].plan != attempts[j].plan
  }

  ghost predicate SameAlone(s: Store, t: Store, attempts: seq<Attempt>) {
    forall j :: 0 <= j < |attempts| ==> AttemptOne(t, attempts[j]).1 == AttemptOne(s, attempts[j]).1
  }

  lemma OthersEndTheSame(s: Store, attempts: seq<Attempt>)
    requires |attempts| > 0 && Different(attempts)
    ensures SameAlone(s, AttemptOne(s, attempts[0]).0, attempts[1..]) && Different(attempts[1..])
  {
    var a, rest := attempts[0], attempts[1..];
    forall j | 0 <= j < |rest|
      ensures AttemptOne(AttemptOne(s, a).0, rest[j]).1 == AttemptOne(s, rest[j]).1
    {
      assert rest[j] == attempts[j + 1];
      AttemptSpares(s, a.plan, rest[j].plan, a.reply, a.now);
      OutcomeStays(s, AttemptOne(s, a).0, rest[j].plan, rest[j].reply, rest[j].now);
    }
  }

  /** None of the first `k` attempts, each made alone on `s`, escapes. */
  ghost predicate NoneEscapes(s: Store, attempts: seq<Attempt>, k: nat)
    requires k <= |attempts|
  {
    forall j :: 0 <= j < k ==> AttemptOne(s, attempts[j]).1.status != Escaped
  }

  lemma NoneEscapesLater(s: Store, t: Store, attempts: seq<Attempt>, k: nat)
    requires 0 < k <= |attempts| && AttemptOne(s, attempts[0]).1.status != Escaped
    requires SameAlone(s, t, attempts[1..])
    ensures NoneEscapes(s, attempts, k) <==> NoneEscapes(t, attempts[1..], k - 1)
  {
    var rest := attempts[1..];
    if NoneEscapes(s, attempts, k) {
      forall j | 0 <= j < k - 1 ensures AttemptOne(t, rest[j]).1.status != Escaped {
        assert rest[j] == attempts[j + 1];
      }
    }
    if NoneEscapes(t, rest, k - 1) {
      forall j | 0 <= j < k ensures AttemptOne(s, attempts[j]).1.status != Escaped {
        assert j > 0 ==> rest[j - 1] == attempts[j];
      }
    }
  }

  lemma {:induction false} OutcomesAlone(s: Store, attempts: seq<Attempt>, k: nat)
    requires Different(attempts) && k < |attempts|
    ensures k < |Outcomes(s, attempts)| <==> NoneEscapes(s, attempts, k)
    ensures k < |Outcomes(s, attempts)| ==> Outcomes(s, attempts)[k] == AttemptOne(s, attempts[k]).1
    decreases |attempts|
  {
    var (after, outcome) := AttemptOne(s, attempts[0]);
    if k > 0 && outcome.status != Escaped {
      OthersEndTheSame(s, attempts);
      assert attempts[1..][k - 1] == attempts[k];
      OutcomesAlone(after, attempts[1..], k - 1);
      NoneEscapesLater(s, after, attempts, k);
    }
  }

  // ----- The query -----

  /** Older plans first, equally old ones by their identifier. */
  predicate Before(plans: seq<Plan>, a: Id, b: Id)
    requires a < |plans| && b < |plans|
  {
    plans[a].createdAt < plans[b].createdAt || (plans[a].createdAt == plans[b].createdAt && a < b)
  }

  function InsertByAge(plans: seq<Plan>, p: Id, queue: seq<Id>): seq<Id>
    requires p < |plans| && forall k :: 0 <= k < |queue| ==> queue[k] < |plans|
  {
    if |queue| == 0 || Before(plans, p, queue[0]) then [p] + queue
    else [queue[0]] + InsertByAge(plans, p, queue[1..])
  }

  ghost predicate InOrder(plans: seq<Plan>, queue: seq<Id>) {
    && (forall k :: 0 <= k < |queue| ==> queue[k] < |plans|)
    && (forall j, k :: 0 <= j < k < |queue| ==> Before(plans, queue[j], queue[k]))
  }

  lemma {:induction false} InsertKeepsOrder(plans: seq<Plan>, p: Id, queue: seq<Id>)
    requires p < |plans| && InOrder(plans, queue) && p !in queue
    ensures forall x :: x in InsertByAge(plans, p, queue) <==> x == p || x in queue
    ensures InOrder(plans, InsertByAge(plans, p, queue))
  {
    if |queue| > 0 && !Before(plans, p, queue[0]) {
      var rest := queue[1..];
      assert queue == [queue[0]] + rest;
      InsertKeepsOrder(plans, p, rest);
      OrderedFront(plans, queue[0], InsertByAge(plans, p, rest));
    } else {
      forall x | x in queue ensures Before(plans, p, x) {
        var k :| 0 <= k < |queue| && queue[k] == x;
        assert k > 0 ==> Before(plans, queue[0], queue[k]);
      }
      OrderedFront(plans, p, queue);
    }
  }

  lemma OrderedFront(plans: seq<Plan>, p: Id, queue: seq<Id>)
    requires p < |plans| && InOrder(plans, queue) && forall x :: x in queue ==> Before(plans, p, x)
    ensures InOrder(plans, [p] + queue)
  {
    var all := [p] + queue;
    forall k | 0 < k < |all| ensures all[k] in queue && all[k] == queue[k - 1] {
    }
  }

  /** `_pending_plan_query` without its limit: the pending ones among the first `n` plans. */
  function PendingBelow(s: Store, n: nat): (queue: seq<Id>)
    requires n <= |s.plans|
    ensures forall p: Id :: p in queue <==> p < n && PendingPlan(s, p)
    ensures InOrder(s.plans, queue)
  {
    if n == 0 then []
    else
      var rest := PendingBelow(s, n - 1);
      if !PendingPlan(s, n - 1) then rest
      else
        InsertKeepsOrder(s.plans, n - 1, rest);
        InsertByAge(s.plans, n - 1, rest)
  }

  function PendingQueue(s: Store): seq<Id> {
    PendingBelow(s, |s.plans|)
  }

  /** `pending_plan_ids` */
  function PendingIds(s: Store, limit: nat): seq<Id> {
    var queue := PendingQueue(s);
    if |queue| <= limit then queue else queue[..limit]
  }

  /** The clock and the Worker's answer when a plan of the batch has its turn. */
  datatype Moment = Moment(reply: WorkerReply, now: Time)

  function AttemptsOf(ids: seq<Id>, moments: seq<Moment>): (attempts: seq<Attempt>)
    requires |ids| <= |moments|
    ensures |attempts| == |ids|
    ensures forall k :: 0 <= k < |ids| ==> attempts[k] == Attempt(ids[k], moments[k].reply, moments[k].now)
  {
    if |ids| == 0 then []
    else [Attempt(ids[0], moments[0].reply, moments[0].now)] + AttemptsOf(ids[1..], moments[1..])
  }

  /** A batch of `limit` plans begins the attempt on this one. */
  ghost predicate Reaches(s: Store, limit: nat, moments: seq<Moment>, p: Id)
    requires limit <= |moments|
  {
    var ids := PendingIds(s, limit);
    exists k: nat :: k < |Outcomes(s, AttemptsOf(ids, moments))| && ids[k] == p
  }

  /** The plan's place in the queue: the number of pending plans before it. */
  ghost predicate AtPlace(s: Store, p: Id, k: nat) {
    k < |PendingQueue(s)| && PendingQueue(s)[k] == p
  }

  predicate EscapesAlone(s: Store, moments: seq<Moment>, j: nat)
    requires j < |PendingQueue(s)| && j < |moments|
  {
    ReconcilePlan(s, PendingQueue(s)[j], moments[j].reply, moments[j].now).1.status == Escaped
  }

  /** A pending plan is attempted exactly when fewer than `limit` pending plans come before it and no attempt on them
      escapes. */
  lemma BatchReachesExactly(s: Store, limit: nat, moments: seq<Moment>, p: Id, k: nat)
    requires limit <= |moments| && AtPlace(s, p, k)
    ensures Reaches(s, limit, moments, p) <==>
            k < limit && forall j :: 0 <= j < k ==> !EscapesAlone(s, moments, j)
  {
    var queue, ids := PendingQueue(s), PendingIds(s, limit);
    var attempts := AttemptsOf(ids, moments);
    OrderIsDistinct(s.plans, queue);
    assert forall j :: 0 <= j < |ids| && ids[j] == p ==> j == k;
    if k < limit {
      assert ids[k] == p;
      IdsDiffer(s, limit, moments);
      OutcomesAlone(s, attempts, k);
      EscapesInQueue(s, limit, moments, k);
    }
  }

  lemma OrderIsDistinct(plans: seq<Plan>, queue: seq<Id>)
    requires InOrder(plans, queue)
    ensures forall j, k :: 0 <= j < k < |queue| ==> queue[j] != queue[k]
  {
    forall j, k | 0 <= j < k < |queue| ensures queue[j] != queue[k] {
      assert Before(plans, queue[j], queue[k]);
    }
  }

  lemma IdsDiffer(s: Store, limit: nat, moments: seq<Moment>)
    requires limit <= |moments|
    ensures Different(AttemptsOf(PendingIds(s, limit), moments))
  {
    OrderIsDistinct(s.plans, PendingQueue(s));
    var ids, attempts := PendingIds(s, limit), AttemptsOf(PendingIds(s, limit), moments);
    forall i, j | 0 <= i < j < |attempts| ensures attempts[i].plan != attempts[j].plan {
      assert attempts[i].plan == ids[i] && attempts[j].plan == ids[j];
    }
  }

  lemma EscapesInQueue(s: Store, limit: nat, moments: seq<Moment>, k: nat)
    requires limit <= |moments| && k < |PendingQueue(s)| && k < limit
    ensures k < |AttemptsOf(PendingIds(s, limit), moments)|
    ensures NoneEscapes(s, AttemptsOf(PendingIds(s, limit), moments), k) <==>
            forall j :: 0 <= j < k ==> !EscapesAlone(s, moments, j)
  {
    var attempts := AttemptsOf(PendingIds(s, limit), moments);
    forall j | 0 <= j < k ensures AttemptOne(s, attempts[j]).1.status == Escaped <==> EscapesAlone(s, moments, j) {
      assert PendingIds(s, limit)[j] == PendingQueue(s)[j];
    }
  }
}
