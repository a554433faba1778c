/** Reconciling failed provision attempts: held reservations are released only on a fresh authoritative
    verification that nothing was left behind. */
module ProvisionReconciliation {
  import opened Options

  type Id = nat
  type Time = int

  datatype ResourceType = Uid | Gid | ProjectId | SshPort | ContainerName

  const ALL_TYPES: set<ResourceType> := {Uid, Gid, ProjectId, SshPort, ContainerName}

  datatype ReservationState = Reserved | Consumed | Released | ExpiredReservation | FailedHold

  datatype Reservation = Reservation(
    plan: Id, request: Id, account: Id, resource: ResourceType, value: string,
    state: ReservationState, activeKey: Option<string>, consumedAt: Option<Time>, releasedAt: Option<Time>)

  /** Numbers are held as their decimal text, the form in which they are compared. */
  datatype Plan = Plan(request: Id, account: Id, state: string,
                       uid: string, gid: string, project: string, port: string, container: string,
                       createdAt: Time)

  datatype Request = Request(status: string, activeSlot: Option<int>, managedUser: Option<Id>, plan: Option<Id>,
                             account: Id)

  /** The outcome of one verification. */
  datatype Verification = Verification(
    verified: bool, portalResidue: seq<string>, hostResidue: seq<string>, unknown: seq<string>, integrity: string)

  /** The entries of an operation's result that reconciliation reads or writes. */
  datatype Evidence = Evidence(rollbackStatus: Option<string>, classification: Option<string>,
                               reconciliation: Option<Verification>)

  datatype Payload = Payload(request: Id, plan: Id, reservations: map<ResourceType, Id>)

  datatype Operation = Operation(
    targetType: string, target: Id, kind: string, failed: bool, rollbackStatus: Option<string>,
    payload: Option<Payload>, evidence: Option<Evidence>, createdAt: Time)

  /** What the portal itself still holds for an account; everything hangs off the managed identity. */
  datatype PortalRows = PortalRows(identity: bool, container: bool, storage: bool, lease: bool, sshKey: bool)

  datatype Store = Store(
    plans: seq<Plan>, requests: seq<Request>, operations: seq<Operation>, reservations: seq<Reservation>,
    portal: map<Id, PortalRows>)

  // ----- Constraints of the reservation table -----

  /** The check constraint on a reservation's life cycle. */
  predicate Lifecycle(r: Reservation) {
    match r.state
    case Reserved => r.activeKey.Some? && r.consumedAt.None? && r.releasedAt.None?
    case Consumed => r.activeKey.None? && r.consumedAt.Some? && r.releasedAt.None?
    case Released => r.activeKey.None? && r.consumedAt.None? && r.releasedAt.Some?
    case ExpiredReservation => r.activeKey.None? && r.consumedAt.None? && r.releasedAt.Some?
    case FailedHold => r.activeKey.Some? && r.consumedAt.None? && r.releasedAt.None?
  }

  /** Active keys are unique; absent ones do not count. */
  predicate UniqueKeys(table: seq<Reservation>) {
    forall a, b :: 0 <= a < b < |table| && table[a].activeKey.Some? ==> table[a].activeKey != table[b].activeKey
  }

  predicate Constraints(table: seq<Reservation>) {
    (forall a :: 0 <= a < |table| ==> Lifecycle(table[a])) && UniqueKeys(table)
  }

  // ----- Verification -----

  function PortalResidue(portal: map<Id, PortalRows>, account: Id): seq<string> {
    if account !in portal || !portal[account].identity then []
    else
      var p := portal[account];
      ["PORTAL_COMPUTE_IDENTITY"]
      + (if p.container then ["PORTAL_CONTAINER"] else [])
      + (if p.lease then ["PORTAL_LEASE"] else [])
      + (if p.sshKey then ["PORTAL_SSH_KEY"] else [])
      + (if p.storage then ["PORTAL_STORAGE"] else [])
  }

  /** The Worker's answer; a list field of another shape reads as absent. Bytes that cannot be decoded make the client
      raise an exception that nobody expects. */
  datatype WorkerReply =
    | NoReply(code: string)
    | Undecodable
    | Reply(residue: Option<seq<string>>, unknown: Option<seq<string>>, integrity: string,
            status: string, handler: string, verification: string)

  function Truncated(values: seq<string>, n: nat): seq<string> {
    seq(|values|, i requires 0 <= i < |values| => if |values[i]| <= n then values[i] else values[i][..n])
  }

  function Listed(values: Option<seq<string>>): seq<string> {
    if values.None? then [] else Truncated(values.value, 128)
  }

  /** `authoritative_zero_residue` */
  function ZeroResidue(portal: seq<string>, reply: WorkerReply): Verification
    requires !reply.Undecodable?
  {
    match reply
    case NoReply(code) => Verification(false, portal, [], Truncated(["ROOT_WORKER:" + code], 128), "UNKNOWN")
    case Reply(residue, rawUnknown, rawIntegrity, status, handler, verification) =>
      var host := Listed(residue);
      var unknown := Listed(rawUnknown) + (if residue.Some? && rawUnknown.Some? then [] else ["ROOT_WORKER_RESULT"]);
      var integrity := Truncated([rawIntegrity], 16)[0];
      var verified :=
        && portal == [] && status == "DRY_RUN" && handler == "compute.provision.retry_verify"
        && verification == "VERIFIED_ZERO_RESIDUE" && integrity == "PASS" && host == [] && unknown == [];
      Verification(verified, portal, host, unknown, integrity)
  }

  /** `all_absent` */
  predicate AllAbsent(v: Verification) {
    v.verified && v.portalResidue == [] && v.hostResidue == [] && v.unknown == [] && v.integrity == "PASS"
  }

  // ----- Bindings -----

  function Expected(plan: Plan, resource: ResourceType): string {
    match resource
    case Uid => plan.uid
    case Gid => plan.gid
    case ProjectId => plan.project
    case SshPort => plan.port
    case ContainerName => plan.container
  }

  /** The plan's rows of the reservation table. */
  function RowsOf(table: seq<Reservation>, plan: Id, n: nat): (rows: seq<Id>)
    requires n <= |table|
    ensures forall k :: 0 <= k < |rows| ==> rows[k] < n && table[rows[k]].plan == plan
    ensures forall a: Id :: a < n && table[a].plan == plan ==> a in rows
    ensures forall j, k :: 0 <= j < k < |rows| ==> rows[j] < rows[k]
  {
    if n == 0 then []
    else RowsOf(table, plan, n - 1) + (if table[n - 1].plan == plan then [n - 1] else [])
  }

  function Pairs(table: seq<Reservation>, rows: seq<Id>): set<(ResourceType, string)>
    requires forall k :: 0 <= k < |rows| ==> rows[k] < |table|
  {
    set k | 0 <= k < |rows| :: (table[rows[k]].resource, table[rows[k]].value)
  }

  function ExpectedPairs(plan: Plan): set<(ResourceType, string)> {
    set t | t in ALL_TYPES :: (t, Expected(plan, t))
  }

  /** `{row.resource_type: row.id}`; a later row of the same type replaces an earlier one. */
  function IdsByType(table: seq<Reservation>, rows: seq<Id>): map<ResourceType, Id>
    requires forall k :: 0 <= k < |rows| ==> rows[k] < |table|
  {
    if |rows| == 0 then map[]
    else
      var last := |rows| - 1;
      IdsByType(table, rows[..last])[table[rows[last]].resource := rows[last]]
  }

  /** The plan's five reservations, one of each type with the planned value, for the plan's request and account, as
      the operation's payload lists them. */
  predicate RowsBound(table: seq<Reservation>, p: Id, plan: Plan, payload: Option<Payload>) {
    var rows := RowsOf(table, p, |table|);
    && payload == Some(Payload(plan.request, p, IdsByType(table, rows)))
    && |rows| == 5 && Pairs(table, rows) == ExpectedPairs(plan)
    && forall k :: 0 <= k < |rows| ==> table[rows[k]].request == plan.request && table[rows[k]].account == plan.account
  }

  /** The bindings that both recognizers demand of an attempt and of its operation. */
  predicate Bound(s: Store, p: Id, op: Id)
    requires p < |s.plans| && op < |s.operations| && s.plans[p].request < |s.requests|
  {
    var plan, stage := s.plans[p], s.operations[op];
    var item := s.requests[plan.request];
    && item.status == "FAILED" && item.activeSlot.None? && item.managedUser.None? && item.plan == Some(p)
    && plan.account == item.account && plan.state == "FAILED"
    && stage.target == plan.request && stage.failed
    && RowsBound(s.reservations, p, plan, stage.payload)
  }

  function KeyOf(r: Reservation): string {
    TypeName(r.resource) + ":" + r.value
  }

  function TypeName(t: ResourceType): string {
    match t
    case Uid => "UID"
    case Gid => "GID"
    case ProjectId => "PROJECT_ID"
    case SshPort => "SSH_PORT"
    case ContainerName => "CONTAINER_NAME"
  }

  predicate Held(r: Reservation) {
    r.state == FailedHold && r.activeKey == Some(KeyOf(r)) && r.consumedAt.None? && r.releasedAt.None?
  }

  predicate Freed(r: Reservation) {
    r.state == Released && r.activeKey.None? && r.consumedAt.None? && r.releasedAt.Some?
  }

  /** `_eligible_bindings` */
  predicate Eligible(s: Store, p: Id, op: Id)
    requires p < |s.plans| && op < |s.operations| && s.plans[p].request < |s.requests|
  {
    && Bound(s, p, op)
    && s.operations[op].rollbackStatus == Some("REQUIRES_MANUAL_REVIEW")
    && forall k: Id :: k < |s.reservations| && s.reservations[k].plan == p ==> Held(s.reservations[k])
  }

  /** `_already_reconciled_bindings` */
  predicate AlreadyReconciled(s: Store, p: Id, op: Id)
    requires p < |s.plans| && op < |s.operations| && s.plans[p].request < |s.requests|
  {
    var stage := s.operations[op];
    && Bound(s, p, op)
    && stage.rollbackStatus == Some("ROLLED_BACK")
    && stage.evidence.Some? && stage.evidence.value.rollbackStatus == Some("ROLLED_BACK")
    && stage.evidence.value.reconciliation.Some? && AllAbsent(stage.evidence.value.reconciliation.value)
    && forall k: Id :: k < |s.reservations| && s.reservations[k].plan == p ==> Freed(s.reservations[k])
  }

  // ----- The failed stage of a plan -----

  predicate IsFailedStage(o: Operation, plan: Plan, p: Id) {
    && o.targetType == "compute_resource_request" && o.target == plan.request && o.failed
    && o.kind in {"compute.provision.stage", "compute.provision", "compute.provision.retry"}
    && o.payload.Some? && o.payload.value.plan == p
  }

  /** `_failed_stage_for_plan`: the most recent match among the first `n` operations. */
  function FailedStage(operations: seq<Operation>, plan: Plan, p: Id, n: nat): (r: Option<Id>)
    requires n <= |operations|
    ensures r.Some? ==> r.value < n && IsFailedStage(operations[r.value], plan, p)
    ensures r.Some? ==> forall k :: 0 <= k < n && IsFailedStage(operations[k], plan, p)
                                    ==> operations[k].createdAt <= operations[r.value].createdAt
    ensures r.None? ==> forall k :: 0 <= k < n ==> !IsFailedStage(operations[k], plan, p)
  {
    if n == 0 then None
    else
      var best := FailedStage(operations, plan, p, n - 1);
      if IsFailedStage(operations[n - 1], plan, p)
         && (best.None? || operations[best.value].createdAt < operations[n - 1].createdAt) then Some(n - 1)
      else best
  }

  // ----- Reconciling -----

  /** `Escaped` is an exception that leaves the transaction and ends the batch. */
  datatype Status = Verified | ManualReview | NotEligible | Escaped

  datatype Outcome = Outcome(status: Status, changed: bool, stage: Option<Id>, called: bool)

  function ReleaseOne(r: Reservation, now: Time): Reservation {
    r.(state := Released, activeKey := None, consumedAt := None, releasedAt := Some(now))
  }

  /** Every reservation of the plan released. */
  function ReleaseAll(table: seq<Reservation>, p: Id, now: Time): (r: seq<Reservation>)
    ensures |r| == |table|
    ensures forall k :: 0 <= k < |r| ==> r[k] == if table[k].plan == p then ReleaseOne(table[k], now) else table[k]
  {
    seq(|table|, k requires 0 <= k < |table| => if table[k].plan == p then ReleaseOne(table[k], now) else table[k])
  }

  function EvidenceOf(o: Operation): Evidence {
    if o.evidence.None? then Evidence(None, None, None) else o.evidence.value
  }

  /** The stage operation after a verification that found everything absent. */
  function RolledBackStage(o: Operation, v: Verification): Operation {
    var untouched := EvidenceOf(o).classification == Some("NO_SIDE_EFFECT");
    var classification := if untouched then "NO_SIDE_EFFECT" else "PARTIAL_ROLLED_BACK";
    o.(rollbackStatus := Some("ROLLED_BACK"),
       evidence := Some(Evidence(Some("ROLLED_BACK"), Some(classification), Some(v))))
  }

  /** The stage operation after any other. */
  function ReviewedStage(o: Operation, v: Verification): Operation {
    o.(rollbackStatus := Some("REQUIRES_MANUAL_REVIEW"), evidence := Some(EvidenceOf(o).(reconciliation := Some(v))))
  }

  /** `reconcile_plan` */
  function ReconcilePlan(s: Store, p: Id, reply: WorkerReply, now: Time): (Store, Outcome) {
    if p >= |s.plans| then (s, Outcome(NotEligible, false, None, false))
    else
      var stage := FailedStage(s.operations, s.plans[p], p, |s.operations|);
      if s.plans[p].request >= |s.requests| || stage.None? then (s, Outcome(NotEligible, false, stage, false))
      else if AlreadyReconciled(s, p, stage.value) then (s, Outcome(Verified, false, stage, false))
      else if !Eligible(s, p, stage.value) then (s, Outcome(NotEligible, false, stage, false))
      else if reply.Undecodable? then (s, Outcome(Escaped, false, stage, true))
      else SettleStage(s, p, stage.value, reply, now)
  }

  /** The verification of an eligible plan, recorded on its stage, with the release where everything is absent. */
  function SettleStage(s: Store, p: Id, op: Id, reply: WorkerReply, now: Time): (Store, Outcome)
    requires p < |s.plans| && op < |s.operations| && s.plans[p].request < |s.requests| && !reply.Undecodable?
  {
    var v := ZeroResidue(PortalResidue(s.portal, s.requests[s.plans[p].request].account), reply);
    var o := s.operations[op];
    if !AllAbsent(v) then
      (s.(operations := s.operations[op := ReviewedStage(o, v)]), Outcome(ManualReview, false, Some(op), true))
    else
      (s.(operations := s.operations[op := RolledBackStage(o, v)], reservations := ReleaseAll(s.reservations, p, now)),
       Outcome(Verified, true, Some(op), true))
  }

  // ----- The lookups survive the rewriting of the stage -----

  predicate SameIdentity(a: Operation, b: Operation) {
    && a.targetType == b.targetType && a.target == b.target && a.kind == b.kind && a.failed == b.failed
    && a.payload == b.payload && a.createdAt == b.createdAt
  }

  lemma {:induction false} StageStays(a: seq<Operation>, b: seq<Operation>, plan: Plan, p: Id, n: nat)
    requires |a| == |b| && n <= |a| && forall k :: 0 <= k < |a| ==> SameIdentity(a[k], b[k])
    ensures FailedStage(a, plan, p, n) == FailedStage(b, plan, p, n)
  {
    if n > 0 {
      StageStays(a, b, plan, p, n - 1);
      assert SameIdentity(a[n - 1], b[n - 1]);
      var best := FailedStage(a, plan, p, n - 1);
      if best.Some? {
        assert SameIdentity(a[best.value], b[best.value]);
      }
    }
  }

  predicate SameBinding(a: Reservation, b: Reservation) {
    && a.plan == b.plan && a.request == b.request && a.account == b.account
    && a.resource == b.resource && a.value == b.value
  }

  lemma {:induction false} RowsStay(a: seq<Reservation>, b: seq<Reservation>, p: Id, n: nat)
    requires |a| == |b| && n <= |a| && forall k :: 0 <= k < |a| ==> SameBinding(a[k], b[k])
    ensures RowsOf(a, p, n) == RowsOf(b, p, n)
  {
    if n > 0 {
      RowsStay(a, b, p, n - 1);
      assert SameBinding(a[n - 1], b[n - 1]);
    }
  }

  lemma {:induction false} IdsStay(a: seq<Reservation>, b: seq<Reservation>, rows: seq<Id>)
    requires |a| == |b| && (forall k :: 0 <= k < |rows| ==> rows[k] < |a|)
    requires forall k :: 0 <= k < |a| ==> SameBinding(a[k], b[k])
    ensures IdsByType(a, rows) == IdsByType(b, rows)
    decreases |rows|
  {
    if |rows| > 0 {
      IdsStay(a, b, rows[..|rows| - 1]);
      assert SameBinding(a[rows[|rows| - 1]], b[rows[|rows| - 1]]);
    }
  }

  lemma PairsStay(a: seq<Reservation>, b: seq<Reservation>, rows: seq<Id>)
    requires |a| == |b| && (forall k :: 0 <= k < |rows| ==> rows[k] < |a|)
    requires forall k :: 0 <= k < |a| ==> SameBinding(a[k], b[k])
    ensures Pairs(a, rows) == Pairs(b, rows)
  {
    forall k | 0 <= k < |rows|
      ensures (a[rows[k]].resource, a[rows[k]].value) == (b[rows[k]].resource, b[rows[k]].value)
    {
      assert SameBinding(a[rows[k]], b[rows[k]]);
    }
  }

  lemma RowsBoundStays(a: seq<Reservation>, b: seq<Reservation>, p: Id, plan: Plan, payload: Option<Payload>)
    requires |a| == |b| && forall k :: 0 <= k < |a| ==> SameBinding(a[k], b[k])
    requires RowsBound(a, p, plan, payload)
    ensures RowsBound(b, p, plan, payload)
  {
    var rows := RowsOf(a, p, |a|);
    RowsStay(a, b, p, |a|);
    IdsStay(a, b, rows);
    PairsStay(a, b, rows);
    forall k | 0 <= k < |rows| ensures b[rows[k]].request == plan.request && b[rows[k]].account == plan.account {
      assert SameBinding(a[rows[k]], b[rows[k]]);
    }
  }

  /** Releasing rows and rewriting results breaks no binding. */
  lemma BoundStays(s: Store, t: Store, p: Id, op: Id)
    requires t.plans == s.plans && t.requests == s.requests && |t.operations| == |s.operations|
    requires p < |s.plans| && op < |s.operations| && s.plans[p].request < |s.requests|
    requires SameIdentity(s.operations[op], t.operations[op])
    requires |t.reservations| == |s.reservations|
    requires forall k :: 0 <= k < |s.reservations| ==> SameBinding(s.reservations[k], t.reservations[k])
    requires Bound(s, p, op)
    ensures Bound(t, p, op)
  {
    RowsBoundStays(s.reservations, t.reservations, p, s.plans[p], s.operations[op].payload);
  }

  // ----- What reconciling guarantees -----

  /** The five reservations of a bound plan are one of each type. */
  lemma OneOfEachType(s: Store, p: Id, op: Id, t: ResourceType)
    requires p < |s.plans| && op < |s.operations| && s.plans[p].request < |s.requests| && Bound(s, p, op)
    ensures exists k: Id :: k < |s.reservations| && s.reservations[k].plan == p
                            && s.reservations[k].resource == t && s.reservations[k].value == Expected(s.plans[p], t)
  {
    var rows := RowsOf(s.reservations, p, |s.reservations|);
    assert (t, Expected(s.plans[p], t)) in ExpectedPairs(s.plans[p]);
    assert (t, Expected(s.plans[p], t)) in Pairs(s.reservations, rows);
    var k :| 0 <= k < |rows|
             && (s.reservations[rows[k]].resource, s.reservations[rows[k]].value) == (t, Expected(s.plans[p], t));
  }

  /** All five or none: either every held reservation of the plan is released, on a verification that found nothing
      left, or no reservation at all changes. */
  lemma AllOrNone(s: Store, p: Id, reply: WorkerReply, now: Time)
    ensures var (after, outcome) := ReconcilePlan(s, p, reply, now);
            && |after.reservations| == |s.reservations|
            && (outcome.changed ==>
                  forall k :: 0 <= k < |s.reservations| ==>
                    if s.reservations[k].plan == p then Held(s.reservations[k]) && Freed(after.reservations[k])
                    else after.reservations[k] == s.reservations[k])
            && (!outcome.changed ==> after.reservations == s.reservations)
            && (after.reservations != s.reservations ==>
                  && outcome.called && reply.Reply? && reply.status == "DRY_RUN"
                  && reply.verification == "VERIFIED_ZERO_RESIDUE"
                  && reply.residue == Some([]) && reply.unknown == Some([])
                  && PortalResidue(s.portal, s.requests[s.plans[p].request].account) == [])
  {
  }

  /** Success lands in the state the idempotence check recognizes: a second run verifies at once, changes nothing and
      asks no Worker, whatever it would have answered. */
  lemma SuccessIsIdempotent(s: Store, p: Id, reply: WorkerReply, now: Time, again: WorkerReply, later: Time)
    requires ReconcilePlan(s, p, reply, now).1.changed
    ensures var (after, outcome) := ReconcilePlan(s, p, reply, now);
            && outcome.status == Verified
            && AlreadyReconciled(after, p, outcome.stage.value)
            && ReconcilePlan(after, p, again, later) == (after, Outcome(Verified, false, outcome.stage, false))
  {
    var (after, outcome) := ReconcilePlan(s, p, reply, now);
    var op := outcome.stage.value;
    StageStays(s.operations, after.operations, s.plans[p], p, |s.operations|);
    BoundStays(s, after, p, op);
  }

  /** Manual review leaves the plan exactly as eligible as it was, with its reservations held. */
  lemma ManualReviewStaysEligible(s: Store, p: Id, reply: WorkerReply, now: Time)
    requires ReconcilePlan(s, p, reply, now).1.status == ManualReview
    ensures var (after, outcome) := ReconcilePlan(s, p, reply, now);
            && after.reservations == s.reservations
            && Eligible(after, p, outcome.stage.value)
            && FailedStage(after.operations, after.plans[p], p, |after.operations|) == outcome.stage
            && !AlreadyReconciled(after, p, outcome.stage.value)
  {
    var (after, outcome) := ReconcilePlan(s, p, reply, now);
    var op := outcome.stage.value;
    StageStays(s.operations, after.operations, s.plans[p], p, |s.operations|);
    BoundStays(s, after, p, op);
  }

  /** So a later run with a clean verification still succeeds. */
  lemma ReviewThenSuccess(s: Store, p: Id, reply: WorkerReply, now: Time, clean: WorkerReply, later: Time)
    requires ReconcilePlan(s, p, reply, now).1.status == ManualReview
    requires !clean.Undecodable?
    requires AllAbsent(ZeroResidue(PortalResidue(s.portal, s.requests[s.plans[p].request].account), clean))
    ensures ReconcilePlan(ReconcilePlan(s, p, reply, now).0, p, clean, later).1.changed
  {
    ManualReviewStaysEligible(s, p, reply, now);
  }

  /** The verification is positive exactly on a well-formed, fully positive answer and an empty portal. */
  lemma AllAbsentExactly(portal: seq<string>, reply: WorkerReply)
    ensures !reply.Undecodable? && AllAbsent(ZeroResidue(portal, reply)) <==>
            && portal == [] && reply.Reply? && reply.status == "DRY_RUN"
            && reply.handler == "compute.provision.retry_verify" && reply.verification == "VERIFIED_ZERO_RESIDUE"
            && reply.integrity == "PASS" && reply.residue == Some([]) && reply.unknown == Some([])
  {
    if reply.Reply? {
      assert Truncated([reply.integrity], 16)[0] == "PASS" <==> reply.integrity == "PASS" by {
        if |reply.integrity| > 16 {
          assert |reply.integrity[..16]| == 16;
        }
      }
      assert reply.residue.Some? ==> |Listed(reply.residue)| == |reply.residue.value|;
      assert reply.unknown.Some? ==> |Listed(reply.unknown)| == |reply.unknown.value|;
    }
  }

  /** Reconciling keeps the constraints of the whole reservation table. */
  lemma ReconcileKeepsConstraints(s: Store, p: Id, reply: WorkerReply, now: Time)
    requires Constraints(s.reservations)
    ensures Constraints(ReconcilePlan(s, p, reply, now).0.reservations)
  {
    AllOrNone(s, p, reply, now);
    var (after, outcome) := ReconcilePlan(s, p, reply, now);
    if outcome.changed {
      forall a, b | 0 <= a < b < |after.reservations| && after.reservations[a].activeKey.Some?
        ensures after.reservations[a].activeKey != after.reservations[b].activeKey
      {
        assert after.reservations[a] == s.reservations[a];
      }
    }
  }
}
