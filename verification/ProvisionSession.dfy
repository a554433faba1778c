/** The reconciler as it runs on the tables: loops that update stage, reservations and counters in place. */
module ProvisionSession {
  import opened Options
  import opened ProvisionReconciliation
  import opened ProvisionQueue

  class Session {
    var plans: seq<Plan>
    var requests: seq<Request>
    var operations: seq<Operation>
    var reservations: seq<Reservation>
    var portal: map<Id, PortalRows>

    function State(): Store
      reads this
    {
      Store(plans, requests, operations, reservations, portal)
    }

    constructor (s: Store)
      ensures State() == s
    {
      plans, requests, operations, reservations, portal := s.plans, s.requests, s.operations, s.reservations, s.portal;
    }

    /** The loop over the plan's reservations. */
    method ReleaseReservations(p: Id, now: Time)
      modifies this`reservations
      ensures reservations == ReleaseAll(old(reservations), p, now)
    {
      var rows := RowsOf(reservations, p, |reservations|);
      ghost var before := reservations;
      for index := 0 to |rows|
        invariant |reservations| == |before|
        invariant forall k :: 0 <= k < |before| ==>
                    reservations[k] == if k in rows[..index] then ReleaseOne(before[k], now) else before[k]
      {
        var id := rows[index];
        assert rows[..index + 1] == rows[..index] + [id];
        assert id !in rows[..index];
        reservations := reservations[id := reservations[id].(state := Released)];
        reservations := reservations[id := reservations[id].(activeKey := None, consumedAt := None,
                                                             releasedAt := Some(now))];
      }
      assert rows[..|rows|] == rows;
      assert forall k :: 0 <= k < |before| ==> (k in rows <==> before[k].plan == p);
    }

    /** `reconcile_plan` */
    method Reconcile(p: Id, reply: WorkerReply, now: Time) returns (outcome: Outcome)
      modifies this`operations, this`reservations
      ensures (State(), outcome) == ReconcilePlan(old(State()), p, reply, now)
    {
      if p >= |plans| {
        return Outcome(NotEligible, false, None, false);
      }
      var stage := FailedStage(operations, plans[p], p, |operations|);
      if plans[p].request >= |requests| || stage.None? {
        return Outcome(NotEligible, false, stage, false);
      }
      var op := stage.value;
      if AlreadyReconciled(State(), p, op) {
        return Outcome(Verified, false, stage, false);
      }
      if !Eligible(State(), p, op) {
        return Outcome(NotEligible, false, stage, false);
      }
      if reply.Undecodable? {
        return Outcome(Escaped, false, stage, true);
      }
      var verification := ZeroResidue(PortalResidue(portal, requests[plans[p].request].account), reply);
      RecordVerification(op, verification);
      if !AllAbsent(verification) {
        return Outcome(ManualReview, false, stage, true);
      }
      ReleaseReservations(p, now);
      return Outcome(Verified, true, stage, true);
    }

    /** What the verification leaves on the stage operation. */
    method RecordVerification(op: Id, verification: Verification)
      requires op < |operations|
      modifies this`operations
      ensures var before := old(operations)[op];
              operations == old(operations)[op := if AllAbsent(verification) then RolledBackStage(before, verification)
                                                  else ReviewedStage(before, verification)]
    {
      var previous := EvidenceOf(operations[op]);
      var reconciled := previous.(reconciliation := Some(verification));
      operations := operations[op := operations[op].(evidence := Some(reconciled))];
      if !AllAbsent(verification) {
        operations := operations[op := operations[op].(rollbackStatus := Some("REQUIRES_MANUAL_REVIEW"))];
        return;
      }
      var untouched := previous.classification == Some("NO_SIDE_EFFECT");
      var classification := if untouched then "NO_SIDE_EFFECT" else "PARTIAL_ROLLED_BACK";
      operations := operations[op := operations[op].(
        rollbackStatus := Some("ROLLED_BACK"),
        evidence := Some(reconciled.(classification := Some(classification), rollbackStatus := Some("ROLLED_BACK"))))];
    }

    /** `process_pending`: the query picks the batch, and its plans are attempted one by one, each at its own moment. */
    method ProcessPending(limit: nat, moments: seq<Moment>)
      returns (processed: nat, verified: nat, manualReview: nat, escaped: bool)
      requires Constraints(reservations) && limit <= |moments|
      modifies this`operations, this`reservations
      ensures var ids := PendingIds(old(State()), limit);
              && Tally(State(), verified, manualReview, escaped) == RunPending(old(State()), AttemptsOf(ids, moments))
              && processed == |ids| <= limit
      ensures Constraints(reservations)
    {
      var ids := PendingIds(State(), limit);
      RunKeepsConstraints(State(), AttemptsOf(ids, moments), 0);
      processed := |ids|;
      verified, manualReview, escaped := RunAttempts(AttemptsOf(ids, moments));
    }

    /** The loop over the plans of a batch. */
    method RunAttempts(attempts: seq<Attempt>) returns (verified: nat, manualReview: nat, escaped: bool)
      modifies this`operations, this`reservations
      ensures Tally(State(), verified, manualReview, escaped) == RunPending(old(State()), attempts)
    {
      ghost var goal := RunPending(State(), attempts);
      assert attempts[0..] == attempts;
      verified, manualReview, escaped := 0, 0, false;
      for index := 0 to |attempts|
        invariant Remaining(State(), attempts, index, verified, manualReview) == goal
      {
        RemainingStep(State(), attempts, index, verified, manualReview);
        var outcome := Reconcile(attempts[index].plan, attempts[index].reply, attempts[index].now);
        if outcome.status == Escaped {
          return verified, manualReview, true;
        }
        if outcome.status == Verified {
          verified := verified + 1;
        } else if outcome.status == ManualReview {
          manualReview := manualReview + 1;
        }
      }
    }
  }
}
