/** The services as they run on the tables: each method is one transaction, proved to follow its function in
    `LeaseModel`. A method that returns an error has rolled back. */
module LeaseService {
  import opened Options
  import opened LeaseModel
  import opened LeaseInvariant
  import opened LeaseRuns
  import opened LeaseBatches

  /** What the loop over `all` will have made of it, having reached `index`. */
  ghost function Closing(db: Database, all: seq<Renewal>, index: nat, now: Time, left: nat): seq<Renewal>
    requires index <= |all|
  {
    all[..index] + CloseOverdue(db, all[index..], now, left)
  }

  lemma Regroup(head: seq<Renewal>, r: Renewal, rest: seq<Renewal>)
    ensures head + ([r] + rest) == (head + [r]) + rest
  {
  }

  /** One round of the loop that closes overdue requests. */
  lemma CloseStep(db: Database, all: seq<Renewal>, index: nat, now: Time, left: nat)
    requires index < |all|
    ensures Closing(db, all, index, now, left)
            == if left > 0 && Overdue(db, all[index], now)
               then Closing(db, all[index := all[index].(state := Cancelled, decidedAt := Some(now))],
                            index + 1, now, left - 1)
               else Closing(db, all, index + 1, now, left)
  {
    var head, tail := all[..index], all[index..];
    assert tail[0] == all[index] && tail[1..] == all[index + 1..];
    if left > 0 && Overdue(db, all[index], now) {
      var closed := all[index].(state := Cancelled, decidedAt := Some(now));
      var next := all[index := closed];
      assert next[..index + 1] == head + [closed] && next[index + 1..] == all[index + 1..];
      Regroup(head, closed, CloseOverdue(db, all[index + 1..], now, left - 1));
    } else {
      assert all[..index + 1] == head + [all[index]];
      Regroup(head, all[index], CloseOverdue(db, all[index + 1..], now, left));
    }
  }

  function Larger(a: nat, b: nat): nat {
    if a > b then a else b
  }

  lemma CleanupIgnoresOperations(db: Database, expiry: map<Id, Operation>, i: Id, reply: WorkerReply, now: Time,
                                 finished: Time)
    requires Cleanable(db, i)
    ensures Cleanup(db.(expiry := expiry), i, reply, now, finished)
            == Cleanup(db, i, reply, now, finished).(expiry := expiry)
  {
  }

  class Session {
    var leases: seq<Lease>
    var renewals: seq<Renewal>
    var expiry: map<Id, Operation>
    var items: seq<RecycleItem>
    var managed: map<Owner, Managed>

    function Tables(): Database
      reads this
    {
      Database(leases, renewals, expiry, items, managed)
    }

    constructor (db: Database)
      ensures Tables() == db
    {
      leases, renewals, expiry, items, managed := db.leases, db.renewals, db.expiry, db.items, db.managed;
    }

    method Rollback(snapshot: Database)
      modifies this
      ensures Tables() == snapshot
    {
      leases, renewals, expiry := snapshot.leases, snapshot.renewals, snapshot.expiry;
      items, managed := snapshot.items, snapshot.managed;
    }

    method EnsureActiveLease(owner: Owner, now: Time) returns (r: Result<Id>)
      modifies this`leases
      ensures match EnsureActive(old(Tables()), owner, now)
              case Ok(ensured) => Tables() == ensured.0 && r == Ok(ensured.1)
              case Err(e) => Tables() == old(Tables()) && r == Err(e)
    {
      var lease := LatestStarted(leases, owner, now, |leases|);
      if lease.Some? && leases[lease.value].expiresAt > now {
        return Ok(lease.value);
      }
      var expired := if lease.None? then LatestLapsed(leases, owner, now, |leases|) else lease;
      if expired.Some? && Activatable(leases, expired.value, now) {
        var s := SuccessorOf(leases, expired.value).value;
        leases := leases[expired.value := leases[expired.value].(state := Expired, expiredAt := Some(now))];
        leases := leases[s := leases[s].(state := Active)];
        if leases[s].approvedAt.None? {
          leases := leases[s := leases[s].(approvedAt := Some(now))];
        }
        return Ok(s);
      }
      return Err(LeaseInactive);
    }

    /** The loop of `lease_chain_terminal`. */
    method LeaseChainTerminal(lease: Id) returns (r: Result<Id>)
      requires lease < |leases|
      ensures r == Terminal(leases, lease)
    {
      var current: Id := lease;
      var seen: set<Id> := {current};
      while true
        invariant current < |leases| && forall i :: i in seen ==> i < |leases|
        invariant TerminalFrom(leases, current, seen) == Terminal(leases, lease)
        decreases |leases| - |seen|
      {
        SeenBounded(seen, |leases|);
        var successor := SuccessorOf(leases, current);
        if successor.None? || leases[successor.value].state != Approved {
          return Ok(current);
        }
        if successor.value in seen || leases[successor.value].startsAt != leases[current].expiresAt {
          return Err(LeaseChainInvalid);
        }
        seen := seen + {successor.value};
        SeenBounded(seen, |leases|);
        current := successor.value;
      }
    }

    method RequestRenewal(owner: Owner, seconds: int, key: string, now: Time) returns (r: Result<Id>)
      modifies this
      ensures match LeaseModel.RequestRenewal(old(Tables()), owner, seconds, key, now)
              case Ok(requested) => Tables() == requested.0 && r == Ok(requested.1)
              case Err(e) => Tables() == old(Tables()) && r == Err(e)
    {
      if !LegalDuration(seconds) {
        return Err(LeaseDurationExceeded);
      }
      var existing := FindKey(renewals, owner, key, 0);
      if existing.Some? {
        if renewals[existing.value].durationSeconds != seconds {
          return Err(IdempotencyConflict);
        }
        return Ok(existing.value);
      }
      var snapshot := Tables();
      var active := EnsureActiveLease(owner, now);
      if active.Err? {
        return Err(if active.error == LeaseInactive then LeaseExpiredRestoreRequired else active.error);
      }
      var terminal := LeaseChainTerminal(active.value);
      if terminal.Err? {
        Rollback(snapshot);
        return Err(terminal.error);
      }
      var remaining := WholeSeconds(leases[terminal.value].expiresAt - now);
      if remaining <= 0 {
        Rollback(snapshot);
        return Err(LeaseExpiredRestoreRequired);
      }
      if remaining > RENEWAL_WINDOW_SECONDS {
        Rollback(snapshot);
        return Err(RenewalWindowNotOpen);
      }
      if HasPending(renewals, owner) {
        Rollback(snapshot);
        return Err(RenewalAlreadyPending);
      }
      r := Ok(|renewals|);
      renewals := renewals + [Renewal(owner, terminal.value, Pending, seconds, key, now, None, None)];
      leases := leases[active.value := leases[active.value].(state := RenewalPending)];
    }

    method DecideRenewal(request: Id, decision: Decision, now: Time)
      returns (r: Result<Option<Id>>, closedExpired: bool)
      modifies this
      ensures match LeaseModel.DecideRenewal(old(Tables()), request, decision, now)
              case Ok(Decided(db, successor)) => Tables() == db && r == Ok(successor) && !closedExpired
              case Ok(ClosedExpired(db)) => Tables() == db && r == Ok(None) && closedExpired
              case Err(e) => Tables() == old(Tables()) && r == Err(e) && !closedExpired
    {
      closedExpired := false;
      if request >= |renewals| {
        return Err(RenewalRequestNotFound), false;
      }
      if renewals[request].state != Pending {
        return Err(RenewalAlreadyDecided), false;
      }
      var id := renewals[request].lease;
      if id >= |leases| {
        return Err(LeaseNotFound), false;
      }
      if leases[id].expiresAt <= now {
        if leases[id].state in ACTIVE_LEASE_STATES {
          leases := leases[id := ExpireLease(leases[id], now)];
        }
        renewals := renewals[request := renewals[request].(state := Cancelled, decidedAt := Some(now))];
        return Ok(None), true;
      }
      var snapshot := Tables();
      renewals := renewals[request := renewals[request].(decidedAt := Some(now))];
      if decision == Reject {
        renewals := renewals[request := renewals[request].(state := Rejected)];
        leases := leases[id := leases[id].(state := RenewalWindow)];
        return Ok(None), false;
      }
      if decision != Approve || SuccessorOf(leases, id).Some? {
        Rollback(snapshot);
        return Err(if decision != Approve then InvalidDecision else IntegrityError), false;
      }
      var successor := NewLease(renewals[request].owner, Approved, leases[id].gpuCount, leases[id].expiresAt,
                                renewals[request].durationSeconds, Some(id), now);
      var inserted := |leases|;
      leases := leases + [successor];
      renewals := renewals[request := renewals[request].(state := Granted, resultingLease := Some(inserted))];
      leases := leases[id := leases[id].(state := RenewalWindow)];
      return Ok(Some(inserted)), false;
    }

    /** The loop of `reconcile_expired_renewal_requests`. */
    method ReconcileExpiredRenewalRequests(now: Time, limit: nat)
      modifies this`renewals
      ensures Tables() == ReconcileRequests(old(Tables()), now, limit)
    {
      ghost var before := Tables();
      ghost var goal := CloseOverdue(before, renewals, now, limit);
      assert renewals[..0] + goal == goal && renewals[0..] == renewals;
      var index, left := 0, limit;
      while index < |renewals|
        invariant index <= |renewals| && Closing(before, renewals, index, now, left) == goal
      {
        var r := renewals[index];
        CloseStep(before, renewals, index, now, left);
        if left > 0 && r.state == Pending && r.lease < |leases| && leases[r.lease].expiresAt <= now {
          renewals := renewals[index := r.(state := Cancelled, decidedAt := Some(now))];
          left := left - 1;
        }
        index := index + 1;
      }
      assert renewals[index..] == [] && renewals[..index] == renewals;
    }

    /** `_automatic_operation`: the number of the attempt that starts now, with its operation marked running. The first
        attempt has no operation before it; a later one follows a failed attempt that may be retried, and not before
        its time. */
    method AutomaticOperation(lease: Id, now: Time) returns (attempt: Option<nat>)
      modifies this`expiry
      ensures attempt == NextAttempt(old(expiry), lease, now)
      ensures attempt.None? ==> expiry == old(expiry)
      ensures attempt.Some? ==>
                var running := Some(Evidence(Automatic, attempt.value, None, false));
                expiry == old(expiry)[lease := Operation(Running, running)]
      ensures attempt.Some? ==> 1 <= attempt.value <= MAX_AUTOMATIC_ATTEMPTS
      ensures attempt == Some(1) <==> lease !in old(expiry)
      ensures attempt.Some? && attempt.value > 1 ==>
                var failed := old(expiry)[lease];
                && failed.status == FailedOperation && failed.evidence.Some? && !failed.evidence.value.manualReview
                && failed.evidence.value.attemptCount == attempt.value - 1
                && failed.evidence.value.nextRetryAt.Some? && failed.evidence.value.nextRetryAt.value <= now
    {
      if lease !in expiry {
        expiry := expiry[lease := Operation(Running, Some(Evidence(Automatic, 1, None, false)))];
        return Some(1);
      }
      var operation := expiry[lease];
      if operation.status != FailedOperation || operation.evidence.None? || operation.evidence.value.manualReview {
        return None;
      }
      var previous := operation.evidence.value.attemptCount;
      if previous < 1 || previous >= MAX_AUTOMATIC_ATTEMPTS {
        return None;
      }
      var next := operation.evidence.value.nextRetryAt;
      if next.None? || now < next.value {
        return None;
      }
      expiry := expiry[lease := operation.(status := Running,
                                           evidence := Some(Evidence(Automatic, previous + 1, None, false)))];
      return Some(previous + 1);
    }

    /** `_execute_cleanup` with `_record_failure` and `_record_success`, without the operation row. Access is closed
        before the Worker is called; where its answer cannot be decoded the exception leaves that half done, for the
        caller's rollback. */
    method ExecuteCleanup(i: Id, now: Time, finished: Time, reply: WorkerReply) returns (succeeded: bool, raised: bool)
      requires Cleanable(Tables(), i)
      modifies this`leases, this`managed, this`items
      ensures raised == reply.Undecodable?
      ensures !raised ==> Tables() == Cleanup(old(Tables()), i, reply, now, finished)
      ensures succeeded == CleanupSucceeded(reply, old(managed)[old(leases)[i].owner].keys)
    {
      var owner := leases[i].owner;
      var m := managed[owner];
      leases := leases[i := ExpireLease(leases[i], now)];
      var closing := m.container.value.(desired := PowerStopped);
      managed := managed[owner := m.(environment := EnvironmentSuspended, container := Some(closing))];
      if reply.Undecodable? {
        return false, true;
      }
      raised := false;
      succeeded := CleanupSucceeded(reply, m.keys);
      if succeeded {
        if !HasItem(items, i) {
          items := items + [RecycleItem(owner, i, leases[i].expiresAt, finished)];
        }
        leases := leases[i := leases[i].(state := RecycleBin, recycledAt := Some(finished))];
        managed := managed[owner := RecycledManaged(m)];
      } else {
        managed := managed[owner := FailedManaged(m, reply)];
      }
    }

    /** `_recycle_one`, for a lease just found due again. */
    method RecycleOne(scan: ScanInput) returns (outcome: Outcome)
      modifies this
      ensures (Tables(), outcome) == ScanLease(old(Tables()), scan.lease, scan.now, scan.finished, scan.reply)
    {
      var i := scan.lease;
      if !Due(Tables(), i, scan.now) {
        return NotDue;
      }
      if leases[i].owner !in managed {
        return Crashed;
      }
      var s := SuccessorOf(leases, i);
      if s.Some? && leases[s.value].state == Approved && leases[s.value].expiresAt > scan.now {
        leases := leases[i := leases[i].(state := Expired, expiredAt := Some(scan.now))];
        leases := leases[s.value := leases[s.value].(state := Active)];
        return Activated;
      }
      var snapshot := Tables();
      var attempt := AutomaticOperation(i, scan.now);
      if attempt.None? {
        return Waiting;
      }
      if !Cleanable(Tables(), i) {
        Rollback(snapshot);
        return Crashed;
      }
      var succeeded, raised := ExecuteCleanup(i, scan.now, scan.finished, scan.reply);
      if raised {
        Rollback(snapshot);
        return Lost(Attempt(i, Automatic, scan.now, scan.finished, false));
      }
      CleanupIgnoresOperations(snapshot, expiry, i, scan.reply, scan.now, scan.finished);
      expiry := expiry[i := RecordedOperation(attempt.value, scan.reply, scan.finished, succeeded)];
      assert expiry == snapshot.expiry[i := RecordedOperation(attempt.value, scan.reply, scan.finished, succeeded)];
      return Attempted(Attempt(i, Automatic, scan.now, scan.finished, succeeded));
    }

    /** `retry_failed_recycle`, with its operation a row of its own. */
    method RetryFailedRecycle(i: Id, now: Time, finished: Time, reply: WorkerReply) returns (r: Result<Attempt>)
      modifies this
      ensures match LeaseModel.RetryFailedRecycle(old(Tables()), i, now, finished, reply)
              case Ok(retried) => Tables() == retried.0 && r == Ok(retried.1)
              case Err(e) => Tables() == old(Tables()) && r == Err(e)
    {
      if i >= |leases| {
        return Err(LeaseNotFound);
      }
      if leases[i].expiresAt > now || leases[i].recycledAt.Some? || !Cleanable(Tables(), i) {
        return Err(RecoveryTargetInvalid);
      }
      var snapshot := Tables();
      var succeeded, raised := ExecuteCleanup(i, now, finished, reply);
      if raised {
        Rollback(snapshot);
        return Err(ReplyUndecodable);
      }
      return Ok(Attempt(i, OwnerRecovery, now, finished, succeeded));
    }

    /** `process_due_leases`: overdue requests are closed, the query picks the batch, and its leases are scanned one by
        one, each at its own moment. */
    method ProcessDueLeases(now: Time, limit: nat, moments: seq<Moment>)
      returns (processed: nat, recycled: nat, crashed: bool)
      requires limit <= |moments|
      modifies this
      ensures var queried := ReconcileRequests(old(Tables()), now, if limit > 128 then limit else 128);
              var scans := ScansOf(Take(DueQueue(queried, now), limit), moments);
              && Batch(Tables(), processed, recycled, crashed) == RunBatch(queried, scans)
              && recycled <= processed <= |scans| <= limit
              && processed == Processed(Outcomes(queried, scans)) && recycled == Recycled(Outcomes(queried, scans))
              && (Inv(old(Tables()), now) && InScanOrder(scans, now) ==> Inv(Tables(), BatchEnd(scans, now)))
    {
      ReconcileExpiredRenewalRequests(now, Larger(limit, 128));
      if Inv(old(Tables()), now) {
        ReconcileKeepsInv(old(Tables()), now, Larger(limit, 128));
      }
      var due := Take(DueQueue(Tables(), now), limit);
      var scans := ScansOf(due, moments);
      processed, recycled, crashed := RunScans(scans);
    }

    /** The loop over the leases of a batch. */
    method RunScans(scans: seq<ScanInput>) returns (processed: nat, recycled: nat, crashed: bool)
      modifies this
      ensures Batch(Tables(), processed, recycled, crashed) == RunBatch(old(Tables()), scans)
      ensures recycled <= processed <= |scans| && processed == Processed(Outcomes(old(Tables()), scans))
      ensures recycled == Recycled(Outcomes(old(Tables()), scans))
      ensures forall from :: Inv(old(Tables()), from) && InScanOrder(scans, from) ==>
              Inv(Tables(), BatchEnd(scans, from))
    {
      BatchTellsOutcomes(Tables(), scans);
      processed, recycled, crashed := 0, 0, false;
      BatchCounts(Tables(), scans);
      forall from | Inv(Tables(), from) && InScanOrder(scans, from)
        ensures Inv(RunBatch(Tables(), scans).db, BatchEnd(scans, from))
      {
        BatchKeepsInv(Tables(), scans, from);
      }
      ghost var goal := RunBatch(Tables(), scans);
      var index := 0;
      while index < |scans|
        invariant index <= |scans| && !crashed
        invariant var rest := RunBatch(Tables(), scans[index..]);
                  goal == rest.(processed := rest.processed + processed, recycled := rest.recycled + recycled)
      {
        assert scans[index..][1..] == scans[index + 1..];
        var outcome := RecycleOne(scans[index]);
        if !outcome.NotDue? {
          processed := processed + 1;
        }
        if outcome.Raises() {
          crashed := true;
          return;
        }
        if outcome.Attempted? && outcome.attempt.succeeded {
          recycled := recycled + 1;
        }
        index := index + 1;
      }
    }
  }
}
