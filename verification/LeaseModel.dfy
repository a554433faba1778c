/** Leases, renewal requests, expiry cleanup and recycling as one database state and one function per
    transaction. A transaction that raises leaves the database as it was, except where the source commits. */
module LeaseModel {
  import opened Options

  datatype Result<+T> = Ok(value: T) | Err(error: ErrorCode)

  datatype ErrorCode =
    | LeaseInactive | LeaseChainInvalid | LeaseDurationExceeded | IdempotencyConflict
    | LeaseExpiredRestoreRequired | RenewalWindowNotOpen | RenewalAlreadyPending
    | RenewalRequestNotFound | RenewalAlreadyDecided | LeaseNotFound | InvalidDecision
    | IntegrityError | InitialLeaseExists
    | ReplyUndecodable | RecoveryTargetInvalid | RecoverySuperseded | RecoveryFailureNotFound | AlreadyRecycled

  // ----- Time: microseconds, as the timestamps hold them -----

  type Time = int

  const SECOND: int := 1_000_000
  const MAX_LEASE_DURATION_SECONDS: int := 96 * 60 * 60
  const RENEWAL_WINDOW_SECONDS: int := 24 * 60 * 60
  const MAX_AUTOMATIC_ATTEMPTS: nat := 3

  /** `int(delta.total_seconds())`: truncation toward zero. */
  function WholeSeconds(delta: Time): int {
    if delta >= 0 then delta / SECOND else -((-delta) / SECOND)
  }

  // ----- Rows -----

  type Id = nat
  type Owner = nat

  datatype LeaseState =
    | Requested | Approved | Active | RenewalWindow | RenewalPending | Expired | RecycleBin
    | RestorePending | Restoring | Suspended | Failed

  const ACTIVE_LEASE_STATES: set<LeaseState> := {Active, RenewalWindow, RenewalPending}
  const DUE_STATES: set<LeaseState> := {Active, RenewalWindow, RenewalPending, Expired}

  datatype Lease = Lease(
    owner: Owner, state: LeaseState, gpuCount: int,
    startsAt: Time, expiresAt: Time, durationSeconds: int,
    approvedAt: Option<Time>, previous: Option<Id>,
    expiredAt: Option<Time>, recycledAt: Option<Time>)

  datatype RequestState = Pending | Granted | Rejected | Cancelled

  datatype Renewal = Renewal(
    owner: Owner, lease: Id, state: RequestState, durationSeconds: int, key: string,
    requestedAt: Time, decidedAt: Option<Time>, resultingLease: Option<Id>)

  datatype Mode = Automatic | OwnerRecovery

  datatype OperationStatus = Running | Succeeded | FailedOperation

  /** The bounded retry evidence of a cleanup; operations without it are legacy failures. */
  datatype Evidence = Evidence(mode: Mode, attemptCount: int, nextRetryAt: Option<Time>, manualReview: bool)

  datatype Operation = Operation(status: OperationStatus, evidence: Option<Evidence>)

  datatype RecycleItem = RecycleItem(owner: Owner, lease: Id, expiresAt: Time, recycledAt: Time)

  datatype EnvironmentState = EnvironmentActive | EnvironmentSuspended | EnvironmentRecycled
  datatype Power = PowerRunning | PowerStopped
  datatype KeyState = Installed | SuspendedByRecycle

  datatype SshKey = SshKey(fingerprint: string, state: KeyState)

  datatype Container = Container(
    desired: Power, observed: Power, allocationJob: Option<int>, allocationUuid: Option<string>)

  /** A managed identity with its container and its retained container keys. */
  datatype Managed = Managed(environment: EnvironmentState, container: Option<Container>, keys: seq<SshKey>)

  /** The tables. A row's identifier is its index, so a foreign key always points to an earlier insert.
      `expiry` holds the automatic cleanup operation of a lease, under its key "lease-expire:<lease>". */
  datatype Database = Database(
    leases: seq<Lease>, renewals: seq<Renewal>, expiry: map<Id, Operation>,
    items: seq<RecycleItem>, managed: map<Owner, Managed>)

  // ----- Lease queries -----

  predicate IsSuccessor(leases: seq<Lease>, i: Id, j: Id) {
    j < |leases| && leases[j].previous == Some(i)
  }

  /** The lease whose `previous_lease_id` is `i`; the unique constraint leaves at most one. */
  function SuccessorOf(leases: seq<Lease>, i: Id): (r: Option<Id>)
    ensures r.Some? ==> IsSuccessor(leases, i, r.value)
    ensures r.None? ==> forall j: Id :: j < |leases| ==> leases[j].previous != Some(i)
    decreases |leases|
  {
    if |leases| == 0 then None
    else if leases[|leases| - 1].previous == Some(i) then Some(|leases| - 1)
    else
      var rest := leases[..|leases| - 1];
      var r := SuccessorOf(rest, i);
      assert forall j: Id :: j < |rest| ==> rest[j] == leases[j];
      r
  }

  predicate StartedAndActive(l: Lease, owner: Owner, now: Time) {
    l.owner == owner && l.state in ACTIVE_LEASE_STATES && l.startsAt <= now
  }

  /** `_active_query(...)`: the latest-starting match among the first `n` leases. */
  function LatestStarted(leases: seq<Lease>, owner: Owner, now: Time, n: nat): (r: Option<Id>)
    requires n <= |leases|
    ensures r.None? ==> forall i :: 0 <= i < n ==> !StartedAndActive(leases[i], owner, now)
    ensures r.Some? ==> r.value < n && StartedAndActive(leases[r.value], owner, now)
    ensures r.Some? ==> forall i :: 0 <= i < n && StartedAndActive(leases[i], owner, now)
                                ==> leases[i].startsAt <= leases[r.value].startsAt
  {
    if n == 0 then None
    else
      var best := LatestStarted(leases, owner, now, n - 1);
      if StartedAndActive(leases[n - 1], owner, now)
         && (best.None? || leases[best.value].startsAt < leases[n - 1].startsAt) then Some(n - 1)
      else best
  }

  predicate LapsedAndActive(l: Lease, owner: Owner, now: Time) {
    l.owner == owner && l.state in ACTIVE_LEASE_STATES && l.expiresAt <= now
  }

  /** The fallback query of `ensure_active_lease`: the latest-expiring lapsed match. */
  function LatestLapsed(leases: seq<Lease>, owner: Owner, now: Time, n: nat): (r: Option<Id>)
    requires n <= |leases|
    ensures r.None? <==> forall i :: 0 <= i < n ==> !LapsedAndActive(leases[i], owner, now)
    ensures r.Some? ==> r.value < n && LapsedAndActive(leases[r.value], owner, now)
  {
    if n == 0 then None
    else
      var best := LatestLapsed(leases, owner, now, n - 1);
      if LapsedAndActive(leases[n - 1], owner, now)
         && (best.None? || leases[best.value].expiresAt < leases[n - 1].expiresAt) then Some(n - 1)
      else best
  }

  // ----- Activation and entitlement -----

  /** The successor of `i` that the queries call activatable at `now`. */
  predicate Activatable(leases: seq<Lease>, i: Id, now: Time) {
    var s := SuccessorOf(leases, i);
    && s.Some?
    && leases[s.value].state == Approved
    && leases[s.value].startsAt <= now < leases[s.value].expiresAt
  }

  function Activate(leases: seq<Lease>, i: Id, s: Id, now: Time): seq<Lease>
    requires i < |leases| && s < |leases|
  {
    var closed := leases[i := leases[i].(state := Expired, expiredAt := Some(now))];
    closed[s := closed[s].(state := Active)]
  }

  function Selected(leases: seq<Lease>, owner: Owner, now: Time): (r: Option<Id>)
    ensures r.Some? ==> r.value < |leases|
  {
    var latest := LatestStarted(leases, owner, now, |leases|);
    if latest.Some? then latest else LatestLapsed(leases, owner, now, |leases|)
  }

  /** `ensure_active_lease`: the covering lease, or its approved successor activated on the way. */
  function EnsureActive(db: Database, owner: Owner, now: Time): (r: Result<(Database, Id)>)
    ensures r.Ok? ==> r.value.1 < |r.value.0.leases| == |db.leases|
  {
    var latest := LatestStarted(db.leases, owner, now, |db.leases|);
    if latest.Some? && db.leases[latest.value].expiresAt > now then Ok((db, latest.value))
    else
      var expired := Selected(db.leases, owner, now);
      if expired.Some? && Activatable(db.leases, expired.value, now) then
        var s := SuccessorOf(db.leases, expired.value).value;
        var leases := Activate(db.leases, expired.value, s, now);
        var approvedAt := if leases[s].approvedAt.Some? then leases[s].approvedAt else Some(now);
        var stamped := leases[s := leases[s].(approvedAt := approvedAt)];
        Ok((db.(leases := stamped), s))
      else Err(LeaseInactive)
  }

  /** `lease_chain_terminal`: follow approved successors; `seen` guards against cycles. */
  function TerminalFrom(leases: seq<Lease>, current: Id, seen: set<Id>): (r: Result<Id>)
    requires current < |leases| && forall i :: i in seen ==> i < |leases|
    ensures r.Ok? ==> r.value < |leases|
    ensures r.Err? ==> r.error == LeaseChainInvalid
    decreases |leases| - |seen|
  {
    SeenBounded(seen, |leases|);
    var s := SuccessorOf(leases, current);
    if s.None? || leases[s.value].state != Approved then Ok(current)
    else if s.value in seen || leases[s.value].startsAt != leases[current].expiresAt then Err(LeaseChainInvalid)
    else
      SeenBounded(seen + {s.value}, |leases|);
      TerminalFrom(leases, s.value, seen + {s.value})
  }

  lemma {:induction false} SeenBounded(seen: set<Id>, n: nat)
    requires forall i :: i in seen ==> i < n
    ensures |seen| <= n
    decreases n
  {
    if n > 0 {
      var rest := seen - {n - 1};
      SeenBounded(rest, n - 1);
      if n - 1 in seen {
        assert seen == rest + {n - 1};
      } else {
        assert seen == rest;
      }
    } else {
      assert seen == {};
    }
  }

  function Terminal(leases: seq<Lease>, i: Id): (r: Result<Id>)
    requires i < |leases|
    ensures r.Ok? ==> r.value < |leases|
  {
    TerminalFrom(leases, i, {i})
  }

  datatype Entitled = Entitled(db: Database, active: Id, terminal: Id)

  /** `entitlement`: the active lease and the end of its approved chain. */
  function Entitlement(db: Database, owner: Owner, now: Time): (r: Result<Entitled>)
    ensures r.Ok? ==> r.value.active < |r.value.db.leases| && r.value.terminal < |r.value.db.leases| == |db.leases|
  {
    match EnsureActive(db, owner, now)
    case Err(e) => Err(e)
    case Ok(ensured) =>
      match Terminal(ensured.0.leases, ensured.1)
      case Err(e) => Err(e)
      case Ok(terminal) => Ok(Entitled(ensured.0, ensured.1, terminal))
  }

  // ----- Creating and renewing -----

  predicate LegalDuration(seconds: int) {
    1 <= seconds <= MAX_LEASE_DURATION_SECONDS
  }

  /** `create_lease` */
  function NewLease(owner: Owner, state: LeaseState, gpuCount: int, startsAt: Time, seconds: int,
                    previous: Option<Id>, now: Time): Lease {
    Lease(owner, state, gpuCount, startsAt, startsAt + seconds * SECOND, seconds, Some(now), previous, None, None)
  }

  predicate HasLease(leases: seq<Lease>, owner: Owner) {
    exists i :: 0 <= i < |leases| && leases[i].owner == owner
  }

  /** The one root lease of an owner, of the full duration or less, starting now. */
  function CreateRoot(db: Database, owner: Owner, seconds: int, gpuCount: int, now: Time): Result<Database> {
    if HasLease(db.leases, owner) then Err(InitialLeaseExists)
    else if !LegalDuration(seconds) || gpuCount !in {0, 1} then Err(LeaseDurationExceeded)
    else Ok(db.(leases := db.leases + [NewLease(owner, Active, gpuCount, now, seconds, None, now)]))
  }

  /** The first renewal matching the test among all rows from `from` on. */
  function FindKey(renewals: seq<Renewal>, owner: Owner, key: string, from: nat): (r: Option<Id>)
    requires from <= |renewals|
    ensures r.Some? ==> r.value < |renewals| && renewals[r.value].owner == owner && renewals[r.value].key == key
    ensures r.None? ==> forall i :: from <= i < |renewals| ==> renewals[i].owner != owner || renewals[i].key != key
    decreases |renewals| - from
  {
    if from == |renewals| then None
    else if renewals[from].owner == owner && renewals[from].key == key then Some(from)
    else FindKey(renewals, owner, key, from + 1)
  }

  predicate HasPending(renewals: seq<Renewal>, owner: Owner) {
    exists i :: 0 <= i < |renewals| && renewals[i].owner == owner && renewals[i].state == Pending
  }

  predicate HasPendingFor(renewals: seq<Renewal>, owner: Owner, lease: Id) {
    exists i :: 0 <= i < |renewals| && renewals[i].owner == owner && renewals[i].lease == lease
                && renewals[i].state == Pending
  }

  /** `request_renewal`; the result carries the request's row. */
  function RequestRenewal(db: Database, owner: Owner, seconds: int, key: string, now: Time): Result<(Database, Id)> {
    if !LegalDuration(seconds) then Err(LeaseDurationExceeded)
    else
      var existing := FindKey(db.renewals, owner, key, 0);
      if existing.Some? then
        if db.renewals[existing.value].durationSeconds != seconds then Err(IdempotencyConflict)
        else Ok((db, existing.value))
      else
        match Entitlement(db, owner, now)
        case Err(e) => Err(if e == LeaseInactive then LeaseExpiredRestoreRequired else e)
        case Ok(Entitled(ensured, active, terminal)) =>
          var remaining := WholeSeconds(ensured.leases[terminal].expiresAt - now);
          if remaining <= 0 then Err(LeaseExpiredRestoreRequired)
          else if remaining > RENEWAL_WINDOW_SECONDS then Err(RenewalWindowNotOpen)
          else if HasPending(db.renewals, owner) then Err(RenewalAlreadyPending)
          else
            var request := Renewal(owner, terminal, Pending, seconds, key, now, None, None);
            Ok((ensured.(renewals := db.renewals + [request],
                         leases := ensured.leases[active := ensured.leases[active].(state := RenewalPending)]),
                |db.renewals|))
  }

  datatype Decision = Approve | Reject | OtherDecision

  /** What a decision leaves behind: a decided request, or a request closed because its lease had run out. */
  datatype Decided = Decided(db: Database, successor: Option<Id>) | ClosedExpired(db: Database)

  /** `decide_renewal` */
  function DecideRenewal(db: Database, request: Id, decision: Decision, now: Time): Result<Decided> {
    if request >= |db.renewals| then Err(RenewalRequestNotFound)
    else
      var r := db.renewals[request];
      if r.state != Pending then Err(RenewalAlreadyDecided)
      else if r.lease >= |db.leases| then Err(LeaseNotFound)
      else
        var lease := db.leases[r.lease];
        if lease.expiresAt <= now then
          var closed := if lease.state in ACTIVE_LEASE_STATES
                        then ExpireLease(lease, now)
                        else lease;
          Ok(ClosedExpired(db.(leases := db.leases[r.lease := closed],
                               renewals := db.renewals[request := r.(state := Cancelled, decidedAt := Some(now))])))
        else if decision == Reject then
          Ok(Decided(db.(leases := db.leases[r.lease := lease.(state := RenewalWindow)],
                         renewals := db.renewals[request := r.(state := Rejected, decidedAt := Some(now))]), None))
        else if decision != Approve then Err(InvalidDecision)
        else if SuccessorOf(db.leases, r.lease).Some? then Err(IntegrityError)
        else
          var successor := NewLease(r.owner, Approved, lease.gpuCount, lease.expiresAt, r.durationSeconds,
                                    Some(r.lease), now);
          Ok(Decided(db.(leases := db.leases[r.lease := lease.(state := RenewalWindow)] + [successor],
                         renewals := db.renewals[request := r.(state := Granted, decidedAt := Some(now),
                                                               resultingLease := Some(|db.leases|))]),
                     Some(|db.leases|)))
  }

  // ----- Expiry -----

  predicate Overdue(db: Database, r: Renewal, now: Time) {
    r.state == Pending && r.lease < |db.leases| && db.leases[r.lease].expiresAt <= now
  }

  /** `reconcile_expired_renewal_requests`: close at most `limit` overdue requests, oldest first. */
  function CloseOverdue(db: Database, renewals: seq<Renewal>, now: Time, limit: nat): (r: seq<Renewal>)
    ensures |r| == |renewals|
  {
    if |renewals| == 0 || limit == 0 then renewals
    else if Overdue(db, renewals[0], now) then
      [renewals[0].(state := Cancelled, decidedAt := Some(now))] + CloseOverdue(db, renewals[1..], now, limit - 1)
    else [renewals[0]] + CloseOverdue(db, renewals[1..], now, limit)
  }

  function ReconcileRequests(db: Database, now: Time, limit: nat): Database {
    db.(renewals := CloseOverdue(db, db.renewals, now, limit))
  }

  /** `_due_predicate` */
  predicate Due(db: Database, i: Id, now: Time) {
    && i < |db.leases|
    && db.leases[i].state in DUE_STATES
    && db.leases[i].expiresAt <= now
    && db.leases[i].recycledAt.None?
    && (SuccessorOf(db.leases, i).None? || Activatable(db.leases, i, now))
  }

  /** `AUTOMATIC_RETRY_DELAYS_SECONDS[attempt - 1]`, where there is one. */
  function RetryDelay(attempt: int): Option<Time> {
    if attempt == 1 then Some(60 * SECOND) else if attempt == 2 then Some(300 * SECOND) else None
  }

  /** `_automatic_operation`: the number of the attempt that may start now. */
  function NextAttempt(expiry: map<Id, Operation>, i: Id, now: Time): Option<nat> {
    if i !in expiry then Some(1)
    else
      var operation := expiry[i];
      if operation.status != FailedOperation || operation.evidence.None? then None
      else if operation.evidence.value.manualReview then None
      else
        var previous := operation.evidence.value.attemptCount;
        if previous < 1 || previous >= MAX_AUTOMATIC_ATTEMPTS then None
        else if operation.evidence.value.nextRetryAt.None? || now < operation.evidence.value.nextRetryAt.value then None
        else Some(previous + 1)
  }

  /** The Root Worker's answer to `resource.recycle`: no answer at all, one with arbitrary fields, or bytes that the
      client cannot decode, for which it raises an exception that nobody expects. */
  datatype WorkerReply =
    | NoReply
    | Undecodable
    | Reply(status: string, containerState: string, containerGpu: string,
            allocationJob: Option<int>, allocationUuid: Option<string>,
            keyState: string, fingerprints: Option<seq<string>>,
            dataPreserved: bool, cleanupRetryable: bool, allocationRevoked: bool)

  function Fingerprints(keys: seq<SshKey>): seq<string> {
    seq(|keys|, i requires 0 <= i < |keys| => keys[i].fingerprint)
  }

  /** The suspension of exactly the expected keys; the source compares sorted lists. */
  predicate KeysVerified(reply: WorkerReply, keys: seq<SshKey>) {
    && reply.Reply?
    && reply.keyState == "SUSPENDED_BY_RECYCLE"
    && reply.fingerprints.Some?
    && multiset(reply.fingerprints.value) == multiset(Fingerprints(keys))
  }

  predicate CleanupSucceeded(reply: WorkerReply, keys: seq<SshKey>) {
    && KeysVerified(reply, keys)
    && reply.status == "SUCCEEDED" && reply.containerState == "STOPPED" && reply.containerGpu == "NONE"
    && reply.allocationJob.None? && reply.allocationUuid.None? && reply.dataPreserved
  }

  /** `_failure_evidence` */
  function FailureEvidence(mode: Mode, attempt: int, reply: WorkerReply, now: Time): Evidence {
    var retryable := reply.NoReply? || (reply.Reply? && reply.cleanupRetryable);
    var delay := RetryDelay(attempt);
    var next := if mode == Automatic && retryable && delay.Some? then Some(now + delay.value) else None;
    Evidence(mode, attempt, next, next.None?)
  }

  function SuspendKeys(keys: seq<SshKey>): seq<SshKey> {
    seq(|keys|, i requires 0 <= i < |keys| => keys[i].(state := SuspendedByRecycle))
  }

  function ExpireLease(l: Lease, now: Time): Lease {
    l.(state := Expired, expiredAt := if l.expiredAt.Some? then l.expiredAt else Some(now))
  }

  /** `_record_failure`, on the managed identity. */
  function FailedManaged(m: Managed, reply: WorkerReply): Managed
    requires m.container.Some?
  {
    var stopped := m.container.value.(desired := PowerStopped);
    var container := if reply.Reply? && reply.allocationRevoked
                     then stopped.(allocationJob := None, allocationUuid := None, observed := PowerStopped)
                     else stopped;
    Managed(EnvironmentSuspended, Some(container), if KeysVerified(reply, m.keys) then SuspendKeys(m.keys) else m.keys)
  }

  /** `_record_success`, on the managed identity. */
  function RecycledManaged(m: Managed): Managed
    requires m.container.Some?
  {
    Managed(EnvironmentRecycled, Some(Container(PowerStopped, PowerStopped, None, None)), SuspendKeys(m.keys))
  }

  predicate HasItem(items: seq<RecycleItem>, i: Id) {
    exists k :: 0 <= k < |items| && items[k].lease == i
  }

  /** The cleanup may start only for an identity with a container and at least one retained key. */
  predicate Cleanable(db: Database, i: Id) {
    && i < |db.leases|
    && db.leases[i].owner in db.managed
    && db.managed[db.leases[i].owner].container.Some?
    && |db.managed[db.leases[i].owner].keys| > 0
  }

  /** `_execute_cleanup`, started at `now` and recorded at `finished`; the operation row is the caller's. */
  function Cleanup(db: Database, i: Id, reply: WorkerReply, now: Time, finished: Time): Database
    requires Cleanable(db, i)
  {
    var lease := ExpireLease(db.leases[i], now);
    var m := db.managed[lease.owner];
    if CleanupSucceeded(reply, m.keys) then
      db.(leases := db.leases[i := lease.(state := RecycleBin, recycledAt := Some(finished))],
          managed := db.managed[lease.owner := RecycledManaged(m)],
          items := if HasItem(db.items, i) then db.items
                   else db.items + [RecycleItem(lease.owner, i, lease.expiresAt, finished)])
    else
      db.(leases := db.leases[i := lease],
          managed := db.managed[lease.owner := FailedManaged(m, reply)])
  }

  /** One cleanup attempt, for the record of a run. */
  datatype Attempt = Attempt(lease: Id, mode: Mode, startedAt: Time, finishedAt: Time, succeeded: bool)

  /** `Lost` is an attempt whose answer could not be decoded: all that it wrote is rolled back. */
  datatype Outcome =
    | NotDue | Crashed | Activated | Waiting
    | Attempted(attempt: Attempt)
    | Lost(attempt: Attempt)
  {
    /** An exception leaves the transaction and ends the batch. */
    predicate Raises() {
      Crashed? || Lost?
    }
  }

  /** The operation row written after attempt `n`. */
  function RecordedOperation(n: int, reply: WorkerReply, finished: Time, succeeded: bool): Operation {
    if succeeded then Operation(Succeeded, Some(Evidence(Automatic, n, None, false)))
    else Operation(FailedOperation, Some(FailureEvidence(Automatic, n, reply, finished)))
  }

  /** One lease of `process_due_leases`: the due test again, then `_recycle_one`. The Worker answers `reply`,
      and its result is recorded at `finished`. */
  function ScanLease(db: Database, i: Id, now: Time, finished: Time, reply: WorkerReply): (Database, Outcome) {
    if !Due(db, i, now) then (db, NotDue)
    else if db.leases[i].owner !in db.managed then (db, Crashed)
    else
      var s := SuccessorOf(db.leases, i);
      if s.Some? && db.leases[s.value].state == Approved && db.leases[s.value].expiresAt > now then
        (db.(leases := Activate(db.leases, i, s.value, now)), Activated)
      else
        var attempt := NextAttempt(db.expiry, i, now);
        if attempt.None? then (db, Waiting)
        else if !Cleanable(db, i) then (db, Crashed)
        else if reply.Undecodable? then (db, Lost(Attempt(i, Automatic, now, finished, false)))
        else
          var succeeded := CleanupSucceeded(reply, db.managed[db.leases[i].owner].keys);
          var operation := RecordedOperation(attempt.value, reply, finished, succeeded);
          (Cleanup(db, i, reply, now, finished).(expiry := db.expiry[i := operation]),
           Attempted(Attempt(i, Automatic, now, finished, succeeded)))
  }

  /** The operator's recovery route followed by `retry_failed_recycle`; its operation is a row of its own. */
  function RecoverLease(db: Database, i: Id, now: Time, finished: Time, reply: WorkerReply)
    : Result<(Database, Attempt)>
  {
    if i >= |db.leases| then Err(LeaseNotFound)
    else if db.leases[i].expiresAt > now || db.leases[i].recycledAt.Some? then Err(RecoveryTargetInvalid)
    else if SuccessorOf(db.leases, i).Some? then Err(RecoverySuperseded)
    else if i !in db.expiry || db.expiry[i].status != FailedOperation then Err(RecoveryFailureNotFound)
    else if HasItem(db.items, i) then Err(AlreadyRecycled)
    else RetryFailedRecycle(db, i, now, finished, reply)
  }

  /** `retry_failed_recycle` by itself: it looks at the clock and at `recycled_at` only. */
  function RetryFailedRecycle(db: Database, i: Id, now: Time, finished: Time, reply: WorkerReply)
    : Result<(Database, Attempt)>
  {
    if i >= |db.leases| then Err(LeaseNotFound)
    else if db.leases[i].expiresAt > now || db.leases[i].recycledAt.Some? then Err(RecoveryTargetInvalid)
    else if !Cleanable(db, i) then Err(RecoveryTargetInvalid)
    else if reply.Undecodable? then Err(ReplyUndecodable)
    else
      Ok((Cleanup(db, i, reply, now, finished),
          Attempt(i, OwnerRecovery, now, finished, CleanupSucceeded(reply, db.managed[db.leases[i].owner].keys))))
  }

  // ----- What an owner sees -----

  datatype LeaseView = NotCreated | Inactive | View(active: Id, terminal: Id, remaining: int, renewalAvailable: bool,
                                                    pending: bool)

  /** `lease_view`; it writes nothing. */
  function ViewLease(db: Database, owner: Owner, now: Time): LeaseView {
    match Entitlement(db, owner, now)
    case Err(_) => if HasLease(db.leases, owner) then Inactive else NotCreated
    case Ok(Entitled(ensured, active, terminal)) =>
      var left := WholeSeconds(ensured.leases[terminal].expiresAt - now);
      var remaining := if left > 0 then left else 0;
      var pending := HasPendingFor(db.renewals, owner, terminal);
      View(active, terminal, remaining, 0 < remaining <= RENEWAL_WINDOW_SECONDS && !pending, pending)
  }

  /** The part of `resolve_self_compute_context` that leases and the environment decide. */
  predicate SelfContextAllowed(db: Database, owner: Owner, now: Time) {
    && owner in db.managed
    && Entitlement(db, owner, now).Ok?
    && db.managed[owner].container.Some?
    && db.managed[owner].environment == EnvironmentActive
  }
}
