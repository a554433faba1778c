/** What a run remembers: final states, bounded cleanup attempts, and chains that nobody cleans up. */
module LeaseHistory {
  import opened Options
  import opened LeaseModel
  import opened LeaseInvariant
  import opened LeaseRuns

  // ----- Rows across one transaction -----

  /** Every lease with a cleanup operation has run out and is Expired or in the bin. */
  ghost predicate Settled(db: Database, now: Time) {
    forall i :: i in db.expiry ==>
                  i < |db.leases| && db.leases[i].state in {Expired, RecycleBin} && db.leases[i].expiresAt <= now
  }

  /** What can become of the row of a lease that has run out. */
  ghost predicate Finishes(a: Lease, b: Lease) {
    SameTerms(a, b) && (a == b || (a.state in DUE_STATES && b.state in {Expired, RecycleBin}))
  }

  lemma EnsureFinishes(db: Database, owner: Owner, now: Time, i: Id)
    requires Inv(db, now) && EnsureActive(db, owner, now).Ok? && i < |db.leases| && db.leases[i].expiresAt <= now
    ensures var after := EnsureActive(db, owner, now).value.0;
            |after.leases| == |db.leases| && Finishes(db.leases[i], after.leases[i])
  {
    EnsureActivates(db, owner, now);
    var after := EnsureActive(db, owner, now).value.0;
    assert SameTerms(db.leases[i], after.leases[i]);
  }

  lemma RequestFinishes(db: Database, owner: Owner, seconds: int, key: string, now: Time, i: Id)
    requires Inv(db, now) && i < |db.leases| && db.leases[i].expiresAt <= now
    requires RequestRenewal(db, owner, seconds, key, now).Ok?
    ensures var after := RequestRenewal(db, owner, seconds, key, now).value.0;
            |after.leases| == |db.leases| && Finishes(db.leases[i], after.leases[i])
  {
    if FindKey(db.renewals, owner, key, 0).None? {
      EnsureFinishes(db, owner, now, i);
      EnsureActivates(db, owner, now);
      var Entitled(ensured, active, terminal) := Entitlement(db, owner, now).value;
      assert Covers(ensured.leases[active], now) && SameTerms(db.leases[i], ensured.leases[i]);
      assert active != i;
    }
  }

  lemma DecideFinishes(db: Database, q: Id, decision: Decision, now: Time, i: Id)
    requires Inv(db, now) && i < |db.leases| && db.leases[i].expiresAt <= now && DecideRenewal(db, q, decision, now).Ok?
    ensures var after := DecideRenewal(db, q, decision, now).value.db;
            |after.leases| >= |db.leases| && Finishes(db.leases[i], after.leases[i])
  {
  }

  lemma AutoRenewFinishes(db: Database, owner: Owner, seconds: int, key: string, now: Time, i: Id)
    requires Inv(db, now) && i < |db.leases| && db.leases[i].expiresAt <= now
    ensures var after := RenewAtOnce(db, owner, seconds, key, now);
            |after.leases| >= |db.leases| && Finishes(db.leases[i], after.leases[i])
  {
    var r := RequestRenewal(db, owner, seconds, key, now);
    if r.Ok? {
      RequestFinishes(db, owner, seconds, key, now, i);
      RequestKeepsInv(db, owner, seconds, key, now);
      var (after, request) := r.value;
      if request < |after.renewals| && DecideRenewal(after, request, Approve, now).Ok? {
        DecideFinishes(after, request, Approve, now, i);
      }
    }
  }

  lemma ScanFinishes(db: Database, k: Id, now: Time, finished: Time, reply: WorkerReply, i: Id)
    requires Inv(db, now) && i < |db.leases| && db.leases[i].expiresAt <= now
    ensures var after := ScanLease(db, k, now, finished, reply).0;
            |after.leases| == |db.leases| && Finishes(db.leases[i], after.leases[i])
  {
    if ScanLease(db, k, now, finished, reply).1 == Activated {
      var s := SuccessorOf(db.leases, k).value;
      SuccessorUnique(db.leases, k, s);
    }
  }

  lemma RecoverFinishes(db: Database, k: Id, now: Time, finished: Time, reply: WorkerReply, i: Id)
    requires Inv(db, now) && Settled(db, now) && i < |db.leases| && RecoverLease(db, k, now, finished, reply).Ok?
    ensures var after := RecoverLease(db, k, now, finished, reply).value.0;
            |after.leases| == |db.leases| && Finishes(db.leases[i], after.leases[i])
  {
    var r := RecoverLease(db, k, now, finished, reply);
    assert RecycledTogether(db.leases, db.items, k, now) && k in db.expiry;
  }

  /** A lease that has run out keeps its terms, and its row changes only on the way to Expired or the bin. */
  lemma ApplyFinishes(db: Database, t: Timed, i: Id)
    requires Inv(db, t.now) && Settled(db, t.now) && i < |db.leases| && db.leases[i].expiresAt <= t.now
    ensures |Apply(db, t).leases| >= |db.leases| && Finishes(db.leases[i], Apply(db, t).leases[i])
  {
    match t.step
    case Root(owner, seconds, gpuCount) =>
    case Use(owner) =>
      if EnsureActive(db, owner, t.now).Ok? { EnsureFinishes(db, owner, t.now, i); }
    case Request(owner, seconds, key) =>
      if RequestRenewal(db, owner, seconds, key, t.now).Ok? { RequestFinishes(db, owner, seconds, key, t.now, i); }
    case AutoRenew(owner, seconds, key) => AutoRenewFinishes(db, owner, seconds, key, t.now, i);
    case Decide(request, decision) =>
      if DecideRenewal(db, request, decision, t.now).Ok? { DecideFinishes(db, request, decision, t.now, i); }
    case Reconcile(limit) =>
    case Scan(lease, reply) => ScanFinishes(db, lease, t.now, t.finished, reply, i);
    case Recover(lease, reply) =>
      if RecoverLease(db, lease, t.now, t.finished, reply).Ok? {
        RecoverFinishes(db, lease, t.now, t.finished, reply, i);
      }
  }

  ghost predicate SameOtherTables(a: Database, b: Database) {
    a.expiry == b.expiry && a.managed == b.managed && a.items == b.items
  }

  lemma RequestKeepsOtherTables(db: Database, owner: Owner, seconds: int, key: string, now: Time)
    requires RequestRenewal(db, owner, seconds, key, now).Ok?
    ensures SameOtherTables(db, RequestRenewal(db, owner, seconds, key, now).value.0)
  {
  }

  lemma DecideKeepsOtherTables(db: Database, q: Id, decision: Decision, now: Time)
    requires DecideRenewal(db, q, decision, now).Ok?
    ensures SameOtherTables(db, DecideRenewal(db, q, decision, now).value.db)
  {
  }

  lemma RenewAtOnceKeepsOtherTables(db: Database, owner: Owner, seconds: int, key: string, now: Time)
    ensures SameOtherTables(db, RenewAtOnce(db, owner, seconds, key, now))
  {
    var r := RequestRenewal(db, owner, seconds, key, now);
    if r.Ok? {
      RequestKeepsOtherTables(db, owner, seconds, key, now);
      var (after, request) := r.value;
      if DecideRenewal(after, request, Approve, now).Ok? {
        DecideKeepsOtherTables(after, request, Approve, now);
      }
    }
  }

  /** Only cleanups touch the managed identities, and only scans the automatic operations. */
  lemma OtherTablesOnlyByCleanup(db: Database, t: Timed)
    requires !t.step.Scan?
    ensures Apply(db, t).expiry == db.expiry
    ensures !t.step.Recover? ==> Apply(db, t).managed == db.managed
  {
    match t.step
    case AutoRenew(owner, seconds, key) => RenewAtOnceKeepsOtherTables(db, owner, seconds, key, t.now);
    case Recover(lease, reply) =>
    case Decide(request, decision) =>
    case Request(owner, seconds, key) =>
    case Use(owner) =>
    case Root(owner, seconds, gpuCount) =>
    case Reconcile(limit) =>
  }

  /** A new operation is that of a lease which the scan found lapsed and left expired or in the bin. */
  lemma ScanSettles(db: Database, t: Timed, i: Id)
    requires t.step.Scan? && i in Apply(db, t).expiry && i !in db.expiry && t.now <= t.finished
    ensures i < |Apply(db, t).leases| && Apply(db, t).leases[i].expiresAt <= t.finished
    ensures Apply(db, t).leases[i].state in {Expired, RecycleBin}
  {
    var outcome := ScanLease(db, t.step.lease, t.now, t.finished, t.step.reply).1;
    assert i == t.step.lease && outcome.Attempted? && Due(db, i, t.now);
  }

  lemma ApplyKeepsSettled(db: Database, t: Timed)
    requires Inv(db, t.now) && Settled(db, t.now) && t.now <= t.finished
    ensures Settled(Apply(db, t), t.finished)
  {
    var after := Apply(db, t);
    forall i | i in after.expiry
      ensures i < |after.leases| && after.leases[i].expiresAt <= t.finished
      ensures after.leases[i].state in {Expired, RecycleBin}
    {
      if i in db.expiry {
        ApplyFinishes(db, t, i);
      } else if t.step.Scan? {
        ScanSettles(db, t, i);
      } else {
        OtherTablesOnlyByCleanup(db, t);
      }
    }
  }

  // ----- Runs -----

  ghost predicate Ordered(trace: seq<Timed>, from: Time) {
    |trace| == 0 || (from <= trace[0].now <= trace[0].finished && Ordered(trace[1..], trace[0].finished))
  }

  function Execute(db: Database, trace: seq<Timed>): Database
    decreases |trace|
  {
    if |trace| == 0 then db else Execute(Apply(db, trace[0]), trace[1..])
  }

  function End(trace: seq<Timed>, from: Time): Time {
    if |trace| == 0 then from else End(trace[1..], trace[0].finished)
  }

  function Attempts(db: Database, trace: seq<Timed>): seq<Attempt>
    decreases |trace|
  {
    if |trace| == 0 then []
    else
      var a := AttemptOf(db, trace[0]);
      (if a.Some? then [a.value] else []) + Attempts(Apply(db, trace[0]), trace[1..])
  }

  function Empty(managed: map<Owner, Managed>): Database {
    Database([], [], map[], [], managed)
  }

  ghost predicate Sound(db: Database, now: Time) {
    Inv(db, now) && Settled(db, now)
  }

  lemma {:induction false} RunKeepsSound(db: Database, trace: seq<Timed>, from: Time)
    requires Sound(db, from) && Ordered(trace, from)
    ensures Sound(Execute(db, trace), End(trace, from))
    decreases |trace|
  {
    if |trace| > 0 {
      LaterKeepsInv(db, from, trace[0].now);
      ApplyKeepsInv(db, trace[0]);
      ApplyKeepsSettled(db, trace[0]);
      RunKeepsSound(Apply(db, trace[0]), trace[1..], trace[0].finished);
    }
  }

  /** Every database reached from empty tables, by any run, satisfies the invariant. */
  lemma ReachableIsSound(managed: map<Owner, Managed>, trace: seq<Timed>, from: Time)
    requires Ordered(trace, from)
    ensures Sound(Execute(Empty(managed), trace), End(trace, from))
  {
    RunKeepsSound(Empty(managed), trace, from);
  }

  /** A recycled lease is final: its row never changes again and it never gains a successor. */
  lemma {:induction false} RecycledForever(db: Database, trace: seq<Timed>, from: Time, i: Id)
    requires Sound(db, from) && Ordered(trace, from) && i < |db.leases| && db.leases[i].state == RecycleBin
    ensures var after := Execute(db, trace);
            && i < |after.leases| && after.leases[i] == db.leases[i]
            && SuccessorOf(after.leases, i).None? && HasItem(after.items, i)
    decreases |trace|
  {
    assert RecycledTogether(db.leases, db.items, i, from);
    if |trace| > 0 {
      LaterKeepsInv(db, from, trace[0].now);
      ApplyFinishes(db, trace[0], i);
      ApplyKeepsInv(db, trace[0]);
      ApplyKeepsSettled(db, trace[0]);
      RecycledForever(Apply(db, trace[0]), trace[1..], trace[0].finished, i);
    }
  }

  // ----- Bounded cleanup -----

  function AutomaticFor(history: seq<Attempt>, i: Id): seq<Attempt> {
    if |history| == 0 then []
    else
      var rest := AutomaticFor(history[..|history| - 1], i);
      var last := history[|history| - 1];
      if last.lease == i && last.mode == Automatic then rest + [last] else rest
  }

  lemma AutomaticForAppend(history: seq<Attempt>, a: Attempt, i: Id)
    ensures AutomaticFor(history + [a], i) ==
            if a.lease == i && a.mode == Automatic then AutomaticFor(history, i) + [a] else AutomaticFor(history, i)
  {
    assert (history + [a])[..|history|] == history;
  }

  /** Each attempt after a failure waits for its delay: 60 s before the second, 300 s before the third. */
  ghost predicate Spaced(attempts: seq<Attempt>) {
    forall k :: 0 < k < |attempts| ==> WaitsAfter(attempts[k - 1], attempts[k], RetryDelay(k))
  }

  ghost predicate WaitsAfter(failed: Attempt, next: Attempt, delay: Option<Time>) {
    !failed.succeeded && delay.Some? && next.startedAt >= failed.finishedAt + delay.value
  }

  /** The stored operation of a lease tells its attempts so far. */
  ghost predicate Tells(operation: Operation, attempts: seq<Attempt>) {
    && 1 <= |attempts| <= MAX_AUTOMATIC_ATTEMPTS
    && operation.evidence.Some?
    && operation.evidence.value.attemptCount == |attempts|
    && (operation.status == Succeeded || operation.status == FailedOperation)
    && (operation.status == Succeeded <==> attempts[|attempts| - 1].succeeded)
    && (operation.status == FailedOperation && operation.evidence.value.nextRetryAt.Some? ==>
          && RetryDelay(|attempts|).Some?
          && operation.evidence.value.nextRetryAt.value
             == attempts[|attempts| - 1].finishedAt + RetryDelay(|attempts|).value)
  }

  ghost predicate AccountedFor(expiry: map<Id, Operation>, attempts: seq<Attempt>, i: Id) {
    && Spaced(attempts)
    && (i in expiry ==> Tells(expiry[i], attempts))
    && (i !in expiry ==> attempts == [])
  }

  ghost predicate Accounted(expiry: map<Id, Operation>, history: seq<Attempt>) {
    forall i: Id :: AccountedFor(expiry, AutomaticFor(history, i), i)
  }

  /** What attempt `n` leaves behind decides on the next: another follows exactly when `n` failed, was one of the first
      two and may be retried, and its delay has passed; none while `n` runs or after it succeeded. */
  lemma NextAfterAttempt(expiry: map<Id, Operation>, i: Id, n: int, reply: WorkerReply, finished: Time, now: Time)
    ensures NextAttempt(expiry[i := Operation(Running, Some(Evidence(Automatic, n, None, false)))], i, now) == None
    ensures NextAttempt(expiry[i := RecordedOperation(n, reply, finished, true)], i, now) == None
    ensures NextAttempt(expiry[i := RecordedOperation(n, reply, finished, false)], i, now)
            == if (reply.NoReply? || (reply.Reply? && reply.cleanupRetryable))
                  && ((n == 1 && now >= finished + 60 * SECOND) || (n == 2 && now >= finished + 300 * SECOND))
               then Some(n + 1) else None
  {
  }

  /** An attempt that the operation admits is properly spaced, and the new operation row accounts for it. */
  lemma NextAttemptAccounted(expiry: map<Id, Operation>, before: seq<Attempt>, i: Id, a: Attempt, reply: WorkerReply)
    requires AccountedFor(expiry, before, i) && NextAttempt(expiry, i, a.startedAt).Some?
    ensures NextAttempt(expiry, i, a.startedAt).value == |before| + 1
    ensures Spaced(before + [a])
    ensures Tells(RecordedOperation(|before| + 1, reply, a.finishedAt, a.succeeded), before + [a])
  {
    var after := before + [a];
    forall k | 0 < k < |after| ensures WaitsAfter(after[k - 1], after[k], RetryDelay(k)) {
      if k < |before| {
        assert WaitsAfter(before[k - 1], before[k], RetryDelay(k));
      }
    }
  }

  lemma ScanAccounts(db: Database, i: Id, now: Time, finished: Time, reply: WorkerReply, history: seq<Attempt>)
    requires Accounted(db.expiry, history) && ScanLease(db, i, now, finished, reply).1.Attempted?
    ensures var (after, outcome) := ScanLease(db, i, now, finished, reply);
            Accounted(after.expiry, history + [outcome.attempt])
  {
    var (after, outcome) := ScanLease(db, i, now, finished, reply);
    var a := outcome.attempt;
    var before := AutomaticFor(history, i);
    assert AccountedFor(db.expiry, before, i);
    NextAttemptAccounted(db.expiry, before, i, a, reply);
    assert after.expiry == db.expiry[i := RecordedOperation(|before| + 1, reply, finished, a.succeeded)];
    forall j: Id ensures AccountedFor(after.expiry, AutomaticFor(history + [a], j), j) {
      AutomaticForAppend(history, a, j);
      assert AccountedFor(db.expiry, AutomaticFor(history, j), j);
    }
  }

  /** Attempts of the operator's recovery are not automatic ones. */
  lemma RecoveryAccounts(expiry: map<Id, Operation>, history: seq<Attempt>, a: Attempt)
    requires Accounted(expiry, history) && a.mode == OwnerRecovery
    ensures Accounted(expiry, history + [a])
  {
    forall j: Id ensures AccountedFor(expiry, AutomaticFor(history + [a], j), j) {
      AutomaticForAppend(history, a, j);
      assert AccountedFor(expiry, AutomaticFor(history, j), j);
    }
  }

  lemma ApplyAccounts(db: Database, t: Timed, history: seq<Attempt>)
    requires Accounted(db.expiry, history)
    ensures var a := AttemptOf(db, t);
            Accounted(Apply(db, t).expiry, if a.Some? then history + [a.value] else history)
  {
    var a := AttemptOf(db, t);
    if t.step.Scan? {
      if a.Some? {
        ScanAccounts(db, t.step.lease, t.now, t.finished, t.step.reply, history);
      }
    } else {
      OtherTablesOnlyByCleanup(db, t);
      if a.Some? {
        RecoveryAccounts(db.expiry, history, a.value);
      }
    }
  }

  lemma {:induction false} RunAccounts(db: Database, trace: seq<Timed>, history: seq<Attempt>)
    requires Accounted(db.expiry, history)
    ensures Accounted(Execute(db, trace).expiry, history + Attempts(db, trace))
    decreases |trace|
  {
    if |trace| == 0 {
      assert history + [] == history;
    } else {
      var a := AttemptOf(db, trace[0]);
      var next := if a.Some? then history + [a.value] else history;
      ApplyAccounts(db, trace[0], history);
      RunAccounts(Apply(db, trace[0]), trace[1..], next);
      assert history + Attempts(db, trace) == next + Attempts(Apply(db, trace[0]), trace[1..]);
    }
  }

  /** In every run a lease gets at most three automatic cleanup attempts, only failures are followed by another,
      the second starts at least 60 s and the third at least 300 s after the failure before it. */
  lemma AtMostThreeSpacedAttempts(managed: map<Owner, Managed>, trace: seq<Timed>, i: Id)
    ensures var attempts := AutomaticFor(Attempts(Empty(managed), trace), i);
            && |attempts| <= 3
            && (|attempts| >= 2 ==>
                  !attempts[0].succeeded && attempts[1].startedAt >= attempts[0].finishedAt + 60 * SECOND)
            && (|attempts| == 3 ==>
                  !attempts[1].succeeded && attempts[2].startedAt >= attempts[1].finishedAt + 300 * SECOND)
  {
    forall j: Id ensures AccountedFor(map[], AutomaticFor([], j), j) {}
    RunAccounts(Empty(managed), trace, []);
    assert [] + Attempts(Empty(managed), trace) == Attempts(Empty(managed), trace);
    var attempts := AutomaticFor(Attempts(Empty(managed), trace), i);
    assert AccountedFor(Execute(Empty(managed), trace).expiry, attempts, i);
    assert |attempts| >= 2 ==> WaitsAfter(attempts[0], attempts[1], RetryDelay(1));
    assert |attempts| >= 3 ==> WaitsAfter(attempts[1], attempts[2], RetryDelay(2));
  }

  // ----- Calls of the Worker -----

  /** The cleanup call that a transaction makes, whether its answer is recorded or lost. */
  function CallOf(db: Database, t: Timed): Option<Attempt> {
    match t.step
    case Scan(lease, reply) =>
      var o := ScanLease(db, lease, t.now, t.finished, reply).1;
      if o.Attempted? || o.Lost? then Some(o.attempt) else None
    case Recover(lease, reply) =>
      var r := RecoverLease(db, lease, t.now, t.finished, reply);
      if r.Ok? then Some(r.value.1)
      else if r.error == ReplyUndecodable then Some(Attempt(lease, OwnerRecovery, t.now, t.finished, false))
      else None
    case _ => None
  }

  function Calls(db: Database, trace: seq<Timed>): seq<Attempt>
    decreases |trace|
  {
    if |trace| == 0 then []
    else
      var c := CallOf(db, trace[0]);
      (if c.Some? then [c.value] else []) + Calls(Apply(db, trace[0]), trace[1..])
  }

  predicate HoldsUndecodable(t: Timed) {
    (t.step.Scan? || t.step.Recover?) && t.step.reply.Undecodable?
  }

  /** A call is recorded exactly when its answer can be decoded; otherwise the database is as before it. */
  lemma CallRecordedExactly(db: Database, t: Timed)
    requires CallOf(db, t).Some?
    ensures if HoldsUndecodable(t) then AttemptOf(db, t).None? && Apply(db, t) == db
            else AttemptOf(db, t) == CallOf(db, t)
  {
  }

  lemma NoCallNoAttempt(db: Database, t: Timed)
    requires CallOf(db, t).None?
    ensures AttemptOf(db, t).None?
  {
  }

  /** Some call of the run got an answer that cannot be decoded. */
  ghost predicate LosesCall(db: Database, trace: seq<Timed>)
    decreases |trace|
  {
    && |trace| > 0
    && ((CallOf(db, trace[0]).Some? && HoldsUndecodable(trace[0])) || LosesCall(Apply(db, trace[0]), trace[1..]))
  }

  lemma {:induction false} RecordedAreCalls(db: Database, trace: seq<Timed>)
    ensures |Attempts(db, trace)| <= |Calls(db, trace)|
    ensures |Attempts(db, trace)| == |Calls(db, trace)| <==> !LosesCall(db, trace)
    ensures !LosesCall(db, trace) ==> Attempts(db, trace) == Calls(db, trace)
    decreases |trace|
  {
    if |trace| > 0 {
      var t := trace[0];
      RecordedAreCalls(Apply(db, t), trace[1..]);
      if CallOf(db, t).Some? {
        CallRecordedExactly(db, t);
      } else {
        NoCallNoAttempt(db, t);
      }
    }
  }

  /** So the bounds hold of the calls themselves in every run that loses none, in particular in every run without an
      undecodable answer. */
  lemma AtMostThreeSpacedCalls(managed: map<Owner, Managed>, trace: seq<Timed>, i: Id)
    requires !LosesCall(Empty(managed), trace)
    ensures var calls := AutomaticFor(Calls(Empty(managed), trace), i);
            && |calls| <= 3
            && (|calls| >= 2 ==>
                  !calls[0].succeeded && calls[1].startedAt >= calls[0].finishedAt + 60 * SECOND)
            && (|calls| == 3 ==>
                  !calls[1].succeeded && calls[2].startedAt >= calls[1].finishedAt + 300 * SECOND)
  {
    RecordedAreCalls(Empty(managed), trace);
    AtMostThreeSpacedAttempts(managed, trace, i);
  }

  lemma {:induction false} DecodableLosesNothing(db: Database, trace: seq<Timed>)
    requires forall k :: 0 <= k < |trace| ==> !HoldsUndecodable(trace[k])
    ensures !LosesCall(db, trace)
    decreases |trace|
  {
    if |trace| > 0 {
      DecodableLosesNothing(Apply(db, trace[0]), trace[1..]);
    }
  }

  /** Where a call is lost the same scan makes it again, any number of times: nothing bounds or spaces the calls. */
  lemma {:induction false} LostCallRepeats(db: Database, t: Timed, n: nat)
    requires t.step.Scan? && CallOf(db, t).Some? && HoldsUndecodable(t)
    ensures Execute(db, seq(n, _ => t)) == db
    ensures Calls(db, seq(n, _ => t)) == seq(n, _ => CallOf(db, t).value)
    decreases n
  {
    if n > 0 {
      CallRecordedExactly(db, t);
      var all, rest := seq(n, _ => t), seq(n - 1, _ => t);
      assert all[1..] == rest;
      LostCallRepeats(db, t, n - 1);
    }
  }
}
