/** What owners and operators may rely on: chains end, lazy and eager activation agree, cleanup fails closed,
    and the view of a lease tells when it can be renewed. */
module LeaseViews {
  import opened Options
  import opened LeaseModel
  import opened LeaseInvariant
  import opened LeaseRuns
  import opened LeaseHistory

  // ----- Chains end -----

  /** Following approved successors always ends: starts strictly increase, so the cycle and gap checks never fire. */
  lemma {:induction false} ChainNeverInvalid(leases: seq<Lease>, current: Id, seen: set<Id>)
    requires Chains(leases) && current < |leases| && forall i :: i in seen ==> i <= current
    ensures TerminalFrom(leases, current, seen).Ok?
    ensures var end := TerminalFrom(leases, current, seen).value;
            && current <= end < |leases| && leases[end].owner == leases[current].owner
            && (current != end ==> leases[current].startsAt < leases[end].startsAt && leases[end].state == Approved)
            && (SuccessorOf(leases, end).Some? ==> leases[SuccessorOf(leases, end).value].state != Approved)
    decreases |leases| - current
  {
    var s := SuccessorOf(leases, current);
    if s.Some? && leases[s.value].state == Approved {
      SuccessorUnique(leases, current, s.value);
      PeriodsFollow(leases, current, s.value);
      ChainNeverInvalid(leases, s.value, seen + {s.value});
    }
  }

  /** Every lease ends after it starts, so the fallback query of `ensure_active_lease` finds nothing new. */
  lemma FallbackFindsNothing(leases: seq<Lease>, owner: Owner, now: Time)
    requires Chains(leases) && LatestStarted(leases, owner, now, |leases|).None?
    ensures LatestLapsed(leases, owner, now, |leases|).None?
  {
    forall i | 0 <= i < |leases| ensures !LapsedAndActive(leases[i], owner, now) {
      assert WellFormed(leases[i]) && !StartedAndActive(leases[i], owner, now);
    }
  }

  /** The lease that covers now, if it is in an active state, is the one selected. */
  lemma CoveringIsLatest(leases: seq<Lease>, i: Id, now: Time)
    requires Chains(leases) && i < |leases| && leases[i].state in ACTIVE_LEASE_STATES && Covers(leases[i], now)
    ensures LatestStarted(leases, leases[i].owner, now, |leases|) == Some(i)
  {
    var r := LatestStarted(leases, leases[i].owner, now, |leases|);
    assert StartedAndActive(leases[i], leases[i].owner, now);
    if r.value < i {
      PeriodsFollow(leases, r.value, i);
    } else if i < r.value {
      PeriodsFollow(leases, i, r.value);
    }
  }

  // ----- Lazy and eager activation -----

  /** The start check that `_activate_successor` leaves out is implied by the chain. */
  lemma StartCheckImplied(db: Database, i: Id, now: Time)
    requires Inv(db, now) && i < |db.leases| && db.leases[i].expiresAt <= now && SuccessorOf(db.leases, i).Some?
    ensures var s := SuccessorOf(db.leases, i).value;
            Activatable(db.leases, i, now) <==> db.leases[s].state == Approved && db.leases[s].expiresAt > now
  {
    SuccessorUnique(db.leases, i, SuccessorOf(db.leases, i).value);
  }

  /** For the selected lease, run out and with a live approved successor, the owner's next request and the expiry
      worker lead to the same database; whichever comes second changes nothing. */
  lemma LazyEqualsEager(db: Database, owner: Owner, now: Time, finished: Time, reply: WorkerReply, i: Id)
    requires Inv(db, now) && owner in db.managed
    requires LatestStarted(db.leases, owner, now, |db.leases|) == Some(i)
    requires db.leases[i].expiresAt <= now && Activatable(db.leases, i, now)
    ensures EnsureActive(db, owner, now).Ok?
    ensures var (after, active) := EnsureActive(db, owner, now).value;
            && ScanLease(db, i, now, finished, reply) == (after, Activated)
            && EnsureActive(after, owner, now) == Ok((after, active))
            && ScanLease(after, i, now, finished, reply) == (after, NotDue)
  {
    var s := SuccessorOf(db.leases, i).value;
    SuccessorUnique(db.leases, i, s);
    assert RecycledTogether(db.leases, db.items, i, now);
    EnsureActivates(db, owner, now);
    var after := EnsureActive(db, owner, now).value.0;
    assert WellFormed(db.leases[s]);
    assert after.leases == Activate(db.leases, i, s, now);
    CoveringIsLatest(after.leases, s, now);
    RetouchedSuccessor(db.leases, after.leases, i);
  }

  // ----- Cleanup fails closed -----

  /** Once the last lease of a chain has run out, its owner has no active lease at any later time. */
  lemma NoActiveAfterChainEnd(leases: seq<Lease>, i: Id, later: Time)
    requires Chains(leases) && i < |leases| && SuccessorOf(leases, i).None? && leases[i].expiresAt <= later
    ensures forall k :: 0 <= k < |leases| && leases[k].owner == leases[i].owner ==> leases[k].expiresAt <= later
  {
    forall k | 0 <= k < |leases| && leases[k].owner == leases[i].owner ensures leases[k].expiresAt <= later {
      if k < i {
        PeriodsFollow(leases, k, i);
      } else if i < k {
        LaterMeansSuccessor(leases, i, k);
      }
    }
  }

  lemma NoneCoversMeansInactive(db: Database, owner: Owner, now: Time)
    requires Chains(db.leases)
    requires forall k :: 0 <= k < |db.leases| && db.leases[k].owner == owner ==> db.leases[k].expiresAt <= now
    ensures EnsureActive(db, owner, now) == Err(LeaseInactive)
  {
    var expired := Selected(db.leases, owner, now);
    if expired.Some? && Activatable(db.leases, expired.value, now) {
      SuccessorUnique(db.leases, expired.value, SuccessorOf(db.leases, expired.value).value);
    }
  }

  /** The state right after any cleanup attempt, successful or not. */
  ghost predicate Closed(db: Database, a: Attempt) {
    && a.lease < |db.leases|
    && db.leases[a.lease].owner in db.managed
    && var l := db.leases[a.lease];
       var m := db.managed[l.owner];
       && l.state == (if a.succeeded then RecycleBin else Expired)
       && m.environment == (if a.succeeded then EnvironmentRecycled else EnvironmentSuspended)
       && m.container.Some? && m.container.value.desired == PowerStopped
       && (a.succeeded ==> m.container.value == Container(PowerStopped, PowerStopped, None, None))
  }

  lemma CleanupCloses(db: Database, i: Id, reply: WorkerReply, now: Time, finished: Time, mode: Mode)
    requires Cleanable(db, i)
    ensures Closed(Cleanup(db, i, reply, now, finished),
                   Attempt(i, mode, now, finished, CleanupSucceeded(reply, db.managed[db.leases[i].owner].keys)))
  {
  }

  lemma AttemptCloses(db: Database, t: Timed)
    requires AttemptOf(db, t).Some?
    ensures Closed(Apply(db, t), AttemptOf(db, t).value)
  {
    var a := AttemptOf(db, t).value;
    CleanupCloses(db, a.lease, t.step.reply, t.now, t.finished, a.mode);
  }

  /** After every cleanup attempt the resource is closed: no lease, environment or container state admits the owner,
      at that moment or later, until a restore that is not part of this protocol. */
  lemma AttemptFailsClosed(db: Database, t: Timed, later: Time)
    requires Sound(db, t.now) && t.now <= t.finished <= later && AttemptOf(db, t).Some?
    ensures var after := Apply(db, t);
            var a := AttemptOf(db, t).value;
            && Closed(after, a)
            && EnsureActive(after, after.leases[a.lease].owner, later) == Err(LeaseInactive)
            && !SelfContextAllowed(after, after.leases[a.lease].owner, later)
  {
    var after := Apply(db, t);
    var a := AttemptOf(db, t).value;
    AttemptCloses(db, t);
    ApplyKeepsInv(db, t);
    AttemptOnlyAtChainEnd(db, t);
    ApplyFinishes(db, t, a.lease);
    NoActiveAfterChainEnd(after.leases, a.lease, later);
    NoneCoversMeansInactive(after, after.leases[a.lease].owner, later);
  }

  /** Cleanup is attempted only on an expired lease that nothing succeeds. */
  lemma AttemptOnlyAtChainEnd(db: Database, t: Timed)
    requires Sound(db, t.now) && t.now <= t.finished && AttemptOf(db, t).Some?
    ensures var i := AttemptOf(db, t).value.lease;
            && i < |db.leases| && db.leases[i].expiresAt <= t.now && db.leases[i].recycledAt.None?
            && SuccessorOf(db.leases, i).None? && SuccessorOf(Apply(db, t).leases, i).None?
  {
    var i := AttemptOf(db, t).value.lease;
    AttemptFindsLapsed(db, t);
    if SuccessorOf(db.leases, i).Some? {
      StartCheckImplied(db, i, t.now);
    }
    AttemptRetouches(db, t);
    RetouchedSuccessor(db.leases, Apply(db, t).leases, i);
  }

  lemma AttemptFindsLapsed(db: Database, t: Timed)
    requires Sound(db, t.now) && AttemptOf(db, t).Some?
    ensures var i := AttemptOf(db, t).value.lease;
            && i < |db.leases| && db.leases[i].expiresAt <= t.now && db.leases[i].recycledAt.None?
            && (SuccessorOf(db.leases, i).Some? ==>
                  t.step.Scan? && Due(db, i, t.now)
                  && !(db.leases[SuccessorOf(db.leases, i).value].state == Approved
                       && db.leases[SuccessorOf(db.leases, i).value].expiresAt > t.now))
  {
  }

  lemma AttemptRetouches(db: Database, t: Timed)
    requires AttemptOf(db, t).Some?
    ensures Retouched(db.leases, Apply(db, t).leases)
  {
  }

  /** Lease, environment and container are closed. */
  ghost predicate Shut(db: Database, i: Id) {
    && i < |db.leases| && db.leases[i].owner in db.managed
    && db.leases[i].state in {Expired, RecycleBin}
    && var m := db.managed[db.leases[i].owner];
       m.environment != EnvironmentActive && m.container.Some? && m.container.value.desired == PowerStopped
  }

  /** A cleanup call closes lease, environment and container exactly when its answer can be decoded, unless an earlier
      one has closed them. The owner is refused from then on in either case, since the lease has run out. */
  lemma CallFailsClosedExactly(db: Database, t: Timed, later: Time)
    requires Sound(db, t.now) && t.now <= t.finished <= later && CallOf(db, t).Some?
    ensures var after, i := Apply(db, t), CallOf(db, t).value.lease;
            && i < |after.leases|
            && (Shut(after, i) <==> !HoldsUndecodable(t) || Shut(db, i))
            && EnsureActive(after, after.leases[i].owner, later) == Err(LeaseInactive)
            && !SelfContextAllowed(after, after.leases[i].owner, later)
  {
    CallRecordedExactly(db, t);
    var i := CallOf(db, t).value.lease;
    if HoldsUndecodable(t) {
      if t.step.Scan? && SuccessorOf(db.leases, i).Some? {
        StartCheckImplied(db, i, t.now);
      }
      NoActiveAfterChainEnd(db.leases, i, later);
      NoneCoversMeansInactive(db, db.leases[i].owner, later);
    } else {
      AttemptFailsClosed(db, t, later);
    }
  }

  lemma ApplyKeepsClosed(db: Database, t: Timed, owner: Owner)
    requires owner in db.managed && db.managed[owner].environment != EnvironmentActive
    ensures owner in Apply(db, t).managed && Apply(db, t).managed[owner].environment != EnvironmentActive
  {
    if !t.step.Scan? && !t.step.Recover? {
      OtherTablesOnlyByCleanup(db, t);
    }
  }

  /** Nothing in the protocol opens a suspended or recycled environment again. */
  lemma {:induction false} ClosedForever(db: Database, trace: seq<Timed>, owner: Owner)
    requires owner in db.managed && db.managed[owner].environment != EnvironmentActive
    ensures owner in Execute(db, trace).managed && Execute(db, trace).managed[owner].environment != EnvironmentActive
    decreases |trace|
  {
    if |trace| > 0 {
      ApplyKeepsClosed(db, trace[0], owner);
      ClosedForever(Apply(db, trace[0]), trace[1..], owner);
    }
  }

  // ----- Renewal -----

  /** A decided request stays as it was decided. */
  lemma DecidedOnce(db: Database, t: Timed, a: Id)
    requires a < |db.renewals| && db.renewals[a].state != Pending
    ensures a < |Apply(db, t).renewals| && Apply(db, t).renewals[a] == db.renewals[a]
  {
    match t.step
    case AutoRenew(owner, seconds, key) => RenewAtOnceKeepsDecided(db, owner, seconds, key, t.now, a);
    case Reconcile(limit) => CloseOverdueAt(db, db.renewals, t.now, limit, a);
    case Decide(request, decision) =>
    case Request(owner, seconds, key) =>
    case Use(owner) =>
    case Root(owner, seconds, gpuCount) =>
    case Scan(lease, reply) =>
    case Recover(lease, reply) =>
  }

  lemma RequestKeepsDecided(db: Database, owner: Owner, seconds: int, key: string, now: Time, a: Id)
    requires a < |db.renewals| && RequestRenewal(db, owner, seconds, key, now).Ok?
    ensures var renewals := RequestRenewal(db, owner, seconds, key, now).value.0.renewals;
            a < |renewals| && renewals[a] == db.renewals[a]
  {
  }

  lemma DecideKeepsDecided(db: Database, q: Id, decision: Decision, now: Time, a: Id)
    requires a < |db.renewals| && db.renewals[a].state != Pending && DecideRenewal(db, q, decision, now).Ok?
    ensures var renewals := DecideRenewal(db, q, decision, now).value.db.renewals;
            a < |renewals| && renewals[a] == db.renewals[a]
  {
  }

  lemma RenewAtOnceKeepsDecided(db: Database, owner: Owner, seconds: int, key: string, now: Time, a: Id)
    requires a < |db.renewals| && db.renewals[a].state != Pending
    ensures var after := RenewAtOnce(db, owner, seconds, key, now);
            a < |after.renewals| && after.renewals[a] == db.renewals[a]
  {
    var r := RequestRenewal(db, owner, seconds, key, now);
    if r.Ok? {
      RequestKeepsDecided(db, owner, seconds, key, now, a);
      var (after, request) := r.value;
      if DecideRenewal(after, request, Approve, now).Ok? {
        DecideKeepsDecided(after, request, Approve, now, a);
      }
    }
  }

  /** A renewal succeeds exactly when the view offers it and the owner has no request pending anywhere. */
  lemma RenewalSucceedsExactly(db: Database, owner: Owner, seconds: int, key: string, now: Time)
    requires LegalDuration(seconds) && FindKey(db.renewals, owner, key, 0).None?
    ensures var view := ViewLease(db, owner, now);
            RequestRenewal(db, owner, seconds, key, now).Ok? <==>
            view.View? && view.renewalAvailable && !HasPending(db.renewals, owner)
  {
    var e := Entitlement(db, owner, now);
    if e.Ok? && HasPendingFor(db.renewals, owner, e.value.terminal) {
      assert HasPending(db.renewals, owner);
    }
  }
}
