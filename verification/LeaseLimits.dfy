/** Where the lease protocol stops short: approvals that shorten a chain, chains that nobody cleans up, and a view
    that offers a renewal which fails. Each comes with the exact condition. */
module LeaseLimits {
  import opened Options
  import opened LeaseModel
  import opened LeaseInvariant
  import opened LeaseRuns
  import opened LeaseHistory
  import opened LeaseViews
  import opened LeaseRenewals

  // ----- Deciding a request on a lease that has not started -----

  /** After any decision on a live request the owner's active lease is found as before, without activating anything:
      if activation was due, it was due for the very lease the decision has just moved on. */
  lemma DecisionKeepsActive(db: Database, q: Id, decision: Decision, now: Time)
    requires Inv(db, now) && Renewing(db, now) && q < |db.renewals|
    requires DecideRenewal(db, q, decision, now).Ok? && DecideRenewal(db, q, decision, now).value.Decided?
    requires Entitlement(db, db.renewals[q].owner, now).Ok?
    ensures var active := Entitlement(db, db.renewals[q].owner, now).value.active;
            var after := DecideRenewal(db, q, decision, now).value.db;
            && Chains(after.leases) && ApprovedLast(after.leases)
            && EnsureActive(after, db.renewals[q].owner, now) == Ok((after, active))
  {
    var owner, t := db.renewals[q].owner, db.renewals[q].lease;
    var active := Entitlement(db, owner, now).value.active;
    var after := DecideRenewal(db, q, decision, now).value.db;
    PendingNamesTerminal(db, q, now);
    EnsureActivates(db, owner, now);
    DecideKeepsInv(db, q, decision, now);
    DecideKeepsRenewing(db, q, decision, now);
    assert MovesOn(db.leases[active], EnsureActive(db, owner, now).value.0.leases[active], now) by {
      EnsureKeepsRenewing(db, owner, now);
    }
    assert after.leases[active].state in ACTIVE_LEASE_STATES by {
      if active != t {
        ActiveBeforeWaiting(db, owner, active, t, now);
      }
    }
    CoveringIsLatest(after.leases, active, now);
  }

  /** An active lease that an approved one follows was active already: it cannot itself have been waiting. */
  lemma ActiveBeforeWaiting(db: Database, owner: Owner, active: Id, t: Id, now: Time)
    requires Inv(db, now) && Renewing(db, now) && EnsureActive(db, owner, now).Ok?
    requires EnsureActive(db, owner, now).value.1 == active
    requires t < |db.leases| && db.leases[t].previous == Some(active)
    ensures db.leases[active].state in ACTIVE_LEASE_STATES
  {
    assert IsSuccessor(db.leases, active, t);
    SuccessorUnique(db.leases, active, t);
  }

  /** Approving a renewal lengthens the owner's entitlement exactly when the request's lease is the active one.
      Otherwise the chain stops where the renewed lease starts, and the entitlement becomes shorter. */
  lemma ApprovalExtendsExactlyOnActive(db: Database, q: Id, now: Time)
    requires Inv(db, now) && Renewing(db, now) && q < |db.renewals|
    requires DecideRenewal(db, q, Approve, now).Ok? && DecideRenewal(db, q, Approve, now).value.Decided?
    requires Entitlement(db, db.renewals[q].owner, now).Ok?
    ensures var before := Entitlement(db, db.renewals[q].owner, now).value;
            var after := DecideRenewal(db, q, Approve, now).value.db;
            && before.terminal == db.renewals[q].lease
            && Entitlement(after, db.renewals[q].owner, now).Ok?
            && var e := Entitlement(after, db.renewals[q].owner, now).value;
               && e.active == before.active
               && (before.active == before.terminal ==>
                     && e.terminal == |db.leases|
                     && after.leases[e.terminal].expiresAt > db.leases[before.terminal].expiresAt)
               && (before.active != before.terminal ==>
                     after.leases[e.terminal].expiresAt == db.leases[before.terminal].startsAt
                     < db.leases[before.terminal].expiresAt)
  {
    PendingNamesTerminal(db, q, now);
    DecisionKeepsActive(db, q, Approve, now);
    var t, active := db.renewals[q].lease, Entitlement(db, db.renewals[q].owner, now).value.active;
    var after := DecideRenewal(db, q, Approve, now).value.db;
    assert InWindow(db.leases, db.renewals[q], now);
    assert WellFormed(db.leases[t]) && WellFormed(after.leases[|db.leases|]);
    AtMostOneHop(after.leases, active);
    if active == t {
      assert IsSuccessor(after.leases, t, |db.leases|);
      SuccessorUnique(after.leases, t, |db.leases|);
    } else {
      assert IsSuccessor(after.leases, active, t);
      SuccessorUnique(after.leases, active, t);
    }
  }

  /** Rejecting leaves the owner's entitlement as it was exactly when the request's lease is the active one. Otherwise
      that lease loses its approval and the entitlement ends where it starts. */
  lemma RejectionKeepsExactlyOnActive(db: Database, q: Id, now: Time)
    requires Inv(db, now) && Renewing(db, now) && q < |db.renewals|
    requires DecideRenewal(db, q, Reject, now).Ok? && DecideRenewal(db, q, Reject, now).value.Decided?
    requires Entitlement(db, db.renewals[q].owner, now).Ok?
    ensures var before := Entitlement(db, db.renewals[q].owner, now).value;
            var after := DecideRenewal(db, q, Reject, now).value.db;
            && before.terminal == db.renewals[q].lease
            && Entitlement(after, db.renewals[q].owner, now).Ok?
            && var e := Entitlement(after, db.renewals[q].owner, now).value;
               && e.active == before.active
               && after.leases[e.terminal].expiresAt ==
                  (if before.active == before.terminal then db.leases[before.terminal].expiresAt
                   else db.leases[before.terminal].startsAt)
               && db.leases[before.terminal].startsAt < db.leases[before.terminal].expiresAt
  {
    PendingNamesTerminal(db, q, now);
    DecisionKeepsActive(db, q, Reject, now);
    var t, active := db.renewals[q].lease, Entitlement(db, db.renewals[q].owner, now).value.active;
    var after := DecideRenewal(db, q, Reject, now).value.db;
    assert InWindow(db.leases, db.renewals[q], now) && WellFormed(db.leases[t]);
    AtMostOneHop(after.leases, active);
    if active == t {
      assert EndsChain(db.leases, t, now);
      RetouchedSuccessor(db.leases, after.leases, t);
    } else {
      assert IsSuccessor(after.leases, active, t);
      SuccessorUnique(after.leases, active, t);
    }
  }

  // ----- Chains that nobody cleans up -----

  /** The worker takes up an expired lease exactly when nothing succeeds it or its approved successor is running. */
  lemma DueExactly(db: Database, i: Id, now: Time)
    requires Inv(db, now) && i < |db.leases| && db.leases[i].state in DUE_STATES && db.leases[i].expiresAt <= now
    ensures Due(db, i, now) <==>
            var s := SuccessorOf(db.leases, i);
            s.None? || (db.leases[s.value].state == Approved && db.leases[s.value].expiresAt > now)
  {
    assert RecycledTogether(db.leases, db.items, i, now);
    if SuccessorOf(db.leases, i).Some? {
      StartCheckImplied(db, i, now);
    }
  }

  /** The approved end of an owner's chain has run out without ever having been activated. */
  ghost predicate Stranded(db: Database, s: Id, now: Time) {
    && s < |db.leases|
    && db.leases[s].state == Approved && db.leases[s].previous.Some? && db.leases[s].expiresAt <= now
    && SuccessorOf(db.leases, s).None?
  }

  lemma StrandedOwnerLapsed(db: Database, s: Id, now: Time)
    requires Inv(db, now) && Stranded(db, s, now)
    ensures forall k :: 0 <= k < |db.leases| && db.leases[k].owner == db.leases[s].owner ==>
            db.leases[k].expiresAt <= now
    ensures EnsureActive(db, db.leases[s].owner, now) == Err(LeaseInactive)
  {
    NoActiveAfterChainEnd(db.leases, s, now);
    NoneCoversMeansInactive(db, db.leases[s].owner, now);
  }

  /** No scan and no recovery takes up any lease of a stranded chain. */
  lemma StrandedNotScanned(db: Database, s: Id, k: Id, t: Timed)
    requires Sound(db, t.now) && Stranded(db, s, t.now)
    requires k < |db.leases| && db.leases[k].owner == db.leases[s].owner
    ensures !Due(db, k, t.now)
    ensures RecoverLease(db, k, t.now, t.finished, if t.step.Recover? then t.step.reply else NoReply).Err?
  {
    StrandedOwnerLapsed(db, s, t.now);
    if k != s {
      if s < k {
        LaterMeansSuccessor(db.leases, s, k);
      } else {
        LaterMeansSuccessor(db.leases, k, s);
        SuccessorUnique(db.leases, k, SuccessorOf(db.leases, k).value);
      }
    }
  }

  /** The end of a stranded chain keeps its row and gains no successor. */
  lemma StrandedStays(db: Database, t: Timed, s: Id)
    requires Sound(db, t.now) && t.now <= t.finished && Stranded(db, s, t.now)
    ensures Stranded(Apply(db, t), s, t.finished) && Apply(db, t).leases[s] == db.leases[s]
  {
    ApplyFinishes(db, t, s);
    var after := Apply(db, t);
    ApplyKeepsInv(db, t);
    if SuccessorOf(after.leases, s).Some? {
      var j := SuccessorOf(after.leases, s).value;
      SuccessorUnique(after.leases, s, j);
      LapsedGainsNoSuccessor(db, t, s, j);
    }
  }

  /** At most one lease is added, and only a root or after a lease that has not run out. */
  ghost predicate GrowsAfterLive(a: seq<Lease>, b: seq<Lease>, now: Time) {
    && |a| <= |b| <= |a| + 1 && Retouched(a, b[..|a|])
    && (|b| > |a| && b[|a|].previous.Some? ==>
          b[|a|].previous.value < |a| && a[b[|a|].previous.value].expiresAt > now)
  }

  lemma RetouchedGrows(a: seq<Lease>, b: seq<Lease>, now: Time)
    requires Retouched(a, b)
    ensures GrowsAfterLive(a, b, now)
  {
    assert b[..|a|] == b;
  }

  lemma RequestGrows(db: Database, owner: Owner, seconds: int, key: string, now: Time)
    requires Inv(db, now) && RequestRenewal(db, owner, seconds, key, now).Ok?
    ensures Retouched(db.leases, RequestRenewal(db, owner, seconds, key, now).value.0.leases)
  {
    if FindKey(db.renewals, owner, key, 0).None? {
      EnsureActivates(db, owner, now);
    }
  }

  lemma DecideGrows(db: Database, q: Id, decision: Decision, now: Time)
    requires DecideRenewal(db, q, decision, now).Ok?
    ensures GrowsAfterLive(db.leases, DecideRenewal(db, q, decision, now).value.db.leases, now)
  {
    var after := DecideRenewal(db, q, decision, now).value.db.leases;
    assert Retouched(db.leases, after[..|db.leases|]);
  }

  lemma AutoRenewGrows(db: Database, owner: Owner, seconds: int, key: string, now: Time)
    requires Inv(db, now)
    ensures GrowsAfterLive(db.leases, RenewAtOnce(db, owner, seconds, key, now).leases, now)
  {
    RetouchedGrows(db.leases, db.leases, now);
    var r := RequestRenewal(db, owner, seconds, key, now);
    if r.Ok? {
      RequestGrows(db, owner, seconds, key, now);
      var (after, request) := r.value;
      RetouchedGrows(db.leases, after.leases, now);
      if request < |after.renewals| && DecideRenewal(after, request, Approve, now).Ok? {
        DecideGrows(after, request, Approve, now);
        RetouchedThenGrows(db.leases, after.leases, DecideRenewal(after, request, Approve, now).value.db.leases, now);
      }
    }
  }

  lemma RetouchedThenGrows(a: seq<Lease>, b: seq<Lease>, c: seq<Lease>, now: Time)
    requires Retouched(a, b) && GrowsAfterLive(b, c, now)
    ensures GrowsAfterLive(a, c, now)
  {
    forall i | 0 <= i < |a| ensures SameTerms(a[i], c[..|a|][i]) {
      assert SameTerms(a[i], b[i]) && SameTerms(b[i], c[..|b|][i]);
    }
  }

  lemma CleanupGrows(db: Database, t: Timed)
    requires t.step.Scan? || t.step.Recover?
    ensures GrowsAfterLive(db.leases, Apply(db, t).leases, t.now)
  {
    RetouchedGrows(db.leases, Apply(db, t).leases, t.now);
  }

  lemma ApplyGrows(db: Database, t: Timed)
    requires Inv(db, t.now)
    ensures GrowsAfterLive(db.leases, Apply(db, t).leases, t.now)
  {
    RetouchedGrows(db.leases, db.leases, t.now);
    match t.step
    case Use(owner) =>
      if EnsureActive(db, owner, t.now).Ok? {
        EnsureActivates(db, owner, t.now);
        RetouchedGrows(db.leases, Apply(db, t).leases, t.now);
      }
    case Request(owner, seconds, key) =>
      if RequestRenewal(db, owner, seconds, key, t.now).Ok? {
        RequestGrows(db, owner, seconds, key, t.now);
        RetouchedGrows(db.leases, Apply(db, t).leases, t.now);
      }
    case AutoRenew(owner, seconds, key) => AutoRenewGrows(db, owner, seconds, key, t.now);
    case Decide(request, decision) =>
      if DecideRenewal(db, request, decision, t.now).Ok? {
        DecideGrows(db, request, decision, t.now);
      }
    case Scan(lease, reply) => CleanupGrows(db, t);
    case Recover(lease, reply) => CleanupGrows(db, t);
    case Root(owner, seconds, gpuCount) => RootGrows(db, owner, seconds, gpuCount, t.now);
    case Reconcile(limit) =>
  }

  lemma RootGrows(db: Database, owner: Owner, seconds: int, gpuCount: int, now: Time)
    ensures CreateRoot(db, owner, seconds, gpuCount, now).Ok? ==>
              GrowsAfterLive(db.leases, CreateRoot(db, owner, seconds, gpuCount, now).value.leases, now)
  {
    if CreateRoot(db, owner, seconds, gpuCount, now).Ok? {
      assert CreateRoot(db, owner, seconds, gpuCount, now).value.leases[..|db.leases|] == db.leases;
    }
  }

  lemma GrowthSparesLapsed(a: seq<Lease>, b: seq<Lease>, now: Time, s: Id, j: Id)
    requires GrowsAfterLive(a, b, now) && s < |a| && a[s].expiresAt <= now && SuccessorOf(a, s).None?
    ensures !IsSuccessor(b, s, j)
  {
    if j < |a| {
      assert SameTerms(a[j], b[..|a|][j]);
    }
  }

  /** A lease that has run out gains no successor. */
  lemma LapsedGainsNoSuccessor(db: Database, t: Timed, s: Id, j: Id)
    requires Inv(db, t.now) && s < |db.leases| && db.leases[s].expiresAt <= t.now
    requires SuccessorOf(db.leases, s).None?
    ensures !IsSuccessor(Apply(db, t).leases, s, j)
  {
    ApplyGrows(db, t);
    GrowthSparesLapsed(db.leases, Apply(db, t).leases, t.now, s, j);
  }

  /** A scan touches an owner's identity only where a lease of the owner is due. */
  lemma ScanSparesOwner(db: Database, k: Id, now: Time, finished: Time, reply: WorkerReply, owner: Owner)
    requires k < |db.leases| && db.leases[k].owner == owner ==> !Due(db, k, now)
    requires owner in db.managed
    ensures var after := ScanLease(db, k, now, finished, reply).0;
            owner in after.managed && after.managed[owner] == db.managed[owner]
  {
  }

  lemma RecoverSparesOwner(db: Database, k: Id, now: Time, finished: Time, reply: WorkerReply, owner: Owner)
    requires RecoverLease(db, k, now, finished, reply).Ok? && db.leases[k].owner != owner && owner in db.managed
    ensures var after := RecoverLease(db, k, now, finished, reply).value.0;
            owner in after.managed && after.managed[owner] == db.managed[owner]
  {
  }

  /** While a chain is stranded no transaction touches its owner's identity, container or keys. */
  lemma StrandedUntouched(db: Database, t: Timed, s: Id)
    requires Sound(db, t.now) && Stranded(db, s, t.now) && db.leases[s].owner in db.managed
    ensures db.leases[s].owner in Apply(db, t).managed
    ensures Apply(db, t).managed[db.leases[s].owner] == db.managed[db.leases[s].owner]
  {
    var owner := db.leases[s].owner;
    if t.step.Scan? || t.step.Recover? {
      var k := t.step.lease;
      if k < |db.leases| && db.leases[k].owner == owner {
        StrandedNotScanned(db, s, k, t);
      }
      if t.step.Scan? {
        ScanSparesOwner(db, k, t.now, t.finished, t.step.reply, owner);
      } else if RecoverLease(db, k, t.now, t.finished, t.step.reply).Ok? {
        RecoverSparesOwner(db, k, t.now, t.finished, t.step.reply, owner);
      }
    } else {
      OtherTablesOnlyByCleanup(db, t);
    }
  }

  lemma StrandedUnattempted(db: Database, t: Timed, s: Id)
    requires Sound(db, t.now) && Stranded(db, s, t.now) && AttemptOf(db, t).Some?
    ensures AttemptOf(db, t).value.lease < |db.leases|
    ensures db.leases[AttemptOf(db, t).value.lease].owner != db.leases[s].owner
  {
    var k := AttemptOf(db, t).value.lease;
    if k < |db.leases| && db.leases[k].owner == db.leases[s].owner {
      StrandedNotScanned(db, s, k, t);
    }
  }

  /** None of the attempts is on a lease of the owner. */
  ghost predicate Spares(attempts: seq<Attempt>, leases: seq<Lease>, owner: Owner) {
    forall x :: 0 <= x < |attempts| ==>
      attempts[x].lease >= |leases| || leases[attempts[x].lease].owner != owner
  }

  /** So a chain whose approved end runs out unscanned is never cleaned up: over any later run no lease of its owner is
      ever attempted, none is due at the end, and the owner's environment, container and keys are as they were. */
  lemma {:induction false} StrandedForever(db: Database, trace: seq<Timed>, from: Time, s: Id)
    requires Sound(db, from) && Ordered(trace, from) && Stranded(db, s, from) && db.leases[s].owner in db.managed
    ensures var after, owner := Execute(db, trace), db.leases[s].owner;
            && Stranded(after, s, End(trace, from)) && after.leases[s] == db.leases[s]
            && owner in after.managed && after.managed[owner] == db.managed[owner]
            && Spares(Attempts(db, trace), db.leases, owner)
            && forall k: Id :: k < |after.leases| && after.leases[k].owner == owner ==> !Due(after, k, End(trace, from))
    decreases |trace|
  {
    if |trace| == 0 {
      forall k: Id | k < |db.leases| && db.leases[k].owner == db.leases[s].owner ensures !Due(db, k, from) {
        StrandedNotScanned(db, s, k, Timed(Reconcile(0), from, from));
      }
    } else {
      var t := trace[0];
      LaterKeepsInv(db, from, t.now);
      StrandedStays(db, t, s);
      StrandedUntouched(db, t, s);
      ApplyKeepsInv(db, t);
      ApplyKeepsSettled(db, t);
      StrandedForever(Apply(db, t), trace[1..], t.finished, s);
      SparesFirst(db, trace, s);
    }
  }

  lemma SparesFirst(db: Database, trace: seq<Timed>, s: Id)
    requires |trace| > 0 && Sound(db, trace[0].now) && Stranded(db, s, trace[0].now)
    requires Spares(Attempts(Apply(db, trace[0]), trace[1..]), Apply(db, trace[0]).leases, db.leases[s].owner)
    ensures Spares(Attempts(db, trace), db.leases, db.leases[s].owner)
  {
    var t := trace[0];
    var rest := Attempts(Apply(db, t), trace[1..]);
    ApplyGrows(db, t);
    forall x | 0 <= x < |rest|
      ensures rest[x].lease >= |db.leases| || db.leases[rest[x].lease].owner != db.leases[s].owner
    {
      var k := rest[x].lease;
      assert k < |db.leases| ==> SameTerms(db.leases[k], Apply(db, t).leases[..|db.leases|][k]);
    }
    if AttemptOf(db, t).Some? {
      StrandedUnattempted(db, t, s);
      assert Attempts(db, trace) == [AttemptOf(db, t).value] + rest;
    } else {
      assert Attempts(db, trace) == [] + rest;
    }
  }

  // ----- Recovery without its route -----

  /** The recovery function by itself keeps the invariants exactly when the lease has no successor or the cleanup fails:
      what it lacks is the route's look for a successor. */
  lemma RetryKeepsInvExactly(db: Database, i: Id, now: Time, finished: Time, reply: WorkerReply)
    requires Inv(db, now) && now <= finished && RetryFailedRecycle(db, i, now, finished, reply).Ok?
    ensures Inv(RetryFailedRecycle(db, i, now, finished, reply).value.0, finished) <==>
            SuccessorOf(db.leases, i).None? || !CleanupSucceeded(reply, db.managed[db.leases[i].owner].keys)
  {
    var after := RetryFailedRecycle(db, i, now, finished, reply).value.0;
    assert RecycledTogether(db.leases, db.items, i, now);
    if SuccessorOf(db.leases, i).None? {
      CleanupKeepsInv(db, i, reply, now, finished);
    } else if !CleanupSucceeded(reply, db.managed[db.leases[i].owner].keys) {
      LaterKeepsInv(db, now, finished);
      FailedCleanupKeepsInv(db, i, now, finished);
      OtherTablesKeepInv(db.(leases := after.leases), after, finished);
    } else {
      RetouchedSuccessor(db.leases, after.leases, i);
      assert !RecycledTogether(after.leases, after.items, i, finished);
    }
  }

  ghost predicate Covered(leases: seq<Lease>, owner: Owner, now: Time) {
    exists k :: 0 <= k < |leases| && leases[k].owner == owner && Covers(leases[k], now)
  }

  /** A lease of the owner covers the present, but the environment is closed. */
  ghost predicate ShutOut(db: Database, owner: Owner, now: Time) {
    Covered(db.leases, owner, now) && owner in db.managed && db.managed[owner].environment != EnvironmentActive
  }

  /** Whatever the Worker answers, a retry shuts an owner out of a lease that covers the present exactly when there is
      one; and then the route would have refused it. */
  lemma RetryShutsOutExactly(db: Database, i: Id, now: Time, finished: Time, reply: WorkerReply)
    requires Inv(db, now) && RetryFailedRecycle(db, i, now, finished, reply).Ok?
    ensures var after, owner := RetryFailedRecycle(db, i, now, finished, reply).value.0, db.leases[i].owner;
            && (ShutOut(after, owner, now) <==> Covered(db.leases, owner, now))
            && !SelfContextAllowed(after, owner, now)
    ensures Covered(db.leases, db.leases[i].owner, now) ==>
              RecoverLease(db, i, now, finished, reply) == Err(RecoverySuperseded)
  {
    RetrySameTerms(db, i, now, finished, reply);
    var after, owner := RetryFailedRecycle(db, i, now, finished, reply).value.0, db.leases[i].owner;
    RetouchedCovered(db.leases, after.leases, owner, now);
    if Covered(db.leases, owner, now) {
      var k :| 0 <= k < |db.leases| && db.leases[k].owner == owner && Covers(db.leases[k], now);
      if k < i {
        PeriodsFollow(db.leases, k, i);
      } else {
        LaterMeansSuccessor(db.leases, i, k);
      }
    }
  }

  lemma RetrySameTerms(db: Database, i: Id, now: Time, finished: Time, reply: WorkerReply)
    requires RetryFailedRecycle(db, i, now, finished, reply).Ok?
    ensures Retouched(db.leases, RetryFailedRecycle(db, i, now, finished, reply).value.0.leases)
  {
  }

  lemma RetouchedCovered(a: seq<Lease>, b: seq<Lease>, owner: Owner, now: Time)
    requires Retouched(a, b)
    ensures Covered(a, owner, now) <==> Covered(b, owner, now)
  {
    if Covered(a, owner, now) {
      var k :| 0 <= k < |a| && a[k].owner == owner && Covers(a[k], now);
      assert SameTerms(a[k], b[k]);
    }
    if Covered(b, owner, now) {
      var k :| 0 <= k < |b| && b[k].owner == owner && Covers(b[k], now);
      assert SameTerms(a[k], b[k]);
    }
  }
}
