/** The terms of requests and grants: what is asked for is recorded, and what is granted is what was asked for. */
module LeaseTerms {
  import opened Options
  import opened LeaseModel
  import opened LeaseInvariant
  import opened LeaseRuns
  import opened LeaseHistory
  import opened LeaseLimits
  import opened LeaseViews

  // ----- Grants -----

  /** The successor created for a request lasts as long as was requested, from the end of the lease it renews. */
  ghost predicate Honours(leases: seq<Lease>, r: Renewal) {
    r.resultingLease.Some? ==>
      && r.lease < |leases| && r.resultingLease.value < |leases|
      && var l := leases[r.resultingLease.value];
         && l.durationSeconds == r.durationSeconds && l.owner == r.owner
         && l.startsAt == leases[r.lease].expiresAt && l.gpuCount == leases[r.lease].gpuCount
         && l.expiresAt == leases[r.lease].expiresAt + r.durationSeconds * 1_000_000
  }

  ghost predicate AllHonoured(db: Database) {
    forall a :: 0 <= a < |db.renewals| ==> Honours(db.leases, db.renewals[a])
  }

  lemma GrowthHonours(a: seq<Lease>, b: seq<Lease>, r: Renewal, now: Time)
    requires GrowsAfterLive(a, b, now) && Honours(a, r)
    ensures Honours(b, r)
  {
    if r.resultingLease.Some? {
      assert SameTerms(a[r.lease], b[..|a|][r.lease]);
      assert SameTerms(a[r.resultingLease.value], b[..|a|][r.resultingLease.value]);
    }
  }

  /** A decision changes exactly this: a live request is approved for a new lease of its own terms, or rejected, or a
      late one is cancelled and its lease expired. */
  lemma DecisionRecords(db: Database, q: Id, decision: Decision, now: Time)
    requires DecideRenewal(db, q, decision, now).Ok?
    ensures q < |db.renewals| && db.renewals[q].state == Pending && db.renewals[q].lease < |db.leases|
    ensures var r, after := db.renewals[q], DecideRenewal(db, q, decision, now).value.db;
            var lease, late := db.leases[r.lease], db.leases[r.lease].expiresAt <= now;
            && after.expiry == db.expiry && after.items == db.items && after.managed == db.managed
            && (late ==> && after.leases == db.leases[r.lease := after.leases[r.lease]]
                         && after.leases[r.lease] == (if lease.state in ACTIVE_LEASE_STATES then
                                                        lease.(state := Expired,
                                                               expiredAt := if lease.expiredAt.Some?
                                                                            then lease.expiredAt else Some(now))
                                                      else lease)
                         && after.renewals == db.renewals[q := r.(state := Cancelled, decidedAt := Some(now))])
            && (!late && decision == Reject ==>
                  && after.leases == db.leases[r.lease := lease.(state := RenewalWindow)]
                  && after.renewals == db.renewals[q := r.(state := Rejected, decidedAt := Some(now))])
            && (!late && decision != Reject ==>
                  && decision == Approve && |after.leases| == |db.leases| + 1
                  && after.leases[..|db.leases|] == db.leases[r.lease := lease.(state := RenewalWindow)]
                  && after.leases[|db.leases|].state == Approved && after.leases[|db.leases|].previous == Some(r.lease)
                  && after.leases[|db.leases|].approvedAt == Some(now)
                  && after.renewals == db.renewals[q := r.(state := Granted, decidedAt := Some(now),
                                                           resultingLease := Some(|db.leases|))]
                  && Honours(after.leases, after.renewals[q]))
  {
  }

  lemma DecisionHonours(db: Database, q: Id, decision: Decision, now: Time)
    requires DecideRenewal(db, q, decision, now).Ok? && AllHonoured(db)
    ensures AllHonoured(DecideRenewal(db, q, decision, now).value.db)
  {
    var after := DecideRenewal(db, q, decision, now).value.db;
    DecisionRecords(db, q, decision, now);
    DecideGrows(db, q, decision, now);
    forall a | 0 <= a < |after.renewals| ensures Honours(after.leases, after.renewals[a]) {
      assert Honours(db.leases, db.renewals[a]);
      if a != q {
        GrowthHonours(db.leases, after.leases, db.renewals[a], now);
      } else if after.renewals[q].state != Granted {
        GrowthHonours(db.leases, after.leases, after.renewals[q], now);
      }
    }
  }

  lemma RequestHonours(db: Database, owner: Owner, seconds: int, key: string, now: Time)
    requires Inv(db, now) && RequestRenewal(db, owner, seconds, key, now).Ok? && AllHonoured(db)
    ensures AllHonoured(RequestRenewal(db, owner, seconds, key, now).value.0)
  {
    var after := RequestRenewal(db, owner, seconds, key, now).value.0;
    RequestGrows(db, owner, seconds, key, now);
    RetouchedGrows(db.leases, after.leases, now);
    forall a | 0 <= a < |db.renewals| ensures Honours(after.leases, db.renewals[a]) {
      GrowthHonours(db.leases, after.leases, db.renewals[a], now);
    }
  }

  lemma SameRequestsHonour(db: Database, after: Database, now: Time)
    requires GrowsAfterLive(db.leases, after.leases, now) && AllHonoured(db)
    requires |after.renewals| == |db.renewals|
    requires forall a :: 0 <= a < |db.renewals| ==>
               Redecided(db.renewals[a], after.renewals[a])
               && after.renewals[a].resultingLease == db.renewals[a].resultingLease
    ensures AllHonoured(after)
  {
    forall a | 0 <= a < |after.renewals| ensures Honours(after.leases, after.renewals[a]) {
      GrowthHonours(db.leases, after.leases, db.renewals[a], now);
    }
  }

  lemma OwnersRequestHonours(db: Database, t: Timed)
    requires Inv(db, t.now) && AllHonoured(db) && (t.step.Request? || t.step.AutoRenew?)
    ensures AllHonoured(Apply(db, t))
  {
    match t.step
    case Request(owner, seconds, key) =>
      if RequestRenewal(db, owner, seconds, key, t.now).Ok? {
        RequestHonours(db, owner, seconds, key, t.now);
      }
    case AutoRenew(owner, seconds, key) =>
      var r := RequestRenewal(db, owner, seconds, key, t.now);
      if r.Ok? {
        RequestHonours(db, owner, seconds, key, t.now);
        if DecideRenewal(r.value.0, r.value.1, Approve, t.now).Ok? {
          DecisionHonours(r.value.0, r.value.1, Approve, t.now);
        }
      }
  }

  lemma RequestsUntouched(db: Database, t: Timed)
    requires t.step.Use? || t.step.Root? || t.step.Scan? || t.step.Recover?
    ensures Apply(db, t).renewals == db.renewals
  {
  }

  lemma ReconcileHonours(db: Database, now: Time, limit: nat)
    requires AllHonoured(db)
    ensures AllHonoured(ReconcileRequests(db, now, limit))
  {
    var after := ReconcileRequests(db, now, limit);
    forall a | 0 <= a < |after.renewals| ensures Honours(after.leases, after.renewals[a]) {
      CloseOverdueAt(db, db.renewals, now, limit, a);
      assert Honours(db.leases, db.renewals[a]);
    }
  }

  /** Every transaction keeps that grants honour their requests. */
  lemma ApplyKeepsHonoured(db: Database, t: Timed)
    requires Inv(db, t.now) && AllHonoured(db)
    ensures AllHonoured(Apply(db, t))
  {
    if t.step.Request? || t.step.AutoRenew? {
      OwnersRequestHonours(db, t);
    } else if t.step.Decide? {
      if DecideRenewal(db, t.step.request, t.step.decision, t.now).Ok? {
        DecisionHonours(db, t.step.request, t.step.decision, t.now);
      }
    } else if t.step.Reconcile? {
      ReconcileHonours(db, t.now, t.step.limit);
    } else {
      RequestsUntouched(db, t);
      ApplyGrows(db, t);
      SameRequestsHonour(db, Apply(db, t), t.now);
    }
  }

  lemma {:induction false} RunKeepsHonoured(db: Database, trace: seq<Timed>, from: Time)
    requires Sound(db, from) && Ordered(trace, from) && AllHonoured(db)
    ensures AllHonoured(Execute(db, trace))
    decreases |trace|
  {
    if |trace| > 0 {
      var t := trace[0];
      LaterKeepsInv(db, from, t.now);
      ApplyKeepsHonoured(db, t);
      ApplyKeepsInv(db, t);
      ApplyKeepsSettled(db, t);
      RunKeepsHonoured(Apply(db, t), trace[1..], t.finished);
    }
  }

  /** In every run each granted request got a lease of the duration it asked for, from the end of the one it renewed. */
  lemma GrantsAreHonoured(managed: map<Owner, Managed>, trace: seq<Timed>, from: Time, a: Id)
    requires Ordered(trace, from)
    ensures var db := Execute(Empty(managed), trace);
            a < |db.renewals| && db.renewals[a].state == Granted ==>
              && db.renewals[a].resultingLease.Some? && Honours(db.leases, db.renewals[a])
  {
    ReachableIsSound(managed, trace, from);
    RunKeepsHonoured(Empty(managed), trace, from);
    var db := Execute(Empty(managed), trace);
    assert a < |db.renewals| ==> GrantMatches(db.leases, db.renewals[a]);
  }

  // ----- Requests -----

  /** A request, once made, keeps its owner, lease, duration, key and time over every transaction. */
  lemma RequestsKeepTerms(db: Database, t: Timed, a: Id)
    requires a < |db.renewals|
    ensures a < |Apply(db, t).renewals| && Redecided(db.renewals[a], Apply(db, t).renewals[a])
  {
    if t.step.Reconcile? {
      CloseOverdueAt(db, db.renewals, t.now, t.step.limit, a);
    } else if t.step.AutoRenew? {
      AutoRenewKeepsTerms(db, t.step.owner, t.step.seconds, t.step.key, t.now, a);
    } else if t.step.Decide? {
      if DecideRenewal(db, t.step.request, t.step.decision, t.now).Ok? {
        DecisionRecords(db, t.step.request, t.step.decision, t.now);
      }
    } else if t.step.Request? {
      if RequestRenewal(db, t.step.owner, t.step.seconds, t.step.key, t.now).Ok? {
        RequestKeepsDecided(db, t.step.owner, t.step.seconds, t.step.key, t.now, a);
      }
    } else {
      RequestsUntouched(db, t);
    }
  }

  lemma AutoRenewKeepsTerms(db: Database, owner: Owner, seconds: int, key: string, now: Time, a: Id)
    requires a < |db.renewals|
    ensures var after := RenewAtOnce(db, owner, seconds, key, now);
            a < |after.renewals| && Redecided(db.renewals[a], after.renewals[a])
  {
    var r := RequestRenewal(db, owner, seconds, key, now);
    if r.Ok? {
      RequestKeepsDecided(db, owner, seconds, key, now, a);
      if DecideRenewal(r.value.0, r.value.1, Approve, now).Ok? {
        DecisionRecords(r.value.0, r.value.1, Approve, now);
      }
    }
  }

  /** A new request says what was asked for, and of whom: the owner's terminal lease; the active lease waits for the
      decision. Nothing else changes but what looking up the active lease activates. */
  lemma RequestRecords(db: Database, owner: Owner, seconds: int, key: string, now: Time)
    requires FindKey(db.renewals, owner, key, 0).None? && RequestRenewal(db, owner, seconds, key, now).Ok?
    ensures Entitlement(db, owner, now).Ok?
    ensures var (after, id) := RequestRenewal(db, owner, seconds, key, now).value;
            var Entitled(ensured, active, terminal) := Entitlement(db, owner, now).value;
            && id == |db.renewals| && |after.renewals| == id + 1 && after.renewals[..id] == db.renewals
            && after.renewals[id] == Renewal(owner, terminal, Pending, seconds, key, now, None, None)
            && after.leases == ensured.leases[active := ensured.leases[active].(state := RenewalPending)]
            && after.expiry == db.expiry && after.items == db.items && after.managed == db.managed
  {
  }

  ghost predicate IsRequestOf(db: Database, id: Id, owner: Owner, key: string, seconds: int) {
    && id < |db.renewals| && db.renewals[id].owner == owner && db.renewals[id].key == key
    && db.renewals[id].durationSeconds == seconds
  }

  lemma FoundRequest(db: Database, now: Time, id: Id, owner: Owner, key: string, seconds: int)
    requires Inv(db, now) && IsRequestOf(db, id, owner, key, seconds)
    ensures FindKey(db.renewals, owner, key, 0) == Some(id)
  {
    assert forall x :: 0 <= x < id && db.renewals[x].owner == owner ==> db.renewals[x].key != key;
  }

  lemma {:induction false} RequestStays(db: Database, trace: seq<Timed>, id: Id, owner: Owner, key: string,
                                        seconds: int)
    requires IsRequestOf(db, id, owner, key, seconds)
    ensures IsRequestOf(Execute(db, trace), id, owner, key, seconds)
    decreases |trace|
  {
    if |trace| > 0 {
      RequestsKeepTerms(db, trace[0], id);
      RequestStays(Apply(db, trace[0]), trace[1..], id, owner, key, seconds);
    }
  }

  lemma RequestIsFound(db: Database, owner: Owner, seconds: int, key: string, now: Time)
    requires RequestRenewal(db, owner, seconds, key, now).Ok?
    ensures var (after, id) := RequestRenewal(db, owner, seconds, key, now).value;
            IsRequestOf(after, id, owner, key, seconds)
  {
  }

  /** A request made again with its key, at any time later in any run, is the same request and changes nothing; with
      another duration it is a conflict. */
  lemma RequestIsIdempotent(db: Database, from: Time, owner: Owner, seconds: int, key: string, trace: seq<Timed>,
                            other: int, later: Time)
    requires Sound(db, from) && RequestRenewal(db, owner, seconds, key, from).Ok?
    requires Ordered(trace, from) && LegalDuration(other)
    ensures var (after, id) := RequestRenewal(db, owner, seconds, key, from).value;
            var end := Execute(after, trace);
            RequestRenewal(end, owner, other, key, later)
            == if other == seconds then Ok((end, id)) else Err(IdempotencyConflict)
  {
    var (after, id) := RequestRenewal(db, owner, seconds, key, from).value;
    var t := Timed(Request(owner, seconds, key), from, from);
    assert Apply(db, t) == after;
    ApplyKeepsInv(db, t);
    ApplyKeepsSettled(db, t);
    RequestIsFound(db, owner, seconds, key, from);
    RequestStays(after, trace, id, owner, key, seconds);
    RunKeepsSound(after, trace, from);
    FoundRequest(Execute(after, trace), End(trace, from), id, owner, key, seconds);
  }

  /** The first lease of an owner: as long as asked for, from now on, with the GPU asked for. */
  lemma RootRecords(db: Database, owner: Owner, seconds: int, gpuCount: int, now: Time)
    requires CreateRoot(db, owner, seconds, gpuCount, now).Ok?
    ensures var after := CreateRoot(db, owner, seconds, gpuCount, now).value;
            && after == db.(leases := after.leases) && |after.leases| == |db.leases| + 1
            && after.leases[..|db.leases|] == db.leases
            && var l := after.leases[|db.leases|];
               && l.owner == owner && l.gpuCount == gpuCount && l.durationSeconds == seconds && l.state == Active
               && l.startsAt == now && l.expiresAt == now + seconds * 1_000_000 && l.previous == None
               && l.approvedAt == Some(now) && l.expiredAt == None && l.recycledAt == None
  {
  }

  /** It succeeds exactly for an owner without a lease, a duration of one second to 96 hours, and no GPU or one. */
  lemma RootSucceedsExactly(db: Database, owner: Owner, seconds: int, gpuCount: int, now: Time)
    ensures CreateRoot(db, owner, seconds, gpuCount, now).Ok? <==>
            && (forall i :: 0 <= i < |db.leases| ==> db.leases[i].owner != owner)
            && 1 <= seconds <= 345600 && 0 <= gpuCount <= 1
  {
  }

  // ----- Closing overdue requests -----

  /** The overdue requests among the first `n`. */
  function OverdueBefore(db: Database, renewals: seq<Renewal>, now: Time, n: nat): nat
    requires n <= |renewals|
  {
    if n == 0 then 0
    else
      (if renewals[n - 1].state == Pending && renewals[n - 1].lease < |db.leases|
          && db.leases[renewals[n - 1].lease].expiresAt <= now then 1 else 0)
      + OverdueBefore(db, renewals, now, n - 1)
  }

  lemma {:induction false} OverdueAfterFirst(db: Database, renewals: seq<Renewal>, now: Time, n: nat)
    requires 0 < n <= |renewals|
    ensures OverdueBefore(db, renewals, now, n)
            == OverdueBefore(db, renewals, now, 1) + OverdueBefore(db, renewals[1..], now, n - 1)
  {
    if n > 1 {
      OverdueAfterFirst(db, renewals, now, n - 1);
    }
  }

  /** A request is cancelled exactly when it is pending on a lease that has run out and fewer than `limit` such requests
      come before it; every other request is as it was. */
  lemma {:induction false} ClosesFirstOverdue(db: Database, renewals: seq<Renewal>, now: Time, limit: nat, k: nat)
    requires k < |renewals|
    ensures var r := renewals[k];
            CloseOverdue(db, renewals, now, limit)[k]
            == if r.state == Pending && r.lease < |db.leases| && db.leases[r.lease].expiresAt <= now
                  && OverdueBefore(db, renewals, now, k) < limit
               then r.(state := Cancelled, decidedAt := Some(now)) else r
    decreases |renewals|
  {
    if limit > 0 && k > 0 {
      OverdueAfterFirst(db, renewals, now, k);
      ClosesFirstOverdue(db, renewals[1..], now, if Overdue(db, renewals[0], now) then limit - 1 else limit, k - 1);
    }
  }

  // ----- The view -----

  /** The seconds in the view are the whole seconds to the end of the entitlement, and renewal is offered in the last 24
      hours of it, unless a request is pending on the last lease. */
  lemma ViewTellsTime(db: Database, owner: Owner, now: Time)
    requires ViewLease(db, owner, now).View?
    ensures Entitlement(db, owner, now).Ok?
    ensures var view, e := ViewLease(db, owner, now), Entitlement(db, owner, now).value;
            var left := e.db.leases[e.terminal].expiresAt - now;
            && view.active == e.active && view.terminal == e.terminal
            && (if left < 0 then view.remaining == 0
                else view.remaining * 1_000_000 <= left < (view.remaining + 1) * 1_000_000)
            && (view.pending <==> exists a :: 0 <= a < |db.renewals| && db.renewals[a].owner == owner
                                              && db.renewals[a].lease == e.terminal && db.renewals[a].state == Pending)
            && (view.renewalAvailable <==> 1 <= view.remaining <= 86400 && !view.pending)
  {
  }
}
