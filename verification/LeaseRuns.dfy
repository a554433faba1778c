/** Runs of the lease protocol: any order of requests, decisions, activations, scans and recoveries, under a
    nondecreasing clock and with any answers from the Root Worker. */
module LeaseRuns {
  import opened Options
  import opened LeaseModel
  import opened LeaseInvariant

  datatype Step =
    | Root(owner: Owner, seconds: int, gpuCount: int)
    | Use(owner: Owner)
    | Request(owner: Owner, seconds: int, key: string)
    | AutoRenew(owner: Owner, seconds: int, key: string)
    | Decide(request: Id, decision: Decision)
    | Reconcile(limit: nat)
    | Scan(lease: Id, reply: WorkerReply)
    | Recover(lease: Id, reply: WorkerReply)

  /** `finished` is when the transaction records its result; only a cleanup can take a while. */
  datatype Timed = Timed(step: Step, now: Time, finished: Time)

  /** A renewal that needs no approval: request and decision in one transaction. */
  function RenewAtOnce(db: Database, owner: Owner, seconds: int, key: string, now: Time): Database {
    match RequestRenewal(db, owner, seconds, key, now)
    case Err(_) => db
    case Ok(requested) =>
      var (after, request) := requested;
      if request < |after.renewals| && after.renewals[request].state == Pending then
        match DecideRenewal(after, request, Approve, now)
        case Err(_) => db
        case Ok(decided) => decided.db
      else after
  }

  /** One transaction, committed or rolled back. */
  function Apply(db: Database, t: Timed): Database {
    match t.step
    case Root(owner, seconds, gpuCount) =>
      var r := CreateRoot(db, owner, seconds, gpuCount, t.now);
      if r.Ok? then r.value else db
    case Use(owner) =>
      var r := EnsureActive(db, owner, t.now);
      if r.Ok? then r.value.0 else db
    case Request(owner, seconds, key) =>
      var r := RequestRenewal(db, owner, seconds, key, t.now);
      if r.Ok? then r.value.0 else db
    case AutoRenew(owner, seconds, key) => RenewAtOnce(db, owner, seconds, key, t.now)
    case Decide(request, decision) =>
      var r := DecideRenewal(db, request, decision, t.now);
      if r.Ok? then r.value.db else db
    case Reconcile(limit) => ReconcileRequests(db, t.now, limit)
    case Scan(lease, reply) => ScanLease(db, lease, t.now, t.finished, reply).0
    case Recover(lease, reply) =>
      var r := RecoverLease(db, lease, t.now, t.finished, reply);
      if r.Ok? then r.value.0 else db
  }

  /** The cleanup attempt a transaction made, if any. */
  function AttemptOf(db: Database, t: Timed): Option<Attempt> {
    match t.step
    case Scan(lease, reply) =>
      var o := ScanLease(db, lease, t.now, t.finished, reply).1;
      if o.Attempted? then Some(o.attempt) else None
    case Recover(lease, reply) =>
      var r := RecoverLease(db, lease, t.now, t.finished, reply);
      if r.Ok? then Some(r.value.1) else None
    case _ => None
  }

  // ----- Every transaction keeps the invariant -----

  lemma ActivateRetouches(leases: seq<Lease>, i: Id, s: Id, now: Time)
    requires i < |leases| && leases[i].state in DUE_STATES && s < |leases| && leases[s].state == Approved
    ensures Retouched(leases, Activate(leases, i, s, now)) && Unbinned(leases, Activate(leases, i, s, now))
  {
  }

  /** Activating an approved successor changes states only. */
  lemma ActivateKeepsInv(db: Database, i: Id, s: Id, now: Time)
    requires Inv(db, now) && i < |db.leases| && db.leases[i].state in DUE_STATES
    requires SuccessorOf(db.leases, i) == Some(s) && db.leases[s].state == Approved
    ensures Inv(db.(leases := Activate(db.leases, i, s, now)), now)
    ensures Retouched(db.leases, Activate(db.leases, i, s, now))
  {
    ActivateRetouches(db.leases, i, s, now);
    RetouchedKeepsInv(db, Activate(db.leases, i, s, now), now);
  }

  /** The activation by `ensure_active_lease` never has to fill in `approved_at`. */
  lemma EnsureActivates(db: Database, owner: Owner, now: Time)
    requires Inv(db, now) && EnsureActive(db, owner, now).Ok?
    ensures var (after, active) := EnsureActive(db, owner, now).value;
            && after == db.(leases := after.leases) && |after.leases| == |db.leases|
            && Retouched(db.leases, after.leases) && Inv(after, now)
            && after.leases[active].owner == owner && after.leases[active].state in ACTIVE_LEASE_STATES
            && Covers(after.leases[active], now)
  {
    var latest := LatestStarted(db.leases, owner, now, |db.leases|);
    if !(latest.Some? && db.leases[latest.value].expiresAt > now) {
      var i := Selected(db.leases, owner, now).value;
      var s := SuccessorOf(db.leases, i).value;
      ActivateKeepsInv(db, i, s, now);
      SuccessorUnique(db.leases, i, s);
      assert WellFormed(db.leases[s]);
      var leases := Activate(db.leases, i, s, now);
      assert leases[s := leases[s].(approvedAt := leases[s].approvedAt)] == leases;
    }
  }

  lemma TouchActiveKeepsInv(db: Database, i: Id, state: LeaseState, now: Time)
    requires Inv(db, now) && i < |db.leases| && db.leases[i].state != RecycleBin && state != RecycleBin
    ensures Inv(db.(leases := db.leases[i := db.leases[i].(state := state)]), now)
  {
    RetouchedKeepsInv(db, db.leases[i := db.leases[i].(state := state)], now);
  }

  lemma {:induction false} TerminalKeepsOwner(leases: seq<Lease>, current: Id, seen: set<Id>)
    requires Chains(leases) && current < |leases| && forall i :: i in seen ==> i < |leases|
    ensures var r := TerminalFrom(leases, current, seen);
            r.Ok? ==> r.value < |leases| && leases[r.value].owner == leases[current].owner && current <= r.value
    decreases |leases| - current
  {
    var s := SuccessorOf(leases, current);
    if s.Some? {
      SuccessorUnique(leases, current, s.value);
      TerminalKeepsOwner(leases, s.value, seen + {s.value});
    }
  }

  /** A new request meets the window of the lease it names, and is its owner's only pending one. */
  lemma AddRequestKeepsInv(db: Database, r: Renewal, now: Time)
    requires Inv(db, now) && InWindow(db.leases, r, now) && r.state == Pending && r.resultingLease.None?
    requires !HasPending(db.renewals, r.owner) && FindKey(db.renewals, r.owner, r.key, 0).None?
    ensures Inv(db.(renewals := db.renewals + [r]), now)
  {
    var renewals := db.renewals + [r];
    forall a | 0 <= a < |renewals|
      ensures InWindow(db.leases, renewals[a], now) && GrantMatches(db.leases, renewals[a])
    {
      if a < |db.renewals| {
        assert renewals[a] == db.renewals[a];
      }
    }
    forall j: Id | j < |db.leases| && db.leases[j].previous.Some? ensures exists a :: GrantedBy(renewals, j, a) {
      var a :| GrantedBy(db.renewals, j, a);
      assert GrantedBy(renewals, j, a);
    }
  }

  lemma InWindowFromRemaining(leases: seq<Lease>, r: Renewal, now: Time)
    requires r.lease < |leases| && leases[r.lease].owner == r.owner && LegalDuration(r.durationSeconds)
    requires r.requestedAt == now
    requires WholeSeconds(leases[r.lease].expiresAt - now) <= RENEWAL_WINDOW_SECONDS
    ensures InWindow(leases, r, now)
  {
  }

  lemma RequestKeepsInv(db: Database, owner: Owner, seconds: int, key: string, now: Time)
    requires Inv(db, now) && RequestRenewal(db, owner, seconds, key, now).Ok?
    ensures Inv(RequestRenewal(db, owner, seconds, key, now).value.0, now)
  {
    var existing := FindKey(db.renewals, owner, key, 0);
    if existing.None? {
      EnsureActivates(db, owner, now);
      var Entitled(ensured, active, terminal) := Entitlement(db, owner, now).value;
      TerminalKeepsOwner(ensured.leases, active, {active});
      TouchActiveKeepsInv(ensured, active, RenewalPending, now);
      var touched := ensured.(leases := ensured.leases[active := ensured.leases[active].(state := RenewalPending)]);
      var r := Renewal(owner, terminal, Pending, seconds, key, now, None, None);
      InWindowFromRemaining(ensured.leases, r, now);
      assert InWindow(touched.leases, r, now);
      AddRequestKeepsInv(touched, r, now);
    }
  }

  /** Rewriting one request: it may be closed, or granted for a successor of its lease. */
  predicate Redecided(a: Renewal, b: Renewal) {
    && b.owner == a.owner && b.lease == a.lease && b.durationSeconds == a.durationSeconds && b.key == a.key
    && b.requestedAt == a.requestedAt
  }

  lemma CloseRequestKeepsInv(db: Database, q: Id, r: Renewal, now: Time)
    requires Inv(db, now) && q < |db.renewals| && db.renewals[q].state == Pending
    requires Redecided(db.renewals[q], r) && r.state in {Rejected, Cancelled} && r.resultingLease.None?
    ensures Inv(db.(renewals := db.renewals[q := r]), now)
  {
    var renewals := db.renewals[q := r];
    forall a | 0 <= a < |renewals|
      ensures InWindow(db.leases, renewals[a], now) && GrantMatches(db.leases, renewals[a])
    {
      assert InWindow(db.leases, db.renewals[a], now) && GrantMatches(db.leases, db.renewals[a]);
    }
    assert GrantMatches(db.leases, db.renewals[q]);
    forall j: Id | j < |db.leases| && db.leases[j].previous.Some? ensures exists a :: GrantedBy(renewals, j, a) {
      var a :| GrantedBy(db.renewals, j, a);
      assert GrantedBy(renewals, j, a);
    }
  }

  /** Granting a request appends its successor at the end of the chain. */
  lemma GrantKeepsInv(db: Database, q: Id, r: Renewal, l: Lease, now: Time)
    requires Inv(db, now) && q < |db.renewals| && db.renewals[q].state == Pending
    requires Redecided(db.renewals[q], r) && r.state == Granted && r.resultingLease == Some(|db.leases|)
    requires r.lease < |db.leases| && SuccessorOf(db.leases, r.lease).None?
    requires db.leases[r.lease].expiresAt > now
    requires l == NewLease(r.owner, Approved, db.leases[r.lease].gpuCount, db.leases[r.lease].expiresAt,
                           r.durationSeconds, Some(r.lease), now)
    ensures Inv(db.(leases := db.leases + [l], renewals := db.renewals[q := r]), now)
  {
    var leases := db.leases + [l];
    var renewals := db.renewals[q := r];
    assert InWindow(db.leases, db.renewals[q], now);
    assert WellFormed(db.leases[r.lease]) && RecycledTogether(db.leases, db.items, r.lease, now);
    SuccessorLinks(db.leases, r.lease, l);
    AppendKeepsChains(db.leases, l);
    AppendKeepsRecycling(db.leases, l, db.items, now);
    AppendKeepsRequests(db.leases, l, db.renewals, now);
    GrantRewritesRequest(leases, db.renewals, q, r, now);
    GrantAccountsForAll(db.leases, l, db.renewals, q, r);
  }

  lemma GrantRewritesRequest(leases: seq<Lease>, renewals: seq<Renewal>, q: Id, r: Renewal, now: Time)
    requires Requests(leases, renewals, now) && q < |renewals| && renewals[q].state == Pending
    requires Redecided(renewals[q], r) && r.state == Granted && r.resultingLease.Some?
    requires IsSuccessor(leases, r.lease, r.resultingLease.value)
    ensures Requests(leases, renewals[q := r], now)
  {
    var after := renewals[q := r];
    forall a | 0 <= a < |after| ensures InWindow(leases, after[a], now) && GrantMatches(leases, after[a]) {
      assert InWindow(leases, renewals[a], now) && GrantMatches(leases, renewals[a]);
    }
  }

  lemma GrantAccountsForAll(leases: seq<Lease>, l: Lease, renewals: seq<Renewal>, q: Id, r: Renewal)
    requires AllGranted(leases, renewals) && q < |renewals| && renewals[q].resultingLease.None?
    requires r.resultingLease == Some(|leases|)
    ensures AllGranted(leases + [l], renewals[q := r])
  {
    var after := renewals[q := r];
    forall j: Id | j < |leases + [l]| && (leases + [l])[j].previous.Some? ensures exists a :: GrantedBy(after, j, a) {
      if j == |leases| {
        assert GrantedBy(after, j, q);
      } else {
        var a :| GrantedBy(renewals, j, a);
        assert GrantedBy(after, j, a);
      }
    }
  }

  lemma CloseExpiredKeepsInv(db: Database, q: Id, decision: Decision, now: Time)
    requires Inv(db, now) && DecideRenewal(db, q, decision, now).Ok?
    requires DecideRenewal(db, q, decision, now).value.ClosedExpired?
    ensures Inv(DecideRenewal(db, q, decision, now).value.db, now)
  {
    var r := db.renewals[q].(state := Cancelled, decidedAt := Some(now));
    assert GrantMatches(db.leases, db.renewals[q]);
    CloseRequestKeepsInv(db, q, r, now);
    var closed := db.(renewals := db.renewals[q := r]);
    RetouchedKeepsInv(closed, DecideRenewal(db, q, decision, now).value.db.leases, now);
  }

  lemma RejectKeepsInv(db: Database, q: Id, now: Time)
    requires Inv(db, now) && DecideRenewal(db, q, Reject, now).Ok? && DecideRenewal(db, q, Reject, now).value.Decided?
    ensures Inv(DecideRenewal(db, q, Reject, now).value.db, now)
  {
    var r := db.renewals[q].(state := Rejected, decidedAt := Some(now));
    assert GrantMatches(db.leases, db.renewals[q]);
    assert RecycledTogether(db.leases, db.items, r.lease, now);
    CloseRequestKeepsInv(db, q, r, now);
    TouchActiveKeepsInv(db.(renewals := db.renewals[q := r]), r.lease, RenewalWindow, now);
  }

  lemma ApproveKeepsInv(db: Database, q: Id, now: Time)
    requires Inv(db, now) && DecideRenewal(db, q, Approve, now).Ok? && DecideRenewal(db, q, Approve, now).value.Decided?
    ensures Inv(DecideRenewal(db, q, Approve, now).value.db, now)
  {
    var r := db.renewals[q];
    var lease := db.leases[r.lease];
    assert RecycledTogether(db.leases, db.items, r.lease, now);
    TouchActiveKeepsInv(db, r.lease, RenewalWindow, now);
    var touched := db.(leases := db.leases[r.lease := lease.(state := RenewalWindow)]);
    RetouchedSuccessor(db.leases, touched.leases, r.lease);
    var l := NewLease(r.owner, Approved, lease.gpuCount, lease.expiresAt, r.durationSeconds, Some(r.lease), now);
    var granted := r.(state := Granted, decidedAt := Some(now), resultingLease := Some(|db.leases|));
    GrantKeepsInv(touched, q, granted, l, now);
  }

  lemma DecideKeepsInv(db: Database, q: Id, decision: Decision, now: Time)
    requires Inv(db, now) && DecideRenewal(db, q, decision, now).Ok?
    ensures Inv(DecideRenewal(db, q, decision, now).value.db, now)
  {
    if DecideRenewal(db, q, decision, now).value.ClosedExpired? {
      CloseExpiredKeepsInv(db, q, decision, now);
    } else if decision == Reject {
      RejectKeepsInv(db, q, now);
    } else {
      ApproveKeepsInv(db, q, now);
    }
  }

  lemma {:induction false} CloseOverdueAt(db: Database, renewals: seq<Renewal>, now: Time, limit: nat, k: nat)
    requires k < |renewals|
    ensures var r := CloseOverdue(db, renewals, now, limit)[k];
            || r == renewals[k]
            || (Overdue(db, renewals[k], now) && r == renewals[k].(state := Cancelled, decidedAt := Some(now)))
    decreases |renewals|
  {
    if limit > 0 && k > 0 {
      CloseOverdueAt(db, renewals[1..], now, if Overdue(db, renewals[0], now) then limit - 1 else limit, k - 1);
    }
  }

  lemma ReconcileKeepsInv(db: Database, now: Time, limit: nat)
    requires Inv(db, now)
    ensures Inv(ReconcileRequests(db, now, limit), now)
  {
    var after := CloseOverdue(db, db.renewals, now, limit);
    forall k | 0 <= k < |after|
      ensures InWindow(db.leases, after[k], now) && GrantMatches(db.leases, after[k])
      ensures Redecided(db.renewals[k], after[k])
      ensures after[k].resultingLease == db.renewals[k].resultingLease
      ensures after[k].state == Pending ==> db.renewals[k].state == Pending
    {
      CloseOverdueAt(db, db.renewals, now, limit, k);
      assert InWindow(db.leases, db.renewals[k], now) && GrantMatches(db.leases, db.renewals[k]);
    }
    forall j: Id | j < |db.leases| && db.leases[j].previous.Some? ensures exists a :: GrantedBy(after, j, a) {
      var a :| GrantedBy(db.renewals, j, a);
      assert GrantedBy(after, j, a);
    }
  }

  /** A failed cleanup attempt. */
  lemma FailedCleanupKeepsInv(db: Database, i: Id, now: Time, finished: Time)
    requires Inv(db, finished) && i < |db.leases| && db.leases[i].state != RecycleBin
    ensures Inv(db.(leases := db.leases[i := ExpireLease(db.leases[i], now)]), finished)
  {
    RetouchedKeepsInv(db, db.leases[i := ExpireLease(db.leases[i], now)], finished);
  }

  /** A successful one: the lease goes to the bin together with its item. */
  lemma BinningKeepsInv(db: Database, i: Id, l: Lease, item: RecycleItem, finished: Time)
    requires Inv(db, finished) && i < |db.leases| && db.leases[i].state != RecycleBin
    requires db.leases[i].expiresAt <= finished && SuccessorOf(db.leases, i).None?
    requires SameTerms(db.leases[i], l) && l.state == RecycleBin && l.recycledAt.Some? && item.lease == i
    ensures Inv(db.(leases := db.leases[i := l], items := db.items + [item]), finished)
  {
    var leases := db.leases[i := l];
    assert Retouched(db.leases, leases);
    RetouchedKeepsChains(db.leases, leases);
    RetouchedKeepsRequests(db.leases, leases, db.renewals, finished);
    RetouchedKeepsGrants(db.leases, leases, db.renewals);
    BinningKeepsRecycling(db.leases, leases, db.items, i, item, finished);
  }

  /** The invariant does not look at the managed identities or the cleanup operations. */
  lemma OtherTablesKeepInv(a: Database, b: Database, now: Time)
    requires Inv(a, now) && b.leases == a.leases && b.renewals == a.renewals && b.items == a.items
    ensures Inv(b, now)
  {
  }

  /** A cleanup attempt on an expired lease without successor. */
  lemma CleanupKeepsInv(db: Database, i: Id, reply: WorkerReply, now: Time, finished: Time)
    requires Inv(db, now) && now <= finished && Cleanable(db, i)
    requires db.leases[i].expiresAt <= now && db.leases[i].recycledAt.None? && SuccessorOf(db.leases, i).None?
    ensures Inv(Cleanup(db, i, reply, now, finished), finished)
  {
    var after := Cleanup(db, i, reply, now, finished);
    LaterKeepsInv(db, now, finished);
    assert RecycledTogether(db.leases, db.items, i, finished);
    if CleanupSucceeded(reply, db.managed[db.leases[i].owner].keys) {
      BinningKeepsInv(db, i, after.leases[i], after.items[|db.items|], finished);
      OtherTablesKeepInv(db.(leases := after.leases, items := after.items), after, finished);
    } else {
      FailedCleanupKeepsInv(db, i, now, finished);
      OtherTablesKeepInv(db.(leases := after.leases), after, finished);
    }
  }

  lemma BinningKeepsRecycling(a: seq<Lease>, b: seq<Lease>, items: seq<RecycleItem>, i: Id, item: RecycleItem,
                              now: Time)
    requires Recycling(a, items, now) && Retouched(a, b) && i < |a| && item.lease == i
    requires a[i].state != RecycleBin && b[i].state == RecycleBin && b[i].recycledAt.Some?
    requires a[i].expiresAt <= now && SuccessorOf(a, i).None?
    requires forall j :: 0 <= j < |a| && j != i ==> a[j] == b[j]
    ensures Recycling(b, items + [item], now)
  {
    var after := items + [item];
    assert RecycledTogether(a, items, i, now);
    forall j: Id | j < |b| ensures RecycledTogether(b, after, j, now) {
      assert RecycledTogether(a, items, j, now) && SameTerms(a[j], b[j]);
      RetouchedSuccessor(a, b, j);
      assert HasItem(after, j) <==> HasItem(items, j) || j == i by {
        assert after[|items|] == item;
        assert forall k :: 0 <= k < |items| ==> after[k] == items[k];
      }
    }
  }

  lemma ScanKeepsInv(db: Database, i: Id, now: Time, finished: Time, reply: WorkerReply)
    requires Inv(db, now) && now <= finished
    ensures Inv(ScanLease(db, i, now, finished, reply).0, finished)
  {
    LaterKeepsInv(db, now, finished);
    var (after, outcome) := ScanLease(db, i, now, finished, reply);
    if outcome == Activated {
      ActivateKeepsInv(db, i, SuccessorOf(db.leases, i).value, now);
      LaterKeepsInv(after, now, finished);
    } else if outcome.Attempted? {
      CleanupKeepsInv(db, i, reply, now, finished);
      OtherTablesKeepInv(Cleanup(db, i, reply, now, finished), after, finished);
    }
  }

  lemma RecoverKeepsInv(db: Database, i: Id, now: Time, finished: Time, reply: WorkerReply)
    requires Inv(db, now) && now <= finished && RecoverLease(db, i, now, finished, reply).Ok?
    ensures Inv(RecoverLease(db, i, now, finished, reply).value.0, finished)
  {
    CleanupKeepsInv(db, i, reply, now, finished);
  }

  lemma RenewAtOnceKeepsInv(db: Database, owner: Owner, seconds: int, key: string, now: Time)
    requires Inv(db, now)
    ensures Inv(RenewAtOnce(db, owner, seconds, key, now), now)
  {
    var r := RequestRenewal(db, owner, seconds, key, now);
    if r.Ok? {
      RequestKeepsInv(db, owner, seconds, key, now);
      var (after, request) := r.value;
      if request < |after.renewals| && DecideRenewal(after, request, Approve, now).Ok? {
        DecideKeepsInv(after, request, Approve, now);
      }
    }
  }

  lemma OwnersStepKeepsInv(db: Database, t: Timed)
    requires Inv(db, t.now) && (t.step.Root? || t.step.Use? || t.step.Request? || t.step.AutoRenew?)
    ensures Inv(Apply(db, t), t.now)
  {
    match t.step
    case Root(owner, seconds, gpuCount) =>
      if CreateRoot(db, owner, seconds, gpuCount, t.now).Ok? {
        RootKeepsInv(db, owner, seconds, gpuCount, t.now);
      }
    case Use(owner) =>
      if EnsureActive(db, owner, t.now).Ok? {
        EnsureActivates(db, owner, t.now);
      }
    case Request(owner, seconds, key) =>
      if RequestRenewal(db, owner, seconds, key, t.now).Ok? {
        RequestKeepsInv(db, owner, seconds, key, t.now);
      }
    case AutoRenew(owner, seconds, key) =>
      RenewAtOnceKeepsInv(db, owner, seconds, key, t.now);
  }

  lemma DecisionStepKeepsInv(db: Database, t: Timed)
    requires Inv(db, t.now) && t.step.Decide?
    ensures Inv(Apply(db, t), t.now)
  {
    if DecideRenewal(db, t.step.request, t.step.decision, t.now).Ok? {
      DecideKeepsInv(db, t.step.request, t.step.decision, t.now);
    }
  }

  lemma CleanupStepKeepsInv(db: Database, t: Timed)
    requires Inv(db, t.now) && t.now <= t.finished && (t.step.Scan? || t.step.Recover?)
    ensures Inv(Apply(db, t), t.finished)
  {
    if t.step.Scan? {
      ScanKeepsInv(db, t.step.lease, t.now, t.finished, t.step.reply);
    } else if RecoverLease(db, t.step.lease, t.now, t.finished, t.step.reply).Ok? {
      RecoverKeepsInv(db, t.step.lease, t.now, t.finished, t.step.reply);
    } else {
      LaterKeepsInv(db, t.now, t.finished);
    }
  }

  /** Every transaction keeps the whole invariant. */
  lemma ApplyKeepsInv(db: Database, t: Timed)
    requires Inv(db, t.now) && t.now <= t.finished
    ensures Inv(Apply(db, t), t.finished)
  {
    if t.step.Scan? || t.step.Recover? {
      CleanupStepKeepsInv(db, t);
    } else {
      if t.step.Decide? {
        DecisionStepKeepsInv(db, t);
      } else if t.step.Reconcile? {
        ReconcileKeepsInv(db, t.now, t.step.limit);
      } else {
        OwnersStepKeepsInv(db, t);
      }
      LaterKeepsInv(Apply(db, t), t.now, t.finished);
    }
  }
}
