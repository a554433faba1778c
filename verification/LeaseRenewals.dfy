/** What renewals rely on in every run: an approved lease is its owner's last, and a pending request names the end of
    its owner's chain for as long as that lease has not run out. */
module LeaseRenewals {
  import opened Options
  import opened LeaseModel
  import opened LeaseInvariant
  import opened LeaseRuns
  import opened LeaseHistory
  import opened LeaseViews

  // ----- The invariant -----

  /** The states that leases take between creation and the recycle bin. */
  predicate UsualState(state: LeaseState) {
    state == Approved || state in DUE_STATES || state == RecycleBin
  }

  ghost predicate ApprovedLast(leases: seq<Lease>) {
    forall j: Id :: j < |leases| ==>
      UsualState(leases[j].state) && (leases[j].state == Approved ==> SuccessorOf(leases, j).None?)
  }

  predicate NothingApprovedAfter(leases: seq<Lease>, i: Id) {
    var s := SuccessorOf(leases, i);
    s.None? || leases[s.value].state != Approved
  }

  /** No approved lease follows; it has started or waits approved; and the lease before it, if any, has started. */
  ghost predicate EndsChain(leases: seq<Lease>, i: Id, now: Time) {
    && i < |leases| && NothingApprovedAfter(leases, i)
    && (leases[i].startsAt <= now || leases[i].state == Approved)
    && (leases[i].previous.Some? ==>
          leases[i].previous.value < |leases| && leases[leases[i].previous.value].startsAt <= now)
  }

  ghost predicate Renewing(db: Database, now: Time) {
    && ApprovedLast(db.leases)
    && forall a :: 0 <= a < |db.renewals| && db.renewals[a].state == Pending ==>
       EndsChain(db.leases, db.renewals[a].lease, now)
  }

  // ----- One hop -----

  /** An approved lease has no successor, so the walk along approved successors takes at most one step. */
  lemma AtMostOneHop(leases: seq<Lease>, i: Id)
    requires Chains(leases) && ApprovedLast(leases) && i < |leases|
    ensures Terminal(leases, i) == Ok(if NothingApprovedAfter(leases, i) then i else SuccessorOf(leases, i).value)
  {
    if !NothingApprovedAfter(leases, i) {
      var s := SuccessorOf(leases, i).value;
      SuccessorUnique(leases, i, s);
      assert TerminalFrom(leases, s, {i} + {s}) == Ok(s);
    }
  }

  // ----- Every transaction keeps it -----

  lemma LaterKeepsRenewing(db: Database, now: Time, later: Time)
    requires Renewing(db, now) && now <= later
    ensures Renewing(db, later)
  {
    forall a | 0 <= a < |db.renewals| && db.renewals[a].state == Pending
      ensures EndsChain(db.leases, db.renewals[a].lease, later)
    {
      assert EndsChain(db.leases, db.renewals[a].lease, now);
    }
  }

  /** States move on: nothing becomes approved, and only a lease that has started leaves the approved state. */
  ghost predicate MovesOn(a: Lease, b: Lease, now: Time) {
    && SameTerms(a, b) && UsualState(b.state)
    && (b.state == Approved ==> a.state == Approved)
    && (a.state == Approved && b.state != Approved ==> a.startsAt <= now)
  }

  ghost predicate Settles(a: seq<Lease>, b: seq<Lease>, now: Time) {
    |a| == |b| && forall i :: 0 <= i < |a| ==> MovesOn(a[i], b[i], now)
  }

  lemma SettlingKeepsEnd(a: seq<Lease>, b: seq<Lease>, i: Id, now: Time)
    requires Settles(a, b, now) && EndsChain(a, i, now)
    ensures EndsChain(b, i, now)
  {
    RetouchedSuccessor(a, b, i);
    assert MovesOn(a[i], b[i], now);
    var s := SuccessorOf(a, i);
    assert s.Some? ==> MovesOn(a[s.value], b[s.value], now);
  }

  lemma SettlingKeepsLast(a: seq<Lease>, b: seq<Lease>, now: Time)
    requires Settles(a, b, now) && ApprovedLast(a)
    ensures ApprovedLast(b)
  {
    forall j: Id | j < |b| ensures UsualState(b[j].state) && (b[j].state == Approved ==> SuccessorOf(b, j).None?) {
      assert MovesOn(a[j], b[j], now);
      RetouchedSuccessor(a, b, j);
    }
  }

  /** No request is pending that was not pending before. */
  ghost predicate NoNewPending(a: seq<Renewal>, b: seq<Renewal>) {
    forall k :: 0 <= k < |b| && b[k].state == Pending ==> k < |a| && a[k] == b[k]
  }

  lemma SettlingKeepsRenewing(a: Database, b: Database, now: Time)
    requires Renewing(a, now) && Settles(a.leases, b.leases, now) && NoNewPending(a.renewals, b.renewals)
    ensures Renewing(b, now)
  {
    SettlingKeepsLast(a.leases, b.leases, now);
    forall k | 0 <= k < |b.renewals| && b.renewals[k].state == Pending
      ensures EndsChain(b.leases, b.renewals[k].lease, now)
    {
      SettlingKeepsEnd(a.leases, b.leases, b.renewals[k].lease, now);
    }
  }

  lemma UnchangedSettles(leases: seq<Lease>, now: Time)
    requires ApprovedLast(leases)
    ensures Settles(leases, leases, now)
  {
  }

  lemma RootKeepsRenewing(db: Database, owner: Owner, seconds: int, gpuCount: int, now: Time)
    requires Renewing(db, now) && CreateRoot(db, owner, seconds, gpuCount, now).Ok?
    ensures Renewing(CreateRoot(db, owner, seconds, gpuCount, now).value, now)
  {
    var after := CreateRoot(db, owner, seconds, gpuCount, now).value;
    forall i: Id ensures SuccessorOf(after.leases, i) == SuccessorOf(db.leases, i) {
      AppendedSuccessor(db.leases, after.leases[|db.leases|], i);
    }
    forall k | 0 <= k < |db.renewals| && db.renewals[k].state == Pending
      ensures EndsChain(after.leases, db.renewals[k].lease, now)
    {
      assert EndsChain(db.leases, db.renewals[k].lease, now);
    }
  }

  lemma ActivationSettles(leases: seq<Lease>, i: Id, s: Id, now: Time)
    requires ApprovedLast(leases) && i < |leases| && leases[i].state != Approved
    requires s < |leases| && leases[s].state == Approved && leases[s].startsAt <= now
    ensures Settles(leases, Activate(leases, i, s, now), now)
  {
  }

  lemma EnsureKeepsRenewing(db: Database, owner: Owner, now: Time)
    requires Inv(db, now) && Renewing(db, now) && EnsureActive(db, owner, now).Ok?
    ensures Settles(db.leases, EnsureActive(db, owner, now).value.0.leases, now)
    ensures Renewing(EnsureActive(db, owner, now).value.0, now)
  {
    var after := EnsureActive(db, owner, now).value.0;
    var latest := LatestStarted(db.leases, owner, now, |db.leases|);
    if latest.Some? && db.leases[latest.value].expiresAt > now {
      UnchangedSettles(db.leases, now);
    } else {
      var i := Selected(db.leases, owner, now).value;
      var s := SuccessorOf(db.leases, i).value;
      assert WellFormed(db.leases[s]);
      ActivationSettles(db.leases, i, s, now);
      assert after.leases == Activate(db.leases, i, s, now);
    }
    SettlingKeepsRenewing(db, after, now);
  }

  /** The terminal lease that a new request names. */
  lemma TerminalEndsChain(leases: seq<Lease>, active: Id, now: Time)
    requires Chains(leases) && ApprovedLast(leases) && active < |leases| && Covers(leases[active], now)
    ensures Terminal(leases, active).Ok? && EndsChain(leases, Terminal(leases, active).value, now)
  {
    AtMostOneHop(leases, active);
    assert Linked(leases, active);
    if leases[active].previous.Some? {
      assert WellFormed(leases[leases[active].previous.value]);
    }
  }

  lemma RequestMade(db: Database, owner: Owner, seconds: int, key: string, now: Time)
    requires RequestRenewal(db, owner, seconds, key, now).Ok? && FindKey(db.renewals, owner, key, 0).None?
    ensures Entitlement(db, owner, now).Ok?
    ensures var Entitled(ensured, active, terminal) := Entitlement(db, owner, now).value;
            RequestRenewal(db, owner, seconds, key, now).value.0
            == ensured.(renewals := db.renewals + [Renewal(owner, terminal, Pending, seconds, key, now, None, None)],
                        leases := ensured.leases[active := ensured.leases[active].(state := RenewalPending)])
  {
  }

  lemma RequestKeepsRenewing(db: Database, owner: Owner, seconds: int, key: string, now: Time)
    requires Inv(db, now) && Renewing(db, now) && RequestRenewal(db, owner, seconds, key, now).Ok?
    ensures Renewing(RequestRenewal(db, owner, seconds, key, now).value.0, now)
  {
    if FindKey(db.renewals, owner, key, 0).None? {
      RequestMade(db, owner, seconds, key, now);
      EnsureActivates(db, owner, now);
      EnsureKeepsRenewing(db, owner, now);
      var Entitled(ensured, active, terminal) := Entitlement(db, owner, now).value;
      NewRequestKeepsRenewing(ensured, active, terminal,
                              Renewal(owner, terminal, Pending, seconds, key, now, None, None), now);
    }
  }

  lemma NewRequestKeepsRenewing(db: Database, active: Id, terminal: Id, r: Renewal, now: Time)
    requires Chains(db.leases) && Renewing(db, now) && active < |db.leases| && Covers(db.leases[active], now)
    requires db.leases[active].state != Approved && Terminal(db.leases, active) == Ok(terminal) && r.lease == terminal
    ensures Renewing(db.(renewals := db.renewals + [r],
                         leases := db.leases[active := db.leases[active].(state := RenewalPending)]), now)
  {
    var after := db.(renewals := db.renewals + [r],
                     leases := db.leases[active := db.leases[active].(state := RenewalPending)]);
    TerminalEndsChain(db.leases, active, now);
    TouchSettles(db.leases, active, RenewalPending, now);
    AddPending(db, after, |db.renewals|, now);
  }

  lemma TouchSettles(leases: seq<Lease>, i: Id, state: LeaseState, now: Time)
    requires ApprovedLast(leases) && i < |leases| && leases[i].state != Approved && state in DUE_STATES
    ensures Settles(leases, leases[i := leases[i].(state := state)], now)
  {
  }

  lemma AddPending(a: Database, b: Database, q: Id, now: Time)
    requires Renewing(a, now) && Settles(a.leases, b.leases, now)
    requires q == |a.renewals| && |b.renewals| == q + 1 && b.renewals[..q] == a.renewals
    requires EndsChain(a.leases, b.renewals[q].lease, now)
    ensures Renewing(b, now)
  {
    SettlingKeepsLast(a.leases, b.leases, now);
    forall k | 0 <= k < |b.renewals| && b.renewals[k].state == Pending
      ensures EndsChain(b.leases, b.renewals[k].lease, now)
    {
      assert k < q ==> b.renewals[k] == a.renewals[k];
      SettlingKeepsEnd(a.leases, b.leases, b.renewals[k].lease, now);
    }
  }

  // ----- Decisions -----

  /** Deciding takes the approval from the request's lease; other pending requests are other owners' and name other
      leases. */
  lemma OverwriteKeepsRenewing(db: Database, q: Id, r: Renewal, now: Time)
    requires Inv(db, now) && Renewing(db, now)
    requires q < |db.renewals| && db.renewals[q].state == Pending && r.state != Pending
    ensures var t := db.renewals[q].lease;
            t < |db.leases| && Renewing(db.(leases := db.leases[t := db.leases[t].(state := RenewalWindow)],
                                            renewals := db.renewals[q := r]), now)
  {
    var t := db.renewals[q].lease;
    assert InWindow(db.leases, db.renewals[q], now);
    OverwriteKeepsLast(db.leases, t);
    var renewals := db.renewals[q := r];
    forall k | 0 <= k < |renewals| && renewals[k].state == Pending
      ensures EndsChain(db.leases[t := db.leases[t].(state := RenewalWindow)], renewals[k].lease, now)
    {
      OtherOwnersRequest(db, q, k, now);
      OverwriteKeepsEnd(db.leases, t, renewals[k].lease, now);
    }
  }

  lemma OverwriteKeepsLast(leases: seq<Lease>, t: Id)
    requires ApprovedLast(leases) && t < |leases|
    ensures ApprovedLast(leases[t := leases[t].(state := RenewalWindow)])
  {
    forall i: Id ensures SuccessorOf(leases[t := leases[t].(state := RenewalWindow)], i) == SuccessorOf(leases, i) {
      RetouchedSuccessor(leases, leases[t := leases[t].(state := RenewalWindow)], i);
    }
  }

  lemma OverwriteKeepsEnd(leases: seq<Lease>, t: Id, i: Id, now: Time)
    requires EndsChain(leases, i, now) && t < |leases| && i != t
    ensures EndsChain(leases[t := leases[t].(state := RenewalWindow)], i, now)
  {
    RetouchedSuccessor(leases, leases[t := leases[t].(state := RenewalWindow)], i);
  }

  lemma OtherOwnersRequest(db: Database, q: Id, k: Id, now: Time)
    requires Inv(db, now) && q < |db.renewals| && k < |db.renewals| && k != q
    requires db.renewals[q].state == Pending && db.renewals[k].state == Pending
    ensures db.renewals[k].owner != db.renewals[q].owner && db.renewals[k].lease != db.renewals[q].lease
  {
    assert InWindow(db.leases, db.renewals[q], now) && InWindow(db.leases, db.renewals[k], now);
    if k < q {
      assert db.renewals[k].owner != db.renewals[q].owner;
    } else {
      assert db.renewals[q].owner != db.renewals[k].owner;
    }
  }

  /** A new approved lease after one that is not approved. */
  lemma SuccessorKeepsRenewing(db: Database, l: Lease, now: Time)
    requires Chains(db.leases) && Renewing(db, now) && l.state == Approved && l.previous.Some?
    requires l.previous.value < |db.leases| && db.leases[l.previous.value].state != Approved
    requires forall k :: 0 <= k < |db.renewals| && db.renewals[k].state == Pending ==>
             db.renewals[k].lease != l.previous.value
    ensures Renewing(db.(leases := db.leases + [l]), now)
  {
    var leases := db.leases + [l];
    forall i: Id
      ensures SuccessorOf(leases, i) == if l.previous == Some(i) then Some(|db.leases|) else SuccessorOf(db.leases, i)
    {
      AppendedSuccessor(db.leases, l, i);
    }
    assert SuccessorOf(db.leases, |db.leases|).None? by {
      if SuccessorOf(db.leases, |db.leases|).Some? {
        SuccessorUnique(db.leases, |db.leases|, SuccessorOf(db.leases, |db.leases|).value);
      }
    }
    forall k | 0 <= k < |db.renewals| && db.renewals[k].state == Pending
      ensures EndsChain(leases, db.renewals[k].lease, now)
    {
      assert EndsChain(db.leases, db.renewals[k].lease, now);
    }
  }

  lemma CloseExpiredKeepsRenewing(db: Database, q: Id, decision: Decision, now: Time)
    requires Renewing(db, now)
    requires DecideRenewal(db, q, decision, now).Ok? && DecideRenewal(db, q, decision, now).value.ClosedExpired?
    ensures Renewing(DecideRenewal(db, q, decision, now).value.db, now)
  {
    var after := DecideRenewal(db, q, decision, now).value.db;
    assert Settles(db.leases, after.leases, now);
    SettlingKeepsRenewing(db, after, now);
  }

  lemma DecideKeepsRenewing(db: Database, q: Id, decision: Decision, now: Time)
    requires Inv(db, now) && Renewing(db, now) && DecideRenewal(db, q, decision, now).Ok?
    ensures Renewing(DecideRenewal(db, q, decision, now).value.db, now)
  {
    var after := DecideRenewal(db, q, decision, now).value.db;
    if DecideRenewal(db, q, decision, now).value.ClosedExpired? {
      CloseExpiredKeepsRenewing(db, q, decision, now);
    } else {
      var t := db.renewals[q].lease;
      OverwriteKeepsRenewing(db, q, after.renewals[q], now);
      var touched := db.(leases := db.leases[t := db.leases[t].(state := RenewalWindow)],
                         renewals := db.renewals[q := after.renewals[q]]);
      if decision == Approve {
        RetouchedKeepsChains(db.leases, touched.leases);
        forall k | 0 <= k < |touched.renewals| && touched.renewals[k].state == Pending
          ensures touched.renewals[k].lease != t
        {
          OtherOwnersRequest(db, q, k, now);
        }
        SuccessorKeepsRenewing(touched, after.leases[|db.leases|], now);
        assert touched.(leases := touched.leases + [after.leases[|db.leases|]]) == after;
      }
    }
  }

  lemma AutoRenewKeepsRenewing(db: Database, owner: Owner, seconds: int, key: string, now: Time)
    requires Inv(db, now) && Renewing(db, now)
    ensures Renewing(RenewAtOnce(db, owner, seconds, key, now), now)
  {
    var r := RequestRenewal(db, owner, seconds, key, now);
    if r.Ok? {
      RequestKeepsInv(db, owner, seconds, key, now);
      RequestKeepsRenewing(db, owner, seconds, key, now);
      var (after, request) := r.value;
      if request < |after.renewals| && DecideRenewal(after, request, Approve, now).Ok? {
        DecideKeepsRenewing(after, request, Approve, now);
      }
    }
  }

  lemma ReconcileKeepsRenewing(db: Database, now: Time, limit: nat)
    requires Renewing(db, now)
    ensures Renewing(ReconcileRequests(db, now, limit), now)
  {
    var after := ReconcileRequests(db, now, limit);
    UnchangedSettles(db.leases, now);
    forall k | 0 <= k < |after.renewals| && after.renewals[k].state == Pending
      ensures k < |db.renewals| && db.renewals[k] == after.renewals[k]
    {
      CloseOverdueAt(db, db.renewals, now, limit, k);
    }
    SettlingKeepsRenewing(db, after, now);
  }

  // ----- Cleanup -----

  lemma CleanupKeepsRenewing(db: Database, i: Id, reply: WorkerReply, now: Time, finished: Time)
    requires Renewing(db, now) && Cleanable(db, i) && db.leases[i].state != Approved
    ensures Renewing(Cleanup(db, i, reply, now, finished), now)
  {
    var after := Cleanup(db, i, reply, now, finished);
    assert Settles(db.leases, after.leases, now);
    SettlingKeepsRenewing(db, after, now);
  }

  lemma ScanKeepsRenewing(db: Database, i: Id, now: Time, finished: Time, reply: WorkerReply)
    requires Renewing(db, now)
    ensures Renewing(ScanLease(db, i, now, finished, reply).0, now)
  {
    var (after, outcome) := ScanLease(db, i, now, finished, reply);
    if outcome == Activated {
      ActivationSettles(db.leases, i, SuccessorOf(db.leases, i).value, now);
      SettlingKeepsRenewing(db, after, now);
    } else if outcome.Attempted? {
      CleanupKeepsRenewing(db, i, reply, now, finished);
    }
  }

  lemma RecoverKeepsRenewing(db: Database, i: Id, now: Time, finished: Time, reply: WorkerReply)
    requires Settled(db, now) && Renewing(db, now) && RecoverLease(db, i, now, finished, reply).Ok?
    ensures Renewing(RecoverLease(db, i, now, finished, reply).value.0, now)
  {
    CleanupKeepsRenewing(db, i, reply, now, finished);
  }

  lemma OwnersStepKeepsRenewing(db: Database, t: Timed)
    requires Inv(db, t.now) && Renewing(db, t.now)
    requires t.step.Root? || t.step.Use? || t.step.Request? || t.step.AutoRenew?
    ensures Renewing(Apply(db, t), t.now)
  {
    match t.step
    case Root(owner, seconds, gpuCount) =>
      if CreateRoot(db, owner, seconds, gpuCount, t.now).Ok? {
        RootKeepsRenewing(db, owner, seconds, gpuCount, t.now);
      }
    case Use(owner) =>
      if EnsureActive(db, owner, t.now).Ok? {
        EnsureKeepsRenewing(db, owner, t.now);
      }
    case Request(owner, seconds, key) =>
      if RequestRenewal(db, owner, seconds, key, t.now).Ok? {
        RequestKeepsRenewing(db, owner, seconds, key, t.now);
      }
    case AutoRenew(owner, seconds, key) =>
      AutoRenewKeepsRenewing(db, owner, seconds, key, t.now);
  }

  lemma DecisionStepKeepsRenewing(db: Database, t: Timed)
    requires Inv(db, t.now) && Renewing(db, t.now) && t.step.Decide?
    ensures Renewing(Apply(db, t), t.now)
  {
    if DecideRenewal(db, t.step.request, t.step.decision, t.now).Ok? {
      DecideKeepsRenewing(db, t.step.request, t.step.decision, t.now);
    }
  }

  lemma CleanupStepKeepsRenewing(db: Database, t: Timed)
    requires Settled(db, t.now) && Renewing(db, t.now) && (t.step.Scan? || t.step.Recover?)
    ensures Renewing(Apply(db, t), t.now)
  {
    if t.step.Scan? {
      ScanKeepsRenewing(db, t.step.lease, t.now, t.finished, t.step.reply);
    } else if RecoverLease(db, t.step.lease, t.now, t.finished, t.step.reply).Ok? {
      RecoverKeepsRenewing(db, t.step.lease, t.now, t.finished, t.step.reply);
    }
  }

  /** Every transaction keeps it. */
  lemma ApplyKeepsRenewing(db: Database, t: Timed)
    requires Sound(db, t.now) && Renewing(db, t.now) && t.now <= t.finished
    ensures Renewing(Apply(db, t), t.finished)
  {
    if t.step.Root? || t.step.Use? || t.step.Request? || t.step.AutoRenew? {
      OwnersStepKeepsRenewing(db, t);
    } else if t.step.Decide? {
      DecisionStepKeepsRenewing(db, t);
    } else if t.step.Reconcile? {
      ReconcileKeepsRenewing(db, t.now, t.step.limit);
    } else {
      CleanupStepKeepsRenewing(db, t);
    }
    LaterKeepsRenewing(Apply(db, t), t.now, t.finished);
  }

  lemma {:induction false} RunKeepsRenewing(db: Database, trace: seq<Timed>, from: Time)
    requires Sound(db, from) && Renewing(db, from) && Ordered(trace, from)
    ensures Renewing(Execute(db, trace), End(trace, from))
    decreases |trace|
  {
    if |trace| > 0 {
      var t := trace[0];
      LaterKeepsInv(db, from, t.now);
      LaterKeepsRenewing(db, from, t.now);
      ApplyKeepsRenewing(db, t);
      ApplyKeepsInv(db, t);
      ApplyKeepsSettled(db, t);
      RunKeepsRenewing(Apply(db, t), trace[1..], t.finished);
    }
  }

  /** It holds in every reachable state. */
  lemma ReachableIsRenewing(managed: map<Owner, Managed>, trace: seq<Timed>, from: Time)
    requires Ordered(trace, from)
    ensures Renewing(Execute(Empty(managed), trace), End(trace, from))
  {
    RunKeepsRenewing(Empty(managed), trace, from);
  }

  // ----- What a pending request names -----

  lemma ChainEndIsReached(leases: seq<Lease>, i: Id, active: Id, now: Time)
    requires Chains(leases) && ApprovedLast(leases) && EndsChain(leases, i, now) && leases[i].expiresAt > now
    requires active < |leases| && Covers(leases[active], now) && leases[active].owner == leases[i].owner
    ensures Terminal(leases, active) == Ok(i)
    ensures active == i ||
            (leases[i].previous == Some(active) && leases[i].state == Approved && leases[i].startsAt > now)
  {
    AtMostOneHop(leases, active);
    if leases[i].startsAt <= now {
      AtMostOneCovers(leases, active, i, now);
    } else {
      assert Linked(leases, i);
      if leases[i].previous.Some? {
        var p := leases[i].previous.value;
        AtMostOneCovers(leases, active, p, now);
        SuccessorUnique(leases, p, i);
      } else if active < i {
        assert false;
      } else {
        PeriodsFollow(leases, i, active);
      }
    }
  }

  /** A pending request whose lease has not run out names the end of its owner's entitlement. */
  lemma PendingNamesTerminal(db: Database, q: Id, now: Time)
    requires Inv(db, now) && Renewing(db, now) && q < |db.renewals| && db.renewals[q].state == Pending
    requires Entitlement(db, db.renewals[q].owner, now).Ok?
    requires db.renewals[q].lease < |db.leases| && db.leases[db.renewals[q].lease].expiresAt > now
    ensures var e := Entitlement(db, db.renewals[q].owner, now).value;
            && e.terminal == db.renewals[q].lease
            && (e.active == e.terminal ||
                (db.leases[e.terminal].previous == Some(e.active) && db.leases[e.terminal].state == Approved
                 && db.leases[e.terminal].startsAt > now))
  {
    var owner, i := db.renewals[q].owner, db.renewals[q].lease;
    assert InWindow(db.leases, db.renewals[q], now);
    EnsureActivates(db, owner, now);
    EnsureKeepsRenewing(db, owner, now);
    var (after, active) := EnsureActive(db, owner, now).value;
    assert MovesOn(db.leases[i], after.leases[i], now);
    SettlingKeepsEnd(db.leases, after.leases, i, now);
    ChainEndIsReached(after.leases, i, active, now);
  }

  // ----- What the view tells -----

  /** A request of the owner is still pending although its lease has run out. */
  ghost predicate PendingOnLapsed(db: Database, owner: Owner, now: Time) {
    exists a :: 0 <= a < |db.renewals| && db.renewals[a].owner == owner && Overdue(db, db.renewals[a], now)
  }

  /** In every reachable state a renewal succeeds exactly when the view offers it and no request is left pending on a
      lease that has run out: that is the only way the view can mislead. */
  lemma ViewTellsRenewal(db: Database, owner: Owner, seconds: int, key: string, now: Time)
    requires Inv(db, now) && Renewing(db, now) && LegalDuration(seconds) && FindKey(db.renewals, owner, key, 0).None?
    ensures var view := ViewLease(db, owner, now);
            RequestRenewal(db, owner, seconds, key, now).Ok? <==>
            view.View? && view.renewalAvailable && !PendingOnLapsed(db, owner, now)
  {
    RenewalSucceedsExactly(db, owner, seconds, key, now);
    var e := Entitlement(db, owner, now);
    if e.Ok? && HasPending(db.renewals, owner) && !PendingOnLapsed(db, owner, now) {
      var a :| 0 <= a < |db.renewals| && db.renewals[a].owner == owner && db.renewals[a].state == Pending;
      assert InWindow(db.leases, db.renewals[a], now);
      PendingNamesTerminal(db, a, now);
      assert HasPendingFor(db.renewals, owner, e.value.terminal);
    }
  }

  lemma {:induction false} CloseOverdueClosesAll(db: Database, renewals: seq<Renewal>, now: Time, limit: nat, k: nat)
    requires |renewals| <= limit && k < |renewals|
    ensures !Overdue(db, CloseOverdue(db, renewals, now, limit)[k], now)
    decreases |renewals|
  {
    if k > 0 {
      CloseOverdueClosesAll(db, renewals[1..], now, if Overdue(db, renewals[0], now) then limit - 1 else limit, k - 1);
    }
  }

  /** So right after the worker has closed the overdue requests, up to its limit, the view alone tells. */
  lemma ViewTellsAfterReconciling(db: Database, owner: Owner, seconds: int, key: string, now: Time, limit: nat)
    requires Inv(db, now) && Renewing(db, now) && LegalDuration(seconds) && |db.renewals| <= limit
    requires FindKey(ReconcileRequests(db, now, limit).renewals, owner, key, 0).None?
    ensures var after := ReconcileRequests(db, now, limit);
            var view := ViewLease(after, owner, now);
            RequestRenewal(after, owner, seconds, key, now).Ok? <==> view.View? && view.renewalAvailable
  {
    var after := ReconcileRequests(db, now, limit);
    ReconcileKeepsInv(db, now, limit);
    ReconcileKeepsRenewing(db, now, limit);
    forall k | 0 <= k < |after.renewals| ensures !Overdue(after, after.renewals[k], now) {
      CloseOverdueClosesAll(db, db.renewals, now, limit, k);
    }
    ViewTellsRenewal(after, owner, seconds, key, now);
  }
}
