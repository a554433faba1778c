/** When leases do get activated and cleaned up: a scan within a successor's window activates it, and a chain's end that
    has run out is due until a cleanup of it succeeds. */
module LeaseLiveness {
  import opened Options
  import opened LeaseModel
  import opened LeaseInvariant
  import opened LeaseRuns
  import opened LeaseHistory
  import opened LeaseViews
  import opened LeaseRenewals
  import opened LeaseLimits
  import opened LeaseGuarantees

  // ----- Activation -----

  /** The lease before one that waits approved within its window is due, whatever became of it since. */
  lemma PredecessorIsDue(db: Database, i: Id, s: Id, now: Time)
    requires Inv(db, now) && ApprovedLast(db.leases) && IsSuccessor(db.leases, i, s)
    requires db.leases[s].state == Approved && Covers(db.leases[s], now)
    ensures Due(db, i, now) && Activatable(db.leases, i, now) && SuccessorOf(db.leases, i) == Some(s)
  {
    SuccessorUnique(db.leases, i, s);
    assert RecycledTogether(db.leases, db.items, i, now);
  }

  /** So a scan of it in that window always activates the successor. */
  lemma ScanActivates(db: Database, i: Id, s: Id, now: Time, finished: Time, reply: WorkerReply)
    requires Inv(db, now) && ApprovedLast(db.leases) && IsSuccessor(db.leases, i, s)
    requires db.leases[s].state == Approved && Covers(db.leases[s], now) && db.leases[s].owner in db.managed
    ensures ScanLease(db, i, now, finished, reply).1 == Activated
    ensures ScanLease(db, i, now, finished, reply).0.leases[s].state == Active
  {
    PredecessorIsDue(db, i, s, now);
    SuccessorUnique(db.leases, i, s);
  }

  /** The leases of the owner that have started are no later than the one before `s`, and `s` itself. */
  lemma StartedAreEarlier(leases: seq<Lease>, i: Id, s: Id, l: Id)
    requires Chains(leases) && ApprovedLast(leases) && IsSuccessor(leases, i, s) && leases[s].state == Approved
    requires l < |leases| && leases[l].owner == leases[s].owner
    ensures i < s && (l < i || l == i || l == s)
  {
    assert Linked(leases, s);
    if s < l {
      LaterMeansSuccessor(leases, s, l);
    }
  }

  lemma LatestIsPredecessor(db: Database, i: Id, s: Id, now: Time)
    requires Chains(db.leases) && ApprovedLast(db.leases) && IsSuccessor(db.leases, i, s)
    requires db.leases[s].state == Approved && Covers(db.leases[s], now) && db.leases[i].state in ACTIVE_LEASE_STATES
    ensures LatestStarted(db.leases, db.leases[s].owner, now, |db.leases|) == Some(i)
  {
    SuccessorUnique(db.leases, i, s);
    assert WellFormed(db.leases[i]) && StartedAndActive(db.leases[i], db.leases[s].owner, now);
    var l := LatestStarted(db.leases, db.leases[s].owner, now, |db.leases|).value;
    StartedAreEarlier(db.leases, i, s, l);
    if l < i {
      PeriodsFollow(db.leases, l, i);
    }
  }

  /** So does any use by its owner: the lease before it is then the owner's latest active one. */
  lemma UseActivates(db: Database, i: Id, s: Id, now: Time)
    requires Inv(db, now) && ApprovedLast(db.leases) && Preceded(db.leases) && IsSuccessor(db.leases, i, s)
    requires db.leases[s].state == Approved && Covers(db.leases[s], now)
    ensures var r := EnsureActive(db, db.leases[s].owner, now);
            r.Ok? && r.value.1 == s && r.value.0.leases[s].state == Active
  {
    SuccessorUnique(db.leases, i, s);
    PredecessorIsDue(db, i, s, now);
    LatestIsPredecessor(db, i, s, now);
  }

  // ----- What comes before an approved lease -----

  /** The lease before an approved one is in an active state. A late decision closes a lease as expired only while a
      request is pending on it, and then nothing approved follows it. */
  ghost predicate Preceded(leases: seq<Lease>) {
    forall i: Id, s: Id :: IsSuccessor(leases, i, s) && leases[s].state == Approved ==>
      i < |leases| && leases[i].state in ACTIVE_LEASE_STATES
  }

  /** Nothing becomes approved, and a lease leaves the active states only where nothing approved follows it. */
  ghost predicate Leaves(a: seq<Lease>, b: seq<Lease>) {
    && |a| == |b|
    && (forall i :: 0 <= i < |a| ==>
          a[i].previous == b[i].previous && (b[i].state == Approved ==> a[i].state == Approved))
    && (forall i: Id, s: Id :: i < |a| && IsSuccessor(b, i, s) && b[s].state == Approved ==>
          a[i].state in ACTIVE_LEASE_STATES ==> b[i].state in ACTIVE_LEASE_STATES)
  }

  lemma LeavingKeepsPreceded(a: seq<Lease>, b: seq<Lease>)
    requires Preceded(a) && Leaves(a, b)
    ensures Preceded(b)
  {
    forall i: Id, s: Id | IsSuccessor(b, i, s) && b[s].state == Approved
      ensures i < |b| && b[i].state in ACTIVE_LEASE_STATES
    {
      assert IsSuccessor(a, i, s);
    }
  }

  /** Only the successor of `i` counts, and it is activated at the same time. */
  lemma ActivationLeaves(leases: seq<Lease>, i: Id, s: Id, now: Time)
    requires Chains(leases) && ApprovedLast(leases) && i < |leases| && SuccessorOf(leases, i) == Some(s)
    requires leases[s].state == Approved
    ensures Leaves(leases, Activate(leases, i, s, now))
  {
    var after := Activate(leases, i, s, now);
    forall j: Id, t: Id | j < |leases| && IsSuccessor(after, j, t) && after[t].state == Approved
      && leases[j].state in ACTIVE_LEASE_STATES
      ensures after[j].state in ACTIVE_LEASE_STATES
    {
      assert IsSuccessor(leases, j, t);
      SuccessorUnique(leases, j, t);
    }
  }

  /** One lease is moved on, from or to an active state. */
  lemma TouchLeaves(leases: seq<Lease>, i: Id, l: Lease)
    requires i < |leases| && l.previous == leases[i].previous && (l.state == Approved ==> leases[i].state == Approved)
    requires l.state in ACTIVE_LEASE_STATES || NothingApprovedAfter(leases, i)
    requires Chains(leases)
    ensures Leaves(leases, leases[i := l])
  {
    var after := leases[i := l];
    forall j: Id, t: Id | j < |leases| && IsSuccessor(after, j, t) && after[t].state == Approved
      && leases[j].state in ACTIVE_LEASE_STATES
      ensures after[j].state in ACTIVE_LEASE_STATES
    {
      assert IsSuccessor(leases, j, t);
      SuccessorUnique(leases, j, t);
    }
  }

  lemma ActivationKeepsPreceded(db: Database, i: Id, s: Id, now: Time)
    requires Inv(db, now) && ApprovedLast(db.leases) && Preceded(db.leases)
    requires i < |db.leases| && SuccessorOf(db.leases, i) == Some(s) && db.leases[s].state == Approved
    ensures Preceded(Activate(db.leases, i, s, now))
    ensures forall at: Time :: Preceded(Stamped(Activate(db.leases, i, s, now), s, at))
  {
    var after := Activate(db.leases, i, s, now);
    ActivationLeaves(db.leases, i, s, now);
    LeavingKeepsPreceded(db.leases, after);
    forall at: Time ensures Preceded(Stamped(after, s, at)) {
      StampingKeepsPreceded(after, s, at);
    }
  }

  function Stamped(leases: seq<Lease>, s: Id, at: Time): seq<Lease>
    requires s < |leases|
  {
    leases[s := leases[s].(approvedAt := if leases[s].approvedAt.Some? then leases[s].approvedAt else Some(at))]
  }

  lemma StampingKeepsPreceded(leases: seq<Lease>, s: Id, at: Time)
    requires s < |leases| && Preceded(leases)
    ensures Preceded(Stamped(leases, s, at))
  {
    var after := Stamped(leases, s, at);
    forall i: Id, t: Id | IsSuccessor(after, i, t) && after[t].state == Approved
      ensures i < |after| && after[i].state in ACTIVE_LEASE_STATES
    {
      assert IsSuccessor(leases, i, t);
    }
  }

  lemma EnsureKeepsPreceded(db: Database, owner: Owner, now: Time)
    requires Inv(db, now) && ApprovedLast(db.leases) && Preceded(db.leases) && EnsureActive(db, owner, now).Ok?
    ensures Preceded(EnsureActive(db, owner, now).value.0.leases)
  {
    EnsureActivates(db, owner, now);
    var latest := LatestStarted(db.leases, owner, now, |db.leases|);
    if !(latest.Some? && db.leases[latest.value].expiresAt > now) {
      var i := Selected(db.leases, owner, now).value;
      var s := SuccessorOf(db.leases, i).value;
      ActivationKeepsPreceded(db, i, s, now);
      assert EnsureActive(db, owner, now).value.0.leases == Stamped(Activate(db.leases, i, s, now), s, now);
    }
  }

  lemma RequestKeepsPreceded(db: Database, owner: Owner, seconds: int, key: string, now: Time)
    requires Inv(db, now) && ApprovedLast(db.leases) && Preceded(db.leases)
    requires RequestRenewal(db, owner, seconds, key, now).Ok?
    ensures Preceded(RequestRenewal(db, owner, seconds, key, now).value.0.leases)
  {
    if FindKey(db.renewals, owner, key, 0).None? {
      RequestMade(db, owner, seconds, key, now);
      EnsureActivates(db, owner, now);
      EnsureKeepsPreceded(db, owner, now);
      var Entitled(ensured, active, _) := Entitlement(db, owner, now).value;
      var l := ensured.leases[active].(state := RenewalPending);
      TouchLeaves(ensured.leases, active, l);
      LeavingKeepsPreceded(ensured.leases, ensured.leases[active := l]);
    }
  }

  lemma DecideKeepsPreceded(db: Database, q: Id, decision: Decision, now: Time)
    requires Inv(db, now) && Renewing(db, now) && Preceded(db.leases) && DecideRenewal(db, q, decision, now).Ok?
    ensures Preceded(DecideRenewal(db, q, decision, now).value.db.leases)
  {
    var i := db.renewals[q].lease;
    var after := DecideRenewal(db, q, decision, now).value.db.leases;
    assert EndsChain(db.leases, i, now);
    var touched := db.leases[i := after[i]];
    TouchLeaves(db.leases, i, after[i]);
    LeavingKeepsPreceded(db.leases, touched);
    if |after| > |db.leases| {
      assert after == touched + [after[|db.leases|]];
      forall j: Id, t: Id | IsSuccessor(after, j, t) && after[t].state == Approved
        ensures j < |after| && after[j].state in ACTIVE_LEASE_STATES
      {
        assert t < |db.leases| ==> IsSuccessor(touched, j, t);
      }
    } else {
      assert after == touched;
    }
  }

  lemma CleanupKeepsPreceded(db: Database, i: Id, reply: WorkerReply, now: Time, finished: Time)
    requires Chains(db.leases) && Preceded(db.leases) && Cleanable(db, i) && SuccessorOf(db.leases, i).None?
    ensures Preceded(Cleanup(db, i, reply, now, finished).leases)
  {
    var after := Cleanup(db, i, reply, now, finished).leases;
    TouchLeaves(db.leases, i, after[i]);
    LeavingKeepsPreceded(db.leases, db.leases[i := after[i]]);
    assert after == db.leases[i := after[i]];
  }

  lemma ScanKeepsPreceded(db: Database, i: Id, now: Time, finished: Time, reply: WorkerReply)
    requires Inv(db, now) && ApprovedLast(db.leases) && Preceded(db.leases)
    ensures Preceded(ScanLease(db, i, now, finished, reply).0.leases)
  {
    var (after, outcome) := ScanLease(db, i, now, finished, reply);
    if outcome == Activated {
      ActivationLeaves(db.leases, i, SuccessorOf(db.leases, i).value, now);
      LeavingKeepsPreceded(db.leases, after.leases);
    } else if outcome.Attempted? {
      CleanupKeepsPreceded(db, i, reply, now, finished);
    }
  }

  lemma OwnersStepKeepsPreceded(db: Database, t: Timed)
    requires Inv(db, t.now) && Renewing(db, t.now) && Preceded(db.leases)
    requires t.step.Use? || t.step.Request? || t.step.AutoRenew?
    ensures Preceded(Apply(db, t).leases)
  {
    match t.step
    case Use(owner) =>
      if EnsureActive(db, owner, t.now).Ok? {
        EnsureKeepsPreceded(db, owner, t.now);
      }
    case Request(owner, seconds, key) =>
      if RequestRenewal(db, owner, seconds, key, t.now).Ok? {
        RequestKeepsPreceded(db, owner, seconds, key, t.now);
      }
    case AutoRenew(owner, seconds, key) =>
      var r := RequestRenewal(db, owner, seconds, key, t.now);
      if r.Ok? {
        RequestKeepsPreceded(db, owner, seconds, key, t.now);
        RequestKeepsInv(db, owner, seconds, key, t.now);
        RequestKeepsRenewing(db, owner, seconds, key, t.now);
        var (after, request) := r.value;
        if DecideRenewal(after, request, Approve, t.now).Ok? {
          DecideKeepsPreceded(after, request, Approve, t.now);
        }
      }
  }

  /** Every transaction keeps it. */
  lemma ApplyKeepsPreceded(db: Database, t: Timed)
    requires Sound(db, t.now) && Renewing(db, t.now) && Preceded(db.leases)
    ensures Preceded(Apply(db, t).leases)
  {
    match t.step
    case Use(owner) => OwnersStepKeepsPreceded(db, t);
    case Request(owner, seconds, key) => OwnersStepKeepsPreceded(db, t);
    case AutoRenew(owner, seconds, key) => OwnersStepKeepsPreceded(db, t);
    case Decide(request, decision) =>
      if DecideRenewal(db, request, decision, t.now).Ok? {
        DecideKeepsPreceded(db, request, decision, t.now);
      }
    case Scan(lease, reply) => ScanKeepsPreceded(db, lease, t.now, t.finished, reply);
    case Recover(lease, reply) => RecoverKeepsPreceded(db, lease, t.now, t.finished, reply);
    case Root(owner, seconds, gpuCount) => RootKeepsPreceded(db, owner, seconds, gpuCount, t.now);
    case Reconcile(limit) =>
  }

  lemma RecoverKeepsPreceded(db: Database, i: Id, now: Time, finished: Time, reply: WorkerReply)
    requires Inv(db, now) && Preceded(db.leases)
    ensures var r := RecoverLease(db, i, now, finished, reply); r.Ok? ==> Preceded(r.value.0.leases)
  {
    if RecoverLease(db, i, now, finished, reply).Ok? {
      CleanupKeepsPreceded(db, i, reply, now, finished);
    }
  }

  lemma RootKeepsPreceded(db: Database, owner: Owner, seconds: int, gpuCount: int, now: Time)
    requires Preceded(db.leases)
    ensures CreateRoot(db, owner, seconds, gpuCount, now).Ok? ==>
              Preceded(CreateRoot(db, owner, seconds, gpuCount, now).value.leases)
  {
    if CreateRoot(db, owner, seconds, gpuCount, now).Ok? {
      var after := CreateRoot(db, owner, seconds, gpuCount, now).value.leases;
      forall i: Id, s: Id | IsSuccessor(after, i, s) && after[s].state == Approved
        ensures i < |after| && after[i].state in ACTIVE_LEASE_STATES
      {
        assert IsSuccessor(db.leases, i, s);
      }
    }
  }

  lemma {:induction false} RunKeepsPreceded(db: Database, trace: seq<Timed>, from: Time)
    requires Sound(db, from) && Renewing(db, from) && Preceded(db.leases) && Ordered(trace, from)
    ensures Preceded(Execute(db, trace).leases)
    decreases |trace|
  {
    if |trace| > 0 {
      var t := trace[0];
      SoundAfter(db, t, from);
      LaterKeepsRenewing(db, from, t.now);
      ApplyKeepsRenewing(db, t);
      ApplyKeepsPreceded(db, t);
      RunKeepsPreceded(Apply(db, t), trace[1..], t.finished);
    }
  }

  /** It holds in every reachable state. */
  lemma ReachableIsPreceded(managed: map<Owner, Managed>, trace: seq<Timed>, from: Time)
    requires Ordered(trace, from)
    ensures Preceded(Execute(Empty(managed), trace).leases)
  {
    RunKeepsPreceded(Empty(managed), trace, from);
  }

  // ----- Nothing is approved twice -----

  lemma RequestNeverApproves(db: Database, owner: Owner, seconds: int, key: string, now: Time, j: Id)
    requires j < |db.leases| && RequestRenewal(db, owner, seconds, key, now).Ok?
    ensures var leases := RequestRenewal(db, owner, seconds, key, now).value.0.leases;
            |leases| == |db.leases| && (leases[j].state == Approved ==> db.leases[j].state == Approved)
  {
  }

  lemma DecideNeverApproves(db: Database, q: Id, decision: Decision, now: Time, j: Id)
    requires j < |db.leases| && DecideRenewal(db, q, decision, now).Ok?
    ensures var leases := DecideRenewal(db, q, decision, now).value.db.leases;
            j < |leases| && (leases[j].state == Approved ==> db.leases[j].state == Approved)
  {
  }

  lemma AutoRenewNeverApproves(db: Database, owner: Owner, seconds: int, key: string, now: Time, j: Id)
    requires j < |db.leases|
    ensures var after := RenewAtOnce(db, owner, seconds, key, now);
            j < |after.leases| && (after.leases[j].state == Approved ==> db.leases[j].state == Approved)
  {
    var r := RequestRenewal(db, owner, seconds, key, now);
    if r.Ok? {
      RequestNeverApproves(db, owner, seconds, key, now, j);
      var (after, request) := r.value;
      if DecideRenewal(after, request, Approve, now).Ok? {
        DecideNeverApproves(after, request, Approve, now, j);
      }
    }
  }

  /** Once a lease has left the approved state no transaction brings it back. */
  lemma ApplyNeverApproves(db: Database, t: Timed, j: Id)
    requires j < |db.leases|
    ensures j < |Apply(db, t).leases|
    ensures Apply(db, t).leases[j].state == Approved ==> db.leases[j].state == Approved
  {
    match t.step
    case AutoRenew(owner, seconds, key) => AutoRenewNeverApproves(db, owner, seconds, key, t.now, j);
    case Root(owner, seconds, gpuCount) =>
    case Use(owner) =>
    case Request(owner, seconds, key) =>
      if RequestRenewal(db, owner, seconds, key, t.now).Ok? {
        RequestNeverApproves(db, owner, seconds, key, t.now, j);
      }
    case Decide(request, decision) =>
      if DecideRenewal(db, request, decision, t.now).Ok? {
        DecideNeverApproves(db, request, decision, t.now, j);
      }
    case Reconcile(limit) =>
    case Scan(lease, reply) =>
    case Recover(lease, reply) =>
  }

  lemma {:induction false} RunNeverApproves(db: Database, trace: seq<Timed>, j: Id)
    requires j < |db.leases| && db.leases[j].state != Approved
    ensures j < |Execute(db, trace).leases| && Execute(db, trace).leases[j].state != Approved
    decreases |trace|
  {
    if |trace| > 0 {
      ApplyNeverApproves(db, trace[0], j);
      RunNeverApproves(Apply(db, trace[0]), trace[1..], j);
    }
  }

  // ----- Activation over runs -----

  /** The transaction scans the lease before `s` or is a use by its owner, within the window of `s`. */
  ghost predicate Wakes(db: Database, t: Timed, s: Id) {
    && s < |db.leases| && db.leases[s].previous.Some? && Covers(db.leases[s], t.now)
    && ((t.step.Scan? && db.leases[s].previous == Some(t.step.lease) && db.leases[s].owner in db.managed)
        || (t.step.Use? && t.step.owner == db.leases[s].owner))
  }

  ghost predicate WokenIn(db: Database, trace: seq<Timed>, s: Id)
    decreases |trace|
  {
    |trace| > 0 && (Wakes(db, trace[0], s) || WokenIn(Apply(db, trace[0]), trace[1..], s))
  }

  lemma WakingActivates(db: Database, t: Timed, s: Id)
    requires Inv(db, t.now) && ApprovedLast(db.leases) && Preceded(db.leases) && Wakes(db, t, s)
    ensures s < |Apply(db, t).leases| && Apply(db, t).leases[s].state != Approved
  {
    var i := db.leases[s].previous.value;
    assert IsSuccessor(db.leases, i, s);
    ApplyNeverApproves(db, t, s);
    if db.leases[s].state == Approved {
      if t.step.Scan? {
        ScanActivates(db, i, s, t.now, t.finished, t.step.reply);
      } else {
        UseActivates(db, i, s, t.now);
      }
    }
  }

  /** A successor whose window sees a scan of the lease before it, or a use, never waits approved again. */
  lemma {:induction false} WokenIsActivated(db: Database, trace: seq<Timed>, from: Time, s: Id)
    requires Sound(db, from) && Renewing(db, from) && Preceded(db.leases) && Ordered(trace, from)
    requires s < |db.leases| && WokenIn(db, trace, s)
    ensures s < |Execute(db, trace).leases| && Execute(db, trace).leases[s].state != Approved
    decreases |trace|
  {
    var t := trace[0];
    SoundAfter(db, t, from);
    LaterKeepsRenewing(db, from, t.now);
    ApplyNeverApproves(db, t, s);
    if Wakes(db, t, s) {
      WakingActivates(db, t, s);
      RunNeverApproves(Apply(db, t), trace[1..], s);
    } else {
      ApplyKeepsRenewing(db, t);
      ApplyKeepsPreceded(db, t);
      WokenIsActivated(Apply(db, t), trace[1..], t.finished, s);
    }
  }

  // ----- Cleanup over runs -----

  /** The end of a chain that has run out is due exactly until it is in the recycle bin, unless it was never
      activated. */
  lemma ChainEndDueExactly(db: Database, e: Id, now: Time)
    requires Inv(db, now) && ApprovedLast(db.leases)
    requires e < |db.leases| && db.leases[e].expiresAt <= now && SuccessorOf(db.leases, e).None?
    ensures Due(db, e, now) <==> db.leases[e].state != Approved && db.leases[e].recycledAt.None?
  {
    assert RecycledTogether(db.leases, db.items, e, now);
  }

  /** In every run: a lease that has run out at the end of its chain is due for cleanup if and only if it was activated
      and no cleanup of it has succeeded yet. */
  lemma DueUntilCleaned(managed: map<Owner, Managed>, trace: seq<Timed>, from: Time, e: Id)
    requires Ordered(trace, from)
    ensures var db, now := Execute(Empty(managed), trace), End(trace, from);
            e < |db.leases| && db.leases[e].expiresAt <= now && SuccessorOf(db.leases, e).None? ==>
              (Due(db, e, now) <==>
               db.leases[e].state != Approved && e !in SuccessfulCleanups(Attempts(Empty(managed), trace)))
  {
    var db, now := Execute(Empty(managed), trace), End(trace, from);
    ReachableIsSound(managed, trace, from);
    ReachableIsRenewing(managed, trace, from);
    BinIsSuccessfulCleanups(managed, trace, from);
    if e < |db.leases| && db.leases[e].expiresAt <= now && SuccessorOf(db.leases, e).None? {
      ChainEndDueExactly(db, e, now);
    }
  }

  /** So cleanup is live: where a successor's window sees a scan of the lease before it, or any use by its owner, the
      successor, once it has run out as the end of its chain, is due until a cleanup of it succeeds. */
  lemma WokenIsDueUntilCleaned(managed: map<Owner, Managed>, first: seq<Timed>, rest: seq<Timed>, from: Time, s: Id)
    requires Ordered(first, from) && Ordered(rest, End(first, from))
    requires s < |Execute(Empty(managed), first).leases| && WokenIn(Execute(Empty(managed), first), rest, s)
    ensures Execute(Empty(managed), first + rest) == Execute(Execute(Empty(managed), first), rest)
    ensures var db, now := Execute(Empty(managed), first + rest), End(first + rest, from);
            && s < |db.leases|
            && (db.leases[s].expiresAt <= now && SuccessorOf(db.leases, s).None? ==>
                  (Due(db, s, now) <==> s !in SuccessfulCleanups(Attempts(Empty(managed), first + rest))))
  {
    RunInParts(Empty(managed), first, rest, from);
    ReachableIsSound(managed, first, from);
    ReachableIsRenewing(managed, first, from);
    ReachableIsPreceded(managed, first, from);
    WokenIsActivated(Execute(Empty(managed), first), rest, End(first, from), s);
    DueUntilCleaned(managed, first + rest, from, s);
  }

  lemma {:induction false} RunInParts(db: Database, first: seq<Timed>, rest: seq<Timed>, from: Time)
    requires Ordered(first, from) && Ordered(rest, End(first, from))
    ensures Execute(db, first + rest) == Execute(Execute(db, first), rest)
    ensures Ordered(first + rest, from)
    decreases |first|
  {
    if |first| == 0 {
      assert first + rest == rest;
    } else {
      assert (first + rest)[1..] == first[1..] + rest;
      RunInParts(Apply(db, first[0]), first[1..], rest, first[0].finished);
    }
  }
}
