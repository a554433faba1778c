/** When each transaction on leases succeeds, which error it meets otherwise, and what a scan does, from the rows. */
module LeaseOutcomes {
  import opened Options
  import opened LeaseModel
  import opened LeaseInvariant
  import opened LeaseRuns
  import opened LeaseHistory
  import opened LeaseViews
  import opened LeaseLimits
  import opened LeaseRenewals
  import opened LeaseLiveness
  import opened LeaseTerms
  import opened LeaseRecords

  // ----- Looking up the active lease -----

  /** A lease of the owner in an active state that has begun. */
  ghost predicate Begun(l: Lease, owner: Owner, now: Time) {
    l.owner == owner && l.state in {Active, RenewalWindow, RenewalPending} && l.startsAt <= now
  }

  /** Lease `s` follows lease `i` and waits, approved, for its window, in which `now` lies. */
  ghost predicate WaitsBehind(leases: seq<Lease>, i: Id, s: Id, now: Time) {
    && s < |leases| && leases[s].previous == Some(i) && leases[s].state == Approved
    && leases[s].startsAt <= now < leases[s].expiresAt
  }

  lemma LatestBegun(leases: seq<Lease>, owner: Owner, now: Time)
    ensures var latest := LatestStarted(leases, owner, now, |leases|);
            (latest.Some? <==> exists i :: 0 <= i < |leases| && Begun(leases[i], owner, now))
  {
    var latest := LatestStarted(leases, owner, now, |leases|);
    if latest.Some? {
      assert Begun(leases[latest.value], owner, now);
    }
    forall i | 0 <= i < |leases| && Begun(leases[i], owner, now) ensures StartedAndActive(leases[i], owner, now) {
    }
  }

  /** What looking up an owner's active lease writes: nothing where the lease covers the present; otherwise the lease
      that has run out is expired as of now, its waiting successor is active, and nothing else changes. */
  lemma ActivationRecords(db: Database, owner: Owner, now: Time)
    requires EnsureActive(db, owner, now).Ok?
    ensures var (after, a) := EnsureActive(db, owner, now).value;
            && a < |db.leases|
            && (after == db ==> Begun(db.leases[a], owner, now) && now < db.leases[a].expiresAt)
            && (after != db ==>
                  exists i: Id :: Hands(db.leases, i, a, after.leases, now) && after == db.(leases := after.leases)
                              && db.leases[i].owner == owner && db.leases[i].expiresAt <= now
                              && db.leases[i].state in {Active, RenewalWindow, RenewalPending})
  {
    var latest := LatestStarted(db.leases, owner, now, |db.leases|);
    if !(latest.Some? && db.leases[latest.value].expiresAt > now) {
      var (after, a) := EnsureActive(db, owner, now).value;
      var i := Selected(db.leases, owner, now).value;
      assert after.leases[a].state == Active;
      assert Hands(db.leases, i, a, after.leases, now);
    }
  }

  /** Lease `i` is expired as of now and its successor `s`, which was waiting, is active, approved now at the latest. */
  ghost predicate Hands(leases: seq<Lease>, i: Id, s: Id, after: seq<Lease>, now: Time) {
    && i < |leases| && i != s && WaitsBehind(leases, i, s, now)
    && after == leases[i := leases[i].(state := Expired, expiredAt := Some(now))]
                      [s := leases[s].(state := Active, approvedAt := if leases[s].approvedAt.Some?
                                                                       then leases[s].approvedAt else Some(now))]
  }

  // ----- What holds in every run -----

  /** An approved lease follows another: a first lease is active at once. */
  ghost predicate ApprovedFollow(leases: seq<Lease>) {
    forall j :: 0 <= j < |leases| && leases[j].state == Approved ==> leases[j].previous.Some?
  }

  lemma DecidedLeaseFollows(db: Database, q: Id, decision: Decision, now: Time)
    requires DecideRenewal(db, q, decision, now).Ok?
    ensures Follows(db.leases, DecideRenewal(db, q, decision, now).value.db.leases)
  {
  }

  lemma RequestAddsNone(db: Database, owner: Owner, seconds: int, key: string, now: Time)
    requires RequestRenewal(db, owner, seconds, key, now).Ok?
    ensures |RequestRenewal(db, owner, seconds, key, now).value.0.leases| == |db.leases|
  {
  }

  lemma RenewedLeaseFollows(db: Database, owner: Owner, seconds: int, key: string, now: Time)
    ensures Follows(db.leases, RenewAtOnce(db, owner, seconds, key, now).leases)
  {
    var r := RequestRenewal(db, owner, seconds, key, now);
    if r.Ok? {
      RequestAddsNone(db, owner, seconds, key, now);
      if DecideRenewal(r.value.0, r.value.1, Approve, now).Ok? {
        DecidedLeaseFollows(r.value.0, r.value.1, Approve, now);
      }
    }
  }

  /** A further lease follows another or is active. */
  ghost predicate Follows(before: seq<Lease>, after: seq<Lease>) {
    |after| > |before| ==> after[|before|].previous.Some? || after[|before|].state == Active
  }

  lemma OthersAddNone(db: Database, t: Timed)
    requires t.step.Use? || t.step.Reconcile? || t.step.Scan? || t.step.Recover?
    ensures |Apply(db, t).leases| == |db.leases|
  {
  }

  lemma NewLeaseFollows(db: Database, t: Timed)
    ensures Follows(db.leases, Apply(db, t).leases)
  {
    match t.step
    case Decide(q, decision) =>
      if DecideRenewal(db, q, decision, t.now).Ok? {
        DecidedLeaseFollows(db, q, decision, t.now);
      }
    case AutoRenew(owner, seconds, key) => RenewedLeaseFollows(db, owner, seconds, key, t.now);
    case Request(owner, seconds, key) =>
      if RequestRenewal(db, owner, seconds, key, t.now).Ok? {
        RequestAddsNone(db, owner, seconds, key, t.now);
      }
    case Root(owner, seconds, gpuCount) =>
    case Use(owner) => OthersAddNone(db, t);
    case Reconcile(limit) => OthersAddNone(db, t);
    case Scan(lease, reply) => OthersAddNone(db, t);
    case Recover(lease, reply) => OthersAddNone(db, t);
  }

  lemma GrowthKeepsFollowing(a: seq<Lease>, b: seq<Lease>, now: Time)
    requires ApprovedFollow(a) && GrowsAfterLive(a, b, now) && Follows(a, b)
    requires forall j :: 0 <= j < |a| && b[j].state == Approved ==> a[j].state == Approved
    ensures ApprovedFollow(b)
  {
    forall j | 0 <= j < |b| && b[j].state == Approved ensures b[j].previous.Some? {
      if j < |a| {
        assert SameTerms(a[j], b[..|a|][j]);
      }
    }
  }

  lemma ApplyKeepsFollowing(db: Database, t: Timed)
    requires Inv(db, t.now) && ApprovedFollow(db.leases)
    ensures ApprovedFollow(Apply(db, t).leases)
  {
    var after := Apply(db, t).leases;
    ApplyGrows(db, t);
    NewLeaseFollows(db, t);
    forall j | 0 <= j < |db.leases| && after[j].state == Approved ensures db.leases[j].state == Approved {
      ApplyNeverApproves(db, t, j);
    }
    GrowthKeepsFollowing(db.leases, after, t.now);
  }

  /** What the runs keep that the laws below need. */
  ghost predicate Regular(db: Database, now: Time) {
    && Sound(db, now) && Renewing(db, now) && Preceded(db.leases)
    && ApprovedFollow(db.leases) && AllStamped(db.leases, now)
  }

  lemma {:induction false} RunKeepsFollowing(db: Database, trace: seq<Timed>, from: Time)
    requires Sound(db, from) && Ordered(trace, from) && ApprovedFollow(db.leases)
    ensures ApprovedFollow(Execute(db, trace).leases)
    decreases |trace|
  {
    if |trace| > 0 {
      var t := trace[0];
      LaterKeepsInv(db, from, t.now);
      ApplyKeepsFollowing(db, t);
      ApplyKeepsInv(db, t);
      ApplyKeepsSettled(db, t);
      RunKeepsFollowing(Apply(db, t), trace[1..], t.finished);
    }
  }

  lemma ReachableIsRegular(managed: map<Owner, Managed>, trace: seq<Timed>, from: Time, now: Time)
    requires Ordered(trace, from) && End(trace, from) <= now
    ensures Regular(Execute(Empty(managed), trace), now)
  {
    var db, end := Execute(Empty(managed), trace), End(trace, from);
    ReachableIsSound(managed, trace, from);
    ReachableIsSound(managed, [], from);
    ReachableIsRenewing(managed, trace, from);
    ReachableIsPreceded(managed, trace, from);
    RunKeepsFollowing(Empty(managed), trace, from);
    RunKeepsTruthful(Empty(managed), trace, from);
    LaterKeepsInv(db, end, now);
    LaterKeepsRenewing(db, end, now);
    LaterStamps(db.leases, end, now);
  }

  // ----- The active lease is the one that covers the present -----

  /** A lease of the owner whose period holds the present. */
  ghost predicate CoversNow(leases: seq<Lease>, owner: Owner, c: Id, now: Time) {
    c < |leases| && leases[c].owner == owner && leases[c].startsAt <= now < leases[c].expiresAt
  }

  lemma CoveringIsFound(db: Database, owner: Owner, now: Time, c: Id)
    requires Regular(db, now) && CoversNow(db.leases, owner, c, now)
    ensures EnsureActive(db, owner, now).Ok? && EnsureActive(db, owner, now).value.1 == c
  {
    assert LeaseRecords.Stamped(db.leases[c], now) && UsualState(db.leases[c].state);
    if db.leases[c].state == Approved {
      UseActivates(db, db.leases[c].previous.value, c, now);
    } else {
      CoveringIsLatest(db.leases, c, now);
    }
  }

  /** In every run, at any time, an owner has an active lease exactly when one of the owner's leases covers the present,
      and it is that one. */
  lemma ActiveExactlyWhileCovered(managed: map<Owner, Managed>, trace: seq<Timed>, from: Time, now: Time,
                                  owner: Owner, c: Id)
    requires Ordered(trace, from) && End(trace, from) <= now
    ensures var db := Execute(Empty(managed), trace);
            CoversNow(db.leases, owner, c, now) <==>
            EnsureActive(db, owner, now).Ok? && EnsureActive(db, owner, now).value.1 == c
  {
    var db := Execute(Empty(managed), trace);
    ReachableIsRegular(managed, trace, from, now);
    if CoversNow(db.leases, owner, c, now) {
      CoveringIsFound(db, owner, now, c);
    } else if EnsureActive(db, owner, now).Ok? {
      EnsureActivates(db, owner, now);
    }
  }

  /** In every run, at any time, an owner may use the environment exactly while one of the owner's leases covers the
      present, the environment is active and the container is there. */
  lemma ContextAllowedExactly(managed: map<Owner, Managed>, trace: seq<Timed>, from: Time, now: Time, owner: Owner)
    requires Ordered(trace, from) && End(trace, from) <= now
    ensures var db := Execute(Empty(managed), trace);
            SelfContextAllowed(db, owner, now) <==>
            && owner in db.managed && db.managed[owner].environment == EnvironmentActive
            && db.managed[owner].container.Some? && exists c: Id :: CoversNow(db.leases, owner, c, now)
  {
    var db := Execute(Empty(managed), trace);
    ReachableIsRegular(managed, trace, from, now);
    if EnsureActive(db, owner, now).Ok? {
      EnsureActivates(db, owner, now);
      assert CoversNow(db.leases, owner, EnsureActive(db, owner, now).value.1, now);
    }
    forall c: Id | CoversNow(db.leases, owner, c, now) ensures Entitlement(db, owner, now).Ok? {
      EntitlementEnds(db, owner, now, c);
    }
  }

  // ----- The end of the entitlement, and requests -----

  ghost predicate ApprovedBehind(leases: seq<Lease>, c: Id, j: Id) {
    j < |leases| && leases[j].previous == Some(c) && leases[j].state == Approved
  }

  /** The entitlement of the covering lease ends with the approved lease behind it, or with itself if there is none. */
  ghost predicate EndsWith(leases: seq<Lease>, c: Id, e: Id) {
    e < |leases| && (ApprovedBehind(leases, c, e) || (e == c && forall j: Id :: !ApprovedBehind(leases, c, j)))
  }

  lemma ApprovedBehindExactly(leases: seq<Lease>, c: Id)
    requires Chains(leases) && c < |leases|
    ensures var s := SuccessorOf(leases, c);
            && (NothingApprovedAfter(leases, c) <==> forall j: Id :: !ApprovedBehind(leases, c, j))
            && (!NothingApprovedAfter(leases, c) ==> ApprovedBehind(leases, c, s.value))
            && forall j: Id :: ApprovedBehind(leases, c, j) ==> s == Some(j)
  {
    forall j: Id | ApprovedBehind(leases, c, j) ensures SuccessorOf(leases, c) == Some(j) {
      SuccessorUnique(leases, c, j);
    }
    if !NothingApprovedAfter(leases, c) {
      assert ApprovedBehind(leases, c, SuccessorOf(leases, c).value);
    }
  }

  lemma EndIsUnique(leases: seq<Lease>, c: Id, e: Id, f: Id)
    requires Chains(leases) && c < |leases| && EndsWith(leases, c, e) && EndsWith(leases, c, f)
    ensures e == f
  {
    ApprovedBehindExactly(leases, c);
  }

  lemma HandingKeepsBehind(leases: seq<Lease>, i: Id, c: Id, after: seq<Lease>, now: Time, j: Id)
    requires Chains(leases) && Hands(leases, i, c, after, now)
    ensures ApprovedBehind(after, c, j) <==> ApprovedBehind(leases, c, j)
  {
    assert Linked(leases, c) && i < c;
    if j < |leases| && leases[j].previous == Some(c) {
      assert Linked(leases, j);
    }
  }

  lemma ActivationKeepsEnd(db: Database, owner: Owner, now: Time, e: Id)
    requires Inv(db, now) && EnsureActive(db, owner, now).Ok?
    ensures var (after, c) := EnsureActive(db, owner, now).value;
            && (EndsWith(after.leases, c, e) ==> EndsWith(db.leases, c, e))
            && |after.leases| == |db.leases|
            && (e < |db.leases| ==> after.leases[e].expiresAt == db.leases[e].expiresAt)
  {
    var (after, c) := EnsureActive(db, owner, now).value;
    ActivationRecords(db, owner, now);
    if after != db {
      var i: Id :| Hands(db.leases, i, c, after.leases, now);
      forall j: Id ensures ApprovedBehind(after.leases, c, j) <==> ApprovedBehind(db.leases, c, j) {
        HandingKeepsBehind(db.leases, i, c, after.leases, now, j);
      }
    }
  }

  lemma EntitlementEnds(db: Database, owner: Owner, now: Time, c: Id)
    requires Regular(db, now) && CoversNow(db.leases, owner, c, now)
    ensures Entitlement(db, owner, now).Ok?
    ensures var e := Entitlement(db, owner, now).value;
            && e.active == c && EndsWith(db.leases, c, e.terminal)
            && e.db.leases[e.terminal].expiresAt == db.leases[e.terminal].expiresAt
  {
    CoveringIsFound(db, owner, now, c);
    EnsureActivates(db, owner, now);
    EnsureKeepsRenewing(db, owner, now);
    var after := EnsureActive(db, owner, now).value.0;
    AtMostOneHop(after.leases, c);
    ApprovedBehindExactly(after.leases, c);
    ActivationKeepsEnd(db, owner, now, Entitlement(db, owner, now).value.terminal);
  }

  ghost predicate LeftUntil(leases: seq<Lease>, owner: Owner, now: Time, c: Id, e: Id, least: Time) {
    CoversNow(leases, owner, c, now) && EndsWith(leases, c, e) && leases[e].expiresAt - now >= least
  }

  /** One of the owner's leases covers the present, and its entitlement lasts at least so long. */
  ghost predicate Left(leases: seq<Lease>, owner: Owner, now: Time, least: Time) {
    exists c: Id, e: Id :: LeftUntil(leases, owner, now, c, e, least)
  }

  lemma LeftExactly(db: Database, owner: Owner, now: Time, least: Time)
    requires Regular(db, now)
    ensures var r := Entitlement(db, owner, now);
            && (r.Err? ==> r.error == LeaseInactive)
            && (Left(db.leases, owner, now, least) <==>
                  r.Ok? && r.value.db.leases[r.value.terminal].expiresAt - now >= least)
  {
    var r := Entitlement(db, owner, now);
    if Left(db.leases, owner, now, least) {
      var c: Id, e: Id :| LeftUntil(db.leases, owner, now, c, e, least);
      EntitlementEnds(db, owner, now, c);
      EndIsUnique(db.leases, c, e, r.value.terminal);
    }
    if EnsureActive(db, owner, now).Ok? {
      EnsureActivates(db, owner, now);
      var c := EnsureActive(db, owner, now).value.1;
      assert CoversNow(db.leases, owner, c, now);
      EntitlementEnds(db, owner, now, c);
      assert r.value.db.leases[r.value.terminal].expiresAt - now >= least ==>
          LeftUntil(db.leases, owner, now, c, r.value.terminal, least);
    }
  }

  lemma RequestFindsExactly(db: Database, owner: Owner, seconds: int, key: string, now: Time)
    requires Regular(db, now) && 1 <= seconds <= 345600
    requires forall a :: 0 <= a < |db.renewals| && db.renewals[a].owner == owner ==> db.renewals[a].key != key
    ensures RequestAnswers(db, owner, now, RequestRenewal(db, owner, seconds, key, now))
  {
    LeftExactly(db, owner, now, 1_000_000);
    LeftExactly(db, owner, now, 86_401_000_000);
    if Entitlement(db, owner, now).Ok? {
      WholeSecondsExactly(db, owner, now);
    }
  }

  lemma WholeSecondsExactly(db: Database, owner: Owner, now: Time)
    requires Entitlement(db, owner, now).Ok?
    ensures var e := Entitlement(db, owner, now).value;
            var left := e.db.leases[e.terminal].expiresAt - now;
            && (WholeSeconds(left) <= 0 <==> left < 1_000_000)
            && (WholeSeconds(left) > RENEWAL_WINDOW_SECONDS <==> left >= 86_401_000_000)
  {
  }

  /** The answer to a new request, told from the leases and requests alone. */
  ghost predicate RequestAnswers(db: Database, owner: Owner, now: Time, r: Result<(Database, Id)>) {
    var pending :=
      exists a :: 0 <= a < |db.renewals| && db.renewals[a].owner == owner && db.renewals[a].state == Pending;
    if !Left(db.leases, owner, now, 1_000_000) then r == Err(LeaseExpiredRestoreRequired)
    else if Left(db.leases, owner, now, 86_401_000_000) then r == Err(RenewalWindowNotOpen)
    else if pending then r == Err(RenewalAlreadyPending)
    else r.Ok?
  }

  ghost predicate KeyIsKnown(db: Database, owner: Owner, key: string) {
    exists a :: 0 <= a < |db.renewals| && db.renewals[a].owner == owner && db.renewals[a].key == key
  }

  /** The answer to a request made again: the same request, or a conflict. */
  ghost predicate AnswersAgain(db: Database, owner: Owner, seconds: int, key: string, a: Id,
                               r: Result<(Database, Id)>) {
    && a < |db.renewals| && db.renewals[a].owner == owner && db.renewals[a].key == key
    && r == if db.renewals[a].durationSeconds == seconds then Ok((db, a)) else Err(IdempotencyConflict)
  }

  /** In every run, at any time: a request with a legal duration and a new key is made exactly when a lease of the owner
      covers the present, its entitlement ends in one second to 24 hours, and no request of the owner is pending; each
      other case has its own error. A known key answers with its request, or a conflict where the durations differ. */
  lemma RequestAnswersExactly(managed: map<Owner, Managed>, trace: seq<Timed>, from: Time, now: Time, owner: Owner,
                              seconds: int, key: string)
    requires Ordered(trace, from) && End(trace, from) <= now
    ensures var db := Execute(Empty(managed), trace);
            var r := RequestRenewal(db, owner, seconds, key, now);
            && (seconds < 1 || 345600 < seconds ==> r == Err(LeaseDurationExceeded))
            && (1 <= seconds <= 345600 ==>
                  if KeyIsKnown(db, owner, key) then exists a: Id :: AnswersAgain(db, owner, seconds, key, a, r)
                  else RequestAnswers(db, owner, now, r))
  {
    var db := Execute(Empty(managed), trace);
    ReachableIsRegular(managed, trace, from, now);
    var known := FindKey(db.renewals, owner, key, 0);
    if 1 <= seconds <= 345600 && known.Some? {
      assert AnswersAgain(db, owner, seconds, key, known.value, RequestRenewal(db, owner, seconds, key, now));
    } else if 1 <= seconds <= 345600 {
      RequestFindsExactly(db, owner, seconds, key, now);
    }
  }

  // ----- Decisions -----

  /** The answer to a decision, told from the request and its lease. */
  lemma DecisionAnswers(db: Database, q: Id, decision: Decision, now: Time)
    ensures var r := DecideRenewal(db, q, decision, now);
            if q >= |db.renewals| then r == Err(RenewalRequestNotFound)
            else if db.renewals[q].state != Pending then r == Err(RenewalAlreadyDecided)
            else if db.renewals[q].lease >= |db.leases| then r == Err(LeaseNotFound)
            else if db.leases[db.renewals[q].lease].expiresAt <= now then r.Ok? && r.value.ClosedExpired?
            else if decision == Reject then r.Ok? && r.value.Decided? && r.value.successor == None
            else if decision == OtherDecision then r == Err(InvalidDecision)
            else if exists j :: 0 <= j < |db.leases| && db.leases[j].previous == Some(db.renewals[q].lease) then
              r == Err(IntegrityError)
            else r.Ok? && r.value.Decided? && r.value.successor == Some(|db.leases|)
  {
  }

  // ----- Scans -----

  ghost predicate HasWaiting(leases: seq<Lease>, i: Id, now: Time) {
    exists j: Id :: WaitsBehind(leases, i, j, now)
  }

  ghost predicate Unfollowed(leases: seq<Lease>, i: Id) {
    forall j :: 0 <= j < |leases| ==> leases[j].previous != Some(i)
  }

  /** In a due state, run out, not recycled, and followed by no lease, or by one that waits for its window: now. */
  ghost predicate LapsedUnclaimed(leases: seq<Lease>, i: Id, now: Time) {
    && i < |leases| && leases[i].state in {Active, RenewalWindow, RenewalPending, Expired}
    && leases[i].expiresAt <= now && leases[i].recycledAt == None
    && (Unfollowed(leases, i) || HasWaiting(leases, i, now))
  }

  /** What a scan of lease `i` finds, told from the rows. */
  ghost predicate ScanFinds(db: Database, i: Id, now: Time, finished: Time, reply: WorkerReply, outcome: Outcome) {
    if !LapsedUnclaimed(db.leases, i, now) then outcome == NotDue
    else if db.leases[i].owner !in db.managed then outcome == Crashed
    else if HasWaiting(db.leases, i, now) then outcome == Activated
    else if NextAttempt(db.expiry, i, now) == None then outcome == Waiting
    else
      var m := db.managed[db.leases[i].owner];
      if m.container == None || m.keys == [] then outcome == Crashed
      else if reply == Undecodable then outcome == Lost(Attempt(i, Automatic, now, finished, false))
      else outcome == Attempted(Attempt(i, Automatic, now, finished, ConfirmsAll(reply, m.keys)))
  }

  lemma WaitingExactly(leases: seq<Lease>, i: Id, now: Time)
    requires Chains(leases)
    ensures HasWaiting(leases, i, now) <==> Activatable(leases, i, now)
    ensures Unfollowed(leases, i) <==> SuccessorOf(leases, i) == None
  {
    if HasWaiting(leases, i, now) {
      var j: Id :| WaitsBehind(leases, i, j, now);
      SuccessorUnique(leases, i, j);
    }
    if Activatable(leases, i, now) {
      assert WaitsBehind(leases, i, SuccessorOf(leases, i).value, now);
    }
  }

  /** In every state that the runs reach, and any with sound chains: which outcome a scan has. */
  lemma ScanFindsExactly(db: Database, i: Id, now: Time, finished: Time, reply: WorkerReply)
    requires Chains(db.leases)
    ensures ScanFinds(db, i, now, finished, reply, ScanLease(db, i, now, finished, reply).1)
  {
    WaitingExactly(db.leases, i, now);
    if Cleanable(db, i) {
      CleanupSettles(db, i, reply, now, finished);
    }
  }

  lemma AttemptScanWrites(db: Database, i: Id, now: Time, finished: Time, reply: WorkerReply)
    requires ScanLease(db, i, now, finished, reply).1.Attempted?
    ensures var (after, outcome) := ScanLease(db, i, now, finished, reply);
            i < |db.leases| && AttemptWrites(db, i, now, finished, reply, outcome.attempt.succeeded, after)
  {
  }

  /** What a scan writes: an activation hands over to the waiting lease, an attempt puts the lease into the bin as of
      its end or leaves it expired, and records its number; no other outcome writes anything. */
  lemma ScanWrites(db: Database, i: Id, now: Time, finished: Time, reply: WorkerReply)
    requires Chains(db.leases)
    ensures var (after, outcome) := ScanLease(db, i, now, finished, reply);
            && (!outcome.Activated? && !outcome.Attempted? ==> after == db)
            && (outcome.Activated? ==>
                  exists j: Id :: HandsOver(db.leases, i, j, after.leases, now) && after == db.(leases := after.leases))
            && (outcome.Attempted? ==>
                  i < |db.leases| && AttemptWrites(db, i, now, finished, reply, outcome.attempt.succeeded, after))
  {
    var (after, outcome) := ScanLease(db, i, now, finished, reply);
    WaitingExactly(db.leases, i, now);
    if outcome.Activated? {
      var s := SuccessorOf(db.leases, i).value;
      SuccessorUnique(db.leases, i, s);
      assert HandsOver(db.leases, i, s, after.leases, now);
    } else if outcome.Attempted? {
      AttemptScanWrites(db, i, now, finished, reply);
    }
  }

  ghost predicate HandsOver(leases: seq<Lease>, i: Id, s: Id, after: seq<Lease>, now: Time) {
    && i < |leases| && i != s && s < |leases| && leases[s].previous == Some(i) && leases[s].state == Approved
    && after == leases[i := leases[i].(state := Expired, expiredAt := Some(now))][s := leases[s].(state := Active)]
  }

  /** The rows of an attempt on lease `i`, apart from the identity. */
  ghost predicate AttemptWrites(db: Database, i: Id, now: Time, finished: Time, reply: WorkerReply, succeeded: bool,
                                after: Database)
    requires i < |db.leases|
  {
    var l := db.leases[i];
    var since := if l.expiredAt.Some? then l.expiredAt else Some(now);
    var n := if i in db.expiry && db.expiry[i].evidence.Some? then db.expiry[i].evidence.value.attemptCount + 1 else 1;
    && after.renewals == db.renewals
    && after.leases == db.leases[i := l.(state := if succeeded then RecycleBin else Expired, expiredAt := since,
                                         recycledAt := if succeeded then Some(finished) else l.recycledAt)]
    && after.items == db.items + (if succeeded && !HasItem(db.items, i)
                                  then [RecycleItem(l.owner, i, l.expiresAt, finished)] else [])
    && after.expiry == db.expiry[i := Operation(if succeeded then Succeeded else FailedOperation,
                                                Some(EvidenceOf(n, reply, finished, succeeded)))]
  }

  /** A second attempt after a minute and a third after five more, where the Worker gave no answer or calls its failure
      retryable; otherwise a person has to look. */
  ghost function EvidenceOf(n: int, reply: WorkerReply, finished: Time, succeeded: bool): Evidence {
    var retryable := reply == NoReply || (reply.Reply? && reply.cleanupRetryable);
    if succeeded then Evidence(Automatic, n, None, false)
    else if retryable && n == 1 then Evidence(Automatic, n, Some(finished + 60_000_000), false)
    else if retryable && n == 2 then Evidence(Automatic, n, Some(finished + 300_000_000), false)
    else Evidence(Automatic, n, None, true)
  }

  // ----- Recovery by an operator -----

  /** The answer to an operator's recovery of lease `i`, told from the rows. */
  ghost predicate RecoveryAnswers(db: Database, i: Id, now: Time, finished: Time, reply: WorkerReply,
                                  r: Result<(Database, Attempt)>) {
    if i >= |db.leases| then r == Err(LeaseNotFound)
    else if db.leases[i].expiresAt > now || db.leases[i].recycledAt != None then r == Err(RecoveryTargetInvalid)
    else if !Unfollowed(db.leases, i) then r == Err(RecoverySuperseded)
    else if i !in db.expiry || db.expiry[i].status != FailedOperation then r == Err(RecoveryFailureNotFound)
    else if exists k :: 0 <= k < |db.items| && db.items[k].lease == i then r == Err(AlreadyRecycled)
    else
      var owner := db.leases[i].owner;
      if owner !in db.managed || db.managed[owner].container == None || db.managed[owner].keys == [] then
        r == Err(RecoveryTargetInvalid)
      else if reply == Undecodable then r == Err(ReplyUndecodable)
      else r.Ok? && r.value.1 == Attempt(i, OwnerRecovery, now, finished, ConfirmsAll(reply, db.managed[owner].keys))
  }

  lemma RecoveryAnswersExactly(db: Database, i: Id, now: Time, finished: Time, reply: WorkerReply)
    requires Chains(db.leases)
    ensures RecoveryAnswers(db, i, now, finished, reply, RecoverLease(db, i, now, finished, reply))
  {
    WaitingExactly(db.leases, i, now);
    if Cleanable(db, i) {
      CleanupSettles(db, i, reply, now, finished);
    }
  }
}
