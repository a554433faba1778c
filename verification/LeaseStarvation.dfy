/** Due leases that the batches never reach: what keeps them back, for how long, and runs that lead there. */
module LeaseStarvation {
  import opened Options
  import opened Counting
  import opened LeaseModel
  import opened LeaseInvariant
  import opened LeaseRuns
  import opened LeaseHistory
  import opened LeaseLimits
  import opened LeaseGuarantees
  import opened LeaseBatches

  // ----- Lapsed leases stay due -----

  /** A lease that has run out as the end of its chain and is due. */
  ghost predicate Lapsed(db: Database, i: Id, now: Time) {
    Due(db, i, now) && SuccessorOf(db.leases, i).None?
  }

  predicate AttemptsIt(db: Database, t: Timed, i: Id) {
    AttemptOf(db, t).Some? && AttemptOf(db, t).value.lease == i
  }

  lemma UnattemptedGainsNoItem(db: Database, t: Timed, i: Id)
    requires Sound(db, t.now) && t.now <= t.finished && !AttemptsIt(db, t, i) && !HasItem(db.items, i)
    ensures !HasItem(Apply(db, t).items, i)
  {
    ApplyBins(db, t);
    BinnedHas(db.items, i);
    BinnedHas(Apply(db, t).items, i);
  }

  /** Only an attempt on it ends that. */
  lemma LapsedStays(db: Database, t: Timed, i: Id)
    requires Sound(db, t.now) && t.now <= t.finished && Lapsed(db, i, t.now) && !AttemptsIt(db, t, i)
    ensures Lapsed(Apply(db, t), i, t.finished)
    ensures SameTerms(db.leases[i], Apply(db, t).leases[i])
  {
    var after := Apply(db, t);
    ApplyFinishes(db, t, i);
    ApplyKeepsInv(db, t);
    assert RecycledTogether(db.leases, db.items, i, t.now);
    UnattemptedGainsNoItem(db, t, i);
    assert RecycledTogether(after.leases, after.items, i, t.finished);
    if SuccessorOf(after.leases, i).Some? {
      LapsedGainsNoSuccessor(db, t, i, SuccessorOf(after.leases, i).value);
    }
  }

  // ----- What keeps the batches back -----

  /** A due lease whose cleanup was never attempted and cannot start: its owner has no container or no retained key. */
  ghost predicate Blocking(db: Database, i: Id, now: Time) {
    Lapsed(db, i, now) && i !in db.expiry && !Cleanable(db, i)
  }

  /** A due lease left to manual review: its operation admits no further automatic attempt. */
  ghost predicate InReview(db: Database, i: Id, now: Time) {
    && Lapsed(db, i, now) && db.leases[i].owner in db.managed && i in db.expiry
    && db.expiry[i].status == FailedOperation && db.expiry[i].evidence.Some? && db.expiry[i].evidence.value.manualReview
  }

  /** The scan of a blocking lease raises, that of a lease in review changes nothing; either is due again. */
  lemma ScansOfStuck(db: Database, scan: ScanInput, now: Time)
    requires now <= scan.now
    ensures Blocking(db, scan.lease, now) ==> ScanOf(db, scan) == (db, Crashed)
    ensures InReview(db, scan.lease, now) ==> ScanOf(db, scan) == (db, Waiting)
  {
  }

  lemma RecoverKeepsIdentities(db: Database, i: Id, now: Time, finished: Time, reply: WorkerReply, owner: Owner)
    requires RecoverLease(db, i, now, finished, reply).Ok?
    ensures SameIdentity(db.managed, RecoverLease(db, i, now, finished, reply).value.0.managed, owner)
  {
    CleanupKeepsIdentities(db, i, reply, now, finished, owner);
  }

  /** No transaction adds or removes an identity, a container or a key. */
  lemma ApplyKeepsIdentities(db: Database, t: Timed, owner: Owner)
    ensures SameIdentity(db.managed, Apply(db, t).managed, owner)
  {
    if t.step.Scan? {
      ScanKeepsIdentities(db, ScanInput(t.step.lease, t.now, t.finished, t.step.reply), owner);
    } else {
      OtherTablesOnlyByCleanup(db, t);
      if t.step.Recover? && RecoverLease(db, t.step.lease, t.now, t.finished, t.step.reply).Ok? {
        RecoverKeepsIdentities(db, t.step.lease, t.now, t.finished, t.step.reply, owner);
      }
    }
  }

  lemma IdentityDecides(a: Database, b: Database, i: Id)
    requires i < |a.leases| && i < |b.leases| && a.leases[i].owner == b.leases[i].owner
    requires SameIdentity(a.managed, b.managed, a.leases[i].owner)
    ensures Cleanable(a, i) <==> Cleanable(b, i)
  {
    var owner := a.leases[i].owner;
    if owner in a.managed {
      assert |Fingerprints(a.managed[owner].keys)| == |a.managed[owner].keys|;
      assert |Fingerprints(b.managed[owner].keys)| == |b.managed[owner].keys|;
    }
  }

  lemma UnattemptedKeepsOperation(db: Database, t: Timed, i: Id)
    requires !AttemptsIt(db, t, i)
    ensures SameOperation(db.expiry, Apply(db, t).expiry, i)
  {
    if !t.step.Scan? {
      OtherTablesOnlyByCleanup(db, t);
    }
  }

  lemma StuckIsNotAttempted(db: Database, t: Timed, i: Id)
    requires Blocking(db, i, t.now) || (InReview(db, i, t.now) && !(t.step.Recover? && t.step.lease == i))
    ensures !AttemptsIt(db, t, i)
  {
  }

  lemma BlockingStays(db: Database, t: Timed, i: Id)
    requires Sound(db, t.now) && t.now <= t.finished && Blocking(db, i, t.now)
    ensures Blocking(Apply(db, t), i, t.finished) && SameTerms(db.leases[i], Apply(db, t).leases[i])
  {
    StuckIsNotAttempted(db, t, i);
    LapsedStays(db, t, i);
    UnattemptedKeepsOperation(db, t, i);
    ApplyKeepsIdentities(db, t, db.leases[i].owner);
    IdentityDecides(db, Apply(db, t), i);
  }

  lemma ReviewStays(db: Database, t: Timed, i: Id)
    requires Sound(db, t.now) && t.now <= t.finished && InReview(db, i, t.now)
    requires !(t.step.Recover? && t.step.lease == i)
    ensures InReview(Apply(db, t), i, t.finished) && SameTerms(db.leases[i], Apply(db, t).leases[i])
  {
    StuckIsNotAttempted(db, t, i);
    LapsedStays(db, t, i);
    UnattemptedKeepsOperation(db, t, i);
    ApplyKeepsIdentities(db, t, db.leases[i].owner);
  }

  lemma LaterKeepsSound(db: Database, now: Time, later: Time)
    requires Sound(db, now) && now <= later
    ensures Sound(db, later)
  {
    LaterKeepsInv(db, now, later);
  }

  /** No run ends it: a blocking lease blocks forever. */
  lemma {:induction false} BlockingForever(db: Database, trace: seq<Timed>, from: Time, i: Id)
    requires Sound(db, from) && Ordered(trace, from) && Blocking(db, i, from)
    ensures Blocking(Execute(db, trace), i, End(trace, from))
    ensures SameTerms(db.leases[i], Execute(db, trace).leases[i])
    decreases |trace|
  {
    if |trace| > 0 {
      var t := trace[0];
      LaterKeepsSound(db, from, t.now);
      BlockingStays(db, t, i);
      ApplyKeepsInv(db, t);
      ApplyKeepsSettled(db, t);
      BlockingForever(Apply(db, t), trace[1..], t.finished, i);
    }
  }

  ghost predicate Recovers(trace: seq<Timed>, i: Id) {
    exists k :: 0 <= k < |trace| && trace[k].step.Recover? && trace[k].step.lease == i
  }

  /** Only the operator's recovery ends a review. */
  lemma {:induction false} InReviewForever(db: Database, trace: seq<Timed>, from: Time, i: Id)
    requires Sound(db, from) && Ordered(trace, from) && InReview(db, i, from) && !Recovers(trace, i)
    ensures InReview(Execute(db, trace), i, End(trace, from))
    ensures SameTerms(db.leases[i], Execute(db, trace).leases[i])
    decreases |trace|
  {
    if |trace| > 0 {
      var t := trace[0];
      LaterKeepsSound(db, from, t.now);
      assert !(trace[0].step.Recover? && trace[0].step.lease == i);
      ReviewStays(db, t, i);
      ApplyKeepsInv(db, t);
      ApplyKeepsSettled(db, t);
      forall k | 0 <= k < |trace[1..]| ensures !(trace[1..][k].step.Recover? && trace[1..][k].step.lease == i) {
        assert trace[1..][k] == trace[k + 1];
      }
      InReviewForever(Apply(db, t), trace[1..], t.finished, i);
    }
  }

  // ----- Leases that no batch reaches -----

  /** The batch begins the scan of this lease. */
  ghost predicate Scans(db: Database, queue: seq<Id>, limit: nat, moments: seq<Moment>, v: Id)
    requires limit <= |moments|
  {
    exists k: nat :: k < |queue| && queue[k] == v && Reaches(db, queue, limit, moments, k)
  }

  ghost predicate NoEarlierThan(moments: seq<Moment>, now: Time) {
    forall j :: 0 <= j < |moments| ==> now <= moments[j].now
  }

  /** A batch scans nothing that expires after a blocking lease. */
  lemma BlockedBatch(db: Database, now: Time, queue: seq<Id>, limit: nat, moments: seq<Moment>, i: Id, v: Id)
    requires IsQueue(db, now, queue) && limit <= |moments| && NoEarlierThan(moments, now)
    requires Blocking(db, i, now) && v < |db.leases| && db.leases[i].expiresAt < db.leases[v].expiresAt
    ensures !Scans(db, queue, limit, moments, v)
  {
    if k: nat :| k < |queue| && queue[k] == v && Reaches(db, queue, limit, moments, k) {
      var j :| 0 <= j < |queue| && queue[j] == i;
      assert j < k;
      BatchReachesExactly(db, now, queue, limit, moments, k);
      ScansOfStuck(db, InputOf(queue[j], moments[j]), now);
      assert RaisesAlone(db, queue, moments, j);
    }
  }

  /** Nor, where `limit` leases or more wait for review, one that expires after them all. */
  lemma FilledBatch(db: Database, now: Time, queue: seq<Id>, limit: nat, moments: seq<Moment>, waiting: set<Id>, v: Id)
    requires IsQueue(db, now, queue) && limit <= |moments| && limit <= |waiting| && v < |db.leases|
    requires forall i :: i in waiting ==> Due(db, i, now) && db.leases[i].expiresAt < db.leases[v].expiresAt
    ensures !Scans(db, queue, limit, moments, v)
  {
    if k: nat :| k < |queue| && queue[k] == v && Reaches(db, queue, limit, moments, k) {
      BatchReachesExactly(db, now, queue, limit, moments, k);
      WaitingComeFirst(db, now, queue, waiting, k);
    }
  }

  lemma WaitingComeFirst(db: Database, now: Time, queue: seq<Id>, waiting: set<Id>, k: nat)
    requires IsQueue(db, now, queue) && k < |queue|
    requires forall i :: i in waiting ==> Due(db, i, now) && db.leases[i].expiresAt < db.leases[queue[k]].expiresAt
    ensures |waiting| <= k
  {
    forall i | i in waiting ensures i in queue[..k] {
      var j :| 0 <= j < |queue| && queue[j] == i;
      assert j < k;
      assert queue[..k][j] == i;
    }
    ListedAtMost(waiting, queue[..k]);
  }

  /** After a run, the requests overdue closed, a batch at a later instant: what it may scan. */
  ghost predicate MayScan(db: Database, now: Time, v: Id, limit: nat) {
    exists closing: nat, queue, moments :: ScansAfterClosing(db, now, closing, queue, limit, moments, v)
  }

  ghost predicate ScansAfterClosing(db: Database, now: Time, closing: nat, queue: seq<Id>, limit: nat,
                                    moments: seq<Moment>, v: Id) {
    var queried := ReconcileRequests(db, now, closing);
    && IsQueue(queried, now, queue) && limit <= |moments| && NoEarlierThan(moments, now)
    && Scans(queried, queue, limit, moments, v)
  }

  /** In every run from a database with a blocking lease, no batch, however long it may be, ever scans a lease that
      expires later. */
  lemma NothingAfterBlocking(db: Database, trace: seq<Timed>, from: Time, i: Id, v: Id, now: Time, limit: nat)
    requires Sound(db, from) && Ordered(trace, from) && Blocking(db, i, from) && End(trace, from) <= now
    requires v < |Execute(db, trace).leases| && db.leases[i].expiresAt < Execute(db, trace).leases[v].expiresAt
    ensures !MayScan(Execute(db, trace), now, v, limit)
  {
    var after := Execute(db, trace);
    BlockingForever(db, trace, from, i);
    forall closing: nat, queue, moments ensures !ScansAfterClosing(after, now, closing, queue, limit, moments, v) {
      var queried := ReconcileRequests(after, now, closing);
      if ScansAfterClosing(after, now, closing, queue, limit, moments, v) {
        assert Blocking(queried, i, now);
        BlockedBatch(queried, now, queue, limit, moments, i, v);
      }
    }
  }

  /** Nor, where `limit` leases wait for review and none of them is recovered, one that expires after them all. */
  lemma NothingAfterReviews(db: Database, trace: seq<Timed>, from: Time, waiting: set<Id>, v: Id, now: Time, limit: nat)
    requires Sound(db, from) && Ordered(trace, from) && End(trace, from) <= now && limit <= |waiting|
    requires v < |Execute(db, trace).leases|
    requires forall i :: i in waiting ==> InReview(db, i, from) && !Recovers(trace, i)
                                          && db.leases[i].expiresAt < Execute(db, trace).leases[v].expiresAt
    ensures !MayScan(Execute(db, trace), now, v, limit)
  {
    var after := Execute(db, trace);
    forall i | i in waiting ensures Due(after, i, now) && after.leases[i].expiresAt < after.leases[v].expiresAt {
      InReviewForever(db, trace, from, i);
    }
    forall closing: nat, queue, moments ensures !ScansAfterClosing(after, now, closing, queue, limit, moments, v) {
      var queried := ReconcileRequests(after, now, closing);
      if ScansAfterClosing(after, now, closing, queue, limit, moments, v) {
        FilledBatch(queried, now, queue, limit, moments, waiting, v);
      }
    }
  }

  // ----- Runs that lead there -----

  const HOUR: Time := 3600 * SECOND

  /** The first leases of the owners 0 to `n` - 1, an hour each, one microsecond after the other. */
  function Roots(n: nat): seq<Timed> {
    if n == 0 then [] else Roots(n - 1) + [Timed(Root(n - 1, 3600, 1), n - 1, n - 1)]
  }

  function RootLeases(n: nat): (leases: seq<Lease>)
    ensures |leases| == n
    ensures forall k :: 0 <= k < n ==> leases[k] == NewLease(k, Active, 1, k, 3600, None, k)
  {
    if n == 0 then [] else RootLeases(n - 1) + [NewLease(n - 1, Active, 1, n - 1, 3600, None, n - 1)]
  }

  lemma {:induction false} RootsRun(managed: map<Owner, Managed>, n: nat)
    ensures Execute(Empty(managed), Roots(n)) == Empty(managed).(leases := RootLeases(n))
    ensures Ordered(Roots(n), 0) && End(Roots(n), 0) == if n == 0 then 0 else n - 1
  {
    if n > 0 {
      RootsRun(managed, n - 1);
      var t := Timed(Root(n - 1, 3600, 1), n - 1, n - 1);
      RunThen(Empty(managed), Roots(n - 1), t, 0);
    }
  }

  lemma RunThen(db: Database, trace: seq<Timed>, t: Timed, from: Time)
    requires Ordered(trace, from) && End(trace, from) <= t.now <= t.finished
    ensures Execute(db, trace + [t]) == Apply(Execute(db, trace), t)
    ensures Ordered(trace + [t], from) && End(trace + [t], from) == t.finished
    decreases |trace|
  {
    if |trace| == 0 {
      assert trace + [t] == [t] && [t][1..] == [];
      assert Execute(Apply(db, t), []) == Apply(db, t);
    } else {
      assert (trace + [t])[1..] == trace[1..] + [t];
      RunThen(Apply(db, trace[0]), trace[1..], t, trace[0].finished);
    }
  }

  lemma RootsLapse(managed: map<Owner, Managed>, n: nat, k: nat, now: Time)
    requires k < n && HOUR + k <= now
    ensures Lapsed(Empty(managed).(leases := RootLeases(n)), k, now)
    ensures RootLeases(n)[k].expiresAt == HOUR + k && RootLeases(n)[k].owner == k
  {
    assert forall j :: 0 <= j < n ==> RootLeases(n)[j].previous.None?;
  }

  /** Two owners, the first of them without a key: when both leases have run out the first blocks, and the second, due
      and ready to be cleaned up, is never scanned by any batch. */
  lemma KeylessOwnerBlocks(keyless: Managed, other: Managed, rest: seq<Timed>, now: Time, limit: nat)
    requires keyless.keys == [] && other.container.Some? && |other.keys| > 0
    requires Ordered(rest, HOUR + 1) && End(rest, HOUR + 1) <= now
    ensures var db := Execute(Empty(map[0 := keyless, 1 := other]), Roots(2));
            && Blocking(db, 0, HOUR + 1) && Lapsed(db, 1, HOUR + 1) && Cleanable(db, 1) && 1 !in db.expiry
            && !MayScan(Execute(db, rest), now, 1, limit)
  {
    var managed := map[0 := keyless, 1 := other];
    var db := Execute(Empty(managed), Roots(2));
    RootsRun(managed, 2);
    RootsLapse(managed, 2, 0, HOUR + 1);
    RootsLapse(managed, 2, 1, HOUR + 1);
    ReachableIsSound(managed, Roots(2), 0);
    LaterKeepsSound(db, 1, HOUR + 1);
    RowsStay(db, rest, HOUR + 1, 1);
    NothingAfterBlocking(db, rest, HOUR + 1, 0, 1, now, limit);
  }

  /** A run keeps every lease's expiry. */
  lemma {:induction false} RowsStay(db: Database, trace: seq<Timed>, from: Time, i: Id)
    requires Sound(db, from) && Ordered(trace, from) && i < |db.leases|
    ensures i < |Execute(db, trace).leases| && Execute(db, trace).leases[i].expiresAt == db.leases[i].expiresAt
    decreases |trace|
  {
    if |trace| > 0 {
      var t := trace[0];
      LaterKeepsSound(db, from, t.now);
      ApplyGrows(db, t);
      assert SameTerms(db.leases[i], Apply(db, t).leases[..|db.leases|][i]);
      ApplyKeepsInv(db, t);
      ApplyKeepsSettled(db, t);
      RowsStay(Apply(db, t), trace[1..], t.finished, i);
    }
  }

  /** The owners 0 to `n`, all alike. */
  function Everyone(n: nat, m: Managed): (managed: map<Owner, Managed>)
    ensures forall k: Owner :: k <= n ==> k in managed && managed[k] == m
  {
    if n == 0 then map[0 := m] else Everyone(n - 1, m)[n := m]
  }

  /** One failed scan each of the leases 0 to `n` - 1, all at one instant. */
  function Failures(n: nat, at: Time, reply: WorkerReply): seq<Timed> {
    if n == 0 then [] else Failures(n - 1, at, reply) + [Timed(Scan(n - 1, reply), at, at)]
  }

  /** An answer that fails the cleanup for good. */
  predicate Refuses(reply: WorkerReply) {
    reply.Reply? && reply.status != "SUCCEEDED" && !reply.cleanupRetryable
  }

  ghost predicate Fresh(db: Database, k: Id, at: Time) {
    Lapsed(db, k, at) && k !in db.expiry && Cleanable(db, k)
  }

  /** The first `j` of the leases 0 to `n` are in review, the others were never attempted. */
  ghost predicate Stage(db: Database, n: nat, j: nat, at: Time) {
    && |db.leases| == n + 1
    && (forall k: nat :: k <= n ==> db.leases[k].expiresAt == HOUR + k)
    && (forall k: nat :: k < j ==> InReview(db, k, at))
    && (forall k: nat :: j <= k <= n ==> Fresh(db, k, at))
  }

  lemma FirstStage(n: nat, m: Managed, at: Time)
    requires m.container.Some? && |m.keys| > 0 && HOUR + n <= at
    ensures Stage(Empty(Everyone(n, m)).(leases := RootLeases(n + 1)), n, 0, at)
  {
    var db := Empty(Everyone(n, m)).(leases := RootLeases(n + 1));
    forall k: nat | k <= n ensures Fresh(db, k, at) && db.leases[k].expiresAt == HOUR + k {
      RootsLapse(Everyone(n, m), n + 1, k, at);
    }
  }

  lemma RefusedIsInReview(db: Database, k: Id, at: Time, reply: WorkerReply)
    requires Fresh(db, k, at) && Refuses(reply)
    ensures InReview(ScanLease(db, k, at, at, reply).0, k, at)
  {
    var after := ScanLease(db, k, at, at, reply).0;
    ScanRetouches(db, ScanInput(k, at, at, reply));
    RetouchedSuccessor(db.leases, after.leases, k);
  }

  lemma SameKeepsStuck(a: Database, b: Database, k: Id, at: Time)
    requires SameFor(a, b, k)
    ensures InReview(a, k, at) ==> InReview(b, k, at)
    ensures Fresh(a, k, at) ==> Fresh(b, k, at)
  {
    IdentityDecides(a, b, k);
  }

  lemma NextStage(db: Database, n: nat, j: nat, at: Time, reply: WorkerReply)
    requires Stage(db, n, j, at) && j < n && Refuses(reply)
    ensures Stage(Apply(db, Timed(Scan(j, reply), at, at)), n, j + 1, at)
  {
    var scan := ScanInput(j, at, at, reply);
    var after := ScanOf(db, scan).0;
    ScanRetouches(db, scan);
    RefusedIsInReview(db, j, at, reply);
    forall k: nat | k <= n && k != j
      ensures k < j ==> InReview(after, k, at)
      ensures k > j ==> Fresh(after, k, at)
    {
      assert k < j ==> InReview(db, k, at);
      assert k > j ==> Fresh(db, k, at);
      ScanSpares(db, scan, k);
      SameKeepsStuck(db, after, k, at);
    }
    forall k: nat | k <= n ensures after.leases[k].expiresAt == HOUR + k {
      assert SameTerms(db.leases[k], after.leases[k]);
    }
  }

  lemma FailsOnce(db: Database, trace: seq<Timed>, n: nat, j: nat, at: Time, reply: WorkerReply)
    requires Stage(Execute(db, trace), n, j, at) && Ordered(trace, at) && End(trace, at) == at
    requires j < n && Refuses(reply)
    ensures var more := trace + [Timed(Scan(j, reply), at, at)];
            Stage(Execute(db, more), n, j + 1, at) && Ordered(more, at) && End(more, at) == at
  {
    RunThen(db, trace, Timed(Scan(j, reply), at, at), at);
    NextStage(Execute(db, trace), n, j, at, reply);
  }

  lemma {:induction false} FailuresRun(db: Database, n: nat, j: nat, at: Time, reply: WorkerReply)
    requires Stage(db, n, 0, at) && j <= n && Refuses(reply)
    ensures Stage(Execute(db, Failures(j, at, reply)), n, j, at)
    ensures Ordered(Failures(j, at, reply), at) && End(Failures(j, at, reply), at) == at
  {
    if j == 0 {
      NothingFailed(db, at, reply);
    } else {
      FailuresRun(db, n, j - 1, at, reply);
      var before := Failures(j - 1, at, reply);
      FailsOnce(db, before, n, j - 1, at, reply);
      OneMoreFailure(j, at, reply);
    }
  }

  lemma NothingFailed(db: Database, at: Time, reply: WorkerReply)
    ensures Execute(db, Failures(0, at, reply)) == db
    ensures Ordered(Failures(0, at, reply), at) && End(Failures(0, at, reply), at) == at
  {
  }

  lemma OneMoreFailure(j: nat, at: Time, reply: WorkerReply)
    requires j > 0
    ensures Failures(j, at, reply) == Failures(j - 1, at, reply) + [Timed(Scan(j - 1, reply), at, at)]
  {
  }

  /** For every `n`: `n` + 1 owners with an hour each, and a refused cleanup of each of the first `n`. Then the last
      lease, due and never attempted, is scanned by no batch of `n` leases or fewer, over every run without a recovery
      of the others. */
  lemma ReviewsStarve(n: nat, m: Managed, reply: WorkerReply, rest: seq<Timed>, now: Time, limit: nat)
    requires m.container.Some? && |m.keys| > 0 && Refuses(reply) && limit <= n
    requires Ordered(rest, HOUR + n) && End(rest, HOUR + n) <= now
    requires forall k :: 0 <= k < n ==> !Recovers(rest, k)
    ensures var created := Execute(Empty(Everyone(n, m)), Roots(n + 1));
            var db := Execute(created, Failures(n, HOUR + n, reply));
            Fresh(db, n, HOUR + n) && !MayScan(Execute(db, rest), now, n, limit)
  {
    var managed, at := Everyone(n, m), HOUR + n;
    var created := Execute(Empty(managed), Roots(n + 1));
    RootsRun(managed, n + 1);
    FirstStage(n, m, at);
    ReachableIsSound(managed, Roots(n + 1), 0);
    LaterKeepsSound(created, n, at);
    FailuresRun(created, n, n, at, reply);
    RunKeepsSound(created, Failures(n, at, reply), at);
    StageStarves(Execute(created, Failures(n, at, reply)), n, at, rest, now, limit);
  }

  lemma StageStarves(db: Database, n: nat, at: Time, rest: seq<Timed>, now: Time, limit: nat)
    requires Sound(db, at) && Stage(db, n, n, at) && limit <= n
    requires Ordered(rest, at) && End(rest, at) <= now
    requires forall k :: 0 <= k < n ==> !Recovers(rest, k)
    ensures !MayScan(Execute(db, rest), now, n, limit)
  {
    var waiting := Below(n);
    RowsStay(db, rest, at, n);
    forall i | i in waiting
      ensures InReview(db, i, at) && db.leases[i].expiresAt < Execute(db, rest).leases[n].expiresAt
    {
    }
    NothingAfterReviews(db, rest, at, waiting, n, now, limit);
  }
}
