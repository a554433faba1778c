/** The batches of the expiry worker: the query that picks them, and which of the due leases they reach. */
module LeaseBatches {
  import opened Options
  import opened LeaseModel
  import opened LeaseInvariant
  import opened LeaseRuns

  // ----- Batches -----

  /** One lease of a batch: the instants and the Worker's answer of its scan. */
  datatype ScanInput = ScanInput(lease: Id, now: Time, finished: Time, reply: WorkerReply)

  function ScanOf(db: Database, scan: ScanInput): (Database, Outcome) {
    ScanLease(db, scan.lease, scan.now, scan.finished, scan.reply)
  }

  datatype Batch = Batch(db: Database, processed: nat, recycled: nat, crashed: bool)

  /** The leases of a batch one after the other; a crash ends it. */
  function RunBatch(db: Database, scans: seq<ScanInput>): Batch
    decreases |scans|
  {
    if |scans| == 0 then Batch(db, 0, 0, false)
    else
      var (after, outcome) := ScanOf(db, scans[0]);
      if outcome.Raises() then Batch(after, 1, 0, true)
      else
        var rest := RunBatch(after, scans[1..]);
        rest.(processed := rest.processed + (if outcome.NotDue? then 0 else 1),
              recycled := rest.recycled + (if outcome.Attempted? && outcome.attempt.succeeded then 1 else 0))
  }

  /** The scans of a batch come one after the other, none before `from`. */
  ghost predicate InScanOrder(scans: seq<ScanInput>, from: Time) {
    |scans| == 0 || (from <= scans[0].now <= scans[0].finished && InScanOrder(scans[1..], scans[0].finished))
  }

  ghost function BatchEnd(scans: seq<ScanInput>, from: Time): Time {
    if |scans| == 0 then from else BatchEnd(scans[1..], scans[0].finished)
  }

  lemma {:induction false} EndIsLater(scans: seq<ScanInput>, from: Time)
    requires InScanOrder(scans, from)
    ensures from <= BatchEnd(scans, from)
  {
    if |scans| > 0 {
      EndIsLater(scans[1..], scans[0].finished);
    }
  }

  lemma {:induction false} BatchCounts(db: Database, scans: seq<ScanInput>)
    ensures RunBatch(db, scans).recycled <= RunBatch(db, scans).processed <= |scans|
    decreases |scans|
  {
    if |scans| > 0 {
      BatchCounts(ScanOf(db, scans[0]).0, scans[1..]);
    }
  }

  /** A batch is a run of scans, so it keeps what every transaction keeps, also when it crashes half-way. */
  lemma {:induction false} BatchKeepsInv(db: Database, scans: seq<ScanInput>, from: Time)
    requires Inv(db, from) && InScanOrder(scans, from)
    ensures Inv(RunBatch(db, scans).db, BatchEnd(scans, from))
    decreases |scans|
  {
    if |scans| > 0 {
      var scan := scans[0];
      LaterKeepsInv(db, from, scan.now);
      ScanKeepsInv(db, scan.lease, scan.now, scan.finished, scan.reply);
      var (after, outcome) := ScanOf(db, scan);
      if outcome.Raises() {
        EndIsLater(scans[1..], scan.finished);
        LaterKeepsInv(after, scan.finished, BatchEnd(scans, from));
      } else {
        BatchKeepsInv(after, scans[1..], scan.finished);
      }
    }
  }

  // ----- The scans that are begun -----

  /** How the scans begun end: all of them, or those up to the first that raises. */
  function Outcomes(db: Database, scans: seq<ScanInput>): seq<Outcome>
    decreases |scans|
  {
    if |scans| == 0 then []
    else
      var (after, outcome) := ScanOf(db, scans[0]);
      if outcome.Raises() then [outcome] else [outcome] + Outcomes(after, scans[1..])
  }

  function Processed(outcomes: seq<Outcome>): nat {
    if |outcomes| == 0 then 0 else (if outcomes[0].NotDue? then 0 else 1) + Processed(outcomes[1..])
  }

  function Recycled(outcomes: seq<Outcome>): nat {
    if |outcomes| == 0 then 0
    else (if outcomes[0].Attempted? && outcomes[0].attempt.succeeded then 1 else 0) + Recycled(outcomes[1..])
  }

  /** The batch counts the scans begun that found their lease due, and those that recycled it, and crashes exactly when
      the last one raised. */
  lemma {:induction false} BatchTellsOutcomes(db: Database, scans: seq<ScanInput>)
    ensures var outcomes := Outcomes(db, scans);
            && RunBatch(db, scans).processed == Processed(outcomes)
            && RunBatch(db, scans).recycled == Recycled(outcomes)
            && (RunBatch(db, scans).crashed <==> |outcomes| > 0 && outcomes[|outcomes| - 1].Raises())
    decreases |scans|
  {
    if |scans| > 0 {
      var (after, outcome) := ScanOf(db, scans[0]);
      if outcome.Raises() {
        assert [outcome][1..] == [];
      } else {
        BatchTellsOutcomes(after, scans[1..]);
        var rest := Outcomes(after, scans[1..]);
        assert ([outcome] + rest)[1..] == rest;
      }
    }
  }

  // ----- Scans of different leases are independent -----

  /** What the query asks of a lease apart from the clock. */
  ghost predicate Candidate(db: Database, k: Id) {
    && k < |db.leases| && db.leases[k].state in DUE_STATES
    && (SuccessorOf(db.leases, k).Some? ==> db.leases[SuccessorOf(db.leases, k).value].state == Approved)
  }

  lemma DueIsCandidate(db: Database, k: Id, now: Time)
    requires Due(db, k, now)
    ensures Candidate(db, k)
  {
  }

  ghost predicate SameRows(a: Database, b: Database, k: Id) {
    && k < |a.leases| == |b.leases| && a.leases[k] == b.leases[k]
    && SuccessorOf(a.leases, k) == SuccessorOf(b.leases, k)
    && (SuccessorOf(a.leases, k).Some? ==>
          a.leases[SuccessorOf(a.leases, k).value] == b.leases[SuccessorOf(a.leases, k).value])
  }

  ghost predicate SameOperation(a: map<Id, Operation>, b: map<Id, Operation>, k: Id) {
    (k in a <==> k in b) && (k in a ==> a[k] == b[k])
  }

  /** As far as a cleanup depends on it: the identity, whether it has a container, and its keys' fingerprints. */
  ghost predicate SameIdentity(a: map<Owner, Managed>, b: map<Owner, Managed>, owner: Owner) {
    && (owner in a <==> owner in b)
    && (owner in a ==> && (a[owner].container.Some? <==> b[owner].container.Some?)
                       && Fingerprints(a[owner].keys) == Fingerprints(b[owner].keys))
  }

  /** Both databases show the same of lease `k`. */
  ghost predicate SameFor(a: Database, b: Database, k: Id) {
    && SameRows(a, b, k) && SameOperation(a.expiry, b.expiry, k)
    && SameIdentity(a.managed, b.managed, a.leases[k].owner)
  }

  lemma SameOutcome(a: Database, b: Database, scan: ScanInput)
    requires SameFor(a, b, scan.lease)
    ensures ScanOf(a, scan).1 == ScanOf(b, scan).1
  {
    var owner := a.leases[scan.lease].owner;
    assert Due(a, scan.lease, scan.now) <==> Due(b, scan.lease, scan.now);
    assert NextAttempt(a.expiry, scan.lease, scan.now) == NextAttempt(b.expiry, scan.lease, scan.now);
    if owner in a.managed {
      assert |Fingerprints(a.managed[owner].keys)| == |a.managed[owner].keys|;
      assert |Fingerprints(b.managed[owner].keys)| == |b.managed[owner].keys|;
      assert CleanupSucceeded(scan.reply, a.managed[owner].keys)
        <==> CleanupSucceeded(scan.reply, b.managed[owner].keys);
    }
  }

  /** A cleanup keeps every identity, its container and its keys' fingerprints. */
  lemma CleanupKeepsIdentities(db: Database, i: Id, reply: WorkerReply, now: Time, finished: Time, owner: Owner)
    requires Cleanable(db, i)
    ensures SameIdentity(db.managed, Cleanup(db, i, reply, now, finished).managed, owner)
  {
    var keys := db.managed[db.leases[i].owner].keys;
    assert Fingerprints(SuspendKeys(keys)) == Fingerprints(keys);
  }

  lemma ScanKeepsIdentities(db: Database, scan: ScanInput, owner: Owner)
    ensures SameIdentity(db.managed, ScanOf(db, scan).0.managed, owner)
  {
    if ScanOf(db, scan).1.Attempted? {
      CleanupKeepsIdentities(db, scan.lease, scan.reply, scan.now, scan.finished, owner);
    }
  }

  lemma ScanRetouches(db: Database, scan: ScanInput)
    ensures Retouched(db.leases, ScanOf(db, scan).0.leases)
  {
  }

  lemma ScanSparesRow(db: Database, scan: ScanInput, k: Id)
    requires k < |db.leases| && k != scan.lease
    requires SuccessorOf(db.leases, scan.lease) == Some(k) ==> db.leases[k].state != Approved
    ensures |ScanOf(db, scan).0.leases| == |db.leases| && ScanOf(db, scan).0.leases[k] == db.leases[k]
  {
  }

  lemma ScanSparesOperation(db: Database, scan: ScanInput, k: Id)
    requires k != scan.lease
    ensures SameOperation(db.expiry, ScanOf(db, scan).0.expiry, k)
  {
  }

  /** The scan of one due lease leaves another due lease as it was. */
  lemma ScanSpares(db: Database, scan: ScanInput, k: Id)
    requires Candidate(db, scan.lease) && Candidate(db, k) && k != scan.lease
    ensures SameFor(db, ScanOf(db, scan).0, k)
  {
    ScanSparesRow(db, scan, k);
    ScanRetouches(db, scan);
    RetouchedSuccessor(db.leases, ScanOf(db, scan).0.leases, k);
    var s := SuccessorOf(db.leases, k);
    if s.Some? {
      ScanSparesRow(db, scan, s.value);
    }
    ScanSparesOperation(db, scan, k);
    ScanKeepsIdentities(db, scan, db.leases[k].owner);
  }

  ghost predicate Candidates(db: Database, scans: seq<ScanInput>) {
    && (forall j :: 0 <= j < |scans| ==> Candidate(db, scans[j].lease))
    && (forall i, j :: 0 <= i < j < |scans| ==> scans[i].lease != scans[j].lease)
  }

  lemma CandidatesStay(db: Database, scans: seq<ScanInput>)
    requires |scans| > 0 && Candidates(db, scans)
    ensures Candidates(ScanOf(db, scans[0]).0, scans[1..])
    ensures forall j :: 1 <= j < |scans| ==> ScanOf(ScanOf(db, scans[0]).0, scans[j]).1 == ScanOf(db, scans[j]).1
  {
    var after, rest := ScanOf(db, scans[0]).0, scans[1..];
    forall j | 1 <= j < |scans| ensures SameFor(db, after, scans[j].lease) && Candidate(after, scans[j].lease) {
      ScanSpares(db, scans[0], scans[j].lease);
    }
    forall j | 1 <= j < |scans| ensures ScanOf(after, scans[j]).1 == ScanOf(db, scans[j]).1 {
      SameOutcome(db, after, scans[j]);
    }
    forall j | 0 <= j < |rest| ensures Candidate(after, rest[j].lease) {
      assert rest[j] == scans[j + 1];
    }
  }

  /** None of the first `k` scans, each made alone on `db`, raises. */
  ghost predicate NoneRaises(db: Database, scans: seq<ScanInput>, k: nat)
    requires k <= |scans|
  {
    forall j :: 0 <= j < k ==> !ScanOf(db, scans[j]).1.Raises()
  }

  lemma NoneRaisesLater(db: Database, after: Database, scans: seq<ScanInput>, k: nat)
    requires 0 < k <= |scans| && !ScanOf(db, scans[0]).1.Raises()
    requires forall j :: 1 <= j < |scans| ==> ScanOf(after, scans[j]).1 == ScanOf(db, scans[j]).1
    ensures NoneRaises(db, scans, k) <==> NoneRaises(after, scans[1..], k - 1)
  {
    var rest := scans[1..];
    if NoneRaises(db, scans, k) {
      forall j | 0 <= j < k - 1 ensures !ScanOf(after, rest[j]).1.Raises() {
        assert rest[j] == scans[j + 1];
      }
    }
    if NoneRaises(after, rest, k - 1) {
      forall j | 0 <= j < k ensures !ScanOf(db, scans[j]).1.Raises() {
        assert j > 0 ==> rest[j - 1] == scans[j];
      }
    }
  }

  /** So each scan begun ends as it would alone, and a scan is begun exactly when none before it raises alone. */
  lemma {:induction false} OutcomesAlone(db: Database, scans: seq<ScanInput>, k: nat)
    requires Candidates(db, scans) && k < |scans|
    ensures k < |Outcomes(db, scans)| <==> NoneRaises(db, scans, k)
    ensures k < |Outcomes(db, scans)| ==> Outcomes(db, scans)[k] == ScanOf(db, scans[k]).1
    decreases |scans|
  {
    var (after, outcome) := ScanOf(db, scans[0]);
    if k > 0 {
      if !outcome.Raises() {
        CandidatesStay(db, scans);
        OutcomesAlone(after, scans[1..], k - 1);
        NoneRaisesLater(db, after, scans, k);
      }
    }
  }

  // ----- The query -----

  /** The due leases in the order of their expiry, equal ones in any order the database likes. */
  ghost predicate IsQueue(db: Database, now: Time, queue: seq<Id>) {
    && (forall k :: 0 <= k < |queue| ==> Due(db, queue[k], now))
    && (forall i: Id :: Due(db, i, now) ==> i in queue)
    && (forall j, k :: 0 <= j < k < |queue| ==> queue[j] != queue[k])
    && (forall j, k :: 0 <= j < k < |queue| ==> db.leases[queue[j]].expiresAt <= db.leases[queue[k]].expiresAt)
  }

  function InsertByExpiry(leases: seq<Lease>, i: Id, queue: seq<Id>): seq<Id>
    requires i < |leases| && forall k :: 0 <= k < |queue| ==> queue[k] < |leases|
  {
    if |queue| == 0 || leases[i].expiresAt < leases[queue[0]].expiresAt then [i] + queue
    else [queue[0]] + InsertByExpiry(leases, i, queue[1..])
  }

  /** The due leases among the first `n`, equal ones by their identifier. */
  function DueBelow(db: Database, now: Time, n: nat): (queue: seq<Id>)
    requires n <= |db.leases|
    ensures forall i: Id :: i in queue <==> i < n && Due(db, i, now)
    ensures InOrder(db.leases, queue)
  {
    if n == 0 then []
    else
      var rest := DueBelow(db, now, n - 1);
      if !Due(db, n - 1, now) then rest
      else
        InsertKeepsOrder(db.leases, n - 1, rest);
        InsertByExpiry(db.leases, n - 1, rest)
  }

  ghost predicate InOrder(leases: seq<Lease>, queue: seq<Id>) {
    && (forall k :: 0 <= k < |queue| ==> queue[k] < |leases|)
    && (forall j, k :: 0 <= j < k < |queue| ==> queue[j] != queue[k])
    && (forall j, k :: 0 <= j < k < |queue| ==> leases[queue[j]].expiresAt <= leases[queue[k]].expiresAt)
  }

  lemma {:induction false} InsertKeepsOrder(leases: seq<Lease>, i: Id, queue: seq<Id>)
    requires i < |leases| && InOrder(leases, queue) && i !in queue
    ensures forall x :: x in InsertByExpiry(leases, i, queue) <==> x == i || x in queue
    ensures InOrder(leases, InsertByExpiry(leases, i, queue))
  {
    if |queue| > 0 && leases[i].expiresAt >= leases[queue[0]].expiresAt {
      var rest := queue[1..];
      assert queue == [queue[0]] + rest;
      InsertKeepsOrder(leases, i, rest);
      OrderedFront(leases, queue[0], InsertByExpiry(leases, i, rest));
    } else {
      OrderedFront(leases, i, queue);
    }
  }

  lemma OrderedFront(leases: seq<Lease>, i: Id, queue: seq<Id>)
    requires i < |leases| && InOrder(leases, queue) && i !in queue
    requires forall x :: x in queue ==> leases[i].expiresAt <= leases[x].expiresAt
    ensures InOrder(leases, [i] + queue)
  {
    var all := [i] + queue;
    forall k | 0 < k < |all| ensures all[k] in queue && all[k] == queue[k - 1] {
    }
  }

  function DueQueue(db: Database, now: Time): seq<Id> {
    DueBelow(db, now, |db.leases|)
  }

  lemma DueQueueIsQueue(db: Database, now: Time)
    ensures IsQueue(db, now, DueQueue(db, now))
  {
    var queue := DueQueue(db, now);
    forall k | 0 <= k < |queue| ensures Due(db, queue[k], now) {
      assert queue[k] in queue;
    }
  }

  function Take(queue: seq<Id>, limit: nat): seq<Id> {
    if |queue| <= limit then queue else queue[..limit]
  }

  // ----- What a batch reaches -----

  /** The clock and the Worker's answer when a lease of the batch has its turn. */
  datatype Moment = Moment(now: Time, finished: Time, reply: WorkerReply)

  function InputOf(lease: Id, m: Moment): ScanInput {
    ScanInput(lease, m.now, m.finished, m.reply)
  }

  function ScansOf(ids: seq<Id>, moments: seq<Moment>): (scans: seq<ScanInput>)
    requires |ids| <= |moments|
    ensures |scans| == |ids| && forall k :: 0 <= k < |ids| ==> scans[k] == InputOf(ids[k], moments[k])
  {
    if |ids| == 0 then [] else [InputOf(ids[0], moments[0])] + ScansOf(ids[1..], moments[1..])
  }

  /** A batch over the first `limit` leases of the queue begins the scan of the one at place `k`. */
  ghost predicate Reaches(db: Database, queue: seq<Id>, limit: nat, moments: seq<Moment>, k: nat)
    requires limit <= |moments|
  {
    k < |Outcomes(db, ScansOf(Take(queue, limit), moments))|
  }

  /** The scan at place `j` raises, made alone on the database that the query saw. */
  predicate RaisesAlone(db: Database, queue: seq<Id>, moments: seq<Moment>, j: nat)
    requires j < |queue| && j < |moments|
  {
    ScanOf(db, InputOf(queue[j], moments[j])).1.Raises()
  }

  /** A due lease is scanned exactly when fewer than `limit` due leases come before it and none of their scans raises;
      its scan ends as it would alone. */
  lemma BatchReachesExactly(db: Database, now: Time, queue: seq<Id>, limit: nat, moments: seq<Moment>, k: nat)
    requires IsQueue(db, now, queue) && limit <= |moments| && k < |queue|
    ensures Reaches(db, queue, limit, moments, k) <==>
            k < limit && forall j :: 0 <= j < k ==> !RaisesAlone(db, queue, moments, j)
    ensures Reaches(db, queue, limit, moments, k) ==>
              Outcomes(db, ScansOf(Take(queue, limit), moments))[k] == ScanOf(db, InputOf(queue[k], moments[k])).1
  {
    var scans := ScansOf(Take(queue, limit), moments);
    OutcomesWithin(db, scans);
    if k < limit {
      QueueIsCandidates(db, now, queue, limit, moments);
      OutcomesAlone(db, scans, k);
      RaisesInQueue(db, queue, limit, moments, k);
    }
  }

  lemma QueueIsCandidates(db: Database, now: Time, queue: seq<Id>, limit: nat, moments: seq<Moment>)
    requires IsQueue(db, now, queue) && limit <= |moments|
    ensures Candidates(db, ScansOf(Take(queue, limit), moments))
  {
    var scans := ScansOf(Take(queue, limit), moments);
    forall j | 0 <= j < |scans| ensures scans[j].lease == queue[j] && Candidate(db, scans[j].lease) {
      DueIsCandidate(db, queue[j], now);
    }
  }

  lemma RaisesInQueue(db: Database, queue: seq<Id>, limit: nat, moments: seq<Moment>, k: nat)
    requires limit <= |moments| && k < |queue| && k < limit
    ensures k < |ScansOf(Take(queue, limit), moments)|
    ensures NoneRaises(db, ScansOf(Take(queue, limit), moments), k) <==>
            forall j :: 0 <= j < k ==> !RaisesAlone(db, queue, moments, j)
  {
    var scans := ScansOf(Take(queue, limit), moments);
    forall j | 0 <= j < k ensures ScanOf(db, scans[j]).1.Raises() <==> RaisesAlone(db, queue, moments, j) {
      assert scans[j] == InputOf(queue[j], moments[j]);
    }
  }

  lemma {:induction false} OutcomesWithin(db: Database, scans: seq<ScanInput>)
    ensures |Outcomes(db, scans)| <= |scans|
    decreases |scans|
  {
    if |scans| > 0 {
      OutcomesWithin(ScanOf(db, scans[0]).0, scans[1..]);
    }
  }

  /** When the scan of a due lease raises: its identity is gone, or its cleanup may be attempted now and cannot start or
      gets an answer that cannot be decoded. */
  lemma ScanRaisesExactly(db: Database, scan: ScanInput)
    requires Due(db, scan.lease, scan.now)
    ensures ScanOf(db, scan).1.Raises() <==>
            || db.leases[scan.lease].owner !in db.managed
            || (&& SuccessorOf(db.leases, scan.lease).None? && NextAttempt(db.expiry, scan.lease, scan.now).Some?
                && (!Cleanable(db, scan.lease) || scan.reply.Undecodable?))
  {
  }
}
