/** What cleanups leave behind: keys, container and environment after each attempt, and time stamps, items and keys over
    every run. */
module LeaseRecords {
  import opened Options
  import opened LeaseModel
  import opened LeaseInvariant
  import opened LeaseRuns
  import opened LeaseHistory
  import opened LeaseLimits
  import opened LeaseGuarantees
  import opened LeaseViews
  import opened LeaseTerms

  // ----- One attempt -----

  /** The fingerprints of the keys, each as often as it occurs. */
  function Prints(keys: seq<SshKey>): multiset<string> {
    if |keys| == 0 then multiset{} else Prints(keys[..|keys| - 1]) + multiset{keys[|keys| - 1].fingerprint}
  }

  lemma {:induction false} PrintsAreFingerprints(keys: seq<SshKey>)
    ensures Prints(keys) == multiset(Fingerprints(keys))
    decreases |keys|
  {
    if |keys| > 0 {
      var front := keys[..|keys| - 1];
      PrintsAreFingerprints(front);
      assert Fingerprints(keys) == Fingerprints(front) + [keys[|keys| - 1].fingerprint];
    } else {
      assert Fingerprints(keys) == [];
    }
  }

  /** The reply says that exactly these keys were suspended. */
  ghost predicate Confirms(reply: WorkerReply, keys: seq<SshKey>) {
    && reply.Reply? && reply.keyState == "SUSPENDED_BY_RECYCLE"
    && reply.fingerprints.Some? && multiset(reply.fingerprints.value) == Prints(keys)
  }

  /** The reply says that all is done. */
  ghost predicate ConfirmsAll(reply: WorkerReply, keys: seq<SshKey>) {
    && Confirms(reply, keys)
    && reply.status == "SUCCEEDED" && reply.containerState == "STOPPED" && reply.containerGpu == "NONE"
    && reply.allocationJob == None && reply.allocationUuid == None && reply.dataPreserved
  }

  /** The same keys, every one suspended. */
  ghost predicate AllSuspended(before: seq<SshKey>, after: seq<SshKey>) {
    && |after| == |before|
    && forall k :: 0 <= k < |before| ==> after[k] == SshKey(before[k].fingerprint, SuspendedByRecycle)
  }

  /** What an attempt makes of an identity. */
  ghost predicate SettledBy(before: Managed, reply: WorkerReply, succeeded: bool, after: Managed) {
    && before.container.Some? && after.container.Some?
    && var was, left := before.container.value, after.container.value;
       if succeeded then
         && after.environment == EnvironmentRecycled && AllSuspended(before.keys, after.keys)
         && left.desired == PowerStopped && left.observed == PowerStopped
         && left.allocationJob == None && left.allocationUuid == None
       else
         && after.environment == EnvironmentSuspended
         && (if Confirms(reply, before.keys) then AllSuspended(before.keys, after.keys) else after.keys == before.keys)
         && left.desired == PowerStopped
         && (if reply.Reply? && reply.allocationRevoked
             then left.observed == PowerStopped && left.allocationJob == None && left.allocationUuid == None
             else left.observed == was.observed && left.allocationJob == was.allocationJob
                  && left.allocationUuid == was.allocationUuid)
  }

  lemma CleanupSettles(db: Database, i: Id, reply: WorkerReply, now: Time, finished: Time)
    requires Cleanable(db, i)
    ensures var owner := db.leases[i].owner;
            var after := Cleanup(db, i, reply, now, finished).managed;
            && (CleanupSucceeded(reply, db.managed[owner].keys) <==> ConfirmsAll(reply, db.managed[owner].keys))
            && after.Keys == db.managed.Keys
            && SettledBy(db.managed[owner], reply, ConfirmsAll(reply, db.managed[owner].keys), after[owner])
            && forall o :: o in db.managed && o != owner ==> after[o] == db.managed[o]
  {
    PrintsAreFingerprints(db.managed[db.leases[i].owner].keys);
  }

  lemma AttemptIsCleanupOf(db: Database, t: Timed)
    requires AttemptOf(db, t).Some?
    ensures (t.step.Scan? || t.step.Recover?) && Cleanable(db, AttemptOf(db, t).value.lease)
    ensures var a := AttemptOf(db, t).value;
            && Apply(db, t).managed == Cleanup(db, a.lease, t.step.reply, t.now, t.finished).managed
            && a.succeeded == CleanupSucceeded(t.step.reply, db.managed[db.leases[a.lease].owner].keys)
  {
  }

  /** Every attempt succeeds exactly when the reply confirms everything, and then every key is suspended; a failed one
      suspends the keys exactly when the reply confirms these, and gives up the allocation exactly when it says so. */
  lemma AttemptSettlesIdentity(db: Database, t: Timed)
    requires AttemptOf(db, t).Some?
    ensures (t.step.Scan? || t.step.Recover?) && Cleanable(db, AttemptOf(db, t).value.lease)
    ensures var a := AttemptOf(db, t).value;
            var owner := db.leases[a.lease].owner;
            var before, after := db.managed[owner], Apply(db, t).managed;
            && (a.succeeded <==> ConfirmsAll(t.step.reply, before.keys))
            && after.Keys == db.managed.Keys && SettledBy(before, t.step.reply, a.succeeded, after[owner])
            && forall o :: o in db.managed && o != owner ==> after[o] == db.managed[o]
  {
    AttemptIsCleanupOf(db, t);
    CleanupSettles(db, AttemptOf(db, t).value.lease, t.step.reply, t.now, t.finished);
  }

  lemma NoAttemptKeepsManaged(db: Database, t: Timed)
    requires AttemptOf(db, t).None?
    ensures Apply(db, t).managed == db.managed
  {
    if !t.step.Scan? && !t.step.Recover? {
      OtherTablesOnlyByCleanup(db, t);
    }
  }

  // ----- Keys over every run -----

  ghost predicate NoneInstalled(m: Managed) {
    forall k :: 0 <= k < |m.keys| ==> m.keys[k].state == SuspendedByRecycle
  }

  /** The owner of a lease in the bin has no installed key. */
  ghost predicate BinIsLocked(db: Database) {
    forall i :: 0 <= i < |db.leases| && db.leases[i].state == RecycleBin ==>
      db.leases[i].owner in db.managed && NoneInstalled(db.managed[db.leases[i].owner])
  }

  lemma AttemptKeepsLocked(db: Database, t: Timed, o: Owner)
    requires o in db.managed && NoneInstalled(db.managed[o])
    ensures o in Apply(db, t).managed && NoneInstalled(Apply(db, t).managed[o])
  {
    if AttemptOf(db, t).Some? {
      AttemptSettlesIdentity(db, t);
    } else {
      NoAttemptKeepsManaged(db, t);
    }
  }

  lemma BinnedByAttempt(db: Database, t: Timed, i: Id)
    requires Sound(db, t.now) && t.now <= t.finished && i < |Apply(db, t).leases|
    requires Apply(db, t).leases[i].state == RecycleBin
    requires !(i < |db.leases| && db.leases[i].state == RecycleBin)
    ensures AttemptOf(db, t).Some? && AttemptOf(db, t).value.lease == i && AttemptOf(db, t).value.succeeded
    ensures i < |db.leases| && Apply(db, t).leases[i].owner == db.leases[i].owner
  {
    var after := Apply(db, t);
    ApplyKeepsInv(db, t);
    assert RecycledTogether(after.leases, after.items, i, t.finished);
    BinnedHas(after.items, i);
    BinnedHas(db.items, i);
    ApplyBins(db, t);
    if i < |db.leases| {
      assert RecycledTogether(db.leases, db.items, i, t.now);
    } else {
      ItemsNameLeases(db, t.now, i);
    }
    ApplyGrows(db, t);
    assert i < |db.leases| ==> SameTerms(db.leases[i], after.leases[..|db.leases|][i]);
    if AttemptOf(db, t).Some? {
      AttemptOnlyAtChainEnd(db, t);
    }
  }

  lemma ItemsNameLeases(db: Database, now: Time, i: Id)
    requires Inv(db, now) && i >= |db.leases|
    ensures !HasItem(db.items, i)
  {
  }

  lemma ApplyKeepsBinLocked(db: Database, t: Timed)
    requires Sound(db, t.now) && t.now <= t.finished && BinIsLocked(db)
    ensures BinIsLocked(Apply(db, t))
  {
    var after := Apply(db, t);
    ApplyGrows(db, t);
    forall i | 0 <= i < |after.leases| && after.leases[i].state == RecycleBin
      ensures after.leases[i].owner in after.managed && NoneInstalled(after.managed[after.leases[i].owner])
    {
      if i < |db.leases| && db.leases[i].state == RecycleBin {
        assert SameTerms(db.leases[i], after.leases[..|db.leases|][i]);
        AttemptKeepsLocked(db, t, db.leases[i].owner);
      } else {
        BinnedByAttempt(db, t, i);
        AttemptSettlesIdentity(db, t);
      }
    }
  }

  lemma {:induction false} RunKeepsBinLocked(db: Database, trace: seq<Timed>, from: Time)
    requires Sound(db, from) && Ordered(trace, from) && BinIsLocked(db)
    ensures BinIsLocked(Execute(db, trace))
    decreases |trace|
  {
    if |trace| > 0 {
      var t := trace[0];
      LaterKeepsInv(db, from, t.now);
      ApplyKeepsBinLocked(db, t);
      ApplyKeepsInv(db, t);
      ApplyKeepsSettled(db, t);
      RunKeepsBinLocked(Apply(db, t), trace[1..], t.finished);
    }
  }

  /** In every run the owner of each lease in the bin has no installed key. */
  lemma RecycledOwnersAreLocked(managed: map<Owner, Managed>, trace: seq<Timed>, from: Time)
    requires Ordered(trace, from)
    ensures BinIsLocked(Execute(Empty(managed), trace))
  {
    ReachableIsSound(managed, [], from);
    RunKeepsBinLocked(Empty(managed), trace, from);
  }

  // ----- Time stamps and items over every run -----

  /** A lease is marked expired exactly in the states Expired and RecycleBin, not before it ran out and not in the
      future, and marked recycled after that. */
  ghost predicate Stamped(l: Lease, now: Time) {
    && (l.expiredAt.Some? <==> l.state in {Expired, RecycleBin})
    && (l.expiredAt.Some? ==> l.expiresAt <= l.expiredAt.value <= now)
    && (l.recycledAt.Some? ==> l.expiredAt.Some? && l.expiredAt.value <= l.recycledAt.value <= now)
  }

  ghost predicate AllStamped(leases: seq<Lease>, now: Time) {
    forall i :: 0 <= i < |leases| ==> Stamped(leases[i], now)
  }

  /** An item of the bin tells the owner, the end and the recycling of its lease. */
  ghost predicate ItemTells(leases: seq<Lease>, item: RecycleItem) {
    && item.lease < |leases|
    && var l := leases[item.lease];
       item.owner == l.owner && item.expiresAt == l.expiresAt && l.recycledAt == Some(item.recycledAt)
  }

  ghost predicate ItemsTell(db: Database) {
    forall k :: 0 <= k < |db.items| ==> ItemTells(db.leases, db.items[k])
  }

  lemma EnsureStamps(db: Database, owner: Owner, now: Time)
    requires Inv(db, now) && AllStamped(db.leases, now) && EnsureActive(db, owner, now).Ok?
    ensures AllStamped(EnsureActive(db, owner, now).value.0.leases, now)
  {
  }

  lemma RequestStamps(db: Database, owner: Owner, seconds: int, key: string, now: Time)
    requires Inv(db, now) && AllStamped(db.leases, now) && RequestRenewal(db, owner, seconds, key, now).Ok?
    ensures AllStamped(RequestRenewal(db, owner, seconds, key, now).value.0.leases, now)
  {
    if FindKey(db.renewals, owner, key, 0).None? {
      RequestRecords(db, owner, seconds, key, now);
      var Entitled(ensured, active, terminal) := Entitlement(db, owner, now).value;
      EnsureStamps(db, owner, now);
      EnsureActivates(db, owner, now);
      TouchStamps(ensured.leases, active, RenewalPending, now);
    }
  }

  lemma TouchStamps(leases: seq<Lease>, i: Id, state: LeaseState, now: Time)
    requires AllStamped(leases, now) && i < |leases| && now < leases[i].expiresAt && state !in {Expired, RecycleBin}
    ensures AllStamped(leases[i := leases[i].(state := state)], now)
  {
  }

  lemma DecideStamps(db: Database, q: Id, decision: Decision, now: Time)
    requires AllStamped(db.leases, now) && DecideRenewal(db, q, decision, now).Ok?
    ensures AllStamped(DecideRenewal(db, q, decision, now).value.db.leases, now)
  {
  }

  lemma ScanStamps(db: Database, i: Id, now: Time, finished: Time, reply: WorkerReply)
    requires AllStamped(db.leases, now) && now <= finished
    ensures AllStamped(ScanLease(db, i, now, finished, reply).0.leases, finished)
  {
  }

  lemma RecoverStamps(db: Database, i: Id, now: Time, finished: Time, reply: WorkerReply)
    requires Sound(db, now) && AllStamped(db.leases, now) && now <= finished
    requires RecoverLease(db, i, now, finished, reply).Ok?
    ensures AllStamped(RecoverLease(db, i, now, finished, reply).value.0.leases, finished)
  {
  }

  lemma LaterStamps(leases: seq<Lease>, now: Time, later: Time)
    requires AllStamped(leases, now) && now <= later
    ensures AllStamped(leases, later)
  {
  }

  lemma OwnersStepStamps(db: Database, t: Timed)
    requires Inv(db, t.now) && AllStamped(db.leases, t.now)
    requires t.step.Use? || t.step.Request? || t.step.AutoRenew?
    ensures AllStamped(Apply(db, t).leases, t.now)
  {
    match t.step
    case Use(owner) =>
      if EnsureActive(db, owner, t.now).Ok? {
        EnsureStamps(db, owner, t.now);
      }
    case Request(owner, seconds, key) =>
      if RequestRenewal(db, owner, seconds, key, t.now).Ok? {
        RequestStamps(db, owner, seconds, key, t.now);
      }
    case AutoRenew(owner, seconds, key) =>
      var r := RequestRenewal(db, owner, seconds, key, t.now);
      if r.Ok? {
        RequestStamps(db, owner, seconds, key, t.now);
        if DecideRenewal(r.value.0, r.value.1, Approve, t.now).Ok? {
          DecideStamps(r.value.0, r.value.1, Approve, t.now);
        }
      }
  }

  lemma RootStamps(db: Database, owner: Owner, seconds: int, gpuCount: int, now: Time)
    requires AllStamped(db.leases, now) && CreateRoot(db, owner, seconds, gpuCount, now).Ok?
    ensures AllStamped(CreateRoot(db, owner, seconds, gpuCount, now).value.leases, now)
  {
  }

  /** Every transaction keeps the stamps. */
  lemma ApplyKeepsStamped(db: Database, t: Timed)
    requires Sound(db, t.now) && AllStamped(db.leases, t.now) && t.now <= t.finished
    ensures AllStamped(Apply(db, t).leases, t.finished)
  {
    LaterStamps(db.leases, t.now, t.finished);
    if t.step.Scan? {
      ScanStamps(db, t.step.lease, t.now, t.finished, t.step.reply);
    } else if t.step.Recover? {
      if RecoverLease(db, t.step.lease, t.now, t.finished, t.step.reply).Ok? {
        RecoverStamps(db, t.step.lease, t.now, t.finished, t.step.reply);
      }
    } else {
      StepStamps(db, t);
      LaterStamps(Apply(db, t).leases, t.now, t.finished);
    }
  }

  lemma StepStamps(db: Database, t: Timed)
    requires Inv(db, t.now) && AllStamped(db.leases, t.now) && !t.step.Scan? && !t.step.Recover?
    ensures AllStamped(Apply(db, t).leases, t.now)
  {
    if t.step.Decide? {
      if DecideRenewal(db, t.step.request, t.step.decision, t.now).Ok? {
        DecideStamps(db, t.step.request, t.step.decision, t.now);
      }
    } else if t.step.Root? {
      if CreateRoot(db, t.step.owner, t.step.seconds, t.step.gpuCount, t.now).Ok? {
        RootStamps(db, t.step.owner, t.step.seconds, t.step.gpuCount, t.now);
      }
    } else if !t.step.Reconcile? {
      OwnersStepStamps(db, t);
    }
  }

  lemma ItemStays(db: Database, t: Timed, item: RecycleItem)
    requires Sound(db, t.now) && t.now <= t.finished && ItemTells(db.leases, item) && HasItem(db.items, item.lease)
    ensures ItemTells(Apply(db, t).leases, item)
  {
    assert RecycledTogether(db.leases, db.items, item.lease, t.now);
    ApplyFinishes(db, t, item.lease);
  }

  /** Every transaction keeps what the items tell: a recycled row never changes again. */
  lemma ApplyKeepsItems(db: Database, t: Timed)
    requires Sound(db, t.now) && t.now <= t.finished && ItemsTell(db)
    ensures ItemsTell(Apply(db, t))
  {
    var after := Apply(db, t);
    forall k | 0 <= k < |db.items| ensures ItemTells(after.leases, db.items[k]) {
      assert HasItem(db.items, db.items[k].lease);
      ItemStays(db, t, db.items[k]);
    }
    AtMostOneItem(db, t);
    OneMoreTells(after.leases, db.items, after.items);
  }

  lemma OneMoreTells(leases: seq<Lease>, before: seq<RecycleItem>, after: seq<RecycleItem>)
    requires (forall k :: 0 <= k < |before| ==> ItemTells(leases, before[k])) && AddsItem(leases, before, after)
    ensures forall k :: 0 <= k < |after| ==> ItemTells(leases, after[k])
  {
    forall k | 0 <= k < |after| ensures ItemTells(leases, after[k]) {
      if after != before && k < |before| {
        assert after[..|before|][k] == before[k];
      }
    }
  }

  /** At most one item more, and that one tells the truth. */
  ghost predicate AddsItem(leases: seq<Lease>, before: seq<RecycleItem>, after: seq<RecycleItem>) {
    || after == before
    || (|after| == |before| + 1 && after[..|before|] == before && ItemTells(leases, after[|before|]))
  }

  lemma AtMostOneItem(db: Database, t: Timed)
    ensures AddsItem(Apply(db, t).leases, db.items, Apply(db, t).items)
  {
    if AttemptOf(db, t).Some? {
      AttemptTells(db, t);
      CleanupAddsItem(db, AttemptOf(db, t).value.lease, t.step.reply, t.now, t.finished);
    } else {
      NoAttemptKeepsItems(db, t);
    }
  }

  lemma AttemptTells(db: Database, t: Timed)
    requires AttemptOf(db, t).Some?
    ensures (t.step.Scan? || t.step.Recover?) && Cleanable(db, AttemptOf(db, t).value.lease)
    ensures var cleaned := Cleanup(db, AttemptOf(db, t).value.lease, t.step.reply, t.now, t.finished);
            Apply(db, t).leases == cleaned.leases && Apply(db, t).items == cleaned.items
  {
  }

  lemma CleanupAddsItem(db: Database, i: Id, reply: WorkerReply, now: Time, finished: Time)
    requires Cleanable(db, i)
    ensures var after := Cleanup(db, i, reply, now, finished); AddsItem(after.leases, db.items, after.items)
  {
  }

  ghost predicate Truthful(db: Database, now: Time) {
    AllStamped(db.leases, now) && ItemsTell(db)
  }

  lemma {:induction false} RunKeepsTruthful(db: Database, trace: seq<Timed>, from: Time)
    requires Sound(db, from) && Ordered(trace, from) && Truthful(db, from)
    ensures Truthful(Execute(db, trace), End(trace, from))
    decreases |trace|
  {
    if |trace| > 0 {
      var t := trace[0];
      LaterKeepsInv(db, from, t.now);
      LaterStamps(db.leases, from, t.now);
      ApplyKeepsStamped(db, t);
      ApplyKeepsItems(db, t);
      ApplyKeepsInv(db, t);
      ApplyKeepsSettled(db, t);
      RunKeepsTruthful(Apply(db, t), trace[1..], t.finished);
    }
  }

  /** In every run: a lease is marked expired exactly in the states Expired and RecycleBin, between its end and the
      present, and recycled after that; each item of the bin tells the owner, the end and the recycling of its lease. */
  lemma RecordsAreTruthful(managed: map<Owner, Managed>, trace: seq<Timed>, from: Time)
    requires Ordered(trace, from)
    ensures var db, now := Execute(Empty(managed), trace), End(trace, from);
            && (forall i :: 0 <= i < |db.leases| ==> Stamped(db.leases[i], now))
            && (forall k :: 0 <= k < |db.items| ==> ItemTells(db.leases, db.items[k]))
  {
    ReachableIsSound(managed, [], from);
    RunKeepsTruthful(Empty(managed), trace, from);
  }
}
