/** What holds at the end of every run from an empty set of leases, said in the terms of its tables. */
module LeaseGuarantees {
  import opened Options
  import opened LeaseModel
  import opened LeaseInvariant
  import opened LeaseRuns
  import opened LeaseHistory
  import opened LeaseViews
  import opened LeaseRenewals

  /** A successor starts exactly where its predecessor ends, for the same owner and GPU count; no lease has two
      successors; following approved successors always ends; and no instant is covered twice for one owner. */
  lemma ChainsOverEveryRun(managed: map<Owner, Managed>, trace: seq<Timed>, from: Time)
    requires Ordered(trace, from)
    ensures var leases := Execute(Empty(managed), trace).leases;
            && (forall i: Id, s: Id :: IsSuccessor(leases, i, s) ==>
                  && i < s < |leases| && leases[s].startsAt == leases[i].expiresAt && leases[s].owner == leases[i].owner
                  && leases[s].gpuCount == leases[i].gpuCount && SuccessorOf(leases, i) == Some(s))
            && (forall i: Id :: i < |leases| ==> Terminal(leases, i).Ok?)
            && (forall i: Id, j: Id, at: Time :: i < |leases| && j < |leases| && leases[i].owner == leases[j].owner ==>
                  Covers(leases[i], at) && Covers(leases[j], at) ==> i == j)
  {
    ReachableIsSound(managed, trace, from);
    var leases := Execute(Empty(managed), trace).leases;
    forall i: Id, s: Id | IsSuccessor(leases, i, s)
      ensures i < s < |leases| && leases[s].startsAt == leases[i].expiresAt && leases[s].owner == leases[i].owner
      ensures leases[s].gpuCount == leases[i].gpuCount && SuccessorOf(leases, i) == Some(s)
    {
      SuccessorUnique(leases, i, s);
    }
    forall i: Id | i < |leases| ensures Terminal(leases, i).Ok? {
      ChainNeverInvalid(leases, i, {i});
    }
    forall i: Id, j: Id, at: Time | i < |leases| && j < |leases| && leases[i].owner == leases[j].owner
      && Covers(leases[i], at) && Covers(leases[j], at) ensures i == j
    {
      AtMostOneCovers(leases, i, j, at);
    }
  }

  /** In every run an approved lease is its owner's last, so `lease_chain_terminal` takes at most one hop; and a request
      that is pending on a lease that has not run out names the end of its owner's entitlement. */
  lemma ChainEndsOverEveryRun(managed: map<Owner, Managed>, trace: seq<Timed>, from: Time)
    requires Ordered(trace, from)
    ensures var db, now := Execute(Empty(managed), trace), End(trace, from);
            && (forall i: Id :: i < |db.leases| && db.leases[i].state == Approved ==>
                  SuccessorOf(db.leases, i).None?
                  && forall j: Id :: i < j < |db.leases| ==> db.leases[j].owner != db.leases[i].owner)
            && (forall i: Id :: i < |db.leases| ==>
                  Terminal(db.leases, i) ==
                  Ok(if NothingApprovedAfter(db.leases, i) then i else SuccessorOf(db.leases, i).value))
            && (forall q: Id :: q < |db.renewals| ==> NamesEntitlement(db, q, now))
  {
    var db, now := Execute(Empty(managed), trace), End(trace, from);
    ReachableIsSound(managed, trace, from);
    ReachableIsRenewing(managed, trace, from);
    forall i: Id | i < |db.leases|
      ensures Terminal(db.leases, i) ==
              Ok(if NothingApprovedAfter(db.leases, i) then i else SuccessorOf(db.leases, i).value)
    {
      AtMostOneHop(db.leases, i);
    }
    forall i: Id, j: Id | i < j < |db.leases| && db.leases[i].state == Approved
      ensures db.leases[j].owner != db.leases[i].owner
    {
      if db.leases[j].owner == db.leases[i].owner {
        LaterMeansSuccessor(db.leases, i, j);
      }
    }
    forall q: Id | q < |db.renewals| ensures NamesEntitlement(db, q, now) {
      assert InWindow(db.leases, db.renewals[q], now);
      if db.renewals[q].state == Pending && !Overdue(db, db.renewals[q], now)
         && Entitlement(db, db.renewals[q].owner, now).Ok? {
        PendingNamesTerminal(db, q, now);
      }
    }
  }

  /** If the request is pending on a lease that has not run out, that lease ends its owner's entitlement. */
  ghost predicate NamesEntitlement(db: Database, q: Id, now: Time)
    requires q < |db.renewals|
  {
    var r := db.renewals[q];
    r.state == Pending && !Overdue(db, r, now) && Entitlement(db, r.owner, now).Ok? ==>
      Entitlement(db, r.owner, now).value.terminal == r.lease
  }

  /** No lease ever ends more than 345600 s plus a renewal window of less than 86401 s after the present. */
  lemma EntitlementHorizon(managed: map<Owner, Managed>, trace: seq<Timed>, from: Time, i: Id)
    requires Ordered(trace, from) && i < |Execute(Empty(managed), trace).leases|
    ensures Execute(Empty(managed), trace).leases[i].expiresAt < End(trace, from) + (345600 + 86401) * SECOND
  {
    ReachableIsSound(managed, trace, from);
  }

  /** An owner has at most one pending request; a request is granted exactly when a successor of its lease was created
      for it; and every lease but an owner's first was created by a granted request. */
  lemma RenewalsOverEveryRun(managed: map<Owner, Managed>, trace: seq<Timed>, from: Time)
    requires Ordered(trace, from)
    ensures var db := Execute(Empty(managed), trace);
            && (forall a, b :: 0 <= a < |db.renewals| && 0 <= b < |db.renewals| ==>
                  db.renewals[a].owner == db.renewals[b].owner ==>
                  db.renewals[a].state == Pending && db.renewals[b].state == Pending ==> a == b)
            && (forall a :: 0 <= a < |db.renewals| ==>
                  (db.renewals[a].state == Granted <==>
                   exists s: Id ::
                     db.renewals[a].resultingLease == Some(s) && IsSuccessor(db.leases, db.renewals[a].lease, s)))
            && (forall s: Id :: s < |db.leases| && db.leases[s].previous.Some? ==>
                  exists a ::
                    0 <= a < |db.renewals| && db.renewals[a].state == Granted
                    && db.renewals[a].resultingLease == Some(s))
  {
    ReachableIsSound(managed, trace, from);
    var db := Execute(Empty(managed), trace);
    forall s: Id | s < |db.leases| && db.leases[s].previous.Some?
      ensures exists a :: 0 <= a < |db.renewals| && db.renewals[a].state == Granted
                          && db.renewals[a].resultingLease == Some(s)
    {
      var a: nat :| GrantedBy(db.renewals, s, a);
      assert GrantMatches(db.leases, db.renewals[a]);
    }
    forall a | 0 <= a < |db.renewals| ensures GrantMatches(db.leases, db.renewals[a]) {
    }
  }

  // ----- The recycle bin is the list of successful cleanups -----

  /** The leases of the attempts that succeeded, in order. */
  function SuccessfulCleanups(attempts: seq<Attempt>): seq<Id> {
    if |attempts| == 0 then []
    else (if attempts[0].succeeded then [attempts[0].lease] else []) + SuccessfulCleanups(attempts[1..])
  }

  function Gain(a: Option<Attempt>): seq<Id> {
    if a.Some? && a.value.succeeded then [a.value.lease] else []
  }

  lemma Regroup<T>(a: seq<T>, b: seq<T>, c: seq<T>)
    ensures (a + b) + c == a + (b + c)
  {
  }

  function Binned(items: seq<RecycleItem>): seq<Id> {
    seq(|items|, k requires 0 <= k < |items| => items[k].lease)
  }

  lemma CleanupBins(db: Database, i: Id, reply: WorkerReply, now: Time, finished: Time)
    requires Cleanable(db, i) && !HasItem(db.items, i)
    ensures var succeeded := CleanupSucceeded(reply, db.managed[db.leases[i].owner].keys);
            Binned(Cleanup(db, i, reply, now, finished).items) == Binned(db.items) + (if succeeded then [i] else [])
  {
  }

  lemma NoAttemptKeepsItems(db: Database, t: Timed)
    requires AttemptOf(db, t).None?
    ensures Apply(db, t).items == db.items
  {
    match t.step
    case AutoRenew(owner, seconds, key) => RenewAtOnceKeepsOtherTables(db, owner, seconds, key, t.now);
    case Recover(lease, reply) =>
    case Decide(request, decision) =>
    case Request(owner, seconds, key) =>
    case Use(owner) =>
    case Root(owner, seconds, gpuCount) =>
    case Reconcile(limit) =>
    case Scan(lease, reply) =>
  }

  lemma AttemptIsCleanup(db: Database, t: Timed)
    requires AttemptOf(db, t).Some?
    ensures var a := AttemptOf(db, t).value;
            && (t.step.Scan? || t.step.Recover?) && Cleanable(db, a.lease)
            && a.succeeded == CleanupSucceeded(t.step.reply, db.managed[db.leases[a.lease].owner].keys)
            && Apply(db, t).items == Cleanup(db, a.lease, t.step.reply, t.now, t.finished).items
  {
  }

  /** One transaction adds a recycle item exactly when it made a cleanup attempt that succeeded. */
  lemma ApplyBins(db: Database, t: Timed)
    requires Sound(db, t.now) && t.now <= t.finished
    ensures Binned(Apply(db, t).items) == Binned(db.items) + Gain(AttemptOf(db, t))
  {
    var a := AttemptOf(db, t);
    if a.Some? {
      AttemptOnlyAtChainEnd(db, t);
      ghost var i := a.value.lease;
      assert RecycledTogether(db.leases, db.items, i, t.now);
      AttemptIsCleanup(db, t);
      CleanupBins(db, i, t.step.reply, t.now, t.finished);
    } else {
      NoAttemptKeepsItems(db, t);
    }
  }

  /** What the first transaction of a run adds to the successful cleanups of the rest. */
  lemma SuccessesFirst(db: Database, trace: seq<Timed>)
    requires |trace| > 0
    ensures SuccessfulCleanups(Attempts(db, trace))
            == Gain(AttemptOf(db, trace[0])) + SuccessfulCleanups(Attempts(Apply(db, trace[0]), trace[1..]))
  {
    var a := AttemptOf(db, trace[0]);
    var rest := Attempts(Apply(db, trace[0]), trace[1..]);
    if a.Some? {
      assert ([a.value] + rest)[1..] == rest;
    } else {
      assert [] + rest == rest;
    }
  }

  lemma SoundAfter(db: Database, t: Timed, from: Time)
    requires Sound(db, from) && from <= t.now <= t.finished
    ensures Sound(db, t.now) && Sound(Apply(db, t), t.finished)
  {
    LaterKeepsInv(db, from, t.now);
    ApplyKeepsInv(db, t);
    ApplyKeepsSettled(db, t);
  }

  lemma {:induction false} RunBins(db: Database, trace: seq<Timed>, from: Time)
    requires Sound(db, from) && Ordered(trace, from)
    ensures Binned(Execute(db, trace).items) == Binned(db.items) + SuccessfulCleanups(Attempts(db, trace))
    decreases |trace|
  {
    if |trace| > 0 {
      var next := Apply(db, trace[0]);
      SoundAfter(db, trace[0], from);
      ApplyBins(db, trace[0]);
      RunBins(next, trace[1..], trace[0].finished);
      SuccessesFirst(db, trace);
      Regroup(Binned(db.items), Gain(AttemptOf(db, trace[0])), SuccessfulCleanups(Attempts(next, trace[1..])));
    }
  }

  lemma BinnedHas(items: seq<RecycleItem>, i: Id)
    ensures HasItem(items, i) <==> i in Binned(items)
  {
    if HasItem(items, i) {
      var k :| 0 <= k < |items| && items[k].lease == i;
      assert Binned(items)[k] == i;
    }
  }

  lemma BinHoldsItems(db: Database, now: Time, i: Id)
    requires Inv(db, now) && i < |db.leases|
    ensures db.leases[i].state == RecycleBin <==> i in Binned(db.items)
    ensures db.leases[i].recycledAt.Some? <==> i in Binned(db.items)
    ensures i in Binned(db.items) ==> db.leases[i].expiresAt <= now && SuccessorOf(db.leases, i).None?
  {
    assert RecycledTogether(db.leases, db.items, i, now);
    BinnedHas(db.items, i);
  }

  lemma ItemsAreSuccessfulCleanups(managed: map<Owner, Managed>, trace: seq<Timed>, from: Time)
    requires Ordered(trace, from)
    ensures Binned(Execute(Empty(managed), trace).items) == SuccessfulCleanups(Attempts(Empty(managed), trace))
  {
    RunBins(Empty(managed), trace, from);
    var cleaned := SuccessfulCleanups(Attempts(Empty(managed), trace));
    assert Binned([]) + cleaned == cleaned;
  }

  /** The recycle items are the successful cleanups, in their order, so no lease is cleaned up twice; a lease is in the
      bin exactly when one of them is its own, and then it has run out and nothing succeeds it. */
  lemma BinIsSuccessfulCleanups(managed: map<Owner, Managed>, trace: seq<Timed>, from: Time)
    requires Ordered(trace, from)
    ensures var db := Execute(Empty(managed), trace);
            var cleaned := SuccessfulCleanups(Attempts(Empty(managed), trace));
            && Binned(db.items) == cleaned
            && (forall x, y :: 0 <= x < y < |cleaned| ==> cleaned[x] != cleaned[y])
            && (forall i: Id :: i < |db.leases| ==>
                  && (db.leases[i].state == RecycleBin <==> i in cleaned)
                  && (db.leases[i].recycledAt.Some? <==> i in cleaned)
                  && (i in cleaned ==> db.leases[i].expiresAt <= End(trace, from) && SuccessorOf(db.leases, i).None?))
  {
    ReachableIsSound(managed, trace, from);
    ItemsAreSuccessfulCleanups(managed, trace, from);
    var db := Execute(Empty(managed), trace);
    forall i: Id | i < |db.leases|
      ensures (db.leases[i].state == RecycleBin <==> i in Binned(db.items))
      ensures (db.leases[i].recycledAt.Some? <==> i in Binned(db.items))
      ensures i in Binned(db.items) ==> db.leases[i].expiresAt <= End(trace, from) && SuccessorOf(db.leases, i).None?
    {
      BinHoldsItems(db, End(trace, from), i);
    }
  }
}
