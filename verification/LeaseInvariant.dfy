/** What every transaction keeps: lease chains, the entitlement horizon, renewal requests and recycling. */
module LeaseInvariant {
  import opened Options
  import opened LeaseModel

  // ----- The invariant -----

  /** A lease is an owner's first, or starts exactly where the owner's lease before it ends. */
  ghost predicate Linked(leases: seq<Lease>, j: nat)
    requires j < |leases|
  {
    var l := leases[j];
    match l.previous
    case None => forall i :: 0 <= i < j ==> leases[i].owner != l.owner
    case Some(p) =>
      && p < j && leases[p].owner == l.owner && leases[p].expiresAt == l.startsAt && leases[p].gpuCount == l.gpuCount
      && forall i :: p < i < j ==> leases[i].owner != l.owner
  }

  ghost predicate WellFormed(l: Lease) {
    && LegalDuration(l.durationSeconds) && l.expiresAt == l.startsAt + l.durationSeconds * SECOND
    && l.gpuCount in {0, 1} && l.approvedAt.Some?
  }

  ghost predicate Chains(leases: seq<Lease>) {
    forall j :: 0 <= j < |leases| ==> WellFormed(leases[j]) && Linked(leases, j)
  }

  const HORIZON: Time := (MAX_LEASE_DURATION_SECONDS + RENEWAL_WINDOW_SECONDS + 1) * SECOND

  ghost predicate WithinHorizon(leases: seq<Lease>, now: Time) {
    forall j :: 0 <= j < |leases| ==> leases[j].expiresAt < now + HORIZON
  }

  /** A request was made in the renewal window of an existing lease of its owner. */
  ghost predicate InWindow(leases: seq<Lease>, r: Renewal, now: Time) {
    && r.lease < |leases| && leases[r.lease].owner == r.owner
    && LegalDuration(r.durationSeconds) && r.requestedAt <= now
    && leases[r.lease].expiresAt < r.requestedAt + (RENEWAL_WINDOW_SECONDS + 1) * SECOND
  }

  /** Granted means exactly: a successor of the request's lease was created for it. */
  ghost predicate GrantMatches(leases: seq<Lease>, r: Renewal) {
    && (r.state == Granted <==> r.resultingLease.Some?)
    && (r.resultingLease.Some? ==> IsSuccessor(leases, r.lease, r.resultingLease.value))
  }

  ghost predicate Requests(leases: seq<Lease>, renewals: seq<Renewal>, now: Time) {
    && (forall a :: 0 <= a < |renewals| ==> InWindow(leases, renewals[a], now) && GrantMatches(leases, renewals[a]))
    && (forall a, b :: 0 <= a < b < |renewals| && renewals[a].owner == renewals[b].owner
                       ==> renewals[a].state != Pending || renewals[b].state != Pending)
    && (forall a, b :: 0 <= a < b < |renewals| && renewals[a].owner == renewals[b].owner
                       ==> renewals[a].key != renewals[b].key)
  }

  ghost predicate GrantedBy(renewals: seq<Renewal>, j: Id, a: nat) {
    a < |renewals| && renewals[a].resultingLease == Some(j)
  }

  /** Every lease with a predecessor came from a granted request. */
  ghost predicate AllGranted(leases: seq<Lease>, renewals: seq<Renewal>) {
    forall j: Id :: j < |leases| && leases[j].previous.Some? ==> exists a :: GrantedBy(renewals, j, a)
  }

  /** The recycle bin, `recycled_at` and the recycle item of a lease come together, and only for a chain's end. */
  ghost predicate RecycledTogether(leases: seq<Lease>, items: seq<RecycleItem>, i: Id, now: Time)
    requires i < |leases|
  {
    && (leases[i].state == RecycleBin <==> leases[i].recycledAt.Some?)
    && (leases[i].state == RecycleBin <==> HasItem(items, i))
    && (leases[i].state == RecycleBin ==> leases[i].expiresAt <= now && SuccessorOf(leases, i).None?)
  }

  ghost predicate Recycling(leases: seq<Lease>, items: seq<RecycleItem>, now: Time) {
    && (forall i: Id :: i < |leases| ==> RecycledTogether(leases, items, i, now))
    && (forall a, b :: 0 <= a < b < |items| ==> items[a].lease != items[b].lease)
    && (forall a :: 0 <= a < |items| ==> items[a].lease < |leases|)
  }

  ghost predicate Inv(db: Database, now: Time) {
    && Chains(db.leases)
    && WithinHorizon(db.leases, now)
    && Requests(db.leases, db.renewals, now)
    && AllGranted(db.leases, db.renewals)
    && Recycling(db.leases, db.items, now)
  }

  // ----- Chains -----

  /** Along an owner's leases the periods follow each other: none overlaps, and starts strictly increase. */
  lemma {:induction false} PeriodsFollow(leases: seq<Lease>, i: nat, j: nat)
    requires Chains(leases) && i < j < |leases| && leases[i].owner == leases[j].owner
    ensures leases[i].startsAt < leases[i].expiresAt <= leases[j].startsAt < leases[j].expiresAt
    decreases j
  {
    assert Linked(leases, j) && WellFormed(leases[i]) && WellFormed(leases[j]);
    if leases[j].previous.Some? {
      var p := leases[j].previous.value;
      if i < p {
        PeriodsFollow(leases, i, p);
      }
    }
  }

  ghost predicate Covers(l: Lease, now: Time) {
    l.startsAt <= now < l.expiresAt
  }

  /** At any instant at most one lease of an owner covers it. */
  lemma AtMostOneCovers(leases: seq<Lease>, i: nat, j: nat, now: Time)
    requires Chains(leases) && i < |leases| && j < |leases| && leases[i].owner == leases[j].owner
    requires Covers(leases[i], now) && Covers(leases[j], now)
    ensures i == j
  {
    if i < j {
      PeriodsFollow(leases, i, j);
    } else if j < i {
      PeriodsFollow(leases, j, i);
    }
  }

  /** A lease with a later lease of the same owner has a successor, no later than that one. */
  lemma {:induction false} LaterMeansSuccessor(leases: seq<Lease>, i: nat, j: nat)
    requires Chains(leases) && i < j < |leases| && leases[i].owner == leases[j].owner
    ensures exists s :: i < s <= j && IsSuccessor(leases, i, s)
    ensures SuccessorOf(leases, i).Some?
    decreases j
  {
    assert Linked(leases, j);
    var p := leases[j].previous.value;
    if p == i {
      assert IsSuccessor(leases, i, j);
    } else {
      LaterMeansSuccessor(leases, i, p);
    }
  }

  /** Chains are linear: the predecessor of a lease is its own. */
  lemma SuccessorUnique(leases: seq<Lease>, i: Id, s: Id)
    requires Chains(leases) && IsSuccessor(leases, i, s)
    ensures SuccessorOf(leases, i) == Some(s) && i < s
    ensures leases[s].owner == leases[i].owner && leases[s].startsAt == leases[i].expiresAt
    ensures leases[s].gpuCount == leases[i].gpuCount
  {
    assert Linked(leases, s);
    var t := SuccessorOf(leases, i).value;
    assert Linked(leases, t);
    assert leases[s].owner == leases[t].owner;
  }

  // ----- Changes that keep the terms of every lease -----

  ghost predicate SameTerms(a: Lease, b: Lease) {
    && a.owner == b.owner && a.gpuCount == b.gpuCount && a.startsAt == b.startsAt && a.expiresAt == b.expiresAt
    && a.durationSeconds == b.durationSeconds && a.approvedAt == b.approvedAt && a.previous == b.previous
  }

  ghost predicate SameBin(a: Lease, b: Lease) {
    (a.state == RecycleBin <==> b.state == RecycleBin) && a.recycledAt == b.recycledAt
  }

  ghost predicate Retouched(a: seq<Lease>, b: seq<Lease>) {
    |a| == |b| && forall i :: 0 <= i < |a| ==> SameTerms(a[i], b[i])
  }

  ghost predicate Unbinned(a: seq<Lease>, b: seq<Lease>)
    requires |a| == |b|
  {
    forall i :: 0 <= i < |a| ==> SameBin(a[i], b[i])
  }

  lemma RetouchedLinks(a: seq<Lease>, b: seq<Lease>, j: nat)
    requires Retouched(a, b) && j < |a| && Linked(a, j)
    ensures Linked(b, j)
  {
  }

  lemma RetouchedKeepsChains(a: seq<Lease>, b: seq<Lease>)
    requires Retouched(a, b) && Chains(a)
    ensures Chains(b)
  {
    forall j | 0 <= j < |b| ensures WellFormed(b[j]) && Linked(b, j) {
      assert SameTerms(a[j], b[j]) && WellFormed(a[j]);
      RetouchedLinks(a, b, j);
    }
  }

  lemma {:induction false} RetouchedSuccessor(a: seq<Lease>, b: seq<Lease>, i: Id)
    requires Retouched(a, b)
    ensures SuccessorOf(a, i) == SuccessorOf(b, i)
    decreases |a|
  {
    if |a| > 0 {
      assert SameTerms(a[|a| - 1], b[|b| - 1]);
      RetouchedSuccessor(a[..|a| - 1], b[..|b| - 1], i);
    }
  }

  lemma RetouchedKeepsRequests(a: seq<Lease>, b: seq<Lease>, renewals: seq<Renewal>, now: Time)
    requires Retouched(a, b) && Requests(a, renewals, now)
    ensures Requests(b, renewals, now)
  {
    forall k | 0 <= k < |renewals|
      ensures InWindow(b, renewals[k], now) && GrantMatches(b, renewals[k])
    {
      assert InWindow(a, renewals[k], now) && GrantMatches(a, renewals[k]);
      assert SameTerms(a[renewals[k].lease], b[renewals[k].lease]);
    }
  }

  lemma RetouchedKeepsGrants(a: seq<Lease>, b: seq<Lease>, renewals: seq<Renewal>)
    requires Retouched(a, b) && AllGranted(a, renewals)
    ensures AllGranted(b, renewals)
  {
    forall j: Id | j < |b| && b[j].previous.Some? ensures exists k :: GrantedBy(renewals, j, k) {
      assert SameTerms(a[j], b[j]);
    }
  }

  lemma RetouchedKeepsRecycling(a: seq<Lease>, b: seq<Lease>, items: seq<RecycleItem>, now: Time)
    requires Retouched(a, b) && Unbinned(a, b) && Recycling(a, items, now)
    ensures Recycling(b, items, now)
  {
    forall i: Id | i < |b| ensures RecycledTogether(b, items, i, now) {
      assert RecycledTogether(a, items, i, now) && SameTerms(a[i], b[i]) && SameBin(a[i], b[i]);
      RetouchedSuccessor(a, b, i);
    }
  }

  /** Moving leases between states, in or out of no bin, keeps everything. */
  lemma RetouchedKeepsInv(db: Database, leases: seq<Lease>, now: Time)
    requires Inv(db, now) && Retouched(db.leases, leases) && Unbinned(db.leases, leases)
    ensures Inv(db.(leases := leases), now)
  {
    RetouchedKeepsChains(db.leases, leases);
    RetouchedKeepsRequests(db.leases, leases, db.renewals, now);
    RetouchedKeepsGrants(db.leases, leases, db.renewals);
    RetouchedKeepsRecycling(db.leases, leases, db.items, now);
    forall j | 0 <= j < |leases| ensures leases[j].expiresAt < now + HORIZON {
      assert SameTerms(db.leases[j], leases[j]);
    }
  }

  /** Time passing keeps everything. */
  lemma LaterKeepsInv(db: Database, now: Time, later: Time)
    requires Inv(db, now) && now <= later
    ensures Inv(db, later)
  {
    forall i: Id | i < |db.leases| ensures RecycledTogether(db.leases, db.items, i, later) {
      assert RecycledTogether(db.leases, db.items, i, now);
    }
    forall a | 0 <= a < |db.renewals| ensures InWindow(db.leases, db.renewals[a], later) {
      assert InWindow(db.leases, db.renewals[a], now);
    }
  }

  // ----- Adding a lease -----

  lemma {:induction false} AppendedSuccessor(leases: seq<Lease>, l: Lease, i: Id)
    ensures SuccessorOf(leases + [l], i) == if l.previous == Some(i) then Some(|leases|) else SuccessorOf(leases, i)
  {
    assert (leases + [l])[..|leases|] == leases;
  }

  lemma AppendKeepsLinks(leases: seq<Lease>, l: Lease, j: nat)
    requires j < |leases| && Linked(leases, j)
    ensures Linked(leases + [l], j)
  {
  }

  lemma AppendKeepsChains(leases: seq<Lease>, l: Lease)
    requires Chains(leases) && WellFormed(l) && Linked(leases + [l], |leases|)
    ensures Chains(leases + [l])
  {
    forall j | 0 <= j < |leases + [l]| ensures WellFormed((leases + [l])[j]) && Linked(leases + [l], j) {
      if j < |leases| {
        assert WellFormed(leases[j]) && Linked(leases, j);
        AppendKeepsLinks(leases, l, j);
      }
    }
  }

  lemma AppendKeepsRequests(leases: seq<Lease>, l: Lease, renewals: seq<Renewal>, now: Time)
    requires Requests(leases, renewals, now)
    ensures Requests(leases + [l], renewals, now)
  {
    forall a | 0 <= a < |renewals|
      ensures InWindow(leases + [l], renewals[a], now) && GrantMatches(leases + [l], renewals[a])
    {
      assert InWindow(leases, renewals[a], now) && GrantMatches(leases, renewals[a]);
    }
  }

  lemma AppendKeepsRecycling(leases: seq<Lease>, l: Lease, items: seq<RecycleItem>, now: Time)
    requires Recycling(leases, items, now) && l.state != RecycleBin && l.recycledAt.None?
    requires l.previous.Some? ==> l.previous.value < |leases| && leases[l.previous.value].state != RecycleBin
    ensures Recycling(leases + [l], items, now)
  {
    forall i: Id | i < |leases + [l]| ensures RecycledTogether(leases + [l], items, i, now) {
      AppendedSuccessor(leases, l, i);
      if i < |leases| {
        assert RecycledTogether(leases, items, i, now);
      }
    }
  }

  /** The root of a new owner. */
  lemma RootKeepsInv(db: Database, owner: Owner, seconds: int, gpuCount: int, now: Time)
    requires Inv(db, now) && CreateRoot(db, owner, seconds, gpuCount, now).Ok?
    ensures Inv(CreateRoot(db, owner, seconds, gpuCount, now).value, now)
  {
    var l := NewLease(owner, Active, gpuCount, now, seconds, None, now);
    assert forall i :: 0 <= i < |db.leases| ==> db.leases[i].owner != owner;
    AppendKeepsChains(db.leases, l);
    AppendKeepsRequests(db.leases, l, db.renewals, now);
    AppendKeepsRecycling(db.leases, l, db.items, now);
    var leases := db.leases + [l];
    forall j: Id | j < |leases| && leases[j].previous.Some? ensures exists a :: GrantedBy(db.renewals, j, a) {
      assert leases[j] == db.leases[j];
    }
  }

  /** A successor goes only after a lease that has none, so it extends the chain at its end. */
  lemma SuccessorLinks(leases: seq<Lease>, p: Id, l: Lease)
    requires Chains(leases) && p < |leases| && SuccessorOf(leases, p).None?
    requires l.previous == Some(p) && l.owner == leases[p].owner
    requires l.startsAt == leases[p].expiresAt && l.gpuCount == leases[p].gpuCount
    ensures Linked(leases + [l], |leases|)
  {
    forall i | p < i < |leases| ensures leases[i].owner != l.owner {
      if leases[i].owner == l.owner {
        LaterMeansSuccessor(leases, p, i);
      }
    }
  }
}
