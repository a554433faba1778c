/** Runs from empty tables that reach the limits of the lease protocol. */
module LeaseExamples {
  import opened Options
  import opened LeaseModel
  import opened LeaseInvariant
  import opened LeaseRuns
  import opened LeaseHistory
  import opened LeaseLimits

  const HOUR: Time := 3600 * SECOND

  const FIRST: Lease := NewLease(0, Active, 1, 0, 3600, None, 0)
  const SECOND_LEASE: Lease := NewLease(0, Approved, 1, HOUR, 3600, Some(0), 0)
  const THIRD: Lease := NewLease(0, Approved, 1, 2 * HOUR, 3600, Some(1), 0)

  lemma SuccessorsOfTwo(a: Lease, b: Lease)
    requires a.previous.None? && b.previous == Some(0)
    ensures SuccessorOf([a, b], 0) == Some(1) && SuccessorOf([a, b], 1) == None && SuccessorOf([a], 0) == None
  {
    assert [a, b][..1] == [a] && [a][..0] == [];
    assert SuccessorOf([], 0) == None && SuccessorOf([], 1) == None;
    assert SuccessorOf([a], 0) == None && SuccessorOf([a], 1) == None;
  }

  lemma SuccessorsOfThree(a: Lease, b: Lease, c: Lease)
    requires a.previous.None? && b.previous == Some(0) && c.previous == Some(1)
    ensures SuccessorOf([a, b, c], 0) == Some(1) && SuccessorOf([a, b, c], 1) == Some(2)
    ensures SuccessorOf([a, b, c], 2) == None
  {
    assert [a, b, c][..2] == [a, b];
    SuccessorsOfTwo(a, b);
    assert [a, b][..1] == [a] && [a][..0] == [];
    assert SuccessorOf([a], 2) == None;
    assert SuccessorOf([a, b], 2) == None;
  }

  const REQUEST: Renewal := Renewal(0, 0, Pending, 3600, "a", 0, None, None)

  function Granted1(managed: map<Owner, Managed>): Database {
    Database([FIRST.(state := RenewalWindow), SECOND_LEASE],
             [REQUEST.(state := Granted, decidedAt := Some(0), resultingLease := Some(1))], map[], [], managed)
  }

  function Requested1(managed: map<Owner, Managed>): Database {
    Database([FIRST.(state := RenewalPending)], [REQUEST], map[], [], managed)
  }

  lemma AloneHasNoSuccessor(a: Lease)
    requires a.previous.None?
    ensures SuccessorOf([a], 0) == None && Terminal([a], 0) == Ok(0)
  {
    assert [a][..0] == [] && SuccessorOf([], 0) == None;
  }

  lemma RequestFirst(managed: map<Owner, Managed>)
    ensures Apply(Empty(managed).(leases := [FIRST]), Timed(Request(0, 3600, "a"), 0, 0)) == Requested1(managed)
  {
    AloneHasNoSuccessor(FIRST);
    assert LatestStarted([FIRST], 0, 0, 0) == None && LatestStarted([FIRST], 0, 0, 1) == Some(0);
    assert FindKey([], 0, "a", 0) == None;
  }

  lemma GrantFirst(managed: map<Owner, Managed>)
    ensures Apply(Requested1(managed), Timed(Decide(0, Approve), 0, 0)) == Granted1(managed)
  {
    AloneHasNoSuccessor(FIRST.(state := RenewalPending));
  }

  lemma {:induction false} ExecuteFirst(db: Database, t: Timed, rest: seq<Timed>)
    ensures Execute(db, [t] + rest) == Execute(Apply(db, t), rest)
  {
    assert ([t] + rest)[1..] == rest;
  }

  /** The first lease, a request, and its approval, followed by `rest`. */
  function FromFirstHour(rest: seq<Timed>): seq<Timed> {
    [Timed(Root(0, 3600, 1), 0, 0)]
    + ([Timed(Request(0, 3600, "a"), 0, 0)] + ([Timed(Decide(0, Approve), 0, 0)] + rest))
  }

  lemma FirstHourGranted(managed: map<Owner, Managed>, rest: seq<Timed>)
    ensures Execute(Empty(managed), FromFirstHour(rest)) == Execute(Granted1(managed), rest)
  {
    var t1, t2 := Timed(Root(0, 3600, 1), 0, 0), Timed(Request(0, 3600, "a"), 0, 0);
    var t3 := Timed(Decide(0, Approve), 0, 0);
    assert Apply(Empty(managed), t1) == Empty(managed).(leases := [FIRST]);
    RequestFirst(managed);
    GrantFirst(managed);
    ExecuteFirst(Empty(managed), t1, [t2] + ([t3] + rest));
    ExecuteFirst(Empty(managed).(leases := [FIRST]), t2, [t3] + rest);
    ExecuteFirst(Requested1(managed), t3, rest);
  }

  /** One hour, renewed for one more hour, and no scan until both have run out: the chain is stranded. */
  lemma StrandedIsReachable(managed: map<Owner, Managed>)
    ensures Execute(Empty(managed), FromFirstHour([])) == Granted1(managed) && Stranded(Granted1(managed), 1, 2 * HOUR)
  {
    FirstHourGranted(managed, []);
    SuccessorsOfTwo(FIRST.(state := RenewalWindow), SECOND_LEASE);
  }

  /** The database after three hours were requested and granted one by one within the first instant, and a fourth
      request was made: the second approval overwrote a state, so the fourth request names the first lease again. */
  function ThreeHours(managed: map<Owner, Managed>): Database {
    Database([FIRST.(state := RenewalPending), SECOND_LEASE.(state := RenewalWindow), THIRD],
             [Renewal(0, 0, Granted, 3600, "a", 0, Some(0), Some(1)),
              Renewal(0, 1, Granted, 3600, "b", 0, Some(0), Some(2)),
              Renewal(0, 0, Pending, 3600, "c", 0, None, None)],
             map[], [], managed)
  }

  function Requested2(managed: map<Owner, Managed>): Database {
    ThreeHours(managed).(
      leases := [FIRST.(state := RenewalPending), SECOND_LEASE],
      renewals := [REQUEST.(state := Granted, decidedAt := Some(0), resultingLease := Some(1)),
                   Renewal(0, 1, Pending, 3600, "b", 0, None, None)])
  }

  function Granted2(managed: map<Owner, Managed>): Database {
    ThreeHours(managed).(renewals := ThreeHours(managed).renewals[..2])
  }

  lemma FreshKey(renewals: seq<Renewal>, key: string)
    requires |renewals| <= 2 && forall i :: 0 <= i < |renewals| ==> renewals[i].key != key
    ensures FindKey(renewals, 0, key, 0) == None
  {
    assert FindKey(renewals, 0, key, |renewals|) == None;
    if |renewals| >= 1 {
      assert FindKey(renewals, 0, key, |renewals| - 1) == None;
    }
  }

  lemma RequestSecond(managed: map<Owner, Managed>)
    ensures Apply(Granted1(managed), Timed(Request(0, 3600, "b"), 0, 0)) == Requested2(managed)
  {
    var db := Granted1(managed);
    SuccessorsOfTwo(db.leases[0], db.leases[1]);
    assert LatestStarted(db.leases, 0, 0, 0) == None;
    assert LatestStarted(db.leases, 0, 0, 1) == Some(0) && LatestStarted(db.leases, 0, 0, 2) == Some(0);
    assert TerminalFrom(db.leases, 1, {0} + {1}) == Ok(1);
    assert Terminal(db.leases, 0) == Ok(1);
    assert "a"[0] != "b"[0];
    FreshKey(db.renewals, "b");
  }

  lemma GrantSecond(managed: map<Owner, Managed>)
    ensures Apply(Requested2(managed), Timed(Decide(1, Approve), 0, 0)) == Granted2(managed)
  {
    var db := Requested2(managed);
    SuccessorsOfTwo(db.leases[0], db.leases[1]);
  }

  lemma RequestThird(managed: map<Owner, Managed>)
    ensures Apply(Granted2(managed), Timed(Request(0, 3600, "c"), 0, 0)) == ThreeHours(managed)
  {
    var db := Granted2(managed);
    SuccessorsOfThree(db.leases[0], db.leases[1], db.leases[2]);
    assert LatestStarted(db.leases, 0, 0, 0) == None;
    assert LatestStarted(db.leases, 0, 0, 1) == Some(0) && LatestStarted(db.leases, 0, 0, 2) == Some(0);
    assert LatestStarted(db.leases, 0, 0, 3) == Some(0);
    assert Terminal(db.leases, 0) == Ok(0);
    assert "a"[0] != "c"[0] && "b"[0] != "c"[0];
    FreshKey(db.renewals, "c");
  }

  /** The failing input: with the second request pending the owner is entitled to two hours, and its approval, meant
      to make them three, leaves one. */
  lemma SecondApprovalShortens(managed: map<Owner, Managed>)
    ensures Execute(Empty(managed), FromFirstHour([Timed(Request(0, 3600, "b"), 0, 0)] + [])) == Requested2(managed)
    ensures Apply(Requested2(managed), Timed(Decide(1, Approve), 0, 0)) == Granted2(managed)
    ensures Entitlement(Requested2(managed), 0, 0) == Ok(Entitled(Requested2(managed), 0, 1))
    ensures Requested2(managed).leases[1].expiresAt == 2 * HOUR
    ensures Entitlement(Granted2(managed), 0, 0) == Ok(Entitled(Granted2(managed), 0, 0))
    ensures Granted2(managed).leases[0].expiresAt == HOUR
  {
    var t := Timed(Request(0, 3600, "b"), 0, 0);
    FirstHourGranted(managed, [t] + []);
    RequestSecond(managed);
    ExecuteFirst(Granted1(managed), t, []);
    GrantSecond(managed);
    EntitledBefore(managed);
    EntitledAfter(managed);
  }

  /** And so does its rejection. */
  lemma RejectionShortens(managed: map<Owner, Managed>)
    ensures var after := Apply(Requested2(managed), Timed(Decide(1, Reject), 0, 0));
            && Entitlement(Requested2(managed), 0, 0) == Ok(Entitled(Requested2(managed), 0, 1))
            && Requested2(managed).leases[1].expiresAt == 2 * HOUR
            && Entitlement(after, 0, 0) == Ok(Entitled(after, 0, 0)) && after.leases[0].expiresAt == HOUR
  {
    EntitledBefore(managed);
    var after := Apply(Requested2(managed), Timed(Decide(1, Reject), 0, 0));
    assert after.leases == [FIRST.(state := RenewalPending), SECOND_LEASE.(state := RenewalWindow)];
    SuccessorsOfTwo(after.leases[0], after.leases[1]);
    assert LatestStarted(after.leases, 0, 0, 0) == None;
    assert LatestStarted(after.leases, 0, 0, 1) == Some(0) && LatestStarted(after.leases, 0, 0, 2) == Some(0);
    assert Terminal(after.leases, 0) == Ok(0);
  }

  lemma EntitledBefore(managed: map<Owner, Managed>)
    ensures Entitlement(Requested2(managed), 0, 0) == Ok(Entitled(Requested2(managed), 0, 1))
  {
    var db := Requested2(managed);
    SuccessorsOfTwo(db.leases[0], db.leases[1]);
    assert LatestStarted(db.leases, 0, 0, 0) == None;
    assert LatestStarted(db.leases, 0, 0, 1) == Some(0) && LatestStarted(db.leases, 0, 0, 2) == Some(0);
    assert TerminalFrom(db.leases, 1, {0} + {1}) == Ok(1);
    assert Terminal(db.leases, 0) == Ok(1);
  }

  lemma EntitledAfter(managed: map<Owner, Managed>)
    ensures Entitlement(Granted2(managed), 0, 0) == Ok(Entitled(Granted2(managed), 0, 0))
  {
    var db := Granted2(managed);
    SuccessorsOfThree(db.leases[0], db.leases[1], db.leases[2]);
    assert LatestStarted(db.leases, 0, 0, 0) == None;
    assert LatestStarted(db.leases, 0, 0, 1) == Some(0) && LatestStarted(db.leases, 0, 0, 2) == Some(0);
    assert LatestStarted(db.leases, 0, 0, 3) == Some(0);
    assert Terminal(db.leases, 0) == Ok(0);
  }

  /** From empty tables, three requests and two approvals after the first lease lead to the three hours. */
  lemma ThreeHoursIsReachable(managed: map<Owner, Managed>)
    ensures var trace := FromFirstHour([Timed(Request(0, 3600, "b"), 0, 0)] + ([Timed(Decide(1, Approve), 0, 0)]
                         + ([Timed(Request(0, 3600, "c"), 0, 0)] + [])));
            Execute(Empty(managed), trace) == ThreeHours(managed)
  {
    var t1, t2 := Timed(Request(0, 3600, "b"), 0, 0), Timed(Decide(1, Approve), 0, 0);
    var t3 := Timed(Request(0, 3600, "c"), 0, 0);
    FirstHourGranted(managed, [t1] + ([t2] + ([t3] + [])));
    RequestSecond(managed);
    GrantSecond(managed);
    RequestThird(managed);
    ExecuteFirst(Granted1(managed), t1, [t2] + ([t3] + []));
    ExecuteFirst(Requested2(managed), t2, [t3] + []);
    ExecuteFirst(Granted2(managed), t3, []);
  }

  /** An hour later the view offers a renewal, and the request fails because of the pending one. */
  lemma ViewOffersWhatFails(managed: map<Owner, Managed>, key: string)
    requires key !in {"a", "b", "c"}
    ensures var db := ThreeHours(managed);
            && ViewLease(db, 0, HOUR) == View(1, 2, 7200, true, false)
            && RequestRenewal(db, 0, 3600, key, HOUR) == Err(RenewalAlreadyPending)
  {
    var db := ThreeHours(managed);
    SuccessorsOfThree(db.leases[0], db.leases[1], db.leases[2]);
    assert LatestStarted(db.leases, 0, HOUR, 0) == None;
    assert LatestStarted(db.leases, 0, HOUR, 1) == Some(0);
    assert LatestStarted(db.leases, 0, HOUR, 2) == Some(1);
    assert LatestStarted(db.leases, 0, HOUR, 3) == Some(1);
    assert Terminal(db.leases, 1) == Ok(2) by {
      assert TerminalFrom(db.leases, 2, {1} + {2}) == Ok(2);
    }
    assert db.renewals[2].state == Pending && db.renewals[2].owner == 0;
    assert FindKey(db.renewals, 0, key, 3) == None;
    assert FindKey(db.renewals, 0, key, 2) == None;
    assert FindKey(db.renewals, 0, key, 1) == None;
    assert FindKey(db.renewals, 0, key, 0) == None;
  }

  /** After a scan at the hour has activated the second lease. */
  function SecondActive(managed: map<Owner, Managed>): Database {
    Granted1(managed).(leases := [FIRST.(state := Expired, expiredAt := Some(HOUR)), SECOND_LEASE.(state := Active)])
  }

  lemma SecondIsActivated(managed: map<Owner, Managed>)
    requires 0 in managed
    ensures Execute(Empty(managed), FromFirstHour([Timed(Scan(0, NoReply), HOUR, HOUR)] + [])) == SecondActive(managed)
  {
    var db, t := Granted1(managed), Timed(Scan(0, NoReply), HOUR, HOUR);
    FirstHourGranted(managed, [t] + []);
    SuccessorsOfTwo(db.leases[0], db.leases[1]);
    ExecuteFirst(db, t, []);
  }

  /** From that reachable state the recovery function by itself recycles the first lease, which has a successor that
      covers the present; its route refuses. */
  lemma RetryNeedsItsRoute(m: Managed, reply: WorkerReply)
    requires m.container.Some? && |m.keys| > 0 && CleanupSucceeded(reply, m.keys)
    ensures var db := Execute(Empty(map[0 := m]), FromFirstHour([Timed(Scan(0, NoReply), HOUR, HOUR)] + []));
            && |db.leases| == 2 && SuccessorOf(db.leases, 0) == Some(1) && Covers(db.leases[1], HOUR)
            && RetryFailedRecycle(db, 0, HOUR, HOUR, reply).Ok?
            && RetryFailedRecycle(db, 0, HOUR, HOUR, reply).value.0.leases[0].state == RecycleBin
            && RecoverLease(db, 0, HOUR, HOUR, reply) == Err(RecoverySuperseded)
  {
    SecondIsActivated(map[0 := m]);
    var db := SecondActive(map[0 := m]);
    SuccessorsOfTwo(db.leases[0], db.leases[1]);
  }

  /** One hour, lapsed, and a Worker whose answers cannot be decoded: every scan calls it again, no attempt is
      ever recorded, and the environment stays as it was. */
  lemma LostCallIsReachable(m: Managed, n: nat)
    requires m.container.Some? && |m.keys| > 0
    ensures var db := Empty(map[0 := m]).(leases := [FIRST]);
            var scans := seq(n, _ => Timed(Scan(0, Undecodable), HOUR, HOUR));
            && Execute(Empty(map[0 := m]), [Timed(Root(0, 3600, 1), 0, 0)] + []) == db && Due(db, 0, HOUR)
            && Execute(db, scans) == db && |Calls(db, scans)| == n && Attempts(db, scans) == []
  {
    var root, t := Timed(Root(0, 3600, 1), 0, 0), Timed(Scan(0, Undecodable), HOUR, HOUR);
    var db := Empty(map[0 := m]).(leases := [FIRST]);
    ExecuteFirst(Empty(map[0 := m]), root, []);
    assert Apply(Empty(map[0 := m]), root) == db;
    AloneHasNoSuccessor(FIRST);
    assert CallOf(db, t).Some?;
    LostCallRepeats(db, t, n);
    LostCallsLeaveNoAttempt(db, t, n);
  }

  lemma {:induction false} LostCallsLeaveNoAttempt(db: Database, t: Timed, n: nat)
    requires t.step.Scan? && CallOf(db, t).Some? && HoldsUndecodable(t)
    ensures Attempts(db, seq(n, _ => t)) == []
    decreases n
  {
    if n > 0 {
      CallRecordedExactly(db, t);
      assert seq(n, _ => t)[1..] == seq(n - 1, _ => t);
      LostCallsLeaveNoAttempt(db, t, n - 1);
    }
  }
}
