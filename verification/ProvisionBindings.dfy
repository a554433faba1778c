/** Exactly when reservations are released, told from the rows, and what the verification leaves on record. */
module ProvisionBindings {
  import opened Options
  import opened Counting
  import opened ProvisionReconciliation

  // ----- The five rows of a plan -----

  /** A reservation of the plan, of this type, with the value, request and account that the plan has. */
  ghost predicate IsRow(r: Reservation, p: Id, plan: Plan, t: ResourceType) {
    && r.plan == p && r.resource == t && r.request == plan.request && r.account == plan.account
    && r.value == match t
                  case Uid => plan.uid
                  case Gid => plan.gid
                  case ProjectId => plan.project
                  case SshPort => plan.port
                  case ContainerName => plan.container
  }

  /** The identifiers list exactly the reservations of the plan, one of each of the five types. */
  ghost predicate Lists(table: seq<Reservation>, p: Id, plan: Plan, ids: map<ResourceType, Id>) {
    && (forall t: ResourceType :: t in ids && ids[t] < |table| && IsRow(table[ids[t]], p, plan, t))
    && (forall k: Id :: k < |table| && table[k].plan == p ==> ids[table[k].resource] == k)
  }

  function KindsOf(table: seq<Reservation>, rows: seq<Id>): (kinds: seq<ResourceType>)
    requires forall k :: 0 <= k < |rows| ==> rows[k] < |table|
    ensures |kinds| == |rows| && forall k :: 0 <= k < |rows| ==> kinds[k] == table[rows[k]].resource
  {
    seq(|rows|, k requires 0 <= k < |rows| => table[rows[k]].resource)
  }

  function Code(t: ResourceType): (n: nat)
    ensures n < 5
  {
    match t
    case Uid => 0
    case Gid => 1
    case ProjectId => 2
    case SshPort => 3
    case ContainerName => 4
  }

  lemma TypeOfCode(n: nat) returns (t: ResourceType)
    requires n < 5
    ensures Code(t) == n
  {
    t := if n == 0 then Uid else if n == 1 then Gid else if n == 2 then ProjectId else if n == 3 then SshPort
         else ContainerName;
  }

  function Codes(kinds: seq<ResourceType>): (codes: seq<nat>)
    ensures |codes| == |kinds| && forall k :: 0 <= k < |kinds| ==> codes[k] == Code(kinds[k])
  {
    seq(|kinds|, k requires 0 <= k < |kinds| => Code(kinds[k]))
  }

  /** Five places with five types have each type once. */
  lemma FiveTypes(kinds: seq<ResourceType>, i: nat, j: nat)
    requires |kinds| == 5 && (forall t: ResourceType :: t in kinds) && i < j < 5
    ensures kinds[i] != kinds[j]
  {
    if kinds[i] == kinds[j] {
      var shorter := Codes(kinds[..j] + kinds[j + 1..]);
      forall n | n in Below(5) ensures n in shorter {
        var t := TypeOfCode(n);
        assert t in kinds;
        var k :| 0 <= k < 5 && kinds[k] == t;
        var at := if k < j then k else if k == j then i else k - 1;
        assert (kinds[..j] + kinds[j + 1..])[at] == t;
        assert shorter[at] == n;
      }
      ListedAtMost(Below(5), shorter);
    }
  }

  lemma {:induction false} IdsOfDistinct(table: seq<Reservation>, rows: seq<Id>, k: nat)
    requires (forall j :: 0 <= j < |rows| ==> rows[j] < |table|) && k < |rows|
    requires forall i, j :: 0 <= i < j < |rows| ==> table[rows[i]].resource != table[rows[j]].resource
    ensures table[rows[k]].resource in IdsByType(table, rows)
    ensures IdsByType(table, rows)[table[rows[k]].resource] == rows[k]
    decreases |rows|
  {
    if k < |rows| - 1 {
      IdsOfDistinct(table, rows[..|rows| - 1], k);
    }
  }

  lemma BoundRowsAreListed(table: seq<Reservation>, p: Id, plan: Plan, payload: Payload)
    requires RowsBound(table, p, plan, Some(payload))
    ensures payload.request == plan.request && payload.plan == p && Lists(table, p, plan, payload.reservations)
  {
    var rows := RowsOf(table, p, |table|);
    var kinds := KindsOf(table, rows);
    forall t: ResourceType ensures t in kinds && TypeHasRow(table, plan, rows, t) {
      assert (t, Expected(plan, t)) in ExpectedPairs(plan);
      assert (t, Expected(plan, t)) in Pairs(table, rows);
      var k :| 0 <= k < |rows| && (table[rows[k]].resource, table[rows[k]].value) == (t, Expected(plan, t));
      assert kinds[k] == t;
    }
    forall i, j | 0 <= i < j < |rows| ensures table[rows[i]].resource != table[rows[j]].resource {
      FiveTypes(kinds, i, j);
    }
    forall t: ResourceType
      ensures t in payload.reservations && payload.reservations[t] < |table|
      ensures IsRow(table[payload.reservations[t]], p, plan, t)
    {
      assert TypeHasRow(table, plan, rows, t);
      var k :| 0 <= k < |rows| && table[rows[k]].resource == t && table[rows[k]].value == Expected(plan, t);
      IdsOfDistinct(table, rows, k);
    }
    forall k: Id | k < |table| && table[k].plan == p ensures payload.reservations[table[k].resource] == k {
      var j :| 0 <= j < |rows| && rows[j] == k;
      IdsOfDistinct(table, rows, j);
    }
  }

  ghost predicate TypeHasRow(table: seq<Reservation>, plan: Plan, rows: seq<Id>, t: ResourceType)
    requires forall k :: 0 <= k < |rows| ==> rows[k] < |table|
  {
    exists k :: 0 <= k < |rows| && table[rows[k]].resource == t && table[rows[k]].value == Expected(plan, t)
  }

  function Five(ids: map<ResourceType, Id>): (five: set<nat>)
    requires forall t: ResourceType :: t in ids
  {
    {ids[Uid], ids[Gid], ids[ProjectId], ids[SshPort], ids[ContainerName]}
  }

  lemma FiveAreDistinct(table: seq<Reservation>, p: Id, plan: Plan, ids: map<ResourceType, Id>)
    requires Lists(table, p, plan, ids)
    ensures |Five(ids)| == 5
  {
    assert IsRow(table[ids[Uid]], p, plan, Uid) && IsRow(table[ids[Gid]], p, plan, Gid);
    assert IsRow(table[ids[ProjectId]], p, plan, ProjectId) && IsRow(table[ids[SshPort]], p, plan, SshPort);
    assert IsRow(table[ids[ContainerName]], p, plan, ContainerName);
  }

  lemma FiveAreRows(table: seq<Reservation>, p: Id, plan: Plan, ids: map<ResourceType, Id>, k: Id)
    requires Lists(table, p, plan, ids) && k in Five(ids)
    ensures k in RowsOf(table, p, |table|)
  {
    var t :| t in {Uid, Gid, ProjectId, SshPort, ContainerName} && ids[t] == k;
    assert IsRow(table[ids[t]], p, plan, t);
  }

  lemma ListedRowsAreFive(table: seq<Reservation>, p: Id, plan: Plan, ids: map<ResourceType, Id>)
    requires Lists(table, p, plan, ids)
    ensures |RowsOf(table, p, |table|)| == 5
  {
    var rows := RowsOf(table, p, |table|);
    FiveAreDistinct(table, p, plan, ids);
    forall k | k in Five(ids) ensures k in rows {
      FiveAreRows(table, p, plan, ids, k);
    }
    ListedAtMost(Five(ids), rows);
    forall k | 0 <= k < |rows| ensures rows[k] in Five(ids) {
      ListedIsAmongFive(table, p, plan, ids, rows[k]);
    }
    DistinctAtMost(rows, Five(ids));
  }

  lemma ListedIsAmongFive(table: seq<Reservation>, p: Id, plan: Plan, ids: map<ResourceType, Id>, k: Id)
    requires Lists(table, p, plan, ids) && k < |table| && table[k].plan == p
    ensures k in Five(ids)
  {
    assert ids[table[k].resource] == k;
  }

  /** A list without repetitions of elements of a set is no longer than the set. */
  lemma {:induction false} DistinctAtMost(list: seq<nat>, s: set<nat>)
    requires (forall i, j :: 0 <= i < j < |list| ==> list[i] < list[j]) && forall k :: 0 <= k < |list| ==> list[k] in s
    ensures |list| <= |s|
    decreases |list|
  {
    if |list| > 0 {
      var last := list[|list| - 1];
      DistinctAtMost(list[..|list| - 1], s - {last});
      assert |s - {last}| == |s| - 1;
    }
  }

  lemma ListedRowsDiffer(table: seq<Reservation>, p: Id, plan: Plan, ids: map<ResourceType, Id>, rows: seq<Id>)
    requires Lists(table, p, plan, ids) && rows == RowsOf(table, p, |table|)
    ensures forall i, j :: 0 <= i < j < |rows| ==> table[rows[i]].resource != table[rows[j]].resource
  {
    forall i, j | 0 <= i < j < |rows| ensures table[rows[i]].resource != table[rows[j]].resource {
      assert ids[table[rows[i]].resource] == rows[i] && ids[table[rows[j]].resource] == rows[j];
    }
  }

  lemma ListedId(table: seq<Reservation>, p: Id, plan: Plan, ids: map<ResourceType, Id>, rows: seq<Id>, t: ResourceType)
    requires Lists(table, p, plan, ids) && rows == RowsOf(table, p, |table|)
    requires forall i, j :: 0 <= i < j < |rows| ==> table[rows[i]].resource != table[rows[j]].resource
    ensures t in IdsByType(table, rows) && IdsByType(table, rows)[t] == ids[t]
  {
    assert IsRow(table[ids[t]], p, plan, t);
    var k :| 0 <= k < |rows| && rows[k] == ids[t];
    IdsOfDistinct(table, rows, k);
  }

  lemma ListedIds(table: seq<Reservation>, p: Id, plan: Plan, ids: map<ResourceType, Id>, rows: seq<Id>)
    requires Lists(table, p, plan, ids) && rows == RowsOf(table, p, |table|)
    ensures IdsByType(table, rows) == ids
  {
    ListedRowsDiffer(table, p, plan, ids, rows);
    forall t: ResourceType ensures t in IdsByType(table, rows) && IdsByType(table, rows)[t] == ids[t] {
      ListedId(table, p, plan, ids, rows, t);
    }
  }

  lemma ListedPairs(table: seq<Reservation>, p: Id, plan: Plan, ids: map<ResourceType, Id>, rows: seq<Id>)
    requires Lists(table, p, plan, ids) && rows == RowsOf(table, p, |table|)
    ensures Pairs(table, rows) == ExpectedPairs(plan)
    ensures forall k :: 0 <= k < |rows| ==>
              table[rows[k]].request == plan.request && table[rows[k]].account == plan.account
  {
    forall t: ResourceType ensures (t, Expected(plan, t)) in Pairs(table, rows) {
      assert IsRow(table[ids[t]], p, plan, t);
      var k :| 0 <= k < |rows| && rows[k] == ids[t];
      assert (table[rows[k]].resource, table[rows[k]].value) == (t, Expected(plan, t));
    }
    forall k | 0 <= k < |rows|
      ensures table[rows[k]].value == Expected(plan, table[rows[k]].resource)
      ensures table[rows[k]].request == plan.request && table[rows[k]].account == plan.account
    {
      assert ids[table[rows[k]].resource] == rows[k] && IsRow(table[rows[k]], p, plan, table[rows[k]].resource);
    }
  }

  lemma ListedRowsAreBound(table: seq<Reservation>, p: Id, plan: Plan, payload: Payload)
    requires payload.request == plan.request && payload.plan == p && Lists(table, p, plan, payload.reservations)
    ensures RowsBound(table, p, plan, Some(payload))
  {
    var rows := RowsOf(table, p, |table|);
    ListedRowsAreFive(table, p, plan, payload.reservations);
    ListedIds(table, p, plan, payload.reservations, rows);
    ListedPairs(table, p, plan, payload.reservations, rows);
  }

  /** The rows are bound to the plan exactly when the payload lists them. */
  lemma RowsBoundExactly(table: seq<Reservation>, p: Id, plan: Plan, payload: Option<Payload>)
    ensures RowsBound(table, p, plan, payload) <==>
            && payload.Some? && payload.value.request == plan.request && payload.value.plan == p
            && Lists(table, p, plan, payload.value.reservations)
  {
    if RowsBound(table, p, plan, payload) {
      BoundRowsAreListed(table, p, plan, payload.value);
    } else if payload.Some? && payload.value.request == plan.request && payload.value.plan == p
              && Lists(table, p, plan, payload.value.reservations) {
      ListedRowsAreBound(table, p, plan, payload.value);
      assert false;
    }
  }

  // ----- Release -----

  /** A reservation that is still held for a failed attempt. */
  ghost predicate StillHeld(r: Reservation) {
    && r.state == FailedHold && r.consumedAt == None && r.releasedAt == None
    && r.activeKey == Some((match r.resource
                            case Uid => "UID"
                            case Gid => "GID"
                            case ProjectId => "PROJECT_ID"
                            case SshPort => "SSH_PORT"
                            case ContainerName => "CONTAINER_NAME") + ":" + r.value)
  }

  /** The failed request of this plan and account, which has neither a slot nor a user. */
  ghost predicate HoldsNothing(item: Request, p: Id, account: Id) {
    && item.status == "FAILED" && item.activeSlot == None && item.managedUser == None
    && item.plan == Some(p) && item.account == account
  }

  /** The attempt is over and failed: its plan, its request, which holds nothing, and its latest stage, whose rollback
      needs review. */
  ghost predicate FailedAttempt(s: Store, p: Id, op: Id) {
    && p < |s.plans| && s.plans[p].request < |s.requests| && op < |s.operations|
    && s.plans[p].state == "FAILED" && HoldsNothing(s.requests[s.plans[p].request], p, s.plans[p].account)
    && FailedStage(s.operations, s.plans[p], p, |s.operations|) == Some(op)
    && s.operations[op].rollbackStatus == Some("REQUIRES_MANUAL_REVIEW")
  }

  /** The attempt's own reservations: one of each type as planned, listed by its stage, every one still held. */
  ghost predicate HoldsFive(s: Store, p: Id, op: Id)
    requires p < |s.plans| && op < |s.operations|
  {
    var payload := s.operations[op].payload;
    && payload.Some? && payload.value.request == s.plans[p].request && payload.value.plan == p
    && Lists(s.reservations, p, s.plans[p], payload.value.reservations)
    && forall k :: 0 <= k < |s.reservations| && s.reservations[k].plan == p ==> StillHeld(s.reservations[k])
  }

  /** The Worker confirms that nothing is left, and the portal has no identity of the account. */
  ghost predicate NothingLeft(s: Store, account: Id, reply: WorkerReply) {
    && (account !in s.portal || !s.portal[account].identity)
    && reply.Reply? && reply.status == "DRY_RUN" && reply.handler == "compute.provision.retry_verify"
    && reply.verification == "VERIFIED_ZERO_RESIDUE" && reply.integrity == "PASS"
    && reply.residue == Some([]) && reply.unknown == Some([])
  }

  ghost predicate Releasable(s: Store, p: Id, op: Id, reply: WorkerReply) {
    FailedAttempt(s, p, op) && HoldsFive(s, p, op) && NothingLeft(s, s.plans[p].account, reply)
  }

  lemma HeldIsStillHeld(r: Reservation)
    ensures Held(r) <==> StillHeld(r)
  {
  }

  lemma EligibleExactly(s: Store, p: Id, op: Id)
    requires p < |s.plans| && op < |s.operations| && s.plans[p].request < |s.requests|
    requires FailedStage(s.operations, s.plans[p], p, |s.operations|) == Some(op)
    ensures Eligible(s, p, op) <==> FailedAttempt(s, p, op) && HoldsFive(s, p, op)
  {
    RowsBoundExactly(s.reservations, p, s.plans[p], s.operations[op].payload);
    forall k | 0 <= k < |s.reservations| ensures Held(s.reservations[k]) <==> StillHeld(s.reservations[k]) {
      HeldIsStillHeld(s.reservations[k]);
    }
  }

  lemma PortalIsEmptyExactly(portal: map<Id, PortalRows>, account: Id)
    ensures PortalResidue(portal, account) == [] <==> account !in portal || !portal[account].identity
  {
    if account in portal && portal[account].identity {
      assert PortalResidue(portal, account)[0] == "PORTAL_COMPUTE_IDENTITY";
    }
  }

  lemma EligibleIsNotReconciled(s: Store, p: Id, op: Id)
    requires p < |s.plans| && op < |s.operations| && s.plans[p].request < |s.requests| && Eligible(s, p, op)
    ensures !AlreadyReconciled(s, p, op)
  {
    assert "REQUIRES_MANUAL_REVIEW"[1] != "ROLLED_BACK"[1];
  }

  /** Reservations are released exactly when the attempt has failed, holds its five, and nothing of it is left. */
  lemma ReleasesExactly(s: Store, p: Id, reply: WorkerReply, now: Time)
    ensures ReconcilePlan(s, p, reply, now).1.changed <==> exists op :: Releasable(s, p, op, reply)
  {
    if p < |s.plans| && s.plans[p].request < |s.requests| {
      var stage := FailedStage(s.operations, s.plans[p], p, |s.operations|);
      if stage.Some? {
        var op := stage.value;
        EligibleExactly(s, p, op);
        if Eligible(s, p, op) {
          EligibleIsNotReconciled(s, p, op);
          var account := s.requests[s.plans[p].request].account;
          PortalIsEmptyExactly(s.portal, account);
          AllAbsentExactly(PortalResidue(s.portal, account), reply);
          if NothingLeft(s, account, reply) {
            assert Releasable(s, p, op, reply);
          }
        }
      }
    }
  }

  /** What a release writes: the rows of the plan free since now, all others as they were. */
  lemma ReleaseRecords(s: Store, p: Id, reply: WorkerReply, now: Time)
    requires ReconcilePlan(s, p, reply, now).1.changed
    ensures var after := ReconcilePlan(s, p, reply, now).0;
            && after == s.(operations := after.operations, reservations := after.reservations)
            && |after.reservations| == |s.reservations|
            && forall k :: 0 <= k < |s.reservations| ==>
                 var r := s.reservations[k];
                 after.reservations[k] == if r.plan == p
                                          then r.(state := Released, activeKey := None, releasedAt := Some(now))
                                          else r
  {
    AllOrNone(s, p, reply, now);
  }

  // ----- What the attempt is read from -----

  /** A failed provisioning stage, attempt or retry of the request, made for this plan. */
  ghost predicate FailedFor(o: Operation, request: Id, p: Id) {
    && o.targetType == "compute_resource_request" && o.target == request && o.failed
    && (o.kind == "compute.provision.stage" || o.kind == "compute.provision" || o.kind == "compute.provision.retry")
    && o.payload.Some? && o.payload.value.plan == p
  }

  /** The plan's stage is the latest such operation, if there is one. */
  lemma StageIsLatest(operations: seq<Operation>, plan: Plan, p: Id)
    ensures match FailedStage(operations, plan, p, |operations|)
            case None => forall k :: 0 <= k < |operations| ==> !FailedFor(operations[k], plan.request, p)
            case Some(op) =>
              && op < |operations| && FailedFor(operations[op], plan.request, p)
              && forall k :: 0 <= k < |operations| && FailedFor(operations[k], plan.request, p) ==>
                   operations[k].createdAt <= operations[op].createdAt
  {
    forall k | 0 <= k < |operations|
      ensures FailedFor(operations[k], plan.request, p) <==> IsFailedStage(operations[k], plan, p)
    {
    }
  }

  /** The portal still holds exactly what it names, each thing once, and nothing without an identity. */
  lemma PortalResidueExactly(portal: map<Id, PortalRows>, account: Id, name: string)
    ensures var residue := PortalResidue(portal, account);
            && (name in residue <==> account in portal && portal[account].identity && HeldUnder(portal[account], name))
            && forall i, j :: 0 <= i < j < |residue| ==> residue[i] != residue[j]
  {
    NamesDiffer();
  }

  ghost predicate HeldUnder(rows: PortalRows, name: string) {
    || name == "PORTAL_COMPUTE_IDENTITY"
    || (name == "PORTAL_CONTAINER" && rows.container)
    || (name == "PORTAL_STORAGE" && rows.storage)
    || (name == "PORTAL_LEASE" && rows.lease)
    || (name == "PORTAL_SSH_KEY" && rows.sshKey)
  }

  lemma NamesDiffer()
    ensures "PORTAL_COMPUTE_IDENTITY"[8] == 'O' && "PORTAL_COMPUTE_IDENTITY"[9] == 'M'
    ensures "PORTAL_CONTAINER"[8] == 'O' && "PORTAL_CONTAINER"[9] == 'N' && "PORTAL_STORAGE"[8] == 'T'
    ensures "PORTAL_LEASE"[8] == 'E' && "PORTAL_SSH_KEY"[8] == 'S'
  {
  }

  // ----- The record of the verification -----

  /** Each attempt that asks the Worker records what it found on the stage, and whether it was rolled back; a stage
      without side effects stays classified so, any other becomes partial once it is rolled back. */
  lemma VerificationIsRecorded(s: Store, p: Id, reply: WorkerReply, now: Time)
    requires ReconcilePlan(s, p, reply, now).1.called && !reply.Undecodable?
    ensures var (after, outcome) := ReconcilePlan(s, p, reply, now);
            && p < |s.plans| && s.plans[p].request < |s.requests| && outcome.stage.Some?
            && outcome.stage.value < |s.operations|
            && var op := outcome.stage.value;
               var before, stage := s.operations[op], after.operations[op];
               && after.operations == s.operations[op := stage]
               && stage == before.(rollbackStatus := stage.rollbackStatus, evidence := stage.evidence)
               && stage.evidence.Some?
               && stage.evidence.value.reconciliation
                  == Some(ZeroResidue(PortalResidue(s.portal, s.requests[s.plans[p].request].account), reply))
               && stage.rollbackStatus == Some(if outcome.changed then "ROLLED_BACK" else "REQUIRES_MANUAL_REVIEW")
               && var was := if before.evidence.None? then None else before.evidence.value.classification;
                  stage.evidence.value.classification
                  == if !outcome.changed then was
                     else if was == Some("NO_SIDE_EFFECT") then Some("NO_SIDE_EFFECT") else Some("PARTIAL_ROLLED_BACK")
  {
  }

  /** The text itself if it is short enough, and its beginning otherwise. */
  ghost predicate CutTo(text: string, n: nat, cut: string) {
    cut <= text && |cut| <= n && (|cut| < n ==> cut == text)
  }

  /** What is found is the Worker's lists, entries cut to 128 characters, with a mark where a list is missing. */
  lemma VerificationTells(portal: seq<string>, reply: WorkerReply)
    requires reply.Reply?
    ensures var v := ZeroResidue(portal, reply);
            && v.portalResidue == portal && CutTo(reply.integrity, 16, v.integrity)
            && (reply.residue.None? ==> v.hostResidue == [])
            && (reply.residue.Some? ==>
                  && |v.hostResidue| == |reply.residue.value|
                  && forall k :: 0 <= k < |v.hostResidue| ==> CutTo(reply.residue.value[k], 128, v.hostResidue[k]))
            && (reply.residue.None? || reply.unknown.None? ==>
                  |v.unknown| > 0 && v.unknown[|v.unknown| - 1] == "ROOT_WORKER_RESULT")
            && (reply.residue.Some? && reply.unknown.Some? ==>
                  && |v.unknown| == |reply.unknown.value|
                  && forall k :: 0 <= k < |v.unknown| ==> CutTo(reply.unknown.value[k], 128, v.unknown[k]))
            && (v.verified ==> portal == [] && reply.residue == Some([]) && reply.unknown == Some([]))
  {
    AllAbsentExactly(portal, reply);
  }

  /** Without an answer nothing is verified, and the client's error stands for what is not known. */
  lemma SilenceTells(portal: seq<string>, code: string)
    ensures var v := ZeroResidue(portal, NoReply(code));
            && !v.verified && v.portalResidue == portal && v.hostResidue == [] && v.integrity == "UNKNOWN"
            && |v.unknown| == 1 && CutTo("ROOT_WORKER:" + code, 128, v.unknown[0])
  {
  }
}
