/**
 * Properties that relate the mutating handlers to the queries: how each transition
 * moves the statistics, and the create / review / verify / use cycle of one pass.
 */
module Lifecycle {
  import opened Wrappers
  import opened Records
  import opened Queries
  import opened Service

  /** A create adds one pending record; the today count grows when it falls on the queried day. */
  lemma StatsAfterCreate(requests: seq<Request>, clock: nat, studentId: string, studentName: string,
                         reason: string, returnTime: string, now: int, dayOf: int -> int, at: int)
    ensures
      var before := ComputeStats(requests, dayOf, at);
      var after := ComputeStats(requests + [NewRequest(clock, studentId, studentName, reason, returnTime, now)],
                                dayOf, at);
      && after.total == before.total + 1
      && after.pending == before.pending + 1
      && after.approved == before.approved
      && after.rejected == before.rejected
      && after.today == before.today + (if dayOf(now) == dayOf(at) then 1 else 0)
      && after.used == before.used
  {
    var x := NewRequest(clock, studentId, studentName, reason, returnTime, now);
    var ps := [HasStatus(Pending), HasStatus(Approved), HasStatus(Rejected), OnDay(dayOf, dayOf(at)), IsUsed()];
    forall k | 0 <= k < |ps|
      ensures |Filter(requests + [x], ps[k])| == |Filter(requests, ps[k])| + (if ps[k](x) then 1 else 0)
    {
      FilterAppend(requests, [x], ps[k]);
      FilterSingle(x, ps[k]);
    }
    assert ps[0](x) && !ps[1](x) && !ps[2](x) && !ps[4](x);
    assert ps[3](x) <==> dayOf(now) == dayOf(at);
  }

  /** A review moves one record from pending to the decided status; the other counts stay. */
  lemma StatsAfterReview(requests: seq<Request>, i: nat, decision: Status, moderatorId: string,
                         moderatorName: string, remarks: Option<string>, now: int,
                         dayOf: int -> int, at: int)
    requires i < |requests| && requests[i].status == Pending
    requires decision == Approved || decision == Rejected
    ensures
      var before := ComputeStats(requests, dayOf, at);
      var after := ComputeStats(requests[i := Reviewed(requests[i], decision, moderatorId, moderatorName,
                                                      remarks, now)], dayOf, at);
      && after.total == before.total
      && after.pending + 1 == before.pending
      && after.approved == before.approved + (if decision == Approved then 1 else 0)
      && after.rejected == before.rejected + (if decision == Rejected then 1 else 0)
      && after.today == before.today
      && after.used == before.used
  {
    var x := Reviewed(requests[i], decision, moderatorId, moderatorName, remarks, now);
    var ps := [HasStatus(Pending), HasStatus(Approved), HasStatus(Rejected), OnDay(dayOf, dayOf(at)), IsUsed()];
    forall k | 0 <= k < |ps|
      ensures |Filter(requests[i := x], ps[k])| + (if ps[k](requests[i]) then 1 else 0)
           == |Filter(requests, ps[k])| + (if ps[k](x) then 1 else 0)
    {
      FilterCountUpdate(requests, i, x, ps[k]);
    }
    assert ps[0](requests[i]) && !ps[1](requests[i]) && !ps[2](requests[i]);
    assert !ps[0](x) && (ps[1](x) <==> decision == Approved) && (ps[2](x) <==> decision == Rejected);
    assert ps[3](x) == ps[3](requests[i]) && ps[4](x) == ps[4](requests[i]);
  }

  /** Marking an unused record used raises the used count by one and nothing else. */
  lemma StatsAfterMarkUsed(requests: seq<Request>, i: nat, now: int, dayOf: int -> int, at: int)
    requires i < |requests| && !requests[i].used
    ensures
      var before := ComputeStats(requests, dayOf, at);
      var after := ComputeStats(requests[i := MarkedUsed(requests[i], now)], dayOf, at);
      && after.total == before.total
      && after.pending == before.pending
      && after.approved == before.approved
      && after.rejected == before.rejected
      && after.today == before.today
      && after.used == before.used + 1
  {
    var x := MarkedUsed(requests[i], now);
    var ps := [HasStatus(Pending), HasStatus(Approved), HasStatus(Rejected), OnDay(dayOf, dayOf(at)), IsUsed()];
    forall k | 0 <= k < |ps|
      ensures |Filter(requests[i := x], ps[k])| + (if ps[k](requests[i]) then 1 else 0)
           == |Filter(requests, ps[k])| + (if ps[k](x) then 1 else 0)
    {
      FilterCountUpdate(requests, i, x, ps[k]);
    }
    assert ps[0](x) == ps[0](requests[i]);
    assert ps[1](x) == ps[1](requests[i]);
    assert ps[2](x) == ps[2](requests[i]);
    assert ps[3](x) == ps[3](requests[i]);
    assert ps[4](x) && !ps[4](requests[i]);
  }

  /** When exactly one record is a valid pass of the student, verification returns it. */
  lemma VerifySoleValidPass(requests: seq<Request>, n: nat, studentId: string)
    requires n < |requests| && IsValidPass(requests[n], studentId)
    requires forall k :: 0 <= k < |requests| && k != n ==> !IsValidPass(requests[k], studentId)
    ensures Verify(requests, studentId) == Some(requests[n])
  {
    var pass := Verify(requests, studentId);
    var j :| 0 <= j < |requests| && requests[j] == pass.value;
  }

  /**
   * The life of one pass: a student with no valid pass creates a request under a
   * fresh id; a moderator approves it; verification then returns exactly it; the
   * gate marks it used; verification then finds no pass for the student.
   */
  lemma PassLifecycle(requests: seq<Request>, clock: nat, studentId: string, studentName: string,
                      reason: string, returnTime: string, createdAt: int,
                      moderatorId: string, moderatorName: string, reviewedAt: int, usedAt: int)
    requires forall k :: 0 <= k < |requests| ==> !IsValidPass(requests[k], studentId)
    requires forall k :: 0 <= k < |requests| ==> requests[k].id != RequestId(clock)
    requires moderatorId != "" && moderatorName != ""
    ensures
      var n := |requests|;
      var id := RequestId(clock);
      var created := requests + [NewRequest(clock, studentId, studentName, reason, returnTime, createdAt)];
      var approved := created[n := Reviewed(created[n], Approved, moderatorId, moderatorName, None, reviewedAt)];
      && ReviewCheck(created, id, Some("Approved"), Some(moderatorId), Some(moderatorName)) == Success(n)
      && Verify(approved, studentId) == Some(approved[n])
      && MarkUsedCheck(approved, id) == Success(n)
      && Verify(approved[n := MarkedUsed(approved[n], usedAt)], studentId) == None
  {
    var n := |requests|;
    var id := RequestId(clock);
    var created := requests + [NewRequest(clock, studentId, studentName, reason, returnTime, createdAt)];
    FreshIdIsLast(requests, created[n]);
    var approved := created[n := Reviewed(created[n], Approved, moderatorId, moderatorName, None, reviewedAt)];
    IndexOfIdUpdate(created, n, approved[n], id);
    UpdateKeepsOthersInvalid(created, n, approved, studentId);
    VerifySoleValidPass(approved, n, studentId);
    var used := approved[n := MarkedUsed(approved[n], usedAt)];
    UpdateKeepsOthersInvalid(approved, n, used, studentId);
  }

  /** A record appended under an id no other record has is the first match for that id. */
  lemma FreshIdIsLast(requests: seq<Request>, x: Request)
    requires forall k :: 0 <= k < |requests| ==> requests[k].id != x.id
    ensures IndexOfId(requests + [x], x.id) == Some(|requests|)
  {
    var all := requests + [x];
    assert all[|requests|].id == x.id;
    var found := IndexOfId(all, x.id);
    assert found.Some? && !(found.value < |requests|);
  }

  /** Replacing record n leaves every other record's pass validity as it was. */
  lemma UpdateKeepsOthersInvalid(requests: seq<Request>, n: nat, after: seq<Request>, studentId: string)
    requires n < |requests| && |after| == |requests|
    requires forall k :: 0 <= k < |requests| && k != n ==> after[k] == requests[k]
    requires forall k :: 0 <= k < |requests| && k != n ==> !IsValidPass(requests[k], studentId)
    ensures forall k :: 0 <= k < |after| && k != n ==> !IsValidPass(after[k], studentId)
  {
  }
}
