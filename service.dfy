/**
 * The mutating handlers: create, review and mark-used.  Each reads the database
 * file, checks its inputs in a fixed order, changes one record or appends one, and
 * writes the whole dataset back; nothing is committed when the write fails.
 */
module Service {
  import opened Wrappers
  import opened Records
  import opened Storage
  import opened Queries

  // ------------------------------------------------------------------ lookup

  /** The index of the first request with the given id (Array.prototype.findIndex). */
  function IndexOfId(requests: seq<Request>, id: string): (i: Option<nat>)
    ensures i.None? <==> forall j :: 0 <= j < |requests| ==> requests[j].id != id
    ensures i.Some? ==>
      && i.value < |requests| && requests[i.value].id == id
      && (forall j :: 0 <= j < i.value ==> requests[j].id != id)
  {
    if requests == [] then None
    else if requests[0].id == id then Some(0)
    else
      match IndexOfId(requests[1..], id)
      case None => None
      case Some(k) => Some(k + 1)
  }

  /** The first match depends only on the ids, so updating a record that keeps its id keeps it. */
  lemma IndexOfIdUpdate(requests: seq<Request>, i: nat, x: Request, id: string)
    requires i < |requests| && x.id == requests[i].id
    ensures IndexOfId(requests[i := x], id) == IndexOfId(requests, id)
  {
    var updated := requests[i := x];
    assert forall j :: 0 <= j < |requests| ==> updated[j].id == requests[j].id;
    match IndexOfId(requests, id)
    case None =>
    case Some(k) =>
      var k' := IndexOfId(updated, id).value;
      assert !(k' < k) && !(k < k');
  }

  // ------------------------------------------------------------------ create

  /** The four create fields are all sent and non-empty. */
  predicate CreateFieldsPresent(studentId: Option<string>, studentName: Option<string>,
                                reason: Option<string>, returnTime: Option<string>) {
    Present(studentId) && Present(studentName) && Present(reason) && Present(returnTime)
  }

  /**
   * The record a create appends: pending, unused, no moderator or usage data.
   * `clock` is the millisecond clock read for the id, `now` the creation instant.
   */
  function NewRequest(clock: nat, studentId: string, studentName: string, reason: string,
                      returnTime: string, now: int): (r: Request)
    ensures r.id == "REQ" + Decimal(clock)
    ensures r.studentId == studentId && r.studentName == studentName
    ensures r.reason == reason && r.returnTime == returnTime
    ensures r.status == Pending && r.timestamp == now && !r.used
    ensures r.moderatorId.None? && r.moderatorName.None? && r.moderatorRemarks.None?
    ensures r.reviewedAt.None? && r.usedAt.None?
    ensures !IsValidPass(r, studentId)
  {
    Request(RequestId(clock), studentId, studentName, reason, returnTime, Pending, now,
            None, None, None, None, false, None)
  }

  // ------------------------------------------------------------------ review

  /** The status, moderator id and moderator name are all sent and non-empty. */
  predicate ReviewFieldsPresent(status: Option<string>, moderatorId: Option<string>,
                                moderatorName: Option<string>) {
    Present(status) && Present(moderatorId) && Present(moderatorName)
  }

  /** A review decision is one of the two exact texts. */
  predicate IsDecision(status: string) {
    status == "Approved" || status == "Rejected"
  }

  function Decision(status: string): (st: Status)
    requires IsDecision(status)
    ensures st == Approved || st == Rejected
  {
    if status == "Approved" then Approved else Rejected
  }

  /**
   * The checks of a review, in the order the handler runs them; on success, the
   * index of the record to update.
   */
  function ReviewCheck(requests: seq<Request>, requestId: string, status: Option<string>,
                       moderatorId: Option<string>, moderatorName: Option<string>)
    : (r: Result<nat, Error>)
    ensures r == Failure(MissingFields) <==> !ReviewFieldsPresent(status, moderatorId, moderatorName)
    ensures r == Failure(InvalidStatus) <==>
      ReviewFieldsPresent(status, moderatorId, moderatorName) && !IsDecision(status.value)
    ensures r == Failure(RequestNotFound) <==>
      ReviewFieldsPresent(status, moderatorId, moderatorName) && IsDecision(status.value)
      && forall j :: 0 <= j < |requests| ==> requests[j].id != requestId
    ensures r == Failure(AlreadyReviewed) <==>
      ReviewFieldsPresent(status, moderatorId, moderatorName) && IsDecision(status.value)
      && (exists i :: 0 <= i < |requests| && requests[i].id == requestId
            && (forall j :: 0 <= j < i ==> requests[j].id != requestId)
            && requests[i].status != Pending)
    ensures r.Success? ==>
      ReviewFieldsPresent(status, moderatorId, moderatorName) && IsDecision(status.value)
      && r.value < |requests| && requests[r.value].id == requestId
      && (forall j :: 0 <= j < r.value ==> requests[j].id != requestId)
      && requests[r.value].status == Pending
    ensures r.Failure? ==> r.error in {MissingFields, InvalidStatus, RequestNotFound, AlreadyReviewed}
  {
    if !ReviewFieldsPresent(status, moderatorId, moderatorName) then Failure(MissingFields)
    else if !IsDecision(status.value) then Failure(InvalidStatus)
    else
      match IndexOfId(requests, requestId)
      case None => Failure(RequestNotFound)
      case Some(i) => if requests[i].status != Pending then Failure(AlreadyReviewed) else Success(i)
  }

  /**
   * A reviewed record: the decision, the moderator, the remarks (empty text when none
   * are sent) and the review instant; usage fields untouched.
   */
  function Reviewed(r: Request, decision: Status, moderatorId: string, moderatorName: string,
                    remarks: Option<string>, now: int): (after: Request)
    ensures after.status == decision && after.reviewedAt == Some(now)
    ensures after.moderatorId == Some(moderatorId) && after.moderatorName == Some(moderatorName)
    ensures after.moderatorRemarks == Some(if Present(remarks) then remarks.value else "")
    ensures after.(status := r.status, moderatorId := r.moderatorId, moderatorName := r.moderatorName,
                   moderatorRemarks := r.moderatorRemarks, reviewedAt := r.reviewedAt) == r
  {
    r.(status := decision, moderatorId := Some(moderatorId), moderatorName := Some(moderatorName),
       moderatorRemarks := Some(remarks.GetOr("")), reviewedAt := Some(now))
  }

  /** A second review of a reviewed request fails: its fields or status are rejected, or it is already reviewed. */
  lemma ReviewIsOneShot(requests: seq<Request>, requestId: string, status: Option<string>,
                        moderatorId: Option<string>, moderatorName: Option<string>,
                        remarks: Option<string>, now: int,
                        status2: Option<string>, moderatorId2: Option<string>,
                        moderatorName2: Option<string>)
    requires ReviewCheck(requests, requestId, status, moderatorId, moderatorName).Success?
    ensures
      var i := ReviewCheck(requests, requestId, status, moderatorId, moderatorName).value;
      var after := requests[i := Reviewed(requests[i], Decision(status.value), moderatorId.value,
                                          moderatorName.value, remarks, now)];
      ReviewCheck(after, requestId, status2, moderatorId2, moderatorName2)
        == if !ReviewFieldsPresent(status2, moderatorId2, moderatorName2) then Failure(MissingFields)
           else if !IsDecision(status2.value) then Failure(InvalidStatus)
           else Failure(AlreadyReviewed)
  {
    var i := ReviewCheck(requests, requestId, status, moderatorId, moderatorName).value;
    var x := Reviewed(requests[i], Decision(status.value), moderatorId.value, moderatorName.value, remarks, now);
    assert IndexOfId(requests, requestId) == Some(i);
    IndexOfIdUpdate(requests, i, x, requestId);
  }

  // ---------------------------------------------------------------- mark used

  /** The checks of mark-used: the id must exist and the pass must be unused; the status is not checked. */
  function MarkUsedCheck(requests: seq<Request>, requestId: string): (r: Result<nat, Error>)
    ensures r == Failure(RequestNotFound) <==> forall j :: 0 <= j < |requests| ==> requests[j].id != requestId
    ensures r == Failure(AlreadyUsed) <==>
      exists i :: 0 <= i < |requests| && requests[i].id == requestId
        && (forall j :: 0 <= j < i ==> requests[j].id != requestId) && requests[i].used
    ensures r.Success? ==>
      r.value < |requests| && requests[r.value].id == requestId
      && (forall j :: 0 <= j < r.value ==> requests[j].id != requestId) && !requests[r.value].used
    ensures r.Failure? ==> r.error in {RequestNotFound, AlreadyUsed}
  {
    match IndexOfId(requests, requestId)
    case None => Failure(RequestNotFound)
    case Some(i) => if requests[i].used then Failure(AlreadyUsed) else Success(i)
  }

  /** A used record: the flag set and the usage instant recorded; everything else untouched. */
  function MarkedUsed(r: Request, now: int): (after: Request)
    ensures after.used && after.usedAt == Some(now)
    ensures after.(used := r.used, usedAt := r.usedAt) == r
    ensures after.status == r.status && !IsValidPass(after, r.studentId)
  {
    r.(used := true, usedAt := Some(now))
  }

  /** Marking the same pass used a second time fails. */
  lemma MarkUsedIsOneShot(requests: seq<Request>, requestId: string, now: int)
    requires MarkUsedCheck(requests, requestId).Success?
    ensures
      var i := MarkUsedCheck(requests, requestId).value;
      MarkUsedCheck(requests[i := MarkedUsed(requests[i], now)], requestId) == Failure(AlreadyUsed)
  {
    var i := MarkUsedCheck(requests, requestId).value;
    assert IndexOfId(requests, requestId) == Some(i);
    IndexOfIdUpdate(requests, i, MarkedUsed(requests[i], now), requestId);
  }

  // ----------------------------------------------------------- the database

  /** The database file and the handlers that change it. */
  class GateDB {
    /** The parsed content of the database file; None when it is missing or does not parse. */
    var file: Option<Dataset>

    constructor (file: Option<Dataset>)
      ensures this.file == file
    {
      this.file := file;
    }

    /** The dataset every handler starts from. */
    function Loaded(): Dataset
      reads this
    {
      ReadDatabase(file)
    }

    /**
     * Create a request.  Missing fields are rejected before the file is read; on
     * success the new record is appended to the loaded requests and the whole
     * dataset is written back.
     */
    method Create(studentId: Option<string>, studentName: Option<string>, reason: Option<string>,
                  returnTime: Option<string>, clock: nat, now: int, saved: bool)
      returns (res: Result<Request, Error>)
      modifies this
      ensures !CreateFieldsPresent(studentId, studentName, reason, returnTime) ==>
        res == Failure(MissingFields) && file == old(file)
      ensures CreateFieldsPresent(studentId, studentName, reason, returnTime) && !saved ==>
        res == Failure(SaveFailed) && file == old(file)
      ensures CreateFieldsPresent(studentId, studentName, reason, returnTime) && saved ==>
        && res == Success(NewRequest(clock, studentId.value, studentName.value, reason.value,
                                     returnTime.value, now))
        && file == Some(Dataset(old(Loaded()).users, old(Loaded()).requests + [res.value]))
      ensures old(file).None? && res.Success? ==> file == Some(Dataset([], [res.value]))
      ensures AllKnown(old(Loaded()).requests) ==> AllKnown(Loaded().requests)
    {
      if !CreateFieldsPresent(studentId, studentName, reason, returnTime) {
        return Failure(MissingFields);
      }
      var db := ReadDatabase(file);
      var request := NewRequest(clock, studentId.value, studentName.value, reason.value,
                                returnTime.value, now);
      var requests := db.requests + [request];
      assert db.requests == [] ==> requests == [request];
      if !saved {
        return Failure(SaveFailed);
      }
      file := Some(db.(requests := requests));
      res := Success(request);
    }

    /**
     * Review a request.  On success only the target record changes, to
     * `Reviewed(...)`, and the updated record is returned.
     */
    method Review(requestId: string, status: Option<string>, moderatorId: Option<string>,
                  moderatorName: Option<string>, remarks: Option<string>, now: int, saved: bool)
      returns (res: Result<Request, Error>)
      modifies this
      ensures var check := ReviewCheck(old(Loaded()).requests, requestId, status, moderatorId, moderatorName);
        check.Failure? ==> res == Failure(check.error) && file == old(file)
      ensures var check := ReviewCheck(old(Loaded()).requests, requestId, status, moderatorId, moderatorName);
        check.Success? && !saved ==> res == Failure(SaveFailed) && file == old(file)
      ensures var check := ReviewCheck(old(Loaded()).requests, requestId, status, moderatorId, moderatorName);
        check.Success? && saved ==>
          var rs := old(Loaded()).requests;
          && res == Success(Reviewed(rs[check.value], Decision(status.value), moderatorId.value,
                                     moderatorName.value, remarks, now))
          && file == Some(old(Loaded()).(requests := rs[check.value := res.value]))
      ensures AllKnown(old(Loaded()).requests) ==> AllKnown(Loaded().requests)
    {
      var db := ReadDatabase(file);
      var check := ReviewCheck(db.requests, requestId, status, moderatorId, moderatorName);
      if check.Failure? {
        return Failure(check.error);
      }
      var i := check.value;
      var updated := Reviewed(db.requests[i], Decision(status.value), moderatorId.value,
                              moderatorName.value, remarks, now);
      if !saved {
        return Failure(SaveFailed);
      }
      file := Some(db.(requests := db.requests[i := updated]));
      res := Success(updated);
    }

    /** Mark a pass used.  On success only the target record changes, to `MarkedUsed(...)`. */
    method MarkUsed(requestId: string, now: int, saved: bool) returns (res: Outcome<Error>)
      modifies this
      ensures var check := MarkUsedCheck(old(Loaded()).requests, requestId);
        check.Failure? ==> res == Fail(check.error) && file == old(file)
      ensures var check := MarkUsedCheck(old(Loaded()).requests, requestId);
        check.Success? && !saved ==> res == Fail(SaveFailed) && file == old(file)
      ensures var check := MarkUsedCheck(old(Loaded()).requests, requestId);
        check.Success? && saved ==>
          var rs := old(Loaded()).requests;
          && res == Pass
          && file == Some(old(Loaded()).(requests := rs[check.value := MarkedUsed(rs[check.value], now)]))
      ensures AllKnown(old(Loaded()).requests) ==> AllKnown(Loaded().requests)
    {
      var db := ReadDatabase(file);
      var check := MarkUsedCheck(db.requests, requestId);
      if check.Failure? {
        return Fail(check.error);
      }
      var i := check.value;
      if !saved {
        return Fail(SaveFailed);
      }
      file := Some(db.(requests := db.requests[i := MarkedUsed(db.requests[i], now)]));
      res := Pass;
    }
  }
}
