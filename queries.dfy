/**
 * The read-only handlers: login, the two request listings, pass verification and
 * the statistics.  Each works on the dataset the handler has just read.
 */
module Queries {
  import opened Wrappers
  import opened Records

  // ---------------------------------------------------------------- filtering

  /** The elements of `s` that satisfy `p`, in their stored order (Array.prototype.filter). */
  function Filter<T>(s: seq<T>, p: T -> bool): (r: seq<T>)
    ensures |r| <= |s|
  {
    if s == [] then [] else (if p(s[0]) then [s[0]] else []) + Filter(s[1..], p)
  }

  /** An element is kept by the filter exactly when it is in `s` and satisfies `p`. */
  lemma {:induction false} FilterMembers<T>(s: seq<T>, p: T -> bool)
    ensures forall x :: x in Filter(s, p) <==> x in s && p(x)
  {
    if s != [] {
      FilterMembers(s[1..], p);
      assert s == [s[0]] + s[1..];
    }
  }

  lemma {:induction false} FilterAppend<T>(s: seq<T>, t: seq<T>, p: T -> bool)
    ensures Filter(s + t, p) == Filter(s, p) + Filter(t, p)
  {
    if s == [] {
      assert s + t == t;
    } else {
      var u := s + t;
      var own := if p(s[0]) then [s[0]] else [];
      assert u[0] == s[0];
      assert u[1..] == s[1..] + t;
      FilterAppend(s[1..], t, p);
      calc {
        Filter(u, p);
        own + Filter(s[1..] + t, p);
        own + (Filter(s[1..], p) + Filter(t, p));
        (own + Filter(s[1..], p)) + Filter(t, p);
        Filter(s, p) + Filter(t, p);
      }
    }
  }

  lemma FilterSingle<T>(x: T, p: T -> bool)
    ensures Filter([x], p) == if p(x) then [x] else []
  {
    assert [x][1..] == [];
  }

  /** Replacing one element changes a filter count only by what the old and new element contribute. */
  lemma FilterCountUpdate<T>(s: seq<T>, i: nat, x: T, p: T -> bool)
    requires i < |s|
    ensures |Filter(s[i := x], p)| + (if p(s[i]) then 1 else 0)
         == |Filter(s, p)| + (if p(x) then 1 else 0)
  {
    var pre, post := s[..i], s[i + 1..];
    assert s == pre + [s[i]] + post;
    assert s[i := x] == pre + [x] + post;
    FilterAppend(pre + [s[i]], post, p);
    FilterAppend(pre, [s[i]], p);
    FilterAppend(pre + [x], post, p);
    FilterAppend(pre, [x], p);
    FilterSingle(s[i], p);
    FilterSingle(x, p);
  }

  // ------------------------------------------------------- ordering by recency

  /** Most recent first: the order the comparator `b.timestamp - a.timestamp` asks for. */
  predicate SortedByRecency(s: seq<Request>) {
    forall i, j :: 0 <= i < j < |s| ==> s[i].timestamp >= s[j].timestamp
  }

  /** The records created at instant `t`. */
  function AtInstant(t: int): Request -> bool {
    (r: Request) => r.timestamp == t
  }

  /** Places `x` before the first record that is not more recent than it. */
  function Insert(x: Request, s: seq<Request>): (r: seq<Request>)
    ensures |r| == |s| + 1
  {
    if s == [] || x.timestamp >= s[0].timestamp then [x] + s
    else [s[0]] + Insert(x, s[1..])
  }

  lemma {:induction false} InsertPermutes(x: Request, s: seq<Request>)
    ensures multiset(Insert(x, s)) == multiset(s) + multiset{x}
  {
    if s != [] && x.timestamp < s[0].timestamp {
      assert s == [s[0]] + s[1..];
      InsertPermutes(x, s[1..]);
    }
  }

  /**
   * A stable sort, most recent first.  JavaScript's Array.prototype.sort is stable,
   * so records with equal timestamps keep their stored order.
   */
  function SortByRecency(s: seq<Request>): (r: seq<Request>)
    ensures |r| == |s|
  {
    if s == [] then [] else Insert(s[0], SortByRecency(s[1..]))
  }

  /** Sorting is a permutation of the records. */
  lemma {:induction false} SortPermutes(s: seq<Request>)
    ensures multiset(SortByRecency(s)) == multiset(s)
  {
    if s != [] {
      assert s == [s[0]] + s[1..];
      SortPermutes(s[1..]);
      InsertPermutes(s[0], SortByRecency(s[1..]));
    }
  }

  lemma {:induction false} InsertSorted(x: Request, s: seq<Request>)
    requires SortedByRecency(s)
    ensures SortedByRecency(Insert(x, s))
  {
    if s != [] && x.timestamp < s[0].timestamp {
      var t := Insert(x, s[1..]);
      InsertSorted(x, s[1..]);
      InsertPermutes(x, s[1..]);
      forall k | 0 <= k < |t| ensures t[k].timestamp <= s[0].timestamp {
        assert t[k] in multiset(t);
        if t[k] != x {
          assert t[k] in multiset(s[1..]);
          assert t[k] in s[1..];
        }
      }
      assert Insert(x, s) == [s[0]] + t;
    }
  }

  lemma {:induction false} SortSorted(s: seq<Request>)
    ensures SortedByRecency(SortByRecency(s))
  {
    if s != [] {
      SortSorted(s[1..]);
      InsertSorted(s[0], SortByRecency(s[1..]));
    }
  }

  lemma {:induction false} InsertStable(x: Request, s: seq<Request>, t: int)
    ensures Filter(Insert(x, s), AtInstant(t)) == (if x.timestamp == t then [x] else []) + Filter(s, AtInstant(t))
  {
    var p := AtInstant(t);
    FilterSingle(x, p);
    if s == [] || x.timestamp >= s[0].timestamp {
      FilterAppend([x], s, p);
    } else {
      var head, rest := s[0], s[1..];
      assert s == [head] + rest;
      var inserted := Insert(x, rest);
      assert Insert(x, s) == [head] + inserted;
      FilterAppend([head], inserted, p);
      FilterAppend([head], rest, p);
      FilterSingle(head, p);
      InsertStable(x, rest, t);
      if x.timestamp == t {
        calc {
          Filter(Insert(x, s), p);
          Filter([head], p) + Filter(inserted, p);
          [] + ([x] + Filter(rest, p));
          [x] + Filter(s, p);
        }
      } else {
        calc {
          Filter(Insert(x, s), p);
          Filter([head], p) + Filter(inserted, p);
          Filter([head], p) + ([] + Filter(rest, p));
          { assert [] + Filter(rest, p) == Filter(rest, p); }
          Filter(s, p);
        }
      }
    }
  }

  /** Sorting keeps the stored order of the records created at any one instant. */
  lemma {:induction false} SortStable(s: seq<Request>, t: int)
    ensures Filter(SortByRecency(s), AtInstant(t)) == Filter(s, AtInstant(t))
  {
    if s != [] {
      InsertStable(s[0], SortByRecency(s[1..]), t);
      SortStable(s[1..], t);
      assert s == [s[0]] + s[1..];
      FilterAppend([s[0]], s[1..], AtInstant(t));
      FilterSingle(s[0], AtInstant(t));
    }
  }

  lemma SortStableAll(s: seq<Request>)
    ensures forall t :: Filter(SortByRecency(s), AtInstant(t)) == Filter(s, AtInstant(t))
  {
    forall t ensures Filter(SortByRecency(s), AtInstant(t)) == Filter(s, AtInstant(t)) {
      SortStable(s, t);
    }
  }

  // -------------------------------------------------------------------- login

  /** A login body matches a user when id, password and role are all sent and equal. */
  function Matches(u: User, userId: Option<string>, password: Option<string>, role: Option<string>)
    : (b: bool)
    ensures b ==> userId.Some? && password.Some? && role.Some?
    ensures b ==> Public(u) == PublicUser(userId.value, u.name, role.value) && u.password == password.value
  {
    userId == Some(u.id) && password == Some(u.password) && role == Some(u.role)
  }

  /**
   * Login: the first user matching on all three fields, shown without its password;
   * with no match, invalid credentials.
   */
  function Login(users: seq<User>, userId: Option<string>, password: Option<string>, role: Option<string>)
    : (r: Result<PublicUser, Error>)
    ensures r.Success? <==> exists k :: 0 <= k < |users| && Matches(users[k], userId, password, role)
    ensures r.Failure? ==> r.error == InvalidCredentials
    ensures r.Success? ==>
      exists k :: 0 <= k < |users| && Matches(users[k], userId, password, role) && r.value == Public(users[k])
        && forall j :: 0 <= j < k ==> !Matches(users[j], userId, password, role)
  {
    if users == [] then Failure(InvalidCredentials)
    else if Matches(users[0], userId, password, role) then Success(Public(users[0]))
    else
      var r := Login(users[1..], userId, password, role);
      assert forall k :: 1 <= k < |users| ==> users[k] == users[1..][k - 1];
      r
  }

  // ----------------------------------------------------------------- listings

  /** All requests, most recent first; records created at the same instant keep their stored order. */
  function ListAll(requests: seq<Request>): (r: seq<Request>)
    ensures multiset(r) == multiset(requests)
    ensures SortedByRecency(r)
    ensures forall t :: Filter(r, AtInstant(t)) == Filter(requests, AtInstant(t))
  {
    SortPermutes(requests);
    SortSorted(requests);
    SortStableAll(requests);
    SortByRecency(requests)
  }

  /** The records that belong to one student. */
  function OfStudent(studentId: string): Request -> bool {
    (r: Request) => r.studentId == studentId
  }

  /** In a sorted sequence, whatever a filter keeps first is no more recent than the head. */
  lemma FilterHeadNotLater(u: seq<Request>, p: Request -> bool)
    requires SortedByRecency(u) && Filter(u, p) != []
    ensures Filter(u, p)[0].timestamp <= u[0].timestamp
  {
    FilterMembers(u, p);
    assert Filter(u, p)[0] in u;
  }

  lemma SortedTail(u: seq<Request>)
    requires SortedByRecency(u) && u != []
    ensures SortedByRecency(u[1..])
  {
  }

  /** Filtering after inserting `x` is inserting `x`, when kept, after filtering. */
  lemma {:induction false} FilterInsert(x: Request, u: seq<Request>, p: Request -> bool)
    requires SortedByRecency(u)
    ensures Filter(Insert(x, u), p) == if p(x) then Insert(x, Filter(u, p)) else Filter(u, p)
    decreases |u|, 1
  {
    FilterSingle(x, p);
    if u == [] {
    } else if x.timestamp >= u[0].timestamp {
      FilterAppend([x], u, p);
      if p(x) && Filter(u, p) != [] {
        FilterHeadNotLater(u, p);
      }
    } else {
      FilterInsertLater(x, u, p);
    }
  }

  /** The case of FilterInsert where `x` goes after the head. */
  lemma {:induction false} FilterInsertLater(x: Request, u: seq<Request>, p: Request -> bool)
    requires SortedByRecency(u) && u != [] && x.timestamp < u[0].timestamp
    ensures Filter(Insert(x, u), p) == if p(x) then Insert(x, Filter(u, p)) else Filter(u, p)
    decreases |u|, 0
  {
    var head, rest := u[0], u[1..];
    var kept := if p(head) then [head] else [];
    assert u == [head] + rest;
    assert Insert(x, u) == [head] + Insert(x, rest);
    FilterAppend([head], Insert(x, rest), p);
    FilterAppend([head], rest, p);
    FilterSingle(head, p);
    assert Filter(u, p) == kept + Filter(rest, p);
    SortedTail(u);
    FilterInsert(x, rest, p);
    if !p(x) {
      calc {
        Filter(Insert(x, u), p);
        kept + Filter(Insert(x, rest), p);
        kept + Filter(rest, p);
      }
    } else if p(head) {
      assert ([head] + Filter(rest, p))[1..] == Filter(rest, p);
      calc {
        Filter(Insert(x, u), p);
        [head] + Filter(Insert(x, rest), p);
        [head] + Insert(x, Filter(rest, p));
        Insert(x, [head] + Filter(rest, p));
      }
    } else {
      assert Filter(u, p) == Filter(rest, p) by {
        assert kept + Filter(rest, p) == Filter(rest, p);
      }
      calc {
        Filter(Insert(x, u), p);
        kept + Filter(Insert(x, rest), p);
        { assert kept + Filter(Insert(x, rest), p) == Filter(Insert(x, rest), p); }
        Insert(x, Filter(rest, p));
      }
    }
  }

  /** Sorting the kept records gives the kept records of the sorted sequence. */
  lemma {:induction false} SortFilterCommute(s: seq<Request>, p: Request -> bool)
    ensures SortByRecency(Filter(s, p)) == Filter(SortByRecency(s), p)
  {
    if s != [] {
      var x, rest := s[0], s[1..];
      assert s == [x] + rest;
      FilterAppend([x], rest, p);
      FilterSingle(x, p);
      SortFilterCommute(rest, p);
      SortSorted(rest);
      FilterInsert(x, SortByRecency(rest), p);
      if p(x) {
        assert Filter(s, p) == [x] + Filter(rest, p);
        assert SortByRecency(Filter(s, p)) == Insert(x, SortByRecency(Filter(rest, p)));
      } else {
        assert Filter(s, p) == Filter(rest, p);
      }
    }
  }

  lemma SortMembers(s: seq<Request>)
    ensures forall x :: x in SortByRecency(s) <==> x in s
  {
    var sorted := SortByRecency(s);
    SortPermutes(s);
    assert forall x :: x in sorted <==> x in multiset(sorted);
  }

  /**
   * One student's requests, most recent first: exactly the student's records, in
   * the order list-all gives them.
   */
  function ListByStudent(requests: seq<Request>, studentId: string): (r: seq<Request>)
    ensures r == Filter(ListAll(requests), OfStudent(studentId))
    ensures forall x :: x in r <==> x in requests && x.studentId == studentId
    ensures SortedByRecency(r)
  {
    var mine := Filter(requests, OfStudent(studentId));
    FilterMembers(requests, OfStudent(studentId));
    SortMembers(mine);
    SortSorted(mine);
    SortFilterCommute(requests, OfStudent(studentId));
    SortByRecency(mine)
  }

  // ------------------------------------------------------------- verification

  /** A pass the gate accepts for a student: theirs, approved, and not yet used. */
  function IsValidPass(r: Request, studentId: string): (b: bool)
    ensures b ==> r.studentId == studentId
    ensures r.used || r.status != Approved ==> !b
  {
    r.studentId == studentId && r.status == Approved && !r.used
  }

  function ValidPassOf(studentId: string): Request -> bool {
    (r: Request) => IsValidPass(r, studentId)
  }

  lemma FilterHead<T>(s: seq<T>, p: T -> bool)
    requires s != [] && p(s[0])
    ensures Filter(s, p) != [] && Filter(s, p)[0] == s[0]
  {
  }

  /** The valid passes of a student, in stored order. */
  function Candidates(requests: seq<Request>, studentId: string): seq<Request> {
    Filter(requests, ValidPassOf(studentId))
  }

  lemma NoCandidates(requests: seq<Request>, studentId: string)
    requires SortByRecency(Candidates(requests, studentId)) == []
    ensures forall k :: 0 <= k < |requests| ==> !IsValidPass(requests[k], studentId)
  {
    var candidates := Candidates(requests, studentId);
    SortPermutes(candidates);
    assert |multiset(candidates)| == 0;
    FilterMembers(requests, ValidPassOf(studentId));
    forall k | 0 <= k < |requests| ensures !IsValidPass(requests[k], studentId) {
      assert requests[k] !in candidates;
    }
  }

  /** The head of the sorted sequence is stored in it and no record of it is more recent. */
  lemma SortedHeadIsLatest(s: seq<Request>)
    requires s != []
    ensures SortByRecency(s) != [] && SortByRecency(s)[0] in s
    ensures forall x :: x in s ==> x.timestamp <= SortByRecency(s)[0].timestamp
  {
    var sorted := SortByRecency(s);
    SortPermutes(s);
    assert |multiset(sorted)| == |s|;
    assert sorted[0] in multiset(s);
    SortSorted(s);
    forall x | x in s ensures x.timestamp <= sorted[0].timestamp {
      assert x in multiset(sorted);
      var j :| 0 <= j < |sorted| && sorted[j] == x;
    }
  }

  /** The head of the sorted sequence is the first stored record at its timestamp. */
  lemma SortedHeadFirstAtInstant(s: seq<Request>)
    requires s != []
    ensures SortByRecency(s) != []
    ensures var best := SortByRecency(s)[0];
      Filter(s, AtInstant(best.timestamp)) != [] && best == Filter(s, AtInstant(best.timestamp))[0]
  {
    var sorted := SortByRecency(s);
    SortPermutes(s);
    assert |multiset(sorted)| == |s|;
    SortStable(s, sorted[0].timestamp);
    FilterHead(sorted, AtInstant(sorted[0].timestamp));
  }

  lemma BestCandidate(requests: seq<Request>, studentId: string)
    requires SortByRecency(Candidates(requests, studentId)) != []
    ensures var best := SortByRecency(Candidates(requests, studentId))[0];
      && best in requests && IsValidPass(best, studentId)
      && (forall k :: 0 <= k < |requests| && IsValidPass(requests[k], studentId) ==>
            requests[k].timestamp <= best.timestamp)
      && Filter(Candidates(requests, studentId), AtInstant(best.timestamp)) != []
      && best == Filter(Candidates(requests, studentId), AtInstant(best.timestamp))[0]
  {
    var candidates := Candidates(requests, studentId);
    assert candidates != [];
    FilterMembers(requests, ValidPassOf(studentId));
    SortedHeadIsLatest(candidates);
    SortedHeadFirstAtInstant(candidates);
    var best := SortByRecency(candidates)[0];
    forall k | 0 <= k < |requests| && IsValidPass(requests[k], studentId)
      ensures requests[k].timestamp <= best.timestamp
    {
      assert requests[k] in candidates;
    }
  }

  /**
   * Verification: the most recent valid pass of the student, or None when there is
   * none.  Among valid passes created at the same instant, the first stored wins.
   */
  function Verify(requests: seq<Request>, studentId: string): (pass: Option<Request>)
    ensures pass.None? <==> forall k :: 0 <= k < |requests| ==> !IsValidPass(requests[k], studentId)
    ensures pass.Some? ==> pass.value in requests && IsValidPass(pass.value, studentId)
    ensures pass.Some? ==>
      forall k :: 0 <= k < |requests| && IsValidPass(requests[k], studentId) ==>
        requests[k].timestamp <= pass.value.timestamp
    ensures pass.Some? ==>
      && Filter(Candidates(requests, studentId), AtInstant(pass.value.timestamp)) != []
      && pass.value == Filter(Candidates(requests, studentId), AtInstant(pass.value.timestamp))[0]
  {
    var sorted := SortByRecency(Candidates(requests, studentId));
    if sorted == [] then
      NoCandidates(requests, studentId);
      None
    else
      BestCandidate(requests, studentId);
      Some(sorted[0])
  }

  // --------------------------------------------------------------- statistics

  /** The counts the statistics handler reports. */
  datatype Stats = Stats(total: nat, pending: nat, approved: nat, rejected: nat, today: nat, used: nat)

  function HasStatus(st: Status): Request -> bool {
    (r: Request) => r.status == st
  }

  function IsOther(): Request -> bool {
    (r: Request) => r.status.Other?
  }

  function IsUsed(): Request -> bool {
    (r: Request) => r.used
  }

  /** The records created on calendar day `day`, for a given instant-to-day map. */
  function OnDay(dayOf: int -> int, day: int): Request -> bool {
    (r: Request) => dayOf(r.timestamp) == day
  }

  /** Every status in the collection is one the handlers write. */
  predicate AllKnown(requests: seq<Request>) {
    forall k :: 0 <= k < |requests| ==> !requests[k].status.Other?
  }

  /** Every record has exactly one status, so the four status counts add up to the total. */
  lemma {:induction false} StatusCountsPartition(s: seq<Request>)
    ensures |Filter(s, HasStatus(Pending))| + |Filter(s, HasStatus(Approved))|
          + |Filter(s, HasStatus(Rejected))| + |Filter(s, IsOther())| == |s|
  {
    if s != [] {
      StatusCountsPartition(s[1..]);
    }
  }

  lemma {:induction false} NoOtherWhenAllKnown(s: seq<Request>)
    ensures AllKnown(s) ==> Filter(s, IsOther()) == []
  {
    if s != [] {
      NoOtherWhenAllKnown(s[1..]);
    }
  }

  /**
   * The statistics: each count is the length of a filter of the collection.
   * `dayOf` maps an instant to its local calendar day and `now` is the time of the
   * query; `today` counts the records created on now's day.
   */
  function ComputeStats(requests: seq<Request>, dayOf: int -> int, now: int): (st: Stats)
    ensures st.total == |requests|
    ensures st.pending + st.approved + st.rejected <= st.total
    ensures AllKnown(requests) ==> st.pending + st.approved + st.rejected == st.total
    ensures st.today <= st.total && st.used <= st.total
  {
    StatusCountsPartition(requests);
    NoOtherWhenAllKnown(requests);
    Stats(
      |requests|,
      |Filter(requests, HasStatus(Pending))|,
      |Filter(requests, HasStatus(Approved))|,
      |Filter(requests, HasStatus(Rejected))|,
      |Filter(requests, OnDay(dayOf, dayOf(now)))|,
      |Filter(requests, IsUsed())|)
  }
}
