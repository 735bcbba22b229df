/**
 * The entities of the gate-pass backend: users, gate-pass requests, the persisted
 * dataset, and the errors the request handlers report.
 */
module Records {
  import opened Wrappers

  /** A user account as stored in the database file; the role is compared as text. */
  datatype User = User(id: string, name: string, password: string, role: string)

  /** The user view returned by a successful login: the account without its password. */
  datatype PublicUser = PublicUser(id: string, name: string, role: string)

  function Public(u: User): PublicUser {
    PublicUser(u.id, u.name, u.role)
  }

  /**
   * The review status of a request.  The handlers only ever write the first three;
   * `Other` stands for any other status text a hand-edited database file may hold,
   * and never carries one of the three names (see `StatusOfText`).
   */
  datatype Status = Pending | Approved | Rejected | Other(text: string)

  /** The status a stored status text stands for: the three names, or `Other` for any other text. */
  function StatusOfText(text: string): (st: Status)
    ensures st == Pending <==> text == "Pending"
    ensures st == Approved <==> text == "Approved"
    ensures st == Rejected <==> text == "Rejected"
    ensures st.Other? ==> st.text == text && text !in {"Pending", "Approved", "Rejected"}
  {
    if text == "Pending" then Pending
    else if text == "Approved" then Approved
    else if text == "Rejected" then Rejected
    else Other(text)
  }

  /**
   * A gate-pass request.  Timestamps are abstract instants: only their order matters.
   * The moderator fields and `reviewedAt` are null until a review, `usedAt` until use.
   */
  datatype Request = Request(
    id: string,
    studentId: string,
    studentName: string,
    reason: string,
    returnTime: string,
    status: Status,
    timestamp: int,
    moderatorId: Option<string>,
    moderatorName: Option<string>,
    moderatorRemarks: Option<string>,
    reviewedAt: Option<int>,
    used: bool,
    usedAt: Option<int>)

  /** The whole persisted document: the unit that is read and written. */
  datatype Dataset = Dataset(users: seq<User>, requests: seq<Request>)

  /** The failures the handlers answer with, one per distinct response. */
  datatype Error =
    | InvalidCredentials   // 401 "Invalid credentials or role mismatch"
    | MissingFields        // 400 "Missing required fields"
    | InvalidStatus        // 400 "Invalid status"
    | RequestNotFound      // 404 "Request not found"
    | AlreadyReviewed      // 400 "Request already reviewed"
    | AlreadyUsed          // 400 "Pass already used"
    | SaveFailed           // 500 "Failed to save request" / "Failed to update ..."

  /** The HTTP status code each failure is sent with; a conflict reuses 400. */
  function HttpStatus(e: Error): (code: int)
    ensures code == 400 <==> e in {MissingFields, InvalidStatus, AlreadyReviewed, AlreadyUsed}
  {
    match e
    case InvalidCredentials => 401
    case MissingFields => 400
    case InvalidStatus => 400
    case RequestNotFound => 404
    case AlreadyReviewed => 400
    case AlreadyUsed => 400
    case SaveFailed => 500
  }

  /** JavaScript truthiness of an optional text field: sent, and not the empty string. */
  function Present(field: Option<string>): (b: bool)
    ensures field.None? ==> !b
    ensures field == Some("") ==> !b
    ensures field.Some? && |field.value| > 0 ==> b
  {
    field.Some? && field.value != ""
  }

  /** The decimal text of a natural number, as JavaScript prints a millisecond clock. */
  function Decimal(n: nat): (s: string)
    ensures |s| >= 1
    ensures forall k :: 0 <= k < |s| ==> '0' <= s[k] <= '9'
    ensures n >= 10 <==> |s| >= 2
  {
    if n < 10 then [DigitChar(n)] else Decimal(n / 10) + [DigitChar(n % 10)]
  }

  function DigitChar(d: nat): (c: char)
    requires d < 10
    ensures '0' <= c <= '9'
  {
    ['0', '1', '2', '3', '4', '5', '6', '7', '8', '9'][d]
  }

  lemma DigitCharInjective(a: nat, b: nat)
    requires a < 10 && b < 10 && DigitChar(a) == DigitChar(b)
    ensures a == b
  {
  }

  /** Two different clock readings print differently. */
  lemma {:induction false} DecimalInjective(a: nat, b: nat)
    requires Decimal(a) == Decimal(b)
    ensures a == b
  {
    var s := Decimal(a);
    if a < 10 {
      assert b < 10;
      DigitCharInjective(a, b);
    } else {
      assert b >= 10;
      assert s[|s| - 1] == DigitChar(a % 10) == DigitChar(b % 10);
      DigitCharInjective(a % 10, b % 10);
      assert s[..|s| - 1] == Decimal(a / 10) == Decimal(b / 10);
      DecimalInjective(a / 10, b / 10);
    }
  }

  /** The id a request created at a given millisecond clock gets: "REQ" and the clock's digits. */
  function RequestId(clock: nat): (id: string)
    ensures |id| >= 4 && id[..3] == "REQ"
    ensures forall k :: 3 <= k < |id| ==> '0' <= id[k] <= '9'
  {
    "REQ" + Decimal(clock)
  }

  /** Requests created at different clock readings get different ids. */
  lemma RequestIdInjective(a: nat, b: nat)
    requires RequestId(a) == RequestId(b)
    ensures a == b
  {
    assert Decimal(a) == RequestId(a)[3..] == RequestId(b)[3..] == Decimal(b);
    DecimalInjective(a, b);
  }
}
