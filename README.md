# College gate-pass backend: a Dafny model of the request lifecycle

The backend keeps one JSON document, `{users, requests}`, in a database file. Students
create gate-pass requests. Moderators approve or reject them once. Gatekeepers check
whether a student holds an approved, unused pass, and then mark it used once. An
admin page reads counts over all requests. Every handler reads the whole file. A handler
that changes something changes one record or appends one, then writes the whole
document back.

The model has five modules:

- `Wrappers` (`wrappers.dfy`): `Option`, `Result` and `Outcome`.
- `Records` (`records.dfy`): users, requests, the dataset, the error responses with
  their HTTP codes, JavaScript truthiness of a text field (`Present`), and the request id
  `"REQ"` followed by the decimal millisecond clock.
- `Storage` (`storage.dfy`): `ReadDatabase`. A missing or unparseable file reads as the
  empty dataset.
- `Queries` (`queries.dfy`): the read-only handlers (login, list all, list by student,
  verify, stats), modelled as functions over the dataset a handler has just read.
- `Service` (`service.dfy`): the class `GateDB`, whose field `file` is the parsed
  content of the database file (`None` when it is missing or unparseable). Its methods
  `Create`, `Review` and `MarkUsed` are the three mutating handlers. Each one reads
  `ReadDatabase(file)`, runs the handler's checks in the handler's order and, if the
  write succeeds (`saved`), replaces `file` with the new document. The checks are the
  pure functions `ReviewCheck` and `MarkUsedCheck`, with `IndexOfId` as the
  `findIndex` lookup.
- `Lifecycle` (`lifecycle.dfy`): lemmas that connect the transitions to the queries.
  They cover how each transition moves the statistics, and the full
  create / approve / verify / use cycle of a pass.

Modelling choices:

- A JSON body field is `Option<string>`: `None` when it is not sent. The code's `!field`
  test is `!Present(field)`, so a field is missing when it is absent or the empty string.
- Timestamps and clock readings are integers. Only their order matters.
- The current time and the millisecond clock behind the id are method parameters.
  So are the outcome of `writeDatabase` (`saved`) and, for the `today` count, the
  instant-to-local-day map `dayOf`.
- `Status` has a fourth case, `Other(text)`. It stands for a status text in a
  hand-written file that the handlers never write. `StatusOfText` maps a stored text to
  its status, so `Other` never carries `Pending`, `Approved` or `Rejected`. `AllKnown` rules it out. Every
  mutating method keeps `AllKnown`, and under it the pending, approved and rejected
  counts add up to the total.
- A failed read feeds the empty dataset to the handler. So a create after a failed
  read writes a document that holds only the new request, with no users.
  `GateDB.Create` states this outright.
- Ids are not unique by construction. `IndexOfId` is the first match, as `findIndex`
  is. `RequestIdInjective` shows that two clock readings that differ give two ids that
  differ. Two creates in the same millisecond get the same id.
- The sort is a stable insertion sort by timestamp, most recent first, because
  JavaScript's `Array.prototype.sort` is stable. Records with equal timestamps keep
  their stored order. That fixes which record verification returns when two passes
  share a timestamp: the first one stored.

Behaviour of the code worth noting:

- Review runs its checks in this order: missing fields (400), a status that is not
  `Approved` or `Rejected` (400), an unknown id (404), then already reviewed (400).
- The "already reviewed" and "already used" conflicts are sent as HTTP 400.
- The listings are sorted non-increasing, not strictly decreasing: equal timestamps
  can occur.
- The role is compared as text.
- Mark-used does not look at the status, so a pending or rejected request can be
  marked used.

## Model

| member | source | states |
|---|---|---|
| `Storage.ReadDatabase` | college-gatepass/backend/server.js:12-20 | reading never fails: an unreadable file gives the dataset with no users and no requests, a readable one gives its content |
| `Records.HttpStatus` | college-gatepass/backend/server.js:103-295 | the 400 code is used exactly for missing fields, invalid status, already reviewed and already used |
| `Records.Decimal` | college-gatepass/backend/server.js:138 | the clock prints as at least one decimal digit; clocks of 10 and more print as two or more digits |
| `Records.DecimalInjective` | college-gatepass/backend/server.js:138 | different clock readings print differently |
| `Records.Present` | college-gatepass/backend/server.js:130 | an absent field and the empty text are missing; any non-empty text is present |
| `Records.StatusOfText` | college-gatepass/backend/server.js:310-312 | a stored status text is Pending, Approved or Rejected exactly when it is that name; any other text is `Other` of that text |
| `Records.RequestId` | college-gatepass/backend/server.js:138 | a created id is `REQ` followed by digits only, the form the review and use routes accept |
| `Records.RequestIdInjective` | college-gatepass/backend/server.js:138 | requests created at different clock readings get different ids |
| `Queries.Insert` | college-gatepass/backend/server.js:174 | inserting a record into a run lengthens it by exactly one |
| `Queries.SortByRecency` | college-gatepass/backend/server.js:174 | sorting keeps the number of records |
| `Queries.FilterMembers` | college-gatepass/backend/server.js:183-185 | a record is in the filtered result exactly when it is in the collection and satisfies the predicate |
| `Queries.FilterAppend` | college-gatepass/backend/server.js:183-185 | filtering a concatenation is concatenating the filtered parts |
| `Queries.FilterCountUpdate` | college-gatepass/backend/server.js:310-314 | replacing one record changes a filter count only by what the old and the new record contribute |
| `Queries.Matches` | college-gatepass/backend/server.js:90-94 | a user matches only when id, password and role are all sent; the match gives the user's public view with the sent id and role, and the stored password equals the sent one |
| `Queries.Login` | college-gatepass/backend/server.js:87-107 | login succeeds exactly when some user matches on id, password and role; it returns the first such user without the password; otherwise it fails with invalid credentials |
| `Queries.SortPermutes` | college-gatepass/backend/server.js:174 | sorting is a permutation of the records |
| `Queries.SortSorted` | college-gatepass/backend/server.js:174 | sorting by timestamp gives most-recent-first order |
| `Queries.SortStable` | college-gatepass/backend/server.js:174 | sorting keeps the stored order of records with the same timestamp |
| `Queries.ListAll` | college-gatepass/backend/server.js:170-176 | list-all is a permutation of the requests, sorted non-increasing by timestamp, ties in stored order |
| `Queries.SortFilterCommute` | college-gatepass/backend/server.js:183-185 | sorting the kept records gives the same sequence as keeping the records of the sorted collection |
| `Queries.ListByStudent` | college-gatepass/backend/server.js:179-191 | list-by-student is list-all restricted to the student: it holds exactly the student's records, most recent first, in the order list-all gives them |
| `Queries.IsValidPass` | college-gatepass/backend/server.js:249-253 | a valid pass belongs to the student; a used or non-approved record is never one |
| `Queries.Verify` | college-gatepass/backend/server.js:243-269 | the result is None exactly when no record of the student is approved and unused; otherwise it is such a record, no such record is later, and it is the first stored among those at its timestamp |
| `Queries.StatusCountsPartition` | college-gatepass/backend/server.js:310-312 | the pending, approved, rejected and other-status counts add up to the number of requests |
| `Queries.ComputeStats` | college-gatepass/backend/server.js:300-318 | each count is the length of the matching filter of the requests: total, each status, the queried day, used; pending + approved + rejected is at most the total, and equal to it when every status is one the handlers write; today and used are at most the total |
| `Service.IndexOfId` | college-gatepass/backend/server.js:213 | the lookup finds the first record with the id, or reports that no record has it |
| `Service.IndexOfIdUpdate` | college-gatepass/backend/server.js:276 | replacing a record with one of the same id does not change which record a lookup finds |
| `Service.NewRequest` | college-gatepass/backend/server.js:137-151 | a new record has id `REQ` and the clock's digits, the sent fields, status Pending, the creation time, is unused, has null moderator and usage fields, and is not yet a valid pass |
| `Service.ReviewCheck` | college-gatepass/backend/server.js:202-221 | the review checks in order: missing status, moderator id or moderator name; then a status other than Approved or Rejected; then an unknown id; then a record that is not pending; success names the first record with the id, which is pending |
| `Service.Reviewed` | college-gatepass/backend/server.js:224-228 | a review sets the decision, the moderator id and name, the remarks (empty text when none was sent) and the review time, and changes no other field |
| `Service.ReviewIsOneShot` | college-gatepass/backend/server.js:219-228 | after a successful review, any later review of the same id fails, with already-reviewed whenever its own fields pass |
| `Service.MarkUsedCheck` | college-gatepass/backend/server.js:276-284 | mark-used fails with not-found for an unknown id and with already-used for a used record; otherwise it accepts the first record with the id, whatever its status |
| `Service.MarkedUsed` | college-gatepass/backend/server.js:286-287 | marking used sets used and the usage time, changes no other field, and the record is no longer a valid pass |
| `Service.MarkUsedIsOneShot` | college-gatepass/backend/server.js:282-287 | after a successful mark-used, marking the same id again fails with already-used |
| `Service.GateDB.constructor` | college-gatepass/backend/server.js:9 | a database handle starts from the given file content |
| `Service.GateDB.Create` | college-gatepass/backend/server.js:122-165 | missing fields fail with nothing written; a failed write fails with the file unchanged; otherwise the file holds the loaded users and requests plus one new pending, unused record with null moderator and usage fields, which is returned; after an unreadable file the result holds only that record; statuses stay known |
| `Service.GateDB.Review` | college-gatepass/backend/server.js:202-239 | each failed check is returned with the file unchanged; a failed write fails with the file unchanged; otherwise only the target record changes, to the decision, moderator, remarks (empty text when none sent) and review time, with its usage fields untouched; statuses stay known |
| `Service.GateDB.MarkUsed` | college-gatepass/backend/server.js:273-297 | not-found and already-used are returned with the file unchanged; a failed write fails with the file unchanged; otherwise only the target record changes, to used with its usage time |
| `Lifecycle.StatsAfterCreate` | college-gatepass/backend/server.js:137-153 | a create raises the total and the pending count by one, raises today by one when the record falls on the queried day, and leaves the other counts alone |
| `Lifecycle.StatsAfterReview` | college-gatepass/backend/server.js:223-228 | a review moves one record from pending to approved or rejected and leaves total, today and used alone |
| `Lifecycle.StatsAfterMarkUsed` | college-gatepass/backend/server.js:286-287 | marking an unused record used raises the used count by one and leaves every other count alone |
| `Lifecycle.VerifySoleValidPass` | college-gatepass/backend/server.js:248-254 | when exactly one record is a valid pass of the student, verification returns it |
| `Lifecycle.FreshIdIsLast` | college-gatepass/backend/server.js:153 | an appended record with an id nobody else has is the record a lookup of that id finds |
| `Lifecycle.PassLifecycle` | college-gatepass/backend/server.js:137-287 | for a student with no valid pass: a create under a fresh id passes the review checks; after approval, verification returns exactly that pass; mark-used accepts it; afterwards verification finds no pass |

## Left out

- The HTTP server, CORS and `OPTIONS` handling, routing and the `REQ\d+` path patterns,
  response bodies and messages beyond the error kind, the 404 route list, and all
  logging. These are transport, not lifecycle.
- Body parsing and `JSON.parse`, with its "Invalid request body" response. Body fields
  arrive already parsed as text or absent. A field that holds a JSON number, boolean
  or object is not modelled.
- The file system. A read is given its parsed content. A write is given its success
  flag, and a failed write leaves the file as it was (a partly written file is not
  modelled).
- Dates. Timestamps are integers. `toISOString` formatting and invalid dates (which
  make the sort comparator `NaN`) are not modelled. The local-time calendar day behind
  the `today` count is the `dayOf` parameter.
- `Records.Decimal`: models integer printing only. JavaScript prints numbers of 10^21
  and above in exponent form, a clock value that never occurs.
- Interleaving of the load and save cycles of simultaneous requests. The code has no
  locking, and every operation is modelled as atomic.
- The read-only handlers are functions of the loaded requests or users, and the caller
  supplies `ReadDatabase(file)`. `GateDB` does not wrap them.
- List-all sorts the loaded array in place. The array is never written back, so the
  model returns a new sequence.
- `college-gatepass/frontend/script.js`: browser glue (date formatting, `localStorage`
  checks, the `fetch` wrapper, alerts) is not part of this model.
- File content of any other shape. `file` holds well-formed `users` and `requests`
  arrays or nothing. Parseable content without them (`{}`, `null`, `{"users": []}`),
  or with malformed records, makes the handlers throw instead of falling back to the
  empty dataset, and that is not modelled. The same goes for a stored `used` value
  that is not a boolean, which the code tests by truthiness.
- `Queries.Insert` and `Queries.SortByRecency`: their own contracts give only the
  length. Order, permutation and stability are the lemmas `InsertSorted`,
  `SortSorted`, `InsertPermutes`, `SortPermutes`, `InsertStable` and `SortStable`.
