# AlumnDEV backend core in Dafny

This project models the server-side logic of the AlumnDEV alumni–student platform (an Express
application over a relational store). It covers four pieces:

- **The mentorship request engine** (`routes/mentorship.js`). Each request is PENDING, QUEUED,
  ACCEPTED or REJECTED and may carry a queue position. Three transitions drive it:
  - a student's request, admitted as PENDING or QUEUED by a capacity check;
  - a mentor's accept, which promotes the head of the mentor's queue;
  - a mentor's reject.

  The three listings are modelled as well.
- **The alumni handlers** (`routes/alumni.js`):
  - the directory search's WHERE-clause builder, with its `$1, $2, …` placeholder numbering,
    sort whitelist and pagination arithmetic;
  - the PRIVATE-profile gate of `GET /alumni/:id`;
  - the profile upsert `POST /alumni/me`;
  - mentor suggestions by topic.
- **The job board** (`routes/jobs.js`): posting a job, applying to one, and the owner-scoped review
  of an application's status.
- **The authentication guard** `requireAuth(role)` (`middleware/auth.js`).

## Modelling conventions

- The store is one immutable record, `Tables.Db`:
  - profiles, mentorship requests, jobs and applications;
  - the notification log;
  - one serial-id counter per table.
- Every route handler is a pure function from a store to `Ok(new store)` or `Err(reason)`. An error
  carries no store, so a refused request changes nothing. Each handler is one atomic step.
- An SQL `WHERE` selection is `Seqs.Filter` and `rows[0]` is `Seqs.First`, both in table order.
- `ORDER BY queue_position` sorts NULL positions last, as PostgreSQL does. Ties go to the earliest
  row.
- An `UPDATE … WHERE id=$1` updates every row with that id. Distinct ids are part of the
  invariants (request ids even ascend in table order), and the exact-effect lemmas show that under
  them exactly one row changes.
- JavaScript truthiness is written out:
  - an absent or empty string is false (`Tables.Truthy`);
  - an id of 0 is false;
  - `trim` removes the ECMAScript WhiteSpace and LineTerminator characters (`Text.IsWhitespace`).
- `jwt.verify` is a parameter of the guard. It returns the payload, or None where the library
  throws.
- One parameter of `Alumni.SaveProfile`, `defaults`, stands for the schema's column defaults of a
  freshly inserted profile: its availability, capacity and topic settings. The schema is not part
  of this model.

### Properties the code does not guarantee

The route comments describe a create as choosing PENDING or QUEUED by `max_mentees`
(`routes/mentorship.js:22-23`) and an accept as promoting queued requests when a spot opens
(`routes/mentorship.js:121-122`). The code does less than a natural reading of those comments
suggests. Each item below is a lemma of the model.

- **No capacity bound.** The capacity check counts only ACCEPTED rows, and accept never checks
  capacity again. With `max_mentees = 1`, two requests made before any decision are both PENDING
  and can both be accepted (`MentorshipScenarios.SecondRequestNotQueued`,
  `MentorshipScenarios.CapacityNotEnforced`).
- **Queue positions are not dense.** Promotion clears position 1 and leaves 2, 3, … in place
  (`MentorshipScenarios.QueuePromotionLeavesGap`). The invariant that does hold is that positions
  strictly increase in creation order within one mentor's queue (`MentorshipInvariants.QueueOrdered`).
- **A queue can stall.** Only an accept promotes, and only a PENDING request can be accepted. Once
  a mentor has no PENDING request and is unavailable or at capacity (`MentorshipStall.Stalled`),
  every create, accept, reject, profile save and job-board call keeps it so and leaves that
  mentor's rows untouched (`MentorshipStall.StallIsPermanent`). The queued requests wait until
  `max_mentees` or `available_for_mentorship` changes, and none of the modelled routes writes
  those columns (`MentorshipScenarios.QueueCanStall`).
- **Zero capacity queues.** A mentor with `max_mentees = 0` who is available queues every request
  rather than refusing it (`MentorshipScenarios.ZeroCapacityQueues`).
- **No second request after a rejection.** Any existing row blocks the (student, mentor) pair, so a
  rejected student can never ask that mentor again
  (`MentorshipScenarios.NoRequestAfterRejection`).

## Model

| member | source | states |
|---|---|---|
| Mentorship.HttpStatus | backend/src/routes/mentorship.js:32-43 | Unavailable and duplicate requests are answered 400; not-found is 404, as accept and reject answer at lines 136 and 191. |
| Mentorship.Availability | backend/src/routes/mentorship.js:10-19 | None exactly when no profile row belongs to the mentor; otherwise the settings of one of that mentor's rows. |
| Mentorship.MaxQueuedPosition | backend/src/routes/mentorship.js:60-66 | `MAX(queue_position)` over the mentor's QUEUED rows. It is NULL exactly when none of them has a position; otherwise it is a position of one of them and no smaller than any of them. |
| Mentorship.NextQueuePosition | backend/src/routes/mentorship.js:60-66 | The new position is above every queued position of the mentor. It is 1 or one past an existing position, and 1 when the queue holds no position. |
| Mentorship.Create | backend/src/routes/mentorship.js:30-89 | Refuses when no profile exists or mentorship is off (Unavailable), and when any request exists for the pair (Duplicate), in that order. Otherwise it appends one row with the next id and one notification to the student of type MENTORSHIP_<status>. The row is PENDING with no position iff the ACCEPTED count is below `max_mentees`; otherwise it is QUEUED behind every queued position. Nothing else changes. |
| Tables.TypeNamesDistinct | backend/src/routes/mentorship.js:80 | Distinct notification types are stored under distinct `type` texts, so `MENTORSHIP_<status>` identifies the status. |
| Mentorship.QueueHead | backend/src/routes/mentorship.js:148-154 | The promoted row is QUEUED for the mentor, and no queued row of the mentor sorts strictly before it. None exactly when the mentor's queue is empty. |
| Mentorship.DecideOnlyDecides | backend/src/routes/mentorship.js:129-135 | The accept/reject UPDATE only changes status and clears positions. It moves no row into or out of any queue. |
| Mentorship.Accept | backend/src/routes/mentorship.js:129-167 | Not-found iff no PENDING row with this id belongs to the caller. On success: decisions only; the log grows by the ACCEPTED notification; with a non-empty queue a second PENDING notification follows; with an empty queue exactly the open rows become ACCEPTED. |
| Mentorship.Reject | backend/src/routes/mentorship.js:184-199 | Not-found iff no open row exists. On success exactly the open rows become REJECTED with no position, and one MENTORSHIP_REJECTED notification is appended. |
| Mentorship.Incoming | backend/src/routes/mentorship.js:103-111 | The listing holds the caller's PENDING requests, each matching row once: every entry is such a row, every such row is listed, and there are as many entries as rows. |
| Mentorship.MyRequests | backend/src/routes/mentorship.js:215-223 | The listing holds the caller's requests as a student, each row once: every entry is such a row, every such row is listed, and there are as many entries as rows. |
| Mentorship.AcceptedMentees | backend/src/routes/mentorship.js:239-247 | The listing holds the caller's ACCEPTED requests, each row once, and its length is the count the capacity check uses. |
| MentorshipInvariants.ListingsNewestFirst | backend/src/routes/mentorship.js:103-111 | `ORDER BY created_at DESC`: in a valid store the ids of each of the three listings strictly decrease, and ids ascend in creation order, so every listing is newest first. |
| MentorshipInvariants.CreatePreservesValid | backend/src/routes/mentorship.js:30-87 | A create keeps the invariant. Ids stay issued and ascend in table order, at most one request exists per pair, a position is set iff the row is QUEUED (and is at least 1), and queued positions increase in creation order within each mentor. |
| MentorshipInvariants.AppendPreservesValid | backend/src/routes/mentorship.js:37-75 | Appending a fresh-id row for a new pair, queued behind every queued row of its mentor, keeps the invariant. |
| MentorshipInvariants.AcceptPreservesValid | backend/src/routes/mentorship.js:129-167 | An accept keeps the invariant. |
| MentorshipInvariants.RejectPreservesValid | backend/src/routes/mentorship.js:184-199 | A reject keeps the invariant. |
| MentorshipInvariants.QueueHeadUnique | backend/src/routes/mentorship.js:148-154 | In a valid store the `ORDER BY queue_position LIMIT 1` row is unique: no tie occurs. |
| MentorshipInvariants.DecisionHitsOneRow | backend/src/routes/mentorship.js:129-138 | In a valid store the decision UPDATE changes only the open row whose student the handler notifies. |
| MentorshipInvariants.PromoteHitsOneRow | backend/src/routes/mentorship.js:158-161 | With distinct ids, the promotion UPDATE changes only the head row, to PENDING with no position. |
| MentorshipInvariants.AcceptEffect | backend/src/routes/mentorship.js:129-167 | With an empty queue, accepting the open row sets just that row to ACCEPTED with no position and appends one ACCEPTED notice to its student. Nothing else changes. |
| MentorshipInvariants.AcceptPromotes | backend/src/routes/mentorship.js:129-167 | With queue head k, accepting sets the target row to ACCEPTED and row k to PENDING, and appends the ACCEPTED then the PENDING notice. Every other row, and so every other queue position, is unchanged. |
| MentorshipInvariants.RejectEffect | backend/src/routes/mentorship.js:184-199 | Rejecting the open row sets just that row to REJECTED, appends one REJECTED notice to its student, and promotes nothing. |
| MentorshipInvariants.OnlyPendingIsDecided | backend/src/routes/mentorship.js:129-136 | A row that is not PENDING or not owned by the caller is never accepted or rejected directly; both handlers report not-found. |
| MentorshipInvariants.DecidedRowsAreFinal | backend/src/routes/mentorship.js:129-199 | ACCEPTED and REJECTED rows are terminal: no create, accept or reject changes them. |
| MentorshipInvariants.NoPendingNoDecision | backend/src/routes/mentorship.js:129-136 | A mentor without PENDING requests gets not-found from every accept and reject. |
| MentorshipStall.CreateKeepsStall | backend/src/routes/mentorship.js:45-75 | A create for any mentor keeps a stalled mentor stalled: at capacity or unavailable, that mentor's new request is QUEUED or refused, and the ACCEPTED count does not change. |
| MentorshipStall.AcceptElsewhereKeepsStall | backend/src/routes/mentorship.js:129-161 | Under the invariant, another mentor's accept and its promotion change no row of the stalled mentor and keep it stalled. |
| MentorshipStall.RejectElsewhereKeepsStall | backend/src/routes/mentorship.js:184-191 | Another mentor's reject changes no row of the stalled mentor and keeps it stalled. |
| MentorshipStall.SaveKeepsStall | backend/src/routes/alumni.js:25-84 | A profile save leaves every mentor's availability and capacity as they were, so a stalled mentor stays stalled. |
| MentorshipStall.StepKeepsStall | backend/src/routes/mentorship.js:25-199 | Any single create, accept, reject, profile save or job-board call keeps the invariant and the stall, and leaves the stalled mentor's rows unchanged. |
| MentorshipStall.StallIsPermanent | backend/src/routes/mentorship.js:122-167 | After any sequence of handler calls a stalled mentor is still stalled, every row of that mentor is unchanged, and every accept or reject by that mentor is not-found: the queue is never promoted. |
| MentorshipScenarios.AliceAsks | backend/src/routes/mentorship.js:54-75 | A first request to an available mentor with capacity 1 is PENDING with id 1. |
| MentorshipScenarios.SecondRequestNotQueued | backend/src/routes/mentorship.js:46-57 | With capacity 1 and one PENDING request, a second request is PENDING too, not QUEUED. |
| MentorshipScenarios.AcceptAlice | backend/src/routes/mentorship.js:129-145 | Accepting the first request leaves the second PENDING. |
| MentorshipScenarios.CapacityNotEnforced | backend/src/routes/mentorship.js:46-57 | Both PENDING requests can then be accepted, leaving 2 ACCEPTED with capacity 1. |
| MentorshipScenarios.QueuedAtCapacity | backend/src/routes/mentorship.js:57-66 | At capacity a new request is QUEUED at `NextQueuePosition`. |
| MentorshipScenarios.CarolQueues | backend/src/routes/mentorship.js:57-66 | With one ACCEPTED request and no queue, the next request is QUEUED at position 1. |
| MentorshipScenarios.DaveQueues | backend/src/routes/mentorship.js:60-66 | The next one is QUEUED at position 2. |
| MentorshipScenarios.QueuePromotionLeavesGap | backend/src/routes/mentorship.js:147-161 | Accepting then promotes the position-1 row to PENDING while Dave keeps position 2, so no row holds position 1. |
| MentorshipScenarios.RejectBob | backend/src/routes/mentorship.js:184-199 | Rejecting leaves the ACCEPTED row in place and moves no queue. |
| MentorshipScenarios.CarolQueuesAfterRejection | backend/src/routes/mentorship.js:46-66 | After the rejection the mentor is still at capacity, so the next request is QUEUED at position 1, giving the valid store from which `QueueCanStall` starts: the stall is reachable from an empty store. |
| MentorshipScenarios.QueueCanStall | backend/src/routes/mentorship.js:129-167 | With capacity 1 filled by an ACCEPTED row, one REJECTED row and one QUEUED row, the mentor is stalled: after any sequence of handler calls the QUEUED row is still QUEUED at position 1 and every accept by the mentor is not-found. |
| MentorshipScenarios.ZeroCapacityQueues | backend/src/routes/mentorship.js:57-66 | An available mentor with `max_mentees = 0` queues the first request at position 1. |
| MentorshipScenarios.NoRequestAfterRejection | backend/src/routes/mentorship.js:37-43 | After a rejection the same student's new request is refused as a duplicate. |
| Alumni.HttpStatus | backend/src/routes/alumni.js:255-263 | A missing profile is 404 and a private profile is 403; missing topics are 400 (line 313). |
| Alumni.ViewProfile | backend/src/routes/alumni.js:255-265 | 404 iff the user has no profile row. 403 iff the first such row is PRIVATE and the viewer is someone else. Otherwise the returned profile is a row of that user that the viewer may see. |
| Alumni.OwnerSeesOwnProfile | backend/src/routes/alumni.js:261 | An owner always sees their own profile, whatever its visibility. |
| Alumni.NonPrivateVisibleToAll | backend/src/routes/alumni.js:259-265 | A profile that is not PRIVATE is returned to every viewer. |
| Alumni.SaveProfile | backend/src/routes/alumni.js:25-84 | With an existing profile, each of the user's rows gets the new fields and keeps its other columns, and every other row is unchanged. Without one, exactly one row with the fields is appended. Only the profile table changes, and the returned row carries the user and the fields. |
| Alumni.SaveLeavesOneProfile | backend/src/routes/alumni.js:25-84 | If profiles are unique per user, then after a save the user has exactly one row, holding the submitted fields, and uniqueness holds. |
| Alumni.SaveIdempotent | backend/src/routes/alumni.js:30-58 | Saving the same fields again leaves the store as it was. |
| Alumni.Suggestions | backend/src/routes/alumni.js:311-339 | Refused iff `topics` is missing or empty. Otherwise at most 10 rows, each an available profile offering one of the trimmed topics. |
| Alumni.SuggestionsComplete | backend/src/routes/alumni.js:331-336 | A matching mentor is left out only when the 10-row limit is reached. |
| Search.AddScalarBindings | backend/src/routes/alumni.js:116-144 | A scalar filter adds one placeholder, compared with its column and bound to its value; earlier placeholders keep their meaning. |
| Search.AddScalarNumbered | backend/src/routes/alumni.js:117-119 | The new placeholder is `$idx`, one past the last. |
| Search.AddTopicsBindings | backend/src/routes/alumni.js:147-154 | The topics filter adds one placeholder per topic, each bound to that topic and compared with the mentor topics. |
| Search.AddTopicsNumbered | backend/src/routes/alumni.js:149-153 | The topic placeholders continue the numbering from `$idx`. |
| Search.TopicList | backend/src/routes/alumni.js:148 | One trimmed topic per comma-separated piece, in order; at least one. |
| Search.BuildFilters | backend/src/routes/alumni.js:112-154 | The builder's counter stays one past the number of values. The placeholders in the conditions match the values one to one. The first condition is the visibility test. |
| Search.BuildBindings | backend/src/routes/alumni.js:113-154 | From the start state, the placeholders are `$1 … $n` in order. They bind the given scalar filters, then one comparison per topic. |
| Search.BindingsMatchRequest | backend/src/routes/alumni.js:113-154 | Placeholder `$k` is compared with the column of the k-th requested filter and bound to exactly its value. `idx` equals the number of values plus one. |
| Search.TopicsCountPieces | backend/src/routes/alumni.js:147-154 | `topics` adds as many values as it has comma-separated pieces. |
| Search.NameFilterFirst | backend/src/routes/alumni.js:116-120 | A non-blank `q` is `$1`, bound to the trimmed text wrapped in `%…%` and matched against the name. |
| Search.BlankFiltersIgnored | backend/src/routes/alumni.js:116-138 | A blank `q`, `department` or `company` builds the same conditions and values as an absent one. |
| Search.AvailableOnlyWhenTrue | backend/src/routes/alumni.js:140-144 | `available` filters only when it is exactly `"true"`. |
| Search.PlaceholderNumber | backend/src/routes/alumni.js:117 | `$k` reads back as k, so distinct numbers give distinct placeholders. |
| Search.WherePublicFirst | backend/src/routes/alumni.js:156 | A condition list led by the visibility test renders as `WHERE` followed by that test and then ` AND ` plus each further condition. |
| Search.WhereAlwaysPublic | backend/src/routes/alumni.js:112-156 | Every search's WHERE clause starts with `ap.visibility = 'PUBLIC'`. Every filter only adds conditions after it, joined with ` AND `. |
| Search.OrderFor | backend/src/routes/alumni.js:159-173 | Each of the three recognised `sort` names selects its own ordering; anything else, or nothing, sorts by name ascending. |
| Search.OrderWhitelisted | backend/src/routes/alumni.js:159-173 | The ORDER BY text is always one of four fixed strings; it is `u.name ASC` iff `sort` is unrecognised. |
| Search.Offset | backend/src/routes/alumni.js:110 | The offset is non-negative for page ≥ 1, and adding one page of rows gives the end of the page. |
| Search.TotalPages | backend/src/routes/alumni.js:187 | The smallest page count whose pages hold `total` rows. |
| Search.PagesCoverResults | backend/src/routes/alumni.js:108-110 | Row i of the result lies on exactly one page, page i / limit + 1, and that page is within `totalPages`. |
| Search.PlanFor | backend/src/routes/alumni.js:176-209 | Both queries share the WHERE clause, which starts with the visibility test, and the count query binds the filter values. The page query binds them followed by `limit` and the offset, in the two placeholders `$idx` and `$idx+1` after them. The ORDER BY text is whitelisted. |
| Text.Trim | backend/src/routes/alumni.js:116 | `trim` gives the empty string iff the text is all whitespace. |
| Text.TrimShape | backend/src/routes/alumni.js:116 | `trim` keeps the text between a blank prefix and a blank suffix. |
| Text.TrimEndsNotBlank | backend/src/routes/alumni.js:116 | A trimmed text neither starts nor ends with whitespace. |
| Text.Split | backend/src/routes/alumni.js:148 | `split` gives at least one piece, and no piece contains the separator. |
| Text.JoinSplit | backend/src/routes/alumni.js:148 | Joining the pieces of a split with the separator gives back the text. |
| Text.SplitJoin | backend/src/routes/alumni.js:148 | Splitting a join of separator-free pieces gives back the pieces. |
| Text.ParseNatToString | backend/src/routes/alumni.js:117 | The decimal rendering of a number reads back as that number. |
| Jobs.HttpStatus | backend/src/routes/jobs.js:14-168 | Missing fields, a repeat application and an invalid status are 400; a missing job or application is 404. |
| Jobs.CreateJob | backend/src/routes/jobs.js:14-24 | Refused iff `title` or `company` is missing or empty. Otherwise exactly one job row with the next id and the given columns is appended. |
| Jobs.ResumeOrNull | backend/src/routes/jobs.js:89 | The resume is the given link when it is present and non-empty, and NULL otherwise. |
| Jobs.Apply | backend/src/routes/jobs.js:61-101 | 404 iff no job has the id. A repeat application by the same student is refused. Otherwise one application with the next id and default status is appended, and one JOB_APPLICATION notice goes to the job's poster. Nothing else changes. |
| Jobs.UpdateStatus | backend/src/routes/jobs.js:150-179 | Refused iff the status is not SHORTLISTED or REJECTED. 404 iff no application with the id is on one of the caller's jobs. Otherwise exactly those applications get the status, and one APPLICATION_STATUS notice goes to such an application's student. |
| Jobs.CreateJobPreservesValid | backend/src/routes/jobs.js:19-24 | Posting keeps the job-board invariant. Ids stay issued and distinct, at most one application exists per (job, student), and every status is the default or an allowed one. |
| Jobs.AppendApplicationValid | backend/src/routes/jobs.js:74-90 | Appending a fresh-id, unreviewed application for a new pair keeps the invariant. |
| Jobs.ApplyPreservesValid | backend/src/routes/jobs.js:74-90 | Applying keeps the invariant; in particular a second application for the same pair never lands. |
| Jobs.RestatusValid | backend/src/routes/jobs.js:150-164 | Setting an allowed status on some applications, with nothing else touched, keeps the invariant. |
| Jobs.UpdateStatusPreservesValid | backend/src/routes/jobs.js:150-164 | Reviewing keeps the invariant. |
| Jobs.ReviewTouchesOnlyTarget | backend/src/routes/jobs.js:155-179 | Under the invariant, an owner's review changes exactly the one application and notifies its student; a non-owner gets 404. |
| Auth.Guard | backend/src/middleware/auth.js:3-36 | 401 for a missing or non-`Bearer ` header, a failed verification, or a payload without id or role. 403 iff the payload is valid, a role is required and the user's role differs. Otherwise the request passes, with exactly the payload's id and role. |
| Auth.TokenOf | backend/src/middleware/auth.js:12 | The token is the second space-separated segment of the header, and holds no space. |
| Auth.HeaderCheckedFirst | backend/src/middleware/auth.js:8-10 | A malformed header is refused with 401 whatever the verifier would say. |
| Auth.TokenIsFirstWord | backend/src/middleware/auth.js:12 | The token is the text after `Bearer ` up to the next space, or all of it when no further space follows. |
| Auth.NoRoleAdmitsEveryValidUser | backend/src/middleware/auth.js:3-31 | With no required role, every verified, valid payload passes. |
| Auth.AdmittedUserHasRole | backend/src/middleware/auth.js:16-29 | A user admitted under a required role has exactly that role and a non-zero id. |

## Left out

- SQL execution, the `pg` pool, joins with `users` (names, e-mails, locations) and `created_at`.
  Listings are newest first, modelled as reverse table order on the assumption that `created_at`
  increases with insertion.
- Transactions and concurrent requests. Each handler is one atomic step, and nothing is claimed
  about interleavings such as two creates both seeing spare capacity.
- The `catch` branches that answer 500 on a database failure. A failing query is not modelled.
- `jwt.verify`, `jwt.sign` and `bcrypt` are opaque; the verifier is a parameter of `Auth.Guard`.
  Express routing, response plumbing and query-string arrays are not modelled either.
- How the guard composes with each route. Handlers take the authenticated user's id as an argument,
  and the required role per route is not re-checked.
- Notification message texts. Only recipient and type are modelled.
- `GET /alumni/analytics`, `GET /jobs`, `GET /jobs/applications`, and the events, students,
  notifications, admin and auth routes. They are aggregate or plain CRUD queries outside this core.
  The frontend is left out too.
- Search.Search: the composed handler states no contract of its own; its properties are those of
  `Search.PlanFor` and `Search.BindingsMatchRequest`.
- Search.TotalPages: requires `limit >= 1` and uses exact integer ceiling division. `parseInt`
  failures (NaN) and non-positive limits, for which `Math.ceil` yields NaN or Infinity, are not
  modelled. `page` and `limit` are taken as already-parsed integers, and the handler's defaults
  `page = 1` and `limit = 6` (`routes/alumni.js:104-105`) are left to the caller of `Search.PlanFor`
  and `Search.Search`.
- Routing order is not modelled. `GET /alumni/suggestions` (`routes/alumni.js:311`) and
  `GET /alumni/analytics` (`routes/alumni.js:271`) are registered after `GET /alumni/:id`
  (`routes/alumni.js:229`), so Express hands those paths to the profile handler; `Alumni.Suggestions`
  is modelled as if it were reachable.
- Alumni.Suggestions: the result is the first ten matching rows in table order, not in
  `ORDER BY u.name` order, because user names are not modelled. Which ten rows are returned when
  more than ten match is therefore not modelled.
- Alumni.SaveProfile: the insert's column defaults are a parameter, since the schema is not part of
  this model. `undefined` body fields become NULL.
- Mentorship.Create: a NULL `max_mentees` is represented as 0, which is how JavaScript compares it.
  The `parseInt` of `COUNT(*)` is exact. `req.params` ids are integers here, not strings.
