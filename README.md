# Job portal: a verified model of the server's store and the home-page job filter

This project models the core of a small job board. The Express/MySQL server keeps three tables:
`users`, `jobs` and `applications`. Its request handlers register users, log them in, post and
list jobs, take applications, list them and report dashboard counts. The home page of the React
front end narrows the job list with a search term, a location filter and a type filter.

The model is written in Dafny and split as the system is:

- `portal.dfy`: the tables as `seq` fields of a class `JobPortal`, together with their
  AUTO_INCREMENT counters. The handlers that INSERT rows are methods of this class: register,
  apply (with the apply route behind the token check), create job, and start-up seeding. Each
  method keeps `TablesValid`, which holds:
  - strictly increasing ids;
  - unique emails;
  - at most one application per (job, user) pair;
  - the two foreign keys of `applications`.
- `queries.dfy`: the read-only handlers as functions of the tables. These are job by id, the job
  list, the two application listings (joined and newest first) and the stats counts.
- `auth.dfy`: the `authenticateToken` middleware and the login handler.
- `crypto.dfy`: bcrypt and JSON Web Tokens as abstract capabilities. Each is a pair of functions
  with the one law the handlers rely on: a password matches its own hash, and a freshly signed
  token verifies to its claims and is one word.
- `records.dfy`: the table rows, the answer shapes and the table constraints.
- `default_jobs.dfy`: the 20 seed postings.
- `text.dfy`, `sequences.dfy` and `ordering.dfy` hold the primitives:
  - ASCII `toLowerCase`, `includes` and `split(' ')`;
  - `Array.filter`;
  - `ORDER BY created_at DESC`.
- `job_filter.dfy`: `filterJobs` from the home page.

Timestamps are integer seconds, and the current time is a parameter.

Behaviour as coded, which the model follows:

- The two login failures answer with different texts: "Invalid credentials" for an unknown email
  and "Invalid credentialsssss" for a wrong password.
- Posting a job checks no field.
- Apply has no explicit job-existence check. A missing job or user makes the INSERT break a
  foreign key, and the handler answers 500 with MySQL's error 1452 text, which names the broken
  constraint (the job's when both are missing). Nothing is stored, but InnoDB has already drawn
  the AUTO_INCREMENT value, so the next stored application skips that id.
- No handler changes an application's status.
- When `EMAIL_USER` is set, apply reaches the mail step after the row is committed. That step uses
  a mail transport that is commented out, so the answer is a 500 although the row stays stored.
  `Apply` models this with the `mailerConfigured` flag.

## Model

| member | source | states |
|---|---|---|
| Text.Lower | frontend/src/pages/Home.tsx:49-50 | lower-casing keeps the length, turns each ASCII upper-case letter into its lower-case letter (code plus 32) and keeps every other character |
| Text.LowerIdempotent | frontend/src/pages/Home.tsx:49-56 | lower-casing twice is lower-casing once |
| Text.ContainsIffOccurs | frontend/src/pages/Home.tsx:49-56 | `includes` holds exactly when the needle occurs as a slice at some position (both directions) |
| Text.ContainsEmpty | frontend/src/pages/Home.tsx:49-56 | every string includes the empty string |
| Text.Split | server/index.js:299 | `split(' ')` yields at least one field and no field contains the separator |
| Text.JoinSplit | server/index.js:299 | joining the fields of a split with the separator gives the original header back |
| Text.SplitJoin | server/index.js:299 | splitting a join of separator-free fields gives the fields back |
| Text.SplitAfterWord | server/index.js:299 | a separator-free first word followed by the separator is split off as the first field |
| Sequences.Filter | frontend/src/pages/Home.tsx:48-61 | `Array.filter` keeps only accepted elements of the input, and keeps every accepted element |
| Sequences.FilterIsSubsequence | frontend/src/pages/Home.tsx:48-61 | a filter result is an order-preserving subsequence of its input |
| Sequences.FilterFuse | frontend/src/pages/Home.tsx:48-61 | two filters in a row equal one filter by the conjunction of their predicates |
| Sequences.FilterIdempotent | frontend/src/pages/Home.tsx:48-61 | filtering twice by the same predicate equals filtering once |
| Ordering.SortNewestFirst | server/index.js:389 | the result has non-increasing `created_at` and is a permutation (same multiset) of the input |
| DefaultJobs.Postings | server/index.js:94-275 | there are exactly 20 default postings, with the source's field values |
| Auth.BearerToken | server/index.js:298-303 | a token is taken only from a present header, and it is a non-empty word without spaces |
| Auth.BearerTokenIsSecondWord | server/index.js:299 | a token found is the second space-separated word: the header is first word, one space, token, then nothing or a space and more |
| Auth.BearerTokenOfWords | server/index.js:299 | conversely, for any first word, the word after the first space is the token, whatever follows it |
| Auth.NoTokenWithoutSpace | server/index.js:298-303 | a missing header, or a header without a space, yields no token |
| Auth.Authenticate | server/index.js:297-310 | 401 exactly when no token is found, 403 exactly when the token does not verify, otherwise the decoded identity is passed on |
| Auth.IssuedTokenAuthenticates | server/index.js:297-310 | `Bearer <token>` with a freshly signed token authenticates as exactly the signed identity |
| Auth.FindUserByEmail | server/index.js:356 | a user is found exactly when the email is stored, and the found row has that email |
| Auth.FindUniqueUser | server/index.js:44 | with unique emails the lookup returns the one row holding the email |
| Auth.Login | server/index.js:352-384 | failures are 401; an unknown email gives "Invalid credentials" and nothing else does; a success carries a token for a stored row with that email whose hash matches the password |
| Auth.LoginWithStoredPassword | server/index.js:356-380 | a stored email with the password its hash was made from logs in, and the token verifies to that row's id and email |
| Auth.LoginWrongPassword | server/index.js:361-364 | a failing hash comparison gives 401 "Invalid credentialsssss", a text distinct from the unknown-email one |
| Queries.FindJob | server/index.js:399 | a job is found exactly when one has the id, and the found row has it |
| Queries.FindUser | server/index.js:433 | a user is found exactly when one has the id, and the found row has it |
| Queries.FindJobUnique | server/index.js:54 | with AUTO_INCREMENT ids, the lookup by a row's id returns that very row |
| Queries.GetJob | server/index.js:397-407 | success exactly when a job has the id, with a stored row of that id; otherwise 404 "Job not found" |
| Queries.CreatedJobIsFound | server/index.js:465-471 | a job just inserted with the next id is what the get-by-id handler answers for that id |
| Queries.ListJobs | server/index.js:387-394 | the job list is every job, each once, newest first |
| Queries.JoinApplicants | server/index.js:480-486 | each joined row carries the job and user columns found by its ids; when every reference exists no row is dropped and the order is kept |
| Queries.JoinJobs | server/index.js:519-525 | each joined row carries the job columns found by its job id; when every job exists no row is dropped and the order is kept |
| Queries.JoinApplicantsAtMostOnce | server/index.js:480-486 | the inner join yields at most one row per application it is given |
| Queries.ListApplications | server/index.js:478-491 | the listing has at most one row per application (its applications form a sub-multiset of the table), and every row is a stored application joined to its existing job and applicant |
| Queries.ListApplicationsExact | server/index.js:480-486 | under the foreign keys the listing holds every application exactly once, newest first, joined to its job and applicant |
| Queries.UserApplications | server/index.js:516-525 | every row of the user listing is a stored application of that user |
| Queries.UserApplicationsExact | server/index.js:519-525 | the user listing holds exactly that user's applications (each once, none missing), newest first, joined to their jobs |
| Queries.GetUserApplications | server/index.js:516-530 | a failed token check answers 401 or 403 without listing; otherwise every row belongs to the token's id |
| Queries.CountSince | server/index.js:499-502 | the recent count never exceeds the number of applications |
| Queries.CountSinceIsFilterSize | server/index.js:499-502 | the recent count is the number of applications created at or after now minus 7 days |
| Queries.GetStats | server/index.js:494-509 | `recentApplications` is the size of the 7-day window's filter and at most `totalApplications` |
| Queries.StatsTotalsAreTableSizes | server/index.js:496-508 | the three totals are the sizes of the jobs, applications and users tables |
| Queries.StatsAfterApply | server/index.js:426-429 | an application stored at the time of the call raises the application total and the recent count by one each and nothing else |
| Portal.SeededJobsAutoIncrement | server/index.js:277-282 | seeding draws consecutive ids from the counter, so the jobs table keeps increasing ids below the advanced counter |
| Portal.JobPortal.constructor | server/index.js:40-78 | the store starts with three empty tables whose counters start at 1, satisfying every constraint |
| Portal.JobPortal.InsertJob | server/index.js:461-475 | create job appends exactly one row with the supplied fields and the next id, answers that id, and changes nothing else |
| Portal.JobPortal.InsertJobs | server/index.js:277-282 | the insert loop appends the postings' rows in list order with consecutive ids |
| Portal.JobPortal.InsertDefaultJobs | server/index.js:93-285 | seeding appends exactly the 20 default rows in list order |
| Portal.JobPortal.InitializeDatabase | server/index.js:80-84 | an empty jobs table receives the 20 default rows and the counter advances by 20; a non-empty one is left unchanged |
| Portal.JobPortal.Register | server/index.js:313-349 | a stored email gives 400 "User already exists with this email" with users unchanged; otherwise exactly one row is appended with the next id and the password's hash, and the answer is a token for that id and email with the row minus its hash |
| Portal.JobPortal.Apply | server/index.js:410-458 | an existing (job, user) row gives 400 "You have already applied for this job" with nothing added; a missing job or user gives 500 with the error 1452 text naming the broken constraint, nothing added and one id used up; otherwise exactly one `pending` row is appended and its new id is answered, or 500 after the insert when a mail sender is configured; every constraint, unique pairs included, is kept |
| Portal.ForeignKeyError | server/index.js:426-429 | the 500 text of a foreign-key failure starts with MySQL's "Cannot add or update a child row: a foreign key constraint fails" |
| Portal.ForeignKeyErrorNamesKey | server/index.js:68-77 | the texts for a missing job and a missing user differ, since each names its own constraint |
| Portal.JobPortal.PostApplication | server/index.js:410-413 | a failed token check answers its 401 or 403 without touching the tables; otherwise at most one row for the token's id is added |
| Portal.ApplyTwice | server/index.js:416-429 | a second apply for the same pair always fails, with 400 when the first succeeded, and at most one row is added |
| JobFilter.FilterJobs | frontend/src/pages/Home.tsx:44-65 | every kept job is an input job passing every non-empty filter (search in title or company, location, exact type), and every such input job is kept |
| JobFilter.OptionalStage | frontend/src/pages/Home.tsx:47-62 | a stage skipped for an empty string equals a filter that accepts everything |
| JobFilter.FilterJobsIsOneFilter | frontend/src/pages/Home.tsx:44-64 | the three stages equal one filter by the conjunction of the non-empty filters, in input order |
| JobFilter.NoFiltersKeepsAll | frontend/src/pages/Home.tsx:45-64 | with all three strings empty the result is the input list |
| JobFilter.FilterJobsIsSubsequence | frontend/src/pages/Home.tsx:48-61 | the result is a subsequence of the input, in the original order |
| JobFilter.FilterJobsIdempotent | frontend/src/pages/Home.tsx:44-64 | filtering the result again with the same strings returns it unchanged |
| JobFilter.SearchIgnoresCase | frontend/src/pages/Home.tsx:47-52 | a search term and its lower-cased form select the same jobs |

## Left out

- Database plumbing is not modelled: the MySQL connection, executing `CREATE TABLE`, and the
  mapping of arbitrary driver errors to 500 (server/index.js:19-34, 346-348). The tables are the
  class's fields. The only database errors modelled are the foreign-key failure of apply and the
  UNIQUE email, which the handler's own check pre-empts.
- Missing request-body fields are not modelled. For those, the driver rejects `undefined` bind
  parameters and the handler answers 500. The model's inputs are present strings, and an absent
  `salary` or `phone` is a JSON `null` (`None`).
- Column length limits (`VARCHAR(255)`, `VARCHAR(20)`, ...) and string-to-integer coercion of
  `:id` and `jobId` are not modelled. Ids are integers.
- The schema name in error 1452 is the constructor's `database` argument (`DB_NAME`). The
  constraint names are MySQL's generated `applications_ibfk_1` and `applications_ibfk_2`.
- Emails are compared exactly. MySQL's default collation would compare them case-insensitively.
- bcrypt is two abstract functions: hashing with a salt supplied as a parameter, and comparison.
  The cost factor and the cryptography are not modelled.
- JSON Web Tokens are an abstract sign/verify pair under one process secret. The 24-hour expiry
  is folded into `verify` returning nothing, and the secret is not modelled.
- The race between the duplicate check and the INSERT of apply is not modelled. Apply is atomic,
  and requests are sequential.
- The confirmation mail is not modelled beyond its effect on the answer when a sender is
  configured. Mail content and delivery are a foreign side effect.
- `NOW()` and `CURRENT_TIMESTAMP` are an integer `now` parameter. All 20 seed rows get the same
  timestamp, and the 7-day window is 604800 seconds.
- Ties in `ORDER BY created_at DESC` are unspecified in SQL. The model orders equal timestamps
  in table order, and its contracts promise only the order and the permutation.
- Success message texts are not modelled ("Registration successful", "Application submitted
  successfully", "Job created successfully"), and neither is console logging.
- `toLowerCase` and `includes` are ASCII case folding and plain substring search. Unicode case
  mapping is not modelled.
- `formatDate` and all React rendering, state hooks, axios calls and localStorage are not
  modelled.
- Portal.JobPortal.PostApplication: states only that at most one row for the token's id is added.
  The exact outcome is the contract of `Portal.JobPortal.Apply`, which it calls.
- Queries.GetUserApplications: states only that every row belongs to the token's id.
  Completeness and order are stated by `Queries.UserApplicationsExact`.
