/**
 * The job-portal server as a store of three tables. The handlers that INSERT rows
 * (register, apply, create job, start-up seeding) are methods of one object whose fields are the
 * tables and their AUTO_INCREMENT counters; each keeps the constraints of `TablesValid`.
 */
module Portal {
  import opened Wrappers
  import opened Records
  import opened Crypto
  import opened Text
  import Auth
  import DefaultJobs

  const DuplicateEmailMessage: string := "User already exists with this email"
  const DuplicateApplicationMessage: string := "You have already applied for this job"
  /** The opening words of MySQL error 1452, raised when an INSERT breaks a FOREIGN KEY constraint. */
  const ForeignKeyMessage: string := "Cannot add or update a child row: a foreign key constraint fails"
  /** The error of the confirmation-mail step: the mail transport is never defined. */
  const MailerMissingMessage: string := "transporter is not defined"

  /** Error 1452 up to the number of the broken constraint of `applications` in `database`. */
  function ConstraintPrefix(database: string): string {
    ForeignKeyMessage + " (`" + database + "`.`applications`, CONSTRAINT `applications_ibfk_"
  }

  /**
   * The whole text of error 1452 for an INSERT INTO applications. The two unnamed constraints
   * are numbered in declaration order (`job_id` first), and InnoDB reports the first one that
   * fails, so a missing job is named even when the user is missing too.
   */
  function ForeignKeyError(database: string, jobMissing: bool): (m: string)
    ensures StartsWith(m, ForeignKeyMessage)
  {
    var p := ConstraintPrefix(database);
    var m := if jobMissing
      then p + ['1'] + "` FOREIGN KEY (`job_id`) REFERENCES `jobs` (`id`))"
      else p + ['2'] + "` FOREIGN KEY (`user_id`) REFERENCES `users` (`id`))";
    assert m[..|ForeignKeyMessage|] == ForeignKeyMessage by {
      assert p[..|ForeignKeyMessage|] == ForeignKeyMessage;
      assert m[..|p|] == p;
    }
    m
  }

  /** The answer tells a missing job apart from a missing user: the two texts differ. */
  lemma ForeignKeyErrorNamesKey(database: string)
    ensures ForeignKeyError(database, true) != ForeignKeyError(database, false)
  {
    var p := ConstraintPrefix(database);
    assert ForeignKeyError(database, true)[|p|] == '1';
    assert ForeignKeyError(database, false)[|p|] == '2';
  }

  /** The rows that inserting `postings` one by one creates, the first with id `first`. */
  function SeededJobs(postings: seq<JobPosting>, first: nat, now: int): seq<Job>
  {
    seq(|postings|, i requires 0 <= i < |postings| => NewJob(first + i, postings[i], now))
  }

  /** The rows seeded from `first` carry the ids `first`, `first + 1`, ... in list order. */
  lemma SeededJobsIds(postings: seq<JobPosting>, first: nat, now: int)
    ensures Ids(SeededJobs(postings, first, now), JobId) == Consecutive(first, |postings|)
  {
    var ids := Ids(SeededJobs(postings, first, now), JobId);
    forall i | 0 <= i < |postings| ensures ids[i] == first + i {
      assert ids[i] == JobId(SeededJobs(postings, first, now)[i]);
    }
  }

  /**
   * Seeding draws consecutive AUTO_INCREMENT values: appending the seeded rows to a table whose
   * counter is `next` keeps the ids increasing and moves the counter past the last one.
   */
  lemma SeededJobsAutoIncrement(jobs: seq<Job>, postings: seq<JobPosting>, next: nat, now: int)
    requires AutoIncrement(Ids(jobs, JobId), next)
    ensures AutoIncrement(Ids(jobs + SeededJobs(postings, next, now), JobId), next + |postings|)
  {
    IdsAppend(jobs, SeededJobs(postings, next, now), JobId);
    SeededJobsIds(postings, next, now);
    AutoIncrementConsecutive(Ids(jobs, JobId), next, |postings|);
  }

  class JobPortal {
    var users: seq<User>
    var jobs: seq<Job>
    var applications: seq<Application>
    var nextUserId: nat
    var nextJobId: nat
    var nextApplicationId: nat
    /** The MySQL schema the tables live in (`DB_NAME`); it appears in constraint errors. */
    const database: string

    ghost predicate Valid()
      reads this
    {
      TablesValid(users, jobs, applications, nextUserId, nextJobId, nextApplicationId)
    }

    /** Three empty tables whose AUTO_INCREMENT counters start at 1. */
    constructor (database: string)
      ensures Valid() && this.database == database
      ensures users == [] && jobs == [] && applications == []
      ensures nextUserId == 1 && nextJobId == 1 && nextApplicationId == 1
    {
      this.database := database;
      users, jobs, applications := [], [], [];
      nextUserId, nextJobId, nextApplicationId := 1, 1, 1;
    }

    /**
     * `INSERT INTO jobs (...) VALUES (...)`, also the whole of `POST /api/jobs`: no field is
     * checked, the row gets the next id, and that id is the answer.
     */
    method InsertJob(posting: JobPosting, now: int) returns (id: nat)
      requires Valid()
      modifies this
      ensures Valid()
      ensures id == old(nextJobId) && nextJobId == id + 1
      ensures jobs == old(jobs) + [NewJob(id, posting, now)]
      ensures users == old(users) && applications == old(applications)
      ensures nextUserId == old(nextUserId) && nextApplicationId == old(nextApplicationId)
    {
      id := nextJobId;
      IdsAppend(jobs, [NewJob(id, posting, now)], JobId);
      assert Ids(jobs + [NewJob(id, posting, now)], JobId) == Ids(jobs, JobId) + [id];
      AutoIncrementAppend(Ids(jobs, JobId), id);
      ghost var before := jobs;
      jobs := jobs + [NewJob(id, posting, now)];
      nextJobId := nextJobId + 1;
      forall x | JobExists(before, x) ensures JobExists(jobs, x) {
        var k :| 0 <= k < |before| && before[k].id == x;
        assert jobs[k] == before[k];
      }
    }

    /** The loop of `insertDefaultJobs`: inserts the postings one by one, in list order. */
    method InsertJobs(postings: seq<JobPosting>, now: int)
      requires Valid()
      modifies this
      ensures Valid()
      ensures jobs == old(jobs) + SeededJobs(postings, old(nextJobId), now)
      ensures nextJobId == old(nextJobId) + |postings|
      ensures users == old(users) && applications == old(applications)
      ensures nextUserId == old(nextUserId) && nextApplicationId == old(nextApplicationId)
    {
      for i := 0 to |postings|
        invariant Valid()
        invariant jobs == old(jobs) + SeededJobs(postings[..i], old(nextJobId), now)
        invariant nextJobId == old(nextJobId) + i
        invariant users == old(users) && applications == old(applications)
        invariant nextUserId == old(nextUserId) && nextApplicationId == old(nextApplicationId)
      {
        var _ := InsertJob(postings[i], now);
        assert SeededJobs(postings[..i + 1], old(nextJobId), now)
          == SeededJobs(postings[..i], old(nextJobId), now) + [NewJob(old(nextJobId) + i, postings[i], now)];
      }
      assert postings[..|postings|] == postings;
    }

    /** `insertDefaultJobs`: the 20 default postings, inserted in list order. */
    method InsertDefaultJobs(now: int)
      requires Valid()
      modifies this
      ensures Valid()
      ensures jobs == old(jobs) + SeededJobs(DefaultJobs.Postings(), old(nextJobId), now)
      ensures nextJobId == old(nextJobId) + 20
      ensures users == old(users) && applications == old(applications)
      ensures nextUserId == old(nextUserId) && nextApplicationId == old(nextApplicationId)
    {
      InsertJobs(DefaultJobs.Postings(), now);
    }

    /** `initializeDatabase`: seeds the default jobs only when the jobs table is empty. */
    method InitializeDatabase(now: int)
      requires Valid()
      modifies this
      ensures Valid()
      ensures old(jobs) == [] ==>
        && jobs == SeededJobs(DefaultJobs.Postings(), old(nextJobId), now)
        && nextJobId == old(nextJobId) + 20
      ensures old(jobs) != [] ==> jobs == old(jobs) && nextJobId == old(nextJobId)
      ensures users == old(users) && applications == old(applications)
      ensures nextUserId == old(nextUserId) && nextApplicationId == old(nextApplicationId)
    {
      if |jobs| == 0 {
        InsertDefaultJobs(now);
      }
    }

    /**
     * `POST /api/auth/register`: 400 when the email is already stored; otherwise one new row
     * holding the password's hash, a token for its id and email, and the row without the hash.
     */
    method Register(name: string, email: string, password: string, phone: Option<string>, salt: nat,
                    scheme: PasswordScheme, signer: TokenSigner, now: int) returns (r: Result<Session, HttpError>)
      requires Valid()
      modifies this
      ensures Valid()
      ensures jobs == old(jobs) && applications == old(applications)
      ensures nextJobId == old(nextJobId) && nextApplicationId == old(nextApplicationId)
      ensures old(EmailTaken(users, email)) ==>
        && r == Failure(HttpError(400, DuplicateEmailMessage))
        && users == old(users) && nextUserId == old(nextUserId)
      ensures !old(EmailTaken(users, email)) ==>
        var u := User(old(nextUserId), name, email, scheme.hash(password, salt), phone, now);
        && users == old(users) + [u]
        && nextUserId == old(nextUserId) + 1
        && r == Success(Session(signer.sign(Claims(u.id, email)), ToPublic(u)))
    {
      if EmailTaken(users, email) {
        return Failure(HttpError(400, DuplicateEmailMessage));
      }
      var hashed := scheme.hash(password, salt);
      var u := User(nextUserId, name, email, hashed, phone, now);
      IdsAppend(users, [u], UserId);
      assert Ids(users + [u], UserId) == Ids(users, UserId) + [u.id];
      AutoIncrementAppend(Ids(users, UserId), u.id);
      ghost var before := users;
      users := users + [u];
      nextUserId := nextUserId + 1;
      forall x | UserExists(before, x) ensures UserExists(users, x) {
        var k :| 0 <= k < |before| && before[k].id == x;
        assert users[k] == before[k];
      }
      r := Success(Session(signer.sign(Claims(u.id, email)), ToPublic(u)));
    }

    /**
     * `POST /api/applications` once the token is verified: 400 when the user already applied
     * for the job; 500 with nothing stored when the job or the user does not exist (the foreign
     * keys), though the failed INSERT has used up an id; otherwise one new `pending` row. When a
     * mail sender is configured the handler then fails on the missing mail transport and answers
     * 500, though the row stays stored.
     */
    method Apply(userId: int, jobId: int, coverLetter: Option<string>, mailerConfigured: bool, now: int)
      returns (r: Result<nat, HttpError>)
      requires Valid()
      modifies this
      ensures Valid()
      ensures users == old(users) && jobs == old(jobs)
      ensures nextUserId == old(nextUserId) && nextJobId == old(nextJobId)
      ensures old(HasApplied(applications, jobId, userId)) ==>
        && r == Failure(HttpError(400, DuplicateApplicationMessage))
        && applications == old(applications) && nextApplicationId == old(nextApplicationId)
      ensures !old(HasApplied(applications, jobId, userId))
              && !(JobExists(jobs, jobId) && UserExists(users, userId)) ==>
        && r == Failure(HttpError(500, ForeignKeyError(database, !JobExists(jobs, jobId))))
        && applications == old(applications) && nextApplicationId == old(nextApplicationId) + 1
      ensures !old(HasApplied(applications, jobId, userId))
              && JobExists(jobs, jobId) && UserExists(users, userId) ==>
        && applications == old(applications)
             + [Application(old(nextApplicationId), jobId, userId, coverLetter, PendingStatus, now)]
        && nextApplicationId == old(nextApplicationId) + 1
        && r == if mailerConfigured then Failure(HttpError(500, MailerMissingMessage))
                else Success(old(nextApplicationId))
    {
      if HasApplied(applications, jobId, userId) {
        return Failure(HttpError(400, DuplicateApplicationMessage));
      }
      if !(JobExists(jobs, jobId) && UserExists(users, userId)) {
        // InnoDB draws the AUTO_INCREMENT value before checking the keys and does not return it.
        nextApplicationId := nextApplicationId + 1;
        return Failure(HttpError(500, ForeignKeyError(database, !JobExists(jobs, jobId))));
      }
      var id := nextApplicationId;
      var a := Application(id, jobId, userId, coverLetter, PendingStatus, now);
      assert ApplicationId(a) == id;
      IdsAppend(applications, [a], ApplicationId);
      assert Ids(applications + [a], ApplicationId) == Ids(applications, ApplicationId) + [id];
      AutoIncrementAppend(Ids(applications, ApplicationId), id);
      applications := applications + [a];
      nextApplicationId := nextApplicationId + 1;
      if mailerConfigured {
        r := Failure(HttpError(500, MailerMissingMessage));
      } else {
        r := Success(id);
      }
    }

    /**
     * The apply route: `authenticateToken` first; on 401 or 403 the handler is not reached and
     * nothing changes, otherwise Apply runs for the id the token carries.
     */
    method PostApplication(header: Option<string>, signer: TokenSigner, jobId: int,
                           coverLetter: Option<string>, mailerConfigured: bool, now: int)
      returns (r: Result<nat, HttpError>)
      requires Valid()
      modifies this
      ensures Valid()
      ensures users == old(users) && jobs == old(jobs)
      ensures Auth.Authenticate(header, signer).Failure? ==>
        && r == Failure(Auth.Authenticate(header, signer).error)
        && applications == old(applications)
      ensures Auth.Authenticate(header, signer).Success? ==>
        || applications == old(applications)
        || applications == old(applications) + [Application(old(nextApplicationId), jobId,
             Auth.Authenticate(header, signer).value.id, coverLetter, PendingStatus, now)]
    {
      match Auth.Authenticate(header, signer)
      case Failure(e) =>
        r := Failure(e);
      case Success(claims) =>
        r := Apply(claims.id, jobId, coverLetter, mailerConfigured, now);
    }
  }

  /**
   * Two applies for the same job by the same user, one after the other: the second always
   * fails, and at most one row is added.
   */
  method ApplyTwice(portal: JobPortal, userId: int, jobId: int, coverLetter: Option<string>,
                    mailerConfigured: bool, now: int) returns (first: Result<nat, HttpError>, second: Result<nat, HttpError>)
    requires portal.Valid()
    modifies portal
    ensures portal.Valid()
    ensures second.Failure?
    ensures first.Success? ==> second == Failure(HttpError(400, DuplicateApplicationMessage))
    ensures |portal.applications| <= |old(portal.applications)| + 1
  {
    first := portal.Apply(userId, jobId, coverLetter, mailerConfigured, now);
    ghost var after := portal.applications;
    assert after != old(portal.applications) ==> after[|after| - 1].jobId == jobId && after[|after| - 1].userId == userId;
    second := portal.Apply(userId, jobId, coverLetter, mailerConfigured, now);
  }
}
