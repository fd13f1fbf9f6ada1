/**
 * The read-only handlers: one job by id, the job list, the application listings (joined and
 * newest first) and the dashboard counts. Each is a function of the tables it SELECTs from.
 */
module Queries {
  import opened Wrappers
  import opened Records
  import opened Crypto
  import opened Sequences
  import opened Ordering
  import Auth

  const JobNotFoundMessage: string := "Job not found"

  /** The trailing window of the `recentApplications` count: 7 days, in seconds. */
  const RecentWindow: int := 7 * 24 * 60 * 60

  /** `SELECT * FROM jobs WHERE id = ?`, first row. */
  function FindJob(jobs: seq<Job>, id: int): (r: Option<Job>)
    ensures r.Some? <==> JobExists(jobs, id)
    ensures r.Some? ==> r.value in jobs && r.value.id == id
    decreases |jobs|
  {
    if jobs == [] then None
    else if jobs[0].id == id then Some(jobs[0])
    else
      assert JobExists(jobs, id) ==> JobExists(jobs[1..], id) by {
        if JobExists(jobs, id) {
          var k :| 0 <= k < |jobs| && jobs[k].id == id;
          assert jobs[1..][k - 1] == jobs[k];
        }
      }
      FindJob(jobs[1..], id)
  }

  /** `SELECT * FROM users WHERE id = ?`, first row. */
  function FindUser(users: seq<User>, id: int): (r: Option<User>)
    ensures r.Some? <==> UserExists(users, id)
    ensures r.Some? ==> r.value in users && r.value.id == id
    decreases |users|
  {
    if users == [] then None
    else if users[0].id == id then Some(users[0])
    else
      assert UserExists(users, id) ==> UserExists(users[1..], id) by {
        if UserExists(users, id) {
          var k :| 0 <= k < |users| && users[k].id == id;
          assert users[1..][k - 1] == users[k];
        }
      }
      FindUser(users[1..], id)
  }

  /** With AUTO_INCREMENT ids, the job found for an id is the one row with that id. */
  lemma FindJobUnique(jobs: seq<Job>, next: nat, k: nat)
    requires AutoIncrement(Ids(jobs, JobId), next) && k < |jobs|
    ensures FindJob(jobs, jobs[k].id) == Some(jobs[k])
  {
    var r := FindJob(jobs, jobs[k].id);
    var j :| 0 <= j < |jobs| && jobs[j] == r.value;
    var ids := Ids(jobs, JobId);
    assert ids[j] == JobId(jobs[j]) && ids[k] == JobId(jobs[k]);
    assert ids[j] == ids[k];
  }

  /** `GET /api/jobs/:id`: the row with that id, or 404 "Job not found". */
  function GetJob(jobs: seq<Job>, id: int): (r: Result<Job, HttpError>)
    ensures r.Success? <==> JobExists(jobs, id)
    ensures r.Success? ==> r.value in jobs && r.value.id == id
    ensures r.Failure? ==> r.error == HttpError(404, JobNotFoundMessage)
  {
    match FindJob(jobs, id)
    case None => Failure(HttpError(404, JobNotFoundMessage))
    case Some(job) => Success(job)
  }

  /** A job just inserted with the next AUTO_INCREMENT id is what `GET /api/jobs/:id` answers for that id. */
  lemma CreatedJobIsFound(jobs: seq<Job>, next: nat, posting: JobPosting, now: int)
    requires AutoIncrement(Ids(jobs, JobId), next)
    ensures GetJob(jobs + [NewJob(next, posting, now)], next) == Success(NewJob(next, posting, now))
  {
    var after := jobs + [NewJob(next, posting, now)];
    IdsAppend(jobs, [NewJob(next, posting, now)], JobId);
    assert Ids(after, JobId) == Ids(jobs, JobId) + [next];
    AutoIncrementAppend(Ids(jobs, JobId), next);
    FindJobUnique(after, next + 1, |jobs|);
  }

  function JobCreatedAt(j: Job): int { j.createdAt }

  function ApplicationCreatedAt(a: Application): int { a.createdAt }

  /** `GET /api/jobs`: every job, newest first. */
  function ListJobs(jobs: seq<Job>): (r: seq<Job>)
    ensures NewestFirst(r, JobCreatedAt)
    ensures multiset(r) == multiset(jobs)
  {
    SortNewestFirst(jobs, JobCreatedAt)
  }

  /** A row of `GET /api/applications`: `a.*` with the job's title and company and the applicant. */
  datatype ApplicantRow = ApplicantRow(
    application: Application, jobTitle: string, company: string,
    name: string, email: string, phone: Option<string>)

  /** A row of `GET /api/user/applications`: `a.*` with the job's title, company, location and type. */
  datatype UserApplicationRow = UserApplicationRow(
    application: Application, jobTitle: string, company: string, location: string, jobType: string)

  /** The row holds the job and user columns of the first rows its ids find. */
  predicate ApplicantRowJoined(row: ApplicantRow, jobs: seq<Job>, users: seq<User>) {
    var j := FindJob(jobs, row.application.jobId);
    var u := FindUser(users, row.application.userId);
    && j.Some? && u.Some?
    && row == ApplicantRow(row.application, j.value.title, j.value.company, u.value.name, u.value.email, u.value.phone)
  }

  predicate UserRowJoined(row: UserApplicationRow, jobs: seq<Job>) {
    var j := FindJob(jobs, row.application.jobId);
    && j.Some?
    && row == UserApplicationRow(row.application, j.value.title, j.value.company, j.value.location, j.value.jobType)
  }

  /**
   * `JOIN jobs j ON a.job_id = j.id JOIN users u ON a.user_id = u.id`, in the order of `apps`;
   * an application whose job or user is missing yields no row.
   */
  function JoinApplicants(apps: seq<Application>, jobs: seq<Job>, users: seq<User>): (r: seq<ApplicantRow>)
    ensures |r| <= |apps|
    ensures forall row :: row in r ==> ApplicantRowJoined(row, jobs, users) && row.application in apps
    ensures (forall a :: a in apps ==> JobExists(jobs, a.jobId) && UserExists(users, a.userId)) ==>
      ApplicantRowApplications(r) == apps
    decreases |apps|
  {
    if apps == [] then []
    else
      var a := apps[0];
      assert forall x :: x in apps[1..] ==> x in apps;
      var rest := JoinApplicants(apps[1..], jobs, users);
      var j := FindJob(jobs, a.jobId);
      var u := FindUser(users, a.userId);
      assert apps == [a] + apps[1..];
      if j.Some? && u.Some? then
        var r := [ApplicantRow(a, j.value.title, j.value.company, u.value.name, u.value.email, u.value.phone)] + rest;
        assert r[1..] == rest;
        r
      else rest
  }

  /** `JOIN jobs j ON a.job_id = j.id`, in the order of `apps`; an application whose job is missing yields no row. */
  function JoinJobs(apps: seq<Application>, jobs: seq<Job>): (r: seq<UserApplicationRow>)
    ensures |r| <= |apps|
    ensures forall row :: row in r ==> UserRowJoined(row, jobs) && row.application in apps
    ensures (forall a :: a in apps ==> JobExists(jobs, a.jobId)) ==>
      UserRowApplications(r) == apps
    decreases |apps|
  {
    if apps == [] then []
    else
      var a := apps[0];
      assert forall x :: x in apps[1..] ==> x in apps;
      var rest := JoinJobs(apps[1..], jobs);
      var j := FindJob(jobs, a.jobId);
      assert apps == [a] + apps[1..];
      if j.Some? then
        var r := [UserApplicationRow(a, j.value.title, j.value.company, j.value.location, j.value.jobType)] + rest;
        assert r[1..] == rest;
        r
      else rest
  }

  /** The application column of a listing. */
  function ApplicantRowApplications(rows: seq<ApplicantRow>): (r: seq<Application>)
    decreases |rows|
  {
    if rows == [] then [] else [rows[0].application] + ApplicantRowApplications(rows[1..])
  }

  function UserRowApplications(rows: seq<UserApplicationRow>): (r: seq<Application>)
    decreases |rows|
  {
    if rows == [] then [] else [rows[0].application] + UserRowApplications(rows[1..])
  }

  /** The join yields at most one row per application it is given. */
  lemma {:induction false} JoinApplicantsAtMostOnce(apps: seq<Application>, jobs: seq<Job>, users: seq<User>)
    ensures multiset(ApplicantRowApplications(JoinApplicants(apps, jobs, users))) <= multiset(apps)
    decreases |apps|
  {
    if apps != [] {
      var a := apps[0];
      var rest := JoinApplicants(apps[1..], jobs, users);
      JoinApplicantsAtMostOnce(apps[1..], jobs, users);
      assert apps == [a] + apps[1..];
      var r := JoinApplicants(apps, jobs, users);
      if r != rest {
        assert r[1..] == rest;
        assert ApplicantRowApplications(r) == [r[0].application] + ApplicantRowApplications(rest);
        assert r[0].application == a;
      }
    }
  }

  /** `GET /api/applications`: every application joined to its job and applicant, newest first. */
  function ListApplications(apps: seq<Application>, jobs: seq<Job>, users: seq<User>): (r: seq<ApplicantRow>)
    ensures |r| <= |apps|
    ensures multiset(ApplicantRowApplications(r)) <= multiset(apps)
    ensures forall row :: row in r ==> ApplicantRowJoined(row, jobs, users) && row.application in apps
  {
    var sorted := SortNewestFirst(apps, ApplicationCreatedAt);
    JoinApplicantsAtMostOnce(sorted, jobs, users);
    assert |sorted| == |multiset(sorted)| == |apps|;
    assert forall a :: a in sorted ==> a in apps by {
      forall a | a in sorted ensures a in apps {
        SortKeepsMembers(apps, ApplicationCreatedAt, a);
      }
    }
    JoinApplicants(sorted, jobs, users)
  }

  /**
   * Under the foreign keys no row is dropped: the listing holds every application exactly
   * once, newest first, each with the title and company of its job and the applicant's contact.
   */
  lemma {:induction false} ListApplicationsExact(apps: seq<Application>, jobs: seq<Job>, users: seq<User>)
    requires ReferencesExist(apps, jobs, users)
    ensures var r := ListApplications(apps, jobs, users);
      && multiset(ApplicantRowApplications(r)) == multiset(apps)
      && NewestFirst(ApplicantRowApplications(r), ApplicationCreatedAt)
      && forall i :: 0 <= i < |r| ==> ApplicantRowJoined(r[i], jobs, users)
  {
    var sorted := SortNewestFirst(apps, ApplicationCreatedAt);
    forall a | a in sorted ensures JobExists(jobs, a.jobId) && UserExists(users, a.userId) {
      SortKeepsMembers(apps, ApplicationCreatedAt, a);
      var k :| 0 <= k < |apps| && apps[k] == a;
    }
    var r := JoinApplicants(sorted, jobs, users);
    assert ApplicantRowApplications(r) == sorted;
  }

  /** The predicate of `WHERE a.user_id = ?`. */
  function OwnedBy(userId: int): Application -> bool {
    (a: Application) => a.userId == userId
  }

  /** The user's applications joined to their jobs, newest first. */
  function UserApplications(apps: seq<Application>, jobs: seq<Job>, userId: int): (r: seq<UserApplicationRow>)
    ensures forall i :: 0 <= i < |r| ==> r[i].application.userId == userId && r[i].application in apps
  {
    var owned := Filter(apps, OwnedBy(userId));
    var sorted := SortNewestFirst(owned, ApplicationCreatedAt);
    assert forall x :: x in sorted ==> x in owned by {
      forall x | x in sorted ensures x in owned {
        SortKeepsMembers(owned, ApplicationCreatedAt, x);
      }
    }
    JoinJobs(sorted, jobs)
  }

  /**
   * Under the foreign key on `job_id`, the listing holds exactly the applications whose
   * `user_id` is the given id, each once, newest first, with its job's columns.
   */
  lemma {:induction false} UserApplicationsExact(apps: seq<Application>, jobs: seq<Job>, users: seq<User>, userId: int)
    requires ReferencesExist(apps, jobs, users)
    ensures var r := UserApplications(apps, jobs, userId);
      && multiset(UserRowApplications(r)) == multiset(Filter(apps, OwnedBy(userId)))
      && NewestFirst(UserRowApplications(r), ApplicationCreatedAt)
      && (forall i :: 0 <= i < |r| ==> UserRowJoined(r[i], jobs))
      && (forall a :: a in apps && a.userId == userId ==> a in UserRowApplications(r))
  {
    var owned := Filter(apps, OwnedBy(userId));
    var sorted := SortNewestFirst(owned, ApplicationCreatedAt);
    forall a | a in sorted ensures JobExists(jobs, a.jobId) {
      SortKeepsMembers(owned, ApplicationCreatedAt, a);
      var k :| 0 <= k < |apps| && apps[k] == a;
    }
    var r := JoinJobs(sorted, jobs);
    assert UserRowApplications(r) == sorted;
    forall a | a in apps && a.userId == userId ensures a in sorted {
      assert OwnedBy(userId)(a);
      SortKeepsMembers(owned, ApplicationCreatedAt, a);
    }
  }

  /**
   * `GET /api/user/applications` behind `authenticateToken`: 401 or 403 without reaching
   * the handler, otherwise the listing for the id the token carries.
   */
  function GetUserApplications(header: Option<string>, signer: TokenSigner,
                               apps: seq<Application>, jobs: seq<Job>): (r: Result<seq<UserApplicationRow>, HttpError>)
    ensures r.Failure? <==> Auth.Authenticate(header, signer).Failure?
    ensures r.Failure? ==> r.error.status == 401 || r.error.status == 403
    ensures r.Success? ==> forall i :: 0 <= i < |r.value| ==>
      r.value[i].application.userId == Auth.Authenticate(header, signer).value.id
  {
    match Auth.Authenticate(header, signer)
    case Failure(e) => Failure(e)
    case Success(claims) => Success(UserApplications(apps, jobs, claims.id))
  }

  /** The answer of `GET /api/stats`. */
  datatype Stats = Stats(totalJobs: nat, totalApplications: nat, totalUsers: nat, recentApplications: nat)

  /** `created_at >= DATE_SUB(NOW(), INTERVAL 7 DAY)`. */
  function RecentAt(now: int): Application -> bool {
    (a: Application) => a.createdAt >= now - RecentWindow
  }

  /** `SELECT COUNT(*) FROM applications WHERE created_at >= ?`. */
  function CountSince(apps: seq<Application>, cutoff: int): (n: nat)
    ensures n <= |apps|
    decreases |apps|
  {
    if apps == [] then 0
    else (if apps[0].createdAt >= cutoff then 1 else 0) + CountSince(apps[1..], cutoff)
  }

  /** The count is the number of rows the window's filter keeps. */
  lemma {:induction false} CountSinceIsFilterSize(apps: seq<Application>, now: int)
    ensures CountSince(apps, now - RecentWindow) == |Filter(apps, RecentAt(now))|
    decreases |apps|
  {
    if apps != [] {
      CountSinceIsFilterSize(apps[1..], now);
    }
  }

  /** `GET /api/stats`: the three table sizes and the applications of the last 7 days. */
  function GetStats(jobs: seq<Job>, users: seq<User>, apps: seq<Application>, now: int): (r: Stats)
    ensures r.recentApplications <= r.totalApplications
    ensures r.recentApplications == |Filter(apps, RecentAt(now))|
  {
    CountSinceIsFilterSize(apps, now);
    Stats(|jobs|, |apps|, |users|, CountSince(apps, now - RecentWindow))
  }

  /**
   * An application stored at the moment of the stats call adds one to the application total and
   * one to the recent count, and leaves the job and user totals as they were.
   */
  lemma {:induction false} StatsAfterApply(jobs: seq<Job>, users: seq<User>, apps: seq<Application>,
                                           a: Application, now: int)
    requires a.createdAt == now
    ensures var before := GetStats(jobs, users, apps, now);
      GetStats(jobs, users, apps + [a], now)
        == before.(totalApplications := before.totalApplications + 1,
                   recentApplications := before.recentApplications + 1)
  {
    FilterAppend(apps, [a], RecentAt(now));
    assert Filter([a], RecentAt(now)) == [a];
  }

  /** The dashboard totals are the sizes of the three tables. */
  lemma StatsTotalsAreTableSizes(jobs: seq<Job>, users: seq<User>, apps: seq<Application>, now: int)
    ensures var s := GetStats(jobs, users, apps, now);
      s.totalJobs == |jobs| && s.totalApplications == |apps| && s.totalUsers == |users|
  {
  }
}
