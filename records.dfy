/**
 * The rows of the three MySQL tables `users`, `jobs` and `applications`, the shapes the
 * handlers answer with, and the constraints the schema and the handlers keep on the tables.
 */
module Records {
  import opened Wrappers

  /** A row of `users`; `passwordHash` holds the bcrypt hash, never the plaintext. */
  datatype User = User(
    id: nat, name: string, email: string, passwordHash: string, phone: Option<string>, createdAt: int)

  /** The fields a job posting supplies; every column but `salary` is NOT NULL. */
  datatype JobPosting = JobPosting(
    title: string, company: string, location: string, jobType: string,
    salary: Option<string>, description: string, requirements: string)

  /** A row of `jobs`. */
  datatype Job = Job(
    id: nat, title: string, company: string, location: string, jobType: string,
    salary: Option<string>, description: string, requirements: string, createdAt: int)

  /** A row of `applications`; `jobId` and `userId` are foreign keys into `jobs` and `users`. */
  datatype Application = Application(
    id: nat, jobId: int, userId: int, coverLetter: Option<string>, status: string, createdAt: int)

  /** The column default of `applications.status`. */
  const PendingStatus: string := "pending"

  /** An error answer: the HTTP status and the `error` text of the JSON body. */
  datatype HttpError = HttpError(status: nat, message: string)

  /** The identity a JSON Web Token carries: `{ id, email }`. */
  datatype Claims = Claims(id: int, email: string)

  /** The user object the auth handlers answer with: every column but the hash. */
  datatype PublicUser = PublicUser(id: nat, name: string, email: string, phone: Option<string>)

  /** A successful register or login answer: a token and the user. */
  datatype Session = Session(token: string, user: PublicUser)

  function ToPublic(u: User): PublicUser
  {
    PublicUser(u.id, u.name, u.email, u.phone)
  }

  /** The row an INSERT INTO jobs creates from a posting. */
  function NewJob(id: nat, p: JobPosting, now: int): Job
  {
    Job(id, p.title, p.company, p.location, p.jobType, p.salary, p.description, p.requirements, now)
  }

  predicate EmailTaken(users: seq<User>, email: string) {
    exists k | 0 <= k < |users| :: users[k].email == email
  }

  predicate JobExists(jobs: seq<Job>, id: int) {
    exists k | 0 <= k < |jobs| :: jobs[k].id == id
  }

  predicate UserExists(users: seq<User>, id: int) {
    exists k | 0 <= k < |users| :: users[k].id == id
  }

  /** `SELECT * FROM applications WHERE job_id = ? AND user_id = ?` finds a row. */
  predicate HasApplied(apps: seq<Application>, jobId: int, userId: int) {
    exists k | 0 <= k < |apps| :: apps[k].jobId == jobId && apps[k].userId == userId
  }

  /** AUTO_INCREMENT ids: positive, strictly increasing in table order, below the next id. */
  ghost predicate AutoIncrement(ids: seq<nat>, next: nat) {
    && 0 < next
    && (forall i, j :: 0 <= i < j < |ids| ==> ids[i] < ids[j])
    && (forall i :: 0 <= i < |ids| ==> 0 < ids[i] < next)
  }

  /** The id column of a table, in table order. */
  function Ids<T>(rows: seq<T>, id: T -> nat): seq<nat> {
    seq(|rows|, i requires 0 <= i < |rows| => id(rows[i]))
  }

  /** The id column of two tables one after the other is the two id columns concatenated. */
  lemma IdsAppend<T>(a: seq<T>, b: seq<T>, id: T -> nat)
    ensures Ids(a + b, id) == Ids(a, id) + Ids(b, id)
  {
  }

  /** `n` consecutive AUTO_INCREMENT values starting at `first`. */
  function Consecutive(first: nat, n: nat): seq<nat> {
    seq(n, i requires 0 <= i < n => first + i)
  }

  function UserId(u: User): nat { u.id }
  function JobId(j: Job): nat { j.id }
  function ApplicationId(a: Application): nat { a.id }

  /** The UNIQUE constraint on `users.email`. */
  ghost predicate UniqueEmails(users: seq<User>) {
    forall i, j :: 0 <= i < j < |users| ==> users[i].email != users[j].email
  }

  /** At most one application per (job, user) pair. */
  ghost predicate UniquePairs(apps: seq<Application>) {
    forall i, j :: 0 <= i < j < |apps| ==>
      !(apps[i].jobId == apps[j].jobId && apps[i].userId == apps[j].userId)
  }

  /** The two FOREIGN KEY constraints of `applications`. */
  ghost predicate ReferencesExist(apps: seq<Application>, jobs: seq<Job>, users: seq<User>) {
    forall i :: 0 <= i < |apps| ==> JobExists(jobs, apps[i].jobId) && UserExists(users, apps[i].userId)
  }

  /** Every constraint the three tables keep between requests. */
  ghost predicate TablesValid(
    users: seq<User>, jobs: seq<Job>, apps: seq<Application>,
    nextUserId: nat, nextJobId: nat, nextApplicationId: nat)
  {
    && AutoIncrement(Ids(users, UserId), nextUserId)
    && AutoIncrement(Ids(jobs, JobId), nextJobId)
    && AutoIncrement(Ids(apps, ApplicationId), nextApplicationId)
    && UniqueEmails(users)
    && UniquePairs(apps)
    && ReferencesExist(apps, jobs, users)
  }

  /** Drawing `n` values from the counter one after another keeps the ids increasing. */
  lemma AutoIncrementConsecutive(ids: seq<nat>, next: nat, n: nat)
    requires AutoIncrement(ids, next)
    ensures AutoIncrement(ids + Consecutive(next, n), next + n)
  {
  }

  /** Appending a row whose id is the next AUTO_INCREMENT value keeps the ids increasing. */
  lemma AutoIncrementAppend(ids: seq<nat>, next: nat)
    requires AutoIncrement(ids, next)
    ensures AutoIncrement(ids + [next], next + 1)
  {
  }
}
