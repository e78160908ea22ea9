/** The life cycle every queued job goes through, whatever it is for. */
module Jobs {
  datatype JobStatus = Queued | Running | Succeeded | Failed

  /** A job and the work it carries. */
  datatype Job<T> = Job(work: T, status: JobStatus, attempts: nat, maxAttempts: nat)

  const MAX_ATTEMPTS := 2

  /** CreateJob. */
  function CreateJob<T>(work: T, maxAttempts: nat): Job<T> {
    Job(work, Queued, 0, maxAttempts)
  }

  function NewJob<T>(work: T): Job<T> {
    CreateJob(work, MAX_ATTEMPTS)
  }

  predicate Unfinished<T>(j: Job<T>) {
    j.status == Queued || j.status == Running
  }

  /** What ClaimJob may pick. */
  predicate Claimable<T>(j: Job<T>) {
    j.status == Queued && j.attempts < j.maxAttempts
  }

  function Claim<T>(j: Job<T>): Job<T> {
    j.(status := Running, attempts := j.attempts + 1)
  }

  /** The worker's verdict on a handled job: complete, retry, or fail on the last attempt. */
  function Settle<T>(j: Job<T>, ok: bool): Job<T> {
    if ok then j.(status := Succeeded)
    else if j.attempts < j.maxAttempts then j.(status := Queued)
    else j.(status := Failed)
  }

  /** A job whose step record could not be written is closed without its handler. */
  function Drop<T>(j: Job<T>): Job<T> {
    j.(status := Failed)
  }

  /** RecoverJobs at start-up: a running job is queued again and does not lose the attempt. */
  function Recover<T>(j: Job<T>): Job<T> {
    if j.status == Running then j.(status := Queued, attempts := if j.attempts > 0 then j.attempts - 1 else 0) else j
  }

  function RecoverAll<T>(jobs: map<nat, Job<T>>): map<nat, Job<T>> {
    map k | k in jobs :: Recover(jobs[k])
  }
}
