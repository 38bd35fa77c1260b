/** The `jobs` table record (libs/jobs/src/entities/job.entity.ts). */
module JobEntity {
  import opened Wrappers

  /** The generated primary key; only its uniqueness matters to the model. */
  type JobId = nat

  /** The JSON payload of a job, kept as its serialised text: the code never looks inside it. */
  type Json = string

  datatype JobStatus = Pending | Running | Completed | Error

  /** The value of the `status` column when a record is created without one. */
  const DEFAULT_STATUS: JobStatus := Pending

  const JOB_TYPE_MAX_LENGTH := 100
  const CRON_MAX_LENGTH := 255

  /**
   * One row.  Nullable columns are options; times are integers on one clock.
   * `createdAt` and `updatedAt` are kept by the database and are not modelled.
   */
  datatype Job = Job(
    id: JobId,
    jobType: Option<string>,
    cron: string,
    lastRun: Option<int>,
    nextRun: Option<int>,
    status: JobStatus,
    data: Option<Json>,
    error: Option<string>)

  /** The column lengths the table declares for `jobType` and `cron`. */
  predicate FitsColumns(job: Job)
  {
    (job.jobType.Some? ==> |job.jobType.value| <= JOB_TYPE_MAX_LENGTH) && |job.cron| <= CRON_MAX_LENGTH
  }

  /**
   * The database stores the row: `jobType` is declared without `nullable` and without a
   * default, so it must be present, and both declared lengths hold.
   */
  predicate Storable(job: Job)
  {
    job.jobType.Some? && FitsColumns(job)
  }

  /** The columns a caller of `repository.create` may give; an absent one takes its default. */
  datatype Draft = Draft(
    cron: string,
    nextRun: Option<int>,
    status: Option<JobStatus>,
    data: Option<Json>)

  /** The row that `repository.create` followed by `save` stores for a draft under key `id`. */
  function Materialize(id: JobId, d: Draft): (job: Job)
    ensures job.id == id && job.cron == d.cron && job.nextRun == d.nextRun && job.data == d.data
    ensures d.status.None? ==> job.status == Pending
    ensures d.status.Some? ==> job.status == d.status.value
    ensures job.jobType.None? && job.lastRun.None? && job.error.None?
  {
    Job(id, None, d.cron, None, d.nextRun,
        match d.status case Some(s) => s case None => DEFAULT_STATUS,
        d.data, None)
  }
}
