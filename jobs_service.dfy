/** The job lifecycle service (libs/jobs/src/jobs.service.ts) over an in-memory table. */
module Jobs {
  import opened Wrappers
  import opened JobEntity
  import opened Cron

  /** The errors the service's operations throw. */
  datatype JobsError =
    | NotFound                        // `new Error("Job not found")`
    | InvalidCron(message: string)    // what `CronExpressionParser.parse` throws

  /** The `message` of a thrown error, as the scheduler and the worker read it. */
  function Message(e: JobsError): string
  {
    match e
    case NotFound => "Job not found"
    case InvalidCron(m) => m
  }

  type Table = map<JobId, Job>

  /** Every row is stored under its own id, and the id generator is past every id in use. */
  predicate WellKeyed(jobs: Table, nextId: nat)
  {
    forall id :: id in jobs ==> jobs[id].id == id && id < nextId
  }

  /** The statuses that stamp `lastRun` and reschedule `nextRun`. */
  predicate Settles(status: JobStatus)
  {
    status == Completed || status == Error
  }

  /** The statuses the due-job query admits. */
  predicate Dispatchable(status: JobStatus)
  {
    status == Pending || status == Error
  }

  /** A job is due at `now` when its next run has a time not after `now` and its status admits it. */
  predicate IsDue(job: Job, now: int)
  {
    job.nextRun.Some? && job.nextRun.value <= now && Dispatchable(job.status)
  }

  function DueIds(jobs: Table, now: int): set<JobId>
  {
    set id | id in jobs && IsDue(jobs[id], now)
  }

  function IdsOf(due: seq<Job>): set<JobId>
  {
    set k | 0 <= k < |due| :: due[k].id
  }

  lemma IdsOfAppend(due: seq<Job>, job: Job)
    ensures IdsOf(due + [job]) == IdsOf(due) + {job.id}
  {
    var extended := due + [job];
    assert extended[|due|] == job;
    forall id | id in IdsOf(due) ensures id in IdsOf(extended) {
      var k :| 0 <= k < |due| && due[k].id == id;
      assert extended[k] == due[k];
    }
  }

  predicate DistinctIds(due: seq<Job>)
  {
    forall i, j :: 0 <= i < j < |due| ==> due[i].id != due[j].id
  }

  /**
   * `due` is an answer of the due-job query on `jobs` at `now`: the stored rows that are due,
   * each once, in an order the database chooses.
   */
  predicate DueListing(due: seq<Job>, jobs: Table, now: int)
  {
    && (forall k :: 0 <= k < |due| ==> due[k].id in jobs && jobs[due[k].id] == due[k])
    && DistinctIds(due)
    && IdsOf(due) == DueIds(jobs, now)
  }

  /** `createJob`: the row a new job gets when its expression parses. */
  function Created(cron: string, data: Option<Json>, id: JobId, now: int, p: CronParser): (r: Result<Job, JobsError>)
    ensures r.Failure? <==> !p.accepts(cron)
    ensures r.Failure? ==> r.error == InvalidCron(p.failure(cron))
    ensures r.Success? ==> r.value.id == id && r.value.cron == cron && r.value.data == data
    ensures r.Success? ==> r.value.status == Pending && r.value.nextRun == Some(p.next(cron, now))
    ensures r.Success? ==> r.value.lastRun.None? && r.value.error.None? && r.value.jobType.None?
  {
    if !p.accepts(cron) then Failure(InvalidCron(p.failure(cron)))
    else Success(Materialize(id, Draft(cron, Some(p.next(cron, now)), Some(Pending), data)))
  }

  /**
   * `updateJobStatus` on one loaded row: the status is always replaced; the error only by a
   * non-empty message; a settling status stamps `lastRun` and reparses the expression for the
   * next run, and a parse failure throws before the row is saved.
   */
  function Updated(job: Job, status: JobStatus, error: Option<string>, now: int, p: CronParser): (r: Result<Job, JobsError>)
    ensures r.Failure? <==> Settles(status) && !p.accepts(job.cron)
    ensures r.Failure? ==> r.error == InvalidCron(p.failure(job.cron))
    ensures r.Success? ==> r.value.id == job.id && r.value.jobType == job.jobType
    ensures r.Success? ==> r.value.cron == job.cron && r.value.data == job.data
    ensures r.Success? ==> r.value.status == status
    ensures r.Success? ==> r.value.error == (if error.Some? && error.value != "" then error else job.error)
    ensures r.Success? && Settles(status) ==> r.value.lastRun == Some(now) && r.value.nextRun == Some(p.next(job.cron, now))
    ensures r.Success? && !Settles(status) ==> r.value.lastRun == job.lastRun && r.value.nextRun == job.nextRun
  {
    var withStatus := job.(status := status);
    var withError := if error.Some? && error.value != "" then withStatus.(error := error) else withStatus;
    if !Settles(status) then Success(withError)
    else if !p.accepts(job.cron) then Failure(InvalidCron(p.failure(job.cron)))
    else Success(withError.(lastRun := Some(now), nextRun := Some(p.next(job.cron, now))))
  }

  /** `updateJobStatus` on the table: look the row up, update it, save it. */
  function SetStatus(jobs: Table, id: JobId, status: JobStatus, error: Option<string>, now: int, p: CronParser): (r: Result<Table, JobsError>)
    ensures id !in jobs ==> r == Failure(NotFound)
    ensures id in jobs ==> (r.Failure? <==> Updated(jobs[id], status, error, now, p).Failure?)
    ensures r.Success? ==> id in jobs && r.value.Keys == jobs.Keys
    ensures r.Success? ==> r.value[id] == Updated(jobs[id], status, error, now, p).value
    ensures r.Success? ==> forall other :: other in jobs && other != id ==> r.value[other] == jobs[other]
  {
    if id !in jobs then Failure(NotFound)
    else match Updated(jobs[id], status, error, now, p)
      case Success(job) => Success(jobs[id := job])
      case Failure(e) => Failure(e)
  }

  /** A settled row is not due again at the time it settled, only once its new `nextRun` comes. */
  lemma SettledWaitsForNextRun(job: Job, status: JobStatus, error: Option<string>, now: int, later: int, p: CronParser)
    requires NextIsLater(p) && Settles(status)
    requires Updated(job, status, error, now, p).Success?
    ensures var j := Updated(job, status, error, now, p).value;
      !IsDue(j, now) && j.nextRun.value > now && (IsDue(j, later) <==> status == Error && later >= j.nextRun.value)
  {
  }

  /**
   * The row `createJob` builds never sets `jobType`, so the database refuses to save it; given a
   * job type, the same row would be stored exactly when both column lengths hold.
   */
  lemma CreatedRowIsNotStorable(cron: string, data: Option<Json>, id: JobId, now: int, p: CronParser, jobType: string)
    requires p.accepts(cron)
    ensures var job := Created(cron, data, id, now, p).value;
      && !Storable(job)
      && (Storable(job.(jobType := Some(jobType))) <==> |jobType| <= JOB_TYPE_MAX_LENGTH && |cron| <= CRON_MAX_LENGTH)
  {
  }

  /** A new job is not due when created and becomes due exactly when its first occurrence comes. */
  lemma CreatedBecomesDue(cron: string, data: Option<Json>, id: JobId, now: int, later: int, p: CronParser)
    requires NextIsLater(p) && p.accepts(cron)
    ensures var j := Created(cron, data, id, now, p).value;
      !IsDue(j, now) && (IsDue(j, later) <==> later >= p.next(cron, now))
  {
  }

  /** The due-job query never yields a RUNNING or COMPLETED job, and leaves out every unscheduled one. */
  lemma DueListingAdmitsOnlyPendingOrError(due: seq<Job>, jobs: Table, now: int, k: nat)
    requires DueListing(due, jobs, now) && k < |due|
    ensures due[k].status == Pending || due[k].status == Error
    ensures due[k].nextRun.Some? && due[k].nextRun.value <= now
  {
    assert due[k].id in IdsOf(due);
  }

  /** Two answers of the due-job query on the same table agree up to order. */
  lemma DueListingsAgree(a: seq<Job>, b: seq<Job>, jobs: Table, now: int)
    requires DueListing(a, jobs, now) && DueListing(b, jobs, now)
    ensures |a| == |b|
    ensures forall x :: x in a <==> x in b
  {
    forall x | x in a ensures x in b {
      var i :| 0 <= i < |a| && a[i] == x;
      assert x.id in IdsOf(a);
      var j :| 0 <= j < |b| && b[j].id == x.id;
    }
    forall x | x in b ensures x in a {
      var j :| 0 <= j < |b| && b[j] == x;
      assert x.id in IdsOf(b);
      var i :| 0 <= i < |a| && a[i].id == x.id;
    }
    DistinctCardinality(a);
    DistinctCardinality(b);
  }

  lemma {:induction false} DistinctCardinality(due: seq<Job>)
    requires DistinctIds(due)
    ensures |IdsOf(due)| == |due|
  {
    if due != [] {
      var init := due[..|due| - 1];
      assert DistinctIds(init);
      DistinctCardinality(init);
      assert IdsOf(due) == IdsOf(init) + {due[|due| - 1].id};
      assert due[|due| - 1].id !in IdsOf(init);
    }
  }

  /**
   * The job table of `JobsService`.  `nextId` stands for the database's key generator: every
   * new row gets a key that no stored row has.
   */
  class JobsService {
    const parser: CronParser
    var jobs: Table
    var nextId: nat

    ghost predicate Valid()
      reads this
    {
      WellKeyed(jobs, nextId)
    }

    constructor (parser: CronParser)
      ensures Valid() && this.parser == parser && jobs == map[] && nextId == 0
    {
      this.parser := parser;
      jobs := map[];
      nextId := 0;
    }

    /** `createJob(cron, data)` at time `now`. */
    method CreateJob(cron: string, data: Option<Json>, now: int) returns (r: Result<Job, JobsError>)
      requires Valid()
      modifies this`jobs, this`nextId
      ensures Valid()
      ensures r == Created(cron, data, old(nextId), now, parser)
      ensures r.Failure? ==> jobs == old(jobs) && nextId == old(nextId)
      ensures r.Success? ==> r.value.id !in old(jobs) && jobs == old(jobs)[r.value.id := r.value]
      ensures r.Success? ==> nextId == old(nextId) + 1
    {
      if !parser.accepts(cron) {
        return Failure(InvalidCron(parser.failure(cron)));
      }
      var job := Materialize(nextId, Draft(cron, Some(parser.next(cron, now)), Some(Pending), data));
      jobs := jobs[job.id := job];
      nextId := nextId + 1;
      r := Success(job);
    }

    /** `updateJobStatus(jobId, status, error)` at time `now`. */
    method UpdateJobStatus(jobId: JobId, status: JobStatus, error: Option<string>, now: int) returns (r: Result<Job, JobsError>)
      requires Valid()
      modifies this`jobs
      ensures Valid()
      ensures SetStatus(old(jobs), jobId, status, error, now, parser).Success? <==> r.Success?
      ensures r.Failure? ==> jobs == old(jobs) && r.error == SetStatus(old(jobs), jobId, status, error, now, parser).error
      ensures r.Success? ==> jobs == SetStatus(old(jobs), jobId, status, error, now, parser).value && r.value == jobs[jobId]
    {
      if jobId !in jobs {
        return Failure(NotFound);
      }
      var job := jobs[jobId];
      job := job.(status := status);
      if error.Some? && error.value != "" {
        job := job.(error := error);
      }
      if status == Completed || status == Error {
        job := job.(lastRun := Some(now));
        if !parser.accepts(job.cron) {
          return Failure(InvalidCron(parser.failure(job.cron)));
        }
        job := job.(nextRun := Some(parser.next(job.cron, now)));
      }
      jobs := jobs[jobId := job];
      r := Success(job);
    }

    /** `getDueJobs()` at time `now`: reads the table and changes nothing. */
    method GetDueJobs(now: int) returns (due: seq<Job>)
      requires Valid()
      ensures DueListing(due, jobs, now)
    {
      due := [];
      var rest := jobs.Keys;
      while rest != {}
        invariant rest <= jobs.Keys
        invariant forall k :: 0 <= k < |due| ==> due[k].id in jobs && jobs[due[k].id] == due[k] && due[k].id !in rest
        invariant DistinctIds(due)
        invariant IdsOf(due) == DueIds(jobs, now) - rest
        decreases rest
      {
        var id :| id in rest;
        if IsDue(jobs[id], now) {
          assert jobs[id].id == id;
          IdsOfAppend(due, jobs[id]);
          due := due + [jobs[id]];
        }
        rest := rest - {id};
      }
    }
  }
}
