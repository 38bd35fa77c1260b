/** The processor callback of the queue worker (libs/jobs/src/job.worker.ts). */
module Worker {
  import opened Wrappers
  import opened JobEntity
  import opened Cron
  import opened Jobs
  import opened Scheduler

  /** The table after processing one item, and whether the callback returned or threw. */
  datatype WorkResult = WorkResult(jobs: Table, outcome: Outcome)

  /**
   * The processor callback for an item with payload `payload`.  `failure` is the error the
   * job-specific logic throws, if any (the repository's logic only logs and never throws).
   * On success the job is marked COMPLETED; if the logic or that update throws, the job is
   * marked ERROR with the error's message and the error is thrown again; if that ERROR update
   * throws, its error escapes instead.
   */
  function Processed(jobs: Table, payload: Payload, now: int, failure: Option<string>, p: CronParser): (w: WorkResult)
    ensures payload.jobId in jobs ==> payload.jobId in w.jobs && w.jobs == jobs[payload.jobId := w.jobs[payload.jobId]]
    ensures payload.jobId !in jobs ==> w == WorkResult(jobs, Fail(Message(NotFound)))
    ensures payload.jobId in jobs ==> w.jobs[payload.jobId].id == jobs[payload.jobId].id
    ensures payload.jobId in jobs ==> w.jobs[payload.jobId] == jobs[payload.jobId] || Settles(w.jobs[payload.jobId].status)
    ensures w.outcome.Pass? <==> failure.None? && payload.jobId in jobs && p.accepts(jobs[payload.jobId].cron)
    ensures w.outcome.Pass? ==> w.jobs[payload.jobId].status == Completed
  {
    var id := payload.jobId;
    var completed := if failure.Some? then Failure(failure.value)
      else match SetStatus(jobs, id, Completed, None, now, p)
        case Success(t) => Success(t)
        case Failure(e) => Failure(Message(e));
    if completed.Success? then WorkResult(completed.value, Pass)
    else match SetStatus(jobs, id, Error, Some(completed.error), now, p)
      case Success(t) => WorkResult(t, Fail(completed.error))
      case Failure(e) => WorkResult(jobs, Fail(Message(e)))
  }

  /**
   * For a stored job whose expression parses, processing always settles it: COMPLETED when
   * the logic succeeds, otherwise ERROR with the logic's (non-empty) message, which is then
   * thrown again to the queue.  Either way `lastRun` is `now` and, given the library's
   * behaviour, `nextRun` lies after `now`.
   */
  lemma ProcessedSettles(jobs: Table, payload: Payload, now: int, failure: Option<string>, p: CronParser)
    requires payload.jobId in jobs && p.accepts(jobs[payload.jobId].cron) && NextIsLater(p)
    ensures var w := Processed(jobs, payload, now, failure, p);
      var job := w.jobs[payload.jobId];
      && job.status == (if failure.None? then Completed else Error)
      && job.lastRun == Some(now) && job.nextRun.Some? && job.nextRun.value > now
      && job.cron == jobs[payload.jobId].cron && job.data == jobs[payload.jobId].data
      && (failure.Some? ==> w.outcome == Fail(failure.value))
      && (failure.Some? && failure.value != "" ==> job.error == failure)
      && (failure.None? ==> job.error == jobs[payload.jobId].error)
  {
    var id := payload.jobId;
    if failure.None? {
      assert SetStatus(jobs, id, Completed, None, now, p).Success?;
    } else {
      assert SetStatus(jobs, id, Error, failure, now, p).Success?;
    }
  }

  /** `JobWorker`; the BullMQ `Worker` it creates calls `Process` for each item it takes. */
  class JobWorker {
    const jobsService: JobsService

    constructor (jobsService: JobsService)
      ensures this.jobsService == jobsService
    {
      this.jobsService := jobsService;
    }

    /** The processor callback for `item` at time `now`. */
    method Process(item: QueueItem, now: int, failure: Option<string>) returns (outcome: Outcome)
      requires jobsService.Valid()
      modifies jobsService`jobs
      ensures jobsService.Valid()
      ensures WorkResult(jobsService.jobs, outcome) == Processed(old(jobsService.jobs), item.payload, now, failure, jobsService.parser)
    {
      var jobId := item.payload.jobId;
      var caught: Option<string> := failure;
      if caught.None? {
        var completed := jobsService.UpdateJobStatus(jobId, Completed, None, now);
        if completed.Success? {
          return Pass;
        }
        caught := Some(Message(completed.error));
      }
      var errored := jobsService.UpdateJobStatus(jobId, Error, caught, now);
      if errored.Failure? {
        return Fail(Message(errored.error));
      }
      outcome := Fail(caught.value);
    }
  }
}
