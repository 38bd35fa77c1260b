/** The poller (libs/jobs/src/scheduler.service.ts) and the queue wire contract. */
module Scheduler {
  import opened Wrappers
  import opened JobEntity
  import opened Cron
  import opened Jobs

  /** The data of a queue item: `{ jobId, data }`. */
  datatype Payload = Payload(jobId: JobId, data: Option<Json>)

  /** One `queue.add(name, data)`: the item's name is the job id. */
  datatype QueueItem = QueueItem(name: JobId, payload: Payload)

  /** The item the poller enqueues for a due job. */
  function ItemFor(job: Job): (item: QueueItem)
    ensures item.name == job.id && item.payload.jobId == job.id && item.payload.data == job.data
  {
    QueueItem(job.id, Payload(job.id, job.data))
  }

  /** The table, the queue and whether the poll has thrown so far. */
  datatype PollState = PollState(jobs: Table, queue: seq<QueueItem>, outcome: Outcome)

  /** What a poll that does not throw does to the row of a due job. */
  predicate PolledAs(id: JobId, before: Job, after: Job, now: int, rejected: map<JobId, string>, p: CronParser)
  {
    if id in rejected then
      Updated(before.(status := Running), Error, Some(rejected[id]), now, p) == Success(after)
    else
      after == before.(status := Running)
  }

  /**
   * One iteration of the poll loop for `job`.  `rejected` holds the jobs whose `queue.add` the
   * broker rejects, with the error message.  A failure to mark RUNNING or to enqueue is caught
   * and recorded as ERROR; a failure of that ERROR update escapes and ends the poll.
   */
  function PollOne(jobs: Table, queue: seq<QueueItem>, job: Job, now: int, rejected: map<JobId, string>, p: CronParser): (s: PollState)
    ensures s.queue == queue || s.queue == queue + [ItemFor(job)]
    ensures job.id !in jobs ==> s == PollState(jobs, queue, Fail(Message(NotFound)))
    ensures job.id in jobs ==> job.id in s.jobs && s.jobs == jobs[job.id := s.jobs[job.id]]
    ensures job.id in jobs ==> s.jobs[job.id].id == jobs[job.id].id
    ensures job.id in jobs ==> s.jobs[job.id].status == (if s.outcome.Pass? && job.id in rejected then Error else Running)
    ensures job.id in jobs ==> (s.outcome.Fail? <==> job.id in rejected && !p.accepts(jobs[job.id].cron))
    ensures job.id in jobs && s.outcome.Fail? ==> s.jobs[job.id] == jobs[job.id].(status := Running) && s.queue == queue
    ensures job.id in jobs && s.outcome.Pass? ==> PolledAs(job.id, jobs[job.id], s.jobs[job.id], now, rejected, p)
    ensures job.id in jobs && s.outcome.Pass? ==> s.queue == queue + (if job.id in rejected then [] else [ItemFor(job)])
  {
    var running := SetStatus(jobs, job.id, Running, None, now, p);
    if running.Success? && job.id !in rejected then
      PollState(running.value, queue + [ItemFor(job)], Pass)
    else
      var caught := if running.Failure? then Message(running.error) else rejected[job.id];
      var marked := if running.Success? then running.value else jobs;
      match SetStatus(marked, job.id, Error, Some(caught), now, p)
      case Success(t) => PollState(t, queue, Pass)
      case Failure(e) => PollState(marked, queue, Fail(Message(e)))
  }

  /** The poll loop over `due`, in order, stopping at the first error that escapes. */
  function PollRun(jobs: Table, queue: seq<QueueItem>, due: seq<Job>, now: int, rejected: map<JobId, string>, p: CronParser): PollState
    decreases |due|
  {
    if due == [] then PollState(jobs, queue, Pass)
    else
      var before := PollRun(jobs, queue, due[..|due| - 1], now, rejected, p);
      if before.outcome.Fail? then before
      else PollOne(before.jobs, before.queue, due[|due| - 1], now, rejected, p)
  }

  /** The items a poll that does not throw enqueues: one per due job the broker accepts, in order. */
  function Enqueued(due: seq<Job>, rejected: map<JobId, string>): seq<QueueItem>
    decreases |due|
  {
    if due == [] then []
    else
      var last := due[|due| - 1];
      Enqueued(due[..|due| - 1], rejected) + (if last.id in rejected then [] else [ItemFor(last)])
  }

  /** The abort happens at a due job: once an error escapes, later jobs are not looked at. */
  lemma {:induction false} PollRunStopsAtFailure(jobs: Table, queue: seq<QueueItem>, due: seq<Job>, k: nat, now: int, rejected: map<JobId, string>, p: CronParser)
    requires k <= |due|
    requires PollRun(jobs, queue, due[..k], now, rejected, p).outcome.Fail?
    ensures PollRun(jobs, queue, due, now, rejected, p) == PollRun(jobs, queue, due[..k], now, rejected, p)
    decreases |due|
  {
    if k < |due| {
      assert due[..|due| - 1][..k] == due[..k];
      PollRunStopsAtFailure(jobs, queue, due[..|due| - 1], k, now, rejected, p);
    } else {
      assert due[..k] == due;
    }
  }

  /** The poll over one more due job is one more iteration, unless an error has already escaped. */
  lemma PollRunExtend(jobs: Table, queue: seq<QueueItem>, due: seq<Job>, i: nat, now: int, rejected: map<JobId, string>, p: CronParser)
    requires i < |due|
    ensures var before := PollRun(jobs, queue, due[..i], now, rejected, p);
      PollRun(jobs, queue, due[..i + 1], now, rejected, p) ==
        if before.outcome.Fail? then before else PollOne(before.jobs, before.queue, due[i], now, rejected, p)
  {
    assert due[..i + 1][..i] == due[..i];
  }

  lemma IdsOfSplit(due: seq<Job>)
    requires due != []
    ensures IdsOf(due) == IdsOf(due[..|due| - 1]) + {due[|due| - 1].id}
  {
    assert due == due[..|due| - 1] + [due[|due| - 1]];
    IdsOfAppend(due[..|due| - 1], due[|due| - 1]);
  }

  /**
   * A poll touches only the rows of due jobs and only appends to the queue, and every item it
   * appends is named after one of the due jobs.
   */
  lemma {:induction false} PollRunFrame(jobs: Table, queue: seq<QueueItem>, due: seq<Job>, now: int, rejected: map<JobId, string>, p: CronParser)
    requires forall k :: 0 <= k < |due| ==> due[k].id in jobs
    ensures var s := PollRun(jobs, queue, due, now, rejected, p);
      && s.jobs.Keys == jobs.Keys
      && (forall id :: id in jobs && id !in IdsOf(due) ==> s.jobs[id] == jobs[id])
      && |queue| <= |s.queue| && s.queue[..|queue|] == queue
      && (forall i :: |queue| <= i < |s.queue| ==> s.queue[i].name in IdsOf(due))
    decreases |due|
  {
    if due != [] {
      var init := due[..|due| - 1];
      var last := due[|due| - 1];
      PollRunFrame(jobs, queue, init, now, rejected, p);
      IdsOfSplit(due);
      var before := PollRun(jobs, queue, init, now, rejected, p);
      if before.outcome.Pass? {
        var s := PollOne(before.jobs, before.queue, last, now, rejected, p);
        assert s.queue == before.queue || s.queue == before.queue + [ItemFor(last)];
      }
    }
  }

  /** A poll that does not throw appends exactly the accepted due jobs' items, in listing order. */
  lemma {:induction false} PollRunEnqueuesAccepted(jobs: Table, queue: seq<QueueItem>, due: seq<Job>, now: int, rejected: map<JobId, string>, p: CronParser)
    requires forall k :: 0 <= k < |due| ==> due[k].id in jobs
    requires PollRun(jobs, queue, due, now, rejected, p).outcome.Pass?
    ensures PollRun(jobs, queue, due, now, rejected, p).queue == queue + Enqueued(due, rejected)
    decreases |due|
  {
    if due != [] {
      var init := due[..|due| - 1];
      var last := due[|due| - 1];
      var before := PollRun(jobs, queue, init, now, rejected, p);
      assert before.outcome.Pass?;
      PollRunEnqueuesAccepted(jobs, queue, init, now, rejected, p);
      PollRunFrame(jobs, queue, init, now, rejected, p);
      var s := PollOne(before.jobs, before.queue, last, now, rejected, p);
      var appended := if last.id in rejected then [] else [ItemFor(last)];
      assert s.outcome.Pass? && s.queue == before.queue + appended;
      assert Enqueued(due, rejected) == Enqueued(init, rejected) + appended;
    }
  }

  /**
   * A poll over a well-formed listing that does not throw handles every due job: an accepted
   * job is left RUNNING, a rejected one ERROR with the broker's message.  One job's failure
   * does not stop the others.
   */
  lemma {:induction false} PollRunMarksEveryDueJob(jobs: Table, queue: seq<QueueItem>, due: seq<Job>, now: int, rejected: map<JobId, string>, p: CronParser)
    requires forall k :: 0 <= k < |due| ==> due[k].id in jobs && jobs[due[k].id] == due[k]
    requires DistinctIds(due)
    requires PollRun(jobs, queue, due, now, rejected, p).outcome.Pass?
    ensures var s := PollRun(jobs, queue, due, now, rejected, p);
      forall k :: 0 <= k < |due| ==> due[k].id in s.jobs && PolledAs(due[k].id, due[k], s.jobs[due[k].id], now, rejected, p)
    decreases |due|
  {
    if due != [] {
      var init := due[..|due| - 1];
      var last := due[|due| - 1];
      var before := PollRun(jobs, queue, init, now, rejected, p);
      assert before.outcome.Pass?;
      assert DistinctIds(init);
      PollRunMarksEveryDueJob(jobs, queue, init, now, rejected, p);
      assert last.id in before.jobs && before.jobs[last.id] == last by {
        PollRunFrame(jobs, queue, init, now, rejected, p);
        IdsOfSplit(due);
        assert last.id !in IdsOf(init);
      }
      var s := PollOne(before.jobs, before.queue, last, now, rejected, p);
      assert s.outcome.Pass?;
      assert PolledAs(last.id, last, s.jobs[last.id], now, rejected, p);
      forall k | 0 <= k < |due|
        ensures due[k].id in s.jobs && PolledAs(due[k].id, due[k], s.jobs[due[k].id], now, rejected, p)
      {
        if k < |init| {
          assert due[k] == init[k] && due[k].id != last.id;
          assert s.jobs[due[k].id] == before.jobs[due[k].id];
        } else {
          assert due[k] == last;
        }
      }
    }
  }

  /**
   * A poll that throws was stopped by a broker-rejected due job whose ERROR update failed
   * because its expression does not parse; that job is left RUNNING.
   */
  lemma {:induction false} PollRunFailsOnlyOnUnparsableCron(jobs: Table, queue: seq<QueueItem>, due: seq<Job>, now: int, rejected: map<JobId, string>, p: CronParser)
    requires forall k :: 0 <= k < |due| ==> due[k].id in jobs && jobs[due[k].id] == due[k]
    requires DistinctIds(due)
    requires PollRun(jobs, queue, due, now, rejected, p).outcome.Fail?
    ensures var s := PollRun(jobs, queue, due, now, rejected, p);
      exists k :: 0 <= k < |due| && due[k].id in rejected && !p.accepts(due[k].cron)
        && due[k].id in s.jobs && s.jobs[due[k].id] == due[k].(status := Running)
    decreases |due|
  {
    var init := due[..|due| - 1];
    var last := due[|due| - 1];
    var before := PollRun(jobs, queue, init, now, rejected, p);
    var s := PollRun(jobs, queue, due, now, rejected, p);
    if before.outcome.Fail? {
      PollRunFailsOnlyOnUnparsableCron(jobs, queue, init, now, rejected, p);
      var k :| 0 <= k < |init| && init[k].id in rejected && !p.accepts(init[k].cron)
        && init[k].id in before.jobs && before.jobs[init[k].id] == init[k].(status := Running);
      assert due[k] == init[k];
    } else {
      PollRunFrame(jobs, queue, init, now, rejected, p);
      IdsOfSplit(due);
      assert last.id !in IdsOf(init);
      assert before.jobs[last.id] == last;
      assert due[|due| - 1] == last;
    }
  }

  /** `SchedulerService` with its queue. */
  class SchedulerService {
    const jobsService: JobsService
    var queue: seq<QueueItem>

    constructor (jobsService: JobsService)
      ensures this.jobsService == jobsService && queue == []
    {
      this.jobsService := jobsService;
      queue := [];
    }

    /** The body of the poll loop (the `try`/`catch` around one due job). */
    method PollOneJob(job: Job, now: int, rejected: map<JobId, string>) returns (outcome: Outcome)
      requires jobsService.Valid()
      modifies this`queue, jobsService`jobs
      ensures jobsService.Valid()
      ensures PollState(jobsService.jobs, queue, outcome) == PollOne(old(jobsService.jobs), old(queue), job, now, rejected, jobsService.parser)
    {
      outcome := Pass;
      var marked := jobsService.UpdateJobStatus(job.id, Running, None, now);
      var caught: Option<string> := None;
      if marked.Failure? {
        caught := Some(Message(marked.error));
      } else if job.id in rejected {
        caught := Some(rejected[job.id]);
      } else {
        queue := queue + [ItemFor(job)];
      }
      if caught.Some? {
        var errored := jobsService.UpdateJobStatus(job.id, Error, caught, now);
        if errored.Failure? {
          outcome := Fail(Message(errored.error));
        }
      }
    }

    /**
     * `pollJobs()` at time `now`, with `rejected` the jobs whose enqueue the broker rejects.
     * Returns the due-job listing it walked and whether an error escaped.
     */
    method PollJobs(now: int, rejected: map<JobId, string>) returns (due: seq<Job>, outcome: Outcome)
      requires jobsService.Valid()
      modifies this`queue, jobsService`jobs
      ensures jobsService.Valid()
      ensures DueListing(due, old(jobsService.jobs), now)
      ensures PollState(jobsService.jobs, queue, outcome) == PollRun(old(jobsService.jobs), old(queue), due, now, rejected, jobsService.parser)
    {
      due := jobsService.GetDueJobs(now);
      ghost var table := jobsService.jobs;
      ghost var items := queue;
      outcome := Pass;
      var i := 0;
      while i < |due|
        invariant 0 <= i <= |due|
        invariant jobsService.Valid() && outcome == Pass
        invariant PollState(jobsService.jobs, queue, Pass) == PollRun(table, items, due[..i], now, rejected, jobsService.parser)
      {
        PollRunExtend(table, items, due, i, now, rejected, jobsService.parser);
        outcome := PollOneJob(due[i], now, rejected);
        if outcome.Fail? {
          PollRunStopsAtFailure(table, items, due, i + 1, now, rejected, jobsService.parser);
          return;
        }
        i := i + 1;
      }
      assert due[..i] == due;
    }
  }
}
