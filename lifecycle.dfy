/**
 * The job subsystem as one state machine: the table, the key generator and the queue, moved
 * by `createJob`, by one `pollJobs` and by the worker processing one queued item.  The
 * processed item leaves the queue whatever the outcome: no retry is configured for the
 * queue, so BullMQ makes a single attempt.
 */
module Lifecycle {
  import opened Wrappers
  import opened JobEntity
  import opened Cron
  import opened Jobs
  import opened Scheduler
  import opened Worker

  datatype System = System(jobs: Table, nextId: nat, queue: seq<QueueItem>)

  datatype Event =
    | CreateEvent(cron: string, data: Option<Json>, now: int)
    | PollEvent(now: int, due: seq<Job>, rejected: map<JobId, string>)
    | WorkEvent(index: nat, now: int, failure: Option<string>)

  const INIT := System(map[], 0, [])

  /** A poll walks an answer of the due-job query; the worker takes an item that is queued. */
  predicate Enabled(s: System, e: Event)
  {
    match e
    case CreateEvent(_, _, _) => true
    case PollEvent(now, due, _) => DueListing(due, s.jobs, now)
    case WorkEvent(i, _, _) => i < |s.queue|
  }

  function Remove(queue: seq<QueueItem>, i: nat): seq<QueueItem>
    requires i < |queue|
  {
    queue[..i] + queue[i + 1..]
  }

  function Step(s: System, e: Event, p: CronParser): System
    requires Enabled(s, e)
  {
    match e
    case CreateEvent(cron, data, now) =>
      (match Created(cron, data, s.nextId, now, p)
       case Success(job) => System(s.jobs[job.id := job], s.nextId + 1, s.queue)
       case Failure(_) => s)
    case PollEvent(now, due, rejected) =>
      var r := PollRun(s.jobs, s.queue, due, now, rejected, p);
      System(r.jobs, s.nextId, r.queue)
    case WorkEvent(i, now, failure) =>
      var w := Processed(s.jobs, s.queue[i].payload, now, failure, p);
      System(w.jobs, s.nextId, Remove(s.queue, i))
  }

  /** The state after a sequence of events, or `None` if some event was not enabled. */
  function Run(s: System, events: seq<Event>, p: CronParser): Option<System>
    decreases |events|
  {
    if events == [] then Some(s)
    else if !Enabled(s, events[0]) then None
    else Run(Step(s, events[0], p), events[1..], p)
  }

  /** Every queued item is for a stored RUNNING job, carries that job's id, and no job is queued twice. */
  predicate QueueConsistent(jobs: Table, queue: seq<QueueItem>)
  {
    && (forall i :: 0 <= i < |queue| ==>
          queue[i].payload.jobId == queue[i].name && queue[i].name in jobs && jobs[queue[i].name].status == Running)
    && (forall i, j :: 0 <= i < j < |queue| ==> queue[i].name != queue[j].name)
  }

  predicate Inv(s: System)
  {
    WellKeyed(s.jobs, s.nextId) && QueueConsistent(s.jobs, s.queue)
  }

  /**
   * The status changes one event can make to one job: PENDING or ERROR to RUNNING or ERROR
   * (a poll), RUNNING to COMPLETED or ERROR (the worker).  Nothing leaves COMPLETED and nothing
   * returns to PENDING.
   */
  predicate Transition(a: JobStatus, b: JobStatus)
  {
    a == b || (Dispatchable(a) && (b == Running || b == Error)) || (a == Running && Settles(b))
  }

  lemma PollOneKeepsInv(jobs: Table, nextId: nat, queue: seq<QueueItem>, job: Job, now: int, rejected: map<JobId, string>, p: CronParser)
    requires WellKeyed(jobs, nextId) && QueueConsistent(jobs, queue)
    requires job.id in jobs && Dispatchable(jobs[job.id].status)
    ensures var s := PollOne(jobs, queue, job, now, rejected, p);
      WellKeyed(s.jobs, nextId) && QueueConsistent(s.jobs, s.queue)
      && Transition(jobs[job.id].status, s.jobs[job.id].status)
  {
    var s := PollOne(jobs, queue, job, now, rejected, p);
    assert forall i :: 0 <= i < |queue| ==> queue[i].name != job.id;
    if s.queue != queue {
      assert s.queue == queue + [ItemFor(job)];
      assert s.outcome.Pass? && job.id !in rejected;
    }
  }

  lemma {:induction false} PollRunKeepsInv(jobs: Table, nextId: nat, queue: seq<QueueItem>, due: seq<Job>, now: int, rejected: map<JobId, string>, p: CronParser)
    requires WellKeyed(jobs, nextId) && QueueConsistent(jobs, queue)
    requires forall k :: 0 <= k < |due| ==> due[k].id in jobs && Dispatchable(jobs[due[k].id].status)
    requires DistinctIds(due)
    ensures var s := PollRun(jobs, queue, due, now, rejected, p);
      && WellKeyed(s.jobs, nextId) && QueueConsistent(s.jobs, s.queue)
      && s.jobs.Keys == jobs.Keys
      && forall id :: id in jobs ==> Transition(jobs[id].status, s.jobs[id].status)
    decreases |due|
  {
    if due != [] {
      var init := due[..|due| - 1];
      var last := due[|due| - 1];
      assert DistinctIds(init);
      PollRunKeepsInv(jobs, nextId, queue, init, now, rejected, p);
      var before := PollRun(jobs, queue, init, now, rejected, p);
      if before.outcome.Pass? {
        assert last.id in before.jobs && before.jobs[last.id] == jobs[last.id] by {
          PollRunFrame(jobs, queue, init, now, rejected, p);
          IdsOfSplit(due);
          assert last.id !in IdsOf(init);
        }
        PollOneKeepsInv(before.jobs, nextId, before.queue, last, now, rejected, p);
        var s := PollOne(before.jobs, before.queue, last, now, rejected, p);
        forall id | id in jobs
          ensures Transition(jobs[id].status, s.jobs[id].status)
        {
          if id != last.id {
            assert s.jobs[id] == before.jobs[id];
          }
        }
      }
    }
  }

  /** Taking an item off a consistent queue keeps it consistent if only that item's job changed. */
  lemma RemoveKeepsConsistent(jobs: Table, jobs': Table, queue: seq<QueueItem>, i: nat)
    requires QueueConsistent(jobs, queue) && i < |queue|
    requires forall id :: id in jobs && id != queue[i].name ==> id in jobs' && jobs'[id] == jobs[id]
    ensures QueueConsistent(jobs', Remove(queue, i))
  {
    var rest := Remove(queue, i);
    forall j | 0 <= j < |rest|
      ensures rest[j] == queue[if j < i then j else j + 1]
    {
    }
  }

  lemma WorkKeepsInv(s: System, i: nat, now: int, failure: Option<string>, p: CronParser)
    requires Inv(s) && i < |s.queue|
    ensures var t := Step(s, WorkEvent(i, now, failure), p);
      && Inv(t) && t.jobs.Keys == s.jobs.Keys
      && (forall id :: id in s.jobs && id != s.queue[i].name ==> t.jobs[id] == s.jobs[id])
      && forall id :: id in s.jobs ==> Transition(s.jobs[id].status, t.jobs[id].status)
  {
    var w := Processed(s.jobs, s.queue[i].payload, now, failure, p);
    RemoveKeepsConsistent(s.jobs, w.jobs, s.queue, i);
  }

  /** One event keeps the invariant, never drops a job, and moves each job along `Transition`. */
  lemma StepKeepsInv(s: System, e: Event, p: CronParser)
    requires Inv(s) && Enabled(s, e)
    ensures var t := Step(s, e, p);
      && Inv(t) && s.jobs.Keys <= t.jobs.Keys
      && forall id :: id in s.jobs ==> Transition(s.jobs[id].status, t.jobs[id].status)
  {
    match e
    case CreateEvent(cron, data, now) =>
    case PollEvent(now, due, rejected) =>
      forall k | 0 <= k < |due| ensures due[k].id in s.jobs && Dispatchable(s.jobs[due[k].id].status) {
        DueListingAdmitsOnlyPendingOrError(due, s.jobs, now, k);
      }
      PollRunKeepsInv(s.jobs, s.nextId, s.queue, due, now, rejected, p);
    case WorkEvent(i, now, failure) =>
      WorkKeepsInv(s, i, now, failure, p);
  }

  /** Every state the subsystem can reach from an empty table and queue satisfies the invariant. */
  lemma {:induction false} RunKeepsInv(s: System, events: seq<Event>, p: CronParser)
    requires Inv(s) && Run(s, events, p).Some?
    ensures Inv(Run(s, events, p).value)
    decreases |events|
  {
    if events != [] {
      StepKeepsInv(s, events[0], p);
      RunKeepsInv(Step(s, events[0], p), events[1..], p);
    }
  }

  /** A COMPLETED job is untouched by any single event, and no queued item is for it. */
  lemma CompletedIsFinal(s: System, e: Event, id: JobId, p: CronParser)
    requires Inv(s) && Enabled(s, e) && id in s.jobs && s.jobs[id].status == Completed
    ensures var t := Step(s, e, p);
      id in t.jobs && t.jobs[id] == s.jobs[id] && forall i :: 0 <= i < |t.queue| ==> t.queue[i].name != id
  {
    StepKeepsInv(s, e, p);
    match e
    case CreateEvent(cron, data, now) =>
    case PollEvent(now, due, rejected) =>
      PollRunFrame(s.jobs, s.queue, due, now, rejected, p);
    case WorkEvent(i, now, failure) =>
      WorkKeepsInv(s, i, now, failure, p);
  }

  /**
   * Once a job is COMPLETED, no later sequence of job creations, polls and worker runs changes
   * its row or queues it again: the due-job query admits only PENDING and ERROR, and no
   * operation leaves COMPLETED.
   */
  lemma {:induction false} CompletedIsNeverDispatchedAgain(s: System, events: seq<Event>, id: JobId, p: CronParser)
    requires Inv(s) && id in s.jobs && s.jobs[id].status == Completed
    requires Run(s, events, p).Some?
    ensures var t := Run(s, events, p).value;
      id in t.jobs && t.jobs[id] == s.jobs[id] && forall i :: 0 <= i < |t.queue| ==> t.queue[i].name != id
    decreases |events|
  {
    if events != [] {
      CompletedIsFinal(s, events[0], id, p);
      StepKeepsInv(s, events[0], p);
      CompletedIsNeverDispatchedAgain(Step(s, events[0], p), events[1..], id, p);
    } else {
      assert forall i :: 0 <= i < |s.queue| ==> s.queue[i].name != id;
    }
  }

  lemma InitSatisfiesInv()
    ensures Inv(INIT)
  {
  }
}
