/** The in-memory job queue and the worker that serves it. */
module JobQueue {
  import opened Wrappers
  import opened Clock
  import opened Jobs
  import opened Totals

  type JobMap = map<string, Job>

  predicate Eligible(job: Job, queue: string, status: JobStatus, now: Time) {
    job.queue == queue && job.status == status && job.IsReady(now)
  }

  ghost predicate Keyed(jobs: JobMap) {
    forall id :: id in jobs ==> jobs[id].id == id
  }

  /** No job of the queue is both in `status` and due. */
  ghost predicate NoneEligible(jobs: JobMap, queue: string, status: JobStatus, now: Time) {
    forall id :: id in jobs ==> !Eligible(jobs[id], queue, status, now)
  }

  /** The jobs a dequeue may hand out: a due pending job of the highest priority present or,
      when no pending job is due, any due retrying job. */
  ghost predicate Pickable(jobs: JobMap, queue: string, now: Time, id: string) {
    && id in jobs
    && if NoneEligible(jobs, queue, Pending, now)
       then Eligible(jobs[id], queue, Retrying, now)
       else
         && Eligible(jobs[id], queue, Pending, now)
         && forall other :: other in jobs && Eligible(jobs[other], queue, Pending, now)
                            ==> jobs[other].priority.Rank() <= jobs[id].priority.Rank()
  }

  /** What one dequeue does to the map. The iteration order of the hash map decides between equals,
      so this is a relation. */
  ghost predicate Dequeued(before: JobMap, queue: string, now: Time, after: JobMap, taken: Option<Job>) {
    match taken
    case None =>
      && after == before
      && NoneEligible(before, queue, Pending, now)
      && NoneEligible(before, queue, Retrying, now)
    case Some(job) =>
      && Pickable(before, queue, now, job.id)
      && job == before[job.id].MarkRunning(now)
      && after == before[job.id := job]
  }

  /** A dequeue in terms of the jobs' fields. What it takes was waiting in that queue and its time, if it had one, had
      come; Pending jobs go first, and no more urgent one that could be taken stays behind. If it takes nothing, every
      waiting job of the queue has a time that is still to come. */
  ghost predicate Serves(before: JobMap, queue: string, now: Time, after: JobMap, taken: Option<Job>) {
    match taken
    case None =>
      && after == before
      && forall id :: id in before && before[id].queue == queue
                      && (before[id].status == Pending || before[id].status == Retrying)
                      ==> before[id].runAt.Some? && now < before[id].runAt.value
    case Some(job) =>
      && job.id in before
      && var was := before[job.id];
         && was.queue == queue && (was.status == Pending || was.status == Retrying)
         && (was.runAt.Some? ==> was.runAt.value <= now)
         && job == was.(status := Running, startedAt := Some(now))
         && after == before[job.id := job]
         && forall id :: id in before && before[id].queue == queue && before[id].status == Pending
                         && (before[id].runAt.Some? ==> before[id].runAt.value <= now)
                         ==> was.status == Pending && !MoreUrgent(before[id].priority, was.priority)
  }

  lemma EligibleMeans(job: Job, queue: string, status: JobStatus, now: Time)
    ensures Eligible(job, queue, status, now)
            <==> job.queue == queue && job.status == status && (job.runAt.Some? ==> job.runAt.value <= now)
  {
  }

  /** The two searches of a dequeue allow exactly that. */
  lemma DequeueMeans(before: JobMap, queue: string, now: Time, after: JobMap, taken: Option<Job>)
    requires Keyed(before)
    ensures Dequeued(before, queue, now, after, taken) <==> Serves(before, queue, now, after, taken)
  {
    hide Eligible, JobPriority.Rank, MoreUrgent;
    forall id | id in before
      ensures Eligible(before[id], queue, Pending, now)
              <==> before[id].queue == queue && before[id].status == Pending
                   && (before[id].runAt.Some? ==> before[id].runAt.value <= now)
      ensures Eligible(before[id], queue, Retrying, now)
              <==> before[id].queue == queue && before[id].status == Retrying
                   && (before[id].runAt.Some? ==> before[id].runAt.value <= now)
    {
      EligibleMeans(before[id], queue, Pending, now);
      EligibleMeans(before[id], queue, Retrying, now);
    }
    if taken.Some? && taken.value.id in before {
      forall id | id in before
        ensures before[id].priority.Rank() <= before[taken.value.id].priority.Rank()
                <==> !MoreUrgent(before[id].priority, before[taken.value.id].priority)
      {
        RankIsUrgency(before[id].priority, before[taken.value.id].priority);
      }
    }
  }

  predicate IsDeadIn(job: Job, queue: string) {
    job.queue == queue && job.status == Dead
  }

  function ReviveIn(job: Job, queue: string): Job {
    if IsDeadIn(job, queue) then job.Revived() else job
  }

  function Revive(jobs: JobMap, queue: string): JobMap {
    map id | id in jobs :: ReviveIn(jobs[id], queue)
  }

  function DeadIn(jobs: JobMap, queue: string): set<string> {
    set id | id in jobs && IsDeadIn(jobs[id], queue)
  }

  /** The map part-way through `retry_dead`: the jobs in `rest` are still to be looked at. */
  ghost predicate RevivedExcept(before: JobMap, queue: string, rest: set<string>, jobs: JobMap) {
    && rest <= jobs.Keys == before.Keys
    && Keyed(jobs)
    && forall id :: id in jobs ==> jobs[id] == if id in rest then before[id] else ReviveIn(before[id], queue)
  }

  lemma ReviveOneMore(before: JobMap, queue: string, rest: set<string>, jobs: JobMap, id: string)
    requires RevivedExcept(before, queue, rest, jobs) && id in rest
    ensures jobs[id] == before[id]
    ensures RevivedExcept(before, queue, rest - {id}, jobs[id := ReviveIn(before[id], queue)])
  {
    var next := jobs[id := ReviveIn(before[id], queue)];
    forall k | k in next
      ensures next[k] == if k in rest - {id} then before[k] else ReviveIn(before[k], queue)
      ensures next[k].id == k
    {
    }
  }

  lemma AllRevived(before: JobMap, queue: string, jobs: JobMap)
    requires RevivedExcept(before, queue, {}, jobs)
    ensures jobs == Revive(before, queue)
  {
  }

  lemma CountOneMore(dead: set<string>, rest: set<string>, id: string)
    requires id in rest
    ensures |dead - (rest - {id})| == |dead - rest| + if id in dead then 1 else 0
  {
    if id in dead {
      assert dead - (rest - {id}) == dead - rest + {id};
    } else {
      assert dead - (rest - {id}) == dead - rest;
    }
  }

  /** A revived job is due at once: after `retry_dead` a queue that had dead jobs has work, whatever the time. */
  lemma RevivingMakesWork(jobs: JobMap, queue: string, now: Time)
    ensures DeadIn(Revive(jobs, queue), queue) == {}
    ensures DeadIn(jobs, queue) != {} ==> !NoneEligible(Revive(jobs, queue), queue, Pending, now)
  {
    if id :| id in DeadIn(jobs, queue) {
      assert Eligible(Revive(jobs, queue)[id], queue, Pending, now);
    }
  }

  /** What `retry_dead` does, in terms of the jobs' fields: the dead jobs of the queue start afresh, all others stay as
      they are, the completed ones among them. */
  lemma RevivalMeans(jobs: JobMap, queue: string)
    ensures Revive(jobs, queue).Keys == jobs.Keys
    ensures forall id :: id in jobs ==>
                           Revive(jobs, queue)[id]
                           == if jobs[id].queue == queue && jobs[id].status == Dead
                              then jobs[id].(status := Pending, retries := 0, error := None, runAt := None)
                              else jobs[id]
    ensures DeadIn(jobs, queue) == set id | id in jobs && jobs[id].queue == queue && jobs[id].status == Dead
  {
  }

  function CompletedIn(jobs: JobMap, queue: string): set<string> {
    set id | id in jobs && jobs[id].queue == queue && jobs[id].status == Completed
  }

  /** Clearing a queue takes away its completed jobs, and those only. */
  lemma ClearingMeans(jobs: JobMap, queue: string, id: string)
    ensures id in jobs - CompletedIn(jobs, queue)
            <==> id in jobs && !(jobs[id].queue == queue && jobs[id].status == Completed)
    ensures id in CompletedIn(jobs, queue) <==> id in jobs && jobs[id].queue == queue && jobs[id].status == Completed
  {
  }

  /** The jobs of all queues, changed in place under one lock per operation. */
  class MemoryJobQueue {
    var jobs: JobMap
    var counter: nat

    ghost predicate Valid()
      reads this
    {
      Keyed(jobs)
    }

    constructor ()
      ensures Valid() && jobs == map[] && counter == 0
    {
      jobs, counter := map[], 0;
    }

    method Enqueue(job: Job) returns (id: string)
      requires Valid()
      modifies this
      ensures Valid()
      ensures id == job.id && jobs == old(jobs)[job.id := job] && counter == old(counter) + 1
    {
      id := job.id;
      jobs := jobs[id := job];
      counter := counter + 1;
    }

    method Dequeue(queue: string, now: Time) returns (taken: Option<Job>)
      requires Valid()
      modifies this`jobs
      ensures Valid()
      ensures Dequeued(old(jobs), queue, now, jobs, taken)
    {
      var best := BestPending(queue, now);
      if best.Some? {
        jobs := jobs[best.value := jobs[best.value].MarkRunning(now)];
        return Some(jobs[best.value]);
      }
      var retry := AnyRetrying(queue, now);
      if retry.Some? {
        var job := jobs[retry.value].(status := Pending).MarkRunning(now);
        jobs := jobs[retry.value := job];
        return Some(job);
      }
      return None;
    }

    method BestPending(queue: string, now: Time) returns (best: Option<string>)
      requires Valid()
      ensures best == None ==> NoneEligible(jobs, queue, Pending, now)
      ensures best.Some? ==> best.value in jobs && Eligible(jobs[best.value], queue, Pending, now)
      ensures best.Some? ==> Pickable(jobs, queue, now, best.value)
    {
      best := None;
      var rest := jobs.Keys;
      while rest != {}
        invariant rest <= jobs.Keys
        invariant best == None ==>
                    forall k :: k in jobs && k !in rest ==> !Eligible(jobs[k], queue, Pending, now)
        invariant best.Some? ==> best.value in jobs && Eligible(jobs[best.value], queue, Pending, now)
        invariant best.Some? ==>
                    forall k :: k in jobs && k !in rest && Eligible(jobs[k], queue, Pending, now)
                                ==> jobs[k].priority.Rank() <= jobs[best.value].priority.Rank()
      {
        var id :| id in rest;
        rest := rest - {id};
        if Eligible(jobs[id], queue, Pending, now) {
          if best == None || jobs[best.value].priority.Rank() <= jobs[id].priority.Rank() {
            best := Some(id);
          }
        }
      }
    }

    method AnyRetrying(queue: string, now: Time) returns (found: Option<string>)
      requires Valid()
      ensures found == None ==> NoneEligible(jobs, queue, Retrying, now)
      ensures found.Some? ==> found.value in jobs && Eligible(jobs[found.value], queue, Retrying, now)
    {
      var rest := jobs.Keys;
      while rest != {}
        invariant rest <= jobs.Keys
        invariant forall k :: k in jobs && k !in rest ==> !Eligible(jobs[k], queue, Retrying, now)
      {
        var id :| id in rest;
        if Eligible(jobs[id], queue, Retrying, now) {
          return Some(id);
        }
        rest := rest - {id};
      }
      return None;
    }

    method Update(job: Job)
      requires Valid()
      modifies this`jobs
      ensures Valid()
      ensures jobs == old(jobs)[job.id := job]
    {
      jobs := jobs[job.id := job];
    }

    method Delete(id: string)
      requires Valid()
      modifies this`jobs
      ensures Valid()
      ensures jobs == old(jobs) - {id}
    {
      jobs := jobs - {id};
    }

    method RetryDead(queue: string) returns (count: nat)
      requires Valid()
      modifies this`jobs
      ensures Valid()
      ensures jobs == Revive(old(jobs), queue)
      ensures count == |DeadIn(old(jobs), queue)|
    {
      count := 0;
      ghost var before := jobs;
      var rest := jobs.Keys;
      while rest != {}
        invariant RevivedExcept(before, queue, rest, jobs)
        invariant count == |DeadIn(before, queue) - rest|
      {
        var id :| id in rest;
        ReviveOneMore(before, queue, rest, jobs, id);
        CountOneMore(DeadIn(before, queue), rest, id);
        var revived := ReviveOne(id, queue);
        rest := rest - {id};
        count := count + if revived then 1 else 0;
      }
      assert DeadIn(before, queue) - rest == DeadIn(before, queue);
      AllRevived(before, queue, jobs);
    }

    /** The body of the loop above: one job, changed in place. */
    method ReviveOne(id: string, queue: string) returns (revived: bool)
      requires id in jobs
      modifies this`jobs
      ensures revived == IsDeadIn(old(jobs)[id], queue)
      ensures jobs == old(jobs)[id := ReviveIn(old(jobs)[id], queue)]
    {
      var job := jobs[id];
      revived := IsDeadIn(job, queue);
      if revived {
        jobs := jobs[id := job.Revived()];
      }
    }

    method ClearCompleted(queue: string) returns (count: nat)
      requires Valid()
      modifies this`jobs
      ensures Valid()
      ensures jobs == old(jobs) - CompletedIn(old(jobs), queue)
      ensures count == |CompletedIn(old(jobs), queue)|
    {
      var remaining := CompletedIn(jobs, queue);
      count := |remaining|;
      while remaining != {}
        invariant remaining <= CompletedIn(old(jobs), queue)
        invariant Valid() && jobs == old(jobs) - (CompletedIn(old(jobs), queue) - remaining)
      {
        var id :| id in remaining;
        jobs := jobs - {id};
        remaining := remaining - {id};
      }
    }
  }

  /** What a worker concludes about a job: an unregistered type fails without a handler call. */
  function Verdict(handlers: set<string>, answer: (string, string) -> Outcome, job: Job): Outcome {
    if job.jobType in handlers then answer(job.jobType, job.args)
    else Raised("Unknown job type: " + job.jobType)
  }

  /** The map after one job has been taken at `start` and written back at `end`. */
  function Settled(
    jobs: JobMap, id: string, start: Time, end: Time, handlers: set<string>, answer: (string, string) -> Outcome)
    : JobMap
    requires id in jobs
  {
    jobs[id := jobs[id].MarkRunning(start).Settle(Verdict(handlers, answer, jobs[id]), end)]
  }

  /** What a whole undisturbed `process_one` does to the map. */
  ghost predicate Processed(
    before: JobMap, queue: string, start: Time, end: Time,
    handlers: set<string>, answer: (string, string) -> Outcome,
    after: JobMap, processed: bool)
  {
    if processed then
      exists id :: Pickable(before, queue, start, id) && after == Settled(before, id, start, end, handlers, answer)
    else
      Dequeued(before, queue, start, after, None)
  }

  /** What a round leaves of a job, in terms of its fields. Only a registered handler is asked, and only its success
      completes the job; everything else is a failure, with the message of the handler or about the unknown type. A
      failed job waits for its next retry or, if it had all it may have, is dead. */
  predicate Worked(
    was: Job, start: Time, end: Time, handlers: set<string>, answer: (string, string) -> Outcome, done: Job)
  {
    var known := was.jobType in handlers;
    var succeeded := known && answer(was.jobType, was.args).Succeeded?;
    && done.id == was.id && done.queue == was.queue && done.maxRetries == was.maxRetries
    && done.startedAt == Some(start) && done.finishedAt == Some(end)
    && if succeeded then done.status == Completed && done.error == was.error && done.retries == was.retries
       else
         && done.error == Some(if known then answer(was.jobType, was.args).message
                               else "Unknown job type: " + was.jobType)
         && if was.retries < was.maxRetries then done.status == Retrying && done.retries == was.retries + 1
            else done.status == Dead && done.retries == was.retries && done.runAt == was.runAt
  }

  /** A round takes a waiting job of the queue whose time has come, works it, and touches no other. */
  lemma RoundMeans(
    before: JobMap, queue: string, start: Time, end: Time,
    handlers: set<string>, answer: (string, string) -> Outcome, after: JobMap, processed: bool)
    requires Keyed(before) && Processed(before, queue, start, end, handlers, answer, after, processed)
    ensures !processed ==> after == before
    ensures processed ==>
              exists id ::
                && id in before && id in after && after == before[id := after[id]]
                && before[id].queue == queue && (before[id].status == Pending || before[id].status == Retrying)
                && (before[id].runAt.Some? ==> before[id].runAt.value <= start)
                && Worked(before[id], start, end, handlers, answer, after[id])
  {
    if processed {
      var id :| Pickable(before, queue, start, id) && after == Settled(before, id, start, end, handlers, answer);
      assert id in after && after == before[id := after[id]];
      JobIsWorked(before[id], start, end, handlers, answer);
    }
  }

  lemma JobIsWorked(was: Job, start: Time, end: Time, handlers: set<string>, answer: (string, string) -> Outcome)
    ensures Worked(
              was, start, end, handlers, answer, was.MarkRunning(start).Settle(Verdict(handlers, answer, was), end))
  {
  }

  /** No job claims more retries than it may have. */
  ghost predicate WithinRetries(jobs: JobMap) {
    forall id :: id in jobs ==> jobs[id].retries <= jobs[id].maxRetries
  }

  /** What each job of the queue may still cost a worker. */
  function QueueBudget(jobs: JobMap, queue: string): map<string, nat>
    requires WithinRetries(jobs)
  {
    map id | id in jobs :: if jobs[id].queue == queue then jobs[id].Budget() else 0
  }

  class JobWorker {
    const queue: MemoryJobQueue
    const queueName: string
    var handlers: set<string>

    constructor (queue: MemoryJobQueue, queueName: string)
      ensures this.queue == queue && this.queueName == queueName && handlers == {}
    {
      this.queue, this.queueName, this.handlers := queue, queueName, {};
    }

    method Register(jobType: string)
      modifies this`handlers
      ensures handlers == old(handlers) + {jobType}
    {
      handlers := handlers + {jobType};
    }

    /** One round of work: `answer` is what each registered handler replies during it. */
    method ProcessOne(start: Time, end: Time, answer: (string, string) -> Outcome) returns (processed: bool)
      requires queue.Valid()
      modifies queue`jobs
      ensures queue.Valid()
      ensures Processed(old(queue.jobs), queueName, start, end, handlers, answer, queue.jobs, processed)
    {
      var taken := queue.Dequeue(queueName, start);
      if taken == None {
        return false;
      }
      var job := taken.value;
      if job.jobType !in handlers {
        queue.Update(job.MarkFailed("Unknown job type: " + job.jobType, end));
        assert queue.jobs == Settled(old(queue.jobs), job.id, start, end, handlers, answer);
        return true;
      }
      match answer(job.jobType, job.args) {
        case Succeeded =>
          job := job.MarkCompleted(end);
        case Raised(message) =>
          job := job.MarkFailed(message, end);
      }
      queue.Update(job);
      assert queue.jobs == Settled(old(queue.jobs), job.id, start, end, handlers, answer);
      return true;
    }

    /** The worker loop up to its first idle round, undisturbed by others. The n-th reading of the
        clock is `clock(n)`, the n-th round's handler replies are `answers(n)`. */
    method RunUntilIdle(clock: nat -> Time, answers: nat -> (string, string) -> Outcome) returns (rounds: nat)
      requires queue.Valid() && WithinRetries(queue.jobs)
      modifies queue`jobs
      ensures queue.Valid() && WithinRetries(queue.jobs)
      ensures rounds <= Total(QueueBudget(old(queue.jobs), queueName))
      ensures queue.jobs.Keys == old(queue.jobs).Keys
      ensures forall id :: id in queue.jobs && queue.jobs[id].queue != queueName
                           ==> queue.jobs[id] == old(queue.jobs)[id]
      ensures forall id :: id in queue.jobs && queue.jobs[id].queue == queueName
                           && old(queue.jobs)[id].status != Running && old(queue.jobs)[id].status != Failed
                           && (queue.jobs[id].runAt.Some? ==> queue.jobs[id].runAt.value <= clock(2 * rounds))
                           ==> queue.jobs[id].status == Completed || queue.jobs[id].status == Dead
    {
      rounds := 0;
      ghost var before := queue.jobs;
      var processed := true;
      while processed
        invariant queue.Valid() && WithinRetries(queue.jobs)
        invariant ServedFrom(before, queueName, queue.jobs)
        invariant Total(QueueBudget(queue.jobs, queueName)) + rounds <= Total(QueueBudget(before, queueName))
        invariant !processed ==> Dequeued(queue.jobs, queueName, clock(2 * rounds), queue.jobs, None)
        decreases Total(QueueBudget(queue.jobs, queueName)), processed
      {
        ghost var current := queue.jobs;
        processed := ProcessOne(clock(2 * rounds), clock(2 * rounds + 1), answers(rounds));
        ProcessingCosts(current, queueName, clock(2 * rounds), clock(2 * rounds + 1),
                        handlers, answers(rounds), queue.jobs, processed);
        ServedFromTransitive(before, queueName, current, queue.jobs);
        if processed {
          rounds := rounds + 1;
        }
      }
    }
  }

  /** Every job is still there; those of other queues are untouched, those of this queue are untouched
      or have been through a worker. */
  ghost predicate ServedFrom(before: JobMap, queue: string, after: JobMap) {
    && after.Keys == before.Keys
    && forall id :: id in after ==>
         || after[id] == before[id]
         || (before[id].queue == after[id].queue == queue && after[id].status != Running && after[id].status != Failed)
  }

  lemma ServedFromTransitive(a: JobMap, queue: string, b: JobMap, c: JobMap)
    requires ServedFrom(a, queue, b) && ServedFrom(b, queue, c)
    ensures ServedFrom(a, queue, c)
  {
  }

  /** Putting a cheaper job in the place of one lowers the queue's budget. */
  lemma ReplacingSpends(before: JobMap, queue: string, id: string, job: Job)
    requires WithinRetries(before) && id in before && before[id].queue == job.queue == queue
    requires job.retries <= job.maxRetries && job.Budget() + 1 <= before[id].Budget()
    ensures WithinRetries(before[id := job])
    ensures Total(QueueBudget(before[id := job], queue)) + 1 <= Total(QueueBudget(before, queue))
  {
    TotalDrops(QueueBudget(before[id := job], queue), QueueBudget(before, queue), id, 1);
  }

  /** What a round makes of the job it takes: it stamps start and end, records the outcome, and keeps all else. */
  lemma RoundSettles(job: Job, start: Time, end: Time, outcome: Outcome)
    requires job.status == Pending || job.status == Retrying
    requires job.retries <= job.maxRetries
    ensures var done := job.MarkRunning(start).Settle(outcome, end);
            && done == job.(
                         status := done.status, retries := done.retries, runAt := done.runAt, error := done.error,
                         startedAt := Some(start), finishedAt := Some(end))
            && done.error == (match outcome { case Succeeded => job.error case Raised(message) => Some(message) })
            && (done.status == Completed <==> outcome.Succeeded?)
            && done.status != Running && done.status != Failed
            && done.retries <= done.maxRetries
            && done.Budget() + 1 <= job.Budget()
  {
  }

  /** A round that processed something spent at least one unit of the queue's budget. */
  lemma ProcessingCosts(
    before: JobMap, queue: string, start: Time, end: Time,
    handlers: set<string>, answer: (string, string) -> Outcome, after: JobMap, processed: bool)
    requires Keyed(before) && WithinRetries(before)
    requires Processed(before, queue, start, end, handlers, answer, after, processed)
    ensures Keyed(after) && WithinRetries(after) && ServedFrom(before, queue, after)
    ensures Total(QueueBudget(after, queue)) + (if processed then 1 else 0) <= Total(QueueBudget(before, queue))
  {
    if processed {
      var id :| Pickable(before, queue, start, id) && after == Settled(before, id, start, end, handlers, answer);
      RoundSettles(before[id], start, end, Verdict(handlers, answer, before[id]));
      ReplacingSpends(before, queue, id, after[id]);
    }
  }
}
