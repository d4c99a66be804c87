/** Background jobs: the job record, its status machine and its retry backoff. */
module Jobs {
  import opened Wrappers
  import opened Clock

  type U32 = n: int | 0 <= n < 0x1_0000_0000

  const TWO_63: int := 0x8000_0000_0000_0000
  const TWO_64: int := 0x1_0000_0000_0000_0000

  /** The largest exponent whose backoff is an `i64`: 2^57 minutes. */
  const LAST_EXACT_BACKOFF := 57

  datatype JobStatus = Pending | Running | Completed | Failed | Retrying | Dead

  datatype JobPriority = Low | Normal | High | Critical {
    function Rank(): nat {
      match this
      case Low => 0
      case Normal => 1
      case High => 2
      case Critical => 3
    }
  }

  /** What a handler answered. */
  datatype Outcome = Succeeded | Raised(message: string)

  function Pow2(n: nat): (p: nat)
    ensures 1 <= p
  {
    if n == 0 then 1 else 2 * Pow2(n - 1)
  }

  /** The two's-complement reading of an integer in 64 bits. */
  function WrapI64(x: int): int {
    (x + TWO_63) % TWO_64 - TWO_63
  }

  /** The delay before retry number `retries`, in wrapping `i64` arithmetic. */
  function BackoffSeconds(retries: nat): int {
    WrapI64(WrapI64(Pow2(retries)) * 60)
  }

  /** A job is an owned value: the queue hands out copies of it and stores copies back. */
  datatype Job = Job(
    id: string,
    jobType: string,
    queue: string,
    args: string,
    status: JobStatus,
    priority: JobPriority,
    retries: U32,
    maxRetries: U32,
    error: Option<string>,
    runAt: Option<Time>,
    createdAt: Time,
    startedAt: Option<Time>,
    finishedAt: Option<Time>
  ) {

    static function New(id: string, jobType: string, args: string, now: Time): (j: Job)
      ensures j.IsBuilt()
    {
      Job(id, jobType, "default", args, Pending, Normal, 0, 3, None, None, now, None, None)
    }

    function Queue(queue: string): (j: Job)
      ensures IsBuilt() ==> j.IsBuilt()
    {
      this.(queue := queue)
    }

    function Priority(priority: JobPriority): (j: Job)
      ensures IsBuilt() ==> j.IsBuilt()
    {
      this.(priority := priority)
    }

    function MaxRetries(max: U32): (j: Job)
      ensures IsBuilt() ==> j.IsBuilt()
    {
      this.(maxRetries := max)
    }

    function RunAt(at: Time): (j: Job)
      ensures IsBuilt() ==> j.IsBuilt()
    {
      this.(runAt := Some(at))
    }

    /** What every job made by `New` and the builders looks like before it is first taken. */
    predicate IsBuilt() {
      status == Pending && retries == 0 && error == None && startedAt == None && finishedAt == None
    }

    predicate IsReady(now: Time) {
      match runAt
      case Some(at) => now >= at
      case None => true
    }

    predicate CanRetry() {
      retries < maxRetries
    }

    function MarkRunning(now: Time): Job {
      this.(status := Running, startedAt := Some(now))
    }

    function MarkCompleted(now: Time): Job {
      this.(status := Completed, finishedAt := Some(now))
    }

    function MarkFailed(message: string, now: Time): Job {
      var stopped := this.(error := Some(message), finishedAt := Some(now));
      if CanRetry() then
        stopped.(
          status := Retrying,
          retries := retries + 1,
          runAt := Some(now + BackoffSeconds(retries + 1)))
      else
        stopped.(status := Dead)
    }

    /** The copy a worker writes back once its handler has answered. */
    function Settle(outcome: Outcome, now: Time): Job {
      match outcome
      case Succeeded => MarkCompleted(now)
      case Raised(message) => MarkFailed(message, now)
    }

    /** A dead job put back in line, as `retry_dead` does. */
    function Revived(): Job {
      this.(status := Pending, retries := 0, error := None, runAt := None)
    }

    /** Ties a job to `attempts`, the number of times it was handed to a worker
        since it was enqueued or last revived. */
    predicate Accounts(attempts: nat) {
      && retries <= maxRetries
      && match status {
           case Pending => retries == 0 && attempts == 0
           case Running => attempts == retries + 1
           case Completed => attempts == retries + 1
           case Retrying => 1 <= retries && attempts == retries
           case Dead => retries == maxRetries && attempts == maxRetries + 1
           case Failed => false
         }
    }

    /** How many more times this job can be handed out without being revived. */
    function Budget(): nat
      requires retries <= maxRetries
    {
      match status
      case Pending => maxRetries - retries + 1
      case Retrying => maxRetries - retries + 1
      case Running => maxRetries - retries
      case _ => 0
    }
  }

  /** Which of two jobs has to wait for the other. */
  predicate MoreUrgent(a: JobPriority, b: JobPriority) {
    match a
    case Critical => b != Critical
    case High => b == Normal || b == Low
    case Normal => b == Low
    case Low => false
  }

  lemma RankIsUrgency(a: JobPriority, b: JobPriority)
    ensures a.Rank() <= b.Rank() <==> !MoreUrgent(a, b)
  {
  }

  /** What a job is when it is enqueued, whichever builders were applied and in whatever order. */
  lemma BuiltJob(
    id: string, jobType: string, args: string, now: Time, queue: string, priority: JobPriority, max: U32, at: Time)
    ensures var plain := Job.New(id, jobType, args, now);
            && plain.queue == "default" && plain.runAt == None && plain.maxRetries == 3
            && !MoreUrgent(plain.priority, Normal) && !MoreUrgent(Normal, plain.priority)
            && plain.Queue(queue).Priority(priority).MaxRetries(max).RunAt(at)
               == plain.RunAt(at).MaxRetries(max).Priority(priority).Queue(queue)
               == Job(id, jobType, queue, args, Pending, priority, 0, max, None, Some(at), now, None, None)
  {
  }

  lemma {:induction false} Pow2Monotone(m: nat, n: nat)
    requires m <= n
    ensures Pow2(m) <= Pow2(n)
    decreases n
  {
    if m < n {
      Pow2Monotone(m, n - 1);
    }
  }

  lemma {:induction false} Pow2Sum(m: nat, n: nat)
    ensures Pow2(m + n) == Pow2(m) * Pow2(n)
    decreases n
  {
    if n > 0 {
      Pow2Sum(m, n - 1);
    }
  }

  lemma Pow2Half(half: nat)
    requires half == 28
    ensures Pow2(half) == 0x1000_0000
  {
    var quarter := 14;
    assert Pow2(14) == 0x4000;
    Pow2Sum(quarter, quarter);
  }

  /** 2^58 minutes is the first backoff, in seconds, above the `i64` range. */
  lemma Pow2AtTheEdge(last: nat)
    requires last == LAST_EXACT_BACKOFF
    ensures Pow2(last) == 0x200_0000_0000_0000
    ensures Pow2(last + 1) == 0x400_0000_0000_0000
  {
    var half := 28;
    Pow2Half(half);
    Pow2Sum(half, half);
    assert last == half + half + 1;
  }

  /** The backoff is the promised 2^retries minutes exactly when that number of seconds is an `i64`,
      which is up to 57 retries. */
  lemma BackoffExactIff(retries: nat)
    ensures BackoffSeconds(retries) == Pow2(retries) * 60 <==> retries <= LAST_EXACT_BACKOFF
  {
    hide Pow2;
    var last := LAST_EXACT_BACKOFF;
    Pow2AtTheEdge(last);
    if retries <= last {
      Pow2Monotone(retries, last);
      assert WrapI64(Pow2(retries)) == Pow2(retries);
    } else {
      Pow2Monotone(last + 1, retries);
      assert BackoffSeconds(retries) < TWO_63;
    }
  }

  /** Beyond the bound the delay is not merely late: the 62nd one is no delay at all. */
  lemma BackoffCollapses(retries: nat)
    requires retries == 62
    ensures BackoffSeconds(retries) == 0
  {
    var last := LAST_EXACT_BACKOFF;
    Pow2AtTheEdge(last);
    Pow2Sum(last, 5);
    assert Pow2(5) == 32;
  }

  /** A failure at `now` puts a job that may retry off, counting this failure, and by exactly 2^retries minutes if and
      only if that is at most its 57th retry. Any other job dies, with its schedule and count as they were. */
  lemma FailureSchedules(job: Job, message: string, now: Time)
    ensures var failed := job.MarkFailed(message, now);
            if job.retries < job.maxRetries then
              && failed.status == Retrying && failed.retries == job.retries + 1
              && (failed.runAt == Some(now + Pow2(failed.retries) * 60) <==> failed.retries <= LAST_EXACT_BACKOFF)
            else failed.status == Dead && failed.runAt == job.runAt && failed.retries == job.retries
  {
    BackoffExactIff(job.retries + 1);
  }

  /** One hand-out spends one unit of a job's budget; settling it spends none back. */
  lemma BudgetSpent(job: Job, attempts: nat, outcome: Outcome, start: Time, end: Time)
    requires job.Accounts(attempts)
    requires job.status == Pending || job.status == Retrying
    ensures job.MarkRunning(start).Accounts(attempts + 1)
    ensures job.MarkRunning(start).Budget() + 1 == job.Budget()
    ensures job.MarkRunning(start).Settle(outcome, end).Accounts(attempts + 1)
    ensures job.MarkRunning(start).Settle(outcome, end).Budget() <= job.MarkRunning(start).Budget()
  {
  }
}
