/** Any number of workers sharing one job queue. A worker holds the copy of the job that `dequeue`
    gave it until it writes it back with `update`; between the two the lock is free, so the steps
    of different workers and of the queue's other callers interleave in any order. */
module JobSystem {
  import opened Wrappers
  import opened Clock
  import opened Jobs
  import opened JobQueue
  import opened Totals

  /** A call of `process_one` in flight. */
  type Worker = int

  /** `used` are the ids ever enqueued. `attempts` is history: how often each job was handed
      out since it was enqueued or last revived. */
  datatype System = System(
    jobs: JobMap,
    held: map<Worker, Job>,
    used: set<string>,
    attempts: map<string, nat>,
    now: Time
  )

  datatype Step =
    | Enqueue(job: Job)
    | Dequeue(worker: Worker, queue: string, taken: Option<Job>)
    | Finish(worker: Worker, outcome: Outcome)
    | RetryDead(queue: string)
    | ClearCompleted(queue: string)
    | Delete(id: string)
    | Tick(now: Time)

  ghost predicate Init(s: System) {
    s.jobs == map[] && s.held == map[] && s.used == {} && s.attempts == map[]
  }

  /** Enqueued jobs come from `Job::new` and its builders, whose ids are fresh UUIDs. */
  ghost predicate Next(s: System, step: Step, t: System) {
    match step
    case Enqueue(job) =>
      && job.IsBuilt()
      && job.id !in s.used
      && t == s.(jobs := s.jobs[job.id := job], used := s.used + {job.id}, attempts := s.attempts[job.id := 0])
    case Dequeue(worker, queue, taken) =>
      && worker !in s.held
      && Dequeued(s.jobs, queue, s.now, t.jobs, taken)
      && match taken {
           case None =>
             t == s
           case Some(job) =>
             && job.id in s.attempts
             && t == s.(
                       jobs := t.jobs,
                       held := s.held[worker := job],
                       attempts := s.attempts[job.id := s.attempts[job.id] + 1])
         }
    case Finish(worker, outcome) =>
      && worker in s.held
      && var job := s.held[worker].Settle(outcome, s.now);
      t == s.(jobs := s.jobs[job.id := job], held := s.held - {worker})
    case RetryDead(queue) =>
      t == s.(
             jobs := Revive(s.jobs, queue),
             attempts := map id | id in s.attempts ::
                 if id in s.jobs && IsDeadIn(s.jobs[id], queue) then 0 else s.attempts[id])
    case ClearCompleted(queue) =>
      t == s.(jobs := s.jobs - CompletedIn(s.jobs, queue))
    case Delete(id) =>
      t == s.(jobs := s.jobs - {id})
    case Tick(now) =>
      t == s.(now := now)
  }

  /** `states` is what a system goes through when it performs `steps`. */
  ghost predicate IsPath(states: seq<System>, steps: seq<Step>) {
    && |states| == |steps| + 1
    && forall i :: 0 <= i < |steps| ==> Next(states[i], steps[i], states[i + 1])
  }

  ghost predicate IsRun(states: seq<System>, steps: seq<Step>) {
    IsPath(states, steps) && Init(states[0])
  }

  ghost predicate Holds(s: System, worker: Worker, id: string) {
    worker in s.held && s.held[worker].id == id
  }

  ghost predicate IsHeld(s: System, id: string) {
    exists worker :: Holds(s, worker, id)
  }

  /** No two workers hold the same job. */
  ghost predicate Exclusive(s: System) {
    forall v, w, id :: Holds(s, v, id) && Holds(s, w, id) ==> v == w
  }

  /** A held copy is a running one and, unless the job was deleted meanwhile, equals the stored one. */
  ghost predicate CopiesAgree(s: System) {
    forall w :: w in s.held ==>
                  && s.held[w].status == Running
                  && (s.held[w].id in s.jobs ==> s.jobs[s.held[w].id] == s.held[w])
  }

  /** A stored job that is running is in some worker's hands. */
  ghost predicate RunningIsHeld(s: System) {
    forall id :: id in s.jobs && s.jobs[id].status == Running ==> IsHeld(s, id)
  }

  ghost predicate IdsKnown(s: System) {
    && Keyed(s.jobs)
    && s.attempts.Keys == s.used
    && s.jobs.Keys <= s.used
    && forall w :: w in s.held ==> s.held[w].id in s.used
  }

  /** Every stored and every held job accounts for its attempts. */
  ghost predicate Accounted(s: System)
    requires IdsKnown(s)
  {
    && (forall id :: id in s.jobs ==> s.jobs[id].Accounts(s.attempts[id]))
    && (forall w :: w in s.held ==> s.held[w].Accounts(s.attempts[s.held[w].id]))
  }

  ghost predicate Inv(s: System) {
    IdsKnown(s) && Exclusive(s) && CopiesAgree(s) && RunningIsHeld(s) && Accounted(s)
  }

  lemma EnqueueKeepsInv(s: System, step: Step, t: System)
    requires Inv(s) && step.Enqueue? && Next(s, step, t)
    ensures Inv(t)
  {
    forall w, id | Holds(t, w, id)
      ensures Holds(s, w, id)
    {
    }
    forall id | IsHeld(s, id)
      ensures IsHeld(t, id)
    {
      var w :| Holds(s, w, id);
      assert Holds(t, w, id);
    }
  }

  lemma DequeueKeepsInv(s: System, step: Step, t: System)
    requires Inv(s) && step.Dequeue? && step.taken.Some? && Next(s, step, t)
    ensures Inv(t)
  {
    var job := step.taken.value;
    forall w, id | Holds(t, w, id)
      ensures if w == step.worker then id == job.id else Holds(s, w, id) && id != job.id
    {
    }
    forall id | IsHeld(s, id) || id == job.id
      ensures IsHeld(t, id)
    {
      if id == job.id {
        assert Holds(t, step.worker, id);
      } else {
        var w :| Holds(s, w, id);
        assert Holds(t, w, id);
      }
    }
  }

  lemma FinishKeepsInv(s: System, step: Step, t: System)
    requires Inv(s) && step.Finish? && Next(s, step, t)
    ensures Inv(t)
  {
    forall w, id | Holds(t, w, id)
      ensures Holds(s, w, id) && id != s.held[step.worker].id
    {
      assert Holds(s, w, id);
      assert Holds(s, step.worker, s.held[step.worker].id);
    }
    forall w | w in t.held
      ensures t.held[w].id != s.held[step.worker].id
    {
      assert Holds(t, w, t.held[w].id);
    }
    forall id | IsHeld(s, id) && id != s.held[step.worker].id
      ensures IsHeld(t, id)
    {
      var w :| Holds(s, w, id);
      assert Holds(t, w, id);
    }
  }

  /** Calls of the queue that no worker takes part in leave all holdings as they are. */
  lemma QueueCallKeepsHoldings(s: System, step: Step, t: System)
    requires Next(s, step, t) && (step.RetryDead? || step.ClearCompleted? || step.Delete? || step.Tick?)
    ensures t.held == s.held
    ensures forall w, id :: Holds(t, w, id) == Holds(s, w, id)
    ensures forall id :: IsHeld(t, id) == IsHeld(s, id)
  {
    assert forall w, id :: Holds(t, w, id) == Holds(s, w, id);
    forall id
      ensures IsHeld(t, id) == IsHeld(s, id)
    {
      if w :| Holds(s, w, id) {
        assert Holds(t, w, id);
      }
      if w :| Holds(t, w, id) {
        assert Holds(s, w, id);
      }
    }
  }

  lemma RemovalKeepsInv(s: System, step: Step, t: System)
    requires Inv(s) && Next(s, step, t) && (step.ClearCompleted? || step.Delete? || step.Tick?)
    ensures Inv(t)
  {
    hide Holds, IsHeld, Job.Accounts;
    QueueCallKeepsHoldings(s, step, t);
  }

  lemma RevivalKeepsInv(s: System, step: Step, t: System)
    requires Inv(s) && Next(s, step, t) && step.RetryDead?
    ensures Inv(t)
  {
    hide Holds, IsHeld;
    QueueCallKeepsHoldings(s, step, t);
  }

  lemma StepKeepsInv(s: System, step: Step, t: System)
    requires Inv(s) && Next(s, step, t)
    ensures Inv(t)
  {
    match step {
      case Enqueue(_) => EnqueueKeepsInv(s, step, t);
      case Dequeue(_, _, taken) => if taken.Some? { DequeueKeepsInv(s, step, t); }
      case Finish(_, _) => FinishKeepsInv(s, step, t);
      case RetryDead(_) => RevivalKeepsInv(s, step, t);
      case _ => RemovalKeepsInv(s, step, t);
    }
  }

  lemma {:induction false} PathKeepsInv(states: seq<System>, steps: seq<Step>, i: nat)
    requires IsPath(states, steps) && Inv(states[0]) && i < |states|
    ensures Inv(states[i])
  {
    if i > 0 {
      PathKeepsInv(states, steps, i - 1);
      StepKeepsInv(states[i - 1], steps[i - 1], states[i]);
    }
  }

  lemma RunKeepsInv(states: seq<System>, steps: seq<Step>, i: nat)
    requires IsRun(states, steps) && i < |states|
    ensures Inv(states[i])
  {
    PathKeepsInv(states, steps, i);
  }

  /** In every state of every run, at most one worker holds a given job, and a stored job is
      Running exactly when someone holds it. */
  lemma MutualExclusion(states: seq<System>, steps: seq<Step>, i: nat, v: Worker, w: Worker)
    requires IsRun(states, steps) && i < |states|
    ensures v in states[i].held && w in states[i].held && v != w ==> states[i].held[v].id != states[i].held[w].id
    ensures forall id :: id in states[i].jobs ==> (states[i].jobs[id].status == Running <==> IsHeld(states[i], id))
  {
    RunKeepsInv(states, steps, i);
    var s := states[i];
    if v in s.held && w in s.held && s.held[v].id == s.held[w].id {
      assert Holds(s, v, s.held[v].id) && Holds(s, w, s.held[v].id);
    }
  }

  lemma {:induction false} HeldJobsStayStored(states: seq<System>, steps: seq<Step>, i: nat)
    requires IsRun(states, steps) && i < |states|
    requires forall k :: 0 <= k < i ==> !steps[k].Delete?
    ensures forall w :: w in states[i].held ==> states[i].held[w].id in states[i].jobs
  {
    if i > 0 {
      HeldJobsStayStored(states, steps, i - 1);
      RunKeepsInv(states, steps, i - 1);
      assert Next(states[i - 1], steps[i - 1], states[i]);
    }
  }

  /** While nobody deletes jobs, the jobs in workers' hands are exactly the stored Running ones. */
  lemma HeldIffRunning(states: seq<System>, steps: seq<Step>, i: nat, id: string)
    requires IsRun(states, steps) && i < |states|
    requires forall k :: 0 <= k < i ==> !steps[k].Delete?
    ensures IsHeld(states[i], id) <==> id in states[i].jobs && states[i].jobs[id].status == Running
  {
    RunKeepsInv(states, steps, i);
    HeldJobsStayStored(states, steps, i);
  }

  /** A worker's write-back never overwrites anybody else's change: what it replaces is the very
      copy it took, or the job has been deleted. */
  lemma NoLostUpdate(states: seq<System>, steps: seq<Step>, i: nat)
    requires IsRun(states, steps) && i < |steps| && steps[i].Finish?
    ensures var s := states[i];
            && steps[i].worker in s.held
            && var job := s.held[steps[i].worker];
               && (job.id in s.jobs ==> s.jobs[job.id] == job)
               && states[i + 1].jobs == s.jobs[job.id := job.Settle(steps[i].outcome, s.now)]
  {
    RunKeepsInv(states, steps, i);
    assert Next(states[i], steps[i], states[i + 1]);
  }

  // ---------- deletion ----------

  /** A job that was enqueued, is not stored and is in nobody's hands. */
  ghost predicate IsGone(s: System, id: string) {
    id in s.used && id !in s.jobs && !IsHeld(s, id)
  }

  lemma {:induction false} GoneStaysGone(states: seq<System>, steps: seq<Step>, id: string, k: nat)
    requires IsPath(states, steps) && Inv(states[0]) && IsGone(states[0], id) && k < |states|
    ensures IsGone(states[k], id)
  {
    if k > 0 {
      GoneStaysGone(states, steps, id, k - 1);
      PathKeepsInv(states, steps, k - 1);
      var s, step, t := states[k - 1], steps[k - 1], states[k];
      assert Next(s, step, t);
      if w :| Holds(t, w, id) {
        assert !Holds(s, w, id);
      }
      if step.Finish? {
        assert !Holds(s, step.worker, id);
      }
    }
  }

  /** The id is missing in every state of every continuation. */
  ghost predicate NeverReturns(t: System, id: string) {
    forall states: seq<System>, steps: seq<Step> ::
      IsPath(states, steps) && states[0] == t ==> forall k :: 0 <= k < |states| ==> id !in states[k].jobs
  }

  lemma OneStepReturns(t: System, step: Step, u: System, id: string)
    requires Next(t, step, u) && id in u.jobs
    ensures !NeverReturns(t, id)
  {
    var states, steps := [t, u], [step];
    assert IsPath(states, steps) && states[0] == t && id in states[1].jobs;
  }

  /** Deleting an id is for good if and only if its job was enqueued and nobody holds it at that moment: a worker that
      does writes the job back when its handler has answered. */
  lemma DeletionIsFinalIff(s: System, id: string, t: System)
    requires Inv(s) && Next(s, Delete(id), t)
    ensures NeverReturns(t, id) <==> id in s.used && !IsHeld(s, id)
  {
    StepKeepsInv(s, Delete(id), t);
    assert forall w :: Holds(s, w, id) <==> Holds(t, w, id);
    if w :| Holds(s, w, id) {
      var job := t.held[w].Settle(Succeeded, t.now);
      OneStepReturns(t, Finish(w, Succeeded), t.(jobs := t.jobs[job.id := job], held := t.held - {w}), id);
    } else if id !in s.used {
      var job := Job.New(id, "", "", t.now);
      var enqueued := t.(
        jobs := t.jobs[id := job], used := t.used + {id}, attempts := t.attempts[id := 0]);
      OneStepReturns(t, Enqueue(job), enqueued, id);
    } else {
      forall states: seq<System>, steps: seq<Step>, k | IsPath(states, steps) && states[0] == t && 0 <= k < |states|
        ensures id !in states[k].jobs
      {
        GoneStaysGone(states, steps, id, k);
      }
    }
  }

  // ---------- retry accounting ----------

  /** How often `id` was handed out along a path, counting afresh whenever it is enqueued or revived. */
  ghost function HandOuts(states: seq<System>, steps: seq<Step>, id: string): nat
    requires |states| == |steps| + 1
    decreases |steps|
  {
    if steps == [] then 0
    else
      var last := |steps| - 1;
      var before := HandOuts(states[..last + 1], steps[..last], id);
      match steps[last]
      case Enqueue(job) => if job.id == id then 0 else before
      case Dequeue(_, _, taken) => if taken.Some? && taken.value.id == id then before + 1 else before
      case RetryDead(queue) =>
        if id in states[last].jobs && IsDeadIn(states[last].jobs[id], queue) then 0 else before
      case _ => before
  }

  lemma {:induction false} AttemptsCountHandOuts(states: seq<System>, steps: seq<Step>, id: string)
    requires IsRun(states, steps) && id in states[|steps|].used
    ensures id in states[|steps|].attempts && states[|steps|].attempts[id] == HandOuts(states, steps, id)
    decreases |steps|
  {
    RunKeepsInv(states, steps, |steps|);
    if steps != [] {
      var last := |steps| - 1;
      assert Next(states[last], steps[last], states[last + 1]);
      if id in states[last].used {
        AttemptsCountHandOuts(states[..last + 1], steps[..last], id);
      }
    }
  }

  /** In every state of every run the retries of a stored job tell how often it was handed out since it was
      enqueued or last revived: never while Pending, `retries` times while waiting for a retry,
      `retries + 1` times while Running or once Completed, `max_retries + 1` times when Dead.
      No job is handed out more often, and none is ever Failed. */
  lemma RetryAccounting(states: seq<System>, steps: seq<Step>, id: string)
    requires IsRun(states, steps) && id in states[|steps|].jobs
    ensures var job := states[|steps|].jobs[id];
            var handOuts := HandOuts(states, steps, id);
            && handOuts <= job.maxRetries + 1
            && job.status != Failed
            && (job.status == Pending <==> handOuts == 0)
            && (job.status == Running || job.status == Completed ==> handOuts == job.retries + 1)
            && (job.status == Retrying ==> handOuts == job.retries >= 1)
            && (job.status == Dead ==> handOuts == job.maxRetries + 1 == job.retries + 1)
  {
    RunKeepsInv(states, steps, |steps|);
    AttemptsCountHandOuts(states, steps, id);
  }

  ghost predicate RetryScheduled(job: Job) {
    job.status == Retrying ==>
      && 1 <= job.retries <= job.maxRetries
      && job.finishedAt.Some?
      && job.runAt == Some(job.finishedAt.value + BackoffSeconds(job.retries))
  }

  lemma {:induction false} RetriesAreScheduled(states: seq<System>, steps: seq<Step>, i: nat)
    requires IsRun(states, steps) && i < |states|
    ensures forall id :: id in states[i].jobs ==> RetryScheduled(states[i].jobs[id])
  {
    if i > 0 {
      RetriesAreScheduled(states, steps, i - 1);
      RunKeepsInv(states, steps, i - 1);
      assert Next(states[i - 1], steps[i - 1], states[i]);
    }
  }

  /** In every run a waiting job is due exactly 2^retries minutes after its failure if and only if it waits for at most
      its 57th retry. */
  lemma BackoffIsExponential(states: seq<System>, steps: seq<Step>, i: nat, id: string)
    requires IsRun(states, steps) && i < |states|
    requires id in states[i].jobs && states[i].jobs[id].status == Retrying
    ensures var job := states[i].jobs[id];
            && job.finishedAt.Some?
            && (job.runAt == Some(job.finishedAt.value + Pow2(job.retries) * 60)
                <==> job.retries <= LAST_EXACT_BACKOFF)
  {
    RetriesAreScheduled(states, steps, i);
    BackoffExactIff(states[i].jobs[id].retries);
  }

  /** Retries are on time. In every run a job that waits for one of its first 57 retries is not taken earlier than
      2^retries minutes after it failed, and from then on no dequeue of its queue comes back empty while it waits. */
  lemma RetriesAreOnTime(states: seq<System>, steps: seq<Step>, i: nat, id: string, step: Step, next: System)
    requires IsRun(states, steps) && i < |states|
    requires id in states[i].jobs && states[i].jobs[id].status == Retrying
    requires states[i].jobs[id].retries <= LAST_EXACT_BACKOFF
    requires step.Dequeue? && step.queue == states[i].jobs[id].queue && Next(states[i], step, next)
    ensures var s, job := states[i], states[i].jobs[id];
            && job.finishedAt.Some?
            && var due := job.finishedAt.value + Pow2(job.retries) * 60;
               && (step.taken.Some? && step.taken.value.id == id ==> due <= s.now)
               && (step.taken.None? ==> s.now < due)
  {
    var s := states[i];
    RunKeepsInv(states, steps, i);
    BackoffIsExponential(states, steps, i, id);
    DequeueMeans(s.jobs, step.queue, s.now, next.jobs, step.taken);
  }

  /** And from then on any idle worker may take it, once no Pending job of the queue could be taken instead. */
  lemma DueRetryMayBeTaken(states: seq<System>, steps: seq<Step>, i: nat, id: string, worker: Worker)
    requires IsRun(states, steps) && i < |states|
    requires id in states[i].jobs && states[i].jobs[id].status == Retrying
    requires states[i].jobs[id].retries <= LAST_EXACT_BACKOFF
    requires states[i].jobs[id].finishedAt.Some?
             ==> states[i].jobs[id].finishedAt.value + Pow2(states[i].jobs[id].retries) * 60 <= states[i].now
    requires worker !in states[i].held && NonePendingDue(states[i], states[i].jobs[id].queue)
    ensures MayTake(states[i], worker, states[i].jobs[id].queue, id)
  {
    var s, job := states[i], states[i].jobs[id];
    RunKeepsInv(states, steps, i);
    BackoffIsExponential(states, steps, i, id);
    var taken := job.MarkRunning(s.now);
    var t := s.(
      jobs := s.jobs[id := taken], held := s.held[worker := taken],
      attempts := s.attempts[id := s.attempts[id] + 1]);
    DequeueMeans(s.jobs, job.queue, s.now, t.jobs, Some(taken));
    assert Next(s, Dequeue(worker, job.queue, Some(taken)), t);
  }

  /** No Pending job of the queue could be taken now. */
  ghost predicate NonePendingDue(s: System, queue: string) {
    forall id :: id in s.jobs && s.jobs[id].queue == queue && s.jobs[id].status == Pending
                 ==> s.jobs[id].runAt.Some? && s.now < s.jobs[id].runAt.value
  }

  ghost predicate MayTake(s: System, worker: Worker, queue: string, id: string) {
    exists job: Job, t: System :: job.id == id && Next(s, Dequeue(worker, queue, Some(job)), t)
  }

  // ---------- draining ----------

  /** What job `id` may still cost the workers of `queue`, wherever its latest copy is. */
  ghost function Cost(s: System, queue: string, id: string): nat
    requires Inv(s)
  {
    if id in s.jobs then
      if s.jobs[id].queue == queue then s.jobs[id].Budget() else 0
    else if IsHeld(s, id) then
      var w :| Holds(s, w, id);
      if s.held[w].queue == queue then s.held[w].Budget() else 0
    else 0
  }

  ghost function Costs(s: System, queue: string): map<string, nat>
    requires Inv(s)
  {
    map id | id in s.used :: Cost(s, queue, id)
  }

  /** The cost of a held job is that of the copy its holder has. */
  lemma CostOfHeld(s: System, queue: string, w: Worker)
    requires Inv(s) && w in s.held
    ensures Cost(s, queue, s.held[w].id) == if s.held[w].queue == queue then s.held[w].Budget() else 0
  {
    assert Holds(s, w, s.held[w].id);
  }

  ghost predicate Drains(step: Step) {
    !step.Enqueue? && !step.RetryDead?
  }

  ghost predicate Takes(step: Step, queue: string) {
    step.Dequeue? && step.queue == queue && step.taken.Some?
  }

  /** A job in a worker's hands costs no more after any step, settled or not. */
  lemma HeldCostDoesNotRise(s: System, step: Step, t: System, queue: string, w: Worker)
    requires Inv(s) && Inv(t) && Next(s, step, t) && Drains(step)
    requires w in s.held
    ensures Cost(t, queue, s.held[w].id) <= Cost(s, queue, s.held[w].id)
    ensures Takes(step, queue) ==> s.held[w].id != step.taken.value.id
  {
    hide Accounted, RunningIsHeld;
    var id := s.held[w].id;
    CostOfHeld(s, queue, w);
    assert Holds(s, w, id);
    if w in t.held {
      CostOfHeld(t, queue, w);
    } else {
      assert step == Finish(w, step.outcome);
    }
  }

  /** Taking a job spends one unit of its budget. */
  lemma TakingCosts(s: System, step: Step, t: System, queue: string)
    requires Inv(s) && Inv(t) && Next(s, step, t) && step.Dequeue? && step.taken.Some?
    ensures step.taken.value.id in s.jobs
    ensures Cost(t, queue, step.taken.value.id) + (if step.queue == queue then 1 else 0)
            == Cost(s, queue, step.taken.value.id)
  {
    CostOfHeld(t, queue, step.worker);
    var id := step.taken.value.id;
    BudgetSpent(s.jobs[id], s.attempts[id], Succeeded, s.now, s.now);
  }

  /** No step of a draining system raises any job's cost. */
  lemma CostsDoNotRise(s: System, step: Step, t: System, queue: string, id: string)
    requires Inv(s) && Inv(t) && Next(s, step, t) && Drains(step)
    requires id in s.used
    ensures Cost(t, queue, id) <= Cost(s, queue, id)
    ensures Takes(step, queue) && id == step.taken.value.id ==> Cost(t, queue, id) + 1 <= Cost(s, queue, id)
  {
    if w :| Holds(s, w, id) {
      HeldCostDoesNotRise(s, step, t, queue, w);
    } else if step.Dequeue? && step.taken.Some? && step.taken.value.id == id {
      TakingCosts(s, step, t, queue);
    } else {
      FreeCostDoesNotRise(s, step, t, queue, id);
    }
  }

  lemma FreeCostDoesNotRise(s: System, step: Step, t: System, queue: string, id: string)
    requires Inv(s) && Inv(t) && Next(s, step, t) && Drains(step)
    requires id in s.used && !IsHeld(s, id)
    requires !(step.Dequeue? && step.taken.Some? && step.taken.value.id == id)
    ensures Cost(t, queue, id) <= Cost(s, queue, id)
  {
    hide Accounted, CopiesAgree, RunningIsHeld, Job.Budget;
    if step.Finish? {
      assert Holds(s, step.worker, s.held[step.worker].id);
    }
    forall w
      ensures !Holds(t, w, id)
    {
      assert !Holds(s, w, id);
    }
    assert id in t.jobs ==> id in s.jobs && t.jobs[id] == s.jobs[id];
  }

  ghost function Taken(steps: seq<Step>, queue: string): nat {
    if steps == [] then 0
    else Taken(steps[..|steps| - 1], queue) + if Takes(steps[|steps| - 1], queue) then 1 else 0
  }

  /** A draining step pays for the job it takes, if it takes one. */
  lemma StepPays(s: System, step: Step, t: System, queue: string)
    requires Inv(s) && Inv(t) && Next(s, step, t) && Drains(step)
    ensures Total(Costs(t, queue)) + (if Takes(step, queue) then 1 else 0) <= Total(Costs(s, queue))
  {
    hide Inv, Cost;
    assert s.used == t.used;
    forall id | id in s.used
      ensures Cost(t, queue, id) <= Cost(s, queue, id)
      ensures Takes(step, queue) && id == step.taken.value.id ==> Cost(t, queue, id) + 1 <= Cost(s, queue, id)
    {
      CostsDoNotRise(s, step, t, queue, id);
    }
    if Takes(step, queue) {
      TakenIsUsed(s, step, t);
      TotalDrops(Costs(t, queue), Costs(s, queue), step.taken.value.id, 1);
    } else {
      TotalMonotone(Costs(t, queue), Costs(s, queue));
    }
  }

  lemma TakenIsUsed(s: System, step: Step, t: System)
    requires Inv(s) && Next(s, step, t) && step.Dequeue? && step.taken.Some?
    ensures step.taken.value.id in s.used
  {
  }

  lemma {:induction false} DrainPays(states: seq<System>, steps: seq<Step>, queue: string)
    requires IsPath(states, steps) && Inv(states[0])
    requires forall k :: 0 <= k < |steps| ==> Drains(steps[k])
    ensures Inv(states[|steps|])
    ensures Taken(steps, queue) + Total(Costs(states[|steps|], queue)) <= Total(Costs(states[0], queue))
    decreases |steps|
  {
    hide Inv, Next, Costs, Drains, Takes;
    PathKeepsInv(states, steps, |steps|);
    if steps != [] {
      var last := |steps| - 1;
      PathKeepsInv(states, steps, last);
      DrainPays(states[..last + 1], steps[..last], queue);
      StepPays(states[last], steps[last], states[last + 1], queue);
    }
  }

  /** Without enqueues and revivals, all workers together take jobs from a queue at most as often as its
      jobs have budget left, however they interleave with each other and with deletions. From a moment when
      nobody holds a job of the queue that is the sum of `max_retries - retries + 1` over its
      Pending and Retrying jobs. */
  lemma DrainTerminates(states: seq<System>, steps: seq<Step>, queue: string)
    requires IsPath(states, steps) && Inv(states[0])
    requires forall k :: 0 <= k < |steps| ==> Drains(steps[k])
    requires forall w :: w in states[0].held ==> states[0].held[w].queue != queue
    ensures WithinRetries(states[0].jobs)
    ensures Taken(steps, queue) <= Total(WaitingBudget(states[0].jobs, queue))
  {
    DrainPays(states, steps, queue);
    var s := states[0];
    var waiting := WaitingBudget(s.jobs, queue);
    var padded := map id | id in s.used :: if id in waiting then waiting[id] else 0;
    forall id | id in s.used
      ensures Cost(s, queue, id) <= padded[id]
    {
      if exists w :: Holds(s, w, id) {
        var w :| Holds(s, w, id);
        CostOfHeld(s, queue, w);
      }
    }
    TotalMonotone(Costs(s, queue), padded);
    TotalIgnoresZeros(padded, waiting);
  }

  /** `max_retries - retries + 1` for every Pending or Retrying job of the queue. */
  ghost function WaitingBudget(jobs: JobMap, queue: string): map<string, nat>
    requires WithinRetries(jobs)
  {
    map id | id in jobs && jobs[id].queue == queue && (jobs[id].status == Pending || jobs[id].status == Retrying)
      :: jobs[id].maxRetries - jobs[id].retries + 1
  }

  /** Once nobody holds a job of the queue and a dequeue comes back empty although every waiting
      job is due, all jobs of the queue have come to rest. */
  lemma IdleMeansDone(s: System, queue: string, worker: Worker, t: System, id: string)
    requires Inv(s) && Next(s, Dequeue(worker, queue, None), t)
    requires forall w :: w in s.held ==> s.held[w].queue != queue
    requires id in s.jobs && s.jobs[id].queue == queue
    requires s.jobs[id].runAt.Some? ==> s.jobs[id].runAt.value <= s.now
    ensures s.jobs[id].status == Completed || s.jobs[id].status == Dead
  {
  }

  /** Workers, enqueues and revivals never lose a job: one that is gone from the store was
      deleted, or was cleared after it had completed. */
  lemma {:induction false} NoJobLost(states: seq<System>, steps: seq<Step>, id: string)
    requires IsRun(states, steps) && id in states[|steps|].used
    ensures id in states[|steps|].jobs
            || exists k :: 0 <= k < |steps| && Removes(states[k], steps[k], id)
    decreases |steps|
  {
    if steps != [] && id !in states[|steps|].jobs {
      var last := |steps| - 1;
      assert Next(states[last], steps[last], states[last + 1]);
      RunKeepsInv(states, steps, last);
      if !Removes(states[last], steps[last], id) {
        NoJobLost(states[..last + 1], steps[..last], id);
        var k :| 0 <= k < last && Removes(states[..last + 1][k], steps[..last][k], id);
        assert Removes(states[k], steps[k], id);
      }
    }
  }

  ghost predicate Removes(s: System, step: Step, id: string) {
    || step == Delete(id)
    || (step.ClearCompleted? && id in s.jobs && s.jobs[id].queue == step.queue && s.jobs[id].status == Completed)
  }

  /** What a step does to one job, in terms of its fields. */
  lemma StepChanges(s: System, step: Step, t: System, id: string)
    requires Inv(s) && Next(s, step, t) && id in s.jobs
    ensures id !in t.jobs <==> Removes(s, step, id)
    ensures id in t.jobs ==>
              var was, now := s.jobs[id], t.jobs[id];
              match step
              case Dequeue(_, _, taken) =>
                now == if taken.Some? && taken.value.id == id
                       then was.(status := Running, startedAt := Some(s.now)) else was
              case Finish(w, outcome) =>
                if s.held[w].id == id
                then was.status == Running && (now.status == Completed <==> outcome.Succeeded?)
                     && now.finishedAt == Some(s.now)
                else now == was
              case RetryDead(queue) =>
                now == if was.queue == queue && was.status == Dead
                       then was.(status := Pending, retries := 0, error := None, runAt := None) else was
              case _ => now == was
  {
  }

  /** A job comes into the store as it was enqueued, or back from the worker that holds it. */
  lemma StepAdds(s: System, step: Step, t: System, id: string)
    requires Inv(s) && Next(s, step, t) && id !in s.jobs
    ensures id in t.jobs <==>
            || (step.Enqueue? && step.job.id == id)
            || (step.Finish? && s.held[step.worker].id == id)
    ensures step.Enqueue? && step.job.id == id ==> t.jobs[id] == step.job && id !in s.used
    ensures step.Finish? && s.held[step.worker].id == id ==>
              t.jobs[id] == s.held[step.worker].Settle(step.outcome, s.now)
  {
  }

  // ---------- the worker of the code is a worker of the system ----------

  /** A whole `process_one` is a dequeue, some time, and the write-back. */
  lemma RoundIsThreeSteps(
    s: System, worker: Worker, queue: string, end: Time,
    handlers: set<string>, answer: (string, string) -> Outcome, after: JobMap)
    returns (states: seq<System>, steps: seq<Step>)
    requires Inv(s) && worker !in s.held
    requires Processed(s.jobs, queue, s.now, end, handlers, answer, after, true)
    ensures IsPath(states, steps) && |steps| == 3 && states[0] == s
    ensures Takes(steps[0], queue) && steps[1].Tick? && steps[2].Finish?
    ensures steps[0].worker == steps[2].worker == worker
    ensures states[3].jobs == after && states[3].held == s.held && states[3].now == end
  {
    hide Accounted, RunningIsHeld, CopiesAgree, Exclusive, Verdict;
    var id :| Pickable(s.jobs, queue, s.now, id) && after == Settled(s.jobs, id, s.now, end, handlers, answer);
    var job := s.jobs[id].MarkRunning(s.now);
    var outcome := Verdict(handlers, answer, s.jobs[id]);
    var taken := s.(
      jobs := s.jobs[id := job],
      held := s.held[worker := job],
      attempts := s.attempts[id := s.attempts[id] + 1]);
    var later := taken.(now := end);
    var done := later.(jobs := later.jobs[id := job.Settle(outcome, end)], held := later.held - {worker});
    assert done.held == s.held && done.jobs == after;
    states := [s, taken, later, done];
    steps := [Dequeue(worker, queue, Some(job)), Tick(end), Finish(worker, outcome)];
    assert Next(s, steps[0], taken) && Next(taken, steps[1], later) && Next(later, steps[2], done);
  }
}
