/** What happens to the jobs in every run of the delivery system: they are conserved, they are lost only to
    stopped workers, and the handler calls they cost are accounted for. */
module JobFlow {
  import opened Basics
  import opened Events
  import opened Queue
  import opened Worker
  import opened Outbox
  import opened Delivery

  // ---- Adding up jobs ----

  /** The job as it was first enqueued: attempts not counted. */
  function Root(job: Job): Job {
    job.(attempt := 0)
  }

  function Roots(jobs: seq<Job>): seq<Job> {
    seq(|jobs|, k requires 0 <= k < |jobs| => Root(jobs[k]))
  }

  function DeadJobs(dead: seq<DeadLetter>): seq<Job> {
    seq(|dead|, k requires 0 <= k < |dead| => dead[k].job)
  }

  /** How many of the jobs are x, attempts aside. */
  function Copies(jobs: seq<Job>, x: Job): nat {
    multiset(Roots(jobs))[x]
  }

  /** What to add up over jobs. */
  datatype Measure =
    | CopiesOf(x: Job)
    | CarriersOf(e: string)
    | CallsMade
    | CallsLeft(maxAttempts: int)

  function Value(m: Measure, job: Job): int {
    match m
    case CopiesOf(x) => if Root(job) == x then 1 else 0
    case CarriersOf(e) => if EventOf(job) == Some(e) then 1 else 0
    case CallsMade => job.attempt + 1
    case CallsLeft(maxAttempts) => JobBudget(job, maxAttempts) - 1
  }

  /** A retry does not change what the measure says of a job. */
  predicate Conservable(m: Measure) {
    m.CopiesOf? || m.CarriersOf?
  }

  function Sum(m: Measure, jobs: seq<Job>): int {
    if |jobs| == 0 then 0 else Sum(m, jobs[..|jobs| - 1]) + Value(m, jobs[|jobs| - 1])
  }

  function ValueHeld(m: Measure, held: Option<Job>): int {
    if held.Some? then Value(m, held.value) else 0
  }

  function InFlight(m: Measure, workers: seq<Option<Job>>): int {
    if |workers| == 0 then 0 else ValueHeld(m, workers[0]) + InFlight(m, workers[1..])
  }

  lemma {:induction false} InFlightUpdate(m: Measure, workers: seq<Option<Job>>, w: nat, o: Option<Job>)
    requires w < |workers|
    ensures InFlight(m, workers[w := o]) == InFlight(m, workers) + ValueHeld(m, o) - ValueHeld(m, workers[w])
  {
    if w == 0 {
      assert workers[0 := o][1..] == workers[1..];
    } else {
      InFlightUpdate(m, workers[1..], w - 1, o);
      assert workers[w := o][1..] == workers[1..][w - 1 := o];
    }
  }

  lemma {:induction false} NothingInFlight(m: Measure, workers: seq<Option<Job>>)
    requires forall w :: 0 <= w < |workers| ==> workers[w].None?
    ensures InFlight(m, workers) == 0
  {
    if |workers| == 0 {
    } else {
      NothingInFlight(m, workers[1..]);
    }
  }

  lemma SumOfAppend(m: Measure, jobs: seq<Job>, job: Job)
    ensures Sum(m, jobs + [job]) == Sum(m, jobs) + Value(m, job)
  {
    assert (jobs + [job])[..|jobs|] == jobs;
  }

  lemma {:induction false} SumOfPop(m: Measure, jobs: seq<Job>)
    requires |jobs| > 0
    ensures Sum(m, jobs) == Value(m, jobs[0]) + Sum(m, jobs[1..])
  {
    var front, last := jobs[..|jobs| - 1], jobs[|jobs| - 1];
    if |front| == 0 {
      assert jobs[1..] == [];
    } else {
      SumOfPop(m, front);
      assert jobs[1..] == front[1..] + [last];
      SumOfAppend(m, front[1..], last);
    }
  }

  lemma {:induction false} CopiesAreSum(jobs: seq<Job>, x: Job)
    ensures Copies(jobs, x) == Sum(CopiesOf(x), jobs)
  {
    if |jobs| == 0 {
      assert Roots(jobs) == [];
    } else {
      var front, last := jobs[..|jobs| - 1], jobs[|jobs| - 1];
      CopiesAreSum(front, x);
      assert Roots(jobs) == Roots(front) + [Root(last)];
    }
  }

  lemma {:induction false} SentForIsSum(jobs: seq<Job>, e: string)
    ensures SentFor(jobs, e) == Sum(CarriersOf(e), jobs)
  {
    if |jobs| == 0 {
    } else {
      SentForIsSum(jobs[..|jobs| - 1], e);
    }
  }

  lemma SentForAppend(jobs: seq<Job>, job: Job, e: string)
    ensures SentFor(jobs + [job], e) == SentFor(jobs, e) + (if EventOf(job) == Some(e) then 1 else 0)
  {
    assert (jobs + [job])[..|jobs|] == jobs;
  }

  // ---- Conservation of jobs ----

  /** The sum over the jobs still answered for: queued, in flight, handled or dead-lettered. */
  function Kept(m: Measure, s: System): int {
    Sum(m, s.queue.jobs) + InFlight(m, s.workers) + Sum(m, s.handled) + Sum(m, DeadJobs(s.queue.dead))
  }

  ghost predicate Balanced(m: Measure, s: System) {
    Sum(m, s.sent) == Kept(m, s) + Sum(m, s.lost)
  }

  lemma DeadJobsOfAppend(dead: seq<DeadLetter>, d: DeadLetter)
    ensures DeadJobs(dead + [d]) == DeadJobs(dead) + [d.job]
  {
  }

  lemma RejectBalanced(m: Measure, q: QueueState, job: Job, reason: string, retry: bool)
    requires Conservable(m)
    ensures var q' := InMemory(QueueOp.Reject(job, reason, retry), q).0;
            Sum(m, q'.jobs) + Sum(m, DeadJobs(q'.dead)) == Sum(m, q.jobs) + Sum(m, DeadJobs(q.dead)) + Value(m, job)
  {
    if retry {
      SumOfAppend(m, q.jobs, Retried(job));
    } else {
      DeadJobsOfAppend(q.dead, DeadLetter(job, reason));
      SumOfAppend(m, DeadJobs(q.dead), job);
    }
  }

  lemma FinishBalanced(m: Measure, s: System, w: nat, outcome: Outcome, maxAttempts: int)
    requires Conservable(m) && Balanced(m, s) && Enabled(s, Finish(w, outcome))
    ensures Balanced(m, Next(s, Finish(w, outcome), maxAttempts))
  {
    var job := s.workers[w].value;
    InFlightUpdate(m, s.workers, w, None);
    match outcome
    case Done => SumOfAppend(m, s.handled, job);
    case Raised(exception) => RejectBalanced(m, s.queue, job, exception, CanRetry(job, maxAttempts));
    case Stopped => SumOfAppend(m, s.lost, job);
  }

  lemma SendBalanced(m: Measure, s: System, p: nat, jobId: string, maxAttempts: int)
    requires Balanced(m, s) && Enabled(s, Send(p, jobId))
    ensures Balanced(m, Next(s, Send(p, jobId), maxAttempts))
  {
    var b := s.publishers[p].value;
    var job := JobFor(s.rows[b.selected[b.sent]], jobId);
    SumOfAppend(m, s.queue.jobs, job);
    SumOfAppend(m, s.sent, job);
  }

  lemma TakeBalanced(m: Measure, s: System, w: nat, maxAttempts: int)
    requires Balanced(m, s) && Enabled(s, Take(w))
    ensures Balanced(m, Next(s, Take(w), maxAttempts))
  {
    SumOfPop(m, s.queue.jobs);
    InFlightUpdate(m, s.workers, w, Some(s.queue.jobs[0]));
  }

  lemma StepBalanced(m: Measure, s: System, step: Step, maxAttempts: int)
    requires Conservable(m) && Balanced(m, s)
    ensures Balanced(m, Next(s, step, maxAttempts))
  {
    if Enabled(s, step) {
      match step
      case Send(p, jobId) => SendBalanced(m, s, p, jobId, maxAttempts);
      case Take(w) => TakeBalanced(m, s, w, maxAttempts);
      case Finish(w, outcome) => FinishBalanced(m, s, w, outcome, maxAttempts);
      case _ =>
    }
  }

  lemma {:induction false} ReachableBalanced(
      m: Measure, publishers: nat, workers: nat, steps: seq<Step>, maxAttempts: int)
    requires Conservable(m)
    ensures Balanced(m, Run(Init(publishers, workers), steps, maxAttempts))
  {
    if |steps| == 0 {
      NothingInFlight(m, Init(publishers, workers).workers);
    } else {
      var front := steps[..|steps| - 1];
      ReachableBalanced(m, publishers, workers, front, maxAttempts);
      StepBalanced(m, Run(Init(publishers, workers), front, maxAttempts), steps[|steps| - 1], maxAttempts);
    }
  }

  /** Copies the workers answer for: queued, in flight, handled or dead-lettered. */
  function CopiesKept(s: System, x: Job): int {
    Copies(s.queue.jobs, x) + InFlight(CopiesOf(x), s.workers)
    + Copies(s.handled, x) + Copies(DeadJobs(s.queue.dead), x)
  }

  /** For every job x, the copies ever enqueued are those queued, in flight, handled, dead-lettered or lost. */
  lemma JobsAreConserved(publishers: nat, workers: nat, steps: seq<Step>, maxAttempts: int, x: Job)
    ensures var s := Run(Init(publishers, workers), steps, maxAttempts);
            Copies(s.sent, x) == CopiesKept(s, x) + Copies(s.lost, x)
  {
    var s := Run(Init(publishers, workers), steps, maxAttempts);
    ReachableBalanced(CopiesOf(x), publishers, workers, steps, maxAttempts);
    CopiesAreSum(s.sent, x);
    CopiesAreSum(s.queue.jobs, x);
    CopiesAreSum(s.handled, x);
    CopiesAreSum(DeadJobs(s.queue.dead), x);
    CopiesAreSum(s.lost, x);
  }

  // ---- No job is in two places ----

  /** The job ids a publisher draws are pairwise distinct. */
  ghost predicate DistinctIds(sent: seq<Job>) {
    forall i, j :: 0 <= i < j < |sent| ==> sent[i].jobId != sent[j].jobId
  }

  lemma {:induction false} SentIdsDistinct(publishers: nat, workers: nat, steps: seq<Step>, maxAttempts: int)
    ensures DistinctIds(Run(Init(publishers, workers), steps, maxAttempts).sent)
  {
    if |steps| == 0 {
    } else {
      SentIdsDistinct(publishers, workers, steps[..|steps| - 1], maxAttempts);
    }
  }

  lemma {:induction false} CopiesOfDistinct(sent: seq<Job>, x: Job)
    requires DistinctIds(sent)
    ensures 0 <= Sum(CopiesOf(x), sent) <= 1
    ensures Sum(CopiesOf(x), sent) == 1 ==> exists k :: 0 <= k < |sent| && sent[k].jobId == x.jobId
  {
    if |sent| == 0 {
    } else {
      var front, last := sent[..|sent| - 1], sent[|sent| - 1];
      CopiesOfDistinct(front, x);
      if k :| 0 <= k < |front| && front[k].jobId == x.jobId {
        assert sent[k].jobId == x.jobId && last.jobId != x.jobId;
      } else if Root(last) == x {
        assert sent[|front|].jobId == x.jobId;
      }
    }
  }

  /** No job is ever in two places at once, or twice in one. */
  lemma EachJobInOnePlace(publishers: nat, workers: nat, steps: seq<Step>, maxAttempts: int, x: Job)
    ensures var s := Run(Init(publishers, workers), steps, maxAttempts);
            CopiesKept(s, x) + Copies(s.lost, x) <= 1
  {
    var s := Run(Init(publishers, workers), steps, maxAttempts);
    SentIdsDistinct(publishers, workers, steps, maxAttempts);
    CopiesOfDistinct(s.sent, x);
    CopiesAreSum(s.sent, x);
    JobsAreConserved(publishers, workers, steps, maxAttempts, x);
  }

  // ---- What is lost, and which published events survive ----

  /** The step stops a worker in the middle of a job. */
  predicate StopsMidJob(s: System, step: Step) {
    Enabled(s, step) && step.Finish? && step.outcome.Stopped?
  }

  /** How many steps of the run stop a worker in the middle of a job. */
  function Stops(s: System, steps: seq<Step>, maxAttempts: int): nat {
    if |steps| == 0 then 0
    else
      var front, step := steps[..|steps| - 1], steps[|steps| - 1];
      Stops(s, front, maxAttempts) + (if StopsMidJob(Run(s, front, maxAttempts), step) then 1 else 0)
  }

  /** How many steps of the run stop a worker in the middle of a job that carries the event. */
  function StopsOn(s: System, steps: seq<Step>, maxAttempts: int, e: string): nat {
    if |steps| == 0 then 0
    else
      var front, step := steps[..|steps| - 1], steps[|steps| - 1];
      var before := Run(s, front, maxAttempts);
      StopsOn(s, front, maxAttempts, e) +
      (if StopsMidJob(before, step) && EventOf(before.workers[step.w].value) == Some(e) then 1 else 0)
  }

  lemma StepLoses(s: System, step: Step, maxAttempts: int)
    ensures Next(s, step, maxAttempts).lost
         == if StopsMidJob(s, step) then s.lost + [s.workers[step.w].value] else s.lost
  {
  }

  /** Every stop in the middle of a job loses that job, and nothing else loses one. */
  lemma {:induction false} LostExactlyToStops(
      publishers: nat, workers: nat, steps: seq<Step>, maxAttempts: int, e: string)
    ensures var s := Run(Init(publishers, workers), steps, maxAttempts);
            && |s.lost| == Stops(Init(publishers, workers), steps, maxAttempts)
            && SentFor(s.lost, e) == StopsOn(Init(publishers, workers), steps, maxAttempts, e)
  {
    if |steps| == 0 {
    } else {
      var front, step := steps[..|steps| - 1], steps[|steps| - 1];
      var before := Run(Init(publishers, workers), front, maxAttempts);
      LostExactlyToStops(publishers, workers, front, maxAttempts, e);
      StepLoses(before, step, maxAttempts);
      if StopsMidJob(before, step) {
        SentForAppend(before.lost, before.workers[step.w].value, e);
      }
    }
  }

  ghost predicate Carries(jobs: seq<Job>, e: string) {
    exists k :: 0 <= k < |jobs| && EventOf(jobs[k]) == Some(e)
  }

  ghost predicate HeldFor(workers: seq<Option<Job>>, e: string) {
    exists w :: 0 <= w < |workers| && workers[w].Some? && EventOf(workers[w].value) == Some(e)
  }

  /** A queued, in-flight, handled or dead-lettered job carries the event. */
  ghost predicate KeptFor(s: System, e: string) {
    || Carries(s.queue.jobs, e)
    || HeldFor(s.workers, e)
    || Carries(s.handled, e)
    || Carries(DeadJobs(s.queue.dead), e)
  }

  lemma {:induction false} CarriesIffCounted(jobs: seq<Job>, e: string)
    ensures Sum(CarriersOf(e), jobs) >= 0
    ensures Carries(jobs, e) <==> Sum(CarriersOf(e), jobs) > 0
  {
    if |jobs| == 0 {
    } else {
      var front, last := jobs[..|jobs| - 1], jobs[|jobs| - 1];
      CarriesIffCounted(front, e);
      if k :| 0 <= k < |front| && EventOf(front[k]) == Some(e) {
        assert jobs[k] == front[k];
      } else if EventOf(last) == Some(e) {
        assert jobs[|front|] == last;
      }
    }
  }

  lemma {:induction false} HeldIffCounted(workers: seq<Option<Job>>, e: string)
    ensures InFlight(CarriersOf(e), workers) >= 0
    ensures HeldFor(workers, e) <==> InFlight(CarriersOf(e), workers) > 0
  {
    if |workers| == 0 {
    } else {
      HeldIffCounted(workers[1..], e);
      if w :| 0 <= w < |workers[1..]| && workers[1..][w].Some? && EventOf(workers[1..][w].value) == Some(e) {
        assert workers[w + 1] == workers[1..][w];
      }
      if w :| 0 <= w < |workers| && workers[w].Some? && EventOf(workers[w].value) == Some(e) {
        assert w > 0 ==> workers[1..][w - 1] == workers[w];
      }
    }
  }

  lemma KeptIffCounted(s: System, e: string)
    ensures KeptFor(s, e) <==> Kept(CarriersOf(e), s) > 0
    ensures Kept(CarriersOf(e), s) >= 0
  {
    CarriesIffCounted(s.queue.jobs, e);
    HeldIffCounted(s.workers, e);
    CarriesIffCounted(s.handled, e);
    CarriesIffCounted(DeadJobs(s.queue.dead), e);
  }

  /** For every event, the jobs kept and the stops that hit one of its jobs make up the deliveries: one if it is
      published, one for each aborted batch that had enqueued it, one if an open batch has. */
  lemma KeptIsDeliveredLessStopped(publishers: nat, workers: nat, steps: seq<Step>, maxAttempts: int, e: string)
    ensures var s := Run(Init(publishers, workers), steps, maxAttempts);
            Kept(CarriersOf(e), s) + StopsOn(Init(publishers, workers), steps, maxAttempts, e) ==
            (if IsPublished(s, e) then 1 else 0) + AbortedFor(s.aborted, e) + (if OpenSent(s, e) then 1 else 0)
  {
    var s := Run(Init(publishers, workers), steps, maxAttempts);
    DeliveryAccounting(publishers, workers, steps, maxAttempts, e);
    ReachableBalanced(CarriersOf(e), publishers, workers, steps, maxAttempts);
    LostExactlyToStops(publishers, workers, steps, maxAttempts, e);
    SentForIsSum(s.sent, e);
    SentForIsSum(s.lost, e);
  }

  lemma PublishedNotOpen(publishers: nat, workers: nat, steps: seq<Step>, maxAttempts: int, e: string)
    requires IsPublished(Run(Init(publishers, workers), steps, maxAttempts), e)
    ensures !OpenSent(Run(Init(publishers, workers), steps, maxAttempts), e)
  {
    var s := Run(Init(publishers, workers), steps, maxAttempts);
    ReachableValid(publishers, workers, steps, maxAttempts);
    if p :| Open(s, p) && HasSent(s.publishers[p].value, e) {
      OpenSentOnly(s, p, e);
    }
  }

  /** A published event survives, in a queued, in-flight, handled or dead-lettered job, exactly when no more
      workers stopped on one of its jobs than aborted batches had enqueued it. With no such stop it always does. */
  lemma PublishedSurvivesIff(publishers: nat, workers: nat, steps: seq<Step>, maxAttempts: int, e: string)
    requires IsPublished(Run(Init(publishers, workers), steps, maxAttempts), e)
    ensures var start := Init(publishers, workers);
            var s := Run(start, steps, maxAttempts);
            && (KeptFor(s, e) <==> StopsOn(start, steps, maxAttempts, e) <= AbortedFor(s.aborted, e))
            && (KeptFor(s, e) || Carries(s.lost, e))
            && (Stops(start, steps, maxAttempts) == 0 ==> KeptFor(s, e))
  {
    var s := Run(Init(publishers, workers), steps, maxAttempts);
    KeptIsDeliveredLessStopped(publishers, workers, steps, maxAttempts, e);
    KeptIffCounted(s, e);
    PublishedNotOpen(publishers, workers, steps, maxAttempts, e);
    LostExactlyToStops(publishers, workers, steps, maxAttempts, e);
    SentForIsSum(s.lost, e);
    CarriesIffCounted(s.lost, e);
  }

  // ---- Exact work accounting ----

  function Attempts(jobs: seq<Job>): int {
    if |jobs| == 0 then 0 else jobs[0].attempt + Attempts(jobs[1..])
  }

  /** Handler calls begun so far: `attempt` for each queued job, `attempt + 1` for every other one. */
  ghost predicate CallsAccounted(s: System) {
    s.calls == Attempts(s.queue.jobs) + InFlight(CallsMade, s.workers)
             + Attempts(s.handled) + |s.handled|
             + Attempts(DeadJobs(s.queue.dead)) + |s.queue.dead|
             + Attempts(s.lost) + |s.lost|
  }

  lemma {:induction false} AttemptsOfAppend(jobs: seq<Job>, job: Job)
    ensures Attempts(jobs + [job]) == Attempts(jobs) + job.attempt
  {
    if |jobs| == 0 {
      assert jobs + [job] == [job];
    } else {
      AttemptsOfAppend(jobs[1..], job);
      assert (jobs + [job])[1..] == jobs[1..] + [job];
    }
  }

  lemma RejectCallsAccounted(q: QueueState, job: Job, reason: string, retry: bool)
    ensures var q' := InMemory(QueueOp.Reject(job, reason, retry), q).0;
            Attempts(q'.jobs) + Attempts(DeadJobs(q'.dead)) + |q'.dead| ==
            Attempts(q.jobs) + Attempts(DeadJobs(q.dead)) + |q.dead| + job.attempt + 1
  {
    if retry {
      AttemptsOfAppend(q.jobs, Retried(job));
    } else {
      DeadJobsOfAppend(q.dead, DeadLetter(job, reason));
      AttemptsOfAppend(DeadJobs(q.dead), job);
    }
  }

  lemma FinishCallsAccounted(s: System, w: nat, outcome: Outcome, maxAttempts: int)
    requires CallsAccounted(s) && Enabled(s, Finish(w, outcome))
    ensures CallsAccounted(Next(s, Finish(w, outcome), maxAttempts))
  {
    var job := s.workers[w].value;
    InFlightUpdate(CallsMade, s.workers, w, None);
    match outcome
    case Done => AttemptsOfAppend(s.handled, job);
    case Raised(exception) => RejectCallsAccounted(s.queue, job, exception, CanRetry(job, maxAttempts));
    case Stopped => AttemptsOfAppend(s.lost, job);
  }

  lemma StepCallsAccounted(s: System, step: Step, maxAttempts: int)
    requires CallsAccounted(s)
    ensures CallsAccounted(Next(s, step, maxAttempts))
  {
    if Enabled(s, step) {
      match step
      case Send(p, jobId) =>
        var b := s.publishers[p].value;
        AttemptsOfAppend(s.queue.jobs, JobFor(s.rows[b.selected[b.sent]], jobId));
      case Take(w) => InFlightUpdate(CallsMade, s.workers, w, Some(s.queue.jobs[0]));
      case Finish(w, outcome) => FinishCallsAccounted(s, w, outcome, maxAttempts);
      case _ =>
    }
  }

  /** Over every run the handler calls begun are exactly the attempts the jobs show. */
  lemma {:induction false} WorkIsAccounted(publishers: nat, workers: nat, steps: seq<Step>, maxAttempts: int)
    ensures CallsAccounted(Run(Init(publishers, workers), steps, maxAttempts))
  {
    if |steps| == 0 {
      NothingInFlight(CallsMade, Init(publishers, workers).workers);
    } else {
      var front := steps[..|steps| - 1];
      WorkIsAccounted(publishers, workers, front, maxAttempts);
      StepCallsAccounted(Run(Init(publishers, workers), front, maxAttempts), steps[|steps| - 1], maxAttempts);
    }
  }

  /** Calls begun, plus those the live jobs can still get, never exceed max(1, max_attempts) a job sent. */
  ghost predicate WorkBounded(s: System, maxAttempts: int) {
    s.calls + Budget(s.queue.jobs, maxAttempts) + InFlight(CallsLeft(maxAttempts), s.workers)
      <= |s.sent| * Max(1, maxAttempts)
  }

  lemma FinishWorkBounded(s: System, w: nat, outcome: Outcome, maxAttempts: int)
    requires WorkBounded(s, maxAttempts) && Enabled(s, Finish(w, outcome))
    ensures WorkBounded(Next(s, Finish(w, outcome), maxAttempts), maxAttempts)
  {
    InFlightUpdate(CallsLeft(maxAttempts), s.workers, w, None);
    if outcome.Raised? && CanRetry(s.workers[w].value, maxAttempts) {
      BudgetOfAppend(s.queue.jobs, Retried(s.workers[w].value), maxAttempts);
    }
  }

  lemma SendWorkBounded(s: System, p: nat, jobId: string, maxAttempts: int)
    requires WorkBounded(s, maxAttempts) && Enabled(s, Send(p, jobId))
    ensures WorkBounded(Next(s, Send(p, jobId), maxAttempts), maxAttempts)
  {
    var b := s.publishers[p].value;
    BudgetOfAppend(s.queue.jobs, JobFor(s.rows[b.selected[b.sent]], jobId), maxAttempts);
    assert (|s.sent| + 1) * Max(1, maxAttempts) == |s.sent| * Max(1, maxAttempts) + Max(1, maxAttempts);
  }

  lemma StepWorkBounded(s: System, step: Step, maxAttempts: int)
    requires WorkBounded(s, maxAttempts)
    ensures WorkBounded(Next(s, step, maxAttempts), maxAttempts)
  {
    if Enabled(s, step) {
      match step
      case Send(p, jobId) => SendWorkBounded(s, p, jobId, maxAttempts);
      case Take(w) => InFlightUpdate(CallsLeft(maxAttempts), s.workers, w, Some(s.queue.jobs[0]));
      case Finish(w, outcome) => FinishWorkBounded(s, w, outcome, maxAttempts);
      case _ =>
    }
  }

  lemma {:induction false} NoCallsLeftNegative(maxAttempts: int, workers: seq<Option<Job>>)
    ensures InFlight(CallsLeft(maxAttempts), workers) >= 0
  {
    if |workers| == 0 {
    } else {
      NoCallsLeftNegative(maxAttempts, workers[1..]);
    }
  }

  lemma {:induction false} ReachableWorkBounded(publishers: nat, workers: nat, steps: seq<Step>, maxAttempts: int)
    ensures WorkBounded(Run(Init(publishers, workers), steps, maxAttempts), maxAttempts)
  {
    if |steps| == 0 {
      NothingInFlight(CallsLeft(maxAttempts), Init(publishers, workers).workers);
    } else {
      var front := steps[..|steps| - 1];
      ReachableWorkBounded(publishers, workers, front, maxAttempts);
      StepWorkBounded(Run(Init(publishers, workers), front, maxAttempts), steps[|steps| - 1], maxAttempts);
    }
  }

  /** However workers interleave, handlers are called at most max(1, max_attempts) times a job enqueued. */
  lemma RetriesAreBounded(publishers: nat, workers: nat, steps: seq<Step>, maxAttempts: int)
    ensures var s := Run(Init(publishers, workers), steps, maxAttempts);
            s.calls <= |s.sent| * Max(1, maxAttempts)
  {
    ReachableWorkBounded(publishers, workers, steps, maxAttempts);
    NoCallsLeftNegative(maxAttempts, Run(Init(publishers, workers), steps, maxAttempts).workers);
  }
}
