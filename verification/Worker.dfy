/** ProcessingWorker.run_once over the in-memory queue, and what repeating it until the queue is empty does. */
module Worker {
  import opened Basics
  import opened Queue

  /** How a handler call ends: it returns, raises an Exception, or is cut off by something that
      `except Exception` does not catch (cancellation, process death). */
  datatype Outcome = Done | Raised(exception: string) | Stopped

  /** The handler's answer to its n-th call; the call number lets it treat the same job differently each time. */
  type Handler = (nat, Job) -> Outcome

  /** The queue, and the history of handler calls: what was handled, lost and called, in order. */
  datatype Work = Work(queue: QueueState, handled: seq<Job>, lost: seq<Job>, calls: seq<Job>)

  /** What run_once tells its caller: False, True, or the exception that escaped. */
  datatype Result = Idle | Worked | Escaped

  predicate CanRetry(job: Job, maxAttempts: int) {
    job.attempt + 1 < maxAttempts
  }

  function Settle(w: Work, job: Job, outcome: Outcome, maxAttempts: int): Work {
    match outcome
    case Done => w.(handled := w.handled + [job])
    case Raised(exception) =>
      w.(queue := InMemory(QueueOp.Reject(job, exception, CanRetry(job, maxAttempts)), w.queue).0)
    case Stopped => w.(lost := w.lost + [job])
  }

  function AfterRunOnce(w: Work, handler: Handler, maxAttempts: int): Work {
    if |w.queue.jobs| == 0 then w
    else
      var job := w.queue.jobs[0];
      var popped := w.(queue := InMemory(QueueOp.Dequeue, w.queue).0, calls := w.calls + [job]);
      Settle(popped, job, handler(|w.calls|, job), maxAttempts)
  }

  class ProcessingWorker {
    const queue: InMemoryJobQueue
    const handler: Handler
    const maxAttempts: int
    var callCount: nat
    ghost var handled: seq<Job>
    ghost var lost: seq<Job>
    ghost var calls: seq<Job>

    ghost predicate Valid()
      reads this
    {
      callCount == |calls|
    }

    ghost function State(): Work
      reads this, queue
    {
      Work(queue.State(), handled, lost, calls)
    }

    constructor (queue: InMemoryJobQueue, handler: Handler, maxAttempts: int := 3)
      ensures Valid() && State() == Work(queue.State(), [], [], [])
      ensures this.queue == queue && this.handler == handler && this.maxAttempts == maxAttempts
    {
      this.queue, this.handler, this.maxAttempts := queue, handler, maxAttempts;
      callCount, handled, lost, calls := 0, [], [], [];
    }

    method RunOnce() returns (result: Result)
      requires Valid()
      modifies this, queue
      ensures Valid() && State() == AfterRunOnce(old(State()), handler, maxAttempts)
      ensures old(queue.jobs) == [] ==> State() == old(State())
      ensures old(queue.jobs) != [] ==>
                var job, rest := old(queue.jobs)[0], old(queue.jobs)[1..];
                match handler(old(callCount), job)
                case Done =>
                  && queue.jobs == rest && queue.deadLetters == old(queue.deadLetters)
                  && handled == old(handled) + [job] && lost == old(lost)
                case Raised(exception) =>
                  && handled == old(handled) && lost == old(lost)
                  && (if job.attempt + 1 < maxAttempts
                      then && queue.jobs == rest + [Job(job.jobId, job.eventType, job.payload, job.attempt + 1)]
                           && queue.deadLetters == old(queue.deadLetters)
                      else && queue.jobs == rest
                           && queue.deadLetters == old(queue.deadLetters) + [DeadLetter(job, exception)])
                case Stopped =>
                  && queue.jobs == rest && queue.deadLetters == old(queue.deadLetters)
                  && handled == old(handled) && lost == old(lost) + [job]
      ensures result.Idle? <==> |old(queue.jobs)| == 0
      ensures result.Escaped? <==> |old(queue.jobs)| > 0 && handler(old(callCount), old(queue.jobs)[0]).Stopped?
    {
      var popped := queue.Dequeue();
      if popped.None? {
        return Idle;
      }
      var job := popped.value;
      var outcome := handler(callCount, job);
      callCount, calls := callCount + 1, calls + [job];
      match outcome
      case Done =>
        queue.Acknowledge(job);
        handled := handled + [job];
        result := Worked;
      case Raised(exception) =>
        queue.Reject(job, exception, job.attempt + 1 < maxAttempts);
        result := Worked;
      case Stopped =>
        lost := lost + [job];
        result := Escaped;
    }
  }

  // ---- Termination: a budget of remaining calls ----

  function Max(a: int, b: int): int {
    if a < b then b else a
  }

  /** How many more calls the job can get at most. */
  function JobBudget(job: Job, maxAttempts: int): nat {
    Max(1, maxAttempts - job.attempt)
  }

  function Budget(jobs: seq<Job>, maxAttempts: int): nat {
    if |jobs| == 0 then 0 else JobBudget(jobs[0], maxAttempts) + Budget(jobs[1..], maxAttempts)
  }

  lemma {:induction false} BudgetOfAppend(jobs: seq<Job>, job: Job, maxAttempts: int)
    ensures Budget(jobs + [job], maxAttempts) == Budget(jobs, maxAttempts) + JobBudget(job, maxAttempts)
  {
    if |jobs| == 0 {
      assert jobs + [job] == [job];
    } else {
      assert (jobs + [job])[1..] == jobs[1..] + [job];
      BudgetOfAppend(jobs[1..], job, maxAttempts);
    }
  }

  /** A call costs one unit when the job is retried, and all the job has left otherwise. */
  lemma RunOnceSpends(w: Work, handler: Handler, maxAttempts: int)
    requires |w.queue.jobs| > 0
    ensures var job := w.queue.jobs[0];
            var w' := AfterRunOnce(w, handler, maxAttempts);
            var retried := CanRetry(job, maxAttempts) && handler(|w.calls|, job).Raised?;
            && w'.calls == w.calls + [job]
            && |w'.queue.jobs| == |w.queue.jobs| - (if retried then 0 else 1)
            && Budget(w'.queue.jobs, maxAttempts) ==
               Budget(w.queue.jobs, maxAttempts) - (if retried then 1 else JobBudget(job, maxAttempts))
  {
    BudgetOfAppend(w.queue.jobs[1..], Retried(w.queue.jobs[0]), maxAttempts);
  }

  /** run_once repeated until it returns False. */
  function Drain(w: Work, handler: Handler, maxAttempts: int): Work
    decreases Budget(w.queue.jobs, maxAttempts)
  {
    if |w.queue.jobs| == 0 then w
    else
      RunOnceSpends(w, handler, maxAttempts);
      Drain(AfterRunOnce(w, handler, maxAttempts), handler, maxAttempts)
  }

  /** The calls a drain adds at positions from..: those with retries left were (or were not) failures. */
  ghost predicate EveryRetryTaken(calls: seq<Job>, from: nat, handler: Handler, maxAttempts: int) {
    forall k :: from <= k < |calls| && CanRetry(calls[k], maxAttempts) ==> handler(k, calls[k]).Raised?
  }

  ghost predicate NoRetryTaken(calls: seq<Job>, from: nat, handler: Handler, maxAttempts: int) {
    forall k :: from <= k < |calls| && CanRetry(calls[k], maxAttempts) ==> !handler(k, calls[k]).Raised?
  }

  /** A drain ends with an empty queue after at least one call a job and at most the budget; the upper
      bound is met exactly when every call that could be retried raised, the lower when none did. */
  lemma {:induction false} DrainCallBounds(w: Work, handler: Handler, maxAttempts: int)
    ensures var end := Drain(w, handler, maxAttempts);
            var made := |end.calls| - |w.calls|;
            && end.queue.jobs == []
            && w.calls <= end.calls
            && |w.queue.jobs| <= made <= Budget(w.queue.jobs, maxAttempts)
            && (made == Budget(w.queue.jobs, maxAttempts) <==>
                EveryRetryTaken(end.calls, |w.calls|, handler, maxAttempts))
            && (made == |w.queue.jobs| <==> NoRetryTaken(end.calls, |w.calls|, handler, maxAttempts))
    decreases Budget(w.queue.jobs, maxAttempts)
  {
    if |w.queue.jobs| == 0 {
    } else {
      var w' := AfterRunOnce(w, handler, maxAttempts);
      RunOnceSpends(w, handler, maxAttempts);
      DrainCallBounds(w', handler, maxAttempts);
      var end := Drain(w, handler, maxAttempts);
      var n := |w.calls|;
      assert end.calls[n] == w'.calls[n] == w.queue.jobs[0];
      assert EveryRetryTaken(end.calls, n, handler, maxAttempts) <==>
             (CanRetry(end.calls[n], maxAttempts) ==> handler(n, end.calls[n]).Raised?) &&
             EveryRetryTaken(end.calls, n + 1, handler, maxAttempts);
      assert NoRetryTaken(end.calls, n, handler, maxAttempts) <==>
             (CanRetry(end.calls[n], maxAttempts) ==> !handler(n, end.calls[n]).Raised?) &&
             NoRetryTaken(end.calls, n + 1, handler, maxAttempts);
    }
  }

  ghost predicate AllAt(jobs: seq<Job>, attempt: int) {
    forall k :: 0 <= k < |jobs| ==> jobs[k].attempt == attempt
  }

  lemma {:induction false} FreshBudget(jobs: seq<Job>, maxAttempts: int)
    requires AllAt(jobs, 0)
    ensures Budget(jobs, maxAttempts) == |jobs| * Max(1, maxAttempts)
  {
    if |jobs| == 0 {
    } else {
      FreshBudget(jobs[1..], maxAttempts);
      assert |jobs| * Max(1, maxAttempts) == Max(1, maxAttempts) + (|jobs| - 1) * Max(1, maxAttempts);
    }
  }

  /** Draining n jobs that were never tried takes between n and n * max(1, max_attempts) calls, the most when
      every call raises and the fewest when none does. */
  lemma FreshDrain(jobs: seq<Job>, handler: Handler, maxAttempts: int)
    requires AllAt(jobs, 0)
    ensures var made := |Drain(Work(QueueState(jobs, []), [], [], []), handler, maxAttempts).calls|;
            && |jobs| <= made <= |jobs| * Max(1, maxAttempts)
            && ((forall n, job :: handler(n, job).Raised?) ==> made == |jobs| * Max(1, maxAttempts))
            && ((forall n, job :: !handler(n, job).Raised?) ==> made == |jobs|)
  {
    DrainCallBounds(Work(QueueState(jobs, []), [], [], []), handler, maxAttempts);
    FreshBudget(jobs, maxAttempts);
  }

  // ---- Draining goes round by round ----

  function Failed(jobs: seq<Job>, handler: Handler, from: nat): seq<Job> {
    if |jobs| == 0 then []
    else (if handler(from, jobs[0]).Raised? then [jobs[0]] else []) + Failed(jobs[1..], handler, from + 1)
  }

  function Succeeded(jobs: seq<Job>, handler: Handler, from: nat): seq<Job> {
    if |jobs| == 0 then []
    else (if handler(from, jobs[0]).Done? then [jobs[0]] else []) + Succeeded(jobs[1..], handler, from + 1)
  }

  function CutOff(jobs: seq<Job>, handler: Handler, from: nat): seq<Job> {
    if |jobs| == 0 then []
    else (if handler(from, jobs[0]).Stopped? then [jobs[0]] else []) + CutOff(jobs[1..], handler, from + 1)
  }

  function Buried(jobs: seq<Job>, handler: Handler, from: nat): seq<DeadLetter> {
    if |jobs| == 0 then []
    else
      (match handler(from, jobs[0])
       case Raised(exception) => [DeadLetter(jobs[0], exception)]
       case _ => [])
      + Buried(jobs[1..], handler, from + 1)
  }

  function RetriedAll(jobs: seq<Job>): seq<Job> {
    seq(|jobs|, k requires 0 <= k < |jobs| => Retried(jobs[k]))
  }

  /** One round: the handler is called on each of `round` in order; `later` waits behind the retries' place. */
  function AfterRound(w: Work, round: seq<Job>, later: seq<Job>, handler: Handler, retry: bool): Work {
    var from := |w.calls|;
    Work(
      QueueState(
        later + (if retry then RetriedAll(Failed(round, handler, from)) else []),
        w.queue.dead + (if retry then [] else Buried(round, handler, from))),
      w.handled + Succeeded(round, handler, from),
      w.lost + CutOff(round, handler, from),
      w.calls + round)
  }

  /** Round after round: each one calls exactly the jobs that failed in the one before, in order. */
  function ByRounds(w: Work, handler: Handler, maxAttempts: int, attempt: int): Work
    decreases maxAttempts - attempt
  {
    if |w.queue.jobs| == 0 then w
    else
      var w' := AfterRound(w, w.queue.jobs, [], handler, attempt + 1 < maxAttempts);
      if attempt + 1 < maxAttempts then ByRounds(w', handler, maxAttempts, attempt + 1) else w'
  }

  lemma FailedKeepsAttempt(jobs: seq<Job>, handler: Handler, from: nat, attempt: int)
    requires AllAt(jobs, attempt)
    ensures AllAt(RetriedAll(Failed(jobs, handler, from)), attempt + 1)
    ensures AllAt(Failed(jobs, handler, from), attempt)
  {
    if |jobs| == 0 {
    } else {
      FailedKeepsAttempt(jobs[1..], handler, from + 1, attempt);
    }
  }

  lemma RetriesRegroup(later: seq<Job>, job: Job, jobs: seq<Job>)
    ensures later + RetriedAll([job] + jobs) == later + [Retried(job)] + RetriedAll(jobs)
    ensures RetriedAll([] + jobs) == RetriedAll(jobs)
  {
    assert [] + jobs == jobs;
    assert RetriedAll([job] + jobs) == [Retried(job)] + RetriedAll(jobs);
  }

  lemma ListsRegroup<T>(a: seq<T>, x: T, b: seq<T>)
    ensures a + ([x] + b) == a + [x] + b
    ensures a + ([] + b) == a + b && a + [] == a
  {
  }

  lemma EmptyRegroup<T>(a: seq<T>, b: seq<T>)
    ensures a + ([] + b) == a + b && a + [] == a
  {
  }

  /** The first call of a round leaves the rest of the round, with its own retry queued behind. */
  lemma RoundStep(w: Work, round: seq<Job>, later: seq<Job>, handler: Handler, maxAttempts: int, attempt: int)
    requires |round| > 0 && w.queue.jobs == round + later && AllAt(round, attempt)
    ensures var retry := attempt + 1 < maxAttempts;
            var w' := AfterRunOnce(w, handler, maxAttempts);
            var later' := later +
              (if retry && handler(|w.calls|, round[0]).Raised? then [Retried(round[0])] else []);
            && w'.queue.jobs == round[1..] + later'
            && AfterRound(w', round[1..], later', handler, retry) == AfterRound(w, round, later, handler, retry)
  {
    var from, job, rest := |w.calls|, round[0], round[1..];
    assert w.queue.jobs[0] == job && w.queue.jobs[1..] == rest + later;
    assert round == [job] + rest;
    ListsRegroup(w.calls, job, rest);
    ListsRegroup(rest + later, Retried(job), []);
    RetriesRegroup(later, job, Failed(rest, handler, from + 1));
    ListsRegroup(later, Retried(job), []);
    ListsRegroup(w.handled, job, Succeeded(rest, handler, from + 1));
    ListsRegroup(w.lost, job, CutOff(rest, handler, from + 1));
    match handler(from, job)
    case Raised(exception) => ListsRegroup(w.queue.dead, DeadLetter(job, exception), Buried(rest, handler, from + 1));
    case _ => EmptyRegroup(w.queue.dead, Buried(rest, handler, from + 1));
  }

  lemma {:induction false} DrainRound(
      w: Work, round: seq<Job>, later: seq<Job>, handler: Handler, maxAttempts: int, attempt: int)
    requires w.queue.jobs == round + later && AllAt(round, attempt)
    ensures Drain(w, handler, maxAttempts)
         == Drain(AfterRound(w, round, later, handler, attempt + 1 < maxAttempts), handler, maxAttempts)
    decreases |round|
  {
    var retry := attempt + 1 < maxAttempts;
    if |round| == 0 {
      assert RetriedAll([]) == [];
      assert AfterRound(w, round, later, handler, retry) == w;
    } else {
      var w' := AfterRunOnce(w, handler, maxAttempts);
      var later' := later + (if retry && handler(|w.calls|, round[0]).Raised? then [Retried(round[0])] else []);
      RoundStep(w, round, later, handler, maxAttempts, attempt);
      DrainRound(w', round[1..], later', handler, maxAttempts, attempt);
    }
  }

  /** Draining a queue whose jobs share one attempt number is the round-by-round run, for any handler. */
  lemma {:induction false} DrainIsByRounds(w: Work, handler: Handler, maxAttempts: int, attempt: int)
    requires AllAt(w.queue.jobs, attempt)
    ensures Drain(w, handler, maxAttempts) == ByRounds(w, handler, maxAttempts, attempt)
    decreases maxAttempts - attempt
  {
    if |w.queue.jobs| == 0 {
    } else {
      var jobs := w.queue.jobs;
      var w' := AfterRound(w, jobs, [], handler, attempt + 1 < maxAttempts);
      assert jobs == jobs + [];
      DrainRound(w, jobs, [], handler, maxAttempts, attempt);
      FailedKeepsAttempt(jobs, handler, |w.calls|, attempt);
      if attempt + 1 < maxAttempts {
        assert w'.queue.jobs == RetriedAll(Failed(jobs, handler, |w.calls|));
        DrainIsByRounds(w', handler, maxAttempts, attempt + 1);
      }
    }
  }

  // ---- The queue never mixes more than two neighbouring rounds ----

  ghost predicate Banded(jobs: seq<Job>) {
    forall i, j :: 0 <= i < j < |jobs| ==> jobs[i].attempt <= jobs[j].attempt <= jobs[i].attempt + 1
  }

  ghost predicate WithinAttempts(jobs: seq<Job>, maxAttempts: int) {
    forall k :: 0 <= k < |jobs| ==> 0 <= jobs[k].attempt < Max(1, maxAttempts)
  }

  function RunTimes(w: Work, handler: Handler, maxAttempts: int, n: nat): Work {
    if n == 0 then w else AfterRunOnce(RunTimes(w, handler, maxAttempts, n - 1), handler, maxAttempts)
  }

  lemma RotationStaysBanded(jobs: seq<Job>, maxAttempts: int)
    requires |jobs| > 0 && Banded(jobs) && WithinAttempts(jobs, maxAttempts)
    ensures Banded(jobs[1..]) && WithinAttempts(jobs[1..], maxAttempts)
    ensures Banded(jobs[1..] + [Retried(jobs[0])])
    ensures CanRetry(jobs[0], maxAttempts) ==> WithinAttempts(jobs[1..] + [Retried(jobs[0])], maxAttempts)
  {
  }

  lemma {:induction false} QueueStaysBanded(w: Work, handler: Handler, maxAttempts: int, n: nat)
    requires AllAt(w.queue.jobs, 0)
    ensures var jobs := RunTimes(w, handler, maxAttempts, n).queue.jobs;
            Banded(jobs) && WithinAttempts(jobs, maxAttempts)
  {
    if n > 0 {
      QueueStaysBanded(w, handler, maxAttempts, n - 1);
      var before := RunTimes(w, handler, maxAttempts, n - 1);
      if |before.queue.jobs| > 0 {
        RotationStaysBanded(before.queue.jobs, maxAttempts);
      }
    }
  }
}
