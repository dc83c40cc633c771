/** Processing jobs, their JSON form, and the two job queues: in memory and over Redis lists. */
module Queue {
  import opened Basics
  import opened Json

  datatype Job = Job(jobId: string, eventType: string, payload: Json, attempt: int)

  /** The payload is a dict: an object whose keys are distinct at every level. */
  ghost predicate ValidJob(job: Job) {
    job.payload.Obj? && WellKeyed(job.payload)
  }

  // ---- ProcessingJob.as_json and from_json ----

  function JobJson(job: Job): Json {
    Obj([
      Member("job_id", Str(job.jobId)),
      Member("event_type", Str(job.eventType)),
      Member("payload", job.payload),
      Member("attempt", Int(job.attempt))
    ])
  }

  function JobText(job: Job): string {
    Dump(JobJson(job))
  }

  function Get(ms: seq<Member>, key: string): Option<Json> {
    if |ms| == 0 then None
    else if ms[0].key == key then Some(ms[0].value)
    else Get(ms[1..], key)
  }

  const JOB_FIELDS := ["job_id", "event_type", "payload", "attempt"]

  /** cls(**fields): an unknown or missing field is a TypeError; attempt alone has a default. */
  function JobFromJson(j: Json): Option<Job> {
    if !j.Obj? || exists m :: m in j.members && m.key !in JOB_FIELDS then None
    else match (Get(j.members, "job_id"), Get(j.members, "event_type"), Get(j.members, "payload"))
      case (Some(Str(jobId)), Some(Str(eventType)), Some(Obj(ms))) =>
        (match Get(j.members, "attempt")
         case None => Some(Job(jobId, eventType, Obj(ms), 0))
         case Some(Int(attempt)) => Some(Job(jobId, eventType, Obj(ms), attempt))
         case _ => None)
      case _ => None
  }

  function JobFromText(s: string): Option<Job> {
    match Loads(s)
    case Some(j) => JobFromJson(j)
    case None => None
  }

  lemma {:induction false} GetAt(ms: seq<Member>, k: nat)
    requires DistinctKeys(ms) && k < |ms|
    ensures Get(ms, ms[k].key) == Some(ms[k].value)
  {
    if k > 0 {
      GetAt(ms[1..], k - 1);
    }
  }

  lemma JobJsonWellKeyed(job: Job)
    requires ValidJob(job)
    ensures WellKeyed(JobJson(job))
  {
  }

  lemma JobFromItsJson(job: Job)
    requires job.payload.Obj?
    ensures JobFromJson(JobJson(job)) == Some(job)
  {
    var ms := JobJson(job).members;
    assert DistinctKeys(ms);
    GetAt(ms, 0);
    GetAt(ms, 1);
    GetAt(ms, 2);
    GetAt(ms, 3);
    assert forall k :: 0 <= k < 4 ==> ms[k].key == JOB_FIELDS[k];
  }

  /** from_json(as_json(job)) == job, for every payload a dict can hold; the text holds the four fields. */
  lemma JobRoundTrip(job: Job)
    requires ValidJob(job)
    ensures JobFromText(JobText(job)) == Some(job)
    ensures Loads(JobText(job)) == Some(Obj([
              Member("job_id", Str(job.jobId)), Member("event_type", Str(job.eventType)),
              Member("payload", job.payload), Member("attempt", Int(job.attempt))]))
  {
    JobJsonWellKeyed(job);
    LoadsDump(JobJson(job));
    JobFromItsJson(job);
  }

  // ---- Other texts than as_json writes ----

  lemma {:induction false} NotGiven(ms: seq<Member>, key: string)
    requires forall m :: m in ms ==> m.key != key
    ensures Get(ms, key) == None
  {
    if |ms| == 0 {
    } else {
      NotGiven(ms[1..], key);
    }
  }

  /** from_json on fields that as_json does not write: attempt is 0 where it is missing, a missing other field or
      an unknown one is refused. */
  lemma OtherFields(ms: seq<Member>)
    ensures forall m :: m in ms && m.key !in {"job_id", "event_type", "payload", "attempt"} ==>
              JobFromJson(Obj(ms)) == None
    ensures Get(ms, "job_id").None? || Get(ms, "event_type").None? || Get(ms, "payload").None? ==>
              JobFromJson(Obj(ms)) == None
    ensures forall id, kind, payload ::
              ms == [Member("job_id", Str(id)), Member("event_type", Str(kind)), Member("payload", Obj(payload))] ==>
                JobFromJson(Obj(ms)) == Some(Job(id, kind, Obj(payload), 0))
  {
    assert JOB_FIELDS[0] == "job_id" && JOB_FIELDS[1] == "event_type" && JOB_FIELDS[2] == "payload";
    assert JOB_FIELDS[3] == "attempt";
    forall id, kind, payload |
        ms == [Member("job_id", Str(id)), Member("event_type", Str(kind)), Member("payload", Obj(payload))]
      ensures JobFromJson(Obj(ms)) == Some(Job(id, kind, Obj(payload), 0))
    {
      assert DistinctKeys(ms);
      GetAt(ms, 0);
      GetAt(ms, 1);
      GetAt(ms, 2);
      NotGiven(ms, "attempt");
      assert forall k :: 0 <= k < 3 ==> ms[k].key == JOB_FIELDS[k];
    }
  }

  // ---- The in-memory queue ----

  datatype DeadLetter = DeadLetter(job: Job, reason: string)

  datatype QueueState = QueueState(jobs: seq<Job>, dead: seq<DeadLetter>)

  datatype QueueOp =
    | Enqueue(job: Job)
    | Dequeue
    | Acknowledge(job: Job)
    | Reject(job: Job, reason: string, retry: bool)

  /** What the caller sees: nothing, the popped job, or a stored text that is not a job. */
  datatype QueueReply = Quiet | Popped(popped: Option<Job>) | Malformed

  function Retried(job: Job): Job {
    job.(attempt := job.attempt + 1)
  }

  function InMemory(op: QueueOp, q: QueueState): (QueueState, QueueReply) {
    match op
    case Enqueue(job) => (q.(jobs := q.jobs + [job]), Quiet)
    case Dequeue =>
      if |q.jobs| == 0 then (q, Popped(None))
      else (q.(jobs := q.jobs[1..]), Popped(Some(q.jobs[0])))
    case Acknowledge(_) => (q, Quiet)
    case Reject(job, reason, retry) =>
      if retry then (q.(jobs := q.jobs + [Retried(job)]), Quiet)
      else (q.(dead := q.dead + [DeadLetter(job, reason)]), Quiet)
  }

  class InMemoryJobQueue {
    var jobs: seq<Job>
    var deadLetters: seq<DeadLetter>

    ghost function State(): QueueState
      reads this
    {
      QueueState(jobs, deadLetters)
    }

    constructor ()
      ensures State() == QueueState([], [])
    {
      jobs, deadLetters := [], [];
    }

    method Enqueue(job: Job)
      modifies this
      ensures (State(), Quiet) == InMemory(QueueOp.Enqueue(job), old(State()))
      ensures jobs == old(jobs) + [job] && deadLetters == old(deadLetters)
    {
      jobs := jobs + [job];
    }

    method Dequeue() returns (job: Option<Job>)
      modifies this
      ensures (State(), Popped(job)) == InMemory(QueueOp.Dequeue, old(State()))
      ensures job.None? ==> old(jobs) == jobs == []
      ensures job.Some? ==> old(jobs) == [job.value] + jobs
      ensures deadLetters == old(deadLetters)
    {
      if |jobs| == 0 {
        return None;
      }
      job := Some(jobs[0]);
      jobs := jobs[1..];
    }

    method Acknowledge(job: Job)
      ensures (State(), Quiet) == InMemory(QueueOp.Acknowledge(job), old(State()))
      ensures jobs == old(jobs) && deadLetters == old(deadLetters)
    {
    }

    method Reject(job: Job, reason: string, retry: bool)
      modifies this
      ensures (State(), Quiet) == InMemory(QueueOp.Reject(job, reason, retry), old(State()))
      ensures retry ==>
                && jobs == old(jobs) + [Job(job.jobId, job.eventType, job.payload, job.attempt + 1)]
                && deadLetters == old(deadLetters)
      ensures !retry ==> jobs == old(jobs) && deadLetters == old(deadLetters) + [DeadLetter(job, reason)]
    {
      if retry {
        Enqueue(Job(job.jobId, job.eventType, job.payload, job.attempt + 1));
      } else {
        deadLetters := deadLetters + [DeadLetter(job, reason)];
      }
    }
  }

  // ---- The queue over Redis lists ----

  /** Redis drops a list when its last element is popped, so a missing name is an empty list. */
  type Lists = map<string, seq<string>>

  function ListAt(lists: Lists, name: string): seq<string> {
    if name in lists then lists[name] else []
  }

  function RPush(lists: Lists, name: string, value: string): Lists {
    lists[name := ListAt(lists, name) + [value]]
  }

  function BLPop(lists: Lists, name: string): (Lists, Option<string>) {
    var l := ListAt(lists, name);
    if |l| == 0 then (lists, None)
    else if |l| == 1 then (lists - {name}, Some(l[0]))
    else (lists[name := l[1..]], Some(l[0]))
  }

  function DeadJson(d: DeadLetter): Json {
    Obj([Member("job", JobJson(d.job)), Member("reason", Str(d.reason))])
  }

  function DeadText(d: DeadLetter): string {
    Dump(DeadJson(d))
  }

  function DeadFromText(s: string): Option<DeadLetter> {
    match Loads(s)
    case Some(Obj(ms)) =>
      (match (Get(ms, "job"), Get(ms, "reason"))
       case (Some(j), Some(Str(reason))) =>
         (match JobFromJson(j)
          case Some(job) => Some(DeadLetter(job, reason))
          case None => None)
       case _ => None)
    case _ => None
  }

  lemma DeadRoundTrip(d: DeadLetter)
    requires ValidJob(d.job)
    ensures Loads(DeadText(d)) == Some(Obj([
              Member("job", Obj([
                Member("job_id", Str(d.job.jobId)), Member("event_type", Str(d.job.eventType)),
                Member("payload", d.job.payload), Member("attempt", Int(d.job.attempt))])),
              Member("reason", Str(d.reason))]))
    ensures DeadFromText(DeadText(d)) == Some(d)
  {
    JobJsonWellKeyed(d.job);
    LoadsDump(DeadJson(d));
    JobFromItsJson(d.job);
    GetAt(DeadJson(d).members, 0);
    GetAt(DeadJson(d).members, 1);
  }

  function Redis(op: QueueOp, lists: Lists, queueName: string, deadName: string): (Lists, QueueReply) {
    match op
    case Enqueue(job) => (RPush(lists, queueName, JobText(job)), Quiet)
    case Dequeue =>
      (match BLPop(lists, queueName)
       case (lists', None) => (lists', Popped(None))
       case (lists', Some(raw)) =>
         (match JobFromText(raw)
          case Some(job) => (lists', Popped(Some(job)))
          case None => (lists', Malformed)))
    case Acknowledge(_) => (lists, Quiet)
    case Reject(job, reason, retry) =>
      if retry then (RPush(lists, queueName, JobText(Retried(job))), Quiet)
      else (RPush(lists, deadName, DeadText(DeadLetter(job, reason))), Quiet)
  }

  class RedisClient {
    var lists: Lists

    constructor ()
      ensures lists == map[]
    {
      lists := map[];
    }

    method Rpush(name: string, value: string)
      modifies this
      ensures lists == RPush(old(lists), name, value)
      ensures lists == old(lists)[name := (if name in old(lists) then old(lists)[name] else []) + [value]]
    {
      lists := lists[name := (if name in lists then lists[name] else []) + [value]];
    }

    method Blpop(name: string) returns (value: Option<string>)
      modifies this
      ensures (lists, value) == BLPop(old(lists), name)
      ensures value.None? <==> name !in old(lists) || old(lists)[name] == []
      ensures value.Some? ==> old(lists)[name] == [value.value] + (if name in lists then lists[name] else [])
      ensures forall other :: other != name ==>
                (other in lists <==> other in old(lists)) && (other in lists ==> lists[other] == old(lists)[other])
    {
      if name !in lists || |lists[name]| == 0 {
        return None;
      }
      value := Some(lists[name][0]);
      lists := if |lists[name]| == 1 then lists - {name} else lists[name := lists[name][1..]];
    }
  }

  class RedisJobQueue {
    const client: RedisClient
    const queueName: string
    const deadLetterName: string

    constructor (
        client: RedisClient, queueName: string := "sdi:processing", deadLetterName: string := "sdi:dead-letter")
      ensures this.client == client && this.queueName == queueName && this.deadLetterName == deadLetterName
    {
      this.client, this.queueName, this.deadLetterName := client, queueName, deadLetterName;
    }

    method Enqueue(job: Job)
      modifies client
      ensures (client.lists, Quiet) == Redis(QueueOp.Enqueue(job), old(client.lists), queueName, deadLetterName)
    {
      client.Rpush(queueName, JobText(job));
    }

    /** The reply is Malformed where from_json raises: the text has been popped all the same. */
    method Dequeue() returns (reply: QueueReply)
      modifies client
      ensures (client.lists, reply) == Redis(QueueOp.Dequeue, old(client.lists), queueName, deadLetterName)
    {
      var raw := client.Blpop(queueName);
      match raw
      case None => reply := Popped(None);
      case Some(text) =>
        match JobFromText(text)
        case Some(job) => reply := Popped(Some(job));
        case None => reply := Malformed;
    }

    method Acknowledge(job: Job)
      ensures (client.lists, Quiet) == Redis(QueueOp.Acknowledge(job), old(client.lists), queueName, deadLetterName)
    {
    }

    method Reject(job: Job, reason: string, retry: bool)
      modifies client
      ensures (client.lists, Quiet) ==
              Redis(QueueOp.Reject(job, reason, retry), old(client.lists), queueName, deadLetterName)
    {
      if retry {
        Enqueue(Job(job.jobId, job.eventType, job.payload, job.attempt + 1));
      } else {
        client.Rpush(deadLetterName, DeadText(DeadLetter(job, reason)));
      }
    }
  }

  // ---- Redis refines the in-memory queue ----

  ghost predicate ValidOp(op: QueueOp) {
    op.Dequeue? || ValidJob(op.job)
  }

  ghost predicate ValidOps(ops: seq<QueueOp>) {
    forall k :: 0 <= k < |ops| ==> ValidOp(ops[k])
  }

  /** Decoding the queue list gives the deque, decoding the other list gives the dead letters. */
  ghost predicate Represents(lists: Lists, queueName: string, deadName: string, q: QueueState) {
    && |ListAt(lists, queueName)| == |q.jobs|
    && |ListAt(lists, deadName)| == |q.dead|
    && (forall k :: 0 <= k < |q.jobs| ==> JobFromText(ListAt(lists, queueName)[k]) == Some(q.jobs[k]))
    && (forall k :: 0 <= k < |q.dead| ==> DeadFromText(ListAt(lists, deadName)[k]) == Some(q.dead[k]))
  }

  /** State and replies after a sequence of operations. */
  function RunInMemory(ops: seq<QueueOp>, q: QueueState): (QueueState, seq<QueueReply>) {
    if |ops| == 0 then (q, [])
    else
      var (q', reply) := InMemory(ops[0], q);
      var (q'', replies) := RunInMemory(ops[1..], q');
      (q'', [reply] + replies)
  }

  function RunRedis(ops: seq<QueueOp>, lists: Lists, queueName: string, deadName: string)
    : (Lists, seq<QueueReply>)
  {
    if |ops| == 0 then (lists, [])
    else
      var (lists', reply) := Redis(ops[0], lists, queueName, deadName);
      var (lists'', replies) := RunRedis(ops[1..], lists', queueName, deadName);
      (lists'', [reply] + replies)
  }

  lemma RedisStepRefines(op: QueueOp, lists: Lists, queueName: string, deadName: string, q: QueueState)
    requires queueName != deadName && ValidOp(op) && Represents(lists, queueName, deadName, q)
    ensures var (lists', reply) := Redis(op, lists, queueName, deadName);
            var (q', reply') := InMemory(op, q);
            reply == reply' && Represents(lists', queueName, deadName, q')
  {
    match op
    case Enqueue(job) => JobRoundTrip(job);
    case Dequeue =>
    case Acknowledge(_) =>
    case Reject(job, reason, retry) =>
      if retry { JobRoundTrip(Retried(job)); } else { DeadRoundTrip(DeadLetter(job, reason)); }
  }

  /** Every operation sequence gives the same replies on both queues and related final states. */
  lemma {:induction false} RedisRefinesInMemory(
    ops: seq<QueueOp>, lists: Lists, queueName: string, deadName: string, q: QueueState)
    requires queueName != deadName && ValidOps(ops) && Represents(lists, queueName, deadName, q)
    ensures var (lists', replies) := RunRedis(ops, lists, queueName, deadName);
            var (q', replies') := RunInMemory(ops, q);
            replies == replies' && Represents(lists', queueName, deadName, q')
  {
    if |ops| == 0 {
    } else {
      RedisStepRefines(ops[0], lists, queueName, deadName, q);
      assert ValidOps(ops[1..]);
      RedisRefinesInMemory(ops[1..], Redis(ops[0], lists, queueName, deadName).0, queueName, deadName,
                           InMemory(ops[0], q).0);
    }
  }

  ghost predicate SameReplies(ops: seq<QueueOp>, queueName: string, deadName: string) {
    RunRedis(ops, map[], queueName, deadName).1 == RunInMemory(ops, QueueState([], [])).1
  }

  /** From empty, no sequence of operations can tell the Redis queue from the in-memory one. */
  ghost predicate Indistinguishable(queueName: string, deadName: string) {
    forall ops: seq<QueueOp> :: ValidOps(ops) ==> SameReplies(ops, queueName, deadName)
  }

  lemma RunOne(a: QueueOp, lists: Lists, name: string, q: QueueState)
    ensures RunRedis([a], lists, name, name).1 == [Redis(a, lists, name, name).1]
    ensures RunInMemory([a], q).1 == [InMemory(a, q).1]
  {
    assert [a][1..] == [];
  }

  lemma RunTwo(a: QueueOp, b: QueueOp, lists: Lists, name: string, q: QueueState)
    ensures RunRedis([a, b], lists, name, name).1
         == [Redis(a, lists, name, name).1, Redis(b, Redis(a, lists, name, name).0, name, name).1]
    ensures RunInMemory([a, b], q).1 == [InMemory(a, q).1, InMemory(b, InMemory(a, q).0).1]
  {
    assert [a, b][1..] == [b];
    RunOne(b, Redis(a, lists, name, name).0, name, InMemory(a, q).0);
  }

  /** With one name for both lists a dead letter is popped as a job, and from_json refuses it. */
  lemma SharedNameMixesDeadLetters(name: string, job: Job)
    requires ValidJob(job)
    ensures var ops := [QueueOp.Reject(job, "TimeoutError", false), QueueOp.Dequeue];
            && RunRedis(ops, map[], name, name).1 == [Quiet, Malformed]
            && RunInMemory(ops, QueueState([], [])).1 == [Quiet, Popped(None)]
            && !SameReplies(ops, name, name)
  {
    var d := DeadLetter(job, "TimeoutError");
    DeadRoundTrip(d);
    assert JobFromText(DeadText(d)) == None by {
      assert DeadJson(d).members[0].key == "job" && DeadJson(d).members[0] in DeadJson(d).members;
    }
    RunTwo(QueueOp.Reject(job, "TimeoutError", false), QueueOp.Dequeue, map[], name, QueueState([], []));
    assert [Quiet, Malformed][1] != [Quiet, Popped(None)][1];
  }

  lemma SharedNameDistinguishable(name: string, job: Job)
    requires ValidJob(job)
    ensures !Indistinguishable(name, name)
  {
    SharedNameMixesDeadLetters(name, job);
    assert ValidOps([QueueOp.Reject(job, "TimeoutError", false), QueueOp.Dequeue]);
  }

  /** The refinement holds exactly when the two list names differ. */
  lemma RedisFaithfulIffNamesDiffer(queueName: string, deadName: string)
    ensures Indistinguishable(queueName, deadName) <==> queueName != deadName
  {
    if queueName != deadName {
      forall ops: seq<QueueOp> | ValidOps(ops)
        ensures SameReplies(ops, queueName, deadName)
      {
        RedisRefinesInMemory(ops, map[], queueName, deadName, QueueState([], []));
      }
    } else {
      assert ValidJob(Job("", "", Obj([]), 0));
      SharedNameDistinguishable(queueName, Job("", "", Obj([]), 0));
    }
  }
}
