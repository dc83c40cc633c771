/** Outbox, queue and workers as one step system: several publishers and workers, interleaved in any
    order, each of which may stop at any point. A step that is not possible leaves the state unchanged,
    so a run is any list of steps. */
module Delivery {
  import opened Basics
  import opened Events
  import opened Queue
  import opened Worker
  import opened Outbox

  /** An open publishing transaction: its locked rows, how many jobs it has enqueued, and the
      published_at values it has set but not committed. */
  datatype Batch = Batch(selected: seq<string>, sent: nat, marked: nat, marks: map<string, Timestamp>)

  datatype System = System(
    rows: Table,
    publishers: seq<Option<Batch>>,
    workers: seq<Option<Job>>,
    queue: QueueState,
    handled: seq<Job>,
    lost: seq<Job>,
    sent: seq<Job>,
    aborted: seq<Batch>,
    calls: nat)

  datatype Step =
    | Insert(row: OutboxRow)
    | Begin(p: nat, selected: seq<string>)
    | Send(p: nat, jobId: string)
    | Mark(p: nat, now: Timestamp)
    | Commit(p: nat)
    | Abort(p: nat)
    | Take(w: nat)
    | Finish(w: nat, outcome: Outcome)

  function Init(publishers: nat, workers: nat): System {
    System(map[], seq(publishers, _ => None), seq(workers, _ => None), QueueState([], []), [], [], [], [], 0)
  }

  function Locked(s: System): set<string> {
    set p, e | 0 <= p < |s.publishers| && s.publishers[p].Some? && e in s.publishers[p].value.selected :: e
  }

  predicate Open(s: System, p: int) {
    0 <= p < |s.publishers| && s.publishers[p].Some?
  }

  predicate Busy(s: System, w: int) {
    0 <= w < |s.workers| && s.workers[w].Some?
  }

  predicate FreshId(s: System, jobId: string) {
    forall k :: 0 <= k < |s.sent| ==> s.sent[k].jobId != jobId
  }

  /** When the code, the database and uuid4() allow the step. */
  predicate Enabled(s: System, step: Step) {
    match step
    case Insert(row) => row.id !in s.rows && row.publishedAt.None?
    case Begin(p, selected) =>
      && p < |s.publishers| && s.publishers[p].None?
      && |selected| > 0
      && (forall i, j :: 0 <= i < j < |selected| ==> selected[i] != selected[j])
      && Elements(selected) <= Available(s.rows, Locked(s))
    case Send(p, jobId) =>
      && Open(s, p)
      && (var b := s.publishers[p].value;
          b.sent == b.marked < |b.selected| && b.selected[b.sent] in s.rows)
      && FreshId(s, jobId)
    case Mark(p, _) =>
      Open(s, p) && s.publishers[p].value.marked < s.publishers[p].value.sent <= |s.publishers[p].value.selected|
    case Commit(p) =>
      Open(s, p) && s.publishers[p].value.marked == |s.publishers[p].value.selected|
    case Abort(p) => Open(s, p)
    case Take(w) => w < |s.workers| && s.workers[w].None? && |s.queue.jobs| > 0
    case Finish(w, _) => Busy(s, w)
  }

  function Next(s: System, step: Step, maxAttempts: int): System {
    if !Enabled(s, step) then s
    else match step
      case Insert(row) => s.(rows := s.rows[row.id := row])
      case Begin(p, selected) => s.(publishers := s.publishers[p := Some(Batch(selected, 0, 0, map[]))])
      case Send(p, jobId) =>
        var b := s.publishers[p].value;
        var job := JobFor(s.rows[b.selected[b.sent]], jobId);
        s.(queue := InMemory(QueueOp.Enqueue(job), s.queue).0,
           sent := s.sent + [job],
           publishers := s.publishers[p := Some(b.(sent := b.sent + 1))])
      case Mark(p, now) =>
        var b := s.publishers[p].value;
        var marks := b.marks[b.selected[b.marked] := now];
        s.(publishers := s.publishers[p := Some(b.(marked := b.marked + 1, marks := marks))])
      case Commit(p) =>
        s.(rows := Committed(s.rows, s.publishers[p].value.marks), publishers := s.publishers[p := None])
      case Abort(p) =>
        s.(aborted := s.aborted + [s.publishers[p].value], publishers := s.publishers[p := None])
      case Take(w) =>
        s.(queue := InMemory(QueueOp.Dequeue, s.queue).0,
           workers := s.workers[w := Some(s.queue.jobs[0])],
           calls := s.calls + 1)
      case Finish(w, outcome) =>
        var job := s.workers[w].value;
        var s' := s.(workers := s.workers[w := None]);
        match outcome
        case Done => s'.(handled := s.handled + [job])
        case Raised(exception) =>
          s'.(queue := InMemory(QueueOp.Reject(job, exception, CanRetry(job, maxAttempts)), s.queue).0)
        case Stopped => s'.(lost := s.lost + [job])
  }

  function Run(s: System, steps: seq<Step>, maxAttempts: int): System {
    if |steps| == 0 then s
    else Next(Run(s, steps[..|steps| - 1], maxAttempts), steps[|steps| - 1], maxAttempts)
  }

  // ---- Publishers: locks and batches ----

  ghost predicate ValidBatch(rows: Table, b: Batch) {
    && Distinct(b.selected)
    && Elements(b.selected) <= Available(rows, {})
    && b.marked <= b.sent <= |b.selected| && b.sent <= b.marked + 1
    && b.marks.Keys == Elements(b.selected[..b.marked])
  }

  ghost predicate ValidPublishers(s: System) {
    && (forall e :: e in s.rows ==> s.rows[e].id == e)
    && (forall p :: Open(s, p) ==> ValidBatch(s.rows, s.publishers[p].value))
    && (forall p, q :: Open(s, p) && Open(s, q) && p != q ==>
          Elements(s.publishers[p].value.selected) !! Elements(s.publishers[q].value.selected))
  }

  lemma CommitPublishes(s: System, p: nat)
    requires ValidPublishers(s) && Enabled(s, Commit(p))
    ensures var b := s.publishers[p].value;
            b.sent == |b.selected| && b.marks.Keys == Elements(b.selected)
  {
    var b := s.publishers[p].value;
    assert b.selected[..|b.selected|] == b.selected;
  }

  lemma MarkedOneMore(b: Batch, now: Timestamp)
    requires b.marked < |b.selected| && b.marks.Keys == Elements(b.selected[..b.marked])
    ensures b.marks[b.selected[b.marked] := now].Keys == Elements(b.selected[..b.marked + 1])
  {
    assert b.selected[..b.marked + 1] == b.selected[..b.marked] + [b.selected[b.marked]];
  }

  /** A batch may move on as long as it stays valid and keeps its rows. */
  lemma BatchStaysValid(s: System, s': System, p: nat)
    requires ValidPublishers(s) && Open(s, p) && Open(s', p) && s'.rows == s.rows
    requires s'.publishers == s.publishers[p := s'.publishers[p]]
    requires s'.publishers[p].value.selected == s.publishers[p].value.selected
    requires ValidBatch(s.rows, s'.publishers[p].value)
    ensures ValidPublishers(s')
  {
    assert forall q :: Open(s', q) ==> Open(s, q);
  }

  lemma InsertStaysValid(s: System, row: OutboxRow, maxAttempts: int)
    requires ValidPublishers(s) && Enabled(s, Insert(row))
    ensures ValidPublishers(Next(s, Insert(row), maxAttempts))
  {
    var s' := Next(s, Insert(row), maxAttempts);
    forall p | Open(s', p) ensures ValidBatch(s'.rows, s'.publishers[p].value) {
      assert Open(s, p) && Available(s.rows, {}) <= Available(s'.rows, {});
    }
    assert forall p :: Open(s', p) ==> Open(s, p);
  }

  lemma BeginStaysValid(s: System, p: nat, selected: seq<string>, maxAttempts: int)
    requires ValidPublishers(s) && Enabled(s, Begin(p, selected))
    ensures ValidPublishers(Next(s, Begin(p, selected), maxAttempts))
  {
    assert forall q :: Open(s, q) ==> Elements(s.publishers[q].value.selected) <= Locked(s);
  }

  lemma CommitStaysValid(s: System, p: nat, maxAttempts: int)
    requires ValidPublishers(s) && Enabled(s, Commit(p))
    ensures ValidPublishers(Next(s, Commit(p), maxAttempts))
  {
    var s' := Next(s, Commit(p), maxAttempts);
    CommitPublishes(s, p);
    forall q | Open(s', q) ensures ValidBatch(s'.rows, s'.publishers[q].value) {
      assert Open(s, q) && q != p;
    }
  }

  lemma SendStaysValid(s: System, p: nat, jobId: string, maxAttempts: int)
    requires ValidPublishers(s) && Enabled(s, Send(p, jobId))
    ensures ValidPublishers(Next(s, Send(p, jobId), maxAttempts))
  {
    BatchStaysValid(s, Next(s, Send(p, jobId), maxAttempts), p);
  }

  lemma MarkStaysValid(s: System, p: nat, now: Timestamp, maxAttempts: int)
    requires ValidPublishers(s) && Enabled(s, Mark(p, now))
    ensures ValidPublishers(Next(s, Mark(p, now), maxAttempts))
  {
    MarkedOneMore(s.publishers[p].value, now);
    BatchStaysValid(s, Next(s, Mark(p, now), maxAttempts), p);
  }

  lemma AbortStaysValid(s: System, p: nat, maxAttempts: int)
    requires ValidPublishers(s) && Enabled(s, Abort(p))
    ensures ValidPublishers(Next(s, Abort(p), maxAttempts))
  {
    assert forall q :: Open(Next(s, Abort(p), maxAttempts), q) ==> Open(s, q);
  }

  lemma SamePublishersValid(s: System, s': System)
    requires ValidPublishers(s) && s'.publishers == s.publishers && s'.rows == s.rows
    ensures ValidPublishers(s')
  {
    assert forall p :: Open(s', p) <==> Open(s, p);
  }

  lemma PublishersStayValid(s: System, step: Step, maxAttempts: int)
    requires ValidPublishers(s)
    ensures ValidPublishers(Next(s, step, maxAttempts))
  {
    if Enabled(s, step) {
      match step
      case Insert(row) => InsertStaysValid(s, row, maxAttempts);
      case Begin(p, selected) => BeginStaysValid(s, p, selected, maxAttempts);
      case Send(p, jobId) => SendStaysValid(s, p, jobId, maxAttempts);
      case Mark(p, now) => MarkStaysValid(s, p, now, maxAttempts);
      case Commit(p) => CommitStaysValid(s, p, maxAttempts);
      case Abort(p) => AbortStaysValid(s, p, maxAttempts);
      case Take(_) => SamePublishersValid(s, Next(s, step, maxAttempts));
      case Finish(_, _) => SamePublishersValid(s, Next(s, step, maxAttempts));
    }
  }

  // ---- Exact delivery accounting ----

  predicate IsPublished(s: System, e: string) {
    e in s.rows && s.rows[e].publishedAt.Some?
  }

  /** Jobs ever enqueued for the event by a publisher. */
  function SentFor(sent: seq<Job>, e: string): nat {
    if |sent| == 0 then 0
    else SentFor(sent[..|sent| - 1], e) + (if EventOf(sent[|sent| - 1]) == Some(e) then 1 else 0)
  }

  predicate HasSent(b: Batch, e: string) {
    e in b.selected[..Min(b.sent, |b.selected|)]
  }

  function AbortedFor(aborted: seq<Batch>, e: string): nat {
    if |aborted| == 0 then 0
    else AbortedFor(aborted[..|aborted| - 1], e) + (if HasSent(aborted[|aborted| - 1], e) then 1 else 0)
  }

  ghost predicate OpenSent(s: System, e: string) {
    exists p :: Open(s, p) && HasSent(s.publishers[p].value, e)
  }

  ghost predicate Accounted(s: System, e: string) {
    SentFor(s.sent, e) ==
      (if IsPublished(s, e) then 1 else 0) + AbortedFor(s.aborted, e) + (if OpenSent(s, e) then 1 else 0)
  }

  lemma OpenSentOnly(s: System, p: nat, e: string)
    requires ValidPublishers(s) && Open(s, p) && e in s.publishers[p].value.selected
    ensures OpenSent(s, e) <==> HasSent(s.publishers[p].value, e)
    ensures !IsPublished(s, e)
  {
    assert e in Elements(s.publishers[p].value.selected);
    forall q | Open(s, q) && HasSent(s.publishers[q].value, e) ensures q == p {
      assert e in Elements(s.publishers[q].value.selected);
    }
  }

  /** Replacing one publisher's batch changes OpenSent only through that batch. */
  lemma OpenSentUpdate(s: System, s': System, p: nat, o: Option<Batch>, e: string)
    requires p < |s.publishers| && s'.publishers == s.publishers[p := o]
    requires s.publishers[p].Some? && HasSent(s.publishers[p].value, e) <==> o.Some? && HasSent(o.value, e)
    ensures OpenSent(s, e) <==> OpenSent(s', e)
  {
    if OpenSent(s, e) {
      var q :| Open(s, q) && HasSent(s.publishers[q].value, e);
      assert Open(s', q) && HasSent(s'.publishers[q].value, e);
    }
    if OpenSent(s', e) {
      var q :| Open(s', q) && HasSent(s'.publishers[q].value, e);
      assert Open(s, q) && HasSent(s.publishers[q].value, e);
    }
  }

  lemma SendChanges(s: System, p: nat, jobId: string, maxAttempts: int, e: string)
    requires ValidPublishers(s) && Enabled(s, Send(p, jobId))
    ensures var s' := Next(s, Send(p, jobId), maxAttempts);
            var b := s.publishers[p].value;
            var sends := e == b.selected[b.sent];
            && (s'.rows, s'.aborted) == (s.rows, s.aborted)
            && s'.publishers == s.publishers[p := Some(b.(sent := b.sent + 1))]
            && SentFor(s'.sent, e) == SentFor(s.sent, e) + (if sends then 1 else 0)
            && (HasSent(b.(sent := b.sent + 1), e) <==> HasSent(b, e) || sends)
            && (sends ==> !HasSent(b, e))
  {
    var s' := Next(s, Send(p, jobId), maxAttempts);
    var b := s.publishers[p].value;
    EventOfJobFor(s.rows[b.selected[b.sent]], jobId);
    assert s'.sent[..|s'.sent| - 1] == s.sent;
    assert b.selected[..b.sent + 1] == b.selected[..b.sent] + [b.selected[b.sent]];
  }

  lemma SendOwnRowAccounted(s: System, p: nat, jobId: string, maxAttempts: int)
    requires ValidPublishers(s) && Enabled(s, Send(p, jobId))
    requires var b := s.publishers[p].value; Accounted(s, b.selected[b.sent])
    ensures var b := s.publishers[p].value; Accounted(Next(s, Send(p, jobId), maxAttempts), b.selected[b.sent])
  {
    var s' := Next(s, Send(p, jobId), maxAttempts);
    var b := s.publishers[p].value;
    var e := b.selected[b.sent];
    SendChanges(s, p, jobId, maxAttempts, e);
    OpenSentOnly(s, p, e);
    assert Open(s', p) && HasSent(s'.publishers[p].value, e);
  }

  lemma SendAccounted(s: System, p: nat, jobId: string, maxAttempts: int, e: string)
    requires ValidPublishers(s) && Enabled(s, Send(p, jobId)) && Accounted(s, e)
    ensures Accounted(Next(s, Send(p, jobId), maxAttempts), e)
  {
    var b := s.publishers[p].value;
    if e == b.selected[b.sent] {
      SendOwnRowAccounted(s, p, jobId, maxAttempts);
    } else {
      SendChanges(s, p, jobId, maxAttempts, e);
      OpenSentUpdate(s, Next(s, Send(p, jobId), maxAttempts), p, Some(b.(sent := b.sent + 1)), e);
    }
  }

  lemma ClosedNotSent(s: System, s': System, p: nat, e: string)
    requires ValidPublishers(s) && Open(s, p) && s'.publishers == s.publishers[p := None]
    requires e in s.publishers[p].value.selected
    ensures !OpenSent(s', e)
  {
    assert e in Elements(s.publishers[p].value.selected);
    forall q | Open(s', q) ensures !HasSent(s'.publishers[q].value, e) {
      assert Open(s, q) && q != p;
      assert e !in Elements(s.publishers[q].value.selected);
    }
  }

  lemma CommitAccounted(s: System, p: nat, maxAttempts: int, e: string)
    requires ValidPublishers(s) && Enabled(s, Commit(p)) && Accounted(s, e)
    ensures Accounted(Next(s, Commit(p), maxAttempts), e)
  {
    var s' := Next(s, Commit(p), maxAttempts);
    var b := s.publishers[p].value;
    CommitPublishes(s, p);
    assert b.selected[..|b.selected|] == b.selected;
    if e in b.selected {
      assert e in Elements(b.selected);
      OpenSentOnly(s, p, e);
      ClosedNotSent(s, s', p, e);
      assert IsPublished(s', e) && HasSent(b, e);
    } else {
      OpenSentUpdate(s, s', p, None, e);
    }
  }

  lemma AbortAccounted(s: System, p: nat, maxAttempts: int, e: string)
    requires ValidPublishers(s) && Enabled(s, Abort(p)) && Accounted(s, e)
    ensures Accounted(Next(s, Abort(p), maxAttempts), e)
  {
    var s' := Next(s, Abort(p), maxAttempts);
    assert s'.aborted[..|s'.aborted| - 1] == s.aborted;
    if e in s.publishers[p].value.selected {
      OpenSentOnly(s, p, e);
      ClosedNotSent(s, s', p, e);
    } else {
      OpenSentUpdate(s, s', p, None, e);
    }
  }

  lemma SamePublishersAccounted(s: System, s': System, e: string)
    requires s'.publishers == s.publishers && s'.sent == s.sent && s'.aborted == s.aborted
    requires IsPublished(s, e) <==> IsPublished(s', e)
    requires Accounted(s, e)
    ensures Accounted(s', e)
  {
    assert forall p :: Open(s, p) <==> Open(s', p);
  }

  lemma StepAccounted(s: System, step: Step, maxAttempts: int, e: string)
    requires ValidPublishers(s) && Accounted(s, e)
    ensures Accounted(Next(s, step, maxAttempts), e)
  {
    if Enabled(s, step) {
      var s' := Next(s, step, maxAttempts);
      match step
      case Insert(_) => SamePublishersAccounted(s, s', e);
      case Begin(p, _) => OpenSentUpdate(s, s', p, s'.publishers[p], e);
      case Send(p, jobId) => SendAccounted(s, p, jobId, maxAttempts, e);
      case Mark(p, _) => OpenSentUpdate(s, s', p, s'.publishers[p], e);
      case Commit(p) => CommitAccounted(s, p, maxAttempts, e);
      case Abort(p) => AbortAccounted(s, p, maxAttempts, e);
      case Take(_) => SamePublishersAccounted(s, s', e);
      case Finish(_, _) => SamePublishersAccounted(s, s', e);
    }
  }

  lemma {:induction false} ReachableValid(publishers: nat, workers: nat, steps: seq<Step>, maxAttempts: int)
    ensures ValidPublishers(Run(Init(publishers, workers), steps, maxAttempts))
  {
    if |steps| == 0 {
    } else {
      var front := steps[..|steps| - 1];
      ReachableValid(publishers, workers, front, maxAttempts);
      PublishersStayValid(Run(Init(publishers, workers), front, maxAttempts), steps[|steps| - 1], maxAttempts);
    }
  }

  /** Over every interleaving of publishers, workers and aborts: the jobs ever enqueued for an event are
      one if it is committed as published, one for each aborted batch that had already enqueued it, and
      one if a batch still open has enqueued it. */
  lemma {:induction false} DeliveryAccounting(
      publishers: nat, workers: nat, steps: seq<Step>, maxAttempts: int, e: string)
    ensures Accounted(Run(Init(publishers, workers), steps, maxAttempts), e)
  {
    if |steps| == 0 {
      assert !OpenSent(Init(publishers, workers), e);
    } else {
      var front := steps[..|steps| - 1];
      ReachableValid(publishers, workers, front, maxAttempts);
      DeliveryAccounting(publishers, workers, front, maxAttempts, e);
      StepAccounted(Run(Init(publishers, workers), front, maxAttempts), steps[|steps| - 1], maxAttempts, e);
    }
  }

  lemma {:induction false} AbortedForBound(aborted: seq<Batch>, e: string)
    ensures AbortedFor(aborted, e) <= |aborted|
  {
    if |aborted| == 0 {
    } else {
      AbortedForBound(aborted[..|aborted| - 1], e);
    }
  }

  /** A published event was enqueued at least once; no event is enqueued more often than once plus the
      aborts that had enqueued it; and two open batches never hold the same row. */
  lemma AtLeastOnceDelivery(publishers: nat, workers: nat, steps: seq<Step>, maxAttempts: int, e: string)
    ensures var s := Run(Init(publishers, workers), steps, maxAttempts);
            && (IsPublished(s, e) ==> SentFor(s.sent, e) >= 1)
            && SentFor(s.sent, e) <= 1 + AbortedFor(s.aborted, e) <= 1 + |s.aborted|
            && (forall p, q :: Open(s, p) && Open(s, q) && p != q ==>
                  Elements(s.publishers[p].value.selected) !! Elements(s.publishers[q].value.selected))
  {
    var s := Run(Init(publishers, workers), steps, maxAttempts);
    DeliveryAccounting(publishers, workers, steps, maxAttempts, e);
    ReachableValid(publishers, workers, steps, maxAttempts);
    AbortedForBound(s.aborted, e);
    if OpenSent(s, e) {
      var p :| Open(s, p) && HasSent(s.publishers[p].value, e);
      OpenSentOnly(s, p, e);
    }
  }
}
