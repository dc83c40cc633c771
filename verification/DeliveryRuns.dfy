/** The publisher's and the worker's methods are runs of the delivery system, and two runs that reach its limits. */
module DeliveryRuns {
  import opened Basics
  import opened Events
  import opened Queue
  import opened Worker
  import opened Outbox
  import opened Delivery
  import opened JobFlow

  // ---- The methods of the publisher and the worker are runs of these steps ----

  lemma RunAppend(s: System, steps: seq<Step>, step: Step, maxAttempts: int)
    ensures Run(s, steps + [step], maxAttempts) == Next(Run(s, steps, maxAttempts), step, maxAttempts)
  {
    assert (steps + [step])[..|steps|] == steps;
  }

  /** An uninterrupted run_once by an idle worker is Take followed by Finish. */
  lemma RunOnceIsTakeAndFinish(s: System, w: nat, work: Work, handler: Handler, maxAttempts: int)
    requires w < |s.workers| && s.workers[w].None?
    requires work.queue == s.queue && work.handled == s.handled && work.lost == s.lost && |work.calls| == s.calls
    ensures var outcome := if |s.queue.jobs| == 0 then Done else handler(s.calls, s.queue.jobs[0]);
            var s' := Run(s, [Take(w), Finish(w, outcome)], maxAttempts);
            var work' := AfterRunOnce(work, handler, maxAttempts);
            s' == s.(queue := work'.queue, handled := work'.handled, lost := work'.lost, calls := |work'.calls|)
  {
    var outcome := if |s.queue.jobs| == 0 then Done else handler(s.calls, s.queue.jobs[0]);
    RunAppend(s, [], Take(w), maxAttempts);
    RunAppend(s, [Take(w)], Finish(w, outcome), maxAttempts);
    assert [] + [Take(w)] == [Take(w)] && [Take(w)] + [Finish(w, outcome)] == [Take(w), Finish(w, outcome)];
    if |s.queue.jobs| == 0 {
    } else {
      var s1 := Next(s, Take(w), maxAttempts);
      assert s1.workers[w := None] == s.workers;
    }
  }

  function SendAndMark(p: nat, jobIds: seq<string>, times: seq<Timestamp>, k: nat): seq<Step>
    requires k <= |jobIds| && k <= |times|
  {
    if k == 0 then [] else SendAndMark(p, jobIds, times, k - 1) + [Send(p, jobIds[k - 1])] + [Mark(p, times[k - 1])]
  }

  function PublishSteps(p: nat, selected: seq<string>, jobIds: seq<string>, times: seq<Timestamp>): seq<Step>
    requires |jobIds| == |times| == |selected|
  {
    [Begin(p, selected)] + SendAndMark(p, jobIds, times, |selected|) + [Commit(p)]
  }

  ghost predicate FreshIds(s: System, jobIds: seq<string>) {
    (forall k :: 0 <= k < |jobIds| ==> FreshId(s, jobIds[k])) &&
    (forall i, j :: 0 <= i < j < |jobIds| ==> jobIds[i] != jobIds[j])
  }

  /** The publisher's state once the first k selected rows are enqueued and marked. */
  function Underway(
      s: System, p: nat, selected: seq<string>, jobIds: seq<string>, times: seq<Timestamp>, k: nat): System
    requires p < |s.publishers| && k <= |selected| == |jobIds| == |times| && Elements(selected) <= s.rows.Keys
  {
    assert Elements(selected[..k]) <= Elements(selected);
    var jobs := JobsFor(s.rows, selected[..k], jobIds);
    s.(queue := s.queue.(jobs := s.queue.jobs + jobs),
       sent := s.sent + jobs,
       publishers := s.publishers[p := Some(Batch(selected, k, k, MarksFor(selected[..k], times)))])
  }

  lemma NextIdIsFresh(s: System, p: nat, selected: seq<string>, jobIds: seq<string>, times: seq<Timestamp>, k: nat)
    requires p < |s.publishers| && 0 < k <= |selected| == |jobIds| == |times|
    requires Elements(selected) <= s.rows.Keys && FreshIds(s, jobIds)
    ensures FreshId(Underway(s, p, selected, jobIds, times, k - 1), jobIds[k - 1])
  {
    var before := Underway(s, p, selected, jobIds, times, k - 1);
    assert Elements(selected[..k - 1]) <= Elements(selected);
    JobsForIds(s.rows, selected[..k - 1], jobIds);
    forall i | 0 <= i < |before.sent| ensures before.sent[i].jobId != jobIds[k - 1] {
      if i >= |s.sent| {
        assert before.sent[i] == JobsFor(s.rows, selected[..k - 1], jobIds)[i - |s.sent|];
      } else {
        assert before.sent[i] == s.sent[i] && FreshId(s, jobIds[k - 1]);
      }
    }
  }

  lemma SendAndMarkOne(s: System, p: nat, selected: seq<string>, jobIds: seq<string>, times: seq<Timestamp>,
                       k: nat, maxAttempts: int)
    requires p < |s.publishers| && 0 < k <= |selected| == |jobIds| == |times|
    requires Elements(selected) <= s.rows.Keys && FreshIds(s, jobIds)
    ensures var before := Underway(s, p, selected, jobIds, times, k - 1);
            var sent := Next(before, Send(p, jobIds[k - 1]), maxAttempts);
            Next(sent, Mark(p, times[k - 1]), maxAttempts) == Underway(s, p, selected, jobIds, times, k)
  {
    var before := Underway(s, p, selected, jobIds, times, k - 1);
    var e := selected[k - 1];
    assert e in Elements(selected) && Elements(selected[..k - 1]) <= Elements(selected);
    assert selected[..k][..k - 1] == selected[..k - 1] && selected[..k][k - 1] == e;
    NextIdIsFresh(s, p, selected, jobIds, times, k);
    var done := Underway(s, p, selected, jobIds, times, k);
    var job := JobFor(s.rows[e], jobIds[k - 1]);
    assert done.sent == before.sent + [job] && done.queue.jobs == before.queue.jobs + [job];
  }

  lemma StepsRegroup(a: seq<Step>, b: seq<Step>, c: seq<Step>, d: seq<Step>)
    ensures a + (b + c + d) == a + b + c + d
  {
  }

  lemma BeginOnly(
      s: System, p: nat, selected: seq<string>, jobIds: seq<string>, times: seq<Timestamp>, maxAttempts: int)
    requires |jobIds| == |times| == |selected| && Enabled(s, Begin(p, selected))
    ensures Run(s, [Begin(p, selected)], maxAttempts) == Underway(s, p, selected, jobIds, times, 0)
  {
    var none: seq<Step> := [];
    RunAppend(s, none, Begin(p, selected), maxAttempts);
    assert none + [Begin(p, selected)] == [Begin(p, selected)];
    assert s.queue.jobs + [] == s.queue.jobs && s.sent + [] == s.sent;
  }

  lemma SendAndMarkNext(s: System, p: nat, front: seq<Step>, selected: seq<string>, jobIds: seq<string>,
                        times: seq<Timestamp>, k: nat, maxAttempts: int)
    requires p < |s.publishers| && 0 < k <= |selected| == |jobIds| == |times|
    requires Elements(selected) <= s.rows.Keys && FreshIds(s, jobIds)
    requires Run(s, front, maxAttempts) == Underway(s, p, selected, jobIds, times, k - 1)
    ensures Run(s, front + [Send(p, jobIds[k - 1])] + [Mark(p, times[k - 1])], maxAttempts)
         == Underway(s, p, selected, jobIds, times, k)
  {
    RunAppend(s, front, Send(p, jobIds[k - 1]), maxAttempts);
    RunAppend(s, front + [Send(p, jobIds[k - 1])], Mark(p, times[k - 1]), maxAttempts);
    SendAndMarkOne(s, p, selected, jobIds, times, k, maxAttempts);
  }

  lemma {:induction false} SendAndMarkAll(s: System, p: nat, selected: seq<string>, jobIds: seq<string>,
                                          times: seq<Timestamp>, k: nat, maxAttempts: int)
    requires |jobIds| == |times| == |selected| && k <= |selected|
    requires Enabled(s, Begin(p, selected)) && FreshIds(s, jobIds)
    ensures Run(s, [Begin(p, selected)] + SendAndMark(p, jobIds, times, k), maxAttempts)
         == Underway(s, p, selected, jobIds, times, k)
  {
    var begin := [Begin(p, selected)];
    if k == 0 {
      BeginOnly(s, p, selected, jobIds, times, maxAttempts);
      assert begin + SendAndMark(p, jobIds, times, 0) == begin;
    } else {
      var sent := SendAndMark(p, jobIds, times, k - 1);
      SendAndMarkAll(s, p, selected, jobIds, times, k - 1, maxAttempts);
      SendAndMarkNext(s, p, begin + sent, selected, jobIds, times, k, maxAttempts);
      StepsRegroup(begin, sent, [Send(p, jobIds[k - 1])], [Mark(p, times[k - 1])]);
    }
  }

  /** An uninterrupted publish_pending_events by an idle publisher is Begin, then Send and Mark for each
      row, then Commit: the rows and the queue end as the method's contract says. */
  lemma PublishIsSteps(s: System, p: nat, limit: nat, selected: seq<string>, jobIds: seq<string>,
                       times: seq<Timestamp>, maxAttempts: int)
    requires p < |s.publishers| && s.publishers[p].None?
    requires IsSelection(s.rows, Locked(s), limit, selected) && |selected| > 0
    requires |jobIds| == |times| == |selected| && FreshIds(s, jobIds)
    ensures var jobs := JobsFor(s.rows, selected, jobIds);
            Run(s, PublishSteps(p, selected, jobIds, times), maxAttempts) ==
            s.(rows := Committed(s.rows, MarksFor(selected, times)),
               queue := s.queue.(jobs := s.queue.jobs + jobs),
               sent := s.sent + jobs)
  {
    assert Enabled(s, Begin(p, selected));
    SendAndMarkAll(s, p, selected, jobIds, times, |selected|, maxAttempts);
    var front := [Begin(p, selected)] + SendAndMark(p, jobIds, times, |selected|);
    RunAppend(s, front, Commit(p), maxAttempts);
    assert selected[..|selected|] == selected;
    var done := Underway(s, p, selected, jobIds, times, |selected|);
    assert done.publishers[p := None] == s.publishers;
  }

  // ---- One stop can lose a published event; one abort can duplicate one ----

  lemma {:induction false} RunConcat(s: System, a: seq<Step>, b: seq<Step>, maxAttempts: int)
    ensures Run(s, a + b, maxAttempts) == Run(Run(s, a, maxAttempts), b, maxAttempts)
  {
    if |b| == 0 {
      assert a + b == a;
    } else {
      assert (a + b)[..|a + b| - 1] == a + b[..|b| - 1];
      RunConcat(s, a, b[..|b| - 1], maxAttempts);
    }
  }

  /** Publishing the only row of a system with one idle publisher. */
  lemma PublishOnlyRow(s: System, row: OutboxRow, jobId: string, now: Timestamp, maxAttempts: int)
    requires s.rows == map[row.id := row] && row.publishedAt.None?
    requires s.publishers == [None] && FreshId(s, jobId)
    ensures Run(s, PublishSteps(0, [row.id], [jobId], [now]), maxAttempts) ==
            s.(rows := map[row.id := row.(publishedAt := Some(now))],
               queue := s.queue.(jobs := s.queue.jobs + [JobFor(row, jobId)]),
               sent := s.sent + [JobFor(row, jobId)])
  {
    var selected := [row.id];
    assert Elements(selected) == {row.id} && Available(s.rows, Locked(s)) == {row.id};
    assert FreshIds(s, [jobId]);
    PublishIsSteps(s, 0, 1, selected, [jobId], [now], maxAttempts);
    JobsForIds(s.rows, selected, [jobId]);
    assert JobsFor(s.rows, selected, [jobId]) == [JobFor(row, jobId)];
    assert selected[..0] == [];
    assert MarksFor(selected, [now]) == map[row.id := now];
    assert Committed(s.rows, map[row.id := now]) == map[row.id := row.(publishedAt := Some(now))];
  }

  lemma InsertOnlyRow(row: OutboxRow, maxAttempts: int)
    requires row.publishedAt.None?
    ensures Run(Init(1, 1), [Insert(row)], maxAttempts) == Init(1, 1).(rows := map[row.id := row])
    ensures Init(1, 1).publishers == [None] && Init(1, 1).workers == [None]
  {
    RunAppend(Init(1, 1), [], Insert(row), maxAttempts);
    assert [] + [Insert(row)] == [Insert(row)];
  }

  lemma RunPair(s: System, first: Step, second: Step, maxAttempts: int)
    ensures Run(s, [first, second], maxAttempts) == Next(Next(s, first, maxAttempts), second, maxAttempts)
  {
    RunAppend(s, [], first, maxAttempts);
    RunAppend(s, [first], second, maxAttempts);
    assert [] + [first] == [first] && [first] + [second] == [first, second];
  }

  /** The only worker takes the only job and stops: the job is lost and nothing is kept. */
  lemma OnlyJobLost(s: System, job: Job, maxAttempts: int)
    requires s.queue == QueueState([job], []) && s.workers == [None] && s.handled == [] && s.lost == []
    ensures Run(s, [Take(0), Finish(0, Stopped)], maxAttempts)
         == s.(queue := QueueState([], []), lost := [job], calls := s.calls + 1)
  {
    RunPair(s, Take(0), Finish(0, Stopped), maxAttempts);
  }

  /** Publish one event, let one worker take its job, stop the worker: the event is published and kept nowhere. */
  lemma OneStopLosesAnEvent(row: OutboxRow, jobId: string, now: Timestamp, maxAttempts: int)
    requires row.publishedAt.None?
    ensures var steps := [Insert(row)] + PublishSteps(0, [row.id], [jobId], [now]) + [Take(0), Finish(0, Stopped)];
            var s := Run(Init(1, 1), steps, maxAttempts);
            IsPublished(s, row.id) && !KeptFor(s, row.id) && Carries(s.lost, row.id)
  {
    var insert, publish := [Insert(row)], PublishSteps(0, [row.id], [jobId], [now]);
    InsertOnlyRow(row, maxAttempts);
    RunConcat(Init(1, 1), insert, publish, maxAttempts);
    PublishOnlyRow(Run(Init(1, 1), insert, maxAttempts), row, jobId, now, maxAttempts);
    var published := Run(Init(1, 1), insert + publish, maxAttempts);
    RunConcat(Init(1, 1), insert + publish, [Take(0), Finish(0, Stopped)], maxAttempts);
    OnlyJobLost(published, JobFor(row, jobId), maxAttempts);
    var s := Run(published, [Take(0), Finish(0, Stopped)], maxAttempts);
    assert !Carries(s.queue.jobs, row.id) && !Carries(s.handled, row.id) && !Carries(DeadJobs(s.queue.dead), row.id);
    EventOfJobFor(row, jobId);
    assert s.lost[0] == JobFor(row, jobId);
  }

  lemma SendThenAbort(s: System, row: OutboxRow, jobId: string, maxAttempts: int)
    requires s.rows == map[row.id := row] && row.publishedAt.None? && s.publishers == [None] && FreshId(s, jobId)
    ensures Run(s, [Begin(0, [row.id]), Send(0, jobId)] + [Abort(0)], maxAttempts) ==
            s.(queue := s.queue.(jobs := s.queue.jobs + [JobFor(row, jobId)]),
               sent := s.sent + [JobFor(row, jobId)],
               aborted := s.aborted + [Batch([row.id], 1, 0, map[])])
  {
    assert Elements([row.id]) == {row.id} && Available(s.rows, Locked(s)) == {row.id};
    RunPair(s, Begin(0, [row.id]), Send(0, jobId), maxAttempts);
    RunAppend(s, [Begin(0, [row.id]), Send(0, jobId)], Abort(0), maxAttempts);
  }

  /** Abort a batch after it enqueued, then publish: two jobs with different ids carry the same event,
      so the bound of one plus the aborts is reached. */
  lemma OneAbortDuplicatesAnEvent(row: OutboxRow, jobId1: string, jobId2: string, now: Timestamp, maxAttempts: int)
    requires row.publishedAt.None? && jobId1 != jobId2
    ensures var steps := [Insert(row)] + ([Begin(0, [row.id]), Send(0, jobId1)] + [Abort(0)])
                         + PublishSteps(0, [row.id], [jobId2], [now]);
            var s := Run(Init(1, 1), steps, maxAttempts);
            IsPublished(s, row.id) && |s.aborted| == 1 && s.sent == [JobFor(row, jobId1), JobFor(row, jobId2)]
  {
    var insert, abort := [Insert(row)], [Begin(0, [row.id]), Send(0, jobId1)] + [Abort(0)];
    InsertOnlyRow(row, maxAttempts);
    RunConcat(Init(1, 1), insert, abort, maxAttempts);
    SendThenAbort(Run(Init(1, 1), insert, maxAttempts), row, jobId1, maxAttempts);
    var aborted := Run(Init(1, 1), insert + abort, maxAttempts);
    RunConcat(Init(1, 1), insert + abort, PublishSteps(0, [row.id], [jobId2], [now]), maxAttempts);
    PublishOnlyRow(aborted, row, jobId2, now, maxAttempts);
  }
}
