/** publish_pending_events: select unpublished rows, enqueue and mark each one, commit the batch. */
module Outbox {
  import opened Basics
  import opened Events
  import opened Queue

  /** The outbox_events table by primary key. */
  type Table = map<string, OutboxRow>

  function Min(a: nat, b: nat): nat {
    if a < b then a else b
  }

  /** Rows the SELECT can return: unpublished and not locked by another transaction. */
  function Available(rows: Table, locked: set<string>): set<string> {
    set e | e in rows && rows[e].publishedAt.None? && e !in locked
  }

  ghost predicate Distinct(s: seq<string>) {
    forall i, j :: 0 <= i < j < |s| ==> s[i] != s[j]
  }

  function Elements(s: seq<string>): set<string> {
    set e | e in s
  }

  ghost predicate OldestFirst(rows: Table, s: seq<string>)
    requires Elements(s) <= rows.Keys
  {
    forall i, j :: 0 <= i < j < |s| ==> rows[s[i]].createdAt.instant <= rows[s[j]].createdAt.instant
  }

  /** An answer the database may give: the oldest available rows up to the limit, oldest first.
      Rows created at the same instant may come in any order. */
  ghost predicate IsSelection(rows: Table, locked: set<string>, limit: nat, selected: seq<string>) {
    var available := Available(rows, locked);
    && Distinct(selected)
    && Elements(selected) <= available
    && |selected| == Min(limit, |available|)
    && OldestFirst(rows, selected)
    && (forall e, f :: e in selected && f in available && f !in selected ==>
          rows[e].createdAt.instant <= rows[f].createdAt.instant)
  }

  function Committed(rows: Table, marks: map<string, Timestamp>): Table {
    map e | e in rows :: if e in marks then rows[e].(publishedAt := Some(marks[e])) else rows[e]
  }

  function MarksFor(selected: seq<string>, times: seq<Timestamp>): map<string, Timestamp>
    requires |times| >= |selected|
  {
    if |selected| == 0 then map[]
    else MarksFor(selected[..|selected| - 1], times)[selected[|selected| - 1] := times[|selected| - 1]]
  }

  function JobsFor(rows: Table, selected: seq<string>, jobIds: seq<string>): seq<Job>
    requires |jobIds| >= |selected| && Elements(selected) <= rows.Keys
  {
    if |selected| == 0 then []
    else
      var k := |selected| - 1;
      assert selected[k] in selected && Elements(selected[..k]) <= Elements(selected);
      JobsFor(rows, selected[..k], jobIds) + [JobFor(rows[selected[k]], jobIds[k])]
  }

  lemma {:induction false} MarksForKeys(selected: seq<string>, times: seq<Timestamp>)
    requires |times| >= |selected|
    ensures MarksFor(selected, times).Keys == Elements(selected)
  {
    if |selected| == 0 {
    } else {
      var front, last := selected[..|selected| - 1], selected[|selected| - 1];
      MarksForKeys(front, times);
      assert selected == front + [last];
      assert Elements(selected) == Elements(front) + {last};
    }
  }

  lemma {:induction false} MarksForAt(selected: seq<string>, times: seq<Timestamp>)
    requires Distinct(selected) && |times| >= |selected|
    ensures forall k :: 0 <= k < |selected| ==>
              selected[k] in MarksFor(selected, times) && MarksFor(selected, times)[selected[k]] == times[k]
  {
    if |selected| == 0 {
    } else {
      var front, last := selected[..|selected| - 1], selected[|selected| - 1];
      MarksForAt(front, times);
      assert selected == front + [last];
    }
  }

  lemma {:induction false} JobsForIds(rows: Table, selected: seq<string>, jobIds: seq<string>)
    requires |jobIds| >= |selected| && Elements(selected) <= rows.Keys
    ensures |JobsFor(rows, selected, jobIds)| == |selected|
    ensures forall k :: 0 <= k < |selected| ==>
              selected[k] in rows && JobsFor(rows, selected, jobIds)[k] == JobFor(rows[selected[k]], jobIds[k])
  {
    assert forall k :: 0 <= k < |selected| ==> selected[k] in Elements(selected);
    if |selected| == 0 {
    } else {
      assert Elements(selected[..|selected| - 1]) <= Elements(selected);
      JobsForIds(rows, selected[..|selected| - 1], jobIds);
    }
  }

  /** Each job is the one for its row, and carries its id. */
  ghost predicate JobsInOrder(rows: Table, ids: seq<string>, jobIds: seq<string>, jobs: seq<Job>) {
    && |jobs| == |ids| == |jobIds|
    && forall k :: 0 <= k < |ids| ==> ids[k] in rows && jobs[k] == JobFor(rows[ids[k]], jobIds[k])
  }

  lemma JobsForInOrder(rows: Table, selected: seq<string>, jobIds: seq<string>, queued: seq<Job>, queued': seq<Job>)
    requires |jobIds| == |selected| && Elements(selected) <= rows.Keys
    requires queued' == queued + JobsFor(rows, selected, jobIds)
    ensures queued <= queued' && JobsInOrder(rows, selected, jobIds, queued'[|queued|..])
  {
    JobsForIds(rows, selected, jobIds);
    assert queued'[|queued|..] == JobsFor(rows, selected, jobIds);
  }

  /** The selected rows are published, each at its time; the others and everything else stay as they were. */
  ghost predicate PublishedAt(rows: Table, rows': Table, selected: seq<string>, times: seq<Timestamp>)
    requires |times| == |selected| && Elements(selected) <= rows.Keys
  {
    && rows'.Keys == rows.Keys
    && (forall k :: 0 <= k < |selected| ==>
          selected[k] in Elements(selected) && rows'[selected[k]] == rows[selected[k]].(publishedAt := Some(times[k])))
    && (forall e :: e in rows && e !in selected ==> rows'[e] == rows[e])
  }

  lemma CommittedAt(rows: Table, selected: seq<string>, times: seq<Timestamp>)
    requires Distinct(selected) && |times| == |selected| && Elements(selected) <= rows.Keys
    ensures PublishedAt(rows, Committed(rows, MarksFor(selected, times)), selected, times)
  {
    MarksForAt(selected, times);
    MarksForKeys(selected, times);
    assert forall k :: 0 <= k < |selected| ==> selected[k] in Elements(selected);
  }

  class Session {
    var rows: Table
    var marks: map<string, Timestamp>

    constructor (rows: Table)
      ensures this.rows == rows && marks == map[]
    {
      this.rows, marks := rows, map[];
    }

    /** event.published_at = now: visible to the database only at commit. */
    method Mark(event: string, now: Timestamp)
      modifies this`marks
      ensures marks == old(marks)[event := now]
    {
      marks := marks[event := now];
    }

    method Commit()
      modifies this
      ensures rows == Committed(old(rows), old(marks)) && marks == map[]
    {
      rows := map e | e in rows :: if e in marks then rows[e].(publishedAt := Some(marks[e])) else rows[e];
      marks := map[];
    }
  }

  /** `selected` is the database's answer; job ids and times are drawn from uuid4() and the clock. */
  method PublishPendingEvents(session: Session, queue: InMemoryJobQueue, ghost locked: set<string>, ghost limit: nat,
                              selected: seq<string>, jobIds: seq<string>, times: seq<Timestamp>) returns (count: nat)
    requires session.marks == map[]
    requires IsSelection(session.rows, locked, limit, selected)
    requires |jobIds| == |times| == |selected|
    modifies session, queue
    ensures count == |selected|
    ensures queue.jobs == old(queue.jobs) + JobsFor(old(session.rows), selected, jobIds)
    ensures queue.deadLetters == old(queue.deadLetters)
    ensures session.rows == Committed(old(session.rows), MarksFor(selected, times)) && session.marks == map[]
    ensures PublishedAt(old(session.rows), session.rows, selected, times)
    ensures old(queue.jobs) <= queue.jobs
    ensures JobsInOrder(old(session.rows), selected, jobIds, queue.jobs[|old(queue.jobs)|..])
  {
    ghost var rows := session.rows;
    for k := 0 to |selected|
      invariant session.rows == rows
      invariant session.marks == MarksFor(selected[..k], times)
      invariant Elements(selected[..k]) <= rows.Keys
      invariant queue.jobs == old(queue.jobs) + JobsFor(rows, selected[..k], jobIds)
      invariant queue.deadLetters == old(queue.deadLetters)
    {
      var event := selected[k];
      assert event in Elements(selected);
      queue.Enqueue(JobFor(session.rows[event], jobIds[k]));
      session.Mark(event, times[k]);
      assert selected[..k + 1][..k] == selected[..k];
    }
    assert selected[..|selected|] == selected;
    if |selected| > 0 {
      session.Commit();
    } else {
      assert Committed(rows, map[]) == rows;
    }
    count := |selected|;
    CommittedAt(rows, selected, times);
    JobsForInOrder(rows, selected, jobIds, old(queue.jobs), queue.jobs);
  }

  // ---- The database can always answer ----

  lemma {:induction false} OldestExists(rows: Table, s: set<string>) returns (e: string)
    requires s != {} && s <= rows.Keys
    ensures e in s && forall f :: f in s ==> rows[e].createdAt.instant <= rows[f].createdAt.instant
    decreases |s|
  {
    e :| e in s;
    if s != {e} {
      var f := OldestExists(rows, s - {e});
      if rows[f].createdAt.instant < rows[e].createdAt.instant {
        e := f;
      }
    }
  }

  lemma ConsOldestFirst(rows: Table, first: string, rest: seq<string>)
    requires first in rows && Elements(rest) <= rows.Keys && Elements([first] + rest) <= rows.Keys
    requires first !in rest && Distinct(rest) && OldestFirst(rows, rest)
    requires forall f :: f in rest ==> rows[first].createdAt.instant <= rows[f].createdAt.instant
    ensures Distinct([first] + rest) && OldestFirst(rows, [first] + rest)
  {
    var selected := [first] + rest;
    forall i, j | 0 <= i < j < |selected|
      ensures selected[i] != selected[j]
      ensures rows[selected[i]].createdAt.instant <= rows[selected[j]].createdAt.instant
    {
      assert selected[j] == rest[j - 1];
      assert i > 0 ==> selected[i] == rest[i - 1];
    }
  }

  lemma SelectionOfCons(rows: Table, locked: set<string>, limit: nat, first: string, rest: seq<string>)
    requires limit > 0 && first in Available(rows, locked)
    requires forall f :: f in Available(rows, locked) ==>
               rows[first].createdAt.instant <= rows[f].createdAt.instant
    requires Available(rows, locked + {first}) == Available(rows, locked) - {first}
    requires IsSelection(rows, locked + {first}, limit - 1, rest)
    ensures IsSelection(rows, locked, limit, [first] + rest)
  {
    var selected := [first] + rest;
    assert Elements(selected) == {first} + Elements(rest);
    forall f | f in rest ensures f in Available(rows, locked) && f != first {
      assert f in Elements(rest);
    }
    ConsOldestFirst(rows, first, rest);
  }

  lemma {:induction false} SelectionExists(rows: Table, locked: set<string>, limit: nat) returns (selected: seq<string>)
    ensures IsSelection(rows, locked, limit, selected)
    decreases limit
  {
    var available := Available(rows, locked);
    if limit == 0 || available == {} {
      return [];
    }
    var first := OldestExists(rows, available);
    assert Available(rows, locked + {first}) == available - {first};
    var rest := SelectionExists(rows, locked + {first}, limit - 1);
    selected := [first] + rest;
    SelectionOfCons(rows, locked, limit, first, rest);
  }

  // ---- Repeated publishing until nothing is pending ----

  /** One non-empty call: what was selected, and the job ids and times it drew. */
  datatype Call = Call(selected: seq<string>, jobIds: seq<string>, times: seq<Timestamp>)

  /** A single publisher calling with the same limit until the outbox has no pending row. */
  ghost predicate IsRun(rows: Table, limit: nat, calls: seq<Call>)
    decreases |calls|
  {
    if |calls| == 0 then Available(rows, {}) == {}
    else
      && IsSelection(rows, {}, limit, calls[0].selected)
      && |calls[0].selected| > 0
      && |calls[0].jobIds| == |calls[0].times| == |calls[0].selected|
      && IsRun(Committed(rows, MarksFor(calls[0].selected, calls[0].times)), limit, calls[1..])
  }

  function Published(calls: seq<Call>): seq<string> {
    if |calls| == 0 then [] else calls[0].selected + Published(calls[1..])
  }

  function JobIds(calls: seq<Call>): seq<string> {
    if |calls| == 0 then [] else calls[0].jobIds + JobIds(calls[1..])
  }

  /** The jobs the calls enqueue, each from the table as the call finds it. */
  ghost function Enqueued(rows: Table, limit: nat, calls: seq<Call>): seq<Job>
    requires IsRun(rows, limit, calls)
    decreases |calls|
  {
    if |calls| == 0 then []
    else
      JobsFor(rows, calls[0].selected, calls[0].jobIds) +
      Enqueued(Committed(rows, MarksFor(calls[0].selected, calls[0].times)), limit, calls[1..])
  }

  lemma JobsRegroup(a: seq<Job>, b: seq<Job>, c: seq<Job>)
    ensures a + (b + c) == a + b + c
  {
  }

  /** Publishing until nothing is pending is a run: it enqueues the run's jobs and leaves no pending row. */
  method PublishUntilEmpty(session: Session, queue: InMemoryJobQueue, ghost limit: nat, calls: seq<Call>)
    requires session.marks == map[] && IsRun(session.rows, limit, calls)
    modifies session, queue
    ensures queue.jobs == old(queue.jobs) + Enqueued(old(session.rows), limit, calls)
    ensures queue.deadLetters == old(queue.deadLetters)
    ensures Available(session.rows, {}) == {} && session.marks == map[]
    decreases |calls|
  {
    if |calls| == 0 {
    } else {
      var call := calls[0];
      ghost var rows, jobs := session.rows, queue.jobs;
      var count := PublishPendingEvents(session, queue, {}, limit, call.selected, call.jobIds, call.times);
      ghost var rows' := session.rows;
      PublishUntilEmpty(session, queue, limit, calls[1..]);
      JobsRegroup(jobs, JobsFor(rows, call.selected, call.jobIds), Enqueued(rows', limit, calls[1..]));
    }
  }

  lemma {:induction false} DistinctCount(s: seq<string>)
    requires Distinct(s)
    ensures |Elements(s)| == |s|
  {
    if |s| == 0 {
    } else {
      DistinctCount(s[1..]);
      assert s == [s[0]] + s[1..];
      assert Elements(s) == {s[0]} + Elements(s[1..]);
    }
  }

  lemma CommitShrinksAvailable(rows: Table, selected: seq<string>, times: seq<Timestamp>)
    requires |times| >= |selected|
    ensures Available(Committed(rows, MarksFor(selected, times)), {}) == Available(rows, {}) - Elements(selected)
  {
    MarksForKeys(selected, times);
  }

  /** n pending rows take ceil(n / limit) calls: written without division. */
  ghost predicate IsCeiling(calls: nat, n: nat, limit: nat) {
    (n == 0 <==> calls == 0) && (n > 0 ==> (calls - 1) * limit < n) && n <= calls * limit
  }

  lemma CeilingStep(calls: nat, n: nat, taken: nat, limit: nat)
    requires 1 <= taken <= limit && (n > 0 ==> taken == limit)
    requires IsCeiling(calls, n, limit)
    ensures IsCeiling(calls + 1, n + taken, limit)
  {
    assert (calls + 1) * limit == calls * limit + limit;
    if n > 0 {
      assert calls * limit == (calls - 1) * limit + limit;
    }
  }

  lemma ElementsOfConcat(a: seq<string>, b: seq<string>)
    ensures Elements(a + b) == Elements(a) + Elements(b)
  {
  }

  lemma FirstThenRest(rows: Table, limit: nat, first: seq<string>, rest: seq<string>)
    requires IsSelection(rows, {}, limit, first)
    requires Distinct(rest) && Elements(rest) == Available(rows, {}) - Elements(first)
    requires OldestFirst(rows, rest)
    ensures Distinct(first + rest) && Elements(first + rest) == Available(rows, {})
    ensures OldestFirst(rows, first + rest)
  {
    var s := first + rest;
    ElementsOfConcat(first, rest);
    assert forall k :: 0 <= k < |s| ==> s[k] in Elements(s);
    forall i, j | 0 <= i < j < |s|
      ensures s[i] != s[j] && rows[s[i]].createdAt.instant <= rows[s[j]].createdAt.instant
    {
      if i < |first| <= j {
        assert s[i] in Elements(first) && s[j] == rest[j - |first|] && s[j] in Elements(rest);
      } else if |first| <= i {
        assert s[i] == rest[i - |first|] && s[j] == rest[j - |first|];
      }
    }
  }

  lemma PendingCount(rows: Table, rows': Table, limit: nat, first: seq<string>)
    requires IsSelection(rows, {}, limit, first)
    requires Available(rows', {}) == Available(rows, {}) - Elements(first)
    ensures |Available(rows, {})| == |Available(rows', {})| + |first|
    ensures |first| <= limit && (|Available(rows', {})| > 0 ==> |first| == limit)
  {
    DistinctCount(first);
  }

  /** The first call of a run leaves a shorter run, with as many rows fewer as the call took. */
  lemma FirstCall(rows: Table, limit: nat, calls: seq<Call>) returns (rows': Table, taken: nat)
    requires IsRun(rows, limit, calls) && |calls| > 0
    ensures IsRun(rows', limit, calls[1..])
    ensures |Available(rows, {})| == |Available(rows', {})| + taken
    ensures 1 <= taken <= limit && (|Available(rows', {})| > 0 ==> taken == limit)
  {
    var first, times := calls[0].selected, calls[0].times;
    rows' := Committed(rows, MarksFor(first, times));
    taken := |first|;
    CommitShrinksAvailable(rows, first, times);
    PendingCount(rows, rows', limit, first);
  }

  lemma {:induction false} RunCallCount(rows: Table, limit: nat, calls: seq<Call>)
    requires limit >= 1 && IsRun(rows, limit, calls)
    ensures IsCeiling(|calls|, |Available(rows, {})|, limit)
    decreases |calls|
  {
    if |calls| == 0 {
    } else {
      var rows', taken := FirstCall(rows, limit, calls);
      RunCallCount(rows', limit, calls[1..]);
      CeilingStep(|calls[1..]|, |Available(rows', {})|, taken, limit);
    }
  }

  lemma OldestFirstBefore(rows: Table, marks: map<string, Timestamp>, s: seq<string>)
    requires Elements(s) <= rows.Keys && OldestFirst(Committed(rows, marks), s)
    ensures OldestFirst(rows, s)
  {
    assert forall k :: 0 <= k < |s| ==> s[k] in Elements(s);
  }

  lemma {:induction false} RunOldestFirst(rows: Table, limit: nat, calls: seq<Call>)
    requires IsRun(rows, limit, calls)
    ensures Distinct(Published(calls)) && Elements(Published(calls)) == Available(rows, {})
    ensures OldestFirst(rows, Published(calls))
    decreases |calls|
  {
    if |calls| == 0 {
    } else {
      var first, rest, times := calls[0].selected, Published(calls[1..]), calls[0].times;
      RunOldestFirst(Committed(rows, MarksFor(first, times)), limit, calls[1..]);
      CommitShrinksAvailable(rows, first, times);
      OldestFirstBefore(rows, MarksFor(first, times), rest);
      FirstThenRest(rows, limit, first, rest);
    }
  }

  /** A run of n pending rows takes ceil(n / limit) calls and publishes each row once, oldest first. */
  lemma RunPublishesOldestFirst(rows: Table, limit: nat, calls: seq<Call>)
    requires limit >= 1 && IsRun(rows, limit, calls)
    ensures IsCeiling(|calls|, |Available(rows, {})|, limit)
    ensures Distinct(Published(calls)) && Elements(Published(calls)) == Available(rows, {})
    ensures OldestFirst(rows, Published(calls))
  {
    RunCallCount(rows, limit, calls);
    RunOldestFirst(rows, limit, calls);
  }

  lemma JobIgnoresMark(rows: Table, marks: map<string, Timestamp>, e: string, jobId: string)
    requires e in rows
    ensures JobFor(Committed(rows, marks)[e], jobId) == JobFor(rows[e], jobId)
  {
  }

  lemma JobsInOrderConcat(rows: Table, a: seq<string>, idsA: seq<string>, jobsA: seq<Job>,
                          b: seq<string>, idsB: seq<string>, jobsB: seq<Job>)
    requires JobsInOrder(rows, a, idsA, jobsA) && JobsInOrder(rows, b, idsB, jobsB)
    ensures JobsInOrder(rows, a + b, idsA + idsB, jobsA + jobsB)
  {
  }

  lemma JobsInOrderBefore(
      rows: Table, marks: map<string, Timestamp>, ids: seq<string>, jobIds: seq<string>, jobs: seq<Job>)
    requires JobsInOrder(Committed(rows, marks), ids, jobIds, jobs)
    ensures JobsInOrder(rows, ids, jobIds, jobs)
  {
    forall k | 0 <= k < |ids| ensures ids[k] in rows && jobs[k] == JobFor(rows[ids[k]], jobIds[k]) {
      JobIgnoresMark(rows, marks, ids[k], jobIds[k]);
    }
  }

  /** The jobs of a run, in queue order: one for each published row, in the order of publishing, built from the
      row as it was before the run. */
  lemma {:induction false} RunEnqueuesInOrder(rows: Table, limit: nat, calls: seq<Call>)
    requires IsRun(rows, limit, calls)
    ensures JobsInOrder(rows, Published(calls), JobIds(calls), Enqueued(rows, limit, calls))
    decreases |calls|
  {
    if |calls| == 0 {
    } else {
      var first, ids, marks := calls[0].selected, calls[0].jobIds, MarksFor(calls[0].selected, calls[0].times);
      var rows' := Committed(rows, marks);
      JobsForIds(rows, first, ids);
      RunEnqueuesInOrder(rows', limit, calls[1..]);
      var rest, restIds, restJobs := Published(calls[1..]), JobIds(calls[1..]), Enqueued(rows', limit, calls[1..]);
      JobsInOrderBefore(rows, marks, rest, restIds, restJobs);
      JobsInOrderConcat(rows, first, ids, JobsFor(rows, first, ids), rest, restIds, restJobs);
    }
  }

  ghost predicate DistinctTimes(rows: Table) {
    forall e, f :: e in Available(rows, {}) && f in Available(rows, {}) && e != f ==>
      rows[e].createdAt.instant != rows[f].createdAt.instant
  }

  function Earlier(rows: Table): (string, string) -> bool {
    (e, f) => e in rows && f in rows && rows[e].createdAt.instant < rows[f].createdAt.instant
  }

  lemma StrictlyOldestFirst(rows: Table, s: seq<string>)
    requires DistinctTimes(rows) && Distinct(s) && Elements(s) == Available(rows, {}) && OldestFirst(rows, s)
    ensures StrictlySorted(s, Earlier(rows))
    ensures forall x :: x in s <==> x in Available(rows, {})
  {
    assert forall x :: x in s <==> x in Elements(s);
    assert forall k :: 0 <= k < |s| ==> s[k] in Elements(s);
  }

  /** When no two pending rows share a creation time, the published sequence does not depend on the limit. */
  lemma LimitDoesNotMatter(rows: Table, limit1: nat, calls1: seq<Call>, limit2: nat, calls2: seq<Call>)
    requires limit1 >= 1 && limit2 >= 1 && DistinctTimes(rows)
    requires IsRun(rows, limit1, calls1) && IsRun(rows, limit2, calls2)
    ensures Published(calls1) == Published(calls2)
  {
    RunPublishesOldestFirst(rows, limit1, calls1);
    RunPublishesOldestFirst(rows, limit2, calls2);
    StrictlyOldestFirst(rows, Published(calls1));
    StrictlyOldestFirst(rows, Published(calls2));
    SortedListingUnique(Published(calls1), Published(calls2), Earlier(rows));
  }

  /** Such a run exists for every limit >= 1. */
  lemma {:induction false} RunExists(rows: Table, limit: nat, now: Timestamp) returns (calls: seq<Call>)
    requires limit >= 1
    ensures IsRun(rows, limit, calls)
    decreases |Available(rows, {})|
  {
    if Available(rows, {}) == {} {
      return [];
    }
    var selected := SelectionExists(rows, {}, limit);
    var times := seq(|selected|, _ => now);
    CommitShrinksAvailable(rows, selected, times);
    assert selected[0] in Elements(selected);
    var rest := RunExists(Committed(rows, MarksFor(selected, times)), limit, now);
    calls := [Call(selected, seq(|selected|, _ => ""), times)] + rest;
  }
}
