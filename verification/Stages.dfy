/** start_processing_run and the stage idempotency key. */
module Stages {
  import opened Basics
  import Lifecycle

  const PIPELINE_STAGES := ["preprocess", "ocr", "classify", "extract", "validate"]

  function StageKey(versionId: string, stage: string, pipelineVersion: string): string {
    versionId + ":" + stage + ":" + pipelineVersion
  }

  datatype VersionState = VersionState(tenantId: string, status: Lifecycle.Status)

  datatype ProcessingStatus = Pending | Running

  datatype ProcessingRun = ProcessingRun(
    id: string, tenantId: string, versionId: string, pipelineVersion: string, status: ProcessingStatus)

  datatype StageRun = StageRun(
    tenantId: string, runId: string, stage: string, status: ProcessingStatus, idempotencyKey: string)

  /** The rows start_processing_run touches. */
  datatype Tables = Tables(versions: map<string, VersionState>, runs: seq<ProcessingRun>, stages: seq<StageRun>)

  datatype StartRequest = StartRequest(tenantId: string, versionId: string, pipelineVersion: string, runId: string)

  predicate InScope(t: Tables, r: StartRequest) {
    r.versionId in t.versions && t.versions[r.versionId].tenantId == r.tenantId
  }

  function Started(t: Tables, r: StartRequest): Tables {
    if !InScope(t, r) then t
    else Tables(
      t.versions[r.versionId := VersionState(r.tenantId, Lifecycle.Processing)],
      t.runs + [ProcessingRun(r.runId, r.tenantId, r.versionId, r.pipelineVersion, Running)],
      t.stages + [StageRun(r.tenantId, r.runId, PIPELINE_STAGES[0], Pending,
                           StageKey(r.versionId, PIPELINE_STAGES[0], r.pipelineVersion))])
  }

  class ProcessingState {
    var versions: map<string, VersionState>
    var runs: seq<ProcessingRun>
    var stages: seq<StageRun>

    ghost function State(): Tables
      reads this
    {
      Tables(versions, runs, stages)
    }

    constructor (versions: map<string, VersionState>)
      ensures State() == Tables(versions, [], [])
    {
      this.versions, runs, stages := versions, [], [];
    }

    /** None where the source raises ValueError. The status is set without looking at the lifecycle table. */
    method StartProcessingRun(r: StartRequest) returns (run: Option<ProcessingRun>)
      modifies this
      ensures State() == Started(old(State()), r)
      ensures run == if InScope(old(State()), r)
                     then Some(ProcessingRun(r.runId, r.tenantId, r.versionId, r.pipelineVersion, Running)) else None
      ensures run.Some? ==>
                && runs == old(runs) + [run.value]
                && versions == old(versions)[r.versionId := VersionState(r.tenantId, Lifecycle.Processing)]
                && stages == old(stages) + [StageRun(
                     r.tenantId, r.runId, "preprocess", Pending, r.versionId + ":preprocess:" + r.pipelineVersion)]
      ensures run.None? ==> State() == old(State())
    {
      if r.versionId !in versions || versions[r.versionId].tenantId != r.tenantId {
        return None;
      }
      var created := ProcessingRun(r.runId, r.tenantId, r.versionId, r.pipelineVersion, Running);
      versions := versions[r.versionId := versions[r.versionId].(status := Lifecycle.Processing)];
      runs := runs + [created];
      stages := stages + [StageRun(r.tenantId, r.runId, PIPELINE_STAGES[0], Pending,
                                   StageKey(r.versionId, PIPELINE_STAGES[0], r.pipelineVersion))];
      run := Some(created);
      assert r.versionId + ":" + "preprocess" + ":" + r.pipelineVersion
          == r.versionId + ":preprocess:" + r.pipelineVersion;
    }
  }

  predicate ColonFree(s: string) {
    ':' !in s
  }

  lemma SplitAtColon(a: string, b: string, x: string, y: string)
    requires ColonFree(a) && ColonFree(b) && a + ":" + x == b + ":" + y
    ensures a == b && x == y
  {
    var s := a + ":" + x;
    assert s[|a|] == ':' && s[|b|] == ':';
    assert forall k :: 0 <= k < |a| ==> s[k] == a[k] && a[k] in a;
    assert forall k :: 0 <= k < |b| ==> s[k] == b[k] && b[k] in b;
    assert s[..|a|] == a && s[..|b|] == b && s[|a| + 1..] == x && s[|b| + 1..] == y;
  }

  /** UUIDs and stage names hold no colon, so a key determines version, stage and pipeline version,
      whatever text the pipeline version is. */
  lemma StageKeyInjective(v: string, stage: string, p: string, v': string, stage': string, p': string)
    requires ColonFree(v) && ColonFree(v') && ColonFree(stage) && ColonFree(stage')
    ensures StageKey(v, stage, p) == StageKey(v', stage', p') <==> v == v' && stage == stage' && p == p'
    ensures var key := StageKey(v, stage, p);
            && |key| == |v| + |stage| + |p| + 2
            && key[..|v| + 1] == v + ":" && key[|v| + 1..|v| + |stage| + 2] == stage + ":"
            && key[|v| + |stage| + 2..] == p
  {
    assert StageKey(v, stage, p) == (v + ":") + (stage + ":") + p;
    if StageKey(v, stage, p) == StageKey(v', stage', p') {
      assert StageKey(v, stage, p) == v + ":" + (stage + ":" + p);
      assert StageKey(v', stage', p') == v' + ":" + (stage' + ":" + p');
      SplitAtColon(v, v', stage + ":" + p, stage' + ":" + p');
      SplitAtColon(stage, stage', p, p');
    }
  }

  function RunAll(t: Tables, requests: seq<StartRequest>): Tables {
    if |requests| == 0 then t
    else Started(RunAll(t, requests[..|requests| - 1]), requests[|requests| - 1])
  }

  function WithKey(stages: seq<StageRun>, key: string): nat {
    if |stages| == 0 then 0
    else WithKey(stages[..|stages| - 1], key) + (if stages[|stages| - 1].idempotencyKey == key then 1 else 0)
  }

  /** Accepted starts of one version under one pipeline version. */
  function AcceptedStarts(
      t: Tables, requests: seq<StartRequest>, versionId: string, pipelineVersion: string): nat
  {
    if |requests| == 0 then 0
    else
      var front, r := requests[..|requests| - 1], requests[|requests| - 1];
      AcceptedStarts(t, front, versionId, pipelineVersion) +
      (if InScope(RunAll(t, front), r) && r.versionId == versionId && r.pipelineVersion == pipelineVersion
       then 1 else 0)
  }

  /** The key does not deduplicate runs: every accepted start of a version adds one more first-stage row
      under the same key, distinct for the unique index only through its run id. */
  lemma {:induction false} EveryStartRepeatsTheKey(
      t: Tables, requests: seq<StartRequest>, versionId: string, pipelineVersion: string)
    requires t.stages == [] && ColonFree(versionId)
    requires forall k :: 0 <= k < |requests| ==> ColonFree(requests[k].versionId)
    ensures WithKey(RunAll(t, requests).stages, StageKey(versionId, PIPELINE_STAGES[0], pipelineVersion))
         == AcceptedStarts(t, requests, versionId, pipelineVersion)
  {
    if |requests| == 0 {
    } else {
      var front, r := requests[..|requests| - 1], requests[|requests| - 1];
      var before, after := RunAll(t, front), RunAll(t, requests);
      var first := PIPELINE_STAGES[0];
      EveryStartRepeatsTheKey(t, front, versionId, pipelineVersion);
      StageKeyInjective(r.versionId, first, r.pipelineVersion, versionId, first, pipelineVersion);
      if InScope(before, r) {
        assert after.stages[..|before.stages|] == before.stages;
      }
    }
  }

  // ---- The unique index on (processing_run_id, stage, idempotency_key) ----

  function IndexEntry(row: StageRun): (string, string, string) {
    (row.runId, row.stage, row.idempotencyKey)
  }

  ghost predicate IndexHolds(stages: seq<StageRun>) {
    forall i, j :: 0 <= i < j < |stages| ==> IndexEntry(stages[i]) != IndexEntry(stages[j])
  }

  /** The start is accepted, and an earlier accepted one drew the same run id for the same version and pipeline. */
  ghost predicate Repeats(t: Tables, requests: seq<StartRequest>, i: nat, j: nat)
    requires i < j < |requests|
  {
    && InScope(t, requests[i]) && InScope(t, requests[j])
    && requests[i].runId == requests[j].runId
    && requests[i].versionId == requests[j].versionId
    && requests[i].pipelineVersion == requests[j].pipelineVersion
  }

  /** Starts change neither which versions exist nor whose they are. */
  lemma {:induction false} ScopeStays(t: Tables, requests: seq<StartRequest>, r: StartRequest)
    ensures InScope(RunAll(t, requests), r) <==> InScope(t, r)
  {
    if |requests| == 0 {
    } else {
      ScopeStays(t, requests[..|requests| - 1], r);
    }
  }

  function EntryFor(r: StartRequest): (string, string, string) {
    (r.runId, PIPELINE_STAGES[0], StageKey(r.versionId, PIPELINE_STAGES[0], r.pipelineVersion))
  }

  /** The accepted requests, in order. */
  function AcceptedAt(t: Tables, requests: seq<StartRequest>): (from: seq<nat>)
    ensures forall k :: 0 <= k < |from| ==> from[k] < |requests|
  {
    if |requests| == 0 then []
    else
      var n := |requests| - 1;
      AcceptedAt(t, requests[..n]) + (if InScope(t, requests[n]) then [n] else [])
  }

  lemma {:induction false} AcceptedAtExactly(t: Tables, requests: seq<StartRequest>)
    ensures forall i: nat :: i in AcceptedAt(t, requests) <==> i < |requests| && InScope(t, requests[i])
    ensures forall k, l :: 0 <= k < l < |AcceptedAt(t, requests)| ==>
              AcceptedAt(t, requests)[k] < AcceptedAt(t, requests)[l]
  {
    if |requests| == 0 {
    } else {
      var n := |requests| - 1;
      AcceptedAtExactly(t, requests[..n]);
      assert forall i: nat :: i < n ==> requests[..n][i] == requests[i];
    }
  }

  /** Each accepted request leaves one stage row, and nothing else does. */
  lemma {:induction false} RowsFollowRequests(t: Tables, requests: seq<StartRequest>)
    requires t.stages == []
    ensures var stages, from := RunAll(t, requests).stages, AcceptedAt(t, requests);
            |stages| == |from| && forall k :: 0 <= k < |from| ==> IndexEntry(stages[k]) == EntryFor(requests[from[k]])
  {
    if |requests| == 0 {
    } else {
      var n := |requests| - 1;
      RowsFollowRequests(t, requests[..n]);
      ScopeStays(t, requests[..n], requests[n]);
    }
  }

  /** Runs and stage rows of a series of starts: one of each for each accepted request, in order, and the k-th
      stage row is the first stage of the k-th run. */
  lemma {:induction false} StartsStoreRuns(t: Tables, requests: seq<StartRequest>)
    requires t.stages == [] && t.runs == []
    ensures var after, from := RunAll(t, requests), AcceptedAt(t, requests);
            && |after.runs| == |after.stages| == |from|
            && forall k :: 0 <= k < |from| ==>
                 var r := requests[from[k]];
                 && after.runs[k] == ProcessingRun(r.runId, r.tenantId, r.versionId, r.pipelineVersion, Running)
                 && after.stages[k].runId == after.runs[k].id && after.stages[k].tenantId == after.runs[k].tenantId
                 && after.stages[k].stage == "preprocess" && after.stages[k].status == Pending
                 && after.stages[k].idempotencyKey == r.versionId + ":preprocess:" + r.pipelineVersion
  {
    if |requests| == 0 {
    } else {
      var n := |requests| - 1;
      var r := requests[n];
      StartsStoreRuns(t, requests[..n]);
      ScopeStays(t, requests[..n], r);
      assert r.versionId + ":" + "preprocess" + ":" + r.pipelineVersion
          == r.versionId + ":preprocess:" + r.pipelineVersion;
    }
  }

  lemma PositionsOf(from: seq<nat>, i: nat, j: nat) returns (k: nat, l: nat)
    requires forall k, l :: 0 <= k < l < |from| ==> from[k] < from[l]
    requires i in from && j in from && i < j
    ensures k < l < |from| && from[k] == i && from[l] == j
  {
    k :| 0 <= k < |from| && from[k] == i;
    l :| 0 <= l < |from| && from[l] == j;
  }

  lemma SameEntry(a: StartRequest, b: StartRequest)
    requires ColonFree(a.versionId) && ColonFree(b.versionId)
    ensures EntryFor(a) == EntryFor(b) <==>
            a.runId == b.runId && a.versionId == b.versionId && a.pipelineVersion == b.pipelineVersion
  {
    StageKeyInjective(a.versionId, PIPELINE_STAGES[0], a.pipelineVersion,
                      b.versionId, PIPELINE_STAGES[0], b.pipelineVersion);
  }

  /** The index refuses something exactly when two accepted starts of one version and pipeline version drew the
      same run id; with distinct run ids it never does, so it keeps no version from being started twice. */
  lemma IndexHoldsIff(t: Tables, requests: seq<StartRequest>)
    requires t.stages == []
    requires forall k :: 0 <= k < |requests| ==> ColonFree(requests[k].versionId)
    ensures IndexHolds(RunAll(t, requests).stages) <==>
            forall i, j :: 0 <= i < j < |requests| ==> !Repeats(t, requests, i, j)
  {
    var stages, from := RunAll(t, requests).stages, AcceptedAt(t, requests);
    AcceptedAtExactly(t, requests);
    RowsFollowRequests(t, requests);
    forall k, l | 0 <= k < l < |stages|
      ensures Repeats(t, requests, from[k], from[l]) <==> IndexEntry(stages[k]) == IndexEntry(stages[l])
    {
      assert from[k] in from && from[l] in from;
      SameEntry(requests[from[k]], requests[from[l]]);
    }
    if i, j :| 0 <= i < j < |requests| && Repeats(t, requests, i, j) {
      var k, l := PositionsOf(from, i, j);
      assert IndexEntry(stages[k]) == IndexEntry(stages[l]);
    }
  }

  // ---- Which starts the lifecycle would allow ----

  /** Requests that name the version in its own tenant. */
  predicate Names(r: StartRequest, t: Tables, versionId: string)
    requires versionId in t.versions
  {
    r.versionId == versionId && r.tenantId == t.versions[versionId].tenantId
  }

  function TimesNamed(t: Tables, requests: seq<StartRequest>, versionId: string): nat
    requires versionId in t.versions
  {
    if |requests| == 0 then 0
    else
      TimesNamed(t, requests[..|requests| - 1], versionId) +
      (if Names(requests[|requests| - 1], t, versionId) then 1 else 0)
  }

  ghost predicate AllowedAt(t: Tables, requests: seq<StartRequest>, versionId: string, k: nat)
    requires k < |requests|
  {
    var before := RunAll(t, requests[..k]);
    versionId in before.versions && Lifecycle.Processing in Lifecycle.Allowed(before.versions[versionId].status)
  }

  /** Each start of the version in the run is a transition the lifecycle table allows from the status it finds. */
  ghost predicate StartsAllowed(t: Tables, requests: seq<StartRequest>, versionId: string)
    requires versionId in t.versions
  {
    forall k :: 0 <= k < |requests| && Names(requests[k], t, versionId) ==> AllowedAt(t, requests, versionId, k)
  }

  /** After any run of starts a version is processing exactly when a request named it or it already was:
      approved and rejected versions too, which the lifecycle table would never let go. */
  lemma {:induction false} StartsOverrideLifecycle(t: Tables, requests: seq<StartRequest>, versionId: string)
    requires versionId in t.versions
    ensures var before, after := t.versions[versionId], RunAll(t, requests);
            && versionId in after.versions
            && after.versions[versionId] ==
               if TimesNamed(t, requests, versionId) > 0 then before.(status := Lifecycle.Processing) else before
  {
    if |requests| == 0 {
    } else {
      StartsOverrideLifecycle(t, requests[..|requests| - 1], versionId);
    }
  }

  lemma StartsAllowedSplit(t: Tables, requests: seq<StartRequest>, versionId: string)
    requires versionId in t.versions && |requests| > 0
    ensures var n := |requests| - 1;
            StartsAllowed(t, requests, versionId) <==>
            && StartsAllowed(t, requests[..n], versionId)
            && (Names(requests[n], t, versionId) ==> AllowedAt(t, requests, versionId, n))
  {
    var n := |requests| - 1;
    forall k | 0 <= k < n
      ensures requests[..n][k] == requests[k]
      ensures AllowedAt(t, requests[..n], versionId, k) <==> AllowedAt(t, requests, versionId, k)
    {
      assert requests[..n][..k] == requests[..k];
    }
    if StartsAllowed(t, requests, versionId) {
      assert forall k :: 0 <= k < n && Names(requests[..n][k], t, versionId) ==> AllowedAt(t, requests, versionId, k);
    }
  }

  /** The starts of a version are all transitions of the lifecycle exactly when it is never named, or named once
      while uploaded, needing review or failed: a second start always finds it processing already. */
  lemma {:induction false} StartsAllowedIff(t: Tables, requests: seq<StartRequest>, versionId: string)
    requires versionId in t.versions
    ensures var status, named := t.versions[versionId].status, TimesNamed(t, requests, versionId);
            StartsAllowed(t, requests, versionId) <==>
            named == 0 || (named == 1 && (status.Uploaded? || status.NeedsReview? || status.Failed?))
  {
    if |requests| == 0 {
    } else {
      var front := requests[..|requests| - 1];
      StartsAllowedIff(t, front, versionId);
      StartsAllowedSplit(t, requests, versionId);
      StartsOverrideLifecycle(t, front, versionId);
    }
  }
}
