/** Intake requests interleaved at every database read and at the commit. Each request is scheduled any
    number of times; a request that is never scheduled again is one whose process died. */
module IntakeRaces {
  import opened Basics
  import opened Json
  import opened Events
  import opened Intake
  import opened IntakeRuns
  import Queue

  /** What the request does next. */
  datatype Phase = ReadingKey | ReadingCase | ReadingContent | Committing | Finished(reply: Reply)

  /** The store, each request's phase, and the requests that finished without losing the unique-key
      race, in the order in which they finished. */
  datatype System = System(store: Store, phases: seq<Phase>, order: seq<nat>)

  function Start(s: Store, cs: seq<Command>): System {
    System(s, seq(|cs|, _ => ReadingKey), [])
  }

  function Advance(phase: Phase, check: Option<Reply>, next: Phase): Phase {
    match check
    case Some(reply) => Finished(reply)
    case None => next
  }

  /** One database round trip. The commit inserts all rows, and only the unique (tenant, key) index can refuse it. */
  function NextPhase(s: Store, c: Command, phase: Phase): Phase {
    match phase
    case ReadingKey => Advance(phase, CheckKey(s, c), if c.CreateCase? then Committing else ReadingCase)
    case ReadingCase => Advance(phase, CheckCase(s, c), ReadingContent)
    case ReadingContent => Advance(phase, CheckContent(s, c), Committing)
    case Committing =>
      if RequireKey(c.key).Some? && FindRecord(s.records, c.tenant, RequireKey(c.key).value).None?
      then Finished(Ok(Response(c))) else Finished(Failed)
    case Finished(_) => phase
  }

  predicate Commits(s: Store, c: Command, phase: Phase) {
    phase.Committing? && RequireKey(c.key).Some? && FindRecord(s.records, c.tenant, RequireKey(c.key).value).None?
  }

  function Step(sys: System, cs: seq<Command>, i: nat): System
    requires |sys.phases| == |cs|
  {
    if i >= |cs| then sys
    else
      var phase := sys.phases[i];
      var phase' := NextPhase(sys.store, cs[i], phase);
      System(
        if Commits(sys.store, cs[i], phase) then Write(sys.store, cs[i]) else sys.store,
        sys.phases[i := phase'],
        if !phase.Finished? && phase'.Finished? && phase' != Finished(Failed) then sys.order + [i] else sys.order)
  }

  function Execute(s: Store, cs: seq<Command>, schedule: seq<nat>): (sys: System)
    ensures |sys.phases| == |cs|
  {
    if |schedule| == 0 then Start(s, cs)
    else Step(Execute(s, cs, schedule[..|schedule| - 1]), cs, schedule[|schedule| - 1])
  }

  // ---- Which steps of a run are of some kind ----

  /** The k-th step of the run, seen from the store it reads, is of this kind. */
  predicate At(kind: (Store, Command, Phase) -> bool, s: Store, cs: seq<Command>, schedule: seq<nat>, k: nat)
    requires k < |schedule|
  {
    var before, i := Execute(s, cs, schedule[..k]), schedule[k];
    i < |cs| && kind(before.store, cs[i], before.phases[i])
  }

  ghost predicate Somewhere(kind: (Store, Command, Phase) -> bool, s: Store, cs: seq<Command>, schedule: seq<nat>) {
    exists k :: 0 <= k < |schedule| && At(kind, s, cs, schedule, k)
  }

  lemma SomewhereSplit(kind: (Store, Command, Phase) -> bool, s: Store, cs: seq<Command>, schedule: seq<nat>)
    requires |schedule| > 0
    ensures Somewhere(kind, s, cs, schedule) <==>
            Somewhere(kind, s, cs, schedule[..|schedule| - 1]) || At(kind, s, cs, schedule, |schedule| - 1)
  {
    var n := |schedule| - 1;
    var front := schedule[..n];
    forall k | 0 <= k < n ensures At(kind, s, cs, front, k) <==> At(kind, s, cs, schedule, k) {
      assert front[..k] == schedule[..k];
    }
    if k :| 0 <= k < |schedule| && At(kind, s, cs, schedule, k) {
      assert k < n ==> At(kind, s, cs, front, k);
    }
    if k :| 0 <= k < n && At(kind, s, cs, front, k) {
      assert At(kind, s, cs, schedule, k);
    }
  }

  /** An upload commits although a version with its content has been stored since it looked. */
  predicate StaleCommit(s: Store, c: Command, phase: Phase) {
    Commits(s, c, phase) && CheckContent(s, c).Some?
  }

  /** An upload is refused for its case or its content although its key has been recorded since it looked. */
  predicate LateRefusal(s: Store, c: Command, phase: Phase) {
    && RequireKey(c.key).Some? && FindRecord(s.records, c.tenant, RequireKey(c.key).value).Some?
    && (|| (phase.ReadingCase? && CheckCase(s, c).Some?)
        || (phase.ReadingContent? && CheckContent(s, c).Some?))
  }

  predicate Outdated(s: Store, c: Command, phase: Phase) {
    StaleCommit(s, c, phase) || LateRefusal(s, c, phase)
  }

  // ---- Which interleavings are serial in the order of finishing ----

  ghost predicate AllCases(cs: seq<Command>) {
    forall i :: 0 <= i < |cs| ==> cs[i].CreateCase?
  }

  function Select(cs: seq<Command>, order: seq<nat>): seq<Command>
    requires forall k :: 0 <= k < |order| ==> order[k] < |cs|
  {
    seq(|order|, k requires 0 <= k < |order| => cs[order[k]])
  }

  /** The store and the replies are those of running the finished requests one by one, in that order. */
  ghost predicate SerialInOrder(s: Store, cs: seq<Command>, sys: System)
    requires |sys.phases| == |cs|
  {
    && (forall k :: 0 <= k < |sys.order| ==> sys.order[k] < |cs|)
    && (var (store, replies) := RunSerial(s, Select(cs, sys.order));
        && store == sys.store
        && |replies| == |sys.order|
        && forall k :: 0 <= k < |sys.order| ==> sys.phases[sys.order[k]] == Finished(replies[k]))
  }

  /** Some finished request got another reply than in the serial run. */
  ghost predicate RepliesDiffer(s: Store, cs: seq<Command>, sys: System)
    requires |sys.phases| == |cs|
  {
    && (forall k :: 0 <= k < |sys.order| ==> sys.order[k] < |cs|)
    && (var replies := RunSerial(s, Select(cs, sys.order)).1;
        exists k :: 0 <= k < |sys.order| && k < |replies| && sys.phases[sys.order[k]] != Finished(replies[k]))
  }

  /** Every finished request is in the order, once, unless it lost the race for its key. */
  ghost predicate OrderComplete(cs: seq<Command>, sys: System)
    requires |sys.phases| == |cs|
  {
    && (forall i, j :: 0 <= i < j < |sys.order| ==> sys.order[i] != sys.order[j])
    && (forall k :: 0 <= k < |sys.order| ==> sys.order[k] < |cs| && sys.phases[sys.order[k]].Finished?)
    && (forall i :: 0 <= i < |cs| && sys.phases[i].Finished? ==> i in sys.order || sys.phases[i] == Finished(Failed))
  }

  /** An upload past its case check still finds the case: cases are never removed. */
  ghost predicate CasesSeen(cs: seq<Command>, sys: System)
    requires |sys.phases| == |cs|
  {
    forall i :: 0 <= i < |cs| && cs[i].CreateUpload? && (sys.phases[i].ReadingContent? || sys.phases[i].Committing?) ==>
      FindCase(sys.store.cases, cs[i].tenant, cs[i].forCase).Some?
  }

  /** Past the key check the key is good, and only uploads read cases and versions. */
  ghost predicate KeysSeen(cs: seq<Command>, sys: System)
    requires |sys.phases| == |cs|
  {
    forall i :: 0 <= i < |cs| ==>
      && (sys.phases[i].ReadingCase? || sys.phases[i].ReadingContent? ==> cs[i].CreateUpload?)
      && (sys.phases[i].ReadingKey? || sys.phases[i].Finished? || RequireKey(cs[i].key).Some?)
  }

  lemma StepKeepsCasesSeen(cs: seq<Command>, sys: System, i: nat)
    requires |sys.phases| == |cs| && i < |cs| && CasesSeen(cs, sys)
    ensures CasesSeen(cs, Step(sys, cs, i))
  {
    var sys', c := Step(sys, cs, i), cs[i];
    if Commits(sys.store, c, sys.phases[i]) && c.CreateCase? {
      forall j | 0 <= j < |cs| && cs[j].CreateUpload? && FindCase(sys.store.cases, cs[j].tenant, cs[j].forCase).Some?
        ensures FindCase(sys'.store.cases, cs[j].tenant, cs[j].forCase).Some?
      {
        FindCaseOfAppend(sys.store.cases, CaseRowOf(c), cs[j].tenant, cs[j].forCase);
      }
    }
  }

  /** A step that puts a request in the order answers it as the service alone would, unless it is outdated. */
  lemma FinishingStepIsServe(sys: System, cs: seq<Command>, i: nat)
    requires |sys.phases| == |cs| && i < |cs| && CasesSeen(cs, sys) && KeysSeen(cs, sys)
    ensures var sys' := Step(sys, cs, i);
            var (store, reply) := Serve(sys.store, cs[i]);
            var outdated := Outdated(sys.store, cs[i], sys.phases[i]);
            && KeysSeen(cs, sys')
            && (outdated ==> sys'.order == sys.order + [i] && sys'.phases[i] != Finished(reply))
            && (!outdated && sys'.order != sys.order ==>
                  sys'.order == sys.order + [i] && sys'.phases[i] == Finished(reply) && sys'.store == store)
            && (sys'.order == sys.order ==> sys'.store == sys.store)
            && (sys'.order != sys.order ==> !sys.phases[i].Finished?)
  {
  }

  lemma SelectAppend(cs: seq<Command>, order: seq<nat>, i: nat)
    requires i < |cs| && forall k :: 0 <= k < |order| ==> order[k] < |cs|
    ensures Select(cs, order + [i]) == Select(cs, order) + [cs[i]]
  {
  }

  lemma SerialExtended(s: Store, cs: seq<Command>, sys: System, sys': System, i: nat)
    requires |sys.phases| == |cs| && i < |cs| && SerialInOrder(s, cs, sys)
    requires sys'.order == sys.order + [i] && !sys.phases[i].Finished?
    requires (sys'.store, sys'.phases) ==
             (Serve(sys.store, cs[i]).0, sys.phases[i := Finished(Serve(sys.store, cs[i]).1)])
    ensures SerialInOrder(s, cs, sys')
  {
    SelectAppend(cs, sys.order, i);
    RunSerialAppend(s, Select(cs, sys.order), cs[i]);
    forall k | 0 <= k < |sys.order| ensures sys'.phases[sys.order[k]] == sys.phases[sys.order[k]] {
      assert sys.phases[sys.order[k]].Finished?;
    }
  }

  lemma SerialUnchanged(s: Store, cs: seq<Command>, sys: System, sys': System)
    requires |sys.phases| == |cs| == |sys'.phases| && SerialInOrder(s, cs, sys)
    requires sys'.order == sys.order && sys'.store == sys.store
    requires forall j :: 0 <= j < |cs| && sys.phases[j].Finished? ==> sys'.phases[j] == sys.phases[j]
    ensures SerialInOrder(s, cs, sys')
  {
    forall k | 0 <= k < |sys.order| ensures sys'.phases[sys.order[k]] == sys.phases[sys.order[k]] {
      assert sys.phases[sys.order[k]].Finished?;
    }
  }

  lemma StepStaysSerial(s: Store, cs: seq<Command>, sys: System, i: nat)
    requires |sys.phases| == |cs| && i < |cs| && CasesSeen(cs, sys) && KeysSeen(cs, sys)
    requires SerialInOrder(s, cs, sys) && !Outdated(sys.store, cs[i], sys.phases[i])
    ensures SerialInOrder(s, cs, Step(sys, cs, i))
  {
    var sys' := Step(sys, cs, i);
    FinishingStepIsServe(sys, cs, i);
    if sys'.order != sys.order {
      SerialExtended(s, cs, sys, sys', i);
    } else {
      SerialUnchanged(s, cs, sys, sys');
    }
  }

  /** An outdated step answers otherwise than the serial run. */
  lemma OutdatedStepDiffers(s: Store, cs: seq<Command>, sys: System, i: nat)
    requires |sys.phases| == |cs| && i < |cs| && CasesSeen(cs, sys) && KeysSeen(cs, sys)
    requires SerialInOrder(s, cs, sys) && Outdated(sys.store, cs[i], sys.phases[i])
    ensures RepliesDiffer(s, cs, Step(sys, cs, i))
  {
    var sys' := Step(sys, cs, i);
    FinishingStepIsServe(sys, cs, i);
    SelectAppend(cs, sys.order, i);
    RunSerialAppend(s, Select(cs, sys.order), cs[i]);
    assert sys'.order[|sys.order|] == i;
  }

  lemma SerialRepliesExtended(s: Store, cs: seq<Command>, order: seq<nat>, i: nat, k: nat)
    requires i < |cs| && forall j :: 0 <= j < |order| ==> order[j] < |cs|
    requires k < |RunSerial(s, Select(cs, order)).1|
    ensures var replies := RunSerial(s, Select(cs, order + [i])).1;
            k < |replies| && replies[k] == RunSerial(s, Select(cs, order)).1[k]
  {
    SelectAppend(cs, order, i);
    RunSerialAppend(s, Select(cs, order), cs[i]);
  }

  lemma StepKeepsFinished(cs: seq<Command>, sys: System, i: nat)
    requires |sys.phases| == |cs| && i < |cs|
    ensures var sys' := Step(sys, cs, i);
            && (sys'.order == sys.order || sys'.order == sys.order + [i])
            && forall j :: 0 <= j < |cs| && sys.phases[j].Finished? ==> sys'.phases[j] == sys.phases[j]
  {
  }

  /** Later steps change neither a reply already given nor the serial run up to it. */
  lemma DifferenceStays(s: Store, cs: seq<Command>, sys: System, sys': System, i: nat)
    requires |sys.phases| == |cs| == |sys'.phases| && i < |cs| && OrderComplete(cs, sys) && RepliesDiffer(s, cs, sys)
    requires sys'.order == sys.order || sys'.order == sys.order + [i]
    requires forall j :: 0 <= j < |cs| && sys.phases[j].Finished? ==> sys'.phases[j] == sys.phases[j]
    ensures RepliesDiffer(s, cs, sys')
  {
    var replies := RunSerial(s, Select(cs, sys.order)).1;
    var k :| 0 <= k < |sys.order| && k < |replies| && sys.phases[sys.order[k]] != Finished(replies[k]);
    assert sys.phases[sys.order[k]].Finished?;
    SerialRepliesExtended(s, cs, sys.order, i, k);
    assert sys'.order[k] == sys.order[k];
  }

  lemma StepStaysComplete(cs: seq<Command>, sys: System, i: nat)
    requires |sys.phases| == |cs| && i < |cs| && OrderComplete(cs, sys)
    ensures OrderComplete(cs, Step(sys, cs, i))
  {
    var sys' := Step(sys, cs, i);
    forall j | 0 <= j < |cs| && sys'.phases[j].Finished? ensures j in sys'.order || sys'.phases[j] == Finished(Failed) {
      assert j != i ==> sys'.phases[j] == sys.phases[j];
      assert forall x :: x in sys.order ==> x in sys'.order;
    }
  }

  /** From any store, an interleaving of any requests equals the serial run of the finished ones in the order
      they finished exactly when no upload commits over content stored since it looked, and none is refused
      for its case or content after its key was recorded; otherwise some reply differs. The requests
      left out failed on the unique index. */
  lemma {:induction false} SerialIffNothingOutdated(s: Store, cs: seq<Command>, schedule: seq<nat>)
    ensures var sys := Execute(s, cs, schedule);
            && OrderComplete(cs, sys) && CasesSeen(cs, sys) && KeysSeen(cs, sys)
            && (SerialInOrder(s, cs, sys) <==> !Somewhere(Outdated, s, cs, schedule))
            && (Somewhere(Outdated, s, cs, schedule) ==> RepliesDiffer(s, cs, sys))
  {
    if |schedule| == 0 {
      assert Select(cs, []) == [];
    } else {
      var front, i := schedule[..|schedule| - 1], schedule[|schedule| - 1];
      var before := Execute(s, cs, front);
      SerialIffNothingOutdated(s, cs, front);
      SomewhereSplit(Outdated, s, cs, schedule);
      if i < |cs| {
        StepStaysComplete(cs, before, i);
        StepKeepsCasesSeen(cs, before, i);
        FinishingStepIsServe(before, cs, i);
        if Somewhere(Outdated, s, cs, front) {
          StepKeepsFinished(cs, before, i);
          DifferenceStays(s, cs, before, Step(before, cs, i), i);
        } else if Outdated(before.store, cs[i], before.phases[i]) {
          OutdatedStepDiffers(s, cs, before, i);
        } else {
          StepStaysSerial(s, cs, before, i);
        }
      }
    }
  }

  /** So every interleaving of case requests is serial: same rows, same responses. */
  lemma CreateCaseIsLinearisable(s: Store, cs: seq<Command>, schedule: seq<nat>)
    requires AllCases(cs)
    ensures var sys := Execute(s, cs, schedule);
            SerialInOrder(s, cs, sys) && OrderComplete(cs, sys)
  {
    SerialIffNothingOutdated(s, cs, schedule);
    forall k | 0 <= k < |schedule| ensures !At(Outdated, s, cs, schedule, k) {
      SerialIffNothingOutdated(s, cs, schedule[..k]);
    }
  }

  // ---- Each record, outbox row and audit row belongs to one case or version ----

  datatype Resource = Resource(tenant: string, kind: string, id: string)

  function CaseResource(r: CaseRow): Resource { Resource(r.tenantId, "case", r.id) }
  function VersionResource(r: VersionRow): Resource { Resource(r.tenantId, "document_version", r.id) }
  function RecordResource(r: RecordRow): Resource { Resource(r.tenantId, r.resourceType, r.resourceId) }
  function OutboxResource(r: OutboxRow): Resource { Resource(r.tenantId, r.aggregateType, r.aggregateId) }
  function AuditResource(r: AuditRow): Resource { Resource(r.tenantId, r.resourceType, r.resourceId) }

  function Map<T, U>(f: T -> U, s: seq<T>): seq<U> {
    seq(|s|, k requires 0 <= k < |s| => f(s[k]))
  }

  function Recorded(s: Store): seq<Resource> {
    Map(RecordResource, s.records)
  }

  /** Records, outbox rows and audit rows name the same resources in the same order; cases and versions are
      those resources, each as often; and no two records share tenant and key. */
  ghost predicate Ledger(s: Store) {
    && Map(OutboxResource, s.outbox) == Recorded(s)
    && Map(AuditResource, s.audit) == Recorded(s)
    && multiset(Map(CaseResource, s.cases)) + multiset(Map(VersionResource, s.versions)) == multiset(Recorded(s))
    && UniqueKeys(s.records)
  }

  /** Each version has its document, and each document its case, in the same tenant. */
  ghost predicate TenantsAgree(s: Store) {
    && |s.documents| == |s.versions|
    && (forall k :: 0 <= k < |s.versions| ==>
          s.versions[k].documentId == s.documents[k].id && s.versions[k].tenantId == s.documents[k].tenantId)
    && (forall k :: 0 <= k < |s.documents| ==>
          FindCase(s.cases, s.documents[k].tenantId, s.documents[k].caseId).Some?)
  }

  lemma MapAppend<T, U>(f: T -> U, s: seq<T>, x: T)
    ensures Map(f, s + [x]) == Map(f, s) + [f(x)]
  {
  }

  lemma {:induction false} NoRecordAbsent(records: seq<RecordRow>, tenant: string, key: string)
    requires FindRecord(records, tenant, key).None?
    ensures forall k :: 0 <= k < |records| ==> records[k].tenantId != tenant || records[k].key != key
  {
    if |records| == 0 {
    } else {
      NoRecordAbsent(records[..|records| - 1], tenant, key);
    }
  }

  lemma WriteRecords(s: Store, c: Command)
    requires RequireKey(c.key).Some?
    ensures var r := [Resource(c.tenant, ResourceType(c), ResourceId(c))];
            && Recorded(Write(s, c)) == Recorded(s) + r
            && Map(OutboxResource, Write(s, c).outbox) == Map(OutboxResource, s.outbox) + r
            && Map(AuditResource, Write(s, c).audit) == Map(AuditResource, s.audit) + r
  {
    MapAppend(RecordResource, s.records, RecordOf(c, RequireKey(c.key).value));
    MapAppend(OutboxResource, s.outbox, EventRowOf(c));
    MapAppend(AuditResource, s.audit, AuditRowOf(c));
  }

  lemma WriteKeepsLedger(s: Store, c: Command)
    requires Ledger(s) && RequireKey(c.key).Some?
    requires FindRecord(s.records, c.tenant, RequireKey(c.key).value).None?
    ensures Ledger(Write(s, c))
    ensures Recorded(Write(s, c)) == Recorded(s) + [Resource(c.tenant, ResourceType(c), ResourceId(c))]
  {
    NoRecordAbsent(s.records, c.tenant, RequireKey(c.key).value);
    WriteRecords(s, c);
    if c.CreateCase? {
      MapAppend(CaseResource, s.cases, CaseRowOf(c));
    } else {
      MapAppend(VersionResource, s.versions, VersionRowOf(c));
    }
  }

  lemma WriteKeepsTenants(s: Store, c: Command)
    requires TenantsAgree(s) && RequireKey(c.key).Some?
    requires c.CreateUpload? ==> FindCase(s.cases, c.tenant, c.forCase).Some?
    ensures TenantsAgree(Write(s, c))
  {
    if c.CreateCase? {
      forall k | 0 <= k < |s.documents|
        ensures FindCase(s.cases + [CaseRowOf(c)], s.documents[k].tenantId, s.documents[k].caseId).Some?
      {
        FindCaseOfAppend(s.cases, CaseRowOf(c), s.documents[k].tenantId, s.documents[k].caseId);
      }
    }
  }

  ghost predicate Sound(cs: seq<Command>, sys: System)
    requires |sys.phases| == |cs|
  {
    Ledger(sys.store) && TenantsAgree(sys.store) && CasesSeen(cs, sys)
  }

  lemma StepStaysSound(cs: seq<Command>, sys: System, i: nat)
    requires |sys.phases| == |cs| && i < |cs| && Sound(cs, sys)
    ensures Sound(cs, Step(sys, cs, i))
  {
    var c := cs[i];
    StepKeepsCasesSeen(cs, sys, i);
    if Commits(sys.store, c, sys.phases[i]) {
      WriteKeepsLedger(sys.store, c);
      WriteKeepsTenants(sys.store, c);
    }
  }

  /** In every reachable state of the interleaved service, started empty, the bookkeeping rows match the
      business rows one to one and tenants agree from version to document to case. */
  lemma {:induction false} IntakeBijection(cs: seq<Command>, schedule: seq<nat>)
    ensures Sound(cs, Execute(EMPTY, cs, schedule))
  {
    if |schedule| == 0 {
    } else {
      var i := schedule[|schedule| - 1];
      IntakeBijection(cs, schedule[..|schedule| - 1]);
      if i < |cs| {
        StepStaysSound(cs, Execute(EMPTY, cs, schedule[..|schedule| - 1]), i);
      }
    }
  }

  /** A request changes the store only in the step that makes it succeed. */
  lemma OnlySuccessWrites(sys: System, cs: seq<Command>, i: nat)
    requires |sys.phases| == |cs| && i < |cs|
    ensures var sys' := Step(sys, cs, i);
            sys'.store != sys.store ==>
              && sys.phases[i].Committing?
              && sys'.phases[i] == Finished(Ok(Response(cs[i])))
              && sys'.store == Write(sys.store, cs[i])
  {
  }

  /** A stored record outlives every later step, so a request that has succeeded is replayed from then on. */
  lemma {:induction false} RecordOutlivesRaces(
      s: Store, cs: seq<Command>, schedule: seq<nat>, more: seq<nat>, tenant: string, key: string)
    requires FindRecord(Execute(s, cs, schedule).store.records, tenant, key).Some?
    ensures FindRecord(Execute(s, cs, schedule + more).store.records, tenant, key)
         == FindRecord(Execute(s, cs, schedule).store.records, tenant, key)
  {
    if |more| == 0 {
      assert schedule + more == schedule;
    } else {
      var front, i := more[..|more| - 1], more[|more| - 1];
      RecordOutlivesRaces(s, cs, schedule, front, tenant, key);
      assert (schedule + more)[..|schedule + more| - 1] == schedule + front;
      if i < |cs| && RequireKey(cs[i].key).Some? {
        FindRecordOfAppend(Execute(s, cs, schedule + front).store.records,
                           RecordOf(cs[i], RequireKey(cs[i].key).value), tenant, key);
      }
    }
  }

  // ---- Every outbox row can be published ----

  ghost predicate Publishable(rows: seq<OutboxRow>) {
    forall k :: 0 <= k < |rows| ==> rows[k].publishedAt.None? && WellKeyed(rows[k].payload)
  }

  lemma EventPayloadWellKeyed(c: Command)
    ensures WellKeyed(EventPayload(c))
  {
  }

  lemma {:induction false} OutboxRowsPublishable(cs: seq<Command>, schedule: seq<nat>)
    ensures Publishable(Execute(EMPTY, cs, schedule).store.outbox)
  {
    if |schedule| == 0 {
    } else {
      var i := schedule[|schedule| - 1];
      OutboxRowsPublishable(cs, schedule[..|schedule| - 1]);
      if i < |cs| { EventPayloadWellKeyed(cs[i]); }
    }
  }

  /** An event row written by any interleaving of intake requests, turned into a job, written to a queue as
      text and read back, names that event. */
  lemma IntakeEventsReachTheWorker(cs: seq<Command>, schedule: seq<nat>, k: nat, jobId: string)
    requires k < |Execute(EMPTY, cs, schedule).store.outbox|
    ensures var row := Execute(EMPTY, cs, schedule).store.outbox[k];
            var received := Queue.JobFromText(Queue.JobText(JobFor(row, jobId)));
            received == Some(JobFor(row, jobId)) && EventOf(received.value) == Some(row.id)
  {
    OutboxRowsPublishable(cs, schedule);
    EventSurvivesTheQueue(Execute(EMPTY, cs, schedule).store.outbox[k], jobId);
  }

  // ---- With distinct generated ids no resource is recorded twice ----

  ghost predicate DistinctIds(cs: seq<Command>) {
    forall i, j :: 0 <= i < j < |cs| ==> ResourceId(cs[i]) != ResourceId(cs[j])
  }

  /** A finished request drew this id. */
  ghost predicate FinishedWith(cs: seq<Command>, phases: seq<Phase>, id: string)
    requires |phases| == |cs|
  {
    exists i :: 0 <= i < |cs| && phases[i].Finished? && ResourceId(cs[i]) == id
  }

  ghost predicate RecordedOnce(cs: seq<Command>, sys: System)
    requires |sys.phases| == |cs|
  {
    && (forall i, j :: 0 <= i < j < |Recorded(sys.store)| ==> Recorded(sys.store)[i] != Recorded(sys.store)[j])
    && (forall k :: 0 <= k < |Recorded(sys.store)| ==>
          FinishedWith(cs, sys.phases, Recorded(sys.store)[k].id))
  }

  lemma IdNotYetUsed(cs: seq<Command>, sys: System, i: nat)
    requires |sys.phases| == |cs| && i < |cs| && DistinctIds(cs) && !sys.phases[i].Finished?
    ensures !FinishedWith(cs, sys.phases, ResourceId(cs[i]))
  {
  }

  lemma StepRecordsOnce(cs: seq<Command>, sys: System, i: nat)
    requires |sys.phases| == |cs| && i < |cs| && DistinctIds(cs) && Ledger(sys.store) && RecordedOnce(cs, sys)
    ensures RecordedOnce(cs, Step(sys, cs, i))
  {
    var sys', c := Step(sys, cs, i), cs[i];
    forall id | FinishedWith(cs, sys.phases, id) ensures FinishedWith(cs, sys'.phases, id) {
      var j :| 0 <= j < |cs| && sys.phases[j].Finished? && ResourceId(cs[j]) == id;
      assert sys'.phases[j].Finished?;
    }
    if Commits(sys.store, c, sys.phases[i]) {
      WriteKeepsLedger(sys.store, c);
      assert sys'.phases[i].Finished? && FinishedWith(cs, sys'.phases, ResourceId(c));
      IdNotYetUsed(cs, sys, i);
    }
  }

  /** With distinct generated ids every recorded resource is distinct and drawn by a finished request. */
  lemma {:induction false} ResourcesRecordedOnce(cs: seq<Command>, schedule: seq<nat>)
    requires DistinctIds(cs)
    ensures RecordedOnce(cs, Execute(EMPTY, cs, schedule))
  {
    if |schedule| == 0 {
      assert Recorded(EMPTY) == [];
    } else {
      var i := schedule[|schedule| - 1];
      ResourcesRecordedOnce(cs, schedule[..|schedule| - 1]);
      IntakeBijection(cs, schedule[..|schedule| - 1]);
      if i < |cs| {
        StepRecordsOnce(cs, Execute(EMPTY, cs, schedule[..|schedule| - 1]), i);
      }
    }
  }
}
