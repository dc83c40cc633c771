/** What an accepted intake request writes, field by field, and what a worker later gets to see of it. */
module IntakeForm {
  import opened Basics
  import opened Json
  import opened Canonical
  import opened Events
  import opened Queue
  import opened Intake
  import opened IntakeRuns
  import opened IntakeRaces
  import opened IntakeOutcomes

  // ---- The text that is hashed ----

  lemma FirstCharacterDecides(a: string, b: string)
    requires |a| > 0 && |b| > 0 && a[0] < b[0]
    ensures CodePointsBefore(a, b)
  {
    assert DivergeAt(a, b, 0);
  }

  function TextOrNull(t: Option<string>): Json {
    if t.Some? then Str(t.value) else Null
  }

  /** The canonical text of a case request. */
  lemma CaseHashText(c: Command)
    requires c.CreateCase?
    ensures RequestHash(c) == Dump(Obj([
              Member("case_type", Str(c.caseRequest.caseType)),
              Member("external_ref", TextOrNull(c.caseRequest.externalRef))]))
  {
    var ms := Body(c).members;
    FirstCharacterDecides("case_type", "external_ref");
    SortedByListing(ms, ms);
  }

  /** The members of an upload request, keys ascending: "sha256" comes before "size_bytes". */
  function SortedUpload(c: Command): seq<Member>
    requires c.CreateUpload?
  {
    [
      Member("case_id", Str(c.forCase)),
      Member("document_type", Str(c.document.documentType)),
      Member("filename", Str(c.document.filename)),
      Member("mime_type", Str(c.document.mimeType)),
      Member("sha256", Str(c.document.sha256)),
      Member("size_bytes", Int(c.document.sizeBytes))
    ]
  }

  lemma UploadMembersSame(c: Command)
    requires c.CreateUpload?
    ensures forall m :: m in Body(c).members <==> m in SortedUpload(c)
  {
    var a, b := Body(c).members, SortedUpload(c);
    assert a[0] == b[0] && a[1] == b[1] && a[2] == b[2] && a[3] == b[3] && a[4] == b[5] && a[5] == b[4];
  }

  lemma UploadKeysAscend(c: Command, i: nat, j: nat)
    requires c.CreateUpload? && i < j < 6
    ensures CodePointsBefore(SortedUpload(c)[i].key, SortedUpload(c)[j].key)
  {
    var a, b := SortedUpload(c)[i].key, SortedUpload(c)[j].key;
    if i == 4 {
      assert "sha256"[..1] == "s" == "size_bytes"[..1];
      assert DivergeAt("sha256", "size_bytes", 1);
    } else {
      assert a[0] < b[0];
      FirstCharacterDecides(a, b);
    }
  }

  /** The canonical text of an upload request. */
  lemma UploadHashText(c: Command)
    requires c.CreateUpload?
    ensures RequestHash(c) == Dump(Obj([
              Member("case_id", Str(c.forCase)),
              Member("document_type", Str(c.document.documentType)),
              Member("filename", Str(c.document.filename)),
              Member("mime_type", Str(c.document.mimeType)),
              Member("sha256", Str(c.document.sha256)),
              Member("size_bytes", Int(c.document.sizeBytes))]))
  {
    BodyWellKeyed(c);
    UploadMembersSame(c);
    forall i, j | 0 <= i < j < 6 ensures CodePointsBefore(SortedUpload(c)[i].key, SortedUpload(c)[j].key) {
      UploadKeysAscend(c, i, j);
    }
    SortedByListing(Body(c).members, SortedUpload(c));
  }

  // ---- The rows of one accepted request ----

  /** A case request with a good unused key. */
  ghost predicate Creatable(s: Store, c: Command) {
    && c.CreateCase?
    && RequireKey(c.key).Some?
    && FindRecord(s.records, c.tenant, RequireKey(c.key).value).None?
  }

  /** An accepted case request adds one case, record, event and audit row, and nothing else. */
  lemma CaseWritten(s: Store, c: Command)
    requires Creatable(s, c)
    ensures var r, response := c.caseRequest, Obj([
              Member("id", Str(c.caseId)),
              Member("tenant_id", Str(c.tenant)),
              Member("case_type", Str(c.caseRequest.caseType)),
              Member("status", Str("open")),
              Member("external_ref", TextOrNull(c.caseRequest.externalRef))]);
            Serve(s, c) == (
              Store(
                s.cases + [CaseRow(c.caseId, c.tenant, r.caseType, "open", r.externalRef)],
                s.documents,
                s.versions,
                s.records + [RecordRow(c.tenant, RequireKey(c.key).value, RequestHash(c), response, "case", c.caseId)],
                s.outbox + [OutboxRow(
                  c.eventId, c.tenant, "case", c.caseId, "case.created", 1,
                  Obj([Member("case_id", Str(c.caseId)), Member("case_type", Str(r.caseType))]), c.now, None)],
                s.audit + [AuditRow(
                  c.tenant, "case.created", "case", c.caseId, Obj([Member("case_type", Str(r.caseType))]))]),
              Ok(response))
  {
  }

  /** An accepted upload adds one document, version, record, event and audit row, and nothing else. The key of
      the stored object names tenant, case, document and version; the response repeats the slot. */
  lemma UploadWritten(s: Store, c: Command)
    requires Uploadable(s, c)
    ensures var d, response := c.document, Obj([
              Member("document_id", Str(c.documentId)),
              Member("document_version_id", Str(c.versionId)),
              Member("case_id", Str(c.forCase)),
              Member("document_type", Str(c.document.documentType)),
              Member("status", Str("uploaded")),
              Member("object_key", Str(c.slot.objectKey)),
              Member("upload_url", Str(c.slot.uploadUrl)),
              Member("upload_url_expires_at", Str(c.slot.expiresAt))]);
            var objectKey := "tenants/" + c.tenant + "/cases/" + c.forCase + "/documents/" + c.documentId
                             + "/versions/" + c.versionId;
            var hash := RequestHash(c);
            Serve(s, c) == (
              Store(
                s.cases,
                s.documents + [DocumentRow(c.documentId, c.tenant, c.forCase, d.documentType, "uploaded")],
                s.versions + [VersionRow(
                  c.versionId, c.tenant, c.documentId, objectKey, d.sha256, d.mimeType, d.sizeBytes, "uploaded")],
                s.records + [RecordRow(
                  c.tenant, RequireKey(c.key).value, hash, response, "document_version", c.versionId)],
                s.outbox + [OutboxRow(
                  c.eventId, c.tenant, "document_version", c.versionId, "document.uploaded", 1,
                  Obj([
                    Member("case_id", Str(c.forCase)),
                    Member("document_id", Str(c.documentId)),
                    Member("document_version_id", Str(c.versionId)),
                    Member("document_type", Str(d.documentType)),
                    Member("pipeline_version", Str("v1"))]),
                  c.now, None)],
                s.audit + [AuditRow(
                  c.tenant, "document.upload_slot_created", "document_version", c.versionId,
                  Obj([Member("document_type", Str(d.documentType)), Member("size_bytes", Int(d.sizeBytes))]))]),
              Ok(response))
  {
  }

  // ---- The events of a run ----

  /** The event of the request, as the source writes it. */
  ghost predicate IsEventOf(c: Command, row: OutboxRow) {
    && (row.id, row.tenantId, row.schemaVersion) == (c.eventId, c.tenant, 1)
    && (row.createdAt, row.publishedAt) == (c.now, None)
    && match c {
         case CreateCase(_, _, r, caseId, _, _) =>
           && (row.eventType, row.aggregateType, row.aggregateId) == ("case.created", "case", caseId)
           && row.payload == Obj([Member("case_id", Str(caseId)), Member("case_type", Str(r.caseType))])
         case CreateUpload(_, _, forCase, d, documentId, versionId, _, _, _) =>
           && (row.eventType, row.aggregateType) == ("document.uploaded", "document_version")
           && row.aggregateId == versionId
           && row.payload == Obj([
                Member("case_id", Str(forCase)),
                Member("document_id", Str(documentId)),
                Member("document_version_id", Str(versionId)),
                Member("document_type", Str(d.documentType)),
                Member("pipeline_version", Str("v1"))])
       }
  }

  lemma EventRowIs(c: Command)
    ensures IsEventOf(c, EventRowOf(c))
  {
  }

  /** Every outbox row of an interleaved run is the event of a request that committed. */
  lemma {:induction false} EventHasWriter(cs: seq<Command>, schedule: seq<nat>, k: nat) returns (j: nat)
    requires k < |Execute(EMPTY, cs, schedule).store.outbox|
    ensures j < |cs| && Wrote(EMPTY, cs, schedule, j)
    ensures IsEventOf(cs[j], Execute(EMPTY, cs, schedule).store.outbox[k])
  {
    var n := |schedule| - 1;
    var before := Execute(EMPTY, cs, schedule[..n]);
    if k < |before.store.outbox| {
      j := EventHasWriter(cs, schedule[..n], k);
    } else {
      j := schedule[n];
      assert DoneBy(Commits, EMPTY, cs, schedule, n, j);
      EventRowIs(cs[j]);
    }
    WroteSplit(EMPTY, cs, schedule, j);
  }

  /** The job for an event of a run, written to a queue and read back: first attempt, the event type of its
      request, and in its payload the event's id, tenant, aggregate and data. */
  lemma IntakeJobsDescribed(cs: seq<Command>, schedule: seq<nat>, k: nat, jobId: string) returns (j: nat)
    requires k < |Execute(EMPTY, cs, schedule).store.outbox|
    ensures j < |cs| && Wrote(EMPTY, cs, schedule, j)
    ensures var row := Execute(EMPTY, cs, schedule).store.outbox[k];
            var received := JobFromText(JobText(JobFor(row, jobId)));
            && received.Some? && received.value.jobId == jobId && received.value.attempt == 0
            && received.value.eventType == (if cs[j].CreateCase? then "case.created" else "document.uploaded")
            && var payload := received.value.payload;
               && Field(payload, "event_id") == Str(cs[j].eventId)
               && Field(payload, "event_type") == Str(received.value.eventType)
               && Field(payload, "tenant_id") == Str(cs[j].tenant)
               && Field(payload, "aggregate_id") == Str(if cs[j].CreateCase? then cs[j].caseId else cs[j].versionId)
               && Field(payload, "schema_version") == Int(1)
               && Field(payload, "occurred_at") == Str(cs[j].now.iso)
               && Field(payload, "payload") == row.payload
               && IsEventOf(cs[j], row)
  {
    var row := Execute(EMPTY, cs, schedule).store.outbox[k];
    j := EventHasWriter(cs, schedule, k);
    IntakeEventsReachTheWorker(cs, schedule, k, jobId);
    JobCarriesRow(row, jobId);
  }
}
