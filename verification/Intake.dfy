/** create_case and create_document_upload: idempotency check, refusals, and one commit of all rows. */
module Intake {
  import opened Basics
  import opened Json
  import opened Canonical
  import opened Text
  import opened Events

  // ---- Tables ----

  datatype CaseRow = CaseRow(
    id: string, tenantId: string, caseType: string, status: string, externalRef: Option<string>)

  datatype DocumentRow = DocumentRow(id: string, tenantId: string, caseId: string, documentType: string, status: string)

  datatype VersionRow = VersionRow(
    id: string, tenantId: string, documentId: string, objectKey: string,
    sha256: string, mimeType: string, sizeBytes: int, status: string)

  /** requestHash holds the canonical text itself: SHA-256 is taken to be collision-free. */
  datatype RecordRow = RecordRow(
    tenantId: string, key: string, requestHash: string, response: Json, resourceType: string, resourceId: string)

  datatype AuditRow = AuditRow(
    tenantId: string, action: string, resourceType: string, resourceId: string, metadata: Json)

  datatype Store = Store(
    cases: seq<CaseRow>,
    documents: seq<DocumentRow>,
    versions: seq<VersionRow>,
    records: seq<RecordRow>,
    outbox: seq<OutboxRow>,
    audit: seq<AuditRow>)

  const EMPTY := Store([], [], [], [], [], [])

  // ---- Requests; the ids, times and upload slot that a write would draw are part of the request ----

  datatype CaseRequest = CaseRequest(caseType: string, externalRef: Option<string>)

  datatype DocumentRequest = DocumentRequest(
    documentType: string, filename: string, mimeType: string, sizeBytes: int, sha256: string)

  datatype UploadSlot = UploadSlot(objectKey: string, uploadUrl: string, expiresAt: string)

  datatype Command =
    | CreateCase(tenant: string, key: Option<string>, caseRequest: CaseRequest,
                 caseId: string, eventId: string, now: Timestamp)
    | CreateUpload(tenant: string, key: Option<string>, forCase: string, document: DocumentRequest,
                   documentId: string, versionId: string, slot: UploadSlot, eventId: string, now: Timestamp)

  datatype Reply =
    | Ok(body: Json)
    | BadKey
    | KeyReused
    | CaseMissing
    | ContentExists(versionId: string)
    | Failed

  // ---- _require_idempotency_key ----

  function RequireKey(key: Option<string>): Option<string> {
    if key.None? || Strip(key.value) == "" || |key.value| > 100 then None else Some(Strip(key.value))
  }

  // ---- Request bodies and their canonical text ----

  function OptionalText(t: Option<string>): Json {
    match t
    case None => Null
    case Some(s) => Str(s)
  }

  function Body(c: Command): Json {
    match c
    case CreateCase(_, _, r, _, _, _) =>
      Obj([Member("case_type", Str(r.caseType)), Member("external_ref", OptionalText(r.externalRef))])
    case CreateUpload(_, _, forCase, d, _, _, _, _, _) =>
      Obj([
        Member("case_id", Str(forCase)),
        Member("document_type", Str(d.documentType)),
        Member("filename", Str(d.filename)),
        Member("mime_type", Str(d.mimeType)),
        Member("size_bytes", Int(d.sizeBytes)),
        Member("sha256", Str(d.sha256))
      ])
  }

  function RequestHash(c: Command): string {
    CanonicalText(Body(c))
  }

  function ResourceType(c: Command): string {
    if c.CreateCase? then "case" else "document_version"
  }

  function ResourceId(c: Command): string {
    if c.CreateCase? then c.caseId else c.versionId
  }

  // ---- Queries: the first matching row ----

  function FindRecord(records: seq<RecordRow>, tenant: string, key: string): Option<RecordRow> {
    if |records| == 0 then None
    else
      var earlier := FindRecord(records[..|records| - 1], tenant, key);
      var last := records[|records| - 1];
      if earlier.Some? then earlier
      else if last.tenantId == tenant && last.key == key then Some(last)
      else None
  }

  function FindCase(cases: seq<CaseRow>, tenant: string, id: string): Option<CaseRow> {
    if |cases| == 0 then None
    else
      var earlier := FindCase(cases[..|cases| - 1], tenant, id);
      var last := cases[|cases| - 1];
      if earlier.Some? then earlier
      else if last.id == id && last.tenantId == tenant then Some(last)
      else None
  }

  function FindContent(versions: seq<VersionRow>, tenant: string, sha256: string): Option<VersionRow> {
    if |versions| == 0 then None
    else
      var earlier := FindContent(versions[..|versions| - 1], tenant, sha256);
      var last := versions[|versions| - 1];
      if earlier.Some? then earlier
      else if last.tenantId == tenant && last.sha256 == sha256 then Some(last)
      else None
  }

  // ---- The three checks before a write: a reply ends the request, None lets it go on ----

  /** _require_idempotency_key, then find_replay. */
  function CheckKey(s: Store, c: Command): Option<Reply> {
    match RequireKey(c.key)
    case None => Some(BadKey)
    case Some(key) =>
      match FindRecord(s.records, c.tenant, key)
      case None => None
      case Some(r) => Some(if r.requestHash == RequestHash(c) then Ok(r.response) else KeyReused)
  }

  function CheckCase(s: Store, c: Command): Option<Reply> {
    if c.CreateUpload? && FindCase(s.cases, c.tenant, c.forCase).None? then Some(CaseMissing) else None
  }

  function CheckContent(s: Store, c: Command): Option<Reply> {
    if c.CreateCase? then None
    else match FindContent(s.versions, c.tenant, c.document.sha256)
      case None => None
      case Some(v) => Some(ContentExists(v.id))
  }

  // ---- The rows of one commit ----

  function ObjectKey(c: Command): string
    requires c.CreateUpload?
  {
    "tenants/" + c.tenant + "/cases/" + c.forCase + "/documents/" + c.documentId + "/versions/" + c.versionId
  }

  function Response(c: Command): Json {
    match c
    case CreateCase(tenant, _, r, caseId, _, _) =>
      Obj([
        Member("id", Str(caseId)),
        Member("tenant_id", Str(tenant)),
        Member("case_type", Str(r.caseType)),
        Member("status", Str("open")),
        Member("external_ref", OptionalText(r.externalRef))
      ])
    case CreateUpload(_, _, forCase, d, documentId, versionId, slot, _, _) =>
      Obj([
        Member("document_id", Str(documentId)),
        Member("document_version_id", Str(versionId)),
        Member("case_id", Str(forCase)),
        Member("document_type", Str(d.documentType)),
        Member("status", Str("uploaded")),
        Member("object_key", Str(slot.objectKey)),
        Member("upload_url", Str(slot.uploadUrl)),
        Member("upload_url_expires_at", Str(slot.expiresAt))
      ])
  }

  function RecordOf(c: Command, key: string): RecordRow {
    RecordRow(c.tenant, key, RequestHash(c), Response(c), ResourceType(c), ResourceId(c))
  }

  function EventPayload(c: Command): Json {
    match c
    case CreateCase(_, _, r, caseId, _, _) =>
      Obj([Member("case_id", Str(caseId)), Member("case_type", Str(r.caseType))])
    case CreateUpload(_, _, forCase, d, documentId, versionId, _, _, _) =>
      Obj([
        Member("case_id", Str(forCase)),
        Member("document_id", Str(documentId)),
        Member("document_version_id", Str(versionId)),
        Member("document_type", Str(d.documentType)),
        Member("pipeline_version", Str("v1"))
      ])
  }

  function EventRowOf(c: Command): OutboxRow {
    OutboxRow(c.eventId, c.tenant, ResourceType(c), ResourceId(c),
              if c.CreateCase? then "case.created" else "document.uploaded", 1, EventPayload(c), c.now, None)
  }

  function AuditRowOf(c: Command): AuditRow {
    match c
    case CreateCase(tenant, _, r, caseId, _, _) =>
      AuditRow(tenant, "case.created", "case", caseId, Obj([Member("case_type", Str(r.caseType))]))
    case CreateUpload(tenant, _, _, d, _, versionId, _, _, _) =>
      AuditRow(tenant, "document.upload_slot_created", "document_version", versionId,
               Obj([Member("document_type", Str(d.documentType)), Member("size_bytes", Int(d.sizeBytes))]))
  }

  function CaseRowOf(c: Command): CaseRow
    requires c.CreateCase?
  {
    CaseRow(c.caseId, c.tenant, c.caseRequest.caseType, "open", c.caseRequest.externalRef)
  }

  function DocumentRowOf(c: Command): DocumentRow
    requires c.CreateUpload?
  {
    DocumentRow(c.documentId, c.tenant, c.forCase, c.document.documentType, "uploaded")
  }

  function VersionRowOf(c: Command): VersionRow
    requires c.CreateUpload?
  {
    VersionRow(c.versionId, c.tenant, c.documentId, ObjectKey(c), c.document.sha256, c.document.mimeType,
               c.document.sizeBytes, "uploaded")
  }

  function Write(s: Store, c: Command): Store
    requires RequireKey(c.key).Some?
  {
    Store(
      if c.CreateCase? then s.cases + [CaseRowOf(c)] else s.cases,
      if c.CreateUpload? then s.documents + [DocumentRowOf(c)] else s.documents,
      if c.CreateUpload? then s.versions + [VersionRowOf(c)] else s.versions,
      s.records + [RecordOf(c, RequireKey(c.key).value)],
      s.outbox + [EventRowOf(c)],
      s.audit + [AuditRowOf(c)])
  }

  /** One command run alone, from its first read to its commit. */
  function Serve(s: Store, c: Command): (Store, Reply) {
    match CheckKey(s, c)
    case Some(reply) => (s, reply)
    case None =>
      match CheckCase(s, c)
      case Some(reply) => (s, reply)
      case None =>
        match CheckContent(s, c)
        case Some(reply) => (s, reply)
        case None => (Write(s, c), Ok(Response(c)))
  }

  // ---- The service over a database that it updates in place ----

  class IntakeService {
    var cases: seq<CaseRow>
    var documents: seq<DocumentRow>
    var versions: seq<VersionRow>
    var records: seq<RecordRow>
    var outbox: seq<OutboxRow>
    var audit: seq<AuditRow>

    ghost function State(): Store
      reads this
    {
      Store(cases, documents, versions, records, outbox, audit)
    }

    constructor ()
      ensures State() == EMPTY
    {
      cases, documents, versions, records, outbox, audit := [], [], [], [], [], [];
    }

    /** find_replay: None where no record has the key, else the stored response or the conflict. */
    method FindReplay(tenant: string, key: string, requestHash: string) returns (replay: Option<Reply>)
      ensures replay.None? <==> FindRecord(records, tenant, key).None?
      ensures forall r :: FindRecord(records, tenant, key) == Some(r) ==>
                replay == Some(if r.requestHash == requestHash then Ok(r.response) else KeyReused)
    {
      match FindRecord(records, tenant, key)
      case None => replay := None;
      case Some(r) =>
        if r.requestHash != requestHash {
          replay := Some(KeyReused);
        } else {
          replay := Some(Ok(r.response));
        }
    }

    method SaveIdempotencyRecord(
        tenant: string, key: string, payload: Json, response: Json, resourceType: string, resourceId: string)
      modifies this`records
      ensures records ==
              old(records) + [RecordRow(tenant, key, CanonicalText(payload), response, resourceType, resourceId)]
    {
      records := records + [RecordRow(tenant, key, CanonicalText(payload), response, resourceType, resourceId)];
    }

    method CreateCase(c: Command) returns (reply: Reply)
      requires c.CreateCase?
      modifies this
      ensures (State(), reply) == Serve(old(State()), c)
    {
      var key := RequireKey(c.key);
      if key.None? {
        return BadKey;
      }
      var payload := Body(c);
      var replay := FindReplay(c.tenant, key.value, CanonicalText(payload));
      if replay.Some? {
        return replay.value;
      }
      cases := cases + [CaseRow(c.caseId, c.tenant, c.caseRequest.caseType, "open", c.caseRequest.externalRef)];
      var response := Response(c);
      SaveIdempotencyRecord(c.tenant, key.value, payload, response, "case", c.caseId);
      outbox := outbox + [EventRowOf(c)];
      audit := audit + [AuditRowOf(c)];
      reply := Ok(response);
    }

    method CreateDocumentUpload(c: Command) returns (reply: Reply)
      requires c.CreateUpload?
      modifies this
      ensures (State(), reply) == Serve(old(State()), c)
    {
      var key := RequireKey(c.key);
      if key.None? {
        return BadKey;
      }
      var payload := Body(c);
      var replay := FindReplay(c.tenant, key.value, CanonicalText(payload));
      if replay.Some? {
        return replay.value;
      }
      if FindCase(cases, c.tenant, c.forCase).None? {
        return CaseMissing;
      }
      var existing := FindContent(versions, c.tenant, c.document.sha256);
      if existing.Some? {
        return ContentExists(existing.value.id);
      }
      documents := documents + [DocumentRowOf(c)];
      versions := versions + [VersionRowOf(c).(objectKey := "pending")];
      versions := versions[|versions| - 1 := versions[|versions| - 1].(objectKey := ObjectKey(c))];
      assert versions == old(versions) + [VersionRowOf(c)];
      var response := Response(c);
      SaveIdempotencyRecord(c.tenant, key.value, payload, response, "document_version", c.versionId);
      outbox := outbox + [EventRowOf(c)];
      audit := audit + [AuditRowOf(c)];
      reply := Ok(response);
    }
  }

  // ---- Serial runs ----

  function RunSerial(s: Store, cs: seq<Command>): (run: (Store, seq<Reply>))
    ensures |run.1| == |cs|
  {
    if |cs| == 0 then (s, [])
    else
      var (s', replies) := RunSerial(s, cs[..|cs| - 1]);
      var (s'', reply) := Serve(s', cs[|cs| - 1]);
      (s'', replies + [reply])
  }

  // ---- What a canonical text identifies ----

  lemma BodyWellKeyed(c: Command)
    ensures WellKeyed(Body(c))
  {
  }

  /** Same kind of request with the same fields, the case id included. */
  predicate SameBody(a: Command, b: Command) {
    match (a, b)
    case (CreateCase(_, _, r, _, _, _), CreateCase(_, _, r', _, _, _)) => r == r'
    case (CreateUpload(_, _, forCase, d, _, _, _, _, _), CreateUpload(_, _, forCase', d', _, _, _, _, _)) =>
      forCase == forCase' && d == d'
    case _ => false
  }

  lemma {:induction false} MeaningHas(ms: seq<Member>, k: nat)
    requires DistinctKeys(ms) && k < |ms|
    ensures ms[k].key in MemberMeanings(ms) && MemberMeanings(ms)[ms[k].key] == MeaningOf(ms[k].value)
  {
    MemberMeaningsAt(ms);
    assert ms[k] in ms;
  }

  lemma CaseBodyMeaning(c: Command)
    requires c.CreateCase?
    ensures var m := MeaningOf(Body(c)).members;
            && m.Keys == {"case_type", "external_ref"}
            && m["case_type"] == MStr(c.caseRequest.caseType)
            && m["external_ref"] == MeaningOf(OptionalText(c.caseRequest.externalRef))
  {
    var ms := Body(c).members;
    MeaningHas(ms, 0);
    MeaningHas(ms, 1);
    MeaningKeys(ms);
  }

  lemma UploadBodyMeaning(c: Command)
    requires c.CreateUpload?
    ensures var m := MeaningOf(Body(c)).members;
            && "case_id" in m && m["case_id"] == MStr(c.forCase)
            && "document_type" in m && m["document_type"] == MStr(c.document.documentType)
            && "filename" in m && m["filename"] == MStr(c.document.filename)
            && "mime_type" in m && m["mime_type"] == MStr(c.document.mimeType)
            && "size_bytes" in m && m["size_bytes"] == MInt(c.document.sizeBytes)
            && "sha256" in m && m["sha256"] == MStr(c.document.sha256)
  {
    var ms := Body(c).members;
    BodyWellKeyed(c);
    MeaningHas(ms, 0);
    MeaningHas(ms, 1);
    MeaningHas(ms, 2);
    MeaningHas(ms, 3);
    MeaningHas(ms, 4);
    MeaningHas(ms, 5);
  }

  lemma SameMeaningSameBody(a: Command, b: Command)
    requires MeaningOf(Body(a)) == MeaningOf(Body(b))
    ensures SameBody(a, b)
  {
    if a.CreateCase? { CaseBodyMeaning(a); } else { UploadBodyMeaning(a); }
    if b.CreateCase? { CaseBodyMeaning(b); } else { UploadBodyMeaning(b); }
  }

  /** Two requests hash alike exactly when they are the same kind of request with the same fields; so a
      case request never matches a document request's record, nor the other way round. */
  lemma RequestHashIffSameBody(a: Command, b: Command)
    ensures RequestHash(a) == RequestHash(b) <==> SameBody(a, b)
  {
    BodyWellKeyed(a);
    BodyWellKeyed(b);
    CanonicalTextIffSameMeaning(Body(a), Body(b));
    if MeaningOf(Body(a)) == MeaningOf(Body(b)) {
      SameMeaningSameBody(a, b);
    }
    if SameBody(a, b) {
      assert Body(a) == Body(b);
    }
  }
}
