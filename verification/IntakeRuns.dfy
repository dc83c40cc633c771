/** Serial runs of intake commands: replays, content deduplication and tenant isolation. */
module IntakeRuns {
  import opened Basics
  import opened Json
  import opened Canonical
  import opened Events
  import opened Intake
  import opened Text
  import Queue

  // ---- Which request gets which reply ----

  /** A key is accepted when it is present, not blank and at most 100 characters; it is used without the
      white space around it. */
  lemma KeyAccepted(key: Option<string>) returns (i: nat, j: nat)
    ensures RequireKey(key).Some? <==> key.Some? && !Blank(key.value) && |key.value| <= 100
    ensures RequireKey(key).Some? ==>
              && i < j <= |key.value| && RequireKey(key).value == key.value[i..j]
              && Blank(key.value[..i]) && Blank(key.value[j..])
              && !IsSpace(key.value[i]) && !IsSpace(key.value[j - 1])
  {
    i, j := 0, 0;
    if key.Some? {
      i, j := StripSpec(key.value);
    }
  }

  ghost predicate UniqueKeys(records: seq<RecordRow>) {
    forall i, j :: 0 <= i < j < |records| ==>
      records[i].tenantId != records[j].tenantId || records[i].key != records[j].key
  }

  ghost predicate HasRecord(s: Store, tenant: string, key: string) {
    exists r :: r in s.records && r.tenantId == tenant && r.key == key
  }

  ghost predicate HasCase(s: Store, tenant: string, id: string) {
    exists r :: r in s.cases && r.tenantId == tenant && r.id == id
  }

  ghost predicate HasContent(s: Store, tenant: string, sha256: string) {
    exists v :: v in s.versions && v.tenantId == tenant && v.sha256 == sha256
  }

  lemma {:induction false} FoundIffStored(records: seq<RecordRow>, tenant: string, key: string)
    ensures FindRecord(records, tenant, key).Some? <==>
            exists r :: r in records && r.tenantId == tenant && r.key == key
    ensures forall r :: FindRecord(records, tenant, key) == Some(r) ==>
              r in records && r.tenantId == tenant && r.key == key
  {
    if |records| == 0 {
    } else {
      var front, last := records[..|records| - 1], records[|records| - 1];
      FoundIffStored(front, tenant, key);
      assert records == front + [last];
    }
  }

  lemma {:induction false} FoundCaseIffStored(cases: seq<CaseRow>, tenant: string, id: string)
    ensures FindCase(cases, tenant, id).Some? <==> exists r :: r in cases && r.tenantId == tenant && r.id == id
  {
    if |cases| == 0 {
    } else {
      var front, last := cases[..|cases| - 1], cases[|cases| - 1];
      FoundCaseIffStored(front, tenant, id);
      assert cases == front + [last];
    }
  }

  lemma {:induction false} FoundContentIffStored(versions: seq<VersionRow>, tenant: string, sha256: string)
    ensures FindContent(versions, tenant, sha256).Some? <==>
            exists v :: v in versions && v.tenantId == tenant && v.sha256 == sha256
    ensures forall v :: FindContent(versions, tenant, sha256) == Some(v) ==>
              v in versions && v.tenantId == tenant && v.sha256 == sha256
  {
    if |versions| == 0 {
    } else {
      var front, last := versions[..|versions| - 1], versions[|versions| - 1];
      FoundContentIffStored(front, tenant, sha256);
      assert versions == front + [last];
    }
  }

  /** The refusals, each with the exact state of the tables that causes it, in the order they are tried. */
  lemma RefusalsExactly(s: Store, c: Command)
    ensures var reply := Serve(s, c).1;
            var key := RequireKey(c.key);
            var unused := key.Some? && !HasRecord(s, c.tenant, key.value);
            && (reply == BadKey <==> key.None?)
            && (reply == CaseMissing <==> unused && c.CreateUpload? && !HasCase(s, c.tenant, c.forCase))
            && (reply.ContentExists? <==>
                  && unused && c.CreateUpload?
                  && HasCase(s, c.tenant, c.forCase) && HasContent(s, c.tenant, c.document.sha256))
            && (reply.ContentExists? ==>
                  exists v :: v in s.versions && v.tenantId == c.tenant && v.sha256 == c.document.sha256
                    && v.id == reply.versionId)
            && (Serve(s, c).0 != s <==>
                  && unused
                  && (c.CreateUpload? ==>
                        HasCase(s, c.tenant, c.forCase) && !HasContent(s, c.tenant, c.document.sha256)))
            && reply != Failed
  {
    if RequireKey(c.key).Some? {
      FoundIffStored(s.records, c.tenant, RequireKey(c.key).value);
      assert |Write(s, c).records| == |s.records| + 1;
    }
    if c.CreateUpload? {
      FoundCaseIffStored(s.cases, c.tenant, c.forCase);
      FoundContentIffStored(s.versions, c.tenant, c.document.sha256);
    }
  }

  /** The value of a member, Null if it is missing. */
  function Field(j: Json, key: string): Json {
    if !j.Obj? then Null
    else match Queue.Get(j.members, key)
      case Some(v) => v
      case None => Null
  }

  lemma FieldAt(j: Json, k: nat)
    requires j.Obj? && DistinctKeys(j.members) && k < |j.members|
    ensures Field(j, j.members[k].key) == j.members[k].value
  {
    Queue.GetAt(j.members, k);
  }

  function Last<T>(rows: seq<T>): T
    requires |rows| > 0
  {
    rows[|rows| - 1]
  }

  lemma CaseFields(c: Command)
    requires c.CreateCase?
    ensures var body, payload := Response(c), EventPayload(c);
            && Field(body, "id") == Field(payload, "case_id") == Str(c.caseId)
            && Field(body, "tenant_id") == Str(c.tenant)
            && Field(body, "case_type") == Field(payload, "case_type") == Str(c.caseRequest.caseType)
            && Field(body, "status") == Str("open")
            && Field(body, "external_ref") == OptionalText(c.caseRequest.externalRef)
  {
    var body := Response(c);
    assert DistinctKeys(body.members);
    FieldAt(body, 0);
    FieldAt(body, 1);
    FieldAt(body, 2);
    FieldAt(body, 3);
    FieldAt(body, 4);
    FieldAt(EventPayload(c), 0);
    FieldAt(EventPayload(c), 1);
  }

  /** The response, the event and the audit row of a new case describe the case row stored with them. */
  lemma NewCaseDescribed(s: Store, c: Command)
    requires c.CreateCase? && Serve(s, c).0 != s
    ensures var s' := Serve(s, c).0;
            && |s'.cases| > 0 && |s'.outbox| > 0 && |s'.audit| > 0
            && Serve(s, c).1.Ok?
            && (var row, event, audit, body := Last(s'.cases), Last(s'.outbox), Last(s'.audit), Serve(s, c).1.body;
                && row.tenantId == event.tenantId == audit.tenantId == c.tenant
                && row.id == event.aggregateId == audit.resourceId
                && Field(body, "id") == Str(row.id)
                && Field(body, "tenant_id") == Str(row.tenantId)
                && Field(body, "case_type") == Str(row.caseType)
                && Field(body, "status") == Str(row.status)
                && Field(body, "external_ref") == OptionalText(row.externalRef)
                && Field(event.payload, "case_id") == Str(row.id)
                && Field(event.payload, "case_type") == Str(row.caseType))
  {
    CaseFields(c);
  }

  lemma UploadResponseFields(c: Command)
    requires c.CreateUpload?
    ensures var body := Response(c);
            && Field(body, "document_id") == Str(c.documentId)
            && Field(body, "document_version_id") == Str(c.versionId)
            && Field(body, "case_id") == Str(c.forCase)
            && Field(body, "document_type") == Str(c.document.documentType)
            && Field(body, "status") == Str("uploaded")
            && Field(body, "object_key") == Str(c.slot.objectKey)
            && Field(body, "upload_url") == Str(c.slot.uploadUrl)
            && Field(body, "upload_url_expires_at") == Str(c.slot.expiresAt)
  {
    var body := Response(c);
    assert |body.members[6].key| == |"upload_url"| && |body.members[7].key| == |"upload_url_expires_at"|;
    assert DistinctKeys(body.members);
    FieldAt(body, 0);
    FieldAt(body, 1);
    FieldAt(body, 2);
    FieldAt(body, 3);
    FieldAt(body, 4);
    FieldAt(body, 5);
    FieldAt(body, 6);
    FieldAt(body, 7);
  }

  lemma UploadEventFields(c: Command)
    requires c.CreateUpload?
    ensures var payload := EventPayload(c);
            && Field(payload, "case_id") == Str(c.forCase)
            && Field(payload, "document_id") == Str(c.documentId)
            && Field(payload, "document_version_id") == Str(c.versionId)
            && Field(payload, "document_type") == Str(c.document.documentType)
  {
    assert DistinctKeys(EventPayload(c).members);
    FieldAt(EventPayload(c), 0);
    FieldAt(EventPayload(c), 1);
    FieldAt(EventPayload(c), 2);
    FieldAt(EventPayload(c), 3);
  }

  /** Ready to be uploaded: a good unused key, a case in the tenant, and content not stored yet. */
  ghost predicate Uploadable(s: Store, c: Command) {
    && c.CreateUpload?
    && RequireKey(c.key).Some?
    && FindRecord(s.records, c.tenant, RequireKey(c.key).value).None?
    && FindCase(s.cases, c.tenant, c.forCase).Some?
    && FindContent(s.versions, c.tenant, c.document.sha256).None?
  }

  /** The response, the event and the audit row of an upload describe the document and version stored with them. */
  lemma NewUploadDescribed(s: Store, c: Command)
    requires Uploadable(s, c)
    ensures var s' := Serve(s, c).0;
            && |s'.documents| > 0 && |s'.versions| > 0 && |s'.outbox| > 0 && |s'.audit| > 0
            && Serve(s, c).1.Ok?
            && (var document, version, event, audit, body :=
                  Last(s'.documents), Last(s'.versions), Last(s'.outbox), Last(s'.audit), Serve(s, c).1.body;
                && document.tenantId == version.tenantId == event.tenantId == audit.tenantId == c.tenant
                && version.documentId == document.id
                && version.id == event.aggregateId == audit.resourceId
                && version.sha256 == c.document.sha256 && version.sizeBytes == c.document.sizeBytes
                && version.mimeType == c.document.mimeType && version.objectKey == ObjectKey(c)
                && Field(body, "status") == Str(document.status) == Str(version.status)
                && Field(body, "object_key") == Str(c.slot.objectKey)
                && Field(body, "upload_url") == Str(c.slot.uploadUrl)
                && Field(body, "upload_url_expires_at") == Str(c.slot.expiresAt)
                && Field(body, "document_id") == Field(event.payload, "document_id") == Str(document.id)
                && Field(body, "document_version_id") == Field(event.payload, "document_version_id") == Str(version.id)
                && Field(body, "case_id") == Field(event.payload, "case_id") == Str(document.caseId)
                && Field(body, "document_type") == Field(event.payload, "document_type") == Str(document.documentType))
  {
    UploadResponseFields(c);
    UploadEventFields(c);
  }

  // ---- Records are never lost or replaced ----

  lemma FindRecordOfAppend(records: seq<RecordRow>, r: RecordRow, tenant: string, key: string)
    ensures var found := FindRecord(records, tenant, key);
            FindRecord(records + [r], tenant, key) ==
              if found.Some? then found
              else if r.tenantId == tenant && r.key == key then Some(r)
              else None
  {
    assert (records + [r])[..|records|] == records;
  }

  lemma FindContentOfAppend(versions: seq<VersionRow>, v: VersionRow, tenant: string, sha256: string)
    ensures var found := FindContent(versions, tenant, sha256);
            FindContent(versions + [v], tenant, sha256) ==
              if found.Some? then found
              else if v.tenantId == tenant && v.sha256 == sha256 then Some(v)
              else None
  {
    assert (versions + [v])[..|versions|] == versions;
  }

  lemma FindCaseOfAppend(cases: seq<CaseRow>, r: CaseRow, tenant: string, id: string)
    ensures var found := FindCase(cases, tenant, id);
            FindCase(cases + [r], tenant, id) ==
              if found.Some? then found
              else if r.id == id && r.tenantId == tenant then Some(r)
              else None
  {
    assert (cases + [r])[..|cases|] == cases;
  }

  /** A request that is not answered with success leaves every table as it was. */
  lemma RefusalsChangeNothing(s: Store, c: Command)
    ensures !Serve(s, c).1.Ok? ==> Serve(s, c).0 == s
    ensures Serve(s, c).0 != s ==> FindRecord(s.records, c.tenant, RequireKey(c.key).value).None?
    ensures Serve(s, c).0 != s ==> Serve(s, c) == (Write(s, c), Ok(Response(c)))
    ensures Serve(s, c).0 != s ==> RequireKey(c.key).Some?
  {
  }

  lemma {:induction false} RecordStays(s: Store, cs: seq<Command>, tenant: string, key: string)
    requires FindRecord(s.records, tenant, key).Some?
    ensures FindRecord(RunSerial(s, cs).0.records, tenant, key) == FindRecord(s.records, tenant, key)
  {
    if |cs| == 0 {
    } else {
      var c := cs[|cs| - 1];
      var s' := RunSerial(s, cs[..|cs| - 1]).0;
      RecordStays(s, cs[..|cs| - 1], tenant, key);
      if RequireKey(c.key).Some? {
        FindRecordOfAppend(s'.records, RecordOf(c, RequireKey(c.key).value), tenant, key);
      }
    }
  }

  lemma SuccessLeavesRecord(s: Store, c: Command)
    requires Serve(s, c).1.Ok?
    ensures RequireKey(c.key).Some?
    ensures var r := FindRecord(Serve(s, c).0.records, c.tenant, RequireKey(c.key).value);
            r.Some? && r.value.requestHash == RequestHash(c) && Ok(r.value.response) == Serve(s, c).1
  {
    var key := RequireKey(c.key).value;
    if FindRecord(s.records, c.tenant, key).None? {
      FindRecordOfAppend(s.records, RecordOf(c, key), c.tenant, key);
    }
  }

  /** Once a request has succeeded, after any further commands a request with the same tenant and stripped
      key changes nothing; it gets the same response when it has the same body, and a conflict otherwise. */
  lemma ReplayIsStable(s: Store, c: Command, cs: seq<Command>, again: Command)
    requires Serve(s, c).1.Ok?
    requires again.tenant == c.tenant && RequireKey(again.key) == RequireKey(c.key)
    ensures var later := RunSerial(Serve(s, c).0, cs).0;
            Serve(later, again) == (later, if SameBody(c, again) then Serve(s, c).1 else KeyReused)
  {
    var first := Serve(s, c).0;
    SuccessLeavesRecord(s, c);
    RecordStays(first, cs, c.tenant, RequireKey(c.key).value);
    RequestHashIffSameBody(c, again);
  }

  // ---- A replay returns what a request of the same kind and body stored ----

  lemma {:induction false} FoundRecordIsStored(records: seq<RecordRow>, tenant: string, key: string)
    requires FindRecord(records, tenant, key).Some?
    ensures var r := FindRecord(records, tenant, key).value;
            r in records && r.tenantId == tenant && r.key == key
  {
    if FindRecord(records[..|records| - 1], tenant, key).Some? {
      FoundRecordIsStored(records[..|records| - 1], tenant, key);
    }
  }

  /** The i-th request of the run wrote this record, and was answered with the response in it. */
  ghost predicate WroteSerially(cs: seq<Command>, i: nat, r: RecordRow) {
    && i < |cs|
    && RequireKey(cs[i].key) == Some(r.key)
    && RecordOf(cs[i], r.key) == r
    && RunSerial(EMPTY, cs).1[i] == Ok(r.response)
  }

  lemma {:induction false} RecordHasWriter(cs: seq<Command>, r: RecordRow) returns (i: nat)
    requires r in RunSerial(EMPTY, cs).0.records
    ensures WroteSerially(cs, i, r)
  {
    var front, c := cs[..|cs| - 1], cs[|cs| - 1];
    if r in RunSerial(EMPTY, front).0.records {
      i := RecordHasWriter(front, r);
      assert cs[i] == front[i];
    } else {
      RefusalsChangeNothing(RunSerial(EMPTY, front).0, c);
      i := |cs| - 1;
    }
  }

  /** A request answered from a record gets the response of an earlier request of the run: one of its own kind,
      tenant, key and body, which was answered with it first. */
  lemma ReplayHasRightKind(cs: seq<Command>, c: Command) returns (i: nat)
    requires RequireKey(c.key).Some?
    requires FindRecord(RunSerial(EMPTY, cs).0.records, c.tenant, RequireKey(c.key).value).Some?
    requires Serve(RunSerial(EMPTY, cs).0, c).1.Ok?
    ensures i < |cs|
    ensures cs[i].tenant == c.tenant && RequireKey(cs[i].key) == RequireKey(c.key) && SameBody(cs[i], c)
    ensures RunSerial(EMPTY, cs).1[i] == Serve(RunSerial(EMPTY, cs).0, c).1 == Ok(Response(cs[i]))
  {
    var s := RunSerial(EMPTY, cs).0;
    FoundRecordIsStored(s.records, c.tenant, RequireKey(c.key).value);
    i := RecordHasWriter(cs, FindRecord(s.records, c.tenant, RequireKey(c.key).value).value);
    RequestHashIffSameBody(cs[i], c);
  }

  // ---- Content deduplication ----

  ghost predicate ContentDistinct(versions: seq<VersionRow>) {
    forall i, j :: 0 <= i < j < |versions| ==>
      versions[i].tenantId != versions[j].tenantId || versions[i].sha256 != versions[j].sha256
  }

  lemma {:induction false} AbsentContent(versions: seq<VersionRow>, tenant: string, sha256: string)
    ensures FindContent(versions, tenant, sha256).None? <==>
            forall k :: 0 <= k < |versions| ==> versions[k].tenantId != tenant || versions[k].sha256 != sha256
  {
    if |versions| == 0 {
    } else {
      AbsentContent(versions[..|versions| - 1], tenant, sha256);
    }
  }

  /** In every serial run no two document versions of one tenant share a sha256. */
  lemma {:induction false} SerialContentDedup(cs: seq<Command>)
    ensures ContentDistinct(RunSerial(EMPTY, cs).0.versions)
  {
    if |cs| == 0 {
    } else {
      var s, c := RunSerial(EMPTY, cs[..|cs| - 1]).0, cs[|cs| - 1];
      SerialContentDedup(cs[..|cs| - 1]);
      if c.CreateUpload? { AbsentContent(s.versions, c.tenant, c.document.sha256); }
    }
  }

  // ---- Tenant isolation ----

  function CaseOwner(r: CaseRow): string { r.tenantId }
  function DocumentOwner(r: DocumentRow): string { r.tenantId }
  function VersionOwner(r: VersionRow): string { r.tenantId }
  function RecordOwner(r: RecordRow): string { r.tenantId }
  function OutboxOwner(r: OutboxRow): string { r.tenantId }
  function AuditOwner(r: AuditRow): string { r.tenantId }

  function Of<T>(rows: seq<T>, owner: T -> string, tenant: string): seq<T> {
    if |rows| == 0 then []
    else
      var last := rows[|rows| - 1];
      Of(rows[..|rows| - 1], owner, tenant) + (if owner(last) == tenant then [last] else [])
  }

  /** The rows a tenant owns. */
  function View(s: Store, tenant: string): Store {
    Store(
      Of(s.cases, CaseOwner, tenant),
      Of(s.documents, DocumentOwner, tenant),
      Of(s.versions, VersionOwner, tenant),
      Of(s.records, RecordOwner, tenant),
      Of(s.outbox, OutboxOwner, tenant),
      Of(s.audit, AuditOwner, tenant))
  }

  function CommandsOf(cs: seq<Command>, tenant: string): seq<Command> {
    if |cs| == 0 then []
    else CommandsOf(cs[..|cs| - 1], tenant) + (if cs[|cs| - 1].tenant == tenant then [cs[|cs| - 1]] else [])
  }

  function RepliesOf(cs: seq<Command>, replies: seq<Reply>, tenant: string): seq<Reply>
    requires |cs| == |replies|
  {
    if |cs| == 0 then []
    else
      var k := |cs| - 1;
      RepliesOf(cs[..k], replies[..k], tenant) + (if cs[k].tenant == tenant then [replies[k]] else [])
  }

  lemma OfAppend<T>(rows: seq<T>, row: T, owner: T -> string, tenant: string)
    ensures Of(rows + [row], owner, tenant) ==
            if owner(row) == tenant then Of(rows, owner, tenant) + [row] else Of(rows, owner, tenant)
  {
    assert (rows + [row])[..|rows|] == rows;
    assert Of(rows, owner, tenant) + [] == Of(rows, owner, tenant);
  }

  lemma FindRecordInViewNext(records: seq<RecordRow>, tenant: string, key: string)
    requires |records| > 0
    requires var front := records[..|records| - 1];
             FindRecord(Of(front, RecordOwner, tenant), tenant, key) == FindRecord(front, tenant, key)
    ensures FindRecord(Of(records, RecordOwner, tenant), tenant, key) == FindRecord(records, tenant, key)
  {
    var front, last := records[..|records| - 1], records[|records| - 1];
    assert records == front + [last];
    OfAppend(front, last, RecordOwner, tenant);
    FindRecordOfAppend(front, last, tenant, key);
    FindRecordOfAppend(Of(front, RecordOwner, tenant), last, tenant, key);
  }

  lemma {:induction false} FindRecordInView(records: seq<RecordRow>, tenant: string, key: string)
    ensures FindRecord(Of(records, RecordOwner, tenant), tenant, key) == FindRecord(records, tenant, key)
  {
    if |records| == 0 {
    } else {
      FindRecordInView(records[..|records| - 1], tenant, key);
      FindRecordInViewNext(records, tenant, key);
    }
  }

  lemma FindCaseInViewNext(cases: seq<CaseRow>, tenant: string, id: string)
    requires |cases| > 0
    requires var front := cases[..|cases| - 1];
             FindCase(Of(front, CaseOwner, tenant), tenant, id) == FindCase(front, tenant, id)
    ensures FindCase(Of(cases, CaseOwner, tenant), tenant, id) == FindCase(cases, tenant, id)
  {
    var front, last := cases[..|cases| - 1], cases[|cases| - 1];
    assert cases == front + [last];
    OfAppend(front, last, CaseOwner, tenant);
    FindCaseOfAppend(front, last, tenant, id);
    FindCaseOfAppend(Of(front, CaseOwner, tenant), last, tenant, id);
  }

  lemma {:induction false} FindCaseInView(cases: seq<CaseRow>, tenant: string, id: string)
    ensures FindCase(Of(cases, CaseOwner, tenant), tenant, id) == FindCase(cases, tenant, id)
  {
    if |cases| == 0 {
    } else {
      FindCaseInView(cases[..|cases| - 1], tenant, id);
      FindCaseInViewNext(cases, tenant, id);
    }
  }

  lemma FindContentInViewNext(versions: seq<VersionRow>, tenant: string, sha256: string)
    requires |versions| > 0
    requires var front := versions[..|versions| - 1];
             FindContent(Of(front, VersionOwner, tenant), tenant, sha256) == FindContent(front, tenant, sha256)
    ensures FindContent(Of(versions, VersionOwner, tenant), tenant, sha256) == FindContent(versions, tenant, sha256)
  {
    var front, last := versions[..|versions| - 1], versions[|versions| - 1];
    assert versions == front + [last];
    OfAppend(front, last, VersionOwner, tenant);
    FindContentOfAppend(front, last, tenant, sha256);
    FindContentOfAppend(Of(front, VersionOwner, tenant), last, tenant, sha256);
  }

  lemma {:induction false} FindContentInView(versions: seq<VersionRow>, tenant: string, sha256: string)
    ensures FindContent(Of(versions, VersionOwner, tenant), tenant, sha256) == FindContent(versions, tenant, sha256)
  {
    if |versions| == 0 {
    } else {
      FindContentInView(versions[..|versions| - 1], tenant, sha256);
      FindContentInViewNext(versions, tenant, sha256);
    }
  }

  lemma ViewOfWrite(s: Store, c: Command, tenant: string)
    requires RequireKey(c.key).Some?
    ensures View(Write(s, c), tenant) == if c.tenant == tenant then Write(View(s, tenant), c) else View(s, tenant)
  {
    if c.CreateCase? {
      OfAppend(s.cases, CaseRowOf(c), CaseOwner, tenant);
    } else {
      OfAppend(s.documents, DocumentRowOf(c), DocumentOwner, tenant);
      OfAppend(s.versions, VersionRowOf(c), VersionOwner, tenant);
    }
    OfAppend(s.records, RecordOf(c, RequireKey(c.key).value), RecordOwner, tenant);
    OfAppend(s.outbox, EventRowOf(c), OutboxOwner, tenant);
    OfAppend(s.audit, AuditRowOf(c), AuditOwner, tenant);
  }

  function Checks(s: Store, c: Command): (Option<Reply>, Option<Reply>, Option<Reply>) {
    (CheckKey(s, c), CheckCase(s, c), CheckContent(s, c))
  }

  /** The checks read no more of the store than what they look up. */
  lemma ChecksReadLookups(s: Store, s': Store, c: Command)
    requires RequireKey(c.key).Some? ==>
               var key := RequireKey(c.key).value;
               FindRecord(s.records, c.tenant, key) == FindRecord(s'.records, c.tenant, key)
    requires c.CreateUpload? ==>
               && FindCase(s.cases, c.tenant, c.forCase) == FindCase(s'.cases, c.tenant, c.forCase)
               && FindContent(s.versions, c.tenant, c.document.sha256)
               == FindContent(s'.versions, c.tenant, c.document.sha256)
    ensures Checks(s, c) == Checks(s', c)
  {
  }

  lemma ChecksInView(s: Store, c: Command)
    ensures Checks(s, c) == Checks(View(s, c.tenant), c)
  {
    if RequireKey(c.key).Some? {
      FindRecordInView(s.records, c.tenant, RequireKey(c.key).value);
    }
    if c.CreateUpload? {
      FindCaseInView(s.cases, c.tenant, c.forCase);
      FindContentInView(s.versions, c.tenant, c.document.sha256);
    }
    ChecksReadLookups(s, View(s, c.tenant), c);
  }

  /** Serve, by whether the three checks let the command through. */
  lemma ServeByChecks(s: Store, c: Command)
    ensures CheckKey(s, c).None? ==> RequireKey(c.key).Some?
    ensures CheckKey(s, c).None? && CheckCase(s, c).None? && CheckContent(s, c).None? ==>
              Serve(s, c) == (Write(s, c), Ok(Response(c)))
    ensures CheckKey(s, c).Some? ==> Serve(s, c) == (s, CheckKey(s, c).value)
    ensures CheckKey(s, c).None? && CheckCase(s, c).Some? ==> Serve(s, c) == (s, CheckCase(s, c).value)
    ensures CheckKey(s, c).None? && CheckCase(s, c).None? && CheckContent(s, c).Some? ==>
              Serve(s, c) == (s, CheckContent(s, c).value)
  {
  }

  lemma ServeInView(s: Store, c: Command, tenant: string)
    ensures c.tenant == tenant ==> Serve(View(s, tenant), c) == (View(Serve(s, c).0, tenant), Serve(s, c).1)
    ensures c.tenant != tenant ==> View(Serve(s, c).0, tenant) == View(s, tenant)
  {
    ServeByChecks(s, c);
    if RequireKey(c.key).Some? {
      ViewOfWrite(s, c, tenant);
    }
    if c.tenant == tenant {
      ChecksInView(s, c);
      ServeByChecks(View(s, tenant), c);
    }
  }

  lemma RepliesOfAppend(cs: seq<Command>, replies: seq<Reply>, c: Command, reply: Reply, tenant: string)
    requires |cs| == |replies|
    ensures RepliesOf(cs + [c], replies + [reply], tenant) ==
            if c.tenant == tenant then RepliesOf(cs, replies, tenant) + [reply] else RepliesOf(cs, replies, tenant)
  {
    assert RepliesOf(cs, replies, tenant) + [] == RepliesOf(cs, replies, tenant);
    assert (cs + [c])[..|cs|] == cs && (replies + [reply])[..|replies|] == replies;
  }

  lemma RunSerialAppend(s: Store, cs: seq<Command>, c: Command)
    ensures var (s', replies) := RunSerial(s, cs);
            RunSerial(s, cs + [c]) == (Serve(s', c).0, replies + [Serve(s', c).1])
  {
    assert (cs + [c])[..|cs|] == cs;
  }

  /** A tenant's responses and rows in a run shared by many tenants are those of its own commands run alone. */
  lemma {:induction false} TenantProjection(s: Store, cs: seq<Command>, tenant: string)
    ensures |RunSerial(s, cs).1| == |cs|
    ensures RunSerial(View(s, tenant), CommandsOf(cs, tenant)) ==
            (View(RunSerial(s, cs).0, tenant), RepliesOf(cs, RunSerial(s, cs).1, tenant))
  {
    if |cs| == 0 {
    } else {
      var front, c := cs[..|cs| - 1], cs[|cs| - 1];
      assert cs == front + [c];
      var (before, replies) := RunSerial(s, front);
      TenantProjection(s, front, tenant);
      ServeInView(before, c, tenant);
      RunSerialAppend(s, front, c);
      RepliesOfAppend(front, replies, c, Serve(before, c).1, tenant);
      if c.tenant == tenant {
        RunSerialAppend(View(s, tenant), CommandsOf(front, tenant), c);
      } else {
        assert CommandsOf(cs, tenant) == CommandsOf(front, tenant);
      }
    }
  }
}
