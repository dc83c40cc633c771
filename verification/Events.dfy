/** Outbox rows, the event envelope built from a row, and the job the publisher enqueues for it. */
module Events {
  import opened Basics
  import opened Json
  import opened Queue

  /** An instant and the text isoformat() gives for it. */
  datatype Timestamp = Timestamp(instant: int, iso: string)

  datatype OutboxRow = OutboxRow(
    id: string,
    tenantId: string,
    aggregateType: string,
    aggregateId: string,
    eventType: string,
    schemaVersion: int,
    payload: Json,
    createdAt: Timestamp,
    publishedAt: Option<Timestamp>)

  datatype EventEnvelope = EventEnvelope(
    eventId: string,
    eventType: string,
    tenantId: string,
    aggregateId: string,
    schemaVersion: int,
    occurredAt: Timestamp,
    payload: Json)
  {
    function AsPayload(): Json {
      Obj([
        Member("event_id", Str(eventId)),
        Member("event_type", Str(eventType)),
        Member("tenant_id", Str(tenantId)),
        Member("aggregate_id", Str(aggregateId)),
        Member("schema_version", Int(schemaVersion)),
        Member("occurred_at", Str(occurredAt.iso)),
        Member("payload", payload)
      ])
    }
  }

  /** created_at is a NOT NULL column, so the fallback to the current time never applies to a stored row. */
  function EventFromOutbox(row: OutboxRow): EventEnvelope {
    EventEnvelope(row.id, row.eventType, row.tenantId, row.aggregateId, row.schemaVersion, row.createdAt, row.payload)
  }

  function JobFor(row: OutboxRow, jobId: string): Job {
    Job(jobId, row.eventType, EventFromOutbox(row).AsPayload(), 0)
  }

  /** The identity a consumer can deduplicate on: payload["event_id"]. */
  function EventOf(job: Job): Option<string> {
    if !job.payload.Obj? then None
    else match Get(job.payload.members, "event_id")
      case Some(Str(e)) => Some(e)
      case _ => None
  }

  lemma EventOfJobFor(row: OutboxRow, jobId: string)
    ensures EventOf(JobFor(row, jobId)) == Some(row.id)
  {
  }

  lemma EnvelopeKeysDistinct(row: OutboxRow)
    ensures DistinctKeys(EventFromOutbox(row).AsPayload().members)
  {
    var ms := EventFromOutbox(row).AsPayload().members;
    assert |ms[5].key| == |"occurred_at"|;
  }

  /** The job carries the whole row: each field is found in its payload under the envelope's name for it. */
  lemma JobCarriesRow(row: OutboxRow, jobId: string)
    ensures var job := JobFor(row, jobId);
            var ms := job.payload.members;
            && job.jobId == jobId && job.eventType == row.eventType && job.attempt == 0
            && Get(ms, "event_id") == Some(Str(row.id))
            && Get(ms, "event_type") == Some(Str(row.eventType))
            && Get(ms, "tenant_id") == Some(Str(row.tenantId))
            && Get(ms, "aggregate_id") == Some(Str(row.aggregateId))
            && Get(ms, "schema_version") == Some(Int(row.schemaVersion))
            && Get(ms, "occurred_at") == Some(Str(row.createdAt.iso))
            && Get(ms, "payload") == Some(row.payload)
  {
    var ms := JobFor(row, jobId).payload.members;
    EnvelopeKeysDistinct(row);
    GetAt(ms, 0);
    GetAt(ms, 1);
    GetAt(ms, 2);
    GetAt(ms, 3);
    GetAt(ms, 4);
    GetAt(ms, 5);
    GetAt(ms, 6);
  }

  lemma JobForValid(row: OutboxRow, jobId: string)
    requires WellKeyed(row.payload)
    ensures ValidJob(JobFor(row, jobId))
  {
    EnvelopeKeysDistinct(row);
  }

  /** A job for an outbox row, written to a queue as text and read back, still names its event. */
  lemma EventSurvivesTheQueue(row: OutboxRow, jobId: string)
    requires WellKeyed(row.payload)
    ensures var read := JobFromText(JobText(JobFor(row, jobId)));
            read == Some(JobFor(row, jobId)) && EventOf(read.value) == Some(row.id)
  {
    JobForValid(row, jobId);
    JobRoundTrip(JobFor(row, jobId));
    EventOfJobFor(row, jobId);
  }
}
