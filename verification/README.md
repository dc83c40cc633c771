# Verified model of the document intelligence back end

This project models the asynchronous back end of the smart document intelligence platform and proves
properties of the model with Dafny 4.11. `dafny verify dfyconfig.toml` checks everything.

| file | models |
|---|---|
| `Json.dfy`, `JsonForm.dfy`, `Canonical.dfy` | `json.dumps` on the values the code feeds it, a reader for that text, what the text looks like, and the canonical text behind `request_hash` |
| `Queue.dfy` | `ProcessingJob`, `InMemoryJobQueue`, `RedisJobQueue` over Redis lists |
| `Worker.dfy` | `ProcessingWorker.run_once` and draining a queue with it |
| `Events.dfy`, `Outbox.dfy` | outbox rows, the event envelope, `publish_pending_events` |
| `Delivery.dfy`, `JobFlow.dfy`, `DeliveryRuns.dfy` | publishers, queue and workers as one step system that may stop at any point |
| `Text.dfy`, `Intake.dfy`, `IntakeRuns.dfy` | `create_case` and `create_document_upload`, and serial runs of them |
| `IntakeForm.dfy` | what an accepted request writes, field by field, and the job a worker gets for it |
| `IntakeRaces.dfy`, `IntakeOutcomes.dfy`, `IntakeOrders.dfy` | the same requests interleaved at every database round trip: what the store keeps, how each request ends, which serial runs the interleaving equals |
| `Search.dfy`, `Classifier.dfy`, `Ranking.dfy`, `Ocr.dfy`, `Pipeline.dfy` | keyword classification, the OCR tokeniser and their composition |
| `Lifecycle.dfy`, `Stages.dfy` | `Document.transition`, `start_processing_run` and the stage idempotency key |
| `Basics.dfy` | optional values, Python's string order, sorting by a strict order |

How the system is rendered:

- A class of the source whose methods update its fields is a class with the same fields. Each method is
  proved against a function of the old state, and the properties are proved about that function.
- The delivery system runs any number of publishers and workers. A run is any list of steps; an impossible
  step changes nothing, so the theorems hold for every interleaving. `FOR UPDATE SKIP LOCKED` means that a new
  batch avoids the rows of open batches. An abort drops a batch's marks and locks and keeps the jobs it has
  enqueued. `dequeue` removes the job before the handler runs and only `Exception` is caught, so a worker
  stopped in the middle of a job loses it: such jobs collect in `lost`.
- The database's answer to `pending_events` is an input constrained by the query (`IsSelection`); rows created
  at the same instant may come in any order. Job ids, row ids, times and upload slots are inputs too.
- In the interleaved intake system a request advances by one database round trip at a time: the key query, the
  case query, the content query, the commit. Only the unique (tenant, key) index can refuse a commit.
- Handlers are arbitrary functions of the call number and the job that return, raise, or are cut off.
- SHA-256 is taken to be collision-free: records hold the canonical text itself.
- Confidences are exact rationals. Lower-casing and UTF-8 decoding are function parameters.

Where the code does not do what its documentation says, the model follows the code:

- `docs/requirements.md:53` asks for at-least-once job delivery. Publishing is at least once
  (`Delivery.AtLeastOnceDelivery`), but a worker stopped in the middle of a job loses it
  (`DeliveryRuns.OneStopLosesAnEvent`). A published event survives exactly when no more workers stopped on one
  of its jobs than aborted batches had enqueued it (`JobFlow.PublishedSurvivesIff`).
- `docs/low-level-design.md:79-80` promises one document version per tenant and content. Serial runs keep it
  (`IntakeRuns.SerialContentDedup`). An interleaved run breaks it exactly when some upload is overtaken, between
  its look at the content and its commit, by another upload of that content
  (`IntakeOutcomes.ContentDuplicatedIffOvertaken`), which two requests can bring about
  (`IntakeOutcomes.ContentRace`).
- `docs/low-level-design.md:77-79` promises that a replay returns the original response. Two requests at once can
  break that: the second case fails (`IntakeOutcomes.DoubleCaseCanFail`), and an upload can be refused
  (`IntakeOutcomes.DoubleSubmitCanBeRefused`). A request is answered from a record it did not write exactly when
  the record was there when it read its key (`IntakeOutcomes.ReplayedIffSeen`), so every request that starts
  after the first one has committed is (`IntakeRuns.ReplayIsStable`). `IntakeOrders.SerializableIff` says which
  interleavings equal a serial run at all.
- `docs/low-level-design.md:103-105` relies on stage idempotency keys against duplicates. The unique index
  includes the run id, so a key does not deduplicate runs (`Stages.EveryStartRepeatsTheKey`); the index refuses
  a row only when two starts draw the same run id (`Stages.IndexHoldsIff`).
- `docs/low-level-design.md:15` reserves transitions to the workflow. `start_processing_run` sets the status
  without the transition table (`Stages.StartsOverrideLifecycle`); the starts of a version are all legal
  transitions exactly when it is named at most once, and then while uploaded, in review or failed
  (`Stages.StartsAllowedIff`).

## Model

| member | source | states |
|---|---|---|
| Basics.StrLessIff | backend/app/intelligence/classification.py:28 | strings are ordered by code points: after a common prefix one ends or has the smaller character |
| Json.ReadSurrogatePair | backend/app/processing/queue.py:14-19 | a character above U+FFFF is written as a high and a low surrogate escape (RFC 8259 section 7) that read back as that character |
| Json.ReadEscapedChar | backend/app/processing/queue.py:14-19 | every character's escape, short, four-digit or pair, reads back as the character and consumes nothing more |
| Json.ReadWrittenInt | backend/app/processing/queue.py:14-19 | every integer, negative ones too, reads back from its decimal text |
| Json.ReadWrittenValue | backend/app/processing/queue.py:14-19 | a written value reads back as itself in front of any delimiter, for arbitrarily nested arrays and objects |
| Json.LoadsDump | backend/app/processing/queue.py:14-19 | loading a dumped value gives the value, member order included |
| Json.DumpInjective | backend/app/intake/idempotency.py:12-14 | two values have the same text exactly when they are equal |
| JsonForm.ShortEscapes | backend/app/processing/queue.py:14-15 | quote, backslash, and the five control characters with a letter have their two-character escapes |
| JsonForm.EscapeForm | backend/app/processing/queue.py:14-15 | other characters from space to tilde stand for themselves, the rest up to U+FFFF are four lower-case hexadecimal digits |
| JsonForm.SurrogateForm | backend/app/processing/queue.py:14-15 | a character above U+FFFF is the two units of its surrogate pair |
| JsonForm.ListForm | backend/app/processing/queue.py:15 | values are separated by a comma and keys from values by a colon, with no white space |
| JsonForm.NumberForm | backend/app/processing/queue.py:14-15 | integers are decimal digits after the sign |
| JsonForm.LastMemberWins | backend/app/processing/queue.py:17-19 | of several members with one key the last one counts when text is read |
| JsonForm.TrailingTextRefused | backend/app/processing/queue.py:17-19 | text after the value is refused |
| Canonical.SortKeysKeepsMeaning | backend/app/intake/idempotency.py:12-14 | sorting keys at every level changes no value as a nested map |
| Canonical.SortKeysAscends | backend/app/intake/idempotency.py:13 | at every level of the sorted value the keys ascend by code points |
| Canonical.SortedFormUnique | backend/app/intake/idempotency.py:12-14 | payloads equal as nested maps have one sorted form, whatever order their keys came in |
| Canonical.CanonicalTextIffSameMeaning | backend/app/intake/idempotency.py:12-14 | two payloads have the same canonical text exactly when they are equal as nested maps |
| Canonical.DumpPrintable | backend/app/intake/idempotency.py:13-14 | the text is printable ASCII, so encoding it as UTF-8 changes nothing |
| Queue.JobRoundTrip | backend/app/processing/queue.py:14-19 | from_json(as_json(job)) is the job, for every payload nested from null, booleans, integers, strings, lists and objects with string keys; the text holds job_id, event_type, payload and attempt |
| Queue.OtherFields | backend/app/processing/queue.py:7-19 | from_json takes a missing attempt as 0 and refuses any other missing field and any unknown one |
| Queue.DeadRoundTrip | backend/app/processing/queue.py:96-99 | the dead-letter text decodes to the job and the reason |
| Queue.InMemoryJobQueue.constructor | backend/app/processing/queue.py:35-37 | a new queue has no jobs and no dead letters |
| Queue.InMemoryJobQueue.Enqueue | backend/app/processing/queue.py:39-40 | the job goes to the back, nothing else changes |
| Queue.InMemoryJobQueue.Dequeue | backend/app/processing/queue.py:42-43 | the front job is removed and returned, None on an empty queue |
| Queue.InMemoryJobQueue.Acknowledge | backend/app/processing/queue.py:45-46 | changes nothing |
| Queue.InMemoryJobQueue.Reject | backend/app/processing/queue.py:48-59 | a retry goes to the back with one more attempt; otherwise job and reason join the dead letters |
| Queue.RedisClient.Rpush | backend/app/processing/queue.py:76 | appends to the named list, creating it if missing |
| Queue.RedisClient.Blpop | backend/app/processing/queue.py:79 | pops the front of the named list, dropping the name with the last element; None when empty |
| Queue.RedisJobQueue.Enqueue | backend/app/processing/queue.py:75-76 | pushes the job's text on the queue list |
| Queue.RedisJobQueue.Dequeue | backend/app/processing/queue.py:78-85 | pops a text and decodes it; a text that is no job is popped all the same |
| Queue.RedisJobQueue.Acknowledge | backend/app/processing/queue.py:87-88 | changes nothing |
| Queue.RedisJobQueue.Reject | backend/app/processing/queue.py:90-99 | a retry is pushed on the queue list, a dead letter on the other list |
| Queue.RedisRefinesInMemory | backend/app/processing/queue.py:32-99 | with distinct list names every operation sequence gives the same replies on both queues, and decoding the lists gives the in-memory state |
| Queue.SharedNameMixesDeadLetters | backend/app/processing/queue.py:65-99 | with one name for both lists a dead letter is popped as a job and refused by from_json |
| Queue.RedisFaithfulIffNamesDiffer | backend/app/processing/queue.py:65-99 | the Redis queue cannot be told from the in-memory one exactly when the two names differ |
| Worker.ProcessingWorker.constructor | backend/app/processing/worker.py:10-13 | a new worker has made no calls; three attempts by default |
| Worker.ProcessingWorker.RunOnce | backend/app/processing/worker.py:15-29 | pops one job, calls the handler, then keeps, retries, dead-letters or loses the job; False exactly on an empty queue, an escaping exception exactly when the handler is cut off |
| Worker.RunOnceSpends | backend/app/processing/worker.py:19-28 | a call costs one unit of a job's remaining calls when it is retried and all of them when it is not |
| Worker.DrainCallBounds | backend/app/processing/worker.py:15-29 | draining empties the queue with at least one call a job and at most the budget; the most exactly when every call that could be retried raised, the fewest exactly when none of those did |
| Worker.FreshDrain | backend/app/processing/worker.py:15-29 | n untried jobs take between n and n * max(1, max_attempts) calls, the upper bound when every call raises |
| Worker.DrainIsByRounds | backend/app/processing/worker.py:15-29 | for any handler, draining jobs of one attempt number goes round by round: each round calls, in order, exactly the jobs that failed in the one before |
| Worker.QueueStaysBanded | backend/app/processing/queue.py:48-57 | while draining, attempts never fall from front to back, differ by at most one, and stay below max(1, max_attempts) |
| Events.EventSurvivesTheQueue | backend/app/processing/outbox.py:20-27 | the job for a row, written to a queue and read back, still names its event |
| Outbox.Session.Mark | backend/app/processing/outbox.py:28 | published_at is set in the session only |
| Outbox.Session.Commit | backend/app/processing/outbox.py:30 | every mark reaches its row, other rows are unchanged |
| Outbox.PublishPendingEvents | backend/app/processing/outbox.py:10-31 | enqueues the job of each selected row in order, publishes exactly those rows, each at its time, and returns their number |
| Outbox.SelectionExists | backend/app/processing/events.py:70-78 | the query always has an answer, for any locks and limit |
| Outbox.RunPublishesOldestFirst | backend/app/processing/outbox.py:10-31 | repeated publishing with limit >= 1 empties n pending rows in exactly ceil(n / limit) non-empty calls, publishes each once, oldest first |
| Outbox.LimitDoesNotMatter | backend/app/processing/events.py:70-78 | for distinct creation times the published sequence does not depend on the limit |
| Outbox.RunExists | backend/app/processing/outbox.py:10-31 | such a run exists for every limit >= 1 |
| Outbox.PublishUntilEmpty | backend/app/processing/outbox.py:10-31 | repeated calls of publish_pending_events are such a run: they enqueue its jobs and leave no pending row |
| Outbox.RunEnqueuesInOrder | backend/app/processing/outbox.py:18-28 | the jobs of a run are one for each published row, in the order of publishing, built from the row as it was before the run |
| Delivery.PublishersStayValid | backend/app/processing/events.py:70-78 | every step keeps open batches disjoint, unpublished, and marked no further than they have enqueued |
| Delivery.DeliveryAccounting | backend/app/processing/outbox.py:18-31 | over every interleaving: jobs enqueued for an event = (1 if published) + (aborted batches that had enqueued it) + (1 if an open batch has) |
| Delivery.AtLeastOnceDelivery | backend/app/processing/outbox.py:18-31 | published implies enqueued; enqueued at most once plus the aborts; open batches are disjoint |
| JobFlow.JobsAreConserved | backend/app/processing/queue.py:39-59 | in every reachable state each job ever enqueued is queued, in flight, handled, dead-lettered or lost, with multiplicity |
| JobFlow.EachJobInOnePlace | backend/app/processing/queue.py:39-59 | no job is in two of those places, or twice in one |
| JobFlow.LostExactlyToStops | backend/app/processing/worker.py:15-29 | over every interleaving the jobs lost, all of them and those of one event, are exactly the stops of workers in the middle of such a job |
| JobFlow.KeptIsDeliveredLessStopped | backend/app/processing/worker.py:15-29 | for every event: jobs kept + stops on its jobs = (1 if published) + (aborted batches that had enqueued it) + (1 if an open batch has) |
| JobFlow.PublishedSurvivesIff | backend/app/processing/worker.py:15-29 | a published event is carried by a queued, in-flight, handled or dead-lettered job exactly when no more workers stopped on one of its jobs than aborted batches had enqueued it |
| JobFlow.WorkIsAccounted | backend/app/processing/worker.py:19-28 | handler calls begun = attempts of queued jobs + (attempt + 1) of all others, over every interleaving |
| JobFlow.RetriesAreBounded | backend/app/processing/worker.py:19-28 | handlers are called at most max(1, max_attempts) times a job enqueued |
| DeliveryRuns.RunOnceIsTakeAndFinish | backend/app/processing/worker.py:15-29 | run_once by an idle worker is the step Take followed by Finish |
| DeliveryRuns.PublishIsSteps | backend/app/processing/outbox.py:18-31 | publish_pending_events by an idle publisher is Begin, then Send and Mark for each row, then Commit |
| DeliveryRuns.OneStopLosesAnEvent | backend/app/processing/worker.py:16-20 | one stop can leave a published event in none of the kept places |
| DeliveryRuns.OneAbortDuplicatesAnEvent | backend/app/processing/outbox.py:19-30 | one abort can leave two jobs with different ids for one published event |
| Text.StripSpec | backend/app/intake/service.py:25-30 | strip() cuts exactly the white space at both ends, and leaves nothing exactly for blank text |
| Text.WhiteSpaceIs | backend/app/intelligence/ocr.py:18-24 | white space is Unicode's, with the separators U+001C to U+001F, character by character |
| Intake.IntakeService.FindReplay | backend/app/intake/idempotency.py:17-34 | no record: nothing; same hash: its response; other hash: a conflict |
| Intake.IntakeService.SaveIdempotencyRecord | backend/app/intake/service.py:33-52 | adds one record with the payload's canonical text |
| Intake.IntakeService.CreateCase | backend/app/intake/service.py:55-117 | replies and changes the tables as one serial command does |
| Intake.IntakeService.CreateDocumentUpload | backend/app/intake/service.py:120-238 | replies and changes the tables as one serial command does, the object key rewritten in place |
| Intake.RequestHashIffSameBody | backend/app/intake/service.py:63-70 | two requests hash alike exactly when they are of the same kind with the same fields, case id included |
| IntakeForm.CaseHashText | backend/app/intake/service.py:64-70 | the text hashed for a case is the object of case_type and external_ref, in that order |
| IntakeForm.UploadHashText | backend/app/intake/service.py:130-137 | the text hashed for an upload is the object of case_id and the five request fields, sha256 before size_bytes |
| IntakeForm.CaseWritten | backend/app/intake/service.py:76-117 | an accepted case request adds one case, record, "case.created" event and audit row with these fields, nothing else, and answers the case |
| IntakeForm.UploadWritten | backend/app/intake/service.py:163-238 | an accepted upload adds one document, version, record, "document.uploaded" event and audit row with these fields, nothing else, and answers the slot |
| IntakeForm.EventHasWriter | backend/app/intake/service.py:214-228 | every event of an interleaved run is the event, type and data included, of a request that committed |
| IntakeForm.IntakeJobsDescribed | backend/app/processing/outbox.py:20-27 | the job for it, read back from a queue, is a first attempt with the event type of its request, and carries the event's id, tenant, aggregate and data |
| IntakeRuns.KeyAccepted | backend/app/intake/service.py:24-30 | a key is accepted when present, not blank and at most 100 characters, and is used stripped |
| IntakeRuns.RefusalsExactly | backend/app/intake/service.py:129-161 | each refusal happens exactly in the states that cause it, in the order of the checks; rows are written exactly when none applies |
| IntakeRuns.ReplayIsStable | backend/app/intake/service.py:62-74 | after a success and any further commands, the same tenant and key changes nothing: the same body gets the same response, another body a conflict |
| IntakeRuns.ReplayHasRightKind | backend/app/intake/idempotency.py:24-34 | a request answered from a record gets the reply of an earlier request of the run with the same kind, tenant, key and body |
| IntakeRuns.SerialContentDedup | backend/app/intake/service.py:148-161 | in every serial run no two versions of a tenant share a sha256 |
| IntakeRuns.TenantProjection | backend/app/intake/service.py:131-153 | a tenant's responses and rows in a shared run are those of its own commands run alone |
| IntakeRaces.SerialIffNothingOutdated | backend/app/intake/service.py:131-161 | an interleaving of any requests, uploads too, equals the serial run of the finished ones in finishing order exactly when no upload commits over content stored since it looked and none is refused for its case or content after its key was recorded |
| IntakeRaces.CreateCaseIsLinearisable | backend/app/intake/service.py:62-117 | every interleaving of case requests equals the serial run of the finished ones in finishing order; the others lost the key race and changed nothing |
| IntakeRaces.IntakeBijection | backend/app/intake/service.py:163-237 | in every reachable interleaved state records, outbox rows and audit rows match cases and versions one to one, keys are unique, and tenants agree from version to document to case |
| IntakeRaces.ResourcesRecordedOnce | backend/app/intake/service.py:90-98 | with distinct generated ids no resource is recorded twice |
| IntakeRaces.RecordOutlivesRaces | backend/app/intake/idempotency.py:24-34 | a stored record is found unchanged after any further interleaving |
| IntakeRaces.IntakeEventsReachTheWorker | backend/app/intake/service.py:214-228 | an event written by any interleaving of requests becomes a job that, read back from a queue, names that event |
| IntakeOutcomes.ReplayedIffSeen | backend/app/intake/idempotency.py:17-34 | in any interleaving, with a record under its key in the end that it did not write, a request is answered from it (same body: same response, other body: conflict) exactly when the record was there when the request read its key; otherwise it ends as a failed commit or, an upload, also refused for its case or content |
| IntakeOutcomes.SuccessHasWriter | backend/app/intake/idempotency.py:24-34 | in any interleaving a successful reply is the response of a request that committed, with the same kind, tenant, key and body |
| IntakeOutcomes.ContentDuplicatedIffOvertaken | backend/app/db/models.py:133 | an interleaved run stores two versions of one tenant and sha256 exactly when, for some steps look < ci < cj, an upload finds its content absent at look and commits at cj, and another upload of that content commits at ci |
| IntakeOutcomes.ContentRace | backend/app/db/models.py:133 | two uploads that both look before either commits both succeed with one sha256 |
| IntakeOutcomes.DoubleCaseCanFail | backend/app/intake/service.py:64-70 | a case submitted twice at once can fail the second time, which no serial order does |
| IntakeOutcomes.DoubleSubmitCanBeRefused | backend/app/intake/service.py:131-161 | an upload submitted twice at once can be refused as existing content, which no serial order does |
| IntakeOrders.SerializableIff | backend/app/intake/service.py:131-161 | an interleaving of any requests, those that lost the key race left out, equals a serial run in some order, rows and replies alike, exactly when no upload commits over content stored since it looked and every upload refused for its content could have been while its key was still free |
| Search.ContainsIff | backend/app/intelligence/classification.py:24 | a signal is in the text exactly when the text is something, the signal, and something |
| Search.PageWindow | backend/app/intelligence/classification.py:21-27 | a non-empty signal with k spaces occurs in the joined text exactly when it occurs in the join of at most k + 1 consecutive pages |
| Search.SpaceFreeSignal | backend/app/intelligence/classification.py:21-27 | a signal without spaces occurs exactly when it occurs on some page |
| Search.PageOrderIrrelevant | backend/app/intelligence/classification.py:21-27 | so page order does not matter to it |
| Classifier.ScoresGrow | backend/app/intelligence/classification.py:21-27 | pages put before or after never lower a score |
| Classifier.LabelOrderIrrelevant | backend/app/intelligence/classification.py:22-42 | the result does not depend on the order of the label table |
| Ranking.ScoreCounts | backend/app/intelligence/classification.py:24 | a score counts the signals found in the text, each once |
| Ranking.ClassifyRanks | backend/app/intelligence/classification.py:22-42 | the answer is that of ranking the labels by signals found, ties by name: the first with its share of all signals found, and of the next two those that scored, with names and shares |
| Ranking.WinnerIsBest | backend/app/intelligence/classification.py:28-39 | the label has the most signals found in the joined text, first by code points among equals, and the confidence is its share |
| Ranking.UnknownIffNothingFound | backend/app/intelligence/classification.py:38-39 | the label is "unknown" exactly when no signal is found; confidence and alternatives sum to 1 exactly when one to three labels show one |
| Ranking.OneLabelShown | backend/app/intelligence/classification.py:10-18 | a document that shows signals of one shipped label only gets that label with confidence 1 |
| Classifier.ConfidenceBounds | backend/app/intelligence/classification.py:29-39 | confidence is 0 exactly for "unknown", otherwise between 1 / labels and 1 |
| Classifier.BaselineConfidence | backend/app/intelligence/classification.py:10-18 | with the shipped table the confidence is 0 or between 1/5 and 1 |
| Classifier.AlternativeBounds | backend/app/intelligence/classification.py:32-36 | at most two alternatives, positive, descending, no larger than the confidence; the sum is at most 1, and 1 exactly when one to three labels scored |
| Ocr.Recognize | backend/app/intelligence/ocr.py:12-30 | the loop gives one recognised page for each input page, in order |
| Ocr.TokensAreTheSplit | backend/app/intelligence/ocr.py:16-19 | the blocks are the only way to split the text at its white space into maximal runs |
| Ocr.TokensCoverText | backend/app/intelligence/ocr.py:16-19 | together the blocks are the text with its white space deleted |
| Ocr.ConfidenceIffBlocks | backend/app/intelligence/ocr.py:24 | a page's confidence is 0.99 exactly when it has a block, and 0 otherwise |
| Ocr.PageEvidenceKept | backend/app/intelligence/ocr.py:16-29 | a page keeps its number and text; its blocks are that text split, each with the page's number and confidence 0.99 |
| Pipeline.AnalysedIff | backend/app/intelligence/preprocessing.py:13-18 | a document is analysed exactly when it is not empty and has one of the four supported types; each refusal comes in its own case |
| Pipeline.AnalysedAsOnePage | backend/app/intelligence/pipeline.py:23-26 | an analysed document is one page, number 1, of its decoded text, classified on that text in lower case |
| Pipeline.LabelledDocumentHasBlocks | backend/app/intelligence/pipeline.py:23-26 | a pipeline result with a label has a page with at least one block |
| Lifecycle.AllowedIffLegal | backend/app/domain/documents.py:26-42 | the table allows exactly the nine transitions listed |
| Lifecycle.Document.Transition | backend/app/domain/documents.py:57-64 | a legal target is taken, with version plus one and the new time; any other is refused and nothing changes |
| Lifecycle.VersionTellsStatus | backend/app/domain/documents.py:26-42 | over every run the version counts accepted commands and its value and parity limit the status |
| Lifecycle.TerminalIsAbsorbing | backend/app/domain/documents.py:40-41 | no command moves an approved or rejected document |
| Lifecycle.DecisionReachable | backend/app/domain/documents.py:26-42 | every document can be decided within two more commands |
| Stages.ProcessingState.StartProcessingRun | backend/app/processing/state.py:26-63 | a version in the tenant gets a run, a first-stage row and the status processing; any other request changes nothing |
| Stages.StageKeyInjective | backend/app/processing/state.py:20-23 | a key is version, stage and pipeline version between colons; for colon-free ids and stages it determines all three |
| Stages.StartsStoreRuns | backend/app/processing/state.py:41-62 | a series of starts stores one running run for each accepted request, in order, and for the k-th run one pending stage row "preprocess" of its tenant |
| Stages.EveryStartRepeatsTheKey | backend/app/db/models.py:235-243 | first-stage rows under a key = accepted starts of that version and pipeline version |
| Stages.IndexHoldsIff | backend/app/db/models.py:235-243 | the unique index on run id, stage and key holds exactly when no two accepted starts of one version and pipeline version drew the same run id |
| Stages.StartsOverrideLifecycle | backend/app/processing/state.py:48 | after any starts a version is processing if a request named it, whatever it was before, and unchanged otherwise |
| Stages.StartsAllowedIff | backend/app/processing/state.py:48 | over every run the accepted starts of a version are all transitions the lifecycle allows exactly when it is never named, or named once while uploaded, in review or failed |

## Left out

- HTTP routes, status codes, settings, engine and session wiring, migrations: I/O and configuration. Refusals are constructors of a reply type.
- Authentication and role tables: a command carries the tenant it acts for; the actor id of an audit row is not modelled.
- Object storage: `app.storage` is not part of this model; the upload slot is an input, and a slot created by a request that then fails is not tracked.
- Pydantic validation of request bodies: requests are values that passed it.
- SHA-256, UUIDs and clocks: hashes are compared as canonical texts, ids and times are inputs, job ids are fresh where a step draws one.
- JSON text the code never writes: white space between tokens, floats, lone surrogates and integers beyond Python's digit limit are refused or not produced. A stored job whose fields have unexpected types, which a dataclass would accept, reads as no job.
- Full Unicode lower-casing and UTF-8 decoding: parameters; `Pipeline.LabelledDocumentHasBlocks` asks of lower-casing only that blank text stays blank.
- Floating-point rounding of confidences: exact rationals.
- Columns with database defaults that no modelled code reads (versions, timestamps of business rows) are left out of the rows, and so are actor and correlation ids.
- Constants that nothing modelled reads: provider and model version of pages and classifications, page size, rotation and quality score.
- Worker runs with different `max_attempts` side by side: one value for the whole system.
- Liveness: that a waiting publisher, worker or request is scheduled again is not modelled.
- IntakeRaces.SerialIffNothingOutdated: speaks of the finishing order only; `IntakeOrders.SerializableIff` decides the others.
- Queue.JobRoundTrip: payloads with floats, tuples or keys that are not strings are outside the model; `as_payload` and the intake service never build one.
- Lemmas that read one function back field by field have no row: `Events.EventOfJobFor`, `Events.JobCarriesRow`, `IntakeRuns.RefusalsChangeNothing`, `IntakeRuns.NewCaseDescribed`, `IntakeRuns.NewUploadDescribed`, `IntakeRaces.OnlySuccessWrites`.
