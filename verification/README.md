# AmplifAI Execution Engine — a Dafny model of its core rules

The AmplifAI Execution Engine is a FastAPI service that launches marketing
campaigns, accepts uploaded playbooks and routes generic requests to modules.
Each request is fanned out to three kinds of sinks:

- a structured log, written to the console, a JSON Lines file and ClickHouse;
- a memory store, a JSON Lines file plus a vector-store stub;
- Slack notifications.

Beneath that plumbing sit pure, sequential rules. This project models them:

- **`LogUtils`** (`log_utils.dfy`):
  - the log-record normaliser, which fills defaults, renders datetimes at any depth and drops nulls;
  - the builders of raw events;
  - the success rules of the database sink and of the three-destination sink;
  - the statistics over the log file.
- **`MemoryUtils`** (`memory_utils.dfy`):
  - the memory envelope and its id;
  - the success rule of a write;
  - retrieval over the line store, which filters by type, skips malformed lines, sorts newest first (stable) and truncates;
  - the per-type counts.
- **`Schemas`** (`schemas.dfy`): the pydantic request and response models, as validators that either build the model (filling defaults) or report one error per failing field.
- **`Slack`** (`slack.dfy`):
  - the webhook-configured predicate;
  - payload shaping;
  - the delivery-outcome rule;
  - the error-details rule;
  - the health-check fields and colour.
- **`Handlers`** (`handlers.dfy`), the pure helpers of the HTTP handlers:
  - the uptime text;
  - tag parsing and upload wrapping;
  - the playbook id;
  - the response bodies;
  - the integration-test status;
  - the self-test tally and row class.
- **Support modules:**
  - `Wrappers`: `Option` and `Result`.
  - `Text`: decimal and hexadecimal digits, `str.split`, `str.strip`, ASCII `upper`, `lower` and `title`.
  - `Clock`: `datetime.isoformat` with its parser, and the `strftime` stamps.
  - `Json`: JSON values with a `datetime` leaf, and the recursive datetime conversion.
  - `Http`: the `raise_for_status` rule.
  - `StrOrder`: Python's string ordering.

Conventions:

- A Python dict is a `map<string, JValue>`. A key explicitly set to `None` maps to `JNull`; an absent key is absent.
- A JSON Lines file is a sequence of lines, where `None` marks a line that is not valid JSON. A missing file is `None` at the top level.
- The clock, `uuid4`, environment settings, the outcome of every HTTP request and whether a file append succeeds are all parameters.
- Where the source reads the clock twice, the model takes two readings.

## Model

| member | source | states |
|---|---|---|
| `LogUtils.EnsureTimestamp` | log_utils.py:77-81 | A missing timestamp is set to the clock's ISO text, a datetime timestamp is rendered, any other value is kept, and no other key of the caller's map changes |
| `LogUtils.FormatLogEntry` | log_utils.py:74-114 | The caller's map gains at most the timestamp key; the record's keys are among the ten fixed fields |
| `LogUtils.FormatEventRules` | log_utils.py:78-81 | After formatting, the caller's map differs from the input only in the timestamp, which is added when missing and rendered when a datetime |
| `LogUtils.FormatRecordRules` | log_utils.py:84-112 | No record value is null or holds a datetime; a field present in the event is kept (rendered) iff not null; an absent field appears iff it has a default, and then with that default ("unknown" or {}) |
| `LogUtils.FormatStableOnMutatedEvent` | log_utils.py:117-136 | Formatting the map a first pass mutated gives the same result whatever the clock says, so console, file and database see one record |
| `LogUtils.FormatIdempotent` | log_utils.py:74-114 | Without explicit nulls among timestamp and the defaulted fields, formatting a formatted record returns it unchanged |
| `LogUtils.ExplicitNullBreaksIdempotence` | log_utils.py:86 | With an explicit null endpoint the first pass drops the field and a second pass fills in "unknown" |
| `LogUtils.CreateLogEntry` | log_utils.py:305-316 | A created event holds exactly the ten fixed keys |
| `LogUtils.CreatedFields` | log_utils.py:305-315 | The created event carries the clock's ISO text, the given endpoint, status, payload and result, and {} for missing metadata |
| `LogUtils.CreatedOptionalFields` | log_utils.py:310-314 | session_id, user_id, duration_ms and error are null exactly when not given |
| `LogUtils.CreatedEntryFields` | log_utils.py:291-316 | A created event survives formatting with its six always-set fields, and each optional one appears iff it was given |
| `LogUtils.CreatedEntryValues` | log_utils.py:305-316 | Through formatting, a created event keeps its timestamp, endpoint and status, and its payload, result and metadata keep their shape with datetimes rendered |
| `LogUtils.FieldKept` | log_utils.py:109-112 | In a ten-field event with a rendered timestamp, a field is kept by formatting iff not null, and then rendered |
| `LogUtils.ApiCallEntry` | log_utils.py:319-335 | The request becomes the payload and the response the result, with the endpoint and status carried |
| `LogUtils.ErrorEntry` | log_utils.py:338-354 | The error event has status "error", error = the message and result = {"error": message} |
| `LogUtils.LogToClickHouseReal` | log_utils.py:194-257 | No URL gives false; a record missing a row field gives false without sending; no password gives true without sending; otherwise true iff the POST answers with a status that does not raise |
| `LogUtils.RowReadyUnlessNull` | log_utils.py:209-213 | The database row can be built iff none of timestamp, endpoint, payload and result is an explicit null in the event |
| `LogUtils.LogToClickHouse` | log_utils.py:260-288 | Reports success; the file gains exactly the formatted record when writable and is unchanged otherwise; the database path runs iff a URL is set, with the outcome of the real sink on the same record |
| `LogUtils.SinkSucceedsWhateverTheOutcome` | log_utils.py:265-288 | The sink's verdict does not depend on the configuration, the file outcome or the HTTP outcome |
| `LogUtils.LogError` | log_utils.py:338-356 | Logging an error reports success and, when the file accepts it, appends one line with status "error", the message and the message-only result, leaving earlier lines alone |
| `LogUtils.LastTen` | log_utils.py:424 | `lines[-10:]` is the suffix of length min(10, number of lines) |
| `LogUtils.Collect` | log_utils.py:431-432 | A value is collected iff some parsed dict line has it under the key (a missing key counts as None) |
| `LogUtils.GetLogStats` | log_utils.py:409-444 | A missing file reports total 0; the total counts every line; the recent endpoints and statuses come from exactly the well-formed dict lines among the last ten; a non-dict or unhashable recent line gives the error result |
| `LogUtils.AppendedLineInStats` | log_utils.py:126-133 | When the statistics succeed, a line appended to the log is counted, and its endpoint and status appear among the recent ones |
| `Json.ConvertDateTime` | log_utils.py:98-106 | The conversion yields null only for null and never a datetime at top level |
| `Json.ConvertRenders` | log_utils.py:98-109 | After conversion no datetime remains at any depth, and dict keys, list lengths and other leaves are unchanged |
| `Json.ConvertWithoutDateTime` | log_utils.py:105-106 | A value without datetimes passes through unchanged |
| `Json.ConvertIdempotent` | log_utils.py:98-106 | Converting twice is converting once |
| `Clock.IsoFormat` | log_utils.py:79 | The ISO text is 19 characters long, or 26 with microseconds |
| `Clock.IsoRoundTrip` | log_utils.py:79-81 | The ISO text parses back to the same clock reading |
| `Clock.Stamp` | memory_utils.py:55 | The `%Y%m%d_%H%M%S` stamp is 15 characters: digits with an underscore at position 8 |
| `Clock.StampIsSecondResolution` | memory_utils.py:55 | Two readings have the same stamp iff they agree down to the second |
| `Clock.HumanTime` | slack.py:335 | The `%Y-%m-%d %H:%M:%S UTC` text is 23 characters long |
| `Clock.HumanTimeMatchesStamp` | slack.py:335 | The time line carries the stamp's year, month, day, hour, minute and second digits in the same order, separated by `-`, a space and `:`, and ends in " UTC" |
| `Clock.HumanTimeIsSecondResolution` | slack.py:335 | Two readings give the same time line iff they agree down to the second |
| `MemoryUtils.FormatMemoryEntry` | memory_utils.py:38-63 | The id reads back to the stamp and the type; the timestamp is the second reading's ISO text; data and type are carried; metadata defaults to {}; version is "1.0" |
| `MemoryUtils.MemoryIdCollision` | memory_utils.py:55 | Two envelopes share an id iff they have the same type and their id readings fall in the same second |
| `MemoryUtils.MemoryIdNotInjective` | memory_utils.py:55 | Two different items of one type stored within a second get the same id |
| `MemoryUtils.PineconeStub` | memory_utils.py:101-125 | The stub reports stored iff both the key and the environment are non-empty |
| `MemoryUtils.LogToMemory` | memory_utils.py:148-168 | The verdict is true iff the file accepts the append and neither data nor metadata holds a datetime (the `json.dumps` inside `store_to_file`'s `try`, memory_utils.py:80, fails otherwise); on success the file gains exactly the envelope's line, otherwise it is unchanged |
| `MemoryUtils.WriteIgnoresVectorStore` | memory_utils.py:154-164 | Changing the vector-store configuration changes neither the verdict nor the file |
| `MemoryUtils.CampaignEnvelope` | memory_utils.py:241-256 | A campaign memory has type "campaign", the campaign data and the campaign metadata |
| `MemoryUtils.CampaignMetadata` | memory_utils.py:250-254 | The metadata holds exactly entity_type "campaign", entity_id and status |
| `MemoryUtils.CampaignSerialisable` | memory_utils.py:241-256 | The campaign data and metadata hold only texts, a number and lists of texts, so the envelope always serialises |
| `MemoryUtils.StoreCampaignMemory` | memory_utils.py:221-256 | Because the campaign envelope always serialises, the verdict is the file outcome, and a writable file gains the campaign envelope's line |
| `MemoryUtils.PlaybookEnvelope` | memory_utils.py:277-292 | A playbook memory has type "playbook", the playbook data and the playbook metadata |
| `MemoryUtils.PlaybookMetadata` | memory_utils.py:285-290 | The metadata holds exactly entity_type "playbook", entity_id, name and version, and the version is null exactly when none is given |
| `MemoryUtils.PlaybookSerialisable` | memory_utils.py:259-292 | A playbook envelope serialises iff the uploaded content holds no datetime |
| `MemoryUtils.StorePlaybookMemory` | memory_utils.py:259-292 | The version is passed through as given (`None` included); the verdict is true iff the file accepts the append and the content holds no datetime; on success the file gains the playbook envelope's line, otherwise it is unchanged |
| `MemoryUtils.Matching` | memory_utils.py:195-210 | An entry is kept iff it is a well-formed line that passes the type filter (an empty filter keeps all) |
| `MemoryUtils.MatchingSnoc` | memory_utils.py:194-209 | A line appended to the store is appended to the retrieval iff it parses and passes the filter |
| `MemoryUtils.MatchingIsKeptSubsequence` | memory_utils.py:194-209 | For every filter, the retrieval before sorting lists every passing line exactly once, in file order: its i-th entry is the line at the i-th passing position |
| `MemoryUtils.Insert` | memory_utils.py:213 | Inserting into a newest-first list keeps it newest first and adds exactly one entry |
| `MemoryUtils.SortDesc` | memory_utils.py:213 | The reverse sort on the timestamp key (missing = "") yields a newest-first permutation |
| `MemoryUtils.SortStable` | memory_utils.py:213 | Entries with equal timestamps keep their file order |
| `MemoryUtils.RetrieveMemories` | memory_utils.py:171-218 | A missing store gives []; the result is newest first, has the length of `matches[:limit]` (negative limits included), is drawn from the matches, and no match left out is newer than one returned |
| `MemoryUtils.PrefixIsTop` | memory_utils.py:214 | A prefix of a newest-first list is newest first and holds its newest entries |
| `MemoryUtils.RetrievedAreStored` | memory_utils.py:199-201 | Every retrieved entry is a stored well-formed line that passes the filter, so it has the filtered type |
| `MemoryUtils.SearchQueryIgnored` | memory_utils.py:204-205 | The search text does not change the result |
| `MemoryUtils.RetrieveCount` | memory_utils.py:213-214 | With a non-negative limit the result has min(limit, matches) entries |
| `MemoryUtils.WrittenMemoryMatches` | memory_utils.py:154-201 | A memory whose write succeeds with a non-empty type is found by a retrieval filtered on that type |
| `MemoryUtils.TypeCounts` | memory_utils.py:351-358 | A type is in the table iff some well-formed line is counted under it, with that many entries |
| `MemoryUtils.TypeCountsSum` | memory_utils.py:351-358 | The per-type counts add up to the number of well-formed lines |
| `MemoryUtils.GetMemoryStats` | memory_utils.py:330-370 | A missing store reports total 0 and no table; otherwise the total counts every line, a type is in the table iff some parsed line has it, and its entry is that count; Pinecone is configured iff key and environment are non-empty |
| `MemoryUtils.StatsCountWellFormed` | memory_utils.py:348-358 | The counts add up to the well-formed lines, which never exceed the total |
| `MemoryUtils.CountMatchesRetrieval` | memory_utils.py:355 | For a named type, the statistics and an unlimited filtered retrieval agree on the number of entries |
| `MemoryUtils.UnknownIsNotAType` | memory_utils.py:355 | An entry without a type is counted under "unknown", but a retrieval filtered on "unknown" does not find it |
| `StrOrder.StrLeTotal` | memory_utils.py:213 | Any two timestamp strings are ordered one way or the other |
| `StrOrder.StrLeTrans` | memory_utils.py:213 | The string order is transitive |
| `StrOrder.StrLeAntisym` | memory_utils.py:213 | The string order is antisymmetric |
| `Schemas.Required` | schemas.py:124-125 | A required field succeeds iff given; absent is "missing" and null is "not nullable" |
| `Schemas.Defaulted` | schemas.py:126-127 | An optional field takes its default only when absent and keeps an explicit null as None |
| `Schemas.Errors` | schemas.py:77-101 | No error is reported iff every field check passes, and the errors are exactly the failing checks' |
| `Schemas.IdRunIff` | schemas.py:82 | The pattern scan accepts exactly the texts whose characters are all in [A-Za-z0-9_-] |
| `Schemas.CampaignIdError` | schemas.py:77-83 | campaign_id is accepted iff given, 3 to 100 characters long and matching the pattern |
| `Schemas.BudgetError` | schemas.py:84-89 | budget is accepted iff given and strictly greater than 0 |
| `Schemas.ItemsError` | schemas.py:90-101 | audience and creatives are accepted iff given with at least one item, and a failure names the field |
| `Schemas.ValidateCampaign` | schemas.py:77-101 | A campaign request validates iff all four field constraints hold, echoing the fields; otherwise it reports the field errors |
| `Schemas.CampaignErrorsNameFailingFields` | schemas.py:77-101 | A rejected campaign request names exactly the fields that fail their own constraint |
| `Schemas.ValidatePlaybook` | schemas.py:124-127 | playbook_name and content are required and kept; version and tags are kept when given, default to "1.0" and [] when absent, and are None iff sent as null |
| `Schemas.PlaybookErrorsAreRequiredFields` | schemas.py:124-125 | A rejected playbook request reports "missing" or "not nullable" for exactly the absent or null required fields |
| `Schemas.ValidateRoute` | schemas.py:163-164 | payload is required and kept; metadata is kept when given, defaults to an empty map when absent, and is None iff sent as null |
| `Schemas.WithDefault` | schemas.py:157-158 | A non-optional field with a default takes it when absent and rejects an explicit null |
| `Schemas.ValidateStatus` | schemas.py:155-158 | A status validates iff status and uptime are given and neither timestamp nor version is null; given values are kept, and the timestamp defaults to now and the version to "1.0.0" |
| `Schemas.StatusErrorsInFieldOrder` | schemas.py:155-158 | A rejected status lists each field's own error in field order |
| `Schemas.StatusErrorsNameFields` | schemas.py:155-158 | A rejected status reports a field "missing" iff it is a required field left out, and "not nullable" iff it is null; timestamp and version are never reported missing |
| `Schemas.ValidateSlackNotification` | schemas.py:213-216 | text is required; a given channel, username or emoji is kept and an explicit null gives None; when absent, channel defaults to None, username to "AmplifAI Bot" and emoji to ":robot_face:" |
| `Schemas.DefaultsAreExplicitValues` | schemas.py:126-216 | Leaving defaulted fields out builds the same model as giving their defaults explicitly |
| `Schemas.NullIsNotAbsent` | schemas.py:126 | An explicit null version is kept as None rather than defaulted |
| `Slack.Or` | slack.py:112-113 | `o or default` gives o when it is a non-empty text and the default otherwise |
| `Slack.ConfiguredIffUnderPrefix` | slack.py:81 | The webhook is configured iff the URL is the incoming-webhook prefix followed by anything |
| `Slack.PayloadObjectKeys` | slack.py:110-132 | The JSON body has "text", "channel" and "attachments" exactly when the payload has them, and always a username and an emoji |
| `Slack.FormatSlackMessage` | slack.py:88-134 | Username and emoji default; channel appears iff given; with a colour or fields there is exactly one attachment carrying the message, colour defaulting to "good", and no top-level text; fields appear iff a non-empty list is given |
| `Slack.MessageCarriedOnce` | slack.py:120-132 | The message is carried exactly once, at the top or in the attachment |
| `Slack.Deliver` | slack.py:150-181 | Something is posted iff the URL is set and the body holds no datetime (`requests.post(json=...)` raises inside the `try` otherwise, giving false); success needs a response whose body is "ok" |
| `Slack.DeliverOkIff` | slack.py:167-181 | A send succeeds iff something was posted, the transport answered, the status is not 4xx or 5xx and the body is exactly "ok" |
| `Slack.EmptyUrlSendsNothing` | slack.py:150-253 | Each of the three send functions gives false without posting when the URL is empty |
| `Slack.SendSlackNotification` | slack.py:184-234 | A set URL is posted the inline body; an empty URL gives false without posting; the result is true iff the URL is set and the webhook answered "ok" with a status that does not raise |
| `Slack.NotificationBodySerialisable` | slack.py:199-206 | The inline body of a notification holds only texts, so it always serialises |
| `Slack.NotificationBodyIsPlainFormat` | slack.py:199-206 | The inline body of a simple notification is the plain form of the message formatter |
| `Slack.SendDoesNotCheckPrefix` | slack.py:184-216 | A notification is posted to a URL that the prefix check of slack.py:81 rejects |
| `Slack.ErrorText` | slack.py:334-338 | The text starts with the error header, and the details section is appended iff details is a non-empty map |
| `Slack.SendErrorNotification` | slack.py:327-344 | A post is made iff the URL is set and any non-empty details serialise; what is posted is the error text with the `:warning:` emoji and the default username; details holding a datetime or an empty URL give false; the result is true iff the post was made and the webhook answered "ok" with a status that does not raise |
| `Slack.DetailsOnlyWhenNonEmpty` | slack.py:337-338 | Missing and empty details give the same text; any non-empty details give that text followed by the details marker and the rendered details |
| `Slack.HealthFields` | slack.py:366-390 | A health check has 3 + (number of additional items) fields: the upper-cased status, the uptime, the time, then each item with its key title-cased |
| `Slack.HealthColor` | slack.py:392 | The colour is "good" iff the lower-cased status is "ok", and "warning" otherwise |
| `Slack.HealthCheckPayload` | slack.py:363-399 | The health payload has the ":heart:" emoji, no top-level text, one attachment with the health fields and the health colour |
| `Slack.HealthCheckShape` | slack.py:366-392 | The health attachment has 3 + (number of additional items) fields and is "good" iff the status is "ok" in any case |
| `Slack.HealthColorAgreesWithStatusField` | slack.py:368-392 | The colour is "good" iff the upper-cased text in the Status field reads "ok" once lower-cased |
| `Slack.HealthPayloadSerialisable` | slack.py:355-399 | A health-check body holds only texts, numbers and flags, so it always serialises |
| `Slack.SendHealthCheck` | slack.py:347-404 | The health check is posted iff the URL is set, and what is posted is the `:heart:` attachment built from the status, uptime, time and extra fields; the result is true iff the URL is set and the webhook answered "ok" with a status that does not raise |
| `Handlers.UptimeOf` | main.py:207-210 | The divmod parts satisfy hours < 24, minutes < 60 and seconds < 60, and they recombine to the whole elapsed seconds |
| `Handlers.UptimePieces` | main.py:212-219 | The most significant non-zero unit picks four, three, two or one pieces |
| `Handlers.UptimeReadsBack` | main.py:205-219 | For a non-negative elapsed time the uptime text has one piece per shown unit and reads back to the whole elapsed seconds |
| `Handlers.NegativeElapsedHidesDays` | main.py:208-219 | A clock set back less than a day before start-up gives days = -1, which the text hides: it reads as the elapsed time plus one day |
| `Handlers.StatusBody` | main.py:228-232 | The status body has status "ok", the configured version and the current time, and it validates as a StatusResponse |
| `Handlers.StatusUptimeReadsBack` | main.py:228-231 | The status body's uptime reads back to the whole elapsed seconds |
| `Handlers.ParseTags` | main.py:480-482 | No text or an empty text gives []; otherwise there is one tag per comma-separated piece (commas + 1) |
| `Handlers.TagsAreTrimmedPieces` | main.py:482 | Each tag is the piece at its position with surrounding whitespace removed |
| `Handlers.TagsReparse` | main.py:480-482 | Joining the parsed tags with commas and parsing again gives the same tags, unless the joined text is empty (a single blank tag, which parses back to no tags) |
| `Handlers.UploadContent` | main.py:461-477 | A JSON upload that parses to an object is used as is; one that parses to anything else is rejected; any other upload, or a parse failure, is wrapped |
| `Handlers.WrappedKeepsText` | main.py:467-477 | The wrapper holds exactly the text, the content type and the file name |
| `Handlers.PlaybookId` | main.py:493 | The playbook id is 27 characters, starting "pb_" with an underscore after the stamp |
| `Handlers.PlaybookIdRoundTrip` | main.py:379 | The playbook id reads back to the clock's stamp and the random value |
| `Handlers.UploadPlaybookFile` | main.py:441-500 | An upload is accepted iff its content is; the request carries the name, content, version and parsed tags; the id reads back to the stamp and random part |
| `Handlers.LaunchResponse` | main.py:300-304 | The launch response has status "launched", the request's campaign_id and the fixed message |
| `Handlers.LaunchEchoesRequest` | main.py:296-304 | Launching a validated request echoes the raw campaign_id |
| `Handlers.RouteResponse` | main.py:560-564 | The route response has status "routed", the module name and the message "Request routed to " + name |
| `Handlers.RouteMessageNamesModule` | main.py:563 | The route message determines the module name: equal messages iff equal names |
| `Handlers.AllConfiguredPassed` | main.py:805-808 | The flag holds iff every configured test passed |
| `Handlers.AnyConfigured` | main.py:814 | The flag holds iff some test is configured |
| `Handlers.OverallStatus` | main.py:805-815 | The overall status is one of the three names |
| `Handlers.OverallStatusMeaning` | main.py:805-815 | "no_integrations_configured" iff nothing is configured; "partial_failure" iff a configured test failed; "success" iff something is configured and all configured tests passed |
| `Handlers.TestAllIntegrations` | main.py:761-815 | "no_integrations_configured" iff neither the Slack webhook nor a ClickHouse URL is configured; "partial_failure" iff a configured Slack test message is not delivered or a configured ClickHouse fails its connection test; "success" iff something is configured and every configured test passes |
| `Handlers.RunResult` | main.py:1098-1115 | A self-test row succeeds iff the request answered with a 2xx status, and shows "ERROR" iff it raised |
| `Handlers.TallyOf` | main.py:1118-1120 | The tally counts every row, and `failed = total - passed` counts exactly the unsuccessful rows |
| `Handlers.PassedAndFailedPartition` | main.py:1118-1120 | The successful and unsuccessful rows add up to all rows |
| `Handlers.StatusClass` | main.py:1260-1269 | The class is "status-success" iff the status column is a 2xx code, "status-warning" iff it is a 4xx code, and "status-error" otherwise, "ERROR" included |
| `Handlers.StatusClassIgnoresSuccess` | main.py:1260-1269 | The class first chosen from the success flag is always overridden: rows with the same status column get the same class |
| `Handlers.StatusClassAgreesWithSuccess` | main.py:1260-1269 | For recorded rows the class is "status-success" iff the row succeeded, and "status-warning" iff the status is 4xx |
| `Text.SplitJoin` | main.py:482 | Splitting the separator-joined pieces, none holding the separator, returns the pieces |
| `Text.JoinSplit` | main.py:482 | Joining the split pieces with the separator returns the text |
| `Text.Strip` | main.py:482 | `strip` removes only surrounding whitespace and leaves none at either edge |
| `Text.StripIdempotent` | main.py:482 | Stripping twice is stripping once |
| `Text.ParseNatToString` | main.py:213-219 | The decimal text of a count parses back to it |
| `Text.FixedHexRoundTrip` | main.py:493 | The eight-digit hexadecimal text parses back to its value |
| `Text.LowerUpper` | slack.py:368-392 | Lower-casing an upper-cased text gives the lower-cased original |
| `Text.Title` | slack.py:387 | `str.title` capitalises each letter that follows a non-letter and lower-cases the others, keeping the length |

## Left out

- **Transport:** HTTP requests, file I/O, directory creation, environment and dotenv reading, and the logger.
  - Each outcome is a parameter: the transport result, whether a file append succeeds, and the URL, password and key strings.
  - Where a statistics function's `{"error": str(e)}` result is modelled (`LogUtils.GetLogStats`), the message is reduced to an error variant.
- **Framework:** FastAPI routing, background tasks, exception handlers and lifespan. This is fire-and-forget concurrency with no defined order.
- **Clock and randomness:** `datetime.now`, `uuid4` and `time.time` are parameters.
  - The memory envelope reads the clock twice (id and timestamp), so it takes two readings.
  - The clock readings behind ids and human-readable times are limited to four-digit years (`Clock.Valid`).
- **Floating point:**
  - the budget's message formatting;
  - durations and `duration_ms` arithmetic;
  - success-rate and percentage rounding.
  - A budget is a `real`, so NaN and infinities are not modelled.
- **ClickHouse SQL:** the statement's string interpolation and quote escaping, and the `json.dumps` of the row's fields. Only the boolean outcome of the database path is modelled.
- **`test_clickhouse_connection`:** its result is an input of `Handlers.TestAllIntegrations`.
- **`store_api_interaction_memory`:** not modelled. It is another envelope of the same shape as the campaign and playbook ones.
- **Notification wrappers:** `send_campaign_notification` and `send_playbook_notification` only build message text, including the float budget, and are not modelled. `test_slack_integration` is also not modelled.
- **The `LogEntry` schema:** no core code path uses it.
- **Memory store lines:** a line is either not valid JSON or a `MemoryEntry` whose timestamp and type are optional strings. So the following are not modelled:
  - A line that parses to a non-dict makes retrieval raise, at the type filter (memory_utils.py:200) or at the sort (:213), and return [].
  - A type that is not a string never makes retrieval raise, because it is only compared with `!=` (:200); it simply fails a non-empty filter.
  - A timestamp that is null or not a string makes retrieval raise only when the sort compares it with a key of an incomparable type (:213). A store with one such entry, or with only such entries of one comparable type, does not raise.
  - An explicit `null` type is counted under `None` by the source; the model folds it into "no type", counted as "unknown".
- GetMemoryStats: does not model the `{"error": ...}` result. The source returns it when a line parses to a non-dict (`.get` raises at memory_utils.py:355) or has an unhashable type such as a list (:356), both caught at :368-370. The model's lines cannot hold either.
- GetLogStats: the recent endpoints and statuses are compared as JSON values, so `true`, `1` and `1.0` stay distinct, as do `false`, `0` and `0.0`. Python's `set` (log_utils.py:437-438) merges each group. The two coincide for the texts and nulls that records written by this service hold there.
- **Pydantic coercion:** type coercion (a numeric string accepted as a budget, and similar) is not modelled. Fields arrive already typed, as absent, null or given.
- **Regular expression:** the id pattern is modelled as its character class. Pydantic v2's engine treats `$` as the end of the text.
- **ASCII case mapping:** `str.upper`, `str.lower` and `str.title` are modelled on ASCII letters only.
- **Rendered values:** `json.dumps(details, indent=2)` in the error notification is a parameter (its rendered text), as is `str(value)` of each health-check item.
- **Uploads:** UTF-8 decoding and `json.loads` of an upload are inputs (`UploadedFile.text` and `parsed`).
- **Pages and debug endpoints:** the HTML report pages, the debug and secrets endpoints, and the self-test HTTP calls themselves.
- `Slack.SendSlackWebhook` and `Slack.SendSlackMessage` carry no contracts of their own. They are `Slack.Deliver` applied to the caller's payload, and the rows for `Deliver`, `DeliverOkIff` and `EmptyUrlSendsNothing` state their behaviour.
- **Prefix check versus sending:** `is_slack_configured` requires the incoming-webhook prefix (slack.py:81), and the module docstring advertises webhook URL validation (slack.py:15). But the send functions check only that the URL is non-empty (slack.py:150, 194, 251), and the launch and upload handlers queue their notifications without consulting the check (main.py:316-323, 398-404). So a URL outside the prefix is still posted to. The model follows the code (`Slack.SendDoesNotCheckPrefix`).
