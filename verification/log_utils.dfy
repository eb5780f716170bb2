/** The structured-logging pipeline: the record normaliser, the builders of
    raw log events, the success rules of the database sink and of the
    three-destination sink, and the statistics over the log file.
    The log file is a sequence of lines; a line is `None` when it is not
    valid JSON. */
module LogUtils {
  import opened Wrappers
  import opened Clock
  import opened Json
  import opened Http

  /** The fixed field set of a log record. */
  const LogKeys: set<string> :=
    {"timestamp", "endpoint", "payload", "result", "session_id",
     "user_id", "status", "duration_ms", "error", "metadata"}

  lemma LogKeysMembers()
    ensures "timestamp" in LogKeys && "endpoint" in LogKeys && "payload" in LogKeys
    ensures "result" in LogKeys && "session_id" in LogKeys && "user_id" in LogKeys
    ensures "status" in LogKeys && "duration_ms" in LogKeys && "error" in LogKeys
    ensures "metadata" in LogKeys
  {
  }

  /** The fields that receive a default when the event lacks them. */
  const DefaultedKeys: set<string> := {"endpoint", "payload", "result", "status", "metadata"}

  /** The fields whose explicit `None` makes a second formatting pass differ
      from the first (a dropped field that then receives its default). */
  const NonNullKeys: set<string> := DefaultedKeys + {"timestamp"}

  /** The value `data.get(key, default)` falls back to for each field. */
  function Default(key: string): JValue {
    if key == "endpoint" || key == "status" then JStr("unknown")
    else if key == "payload" || key == "result" || key == "metadata" then JObject(map[])
    else JNull
  }

  /** What `format_log_entry` leaves behind: the caller's map, which it
      mutates, and the record it returns. */
  datatype Formatted = Formatted(event: Object, entry: Object)

  /** The in-place timestamp fix-up applied to the caller's map. */
  function EnsureTimestamp(data: Object, now: DateTime): (event: Object)
    ensures event.Keys == data.Keys + {"timestamp"}
    ensures forall k :: k in data && k != "timestamp" ==> event[k] == data[k]
    ensures "timestamp" !in data ==> event["timestamp"] == JStr(IsoFormat(now))
    ensures "timestamp" in data && data["timestamp"].JDateTime? ==>
      event["timestamp"] == JStr(IsoFormat(data["timestamp"].dt))
    ensures "timestamp" in data && !data["timestamp"].JDateTime? ==> event["timestamp"] == data["timestamp"]
  {
    if "timestamp" !in data then data["timestamp" := JStr(IsoFormat(now))]
    else if data["timestamp"].JDateTime? then data["timestamp" := JStr(IsoFormat(data["timestamp"].dt))]
    else data
  }

  /** The value `format_log_entry` computes for field `k` before dropping
      nulls: the event's value or the default, with datetimes rendered. */
  function FieldValue(event: Object, k: string): JValue {
    ConvertDateTime(if k in event then event[k] else Default(k))
  }

  /** The record built from an event whose timestamp is already fixed up:
      the ten fields' values, nulls dropped. */
  function RecordOf(event: Object): Object {
    map k | k in LogKeys && FieldValue(event, k) != JNull :: FieldValue(event, k)
  }

  lemma RecordClean(event: Object)
    ensures RecordOf(event).Keys <= LogKeys
    ensures forall k :: k in RecordOf(event) ==> RecordOf(event)[k] != JNull && NoDateTime(RecordOf(event)[k])
  {
    forall k | k in RecordOf(event)
      ensures NoDateTime(RecordOf(event)[k])
    {
      ConvertRenders(if k in event then event[k] else Default(k));
    }
  }

  lemma RecordKeepsPresent(event: Object)
    ensures forall k :: k in LogKeys && k in event ==> (k in RecordOf(event) <==> event[k] != JNull)
    ensures forall k :: k in LogKeys && k in event && event[k] != JNull ==> Mirrors(event[k], RecordOf(event)[k])
  {
    forall k | k in LogKeys && k in event && event[k] != JNull
      ensures Mirrors(event[k], RecordOf(event)[k])
    {
      ConvertRenders(event[k]);
    }
  }

  lemma DefaultIsPlain(k: string)
    ensures Default(k) != JNull <==> k in DefaultedKeys
    ensures ConvertDateTime(Default(k)) == Default(k)
  {
  }

  lemma RecordFillsAbsent(event: Object)
    ensures forall k :: k in LogKeys && k !in event ==> (k in RecordOf(event) <==> k in DefaultedKeys)
    ensures forall k :: k in DefaultedKeys && k !in event ==> RecordOf(event)[k] == Default(k)
  {
    forall k | k in LogKeys {
      DefaultIsPlain(k);
    }
  }

  /** `format_log_entry(data)` with the clock reading `now`: the timestamp
      fix-up on the caller's map, then the record of the ten fields. */
  function FormatLogEntry(data: Object, now: DateTime): (r: Formatted)
    ensures r.event.Keys == data.Keys + {"timestamp"}
    ensures r.entry.Keys <= LogKeys
  {
    var event := EnsureTimestamp(data, now);
    RecordClean(event);
    Formatted(event, RecordOf(event))
  }

  /** The caller's map after formatting: a missing timestamp is added and a
      datetime one is rendered; nothing else changes. */
  lemma FormatEventRules(data: Object, now: DateTime)
    ensures var r := FormatLogEntry(data, now);
      && (forall k :: k in data && k != "timestamp" ==> r.event[k] == data[k])
      && ("timestamp" !in data ==> r.event["timestamp"] == JStr(IsoFormat(now)))
      && ("timestamp" in data && data["timestamp"].JDateTime? ==>
            r.event["timestamp"] == JStr(IsoFormat(data["timestamp"].dt)))
      && ("timestamp" in data && !data["timestamp"].JDateTime? ==>
            r.event["timestamp"] == data["timestamp"])
  {
  }

  /** The record: never null, never a datetime; a field present in the
      fixed-up map is kept, rendered, iff it is not null; an absent one is
      filled in iff it has a default, and then with that default. */
  lemma FormatRecordRules(data: Object, now: DateTime)
    ensures var r := FormatLogEntry(data, now);
      && (forall k :: k in r.entry ==> r.entry[k] != JNull && NoDateTime(r.entry[k]))
      && (forall k :: k in LogKeys && k in r.event ==> (k in r.entry <==> r.event[k] != JNull))
      && (forall k :: k in r.entry && k in r.event ==> Mirrors(r.event[k], r.entry[k]))
      && (forall k :: k in LogKeys && k !in r.event ==> (k in r.entry <==> k in DefaultedKeys))
      && (forall k :: k in DefaultedKeys && k !in data ==> k in r.entry && r.entry[k] == Default(k))
  {
    assert "timestamp" !in DefaultedKeys;
    var event := EnsureTimestamp(data, now);
    var r := FormatLogEntry(data, now);
    assert r.event == event && r.entry == RecordOf(event);
    RecordClean(event);
    RecordKeepsPresent(event);
    RecordFillsAbsent(event);
    forall k | k in DefaultedKeys && k !in data
      ensures k in r.entry && r.entry[k] == Default(k)
    {
      assert k !in event;
    }
  }

  /** Formatting the map a first pass left behind yields the same record
      (whatever the clock says then): the console, file and database
      destinations, which each format the same mutated map, agree. */
  lemma FormatStableOnMutatedEvent(data: Object, now: DateTime, later: DateTime)
    ensures FormatLogEntry(FormatLogEntry(data, now).event, later) == FormatLogEntry(data, now)
  {
    var event := EnsureTimestamp(data, now);
    TimestampSettles(data, now, later);
  }

  /** A second fix-up of the timestamp changes nothing. */
  lemma TimestampSettles(data: Object, now: DateTime, later: DateTime)
    ensures EnsureTimestamp(EnsureTimestamp(data, now), later) == EnsureTimestamp(data, now)
  {
    var event := EnsureTimestamp(data, now);
    assert "timestamp" in event && !event["timestamp"].JDateTime?;
  }

  /** Formatting is idempotent for events with no explicit `None` among the
      timestamp and the defaulted fields. */
  lemma FormatIdempotent(data: Object, now: DateTime, later: DateTime)
    requires forall k :: k in NonNullKeys && k in data ==> data[k] != JNull
    ensures FormatLogEntry(FormatLogEntry(data, now).entry, later).entry == FormatLogEntry(data, now).entry
  {
    var first := FormatLogEntry(data, now).entry;
    FirstPassComplete(data, now);
    CompleteRecordIsFixed(first, later);
  }

  /** A record that already holds the timestamp and every defaulted field. */
  ghost predicate Complete(entry: Object) {
    && entry.Keys <= LogKeys
    && "timestamp" in entry
    && (forall k :: k in DefaultedKeys ==> k in entry)
    && (forall k :: k in entry ==> entry[k] != JNull && NoDateTime(entry[k]))
  }

  lemma FirstPassComplete(data: Object, now: DateTime)
    requires forall k :: k in NonNullKeys && k in data ==> data[k] != JNull
    ensures Complete(FormatLogEntry(data, now).entry)
  {
    var event := EnsureTimestamp(data, now);
    var entry := FormatLogEntry(data, now).entry;
    assert entry == RecordOf(event);
    RecordClean(event);
    forall k | k in NonNullKeys
      ensures k in entry
    {
      NonNullFieldKept(data, now, k);
    }
  }

  lemma CompleteRecordIsFixed(entry: Object, later: DateTime)
    requires Complete(entry)
    ensures FormatLogEntry(entry, later).entry == entry
  {
    assert EnsureTimestamp(entry, later) == entry;
    CompleteRecordUnchanged(entry);
  }

  lemma CompleteRecordUnchanged(entry: Object)
    requires Complete(entry)
    ensures RecordOf(entry) == entry
  {
    CompleteRecordKeepsValues(entry);
    CompleteRecordAddsNothing(entry);
    assert RecordOf(entry).Keys == entry.Keys;
  }

  lemma CompleteRecordKeepsValues(entry: Object)
    requires Complete(entry)
    ensures forall k :: k in entry ==> k in RecordOf(entry) && RecordOf(entry)[k] == entry[k]
  {
    forall k | k in entry
      ensures k in RecordOf(entry) && RecordOf(entry)[k] == entry[k]
    {
      ConvertWithoutDateTime(entry[k]);
      assert FieldValue(entry, k) == entry[k];
    }
  }

  lemma CompleteRecordAddsNothing(entry: Object)
    requires Complete(entry)
    ensures forall k :: k in RecordOf(entry) ==> k in entry
  {
    forall k | k in RecordOf(entry)
      ensures k in entry
    {
      DefaultIsPlain(k);
    }
  }

  /** With an explicit `None` the second pass differs: the first drops the
      field, the second fills in its default. */
  lemma ExplicitNullBreaksIdempotence(now: DateTime)
    ensures var first := FormatLogEntry(map["endpoint" := JNull], now).entry;
      && "endpoint" !in first
      && "endpoint" in FormatLogEntry(first, now).entry
      && FormatLogEntry(first, now).entry["endpoint"] == JStr("unknown")
  {
    var data := map["endpoint" := JNull];
    LogKeysMembers();
    FormatEventRules(data, now);
    FormatRecordRules(data, now);
    var first := FormatLogEntry(data, now).entry;
    assert "endpoint" in DefaultedKeys;
    FormatRecordRules(first, now);
  }

  /** `create_log_entry`: every one of the ten fields is set, optional ones to
      `None` when not given, and a missing metadata map becomes `{}`. */
  function CreateLogEntry(endpoint: string, payload: Object, result: Object,
                          sessionId: Option<string>, userId: Option<string>, status: string,
                          durationMs: Option<int>, error: Option<string>, metadata: Option<Object>,
                          now: DateTime): (e: Object)
    ensures e.Keys == LogKeys
  {
    map k | k in LogKeys ::
      if k == "timestamp" then JStr(IsoFormat(now))
      else if k == "endpoint" then JStr(endpoint)
      else if k == "payload" then JObject(payload)
      else if k == "result" then JObject(result)
      else if k == "session_id" then OptionalText(sessionId)
      else if k == "user_id" then OptionalText(userId)
      else if k == "status" then JStr(status)
      else if k == "duration_ms" then (if durationMs.Some? then JNum(durationMs.value as real) else JNull)
      else if k == "error" then OptionalText(error)
      else JObject(metadata.GetOr(map[]))
  }

  /** The always-set fields of a created event: the reading as an ISO text,
      the given values, and `{}` for missing metadata. */
  lemma CreatedFields(endpoint: string, payload: Object, result: Object,
                      sessionId: Option<string>, userId: Option<string>, status: string,
                      durationMs: Option<int>, error: Option<string>, metadata: Option<Object>,
                      now: DateTime)
    ensures var e := CreateLogEntry(endpoint, payload, result, sessionId, userId,
                                    status, durationMs, error, metadata, now);
      && e["timestamp"] == JStr(IsoFormat(now))
      && e["endpoint"] == JStr(endpoint) && e["status"] == JStr(status)
      && e["payload"] == JObject(payload) && e["result"] == JObject(result)
      && e["metadata"] == JObject(metadata.GetOr(map[]))
  {
  }

  /** The optional fields of a created event are `None` exactly when not
      given, and hold the given value otherwise. */
  lemma CreatedOptionalFields(endpoint: string, payload: Object, result: Object,
                              sessionId: Option<string>, userId: Option<string>, status: string,
                              durationMs: Option<int>, error: Option<string>, metadata: Option<Object>,
                              now: DateTime)
    ensures var e := CreateLogEntry(endpoint, payload, result, sessionId, userId,
                                    status, durationMs, error, metadata, now);
      && (e["session_id"] == JNull <==> sessionId.None?)
      && (e["user_id"] == JNull <==> userId.None?)
      && (e["duration_ms"] == JNull <==> durationMs.None?)
      && (e["error"] == JNull <==> error.None?)
      && (error.Some? ==> e["error"] == JStr(error.value))
  {
  }

  /** A created event survives formatting: the six always-set fields are
      kept and each optional one appears exactly when it was given. */
  lemma CreatedEntryFields(endpoint: string, payload: Object, result: Object,
                           sessionId: Option<string>, userId: Option<string>, status: string,
                           durationMs: Option<int>, error: Option<string>, metadata: Option<Object>,
                           now: DateTime, later: DateTime)
    ensures var r := FormatLogEntry(CreateLogEntry(endpoint, payload, result, sessionId, userId,
                                                   status, durationMs, error, metadata, now), later).entry;
      && r.Keys <= LogKeys
      && "timestamp" in r && "endpoint" in r && "payload" in r
      && "result" in r && "status" in r && "metadata" in r
      && ("session_id" in r <==> sessionId.Some?)
      && ("user_id" in r <==> userId.Some?)
      && ("duration_ms" in r <==> durationMs.Some?)
      && ("error" in r <==> error.Some?)
  {
    var e := CreateLogEntry(endpoint, payload, result, sessionId, userId, status, durationMs, error, metadata, now);
    CreatedFields(endpoint, payload, result, sessionId, userId, status, durationMs, error, metadata, now);
    CreatedOptionalFields(endpoint, payload, result, sessionId, userId, status, durationMs, error, metadata, now);
    var r := FormatLogEntry(e, later).entry;
    forall k | k in LogKeys
      ensures k in r <==> e[k] != JNull
    {
      FieldKept(e, later, k);
    }
    LogKeysMembers();
    PresenceOfFields(e, r, sessionId.Some?, userId.Some?, durationMs.Some?, error.Some?);
  }

  /** Which fields a record holds, read off which fields of the ten-field
      event are null. */
  lemma PresenceOfFields(e: Object, r: Object, session: bool, user: bool, duration: bool, err: bool)
    requires e.Keys == LogKeys
    requires forall k :: k in LogKeys ==> (k in r <==> e[k] != JNull)
    requires e["timestamp"].JStr? && e["endpoint"].JStr? && e["status"].JStr?
    requires e["payload"].JObject? && e["result"].JObject? && e["metadata"].JObject?
    requires (e["session_id"] == JNull <==> !session) && (e["user_id"] == JNull <==> !user)
    requires (e["duration_ms"] == JNull <==> !duration) && (e["error"] == JNull <==> !err)
    ensures "timestamp" in r && "endpoint" in r && "payload" in r
    ensures "result" in r && "status" in r && "metadata" in r
    ensures ("session_id" in r <==> session) && ("user_id" in r <==> user)
    ensures ("duration_ms" in r <==> duration) && ("error" in r <==> err)
  {
    LogKeysMembers();
  }

  /** The always-set fields of a created event keep their values through
      formatting, with the maps' datetimes rendered. */
  lemma CreatedEntryValues(endpoint: string, payload: Object, result: Object,
                           sessionId: Option<string>, userId: Option<string>, status: string,
                           durationMs: Option<int>, error: Option<string>, metadata: Option<Object>,
                           now: DateTime, later: DateTime)
    ensures var r := FormatLogEntry(CreateLogEntry(endpoint, payload, result, sessionId, userId,
                                                   status, durationMs, error, metadata, now), later).entry;
      && "timestamp" in r && r["timestamp"] == JStr(IsoFormat(now))
      && "endpoint" in r && r["endpoint"] == JStr(endpoint)
      && "status" in r && r["status"] == JStr(status)
      && "payload" in r && Mirrors(JObject(payload), r["payload"])
      && "result" in r && Mirrors(JObject(result), r["result"])
      && "metadata" in r && Mirrors(JObject(metadata.GetOr(map[])), r["metadata"])
  {
    var e := CreateLogEntry(endpoint, payload, result, sessionId, userId, status, durationMs, error, metadata, now);
    CreatedFields(endpoint, payload, result, sessionId, userId, status, durationMs, error, metadata, now);
    LogKeysMembers();
    ConvertRenders(JObject(payload));
    ConvertRenders(JObject(result));
    ConvertRenders(JObject(metadata.GetOr(map[])));
    FieldKept(e, later, "timestamp");
    FieldKept(e, later, "endpoint");
    FieldKept(e, later, "payload");
    FieldKept(e, later, "result");
    FieldKept(e, later, "status");
    FieldKept(e, later, "metadata");
  }

  /** Formatting an event that carries all ten fields and a rendered
      timestamp keeps field `k`, rendered, exactly when it is not null. */
  lemma FieldKept(e: Object, later: DateTime, k: string)
    requires e.Keys == LogKeys && e["timestamp"].JStr? && k in LogKeys
    ensures var r := FormatLogEntry(e, later).entry;
      && (k in r <==> e[k] != JNull)
      && (k in r ==> r[k] == ConvertDateTime(e[k]))
  {
    assert EnsureTimestamp(e, later) == e;
  }

  /** `log_api_call`'s event: the request as payload and the response as
      result; the keyword arguments fill the other fields as in
      `create_log_entry`. */
  function ApiCallEntry(endpoint: string, request: Object, response: Object,
                        sessionId: Option<string>, userId: Option<string>, status: string,
                        durationMs: Option<int>, error: Option<string>, metadata: Option<Object>,
                        now: DateTime): (e: Object)
    ensures e.Keys == LogKeys
    ensures e["endpoint"] == JStr(endpoint)
    ensures e["payload"] == JObject(request) && e["result"] == JObject(response)
    ensures e["status"] == JStr(status)
  {
    CreatedFields(endpoint, request, response, sessionId, userId, status, durationMs, error, metadata, now);
    CreateLogEntry(endpoint, request, response, sessionId, userId, status, durationMs, error, metadata, now)
  }

  /** `log_error`'s event: status "error", the message as `error`, and a
      result object holding only that message. The remaining keyword
      arguments (`status` and `error` would clash) fill the other fields. */
  function ErrorEntry(endpoint: string, message: string, payload: Object,
                      sessionId: Option<string>, userId: Option<string>,
                      durationMs: Option<int>, metadata: Option<Object>, now: DateTime): (e: Object)
    ensures e.Keys == LogKeys
    ensures e["status"] == JStr("error")
    ensures e["error"] == JStr(message)
    ensures e["result"] == JObject(map["error" := JStr(message)])
    ensures e["payload"] == JObject(payload) && e["endpoint"] == JStr(endpoint)
  {
    var result := map["error" := JStr(message)];
    CreatedFields(endpoint, payload, result, sessionId, userId, "error", durationMs, Some(message), metadata, now);
    CreatedOptionalFields(endpoint, payload, result, sessionId, userId, "error", durationMs, Some(message), metadata, now);
    CreateLogEntry(endpoint, payload, result, sessionId, userId, "error", durationMs, Some(message), metadata, now)
  }

  // ---------------------------------------------------------------------
  // Sinks
  // ---------------------------------------------------------------------

  /** The database settings the sink reads from the environment. */
  datatype ClickHouseConfig = ClickHouseConfig(url: string, password: string)

  /** What the database path did: whether it reports success, and whether a
      request was actually sent. */
  datatype DbWrite = DbWrite(ok: bool, transmitted: bool)

  /** The fields the database row reads by subscript; a record without one
      of them raises `KeyError`, which the sink catches. */
  const RowKeys: set<string> := {"timestamp", "endpoint", "payload", "result"}

  /** The boolean rule of `log_to_clickhouse_real(data)`; `t` is what the
      POST would produce if one is made. */
  function LogToClickHouseReal(cfg: ClickHouseConfig, data: Object, now: DateTime, t: Transport): (r: DbWrite)
    ensures cfg.url == "" ==> !r.ok && !r.transmitted
    ensures !(RowKeys <= FormatLogEntry(data, now).entry.Keys) ==> !r.ok && !r.transmitted
    ensures r.transmitted <==>
      cfg.url != "" && cfg.password != "" && RowKeys <= FormatLogEntry(data, now).entry.Keys
    ensures cfg.url != "" && cfg.password == "" ==> (r.ok <==> RowKeys <= FormatLogEntry(data, now).entry.Keys)
    ensures r.transmitted ==> (r.ok <==> t.Responded? && !RaisesForStatus(t.response.status))
  {
    var entry := FormatLogEntry(data, now).entry;
    if cfg.url == "" then DbWrite(false, false)
    else if !(RowKeys <= entry.Keys) then DbWrite(false, false)
    else if cfg.password == "" then DbWrite(true, false)
    else DbWrite(t.Responded? && !RaisesForStatus(t.response.status), true)
  }

  /** An event with no explicit `None` among the row's fields always yields a
      database row; an explicit `None` endpoint makes the database path fail
      whatever the server would answer. */
  lemma RowReadyUnlessNull(data: Object, now: DateTime)
    ensures (forall k :: k in RowKeys && k in data ==> data[k] != JNull) <==>
            RowKeys <= FormatLogEntry(data, now).entry.Keys
  {
    var entry := FormatLogEntry(data, now).entry;
    forall k | k in RowKeys
      ensures k in entry <==> !(k in data && data[k] == JNull)
    {
      NonNullFieldKept(data, now, k);
    }
    RowReadyOf(data, entry);
  }

  lemma RowReadyOf(data: Object, entry: Object)
    requires forall k :: k in RowKeys ==> (k in entry <==> !(k in data && data[k] == JNull))
    ensures (forall k :: k in RowKeys && k in data ==> data[k] != JNull) <==> RowKeys <= entry.Keys
  {
  }

  /** The timestamp or a defaulted field is in the record iff the event
      does not set it to an explicit `None`. */
  lemma NonNullFieldKept(data: Object, now: DateTime, k: string)
    requires k in NonNullKeys
    ensures k in FormatLogEntry(data, now).entry <==> !(k in data && data[k] == JNull)
  {
    var event := EnsureTimestamp(data, now);
    assert k in LogKeys;
    if k in event {
      assert FieldValue(event, k) == ConvertDateTime(event[k]);
      assert k in data && data[k] == JNull <==> event[k] == JNull;
    } else {
      DefaultIsPlain(k);
    }
  }

  /** What `log_to_clickhouse` did: its reported success, the log file after
      the append attempt, and the database outcome when that path ran. */
  datatype SinkResult = SinkResult(success: bool, file: seq<Object>, db: Option<DbWrite>)

  /** `log_to_clickhouse(data)`: console, then file, then the database when
      a URL is configured. `fileWritable` says whether the append succeeds.
      Each destination formats the map the previous one mutated. */
  function LogToClickHouse(cfg: ClickHouseConfig, file: seq<Object>, fileWritable: bool,
                           data: Object, now: DateTime, t: Transport): (r: SinkResult)
    ensures r.success
    ensures r.db.Some? <==> cfg.url != ""
    ensures fileWritable ==> r.file == file + [FormatLogEntry(data, now).entry]
    ensures !fileWritable ==> r.file == file
    ensures r.db.Some? ==>
      (r.db.value.ok <==>
         && RowKeys <= FormatLogEntry(data, now).entry.Keys
         && (cfg.password != "" ==> t.Responded? && !RaisesForStatus(t.response.status)))
  {
    var console := FormatLogEntry(data, now);
    var toFile := FormatLogEntry(console.event, now);
    FormatStableOnMutatedEvent(data, now, now);
    var file' := if fileWritable then file + [toFile.entry] else file;
    var db := if cfg.url != "" then Some(LogToClickHouseReal(cfg, toFile.event, now, t)) else None;
    SinkResult(true, file', db)
  }

  /** The sink's verdict does not depend on any destination's outcome. */
  lemma SinkSucceedsWhateverTheOutcome(cfg: ClickHouseConfig, cfg': ClickHouseConfig,
                                       file: seq<Object>, w: bool, w': bool,
                                       data: Object, now: DateTime, t: Transport, t': Transport)
    ensures LogToClickHouse(cfg, file, w, data, now, t).success == LogToClickHouse(cfg', file, w', data, now, t').success
  {
  }

  /** `log_error(...)` through the sink: it reports success, and when the
      file accepts the line, the appended record carries status "error",
      the message, and the message-only result. */
  function LogError(cfg: ClickHouseConfig, file: seq<Object>, fileWritable: bool,
                    endpoint: string, message: string, payload: Object,
                    sessionId: Option<string>, userId: Option<string>,
                    durationMs: Option<int>, metadata: Option<Object>,
                    now: DateTime, later: DateTime, t: Transport): (r: SinkResult)
    ensures r.success
    ensures fileWritable ==> |r.file| == |file| + 1 && r.file[..|file|] == file
    ensures fileWritable ==>
      var line := r.file[|file|];
      && "status" in line && line["status"] == JStr("error")
      && "error" in line && line["error"] == JStr(message)
      && "result" in line && line["result"] == JObject(map["error" := JStr(message)])
    ensures !fileWritable ==> r.file == file
  {
    var e := ErrorEntry(endpoint, message, payload, sessionId, userId, durationMs, metadata, now);
    LogKeysMembers();
    FieldKept(e, later, "status");
    FieldKept(e, later, "error");
    FieldKept(e, later, "result");
    ConvertWithoutDateTime(JObject(map["error" := JStr(message)]));
    LogToClickHouse(cfg, file, fileWritable, e, later, t)
  }

  // ---------------------------------------------------------------------
  // Statistics over the log file
  // ---------------------------------------------------------------------

  datatype LogStats =
    | NoLogFile
    | Stats(total: nat, endpoints: set<JValue>, statuses: set<JValue>)
    | StatsError

  /** The `total_entries` the statistics report (a missing file counts 0). */
  function TotalEntries(r: LogStats): Option<nat> {
    match r
    case NoLogFile => Some(0)
    case Stats(total, _, _) => Some(total)
    case StatsError => None
  }

  /** `lines[-10:]`. */
  function LastTen(lines: seq<Option<JValue>>): (r: seq<Option<JValue>>)
    ensures |r| == if |lines| < 10 then |lines| else 10
    ensures r == lines[|lines| - |r|..]
  {
    if |lines| <= 10 then lines else lines[|lines| - 10..]
  }

  /** `entry.get(key)` on a dict. */
  function Get(m: Object, key: string): JValue {
    if key in m then m[key] else JNull
  }

  /** Python can put the value in a `set`: lists and dicts are unhashable. */
  predicate Hashable(v: JValue) {
    !v.JArray? && !v.JObject?
  }

  /** A parsed recent line that makes the statistics raise: not a dict, or
      an endpoint or status value that cannot go into a set. */
  predicate Unusable(v: JValue) {
    !v.JObject? || !Hashable(Get(v.fields, "endpoint")) || !Hashable(Get(v.fields, "status"))
  }

  /** The values of `key` across the parsed dict lines. */
  function Collect(lines: seq<Option<JValue>>, key: string): (r: set<JValue>)
    ensures forall v :: v in r <==>
      exists i :: 0 <= i < |lines| && lines[i].Some? && lines[i].value.JObject?
                  && Get(lines[i].value.fields, key) == v
  {
    if lines == [] then {}
    else
      var rest := Collect(lines[1..], key);
      assert forall i :: 1 <= i < |lines| ==> lines[i] == lines[1..][i - 1];
      if lines[0].Some? && lines[0].value.JObject? then {Get(lines[0].value.fields, key)} + rest
      else rest
  }

  /** `get_log_stats()` over the log file (`None` when it does not exist). */
  function GetLogStats(file: Option<seq<Option<JValue>>>): (r: LogStats)
    ensures file.None? <==> r.NoLogFile?
    ensures file.None? ==> TotalEntries(r) == Some(0)
    ensures file.Some? ==>
      (r.StatsError? <==> exists i :: 0 <= i < |LastTen(file.value)| && LastTen(file.value)[i].Some?
                                       && Unusable(LastTen(file.value)[i].value))
    ensures r.Stats? ==> r.total == |file.value|
    ensures r.Stats? ==> forall v :: v in r.endpoints <==>
      exists i :: 0 <= i < |LastTen(file.value)| && LastTen(file.value)[i].Some?
                  && Get(LastTen(file.value)[i].value.fields, "endpoint") == v
    ensures r.Stats? ==> forall v :: v in r.statuses <==>
      exists i :: 0 <= i < |LastTen(file.value)| && LastTen(file.value)[i].Some?
                  && Get(LastTen(file.value)[i].value.fields, "status") == v
  {
    if file.None? then NoLogFile
    else
      var recent := LastTen(file.value);
      if exists i :: 0 <= i < |recent| && recent[i].Some? && Unusable(recent[i].value) then StatsError
      else Stats(|file.value|, Collect(recent, "endpoint"), Collect(recent, "status"))
  }

  /** A line appended to the log is counted, and when the statistics
      succeed its endpoint and status are among the recent ones. */
  lemma AppendedLineInStats(lines: seq<Option<JValue>>, entry: Object)
    ensures var r := GetLogStats(Some(lines + [Some(JObject(entry))]));
      && (r.Stats? || r.StatsError?)
      && (r.Stats? ==> r.total == |lines| + 1
                       && Get(entry, "endpoint") in r.endpoints
                       && Get(entry, "status") in r.statuses)
  {
    var all := lines + [Some(JObject(entry))];
    var recent := LastTen(all);
    assert recent[|recent| - 1] == Some(JObject(entry));
  }
}
