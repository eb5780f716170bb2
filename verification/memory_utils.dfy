/** The memory store: the envelope written for each remembered item, the
    success rule of a write, retrieval over the line store (type filter,
    malformed lines skipped, newest first, limit), and per-type counts.
    The store is a sequence of lines; a line is `None` when it is not valid
    JSON. */
module MemoryUtils {
  import opened Wrappers
  import opened Text
  import opened Clock
  import opened Json
  import opened StrOrder

  // ---------------------------------------------------------------------
  // Envelopes
  // ---------------------------------------------------------------------

  /** The dict `format_memory_entry` builds. */
  datatype Envelope = Envelope(id: string, timestamp: string, memoryType: string,
                               data: Object, metadata: Object, version: string)

  /** A parsed line of the store: the two keys that retrieval and the
      statistics read (`None` when the key is absent), and the rest of the
      dict. */
  datatype MemoryEntry = MemoryEntry(timestamp: Option<string>, memoryType: Option<string>, rest: Object)

  /** `bool(PINECONE_API_KEY and PINECONE_ENV)`. */
  predicate IsPineconeConfigured(apiKey: string, env: string) {
    apiKey != "" && env != ""
  }

  /** Splits a memory id back into its second-resolution stamp and its type. */
  function ParseMemoryId(id: string): Option<(string, string)> {
    if |id| >= 20 && id[..4] == "mem_" && id[19] == '_' then Some((id[4..19], id[20..]))
    else None
  }

  /** `format_memory_entry(data, memory_type, metadata)`. The source reads
      the clock twice: `idClock` for the id, `tsClock` for the timestamp. */
  function FormatMemoryEntry(data: Object, memoryType: string, metadata: Option<Object>,
                             idClock: DateTime, tsClock: DateTime): (e: Envelope)
    requires Valid(idClock)
    ensures ParseMemoryId(e.id) == Some((Stamp(idClock), memoryType))
    ensures e.timestamp == IsoFormat(tsClock)
    ensures e.memoryType == memoryType && e.data == data
    ensures e.metadata == metadata.GetOr(map[])
    ensures e.version == "1.0"
  {
    var id := "mem_" + Stamp(idClock) + "_" + memoryType;
    assert id[..4] == "mem_" && id[4..19] == Stamp(idClock) && id[20..] == memoryType;
    Envelope(id, IsoFormat(tsClock), memoryType, data, metadata.GetOr(map[]), "1.0")
  }

  /** Two envelopes get the same id exactly when they have the same type and
      their id readings fall in the same second. */
  lemma MemoryIdCollision(d1: Object, t1: string, m1: Option<Object>, c1: DateTime, ts1: DateTime,
                          d2: Object, t2: string, m2: Option<Object>, c2: DateTime, ts2: DateTime)
    requires Valid(c1) && Valid(c2)
    ensures FormatMemoryEntry(d1, t1, m1, c1, ts1).id == FormatMemoryEntry(d2, t2, m2, c2, ts2).id
        <==> t1 == t2 && (c1.year, c1.month, c1.day, c1.hour, c1.minute, c1.second)
                      == (c2.year, c2.month, c2.day, c2.hour, c2.minute, c2.second)
  {
    StampIsSecondResolution(c1, c2);
    var e1 := FormatMemoryEntry(d1, t1, m1, c1, ts1);
    var e2 := FormatMemoryEntry(d2, t2, m2, c2, ts2);
    if t1 == t2 && Stamp(c1) == Stamp(c2) {
      assert e1.id == "mem_" + Stamp(c1) + "_" + t1;
    }
  }

  /** The id is not unique: two different items of one type stored within
      the same second share it. */
  lemma MemoryIdNotInjective(c: DateTime, c': DateTime)
    requires Valid(c) && Valid(c')
    requires (c.year, c.month, c.day, c.hour, c.minute, c.second)
          == (c'.year, c'.month, c'.day, c'.hour, c'.minute, c'.second)
    ensures var a := FormatMemoryEntry(map["n" := JNum(1.0)], "general", None, c, c);
            var b := FormatMemoryEntry(map["n" := JNum(2.0)], "general", None, c', c');
            a.id == b.id && a != b
  {
    MemoryIdCollision(map["n" := JNum(1.0)], "general", None, c, c, map["n" := JNum(2.0)], "general", None, c', c');
    var a := FormatMemoryEntry(map["n" := JNum(1.0)], "general", None, c, c);
    assert a.data["n"] == JNum(1.0);
  }

  /** The line `json.dumps(entry)` puts in the store, as read back. */
  function EntryOf(e: Envelope): MemoryEntry {
    MemoryEntry(Some(e.timestamp), Some(e.memoryType),
                map["id" := JStr(e.id), "data" := JObject(e.data),
                    "metadata" := JObject(e.metadata), "version" := JStr(e.version)])
  }

  // ---------------------------------------------------------------------
  // Writes
  // ---------------------------------------------------------------------

  /** What `log_to_memory` did: its verdict, the store after the append
      attempt, and what the vector-store stub returned. */
  datatype MemoryWrite = MemoryWrite(success: bool, file: seq<Option<MemoryEntry>>, vectorStored: bool)

  /** `store_to_pinecone_stub`: it only reports whether it is configured. */
  function PineconeStub(apiKey: string, env: string): (stored: bool)
    ensures stored <==> apiKey != "" && env != ""
  {
    IsPineconeConfigured(apiKey, env)
  }

  /** `json.dumps` of the envelope succeeds: neither the data nor the
      metadata holds a `datetime` (the other parts are texts). */
  predicate Serialisable(data: Object, metadata: Option<Object>) {
    NoDateTime(JObject(data)) && NoDateTime(JObject(metadata.GetOr(map[])))
  }

  /** `log_to_memory(data, memory_type, metadata)`; `fileWritable` says
      whether the append to the store succeeds. `store_to_file` serialises
      the envelope inside its `try`, so an envelope that cannot be
      serialised gives false and writes nothing. */
  function LogToMemory(file: seq<Option<MemoryEntry>>, fileWritable: bool, apiKey: string, env: string,
                       data: Object, memoryType: string, metadata: Option<Object>,
                       idClock: DateTime, tsClock: DateTime): (r: MemoryWrite)
    requires Valid(idClock)
    ensures r.success <==> fileWritable && Serialisable(data, metadata)
    ensures r.vectorStored <==> apiKey != "" && env != ""
    ensures r.success ==> r.file == file + [Some(EntryOf(FormatMemoryEntry(data, memoryType, metadata, idClock, tsClock)))]
    ensures !r.success ==> r.file == file
  {
    var entry := FormatMemoryEntry(data, memoryType, metadata, idClock, tsClock);
    var written := fileWritable && Serialisable(data, metadata);
    var file' := if written then file + [Some(EntryOf(entry))] else file;
    MemoryWrite(written, file', PineconeStub(apiKey, env))
  }

  /** The verdict of a write is the file outcome alone: the stub's answer
      never changes it. */
  lemma WriteIgnoresVectorStore(file: seq<Option<MemoryEntry>>, w: bool,
                                k1: string, env1: string, k2: string, env2: string,
                                data: Object, t: string, m: Option<Object>, c: DateTime, ts: DateTime)
    requires Valid(c)
    ensures LogToMemory(file, w, k1, env1, data, t, m, c, ts).success
         == LogToMemory(file, w, k2, env2, data, t, m, c, ts).success
    ensures LogToMemory(file, w, k1, env1, data, t, m, c, ts).file
         == LogToMemory(file, w, k2, env2, data, t, m, c, ts).file
  {
  }

  /** The `data` map of `store_campaign_memory`. */
  function CampaignData(campaignId: string, budget: real, audience: seq<string>, creatives: seq<string>,
                        status: string, launchClock: DateTime): Object {
    map["campaign_id" := JStr(campaignId), "budget" := JNum(budget),
        "audience" := TextArray(audience), "creatives" := TextArray(creatives),
        "status" := JStr(status), "launch_timestamp" := JStr(IsoFormat(launchClock))]
  }

  /** The envelope `store_campaign_memory` writes: a "campaign" memory
      whose metadata names the campaign as the entity. */
  function CampaignEnvelope(campaignId: string, budget: real, audience: seq<string>, creatives: seq<string>,
                            status: string, launchClock: DateTime, idClock: DateTime, tsClock: DateTime): (e: Envelope)
    requires Valid(idClock)
    ensures e.memoryType == "campaign"
    ensures e.data == CampaignData(campaignId, budget, audience, creatives, status, launchClock)
    ensures e.metadata == CampaignMetadata(campaignId, status)
  {
    FormatMemoryEntry(CampaignData(campaignId, budget, audience, creatives, status, launchClock),
                      "campaign", Some(CampaignMetadata(campaignId, status)), idClock, tsClock)
  }

  /** The metadata of a campaign memory: the entity kind, its id and its
      status, and nothing else. */
  function CampaignMetadata(campaignId: string, status: string): (m: Object)
    ensures "entity_type" in m && m["entity_type"] == JStr("campaign")
    ensures "entity_id" in m && m["entity_id"] == JStr(campaignId)
    ensures "status" in m && m["status"] == JStr(status)
    ensures |m| == 3
  {
    map["entity_type" := JStr("campaign"), "entity_id" := JStr(campaignId), "status" := JStr(status)]
  }

  /** The campaign data and metadata hold only texts, numbers and lists of
      texts. */
  lemma CampaignSerialisable(campaignId: string, budget: real, audience: seq<string>, creatives: seq<string>,
                             status: string, launchClock: DateTime)
    ensures Serialisable(CampaignData(campaignId, budget, audience, creatives, status, launchClock),
                         Some(CampaignMetadata(campaignId, status)))
  {
    CampaignDataSerialisable(campaignId, budget, audience, creatives, status, launchClock);
    CampaignMetadataSerialisable(campaignId, status);
  }

  lemma CampaignDataSerialisable(campaignId: string, budget: real, audience: seq<string>, creatives: seq<string>,
                                 status: string, launchClock: DateTime)
    ensures NoDateTime(JObject(CampaignData(campaignId, budget, audience, creatives, status, launchClock)))
  {
    var d: Object := map[];
    NoDateTimeUpdate(d, "campaign_id", JStr(campaignId));
    d := d["campaign_id" := JStr(campaignId)];
    NoDateTimeUpdate(d, "budget", JNum(budget));
    d := d["budget" := JNum(budget)];
    NoDateTimeUpdate(d, "audience", TextArray(audience));
    d := d["audience" := TextArray(audience)];
    NoDateTimeUpdate(d, "creatives", TextArray(creatives));
    d := d["creatives" := TextArray(creatives)];
    NoDateTimeUpdate(d, "status", JStr(status));
    d := d["status" := JStr(status)];
    NoDateTimeUpdate(d, "launch_timestamp", JStr(IsoFormat(launchClock)));
  }

  lemma CampaignMetadataSerialisable(campaignId: string, status: string)
    ensures NoDateTime(JObject(CampaignMetadata(campaignId, status)))
  {
    var m: Object := map[];
    NoDateTimeUpdate(m, "entity_type", JStr("campaign"));
    m := m["entity_type" := JStr("campaign")];
    NoDateTimeUpdate(m, "entity_id", JStr(campaignId));
    m := m["entity_id" := JStr(campaignId)];
    NoDateTimeUpdate(m, "status", JStr(status));
  }

  /** `store_campaign_memory(...)`: the campaign envelope goes through
      `log_to_memory`, and it can always be serialised. */
  function StoreCampaignMemory(file: seq<Option<MemoryEntry>>, fileWritable: bool, apiKey: string, env: string,
                               campaignId: string, budget: real, audience: seq<string>, creatives: seq<string>,
                               status: string, launchClock: DateTime, idClock: DateTime, tsClock: DateTime): (r: MemoryWrite)
    requires Valid(idClock)
    ensures r.success == fileWritable
    ensures !fileWritable ==> r.file == file
    ensures fileWritable ==> r.file == file + [Some(EntryOf(CampaignEnvelope(campaignId, budget, audience, creatives,
                                                                           status, launchClock, idClock, tsClock)))]
  {
    CampaignSerialisable(campaignId, budget, audience, creatives, status, launchClock);
    LogToMemory(file, fileWritable, apiKey, env,
                CampaignData(campaignId, budget, audience, creatives, status, launchClock),
                "campaign", Some(CampaignMetadata(campaignId, status)), idClock, tsClock)
  }

  /** The `data` map of `store_playbook_memory`. The handler passes the
      request's version, which is `None` for an explicit `null`. */
  function PlaybookData(playbookId: string, name: string, content: Object, version: Option<string>,
                        uploadClock: DateTime): Object {
    map["playbook_id" := JStr(playbookId), "playbook_name" := JStr(name), "content" := JObject(content),
        "version" := OptionalText(version), "upload_timestamp" := JStr(IsoFormat(uploadClock))]
  }

  /** The envelope `store_playbook_memory` writes: a "playbook" memory
      whose metadata names the playbook, its name and its version. */
  function PlaybookEnvelope(playbookId: string, name: string, content: Object, version: Option<string>,
                            uploadClock: DateTime, idClock: DateTime, tsClock: DateTime): (e: Envelope)
    requires Valid(idClock)
    ensures e.memoryType == "playbook"
    ensures e.data == PlaybookData(playbookId, name, content, version, uploadClock)
    ensures e.metadata == PlaybookMetadata(playbookId, name, version)
  {
    FormatMemoryEntry(PlaybookData(playbookId, name, content, version, uploadClock),
                      "playbook", Some(PlaybookMetadata(playbookId, name, version)), idClock, tsClock)
  }

  /** The metadata of a playbook memory: the entity kind, its id, its name
      and its version, and nothing else. */
  function PlaybookMetadata(playbookId: string, name: string, version: Option<string>): (m: Object)
    ensures "entity_type" in m && m["entity_type"] == JStr("playbook")
    ensures "entity_id" in m && m["entity_id"] == JStr(playbookId)
    ensures "name" in m && m["name"] == JStr(name)
    ensures "version" in m && (m["version"] == JNull <==> version.None?)
    ensures "version" in m && version.Some? ==> m["version"] == JStr(version.value)
    ensures |m| == 4
  {
    map["entity_type" := JStr("playbook"), "entity_id" := JStr(playbookId),
        "name" := JStr(name), "version" := OptionalText(version)]
  }

  /** A playbook memory can be serialised exactly when its content holds no
      `datetime`; the other fields are texts or `null`. */
  lemma PlaybookSerialisable(playbookId: string, name: string, content: Object, version: Option<string>,
                             uploadClock: DateTime)
    ensures Serialisable(PlaybookData(playbookId, name, content, version, uploadClock),
                         Some(PlaybookMetadata(playbookId, name, version)))
        <==> NoDateTime(JObject(content))
  {
    PlaybookDataSerialisable(playbookId, name, content, version, uploadClock);
    PlaybookMetadataSerialisable(playbookId, name, version);
  }

  lemma PlaybookDataSerialisable(playbookId: string, name: string, content: Object, version: Option<string>,
                                 uploadClock: DateTime)
    ensures NoDateTime(JObject(PlaybookData(playbookId, name, content, version, uploadClock)))
        <==> NoDateTime(JObject(content))
  {
    var d := PlaybookData(playbookId, name, content, version, uploadClock);
    assert "content" in d && d["content"] == JObject(content);
    if NoDateTime(JObject(content)) {
      var e: Object := map[];
      NoDateTimeUpdate(e, "playbook_id", JStr(playbookId));
      e := e["playbook_id" := JStr(playbookId)];
      NoDateTimeUpdate(e, "playbook_name", JStr(name));
      e := e["playbook_name" := JStr(name)];
      NoDateTimeUpdate(e, "content", JObject(content));
      e := e["content" := JObject(content)];
      NoDateTimeUpdate(e, "version", OptionalText(version));
      e := e["version" := OptionalText(version)];
      NoDateTimeUpdate(e, "upload_timestamp", JStr(IsoFormat(uploadClock)));
    }
  }

  lemma PlaybookMetadataSerialisable(playbookId: string, name: string, version: Option<string>)
    ensures NoDateTime(JObject(PlaybookMetadata(playbookId, name, version)))
  {
    var m: Object := map[];
    NoDateTimeUpdate(m, "entity_type", JStr("playbook"));
    m := m["entity_type" := JStr("playbook")];
    NoDateTimeUpdate(m, "entity_id", JStr(playbookId));
    m := m["entity_id" := JStr(playbookId)];
    NoDateTimeUpdate(m, "name", JStr(name));
    m := m["name" := JStr(name)];
    NoDateTimeUpdate(m, "version", OptionalText(version));
  }

  /** `store_playbook_memory(...)`: the playbook envelope goes through
      `log_to_memory`. */
  function StorePlaybookMemory(file: seq<Option<MemoryEntry>>, fileWritable: bool, apiKey: string, env: string,
                               playbookId: string, name: string, content: Object, version: Option<string>,
                               uploadClock: DateTime, idClock: DateTime, tsClock: DateTime): (r: MemoryWrite)
    requires Valid(idClock)
    ensures r.success <==> fileWritable && NoDateTime(JObject(content))
    ensures !r.success ==> r.file == file
    ensures r.success ==> r.file == file + [Some(EntryOf(PlaybookEnvelope(playbookId, name, content, version,
                                                                           uploadClock, idClock, tsClock)))]
  {
    PlaybookSerialisable(playbookId, name, content, version, uploadClock);
    LogToMemory(file, fileWritable, apiKey, env, PlaybookData(playbookId, name, content, version, uploadClock),
                "playbook", Some(PlaybookMetadata(playbookId, name, version)), idClock, tsClock)
  }

  // ---------------------------------------------------------------------
  // Retrieval
  // ---------------------------------------------------------------------

  /** The sort key `x.get("timestamp", "")`. */
  function Key(e: MemoryEntry): string {
    e.timestamp.GetOr("")
  }

  /** The type filter: a missing or empty filter keeps every entry. */
  predicate Keeps(filter: Option<string>, e: MemoryEntry) {
    filter.None? || filter.value == "" || e.memoryType == Some(filter.value)
  }

  /** The parsed lines that pass the filter, in file order. */
  function Matching(lines: seq<Option<MemoryEntry>>, filter: Option<string>): (r: seq<MemoryEntry>)
    ensures |r| <= |lines|
    ensures forall e :: e in r <==> Some(e) in lines && Keeps(filter, e)
  {
    if lines == [] then []
    else
      var rest := Matching(lines[1..], filter);
      assert forall x :: x in lines <==> x == lines[0] || x in lines[1..];
      if lines[0].Some? && Keeps(filter, lines[0].value) then [lines[0].value] + rest else rest
  }

  /** Newest first: no entry's key is above an earlier one's. */
  predicate SortedDesc(s: seq<MemoryEntry>) {
    forall i, j :: 0 <= i < j < |s| ==> StrLe(Key(s[j]), Key(s[i]))
  }

  /** Inserts `x` after every entry with a strictly greater key, so that among
      equal keys the earlier entry stays first. */
  function Insert(x: MemoryEntry, s: seq<MemoryEntry>): (r: seq<MemoryEntry>)
    requires SortedDesc(s)
    ensures SortedDesc(r)
    ensures multiset(r) == multiset(s) + multiset{x}
  {
    if s == [] then [x]
    else if StrLt(Key(x), Key(s[0])) then
      var tail := Insert(x, s[1..]);
      assert s == [s[0]] + s[1..];
      InsertHead(s[0], x, s[1..], tail);
      [s[0]] + tail
    else
      NotLtIsGe(Key(x), Key(s[0]));
      InsertFront(x, s);
      [x] + s
  }

  lemma InsertHead(h: MemoryEntry, x: MemoryEntry, s: seq<MemoryEntry>, tail: seq<MemoryEntry>)
    requires SortedDesc([h] + s) && SortedDesc(tail)
    requires multiset(tail) == multiset(s) + multiset{x}
    requires StrLt(Key(x), Key(h))
    ensures SortedDesc([h] + tail)
  {
    forall j | 0 <= j < |tail|
      ensures StrLe(Key(tail[j]), Key(h))
    {
      assert tail[j] in multiset(tail);
      if tail[j] != x {
        assert tail[j] in multiset(s);
        var k :| 0 <= k < |s| && s[k] == tail[j];
        assert ([h] + s)[k + 1] == s[k] && ([h] + s)[0] == h;
      } else {
        assert StrLe(Key(x), Key(h));
      }
    }
    var r := [h] + tail;
    forall i, j | 0 <= i < j < |r|
      ensures StrLe(Key(r[j]), Key(r[i]))
    {
      if i > 0 {
        assert r[i] == tail[i - 1] && r[j] == tail[j - 1];
      }
    }
  }

  lemma InsertFront(x: MemoryEntry, s: seq<MemoryEntry>)
    requires SortedDesc(s) && s != []
    requires StrLe(Key(s[0]), Key(x))
    ensures SortedDesc([x] + s)
  {
    var r := [x] + s;
    forall i, j | 0 <= i < j < |r|
      ensures StrLe(Key(r[j]), Key(r[i]))
    {
      if i == 0 {
        if j > 1 {
          StrLeTrans(Key(s[j - 1]), Key(s[0]), Key(x));
        }
      } else {
        assert r[i] == s[i - 1] && r[j] == s[j - 1];
      }
    }
  }

  /** `s.sort(key=timestamp, reverse=True)`: Python's stable sort, newest
      first. */
  function SortDesc(s: seq<MemoryEntry>): (r: seq<MemoryEntry>)
    ensures SortedDesc(r)
    ensures multiset(r) == multiset(s)
  {
    if s == [] then []
    else
      assert s == [s[0]] + s[1..];
      Insert(s[0], SortDesc(s[1..]))
  }

  /** The entries of `s` whose key is `k`, in order. */
  function WithKey(s: seq<MemoryEntry>, k: string): seq<MemoryEntry> {
    if s == [] then []
    else (if Key(s[0]) == k then [s[0]] else []) + WithKey(s[1..], k)
  }

  lemma {:induction false} InsertStable(x: MemoryEntry, s: seq<MemoryEntry>, k: string)
    requires SortedDesc(s)
    ensures WithKey(Insert(x, s), k) == (if Key(x) == k then [x] else []) + WithKey(s, k)
  {
    if s != [] && StrLt(Key(x), Key(s[0])) {
      var tail := Insert(x, s[1..]);
      InsertStable(x, s[1..], k);
      assert ([s[0]] + tail)[1..] == tail;
      assert Insert(x, s) == [s[0]] + tail;
      var hx: seq<MemoryEntry> := if Key(x) == k then [x] else [];
      var hs: seq<MemoryEntry> := if Key(s[0]) == k then [s[0]] else [];
      assert WithKey(s, k) == hs + WithKey(s[1..], k);
      assert WithKey(Insert(x, s), k) == hs + (hx + WithKey(s[1..], k));
      assert hx == [] || hs == [];
    } else {
      assert ([x] + s)[1..] == s;
    }
  }

  /** The sort is stable: entries with equal keys keep their file order. */
  lemma {:induction false} SortStable(s: seq<MemoryEntry>, k: string)
    ensures WithKey(SortDesc(s), k) == WithKey(s, k)
  {
    if s != [] {
      SortStable(s[1..], k);
      InsertStable(s[0], SortDesc(s[1..]), k);
    }
  }

  /** The length of Python's `s[:limit]` on a list of length `n`. */
  function SliceLen(n: nat, limit: int): nat {
    if limit >= 0 then (if limit < n then limit else n)
    else if n + limit < 0 then 0 else n + limit
  }

  /** `r` holds greatest keys of `all`: no entry left out of `r` is above an
      entry in it. */
  ghost predicate IsTop(r: seq<MemoryEntry>, all: multiset<MemoryEntry>) {
    forall x, y :: x in r && y in all - multiset(r) ==> StrLe(Key(y), Key(x))
  }

  /** `retrieve_memories(memory_type, limit, search_query)` over the store
      (`None` when it does not exist). */
  function RetrieveMemories(file: Option<seq<Option<MemoryEntry>>>, filter: Option<string>, limit: int,
                            searchQuery: Option<string>): (r: seq<MemoryEntry>)
    ensures file.None? ==> r == []
    ensures SortedDesc(r)
    ensures file.Some? ==> |r| == SliceLen(|Matching(file.value, filter)|, limit)
    ensures file.Some? ==> multiset(r) <= multiset(Matching(file.value, filter))
    ensures file.Some? ==> IsTop(r, multiset(Matching(file.value, filter)))
  {
    if file.None? then []
    else
      var sorted := SortDesc(Matching(file.value, filter));
      var n := SliceLen(|sorted|, limit);
      PrefixIsTop(sorted, n);
      sorted[..n]
  }

  /** A prefix of a sorted list holds its greatest keys. */
  lemma PrefixIsTop(s: seq<MemoryEntry>, n: nat)
    requires SortedDesc(s) && n <= |s|
    ensures SortedDesc(s[..n])
    ensures multiset(s[..n]) <= multiset(s)
    ensures IsTop(s[..n], multiset(s))
  {
    PrefixLeftOver(s, n);
    PrefixAboveRest(s, n);
    forall x, y | x in s[..n] && y in multiset(s) - multiset(s[..n])
      ensures StrLe(Key(y), Key(x))
    {
      assert y in s[n..];
    }
  }

  lemma PrefixLeftOver(s: seq<MemoryEntry>, n: nat)
    requires n <= |s|
    ensures multiset(s) == multiset(s[..n]) + multiset(s[n..])
    ensures multiset(s) - multiset(s[..n]) == multiset(s[n..])
  {
    assert s == s[..n] + s[n..];
  }

  lemma PrefixAboveRest(s: seq<MemoryEntry>, n: nat)
    requires SortedDesc(s) && n <= |s|
    ensures forall x, y :: x in s[..n] && y in s[n..] ==> StrLe(Key(y), Key(x))
  {
    forall x, y | x in s[..n] && y in s[n..]
      ensures StrLe(Key(y), Key(x))
    {
      var i :| 0 <= i < n && s[..n][i] == x;
      var j :| 0 <= j < |s| - n && s[n..][j] == y;
      assert s[i] == x && s[n + j] == y;
    }
  }

  /** Everything retrieved is a stored line that passes the filter. */
  lemma RetrievedAreStored(file: seq<Option<MemoryEntry>>, filter: Option<string>, limit: int, q: Option<string>)
    ensures forall e :: e in RetrieveMemories(Some(file), filter, limit, q) ==> Some(e) in file && Keeps(filter, e)
  {
    var r := RetrieveMemories(Some(file), filter, limit, q);
    forall e | e in r
      ensures Some(e) in file && Keeps(filter, e)
    {
      assert e in multiset(r);
      assert e in multiset(Matching(file, filter));
    }
  }

  /** The search text is accepted but changes nothing. */
  lemma SearchQueryIgnored(file: Option<seq<Option<MemoryEntry>>>, filter: Option<string>, limit: int,
                           q1: Option<string>, q2: Option<string>)
    ensures RetrieveMemories(file, filter, limit, q1) == RetrieveMemories(file, filter, limit, q2)
  {
  }

  /** With a non-negative limit the result has `min(limit, matches)` entries. */
  lemma RetrieveCount(file: seq<Option<MemoryEntry>>, filter: Option<string>, limit: int, q: Option<string>)
    requires limit >= 0
    ensures var n := |Matching(file, filter)|;
      |RetrieveMemories(Some(file), filter, limit, q)| == if limit < n then limit else n
  {
  }

  /** A memory written with a non-empty type is found again by a retrieval
      filtered on that type. */
  lemma WrittenMemoryMatches(file: seq<Option<MemoryEntry>>, apiKey: string, env: string,
                             data: Object, memoryType: string, metadata: Option<Object>,
                             idClock: DateTime, tsClock: DateTime)
    requires Valid(idClock) && memoryType != ""
    ensures var w := LogToMemory(file, true, apiKey, env, data, memoryType, metadata, idClock, tsClock);
      w.success ==> EntryOf(FormatMemoryEntry(data, memoryType, metadata, idClock, tsClock)) in Matching(w.file, Some(memoryType))
  {
    var w := LogToMemory(file, true, apiKey, env, data, memoryType, metadata, idClock, tsClock);
    var e := EntryOf(FormatMemoryEntry(data, memoryType, metadata, idClock, tsClock));
    if w.success {
      assert w.file[|file|] == Some(e);
    }
  }

  // ---------------------------------------------------------------------
  // Statistics
  // ---------------------------------------------------------------------

  /** The name a parsed line is counted under: its type, or "unknown". */
  function TypeName(e: MemoryEntry): string {
    e.memoryType.GetOr("unknown")
  }

  /** How many parsed lines are counted under `t`. */
  function CountType(lines: seq<Option<MemoryEntry>>, t: string): nat {
    if lines == [] then 0
    else CountType(lines[..|lines| - 1], t)
         + (if lines[|lines| - 1].Some? && TypeName(lines[|lines| - 1].value) == t then 1 else 0)
  }

  /** How many lines parse. */
  function WellFormed(lines: seq<Option<MemoryEntry>>): nat {
    if lines == [] then 0
    else WellFormed(lines[..|lines| - 1]) + (if lines[|lines| - 1].Some? then 1 else 0)
  }

  /** `memory_types[t] = memory_types.get(t, 0) + 1`. */
  function Bump(m: map<string, nat>, t: string): map<string, nat> {
    m[t := (if t in m then m[t] else 0) + 1]
  }

  /** The per-type table built line by line. */
  function TypeCounts(lines: seq<Option<MemoryEntry>>): (m: map<string, nat>)
    ensures forall t :: t in m <==> CountType(lines, t) > 0
    ensures forall t :: t in m ==> m[t] == CountType(lines, t)
  {
    if lines == [] then map[]
    else
      var prev := TypeCounts(lines[..|lines| - 1]);
      var last := lines[|lines| - 1];
      if last.Some? then Bump(prev, TypeName(last.value)) else prev
  }

  /** The sum of a table's counts. */
  ghost function SumValues(m: map<string, nat>): nat
    decreases |m|
  {
    if m == map[] then 0
    else
      var k := PickKey(m);
      m[k] + SumValues(m - {k})
  }

  ghost function PickKey(m: map<string, nat>): (k: string)
    requires m != map[]
    ensures k in m
  {
    var k :| k in m; k
  }

  /** The sum does not depend on which key is taken first. */
  lemma {:induction false} SumRemove(m: map<string, nat>, k: string)
    requires k in m
    ensures SumValues(m) == m[k] + SumValues(m - {k})
    decreases |m|
  {
    var j := PickKey(m);
    if j != k {
      assert |m - {j}| < |m|;
      SumRemove(m - {j}, k);
      SumRemove(m - {k}, j);
      assert m - {j} - {k} == m - {k} - {j};
    }
  }

  lemma SumBump(m: map<string, nat>, t: string)
    ensures SumValues(Bump(m, t)) == SumValues(m) + 1
  {
    var b := Bump(m, t);
    SumRemove(b, t);
    assert b - {t} == m - {t};
    if t in m {
      SumRemove(m, t);
    } else {
      assert m - {t} == m;
    }
  }

  /** Every parsed line is counted exactly once: the counts add up to the
      number of well-formed lines. */
  lemma {:induction false} TypeCountsSum(lines: seq<Option<MemoryEntry>>)
    ensures SumValues(TypeCounts(lines)) == WellFormed(lines)
  {
    if lines != [] {
      TypeCountsSum(lines[..|lines| - 1]);
      var last := lines[|lines| - 1];
      if last.Some? {
        SumBump(TypeCounts(lines[..|lines| - 1]), TypeName(last.value));
      }
    }
  }

  /** What `get_memory_stats` reports. */
  datatype MemoryStats = MemoryStats(total: nat, fileExists: bool, types: Option<map<string, nat>>,
                                     pineconeConfigured: bool)

  /** `get_memory_stats()` over the store (`None` when it does not exist). */
  function GetMemoryStats(file: Option<seq<Option<MemoryEntry>>>, apiKey: string, env: string): (r: MemoryStats)
    ensures r.fileExists <==> file.Some?
    ensures r.total == if file.None? then 0 else |file.value|
    ensures r.types.Some? <==> file.Some?
    ensures r.pineconeConfigured <==> apiKey != "" && env != ""
    ensures file.Some? ==> forall t :: t in r.types.value <==> CountType(file.value, t) > 0
    ensures file.Some? ==> forall t :: t in r.types.value ==> r.types.value[t] == CountType(file.value, t)
  {
    if file.None? then MemoryStats(0, false, None, IsPineconeConfigured(apiKey, env))
    else MemoryStats(|file.value|, true, Some(TypeCounts(file.value)), IsPineconeConfigured(apiKey, env))
  }

  /** The per-type counts add up to the parsed lines, which can be fewer than
      the total when some lines are malformed. */
  lemma StatsCountWellFormed(lines: seq<Option<MemoryEntry>>, apiKey: string, env: string)
    ensures var r := GetMemoryStats(Some(lines), apiKey, env);
      SumValues(r.types.value) == WellFormed(lines) <= r.total
  {
    TypeCountsSum(lines);
    WellFormedBound(lines);
  }

  lemma {:induction false} WellFormedBound(lines: seq<Option<MemoryEntry>>)
    ensures WellFormed(lines) <= |lines|
  {
    if lines != [] {
      WellFormedBound(lines[..|lines| - 1]);
    }
  }

  /** For a named type, the statistics and an unlimited retrieval agree on
      how many entries there are. */
  lemma {:induction false} CountMatchesRetrieval(lines: seq<Option<MemoryEntry>>, t: string)
    requires t != "" && t != "unknown"
    ensures CountType(lines, t) == |Matching(lines, Some(t))|
  {
    if lines != [] {
      var init := lines[..|lines| - 1];
      var last := lines[|lines| - 1];
      CountMatchesRetrieval(init, t);
      MatchingSnoc(init, last, Some(t));
      assert lines == init + [last];
    }
  }

  /** A line appended to the store lands at the end of the retrieval when it
      passes the filter, and nowhere otherwise. */
  lemma {:induction false} MatchingSnoc(lines: seq<Option<MemoryEntry>>, x: Option<MemoryEntry>, filter: Option<string>)
    ensures Matching(lines + [x], filter)
         == Matching(lines, filter) + (if x.Some? && Keeps(filter, x.value) then [x.value] else [])
  {
    if lines == [] {
      assert [x][1..] == [];
    } else {
      assert (lines + [x])[0] == lines[0];
      assert (lines + [x])[1..] == lines[1..] + [x];
      MatchingSnoc(lines[1..], x, filter);
    }
  }

  /** The line numbers of the store whose entry passes the filter, in
      ascending order. */
  function KeptPositions(lines: seq<Option<MemoryEntry>>, filter: Option<string>): seq<nat> {
    if lines == [] then []
    else
      var k := |lines| - 1;
      KeptPositions(lines[..k], filter) + (if lines[k].Some? && Keeps(filter, lines[k].value) then [k] else [])
  }

  /** `pos` lists the line numbers of `r`'s entries, ascending, and misses
      no passing line. */
  predicate KeptAt(lines: seq<Option<MemoryEntry>>, filter: Option<string>, r: seq<MemoryEntry>, pos: seq<nat>) {
    && |pos| == |r|
    && (forall i :: 0 <= i < |pos| ==> pos[i] < |lines| && lines[pos[i]] == Some(r[i]))
    && (forall i, j :: 0 <= i < j < |pos| ==> pos[i] < pos[j])
    && (forall k :: 0 <= k < |lines| && lines[k].Some? && Keeps(filter, lines[k].value) ==> k in pos)
  }

  /** A retrieval before sorting holds exactly the passing lines, each once,
      in the order they appear in the store. */
  lemma {:induction false} MatchingIsKeptSubsequence(lines: seq<Option<MemoryEntry>>, filter: Option<string>)
    ensures KeptAt(lines, filter, Matching(lines, filter), KeptPositions(lines, filter))
  {
    if lines != [] {
      var k := |lines| - 1;
      var init := lines[..k];
      MatchingIsKeptSubsequence(init, filter);
      MatchingSnoc(init, lines[k], filter);
      assert lines == init + [lines[k]];
      KeptAtSnoc(init, lines[k], filter, Matching(init, filter), KeptPositions(init, filter));
    }
  }

  lemma KeptAtSnoc(init: seq<Option<MemoryEntry>>, x: Option<MemoryEntry>, filter: Option<string>,
                   r: seq<MemoryEntry>, pos: seq<nat>)
    requires KeptAt(init, filter, r, pos)
    ensures var kept := x.Some? && Keeps(filter, x.value);
      KeptAt(init + [x], filter, r + (if kept then [x.value] else []), pos + (if kept then [|init|] else []))
  {
    var lines := init + [x];
    assert forall q :: 0 <= q < |init| ==> lines[q] == init[q];
    if x.Some? && Keeps(filter, x.value) {
      var r', pos' := r + [x.value], pos + [|init|];
      assert forall i :: 0 <= i < |pos| ==> pos'[i] == pos[i] && r'[i] == r[i];
    }
  }

  /** Entries without a type are counted under "unknown" but a retrieval
      filtered on "unknown" does not find them. */
  lemma UnknownIsNotAType()
    ensures var lines := [Some(MemoryEntry(None, None, map[]))];
      CountType(lines, "unknown") == 1 && |Matching(lines, Some("unknown"))| == 0
  {
    var lines := [Some(MemoryEntry(None, None, map[]))];
    assert lines[..0] == [];
    assert lines[1..] == [];
  }
}
