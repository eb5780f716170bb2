/** The pure rules inside the HTTP handlers: the uptime text, the parsing of
    uploaded tags and content, the generated playbook id, the response
    bodies, and the aggregation of the integration and self-test results.
    The clock, the random id part and every outcome of I/O are inputs. */
module Handlers {
  import opened Wrappers
  import opened Text
  import opened Clock
  import opened Json
  import opened Http
  import Schemas
  import Slack

  // ---------------------------------------------------------------------
  // Uptime
  // ---------------------------------------------------------------------

  const MicrosPerSecond := 1000000
  const MicrosPerDay := 86400000000

  /** The `timedelta` fields the uptime text is built from, after
      `divmod(seconds, 3600)` and `divmod(remainder, 60)`. */
  datatype Uptime = Uptime(days: int, hours: nat, minutes: nat, seconds: nat)

  /** The whole seconds the parts add up to. */
  function Seconds(u: Uptime): int {
    u.days * 86400 + u.hours * 3600 + u.minutes * 60 + u.seconds
  }

  /** The parts of `now - startup_time`, given in microseconds. A
      `timedelta` keeps `days` as the floor and `seconds` in `[0, 86400)`. */
  function UptimeOf(elapsedMicros: int): (u: Uptime)
    ensures u.hours < 24 && u.minutes < 60 && u.seconds < 60
    ensures Seconds(u) == elapsedMicros / MicrosPerSecond
  {
    var days := elapsedMicros / MicrosPerDay;
    var secs := (elapsedMicros % MicrosPerDay) / MicrosPerSecond;
    DayFloor(elapsedMicros);
    Uptime(days, secs / 3600, (secs % 3600) / 60, (secs % 3600) % 60)
  }

  lemma DayFloor(e: int)
    ensures (e / MicrosPerDay) * 86400 + (e % MicrosPerDay) / MicrosPerSecond == e / MicrosPerSecond
    ensures 0 <= (e % MicrosPerDay) / MicrosPerSecond < 86400
  {
    var d := e / MicrosPerDay;
    var r := e % MicrosPerDay;
    assert e == d * MicrosPerDay + r;
    assert d * MicrosPerDay == (d * 86400) * MicrosPerSecond;
    var q := r / MicrosPerSecond;
    assert r == q * MicrosPerSecond + r % MicrosPerSecond;
    assert e == (d * 86400 + q) * MicrosPerSecond + r % MicrosPerSecond;
    DivUnique(e, d * 86400 + q, r % MicrosPerSecond);
  }

  lemma DivUnique(e: int, q: int, r: int)
    requires 0 <= r < MicrosPerSecond && e == q * MicrosPerSecond + r
    ensures e / MicrosPerSecond == q
  {
  }

  /** The most significant non-zero unit picks how many units are shown. */
  function ShownUnits(u: Uptime): nat {
    if u.days > 0 then 4 else if u.hours > 0 then 3 else if u.minutes > 0 then 2 else 1
  }

  /** The space-separated pieces of the uptime text, largest unit first. */
  function UptimePieces(u: Uptime): (ps: seq<string>)
    ensures |ps| == ShownUnits(u)
  {
    var h := NatToString(u.hours) + "h";
    var m := NatToString(u.minutes) + "m";
    var sec := NatToString(u.seconds) + "s";
    if u.days > 0 then [IntToString(u.days) + "d", h, m, sec]
    else if u.hours > 0 then [h, m, sec]
    else if u.minutes > 0 then [m, sec]
    else [sec]
  }

  /** `calculate_uptime()`. */
  function CalculateUptime(elapsedMicros: int): string {
    Join(UptimePieces(UptimeOf(elapsedMicros)), ' ')
  }

  /** The weight of a unit letter in seconds. */
  function UnitWeight(c: char): Option<nat> {
    if c == 'd' then Some(86400) else if c == 'h' then Some(3600)
    else if c == 'm' then Some(60) else if c == 's' then Some(1) else None
  }

  /** Reads one piece such as "12m" as a number of seconds. */
  function ReadPiece(p: string): Option<nat> {
    if |p| < 2 || !AllDigits(p[..|p| - 1]) || UnitWeight(p[|p| - 1]).None? then None
    else Some(ParseDigits(p[..|p| - 1]) * UnitWeight(p[|p| - 1]).value)
  }

  function ReadPieces(ps: seq<string>): Option<nat> {
    if ps == [] then Some(0)
    else match (ReadPiece(ps[0]), ReadPieces(ps[1..]))
      case (Some(a), Some(b)) => Some(a + b)
      case _ => None
  }

  /** An independent reader for the uptime text: split at spaces and add up
      the units. */
  function ReadUptime(s: string): Option<nat> {
    ReadPieces(Split(s, ' '))
  }

  lemma ReadNumberPiece(n: nat, c: char)
    requires UnitWeight(c).Some?
    ensures ReadPiece(NatToString(n) + [c]) == Some(n * UnitWeight(c).value)
    ensures ' ' !in NatToString(n) + [c]
  {
    var p := NatToString(n) + [c];
    assert p[..|p| - 1] == NatToString(n);
    ParseNatToString(n);
    assert forall i :: 0 <= i < |p| - 1 ==> IsDigit(p[i]);
  }

  /** For a non-negative elapsed time, the uptime text reads back to the
      whole number of elapsed seconds: no unit is lost or double counted,
      and the text has one piece per shown unit. */
  lemma UptimeReadsBack(elapsedMicros: int)
    requires elapsedMicros >= 0
    ensures |Split(CalculateUptime(elapsedMicros), ' ')| == ShownUnits(UptimeOf(elapsedMicros))
    ensures ReadUptime(CalculateUptime(elapsedMicros)) == Some(elapsedMicros / MicrosPerSecond)
  {
    var u := UptimeOf(elapsedMicros);
    UptimePiecesSplit(u);
    UptimePiecesRead(u);
    assert ReadUptime(CalculateUptime(elapsedMicros)) == Some(Seconds(u));
  }

  lemma UptimePiecesSplit(u: Uptime)
    requires u.days >= 0
    ensures Split(Join(UptimePieces(u), ' '), ' ') == UptimePieces(u)
  {
    var days: nat := u.days;
    ReadNumberPiece(days, 'd');
    ReadNumberPiece(u.hours, 'h');
    ReadNumberPiece(u.minutes, 'm');
    ReadNumberPiece(u.seconds, 's');
    assert days > 0 ==> IntToString(u.days) == NatToString(days);
    SplitJoin(UptimePieces(u), ' ');
  }

  lemma UptimePiecesRead(u: Uptime)
    requires u.days >= 0
    ensures Seconds(u) >= 0 && ReadPieces(UptimePieces(u)) == Some(Seconds(u))
  {
    var days: nat := u.days;
    ReadNumberPiece(days, 'd');
    ReadNumberPiece(u.hours, 'h');
    ReadNumberPiece(u.minutes, 'm');
    ReadNumberPiece(u.seconds, 's');
    var d := NatToString(days) + "d";
    var h := NatToString(u.hours) + "h";
    var m := NatToString(u.minutes) + "m";
    var sec := NatToString(u.seconds) + "s";
    PiecesByUnit(u, d, h, m, sec);
    ReadByUnit(u, UptimePieces(u), d, h, m, sec);
  }

  /** Whichever units are shown, their values add up to the whole uptime. */
  lemma ReadByUnit(u: Uptime, ps: seq<string>, d: string, h: string, m: string, sec: string)
    requires u.days >= 0
    requires ReadPiece(d) == Some(u.days * 86400) && ReadPiece(h) == Some(u.hours * 3600)
    requires ReadPiece(m) == Some(u.minutes * 60) && ReadPiece(sec) == Some(u.seconds)
    requires u.days > 0 ==> ps == [d, h, m, sec]
    requires u.days == 0 && u.hours > 0 ==> ps == [h, m, sec]
    requires u.days == 0 && u.hours == 0 && u.minutes > 0 ==> ps == [m, sec]
    requires u.days == 0 && u.hours == 0 && u.minutes == 0 ==> ps == [sec]
    ensures Seconds(u) >= 0 && ReadPieces(ps) == Some(Seconds(u))
  {
    ReadShownPieces(d, h, m, sec, u.days * 86400, u.hours * 3600, u.minutes * 60, u.seconds);
    SecondsByUnit(u);
  }

  /** The shown pieces, named by unit. */
  lemma PiecesByUnit(u: Uptime, d: string, h: string, m: string, sec: string)
    requires u.days >= 0
    requires d == NatToString(u.days) + "d" && h == NatToString(u.hours) + "h"
    requires m == NatToString(u.minutes) + "m" && sec == NatToString(u.seconds) + "s"
    ensures u.days > 0 ==> UptimePieces(u) == [d, h, m, sec]
    ensures u.days == 0 && u.hours > 0 ==> UptimePieces(u) == [h, m, sec]
    ensures u.days == 0 && u.hours == 0 && u.minutes > 0 ==> UptimePieces(u) == [m, sec]
    ensures u.days == 0 && u.hours == 0 && u.minutes == 0 ==> UptimePieces(u) == [sec]
  {
    if u.days > 0 {
      assert IntToString(u.days) == NatToString(u.days);
    }
  }

  /** The units that are not shown are zero. */
  lemma SecondsByUnit(u: Uptime)
    requires u.days >= 0
    ensures u.days == 0 ==> Seconds(u) == u.hours * 3600 + u.minutes * 60 + u.seconds
    ensures u.days == 0 && u.hours == 0 ==> Seconds(u) == u.minutes * 60 + u.seconds
    ensures u.days == 0 && u.hours == 0 && u.minutes == 0 ==> Seconds(u) == u.seconds
  {
  }

  /** Reading the pieces of an uptime text adds up their values. */
  lemma ReadShownPieces(d: string, h: string, m: string, sec: string, vd: nat, vh: nat, vm: nat, vs: nat)
    requires ReadPiece(d) == Some(vd) && ReadPiece(h) == Some(vh)
    requires ReadPiece(m) == Some(vm) && ReadPiece(sec) == Some(vs)
    ensures ReadPieces([sec]) == Some(vs)
    ensures ReadPieces([m, sec]) == Some(vm + vs)
    ensures ReadPieces([h, m, sec]) == Some(vh + vm + vs)
    ensures ReadPieces([d, h, m, sec]) == Some(vd + vh + vm + vs)
  {
    ReadCons(sec, [], vs, 0);
    ReadCons(m, [sec], vm, vs);
    ReadCons(h, [m, sec], vh, vm + vs);
    ReadCons(d, [h, m, sec], vd, vh + vm + vs);
  }

  lemma ReadCons(p: string, ps: seq<string>, a: nat, b: nat)
    requires ReadPiece(p) == Some(a) && ReadPieces(ps) == Some(b)
    ensures ReadPieces([p] + ps) == Some(a + b)
  {
    assert ([p] + ps)[1..] == ps;
  }

  /** A clock set back less than a day before start-up gives `days == -1`,
      which the text does not show: it reads as the time left until a full
      day has passed (one second before start-up reads "23h 59m 59s"). */
  lemma NegativeElapsedHidesDays(elapsedMicros: int)
    requires -MicrosPerDay <= elapsedMicros < 0
    ensures UptimeOf(elapsedMicros).days == -1
    ensures CalculateUptime(elapsedMicros) == CalculateUptime(elapsedMicros + MicrosPerDay)
  {
    var later := elapsedMicros + MicrosPerDay;
    assert elapsedMicros == -1 * MicrosPerDay + later;
    assert elapsedMicros / MicrosPerDay == -1 && elapsedMicros % MicrosPerDay == later;
    assert later / MicrosPerDay == 0 && later % MicrosPerDay == later;
    assert UptimePieces(UptimeOf(elapsedMicros)) == UptimePieces(UptimeOf(later));
  }

  /** The body of `root` and `get_status`: status "ok", the uptime text and
      the configured application version; the model always validates. */
  function StatusBody(elapsedMicros: int, appVersion: string, now: DateTime): (r: Schemas.StatusResponse)
    ensures r.status == "ok" && r.version == appVersion && r.timestamp == now
    ensures Schemas.ValidateStatus(Schemas.RawStatus(Schemas.Given("ok"), Schemas.Given(CalculateUptime(elapsedMicros)),
                                                     Schemas.Absent, Schemas.Given(appVersion)), now) == Success(r)
  {
    Schemas.StatusResponse("ok", CalculateUptime(elapsedMicros), now, appVersion)
  }

  /** For a non-negative elapsed time the reported uptime reads back to the
      whole elapsed seconds. */
  lemma StatusUptimeReadsBack(elapsedMicros: int, appVersion: string, now: DateTime)
    requires elapsedMicros >= 0
    ensures ReadUptime(StatusBody(elapsedMicros, appVersion, now).uptime) == Some(elapsedMicros / MicrosPerSecond)
  {
    UptimeReadsBack(elapsedMicros);
  }

  // ---------------------------------------------------------------------
  // Playbook upload
  // ---------------------------------------------------------------------

  /** `[tag.strip() for tag in tags.split(",")]` when `tags` is truthy,
      else `[]`. */
  function ParseTags(tags: Option<string>): (r: seq<string>)
    ensures tags.None? || tags.value == "" ==> r == []
    ensures tags.Some? && tags.value != "" ==> |r| == CountChar(tags.value, ',') + 1
  {
    if tags.None? || tags.value == "" then []
    else
      var pieces := Split(tags.value, ',');
      seq(|pieces|, i requires 0 <= i < |pieces| => Strip(pieces[i]))
  }

  /** Each tag is the comma-separated piece at its position with the
      surrounding whitespace removed. */
  lemma TagsAreTrimmedPieces(tags: string)
    requires tags != ""
    ensures var r := ParseTags(Some(tags));
      forall i :: 0 <= i < |r| ==> TrimmedOf(r[i], Split(tags, ',')[i]) && (r[i] == [] || !IsSpace(r[i][0]))
  {
  }

  /** A stripped piece of a comma-free text is comma-free. */
  lemma TrimmedKeepsOut(r: string, s: string, c: char)
    requires TrimmedOf(r, s) && c !in s
    ensures c !in r
  {
    var k :| TrimmedAt(r, s, k);
  }

  /** Joining the parsed tags with commas and parsing again gives the same
      tags, unless the join is empty (a single blank tag). */
  lemma TagsReparse(tags: string)
    requires tags != ""
    requires Join(ParseTags(Some(tags)), ',') != ""
    ensures ParseTags(Some(Join(ParseTags(Some(tags)), ','))) == ParseTags(Some(tags))
  {
    var ts := ParseTags(Some(tags));
    TagsCommaFree(tags);
    SplitJoin(ts, ',');
    TagsStripped(tags);
    ReparseStripped(Join(ts, ','), ts);
  }

  /** Text whose comma pieces are already stripped parses to those pieces. */
  lemma ReparseStripped(t: string, ts: seq<string>)
    requires t != "" && Split(t, ',') == ts
    requires forall i :: 0 <= i < |ts| ==> Strip(ts[i]) == ts[i]
    ensures ParseTags(Some(t)) == ts
  {
  }

  lemma TagsCommaFree(tags: string)
    requires tags != ""
    ensures forall i :: 0 <= i < |ParseTags(Some(tags))| ==> ',' !in ParseTags(Some(tags))[i]
  {
    var ts := ParseTags(Some(tags));
    var pieces := Split(tags, ',');
    TagsAreTrimmedPieces(tags);
    forall i | 0 <= i < |ts|
      ensures ',' !in ts[i]
    {
      TrimmedKeepsOut(ts[i], pieces[i], ',');
    }
  }

  lemma TagsStripped(tags: string)
    requires tags != ""
    ensures forall i :: 0 <= i < |ParseTags(Some(tags))| ==> Strip(ParseTags(Some(tags))[i]) == ParseTags(Some(tags))[i]
  {
    var pieces := Split(tags, ',');
    forall i | 0 <= i < |pieces|
      ensures Strip(Strip(pieces[i])) == Strip(pieces[i])
    {
      StripIdempotent(pieces[i]);
    }
  }

  /** How the uploaded file reached the handler: its declared content type
      and name, its bytes decoded as UTF-8 with invalid bytes replaced, and
      what `json.loads` made of them (`None` when decoding or parsing
      failed). */
  datatype UploadedFile = UploadedFile(contentType: Option<string>, filename: Option<string>, text: string,
                                       parsed: Option<JValue>)

  /** The wrapper used for anything that is not a parsed JSON upload. */
  function Wrapped(f: UploadedFile): Object {
    map["content" := JStr(f.text), "content_type" := OptionalText(f.contentType),
        "filename" := OptionalText(f.filename)]
  }

  /** The playbook content built from an upload. A JSON upload that parses
      to something other than an object is rejected by the request model
      (`None`). */
  function UploadContent(f: UploadedFile): (r: Option<Object>)
    ensures f.contentType == Some("application/json") && f.parsed.Some? && f.parsed.value.JObject? ==>
      r == Some(f.parsed.value.fields)
    ensures f.contentType == Some("application/json") && f.parsed.Some? && !f.parsed.value.JObject? ==> r.None?
    ensures f.contentType != Some("application/json") || f.parsed.None? ==> r == Some(Wrapped(f))
  {
    if f.contentType == Some("application/json") && f.parsed.Some? then
      (if f.parsed.value.JObject? then Some(f.parsed.value.fields) else None)
    else Some(Wrapped(f))
  }

  /** The wrapper keeps the text and names where it came from. */
  lemma WrappedKeepsText(f: UploadedFile)
    ensures var w := Wrapped(f);
      && w.Keys == {"content", "content_type", "filename"}
      && w["content"] == JStr(f.text)
      && (w["content_type"] == JNull <==> f.contentType.None?)
      && (w["filename"] == JNull <==> f.filename.None?)
  {
  }

  /** `pb_{%Y%m%d_%H%M%S}_{uuid4().hex[:8]}`; `rand` is the value of the
      eight hexadecimal digits. */
  function PlaybookId(now: DateTime, rand: nat): (id: string)
    requires Valid(now) && rand < Pow16(8)
    ensures |id| == 27
    ensures id[..3] == "pb_" && id[18] == '_'
  {
    "pb_" + Stamp(now) + "_" + FixedHex(rand, 8)
  }

  /** Reads a playbook id back into its stamp and its random part. */
  function ParsePlaybookId(id: string): Option<(string, nat)> {
    if |id| == 27 && id[..3] == "pb_" && id[18] == '_' && forall i :: 19 <= i < 27 ==> IsLowerHex(id[i]) then
      Some((id[3..18], ParseHex(id[19..])))
    else None
  }

  /** The id keeps both of its sources: it reads back to the stamp of the
      clock reading and the random value. */
  lemma PlaybookIdRoundTrip(now: DateTime, rand: nat)
    requires Valid(now) && rand < Pow16(8)
    ensures ParsePlaybookId(PlaybookId(now, rand)) == Some((Stamp(now), rand))
  {
    var id := PlaybookId(now, rand);
    var h := FixedHex(rand, 8);
    assert id[3..18] == Stamp(now);
    assert id[19..] == h;
    assert forall i :: 19 <= i < 27 ==> id[i] == h[i - 19];
    FixedHexRoundTrip(rand, 8);
  }

  datatype UploadOutcome = Uploaded(request: Schemas.PlaybookUploadRequest, playbookId: string) | Rejected

  /** `upload_playbook_file(file, playbook_name, version, tags)`: builds
      the request from the form fields and the file, and the response id. */
  function UploadPlaybookFile(f: UploadedFile, playbookName: string, version: string, tags: Option<string>,
                              now: DateTime, rand: nat): (r: UploadOutcome)
    requires Valid(now) && rand < Pow16(8)
    ensures r.Uploaded? <==> UploadContent(f).Some?
    ensures r.Uploaded? ==>
      && r.request.playbookName == playbookName
      && r.request.content == UploadContent(f).value
      && r.request.version == Some(version)
      && r.request.tags == Some(ParseTags(tags))
      && ParsePlaybookId(r.playbookId) == Some((Stamp(now), rand))
  {
    match UploadContent(f)
    case None => Rejected
    case Some(content) =>
      var raw := Schemas.RawPlaybook(Schemas.Given(playbookName), Schemas.Given(content),
                                     Schemas.Given(version), Schemas.Given(ParseTags(tags)));
      var request := Schemas.ValidatePlaybook(raw);
      assert request.Success?;
      PlaybookIdRoundTrip(now, rand);
      Uploaded(request.value, PlaybookId(now, rand))
  }

  // ---------------------------------------------------------------------
  // Responses
  // ---------------------------------------------------------------------

  /** `CampaignLaunchResponse`, `PlaybookUploadResponse` and
      `GenericRouteResponse`: a status, the echoed identifier, the time and
      a message. */
  datatype Response = Response(status: string, id: string, timestamp: DateTime, message: string)

  /** The response of `launch_campaign`. */
  function LaunchResponse(request: Schemas.CampaignLaunchRequest, now: DateTime): (r: Response)
    ensures r.status == "launched" && r.id == request.campaignId
    ensures r.message == "Campaign launched successfully"
  {
    Response("launched", request.campaignId, now, "Campaign launched successfully")
  }

  const RoutedPrefix := "Request routed to "

  /** The response of `generic_route(module_name, request)`. */
  function RouteResponse(moduleName: string, now: DateTime): (r: Response)
    ensures r.status == "routed" && r.id == moduleName
    ensures r.message == RoutedPrefix + moduleName
  {
    Response("routed", moduleName, now, RoutedPrefix + moduleName)
  }

  /** The route message names the module unambiguously: the module can be
      read back from the message alone. */
  lemma RouteMessageNamesModule(a: string, b: string, now: DateTime, later: DateTime)
    ensures RouteResponse(a, now).message == RouteResponse(b, later).message <==> a == b
    ensures RouteResponse(a, now).message[|RoutedPrefix|..] == a
  {
    var ma := RouteResponse(a, now).message;
    var mb := RouteResponse(b, later).message;
    assert ma[|RoutedPrefix|..] == a;
    assert mb[|RoutedPrefix|..] == b;
  }

  /** Launching echoes the id of the validated request. */
  lemma LaunchEchoesRequest(raw: Schemas.RawCampaign, now: DateTime)
    requires Schemas.CampaignFieldsValid(raw)
    ensures LaunchResponse(Schemas.ValidateCampaign(raw).value, now).id == raw.campaignId.value
  {
  }

  // ---------------------------------------------------------------------
  // Integration tests
  // ---------------------------------------------------------------------

  datatype IntegrationTest = IntegrationTest(configured: bool, passed: bool)

  /** `all(t.passed for t in tests if t.configured)`. */
  function AllConfiguredPassed(tests: seq<IntegrationTest>): (b: bool)
    ensures b <==> forall i :: 0 <= i < |tests| && tests[i].configured ==> tests[i].passed
  {
    if tests == [] then true
    else (!tests[0].configured || tests[0].passed) && AllConfiguredPassed(tests[1..])
  }

  /** `any(t.configured for t in tests)`. */
  function AnyConfigured(tests: seq<IntegrationTest>): (b: bool)
    ensures b <==> exists i :: 0 <= i < |tests| && tests[i].configured
  {
    if tests == [] then false
    else tests[0].configured || AnyConfigured(tests[1..])
  }

  /** The overall status of `test_all_integrations`: "success" unless a
      configured test failed, and "no_integrations_configured" above all. */
  function OverallStatus(tests: seq<IntegrationTest>): (s: string)
    ensures s in {"success", "partial_failure", "no_integrations_configured"}
  {
    var afterPassed := if AllConfiguredPassed(tests) then "success" else "partial_failure";
    if !AnyConfigured(tests) then "no_integrations_configured" else afterPassed
  }

  /** Each status means exactly one situation. */
  lemma OverallStatusMeaning(tests: seq<IntegrationTest>)
    ensures OverallStatus(tests) == "no_integrations_configured"
        <==> forall i :: 0 <= i < |tests| ==> !tests[i].configured
    ensures OverallStatus(tests) == "partial_failure"
        <==> exists i :: 0 <= i < |tests| && tests[i].configured && !tests[i].passed
    ensures OverallStatus(tests) == "success"
        <==> (exists i :: 0 <= i < |tests| && tests[i].configured)
             && forall i :: 0 <= i < |tests| && tests[i].configured ==> tests[i].passed
  {
    assert "success"[0] != "partial_failure"[0] && "success"[0] != "no_integrations_configured"[0];
    assert "partial_failure"[0] != "no_integrations_configured"[0];
  }

  /** `test_all_integrations()`: Slack counts as configured by the webhook
      check and passes when the test message is delivered; ClickHouse counts
      as configured when a URL is set and passes when its connection test
      does. */
  function TestAllIntegrations(slackUrl: string, testMessage: Object, slackOutcome: Transport,
                               clickhouseUrl: string, clickhouseConnects: bool): (s: string)
    ensures s == "no_integrations_configured" <==> !Slack.IsSlackConfigured(slackUrl) && clickhouseUrl == ""
    ensures s == "partial_failure" <==>
      || (Slack.IsSlackConfigured(slackUrl) && !Slack.SendSlackMessage(slackUrl, testMessage, slackOutcome).ok)
      || (clickhouseUrl != "" && !clickhouseConnects)
    ensures s == "success" <==>
      && (Slack.IsSlackConfigured(slackUrl) || clickhouseUrl != "")
      && (Slack.IsSlackConfigured(slackUrl) ==> Slack.SendSlackMessage(slackUrl, testMessage, slackOutcome).ok)
      && (clickhouseUrl != "" ==> clickhouseConnects)
  {
    var slack := if Slack.IsSlackConfigured(slackUrl)
                 then IntegrationTest(true, Slack.SendSlackMessage(slackUrl, testMessage, slackOutcome).ok)
                 else IntegrationTest(false, false);
    var clickhouse := if clickhouseUrl != "" then IntegrationTest(true, clickhouseConnects)
                      else IntegrationTest(false, false);
    var tests := [slack, clickhouse];
    assert tests[0] == slack && tests[1] == clickhouse;
    OverallStatusMeaning(tests);
    OverallStatus(tests)
  }

  // ---------------------------------------------------------------------
  // Self-test tally
  // ---------------------------------------------------------------------

  /** The status column of a self-test row: an HTTP status code, or "ERROR"
      when the request raised. */
  datatype TestStatus = Code(code: int) | ErrorStatus

  datatype SelfTest = SelfTest(status: TestStatus, success: bool)

  /** The row recorded for one self-test request (`None` when it raised). */
  function RunResult(response: Option<int>): (t: SelfTest)
    ensures t.success <==> response.Some? && 200 <= response.value < 300
    ensures t.status.ErrorStatus? <==> response.None?
  {
    match response
    case None => SelfTest(ErrorStatus, false)
    case Some(code) => SelfTest(Code(code), 200 <= code < 300)
  }

  function CountPassed(results: seq<SelfTest>): (n: nat)
    ensures n <= |results|
  {
    if results == [] then 0 else (if results[0].success then 1 else 0) + CountPassed(results[1..])
  }

  function CountFailed(results: seq<SelfTest>): nat {
    if results == [] then 0 else (if results[0].success then 0 else 1) + CountFailed(results[1..])
  }

  datatype Tally = Tally(total: nat, passed: nat, failed: nat)

  /** The totals of `test_all_routes`: `failed = total - passed`, which
      counts exactly the unsuccessful rows. */
  function TallyOf(results: seq<SelfTest>): (t: Tally)
    ensures t.total == |results| && t.passed == CountPassed(results)
    ensures t.failed == CountFailed(results)
  {
    PassedAndFailedPartition(results);
    Tally(|results|, CountPassed(results), |results| - CountPassed(results))
  }

  /** Every row is either successful or unsuccessful, never both. */
  lemma {:induction false} PassedAndFailedPartition(results: seq<SelfTest>)
    ensures CountPassed(results) + CountFailed(results) == |results|
  {
    if results != [] {
      PassedAndFailedPartition(results[1..]);
    }
  }

  /** The CSS class of a row: the class first chosen from the success
      flag is always overridden by the status column, so only the status
      matters. */
  function StatusClass(r: SelfTest): (c: string)
    ensures c == "status-success" <==> r.status.Code? && 200 <= r.status.code < 300
    ensures c == "status-warning" <==> r.status.Code? && 400 <= r.status.code < 500
    ensures c != "status-success" && c != "status-warning" ==> c == "status-error"
  {
    assert "status-success"[7] != "status-warning"[7] && "status-success"[7] != "status-error"[7];
    assert "status-warning"[7] != "status-error"[7];
    match r.status
    case ErrorStatus => "status-error"
    case Code(code) =>
      if 200 <= code < 300 then "status-success"
      else if 400 <= code < 500 then "status-warning"
      else "status-error"
  }

  /** Rows with the same status column get the same class, whatever their
      success flag. */
  lemma StatusClassIgnoresSuccess(r: SelfTest, success: bool)
    ensures StatusClass(SelfTest(r.status, success)) == StatusClass(r)
  {
  }

  /** For recorded rows the class agrees with the success flag: "success"
      exactly for successful rows, "warning" only for client errors. */
  lemma StatusClassAgreesWithSuccess(response: Option<int>)
    ensures StatusClass(RunResult(response)) == "status-success" <==> RunResult(response).success
    ensures StatusClass(RunResult(response)) == "status-warning" <==>
      response.Some? && 400 <= response.value < 500
  {
  }
}
