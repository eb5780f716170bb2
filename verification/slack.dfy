/** The Slack notifier: when the webhook counts as configured, how a message
    becomes a webhook payload, when a delivery counts as successful, and the
    error and health-check notifications. The webhook URL (read from the
    environment at each call), the clock and the HTTP outcome are inputs. */
module Slack {
  import opened Wrappers
  import opened Text
  import opened Clock
  import opened Json
  import opened Http

  const HookPrefix := "https://hooks.slack.com/services/"
  const DefaultUsername := "AmplifAI Bot"
  const DefaultEmoji := ":robot_face:"

  predicate StartsWith(s: string, prefix: string) {
    |prefix| <= |s| && s[..|prefix|] == prefix
  }

  /** Python truthiness of an optional text: present and non-empty. */
  predicate Truthy(o: Option<string>) {
    o.Some? && o.value != ""
  }

  /** `o or default`. */
  function Or(o: Option<string>, default: string): (r: string)
    ensures Truthy(o) ==> r == o.value
    ensures !Truthy(o) ==> r == default
  {
    if Truthy(o) then o.value else default
  }

  /** `is_slack_configured()`: a non-empty URL under the incoming-webhook
      prefix. */
  predicate IsSlackConfigured(url: string) {
    url != "" && StartsWith(url, HookPrefix)
  }

  /** The configured URLs are exactly the prefix followed by anything. */
  lemma ConfiguredIffUnderPrefix(url: string)
    ensures IsSlackConfigured(url) <==> exists rest :: url == HookPrefix + rest
  {
    if IsSlackConfigured(url) {
      assert url == HookPrefix + url[|HookPrefix|..];
    }
    if exists rest :: url == HookPrefix + rest {
      var rest :| url == HookPrefix + rest;
      assert url[..|HookPrefix|] == HookPrefix;
    }
  }

  // ---------------------------------------------------------------------
  // Payloads
  // ---------------------------------------------------------------------

  /** The single attachment of a rich message. */
  datatype Attachment = Attachment(color: string, text: string, ts: int, fields: Option<seq<Object>>)

  /** A webhook payload; an absent key is `None`. */
  datatype Payload = Payload(text: Option<string>, username: string, iconEmoji: string,
                             channel: Option<string>, attachments: Option<seq<Attachment>>)

  function AttachmentObject(a: Attachment): (o: Object) {
    var base := map["color" := JStr(a.color), "text" := JStr(a.text), "ts" := JNum(a.ts as real)];
    if a.fields.Some? then base["fields" := JArray(seq(|a.fields.value|, i requires 0 <= i < |a.fields.value| =>
                                                          JObject(a.fields.value[i])))]
    else base
  }

  /** The dict sent as the JSON body. */
  function PayloadObject(p: Payload): (o: Object) {
    var base := map["username" := JStr(p.username), "icon_emoji" := JStr(p.iconEmoji)];
    var withText := if p.text.Some? then base["text" := JStr(p.text.value)] else base;
    var withChannel := if p.channel.Some? then withText["channel" := JStr(p.channel.value)] else withText;
    if p.attachments.Some? then
      withChannel["attachments" := JArray(seq(|p.attachments.value|, i requires 0 <= i < |p.attachments.value| =>
                                                JObject(AttachmentObject(p.attachments.value[i]))))]
    else withChannel
  }

  /** Each optional part of a payload is a key of the JSON body exactly
      when it is present. */
  lemma PayloadObjectKeys(p: Payload)
    ensures var o := PayloadObject(p);
      && ("text" in o <==> p.text.Some?)
      && ("channel" in o <==> p.channel.Some?)
      && ("attachments" in o <==> p.attachments.Some?)
      && "username" in o && "icon_emoji" in o
  {
    assert "text"[0] != "channel"[0] && "text"[0] != "attachments"[0] && "channel"[0] != "attachments"[0];
    assert "text"[0] != "username"[0] && "channel"[0] != "username"[0] && "attachments"[0] != "username"[0];
    assert "text"[0] != "icon_emoji"[0] && "channel"[0] != "icon_emoji"[0] && "attachments"[0] != "icon_emoji"[0];
  }

  /** The rich form is used when a colour or a non-empty field list is given. */
  predicate Rich(color: Option<string>, fields: Option<seq<Object>>) {
    Truthy(color) || (fields.Some? && fields.value != [])
  }

  /** `format_slack_message(message, channel, username, emoji, color,
      fields)`; `ts` is the clock reading in whole seconds. */
  function FormatSlackMessage(message: string, channel: Option<string>, username: Option<string>,
                              emoji: Option<string>, color: Option<string>, fields: Option<seq<Object>>,
                              ts: int): (p: Payload)
    ensures p.username == Or(username, DefaultUsername)
    ensures p.iconEmoji == Or(emoji, DefaultEmoji)
    ensures p.channel.Some? <==> Truthy(channel)
    ensures p.channel.Some? ==> p.channel.value == channel.value
    ensures p.text.Some? <==> !Rich(color, fields)
    ensures p.text.Some? ==> p.text.value == message
    ensures p.attachments.Some? <==> Rich(color, fields)
    ensures p.attachments.Some? ==>
      && |p.attachments.value| == 1
      && p.attachments.value[0].text == message
      && p.attachments.value[0].color == Or(color, "good")
      && p.attachments.value[0].ts == ts
      && (p.attachments.value[0].fields.Some? <==> fields.Some? && fields.value != [])
      && (p.attachments.value[0].fields.Some? ==> p.attachments.value[0].fields == fields)
  {
    var ch := if Truthy(channel) then Some(channel.value) else None;
    if Rich(color, fields) then
      var fs := if fields.Some? && fields.value != [] then fields else None;
      Payload(None, Or(username, DefaultUsername), Or(emoji, DefaultEmoji), ch,
              Some([Attachment(Or(color, "good"), message, ts, fs)]))
    else
      Payload(Some(message), Or(username, DefaultUsername), Or(emoji, DefaultEmoji), ch, None)
  }

  /** The message is carried exactly once, either at the top or in the
      attachment, whatever options are given. */
  lemma MessageCarriedOnce(message: string, channel: Option<string>, username: Option<string>,
                           emoji: Option<string>, color: Option<string>, fields: Option<seq<Object>>, ts: int)
    ensures var p := FormatSlackMessage(message, channel, username, emoji, color, fields, ts);
      (p.text == Some(message)) != (p.attachments.Some? && p.attachments.value[0].text == message)
  {
  }

  // ---------------------------------------------------------------------
  // Delivery
  // ---------------------------------------------------------------------

  /** What a send did: the URL and body it posted, if it posted, and what it
      returned. */
  datatype Delivery = Delivery(posted: Option<(string, Object)>, ok: bool)

  /** The rule shared by `send_slack_webhook`, `send_slack_notification` and
      `send_slack_message`: nothing is posted to an empty URL; a body holding
      a `datetime` makes `requests`' JSON encoding raise before any request,
      which is caught; otherwise the body is posted, and success needs a
      response whose status does not raise and whose body is exactly "ok". */
  function Deliver(url: string, body: Object, t: Transport): (d: Delivery)
    ensures url == "" ==> d.posted.None? && !d.ok
    ensures d.posted.Some? <==> url != "" && NoDateTime(JObject(body))
    ensures d.posted.Some? ==> d.posted.value == (url, body)
    ensures d.ok ==> t.Responded? && t.response.body == "ok"
  {
    if url == "" then Delivery(None, false)
    else if !NoDateTime(JObject(body)) then Delivery(None, false)
    else
      var ok := match t
        case TransportError => false
        case Responded(resp) => !RaisesForStatus(resp.status) && resp.body == "ok";
      Delivery(Some((url, body)), ok)
  }

  /** A delivery succeeds exactly when something was posted, the transport
      answered, the status was not a client or server error and the body was
      "ok": a redirect or an informational status with body "ok" counts. */
  lemma DeliverOkIff(url: string, body: Object, t: Transport)
    ensures Deliver(url, body, t).ok <==>
      Deliver(url, body, t).posted.Some? && t.Responded? && !(400 <= t.response.status < 600) && t.response.body == "ok"
  {
  }

  /** The webhook took the message: it answered with a status that does not
      raise and the body "ok". */
  predicate Accepted(t: Transport) {
    t.Responded? && !(400 <= t.response.status < 600) && t.response.body == "ok"
  }

  /** `send_slack_webhook(payload)`. */
  function SendSlackWebhook(url: string, payload: Object, t: Transport): Delivery
  {
    Deliver(url, payload, t)
  }

  /** `send_slack_message(payload)`. */
  function SendSlackMessage(url: string, payload: Object, t: Transport): Delivery
  {
    Deliver(url, payload, t)
  }

  /** Every send function returns false without posting when no URL is
      set. */
  lemma EmptyUrlSendsNothing(payload: Object, message: string, channel: Option<string>, username: Option<string>,
                             emoji: Option<string>, t: Transport)
    ensures SendSlackWebhook("", payload, t) == Delivery(None, false)
    ensures SendSlackMessage("", payload, t) == Delivery(None, false)
    ensures SendSlackNotification("", message, channel, username, emoji, t) == Delivery(None, false)
  {
  }

  /** The body `send_slack_notification` builds inline. */
  function NotificationBody(message: string, channel: Option<string>, username: Option<string>,
                            emoji: Option<string>): Object {
    var base := map["text" := JStr(message), "username" := JStr(Or(username, DefaultUsername)),
                    "icon_emoji" := JStr(Or(emoji, DefaultEmoji))];
    if Truthy(channel) then base["channel" := JStr(channel.value)] else base
  }

  /** `send_slack_notification(message, channel, username, emoji)`. Its
      body holds only texts, so it is always posted to a set URL. */
  function SendSlackNotification(url: string, message: string, channel: Option<string>, username: Option<string>,
                                 emoji: Option<string>, t: Transport): (d: Delivery)
    ensures url != "" ==> d.posted == Some((url, NotificationBody(message, channel, username, emoji)))
    ensures url == "" ==> d == Delivery(None, false)
    ensures d.ok <==> url != "" && Accepted(t)
  {
    NotificationBodySerialisable(message, channel, username, emoji);
    Deliver(url, NotificationBody(message, channel, username, emoji), t)
  }

  lemma NotificationBodySerialisable(message: string, channel: Option<string>, username: Option<string>,
                                     emoji: Option<string>)
    ensures NoDateTime(JObject(NotificationBody(message, channel, username, emoji)))
  {
    var b := NotificationBody(message, channel, username, emoji);
    assert forall k :: k in b ==> b[k].JStr?;
  }

  /** The body built inline by `send_slack_notification` is the plain form
      of `format_slack_message`. */
  lemma NotificationBodyIsPlainFormat(message: string, channel: Option<string>, username: Option<string>,
                                      emoji: Option<string>, ts: int)
    ensures NotificationBody(message, channel, username, emoji)
         == PayloadObject(FormatSlackMessage(message, channel, username, emoji, None, None, ts))
  {
  }

  /** The send functions check only that a URL is set: a URL that
      `is_slack_configured` rejects is still posted to. */
  lemma SendDoesNotCheckPrefix(message: string, t: Transport)
    ensures !IsSlackConfigured("https://example.com/hook")
    ensures SendSlackNotification("https://example.com/hook", message, None, None, None, t).posted.Some?
  {
    assert |"https://example.com/hook"| < |HookPrefix|;
  }

  // ---------------------------------------------------------------------
  // Error and health-check notifications
  // ---------------------------------------------------------------------

  /** The first two lines of an error notification. */
  function ErrorHeader(errorMessage: string, endpoint: string, now: DateTime): string
    requires Valid(now)
  {
    "\U{1F6A8} Error in " + endpoint + ": " + errorMessage + "\n" + "\U{1F4C5} Time: " + HumanTime(now)
  }

  const DetailsMarker := "\n\U{1F4C4} Details: "

  /** The text of `send_error_notification`; `renderedDetails` is what
      `json.dumps(details, indent=2)` produces. */
  function ErrorText(errorMessage: string, endpoint: string, details: Option<Object>, renderedDetails: string,
                     now: DateTime): (s: string)
    requires Valid(now)
    ensures StartsWith(s, ErrorHeader(errorMessage, endpoint, now))
    ensures details.Some? && details.value != map[] ==>
      s == ErrorHeader(errorMessage, endpoint, now) + DetailsMarker + renderedDetails
    ensures !(details.Some? && details.value != map[]) ==> s == ErrorHeader(errorMessage, endpoint, now)
  {
    var header := ErrorHeader(errorMessage, endpoint, now);
    if details.Some? && details.value != map[] then
      assert (header + DetailsMarker + renderedDetails)[..|header|] == header;
      header + DetailsMarker + renderedDetails
    else header
  }

  /** `send_error_notification(error_message, endpoint, details)`. A details
      map holding a `datetime` cannot be serialised: the exception is caught
      and nothing is sent. */
  function SendErrorNotification(url: string, errorMessage: string, endpoint: string, details: Option<Object>,
                                 renderedDetails: string, now: DateTime, t: Transport): (d: Delivery)
    requires Valid(now)
    ensures details.Some? && details.value != map[] && !NoDateTime(JObject(details.value)) ==> d == Delivery(None, false)
    ensures url == "" ==> d == Delivery(None, false)
    ensures d.posted.Some? <==> url != "" && (details.Some? && details.value != map[] ==> NoDateTime(JObject(details.value)))
    ensures d.posted.Some? ==>
      d.posted.value == (url, NotificationBody(ErrorText(errorMessage, endpoint, details, renderedDetails, now),
                                               None, None, Some(":warning:")))
    ensures d.ok <==> d.posted.Some? && Accepted(t)
  {
    if details.Some? && details.value != map[] && !NoDateTime(JObject(details.value)) then Delivery(None, false)
    else
      SendSlackNotification(url, ErrorText(errorMessage, endpoint, details, renderedDetails, now),
                            None, None, Some(":warning:"), t)
  }

  /** The details section is appended exactly when details is a non-empty
      map; an empty or missing map gives the same text. */
  lemma DetailsOnlyWhenNonEmpty(errorMessage: string, endpoint: string, details: Object, rendered: string, now: DateTime)
    requires Valid(now)
    requires details != map[]
    ensures ErrorText(errorMessage, endpoint, None, rendered, now) == ErrorText(errorMessage, endpoint, Some(map[]), rendered, now)
    ensures ErrorText(errorMessage, endpoint, Some(details), rendered, now)
         == ErrorText(errorMessage, endpoint, None, rendered, now) + DetailsMarker + rendered
    ensures |ErrorText(errorMessage, endpoint, Some(details), rendered, now)|
         > |ErrorText(errorMessage, endpoint, None, rendered, now)|
  {
    assert |DetailsMarker| > 0;
  }

  /** One attachment field. */
  function FieldObject(title: string, value: string, short: bool): Object {
    map["title" := JStr(title), "value" := JStr(value), "short" := JBool(short)]
  }

  /** The fields of a health check: status, uptime and time, then one per
      additional item with its key title-cased. */
  function HealthFields(status: string, uptime: string, now: DateTime, info: seq<(string, string)>): (fs: seq<Object>)
    requires Valid(now)
    ensures |fs| == 3 + |info|
    ensures fs[0] == FieldObject("Status", Upper(status), true)
    ensures fs[1] == FieldObject("Uptime", uptime, true)
    ensures fs[2] == FieldObject("Timestamp", HumanTime(now), false)
    ensures forall i :: 0 <= i < |info| ==> fs[3 + i] == FieldObject(Title(info[i].0), info[i].1, true)
  {
    [FieldObject("Status", Upper(status), true), FieldObject("Uptime", uptime, true),
     FieldObject("Timestamp", HumanTime(now), false)]
    + seq(|info|, i requires 0 <= i < |info| => FieldObject(Title(info[i].0), info[i].1, true))
  }

  /** "good" for an "ok" status in any letter case, "warning" otherwise. */
  function HealthColor(status: string): (c: string)
    ensures c == "good" <==> Lower(status) == "ok"
    ensures c != "good" ==> c == "warning"
  {
    if Lower(status) == "ok" then "good" else "warning"
  }

  /** The payload of `send_health_check_notification(status, uptime,
      additional_info)`; `info` lists the additional items with their
      values already rendered by `str`. */
  function HealthCheckPayload(status: string, uptime: string, info: seq<(string, string)>, now: DateTime,
                              ts: int): (p: Payload)
    requires Valid(now)
    ensures p.text.None? && p.attachments.Some? && |p.attachments.value| == 1
    ensures p.iconEmoji == ":heart:" && p.username == DefaultUsername && p.channel.None?
    ensures p.attachments.value[0].fields == Some(HealthFields(status, uptime, now, info))
    ensures p.attachments.value[0].color == HealthColor(status)
  {
    FormatSlackMessage("\U{1F3E5} Health Check: Service is " + status, None, None, Some(":heart:"),
                       Some(HealthColor(status)), Some(HealthFields(status, uptime, now, info)), ts)
  }

  /** A health check carries three fields plus one per additional item, and
      is coloured "good" exactly for an "ok" status in any letter case. */
  lemma HealthCheckShape(status: string, uptime: string, info: seq<(string, string)>, now: DateTime, ts: int)
    requires Valid(now)
    ensures var a := HealthCheckPayload(status, uptime, info, now, ts).attachments.value[0];
      && |a.fields.value| == 3 + |info|
      && (a.color == "good" <==> Lower(status) == "ok")
      && (a.color != "good" ==> a.color == "warning")
  {
  }

  /** The colour and the Status field render the same status: the colour
      is "good" exactly when the upper-cased text in the Status field reads
      "ok" once lower-cased. */
  lemma HealthColorAgreesWithStatusField(status: string, uptime: string, info: seq<(string, string)>, now: DateTime)
    requires Valid(now)
    ensures var f := HealthFields(status, uptime, now, info)[0];
      && "value" in f && f["value"].JStr?
      && (HealthColor(status) == "good" <==> Lower(f["value"].s) == "ok")
  {
    LowerUpper(status);
  }

  /** `send_health_check_notification(...)`. */
  function SendHealthCheck(url: string, status: string, uptime: string, info: seq<(string, string)>,
                           now: DateTime, ts: int, t: Transport): (d: Delivery)
    requires Valid(now)
    ensures d.posted.Some? <==> url != ""
    ensures d.posted.Some? ==> d.posted.value == (url, PayloadObject(HealthCheckPayload(status, uptime, info, now, ts)))
    ensures d.ok <==> url != "" && Accepted(t)
  {
    HealthPayloadSerialisable(status, uptime, info, now, ts);
    SendSlackWebhook(url, PayloadObject(HealthCheckPayload(status, uptime, info, now, ts)), t)
  }

  /** A health check holds only texts, numbers and flags, so its body can
      always be serialised. */
  lemma HealthPayloadSerialisable(status: string, uptime: string, info: seq<(string, string)>, now: DateTime, ts: int)
    requires Valid(now)
    ensures NoDateTime(JObject(PayloadObject(HealthCheckPayload(status, uptime, info, now, ts))))
  {
    var p := HealthCheckPayload(status, uptime, info, now, ts);
    var fs := HealthFields(status, uptime, now, info);
    forall i | 0 <= i < |fs|
      ensures NoDateTime(JObject(fs[i]))
    {
      if i == 0 {
        FieldObjectSerialisable("Status", Upper(status), true);
      } else if i == 1 {
        FieldObjectSerialisable("Uptime", uptime, true);
      } else if i == 2 {
        FieldObjectSerialisable("Timestamp", HumanTime(now), false);
      } else {
        assert fs[i] == FieldObject(Title(info[i - 3].0), info[i - 3].1, true);
        FieldObjectSerialisable(Title(info[i - 3].0), info[i - 3].1, true);
      }
    }
    PayloadSerialisable(p);
  }

  lemma FieldObjectSerialisable(title: string, value: string, short: bool)
    ensures NoDateTime(JObject(FieldObject(title, value, short)))
  {
    var m: Object := map[];
    NoDateTimeUpdate(m, "title", JStr(title));
    m := m["title" := JStr(title)];
    NoDateTimeUpdate(m, "value", JStr(value));
    m := m["value" := JStr(value)];
    NoDateTimeUpdate(m, "short", JBool(short));
  }

  /** A payload whose attachment fields hold no `datetime` has a body that
      holds none either. */
  lemma PayloadSerialisable(p: Payload)
    requires p.attachments.Some? ==> forall i :: 0 <= i < |p.attachments.value| ==>
      p.attachments.value[i].fields.Some? ==>
        forall j :: 0 <= j < |p.attachments.value[i].fields.value| ==>
          NoDateTime(JObject(p.attachments.value[i].fields.value[j]))
    ensures NoDateTime(JObject(PayloadObject(p)))
  {
    if p.attachments.Some? {
      var atts := p.attachments.value;
      forall i | 0 <= i < |atts|
        ensures NoDateTime(JObject(AttachmentObject(atts[i])))
      {
        var a := atts[i];
        if a.fields.Some? {
          var arr := JArray(seq(|a.fields.value|, j requires 0 <= j < |a.fields.value| => JObject(a.fields.value[j])));
          assert NoDateTime(arr);
        }
      }
      var arr := JArray(seq(|atts|, i requires 0 <= i < |atts| => JObject(AttachmentObject(atts[i]))));
      assert NoDateTime(arr);
    }
  }
}
