/** The request and response models of the service. A request arrives as a
    map of fields, each absent, explicitly null, or given with a value of the
    declared type (type coercion is not modelled); validation either builds
    the model, filling in defaults, or reports one error per failing field,
    in field order. */
module Schemas {
  import opened Wrappers
  import opened Clock
  import opened Json

  /** One field of an incoming request. */
  datatype Field<T> = Absent | Null | Given(value: T)

  /** The validation errors the models can raise, each naming its field. */
  datatype ValidationError =
    | Missing(field: string)
    | NotNullable(field: string)
    | TooShort(field: string, minLength: nat)
    | TooLong(field: string, maxLength: nat)
    | PatternMismatch(field: string)
    | NotGreaterThan(field: string, bound: real)
    | TooFewItems(field: string, minItems: nat)

  /** A required field without a default: it must be given. */
  function Required<T>(f: Field<T>, name: string): (r: Result<T, ValidationError>)
    ensures r.Success? <==> f.Given?
    ensures r.Success? ==> r.value == f.value
    ensures f.Absent? ==> r == Failure(Missing(name))
    ensures f.Null? ==> r == Failure(NotNullable(name))
  {
    match f
    case Absent => Failure(Missing(name))
    case Null => Failure(NotNullable(name))
    case Given(v) => Success(v)
  }

  /** An `Optional` field with a default: the default applies only when the
      field is absent, and an explicit null is kept as `None`. */
  function Defaulted<T>(f: Field<T>, default: T): (r: Option<T>)
    ensures f.Absent? ==> r == Some(default)
    ensures f.Null? <==> r.None?
    ensures f.Given? ==> r == Some(f.value)
  {
    match f
    case Absent => Some(default)
    case Null => None
    case Given(v) => Some(v)
  }

  /** The errors of several fields, in field order. */
  function Errors(es: seq<Option<ValidationError>>): (r: seq<ValidationError>)
    ensures r == [] <==> forall i :: 0 <= i < |es| ==> es[i].None?
    ensures forall e :: e in r <==> Some(e) in es
  {
    if es == [] then []
    else
      var rest := Errors(es[1..]);
      assert forall x :: x in es <==> x == es[0] || x in es[1..];
      (if es[0].Some? then [es[0].value] else []) + rest
  }

  // ---------------------------------------------------------------------
  // CampaignLaunchRequest
  // ---------------------------------------------------------------------

  /** `[a-zA-Z0-9_-]`. */
  predicate IdChar(c: char) {
    ('a' <= c <= 'z') || ('A' <= c <= 'Z') || ('0' <= c <= '9') || c == '_' || c == '-'
  }

  /** `^[a-zA-Z0-9_-]+$`, read character by character the way the regular
      expression engine scans it. */
  function MatchesIdPattern(s: string): bool {
    |s| >= 1 && IdRun(s)
  }

  /** `[a-zA-Z0-9_-]*` followed by the end of the text. */
  function IdRun(s: string): bool {
    s == [] || (IdChar(s[0]) && IdRun(s[1..]))
  }

  /** What the campaign-id constraints accept: 3 to 100 characters, each a
      letter, a digit, `_` or `-`. */
  predicate ValidCampaignId(s: string) {
    3 <= |s| <= 100 && forall i :: 0 <= i < |s| ==> IdChar(s[i])
  }

  lemma {:induction false} IdRunIff(s: string)
    ensures IdRun(s) <==> forall i :: 0 <= i < |s| ==> IdChar(s[i])
  {
    if s != [] {
      IdRunIff(s[1..]);
      assert forall i :: 1 <= i < |s| ==> s[i] == s[1..][i - 1];
    }
  }

  /** `campaign_id`: required, then `min_length`, `max_length` and the
      pattern, checked in that order; the first failure is reported. */
  function CampaignIdError(f: Field<string>): (r: Option<ValidationError>)
    ensures r.None? <==> f.Given? && ValidCampaignId(f.value)
  {
    IdRunIff(if f.Given? then f.value else []);
    match f
    case Absent => Some(Missing("campaign_id"))
    case Null => Some(NotNullable("campaign_id"))
    case Given(s) =>
      if |s| < 3 then Some(TooShort("campaign_id", 3))
      else if |s| > 100 then Some(TooLong("campaign_id", 100))
      else if !MatchesIdPattern(s) then Some(PatternMismatch("campaign_id"))
      else None
  }

  /** `budget`: required and `gt=0`. */
  function BudgetError(f: Field<real>): (r: Option<ValidationError>)
    ensures r.None? <==> f.Given? && f.value > 0.0
  {
    match f
    case Absent => Some(Missing("budget"))
    case Null => Some(NotNullable("budget"))
    case Given(b) => if b > 0.0 then None else Some(NotGreaterThan("budget", 0.0))
  }

  /** `audience` and `creatives`: required lists with `min_items=1`. */
  function ItemsError(name: string, f: Field<seq<string>>): (r: Option<ValidationError>)
    ensures r.None? <==> f.Given? && |f.value| >= 1
    ensures r.Some? ==> r.value.field == name
  {
    match f
    case Absent => Some(Missing(name))
    case Null => Some(NotNullable(name))
    case Given(xs) => if |xs| >= 1 then None else Some(TooFewItems(name, 1))
  }

  datatype RawCampaign = RawCampaign(campaignId: Field<string>, budget: Field<real>,
                                     audience: Field<seq<string>>, creatives: Field<seq<string>>)

  datatype CampaignLaunchRequest = CampaignLaunchRequest(campaignId: string, budget: real,
                                                         audience: seq<string>, creatives: seq<string>)

  /** The four field constraints, each stated on its own. */
  predicate CampaignFieldsValid(raw: RawCampaign) {
    && raw.campaignId.Given? && ValidCampaignId(raw.campaignId.value)
    && raw.budget.Given? && raw.budget.value > 0.0
    && raw.audience.Given? && |raw.audience.value| >= 1
    && raw.creatives.Given? && |raw.creatives.value| >= 1
  }

  function CampaignErrors(raw: RawCampaign): seq<ValidationError> {
    Errors([CampaignIdError(raw.campaignId), BudgetError(raw.budget),
            ItemsError("audience", raw.audience), ItemsError("creatives", raw.creatives)])
  }

  /** `CampaignLaunchRequest(**body)`. */
  function ValidateCampaign(raw: RawCampaign): (r: Result<CampaignLaunchRequest, seq<ValidationError>>)
    ensures r.Success? <==> CampaignFieldsValid(raw)
    ensures r.Success? ==> r.value == CampaignLaunchRequest(raw.campaignId.value, raw.budget.value,
                                                            raw.audience.value, raw.creatives.value)
    ensures r.Failure? ==> r.error != [] && r.error == CampaignErrors(raw)
  {
    var errors := CampaignErrors(raw);
    var es := [CampaignIdError(raw.campaignId), BudgetError(raw.budget),
               ItemsError("audience", raw.audience), ItemsError("creatives", raw.creatives)];
    assert errors == [] <==> es[0].None? && es[1].None? && es[2].None? && es[3].None?;
    if errors == [] then
      Success(CampaignLaunchRequest(raw.campaignId.value, raw.budget.value, raw.audience.value, raw.creatives.value))
    else Failure(errors)
  }

  /** A rejected request reports an error for exactly the fields that fail
      their own constraint. */
  lemma CampaignErrorsNameFailingFields(raw: RawCampaign)
    ensures (exists e :: e in CampaignErrors(raw) && e.field == "campaign_id")
        <==> !(raw.campaignId.Given? && ValidCampaignId(raw.campaignId.value))
    ensures (exists e :: e in CampaignErrors(raw) && e.field == "budget")
        <==> !(raw.budget.Given? && raw.budget.value > 0.0)
    ensures (exists e :: e in CampaignErrors(raw) && e.field == "audience")
        <==> !(raw.audience.Given? && |raw.audience.value| >= 1)
    ensures (exists e :: e in CampaignErrors(raw) && e.field == "creatives")
        <==> !(raw.creatives.Given? && |raw.creatives.value| >= 1)
  {
    var es := [CampaignIdError(raw.campaignId), BudgetError(raw.budget),
               ItemsError("audience", raw.audience), ItemsError("creatives", raw.creatives)];
    var names := ["campaign_id", "budget", "audience", "creatives"];
    CampaignFieldNamesDistinct();
    ErrorForField(es, names, 0);
    ErrorForField(es, names, 1);
    ErrorForField(es, names, 2);
    ErrorForField(es, names, 3);
  }

  /** The four campaign fields have different names. */
  lemma CampaignFieldNamesDistinct()
    ensures var names := ["campaign_id", "budget", "audience", "creatives"];
      forall i, j :: 0 <= i < j < 4 ==> names[i] != names[j]
  {
  }

  /** When the i-th check is the only one that can name `names[i]`, an error
      for that field is reported exactly when the i-th check fails. */
  lemma ErrorForField(es: seq<Option<ValidationError>>, names: seq<string>, i: nat)
    requires |es| == |names| && i < |es|
    requires forall j :: 0 <= j < |es| && es[j].Some? ==> es[j].value.field == names[j]
    requires forall j :: 0 <= j < |names| && j != i ==> names[j] != names[i]
    ensures (exists e :: e in Errors(es) && e.field == names[i]) <==> es[i].Some?
  {
    if es[i].Some? {
      assert es[i].value in Errors(es);
    }
  }

  // ---------------------------------------------------------------------
  // PlaybookUploadRequest, GenericRouteRequest
  // ---------------------------------------------------------------------

  datatype RawPlaybook = RawPlaybook(playbookName: Field<string>, content: Field<Object>,
                                     version: Field<string>, tags: Field<seq<string>>)

  datatype PlaybookUploadRequest = PlaybookUploadRequest(playbookName: string, content: Object,
                                                         version: Option<string>, tags: Option<seq<string>>)

  /** `PlaybookUploadRequest(**body)`: name and content are required, the
      version defaults to "1.0" and the tags to an empty list. */
  function ValidatePlaybook(raw: RawPlaybook): (r: Result<PlaybookUploadRequest, seq<ValidationError>>)
    ensures r.Success? <==> raw.playbookName.Given? && raw.content.Given?
    ensures r.Success? ==> r.value.playbookName == raw.playbookName.value && r.value.content == raw.content.value
    ensures r.Success? && raw.version.Absent? ==> r.value.version == Some("1.0")
    ensures r.Success? && raw.tags.Absent? ==> r.value.tags == Some([])
    ensures r.Success? && raw.version.Given? ==> r.value.version == Some(raw.version.value)
    ensures r.Success? && raw.tags.Given? ==> r.value.tags == Some(raw.tags.value)
    ensures r.Success? ==> (r.value.version.None? <==> raw.version.Null?)
    ensures r.Success? ==> (r.value.tags.None? <==> raw.tags.Null?)
    ensures r.Failure? ==> 1 <= |r.error| <= 2
  {
    var name := Required(raw.playbookName, "playbook_name");
    var content := Required(raw.content, "content");
    if name.Success? && content.Success? then
      Success(PlaybookUploadRequest(name.value, content.value, Defaulted(raw.version, "1.0"), Defaulted(raw.tags, [])))
    else
      Failure((if name.Failure? then [name.error] else []) + (if content.Failure? then [content.error] else []))
  }

  datatype RawRoute = RawRoute(payload: Field<Object>, metadata: Field<map<string, string>>)

  datatype GenericRouteRequest = GenericRouteRequest(payload: Object, metadata: Option<map<string, string>>)

  /** `GenericRouteRequest(**body)`: the payload is required and the
      metadata defaults to an empty map. */
  function ValidateRoute(raw: RawRoute): (r: Result<GenericRouteRequest, seq<ValidationError>>)
    ensures r.Success? <==> raw.payload.Given?
    ensures r.Success? ==> r.value.payload == raw.payload.value
    ensures r.Success? && raw.metadata.Absent? ==> r.value.metadata == Some(map[])
    ensures r.Success? && raw.metadata.Given? ==> r.value.metadata == Some(raw.metadata.value)
    ensures r.Success? ==> (r.value.metadata.None? <==> raw.metadata.Null?)
    ensures r.Failure? ==> |r.error| == 1 && r.error[0].field == "payload"
  {
    match Required(raw.payload, "payload")
    case Success(p) => Success(GenericRouteRequest(p, Defaulted(raw.metadata, map[])))
    case Failure(e) => Failure([e])
  }

  /** Only the missing or null required fields are reported. */
  lemma PlaybookErrorsAreRequiredFields(raw: RawPlaybook)
    ensures var r := ValidatePlaybook(raw);
      r.Failure? ==>
        && (Missing("playbook_name") in r.error <==> raw.playbookName.Absent?)
        && (NotNullable("playbook_name") in r.error <==> raw.playbookName.Null?)
        && (Missing("content") in r.error <==> raw.content.Absent?)
        && (NotNullable("content") in r.error <==> raw.content.Null?)
  {
    assert "playbook_name" != "content";
  }

  // ---------------------------------------------------------------------
  // Responses and notifications
  // ---------------------------------------------------------------------

  /** A non-optional field with a default: the default applies when the
      field is absent, and an explicit null is an error. */
  function WithDefault<T>(f: Field<T>, default: T, name: string): (r: Result<T, ValidationError>)
    ensures f.Absent? ==> r == Success(default)
    ensures f.Null? ==> r == Failure(NotNullable(name))
    ensures f.Given? ==> r == Success(f.value)
  {
    match f
    case Absent => Success(default)
    case Null => Failure(NotNullable(name))
    case Given(v) => Success(v)
  }

  datatype RawStatus = RawStatus(status: Field<string>, uptime: Field<string>, timestamp: Field<DateTime>,
                                 version: Field<string>)

  datatype StatusResponse = StatusResponse(status: string, uptime: string, timestamp: DateTime, version: string)

  /** `StatusResponse(**fields)`: status and uptime are required, the
      timestamp defaults to the clock reading `now` and the version to
      "1.0.0"; neither default accepts an explicit null. */
  function ValidateStatus(raw: RawStatus, now: DateTime): (r: Result<StatusResponse, seq<ValidationError>>)
    ensures r.Success? <==> raw.status.Given? && raw.uptime.Given? && !raw.timestamp.Null? && !raw.version.Null?
    ensures r.Success? ==> r.value.status == raw.status.value && r.value.uptime == raw.uptime.value
    ensures r.Success? && raw.timestamp.Absent? ==> r.value.timestamp == now
    ensures r.Success? && raw.timestamp.Given? ==> r.value.timestamp == raw.timestamp.value
    ensures r.Success? && raw.version.Absent? ==> r.value.version == "1.0.0"
    ensures r.Success? && raw.version.Given? ==> r.value.version == raw.version.value
    ensures r.Failure? ==> 1 <= |r.error| <= 4
  {
    var status := Required(raw.status, "status");
    var uptime := Required(raw.uptime, "uptime");
    var timestamp := WithDefault(raw.timestamp, now, "timestamp");
    var version := WithDefault(raw.version, "1.0.0", "version");
    if status.Success? && uptime.Success? && timestamp.Success? && version.Success? then
      Success(StatusResponse(status.value, uptime.value, timestamp.value, version.value))
    else
      Failure((if status.Failure? then [status.error] else []) + (if uptime.Failure? then [uptime.error] else [])
              + (if timestamp.Failure? then [timestamp.error] else [])
              + (if version.Failure? then [version.error] else []))
  }

  /** The errors a field contributes on its own: "missing" for an absent
      required field, "not nullable" for a null one, nothing otherwise. */
  function FieldErrors<T>(f: Field<T>, name: string, required: bool): seq<ValidationError> {
    if f.Absent? && required then [Missing(name)] else if f.Null? then [NotNullable(name)] else []
  }

  /** A rejected status lists the errors of its fields in field order. */
  lemma StatusErrorsInFieldOrder(raw: RawStatus, now: DateTime)
    ensures var r := ValidateStatus(raw, now);
      r.Failure? ==> r.error == FieldErrors(raw.status, "status", true) + FieldErrors(raw.uptime, "uptime", true)
                                + FieldErrors(raw.timestamp, "timestamp", false)
                                + FieldErrors(raw.version, "version", false)
  {
  }

  /** A rejected status reports, for each field, "missing" exactly when the
      field is absent and "not nullable" exactly when it is null; the
      defaulted fields are never reported missing. */
  lemma StatusErrorsNameFields(raw: RawStatus, now: DateTime)
    ensures var r := ValidateStatus(raw, now);
      r.Failure? ==>
        && (Missing("status") in r.error <==> raw.status.Absent?)
        && (NotNullable("status") in r.error <==> raw.status.Null?)
        && (Missing("uptime") in r.error <==> raw.uptime.Absent?)
        && (NotNullable("uptime") in r.error <==> raw.uptime.Null?)
        && (NotNullable("timestamp") in r.error <==> raw.timestamp.Null?)
        && (NotNullable("version") in r.error <==> raw.version.Null?)
        && Missing("timestamp") !in r.error && Missing("version") !in r.error
  {
    var r := ValidateStatus(raw, now);
    if r.Failure? {
      StatusErrorsInFieldOrder(raw, now);
      StatusFieldErrorsNamed(raw.status, raw.uptime, raw.timestamp, raw.version, r.error);
    }
  }

  lemma StatusFieldErrorsNamed(status: Field<string>, uptime: Field<string>, timestamp: Field<DateTime>,
                               version: Field<string>, e: seq<ValidationError>)
    requires e == FieldErrors(status, "status", true) + FieldErrors(uptime, "uptime", true)
                  + FieldErrors(timestamp, "timestamp", false) + FieldErrors(version, "version", false)
    ensures Missing("status") in e <==> status.Absent?
    ensures NotNullable("status") in e <==> status.Null?
    ensures Missing("uptime") in e <==> uptime.Absent?
    ensures NotNullable("uptime") in e <==> uptime.Null?
    ensures NotNullable("timestamp") in e <==> timestamp.Null?
    ensures NotNullable("version") in e <==> version.Null?
    ensures Missing("timestamp") !in e && Missing("version") !in e
  {
    var s, u, t, v := FieldErrors(status, "status", true), FieldErrors(uptime, "uptime", true),
                      FieldErrors(timestamp, "timestamp", false), FieldErrors(version, "version", false);
    assert "status"[0] != "uptime"[0] && "status"[0] != "timestamp"[0] && "status"[0] != "version"[0];
    assert "uptime"[0] != "timestamp"[0] && "uptime"[0] != "version"[0] && "timestamp"[0] != "version"[0];
    RequiredStatusErrorsNamed(status, uptime, timestamp, version, e);
    DefaultedStatusErrorsNamed(status, uptime, timestamp, version, e);
  }

  lemma RequiredStatusErrorsNamed(status: Field<string>, uptime: Field<string>, timestamp: Field<DateTime>,
                                  version: Field<string>, e: seq<ValidationError>)
    requires "status" != "uptime" && "status" != "timestamp" && "status" != "version"
    requires "uptime" != "timestamp" && "uptime" != "version"
    requires e == FieldErrors(status, "status", true) + FieldErrors(uptime, "uptime", true)
                  + FieldErrors(timestamp, "timestamp", false) + FieldErrors(version, "version", false)
    ensures Missing("status") in e <==> status.Absent?
    ensures NotNullable("status") in e <==> status.Null?
    ensures Missing("uptime") in e <==> uptime.Absent?
    ensures NotNullable("uptime") in e <==> uptime.Null?
  {
    var s, u, t, v := FieldErrors(status, "status", true), FieldErrors(uptime, "uptime", true),
                      FieldErrors(timestamp, "timestamp", false), FieldErrors(version, "version", false);
    OtherFieldErrors(uptime, "uptime", true, "status");
    OtherFieldErrors(timestamp, "timestamp", false, "status");
    OtherFieldErrors(version, "version", false, "status");
    OnlyOwnErrors([], status, "status", true, u + t + v, e);
    OtherFieldErrors(status, "status", true, "uptime");
    OtherFieldErrors(timestamp, "timestamp", false, "uptime");
    OtherFieldErrors(version, "version", false, "uptime");
    OnlyOwnErrors(s, uptime, "uptime", true, t + v, e);
  }

  lemma DefaultedStatusErrorsNamed(status: Field<string>, uptime: Field<string>, timestamp: Field<DateTime>,
                                   version: Field<string>, e: seq<ValidationError>)
    requires "status" != "timestamp" && "status" != "version" && "uptime" != "timestamp"
    requires "uptime" != "version" && "timestamp" != "version"
    requires e == FieldErrors(status, "status", true) + FieldErrors(uptime, "uptime", true)
                  + FieldErrors(timestamp, "timestamp", false) + FieldErrors(version, "version", false)
    ensures NotNullable("timestamp") in e <==> timestamp.Null?
    ensures NotNullable("version") in e <==> version.Null?
    ensures Missing("timestamp") !in e && Missing("version") !in e
  {
    var s, u, t, v := FieldErrors(status, "status", true), FieldErrors(uptime, "uptime", true),
                      FieldErrors(timestamp, "timestamp", false), FieldErrors(version, "version", false);
    OtherFieldErrors(status, "status", true, "timestamp");
    OtherFieldErrors(uptime, "uptime", true, "timestamp");
    OtherFieldErrors(version, "version", false, "timestamp");
    OnlyOwnErrors(s + u, timestamp, "timestamp", false, v, e);
    OtherFieldErrors(status, "status", true, "version");
    OtherFieldErrors(uptime, "uptime", true, "version");
    OtherFieldErrors(timestamp, "timestamp", false, "version");
    OnlyOwnErrors(s + u + t, version, "version", false, [], e);
  }

  /** Another field's errors never name field `n`. */
  lemma OtherFieldErrors<T>(f: Field<T>, m: string, required: bool, n: string)
    requires m != n
    ensures Missing(n) !in FieldErrors(f, m, required) && NotNullable(n) !in FieldErrors(f, m, required)
  {
  }

  /** When no other field's errors name field `n`, the errors report `n`
      missing or null exactly when its own check does. */
  lemma OnlyOwnErrors<T>(before: seq<ValidationError>, f: Field<T>, n: string, required: bool,
                         after: seq<ValidationError>, e: seq<ValidationError>)
    requires e == before + FieldErrors(f, n, required) + after
    requires Missing(n) !in before && NotNullable(n) !in before
    requires Missing(n) !in after && NotNullable(n) !in after
    ensures Missing(n) in e <==> required && f.Absent?
    ensures NotNullable(n) in e <==> f.Null?
  {
  }

  datatype RawSlackNotification = RawSlackNotification(text: Field<string>, channel: Field<string>,
                                                       username: Field<string>, emoji: Field<string>)

  datatype SlackNotification = SlackNotification(text: string, channel: Option<string>,
                                                 username: Option<string>, emoji: Option<string>)

  /** `SlackNotification(**body)`: the text is required, the channel
      defaults to none, the username to "AmplifAI Bot" and the emoji to
      ":robot_face:". */
  function ValidateSlackNotification(raw: RawSlackNotification): (r: Result<SlackNotification, seq<ValidationError>>)
    ensures r.Success? <==> raw.text.Given?
    ensures r.Success? ==> r.value.text == raw.text.value
    ensures r.Success? && !raw.channel.Given? ==> r.value.channel == None
    ensures r.Success? && raw.channel.Given? ==> r.value.channel == Some(raw.channel.value)
    ensures r.Success? && raw.username.Absent? ==> r.value.username == Some("AmplifAI Bot")
    ensures r.Success? ==> (r.value.username.None? <==> raw.username.Null?)
    ensures r.Success? && raw.username.Given? ==> r.value.username == Some(raw.username.value)
    ensures r.Success? && raw.emoji.Absent? ==> r.value.emoji == Some(":robot_face:")
    ensures r.Success? ==> (r.value.emoji.None? <==> raw.emoji.Null?)
    ensures r.Success? && raw.emoji.Given? ==> r.value.emoji == Some(raw.emoji.value)
    ensures r.Failure? ==> |r.error| == 1 && r.error[0].field == "text"
  {
    match Required(raw.text, "text")
    case Success(t) =>
      var channel := match raw.channel case Given(c) => Some(c) case _ => None;
      Success(SlackNotification(t, channel, Defaulted(raw.username, "AmplifAI Bot"), Defaulted(raw.emoji, ":robot_face:")))
    case Failure(e) => Failure([e])
  }

  /** Giving every defaulted field its default explicitly builds the same
      model as leaving the fields out. */
  lemma DefaultsAreExplicitValues(text: string, pb: string, content: Object, payload: Object)
    ensures ValidateSlackNotification(RawSlackNotification(Given(text), Absent, Absent, Absent))
         == ValidateSlackNotification(RawSlackNotification(Given(text), Null, Given("AmplifAI Bot"), Given(":robot_face:")))
    ensures ValidatePlaybook(RawPlaybook(Given(pb), Given(content), Absent, Absent))
         == ValidatePlaybook(RawPlaybook(Given(pb), Given(content), Given("1.0"), Given([])))
    ensures ValidateRoute(RawRoute(Given(payload), Absent)) == ValidateRoute(RawRoute(Given(payload), Given(map[])))
  {
  }

  /** An explicit null on a defaulted field is not the same as leaving the
      field out: the default is not applied. */
  lemma NullIsNotAbsent(pb: string, content: Object)
    ensures ValidatePlaybook(RawPlaybook(Given(pb), Given(content), Null, Absent)).value.version == None
  {
  }
}
