/** JSON values as the service handles them in memory: Python's `dict`,
    `list`, `str`, numbers, booleans and `None`, plus a leaf for `datetime`
    objects, which are not JSON and must be rendered before serialisation. */
module Json {
  import opened Wrappers
  import opened Clock

  datatype JValue =
    | JNull
    | JBool(b: bool)
    | JNum(n: real)
    | JStr(s: string)
    | JDateTime(dt: DateTime)
    | JArray(items: seq<JValue>)
    | JObject(fields: map<string, JValue>)

  /** A Python `dict` with string keys. */
  type Object = map<string, JValue>

  /** An optional text as a JSON value: `None` becomes `null`. */
  function OptionalText(o: Option<string>): (v: JValue)
    ensures v == JNull <==> o.None?
    ensures o.Some? ==> v == JStr(o.value)
  {
    if o.Some? then JStr(o.value) else JNull
  }

  /** No `datetime` object occurs anywhere inside `v`. */
  predicate NoDateTime(v: JValue) {
    match v
    case JDateTime(_) => false
    case JArray(xs) => forall i :: 0 <= i < |xs| ==> NoDateTime(xs[i])
    case JObject(m) => forall k :: k in m ==> NoDateTime(m[k])
    case _ => true
  }

  /** A list of texts as a JSON array. */
  function TextArray(xs: seq<string>): (v: JValue)
    ensures v.JArray? && |v.items| == |xs|
    ensures forall i :: 0 <= i < |xs| ==> v.items[i] == JStr(xs[i])
    ensures NoDateTime(v)
  {
    JArray(seq(|xs|, i requires 0 <= i < |xs| => JStr(xs[i])))
  }

  /** Setting a key to a value without a `datetime` keeps a map free of
      them. */
  lemma NoDateTimeUpdate(m: map<string, JValue>, k: string, v: JValue)
    requires NoDateTime(JObject(m)) && NoDateTime(v)
    ensures NoDateTime(JObject(m[k := v]))
  {
    var m' := m[k := v];
    forall k' | k' in m' ensures NoDateTime(m'[k']) {
      if k' != k {
        assert m'[k'] == m[k'];
      }
    }
  }

  /** `r` has the shape of `v`: same dict keys, same list lengths, the same
      non-datetime leaves, and each datetime replaced by its ISO text. */
  ghost predicate Mirrors(v: JValue, r: JValue) {
    match v
    case JDateTime(dt) => r == JStr(IsoFormat(dt))
    case JArray(xs) =>
      && r.JArray?
      && |r.items| == |xs|
      && forall i :: 0 <= i < |xs| ==> Mirrors(xs[i], r.items[i])
    case JObject(m) =>
      && r.JObject?
      && r.fields.Keys == m.Keys
      && forall k :: k in m ==> Mirrors(m[k], r.fields[k])
    case _ => r == v
  }

  /** The nested `convert_datetime` of the log formatter: renders every
      `datetime` at any depth as its ISO text and leaves the rest alone. */
  function ConvertDateTime(v: JValue): (r: JValue)
    ensures r == JNull <==> v == JNull
    ensures !r.JDateTime?
  {
    match v
    case JDateTime(dt) => JStr(IsoFormat(dt))
    case JArray(xs) => JArray(seq(|xs|, i requires 0 <= i < |xs| => ConvertDateTime(xs[i])))
    case JObject(m) => JObject(map k | k in m :: ConvertDateTime(m[k]))
    case _ => v
  }

  /** The conversion leaves no datetime behind and changes nothing else:
      the result mirrors the input. */
  lemma {:induction false} ConvertRenders(v: JValue)
    ensures NoDateTime(ConvertDateTime(v))
    ensures Mirrors(v, ConvertDateTime(v))
  {
    match v
    case JArray(xs) =>
      forall i | 0 <= i < |xs|
        ensures NoDateTime(ConvertDateTime(xs[i])) && Mirrors(xs[i], ConvertDateTime(xs[i]))
      {
        ConvertRenders(xs[i]);
      }
    case JObject(m) =>
      forall k | k in m
        ensures NoDateTime(ConvertDateTime(m[k])) && Mirrors(m[k], ConvertDateTime(m[k]))
      {
        ConvertRenders(m[k]);
      }
    case _ =>
  }

  /** Values without datetimes pass through the conversion unchanged. */
  lemma {:induction false} ConvertWithoutDateTime(v: JValue)
    requires NoDateTime(v)
    ensures ConvertDateTime(v) == v
  {
    match v
    case JArray(xs) =>
      forall i | 0 <= i < |xs| {
        ConvertWithoutDateTime(xs[i]);
      }
      assert ConvertDateTime(v).items == xs;
    case JObject(m) =>
      forall k | k in m {
        ConvertWithoutDateTime(m[k]);
      }
      assert ConvertDateTime(v).fields == m;
    case _ =>
  }

  /** Converting twice is converting once. */
  lemma ConvertIdempotent(v: JValue)
    ensures ConvertDateTime(ConvertDateTime(v)) == ConvertDateTime(v)
  {
    ConvertRenders(v);
    ConvertWithoutDateTime(ConvertDateTime(v));
  }
}
