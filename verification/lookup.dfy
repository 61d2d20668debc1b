/** The phone-number lookup of bot.py (`get_phone_metadata`): a key check,
    a request to the APILayer number-verification endpoint, a one-shot
    fallback to the legacy apilayer.net endpoint, and a three-way decision
    on the `valid` field of the final response. The two HTTP exchanges are
    inputs: each either yields the decoded JSON body or fails with the text
    of the exception `requests.get` or `response.json()` raised. */
module PhoneMetadata {
  import opened Json
  import opened PyRepr
  import Text

  /** An outgoing HTTP GET: its URL and its extra headers. */
  datatype Request = Request(url: string, headers: seq<(string, string)>)

  /** What one HTTP exchange produced. */
  datatype Fetch = Ok(body: Json) | Fail(msg: string)

  /** The fields the valid-number report prints, each as `data.get(...)`
      returned it. */
  datatype Report = Report(
    countryName: Option<Json>,
    countryCode: Option<Json>,
    location: Option<Json>,
    carrier: Option<Json>,
    lineType: Option<Json>)

  /** Every way a lookup whose exchanges complete can end. `ApiError` keeps the whole final payload;
      `SystemError` keeps the text of the exception that was caught. */
  datatype Outcome =
    | KeyMissing
    | Valid(report: Report)
    | Invalid
    | ApiError(raw: Json)
    | SystemError(msg: string)

  /** One run of the lookup: how it ended and the requests it sent, in order. */
  datatype Run = Run(outcome: Outcome, requests: seq<Request>)

  /** Python truthiness of the configured key: unset and empty both count as
      missing. */
  predicate KeyConfigured(key: Option<string>) {
    key.Some? && key.value != ""
  }

  /** The newer endpoint: the number in the query, the key in an `apikey` header. */
  function PrimaryRequest(number: string, key: string): Request {
    Request("https://api.apilayer.com/number_verification/validate?number=" + number,
            [("apikey", key)])
  }

  /** The legacy endpoint: key and number both in the query, no headers. */
  function LegacyRequest(number: string, key: string): Request {
    Request("http://apilayer.net/api/validate?access_key=" + key + "&number=" + number, [])
  }

  /** `"error" in data or "message" in data`, evaluated left to right; a body
      that is not a container raises on the first test. */
  function WantsFallback(data: Json): (r: Py<bool>)
    ensures r.Raise? <==> IsScalar(data)
    ensures r.Raise? ==> r.msg == "argument of type '" + TypeName(data) + "' is not iterable"
    ensures (data.JArr? || data.JStr?) ==> r == Value(FallbackFires(Ok(data)))
    ensures data.JObj? ==>
              r == Value(Names(data.members, "error") || Names(data.members, "message"))
  {
    match PyIn("error", data)
    case Raise(m) => Raise(m)
    case Value(found) => if found then Value(true) else PyIn("message", data)
  }

  /** The decision on the final response body: `valid` is exactly `True`,
      exactly `False`, or anything else (absent, null, a number, a string).
      A body that is not a dictionary has no `get` and raises. */
  function Judge(data: Json): (r: Outcome)
    ensures r.Valid? <==> data.JObj? && Get(data.members, "valid") == Some(JBool(true))
    ensures r.Invalid? <==> data.JObj? && Get(data.members, "valid") == Some(JBool(false))
    ensures r.ApiError? <==> data.JObj? && Get(data.members, "valid") !in {Some(JBool(true)), Some(JBool(false))}
    ensures r.ApiError? ==> r.raw == data
    ensures r.SystemError? <==> !data.JObj?
    ensures r.SystemError? ==> r.msg == "'" + TypeName(data) + "' object has no attribute 'get'"
    ensures r.Valid? ==> r.report == Report(Get(data.members, "country_name"),
                                            Get(data.members, "country_code"),
                                            Get(data.members, "location"),
                                            Get(data.members, "carrier"),
                                            Get(data.members, "line_type"))
  {
    match PyGet(data, "valid")
    case Raise(m) => SystemError(m)
    case Value(v) =>
      if v == Some(JBool(true)) then
        Valid(Report(Get(data.members, "country_name"), Get(data.members, "country_code"),
                     Get(data.members, "location"), Get(data.members, "carrier"),
                     Get(data.members, "line_type")))
      else if v == Some(JBool(false)) then Invalid
      else ApiError(data)
  }

  /** The fallback fires: the first exchange produced a container body that
      mentions `error` or `message`. */
  ghost predicate FallbackFires(primary: Fetch) {
    && primary.Ok?
    && match primary.body
       case JObj(members) => Names(members, "error") || Names(members, "message")
       case JArr(items) => exists k :: 0 <= k < |items| && items[k] in {JStr("error"), JStr("message")}
       case JStr(s) => Text.OccursIn(s, "error") || Text.OccursIn(s, "message")
       case _ => false
  }

  /** `get_phone_metadata(number)` with the configured key and the results of
      the two HTTP exchanges as parameters. `legacy` is only consulted when
      the second request is actually sent. */
  function Lookup(key: Option<string>, number: string, primary: Fetch, legacy: Fetch): (r: Run)
    // no key: the fixed error and no traffic at all
    ensures r.outcome == KeyMissing <==> !KeyConfigured(key)
    ensures !KeyConfigured(key) ==> r.requests == []
    // with a key: the newer endpoint first, the legacy one second iff the fallback fires
    ensures KeyConfigured(key) ==> 1 <= |r.requests| <= 2
    ensures KeyConfigured(key) ==> r.requests[0] == PrimaryRequest(number, key.value)
    ensures |r.requests| == 2 <==> KeyConfigured(key) && FallbackFires(primary)
    ensures |r.requests| == 2 ==> r.requests[1] == LegacyRequest(number, key.value)
    // the judged body is the legacy body after a fallback, the first body otherwise
    ensures |r.requests| == 2 && legacy.Ok? ==> r.outcome == Judge(legacy.body)
    ensures |r.requests| == 1 && primary.Ok? && !IsScalar(primary.body) ==> r.outcome == Judge(primary.body)
    // a first body that `in` cannot search raises before any decision
    ensures KeyConfigured(key) && primary.Ok? && IsScalar(primary.body) ==>
              r.outcome == SystemError("argument of type '" + TypeName(primary.body) + "' is not iterable")
    // a failed exchange surfaces as a system error carrying its message
    ensures KeyConfigured(key) && primary.Fail? ==> r.outcome == SystemError(primary.msg)
    ensures |r.requests| == 2 && legacy.Fail? ==> r.outcome == SystemError(legacy.msg)
  {
    if !KeyConfigured(key) then Run(KeyMissing, [])
    else
      var first := PrimaryRequest(number, key.value);
      match primary
      case Fail(m) => Run(SystemError(m), [first])
      case Ok(data) =>
        match WantsFallback(data)
        case Raise(m) => Run(SystemError(m), [first])
        case Value(fallback) =>
          if !fallback then Run(Judge(data), [first])
          else
            var second := LegacyRequest(number, key.value);
            match legacy
            case Fail(m) => Run(SystemError(m), [first, second])
            case Ok(data2) => Run(Judge(data2), [first, second])
  }

  const ValidHeader: string := "\U{2705} **Valid Number**"
  const InvalidText: string := "\U{274C}" + " This number is invalid (according to the database)."
  const Warning: string := "\U{26A0}\U{FE0F} "
  const KeyMissingText: string := Warning + "Error: API Key is missing."
  const ApiErrorPrefix: string := Warning + "API Error Details: "
  const SystemErrorPrefix: string := Warning + "System Error: "

  /** The five report lines, in the order the report prints them. */
  function ReportLines(rep: Report): seq<string> {
    [ ValidHeader,
      "\U{1F3F3}\U{FE0F} **Country:** " + StrOpt(rep.countryName) + " (" + StrOpt(rep.countryCode) + ")",
      "\U{1F4CD} **Location:** " + StrOpt(rep.location),
      "\U{1F3E2} **Carrier:** " + StrOpt(rep.carrier),
      "\U{1F4DE} **Line Type:** " + StrOpt(rep.lineType) ]
  }

  /** The reply text the lookup returns for each outcome. */
  function Render(o: Outcome): (r: string)
    ensures o.KeyMissing? ==> r == "\U{26A0}\U{FE0F} " + "Error: API Key is missing."
    ensures o.Valid? ==>
              r == "\U{2705} **Valid Number**"
                   + "\n" + ("\U{1F3F3}\U{FE0F} **Country:** " + StrOpt(o.report.countryName)
                             + " (" + StrOpt(o.report.countryCode) + ")")
                   + "\n" + ("\U{1F4CD} **Location:** " + StrOpt(o.report.location))
                   + "\n" + ("\U{1F3E2} **Carrier:** " + StrOpt(o.report.carrier))
                   + "\n" + ("\U{1F4DE} **Line Type:** " + StrOpt(o.report.lineType))
    ensures o.Invalid? ==> r == "\U{274C}" + " This number is invalid (according to the database)."
    ensures o.ApiError? ==> r == "\U{26A0}\U{FE0F} " + "API Error Details: " + Str(o.raw)
    ensures o.SystemError? ==> r == "\U{26A0}\U{FE0F} " + "System Error: " + o.msg
  {
    match o
    case KeyMissing => KeyMissingText
    case Valid(rep) => Text.JoinFive(ReportLines(rep)); Text.JoinLines(ReportLines(rep))
    case Invalid => InvalidText
    case ApiError(raw) => ApiErrorPrefix + Str(raw)
    case SystemError(m) => SystemErrorPrefix + m
  }
}

/** Properties of the lookup that relate several runs or read the reply text
    back. */
module PhoneMetadataFacts {
  import opened Json
  import opened PyRepr
  import Text
  import opened PhoneMetadata

  /** Once the fallback fires, the first body is discarded: any two first
      bodies that both trigger it lead to the same outcome. */
  lemma FallbackDiscardsPrimary(key: Option<string>, number: string, b1: Json, b2: Json, legacy: Fetch)
    requires KeyConfigured(key)
    requires FallbackFires(Ok(b1)) && FallbackFires(Ok(b2))
    ensures Lookup(key, number, Ok(b1), legacy) == Lookup(key, number, Ok(b2), legacy)
  {
    var r1 := Lookup(key, number, Ok(b1), legacy);
    var r2 := Lookup(key, number, Ok(b2), legacy);
    assert |r1.requests| == 2 && |r2.requests| == 2;
    assert r1.requests == [PrimaryRequest(number, key.value), LegacyRequest(number, key.value)];
    assert r2.requests == r1.requests;
  }

  /** The printed value of a field fits on one line. */
  predicate OneLine(o: Option<Json>) {
    '\n' !in StrOpt(o)
  }

  lemma ReportSplitsIntoLines(rep: Report)
    requires OneLine(rep.countryName) && OneLine(rep.countryCode) && OneLine(rep.location)
    requires OneLine(rep.carrier) && OneLine(rep.lineType)
    ensures Text.SplitLines(Render(Valid(rep))) == ReportLines(rep)
  {
    var lines := ReportLines(rep);
    forall k | 0 <= k < |lines| ensures '\n' !in lines[k] {
    }
    Text.SplitJoinLines(lines);
  }

  /** A valid-number reply has exactly five lines: the header, then country
      name with country code, location, carrier and line type, in that order,
      each value printed as Python prints it. */
  lemma ValidReportOrder(data: Json)
    requires data.JObj? && Get(data.members, "valid") == Some(JBool(true))
    requires OneLine(Get(data.members, "country_name")) && OneLine(Get(data.members, "country_code"))
    requires OneLine(Get(data.members, "location")) && OneLine(Get(data.members, "carrier"))
    requires OneLine(Get(data.members, "line_type"))
    ensures Text.SplitLines(Render(Judge(data))) ==
            [ "\U{2705} **Valid Number**",
              "\U{1F3F3}\U{FE0F} **Country:** " + StrOpt(Get(data.members, "country_name"))
                + " (" + StrOpt(Get(data.members, "country_code")) + ")",
              "\U{1F4CD} **Location:** " + StrOpt(Get(data.members, "location")),
              "\U{1F3E2} **Carrier:** " + StrOpt(Get(data.members, "carrier")),
              "\U{1F4DE} **Line Type:** " + StrOpt(Get(data.members, "line_type")) ]
  {
    ReportSplitsIntoLines(Judge(data).report);
  }

  /** The invalid-number reply is the same fixed sentence whatever else the
      payload holds. */
  lemma InvalidReplyIgnoresPayload(d1: Json, d2: Json)
    requires d1.JObj? && Get(d1.members, "valid") == Some(JBool(false))
    requires d2.JObj? && Get(d2.members, "valid") == Some(JBool(false))
    ensures Render(Judge(d1)) == Render(Judge(d2)) == InvalidText
  {
  }

  /** The API-error reply carries the whole final payload: it is the fixed
      prefix followed by the payload's Python text, a `{...}` dictionary. */
  lemma ApiErrorShowsPayload(data: Json)
    requires Judge(data).ApiError?
    ensures var t := Render(Judge(data));
            && t == ApiErrorPrefix + Repr(data)
            && t[|ApiErrorPrefix|] == '{' && t[|t| - 1] == '}'
  {
    var t := Render(Judge(data));
    assert data.JObj?;
    assert Str(data) == Repr(data) == "{" + ReprMembers(data.members, 0) + "}";
    assert t[|ApiErrorPrefix|] == Repr(data)[0];
  }

  /** The five kinds of reply. */
  datatype Kind = KeyMissingReply | ValidReply | InvalidReply | ApiErrorReply | SystemErrorReply

  function KindOf(o: Outcome): Kind {
    match o
    case KeyMissing => KeyMissingReply
    case Valid(_) => ValidReply
    case Invalid => InvalidReply
    case ApiError(_) => ApiErrorReply
    case SystemError(_) => SystemErrorReply
  }

  /** Tells which branch produced a reply from its leading symbol and,
      after a warning sign, the first letter of its first word. */
  function ClassifyReply(t: string): Kind {
    if |t| == 0 then KeyMissingReply
    else if t[0] == '\U{2705}' then ValidReply
    else if t[0] == '\U{274C}' then InvalidReply
    else if |t| > |Warning| && t[|Warning|] == 'A' then ApiErrorReply
    else if |t| > |Warning| && t[|Warning|] == 'S' then SystemErrorReply
    else KeyMissingReply
  }

  /** The reply text always tells the outcome's branch apart: no two branches
      can produce the same reply. */
  lemma {:induction false} ReplyRevealsOutcome(o: Outcome)
    ensures ClassifyReply(Render(o)) == KindOf(o)
  {
    var t := Render(o);
    match o
    case KeyMissing =>
      assert t[|Warning|] == "Error: API Key is missing."[0];
    case Valid(rep) =>
      var lines := ReportLines(rep);
      assert t == lines[0] + ("\n" + Text.JoinLines(lines[1..]));
    case Invalid =>
    case ApiError(raw) =>
      assert t[|Warning|] == "API Error Details: "[0];
    case SystemError(m) =>
      assert t[|Warning|] == "System Error: "[0];
  }
}
