/** The per-message pipeline of main.rs: configuration defaults, the
    response payload written back to Kafka, and the consent-gated choice
    between forwarding the MTB file and deleting the patient. The consumer
    loop, the producer and logging are not modelled; one call of
    `HandleMessage` is one turn of the loop for a message that was received. */
module App {
  import opened Outcomes
  import opened JsonValue
  import opened Text
  import opened AppErrors
  import MtbFile
  import Requests
  import opened BwhcClient

  // ---------------------------------------------------------------------
  // Configuration

  /** The environment variables main.rs reads for Kafka; `None` when unset or
      not valid Unicode, the two cases in which `env::var` fails. */
  datatype Env = Env(
    bootstrapServers: Option<string>,
    topic: Option<string>,
    responseTopic: Option<string>,
    groupId: Option<string>)

  datatype Config = Config(bootstrapServers: string, srcTopic: string, dstTopic: string, groupId: string)

  const DefaultBootstrapServers := "kafka:9092"
  const DefaultTopic := "etl-processor"
  const ResponseSuffix := "_response"
  const GroupSuffix := "_group"

  /** Each variable that is set is used as it is; an unset source topic is
      `etl-processor`, and an unset response topic or group id is the source
      topic with `_response` or `_group` appended. */
  function ConfigFromEnv(env: Env): (c: Config)
    ensures c.srcTopic == env.topic.UnwrapOr(DefaultTopic)
    ensures c.bootstrapServers == env.bootstrapServers.UnwrapOr(DefaultBootstrapServers)
    ensures env.responseTopic.Some? ==> c.dstTopic == env.responseTopic.value
    ensures env.responseTopic.None? ==> c.dstTopic == c.srcTopic + ResponseSuffix
    ensures env.groupId.Some? ==> c.groupId == env.groupId.value
    ensures env.groupId.None? ==> c.groupId == c.srcTopic + GroupSuffix
  {
    var src := env.topic.UnwrapOr(DefaultTopic);
    Config(
      env.bootstrapServers.UnwrapOr(DefaultBootstrapServers),
      src,
      env.responseTopic.UnwrapOr(src + ResponseSuffix),
      env.groupId.UnwrapOr(src + GroupSuffix))
  }

  /** With no Kafka variable set, the pipeline reads `etl-processor` and
      answers on `etl-processor_response`. */
  lemma DefaultConfig()
    ensures ConfigFromEnv(Env(None, None, None, None))
            == Config("kafka:9092", "etl-processor", "etl-processor_response", "etl-processor_group")
  {
  }

  /** A defaulted response topic or group id is never the source topic itself,
      and the source topic can be read back from it. */
  lemma DefaultNamesDifferFromSource(env: Env)
    ensures var c := ConfigFromEnv(env);
            && (env.responseTopic.None? ==> c.dstTopic != c.srcTopic && c.dstTopic[..|c.srcTopic|] == c.srcTopic)
            && (env.groupId.None? ==> c.groupId != c.srcTopic && c.groupId[..|c.srcTopic|] == c.srcTopic)
  {
  }

  // ---------------------------------------------------------------------
  // The response payload

  datatype KafkaResponsePayload = SuccessfulConnection(response: HttpResponse) | NoConnection

  const StatusCodeOpen := "{\"status_code\":"
  const StatusBodySeparator := ", \"status_body\":"
  const NoConnectionCode := 900
  const NoConnectionMessage := "No HTTP connection"

  /** The document `json!` builds for `NoConnection`. */
  function NoConnectionDocument(): Json {
    JObject(map[
      "status_code" := JNumber(NoConnectionCode),
      "status_body" := JObject(map[
        "issues" := JArray([JObject(map["severity" := JString("error"), "message" := JString(NoConnectionMessage)])])])])
  }

  /** The body spliced into a successful payload: the response body itself,
      or `{}` when it is empty or only whitespace. */
  function BodyOrEmptyObject(body: string): (r: string)
    ensures AllWhitespace(body) ==> r == "{}"
    ensures !AllWhitespace(body) ==> r == body
  {
    TrimEmptyIff(body);
    if Trim(body) == [] then "{}" else body
  }

  /** `KafkaResponsePayload::to_payload`. A successful connection is written
      with `format!` as exactly `{"status_code":<code>, "status_body":<body>}`,
      the body inserted as text without being parsed: reading the payload back
      gives the status code and the body verbatim (`{}` for a blank body). No
      connection is the fixed document turned into text by `render`, which
      stands for `Value::to_string` (a foreign call, so its key order is not
      modelled). */
  function ToPayload(p: KafkaResponsePayload, render: Json -> string): (r: string)
    ensures p.SuccessfulConnection? ==>
              ParseSuccessPayload(r) == Some((p.response.statusCode as nat, BodyOrEmptyObject(p.response.statusBody)))
    ensures p.NoConnection? ==> r == render(NoConnectionDocument())
  {
    match p
    case SuccessfulConnection(s) =>
      var digits, body := Decimal(s.statusCode), BodyOrEmptyObject(s.statusBody);
      ParseFramed(digits, body);
      DecimalRoundTrip(s.statusCode);
      StatusCodeOpen + digits + StatusBodySeparator + body + "}"
    case NoConnection => render(NoConnectionDocument())
  }

  /** Reads a successful-connection payload back into its status code and body. */
  function ParseSuccessPayload(t: string): Option<(nat, string)> {
    var n := |StatusCodeOpen|;
    if |t| < n + 1 || t[..n] != StatusCodeOpen || t[|t| - 1] != '}' then None
    else
      var rest := t[n..|t| - 1];
      var k := DigitSpan(rest);
      var m := |StatusBodySeparator|;
      if k == 0 || (k > 1 && rest[0] == '0') || |rest| < k + m || rest[k..k + m] != StatusBodySeparator then None
      else Some((DigitsValue(rest[..k]), rest[k + m..]))
  }

  /** Splitting `<digits><separator><body>` at the end of the digits. */
  lemma SplitAfterDigits(d: string, b: string)
    requires |d| > 0 && AllDigits(d)
    ensures var rest := d + StatusBodySeparator + b;
            var k, m := DigitSpan(rest), |StatusBodySeparator|;
            && k == |d| && |rest| >= k + m
            && rest[..k] == d && rest[k..k + m] == StatusBodySeparator && rest[k + m..] == b
  {
    var rest := d + StatusBodySeparator + b;
    assert rest == d + (StatusBodySeparator + b);
    DigitSpanOfDigitsThen(d, StatusBodySeparator + b);
  }

  /** Reading back any framed payload whose code is a non-empty run of digits. */
  lemma {:induction false} ParseFramed(d: string, b: string)
    requires |d| > 0 && AllDigits(d) && (|d| == 1 || d[0] != '0')
    ensures ParseSuccessPayload(StatusCodeOpen + d + StatusBodySeparator + b + "}") == Some((DigitsValue(d), b))
  {
    var inner := d + StatusBodySeparator + b;
    var t := StatusCodeOpen + d + StatusBodySeparator + b + "}";
    assert t == StatusCodeOpen + inner + "}";
    var n := |StatusCodeOpen|;
    assert t[..n] == StatusCodeOpen;
    assert t[n..|t| - 1] == inner;
    SplitAfterDigits(d, b);
  }

  /** The reader accepts nothing but the writer's own format: whatever it reads
      back as a status code and a body is `{"status_code":`, the code in decimal
      without leading zeros, `, "status_body":`, the body, and `}`. */
  lemma SuccessPayloadCanonical(t: string, code: nat, body: string)
    requires ParseSuccessPayload(t) == Some((code, body))
    ensures t == StatusCodeOpen + Decimal(code) + StatusBodySeparator + body + "}"
  {
    var n, m := |StatusCodeOpen|, |StatusBodySeparator|;
    var rest := t[n..|t| - 1];
    var k := DigitSpan(rest);
    DecimalOfDigits(rest[..k]);
    assert rest[..k] == Decimal(code) && rest[k..k + m] == StatusBodySeparator && rest[k + m..] == body;
    assert rest == rest[..k] + rest[k..k + m] + rest[k + m..];
    assert t[..n] == StatusCodeOpen && [t[|t| - 1]] == "}";
    assert t == t[..n] + rest + [t[|t| - 1]];
  }

  /** A blank body (empty or whitespace only) is written as `{}`; any other
      body is written unchanged. */
  lemma SuccessPayloadBody(r: HttpResponse, render: Json -> string)
    ensures AllWhitespace(r.statusBody) ==>
              ParseSuccessPayload(ToPayload(SuccessfulConnection(r), render)) == Some((r.statusCode as nat, "{}"))
    ensures !AllWhitespace(r.statusBody) ==>
              ParseSuccessPayload(ToPayload(SuccessfulConnection(r), render)) == Some((r.statusCode as nat, r.statusBody))
  {
  }

  /** `NoConnection` is the same document whatever happened before: status
      code 900 and one issue of severity "error" saying "No HTTP connection". */
  lemma NoConnectionPayload(render: Json -> string)
    ensures ToPayload(NoConnection, render) == render(NoConnectionDocument())
    ensures Member(NoConnectionDocument(), "status_code") == Some(JNumber(900))
    ensures var body := Member(NoConnectionDocument(), "status_body");
            && body.Some?
            && Member(body.value, "issues").Some?
            && Member(body.value, "issues").value.JArray?
            && var issues := Member(body.value, "issues").value.items;
            && |issues| == 1
            && Member(issues[0], "severity") == Some(JString("error"))
            && Member(issues[0], "message") == Some(JString("No HTTP connection"))
  {
  }

  /** The client's result as a payload: `Ok` is a successful connection
      carrying the response, any `Err` is no connection. */
  function PayloadFor(result: Result<HttpResponse, AppError>): (p: KafkaResponsePayload)
    ensures p.SuccessfulConnection? <==> result.Ok?
    ensures result.Ok? ==> p.response == result.value
  {
    match result
    case Ok(response) => SuccessfulConnection(response)
    case Err(_) => NoConnection
  }

  // ---------------------------------------------------------------------
  // The routing decision

  /** `payload_view::<str>()` / `key_view::<str>()`: absent, not UTF-8, or text. */
  datatype View = Absent | NotUtf8 | Utf8(s: string)

  /** The client operation chosen for a message. */
  datatype ClientCall = ForwardMtbFile(content: string) | DeletePatient(patientId: string)

  datatype KafkaRecord = KafkaRecord(topic: string, key: string, payload: string)

  /** Why a message produced no response (the warnings main.rs logs). */
  datatype SkipReason = UnusablePayload | UnusableKey | NoConsentDocument

  /** What handling one message did: the client calls it made, the HTTP
      requests built for the HTTP client, the records it published and, when it
      published nothing, why. */
  datatype Effects = Effects(
    calls: seq<ClientCall>,
    requests: seq<HttpRequest>,
    published: seq<KafkaRecord>,
    skipped: Option<SkipReason>)

  /** The consent decision: forward the raw message text when its
      `consent.status` is "active", otherwise delete the patient its
      `consent.patient` names; nothing when the message does not decode as an
      MTB file with consent. */
  function Decide(s: string, parse: string -> Option<Json>): (r: Option<ClientCall>)
    ensures r.None? <==> MtbFile.FromStr(s, parse).Err?
    ensures r.Some? ==>
              var consent := MtbFile.FromStr(s, parse).value.consent;
              r.value == if consent.status == MtbFile.Active then ForwardMtbFile(s) else DeletePatient(consent.patient)
  {
    match MtbFile.FromStr(s, parse)
    case Ok(withConsent) =>
      if withConsent.HasConsent() then Some(ForwardMtbFile(s)) else Some(DeletePatient(withConsent.PatientId()))
    case Err(_) => None
  }

  /** The decision read off the message itself: it forwards exactly when the
      message's `consent.status` is "active", and otherwise deletes the patient
      its `consent.patient` names. */
  lemma DecideFollowsMessage(s: string, parse: string -> Option<Json>)
    requires Decide(s, parse).Some?
    ensures (Decide(s, parse).value == ForwardMtbFile(s))
              == (MtbFile.WireStatus(parse(s).value) == Some(JString("active")))
    ensures Decide(s, parse).value.DeletePatient? ==>
              MtbFile.WirePatient(parse(s).value) == Some(JString(Decide(s, parse).value.patientId))
  {
  }

  /** Runs the chosen client call against the abstract transport outcome. */
  function Invoke(call: ClientCall, uri: Option<string>, exchange: Exchange): ClientOutcome {
    match call
    case ForwardMtbFile(content) => SendMtbFile(uri, content, exchange)
    case DeletePatient(patientId) => SendDelete(uri, patientId, exchange)
  }

  function OptionToSeq<T>(o: Option<T>): seq<T> {
    match o
    case Some(v) => [v]
    case None => []
  }

  /** Makes the chosen call and publishes its response under the inbound key. */
  function Dispatch(call: ClientCall, k: string, dstTopic: string, render: Json -> string,
                    uri: Option<string>, exchange: Exchange): Effects
  {
    var outcome := Invoke(call, uri, exchange);
    var record := KafkaRecord(dstTopic, k, ToPayload(PayloadFor(outcome.result), render));
    Effects([call], OptionToSeq(outcome.attempted), [record], None)
  }

  /** One received message, main.rs's loop body. A response is published
      exactly when payload and key are UTF-8 text and the payload decodes as an
      MTB file with consent; then exactly one client call is made and exactly
      one record is published, to the response topic, under the inbound key.
      Otherwise nothing is called or published and the reason is recorded:
      the payload is checked first, then the key, then the decoding. */
  function HandleMessage(
    payload: View, key: View, dstTopic: string,
    parse: string -> Option<Json>, render: Json -> string,
    uri: Option<string>, exchange: Exchange): (e: Effects)
    ensures |e.calls| == |e.published| <= 1
    ensures |e.requests| <= |e.calls|
    ensures e.published != [] <==> payload.Utf8? && key.Utf8? && MtbFile.FromStr(payload.s, parse).Ok?
    ensures e.published == [] <==> e.skipped.Some?
    ensures e.published != [] ==> e.published[0].topic == dstTopic && e.published[0].key == key.s
    ensures !payload.Utf8? ==> e.skipped == Some(UnusablePayload)
    ensures payload.Utf8? && !key.Utf8? ==> e.skipped == Some(UnusableKey)
    ensures payload.Utf8? && key.Utf8? && e.published == [] ==> e.skipped == Some(NoConsentDocument)
  {
    match payload
    case Utf8(s) =>
      (match key
       case Utf8(k) =>
         (match Decide(s, parse)
          case Some(call) => Dispatch(call, k, dstTopic, render, uri, exchange)
          case None => Effects([], [], [], Some(NoConsentDocument)))
       case _ => Effects([], [], [], Some(UnusableKey)))
    case _ => Effects([], [], [], Some(UnusablePayload))
  }

  /** Active consent: `send_mtb_file` is called once with the raw message
      text, unchanged, and `send_delete` is not called. */
  lemma ActiveConsentForwardsMessage(
    s: string, k: string, dstTopic: string, parse: string -> Option<Json>, render: Json -> string,
    uri: Option<string>, exchange: Exchange)
    requires MtbFile.FromStr(s, parse).Ok? && MtbFile.FromStr(s, parse).value.consent.status == MtbFile.Active
    ensures var e := HandleMessage(Utf8(s), Utf8(k), dstTopic, parse, render, uri, exchange);
            && e.calls == [ForwardMtbFile(s)]
            && e.requests == (if uri.Some? then [MtbFileRequest(uri.value, s)] else [])
            && e.published == [KafkaRecord(dstTopic, k, ToPayload(PayloadFor(SendMtbFile(uri, s, exchange).result), render))]
  {
    assert Decide(s, parse) == Some(ForwardMtbFile(s));
  }

  /** Rejected consent: `send_delete` is called once with the decoded patient
      id, and `send_mtb_file` is not called. */
  lemma RejectedConsentDeletesPatient(
    s: string, k: string, dstTopic: string, parse: string -> Option<Json>, render: Json -> string,
    uri: Option<string>, exchange: Exchange)
    requires MtbFile.FromStr(s, parse).Ok? && MtbFile.FromStr(s, parse).value.consent.status == MtbFile.Rejected
    ensures var patient := MtbFile.FromStr(s, parse).value.consent.patient;
            var e := HandleMessage(Utf8(s), Utf8(k), dstTopic, parse, render, uri, exchange);
            && e.calls == [DeletePatient(patient)]
            && e.requests == (if uri.Some? then [DeleteRequest(uri.value, patient)] else [])
            && e.published == [KafkaRecord(dstTopic, k, ToPayload(PayloadFor(SendDelete(uri, patient, exchange).result), render))]
  {
    var patient := MtbFile.FromStr(s, parse).value.consent.patient;
    assert Decide(s, parse) == Some(DeletePatient(patient));
  }

  /** Whatever the call, a missing base URI or a failed transport is answered
      with the no-connection payload, and a completed exchange with a
      successful-connection payload carrying its status. */
  lemma ResponseFollowsClientResult(
    s: string, k: string, dstTopic: string, parse: string -> Option<Json>, render: Json -> string,
    uri: Option<string>, exchange: Exchange)
    requires MtbFile.FromStr(s, parse).Ok?
    ensures var e := HandleMessage(Utf8(s), Utf8(k), dstTopic, parse, render, uri, exchange);
            && |e.published| == 1
            && (uri.None? || exchange.TransportFailed? ==> e.published[0].payload == render(NoConnectionDocument()))
            && (uri.Some? && exchange.Completed? ==>
                  ParseSuccessPayload(e.published[0].payload)
                    == Some((exchange.status as nat, BodyOrEmptyObject(exchange.text.UnwrapOr("")))))
  {
    var call := Decide(s, parse).value;
    assert Decide(s, parse) == Some(call);
    InvokeResult(call, uri, exchange);
    var record := KafkaRecord(dstTopic, k, ToPayload(PayloadFor(Invoke(call, uri, exchange).result), render));
    assert HandleMessage(Utf8(s), Utf8(k), dstTopic, parse, render, uri, exchange).published == [record];
  }

  /** Either call fails without a base URI or on a failed transport, and
      returns the exchange's status and body (or "") when it completes. */
  lemma InvokeResult(call: ClientCall, uri: Option<string>, exchange: Exchange)
    ensures uri.None? || exchange.TransportFailed? ==> Invoke(call, uri, exchange).result.Err?
    ensures uri.Some? && exchange.Completed? ==>
              Invoke(call, uri, exchange).result == Ok(HttpResponse(exchange.status, exchange.text.UnwrapOr("")))
  {
  }

  /** The routing decodes the whole message as an MTB file, not as a request
      envelope: a message `can_parse` accepts but which has no top-level
      `consent` is dropped without a call or a response. */
  lemma EnvelopeWithoutTopLevelConsentIsDropped(
    s: string, k: string, dstTopic: string, parse: string -> Option<Json>, render: Json -> string,
    uri: Option<string>, exchange: Exchange)
    requires Requests.CanParse(s, parse)
    requires MtbFile.ConsentKey !in parse(s).value.members
    ensures var e := HandleMessage(Utf8(s), Utf8(k), dstTopic, parse, render, uri, exchange);
            e.calls == [] && e.published == [] && e.skipped == Some(NoConsentDocument)
  {
  }

  /** Conversely, a bare MTB file with consent is dispatched although it is
      not a request envelope. */
  lemma BareMtbFileIsDispatched(
    s: string, k: string, dstTopic: string, parse: string -> Option<Json>, render: Json -> string,
    uri: Option<string>, exchange: Exchange, f: MtbFile.MtbFileWithConsent, consentExtra: map<string, Json>)
    requires parse(s) == Some(MtbFile.Encode(f, map[], consentExtra))
    ensures !Requests.CanParse(s, parse)
    ensures |HandleMessage(Utf8(s), Utf8(k), dstTopic, parse, render, uri, exchange).published| == 1
  {
    MtbFile.DecodeEncode(f, map[], consentExtra);
  }
}
