# Consent-gated dispatch of MTB files from Kafka to the bwHC registry

This project models, in Dafny, the decision logic of `kafka-to-bwhc`, a
service that reads MTB (molecular tumour board) files from a Kafka topic and
passes them on to the bwHC REST registry. For each message it:

- decodes the message as an MTB file with a consent (`consent.status` is
  `"active"` or `"rejected"`, and `consent.patient` is a string);
- when consent is active, POSTs the unchanged message text to `<uri>/MTBFile`;
- otherwise sends DELETE to `<uri>/MTBFile/<patient>`;
- publishes one response record to the response topic under the inbound key.

The response record is `{"status_code":<code>, "status_body":<body>}` when
the HTTP exchange completed. When there was no connection it is a fixed
document with code 900.

Files, one module each:

- `outcomes.dfy` (`Outcomes`): `Option` and `Result`.
- `json.dfy` (`JsonValue`): a JSON document as a value.
- `text.dfy` (`Text`): Rust's whitespace and `trim`, the decimal text of a
  number and how to read it back.
- `app_error.dfy` (`AppErrors`): `AppError` and its `Display` text.
- `mtbfile.dfy` (`MtbFile`): `MTBFileWithConsent`, `Consent`, `Status`, the
  derived decoder and an encoder that is its inverse.
- `request.dfy` (`Requests`): the `Request` envelope with the `requestId`
  alias, `can_parse` and the accessors, plus an encoder that is its inverse.
- `bwhc_client.dfy` (`BwhcClient`): the requests `send_mtb_file` and
  `send_delete` build, and how their outcome maps to `Ok` or `Err`. It also
  reads each request's URL string, without URL parsing, back into the
  registry operation it names.
- `app.dfy` (`App`): configuration defaults, `KafkaResponsePayload::to_payload`
  and a reader for its output, the consent decision, and the handling of one
  message.

Everything is a pure function. Effects are stated through the `Effects`
value that `App.HandleMessage` returns. It lists the client calls made, the
HTTP requests built for reqwest's client, and the records published.

Foreign code becomes a parameter:

- JSON text parsing is `parse: string -> Option<Json>`.
- `Value::to_string` is `render: Json -> string`.
- The `APP_REST_URI` variable is `uri: Option<string>`.
- The outcome of the HTTP exchange is an `Exchange` value chosen by the caller.

Behaviour of the code worth stating outright:

- The loop in `src/main.rs` decodes the whole message as an MTB file with
  consent. It does not go through the `Request` envelope. An envelope
  `{"request_id": ..., "content": {...}}` that `can_parse` accepts is dropped
  unless it also has a top-level `consent` (`App.EnvelopeWithoutTopLevelConsentIsDropped`).
  A bare MTB file is dispatched although it is not an envelope (`App.BareMtbFileIsDispatched`).
- The response carries no `request_id`.
- The downstream body is spliced in as text, without being parsed or validated.
- The code does not require the request id to be non-empty.
- `HttpResponse::status_code` is any `u16`, so a downstream status of 900
  cannot be told apart from the no-connection sentinel by its code alone.

## Model

| member | source | states |
|---|---|---|
| `MtbFile.DecodeStatus` | src/resources/mtbfile.rs:56-62 | a status decodes exactly when it is the string "active" or "rejected", and it is the status whose renamed literal it is; anything else is an error, not a third state |
| `MtbFile.Decode` | src/resources/mtbfile.rs:24-62 | the derived decoder succeeds exactly on documents whose `consent` has a `status` that is one of the two literals and a string `patient`, and returns the status and patient written there |
| `MtbFile.FromStr` | src/resources/mtbfile.rs:39-48 | `from_str` is `Ok` exactly when the text parses to such a consent document, and `Err(())` otherwise; the status and patient it returns are those written in the text |
| `MtbFile.DecodeEncode` | src/resources/mtbfile.rs:24-62 | every document carrying a consent object with a status literal and a string patient decodes to that consent, whatever other members (such as `consent.id`) it has |
| `MtbFile.DecodeOnlyEncoded` | src/resources/mtbfile.rs:39-62 | a document that decodes is an encoded consent document; together with `DecodeEncode`, decoding succeeds exactly on such documents |
| `MtbFile.UnknownStatusFails` | src/resources/mtbfile.rs:56-62 | a consent status that is not one of the two literals makes the document fail to decode |
| `MtbFile.MtbFileWithConsent.HasConsent` | src/resources/mtbfile.rs:30-32 | `has_consent` holds exactly for the status whose wire literal is "active" |
| `MtbFile.HasConsentIffActiveLiteral` | src/resources/mtbfile.rs:30-32 | `has_consent` of a decoded document holds exactly when its wire status is "active" |
| `MtbFile.PatientIdVerbatim` | src/resources/mtbfile.rs:34-36 | `patient_id` of a decoded document is its wire `consent.patient`, unchanged |
| `MtbFile.SampleDocumentsDecode` | src/resources/mtbfile.rs:70-102 | the test documents, with an extra `id` in the consent, decode under either status |
| `Requests.Decode` | src/resources/request.rs:26-44 | the derived decoder succeeds exactly on objects with a `content` member and a string id under exactly one of the two spellings, and returns that id and that content unchanged |
| `Requests.FromStr` | src/resources/request.rs:36-45 | `from_str` is `Ok` exactly when the text parses to such an envelope; the id and the content it returns are those written in the text |
| `Requests.RequestIdWhicheverSpelling` | src/resources/request.rs:58-60 | `request_id()` of a decoded envelope is the string under `request_id` or under `requestId`, unchanged |
| `Requests.DecodeEncode` | src/resources/request.rs:26-44 | an envelope with a string id under either spelling and a `content` decodes to that id and content; `request_id()` returns the id unchanged |
| `Requests.BothSpellingsCannotParse` | src/resources/request.rs:26-31 | a document carrying both `request_id` and `requestId` fails `from_str` and `can_parse`, as the derived decoder reports the second as a duplicate of the first |
| `Requests.AliasAcceptedLikeRequestId` | src/resources/request.rs:29-30 | an envelope using `requestId` decodes exactly like the same envelope using `request_id` |
| `Requests.DecodeOnlyEncoded` | src/resources/request.rs:26-44 | a document that decodes is an encoded envelope with the one spelling it uses |
| `Requests.MissingFieldCannotParse` | src/resources/request.rs:49-56 | without either id field, or without `content`, the envelope fails to decode and `can_parse` is false |
| `Requests.CanParse` | src/resources/request.rs:49-56 | `can_parse` holds exactly when the envelope decodes and its content is a consent document |
| `Requests.CanParseAcceptsConsentEnvelopes` | src/resources/request.rs:49-56 | `can_parse` holds for every envelope whose content is a consent document |
| `Requests.CanParseOnlyConsentEnvelopes` | src/resources/request.rs:49-56 | a document `can_parse` accepts is such an envelope, with its content a consent document |
| `Requests.Request.HasConsent` | src/resources/request.rs:66-71 | `has_consent` holds exactly when the content is a consent document with status "active"; it is false for a rejected status, and for content without a consent object, with a status outside the two literals, or with a non-string patient |
| `Requests.Request.PatientId` | src/resources/request.rs:73-78 | `patient_id` is the content's `consent.patient` string when the content is a consent document, and "" otherwise |
| `Requests.AccessorsOfEncodedContent` | src/resources/request.rs:66-78 | for content that decodes, `has_consent` is the status being Active and `patient_id` is the consent's patient |
| `Requests.SampleEnvelopes` | src/resources/request.rs:87-246 | the test envelopes decode under either spelling, with the expected id and consent; without an id or without content they do not |
| `BwhcClient.Perform` | src/bwhc_client.rs:42-48 | a completed exchange is `Ok` with its status, whatever its class, and its body or "" when the body cannot be read; a transport failure is `HttpError` with its text |
| `BwhcClient.SendMtbFile` | src/bwhc_client.rs:33-49 | without a base URI, `MissingConfig` and no request; otherwise exactly the POST to `<uri>/MTBFile` with the content as body; `Ok` exactly when the exchange completed, with its status and its body or "" |
| `BwhcClient.SendDelete` | src/bwhc_client.rs:51-66 | without a base URI, `MissingConfig` and no request; otherwise exactly the body-less DELETE to `<uri>/MTBFile/<patient>`; `Ok` exactly when the exchange completed, with its status and its body or "" |
| `BwhcClient.MtbFileRequestUpserts` | src/bwhc_client.rs:37-40 | the POST request addresses `<uri>/MTBFile` and upserts exactly the given content |
| `BwhcClient.DeleteRequestRemoves` | src/bwhc_client.rs:55-57 | the DELETE URL is the string `<uri>/MTBFile/` followed by the patient id as it is, and the request has no body |
| `BwhcClient.CompletedExchangeIsOk` | src/bwhc_client.rs:44-48 | any completed exchange, whatever its status class, is `Ok` with that status and its body; an unreadable body is "" |
| `AppErrors.Display` | src/main.rs:76-84 | the text is the variant's prefix followed by the message unchanged |
| `AppErrors.DisplayInjective` | src/main.rs:76-84 | two errors with the same text are the same error |
| `App.ConfigFromEnv` | src/main.rs:142-145 | each set variable is used as is; the source topic defaults to `etl-processor`, the response topic and group id to the source topic plus `_response` or `_group` |
| `App.DefaultConfig` | src/main.rs:142-145 | with nothing set: `kafka:9092`, `etl-processor`, `etl-processor_response`, `etl-processor_group` |
| `App.DefaultNamesDifferFromSource` | src/main.rs:144-145 | a defaulted response topic or group id differs from the source topic and starts with it |
| `Text.TrimEmptyIff` | src/main.rs:97 | `trim().is_empty()` holds exactly when every character is Unicode whitespace |
| `Text.Decimal` | src/main.rs:95-96 | the status code is written as at least one digit, with a leading zero only for 0 |
| `Text.DecimalRoundTrip` | src/main.rs:95-96 | the written digits denote the status code |
| `App.BodyOrEmptyObject` | src/main.rs:97-101 | a blank body becomes `{}`, any other body is kept verbatim |
| `App.ToPayload` | src/main.rs:91-114 | a successful connection is `{"status_code":<code>, "status_body":<body>}` as read by a reader that accepts only that format: reading it back gives the status code and the body verbatim, or `{}` for a blank body; no connection is the rendered fixed document |
| `App.SuccessPayloadCanonical` | src/main.rs:94-102 | whatever the reader accepts is exactly `{"status_code":`, the code in decimal without leading zeros, `, "status_body":`, the body and `}` |
| `App.SuccessPayloadBody` | src/main.rs:97-101 | read back from the payload, a blank body is `{}` and any other body is the response body unchanged |
| `App.NoConnectionPayload` | src/main.rs:103-111 | no connection is the rendered fixed document with status code 900 and one issue of severity "error" and message "No HTTP connection" |
| `App.PayloadFor` | src/main.rs:174-190 | an `Ok` client result is a successful connection carrying that response; any `Err` is no connection |
| `App.Decide` | src/main.rs:172-193 | no call exactly when the message does not decode; otherwise `send_mtb_file` with the raw text when consent is Active and `send_delete` with the decoded patient id when it is Rejected |
| `App.DecideFollowsMessage` | src/main.rs:172-190 | the decision read off the message itself: it forwards exactly when the message's `consent.status` is "active", and otherwise deletes the patient its `consent.patient` names |
| `App.HandleMessage` | src/main.rs:168-199 | a response is published exactly when payload and key are UTF-8 text and the payload decodes; then one call and one record, to the response topic, under the inbound key; otherwise no call, no record, and a skip reason: an unusable payload first, then an unusable key, then a message that does not decode |
| `App.ActiveConsentForwardsMessage` | src/main.rs:172-181 | Active consent: one `send_mtb_file` with the unchanged message, no `send_delete`, and one response built from its result |
| `App.RejectedConsentDeletesPatient` | src/main.rs:182-190 | Rejected consent: one `send_delete` with the decoded patient id, no `send_mtb_file`, and one response built from its result |
| `App.InvokeResult` | src/main.rs:174-190 | either client call fails without a base URI or on a failed transport, and returns the exchange's status and body (or "") when it completes |
| `App.ResponseFollowsClientResult` | src/main.rs:174-190 | a missing URI or a failed transport is answered with the no-connection document; a completed exchange with a payload carrying its status and body |
| `App.EnvelopeWithoutTopLevelConsentIsDropped` | src/main.rs:172-194 | an envelope that `can_parse` accepts but that has no top-level `consent` gets no call and no response |
| `App.BareMtbFileIsDispatched` | src/main.rs:172-191 | a bare consent document is not an envelope, yet it gets one response |

## Left out

- The Kafka consumer and producer, the rebalance and commit callbacks, the endless `recv` loop, and `send_kafka_response` with its one-second timeout. These are broker I/O. A published record is the `KafkaRecord` in `Effects`; whether the broker accepts it is not modelled.
- The HTTP transport, its five-second timeout and the async runtime. The outcome of the exchange is the `Exchange` parameter. The timeout is recorded in the request descriptor only.
- Reading environment variables, and the startup panic when `APP_REST_URI` is missing. Both are startup configuration. Values are passed in as parameters. A variable whose value is not valid Unicode is treated like an unset one, as `env::var` fails in both cases; for `APP_REST_URI` the two give different error texts, and the model uses the text for a missing variable.
- JSON text parsing and `Value::to_string`. These are foreign library calls and appear as the `parse` and `render` parameters. Several consequences follow:
  - A document with a repeated key cannot be represented.
  - JSON numbers are integers.
  - The key order of the no-connection document is not specified.
  - `content_string` followed by `from_str` is taken to give back the same value. So `Requests.Request.HasConsent`, `PatientId` and `CanParse` decode the content value directly, and `content_string` itself has no member.
- The other forms serde accepts for a derived struct or enum: a struct written as a JSON array of its fields, and a status written as `{"active": null}`.
- BwhcClient.DeleteRequestRemoves: URL parsing is not modelled. The patient id is inserted into the URL unescaped, so when reqwest parses the URL, an id containing `/`, `?`, `#` or `%`, or an id of `.` or `..`, addresses a different path than `<uri>/MTBFile/<id>`. The lemma and `BwhcClient.OperationOf` read the raw URL string only. A base URI that does not parse as a URL makes `send()` fail before anything is sent; the model still records the request built, and the failure is one of the `TransportFailed` outcomes (`HttpError`).
- Logging. The log messages appear only as the reason in `Effects.skipped`.
- The `ConnectionError` raised when subscribing to the topic at startup. `AppError` keeps that variant, but no modelled operation produces it.
