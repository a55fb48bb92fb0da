/** The request envelope (resources/request.rs): a correlation id, accepted
    as `request_id` or under the alias `requestId`, and an opaque `content`.
    The accessors decode `content` as an MTB file with consent; printing the
    content and parsing the text again (`content_string` then `from_str`) is
    taken to give back the same value, so they decode the value directly. */
module Requests {
  import opened Outcomes
  import opened JsonValue
  import MtbFile

  const RequestIdKey := "request_id"
  const RequestIdAlias := "requestId"
  const ContentKey := "content"

  datatype Request = Request(requestId: string, content: Json) {

    /** `Request::request_id` */
    function RequestId(): string {
      requestId
    }

    /** `Request::has_consent`: true exactly when the content is a consent
        document whose status is "active"; false for a rejected consent and
        for content without a well-formed consent. */
    function HasConsent(): (b: bool)
      ensures b <==> MtbFile.IsConsentDocument(content) && MtbFile.WireStatus(content) == Some(JString("active"))
    {
      match MtbFile.Decode(content)
      case Ok(f) => f.HasConsent()
      case Err(_) => false
    }

    /** `Request::patient_id`: the content's `consent.patient`, or the empty
        string when the content is not a consent document. */
    function PatientId(): (p: string)
      ensures MtbFile.IsConsentDocument(content) ==> MtbFile.WirePatient(content) == Some(JString(p))
      ensures !MtbFile.IsConsentDocument(content) ==> p == ""
    {
      match MtbFile.Decode(content)
      case Ok(f) => f.PatientId()
      case Err(_) => ""
    }
  }

  /** The value of the correlation-id field under the one spelling the
      document uses. The derived decoder maps both spellings to the same
      field and rejects a second occurrence of it (serde's `duplicate_field`
      error), so a document carrying both has no usable id. */
  function IdMember(m: map<string, Json>): (r: Option<Json>)
    ensures r.Some? <==> (RequestIdKey in m) != (RequestIdAlias in m)
    ensures r.Some? ==> r.value == if RequestIdKey in m then m[RequestIdKey] else m[RequestIdAlias]
  {
    if RequestIdKey in m && RequestIdAlias in m then None
    else if RequestIdKey in m then Some(m[RequestIdKey])
    else if RequestIdAlias in m then Some(m[RequestIdAlias])
    else None
  }

  /** What the derived decoder of `Request` accepts: an object with a `content`
      member of any shape and a string id under exactly one spelling. */
  predicate IsEnvelope(doc: Json) {
    && doc.JObject? && ContentKey in doc.members
    && IdMember(doc.members).Some? && IdMember(doc.members).value.JString?
  }

  /** The derived decoder of `Request`, applied to a parsed document: an
      object with a string id and a `content` member of any shape, both of
      which it returns unchanged. */
  function Decode(doc: Json): (r: Result<Request, ()>)
    ensures r.Ok? <==> IsEnvelope(doc)
    ensures r.Ok? ==> r.value == Request(IdMember(doc.members).value.s, doc.members[ContentKey])
  {
    match doc
    case JObject(m) =>
      (match IdMember(m)
       case Some(JString(id)) => if ContentKey in m then Ok(Request(id, m[ContentKey])) else Err(())
       case _ => Err(()))
    case _ => Err(())
  }

  /** `Request::from_str`: JSON text parsing (`parse`, a foreign call) and the
      derived decoder. On success the id and the content are those written in
      the text. */
  function FromStr(s: string, parse: string -> Option<Json>): (r: Result<Request, ()>)
    ensures parse(s).None? ==> r.Err?
    ensures r.Ok? <==> parse(s).Some? && IsEnvelope(parse(s).value)
    ensures r.Ok? ==> IdMember(parse(s).value.members) == Some(JString(r.value.requestId))
    ensures r.Ok? ==> Member(parse(s).value, ContentKey) == Some(r.value.content)
  {
    match parse(s)
    case Some(doc) => Decode(doc)
    case None => Err(())
  }

  /** `Request::can_parse`: the envelope decodes and its content is a consent document. */
  function CanParse(s: string, parse: string -> Option<Json>): (b: bool)
    ensures b <==> FromStr(s, parse).Ok? && MtbFile.IsConsentDocument(FromStr(s, parse).value.content)
  {
    match FromStr(s, parse)
    case Ok(request) => MtbFile.Decode(request.content).Ok?
    case Err(_) => false
  }

  datatype IdSpelling = Snake | Camel

  function IdKey(spelling: IdSpelling): string {
    match spelling
    case Snake => RequestIdKey
    case Camel => RequestIdAlias
  }

  /** An envelope carrying `r` with its id under `spelling`, beside arbitrary other members. */
  function Encode(r: Request, spelling: IdSpelling, extra: map<string, Json>): Json {
    JObject(extra[IdKey(spelling) := JString(r.requestId)][ContentKey := r.content])
  }

  /** Either spelling decodes to the same request, whose `request_id()` is the
      encoded id unchanged and whose content is the encoded content. */
  lemma DecodeEncode(r: Request, spelling: IdSpelling, extra: map<string, Json>)
    requires RequestIdKey !in extra && RequestIdAlias !in extra
    ensures Decode(Encode(r, spelling, extra)) == Ok(r)
    ensures Decode(Encode(r, spelling, extra)).value.RequestId() == r.requestId
  {
  }

  /** `request_id()` of a decoded envelope is the string the document carries
      under one of the two spellings, unchanged. */
  lemma RequestIdWhicheverSpelling(doc: Json)
    requires Decode(doc).Ok?
    ensures var id := Decode(doc).value.RequestId();
            Member(doc, RequestIdKey) == Some(JString(id)) || Member(doc, RequestIdAlias) == Some(JString(id))
  {
  }

  /** The alias is accepted exactly like `request_id`. */
  lemma AliasAcceptedLikeRequestId(r: Request, extra: map<string, Json>)
    requires RequestIdKey !in extra && RequestIdAlias !in extra
    ensures Decode(Encode(r, Camel, extra)) == Decode(Encode(r, Snake, extra))
  {
    DecodeEncode(r, Camel, extra);
    DecodeEncode(r, Snake, extra);
  }

  /** The spelling a document with at most one id field uses. */
  function SpellingOf(m: map<string, Json>): IdSpelling {
    if RequestIdKey in m then Snake else Camel
  }

  /** Nothing but an encoded envelope decodes: a decoding document is its
      request encoded over its other members, which hold neither id key. */
  lemma DecodeOnlyEncoded(doc: Json)
    requires Decode(doc).Ok?
    ensures doc == Encode(Decode(doc).value, SpellingOf(doc.members), doc.members - {RequestIdKey, RequestIdAlias})
  {
    var m := doc.members;
    var r := Decode(doc).value;
    assert (m - {RequestIdKey, RequestIdAlias})[IdKey(SpellingOf(m)) := JString(r.requestId)][ContentKey := r.content] == m;
  }

  /** Without either id field, or without `content`, the envelope does not decode
      and `can_parse` is false. */
  lemma MissingFieldCannotParse(s: string, parse: string -> Option<Json>)
    requires parse(s).Some? && parse(s).value.JObject?
    requires var m := parse(s).value.members;
             (RequestIdKey !in m && RequestIdAlias !in m) || ContentKey !in m
    ensures FromStr(s, parse).Err? && !CanParse(s, parse)
  {
  }

  /** A document carrying both spellings of the id fails `from_str`, and so
      `can_parse`, whatever else it holds. */
  lemma BothSpellingsCannotParse(s: string, parse: string -> Option<Json>)
    requires parse(s).Some? && parse(s).value.JObject?
    requires RequestIdKey in parse(s).value.members && RequestIdAlias in parse(s).value.members
    ensures FromStr(s, parse).Err? && !CanParse(s, parse)
  {
  }

  /** `can_parse` accepts every envelope whose content is an encoded MTB file with consent. */
  lemma CanParseAcceptsConsentEnvelopes(
    s: string, parse: string -> Option<Json>, id: string, f: MtbFile.MtbFileWithConsent,
    spelling: IdSpelling, extra: map<string, Json>, contentExtra: map<string, Json>, consentExtra: map<string, Json>)
    requires RequestIdKey !in extra && RequestIdAlias !in extra
    requires parse(s) == Some(Encode(Request(id, MtbFile.Encode(f, contentExtra, consentExtra)), spelling, extra))
    ensures CanParse(s, parse)
  {
    DecodeEncode(Request(id, MtbFile.Encode(f, contentExtra, consentExtra)), spelling, extra);
    MtbFile.DecodeEncode(f, contentExtra, consentExtra);
  }

  /** ... and nothing else: a document `can_parse` accepts is such an envelope. */
  lemma CanParseOnlyConsentEnvelopes(s: string, parse: string -> Option<Json>)
    requires CanParse(s, parse)
    ensures var doc := parse(s).value;
            var r := Decode(doc).value;
            var content := r.content;
            && content.JObject? && MtbFile.ConsentKey in content.members
            && content.members[MtbFile.ConsentKey].JObject?
            && doc == Encode(
                 Request(r.requestId, MtbFile.Encode(MtbFile.Decode(content).value, content.members,
                                                     content.members[MtbFile.ConsentKey].members)),
                 SpellingOf(doc.members), doc.members - {RequestIdKey, RequestIdAlias})
  {
    var doc := parse(s).value;
    DecodeOnlyEncoded(doc);
    MtbFile.DecodeOnlyEncoded(Decode(doc).value.content);
  }

  /** For an encoded content, `has_consent` is its status being active and
      `patient_id` is its patient. */
  lemma AccessorsOfEncodedContent(id: string, f: MtbFile.MtbFileWithConsent, contentExtra: map<string, Json>, consentExtra: map<string, Json>)
    ensures var r := Request(id, MtbFile.Encode(f, contentExtra, consentExtra));
            (r.HasConsent() <==> f.consent.status == MtbFile.Active) && r.PatientId() == f.consent.patient
  {
    MtbFile.DecodeEncode(f, contentExtra, consentExtra);
  }

  function SampleContent(status: MtbFile.Status): Json {
    JObject(map[MtbFile.ConsentKey := JObject(map[
      "id" := JString("TESTID1234"),
      MtbFile.PatientKey := JString("TESTPATIENT1234"),
      MtbFile.StatusKey := JString(MtbFile.StatusLiteral(status))])])
  }

  /** The envelopes of the source's unit tests, under either spelling. */
  lemma SampleEnvelopes(spelling: IdSpelling, status: MtbFile.Status)
    ensures var doc := JObject(map[IdKey(spelling) := JString("request0123456789"), ContentKey := SampleContent(status)]);
            && Decode(doc).Ok?
            && Decode(doc).value.RequestId() == "request0123456789"
            && (Decode(doc).value.HasConsent() <==> status == MtbFile.Active)
            && MtbFile.Decode(Decode(doc).value.content).Ok?
    ensures Decode(JObject(map[ContentKey := SampleContent(status)])).Err?
    ensures Decode(JObject(map[RequestIdAlias := JString("test123456789")])).Err?
  {
  }
}
