/** The consent part of an MTB file (resources/mtbfile.rs): the only fields
    the router looks at are `consent.status` and `consent.patient`. Every
    other member of the document is ignored by the derived decoder. */
module MtbFile {
  import opened Outcomes
  import opened JsonValue

  const ConsentKey := "consent"
  const StatusKey := "status"
  const PatientKey := "patient"

  datatype Status = Active | Rejected

  datatype Consent = Consent(status: Status, patient: string)

  datatype MtbFileWithConsent = MtbFileWithConsent(consent: Consent) {

    /** `MTBFileWithConsent::has_consent`: true exactly for the status whose
        wire literal is "active". */
    function HasConsent(): (b: bool)
      ensures b <==> StatusLiteral(consent.status) == "active"
    {
      consent.status == Active
    }

    /** `MTBFileWithConsent::patient_id` */
    function PatientId(): string {
      consent.patient
    }
  }

  /** The wire names given by `#[serde(rename = ...)]`. */
  function StatusLiteral(s: Status): string {
    match s
    case Active => "active"
    case Rejected => "rejected"
  }

  /** Decoding of `Status`: exactly the two renamed literals are accepted,
      anything else is an error, never a third state. */
  function DecodeStatus(v: Json): (r: Result<Status, ()>)
    ensures r.Ok? <==> v == JString("active") || v == JString("rejected")
    ensures r.Ok? ==> v == JString(StatusLiteral(r.value))
  {
    match v
    case JString(lit) =>
      if lit == "active" then Ok(Active)
      else if lit == "rejected" then Ok(Rejected)
      else Err(())
    case _ => Err(())
  }

  /** Decoding of `Consent`: an object with a `status` and a string `patient`. */
  function DecodeConsent(v: Json): Result<Consent, ()> {
    match v
    case JObject(m) =>
      if StatusKey !in m || PatientKey !in m then Err(())
      else
        (match (DecodeStatus(m[StatusKey]), m[PatientKey])
         case (Ok(status), JString(patient)) => Ok(Consent(status, patient))
         case _ => Err(()))
    case _ => Err(())
  }

  /** The `consent.status` member of a document, if it has one. */
  function WireStatus(doc: Json): Option<Json> {
    match Member(doc, ConsentKey)
    case Some(consent) => Member(consent, StatusKey)
    case None => None
  }

  /** The `consent.patient` member of a document, if it has one. */
  function WirePatient(doc: Json): Option<Json> {
    match Member(doc, ConsentKey)
    case Some(consent) => Member(consent, PatientKey)
    case None => None
  }

  /** What the derived decoder demands of a document, read off its members:
      a `consent` whose `status` is one of the two literals and whose
      `patient` is a string. */
  predicate IsConsentDocument(doc: Json) {
    && WireStatus(doc) in {Some(JString("active")), Some(JString("rejected"))}
    && WirePatient(doc).Some? && WirePatient(doc).value.JString?
  }

  /** The derived decoder of `MTBFileWithConsent`, applied to a parsed document:
      it succeeds exactly on consent documents, and the consent it returns is
      the one written in the document. */
  function Decode(doc: Json): (r: Result<MtbFileWithConsent, ()>)
    ensures r.Ok? <==> IsConsentDocument(doc)
    ensures r.Ok? ==> WireStatus(doc) == Some(JString(StatusLiteral(r.value.consent.status)))
    ensures r.Ok? ==> WirePatient(doc) == Some(JString(r.value.consent.patient))
  {
    match doc
    case JObject(m) =>
      if ConsentKey !in m then Err(())
      else
        (match DecodeConsent(m[ConsentKey])
         case Ok(c) => Ok(MtbFileWithConsent(c))
         case Err(_) => Err(()))
    case _ => Err(())
  }

  /** `MTBFileWithConsent::from_str`: JSON text parsing (`parse`, a foreign
      call) followed by the derived decoder; any failure becomes `Err(())`.
      On success the status and patient are those written in the text. */
  function FromStr(s: string, parse: string -> Option<Json>): (r: Result<MtbFileWithConsent, ()>)
    ensures r.Ok? <==> parse(s).Some? && IsConsentDocument(parse(s).value)
    ensures r.Ok? ==> WireStatus(parse(s).value) == Some(JString(StatusLiteral(r.value.consent.status)))
    ensures r.Ok? ==> WirePatient(parse(s).value) == Some(JString(r.value.consent.patient))
  {
    match parse(s)
    case Some(doc) => Decode(doc)
    case None => Err(())
  }

  /** A document carrying `f`, with arbitrary other members `extra` at the
      top level and `consentExtra` inside the consent object. */
  function Encode(f: MtbFileWithConsent, extra: map<string, Json>, consentExtra: map<string, Json>): Json {
    var consent := consentExtra[StatusKey := JString(StatusLiteral(f.consent.status))]
                               [PatientKey := JString(f.consent.patient)];
    JObject(extra[ConsentKey := JObject(consent)])
  }

  /** Every encoded document decodes back to what was encoded, whatever
      extra members it carries. */
  lemma DecodeEncode(f: MtbFileWithConsent, extra: map<string, Json>, consentExtra: map<string, Json>)
    ensures Decode(Encode(f, extra, consentExtra)) == Ok(f)
  {
  }

  /** Nothing but an encoded document decodes: a successful decode is the
      encoding of its result, with the document's own members as the extras. */
  lemma DecodeOnlyEncoded(doc: Json)
    requires Decode(doc).Ok?
    ensures doc.JObject? && ConsentKey in doc.members && doc.members[ConsentKey].JObject?
    ensures doc == Encode(Decode(doc).value, doc.members, doc.members[ConsentKey].members)
  {
    var m := doc.members;
    var cm := m[ConsentKey].members;
    var f := Decode(doc).value;
    assert cm[StatusKey := JString(StatusLiteral(f.consent.status))][PatientKey := JString(f.consent.patient)] == cm;
    assert m[ConsentKey := JObject(cm)] == m;
  }

  /** A consent status other than the two literals makes the whole document fail to decode. */
  lemma UnknownStatusFails(doc: Json)
    requires doc.JObject? && ConsentKey in doc.members
    requires Member(doc.members[ConsentKey], StatusKey).Some?
    requires Member(doc.members[ConsentKey], StatusKey).value !in {JString("active"), JString("rejected")}
    ensures Decode(doc).Err?
  {
  }

  /** `has_consent` of a decoded document is true exactly when its wire status is "active". */
  lemma HasConsentIffActiveLiteral(doc: Json)
    requires Decode(doc).Ok?
    ensures doc.JObject? && ConsentKey in doc.members
    ensures Decode(doc).value.HasConsent()
            <==> Member(doc.members[ConsentKey], StatusKey) == Some(JString("active"))
  {
  }

  /** `patient_id` of a decoded document is the wire `consent.patient`, verbatim. */
  lemma PatientIdVerbatim(doc: Json)
    requires Decode(doc).Ok?
    ensures doc.JObject? && ConsentKey in doc.members
    ensures Member(doc.members[ConsentKey], PatientKey) == Some(JString(Decode(doc).value.PatientId()))
  {
  }

  /** The documents of the source's unit tests: a consent with an extra `id`
      member decodes, with either status. */
  lemma SampleDocumentsDecode(status: Status)
    ensures var consent := map[
              "id" := JString("TESTID1234"),
              PatientKey := JString("TESTPATIENT1234"),
              StatusKey := JString(StatusLiteral(status))];
            Decode(JObject(map[ConsentKey := JObject(consent)]))
              == Ok(MtbFileWithConsent(Consent(status, "TESTPATIENT1234")))
  {
  }
}
