/** The downstream registry client (bwhc_client.rs): which request each call
    builds and how the outcome becomes `Ok` or `Err`. The HTTP exchange itself
    is an abstract `Exchange` the caller supplies, and the `APP_REST_URI`
    environment variable is an `Option<string>` parameter read per call. */
module BwhcClient {
  import opened Outcomes
  import opened AppErrors

  /** `u16`, the type of `HttpResponse::status_code`. */
  type U16 = x: int | 0 <= x < 0x1_0000

  datatype HttpResponse = HttpResponse(statusCode: U16, statusBody: string)

  datatype Method = Post | Delete

  /** What the request builder is given: the HTTP method (`verb`), URL, optional body, the
      `Content-Type` header and the timeout in seconds. */
  datatype HttpRequest = HttpRequest(verb: Method, url: string, body: Option<string>, contentType: string, timeoutSecs: nat)

  /** How the exchange went: it completed with a status and a body text
      (`None` when reading the body failed), or the transport failed. */
  datatype Exchange = Completed(status: U16, text: Option<string>) | TransportFailed(reason: string)

  /** The request that was built for reqwest's client, if any, and the call's result. */
  datatype ClientOutcome = ClientOutcome(attempted: Option<HttpRequest>, result: Result<HttpResponse, AppError>)

  const JsonContentType := "application/json"
  const TimeoutSecs := 5
  const MtbFilePath := "/MTBFile"
  /** `VarError::NotPresent` as `to_string` prints it. */
  const UriNotPresent := "environment variable not found"

  function MtbFileRequest(uri: string, content: string): HttpRequest {
    HttpRequest(Post, uri + MtbFilePath, Some(content), JsonContentType, TimeoutSecs)
  }

  function DeleteRequest(uri: string, patientId: string): HttpRequest {
    HttpRequest(Delete, uri + MtbFilePath + "/" + patientId, None, JsonContentType, TimeoutSecs)
  }

  /** `send().await.map_err(HttpError)?` then the status and `text().unwrap_or("")`:
      `Ok` for every completed exchange whatever its status class, and the
      transport's failure text as an `HttpError` otherwise. */
  function Perform(exchange: Exchange): (r: Result<HttpResponse, AppError>)
    ensures r.Ok? <==> exchange.Completed?
    ensures r.Err? ==> r.error == HttpError(exchange.reason)
    ensures r.Ok? ==> r.value.statusCode == exchange.status
    ensures r.Ok? ==> r.value.statusBody == if exchange.text.Some? then exchange.text.value else ""
  {
    match exchange
    case TransportFailed(reason) => Err(HttpError(reason))
    case Completed(status, text) => Ok(HttpResponse(status, text.UnwrapOr("")))
  }

  /** `BwhcClient::send_mtb_file` */
  function SendMtbFile(uri: Option<string>, content: string, exchange: Exchange): (r: ClientOutcome)
    ensures r.attempted.Some? <==> uri.Some?
    ensures uri.Some? ==> r.attempted == Some(MtbFileRequest(uri.value, content))
    ensures uri.Some? ==> r.attempted.value.verb == Post && r.attempted.value.body == Some(content)
    ensures uri.None? ==> r.result == Err(MissingConfig(UriNotPresent))
    ensures r.result.Ok? <==> uri.Some? && exchange.Completed?
    ensures uri.Some? && exchange.TransportFailed? ==> r.result == Err(HttpError(exchange.reason))
    ensures r.result.Ok? ==> r.result.value.statusCode == exchange.status
    ensures r.result.Ok? ==> r.result.value.statusBody == if exchange.text.Some? then exchange.text.value else ""
  {
    match uri
    case None => ClientOutcome(None, Err(MissingConfig(UriNotPresent)))
    case Some(base) => ClientOutcome(Some(MtbFileRequest(base, content)), Perform(exchange))
  }

  /** `BwhcClient::send_delete` */
  function SendDelete(uri: Option<string>, patientId: string, exchange: Exchange): (r: ClientOutcome)
    ensures r.attempted.Some? <==> uri.Some?
    ensures uri.Some? ==> r.attempted == Some(DeleteRequest(uri.value, patientId))
    ensures uri.Some? ==> r.attempted.value.verb == Delete && r.attempted.value.body.None?
    ensures uri.None? ==> r.result == Err(MissingConfig(UriNotPresent))
    ensures r.result.Ok? <==> uri.Some? && exchange.Completed?
    ensures uri.Some? && exchange.TransportFailed? ==> r.result == Err(HttpError(exchange.reason))
    ensures r.result.Ok? ==> r.result.value.statusCode == exchange.status
    ensures r.result.Ok? ==> r.result.value.statusBody == if exchange.text.Some? then exchange.text.value else ""
  {
    match uri
    case None => ClientOutcome(None, Err(MissingConfig(UriNotPresent)))
    case Some(base) => ClientOutcome(Some(DeleteRequest(base, patientId)), Perform(exchange))
  }

  /** The registry operation a request names, read off its URL string without
      URL parsing: POST to `<uri>/MTBFile` with a body upserts that body, and
      DELETE without a body to a URL starting `<uri>/MTBFile/` removes the
      patient named by the rest of the string, taken as it is. */
  datatype Operation = Upsert(document: string) | Remove(patientId: string)

  function OperationOf(uri: string, req: HttpRequest): Option<Operation> {
    var collection := uri + MtbFilePath;
    var item := collection + "/";
    if req.verb == Post && req.url == collection && req.body.Some? then Some(Upsert(req.body.value))
    else if req.verb == Delete && req.body.None? && |item| <= |req.url| && req.url[..|item|] == item then
      Some(Remove(req.url[|item|..]))
    else None
  }

  /** `send_mtb_file` upserts exactly the content it was given, under the configured base URI. */
  lemma MtbFileRequestUpserts(uri: string, content: string)
    ensures OperationOf(uri, MtbFileRequest(uri, content)) == Some(Upsert(content))
  {
  }

  /** The URL of `send_delete` ends with the patient id, inserted as it is,
      and the request sends no body. */
  lemma DeleteRequestRemoves(uri: string, patientId: string)
    ensures OperationOf(uri, DeleteRequest(uri, patientId)) == Some(Remove(patientId))
    ensures DeleteRequest(uri, patientId).body.None?
  {
    var url := DeleteRequest(uri, patientId).url;
    assert url == (uri + MtbFilePath + "/") + patientId;
  }

  /** Every completed exchange is `Ok` with its status, whatever the status
      class, and its body; a body that cannot be read becomes the empty string. */
  lemma CompletedExchangeIsOk(uri: string, content: string, patientId: string, status: U16, text: Option<string>)
    ensures SendMtbFile(Some(uri), content, Completed(status, text)).result == Ok(HttpResponse(status, text.UnwrapOr("")))
    ensures SendDelete(Some(uri), patientId, Completed(status, text)).result == Ok(HttpResponse(status, text.UnwrapOr("")))
    ensures SendMtbFile(Some(uri), content, Completed(status, None)).result == Ok(HttpResponse(status, ""))
    ensures SendDelete(Some(uri), patientId, Completed(status, None)).result == Ok(HttpResponse(status, ""))
  {
  }
}
