/** The application's error type and its `Display` text (main.rs). */
module AppErrors {

  datatype AppError =
    | ConnectionError(message: string)
    | MissingConfig(message: string)
    | HttpError(message: string)

  const ConnectionErrorPrefix := "ConnectionError: "
  const MissingConfigPrefix := "Missing config: "
  const HttpErrorPrefix := "HTTP error: "

  function Prefix(e: AppError): string {
    match e
    case ConnectionError(_) => ConnectionErrorPrefix
    case MissingConfig(_) => MissingConfigPrefix
    case HttpError(_) => HttpErrorPrefix
  }

  /** `impl Display for AppError` (`Debug` prints the same text): a
      variant-specific prefix followed by the message, unchanged. */
  function Display(e: AppError): (r: string)
    ensures |r| == |Prefix(e)| + |e.message|
    ensures r[..|Prefix(e)|] == Prefix(e) && r[|Prefix(e)|..] == e.message
  {
    Prefix(e) + e.message
  }

  /** Different errors never print the same text: the variant and the message
      can both be read back from the printed form. */
  lemma DisplayInjective(a: AppError, b: AppError)
    requires Display(a) == Display(b)
    ensures a == b
  {
    var da, db := Display(a), Display(b);
    assert Prefix(a)[0] == da[0] == db[0] == Prefix(b)[0];
    assert Prefix(a) == Prefix(b);
    assert a.message == da[|Prefix(a)|..] == db[|Prefix(b)|..] == b.message;
  }
}
