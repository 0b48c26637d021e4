/** The request and response values the OCR server's HTTP layer works with.
    Multipart parsing, header handling and JSON serialisation belong to the web
    framework; here they appear only as the already-parsed values below. */
module Http {
  import opened Wrappers

  newtype byte = x: int | 0 <= x < 0x100

  /** The name of a request method other than GET, HEAD and POST. */
  type OtherMethodName = s: string | s != "GET" && s != "HEAD" && s != "POST" witness "PUT"

  datatype Method = Get | Post | OtherMethod(name: OtherMethodName)

  /** One value of a parsed multipart form: a plain text value or a `File`
      object, with its `type` as the framework's multipart parser produced it
      and its contents. */
  datatype Part =
    | Text(value: string)
    | File(contentType: string, bytes: seq<byte>)

  /** A named entry of a multipart form, in the order the client sent it. */
  datatype FormField = FormField(name: string, part: Part)

  /** An incoming request. `bodySize` is the body length as the body-limit
      middleware measures it; `authorization` is the `Authorization` header,
      if the client sent one. */
  datatype Request = Request(
    verb: Method,
    path: string,
    authorization: Option<string>,
    bodySize: nat,
    form: seq<FormField>)

  /** What the server sends back. The bodies the framework produces (a
      refused or malformed credential, a missing route, an oversized body, an
      uncaught exception) are kept abstract. */
  datatype Body<R> =
    | PlainText(text: string)
    | ErrorJson(error: string)
    | ResultJson(result: R)
    | Unauthorized
    | MalformedAuthorization
    | PayloadTooLarge
    | NotFound
    | InternalError

  datatype Response<R> = Response(status: nat, body: Body<R>)

  /** The bearer middleware's verdict on a present `Authorization` header for
      a configured token: the header carries that token, carries another
      token, or is not of the form `Bearer <token>` at all. */
  datatype GateVerdict = Admit | WrongToken | Malformed

  /** What one call of the OCR engine's `recognize` produces: a result, or an
      exception that nothing in the handler catches. */
  datatype AdapterReply<R> = Recognized(value: R) | Threw

  /** The response together with the arguments `recognize` was called with,
      in call order. */
  datatype Outcome<R> = Outcome(response: Response<R>, recognizeCalls: seq<seq<byte>>)

  const StatusOk: nat := 200
  const StatusBadRequest: nat := 400
  const StatusUnauthorized: nat := 401
  const StatusNotFound: nat := 404
  const StatusPayloadTooLarge: nat := 413
  const StatusInternalError: nat := 500

  /** An outcome that answers without consulting the OCR engine. */
  function Answer<R>(status: nat, body: Body<R>): Outcome<R>
  {
    Outcome(Response(status, body), [])
  }

  /** JavaScript truthiness of an optional string: `undefined` and `""` are
      falsy, every other string is truthy. */
  predicate TruthyString(s: Option<string>) {
    s.Some? && s.value != ""
  }

  /** JavaScript truthiness of what `formData.get` returns: `null` and the
      empty string are falsy; a non-empty string and any `File` object are
      truthy. */
  predicate TruthyPart(p: Option<Part>) {
    match p
    case None => false
    case Some(Text(s)) => s != ""
    case Some(File(_, _)) => true
  }
}
