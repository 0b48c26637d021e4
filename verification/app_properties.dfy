/** Properties of the whole server: an independent decision table the
    registered chain agrees with, and the precedence and pass-through facts
    that follow. */
module AppProperties {
  import opened Wrappers
  import opened Http
  import FormData
  import RecognizeHandler
  import App

  /** The server's behaviour written as one decision table, in the order the
      answers take precedence: credentials, route, body size, then the four
      upload checks, then the engine. */
  function Decide<R>(token: Option<string>, check: (string, string) -> GateVerdict, req: Request,
                     recognize: seq<byte> -> AdapterReply<R>): Outcome<R>
  {
    if token.Some? && token.value != "" then
      match req.authorization
      case None => Answer(401, Unauthorized)
      case Some("") => Answer(401, Unauthorized)
      case Some(header) =>
        match check(token.value, header)
        case Malformed => Answer(400, MalformedAuthorization)
        case WrongToken => Answer(401, Unauthorized)
        case Admit => DecideRoute(req, recognize)
    else DecideRoute(req, recognize)
  }

  /** The table for a request the gate let through (or no gate exists). */
  function DecideRoute<R>(req: Request, recognize: seq<byte> -> AdapterReply<R>): Outcome<R>
  {
    if req.verb == Get && req.path == "/" then
      Answer(200, PlainText("Hello Hono!"))
    else if req.verb != Post || req.path != "/recognize" then
      Answer(404, NotFound)
    else if req.bodySize > 10485760 then
      Answer(413, PayloadTooLarge)
    else
      DecideUpload(req.form, recognize)
  }

  /** The upload part of the table: the four checks on the first `img`
      entry, then the engine. */
  function DecideUpload<R>(form: seq<FormField>, recognize: seq<byte> -> AdapterReply<R>): Outcome<R>
  {
    match FormData.Get(form, "img")
    case None => Answer(400, ErrorJson("Field \"img\" is missing in the request"))
    case Some(Text(s)) =>
      if s == "" then Answer(400, ErrorJson("Field \"img\" is missing in the request"))
      else Answer(400, ErrorJson("Field \"img\" must contain a file"))
    case Some(File(contentType, bytes)) =>
      if contentType !in RecognizeHandler.AllowedTypes then
        Answer(400, ErrorJson(RecognizeHandler.ErrorMessage(RecognizeHandler.UnsupportedType)))
      else if |bytes| == 0 then
        Answer(400, ErrorJson("File is empty"))
      else
        match recognize(bytes)
        case Recognized(v) => Outcome(Response(200, ResultJson(v)), [bytes])
        case Threw => Outcome(Response(500, InternalError), [bytes])
  }

  /** The upload handler and the upload part of the table agree. */
  lemma HandleAgreesWithDecideUpload<R>(form: seq<FormField>, recognize: seq<byte> -> AdapterReply<R>)
    ensures RecognizeHandler.Handle(form, recognize) == DecideUpload(form, recognize)
  {
  }

  /** The registered middleware chain and the decision table agree on every
      request, configuration, credential check and engine. */
  lemma ServeAgreesWithDecide<R>(token: Option<string>, check: (string, string) -> GateVerdict, req: Request,
                                 recognize: seq<byte> -> AdapterReply<R>)
    ensures App.Serve(token, check, req, recognize) == Decide(token, check, req, recognize)
  {
    App.RunPipeline(token, check, req, recognize);
    if App.IsRecognizeRoute(req) && req.bodySize <= App.MaxBodySize {
      HandleAgreesWithDecideUpload(req.form, recognize);
    }
  }

  /** Middleware order: the gate, when present, is the first stage of every
      request's chain; the body limit sits on `POST /recognize` alone,
      directly before the upload handler. */
  lemma MiddlewareOrder(token: Option<string>, req: Request)
    ensures TruthyString(token) ==>
      |App.Pipeline(token, req)| > 0 && App.Pipeline(token, req)[0] == App.BearerGate(token.value)
    ensures !TruthyString(token) ==>
      forall i :: 0 <= i < |App.Pipeline(token, req)| ==> !App.Pipeline(token, req)[i].BearerGate?
    ensures App.IsRecognizeRoute(req) ==>
      var p := App.Pipeline(token, req);
      |p| >= 2 && p[|p| - 2] == App.BodyLimit(App.MaxBodySize) && p[|p| - 1] == App.Recognize
    ensures !App.IsRecognizeRoute(req) ==>
      forall i :: 0 <= i < |App.Pipeline(token, req)| ==>
        !App.Pipeline(token, req)[i].BodyLimit? && !App.Pipeline(token, req)[i].Recognize?
  {
  }

  /** With the token unset or empty there is no gate: the outcome does not
      depend on the credential check at all, and no request is refused for
      its credentials. */
  lemma FalsyTokenLeavesEveryRouteOpen<R>(token: Option<string>, check1: (string, string) -> GateVerdict,
                                          check2: (string, string) -> GateVerdict, req: Request,
                                          recognize: seq<byte> -> AdapterReply<R>)
    requires token == None || token == Some("")
    ensures App.Serve(token, check1, req, recognize) == App.Serve(token, check2, req, recognize)
    ensures App.Serve(token, check1, req, recognize).response.status != StatusUnauthorized
    ensures App.Serve(token, check1, req, recognize).response.body != MalformedAuthorization
  {
    ServeAgreesWithDecide(token, check1, req, recognize);
    ServeAgreesWithDecide(token, check2, req, recognize);
  }

  /** With a truthy token, a request the gate does not let through is
      refused on every method and path, whatever its body, and the engine is
      never called. */
  lemma GateCoversEveryRoute<R>(token: string, check: (string, string) -> GateVerdict, req: Request,
                                recognize: seq<byte> -> AdapterReply<R>)
    requires token != "" && !App.GatePasses(token, check, req)
    ensures App.Serve(Some(token), check, req, recognize) == App.Refuse(token, check, req)
    ensures App.Serve(Some(token), check, req, recognize).recognizeCalls == []
  {
  }

  /** With a truthy token, a request without an `Authorization` header, or
      with an empty one, gets 401, whatever the framework's check would say
      about a header. */
  lemma MissingHeaderGets401<R>(token: string, check: (string, string) -> GateVerdict, req: Request,
                                recognize: seq<byte> -> AdapterReply<R>)
    requires token != "" && (req.authorization == None || req.authorization == Some(""))
    ensures App.Serve(Some(token), check, req, recognize) == Answer(StatusUnauthorized, Unauthorized)
  {
  }

  /** With a truthy token, a header that is not a bearer credential gets 400
      and a bearer credential with another token gets 401. */
  lemma RefusedHeaderStatus<R>(token: string, check: (string, string) -> GateVerdict, req: Request,
                               header: string, recognize: seq<byte> -> AdapterReply<R>)
    requires token != "" && header != "" && req.authorization == Some(header)
    ensures check(token, header) == Malformed ==>
      App.Serve(Some(token), check, req, recognize) == Answer(StatusBadRequest, MalformedAuthorization)
    ensures check(token, header) == WrongToken ==>
      App.Serve(Some(token), check, req, recognize) == Answer(StatusUnauthorized, Unauthorized)
  {
  }

  /** A request that passes the gate is treated exactly as if no token were
      configured. */
  lemma AcceptedCredentialsActLikeNoGate<R>(token: Option<string>, check: (string, string) -> GateVerdict,
                                           req: Request, recognize: seq<byte> -> AdapterReply<R>)
    requires App.Admitted(token, check, req)
    ensures App.Serve(token, check, req, recognize) == App.Serve(None, check, req, recognize)
  {
    ServeAgreesWithDecide(token, check, req, recognize);
    ServeAgreesWithDecide(None, check, req, recognize);
  }

  /** An oversized `POST /recognize` that passed the gate gets 413 before the
      form is looked at: its form fields make no difference and the engine is
      not called. */
  lemma OversizedBodyNeverReachesHandler<R>(token: Option<string>, check: (string, string) -> GateVerdict,
                                            req: Request, form: seq<FormField>,
                                            recognize: seq<byte> -> AdapterReply<R>)
    requires App.IsRecognizeRoute(req) && req.bodySize > App.MaxBodySize
    requires App.Admitted(token, check, req)
    ensures App.Serve(token, check, req, recognize) == Answer(StatusPayloadTooLarge, PayloadTooLarge)
    ensures App.Serve(token, check, req.(form := form), recognize) == App.Serve(token, check, req, recognize)
  {
    ServeAgreesWithDecide(token, check, req, recognize);
    ServeAgreesWithDecide(token, check, req.(form := form), recognize);
  }

  /** The ceiling is exactly 10485760 bytes and inclusive: a body of exactly
      that size is handed to the upload checks. */
  lemma BodyLimitBoundary<R>(token: Option<string>, check: (string, string) -> GateVerdict, req: Request,
                             recognize: seq<byte> -> AdapterReply<R>)
    requires App.Admitted(token, check, req)
    requires App.IsRecognizeRoute(req) && req.bodySize == 10485760
    ensures App.MaxBodySize == 10485760
    ensures App.Serve(token, check, req, recognize) == RecognizeHandler.Handle(req.form, recognize)
  {
    App.RunPipeline(token, check, req, recognize);
  }

  /** The body limit is attached to `POST /recognize` only: `GET /` answers
      the greeting whatever the body size. */
  lemma GreetingIgnoresBodyLimit<R>(token: Option<string>, check: (string, string) -> GateVerdict,
                                    req: Request, recognize: seq<byte> -> AdapterReply<R>)
    requires App.IsGreetingRoute(req)
    requires App.Admitted(token, check, req)
    ensures App.Serve(token, check, req, recognize) == Answer(StatusOk, PlainText(App.Greeting))
  {
    ServeAgreesWithDecide(token, check, req, recognize);
  }

  /** Methods and paths other than `GET /` and `POST /recognize` are not
      routed; past the gate they get the framework's 404. */
  lemma UnroutedRequestsNotFound<R>(token: Option<string>, check: (string, string) -> GateVerdict,
                                    req: Request, recognize: seq<byte> -> AdapterReply<R>)
    requires !App.IsGreetingRoute(req) && !App.IsRecognizeRoute(req)
    requires App.Admitted(token, check, req)
    ensures App.Serve(token, check, req, recognize) == Answer(StatusNotFound, NotFound)
  {
    ServeAgreesWithDecide(token, check, req, recognize);
  }

  /** Pass-through: a valid upload that reaches the handler calls the engine
      once with the file's full contents and returns its result unchanged with
      status 200. */
  lemma ValidUploadPassesResultThrough<R>(token: Option<string>, check: (string, string) -> GateVerdict,
                                          req: Request, contentType: string, bytes: seq<byte>,
                                          recognize: seq<byte> -> AdapterReply<R>, result: R)
    requires App.Admitted(token, check, req)
    requires App.IsRecognizeRoute(req) && req.bodySize <= App.MaxBodySize
    requires FormData.Get(req.form, RecognizeHandler.FieldName) == Some(File(contentType, bytes))
    requires contentType in RecognizeHandler.AllowedTypes && |bytes| > 0
    requires recognize(bytes) == Recognized(result)
    ensures App.Serve(token, check, req, recognize) == Outcome(Response(StatusOk, ResultJson(result)), [bytes])
  {
    App.RunPipeline(token, check, req, recognize);
  }

  /** The engine is called at most once, and only when the request got past
      every check; a refused request never reaches it. */
  lemma RecognizeCalledIffAllChecksPass<R>(token: Option<string>, check: (string, string) -> GateVerdict,
                                           req: Request, recognize: seq<byte> -> AdapterReply<R>)
    ensures |App.Serve(token, check, req, recognize).recognizeCalls| <= 1
    ensures App.Serve(token, check, req, recognize).recognizeCalls != [] <==>
      App.Admitted(token, check, req)
      && App.IsRecognizeRoute(req) && req.bodySize <= App.MaxBodySize
      && RecognizeHandler.Validate(FormData.Get(req.form, RecognizeHandler.FieldName)).Accepted?
  {
    App.RunPipeline(token, check, req, recognize);
  }

  /** Every file in the form fits inside the measured body. */
  predicate FilesFitInBody(req: Request) {
    forall i :: 0 <= i < |req.form| && req.form[i].part.File? ==> |req.form[i].part.bytes| <= req.bodySize
  }

  /** Whatever the engine is given is a non-empty file of at most 10 MiB. */
  lemma RecognizedBytesBounded<R>(token: Option<string>, check: (string, string) -> GateVerdict,
                                  req: Request, recognize: seq<byte> -> AdapterReply<R>)
    requires FilesFitInBody(req)
    ensures forall b :: b in App.Serve(token, check, req, recognize).recognizeCalls ==>
      0 < |b| <= App.MaxBodySize
  {
  }

  /** A 50 KB JPEG in the `img` field, no token configured, and an engine
      that answers a fixed value: the response is that value with status 200. */
  lemma JpegUploadWithoutToken<R>(check: (string, string) -> GateVerdict, bytes: seq<byte>,
                                  recognize: seq<byte> -> AdapterReply<R>, fixed: R)
    requires |bytes| == 50 * 1024
    requires recognize(bytes) == Recognized(fixed)
    ensures App.Serve(None, check,
                      Request(Post, "/recognize", None, |bytes| + 200, [FormField("img", File("image/jpeg", bytes))]),
                      recognize)
      == Outcome(Response(200, ResultJson(fixed)), [bytes])
  {
    var req := Request(Post, "/recognize", None, |bytes| + 200, [FormField("img", File("image/jpeg", bytes))]);
    ServeAgreesWithDecide(None, check, req, recognize);
  }
}
