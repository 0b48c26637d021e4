/** The application: which middleware and handlers are registered, how a
    request picks the ones that apply, and how the chain is run. */
module App {
  import opened Wrappers
  import opened Http
  import RecognizeHandler
  import FormData

  /** The body-size ceiling of `POST /recognize`: 10 MiB. */
  const MaxBodySize: nat := 10 * 1024 * 1024

  const Greeting: string := "Hello Hono!"

  const RecognizePath: string := "/recognize"

  /** One link of a request's chain. Middleware either answers or passes the
      request on; a handler always answers. */
  datatype Stage =
    | BearerGate(token: string)
    | BodyLimit(maxSize: nat)
    | Greet
    | Recognize

  /** `app.use(stage)` applies to every method and path;
      `app.get`/`app.post(path, ...stages)` to one method and one path. */
  datatype Registration =
    | Use(stage: Stage)
    | On(verb: Method, path: string, stages: seq<Stage>)

  /** The global middleware every request meets: the bearer gate when the
      token is truthy, nothing otherwise. */
  function GateStages(token: Option<string>): seq<Stage> {
    if TruthyString(token) then [BearerGate(token.value)] else []
  }

  /** `app.use` for each stage, in order. */
  function UseAll(stages: seq<Stage>): (regs: seq<Registration>)
    ensures |regs| == |stages|
    ensures forall i :: 0 <= i < |stages| ==> regs[i] == Use(stages[i])
  {
    if |stages| == 0 then [] else [Use(stages[0])] + UseAll(stages[1..])
  }

  /** The registrations in the order the server makes them. The bearer gate
      is registered only when the configured token is truthy, and before any
      route. */
  function Registrations(token: Option<string>): (regs: seq<Registration>)
    ensures forall i :: 0 <= i < |regs| && regs[i].Use? ==>
      TruthyString(token) && regs[i].stage == BearerGate(token.value)
    ensures TruthyString(token) <==> |regs| > 0 && regs[0].Use?
    ensures forall i, j :: 0 <= i < j < |regs| && regs[j].Use? ==> regs[i].Use?
    ensures forall i :: 0 <= i < |regs| && regs[i].On? ==>
      (regs[i].verb == Get && regs[i].path == "/" && regs[i].stages == [Greet])
      || (regs[i].verb == Post && regs[i].path == RecognizePath
          && regs[i].stages == [BodyLimit(MaxBodySize), Recognize])
  {
    UseAll(GateStages(token)) + Routes
  }

  /** The two routes, in the order they are registered. */
  const Routes: seq<Registration> :=
    [ On(Get, "/", [Greet]),
      On(Post, RecognizePath, [BodyLimit(MaxBodySize), Recognize]) ]

  predicate Matches(reg: Registration, req: Request) {
    reg.Use? || (reg.verb == req.verb && reg.path == req.path)
  }

  function StagesOf(reg: Registration): seq<Stage> {
    match reg
    case Use(s) => [s]
    case On(_, _, stages) => stages
  }

  /** The stages of every registration that matches `req`, concatenated in
      registration order. */
  function Matched(regs: seq<Registration>, req: Request): (stages: seq<Stage>)
    ensures (forall i :: 0 <= i < |regs| ==> !Matches(regs[i], req)) ==> stages == []
    ensures |regs| == 1 ==> stages == if Matches(regs[0], req) then StagesOf(regs[0]) else []
  {
    if |regs| == 0 then []
    else (if Matches(regs[0], req) then StagesOf(regs[0]) else []) + Matched(regs[1..], req)
  }

  /** Matching distributes over registration lists: registering `a` and then
      `b` yields `a`'s matching stages followed by `b`'s. */
  lemma {:induction false} MatchedAppend(a: seq<Registration>, b: seq<Registration>, req: Request)
    ensures Matched(a + b, req) == Matched(a, req) + Matched(b, req)
  {
    if |a| == 0 {
      assert a + b == b;
    } else {
      assert (a + b)[0] == a[0];
      assert (a + b)[1..] == a[1..] + b;
      MatchedAppend(a[1..], b, req);
    }
  }

  /** Global middleware matches every request, so it contributes all its
      stages, in order. */
  lemma {:induction false} MatchedUseAll(stages: seq<Stage>, req: Request)
    ensures Matched(UseAll(stages), req) == stages
  {
    if |stages| > 0 {
      assert UseAll(stages)[1..] == UseAll(stages[1..]);
      MatchedUseAll(stages[1..], req);
    }
  }

  predicate IsRecognizeRoute(req: Request) {
    req.verb == Post && req.path == RecognizePath
  }

  predicate IsGreetingRoute(req: Request) {
    req.verb == Get && req.path == "/"
  }

  /** The stages the routes contribute to `req`'s chain. */
  function RouteStages(req: Request): seq<Stage> {
    if IsGreetingRoute(req) then [Greet]
    else if IsRecognizeRoute(req) then [BodyLimit(MaxBodySize), Recognize]
    else []
  }

  /** At most one route matches a request, and it contributes its stages. */
  lemma MatchedRoutes(req: Request)
    ensures Matched(Routes, req) == RouteStages(req)
  {
    assert |"/"| != |RecognizePath|;
    assert Routes[1..][1..] == [];
    assert Matched(Routes[1..], req) == if IsRecognizeRoute(req) then [BodyLimit(MaxBodySize), Recognize] else [];
  }

  /** The chain a request runs through. With a truthy token the gate comes
      first for every request; the body limit appears only on
      `POST /recognize`, directly before the handler. */
  function Pipeline(token: Option<string>, req: Request): (stages: seq<Stage>)
    ensures stages == GateStages(token) + RouteStages(req)
    ensures IsGreetingRoute(req) ==> stages == GateStages(token) + [Greet]
    ensures IsRecognizeRoute(req) ==> stages == GateStages(token) + [BodyLimit(MaxBodySize), Recognize]
    ensures !IsGreetingRoute(req) && !IsRecognizeRoute(req) ==> stages == GateStages(token)
  {
    MatchedAppend(UseAll(GateStages(token)), Routes, req);
    MatchedUseAll(GateStages(token), req);
    MatchedRoutes(req);
    Matched(Registrations(token), req)
  }

  /** The bearer gate lets `req` through: it carries a non-empty
      `Authorization` header and the framework's check admits it for `token`.
      An empty header is falsy and treated as a missing one. */
  predicate GatePasses(token: string, check: (string, string) -> GateVerdict, req: Request) {
    TruthyString(req.authorization) && check(token, req.authorization.value) == Admit
  }

  /** The gate's answer to a request it does not let through: 400 for a
      non-empty header that is not a bearer credential, 401 for a missing or
      empty header or a wrong token. */
  function Refuse<R>(token: string, check: (string, string) -> GateVerdict, req: Request): (o: Outcome<R>)
    ensures o.recognizeCalls == []
    ensures o.response.status == StatusBadRequest <==>
      TruthyString(req.authorization) && check(token, req.authorization.value) == Malformed
    ensures o.response.status in {StatusBadRequest, StatusUnauthorized}
  {
    if TruthyString(req.authorization) && check(token, req.authorization.value) == Malformed then
      Answer(StatusBadRequest, MalformedAuthorization)
    else Answer(StatusUnauthorized, Unauthorized)
  }

  /** No gate is installed, or the installed gate lets `req` through. */
  predicate Admitted(token: Option<string>, check: (string, string) -> GateVerdict, req: Request) {
    !TruthyString(token) || GatePasses(token.value, check, req)
  }

  /** Some gate stage of `stages` refuses `req`. */
  predicate SomeGateRefuses(stages: seq<Stage>, check: (string, string) -> GateVerdict, req: Request) {
    exists i :: 0 <= i < |stages| && stages[i].BearerGate? && !GatePasses(stages[i].token, check, req)
  }

  /** A gate that refuses in the rest of a chain refuses in the chain. */
  lemma SomeGateRefusesInTail(stages: seq<Stage>, check: (string, string) -> GateVerdict, req: Request)
    requires |stages| > 0
    ensures SomeGateRefuses(stages[1..], check, req) ==> SomeGateRefuses(stages, check, req)
  {
  }

  /** Hono-style composition: run the stages in order until one answers. When
      every stage passes the request on, no handler answered and the result
      is the framework's 404. */
  function Run<R>(stages: seq<Stage>, req: Request, check: (string, string) -> GateVerdict,
                  recognize: seq<byte> -> AdapterReply<R>): (o: Outcome<R>)
    ensures |o.recognizeCalls| <= 1
    ensures o.recognizeCalls != [] ==> Recognize in stages
    ensures o.response.status == StatusUnauthorized ==> SomeGateRefuses(stages, check, req)
    ensures o.response.status == StatusBadRequest ==> Recognize in stages || SomeGateRefuses(stages, check, req)
    decreases |stages|
  {
    if |stages| == 0 then Answer(StatusNotFound, NotFound)
    else match stages[0]
      case BearerGate(t) =>
        if GatePasses(t, check, req) then
          SomeGateRefusesInTail(stages, check, req);
          Run(stages[1..], req, check, recognize)
        else Refuse(t, check, req)
      case BodyLimit(max) =>
        if req.bodySize > max then Answer(StatusPayloadTooLarge, PayloadTooLarge)
        else
          SomeGateRefusesInTail(stages, check, req);
          Run(stages[1..], req, check, recognize)
      case Greet => Answer(StatusOk, PlainText(Greeting))
      case Recognize => RecognizeHandler.Handle(req.form, recognize)
  }

  /** The global gate either refuses the request or hands it, unchanged, to
      the rest of the chain. */
  lemma RunThroughGate<R>(token: Option<string>, check: (string, string) -> GateVerdict, req: Request,
                          route: seq<Stage>, recognize: seq<byte> -> AdapterReply<R>)
    ensures Run(GateStages(token) + route, req, check, recognize) ==
      if Admitted(token, check, req) then Run(route, req, check, recognize)
      else Refuse(token.value, check, req)
  {
    if TruthyString(token) {
      assert (GateStages(token) + route)[1..] == route;
    } else {
      assert GateStages(token) + route == route;
    }
  }

  /** A truthy token is configured and the request's `Authorization` header
      is not a bearer credential at all. */
  predicate MalformedHeader(token: Option<string>, check: (string, string) -> GateVerdict, req: Request) {
    TruthyString(token) && TruthyString(req.authorization)
    && check(token.value, req.authorization.value) == Malformed
  }

  /** What a route's stages answer once the gate is passed. */
  lemma RunRoute<R>(req: Request, check: (string, string) -> GateVerdict,
                    recognize: seq<byte> -> AdapterReply<R>)
    ensures Run(RouteStages(req), req, check, recognize) ==
      if IsGreetingRoute(req) then Answer(StatusOk, PlainText(Greeting))
      else if !IsRecognizeRoute(req) then Answer(StatusNotFound, NotFound)
      else if req.bodySize > MaxBodySize then Answer(StatusPayloadTooLarge, PayloadTooLarge)
      else RecognizeHandler.Handle(req.form, recognize)
  {
    if IsRecognizeRoute(req) && req.bodySize <= MaxBodySize {
      assert RouteStages(req)[1..] == [Recognize];
    }
  }

  /** Running a request's chain: the gate's refusal, or else what its
      route's stages answer. */
  lemma RunPipeline<R>(token: Option<string>, check: (string, string) -> GateVerdict, req: Request,
                       recognize: seq<byte> -> AdapterReply<R>)
    ensures Run(Pipeline(token, req), req, check, recognize) ==
      if !Admitted(token, check, req) then Refuse(token.value, check, req)
      else if IsGreetingRoute(req) then Answer(StatusOk, PlainText(Greeting))
      else if !IsRecognizeRoute(req) then Answer(StatusNotFound, NotFound)
      else if req.bodySize > MaxBodySize then Answer(StatusPayloadTooLarge, PayloadTooLarge)
      else RecognizeHandler.Handle(req.form, recognize)
  {
    RunThroughGate(token, check, req, RouteStages(req), recognize);
    RunRoute(req, check, recognize);
  }

  /** The whole server: a request, the configured token, the framework's
      credential check and the OCR engine determine the outcome. */
  function Serve<R>(token: Option<string>, check: (string, string) -> GateVerdict, req: Request,
                    recognize: seq<byte> -> AdapterReply<R>): (o: Outcome<R>)
    ensures o.response.status == StatusUnauthorized <==>
      !Admitted(token, check, req) && !MalformedHeader(token, check, req)
    ensures o.response.status == StatusBadRequest <==>
      MalformedHeader(token, check, req)
      || (Admitted(token, check, req) && IsRecognizeRoute(req) && req.bodySize <= MaxBodySize
          && RecognizeHandler.Validate(FormData.Get(req.form, RecognizeHandler.FieldName)).Rejected?)
    ensures o.response.status == StatusPayloadTooLarge <==>
      Admitted(token, check, req) && IsRecognizeRoute(req) && req.bodySize > MaxBodySize
    ensures o.recognizeCalls != [] ==>
      Admitted(token, check, req) && IsRecognizeRoute(req) && req.bodySize <= MaxBodySize
      && RecognizeHandler.Validate(FormData.Get(req.form, RecognizeHandler.FieldName)).Accepted?
      && o.recognizeCalls == [FormData.Get(req.form, RecognizeHandler.FieldName).value.bytes]
  {
    RunPipeline(token, check, req, recognize);
    Run(Pipeline(token, req), req, check, recognize)
  }
}
