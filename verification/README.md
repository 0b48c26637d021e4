# paddle-ocr-simple-server: request decisions

A Dafny model of the decision logic of a small HTTP server that exposes an OCR
engine through `POST /recognize`. The server is a Hono application
(`src/index.ts`) that:

- installs a bearer-token gate for every request when the `BEARER_TOKEN`
  setting is truthy;
- answers `GET /` with the greeting `Hello Hono!`;
- on `POST /recognize`, limits the body to 10 MiB, then checks the `img` form
  field (present and truthy, a file, a `type` on the allow-list, not empty) and hands the file's bytes to the OCR engine, whose result is
  returned as JSON unchanged.

The model is pure functions over immutable values:

| file | module | contents |
|---|---|---|
| `wrappers.dfy` | `Wrappers` | `Option` |
| `http.dfy` | `Http` | bytes, methods, form parts and fields, requests, responses, the engine's reply, the `Outcome` (a response plus the list of arguments the engine was called with), JavaScript truthiness |
| `text.dfy` | `Text` | `includes` and `join` over string lists |
| `form_data.dfy` | `FormData` | `FormData.get`: the first entry with a given name |
| `recognize_handler.dfy` | `RecognizeHandler` | the allow-list, the four error messages, the validation chain, the handler |
| `app.dfy` | `App` | registrations, route matching, chain execution, the whole server `Serve` |
| `app_properties.dfy` | `AppProperties` | an independent decision table `Decide`, the proof that `Serve` agrees with it, and the precedence and pass-through lemmas |

Inputs the program gets from outside become parameters: the configured token
is an `Option<string>`; the framework's verdict on a present `Authorization`
header is an arbitrary function `check(token, header)` answering `Admit`,
`WrongToken` or `Malformed` (the header is not `Bearer <token>` at all); the
OCR engine is an arbitrary function
`recognize(bytes)` that either yields a result or throws. Because every
outcome records the arguments `recognize` was called with, "called exactly
once with the full file" and "never called on a refused request" are
statements about that list.

`src/env.ts` accepts any string for `BEARER_TOKEN`, including the empty one,
and `src/index.ts:14` tests truthiness, so an empty token starts the server
with no gate.

Behaviour of the framework that the source relies on but does not show is
modelled as follows: the bearer middleware answers 401 when the
`Authorization` header is missing, empty (the middleware tests the header's
truthiness, so an empty value counts as missing) or carries another token, and
400 when a non-empty header is not a bearer credential; global middleware (`app.use`) runs for every method and
path, before route-level stages, in registration order; a request no route
answers gets 404 after the global middleware; an exception thrown by the
engine becomes a 500 response; the body limit rejects a body strictly larger
than the ceiling; `FormData.get` returns the first entry with the name, as the
XMLHttpRequest standard's `FormData` interface defines it.

## Model

| member | source | states |
|---|---|---|
| `Text.Includes` | src/index.ts:60 | the allow-list test holds exactly when the declared type is an element of the list (exact string equality) |
| `Text.Join` | src/index.ts:63 | the joined string starts with the first element and has the summed length of the elements plus one separator per adjacent pair; the empty list joins to "" |
| `Text.JoinCons` | src/index.ts:63 | joining an element in front of a non-empty list puts that element and one separator before the rest's join |
| `Text.JoinFive` | src/index.ts:63 | five strings join to the five strings in order with one separator between each adjacent pair |
| `Text.JoinAppend` | src/index.ts:63 | joining a concatenation is joining each part with one separator between, so the elements keep their order |
| `FormData.Get` | src/index.ts:41 | `null` exactly when no field is named `img`; otherwise the part of the first field so named |
| `RecognizeHandler.Validate` | src/index.ts:41-71 | each of the four errors is reported exactly when all earlier checks pass and its own fails (missing or falsy, not a file, type not allowed, zero bytes); otherwise the file's complete bytes are accepted |
| `RecognizeHandler.Reply` | src/index.ts:74-76 | an engine result becomes status 200 with that result as the JSON body; a thrown error becomes 500 |
| `RecognizeHandler.Handle` | src/index.ts:37-77 | status 400 exactly when validation fails, with the error's message and no engine call; on success exactly one engine call, with the file's bytes, whose reply is passed through |
| `RecognizeHandler.ErrorMessageTexts` | src/index.ts:43-70 | the missing-field, not-a-file and empty-file errors carry exactly the texts `Field "img" is missing in the request`, `Field "img" must contain a file` and `File is empty` |
| `RecognizeHandler.UnsupportedTypeMessageText` | src/index.ts:53-67 | the unsupported-type message is its fixed prefix followed by the allow-list's five entries (image/jpeg, image/jpg, image/png, image/gif, image/webp) in list order, separated by ", " |
| `RecognizeHandler.ErrorMessagesDistinct` | src/index.ts:43-71 | the four error messages are pairwise different |
| `RecognizeHandler.TypeCheckPrecedesEmptiness` | src/index.ts:60-71 | an empty file with a disallowed type gets the type error, not the empty-file error |
| `RecognizeHandler.ContentTypeMatchIsExact` | src/index.ts:53-60 | a `File` whose `type` is `image/png` is accepted, while `IMAGE/PNG` and `image/png; charset=binary` are refused at this check |
| `RecognizeHandler.FirstImgEntryDecides` | src/index.ts:41-45 | an empty text `img` entry counts as missing even when a valid file follows under the same name |
| `App.Registrations` | src/index.ts:14-36 | a global gate registration exists exactly when the token is truthy, always checks that token, and comes first, before every route; the only routes are `GET /` with the greeting and `POST /recognize` with body limit then handler |
| `App.UseAll` | src/index.ts:14-16 | one global registration per stage, in the same order |
| `App.MatchedUseAll` | src/index.ts:14-16 | global registrations match every request and contribute exactly their stages, in order |
| `App.Matched` | src/index.ts:14-36 | with no matching registration the chain is empty; a single registration contributes its stages exactly when it matches |
| `App.MatchedAppend` | src/index.ts:14-36 | the chain for registrations `a` then `b` is `a`'s matching stages followed by `b`'s |
| `App.MatchedRoutes` | src/index.ts:28-36 | of the two routes at most one matches a request, and the matching route contributes exactly its own stages |
| `App.Pipeline` | src/index.ts:14-36 | the chain is exactly the gate (when the token is truthy) followed by the matching route's stages: the greeting for `GET /`, body limit then handler for `POST /recognize`, nothing otherwise |
| `App.Refuse` | src/index.ts:15 | a refused request gets 400 exactly when its header is present, non-empty and not a bearer credential, 401 otherwise (missing, empty, or another token), and never reaches the engine |
| `App.Run` | src/index.ts:32-37 | at most one engine call, made only when the handler is in the chain; a 401 comes only from a refusing gate, and a 400 only from a refusing gate or the upload handler |
| `App.RunThroughGate` | src/index.ts:14-16 | with a truthy token the gate refuses a request it does not admit, and otherwise leaves the rest of the chain to decide |
| `App.RunRoute` | src/index.ts:28-37 | a route chain answers the greeting on `GET /`, 404 off the two routes, 413 over the ceiling on `POST /recognize`, and otherwise whatever the upload handler answers |
| `App.RunPipeline` | src/index.ts:14-37 | a chain answers with the gate's refusal, else the greeting on `GET /`, 404 off the two routes, 413 over the ceiling, else the upload handler |
| `App.Serve` | src/index.ts:14-77 | 401 exactly when the gate refuses a missing or empty header or a wrong token; 400 exactly for a malformed non-empty header or a refused upload past gate and limit; 413 exactly when past the gate on `POST /recognize` with more than 10 MiB; an engine call only past the gate and the limit on a valid upload, and then with the `img` file's bytes |
| `AppProperties.HandleAgreesWithDecideUpload` | src/index.ts:37-77 | the handler agrees with the upload part of the independent decision table |
| `AppProperties.ServeAgreesWithDecide` | src/index.ts:14-77 | the registered chain agrees with the independent decision table on every input |
| `AppProperties.MiddlewareOrder` | src/index.ts:14-36 | the gate is first in every chain when the token is truthy and absent otherwise; body limit then handler end the `POST /recognize` chain and appear nowhere else |
| `AppProperties.FalsyTokenLeavesEveryRouteOpen` | src/index.ts:14-16 | with the token unset or empty, the outcome does not depend on the credential check and is never a credential refusal |
| `AppProperties.GateCoversEveryRoute` | src/index.ts:14-16 | with a truthy token, a request the gate does not admit is refused on every method and path, with no engine call |
| `AppProperties.MissingHeaderGets401` | src/index.ts:14-16 | with a truthy token, a request whose `Authorization` header is missing or empty gets 401 |
| `AppProperties.RefusedHeaderStatus` | src/index.ts:14-16 | with a truthy token, a non-empty header that is not a bearer credential gets 400 and one with another token gets 401 |
| `AppProperties.AcceptedCredentialsActLikeNoGate` | src/index.ts:14-16 | a request that passes the gate gets the same outcome as with no token configured |
| `AppProperties.OversizedBodyNeverReachesHandler` | src/index.ts:32-37 | past the gate, a `POST /recognize` over 10 MiB gets 413 whatever its form holds, with no engine call |
| `AppProperties.BodyLimitBoundary` | src/index.ts:34-36 | the ceiling is 10485760 bytes and, past the gate whatever the token setting, a body of exactly that size reaches the handler |
| `AppProperties.GreetingIgnoresBodyLimit` | src/index.ts:28-30 | past the gate, `GET /` answers 200 with the greeting whatever the body size |
| `AppProperties.UnroutedRequestsNotFound` | src/index.ts:28-36 | past the gate, any other method or path gets 404 |
| `AppProperties.ValidUploadPassesResultThrough` | src/index.ts:74-76 | a valid upload past gate and limit gets 200 with the engine's result unchanged, after exactly one call with the full file |
| `AppProperties.RecognizeCalledIffAllChecksPass` | src/index.ts:43-76 | the engine is called at most once, and called exactly when gate, route, limit and the four checks all pass |
| `AppProperties.RecognizedBytesBounded` | src/index.ts:34-75 | when every file fits in the measured body, what the engine receives is non-empty and at most 10 MiB |
| `AppProperties.JpegUploadWithoutToken` | src/index.ts:32-76 | a 50 KB JPEG with no token configured gets 200 and exactly the engine's answer |

## Left out

- The OCR engine itself (construction, `initialize`, `destroy`, src/index.ts:11-12, 21): a foreign library; only `recognize` remains, as a parameter.
- Shutdown on SIGINT/SIGTERM (src/index.ts:18-26): process signals and exit; they do not take part in any request decision, and in-flight requests are not drained.
- The request logger (src/index.ts:9): it only prints and always passes the request on.
- Multipart parsing, reading the file into a buffer, and the `async`/`await` plumbing (src/index.ts:39, 74): the request carries the already-parsed form; a body that fails to parse as a form is not modelled.
- How a present `Authorization` header is parsed and compared, and how the body size is measured: both belong to the framework and are an opaque verdict and a number in the request.
- How the multipart parser fills in the `File`'s `type`: the `File` constructor may lowercase the declared content type, so a part a client sends as `IMAGE/PNG` can reach the check as `image/png`; the model starts from the `type` the handler sees.
- The exact 400 (malformed credential), 401, 404, 413 and 500 response bodies and headers: produced by the framework, kept as abstract body tags.
- `HEAD` requests, which the framework answers with the `GET` handler: not modelled; a request's method is `GET`, `POST`, or another method whose name is none of `GET`, `HEAD` and `POST`.
- Concurrency between requests: each request is decided on its own.
- src/env.ts validation: any string or no value is accepted there, so the setting is simply an `Option<string>`.
