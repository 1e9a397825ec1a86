# NuciApiController outcome policy in Dafny

This project models the `NuciApiController` base class of `NuciAPI.Controllers`.
Its two `ProcessRequest` overloads take a request that may be null and a unit of work.
They return exactly one HTTP outcome: a status code and a body kind.

- `ProcessVoid` models `ProcessRequest<TRequest>(TRequest, Action)`.
- `ProcessValue` models `ProcessRequest<TRequest, TResponse>(TRequest, Func<TResponse>)`.

The action is opaque. It is modelled as a total function from the invocation index (0, 1, …) to what that invocation does.
- A void action at invocation k either completes or fails with a fault.
- A value action at invocation k returns a value, returns null or throws a fault.

A fault is either a `SecurityException`, which the first catch clause takes, or any other exception.
Every result returns the response together with the number of invocations made.
This keeps the second invocation on line 57 of the value-returning overload visible.

Modules:
- `NuciApiController` (`nuci_api_controller.dfy`): the data model, the shared catch clauses (`Handle`, `Catch`), the two try blocks and both overloads.
- `ControllerProperties` (`controller_properties.dfy`): one lemma per branch of the policy. It also covers the consequences of the second invocation and of the ordinal `"GET"` comparison.
- `SingleCallPolicy` (`single_call_policy.dfy`): the value-returning overload with `Ok(response)` in place of `Ok(action())`. Lemmas compare it with the overload as written (see Findings).

Framework values are abstract:
- `ActionResult` becomes a status code with a body tag: `InvalidRequest`, `SuccessDefault`, `ErrorFrom(fault)`, `Message(text)` or `Payload(value or null)`.
- `Request.Method` becomes a string parameter, `verb`.

Behaviour of the code that the model keeps:
- `SecurityException` maps to 401 and every other exception to 400. These are the only two fault categories.
- The comparison with `"GET"` is ordinal and case-sensitive (`Equals("GET")`). So `"get"` and `"Get"` never produce 404. Section 9.1 of RFC 9110 makes method names case-sensitive, so this is not listed as a finding.
- The value-returning overload invokes the action twice on its main path.

## Model

| member | source | states |
|---|---|---|
| NuciApiController.Handle | NuciApiController.cs:26-33 | the catch clauses: the body is the error built from the fault; the status is 401 exactly for a SecurityException and 400 exactly for any other exception |
| NuciApiController.Catch | NuciApiController.cs:45-66 | no exception leaves the try/catch: a return passes through unchanged, a raised fault gets the catch clauses' response (401 or 400 with an error body built from that fault), and the invocation count is kept |
| NuciApiController.TryVoid | NuciApiController.cs:20-24 | the void try block invokes the action exactly once |
| NuciApiController.ProcessVoid | NuciApiController.cs:12-34 | zero invocations for a null request and one otherwise; the status is always 200, 400 or 401; 200 exactly when the request is present and the action completes, and then the body is the success default |
| NuciApiController.PayloadOf | NuciApiController.cs:57 | the result put into `Ok(...)` is always a payload body; it carries a value exactly when the invocation returned one, and that value; a null result becomes an absent payload |
| NuciApiController.TryValue | NuciApiController.cs:45-57 | the value try block invokes the action once or twice; exactly once when the first invocation throws or returns null under the exact method "GET" |
| NuciApiController.ProcessValue | NuciApiController.cs:36-67 | at most two invocations, none exactly for a null request; status always 200, 400, 401 or 404; 404 exactly for a present request whose first result is null under the exact method "GET"; a 200 comes after two invocations and carries the second invocation's result |
| ControllerProperties.NullRequestIsInvalid | NuciApiController.cs:15-18 | both overloads answer a null request with 400 and the InvalidRequest body, with zero invocations |
| ControllerProperties.NullRequestIgnoresAction | NuciApiController.cs:40-43 | for a null request the outcome of both overloads does not depend on the action or the method |
| ControllerProperties.VoidCompletionIsOk | NuciApiController.cs:20-24 | a present request whose action completes gets 200 with the success default after exactly one invocation |
| ControllerProperties.VoidFaultIsClassified | NuciApiController.cs:26-33 | a fault from the void action gives the catch clauses' response after one invocation: 401 for a SecurityException, 400 otherwise |
| ControllerProperties.FirstFaultIsClassified | NuciApiController.cs:59-66 | a fault from the first invocation of the value action gives the catch clauses' response after one invocation |
| ControllerProperties.NullGetIsNotFound | NuciApiController.cs:47-54 | a null first result under the exact method "GET" gives 404 with "Resource not found." after exactly one invocation |
| ControllerProperties.NullOtherVerbFallsThrough | NuciApiController.cs:49-57 | a null first result under any other method string gives no 404, makes two invocations, and gives 200 with a null payload if the second result is null too |
| ControllerProperties.SecondResultIsTheBody | NuciApiController.cs:47-57 | past the null check, a non-throwing second invocation gives 200 whose body is the second invocation's result |
| ControllerProperties.SecondFaultIsClassified | NuciApiController.cs:45-66 | past the null check, a fault from the second invocation is classified by the same catch clauses, although the first invocation succeeded |
| ControllerProperties.FirstResultIsDiscarded | NuciApiController.cs:47-57 | past the null check, two actions whose second invocations agree get the same response, whatever their first results |
| ControllerProperties.OverloadsClassifyAlike | NuciApiController.cs:26-33 | the same fault from the first invocation gets the same status and the same error body from both overloads |
| ControllerProperties.CaseVariantOfGetIsNotNotFound | NuciApiController.cs:51 | a method string equal to "GET" up to ASCII case but not ordinally never gives 404 for a null result; it leads to a second invocation |
| ControllerProperties.GetHasCaseVariants | NuciApiController.cs:51 | such method strings exist ("get" is one) |
| SingleCallPolicy.TryValueOnce | NuciApiController.cs:45-57 | the corrected try block invokes the action exactly once, and raises exactly when that invocation throws |
| SingleCallPolicy.ProcessValueOnce | NuciApiController.cs:36-67 | corrected overload: at most one invocation; 404 exactly for null under "GET"; 200 exactly for a present request whose first invocation neither throws nor is null under "GET", with that first result as body |
| SingleCallPolicy.AgreesOnRepeatableActions | NuciApiController.cs:47-57 | when the second invocation would repeat the first, the overload as written and the corrected one give the same response |
| SingleCallPolicy.SecondCallDecides | NuciApiController.cs:57 | when the overload as written makes its second invocation, its response equals the corrected one's exactly when that invocation repeats the first |
| SingleCallPolicy.AgreesBeforeSecondCall | NuciApiController.cs:40-54 | on every path that makes no second invocation, the two overloads give the same result and the same invocation count |
| SingleCallPolicy.SecondCallOverturnsSuccess | NuciApiController.cs:57 | some action gets 400 from the overload as written but 200 with its first result from the corrected one |
| SingleCallPolicy.SecondCallLosesResource | NuciApiController.cs:47-57 | under "GET", some action gets 200 with a null body from the overload as written but 200 with its first result from the corrected one |

## Findings

| source | as written | input that shows it | evidently intended | confidence | as-written member | corrected member |
|---|---|---|---|---|---|---|
| NuciApiController.cs:57 | `return Ok(action());` invokes the action a second time and returns its result; the local `response` from line 47 serves only the null check | a present request whose action returns a resource on its first invocation and throws on its second: the answer is 400, not 200 with the resource; under "GET", a first invocation that returns a resource and a second that returns null: the answer is 200 with a null body, not the resource | `return Ok(response);`, one invocation whose result is the body | high; not executed | ControllerProperties.SecondFaultIsClassified, SingleCallPolicy.SecondCallOverturnsSuccess, SingleCallPolicy.SecondCallLosesResource | SingleCallPolicy.ProcessValueOnce |

`ProcessValue` models the overload as written, and the properties in `ControllerProperties` are about that overload.
`ProcessValueOnce` is the corrected overload. `AgreesOnRepeatableActions`, `SecondCallDecides` and `AgreesBeforeSecondCall` state exactly where the two agree.

## Left out

- The ASP.NET Core framework: `ControllerBase`, the `ActionResult` objects and `Request.Method`. They are framework code that is not shown. The helpers `Ok`, `BadRequest`, `Unauthorized` and `NotFound` are stand-in functions that build a status code (200, 400, 401, 404) with a body tag. `Request.Method` is the string parameter `verb`, which assumes the current request and its method string are present. A missing `Request` would throw on line 51, and lines 63-66 would turn that into 400 with an error body; that path is not modelled.
- The construction and contents of `NuciApiErrorResponse`, `NuciApiSuccessResponse`, `NuciApiRequest` and `NuciApiResponse`. They come from packages that are not part of this model, so bodies are opaque tags. An exception thrown while an error body is built would escape the catch clauses; that case is not modelled.
- The action's own side effects. Only its outcome at each invocation and the number of invocations are modelled.
- The exception type hierarchy beyond the two categories the catch clauses tell apart.
- Serialization, routing, authentication middleware and the hosting framework's concurrency.
