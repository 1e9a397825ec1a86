/** The NuciApiController base class: its two ProcessRequest overloads turn a
    possibly-null request and an opaque unit of work into exactly one HTTP
    outcome (a status code and a body kind).

    The action is opaque. The controller only sees what each invocation of it
    does, so an action is modelled as the outcome of its k-th invocation,
    k counting from 0, and every result reports how many invocations the
    overload made. The value-returning overload invokes the action twice on
    its main path, and this model keeps that visible. */
module NuciApiController {

  /** A reference as the controller receives it: absent (C# null) or present. */
  datatype Option<+T> = None | Some(value: T)

  /** The two fault categories the catch clauses tell apart. SecurityFault is a
      System.Security.SecurityException (or a subclass of it); OtherFault is
      every other exception. The message stands for whatever the error body is
      built from. */
  datatype Fault = SecurityFault(message: string) | OtherFault(message: string)

  /** What one invocation of a void action (an Action) does. */
  datatype Completion = Completes | Fails(fault: Fault)

  /** What one invocation of a value-returning action (a Func<TResponse>) does. */
  datatype Evaluation<+T> = Returns(value: T) | ReturnsNull | Throws(fault: Fault)

  /** An opaque action: the outcome of its k-th invocation. */
  type VoidAction = nat -> Completion
  type ValueAction<!T> = nat -> Evaluation<T>

  /** The body kinds the controller puts into an ActionResult. */
  datatype Body<+T> =
    | InvalidRequest              // NuciApiErrorResponse.InvalidRequest
    | SuccessDefault              // NuciApiSuccessResponse.Default
    | ErrorFrom(fault: Fault)     // new NuciApiErrorResponse(ex)
    | Message(text: string)       // a plain string body
    | Payload(value: Option<T>)   // the action's result, which may be null

  datatype Response<+T> = Response(status: nat, body: Body<T>)

  /** The response and the number of times the action was invoked. */
  datatype Processed<+T> = Processed(response: Response<T>, calls: nat)

  const STATUS_OK: nat := 200
  const STATUS_BAD_REQUEST: nat := 400
  const STATUS_UNAUTHORIZED: nat := 401
  const STATUS_NOT_FOUND: nat := 404

  /** The method string the not-found rule compares against, ordinally. */
  const GET_METHOD: string := "GET"
  const RESOURCE_NOT_FOUND: string := "Resource not found."

  // The ControllerBase helpers the overloads return through.
  function Ok<T>(body: Body<T>): Response<T> { Response(STATUS_OK, body) }
  function BadRequest<T>(body: Body<T>): Response<T> { Response(STATUS_BAD_REQUEST, body) }
  function Unauthorized<T>(body: Body<T>): Response<T> { Response(STATUS_UNAUTHORIZED, body) }
  function NotFound<T>(text: string): Response<T> { Response(STATUS_NOT_FOUND, Message(text)) }

  /** How a try block ends: a return statement, or an exception leaving it.
      Either way, calls is the number of invocations of the action so far. */
  datatype Exit<+T> = Return(response: Response<T>, calls: nat) | Raise(fault: Fault, calls: nat)

  /** The two catch clauses, shared by both overloads: a SecurityException
      becomes 401, any other exception 400, both with an error body built from
      the caught exception. */
  function Handle<T>(fault: Fault): (r: Response<T>)
    ensures r.body == ErrorFrom(fault)
    ensures r.status == STATUS_UNAUTHORIZED <==> fault.SecurityFault?
    ensures r.status == STATUS_BAD_REQUEST <==> fault.OtherFault?
  {
    match fault
    case SecurityFault(_) => Unauthorized(ErrorFrom(fault))
    case OtherFault(_) => BadRequest(ErrorFrom(fault))
  }

  /** try { ... } catch (SecurityException) { ... } catch (Exception) { ... }:
      no exception leaves the statement, and the invocation count is kept. */
  function Catch<T>(exit: Exit<T>): (p: Processed<T>)
    ensures p.calls == exit.calls
    ensures exit.Return? ==> p.response == exit.response
    ensures exit.Raise? ==> p.response == Handle(exit.fault)
  {
    match exit
    case Return(response, calls) => Processed(response, calls)
    case Raise(fault, calls) => Processed(Handle(fault), calls)
  }

  /** The try block of the void overload: action(); return Ok(Default). */
  function TryVoid(action: VoidAction): (e: Exit<()>)
    ensures e.calls == 1
  {
    match action(0)
    case Completes => Return(Ok(SuccessDefault), 1)
    case Fails(fault) => Raise(fault, 1)
  }

  /** ProcessRequest<TRequest>(TRequest request, Action action). */
  function ProcessVoid<R>(request: Option<R>, action: VoidAction): (p: Processed<()>)
    ensures p.calls == if request.None? then 0 else 1
    ensures p.response.status in {STATUS_OK, STATUS_BAD_REQUEST, STATUS_UNAUTHORIZED}
    ensures p.response.status == STATUS_OK <==> request.Some? && action(0).Completes?
    ensures p.response.status == STATUS_OK ==> p.response.body == SuccessDefault
  {
    if request.None? then
      Processed(BadRequest(InvalidRequest), 0)
    else
      Catch(TryVoid(action))
  }

  /** The result of an invocation as the body of Ok(...): a null result is
      passed through as an absent payload. */
  function PayloadOf<T>(e: Evaluation<T>): (b: Body<T>)
    requires !e.Throws?
    ensures b.Payload?
    ensures b.value.Some? <==> e.Returns?
    ensures e.Returns? ==> b.value.value == e.value
  {
    match e
    case Returns(v) => Payload(Some(v))
    case ReturnsNull => Payload(None)
  }

  /** The try block of the value-returning overload: the first invocation
      (line 47), the null check against the ordinal "GET" (lines 49-55), and
      the second invocation whose result goes into Ok (line 57). */
  function TryValue<T>(verb: string, action: ValueAction<T>): (e: Exit<T>)
    ensures 1 <= e.calls <= 2
    ensures e.calls == 1 <==> action(0).Throws? || (action(0).ReturnsNull? && verb == GET_METHOD)
  {
    var first := action(0);
    if first.Throws? then
      Raise(first.fault, 1)
    else if first.ReturnsNull? && verb == GET_METHOD then
      Return(NotFound(RESOURCE_NOT_FOUND), 1)
    else
      var second := action(1);
      if second.Throws? then Raise(second.fault, 2)
      else Return(Ok(PayloadOf(second)), 2)
  }

  /** ProcessRequest<TRequest, TResponse>(TRequest request, Func<TResponse> action),
      with the method of the current HTTP request. */
  function ProcessValue<R, T>(request: Option<R>, verb: string, action: ValueAction<T>): (p: Processed<T>)
    ensures p.calls <= 2
    ensures request.None? <==> p.calls == 0
    ensures p.response.status in {STATUS_OK, STATUS_BAD_REQUEST, STATUS_UNAUTHORIZED, STATUS_NOT_FOUND}
    ensures p.response.status == STATUS_NOT_FOUND <==>
              request.Some? && action(0).ReturnsNull? && verb == GET_METHOD
    ensures p.response.status == STATUS_OK ==>
              p.calls == 2 && !action(1).Throws? && p.response.body == PayloadOf(action(1))
  {
    if request.None? then
      Processed(BadRequest(InvalidRequest), 0)
    else
      Catch(TryValue(verb, action))
  }
}
