/** The value-returning overload as evidently intended: the action is invoked
    once and its result, not a second invocation's, goes into the 200 response
    (Ok(response) where line 57 of NuciApiController.cs has Ok(action())).
    The lemmas compare it with the overload as written. */
module SingleCallPolicy {
  import opened NuciApiController

  /** The try block with the single invocation of line 47. */
  function TryValueOnce<T>(verb: string, action: ValueAction<T>): (e: Exit<T>)
    ensures e.calls == 1
    ensures e.Raise? <==> action(0).Throws?
  {
    var first := action(0);
    if first.Throws? then
      Raise(first.fault, 1)
    else if first.ReturnsNull? && verb == GET_METHOD then
      Return(NotFound(RESOURCE_NOT_FOUND), 1)
    else
      Return(Ok(PayloadOf(first)), 1)
  }

  /** ProcessRequest<TRequest, TResponse> with Ok(response) on line 57. */
  function ProcessValueOnce<R, T>(request: Option<R>, verb: string, action: ValueAction<T>): (p: Processed<T>)
    ensures p.calls == if request.None? then 0 else 1
    ensures p.response.status in {STATUS_OK, STATUS_BAD_REQUEST, STATUS_UNAUTHORIZED, STATUS_NOT_FOUND}
    ensures p.response.status == STATUS_NOT_FOUND <==>
              request.Some? && action(0).ReturnsNull? && verb == GET_METHOD
    ensures p.response.status == STATUS_OK <==>
              request.Some? && !action(0).Throws? && !(action(0).ReturnsNull? && verb == GET_METHOD)
    ensures p.response.status == STATUS_OK ==> p.response.body == PayloadOf(action(0))
  {
    if request.None? then
      Processed(BadRequest(InvalidRequest), 0)
    else
      Catch(TryValueOnce(verb, action))
  }

  /** The response of the overload as written depends on the action only
      through its first two invocations, and that of the single-call overload
      only through the first. When the second invocation would repeat the
      first, the two overloads answer alike. */
  lemma AgreesOnRepeatableActions<R, T>(request: Option<R>, verb: string, action: ValueAction<T>)
    requires action(1) == action(0)
    ensures ProcessValue(request, verb, action).response == ProcessValueOnce(request, verb, action).response
  {
  }

  /** Whenever the overload as written does make its second invocation, its
      response equals the single-call overload's exactly when that invocation
      repeats the first. */
  lemma SecondCallDecides<R, T>(request: Option<R>, verb: string, action: ValueAction<T>)
    requires ProcessValue(request, verb, action).calls == 2
    ensures ProcessValue(request, verb, action).response == ProcessValueOnce(request, verb, action).response
            <==> action(1) == action(0)
  {
  }

  /** Both overloads make the same decision before the second invocation:
      null request, first fault and null-under-"GET" come out the same. */
  lemma AgreesBeforeSecondCall<R, T>(request: Option<R>, verb: string, action: ValueAction<T>)
    requires ProcessValue(request, verb, action).calls < 2
    ensures ProcessValue(request, verb, action) == ProcessValueOnce(request, verb, action)
  {
  }

  /** The discrepancy of line 57: an action whose first invocation returns a
      resource and whose second throws gets 400 from the overload as written,
      where the single-call overload answers 200 with that resource. */
  lemma SecondCallOverturnsSuccess<R>(request: R, verb: string)
    ensures exists action: ValueAction<int> ::
              ProcessValue(Some(request), verb, action).response.status == STATUS_BAD_REQUEST &&
              ProcessValueOnce(Some(request), verb, action).response == Response(STATUS_OK, Payload(Some(1)))
  {
    var action: ValueAction<int> := k => if k == 0 then Returns(1) else Throws(OtherFault("second call"));
    assert ProcessValue(Some(request), verb, action).response.status == STATUS_BAD_REQUEST;
    assert ProcessValueOnce(Some(request), verb, action).response == Response(STATUS_OK, Payload(Some(1)));
  }

  /** The same line under "GET": an action whose first invocation returns a
      resource and whose second returns null gets 200 with a null body from the
      overload as written, where the single-call overload answers 200 with that
      resource. */
  lemma SecondCallLosesResource<R>(request: R)
    ensures exists action: ValueAction<int> ::
              ProcessValue(Some(request), GET_METHOD, action).response == Response(STATUS_OK, Payload(None)) &&
              ProcessValueOnce(Some(request), GET_METHOD, action).response == Response(STATUS_OK, Payload(Some(1)))
  {
    var action: ValueAction<int> := k => if k == 0 then Returns(1) else ReturnsNull;
    assert ProcessValue(Some(request), GET_METHOD, action).response == Response(STATUS_OK, Payload(None));
    assert ProcessValueOnce(Some(request), GET_METHOD, action).response == Response(STATUS_OK, Payload(Some(1)));
  }
}
