/** Properties of the two ProcessRequest overloads, one lemma per branch of
    the outcome policy, plus the consequences of the second invocation of the
    action in the value-returning overload and of its ordinal "GET" check. */
module ControllerProperties {
  import opened NuciApiController

  // ---------------------------------------------------------------------
  // Null request

  /** A null request is answered with 400 and the InvalidRequest body by both
      overloads, and the action is never invoked. */
  lemma NullRequestIsInvalid<R, T>(verb: string, voidAction: VoidAction, valueAction: ValueAction<T>)
    ensures ProcessVoid<R>(None, voidAction) == Processed(Response(STATUS_BAD_REQUEST, InvalidRequest), 0)
    ensures ProcessValue<R, T>(None, verb, valueAction) == Processed(Response(STATUS_BAD_REQUEST, InvalidRequest), 0)
  {
  }

  /** Since a null request never reaches the action, what the action would do
      cannot influence the outcome. */
  lemma NullRequestIgnoresAction<R, T>(verb1: string, verb2: string,
                                       v1: VoidAction, v2: VoidAction,
                                       a1: ValueAction<T>, a2: ValueAction<T>)
    ensures ProcessVoid<R>(None, v1) == ProcessVoid<R>(None, v2)
    ensures ProcessValue<R, T>(None, verb1, a1) == ProcessValue<R, T>(None, verb2, a2)
  {
  }

  // ---------------------------------------------------------------------
  // Void overload

  /** A present request whose action completes: 200 with the default success
      body, after exactly one invocation. */
  lemma VoidCompletionIsOk<R>(request: R, action: VoidAction)
    requires action(0).Completes?
    ensures ProcessVoid(Some(request), action) == Processed(Response(STATUS_OK, SuccessDefault), 1)
  {
  }

  /** A present request whose action throws: the catch clauses decide, after
      exactly one invocation; 401 for a SecurityException, 400 otherwise, and
      the body is built from the exception. */
  lemma VoidFaultIsClassified<R>(request: R, action: VoidAction)
    requires action(0).Fails?
    ensures ProcessVoid(Some(request), action) == Processed(Handle(action(0).fault), 1)
    ensures ProcessVoid(Some(request), action).response.status ==
              if action(0).fault.SecurityFault? then STATUS_UNAUTHORIZED else STATUS_BAD_REQUEST
  {
  }

  // ---------------------------------------------------------------------
  // Value-returning overload

  /** A fault from the first invocation is classified by the catch clauses and
      the action is not invoked again. */
  lemma FirstFaultIsClassified<R, T>(request: R, verb: string, action: ValueAction<T>)
    requires action(0).Throws?
    ensures ProcessValue(Some(request), verb, action) == Processed(Handle(action(0).fault), 1)
  {
  }

  /** A null first result under the exact method "GET": 404 with the text
      "Resource not found.", after exactly one invocation. */
  lemma NullGetIsNotFound<R, T>(request: R, action: ValueAction<T>)
    requires action(0).ReturnsNull?
    ensures ProcessValue(Some(request), GET_METHOD, action) ==
              Processed(Response(STATUS_NOT_FOUND, Message(RESOURCE_NOT_FOUND)), 1)
  {
  }

  /** A null first result under any other method string is not a 404: control
      falls through to the second invocation. */
  lemma NullOtherVerbFallsThrough<R, T>(request: R, verb: string, action: ValueAction<T>)
    requires action(0).ReturnsNull? && verb != GET_METHOD
    ensures ProcessValue(Some(request), verb, action).calls == 2
    ensures ProcessValue(Some(request), verb, action).response.status != STATUS_NOT_FOUND
    ensures action(1).ReturnsNull? ==>
              ProcessValue(Some(request), verb, action).response == Response(STATUS_OK, Payload(None))
  {
  }

  /** Once the null check is passed, the action runs a second time and the
      200 body is the result of that second invocation. */
  lemma SecondResultIsTheBody<R, T>(request: R, verb: string, action: ValueAction<T>)
    requires !action(0).Throws? && !(action(0).ReturnsNull? && verb == GET_METHOD)
    requires !action(1).Throws?
    ensures ProcessValue(Some(request), verb, action) == Processed(Response(STATUS_OK, PayloadOf(action(1))), 2)
  {
  }

  /** A fault from the second invocation is classified by the same catch
      clauses, although the first invocation succeeded. */
  lemma SecondFaultIsClassified<R, T>(request: R, verb: string, action: ValueAction<T>)
    requires !action(0).Throws? && !(action(0).ReturnsNull? && verb == GET_METHOD)
    requires action(1).Throws?
    ensures ProcessValue(Some(request), verb, action) == Processed(Handle(action(1).fault), 2)
  {
  }

  /** Past the null check, the first result is discarded: two actions whose
      second invocations agree give the same response. */
  lemma FirstResultIsDiscarded<R, T>(request: R, verb: string, a1: ValueAction<T>, a2: ValueAction<T>)
    requires !a1(0).Throws? && !(a1(0).ReturnsNull? && verb == GET_METHOD)
    requires !a2(0).Throws? && !(a2(0).ReturnsNull? && verb == GET_METHOD)
    requires a1(1) == a2(1)
    ensures ProcessValue(Some(request), verb, a1) == ProcessValue(Some(request), verb, a2)
  {
  }

  // ---------------------------------------------------------------------
  // Both overloads

  /** The two overloads share their catch clauses: the same fault from the
      first invocation gives the same status and the same error body. */
  lemma OverloadsClassifyAlike<R, T>(request: R, verb: string, voidAction: VoidAction, valueAction: ValueAction<T>)
    requires voidAction(0).Fails? && valueAction(0).Throws?
    requires voidAction(0).fault == valueAction(0).fault
    ensures ProcessVoid(Some(request), voidAction).response.status ==
              ProcessValue(Some(request), verb, valueAction).response.status
    ensures ProcessVoid(Some(request), voidAction).response.body == ErrorFrom(voidAction(0).fault)
    ensures ProcessValue(Some(request), verb, valueAction).response.body == ErrorFrom(voidAction(0).fault)
  {
  }

  // ---------------------------------------------------------------------
  // The ordinal method comparison

  /** ASCII upper-casing, to state which method strings a case-insensitive
      comparison with "GET" would accept. */
  function AsciiUpper(s: string): (u: string)
    ensures |u| == |s|
    ensures forall i :: 0 <= i < |s| ==> ('a' <= s[i] <= 'z' ==> u[i] as int == s[i] as int - 32)
    ensures forall i :: 0 <= i < |s| ==> (!('a' <= s[i] <= 'z') ==> u[i] == s[i])
  {
    if s == [] then []
    else [if 'a' <= s[0] <= 'z' then (s[0] as int - 32) as char else s[0]] + AsciiUpper(s[1..])
  }

  /** Method strings equal to "GET" up to case but not ordinally, such as
      "get" or "Get", never trigger the not-found rule. */
  lemma CaseVariantOfGetIsNotNotFound<R, T>(request: R, verb: string, action: ValueAction<T>)
    requires AsciiUpper(verb) == GET_METHOD && verb != GET_METHOD
    requires action(0).ReturnsNull?
    ensures ProcessValue(Some(request), verb, action).response.status != STATUS_NOT_FOUND
    ensures ProcessValue(Some(request), verb, action).calls == 2
  {
  }

  /** Such method strings exist: "get" is one. */
  lemma GetHasCaseVariants()
    ensures exists verb :: AsciiUpper(verb) == GET_METHOD && verb != GET_METHOD
  {
    assert AsciiUpper("get") == GET_METHOD;
  }
}
