/** The method-extension gate (`MethodExtProcessAop.doRouter`): a user
    method named by the annotation, looked up on the target class with the
    intercepted method's parameter types, decides whether the call goes
    ahead. Reflection is the `lookup` function. */
module MethodExt {
  import opened Base
  import opened Common

  /** A method found by reflection: the name of its return type and what
      invoking it on the arguments returns when that type is `boolean`. */
  datatype ExtMethod = ExtMethod(returnTypeName: string, invoke: seq<Value> -> bool)

  /** `doRouter`: a failed lookup throws the not-found error before the
      return type is looked at; a return type other than primitive
      `boolean` throws the return-type error; otherwise the extension is
      invoked on the intercepted arguments and its answer lets the call
      proceed or returns the method-extension failure instead. */
  function DoRouter(lookup: (string, seq<string>) -> Option<ExtMethod>, extMethodName: string,
                    parameterTypes: seq<string>, args: seq<Value>): (o: Outcome)
    ensures lookup(extMethodName, parameterTypes).None? ==> o == Thrown(BizFromErrorCode(METHODEXT_NOTFOUND_ERROR))
    ensures o.Proceed? ==> lookup(extMethodName, parameterTypes).Some?
  {
    match lookup(extMethodName, parameterTypes)
    case None => Thrown(BizFromErrorCode(METHODEXT_NOTFOUND_ERROR))
    case Some(extMethod) =>
      if extMethod.returnTypeName != "boolean" then Thrown(BizFromErrorCode(METHODEXT_RETURNTYPE_ERROR))
      else if extMethod.invoke(args) then Proceed
      else Returned(FailCode(METHODEXT_ERROR))
  }

  /** The call proceeds exactly when the extension exists, returns
      `boolean` and answers true on the intercepted arguments; a false answer
      is the only way to get the failure result, and every other outcome is
      one of the two configuration errors, which share their code and differ
      in their message. */
  lemma DoRouterIff(lookup: (string, seq<string>) -> Option<ExtMethod>, extMethodName: string,
                    parameterTypes: seq<string>, args: seq<Value>)
    ensures var o := DoRouter(lookup, extMethodName, parameterTypes, args);
      var m := lookup(extMethodName, parameterTypes);
      && (o.Proceed? <==> m.Some? && m.value.returnTypeName == "boolean" && m.value.invoke(args))
      && (o.Returned? <==> m.Some? && m.value.returnTypeName == "boolean" && !m.value.invoke(args))
      && (o.Returned? ==> o.result == FailCode(METHODEXT_ERROR) && o.result.code == 500005)
      && (o.Thrown? ==> o.exception.code == 500006)
      && (o.Thrown? ==>
            (o.exception.message == METHODEXT_NOTFOUND_ERROR.Message() <==> m.None?))
  {
  }

  /** The answer depends on the arguments only through what the extension
      returns on them. */
  lemma ArgumentsReachExtension(lookup: (string, seq<string>) -> Option<ExtMethod>, extMethodName: string,
                                parameterTypes: seq<string>, args1: seq<Value>, args2: seq<Value>)
    requires var m := lookup(extMethodName, parameterTypes);
      m.Some? ==> m.value.invoke(args1) == m.value.invoke(args2)
    ensures DoRouter(lookup, extMethodName, parameterTypes, args1) == DoRouter(lookup, extMethodName, parameterTypes, args2)
  {
  }

  /** A boxed `Boolean` return type is not `boolean`: the gate refuses it. */
  lemma BoxedBooleanRefused(lookup: (string, seq<string>) -> Option<ExtMethod>, extMethodName: string,
                            parameterTypes: seq<string>, args: seq<Value>)
    requires lookup(extMethodName, parameterTypes).Some?
    requires lookup(extMethodName, parameterTypes).value.returnTypeName == "java.lang.Boolean"
    ensures DoRouter(lookup, extMethodName, parameterTypes, args) == Thrown(BizFromErrorCode(METHODEXT_RETURNTYPE_ERROR))
  {
  }
}
