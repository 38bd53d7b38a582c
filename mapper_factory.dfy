/** The invocation handler of a mapper proxy: a call of a mapper interface
    method becomes one session call on the statement `interface.method`,
    inside an open/close bracket. */
module MapperFactory {
  import opened Base
  import opened SqlSession

  /** The session API the handler selects. */
  datatype SessionCall =
    | SelectListCall(statement: string, parameter: Option<Value>)
    | SelectOneCall(statement: string, parameter: Option<Value>)

  /** What the handler does to the session, in order. */
  datatype SessionEvent = OpenSession | Call(call: SessionCall) | CloseSession

  /** The fully qualified statement id. */
  function StatementId(interfaceName: string, methodName: string): string
  {
    interfaceName + "." + methodName
  }

  /** The id is the interface name, a dot and the method name, in that order. */
  lemma StatementIdParts(interfaceName: string, methodName: string)
    ensures var s := StatementId(interfaceName, methodName);
      && |s| == |interfaceName| + 1 + |methodName|
      && s[..|interfaceName|] == interfaceName
      && s[|interfaceName|] == '.'
      && s[|interfaceName| + 1..] == methodName
  {
    var s := StatementId(interfaceName, methodName);
    assert s[..|interfaceName|] == interfaceName;
    assert s[|interfaceName| + 1..] == methodName;
  }

  /** Dots are not escaped: different (interface, method) pairs can share a
      statement id. */
  lemma StatementIdsCanCollide()
    ensures StatementId("a.b", "c") == StatementId("a", "b.c")
  {
  }

  /** The routing rule: a `List` return type selects `selectList`, any other
      selects `selectOne`; with no arguments (null or empty) the parameterless
      call is made, otherwise only the first argument is passed. */
  function Route(interfaceName: string, methodName: string, returnsList: bool, args: Option<seq<Value>>): (c: SessionCall)
    ensures c.statement == StatementId(interfaceName, methodName)
    ensures c.SelectListCall? <==> returnsList
    ensures args.None? || |args.value| == 0 <==> c.parameter.None?
    ensures c.parameter.Some? ==> args.Some? && c.parameter.value == args.value[0]
  {
    var statement := StatementId(interfaceName, methodName);
    if args.None? || |args.value| == 0 then
      (if returnsList then SelectListCall(statement, None) else SelectOneCall(statement, None))
    else
      (if returnsList then SelectListCall(statement, Some(args.value[0]))
       else SelectOneCall(statement, Some(args.value[0])))
  }

  /** Arguments after the first never reach the session. */
  lemma LaterArgumentsIgnored(interfaceName: string, methodName: string, returnsList: bool,
                              first: Value, rest1: seq<Value>, rest2: seq<Value>)
    ensures Route(interfaceName, methodName, returnsList, Some([first] + rest1))
         == Route(interfaceName, methodName, returnsList, Some([first] + rest2))
  {
  }

  /** A null argument array and an empty one route alike. */
  lemma NullAndEmptyArgumentsAgree(interfaceName: string, methodName: string, returnsList: bool)
    ensures Route(interfaceName, methodName, returnsList, None)
         == Route(interfaceName, methodName, returnsList, Some([]))
  {
  }

  /** One handler invocation: open, the routed call, close (the `finally`). */
  function Trace(interfaceName: string, methodName: string, returnsList: bool, args: Option<seq<Value>>): (t: seq<SessionEvent>)
    ensures |t| == 3 && t[0] == OpenSession && t[|t| - 1] == CloseSession
    ensures forall k :: 0 < k < |t| - 1 ==> t[k] == Call(Route(interfaceName, methodName, returnsList, args))
  {
    [OpenSession, Call(Route(interfaceName, methodName, returnsList, args)), CloseSession]
  }

  /** What the proxy method returns. */
  datatype Answer = One(obj: Option<Obj>) | Many(objs: seq<Obj>)

  /** The handler on an opened session: the routed call, then `close`. */
  method Handle(session: DefaultSqlSession, interfaceName: string, methodName: string, returnsList: bool,
                args: Option<seq<Value>>, classes: map<string, ClassInfo>)
    returns (a: Answer)
    modifies if session.connection != null then {session.connection} else {}
    ensures var c := Route(interfaceName, methodName, returnsList, args);
      var q := old(Query(session.connection, session.mapperElement, classes, c.statement, c.parameter));
      a == if c.SelectListCall? then Many(if q.Ok? then q.value else [])
           else One(if q.Ok? && |q.value| > 0 then Some(q.value[0]) else None)
    ensures session.connection != null ==> session.connection.closed
  {
    var statement := interfaceName + "." + methodName;
    var parameter: Option<Value> := None;
    if args.Some? && |args.value| > 0 {
      parameter := Some(args.value[0]);
    }
    if returnsList {
      var objs := session.SelectList(statement, parameter, classes);
      a := Many(objs);
    } else {
      var obj := session.SelectOne(statement, parameter, classes);
      a := One(obj);
    }
    session.Close();
  }
}
