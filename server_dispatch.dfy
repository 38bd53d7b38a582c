/** The provider side: a request names a bean, an interface, a method and
    arguments; the handler resolves and invokes it and answers with the
    request's uuid.  The Spring container and Java reflection are a value of
    type `Container`. */
module ServerDispatch {
  import opened Base
  import opened RpcTypes

  /** A method as `Class.getMethod` looks it up: by name and parameter types. */
  datatype MethodKey = MethodKey(name: string, parameterTypes: seq<string>)

  /** What `Method.invoke` does: it returns a value or throws (argument
      mismatches included). */
  datatype Outcome = Returned(value: Value) | Threw(cause: string)

  /** A bean: the interfaces its class implements and its behaviour. */
  datatype Bean = Bean(interfaces: set<string>, run: (string, MethodKey, seq<Value>) -> Outcome)

  /** The container's beans by name and the loadable interfaces with their
      public methods. */
  datatype Container = Container(beans: map<string, Bean>, classes: map<string, set<MethodKey>>)

  /** Why a read fails, in the order the handler can fail. */
  datatype DispatchError =
    | NoSuchBean(ref: string)                  // getBean
    | ClassNotFound(nozzle: string)            // Class.forName
    | NoSuchMethod(key: MethodKey)             // getMethod
    | NotAnInstance(ref: string, nozzle: string) // invoke on a bean of another class
    | InvocationFailed(cause: string)          // the implementation threw

  function KeyOf(req: RequestData): MethodKey
  {
    MethodKey(req.methodName, req.parameterTypes)
  }

  /** `channelRead`'s computation: the Response or the first failure. */
  function Dispatch(c: Container, req: RequestData): (r: Try<Response, DispatchError>)
    ensures r.Ok? <==>
      var pc := req.providerConfig;
      && pc.ref in c.beans && pc.nozzle in c.classes && KeyOf(req) in c.classes[pc.nozzle]
      && pc.nozzle in c.beans[pc.ref].interfaces
      && c.beans[pc.ref].run(pc.nozzle, KeyOf(req), req.args).Returned?
    ensures r.Ok? ==> (r.value.requestId == req.uuid &&
      r.value.result == c.beans[req.providerConfig.ref].run(req.providerConfig.nozzle, KeyOf(req), req.args).value)
  {
    var pc := req.providerConfig;
    if pc.ref !in c.beans then Err(NoSuchBean(pc.ref))
    else if pc.nozzle !in c.classes then Err(ClassNotFound(pc.nozzle))
    else if KeyOf(req) !in c.classes[pc.nozzle] then Err(NoSuchMethod(KeyOf(req)))
    else if pc.nozzle !in c.beans[pc.ref].interfaces then Err(NotAnInstance(pc.ref, pc.nozzle))
    else match c.beans[pc.ref].run(pc.nozzle, KeyOf(req), req.args)
      case Threw(cause) => Err(InvocationFailed(cause))
      case Returned(v) => Ok(Response(req.uuid, v))
  }

  /** The failure reported is the first check that fails: an unknown bean
      wins over an unknown class, which wins over an unknown method. */
  lemma DispatchErrorOrder(c: Container, req: RequestData)
    ensures req.providerConfig.ref !in c.beans ==> Dispatch(c, req) == Err(NoSuchBean(req.providerConfig.ref))
    ensures req.providerConfig.ref in c.beans && req.providerConfig.nozzle !in c.classes ==>
      Dispatch(c, req) == Err(ClassNotFound(req.providerConfig.nozzle))
    ensures (req.providerConfig.ref in c.beans && req.providerConfig.nozzle in c.classes
      && KeyOf(req) !in c.classes[req.providerConfig.nozzle]) ==>
      Dispatch(c, req) == Err(NoSuchMethod(KeyOf(req)))
  {
  }

  /** The uuid only travels: two requests that differ in nothing but the uuid
      get the same answer apart from its requestId. */
  lemma DispatchIgnoresUuid(c: Container, req: RequestData, uuid: string)
    ensures Dispatch(c, req.(uuid := uuid)).Ok? <==> Dispatch(c, req).Ok?
    ensures Dispatch(c, req).Ok? ==>
      Dispatch(c, req.(uuid := uuid)).value == Dispatch(c, req).value.(requestId := uuid)
    ensures Dispatch(c, req).Err? ==> Dispatch(c, req.(uuid := uuid)) == Dispatch(c, req)
  {
  }

  /** The server's side of one connection. */
  class ServerContext {
    var written: seq<Response>
    var open: bool

    constructor ()
      ensures written == [] && open
    {
      written, open := [], true;
    }

    method WriteAndFlush(r: Response)
      modifies this
      ensures written == old(written) + [r] && open == old(open)
    {
      written := written + [r];
    }

    method Close()
      modifies this
      ensures written == old(written) && !open
    {
      open := false;
    }
  }

  class ServerHandler {
    const container: Container

    constructor (container: Container)
      ensures this.container == container
    {
      this.container := container;
    }

    /** `channelRead`: on success exactly one Response is written; a failure
        propagates out of the read (returned here) and nothing is written. */
    method ChannelRead(ctx: ServerContext, req: RequestData) returns (thrown: Option<DispatchError>)
      modifies ctx
      ensures ctx.open == old(ctx.open)
      ensures Dispatch(container, req).Ok? ==>
        ctx.written == old(ctx.written) + [Dispatch(container, req).value] && thrown == None
      ensures Dispatch(container, req).Err? ==>
        ctx.written == old(ctx.written) && thrown == Some(Dispatch(container, req).error)
    {
      var pc := req.providerConfig;
      if pc.ref !in container.beans {
        return Some(NoSuchBean(pc.ref));
      }
      var bean := container.beans[pc.ref];
      if pc.nozzle !in container.classes {
        return Some(ClassNotFound(pc.nozzle));
      }
      var key := MethodKey(req.methodName, req.parameterTypes);
      if key !in container.classes[pc.nozzle] {
        return Some(NoSuchMethod(key));
      }
      if pc.nozzle !in bean.interfaces {
        return Some(NotAnInstance(pc.ref, pc.nozzle));
      }
      var outcome := bean.run(pc.nozzle, key, req.args);
      if outcome.Threw? {
        return Some(InvocationFailed(outcome.cause));
      }
      var response := Response(req.uuid, outcome.value);
      ctx.WriteAndFlush(response);
      thrown := None;
    }

    /** `exceptionCaught` closes the connection. */
    method ExceptionCaught(ctx: ServerContext, cause: DispatchError)
      modifies ctx
      ensures ctx.written == old(ctx.written) && !ctx.open
    {
      ctx.Close();
    }

    /** Netty's handling of one inbound request: the read, and on a failure the
        handler's `exceptionCaught`. */
    method Serve(ctx: ServerContext, req: RequestData)
      modifies ctx
      ensures Dispatch(container, req).Ok? ==>
        ctx.written == old(ctx.written) + [Dispatch(container, req).value] && ctx.open == old(ctx.open)
      ensures Dispatch(container, req).Err? ==> ctx.written == old(ctx.written) && !ctx.open
    {
      var thrown := ChannelRead(ctx, req);
      if thrown.Some? {
        ExceptionCaught(ctx, thrown.value);
      }
    }
  }
}
