/** The client stub: `ConsumerBean.getObject` builds one `Request` per
    referenced interface, and every call through the stub's
    `ConsumerBeanProxy` overwrites that request's call fields and sends it
    through a lazily connected client socket. */
module ConsumerStub {
  import opened Base
  import opened RpcTypes
  import opened Correlation
  import opened ClientTransport

  datatype StubError =
    | ProviderNotFound(nozzle: string)  // the registry has no provider
    | NullResponse                      // writeMessage timed out: response.getResult() on null

  /** The value a call returns for the response `writeMessage` yields. */
  function CallResult(r: Option<Response>): (v: Try<Value, StubError>)
    ensures r.None? <==> v == Err(NullResponse)
    ensures r.Some? ==> v == Ok(r.value.result)
  {
    match r
    case None => Err(NullResponse)
    case Some(resp) => Ok(resp.result)
  }

  class ConsumerBeanProxy {
    const request: Request
    var clientSocket: ClientSocket?

    /** A cached client has been started and is connected. */
    ghost predicate Valid()
      reads this, clientSocket
    {
      clientSocket != null ==> clientSocket.channelFuture.Some?
    }

    constructor (request: Request)
      ensures this.request == request && clientSocket == null && Valid()
    {
      this.request := request;
      clientSocket := null;
    }

    /** `getClient`: the cached client, or a new one for the provider's host
        and port, started, cached and waited for until ready. */
    method GetClient() returns (c: ClientSocket)
      requires Valid()
      modifies this
      ensures Valid() && clientSocket == c
      ensures old(clientSocket) != null ==> c == old(clientSocket) && c.channelFuture == old(c.channelFuture)
      ensures old(clientSocket) == null ==>
        && fresh(c) && c.host == request.providerConfig.host && c.port == request.providerConfig.port
        && c.channelFuture.Some? && fresh(c.channelFuture.value) && c.channelFuture.value.written == []
    {
      if clientSocket != null {
        return clientSocket;
      }
      var pc := request.providerConfig;
      c := new ClientSocket(pc.host, pc.port);
      clientSocket := c;
      // new Thread(clientSocket).start(): the connection is made by `run`,
      // after which the loop polling `isReady` ends at once
      c.Run();
      var ready := c.IsReady();
      assert ready;
    }

    /** The channel the calls go out on, once a client exists. */
    ghost function Channels(): set<object>
      reads this, clientSocket
      requires Valid()
    {
      if clientSocket != null then {clientSocket.channelFuture.value} else {}
    }

    /** `invoke`: obtain the client, overwrite the call fields of the one
        shared request, send it and return the response's result.  The uuid
        and provider are never touched, so every call carries the same uuid. */
    method Invoke(methodName: string, parameterTypes: seq<string>, args: seq<Value>,
                  table: WriteFutureMap, arriving: seq<Response>)
      returns (r: Try<Value, StubError>)
      requires Valid() && table.Valid()
      modifies this, request, table, table.syncMap.Values, Channels()
      ensures Valid() && table.Valid() && clientSocket != null
      ensures old(clientSocket) != null ==> clientSocket == old(clientSocket)
      ensures old(clientSocket) == null ==> fresh(clientSocket) && fresh(clientSocket.channelFuture.value)
      ensures forall u | u in table.syncMap :: table.syncMap[u] in old(table.syncMap.Values) || fresh(table.syncMap[u])
      ensures request.uuid == old(request.uuid) && request.providerConfig == old(request.providerConfig)
      ensures request.methodName == methodName && request.parameterTypes == parameterTypes && request.args == args
      ensures old(clientSocket) != null ==>
        clientSocket.channelFuture.value.written == old(clientSocket.channelFuture.value.written) + [request.Snapshot()]
      ensures old(clientSocket) == null ==> clientSocket.channelFuture.value.written == [request.Snapshot()]
      ensures r == CallResult(Await(old(table.View()), old(request.uuid), arriving))
      ensures old(request.uuid) !in table.syncMap
    {
      ghost var view := table.View();
      var client := GetClient();
      request.methodName := methodName;
      request.parameterTypes := parameterTypes;
      request.args := args;
      assert table.View() == view;
      var response := client.WriteMessage(request.Snapshot(), table, arriving);
      r := CallResult(response);
    }
  }

  /** `ConsumerBean.getObject`: look the interface up in the registry
      (`registered`) and build a stub around a request with a new uuid. */
  method GetObject(nozzle: string, registered: Option<ProviderConfig>, uuid: string)
    returns (r: Try<ConsumerBeanProxy, StubError>)
    ensures registered.None? <==> r == Err(ProviderNotFound(nozzle))
    ensures registered.Some? ==>
      && r.Ok? && fresh(r.value) && fresh(r.value.request) && r.value.Valid() && r.value.clientSocket == null
      && r.value.request.uuid == uuid && r.value.request.providerConfig == registered.value
  {
    if registered.None? {
      return Err(ProviderNotFound(nozzle));
    }
    var request := new Request(uuid, registered.value);
    var proxy := new ConsumerBeanProxy(request);
    r := Ok(proxy);
  }

  /** Two calls through one stub send two requests with one and the same uuid,
      the one the stub was built with. */
  method TwoCallsShareUuid(pc: ProviderConfig, uuid: string, first: string, second: string)
    returns (sent: seq<RequestData>)
    ensures |sent| == 2 && sent[0].uuid == uuid && sent[1].uuid == uuid
    ensures sent[0].methodName == first && sent[1].methodName == second
  {
    var made := GetObject(pc.nozzle, Some(pc), uuid);
    var stub := made.value;
    var table := new WriteFutureMap();
    var _ := stub.Invoke(first, [], [], table, []);
    var r2 := stub.Invoke(second, [], [], table, []);
    sent := stub.clientSocket.channelFuture.value.written;
  }

  /** The consequence of reusing the uuid: when the first call times out and
      its answer arrives late, the second call returns that stale answer. */
  method LateAnswerReachesNextCall(pc: ProviderConfig, uuid: string, late: Value)
    returns (r1: Try<Value, StubError>, r2: Try<Value, StubError>)
    ensures r1 == Err(NullResponse) && r2 == Ok(late)
  {
    var made := GetObject(pc.nozzle, Some(pc), uuid);
    var stub := made.value;
    var table := new WriteFutureMap();
    r1 := stub.Invoke("first", [], [], table, []);
    TimeoutIsNull(map[], uuid, []);
    ghost var before := table.View();
    ChannelRead(table, Response(uuid, late));
    StaleAnswerIsReturned(before, uuid, Response(uuid, late), []);
    r2 := stub.Invoke("second", [], [], table, []);
  }
}
