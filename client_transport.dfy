/** The client side of the RPC transport: the inbound handler that fulfils
    correlation cells and the socket that writes a request and waits for its
    answer.  Netty's event loop is the sequence of responses that arrive
    while a caller waits. */
module ClientTransport {
  import opened Base
  import opened RpcTypes
  import opened Correlation

  /** The host and port the client socket's `run` connects to. */
  const CONNECT_HOST := "127.0.0.1"
  const CONNECT_PORT := 6666

  /** How long `writeMessage` waits for its answer. */
  const WRITE_TIMEOUT_MILLIS := 10000

  /** The client's connection: the requests written to it, in order. */
  class Channel {
    const remoteHost: string
    const remotePort: int
    var active: bool
    var written: seq<RequestData>

    constructor (host: string, port: int)
      ensures remoteHost == host && remotePort == port && active && written == []
    {
      remoteHost, remotePort := host, port;
      active, written := true, [];
    }

    method WriteAndFlush(r: RequestData)
      modifies this
      ensures written == old(written) + [r] && active == old(active)
    {
      written := written + [r];
    }
  }

  /** `ClientHandler.channelRead`: the response's cell, created when the
      uuid is unknown, is released with the response. */
  method ChannelRead(table: WriteFutureMap, resp: Response)
    requires table.Valid()
    modifies table, table.syncMap.Values
    ensures table.Valid()
    ensures table.View() == Fulfil(old(table.View()), resp)
    ensures forall u | u in table.syncMap :: table.syncMap[u] in old(table.syncMap.Values) || fresh(table.syncMap[u])
    ensures forall u | u in old(table.syncMap) :: u in table.syncMap && table.syncMap[u] == old(table.syncMap[u])
  {
    var f := table.GetWriteFuture(resp.requestId);
    label got:
    f.SetResponse(resp);
    forall u | u in table.syncMap && u != resp.requestId
      ensures table.syncMap[u].State() == old@got(table.syncMap[u].State())
    {
    }
  }

  /** The event loop hands the responses `rs` to `ChannelRead` in order. */
  method DeliverAll(table: WriteFutureMap, rs: seq<Response>)
    requires table.Valid()
    modifies table, table.syncMap.Values
    ensures table.Valid()
    ensures table.View() == FulfilAll(old(table.View()), rs)
    ensures forall u | u in table.syncMap :: table.syncMap[u] in old(table.syncMap.Values) || fresh(table.syncMap[u])
    ensures forall u | u in old(table.syncMap) :: u in table.syncMap && table.syncMap[u] == old(table.syncMap[u])
  {
    for i := 0 to |rs|
      invariant table.Valid()
      invariant table.View() == FulfilAll(old(table.View()), rs[..i])
      invariant forall u | u in table.syncMap :: table.syncMap[u] in old(table.syncMap.Values) || fresh(table.syncMap[u])
      invariant forall u | u in old(table.syncMap) :: u in table.syncMap && table.syncMap[u] == old(table.syncMap[u])
    {
      ChannelRead(table, rs[i]);
      assert rs[..i + 1][..i] == rs[..i];
    }
    assert rs[..|rs|] == rs;
  }

  class ClientSocket {
    /** The address the stub asks for; `run` does not use it. */
    const host: string
    const port: int
    var channelFuture: Option<Channel>

    constructor (host: string, port: int)
      ensures this.host == host && this.port == port && channelFuture == None
    {
      this.host, this.port := host, port;
      channelFuture := None;
    }

    /** `run`: connect to the fixed server address. */
    method Run()
      modifies this
      ensures channelFuture.Some? && fresh(channelFuture.value)
      ensures channelFuture.value.remoteHost == CONNECT_HOST && channelFuture.value.remotePort == CONNECT_PORT
      ensures channelFuture.value.active && channelFuture.value.written == []
    {
      var ch := new Channel(CONNECT_HOST, CONNECT_PORT);
      channelFuture := Some(ch);
    }

    method IsReady() returns (r: bool)
      ensures r <==> channelFuture.Some? && channelFuture.value.active
    {
      if channelFuture.Some? {
        r := channelFuture.value.active;
      } else {
        r := false;
      }
    }

    /** `writeMessage`: register the uuid, write the request once, let the
        responses `arriving` within the timeout be delivered, take the answer
        (null on timeout) and unregister the uuid. */
    method WriteMessage(request: RequestData, table: WriteFutureMap, arriving: seq<Response>)
      returns (r: Option<Response>)
      requires table.Valid() && channelFuture.Some?
      modifies table, table.syncMap.Values, channelFuture.value
      ensures table.Valid()
      ensures channelFuture == old(channelFuture)
      ensures channelFuture.value.written == old(channelFuture.value.written) + [request]
      ensures r == Await(old(table.View()), request.uuid, arriving)
      ensures table.View() == Remove(FulfilAll(GetOrCreate(old(table.View()), request.uuid), arriving), request.uuid)
      ensures request.uuid !in table.syncMap
      ensures forall u | u in table.syncMap :: table.syncMap[u] in old(table.syncMap.Values) || fresh(table.syncMap[u])
    {
      var ch := channelFuture.value;
      ghost var before := table.View();
      ghost var m0 := table.syncMap;
      var f := table.GetWriteFuture(request.uuid);
      ghost var registered := table.View();
      ghost var futures := table.syncMap;
      ch.WriteAndFlush(request);
      ghost var sent := ch.written;
      assert table.syncMap == futures && table.View() == registered;
      r := WaitAnswer(table, request.uuid, f, arriving);
      assert ch.written == sent;
      ghost var delivered := table.View();
      ghost var waited := table.syncMap;
      assert delivered == FulfilAll(GetOrCreate(before, request.uuid), arriving);
      assert r == Await(before, request.uuid, arriving);
      table.RemoveWriteFuture(request.uuid);
      forall u | u in table.syncMap
        ensures table.syncMap[u] in old(table.syncMap.Values) || fresh(table.syncMap[u])
      {
        var x := table.syncMap[u];
        assert u in waited && waited[u] == x;
        if x in futures.Values {
          var w :| w in futures && futures[w] == x;
          if w != request.uuid {
            assert w in m0 && m0[w] == x;
          }
        }
      }
    }
  }

  /** The wait of `writeMessage`: the responses `arriving` are delivered,
      then the answer is read from the caller's cell. */
  method WaitAnswer(table: WriteFutureMap, uid: string, f: WriteFuture, arriving: seq<Response>)
    returns (r: Option<Response>)
    requires table.Valid() && uid in table.syncMap && f == table.syncMap[uid]
    modifies table, table.syncMap.Values
    ensures table.Valid()
    ensures table.View() == FulfilAll(old(table.View()), arriving)
    ensures r == (var cell := table.View()[uid]; if cell.released then cell.response else None)
    ensures forall u | u in table.syncMap :: table.syncMap[u] in old(table.syncMap.Values) || fresh(table.syncMap[u])
  {
    DeliverAll(table, arriving);
    assert f == table.syncMap[uid];
    r := f.GetTimeout(WRITE_TIMEOUT_MILLIS);
  }
}
