/** The messages exchanged by the RPC client and server.  `Request` is a
    mutable bean in the program (the client stub overwrites its fields on
    every call), so it is a class here; what travels on the wire is the
    value `RequestData` taken from it when it is written. */
module RpcTypes {
  import opened Base

  /** Where a service lives: `nozzle` is the interface's fully qualified
      name, `ref` the name of the implementing bean in the provider's
      container. */
  datatype ProviderConfig = ProviderConfig(nozzle: string, ref: string, host: string, port: int)

  /** A request as serialised: a null `args` array (a call of a method
      without parameters) is the empty sequence. */
  datatype RequestData = RequestData(
    uuid: string,
    providerConfig: ProviderConfig,
    methodName: string,
    parameterTypes: seq<string>,
    args: seq<Value>)

  datatype Response = Response(requestId: string, result: Value)

  class Request {
    var uuid: string
    var providerConfig: ProviderConfig
    var methodName: string
    var parameterTypes: seq<string>
    var args: seq<Value>

    /** A request as `ConsumerBean.getObject` builds it: uuid and provider
        set, the call fields not yet filled in.  The source leaves them
        `null`; here they start empty.  No one reads them before the first
        `invoke` overwrites all three, so the difference is never seen. */
    constructor (uuid: string, providerConfig: ProviderConfig)
      ensures this.uuid == uuid && this.providerConfig == providerConfig
      ensures methodName == "" && parameterTypes == [] && args == []
    {
      this.uuid := uuid;
      this.providerConfig := providerConfig;
      methodName := "";
      parameterTypes := [];
      args := [];
    }

    /** The value that is serialised when the request is written. */
    function Snapshot(): (d: RequestData)
      reads this
      ensures d.uuid == uuid && d.providerConfig == providerConfig
      ensures d.methodName == methodName && d.parameterTypes == parameterTypes && d.args == args
    {
      RequestData(uuid, providerConfig, methodName, parameterTypes, args)
    }
  }
}
