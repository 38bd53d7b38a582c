# spring-middleware, modelled in Dafny

This project models the sequential logic inside a set of Java middleware demos built on Spring, Netty, JDBC and ZooKeeper, and proves properties of that logic. Each module below matches one part of the middleware.

- **RPC wire framing** (`Framing`): frames are a 4-byte big-endian length followed by the payload. The encoder appends one frame to a `ByteBuf`. The decoder takes at most one frame from the input buffer and leaves the buffer untouched while the frame is incomplete. A cumulating driver models Netty's decode loop: it appends each received chunk and calls `decode` until no progress is made. An exception ends that read only. The cumulation and its reader index are kept, so the next read resumes decoding where the failed one stopped. This is what the client's pipeline does, since it has no handler that closes the channel. The server's handler closes the connection on an exception (`ServerDispatch.ServerHandler.ExceptionCaught`).
- **RPC request/response correlation** (`Correlation`, `ClientTransport`):
  - `WriteFuture` is the one-slot response cell. Its latch is a `released` flag.
  - `WriteFutureMap` is the get-or-create table from request uuid to cell.
  - The client handler fulfils cells.
  - `ClientSocket.writeMessage` registers the uuid, writes the request, waits for the answer and removes the uuid. The responses that arrive during the wait are a parameter.
- **RPC server dispatch and client stub** (`ServerDispatch`, `ConsumerStub`, `RpcTypes`):
  - The provider resolves the bean, the interface and the method, invokes it, and answers with the request's uuid.
  - The consumer stub caches one client.
  - The stub overwrites the call fields of one shared `Request` on every call.
- **Database shard routing** (`DbRouter`): Java 32-bit `int` arithmetic turns the routing attribute's hash into a slot index, then into a 1-based database number and a 0-based table number. Both are formatted with `%02d` and held in thread-local slots while the intercepted call runs.
- **Mini-ORM**:
  - `SqlPlaceholders`: the `#{name}` rewriting loop.
  - `SqlBuilder`: the data-source map and the mapper statements, keyed by `namespace.id`.
  - `SqlSession`: parameter binding, setter-name derivation, result objects, and the `selectOne`/`selectList`/`close` rules.
  - `MapperFactory`: how the mapper proxy routes a call to the session.
- **Distributed task control**:
  - `TaskTypes`: task ids and fixed paths.
  - `TaskSchedule`: the guarded schedule table.
  - `ZkCurator`: ancestor-path creation of ZooKeeper nodes, and the listener that turns a start/stop instruct into a schedule change.
  - `SchedulerConfig`: task registration when beans are created, scheduling of the auto-start tasks, and writing of the task nodes.
- **AOP gates and result values** (`WhiteList`, `MethodExt`, `Common`): the whitelist gate, the method-extension gate, and the `Result`, `ErrorCode` and `BizException` values they use.

Things outside the Java code become parameters of the model. These are the protostuff codec (`ser`/`de`), the Spring container and reflection, the JDBC driver, the XML loader, UTF-8 decoding, JSON parsing and rendering, the clock, and the Netty event loop. A Java `null` reference is `None`, and a thrown exception is an `Err` or `Thrown` result.

There are two `ErrorCode` enums in the sources: `src/main/java/com/aric/middleware/common/ErrorCode.java` and `middle/src/main/java/com/aric/middleware/common/ErrorCode.java`. The model uses the second one because it is the only one with the method-extension codes. The other enum's constants are a prefix of it.

`ConsumerBeanProxy` builds its client with `new ClientSocket(host, port)`, but the `ClientSocket` source has no such constructor. The model stores host and port in the socket, and `run` ignores them and connects to 127.0.0.1:6666, as the source's `run` does.

## Model

| member | source | states |
|---|---|---|
| Framing.ReadInt32OfInt32Bytes | rpc/src/main/java/com/aric/middleware/rpc/network/Decoder.java:24 | reading 4 bytes as a signed big-endian int gives back the value `writeInt` wrote, wherever the bytes sit in the stream |
| Framing.Frame | rpc/src/main/java/com/aric/middleware/rpc/network/Encoder.java:17-19 | a frame is 4 plus the payload's length long; its first 4 bytes are the big-endian length and the rest is the payload unchanged |
| Framing.Encode | rpc/src/main/java/com/aric/middleware/rpc/network/Encoder.java:16-20 | the output buffer becomes its old bytes followed by the frame of the serialised message; nothing already in it changes and the reader index stays |
| Framing.DecodeAt | rpc/src/main/java/com/aric/middleware/rpc/network/Decoder.java:18-36 | nothing is consumed exactly when fewer than 4 bytes, or fewer than the announced length, follow; a negative length consumes the header and fails; otherwise the payload is exactly bytes 4 to 4+length and reading continues right after it |
| Framing.Decoder.Decode | rpc/src/main/java/com/aric/middleware/rpc/network/Decoder.java:18-36 | an incomplete frame leaves the reader index where it was (the mark/reset) and emits nothing; a whole frame moves the index past the frame and appends exactly one message, or reports the payload the codec cannot read; a negative length reports the failing array allocation |
| Framing.ParseFrom | rpc/src/main/java/com/aric/middleware/rpc/network/Decoder.java:19-35 | repeated decoding never moves the reader index backwards or past the end of the data |
| Framing.DecodeAtExtend | rpc/src/main/java/com/aric/middleware/rpc/network/Decoder.java:19-35 | once a frame (or a negative length) is found, more arriving bytes do not change what is found |
| Framing.ParseExtend | rpc/src/main/java/com/aric/middleware/rpc/network/Decoder.java:19-35 | decoding a longer stream first yields everything the shorter one yielded, then continues where it stopped; after an error later bytes are never read |
| Framing.DecodeAtShift | rpc/src/main/java/com/aric/middleware/rpc/network/Decoder.java:19-35 | a frame found after a prefix is the frame found in the suffix alone, shifted by the prefix length |
| Framing.ParseShift | rpc/src/main/java/com/aric/middleware/rpc/network/Decoder.java:19-35 | decoding after a prefix yields the messages and error of decoding the suffix alone, with positions shifted |
| Framing.FeedAllIsParse | rpc/src/main/java/com/aric/middleware/rpc/network/Decoder.java:19-35 | the cumulating driver, fed any chunking of a stream, has received the whole stream; it has thrown an error exactly when decoding the stream in one piece does; without one it has handed on exactly the one-piece messages and stops at the same reader index; with one, its first error is the one-piece error and it handed on the one-piece messages first |
| Framing.FeedStepClean | rpc/src/main/java/com/aric/middleware/rpc/network/Decoder.java:19-35 | a read after error-free reads continues the one-piece decoding |
| Framing.FeedStepFailed | rpc/src/main/java/com/aric/middleware/rpc/network/Decoder.java:19-35 | a read after a failed read keeps the first error and the messages handed on before it |
| Framing.ChunkIndependence | rpc/src/main/java/com/aric/middleware/rpc/network/Decoder.java:19-35 | two chunkings of the same stream agree on whether an error is thrown; without one they hand on the same messages, with one the same first error |
| Framing.ChunkingMattersAfterError | rpc/src/main/java/com/aric/middleware/rpc/network/Decoder.java:31-35 | after an error the outcome depends on the chunking: an undecodable frame and a good one, as two chunks, hand on the good message on the second read; as one chunk, decoding stops at the exception and hands on nothing |
| Framing.FramesRoundTrip | rpc/src/main/java/com/aric/middleware/rpc/network/Encoder.java:17-19 | when the codec reads back what it writes, decoding the encoder's frames for a sequence of messages yields exactly those messages, consumes every byte and raises no error |
| Framing.DecodeAtFrame | rpc/src/main/java/com/aric/middleware/rpc/network/Decoder.java:24-35 | decoding at the start of a frame finds exactly the framed payload, whatever follows it |
| Framing.EncodeThenDecode | rpc/src/main/java/com/aric/middleware/rpc/network/Encoder.java:16-20 | encoding one message into an empty buffer and calling decode once yields that message alone, consumes 4 plus the payload's length bytes and raises no error |
| Framing.FrameDriver.ChannelRead | rpc/src/main/java/com/aric/middleware/rpc/network/Decoder.java:18-36 | the chunk is appended and decoding resumes at the reader index, also after an earlier read threw; the read hands on exactly the messages of decoding from there, records its exception if any and leaves the reader index where decoding stopped; afterwards the driver has thrown exactly when the one-piece decoding of everything received does, and without an error it has handed on exactly the one-piece messages |
| Framing.FrameDriver.CallDecode | rpc/src/main/java/com/aric/middleware/rpc/network/Decoder.java:18-36 | calling decode until it makes no progress or throws appends exactly the messages of the one-piece decoding from the reader index, records its exception, and leaves the reader index where it stops (past the failing frame after an exception) |
| Correlation.GetOrCreate | src/main/java/com/aric/middleware/rpc/network/WriteFutureMap.java:9-16 | a present uuid leaves the table unchanged; an absent one gets a fresh, unreleased cell with no response, and no other entry changes |
| Correlation.Remove | src/main/java/com/aric/middleware/rpc/network/WriteFutureMap.java:18-20 | only the uuid's entry goes (nothing changes when it is absent); every other entry keeps its cell |
| Correlation.Fulfil | src/main/java/com/aric/middleware/rpc/network/ClientHandler.java:11-12 | the response's uuid gets an entry even when unknown; that entry is released and holds exactly the response; no other entry changes |
| Correlation.FulfilAllLookup | src/main/java/com/aric/middleware/rpc/network/ClientHandler.java:8-13 | after a run of responses, an entry exists exactly when it existed or was answered, an answered entry holds the last response addressed to it, and an unanswered one keeps its state |
| Correlation.RemoveThenGetIsFresh | src/main/java/com/aric/middleware/rpc/network/WriteFutureMap.java:9-20 | after a remove, asking for the same uuid yields a fresh unreleased cell, and the other entries are unchanged |
| Correlation.AwaitOutcome | src/main/java/com/aric/middleware/rpc/network/ClientSocket.java:68-80 | a call returns the last response addressed to its uuid that arrived while it waited; with none, it returns whatever was already released under that uuid, otherwise null |
| Correlation.TimeoutIsNull | rpc/src/main/java/com/aric/middleware/rpc/network/WriteFuture.java:41-47 | a call whose uuid is new and that gets no answer returns null instead of throwing |
| Correlation.StaleAnswerIsReturned | src/main/java/com/aric/middleware/rpc/network/ClientHandler.java:11-12 | a late response for a removed uuid re-creates its cell, so a later call with that uuid and no answer of its own returns the stale response |
| Correlation.WriteFuture.constructor | rpc/src/main/java/com/aric/middleware/rpc/network/WriteFuture.java:6-7 | a new future is unreleased and holds no response |
| Correlation.WriteFuture.Cancel | rpc/src/main/java/com/aric/middleware/rpc/network/WriteFuture.java:10-13 | cancel answers false and changes nothing |
| Correlation.WriteFuture.IsCancelled | rpc/src/main/java/com/aric/middleware/rpc/network/WriteFuture.java:15-18 | never cancelled |
| Correlation.WriteFuture.IsDone | rpc/src/main/java/com/aric/middleware/rpc/network/WriteFuture.java:20-23 | never done, even after a response was set |
| Correlation.WriteFuture.GetResponse | rpc/src/main/java/com/aric/middleware/rpc/network/WriteFuture.java:25-27 | returns the stored response, null when none, without waiting |
| Correlation.WriteFuture.SetResponse | rpc/src/main/java/com/aric/middleware/rpc/network/WriteFuture.java:29-32 | the latch is released and the cell holds the new response, replacing any earlier one |
| Correlation.WriteFuture.Get | rpc/src/main/java/com/aric/middleware/rpc/network/WriteFuture.java:34-38 | once released, returns the stored response |
| Correlation.WriteFuture.GetTimeout | rpc/src/main/java/com/aric/middleware/rpc/network/WriteFuture.java:40-47 | the stored response when released, otherwise null |
| Correlation.SecondSetOverwrites | rpc/src/main/java/com/aric/middleware/rpc/network/WriteFuture.java:29-32 | a second setResponse overwrites the first, and the future still does not report itself done |
| Correlation.UnansweredTimesOut | rpc/src/main/java/com/aric/middleware/rpc/network/WriteFuture.java:40-47 | a future nobody answers times out with null |
| Correlation.WriteFutureMap.constructor | src/main/java/com/aric/middleware/rpc/network/WriteFutureMap.java:7 | the table starts empty |
| Correlation.WriteFutureMap.GetWriteFuture | src/main/java/com/aric/middleware/rpc/network/WriteFutureMap.java:9-16 | returns the stored future and leaves the table as it was, or stores and returns a new future; each uuid keeps its own future |
| Correlation.WriteFutureMap.RemoveWriteFuture | src/main/java/com/aric/middleware/rpc/network/WriteFutureMap.java:18-20 | the uuid's entry goes and nothing else changes |
| ClientTransport.ChannelRead | src/main/java/com/aric/middleware/rpc/network/ClientHandler.java:8-13 | the table's content becomes the fulfilment of the response; existing cells stay the same objects |
| ClientTransport.DeliverAll | src/main/java/com/aric/middleware/rpc/network/ClientHandler.java:8-13 | the event loop's responses are fulfilled in order |
| ClientTransport.Channel.WriteAndFlush | src/main/java/com/aric/middleware/rpc/network/ClientSocket.java:72 | the request is appended to what the channel carried |
| ClientTransport.ClientSocket.constructor | rpc/src/main/java/com/aric/middleware/rpc/proxy/ConsumerBeanProxy.java:31 | a new socket keeps the host and port it was given and has no connection yet |
| ClientTransport.ClientSocket.Run | src/main/java/com/aric/middleware/rpc/network/ClientSocket.java:45 | run connects a new, active channel to 127.0.0.1:6666, whatever host and port the socket was built with |
| ClientTransport.ClientSocket.IsReady | src/main/java/com/aric/middleware/rpc/network/ClientSocket.java:56-62 | ready exactly when a connection exists and its channel is active; false before run |
| ClientTransport.ClientSocket.WriteMessage | src/main/java/com/aric/middleware/rpc/network/ClientSocket.java:68-80 | the request is written exactly once, after its uuid is registered; the result is the awaited answer (null on timeout); afterwards the uuid is gone from the table, answered or not |
| ClientTransport.WaitAnswer | src/main/java/com/aric/middleware/rpc/network/ClientSocket.java:75 | the responses arriving in the wait are delivered, then the caller's cell yields its response if released and null otherwise |
| RpcTypes.Request.constructor | rpc/src/main/java/com/aric/middleware/rpc/config/spring/ConsumerBean.java:41-43 | a request is built with a uuid and a provider and no call fields yet |
| RpcTypes.Request.Snapshot | rpc/src/main/java/com/aric/middleware/rpc/proxy/ConsumerBeanProxy.java:51 | what is serialised is the request's current uuid, provider and call fields |
| ServerDispatch.Dispatch | rpc/src/main/java/com/aric/middleware/rpc/network/ServerHanlder.java:31-41 | a response exists exactly when the bean, the interface and the method exist, the bean implements the interface and the call returns; the response then carries the request's uuid and the result of invoking the named method with the given parameter types and arguments on the referenced bean |
| ServerDispatch.DispatchErrorOrder | rpc/src/main/java/com/aric/middleware/rpc/network/ServerHanlder.java:33-35 | an unknown bean is reported before an unknown class, which is reported before an unknown method |
| ServerDispatch.DispatchIgnoresUuid | rpc/src/main/java/com/aric/middleware/rpc/network/ServerHanlder.java:39 | the uuid only travels: changing it changes nothing but the response's requestId |
| ServerDispatch.ServerHandler.ChannelRead | rpc/src/main/java/com/aric/middleware/rpc/network/ServerHanlder.java:26-42 | on success exactly one response is written; on failure nothing is written and the failure propagates |
| ServerDispatch.ServerHandler.ExceptionCaught | rpc/src/main/java/com/aric/middleware/rpc/network/ServerHanlder.java:44-47 | the connection is closed and nothing is written |
| ServerDispatch.ServerHandler.Serve | rpc/src/main/java/com/aric/middleware/rpc/network/ServerHanlder.java:26-47 | a successful request gets exactly one response on an open connection; a failing one gets none and its connection is closed |
| ConsumerStub.CallResult | rpc/src/main/java/com/aric/middleware/rpc/proxy/ConsumerBeanProxy.java:53 | the call returns the response's result, and fails exactly when the response is null |
| ConsumerStub.ConsumerBeanProxy.constructor | rpc/src/main/java/com/aric/middleware/rpc/proxy/ConsumerBeanProxy.java:21-23 | the stub keeps the request and has no client yet |
| ConsumerStub.ConsumerBeanProxy.GetClient | rpc/src/main/java/com/aric/middleware/rpc/proxy/ConsumerBeanProxy.java:25-40 | the first call creates, starts and caches a client for the provider's host and port; later calls return the cached client unchanged |
| ConsumerStub.ConsumerBeanProxy.Invoke | rpc/src/main/java/com/aric/middleware/rpc/proxy/ConsumerBeanProxy.java:44-54 | the shared request's method name, parameter types and arguments are overwritten while its uuid and provider stay; exactly that request is written once; the result is the response's result, or the null-response failure |
| ConsumerStub.GetObject | rpc/src/main/java/com/aric/middleware/rpc/config/spring/ConsumerBean.java:34-50 | fails exactly when the registry has no provider; otherwise a new stub without a client around a new request with the given uuid and provider |
| ConsumerStub.TwoCallsShareUuid | rpc/src/main/java/com/aric/middleware/rpc/proxy/ConsumerBeanProxy.java:47-51 | two calls through one stub send two requests with one and the same uuid, the one the stub was built with |
| ConsumerStub.LateAnswerReachesNextCall | rpc/src/main/java/com/aric/middleware/rpc/proxy/ConsumerBeanProxy.java:44-54 | when the first call times out and its answer arrives late, the second call returns that stale answer |
| DbRouter.Div32 | db-router/src/main/java/com/aric/middleware/dbrouter/aop/DBRouterAop.java:39 | Java int division stays an int and agrees with mathematical division for a non-negative dividend and positive divisor |
| DbRouter.Unsigned | db-router/src/main/java/com/aric/middleware/dbrouter/aop/DBRouterAop.java:36 | the unsigned reading of an int's bits is below 2^32, reads back as the same int, and is the int itself when that is non-negative |
| DbRouter.BitAndBelow | db-router/src/main/java/com/aric/middleware/dbrouter/aop/DBRouterAop.java:36 | the bitwise and of two non-negative numbers is at most the first |
| DbRouter.SlotIndexBounds | db-router/src/main/java/com/aric/middleware/dbrouter/aop/DBRouterAop.java:36 | for a positive slot count the masked, spread hash lies between 0 and size minus 1 |
| DbRouter.HashCode | db-router/src/main/java/com/aric/middleware/dbrouter/aop/DBRouterAop.java:36 | the routing attribute's hashCode is a Java int: a Short or Integer hashes to its value, a Boolean to 1231 or 1237, a String to the JDK polynomial of its UTF-16 units in int arithmetic, a Long in int range to itself when non-negative and to its complement when negative |
| DbRouter.LongHash | db-router/src/main/java/com/aric/middleware/dbrouter/aop/DBRouterAop.java:36 | Long.hashCode of the attribute is a Java int |
| DbRouter.LongHashInt | db-router/src/main/java/com/aric/middleware/dbrouter/aop/DBRouterAop.java:36 | a long in int range hashes to itself when non-negative and to -l-1 (its bitwise complement) when negative |
| DbRouter.XorAllOnes | db-router/src/main/java/com/aric/middleware/dbrouter/aop/DBRouterAop.java:36 | xor with 2^k-1 flips the k low bits: the result is 2^k-1-x |
| DbRouter.StringHash | db-router/src/main/java/com/aric/middleware/dbrouter/aop/DBRouterAop.java:36 | String.hashCode of the attribute is a Java int |
| DbRouter.Utf16 | db-router/src/main/java/com/aric/middleware/dbrouter/aop/DBRouterAop.java:36 | the string's UTF-16 code units: at least one per character, each below 0x10000, exactly one per character when all characters are up to U+FFFF |
| DbRouter.Utf16Bmp | db-router/src/main/java/com/aric/middleware/dbrouter/aop/DBRouterAop.java:36 | a string of characters up to U+FFFF is its own code units |
| DbRouter.Poly31Snoc | db-router/src/main/java/com/aric/middleware/dbrouter/aop/DBRouterAop.java:36 | one more unit multiplies the polynomial by 31 and adds the unit |
| DbRouter.WrapStep | db-router/src/main/java/com/aric/middleware/dbrouter/aop/DBRouterAop.java:36 | reducing to 32 bits before the next Horner step changes nothing |
| DbRouter.UnitsHashPoly | db-router/src/main/java/com/aric/middleware/dbrouter/aop/DBRouterAop.java:36 | Horner's rule in int arithmetic equals the polynomial u[0]*31^(n-1) + ... + u[n-1] reduced to 32 bits |
| DbRouter.StringHashPoly | db-router/src/main/java/com/aric/middleware/dbrouter/aop/DBRouterAop.java:36 | String.hashCode is the JDK's documented polynomial over the UTF-16 units, in int arithmetic |
| DbRouter.StringHashSurrogates | db-router/src/main/java/com/aric/middleware/dbrouter/aop/DBRouterAop.java:36 | a supplementary character hashes through its surrogate pair: U+1F600 is the units 0xD83D, 0xDE00 and hashes to 1772899 |
| DbRouter.Shard | db-router/src/main/java/com/aric/middleware/dbrouter/aop/DBRouterAop.java:35-40 | the routing arithmetic fails, with a division by zero, exactly when the table count is 0 |
| DbRouter.SplitIndexInRange | db-router/src/main/java/com/aric/middleware/dbrouter/aop/DBRouterAop.java:39-40 | for an index below dbCount times tbCount, the database number is the quotient plus one, in 1..dbCount, and the table number is the remainder, in 0..tbCount-1, with no overflow |
| DbRouter.ShardInRange | db-router/src/main/java/com/aric/middleware/dbrouter/aop/DBRouterAop.java:35-40 | with positive counts whose product is an int, routing succeeds; the database number is in 1..dbCount, the table number is idx mod tbCount in 0..tbCount-1, and the pair reconstructs the slot index |
| DbRouter.ParseDigits | db-router/src/main/java/com/aric/middleware/dbrouter/aop/DBRouterAop.java:42-43 | the decimal digits of a number are digit characters that read back as the number |
| DbRouter.Format02RoundTrip | db-router/src/main/java/com/aric/middleware/dbrouter/aop/DBRouterAop.java:42-43 | a key formatted with %02d reads back as its number, negative numbers included |
| DbRouter.Format02TwoDigits | db-router/src/main/java/com/aric/middleware/dbrouter/aop/DBRouterAop.java:42-43 | numbers below 100 become exactly two digits, zero-padded |
| DbRouter.Format02Injective | db-router/src/main/java/com/aric/middleware/dbrouter/aop/DBRouterAop.java:42-43 | distinct numbers give distinct keys |
| DbRouter.RouteKeys | db-router/src/main/java/com/aric/middleware/dbrouter/aop/DBRouterAop.java:29-43 | routing fails for a call without arguments and only then for that reason; computed keys have at least two characters |
| DbRouter.ThreadLocalContext.SetDbKey | db-router/src/main/java/com/aric/middleware/dbrouter/aop/DBRouterAop.java:47 | the thread's db key is set; the table key is untouched |
| DbRouter.ThreadLocalContext.SetTbKey | db-router/src/main/java/com/aric/middleware/dbrouter/aop/DBRouterAop.java:48 | the thread's table key is set; the db key is untouched |
| DbRouter.ThreadLocalContext.ClearDbKey | db-router/src/main/java/com/aric/middleware/dbrouter/aop/DBRouterAop.java:55 | the thread's db key is cleared; the table key is untouched |
| DbRouter.ThreadLocalContext.ClearTbKey | db-router/src/main/java/com/aric/middleware/dbrouter/aop/DBRouterAop.java:56 | the thread's table key is cleared; the db key is untouched |
| DbRouter.DoRouter | db-router/src/main/java/com/aric/middleware/dbrouter/aop/DBRouterAop.java:28-58 | the intercepted call runs with data source "db" plus the db key and with the table key, and both keys are cleared afterwards whether it returned or threw; a failure before the keys are set leaves them as they were |
| SqlPlaceholders.Close | src/main/java/com/aric/middleware/mybatis/SqlSessionFactoryBuilder.java:85 | the lazy group ends at the first closing brace, which no line terminator precedes |
| SqlPlaceholders.NextMatch | src/main/java/com/aric/middleware/mybatis/SqlSessionFactoryBuilder.java:87-89 | a match is "#{", its name and "}", and ends inside the text |
| SqlPlaceholders.Scan | src/main/java/com/aric/middleware/mybatis/SqlSessionFactoryBuilder.java:87-89 | every match text the scan reports is non-empty |
| SqlPlaceholders.ScanWhole | src/main/java/com/aric/middleware/mybatis/SqlSessionFactoryBuilder.java:88-89 | group 1 of every match is "#{" plus group 2 plus "}" |
| SqlPlaceholders.Numbered | src/main/java/com/aric/middleware/mybatis/SqlSessionFactoryBuilder.java:87-90 | the parameter map's keys are exactly 1..n and slot k holds the k-th match's name |
| SqlPlaceholders.NumberedSnoc | src/main/java/com/aric/middleware/mybatis/SqlSessionFactoryBuilder.java:90 | one more match adds exactly the next slot |
| SqlPlaceholders.RewrittenSnoc | src/main/java/com/aric/middleware/mybatis/SqlSessionFactoryBuilder.java:91 | one more match replaces every occurrence of its text in the current statement by "?" |
| SqlPlaceholders.RewritePlaceholders | src/main/java/com/aric/middleware/mybatis/SqlSessionFactoryBuilder.java:84-92 | the loop numbers the matches of the original text from 1 with their names, and rewrites the statement by replacing each match's text in turn |
| SqlPlaceholders.ScanRender | src/main/java/com/aric/middleware/mybatis/SqlSessionFactoryBuilder.java:85-89 | for a statement of plain text and well-named placeholders, the scan finds exactly its placeholders, in order, one per occurrence |
| SqlPlaceholders.ReplaceRender | src/main/java/com/aric/middleware/mybatis/SqlSessionFactoryBuilder.java:91 | one replacement turns exactly the placeholders with that name into "?" markers and keeps all other text |
| SqlPlaceholders.RewrittenRender | src/main/java/com/aric/middleware/mybatis/SqlSessionFactoryBuilder.java:87-92 | after the replacements for a list of matches, exactly the placeholders with those names have become markers |
| SqlPlaceholders.TemplateRewrite | src/main/java/com/aric/middleware/mybatis/SqlSessionFactoryBuilder.java:84-92 | for a well-formed statement the loop finds every placeholder occurrence in order, and the rewritten text is the statement with "?" in place of each placeholder and all other text kept |
| SqlBuilder.SelectNodes | src/main/java/com/aric/middleware/mybatis/SqlSessionFactoryBuilder.java:75 | only child elements named select are selected |
| SqlBuilder.PropertyPairs | src/main/java/com/aric/middleware/mybatis/SqlSessionFactoryBuilder.java:48-54 | one (name, value) put per child; the cast fails exactly when some child is character data |
| SqlBuilder.GetDataSource | src/main/java/com/aric/middleware/mybatis/SqlSessionFactoryBuilder.java:43-57 | an empty element list fails; otherwise the map of the first element's children's name to value puts, a later duplicate name winning, or the cast failure |
| SqlBuilder.PropertyPairsAppend | src/main/java/com/aric/middleware/mybatis/SqlSessionFactoryBuilder.java:48-54 | the puts of two runs of children are the puts of each, in order |
| SqlBuilder.SelectEntriesAppend | src/main/java/com/aric/middleware/mybatis/SqlSessionFactoryBuilder.java:76-103 | the statements of two runs of select nodes are the statements of each, in order |
| SqlBuilder.PutStatements | src/main/java/com/aric/middleware/mybatis/SqlSessionFactoryBuilder.java:76-103 | every select of a document is rewritten and put under namespace plus "." plus id, a later one with the same key overwriting |
| SqlBuilder.MapperEntriesAppend | src/main/java/com/aric/middleware/mybatis/SqlSessionFactoryBuilder.java:64-104 | the statements of two runs of mapper resources are those of each in order; a failure in the second run is the overall failure |
| SqlBuilder.GetMapperElement | src/main/java/com/aric/middleware/mybatis/SqlSessionFactoryBuilder.java:59-107 | an empty element list fails; otherwise every statement of every mapper resource keyed by namespace.id with later keys winning, or the first failing cast or missing resource |
| Base.AssocLookup | src/main/java/com/aric/middleware/mybatis/SqlSessionFactoryBuilder.java:53 | after successive puts a key is bound exactly when some put used it, and to the value of the last such put |
| SqlSession.BindOne | middle/src/main/java/com/aric/middleware/mybatis/DefaultSqlSession.java:91-103 | a short, int, long, string or SQL date is bound at the given index with its own value; a plain java.util.Date fails the cast; any other value, null included, is silently skipped |
| SqlSession.BindingsSound | middle/src/main/java/com/aric/middleware/mybatis/DefaultSqlSession.java:125-129 | every binding is at an index 1..n, carries the value at that index, and that value has a supported type |
| SqlSession.BindingsComplete | middle/src/main/java/com/aric/middleware/mybatis/DefaultSqlSession.java:125-129 | every value of a supported type is bound at its index |
| SqlSession.BindingsAllSimple | middle/src/main/java/com/aric/middleware/mybatis/DefaultSqlSession.java:125-129 | when every value is supported, index j+1 is bound, in order, to the j-th value |
| SqlSession.SimpleParameterBindsEveryIndex | middle/src/main/java/com/aric/middleware/mybatis/DefaultSqlSession.java:106-112 | a simple parameter is bound with its own value to every index 1..size and to nothing else |
| SqlSession.NonSqlDateFails | middle/src/main/java/com/aric/middleware/mybatis/DefaultSqlSession.java:101 | a plain java.util.Date at any bound index fails the whole binding with a cast error |
| SqlSession.UnsupportedValueNotBound | middle/src/main/java/com/aric/middleware/mybatis/DefaultSqlSession.java:91-103 | an index whose slot or field is missing, or whose value is null or unsupported, gets no binding |
| SqlSession.ObjectParameterBindsFields | middle/src/main/java/com/aric/middleware/mybatis/DefaultSqlSession.java:116-129 | for an object parameter, index i is bound to the value of the field named by slot i exactly when that value has a supported type |
| SqlSession.PreparedStatement.Set | middle/src/main/java/com/aric/middleware/mybatis/DefaultSqlSession.java:93-101 | each setter call is recorded in order |
| SqlSession.SetParameter2Sql | middle/src/main/java/com/aric/middleware/mybatis/DefaultSqlSession.java:91-103 | the statement receives the binding for the value, or none, and the cast error is raised exactly for a plain java.util.Date |
| SqlSession.FieldValueMap | middle/src/main/java/com/aric/middleware/mybatis/DefaultSqlSession.java:116-123 | field name to field value, a later duplicate name winning |
| SqlSession.BindIndices | middle/src/main/java/com/aric/middleware/mybatis/DefaultSqlSession.java:125-129 | the indices 1..size receive the bindings of their values in order, unless some value is a plain java.util.Date, which raises the cast error |
| SqlSession.BuildSqlParameter | middle/src/main/java/com/aric/middleware/mybatis/DefaultSqlSession.java:105-130 | the statement receives exactly the planned bindings, or the plan's failure is raised |
| SqlSession.SetterNameShape | middle/src/main/java/com/aric/middleware/mybatis/DefaultSqlSession.java:143 | the setter name is "set", the first character upper-cased, then the rest of the column name; an empty column name fails |
| SqlSession.SetterNamesCollide | middle/src/main/java/com/aric/middleware/mybatis/DefaultSqlSession.java:143 | two columns share a setter exactly when they differ at most in the case of their first letter |
| SqlSession.ColumnCall | middle/src/main/java/com/aric/middleware/mybatis/DefaultSqlSession.java:141-151 | a column's setter is called exactly when the column name is non-empty, the value is not null and the class has that setter for the value's class (LocalDateTime for date-times) |
| SqlSession.RowCalls | middle/src/main/java/com/aric/middleware/mybatis/DefaultSqlSession.java:140-152 | a row succeeds exactly when every column's call can be made, and then yields those calls in column order |
| SqlSession.Objects | middle/src/main/java/com/aric/middleware/mybatis/DefaultSqlSession.java:138-155 | the rows succeed exactly when each does, and yield one object per row in order |
| SqlSession.ObjectsCallSetters | middle/src/main/java/com/aric/middleware/mybatis/DefaultSqlSession.java:139-154 | each result object is of the result class and carries, for column k, the call of column k's setter with that row's value |
| SqlSession.ObjectsSticky | middle/src/main/java/com/aric/middleware/mybatis/DefaultSqlSession.java:138-155 | the first failing row decides the failure; later rows do not change it |
| SqlSession.RowToObject | middle/src/main/java/com/aric/middleware/mybatis/DefaultSqlSession.java:139-154 | the loop body builds the object the row specification describes |
| SqlSession.ResultSet2Obj | middle/src/main/java/com/aric/middleware/mybatis/DefaultSqlSession.java:132-158 | the loop builds one object per row in order, or stops at the first failure |
| SqlSession.Connection.Close | middle/src/main/java/com/aric/middleware/mybatis/DefaultSqlSession.java:84 | the connection is closed |
| SqlSession.QueryAfterClose | middle/src/main/java/com/aric/middleware/mybatis/DefaultSqlSession.java:39 | on a closed connection every query fails; with the statement mapped, with the SQLException of prepareStatement |
| SqlSession.DefaultSqlSession.Run | middle/src/main/java/com/aric/middleware/mybatis/DefaultSqlSession.java:36-49 | runs the mapped statement with its bindings and builds the result objects, or yields the failure the catch swallows: a missing statement or null connection, a closed connection, a failing binding, the driver's error, an unknown result class or a failing row |
| SqlSession.DefaultSqlSession.SelectOne | middle/src/main/java/com/aric/middleware/mybatis/DefaultSqlSession.java:20-49 | the first result object; null for an empty result and for every failure, a closed connection included |
| SqlSession.DefaultSqlSession.SelectList | middle/src/main/java/com/aric/middleware/mybatis/DefaultSqlSession.java:52-78 | all result objects; the empty list on every failure |
| SqlSession.DefaultSqlSession.SelectAfterClose | middle/src/main/java/com/aric/middleware/mybatis/DefaultSqlSession.java:36-89 | after close, selectOne answers null and selectList the empty list, whatever the statement |
| SqlSession.DefaultSqlSession.Close | middle/src/main/java/com/aric/middleware/mybatis/DefaultSqlSession.java:81-89 | only a non-null connection is closed |
| MapperFactory.StatementIdParts | src/main/java/com/aric/middleware/mybatisSpring/MapperFactoryBean.java:25 | the statement id is the interface name, a dot and the method name, in that order |
| MapperFactory.StatementIdsCanCollide | src/main/java/com/aric/middleware/mybatisSpring/MapperFactoryBean.java:25 | dots are not escaped, so different interface and method pairs can share a statement id |
| MapperFactory.Route | src/main/java/com/aric/middleware/mybatisSpring/MapperFactoryBean.java:34-48 | selectList exactly for a List return type; parameterless exactly for null or empty arguments, otherwise only the first argument is passed |
| MapperFactory.LaterArgumentsIgnored | src/main/java/com/aric/middleware/mybatisSpring/MapperFactoryBean.java:42-48 | arguments after the first never reach the session |
| MapperFactory.NullAndEmptyArgumentsAgree | src/main/java/com/aric/middleware/mybatisSpring/MapperFactoryBean.java:34-41 | a null argument array and an empty one route alike |
| MapperFactory.Trace | src/main/java/com/aric/middleware/mybatisSpring/MapperFactoryBean.java:28-51 | each invocation opens a session, makes exactly the routed call, then closes the session |
| MapperFactory.Handle | src/main/java/com/aric/middleware/mybatisSpring/MapperFactoryBean.java:34-51 | the answer is the routed session call's answer, and the session's connection is closed on every path |
| TaskTypes.TaskIdParts | distribute-task/src/main/java/com/aric/middleware/distributetask/scheduler/TaskRunnable.java:28-30 | the task id is the bean name, an underscore and the method name |
| TaskTypes.TaskIdsCanCollide | distribute-task/src/main/java/com/aric/middleware/distributetask/scheduler/TaskRunnable.java:28-30 | underscores are not escaped, so two different tasks can share an id |
| TaskSchedule.AddEffect | distribute-task/src/main/java/com/aric/middleware/distributetask/scheduler/TaskScheduleCtrl.java:16-24 | adding a present id changes nothing; adding a new one stores exactly that entry and leaves the others alone |
| TaskSchedule.AddIdempotent | distribute-task/src/main/java/com/aric/middleware/distributetask/scheduler/TaskScheduleCtrl.java:17-19 | a second add with the same id, whatever its runnable and cron, is a no-op |
| TaskSchedule.RemoveEffect | distribute-task/src/main/java/com/aric/middleware/distributetask/scheduler/TaskScheduleCtrl.java:26-33 | removing an absent id changes nothing; removing a present one deletes only it |
| TaskSchedule.AddThenRemoveRestores | distribute-task/src/main/java/com/aric/middleware/distributetask/scheduler/TaskScheduleCtrl.java:16-33 | adding a new task and removing its id restores the table |
| TaskSchedule.TaskScheduleCtrl.AddTaskSchedule | distribute-task/src/main/java/com/aric/middleware/distributetask/scheduler/TaskScheduleCtrl.java:16-24 | the table becomes the guarded add; nothing is cancelled |
| TaskSchedule.TaskScheduleCtrl.RemoveTaskSchedule | distribute-task/src/main/java/com/aric/middleware/distributetask/scheduler/TaskScheduleCtrl.java:26-33 | the table becomes the guarded remove, and the removed entry's future, if any, is cancelled |
| TaskSchedule.StartTwiceThenStop | distribute-task/src/main/java/com/aric/middleware/distributetask/scheduler/TaskScheduleCtrl.java:16-33 | a task started twice and stopped leaves no entry, and its one future is cancelled once |
| ZkCurator.LastIndexOf | distribute-task/src/main/java/com/aric/middleware/distributetask/service/ZkCuratorServer.java:63-64 | the last position holding the character, or -1 when there is none |
| ZkCurator.IndexOf | distribute-task/src/main/java/com/aric/middleware/distributetask/service/ZkCuratorServer.java:128 | the first position holding the character, or -1 when there is none |
| ZkCurator.AncestorsChain | distribute-task/src/main/java/com/aric/middleware/distributetask/service/ZkCuratorServer.java:61-66 | the list starts with the path; each next element is the previous one cut at its last "/", a strict prefix of it; cutting stops when that "/" is at position 0 or absent |
| ZkCurator.AncestorsSuffix | distribute-task/src/main/java/com/aric/middleware/distributetask/service/ZkCuratorServer.java:63-66 | the list of any listed path is the rest of the list |
| ZkCurator.AncestorsShrink | distribute-task/src/main/java/com/aric/middleware/distributetask/service/ZkCuratorServer.java:63-66 | later elements are strictly shorter, so no path is listed twice |
| ZkCurator.AncestorsExample | distribute-task/src/main/java/com/aric/middleware/distributetask/service/ZkCuratorServer.java:59 | "/aric/zhu" gives itself and "/aric" |
| ZkCurator.AncestorsOfChild | distribute-task/src/main/java/com/aric/middleware/distributetask/service/ZkCuratorServer.java:63-66 | a child path adds itself in front of its parent's list |
| ZkCurator.AncestorsOfTop | distribute-task/src/main/java/com/aric/middleware/distributetask/service/ZkCuratorServer.java:63 | a top-level path is its own list |
| ZkCurator.AncestorPaths | distribute-task/src/main/java/com/aric/middleware/distributetask/service/ZkCuratorServer.java:61-66 | the first loop builds exactly the ancestor list |
| ZkCurator.ZkClient.CheckExists | distribute-task/src/main/java/com/aric/middleware/distributetask/service/ZkCuratorServer.java:68 | a node is reported exactly when it exists |
| ZkCurator.ZkClient.Create | distribute-task/src/main/java/com/aric/middleware/distributetask/service/ZkCuratorServer.java:70 | an existing node is refused and nothing changes; otherwise the node and its parents exist afterwards, the node holds the client's default data, each missing parent holds empty data, and no other data changes |
| ZkCurator.ZkClient.SetData | distribute-task/src/main/java/com/aric/middleware/distributetask/service/ZkCuratorServer.java:89-92 | an existing node takes the data; setting data on a missing node does nothing |
| ZkCurator.ZkClient.DeleteSubtree | distribute-task/src/main/java/com/aric/middleware/distributetask/service/ZkCuratorServer.java:116 | the node and every node below it go, with their data |
| ZkCurator.CreateNode | distribute-task/src/main/java/com/aric/middleware/distributetask/service/ZkCuratorServer.java:60-73 | every listed path exists afterwards; exactly the missing ones are created, shortest first, each once; each created node holds the client's default data (its parents exist already when it is created) and no other data changes |
| ZkCurator.CreateNodeData | distribute-task/src/main/java/com/aric/middleware/distributetask/service/ZkCuratorServer.java:67-72 | one turn of the loop adds the default data of exactly the node it creates |
| ZkCurator.DeletingChildrenIfNeeded | distribute-task/src/main/java/com/aric/middleware/distributetask/service/ZkCuratorServer.java:113-117 | an existing node is deleted with everything below it; a missing one changes nothing |
| ZkCurator.JsonShapedIff | distribute-task/src/main/java/com/aric/middleware/distributetask/service/ZkCuratorServer.java:128 | the text gate accepts exactly texts of at least two characters that open with "{" and close with "}" |
| ZkCurator.FirstTask | distribute-task/src/main/java/com/aric/middleware/distributetask/service/ZkCuratorServer.java:143-149 | the first task whose method name equals the instruct's; none exactly when no task has it |
| ZkCurator.FindTask | distribute-task/src/main/java/com/aric/middleware/distributetask/service/ZkCuratorServer.java:143-149 | the loop finds that first matching task |
| ZkCurator.RouteActs | distribute-task/src/main/java/com/aric/middleware/distributetask/service/ZkCuratorServer.java:123-166 | the schedule changes exactly for non-empty, well-shaped, parsable text whose instruct names this host, a known bean and one of its task methods; a start schedules the first such task on its cron, a stop removes the id of bean underscore method |
| ZkCurator.OnEvent | distribute-task/src/main/java/com/aric/middleware/distributetask/service/ZkCuratorServer.java:123-166 | a start adds the routed runnable, a stop removes the routed id, and every other event leaves the schedule as it was |
| SchedulerConfig.ExecTasks | distribute-task/src/main/java/com/aric/middleware/distributetask/config/SchedulerAutoConfig.java:47-63 | one task per annotated method |
| SchedulerConfig.ExecTasksContents | distribute-task/src/main/java/com/aric/middleware/distributetask/config/SchedulerAutoConfig.java:47-63 | every task copies bean, bean name, method name, cron, autoStart and desc of an annotated method, and every annotated method has its task |
| SchedulerConfig.CountAnnotatedZero | distribute-task/src/main/java/com/aric/middleware/distributetask/config/SchedulerAutoConfig.java:65 | a bean has no tasks exactly when none of its methods is annotated |
| SchedulerConfig.RegisterEffect | distribute-task/src/main/java/com/aric/middleware/distributetask/config/SchedulerAutoConfig.java:42-68 | a registered name is never overwritten; an unregistered bean is added exactly when one of its methods is annotated, with its tasks; other entries stay |
| SchedulerConfig.CollectTasks | distribute-task/src/main/java/com/aric/middleware/distributetask/config/SchedulerAutoConfig.java:47-63 | the scan over the declared methods builds exactly the bean's tasks, in the order the reflection scan returns the methods |
| SchedulerConfig.PostProcessAfterInitialization | distribute-task/src/main/java/com/aric/middleware/distributetask/config/SchedulerAutoConfig.java:41-71 | the registry changes as registration says, and the bean is returned unchanged |
| SchedulerConfig.ScheduledFromEmpty | distribute-task/src/main/java/com/aric/middleware/distributetask/config/SchedulerAutoConfig.java:108-121 | from an empty table, the scheduled ids are exactly the ids of the scheduled tasks |
| SchedulerConfig.ScheduleTask | distribute-task/src/main/java/com/aric/middleware/distributetask/config/SchedulerAutoConfig.java:112-118 | an auto-start task is scheduled on its cron, any other is skipped; nothing is cancelled |
| SchedulerConfig.ScheduleTasks | distribute-task/src/main/java/com/aric/middleware/distributetask/config/SchedulerAutoConfig.java:111-119 | exactly one bean's auto-start tasks are scheduled |
| SchedulerConfig.InitTaskSchedule | distribute-task/src/main/java/com/aric/middleware/distributetask/config/SchedulerAutoConfig.java:108-121 | every registered auto-start task is scheduled (a taken id stays as it was), every old entry is kept, and each new entry comes from an auto-start task on its cron |
| SchedulerConfig.NodePathAncestors | distribute-task/src/main/java/com/aric/middleware/distributetask/config/SchedulerAutoConfig.java:130 | for names without "/", creating a task's node makes the task node, its bean node, "/taskschedule/task" and "/taskschedule" |
| SchedulerConfig.NodePathBelowRoot | distribute-task/src/main/java/com/aric/middleware/distributetask/config/SchedulerAutoConfig.java:126-130 | every task node lies strictly below the schedule root, so the initial delete clears every node written earlier |
| SchedulerConfig.NodesWrittenMeaning | distribute-task/src/main/java/com/aric/middleware/distributetask/config/SchedulerAutoConfig.java:129-133 | after the writes, a task's node exists and holds the JSON text of a task with that node; a node that existed and is no task's keeps its data; a new node that is no task's holds the client's default data |
| SchedulerConfig.WriteTaskNode | distribute-task/src/main/java/com/aric/middleware/distributetask/config/SchedulerAutoConfig.java:130-132 | the task's node is created with its missing ancestors, which hold the client's default data, and takes the task's text |
| SchedulerConfig.WriteTaskNodes | distribute-task/src/main/java/com/aric/middleware/distributetask/config/SchedulerAutoConfig.java:129-133 | every task of one bean has its node written |
| SchedulerConfig.WriteAllTaskNodes | distribute-task/src/main/java/com/aric/middleware/distributetask/config/SchedulerAutoConfig.java:127-134 | every registered task has its node written, every old node is kept, every new node is on the way to a task node and holds the default data unless it is a task node |
| SchedulerConfig.InitTaskNode | distribute-task/src/main/java/com/aric/middleware/distributetask/config/SchedulerAutoConfig.java:123-138 | the schedule root's subtree is deleted, then every registered task's node exists with its ancestors and holds the task's JSON text, and the recreated intermediate nodes hold the client's default data |
| WhiteList.SplitAllJoin | middle/src/main/java/com/aric/middleware/aop/WhiteListProcessAop.java:66 | the pieces between commas hold no comma and joined with commas give back the users string |
| WhiteList.DropTrailingEmpty | middle/src/main/java/com/aric/middleware/aop/WhiteListProcessAop.java:66 | a prefix of the pieces that drops only trailing empty pieces and does not end with an empty piece |
| WhiteList.JavaSplitPieces | middle/src/main/java/com/aric/middleware/aop/WhiteListProcessAop.java:66 | split(",") yields the pieces between commas with only trailing empty pieces dropped, none holding a comma |
| WhiteList.JavaSplitTwo | middle/src/main/java/com/aric/middleware/aop/WhiteListProcessAop.java:66 | "a,b" splits into "a" and "b" |
| WhiteList.JavaSplitTrailing | middle/src/main/java/com/aric/middleware/aop/WhiteListProcessAop.java:66 | "a,,b,," splits into "a", "" and "b": inner empty pieces stay, trailing ones go |
| WhiteList.JavaSplitEdges | middle/src/main/java/com/aric/middleware/aop/WhiteListProcessAop.java:66 | a leading empty piece stays; "" splits into one empty piece; "," splits into nothing |
| WhiteList.FirstNamed | middle/src/main/java/com/aric/middleware/aop/WhiteListProcessAop.java:61-64 | the position of the first parameter named like the key; none exactly when no parameter has the name |
| WhiteList.SearchFirstNamed | middle/src/main/java/com/aric/middleware/aop/WhiteListProcessAop.java:61-75 | the parameter loop is decided by the first parameter named like the key alone: no such parameter proceeds, a listed value proceeds, any other value throws the whitelist error |
| WhiteList.DoRouterIff | middle/src/main/java/com/aric/middleware/aop/WhiteListProcessAop.java:42-76 | the call proceeds exactly when the switch is off, the key is empty, no parameter has the key's name, or the first that does holds a listed user; otherwise the whitelist error is thrown |
| MethodExt.DoRouter | src/main/java/com/aric/middleware/aop/MethodExtProcessAop.java:26-46 | a failed lookup throws the not-found error; the call proceeds only when the lookup succeeded |
| MethodExt.DoRouterIff | src/main/java/com/aric/middleware/aop/MethodExtProcessAop.java:31-45 | proceeds exactly when the extension exists, returns primitive boolean and answers true; returns the method-extension failure result exactly when it answers false; every thrown error has code 500006, and it is the not-found message exactly when the lookup failed |
| MethodExt.ArgumentsReachExtension | src/main/java/com/aric/middleware/aop/MethodExtProcessAop.java:43 | the decision depends on the arguments only through what the extension answers on them |
| MethodExt.BoxedBooleanRefused | src/main/java/com/aric/middleware/aop/MethodExtProcessAop.java:38-40 | an extension returning boxed Boolean throws the return-type error |
| Common.BizFromErrorCode | src/main/java/com/aric/middleware/common/BizException.java:7-10 | the exception takes the error code's code and message |
| Common.BizFromThrowable | middle/src/main/java/com/aric/middleware/common/BizException.java:17-20 | the exception takes the system error's code and the cause's message |
| Common.Success | src/main/java/com/aric/middleware/common/Result.java:26-28 | code 0, empty message, the data as result |
| Common.Fail | src/main/java/com/aric/middleware/common/Result.java:30-32 | the system error's code and message with a null result |
| Common.FailCode | src/main/java/com/aric/middleware/common/Result.java:34-36 | the error code's code and message with a null result, never a success |
| Common.FailWith | src/main/java/com/aric/middleware/common/Result.java:38-40 | code and message verbatim with a null result; a success exactly when the code is 0 |
| Common.FailBiz | src/main/java/com/aric/middleware/common/Result.java:42-44 | the exception's code and message with a null result |
| Common.FailVariantsAgree | src/main/java/com/aric/middleware/common/Result.java:30-44 | failing with the exception made from an error code is failing with the code; fail() has a null result and is not a success; no failure equals a success |
| Common.ErrorCodesDistinct | middle/src/main/java/com/aric/middleware/common/ErrorCode.java:4-10 | codes tell error codes apart except the two method-extension configuration errors, which share 500006; messages always tell them apart |

## Left out

- The Netty transport is not modelled: bootstrap, event loop groups, threads and the socket lifecycle. The channel is a list of written messages, and the event loop is the sequence of responses that arrive while a caller waits.
- Concurrency is not modelled. The latch, the unsynchronised `HashMap` and the thread-local slots are sequential state here, and a blocking wait becomes "released or not".
- The protostuff serialiser (`SerializeUtil`) is the pair of functions `ser` and `de`. Round trips assume `de(ser(m)) == m`.
- Correlation.WriteFuture.Get: requires the latch to be released. A sequential model cannot block, so a `get()` that would wait forever is not modelled.
- Correlation.WriteFuture.GetTimeout: the timeout value is ignored. Whether the latch is released within it is the flag's state when the call is made.
- ClientTransport.ClientSocket.Run: only the connection is modelled. Waiting on the channel's close future, the thread and the event loop shutdown are left out.
- ConsumerStub.ConsumerBeanProxy.GetClient: the polling loop that sleeps until `isReady` is left out. The model starts the client, so it is ready immediately.
- The Redis registry lookup in `ConsumerBean.getObject` is the parameter `registered`. `UUID.randomUUID()` is the parameter `uuid`. The JDK proxy creation is left out.
- The Spring container and Java reflection in the server handler are a `Container` value. An argument mismatch inside `Method.invoke` is one of the ways the implementation can throw.
- DbRouter.HashCode: `hashCode` of objects other than strings, boxed numbers, booleans and dates is a parameter. `BeanUtil.getProperty` is a parameter, and a null attribute (a `NullPointerException` in the source) is not separated from other failures.
- DbRouter.RouteKeys: states only that a call without arguments fails and that keys are at least two characters long. The bounds and the reconstruction are in `DbRouter.ShardInRange`, and the formatting is in `DbRouter.Format02RoundTrip`.
- `DynamicDatasource.determineCurrentLookupKey` is the function `DbRouter.LookupKey`. It has no contract of its own; `DbRouter.DoRouter` states the "db" prefix of the key the call runs with.
- dom4j parsing and resource loading are the function `load`. Only the element tree and the failing cast of character data are modelled, and `getText` is the element's own character data.
- JDBC is not modelled. `prepareStatement` and `executeQuery` are the connection's `execute` function, and the result set is a table of column names and rows. Reflection is a table of classes with their setters.
- SqlSession.SetterNameShape: `toUpperCase` is modelled for ASCII letters only.
- SqlSession.ObjectParameterBindsFields: `getDeclaredFields` is the list of a bean's fields. Any other non-simple value is taken to have no fields, and inherited fields are not looked at.
- SqlSession.DefaultSqlSession.Close: a `SQLException` from closing is not modelled.
- MapperFactory.Handle: the proxy object is not modelled. `List.class.isAssignableFrom(returnType)` is the boolean `returnsList`.
- The ZooKeeper client is a set of node paths with their data. A path without a leading "/" is accepted, although ZooKeeper rejects it. Curator's retry policy and connection string (127.0.0.1:2181) are left out. The client's default data (the local host address, for a client from `CuratorFrameworkFactory.newClient`) is the constant `defaultData`.
- `createNodeSimple`, `getData`, `deleteDataRetainNode`, `appendPersistentData`, `getClient` and `addTreeCacheListener`'s cache set-up are not part of this model. The startup steps `init_config` and `init_server` use them and read the host address, so they are left out too.
- UTF-8 decoding of node data is the function `decode`. JSON parsing of an instruct is the function `parse`, whose failure makes the callback throw. JSON rendering of a task is the function `toJson`.
- The Spring `TaskScheduler` and `CronTrigger` are abstract. A scheduled entry records its runnable and cron, and cancelling a future is recorded in order.
- SchedulerConfig.InitTaskSchedule: the registry's keys are visited in no stated order, which matches `ConcurrentHashMap.keySet()`. The contract does not say which of two tasks with the same id is scheduled.
- SchedulerConfig.CollectTasks: `getDeclaredMethods` returns the methods in no particular order. The model takes them in the order of the given method list, so the order of a bean's tasks, and which overload `ZkCurator.FindTask` finds first, follow that list.
- SchedulerConfig.WriteAllTaskNodes: the registry's keys are visited in no stated order. When two tasks share a node, the contract does not say whose text the node holds.
- WhiteList.DoRouter: a null `isOpen` switch or a null users string would throw `NullPointerException` in the source. Neither is modelled.
- MethodExt.DoRouter: an exception thrown by the extension method is not modelled, and the invocation target (`getThis` against `getTarget`) is not told apart.
- Controllers, demos, tests, Hystrix, the rate limiter, the Redis proxies and the Spring configuration classes are not part of this model.
