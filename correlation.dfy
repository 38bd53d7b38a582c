/** Request/response correlation on the client: a one-slot response cell per
    request and the table that maps request uuids to cells.  Blocking is
    abstracted to whether the cell's latch has been released. */
module Correlation {
  import opened Base
  import opened RpcTypes

  /** The observable state of one `WriteFuture`: whether its latch has been
      counted down and the response it holds (`None` for null). */
  datatype FutureState = FutureState(released: bool, response: Option<Response>)

  /** A future as it is constructed. */
  const Fresh := FutureState(false, None)

  /** The table's content as values, uuid to cell state. */
  type Table = map<string, FutureState>

  /** `getWriteFuture(uid)`: the entry for uid is the existing one, or a fresh one. */
  function GetOrCreate(t: Table, uid: string): (t': Table)
    ensures uid in t' && t'.Keys == t.Keys + {uid}
    ensures uid in t ==> t' == t
    ensures uid !in t ==> t'[uid] == Fresh && forall u | u in t :: t'[u] == t[u]
  {
    if uid in t then t else t[uid := Fresh]
  }

  /** `removeWriteFuture(uid)`. */
  function Remove(t: Table, uid: string): (t': Table)
    ensures uid !in t' && t'.Keys == t.Keys - {uid}
    ensures forall u | u in t' :: t'[u] == t[u]
  {
    t - {uid}
  }

  /** `ClientHandler.channelRead(r)`: the entry for r's id, created when
      missing, is released and holds r. */
  function Fulfil(t: Table, r: Response): (t': Table)
    ensures t'.Keys == t.Keys + {r.requestId}
    ensures t'[r.requestId] == FutureState(true, Some(r))
    ensures forall u | u in t && u != r.requestId :: t'[u] == t[u]
  {
    GetOrCreate(t, r.requestId)[r.requestId := FutureState(true, Some(r))]
  }

  /** The responses `rs` are fulfilled one after the other. */
  function FulfilAll(t: Table, rs: seq<Response>): (t': Table)
    ensures t.Keys <= t'.Keys
  {
    if rs == [] then t else Fulfil(FulfilAll(t, rs[..|rs| - 1]), rs[|rs| - 1])
  }

  /** The last response in `rs` that answers `uid`, if any. */
  function LastAnswer(rs: seq<Response>, uid: string): (a: Option<Response>)
    ensures a.Some? ==> a.value.requestId == uid && a.value in rs
    ensures a.None? <==> forall k | 0 <= k < |rs| :: rs[k].requestId != uid
  {
    if rs == [] then None
    else if rs[|rs| - 1].requestId == uid then Some(rs[|rs| - 1])
    else LastAnswer(rs[..|rs| - 1], uid)
  }

  /** After a run of responses, an entry holds the last response addressed to
      it; entries nobody answered, and only those, keep their old state. */
  lemma {:induction false} FulfilAllLookup(t: Table, rs: seq<Response>, uid: string)
    ensures uid in FulfilAll(t, rs) <==> uid in t || LastAnswer(rs, uid).Some?
    ensures LastAnswer(rs, uid).Some? ==>
      FulfilAll(t, rs)[uid] == FutureState(true, LastAnswer(rs, uid))
    ensures LastAnswer(rs, uid).None? && uid in t ==> FulfilAll(t, rs)[uid] == t[uid]
  {
    if rs != [] {
      FulfilAllLookup(t, rs[..|rs| - 1], uid);
    }
  }

  /** A table entry once removed and asked for again is fresh; the other
      entries are as they were. */
  lemma RemoveThenGetIsFresh(t: Table, uid: string)
    ensures GetOrCreate(Remove(t, uid), uid)[uid] == Fresh
    ensures forall u | u in t && u != uid :: GetOrCreate(Remove(t, uid), uid)[u] == t[u]
  {
  }

  /** The outcome of `writeMessage` for `uid`: register, let `arriving` be
      fulfilled, then take the cell's response if it was released (null on
      timeout, after 10000 ms). */
  function Await(t: Table, uid: string, arriving: seq<Response>): Option<Response>
  {
    var cell := FulfilAll(GetOrCreate(t, uid), arriving)[uid];
    if cell.released then cell.response else None
  }

  /** What a call returns: the last response addressed to it if one arrived,
      otherwise whatever was already released under its uuid, otherwise null. */
  lemma AwaitOutcome(t: Table, uid: string, arriving: seq<Response>)
    ensures LastAnswer(arriving, uid).Some? ==> Await(t, uid, arriving) == LastAnswer(arriving, uid)
    ensures LastAnswer(arriving, uid).None? ==>
      Await(t, uid, arriving) == (if uid in t && t[uid].released then t[uid].response else None)
  {
    FulfilAllLookup(GetOrCreate(t, uid), arriving, uid);
  }

  /** A call whose uuid is not in the table and that receives no answer times
      out with null. */
  lemma TimeoutIsNull(t: Table, uid: string, arriving: seq<Response>)
    requires uid !in t
    requires forall k | 0 <= k < |arriving| :: arriving[k].requestId != uid
    ensures Await(t, uid, arriving) == None
  {
    AwaitOutcome(t, uid, arriving);
  }

  /** Because a response for a removed uuid re-creates its entry, a later call
      with the same uuid that gets no answer of its own returns that stale
      response instead of timing out. */
  lemma StaleAnswerIsReturned(t: Table, uid: string, late: Response, arriving: seq<Response>)
    requires late.requestId == uid
    requires forall k | 0 <= k < |arriving| :: arriving[k].requestId != uid
    ensures Await(Fulfil(Remove(t, uid), late), uid, arriving) == Some(late)
  {
    AwaitOutcome(Fulfil(Remove(t, uid), late), uid, arriving);
  }

  /** A `WriteFuture`: the `CountDownLatch(1)` is the flag `released`. */
  class WriteFuture {
    var released: bool
    var response: Option<Response>

    function State(): FutureState
      reads this
    {
      FutureState(released, response)
    }

    constructor ()
      ensures State() == Fresh
    {
      released, response := false, None;
    }

    method Cancel(mayInterruptIfRunning: bool) returns (r: bool)
      ensures !r
    {
      r := false;
    }

    method IsCancelled() returns (r: bool)
      ensures !r
    {
      r := false;
    }

    /** Never true, not even once a response is set. */
    method IsDone() returns (r: bool)
      ensures !r
    {
      r := false;
    }

    method GetResponse() returns (r: Option<Response>)
      ensures r == response
    {
      r := response;
    }

    /** Releases the latch and stores the response, replacing any earlier one. */
    method SetResponse(r: Response)
      modifies this
      ensures State() == FutureState(true, Some(r))
    {
      released := true;
      response := Some(r);
    }

    /** `get()` waits for the latch; in a sequential model it can only return
        once the latch is released. */
    method Get() returns (r: Option<Response>)
      requires released
      ensures r == response
    {
      r := response;
    }

    /** `get(timeout)`: the response if the latch is released within the
        timeout, null otherwise. */
    method GetTimeout(timeoutMillis: int) returns (r: Option<Response>)
      ensures r == (if released then response else None)
    {
      if released {
        r := response;
      } else {
        r := None;
      }
    }
  }

  /** A second `setResponse` overwrites the first, and the future still does
      not report itself done. */
  method SecondSetOverwrites(r1: Response, r2: Response) returns (got: Option<Response>, done: bool)
    ensures got == Some(r2) && !done
  {
    var f := new WriteFuture();
    f.SetResponse(r1);
    f.SetResponse(r2);
    got := f.GetTimeout(10000);
    done := f.IsDone();
  }

  /** A future nobody answers times out with null. */
  method UnansweredTimesOut(timeoutMillis: int) returns (got: Option<Response>)
    ensures got == None
  {
    var f := new WriteFuture();
    got := f.GetTimeout(timeoutMillis);
  }

  /** `WriteFutureMap`: in the program one static map per process, here one
      object shared by the client socket and the client handler. */
  class WriteFutureMap {
    var syncMap: map<string, WriteFuture>

    /** Each uuid owns its own future. */
    ghost predicate Valid()
      reads this
    {
      forall a, b | a in syncMap && b in syncMap && a != b :: syncMap[a] != syncMap[b]
    }

    ghost function View(): Table
      reads this, syncMap.Values
    {
      map u | u in syncMap :: syncMap[u].State()
    }

    constructor ()
      ensures Valid() && syncMap == map[] && View() == map[]
    {
      syncMap := map[];
    }

    method GetWriteFuture(uid: string) returns (f: WriteFuture)
      requires Valid()
      modifies this
      ensures Valid()
      ensures uid in syncMap && f == syncMap[uid]
      ensures uid in old(syncMap) ==> syncMap == old(syncMap)
      ensures uid !in old(syncMap) ==> fresh(f) && syncMap == old(syncMap)[uid := f]
      ensures View() == GetOrCreate(old(View()), uid)
    {
      if uid in syncMap {
        f := syncMap[uid];
        return;
      }
      f := new WriteFuture();
      syncMap := syncMap[uid := f];
    }

    method RemoveWriteFuture(uid: string)
      requires Valid()
      modifies this
      ensures Valid()
      ensures syncMap == old(syncMap) - {uid}
      ensures View() == Remove(old(View()), uid)
    {
      syncMap := syncMap - {uid};
    }
  }
}
