/** The uniform API result of the AOP gates (`Result`), with the error codes
    (`ErrorCode`) and the business exception (`BizException`) they use. */
module Common {
  import opened Base

  /** The error codes of the middleware, with their numeric code and message. */
  datatype ErrorCode =
    | SYSTEM_ERROR
    | WHITE_LIST_ERROR
    | TIMEOUT_ERROR
    | RATELIMITER_ERROR
    | METHODEXT_ERROR
    | METHODEXT_NOTFOUND_ERROR
    | METHODEXT_RETURNTYPE_ERROR
  {
    function Code(): int
    {
      match this
      case SYSTEM_ERROR => 500001
      case WHITE_LIST_ERROR => 500002
      case TIMEOUT_ERROR => 500003
      case RATELIMITER_ERROR => 500004
      case METHODEXT_ERROR => 500005
      case METHODEXT_NOTFOUND_ERROR => 500006
      case METHODEXT_RETURNTYPE_ERROR => 500006
    }

    function Message(): string
    {
      match this
      case SYSTEM_ERROR => "系统错误"
      case WHITE_LIST_ERROR => "白名单拦截"
      case TIMEOUT_ERROR => "超时熔断"
      case RATELIMITER_ERROR => "限流"
      case METHODEXT_ERROR => "自定义方法拦截"
      case METHODEXT_NOTFOUND_ERROR => "自定义拦截方法参数异常"
      case METHODEXT_RETURNTYPE_ERROR => "自定义拦截方法返回异常"
    }
  }

  /** A thrown `BizException`: its code and message. */
  datatype BizException = BizException(code: int, message: string)

  /** `new BizException(errorCode)`: code and message come from the error code. */
  function BizFromErrorCode(e: ErrorCode): (x: BizException)
    ensures x.code == e.Code() && x.message == e.Message()
  {
    BizException(e.Code(), e.Message())
  }

  /** `new BizException(throwable)`: the system error code with the cause's message. */
  function BizFromThrowable(causeMessage: string): (x: BizException)
    ensures x.code == SYSTEM_ERROR.Code() && x.message == causeMessage
  {
    BizException(SYSTEM_ERROR.Code(), causeMessage)
  }

  /** The `Result` value returned to callers: a code, a message and a payload. */
  datatype Result = Result(code: int, message: string, result: Value)

  /** A result reports success exactly when its code is 0. */
  predicate IsSuccess(r: Result)
  {
    r.code == 0
  }

  function Success(data: Value): (r: Result)
    ensures IsSuccess(r) && r.message == "" && r.result == data
  {
    Result(0, "", data)
  }

  function Fail(): (r: Result)
    ensures r == FailCode(SYSTEM_ERROR)
  {
    Result(SYSTEM_ERROR.Code(), SYSTEM_ERROR.Message(), Null)
  }

  function FailCode(e: ErrorCode): (r: Result)
    ensures !IsSuccess(r) && r.result == Null
    ensures r.code == e.Code() && r.message == e.Message()
  {
    Result(e.Code(), e.Message(), Null)
  }

  function FailWith(code: int, msg: string): (r: Result)
    ensures IsSuccess(r) <==> code == 0
    ensures r.code == code && r.message == msg && r.result == Null
  {
    Result(code, msg, Null)
  }

  function FailBiz(x: BizException): (r: Result)
    ensures r == FailWith(x.code, x.message)
  {
    Result(x.code, x.message, Null)
  }

  /** What an around-advice does with the intercepted call: let it proceed,
      return a value of its own instead, or throw. */
  datatype Outcome = Proceed | Returned(result: Result) | Thrown(exception: BizException)

  /** Every failure factory yields a null payload, never mistaken for a success
      when its code comes from an `ErrorCode`, and failing with the exception
      made from an error code is failing with that code. */
  lemma FailVariantsAgree(e: ErrorCode, d: Value)
    ensures FailBiz(BizFromErrorCode(e)) == FailCode(e)
    ensures Fail().result == Null && !IsSuccess(Fail())
    ensures FailCode(e) != Success(d)
    ensures FailBiz(BizFromThrowable(e.Message())).code == Fail().code
  {
  }

  /** Codes identify error codes, except that the two method-extension
      configuration errors share 500006. */
  lemma ErrorCodesDistinct(a: ErrorCode, b: ErrorCode)
    ensures a.Code() == b.Code() <==>
      a == b || {a, b} == {METHODEXT_NOTFOUND_ERROR, METHODEXT_RETURNTYPE_ERROR}
    ensures a.Message() == b.Message() <==> a == b
  {
  }
}
