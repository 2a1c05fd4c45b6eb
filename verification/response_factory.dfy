/**
 * `Exception\ResponseStatusCodeExceptionFactory`: the coarse factory `Client` uses.
 */
module ResponseFactory {
  import opened Exceptions

  /** `getExceptionByCode($code, $message)`: code 3 is an invalid argument, every other code a
      plain response status code exception; both constructors apply the default message. */
  function GetExceptionByCode(code: int, message: string): (e: Exception)
    ensures e.InvalidArgumentException? <==> code == 3
    ensures IsResponseStatusCodeException(e)
    ensures e.code == code && e.message == DefaultMessage(message, code)
  {
    if code == 3 then InvalidArgumentException(code, DefaultMessage(message, code))
    else ResponseStatusCodeException(code, DefaultMessage(message, code))
  }

  /** No exception of this factory is one the failover loop retries. */
  lemma NeverTransient(code: int, message: string)
    ensures !IsTransient(GetExceptionByCode(code, message))
  {
  }
}
