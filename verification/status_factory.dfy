/**
 * `Exception\Status\ResponseStatusCodeExceptionFactory`: one exception class per gRPC
 * status code, following the code table of grpc-go's codes/codes.go.
 */
module StatusFactory {
  import opened Exceptions

  /** The `switch` on the code: codes 1 to 16 in table order, everything else the default. */
  function KindOf(code: int): (k: StatusKind)
    ensures (1 <= code <= 16) <==> k != InvalidResponseStatusCode
    ensures 1 <= code <= 16 ==> GrpcCode(k) == code
  {
    match code
    case 1 => Canceled
    case 2 => Unknown
    case 3 => InvalidArgument
    case 4 => DeadlineExceeded
    case 5 => NotFound
    case 6 => AlreadyExists
    case 7 => PermissionDenied
    case 8 => ResourceExhausted
    case 9 => FailedPrecondition
    case 10 => Aborted
    case 11 => OutOfRange
    case 12 => Unimplemented
    case 13 => Internal
    case 14 => Unavailable
    case 15 => DataLoss
    case 16 => Unauthenticated
    case _ => InvalidResponseStatusCode
  }

  /** The gRPC code table (codes.go): the code each status name stands for; 0 (OK) for the
      default class, which stands for no single code. */
  function GrpcCode(k: StatusKind): (code: int)
    ensures k == InvalidResponseStatusCode <==> code == 0
  {
    match k
    case Canceled => 1
    case Unknown => 2
    case InvalidArgument => 3
    case DeadlineExceeded => 4
    case NotFound => 5
    case AlreadyExists => 6
    case PermissionDenied => 7
    case ResourceExhausted => 8
    case FailedPrecondition => 9
    case Aborted => 10
    case OutOfRange => 11
    case Unimplemented => 12
    case Internal => 13
    case Unavailable => 14
    case DataLoss => 15
    case Unauthenticated => 16
    case InvalidResponseStatusCode => 0
  }

  /** Every named status class is produced by exactly the code the gRPC table gives it. */
  lemma KindOfGrpcCode(k: StatusKind)
    requires k != InvalidResponseStatusCode
    ensures 1 <= GrpcCode(k) <= 16 && KindOf(GrpcCode(k)) == k
  {
  }

  /** Distinct codes in 1..16 give distinct exception classes. */
  lemma KindOfInjective(c1: int, c2: int)
    requires 1 <= c1 <= 16 && 1 <= c2 <= 16 && c1 != c2
    ensures KindOf(c1) != KindOf(c2)
  {
  }

  /** `getExceptionByCode($code, $message)`: every class it returns is an
      `InvalidResponseStatusCodeException` and keeps that constructor's default-message rule. */
  function GetExceptionByCode(code: int, message: string): (e: Exception)
    ensures e.StatusException? && e.kind == KindOf(code) && e.code == code
    ensures e.message == DefaultMessage(message, code)
  {
    StatusException(KindOf(code), code, DefaultMessage(message, code))
  }

  /** Only DeadlineExceeded (4) and Unavailable (14) produce an exception the failover loop
      retries. */
  lemma TransientCodes(code: int, message: string)
    ensures IsTransient(GetExceptionByCode(code, message)) <==> code == 4 || code == 14
  {
  }
}
