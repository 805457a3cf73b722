/** The library's error type and the mapping from kernel return codes to it
    (src/error.rs). Display strings are not modelled. */
module Errors {
  import opened Prelude

  /** A `std::io::Error`, reduced to its raw operating-system error number. */
  datatype IoError = IoError(rawOsError: int32)

  /** `liburing_rs::Error` */
  datatype Error =
    | Io(io: IoError)
    | Setup(io: IoError)
    | SubmissionQueueFull
    | CompletionQueueEmpty
    | InvalidOperation(msg: string)
    | NotSupported(msg: string)

  /** True for the variants that wrap an operating-system error. */
  predicate IsOsError(e: Error) {
    e.Io? || e.Setup?
  }

  /** `from_ret_code`: a negative kernel return `ret` carries errno `-ret`. */
  function FromRetCode(ret: int32): (e: IoError)
    ensures I32_MIN < ret < 0 ==> e.rawOsError == -ret && e.rawOsError > 0
  {
    IoError(Neg32(ret))
  }

  /** `check_ret`: non-negative codes pass through, negative ones become errors. */
  function CheckRet(ret: int32): (r: Result<int32, IoError>)
    ensures r.Ok? <==> ret >= 0
    ensures r.Ok? ==> r.value == ret
    ensures r.Err? ==> r.error == FromRetCode(ret)
    ensures r.Err? && ret != I32_MIN ==> r.error.rawOsError == -ret
  {
    if ret < 0 then Err(FromRetCode(ret)) else Ok(ret)
  }

  /** `impl From<io::Error> for Error` */
  function FromIo(e: IoError): (r: Error)
    ensures r.Io? && IsOsError(r)
    ensures Source(r) == Some(e)
  {
    Io(e)
  }

  /** `std::error::Error::source`: the wrapped operating-system error, if any. */
  function Source(e: Error): (r: Option<IoError>)
    ensures r.Some? <==> IsOsError(e)
    ensures r.Some? ==> r.value == e.io
  {
    match e
    case Io(io) => Some(io)
    case Setup(io) => Some(io)
    case _ => None
  }

  /** The two queue conditions are payload-free, distinct from each other and
      from every operating-system error. */
  lemma QueueConditionsAreNotOsErrors(io: IoError)
    ensures SubmissionQueueFull != CompletionQueueEmpty
    ensures Source(SubmissionQueueFull) == None && Source(CompletionQueueEmpty) == None
    ensures SubmissionQueueFull != FromIo(io) && CompletionQueueEmpty != FromIo(io)
    ensures SubmissionQueueFull != Setup(io) && CompletionQueueEmpty != Setup(io)
  {
  }
}
