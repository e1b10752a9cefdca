/**
 * Errors and the termination rules of the two sides of the buffer.
 *
 * The producer (ReadFrom) and the consumer (WriteTo) each decide, after
 * every transfer and after every wake-up, whether to stop, to wait, or to do
 * another transfer. Those decisions are pure functions of a few fields and
 * are stated here once; the buffer's step methods follow them.
 */
module Protocol {

  datatype Option<+T> = None | Some(value: T)

  /** An error value returned by a byte source or a byte sink; `EOF` is the end-of-input marker. */
  datatype IoError = EOF | Failure(code: int)

  /**
   * An error as one side of the buffer returns it: the source's own error
   * (`Plain`), or a cause wrapped with the "read error" or "write error" tag.
   */
  datatype TaggedError = Plain(cause: IoError) | ReadError(cause: IoError) | WriteError(cause: IoError)

  /** What the producer does next. */
  datatype ProducerNext = ReturnFromRead(err: Option<TaggedError>) | WaitForSpace | ReadAgain

  /** What the consumer does next. */
  datatype ConsumerNext = ReturnFromWrite(err: Option<TaggedError>) | WaitForData | WriteAgain

  /** The value the producer returns for the error of its last read: nothing for end-of-input, the error itself otherwise. */
  function ReadResult(e: IoError): (r: Option<TaggedError>)
    ensures r.None? <==> e == EOF
    ensures r.Some? ==> r.value.Plain? && r.value.cause == e
  {
    if e == EOF then None else Some(Plain(e))
  }

  /** The value the consumer returns once it has drained everything the producer read before `e`. */
  function DrainResult(e: IoError): (r: Option<TaggedError>)
    ensures r.None? <==> e == EOF
    ensures r.Some? ==> r.value.ReadError? && r.value.cause == e
  {
    if e == EOF then None else Some(ReadError(e))
  }

  /**
   * The producer's decision after a read that returned `err`, with the
   * consumer's recorded `writeError` and `ready` of `cap` bytes waiting.
   * A read error wins over a write error; it waits only on a full buffer.
   */
  function AfterRead(err: Option<IoError>, writeError: Option<TaggedError>, ready: nat, cap: nat): (next: ProducerNext)
    ensures next.ReturnFromRead? <==> err.Some? || writeError.Some?
    ensures err.Some? ==> next == ReturnFromRead(ReadResult(err.value))
    ensures err.None? && writeError.Some? ==> next == ReturnFromRead(writeError)
    ensures next.WaitForSpace? <==> err.None? && writeError.None? && ready == cap
    ensures next.ReadAgain? <==> err.None? && writeError.None? && ready != cap
  {
    if err.Some? then ReturnFromRead(ReadResult(err.value))
    else if writeError.Some? then ReturnFromRead(writeError)
    else if ready == cap then WaitForSpace
    else ReadAgain
  }

  /** The producer's decision on waking from the wait for free space. */
  function AfterWake(writeError: Option<TaggedError>, ready: nat, cap: nat): (next: ProducerNext)
    ensures next.ReturnFromRead? <==> writeError.Some?
    ensures next.ReturnFromRead? ==> next.err == writeError
    ensures next.WaitForSpace? <==> writeError.None? && ready == cap
    ensures next.ReadAgain? <==> writeError.None? && ready != cap
  {
    if writeError.Some? then ReturnFromRead(writeError)
    else if ready == cap then WaitForSpace
    else ReadAgain
  }

  /**
   * The consumer's decision before each write: it returns only once nothing
   * is waiting and the producer has recorded its error, and it waits while
   * nothing is waiting and the producer is still going.
   */
  function BeforeWrite(ready: nat, readError: Option<IoError>): (next: ConsumerNext)
    ensures next.ReturnFromWrite? <==> ready == 0 && readError.Some?
    ensures next.ReturnFromWrite? ==> next.err == DrainResult(readError.value)
    ensures next.WaitForData? <==> ready == 0 && readError.None?
    ensures next.WriteAgain? <==> ready > 0
  {
    if ready == 0 then
      if readError.Some? then ReturnFromWrite(DrainResult(readError.value)) else WaitForData
    else WriteAgain
  }

  /** The error the consumer returns and records for a failed write: the sink's error with the write tag. */
  function WriteResult(e: IoError): (r: TaggedError)
    ensures r.WriteError? && r.cause == e
  {
    WriteError(e)
  }
}
