/**
 * Time accounting of the buffer and the statistics snapshot.
 *
 * Timestamps are integers, with 0 standing for the zero time ("no phase
 * open"); durations are integer differences of timestamps.
 */
module Timing {

  /** A snapshot of an active buffer, field for field as reported to a monitor. */
  datatype Stats = Stats(
    bufferCapacity: int,
    bufferedBytes: int,
    bytesRead: int,
    totalTime: int,
    timeSpentReading: int,
    timeSpentWriting: int)

  /** The time of one accumulator: its completed phases plus the phase still open at `now`, if any. */
  function Elapsed(accumulated: int, started: int, now: int): (d: int)
    ensures started == 0 ==> d == accumulated
    ensures started != 0 ==> d - accumulated == now - started
  {
    accumulated + (if started != 0 then now - started else 0)
  }

  /** `a` reports no more bytes read and no more time in any accumulator than `b`. */
  predicate NoLater(a: Stats, b: Stats)
  {
    a.bytesRead <= b.bytesRead &&
    a.totalTime <= b.totalTime &&
    a.timeSpentReading <= b.timeSpentReading &&
    a.timeSpentWriting <= b.timeSpentWriting
  }

  /** The reported time of an accumulator does not decrease as the clock advances. */
  lemma ElapsedMonotone(accumulated: int, started: int, t1: int, t2: int)
    requires t1 <= t2
    ensures Elapsed(accumulated, started, t1) <= Elapsed(accumulated, started, t2)
  {
  }
}
