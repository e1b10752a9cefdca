/**
 * The measuring ring buffer as a sequential state machine.
 *
 * ReadFrom (the producer) and WriteTo (the consumer) each run as a loop
 * that holds the buffer's lock except while it is inside a Read or a Write
 * call on the external source or sink. Every stretch that holds the lock is
 * one step method below; the blocking Read and Write calls happen between a
 * step that hands out a slice and the step that takes back its result. Any
 * interleaving of the two sides is therefore a sequence of these steps, in
 * whatever order the caller chooses among the enabled ones.
 */
module MeasuringRingBuffer {

  import opened Ring
  import opened Protocol
  import opened Timing

  /** Where ReadFrom is: not called yet, inside a Read of `region`, waiting for free space, or returned `err`. */
  datatype ProducerPhase = ProducerIdle | Reading(region: Range) | WaitingForSpace | ProducerDone(err: Option<TaggedError>)

  /** Where WriteTo is: not called yet, inside a Write of `chunk`, waiting for data, or returned `err`. */
  datatype ConsumerPhase = ConsumerIdle | Writing(chunk: Range) | WaitingForData | ConsumerDone(err: Option<TaggedError>)

  /** The producer's phase after deciding `next`, where `free` is the slice a further read would get. */
  function ProducerAfter(next: ProducerNext, free: Range): (phase: ProducerPhase)
    ensures phase.ProducerDone? <==> next.ReturnFromRead?
    ensures phase.Reading? <==> next.ReadAgain?
    ensures phase.Reading? ==> phase.region == free
  {
    match next
    case ReturnFromRead(err) => ProducerDone(err)
    case WaitForSpace => WaitingForSpace
    case ReadAgain => Reading(free)
  }

  /** The consumer's phase after deciding `next`, where `chunk` is the slice a further write would get. */
  function ConsumerAfter(next: ConsumerNext, chunk: Range): (phase: ConsumerPhase)
    ensures phase.ConsumerDone? <==> next.ReturnFromWrite?
    ensures phase.Writing? <==> next.WriteAgain?
    ensures phase.Writing? ==> phase.chunk == chunk
  {
    match next
    case ReturnFromWrite(err) => ConsumerDone(err)
    case WaitForData => WaitingForData
    case WriteAgain => Writing(chunk)
  }

  /** Moving the `n` oldest waiting bytes to the delivered log keeps the relay equation. */
  lemma RelayDrop(delivered: seq<byte>, waiting: seq<byte>, received: seq<byte>, n: nat)
    requires delivered + waiting == received && n <= |waiting|
    ensures (delivered + waiting[..n]) + waiting[n..] == received
  {
    assert waiting[..n] + waiting[n..] == waiting;
  }

  /** Bytes that join the waiting bytes also join the received log. */
  lemma RelayAppend(delivered: seq<byte>, waiting: seq<byte>, received: seq<byte>, incoming: seq<byte>)
    requires delivered + waiting == received
    ensures delivered + (waiting + incoming) == received + incoming
  {
  }

  class Buffer {
    const buf: array<byte>
    var readIndex: nat
    var ready: nat
    var totalBytesRead: nat
    var readError: Option<IoError>
    var writeError: Option<TaggedError>
    var timeStarted: int
    var lastReadStarted: int
    var lastWriteStarted: int
    var timeSpentReading: int
    var timeSpentWriting: int
    var totalTimeSpent: int

    // The frames of the two sides: where each one is, and the byte count it returns.
    var producer: ProducerPhase
    var consumer: ConsumerPhase
    var readSum: nat
    var writeSum: nat

    // Every byte taken from the source, every byte handed to the sink, and the latest clock reading.
    ghost var received: seq<byte>
    ghost var delivered: seq<byte>
    ghost var clock: int

    ghost predicate Shaped()
      reads this`readIndex, this`ready
    {
      buf.Length >= 1 && readIndex < buf.Length && ready <= buf.Length
    }

    /** The waiting bytes, oldest first. */
    ghost function Contents(): (c: seq<byte>)
      reads this`readIndex, this`ready, buf
      requires Shaped()
      ensures |c| == ready
    {
      RingRead(buf[..], Tail(readIndex, ready, buf.Length), ready)
    }

    ghost predicate ProducerFrame()
      reads this`producer, this`readIndex, this`ready, this`received, this`readError,
        this`writeError, this`lastReadStarted, this`clock
      requires Shaped()
    {
      match producer
      case ProducerIdle =>
        ready == 0 && readIndex == 0 && received == [] && readError.None? && lastReadStarted == 0
      case Reading(region) =>
        region.lo == readIndex && region.lo < region.hi <= buf.Length &&
        region.hi - region.lo <= buf.Length - ready &&
        0 < lastReadStarted <= clock && readError.None?
      case WaitingForSpace =>
        lastReadStarted == 0 && readError.None?
      case ProducerDone(err) =>
        lastReadStarted == 0 &&
        if readError.Some? then err == ReadResult(readError.value)
        else writeError.Some? && err == writeError
    }

    ghost predicate ConsumerFrame()
      reads this`consumer, this`readIndex, this`ready, this`delivered, this`readError,
        this`writeError, this`lastWriteStarted, this`timeStarted, this`clock
      requires Shaped()
    {
      match consumer
      case ConsumerIdle =>
        delivered == [] && lastWriteStarted == 0 && writeError.None?
      case Writing(chunk) =>
        chunk.lo == Tail(readIndex, ready, buf.Length) && chunk.lo < chunk.hi <= buf.Length &&
        chunk.hi - chunk.lo <= ready && chunk.hi - chunk.lo <= MaxWrite(buf.Length) &&
        0 < lastWriteStarted <= clock && 0 < timeStarted && writeError.None?
      case WaitingForData =>
        lastWriteStarted == 0 && 0 < timeStarted && writeError.None?
      case ConsumerDone(err) =>
        lastWriteStarted == 0 &&
        if writeError.Some? then err == writeError
        else ready == 0 && readError.Some? && err == DrainResult(readError.value)
    }

    /** The relay of bytes: the counters agree with the logs, and what was delivered followed by what waits is what was received. */
    ghost predicate Relayed()
      reads this`readIndex, this`ready, this`writeError, this`totalBytesRead, this`readSum,
        this`writeSum, this`received, this`delivered, buf
    {
      Shaped() &&
      (writeError.Some? ==> writeError.value.WriteError?) &&
      totalBytesRead == readSum == |received| && writeSum == |delivered| &&
      delivered + Contents() == received
    }

    /** Every timestamp held is zero or no later than the latest clock reading. */
    ghost predicate Clocked()
      reads this`clock, this`timeStarted, this`lastReadStarted, this`lastWriteStarted
    {
      1 <= clock && 0 <= timeStarted <= clock &&
      0 <= lastReadStarted <= clock && 0 <= lastWriteStarted <= clock
    }

    /** The invariant apart from the two sides' frames. */
    ghost predicate Accounted()
      reads this`readIndex, this`ready, this`writeError, this`totalBytesRead, this`readSum,
        this`writeSum, this`received, this`delivered, this`clock, this`timeStarted,
        this`lastReadStarted, this`lastWriteStarted, buf
    {
      Relayed() && Clocked()
    }

    ghost predicate Valid()
      reads this, buf
    {
      Accounted() && ProducerFrame() && ConsumerFrame()
    }

    /** A buffer of `size` bytes (New). A zero-sized buffer would divide by zero on the first read. */
    constructor (size: nat)
      requires size >= 1
      ensures Valid() && fresh(buf) && buf.Length == size
      ensures producer == ProducerIdle && consumer == ConsumerIdle
      ensures readIndex == 0 && ready == 0 && totalBytesRead == 0 && readSum == 0 && writeSum == 0
      ensures readError == None && writeError == None
      ensures timeStarted == 0 && lastReadStarted == 0 && lastWriteStarted == 0
      ensures timeSpentReading == 0 && timeSpentWriting == 0 && totalTimeSpent == 0
      ensures received == [] && delivered == [] && Contents() == [] && clock == 1
      ensures forall now :: Stats(now) == Timing.Stats(size, 0, 0, 0, 0, 0)
    {
      buf := new byte[size];
      readIndex, ready, totalBytesRead := 0, 0, 0;
      readError, writeError := None, None;
      timeStarted, lastReadStarted, lastWriteStarted := 0, 0, 0;
      timeSpentReading, timeSpentWriting, totalTimeSpent := 0, 0, 0;
      producer, consumer := ProducerIdle, ConsumerIdle;
      readSum, writeSum := 0, 0;
      received, delivered, clock := [], [], 1;
    }

    /** The snapshot at time `now`: the current counters, each timer with its open phase counted up to `now`. */
    function Stats(now: int): (s: Timing.Stats)
      reads this`ready, this`totalBytesRead, this`totalTimeSpent, this`timeStarted,
        this`timeSpentReading, this`lastReadStarted, this`timeSpentWriting, this`lastWriteStarted
      ensures s.bufferCapacity == buf.Length && s.bufferedBytes == ready && s.bytesRead == totalBytesRead
      ensures s.totalTime == Elapsed(totalTimeSpent, timeStarted, now)
      ensures s.timeSpentReading == Elapsed(timeSpentReading, lastReadStarted, now)
      ensures s.timeSpentWriting == Elapsed(timeSpentWriting, lastWriteStarted, now)
    {
      Timing.Stats(
        buf.Length, ready, totalBytesRead,
        Elapsed(totalTimeSpent, timeStarted, now),
        Elapsed(timeSpentReading, lastReadStarted, now),
        Elapsed(timeSpentWriting, lastWriteStarted, now))
    }

    /** Start of ReadFrom: start the total timer if needed and offer the first free slice to the source. */
    method ProducerStart(now: int)
      requires Valid() && producer == ProducerIdle && now >= clock
      modifies this`timeStarted, this`producer, this`lastReadStarted, this`clock
      ensures Valid() && clock == now
      ensures timeStarted == (if old(timeStarted) == 0 then now else old(timeStarted))
      ensures producer == Reading(FreeRegion(readIndex, ready, buf.Length)) && lastReadStarted == now
      ensures Stats(now) == old(Stats(now))
    {
      StartTotalTimer(now);
      ProducerProceed(ReadAgain, now);
    }

    /**
     * The source's Read returned `n` bytes and `err`, having used `p` (the
     * whole offered slice, of which the first `n` bytes count) as its
     * output. Counts the bytes, records a read error, then either returns,
     * waits for space, or offers the next free slice. The Read returned at
     * `done` and the lock is retaken at `now`: the read time counts up to
     * `done`, so the reading time a snapshot reports drops by `now - done`.
     */
    method ProducerFinishRead(p: seq<byte>, n: nat, err: Option<IoError>, done: int, now: int)
      requires Valid() && producer.Reading? && lastReadStarted <= done <= now && now >= clock
      requires |p| == producer.region.Length() && n <= |p|
      modifies buf, this`readIndex, this`ready, this`totalBytesRead, this`readSum,
        this`timeSpentReading, this`lastReadStarted, this`readError, this`producer,
        this`received, this`clock
      ensures Valid() && clock == now
      ensures buf[..] == Splice(old(buf[..]), old(producer.region.lo), p)
      ensures readIndex == (old(readIndex) + n) % buf.Length
      ensures ready == old(ready) + n
      ensures totalBytesRead == old(totalBytesRead) + n && readSum == old(readSum) + n
      ensures received == old(received) + p[..n] && Contents() == old(Contents()) + p[..n]
      ensures timeSpentReading == old(timeSpentReading) + (done - old(lastReadStarted))
      ensures readError == (if err.Some? then err else old(readError))
      ensures producer == ProducerAfter(AfterRead(err, writeError, ready, buf.Length),
                                        FreeRegion(readIndex, ready, buf.Length))
      ensures lastReadStarted == (if producer.Reading? then now else 0)
      ensures Stats(now) == old(Stats(now)).(bufferedBytes := old(ready) + n, bytesRead := old(totalBytesRead) + n,
                                             timeSpentReading := old(Stats(now)).timeSpentReading - (now - done))
    {
      AccountRead(p, n, done, now);
      ProducerDecide(err, now);
    }

    /** ReadFrom after a read (buffer.go:112-127): keep the read error, then return, wait for space or read again. */
    method ProducerDecide(err: Option<IoError>, now: int)
      requires Accounted() && ConsumerFrame() && now == clock && lastReadStarted == 0 && readError.None?
      modifies this`readError, this`producer, this`lastReadStarted
      ensures Valid()
      ensures readError == err
      ensures producer == ProducerAfter(AfterRead(err, writeError, ready, buf.Length),
                                        FreeRegion(readIndex, ready, buf.Length))
      ensures lastReadStarted == (if producer.Reading? then now else 0)
      ensures Stats(now) == old(Stats(now))
    {
      RecordReadError(err);
      ProducerProceed(AfterRead(err, writeError, ready, buf.Length), now);
    }

    /** ReadFrom after a read (buffer.go:102-110): take the bytes of a finished Read into the ring and close the read phase. */
    method AccountRead(p: seq<byte>, n: nat, done: int, now: int)
      requires Valid() && producer.Reading? && lastReadStarted <= done <= now && now >= clock
      requires |p| == producer.region.Length() && n <= |p|
      modifies buf, this`readIndex, this`ready, this`totalBytesRead, this`readSum,
        this`timeSpentReading, this`lastReadStarted, this`received, this`clock
      ensures Accounted() && ConsumerFrame() && clock == now && readError.None?
      ensures buf[..] == Splice(old(buf[..]), producer.region.lo, p)
      ensures readIndex == (old(readIndex) + n) % buf.Length
      ensures ready == old(ready) + n
      ensures totalBytesRead == old(totalBytesRead) + n && readSum == old(readSum) + n
      ensures received == old(received) + p[..n] && Contents() == old(Contents()) + p[..n]
      ensures timeSpentReading == old(timeSpentReading) + (done - old(lastReadStarted)) && lastReadStarted == 0
      ensures Stats(now) == old(Stats(now)).(bufferedBytes := old(ready) + n, bytesRead := old(totalBytesRead) + n,
                                             timeSpentReading := old(Stats(now)).timeSpentReading - (now - done))
    {
      Receive(producer.region.lo, p, n);
      clock := now;
      timeSpentReading := timeSpentReading + (done - lastReadStarted);
      lastReadStarted := 0;
      ConsumerFrameKept();
    }

    /** buffer.go:103-108: the bytes the source stored at the head `lo` join the ring and count as received. */
    method Receive(lo: nat, p: seq<byte>, n: nat)
      requires Relayed() && lo == readIndex && lo + |p| <= buf.Length && |p| <= buf.Length - ready
      requires 0 < |p| && n <= |p|
      modifies buf, this`readIndex, this`ready, this`totalBytesRead, this`readSum, this`received
      ensures Relayed()
      ensures buf[..] == Splice(old(buf[..]), lo, p)
      ensures readIndex == (old(readIndex) + n) % buf.Length && ready == old(ready) + n
      ensures Tail(readIndex, ready, buf.Length) == old(Tail(readIndex, ready, buf.Length))
      ensures totalBytesRead == old(totalBytesRead) + n && readSum == old(readSum) + n
      ensures received == old(received) + p[..n] && Contents() == old(Contents()) + p[..n]
    {
      RelayAppend(delivered, Contents(), received, p[..n]);
      FillRing(lo, p, n);
      totalBytesRead := totalBytesRead + n;
      readSum := readSum + n;
      received := received + p[..n];
    }

    /** buffer.go:113: an error from the source is kept for the consumer. */
    method RecordReadError(err: Option<IoError>)
      requires Accounted() && ConsumerFrame() && readError.None?
      modifies this`readError
      ensures Accounted() && ConsumerFrame()
      ensures readError == err
    {
      readError := err;
    }

    /**
     * The ring after a Read into the free slice `buf[lo..lo + |p|]`: the
     * slice holds `p`, the head index moves on by `n` (buffer.go:106) and the
     * first `n` bytes of `p` join the waiting bytes (buffer.go:107).
     */
    method FillRing(lo: nat, p: seq<byte>, n: nat)
      requires Shaped() && lo == readIndex && lo + |p| <= buf.Length && |p| <= buf.Length - ready && n <= |p|
      requires 0 < |p|
      modifies buf, this`readIndex, this`ready
      ensures Shaped()
      ensures buf[..] == Splice(old(buf[..]), lo, p)
      ensures readIndex == (old(readIndex) + n) % buf.Length && ready == old(ready) + n
      ensures Tail(readIndex, ready, buf.Length) == old(Tail(readIndex, ready, buf.Length))
      ensures Contents() == old(Contents()) + p[..n]
    {
      ghost var before := Contents();
      ghost var tail := Tail(readIndex, ready, buf.Length);
      ghost var s := buf[..];
      Store(lo, p);
      RingReadAppend(s, tail, ready, p, n);
      Advance(readIndex, n, buf.Length);
      readIndex := (readIndex + n) % buf.Length;
      ready := ready + n;
      assert Tail(readIndex, ready, buf.Length) == tail;
    }

    /** What the source's Read does to the slice `buf[lo..lo + |p|]` it was given. */
    method Store(lo: nat, p: seq<byte>)
      requires lo + |p| <= buf.Length
      modifies buf
      ensures buf[..] == Splice(old(buf[..]), lo, p)
    {
      forall i | 0 <= i < |p| {
        buf[lo + i] := p[i];
      }
      forall k | 0 <= k < buf.Length
        ensures buf[k] == Splice(old(buf[..]), lo, p)[k]
      {
        SpliceAt(old(buf[..]), lo, p, k);
      }
    }

    /**
     * The producer acts on its decision `next` with the lock held: it
     * returns, waits for free space, or opens a read phase on the next free
     * slice (the top of ReadFrom's loop, buffer.go:90-98).
     */
    method ProducerProceed(next: ProducerNext, now: int)
      requires Accounted() && ConsumerFrame() && now == clock && lastReadStarted == 0
      requires next.ReadAgain? ==> ready < buf.Length && readError.None?
      requires next.WaitForSpace? ==> readError.None?
      requires next.ReturnFromRead? ==>
                 if readError.Some? then next.err == ReadResult(readError.value)
                 else writeError.Some? && next.err == writeError
      modifies this`producer, this`lastReadStarted
      ensures Valid()
      ensures producer == ProducerAfter(next, FreeRegion(readIndex, ready, buf.Length))
      ensures lastReadStarted == (if next.ReadAgain? then now else 0)
      ensures Stats(now) == old(Stats(now))
    {
      producer := ProducerAfter(next, FreeRegion(readIndex, ready, buf.Length));
      if next.ReadAgain? {
        lastReadStarted := now;
      }
    }

    /** The producer wakes from its wait for free space: return the write error, wait again, or read. */
    method ProducerWake(now: int)
      requires Valid() && producer == WaitingForSpace && now >= clock
      modifies this`producer, this`lastReadStarted, this`clock
      ensures Valid() && clock == now
      ensures producer == ProducerAfter(AfterWake(writeError, ready, buf.Length),
                                        FreeRegion(readIndex, ready, buf.Length))
      ensures lastReadStarted == (if producer.Reading? then now else 0)
      ensures Stats(now) == old(Stats(now))
    {
      clock := now;
      ProducerProceed(AfterWake(writeError, ready, buf.Length), now);
    }

    /**
     * The consumer's check before each write, with the lock held: return
     * once drained (the deferred stop of the total timer included), wait
     * for data, or open a write phase on the next chunk.
     */
    method ConsumerProceed(now: int)
      requires Accounted() && ProducerFrame() && now == clock
      requires writeError.None? && lastWriteStarted == 0 && 0 < timeStarted
      modifies this`consumer, this`lastWriteStarted, this`timeStarted, this`totalTimeSpent
      ensures Valid()
      ensures consumer == ConsumerAfter(BeforeWrite(ready, readError), WriteChunk(readIndex, ready, buf.Length))
      ensures lastWriteStarted == (if consumer.Writing? then now else 0)
      ensures consumer.ConsumerDone? ==>
                timeStarted == 0 && totalTimeSpent == old(totalTimeSpent) + (now - old(timeStarted))
      ensures !consumer.ConsumerDone? ==>
                timeStarted == old(timeStarted) && totalTimeSpent == old(totalTimeSpent)
      ensures Stats(now) == old(Stats(now))
    {
      if ready == 0 && readError.Some? {
        ConsumerReturn(DrainResult(readError.value), now);
      } else if ready == 0 {
        ConsumerWait();
      } else {
        ConsumerOpenWrite(now);
      }
    }

    /** buffer.go:151-155 with the deferred timer stop of buffer.go:144-148: everything is drained after a read error, so stop the total timer and return. */
    method ConsumerReturn(err: Option<TaggedError>, now: int)
      requires Accounted() && ProducerFrame() && now == clock
      requires writeError.None? && lastWriteStarted == 0 && 0 < timeStarted
      requires ready == 0 && readError.Some? && err == DrainResult(readError.value)
      modifies this`consumer, this`timeStarted, this`totalTimeSpent
      ensures Valid() && consumer == ConsumerDone(err)
      ensures timeStarted == 0 && totalTimeSpent == old(totalTimeSpent) + (now - old(timeStarted))
      ensures Stats(now) == old(Stats(now))
    {
      consumer := ConsumerDone(err);
      totalTimeSpent := totalTimeSpent + (now - timeStarted);
      timeStarted := 0;
      ProducerFrameKept();
    }

    /** buffer.go:157: nothing waits and the producer is still going, so wait for data. */
    method ConsumerWait()
      requires Accounted() && ProducerFrame()
      requires writeError.None? && lastWriteStarted == 0 && 0 < timeStarted
      requires ready == 0 && readError.None?
      modifies this`consumer
      ensures Valid() && consumer == WaitingForData
    {
      consumer := WaitingForData;
      ProducerFrameKept();
    }

    /** buffer.go:159-170: open a write phase on the oldest waiting bytes. */
    method ConsumerOpenWrite(now: int)
      requires Accounted() && ProducerFrame() && now == clock
      requires writeError.None? && lastWriteStarted == 0 && 0 < timeStarted
      requires ready > 0
      modifies this`consumer, this`lastWriteStarted
      ensures Valid() && consumer == Writing(WriteChunk(readIndex, ready, buf.Length)) && lastWriteStarted == now
      ensures Stats(now) == old(Stats(now))
    {
      consumer := Writing(WriteChunk(readIndex, ready, buf.Length));
      lastWriteStarted := now;
      ProducerFrameKept();
    }

    /** Start of WriteTo: start the total timer if needed, then the check before the first write. */
    method ConsumerStart(now: int)
      requires Valid() && consumer == ConsumerIdle && now >= clock
      modifies this`timeStarted, this`consumer, this`lastWriteStarted, this`totalTimeSpent, this`clock
      ensures Valid() && clock == now
      ensures consumer == ConsumerAfter(BeforeWrite(ready, readError), WriteChunk(readIndex, ready, buf.Length))
      ensures lastWriteStarted == (if consumer.Writing? then now else 0)
      ensures consumer.ConsumerDone? ==> timeStarted == 0 && totalTimeSpent == old(Stats(now)).totalTime
      ensures !consumer.ConsumerDone? ==>
                timeStarted == (if old(timeStarted) == 0 then now else old(timeStarted)) &&
                totalTimeSpent == old(totalTimeSpent)
      ensures Stats(now) == old(Stats(now))
    {
      StartTotalTimer(now);
      ConsumerProceed(now);
    }

    /** buffer.go:86-88 and 141-143: the side that starts first starts the total timer. */
    method StartTotalTimer(now: int)
      requires Valid() && now >= clock
      modifies this`timeStarted, this`clock
      ensures Valid() && clock == now && 0 < timeStarted
      ensures timeStarted == (if old(timeStarted) == 0 then now else old(timeStarted))
      ensures Stats(now) == old(Stats(now))
    {
      clock := now;
      if timeStarted == 0 {
        timeStarted := now;
      }
    }

    /** The consumer wakes from its wait for data and repeats the check before a write. */
    method ConsumerWake(now: int)
      requires Valid() && consumer == WaitingForData && now >= clock
      modifies this`timeStarted, this`consumer, this`lastWriteStarted, this`totalTimeSpent, this`clock
      ensures Valid() && clock == now
      ensures consumer == ConsumerAfter(BeforeWrite(ready, readError), WriteChunk(readIndex, ready, buf.Length))
      ensures lastWriteStarted == (if consumer.Writing? then now else 0)
      ensures consumer.ConsumerDone? ==>
                timeStarted == 0 && totalTimeSpent == old(totalTimeSpent) + (now - old(timeStarted))
      ensures !consumer.ConsumerDone? ==>
                timeStarted == old(timeStarted) && totalTimeSpent == old(totalTimeSpent)
      ensures Stats(now) == old(Stats(now))
    {
      clock := now;
      ConsumerProceed(now);
    }

    /** The chunk the consumer hands to the sink's Write: the oldest waiting bytes, at most one eighth of the capacity. */
    method OfferedChunk() returns (chunk: seq<byte>)
      requires Valid() && consumer.Writing?
      ensures chunk == buf[consumer.chunk.lo..consumer.chunk.hi]
      ensures chunk == Contents()[..|chunk|]
      ensures 1 <= |chunk| <= MaxWrite(buf.Length)
    {
      chunk := buf[consumer.chunk.lo..consumer.chunk.hi];
      ChunkIsPrefix(buf[..], consumer.chunk.lo, ready, consumer.chunk.hi - consumer.chunk.lo);
    }

    /**
     * The sink's Write accepted the first `n` bytes of the chunk and returned
     * `err`. Frees those bytes and returns them; a write error is tagged,
     * recorded and returned at once, otherwise the check before a write follows.
     * The Write returned at `done` and the lock is retaken at `now`: the write
     * time counts up to `done`, so the writing time a snapshot reports drops
     * by `now - done`.
     */
    method ConsumerFinishWrite(n: nat, err: Option<IoError>, done: int, now: int) returns (written: seq<byte>)
      requires Valid() && consumer.Writing? && lastWriteStarted <= done <= now && now >= clock
      requires n <= consumer.chunk.Length()
      modifies this`ready, this`writeSum, this`delivered, this`lastWriteStarted, this`timeSpentWriting,
        this`writeError, this`consumer, this`timeStarted, this`totalTimeSpent, this`clock
      ensures Valid() && clock == now
      ensures written == old(Contents())[..n] && Contents() == old(Contents())[n..]
      ensures written == buf[old(consumer.chunk.lo)..old(consumer.chunk.lo) + n]
      ensures ready == old(ready) - n && writeSum == old(writeSum) + n
      ensures delivered == old(delivered) + written
      ensures timeSpentWriting == old(timeSpentWriting) + (done - old(lastWriteStarted))
      ensures writeError == (if err.Some? then Some(WriteResult(err.value)) else None)
      ensures consumer == if err.Some? then ConsumerDone(writeError)
                          else ConsumerAfter(BeforeWrite(ready, readError), WriteChunk(readIndex, ready, buf.Length))
      ensures lastWriteStarted == (if consumer.Writing? then now else 0)
      ensures consumer.ConsumerDone? ==>
                timeStarted == 0 && totalTimeSpent == old(totalTimeSpent) + (now - old(timeStarted))
      ensures !consumer.ConsumerDone? ==>
                timeStarted == old(timeStarted) && totalTimeSpent == old(totalTimeSpent)
      ensures Stats(now) == old(Stats(now)).(bufferedBytes := old(ready) - n,
                                             timeSpentWriting := old(Stats(now)).timeSpentWriting - (now - done))
    {
      written := AccountWrite(n, done, now);
      ConsumerDecide(err, now);
    }

    /** buffer.go:180-185: after a write, fail on the sink's error or repeat the check before a write. */
    method ConsumerDecide(err: Option<IoError>, now: int)
      requires Accounted() && ProducerFrame() && now == clock
      requires writeError.None? && lastWriteStarted == 0 && 0 < timeStarted
      modifies this`writeError, this`consumer, this`lastWriteStarted, this`timeStarted, this`totalTimeSpent
      ensures Valid()
      ensures writeError == (if err.Some? then Some(WriteResult(err.value)) else None)
      ensures consumer == if err.Some? then ConsumerDone(writeError)
                          else ConsumerAfter(BeforeWrite(ready, readError), WriteChunk(readIndex, ready, buf.Length))
      ensures lastWriteStarted == (if consumer.Writing? then now else 0)
      ensures consumer.ConsumerDone? ==>
                timeStarted == 0 && totalTimeSpent == old(totalTimeSpent) + (now - old(timeStarted))
      ensures !consumer.ConsumerDone? ==>
                timeStarted == old(timeStarted) && totalTimeSpent == old(totalTimeSpent)
      ensures Stats(now) == old(Stats(now))
    {
      if err.Some? {
        FailWrite(err.value, now);
      } else {
        ConsumerProceed(now);
      }
    }

    /** buffer.go:172-178: free the bytes a finished Write accepted and close the write phase. */
    method AccountWrite(n: nat, done: int, now: int) returns (written: seq<byte>)
      requires Valid() && consumer.Writing? && lastWriteStarted <= done <= now && now >= clock
      requires n <= consumer.chunk.Length()
      modifies this`ready, this`writeSum, this`delivered, this`lastWriteStarted, this`timeSpentWriting, this`clock
      ensures Accounted() && ProducerFrame() && clock == now && writeError.None?
      ensures written == old(Contents())[..n] && Contents() == old(Contents())[n..]
      ensures written == buf[consumer.chunk.lo..consumer.chunk.lo + n]
      ensures ready == old(ready) - n && writeSum == old(writeSum) + n
      ensures delivered == old(delivered) + written
      ensures timeSpentWriting == old(timeSpentWriting) + (done - old(lastWriteStarted)) && lastWriteStarted == 0
      ensures 0 < timeStarted
      ensures Stats(now) == old(Stats(now)).(bufferedBytes := old(ready) - n,
                                             timeSpentWriting := old(Stats(now)).timeSpentWriting - (now - done))
    {
      CloseWritePhase(done, now);
      written := Deliver(consumer.chunk.lo, n);
      ProducerFrameKept();
    }

    /**
     * buffer.go:172 and 177-178: the time from the start of the write to
     * `done`, when Write returned, counts as time spent writing. The lock is
     * retaken at `now`, so the writing time reported at `now` drops by
     * `now - done`.
     */
    method CloseWritePhase(done: int, now: int)
      requires Clocked() && 0 < lastWriteStarted <= done <= now && now >= clock
      modifies this`clock, this`timeSpentWriting, this`lastWriteStarted
      ensures Clocked() && clock == now && lastWriteStarted == 0
      ensures timeSpentWriting == old(timeSpentWriting) + (done - old(lastWriteStarted))
      ensures Elapsed(timeSpentWriting, lastWriteStarted, now) ==
              old(Elapsed(timeSpentWriting, lastWriteStarted, now)) - (now - done)
    {
      clock := now;
      timeSpentWriting := timeSpentWriting + (done - lastWriteStarted);
      lastWriteStarted := 0;
    }

    /** buffer.go:173 and 176: the bytes the sink accepted, from the tail `lo` on, leave the ring and count as delivered. */
    method Deliver(lo: nat, n: nat) returns (written: seq<byte>)
      requires Relayed()
      requires lo == Tail(readIndex, ready, buf.Length) && n <= ready && lo + n <= buf.Length
      modifies this`ready, this`writeSum, this`delivered
      ensures Relayed()
      ensures written == old(Contents())[..n] && Contents() == old(Contents())[n..]
      ensures written == buf[lo..lo + n]
      ensures ready == old(ready) - n && writeSum == old(writeSum) + n
      ensures delivered == old(delivered) + written
    {
      ghost var before := Contents();
      RelayDrop(delivered, before, received, n);
      written := DrainRing(lo, n);
      writeSum := writeSum + n;
      delivered := delivered + written;
    }

    /**
     * The ring after a Write accepted the `n` bytes of `buf[lo..lo + n]`,
     * `lo` being the tail: those bytes are the oldest waiting ones, and
     * they stop waiting (buffer.go:176).
     */
    method DrainRing(lo: nat, n: nat) returns (written: seq<byte>)
      requires Shaped() && lo == Tail(readIndex, ready, buf.Length) && n <= ready && lo + n <= buf.Length
      modifies this`ready
      ensures Shaped() && ready == old(ready) - n
      ensures written == buf[lo..lo + n]
      ensures written == old(Contents())[..n] && Contents() == old(Contents())[n..]
    {
      ghost var before := Contents();
      ghost var tail := Tail(readIndex, ready, buf.Length);
      ChunkIsPrefix(buf[..], lo, ready, n);
      RingReadDrop(buf[..], tail, ready, n);
      written := buf[lo..lo + n];
      ready := ready - n;
      assert Tail(readIndex, ready, buf.Length) == RingPos(tail, n, buf.Length);
      assert Contents() == before[n..];
    }

    /** buffer.go:180-183, with the deferred stop (buffer.go:144-148) of the total timer: record the tagged write error and return it. */
    method FailWrite(e: IoError, now: int)
      requires Accounted() && ProducerFrame() && now == clock
      requires writeError.None? && lastWriteStarted == 0 && 0 < timeStarted
      modifies this`writeError, this`consumer, this`timeStarted, this`totalTimeSpent
      ensures Valid()
      ensures writeError == Some(WriteResult(e)) && consumer == ConsumerDone(writeError)
      ensures timeStarted == 0 && totalTimeSpent == old(totalTimeSpent) + (now - old(timeStarted))
      ensures Stats(now) == old(Stats(now))
    {
      writeError := Some(WriteResult(e));
      consumer := ConsumerDone(writeError);
      totalTimeSpent := totalTimeSpent + (now - timeStarted);
      timeStarted := 0;
    }

    /**
     * The consumer's steps keep the producer's frame: they leave the
     * producer's fields alone, only ever free bytes and only move the clock on.
     */
    twostate lemma ProducerFrameKept()
      requires old(Shaped()) && old(ProducerFrame())
      requires unchanged(this`producer, this`readIndex, this`received, this`readError,
        this`writeError, this`lastReadStarted)
      requires ready <= old(ready) && old(clock) <= clock
      ensures Shaped() && ProducerFrame()
    {
    }

    /**
     * The producer's steps before it records a read error keep the
     * consumer's frame: they leave the consumer's fields alone, keep the
     * tail where it is, only ever add bytes and only move the clock on.
     */
    twostate lemma ConsumerFrameKept()
      requires old(Shaped()) && old(ConsumerFrame()) && old(readError).None?
      requires unchanged(this`consumer, this`delivered, this`readError, this`writeError,
        this`lastWriteStarted, this`timeStarted)
      requires Shaped() && Tail(readIndex, ready, buf.Length) == old(Tail(readIndex, ready, buf.Length))
      requires old(ready) <= ready && old(clock) <= clock
      ensures ConsumerFrame()
    {
    }

    /** Snapshots taken at nondecreasing times report nondecreasing counters and timers. */
    lemma StatsMonotone(t1: int, t2: int)
      requires Valid() && clock <= t1 <= t2
      ensures NoLater(Stats(t1), Stats(t2))
      ensures Stats(t2).bufferedBytes <= Stats(t2).bufferCapacity
    {
      ElapsedMonotone(totalTimeSpent, timeStarted, t1, t2);
      ElapsedMonotone(timeSpentReading, lastReadStarted, t1, t2);
      ElapsedMonotone(timeSpentWriting, lastWriteStarted, t1, t2);
    }

    /** Everything handed to the sink is a prefix of what the source delivered, and the rest is waiting. */
    lemma Lossless()
      requires Valid()
      ensures delivered <= received
      ensures received[|delivered|..] == Contents()
      ensures |received| - |delivered| == ready <= buf.Length
    {
    }

    /** A clean end of WriteTo: the source hit end-of-input and the sink got every byte, in order. */
    lemma CleanEndOfInput()
      requires Valid() && consumer == ConsumerDone(None)
      ensures readError == Some(EOF) && producer == ProducerDone(None)
      ensures delivered == received && writeSum == totalBytesRead
    {
    }

    /** A source failure reaches WriteTo's caller tagged, and only after every byte read before it was delivered. */
    lemma SourceFailureAfterDrain()
      requires Valid() && consumer.ConsumerDone? && consumer.err.Some? && consumer.err.value.ReadError?
      ensures readError == Some(consumer.err.value.cause) && consumer.err.value.cause != EOF
      ensures producer == ProducerDone(Some(Plain(consumer.err.value.cause)))
      ensures delivered == received
    {
    }

    /**
     * While both sides are outside the lock, the slice the source is filling
     * and the chunk the sink is reading are disjoint index ranges of `buf`.
     */
    lemma SlicesDisjoint()
      requires Valid() && producer.Reading? && consumer.Writing?
      ensures producer.region.hi <= consumer.chunk.lo || consumer.chunk.hi <= producer.region.lo
    {
    }

    /** WriteTo returns without a write error only with nothing left waiting and a read error recorded. */
    lemma DrainedBeforeReturn()
      requires Valid() && consumer.ConsumerDone? && writeError.None?
      ensures ready == 0 && Contents() == [] && delivered == received
      ensures readError.Some? && consumer.err == DrainResult(readError.value)
    {
    }

    /** Once the sink has failed, the consumer has returned that error, and a producer that returns without a read error returns it too. */
    lemma SinkFailureHandoff()
      requires Valid() && writeError.Some?
      ensures writeError.value.WriteError? && consumer == ConsumerDone(writeError)
      ensures producer.ProducerDone? && readError.None? ==> producer.err == writeError
    {
    }
  }
}
