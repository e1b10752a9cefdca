# measuringringbuffer, modelled in Dafny

`measuringringbuffer` copies bytes from a source (an `io.Reader`) to a sink
(an `io.Writer`) through a fixed-size ring buffer. Two goroutines share the
buffer:

- `ReadFrom` is the producer. It fills the free part of the ring.
- `WriteTo` is the consumer. It drains the waiting part in writes of at most
  one eighth of the capacity.

Both keep timers, so that `Stats` can report how much time went into reading
and how much into writing.

The model keeps the buffer's fields and index arithmetic exactly. It replaces
the goroutines, the mutex and the condition variable with a sequential state
machine, made of these parts:

- Each stretch of `ReadFrom` or `WriteTo` that holds the lock is one method
  of the class `Buffer`. These are the start, the finish of a Read or Write,
  and the wake-up from a wait.
- The blocking `Read` and `Write` calls happen between two such steps.
- The bytes a Read stored and the counts and errors that Read and Write
  returned are inputs of the finishing step.
- Any interleaving of the two sides is therefore a sequence of step calls.
  Every step keeps the invariant `Valid()`.

The model has five modules:

- `Ring` (ring.dfy): the ring arithmetic. It covers the tail index, the free
  slice offered to the source, the filled slice offered to the sink, and the
  write cap. It also reads the ring as a sequence, oldest byte first, and
  gives, as `DrainWrites`, the writes WriteTo issues to empty the ring
  once no new bytes arrive and the sink accepts every write whole.
- `Protocol` (protocol.dfy): errors with their "read error" / "write error"
  tags, and each side's decision after a transfer or a wake-up.
- `Timing` (timing.dfy): the timer arithmetic and the `Stats` record.
  Timestamps are integers and 0 stands for Go's zero `time.Time`.
- `MeasuringRingBuffer` (buffer.dfy): the class `Buffer` with the fields of
  the Go struct, the step methods and the invariant. It also holds two ghost
  logs, `received` (every byte taken from the source) and `delivered` (every
  byte handed to the sink).
- `Relay` (copy.dfy): `Copy` run on one schedule of the two sides. The
  source has the bytes of a given input and reports end-of-input with the
  last of them. The sink accepts every write in full. Whichever side can
  move does. `Drain` runs WriteTo alone after ReadFrom has returned, and
  shows that the class's write steps issue exactly `DrainWrites`.

The central invariant is `delivered + Contents() == received`. Here
`Contents()` is the `ready` waiting bytes, read in ring order from the tail.

## Model

| member | source | states |
|---|---|---|
| Ring.Tail | buffer.go:160-163 | the tail index lies in the array, and counting `ready` positions on from it around the ring reaches `readIndex` |
| Ring.Advance | buffer.go:106 | moving `readIndex` by at most the free bytes up to the array end, modulo the capacity, wraps to 0 only at the end |
| Ring.FreeRegion | buffer.go:91-97 | the slice offered to Read starts at `readIndex` and lies inside the array. It is non-empty when `ready < C` and no longer than `C - ready`. It ends at the array end or at the tail. Its j-th byte is the ring position right after the waiting bytes, so it never covers a waiting byte. |
| Ring.FilledRegion | buffer.go:159-164 | the slice of waiting bytes starts at the tail, lies inside the array, is non-empty when `ready > 0` and is no longer than `ready`. Its j-th byte is the j-th waiting byte. |
| Ring.MaxWrite | buffer.go:133-137 | the write cap is at least 1, equals C/8 rounded down when C ≥ 8, and is 1 below that |
| Ring.WriteChunk | buffer.go:159-170 | the slice handed to Write starts at the tail and is non-empty when bytes wait. Its length is the least of `ready`, the bytes up to the array end, and the write cap. |
| Ring.SpliceAt | buffer.go:97-101 | a Read into `buf[lo:lo+len(p)]` changes exactly those indices, to the bytes of `p` in order |
| Ring.RingReadAppend | buffer.go:101-107 | storing `p` at the head and counting its first `n` bytes as waiting appends exactly `p[:n]` to the waiting bytes |
| Ring.RingReadDrop | buffer.go:171-176 | releasing the `n` oldest waiting bytes moves the tail on by `n` and drops exactly those bytes from the front |
| Ring.ChunkIsPrefix | buffer.go:159-171 | a contiguous slice starting at the tail holds the oldest waiting bytes, in order |
| Ring.DrainPrefix | buffer.go:159-176 | writing the `n` oldest waiting bytes as one run from the tail leaves exactly the rest waiting: the waiting bytes are that run followed by the rest, read from the moved tail |
| Ring.DrainWritesBounded | buffer.go:149-185 | with nothing new arriving and every write accepted whole, each write WriteTo issues to empty the ring carries between 1 and max(1, C/8) bytes |
| Ring.DrainWritesDeliver | buffer.go:149-185 | with nothing new arriving and every write accepted whole, the writes WriteTo issues to empty the ring are, one after the other, exactly the waiting bytes, oldest first |
| Protocol.ReadResult | buffer.go:112-117 | ReadFrom returns no error exactly when the source's error is end-of-input, and the source's own error otherwise |
| Protocol.DrainResult | buffer.go:150-156 | WriteTo returns no error exactly when the recorded read error is end-of-input, and that error with the "read error" tag otherwise |
| Protocol.AfterRead | buffer.go:112-127 | after a read, the producer returns exactly when the read failed or a write error is recorded. A read error wins. It waits exactly when neither holds and the buffer is full, and otherwise reads again. |
| Protocol.AfterWake | buffer.go:122-126 | on waking, the producer returns the write error exactly when one is recorded, waits again exactly when the buffer is still full, and otherwise reads |
| Protocol.BeforeWrite | buffer.go:149-158 | the consumer returns exactly when nothing waits and a read error is recorded, waits exactly when nothing waits and no read error is recorded, and writes exactly when bytes wait |
| Protocol.WriteResult | buffer.go:180-182 | a failed write is reported as the sink's error with the "write error" tag, never as success |
| Timing.Elapsed | buffer.go:70-78 | a timer reports its accumulated time, plus `now - start` exactly when its start timestamp is non-zero |
| Timing.ElapsedMonotone | buffer.go:58-80 | a timer's reported time does not decrease as `now` advances |
| MeasuringRingBuffer.Buffer.constructor | buffer.go:34-40 | New makes a buffer of `size` bytes with every counter, index, error and timer at zero, no side started, and a snapshot of capacity `size` and all other fields zero at any time |
| MeasuringRingBuffer.Buffer.Stats | buffer.go:58-80 | the snapshot reports capacity `C`, `ready` as buffered bytes, `totalBytesRead` as bytes read, and each timer as its accumulated time plus the open phase up to `now` |
| MeasuringRingBuffer.Buffer.ProducerStart | buffer.go:84-98 | starting ReadFrom starts the total timer unless the consumer already did, offers the free slice to the source and opens the read timer at `now`. The snapshot is unchanged. |
| MeasuringRingBuffer.Buffer.ProducerFinishRead | buffer.go:101-127 | for a Read that stored `p` in the offered slice and returned `n` and `err`: the array changes only in that slice, `readIndex` moves by `n` modulo C and `ready` grows by `n`. `totalBytesRead` and ReadFrom's running sum grow by exactly `n`, and the waiting bytes and the received log gain `p[:n]`. The read time grows by the phase from its start to `done`, when Read returned. An error is recorded, then the producer returns, waits or reads again as AfterRead decides. The snapshot at `now`, when the lock is retaken, changes in buffered bytes and bytes read, and its reading time drops by `now - done`. |
| MeasuringRingBuffer.Buffer.AccountRead | buffer.go:102-110 | the finished read's bytes enter the ring as in ProducerFinishRead, and the read timer closes with the time up to `done`, so the reported reading time drops by `now - done` |
| MeasuringRingBuffer.Buffer.Receive | buffer.go:103-108 | the bytes stored at the head join the ring and the received log. `readIndex` and `ready` move by `n`, the tail stays put, and the invariant's relay part is kept. |
| MeasuringRingBuffer.Buffer.FillRing | buffer.go:101-107 | after a Read into the free slice, the array is the old array spliced with `p`, the head moves by `n` modulo C, and the waiting bytes gain `p[:n]` at the end |
| MeasuringRingBuffer.Buffer.Store | buffer.go:101 | the source's Read changes only its slice `buf[lo:lo+len(p)]`, which then holds `p` |
| MeasuringRingBuffer.Buffer.RecordReadError | buffer.go:112-113 | the source's error is kept for the consumer, and the invariant holds apart from the producer's frame, which ProducerProceed restores |
| MeasuringRingBuffer.Buffer.ProducerDecide | buffer.go:112-127 | the read error is recorded, then the producer does what AfterRead decides: returns, waits, or offers the next free slice with the read timer open |
| MeasuringRingBuffer.Buffer.ProducerProceed | buffer.go:90-98 | the producer returns an error, waits, or offers the free slice of the current state with the read timer open at `now`, as its decision says, keeping the invariant |
| MeasuringRingBuffer.Buffer.ProducerWake | buffer.go:122-127 | a producer woken from the full-buffer wait does what AfterWake decides, with nothing else changed |
| MeasuringRingBuffer.Buffer.StartTotalTimer | buffer.go:86-88 | the side that starts first sets the total timer's start to `now`, and a later side leaves it alone |
| MeasuringRingBuffer.Buffer.ConsumerStart | buffer.go:139-165 | starting WriteTo starts the total timer unless the producer already did, then makes the check before a write |
| MeasuringRingBuffer.Buffer.ConsumerProceed | buffer.go:149-165 | the consumer does what BeforeWrite decides: returns and stops the total timer, waits, or offers WriteChunk with the write timer open. The snapshot is unchanged. |
| MeasuringRingBuffer.Buffer.ConsumerReturn | buffer.go:144-155 | a drained consumer after a read error returns DrainResult and moves the total timer's open phase into `totalTimeSpent` |
| MeasuringRingBuffer.Buffer.ConsumerWait | buffer.go:150-157 | with nothing waiting and no read error, the consumer waits for data |
| MeasuringRingBuffer.Buffer.ConsumerOpenWrite | buffer.go:159-170 | with bytes waiting, the consumer offers WriteChunk of the current state and opens the write timer at `now` |
| MeasuringRingBuffer.Buffer.ConsumerWake | buffer.go:149-158 | a consumer woken from the wait for data repeats the check before a write, with nothing else changed |
| MeasuringRingBuffer.Buffer.OfferedChunk | buffer.go:159-171 | the bytes given to the sink's Write are the oldest waiting bytes, 1 to MaxWrite of them |
| MeasuringRingBuffer.Buffer.ConsumerFinishWrite | buffer.go:171-185 | for a Write that accepted `n` bytes of the chunk: the `n` bytes returned are the chunk's first `n` bytes and the oldest waiting bytes. They leave the ring and join the delivered log, `ready` drops by `n`, and the write time grows by the phase from its start to `done`, when Write returned. A sink error is tagged, recorded and returned at once, stopping the total timer. Otherwise the check before a write follows. The snapshot at `now`, when the lock is retaken, changes in buffered bytes, and its writing time drops by `now - done`. |
| MeasuringRingBuffer.Buffer.AccountWrite | buffer.go:172-178 | the accepted bytes leave the ring and join the delivered log, and the write timer closes with the time up to `done`. The invariant's relay part and the producer's frame are kept. |
| MeasuringRingBuffer.Buffer.CloseWritePhase | buffer.go:172-178 | the write phase up to `done`, when Write returned, moves into `timeSpentWriting`. The writing time reported at `now`, when the lock is retaken, drops by `now - done`. |
| MeasuringRingBuffer.Buffer.Deliver | buffer.go:173-176 | the `n` accepted bytes are exactly the oldest waiting bytes. They leave the ring, `ready` drops by `n` and the delivered log gains them. |
| MeasuringRingBuffer.Buffer.DrainRing | buffer.go:176 | releasing `n` bytes from the tail returns `buf[tail:tail+n]`, which is the first `n` waiting bytes, and leaves the rest waiting in order |
| MeasuringRingBuffer.Buffer.ConsumerDecide | buffer.go:180-185 | after a write the consumer fails on the sink's error, or otherwise makes the check before a write |
| MeasuringRingBuffer.Buffer.FailWrite | buffer.go:180-183 | a failed write records the tagged error and returns it, and the deferred stop of the total timer (buffer.go:144-148) runs |
| MeasuringRingBuffer.Buffer.ProducerFrameKept | buffer.go:171-184 | the consumer's steps cannot invalidate the producer's state, because they only release bytes and move the clock on |
| MeasuringRingBuffer.Buffer.ConsumerFrameKept | buffer.go:102-110 | the producer's accounting of a read cannot invalidate the consumer's state, because it only adds bytes and keeps the tail |
| MeasuringRingBuffer.Buffer.StatsMonotone | buffer.go:58-80 | in any reachable state, snapshots taken later report no fewer bytes read and no less time in any timer, and never more buffered bytes than capacity |
| MeasuringRingBuffer.Buffer.Lossless | buffer.go:97-107 | in any reachable state, the bytes handed to the sink are a prefix of the bytes taken from the source, and the rest is exactly what waits in the ring, in order |
| MeasuringRingBuffer.Buffer.CleanEndOfInput | buffer.go:150-153 | a WriteTo that returns no error follows a source that hit end-of-input. Then ReadFrom returned no error and the sink got every byte, in order. |
| MeasuringRingBuffer.Buffer.SourceFailureAfterDrain | buffer.go:112-117 | a WriteTo that returns a read-tagged error returns the source's real failure. ReadFrom returned that failure untagged, and every byte read before it was delivered. |
| MeasuringRingBuffer.Buffer.DrainedBeforeReturn | buffer.go:150-156 | WriteTo returns without a write error only when nothing waits, everything received was delivered, and a read error is recorded |
| MeasuringRingBuffer.Buffer.SlicesDisjoint | buffer.go:97-101 | while both sides are outside the lock, the slice the source fills and the chunk the sink reads are disjoint |
| MeasuringRingBuffer.Buffer.SinkFailureHandoff | buffer.go:119-126 | once a write has failed, WriteTo has returned that tagged error, and a ReadFrom that returns without a read error returns the same error |
| Relay.Launch | buffer.go:34-46 | New followed by the start of both sides gives an array of `size` bytes, offers the source the whole array `[0, size)` as its first slice and leaves the sink waiting for data, with nothing moved yet |
| Relay.ReadStep | buffer.go:101-127 | a Read that fills as much of its slice as the source still has, with end-of-input on the last bytes, takes min(slice length, bytes left) bytes off the front of the source and appends exactly those to the received log, keeps the run's invariant and lowers its measure |
| Relay.WriteStep | buffer.go:171-185 | a Write that accepts the whole chunk hands the sink 1 to max(1, C/8) more bytes, exactly the oldest waiting ones, keeps the run's invariant and lowers its measure |
| Relay.WakeProducer | buffer.go:122-127 | a producer woken once space is free moves on, keeping the run's invariant and lowering its measure |
| Relay.WakeConsumer | buffer.go:150-158 | a consumer woken once bytes wait or end-of-input is recorded moves on, keeping the run's invariant and lowering its measure |
| Relay.CanMove | buffer.go:119-158 | in any state where both sides have started, whatever the source and the sink returned, until WriteTo returns one of the two sides can always move: a Read or Write is pending, or a waiting side has a reason to wake. The two waits never block each other. |
| Relay.Copy | buffer.go:43-46 | copying any input through a fresh buffer of any positive size, to a sink that accepts every write, ends, and hands the sink exactly the input in order. WriteTo returns the input's length and no error. |
| Ring.DrainWritesFirst | buffer.go:159-176 | the first write of the drain is the write chunk of the current state, and the drain goes on with the bytes after it |
| Relay.DrainStep | buffer.go:165-185 | once ReadFrom has returned, a Write that accepts the current write chunk whole hands the sink exactly that chunk and frees its bytes, and the consumer writes the next write chunk or returns with the ring empty |
| Relay.DrainAdvance | buffer.go:149-185 | issuing the current write chunk moves the first remaining write of DrainWrites to the writes already issued |
| Relay.Drain | buffer.go:149-185 | once ReadFrom has returned and the chunk on offer is the write chunk of the current state, repeated ConsumerFinishWrite steps whose Write accepts every chunk whole issue exactly the writes DrainWrites gives for the buffer at the start. Together they are the bytes that were waiting, and WriteTo returns with the ring empty. |

## Left out

- The goroutine in `Copy`, and the mutex and condition variable (buffer.go:16-17, 38, 43-46), become explicit step methods called in whatever order the caller chooses. A wake-up step may be called at any time in a waiting phase, so spurious wake-ups are covered.
- Relay.Copy: proves termination and the exact result for one schedule only, with a source that never fails and a sink that accepts every write in full. Other interleavings, failing sources and sinks, and short writes are covered by the step methods' invariant and the lemmas on it, not by a run to the end.
- The wall clock becomes an integer `now` argument for each step. A step requires `now` to be no earlier than the previous step's, as Go's monotonic clock guarantees. Go reads the clock for a finished Read or Write (buffer.go:102, 172) before it retakes the lock (buffer.go:105, 175). The finishing steps take both readings, `done` and `now`. A Stats call between them counts the open phase up to its own time. Afterwards the phase counts only up to `done`. So the reported reading or writing time can drop between two snapshots, by `now - done`, and the finishing steps' contracts state that drop. StatsMonotone is about one state only.
- The `fmt.Errorf` wrapping (buffer.go:155, 181) is a tag on the error datatype. The message text is not modelled.
- `totalBytesRead` and the running sums are `int64`, and durations are nanosecond `int64` values, in Go. The model's integers are unbounded: overflow after 2^63 bytes or about 292 years is not modelled.
- Concrete sources and sinks are not modelled. A Read's or Write's results are inputs that obey `0 <= n <= len(p)`. The rule that a short write must come with an error is not required, because the code itself does not depend on it. A short write without an error is counted, and the loop goes on.
- Calling ReadFrom or WriteTo a second time on the same buffer is not modelled. The start steps require a side that has not started, as the package documentation asks.
- MeasuringRingBuffer.Buffer.constructor: requires `size >= 1`. `New(0)` returns a buffer in Go, but its first ReadFrom divides by zero at buffer.go:106, and a negative size panics in `make`.
- cmd/fv/fv.go is not part of this model: it is the command-line front end, with flags, a ticker and output formatting.
- A sink's io.EOF gets no special treatment: the code wraps every error from Write as a write error and returns it (buffer.go:180-183), and so does the model.
