/**
 * Copy (buffer.go:43-46) on one schedule of the two sides.
 *
 * The source hands out `input` as fast as the offered slices allow and
 * reports end-of-input with its last bytes; the sink accepts every chunk in
 * full. Whenever a side can move, it does: a pending Read or Write
 * finishes, and a waiting side is woken once the other side has given it a
 * reason to go on. The run ends when WriteTo returns.
 */
module Relay {

  import opened Ring
  import opened Protocol
  import opened MeasuringRingBuffer

  /** How far a producer phase is from a step that moves bytes. */
  function ProducerRank(phase: ProducerPhase): nat
  {
    match phase
    case WaitingForSpace => 2
    case Reading(_) => 1
    case _ => 0
  }

  /** How far a consumer phase is from a step that moves bytes. */
  function ConsumerRank(phase: ConsumerPhase): nat
  {
    match phase
    case WaitingForData => 1
    case _ => 0
  }

  /** What a source leaves in a slice of `len` bytes with `rest` left: as many bytes as fit, then padding beyond the `n` counted bytes. */
  function SourceRead(rest: seq<byte>, len: nat): (p: seq<byte>)
    ensures |p| == len
    ensures |rest| <= len ==> p[..|rest|] == rest
    ensures len < |rest| ==> p == rest[..len]
  {
    if len < |rest| then rest[..len] else rest + seq(len - |rest|, _ => 0)
  }

  /**
   * The state of a run of Copy from `input`, with `rest` still in the source
   * and `output` in the sink: both sides have started, the sink has not
   * failed, what the source gave up is `input` without `rest`, what the sink
   * got is the delivered log, and end-of-input is recorded only once the
   * source is empty.
   */
  ghost predicate Running(b: Buffer, input: seq<byte>, rest: seq<byte>, output: seq<byte>)
    reads b, b.buf
  {
    b.Valid() && b.clock == 1 &&
    b.producer != ProducerIdle && b.consumer != ConsumerIdle && b.writeError == None &&
    b.received + rest == input && output == b.delivered &&
    (b.readError.Some? ==> b.readError == Some(EOF) && rest == [])
  }

  /** What every step of the run lowers: bytes still in the source count twice as much as bytes in the ring, and a waiting side counts extra. */
  ghost function Progress(b: Buffer, rest: seq<byte>): nat
    reads b
  {
    4 * |rest| + 2 * b.ready + ProducerRank(b.producer) + ConsumerRank(b.consumer)
  }

  /** The source's Read returns as many bytes as the slice holds, with end-of-input once it has given its last byte. */
  method ReadStep(b: Buffer, ghost input: seq<byte>, rest: seq<byte>, ghost output: seq<byte>) returns (rest': seq<byte>)
    requires Running(b, input, rest, output) && b.producer.Reading?
    modifies b, b.buf
    ensures Running(b, input, rest', output)
    ensures |rest| - |rest'| == Min(old(b.producer.region.Length()), |rest|)
    ensures rest' == rest[|rest| - |rest'|..] && b.received == old(b.received) + rest[..|rest| - |rest'|]
    ensures Progress(b, rest') < old(Progress(b, rest))
  {
    var len := b.producer.region.hi - b.producer.region.lo;
    var n := if len < |rest| then len else |rest|;
    var p := SourceRead(rest, len);
    var readErr := if len < |rest| then None else Some(EOF);
    assert p[..n] == rest[..n];
    b.ProducerFinishRead(p, n, readErr, 1, 1);
    rest' := rest[n..];
    assert rest[..n] + rest' == rest;
  }

  /** The sink's Write accepts the whole chunk. */
  method WriteStep(b: Buffer, ghost input: seq<byte>, ghost rest: seq<byte>, output: seq<byte>) returns (output': seq<byte>)
    requires Running(b, input, rest, output) && b.consumer.Writing?
    modifies b
    ensures Running(b, input, rest, output')
    ensures 1 <= |output'| - |output| <= MaxWrite(b.buf.Length)
    ensures output' == output + old(b.Contents())[..|output'| - |output|]
    ensures Progress(b, rest) < old(Progress(b, rest))
  {
    var chunk := b.OfferedChunk();
    var sent := b.ConsumerFinishWrite(|chunk|, None, 1, 1);
    output' := output + sent;
  }

  /** The producer is woken once the consumer has freed space. */
  method WakeProducer(b: Buffer, ghost input: seq<byte>, ghost rest: seq<byte>, ghost output: seq<byte>)
    requires Running(b, input, rest, output) && b.producer == WaitingForSpace && b.ready < b.buf.Length
    modifies b
    ensures Running(b, input, rest, output)
    ensures Progress(b, rest) < old(Progress(b, rest))
  {
    b.ProducerWake(1);
  }

  /** The consumer is woken once bytes wait or the producer has stopped. */
  method WakeConsumer(b: Buffer, ghost input: seq<byte>, ghost rest: seq<byte>, ghost output: seq<byte>)
    requires Running(b, input, rest, output) && b.consumer == WaitingForData
    requires b.ready > 0 || b.readError.Some?
    modifies b
    ensures Running(b, input, rest, output)
    ensures Progress(b, rest) < old(Progress(b, rest))
  {
    b.ConsumerWake(1);
  }

  /**
   * Nothing has moved yet: the whole input is still in the source. (The
   * invariant is taken as one fact, `== true`, so that it is not split into
   * its many conjuncts at the call.)
   */
  lemma Launched(b: Buffer, input: seq<byte>)
    requires b.Valid() == true
    requires b.clock == 1
    requires b.producer.Reading? && b.consumer == WaitingForData
    requires b.received == [] && b.delivered == []
    requires b.readError == None && b.writeError == None
    ensures Running(b, input, input, [])
  {
  }

  /** A fresh buffer of `size` bytes with both sides started at time 1 and all of `input` still in the source. */
  method Launch(ghost input: seq<byte>, size: nat) returns (b: Buffer)
    requires size >= 1
    ensures fresh(b) && fresh(b.buf) && Running(b, input, input, [])
    ensures b.buf.Length == size && b.producer == Reading(Range(0, size)) && b.consumer == WaitingForData
  {
    b := new Buffer(size);
    b.ProducerStart(1);
    b.ConsumerStart(1);
    Launched(b, input);
  }

  /**
   * In any state where both sides have started and WriteTo has not returned,
   * one of the four steps applies: a Read or a Write is pending, or a waiting
   * side has a reason to wake. The two waits never block each other.
   */
  lemma CanMove(b: Buffer)
    requires b.Valid() == true
    requires b.producer != ProducerIdle && b.consumer != ConsumerIdle && !b.consumer.ConsumerDone?
    ensures b.producer.Reading? || b.consumer.Writing? ||
            (b.producer == WaitingForSpace && b.ready < b.buf.Length) ||
            (b.consumer == WaitingForData && (b.ready > 0 || b.readError.Some?))
  {
  }

  /**
   * WriteTo alone after ReadFrom has returned, over the array contents `s`
   * with head index `ri`: the consumer is writing the write chunk of the
   * current state, or has returned with the ring empty.
   */
  ghost predicate Draining(b: Buffer, s: seq<byte>, ri: nat)
    reads b, b.buf
  {
    b.Valid() && b.producer.ProducerDone? && b.readError.Some? &&
    b.buf[..] == s && b.readIndex == ri &&
    (b.consumer.Writing? ==> b.consumer.chunk == WriteChunk(ri, b.ready, |s|)) &&
    (b.consumer.Writing? || (b.consumer.ConsumerDone? && b.ready == 0))
  }

  /** Once ReadFrom has returned, a consumer writing the current write chunk is draining. */
  lemma StartsDraining(b: Buffer)
    requires b.Valid() == true && b.producer.ProducerDone?
    requires b.consumer == Writing(WriteChunk(b.readIndex, b.ready, b.buf.Length))
    ensures Draining(b, b.buf[..], b.readIndex) && b.readIndex < b.buf.Length && b.ready <= b.buf.Length
  {
  }

  /** The state after a write of the drain is still draining. (The invariant is taken as one fact, as in Launched.) */
  lemma StillDraining(b: Buffer, s: seq<byte>, ri: nat)
    requires b.Valid() == true
    requires b.producer.ProducerDone? && b.readError.Some? && b.buf[..] == s && b.readIndex == ri
    requires b.consumer == ConsumerAfter(BeforeWrite(b.ready, b.readError), WriteChunk(ri, b.ready, |s|))
    ensures Draining(b, s, ri)
  {
  }

  /** The sink accepts the chunk on offer whole: those bytes are written and leave the ring. */
  method DrainStep(b: Buffer, ghost s: seq<byte>, ghost ri: nat, now: int) returns (written: seq<byte>)
    requires Draining(b, s, ri) && b.consumer.Writing? && now >= b.clock
    modifies b
    ensures Draining(b, s, ri) && b.clock == now
    ensures ri < |s| && 0 < old(b.ready) <= |s| && old(b.consumer.chunk) == WriteChunk(ri, old(b.ready), |s|)
    ensures written == s[old(b.consumer.chunk.lo)..old(b.consumer.chunk.hi)]
    ensures b.ready == old(b.ready) - old(b.consumer.chunk.Length())
  {
    written := b.ConsumerFinishWrite(b.consumer.chunk.hi - b.consumer.chunk.lo, None, now, now);
    StillDraining(b, s, ri);
  }

  /** Issuing the write chunk `c` as the next write moves the first remaining write of the drain to the issued ones. */
  lemma DrainAdvance(s: seq<byte>, ri: nat, before: nat, after: nat, c: Range, written: seq<byte>,
                     issued: seq<seq<byte>>, all: seq<seq<byte>>)
    requires ri < |s| && 0 < before <= |s| && c == WriteChunk(ri, before, |s|)
    requires written == s[c.lo..c.hi] && after == before - c.Length()
    requires issued + DrainWrites(s, ri, before) == all
    ensures after <= |s| && (issued + [written]) + DrainWrites(s, ri, after) == all
  {
    var rest := DrainWrites(s, ri, after);
    DrainWritesFirst(s, ri, before, c);
    assert DrainWrites(s, ri, before) == [written] + rest;
    assert issued + ([written] + rest) == (issued + [written]) + rest;
  }

  /**
   * WriteTo alone, once ReadFrom has returned and the chunk on offer is the
   * write chunk of the current state, to a sink that accepts every write
   * whole: the writes it issues are exactly DrainWrites of the buffer at the
   * start, together they are the bytes that were waiting, and WriteTo then
   * returns with the ring empty.
   */
  method Drain(b: Buffer, now: int) returns (writes: seq<seq<byte>>)
    requires b.Valid() && b.producer.ProducerDone? && now >= b.clock
    requires b.consumer == Writing(WriteChunk(b.readIndex, b.ready, b.buf.Length))
    modifies b
    ensures writes == DrainWrites(old(b.buf[..]), old(b.readIndex), old(b.ready))
    ensures Concat(writes) == old(b.Contents())
    ensures b.Valid() && b.consumer.ConsumerDone? && b.ready == 0
  {
    ghost var s, ri, ready0 := b.buf[..], b.readIndex, b.ready;
    StartsDraining(b);
    writes := [];
    while !b.consumer.ConsumerDone?
      invariant Draining(b, s, ri) && now >= b.clock && ri < |s| && b.ready <= ready0 <= |s|
      invariant writes + DrainWrites(s, ri, b.ready) == DrainWrites(s, ri, ready0)
      decreases b.ready
    {
      ghost var c, before := b.consumer.chunk, b.ready;
      var written := DrainStep(b, s, ri, now);
      DrainAdvance(s, ri, before, b.ready, c, written, writes, DrainWrites(s, ri, ready0));
      writes := writes + [written];
    }
    DrainWritesDeliver(s, ri, ready0);
  }

  /**
   * Copying `input` through a fresh buffer of `size` bytes to a sink that
   * accepts everything delivers exactly `input`, in order, and WriteTo
   * returns the number of bytes written, all of them, and no error.
   */
  method Copy(input: seq<byte>, size: nat) returns (output: seq<byte>, count: int, err: Option<TaggedError>)
    requires size >= 1
    ensures output == input && count == |input| && err == None
  {
    var b := Launch(input, size);
    var rest := input;
    output := [];
    while !b.consumer.ConsumerDone?
      invariant Running(b, input, rest, output)
      decreases Progress(b, rest)
    {
      CanMove(b);
      if b.producer.Reading? {
        rest := ReadStep(b, input, rest, output);
      } else if b.consumer.Writing? {
        output := WriteStep(b, input, rest, output);
      } else if b.producer == WaitingForSpace && b.ready < b.buf.Length {
        WakeProducer(b, input, rest, output);
      } else {
        WakeConsumer(b, input, rest, output);
      }
    }
    b.DrainedBeforeReturn();
    count, err := b.writeSum, b.consumer.err;
  }
}
