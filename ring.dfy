/**
 * Index arithmetic of the measuring ring buffer.
 *
 * The storage is an array of capacity `cap`. The buffer keeps one rotating
 * index `readIndex` (where the next byte from the source goes) and a count
 * `ready` of bytes waiting for the sink. The waiting bytes occupy, in FIFO
 * order, the `ready` ring positions that start at the tail
 * `(readIndex - ready) mod cap`; the free bytes are the `cap - ready`
 * positions that start at `readIndex`.
 */
module Ring {

  newtype byte = x: int | 0 <= x < 256

  /** A half-open range `[lo, hi)` of array indices. */
  datatype Range = Range(lo: nat, hi: nat) {
    function Length(): nat
      requires lo <= hi
    {
      hi - lo
    }
  }

  function Min(a: int, b: int): int
  {
    if a <= b then a else b
  }

  /** Array index of the `i`-th ring position counted from `start`. */
  function RingPos(start: nat, i: nat, cap: nat): (p: nat)
    requires start < cap && i <= cap
    ensures p < cap
  {
    if start + i < cap then start + i else start + i - cap
  }

  /** Index of the oldest waiting byte, written as the consumer computes it. */
  function Tail(readIndex: nat, ready: nat, cap: nat): (t: nat)
    requires readIndex < cap && ready <= cap
    ensures t < cap
    ensures RingPos(t, ready, cap) == readIndex
  {
    if readIndex - ready >= 0 then readIndex - ready else readIndex - ready + cap
  }

  /** Moving the head index by `n` within the free bytes, as `(readIndex + n) % cap`, wraps to 0 only at the end of the array. */
  lemma Advance(readIndex: nat, n: nat, cap: nat)
    requires readIndex + n <= cap && cap >= 1
    ensures (readIndex + n) % cap == if readIndex + n < cap then readIndex + n else 0
  {
  }

  /**
   * The slice offered to the source: from `readIndex` up to the end of the
   * free bytes or the end of the array, whichever comes first. Its j-th byte
   * is the ring position right after the j-th-but-last waiting byte, so it
   * never overlaps a waiting byte.
   */
  function FreeRegion(readIndex: nat, ready: nat, cap: nat): (r: Range)
    requires readIndex < cap && ready <= cap
    ensures r.lo == readIndex && r.lo <= r.hi <= cap
    ensures r.Length() <= cap - ready
    ensures ready < cap ==> r.lo < r.hi
    ensures r.hi == Min(cap, readIndex + (cap - ready))
    ensures forall j :: ready <= j < ready + r.Length() ==>
              RingPos(Tail(readIndex, ready, cap), j, cap) == r.lo + (j - ready)
  {
    var until := if readIndex > ready then cap else readIndex - ready + cap;
    Range(readIndex, until)
  }

  /**
   * The slice of waiting bytes handed to the sink before the write cap: from
   * the tail up to the newest waiting byte or the end of the array, whichever
   * comes first. Its j-th byte is the j-th waiting byte.
   */
  function FilledRegion(readIndex: nat, ready: nat, cap: nat): (r: Range)
    requires readIndex < cap && ready <= cap
    ensures r.lo == Tail(readIndex, ready, cap) && r.lo <= r.hi <= cap
    ensures r.Length() <= ready
    ensures ready > 0 ==> r.lo < r.hi
    ensures r.hi == Min(cap, Tail(readIndex, ready, cap) + ready)
    ensures forall j :: 0 <= j < r.Length() ==>
              RingPos(Tail(readIndex, ready, cap), j, cap) == r.lo + j
  {
    if readIndex - ready >= 0 then Range(readIndex - ready, readIndex)
    else Range(readIndex - ready + cap, cap)
  }

  /** The largest write the consumer issues: one eighth of the capacity, but at least one byte. */
  function MaxWrite(cap: nat): (m: nat)
    ensures m >= 1
    ensures cap >= 8 ==> 8 * m <= cap < 8 * (m + 1)
    ensures cap < 8 ==> m == 1
  {
    if cap / 8 < 1 then 1 else cap / 8
  }

  /** The slice actually passed to the sink: the filled region cut down to `MaxWrite(cap)` bytes. */
  function WriteChunk(readIndex: nat, ready: nat, cap: nat): (r: Range)
    requires readIndex < cap && ready <= cap
    ensures r.lo == Tail(readIndex, ready, cap) && r.lo <= r.hi <= cap
    ensures r.Length() <= ready && r.Length() <= MaxWrite(cap)
    ensures ready > 0 ==> r.lo < r.hi
    ensures r.Length() == Min(Min(ready, cap - r.lo), MaxWrite(cap))
  {
    var f := FilledRegion(readIndex, ready, cap);
    if f.Length() > MaxWrite(cap) then Range(f.lo, f.lo + MaxWrite(cap)) else f
  }

  /** The `count` bytes of `s` that start at ring position `tail`, in ring order. */
  function RingRead(s: seq<byte>, tail: nat, count: nat): (r: seq<byte>)
    requires tail < |s| && count <= |s|
    ensures |r| == count
  {
    seq(count, i requires 0 <= i < count => s[RingPos(tail, i, |s|)])
  }

  /** `s` with the bytes of `p` stored from index `lo` on: what a reader does to its slice. */
  function Splice(s: seq<byte>, lo: nat, p: seq<byte>): (r: seq<byte>)
    requires lo + |p| <= |s|
    ensures |r| == |s|
  {
    s[..lo] + p + s[lo + |p|..]
  }

  /** Splicing changes exactly the indices `[lo, lo + |p|)`, to the bytes of `p` in order. */
  lemma SpliceAt(s: seq<byte>, lo: nat, p: seq<byte>, k: nat)
    requires lo + |p| <= |s| && k < |s|
    ensures Splice(s, lo, p)[k] == if lo <= k < lo + |p| then p[k - lo] else s[k]
  {
  }

  /**
   * Storing `p` at the head of the ring and counting its first `n` bytes as
   * waiting appends exactly those bytes to the waiting sequence.
   */
  lemma {:induction false} RingReadAppend(s: seq<byte>, tail: nat, count: nat, p: seq<byte>, n: nat)
    requires tail < |s| && count < |s|
    requires RingPos(tail, count, |s|) + |p| <= |s| && count + |p| <= |s| && n <= |p|
    ensures RingRead(Splice(s, RingPos(tail, count, |s|), p), tail, count + n)
            == RingRead(s, tail, count) + p[..n]
  {
    var lo := RingPos(tail, count, |s|);
    var s' := Splice(s, lo, p);
    var left := RingRead(s', tail, count + n);
    var right := RingRead(s, tail, count) + p[..n];
    forall i | 0 <= i < count + n
      ensures left[i] == right[i]
    {
      var k := RingPos(tail, i, |s|);
      SpliceAt(s, lo, p, k);
      if i < count {
        assert !(lo <= k < lo + |p|);
      } else {
        assert k == lo + (i - count);
      }
    }
  }

  /** Removing the `n` oldest waiting bytes moves the tail forward by `n`. */
  lemma {:induction false} RingReadDrop(s: seq<byte>, tail: nat, count: nat, n: nat)
    requires tail < |s| && n <= count <= |s|
    ensures RingRead(s, RingPos(tail, n, |s|), count - n) == RingRead(s, tail, count)[n..]
  {
    var t' := RingPos(tail, n, |s|);
    var left := RingRead(s, t', count - n);
    var right := RingRead(s, tail, count)[n..];
    forall i | 0 <= i < count - n
      ensures left[i] == right[i]
    {
      assert RingPos(t', i, |s|) == RingPos(tail, n + i, |s|);
    }
  }

  /** A contiguous run of array indices starting at the tail holds the oldest waiting bytes. */
  lemma ChunkIsPrefix(s: seq<byte>, tail: nat, count: nat, len: nat)
    requires tail < |s| && count <= |s| && len <= count && tail + len <= |s|
    ensures s[tail..tail + len] == RingRead(s, tail, count)[..len]
  {
  }

  /** All bytes of a list of chunks, in order. */
  function Concat(chunks: seq<seq<byte>>): seq<byte>
  {
    if chunks == [] then [] else chunks[0] + Concat(chunks[1..])
  }

  /** Concatenating a list that starts with `first` gives `first` followed by the rest. */
  lemma ConcatCons(first: seq<byte>, rest: seq<seq<byte>>)
    ensures Concat([first] + rest) == first + Concat(rest)
  {
    assert ([first] + rest)[1..] == rest;
  }

  /**
   * Writing the `n` oldest waiting bytes, a contiguous run from the tail,
   * leaves the rest waiting: the waiting bytes are that run followed by the
   * ones still waiting.
   */
  lemma DrainPrefix(s: seq<byte>, readIndex: nat, ready: nat, n: nat)
    requires readIndex < |s| && n <= ready <= |s| && Tail(readIndex, ready, |s|) + n <= |s|
    ensures RingRead(s, Tail(readIndex, ready, |s|), ready) ==
            s[Tail(readIndex, ready, |s|)..Tail(readIndex, ready, |s|) + n] +
            RingRead(s, Tail(readIndex, ready - n, |s|), ready - n)
  {
    var tail := Tail(readIndex, ready, |s|);
    var all := RingRead(s, tail, ready);
    ChunkIsPrefix(s, tail, ready, n);
    RingReadDrop(s, tail, ready, n);
    assert Tail(readIndex, ready - n, |s|) == RingPos(tail, n, |s|);
    assert all == all[..n] + all[n..];
  }

  /**
   * The writes the consumer issues to empty the ring when nothing new
   * arrives and the sink accepts every write whole: each one is the write
   * chunk of the state it meets.
   */
  function DrainWrites(s: seq<byte>, readIndex: nat, ready: nat): seq<seq<byte>>
    requires readIndex < |s| && ready <= |s|
    decreases ready
  {
    if ready == 0 then []
    else
      var c := WriteChunk(readIndex, ready, |s|);
      [s[c.lo..c.hi]] + DrainWrites(s, readIndex, ready - c.Length())
  }

  /** The first write of the drain is the write chunk `c`, and the drain goes on with the bytes after it. */
  lemma DrainWritesFirst(s: seq<byte>, readIndex: nat, ready: nat, c: Range)
    requires readIndex < |s| && 0 < ready <= |s| && c == WriteChunk(readIndex, ready, |s|)
    ensures c.lo <= c.hi <= |s| && c.Length() <= ready
    ensures DrainWrites(s, readIndex, ready) == [s[c.lo..c.hi]] + DrainWrites(s, readIndex, ready - c.Length())
  {
  }

  /** Every write of the drain carries between 1 and `MaxWrite(cap)` bytes. */
  lemma {:induction false} DrainWritesBounded(s: seq<byte>, readIndex: nat, ready: nat)
    requires readIndex < |s| && ready <= |s|
    ensures forall i :: 0 <= i < |DrainWrites(s, readIndex, ready)| ==>
              1 <= |DrainWrites(s, readIndex, ready)[i]| <= MaxWrite(|s|)
    decreases ready
  {
    if ready > 0 {
      var c := WriteChunk(readIndex, ready, |s|);
      DrainWritesBounded(s, readIndex, ready - c.Length());
    }
  }

  /** The writes of the drain, one after the other, are exactly the waiting bytes, oldest first. */
  lemma {:induction false} DrainWritesDeliver(s: seq<byte>, readIndex: nat, ready: nat)
    requires readIndex < |s| && ready <= |s|
    ensures Concat(DrainWrites(s, readIndex, ready)) == RingRead(s, Tail(readIndex, ready, |s|), ready)
    decreases ready
  {
    if ready == 0 {
      assert RingRead(s, Tail(readIndex, ready, |s|), ready) == [];
    } else {
      var c := WriteChunk(readIndex, ready, |s|);
      var n := c.Length();
      var chunk := s[c.lo..c.hi];
      var rest := DrainWrites(s, readIndex, ready - n);
      assert DrainWrites(s, readIndex, ready) == [chunk] + rest;
      DrainWritesDeliver(s, readIndex, ready - n);
      ConcatCons(chunk, rest);
      DrainPrefix(s, readIndex, ready, n);
      assert chunk == s[Tail(readIndex, ready, |s|)..Tail(readIndex, ready, |s|) + n];
    }
  }
}
