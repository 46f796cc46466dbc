/**
 The upload body of internal/tmbench/tmbench.go, sizedReader: a reader that yields a fixed number of
 bytes by cycling through a small block, whatever buffers it is read into.
 */
module SizedReader {
  import opened Rotation

  type byte = bv8

  /** The counters shared with the sampler and the watchdog (internal/metrics/progress.go). */
  class Progress {
    var InFlight: int
    var Bytes: int

    constructor ()
      ensures InFlight == 0 && Bytes == 0
    {
      InFlight, Bytes := 0, 0;
    }
  }

  /** The j-th byte of the endless repetition of pattern, from offset off. */
  function StreamByte(pattern: seq<byte>, off: nat, j: nat): byte
    requires |pattern| > 0
  {
    pattern[Slot(off + j, |pattern|)]
  }

  function Stream(pattern: seq<byte>, off: nat, n: nat): (s: seq<byte>)
    requires |pattern| > 0
    ensures |s| == n
  {
    seq(n, j requires 0 <= j => StreamByte(pattern, off, j))
  }

  lemma StreamByteShifts(pattern: seq<byte>, off: nat, a: nat, j: nat)
    requires |pattern| > 0
    ensures StreamByte(pattern, Slot(off + a, |pattern|), j) == StreamByte(pattern, off, a + j)
  {
    SlotOfSum(off + a, j, |pattern|);
  }

  /** Stopping after a bytes and going on at the offset reached is the same as not stopping. */
  lemma StreamSplits(pattern: seq<byte>, off: nat, a: nat, b: nat)
    requires |pattern| > 0
    ensures Stream(pattern, off, a) + Stream(pattern, Slot(off + a, |pattern|), b) == Stream(pattern, off, a + b)
  {
    var joined := Stream(pattern, off, a) + Stream(pattern, Slot(off + a, |pattern|), b);
    var whole := Stream(pattern, off, a + b);
    forall i | 0 <= i < a + b ensures joined[i] == whole[i] {
      if i >= a {
        StreamByteShifts(pattern, off, a, i - a);
      }
    }
  }

  /** Short of the end of the block the stream is the block itself. */
  lemma StreamInBlock(pattern: seq<byte>, off: nat, k: nat)
    requires off + k <= |pattern| && |pattern| > 0
    ensures Stream(pattern, off, k) == pattern[off..off + k]
  {
    forall j: nat | j < k ensures StreamByte(pattern, off, j) == pattern[off + j] {
      SlotOfSmall(off + j, |pattern|);
    }
    assert Stream(pattern, off, k) == pattern[off..off + k];
  }

  /** The built-in copy(dst[at:], src). */
  method Copy(dst: array<byte>, at: nat, end: nat, src: seq<byte>) returns (k: nat)
    requires at <= end <= dst.Length
    modifies dst
    ensures k == if end - at < |src| then end - at else |src|
    ensures dst[..] == old(dst[..])[..at] + src[..k] + old(dst[..])[at + k..]
  {
    k := if end - at < |src| then end - at else |src|;
    forall j | 0 <= j < k {
      dst[at + j] := src[j];
    }
  }

  lemma Splice(filled: seq<byte>, chunk: seq<byte>, before: seq<byte>, p: seq<byte>)
    requires |filled| + |chunk| <= |before| && p == filled + before[|filled|..]
    ensures |p| == |before|
    ensures p[..|filled|] + chunk + p[|filled| + |chunk|..] == (filled + chunk) + before[|filled| + |chunk|..]
  {
    assert p[..|filled|] == filled;
    assert p[|filled| + |chunk|..] == before[|filled| + |chunk|..];
  }

  /** One round of the copy loop: the part already filled grows by k bytes of the stream. */
  lemma FilledFurther(pattern: seq<byte>, start: nat, total: nat, off: nat, k: nat, before: seq<byte>, p: seq<byte>)
    requires |pattern| > 0 && off == Slot(start + total, |pattern|) && off + k <= |pattern| && total + k <= |before|
    requires p == Stream(pattern, start, total) + before[total..]
    ensures |p| == |before|
    ensures p[..total] + pattern[off..off + k] + p[total + k..] == Stream(pattern, start, total + k) + before[total + k..]
  {
    StreamInBlock(pattern, off, k);
    StreamSplits(pattern, start, total, k);
    Splice(Stream(pattern, start, total), Stream(pattern, off, k), before, p);
  }

  lemma OffsetFurther(start: nat, total: nat, off: nat, k: nat, m: nat)
    requires m > 0 && off == Slot(start + total, m)
    ensures (off + k) % m == Slot(start + (total + k), m)
  {
    SlotOfSum(start + total, k, m);
    assert start + total + k == start + (total + k);
  }

  /** copy(p[total:], pattern[off:]) when the first total bytes of p already hold the stream: as many bytes more as the block has left, and the offset after them. */
  method CopyBlock(p: array<byte>, total: nat, length: nat, pattern: seq<byte>, off: nat, ghost start: nat, ghost before: seq<byte>)
    returns (k: nat, next: nat)
    requires total <= length <= p.Length
    requires off < |pattern| && off == Slot(start + total, |pattern|)
    requires |before| == p.Length && p[..] == Stream(pattern, start, total) + before[total..]
    modifies p
    ensures k == if length - total < |pattern| - off then length - total else |pattern| - off
    ensures next == Slot(start + (total + k), |pattern|)
    ensures p[..] == Stream(pattern, start, total + k) + before[total + k..]
  {
    ghost var filled := p[..];
    k := Copy(p, total, length, pattern[off..]);
    FilledFurther(pattern, start, total, off, k, before, filled);
    assert pattern[off..][..k] == pattern[off..off + k];
    OffsetFurther(start, total, off, k, |pattern|);
    next := (off + k) % |pattern|;
  }

  /** The copy loop: fills the first bytes of p from the stream. */
  method Fill(p: array<byte>, length: nat, pattern: seq<byte>, start: nat) returns (total: nat, off: nat)
    requires length <= p.Length && start < |pattern|
    modifies p
    ensures total == length && off == Slot(start + total, |pattern|)
    ensures p[..] == Stream(pattern, start, total) + old(p[length..])
  {
    ghost var before := p[..];
    total, off := 0, start;
    SlotOfSmall(start, |pattern|);
    while total < length
      invariant total <= length
      invariant off == Slot(start + total, |pattern|)
      invariant p[..] == Stream(pattern, start, total) + before[total..]
    {
      var k, next := CopyBlock(p, total, length, pattern, off, start, before);
      off := next;
      total := total + k;
    }
  }

  /** A reader as a value: what is left to yield and where in the block the next byte is. */
  datatype Position = Position(remaining: int, off: nat)

  /** How many bytes one Read into a buffer of the given length yields. */
  function Yield(r: Position, length: nat): (n: nat)
    ensures n <= length
  {
    if r.remaining <= 0 then 0 else if length > r.remaining then r.remaining else length
  }

  function Advanced(r: Position, n: nat, blockSize: nat): Position
    requires blockSize > 0
  {
    Position(r.remaining - n, Slot(r.off + n, blockSize))
  }

  class Reader {
    var remaining: int
    const pattern: seq<byte>
    var off: nat
    const prog: Progress?

    predicate Valid()
      reads this
    {
      off < |pattern|
    }

    function At(): Position
      reads this
    {
      Position(remaining, off)
    }

    constructor (remaining: int, pattern: seq<byte>, prog: Progress?)
      requires |pattern| > 0
      ensures Valid() && At() == Position(remaining, 0) && this.pattern == pattern && this.prog == prog
    {
      this.remaining, this.pattern, this.off, this.prog := remaining, pattern, 0, prog;
    }

    /** Fills p from the stream; eof stands for the io.EOF error. Nothing of p beyond the n bytes is touched. */
    method Read(p: array<byte>) returns (n: nat, eof: bool)
      requires Valid()
      modifies this, p, prog
      ensures Valid()
      ensures eof <==> old(remaining) <= 0
      ensures n == Yield(old(At()), p.Length)
      ensures p[..] == Stream(pattern, old(off), n) + old(p[n..])
      ensures At() == old(if eof then At() else Advanced(At(), n, |pattern|))
      ensures prog != null ==> prog.Bytes == old(prog.Bytes) + n && prog.InFlight == old(prog.InFlight)
    {
      if remaining <= 0 {
        return 0, true;
      }
      var length := if p.Length > remaining then remaining else p.Length;
      var total;
      total, off := Fill(p, length, pattern, off);
      remaining := remaining - total;
      if prog != null {
        prog.Bytes := prog.Bytes + total;
      }
      return total, false;
    }
  }

  // ---------------------------------------------------------------- any sequence of reads

  /** The reads into buffers of the given lengths, one after the other: the bytes delivered and the reader left behind. */
  function ReadAll(pattern: seq<byte>, r: Position, lengths: seq<nat>): (result: (seq<byte>, Position))
    requires |pattern| > 0
    decreases |lengths|
  {
    if lengths == [] then ([], r)
    else
      var n := Yield(r, lengths[0]);
      var next := if r.remaining <= 0 then r else Advanced(r, n, |pattern|);
      var (bytes, last) := ReadAll(pattern, next, lengths[1..]);
      (Stream(pattern, r.off, n) + bytes, last)
  }

  /** A consumer that reads the body into buffers of these lengths: the object behaves as ReadAll says. */
  method ReadMany(r: Reader, lengths: seq<nat>) returns (out: seq<byte>)
    requires r.Valid()
    modifies r, r.prog
    ensures r.Valid()
    ensures (out, r.At()) == ReadAll(r.pattern, old(r.At()), lengths)
    decreases |lengths|
  {
    if lengths == [] {
      return [];
    }
    var p := new byte[lengths[0]];
    var n, _ := r.Read(p);
    var rest := ReadMany(r, lengths[1..]);
    out := p[..n] + rest;
  }

  function Total(lengths: seq<nat>): nat
    decreases |lengths|
  {
    if lengths == [] then 0 else lengths[0] + Total(lengths[1..])
  }

  /**
   However a body is cut into reads, what comes out is one prefix of the same endless stream: as much
   of it as was asked for, but never more than the reader's size.
   */
  lemma {:induction false} ChunkingIsInvisible(pattern: seq<byte>, r: Position, lengths: seq<nat>)
    requires |pattern| > 0
    ensures var n := Yield(r, Total(lengths));
            && ReadAll(pattern, r, lengths).0 == Stream(pattern, r.off, n)
            && ReadAll(pattern, r, lengths).1.remaining == r.remaining - n
    decreases |lengths|
  {
    if lengths != [] {
      var n := Yield(r, lengths[0]);
      var next := if r.remaining <= 0 then r else Advanced(r, n, |pattern|);
      ChunkingIsInvisible(pattern, next, lengths[1..]);
      if r.remaining > 0 {
        StreamSplits(pattern, r.off, n, Yield(next, Total(lengths[1..])));
      }
    }
  }

  /** Two ways of cutting that ask for the same total, or both for at least the whole body, deliver the same bytes. */
  lemma SameTotalSameBytes(pattern: seq<byte>, r: Position, one: seq<nat>, other: seq<nat>)
    requires |pattern| > 0
    requires Total(one) == Total(other) || (Total(one) >= r.remaining && Total(other) >= r.remaining)
    ensures ReadAll(pattern, r, one).0 == ReadAll(pattern, r, other).0
  {
    ChunkingIsInvisible(pattern, r, one);
    ChunkingIsInvisible(pattern, r, other);
  }

  /** Read reports the end of the body after the given reads. */
  predicate AtEnd(pattern: seq<byte>, r: Position, lengths: seq<nat>)
    requires |pattern| > 0
  {
    ReadAll(pattern, r, lengths).1.remaining <= 0
  }

  /** The end is reported exactly once the whole size has been asked for, when exactly that many bytes were delivered, and it is reported ever after. */
  lemma EndExactlyAfterTheWholeBody(pattern: seq<byte>, r: Position, lengths: seq<nat>, more: seq<nat>)
    requires |pattern| > 0
    ensures AtEnd(pattern, r, lengths) <==> Total(lengths) >= r.remaining
    ensures AtEnd(pattern, r, lengths) ==>
              && |ReadAll(pattern, r, lengths).0| == Yield(r, Total(lengths))
              && (r.remaining >= 0 ==> |ReadAll(pattern, r, lengths).0| == r.remaining)
              && AtEnd(pattern, r, lengths + more)
  {
    ChunkingIsInvisible(pattern, r, lengths);
    ChunkingIsInvisible(pattern, r, lengths + more);
    TotalAppend(lengths, more);
  }

  lemma {:induction false} TotalAppend(a: seq<nat>, b: seq<nat>)
    ensures Total(a + b) == Total(a) + Total(b)
    decreases |a|
  {
    if a == [] {
      assert a + b == b;
    } else {
      TotalAppend(a[1..], b);
      assert (a + b)[1..] == a[1..] + b;
    }
  }
}
