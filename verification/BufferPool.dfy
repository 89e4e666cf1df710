/**
  Pooled byte buffers in buckets by capacity, and the stream decoder that reads into them.
 */
module BufferPool {
  import opened Common
  import V = Varint

  function Pow2(k: nat): (p: nat)
    ensures p >= 1
  {
    if k == 0 then 1 else 2 * Pow2(k - 1)
  }

  /** bits.Len32: the number of bits needed for v. */
  function BitLen(v: nat): nat {
    if v == 0 then 0 else 1 + BitLen(v / 2)
  }

  lemma {:induction false} BitLenBounds(v: nat)
    ensures v < Pow2(BitLen(v))
    ensures v > 0 ==> Pow2(BitLen(v) - 1) <= v
    decreases v
  {
    if v > 0 {
      BitLenBounds(v / 2);
    }
  }

  lemma {:induction false} Pow2Monotone(a: nat, b: nat)
    requires a <= b
    ensures Pow2(a) <= Pow2(b)
    decreases b
  {
    if a < b {
      Pow2Monotone(a, b - 1);
    }
  }

  /** Log of base two, rounded up; uint32 arithmetic, so that 0 - 1 wraps. */
  function NextLogBase2(v: nat): nat
    requires v < 0x1_0000_0000
  {
    BitLen(if v == 0 then 0xFFFF_FFFF else v - 1)
  }

  /** Log of base two, rounded down. */
  function PrevLogBase2(v: nat): int
    requires v < 0x1_0000_0000
  {
    var next := NextLogBase2(v);
    if v == Pow2(next) % 0x1_0000_0000 then next else next - 1
  }

  const MaxBufferLength := 0x4_0000

  const NumPools := 19

  lemma Pow2Of18()
    ensures Pow2(18) == MaxBufferLength
  {
    assert Pow2(6) == 64 && Pow2(12) == 4096;
  }

  /** The rounded-up logarithm is the least power of two that holds v. */
  lemma NextLogIsCeiling(v: nat)
    requires 1 <= v <= MaxBufferLength
    ensures var k := NextLogBase2(v);
            v <= Pow2(k) && (k > 0 ==> Pow2(k - 1) < v) && k < NumPools
  {
    BitLenBounds(v - 1);
    var k := NextLogBase2(v);
    if k >= NumPools {
      Pow2Monotone(18, k - 1);
      Pow2Of18();
    }
  }

  /** The rounded-up logarithm is that of a bucket exactly for the lengths that are pooled. */
  lemma NextLogFitsIff(v: nat)
    requires v < 0x1_0000_0000
    ensures NextLogBase2(v) < NumPools <==> 1 <= v <= MaxBufferLength
    ensures 1 <= v <= MaxBufferLength ==> v <= Pow2(NextLogBase2(v))
  {
    if 1 <= v <= MaxBufferLength {
      NextLogIsCeiling(v);
    } else {
      var u := if v == 0 then 0xFFFF_FFFF else v - 1;
      BitLenBounds(u);
      Pow2Of18();
      if BitLen(u) <= 18 {
        Pow2Monotone(BitLen(u), 18);
      }
    }
  }

  /** The rounded-down logarithm is the greatest power of two within v. */
  lemma PrevLogIsFloor(v: nat)
    requires 1 <= v <= MaxBufferLength
    ensures var k := PrevLogBase2(v);
            0 <= k < NumPools && Pow2(k) <= v < Pow2(k + 1)
  {
    NextLogIsCeiling(v);
    var next := NextLogBase2(v);
    Pow2Monotone(next, 18);
    Pow2Of18();
    assert Pow2(next) % 0x1_0000_0000 == Pow2(next);
  }

  /** A byte buffer: how much of its capacity is in use. */
  datatype Buffer = Buffer(len: nat, cap: nat)

  ghost predicate InBucket(bb: Buffer, i: nat) {
    bb.len == 0 && Pow2(i) <= bb.cap < Pow2(i + 1)
  }

  class Pools {
    var pools: seq<seq<Buffer>>

    /** The buffers of bucket i are empty and have a capacity from 2^i up to, not including, 2^(i+1). */
    ghost predicate Valid()
      reads this
    {
      |pools| == NumPools && forall i, k :: 0 <= i < NumPools && 0 <= k < |pools[i]| ==> InBucket(pools[i][k], i)
    }

    constructor ()
      ensures Valid()
    {
      pools := seq(NumPools, _ => []);
    }

    /** A buffer for `length` bytes, None if getting it panics. sync.Pool may hand out any buffer of the
        bucket, position `pick`, or none; `limit` is the largest slice that can be made. A negative length
        counts by its last 32 bits. */
    method GetByteBuffer(length: int, pick: nat, limit: nat) returns (bb: Option<Buffer>)
      requires Valid() && MaxBufferLength <= limit
      modifies this
      ensures Valid()
      ensures bb.Some? <==> if length >= 0 then length <= limit else 1 <= length % 0x1_0000_0000 <= MaxBufferLength
      ensures bb.Some? ==> bb.value.len == 0 && bb.value.cap >= length
    {
      if length == 0 {
        return Some(Buffer(0, 0));
      }
      if length > MaxBufferLength {
        return if length > limit then None else Some(Buffer(0, length));
      }
      NextLogFitsIff(length % 0x1_0000_0000);
      hide NextLogBase2, Pow2;
      var idx := NextLogBase2(length % 0x1_0000_0000);
      if idx >= NumPools {
        return None;
      }
      var bucket := pools[idx];
      if pick < |bucket| {
        bb := Some(bucket[pick]);
        pools := pools[idx := bucket[..pick] + bucket[pick + 1..]];
        assert InBucket(bb.value, idx);
        return;
      }
      return Some(Buffer(0, Pow2(idx)));
    }

    /** Takes any buffer back, in the bucket of its capacity; drops those of no or too large a capacity. */
    method PutByteBuffer(bb: Buffer)
      requires Valid()
      modifies this
      ensures Valid()
      ensures bb.cap == 0 || bb.cap > MaxBufferLength ==> pools == old(pools)
      ensures 0 < bb.cap <= MaxBufferLength ==>
                exists i :: 0 <= i < NumPools && InBucket(bb.(len := 0), i) && pools == old(pools)[i := old(pools)[i] + [bb.(len := 0)]]
    {
      if bb.cap == 0 || bb.cap > MaxBufferLength {
        return;
      }
      PrevLogIsFloor(bb.cap);
      hide PrevLogBase2, Pow2;
      var idx := PrevLogBase2(bb.cap);
      var reset := bb.(len := 0);
      assert InBucket(reset, idx);
      pools := pools[idx := pools[idx] + [reset]];
    }
  }

  // ----- The stream decoder -----

  /** How a read fails that needed more than what is left. */
  function Ended(left: Bytes): V.Result {
    if left == [] then V.Eof else V.UnexpectedEof
  }

  /** One call of ProtobufStreamCommandDecoder.Decode on the bytes still to come: the result, the size
      it reports and the bytes left. A length that does not end within ten bytes or exceeds 64 bits
      overflows; a stream that ends before the first byte of a length or of a payload is at its end, and
      one that ends later does so unexpectedly; a length of more than `limit` bytes, the largest slice
      that can be made, ends in a panic. */
  function StreamDecode(rest: Bytes, valid: Bytes -> bool, limit: nat): (V.Result, nat, Bytes) {
    var (l, n) := V.Get(rest);
    if n <= 0 && |rest| >= 10 then (V.Overflow, 0, rest[10..])
    else if n <= 0 then (Ended(rest), 0, [])
    else if l > limit then (V.Panicked, 0, rest[n..])
    else if n + l > |rest| then (Ended(rest[n..]), 0, [])
    else if !valid(rest[n..n + l]) then (V.Invalid, 0, rest[n + l..])
    else (V.Message(rest[n..n + l], false), l + 8, rest[n + l..])
  }

  /** The stream decoder cuts a frame off the front of the stream. */
  lemma StreamDecodesFrame(p: Bytes, tail: Bytes, valid: Bytes -> bool, limit: nat)
    requires |p| < 0x100_0000_0000_0000 && |p| <= limit && valid(p)
    ensures StreamDecode(V.Frame(p) + tail, valid, limit) == (V.Message(p, false), |p| + 8, tail)
  {
    V.ReadsLength(p, tail);
    var rest, n := V.Frame(p) + tail, |V.Put(|p|)|;
    assert rest[n..n + |p|] == p && rest[n + |p|..] == tail;
  }

  /** It counts eight bytes for every length prefix: the sizes it reports add up to at least the bytes
      it has read, and are exact only for payloads whose length takes eight bytes to write. */
  lemma StreamSizes(p: Bytes)
    requires |p| < 0x100_0000_0000_0000
    ensures |V.Frame(p)| <= |p| + 8
    ensures |V.Frame(p)| == |p| + 8 <==> |p| >= 0x2_0000_0000_0000
  {
    V.PutLength(|p|, 8);
    V.PutLength(|p|, 7);
    V.Pow128Of8();
    assert V.Pow128(8) == 128 * V.Pow128(7);
  }

  /** The frame of an empty message is one byte long, and eight are reported. */
  lemma EmptyMessageSize(valid: Bytes -> bool, limit: nat)
    requires valid([])
    ensures |V.Frame([])| == 1 && StreamDecode(V.Frame([]), valid, limit) == (V.Message([], false), 8, [])
  {
    StreamDecodesFrame([], [], valid, limit);
    assert V.Frame([]) + [] == V.Frame([]);
  }

  /** A length panics exactly when it is read and is larger than any slice, whatever follows it. */
  lemma StreamPanicsIff(v: nat, tail: Bytes, valid: Bytes -> bool, limit: nat)
    ensures StreamDecode(V.Put(v) + tail, valid, limit).0 == V.Panicked <==> limit < v < 0x1_0000_0000_0000_0000
  {
    V.ReadsVarintIff(v, tail);
    hide V.Get, V.Put;
  }

  class StreamDecoder {
    const pools: Pools
    const valid: Bytes -> bool
    var rest: Bytes

    constructor (pools: Pools, rest: Bytes, valid: Bytes -> bool)
      ensures this.pools == pools && this.rest == rest && this.valid == valid
    {
      this.pools, this.rest, this.valid := pools, rest, valid;
    }

    /** Reads one message through a pooled buffer, which is large enough for it, and gives the buffer
        back, also when slicing it panics. */
    method Decode(pick: nat, limit: nat) returns (r: V.Result, size: nat)
      requires pools.Valid() && MaxBufferLength <= limit < 0x8000_0000_0000_0000
      modifies this, pools
      ensures pools.Valid()
      ensures (r, size, rest) == StreamDecode(old(rest), valid, limit)
    {
      hide V.Get, V.Int64;
      var (l, n) := V.Get(rest);
      if n <= 0 {
        if |rest| >= 10 {
          r, rest := V.Overflow, rest[10..];
        } else {
          r, rest := Ended(rest), [];
        }
        return r, 0;
      }
      LengthBelow(rest);
      V.Int64Of(l);
      var bb := pools.GetByteBuffer(V.Int64(l), pick, limit);
      if bb.None? || V.Int64(l) < 0 {
        if bb.Some? {
          pools.PutByteBuffer(bb.value);
        }
        rest := rest[n..];
        return V.Panicked, 0;
      }
      assert l <= bb.value.cap;
      if n + l > |rest| {
        r, size, rest := Ended(rest[n..]), 0, [];
      } else {
        var payload := rest[n..n + l];
        rest := rest[n + l..];
        if valid(payload) {
          r, size := V.Message(payload, false), l + 8;
        } else {
          r, size := V.Invalid, 0;
        }
      }
      pools.PutByteBuffer(bb.value);
    }
  }

  lemma LengthBelow(buf: Bytes)
    ensures V.Get(buf).0 < 0x1_0000_0000_0000_0000
  {
    V.GetBelow(buf, 0, 0, 1);
    V.Pow128Of8();
  }
}
