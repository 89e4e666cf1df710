/**
  Length-prefixed frames of the Protobuf wire format: base-128 varints (section "Base 128 Varints" of
  the Protocol Buffers encoding guide), the encoder that writes frames and the decoders that cut them.
 */
module Varint {
  import opened Common

  /** 128 to the power k. */
  function Pow128(k: nat): (p: nat)
    ensures p >= 1
  {
    if k == 0 then 1 else 128 * Pow128(k - 1)
  }

  // ----- Writing varints -----

  function Put(x: nat): (r: Bytes)
    ensures |r| >= 1
  {
    if x < 128 then [x] else [x % 128 + 128] + Put(x / 128)
  }

  /** A varint takes at most k bytes exactly when its value is below 128 to the power k. */
  lemma {:induction false} PutLength(x: nat, k: nat)
    requires k >= 1
    ensures |Put(x)| <= k <==> x < Pow128(k)
    decreases k
  {
    if x >= 128 && k > 1 {
      PutLength(x / 128, k - 1);
      DivBelow(x, Pow128(k - 1));
    }
  }

  lemma DivBelow(x: nat, p: nat)
    ensures x / 128 < p <==> x < 128 * p
  {
  }

  lemma Pow128Of8()
    ensures Pow128(8) == 0x100_0000_0000_0000 && Pow128(9) == 0x8000_0000_0000_0000
  {
  }

  /** binary.PutUvarint; it panics when the buffer is too short. */
  method PutUvarint(buf: array<Byte>, x0: nat) returns (ok: bool, n: nat)
    modifies buf
    ensures ok <==> |Put(x0)| <= buf.Length
    ensures ok ==> n == |Put(x0)| && buf[..n] == Put(x0)
  {
    var x, i := x0, 0;
    while x >= 0x80
      invariant 0 <= i <= buf.Length
      invariant buf[..i] + Put(x) == Put(x0)
      decreases x
    {
      if i == buf.Length {
        return false, 0;
      }
      buf[i] := x % 128 + 128;
      assert buf[..i + 1] + Put(x / 128) == buf[..i] + Put(x);
      x := x / 128;
      i := i + 1;
    }
    if i == buf.Length {
      return false, 0;
    }
    buf[i] := x;
    assert buf[..i + 1] == buf[..i] + [x];
    return true, i + 1;
  }

  // ----- Reading varints -----

  const MaxVarintLen64 := 10

  /** binary.Uvarint from position i on: x is the value so far, m the weight of the next seven bits.
      The second component is the number of bytes read, 0 when the buffer ends too early and negative
      when the value overflows 64 bits. */
  function GetFrom(buf: Bytes, i: nat, x: nat, m: nat): (r: (nat, int))
    requires i <= |buf|
    ensures r.1 <= |buf|
    decreases |buf| - i
  {
    if i == |buf| then (0, 0)
    else if i == MaxVarintLen64 then (0, -(i + 1))
    else if buf[i] < 0x80 then
      if i == MaxVarintLen64 - 1 && buf[i] > 1 then (0, -(i + 1)) else (x + buf[i] * m, i + 1)
    else GetFrom(buf, i + 1, x + (buf[i] - 128) * m, m * 128)
  }

  function Get(buf: Bytes): (r: (nat, int))
    ensures r.1 <= |buf|
  {
    GetFrom(buf, 0, 0, 1)
  }

  lemma Weights(x: nat, v: nat, m: nat)
    ensures x + v % 128 * m + v / 128 * (m * 128) == x + v * m
  {
  }

  /** From position i on, with i bytes read, a varint is read back if its value still fits into 64 bits,
      and reported as an overflow otherwise. */
  lemma {:induction false} GetsPut(buf: Bytes, i: nat, x: nat, m: nat, v: nat)
    requires i <= 9 && i <= |buf| && Put(v) <= buf[i..]
    ensures if v < 2 * Pow128(9 - i) then GetFrom(buf, i, x, m) == (x + v * m, i + |Put(v)|) else GetFrom(buf, i, x, m).1 < 0
    decreases v
  {
    assert buf[i] == Put(v)[0];
    if v >= 128 {
      assert Put(v)[1..] == Put(v / 128);
      assert buf[i..][1..] == buf[i + 1..];
      if i < 9 {
        GetsPut(buf, i + 1, x + v % 128 * m, m * 128, v / 128);
        Weights(x, v, m);
        DivBelow(v, 2 * Pow128(8 - i));
      } else {
        assert |buf| > 10;
      }
    } else if i < 9 {
      assert Pow128(9 - i) == 128 * Pow128(8 - i);
    }
  }

  /** A varint is read back if and only if its value is below 2^64. */
  lemma ReadsVarintIff(v: nat, tail: Bytes)
    ensures var r := Get(Put(v) + tail);
            if v < 0x1_0000_0000_0000_0000 then r == (v, |Put(v)|) else r.1 < 0
  {
    hide Put;
    Pow128Of8();
    var buf := Put(v) + tail;
    assert Put(v) <= buf[0..];
    GetsPut(buf, 0, 0, 1, v);
  }

  // ----- Frames -----

  function Frame(p: Bytes): Bytes {
    Put(|p|) + p
  }

  function Frames(ps: seq<Bytes>): Bytes {
    if ps == [] then [] else Frame(ps[0]) + Frames(ps[1..])
  }

  /** Where frame k starts. */
  function Offset(ps: seq<Bytes>, k: nat): nat
    requires k <= |ps|
  {
    |Frames(ps[..k])|
  }

  lemma {:induction false} FramesConcat(a: seq<Bytes>, b: seq<Bytes>)
    ensures Frames(a + b) == Frames(a) + Frames(b)
    decreases |a|
  {
    if a == [] {
      assert a + b == b;
    } else {
      assert (a + b)[1..] == a[1..] + b;
      FramesConcat(a[1..], b);
    }
  }

  lemma FramesAt(ps: seq<Bytes>, k: nat)
    requires k < |ps|
    ensures Offset(ps, k) <= |Frames(ps)|
    ensures Frames(ps)[Offset(ps, k)..] == Frame(ps[k]) + Frames(ps[k + 1..])
    ensures Offset(ps, k + 1) == Offset(ps, k) + |Frame(ps[k])|
    ensures Offset(ps, k + 1) == |Frames(ps)| <==> k + 1 == |ps|
  {
    assert ps == ps[..k] + ps[k..];
    FramesConcat(ps[..k], ps[k..]);
    assert ps[k..][1..] == ps[k + 1..];
    assert ps[..k + 1] == ps[..k] + [ps[k]];
    FramesConcat(ps[..k], [ps[k]]);
    assert Frames([ps[k]]) == Frame(ps[k]) + Frames([]);
    assert ps[k + 1..] != [] ==> |Frames(ps[k + 1..])| >= 1;
    assert ps[k + 1..] == [] <==> k + 1 == |ps|;
  }

  class DataEncoder {
    var buffer: Bytes

    constructor ()
      ensures buffer == []
    {
      buffer := [];
    }

    /** Appends one frame. The length goes through a buffer of eight bytes, so it panics exactly on
        payloads of 2^56 bytes or more. */
    method Encode(data: Bytes) returns (ok: bool)
      modifies this
      ensures ok <==> |data| < 0x100_0000_0000_0000
      ensures buffer == if ok then old(buffer) + Frame(data) else old(buffer)
    {
      PutLength(|data|, 8);
      Pow128Of8();
      var bs := new Byte[8](_ => 0);
      var n;
      ok, n := PutUvarint(bs, |data|);
      if !ok {
        return;
      }
      buffer := buffer + bs[..n];
      buffer := buffer + data;
    }
  }

  // ----- Decoding -----

  /** What Decode returns: the bytes of one message, with io.EOF when it is the last one; an error;
      or a panic on a slice out of range. */
  datatype Result = Message(payload: Bytes, eof: bool) | Eof | UnexpectedEof | Overflow | ShortBuffer | Invalid | Panicked

  /** A 64-bit integer computed as z. */
  function Int64(z: int): int {
    (z + 0x8000_0000_0000_0000) % 0x1_0000_0000_0000_0000 - 0x8000_0000_0000_0000
  }

  /** One call of ProtobufCommandDecoder.Decode; `valid` tells which payloads unmarshal. */
  function DecodeCommand(data: Bytes, offset: nat, valid: Bytes -> bool): (Result, nat) {
    if offset >= |data| then (Eof, offset)
    else
      var (l, n) := Get(data[offset..]);
      if n <= 0 then (Eof, offset)
      else
        var from, to := offset + n, Int64(offset + n + Int64(l));
        if !(0 < to <= |data|) then (ShortBuffer, offset)
        else if from > to then (Panicked, offset)
        else if !valid(data[from..to]) then (Invalid, offset)
        else (Message(data[from..to], to == |data|), to)
  }

  /** One call of ProtobufReplyDecoder.Decode, which checks nothing before it slices. */
  function DecodeReply(data: Bytes, offset: nat, valid: Bytes -> bool): (Result, nat) {
    if offset >= |data| then (Eof, offset)
    else
      var (l, n) := Get(data[offset..]);
      var from, to := offset + n, Int64(offset + n + Int64(l));
      if !(0 <= from <= to <= |data|) then (Panicked, offset)
      else if !valid(data[from..to]) then (Invalid, offset)
      else (Message(data[from..to], false), to)
  }

  /** Payloads that can be framed, in a buffer whose length is an int. */
  ghost predicate Sendable(ps: seq<Bytes>, valid: Bytes -> bool) {
    && (forall i :: 0 <= i < |ps| ==> |ps[i]| < 0x100_0000_0000_0000 && valid(ps[i]))
    && |Frames(ps)| < 0x8000_0000_0000_0000
  }

  /** A frame starts with the length of its payload. */
  lemma ReadsLength(p: Bytes, tail: Bytes)
    requires |p| < 0x100_0000_0000_0000
    ensures Get(Frame(p) + tail) == (|p|, |Put(|p|)|)
  {
    var rest, pre := Frame(p) + tail, Put(|p|);
    PutLength(|p|, 8);
    Pow128Of8();
    hide Put, Pow128, GetFrom;
    assert rest == pre + (p + tail);
    assert rest[0..] == rest && pre <= rest;
    GetsPut(rest, 0, 0, 1, |p|);
  }

  /** At the start of frame k both decoders read the length of payload k and find its bytes. */
  lemma ReadsFrame(ps: seq<Bytes>, k: nat, valid: Bytes -> bool)
    requires Sendable(ps, valid) && k < |ps|
    ensures var data, o, n, l := Frames(ps), Offset(ps, k), |Put(|ps[k]|)|, |ps[k]|;
            && o < |data|
            && Get(data[o..]) == (l, n)
            && Offset(ps, k + 1) == o + n + l <= |data|
            && data[o + n..o + n + l] == ps[k]
  {
    hide Get, Put, Frames;
    FramesAt(ps, k);
    ReadsLength(ps[k], Frames(ps[k + 1..]));
    SliceAt(Frames(ps), Offset(ps, k), Put(|ps[k]|), ps[k], Frames(ps[k + 1..]));
  }

  lemma SliceAt(data: Bytes, o: nat, pre: Bytes, p: Bytes, tail: Bytes)
    requires o <= |data| && data[o..] == pre + p + tail
    ensures o + |pre| + |p| <= |data| && data[o + |pre|..o + |pre| + |p|] == p
  {
  }

  lemma Int64Small(z: int)
    requires 0 <= z < 0x8000_0000_0000_0000
    ensures Int64(z) == z
  {
  }

  /** Both decoders, where a length l that fits the buffer is read from n bytes. */
  lemma CutsMessage(data: Bytes, o: nat, l: nat, n: nat, valid: Bytes -> bool)
    requires o < |data| < 0x8000_0000_0000_0000 && Get(data[o..]) == (l, n) && n > 0
    requires o + n + l <= |data| && valid(data[o + n..o + n + l])
    ensures var p := data[o + n..o + n + l];
            && DecodeCommand(data, o, valid) == (Message(p, o + n + l == |data|), o + n + l)
            && DecodeReply(data, o, valid) == (Message(p, false), o + n + l)
  {
    Int64Small(l);
    Int64Small(o + n + l);
    hide Int64, Get;
  }

  /** The round trip, one call at a time: from the start of frame k the decoders deliver payload k and
      stop at the start of the next frame; the command decoder reports EOF with the last one. */
  lemma DecodesFrame(ps: seq<Bytes>, k: nat, valid: Bytes -> bool)
    requires Sendable(ps, valid) && k < |ps|
    ensures DecodeCommand(Frames(ps), Offset(ps, k), valid) == (Message(ps[k], k + 1 == |ps|), Offset(ps, k + 1))
    ensures DecodeReply(Frames(ps), Offset(ps, k), valid) == (Message(ps[k], false), Offset(ps, k + 1))
  {
    hide Get, Put, Frames, Frame, Offset, DecodeCommand, DecodeReply;
    FramesAt(ps, k);
    ReadsFrame(ps, k, valid);
    var data, o, n, l := Frames(ps), Offset(ps, k), |Put(|ps[k]|)|, |ps[k]|;
    assert valid(data[o + n..o + n + l]);
    CutsMessage(data, o, l, n, valid);
  }

  lemma DigitBelow(x: nat, b: nat, m: nat, d: nat)
    requires x < m && b < d
    ensures x + b * m < d * m
  {
    assert (b + 1) * m <= d * m;
  }

  /** What is read as a length fits into 64 bits. */
  lemma {:induction false} GetBelow(buf: Bytes, i: nat, x: nat, m: nat)
    requires i <= |buf| && i <= 10 && m == Pow128(i) && x < m
    ensures var r := GetFrom(buf, i, x, m); (r.1 > 0 ==> r.0 < 2 * Pow128(9)) && (r.1 <= 0 ==> r.0 == 0)
    decreases |buf| - i
  {
    hide Pow128;
    if i < |buf| && i < 10 {
      if buf[i] >= 0x80 {
        DigitBelow(x, buf[i] - 128, m, 128);
        NextPower(i);
        GetBelow(buf, i + 1, x + (buf[i] - 128) * m, m * 128);
      } else if i < 9 {
        DigitBelow(x, buf[i], m, 128);
        NextPower(i);
        Pow128Grows(i + 1, 9);
      } else if buf[i] <= 1 {
        DigitBelow(x, buf[i], m, 2);
      }
    }
  }

  lemma NextPower(i: nat)
    ensures Pow128(i + 1) == 128 * Pow128(i) == Pow128(i) * 128
  {
  }

  lemma {:induction false} Pow128Grows(a: nat, b: nat)
    requires a <= b
    ensures Pow128(a) <= Pow128(b)
    decreases b
  {
    if a < b { Pow128Grows(a, b - 1); }
  }

  lemma Int64Of(l: nat)
    requires l < 0x1_0000_0000_0000_0000
    ensures Int64(l) == if l < 0x8000_0000_0000_0000 then l else l - 0x1_0000_0000_0000_0000
  {
    if l < 0x8000_0000_0000_0000 { Int64Small(l); }
  }

  /** The length and the end of the frame at an offset. */
  lemma Bounds(data: Bytes, offset: nat)
    requires offset < |data| < 0x8000_0000_0000_0000
    ensures var (l, n) := Get(data[offset..]);
            && offset + n <= |data| && l < 0x1_0000_0000_0000_0000 && (n <= 0 ==> l == 0) && n >= -11
            && (n > 0 && l >= 0x8000_0000_0000_0000 ==>
                  Int64(l) == l - 0x1_0000_0000_0000_0000 && Int64(offset + n + Int64(l)) == offset + n + Int64(l))
            && (n > 0 && l < 0x8000_0000_0000_0000 ==>
                  Int64(l) == l && (0 <= Int64(offset + n + l) <= |data| <==> offset + n + l <= |data|) &&
                  (offset + n + l <= |data| ==> Int64(offset + n + l) == offset + n + l))
  {
    var (l, n) := Get(data[offset..]);
    GetBelow(data[offset..], 0, 0, 1);
    GetLowest(data[offset..], 0, 0, 1);
    Pow128Of8();
    hide Get;
    Int64Of(l);
    if n > 0 && l < 0x8000_0000_0000_0000 {
      Int64Of(offset + n + l);
    }
  }

  lemma {:induction false} GetLowest(buf: Bytes, i: nat, x: nat, m: nat)
    requires i <= |buf| && i <= 10
    ensures GetFrom(buf, i, x, m).1 >= -11
    decreases |buf| - i
  {
    if i < |buf| && i < 10 && buf[i] >= 0x80 {
      GetLowest(buf, i + 1, x + (buf[i] - 128) * m, m * 128);
    }
  }

  /** The command decoder panics exactly on a length that is negative as an int and leads back behind the
      start of the buffer, but before the frame. */
  lemma CommandPanicsIff(data: Bytes, offset: nat, valid: Bytes -> bool)
    requires offset < |data| < 0x8000_0000_0000_0000
    ensures var (l, n) := Get(data[offset..]);
            DecodeCommand(data, offset, valid).0 == Panicked <==>
              n > 0 && l >= 0x8000_0000_0000_0000 && offset + n + l > 0x1_0000_0000_0000_0000
  {
    Bounds(data, offset);
    hide Int64, Get;
  }

  /** The reply decoder panics exactly when the frame ends outside of the buffer, when its length is negative
      as an int, or when an overflow is reported before the buffer has that many bytes. */
  lemma ReplyPanicsIff(data: Bytes, offset: nat, valid: Bytes -> bool)
    requires offset < |data| < 0x8000_0000_0000_0000
    ensures var (l, n) := Get(data[offset..]);
            DecodeReply(data, offset, valid).0 == Panicked <==>
              if n > 0 then offset + n + l > |data| else offset + n < 0
  {
    var (l, n) := Get(data[offset..]);
    Bounds(data, offset);
    if n <= 0 { Int64Of(0); Int64Shifted(offset + n); }
    hide Int64, Get;
  }

  lemma Int64Shifted(z: int)
    requires -11 <= z < 0x8000_0000_0000_0000
    ensures Int64(z) == z
  {
  }

  /** Nine bytes 0xFF and a byte 0x01: a length of 2^64 - 1, and a slice from 10 to 9. */
  lemma LengthOfAllOnes(valid: Bytes -> bool)
    ensures var data := Put(0xFFFF_FFFF_FFFF_FFFF);
            |data| == 10 && DecodeCommand(data, 0, valid) == (Panicked, 0)
  {
    var v: nat := 0xFFFF_FFFF_FFFF_FFFF;
    Pow128Of8();
    assert Pow128(10) == 128 * Pow128(9);
    PutLength(v, 9);
    PutLength(v, 10);
    ReadsVarintIff(v, []);
    hide Put, Get;
    assert Put(v) + [] == Put(v) && Put(v)[0..] == Put(v);
    CommandPanicsIff(Put(v), 0, valid);
  }

  class CommandDecoder {
    var data: Bytes
    var offset: nat
    const valid: Bytes -> bool

    constructor (data: Bytes, valid: Bytes -> bool)
      ensures this.data == data && offset == 0 && this.valid == valid
    {
      this.data, offset, this.valid := data, 0, valid;
    }

    method Decode() returns (r: Result)
      modifies this`offset
      ensures (r, offset) == DecodeCommand(data, old(offset), valid)
    {
      if offset < |data| {
        var (l, n) := Get(data[offset..]);
        if n <= 0 {
          return Eof;
        }
        var from := offset + n;
        var to := Int64(offset + n + Int64(l));
        if to > 0 && to <= |data| {
          if from > to {
            return Panicked;
          }
          var payload := data[from..to];
          if !valid(payload) {
            return Invalid;
          }
          offset := to;
          return Message(payload, offset == |data|);
        }
        return ShortBuffer;
      }
      return Eof;
    }
  }

  /** Decoding until EOF gives back the payloads that were encoded, all of them and in order. */
  method DecodeAll(ghost ps: seq<Bytes>, data: Bytes, valid: Bytes -> bool) returns (out: seq<Bytes>)
    requires Sendable(ps, valid) && data == Frames(ps)
    ensures out == ps
  {
    hide Frames, DecodeCommand;
    var d := new CommandDecoder(data, valid);
    out := [];
    ghost var k := 0;
    StartsAtZero(ps, valid);
    var done := false;
    while !done
      invariant 0 <= k <= |ps| && d.data == data && d.valid == valid
      invariant d.offset == Offset(ps, k) && out == ps[..k]
      invariant done ==> k == |ps|
      invariant !done ==> k < |ps| || k == |ps| == 0
      decreases !done, |ps| - k
    {
      if k < |ps| {
        DecodesFrame(ps, k, valid);
      }
      var r := d.Decode();
      match r
      case Message(payload, eof) =>
        out := out + [payload];
        done := eof;
        k := k + 1;
      case _ =>
        done := true;
    }
  }

  lemma StartsAtZero(ps: seq<Bytes>, valid: Bytes -> bool)
    ensures Offset(ps, 0) == 0
    ensures ps == [] ==> DecodeCommand(Frames(ps), 0, valid) == (Eof, 0)
  {
  }
}
