/**
  A circular buffer of fixed size that keeps the last bytes written to it.
 */
module CircBuf {
  import opened Common

  /** The last n elements of s, all of them if there are fewer. */
  function Last(s: Bytes, n: nat): Bytes {
    if |s| <= n then s else s[|s| - n..]
  }

  /** The place k steps before position c in a ring of n places. */
  function Back(c: nat, k: nat, n: nat): int {
    if k <= c then c - k else c - k + n
  }

  /** The place k steps after it. */
  function Ahead(c: nat, k: nat, n: nat): int {
    if c + k < n then c + k else c + k - n
  }

  /** Going back from the cursor, the ring shows the history from its end. */
  ghost predicate Shows(ring: Bytes, c: nat, h: Bytes) {
    && c < |ring|
    && (|h| < |ring| ==> c == |h|) && (|h| == |ring| ==> c == 0)
    && forall k :: 1 <= k <= |h| && k <= |ring| ==> ring[Back(c, k, |ring|)] == h[|h| - k]
  }

  /** The ring after b has been laid down from position c on. */
  ghost predicate Laid(ring: Bytes, c: nat, b: Bytes, ring': Bytes) {
    && |ring'| == |ring| && c < |ring| && |b| <= |ring|
    && (forall j :: 0 <= j < |b| ==> ring'[Ahead(c, j, |ring|)] == b[j])
    && (forall j :: |b| <= j < |ring| ==> ring'[Ahead(c, j, |ring|)] == ring[Ahead(c, j, |ring|)])
  }

  /** The cursor after k more bytes. */
  function Advance(c: nat, k: nat, n: nat): (r: nat)
    requires c < n && k <= n
    ensures r == Ahead(c, k, n)
  {
    ModOf(c, k, n);
    (c + k) % n
  }

  lemma ModOf(c: nat, k: nat, n: nat)
    requires c < n && k <= n
    ensures (c + k) % n == Ahead(c, k, n)
  {
    if c + k >= n {
      ModOnce(c + k, n);
    }
  }

  lemma ModOnce(x: nat, n: nat)
    requires 0 < n <= x < 2 * n
    ensures x % n == x - n
  {
  }

  /** Laying down the last bytes of a write shows the longer history. */
  lemma WriteShows(ring: Bytes, c: nat, h: Bytes, buf: Bytes, ring': Bytes)
    requires Shows(ring, c, h) && Laid(ring, c, Last(buf, |ring|), ring')
    ensures Shows(ring', Ahead(c, |Last(buf, |ring|)|, |ring|), h + buf)
  {
    var n, b := |ring|, Last(buf, |ring|);
    var c', h' := Ahead(c, |b|, n), h + buf;
    forall k | 1 <= k <= |h'| && k <= n
      ensures ring'[Back(c', k, n)] == h'[|h'| - k]
    {
      if k <= |b| {
        assert Back(c', k, n) == Ahead(c, |b| - k, n);
        assert ring'[Ahead(c, |b| - k, n)] == b[|b| - k];
      } else {
        var j := k - |b|;
        assert Back(c', k, n) == Back(c, j, n) == Ahead(c, n - j, n);
        assert ring'[Ahead(c, n - j, n)] == ring[Ahead(c, n - j, n)];
        assert ring[Back(c, j, n)] == h[|h| - j];
      }
    }
  }

  class Buffer {
    const data: array<Byte>
    const size: nat
    var writeCursor: nat
    var written: nat
    ghost var history: Bytes

    ghost predicate Valid()
      reads this, data
    {
      data.Length == size && size >= 1 && written == |history| && Shows(data[..], writeCursor, history)
    }

    constructor (size: nat)
      requires size >= 1
      ensures Valid() && history == [] && this.size == size && fresh(data)
    {
      this.size := size;
      data := new Byte[size](_ => 0);
      writeCursor, written, history := 0, 0, [];
    }

    /** Copies b into the ring from the cursor on, in at most two pieces. */
    method CopyIn(b: Bytes)
      requires data.Length == size && writeCursor < size && |b| <= size
      modifies data
      ensures Laid(old(data[..]), writeCursor, b, data[..])
    {
      var remain := size - writeCursor;
      ghost var before := data[..];
      forall j | 0 <= j < |b| && j < remain {
        data[writeCursor + j] := b[j];
      }
      if |b| > remain {
        forall j | 0 <= j < |b| - remain {
          data[j] := b[remain + j];
        }
      }
      forall j | 0 <= j < |b|
        ensures data[..][Ahead(writeCursor, j, size)] == b[j]
      {
      }
    }

    method Write(buf: Bytes) returns (n: nat)
      requires Valid()
      modifies this`writeCursor, this`written, this`history, data
      ensures Valid() && history == old(history) + buf && n == |buf|
    {
      assert writeCursor < size;
      n := |buf|;
      written := written + n;
      var b := if n > size then buf[n - size..] else buf;
      assert b == Last(buf, size);
      hide Shows, Laid, Last, Ahead, Advance;
      CopyIn(b);
      ghost var ring, c := old(data[..]), writeCursor;
      assert |ring| == size;
      WriteShows(ring, c, history, buf, data[..]);
      writeCursor := Advance(writeCursor, |b|, size);
      history := history + buf;
      assert Shows(data[..], writeCursor, history);
    }

    /** The last bytes written since the last Reset, as many as the buffer keeps. */
    method Bytes() returns (out: seq<Byte>)
      requires Valid()
      ensures out == Last(history, size)
    {
      ghost var h, c := history, writeCursor;
      if written >= size && writeCursor == 0 {
        out := data[..];
        assert forall k :: 1 <= k <= size ==> Back(c, k, size) == size - k;
      } else if written > size {
        out := data[writeCursor..] + data[..writeCursor];
        assert forall k :: 1 <= k <= size ==> out[size - k] == data[..][Back(c, k, size)];
      } else {
        out := data[..writeCursor];
        assert forall k :: 1 <= k <= |h| ==> Back(c, k, size) == |h| - k;
      }
      assert |out| == |Last(h, size)|;
      forall i | 0 <= i < |out|
        ensures out[i] == Last(h, size)[i]
      {
        var k := |out| - i;
        assert data[..][Back(c, k, size)] == h[|h| - k];
      }
    }

    method Reset()
      requires Valid()
      modifies this`writeCursor, this`written, this`history
      ensures Valid() && history == []
    {
      writeCursor, written, history := 0, 0, [];
    }
  }
}
