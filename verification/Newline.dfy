/**
  Newline-separated JSON messages: the encoder that joins them, the buffered decoder that counts lines
  first and cuts messages with a cursor, and the stream decoder that reads up to the next newline.
 */
module Newline {
  import opened Common

  const NL: Byte := 10

  /** bytes.Index: the position of the first newline, or -1. */
  function Index(s: Bytes): (i: int)
    ensures -1 <= i < |s|
    ensures i >= 0 ==> s[i] == NL
    ensures forall k :: 0 <= k < |s| && (i < 0 || k < i) ==> s[k] != NL
  {
    if s == [] then -1
    else if s[0] == NL then 0
    else if Index(s[1..]) < 0 then -1
    else 1 + Index(s[1..])
  }

  /** bytes.Count. */
  function Count(s: Bytes): nat {
    if s == [] then 0 else (if s[0] == NL then 1 else 0) + Count(s[1..])
  }

  lemma {:induction false} CountConcat(a: Bytes, b: Bytes)
    ensures Count(a + b) == Count(a) + Count(b)
    decreases |a|
  {
    if a == [] {
      assert a + b == b;
    } else {
      assert (a + b)[1..] == a[1..] + b;
      CountConcat(a[1..], b);
    }
  }

  lemma {:induction false} CountNone(s: Bytes)
    requires NL !in s
    ensures Count(s) == 0
    decreases |s|
  {
    if s != [] {
      CountNone(s[1..]);
    }
  }

  lemma IndexIs(s: Bytes, i: nat)
    requires i < |s| && s[i] == NL && NL !in s[..i]
    ensures Index(s) == i
  {
  }

  // ----- What a frame contains -----

  /** The messages of a frame: its lines, where a newline at the very end belongs to the last message. */
  function Messages(data: Bytes): seq<Bytes> {
    if data == [] then []
    else
      var i := Index(data);
      if i < 0 || i == |data| - 1 then [data] else [data[..i]] + Messages(data[i + 1..])
  }

  /** The definition at a frame that is not empty, and that it then has a message. */
  lemma MessagesStep(data: Bytes)
    requires data != []
    ensures var i := Index(data);
            && Messages(data) == (if i < 0 || i == |data| - 1 then [data] else [data[..i]] + Messages(data[i + 1..]))
            && |Messages(data)| >= 1
            && (0 <= i < |data| - 1 ==> |Messages(data[i + 1..])| >= 1)
  {
    hide Index;
    var i := Index(data);
    if 0 <= i < |data| - 1 {
      assert data[i + 1..] != [];
    }
  }

  function EndsInNewline(data: Bytes): bool {
    data != [] && data[|data| - 1] == NL
  }

  /** The number of messages as the decoder counts them. */
  function MessageCount(data: Bytes): int {
    Count(data) + 1 - (if data == [] || EndsInNewline(data) then 1 else 0)
  }

  lemma {:induction false} CountsMessages(data: Bytes)
    ensures |Messages(data)| == MessageCount(data)
    decreases |data|
  {
    if data != [] {
      var i := Index(data);
      if i < 0 {
        CountNone(data);
      } else {
        var rest := data[i + 1..];
        assert data == data[..i] + ([NL] + rest);
        CountConcat(data[..i], [NL] + rest);
        CountConcat([NL], rest);
        CountNone(data[..i]);
        assert Count([NL]) == 1 by { assert Count([NL][1..]) == 0; }
        if rest != [] {
          CountsMessages(rest);
          assert EndsInNewline(rest) <==> EndsInNewline(data);
        }
      }
    }
  }

  // ----- Joining -----

  function Join(ms: seq<Bytes>): Bytes {
    if ms == [] then []
    else if |ms| == 1 then ms[0]
    else ms[0] + [NL] + Join(ms[1..])
  }

  ghost predicate SingleLines(ms: seq<Bytes>) {
    forall i :: 0 <= i < |ms| ==> NL !in ms[i]
  }

  predicate LastNonEmpty(ms: seq<Bytes>) {
    ms == [] || ms[|ms| - 1] != []
  }

  lemma {:induction false} JoinSnoc(ms: seq<Bytes>, m: Bytes)
    ensures Join(ms + [m]) == if ms == [] then m else Join(ms) + [NL] + m
    decreases |ms|
  {
    if ms == [] {
      assert ms + [m] == [m];
    } else {
      assert (ms + [m])[1..] == ms[1..] + [m];
      JoinSnoc(ms[1..], m);
    }
  }

  lemma JoinStep(ms: seq<Bytes>)
    requires SingleLines(ms) && |ms| >= 2
    ensures Index(Join(ms)) == |ms[0]| && Join(ms)[..|ms[0]|] == ms[0] && Join(ms)[|ms[0]| + 1..] == Join(ms[1..])
  {
    var data, i := Join(ms), |ms[0]|;
    assert data == ms[0] + ([NL] + Join(ms[1..]));
    assert data[..i] == ms[0] && data[i] == NL && data[i + 1..] == Join(ms[1..]);
    IndexIs(data, i);
  }

  lemma {:induction false} JoinNonEmpty(ms: seq<Bytes>)
    requires ms != [] && LastNonEmpty(ms)
    ensures Join(ms) != [] && (SingleLines(ms) ==> !EndsInNewline(Join(ms)))
    decreases |ms|
  {
    if |ms| >= 2 {
      JoinNonEmpty(ms[1..]);
      assert Join(ms)[|Join(ms)| - 1] == Join(ms[1..])[|Join(ms[1..])| - 1];
    }
  }

  lemma {:induction false} CountJoin(ms: seq<Bytes>)
    requires SingleLines(ms) && ms != []
    ensures Count(Join(ms)) == |ms| - 1
    decreases |ms|
  {
    CountNone(ms[0]);
    if |ms| >= 2 {
      CountJoin(ms[1..]);
      CountConcat(ms[0], [NL]);
      CountConcat(ms[0] + [NL], Join(ms[1..]));
      assert Count([NL]) == 1 by { assert Count([NL][1..]) == 0; }
    }
  }

  lemma JoinSmall(ms: seq<Bytes>)
    ensures ms == [] ==> Messages(Join(ms)) == ms
    ensures |ms| == 1 ==> Join(ms) == ms[0]
  {
  }

  lemma {:induction false} MessagesOfJoin(ms: seq<Bytes>)
    requires SingleLines(ms) && LastNonEmpty(ms)
    ensures Messages(Join(ms)) == ms
    decreases |ms|
  {
    JoinSmall(ms);
    hide Index, Messages, Join;
    if |ms| == 1 {
      MessagesStep(ms[0]);
    } else if |ms| >= 2 {
      JoinStep(ms);
      MessagesOfJoin(ms[1..]);
      JoinNonEmpty(ms[1..]);
      MessagesStep(Join(ms));
      assert [ms[0]] + ms[1..] == ms;
    }
  }

  /** An empty last message is not counted. */
  lemma LastEmptyCount(ms: seq<Bytes>)
    requires SingleLines(ms) && !LastNonEmpty(ms)
    ensures |Messages(Join(ms))| == |ms| - 1
  {
    var n := |ms| - 1;
    CountJoin(ms);
    CountsMessages(Join(ms));
    assert ms == ms[..n] + [ms[n]];
    JoinSnoc(ms[..n], ms[n]);
    hide Join, Count, Messages;
    assert Join(ms) == [] || EndsInNewline(Join(ms));
  }

  /** The round trip holds exactly when the last message is not empty: a frame cannot end in an empty
      message, because its final newline is taken as part of the message before. */
  lemma RoundTripIff(ms: seq<Bytes>)
    requires SingleLines(ms)
    ensures Messages(Join(ms)) == ms <==> LastNonEmpty(ms)
  {
    hide Messages, Join;
    if LastNonEmpty(ms) {
      MessagesOfJoin(ms);
    } else {
      LastEmptyCount(ms);
    }
  }

  /** Two messages, the last one empty, are cut as one. */
  lemma EmptyLastIsLost()
    ensures Messages(Join([[65], []])) == [[65, NL]]
  {
    var ms: seq<Bytes> := [[65], []];
    assert ms[1..] == [[]] && Join(ms[1..]) == [];
    assert Join(ms) == [65, NL];
    assert [65, NL][1] == NL && NL !in [65, NL][..1];
    IndexIs([65, NL], 1);
    MessagesStep([65, NL]);
  }

  class DataEncoder {
    var count: nat
    var buffer: Bytes
    ghost var messages: seq<Bytes>

    ghost predicate Valid()
      reads this
    {
      count == |messages| && buffer == Join(messages)
    }

    constructor ()
      ensures Valid() && messages == []
    {
      count, buffer, messages := 0, [], [];
    }

    method Encode(data: Bytes)
      requires Valid()
      modifies this
      ensures Valid() && messages == old(messages) + [data]
    {
      JoinSnoc(messages, data);
      if count > 0 {
        buffer := buffer + [NL];
      }
      buffer := buffer + data;
      count := count + 1;
      messages := messages + [data];
    }

    method Finish() returns (data: Bytes)
      requires Valid()
      ensures data == Join(messages)
    {
      return buffer;
    }
  }

  // ----- The buffered decoder -----

  datatype Result = Message(payload: Bytes, eof: bool) | Eof | UnexpectedEof | ShortBuffer | Invalid

  class CommandDecoder {
    var data: Bytes
    var messageCount: int
    var prevNewLine: nat
    var numMessagesRead: nat
    const valid: Bytes -> bool

    /** The cursor stands where the messages not yet read begin. */
    ghost predicate Valid()
      reads this
    {
      && messageCount == |Messages(data)| && numMessagesRead <= messageCount
      && (messageCount <= 1 ==> prevNewLine == 0 && numMessagesRead == 0)
      && (messageCount > 1 && numMessagesRead < messageCount ==>
            && prevNewLine < |data|
            && Messages(data[prevNewLine..]) == Messages(data)[numMessagesRead..])
      && (messageCount > 1 && numMessagesRead == messageCount ==> prevNewLine > |data|)
    }

    constructor (data: Bytes, valid: Bytes -> bool)
      ensures Valid() && this.data == data && numMessagesRead == 0 && this.valid == valid
    {
      this.data, this.valid := data, valid;
      var n := Count(data) + 1;
      if |data| == 0 || data[|data| - 1] == NL {
        n := n - 1;
      }
      messageCount, prevNewLine, numMessagesRead := n, 0, 0;
      CountsMessages(data);
      assert data[0..] == data;
    }

    /** Call k delivers message k, the last one with EOF. A frame of one message delivers it on every
        call. ErrShortBuffer is what a call after the last message gets, and no other. */
    method Decode() returns (r: Result)
      requires Valid()
      modifies this`prevNewLine, this`numMessagesRead
      ensures Valid()
      ensures var ms, k := Messages(data), old(numMessagesRead);
              if ms == [] then r == UnexpectedEof && numMessagesRead == k
              else if k == |ms| then r == ShortBuffer && numMessagesRead == k
              else if !valid(ms[k]) then r == Invalid && numMessagesRead == k
              else r == Message(ms[k], k + 1 == |ms|) && numMessagesRead == if |ms| == 1 then k else k + 1
    {
      hide Messages, Index;
      if messageCount == 0 {
        return UnexpectedEof;
      }
      if messageCount == 1 {
        OneMessage(data);
        if !valid(data) {
          return Invalid;
        }
        return Message(data, true);
      }
      if numMessagesRead < messageCount {
        Cursor(data, prevNewLine, numMessagesRead);
      }
      var nextNewLine: int;
      if numMessagesRead == messageCount - 1 {
        nextNewLine := |data[prevNewLine..]|;
      } else if |data| > prevNewLine {
        nextNewLine := Index(data[prevNewLine..]);
        if nextNewLine < 0 {
          return ShortBuffer;
        }
      } else {
        return ShortBuffer;
      }
      if |data| >= prevNewLine + nextNewLine {
        var m := data[prevNewLine..prevNewLine + nextNewLine];
        assert data[prevNewLine..|data|] == data[prevNewLine..];
        if !valid(m) {
          return Invalid;
        }
        numMessagesRead := numMessagesRead + 1;
        prevNewLine := prevNewLine + nextNewLine + 1;
        if numMessagesRead == messageCount {
          return Message(m, true);
        }
        return Message(m, false);
      } else {
        return ShortBuffer;
      }
    }
  }

  lemma OneMessage(data: Bytes)
    requires |Messages(data)| == 1
    ensures Messages(data) == [data]
  {
  }

  /** Where the messages from the k-th on begin at `prev`: the next one ends at the next newline, or with
      the data if it is the last. */
  lemma Cursor(data: Bytes, prev: nat, k: nat)
    requires prev < |data| && k < |Messages(data)| && Messages(data[prev..]) == Messages(data)[k..]
    ensures k + 1 == |Messages(data)| ==> data[prev..] == Messages(data)[k]
    ensures k + 1 < |Messages(data)| ==>
              var i := Index(data[prev..]);
              && i >= 0 && prev + i + 1 < |data|
              && data[prev..prev + i] == Messages(data)[k]
              && Messages(data[prev + i + 1..]) == Messages(data)[k + 1..]
  {
    hide Messages, Index;
    var rest, ms := data[prev..], Messages(data);
    MessagesStep(rest);
    TailsOf(ms, k);
    var i := Index(rest);
    if 0 <= i < |rest| - 1 {
      SliceTwice(data, prev, i);
    }
  }

  lemma TailsOf(ms: seq<Bytes>, k: nat)
    requires k < |ms|
    ensures ms[k..][0] == ms[k] && ms[k..][1..] == ms[k + 1..]
  {
  }

  lemma SliceTwice(data: Bytes, prev: nat, i: nat)
    requires prev + i < |data|
    ensures data[prev..][..i] == data[prev..prev + i] && data[prev..][i + 1..] == data[prev + i + 1..]
  {
  }

  // ----- The stream decoder -----

  /** The pieces the stream decoder reads: everything up to and including a newline. */
  function Chunks(data: Bytes): seq<Bytes> {
    if data == [] then []
    else
      var i := Index(data);
      if i < 0 then [data] else [data[..i + 1]] + Chunks(data[i + 1..])
  }

  function Flatten(ms: seq<Bytes>): Bytes {
    if ms == [] then [] else ms[0] + Flatten(ms[1..])
  }

  function SizeOf(ms: seq<Bytes>): nat {
    if ms == [] then 0 else |ms[0]| + SizeOf(ms[1..])
  }

  /** The pieces are the stream again: nothing is lost, and the sizes add up. */
  lemma {:induction false} ChunksFlatten(data: Bytes)
    ensures Flatten(Chunks(data)) == data && SizeOf(Chunks(data)) == |data|
    decreases |data|
  {
    if data != [] {
      var i := Index(data);
      if i < 0 {
        assert Flatten([data]) == data + Flatten([]) && SizeOf([data]) == |data| + SizeOf([]);
      } else {
        ChunksFlatten(data[i + 1..]);
        assert data[..i + 1] + data[i + 1..] == data;
        var c := Chunks(data);
        assert c[1..] == Chunks(data[i + 1..]);
      }
    }
  }

  /** The messages with the newline that follows each of them but the last. */
  function WithNewlines(ms: seq<Bytes>): seq<Bytes> {
    if |ms| <= 1 then ms else [ms[0] + [NL]] + WithNewlines(ms[1..])
  }

  lemma {:induction false} ChunksOfJoin(ms: seq<Bytes>)
    requires SingleLines(ms) && LastNonEmpty(ms)
    ensures Chunks(Join(ms)) == WithNewlines(ms)
    decreases |ms|
  {
    if |ms| == 1 {
      assert Index(ms[0]) < 0;
    } else if |ms| >= 2 {
      JoinStep(ms);
      ChunksOfJoin(ms[1..]);
      var i := |ms[0]|;
      assert Join(ms)[..i + 1] == Join(ms)[..i] + [NL];
    }
  }

  lemma {:induction false} WithNewlinesLength(ms: seq<Bytes>)
    ensures |WithNewlines(ms)| == |ms|
    decreases |ms|
  {
    if |ms| > 1 {
      WithNewlinesLength(ms[1..]);
    }
  }

  /** A piece of a stream without the newline it may end in. */
  function Line(chunk: Bytes): Bytes {
    if EndsInNewline(chunk) then chunk[..|chunk| - 1] else chunk
  }

  lemma {:induction false} LinesOf(ms: seq<Bytes>, i: nat)
    requires SingleLines(ms) && i < |ms|
    ensures i < |WithNewlines(ms)| && Line(WithNewlines(ms)[i]) == ms[i]
    decreases |ms|
  {
    if |ms| > 1 {
      if i > 0 {
        LinesOf(ms[1..], i - 1);
      } else {
        assert (ms[0] + [NL])[..|ms[0]|] == ms[0];
      }
    }
  }

  lemma {:induction false} ChunksAndMessages(data: Bytes)
    ensures |Chunks(data)| == |Messages(data)|
    decreases |data|
  {
    hide Index;
    if data != [] {
      var i := Index(data);
      if i >= 0 && i < |data| - 1 {
        ChunksAndMessages(data[i + 1..]);
      } else if i >= 0 {
        assert data[i + 1..] == [];
      }
    }
  }

  /** The same for the stream: it yields the messages, each with its newline, exactly when the last one
      is not empty; the sizes always add up to the length of the frame. */
  lemma StreamRoundTripIff(ms: seq<Bytes>)
    requires SingleLines(ms)
    ensures Chunks(Join(ms)) == WithNewlines(ms) <==> LastNonEmpty(ms)
    ensures SizeOf(Chunks(Join(ms))) == |Join(ms)|
  {
    hide Messages, Join, Chunks, WithNewlines, SizeOf, Flatten;
    ChunksFlatten(Join(ms));
    if LastNonEmpty(ms) {
      ChunksOfJoin(ms);
    } else {
      LastEmptyCount(ms);
      ChunksAndMessages(Join(ms));
      WithNewlinesLength(ms);
    }
  }

  /** The first piece of a stream and the pieces of what is left. */
  lemma ChunksStep(data: Bytes)
    ensures data == [] ==> Index(data) < 0 && Chunks(data) == []
    ensures data != [] && Index(data) < 0 ==> Chunks(data) == [data] && Chunks([]) == []
    ensures Index(data) >= 0 ==> var i := Index(data); Chunks(data) == [data[..i + 1]] + Chunks(data[i + 1..])
  {
  }

  class StreamDecoder {
    var rest: Bytes
    const valid: Bytes -> bool

    constructor (rest: Bytes, valid: Bytes -> bool)
      ensures this.rest == rest && this.valid == valid
    {
      this.rest, this.valid := rest, valid;
    }

    /** Reads the next piece of the stream; EOF when there is none. */
    method Decode() returns (r: Result, size: nat)
      modifies this`rest
      ensures var cs := Chunks(old(rest));
              if cs == [] then r == Eof && size == 0 && rest == []
              else
                && Chunks(rest) == cs[1..] && old(rest) == cs[0] + rest
                && (valid(cs[0]) ==> r == Message(cs[0], false) && size == |cs[0]|)
                && (!valid(cs[0]) ==> r == Invalid && size == 0)
    {
      ChunksStep(rest);
      hide Chunks, Index;
      var i := Index(rest);
      assert i >= 0 ==> rest == rest[..i + 1] + rest[i + 1..];
      if i < 0 {
        var cmdBytes := rest;
        rest := [];
        if |cmdBytes| > 0 {
          if !valid(cmdBytes) {
            return Invalid, 0;
          }
          return Message(cmdBytes, false), |cmdBytes|;
        }
        return Eof, 0;
      }
      var cmdBytes := rest[..i + 1];
      rest := rest[i + 1..];
      if !valid(cmdBytes) {
        return Invalid, 0;
      }
      return Message(cmdBytes, false), |cmdBytes|;
    }
  }
}

/** Strings on the wire: JSON strings in newline-separated frames. */
module Wire {
  import opened Common
  import J = JsonString
  import N = Newline

  function Text(s: Bytes, html: bool): Bytes {
    [J.Quote] + J.Escape(s, html) + [J.Quote]
  }

  function Texts(ss: seq<Bytes>, html: bool): seq<Bytes> {
    seq(|ss|, i requires 0 <= i < |ss| => Text(ss[i], html))
  }

  /** A JSON string is one line, whatever bytes it stands for. */
  lemma TextIsSingleLine(s: Bytes, html: bool)
    ensures N.NL !in Text(s, html)
  {
    J.OutputBytes(s, html);
  }

  /** End to end: byte strings written as JSON, joined into one frame, cut again by either decoder and
      read back come out as their code points, each in its place, and well-formed ones byte for byte. */
  lemma StringsThroughFrame(ss: seq<Bytes>, html: bool)
    ensures var frame := N.Join(Texts(ss, html));
            && N.Messages(frame) == Texts(ss, html)
            && N.Chunks(frame) == N.WithNewlines(Texts(ss, html))
            && |N.Chunks(frame)| == |ss|
            && forall i :: 0 <= i < |ss| ==>
                 && J.ReadString(N.Messages(frame)[i]) == Some(J.Runes(ss[i]))
                 && J.ReadString(N.Line(N.Chunks(frame)[i])) == Some(J.Runes(ss[i]))
  {
    var ts := Texts(ss, html);
    forall i | 0 <= i < |ts|
      ensures N.NL !in ts[i] && J.ReadString(ts[i]) == Some(J.Runes(ss[i]))
    {
      TextIsSingleLine(ss[i], html);
      J.RoundTrip(ss[i], html);
    }
    N.RoundTripIff(ts);
    N.StreamRoundTripIff(ts);
    N.WithNewlinesLength(ts);
    forall i | 0 <= i < |ss|
      ensures N.Line(N.WithNewlines(ts)[i]) == ts[i]
    {
      N.LinesOf(ts, i);
    }
  }
}
