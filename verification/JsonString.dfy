/**
  Writing a string as JSON, and reading it back by the string rules of section 7 of RFC 8259 over
  UTF-8 as section 4 of RFC 3629 defines it.
 */
module JsonString {
  import opened Common

  // ----- UTF-8 -----

  predicate Tail(b: Byte) {
    0x80 <= b <= 0xBF
  }

  /** The length of the well-formed sequence at the front of s, 0 when there is none. */
  function RuneLen(s: Bytes): (n: nat)
    requires s != []
    ensures n <= |s| && n <= 4
  {
    var b := s[0];
    if b < 0x80 then 1
    else if 0xC2 <= b <= 0xDF && |s| >= 2 && Tail(s[1]) then 2
    else if 0xE0 <= b <= 0xEF && |s| >= 3 && Tail(s[1]) && Tail(s[2])
            && (b == 0xE0 ==> s[1] >= 0xA0) && (b == 0xED ==> s[1] <= 0x9F) then 3
    else if 0xF0 <= b <= 0xF4 && |s| >= 4 && Tail(s[1]) && Tail(s[2]) && Tail(s[3])
            && (b == 0xF0 ==> s[1] >= 0x90) && (b == 0xF4 ==> s[1] <= 0x8F) then 4
    else 0
  }

  const ReplacementChar := 0xFFFD

  /** Four digits to the base 64, six bits each. */
  function Digits64(a: int, b: int, c: int, d: int): int {
    a * 262144 + b * 4096 + c * 64 + d
  }

  /** Taking such a number apart again. */
  lemma SplitDigits64(a: int, b: int, c: int, d: int)
    requires 0 <= a && 0 <= b < 64 && 0 <= c < 64 && 0 <= d < 64
    ensures var r := Digits64(a, b, c, d);
            r / 262144 == a && r / 4096 == a * 64 + b && r / 4096 % 64 == b && r / 64 % 64 == c && r % 64 == d
            && r / 64 == a * 4096 + b * 64 + c
  {
    var r := Digits64(a, b, c, d);
    assert r == 64 * (a * 4096 + b * 64 + c) + d;
    assert r / 64 == a * 4096 + b * 64 + c;
    assert r / 64 == 64 * (a * 64 + b) + c;
    assert r == 4096 * (a * 64 + b) + (64 * c + d);
    assert r == 262144 * a + (4096 * b + 64 * c + d);
  }

  /** The code point at the front of s and the number of bytes it takes; an ill-formed byte stands for
      the replacement character. */
  function DecodeRune(s: Bytes): (r: (int, nat))
    requires s != []
    ensures 1 <= r.1 <= |s|
  {
    match RuneLen(s)
    case 0 => (ReplacementChar, 1)
    case 1 => (s[0], 1)
    case 2 => (Digits64(0, 0, s[0] - 0xC0, s[1] - 0x80), 2)
    case 3 => (Digits64(0, s[0] - 0xE0, s[1] - 0x80, s[2] - 0x80), 3)
    case _ => (Digits64(s[0] - 0xF0, s[1] - 0x80, s[2] - 0x80, s[3] - 0x80), 4)
  }

  /** The code points of s, each ill-formed byte replaced. */
  function Runes(s: Bytes): seq<int> {
    if s == [] then []
    else
      var (r, n) := DecodeRune(s);
      [r] + Runes(s[n..])
  }

  predicate WellFormed(s: Bytes) {
    s != [] ==> RuneLen(s) > 0 && WellFormed(s[RuneLen(s)..])
  }

  predicate IsScalar(r: int) {
    0 <= r < 0xD800 || 0xE000 <= r < 0x110000
  }

  function EncodeRune(r: int): Bytes
    requires IsScalar(r)
  {
    if r < 0x80 then [r]
    else if r < 0x800 then [0xC0 + r / 64, 0x80 + r % 64]
    else if r < 0x10000 then [0xE0 + r / 4096, 0x80 + r / 64 % 64, 0x80 + r % 64]
    else [0xF0 + r / 262144, 0x80 + r / 4096 % 64, 0x80 + r / 64 % 64, 0x80 + r % 64]
  }

  predicate AllScalars(rs: seq<int>) {
    forall i :: 0 <= i < |rs| ==> IsScalar(rs[i])
  }

  function EncodeRunes(rs: seq<int>): Bytes
    requires AllScalars(rs)
  {
    if rs == [] then [] else EncodeRune(rs[0]) + EncodeRunes(rs[1..])
  }

  /** Every decoded code point is a scalar value, and encoding a well-formed one gives its bytes back. */
  lemma RuneRoundTrip(s: Bytes)
    requires s != []
    ensures IsScalar(DecodeRune(s).0)
    ensures RuneLen(s) > 0 ==> EncodeRune(DecodeRune(s).0) == s[..RuneLen(s)]
  {
    hide Digits64;
    match RuneLen(s)
    case 0 =>
    case 1 =>
    case 2 => RoundTrip2(s);
    case 3 => RoundTrip3(s);
    case _ => RoundTrip4(s);
  }

  lemma RoundTrip2(s: Bytes)
    requires s != [] && RuneLen(s) == 2
    ensures IsScalar(DecodeRune(s).0) && EncodeRune(DecodeRune(s).0) == s[..2]
  {
  }

  lemma RoundTrip3(s: Bytes)
    requires s != [] && RuneLen(s) == 3
    ensures IsScalar(DecodeRune(s).0) && EncodeRune(DecodeRune(s).0) == s[..3]
  {
    SplitDigits64(0, s[0] - 0xE0, s[1] - 0x80, s[2] - 0x80);
    var r := DecodeRune(s).0;
    assert 0x800 <= r < 0x10000 && IsScalar(r);
    hide Digits64;
    assert EncodeRune(r) == [s[0], s[1], s[2]];
  }

  lemma RoundTrip4(s: Bytes)
    requires s != [] && RuneLen(s) == 4
    ensures IsScalar(DecodeRune(s).0) && EncodeRune(DecodeRune(s).0) == s[..4]
  {
    SplitDigits64(s[0] - 0xF0, s[1] - 0x80, s[2] - 0x80, s[3] - 0x80);
    var r := DecodeRune(s).0;
    assert 0x10000 <= r < 0x110000;
    hide Digits64;
    assert EncodeRune(r) == [s[0], s[1], s[2], s[3]];
  }

  lemma EncodeCons(r: int, rs: seq<int>)
    requires IsScalar(r) && AllScalars(rs)
    ensures AllScalars([r] + rs) && EncodeRunes([r] + rs) == EncodeRune(r) + EncodeRunes(rs)
  {
    hide EncodeRune, IsScalar;
    assert ([r] + rs)[1..] == rs;
  }

  lemma {:induction false} RunesAreScalars(s: Bytes)
    ensures AllScalars(Runes(s))
    decreases |s|
  {
    if s != [] {
      hide DecodeRune, RuneLen, EncodeRune, IsScalar, AllScalars, EncodeRunes;
      RuneRoundTrip(s);
      DecodedLen(s);
      var (r, n) := DecodeRune(s);
      RunesAreScalars(s[n..]);
      EncodeCons(r, Runes(s[n..]));
    }
  }

  lemma {:induction false} RunesEncode(s: Bytes)
    requires WellFormed(s)
    ensures AllScalars(Runes(s)) && EncodeRunes(Runes(s)) == s
    decreases |s|
  {
    hide DecodeRune, RuneLen, EncodeRune, IsScalar, AllScalars;
    RunesAreScalars(s);
    if s != [] {
      RuneRoundTrip(s);
      DecodedLen(s);
      var (r, n) := DecodeRune(s);
      RunesEncode(s[n..]);
      EncodeCons(r, Runes(s[n..]));
      assert s == s[..n] + s[n..];
    }
  }

  // ----- Writing -----

  const Quote: Byte := 0x22
  const Backslash: Byte := 0x5C

  /** ASCII bytes that need no escape inside a JSON string. */
  predicate SafeSet(b: Byte) {
    0x20 <= b < 0x80 && b != Quote && b != Backslash
  }

  /** ... nor inside HTML: also not '<', '>' and '&'. */
  predicate HtmlSafeSet(b: Byte) {
    SafeSet(b) && b != 0x3C && b != 0x3E && b != 0x26
  }

  function Hex(d: nat): Byte
    requires d < 16
  {
    if d < 10 then 0x30 + d else 0x61 + (d - 10)
  }

  /** "\u" and four hexadecimal digits. */
  function UnicodeEscape(r: int): Bytes
    requires 0 <= r < 0x10000
  {
    [Backslash, 0x75, Hex(r / 4096), Hex(r / 256 % 16), Hex(r / 16 % 16), Hex(r % 16)]
  }

  function EscapeAscii(b: Byte): Bytes
    requires b < 0x80
  {
    if b == Backslash || b == Quote then [Backslash, b]
    else if b == 0x0A then [Backslash, 0x6E]
    else if b == 0x0D then [Backslash, 0x72]
    else if b == 0x09 then [Backslash, 0x74]
    else UnicodeEscape(b)
  }

  /** What the writer emits for the code point at the front of s. */
  function EscapeFirst(s: Bytes, html: bool): Bytes
    requires s != []
  {
    if s[0] < 0x80 then
      if HtmlSafeSet(s[0]) || (!html && SafeSet(s[0])) then [s[0]] else EscapeAscii(s[0])
    else
      var (r, n) := DecodeRune(s);
      if RuneLen(s) == 0 || r == 0x2028 || r == 0x2029 then UnicodeEscape(r)
      else s[..n]
  }

  /** The body of the JSON string for s. */
  function Escape(s: Bytes, html: bool): Bytes {
    if s == [] then [] else EscapeFirst(s, html) + Escape(s[DecodeRune(s).1..], html)
  }

  // ----- Reading -----

  function Digit(b: Byte): Option<nat> {
    if 0x30 <= b <= 0x39 then Some(b - 0x30)
    else if 0x41 <= b <= 0x46 then Some(b - 0x41 + 10)
    else if 0x61 <= b <= 0x66 then Some(b - 0x61 + 10)
    else None
  }

  /** The code unit of a "\u" escape at the front of t. */
  function ReadUnit(t: Bytes): Option<nat> {
    if |t| < 6 || t[0] != Backslash || t[1] != 0x75 then None
    else
      match (Digit(t[2]), Digit(t[3]), Digit(t[4]), Digit(t[5]))
      case (Some(a), Some(b), Some(c), Some(d)) => Some(a * 4096 + b * 256 + c * 16 + d)
      case _ => None
  }

  function Unescaped(b: Byte): Option<int> {
    if b == Quote || b == Backslash || b == 0x2F then Some(b)
    else if b == 0x62 then Some(8)
    else if b == 0x66 then Some(12)
    else if b == 0x6E then Some(10)
    else if b == 0x72 then Some(13)
    else if b == 0x74 then Some(9)
    else None
  }

  /** The code point at the front of t, the rest of a JSON string, and the bytes it takes. */
  function ReadOne(t: Bytes): (r: Option<(int, nat)>)
    requires t != []
    ensures r.Some? ==> 1 <= r.value.1 <= |t|
  {
    if t[0] == Backslash then
      if |t| < 2 then None
      else if t[1] != 0x75 then
        (match Unescaped(t[1]) case None => None case Some(c) => Some((c, 2)))
      else
        match ReadUnit(t)
        case None => None
        case Some(u) =>
          if IsScalar(u) then Some((u, 6))
          else if u >= 0xDC00 then None
          else
            match ReadUnit(t[6..])
            case None => None
            case Some(v) =>
              if 0xDC00 <= v < 0xE000 then Some((0x10000 + (u - 0xD800) * 1024 + (v - 0xDC00), 12)) else None
    else if t[0] < 0x20 || t[0] == Quote || RuneLen(t) == 0 then None
    else Some(DecodeRune(t))
  }

  /** The code points of a JSON string, opening quote excluded: everything up to the first quote that
      is not escaped, which must be the last byte. */
  function Read(t: Bytes): Option<seq<int>> {
    if t == [] then None
    else if t[0] == Quote then if |t| == 1 then Some([]) else None
    else
      match ReadOne(t)
      case None => None
      case Some((r, n)) =>
        match Read(t[n..])
        case None => None
        case Some(rs) => Some([r] + rs)
  }

  /** A JSON text that is a single string. */
  function ReadString(t: Bytes): Option<seq<int>> {
    if t == [] || t[0] != Quote then None else Read(t[1..])
  }

  // ----- Reading back what was written -----

  lemma HexDigits(r: int)
    requires 0 <= r < 0x10000
    ensures r == r / 4096 * 4096 + r / 256 % 16 * 256 + r / 16 % 16 * 16 + r % 16
    ensures r / 4096 < 16
  {
    assert r / 16 / 16 == r / 256 && r / 256 / 16 == r / 4096;
  }

  lemma ReadsUnicodeEscape(r: int, rest: Bytes)
    requires 0 <= r < 0x10000 && IsScalar(r)
    ensures ReadOne(UnicodeEscape(r) + rest) == Some((r, 6))
  {
    var t := UnicodeEscape(r) + rest;
    var a, b, c, d := r / 4096, r / 256 % 16, r / 16 % 16, r % 16;
    HexDigits(r);
    assert t[0] == Backslash && t[1] == 0x75 && t[2] == Hex(a) && t[3] == Hex(b) && t[4] == Hex(c) && t[5] == Hex(d);
    assert ReadUnit(t) == Some(r);
  }

  lemma ReadsAscii(b: Byte, rest: Bytes)
    requires b < 0x80
    ensures var e := EscapeAscii(b); e[0] == Backslash && ReadOne(e + rest) == Some((b, |e|))
  {
    if EscapeAscii(b) == UnicodeEscape(b) {
      hide ReadOne;
      ReadsUnicodeEscape(b, rest);
    }
  }

  lemma ReadsRaw(s: Bytes, rest: Bytes)
    requires s != [] && RuneLen(s) > 0 && s[0] >= 0x20 && s[0] != Quote && s[0] != Backslash
    ensures ReadOne(s[..RuneLen(s)] + rest) == Some(DecodeRune(s))
  {
  }

  /** The reader takes what the writer emitted for one code point as that code point. */
  lemma ReadsFirst(s: Bytes, html: bool, rest: Bytes)
    requires s != []
    ensures var e := EscapeFirst(s, html);
            && e != [] && e[0] != Quote
            && ReadOne(e + rest) == Some((DecodeRune(s).0, |e|))
  {
    var (r, n) := DecodeRune(s);
    if s[0] < 0x80 {
      hide ReadOne;
      if HtmlSafeSet(s[0]) || (!html && SafeSet(s[0])) {
        ReadsRaw(s, rest);
        assert s[..1] == [s[0]];
      } else {
        ReadsAscii(s[0], rest);
      }
    } else if RuneLen(s) == 0 || r == 0x2028 || r == 0x2029 {
      hide ReadOne;
      ReadsUnicodeEscape(r, rest);
    } else {
      hide ReadOne;
      ReadsRaw(s, rest);
    }
  }

  lemma {:induction false} ReadsEscape(s: Bytes, html: bool)
    ensures Read(Escape(s, html) + [Quote]) == Some(Runes(s))
    decreases |s|
  {
    if s == [] {
      assert Escape(s, html) + [Quote] == [Quote];
    } else {
      var (r, n) := DecodeRune(s);
      var e := EscapeFirst(s, html);
      var rest := Escape(s[n..], html) + [Quote];
      ReadsFirst(s, html, rest);
      ReadsEscape(s[n..], html);
      assert Escape(s, html) + [Quote] == e + rest;
      assert (e + rest)[|e|..] == rest;
    }
  }

  /** The round trip: a JSON reader gets from the output for any byte string its code points, with
      every ill-formed byte replaced by U+FFFD; a well-formed input comes back byte for byte. */
  lemma RoundTrip(s: Bytes, html: bool)
    ensures var out := [Quote] + Escape(s, html) + [Quote];
            && ReadString(out) == Some(Runes(s))
            && AllScalars(Runes(s))
            && (WellFormed(s) ==> EncodeRunes(Runes(s)) == s)
  {
    hide Escape, Runes, Read, WellFormed, EncodeRunes, AllScalars, ReadOne, EscapeFirst;
    var out := [Quote] + Escape(s, html) + [Quote];
    assert out[1..] == Escape(s, html) + [Quote];
    ReadsEscape(s, html);
    RunesAreScalars(s);
    if WellFormed(s) {
      RunesEncode(s);
    }
  }

  // ----- What never appears in the output -----

  /** Bytes that the body of the string may contain. */
  predicate Allowed(b: Byte, html: bool) {
    b >= 0x20 && (html ==> b != 0x3C && b != 0x3E && b != 0x26)
  }

  lemma UnicodeEscapeBytes(r: int, html: bool)
    requires 0 <= r < 0x10000
    ensures forall i :: 0 <= i < 6 ==> Allowed(UnicodeEscape(r)[i], html)
  {
  }

  lemma FirstBytes(s: Bytes, html: bool)
    requires s != []
    ensures forall i :: 0 <= i < |EscapeFirst(s, html)| ==> Allowed(EscapeFirst(s, html)[i], html)
  {
    DecodedLen(s);
    hide DecodeRune, UnicodeEscape;
    var r := DecodeRune(s).0;
    if s[0] < 0x80 {
      UnicodeEscapeBytes(s[0], html);
    } else if RuneLen(s) == 0 || r == 0x2028 || r == 0x2029 {
      UnicodeEscapeBytes(r, html);
    } else {
      assert forall i :: 0 <= i < RuneLen(s) ==> s[i] >= 0x80;
    }
  }

  lemma DecodedLen(s: Bytes)
    requires s != []
    ensures DecodeRune(s).1 == if RuneLen(s) == 0 then 1 else RuneLen(s)
    ensures RuneLen(s) == 0 ==> DecodeRune(s).0 == ReplacementChar
  {
  }

  /** No control byte is emitted, and with HTML escaping no '<', '>' or '&'. */
  lemma {:induction false} OutputBytes(s: Bytes, html: bool)
    ensures forall i :: 0 <= i < |Escape(s, html)| ==> Allowed(Escape(s, html)[i], html)
    decreases |s|
  {
    if s != [] {
      hide EscapeFirst, DecodeRune;
      FirstBytes(s, html);
      OutputBytes(s[DecodeRune(s).1..], html);
    }
  }

  /** The UTF-8 bytes of U+2028 or U+2029 start at position i. */
  predicate SeparatorAt(t: Bytes, i: nat) {
    i + 3 <= |t| && t[i] == 0xE2 && t[i + 1] == 0x80 && (t[i + 2] == 0xA8 || t[i + 2] == 0xA9)
  }

  /** 0xE2 is emitted only as the first byte of a three-byte sequence that is not a separator. */
  lemma RawSeparator(s: Bytes, html: bool, i: nat)
    requires s != [] && i < |EscapeFirst(s, html)| && EscapeFirst(s, html)[i] == 0xE2
    ensures i == 0 && |s| >= 3 && EscapeFirst(s, html) == s[..3] && !SeparatorAt(s, 0)
  {
  }

  /** Line and paragraph separators, which JavaScript does not take in strings, are always escaped. */
  lemma {:induction false} NoSeparators(s: Bytes, html: bool, i: nat)
    ensures !SeparatorAt(Escape(s, html), i)
    decreases |s|
  {
    hide EscapeFirst, DecodeRune;
    if s != [] {
      var n := DecodeRune(s).1;
      var e, rest := EscapeFirst(s, html), Escape(s[n..], html);
      if i >= |e| {
        NoSeparators(s[n..], html, i - |e|);
        assert forall k :: |e| <= k < |e + rest| ==> (e + rest)[k] == rest[k - |e|];
      } else {
        assert (e + rest)[i] == e[i];
        if e[i] == 0xE2 {
          RawSeparator(s, html, i);
          assert forall k :: 0 <= k < 3 ==> (e + rest)[k] == s[k];
        }
      }
    }
  }

  // ----- The writer -----

  class Writer {
    var buffer: Bytes
    var noEscapeHtml: bool

    constructor (noEscapeHtml: bool)
      ensures buffer == [] && this.noEscapeHtml == noEscapeHtml
    {
      buffer := [];
      this.noEscapeHtml := noEscapeHtml;
    }

    /** Appends what has been passed over unchanged. */
    method Flush(s: Bytes, start: nat, i: nat)
      requires start <= i <= |s|
      modifies this`buffer
      ensures buffer == old(buffer) + s[start..i]
    {
      if start < i {
        buffer := buffer + s[start..i];
      }
    }

    method String(s: Bytes)
      modifies this`buffer
      ensures buffer == old(buffer) + [Quote] + Escape(s, !noEscapeHtml) + [Quote]
    {
      hide EscapeFirst, DecodeRune, Escape, UnicodeEscape, EscapeAscii, Written;
      var html := !noEscapeHtml;
      buffer := buffer + [Quote];
      ghost var goal := buffer + Escape(s, html);
      var start, i := 0, 0;
      WrittenNothing(buffer, s, html);
      while i < |s|
        invariant 0 <= start <= i <= |s|
        invariant Written(buffer, s, start, i, html) == goal
      {
        var b := s[i];
        var (c, size) := DecodeRune(s[i..]);
        EscapeStep(s, i, html);
        if b < 0x80 {
          if HtmlSafeSet(b) || (!html && SafeSet(b)) {
            PassedOver(buffer, s, start, i, html);
            i := i + 1;
            continue;
          }
          Emitted(buffer, s, start, i, html);
          Flush(s, start, i);
          buffer := buffer + EscapeAscii(b);
          i := i + 1;
          start := i;
          continue;
        }
        if c == ReplacementChar && size == 1 {
          Emitted(buffer, s, start, i, html);
          Flush(s, start, i);
          buffer := buffer + [Backslash, 0x75, 0x66, 0x66, 0x66, 0x64];
          i := i + size;
          start := i;
          continue;
        }
        if c == 0x2028 || c == 0x2029 {
          Emitted(buffer, s, start, i, html);
          Flush(s, start, i);
          buffer := buffer + [Backslash, 0x75, 0x32, 0x30, 0x32, Hex(c % 16)];
          i := i + size;
          start := i;
          continue;
        }
        PassedOver(buffer, s, start, i, html);
        i := i + size;
      }
      WrittenAll(buffer, s, start, html);
      Flush(s, start, |s|);
      buffer := buffer + [Quote];
    }
  }

  /** What the buffer will hold once s has been written, when it holds `buf` now, s[start..i] has been
      passed over and not yet copied, and the writer stands at position i. */
  ghost function Written(buf: Bytes, s: Bytes, start: nat, i: nat, html: bool): Bytes
    requires start <= i <= |s|
  {
    buf + s[start..i] + Escape(s[i..], html)
  }

  lemma WrittenNothing(buf: Bytes, s: Bytes, html: bool)
    ensures Written(buf, s, 0, 0, html) == buf + Escape(s, html)
  {
  }

  lemma WrittenAll(buf: Bytes, s: Bytes, start: nat, html: bool)
    requires start <= |s|
    ensures Written(buf, s, start, |s|, html) == buf + s[start..|s|]
  {
  }

  lemma PassedOver(buf: Bytes, s: Bytes, start: nat, i: nat, html: bool)
    requires start <= i < |s| && i + DecodeRune(s[i..]).1 <= |s|
    requires EscapeFirst(s[i..], html) == s[i..i + DecodeRune(s[i..]).1]
    ensures Written(buf, s, start, i + DecodeRune(s[i..]).1, html) == Written(buf, s, start, i, html)
  {
  }

  lemma Emitted(buf: Bytes, s: Bytes, start: nat, i: nat, html: bool)
    requires start <= i < |s| && i + DecodeRune(s[i..]).1 <= |s|
    ensures var j := i + DecodeRune(s[i..]).1;
            Written(buf + s[start..i] + EscapeFirst(s[i..], html), s, j, j, html) == Written(buf, s, start, i, html)
  {
  }

  /** The cases of the writer's loop for the code point at the front of t. */
  lemma FirstByCases(t: Bytes, html: bool)
    requires t != []
    ensures var (c, size) := DecodeRune(t);
            && EscapeFirst(t, html) ==
               if t[0] < 0x80 then
                 if HtmlSafeSet(t[0]) || (!html && SafeSet(t[0])) then [t[0]] else EscapeAscii(t[0])
               else if c == ReplacementChar && size == 1 then [Backslash, 0x75, 0x66, 0x66, 0x66, 0x64]
               else if c == 0x2028 || c == 0x2029 then [Backslash, 0x75, 0x32, 0x30, 0x32, Hex(c % 16)]
               else t[..size]
    ensures t[0] < 0x80 ==> DecodeRune(t).1 == 1
  {
    assert UnicodeEscape(ReplacementChar) == [Backslash, 0x75, 0x66, 0x66, 0x66, 0x64];
    assert UnicodeEscape(0x2028) == [Backslash, 0x75, 0x32, 0x30, 0x32, Hex(8)];
    assert UnicodeEscape(0x2029) == [Backslash, 0x75, 0x32, 0x30, 0x32, Hex(9)];
  }

  /** The same at position i. */
  lemma EscapeStep(s: Bytes, i: nat, html: bool)
    requires i < |s|
    ensures var (c, size) := DecodeRune(s[i..]);
            var b := s[i];
            && i + size <= |s|
            && Escape(s[i..], html) == EscapeFirst(s[i..], html) + Escape(s[i + size..], html)
            && EscapeFirst(s[i..], html) ==
               if b < 0x80 then
                 if HtmlSafeSet(b) || (!html && SafeSet(b)) then [b] else EscapeAscii(b)
               else if c == ReplacementChar && size == 1 then [Backslash, 0x75, 0x66, 0x66, 0x66, 0x64]
               else if c == 0x2028 || c == 0x2029 then [Backslash, 0x75, 0x32, 0x30, 0x32, Hex(c % 16)]
               else s[i..i + size]
    ensures s[i] < 0x80 ==> DecodeRune(s[i..]).1 == 1
  {
    FirstByCases(s[i..], html);
    DecodedLen(s[i..]);
    hide DecodeRune, EscapeFirst, EscapeAscii, RuneLen, HtmlSafeSet, SafeSet;
    var rest := s[i..];
    var (c, size) := DecodeRune(rest);
    assert rest[size..] == s[i + size..] && rest[..size] == s[i..i + size];
  }
}
