/**
 UTF-8 as section 3 of RFC 3629 defines it, with the error handlers the scanner decodes with.
 A malformed stretch is consumed as one maximal subpart (Unicode Standard, section 3.9).
 */
module Utf8 {
  import opened Text

  type Byte = b: int | 0 <= b < 256

  const LF: Byte := 0x0A

  /** What stands at the head of a byte string: one encoded scalar, or an ill-formed stretch. */
  datatype Head = Good(len: nat, ch: char) | Bad(len: nat)

  /** What a decoder writes for an ill-formed stretch. */
  datatype Handler = Replace | BackslashReplace

  predicate IsContinuation(b: Byte) {
    0x80 <= b <= 0xBF
  }

  /** The length a lead byte announces; 0 for a byte that can lead nothing. */
  function LeadLength(b: Byte): nat {
    if b < 0x80 then 1
    else if 0xC2 <= b <= 0xDF then 2
    else if 0xE0 <= b <= 0xEF then 3
    else if 0xF0 <= b <= 0xF4 then 4
    else 0
  }

  /** The second byte's range, narrowed where a wider one would admit an overlong form or a surrogate. */
  predicate SecondOk(lead: Byte, b: Byte) {
    if lead == 0xE0 then 0xA0 <= b <= 0xBF
    else if lead == 0xED then 0x80 <= b <= 0x9F
    else if lead == 0xF0 then 0x90 <= b <= 0xBF
    else if lead == 0xF4 then 0x80 <= b <= 0x8F
    else IsContinuation(b)
  }

  function Value2(a: int, b: int): int {
    (a - 0xC0) * 64 + (b - 0x80)
  }

  function Value3(a: int, b: int, c: int): int {
    (a - 0xE0) * 4096 + (b - 0x80) * 64 + (c - 0x80)
  }

  function Value4(a: int, b: int, c: int, d: int): int {
    (a - 0xF0) * 262144 + (b - 0x80) * 4096 + (c - 0x80) * 64 + (d - 0x80)
  }

  function Next(bs: seq<Byte>): (h: Head)
    requires bs != []
    ensures 1 <= h.len <= |bs|
    ensures forall i :: 1 <= i < h.len ==> IsContinuation(bs[i])
    ensures h.Good? && h.len > 1 ==> h.ch as int >= 0x80
    ensures h.Good? && h.len == 1 ==> bs[0] < 0x80 && h.ch as int == bs[0]
    ensures bs[0] < 0x80 ==> h == Good(1, bs[0] as char)
  {
    var n := LeadLength(bs[0]);
    if n == 0 then Bad(1)
    else if n == 1 then Good(1, bs[0] as char)
    else if |bs| < 2 || !SecondOk(bs[0], bs[1]) then Bad(1)
    else if n == 2 then Good(2, Value2(bs[0], bs[1]) as char)
    else if |bs| < 3 || !IsContinuation(bs[2]) then Bad(2)
    else if n == 3 then Good(3, Value3(bs[0], bs[1], bs[2]) as char)
    else if |bs| < 4 || !IsContinuation(bs[3]) then Bad(3)
    else Good(4, Value4(bs[0], bs[1], bs[2], bs[3]) as char)
  }

  predicate WellFormed(bs: seq<Byte>)
    decreases |bs|
  {
    bs == [] || (Next(bs).Good? && WellFormed(bs[Next(bs).len..]))
  }

  function HexDigit(n: nat): (c: char)
    requires n < 16
    ensures '0' <= c <= '9' || 'a' <= c <= 'f'
  {
    if n < 10 then '0' + n as char else 'a' + (n - 10) as char
  }

  /** One `\xNN` per byte. */
  function HexEscapes(bs: seq<Byte>): (s: string)
    ensures bs != [] ==> s != [] && s[0] == '\\'
    ensures '\n' !in s
  {
    if bs == [] then []
    else ['\\', 'x', HexDigit(bs[0] / 16), HexDigit(bs[0] % 16)] + HexEscapes(bs[1..])
  }

  function OnBad(bs: seq<Byte>, handler: Handler): string {
    match handler
    case Replace => [0xFFFD as char]
    case BackslashReplace => HexEscapes(bs)
  }

  function DecodeWith(bs: seq<Byte>, handler: Handler): string
    decreases |bs|
  {
    if bs == [] then []
    else
      var h := Next(bs);
      (match h case Good(_, ch) => [ch] case Bad(_) => OnBad(bs[..h.len], handler))
      + DecodeWith(bs[h.len..], handler)
  }

  /** A strict decode: the text, or nothing where a byte is ill-formed. */
  function Decode(bs: seq<Byte>): Option<string> {
    if WellFormed(bs) then Some(DecodeWith(bs, Replace)) else None
  }

  function EncodeChar(c: char): (bs: seq<Byte>)
    ensures bs != []
  {
    var v := c as int;
    if v < 0x80 then [v]
    else if v < 0x800 then [0xC0 + v / 64, 0x80 + v % 64]
    else if v < 0x10000 then [0xE0 + v / 4096, 0x80 + (v / 64) % 64, 0x80 + v % 64]
    else [0xF0 + v / 262144, 0x80 + (v / 4096) % 64, 0x80 + (v / 64) % 64, 0x80 + v % 64]
  }

  function Encode(s: string): seq<Byte> {
    if s == [] then [] else EncodeChar(s[0]) + Encode(s[1..])
  }

  predicate IsAsciiText(s: string) {
    forall i :: 0 <= i < |s| ==> s[i] as int < 0x80
  }

  /** The bytes of an ASCII text: one a character. */
  function Bytes(s: string): (bs: seq<Byte>)
    requires IsAsciiText(s)
    ensures |bs| == |s|
    ensures forall i :: 0 <= i < |s| ==> bs[i] == s[i] as int
  {
    seq(|s|, i requires 0 <= i < |s| => s[i] as int)
  }

  /** The characters of an ASCII byte string. */
  function Ascii(bs: seq<Byte>): (s: string)
    requires IsAscii(bs)
    ensures |s| == |bs|
    ensures forall i :: 0 <= i < |bs| ==> s[i] as int == bs[i]
  {
    if bs == [] then [] else [bs[0] as char] + Ascii(bs[1..])
  }

  predicate IsAscii(bs: seq<Byte>) {
    forall i :: 0 <= i < |bs| ==> bs[i] < 0x80
  }

  // --- the code is a bijection between text and well-formed bytes ---

  lemma Radix2(v: int)
    requires 0x80 <= v < 0x800
    ensures 0xC2 <= 0xC0 + v / 64 <= 0xDF && Value2(0xC0 + v / 64, 0x80 + v % 64) == v
  {
  }

  lemma Radix3(v: int)
    requires 0x800 <= v < 0x10000
    ensures 0 <= v / 4096 < 16 && Value3(0xE0 + v / 4096, 0x80 + (v / 64) % 64, 0x80 + v % 64) == v
    ensures v / 4096 == 0 ==> (v / 64) % 64 >= 32
    ensures v < 0xD800 && v / 4096 == 13 ==> (v / 64) % 64 < 32
    ensures v >= 0xE000 ==> v / 4096 > 13
  {
    assert v / 4096 == (v / 64) / 64;
  }

  lemma Radix4(v: int)
    requires 0x10000 <= v <= 0x10FFFF
    ensures 0 <= v / 262144 <= 4
    ensures Value4(0xF0 + v / 262144, 0x80 + (v / 4096) % 64, 0x80 + (v / 64) % 64, 0x80 + v % 64) == v
    ensures v / 262144 == 0 ==> (v / 4096) % 64 >= 16
    ensures v / 262144 == 4 ==> (v / 4096) % 64 < 16
  {
    assert v / 4096 == (v / 64) / 64;
    assert v / 262144 == (v / 4096) / 64;
  }

  lemma NextOfEncoded(c: char, tail: seq<Byte>)
    ensures Next(EncodeChar(c) + tail) == Good(|EncodeChar(c)|, c)
  {
    var v := c as int;
    var code := EncodeChar(c);
    assert forall i :: 0 <= i < |code| ==> (code + tail)[i] == code[i];
    if 0x80 <= v < 0x800 {
      Radix2(v);
    } else if 0x800 <= v < 0x10000 {
      Radix3(v);
    } else if v >= 0x10000 {
      Radix4(v);
    }
  }

  lemma Digits(a: int, b: int, c: int)
    requires 0 <= a && 0 <= b < 64 && 0 <= c < 64
    ensures (a * 4096 + b * 64 + c) / 4096 == a
    ensures ((a * 4096 + b * 64 + c) / 64) % 64 == b
    ensures (a * 4096 + b * 64 + c) % 64 == c
  {
    var v := a * 4096 + b * 64 + c;
    assert v / 64 == a * 64 + b;
  }

  lemma EncodedOfNext(bs: seq<Byte>)
    requires bs != [] && Next(bs).Good?
    ensures EncodeChar(Next(bs).ch) == bs[..Next(bs).len]
  {
    var h := Next(bs);
    if h.len == 2 {
      Encoded2(bs);
    } else if h.len == 3 {
      Encoded3(bs);
    } else if h.len == 4 {
      Encoded4(bs);
    }
  }

  lemma Encoded2(bs: seq<Byte>)
    requires bs != [] && Next(bs).Good? && Next(bs).len == 2
    ensures EncodeChar(Next(bs).ch) == bs[..2]
  {
    assert Next(bs).ch as int == Value2(bs[0], bs[1]);
  }

  lemma Encoded3(bs: seq<Byte>)
    requires bs != [] && Next(bs).Good? && Next(bs).len == 3
    ensures EncodeChar(Next(bs).ch) == bs[..3]
  {
    assert Next(bs).ch as int == Value3(bs[0], bs[1], bs[2]);
    Digits(bs[0] as int - 0xE0, bs[1] as int - 0x80, bs[2] as int - 0x80);
  }

  lemma Encoded4(bs: seq<Byte>)
    requires bs != [] && Next(bs).Good? && Next(bs).len == 4
    ensures EncodeChar(Next(bs).ch) == bs[..4]
  {
    var v := Next(bs).ch as int;
    assert v == Value4(bs[0], bs[1], bs[2], bs[3]);
    var high := (bs[0] as int - 0xF0) * 64 + (bs[1] as int - 0x80);
    Digits(high, bs[2] as int - 0x80, bs[3] as int - 0x80);
    assert v / 262144 == (v / 4096) / 64 == high / 64;
  }

  /** Every text decodes back from its encoding. */
  lemma {:induction false} DecodeOfEncode(s: string)
    ensures Decode(Encode(s)) == Some(s)
  {
    if s != [] {
      DecodeOfEncode(s[1..]);
      NextOfEncoded(s[0], Encode(s[1..]));
      assert Encode(s)[|EncodeChar(s[0])|..] == Encode(s[1..]);
      assert [s[0]] + s[1..] == s;
    }
  }

  /** Bytes that decode strictly are the encoding of what they decode to. */
  lemma {:induction false} EncodeOfDecode(bs: seq<Byte>)
    requires WellFormed(bs)
    ensures Encode(Decode(bs).value) == bs
    decreases |bs|
  {
    hide Next, EncodeChar;
    if bs != [] {
      var h := Next(bs);
      EncodeOfDecode(bs[h.len..]);
      EncodedOfNext(bs);
      var rest := DecodeWith(bs[h.len..], Replace);
      assert ([h.ch] + rest)[1..] == rest;
      assert bs == bs[..h.len] + bs[h.len..];
    }
  }

  lemma {:induction false} EncodeOfAscii(s: string)
    requires IsAsciiText(s)
    ensures Encode(s) == Bytes(s) && IsAscii(Bytes(s)) && Ascii(Bytes(s)) == s
  {
    if s != [] {
      EncodeOfAscii(s[1..]);
      assert Bytes(s)[1..] == Bytes(s[1..]);
    }
  }

  lemma {:induction false} EncodeAppend(a: string, b: string)
    ensures Encode(a + b) == Encode(a) + Encode(b)
  {
    if a == [] {
      assert a + b == b;
    } else {
      assert (a + b)[1..] == a[1..] + b;
      EncodeAppend(a[1..], b);
    }
  }

  /** A character below U+0080 appears in the bytes exactly where it appears in the text. */
  lemma {:induction false} EncodeHasAscii(s: string, c: char)
    requires c as int < 0x80
    ensures (c as int) in Encode(s) <==> c in s
  {
    if s != [] {
      EncodeHasAscii(s[1..], c);
      assert s == [s[0]] + s[1..];
      var v := s[0] as int;
      if v >= 0x80 {
        assert forall b :: b in EncodeChar(s[0]) ==> b >= 0x80;
      }
    }
  }

  // --- decoding is local: an ASCII byte never hides in a neighbour ---

  lemma NextPrefix(a: seq<Byte>, b: seq<Byte>)
    requires a != []
    requires b == [] || !IsContinuation(b[0])
    ensures Next(a + b) == Next(a)
  {
  }

  /** Decoding splits at any byte that does not continue a sequence. */
  lemma {:induction false} DecodeAppend(a: seq<Byte>, b: seq<Byte>, handler: Handler)
    requires b == [] || !IsContinuation(b[0])
    ensures DecodeWith(a + b, handler) == DecodeWith(a, handler) + DecodeWith(b, handler)
    decreases |a|
  {
    hide Next, OnBad, IsContinuation, DecodeWith;
    if a == [] {
      assert a + b == b;
      DecodeNothing(a, handler);
    } else {
      NextPrefix(a, b);
      var n := Next(a).len;
      var rest := a[n..];
      assert (a + b)[n..] == rest + b;
      assert (a + b)[..n] == a[..n];
      DecodeAppend(rest, b, handler);
      DecodeFirst(a, handler);
      DecodeFirst(a + b, handler);
    }
  }

  lemma DecodeFirst(bs: seq<Byte>, handler: Handler)
    requires bs != []
    ensures var h := Next(bs);
      DecodeWith(bs, handler)
      == (match h case Good(_, ch) => [ch] case Bad(_) => OnBad(bs[..h.len], handler))
        + DecodeWith(bs[h.len..], handler)
  {
    hide Next, OnBad;
  }

  lemma DecodeNothing(bs: seq<Byte>, handler: Handler)
    requires bs == []
    ensures DecodeWith(bs, handler) == []
  {
  }

  lemma {:induction false} WellFormedAppend(a: seq<Byte>, b: seq<Byte>)
    requires b == [] || !IsContinuation(b[0])
    ensures WellFormed(a + b) <==> WellFormed(a) && WellFormed(b)
    decreases |a|
  {
    hide Next, IsContinuation;
    if a == [] {
      assert a + b == b;
    } else {
      NextPrefix(a, b);
      var n := Next(a).len;
      assert (a + b)[n..] == a[n..] + b;
      WellFormedAppend(a[n..], b);
    }
  }

  lemma {:induction false} DecodeAscii(m: seq<Byte>, handler: Handler)
    requires IsAscii(m)
    ensures DecodeWith(m, handler) == Ascii(m) && WellFormed(m)
  {
    if m != [] {
      DecodeAscii(m[1..], handler);
      assert Next(m) == Good(1, m[0] as char);
    }
  }

  lemma DecodeAsciiHead(bs: seq<Byte>, handler: Handler)
    requires bs != [] && bs[0] < 0x80
    ensures DecodeWith(bs, handler) == [bs[0] as char] + DecodeWith(bs[1..], handler)
    ensures WellFormed(bs) <==> WellFormed(bs[1..])
  {
  }

  /** An ASCII prefix decodes to itself, whatever bytes follow it. */
  lemma {:induction false} AsciiPrefix(m: seq<Byte>, b: seq<Byte>, handler: Handler)
    requires IsAscii(m)
    ensures DecodeWith(m + b, handler) == Ascii(m) + DecodeWith(b, handler)
    ensures WellFormed(m + b) <==> WellFormed(b)
  {
    hide DecodeWith, WellFormed;
    if m == [] {
      assert m + b == b;
    } else {
      AsciiPrefix(m[1..], b, handler);
      DecodeAsciiHead(m + b, handler);
      assert (m + b)[1..] == m[1..] + b;
    }
  }

  /** An ASCII run comes through either lossy decode untouched, whatever surrounds it. */
  lemma {:induction false} AsciiRunSurvives(a: seq<Byte>, m: seq<Byte>, b: seq<Byte>, handler: Handler)
    requires m != [] && IsAscii(m)
    ensures DecodeWith(a + m + b, handler) == DecodeWith(a, handler) + Ascii(m) + DecodeWith(b, handler)
  {
    assert a + m + b == a + (m + b);
    DecodeAppend(a, m + b, handler);
    AsciiPrefix(m, b, handler);
  }

  /** A strict decode does not depend on the handler. */
  lemma {:induction false} HandlerIrrelevant(bs: seq<Byte>, h1: Handler, h2: Handler)
    requires WellFormed(bs)
    ensures DecodeWith(bs, h1) == DecodeWith(bs, h2)
    decreases |bs|
  {
    if bs != [] {
      HandlerIrrelevant(bs[Next(bs).len..], h1, h2);
    }
  }

  /** No line break is made or lost inside a line. */
  lemma {:induction false} NoNewLines(bs: seq<Byte>, handler: Handler)
    requires LF !in bs
    ensures '\n' !in DecodeWith(bs, handler)
    decreases |bs|
  {
    if bs != [] {
      var h := Next(bs);
      assert forall i :: h.len <= i < |bs| ==> bs[i] != LF;
      NoNewLines(bs[h.len..], handler);
      assert h.Good? ==> h.ch != '\n';
    }
  }

  /** Only the bytes of an ASCII text without a backslash decode to it. */
  lemma {:induction false} OnlyAsciiReads(bs: seq<Byte>, handler: Handler, s: string)
    requires DecodeWith(bs, handler) == s
    requires forall c :: c in s ==> c as int < 0x80 && c != '\\'
    ensures bs == Encode(s)
    decreases |bs|
  {
    hide Next, DecodeWith, Encode;
    if bs == [] {
      DecodeNothing(bs, handler);
      EncodeNothing(s);
    } else {
      FirstIsAscii(bs, handler);
      assert s == [bs[0] as char] + DecodeWith(bs[1..], handler);
      assert s[1..] == DecodeWith(bs[1..], handler) && forall c :: c in s[1..] ==> c in s;
      OnlyAsciiReads(bs[1..], handler, s[1..]);
      EncodeFirst(s);
      assert bs == [bs[0]] + bs[1..];
    }
  }

  lemma EncodeNothing(s: string)
    requires s == []
    ensures Encode(s) == []
  {
  }

  lemma EncodeFirst(s: string)
    requires s != [] && (s[0] as int) < 0x80
    ensures Encode(s) == [s[0] as int] + Encode(s[1..])
  {
  }

  /** Bytes that decode to such text open with its first character. */
  lemma FirstIsAscii(bs: seq<Byte>, handler: Handler)
    requires bs != [] && forall c :: c in DecodeWith(bs, handler) ==> c as int < 0x80 && c != '\\'
    ensures bs[0] < 0x80 && DecodeWith(bs, handler) == [bs[0] as char] + DecodeWith(bs[1..], handler)
  {
    hide Next, DecodeWith;
    DecodeFirst(bs, handler);
    assert DecodeWith(bs, handler)[0] in DecodeWith(bs, handler);
  }

  /** A byte that begins no sequence is shown as its two small hexadecimal digits, or as one replacement character. */
  lemma StrayByte(b: Byte, rest: seq<Byte>)
    requires 0x80 <= b < 0xC2 || 0xF5 <= b
    ensures DecodeWith([b] + rest, Replace) == [0xFFFD as char] + DecodeWith(rest, Replace)
    ensures DecodeWith([b] + rest, BackslashReplace)
      == "\\x" + ["0123456789abcdef"[b / 16], "0123456789abcdef"[b % 16]] + DecodeWith(rest, BackslashReplace)
    ensures !WellFormed([b] + rest)
  {
    hide DecodeWith, Next, HexDigit, HexEscapes;
    StrayHead(b, rest);
    OneEscaped(b);
    HexIs(b / 16);
    HexIs(b % 16);
    DecodeFirst([b] + rest, Replace);
    DecodeFirst([b] + rest, BackslashReplace);
  }

  lemma StrayHead(b: Byte, rest: seq<Byte>)
    requires 0x80 <= b < 0xC2 || 0xF5 <= b
    ensures Next([b] + rest) == Bad(1) && ([b] + rest)[1..] == rest && ([b] + rest)[..1] == [b]
  {
  }

  lemma OneEscaped(b: Byte)
    ensures HexEscapes([b]) == ['\\', 'x', HexDigit(b / 16), HexDigit(b % 16)]
  {
    assert HexEscapes([b][1..]) == "";
  }

  lemma HexIs(n: nat)
    requires n < 16
    ensures HexDigit(n) == "0123456789abcdef"[n]
  {
  }
}
