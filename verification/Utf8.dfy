/** UTF-8 text: Python's `str.encode` and the streaming `TextDecoder` of the browser, which takes the bytes of a stream
    in arbitrary pieces (the UTF-8 decoder of the WHATWG Encoding Standard, section 8.1.1). Bytes that are no text
    become replacement characters, as with Python's `errors="replace"`. */
module Utf8 {
  import opened Collections
  import opened Wrappers

  const REPLACEMENT := '\U{FFFD}'
  const BYTE_ORDER_MARK := '\U{FEFF}'

  function Replacements(m: nat): (s: string)
    ensures |s| == m && forall i :: 0 <= i < m ==> s[i] == REPLACEMENT
  {
    seq(m, _ => REPLACEMENT)
  }

  function EncodeChar(c: char): seq<Byte> {
    var n := c as int;
    if n < 0x80 then [n]
    else if n < 0x800 then [0xC0 + n / 64, 0x80 + n % 64]
    else if n < 0x10000 then [0xE0 + n / 64 / 64, 0x80 + n / 64 % 64, 0x80 + n % 64]
    else [0xF0 + n / 64 / 64 / 64, 0x80 + n / 64 / 64 % 64, 0x80 + n / 64 % 64, 0x80 + n % 64]
  }

  function Encode(s: string): seq<Byte> {
    if s == "" then [] else EncodeChar(s[0]) + Encode(s[1..])
  }

  /** Between two bytes: how many more the open character needs, the bits read so far, and the range the next byte has
      to be in. `started` tells that the stream has produced a character. */
  datatype Decoder = Decoder(started: bool, need: nat, bits: nat, lower: nat, upper: nat)

  const FRESH := Idle(false)

  function Idle(started: bool): Decoder {
    Decoder(started, 0, 0, 0x80, 0xBF)
  }

  /** A byte order mark is dropped when it is the first character of the stream. */
  function Output(started: bool, text: string): string {
    if !started && text != "" && text[0] == BYTE_ORDER_MARK then text[1..] else text
  }

  function Character(n: nat): char {
    if n < 0xD800 || 0xE000 <= n < 0x110000 then n as char else REPLACEMENT
  }

  /** A byte where a character has to begin. */
  function Lead(started: bool, b: Byte): (Decoder, string) {
    if b < 0x80 then (Idle(true), [b as char])
    else if 0xC2 <= b <= 0xDF then (Decoder(started, 1, b - 0xC0, 0x80, 0xBF), "")
    else if 0xE0 <= b <= 0xEF then
      (Decoder(started, 2, b - 0xE0, if b == 0xE0 then 0xA0 else 0x80, if b == 0xED then 0x9F else 0xBF), "")
    else if 0xF0 <= b <= 0xF4 then
      (Decoder(started, 3, b - 0xF0, if b == 0xF0 then 0x90 else 0x80, if b == 0xF4 then 0x8F else 0xBF), "")
    else (Idle(true), [REPLACEMENT])
  }

  function Step(d: Decoder, b: Byte): (Decoder, string) {
    if d.need == 0 then
      var (next, text) := Lead(d.started, b);
      (next, Output(d.started, text))
    else if b < d.lower || d.upper < b then
      var (next, text) := Lead(true, b);
      (next, [REPLACEMENT] + text)
    else
      var bits := d.bits * 64 + (if b >= 0x80 then b - 0x80 else 0);
      if d.need == 1 then (Idle(true), Output(d.started, [Character(bits)]))
      else (Decoder(d.started, d.need - 1, bits, 0x80, 0xBF), "")
  }

  /** `decoder.decode(bytes, { stream: true })`. */
  function Feed(d: Decoder, bytes: seq<Byte>): (Decoder, string)
    decreases |bytes|
  {
    if bytes == [] then (d, "")
    else
      var (d1, text) := Step(d, bytes[0]);
      var (d2, more) := Feed(d1, bytes[1..]);
      (d2, text + more)
  }

  /** Where the stream is cut makes no difference to the text. */
  lemma {:induction false} FeedAppend(d: Decoder, a: seq<Byte>, b: seq<Byte>)
    ensures Feed(d, a + b) == (Feed(Feed(d, a).0, b).0, Feed(d, a).1 + Feed(Feed(d, a).0, b).1)
    decreases |a|
  {
    if a == [] {
      assert a + b == b;
      assert "" + Feed(d, b).1 == Feed(d, b).1;
    } else {
      var (d1, text) := Step(d, a[0]);
      assert (a + b)[1..] == a[1..] + b;
      FeedAppend(d1, a[1..], b);
      Associative(text, Feed(d1, a[1..]).1, Feed(Feed(d1, a[1..]).0, b).1);
    }
  }

  lemma FeedOne(d: Decoder, b: Byte)
    ensures Feed(d, [b]) == Step(d, b)
  {
    assert [b][1..] == [];
    assert Step(d, b).1 + "" == Step(d, b).1;
  }

  lemma FeedMore(d: Decoder, b: Byte, rest: seq<Byte>)
    requires Step(d, b).1 == ""
    ensures Feed(d, [b] + rest) == Feed(Step(d, b).0, rest)
  {
    assert ([b] + rest)[1..] == rest;
    var text := Feed(Step(d, b).0, rest).1;
    assert "" + text == text;
  }

  lemma TwoBytes(started: bool, p: Byte, q: Byte, n: nat)
    requires 0x80 <= n < 0x800 && p == 0xC0 + n / 64 && q == 0x80 + n % 64
    ensures Feed(Idle(started), [p, q]) == (Idle(true), Output(started, [n as char]))
  {
    FeedMore(Idle(started), p, [q]);
    FeedOne(Decoder(started, 1, p - 0xC0, 0x80, 0xBF), q);
  }

  lemma ThreeBytes(started: bool, p: Byte, q: Byte, r: Byte, n: nat)
    requires 0x800 <= n < 0xD800 || 0xE000 <= n < 0x10000
    requires p == 0xE0 + n / 64 / 64 && q == 0x80 + n / 64 % 64 && r == 0x80 + n % 64
    ensures Feed(Idle(started), [p, q, r]) == (Idle(true), Output(started, [n as char]))
  {
    var d1 := Lead(started, p).0;
    var d2 := Decoder(started, 1, n / 64, 0x80, 0xBF);
    FeedMore(Idle(started), p, [q, r]);
    assert Step(d1, q) == (d2, "");
    FeedMore(d1, q, [r]);
    FeedOne(d2, r);
  }

  lemma FourBytes(started: bool, p: Byte, q: Byte, r: Byte, s: Byte, n: nat)
    requires 0x10000 <= n < 0x110000
    requires p == 0xF0 + n / 64 / 64 / 64 && q == 0x80 + n / 64 / 64 % 64
    requires r == 0x80 + n / 64 % 64 && s == 0x80 + n % 64
    ensures Feed(Idle(started), [p, q, r, s]) == (Idle(true), Output(started, [n as char]))
  {
    var d1 := Lead(started, p).0;
    var d2 := Decoder(started, 2, n / 64 / 64, 0x80, 0xBF);
    var d3 := Decoder(started, 1, n / 64, 0x80, 0xBF);
    FeedMore(Idle(started), p, [q, r, s]);
    assert Step(d1, q) == (d2, "");
    FeedMore(d1, q, [r, s]);
    FeedMore(d2, r, [s]);
    FeedOne(d3, s);
  }

  lemma CharRoundTrip(started: bool, c: char)
    ensures Feed(Idle(started), EncodeChar(c)) == (Idle(true), Output(started, [c]))
  {
    var n, b := c as int, EncodeChar(c);
    if n < 0x80 {
      FeedOne(Idle(started), n);
    } else if n < 0x800 {
      TwoBytes(started, b[0], b[1], n);
    } else if n < 0x10000 {
      ThreeBytes(started, b[0], b[1], b[2], n);
    } else {
      FourBytes(started, b[0], b[1], b[2], b[3], n);
    }
  }

  /** Decoding undoes encoding, for every text that does not begin with a byte order mark. */
  lemma {:induction false} RoundTrip(started: bool, s: string)
    requires !started && s != "" ==> s[0] != BYTE_ORDER_MARK
    ensures Feed(Idle(started), Encode(s)) == (Idle(started || s != ""), s)
    decreases |s|
  {
    if s != "" {
      CharRoundTrip(started, s[0]);
      RoundTrip(true, s[1..]);
      FeedAppend(Idle(started), EncodeChar(s[0]), Encode(s[1..]));
      assert s == [s[0]] + s[1..];
    }
  }

  lemma {:induction false} EncodeAppend(s: string, t: string)
    ensures Encode(s + t) == Encode(s) + Encode(t)
    decreases |s|
  {
    if s == "" {
      assert s + t == t;
    } else {
      assert (s + t)[1..] == s[1..] + t;
      EncodeAppend(s[1..], t);
    }
  }
}
