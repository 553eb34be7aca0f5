/** Tokenizers whose tokens stand for bytes of UTF-8 text, as those of a byte-pair encoder do: a cut between two tokens
    may go through a character. What is left of a text then, and when the overlap pass leaves a piece whole, is the same
    for all of them. */
module ByteTokens {
  import opened Wrappers
  import opened Collections
  import opened Texts
  import opened Chunker
  import Utf8

  /** The bytes that a token stands for. */
  type Spelling = int -> seq<Byte>

  function Bytes(bytesOf: Spelling, tokens: seq<int>): seq<Byte> {
    if tokens == [] then [] else bytesOf(tokens[0]) + Bytes(bytesOf, tokens[1..])
  }

  /** `bytes.decode("utf-8", errors="replace")`. */
  function Decoded(bytes: seq<Byte>): string {
    var (d, text) := Utf8.Feed(Utf8.Idle(true), bytes);
    if d.need > 0 then text + [Utf8.REPLACEMENT] else text
  }

  ghost predicate Spells(tok: Tokenizer, bytesOf: Spelling, s: string) {
    Bytes(bytesOf, tok.encode(s)) == Utf8.Encode(s)
  }

  ghost predicate IsNotSilent(bytesOf: Spelling, t: int) {
    |bytesOf(t)| > 0
  }

  ghost predicate Decodes(tok: Tokenizer, bytesOf: Spelling, tokens: seq<int>) {
    tok.decode(tokens) == Decoded(Bytes(bytesOf, tokens))
  }

  ghost predicate ByteLevel(tok: Tokenizer, bytesOf: Spelling) {
    && (forall t: int :: IsNotSilent(bytesOf, t))
    && (forall s: string :: Spells(tok, bytesOf, s))
    && (forall tokens: seq<int> :: Decodes(tok, bytesOf, tokens))
  }

  lemma {:induction false} BytesAppend(bytesOf: Spelling, a: seq<int>, b: seq<int>)
    ensures Bytes(bytesOf, a + b) == Bytes(bytesOf, a) + Bytes(bytesOf, b)
    decreases |a|
  {
    if a == [] {
      assert a + b == b;
    } else {
      assert (a + b)[1..] == a[1..] + b;
      BytesAppend(bytesOf, a[1..], b);
      Associative(bytesOf(a[0]), Bytes(bytesOf, a[1..]), Bytes(bytesOf, b));
    }
  }

  // ----- text cut between two bytes -----

  /** How many characters have begun within the first `n` bytes. */
  function Begun(s: string, n: nat): (j: nat)
    requires n <= |Utf8.Encode(s)|
    ensures j <= |s|
  {
    if n == 0 then 0
    else
      var w := |Utf8.EncodeChar(s[0])|;
      if n <= w then 1 else 1 + Begun(s[1..], n - w)
  }

  /** How many bytes of the last of them are still to come. */
  function Stray(s: string, n: nat): (m: nat)
    requires n <= |Utf8.Encode(s)|
    ensures m <= 3
  {
    if n == 0 then 0
    else
      var w := |Utf8.EncodeChar(s[0])|;
      if n <= w then w - n else Stray(s[1..], n - w)
  }

  ghost predicate Continuing(bytes: seq<Byte>) {
    forall i :: 0 <= i < |bytes| ==> 0x80 <= bytes[i] <= 0xBF
  }

  lemma RestContinues(c: char, n: nat)
    requires 0 < n <= |Utf8.EncodeChar(c)|
    ensures Continuing(Utf8.EncodeChar(c)[n..])
  {
  }

  /** Bytes from inside a character are replaced one by one. */
  lemma {:induction false} StrayBytes(bytes: seq<Byte>)
    requires Continuing(bytes)
    ensures Utf8.Feed(Utf8.Idle(true), bytes) == (Utf8.Idle(true), Utf8.Replacements(|bytes|))
    decreases |bytes|
  {
    if bytes != [] {
      StrayBytes(bytes[1..]);
      assert Utf8.Step(Utf8.Idle(true), bytes[0]) == (Utf8.Idle(true), [Utf8.REPLACEMENT]);
      assert [Utf8.REPLACEMENT] + Utf8.Replacements(|bytes| - 1) == Utf8.Replacements(|bytes|);
    }
  }

  lemma CutFirst(c: char, rest: string, n: nat)
    requires 0 < n <= |Utf8.EncodeChar(c)|
    ensures Utf8.Feed(Utf8.Idle(true), Utf8.EncodeChar(c)[n..] + Utf8.Encode(rest))
         == (Utf8.Idle(true), Utf8.Replacements(|Utf8.EncodeChar(c)| - n) + rest)
  {
    var bytes := Utf8.EncodeChar(c)[n..];
    RestContinues(c, n);
    StrayBytes(bytes);
    Utf8.RoundTrip(true, rest);
    Utf8.FeedAppend(Utf8.Idle(true), bytes, Utf8.Encode(rest));
  }

  lemma MendedBehind(s: string, m: nat, j: nat)
    requires 1 <= j <= |s|
    ensures Mended(s, m, j) == Mended(s[1..], m, j - 1)
  {
    assert s[1..][j - 1..] == s[j..];
  }

  /** The text without its first `n` bytes: whole characters, behind replacement characters for what is left of the one
      that was cut through. */
  lemma {:induction false} CutText(s: string, n: nat)
    requires n <= |Utf8.Encode(s)|
    ensures Utf8.Feed(Utf8.Idle(true), Utf8.Encode(s)[n..])
         == (Utf8.Idle(true), Mended(s, Stray(s, n), Begun(s, n)))
    decreases |s|
  {
    if n == 0 {
      Utf8.RoundTrip(true, s);
      MendedNothing(s, 0);
      assert s[0..] == s && Utf8.Encode(s)[0..] == Utf8.Encode(s);
    } else {
      var first, rest := Utf8.EncodeChar(s[0]), Utf8.Encode(s[1..]);
      MendedBehind(s, Stray(s, n), Begun(s, n));
      if n <= |first| {
        assert (first + rest)[n..] == first[n..] + rest;
        CutFirst(s[0], s[1..], n);
        assert s[1..][0..] == s[1..];
      } else {
        assert (first + rest)[n..] == rest[n - |first|..];
        CutText(s[1..], n - |first|);
      }
    }
  }

  /** The cut goes no further than the front part of the text if and only if the front part has that many bytes. */
  lemma {:induction false} BegunWithinIff(tail: string, piece: string, n: nat)
    requires n <= |Utf8.Encode(tail + piece)|
    ensures Begun(tail + piece, n) <= |tail| <==> n <= |Utf8.Encode(tail)|
    decreases |tail|
  {
    if tail != "" {
      var w := |Utf8.EncodeChar(tail[0])|;
      assert (tail + piece)[1..] == tail[1..] + piece;
      if n > w {
        BegunWithinIff(tail[1..], piece, n - w);
      }
    }
  }

  // ----- what trimming leaves -----

  /** The bytes of the first `k` tokens. */
  function BytesCut(tok: Tokenizer, bytesOf: Spelling, s: string, k: nat): nat
    requires k <= |tok.encode(s)|
  {
    |Bytes(bytesOf, tok.encode(s)[..k])|
  }

  lemma SplitBytes(tok: Tokenizer, bytesOf: Spelling, s: string, k: nat)
    requires ByteLevel(tok, bytesOf) && k <= |tok.encode(s)|
    ensures BytesCut(tok, bytesOf, s, k) <= |Utf8.Encode(s)|
    ensures Bytes(bytesOf, tok.encode(s)[k..]) == Utf8.Encode(s)[BytesCut(tok, bytesOf, s, k)..]
  {
    var tokens := tok.encode(s);
    assert Spells(tok, bytesOf, s) && tokens == tokens[..k] + tokens[k..];
    BytesAppend(bytesOf, tokens[..k], tokens[k..]);
  }

  /** What is left when the first `k` tokens of a text are cut off. */
  lemma CutTokens(tok: Tokenizer, bytesOf: Spelling, s: string, k: nat)
    requires ByteLevel(tok, bytesOf) && k <= |tok.encode(s)|
    ensures BytesCut(tok, bytesOf, s, k) <= |Utf8.Encode(s)|
    ensures var n := BytesCut(tok, bytesOf, s, k);
            tok.decode(tok.encode(s)[k..]) == Mended(s, Stray(s, n), Begun(s, n))
  {
    SplitBytes(tok, bytesOf, s, k);
    CutText(s, BytesCut(tok, bytesOf, s, k));
    assert Decodes(tok, bytesOf, tok.encode(s)[k..]);
  }

  lemma SomethingLeft(s: string, n: nat)
    requires n < |Utf8.Encode(s)|
    ensures Mended(s, Stray(s, n), Begun(s, n)) != ""
    decreases |s|
  {
    if 0 < n {
      MendedBehind(s, Stray(s, n), Begun(s, n));
      if n > |Utf8.EncodeChar(s[0])| {
        SomethingLeft(s[1..], n - |Utf8.EncodeChar(s[0])|);
      }
    }
  }

  /** Such a tokenizer cuts every text to an end of it. */
  lemma ByteLevelCutsToEnds(tok: Tokenizer, bytesOf: Spelling, s: string)
    requires ByteLevel(tok, bytesOf)
    ensures tok.CutsToEnds(s)
  {
    var tokens := tok.encode(s);
    assert Spells(tok, bytesOf, s);
    forall k | 0 <= k <= |tokens|
      ensures IsEnd(s, tok.decode(tokens[k..])) && (k < |tokens| ==> tok.decode(tokens[k..]) != "")
    {
      var n := BytesCut(tok, bytesOf, s, k);
      CutTokens(tok, bytesOf, s, k);
      EndOf(s, Stray(s, n), Begun(s, n));
      if k < |tokens| {
        SplitBytes(tok, bytesOf, s, k);
        assert IsNotSilent(bytesOf, tokens[k..][0]);
        SomethingLeft(s, n);
      }
    }
  }

  lemma MendedKeeps(tail: string, piece: string, m: nat, j: nat)
    requires j <= |tail + piece|
    ensures j <= |tail| ==> EndsWith(Mended(tail + piece, m, j), piece)
    ensures j > |tail| && piece[0] != Utf8.REPLACEMENT ==> !EndsWith(Mended(tail + piece, m, j), piece)
  {
    var out := Mended(tail + piece, m, j);
    if j <= |tail| {
      assert out[|out| - |piece|..] == piece;
    } else if |piece| <= |out| {
      assert out[|out| - |piece|..][0] == Utf8.REPLACEMENT;
    }
  }

  /** Exactly when trimming leaves the piece whole: the tokens it cuts have no more bytes than the tail. (A piece that
      itself begins with a replacement character might end up behind another.) */
  lemma WholeIff(s: Settings, bytesOf: Spelling, tail: string, piece: string)
    requires ByteLevel(s.tok, bytesOf)
    requires tail != "" && s.overlap > 0 && s.tok.Count(tail + piece) > s.maxTokens
    ensures var k := |s.tok.encode(tail + piece)| - s.maxTokens;
            var fits := BytesCut(s.tok, bytesOf, tail + piece, k) <= |Utf8.Encode(tail)|;
            && (fits ==> Whole(s, tail, piece))
            && (piece == "" || piece[0] != Utf8.REPLACEMENT ==> (Whole(s, tail, piece) <==> fits))
  {
    var whole := tail + piece;
    var k := |s.tok.encode(whole)| - s.maxTokens;
    CutTokens(s.tok, bytesOf, whole, k);
    var n := BytesCut(s.tok, bytesOf, whole, k);
    BegunWithinIff(tail, piece, n);
    MendedKeeps(tail, piece, Stray(whole, n), Begun(whole, n));
  }
}
