/** How much of a chunk the next one of its section begins with, and what becomes of a section that fits. */
module Overlap {
  import opened Collections
  import opened Wrappers
  import opened Texts
  import opened Parser
  import opened Splitter
  import opened Chunker

  /** Of the n tokens of a text the last `overlap`; the text itself when there are no more than that. */
  ghost predicate HandsOn(s: Settings, text: string, tail: string) {
    var tokens := s.tok.encode(text);
    if s.overlap == 0 || text == "" then tail == ""
    else if |tokens| <= s.overlap then tail == text
    else tail == s.tok.decode(tokens[|tokens| - s.overlap..])
  }

  /** A tail and the piece behind it; what is over the cap keeps its last `maxTokens` tokens. */
  ghost predicate Combines(s: Settings, tail: string, piece: string, text: string) {
    var whole := tail + piece;
    var tokens := s.tok.encode(whole);
    if tail == "" || s.tok.Count(whole) <= s.maxTokens || |tokens| <= s.maxTokens then text == whole
    else text == s.tok.decode(tokens[|tokens| - s.maxTokens..])
  }

  lemma TailHandsOn(s: Settings, text: string)
    ensures HandsOn(s, text, TailForOverlap(s, text))
  {
  }

  lemma OverlapCombines(s: Settings, tail: string, piece: string)
    requires s.overlap == 0 ==> tail == ""
    ensures Combines(s, tail, piece, Overlapped(s, tail, piece))
  {
    if tail == "" {
      NothingAhead(piece);
    }
  }

  lemma NothingAhead(piece: string)
    ensures "" + piece == piece
  {
  }

  /** The texts made of the first `i` pieces. */
  function Before(s: Settings, pieces: seq<string>, i: nat): seq<string>
    requires i <= |pieces|
  {
    Bodies(s, pieces[..i])
  }

  /** What stands in front of the next piece: nothing at the start of a section, and otherwise what the text before it
      hands on. */
  ghost predicate IsTail(s: Settings, texts: seq<string>, tail: string) {
    if texts == [] then tail == "" else HandsOn(s, texts[|texts| - 1], tail)
  }

  lemma TailOfIsTail(s: Settings, texts: seq<string>)
    ensures IsTail(s, texts, TailOf(s, texts)) && (s.overlap == 0 ==> TailOf(s, texts) == "")
  {
    if texts != [] {
      TailHandsOn(s, texts[|texts| - 1]);
    }
  }

  function Added(texts: seq<string>, text: string): seq<string> {
    if text == "" then texts else texts + [text]
  }

  /** For every tokenizer: piece `i` of an over-long section adds one text to those of the pieces before it, unless it
      is blank. The text is the piece behind the last `overlap` tokens of the text before it, cut to its last
      `maxTokens` tokens when it is over the cap, and stripped. */
  lemma NextText(s: Settings, pieces: seq<string>, i: nat) returns (tail: string, text: string)
    requires i < |pieces|
    ensures i == 0 ==> Before(s, pieces, i) == []
    ensures IsTail(s, Before(s, pieces, i), tail) && Combines(s, tail, pieces[i], text)
    ensures Before(s, pieces, i + 1) == Added(Before(s, pieces, i), Strip(text))
  {
    var texts := Before(s, pieces, i);
    tail := TailOf(s, texts);
    text := Overlapped(s, tail, pieces[i]);
    TailOfIsTail(s, texts);
    OverlapCombines(s, tail, pieces[i]);
    BodiesStep(s, pieces, i, texts, Strip(text));
  }

  /** These are the texts of the section: none when it is blank, one when it fits, and otherwise those of its pieces. */
  lemma SectionTexts(s: Settings, section: Section)
    requires s.Valid()
    ensures var text := Strip(section.text);
            && (text == "" ==> Chunks(s, [section]) == [])
            && (text != "" && s.tok.Count(text) <= s.maxTokens ==>
                  Chunks(s, [section]) == [Chunk(text, section.title, 0, s.tok.Count(text), section.page)])
            && (text != "" && s.tok.Count(text) > s.maxTokens ==>
                  SectionBodies(s, section) == Before(s, Pieces(s.SplitRules(), 0, text),
                                                      |Pieces(s.SplitRules(), 0, text)|))
  {
    OneSection(s, section);
    var pieces := Pieces(s.SplitRules(), 0, Strip(section.text));
    assert pieces[..|pieces|] == pieces;
  }

  /** In a document of any sections a section that fits is one chunk, with its stripped text. */
  lemma FittingSectionIsOneChunk(s: Settings, sections: seq<Section>, j: nat)
    requires s.Valid() && j < |sections| && Strip(sections[j].text) != ""
    requires s.tok.Count(Strip(sections[j].text)) <= s.maxTokens
    ensures var chunks, n := Chunks(s, sections), |Chunks(s, sections[..j])|;
            && n < |chunks| && |Chunks(s, sections[..j + 1])| == n + 1
            && chunks[n] == Chunk(Strip(sections[j].text), sections[j].title, n,
                                  s.tok.Count(Strip(sections[j].text)), sections[j].page)
  {
    ChunkOfSection(s, Chunker.TextsOf(s), sections, j, 0);
    AssembleStep(s, Chunker.TextsOf(s), sections, j);
  }

  lemma OnePerCharCombines(s: Settings, tail: string, piece: string, text: string)
    requires s.tok.OnePerChar() && |tail| + |piece| <= s.maxTokens && Combines(s, tail, piece, text)
    ensures text == tail + piece
  {
    assert s.tok.OnePerCharOf(tail + piece);
  }

  /** The last `n` characters. */
  function End(text: string, n: nat): string {
    text[|text| - Least(n, |text|)..]
  }

  lemma OnePerCharHandsOn(s: Settings, text: string, tail: string)
    requires s.tok.OnePerChar() && HandsOn(s, text, tail)
    ensures tail == End(text, s.overlap)
  {
    assert s.tok.OnePerCharOf(text);
    if s.overlap == 0 || text == "" {
      assert text[|text|..] == "";
    } else if |text| <= s.overlap {
      assert text[0..] == text;
    }
  }

  lemma PieceShows(tail: string, piece: string)
    requires !Blank(piece)
    ensures Strip(tail + piece) != ""
  {
    LeadingBehind(tail, piece);
  }

  lemma PerCharStep(s: Settings, texts: seq<string>, tail: string, piece: string, text: string)
    requires s.tok.OnePerChar() && texts != [] && IsTail(s, texts, tail) && Combines(s, tail, piece, text)
    requires s.overlap + |piece| <= s.maxTokens
    ensures text == End(texts[|texts| - 1], s.overlap) + piece
  {
    OnePerCharHandsOn(s, texts[|texts| - 1], tail);
    OnePerCharCombines(s, tail, piece, text);
  }

  /** With one token per character, and room for it: the next text of the section is the last `overlap` characters of
      the text before it, followed by its own piece, stripped. */
  lemma NextTextPerChar(s: Settings, pieces: seq<string>, i: nat)
    requires s.tok.OnePerChar() && i < |pieces| && Before(s, pieces, i) != []
    requires s.overlap + |pieces[i]| <= s.maxTokens && !Blank(pieces[i])
    ensures var texts := Before(s, pieces, i);
            Before(s, pieces, i + 1) == texts + [Strip(End(texts[|texts| - 1], s.overlap) + pieces[i])]
  {
    var texts := Before(s, pieces, i);
    var tail, text := NextText(s, pieces, i);
    PerCharStep(s, texts, tail, pieces[i], text);
    PieceShows(End(texts[|texts| - 1], s.overlap), pieces[i]);
  }

  // ----- what is refused, and what counts -----

  /** Exactly which arguments are refused, the first of the three errors that applies. */
  lemma RefusedIff(targetTokens: int, maxTokens: int, overlapRatio: real)
    ensures Validated(targetTokens, maxTokens, overlapRatio) == None
       <==> targetTokens > 0 && maxTokens >= targetTokens && 0.0 <= overlapRatio < 1.0
    ensures targetTokens <= 0 ==> Validated(targetTokens, maxTokens, overlapRatio) == Some(TargetNotPositive)
    ensures 0 < targetTokens && maxTokens < targetTokens ==>
              Validated(targetTokens, maxTokens, overlapRatio) == Some(MaxBelowTarget)
    ensures 0 < targetTokens <= maxTokens && !(0.0 <= overlapRatio < 1.0) ==>
              Validated(targetTokens, maxTokens, overlapRatio) == Some(RatioOutOfRange)
  {
  }

  /** Whitespace counts nothing, anything else as many tokens as it encodes to. */
  lemma CountOfText(tok: Tokenizer, text: string)
    ensures tok.Count(text) == if Blank(text) then 0 else |tok.encode(text)|
  {
  }
}
