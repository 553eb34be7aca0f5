/** What a parsed document holds, told from the elements it was made of. */
module Elements {
  import opened Collections
  import opened Wrappers
  import opened Texts
  import opened Parser

  predicate IsHeading(e: Element) {
    e.category == "Title" && Strip(e.text) != ""
  }

  predicate IsBody(e: Element) {
    e.category != "Title" && Strip(e.text) != ""
  }

  /** The element takes its section to another page. */
  predicate MovesPage(e: Element) {
    IsBody(e) && e.category in {"NarrativeText", "Text", "ListItem", "Table"} && e.page.Some?
  }

  function HeadingText(e: Element): string {
    var text := Strip(e.text);
    text[..Least(255, |text|)]
  }

  /** 1 to 3; a heading without a depth is of the first level. */
  function LevelOf(e: Element): Option<int> {
    if e.depth.None? || e.depth.value < 1 then Some(1) else if e.depth.value > 3 then Some(3) else e.depth
  }

  /** The texts outside headings, stripped, without blank ones. */
  function BodyTexts(es: seq<Element>): seq<string> {
    if es == [] then [] else (if IsBody(es[0]) then [Strip(es[0].text)] else []) + BodyTexts(es[1..])
  }

  lemma HeadingPiece(e: Element)
    ensures Classify(e).Title? <==> IsHeading(e)
    ensures IsHeading(e) ==> Classify(e) == Title(HeadingText(e), LevelOf(e), e.page)
  {
    var text := Strip(e.text);
    assert text[..|text|] == text;
  }

  lemma BodyPiece(e: Element)
    ensures Classify(e).Paragraph? <==> IsBody(e)
    ensures IsBody(e) ==> Classify(e).text == Strip(e.text)
    ensures TurnsPage(Classify(e)) <==> MovesPage(e)
    ensures MovesPage(e) ==> Classify(e).turnsTo == e.page
  {
  }

  lemma ClassifiedRest(es: seq<Element>, n: nat)
    requires n <= |es|
    ensures Classified(es)[n..] == Classified(es[n..]) && Classified(es)[..n] == Classified(es[..n])
  {
  }

  lemma {:induction false} ParagraphsAreBodies(es: seq<Element>)
    ensures Paragraphs(Classified(es)) == BodyTexts(es)
    decreases |es|
  {
    if es != [] {
      ClassifiedRest(es, 1);
      ParagraphsAreBodies(es[1..]);
      BodyPiece(es[0]);
    }
  }

  /** The text of a parsed document: the stripped texts of all its elements that are no headings, blank ones left out,
      in order, with a blank line between them. */
  lemma FullTextOfElements(es: seq<Element>)
    ensures FullText(ParsedDoc(Sections(Classified(es)), DocTitle(Sections(Classified(es)))))
         == Join("\n\n", BodyTexts(es))
  {
    FullTextIsParagraphs(es);
    ParagraphsAreBodies(es);
  }

  // ----- its sections -----

  /** The first element with the property from `from` on, or the end. */
  function NextWith(es: seq<Element>, p: Element -> bool, from: nat): (n: nat)
    requires from <= |es|
    ensures from <= n <= |es| && (n < |es| ==> p(es[n]))
    decreases |es| - from
  {
    if from == |es| || p(es[from]) then from else NextWith(es, p, from + 1)
  }

  function NextHeading(es: seq<Element>, from: nat): (n: nat)
    requires from <= |es|
    ensures from <= n <= |es|
  {
    NextWith(es, (e: Element) => IsHeading(e), from)
  }

  /** The page reached by reading the elements, beginning on `start`: that of the last to move it. */
  ghost predicate PageReached(es: seq<Element>, start: Option<int>, page: Option<int>) {
    || (page == start && forall j :: 0 <= j < |es| ==> !MovesPage(es[j]))
    || (exists i :: 0 <= i < |es| && MovesPage(es[i]) && page == es[i].page
          && forall j :: i < j < |es| ==> !MovesPage(es[j]))
  }

  function Between(es: seq<Element>, from: nat): seq<Element>
    requires from <= |es|
  {
    es[from..NextHeading(es, from)]
  }

  /** The section holds the elements from `from` to the next heading. */
  ghost predicate HoldsFrom(es: seq<Element>, from: nat, page: Option<int>, section: Section) {
    && from <= |es| && BodyTexts(Between(es, from)) != []
    && section.text == Join("\n\n", BodyTexts(Between(es, from))) && PageReached(Between(es, from), page, section.page)
  }

  /** It is the section of heading `i`; -1 stands for the text ahead of every heading. */
  ghost predicate IsSectionOf(es: seq<Element>, i: int, section: Section) {
    if i == -1 then HoldsFrom(es, 0, None, section) && section.title == "(untitled)" && section.level == None
    else
      && 0 <= i < |es| && IsHeading(es[i]) && HoldsFrom(es, i + 1, es[i].page, section)
      && section.title == HeadingText(es[i]) && section.level == LevelOf(es[i])
  }

  /** These are the sections of heading `i` and those behind it, one for each that has text before the next. */
  ghost predicate SectionsFrom(es: seq<Element>, i: int, sections: seq<Section>)
    requires -1 <= i < |es|
    decreases |es| - i
  {
    var n, empty := NextHeading(es, i + 1), BodyTexts(Between(es, i + 1)) == [];
    && (empty || (sections != [] && IsSectionOf(es, i, sections[0])))
    && var rest := if empty then sections else sections[1..];
       if n == |es| then rest == [] else SectionsFrom(es, n, rest)
  }

  lemma {:induction false} FirstTitleIs(ps: seq<Piece>, es: seq<Element>, p: Element -> bool, from: nat)
    requires from <= |ps| == |es| && forall j :: 0 <= j < |es| ==> (ps[j].Title? <==> p(es[j]))
    ensures FirstTitle(ps[from..]) == NextWith(es, p, from) - from
    decreases |es| - from
  {
    if from < |es| {
      assert ps[from..][0] == ps[from] && ps[from..][1..] == ps[from + 1..];
      if !p(es[from]) {
        FirstTitleIs(ps, es, p, from + 1);
      }
    }
  }

  lemma FirstTitleIsNext(es: seq<Element>, from: nat)
    requires from <= |es|
    ensures FirstTitle(Classified(es)[from..]) == NextHeading(es, from) - from
  {
    var p := (e: Element) => IsHeading(e);
    forall j | 0 <= j < |es| ensures Classified(es)[j].Title? <==> p(es[j]) {
      HeadingPiece(es[j]);
    }
    FirstTitleIs(Classified(es), es, p, from);
  }

  lemma HeadingAt(es: seq<Element>, from: nat)
    requires from <= |es| && NextHeading(es, from) < |es|
    ensures IsHeading(es[NextHeading(es, from)])
  {
  }

  lemma ClassifiedPart(es: seq<Element>, from: nat, n: nat)
    requires from <= n <= |es|
    ensures Classified(es)[from..][..n - from] == Classified(es[from..n])
  {
    SliceInside(Classified(es), from, n);
  }

  lemma SliceInside<T>(xs: seq<T>, from: nat, n: nat)
    requires from <= n <= |xs|
    ensures xs[from..][..n - from] == xs[from..n]
  {
  }

  lemma HeadIsBetween(es: seq<Element>, from: nat)
    requires from <= |es|
    ensures Head(Classified(es)[from..]) == Classified(Between(es, from))
  {
    FirstTitleIsNext(es, from);
    ClassifiedPart(es, from, NextHeading(es, from));
  }

  lemma LatestIsReached(es: seq<Element>, start: Option<int>)
    ensures PageReached(es, start, LatestPage(start, Classified(es)))
  {
    forall j | 0 <= j < |es| ensures TurnsPage(Classified(es)[j]) <==> MovesPage(es[j]) {
      BodyPiece(es[j]);
    }
    if forall j :: 0 <= j < |es| ==> !MovesPage(es[j]) {
      PageStays(start, Classified(es));
    } else {
      var i := LastMover(es);
      LatestPageIsLast(start, Classified(es), i);
      BodyPiece(es[i]);
    }
  }

  lemma {:induction false} LastWith(es: seq<Element>, p: Element -> bool, n: nat) returns (i: nat)
    requires n <= |es| && exists j :: 0 <= j < n && p(es[j])
    ensures i < n && p(es[i]) && forall j :: i < j < n ==> !p(es[j])
    decreases n
  {
    if p(es[n - 1]) {
      i := n - 1;
    } else {
      i := LastWith(es, p, n - 1);
    }
  }

  lemma LastMover(es: seq<Element>) returns (i: nat)
    requires exists j :: 0 <= j < |es| && MovesPage(es[j])
    ensures i < |es| && MovesPage(es[i]) && forall j :: i < j < |es| ==> !MovesPage(es[j])
  {
    var p := (e: Element) => MovesPage(e);
    var j :| 0 <= j < |es| && MovesPage(es[j]);
    assert p(es[j]);
    i := LastWith(es, p, |es|);
    forall j | i < j < |es| ensures !MovesPage(es[j]) {
      assert !p(es[j]);
    }
  }

  /** What one group of pieces makes. */
  lemma GroupHolds(es: seq<Element>, from: nat, title: string, level: Option<int>, page: Option<int>)
    requires from <= |es|
    ensures var group := Head(Classified(es)[from..]);
            var here := SectionOf(title, level, LatestPage(page, group), Paragraphs(group));
            && (here == [] <==> BodyTexts(Between(es, from)) == []) && |here| <= 1
            && (here != [] ==> HoldsFrom(es, from, page, here[0]) && here[0].title == title && here[0].level == level)
  {
    HeadIsBetween(es, from);
    ParagraphsAreBodies(Between(es, from));
    LatestIsReached(Between(es, from), page);
  }

  lemma PartAt(es: seq<Element>, from: nat, n: nat)
    requires from <= n < |es|
    ensures Classified(es)[from..][n - from] == Classify(es[n])
    ensures Classified(es)[from..][n - from + 1..] == Classified(es)[n + 1..]
  {
  }

  lemma NothingLater(ps: seq<Piece>)
    requires FirstTitle(ps) == |ps|
    ensures Later(ps) == []
  {
  }

  lemma NextGroup(es: seq<Element>, from: nat, n: nat, o: Opening, ps: seq<Piece>, rest: seq<Piece>)
    requires from <= |es| && n == NextHeading(es, from) < |es| && ps == Classified(es)[from..]
    requires n - from < |ps| && AsTitle(o) == ps[n - from]
    requires rest == Classified(es)[n + 1..] && rest == ps[n - from + 1..]
    ensures Later(ps) == GroupOf(es, n, o)
  {
    FirstTitleIsNext(es, from);
    LaterOpens(ps, n - from, AsTitle(o), rest);
    GroupOfRest(es, n, o, rest);
  }

  lemma GroupOfRest(es: seq<Element>, n: nat, o: Opening, rest: seq<Piece>)
    requires n < |es| && rest == Classified(es)[n + 1..]
    ensures GroupOf(es, n, o) == GroupByTitle(o.title, o.level, o.page, rest)
  {
  }

  function AsTitle(o: Opening): Piece {
    Title(o.title, o.level, o.page)
  }

  lemma NothingNext(es: seq<Element>, from: nat)
    requires from <= |es| && NextHeading(es, from) == |es|
    ensures Later(Classified(es)[from..]) == []
  {
    FirstTitleIsNext(es, from);
    NothingLater(Classified(es)[from..]);
  }

  lemma NextIsTitle(es: seq<Element>, from: nat, n: nat)
    requires from <= |es| && n == NextHeading(es, from) < |es|
    ensures var ps := Classified(es)[from..];
            && ps[n - from] == Title(HeadingText(es[n]), LevelOf(es[n]), es[n].page)
            && ps[n - from + 1..] == Classified(es)[n + 1..]
  {
    HeadingAt(es, from);
    HeadingPiece(es[n]);
    PartAt(es, from, n);
  }

  lemma OneSectionMore(es: seq<Element>, i: int, here: seq<Section>, later: seq<Section>)
    requires -1 <= i < |es| && |here| <= 1 && (here == [] <==> BodyTexts(Between(es, i + 1)) == [])
    requires here != [] ==> IsSectionOf(es, i, here[0])
    requires var n := NextHeading(es, i + 1); if n == |es| then later == [] else SectionsFrom(es, n, later)
    ensures SectionsFrom(es, i, here + later)
  {
    if here == [] {
      assert here + later == later;
    } else {
      assert (here + later)[1..] == later;
    }
  }

  /** The heading is that of element `i`, or the placeholder ahead of the first. */
  ghost predicate Heads(es: seq<Element>, i: int, title: string, level: Option<int>, page: Option<int>) {
    if i == -1 then title == "(untitled)" && level == None && page == None
    else
      && 0 <= i < |es| && IsHeading(es[i])
      && title == HeadingText(es[i]) && level == LevelOf(es[i]) && page == es[i].page
  }

  lemma GroupIsSection(es: seq<Element>, i: int, title: string, level: Option<int>, page: Option<int>,
                       section: Section)
    requires Heads(es, i, title, level, page) && -1 <= i < |es|
    requires HoldsFrom(es, i + 1, page, section) && section.title == title && section.level == level
    ensures IsSectionOf(es, i, section)
  {
  }

  lemma Here(es: seq<Element>, i: int, title: string, level: Option<int>, page: Option<int>)
    returns (here: seq<Section>)
    requires -1 <= i < |es| && Heads(es, i, title, level, page)
    ensures |here| <= 1 && (here == [] <==> BodyTexts(Between(es, i + 1)) == [])
    ensures here != [] ==> IsSectionOf(es, i, here[0])
    ensures GroupByTitle(title, level, page, Classified(es)[i + 1..]) == here + Later(Classified(es)[i + 1..])
  {
    var group := Head(Classified(es)[i + 1..]);
    here := SectionOf(title, level, LatestPage(page, group), Paragraphs(group));
    GroupHolds(es, i + 1, title, level, page);
    if here != [] {
      GroupIsSection(es, i, title, level, page, here[0]);
    }
  }

  /** What a heading opens. */
  datatype Opening = Opening(title: string, level: Option<int>, page: Option<int>)

  ghost predicate Opens(es: seq<Element>, i: int, o: Opening) {
    Heads(es, i, o.title, o.level, o.page)
  }

  function GroupOf(es: seq<Element>, i: int, o: Opening): seq<Section>
    requires -1 <= i < |es|
  {
    GroupByTitle(o.title, o.level, o.page, Classified(es)[i + 1..])
  }

  lemma GroupStep(es: seq<Element>, i: int, o: Opening, all: seq<Section>)
    returns (here: seq<Section>, later: seq<Section>, next: Opening)
    requires -1 <= i < |es| && Opens(es, i, o) && all == GroupOf(es, i, o)
    ensures all == here + later && |here| <= 1 && (here == [] <==> BodyTexts(Between(es, i + 1)) == [])
    ensures here != [] ==> IsSectionOf(es, i, here[0])
    ensures var n := NextHeading(es, i + 1);
            if n == |es| then later == [] else Opens(es, n, next) && later == GroupOf(es, n, next)
  {
    here := Here(es, i, o.title, o.level, o.page);
    later := Later(Classified(es)[i + 1..]);
    next := NextOpening(es, i + 1, NextHeading(es, i + 1), o);
  }

  lemma NextOpening(es: seq<Element>, from: nat, n: nat, none: Opening) returns (next: Opening)
    requires from <= |es| && n == NextHeading(es, from)
    ensures if n == |es| then Later(Classified(es)[from..]) == []
            else Opens(es, n, next) && Later(Classified(es)[from..]) == GroupOf(es, n, next)
  {
    if n == |es| {
      NothingNext(es, from);
      next := none;
    } else {
      HeadingAt(es, from);
      NextIsTitle(es, from, n);
      next := Opening(HeadingText(es[n]), LevelOf(es[n]), es[n].page);
      NextGroup(es, from, n, next, Classified(es)[from..], Classified(es)[n + 1..]);
    }
  }

  lemma {:induction false} GroupsFrom(es: seq<Element>, i: int, o: Opening, all: seq<Section>)
    requires -1 <= i < |es| && Opens(es, i, o) && all == GroupOf(es, i, o)
    ensures SectionsFrom(es, i, all)
    decreases |es| - i
  {
    var here, later, next := GroupStep(es, i, o, all);
    if NextHeading(es, i + 1) < |es| {
      GroupsFrom(es, NextHeading(es, i + 1), next, later);
    }
    OneSectionMore(es, i, here, later);
  }

  /** The sections of a parsed document are those of its headings that have text before the next one, in order, behind
      one for the text ahead of all headings: each with the first 255 characters of its heading, the texts joined by
      blank lines, and the page of the last recognised body element with one, or else that of the heading. */
  lemma SectionsOfElements(es: seq<Element>)
    ensures if es == [] then Sections(Classified(es)) == [] else SectionsFrom(es, -1, Sections(Classified(es)))
  {
    if es == [] {
      assert Classified(es) == [] && Head([]) == [];
      assert Paragraphs([]) == [] && Later([]) == [];
    } else {
      assert Classified(es)[0..] == Classified(es);
      GroupsFrom(es, -1, Opening("(untitled)", None, None), Sections(Classified(es)));
    }
  }

  /** The document is named after the first of its sections whose title is neither empty nor the placeholder. */
  lemma {:induction false} DocumentName(sections: seq<Section>, k: nat)
    requires k <= |sections| && forall j :: 0 <= j < k ==> sections[j].title in {"", "(untitled)"}
    requires k < |sections| ==> sections[k].title !in {"", "(untitled)"}
    ensures DocTitle(sections) == if k < |sections| then Some(sections[k].title) else None
    decreases |sections|
  {
    if k > 0 {
      DocumentName(sections[1..], k - 1);
    }
  }
}
