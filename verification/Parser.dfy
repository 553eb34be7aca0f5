/** Parsed documents: the elements of a document folded into sections, one for each heading that has text. `Classify`
    says what an element is to the sections, `GroupByTitle` is the grouping, and `Collect` the loop as written. What the
    sections hold is told in terms of the pieces here; `Elements` tells it from the elements. */
module Parser {
  import opened Collections
  import opened Wrappers
  import opened Texts

  /** One section of a parsed document. */
  datatype Section = Section(title: string, level: Option<int>, text: string, page: Option<int>)

  datatype ParsedDoc = ParsedDoc(sections: seq<Section>, title: Option<string>)

  datatype ParserError = EmptyDocument

  /** What the partitioning library found; a missing category or text counts as an empty one. */
  datatype Element = Element(category: string, text: string, page: Option<int>, depth: Option<int>)

  /** What an element is to the sections: nothing, a heading, or a paragraph that may turn the page. */
  datatype Piece =
    | Nothing
    | Title(heading: string, level: Option<int>, page: Option<int>)
    | Paragraph(text: string, turnsTo: Option<int>)

  const UNTITLED := "(untitled)"
  const MAX_HEADING_LEVEL := 3
  const MAX_TITLE := 255
  const BODY_CATEGORIES := {"NarrativeText", "Text", "ListItem", "Table"}

  /** The nearest level there is; without a depth it is the first. */
  function NormalizeLevel(depth: Option<int>): (level: Option<int>)
    ensures level.Some? && 1 <= level.value <= MAX_HEADING_LEVEL
    ensures depth.None? ==> level == Some(1)
    ensures depth.Some? && depth.value < 1 ==> level == Some(1)
    ensures depth.Some? && depth.value > MAX_HEADING_LEVEL ==> level == Some(MAX_HEADING_LEVEL)
    ensures depth.Some? && 1 <= depth.value <= MAX_HEADING_LEVEL ==> level == depth
  {
    if depth.None? || depth.value < 1 then Some(1)
    else Some(if depth.value < MAX_HEADING_LEVEL then depth.value else MAX_HEADING_LEVEL)
  }

  function Capped(text: string): string {
    if |text| > MAX_TITLE then text[..MAX_TITLE] else text
  }

  function Classify(e: Element): Piece {
    var text := Strip(e.text);
    if text == "" then Nothing
    else if e.category == "Title" then
      Title(Capped(text), if e.depth.Some? && e.depth.value != 0 then NormalizeLevel(e.depth) else Some(1), e.page)
    else Paragraph(text, if e.category in BODY_CATEGORIES then e.page else None)
  }

  function Classified(es: seq<Element>): seq<Piece> {
    seq(|es|, i requires 0 <= i < |es| => Classify(es[i]))
  }

  // ----- grouping by title -----

  function FirstTitle(ps: seq<Piece>): (n: nat)
    ensures n <= |ps| && (n < |ps| ==> ps[n].Title?)
    ensures forall i :: 0 <= i < n ==> !ps[i].Title?
  {
    if ps == [] || ps[0].Title? then 0 else 1 + FirstTitle(ps[1..])
  }

  /** The pieces before the first title. */
  function Head(ps: seq<Piece>): seq<Piece> {
    ps[..FirstTitle(ps)]
  }

  /** The texts of the paragraphs, in order. */
  function Paragraphs(ps: seq<Piece>): seq<string> {
    if ps == [] then [] else (if ps[0].Paragraph? then [ps[0].text] else []) + Paragraphs(ps[1..])
  }

  predicate TurnsPage(p: Piece) {
    p.Paragraph? && p.turnsTo.Some?
  }

  function Turned(page: Option<int>, p: Piece): Option<int> {
    if TurnsPage(p) then p.turnsTo else page
  }

  /** The page after reading the pieces, beginning on `page`. */
  function LatestPage(page: Option<int>, ps: seq<Piece>): Option<int>
    decreases |ps|
  {
    if ps == [] then page else LatestPage(Turned(page, ps[0]), ps[1..])
  }

  /** A section for these paragraphs, unless there are none. */
  function SectionOf(title: string, level: Option<int>, page: Option<int>, texts: seq<string>): seq<Section> {
    if texts == [] then [] else [Section(title, level, Join(BLANK_LINE, texts), page)]
  }

  /** The pieces up to the next title make one section under the current heading; the title opens the next. */
  function GroupByTitle(title: string, level: Option<int>, page: Option<int>, ps: seq<Piece>): seq<Section>
    decreases |ps|, 1
  {
    SectionOf(title, level, LatestPage(page, Head(ps)), Paragraphs(Head(ps))) + Later(ps)
  }

  /** The sections from the first title on. */
  function Later(ps: seq<Piece>): seq<Section>
    decreases |ps|, 0
  {
    var n := FirstTitle(ps);
    if n == |ps| then [] else GroupByTitle(ps[n].heading, ps[n].level, ps[n].page, ps[n + 1..])
  }

  function Sections(ps: seq<Piece>): seq<Section> {
    GroupByTitle(UNTITLED, None, None, ps)
  }

  /** The title of the first section that has one of its own. */
  function DocTitle(sections: seq<Section>): Option<string> {
    if sections == [] then None
    else if sections[0].title != "" && sections[0].title != UNTITLED then Some(sections[0].title)
    else DocTitle(sections[1..])
  }

  // ----- the loop -----

  /** The variables of the loop. */
  datatype Fold = Fold(title: string, level: Option<int>, page: Option<int>, buf: seq<string>, sections: seq<Section>)

  function Next(f: Fold, p: Piece): Fold {
    match p
    case Nothing => f
    case Title(heading, level, page) =>
      Fold(heading, level, page, [], f.sections + SectionOf(f.title, f.level, f.page, f.buf))
    case Paragraph(text, _) => f.(buf := f.buf + [text], page := Turned(f.page, p))
  }

  /** The sections there will be after reading `ps` and closing the last one. */
  function Total(f: Fold, ps: seq<Piece>): seq<Section>
    decreases |ps|
  {
    if ps == [] then f.sections + SectionOf(f.title, f.level, f.page, f.buf) else Total(Next(f, ps[0]), ps[1..])
  }

  ghost predicate Neat(s: string) {
    s != "" && !IsSpace(s[0]) && !IsSpace(s[|s| - 1])
  }

  ghost predicate AllNeat(texts: seq<string>) {
    forall i :: 0 <= i < |texts| ==> Neat(texts[i])
  }

  lemma {:induction false} JoinIsNeat(texts: seq<string>)
    requires texts != [] && AllNeat(texts)
    ensures Neat(Join(BLANK_LINE, texts))
    decreases |texts|
  {
    if |texts| > 1 {
      JoinIsNeat(texts[1..]);
    }
  }

  /** `_flush`: closes the current section. */
  method Flush(f: Fold) returns (sections: seq<Section>)
    requires AllNeat(f.buf)
    ensures sections == f.sections + SectionOf(f.title, f.level, f.page, f.buf)
  {
    sections := f.sections;
    if f.buf == [] {
      return;
    }
    JoinIsNeat(f.buf);
    StripOfTrimmed(Join(BLANK_LINE, f.buf));
    var text := Strip(Join(BLANK_LINE, f.buf));
    if text != "" {
      sections := sections + [Section(f.title, f.level, text, f.page)];
    }
  }

  /** The body of the loop. */
  method Take(f: Fold, el: Element) returns (next: Fold)
    requires AllNeat(f.buf)
    ensures next == Next(f, Classify(el)) && AllNeat(next.buf)
  {
    next := f;
    var text := Strip(el.text);
    if text == "" {
      return;
    }
    if el.category == "Title" {
      var sections := Flush(f);
      var level := if el.depth.Some? && el.depth.value != 0 then NormalizeLevel(el.depth) else Some(1);
      return Fold(Capped(text), level, el.page, [], sections);
    }
    next := next.(buf := f.buf + [text]);
    if el.category in BODY_CATEGORIES && el.page.Some? {
      next := next.(page := el.page);
    }
  }

  method Collect(elements: seq<Element>) returns (sections: seq<Section>)
    ensures sections == Sections(Classified(elements))
  {
    var f := Fold(UNTITLED, None, None, [], []);
    ghost var ps := Classified(elements);
    LoopIsGrouping(ps);
    for i := 0 to |elements|
      invariant AllNeat(f.buf) && Total(f, ps[i..]) == Sections(ps)
    {
      TotalStep(f, ps, i);
      f := Take(f, elements[i]);
    }
    sections := Flush(f);
  }

  /** Only a document without a paragraph is refused. */
  method ElementsToParsed(elements: seq<Element>) returns (r: Result<ParsedDoc, ParserError>)
    ensures r.Err? <==> forall i :: 0 <= i < |elements| ==>
                           Strip(elements[i].text) == "" || elements[i].category == "Title"
    ensures r.Ok? ==> r.value == ParsedDoc(Sections(Classified(elements)), DocTitle(Sections(Classified(elements))))
  {
    if elements == [] {
      return Err(EmptyDocument);
    }
    var sections := Collect(elements);
    EmptyMeansNoText(elements);
    if sections == [] {
      return Err(EmptyDocument);
    }
    return Ok(ParsedDoc(sections, DocTitle(sections)));
  }

  lemma TotalStep(f: Fold, ps: seq<Piece>, i: nat)
    requires i < |ps|
    ensures Total(f, ps[i..]) == Total(Next(f, ps[i]), ps[i + 1..])
  {
    assert ps[i..][0] == ps[i] && ps[i..][1..] == ps[i + 1..];
  }

  /** A piece that is no title belongs to the group of what follows it. */
  lemma Joins(p: Piece, ps: seq<Piece>)
    requires !p.Title?
    ensures Head([p] + ps) == [p] + Head(ps) && Later([p] + ps) == Later(ps)
  {
    FirstTitleBehind(p, ps);
    AllBehind(p, ps, FirstTitle(ps));
  }

  lemma FirstTitleBehind(p: Piece, ps: seq<Piece>)
    requires !p.Title?
    ensures FirstTitle([p] + ps) == 1 + FirstTitle(ps)
  {
    assert ([p] + ps)[1..] == ps;
  }

  lemma AllBehind(p: Piece, ps: seq<Piece>, n: nat)
    requires n <= |ps|
    ensures ([p] + ps)[..n + 1] == [p] + ps[..n] && ([p] + ps)[n + 1..] == ps[n..]
  {
  }

  lemma OneMorePage(p: Piece, ps: seq<Piece>, page: Option<int>)
    ensures LatestPage(page, [p] + ps) == LatestPage(Turned(page, p), ps)
  {
    assert ([p] + ps)[1..] == ps;
  }

  lemma OneMoreText(p: Piece, ps: seq<Piece>, buf: seq<string>)
    ensures buf + Paragraphs([p] + ps) == (if p.Paragraph? then buf + [p.text] else buf) + Paragraphs(ps)
  {
    var more := Paragraphs(ps);
    assert ([p] + ps)[1..] == ps;
    if p.Paragraph? {
      Associative(buf, [p.text], more);
    } else {
      assert [] + more == more;
    }
  }

  /** What the loop collects: what it had, the section that is open, and the groups that follow. */
  function Grouped(f: Fold, ps: seq<Piece>): seq<Section> {
    f.sections + (SectionOf(f.title, f.level, LatestPage(f.page, Head(ps)), f.buf + Paragraphs(Head(ps))) + Later(ps))
  }

  /** The loop's way of collecting sections is grouping by title. */
  lemma {:induction false} TotalIsGrouped(f: Fold, ps: seq<Piece>)
    ensures Total(f, ps) == Grouped(f, ps)
    decreases |ps|
  {
    if ps == [] {
      assert f.buf + Paragraphs([]) == f.buf;
    } else {
      TotalIsGrouped(Next(f, ps[0]), ps[1..]);
      GroupedStep(f, ps[0], ps[1..]);
      assert ps == [ps[0]] + ps[1..];
    }
  }

  lemma GroupedStep(f: Fold, p: Piece, ps: seq<Piece>)
    ensures Grouped(f, [p] + ps) == Grouped(Next(f, p), ps)
  {
    if p.Title? {
      assert ([p] + ps)[1..] == ps;
      assert Head([p] + ps) == [];
      assert f.buf + Paragraphs([]) == f.buf;
      assert [] + Paragraphs(Head(ps)) == Paragraphs(Head(ps));
      Associative(f.sections, SectionOf(f.title, f.level, f.page, f.buf), GroupByTitle(p.heading, p.level, p.page, ps));
    } else {
      Joins(p, ps);
      OneMorePage(p, Head(ps), f.page);
      OneMoreText(p, Head(ps), f.buf);
    }
  }

  lemma LoopIsGrouping(ps: seq<Piece>)
    ensures Total(Fold(UNTITLED, None, None, [], []), ps) == Sections(ps)
  {
    TotalIsGrouped(Fold(UNTITLED, None, None, [], []), ps);
    assert [] + Paragraphs(Head(ps)) == Paragraphs(Head(ps));
  }

  // ----- what the sections hold -----

  function TextsOf(sections: seq<Section>): seq<string> {
    if sections == [] then []
    else (if sections[0].text != "" then [sections[0].text] else []) + TextsOf(sections[1..])
  }

  function FullText(doc: ParsedDoc): string {
    Join(BLANK_LINE, TextsOf(doc.sections))
  }

  /** No paragraph is blank. */
  ghost predicate NoBlanks(ps: seq<Piece>) {
    forall i :: 0 <= i < |ps| && ps[i].Paragraph? ==> Neat(ps[i].text)
  }

  lemma ParagraphIsNeat(e: Element)
    ensures Classify(e).Paragraph? ==> Neat(Classify(e).text)
  {
  }

  lemma PiecesAreNotBlank(es: seq<Element>)
    ensures NoBlanks(Classified(es))
  {
    var ps := Classified(es);
    forall i | 0 <= i < |ps| && ps[i].Paragraph? ensures Neat(ps[i].text) {
      ParagraphIsNeat(es[i]);
    }
  }

  lemma {:induction false} ParagraphsAreNeat(ps: seq<Piece>)
    requires NoBlanks(ps)
    ensures AllNeat(Paragraphs(ps))
    decreases |ps|
  {
    if ps != [] {
      ParagraphsAreNeat(ps[1..]);
    }
  }

  lemma {:induction false} ParagraphsAppend(a: seq<Piece>, b: seq<Piece>)
    ensures Paragraphs(a + b) == Paragraphs(a) + Paragraphs(b)
    decreases |a|
  {
    if a == [] {
      assert a + b == b;
    } else {
      assert (a + b)[1..] == a[1..] + b;
      ParagraphsAppend(a[1..], b);
    }
  }

  /** A title adds no paragraph, so the paragraphs of a document are those of its groups. */
  lemma ParagraphsOfGroups(ps: seq<Piece>)
    ensures Paragraphs(ps) == Paragraphs(Head(ps)) + LaterParagraphs(ps)
  {
    var n := FirstTitle(ps);
    if n < |ps| {
      CutAtTitle(ps, n);
      ParagraphsAppend(ps[..n], [ps[n]] + ps[n + 1..]);
      TitleIsNoParagraph(ps[n], ps[n + 1..]);
    } else {
      assert Head(ps) == ps;
    }
  }

  lemma CutAtTitle(ps: seq<Piece>, n: nat)
    requires n < |ps|
    ensures ps == ps[..n] + ([ps[n]] + ps[n + 1..])
  {
  }

  lemma TitleIsNoParagraph(p: Piece, ps: seq<Piece>)
    requires p.Title?
    ensures Paragraphs([p] + ps) == Paragraphs(ps)
  {
    assert ([p] + ps)[1..] == ps;
  }

  /** These sections hold these paragraphs: joined they read the same, and neither is empty without the other. */
  ghost predicate Holds(sections: seq<Section>, paragraphs: seq<string>) {
    && Join(BLANK_LINE, TextsOf(sections)) == Join(BLANK_LINE, paragraphs)
    && (TextsOf(sections) == [] <==> paragraphs == [])
    && (sections == [] <==> paragraphs == [])
  }

  lemma HoldsAppend(here: seq<string>, title: string, level: Option<int>, page: Option<int>,
                    later: seq<Section>, more: seq<string>)
    requires AllNeat(here) && Holds(later, more)
    ensures Holds(SectionOf(title, level, page, here) + later, here + more)
  {
    var section := SectionOf(title, level, page, here);
    if here != [] {
      JoinIsNeat(here);
    }
    TextsOfAppend(section, later);
    JoinGroups(here, TextsOf(later), more);
  }

  /** The paragraphs from the first title on. */
  function LaterParagraphs(ps: seq<Piece>): seq<string> {
    var n := FirstTitle(ps);
    if n == |ps| then [] else Paragraphs(ps[n + 1..])
  }

  /** The texts of the sections joined are the paragraphs joined, all of them and in their order; there are none exactly
      when there is no section. */
  lemma {:induction false} SectionsHoldParagraphs(title: string, level: Option<int>, page: Option<int>, ps: seq<Piece>)
    requires NoBlanks(ps)
    ensures Holds(GroupByTitle(title, level, page, ps), Paragraphs(ps))
    decreases |ps|, 1
  {
    LaterHoldsParagraphs(ps);
    ParagraphsAreNeat(Head(ps));
    HoldsAppend(Paragraphs(Head(ps)), title, level, LatestPage(page, Head(ps)), Later(ps), LaterParagraphs(ps));
    ParagraphsOfGroups(ps);
  }

  lemma {:induction false} LaterHoldsParagraphs(ps: seq<Piece>)
    requires NoBlanks(ps)
    ensures Holds(Later(ps), LaterParagraphs(ps))
    decreases |ps|, 0
  {
    var n := FirstTitle(ps);
    if n < |ps| {
      SectionsHoldParagraphs(ps[n].heading, ps[n].level, ps[n].page, ps[n + 1..]);
    }
  }

  lemma {:induction false} TextsOfAppend(a: seq<Section>, b: seq<Section>)
    ensures TextsOf(a + b) == TextsOf(a) + TextsOf(b)
    decreases |a|
  {
    if a == [] {
      assert a + b == b;
    } else {
      assert (a + b)[1..] == a[1..] + b;
      TextsOfAppend(a[1..], b);
    }
  }

  lemma {:induction false} JoinAppend(a: seq<string>, b: seq<string>)
    requires a != [] && b != []
    ensures Join(BLANK_LINE, a + b) == Join(BLANK_LINE, a) + BLANK_LINE + Join(BLANK_LINE, b)
    decreases |a|
  {
    assert (a + b)[1..] == a[1..] + b;
    if |a| > 1 {
      JoinAppend(a[1..], b);
    }
  }

  /** Joining one group first makes no difference. */
  lemma JoinGroups(here: seq<string>, joined: seq<string>, paragraphs: seq<string>)
    requires Join(BLANK_LINE, joined) == Join(BLANK_LINE, paragraphs) && (joined == [] <==> paragraphs == [])
    ensures Join(BLANK_LINE, (if here == [] then [] else [Join(BLANK_LINE, here)]) + joined)
         == Join(BLANK_LINE, here + paragraphs)
  {
    if here == [] {
      assert here + paragraphs == paragraphs && [] + joined == joined;
    } else if joined == [] {
      assert here + paragraphs == here;
      assert [Join(BLANK_LINE, here)] + joined == [Join(BLANK_LINE, here)];
    } else {
      JoinAppend(here, paragraphs);
      JoinAppend([Join(BLANK_LINE, here)], joined);
    }
  }

  /** The text of a parsed document is every non-blank text outside its titles, in order. */
  lemma FullTextIsParagraphs(es: seq<Element>)
    ensures FullText(ParsedDoc(Sections(Classified(es)), DocTitle(Sections(Classified(es)))))
         == Join(BLANK_LINE, Paragraphs(Classified(es)))
  {
    PiecesAreNotBlank(es);
    SectionsHoldParagraphs(UNTITLED, None, None, Classified(es));
  }

  lemma {:induction false} NoParagraphs(ps: seq<Piece>)
    ensures Paragraphs(ps) == [] <==> forall i :: 0 <= i < |ps| ==> !ps[i].Paragraph?
    decreases |ps|
  {
    if ps != [] {
      NoParagraphs(ps[1..]);
      assert ps == [ps[0]] + ps[1..];
    }
  }

  lemma EmptyMeansNoText(es: seq<Element>)
    ensures Sections(Classified(es)) == []
       <==> forall i :: 0 <= i < |es| ==> Strip(es[i].text) == "" || es[i].category == "Title"
  {
    PiecesAreNotBlank(es);
    SectionsHoldParagraphs(UNTITLED, None, None, Classified(es));
    NoParagraphs(Classified(es));
    forall i | 0 <= i < |es|
      ensures Classified(es)[i].Paragraph? <==> Strip(es[i].text) != "" && es[i].category != "Title"
    {
    }
  }

  /** The page of a section is that of its last recognised body element with a page; without one it is the page its
      title is on. */
  lemma {:induction false} LatestPageIsLast(page: Option<int>, ps: seq<Piece>, i: nat)
    requires i < |ps| && TurnsPage(ps[i]) && forall j :: i < j < |ps| ==> !TurnsPage(ps[j])
    ensures LatestPage(page, ps) == ps[i].turnsTo
    decreases |ps|
  {
    var rest := ps[1..];
    if i == 0 {
      PageStays(Turned(page, ps[0]), rest);
    } else {
      LatestPageIsLast(Turned(page, ps[0]), rest, i - 1);
    }
  }

  lemma {:induction false} PageStays(page: Option<int>, ps: seq<Piece>)
    requires forall j :: 0 <= j < |ps| ==> !TurnsPage(ps[j])
    ensures LatestPage(page, ps) == page
    decreases |ps|
  {
    if ps != [] {
      PageStays(page, ps[1..]);
    }
  }

  // ----- which title a section has -----

  /** The section of title `i`: the paragraphs between it and the next title. */
  function SectionAt(ps: seq<Piece>, i: nat): seq<Section>
    requires i < |ps| && ps[i].Title?
  {
    var group := Head(ps[i + 1..]);
    SectionOf(ps[i].heading, ps[i].level, LatestPage(ps[i].page, group), Paragraphs(group))
  }

  ghost predicate IsSectionAt(ps: seq<Piece>, section: Section, i: nat) {
    i < |ps| && ps[i].Title? && SectionAt(ps, i) == [section]
  }

  lemma SectionBehind(ps: seq<Piece>, n: nat, section: Section, i: nat)
    requires n < |ps| && IsSectionAt(ps[n + 1..], section, i)
    ensures IsSectionAt(ps, section, n + 1 + i)
  {
    assert ps[n + 1..][i] == ps[n + 1 + i];
    assert ps[n + 1..][i + 1..] == ps[n + 1 + i + 1..];
  }

  lemma LaterIsGroups(ps: seq<Piece>, n: nat)
    requires n == FirstTitle(ps) < |ps|
    ensures Later(ps) == SectionAt(ps, n) + Later(ps[n + 1..])
  {
    LaterHas(ps, n, ps[n], ps[n + 1..]);
    SectionAtIs(ps, n, ps[n], ps[n + 1..]);
  }

  lemma LaterHas(ps: seq<Piece>, n: nat, p: Piece, rest: seq<Piece>)
    requires n == FirstTitle(ps) < |ps| && p == ps[n] && rest == ps[n + 1..]
    ensures Later(ps)
         == SectionOf(p.heading, p.level, LatestPage(p.page, Head(rest)), Paragraphs(Head(rest))) + Later(rest)
  {
    LaterOpens(ps, n, p, rest);
    GroupOpens(p.heading, p.level, p.page, rest);
  }

  lemma SectionAtIs(ps: seq<Piece>, n: nat, p: Piece, rest: seq<Piece>)
    requires n < |ps| && p == ps[n] && p.Title? && rest == ps[n + 1..]
    ensures SectionAt(ps, n) == SectionOf(p.heading, p.level, LatestPage(p.page, Head(rest)), Paragraphs(Head(rest)))
  {
  }

  lemma LaterOpens(ps: seq<Piece>, n: nat, p: Piece, rest: seq<Piece>)
    requires n == FirstTitle(ps) < |ps| && p == ps[n] && rest == ps[n + 1..]
    ensures Later(ps) == GroupByTitle(p.heading, p.level, p.page, rest)
  {
    assert Later(ps) == GroupByTitle(ps[n].heading, ps[n].level, ps[n].page, ps[n + 1..]);
  }

  lemma GroupOpens(title: string, level: Option<int>, page: Option<int>, rest: seq<Piece>)
    ensures GroupByTitle(title, level, page, rest)
         == SectionOf(title, level, LatestPage(page, Head(rest)), Paragraphs(Head(rest))) + Later(rest)
  {
  }

  lemma PickFrom<T>(here: seq<T>, later: seq<T>, k: nat)
    requires k < |here + later|
    ensures (here + later)[k] == if k < |here| then here[k] else later[k - |here|]
  {
  }

  ghost predicate IsTitled(ps: seq<Piece>, section: Section) {
    exists i :: IsSectionAt(ps, section, i)
  }

  /** Every section but the leading one is that of a title: it has its heading and level, and holds the paragraphs from
      it to the next title. */
  lemma {:induction false} SectionsAreTitled(ps: seq<Piece>, k: nat, section: Section)
    requires k < |Later(ps)| && section == Later(ps)[k]
    ensures IsTitled(ps, section)
    decreases |ps|
  {
    var n := FirstTitle(ps);
    HereOrLater(ps, n, k, section);
    if !IsSectionAt(ps, section, n) {
      SectionsAreTitled(ps[n + 1..], k - |SectionAt(ps, n)|, section);
      var j :| IsSectionAt(ps[n + 1..], section, j);
      SectionBehind(ps, n, section, j);
    }
  }

  lemma HereOrLater(ps: seq<Piece>, n: nat, k: nat, section: Section)
    requires n == FirstTitle(ps) < |ps| && k < |Later(ps)| && section == Later(ps)[k]
    ensures k < |SectionAt(ps, n)| ==> IsSectionAt(ps, section, n)
    ensures k >= |SectionAt(ps, n)| ==>
              k - |SectionAt(ps, n)| < |Later(ps[n + 1..])| && section == Later(ps[n + 1..])[k - |SectionAt(ps, n)|]
  {
    LaterIsGroups(ps, n);
    PickFrom(SectionAt(ps, n), Later(ps[n + 1..]), k);
    assert k < |SectionAt(ps, n)| ==> SectionAt(ps, n) == [section];
  }

  // ----- the title of the document -----

  /** A title that can name the document: not the placeholder, and with a paragraph before the next title. */
  predicate CanName(ps: seq<Piece>, i: nat) {
    i < |ps| && ps[i].Title? && ps[i].heading != "" && ps[i].heading != UNTITLED && HasText(ps, i)
  }

  predicate HasText(ps: seq<Piece>, i: nat)
    requires i < |ps|
  {
    Paragraphs(Head(ps[i + 1..])) != []
  }

  /** The heading of the first title that can name the document. */
  function FirstNamed(ps: seq<Piece>): (name: Option<string>)
    ensures name.Some? ==> name.value != "" && name.value != UNTITLED
    decreases |ps|
  {
    var n := FirstTitle(ps);
    if n == |ps| then None else if CanName(ps, n) then Some(ps[n].heading) else FirstNamed(ps[n + 1..])
  }

  lemma DocTitleOf(here: seq<Section>, later: seq<Section>)
    requires |here| <= 1
    ensures DocTitle(here + later)
         == if here != [] && here[0].title != "" && here[0].title != UNTITLED then Some(here[0].title)
            else DocTitle(later)
  {
    if here == [] {
      assert here + later == later;
    } else {
      assert (here + later)[1..] == later;
    }
  }

  lemma {:induction false} LaterTitle(ps: seq<Piece>)
    ensures DocTitle(Later(ps)) == FirstNamed(ps)
    decreases |ps|
  {
    var n := FirstTitle(ps);
    if n < |ps| {
      var rest := ps[n + 1..];
      LaterTitle(rest);
      LaterIsGroups(ps, n);
      DocTitleOf(SectionAt(ps, n), Later(rest));
      NamesIff(ps, n);
      FirstNamedStep(ps, n);
    }
  }

  lemma NamesIff(ps: seq<Piece>, n: nat)
    requires n < |ps| && ps[n].Title?
    ensures var here := SectionAt(ps, n);
            && |here| <= 1 && (here != [] ==> here[0].title == ps[n].heading)
            && (CanName(ps, n) <==> here != [] && here[0].title != "" && here[0].title != UNTITLED)
  {
  }

  /** For every document: it is named after its first title that is not the placeholder and has text of its own. */
  lemma DocTitleIsFirstNamed(ps: seq<Piece>)
    ensures DocTitle(Sections(ps)) == FirstNamed(ps)
  {
    LaterTitle(ps);
    DocTitleOf(SectionOf(UNTITLED, None, LatestPage(None, Head(ps)), Paragraphs(Head(ps))), Later(ps));
  }

  lemma CanNameBehind(ps: seq<Piece>, n: nat, j: nat)
    requires n < |ps|
    ensures CanName(ps[n + 1..], j) <==> CanName(ps, n + 1 + j)
  {
    if j < |ps[n + 1..]| {
      assert ps[n + 1..][j + 1..] == ps[n + 1 + j + 1..];
    }
  }

  lemma FirstNamedStep(ps: seq<Piece>, n: nat)
    requires n == FirstTitle(ps) < |ps|
    ensures FirstNamed(ps) == if CanName(ps, n) then Some(ps[n].heading) else FirstNamed(ps[n + 1..])
  {
  }

  /** The title at `i` is the first that can name the document; without such a title `i` is the length. */
  ghost predicate IsFirstToName(ps: seq<Piece>, i: nat) {
    i <= |ps| && (forall j :: 0 <= j < i ==> !CanName(ps, j)) && (i < |ps| ==> CanName(ps, i))
  }

  lemma FirstToNameBehind(ps: seq<Piece>, n: nat, i: nat)
    requires n < i && IsFirstToName(ps, i)
    ensures IsFirstToName(ps[n + 1..], i - n - 1)
  {
    var rest := ps[n + 1..];
    forall j | 0 <= j < i - n - 1 ensures !CanName(rest, j) {
      CanNameBehind(ps, n, j);
    }
    CanNameBehind(ps, n, i - n - 1);
  }

  /** That title, found by its place: no earlier one can name the document. Without one the document has no name. */
  lemma {:induction false} FirstNamedAt(ps: seq<Piece>, i: nat)
    requires IsFirstToName(ps, i)
    ensures FirstNamed(ps) == if i < |ps| then Some(ps[i].heading) else None
    decreases |ps|
  {
    var n := FirstTitle(ps);
    if n < |ps| {
      FirstNamedStep(ps, n);
      if n != i {
        FirstToNameBehind(ps, n, i);
        FirstNamedAt(ps[n + 1..], i - n - 1);
      }
    }
  }

  /** Titles of parsed documents are not empty. */
  lemma HeadingIsNotEmpty(e: Element)
    ensures Classify(e).Title? ==> Classify(e).heading != ""
  {
  }

  /** The comment says the document is named after its first title element. That is so exactly when that title is not
      the placeholder and has text of its own, or the title that names the document reads the same. */
  lemma FirstTitleNamesIff(es: seq<Element>, n: nat)
    requires n == FirstTitle(Classified(es)) < |es|
    ensures var ps := Classified(es);
            var name := ps[n].heading;
            (DocTitle(Sections(ps)) == Some(name))
            == (name != UNTITLED && (HasText(ps, n) || FirstNamed(ps[n + 1..]) == Some(name)))
  {
    HeadingIsNotEmpty(es[n]);
    DocTitleIsFirstNamed(Classified(es));
    FirstNamedStep(Classified(es), n);
  }
}
