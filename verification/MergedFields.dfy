/** Where the fields of a merged search result come from, besides its score and its text. */
module MergedFields {
  import opened Wrappers
  import opened RrfMerge

  function TitleOf(c: Candidate): Option<string> {
    c.title
  }

  function LanguageOf(c: Candidate): Option<string> {
    c.language
  }

  function HasField(get: Candidate -> Option<string>): Candidate -> bool {
    (c: Candidate) => Filled(get(c))
  }

  predicate HasPage(c: Candidate) {
    c.page.Some? && c.page.value != 0
  }

  predicate SomePage(c: Candidate) {
    c.page.Some?
  }

  predicate Any(c: Candidate) {
    true
  }

  ghost predicate Occurrence(hits: seq<Hit>, id: string, i: nat) {
    i < |hits| && hits[i].cand.chunkId == id
  }

  /** The first occurrence of the chunk that has the property. */
  ghost predicate FirstWith(hits: seq<Hit>, id: string, p: Candidate -> bool, i: nat) {
    && Occurrence(hits, id, i) && p(hits[i].cand)
    && forall j: nat :: j < i && Occurrence(hits, id, j) ==> !p(hits[j].cand)
  }

  ghost predicate NoneWith(hits: seq<Hit>, id: string, p: Candidate -> bool) {
    forall j: nat :: Occurrence(hits, id, j) ==> !p(hits[j].cand)
  }

  ghost predicate FirstOf(hits: seq<Hit>, id: string, i: nat) {
    FirstWith(hits, id, Any, i)
  }

  lemma FirstStays(hits: seq<Hit>, id: string, p: Candidate -> bool, i: nat)
    requires hits != [] && FirstWith(hits[..|hits| - 1], id, p, i)
    ensures FirstWith(hits, id, p, i)
  {
    var front := hits[..|hits| - 1];
    forall j: nat | j < i && Occurrence(hits, id, j) ensures !p(hits[j].cand) {
      assert Occurrence(front, id, j);
    }
  }

  lemma NoneOrLast(hits: seq<Hit>, id: string, p: Candidate -> bool)
    requires hits != [] && NoneWith(hits[..|hits| - 1], id, p)
    ensures var n := |hits| - 1;
            if hits[n].cand.chunkId == id && p(hits[n].cand) then FirstWith(hits, id, p, n) else NoneWith(hits, id, p)
  {
    var n := |hits| - 1;
    forall j: nat | j < n && Occurrence(hits, id, j) ensures !p(hits[j].cand) {
      assert Occurrence(hits[..n], id, j);
    }
  }

  lemma {:induction false} NoneCounted(hits: seq<Hit>, id: string, p: Candidate -> bool)
    requires CountOf(hits, id) == 0
    ensures NoneWith(hits, id, p)
  {
    if hits != [] {
      NoneCounted(hits[..|hits| - 1], id, p);
      NoneOrLast(hits, id, p);
    }
  }

  // ----- texts that may be missing -----

  /** The value is that of the first occurrence that has one, or else that of the first occurrence. */
  ghost predicate IsFirstFilled(hits: seq<Hit>, id: string, get: Candidate -> Option<string>, v: Option<string>) {
    || (exists i: nat :: FirstWith(hits, id, HasField(get), i) && v == get(hits[i].cand))
    || (NoneWith(hits, id, HasField(get)) && exists i: nat :: FirstOf(hits, id, i) && v == get(hits[i].cand))
  }

  lemma FilledFirst(hits: seq<Hit>, id: string, get: Candidate -> Option<string>)
    requires hits != [] && CountOf(hits[..|hits| - 1], id) == 0 && hits[|hits| - 1].cand.chunkId == id
    ensures IsFirstFilled(hits, id, get, get(hits[|hits| - 1].cand))
  {
    var n, front := |hits| - 1, hits[..|hits| - 1];
    NoneCounted(front, id, HasField(get));
    NoneCounted(front, id, Any);
    NoneOrLast(hits, id, HasField(get));
    NoneOrLast(hits, id, Any);
    assert FirstOf(hits, id, n);
  }

  lemma FilledMore(hits: seq<Hit>, id: string, get: Candidate -> Option<string>, v: Option<string>)
    requires hits != [] && IsFirstFilled(hits[..|hits| - 1], id, get, v)
    ensures var last := hits[|hits| - 1].cand;
            IsFirstFilled(hits, id, get, if last.chunkId == id && !Filled(v) && Filled(get(last)) then get(last) else v)
  {
    var n, front := |hits| - 1, hits[..|hits| - 1];
    var p := HasField(get);
    if i: nat :| FirstWith(front, id, p, i) && v == get(front[i].cand) {
      FirstStays(hits, id, p, i);
      assert Filled(v);
    } else {
      var i: nat :| FirstOf(front, id, i) && v == get(front[i].cand);
      assert Occurrence(front, id, i);
      FirstStays(hits, id, Any, i);
      NoneOrLast(hits, id, p);
      assert FirstOf(hits, id, i);
    }
  }

  // ----- the page -----

  /** The page is the first that is not zero; without one it is zero when some occurrence has page zero. */
  ghost predicate IsFirstPage(hits: seq<Hit>, id: string, v: Option<int>) {
    || (exists i: nat :: FirstWith(hits, id, HasPage, i) && v == hits[i].cand.page)
    || (NoneWith(hits, id, HasPage)
        && if NoneWith(hits, id, SomePage) then v == None else v == Some(0))
  }

  lemma PageFirst(hits: seq<Hit>, id: string)
    requires hits != [] && CountOf(hits[..|hits| - 1], id) == 0 && hits[|hits| - 1].cand.chunkId == id
    ensures IsFirstPage(hits, id, hits[|hits| - 1].cand.page)
  {
    var n, front := |hits| - 1, hits[..|hits| - 1];
    NoneCounted(front, id, HasPage);
    NoneCounted(front, id, SomePage);
    NoneOrLast(hits, id, HasPage);
    NoneOrLast(hits, id, SomePage);
    assert Occurrence(hits, id, n);
  }

  lemma PageMore(hits: seq<Hit>, id: string, v: Option<int>)
    requires hits != [] && IsFirstPage(hits[..|hits| - 1], id, v)
    ensures var last := hits[|hits| - 1].cand;
            IsFirstPage(hits, id, if last.chunkId == id && NoPage(v) && last.page.Some? then last.page else v)
  {
    var n, front := |hits| - 1, hits[..|hits| - 1];
    var p, some := HasPage, SomePage;
    if i: nat :| FirstWith(front, id, p, i) && v == front[i].cand.page {
      FirstStays(hits, id, p, i);
    } else {
      NoneOrLast(hits, id, p);
      if NoneWith(front, id, some) {
        NoneOrLast(hits, id, some);
      } else {
        var j: nat :| Occurrence(front, id, j) && some(front[j].cand);
        assert Occurrence(hits, id, j) && some(hits[j].cand);
      }
    }
  }

  // ----- the entry of a chunk -----

  ghost predicate CopyOf(hits: seq<Hit>, c: Candidate, i: nat) {
    && FirstOf(hits, c.chunkId, i) && c.docId == hits[i].cand.docId && c.payload == hits[i].cand.payload
    && c.source == if CountOf(hits, c.chunkId) == 1 then hits[i].source else Both
  }

  lemma CopyMore(hits: seq<Hit>, c: Candidate, i: nat)
    requires hits != [] && CopyOf(hits[..|hits| - 1], c, i)
    ensures var last := hits[|hits| - 1].cand;
            CopyOf(hits, if last.chunkId == c.chunkId then Filling(c, last) else c, i)
  {
    var front := hits[..|hits| - 1];
    FirstStays(hits, c.chunkId, Any, i);
    CountsSome(front, c.chunkId, i);
  }

  /** The document, the payload and the mark of the only list are those of the first occurrence; title, language and
      page those of the first occurrence that has them. */
  ghost predicate Inherits(hits: seq<Hit>, c: Candidate) {
    && (exists i: nat :: CopyOf(hits, c, i))
    && IsFirstFilled(hits, c.chunkId, TitleOf, c.title)
    && IsFirstFilled(hits, c.chunkId, LanguageOf, c.language)
    && IsFirstPage(hits, c.chunkId, c.page)
  }

  lemma InheritsFirst(hits: seq<Hit>, id: string)
    requires hits != [] && CountOf(hits[..|hits| - 1], id) == 0 && hits[|hits| - 1].cand.chunkId == id
    ensures Inherits(hits, hits[|hits| - 1].cand.(score := 0.0, source := hits[|hits| - 1].source))
  {
    FilledFirst(hits, id, TitleOf);
    FilledFirst(hits, id, LanguageOf);
    PageFirst(hits, id);
    NoneCounted(hits[..|hits| - 1], id, Any);
    NoneOrLast(hits, id, Any);
    assert CopyOf(hits, hits[|hits| - 1].cand.(score := 0.0, source := hits[|hits| - 1].source), |hits| - 1);
  }

  lemma InheritsMore(hits: seq<Hit>, c: Candidate)
    requires hits != [] && Inherits(hits[..|hits| - 1], c)
    ensures var last := hits[|hits| - 1].cand;
            Inherits(hits, if last.chunkId == c.chunkId then Filling(c, last) else c)
  {
    FilledMore(hits, c.chunkId, TitleOf, c.title);
    FilledMore(hits, c.chunkId, LanguageOf, c.language);
    PageMore(hits, c.chunkId, c.page);
    var i: nat :| CopyOf(hits[..|hits| - 1], c, i);
    CopyMore(hits, c, i);
  }

  lemma {:induction false} CountsSome(hits: seq<Hit>, id: string, i: nat)
    requires Occurrence(hits, id, i)
    ensures CountOf(hits, id) > 0
    decreases |hits|
  {
    if i < |hits| - 1 {
      assert Occurrence(hits[..|hits| - 1], id, i);
      CountsSome(hits[..|hits| - 1], id, i);
    }
  }

  lemma {:induction false} CollectInherits(hits: seq<Hit>, id: string)
    ensures id in Collect(hits).cands ==>
              Collect(hits).cands[id].chunkId == id && Inherits(hits, Collect(hits).cands[id])
  {
    if hits != [] {
      var front, last := hits[..|hits| - 1], hits[|hits| - 1];
      CollectInherits(front, id);
      CollectAt(front, id);
      if id in Collect(front).cands {
        InheritsMore(hits, Collect(front).cands[id]);
      } else if last.cand.chunkId == id {
        InheritsFirst(hits, id);
      }
    }
  }

  lemma ScoreIsNoField(hits: seq<Hit>, c: Candidate, score: real)
    requires Inherits(hits, c)
    ensures Inherits(hits, c.(score := score))
  {
    var i: nat :| CopyOf(hits, c, i);
    assert CopyOf(hits, c.(score := score), i);
  }

  lemma MergedInherits(hits: seq<Hit>, j: nat)
    requires KeysMatch(Collect(hits)) && j < |Merged(Collect(hits))|
    ensures Inherits(hits, Merged(Collect(hits))[j])
  {
    var t := Collect(hits);
    CollectInherits(hits, t.order[j]);
    ScoreIsNoField(hits, t.cands[t.order[j]], t.scores[t.order[j]]);
  }

  /** Each kept entry is that of the first occurrence of its chunk, marked with its list or as found by both, and takes
      title, language and page from the first occurrence that has them: a later one never overwrites them. */
  lemma TopInherits(hits: seq<Hit>, topK: nat, i: nat)
    requires i < |TopOf(hits, topK)|
    ensures Inherits(hits, TopOf(hits, topK)[i])
  {
    MergedIsSeen(hits);
    var merged := Merged(Collect(hits));
    SortRanks(hits, merged);
    assert Sorted(hits)[i] in multiset(merged);
    var j :| 0 <= j < |merged| && merged[j] == Sorted(hits)[i];
    MergedInherits(hits, j);
  }

  lemma NothingBefore(hits: seq<Hit>, id: string, n: nat, m: nat)
    requires FirstOf(hits, id, n) && m < n
    ensures hits[m].cand.chunkId != id
  {
    assert Occurrence(hits, id, m) ==> !Any(hits[m].cand);
  }

  /** An entry found once is marked with the list that found it. */
  lemma OnceIsMarked(vec: seq<Candidate>, kw: seq<Candidate>, k: nat, c: Candidate)
    requires Inherits(AllHits(vec, kw, k), c) && CountOf(AllHits(vec, kw, k), c.chunkId) == 1
    ensures c.source == if Occurs(vec, c.chunkId) then Vector else Keyword
  {
    var hits := AllHits(vec, kw, k);
    var n: nat :| CopyOf(hits, c, n);
    if n < |vec| {
      assert vec[n].chunkId == c.chunkId;
    } else {
      forall m: nat | m < |vec| ensures vec[m].chunkId != c.chunkId {
        NothingBefore(hits, c.chunkId, n, m);
      }
    }
  }
}
