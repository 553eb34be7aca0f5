/** Reciprocal rank fusion of the vector and the keyword result lists, in exact rational arithmetic. */
module RrfMerge {
  import opened Wrappers

  datatype Source = Vector | Keyword | Both

  datatype Candidate = Candidate(chunkId: string, docId: string, text: string, score: real, source: Source,
                                 payload: map<string, string>, title: Option<string>, page: Option<int>,
                                 language: Option<string>)

  /** One result at its rank: the weight is `1 / (k + rank)`, ranks counted from one. */
  datatype Hit = Hit(cand: Candidate, source: Source, weight: real)

  function Weight(k: nat, rankZero: nat): real {
    1.0 / (k + rankZero + 1) as real
  }

  function HitsOf(results: seq<Candidate>, source: Source, k: nat): (hits: seq<Hit>)
    ensures |hits| == |results|
    ensures forall i :: 0 <= i < |results| ==> hits[i] == Hit(results[i], source, Weight(k, i))
  {
    seq(|results|, i requires 0 <= i < |results| => Hit(results[i], source, Weight(k, i)))
  }

  function AllHits(vec: seq<Candidate>, kw: seq<Candidate>, k: nat): seq<Hit> {
    HitsOf(vec, Vector, k) + HitsOf(kw, Keyword, k)
  }

  predicate Filled(s: Option<string>) {
    s.Some? && s.value != ""
  }

  /** A second occurrence of a chunk: it counts as found by both, and fills the fields still empty. */
  function Filling(existing: Candidate, cand: Candidate): Candidate {
    existing.(source := Both,
              text := if existing.text == "" && cand.text != "" then cand.text else existing.text,
              title := if !Filled(existing.title) && Filled(cand.title) then cand.title else existing.title,
              page := if NoPage(existing.page) && cand.page.Some? then cand.page else existing.page,
              language := if !Filled(existing.language) && Filled(cand.language) then cand.language
                          else existing.language)
  }

  predicate NoPage(page: Option<int>) {
    page.None? || page.value == 0
  }

  /** The two dictionaries, `scores` and `candidates`, with the order in which their keys were first seen. */
  datatype Table = Table(order: seq<string>, scores: map<string, real>, cands: map<string, Candidate>)

  function Add(t: Table, h: Hit): Table {
    var id := h.cand.chunkId;
    Table(if id in t.order then t.order else t.order + [id],
          t.scores[id := (if id in t.scores then t.scores[id] else 0.0) + h.weight],
          t.cands[id := if id in t.cands then Filling(t.cands[id], h.cand)
                        else h.cand.(score := 0.0, source := h.source)])
  }

  function Collect(hits: seq<Hit>): Table {
    if hits == [] then Table([], map[], map[]) else Add(Collect(hits[..|hits| - 1]), hits[|hits| - 1])
  }

  ghost predicate KeysMatch(t: Table) {
    forall i :: 0 <= i < |t.order| ==> t.order[i] in t.scores && t.order[i] in t.cands
  }

  /** The merged list before sorting. */
  function Merged(t: Table): (merged: seq<Candidate>)
    requires KeysMatch(t)
    ensures |merged| == |t.order|
    ensures forall i :: 0 <= i < |t.order| ==> merged[i] == t.cands[t.order[i]].(score := t.scores[t.order[i]])
  {
    seq(|t.order|, i requires 0 <= i < |t.order| => t.cands[t.order[i]].(score := t.scores[t.order[i]]))
  }

  /** `list.sort(key=score, reverse=True)`: descending and stable. */
  function Insert(sorted: seq<Candidate>, x: Candidate): (r: seq<Candidate>)
    ensures |r| == |sorted| + 1
  {
    if sorted == [] || sorted[|sorted| - 1].score >= x.score then sorted + [x]
    else Insert(sorted[..|sorted| - 1], x) + [sorted[|sorted| - 1]]
  }

  function SortDescending(xs: seq<Candidate>): (r: seq<Candidate>)
    ensures |r| == |xs|
  {
    if xs == [] then [] else Insert(SortDescending(xs[..|xs| - 1]), xs[|xs| - 1])
  }

  // ----- the table -----

  /** The sum of the weights of all occurrences. */
  function ScoreOf(hits: seq<Hit>, id: string): real {
    if hits == [] then 0.0
    else
      var last := hits[|hits| - 1];
      ScoreOf(hits[..|hits| - 1], id) + (if last.cand.chunkId == id then last.weight else 0.0)
  }

  function CountOf(hits: seq<Hit>, id: string): nat {
    if hits == [] then 0
    else CountOf(hits[..|hits| - 1], id) + (if hits[|hits| - 1].cand.chunkId == id then 1 else 0)
  }

  /** Position of the first occurrence, or the length when there is none. */
  function FirstSeen(hits: seq<Hit>, id: string): (n: nat)
    ensures n <= |hits| && (n < |hits| ==> hits[n].cand.chunkId == id)
  {
    if hits == [] then 0
    else
      var n := FirstSeen(hits[..|hits| - 1], id);
      if n < |hits| - 1 || hits[|hits| - 1].cand.chunkId == id then n else n + 1
  }

  lemma {:induction false} CountBasics(hits: seq<Hit>, id: string)
    ensures FirstSeen(hits, id) < |hits| <==> CountOf(hits, id) > 0
    ensures CountOf(hits, id) == 0 ==> ScoreOf(hits, id) == 0.0
  {
    if hits != [] {
      CountBasics(hits[..|hits| - 1], id);
    }
  }

  /** What the table says of a chunk: it is a key exactly when it occurred, and its score is the sum of its weights. */
  ghost predicate KeyAt(t: Table, hits: seq<Hit>, id: string) {
    && (id in t.order <==> CountOf(hits, id) > 0) && (id in t.scores <==> CountOf(hits, id) > 0)
    && (id in t.cands <==> CountOf(hits, id) > 0)
    && (id in t.scores ==> t.scores[id] == ScoreOf(hits, id))
    && (id in t.cands ==> t.cands[id].chunkId == id)
  }

  lemma {:induction false} CollectAt(hits: seq<Hit>, id: string)
    ensures KeyAt(Collect(hits), hits, id)
  {
    if hits != [] {
      CollectAt(hits[..|hits| - 1], id);
      CountBasics(hits[..|hits| - 1], id);
    }
  }

  lemma CollectKeys(hits: seq<Hit>)
    ensures KeysMatch(Collect(hits))
  {
    var t := Collect(hits);
    forall i | 0 <= i < |t.order| ensures t.order[i] in t.scores && t.order[i] in t.cands {
      CollectAt(hits, t.order[i]);
    }
  }

  /** A chunk is marked as found by both exactly when it occurred more than once. */
  lemma {:induction false} CollectMark(hits: seq<Hit>, id: string)
    requires Proper(hits) && CountOf(hits, id) > 0
    ensures id in Collect(hits).cands && (Collect(hits).cands[id].source == Both <==> CountOf(hits, id) >= 2)
  {
    var front := hits[..|hits| - 1];
    CollectAt(front, id);
    CollectAt(hits, id);
    if CountOf(front, id) > 0 {
      CollectMark(front, id);
    }
  }

  ghost predicate Proper(hits: seq<Hit>) {
    forall i :: 0 <= i < |hits| ==> hits[i].source != Both
  }

  /** The first non-empty text among the occurrences of a chunk. */
  function FirstText(hits: seq<Hit>, id: string): string {
    if hits == [] then ""
    else
      var t, last := FirstText(hits[..|hits| - 1], id), hits[|hits| - 1].cand;
      if t == "" && last.chunkId == id then last.text else t
  }

  /** Merging loses no text: the keyword result fills in what the vector result lacks. */
  lemma {:induction false} CollectText(hits: seq<Hit>, id: string)
    ensures CountOf(hits, id) == 0 ==> FirstText(hits, id) == ""
    ensures CountOf(hits, id) > 0 ==> id in Collect(hits).cands && Collect(hits).cands[id].text == FirstText(hits, id)
  {
    CollectAt(hits, id);
    if hits != [] {
      CollectText(hits[..|hits| - 1], id);
      CollectAt(hits[..|hits| - 1], id);
    }
  }

  /** Keys stand in first-seen order. */
  lemma {:induction false} CollectOrder(hits: seq<Hit>, i: nat, j: nat)
    requires i < j < |Collect(hits).order|
    ensures FirstSeen(hits, Collect(hits).order[i]) < FirstSeen(hits, Collect(hits).order[j])
    decreases |hits|
  {
    var front := hits[..|hits| - 1];
    var t := Collect(front);
    CollectAt(front, t.order[i]);
    CountBasics(front, t.order[i]);
    if j < |t.order| {
      CollectOrder(front, i, j);
      CollectAt(front, t.order[j]);
      CountBasics(front, t.order[j]);
    } else {
      CollectAt(front, hits[|hits| - 1].cand.chunkId);
      CountBasics(front, hits[|hits| - 1].cand.chunkId);
    }
  }

  /** The whole list before truncation. */
  function Sorted(hits: seq<Hit>): seq<Candidate> {
    CollectKeys(hits);
    SortDescending(Merged(Collect(hits)))
  }

  function TopOf(hits: seq<Hit>, topK: nat): seq<Candidate> {
    var sorted := Sorted(hits);
    if |sorted| <= topK then sorted else sorted[..topK]
  }

  // ----- the merge as written -----

  /** One turn of the loops over the result lists. */
  method AddResult(t0: Table, cand: Candidate, source: Source, weight: real) returns (t: Table)
    requires forall i :: 0 <= i < |t0.order| ==> t0.order[i] in t0.scores
    ensures t == Add(t0, Hit(cand, source, weight))
  {
    var order, scores, cands := t0.order, t0.scores, t0.cands;
    var cid := cand.chunkId;
    if cid !in order {
      order := order + [cid];
    }
    scores := scores[cid := (if cid in scores then scores[cid] else 0.0) + weight];
    if cid in cands {
      var existing := FillFrom(cands[cid], cand);
      cands := cands[cid := existing];
    } else {
      cands := cands[cid := Candidate(cand.chunkId, cand.docId, cand.text, 0.0, source, cand.payload, cand.title,
                                      cand.page, cand.language)];
    }
    t := Table(order, scores, cands);
  }

  method Accumulate(t0: Table, results: seq<Candidate>, source: Source, k: nat, ghost before: seq<Hit>)
    returns (t: Table)
    requires t0 == Collect(before)
    ensures t == Collect(before + HitsOf(results, source, k))
  {
    t := t0;
    ghost var hits := HitsOf(results, source, k);
    assert before + hits[..0] == before;
    for rankZero := 0 to |results|
      invariant t == Collect(before + hits[..rankZero])
    {
      CollectKeys(before + hits[..rankZero]);
      CollectNext(before, hits, rankZero);
      t := AddResult(t, results[rankZero], source, 1.0 / (k + rankZero + 1) as real);
    }
    assert hits[..|results|] == hits;
  }

  method FillFrom(found: Candidate, cand: Candidate) returns (existing: Candidate)
    ensures existing == Filling(found, cand)
  {
    existing := found.(source := Both);
    if existing.text == "" && cand.text != "" {
      existing := existing.(text := cand.text);
    }
    if !Filled(existing.title) && Filled(cand.title) {
      existing := existing.(title := cand.title);
    }
    if NoPage(existing.page) && cand.page.Some? {
      existing := existing.(page := cand.page);
    }
    if !Filled(existing.language) && Filled(cand.language) {
      existing := existing.(language := cand.language);
    }
  }

  lemma CollectNext(before: seq<Hit>, hits: seq<Hit>, i: nat)
    requires i < |hits|
    ensures Collect(before + hits[..i + 1]) == Add(Collect(before + hits[..i]), hits[i])
  {
    var longer := before + hits[..i + 1];
    assert longer[..|longer| - 1] == before + hits[..i] && longer[|longer| - 1] == hits[i];
  }

  method MergeRrf(vec: seq<Candidate>, kw: seq<Candidate>, k: nat, topK: nat) returns (out: seq<Candidate>)
    ensures out == TopOf(AllHits(vec, kw, k), topK)
  {
    var t := Accumulate(Table([], map[], map[]), vec, Vector, k, []);
    assert [] + HitsOf(vec, Vector, k) == HitsOf(vec, Vector, k);
    t := Accumulate(t, kw, Keyword, k, HitsOf(vec, Vector, k));
    CollectKeys(AllHits(vec, kw, k));
    var merged: seq<Candidate> := [];
    for i := 0 to |t.order|
      invariant merged == Merged(t)[..i]
    {
      var cid := t.order[i];
      merged := merged + [t.cands[cid].(score := t.scores[cid])];
    }
    assert merged == Merged(t);
    merged := SortDescending(merged);
    out := if |merged| <= topK then merged else merged[..topK];
  }

  // ----- the ranking -----

  /** Higher score first; among equals the one seen first. */
  ghost predicate Better(hits: seq<Hit>, a: Candidate, b: Candidate) {
    a.score > b.score || (a.score == b.score && FirstSeen(hits, a.chunkId) < FirstSeen(hits, b.chunkId))
  }

  ghost predicate Ranked(hits: seq<Hit>, xs: seq<Candidate>) {
    forall i, j :: 0 <= i < j < |xs| ==> Better(hits, xs[i], xs[j])
  }

  /** All of `xs` were first seen before `x`. */
  ghost predicate SeenBefore(hits: seq<Hit>, xs: seq<Candidate>, x: Candidate) {
    forall i :: 0 <= i < |xs| ==> FirstSeen(hits, xs[i].chunkId) < FirstSeen(hits, x.chunkId)
  }

  ghost predicate SeenInOrder(hits: seq<Hit>, xs: seq<Candidate>) {
    forall i, j :: 0 <= i < j < |xs| ==> FirstSeen(hits, xs[i].chunkId) < FirstSeen(hits, xs[j].chunkId)
  }

  /** All of `xs` are better than `y`. */
  ghost predicate AllBetter(hits: seq<Hit>, xs: seq<Candidate>, y: Candidate) {
    forall i :: 0 <= i < |xs| ==> Better(hits, xs[i], y)
  }

  lemma InsertAllBetter(hits: seq<Hit>, front: seq<Candidate>, x: Candidate, y: Candidate)
    requires AllBetter(hits, front, y) && Better(hits, x, y)
    requires multiset(Insert(front, x)) == multiset(front) + multiset{x}
    ensures AllBetter(hits, Insert(front, x), y)
  {
    var inner := Insert(front, x);
    forall i | 0 <= i < |inner| ensures Better(hits, inner[i], y) {
      assert inner[i] in multiset(inner);
      if inner[i] != x {
        assert inner[i] in multiset(front);
      }
    }
  }

  lemma RankedAppend(hits: seq<Hit>, xs: seq<Candidate>, y: Candidate)
    requires Ranked(hits, xs) && AllBetter(hits, xs, y)
    ensures Ranked(hits, xs + [y])
  {
  }

  lemma {:induction false} InsertRanked(hits: seq<Hit>, sorted: seq<Candidate>, x: Candidate)
    requires Ranked(hits, sorted) && SeenBefore(hits, sorted, x)
    ensures Ranked(hits, Insert(sorted, x)) && multiset(Insert(sorted, x)) == multiset(sorted) + multiset{x}
    decreases |sorted|
  {
    var n := |sorted| - 1;
    if sorted != [] && sorted[n].score < x.score {
      var front := sorted[..n];
      assert sorted == front + [sorted[n]];
      InsertRanked(hits, front, x);
      InsertAllBetter(hits, front, x, sorted[n]);
      RankedAppend(hits, Insert(front, x), sorted[n]);
    } else {
      forall i | 0 <= i <= n ensures Better(hits, sorted[i], x) {
        assert i == n || Better(hits, sorted[i], sorted[n]);
      }
      RankedAppend(hits, sorted, x);
    }
  }

  lemma PermutedSeenBefore(hits: seq<Hit>, xs: seq<Candidate>, ys: seq<Candidate>, x: Candidate)
    requires SeenBefore(hits, xs, x) && multiset(xs) == multiset(ys)
    ensures SeenBefore(hits, ys, x)
  {
    forall i | 0 <= i < |ys| ensures FirstSeen(hits, ys[i].chunkId) < FirstSeen(hits, x.chunkId) {
      assert ys[i] in multiset(xs);
    }
  }

  lemma {:induction false} SortRanks(hits: seq<Hit>, xs: seq<Candidate>)
    requires SeenInOrder(hits, xs)
    ensures Ranked(hits, SortDescending(xs)) && multiset(SortDescending(xs)) == multiset(xs)
    decreases |xs|
  {
    if xs != [] {
      var front, x := xs[..|xs| - 1], xs[|xs| - 1];
      SortRanks(hits, front);
      PermutedSeenBefore(hits, front, SortDescending(front), x);
      InsertRanked(hits, SortDescending(front), x);
      assert xs == front + [x];
    }
  }

  /** Candidate `c` is the merged entry of a chunk that occurred. */
  ghost predicate Entry(hits: seq<Hit>, c: Candidate) {
    && CountOf(hits, c.chunkId) > 0 && c.score == ScoreOf(hits, c.chunkId) && c.text == FirstText(hits, c.chunkId)
    && (c.source == Both <==> CountOf(hits, c.chunkId) >= 2)
  }

  lemma MergedIsSeen(hits: seq<Hit>)
    ensures KeysMatch(Collect(hits))
    ensures SeenInOrder(hits, Merged(Collect(hits)))
  {
    CollectKeys(hits);
    var t := Collect(hits);
    var merged := Merged(t);
    forall i, j | 0 <= i < j < |merged|
      ensures FirstSeen(hits, merged[i].chunkId) < FirstSeen(hits, merged[j].chunkId)
    {
      CollectAt(hits, t.order[i]);
      CollectAt(hits, t.order[j]);
      CollectOrder(hits, i, j);
    }
  }

  lemma SortedIsRanked(hits: seq<Hit>)
    ensures |Sorted(hits)| == |Collect(hits).order| && Ranked(hits, Sorted(hits))
  {
    MergedIsSeen(hits);
    SortRanks(hits, Merged(Collect(hits)));
  }

  lemma SortedEntry(hits: seq<Hit>, i: nat)
    requires Proper(hits) && i < |Sorted(hits)|
    ensures Entry(hits, Sorted(hits)[i])
  {
    MergedIsSeen(hits);
    var t := Collect(hits);
    var merged := Merged(t);
    SortRanks(hits, merged);
    assert Sorted(hits)[i] in multiset(merged);
    var j :| 0 <= j < |merged| && merged[j] == Sorted(hits)[i];
    CollectAt(hits, t.order[j]);
    CollectMark(hits, t.order[j]);
    CollectText(hits, t.order[j]);
  }

  lemma SortedHasAll(hits: seq<Hit>, id: string) returns (i: nat)
    requires CountOf(hits, id) > 0
    ensures i < |Sorted(hits)| && Sorted(hits)[i].chunkId == id
  {
    MergedIsSeen(hits);
    var t := Collect(hits);
    var merged := Merged(t);
    SortRanks(hits, merged);
    CollectAt(hits, id);
    var j :| 0 <= j < |t.order| && t.order[j] == id;
    assert merged[j] in multiset(Sorted(hits));
    i :| 0 <= i < |Sorted(hits)| && Sorted(hits)[i] == merged[j];
  }

  /** The kept list: as many entries as asked for or as there are, highest score first, ties in first-seen order. */
  lemma TopIsRanked(hits: seq<Hit>, topK: nat)
    ensures var out := TopOf(hits, topK);
            && |out| == (if |ChunksSeen(hits)| <= topK then |ChunksSeen(hits)| else topK)
            && Ranked(hits, out) && out == Sorted(hits)[..|out|]
  {
    SortedIsRanked(hits);
    KeysAreDistinctChunks(hits);
  }

  /** Each kept entry belongs to a chunk that occurred, with the exact sum over all its occurrences as its score and the
      first text among them. */
  lemma TopEntry(hits: seq<Hit>, topK: nat, i: nat)
    requires Proper(hits) && i < |TopOf(hits, topK)|
    ensures Entry(hits, TopOf(hits, topK)[i])
  {
    SortedEntry(hits, i);
  }

  /** Kept entries are of distinct chunks, in non-increasing score. */
  lemma TopIsDistinct(hits: seq<Hit>, topK: nat, i: nat, j: nat)
    requires Proper(hits) && i < j < |TopOf(hits, topK)|
    ensures var out := TopOf(hits, topK); out[i].chunkId != out[j].chunkId && out[i].score >= out[j].score
  {
    TopIsRanked(hits, topK);
    TopEntry(hits, topK, i);
    TopEntry(hits, topK, j);
    assert Better(hits, TopOf(hits, topK)[i], TopOf(hits, topK)[j]);
  }

  ghost predicate Kept(hits: seq<Hit>, topK: nat, id: string) {
    exists j :: 0 <= j < |TopOf(hits, topK)| && TopOf(hits, topK)[j].chunkId == id
  }

  /** Whatever is dropped scores no more than anything kept. */
  lemma DroppedScoresLess(hits: seq<Hit>, topK: nat, id: string, i: nat)
    requires Proper(hits) && CountOf(hits, id) > 0 && !Kept(hits, topK, id) && i < |TopOf(hits, topK)|
    ensures ScoreOf(hits, id) <= TopOf(hits, topK)[i].score
  {
    var j := SortedHasAll(hits, id);
    SortedIsRanked(hits);
    SortedEntry(hits, j);
    var out := TopOf(hits, topK);
    assert forall m :: 0 <= m < |out| ==> out[m].chunkId != id;
    assert Better(hits, Sorted(hits)[i], Sorted(hits)[j]);
  }

  ghost function ChunksSeen(hits: seq<Hit>): set<string> {
    set i | 0 <= i < |hits| :: hits[i].cand.chunkId
  }

  lemma ChunksSeenGrow(hits: seq<Hit>)
    requires hits != []
    ensures ChunksSeen(hits) == ChunksSeen(hits[..|hits| - 1]) + {hits[|hits| - 1].cand.chunkId}
  {
    var front, last := hits[..|hits| - 1], hits[|hits| - 1].cand.chunkId;
    forall id | id in ChunksSeen(hits) ensures id in ChunksSeen(front) + {last} {
      var i :| 0 <= i < |hits| && hits[i].cand.chunkId == id;
      if i < |front| {
        assert front[i].cand.chunkId == id;
      }
    }
    forall id | id in ChunksSeen(front) ensures id in ChunksSeen(hits) {
      var i :| 0 <= i < |front| && front[i].cand.chunkId == id;
      assert hits[i].cand.chunkId == id;
    }
  }

  lemma {:induction false} SeenIffCounted(hits: seq<Hit>, id: string)
    ensures id in ChunksSeen(hits) <==> CountOf(hits, id) > 0
  {
    if hits != [] {
      SeenIffCounted(hits[..|hits| - 1], id);
      ChunksSeenGrow(hits);
    }
  }

  /** The number of keys is the number of distinct chunks. */
  lemma {:induction false} KeysAreDistinctChunks(hits: seq<Hit>)
    ensures |Collect(hits).order| == |ChunksSeen(hits)|
  {
    if hits == [] {
      assert ChunksSeen(hits) == {};
    } else {
      var front, last := hits[..|hits| - 1], hits[|hits| - 1].cand.chunkId;
      KeysAreDistinctChunks(front);
      ChunksSeenGrow(hits);
      SeenIffCounted(front, last);
      CollectAt(front, last);
    }
  }

  // ----- being ranked ahead -----

  /** In every prefix of the list `a` occurs at least as often as `b`: each occurrence of `b` has one of `a`
      before it. */
  ghost predicate Ahead(hits: seq<Hit>, a: string, b: string) {
    forall n :: 0 <= n <= |hits| ==> CountOf(hits[..n], a) >= CountOf(hits[..n], b)
  }

  lemma WeightFalls(k: nat, n: nat)
    ensures Weight(k, n) > Weight(k, n + 1) > 0.0
  {
  }

  /** Surplus occurrences are worth at least the next weight each, and strictly more once `a` has occurred. */
  ghost predicate Surplus(k: nat, n: nat, score: real, count: int, occurred: bool) {
    score >= count as real * Weight(k, n) && (occurred ==> score > count as real * Weight(k, n))
  }

  lemma SurplusStep(k: nat, n: nat, score: real, count: int, occurred: bool, gain: int)
    requires Surplus(k, n, score, count, occurred) && -1 <= gain <= 1 && count >= 0 && count + gain >= 0
    requires gain == -1 ==> occurred
    ensures Surplus(k, n + 1, score + gain as real * Weight(k, n), count + gain, occurred || gain == 1)
  {
    var w, v := Weight(k, n), Weight(k, n + 1);
    WeightFalls(k, n);
    var c := (count + gain) as real;
    assert c * w >= c * v && (c >= 1.0 ==> c * w > c * v);
    assert score + gain as real * w >= count as real * w + gain as real * w == c * w;
  }

  lemma {:induction false} AheadScores(results: seq<Candidate>, source: Source, k: nat, a: string, b: string, n: nat)
    requires a != b && Ahead(HitsOf(results, source, k), a, b) && n <= |results|
    ensures var p := HitsOf(results, source, k)[..n];
            Surplus(k, n, ScoreOf(p, a) - ScoreOf(p, b), CountOf(p, a) - CountOf(p, b), CountOf(p, a) > 0)
    decreases n
  {
    if n > 0 {
      var hits := HitsOf(results, source, k);
      var p := hits[..n - 1];
      assert hits[..n][..n - 1] == p && hits[..n][n - 1] == hits[n - 1];
      AheadScores(results, source, k, a, b, n - 1);
      assert CountOf(hits[..n], a) >= CountOf(hits[..n], b);
      var id := results[n - 1].chunkId;
      SurplusStep(k, n - 1, ScoreOf(p, a) - ScoreOf(p, b), CountOf(p, a) - CountOf(p, b), CountOf(p, a) > 0,
                  if id == a then 1 else if id == b then -1 else 0);
    }
  }

  lemma {:induction false} ScoreOfConcat(x: seq<Hit>, y: seq<Hit>, id: string)
    ensures ScoreOf(x + y, id) == ScoreOf(x, id) + ScoreOf(y, id)
    ensures CountOf(x + y, id) == CountOf(x, id) + CountOf(y, id)
    decreases |y|
  {
    if y == [] {
      assert x + y == x;
    } else {
      assert (x + y)[..|x + y| - 1] == x + y[..|y| - 1];
      ScoreOfConcat(x, y[..|y| - 1], id);
    }
  }

  /** A chunk ranked ahead of another wherever the latter occurs scores more. */
  lemma AheadWins(vec: seq<Candidate>, kw: seq<Candidate>, k: nat, a: string, b: string)
    requires a != b && Ahead(HitsOf(vec, Vector, k), a, b) && Ahead(HitsOf(kw, Keyword, k), a, b)
    requires CountOf(AllHits(vec, kw, k), b) > 0
    ensures ScoreOf(AllHits(vec, kw, k), a) > ScoreOf(AllHits(vec, kw, k), b)
  {
    var v, w := HitsOf(vec, Vector, k), HitsOf(kw, Keyword, k);
    AheadScores(vec, Vector, k, a, b, |vec|);
    AheadScores(kw, Keyword, k, a, b, |kw|);
    assert v[..|vec|] == v && w[..|kw|] == w;
    ScoreOfConcat(v, w, a);
    ScoreOfConcat(v, w, b);
    SurplusIsPositive(k, |vec|, ScoreOf(v, a) - ScoreOf(v, b), CountOf(v, a) - CountOf(v, b), CountOf(v, a) > 0);
    SurplusIsPositive(k, |kw|, ScoreOf(w, a) - ScoreOf(w, b), CountOf(w, a) - CountOf(w, b), CountOf(w, a) > 0);
  }

  lemma SurplusIsPositive(k: nat, n: nat, score: real, count: int, occurred: bool)
    requires Surplus(k, n, score, count, occurred) && count >= 0
    ensures score >= 0.0 && (occurred ==> score > 0.0)
  {
    WeightFalls(k, n);
    assert count as real * Weight(k, n) >= 0.0;
  }

  /** And so it comes first: whenever `b` is kept, `a` is kept in front of it. */
  lemma AheadComesFirst(vec: seq<Candidate>, kw: seq<Candidate>, k: nat, topK: nat, a: string, b: string, j: nat)
    returns (i: nat)
    requires a != b && Ahead(HitsOf(vec, Vector, k), a, b) && Ahead(HitsOf(kw, Keyword, k), a, b)
    requires j < |TopOf(AllHits(vec, kw, k), topK)| && TopOf(AllHits(vec, kw, k), topK)[j].chunkId == b
    ensures i < j && TopOf(AllHits(vec, kw, k), topK)[i].chunkId == a
  {
    var hits := AllHits(vec, kw, k);
    SortedEntry(hits, j);
    AheadWins(vec, kw, k, a, b);
    AllWeights(vec, kw, k, |vec| + |kw| + 1);
    ScoreBounds(hits, 0.0, Weight(k, 0), b);
    TimesGrows(0, CountOf(hits, b), 0.0);
    CountBasics(hits, a);
    i := SortedHasAll(hits, a);
    SortedEntry(hits, i);
    SortedIsRanked(hits);
    assert i > j ==> Better(hits, Sorted(hits)[j], Sorted(hits)[i]);
  }

  // ----- bounds and labels -----

  /** `n` times `w`. */
  function Times(n: nat, w: real): real {
    if n == 0 then 0.0 else Times(n - 1, w) + w
  }

  lemma {:induction false} TimesGrows(m: nat, n: nat, w: real)
    requires m <= n && w >= 0.0
    ensures 0.0 <= Times(m, w) <= Times(n, w)
    decreases n
  {
    if m < n {
      TimesGrows(m, n - 1, w);
    } else if m > 0 {
      TimesGrows(m - 1, m - 1, w);
    }
  }

  ghost predicate WeightsWithin(hits: seq<Hit>, least: real, most: real) {
    forall i :: 0 <= i < |hits| ==> least <= hits[i].weight <= most
  }

  lemma {:induction false} ScoreBounds(hits: seq<Hit>, least: real, most: real, id: string)
    requires WeightsWithin(hits, least, most)
    ensures Times(CountOf(hits, id), least) <= ScoreOf(hits, id) <= Times(CountOf(hits, id), most)
  {
    if hits != [] {
      assert least <= hits[|hits| - 1].weight <= most;
      ScoreBounds(hits[..|hits| - 1], least, most, id);
    }
  }

  ghost predicate NoDuplicates(results: seq<Candidate>) {
    forall i, j :: 0 <= i < j < |results| ==> results[i].chunkId != results[j].chunkId
  }

  ghost predicate Occurs(results: seq<Candidate>, id: string) {
    exists i :: 0 <= i < |results| && results[i].chunkId == id
  }

  /** The chunk occurs at least twice in one list. */
  ghost predicate Repeats(results: seq<Candidate>, id: string) {
    exists i, j :: 0 <= i < j < |results| && results[i].chunkId == results[j].chunkId == id
  }

  lemma OccursGrows(results: seq<Candidate>, id: string)
    requires results != []
    ensures var last := |results| - 1;
            Occurs(results, id) <==> Occurs(results[..last], id) || results[last].chunkId == id
  {
    var last := |results| - 1;
    if Occurs(results, id) {
      var i :| 0 <= i < |results| && results[i].chunkId == id;
      assert i < last ==> results[..last][i].chunkId == id;
    }
    if Occurs(results[..last], id) {
      var i :| 0 <= i < last && results[..last][i].chunkId == id;
      assert results[i].chunkId == id;
    }
  }

  lemma RepeatsGrows(results: seq<Candidate>, id: string)
    requires results != []
    ensures var last := |results| - 1;
            Repeats(results, id) == (Repeats(results[..last], id)
                                     || (Occurs(results[..last], id) && results[last].chunkId == id))
  {
    var last := |results| - 1;
    var front := results[..last];
    if Repeats(results, id) {
      var i, j :| 0 <= i < j < |results| && results[i].chunkId == results[j].chunkId == id;
      assert front[i].chunkId == id;
      assert j < last ==> front[j].chunkId == id;
    }
    if Repeats(front, id) {
      var i, j :| 0 <= i < j < |front| && front[i].chunkId == front[j].chunkId == id;
      assert results[i].chunkId == results[j].chunkId == id;
    }
    if Occurs(front, id) && results[last].chunkId == id {
      var i :| 0 <= i < |front| && front[i].chunkId == id;
      assert results[i].chunkId == results[last].chunkId == id;
    }
  }

  lemma {:induction false} CountsOccurrences(results: seq<Candidate>, source: Source, k: nat, id: string)
    ensures CountOf(HitsOf(results, source, k), id) >= 1 <==> Occurs(results, id)
    ensures CountOf(HitsOf(results, source, k), id) >= 2 <==> Repeats(results, id)
    decreases |results|
  {
    if results != [] {
      var front := results[..|results| - 1];
      CountsOccurrences(front, source, k, id);
      OccursGrows(results, id);
      RepeatsGrows(results, id);
      assert HitsOf(results, source, k)[..|front|] == HitsOf(front, source, k);
    }
  }

  /** The chunk is marked as found by both retrievers. */
  ghost predicate MarkedBoth(vec: seq<Candidate>, kw: seq<Candidate>, k: nat, id: string) {
    CountOf(AllHits(vec, kw, k), id) >= 2
  }

  /** Exactly when the mark "both" means what it says: it marks the chunks that occur in both lists, and no others, if
      and only if every chunk repeated within one list also occurs in the other. Duplicate-free lists are such. */
  lemma BothMeansBothIff(vec: seq<Candidate>, kw: seq<Candidate>, k: nat)
    ensures (forall id :: MarkedBoth(vec, kw, k, id) <==> Occurs(vec, id) && Occurs(kw, id))
       <==> (forall id :: (Repeats(vec, id) ==> Occurs(kw, id)) && (Repeats(kw, id) ==> Occurs(vec, id)))
  {
    forall id ensures MarkedBoth(vec, kw, k, id)
                 <==> (Occurs(vec, id) && Occurs(kw, id)) || Repeats(vec, id) || Repeats(kw, id) {
      ScoreOfConcat(HitsOf(vec, Vector, k), HitsOf(kw, Keyword, k), id);
      CountsOccurrences(vec, Vector, k, id);
      CountsOccurrences(kw, Keyword, k, id);
    }
    forall id ensures (Repeats(vec, id) ==> Occurs(vec, id)) && (Repeats(kw, id) ==> Occurs(kw, id)) {
      CountsOccurrences(vec, Vector, k, id);
      CountsOccurrences(kw, Keyword, k, id);
    }
  }

  datatype Label = High | Medium | Low

  function Confidence(score: real): Label {
    if score >= 0.05 then High else if score >= 0.02 then Medium else Low
  }

  /** Results of lists of at most `n` have weights between that of rank n and that of rank one. */
  lemma AllWeights(vec: seq<Candidate>, kw: seq<Candidate>, k: nat, n: nat)
    requires 1 <= n && |vec| <= n && |kw| <= n
    ensures Weight(k, n - 1) > 0.0
    ensures WeightsWithin(AllHits(vec, kw, k), 0.0, Weight(k, 0))
    ensures WeightsWithin(AllHits(vec, kw, k), Weight(k, n - 1), Weight(k, 0))
  {
    WeightBounds(k, 0, n - 1);
    var hits := AllHits(vec, kw, k);
    forall i | 0 <= i < |hits| ensures Weight(k, n - 1) <= hits[i].weight <= Weight(k, 0) {
      var rank := if i < |vec| then i else i - |vec|;
      assert hits[i].weight == Weight(k, rank);
      WeightBounds(k, 0, rank);
      WeightBounds(k, rank, n - 1);
    }
  }

  lemma {:induction false} WeightBounds(k: nat, m: nat, n: nat)
    requires m <= n
    ensures 0.0 < Weight(k, n) <= Weight(k, m)
    decreases n
  {
    if m < n {
      WeightBounds(k, m, n - 1);
      WeightFalls(k, n - 1);
    }
  }

  /** A chunk is found once for each list that has it if and only if neither list repeats it. */
  lemma CountIsListsIff(vec: seq<Candidate>, kw: seq<Candidate>, k: nat, id: string)
    requires Occurs(vec, id) || Occurs(kw, id)
    ensures CountOf(AllHits(vec, kw, k), id) == (if Occurs(vec, id) && Occurs(kw, id) then 2 else 1)
       <==> !Repeats(vec, id) && !Repeats(kw, id)
  {
    ScoreOfConcat(HitsOf(vec, Vector, k), HitsOf(kw, Keyword, k), id);
    CountsOccurrences(vec, Vector, k, id);
    CountsOccurrences(kw, Keyword, k, id);
  }

  /** The score of a chunk found c times in lists of at most `n` lies between c times the weight of rank n and c times
      the weight of rank one. */
  lemma ScoreRange(vec: seq<Candidate>, kw: seq<Candidate>, k: nat, n: nat, id: string)
    requires 1 <= n && |vec| <= n && |kw| <= n
    ensures var hits := AllHits(vec, kw, k);
            var c := CountOf(hits, id);
            Times(c, Weight(k, n - 1)) <= ScoreOf(hits, id) <= Times(c, Weight(k, 0))
            && (c > 0 ==> ScoreOf(hits, id) > 0.0)
  {
    AllWeights(vec, kw, k, n);
    ScoreBounds(AllHits(vec, kw, k), Weight(k, n - 1), Weight(k, 0), id);
    if CountOf(AllHits(vec, kw, k), id) > 0 {
      TimesGrows(1, CountOf(AllHits(vec, kw, k), id), Weight(k, n - 1));
    }
  }

  /** `DEFAULT_RRF_K` and `DEFAULT_TOP_K`; the retrievers return at most the latter. */
  const RRF_K: nat := 60
  const TOP_K: nat := 20

  /** With the defaults the label counts: "high" means found at least four times, "medium" two or three times. */
  lemma LabelIsCount(vec: seq<Candidate>, kw: seq<Candidate>, id: string)
    requires |vec| <= TOP_K && |kw| <= TOP_K
    ensures var c := CountOf(AllHits(vec, kw, RRF_K), id);
            Confidence(ScoreOf(AllHits(vec, kw, RRF_K), id)) == if c >= 4 then High else if c >= 2 then Medium else Low
  {
    ScoreRange(vec, kw, RRF_K, TOP_K, id);
    LabelOfRange(CountOf(AllHits(vec, kw, RRF_K), id), ScoreOf(AllHits(vec, kw, RRF_K), id));
  }

  lemma LabelOfRange(c: nat, score: real)
    requires Times(c, Weight(60, 19)) <= score <= Times(c, Weight(60, 0))
    ensures Confidence(score) == if c >= 4 then High else if c >= 2 then Medium else Low
  {
    NeedsCount(c, score);
    var w := Weight(60, 19);
    assert w == 1.0 / 80.0 && Times(2, w) == 0.025 && Times(4, w) == 0.05;
    if c >= 4 {
      TimesGrows(4, c, w);
    } else if c >= 2 {
      TimesGrows(2, c, w);
    }
  }

  /** So "high" takes a chunk that one list holds twice, and "medium" one that both lists have or one holds twice; this
      holds for lists of any length. */
  lemma HighTakesRepeats(vec: seq<Candidate>, kw: seq<Candidate>, id: string)
    ensures var mark := Confidence(ScoreOf(AllHits(vec, kw, RRF_K), id));
            && (mark == High ==> Repeats(vec, id) || Repeats(kw, id))
            && (mark != Low ==> (Occurs(vec, id) && Occurs(kw, id)) || Repeats(vec, id) || Repeats(kw, id))
  {
    ScoreRange(vec, kw, RRF_K, |vec| + |kw| + 1, id);
    ScoreOfConcat(HitsOf(vec, Vector, RRF_K), HitsOf(kw, Keyword, RRF_K), id);
    CountsOccurrences(vec, Vector, RRF_K, id);
    CountsOccurrences(kw, Keyword, RRF_K, id);
    NeedsCount(CountOf(AllHits(vec, kw, RRF_K), id), ScoreOf(AllHits(vec, kw, RRF_K), id));
  }

  lemma NeedsCount(c: nat, score: real)
    requires score <= Times(c, Weight(60, 0))
    ensures (Confidence(score) == High ==> c >= 4) && (Confidence(score) != Low ==> c >= 2)
  {
    var w := Weight(60, 0);
    assert w == 1.0 / 61.0 && Times(1, w) < 0.02 && Times(3, w) < 0.05;
    if c <= 1 {
      TimesGrows(c, 1, w);
    } else if c <= 3 {
      TimesGrows(c, 3, w);
    }
  }

  /** The rows of keyword search: one for each pair of a matching chunk and a group that the caller shares with its
      document, as the join gives them. */
  function JoinRows(chunks: seq<Candidate>, shared: Candidate -> nat): seq<Candidate> {
    if chunks == [] then [] else seq(shared(chunks[0]), _ => chunks[0]) + JoinRows(chunks[1..], shared)
  }

  /** A document shared with four of the caller's groups gives its chunk four rows: found by keyword search alone it is
      labelled "high" and marked as found by both. */
  lemma FourGroupsMakeHigh(c: Candidate)
    ensures var rows := JoinRows([c], _ => 4);
            && rows == [c, c, c, c]
            && Confidence(ScoreOf(AllHits([], rows, RRF_K), c.chunkId)) == High
            && MarkedBoth([], rows, RRF_K, c.chunkId)
  {
    var rows := JoinRows([c], _ => 4);
    assert JoinRows([c][1..], _ => 4) == [];
    assert rows == [c, c, c, c];
    var hits := AllHits([], rows, RRF_K);
    assert |hits| == 4 && forall i :: 0 <= i < 4 ==> hits[i].cand == c;
    AllOneChunk(hits, c.chunkId);
    LabelIsCount([], rows, c.chunkId);
  }

  lemma {:induction false} AllOneChunk(hits: seq<Hit>, id: string)
    requires forall i :: 0 <= i < |hits| ==> hits[i].cand.chunkId == id
    ensures CountOf(hits, id) == |hits|
  {
    if hits != [] {
      AllOneChunk(hits[..|hits| - 1], id);
    }
  }

  // ----- hydration -----

  /** The ids that the text query asks for. */
  function MissingIds(cands: seq<Candidate>): set<string> {
    set i | 0 <= i < |cands| && cands[i].text == "" :: cands[i].chunkId
  }

  lemma NothingMissing(cands: seq<Candidate>)
    requires MissingIds(cands) == {}
    ensures forall i :: 0 <= i < |cands| ==> cands[i].text != ""
  {
    forall i | 0 <= i < |cands| ensures cands[i].text != "" {
      assert cands[i].chunkId !in MissingIds(cands);
    }
  }

  function Hydrated(c: Candidate, found: map<string, string>): Candidate {
    if c.chunkId in found then c.(text := found[c.chunkId]) else c
  }

  /** `order` and `byId` are the dictionary of the first `n` candidates by id, in first-seen order. */
  ghost predicate Indexed(cands: seq<Candidate>, n: nat, order: seq<string>, byId: map<string, Candidate>)
    requires n <= |cands|
  {
    |order| == n && forall j :: 0 <= j < n ==>
      order[j] == cands[j].chunkId && order[j] in byId && byId[order[j]] == cands[j]
  }

  ghost predicate KeysOf(cands: seq<Candidate>, n: nat, order: seq<string>, byId: map<string, Candidate>)
    requires n <= |cands|
  {
    && (forall id :: id in order <==> id in byId)
    && (forall id :: id in order ==> exists j :: 0 <= j < n && cands[j].chunkId == id)
  }

  method IndexById(cands: seq<Candidate>) returns (order: seq<string>, byId: map<string, Candidate>)
    ensures KeysOf(cands, |cands|, order, byId)
    ensures NoDuplicates(cands) ==> Indexed(cands, |cands|, order, byId)
  {
    order, byId := [], map[];
    for i := 0 to |cands|
      invariant KeysOf(cands, i, order, byId)
      invariant NoDuplicates(cands) ==> Indexed(cands, i, order, byId)
    {
      var id := cands[i].chunkId;
      if id !in order {
        order := order + [id];
      }
      byId := byId[id := cands[i]];
    }
  }

  /** Of distinct candidates, the one whose text is asked for has none. */
  lemma MissingIff(cands: seq<Candidate>, i: nat)
    requires NoDuplicates(cands) && i < |cands|
    ensures cands[i].chunkId in MissingIds(cands) <==> cands[i].text == ""
  {
    if cands[i].chunkId in MissingIds(cands) {
      var j :| 0 <= j < |cands| && cands[j].text == "" && cands[j].chunkId == cands[i].chunkId;
      assert i == j;
    }
  }

  /** The merged list has distinct ids, so filling in texts keeps its order and changes nothing but missing texts. */
  method HydrateText(cands: seq<Candidate>, stored: map<string, string>) returns (out: seq<Candidate>)
    ensures NoDuplicates(cands) ==> |out| == |cands|
    ensures NoDuplicates(cands) ==> forall i :: 0 <= i < |cands| ==> out[i] == Supplied(cands[i], stored)
    ensures NoDuplicates(cands) ==> forall i :: 0 <= i < |cands| ==>
              out[i] == cands[i].(text := if cands[i].text == "" && cands[i].chunkId in stored
                                          then stored[cands[i].chunkId] else cands[i].text)
  {
    var missing := MissingIds(cands);
    if missing == {} {
      NothingMissing(cands);
      return cands;
    }
    var textById := map id | id in missing && id in stored :: stored[id];
    var order, byId := IndexById(cands);
    out := seq(|order|, i requires 0 <= i < |order| && order[i] in byId => Hydrated(byId[order[i]], textById));
    if NoDuplicates(cands) {
      forall i | 0 <= i < |cands| ensures out[i] == Supplied(cands[i], stored) {
        MissingIff(cands, i);
      }
    }
  }

  /** The candidate with the stored text, if it has none of its own. */
  function Supplied(c: Candidate, stored: map<string, string>): Candidate {
    if c.text == "" && c.chunkId in stored then c.(text := stored[c.chunkId]) else c
  }
}
