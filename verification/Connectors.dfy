/** What the two connectors list, and where their cursors point: Drive reads a log of changes, Notion all pages, of
    which it keeps those edited after the cursor. */
module Connectors {
  import opened Wrappers
  import opened Texts
  import opened SyncReplay

  // ----- Notion -----

  /** A page with its `last_edited_time`; the empty string when there is none. */
  datatype Page = Page(id: string, edited: string)

  /** `rstrip("Z")`. */
  function WithoutZ(s: string): string {
    if s != "" && s[|s| - 1] == 'Z' then WithoutZ(s[..|s| - 1]) else s
  }

  function Stamp(p: Page): string {
    WithoutZ(p.edited) + "Z"
  }

  /** The listing passes over a page edited no later than the cursor. */
  predicate Skips(cursor: Option<string>, p: Page) {
    cursor.Some? && cursor.value != "" && !TextLess(cursor.value, Stamp(p))
  }

  function Pages(pages: seq<Page>, cursor: Option<string>): seq<Page> {
    if pages == [] then []
    else
      var last := pages[|pages| - 1];
      Pages(pages[..|pages| - 1], cursor) + if Skips(cursor, last) then [] else [last]
  }

  /** The latest of the cursor and the times of the pages listed. */
  function Latest(pages: seq<Page>, cursor: Option<string>): Option<string> {
    if pages == [] then cursor
    else
      var before, last := Latest(pages[..|pages| - 1], cursor), pages[|pages| - 1];
      if Skips(cursor, last) || (before.Some? && !TextLess(before.value, Stamp(last))) then before
      else Some(Stamp(last))
  }

  function AllPages(batches: seq<seq<Page>>): seq<Page> {
    if batches == [] then [] else AllPages(batches[..|batches| - 1]) + batches[|batches| - 1]
  }

  /** One response of the search. */
  method ReadBatch(ghost before: seq<Page>, batch: seq<Page>, cursor: Option<string>, docs0: seq<Page>,
                   max0: Option<string>) returns (docs: seq<Page>, maxModified: Option<string>)
    requires docs0 == Pages(before, cursor) && max0 == Latest(before, cursor)
    ensures docs == Pages(before + batch, cursor) && maxModified == Latest(before + batch, cursor)
  {
    docs, maxModified := docs0, max0;
    assert before + batch[..0] == before;
    for i := 0 to |batch|
      invariant docs == Pages(before + batch[..i], cursor) && maxModified == Latest(before + batch[..i], cursor)
    {
      var page := batch[i];
      OnePage(before, batch, i);
      var modified := Stamp(page);
      if cursor.Some? && cursor.value != "" && !TextLess(cursor.value, modified) {
        continue;
      }
      docs := docs + [page];
      if maxModified.None? || TextLess(maxModified.value, modified) {
        maxModified := Some(modified);
      }
    }
    assert batch[..|batch|] == batch;
  }

  lemma OnePage(before: seq<Page>, batch: seq<Page>, i: nat)
    requires i < |batch|
    ensures var longer := before + batch[..i + 1];
            longer[..|longer| - 1] == before + batch[..i] && longer[|longer| - 1] == batch[i]
  {
  }

  /** `list_changes`: the responses of the search, one after the other. */
  method ListPages(batches: seq<seq<Page>>, cursor: Option<string>) returns (docs: seq<Page>, next: Option<string>)
    ensures docs == Pages(AllPages(batches), cursor) && next == Latest(AllPages(batches), cursor)
  {
    docs, next := [], cursor;
    for i := 0 to |batches|
      invariant docs == Pages(AllPages(batches[..i]), cursor) && next == Latest(AllPages(batches[..i]), cursor)
    {
      assert batches[..i + 1][..i] == batches[..i];
      docs, next := ReadBatch(AllPages(batches[..i]), batches[i], cursor, docs, next);
    }
    assert batches[..|batches|] == batches;
  }

  lemma {:induction false} ListedIff(pages: seq<Page>, cursor: Option<string>, p: Page)
    ensures p in Pages(pages, cursor) <==> p in pages && !Skips(cursor, p)
    decreases |pages|
  {
    if pages != [] {
      ListedIff(pages[..|pages| - 1], cursor, p);
      assert pages == pages[..|pages| - 1] + [pages[|pages| - 1]];
    }
  }

  ghost predicate IsStampOf(pages: seq<Page>, stamp: string) {
    exists i :: 0 <= i < |pages| && Stamp(pages[i]) == stamp
  }

  lemma StampStays(pages: seq<Page>, last: Page, stamp: string)
    requires IsStampOf(pages, stamp) || Stamp(last) == stamp
    ensures IsStampOf(pages + [last], stamp)
  {
    if IsStampOf(pages, stamp) {
      var i :| 0 <= i < |pages| && Stamp(pages[i]) == stamp;
      assert Stamp((pages + [last])[i]) == stamp;
    } else {
      assert Stamp((pages + [last])[|pages|]) == stamp;
    }
  }

  /** What a listing and its next cursor have to do with each other: the cursor is the time of a page listed, unless
      none was, and no page listed is later. */
  ghost predicate Covers(docs: seq<Page>, cursor: Option<string>, next: Option<string>) {
    if docs == [] then next == cursor
    else
      && next.Some? && IsStampOf(docs, next.value)
      && forall i :: 0 <= i < |docs| ==> !TextLess(next.value, Stamp(docs[i]))
  }

  lemma CoversMore(docs: seq<Page>, cursor: Option<string>, next: Option<string>, last: Page, more: Option<string>)
    requires Covers(docs, cursor, next) && !Skips(cursor, last)
    requires more == if next.Some? && !TextLess(next.value, Stamp(last)) then next else Some(Stamp(last))
    ensures Covers(docs + [last], cursor, more)
  {
    assert more.Some?;
    StampStays(docs, last, more.value);
    forall i | 0 <= i < |docs| + 1 ensures !TextLess(more.value, Stamp((docs + [last])[i])) {
      TextLessOrder(Stamp(last), Stamp(last), Stamp(last));
      if i < |docs| && more != next {
        TextLessOrder(next.value, Stamp(last), Stamp(docs[i]));
      }
    }
  }

  lemma {:induction false} NextIsLatest(pages: seq<Page>, cursor: Option<string>)
    ensures Covers(Pages(pages, cursor), cursor, Latest(pages, cursor))
    decreases |pages|
  {
    if pages != [] {
      var front, last := pages[..|pages| - 1], pages[|pages| - 1];
      NextIsLatest(front, cursor);
      if Skips(cursor, last) {
        assert Pages(pages, cursor) == Pages(front, cursor);
      } else {
        CoversMore(Pages(front, cursor), cursor, Latest(front, cursor), last, Latest(pages, cursor));
      }
    }
  }

  /** Exactly which edit a later listing misses: of the pages edited no earlier than the latest edit listed, those with
      the very time of that edit. `later` is what the search returns then. */
  lemma EditIsMissedIff(pages: seq<Page>, cursor: Option<string>, later: seq<Page>, q: Page)
    requires Pages(pages, cursor) != [] && q in later
    requires forall p :: p in Pages(pages, cursor) ==> !TextLess(Stamp(q), Stamp(p))
    ensures q !in Pages(later, Latest(pages, cursor)) <==> Latest(pages, cursor) == Some(Stamp(q))
  {
    var docs, next := Pages(pages, cursor), Latest(pages, cursor);
    NextIsLatest(pages, cursor);
    var i :| 0 <= i < |docs| && Stamp(docs[i]) == next.value;
    assert docs[i] in docs;
    ListedIff(later, next, q);
    TextLessOrder(next.value, Stamp(q), Stamp(q));
  }

  lemma {:induction false} StampBegins(s: string)
    ensures WithoutZ(s) == "" || (s != "" && WithoutZ(s)[0] == s[0])
    decreases |s|
  {
    if s != "" && s[|s| - 1] == 'Z' {
      StampBegins(s[..|s| - 1]);
    }
  }

  /** One page without a time stops the listing for good: no page with a time is listed from the cursor it leaves. */
  lemma NoTimeStops(pages: seq<Page>, cursor: Option<string>, p: Page, later: seq<Page>, q: Page)
    requires p in Pages(pages, cursor) && WithoutZ(p.edited) == ""
    requires q.edited != "" && '0' <= q.edited[0] <= '9'
    ensures q !in Pages(later, Latest(pages, cursor))
  {
    var docs, next := Pages(pages, cursor), Latest(pages, cursor);
    NextIsLatest(pages, cursor);
    var i :| 0 <= i < |docs| && docs[i] == p;
    assert Stamp(p) == "Z" && !TextLess(next.value, "Z");
    StampBegins(q.edited);
    DigitBeforeZ(next.value, Stamp(q));
    ListedIff(later, next, q);
  }

  lemma DigitBeforeZ(next: string, stamp: string)
    requires !TextLess(next, "Z") && stamp != "" && (stamp[0] <= '9' || stamp == "Z")
    ensures next != "" && !TextLess(next, stamp)
  {
    TextLessOrder(next, stamp, "Z");
  }

  // ----- Drive -----

  /** What a run sees of the log of changes: its length when a start token is asked for, and when the last page is
      read. */
  datatype Window = Window(head: nat, end: nat)

  /** The log grows, and the runs come one after the other. */
  ghost predicate InOrder(log: seq<Window>) {
    && (forall t :: 0 <= t < |log| ==> log[t].head <= log[t].end)
    && (forall t, u :: 0 <= t < u < |log| ==> log[t].end <= log[u].head)
  }

  /** A run without a cursor begins where its own start token points. */
  function Opened(log: seq<Window>): nat -> nat {
    (u: nat) => if u < |log| then log[u].head else 0
  }

  /** The runs of a Drive source: each hands on the token of the end of what it read. */
  ghost predicate DriveRuns(runs: seq<SyncRun>, log: seq<Window>, token: nat -> string) {
    |runs| == |log| && InOrder(log) && forall t :: 0 <= t < |runs| ==> runs[t].next == Some(token(log[t].end))
  }

  /** Run `v` is the latest before `u` that got through, or -1 when none did. */
  ghost predicate LatestThrough(src: Source, runs: seq<SyncRun>, u: nat, v: int)
    requires u <= |runs|
  {
    && -1 <= v < u && (v >= 0 ==> GotThrough(src, runs[v]))
    && forall w :: 0 <= w < u && GotThrough(src, runs[w]) ==> w <= v
  }

  lemma OneRunMore(src: Source, runs: seq<SyncRun>, u: nat, v: int)
    requires u < |runs| && LatestThrough(src, runs, u, v)
    ensures LatestThrough(src, runs, u + 1, if GotThrough(src, runs[u]) then u else v)
  {
  }

  lemma CursorStep(src: Source, runs: seq<SyncRun>, u: nat)
    requires u < |runs|
    ensures CursorAt(src, None, runs[..u + 1])
         == if GotThrough(src, runs[u]) then runs[u].next else CursorAt(src, None, runs[..u])
  {
    assert runs[..u + 1][..u] == runs[..u] && runs[..u + 1][u] == runs[u];
  }

  /** Where the cursor before run `u` points: to the end of what the latest run that got through read. */
  lemma {:induction false} CursorOfRun(src: Source, runs: seq<SyncRun>, log: seq<Window>, token: nat -> string, u: nat)
    returns (v: int)
    requires DriveRuns(runs, log, token) && u <= |runs|
    ensures LatestThrough(src, runs, u, v)
    ensures CursorAt(src, None, runs[..u]) == if v < 0 then None else Some(token(log[v].end))
    decreases u
  {
    if u == 0 {
      v := -1;
    } else {
      CursorStep(src, runs, u - 1);
      v := CursorOfRun(src, runs, log, token, u - 1);
      OneRunMore(src, runs, u - 1, v);
      v := if GotThrough(src, runs[u - 1]) then u - 1 else v;
    }
  }

  /** Against "resumable": what a run of a Drive source without a cursor listed, no later run lists, wherever the run
      and those between died. `p` is a change that came after the start token of the run and before its end. */
  lemma FirstDriveRunIsLost(src: Source, runs: seq<SyncRun>, log: seq<Window>, token: nat -> string,
                            at: string -> nat, t: nat, u: nat, p: nat)
    requires DriveRuns(runs, log, token) && (forall n :: at(token(n)) == n)
    requires t < u < |runs| && CursorAt(src, None, runs[..t]).None? && log[t].head <= p < log[t].end
    ensures Begin(at, Opened(log), CursorAt(src, None, runs[..t]), t) <= p
    ensures p < Begin(at, Opened(log), CursorAt(src, None, runs[..u]), u)
  {
    var before := CursorOfRun(src, runs, log, token, t);
    var v := CursorOfRun(src, runs, log, token, u);
    if v >= 0 {
      assert at(token(log[v].end)) == log[v].end;
      assert v >= t;
    }
  }
}
