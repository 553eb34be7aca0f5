/** The page walk of the keyset handlers: rows newest first, a page after the row the cursor names, and the table
    changing arbitrarily between requests. A row is known by its timestamp and its id. */
module KeysetPaging {
  import opened Wrappers
  import opened Cursors
  import opened Texts

  datatype Key = Key(createdAt: int, id: string)

  // ----- the order of keys -----

  /** The condition of the cursor filter: older, or as old with a smaller id. */
  predicate Below(a: Key, b: Key) {
    a.createdAt < b.createdAt || (a.createdAt == b.createdAt && TextLess(a.id, b.id))
  }

  lemma BelowOrder(a: Key, b: Key, c: Key)
    ensures !Below(a, a)
    ensures Below(a, b) && Below(b, c) ==> Below(a, c)
    ensures a != b ==> Below(a, b) || Below(b, a)
  {
    TextLessOrder(a.id, b.id, c.id);
  }

  // ----- one request -----

  ghost predicate Descending(rows: seq<Key>) {
    forall i, j :: 0 <= i < j < |rows| ==> Below(rows[j], rows[i])
  }

  /** The greatest key of a table. */
  ghost function Newest(t: set<Key>): (k: Key)
    requires t != {}
    ensures Tops(k, t)
  {
    NewestExists(t);
    var k :| Tops(k, t);
    k
  }

  ghost predicate Tops(k: Key, t: set<Key>) {
    k in t && forall x :: x in t && x != k ==> Below(x, k)
  }

  lemma {:induction false} NewestExists(t: set<Key>)
    requires t != {}
    ensures exists k :: Tops(k, t)
    decreases |t|
  {
    var y :| y in t;
    if t == {y} {
      assert Tops(y, t);
    } else {
      NewestExists(t - {y});
      var m :| Tops(m, t - {y});
      TopsWith(m, t, y);
    }
  }

  lemma TopsWith(m: Key, t: set<Key>, y: Key)
    requires y in t && Tops(m, t - {y})
    ensures Tops(if Below(m, y) then y else m, t)
  {
    forall x | x in t && x != y && x != m ensures Below(x, if Below(m, y) then y else m) {
      assert x in t - {y};
      BelowOrder(x, m, y);
    }
    BelowOrder(m, y, y);
  }

  /** `ORDER BY created_at DESC, id DESC`. */
  ghost function Ordered(t: set<Key>): seq<Key>
    decreases |t|
  {
    if t == {} then [] else [Newest(t)] + Ordered(t - {Newest(t)})
  }

  lemma {:induction false} OrderedIsTable(t: set<Key>)
    ensures |Ordered(t)| == |t| && Descending(Ordered(t)) && forall k :: k in Ordered(t) <==> k in t
    decreases |t|
  {
    if t != {} {
      var rest := t - {Newest(t)};
      OrderedIsTable(rest);
      var tail := Ordered(rest);
      forall j | 0 <= j < |tail| ensures Below(tail[j], Newest(t)) {
        assert tail[j] in rest;
      }
    }
  }

  /** The rows the cursor filter keeps. */
  ghost function After(t: set<Key>, cursor: Option<Key>): set<Key> {
    if cursor.None? then t else set k | k in t && Below(k, cursor.value)
  }

  datatype Page = Page(rows: seq<Key>, next: Option<Key>)

  function Take<T>(xs: seq<T>, n: nat): (r: seq<T>)
    ensures |r| == if |xs| <= n then |xs| else n
    ensures r <= xs
  {
    if |xs| <= n then xs else xs[..n]
  }

  /** `LIMIT limit + 1`: one more row than is shown tells whether there is a next page. */
  ghost function PageOf(t: set<Key>, cursor: Option<Key>, limit: nat): Page
    requires limit >= 1
  {
    var found := Take(Ordered(After(t, cursor)), limit + 1);
    var rows := Take(found, limit);
    Page(rows, if |found| > limit && rows != [] then Some(rows[|rows| - 1]) else None)
  }

  /** There is a next page exactly when rows are left over; otherwise the page is all of them. */
  lemma PageShape(t: set<Key>, cursor: Option<Key>, limit: nat)
    requires limit >= 1
    ensures var found, page := Ordered(After(t, cursor)), PageOf(t, cursor, limit);
            if |found| > limit then page.rows == found[..limit] && page.next == Some(found[limit - 1])
            else page.rows == found && page.next == None
  {
    var found := Ordered(After(t, cursor));
    if |found| > limit {
      assert Take(found, limit + 1)[..limit] == found[..limit];
    }
  }

  datatype Reply = BadRequest | ServerError | Rows(rows: seq<Key>, next: Option<string>)

  function CursorOf(clock: Clock, k: Option<Key>): Option<string> {
    if k.None? then None else Some(EncodeCursor(clock, k.value.createdAt, k.value.id))
  }

  /** The handler on the rows that match the filters: an empty cursor counts as none, an unreadable one is a bad
      request, and the next cursor is made from the last row shown. */
  ghost function Handle(clock: Clock, t: set<Key>, cursor: Option<string>, limit: nat): Reply
    requires limit >= 1
  {
    if cursor.None? || cursor.value == "" then Respond(clock, PageOf(t, None, limit))
    else
      var at := DecodeCursor(clock, cursor.value);
      if at.Err? then (if at.error.InvalidCursor? then BadRequest else ServerError)
      else Respond(clock, PageOf(t, Some(Key(at.value.0, at.value.1)), limit))
  }

  ghost function Respond(clock: Clock, page: Page): Reply {
    Rows(page.rows, CursorOf(clock, page.next))
  }

  /** Sending back the cursor of a page continues below its last row. */
  lemma CursorContinues(clock: Clock, t: set<Key>, cursor: Option<Key>, limit: nat)
    requires limit >= 1 && clock.Sound()
    ensures Handle(clock, t, CursorOf(clock, cursor), limit) == Respond(clock, PageOf(t, cursor, limit))
  {
    if cursor.Some? {
      var ts, id := cursor.value.createdAt, cursor.value.id;
      assert clock.SoundFor(ts);
      CursorRoundTrip(clock, ts, id);
      CursorIsNotEmpty(clock, ts, id);
    }
  }

  /** `next_cursor_from_rows` on the rows of a limit-plus-one query. */
  function NextCursorFromRows(clock: Clock, rows: seq<Key>, limit: nat): Option<string>
    requires limit >= 1
  {
    if |rows| > limit then CursorOf(clock, Some(rows[limit - 1])) else None
  }

  /** The helper gives the cursor the handlers compute in line. */
  lemma HelperAgrees(clock: Clock, t: set<Key>, cursor: Option<Key>, limit: nat)
    requires limit >= 1
    ensures NextCursorFromRows(clock, Take(Ordered(After(t, cursor)), limit + 1), limit)
         == CursorOf(clock, PageOf(t, cursor, limit).next)
  {
    PageShape(t, cursor, limit);
  }

  // ----- a walk -----

  /** The rows shown by following `next` from `cursor`, request by request; `tables` is what each request finds. */
  ghost function Walk(tables: seq<set<Key>>, cursor: Option<Key>, limit: nat): seq<Key>
    requires limit >= 1
    decreases |tables|
  {
    if tables == [] then []
    else
      var page := PageOf(tables[0], cursor, limit);
      if page.next.None? then page.rows else page.rows + Walk(tables[1..], page.next, limit)
  }

  /** The walk has come to its last page within these requests. */
  ghost predicate Finishes(tables: seq<set<Key>>, cursor: Option<Key>, limit: nat)
    requires limit >= 1
    decreases |tables|
  {
    tables != [] &&
    var page := PageOf(tables[0], cursor, limit);
    page.next.None? || Finishes(tables[1..], page.next, limit)
  }

  ghost predicate Past(k: Key, cursor: Option<Key>) {
    cursor.None? || Below(k, cursor.value)
  }

  ghost predicate AllPast(rows: seq<Key>, cursor: Option<Key>) {
    forall i :: 0 <= i < |rows| ==> Past(rows[i], cursor)
  }

  /** What one page shows: rows past the cursor, descending; every row of the table past the cursor is shown or lies
      past the next cursor, and the next cursor is the last row shown. */
  lemma PageFacts(t: set<Key>, cursor: Option<Key>, limit: nat)
    requires limit >= 1
    ensures var page := PageOf(t, cursor, limit);
            && Descending(page.rows) && AllPast(page.rows, cursor)
            && (page.next.Some? ==> page.rows != [] && page.next.value == page.rows[|page.rows| - 1])
            && (page.next.None? ==> forall k :: k in t && Past(k, cursor) ==> k in page.rows)
  {
    PageShape(t, cursor, limit);
    var found := Ordered(After(t, cursor));
    OrderedIsTable(After(t, cursor));
    forall i | 0 <= i < |found| ensures Past(found[i], cursor) {
      assert found[i] in After(t, cursor);
    }
  }

  lemma PageMisses(t: set<Key>, cursor: Option<Key>, limit: nat, k: Key)
    requires limit >= 1 && k in t && Past(k, cursor) && PageOf(t, cursor, limit).next.Some?
    ensures var page := PageOf(t, cursor, limit); k in page.rows || Past(k, page.next)
  {
    PageShape(t, cursor, limit);
    var found := Ordered(After(t, cursor));
    OrderedIsTable(After(t, cursor));
    assert k in found;
    var i :| 0 <= i < |found| && found[i] == k;
    if i < limit {
      assert found[..limit][i] == k;
    }
  }

  /** Rows past the last of a descending list extend it. */
  lemma DescendingConcat(rows: seq<Key>, more: seq<Key>)
    requires Descending(rows) && Descending(more) && rows != [] && AllPast(more, Some(rows[|rows| - 1]))
    ensures Descending(rows + more)
  {
    var last := rows[|rows| - 1];
    forall i, j | 0 <= i < |rows| && 0 <= j < |more| ensures Below(more[j], rows[i]) {
      assert Past(more[j], Some(last));
      BelowOrder(more[j], last, rows[i]);
    }
  }

  /** However the table changes between requests, the rows shown are strictly descending, all past the cursor; so no
      row is shown twice. */
  lemma {:induction false} WalkDescends(tables: seq<set<Key>>, cursor: Option<Key>, limit: nat)
    requires limit >= 1
    ensures Descending(Walk(tables, cursor, limit)) && AllPast(Walk(tables, cursor, limit), cursor)
    decreases |tables|
  {
    if tables != [] {
      var page := PageOf(tables[0], cursor, limit);
      PageFacts(tables[0], cursor, limit);
      if page.next.Some? {
        WalkDescends(tables[1..], page.next, limit);
        var more := Walk(tables[1..], page.next, limit);
        DescendingConcat(page.rows, more);
        forall i | 0 <= i < |more| ensures Past(more[i], cursor) {
          assert Past(page.next.value, cursor);
          if cursor.Some? {
            assert Past(more[i], page.next);
            BelowOrder(more[i], page.next.value, cursor.value);
          }
        }
      }
    }
  }

  /** Every row that is there at each request of a finished walk is shown. */
  lemma {:induction false} WalkShowsLasting(tables: seq<set<Key>>, cursor: Option<Key>, limit: nat, k: Key)
    requires limit >= 1 && Finishes(tables, cursor, limit) && Past(k, cursor)
    requires forall i :: 0 <= i < |tables| ==> k in tables[i]
    ensures k in Walk(tables, cursor, limit)
    decreases |tables|
  {
    var page := PageOf(tables[0], cursor, limit);
    PageFacts(tables[0], cursor, limit);
    assert k in tables[0];
    if page.next.Some? {
      PageMisses(tables[0], cursor, limit, k);
      if k !in page.rows {
        assert forall i :: 0 <= i < |tables[1..]| ==> tables[1..][i] == tables[i + 1];
        WalkShowsLasting(tables[1..], page.next, limit, k);
      }
    }
  }

  lemma {:induction false} DescendingIsDistinct(rows: seq<Key>, k: Key)
    requires Descending(rows)
    ensures multiset(rows)[k] <= 1
    decreases |rows|
  {
    if rows != [] {
      assert rows == [rows[0]] + rows[1..];
      DescendingIsDistinct(rows[1..], k);
      HeadIsNewest(rows);
      assert k == rows[0] ==> k !in multiset(rows[1..]);
    }
  }

  lemma HeadIsNewest(rows: seq<Key>)
    requires Descending(rows) && rows != []
    ensures Descending(rows[1..]) && forall x :: x in rows[1..] ==> x in rows && x != rows[0] && Below(x, rows[0])
  {
    forall x | x in rows[1..] ensures x in rows && x != rows[0] && Below(x, rows[0]) {
      var i :| 0 <= i < |rows[1..]| && rows[1..][i] == x;
      assert Below(rows[i + 1], rows[0]);
      BelowOrder(x, x, x);
    }
  }

  /** Whatever is inserted and deleted between the pages of a finished walk from the start, a row that is there
      throughout is shown exactly once. */
  lemma LastingExactlyOnce(tables: seq<set<Key>>, limit: nat, k: Key)
    requires limit >= 1 && Finishes(tables, None, limit) && forall i :: 0 <= i < |tables| ==> k in tables[i]
    ensures multiset(Walk(tables, None, limit))[k] == 1
  {
    WalkDescends(tables, None, limit);
    WalkShowsLasting(tables, None, limit, k);
    DescendingIsDistinct(Walk(tables, None, limit), k);
  }

  // ----- a table that stands still -----

  function Still(t: set<Key>, n: nat): seq<set<Key>>
  {
    seq(n, _ => t)
  }

  /** The rows past the last row shown are the rest of the ordered rows. */
  lemma RestOfOrdered(t: set<Key>, cursor: Option<Key>, n: nat)
    requires 1 <= n <= |Ordered(After(t, cursor))|
    ensures var found := Ordered(After(t, cursor)); Ordered(After(t, Some(found[n - 1]))) == found[n..]
  {
    var s := After(t, cursor);
    OrderedIsTable(s);
    var found := Ordered(s);
    forall k ensures k in After(t, Some(found[n - 1])) <==> k in found[n..] {
      assert found[n - 1] in s;
      PastIsAfter(found, n, k);
      if cursor.Some? {
        BelowOrder(k, found[n - 1], cursor.value);
      }
    }
    OrderedIsUnique(After(t, Some(found[n - 1])), found[n..]);
  }

  lemma PastIsAfter(rows: seq<Key>, n: nat, k: Key)
    requires Descending(rows) && 1 <= n <= |rows|
    ensures k in rows[n..] <==> k in rows && Below(k, rows[n - 1])
  {
    if k in rows[n..] {
      var i :| n <= i < |rows| && rows[i] == k;
      assert Below(rows[i], rows[n - 1]);
    }
    forall j | n <= j < |rows| ensures rows[j] in rows[n..] {
      assert rows[n..][j - n] == rows[j];
    }
    if k in rows && k !in rows[n..] {
      var i :| 0 <= i < |rows| && rows[i] == k;
      NotBelowEarlier(rows, i, n - 1);
    }
  }

  lemma NotBelowEarlier(rows: seq<Key>, i: nat, j: nat)
    requires Descending(rows) && i <= j < |rows|
    ensures !Below(rows[i], rows[j])
  {
    BelowOrder(rows[i], rows[j], rows[i]);
  }

  lemma {:induction false} OrderedIsUnique(t: set<Key>, rows: seq<Key>)
    requires Descending(rows) && forall k :: k in t <==> k in rows
    ensures Ordered(t) == rows
    decreases |rows|
  {
    if rows == [] {
      assert t == {} by {
        forall k ensures k !in t {
          assert k in t <==> k in rows;
        }
      }
    } else {
      HeadIsNewest(rows);
      assert rows[0] in t;
      assert Newest(t) in rows;
      BelowOrder(Newest(t), rows[0], Newest(t));
      forall k ensures k in rows ==> k == rows[0] || k in rows[1..] {
        assert rows == [rows[0]] + rows[1..];
      }
      OrderedIsUnique(t - {rows[0]}, rows[1..]);
    }
  }

  /** On a table that stands still the walk ends, within one request more than there are rows left, and shows exactly
      the ordered rows. */
  lemma {:induction false} StillWalk(t: set<Key>, cursor: Option<Key>, limit: nat, n: nat)
    requires limit >= 1 && n > |After(t, cursor)|
    ensures Finishes(Still(t, n), cursor, limit) && Walk(Still(t, n), cursor, limit) == Ordered(After(t, cursor))
    decreases n
  {
    var page := PageOf(t, cursor, limit);
    StillStep(t, n);
    if page.next.Some? {
      NextPage(t, cursor, limit);
      StillWalk(t, page.next, limit, n - 1);
      StillMore(t, cursor, limit, n, page);
    } else {
      LastPage(t, cursor, limit);
    }
  }

  lemma StillMore(t: set<Key>, cursor: Option<Key>, limit: nat, n: nat, page: Page)
    requires limit >= 1 && n > 0 && page == PageOf(t, cursor, limit) && page.next.Some?
    requires Finishes(Still(t, n - 1), page.next, limit)
    ensures Finishes(Still(t, n), cursor, limit)
    ensures Walk(Still(t, n), cursor, limit) == page.rows + Walk(Still(t, n - 1), page.next, limit)
  {
    StillStep(t, n);
  }

  lemma StillStep(t: set<Key>, n: nat)
    requires n > 0
    ensures Still(t, n) != [] && Still(t, n)[0] == t && Still(t, n)[1..] == Still(t, n - 1)
  {
  }

  lemma LastPage(t: set<Key>, cursor: Option<Key>, limit: nat)
    requires limit >= 1 && PageOf(t, cursor, limit).next.None?
    ensures PageOf(t, cursor, limit).rows == Ordered(After(t, cursor))
  {
    PageShape(t, cursor, limit);
  }

  lemma NextPage(t: set<Key>, cursor: Option<Key>, limit: nat)
    requires limit >= 1 && PageOf(t, cursor, limit).next.Some?
    ensures var page := PageOf(t, cursor, limit);
            && |After(t, page.next)| < |After(t, cursor)|
            && page.rows + Ordered(After(t, page.next)) == Ordered(After(t, cursor))
  {
    PageShape(t, cursor, limit);
    RowsLeft(t, cursor, limit);
  }

  lemma RowsLeft(t: set<Key>, cursor: Option<Key>, n: nat)
    requires 1 <= n <= |Ordered(After(t, cursor))|
    ensures var found := Ordered(After(t, cursor));
            && |After(t, Some(found[n - 1]))| < |After(t, cursor)|
            && found[..n] + Ordered(After(t, Some(found[n - 1]))) == found
  {
    var found := Ordered(After(t, cursor));
    OrderedIsTable(After(t, cursor));
    RestOfOrdered(t, cursor, n);
    OrderedIsTable(After(t, Some(found[n - 1])));
    PrefixAndRest(found, n);
  }

  lemma PrefixAndRest<T>(xs: seq<T>, n: nat)
    requires n <= |xs|
    ensures xs[..n] + xs[n..] == xs && |xs[n..]| == |xs| - n
  {
  }

  // ----- the walk of a client -----

  /** The rows a client collects that sends each next cursor back, starting without one. */
  ghost function Follow(clock: Clock, tables: seq<set<Key>>, cursor: Option<string>, limit: nat): seq<Key>
    requires limit >= 1
    decreases |tables|
  {
    if tables == [] then []
    else
      var reply := Handle(clock, tables[0], cursor, limit);
      if !reply.Rows? then []
      else if reply.next.None? then reply.rows
      else reply.rows + Follow(clock, tables[1..], reply.next, limit)
  }

  /** The text of the cursors does not get in the way: the client sees the walk, and no request is refused. */
  lemma {:induction false} FollowIsWalk(clock: Clock, tables: seq<set<Key>>, cursor: Option<Key>, limit: nat)
    requires limit >= 1 && clock.Sound()
    ensures Follow(clock, tables, CursorOf(clock, cursor), limit) == Walk(tables, cursor, limit)
    decreases |tables|
  {
    if tables != [] {
      CursorContinues(clock, tables[0], cursor, limit);
      FollowIsWalk(clock, tables[1..], PageOf(tables[0], cursor, limit).next, limit);
    }
  }
}
