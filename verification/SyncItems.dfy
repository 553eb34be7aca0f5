/** What a sync run leaves in the table and in object storage, told from the changes it met and what came of each. */
module SyncItems {
  import opened Collections
  import opened Wrappers
  import opened SyncReplay

  /** The change is refused for its size. */
  predicate Oversized(src: Source, c: Change) {
    c.size.Some? && c.size.value > src.maxDocSize
  }

  /** Exactly which changes a run counts as failed, and why: those over the limit, whatever else would come of them, and
      those whose fetch, upload, upsert or reading again raises. A change of unknown size is not over it. */
  lemma WhatFails(src: Source, item: Item)
    ensures Failure(src, item)
         == if item.change.isDeleted then None
            else if Oversized(src, item.change) then Some(TooLarge(item.change.size.value))
            else
              match item.outcome
              case FetchFails(error) => Some(Raised(error))
              case UploadFails(error) => Some(Raised(error))
              case UpsertFails(_, _, error) => Some(Raised(error))
              case RereadFails(_, _, error) => Some(Raised(error))
              case Stored(_, _) => None
  {
  }

  // ----- the row of a document -----

  /** The change was fetched, and its row committed: the document has this key. */
  predicate StoresRow(src: Source, item: Item, k: RowKey) {
    && !item.change.isDeleted && !Oversized(src, item.change)
    && (item.outcome.Stored? || item.outcome.RereadFails?) && k == RowKey(src.kind, item.outcome.current.id)
  }

  predicate IsTombstone(src: Source, item: Item, k: RowKey) {
    item.change.isDeleted && k == RowKey(src.kind, item.change.id)
  }

  predicate Touches(src: Source, item: Item, k: RowKey) {
    StoresRow(src, item, k) || IsTombstone(src, item, k)
  }

  function KeyFor(src: Source, c: Change): string {
    src.kind + "/" + src.id + "/" + c.id
  }

  /** The row of a fetched document: what was fetched, naming its object. */
  function FetchedRow(src: Source, item: Item, contentHash: Option<string>): Row
    requires item.outcome.Stored? || item.outcome.RereadFails?
  {
    var content := item.outcome.current.content;
    Row(Content(content.url, content.modifiedAt, content.title, content.mimeType, content.size,
                content.extra["object_key" := KeyFor(src, item.change)]), Discovered, contentHash)
  }

  function RowLeft(src: Source, item: Item, k: RowKey, row: Option<Row>): Option<Row> {
    if StoresRow(src, item, k) then Some(FetchedRow(src, item, if row.None? then None else row.value.contentHash))
    else if IsTombstone(src, item, k) && row.Some? then
      Some(Row(row.value.content, SyncReplay.Deleted, row.value.contentHash))
    else row
  }

  lemma OneItemRow(s: Store, src: Source, item: Item, k: RowKey)
    ensures Get(ApplyAll(s, WritesOf(src, item)).rows, k) == RowLeft(src, item, k, Get(s.rows, k))
  {
    var ws := WritesOf(src, item);
    FirstWrites(s, ws);
    assert ws[..|ws|] == ws;
  }

  lemma StoreAfter(s: Store, src: Source, items: seq<Item>, n: nat)
    requires n < |items|
    ensures ApplyAll(s, Writes(src, items[..n + 1]))
         == ApplyAll(ApplyAll(s, Writes(src, items[..n])), WritesOf(src, items[n]))
  {
    assert items[..n + 1][..n] == items[..n];
    ApplyAllAppend(s, Writes(src, items[..n]), WritesOf(src, items[n]));
  }

  /** The row after the first `n` changes. */
  function RowAt(s: Store, src: Source, items: seq<Item>, n: nat, k: RowKey): Option<Row>
    requires n <= |items|
  {
    Get(ApplyAll(s, Writes(src, items[..n])).rows, k)
  }

  lemma RowStep(s: Store, src: Source, items: seq<Item>, n: nat, k: RowKey)
    requires n < |items|
    ensures RowAt(s, src, items, n + 1, k) == RowLeft(src, items[n], k, RowAt(s, src, items, n, k))
  {
    StoreAfter(s, src, items, n);
    OneItemRow(ApplyAll(s, Writes(src, items[..n])), src, items[n], k);
  }

  function HashIn(row: Option<Row>): Option<string> {
    if row.None? then None else row.value.contentHash
  }

  lemma SameHash(src: Source, item: Item, k: RowKey, row: Option<Row>)
    ensures HashIn(RowLeft(src, item, k, row)) == HashIn(row)
  {
  }

  lemma {:induction false} HashStays(s: Store, src: Source, items: seq<Item>, n: nat, k: RowKey)
    requires n <= |items|
    ensures HashIn(RowAt(s, src, items, n, k)) == HashIn(Get(s.rows, k))
    decreases n
  {
    if n == 0 {
      assert items[..0] == [];
    } else {
      HashStays(s, src, items, n - 1, k);
      RowStep(s, src, items, n - 1, k);
      SameHash(src, items[n - 1], k, RowAt(s, src, items, n - 1, k));
    }
  }

  lemma {:induction false} RowRests(s: Store, src: Source, items: seq<Item>, m: nat, n: nat, k: RowKey)
    requires m <= n <= |items| && forall j :: m <= j < n ==> !Touches(src, items[j], k)
    ensures RowAt(s, src, items, n, k) == RowAt(s, src, items, m, k)
    decreases n
  {
    if m < n {
      RowRests(s, src, items, m, n - 1, k);
      RowStep(s, src, items, n - 1, k);
    }
  }

  /** The store that a run leaves which lives to make all its writes. */
  function Left(s: Store, src: Source, items: seq<Item>, life: nat): Store {
    ApplyAll(s, Done(src, Attempt(items, life)))
  }

  lemma LeftIsAll(s: Store, src: Source, items: seq<Item>, life: nat)
    requires life >= |Writes(src, items)|
    ensures Left(s, src, items, life) == ApplyAll(s, Writes(src, items)) && items[..|items|] == items
  {
    var ws := Writes(src, items);
    assert ws[..|ws|] == ws;
  }

  /** After a run that gets through the last change of a document decides its row. Fetched and committed, it leaves what
      was fetched, as discovered, with the content hash there was; a tombstone marks what there is deleted. */
  lemma LastChangeDecides(s: Store, src: Source, items: seq<Item>, life: nat, i: nat, k: RowKey)
    requires life >= |Writes(src, items)| && i < |items| && Touches(src, items[i], k)
    requires forall j :: i < j < |items| ==> !Touches(src, items[j], k)
    ensures var row := Get(Left(s, src, items, life).rows, k);
            && (StoresRow(src, items[i], k) ==> row == Some(FetchedRow(src, items[i], HashIn(Get(s.rows, k)))))
            && (IsTombstone(src, items[i], k) ==>
                  if RowAt(s, src, items, i, k).None? then row.None?
                  else row == Some(RowAt(s, src, items, i, k).value.(status := SyncReplay.Deleted)))
  {
    LeftIsAll(s, src, items, life);
    RowRests(s, src, items, i + 1, |items|, k);
    RowStep(s, src, items, i, k);
    HashStays(s, src, items, i, k);
  }

  /** Without a change of it the row is as it was: a change that is too large, or whose fetch, upload or upsert fails,
      leaves it alone. */
  lemma UntouchedRowStays(s: Store, src: Source, items: seq<Item>, life: nat, k: RowKey)
    requires life >= |Writes(src, items)| && forall j :: 0 <= j < |items| ==> !Touches(src, items[j], k)
    ensures Get(Left(s, src, items, life).rows, k) == Get(s.rows, k)
  {
    LeftIsAll(s, src, items, life);
    RowRests(s, src, items, 0, |items|, k);
    assert items[..0] == [];
  }

  // ----- the object of a document -----

  /** The bytes of the change were uploaded under this key. */
  predicate Uploads(src: Source, item: Item, o: string) {
    && !item.change.isDeleted && !Oversized(src, item.change)
    && (item.outcome.Stored? || item.outcome.RereadFails? || item.outcome.UpsertFails?)
    && o == KeyFor(src, item.change)
  }

  function FetchedBlob(item: Item): Blob
    requires item.outcome.Stored? || item.outcome.RereadFails? || item.outcome.UpsertFails?
  {
    var mime := item.outcome.current.content.mimeType;
    Blob(item.outcome.raw, if mime.None? || mime.value == "" then "application/octet-stream" else mime.value)
  }

  lemma OneItemBlob(s: Store, src: Source, item: Item, o: string)
    ensures Get(ApplyAll(s, WritesOf(src, item)).blobs, o)
         == if Uploads(src, item, o) then Some(FetchedBlob(item)) else Get(s.blobs, o)
  {
    var ws := WritesOf(src, item);
    FirstWrites(s, ws);
    assert ws[..|ws|] == ws;
  }

  function BlobAt(s: Store, src: Source, items: seq<Item>, n: nat, o: string): Option<Blob>
    requires n <= |items|
  {
    Get(ApplyAll(s, Writes(src, items[..n])).blobs, o)
  }

  lemma {:induction false} BlobRests(s: Store, src: Source, items: seq<Item>, m: nat, n: nat, o: string)
    requires m <= n <= |items| && forall j :: m <= j < n ==> !Uploads(src, items[j], o)
    ensures BlobAt(s, src, items, n, o) == BlobAt(s, src, items, m, o)
    decreases n
  {
    if m < n {
      BlobRests(s, src, items, m, n - 1, o);
      StoreAfter(s, src, items, n - 1);
      OneItemBlob(ApplyAll(s, Writes(src, items[..n - 1])), src, items[n - 1], o);
    }
  }

  /** The last upload under a key decides its object: the bytes fetched and their type. */
  lemma LastUploadDecides(s: Store, src: Source, items: seq<Item>, life: nat, i: nat, o: string)
    requires life >= |Writes(src, items)| && i < |items| && Uploads(src, items[i], o)
    requires forall j :: i < j < |items| ==> !Uploads(src, items[j], o)
    ensures Get(Left(s, src, items, life).blobs, o) == Some(FetchedBlob(items[i]))
  {
    LeftIsAll(s, src, items, life);
    BlobRests(s, src, items, i + 1, |items|, o);
    StoreAfter(s, src, items, i);
    OneItemBlob(ApplyAll(s, Writes(src, items[..i])), src, items[i], o);
  }

  lemma UntouchedBlobStays(s: Store, src: Source, items: seq<Item>, life: nat, o: string)
    requires life >= |Writes(src, items)| && forall j :: 0 <= j < |items| ==> !Uploads(src, items[j], o)
    ensures Get(Left(s, src, items, life).blobs, o) == Get(s.blobs, o)
  {
    LeftIsAll(s, src, items, life);
    BlobRests(s, src, items, 0, |items|, o);
    assert items[..0] == [];
  }

  /** So after such a run every document whose last change was fetched and stored is there to be ingested: its row is
      discovered and names an object with the bytes fetched, unless a later change of the same id replaced them. */
  lemma StoredIsThere(s: Store, src: Source, items: seq<Item>, life: nat, i: nat)
    requires life >= |Writes(src, items)| && i < |items| && !items[i].change.isDeleted && items[i].outcome.Stored?
    requires !Oversized(src, items[i].change)
    requires forall j :: i < j < |items| ==>
               !Touches(src, items[j], RowKey(src.kind, items[i].outcome.current.id))
               && !Uploads(src, items[j], KeyFor(src, items[i].change))
    ensures var t, k := Left(s, src, items, life), RowKey(src.kind, items[i].outcome.current.id);
            && k in t.rows && t.rows[k].status == Discovered
            && "object_key" in t.rows[k].content.extra
            && t.rows[k].content.extra["object_key"] == src.kind + "/" + src.id + "/" + items[i].change.id
            && t.rows[k].content.title == items[i].outcome.current.content.title
            && Get(t.blobs, t.rows[k].content.extra["object_key"]) == Some(FetchedBlob(items[i]))
  {
    LastChangeDecides(s, src, items, life, i, RowKey(src.kind, items[i].outcome.current.id));
    LastUploadDecides(s, src, items, life, i, KeyFor(src, items[i].change));
  }

  // ----- the job -----

  /** A run that ends before its first change fails its job, but for a rate limit, which puts it back in the queue; the
      job says why, and the counts of changes are zero. */
  lemma EarlyExits(job: Job, error: string)
    requires error != ""
    ensures Stopped(job, SourceMissing).status == JobFailed
    ensures Stopped(job, ConnectorUnusable(error)).status == JobFailed
    ensures Stopped(job, AuthFailed(error)).status == JobFailed && Stopped(job, Unlisted(error)).status == JobFailed
    ensures Stopped(job, RateLimited(error)).status == Queued
    ensures forall listing: Listing :: !listing.Listed? ==>
              Stopped(job, listing).indexed == 0 && Stopped(job, listing).failed == 0
              && Stopped(job, listing).total == job.total
    ensures Get(Stopped(job, SourceMissing).errors, "_summary") == Some(Raised("source not found"))
    ensures Get(Stopped(job, ConnectorUnusable(error)).errors, "_summary") == Some(Raised(error))
    ensures Get(Stopped(job, AuthFailed(error)).errors, "_summary") == Some(Raised("auth failed: " + error))
    ensures Get(Stopped(job, RateLimited(error)).errors, "_summary") == Some(Raised("rate limit: " + error))
    ensures Get(Stopped(job, Unlisted(error)).errors, "_summary") == Some(Raised(error))
  {
  }

  /** The error log gives for each id why the last of its changes that failed did, and keeps what it said before of
      other ids. */
  lemma LastFailureIsLogged(src: Source, job: Job, items: seq<Item>, i: nat)
    requires i < |items| && Failure(src, items[i]).Some?
    requires forall j :: i < j < |items| && items[j].change.id == items[i].change.id ==> Failure(src, items[j]).None?
    ensures Get(Closed(src, job, items).errors, items[i].change.id) == Failure(src, items[i])
  {
    LastFailureIn(src, items, i);
  }

  lemma {:induction false} LastFailureIn(src: Source, items: seq<Item>, i: nat)
    requires i < |items| && Failure(src, items[i]).Some?
    requires forall j :: i < j < |items| && items[j].change.id == items[i].change.id ==> Failure(src, items[j]).None?
    ensures Get(Errors(src, items), items[i].change.id) == Failure(src, items[i])
    decreases |items|
  {
    var n := |items| - 1;
    if i < n {
      LastFailureIn(src, items[..n], i);
    }
  }
}
