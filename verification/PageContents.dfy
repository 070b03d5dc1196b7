/**
 What a page of parent comments holds, said of the rows of the table alone: which rows are on it, in which order, with
 which numbers, and where its cursor points.
 */
module PageContents {
  import opened Wrappers
  import opened Sets
  import opened Keyset
  import opened Chain
  import opened CommentTable
  import opened CommentPages
  import opened CommentStore

  /** The sort order: newest first, or most liked first and newest among equals; then by id. */
  predicate Sooner(sort: Sort, likes: int, createdAt: int, id: Id, likes': int, createdAt': int, id': Id) {
    || (sort == POPULAR && likes > likes')
    || ((sort == RECENT || likes == likes') && (createdAt > createdAt' || (createdAt == createdAt' && id > id')))
  }

  /** The row comes after the cursor; a popular cursor without likes counts as one with none. */
  predicate PastCursor(sort: Sort, cursor: CursorParam, id: Id, c: Comment) {
    cursor.Cursor? ==>
      var likes := match cursor.data.likesCount case Some(n) => n case None => 0;
      Sooner(sort, likes, cursor.data.createdAt, cursor.data.id, c.likesCount, c.createdAt, id)
  }

  /** A live comment of the post that answers no other, not newer than the snapshot, after the cursor. */
  predicate Asked(t: Table, postId: int, sort: Sort, cursor: CursorParam, snapshot: Option<int>, c: Id) {
    && c in t && t[c].postId == postId && t[c].parent == None && t[c].isDeleted == false
    && (snapshot == None || t[c].createdAt <= snapshot.value)
    && PastCursor(sort, cursor, c, t[c])
  }

  function AllAsked(t: Table, postId: int, sort: Sort, cursor: CursorParam, snapshot: Option<int>): set<Id> {
    set c | c in t && Asked(t, postId, sort, cursor, snapshot, c)
  }

  /** The rows asked for that the sort order puts before row c. */
  function AskedBefore(t: Table, postId: int, sort: Sort, cursor: CursorParam, snapshot: Option<int>, c: Id): set<Id>
    requires c in t
  {
    set d | d in t && Asked(t, postId, sort, cursor, snapshot, d)
            && Sooner(sort, t[d].likesCount, t[d].createdAt, d, t[c].likesCount, t[c].createdAt, c)
  }

  lemma KeysAreAsked(t: Table, postId: int, sort: Sort, cursor: CursorParam, snapshot: Option<int>, c: Id)
    requires c in t
    ensures KeyOf(sort, c, t[c]) in QueryKeys(t, postId, sort, cursor, snapshot) <==>
            Asked(t, postId, sort, cursor, snapshot, c)
  {
    if KeyOf(sort, c, t[c]) in QueryKeys(t, postId, sort, cursor, snapshot) {
      var d :| d in t && Listed(t, postId, snapshot, d)
          && (cursor.Cursor? ==> AfterCursor(sort, cursor.data, d, t[d]))
          && KeyOf(sort, d, t[d]) == KeyOf(sort, c, t[c]);
      assert d == c;
    }
  }

  function KeyIn(t: Table, sort: Sort): Id -> Key {
    c => if c in t then KeyOf(sort, c, t[c]) else Key(0, 0, c)
  }

  lemma AsManyAsked(t: Table, postId: int, sort: Sort, cursor: CursorParam, snapshot: Option<int>)
    ensures |AllAsked(t, postId, sort, cursor, snapshot)| == |QueryKeys(t, postId, sort, cursor, snapshot)|
  {
    var ids, keys := AllAsked(t, postId, sort, cursor, snapshot), QueryKeys(t, postId, sort, cursor, snapshot);
    forall c | c in ids ensures KeyIn(t, sort)(c) in keys {
      KeysAreAsked(t, postId, sort, cursor, snapshot, c);
    }
    forall k | k in keys ensures exists c :: c in ids && KeyIn(t, sort)(c) == k {
      assert k.id in t && KeyOf(sort, k.id, t[k.id]) == k;
      KeysAreAsked(t, postId, sort, cursor, snapshot, k.id);
      assert k.id in ids;
    }
    SameSize(ids, keys, KeyIn(t, sort));
  }

  lemma AsManyBefore(t: Table, postId: int, sort: Sort, cursor: CursorParam, snapshot: Option<int>, c: Id)
    requires c in t
    ensures |AskedBefore(t, postId, sort, cursor, snapshot, c)| ==
            |Above(KeyLess, QueryKeys(t, postId, sort, cursor, snapshot), KeyOf(sort, c, t[c]))|
  {
    var ids := AskedBefore(t, postId, sort, cursor, snapshot, c);
    var keys := Above(KeyLess, QueryKeys(t, postId, sort, cursor, snapshot), KeyOf(sort, c, t[c]));
    forall d | d in ids ensures KeyIn(t, sort)(d) in keys {
      KeysAreAsked(t, postId, sort, cursor, snapshot, d);
    }
    forall k | k in keys ensures exists d :: d in ids && KeyIn(t, sort)(d) == k {
      assert k.id in t && KeyOf(sort, k.id, t[k.id]) == k;
      KeysAreAsked(t, postId, sort, cursor, snapshot, k.id);
      assert k.id in ids;
    }
    SameSize(ids, keys, KeyIn(t, sort));
  }

  /** The entry carries the numbers of its row. */
  predicate EntryOfRow(t: Table, e: Entry) {
    && e.id in t
    && e.likesCount == t[e.id].likesCount && e.dislikesCount == t[e.id].dislikesCount
    && e.repliesCount == t[e.id].repliesCount && e.createdAt == t[e.id].createdAt
  }

  /** Of the rows asked for, those that fewer than `limit` others come before are shown, with their own numbers. */
  ghost predicate ShowsFirst(t: Table, postId: int, sort: Sort, cursor: CursorParam, limit: nat, snapshot: Option<int>,
      entries: seq<Entry>)
  {
    && (forall e | e in entries :: EntryOfRow(t, e))
    && forall c :: (exists e :: e in entries && e.id == c) <==>
         c in AllAsked(t, postId, sort, cursor, snapshot)
             && |AskedBefore(t, postId, sort, cursor, snapshot, c)| < limit
  }

  predicate InOrder(sort: Sort, entries: seq<Entry>) {
    forall i, j | 0 <= i < j < |entries| ::
      Sooner(sort, entries[i].likesCount, entries[i].createdAt, entries[i].id,
          entries[j].likesCount, entries[j].createdAt, entries[j].id)
  }

  /** With so many rows asked for: how many are shown, whether there are more, and where the cursor points. */
  predicate EndsRight(sort: Sort, asked: nat, limit: nat, page: ParentPage) {
    && |page.comments| == (if asked < limit then asked else limit)
    && (page.hasNextPage <==> asked > limit)
    && (page.nextCursor.Some? <==> asked > limit >= 1)
    && (page.nextCursor.Some? ==>
          var last := page.comments[|page.comments| - 1];
          page.nextCursor.value ==
              CursorData(if sort == POPULAR then Some(last.likesCount) else None, last.createdAt, last.id))
  }

  /** The whole answer to a request, in terms of rows. */
  ghost predicate Answers(t: Table, postId: int, sort: Sort, cursor: CursorParam, limit: nat, snapshot: Option<int>,
      page: ParentPage)
  {
    && ShowsFirst(t, postId, sort, cursor, limit, snapshot, page.comments)
    && InOrder(sort, page.comments)
    && EndsRight(sort, |AllAsked(t, postId, sort, cursor, snapshot)|, limit, page)
  }

  /** The keys the query fetches, cut to the limit. */
  function Kept(t: Table, postId: int, sort: Sort, cursor: CursorParam, limit: nat, snapshot: Option<int>): seq<Key> {
    KeyOrder();
    Take(Desc(KeyLess, QueryKeys(t, postId, sort, cursor, snapshot)), limit)
  }

  lemma PageShape(t: Table, postId: int, sort: Sort, cursor: CursorParam, limit: nat, snapshot: Option<int>)
    ensures var page, kept := ParentPageOf(t, postId, sort, cursor, limit, snapshot),
                Kept(t, postId, sort, cursor, limit, snapshot);
            var size := |QueryKeys(t, postId, sort, cursor, snapshot)|;
            && page.comments == Entries(t, kept) && |kept| == (if size < limit then size else limit)
            && (page.hasNextPage <==> size > limit)
            && (page.nextCursor.Some? <==> size > limit >= 1)
            && (page.nextCursor.Some? ==> page.nextCursor.value == CursorFor(sort, kept[|kept| - 1]))
  {
    KeyOrder();
    PageIsTop(Desc(KeyLess, QueryKeys(t, postId, sort, cursor, snapshot)), limit);
  }

  lemma KeptAreRows(t: Table, postId: int, sort: Sort, cursor: CursorParam, limit: nat, snapshot: Option<int>, k: Key)
    requires k in Kept(t, postId, sort, cursor, limit, snapshot)
    ensures k.id in t && k == KeyOf(sort, k.id, t[k.id])
  {
    KeyOrder();
    assert k in Desc(KeyLess, QueryKeys(t, postId, sort, cursor, snapshot));
  }

  lemma EntriesAreRows(t: Table, postId: int, sort: Sort, cursor: CursorParam, limit: nat, snapshot: Option<int>,
      i: nat)
    requires i < |Kept(t, postId, sort, cursor, limit, snapshot)|
    ensures var kept := Kept(t, postId, sort, cursor, limit, snapshot);
            EntryOfRow(t, Entries(t, kept)[i]) && kept[i] == KeyOf(sort, kept[i].id, t[kept[i].id])
                && Entries(t, kept)[i].id == kept[i].id
  {
    KeptAreRows(t, postId, sort, cursor, limit, snapshot, Kept(t, postId, sort, cursor, limit, snapshot)[i]);
  }

  lemma ShownIffKept(t: Table, postId: int, sort: Sort, cursor: CursorParam, limit: nat, snapshot: Option<int>, c: Id)
    ensures var kept := Kept(t, postId, sort, cursor, limit, snapshot);
            (exists e :: e in Entries(t, kept) && e.id == c) <==> c in t && KeyOf(sort, c, t[c]) in kept
  {
    var kept := Kept(t, postId, sort, cursor, limit, snapshot);
    if e :| e in Entries(t, kept) && e.id == c {
      var i :| 0 <= i < |kept| && Entries(t, kept)[i] == e;
      EntriesAreRows(t, postId, sort, cursor, limit, snapshot, i);
      assert kept[i] in kept;
    }
    if c in t && KeyOf(sort, c, t[c]) in kept {
      var i :| 0 <= i < |kept| && kept[i] == KeyOf(sort, c, t[c]);
      assert Entries(t, kept)[i] in Entries(t, kept) && Entries(t, kept)[i].id == c;
    }
  }

  lemma KeptIff(t: Table, postId: int, sort: Sort, cursor: CursorParam, limit: nat, snapshot: Option<int>, c: Id)
    requires c in t
    ensures KeyOf(sort, c, t[c]) in Kept(t, postId, sort, cursor, limit, snapshot) <==>
            c in AllAsked(t, postId, sort, cursor, snapshot)
                && |AskedBefore(t, postId, sort, cursor, snapshot, c)| < limit
  {
    KeyOrder();
    TakeIff(KeyLess, QueryKeys(t, postId, sort, cursor, snapshot), KeyOf(sort, c, t[c]), limit);
    KeysAreAsked(t, postId, sort, cursor, snapshot, c);
    AsManyBefore(t, postId, sort, cursor, snapshot, c);
  }

  lemma KeptShown(t: Table, postId: int, sort: Sort, cursor: CursorParam, limit: nat, snapshot: Option<int>)
    ensures ShowsFirst(t, postId, sort, cursor, limit, snapshot,
                Entries(t, Kept(t, postId, sort, cursor, limit, snapshot)))
  {
    var kept := Kept(t, postId, sort, cursor, limit, snapshot);
    forall e | e in Entries(t, kept) ensures EntryOfRow(t, e) {
      var i :| 0 <= i < |kept| && Entries(t, kept)[i] == e;
      EntriesAreRows(t, postId, sort, cursor, limit, snapshot, i);
    }
    forall c
      ensures (exists e :: e in Entries(t, kept) && e.id == c) <==>
              c in AllAsked(t, postId, sort, cursor, snapshot)
                  && |AskedBefore(t, postId, sort, cursor, snapshot, c)| < limit
    {
      ShownIffKept(t, postId, sort, cursor, limit, snapshot, c);
      if c in t { KeptIff(t, postId, sort, cursor, limit, snapshot, c); }
    }
  }

  lemma KeptSorted(t: Table, postId: int, sort: Sort, cursor: CursorParam, limit: nat, snapshot: Option<int>)
    ensures InOrder(sort, Entries(t, Kept(t, postId, sort, cursor, limit, snapshot)))
  {
    KeyOrder();
    var kept := Kept(t, postId, sort, cursor, limit, snapshot);
    forall i, j | 0 <= i < j < |kept|
      ensures var e := Entries(t, kept);
              Sooner(sort, e[i].likesCount, e[i].createdAt, e[i].id, e[j].likesCount, e[j].createdAt, e[j].id)
    {
      EntriesAreRows(t, postId, sort, cursor, limit, snapshot, i);
      EntriesAreRows(t, postId, sort, cursor, limit, snapshot, j);
      assert KeyLess(kept[j], kept[i]);
    }
  }

  lemma LastKept(t: Table, postId: int, sort: Sort, cursor: CursorParam, limit: nat, snapshot: Option<int>,
      asked: nat, page: ParentPage)
    requires var kept := Kept(t, postId, sort, cursor, limit, snapshot);
             && page.comments == Entries(t, kept) && |kept| == (if asked < limit then asked else limit)
             && (page.hasNextPage <==> asked > limit)
             && (page.nextCursor.Some? <==> asked > limit >= 1)
             && (page.nextCursor.Some? ==> page.nextCursor.value == CursorFor(sort, kept[|kept| - 1]))
    ensures EndsRight(sort, asked, limit, page)
  {
    var kept := Kept(t, postId, sort, cursor, limit, snapshot);
    if kept != [] { EntriesAreRows(t, postId, sort, cursor, limit, snapshot, |kept| - 1); }
  }

  /**
   A computed page answers its request: exactly the live parents of the post within snapshot and cursor that fewer than
   `limit` others come before, in order, each with the numbers of its row, and a cursor at the last exactly when there
   are more.
   */
  lemma {:induction false} PageAnswers(t: Table, postId: int, sort: Sort, cursor: CursorParam, limit: nat,
      snapshot: Option<int>)
    ensures Answers(t, postId, sort, cursor, limit, snapshot, ParentPageOf(t, postId, sort, cursor, limit, snapshot))
  {
    PageShape(t, postId, sort, cursor, limit, snapshot);
    KeptShown(t, postId, sort, cursor, limit, snapshot);
    KeptSorted(t, postId, sort, cursor, limit, snapshot);
    AsManyAsked(t, postId, sort, cursor, snapshot);
    LastKept(t, postId, sort, cursor, limit, snapshot, |AllAsked(t, postId, sort, cursor, snapshot)|,
        ParentPageOf(t, postId, sort, cursor, limit, snapshot));
  }

  /** What the service answers a request that the cache does not answer. */
  lemma {:induction false} ReadAnswers(s: Store, postId: int, cursor: CursorParam, limit: nat, sort: Sort,
      snapshot: Option<int>, now: int)
    requires !(cursor == NoCursor && CacheKey(postId, sort) in s.cache)
    ensures var cut := if sort == RECENT then None
                       else if snapshot != None then snapshot
                       else if cursor == NoCursor then Some(now) else None;
            Answers(s.comments, postId, sort, cursor, limit, cut,
                ReadOn(s, postId, cursor, limit, sort, snapshot, now).0)
  {
    PageAnswers(s.comments, postId, sort, cursor, limit, EffectiveSnapshot(sort, cursor.NoCursor?, snapshot, now));
  }

  lemma AnswerIsLive(t: Table, postId: int, sort: Sort, cursor: CursorParam, limit: nat, snapshot: Option<int>,
      page: ParentPage, e: Entry)
    requires Answers(t, postId, sort, cursor, limit, snapshot, page) && e in page.comments
    ensures EntryOfRow(t, e) && Asked(t, postId, sort, cursor, snapshot, e.id)
  {
    assert e.id in AllAsked(t, postId, sort, cursor, snapshot);
  }

  /** What any answer shows is a live parent comment of the post, with the numbers of its row. */
  lemma {:induction false} ReadShowsLiveRows(s: Store, postId: int, cursor: CursorParam, limit: nat, sort: Sort,
      snapshot: Option<int>, now: int, e: Entry)
    requires Coherent(s) && e in ReadOn(s, postId, cursor, limit, sort, snapshot, now).0.comments
    ensures e.id in s.comments
    ensures var row := s.comments[e.id];
            && row.postId == postId && row.parent == None && row.isDeleted == false
            && e.likesCount == row.likesCount && e.dislikesCount == row.dislikesCount
            && e.repliesCount == row.repliesCount && e.createdAt == row.createdAt
  {
    var key := CacheKey(postId, sort);
    if cursor == NoCursor && key in s.cache {
      CachedAnswers(s, key);
      AnswerIsLive(s.comments, postId, sort, NoCursor, s.cache[key].limit, None, s.cache[key].page, e);
    } else {
      var cut := EffectiveSnapshot(sort, cursor.NoCursor?, snapshot, now);
      PageAnswers(s.comments, postId, sort, cursor, limit, cut);
      AnswerIsLive(s.comments, postId, sort, cursor, limit, cut,
          ParentPageOf(s.comments, postId, sort, cursor, limit, cut), e);
    }
  }

  lemma CachedAnswers(s: Store, key: CacheKey)
    requires Coherent(s) && key in s.cache
    ensures Answers(s.comments, key.postId, key.sort, NoCursor, s.cache[key].limit, None, s.cache[key].page)
  {
    PageAnswers(s.comments, key.postId, key.sort, NoCursor, s.cache[key].limit, None);
    assert s.cache[key].page == FreshPage(s.comments, key.postId, key.sort, s.cache[key].limit);
  }

  /** Once removed, a comment is on no page the service answers, then or later, cached or not. */
  lemma {:induction false} RemovedIsNeverShown(s: Store, id: Id, userId: int, ops: seq<Op>, postId: int,
      cursor: CursorParam, limit: nat, sort: Sort, snapshot: Option<int>, now: int)
    requires Good(s) && RemoveOn(s, id, userId).Ok? && AdmissibleRun(s, [RemoveOp(id, userId)] + ops)
    ensures var n := DoAll(s, [RemoveOp(id, userId)] + ops);
            forall e | e in ReadOn(n, postId, cursor, limit, sort, snapshot, now).0.comments :: e.id != id
  {
    var run, removed := [RemoveOp(id, userId)] + ops, RemoveOn(s, id, userId).value;
    assert run[1..] == ops;
    RemoveKeepsGood(s, id, userId);
    CacheStaysCoherent(removed, ops);
    RowsPersist(removed, ops);
    var n := DoAll(s, run);
    assert RowKept(removed.comments, n.comments, id);
    forall e | e in ReadOn(n, postId, cursor, limit, sort, snapshot, now).0.comments ensures e.id != id {
      ReadShowsLiveRows(n, postId, cursor, limit, sort, snapshot, now, e);
    }
  }
}
