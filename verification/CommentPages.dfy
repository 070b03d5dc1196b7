/**
 The paginated list of a post's parent comments, newest first or most liked first.  A client walks it with
 cursors while comments are created, removed and liked; `tables[i]` is the table its i-th request meets.
 */
module CommentPages {
  import opened Wrappers
  import opened Keyset
  import opened Chain
  import opened CommentTable

  datatype Sort = RECENT | POPULAR

  /** Sort key: likes (popular only), then creation time, then id. */
  datatype Key = Key(rank: int, createdAt: int, id: Id)

  predicate KeyLess(a: Key, b: Key) {
    || a.rank < b.rank
    || (a.rank == b.rank && a.createdAt < b.createdAt)
    || (a.rank == b.rank && a.createdAt == b.createdAt && a.id < b.id)
  }

  lemma KeyOrder()
    ensures StrictTotal(KeyLess)
  {
  }

  function KeyOf(sort: Sort, id: Id, c: Comment): Key {
    Key(if sort == POPULAR then c.likesCount else 0, c.createdAt, id)
  }

  /** What a cursor decodes to; `likesCount` is present in popular cursors only. */
  datatype CursorData = CursorData(likesCount: Option<int>, createdAt: int, id: Id)

  /** The cursor parameter of a request; a cursor that does not decode filters nothing. */
  datatype CursorParam = NoCursor | Garbled | Cursor(data: CursorData)

  function LikesOrZero(cursor: CursorData): int {
    if cursor.likesCount.Some? then cursor.likesCount.value else 0
  }

  /** The cursor clause of the query. */
  predicate AfterCursor(sort: Sort, cursor: CursorData, id: Id, c: Comment) {
    match sort
    case POPULAR =>
      var likes := LikesOrZero(cursor);
      || c.likesCount < likes
      || (c.likesCount == likes && c.createdAt < cursor.createdAt)
      || (c.likesCount == likes && c.createdAt == cursor.createdAt && id < cursor.id)
    case RECENT =>
      || c.createdAt < cursor.createdAt
      || (c.createdAt == cursor.createdAt && id < cursor.id)
  }

  /** Where clause without the cursor: live parents of the post, not newer than the snapshot. */
  predicate Listed(t: Table, postId: int, snapshot: Option<int>, c: Id) {
    && c in t && t[c].postId == postId && t[c].parent.None? && !t[c].isDeleted
    && (snapshot.Some? ==> t[c].createdAt <= snapshot.value)
  }

  function QueryKeys(t: Table, postId: int, sort: Sort, cursor: CursorParam, snapshot: Option<int>): set<Key> {
    set c | c in t && Listed(t, postId, snapshot, c) && (cursor.Cursor? ==> AfterCursor(sort, cursor.data, c, t[c]))
      :: KeyOf(sort, c, t[c])
  }

  datatype Entry = Entry(id: Id, likesCount: int, dislikesCount: int, repliesCount: int, createdAt: int)

  datatype ParentPage = ParentPage(comments: seq<Entry>, nextCursor: Option<CursorData>, hasNextPage: bool)

  function EntryOf(id: Id, c: Comment): Entry {
    Entry(id, c.likesCount, c.dislikesCount, c.repliesCount, c.createdAt)
  }

  /** The response rows for fetched keys; every fetched key has its row. */
  function Entries(t: Table, keys: seq<Key>): (entries: seq<Entry>) {
    seq(|keys|, i requires 0 <= i < |keys| =>
      if keys[i].id in t then EntryOf(keys[i].id, t[keys[i].id]) else Entry(keys[i].id, 0, 0, 0, keys[i].createdAt))
  }

  function CursorFor(sort: Sort, last: Key): CursorData {
    CursorData(if sort == POPULAR then Some(last.rank) else None, last.createdAt, last.id)
  }

  function Render(t: Table, sort: Sort, keys: Page<Key>): ParentPage {
    ParentPage(
      Entries(t, keys.items),
      if keys.next.Some? then Some(CursorFor(sort, keys.next.value)) else None,
      keys.hasNext)
  }

  /** One uncached page: `limit + 1` rows are fetched and the surplus row only says that there is more. */
  function ParentPageOf(t: Table, postId: int, sort: Sort, cursor: CursorParam, limit: nat,
      snapshot: Option<int>): ParentPage {
    KeyOrder();
    Render(t, sort, PageFrom(Take(Desc(KeyLess, QueryKeys(t, postId, sort, cursor, snapshot)), limit + 1), limit))
  }

  // ---- The page as a window of keys ----

  function ListKeys(t: Table, postId: int, sort: Sort, snapshot: Option<int>): set<Key> {
    set c | c in t && Listed(t, postId, snapshot, c) :: KeyOf(sort, c, t[c])
  }

  function CursorKey(sort: Sort, cursor: CursorParam): Option<Key> {
    if cursor.Cursor?
    then Some(Key(if sort == POPULAR then LikesOrZero(cursor.data) else 0, cursor.data.createdAt, cursor.data.id))
    else None
  }

  /** The keys a request sees and returns. */
  function KeyPage(t: Table, postId: int, sort: Sort, cursor: CursorParam, limit: nat,
      snapshot: Option<int>): Page<Key> {
    KeyOrder();
    PageOf(KeyLess, ListKeys(t, postId, sort, snapshot), CursorKey(sort, cursor), limit)
  }

  lemma QueryIsVisible(t: Table, postId: int, sort: Sort, cursor: CursorParam, snapshot: Option<int>)
    ensures QueryKeys(t, postId, sort, cursor, snapshot)
         == Visible(KeyLess, ListKeys(t, postId, sort, snapshot), CursorKey(sort, cursor))
  {
    var a := QueryKeys(t, postId, sort, cursor, snapshot);
    var b := Visible(KeyLess, ListKeys(t, postId, sort, snapshot), CursorKey(sort, cursor));
    forall k ensures k in a <==> k in b {
      if k in b {
        var c :| c in t && Listed(t, postId, snapshot, c) && KeyOf(sort, c, t[c]) == k;
      }
    }
  }

  /** The textual cursor clause selects exactly the rows below the cursor in sort order. */
  lemma {:induction false} PageIsWindow(t: Table, postId: int, sort: Sort, cursor: CursorParam, limit: nat,
      snapshot: Option<int>)
    ensures ParentPageOf(t, postId, sort, cursor, limit, snapshot) ==
        Render(t, sort, KeyPage(t, postId, sort, cursor, limit, snapshot))
  {
    KeyOrder();
    QueryIsVisible(t, postId, sort, cursor, snapshot);
  }

  // ---- Following cursors on a changing table ----

  /** The pages a client gets, one table per request, passing the same snapshot each time. */
  function Browse(tables: seq<Table>, postId: int, sort: Sort, cursor: CursorParam, limit: nat,
      snapshot: Option<int>): seq<ParentPage> {
    if tables == [] then []
    else
      var page := ParentPageOf(tables[0], postId, sort, cursor, limit, snapshot);
      [page] + if page.nextCursor.Some?
               then Browse(tables[1..], postId, sort, Cursor(page.nextCursor.value), limit, snapshot)
               else []
  }

  function Views(tables: seq<Table>, postId: int, sort: Sort, snapshot: Option<int>): (views: seq<set<Key>>)
    ensures |views| == |tables|
    ensures forall i | 0 <= i < |tables| :: views[i] == ListKeys(tables[i], postId, sort, snapshot)
  {
    if tables == [] then []
    else [ListKeys(tables[0], postId, sort, snapshot)] + Views(tables[1..], postId, sort, snapshot)
  }

  lemma CursorRoundTrip(sort: Sort, k: Key)
    requires sort == RECENT ==> k.rank == 0
    ensures CursorKey(sort, Cursor(CursorFor(sort, k))) == Some(k)
  {
  }

  function KeyPages(tables: seq<Table>, postId: int, sort: Sort, cursor: CursorParam, limit: nat,
      snapshot: Option<int>): seq<Page<Key>> {
    KeyOrder();
    Follow(KeyLess, Views(tables, postId, sort, snapshot), CursorKey(sort, cursor), limit)
  }

  lemma {:induction false} BrowseHead(tables: seq<Table>, postId: int, sort: Sort, cursor: CursorParam, limit: nat,
      snapshot: Option<int>, page: Page<Key>)
    requires tables != [] && KeyPages(tables, postId, sort, cursor, limit, snapshot)[0] == page
    ensures Browse(tables, postId, sort, cursor, limit, snapshot) ==
            [Render(tables[0], sort, page)] +
            if page.next.Some? then Browse(tables[1..], postId, sort, Cursor(CursorFor(sort, page.next.value)),
                limit, snapshot) else []
  {
    PageIsWindow(tables[0], postId, sort, cursor, limit, snapshot);
  }

  /** One request: the page shown is the rendered window of keys, and its cursor decodes to the end of the window. */
  lemma BrowseStep(tables: seq<Table>, postId: int, sort: Sort, cursor: CursorParam, limit: nat, snapshot: Option<int>)
    returns (page: Page<Key>, next: CursorParam)
    requires limit >= 1 && tables != []
    ensures StrictTotal(KeyLess)
    ensures IsWindow(KeyLess, ListKeys(tables[0], postId, sort, snapshot), CursorKey(sort, cursor), limit, page)
    ensures page.next.Some? ==> next == Cursor(CursorFor(sort, page.next.value)) && CursorKey(sort, next) == page.next
    ensures Browse(tables, postId, sort, cursor, limit, snapshot) ==
            [Render(tables[0], sort, page)] + if page.next.Some?
                then Browse(tables[1..], postId, sort, next, limit, snapshot) else []
    ensures KeyPages(tables, postId, sort, cursor, limit, snapshot) ==
            [page] + if page.next.Some? then KeyPages(tables[1..], postId, sort, next, limit, snapshot) else []
  {
    KeyOrder();
    var views := Views(tables, postId, sort, snapshot);
    var rest;
    page, rest := FollowStep(KeyLess, views, CursorKey(sort, cursor), limit);
    BrowseHead(tables, postId, sort, cursor, limit, snapshot, page);
    assert views[1..] == Views(tables[1..], postId, sort, snapshot);
    next := NoCursor;
    if page.next.Some? {
      next := Cursor(CursorFor(sort, page.next.value));
      assert page.next.value in ListKeys(tables[0], postId, sort, snapshot);
      CursorRoundTrip(sort, page.next.value);
    }
  }

  /** Browsing is following key windows, rendered page by page. */
  lemma {:induction false} BrowseFollows(tables: seq<Table>, postId: int, sort: Sort, cursor: CursorParam, limit: nat,
      snapshot: Option<int>)
    requires limit >= 1
    ensures var pages, keys := Browse(tables, postId, sort, cursor, limit, snapshot),
        KeyPages(tables, postId, sort, cursor, limit, snapshot);
            && (tables != [] ==> pages != [])
            && Renders(pages, keys, tables, sort)
  {
    if tables != [] {
      var page, next := BrowseStep(tables, postId, sort, cursor, limit, snapshot);
      if page.next.Some? {
        BrowseFollows(tables[1..], postId, sort, next, limit, snapshot);
        RendersCons(page, Browse(tables[1..], postId, sort, next, limit, snapshot),
                    KeyPages(tables[1..], postId, sort, next, limit, snapshot), tables, sort);
      }
    }
  }

  /** Page by page, what is shown is the window of keys rendered with the rows of that read. */
  ghost predicate Renders(pages: seq<ParentPage>, keys: seq<Page<Key>>, tables: seq<Table>, sort: Sort) {
    |pages| == |keys| <= |tables| && forall i | 0 <= i < |pages| :: pages[i] == Render(tables[i], sort, keys[i])
  }

  lemma RendersCons(page: Page<Key>, pages: seq<ParentPage>, keys: seq<Page<Key>>, tables: seq<Table>, sort: Sort)
    requires tables != [] && Renders(pages, keys, tables[1..], sort)
    ensures Renders([Render(tables[0], sort, page)] + pages, [page] + keys, tables, sort)
  {
  }

  predicate OnPage(page: ParentPage, id: Id) {
    exists e | e in page.comments :: e.id == id
  }

  /** The comment is listed at every read, always under the same sort key. */
  ghost predicate Steady(tables: seq<Table>, postId: int, sort: Sort, snapshot: Option<int>, id: Id, k: Key) {
    forall i | 0 <= i < |tables| :: Listed(tables[i], postId, snapshot, id) && KeyOf(sort, id, tables[i][id]) == k
  }

  lemma OnPageIffKey(t: Table, sort: Sort, keys: Page<Key>, postId: int, snapshot: Option<int>, id: Id)
    requires id in t
    requires forall k | k in keys.items :: k in ListKeys(t, postId, sort, snapshot)
    ensures OnPage(Render(t, sort, keys), id) <==> KeyOf(sort, id, t[id]) in keys.items
  {
    var page := Render(t, sort, keys);
    if OnPage(page, id) {
      var e :| e in page.comments && e.id == id;
      var i :| 0 <= i < |page.comments| && page.comments[i] == e;
      assert keys.items[i] in ListKeys(t, postId, sort, snapshot);
    }
    if KeyOf(sort, id, t[id]) in keys.items {
      var i :| 0 <= i < |keys.items| && keys.items[i] == KeyOf(sort, id, t[id]);
      assert page.comments[i] in page.comments;
    }
  }

  lemma {:induction false} OnPagesIffKeys(tables: seq<Table>, postId: int, sort: Sort, cursor: CursorParam, limit: nat,
      snapshot: Option<int>, i: nat, id: Id)
    requires limit >= 1 && i < |Browse(tables, postId, sort, cursor, limit, snapshot)|
    ensures i < |tables| && i < |KeyPages(tables, postId, sort, cursor, limit, snapshot)|
    ensures id in tables[i] ==>
      (OnPage(Browse(tables, postId, sort, cursor, limit, snapshot)[i], id) <==>
       KeyOf(sort, id, tables[i][id]) in KeyPages(tables, postId, sort, cursor, limit, snapshot)[i].items)
  {
    KeyOrder();
    BrowseFollows(tables, postId, sort, cursor, limit, snapshot);
    var pages, keys := Browse(tables, postId, sort, cursor, limit, snapshot),
        KeyPages(tables, postId, sort, cursor, limit, snapshot);
    FollowWasRead(KeyLess, Views(tables, postId, sort, snapshot), CursorKey(sort, cursor), limit, keys);
    assert WasRead(keys[i], Views(tables, postId, sort, snapshot)[i]);
    if id in tables[i] {
      OnPageIffKey(tables[i], sort, keys[i], postId, snapshot, id);
    }
  }

  ghost predicate ShownOnce(pages: seq<ParentPage>, id: Id) {
    exists i | 0 <= i < |pages| :: OnPage(pages[i], id)
        && forall j | 0 <= j < |pages| && j != i :: !OnPage(pages[j], id)
  }

  /** The cursor a walk ends with is the key of a comment the walk read. */
  lemma {:induction false} LastCursorIsKey(tables: seq<Table>, postId: int, sort: Sort, limit: nat,
      snapshot: Option<int>)
    requires limit >= 1 && tables != []
    ensures KeyPages(tables, postId, sort, NoCursor, limit, snapshot) != []
    ensures var last := LastCursor(KeyPages(tables, postId, sort, NoCursor, limit, snapshot));
            last.Some? && sort == RECENT ==> last.value.rank == 0
  {
    KeyOrder();
    var views := Views(tables, postId, sort, snapshot);
    var pages := Follow(KeyLess, views, None, limit);
    var i := LastCursorWasRead(KeyLess, views, None, limit, pages);
    KeysOfRead(tables[i], postId, sort, snapshot, LastCursor(pages));
  }

  lemma KeysOfRead(t: Table, postId: int, sort: Sort, snapshot: Option<int>, last: Option<Key>)
    ensures last.Some? && last.value in ListKeys(t, postId, sort, snapshot) && sort == RECENT ==> last.value.rank == 0
  {
  }

  lemma SteadyInViews(tables: seq<Table>, postId: int, sort: Sort, snapshot: Option<int>, id: Id, k: Key)
    requires Steady(tables, postId, sort, snapshot, id, k)
    ensures forall rows | rows in Views(tables, postId, sort, snapshot) :: k in rows
  {
    var views := Views(tables, postId, sort, snapshot);
    forall rows | rows in views ensures k in rows {
      var i :| 0 <= i < |views| && views[i] == rows;
      assert Listed(tables[i], postId, snapshot, id);
    }
  }

  /** The pages show a comment exactly where the key pages show its key. */
  ghost predicate ShowSame(pages: seq<ParentPage>, keys: seq<Page<Key>>, id: Id, k: Key) {
    && |pages| == |keys|
    && forall i | 0 <= i < |pages| :: (OnPage(pages[i], id) <==> k in keys[i].items)
  }

  lemma OnceOnKeys(pages: seq<ParentPage>, keys: seq<Page<Key>>, id: Id, k: Key)
    requires ShowSame(pages, keys, id, k) && OnExactlyOnePage(keys, k)
    ensures ShownOnce(pages, id)
  {
    var i: nat :| OnlyOn(keys, k, i);
    assert OnPage(pages[i], id);
  }

  lemma NeverOnKeys(pages: seq<ParentPage>, keys: seq<Page<Key>>, id: Id, k: Key)
    requires ShowSame(pages, keys, id, k) && k !in Concat(keys)
    ensures forall p | p in pages :: !OnPage(p, id)
  {
    forall p | p in pages ensures !OnPage(p, id) {
      var i :| 0 <= i < |pages| && pages[i] == p;
      if k in keys[i].items { InConcat(keys, i, k); }
    }
  }

  /**
   Pagination under change.  Whatever else happens to the table between requests, a parent comment that stays
   live and keeps its sort key is on exactly one page of a client that reads to the end; a client that stops
   early misses it exactly when its last cursor is still above the comment.
   */
  lemma {:induction false} SteadyCommentShownOnce(tables: seq<Table>, postId: int, sort: Sort, limit: nat,
      snapshot: Option<int>, id: Id, k: Key)
    requires limit >= 1 && tables != []
    requires Steady(tables, postId, sort, snapshot, id, k)
    ensures var pages := Browse(tables, postId, sort, NoCursor, limit, snapshot);
            && pages != []
            && (if pages[|pages| - 1].nextCursor.Some?
                && AfterCursor(sort, pages[|pages| - 1].nextCursor.value, id, tables[0][id])
                then forall p | p in pages :: !OnPage(p, id)
                else ShownOnce(pages, id))
  {
    KeyOrder();
    var pages, keys := Browse(tables, postId, sort, NoCursor, limit, snapshot),
        KeyPages(tables, postId, sort, NoCursor, limit, snapshot);
    BrowseFollows(tables, postId, sort, NoCursor, limit, snapshot);
    SteadyInViews(tables, postId, sort, snapshot, id, k);
    StableKeyOnce(KeyLess, Views(tables, postId, sort, snapshot), None, limit, k);
    forall i | 0 <= i < |pages| ensures OnPage(pages[i], id) <==> k in keys[i].items {
      OnPagesIffKeys(tables, postId, sort, NoCursor, limit, snapshot, i, id);
    }
    if OnExactlyOnePage(keys, k) { OnceOnKeys(pages, keys, id, k); }
    if k !in Concat(keys) { NeverOnKeys(pages, keys, id, k); }
    var last := LastCursor(keys);
    LastCursorIsKey(tables, postId, sort, limit, snapshot);
    if last.Some? {
      CursorRoundTrip(sort, last.value);
      ClauseIsOrder(sort, CursorFor(sort, last.value), id, tables[0][id]);
    }
  }

  /**
   The page shows the comment exactly when it is listed and lies after the cursor above and not after the page's own
   cursor.
   */
  ghost predicate ShowsExactly(t: Table, postId: int, sort: Sort, snapshot: Option<int>, above: Option<CursorData>,
      page: ParentPage, id: Id) {
    id in t ==>
      (OnPage(page, id) <==>
        && Listed(t, postId, snapshot, id)
        && (above.Some? ==> AfterCursor(sort, above.value, id, t[id]))
        && (page.nextCursor.Some? ==> !AfterCursor(sort, page.nextCursor.value, id, t[id])))
  }

  function Decoded(cursor: CursorParam): Option<CursorData> {
    if cursor.Cursor? then Some(cursor.data) else None
  }

  /** Page i shows the comment exactly as the cursor it was asked with and the cursor it returned say. */
  ghost predicate ShowsAt(tables: seq<Table>, pages: seq<ParentPage>, postId: int, sort: Sort, snapshot: Option<int>,
      above: Option<CursorData>, i: nat, id: Id) {
    && i < |pages| && i < |tables|
    && (i > 0 ==> pages[i - 1].nextCursor.Some?)
    && ShowsExactly(tables[i], postId, sort, snapshot, if i == 0 then above else pages[i - 1].nextCursor, pages[i], id)
  }

  lemma ShowsShift(tables: seq<Table>, first: ParentPage, rest: seq<ParentPage>, postId: int, sort: Sort,
      snapshot: Option<int>, above: Option<CursorData>, i: nat, id: Id)
    requires tables != [] && first.nextCursor.Some? && i > 0
    requires ShowsAt(tables[1..], rest, postId, sort, snapshot, first.nextCursor, i - 1, id)
    ensures ShowsAt(tables, [first] + rest, postId, sort, snapshot, above, i, id)
  {
    assert tables[i] == tables[1..][i - 1];
    assert ([first] + rest)[i] == rest[i - 1];
  }

  lemma ShowsFirst(tables: seq<Table>, first: ParentPage, rest: seq<ParentPage>, postId: int, sort: Sort,
      snapshot: Option<int>, above: Option<CursorData>, id: Id)
    requires tables != [] && ShowsExactly(tables[0], postId, sort, snapshot, above, first, id)
    ensures ShowsAt(tables, [first] + rest, postId, sort, snapshot, above, 0, id)
  {
  }

  /** One request of a walk, with only what the position of a comment needs. */
  lemma BrowseOne(tables: seq<Table>, postId: int, sort: Sort, cursor: CursorParam, limit: nat, snapshot: Option<int>,
      id: Id)
    returns (first: ParentPage, next: CursorParam, rest: seq<ParentPage>)
    requires limit >= 1 && tables != []
    ensures Browse(tables, postId, sort, cursor, limit, snapshot) == [first] + rest
    ensures rest == if first.nextCursor.Some? then Browse(tables[1..], postId, sort, next, limit, snapshot) else []
    ensures first.nextCursor.Some? ==> first.nextCursor == Decoded(next)
    ensures first.nextCursor.None? ==> rest == []
    ensures ShowsExactly(tables[0], postId, sort, snapshot, Decoded(cursor), first, id)
  {
    var page;
    page, next := BrowseStep(tables, postId, sort, cursor, limit, snapshot);
    first := Render(tables[0], sort, page);
    rest := if first.nextCursor.Some? then Browse(tables[1..], postId, sort, next, limit, snapshot) else [];
    if id in tables[0] {
      OnePageWindow(tables[0], postId, sort, cursor, limit, snapshot, page, id);
    }
  }

  ghost predicate ShowsThroughout(tables: seq<Table>, pages: seq<ParentPage>, postId: int, sort: Sort,
      snapshot: Option<int>, above: Option<CursorData>, id: Id) {
    forall i: nat | i < |pages| :: ShowsAt(tables, pages, postId, sort, snapshot, above, i, id)
  }

  lemma ShowsCons(tables: seq<Table>, first: ParentPage, rest: seq<ParentPage>, postId: int, sort: Sort,
      snapshot: Option<int>, above: Option<CursorData>, id: Id)
    requires tables != [] && ShowsExactly(tables[0], postId, sort, snapshot, above, first, id)
    requires rest != [] ==>
        first.nextCursor.Some?
        && ShowsThroughout(tables[1..], rest, postId, sort, snapshot, first.nextCursor, id)
    ensures ShowsThroughout(tables, [first] + rest, postId, sort, snapshot, above, id)
  {
    forall i: nat | i < |[first] + rest| ensures ShowsAt(tables, [first] + rest, postId, sort, snapshot, above, i, id) {
      if i == 0 {
        ShowsFirst(tables, first, rest, postId, sort, snapshot, above, id);
      } else {
        assert ShowsAt(tables[1..], rest, postId, sort, snapshot, first.nextCursor, i - 1, id);
        ShowsShift(tables, first, rest, postId, sort, snapshot, above, i, id);
      }
    }
  }

  lemma {:induction false} WalkShows(tables: seq<Table>, postId: int, sort: Sort, cursor: CursorParam, limit: nat,
      snapshot: Option<int>, pages: seq<ParentPage>, id: Id)
    requires limit >= 1 && pages == Browse(tables, postId, sort, cursor, limit, snapshot)
    ensures ShowsThroughout(tables, pages, postId, sort, snapshot, Decoded(cursor), id)
    decreases |tables|
  {
    if tables != [] {
      var first, next, rest := BrowseOne(tables, postId, sort, cursor, limit, snapshot, id);
      if rest != [] {
        WalkShows(tables[1..], postId, sort, next, limit, snapshot, rest, id);
      }
      ShowsCons(tables, first, rest, postId, sort, snapshot, Decoded(cursor), id);
    }
  }

  /**
   Each page of a walk shows exactly the comments that, when it was read, lay between the cursor it was asked with and
   the cursor it returned.
   */
  lemma {:induction false} ShownIffInWindow(tables: seq<Table>, postId: int, sort: Sort, cursor: CursorParam,
      limit: nat, snapshot: Option<int>, pages: seq<ParentPage>, i: nat, id: Id)
    requires limit >= 1 && pages == Browse(tables, postId, sort, cursor, limit, snapshot) && i < |pages|
    ensures ShowsAt(tables, pages, postId, sort, snapshot, Decoded(cursor), i, id)
  {
    WalkShows(tables, postId, sort, cursor, limit, snapshot, pages, id);
  }

  lemma OnePageWindow(t: Table, postId: int, sort: Sort, cursor: CursorParam, limit: nat, snapshot: Option<int>,
      keys: Page<Key>, id: Id)
    requires id in t
    requires IsWindow(KeyLess, ListKeys(t, postId, sort, snapshot), CursorKey(sort, cursor), limit, keys)
    ensures ShowsExactly(t, postId, sort, snapshot, Decoded(cursor), Render(t, sort, keys), id)
  {
    OnPageIffKey(t, sort, keys, postId, snapshot, id);
    KeyListed(t, postId, sort, snapshot, id);
    if keys.next.Some? {
      assert keys.next.value in ListKeys(t, postId, sort, snapshot);
      ClauseIsOrder(sort, CursorFor(sort, keys.next.value), id, t[id]);
      CursorRoundTrip(sort, keys.next.value);
    }
    if cursor.Cursor? {
      ClauseIsOrder(sort, cursor.data, id, t[id]);
    }
  }

  lemma ClauseIsOrder(sort: Sort, cursor: CursorData, id: Id, c: Comment)
    ensures AfterCursor(sort, cursor, id, c) <==> KeyLess(KeyOf(sort, id, c), CursorKey(sort, Cursor(cursor)).value)
  {
  }

  lemma KeyListed(t: Table, postId: int, sort: Sort, snapshot: Option<int>, id: Id)
    requires id in t
    ensures KeyOf(sort, id, t[id]) in ListKeys(t, postId, sort, snapshot) <==> Listed(t, postId, snapshot, id)
  {
  }

  lemma FrozenViews(t: Table, tables: seq<Table>, postId: int, sort: Sort, snapshot: Option<int>)
    requires forall i | 0 <= i < |tables| :: tables[i] == t
    ensures Frozen(Views(tables, postId, sort, snapshot), ListKeys(t, postId, sort, snapshot))
  {
  }

  lemma EndsTogether(pages: seq<ParentPage>, keys: seq<Page<Key>>, tables: seq<Table>, sort: Sort)
    requires Renders(pages, keys, tables, sort) && pages != []
    ensures pages[|pages| - 1].nextCursor.None? <==> Complete(keys)
  {
  }

  /** The comments a client has been shown, page after page. */
  function Shown(pages: seq<ParentPage>): seq<Entry> {
    if pages == [] then [] else pages[0].comments + Shown(pages[1..])
  }

  lemma EntriesAppend(t: Table, a: seq<Key>, b: seq<Key>)
    ensures Entries(t, a + b) == Entries(t, a) + Entries(t, b)
  {
  }

  lemma {:induction false} ShownAreEntries(t: Table, tables: seq<Table>, pages: seq<ParentPage>, keys: seq<Page<Key>>,
      sort: Sort)
    requires Renders(pages, keys, tables, sort) && Frozen(tables, t)
    ensures Shown(pages) == Entries(t, Concat(keys))
    decreases |pages|
  {
    if pages != [] {
      assert pages[0] == Render(tables[0], sort, keys[0]);
      ShownAreEntries(t, tables[1..], pages[1..], keys[1..], sort);
      EntriesAppend(t, keys[0].items, Concat(keys[1..]));
    }
  }

  lemma {:induction false} FrozenKeys(t: Table, tables: seq<Table>, postId: int, sort: Sort, limit: nat,
      snapshot: Option<int>)
    requires limit >= 1 && forall i | 0 <= i < |tables| :: tables[i] == t
    requires Complete(KeyPages(tables, postId, sort, NoCursor, limit, snapshot))
    ensures StrictTotal(KeyLess)
    ensures Concat(KeyPages(tables, postId, sort, NoCursor, limit, snapshot)) ==
        Desc(KeyLess, ListKeys(t, postId, sort, snapshot))
  {
    KeyOrder();
    FrozenViews(t, tables, postId, sort, snapshot);
    FrozenChainFromStart(KeyLess, ListKeys(t, postId, sort, snapshot), Views(tables, postId, sort, snapshot), limit);
  }

  /**
   On a table nobody changes, the comments a completed walk has shown are the live parents, with their counts, in sort
   order.
   */
  lemma {:induction false} FrozenPagesAreList(t: Table, tables: seq<Table>, postId: int, sort: Sort, limit: nat,
      snapshot: Option<int>)
    requires limit >= 1 && forall i | 0 <= i < |tables| :: tables[i] == t
    requires var pages := Browse(tables, postId, sort, NoCursor, limit, snapshot);
             pages != [] && pages[|pages| - 1].nextCursor.None?
    ensures StrictTotal(KeyLess)
    ensures Shown(Browse(tables, postId, sort, NoCursor, limit, snapshot))
            == Entries(t, Desc(KeyLess, ListKeys(t, postId, sort, snapshot)))
  {
    BrowseFollows(tables, postId, sort, NoCursor, limit, snapshot);
    var pages, keys := Browse(tables, postId, sort, NoCursor, limit, snapshot),
        KeyPages(tables, postId, sort, NoCursor, limit, snapshot);
    EndsTogether(pages, keys, tables, sort);
    FrozenKeys(t, tables, postId, sort, limit, snapshot);
    ShownAreEntries(t, tables, pages, keys, sort);
  }

  // ---- The walk ends ----

  /** Every comment met later that is not newer than `now` was already there at the first read. */
  ghost predicate NewRowsAreLater(tables: seq<Table>, now: int) {
    forall i, c | 0 <= i < |tables| && c in tables[i] && tables[i][c].createdAt <= now ::
      c in tables[0] && tables[0][c].createdAt == tables[i][c].createdAt
  }

  ghost predicate LikesNonNegative(tables: seq<Table>) {
    forall i, c | 0 <= i < |tables| && c in tables[i] :: tables[i][c].likesCount >= 0
  }

  /** Keys the comments of `t` can ever have while their likes stay between 0 and `likes`. */
  function Reachable(t: Table, likes: nat): set<Key> {
    set c, n | c in t && 0 <= n <= likes :: Key(n, t[c].createdAt, c)
  }

  /**
   The chain terminates: although likes may change without bound, only finitely many keys lie below the first
   cursor, and every further request uses up at least one of them.
   */
  lemma {:induction false} WalkEnds(tables: seq<Table>, postId: int, sort: Sort, limit: nat, snapshot: Option<int>,
      now: int, likes: nat)
    requires limit >= 1 && tables != []
    requires NewRowsAreLater(tables, now) && LikesNonNegative(tables)
    requires forall c | c in tables[0] :: tables[0][c].createdAt <= now && tables[0][c].likesCount <= likes
    requires sort == POPULAR ==> snapshot.Some? && snapshot.value <= now
    requires |tables| > 1 + |Reachable(tables[0], likes)|
    ensures var pages := Browse(tables, postId, sort, NoCursor, limit, snapshot);
            pages != [] && pages[|pages| - 1].nextCursor.None?
  {
    BrowseFollows(tables, postId, sort, NoCursor, limit, snapshot);
    KeysEnd(tables, postId, sort, limit, snapshot, now, likes);
    EndsTogether(Browse(tables, postId, sort, NoCursor, limit, snapshot),
                 KeyPages(tables, postId, sort, NoCursor, limit, snapshot), tables, sort);
  }

  lemma KeysEnd(tables: seq<Table>, postId: int, sort: Sort, limit: nat, snapshot: Option<int>, now: int, likes: nat)
    requires limit >= 1 && tables != []
    requires NewRowsAreLater(tables, now) && LikesNonNegative(tables)
    requires forall c | c in tables[0] :: tables[0][c].createdAt <= now && tables[0][c].likesCount <= likes
    requires sort == POPULAR ==> snapshot.Some? && snapshot.value <= now
    requires |tables| > 1 + |Reachable(tables[0], likes)|
    ensures Complete(KeyPages(tables, postId, sort, NoCursor, limit, snapshot))
  {
    KeyOrder();
    var views := Views(tables, postId, sort, snapshot);
    var later := Views(tables[1..], postId, sort, snapshot);
    assert views[1..] == later;
    var page, rest := FollowCursor(KeyLess, views, None, limit);
    if page.next.Some? {
      assert page.next.value in ListKeys(tables[0], postId, sort, snapshot);
      LaterViewsReachable(tables, postId, sort, snapshot, now, likes, page.next);
      ChainEnds(KeyLess, later, page.next, limit, Reachable(tables[0], likes));
      CompleteTail(page, Follow(KeyLess, later, page.next, limit));
    }
  }

  lemma CompleteTail(page: Page<Key>, rest: seq<Page<Key>>)
    requires Complete(rest)
    ensures Complete([page] + rest)
  {
  }

  lemma LaterViewsReachable(tables: seq<Table>, postId: int, sort: Sort, snapshot: Option<int>, now: int, likes: nat,
      cursor: Option<Key>)
    requires tables != [] && cursor.Some?
    requires NewRowsAreLater(tables, now) && LikesNonNegative(tables)
    requires forall c | c in tables[0] :: tables[0][c].createdAt <= now && tables[0][c].likesCount <= likes
    requires sort == POPULAR ==> snapshot.Some? && snapshot.value <= now
    requires cursor.value in ListKeys(tables[0], postId, sort, snapshot)
    ensures Bounded(KeyLess, Views(tables[1..], postId, sort, snapshot), cursor, Reachable(tables[0], likes))
  {
    var views := Views(tables[1..], postId, sort, snapshot);
    forall rows | rows in views ensures Visible(KeyLess, rows, cursor) <= Reachable(tables[0], likes) {
      var i :| 0 <= i < |views| && views[i] == rows;
      LaterKeysReachable(tables, postId, sort, snapshot, now, likes, i + 1, cursor.value);
    }
  }

  lemma LaterKeysReachable(tables: seq<Table>, postId: int, sort: Sort, snapshot: Option<int>, now: int, likes: nat,
      i: nat, cursor: Key)
    requires 0 < i < |tables|
    requires NewRowsAreLater(tables, now) && LikesNonNegative(tables)
    requires forall c | c in tables[0] :: tables[0][c].createdAt <= now && tables[0][c].likesCount <= likes
    requires sort == POPULAR ==> snapshot.Some? && snapshot.value <= now
    requires cursor in ListKeys(tables[0], postId, sort, snapshot)
    ensures Visible(KeyLess, ListKeys(tables[i], postId, sort, snapshot), Some(cursor)) <= Reachable(tables[0], likes)
  {
    var d :| d in tables[0] && Listed(tables[0], postId, snapshot, d) && KeyOf(sort, d, tables[0][d]) == cursor;
    forall k | k in Visible(KeyLess, ListKeys(tables[i], postId, sort, snapshot), Some(cursor))
      ensures k in Reachable(tables[0], likes)
    {
      var c :| c in tables[i] && Listed(tables[i], postId, snapshot, c) && KeyOf(sort, c, tables[i][c]) == k;
      assert tables[i][c].createdAt <= now;
      assert k == Key(k.rank, tables[0][c].createdAt, c) && 0 <= k.rank <= likes;
    }
  }

  // ---- What the snapshot does not promise ----

  /** A parent comment of post 0 with the given likes. */
  function Liked(likes: int): Comment {
    Comment(0, None, 0, false, likes, 0, 0, 0, 0)
  }

  /** Comment 0 with two likes and comment 1 with one. */
  ghost predicate TwoLiked(t: Table) {
    t == map[0 := Liked(2), 1 := Liked(1)]
  }

  lemma TwoLikedFirstPage(t: Table, page: Page<Key>)
    requires TwoLiked(t)
    requires IsWindow(KeyLess, ListKeys(t, 0, POPULAR, Some(0)), None, 1, page)
    ensures page.next == Some(Key(2, 0, 0)) && Key(2, 0, 0) in page.items && Key(1, 0, 1) !in page.items
  {
    var first, second := Key(2, 0, 0), Key(1, 0, 1);
    KeyListed(t, 0, POPULAR, Some(0), 0);
    KeyListed(t, 0, POPULAR, Some(0), 1);
    assert first in Visible(KeyLess, ListKeys(t, 0, POPULAR, Some(0)), None);
    assert second in Visible(KeyLess, ListKeys(t, 0, POPULAR, Some(0)), None);
    assert !(first in page.items && second in page.items) by {
      assert |page.items| <= 1;
    }
  }

  /** A client reads page one of that table, then asks for the next page on another table. */
  lemma TwoRequests(tables: seq<Table>, snapshot: Option<int>) returns (first: ParentPage, page: Page<Key>)
    requires |tables| == 2 && TwoLiked(tables[0]) && snapshot == Some(0)
    ensures IsWindow(KeyLess, ListKeys(tables[1], 0, POPULAR, snapshot), Some(Key(2, 0, 0)), 1, page)
    ensures Browse(tables, 0, POPULAR, NoCursor, 1, snapshot) == [first, Render(tables[1], POPULAR, page)]
    ensures OnPage(first, 0) && !OnPage(first, 1)
  {
    var next;
    first, next := FirstOfTwo(tables, snapshot);
    page := LastRequest(tables[1..], next, snapshot);
  }

  lemma {:induction false} FirstOfTwo(tables: seq<Table>, snapshot: Option<int>) returns (first: ParentPage,
      next: CursorParam)
    requires |tables| == 2 && TwoLiked(tables[0]) && snapshot == Some(0)
    ensures CursorKey(POPULAR, next) == Some(Key(2, 0, 0))
    ensures Browse(tables, 0, POPULAR, NoCursor, 1, snapshot) ==
        [first] + Browse(tables[1..], 0, POPULAR, next, 1, snapshot)
    ensures OnPage(first, 0) && !OnPage(first, 1)
  {
    var head;
    head, next := BrowseStep(tables, 0, POPULAR, NoCursor, 1, snapshot);
    TwoLikedFirstPage(tables[0], head);
    first := Render(tables[0], POPULAR, head);
    OnPageIffKey(tables[0], POPULAR, head, 0, snapshot, 0);
    OnPageIffKey(tables[0], POPULAR, head, 0, snapshot, 1);
  }

  lemma LastRequest(tables: seq<Table>, cursor: CursorParam, snapshot: Option<int>) returns (page: Page<Key>)
    requires |tables| == 1
    ensures StrictTotal(KeyLess)
    ensures IsWindow(KeyLess, ListKeys(tables[0], 0, POPULAR, snapshot), CursorKey(POPULAR, cursor), 1, page)
    ensures Browse(tables, 0, POPULAR, cursor, 1, snapshot) == [Render(tables[0], POPULAR, page)]
  {
    var next;
    page, next := BrowseStep(tables, 0, POPULAR, cursor, 1, snapshot);
    assert tables[1..] == [];
  }

  /**
   The snapshot fixes the set of comments, not their likes: a comment that overtakes the cursor is never shown,
   although it was live throughout.
   */
  lemma {:induction false} OvertakingCommentMissed(tables: seq<Table>, snapshot: Option<int>)
    requires |tables| == 2 && TwoLiked(tables[0]) && snapshot == Some(0)
    requires tables[1] == map[0 := Liked(2), 1 := Liked(5)]
    ensures var pages := Browse(tables, 0, POPULAR, NoCursor, 1, snapshot);
      && (forall i | 0 <= i < |tables| :: Listed(tables[i], 0, snapshot, 1))
      && pages != [] && pages[|pages| - 1].nextCursor.None?
      && (forall p | p in pages :: !OnPage(p, 1))
  {
    var first, page := TwoRequests(tables, snapshot);
    NothingLeft(tables[1], page);
    OnPageIffKey(tables[1], POPULAR, page, 0, snapshot, 1);
  }

  lemma NothingLeft(t: Table, page: Page<Key>)
    requires t == map[0 := Liked(2), 1 := Liked(5)]
    requires IsWindow(KeyLess, ListKeys(t, 0, POPULAR, Some(0)), Some(Key(2, 0, 0)), 1, page)
    ensures forall k :: k !in page.items
    ensures page.next.None?
  {
    forall k ensures k !in Visible(KeyLess, ListKeys(t, 0, POPULAR, Some(0)), Some(Key(2, 0, 0))) {
      assert k in ListKeys(t, 0, POPULAR, Some(0)) ==> k == Key(2, 0, 0) || k == Key(5, 0, 1);
    }
  }

  /** Likewise a comment that falls below the cursor is shown twice. */
  lemma FallingCommentRepeated(tables: seq<Table>, snapshot: Option<int>)
    requires |tables| == 2 && TwoLiked(tables[0]) && snapshot == Some(0)
    requires tables[1] == map[0 := Liked(0)]
    ensures var pages := Browse(tables, 0, POPULAR, NoCursor, 1, snapshot);
      |pages| == 2 && OnPage(pages[0], 0) && OnPage(pages[1], 0)
  {
    var first, page := TwoRequests(tables, snapshot);
    var t, k := tables[1], Key(0, 0, 0);
    KeyListed(t, 0, POPULAR, snapshot, 0);
    assert forall x | x in ListKeys(t, 0, POPULAR, snapshot) :: x == k;
    assert k in Visible(KeyLess, ListKeys(t, 0, POPULAR, snapshot), Some(Key(2, 0, 0)));
    assert k in page.items by {
      if page.next.Some? { assert page.next.value in page.items; }
    }
    OnPageIffKey(t, POPULAR, page, 0, snapshot, 0);
  }
}
