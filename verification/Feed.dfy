/** What a feed request may ask for. */
module FeedKinds {
  datatype FilterType = ALL | BLOG_ONLY | COMMUNITY_ONLY

  datatype SortType = RECENT | HOT | TOP
}

/**
 The unified home feed: blog posts and community posts in one list, newest first.  The default feed does not sort the
 union of the two tables; it takes the newest candidates of each, merges those, and joins the survivors back.
 */
module Feed {
  import opened Wrappers
  import opened Keyset
  import opened Chain
  import opened FeedKinds

  datatype Source = BLOG | COMMUNITY

  datatype Status = DRAFT | PUBLISHED

  datatype Post = Post(isPublished: bool, isDeleted: bool, status: Status, createdAt: int)

  datatype CommunityPost = CommunityPost(communityId: int, status: Status, isDeleted: bool, createdAt: int)

  datatype JoinPolicy = OPEN | PRIVATE

  datatype Community = Community(isPublic: bool, isPostDiscoverable: bool, joinPolicy: JoinPolicy, isDeleted: bool)

  datatype Db = Db(posts: map<int, Post>, communityPosts: map<int, CommunityPost>, communities: map<int, Community>)

  datatype Item = Item(source: Source, id: int, createdAt: int)

  datatype CursorData = CursorData(createdAt: int, id: int)

  /** Newest first, then by id; ids are unique over both tables, so the source never decides. */
  predicate ItemLess(a: Item, b: Item) {
    || a.createdAt < b.createdAt
    || (a.createdAt == b.createdAt && a.id < b.id)
    || (a.createdAt == b.createdAt && a.id == b.id && a.source == BLOG && b.source == COMMUNITY)
  }

  lemma ItemOrder()
    ensures StrictTotal(ItemLess)
  {
  }

  predicate BelowCursor(createdAt: int, id: int, cursor: Option<CursorData>) {
    cursor.Some? ==>
      createdAt < cursor.value.createdAt || (createdAt == cursor.value.createdAt && id < cursor.value.id)
  }

  predicate Since(createdAt: int, since: Option<int>) {
    since.Some? ==> createdAt >= since.value
  }

  predicate BlogVisible(db: Db, id: int) {
    id in db.posts && db.posts[id].isPublished && !db.posts[id].isDeleted && db.posts[id].status == PUBLISHED
  }

  predicate Discoverable(db: Db, communityId: int) {
    && communityId in db.communities
    && db.communities[communityId].isPublic
    && db.communities[communityId].isPostDiscoverable
    && db.communities[communityId].joinPolicy != PRIVATE
    && !db.communities[communityId].isDeleted
  }

  predicate CommunityVisible(db: Db, id: int) {
    && id in db.communityPosts
    && db.communityPosts[id].status == PUBLISHED && !db.communityPosts[id].isDeleted
    && Discoverable(db, db.communityPosts[id].communityId)
  }

  function BlogRows(db: Db, cursor: Option<CursorData>, since: Option<int>): set<Item> {
    set id | id in db.posts && BlogVisible(db, id)
             && Since(db.posts[id].createdAt, since) && BelowCursor(db.posts[id].createdAt, id, cursor)
      :: Item(BLOG, id, db.posts[id].createdAt)
  }

  function CommunityRows(db: Db, cursor: Option<CursorData>, since: Option<int>): set<Item> {
    set id | id in db.communityPosts && CommunityVisible(db, id)
             && Since(db.communityPosts[id].createdAt, since)
                 && BelowCursor(db.communityPosts[id].createdAt, id, cursor)
      :: Item(COMMUNITY, id, db.communityPosts[id].createdAt)
  }

  function UnionRows(db: Db, filter: FilterType, cursor: Option<CursorData>, since: Option<int>): set<Item> {
    (if filter != COMMUNITY_ONLY then BlogRows(db, cursor, since) else {})
    + (if filter != BLOG_ONLY then CommunityRows(db, cursor, since) else {})
  }

  /** The plain form: sort the whole union below the cursor and take `limit`. */
  function UnionQuery(db: Db, filter: FilterType, limit: nat, cursor: Option<CursorData>,
      since: Option<int>): seq<Item> {
    ItemOrder();
    Take(Desc(ItemLess, UnionRows(db, filter, cursor, since)), limit)
  }

  function CandidateLimit(limit: nat): nat {
    if limit * 2 > 40 then limit * 2 else 40
  }

  lemma TwiceOrForty(limit: nat)
    ensures CandidateLimit(limit) >= 2 * limit && CandidateLimit(limit) >= 40
    ensures CandidateLimit(limit) == 2 * limit || CandidateLimit(limit) == 40
  {
  }

  /** The join that fetches the full rows of the surviving candidates. */
  predicate Joins(db: Db, x: Item) {
    match x.source
    case BLOG => x.id in db.posts
    case COMMUNITY => x.id in db.communityPosts && Discoverable(db, db.communityPosts[x.id].communityId)
  }

  function JoinsIn(db: Db): Item -> bool {
    x => Joins(db, x)
  }

  /** The newest `m` of each part, merged, cut to `limit`, joined back to their rows and sorted again. */
  function MergeCandidates<T(==,!new)>(lt: (T, T) -> bool, a: set<T>, b: set<T>, m: nat, limit: nat,
      joins: T -> bool): seq<T>
    requires StrictTotal(lt)
  {
    var limited := Top(lt, Top(lt, a, m) + Top(lt, b, m), limit);
    Desc(lt, set x | x in limited && joins(x))
  }

  /** The fast form: candidates per table, merge, limit, join back, sort again. */
  function OptimizedQuery(db: Db, limit: nat, cursor: Option<CursorData>, since: Option<int>): seq<Item> {
    ItemOrder();
    MergeCandidates(ItemLess, BlogRows(db, cursor, since), CommunityRows(db, cursor, since), CandidateLimit(limit),
        limit, JoinsIn(db))
  }

  function ExecuteUnifiedQuery(db: Db, filter: FilterType, limit: nat, cursor: Option<CursorData>,
      since: Option<int>): seq<Item> {
    if filter == ALL then OptimizedQuery(db, limit, cursor, since)
    else UnionQuery(db, filter, limit, cursor, since)
  }

  lemma {:induction false} TopSorted<T(!new)>(lt: (T, T) -> bool, rows: set<T>, n: nat)
    requires StrictTotal(lt)
    ensures Desc(lt, Top(lt, rows, n)) == Take(Desc(lt, rows), n)
  {
    var first := Take(Desc(lt, rows), n);
    assert Descending(lt, first);
    DescendingUnique(lt, first, Desc(lt, Top(lt, rows, n)));
  }

  lemma {:induction false} MergeThenLimit<T(!new)>(lt: (T, T) -> bool, a: set<T>, b: set<T>, m: nat, limit: nat)
    requires StrictTotal(lt) && limit <= m
    ensures var limited := Top(lt, Top(lt, a, m) + Top(lt, b, m), limit);
            limited <= a + b && Desc(lt, limited) == Take(Desc(lt, a + b), limit)
  {
    MergeOfTops(lt, a, b, m, limit);
    TopSorted(lt, Top(lt, a, m) + Top(lt, b, m), limit);
  }

  ghost predicate AllSatisfy<T(!new)>(rows: set<T>, p: T -> bool) {
    forall x | x in rows :: p(x)
  }

  lemma AllJoin<T(!new)>(rows: set<T>, joins: T -> bool)
    requires AllSatisfy(rows, joins)
    ensures (set x | x in rows && joins(x)) == rows
  {
  }

  /** Merging candidates is sorting the union and cutting it, when enough candidates are taken and every row joins. */
  lemma {:induction false} MergedCandidates<T(!new)>(lt: (T, T) -> bool, a: set<T>, b: set<T>, m: nat, limit: nat,
      joins: T -> bool)
    requires StrictTotal(lt) && limit <= m
    requires AllSatisfy(a + b, joins)
    ensures MergeCandidates(lt, a, b, m, limit, joins) == Take(Desc(lt, a + b), limit)
  {
    MergeThenLimit(lt, a, b, m, limit);
    AllJoin(Top(lt, Top(lt, a, m) + Top(lt, b, m), limit), joins);
  }

  lemma VisibleRowsJoin(db: Db, cursor: Option<CursorData>, since: Option<int>)
    ensures AllSatisfy(BlogRows(db, cursor, since) + CommunityRows(db, cursor, since), JoinsIn(db))
  {
  }

  /** The fast form returns what the plain form returns, for every database, limit, cursor and period. */
  lemma {:induction false} OptimizedRefinesUnion(db: Db, limit: nat, cursor: Option<CursorData>, since: Option<int>)
    ensures OptimizedQuery(db, limit, cursor, since) == UnionQuery(db, ALL, limit, cursor, since)
  {
    VisibleRowsJoin(db, cursor, since);
    UnionRowsAll(db, cursor, since);
    FastIsPlain(db, BlogRows(db, cursor, since), CommunityRows(db, cursor, since), limit);
  }

  lemma UnionRowsAll(db: Db, cursor: Option<CursorData>, since: Option<int>)
    ensures UnionRows(db, ALL, cursor, since) == BlogRows(db, cursor, since) + CommunityRows(db, cursor, since)
  {
  }

  lemma {:induction false} FastIsPlain(db: Db, a: set<Item>, b: set<Item>, limit: nat)
    requires AllSatisfy(a + b, JoinsIn(db))
    ensures StrictTotal(ItemLess)
    ensures MergeCandidates(ItemLess, a, b, CandidateLimit(limit), limit, JoinsIn(db)) ==
        Take(Desc(ItemLess, a + b), limit)
  {
    ItemOrder();
    MergedCandidates(ItemLess, a, b, CandidateLimit(limit), limit, JoinsIn(db));
  }

  // ---- Pages ----

  datatype Response = Response(items: seq<Item>, nextCursor: Option<CursorData>, hasMore: bool, count: nat)

  function CursorOf(x: Item): CursorData {
    CursorData(x.createdAt, x.id)
  }

  function Respond(page: Page<Item>): Response {
    Response(page.items, if page.next.Some? then Some(CursorOf(page.next.value)) else None, page.hasNext, |page.items|)
  }

  function FeedPage(db: Db, filter: FilterType, limit: nat, cursor: Option<CursorData>, since: Option<int>): Response {
    Respond(PageFrom(UnionQuery(db, filter, limit + 1, cursor, since), limit))
  }

  lemma {:induction false} QueryIsUnion(db: Db, filter: FilterType, limit: nat, cursor: Option<CursorData>,
      since: Option<int>, items: seq<Item>)
    requires items == ExecuteUnifiedQuery(db, filter, limit, cursor, since)
    ensures items == UnionQuery(db, filter, limit, cursor, since)
  {
    OptimizedRefinesUnion(db, limit, cursor, since);
  }

  /** Dropping the surplus row and pointing at the last row kept. */
  lemma Assembled(fetched: seq<Item>, items: seq<Item>, limit: nat, nextCursor: Option<CursorData>)
    requires items == if |fetched| > limit then fetched[..|fetched| - 1] else fetched
    requires nextCursor == if |fetched| > limit && |items| > 0 then Some(CursorOf(items[|items| - 1])) else None
    ensures Response(items, nextCursor, |fetched| > limit, |items|) == Respond(PageFrom(fetched, limit))
  {
  }

  /** One page of the recent feed, as the service assembles it. */
  method GetUnifiedFeed(db: Db, filter: FilterType, limit: nat, cursor: Option<CursorData>, since: Option<int>)
    returns (response: Response)
    ensures response == FeedPage(db, filter, limit, cursor, since)
  {
    var fetched := ExecuteUnifiedQuery(db, filter, limit + 1, cursor, since);
    QueryIsUnion(db, filter, limit + 1, cursor, since, fetched);
    response := Assemble(fetched, limit);
  }

  method Assemble(fetched: seq<Item>, limit: nat) returns (response: Response)
    ensures response == Respond(PageFrom(fetched, limit))
  {
    var items := fetched;
    var hasMore := |items| > limit;
    if hasMore {
      items := items[..|items| - 1];
    }
    var nextCursor: Option<CursorData> := None;
    if hasMore && |items| > 0 {
      var lastItem := items[|items| - 1];
      nextCursor := Some(CursorData(lastItem.createdAt, lastItem.id));
    }
    Assembled(fetched, items, limit, nextCursor);
    response := Response(items, nextCursor, hasMore, |items|);
  }

  /** The pages a reader gets by following cursors, one database state per request. */
  function Scroll(dbs: seq<Db>, filter: FilterType, limit: nat, cursor: Option<CursorData>,
      since: Option<int>): seq<Response> {
    if dbs == [] then []
    else
      var page := FeedPage(dbs[0], filter, limit, cursor, since);
      [page] + if page.nextCursor.Some? then Scroll(dbs[1..], filter, limit, page.nextCursor, since) else []
  }

  /** Everything a request without a cursor could list. */
  function Listed(db: Db, filter: FilterType, since: Option<int>): set<Item> {
    UnionRows(db, filter, None, since)
  }

  function Lists(dbs: seq<Db>, filter: FilterType, since: Option<int>): (views: seq<set<Item>>)
    ensures |views| == |dbs|
    ensures forall i | 0 <= i < |dbs| :: views[i] == Listed(dbs[i], filter, since)
  {
    if dbs == [] then [] else [Listed(dbs[0], filter, since)] + Lists(dbs[1..], filter, since)
  }

  /**
   Ids are unique over both tables for the whole run: an id never stands for a blog post here and a community post
   there.
   */
  ghost predicate SourcesFixed(dbs: seq<Db>) {
    forall i, j, id | 0 <= i < |dbs| && 0 <= j < |dbs| && id in dbs[i].posts :: id !in dbs[j].communityPosts
  }

  /** The item a cursor points at does not occur under the other source. */
  ghost predicate CursorFixed(dbs: seq<Db>, cursor: Option<Item>) {
    cursor.Some? ==> forall i | 0 <= i < |dbs| ::
      (cursor.value.source == BLOG ==> cursor.value.id !in dbs[i].communityPosts)
      && (cursor.value.source == COMMUNITY ==> cursor.value.id !in dbs[i].posts)
  }

  function CursorParam(cursor: Option<Item>): Option<CursorData> {
    if cursor.Some? then Some(CursorOf(cursor.value)) else None
  }

  lemma ClauseIsBelow(dbs: seq<Db>, filter: FilterType, cursor: Option<Item>, since: Option<int>)
    requires dbs != [] && CursorFixed(dbs, cursor)
    ensures UnionRows(dbs[0], filter, CursorParam(cursor), since) ==
        Visible(ItemLess, Listed(dbs[0], filter, since), cursor)
  {
    var db := dbs[0];
    var a, b := UnionRows(db, filter, CursorParam(cursor), since), Visible(ItemLess, Listed(db, filter, since), cursor);
    forall x ensures x in a <==> x in b {
      if x in b {
        assert x in Listed(db, filter, since);
      }
    }
  }

  lemma {:induction false} ScrollHead(dbs: seq<Db>, filter: FilterType, limit: nat, cursor: Option<Item>,
      since: Option<int>, page: Page<Item>)
    requires dbs != [] && CursorFixed(dbs, cursor) && StrictTotal(ItemLess)
    requires page == PageOf(ItemLess, Listed(dbs[0], filter, since), cursor, limit)
    ensures FeedPage(dbs[0], filter, limit, CursorParam(cursor), since) == Respond(page)
  {
    ClauseIsBelow(dbs, filter, cursor, since);
  }

  lemma CursorStaysFixed(dbs: seq<Db>, filter: FilterType, since: Option<int>, x: Item)
    requires dbs != [] && SourcesFixed(dbs) && x in Listed(dbs[0], filter, since)
    ensures CursorFixed(dbs, Some(x)) && CursorFixed(dbs[1..], Some(x)) && SourcesFixed(dbs[1..])
  {
  }

  /** One request of the scroll is one window of the list. */
  lemma {:induction false} ScrollStep(dbs: seq<Db>, filter: FilterType, limit: nat, cursor: Option<Item>,
      since: Option<int>)
    returns (page: Page<Item>, rest: seq<Page<Item>>)
    requires dbs != [] && limit >= 1 && SourcesFixed(dbs) && CursorFixed(dbs, cursor)
    ensures StrictTotal(ItemLess)
    ensures IsWindow(ItemLess, Listed(dbs[0], filter, since), cursor, limit, page)
    ensures page.next.Some? ==> CursorFixed(dbs[1..], page.next) && SourcesFixed(dbs[1..])
    ensures Scroll(dbs, filter, limit, CursorParam(cursor), since) ==
            [Respond(page)] + if page.next.Some?
                then Scroll(dbs[1..], filter, limit, CursorParam(page.next), since) else []
    ensures Follow(ItemLess, Lists(dbs, filter, since), cursor, limit) == [page] + rest
    ensures rest == if page.next.Some? then Follow(ItemLess, Lists(dbs[1..], filter, since), page.next, limit) else []
  {
    ItemOrder();
    page, rest := FollowStep(ItemLess, Lists(dbs, filter, since), cursor, limit);
    FollowHead(ItemLess, Lists(dbs, filter, since), cursor, limit);
    ScrollHead(dbs, filter, limit, cursor, since, page);
    assert Lists(dbs, filter, since)[1..] == Lists(dbs[1..], filter, since);
    if page.next.Some? {
      assert page.next.value in Listed(dbs[0], filter, since);
      CursorStaysFixed(dbs, filter, since, page.next.value);
    }
  }

  ghost predicate Renders(pages: seq<Page<Item>>, scroll: seq<Response>) {
    |scroll| == |pages| && forall i | 0 <= i < |pages| :: scroll[i] == Respond(pages[i])
  }

  lemma RendersCons(page: Page<Item>, rest: seq<Page<Item>>, scroll: seq<Response>)
    requires Renders(rest, scroll)
    ensures Renders([page] + rest, [Respond(page)] + scroll)
  {
  }

  lemma {:induction false} ScrollFollows(dbs: seq<Db>, filter: FilterType, limit: nat, cursor: Option<Item>,
      since: Option<int>)
    requires limit >= 1 && SourcesFixed(dbs) && CursorFixed(dbs, cursor)
    ensures StrictTotal(ItemLess)
    ensures Renders(Follow(ItemLess, Lists(dbs, filter, since), cursor, limit),
        Scroll(dbs, filter, limit, CursorParam(cursor), since))
  {
    if dbs == [] {
      ItemOrder();
    } else {
      var page, rest := ScrollStep(dbs, filter, limit, cursor, since);
      if page.next.Some? {
        ScrollFollows(dbs[1..], filter, limit, page.next, since);
        RendersCons(page, rest, Scroll(dbs[1..], filter, limit, CursorParam(page.next), since));
      }
    }
  }

  ghost predicate ShownOnce(pages: seq<Response>, x: Item) {
    exists i | 0 <= i < |pages| :: x in pages[i].items && forall j | 0 <= j < |pages| && j != i :: x !in pages[j].items
  }

  /** On exactly one page, or on none when the reader stopped while the last cursor was still above the post. */
  ghost predicate ShownOnceUnlessStoppedAbove(pages: seq<Response>, x: Item)
    requires pages != []
  {
    var last := pages[|pages| - 1].nextCursor;
    if last.Some? && BelowCursor(x.createdAt, x.id, last)
    then forall p | p in pages :: x !in p.items
    else ShownOnce(pages, x)
  }

  lemma {:induction false} OnceScrolled(pages: seq<Page<Item>>, scroll: seq<Response>, x: Item)
    requires Renders(pages, scroll)
    requires OnExactlyOnePage(pages, x)
    ensures ShownOnce(scroll, x)
  {
    var i: nat :| OnlyOn(pages, x, i);
    assert x in scroll[i].items;
    assert forall j | 0 <= j < |scroll| && j != i :: x !in scroll[j].items;
  }

  lemma NeverScrolled(pages: seq<Page<Item>>, scroll: seq<Response>, x: Item)
    requires Renders(pages, scroll)
    requires x !in Concat(pages)
    ensures forall p | p in scroll :: x !in p.items
  {
    forall p | p in scroll ensures x !in p.items {
      var i :| 0 <= i < |scroll| && scroll[i] == p;
      if x in pages[i].items { InConcat(pages, i, x); }
    }
  }

  /** A cursor item that cannot occur under the other source compares as its data does. */
  lemma LastBelow(last: Option<Item>, dbs: seq<Db>, filter: FilterType, since: Option<int>, x: Item)
    requires dbs != [] && CursorFixed(dbs, last) && x in Listed(dbs[0], filter, since)
    ensures last.Some? ==> (ItemLess(x, last.value) <==> BelowCursor(x.createdAt, x.id, Some(CursorOf(last.value))))
  {
  }

  lemma {:induction false} RenderedOnce(pages: seq<Page<Item>>, scroll: seq<Response>, x: Item)
    requires Renders(pages, scroll) && pages != []
    requires ShownOnceUnlessBelow(ItemLess, pages, x)
    requires LastCursor(pages).Some? ==>
               (ItemLess(x, LastCursor(pages).value) <==>
                   BelowCursor(x.createdAt, x.id, Some(CursorOf(LastCursor(pages).value))))
    ensures ShownOnceUnlessStoppedAbove(scroll, x)
  {
    assert scroll[|scroll| - 1] == Respond(pages[|pages| - 1]);
    if LastCursor(pages).Some? && ItemLess(x, LastCursor(pages).value) {
      NeverScrolled(pages, scroll, x);
    } else {
      OnceScrolled(pages, scroll, x);
    }
  }

  lemma {:induction false} ListedOnce(dbs: seq<Db>, filter: FilterType, limit: nat, since: Option<int>, x: Item)
    requires limit >= 1 && dbs != []
    requires forall i | 0 <= i < |dbs| :: x in Listed(dbs[i], filter, since)
    ensures StrictTotal(ItemLess)
    ensures Follow(ItemLess, Lists(dbs, filter, since), None, limit) != []
    ensures ShownOnceUnlessBelow(ItemLess, Follow(ItemLess, Lists(dbs, filter, since), None, limit), x)
  {
    ItemOrder();
    var views := Lists(dbs, filter, since);
    forall rows | rows in views ensures x in rows {
      var i :| 0 <= i < |views| && views[i] == rows;
      assert x in Listed(dbs[i], filter, since);
    }
    FollowHead(ItemLess, views, None, limit);
    StableKeyOnce(ItemLess, views, None, limit, x);
  }

  lemma {:induction false} LastCursorFixed(dbs: seq<Db>, filter: FilterType, limit: nat, since: Option<int>)
    requires limit >= 1 && dbs != [] && SourcesFixed(dbs)
    ensures StrictTotal(ItemLess)
    ensures Follow(ItemLess, Lists(dbs, filter, since), None, limit) != []
    ensures CursorFixed(dbs, LastCursor(Follow(ItemLess, Lists(dbs, filter, since), None, limit)))
  {
    ItemOrder();
    var pages := Follow(ItemLess, Lists(dbs, filter, since), None, limit);
    var i := LastCursorWasRead(ItemLess, Lists(dbs, filter, since), None, limit, pages);
    ListedFixed(dbs, filter, since, i, LastCursor(pages));
  }

  lemma ListedFixed(dbs: seq<Db>, filter: FilterType, since: Option<int>, i: nat, last: Option<Item>)
    requires SourcesFixed(dbs) && i < |dbs|
    requires last.Some? ==> last.value in Lists(dbs, filter, since)[i]
    ensures CursorFixed(dbs, last)
  {
    if last.Some? {
      assert last.value in Listed(dbs[i], filter, since);
    }
  }

  /**
   A post that stays visible for the whole scroll is shown on exactly one page of a reader who scrolls to the end,
   whatever is published, hidden or removed meanwhile; a reader who stops early misses it exactly when the last cursor
   is above it.
   */
  lemma {:induction false} VisiblePostShownOnce(dbs: seq<Db>, filter: FilterType, limit: nat, since: Option<int>,
      x: Item)
    requires limit >= 1 && dbs != [] && SourcesFixed(dbs)
    requires forall i | 0 <= i < |dbs| :: x in Listed(dbs[i], filter, since)
    ensures Scroll(dbs, filter, limit, None, since) != []
    ensures ShownOnceUnlessStoppedAbove(Scroll(dbs, filter, limit, None, since), x)
  {
    ScrollFollows(dbs, filter, limit, None, since);
    ListedOnce(dbs, filter, limit, since, x);
    LastCursorFixed(dbs, filter, limit, since);
    var pages := Follow(ItemLess, Lists(dbs, filter, since), None, limit);
    LastBelow(LastCursor(pages), dbs, filter, since, x);
    RenderedOnce(pages, Scroll(dbs, filter, limit, None, since), x);
  }

  function Shown(pages: seq<Response>): seq<Item> {
    if pages == [] then [] else pages[0].items + Shown(pages[1..])
  }

  lemma {:induction false} ShownIsConcat(pages: seq<Page<Item>>, scroll: seq<Response>)
    requires Renders(pages, scroll)
    ensures Shown(scroll) == Concat(pages)
  {
    if pages != [] {
      ShownIsConcat(pages[1..], scroll[1..]);
    }
  }

  /** The reader reached a page without a next cursor. */
  predicate ScrolledToEnd(scroll: seq<Response>) {
    scroll != [] && scroll[|scroll| - 1].nextCursor.None?
  }

  /** On a database nobody changes, a completed scroll is the whole feed, newest first, each post once. */
  lemma {:induction false} FrozenScrollIsFeed(db: Db, dbs: seq<Db>, filter: FilterType, limit: nat, since: Option<int>)
    requires limit >= 1 && SourcesFixed(dbs) && forall i | 0 <= i < |dbs| :: dbs[i] == db
    requires ScrolledToEnd(Scroll(dbs, filter, limit, None, since))
    ensures StrictTotal(ItemLess)
    ensures Shown(Scroll(dbs, filter, limit, None, since)) == Desc(ItemLess, Listed(db, filter, since))
  {
    ScrollFollows(dbs, filter, limit, None, since);
    ShownIsConcat(Follow(ItemLess, Lists(dbs, filter, since), None, limit), Scroll(dbs, filter, limit, None, since));
    FrozenLists(db, dbs, filter, since);
    CompleteRenders(Follow(ItemLess, Lists(dbs, filter, since), None, limit), Scroll(dbs, filter, limit, None, since));
    FrozenChainFromStart(ItemLess, Listed(db, filter, since), Lists(dbs, filter, since), limit);
  }

  lemma FrozenLists(db: Db, dbs: seq<Db>, filter: FilterType, since: Option<int>)
    requires forall i | 0 <= i < |dbs| :: dbs[i] == db
    ensures Frozen(Lists(dbs, filter, since), Listed(db, filter, since))
  {
  }

  /** Only posts below the cursor count, however many newer ones are published meanwhile. */
  lemma {:induction false} BoundedScrollEnds(dbs: seq<Db>, filter: FilterType, limit: nat, cursor: Option<Item>,
      since: Option<int>, universe: set<Item>)
    requires limit >= 1 && SourcesFixed(dbs) && CursorFixed(dbs, cursor)
    requires Bounded(ItemLess, Lists(dbs, filter, since), cursor, universe)
    requires |dbs| > |universe|
    ensures ScrolledToEnd(Scroll(dbs, filter, limit, CursorParam(cursor), since))
  {
    ScrollFollows(dbs, filter, limit, cursor, since);
    ListsEnd(ItemLess, Lists(dbs, filter, since), cursor, limit, universe, |dbs|);
    CompleteRenders(Follow(ItemLess, Lists(dbs, filter, since), cursor, limit),
        Scroll(dbs, filter, limit, CursorParam(cursor), since));
  }

  lemma {:induction false} ListsEnd<T(!new)>(lt: (T, T) -> bool, views: seq<set<T>>, cursor: Option<T>, limit: nat,
      universe: set<T>, n: nat)
    requires StrictTotal(lt) && limit >= 1 && Bounded(lt, views, cursor, universe) && |views| == n > |universe|
    ensures Complete(Follow(lt, views, cursor, limit))
  {
    ChainEnds(lt, views, cursor, limit, universe);
  }

  /** Rows of `b` were in `a` with the same time, or are dated later than `t`. */
  predicate OnlyLaterRows(a: Db, b: Db, t: int) {
    && (forall id | id in b.posts ::
          (id in a.posts && a.posts[id].createdAt == b.posts[id].createdAt) || b.posts[id].createdAt > t)
    && (forall id | id in b.communityPosts ::
          (id in a.communityPosts && a.communityPosts[id].createdAt == b.communityPosts[id].createdAt)
          || b.communityPosts[id].createdAt > t)
  }

  /** Every row there is, visible or not. */
  function AllItems(db: Db): set<Item> {
    (set id | id in db.posts :: Item(BLOG, id, db.posts[id].createdAt))
    + (set id | id in db.communityPosts :: Item(COMMUNITY, id, db.communityPosts[id].createdAt))
  }

  /**
   How a database changes while it is read at the given times: rows come with later times than the last read, keep
   their time, and may otherwise be published, hidden, edited or removed at will.
   */
  ghost predicate Evolves(dbs: seq<Db>, times: seq<int>) {
    && |times| == |dbs| > 0
    && (forall x | x in AllItems(dbs[0]) :: x.createdAt <= times[0])
    && (forall i | 0 < i < |dbs| :: times[i - 1] <= times[i] && OnlyLaterRows(dbs[i - 1], dbs[i], times[i - 1]))
  }

  lemma LaterTransitive(a: Db, b: Db, c: Db, t: int, u: int)
    requires OnlyLaterRows(a, b, t) && OnlyLaterRows(b, c, u) && t <= u
    ensures OnlyLaterRows(a, c, t)
  {
  }

  lemma {:induction false} LaterThanFirst(dbs: seq<Db>, times: seq<int>, i: nat)
    requires Evolves(dbs, times) && i < |dbs|
    ensures times[0] <= times[i] && OnlyLaterRows(dbs[0], dbs[i], times[0])
  {
    if i > 0 {
      LaterThanFirst(dbs, times, i - 1);
      LaterTransitive(dbs[0], dbs[i - 1], dbs[i], times[0], times[i - 1]);
    }
  }

  lemma LaterListsBounded(dbs: seq<Db>, times: seq<int>, filter: FilterType, since: Option<int>, cursor: Item)
    requires Evolves(dbs, times) && cursor in Listed(dbs[0], filter, since)
    ensures Bounded(ItemLess, Lists(dbs[1..], filter, since), Some(cursor), AllItems(dbs[0]))
  {
    var views := Lists(dbs[1..], filter, since);
    assert cursor in AllItems(dbs[0]);
    forall rows | rows in views ensures Visible(ItemLess, rows, Some(cursor)) <= AllItems(dbs[0]) {
      var i :| 0 <= i < |views| && views[i] == rows;
      LaterThanFirst(dbs, times, i + 1);
      LaterBelowIsOld(dbs[0], dbs[i + 1], times[0], filter, since, cursor);
    }
  }

  lemma LaterBelowIsOld(a: Db, b: Db, t: int, filter: FilterType, since: Option<int>, cursor: Item)
    requires OnlyLaterRows(a, b, t) && cursor.createdAt <= t
    ensures Visible(ItemLess, Listed(b, filter, since), Some(cursor)) <= AllItems(a)
  {
    forall x | x in Visible(ItemLess, Listed(b, filter, since), Some(cursor)) ensures x in AllItems(a) {
      assert x in Listed(b, filter, since) && x.createdAt <= t;
      if x.source == BLOG {
        assert x.id in b.posts && b.posts[x.id].createdAt == x.createdAt;
      } else {
        assert x.id in b.communityPosts && b.communityPosts[x.id].createdAt == x.createdAt;
      }
    }
  }

  /**
   A reader who keeps scrolling reaches the end: over every evolution of the database, after at most one request more
   than there were posts at the first one.
   */
  lemma {:induction false} ScrollEnds(dbs: seq<Db>, times: seq<int>, filter: FilterType, limit: nat,
      since: Option<int>)
    requires limit >= 1 && SourcesFixed(dbs) && Evolves(dbs, times) && |dbs| > 1 + |AllItems(dbs[0])|
    ensures ScrolledToEnd(Scroll(dbs, filter, limit, None, since))
  {
    var page, _ := ScrollStep(dbs, filter, limit, None, since);
    if page.next.Some? {
      assert page.next.value in Listed(dbs[0], filter, since);
      LaterListsBounded(dbs, times, filter, since, page.next.value);
      BoundedScrollEnds(dbs[1..], filter, limit, page.next, since, AllItems(dbs[0]));
      LastOfTail(Respond(page), Scroll(dbs[1..], filter, limit, CursorParam(page.next), since));
    }
  }

  lemma LastOfTail(page: Response, rest: seq<Response>)
    requires ScrolledToEnd(rest)
    ensures ScrolledToEnd([page] + rest)
  {
  }

  lemma CompleteRenders(pages: seq<Page<Item>>, scroll: seq<Response>)
    requires Renders(pages, scroll)
    ensures Complete(pages) <==> ScrolledToEnd(scroll)
  {
    if pages != [] { assert scroll[|scroll| - 1] == Respond(pages[|pages| - 1]); }
  }

  // ---- Ranked first page ----

  datatype RankedEntry = RankedEntry(source: Source, id: int)

  predicate EntryVisible(db: Db, e: RankedEntry) {
    match e.source
    case BLOG => BlogVisible(db, e.id)
    case COMMUNITY => CommunityVisible(db, e.id)
  }

  function ItemFor(db: Db, e: RankedEntry): Item
    requires EntryVisible(db, e)
  {
    Item(e.source, e.id, if e.source == BLOG then db.posts[e.id].createdAt else db.communityPosts[e.id].createdAt)
  }

  /** The rows of ranked ids that are still visible, in any order. */
  function FetchByIds(db: Db, ids: set<RankedEntry>): set<Item> {
    set e | e in ids && EntryVisible(db, e) :: ItemFor(db, e)
  }

  function EntriesOf(items: seq<Item>): (entries: seq<RankedEntry>)
    ensures |entries| == |items| && forall i | 0 <= i < |items| ::
        entries[i] == RankedEntry(items[i].source, items[i].id)
  {
    if items == [] then [] else [RankedEntry(items[0].source, items[0].id)] + EntriesOf(items[1..])
  }

  lemma {:induction false} WhereAppend<T(!new)>(a: seq<T>, b: seq<T>, p: T -> bool)
    ensures Where(a + b, p) == Where(a, p) + Where(b, p)
  {
    if a == [] {
      assert a + b == b;
    } else {
      assert (a + b)[1..] == a[1..] + b;
      WhereAppend(a[1..], b, p);
    }
  }

  function StillVisible(db: Db): RankedEntry -> bool {
    e => EntryVisible(db, e)
  }

  /** The items of the visible entries, in ranking order. */
  ghost predicate InOrder(db: Db, ranking: seq<RankedEntry>, ordered: seq<Item>) {
    && EntriesOf(ordered) == Where(ranking, StillVisible(db))
    && forall x | x in ordered :: EntryVisible(db, RankedEntry(x.source, x.id))
        && x == ItemFor(db, RankedEntry(x.source, x.id))
  }

  lemma InOrderAppend(db: Db, ranking: seq<RankedEntry>, e: RankedEntry, ordered: seq<Item>)
    requires InOrder(db, ranking, ordered)
    ensures InOrder(db, ranking + [e], if EntryVisible(db, e) then ordered + [ItemFor(db, e)] else ordered)
  {
    WhereAppend(ranking, [e], StillVisible(db));
    if EntryVisible(db, e) {
      EntriesAppend(ordered, ItemFor(db, e));
    }
  }

  lemma {:induction false} EntriesAppend(items: seq<Item>, x: Item)
    ensures EntriesOf(items + [x]) == EntriesOf(items) + [RankedEntry(x.source, x.id)]
  {
  }

  /** The fetched rows by entry: exactly the visible ranked entries, each with its own item. */
  function RowMap(db: Db, ids: set<RankedEntry>): (rowMap: map<RankedEntry, Item>)
    ensures forall e :: e in rowMap <==> e in ids && EntryVisible(db, e)
    ensures forall e | e in rowMap :: rowMap[e] == ItemFor(db, e)
  {
    map e | e in ids && EntryVisible(db, e) :: ItemFor(db, e)
  }

  /** Filling a map from the fetched rows, one by one, gives that map. */
  lemma RowMapFromRows(db: Db, ids: set<RankedEntry>, rowMap: map<RankedEntry, Item>)
    requires forall e :: e in rowMap <==> exists x | x in FetchByIds(db, ids) :: RankedEntry(x.source, x.id) == e
    requires forall x | x in FetchByIds(db, ids) :: rowMap[RankedEntry(x.source, x.id)] == x
    ensures rowMap == RowMap(db, ids)
  {
    forall e ensures e in rowMap <==> e in RowMap(db, ids) {
      if e in RowMap(db, ids) {
        var x := ItemFor(db, e);
        assert x in FetchByIds(db, ids) && RankedEntry(x.source, x.id) == e;
      }
    }
    forall e | e in rowMap ensures rowMap[e] == ItemFor(db, e) {
      assert ItemFor(db, e) in FetchByIds(db, ids);
    }
  }

  /** Ranked ids are looked up in one go and put back into ranking order; ids whose post is gone are skipped. */
  method GetRankedFeedItems(db: Db, ranking: seq<RankedEntry>) returns (ordered: seq<Item>)
    ensures InOrder(db, ranking, ordered)
  {
    var ids := set e | e in ranking;
    var rows := FetchByIds(db, ids);
    var rowMap: map<RankedEntry, Item> := map x | x in rows :: RankedEntry(x.source, x.id) := x;
    RowMapFromRows(db, ids, rowMap);
    ordered := [];
    for i := 0 to |ranking|
      invariant InOrder(db, ranking[..i], ordered)
    {
      var e := ranking[i];
      InOrderAppend(db, ranking[..i], e, ordered);
      assert ranking[..i + 1] == ranking[..i] + [e];
      if e in rowMap {
        ordered := ordered + [rowMap[e]];
      }
    }
    assert ranking[..|ranking|] == ranking;
  }
}
