/**
 What a feed page holds, said of the rows of the two post tables alone: which posts are on it, in which order, and where
 its cursor points.
 */
module FeedContents {
  import opened Wrappers
  import opened Keyset
  import opened Chain
  import opened FeedKinds
  import opened Feed

  /** A post anybody may see. */
  predicate LivePost(db: Db, source: Source, id: int) {
    match source
    case BLOG =>
      id in db.posts && db.posts[id].isPublished == true && db.posts[id].isDeleted == false
          && db.posts[id].status == PUBLISHED
    case COMMUNITY =>
      && id in db.communityPosts && db.communityPosts[id].isDeleted == false
      && db.communityPosts[id].status == PUBLISHED
      && var c := db.communityPosts[id].communityId;
         c in db.communities && db.communities[c].isPublic == true && db.communities[c].isPostDiscoverable == true
             && db.communities[c].joinPolicy != PRIVATE && db.communities[c].isDeleted == false
  }

  function TimeOf(db: Db, source: Source, id: int): int
    requires LivePost(db, source, id)
  {
    if source == BLOG then db.posts[id].createdAt else db.communityPosts[id].createdAt
  }

  /** Which tables a filter reads. */
  predicate Wanted(filter: FilterType, source: Source) {
    filter == ALL || (filter == BLOG_ONLY && source == BLOG) || (filter == COMMUNITY_ONLY && source == COMMUNITY)
  }

  /** The item stands for a post of a table the filter reads, in the period and below the cursor. */
  predicate Asked(db: Db, filter: FilterType, cursor: Option<CursorData>, since: Option<int>, x: Item) {
    && Wanted(filter, x.source) && LivePost(db, x.source, x.id) && TimeOf(db, x.source, x.id) == x.createdAt
    && (since == None || x.createdAt >= since.value)
    && (cursor == None || x.createdAt < cursor.value.createdAt
        || (x.createdAt == cursor.value.createdAt && x.id < cursor.value.id))
  }

  /** Newer first, then the larger id; ids are unique over both tables, so the source never decides. */
  predicate Sooner(x: Item, y: Item) {
    || x.createdAt > y.createdAt
    || (x.createdAt == y.createdAt && (x.id > y.id || (x.id == y.id && x.source == COMMUNITY && y.source == BLOG)))
  }

  function AllAsked(db: Db, filter: FilterType, cursor: Option<CursorData>, since: Option<int>): (asked: set<Item>)
    ensures forall x :: x in asked <==> Asked(db, filter, cursor, since, x)
  {
    set x | x in AllItems(db) && Asked(db, filter, cursor, since, x)
  }

  function AskedBefore(db: Db, filter: FilterType, cursor: Option<CursorData>, since: Option<int>, x: Item): set<Item> {
    set y | y in AllAsked(db, filter, cursor, since) && Sooner(y, x)
  }

  lemma UnionIsAsked(db: Db, filter: FilterType, cursor: Option<CursorData>, since: Option<int>)
    ensures UnionRows(db, filter, cursor, since) == AllAsked(db, filter, cursor, since)
  {
    forall x ensures x in UnionRows(db, filter, cursor, since) <==> Asked(db, filter, cursor, since, x) {
      assert x in BlogRows(db, cursor, since) <==> x.source == BLOG && Asked(db, ALL, cursor, since, x);
      assert x in CommunityRows(db, cursor, since) <==> x.source == COMMUNITY && Asked(db, ALL, cursor, since, x);
    }
  }

  /** Of the posts asked for, those that fewer than `limit` others come before are shown, in order. */
  ghost predicate ShowsFirst(db: Db, filter: FilterType, limit: nat, cursor: Option<CursorData>, since: Option<int>,
      items: seq<Item>)
  {
    && (forall x :: x in items <==>
          x in AllAsked(db, filter, cursor, since) && |AskedBefore(db, filter, cursor, since, x)| < limit)
    && forall i, j | 0 <= i < j < |items| :: Sooner(items[i], items[j])
  }

  /** With so many posts asked for: how many are shown, whether there are more, and where the cursor points. */
  predicate EndsRight(asked: nat, limit: nat, r: Response) {
    && r.count == |r.items| == (if asked < limit then asked else limit)
    && (r.hasMore <==> asked > limit)
    && (r.nextCursor.Some? <==> asked > limit >= 1)
    && (r.nextCursor.Some? ==>
          var last := r.items[|r.items| - 1]; r.nextCursor.value == CursorData(last.createdAt, last.id))
  }

  /** The whole answer to a request for a page of the recent feed. */
  ghost predicate Answers(db: Db, filter: FilterType, limit: nat, cursor: Option<CursorData>, since: Option<int>,
      r: Response)
  {
    && ShowsFirst(db, filter, limit, cursor, since, r.items)
    && EndsRight(|AllAsked(db, filter, cursor, since)|, limit, r)
  }

  lemma PageShape(db: Db, filter: FilterType, limit: nat, cursor: Option<CursorData>, since: Option<int>)
    ensures StrictTotal(ItemLess)
    ensures var r, all := FeedPage(db, filter, limit, cursor, since),
                Desc(ItemLess, AllAsked(db, filter, cursor, since));
            && r.items == Take(all, limit) && r.count == |r.items| && (r.hasMore <==> |all| > limit)
            && r.nextCursor == if |all| > limit >= 1 then Some(CursorOf(all[limit - 1])) else None
  {
    ItemOrder();
    UnionIsAsked(db, filter, cursor, since);
    PageIsTop(Desc(ItemLess, UnionRows(db, filter, cursor, since)), limit);
  }

  lemma BeforeIsAbove(db: Db, filter: FilterType, cursor: Option<CursorData>, since: Option<int>, x: Item)
    ensures AskedBefore(db, filter, cursor, since, x) == Above(ItemLess, AllAsked(db, filter, cursor, since), x)
  {
  }

  lemma FirstShown(db: Db, filter: FilterType, limit: nat, cursor: Option<CursorData>, since: Option<int>)
    ensures StrictTotal(ItemLess)
    ensures ShowsFirst(db, filter, limit, cursor, since,
                Take(Desc(ItemLess, AllAsked(db, filter, cursor, since)), limit))
  {
    ItemOrder();
    var asked := AllAsked(db, filter, cursor, since);
    var items := Take(Desc(ItemLess, asked), limit);
    forall x ensures x in items <==> x in asked && |AskedBefore(db, filter, cursor, since, x)| < limit {
      TakeIff(ItemLess, asked, x, limit);
      BeforeIsAbove(db, filter, cursor, since, x);
    }
    forall i, j | 0 <= i < j < |items| ensures Sooner(items[i], items[j]) {
      assert ItemLess(items[j], items[i]);
    }
  }

  /**
   A feed page answers its request: exactly the posts asked for that fewer than `limit` others come before, in order,
   and a cursor at the last exactly when there are more.
   */
  lemma {:induction false} PageAnswers(db: Db, filter: FilterType, limit: nat, cursor: Option<CursorData>,
      since: Option<int>)
    ensures Answers(db, filter, limit, cursor, since, FeedPage(db, filter, limit, cursor, since))
  {
    PageShape(db, filter, limit, cursor, since);
    FirstShown(db, filter, limit, cursor, since);
  }

  /** A completed scroll of a database nobody changes shows a post exactly when it was asked for. */
  lemma {:induction false} ScrollShows(db: Db, dbs: seq<Db>, filter: FilterType, limit: nat, since: Option<int>,
      x: Item)
    requires limit >= 1 && SourcesFixed(dbs) && forall i | 0 <= i < |dbs| :: dbs[i] == db
    requires ScrolledToEnd(Scroll(dbs, filter, limit, None, since))
    ensures x in Shown(Scroll(dbs, filter, limit, None, since)) <==> Asked(db, filter, None, since, x)
  {
    FrozenScrollIsFeed(db, dbs, filter, limit, since);
    UnionIsAsked(db, filter, None, since);
  }

  function IsLive(db: Db): RankedEntry -> bool {
    (e: RankedEntry) => LivePost(db, e.source, e.id)
  }

  lemma {:induction false} SameWhere(db: Db, ranking: seq<RankedEntry>)
    ensures Where(ranking, StillVisible(db)) == Where(ranking, IsLive(db))
  {
    if ranking != [] {
      SameWhere(db, ranking[1..]);
    }
  }

  /** The ranked first page holds, in ranking order, exactly the posts anybody may see, each with its own time. */
  lemma {:induction false} RankedAnswers(db: Db, ranking: seq<RankedEntry>, ordered: seq<Item>)
    requires InOrder(db, ranking, ordered)
    ensures EntriesOf(ordered) == Where(ranking, IsLive(db))
    ensures forall x | x in ordered :: LivePost(db, x.source, x.id) && TimeOf(db, x.source, x.id) == x.createdAt
  {
    SameWhere(db, ranking);
    forall x | x in ordered ensures LivePost(db, x.source, x.id) && TimeOf(db, x.source, x.id) == x.createdAt {
      assert EntryVisible(db, RankedEntry(x.source, x.id)) && x == ItemFor(db, RankedEntry(x.source, x.id));
    }
  }
}
