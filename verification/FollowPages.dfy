/**
 Follower and following lists, read in pages while follows come and go.  The cursor is the creation time and the id of
 the last row shown.
 */
module FollowPages {
  import opened Wrappers
  import opened Keyset
  import opened Chain
  import opened Follows

  /** `FOLLOWERS` lists who follows the user, `FOLLOWING` whom the user follows. */
  datatype Side = FOLLOWERS | FOLLOWING

  datatype CursorData = CursorData(createdAt: int, id: int)

  datatype FollowPage = FollowPage(rows: seq<FollowRow>, hasNext: bool, nextCursor: Option<CursorData>)

  /** Newest follow first, then by row id; ids are unique, so the pair never decides. */
  predicate FollowLess(a: FollowRow, b: FollowRow) {
    || a.createdAt < b.createdAt
    || (a.createdAt == b.createdAt && a.id < b.id)
    || (a.createdAt == b.createdAt && a.id == b.id && a.followerId < b.followerId)
    || (a.createdAt == b.createdAt && a.id == b.id && a.followerId == b.followerId && a.followingId < b.followingId)
  }

  lemma FollowOrder()
    ensures StrictTotal(FollowLess)
  {
  }

  predicate BelowFollow(row: FollowRow, cursor: Option<CursorData>) {
    cursor.Some? ==>
      row.createdAt < cursor.value.createdAt || (row.createdAt == cursor.value.createdAt && row.id < cursor.value.id)
  }

  function ListRows(s: State, u: int, side: Side): set<FollowRow> {
    set id | id in s.follows && (if side == FOLLOWERS then s.follows[id].followingId else s.follows[id].followerId) == u
      :: s.follows[id]
  }

  function QueryRows(s: State, u: int, side: Side, cursor: Option<CursorData>): set<FollowRow> {
    set row | row in ListRows(s, u, side) && BelowFollow(row, cursor)
  }

  function CursorOf(row: FollowRow): CursorData {
    CursorData(row.createdAt, row.id)
  }

  function Answer(page: Page<FollowRow>): FollowPage {
    FollowPage(page.items, page.hasNext, if page.next.Some? then Some(CursorOf(page.next.value)) else None)
  }

  /** `getFollowersCursor` and `getFollowingCursor`. */
  function GetPage(s: State, u: int, side: Side, limit: nat, cursor: Option<CursorData>): FollowPage {
    FollowOrder();
    Answer(PageFrom(Take(Desc(FollowLess, QueryRows(s, u, side, cursor)), limit + 1), limit))
  }

  /** The pages a reader gets by passing cursors on, one state per request. */
  function Browse(states: seq<State>, u: int, side: Side, limit: nat, cursor: Option<CursorData>): seq<FollowPage> {
    if states == [] then []
    else
      var page := GetPage(states[0], u, side, limit, cursor);
      [page] + if page.nextCursor.Some? then Browse(states[1..], u, side, limit, page.nextCursor) else []
  }

  function Lists(states: seq<State>, u: int, side: Side): (views: seq<set<FollowRow>>)
    ensures |views| == |states| && forall i | 0 <= i < |states| :: views[i] == ListRows(states[i], u, side)
  {
    if states == [] then [] else [ListRows(states[0], u, side)] + Lists(states[1..], u, side)
  }

  // ---- The textual clause is the order ----

  /** Wherever the id of the cursor's row occurs, it is that row. */
  ghost predicate CursorFixed(states: seq<State>, cursor: Option<FollowRow>) {
    cursor.Some? ==> forall i, id | 0 <= i < |states| && id in states[i].follows ::
      states[i].follows[id].id == cursor.value.id ==> states[i].follows[id] == cursor.value
  }

  /** Row ids are never reused: an id stands for one follow throughout. */
  ghost predicate IdsFixed(states: seq<State>) {
    forall i, id | 0 <= i < |states| && id in states[i].follows :: CursorFixed(states, Some(states[i].follows[id]))
  }

  function CursorParam(cursor: Option<FollowRow>): Option<CursorData> {
    if cursor.Some? then Some(CursorOf(cursor.value)) else None
  }

  lemma ClauseIsBelow(states: seq<State>, u: int, side: Side, cursor: Option<FollowRow>)
    requires states != [] && CursorFixed(states, cursor)
    ensures QueryRows(states[0], u, side, CursorParam(cursor)) ==
        Visible(FollowLess, ListRows(states[0], u, side), cursor)
  {
    var a, b := QueryRows(states[0], u, side, CursorParam(cursor)),
        Visible(FollowLess, ListRows(states[0], u, side), cursor);
    forall x ensures x in a <==> x in b {
      if x in ListRows(states[0], u, side) && cursor.Some? {
        assert x.id == cursor.value.id ==> x == cursor.value;
      }
    }
  }

  lemma PageHead(states: seq<State>, u: int, side: Side, limit: nat, cursor: Option<FollowRow>, page: Page<FollowRow>)
    requires states != [] && CursorFixed(states, cursor) && StrictTotal(FollowLess)
    requires page == PageOf(FollowLess, ListRows(states[0], u, side), cursor, limit)
    ensures GetPage(states[0], u, side, limit, CursorParam(cursor)) == Answer(page)
  {
    ClauseIsBelow(states, u, side, cursor);
  }

  /** A page holds exactly the rows of the list from its cursor down to its next cursor, newest first. */
  lemma {:induction false} PageIsWindow(states: seq<State>, u: int, side: Side, limit: nat, cursor: Option<FollowRow>)
    returns (page: Page<FollowRow>)
    requires states != [] && limit >= 1 && CursorFixed(states, cursor)
    ensures StrictTotal(FollowLess)
    ensures IsWindow(FollowLess, ListRows(states[0], u, side), cursor, limit, page)
    ensures GetPage(states[0], u, side, limit, CursorParam(cursor)) == Answer(page)
  {
    FollowOrder();
    page := PageOf(FollowLess, ListRows(states[0], u, side), cursor, limit);
    PageWindow(FollowLess, ListRows(states[0], u, side), cursor, limit);
    PageHead(states, u, side, limit, cursor, page);
  }

  lemma NextFixed(states: seq<State>, u: int, side: Side, row: FollowRow)
    requires states != [] && IdsFixed(states) && row in ListRows(states[0], u, side)
    ensures CursorFixed(states[1..], Some(row)) && IdsFixed(states[1..])
  {
    assert CursorFixed(states, Some(row));
    forall i, id | 0 <= i < |states[1..]| && id in states[1..][i].follows
      ensures CursorFixed(states[1..], Some(states[1..][i].follows[id]))
    {
      assert states[1..][i] == states[i + 1];
      assert CursorFixed(states, Some(states[i + 1].follows[id]));
    }
  }

  // ---- Paging while follows come and go ----

  ghost predicate Answers(pages: seq<FollowPage>, keys: seq<Page<FollowRow>>) {
    |pages| == |keys| && forall i | 0 <= i < |pages| :: pages[i] == Answer(keys[i])
  }

  lemma AnswersCons(page: Page<FollowRow>, pages: seq<FollowPage>, keys: seq<Page<FollowRow>>)
    requires Answers(pages, keys)
    ensures Answers([Answer(page)] + pages, [page] + keys)
  {
  }

  lemma {:induction false} BrowseFollows(states: seq<State>, u: int, side: Side, limit: nat, cursor: Option<FollowRow>,
      views: seq<set<FollowRow>>, keys: seq<Page<FollowRow>>)
    requires limit >= 1 && IdsFixed(states) && CursorFixed(states, cursor) && StrictTotal(FollowLess)
    requires views == Lists(states, u, side) && keys == Chain.Follow(FollowLess, views, cursor, limit)
    ensures Answers(Browse(states, u, side, limit, CursorParam(cursor)), keys)
    decreases |states|
  {
    if states != [] {
      var page, rest := Chain.FollowCursor(FollowLess, views, cursor, limit);
      FollowHead(FollowLess, views, cursor, limit);
      PageHead(states, u, side, limit, cursor, page);
      if page.next.Some? {
        NextFixed(states, u, side, page.next.value);
        assert views[1..] == Lists(states[1..], u, side);
        BrowseFollows(states[1..], u, side, limit, page.next, views[1..], rest);
        AnswersCons(page, Browse(states[1..], u, side, limit, CursorParam(page.next)), rest);
      }
    }
  }

  ghost predicate ShownOnce(pages: seq<FollowPage>, row: FollowRow) {
    exists i: nat :: i < |pages| && row in pages[i].rows
        && forall j | 0 <= j < |pages| && j != i :: row !in pages[j].rows
  }

  /** On exactly one page, or on none when the reader stopped while the last cursor was still above the row. */
  ghost predicate ShownOnceUnlessStoppedAbove(pages: seq<FollowPage>, row: FollowRow)
    requires pages != []
  {
    var last := pages[|pages| - 1].nextCursor;
    if last.Some? && BelowFollow(row, last) then forall p | p in pages :: row !in p.rows else ShownOnce(pages, row)
  }

  lemma AnsweredOnce(pages: seq<FollowPage>, keys: seq<Page<FollowRow>>, row: FollowRow)
    requires Answers(pages, keys) && keys != [] && ShownOnceUnlessBelow(FollowLess, keys, row)
    requires LastCursor(keys).Some? && LastCursor(keys).value.id == row.id ==> LastCursor(keys).value == row
    ensures ShownOnceUnlessStoppedAbove(pages, row)
  {
    var last := |pages| - 1;
    assert pages[last] == Answer(keys[last]);
    if LastCursor(keys).Some? && FollowLess(row, LastCursor(keys).value) {
      forall p | p in pages ensures row !in p.rows {
        var i :| 0 <= i < |pages| && pages[i] == p;
        if row in keys[i].items { InConcat(keys, i, row); }
      }
    } else {
      var i: nat :| OnlyOn(keys, row, i);
      assert row in pages[i].rows && forall j | 0 <= j < |pages| && j != i :: row !in pages[j].rows;
    }
  }

  lemma InViews(states: seq<State>, u: int, side: Side, views: seq<set<FollowRow>>, row: FollowRow)
    requires views == Lists(states, u, side) && forall i | 0 <= i < |states| :: row in ListRows(states[i], u, side)
    ensures forall rows | rows in views :: row in rows
  {
    forall rows | rows in views ensures row in rows {
      var i :| 0 <= i < |views| && views[i] == rows;
      assert row in ListRows(states[i], u, side);
    }
  }

  lemma RowFixed(states: seq<State>, u: int, side: Side, row: FollowRow, i: nat, last: Option<FollowRow>)
    requires IdsFixed(states) && states != [] && row in ListRows(states[0], u, side)
    requires i < |states| && (last.Some? ==> last.value in ListRows(states[i], u, side))
    ensures last.Some? && last.value.id == row.id ==> last.value == row
  {
    assert CursorFixed(states, Some(row));
  }

  /**
   A reader of a follower or following list meets a follow that stays on exactly one page, whoever joins or leaves
   between the pages; a reader who stops early misses it exactly when the last cursor is still above it.
   */
  lemma {:induction false} StayingFollowShownOnce(states: seq<State>, u: int, side: Side, limit: nat, row: FollowRow)
    requires limit >= 1 && states != [] && IdsFixed(states)
    requires forall i | 0 <= i < |states| :: row in ListRows(states[i], u, side)
    ensures Browse(states, u, side, limit, None) != []
    ensures ShownOnceUnlessStoppedAbove(Browse(states, u, side, limit, None), row)
  {
    FollowOrder();
    var views := Lists(states, u, side);
    var keys := Chain.Follow(FollowLess, views, None, limit);
    BrowseFollows(states, u, side, limit, None, views, keys);
    FollowHead(FollowLess, views, None, limit);
    InViews(states, u, side, views, row);
    StableKeyOnce(FollowLess, views, None, limit, row);
    var i := LastCursorWasRead(FollowLess, views, None, limit, keys);
    RowFixed(states, u, side, row, i, LastCursor(keys));
    AnsweredOnce(Browse(states, u, side, limit, None), keys, row);
  }

  // ---- What a page holds ----

  function AllRows(s: State): set<FollowRow> {
    set id | id in s.follows :: s.follows[id]
  }

  /** The row is in the list: followers are those whose follow ends at the user, following those it starts from. */
  predicate Asked(s: State, u: int, side: Side, cursor: Option<CursorData>, row: FollowRow) {
    && row in AllRows(s)
    && (if side == FOLLOWERS then row.followingId == u else row.followerId == u)
    && (cursor == None || row.createdAt < cursor.value.createdAt
        || (row.createdAt == cursor.value.createdAt && row.id < cursor.value.id))
  }

  function AllAsked(s: State, u: int, side: Side, cursor: Option<CursorData>): set<FollowRow> {
    set row | row in AllRows(s) && Asked(s, u, side, cursor, row)
  }

  /** Newer first, then the larger id; ids are unique, so nothing further decides. */
  predicate Sooner(a: FollowRow, b: FollowRow) {
    a.createdAt > b.createdAt || (a.createdAt == b.createdAt && a.id > b.id)
  }

  ghost predicate IdsUnique(s: State) {
    forall i, j | i in s.follows && j in s.follows && s.follows[i].id == s.follows[j].id :: s.follows[i] == s.follows[j]
  }

  lemma QueryIsAsked(s: State, u: int, side: Side, cursor: Option<CursorData>)
    ensures QueryRows(s, u, side, cursor) == AllAsked(s, u, side, cursor)
  {
  }

  /** The whole answer to a request for a page of either list. */
  ghost predicate AnswersRequest(s: State, u: int, side: Side, limit: nat, cursor: Option<CursorData>,
      page: FollowPage)
  {
    var asked := AllAsked(s, u, side, cursor);
    && (forall row :: row in page.rows <==> row in asked && |set r | r in asked && Sooner(r, row)| < limit)
    && (forall i, j | 0 <= i < j < |page.rows| :: Sooner(page.rows[i], page.rows[j]))
    && |page.rows| == (if |asked| < limit then |asked| else limit)
    && (page.hasNext <==> |asked| > limit)
    && (page.nextCursor.Some? <==> |asked| > limit >= 1)
    && (page.nextCursor.Some? ==>
          var last := page.rows[|page.rows| - 1]; page.nextCursor.value == CursorData(last.createdAt, last.id))
  }

  lemma SoonerIsAbove(s: State, asked: set<FollowRow>, row: FollowRow)
    requires IdsUnique(s) && asked <= AllRows(s) && row in asked
    ensures (set r | r in asked && Sooner(r, row)) == Above(FollowLess, asked, row)
  {
    forall r | r in asked ensures Sooner(r, row) <==> FollowLess(row, r) {
      TwoRows(s, r, row);
    }
  }

  lemma TwoRows(s: State, a: FollowRow, b: FollowRow)
    requires IdsUnique(s) && a in AllRows(s) && b in AllRows(s)
    ensures a.id == b.id ==> a == b
  {
    var i :| i in s.follows && s.follows[i] == a;
    var j :| j in s.follows && s.follows[j] == b;
  }

  lemma PageShape(s: State, u: int, side: Side, limit: nat, cursor: Option<CursorData>)
    ensures StrictTotal(FollowLess)
    ensures var page, all := GetPage(s, u, side, limit, cursor), Desc(FollowLess, AllAsked(s, u, side, cursor));
            && page.rows == Take(all, limit) && (page.hasNext <==> |all| > limit)
            && page.nextCursor == if |all| > limit >= 1 then Some(CursorOf(all[limit - 1])) else None
  {
    FollowOrder();
    QueryIsAsked(s, u, side, cursor);
    PageIsTop(Desc(FollowLess, AllAsked(s, u, side, cursor)), limit);
  }

  lemma OnPageIff(s: State, u: int, side: Side, limit: nat, cursor: Option<CursorData>, row: FollowRow)
    requires IdsUnique(s) && StrictTotal(FollowLess)
    ensures var asked := AllAsked(s, u, side, cursor);
            row in Take(Desc(FollowLess, asked), limit) <==>
                row in asked && |set r | r in asked && Sooner(r, row)| < limit
  {
    TakeIff(FollowLess, AllAsked(s, u, side, cursor), row, limit);
    if row in AllAsked(s, u, side, cursor) { SoonerIsAbove(s, AllAsked(s, u, side, cursor), row); }
  }

  lemma RowsFall(s: State, asked: set<FollowRow>, i: nat, j: nat)
    requires IdsUnique(s) && StrictTotal(FollowLess) && asked <= AllRows(s) && i < j < |Desc(FollowLess, asked)|
    ensures Sooner(Desc(FollowLess, asked)[i], Desc(FollowLess, asked)[j])
  {
    var a, b := Desc(FollowLess, asked)[i], Desc(FollowLess, asked)[j];
    assert a in Desc(FollowLess, asked) && b in Desc(FollowLess, asked) && FollowLess(b, a);
    TwoRows(s, a, b);
  }

  lemma RowsAnswer(s: State, u: int, side: Side, limit: nat, cursor: Option<CursorData>, rows: seq<FollowRow>)
    requires IdsUnique(s) && StrictTotal(FollowLess)
    requires rows == Take(Desc(FollowLess, AllAsked(s, u, side, cursor)), limit)
    ensures var asked := AllAsked(s, u, side, cursor);
            && (forall row :: row in rows <==> row in asked && |set r | r in asked && Sooner(r, row)| < limit)
            && (forall i, j | 0 <= i < j < |rows| :: Sooner(rows[i], rows[j]))
            && |rows| == (if |asked| < limit then |asked| else limit)
  {
    var asked := AllAsked(s, u, side, cursor);
    forall row ensures row in rows <==> row in asked && |set r | r in asked && Sooner(r, row)| < limit {
      OnPageIff(s, u, side, limit, cursor, row);
    }
    forall i, j | 0 <= i < j < |rows| ensures Sooner(rows[i], rows[j]) {
      RowsFall(s, asked, i, j);
    }
  }

  /** A page holds exactly the rows asked for that fewer than `limit` others come before, in order. */
  lemma {:induction false} PageAnswers(s: State, u: int, side: Side, limit: nat, cursor: Option<CursorData>)
    requires IdsUnique(s)
    ensures AnswersRequest(s, u, side, limit, cursor, GetPage(s, u, side, limit, cursor))
  {
    PageShape(s, u, side, limit, cursor);
    RowsAnswer(s, u, side, limit, cursor, GetPage(s, u, side, limit, cursor).rows);
  }
}
