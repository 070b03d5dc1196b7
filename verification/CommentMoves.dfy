/**
 What a client that pages through the comments sees of one comment that moves.  Likes change the sort key of a comment
 while it stays listed; between two reads it may overtake the cursor, and then its next page has already gone by, or
 fall below it, and then it is still to come.  Counting these crossings says exactly how often the comment is shown.
 */
module CommentMoves {
  import opened Wrappers
  import opened CommentTable
  import opened Keyset
  import opened Chain
  import opened CommentPages

  /** What a request asks for besides its cursor; every request of a walk may ask for another limit and snapshot. */
  datatype Ask = Ask(limit: nat, snapshot: Option<int>)

  /** The pages a client gets by passing cursors on, one table per request. */
  function BrowseEach(tables: seq<Table>, postId: int, sort: Sort, cursor: CursorParam, asks: seq<Ask>): seq<ParentPage>
    requires |asks| == |tables|
  {
    if tables == [] then []
    else
      var page := ParentPageOf(tables[0], postId, sort, cursor, asks[0].limit, asks[0].snapshot);
      [page] + if page.nextCursor.Some?
               then BrowseEach(tables[1..], postId, sort, Cursor(page.nextCursor.value), asks[1..]) else []
  }

  predicate AsksOk(tables: seq<Table>, asks: seq<Ask>) {
    |asks| == |tables| && forall i | 0 <= i < |asks| :: asks[i].limit >= 1
  }

  function One(b: bool): nat {
    if b then 1 else 0
  }

  /** The comment lies after the cursor; without a cursor everything does. */
  predicate After(sort: Sort, cursor: Option<CursorData>, id: Id, c: Comment) {
    cursor.Some? ==> AfterCursor(sort, cursor.value, id, c)
  }

  /** After the cursor at one read and no longer at the next. */
  predicate Overtakes(sort: Sort, cursor: Option<CursorData>, id: Id, before: Comment, later: Comment) {
    cursor.Some? && AfterCursor(sort, cursor.value, id, before) && !AfterCursor(sort, cursor.value, id, later)
  }

  /** Not after the cursor at one read, but at the next. */
  predicate Falls(sort: Sort, cursor: Option<CursorData>, id: Id, before: Comment, later: Comment) {
    cursor.Some? && !AfterCursor(sort, cursor.value, id, before) && AfterCursor(sort, cursor.value, id, later)
  }

  /** How many pages show the comment. */
  function Shows(pages: seq<ParentPage>, id: Id): nat {
    if pages == [] then 0 else One(OnPage(pages[0], id)) + Shows(pages[1..], id)
  }

  /** The comment is in the table at every read of the walk. */
  predicate Present(tables: seq<Table>, pages: seq<ParentPage>, id: Id) {
    |pages| <= |tables| && forall i | 0 <= i < |pages| :: id in tables[i]
  }

  /** How often it overtook the cursor between the read that returned it and the read that used it. */
  function Overtaken(tables: seq<Table>, pages: seq<ParentPage>, sort: Sort, id: Id): nat
    requires Present(tables, pages, id)
    decreases |pages|
  {
    if |pages| < 2 then 0
    else
      One(Overtakes(sort, pages[0].nextCursor, id, tables[0][id], tables[1][id]))
      + Overtaken(tables[1..], pages[1..], sort, id)
  }

  function Fallen(tables: seq<Table>, pages: seq<ParentPage>, sort: Sort, id: Id): nat
    requires Present(tables, pages, id)
    decreases |pages|
  {
    if |pages| < 2 then 0
    else
      One(Falls(sort, pages[0].nextCursor, id, tables[0][id], tables[1][id]))
      + Fallen(tables[1..], pages[1..], sort, id)
  }

  /** The client stopped although the comment, as last read, was still to come. */
  predicate StoppedAbove(tables: seq<Table>, pages: seq<ParentPage>, sort: Sort, id: Id)
    requires Present(tables, pages, id) && pages != []
  {
    var last := |pages| - 1;
    pages[last].nextCursor.Some? && AfterCursor(sort, pages[last].nextCursor.value, id, tables[last][id])
  }

  /** The comment is a live parent of the post, not newer than the snapshot, at every read. */
  predicate AlwaysListed(tables: seq<Table>, postId: int, asks: seq<Ask>, id: Id) {
    |tables| <= |asks| && forall i | 0 <= i < |tables| :: Listed(tables[i], postId, asks[i].snapshot, id)
  }

  lemma StillListed(tables: seq<Table>, postId: int, asks: seq<Ask>, id: Id)
    requires tables != [] && AlwaysListed(tables, postId, asks, id)
    ensures Listed(tables[0], postId, asks[0].snapshot, id) && AlwaysListed(tables[1..], postId, asks[1..], id)
  {
  }

  ghost predicate Balanced(tables: seq<Table>, pages: seq<ParentPage>, sort: Sort, above: Option<CursorData>, id: Id) {
    && Present(tables, pages, id) && pages != []
    && Shows(pages, id) + Overtaken(tables, pages, sort, id) + One(StoppedAbove(tables, pages, sort, id))
       == One(After(sort, above, id, tables[0][id])) + Fallen(tables, pages, sort, id)
  }

  /** A page shows a listed comment exactly between its two cursors, and its own cursor is the lower one. */
  ghost predicate BetweenCursors(t: Table, sort: Sort, above: Option<CursorData>, page: ParentPage, id: Id)
    requires id in t
  {
    && (OnPage(page, id) <==>
        After(sort, above, id, t[id])
        && !(page.nextCursor.Some? && After(sort, page.nextCursor, id, t[id])))
    && (page.nextCursor.Some? && After(sort, page.nextCursor, id, t[id]) ==> After(sort, above, id, t[id]))
  }

  lemma LastPageBalanced(tables: seq<Table>, page: ParentPage, sort: Sort, above: Option<CursorData>, id: Id)
    requires tables != [] && id in tables[0] && BetweenCursors(tables[0], sort, above, page, id)
    ensures Balanced(tables, [page], sort, above, id)
  {
    assert [page][1..] == [];
  }

  lemma PageBalanced(tables: seq<Table>, page: ParentPage, rest: seq<ParentPage>, sort: Sort, above: Option<CursorData>,
      id: Id)
    requires tables != [] && id in tables[0] && BetweenCursors(tables[0], sort, above, page, id)
    requires page.nextCursor.Some? && Balanced(tables[1..], rest, sort, page.nextCursor, id)
    ensures Balanced(tables, [page] + rest, sort, above, id)
  {
    var pages := [page] + rest;
    assert pages[1..] == rest;
    assert forall i | 0 <= i < |rest| :: tables[i + 1] == tables[1..][i];
    forall i | 0 <= i < |pages| ensures id in tables[i] {
      if i > 0 { assert id in tables[1..][i - 1]; }
    }
    assert pages[|pages| - 1] == rest[|rest| - 1] && tables[|pages| - 1] == tables[1..][|rest| - 1];
  }

  /** What lies after the cursor handed out lies after the cursor sent. */
  lemma CursorsGoDown(sort: Sort, cursor: CursorParam, t: Table, postId: int, snapshot: Option<int>, limit: nat,
      keys: Page<Key>, id: Id)
    requires id in t && keys.next.Some?
    requires IsWindow(KeyLess, ListKeys(t, postId, sort, snapshot), CursorKey(sort, cursor), limit, keys)
    requires AfterCursor(sort, CursorFor(sort, keys.next.value), id, t[id])
    ensures After(sort, Decoded(cursor), id, t[id])
  {
    assert keys.next.value in Visible(KeyLess, ListKeys(t, postId, sort, snapshot), CursorKey(sort, cursor));
    KeysOfRead(t, postId, sort, snapshot, keys.next);
    CursorRoundTrip(sort, keys.next.value);
    ClauseIsOrder(sort, CursorFor(sort, keys.next.value), id, t[id]);
    if cursor.Cursor? {
      ClauseIsOrder(sort, cursor.data, id, t[id]);
      KeyOrder();
    }
  }

  /** One request, for a comment that is listed when it is made. */
  lemma RequestBetween(t: Table, postId: int, sort: Sort, cursor: CursorParam, limit: nat, snapshot: Option<int>,
      id: Id)
    returns (first: ParentPage)
    requires limit >= 1 && Listed(t, postId, snapshot, id)
    ensures first == ParentPageOf(t, postId, sort, cursor, limit, snapshot)
    ensures BetweenCursors(t, sort, Decoded(cursor), first, id)
  {
    var page, _ := BrowseStep([t], postId, sort, cursor, limit, snapshot);
    first := Render(t, sort, page);
    assert Browse([t], postId, sort, cursor, limit, snapshot)[0] == first;
    OnePageWindow(t, postId, sort, cursor, limit, snapshot, page, id);
    if first.nextCursor.Some? && After(sort, first.nextCursor, id, t[id]) {
      CursorsGoDown(sort, cursor, t, postId, snapshot, limit, page, id);
    }
  }

  /** One request of a walk, and the walk from there on. */
  lemma WalkBetween(tables: seq<Table>, postId: int, sort: Sort, cursor: CursorParam, asks: seq<Ask>, id: Id)
    returns (first: ParentPage, next: CursorParam, rest: seq<ParentPage>)
    requires tables != [] && AsksOk(tables, asks) && AlwaysListed(tables, postId, asks, id)
    ensures BrowseEach(tables, postId, sort, cursor, asks) == [first] + rest
    ensures AsksOk(tables[1..], asks[1..]) && AlwaysListed(tables[1..], postId, asks[1..], id)
    ensures rest != [] ==> first.nextCursor.Some? && first.nextCursor == Decoded(next) && |tables| > 1
    ensures rest != [] ==> rest == BrowseEach(tables[1..], postId, sort, next, asks[1..])
    ensures id in tables[0] && BetweenCursors(tables[0], sort, Decoded(cursor), first, id)
  {
    StillListed(tables, postId, asks, id);
    first := RequestBetween(tables[0], postId, sort, cursor, asks[0].limit, asks[0].snapshot, id);
    next, rest := NoCursor, [];
    if first.nextCursor.Some? {
      next := Cursor(first.nextCursor.value);
      rest := BrowseEach(tables[1..], postId, sort, next, asks[1..]);
    }
  }

  /**
   Shows and crossings balance, for every walk over tables that change in any way between reads while the comment
   stays listed, whatever limit and snapshot each request asks for: pages showing it, plus the times it overtook the
   cursor, plus one if the client stopped above it, are the times it fell below the cursor plus one if it lay after the
   first cursor.
   */
  lemma {:induction false} ShowsBalanceMoves(tables: seq<Table>, postId: int, sort: Sort, cursor: CursorParam,
      asks: seq<Ask>, pages: seq<ParentPage>, id: Id)
    requires tables != [] && AsksOk(tables, asks) && pages == BrowseEach(tables, postId, sort, cursor, asks)
    requires AlwaysListed(tables, postId, asks, id)
    ensures Balanced(tables, pages, sort, Decoded(cursor), id)
    decreases |tables|
  {
    var first, next, rest := WalkBetween(tables, postId, sort, cursor, asks, id);
    if rest == [] {
      assert pages == [first];
      LastPageBalanced(tables, first, sort, Decoded(cursor), id);
    } else {
      ShowsBalanceMoves(tables[1..], postId, sort, next, asks[1..], rest, id);
      PageBalanced(tables, first, rest, sort, Decoded(cursor), id);
    }
  }

  /**
   Exactly how often a client that reads to the end sees a comment that is listed at every read: once when it overtook
   the cursor as often as it fell below it, never when it overtook it once more, and repeatedly otherwise.
   */
  lemma {:induction false} CompletedWalkShows(tables: seq<Table>, postId: int, sort: Sort, asks: seq<Ask>,
      pages: seq<ParentPage>, id: Id)
    requires tables != [] && AsksOk(tables, asks) && pages == BrowseEach(tables, postId, sort, NoCursor, asks)
    requires AlwaysListed(tables, postId, asks, id)
    requires pages != [] && pages[|pages| - 1].nextCursor.None?
    ensures Present(tables, pages, id)
    ensures var overtakes, falls := Overtaken(tables, pages, sort, id), Fallen(tables, pages, sort, id);
            && Shows(pages, id) + overtakes == 1 + falls
            && (Shows(pages, id) == 1 <==> overtakes == falls)
            && (Shows(pages, id) == 0 <==> overtakes == falls + 1)
            && (Shows(pages, id) >= 2 <==> overtakes < falls)
  {
    ShowsBalanceMoves(tables, postId, sort, NoCursor, asks, pages, id);
  }

  // ---- A comment that does not move ----

  ghost predicate KeyFixed(tables: seq<Table>, sort: Sort, id: Id) {
    && (forall i | 0 <= i < |tables| :: id in tables[i])
    && forall i | 0 <= i < |tables| :: KeyOf(sort, id, tables[i][id]) == KeyOf(sort, id, tables[0][id])
  }

  lemma {:induction false} FixedNeverCrosses(tables: seq<Table>, pages: seq<ParentPage>, sort: Sort, id: Id)
    requires Present(tables, pages, id) && KeyFixed(tables, sort, id)
    ensures Overtaken(tables, pages, sort, id) == 0 && Fallen(tables, pages, sort, id) == 0
    decreases |pages|
  {
    if |pages| >= 2 {
      if pages[0].nextCursor.Some? {
        assert KeyOf(sort, id, tables[1][id]) == KeyOf(sort, id, tables[0][id]);
        ClauseIsOrder(sort, pages[0].nextCursor.value, id, tables[0][id]);
        ClauseIsOrder(sort, pages[0].nextCursor.value, id, tables[1][id]);
      }
      FixedNeverCrosses(tables[1..], pages[1..], sort, id);
    }
  }

  /**
   A comment that stays listed under the same key is on exactly one page, also of a client that asks for another limit
   each time, and on none exactly when the client stopped above it.
   */
  lemma {:induction false} FixedCommentShownOnce(tables: seq<Table>, postId: int, sort: Sort, asks: seq<Ask>,
      pages: seq<ParentPage>, id: Id)
    requires tables != [] && AsksOk(tables, asks) && pages == BrowseEach(tables, postId, sort, NoCursor, asks)
    requires AlwaysListed(tables, postId, asks, id) && KeyFixed(tables, sort, id)
    ensures Present(tables, pages, id) && pages != []
    ensures Shows(pages, id) == if StoppedAbove(tables, pages, sort, id) then 0 else 1
  {
    ShowsBalanceMoves(tables, postId, sort, NoCursor, asks, pages, id);
    FixedNeverCrosses(tables, pages, sort, id);
  }

  /** A walk with one limit and one snapshot is such a walk. */
  lemma {:induction false} BrowseIsEach(tables: seq<Table>, postId: int, sort: Sort, cursor: CursorParam, limit: nat,
      snapshot: Option<int>)
    ensures Browse(tables, postId, sort, cursor, limit, snapshot) ==
            BrowseEach(tables, postId, sort, cursor, seq(|tables|, _ => Ask(limit, snapshot)))
  {
    if tables != [] {
      var page := ParentPageOf(tables[0], postId, sort, cursor, limit, snapshot);
      assert seq(|tables|, _ => Ask(limit, snapshot))[1..] == seq(|tables[1..]|, _ => Ask(limit, snapshot));
      if page.nextCursor.Some? {
        BrowseIsEach(tables[1..], postId, sort, Cursor(page.nextCursor.value), limit, snapshot);
      }
    }
  }
}
