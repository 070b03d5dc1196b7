/**
 Walks through the pages the comment service serves.  The first page may be one that was cached for another client with
 another limit; the following ones carry a cursor and are computed, each with the limit its request asks for.
 */
module ServedWalks {
  import opened Wrappers
  import opened CommentTable
  import opened CommentPages
  import opened CommentStore
  import opened CommentMoves

  datatype Request = Request(limit: nat, snapshot: Option<int>, now: int)

  /** The pages a client is served by passing cursors on, one store per request. */
  function Served(stores: seq<Store>, postId: int, sort: Sort, cursor: CursorParam,
      requests: seq<Request>): seq<ParentPage>
    requires |requests| == |stores|
  {
    if stores == [] then []
    else
      var r := requests[0];
      var page := ReadOn(stores[0], postId, cursor, r.limit, sort, r.snapshot, r.now).0;
      [page] + if page.nextCursor.Some?
               then Served(stores[1..], postId, sort, Cursor(page.nextCursor.value), requests[1..]) else []
  }

  function Tables(stores: seq<Store>): (tables: seq<Table>)
    ensures |tables| == |stores| && forall i | 0 <= i < |stores| :: tables[i] == stores[i].comments
  {
    if stores == [] then [] else [stores[0].comments] + Tables(stores[1..])
  }

  /** What requests with a cursor ask for. */
  function LaterAsks(sort: Sort, requests: seq<Request>): (asks: seq<Ask>)
    ensures |asks| == |requests| && forall i | 0 <= i < |requests| :: asks[i].limit == requests[i].limit
  {
    if requests == [] then []
    else
      [Ask(requests[0].limit, EffectiveSnapshot(sort, false, requests[0].snapshot, requests[0].now))]
          + LaterAsks(sort, requests[1..])
  }

  /** The limit the first page was cut with. */
  function FirstLimit(s: Store, postId: int, sort: Sort, r: Request): nat {
    if CacheKey(postId, sort) in s.cache then s.cache[CacheKey(postId, sort)].limit else r.limit
  }

  function WalkAsks(s: Store, postId: int, sort: Sort, requests: seq<Request>): seq<Ask>
    requires requests != []
  {
    [Ask(FirstLimit(s, postId, sort, requests[0]), None)] + LaterAsks(sort, requests[1..])
  }

  /** The first request carries no snapshot of the client's own and is not dated before the store. */
  predicate FirstOk(s: Store, sort: Sort, r: Request) {
    s.clock <= r.now && (sort == POPULAR ==> r.snapshot.None?)
  }

  /** Cached or not, the first page is a fresh one. */
  lemma FirstPageIsFresh(s: Store, postId: int, sort: Sort, r: Request)
    requires Good(s) && FirstOk(s, sort, r)
    ensures ReadOn(s, postId, NoCursor, r.limit, sort, r.snapshot, r.now).0 ==
            ParentPageOf(s.comments, postId, sort, NoCursor, FirstLimit(s, postId, sort, r), None)
  {
    var key := CacheKey(postId, sort);
    if key in s.cache {
      assert s.cache[key].page == FreshPage(s.comments, postId, sort, s.cache[key].limit);
    } else {
      assert EffectiveSnapshot(sort, true, r.snapshot, r.now) == EffectiveSnapshot(sort, true, None, r.now);
      CutAtNowIsFresh(s.comments, postId, sort, r.limit, r.now);
    }
  }

  lemma {:induction false} LaterPages(stores: seq<Store>, postId: int, sort: Sort, cursor: CursorParam,
      requests: seq<Request>)
    requires |requests| == |stores| && cursor.Cursor?
    ensures Served(stores, postId, sort, cursor, requests) ==
            BrowseEach(Tables(stores), postId, sort, cursor, LaterAsks(sort, requests))
    decreases |stores|
  {
    if stores != [] {
      var r := requests[0];
      var page := ReadOn(stores[0], postId, cursor, r.limit, sort, r.snapshot, r.now).0;
      assert Tables(stores)[1..] == Tables(stores[1..]);
      assert LaterAsks(sort, requests)[1..] == LaterAsks(sort, requests[1..]);
      if page.nextCursor.Some? {
        LaterPages(stores[1..], postId, sort, Cursor(page.nextCursor.value), requests[1..]);
      }
    }
  }

  /** What the service serves is a walk over its tables. */
  lemma {:induction false} ServedIsWalk(stores: seq<Store>, postId: int, sort: Sort, requests: seq<Request>)
    requires |requests| == |stores| > 0 && Good(stores[0]) && FirstOk(stores[0], sort, requests[0])
    ensures Served(stores, postId, sort, NoCursor, requests) ==
            BrowseEach(Tables(stores), postId, sort, NoCursor, WalkAsks(stores[0], postId, sort, requests))
  {
    var r := requests[0];
    FirstPageIsFresh(stores[0], postId, sort, r);
    var page := ReadOn(stores[0], postId, NoCursor, r.limit, sort, r.snapshot, r.now).0;
    assert Tables(stores)[1..] == Tables(stores[1..]);
    assert WalkAsks(stores[0], postId, sort, requests)[1..] == LaterAsks(sort, requests[1..]);
    if page.nextCursor.Some? {
      LaterPages(stores[1..], postId, sort, Cursor(page.nextCursor.value), requests[1..]);
    }
  }

  predicate LimitsOk(s: Store, postId: int, sort: Sort, requests: seq<Request>)
    requires requests != []
  {
    FirstLimit(s, postId, sort, requests[0]) >= 1 && forall i | 0 <= i < |requests| :: requests[i].limit >= 1
  }

  /**
   A comment that stays listed under the same key is served on exactly one page, whatever is cached, created, removed or
   liked in between and whatever limits are asked for; a client that stops early misses it exactly when its last cursor
   is still above it.
   */
  lemma {:induction false} ServedShownOnce(stores: seq<Store>, postId: int, sort: Sort, requests: seq<Request>, id: Id)
    requires |requests| == |stores| > 0 && Good(stores[0]) && FirstOk(stores[0], sort, requests[0])
    requires LimitsOk(stores[0], postId, sort, requests)
    requires AlwaysListed(Tables(stores), postId, WalkAsks(stores[0], postId, sort, requests), id)
    requires KeyFixed(Tables(stores), sort, id)
    ensures var pages := Served(stores, postId, sort, NoCursor, requests);
            && Present(Tables(stores), pages, id) && pages != []
            && Shows(pages, id) == if StoppedAbove(Tables(stores), pages, sort, id) then 0 else 1
  {
    ServedIsWalk(stores, postId, sort, requests);
    FixedCommentShownOnce(Tables(stores), postId, sort, WalkAsks(stores[0], postId, sort, requests),
        Served(stores, postId, sort, NoCursor, requests), id);
  }

  /** And a listed comment that moves is served as often as its crossings of the cursor say. */
  lemma {:induction false} ServedBalance(stores: seq<Store>, postId: int, sort: Sort, requests: seq<Request>, id: Id)
    requires |requests| == |stores| > 0 && Good(stores[0]) && FirstOk(stores[0], sort, requests[0])
    requires LimitsOk(stores[0], postId, sort, requests)
    requires AlwaysListed(Tables(stores), postId, WalkAsks(stores[0], postId, sort, requests), id)
    ensures Balanced(Tables(stores), Served(stores, postId, sort, NoCursor, requests), sort, None, id)
  {
    ServedIsWalk(stores, postId, sort, requests);
    ShowsBalanceMoves(Tables(stores), postId, sort, NoCursor, WalkAsks(stores[0], postId, sort, requests),
        Served(stores, postId, sort, NoCursor, requests), id);
  }

  // ---- Walks end, whatever the service does meanwhile ----

  ghost predicate LikesOk(t: Table) {
    forall c | c in t :: t[c].likesCount >= 0
  }

  lemma BumpKeepsLikes(t: Table, root: Id, delta: int)
    requires LikesOk(t) && root in t
    ensures LikesOk(ReplyCounters.Bump(t, root, delta))
  {
  }

  lemma CreateKeepsLikes(s: Store, id: Id, postId: int, parentId: Option<Id>, userId: int, now: int)
    requires Valid(s) && LikesOk(s.comments) && id !in s.comments
    requires CreateOn(s, id, postId, parentId, userId, now).Ok?
    ensures LikesOk(CreateOn(s, id, postId, parentId, userId, now).value.comments)
  {
    var parent := ReplyCounters.ActualParent(s.comments, parentId);
    var inserted := s.comments[id := NewComment(s, postId, parent, userId, now)];
    InsertKeepsWellFormed(s, id, NewComment(s, postId, parent, userId, now));
    assert LikesOk(inserted);
    if parent.Some? { BumpKeepsLikes(inserted, RootOf(inserted, parent.value), 1); }
  }

  lemma RemoveKeepsLikes(s: Store, id: Id, userId: int)
    requires Valid(s) && LikesOk(s.comments) && RemoveOn(s, id, userId).Ok?
    ensures LikesOk(RemoveOn(s, id, userId).value.comments)
  {
    var marked := s.comments[id := s.comments[id].(isDeleted := true)];
    assert LikesOk(marked);
    if marked[id].parent.Some? { BumpKeepsLikes(marked, RootOf(marked, marked[id].parent.value), -1); }
  }

  /** No request makes a like counter negative: decrements are clamped. */
  lemma DoKeepsLikes(s: Store, op: Op)
    requires Valid(s) && Admissible(s, op) && LikesOk(s.comments)
    ensures LikesOk(Do(s, op).comments)
  {
    match op
    case CreateOp(id, postId, parentId, userId, now) =>
      if CreateOn(s, id, postId, parentId, userId, now).Ok? { CreateKeepsLikes(s, id, postId, parentId, userId, now); }
    case RemoveOp(id, userId) =>
      if RemoveOn(s, id, userId).Ok? { RemoveKeepsLikes(s, id, userId); }
    case _ =>
  }

  lemma {:induction false} RunKeepsLikes(s: Store, ops: seq<Op>)
    requires Valid(s) && AdmissibleRun(s, ops) && LikesOk(s.comments)
    ensures LikesOk(DoAll(s, ops).comments)
    decreases |ops|
  {
    if ops != [] {
      DoKeepsValid(s, ops[0]);
      DoKeepsLikes(s, ops[0]);
      RunKeepsLikes(Do(s, ops[0]), ops[1..]);
    }
  }

  lemma {:induction false} ReadsKeepLikes(s: Store, between: seq<seq<Op>>)
    requires Valid(s) && AdmissibleReads(s, between) && LikesOk(s.comments)
    ensures LikesNonNegative(Reads(s, between))
    decreases |between|
  {
    if between != [] {
      RowsPersist(s, between[0]);
      RunKeepsLikes(s, between[0]);
      var n := DoAll(s, between[0]);
      ReadsKeepLikes(n, between[1..]);
      var tables: seq<Table> := Reads(s, between);
      assert tables[1..] == Reads(n, between[1..]);
      forall i: nat, c: Id | i < |tables| && c in tables[i] ensures tables[i][c].likesCount >= 0 {
        if i > 0 { assert tables[i] == Reads(n, between[1..])[i - 1]; }
      }
    }
  }

  /** What the reads of such a walk see. */
  lemma ReadsForWalk(s: Store, between: seq<seq<Op>>, now: int) returns (tables: seq<Table>)
    requires Valid(s) && s.clock <= now && LikesOk(s.comments) && AdmissibleReads(s.(clock := now + 1), between)
    ensures tables == Reads(s.(clock := now + 1), between) && |tables| == |between| + 1 && tables[0] == s.comments
    ensures NewRowsAreLater(tables, now) && LikesNonNegative(tables)
    ensures forall c | c in s.comments :: s.comments[c].createdAt <= now
  {
    tables := Reads(s.(clock := now + 1), between);
    StoreReadsAreLater(s, between, now);
    ReadsKeepLikes(s.(clock := now + 1), between);
  }

  /**
   A client that keeps asking reaches the last page: for every use of the service between its requests, if the first is
   made at `now` and the others come in later milliseconds.
   */
  lemma {:induction false} StoreWalkEnds(s: Store, between: seq<seq<Op>>, postId: int, sort: Sort, limit: nat,
      snapshot: Option<int>, now: int, likes: nat)
    requires Valid(s) && s.clock <= now && LikesOk(s.comments) && AdmissibleReads(s.(clock := now + 1), between)
    requires limit >= 1 && (sort == POPULAR ==> snapshot.Some? && snapshot.value <= now)
    requires forall c | c in s.comments :: s.comments[c].likesCount <= likes
    requires |between| > |Reachable(s.comments, likes)|
    ensures var pages := Browse(Reads(s.(clock := now + 1), between), postId, sort, NoCursor, limit, snapshot);
            pages != [] && pages[|pages| - 1].nextCursor.None?
  {
    var tables := ReadsForWalk(s, between, now);
    WalkEnds(tables, postId, sort, limit, snapshot, now, likes);
  }
}
