/**
 The comment service run one request at a time: comments, reaction rows and the cache of first pages.
 Each operation is a function of the whole store; the class below performs them in place.
 */
module CommentStore {
  import opened Wrappers
  import opened Sets
  import opened Keyset
  import opened Chain
  import opened CommentTable
  import opened ReplyCounters
  import opened Reactions
  import opened CommentPages

  datatype CacheKey = CacheKey(postId: int, sort: Sort)

  /** A cached first page, with the limit of the request that filled it (the cache key does not carry it). */
  datatype Cached = Cached(page: ParentPage, limit: nat)

  /** `posts` says of each existing post whether its blog allows comments. */
  datatype Store = Store(
    posts: map<int, bool>,
    comments: Table,
    likes: map<Vote, LikeType>,
    cache: map<CacheKey, Cached>,
    clock: int,
    born: nat)

  datatype Error = PostNotFound | CommentsDisabled | UnknownParent | NotFound | NotAuthor

  ghost predicate Valid(s: Store) {
    && WellFormed(s.comments)
    && forall c | c in s.comments :: s.comments[c].born < s.born && s.comments[c].createdAt <= s.clock
  }

  function Invalidate(cache: map<CacheKey, Cached>, postId: int): map<CacheKey, Cached> {
    cache - {CacheKey(postId, RECENT), CacheKey(postId, POPULAR)}
  }

  function NewComment(s: Store, postId: int, parent: Option<Id>, userId: int, now: int): Comment {
    Comment(postId, parent, userId, false, 0, 0, 0, now, s.born)
  }

  lemma InsertKeepsWellFormed(s: Store, id: Id, row: Comment)
    requires Valid(s) && id !in s.comments && row.born == s.born
    requires row.parent.Some? ==> row.parent.value in s.comments
    ensures WellFormed(s.comments[id := row])
  {
    var t' := s.comments[id := row];
    forall c | c in t' && t'[c].parent.Some?
      ensures t'[c].parent.value in t' && t'[t'[c].parent.value].born < t'[c].born
    {
      var p := t'[c].parent.value;
      assert p in s.comments && s.comments[p].born < s.born;
      assert c != id ==> s.comments[p].born < s.comments[c].born;
    }
  }

  function CreateOn(s: Store, id: Id, postId: int, parentId: Option<Id>, userId: int, now: int): Result<Store, Error>
    requires Valid(s) && id !in s.comments
  {
    if postId !in s.posts then Err(PostNotFound)
    else if !s.posts[postId] then Err(CommentsDisabled)
    else
      var parent := ActualParent(s.comments, parentId);
      if parent.Some? && parent.value !in s.comments then Err(UnknownParent)
      else
        var row := NewComment(s, postId, parent, userId, now);
        InsertKeepsWellFormed(s, id, row);
        var inserted := s.comments[id := row];
        var counted := if parent.Some? then Bump(inserted, RootOf(inserted, parent.value), 1) else inserted;
        Ok(Store(s.posts, counted, s.likes, Invalidate(s.cache, postId), now, s.born + 1))
  }

  function RemoveOn(s: Store, id: Id, userId: int): Result<Store, Error>
    requires Valid(s)
  {
    if id !in s.comments then Err(NotFound)
    else if s.comments[id].authorId != userId then Err(NotAuthor)
    else
      var row := s.comments[id].(isDeleted := true);
      var marked := s.comments[id := row];
      var counted := if row.parent.Some? then Bump(marked, RootOf(marked, row.parent.value), -1) else marked;
      Ok(s.(comments := counted, cache := Invalidate(s.cache, row.postId)))
  }

  function Toggled(s: Store, id: Id, r: Result<(Board, Answer), ToggleError>): Result<(Store, Answer), Error> {
    match r
    case Err(_) => Err(NotFound)
    case Ok((board, answer)) =>
      if id !in board.comments then Err(NotFound)
      else Ok((s.(comments := board.comments, likes := board.likes,
          cache := Invalidate(s.cache, board.comments[id].postId)), answer))
  }

  function LikeOn(s: Store, id: Id, userId: int): Result<(Store, Answer), Error> {
    Toggled(s, id, ToggleLike(Board(s.comments, s.likes), id, userId))
  }

  function DislikeOn(s: Store, id: Id, userId: int): Result<(Store, Answer), Error> {
    Toggled(s, id, ToggleDislike(Board(s.comments, s.likes), id, userId))
  }

  /** Popular lists are cut at the given snapshot, or at the time of the first request. */
  function EffectiveSnapshot(sort: Sort, isFirstPage: bool, snapshot: Option<int>, now: int): Option<int> {
    if sort != POPULAR then None
    else if snapshot.Some? then snapshot
    else if isFirstPage then Some(now)
    else None
  }

  function ReadOn(s: Store, postId: int, cursor: CursorParam, limit: nat, sort: Sort, snapshot: Option<int>,
      now: int): (ParentPage, Store) {
    var key := CacheKey(postId, sort);
    if cursor.NoCursor? && key in s.cache then (s.cache[key].page, s)
    else
      var page := ParentPageOf(s.comments, postId, sort, cursor, limit,
          EffectiveSnapshot(sort, cursor.NoCursor?, snapshot, now));
      (page, if cursor.NoCursor? then s.(cache := s.cache[key := Cached(page, limit)]) else s)
  }

  /** The walk to the root of a comment. */
  method FindRoot(comments: Table, commentId: Id) returns (root: Id)
    requires WellFormed(comments) && commentId in comments
    ensures root == RootOf(comments, commentId)
  {
    var current := commentId;
    root := current;
    while comments[current].parent.Some?
      invariant current in comments && root == current && RootOf(comments, current) == RootOf(comments, commentId)
      decreases comments[current].born
    {
      var parent := comments[current].parent.value;
      if parent !in comments {
        break;
      }
      root := parent;
      current := parent;
    }
  }

  class CommentsService {
    var posts: map<int, bool>
    var comments: Table
    var likes: map<Vote, LikeType>
    var cache: map<CacheKey, Cached>
    var clock: int
    var born: nat

    function State(): Store
      reads this
    {
      Store(posts, comments, likes, cache, clock, born)
    }

    constructor (posts: map<int, bool>)
      ensures State() == Store(posts, map[], map[], map[], 0, 0) && Valid(State())
    {
      this.posts, comments, likes, cache := posts, map[], map[], map[];
      clock, born := 0, 0;
    }

    method Create(id: Id, postId: int, parentId: Option<Id>, userId: int, now: int) returns (error: Option<Error>)
      requires Valid(State()) && id !in comments
      modifies this
      ensures var r := CreateOn(old(State()), id, postId, parentId, userId, now);
              if r.Ok? then error == None && State() == r.value else error == Some(r.error) && State() == old(State())
    {
      if postId !in posts { return Some(PostNotFound); }
      if !posts[postId] { return Some(CommentsDisabled); }
      var actualParentId := parentId;
      if parentId.Some? && parentId.value in comments && comments[parentId.value].parent.Some? {
        actualParentId := comments[parentId.value].parent;
      }
      if actualParentId.Some? && actualParentId.value !in comments { return Some(UnknownParent); }
      InsertKeepsWellFormed(State(), id, NewComment(State(), postId, actualParentId, userId, now));
      comments := comments[id := Comment(postId, actualParentId, userId, false, 0, 0, 0, now, born)];
      born, clock := born + 1, now;
      if actualParentId.Some? {
        AddToRepliesCount(actualParentId.value, 1);
      }
      InvalidateCommentsPaginationCache(postId);
      error := None;
    }

    method Remove(id: Id, userId: int) returns (error: Option<Error>)
      requires Valid(State())
      modifies this
      ensures var r := RemoveOn(old(State()), id, userId);
              if r.Ok? then error == None && State() == r.value else error == Some(r.error) && State() == old(State())
    {
      if id !in comments { return Some(NotFound); }
      var comment := comments[id];
      if comment.authorId != userId { return Some(NotAuthor); }
      comments := comments[id := comment.(isDeleted := true)];
      if comment.parent.Some? {
        AddToRepliesCount(comment.parent.value, -1);
      }
      InvalidateCommentsPaginationCache(comment.postId);
      error := None;
    }

    /** `incrementRepliesCount` and `decrementRepliesCount`. */
    method AddToRepliesCount(commentId: Id, delta: int)
      requires WellFormed(comments)
      modifies this`comments
      ensures comments == if commentId in old(comments)
                          then Bump(old(comments), RootOf(old(comments), commentId), delta)
                          else old(comments)
    {
      if commentId !in comments { return; }
      var root := FindRoot(comments, commentId);
      comments := comments[root := comments[root].(repliesCount := comments[root].repliesCount + delta)];
    }

    method InvalidateCommentsPaginationCache(postId: int)
      modifies this`cache
      ensures cache == Invalidate(old(cache), postId)
    {
      cache := cache - {CacheKey(postId, RECENT)};
      cache := cache - {CacheKey(postId, POPULAR)};
    }

    method ToggleLike(commentId: Id, userId: int) returns (result: Result<Answer, Error>)
      modifies this
      ensures var r := LikeOn(old(State()), commentId, userId);
              if r.Ok? then result == Ok(r.value.1) && State() == r.value.0
              else result == Err(r.error) && State() == old(State())
    {
      if commentId !in comments { return Err(NotFound); }
      var comment, vote, liked := comments[commentId], Vote(commentId, userId), false;
      if vote in likes {
        if likes[vote] == LIKE {
          likes := likes - {vote};
          comment := comment.(likesCount := Max0(comment.likesCount - 1));
        } else {
          likes := likes[vote := LIKE];
          comment := comment.(likesCount := comment.likesCount + 1, dislikesCount := Max0(comment.dislikesCount - 1));
          liked := true;
        }
      } else {
        likes := likes[vote := LIKE];
        comment := comment.(likesCount := comment.likesCount + 1);
        liked := true;
      }
      comments := comments[commentId := comment];
      InvalidateCommentsPaginationCache(comment.postId);
      result := Ok(Answer(liked, comment.likesCount, comment.dislikesCount));
    }

    method ToggleDislike(commentId: Id, userId: int) returns (result: Result<Answer, Error>)
      modifies this
      ensures var r := DislikeOn(old(State()), commentId, userId);
              if r.Ok? then result == Ok(r.value.1) && State() == r.value.0
              else result == Err(r.error) && State() == old(State())
    {
      if commentId !in comments { return Err(NotFound); }
      var comment, vote, disliked := comments[commentId], Vote(commentId, userId), false;
      if vote in likes {
        if likes[vote] == DISLIKE {
          likes := likes - {vote};
          comment := comment.(dislikesCount := Max0(comment.dislikesCount - 1));
        } else {
          likes := likes[vote := DISLIKE];
          comment := comment.(dislikesCount := comment.dislikesCount + 1, likesCount := Max0(comment.likesCount - 1));
          disliked := true;
        }
      } else {
        likes := likes[vote := DISLIKE];
        comment := comment.(dislikesCount := comment.dislikesCount + 1);
        disliked := true;
      }
      comments := comments[commentId := comment];
      InvalidateCommentsPaginationCache(comment.postId);
      result := Ok(Answer(disliked, comment.likesCount, comment.dislikesCount));
    }

    method GetParentCommentsPaginated(postId: int, cursor: CursorParam, limit: nat, sort: Sort, snapshot: Option<int>,
        now: int)
      returns (page: ParentPage)
      modifies this`cache
      ensures (page, State()) == ReadOn(old(State()), postId, cursor, limit, sort, snapshot, now)
    {
      var key := CacheKey(postId, sort);
      if cursor.NoCursor? && key in cache {
        return cache[key].page;
      }
      var effectiveSnapshot: Option<int> := None;
      if sort == POPULAR {
        if snapshot.Some? {
          effectiveSnapshot := snapshot;
        } else if cursor.NoCursor? {
          effectiveSnapshot := Some(now);
        }
      }
      page := ParentPageOf(comments, postId, sort, cursor, limit, effectiveSnapshot);
      if cursor.NoCursor? {
        cache := cache[key := Cached(page, limit)];
      }
    }
  }

  // ---- The sequential service is the step machine run one request at a time ----

  ghost function AsSystem(s: Store): System {
    System(s.comments, multiset{}, {}, multiset{}, s.born)
  }

  lemma CreateIsSteps(s: Store, id: Id, postId: int, parentId: Option<Id>, userId: int, now: int)
    requires Valid(s) && id !in s.comments && parentId != Some(id) && CreateOn(s, id, postId, parentId, userId, now).Ok?
    ensures var draft := Draft(postId, userId, ActualParent(s.comments, parentId));
            var s1 := Step(AsSystem(s), Resolve(postId, userId, parentId));
            && Sound(AsSystem(s)) && Sound(s1) && Sound(Step(s1, Insert(draft, id, now)))
            && Step(Step(s1, Insert(draft, id, now)), Increment(id)) ==
                AsSystem(CreateOn(s, id, postId, parentId, userId, now).value)
  {
    var draft := Draft(postId, userId, ActualParent(s.comments, parentId));
    var s1 := Step(AsSystem(s), Resolve(postId, userId, parentId));
    assert s1.drafts == multiset{draft};
    assert FreshId(s1, id);
    StepSound(s1, Insert(draft, id, now));
    var s2 := Step(s1, Insert(draft, id, now));
    assert s2.drafts == multiset{};
  }

  lemma RemoveIsSteps(s: Store, id: Id, userId: int)
    requires Valid(s) && RemoveOn(s, id, userId).Ok?
    ensures var s1 := Step(AsSystem(s), ReplyCounters.Remove(id, userId));
            && Sound(AsSystem(s)) && Sound(s1)
            && Step(s1, Decrement(id)) == AsSystem(RemoveOn(s, id, userId).value)
  {
    StepSound(AsSystem(s), ReplyCounters.Remove(id, userId));
  }

  // ---- First-page cache coherence ----

  /** The first page a client would get without a cache, when every comment is older than the request. */
  function FreshPage(t: Table, postId: int, sort: Sort, limit: nat): ParentPage {
    ParentPageOf(t, postId, sort, NoCursor, limit, None)
  }

  ghost predicate Coherent(s: Store) {
    forall k | k in s.cache :: s.cache[k].page == FreshPage(s.comments, k.postId, k.sort, s.cache[k].limit)
  }

  /** A row of the list of parents of a post. */
  predicate ParentOf(t: Table, postId: int, c: Id) {
    c in t && t[c].postId == postId && t[c].parent.None?
  }

  ghost predicate SameParents(t: Table, t': Table, postId: int) {
    forall c | c in t || c in t' ::
      (ParentOf(t, postId, c) <==> ParentOf(t', postId, c)) && (ParentOf(t, postId, c) ==> t[c] == t'[c])
  }

  lemma SameQuery(t: Table, t': Table, postId: int, sort: Sort, snapshot: Option<int>)
    requires SameParents(t, t', postId)
    ensures QueryKeys(t, postId, sort, NoCursor, snapshot) == QueryKeys(t', postId, sort, NoCursor, snapshot)
    ensures forall k | k in QueryKeys(t, postId, sort, NoCursor, snapshot) :: ParentOf(t, postId, k.id)
  {
    forall k ensures k in QueryKeys(t, postId, sort, NoCursor, snapshot) <==>
        k in QueryKeys(t', postId, sort, NoCursor, snapshot) {
      if k in QueryKeys(t, postId, sort, NoCursor, snapshot) {
        assert ParentOf(t, postId, k.id);
      }
      if k in QueryKeys(t', postId, sort, NoCursor, snapshot) {
        assert ParentOf(t', postId, k.id);
      }
    }
  }

  lemma FetchedAreKeys(keys: set<Key>, limit: nat)
    ensures StrictTotal(KeyLess)
    ensures forall k | k in PageFrom(Take(Desc(KeyLess, keys), limit + 1), limit).items :: k in keys
  {
    KeyOrder();
    var page := PageFrom(Take(Desc(KeyLess, keys), limit + 1), limit);
    forall k | k in page.items ensures k in keys {
      assert k in Desc(KeyLess, keys);
    }
  }

  /** The list depends on the parents of its own post only. */
  lemma {:induction false} PageDependsOnOwnParents(t: Table, t': Table, postId: int, sort: Sort, limit: nat)
    requires SameParents(t, t', postId)
    ensures FreshPage(t, postId, sort, limit) == FreshPage(t', postId, sort, limit)
  {
    SameQuery(t, t', postId, sort, None);
    var keys := QueryKeys(t, postId, sort, NoCursor, None);
    FetchedAreKeys(keys, limit);
    var items := PageFrom(Take(Desc(KeyLess, keys), limit + 1), limit).items;
    assert Entries(t, items) == Entries(t', items) by {
      forall i | 0 <= i < |items| ensures Entries(t, items)[i] == Entries(t', items)[i] {
        assert items[i] in items;
        assert ParentOf(t, postId, items[i].id);
      }
    }
  }

  /** A reply belongs to the post of the comment it answers. */
  ghost predicate PostsAgree(t: Table) {
    forall c | c in t && t[c].parent.Some? && t[c].parent.value in t :: t[t[c].parent.value].postId == t[c].postId
  }

  lemma {:induction false} RootSharesPost(t: Table, c: Id)
    requires WellFormed(t) && PostsAgree(t) && c in t
    ensures t[RootOf(t, c)].postId == t[c].postId
    decreases t[c].born
  {
    if t[c].parent.Some? {
      RootSharesPost(t, t[c].parent.value);
    }
  }

  /** An operation that only touches parents of `postId` and drops its two cached pages keeps the cache coherent. */
  lemma {:induction false} InvalidationSuffices(s: Store, s': Store, postId: int)
    requires Coherent(s) && s'.cache == Invalidate(s.cache, postId)
    requires forall other | other != postId :: SameParents(s.comments, s'.comments, other)
    ensures Coherent(s')
  {
    forall k | k in s'.cache ensures s'.cache[k].page == FreshPage(s'.comments, k.postId, k.sort, s'.cache[k].limit) {
      assert k == CacheKey(k.postId, k.sort) && (k.sort == RECENT || k.sort == POPULAR);
      PageDependsOnOwnParents(s.comments, s'.comments, k.postId, k.sort, s.cache[k].limit);
    }
  }

  /** A popular first page cut at the time of the request is the uncut page. */
  lemma {:induction false} CutAtNowIsFresh(t: Table, postId: int, sort: Sort, limit: nat, now: int)
    requires forall c | c in t :: t[c].createdAt <= now
    ensures ParentPageOf(t, postId, sort, NoCursor, limit, EffectiveSnapshot(sort, true, None, now)) ==
        FreshPage(t, postId, sort, limit)
  {
    var snapshot := EffectiveSnapshot(sort, true, None, now);
    forall c | c in t ensures Listed(t, postId, snapshot, c) == Listed(t, postId, None, c) {
    }
    assert QueryKeys(t, postId, sort, NoCursor, snapshot) == QueryKeys(t, postId, sort, NoCursor, None);
  }

  datatype Op =
    | CreateOp(id: Id, postId: int, parentId: Option<Id>, userId: int, now: int)
    | RemoveOp(id: Id, userId: int)
    | LikeOp(id: Id, userId: int)
    | DislikeOp(id: Id, userId: int)
    | ReadOp(postId: int, cursor: CursorParam, limit: nat, sort: Sort, snapshot: Option<int>, now: int)

  /**
   What the coherence of a run rests on: fresh ids, a clock that does not go back, replies filed under the post of the
   comment they answer, and no first page requested with a snapshot of the client's own.
   */
  ghost predicate Admissible(s: Store, op: Op) {
    match op
    case CreateOp(id, postId, parentId, _, now) =>
      id !in s.comments && s.clock <= now
      && (parentId.Some? && parentId.value in s.comments ==> s.comments[parentId.value].postId == postId)
    case ReadOp(_, cursor, _, sort, snapshot, now) =>
      s.clock <= now && (cursor.NoCursor? && sort == POPULAR ==> snapshot.None?)
    case _ => true
  }

  ghost function Do(s: Store, op: Op): Store
    requires Valid(s) && Admissible(s, op)
  {
    match op
    case CreateOp(id, postId, parentId, userId, now) =>
      var r := CreateOn(s, id, postId, parentId, userId, now); if r.Ok? then r.value else s
    case RemoveOp(id, userId) =>
      var r := RemoveOn(s, id, userId); if r.Ok? then r.value else s
    case LikeOp(id, userId) =>
      var r := LikeOn(s, id, userId); if r.Ok? then r.value.0 else s
    case DislikeOp(id, userId) =>
      var r := DislikeOn(s, id, userId); if r.Ok? then r.value.0 else s
    case ReadOp(postId, cursor, limit, sort, snapshot, now) =>
      ReadOn(s, postId, cursor, limit, sort, snapshot, now).1
  }

  ghost predicate Good(s: Store) {
    Valid(s) && PostsAgree(s.comments) && Coherent(s)
  }

  lemma {:induction false} CreateKeepsGood(s: Store, id: Id, postId: int, parentId: Option<Id>, userId: int, now: int)
    requires Good(s) && Admissible(s, CreateOp(id, postId, parentId, userId, now))
    requires CreateOn(s, id, postId, parentId, userId, now).Ok?
    ensures Good(CreateOn(s, id, postId, parentId, userId, now).value)
  {
    var s' := CreateOn(s, id, postId, parentId, userId, now).value;
    var parent := ActualParent(s.comments, parentId);
    var row := NewComment(s, postId, parent, userId, now);
    InsertKeepsWellFormed(s, id, row);
    var inserted := s.comments[id := row];
    assert PostsAgree(inserted);
    if parent.Some? {
      RootSharesPost(inserted, parent.value);
    }
    InvalidationSuffices(s, s', postId);
  }

  lemma {:induction false} RemoveKeepsGood(s: Store, id: Id, userId: int)
    requires Good(s) && RemoveOn(s, id, userId).Ok?
    ensures Good(RemoveOn(s, id, userId).value)
  {
    var s' := RemoveOn(s, id, userId).value;
    var marked := s.comments[id := s.comments[id].(isDeleted := true)];
    assert PostsAgree(marked);
    if s.comments[id].parent.Some? {
      RootSharesPost(marked, s.comments[id].parent.value);
    }
    InvalidationSuffices(s, s', s.comments[id].postId);
  }

  /** A row update that keeps links, post and times, with the two pages of the post dropped. */
  lemma {:induction false} RowUpdateKeepsGood(s: Store, s': Store, id: Id, row: Comment)
    requires Good(s) && id in s.comments && s'.comments == s.comments[id := row]
    requires s'.cache == Invalidate(s.cache, s.comments[id].postId) && s'.clock == s.clock && s'.born == s.born
    requires row.parent == s.comments[id].parent && row.postId == s.comments[id].postId
    requires row.born == s.comments[id].born && row.createdAt == s.comments[id].createdAt
    ensures Good(s')
  {
    InvalidationSuffices(s, s', s.comments[id].postId);
  }

  lemma LikeKeepsGood(s: Store, id: Id, userId: int)
    requires Good(s) && id in s.comments
    ensures LikeOn(s, id, userId).Ok? && Good(LikeOn(s, id, userId).value.0)
  {
    var after := LikeOn(s, id, userId).value.0;
    ToggledRow(s, ToggleLike(Board(s.comments, s.likes), id, userId), id);
    RowUpdateKeepsGood(s, after, id, after.comments[id]);
  }

  lemma DislikeKeepsGood(s: Store, id: Id, userId: int)
    requires Good(s) && id in s.comments
    ensures DislikeOn(s, id, userId).Ok? && Good(DislikeOn(s, id, userId).value.0)
  {
    var after := DislikeOn(s, id, userId).value.0;
    ToggledRow(s, ToggleDislike(Board(s.comments, s.likes), id, userId), id);
    RowUpdateKeepsGood(s, after, id, after.comments[id]);
  }

  /** A toggle writes the counters of one row and drops the pages of its post. */
  lemma ToggledRow(s: Store, r: Result<(Board, Answer), ToggleError>, id: Id)
    requires id in s.comments && r.Ok? && r.value.0.comments.Keys == s.comments.Keys
    requires r.value.0.comments == s.comments[id := r.value.0.comments[id]]
    requires r.value.0.comments[id].postId == s.comments[id].postId
    ensures var after := Toggled(s, id, r);
            && after.Ok?
            && after.value.0.comments == s.comments[id := r.value.0.comments[id]]
            && after.value.0.cache == Invalidate(s.cache, s.comments[id].postId)
            && after.value.0.clock == s.clock && after.value.0.born == s.born
  {
  }

  /** Filling one cache entry with what a fresh query returns. */
  lemma FillKeepsCoherent(s: Store, key: CacheKey, page: ParentPage, limit: nat)
    requires Coherent(s) && page == FreshPage(s.comments, key.postId, key.sort, limit)
    ensures Coherent(s.(cache := s.cache[key := Cached(page, limit)]))
  {
  }

  lemma {:induction false} ReadKeepsGood(s: Store, op: Op)
    requires Good(s) && op.ReadOp? && Admissible(s, op)
    ensures Good(Do(s, op))
  {
    var key := CacheKey(op.postId, op.sort);
    if op.cursor.NoCursor? && key !in s.cache {
      var snapshot := EffectiveSnapshot(op.sort, true, op.snapshot, op.now);
      assert snapshot == EffectiveSnapshot(op.sort, true, None, op.now);
      CutAtNowIsFresh(s.comments, op.postId, op.sort, op.limit, op.now);
      FillKeepsCoherent(s, key, ParentPageOf(s.comments, op.postId, op.sort, NoCursor, op.limit, snapshot), op.limit);
    }
  }

  lemma {:induction false} DoKeepsGood(s: Store, op: Op)
    requires Good(s) && Admissible(s, op)
    ensures Good(Do(s, op))
  {
    match op
    case CreateOp(id, postId, parentId, userId, now) =>
      if CreateOn(s, id, postId, parentId, userId, now).Ok? { CreateKeepsGood(s, id, postId, parentId, userId, now); }
    case RemoveOp(id, userId) =>
      if RemoveOn(s, id, userId).Ok? { RemoveKeepsGood(s, id, userId); }
    case LikeOp(id, userId) =>
      if id in s.comments { LikeKeepsGood(s, id, userId); }
    case DislikeOp(id, userId) =>
      if id in s.comments { DislikeKeepsGood(s, id, userId); }
    case ReadOp(_, _, _, _, _, _) =>
      ReadKeepsGood(s, op);
  }

  lemma RowUpdateKeepsValid(s: Store, s': Store, id: Id, row: Comment)
    requires Valid(s) && id in s.comments && s'.comments == s.comments[id := row]
    requires s'.clock == s.clock && s'.born == s.born
    requires row.parent == s.comments[id].parent && row.born == s.comments[id].born
        && row.createdAt == s.comments[id].createdAt
    ensures Valid(s')
  {
  }

  lemma BumpKeepsValid(s: Store, s': Store, root: Id, delta: int)
    requires Valid(s) && root in s.comments && s'.comments == Bump(s.comments, root, delta)
    requires s'.clock == s.clock && s'.born == s.born
    ensures Valid(s')
  {
    RowUpdateKeepsValid(s, s', root, s'.comments[root]);
  }

  lemma CreateKeepsValid(s: Store, id: Id, postId: int, parentId: Option<Id>, userId: int, now: int)
    requires Valid(s) && id !in s.comments && s.clock <= now && CreateOn(s, id, postId, parentId, userId, now).Ok?
    ensures Valid(CreateOn(s, id, postId, parentId, userId, now).value)
  {
    var parent := ActualParent(s.comments, parentId);
    var row := NewComment(s, postId, parent, userId, now);
    InsertKeepsWellFormed(s, id, row);
    var inserted := s.(comments := s.comments[id := row], clock := now, born := s.born + 1);
    assert Valid(inserted);
    if parent.Some? {
      BumpKeepsValid(inserted, CreateOn(s, id, postId, parentId, userId, now).value,
          RootOf(inserted.comments, parent.value), 1);
    }
  }

  lemma RemoveKeepsValid(s: Store, id: Id, userId: int)
    requires Valid(s) && RemoveOn(s, id, userId).Ok?
    ensures Valid(RemoveOn(s, id, userId).value)
  {
    var row := s.comments[id].(isDeleted := true);
    var marked := s.(comments := s.comments[id := row]);
    RowUpdateKeepsValid(s, marked, id, row);
    if row.parent.Some? {
      BumpKeepsValid(marked, RemoveOn(s, id, userId).value, RootOf(marked.comments, row.parent.value), -1);
    }
  }

  lemma DoKeepsValid(s: Store, op: Op)
    requires Valid(s) && Admissible(s, op)
    ensures Valid(Do(s, op))
  {
    match op
    case CreateOp(id, postId, parentId, userId, now) =>
      if CreateOn(s, id, postId, parentId, userId, now).Ok? { CreateKeepsValid(s, id, postId, parentId, userId, now); }
    case RemoveOp(id, userId) =>
      if RemoveOn(s, id, userId).Ok? { RemoveKeepsValid(s, id, userId); }
    case LikeOp(id, _) =>
      if id in s.comments { RowUpdateKeepsValid(s, Do(s, op), id, Do(s, op).comments[id]); }
    case DislikeOp(id, _) =>
      if id in s.comments { RowUpdateKeepsValid(s, Do(s, op), id, Do(s, op).comments[id]); }
    case ReadOp(_, _, _, _, _, _) =>
  }

  ghost predicate AdmissibleRun(s: Store, ops: seq<Op>)
    requires Valid(s)
    decreases |ops|
  {
    ops != [] ==> Admissible(s, ops[0]) && (DoKeepsValid(s, ops[0]); AdmissibleRun(Do(s, ops[0]), ops[1..]))
  }

  ghost function DoAll(s: Store, ops: seq<Op>): Store
    requires Valid(s) && AdmissibleRun(s, ops)
    decreases |ops|
  {
    if ops == [] then s
    else
      DoKeepsValid(s, ops[0]);
      DoAll(Do(s, ops[0]), ops[1..])
  }

  /**
   Every cached first page, at any point of any admissible run, is the page a fresh query with the same limit returns.
   */
  lemma {:induction false} CacheStaysCoherent(s: Store, ops: seq<Op>)
    requires Good(s) && AdmissibleRun(s, ops)
    ensures Good(DoAll(s, ops))
    decreases |ops|
  {
    if ops != [] {
      DoKeepsGood(s, ops[0]);
      CacheStaysCoherent(Do(s, ops[0]), ops[1..]);
    }
  }

  /** One row later on: same post, parent and time, and never brought back from deletion. */
  predicate RowKept(t: Table, t': Table, c: Id)
    requires c in t
  {
    && c in t'
    && t'[c].createdAt == t[c].createdAt && t'[c].parent == t[c].parent && t'[c].postId == t[c].postId
    && (t[c].isDeleted ==> t'[c].isDeleted)
  }

  ghost predicate Persists(s: Store, s': Store) {
    && s.clock <= s'.clock
    && (forall c | c in s.comments :: RowKept(s.comments, s'.comments, c))
    && (forall c | c in s'.comments && c !in s.comments :: s'.comments[c].createdAt >= s.clock)
  }

  lemma PersistsOn(s: Store, mid: Store, s': Store)
    requires Persists(s, mid) && Persists(mid, s')
    ensures Persists(s, s')
  {
    forall c | c in s.comments ensures RowKept(s.comments, s'.comments, c) {
      assert RowKept(s.comments, mid.comments, c) && RowKept(mid.comments, s'.comments, c);
    }
    forall c | c in s'.comments && c !in s.comments ensures s'.comments[c].createdAt >= s.clock {
      if c in mid.comments { assert RowKept(mid.comments, s'.comments, c); }
    }
  }

  /** Rows never leave the table, keep their post, parent and time, and later rows are not older than the clock was. */
  lemma {:induction false} RowsPersist(s: Store, ops: seq<Op>)
    requires Valid(s) && AdmissibleRun(s, ops)
    ensures Valid(DoAll(s, ops)) && Persists(s, DoAll(s, ops))
    decreases |ops|
  {
    if ops != [] {
      DoKeepsValid(s, ops[0]);
      OpPersists(s, ops[0]);
      RowsPersist(Do(s, ops[0]), ops[1..]);
      PersistsOn(s, Do(s, ops[0]), DoAll(s, ops));
    }
  }

  ghost predicate RowsKept(t: Table, t': Table) {
    forall c | c in t :: RowKept(t, t', c)
  }

  lemma BumpKeepsRows(t: Table, t': Table, root: Id, delta: int)
    requires RowsKept(t, t') && root in t'
    ensures RowsKept(t, Bump(t', root, delta)) && Bump(t', root, delta).Keys == t'.Keys
    ensures forall c | c in t' :: Bump(t', root, delta)[c].createdAt == t'[c].createdAt
  {
    forall c | c in t ensures RowKept(t, Bump(t', root, delta), c) {
      assert RowKept(t, t', c);
    }
  }

  lemma CreatePersists(s: Store, id: Id, postId: int, parentId: Option<Id>, userId: int, now: int)
    requires Valid(s) && id !in s.comments && s.clock <= now && CreateOn(s, id, postId, parentId, userId, now).Ok?
    ensures Persists(s, CreateOn(s, id, postId, parentId, userId, now).value)
  {
    var parent := ActualParent(s.comments, parentId);
    var row := NewComment(s, postId, parent, userId, now);
    var inserted := s.comments[id := row];
    InsertKeepsWellFormed(s, id, row);
    if parent.Some? { BumpKeepsRows(s.comments, inserted, RootOf(inserted, parent.value), 1); }
  }

  lemma RemovePersists(s: Store, id: Id, userId: int)
    requires Valid(s) && RemoveOn(s, id, userId).Ok?
    ensures Persists(s, RemoveOn(s, id, userId).value)
  {
    var row := s.comments[id].(isDeleted := true);
    var marked := s.comments[id := row];
    if row.parent.Some? { BumpKeepsRows(s.comments, marked, RootOf(marked, row.parent.value), -1); }
  }

  lemma TogglePersists(s: Store, id: Id, userId: int, like: bool)
    requires Valid(s)
    ensures var r := if like then LikeOn(s, id, userId) else DislikeOn(s, id, userId); r.Ok? ==> Persists(s, r.value.0)
  {
  }

  lemma OpPersists(s: Store, op: Op)
    requires Valid(s) && Admissible(s, op)
    ensures Persists(s, Do(s, op))
  {
    match op
    case CreateOp(id, postId, parentId, userId, now) =>
      if CreateOn(s, id, postId, parentId, userId, now).Ok? { CreatePersists(s, id, postId, parentId, userId, now); }
    case RemoveOp(id, userId) =>
      if RemoveOn(s, id, userId).Ok? { RemovePersists(s, id, userId); }
    case LikeOp(id, userId) => TogglePersists(s, id, userId, true);
    case DislikeOp(id, userId) => TogglePersists(s, id, userId, false);
    case ReadOp(_, _, _, _, _, _) =>
  }

  // ---- Paging while the store is used ----

  /** Between one read and the next of a paging client, any requests may be served. */
  ghost predicate AdmissibleReads(s: Store, between: seq<seq<Op>>)
    requires Valid(s)
    decreases |between|
  {
    between != [] ==>
      AdmissibleRun(s, between[0]) && (RowsPersist(s, between[0]); AdmissibleReads(DoAll(s, between[0]), between[1..]))
  }

  /** The tables its reads see. */
  ghost function Reads(s: Store, between: seq<seq<Op>>): (tables: seq<Table>)
    requires Valid(s) && AdmissibleReads(s, between)
    ensures |tables| == |between| + 1 && tables[0] == s.comments
    decreases |between|
  {
    [s.comments] + if between == [] then [] else (RowsPersist(s, between[0]); Reads(DoAll(s, between[0]), between[1..]))
  }

  lemma {:induction false} ReadsKeepRows(s: Store, between: seq<seq<Op>>, now: int, i: nat, c: Id)
    requires Valid(s) && AdmissibleReads(s, between) && now < s.clock
    requires i < |Reads(s, between)| && c in Reads(s, between)[i] && Reads(s, between)[i][c].createdAt <= now
    ensures c in s.comments && s.comments[c].createdAt == Reads(s, between)[i][c].createdAt
    decreases |between|
  {
    if i > 0 {
      RowsPersist(s, between[0]);
      var n := DoAll(s, between[0]);
      assert Reads(s, between)[i] == Reads(n, between[1..])[i - 1];
      ReadsKeepRows(n, between[1..], now, i - 1, c);
      assert c in s.comments ==> RowKept(s.comments, n.comments, c);
    }
  }

  /**
   What `WalkEnds` needs of the tables holds of every use of the store: when the first read is made at `now` and the
   requests after it come in later milliseconds, every comment met later was there already or is strictly newer.
   */
  lemma {:induction false} StoreReadsAreLater(s: Store, between: seq<seq<Op>>, now: int)
    requires Valid(s) && s.clock <= now && AdmissibleReads(s.(clock := now + 1), between)
    ensures NewRowsAreLater(Reads(s.(clock := now + 1), between), now)
    ensures forall c | c in s.comments :: s.comments[c].createdAt <= now
  {
    var tables: seq<Table> := Reads(s.(clock := now + 1), between);
    forall i: nat, c: Id | i < |tables| && c in tables[i] && tables[i][c].createdAt <= now
      ensures c in tables[0] && tables[0][c].createdAt == tables[i][c].createdAt
    {
      ReadsKeepRows(s.(clock := now + 1), between, now, i, c);
    }
  }

  // ---- The two assumptions about requests are needed, and exactly when ----

  /** Some cached first page shows the comment. */
  ghost predicate ShownInCache(s: Store, root: Id)
    requires root in s.comments
  {
    exists k | k in s.cache :: k.postId == s.comments[root].postId && OnPage(s.cache[k].page, root)
  }

  /** `t'` is `t` with another reply count on `root`, as far as parents of the post go. */
  ghost predicate CountMoved(t: Table, t': Table, postId: int, root: Id) {
    && ParentOf(t, postId, root) && ParentOf(t', postId, root)
    && t'[root] == t[root].(repliesCount := t'[root].repliesCount) && t'[root].repliesCount != t[root].repliesCount
    && forall c | c in t || c in t' ::
         (ParentOf(t, postId, c) <==> ParentOf(t', postId, c))
             && (ParentOf(t, postId, c) && c != root ==> t[c] == t'[c])
  }

  lemma CountMovedSameKeys(t: Table, t': Table, postId: int, sort: Sort, root: Id)
    requires CountMoved(t, t', postId, root)
    ensures QueryKeys(t, postId, sort, NoCursor, None) == QueryKeys(t', postId, sort, NoCursor, None)
    ensures forall k | k in QueryKeys(t, postId, sort, NoCursor, None) :: ParentOf(t, postId, k.id)
  {
    forall k ensures k in QueryKeys(t, postId, sort, NoCursor, None) <==>
        k in QueryKeys(t', postId, sort, NoCursor, None) {
      if k in QueryKeys(t, postId, sort, NoCursor, None) {
        assert ParentOf(t, postId, k.id);
      }
      if k in QueryKeys(t', postId, sort, NoCursor, None) {
        assert ParentOf(t', postId, k.id);
      }
    }
  }

  /** A moved reply count changes the page exactly when the page shows the comment. */
  lemma {:induction false} CountMovedShows(t: Table, t': Table, postId: int, sort: Sort, limit: nat, root: Id)
    requires CountMoved(t, t', postId, root)
    ensures FreshPage(t', postId, sort, limit) == FreshPage(t, postId, sort, limit) <==>
        !OnPage(FreshPage(t, postId, sort, limit), root)
  {
    CountMovedSameKeys(t, t', postId, sort, root);
    var keys := QueryKeys(t, postId, sort, NoCursor, None);
    FetchedAreKeys(keys, limit);
    var items := PageFrom(Take(Desc(KeyLess, keys), limit + 1), limit).items;
    var before, after := Entries(t, items), Entries(t', items);
    assert FreshPage(t, postId, sort, limit).comments == before && FreshPage(t', postId, sort, limit).comments == after;
    if OnPage(FreshPage(t, postId, sort, limit), root) {
      var e :| e in before && e.id == root;
      var i :| 0 <= i < |before| && before[i] == e;
      assert items[i].id == root;
      assert before[i].repliesCount != after[i].repliesCount;
    } else {
      forall i | 0 <= i < |items| ensures before[i] == after[i] {
        assert items[i] in items && before[i] in before;
      }
      assert before == after;
    }
  }

  /** What creating a reply does to the parents of each post. */
  lemma ReplyMovesRoot(s: Store, id: Id, postId: int, parentId: Id, userId: int, now: int)
    requires Valid(s) && id !in s.comments
    requires parentId in s.comments && CreateOn(s, id, postId, Some(parentId), userId, now).Ok?
    ensures var t, t', root := s.comments, CreateOn(s, id, postId, Some(parentId), userId, now).value.comments,
        RootOf(s.comments, parentId);
            && CountMoved(t, t', t[root].postId, root)
            && (forall other | other != t[root].postId :: SameParents(t, t', other))
  {
    var parent := ActualParent(s.comments, Some(parentId));
    var row := NewComment(s, postId, parent, userId, now);
    InsertKeepsWellFormed(s, id, row);
    LinksDecideRoot(s.comments, s.comments[id := row], parent.value);
    RootOfParent(s.comments, parentId);
  }

  /**
   The service does not check that a reply names the post of the comment it answers.  After a reply is created the cache
   is coherent exactly when it does, or no cached page shows the root whose count moved.
   */
  lemma {:induction false} CrossPostReplyCoherence(s: Store, id: Id, postId: int, parentId: Id, userId: int, now: int)
    requires Valid(s) && Coherent(s) && id !in s.comments && s.clock <= now
    requires parentId in s.comments && CreateOn(s, id, postId, Some(parentId), userId, now).Ok?
    ensures var root := RootOf(s.comments, parentId);
            Coherent(CreateOn(s, id, postId, Some(parentId), userId, now).value)
            <==> s.comments[root].postId == postId || !ShownInCache(s, root)
  {
    var s' := CreateOn(s, id, postId, Some(parentId), userId, now).value;
    var root := RootOf(s.comments, parentId);
    ReplyMovesRoot(s, id, postId, parentId, userId, now);
    MovedCountCoherence(s, s', postId, root);
  }

  lemma {:induction false} MovedCountCoherence(s: Store, s': Store, postId: int, root: Id)
    requires Coherent(s) && root in s.comments && s'.cache == Invalidate(s.cache, postId)
    requires CountMoved(s.comments, s'.comments, s.comments[root].postId, root)
    requires forall other | other != s.comments[root].postId :: SameParents(s.comments, s'.comments, other)
    ensures Coherent(s') <==> s.comments[root].postId == postId || !ShownInCache(s, root)
  {
    var home := s.comments[root].postId;
    if home == postId {
      InvalidationSuffices(s, s', postId);
    } else {
      forall k | k in s'.cache
        ensures (s'.cache[k].page == FreshPage(s'.comments, k.postId, k.sort, s'.cache[k].limit)
                 <==> !(k.postId == home && OnPage(s.cache[k].page, root)))
      {
        if k.postId == home {
          CountMovedShows(s.comments, s'.comments, home, k.sort, s.cache[k].limit, root);
        } else {
          PageDependsOnOwnParents(s.comments, s'.comments, k.postId, k.sort, s.cache[k].limit);
        }
      }
      assert forall k | k in s.cache && k.postId == home :: k in s'.cache;
    }
  }

  lemma PageFromTake<T>(sorted: seq<T>, limit: nat)
    ensures var page := PageFrom(Take(sorted, limit + 1), limit);
            && page.items == Take(sorted, limit)
            && page.hasNext == (|sorted| > limit)
            && page.next == (if |sorted| > limit >= 1 then Some(sorted[limit - 1]) else None)
  {
  }

  lemma EntriesNameKeys(t: Table, a: seq<Key>, b: seq<Key>)
    requires Entries(t, a) == Entries(t, b)
    requires forall k | k in a + b :: k.id in t && k == KeyOf(POPULAR, k.id, t[k.id])
    ensures a == b
  {
    assert |a| == |Entries(t, a)| == |Entries(t, b)| == |b|;
    forall i | 0 <= i < |a| ensures a[i] == b[i] {
      assert a[i] in a + b && b[i] in a + b;
      assert Entries(t, a)[i].id == Entries(t, b)[i].id;
    }
  }

  /** The first rows and the has-more flag of the full list survive the cut at `snapshot`. */
  ghost predicate CutKeepsFirstPage(t: Table, postId: int, limit: nat, snapshot: int)
    requires StrictTotal(KeyLess)
  {
    var all, cut := QueryKeys(t, postId, POPULAR, NoCursor, None),
        QueryKeys(t, postId, POPULAR, NoCursor, Some(snapshot));
    && (forall k | k in Take(Desc(KeyLess, all), limit) :: k.createdAt <= snapshot)
    && (|all| > limit ==> |cut| > limit)
  }

  lemma CutIsSubset(t: Table, postId: int, snapshot: int)
    ensures var all, cut := QueryKeys(t, postId, POPULAR, NoCursor, None),
        QueryKeys(t, postId, POPULAR, NoCursor, Some(snapshot));
            && cut <= all && |cut| <= |all|
            && (forall k | k in all :: k in cut <==> k.createdAt <= snapshot)
            && (forall k | k in all :: k.id in t && k == KeyOf(POPULAR, k.id, t[k.id]))
  {
    var all, cut := QueryKeys(t, postId, POPULAR, NoCursor, None),
        QueryKeys(t, postId, POPULAR, NoCursor, Some(snapshot));
    forall k | k in all ensures k in cut <==> k.createdAt <= snapshot {
      var c :| c in t && Listed(t, postId, None, c) && KeyOf(POPULAR, c, t[c]) == k;
      assert k.createdAt <= snapshot ==> Listed(t, postId, Some(snapshot), c);
    }
    SizeMonotone(cut, all);
  }

  lemma SamePage<T>(a: seq<T>, c: seq<T>, limit: nat)
    requires limit >= 1 && Take(a, limit) == Take(c, limit) && (|a| > limit <==> |c| > limit)
    ensures PageFrom(Take(a, limit + 1), limit) == PageFrom(Take(c, limit + 1), limit)
  {
    PageFromTake(a, limit);
    PageFromTake(c, limit);
    if |c| > limit {
      assert Take(c, limit)[limit - 1] == c[limit - 1] && Take(a, limit)[limit - 1] == a[limit - 1];
    }
  }

  /** A cut that keeps the first rows of the list leaves the first page as it was. */
  lemma {:induction false} CutKeepsTop<T(!new)>(lt: (T, T) -> bool, all: set<T>, cut: set<T>, limit: nat)
    requires StrictTotal(lt) && limit >= 1 && cut <= all && (|all| > limit <==> |cut| > limit)
    requires forall x | x in Take(Desc(lt, all), limit) :: x in cut
    ensures PageFrom(Take(Desc(lt, cut), limit + 1), limit) == PageFrom(Take(Desc(lt, all), limit + 1), limit)
  {
    PrefixSurvives(lt, all, cut, limit);
    SamePage(Desc(lt, cut), Desc(lt, all), limit);
  }

  lemma KeptRow(t: Table, postId: int, limit: nat, snapshot: int, x: Key)
    requires StrictTotal(KeyLess) && CutKeepsFirstPage(t, postId, limit, snapshot)
    requires x in Take(Desc(KeyLess, QueryKeys(t, postId, POPULAR, NoCursor, None)), limit)
    ensures x in QueryKeys(t, postId, POPULAR, NoCursor, Some(snapshot))
  {
    CutIsSubset(t, postId, snapshot);
    TakeWithin(Desc(KeyLess, QueryKeys(t, postId, POPULAR, NoCursor, None)), limit);
  }

  lemma {:induction false} KeptCutPage(t: Table, postId: int, limit: nat, snapshot: int, all: set<Key>, cut: set<Key>)
    requires limit >= 1 && StrictTotal(KeyLess) && CutKeepsFirstPage(t, postId, limit, snapshot)
    requires all == QueryKeys(t, postId, POPULAR, NoCursor, None)
        && cut == QueryKeys(t, postId, POPULAR, NoCursor, Some(snapshot))
    ensures PageFrom(Take(Desc(KeyLess, cut), limit + 1), limit) == PageFrom(Take(Desc(KeyLess, all), limit + 1), limit)
  {
    CutIsSubset(t, postId, snapshot);
    forall x | x in Take(Desc(KeyLess, all), limit) ensures x in cut {
      KeptRow(t, postId, limit, snapshot, x);
    }
    CutKeepsTop(KeyLess, all, cut, limit);
  }

  lemma {:induction false} KeptCutIsFresh(t: Table, postId: int, limit: nat, snapshot: int)
    requires limit >= 1 && StrictTotal(KeyLess) && CutKeepsFirstPage(t, postId, limit, snapshot)
    ensures ParentPageOf(t, postId, POPULAR, NoCursor, limit, Some(snapshot)) == FreshPage(t, postId, POPULAR, limit)
  {
    KeptCutPage(t, postId, limit, snapshot, QueryKeys(t, postId, POPULAR, NoCursor, None),
                QueryKeys(t, postId, POPULAR, NoCursor, Some(snapshot)));
  }

  lemma {:induction false} FreshCutIsKept(t: Table, postId: int, limit: nat, snapshot: int)
    requires limit >= 1 && StrictTotal(KeyLess)
    requires ParentPageOf(t, postId, POPULAR, NoCursor, limit, Some(snapshot)) == FreshPage(t, postId, POPULAR, limit)
    ensures CutKeepsFirstPage(t, postId, limit, snapshot)
  {
    var all, cut := QueryKeys(t, postId, POPULAR, NoCursor, None),
        QueryKeys(t, postId, POPULAR, NoCursor, Some(snapshot));
    CutIsSubset(t, postId, snapshot);
    var a, c := Desc(KeyLess, all), Desc(KeyLess, cut);
    PageFromTake(a, limit);
    PageFromTake(c, limit);
    TakeWithin(a, limit);
    TakeWithin(c, limit);
    assert Entries(t, Take(c, limit)) == Entries(t, Take(a, limit));
    EntriesNameKeys(t, Take(c, limit), Take(a, limit));
  }

  /** A first page cut at a client's own snapshot equals the uncut page exactly under `CutKeepsFirstPage`. */
  lemma {:induction false} CutPageIsFreshIff(t: Table, postId: int, limit: nat, snapshot: int)
    requires limit >= 1
    ensures StrictTotal(KeyLess)
    ensures ParentPageOf(t, postId, POPULAR, NoCursor, limit, Some(snapshot)) == FreshPage(t, postId, POPULAR, limit)
            <==> CutKeepsFirstPage(t, postId, limit, snapshot)
  {
    KeyOrder();
    if CutKeepsFirstPage(t, postId, limit, snapshot) {
      KeptCutIsFresh(t, postId, limit, snapshot);
    }
    if ParentPageOf(t, postId, POPULAR, NoCursor, limit, Some(snapshot)) == FreshPage(t, postId, POPULAR, limit) {
      FreshCutIsKept(t, postId, limit, snapshot);
    }
  }

  lemma TakeWithin<T(!new)>(s: seq<T>, n: nat)
    ensures forall x | x in Take(s, n) :: x in s
  {
  }

  /** So a popular first page that a client asks for with its own snapshot leaves the cache coherent exactly then. */
  lemma {:induction false} OwnSnapshotCoherence(s: Store, postId: int, limit: nat, snapshot: int, now: int)
    requires Coherent(s) && limit >= 1 && CacheKey(postId, POPULAR) !in s.cache
    ensures StrictTotal(KeyLess)
    ensures Coherent(ReadOn(s, postId, NoCursor, limit, POPULAR, Some(snapshot), now).1)
            <==> CutKeepsFirstPage(s.comments, postId, limit, snapshot)
  {
    CutPageIsFreshIff(s.comments, postId, limit, snapshot);
    var s' := ReadOn(s, postId, NoCursor, limit, POPULAR, Some(snapshot), now).1;
    var key := CacheKey(postId, POPULAR);
    assert s'.cache[key] == Cached(ParentPageOf(s.comments, postId, POPULAR, NoCursor, limit, Some(snapshot)), limit);
    assert forall k | k in s'.cache && k != key :: s'.cache[k] == s.cache[k];
  }

  // ---- Runs that reach the failures ----

  const NEW_STORE := Store(map[0 := true, 1 := true], map[], map[], map[], 0, 0)

  const FIRST_ROW := Comment(0, None, 7, false, 0, 0, 0, 1, 0)

  /** Comment 10 on post 0, written at time 1. */
  lemma FirstComment()
    ensures Valid(NEW_STORE) && Coherent(NEW_STORE) && Admissible(NEW_STORE, CreateOp(10, 0, None, 7, 1))
    ensures var s := Do(NEW_STORE, CreateOp(10, 0, None, 7, 1));
            s == NEW_STORE.(comments := map[10 := FIRST_ROW], clock := 1, born := 1) && Valid(s) && Coherent(s)
  {
    assert Invalidate(map[], 0) == map[];
  }

  lemma OnlyKeyShown(rows: set<Key>, k: Key, limit: nat)
    requires limit >= 1 && StrictTotal(KeyLess) && rows == {k}
    ensures PageOf(KeyLess, rows, None, limit).items == [k]
  {
    assert Visible(KeyLess, rows, None) == rows;
    assert |Desc(KeyLess, rows)| == 1 && Desc(KeyLess, rows)[0] in rows;
  }

  lemma FirstPageShowsIt(t: Table, limit: nat)
    requires limit >= 1 && t == map[10 := FIRST_ROW]
    ensures OnPage(FreshPage(t, 0, RECENT, limit), 10)
  {
    PageIsWindow(t, 0, RECENT, NoCursor, limit, None);
    KeyOrder();
    KeyListed(t, 0, RECENT, None, 10);
    assert ListKeys(t, 0, RECENT, None) == {Key(0, 1, 10)};
    OnlyKeyShown(ListKeys(t, 0, RECENT, None), Key(0, 1, 10), limit);
    assert FreshPage(t, 0, RECENT, limit).comments == Entries(t, [Key(0, 1, 10)]);
    assert FreshPage(t, 0, RECENT, limit).comments[0].id == 10;
  }

  /** Its post's first page is read and cached. */
  lemma {:induction false} FirstPageCached(s: Store, limit: nat)
    requires limit >= 1 && s == NEW_STORE.(comments := map[10 := FIRST_ROW], clock := 1, born := 1)
    ensures Valid(s) && Admissible(s, ReadOp(0, NoCursor, limit, RECENT, None, 2))
    ensures var n := Do(s, ReadOp(0, NoCursor, limit, RECENT, None, 2));
            && n.posts == s.posts && n.comments == s.comments && n.clock == s.clock && n.born == s.born
            && Valid(n) && Coherent(n) && ShownInCache(n, 10)
  {
    assert PostsAgree(s.comments);
    ReadKeepsGood(s, ReadOp(0, NoCursor, limit, RECENT, None, 2));
    var n := Do(s, ReadOp(0, NoCursor, limit, RECENT, None, 2));
    FirstPageShowsIt(s.comments, limit);
    assert n.cache[CacheKey(0, RECENT)].page == FreshPage(s.comments, 0, RECENT, limit);
    assert CacheKey(0, RECENT) in n.cache;
  }

  /**
   The page of post 0 is read and cached, then comment 10 is answered under post 1: the cached reply count is out of
   date.
   */
  lemma {:induction false} CrossPostReplyRun(limit: nat)
    requires limit >= 1
    ensures var s1 := Do(NEW_STORE, CreateOp(10, 0, None, 7, 1));
            Valid(s1) && Admissible(s1, ReadOp(0, NoCursor, limit, RECENT, None, 2))
            && var s2 := Do(s1, ReadOp(0, NoCursor, limit, RECENT, None, 2));
               && Valid(s2) && Coherent(s2) && CreateOn(s2, 11, 1, Some(10), 8, 3).Ok?
               && !Coherent(CreateOn(s2, 11, 1, Some(10), 8, 3).value)
  {
    FirstComment();
    var s1 := Do(NEW_STORE, CreateOp(10, 0, None, 7, 1));
    FirstPageCached(s1, limit);
    var s2 := Do(s1, ReadOp(0, NoCursor, limit, RECENT, None, 2));
    CrossReplyLands(s2);
  }

  lemma CrossReplyAccepted(s: Store)
    requires Valid(s) && s.posts == NEW_STORE.posts && s.comments == map[10 := FIRST_ROW]
    ensures CreateOn(s, 11, 1, Some(10), 8, 3).Ok? && RootOf(s.comments, 10) == 10
  {
    assert s.comments[10] == FIRST_ROW;
  }

  lemma {:induction false} CrossReplyBreaks(s: Store, after: Store)
    requires Valid(s) && Coherent(s) && 11 !in s.comments && 10 in s.comments && s.clock <= 3 && ShownInCache(s, 10)
    requires CreateOn(s, 11, 1, Some(10), 8, 3) == Ok(after)
    requires RootOf(s.comments, 10) == 10 && s.comments[10].postId != 1
    ensures !Coherent(after)
  {
    CrossPostReplyCoherence(s, 11, 1, 10, 8, 3);
  }

  lemma {:induction false} CrossReplyLands(s: Store)
    requires Valid(s) && Coherent(s) && s.posts == NEW_STORE.posts && s.comments == map[10 := FIRST_ROW] && s.clock == 1
    requires ShownInCache(s, 10)
    ensures CreateOn(s, 11, 1, Some(10), 8, 3).Ok? && !Coherent(CreateOn(s, 11, 1, Some(10), 8, 3).value)
  {
    CrossReplyAccepted(s);
    CrossReplyBreaks(s, CreateOn(s, 11, 1, Some(10), 8, 3).value);
  }

  /** The popular page of post 0 is asked for with a snapshot from before comment 10: the cache is left without it. */
  lemma {:induction false} OwnSnapshotRun(limit: nat)
    requires limit >= 1
    ensures var s1 := Do(NEW_STORE, CreateOp(10, 0, None, 7, 1));
            Coherent(s1) && !Coherent(ReadOn(s1, 0, NoCursor, limit, POPULAR, Some(0), 2).1)
  {
    FirstComment();
    var s1 := Do(NEW_STORE, CreateOp(10, 0, None, 7, 1));
    KeyOrder();
    var all := QueryKeys(s1.comments, 0, POPULAR, NoCursor, None);
    assert Key(0, 1, 10) in all;
    assert Desc(KeyLess, all)[0] in all;
    assert Take(Desc(KeyLess, all), limit)[0] == Desc(KeyLess, all)[0] == Key(0, 1, 10);
    OwnSnapshotCoherence(s1, 0, limit, 0, 2);
  }
}
