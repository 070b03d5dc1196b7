/**
 Which comment requests are refused and what an accepted one changes, said of the fields of the store.
 */
module CommentRules {
  import opened Wrappers
  import opened CommentTable
  import opened CommentPages
  import opened Reactions
  import opened CommentStore

  /** The rows of `t`, unchanged but for the reply counter of the root. */
  predicate RootCountMoves(t: Table, t': Table, root: Id, delta: int) {
    forall c | c in t ::
      c in t' && t'[c] == if c == root then t[c].(repliesCount := t[c].repliesCount + delta) else t[c]
  }

  // ---- Creating ----

  /** What a comment answers in the end: the parent itself, or what the parent answers. */
  function Attached(t: Table, parentId: Option<Id>): Option<Id> {
    if parentId == None then None
    else if parentId.value in t && t[parentId.value].parent != None then t[parentId.value].parent
    else parentId
  }

  /** Exactly when a create is refused, and with which error. */
  lemma CreateRefusedIff(s: Store, id: Id, postId: int, parentId: Option<Id>, userId: int, now: int)
    requires Valid(s) && id !in s.comments
    ensures var r := CreateOn(s, id, postId, parentId, userId, now);
            && (r == Err(PostNotFound) <==> postId !in s.posts)
            && (r == Err(CommentsDisabled) <==> postId in s.posts && s.posts[postId] == false)
            && (r == Err(UnknownParent) <==>
                  postId in s.posts && s.posts[postId] == true && parentId != None && parentId.value !in s.comments)
            && (r.Ok? <==>
                  postId in s.posts && s.posts[postId] == true && (parentId == None || parentId.value in s.comments))
  {
    if parentId.Some? && parentId.value in s.comments && s.comments[parentId.value].parent.Some? {
      RootOfParent(s.comments, parentId.value);
    }
  }

  /**
   An accepted create adds one row, which says what was asked and starts with nothing; of the other rows one changes,
   the root above the new comment, and only in its reply counter; and the cached first pages of the post are dropped.
   */
  lemma CreateAddsOneRow(s: Store, id: Id, postId: int, parentId: Option<Id>, userId: int, now: int)
    requires Valid(s) && id !in s.comments && CreateOn(s, id, postId, parentId, userId, now).Ok?
    ensures var n, parent := CreateOn(s, id, postId, parentId, userId, now).value, Attached(s.comments, parentId);
            && n.posts == s.posts && n.likes == s.likes && n.clock == now && n.born == s.born + 1
            && n.comments.Keys == s.comments.Keys + {id}
            && n.comments[id] == Comment(postId, parent, userId, false, 0, 0, 0, now, s.born)
            && (parent == None ==> forall c | c in s.comments :: n.comments[c] == s.comments[c])
            && (parent != None ==>
                  && parent.value in s.comments
                  && RootCountMoves(s.comments, n.comments, RootOf(s.comments, parent.value), 1))
            && (forall k :: k in n.cache <==> k in s.cache && k.postId != postId)
            && (forall k | k in n.cache :: n.cache[k] == s.cache[k])
  {
    var parent := ReplyCounters.ActualParent(s.comments, parentId);
    if parent.Some? {
      var row := NewComment(s, postId, parent, userId, now);
      InsertKeepsWellFormed(s, id, row);
      assert SameLinks(s.comments, s.comments[id := row]);
      LinksDecideRoot(s.comments, s.comments[id := row], parent.value);
    }
    InvalidatedKeys(s, postId);
  }

  lemma InvalidatedKeys(s: Store, postId: int)
    ensures forall k :: k in Invalidate(s.cache, postId) <==> k in s.cache && k.postId != postId
    ensures forall k | k in Invalidate(s.cache, postId) :: Invalidate(s.cache, postId)[k] == s.cache[k]
  {
    forall k: CacheKey ensures k.postId == postId <==> k in {CacheKey(postId, RECENT), CacheKey(postId, POPULAR)} {
      assert k.sort == RECENT || k.sort == POPULAR;
    }
  }

  // ---- Runs carry requests out ----

  /** One step of a run is the request it names, carried through or refused without a trace. */
  lemma DoIsRequest(s: Store, op: Op)
    requires Valid(s) && Admissible(s, op)
    ensures match op
            case CreateOp(id, postId, parentId, userId, now) =>
              CreateOn(s, id, postId, parentId, userId, now) == Ok(Do(s, op))
              || (CreateOn(s, id, postId, parentId, userId, now).Err? && Do(s, op) == s)
            case RemoveOp(id, userId) =>
              RemoveOn(s, id, userId) == Ok(Do(s, op)) || (RemoveOn(s, id, userId).Err? && Do(s, op) == s)
            case LikeOp(id, userId) =>
              (LikeOn(s, id, userId).Ok? && LikeOn(s, id, userId).value.0 == Do(s, op))
              || (LikeOn(s, id, userId).Err? && Do(s, op) == s)
            case DislikeOp(id, userId) =>
              (DislikeOn(s, id, userId).Ok? && DislikeOn(s, id, userId).value.0 == Do(s, op))
              || (DislikeOn(s, id, userId).Err? && Do(s, op) == s)
            case ReadOp(postId, cursor, limit, sort, snapshot, now) =>
              Do(s, op).comments == s.comments && Do(s, op).likes == s.likes && Do(s, op).posts == s.posts
                  && Do(s, op).cache == ReadOn(s, postId, cursor, limit, sort, snapshot, now).1.cache
  {
  }

  // ---- Only posts that allow comments have any ----

  ghost predicate OnlyWhereAllowed(s: Store) {
    forall c | c in s.comments :: s.comments[c].postId in s.posts && s.posts[s.comments[c].postId] == true
  }

  lemma DoKeepsAllowed(s: Store, op: Op)
    requires Valid(s) && Admissible(s, op) && OnlyWhereAllowed(s)
    ensures OnlyWhereAllowed(Do(s, op)) && Do(s, op).posts == s.posts
  {
    match op
    case CreateOp(id, postId, parentId, userId, now) =>
      CreateRefusedIff(s, id, postId, parentId, userId, now);
      if CreateOn(s, id, postId, parentId, userId, now).Ok? {
        CreateAddsOneRow(s, id, postId, parentId, userId, now);
      }
    case RemoveOp(id, userId) =>
      if RemoveOn(s, id, userId).Ok? { RemoveMarksOneRow(s, id, userId); }
    case _ =>
  }

  /** Over every run: posts stay as they are, and no comment is on a post whose blog does not allow comments. */
  lemma {:induction false} RunKeepsAllowed(s: Store, ops: seq<Op>)
    requires Valid(s) && OnlyWhereAllowed(s) && AdmissibleRun(s, ops)
    ensures OnlyWhereAllowed(DoAll(s, ops)) && DoAll(s, ops).posts == s.posts
    decreases |ops|
  {
    if ops != [] {
      DoKeepsValid(s, ops[0]);
      DoKeepsAllowed(s, ops[0]);
      RunKeepsAllowed(Do(s, ops[0]), ops[1..]);
    }
  }

  // ---- Removing ----

  /** Exactly when a remove is refused, and with which error: only the author may. */
  lemma RemoveRefusedIff(s: Store, id: Id, userId: int)
    requires Valid(s)
    ensures var r := RemoveOn(s, id, userId);
            && (r == Err(NotFound) <==> id !in s.comments)
            && (r == Err(NotAuthor) <==> id in s.comments && s.comments[id].authorId != userId)
            && (r.Ok? <==> id in s.comments && s.comments[id].authorId == userId)
  {
  }

  /**
   An accepted remove keeps every row; the comment is marked and nothing else of it changes, of the others only the
   reply counter of the root above it does, and the two cached first pages of its post are dropped.
   */
  lemma RemoveMarksOneRow(s: Store, id: Id, userId: int)
    requires Valid(s) && RemoveOn(s, id, userId).Ok?
    ensures var n, row := RemoveOn(s, id, userId).value, s.comments[id];
            && n.posts == s.posts && n.likes == s.likes && n.clock == s.clock && n.born == s.born
            && n.comments.Keys == s.comments.Keys
            && n.comments[id] == row.(isDeleted := true)
            && (row.parent == None ==> forall c | c in s.comments && c != id :: n.comments[c] == s.comments[c])
            && (row.parent != None ==>
                  RootCountMoves(s.comments - {id}, n.comments, RootOf(s.comments, row.parent.value), -1))
            && (forall k :: k in n.cache <==> k in s.cache && k.postId != row.postId)
            && (forall k | k in n.cache :: n.cache[k] == s.cache[k])
  {
    var marked := s.comments[id := s.comments[id].(isDeleted := true)];
    if s.comments[id].parent.Some? {
      var parent := s.comments[id].parent.value;
      assert SameLinks(s.comments, marked);
      LinksDecideRoot(s.comments, marked, parent);
      RootOfParent(s.comments, id);
    }
    InvalidatedKeys(s, s.comments[id].postId);
  }

  // ---- Liking and disliking ----

  /** One press of one button: that user's row on that comment, the comment's two counters, and the cached pages. */
  ghost predicate Pressed(s: Store, n: Store, v: Vote, kind: LikeType, answer: Answer) {
    && n.posts == s.posts && n.clock == s.clock && n.born == s.born
    && v.commentId in s.comments && n.comments.Keys == s.comments.Keys
    && (if v in s.likes && s.likes[v] == kind then n.likes == s.likes - {v} else n.likes == s.likes[v := kind])
    && n.comments[v.commentId] ==
         s.comments[v.commentId].(likesCount := answer.likesCount, dislikesCount := answer.dislikesCount)
    && (forall c | c in s.comments && c != v.commentId :: n.comments[c] == s.comments[c])
    && (forall k :: k in n.cache <==> k in s.cache && k.postId != s.comments[v.commentId].postId)
    && (forall k | k in n.cache :: n.cache[k] == s.cache[k])
    && answer.on == !(v in s.likes && s.likes[v] == kind)
  }

  /** A toggle is refused exactly for an absent comment; otherwise it presses its button and nothing else. */
  lemma TogglesPress(s: Store, v: Vote)
    ensures var like, dislike := LikeOn(s, v.commentId, v.userId), DislikeOn(s, v.commentId, v.userId);
            && (v.commentId !in s.comments ==> like == Err(NotFound) && dislike == Err(NotFound))
            && (v.commentId in s.comments ==> like.Ok? && Pressed(s, like.value.0, v, LIKE, like.value.1))
            && (v.commentId in s.comments ==> dislike.Ok? && Pressed(s, dislike.value.0, v, DISLIKE, dislike.value.1))
  {
    assert Vote(v.commentId, v.userId) == v;
    if v.commentId in s.comments {
      InvalidatedKeys(s, s.comments[v.commentId].postId);
    }
  }
}
