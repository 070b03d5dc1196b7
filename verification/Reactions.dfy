/**
 Like and dislike toggles.  A toggle is one transaction under a row lock: it inserts, flips or removes the
 reaction row of one user on one comment and moves two derived counters on the comment.
 */
module Reactions {
  import opened Wrappers
  import opened CommentTable

  datatype LikeType = LIKE | DISLIKE

  datatype Vote = Vote(commentId: Id, userId: int)

  /** The comment rows and the reaction rows; the reaction table is unique in (comment, user). */
  datatype Board = Board(comments: Table, likes: map<Vote, LikeType>)

  datatype Answer = Answer(on: bool, likesCount: int, dislikesCount: int)

  datatype ToggleError = CommentNotFound

  function Max0(n: int): int {
    if n < 0 then 0 else n
  }

  function WithCounts(b: Board, commentId: Id, likes: map<Vote, LikeType>, likesCount: int, dislikesCount: int): Board
    requires commentId in b.comments
  {
    Board(b.comments[commentId := b.comments[commentId].(likesCount := likesCount, dislikesCount := dislikesCount)],
        likes)
  }

  function ToggleLike(b: Board, commentId: Id, userId: int): Result<(Board, Answer), ToggleError> {
    if commentId !in b.comments then Err(CommentNotFound)
    else
      var v, c := Vote(commentId, userId), b.comments[commentId];
      if v in b.likes && b.likes[v] == LIKE then
        var n := Max0(c.likesCount - 1);
        Ok((WithCounts(b, commentId, b.likes - {v}, n, c.dislikesCount), Answer(false, n, c.dislikesCount)))
      else if v in b.likes then
        var n, m := c.likesCount + 1, Max0(c.dislikesCount - 1);
        Ok((WithCounts(b, commentId, b.likes[v := LIKE], n, m), Answer(true, n, m)))
      else
        var n := c.likesCount + 1;
        Ok((WithCounts(b, commentId, b.likes[v := LIKE], n, c.dislikesCount), Answer(true, n, c.dislikesCount)))
  }

  function ToggleDislike(b: Board, commentId: Id, userId: int): Result<(Board, Answer), ToggleError> {
    if commentId !in b.comments then Err(CommentNotFound)
    else
      var v, c := Vote(commentId, userId), b.comments[commentId];
      if v in b.likes && b.likes[v] == DISLIKE then
        var m := Max0(c.dislikesCount - 1);
        Ok((WithCounts(b, commentId, b.likes - {v}, c.likesCount, m), Answer(false, c.likesCount, m)))
      else if v in b.likes then
        var n, m := Max0(c.likesCount - 1), c.dislikesCount + 1;
        Ok((WithCounts(b, commentId, b.likes[v := DISLIKE], n, m), Answer(true, n, m)))
      else
        var m := c.dislikesCount + 1;
        Ok((WithCounts(b, commentId, b.likes[v := DISLIKE], c.likesCount, m), Answer(true, c.likesCount, m)))
  }

  datatype Toggle = Toggle(vote: Vote, kind: LikeType)

  function Apply(b: Board, t: Toggle): Board {
    var r := if t.kind == LIKE then ToggleLike(b, t.vote.commentId, t.vote.userId)
             else ToggleDislike(b, t.vote.commentId, t.vote.userId);
    if r.Ok? then r.value.0 else b
  }

  function ApplyAll(b: Board, ts: seq<Toggle>): Board
    decreases |ts|
  {
    if ts == [] then b else ApplyAll(Apply(b, ts[0]), ts[1..])
  }

  // ---- What the toggles mean ----

  /** Reaction rows of one kind on one comment. */
  ghost function Voters(likes: map<Vote, LikeType>, commentId: Id, kind: LikeType): set<Vote> {
    set v | v in likes && v.commentId == commentId && likes[v] == kind
  }

  /** The derived counters count the reaction rows. */
  ghost predicate Exact(b: Board) {
    forall c | c in b.comments :: ExactAt(b, c)
  }

  /** One user's reaction to one comment, as that user sees the buttons. */
  function Reaction(likes: map<Vote, LikeType>, v: Vote): Option<LikeType> {
    if v in likes then Some(likes[v]) else None
  }

  /** Pressing the lit button switches it off; pressing any other lights that one. */
  function Press(before: Option<LikeType>, kind: LikeType): Option<LikeType> {
    if before == Some(kind) then None else Some(kind)
  }

  lemma VotersAfter(likes: map<Vote, LikeType>, v: Vote, kind: LikeType, c: Id, k: LikeType)
    ensures Voters(likes[v := kind], c, k) ==
            if v.commentId == c && kind == k then Voters(likes, c, k) + {v} else Voters(likes, c, k) - {v}
    ensures Voters(likes - {v}, c, k) == Voters(likes, c, k) - {v}
    ensures v in Voters(likes, c, k) <==> v.commentId == c && Reaction(likes, v) == Some(k)
  {
  }

  ghost predicate ExactAt(b: Board, c: Id)
    requires c in b.comments
  {
    && b.comments[c].likesCount == |Voters(b.likes, c, LIKE)|
    && b.comments[c].dislikesCount == |Voters(b.likes, c, DISLIKE)|
  }

  /** The answer says what the board now holds: whether the pressed button is lit, and both counters. */
  predicate AnswersFor(board: Board, answer: Answer, v: Vote, kind: LikeType) {
    && v.commentId in board.comments
    && (answer.on <==> v in board.likes && board.likes[v] == kind)
    && answer.likesCount == board.comments[v.commentId].likesCount
    && answer.dislikesCount == board.comments[v.commentId].dislikesCount
  }

  /** A toggle fails only for a comment that is not there, and is answered with the final board. */
  lemma ToggleAnswers(b: Board, v: Vote)
    ensures var like, dislike := ToggleLike(b, v.commentId, v.userId), ToggleDislike(b, v.commentId, v.userId);
            && (like.Ok? <==> v.commentId in b.comments) && (dislike.Ok? <==> v.commentId in b.comments)
            && (like.Ok? ==> AnswersFor(like.value.0, like.value.1, v, LIKE))
            && (dislike.Ok? ==> AnswersFor(dislike.value.0, dislike.value.1, v, DISLIKE))
  {
    assert Vote(v.commentId, v.userId) == v;
  }

  /**
   What each press does to the counters, on any board: one more or one less of the kind pressed, one less of the other
   kind when it is replaced, and never below zero.
   */
  lemma ToggleCounts(b: Board, v: Vote)
    requires v.commentId in b.comments && b.comments[v.commentId].likesCount >= 0
    requires b.comments[v.commentId].dislikesCount >= 0
    ensures var before, lit := b.comments[v.commentId], if v in b.likes then Some(b.likes[v]) else None;
            var like := ToggleLike(b, v.commentId, v.userId).value.0.comments[v.commentId];
            var dislike := ToggleDislike(b, v.commentId, v.userId).value.0.comments[v.commentId];
            && like.likesCount == (if lit != Some(LIKE) then before.likesCount + 1
                                   else if before.likesCount > 0 then before.likesCount - 1 else 0)
            && like.dislikesCount == (if lit == Some(DISLIKE) && before.dislikesCount > 0 then before.dislikesCount - 1
                                      else before.dislikesCount)
            && dislike.dislikesCount == (if lit != Some(DISLIKE) then before.dislikesCount + 1
                                         else if before.dislikesCount > 0 then before.dislikesCount - 1 else 0)
            && dislike.likesCount == (if lit == Some(LIKE) && before.likesCount > 0 then before.likesCount - 1
                                      else before.likesCount)
  {
    assert Vote(v.commentId, v.userId) == v;
  }

  lemma CountsMove(b: Board, v: Vote, likes: map<Vote, LikeType>, n: int, m: int, c: Id)
    requires Exact(b) && v.commentId in b.comments && c in b.comments
    requires c == v.commentId ==> n == |Voters(likes, c, LIKE)| && m == |Voters(likes, c, DISLIKE)|
    requires forall k :: c != v.commentId ==> Voters(likes, c, k) == Voters(b.likes, c, k)
    ensures ExactAt(WithCounts(b, v.commentId, likes, n, m), c)
  {
  }

  lemma LikeExactAt(b: Board, v: Vote, c: Id)
    requires Exact(b) && v.commentId in b.comments && c in b.comments
    ensures ExactAt(ToggleLike(b, v.commentId, v.userId).value.0, c)
  {
    VotersAfter(b.likes, v, LIKE, c, LIKE);
    VotersAfter(b.likes, v, LIKE, c, DISLIKE);
    assert Vote(v.commentId, v.userId) == v;
    var likes := ToggleLike(b, v.commentId, v.userId).value.0.likes;
    forall k ensures c != v.commentId ==> Voters(likes, c, k) == Voters(b.likes, c, k) {
      VotersAfter(b.likes, v, LIKE, c, k);
    }
    if v in b.likes { ClampNeverBites(b, v); }
    var after := ToggleLike(b, v.commentId, v.userId).value.0.comments[v.commentId];
    CountsMove(b, v, likes, after.likesCount, after.dislikesCount, c);
  }

  lemma DislikeExactAt(b: Board, v: Vote, c: Id)
    requires Exact(b) && v.commentId in b.comments && c in b.comments
    ensures ExactAt(ToggleDislike(b, v.commentId, v.userId).value.0, c)
  {
    VotersAfter(b.likes, v, DISLIKE, c, LIKE);
    VotersAfter(b.likes, v, DISLIKE, c, DISLIKE);
    assert Vote(v.commentId, v.userId) == v;
    var likes := ToggleDislike(b, v.commentId, v.userId).value.0.likes;
    forall k ensures c != v.commentId ==> Voters(likes, c, k) == Voters(b.likes, c, k) {
      VotersAfter(b.likes, v, DISLIKE, c, k);
    }
    if v in b.likes { ClampNeverBites(b, v); }
    var after := ToggleDislike(b, v.commentId, v.userId).value.0.comments[v.commentId];
    CountsMove(b, v, likes, after.likesCount, after.dislikesCount, c);
  }

  /** A toggle presses one button: no other reaction moves, no other comment moves, and the counters stay exact. */
  lemma ToggleMeaning(b: Board, t: Toggle)
    requires Exact(b) && t.vote.commentId in b.comments
    ensures var b' := Apply(b, t);
            && Exact(b')
            && Reaction(b'.likes, t.vote) == Press(Reaction(b.likes, t.vote), t.kind)
            && (forall v | v != t.vote :: Reaction(b'.likes, v) == Reaction(b.likes, v))
            && b'.comments.Keys == b.comments.Keys
            && (forall c | c in b.comments ::
                  b'.comments[c] == b.comments[c].(likesCount := b'.comments[c].likesCount,
                      dislikesCount := b'.comments[c].dislikesCount))
  {
    var b' := Apply(b, t);
    assert Vote(t.vote.commentId, t.vote.userId) == t.vote;
    forall c | c in b'.comments ensures ExactAt(b', c) {
      if t.kind == LIKE { LikeExactAt(b, t.vote, c); } else { DislikeExactAt(b, t.vote, c); }
    }
    assert forall c | c in b'.comments :: ExactAt(b', c);
  }

  /** While the counters are exact, clamping a decrement at zero never changes it. */
  lemma ClampNeverBites(b: Board, v: Vote)
    requires Exact(b) && v.commentId in b.comments && v in b.likes
    ensures var c := b.comments[v.commentId];
            && (b.likes[v] == LIKE ==> Max0(c.likesCount - 1) == c.likesCount - 1)
            && (b.likes[v] == DISLIKE ==> Max0(c.dislikesCount - 1) == c.dislikesCount - 1)
  {
    assert v in Voters(b.likes, v.commentId, b.likes[v]);
  }

  /** The presses of one user on one comment, in order. */
  function PressesOf(ts: seq<Toggle>, v: Vote): seq<LikeType> {
    if ts == [] then []
    else (if ts[0].vote == v then [ts[0].kind] else []) + PressesOf(ts[1..], v)
  }

  function PressAll(before: Option<LikeType>, kinds: seq<LikeType>): Option<LikeType>
    decreases |kinds|
  {
    if kinds == [] then before else PressAll(Press(before, kinds[0]), kinds[1..])
  }

  /** After any run, counters are exact and each user's reaction is decided by that user's own presses. */
  lemma {:induction false} RunMeaning(b: Board, ts: seq<Toggle>, v: Vote)
    requires Exact(b) && v.commentId in b.comments
    ensures var b' := ApplyAll(b, ts);
            && Exact(b')
            && b'.comments.Keys == b.comments.Keys
            && Reaction(b'.likes, v) == PressAll(Reaction(b.likes, v), PressesOf(ts, v))
            && (forall c | c in b.comments ::
                  b'.comments[c] == b.comments[c].(likesCount := b'.comments[c].likesCount,
                      dislikesCount := b'.comments[c].dislikesCount))
    decreases |ts|
  {
    if ts != [] {
      var t := ts[0];
      if t.vote.commentId in b.comments {
        ToggleMeaning(b, t);
      }
      RunMeaning(Apply(b, t), ts[1..], v);
      if t.vote == v {
        assert PressesOf(ts, v)[1..] == PressesOf(ts[1..], v);
      } else {
        assert PressesOf(ts, v) == PressesOf(ts[1..], v);
      }
    }
  }

  ghost predicate VotesOnComments(b: Board) {
    forall v | v in b.likes :: v.commentId in b.comments
  }

  lemma {:induction false} RunKeepsVotesOnComments(b: Board, ts: seq<Toggle>)
    requires VotesOnComments(b)
    ensures VotesOnComments(ApplyAll(b, ts))
    decreases |ts|
  {
    if ts != [] {
      RunKeepsVotesOnComments(Apply(b, ts[0]), ts[1..]);
    }
  }

  /**
   Interleaving does not matter: two schedules in which every user presses the same buttons in the same order
   end in the same board, rows and counters alike.
   */
  lemma ScheduleIrrelevant(b: Board, ts: seq<Toggle>, us: seq<Toggle>)
    requires Exact(b) && VotesOnComments(b)
    requires forall v: Vote :: PressesOf(ts, v) == PressesOf(us, v)
    ensures ApplyAll(b, ts) == ApplyAll(b, us)
  {
    var x, y := ApplyAll(b, ts), ApplyAll(b, us);
    RunKeepsVotesOnComments(b, ts);
    RunKeepsVotesOnComments(b, us);
    BoardKeys(b, ts);
    BoardKeys(b, us);
    forall v ensures Reaction(x.likes, v) == Reaction(y.likes, v) {
      if v.commentId in b.comments {
        RunMeaning(b, ts, v);
        RunMeaning(b, us, v);
      }
    }
    assert forall v :: (v in x.likes <==> v in y.likes) by {
      forall v ensures v in x.likes <==> v in y.likes {
        assert Reaction(x.likes, v) == Reaction(y.likes, v);
      }
    }
    forall v | v in x.likes ensures x.likes[v] == y.likes[v] {
      assert Reaction(x.likes, v) == Reaction(y.likes, v);
    }
    assert x.likes == y.likes;
    forall c | c in b.comments ensures x.comments[c] == y.comments[c] {
      RunMeaning(b, ts, Vote(c, 0));
      RunMeaning(b, us, Vote(c, 0));
    }
    assert x.comments == y.comments;
  }

  lemma {:induction false} BoardKeys(b: Board, ts: seq<Toggle>)
    ensures ApplyAll(b, ts).comments.Keys == b.comments.Keys
    decreases |ts|
  {
    if ts != [] {
      BoardKeys(Apply(b, ts[0]), ts[1..]);
    }
  }

  /** Toggles of different users, or on different comments, commute. */
  lemma {:induction false} TogglesCommute(b: Board, t: Toggle, u: Toggle)
    requires Exact(b) && VotesOnComments(b) && t.vote != u.vote
    ensures Apply(Apply(b, t), u) == Apply(Apply(b, u), t)
  {
    forall v: Vote ensures PressesOf([t, u], v) == PressesOf([u, t], v) {
      assert [t, u][1..] == [u] && [u, t][1..] == [t];
      assert PressesOf([t], v) == if t.vote == v then [t.kind] else [];
      assert PressesOf([u], v) == if u.vote == v then [u.kind] else [];
    }
    ScheduleIrrelevant(b, [t, u], [u, t]);
    assert [t, u][1..] == [u] && [u, t][1..] == [t];
    assert ApplyAll(Apply(b, t), [u]) == Apply(Apply(b, t), u);
    assert ApplyAll(Apply(b, u), [t]) == Apply(Apply(b, u), t);
  }
}
