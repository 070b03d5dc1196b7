/**
 The follow graph: one row per pair, and two counters per user kept beside it.
 */
module Follows {
  import opened Wrappers

  datatype User = User(followerCount: nat, followingCount: nat)

  datatype FollowRow = FollowRow(id: int, followerId: int, followingId: int, createdAt: int)

  datatype State = State(users: map<int, User>, follows: map<int, FollowRow>)

  datatype Error = SelfFollow | UserNotFound | AlreadyFollowing | NotFollowing

  predicate IsFollow(s: State, id: int, follower: int, following: int) {
    id in s.follows && s.follows[id].followerId == follower && s.follows[id].followingId == following
  }

  function BumpFollowers(users: map<int, User>, u: int): map<int, User> {
    if u in users then users[u := users[u].(followerCount := users[u].followerCount + 1)] else users
  }

  function BumpFollowing(users: map<int, User>, u: int): map<int, User> {
    if u in users then users[u := users[u].(followingCount := users[u].followingCount + 1)] else users
  }

  /** Decrements are conditional: a counter at zero stays there. */
  function DropFollowers(users: map<int, User>, u: int): map<int, User> {
    if u in users && users[u].followerCount > 0
        then users[u := users[u].(followerCount := users[u].followerCount - 1)] else users
  }

  function DropFollowing(users: map<int, User>, u: int): map<int, User> {
    if u in users && users[u].followingCount > 0
        then users[u := users[u].(followingCount := users[u].followingCount - 1)] else users
  }

  ghost function FollowError(s: State, follower: int, following: int): Option<Error> {
    if follower == following then Some(SelfFollow)
    else if follower !in s.users || following !in s.users then Some(UserNotFound)
    else if exists id :: IsFollow(s, id, follower, following) then Some(AlreadyFollowing)
    else None
  }

  function Followed(s: State, follower: int, following: int, id: int, now: int): State {
    State(BumpFollowing(BumpFollowers(s.users, following), follower),
        s.follows[id := FollowRow(id, follower, following, now)])
  }

  function Unfollowed(s: State, id: int): State
    requires id in s.follows
  {
    State(DropFollowing(DropFollowers(s.users, s.follows[id].followingId), s.follows[id].followerId), s.follows - {id})
  }

  // ---- What following does ----

  /** Exactly when a follow is refused, and with which error. */
  lemma FollowRefusedIff(s: State, follower: int, following: int)
    ensures var r := FollowError(s, follower, following);
            var already := exists id ::
                id in s.follows && s.follows[id].followerId == follower && s.follows[id].followingId == following;
            r == (if follower == following then Some(SelfFollow)
                  else if !(follower in s.users) || !(following in s.users) then Some(UserNotFound)
                  else if already then Some(AlreadyFollowing)
                  else None)
  {
    if id :| IsFollow(s, id, follower, following) {
      assert id in s.follows && s.follows[id].followerId == follower && s.follows[id].followingId == following;
    }
    if id :| id in s.follows && s.follows[id].followerId == follower && s.follows[id].followingId == following {
      assert IsFollow(s, id, follower, following);
    }
  }

  /** An accepted follow adds one dated row from the follower to the followed, and one to a counter of each. */
  lemma FollowMeans(s: State, follower: int, following: int, id: int, now: int)
    requires FollowError(s, follower, following).None? && id !in s.follows
    ensures var n := Followed(s, follower, following, id, now);
            && n.follows == s.follows[id := FollowRow(id, follower, following, now)]
            && n.users.Keys == s.users.Keys
            && (forall u | u in s.users :: n.users[u] ==
                  User(s.users[u].followerCount + (if u == following then 1 else 0),
                       s.users[u].followingCount + (if u == follower then 1 else 0)))
  {
  }

  /** Taking a row back takes one from the same two counters, while they are above zero, and changes nothing else. */
  lemma UnfollowMeans(s: State, id: int)
    requires id in s.follows && s.follows[id].followerId != s.follows[id].followingId
    ensures var n, row := Unfollowed(s, id), s.follows[id];
            && (forall other :: other in n.follows <==> other in s.follows && other != id)
            && (forall other | other in n.follows :: n.follows[other] == s.follows[other])
            && n.users.Keys == s.users.Keys
            && (forall u | u in s.users ::
                  var before := s.users[u];
                  n.users[u] ==
                    User(before.followerCount - (if u == row.followingId && before.followerCount > 0 then 1 else 0),
                         before.followingCount - (if u == row.followerId && before.followingCount > 0 then 1 else 0)))
  {
  }

  // ---- Counters are degrees ----

  function Followers(s: State, u: int): set<int> {
    set id | id in s.follows && s.follows[id].followingId == u
  }

  function Following(s: State, u: int): set<int> {
    set id | id in s.follows && s.follows[id].followerId == u
  }

  predicate RowOk(s: State, id: int)
    requires id in s.follows
  {
    var row := s.follows[id];
    row.id == id && row.followerId in s.users && row.followingId in s.users && row.followerId != row.followingId
  }

  ghost predicate Exact(s: State) {
    && (forall u | u in s.users ::
        s.users[u].followerCount == |Followers(s, u)|
        && s.users[u].followingCount == |Following(s, u)|)
    && (forall id | id in s.follows :: RowOk(s, id))
    && (forall a, b | a in s.follows && b in s.follows && a != b ::
          s.follows[a].followerId != s.follows[b].followerId || s.follows[a].followingId != s.follows[b].followingId)
  }

  lemma OneMoreFollower(s: State, row: FollowRow, id: int, n: State, u: int)
    requires id !in s.follows && n.follows == s.follows[id := row]
    ensures Followers(n, u) == if u == row.followingId then Followers(s, u) + {id} else Followers(s, u)
    ensures Following(n, u) == if u == row.followerId then Following(s, u) + {id} else Following(s, u)
  {
  }

  lemma FollowedDegrees(s: State, follower: int, following: int, id: int, now: int, u: int)
    requires id !in s.follows
    ensures |Followers(Followed(s, follower, following, id, now), u)| == |Followers(s, u)| + if u == following
        then 1 else 0
    ensures |Following(Followed(s, follower, following, id, now), u)| == |Following(s, u)| + if u == follower
        then 1 else 0
  {
    var n := Followed(s, follower, following, id, now);
    OneMoreFollower(s, FollowRow(id, follower, following, now), id, n, u);
  }

  lemma FollowedExact(s: State, follower: int, following: int, id: int, now: int)
    requires Exact(s) && FollowError(s, follower, following).None? && id !in s.follows
    ensures Exact(Followed(s, follower, following, id, now))
  {
    var n := Followed(s, follower, following, id, now);
    forall u ensures |Followers(n, u)| == |Followers(s, u)| + (if u == following then 1 else 0)
                  && |Following(n, u)| == |Following(s, u)| + (if u == follower then 1 else 0) {
      FollowedDegrees(s, follower, following, id, now, u);
    }
    forall a | a in n.follows ensures RowOk(n, a) {
      if a != id { assert RowOk(s, a); }
    }
    forall a | a in s.follows ensures s.follows[a].followerId != follower || s.follows[a].followingId != following {
      assert !IsFollow(s, a, follower, following);
    }
  }

  lemma UnfollowedDegrees(s: State, id: int, u: int)
    requires id in s.follows
    ensures |Followers(Unfollowed(s, id), u)| == |Followers(s, u)| - if u == s.follows[id].followingId then 1 else 0
    ensures |Following(Unfollowed(s, id), u)| == |Following(s, u)| - if u == s.follows[id].followerId then 1 else 0
  {
    var n, row := Unfollowed(s, id), s.follows[id];
    assert Followers(n, u) == if u == row.followingId then Followers(s, u) - {id} else Followers(s, u);
    assert Following(n, u) == if u == row.followerId then Following(s, u) - {id} else Following(s, u);
  }

  /** Removing a row takes one from both degrees; the guard against negative counters never bites. */
  lemma UnfollowedExact(s: State, id: int)
    requires Exact(s) && id in s.follows
    ensures Exact(Unfollowed(s, id))
    ensures s.users[s.follows[id].followingId].followerCount > 0 && s.users[s.follows[id].followerId].followingCount > 0
  {
    var n, row := Unfollowed(s, id), s.follows[id];
    assert RowOk(s, id);
    forall u ensures |Followers(n, u)| == |Followers(s, u)| - (if u == row.followingId then 1 else 0)
                  && |Following(n, u)| == |Following(s, u)| - (if u == row.followerId then 1 else 0) {
      UnfollowedDegrees(s, id, u);
    }
    assert id in Followers(s, row.followingId) && id in Following(s, row.followerId);
    forall a | a in n.follows ensures RowOk(n, a) {
      assert RowOk(s, a);
    }
  }

  lemma JoinedExact(s: State, user: int)
    requires Exact(s) && user !in s.users
    ensures Exact(s.(users := s.users[user := User(0, 0)]))
  {
    var n := s.(users := s.users[user := User(0, 0)]);
    forall id | id in s.follows ensures RowOk(s, id) && RowOk(n, id) {}
    forall u ensures Followers(n, u) == Followers(s, u) && Following(n, u) == Following(s, u) {}
    forall id | id in s.follows ensures s.follows[id].followingId != user && s.follows[id].followerId != user {
      assert RowOk(s, id);
    }
    assert Followers(s, user) == {} && Following(s, user) == {};
  }

  // ---- Runs ----

  datatype Event =
    | Join(user: int)
    | FollowUser(follower: int, following: int, id: int, now: int)
    | UnfollowUser(follower: int, following: int, row: int)

  /** Row ids are fresh; an unfollow finds its row when there is one. */
  ghost predicate Enabled(s: State, e: Event) {
    match e
    case Join(user) => user !in s.users
    case FollowUser(_, _, id, _) => id !in s.follows
    case UnfollowUser(follower, following, row) => (exists id :: IsFollow(s, id, follower, following)) ==>
        IsFollow(s, row, follower, following)
  }

  ghost function Step(s: State, e: Event): State {
    match e
    case Join(user) => s.(users := s.users[user := User(0, 0)])
    case FollowUser(follower, following, id, now) =>
      if FollowError(s, follower, following).None? then Followed(s, follower, following, id, now) else s
    case UnfollowUser(follower, following, row) =>
      if IsFollow(s, row, follower, following) then Unfollowed(s, row) else s
  }

  ghost predicate Possible(s: State, events: seq<Event>)
    decreases |events|
  {
    events == [] || (Enabled(s, events[0]) && Possible(Step(s, events[0]), events[1..]))
  }

  ghost function Run(s: State, events: seq<Event>): State
    decreases |events|
  {
    if events == [] then s else Run(Step(s, events[0]), events[1..])
  }

  lemma StepExact(s: State, e: Event)
    requires Exact(s) && Enabled(s, e)
    ensures Exact(Step(s, e))
  {
    match e
    case Join(user) =>
      JoinedExact(s, user);
    case FollowUser(follower, following, id, now) =>
      if FollowError(s, follower, following).None? { FollowedExact(s, follower, following, id, now); }
    case UnfollowUser(follower, following, row) =>
      if IsFollow(s, row, follower, following) { UnfollowedExact(s, row); }
  }

  /** Over every run of follows, unfollows and refused requests the counters equal in-degree and out-degree. */
  lemma {:induction false} CountersAreDegrees(s: State, events: seq<Event>)
    requires Exact(s) && Possible(s, events)
    ensures Exact(Run(s, events))
    decreases |events|
  {
    if events != [] {
      StepExact(s, events[0]);
      CountersAreDegrees(Step(s, events[0]), events[1..]);
    }
  }

  // ---- Who follows whom, over runs ----

  ghost predicate Edge(s: State, a: int, b: int) {
    exists id :: id in s.follows && s.follows[id].followerId == a && s.follows[id].followingId == b
  }

  /** The request goes through: two different users that both exist. */
  predicate Allowed(s: State, a: int, b: int) {
    a != b && a in s.users && b in s.users
  }

  /** Joining adds a user with nothing to count; following and unfollowing decide the edge of their own pair. */
  lemma StepEdges(s: State, e: Event, a: int, b: int)
    requires Exact(s) && Enabled(s, e)
    ensures var n := Step(s, e);
            && n.users.Keys == s.users.Keys + (if e.Join? then {e.user} else {})
            && (e.Join? ==> n.users[e.user] == User(0, 0) && n.follows == s.follows)
            && (Edge(n, a, b) <==>
                  if e.FollowUser? && e.follower == a && e.following == b then Edge(s, a, b) || Allowed(s, a, b)
                  else if e.UnfollowUser? && e.follower == a && e.following == b then false
                  else Edge(s, a, b))
  {
    match e
    case Join(user) =>
    case FollowUser(follower, following, id, now) => FollowEdges(s, e, a, b);
    case UnfollowUser(follower, following, row) => UnfollowEdges(s, e, a, b);
  }

  lemma FollowEdges(s: State, e: Event, a: int, b: int)
    requires Exact(s) && Enabled(s, e) && e.FollowUser?
    ensures Step(s, e).users.Keys == s.users.Keys
    ensures Edge(Step(s, e), a, b) <==>
            Edge(s, a, b) || (e.follower == a && e.following == b && Allowed(s, a, b))
  {
    FollowRefusedIff(s, e.follower, e.following);
    if FollowError(s, e.follower, e.following).None? {
      var n := Step(s, e);
      FollowMeans(s, e.follower, e.following, e.id, e.now);
      assert n.follows[e.id] == FollowRow(e.id, e.follower, e.following, e.now);
      if id :| id in s.follows && s.follows[id].followerId == a && s.follows[id].followingId == b {
        assert id in n.follows && n.follows[id] == s.follows[id];
      }
    }
  }

  lemma UnfollowEdges(s: State, e: Event, a: int, b: int)
    requires Exact(s) && Enabled(s, e) && e.UnfollowUser?
    ensures Step(s, e).users.Keys == s.users.Keys
    ensures Edge(Step(s, e), a, b) <==> Edge(s, a, b) && !(e.follower == a && e.following == b)
  {
    var n := Step(s, e);
    if IsFollow(s, e.row, e.follower, e.following) {
      assert RowOk(s, e.row);
      UnfollowMeans(s, e.row);
      if Edge(s, a, b) && !(e.follower == a && e.following == b) {
        var id :| id in s.follows && s.follows[id].followerId == a && s.follows[id].followingId == b;
        assert id in n.follows;
      }
    } else if Edge(s, e.follower, e.following) {
      var id :| id in s.follows && s.follows[id].followerId == e.follower && s.follows[id].followingId == e.following;
      assert IsFollow(s, id, e.follower, e.following);
    }
  }

  /** Whether the last request of the pair that went through was a follow; `before` is for a run without one. */
  ghost function LastWord(s: State, events: seq<Event>, a: int, b: int, before: bool): bool
    decreases |events|
  {
    if events == [] then before
    else
      var e := events[0];
      LastWord(Step(s, e), events[1..], a, b,
          if e.FollowUser? && e.follower == a && e.following == b then before || Allowed(s, a, b)
          else if e.UnfollowUser? && e.follower == a && e.following == b then false
          else before)
  }

  /** Over every run one user follows another exactly as the pair's own last request left it. */
  lemma {:induction false} EdgesOverRuns(s: State, events: seq<Event>, a: int, b: int)
    requires Exact(s) && Possible(s, events)
    ensures Edge(Run(s, events), a, b) <==> LastWord(s, events, a, b, Edge(s, a, b))
    decreases |events|
  {
    if events != [] {
      StepEdges(s, events[0], a, b);
      StepExact(s, events[0]);
      EdgesOverRuns(Step(s, events[0]), events[1..], a, b);
    }
  }

  // ---- The service ----

  class FollowsService {
    var users: map<int, User>
    var follows: map<int, FollowRow>

    constructor ()
      ensures Contents() == State(map[], map[]) && Exact(Contents())
    {
      users, follows := map[], map[];
    }

    function Contents(): State
      reads this
    {
      State(users, follows)
    }

    method Follow(followerId: int, followingId: int, id: int, now: int) returns (error: Option<Error>)
      modifies this
      ensures error == FollowError(old(Contents()), followerId, followingId)
      ensures Contents() == if error.None? then Followed(old(Contents()), followerId, followingId, id, now)
          else old(Contents())
    {
      if followerId == followingId {
        return Some(SelfFollow);
      }
      if followerId !in users || followingId !in users {
        return Some(UserNotFound);
      }
      if row :| row in follows && follows[row].followerId == followerId && follows[row].followingId == followingId {
        assert IsFollow(Contents(), row, followerId, followingId);
        return Some(AlreadyFollowing);
      }
      assert forall row :: !IsFollow(Contents(), row, followerId, followingId);
      follows := follows[id := FollowRow(id, followerId, followingId, now)];
      users := users[followingId := users[followingId].(followerCount := users[followingId].followerCount + 1)];
      users := users[followerId := users[followerId].(followingCount := users[followerId].followingCount + 1)];
      error := None;
    }

    method Unfollow(followerId: int, followingId: int) returns (error: Option<Error>)
      modifies this
      ensures error == Some(NotFollowing) || error.None?
      ensures error.Some? <==> forall id :: !IsFollow(old(Contents()), id, followerId, followingId)
      ensures error.Some? ==> Contents() == old(Contents())
      ensures error.None? ==> exists id ::
                IsFollow(old(Contents()), id, followerId, followingId) && Contents() == Unfollowed(old(Contents()), id)
    {
      ghost var s := Contents();
      if row :| row in follows && follows[row].followerId == followerId && follows[row].followingId == followingId {
        assert IsFollow(s, row, followerId, followingId);
        follows := follows - {row};
        if followingId in users && users[followingId].followerCount > 0 {
          users := users[followingId := users[followingId].(followerCount := users[followingId].followerCount - 1)];
        }
        if followerId in users && users[followerId].followingCount > 0 {
          users := users[followerId := users[followerId].(followingCount := users[followerId].followingCount - 1)];
        }
        return None;
      }
      assert forall id :: !IsFollow(s, id, followerId, followingId);
      error := Some(NotFollowing);
    }
  }
}
