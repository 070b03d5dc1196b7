/**
 The incrementally kept `repliesCount`.  Creating or removing a comment is not one transaction: the parent
 is looked up, the row is written, and only later is the counter of the root bumped.  The machine below
 interleaves these steps of any number of requests.  The increment a request still owes is named by
 the comment it created, and the decrement by the comment it removed.
 */
module ReplyCounters {
  import opened Wrappers
  import opened CommentTable

  datatype Draft = Draft(postId: int, authorId: int, parent: Option<Id>)

  datatype System = System(
    comments: Table,
    drafts: multiset<Draft>,
    increments: set<Id>,
    decrements: multiset<Id>,
    born: nat)

  datatype Event =
    | Resolve(postId: int, authorId: int, parentId: Option<Id>)
    | Insert(draft: Draft, id: Id, now: int)
    | Increment(child: Id)
    | Remove(id: Id, userId: int)
    | Decrement(child: Id)
    | React(id: Id, likes: nat, dislikes: nat)

  /** A reply to a reply is attached to the parent of that reply. */
  function ActualParent(t: Table, parentId: Option<Id>): Option<Id> {
    match parentId
    case None => None
    case Some(p) => if p in t && t[p].parent.Some? then t[p].parent else Some(p)
  }

  /** Adds `delta` to the reply counter of one row. */
  function Bump(t: Table, root: Id, delta: int): Table
    requires root in t
  {
    t[root := t[root].(repliesCount := t[root].repliesCount + delta)]
  }

  /** Generated ids are new: neither a row nor a request already names them. */
  ghost predicate FreshId(s: System, id: Id) {
    id !in s.comments && forall d | d in s.drafts :: d.parent != Some(id)
  }

  ghost predicate Sound(s: System) {
    && WellFormed(s.comments)
    && (forall c | c in s.comments :: s.comments[c].born < s.born)
    && (forall c | c in s.increments :: c in s.comments && s.comments[c].parent.Some?)
    && (forall c | c in s.decrements :: c in s.comments && s.comments[c].parent.Some? && s.comments[c].isDeleted)
  }

  /** One step.  A step that the service refuses leaves the system as it was. */
  ghost function Step(s: System, e: Event): System
    requires Sound(s)
  {
    match e
    case Resolve(postId, authorId, parentId) =>
      s.(drafts := s.drafts + multiset{Draft(postId, authorId, ActualParent(s.comments, parentId))})
    case Insert(draft, id, now) =>
      if draft !in s.drafts then s
      else if draft.parent.Some? && draft.parent.value !in s.comments then
        s.(drafts := s.drafts - multiset{draft})          // the foreign key rejects the row
      else if !FreshId(s, id) then s
      else
        System(
          s.comments[id := Comment(draft.postId, draft.parent, draft.authorId, false, 0, 0, 0, now, s.born)],
          s.drafts - multiset{draft},
          if draft.parent.Some? then s.increments + {id} else s.increments,
          s.decrements,
          s.born + 1)
    case Increment(child) =>
      if child !in s.increments then s
      else s.(comments := Bump(s.comments, RootOf(s.comments, s.comments[child].parent.value), 1),
              increments := s.increments - {child})
    case Remove(id, userId) =>
      if id !in s.comments || s.comments[id].authorId != userId then s
      else s.(comments := s.comments[id := s.comments[id].(isDeleted := true)],
              decrements := if s.comments[id].parent.Some? then s.decrements + multiset{id} else s.decrements)
    case Decrement(child) =>
      if child !in s.decrements then s
      else s.(comments := Bump(s.comments, RootOf(s.comments, s.comments[child].parent.value), -1),
              decrements := s.decrements - multiset{child})
    case React(id, likes, dislikes) =>
      if id !in s.comments then s
      else s.(comments := s.comments[id := s.comments[id].(likesCount := likes, dislikesCount := dislikes)])
  }

  /** An insert uses up one copy of its draft, unless its id is taken; the row it writes says what the draft says. */
  lemma InsertMeans(s: System, draft: Draft, id: Id, now: int)
    requires Sound(s) && draft in s.drafts
    ensures var n := Step(s, Insert(draft, id, now));
            var attached := draft.parent == None || draft.parent.value in s.comments;
            && (!attached ==> n == s.(drafts := s.drafts[draft := s.drafts[draft] - 1]))
            && (attached && !FreshId(s, id) ==> n == s)
            && (attached && FreshId(s, id) ==>
                  && n.drafts == s.drafts[draft := s.drafts[draft] - 1]
                  && n.comments == s.comments[
                       id := Comment(draft.postId, draft.parent, draft.authorId, false, 0, 0, 0, now, s.born)])
  {
  }

  /** Reactions set the two counters of their comment and nothing else. */
  lemma ReactMeans(s: System, id: Id, likes: nat, dislikes: nat)
    requires Sound(s)
    ensures var n := Step(s, React(id, likes, dislikes));
            && n.comments.Keys == s.comments.Keys && n.drafts == s.drafts
            && n.increments == s.increments && n.decrements == s.decrements
            && forall c | c in s.comments ::
                 n.comments[c] == if c == id then s.comments[c].(likesCount := likes, dislikesCount := dislikes)
                                  else s.comments[c]
  {
  }

  /** `remove` does not look at `isDeleted`; the counter law needs that nobody removes a removed comment. */
  ghost predicate RemovesLive(s: System, e: Event) {
    e.Remove? && e.id in s.comments && s.comments[e.id].authorId == e.userId ==> !s.comments[e.id].isDeleted
  }

  /** Counter plus increments owed minus decrements owed is the number of live comments below the root. */
  ghost predicate Balanced(t: Table, increments: set<Id>, decrements: multiset<Id>, root: Id)
    requires WellFormed(t) && root in t
  {
    t[root].repliesCount + |PendingBelow(t, increments, root)| - |OwedBelow(t, decrements, root)|
      == |LiveDescendants(t, root)|
  }

  ghost predicate ConservedAt(s: System, root: Id)
    requires WellFormed(s.comments) && root in s.comments
  {
    Balanced(s.comments, s.increments, s.decrements, root)
  }

  ghost predicate Conserved(s: System) {
    Sound(s) && forall r | r in s.comments && s.comments[r].parent.None? :: ConservedAt(s, r)
  }

  lemma NewRowSound(t: Table, id: Id, row: Comment)
    requires WellFormed(t) && id !in t
    requires row.parent.Some? ==> row.parent.value in t && t[row.parent.value].born < row.born
    ensures WellFormed(t[id := row]) && SameLinks(t, t[id := row])
  {
  }

  lemma InsertSound(s: System, e: Event)
    requires Sound(s) && e.Insert?
    ensures Sound(Step(s, e)) && SameLinks(s.comments, Step(s, e).comments)
  {
    var parent := e.draft.parent;
    if e.draft in s.drafts && FreshId(s, e.id) && (parent.None? || parent.value in s.comments) {
      if parent.Some? {
        var q := parent.value;
        assert q in s.comments && s.comments[q].born < s.born;
      }
      NewRowSound(s.comments, e.id, Step(s, e).comments[e.id]);
    }
  }

  /** Counters, likes and flags do not matter to the forest. */
  lemma RowUpdateSound(t: Table, id: Id, row: Comment)
    requires WellFormed(t) && id in t && row.parent == t[id].parent && row.born == t[id].born
    ensures WellFormed(t[id := row]) && SameLinks(t, t[id := row])
  {
  }

  lemma IncrementSound(s: System, child: Id)
    requires Sound(s)
    ensures Sound(Step(s, Increment(child))) && SameLinks(s.comments, Step(s, Increment(child)).comments)
  {
    if child in s.increments {
      var root := RootOf(s.comments, s.comments[child].parent.value);
      RowUpdateSound(s.comments, root, Bump(s.comments, root, 1)[root]);
    }
  }

  lemma DecrementSound(s: System, child: Id)
    requires Sound(s)
    ensures Sound(Step(s, Decrement(child))) && SameLinks(s.comments, Step(s, Decrement(child)).comments)
  {
    if child in s.decrements {
      var root := RootOf(s.comments, s.comments[child].parent.value);
      RowUpdateSound(s.comments, root, Bump(s.comments, root, -1)[root]);
    }
  }

  lemma RemoveSound(s: System, id: Id, userId: int)
    requires Sound(s)
    ensures Sound(Step(s, Remove(id, userId))) && SameLinks(s.comments, Step(s, Remove(id, userId)).comments)
  {
    if id in s.comments {
      RowUpdateSound(s.comments, id, s.comments[id].(isDeleted := true));
    }
  }

  lemma {:induction false} StepSound(s: System, e: Event)
    requires Sound(s)
    ensures Sound(Step(s, e))
    ensures SameLinks(s.comments, Step(s, e).comments)
  {
    match e
    case Insert(_, _, _) => InsertSound(s, e);
    case Increment(child) => IncrementSound(s, child);
    case Decrement(child) => DecrementSound(s, child);
    case Remove(id, userId) => RemoveSound(s, id, userId);
    case Resolve(_, _, _) =>
    case React(id, likes, dislikes) =>
      if id in s.comments { RowUpdateSound(s.comments, id,
          s.comments[id].(likesCount := likes, dislikesCount := dislikes)); }
  }

  lemma NewRowBalanced(t: Table, id: Id, row: Comment, increments: set<Id>, decrements: multiset<Id>, r: Id)
    requires WellFormed(t) && id !in t && !row.isDeleted && row.repliesCount == 0
    requires row.parent.Some? ==> row.parent.value in t && t[row.parent.value].born < row.born
    requires id !in increments && forall c | c in decrements :: c in t
    requires r == id || (r in t && Balanced(t, increments, decrements, r))
    requires r == id ==> row.parent.None?
    ensures WellFormed(t[id := row])
    ensures Balanced(t[id := row], if row.parent.Some? then increments + {id} else increments, decrements, r)
  {
    InsertMoves(t, id, row, increments, r);
    UpdateMovesNoDebt(t, t[id := row], decrements, r);
    assert increments - {id} == increments;
    if r == id {
      NothingBelowAbsent(t, increments, decrements, r);
    }
  }

  lemma {:induction false} InsertConserves(s: System, e: Event, r: Id)
    requires Conserved(s) && e.Insert? && Step(s, e).comments != s.comments
    requires r in Step(s, e).comments && Step(s, e).comments[r].parent.None?
    ensures Sound(Step(s, e)) && ConservedAt(Step(s, e), r)
  {
    StepSound(s, e);
    var row := Step(s, e).comments[e.id];
    assert r != e.id ==> ConservedAt(s, r);
    NewRowBalanced(s.comments, e.id, row, s.increments, s.decrements, r);
  }

  lemma NothingBelowAbsent(t: Table, pending: set<Id>, owed: multiset<Id>, r: Id)
    requires WellFormed(t) && r !in t
    ensures LiveDescendants(t, r) == {} && PendingBelow(t, pending, r) == {} && OwedBelow(t, owed, r) == {}
  {
  }

  lemma BumpMovesNothing(t: Table, root: Id, delta: int, increments: set<Id>, decrements: multiset<Id>, r: Id)
    requires WellFormed(t) && root in t && forall c | c in decrements :: c in t
    ensures var t' := Bump(t, root, delta);
            && WellFormed(t') && LiveDescendants(t', r) == LiveDescendants(t, r)
            && PendingBelow(t', increments, r) == PendingBelow(t, increments, r)
            && OwedBelow(t', decrements, r) == OwedBelow(t, decrements, r)
  {
    UpdateMovesNothing(t, Bump(t, root, delta), increments, r);
    UpdateMovesNoDebt(t, Bump(t, root, delta), decrements, r);
  }

  /** An increment that is carried out moves from the pending set into the counter of its root. */
  lemma IncrementBalanced(t: Table, child: Id, increments: set<Id>, decrements: multiset<Id>, r: Id)
    requires WellFormed(t) && child in t && t[child].parent.Some? && child in increments
        && forall c | c in decrements :: c in t
    requires r in t && t[r].parent.None? && Balanced(t, increments, decrements, r)
    ensures var t' := Bump(t, RootOf(t, t[child].parent.value), 1);
            WellFormed(t') && Balanced(t', increments - {child}, decrements, r)
  {
    RootOfParent(t, child);
    BumpMovesNothing(t, RootOf(t, child), 1, increments - {child}, decrements, r);
    PendingMoves(t, increments, child, r);
  }

  /** A decrement that is carried out takes one owed copy and one from the counter of its root. */
  lemma DecrementBalanced(t: Table, child: Id, increments: set<Id>, decrements: multiset<Id>, r: Id)
    requires WellFormed(t) && child in t && t[child].parent.Some? && child in decrements
        && forall c | c in decrements :: c in t
    requires r in t && t[r].parent.None? && Balanced(t, increments, decrements, r)
    ensures var t' := Bump(t, RootOf(t, t[child].parent.value), -1);
            WellFormed(t') && Balanced(t', increments, decrements - multiset{child}, r)
  {
    RootOfParent(t, child);
    BumpMovesNothing(t, RootOf(t, child), -1, increments, decrements - multiset{child}, r);
    OwedMoves(t, decrements, child, r);
  }

  lemma {:induction false} SettleConserves(s: System, e: Event, r: Id)
    requires Conserved(s)
    requires (e.Increment? && e.child in s.increments) || (e.Decrement? && e.child in s.decrements)
    requires r in s.comments && s.comments[r].parent.None?
    ensures Sound(Step(s, e)) && ConservedAt(Step(s, e), r)
  {
    var s' := Step(s, e);
    StepSound(s, e);
    assert ConservedAt(s, r);
    if e.Increment? {
      IncrementBalanced(s.comments, e.child, s.increments, s.decrements, r);
    } else {
      DecrementBalanced(s.comments, e.child, s.increments, s.decrements, r);
    }
  }

  lemma RemovedBalanced(t: Table, id: Id, increments: set<Id>, decrements: multiset<Id>, r: Id)
    requires WellFormed(t) && id in t && !t[id].isDeleted && forall c | c in decrements :: c in t
    requires r in t && t[r].parent.None? && Balanced(t, increments, decrements, r)
    ensures var t' := t[id := t[id].(isDeleted := true)];
            && WellFormed(t')
            && Balanced(t', increments, if t[id].parent.Some? then decrements + multiset{id} else decrements, r)
  {
    var owed := if t[id].parent.Some? then decrements + multiset{id} else decrements;
    RemoveMoves(t, id, increments, r);
    UpdateMovesNoDebt(t, t[id := t[id].(isDeleted := true)], owed, r);
    OwedMoves(t, decrements, id, r);
    RootOfParent(t, id);
  }

  lemma {:induction false} RemoveConserves(s: System, e: Event, r: Id)
    requires Conserved(s) && e.Remove? && RemovesLive(s, e)
    requires e.id in s.comments && s.comments[e.id].authorId == e.userId
    requires r in s.comments && s.comments[r].parent.None?
    ensures Sound(Step(s, e)) && ConservedAt(Step(s, e), r)
  {
    var s' := Step(s, e);
    StepSound(s, e);
    assert ConservedAt(s, r);
    RemovedBalanced(s.comments, e.id, s.increments, s.decrements, r);
  }

  /** Steps that touch no link, no flag and no debt keep the balance of every root. */
  lemma UpdateBalanced(t: Table, t': Table, increments: set<Id>, decrements: multiset<Id>, r: Id)
    requires WellFormed(t) && WellFormed(t') && SameLinks(t, t') && t.Keys == t'.Keys && r in t
    requires forall c | c in t :: t'[c].isDeleted == t[c].isDeleted && t'[c].repliesCount == t[c].repliesCount
    requires (forall c | c in decrements :: c in t) && Balanced(t, increments, decrements, r)
    ensures Balanced(t', increments, decrements, r)
  {
    UpdateMovesNothing(t, t', increments, r);
    UpdateMovesNoDebt(t, t', decrements, r);
  }

  lemma {:induction false} QuietConserves(s: System, e: Event, r: Id)
    requires Conserved(s) && (e.Resolve? || e.React?)
    requires r in s.comments && s.comments[r].parent.None?
    ensures Sound(Step(s, e)) && ConservedAt(Step(s, e), r)
  {
    StepSound(s, e);
    assert ConservedAt(s, r);
    if e.React? && e.id in s.comments {
      UpdateBalanced(s.comments, Step(s, e).comments, s.increments, s.decrements, r);
    }
  }

  lemma {:induction false} StepConserves(s: System, e: Event)
    requires Conserved(s) && RemovesLive(s, e)
    ensures Conserved(Step(s, e))
  {
    StepSound(s, e);
    var s' := Step(s, e);
    forall r | r in s'.comments && s'.comments[r].parent.None? ensures ConservedAt(s', r) {
      if e.Insert? && s'.comments != s.comments {
        InsertConserves(s, e, r);
      } else {
        assert ConservedAt(s, r);
        if (e.Increment? && e.child in s.increments) || (e.Decrement? && e.child in s.decrements) {
          SettleConserves(s, e, r);
        } else if e.Remove? && e.id in s.comments && s.comments[e.id].authorId == e.userId {
          RemoveConserves(s, e, r);
        } else if e.Resolve? || e.React? {
          QuietConserves(s, e, r);
        }
      }
    }
  }

  /** Any interleaving of requests. */
  ghost function Run(s: System, events: seq<Event>): (s': System)
    requires Sound(s)
    ensures Sound(s') && SameLinks(s.comments, s'.comments)
    decreases |events|
  {
    if events == [] then s
    else
      StepSound(s, events[0]);
      Run(Step(s, events[0]), events[1..])
  }

  /** Along the run, every `remove` finds its comment live. */
  ghost predicate RemovesAtMostOnce(s: System, events: seq<Event>)
    requires Sound(s)
    decreases |events|
  {
    events != [] ==>
      RemovesLive(s, events[0]) && (StepSound(s, events[0]); RemovesAtMostOnce(Step(s, events[0]), events[1..]))
  }

  /**
   Conservation: in every interleaving, the counter of a root plus the increments owed minus the decrements owed
   is the number of live comments below it.
   */
  lemma {:induction false} RunConserves(s: System, events: seq<Event>)
    requires Conserved(s) && RemovesAtMostOnce(s, events)
    ensures Conserved(Run(s, events))
    decreases |events|
  {
    if events != [] {
      StepConserves(s, events[0]);
      RunConserves(Step(s, events[0]), events[1..]);
    }
  }

  ghost predicate Quiescent(s: System) {
    s.increments == {} && s.decrements == multiset{}
  }

  const EMPTY := System(map[], multiset{}, {}, multiset{}, 0)

  /** When no request is under way the counters are exact, so they are never negative then. */
  lemma QuiescentCountersExact(s: System, events: seq<Event>, root: Id)
    requires Conserved(s) && RemovesAtMostOnce(s, events) && Quiescent(Run(s, events))
    requires root in Run(s, events).comments && Run(s, events).comments[root].parent.None?
    ensures var t := Run(s, events).comments;
            t[root].repliesCount == |LiveDescendants(t, root)| >= 0
  {
    RunConserves(s, events);
    var last := Run(s, events);
    assert ConservedAt(last, root);
    assert PendingBelow(last.comments, {}, root) == {};
    NothingOwedBelow(last.comments, root);
  }

  /**
   Removing a removed reply breaks the law, and nothing else `remove` accepts does: in every conserved state, whatever
   is still owed, the state after a `remove` that is carried through is conserved exactly when the comment was a root
   or live.
   */
  lemma RemoveConservesIffLive(s: System, id: Id)
    requires Conserved(s) && id in s.comments
    ensures var removed := Step(s, Remove(id, s.comments[id].authorId));
            && Sound(removed)
            && (Conserved(removed) <==> s.comments[id].parent.None? || !s.comments[id].isDeleted)
  {
    var e := Remove(id, s.comments[id].authorId);
    var s' := Step(s, e);
    StepSound(s, e);
    if RemovesLive(s, e) {
      StepConserves(s, e);
    } else {
      assert s'.comments == s.comments;
      if s.comments[id].parent.None? {
        assert s' == s;
      } else {
        var r := RootOf(s.comments, id);
        assert ConservedAt(s, r);
        OwedMoves(s.comments, s.decrements, id, r);
        assert !ConservedAt(s', r);
      }
    }
  }

  // ---- A run that reaches the failure ----

  function Root(userId: int, now: int, count: int): Comment {
    Comment(0, None, userId, false, 0, 0, count, now, 0)
  }

  /** A root with its counter, and a reply. */
  function Pair(userId: int, now: int): System {
    System(map[1 := Root(userId, now, 1), 2 := Comment(0, Some(1), userId, false, 0, 0, 0, now, 1)],
           multiset{}, {}, multiset{}, 2)
  }

  function Alone(userId: int, now: int): System {
    System(map[1 := Root(userId, now, 0)], multiset{}, {}, multiset{}, 1)
  }

  /** A reply drafted, inserted and not yet counted. */
  function Uncounted(userId: int, now: int): System {
    System(map[1 := Root(userId, now, 0), 2 := Comment(0, Some(1), userId, false, 0, 0, 0, now, 1)], multiset{},
        {2}, multiset{}, 2)
  }

  ghost predicate Reaches(s: System, events: seq<Event>, n: System) {
    Sound(s) && Run(s, events) == n
  }

  lemma OneStep(s: System, e: Event, n: System)
    requires Sound(s) && Step(s, e) == n
    ensures Reaches(s, [e], n)
  {
    StepSound(s, e);
    assert [e][1..] == [];
    assert Run(n, []) == n;
  }

  lemma {:induction false} Chained(s: System, a: seq<Event>, m: System, b: seq<Event>, n: System)
    requires Reaches(s, a, m) && Reaches(m, b, n)
    ensures Reaches(s, a + b, n)
    decreases |a|
  {
    if a == [] {
      assert a + b == b;
    } else {
      assert (a + b)[0] == a[0] && (a + b)[1..] == a[1..] + b;
      StepSound(s, a[0]);
      Chained(Step(s, a[0]), a[1..], m, b, n);
    }
  }

  function CreateRoot(userId: int, now: int): seq<Event> {
    [Resolve(0, userId, None)] + [Insert(Draft(0, userId, None), 1, now)]
  }

  /** One undisturbed create from the empty system. */
  lemma RootCreated(userId: int, now: int)
    ensures Reaches(EMPTY, CreateRoot(userId, now), Alone(userId, now))
  {
    var s1 := Step(EMPTY, Resolve(0, userId, None));
    assert s1.drafts == multiset{Draft(0, userId, None)};
    OneStep(EMPTY, Resolve(0, userId, None), s1);
    assert Step(s1, Insert(Draft(0, userId, None), 1, now)).drafts == multiset{};
    OneStep(s1, Insert(Draft(0, userId, None), 1, now), Alone(userId, now));
    Chained(EMPTY, [Resolve(0, userId, None)], s1, [Insert(Draft(0, userId, None), 1, now)], Alone(userId, now));
  }

  lemma ReplyInserted(userId: int, now: int)
    ensures Reaches(Alone(userId, now), [Resolve(0, userId, Some(1))] + [Insert(Draft(0, userId, Some(1)), 2, now)],
                Uncounted(userId, now))
  {
    var s1 := Step(Alone(userId, now), Resolve(0, userId, Some(1)));
    assert s1.drafts == multiset{Draft(0, userId, Some(1))};
    assert s1.drafts - multiset{Draft(0, userId, Some(1))} == multiset{};
    OneStep(Alone(userId, now), Resolve(0, userId, Some(1)), s1);
    OneStep(s1, Insert(Draft(0, userId, Some(1)), 2, now), Uncounted(userId, now));
    Chained(Alone(userId, now), [Resolve(0, userId, Some(1))], s1, [Insert(Draft(0, userId, Some(1)), 2, now)],
        Uncounted(userId, now));
  }

  lemma ReplyCounted(userId: int, now: int)
    ensures Reaches(Uncounted(userId, now), [Increment(2)], Pair(userId, now))
  {
    var s := Uncounted(userId, now);
    assert s.increments - {2} == {};
    assert RootOf(s.comments, 1) == 1;
    OneStep(s, Increment(2), Pair(userId, now));
  }

  function CreateReply(userId: int, now: int): seq<Event> {
    ([Resolve(0, userId, Some(1))] + [Insert(Draft(0, userId, Some(1)), 2, now)]) + [Increment(2)]
  }

  lemma ReplyCreated(userId: int, now: int)
    ensures Reaches(Alone(userId, now), CreateReply(userId, now), Pair(userId, now))
  {
    ReplyInserted(userId, now);
    ReplyCounted(userId, now);
    Chained(Alone(userId, now), [Resolve(0, userId, Some(1))] + [Insert(Draft(0, userId, Some(1)), 2, now)],
        Uncounted(userId, now), [Increment(2)], Pair(userId, now));
  }

  /** A comment and a reply to it. */
  lemma PairCreated(userId: int, now: int)
    ensures Reaches(EMPTY, CreateRoot(userId, now) + CreateReply(userId, now), Pair(userId, now))
  {
    RootCreated(userId, now);
    ReplyCreated(userId, now);
    Chained(EMPTY, CreateRoot(userId, now), Alone(userId, now), CreateReply(userId, now), Pair(userId, now));
  }

  /** Comment 1 is a root with that counter, comment 2 a reply to it, there is no other, and nothing is owed. */
  ghost predicate IsPair(s: System, userId: int, count: int) {
    && Sound(s) && s.comments.Keys == {1, 2} && Quiescent(s)
    && s.comments[1].parent.None? && s.comments[1].repliesCount == count
    && s.comments[2].parent == Some(1) && s.comments[2].authorId == userId
  }

  function RemoveReply(userId: int): seq<Event> {
    [Remove(2, userId)] + [Decrement(2)]
  }

  /** Removing the reply, removed already or not, takes one from the counter. */
  lemma RemovedAndSettled(s: System, userId: int, count: int) returns (n: System)
    requires IsPair(s, userId, count)
    ensures Reaches(s, RemoveReply(userId), n) && IsPair(n, userId, count - 1) && n.comments[2].isDeleted
  {
    var removed := Step(s, Remove(2, userId));
    StepSound(s, Remove(2, userId));
    n := Step(removed, Decrement(2));
    StepSound(removed, Decrement(2));
    assert removed.decrements == multiset{2};
    assert RootOf(removed.comments, 1) == 1;
    OneStep(s, Remove(2, userId), removed);
    OneStep(removed, Decrement(2), n);
    Chained(s, [Remove(2, userId)], removed, [Decrement(2)], n);
  }

  lemma MinusOneBreaksTheLaw(s: System, userId: int)
    requires IsPair(s, userId, -1) && s.comments[2].isDeleted
    ensures LiveDescendants(s.comments, 1) == {} && !Conserved(s)
  {
    assert LiveDescendants(s.comments, 1) == {};
    NothingOwedBelow(s.comments, 1);
    assert PendingBelow(s.comments, {}, 1) == {};
    assert !ConservedAt(s, 1);
  }

  /** A comment, a reply to it, and the reply removed twice, one request after the other. */
  function RemovingTwice(userId: int, now: int): seq<Event> {
    (CreateRoot(userId, now) + CreateReply(userId, now)) + (RemoveReply(userId) + RemoveReply(userId))
  }

  /** From the empty system that run leaves the counter of a root without live descendants at -1. */
  lemma RemovedTwice(userId: int, now: int)
    ensures var n := Run(EMPTY, RemovingTwice(userId, now));
            && 1 in n.comments && n.comments[1].repliesCount == -1 && LiveDescendants(n.comments, 1) == {}
            && !Conserved(n)
  {
    PairCreated(userId, now);
    var one := Run(EMPTY, CreateRoot(userId, now) + CreateReply(userId, now));
    var two := RemovedAndSettled(one, userId, 1);
    var last := RemovedAndSettled(two, userId, 0);
    Chained(one, RemoveReply(userId), two, RemoveReply(userId), last);
    Chained(EMPTY, CreateRoot(userId, now) + CreateReply(userId, now), one,
        RemoveReply(userId) + RemoveReply(userId), last);
    MinusOneBreaksTheLaw(last, userId);
  }

  // ---- Two-level flattening ----

  ghost predicate DepthAtMost(s: System, d: nat)
    requires Sound(s)
  {
    && (forall c | c in s.comments :: Depth(s.comments, c) <= d)
    && (forall draft | draft in s.drafts && draft.parent.Some? && draft.parent.value in s.comments ::
          Depth(s.comments, draft.parent.value) + 1 <= d)
  }

  lemma SameRows(s: System, e: Event)
    requires Sound(s) && !e.Insert?
    ensures Step(s, e).comments.Keys == s.comments.Keys
  {
    match e
    case Increment(child) =>
      if child in s.increments { assert RootOf(s.comments, s.comments[child].parent.value) in s.comments; }
    case Decrement(child) =>
      if child in s.decrements { assert RootOf(s.comments, s.comments[child].parent.value) in s.comments; }
    case _ =>
  }

  /** Rows keep their depth, and the only row a step can add is one that a draft stands for. */
  lemma RowOrigin(s: System, e: Event, c: Id)
    requires Sound(s) && Sound(Step(s, e)) && c in Step(s, e).comments && c !in s.comments
    ensures e.Insert? && c == e.id && e.draft in s.drafts && Step(s, e).comments[c].parent == e.draft.parent
    ensures e.draft.parent.Some? ==> e.draft.parent.value in s.comments
  {
    if !e.Insert? {
      SameRows(s, e);
    }
  }

  lemma StepKeepsRowDepth(s: System, e: Event, d: nat)
    requires Sound(s) && DepthAtMost(s, d) && Sound(Step(s, e)) && SameLinks(s.comments, Step(s, e).comments)
    ensures forall c | c in Step(s, e).comments :: Depth(Step(s, e).comments, c) <= d
  {
    var t := Step(s, e).comments;
    forall c | c in t ensures Depth(t, c) <= d {
      if c in s.comments {
        LinksDecideRoot(s.comments, t, c);
      } else {
        RowOrigin(s, e, c);
        if t[c].parent.Some? { LinksDecideRoot(s.comments, t, t[c].parent.value); }
      }
    }
  }

  /** Flattening: a reply is attached to a root, or to the parent of a reply. */
  lemma AttachedDepth(t: Table, parentId: Option<Id>, p: Id, d: nat)
    requires WellFormed(t) && d >= 1 && forall c | c in t :: Depth(t, c) <= d
    requires ActualParent(t, parentId) == Some(p) && p in t
    ensures Depth(t, p) + 1 <= d
  {
    if t[p].parent.Some? {
      assert Depth(t, parentId.value) == Depth(t, p) + 1;
    }
  }

  /** A draft was there before or has just been resolved, and no step creates the row it points at. */
  lemma DraftOrigin(s: System, e: Event, draft: Draft)
    requires Sound(s) && draft in Step(s, e).drafts
    ensures draft in s.drafts || (e.Resolve? && draft.parent == ActualParent(s.comments, e.parentId))
    ensures draft.parent.Some? && draft.parent.value in Step(s, e).comments ==> draft.parent.value in s.comments
  {
    if !e.Insert? {
      SameRows(s, e);
    }
  }

  lemma StepKeepsDraftDepth(s: System, e: Event, d: nat, draft: Draft)
    requires Sound(s) && DepthAtMost(s, d) && d >= 1 && Sound(Step(s, e)) && SameLinks(s.comments, Step(s, e).comments)
    requires draft in Step(s, e).drafts && draft.parent.Some? && draft.parent.value in Step(s, e).comments
    ensures Depth(Step(s, e).comments, draft.parent.value) + 1 <= d
  {
    var p := draft.parent.value;
    DraftOrigin(s, e, draft);
    LinksDecideRoot(s.comments, Step(s, e).comments, p);
    if draft !in s.drafts {
      AttachedDepth(s.comments, e.parentId, p, d);
    }
  }

  lemma StepKeepsDepth(s: System, e: Event, d: nat)
    requires Sound(s) && DepthAtMost(s, d) && d >= 1
    ensures Sound(Step(s, e)) && DepthAtMost(Step(s, e), d)
  {
    var s' := Step(s, e);
    StepSound(s, e);
    StepKeepsRowDepth(s, e, d);
    forall draft | draft in s'.drafts && draft.parent.Some? && draft.parent.value in s'.comments
      ensures Depth(s'.comments, draft.parent.value) + 1 <= d
    {
      StepKeepsDraftDepth(s, e, d, draft);
    }
  }

  /**
   Flattening never deepens the forest: started with comments at depth at most d and no request under way,
   every reachable table has depth at most max(1, d).
   */
  lemma {:induction false} FlatteningKeepsDepth(s: System, events: seq<Event>, d: nat)
    requires Sound(s) && DepthAtMost(s, d) && d >= 1
    ensures DepthAtMost(Run(s, events), d)
    decreases |events|
  {
    if events != [] {
      StepKeepsDepth(s, events[0], d);
      FlatteningKeepsDepth(Step(s, events[0]), events[1..], d);
    }
  }

  ghost predicate Flat(t: Table) {
    forall c | c in t && t[c].parent.Some? :: t[c].parent.value in t && t[t[c].parent.value].parent.None?
  }

  /** From an empty store, every parent is a root. */
  lemma ReachableIsFlat(events: seq<Event>)
    ensures Flat(Run(EMPTY, events).comments)
  {
    FlatteningKeepsDepth(EMPTY, events, 1);
    var t := Run(EMPTY, events).comments;
    forall c | c in t && t[c].parent.Some? ensures t[t[c].parent.value].parent.None? {
      assert Depth(t, c) <= 1;
    }
  }
}
