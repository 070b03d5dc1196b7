/**
 The recursive recount of `repliesCount` (a migration) and the recursive total of a reply page.  Both walk the tree
 downwards through live comments only, whereas the incremental counter follows parent links upwards.
 */
module ReplyRecount {
  import opened Wrappers
  import opened Sets
  import opened CommentTable
  import opened ReplyCounters

  /** `c` is reached from `root` by the recursive query: it and every comment strictly between them is live. */
  predicate LiveChain(t: Table, c: Id, root: Id)
    requires WellFormed(t) && c in t
    decreases t[c].born
  {
    && !t[c].isDeleted
    && t[c].parent.Some?
    && (t[c].parent.value == root || LiveChain(t, t[c].parent.value, root))
  }

  function LiveTree(t: Table, root: Id): set<Id>
    requires WellFormed(t)
  {
    set c | c in t && LiveChain(t, c, root)
  }

  /** One round of the recursive query: the live children of a level. */
  function Children(t: Table, level: set<Id>): set<Id> {
    set c | c in t && !t[c].isDeleted && t[c].parent.Some? && t[c].parent.value in level
  }

  lemma {:induction false} ClosedHoldsTree(t: Table, root: Id, seen: set<Id>, c: Id)
    requires WellFormed(t) && c in t && LiveChain(t, c, root)
    requires root in seen && Children(t, seen) <= seen
    ensures c in seen
    decreases t[c].born
  {
    if t[c].parent.value != root {
      ClosedHoldsTree(t, root, seen, t[c].parent.value);
    }
    assert c in Children(t, seen);
  }

  lemma {:induction false} ChainNotRoot(t: Table, root: Id, c: Id)
    requires WellFormed(t) && root in t && c in t && LiveChain(t, c, root)
    ensures t[root].born < t[c].born
    decreases t[c].born
  {
    if t[c].parent.value != root {
      ChainNotRoot(t, root, t[c].parent.value);
    }
  }

  /** What holds between two rounds: `frontier` is the last level read, `done` the levels above it. */
  ghost predicate Exploring(t: Table, root: Id, frontier: set<Id>, done: set<Id>)
    requires WellFormed(t)
  {
    && frontier !! done && root in frontier + done && frontier + done <= t.Keys
    && frontier + done - {root} <= LiveTree(t, root)
    && Children(t, done) <= frontier + done
    && forall c | c in frontier + done && c != root :: t[c].parent.Some? && t[c].parent.value in done
  }

  lemma NextLevelIsNew(t: Table, root: Id, frontier: set<Id>, done: set<Id>, c: Id)
    requires WellFormed(t) && root in t && Exploring(t, root, frontier, done) && c in Children(t, frontier)
    ensures c in LiveTree(t, root) && c !in frontier + done && c != root
  {
    assert t[c].parent.value != root ==> t[c].parent.value in frontier + done - {root};
    ChainNotRoot(t, root, c);
  }

  /** One round of the recursive query. */
  lemma NextLevel(t: Table, root: Id, frontier: set<Id>, done: set<Id>)
    requires WellFormed(t) && root in t && Exploring(t, root, frontier, done)
    ensures var next, seen := Children(t, frontier), frontier + done;
            Exploring(t, root, next, seen) && |next + seen - {root}| == |frontier + done - {root}| + |next|
  {
    var next, seen := Children(t, frontier), frontier + done;
    forall c | c in next ensures c in LiveTree(t, root) && c !in seen && c != root {
      NextLevelIsNew(t, root, frontier, done, c);
    }
    assert next + seen - {root} == (seen - {root}) + next;
    assert Children(t, seen) <= next + seen;
  }

  lemma AllLevels(t: Table, root: Id, done: set<Id>)
    requires WellFormed(t) && root in t && Exploring(t, root, {}, done)
    ensures {} + done - {root} == LiveTree(t, root)
  {
    forall c | c in LiveTree(t, root) ensures c in done - {root} {
      ClosedHoldsTree(t, root, done, c);
      ChainNotRoot(t, root, c);
    }
  }

  /** The recursive query, level by level, counting rows as it goes. */
  method CountTree(t: Table, root: Id) returns (count: nat)
    requires WellFormed(t) && root in t
    ensures count == |LiveTree(t, root)|
  {
    count := 0;
    var frontier, done: set<Id> := {root}, {};
    while frontier != {}
      invariant Exploring(t, root, frontier, done)
      invariant count == |frontier + done - {root}|
      decreases t.Keys - done
    {
      NextLevel(t, root, frontier, done);
      var next := Children(t, frontier);
      count := count + |next|;
      assert frontier <= t.Keys - done;
      frontier, done := next, frontier + done;
    }
    AllLevels(t, root, done);
  }

  function Recounted(t: Table, c: Id): int
    requires WellFormed(t) && c in t
  {
    if t[c].parent.None? && !t[c].isDeleted then |LiveTree(t, c)| else 0
  }

  function Recompute(t: Table): Table
    requires WellFormed(t)
  {
    map c | c in t :: t[c].(repliesCount := Recounted(t, c))
  }

  class RecalculateRepliesCount {
    var comments: Table

    constructor (comments: Table)
      ensures this.comments == comments
    {
      this.comments := comments;
    }

    /** Reset every counter, then fill in the live roots from the recursive count. */
    method Up()
      requires WellFormed(comments)
      modifies this
      ensures comments == Recompute(old(comments))
    {
      ghost var before := comments;
      comments := map c | c in comments :: comments[c].(repliesCount := 0);
      var roots := LiveRoots(comments);
      NothingRecounted(before);
      while roots != {}
        invariant roots <= LiveRoots(before)
        invariant comments == PartlyRecounted(before, roots)
        decreases |roots|
      {
        ghost var some := Inhabited(roots);
        var root :| root in roots;
        PartlyRecountedTree(before, roots, root);
        var count := CountTree(comments, root);
        PartlyRecountedStep(before, roots, root);
        comments := comments[root := comments[root].(repliesCount := count)];
        roots := roots - {root};
      }
      AllRecounted(before);
    }
  }

  function LiveRoots(t: Table): set<Id> {
    set c | c in t && t[c].parent.None? && !t[c].isDeleted
  }

  /** The table while the roots in `todo` are still waiting for their count. */
  ghost function PartlyRecounted(t: Table, todo: set<Id>): Table
    requires WellFormed(t)
    ensures WellFormed(PartlyRecounted(t, todo))
  {
    map c | c in t :: t[c].(repliesCount := if c in todo then 0 else Recounted(t, c))
  }

  lemma NothingRecounted(t: Table)
    requires WellFormed(t)
    ensures var zero: Table := map c | c in t :: t[c].(repliesCount := 0);
            LiveRoots(zero) == LiveRoots(t) && zero == PartlyRecounted(t, LiveRoots(t))
  {
    forall c | c in t && c !in LiveRoots(t) ensures Recounted(t, c) == 0 {}
  }

  lemma AllRecounted(t: Table)
    requires WellFormed(t)
    ensures PartlyRecounted(t, {}) == Recompute(t)
  {
  }

  lemma PartlyRecountedTree(t: Table, todo: set<Id>, root: Id)
    requires WellFormed(t)
    ensures LiveTree(PartlyRecounted(t, todo), root) == LiveTree(t, root)
  {
    SameRowsSameTree(t, PartlyRecounted(t, todo), root);
  }

  lemma PartlyRecountedStep(t: Table, todo: set<Id>, root: Id)
    requires WellFormed(t) && todo <= LiveRoots(t) && root in todo
    ensures var p := PartlyRecounted(t, todo);
            PartlyRecounted(t, todo - {root}) == p[root := p[root].(repliesCount := |LiveTree(t, root)|)]
  {
  }

  lemma {:induction false} SameRowsSameChain(t: Table, t': Table, root: Id, c: Id)
    requires WellFormed(t) && WellFormed(t') && t.Keys == t'.Keys && c in t
    requires forall d | d in t ::
        t'[d].parent == t[d].parent && t'[d].born == t[d].born
        && t'[d].isDeleted == t[d].isDeleted
    ensures LiveChain(t', c, root) == LiveChain(t, c, root)
    decreases t[c].born
  {
    if t[c].parent.Some? {
      SameRowsSameChain(t, t', root, t[c].parent.value);
    }
  }

  lemma SameRowsSameTree(t: Table, t': Table, root: Id)
    requires WellFormed(t) && WellFormed(t') && t.Keys == t'.Keys
    requires forall d | d in t ::
        t'[d].parent == t[d].parent && t'[d].born == t[d].born
        && t'[d].isDeleted == t[d].isDeleted
    ensures LiveTree(t', root) == LiveTree(t, root)
  {
    forall c | c in t ensures LiveChain(t', c, root) == LiveChain(t, c, root) {
      SameRowsSameChain(t, t', root, c);
    }
  }

  lemma {:induction false} ChainEndsAtRoot(t: Table, c: Id, root: Id)
    requires WellFormed(t) && c in t && root in t && t[root].parent.None? && LiveChain(t, c, root)
    ensures RootOf(t, c) == root && c != root
    decreases t[c].born
  {
    if t[c].parent.value != root {
      ChainEndsAtRoot(t, t[c].parent.value, root);
    }
  }

  lemma TreeWithinDescendants(t: Table, root: Id)
    requires WellFormed(t) && root in t && t[root].parent.None?
    ensures LiveTree(t, root) <= LiveDescendants(t, root)
  {
    forall c | c in LiveTree(t, root) ensures c in LiveDescendants(t, root) {
      ChainEndsAtRoot(t, c, root);
    }
  }

  /** Every live comment below the root answers the root itself or a live comment. */
  ghost predicate NoOrphans(t: Table, root: Id)
    requires WellFormed(t)
  {
    forall c | c in LiveDescendants(t, root) && t[c].parent != Some(root) :: !t[t[c].parent.value].isDeleted
  }

  lemma {:induction false} NoOrphansReached(t: Table, root: Id, c: Id)
    requires WellFormed(t) && NoOrphans(t, root) && c in LiveDescendants(t, root)
    ensures LiveChain(t, c, root)
    decreases t[c].born
  {
    RootOfParent(t, c);
    if t[c].parent != Some(root) {
      NoOrphansReached(t, root, t[c].parent.value);
    }
  }

  /**
   Incremental equals batch: in a conserved state with no request under way, the recount leaves the counter of a live
   root as it is exactly when no live comment below the root answers a removed one.
   */
  lemma RecountAgreesIffNoOrphans(s: System, root: Id)
    requires Conserved(s) && Quiescent(s)
    requires root in s.comments && s.comments[root].parent.None? && !s.comments[root].isDeleted
    ensures Recompute(s.comments)[root] == s.comments[root] <==> NoOrphans(s.comments, root)
  {
    var t := s.comments;
    assert ConservedAt(s, root);
    assert PendingBelow(t, {}, root) == {};
    NothingOwedBelow(t, root);
    TreeWithinDescendants(t, root);
    SizeMonotone(LiveTree(t, root), LiveDescendants(t, root));
    if NoOrphans(t, root) {
      forall c | c in LiveDescendants(t, root) ensures c in LiveTree(t, root) {
        NoOrphansReached(t, root, c);
      }
    } else {
      var c :| c in LiveDescendants(t, root) && t[c].parent != Some(root) && t[t[c].parent.value].isDeleted;
      assert !LiveChain(t, c, root);
    }
  }

  lemma FlatHasNoOrphans(t: Table, root: Id)
    requires WellFormed(t) && Flat(t)
    ensures NoOrphans(t, root)
  {
    forall c | c in LiveDescendants(t, root) ensures t[c].parent == Some(root) {
      RootOfParent(t, c);
      assert t[t[c].parent.value].parent.None?;
    }
  }

  /**
   From an empty store the two always agree: in every reachable state with no request under way, the recount changes
   no live root, and the recursive total of the reply page is the stored counter.
   */
  lemma ReachableRecountAgrees(events: seq<Event>, root: Id)
    requires RemovesAtMostOnce(EMPTY, events) && Quiescent(Run(EMPTY, events))
    requires var t := Run(EMPTY, events).comments;
             root in t && t[root].parent.None? && !t[root].isDeleted
    ensures var t := Run(EMPTY, events).comments;
            Recompute(t)[root] == t[root] && t[root].repliesCount == |LiveTree(t, root)|
  {
    RunConserves(EMPTY, events);
    ReachableIsFlat(events);
    FlatHasNoOrphans(Run(EMPTY, events).comments, root);
    RecountAgreesIffNoOrphans(Run(EMPTY, events), root);
  }

  /**
   Older data deeper than two levels can disagree: a live answer to a removed reply is kept by one count and dropped
   by the other.
   */
  lemma OrphanDisagrees()
    ensures exists s: System, root: Id ::
      && Conserved(s) && Quiescent(s)
      && root in s.comments && s.comments[root].parent.None? && !s.comments[root].isDeleted
      && Recompute(s.comments)[root] != s.comments[root]
  {
    var t: Table := map[
      0 := Comment(7, None, 1, false, 0, 0, 1, 0, 0),
      1 := Comment(7, Some(0), 1, true, 0, 0, 0, 1, 1),
      2 := Comment(7, Some(1), 1, false, 0, 0, 0, 2, 2)];
    var s := System(t, multiset{}, {}, multiset{}, 3);
    assert RootOf(t, 1) == 0 && RootOf(t, 2) == 0;
    assert LiveDescendants(t, 0) == {2};
    assert PendingBelow(t, {}, 0) == {};
    NothingOwedBelow(t, 0);
    assert ConservedAt(s, 0);
    assert Conserved(s);
    assert 2 in LiveDescendants(t, 0) && !NoOrphans(t, 0);
    RecountAgreesIffNoOrphans(s, 0);
  }
}
