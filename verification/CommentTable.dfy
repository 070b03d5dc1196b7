/**
 The `comments` table and the forest its parent links form.  `born` is the insertion number of a row:
 a foreign key makes every parent older than its children, and that is all that acyclicity needs.
 */
module CommentTable {
  import opened Wrappers

  type Id = int

  datatype Comment = Comment(
    postId: int,
    parent: Option<Id>,
    authorId: int,
    isDeleted: bool,
    likesCount: int,
    dislikesCount: int,
    repliesCount: int,
    createdAt: int,
    born: nat)

  type Table = map<Id, Comment>

  ghost predicate WellFormed(t: Table) {
    forall c | c in t && t[c].parent.Some? ::
      t[c].parent.value in t && t[t[c].parent.value].born < t[c].born
  }

  /** The comment a walk up the parent links ends at. */
  function RootOf(t: Table, c: Id): (root: Id)
    requires WellFormed(t) && c in t
    ensures root in t && t[root].parent.None?
    decreases t[c].born
  {
    if t[c].parent.None? then c else RootOf(t, t[c].parent.value)
  }

  function Depth(t: Table, c: Id): nat
    requires WellFormed(t) && c in t
    decreases t[c].born
  {
    if t[c].parent.None? then 0 else 1 + Depth(t, t[c].parent.value)
  }

  /** Live comments under a root, at any depth. */
  function LiveDescendants(t: Table, root: Id): set<Id>
    requires WellFormed(t)
  {
    set c | c in t && c != root && !t[c].isDeleted && RootOf(t, c) == root
  }

  /** Rows named by `pending` that hang below `root`. */
  function PendingBelow(t: Table, pending: set<Id>, root: Id): set<Id>
    requires WellFormed(t)
  {
    set c | c in pending && c in t && RootOf(t, c) == root
  }

  /** The copies in `owed` of rows that hang below `root`, numbered. */
  function OwedBelow(t: Table, owed: multiset<Id>, root: Id): set<(Id, nat)>
    requires WellFormed(t)
  {
    set c, k: nat | c in owed && c in t && RootOf(t, c) == root && k < owed[c] :: (c, k)
  }

  /** `t'` has at least the rows of `t`, with the same links. */
  ghost predicate SameLinks(t: Table, t': Table) {
    forall c | c in t :: c in t' && t'[c].parent == t[c].parent && t'[c].born == t[c].born
  }

  lemma {:induction false} LinksDecideRoot(t: Table, t': Table, c: Id)
    requires WellFormed(t) && WellFormed(t') && SameLinks(t, t') && c in t
    ensures RootOf(t', c) == RootOf(t, c)
    ensures Depth(t', c) == Depth(t, c)
    decreases t[c].born
  {
    if t[c].parent.Some? {
      LinksDecideRoot(t, t', t[c].parent.value);
    }
  }

  lemma LinksDecideRoots(t: Table, t': Table)
    requires WellFormed(t) && WellFormed(t') && SameLinks(t, t')
    ensures forall c | c in t :: RootOf(t', c) == RootOf(t, c) && Depth(t', c) == Depth(t, c)
  {
    forall c | c in t ensures RootOf(t', c) == RootOf(t, c) && Depth(t', c) == Depth(t, c) {
      LinksDecideRoot(t, t', c);
    }
  }

  /** The walk never leaves the tree it started in: parent and child have the same root, and a root is its own root. */
  lemma RootOfParent(t: Table, c: Id)
    requires WellFormed(t) && c in t
    ensures t[c].parent.Some? ==> RootOf(t, t[c].parent.value) == RootOf(t, c) && RootOf(t, c) != c
    ensures t[RootOf(t, c)].born <= t[c].born
  {
    OlderRoot(t, c);
    if t[c].parent.Some? {
      OlderRoot(t, t[c].parent.value);
    }
  }

  lemma {:induction false} OlderRoot(t: Table, c: Id)
    requires WellFormed(t) && c in t
    ensures t[RootOf(t, c)].born <= t[c].born
    decreases t[c].born
  {
    if t[c].parent.Some? {
      OlderRoot(t, t[c].parent.value);
    }
  }

  // ---- How single row changes move these sets ----

  /** A new row joins the tree of its parent and no other. */
  lemma InsertMoves(t: Table, id: Id, row: Comment, pending: set<Id>, root: Id)
    requires WellFormed(t) && id !in t && !row.isDeleted
    requires row.parent.Some? ==> row.parent.value in t && t[row.parent.value].born < row.born
    ensures WellFormed(t[id := row])
    ensures var joins := row.parent.Some? && RootOf(t, row.parent.value) == root;
            && LiveDescendants(t[id := row], root) == LiveDescendants(t, root) + (if joins then {id} else {})
            && id !in LiveDescendants(t, root)
            && (id !in pending ==> PendingBelow(t[id := row], pending, root) == PendingBelow(t, pending, root))
            && (joins ==> PendingBelow(t[id := row], pending + {id}, root) == PendingBelow(t, pending, root) + {id})
            && (!joins && row.parent.Some? ==>
                PendingBelow(t[id := row], pending + {id}, root) == PendingBelow(t, pending - {id}, root))
            && id !in PendingBelow(t, pending, root)
  {
    LinksDecideRoots(t, t[id := row]);
    RootOfParent(t[id := row], id);
  }

  /** An update that keeps links and `isDeleted` moves nothing. */
  lemma UpdateMovesNothing(t: Table, t': Table, pending: set<Id>, root: Id)
    requires WellFormed(t) && WellFormed(t') && SameLinks(t, t') && t.Keys == t'.Keys
    requires forall c | c in t :: t'[c].isDeleted == t[c].isDeleted
    ensures LiveDescendants(t', root) == LiveDescendants(t, root)
    ensures PendingBelow(t', pending, root) == PendingBelow(t, pending, root)
  {
    LinksDecideRoots(t, t');
  }

  /** Soft deletion takes a reply out of its tree and leaves every other tree alone. */
  lemma RemoveMoves(t: Table, id: Id, pending: set<Id>, root: Id)
    requires WellFormed(t) && id in t && !t[id].isDeleted
    ensures var t' := t[id := t[id].(isDeleted := true)];
            && WellFormed(t')
            && PendingBelow(t', pending, root) == PendingBelow(t, pending, root)
            && (t[id].parent.Some? && RootOf(t, id) == root ==>
                  id in LiveDescendants(t, root) && LiveDescendants(t', root) == LiveDescendants(t, root) - {id})
            && (t[id].parent.None? || RootOf(t, id) != root ==> LiveDescendants(t', root) == LiveDescendants(t, root))
  {
    var t' := t[id := t[id].(isDeleted := true)];
    LinksDecideRoots(t, t');
    RootOfParent(t, id);
  }

  lemma PendingMoves(t: Table, pending: set<Id>, id: Id, root: Id)
    requires WellFormed(t) && id in t
    ensures PendingBelow(t, pending + {id}, root) ==
        PendingBelow(t, pending, root) + (if RootOf(t, id) == root then {id} else {})
    ensures PendingBelow(t, pending - {id}, root) ==
        PendingBelow(t, pending, root) - (if RootOf(t, id) == root then {id} else {})
    ensures RootOf(t, id) == root && id in pending ==> id in PendingBelow(t, pending, root)
    ensures id !in pending ==> id !in PendingBelow(t, pending, root)
  {
  }

  /** Rows that only appear, or change nothing but counters and flags, move no debt. */
  lemma UpdateMovesNoDebt(t: Table, t': Table, owed: multiset<Id>, root: Id)
    requires WellFormed(t) && WellFormed(t') && SameLinks(t, t') && forall c | c in owed :: c in t
    ensures OwedBelow(t', owed, root) == OwedBelow(t, owed, root)
  {
    LinksDecideRoots(t, t');
  }

  /** One more or one less copy of a row is one more or one less below its root, and nowhere else. */
  lemma OwedMoves(t: Table, owed: multiset<Id>, id: Id, root: Id)
    requires WellFormed(t) && id in t
    ensures |OwedBelow(t, owed + multiset{id}, root)| == |OwedBelow(t, owed, root)| + if RootOf(t, id) == root
        then 1 else 0
    ensures id in owed ==>
              |OwedBelow(t, owed - multiset{id}, root)| == |OwedBelow(t, owed, root)| - if RootOf(t, id) == root
                  then 1 else 0
  {
    OwedGrows(t, owed, id, root);
    if id in owed {
      assert owed - multiset{id} + multiset{id} == owed;
      OwedGrows(t, owed - multiset{id}, id, root);
    }
  }

  lemma OwedGrows(t: Table, owed: multiset<Id>, id: Id, root: Id)
    requires WellFormed(t) && id in t
    ensures |OwedBelow(t, owed + multiset{id}, root)| == |OwedBelow(t, owed, root)| + if RootOf(t, id) == root
        then 1 else 0
  {
    var more, less := OwedBelow(t, owed + multiset{id}, root), OwedBelow(t, owed, root);
    var copy := (id, owed[id]);
    forall x ensures x in more <==> x in less || (x == copy && RootOf(t, id) == root) {
      OwedMember(t, owed, root, x);
      OwedMember(t, owed + multiset{id}, root, x);
    }
    OwedMember(t, owed, root, copy);
    OneMore(less, more, copy, RootOf(t, id) == root);
  }

  lemma OneMore<T>(less: set<T>, more: set<T>, x: T, joins: bool)
    requires x !in less && forall y :: y in more <==> y in less || (y == x && joins)
    ensures |more| == |less| + if joins then 1 else 0
  {
    assert more == if joins then less + {x} else less;
  }

  lemma OwedMember(t: Table, owed: multiset<Id>, root: Id, x: (Id, nat))
    requires WellFormed(t)
    ensures x in OwedBelow(t, owed, root) <==> x.0 in t && RootOf(t, x.0) == root && x.1 < owed[x.0]
  {
  }

  lemma NothingOwedBelow(t: Table, root: Id)
    requires WellFormed(t)
    ensures OwedBelow(t, multiset{}, root) == {}
  {
  }
}
