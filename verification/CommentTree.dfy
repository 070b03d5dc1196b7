/** The nested view of a post's comments: a recursive filter over the flat list of live comments. */
module CommentTree {
  import opened Wrappers
  import Sets
  import opened Keyset
  import opened CommentTable

  datatype Node = Node(id: Id, replies: seq<Node>)

  /** Rows of the list that answer `parent`, in list order. */
  function ChildrenOf(t: Table, list: seq<Id>, parent: Option<Id>): (kids: seq<Id>)
    ensures forall c :: c in kids <==> c in list && c in t && t[c].parent == parent
  {
    Where(list, c => c in t && t[c].parent == parent)
  }

  /** How many rows are younger than `parent`: what the recursion below can still visit. */
  function Room(t: Table, parent: Option<Id>): nat {
    match parent
    case None => |t.Keys| + 1
    case Some(p) => if p in t then |set c | c in t && t[c].born > t[p].born| else 0
  }

  lemma RoomShrinks(t: Table, child: Id)
    requires WellFormed(t) && child in t
    ensures Room(t, Some(child)) < Room(t, t[child].parent)
  {
    var younger := set c | c in t && t[c].born > t[child].born;
    match t[child].parent
    case None =>
      Sets.SizeMonotone(younger, t.Keys);
    case Some(p) =>
      var wider := set c | c in t && t[c].born > t[p].born;
      assert child in wider && child !in younger;
      Sets.SizeMonotone(younger + {child}, wider);
  }

  function BuildTree(t: Table, list: seq<Id>, parent: Option<Id>): (nodes: seq<Node>)
    requires WellFormed(t)
    ensures Ids(nodes) == ChildrenOf(t, list, parent)
    decreases Room(t, parent), 1, 0
  {
    Attach(t, list, ChildrenOf(t, list, parent), parent)
  }

  function Attach(t: Table, list: seq<Id>, kids: seq<Id>, parent: Option<Id>): (nodes: seq<Node>)
    requires WellFormed(t) && forall c | c in kids :: c in t && t[c].parent == parent
    ensures Ids(nodes) == kids
    decreases Room(t, parent), 0, |kids|
  {
    if kids == [] then []
    else
      RoomShrinks(t, kids[0]);
      [Node(kids[0], BuildTree(t, list, Some(kids[0])))] + Attach(t, list, kids[1..], parent)
  }

  function Ids(nodes: seq<Node>): (ids: seq<Id>)
    ensures |ids| == |nodes| && forall i | 0 <= i < |nodes| :: ids[i] == nodes[i].id
  {
    if nodes == [] then [] else [nodes[0].id] + Ids(nodes[1..])
  }

  /** Depth-first reading of the nested view. */
  function Flatten(nodes: seq<Node>): seq<Id> {
    if nodes == [] then []
    else [nodes[0].id] + Flatten(nodes[0].replies) + Flatten(nodes[1..])
  }

  /** The comment and all its ancestors below `parent` are in the list. */
  predicate Reached(t: Table, list: seq<Id>, c: Id, parent: Option<Id>)
    requires WellFormed(t)
    decreases if c in t then t[c].born else 0
  {
    c in list && c in t
    && (t[c].parent == parent || (t[c].parent.Some? && Reached(t, list, t[c].parent.value, parent)))
  }

  /** In a level, or under one of its comments. */
  ghost predicate Covered(t: Table, list: seq<Id>, kids: seq<Id>, c: Id)
    requires WellFormed(t)
  {
    exists k | k in kids :: c == k || Reached(t, list, c, Some(k))
  }

  lemma {:induction false} ReachedThroughChild(t: Table, list: seq<Id>, c: Id, parent: Option<Id>)
    requires WellFormed(t)
    ensures Reached(t, list, c, parent) <==> Covered(t, list, ChildrenOf(t, list, parent), c)
    decreases if c in t then t[c].born else 0
  {
    var kids := ChildrenOf(t, list, parent);
    if Reached(t, list, c, parent) && t[c].parent != parent {
      ReachedThroughChild(t, list, t[c].parent.value, parent);
      var k :| k in kids && (t[c].parent.value == k || Reached(t, list, t[c].parent.value, Some(k)));
      assert Reached(t, list, c, Some(k));
    } else if Covered(t, list, kids, c) && !Reached(t, list, c, parent) {
      var k :| k in kids && (c == k || Reached(t, list, c, Some(k)));
      assert c != k;
      if t[c].parent != Some(k) {
        assert Covered(t, list, kids, t[c].parent.value);
        ReachedThroughChild(t, list, t[c].parent.value, parent);
      } else {
        assert Reached(t, list, k, parent);
      }
    }
  }

  /** What the first child contributes, and what its siblings do. */
  lemma FlattenStep(t: Table, list: seq<Id>, kids: seq<Id>, parent: Option<Id>)
    requires WellFormed(t) && kids != [] && forall k | k in kids :: k in t && t[k].parent == parent
    ensures Flatten(Attach(t, list, kids, parent)) ==
            [kids[0]] + Flatten(BuildTree(t, list, Some(kids[0]))) + Flatten(Attach(t, list, kids[1..], parent))
  {
    assert Attach(t, list, kids, parent)[1..] == Attach(t, list, kids[1..], parent);
  }

  lemma CoveredStep(t: Table, list: seq<Id>, kids: seq<Id>, c: Id)
    requires WellFormed(t) && kids != []
    ensures Covered(t, list, kids, c) <==>
            c == kids[0] || Reached(t, list, c, Some(kids[0])) || Covered(t, list, kids[1..], c)
  {
    var rest := kids[1..];
    assert forall k :: k in kids <==> k == kids[0] || k in rest;
    if c == kids[0] || Reached(t, list, c, Some(kids[0])) {
      assert kids[0] in kids;
    } else {
      forall k ensures k in kids && (c == k || Reached(t, list, c, Some(k))) <==>
                       k in rest && (c == k || Reached(t, list, c, Some(k))) {
      }
    }
  }

  lemma {:induction false} FlattenCovers(t: Table, list: seq<Id>, kids: seq<Id>, parent: Option<Id>, c: Id)
    requires WellFormed(t) && forall k | k in kids :: k in t && t[k].parent == parent
    ensures c in Flatten(Attach(t, list, kids, parent)) <==> Covered(t, list, kids, c)
    decreases Room(t, parent), |kids|
  {
    if kids != [] {
      var k := kids[0];
      RoomShrinks(t, k);
      FlattenStep(t, list, kids, parent);
      CoveredStep(t, list, kids, c);
      FlattenCovers(t, list, ChildrenOf(t, list, Some(k)), Some(k), c);
      ReachedThroughChild(t, list, c, Some(k));
      FlattenCovers(t, list, kids[1..], parent, c);
    }
  }

  ghost predicate NoRepeats(s: seq<Id>) {
    forall i, j | 0 <= i < j < |s| :: s[i] != s[j]
  }

  lemma {:induction false} ReachedIsYounger(t: Table, list: seq<Id>, c: Id, p: Id)
    requires WellFormed(t) && p in t && Reached(t, list, c, Some(p))
    ensures t[c].born > t[p].born
    decreases t[c].born
  {
    if t[c].parent != Some(p) {
      ReachedIsYounger(t, list, t[c].parent.value, p);
    }
  }

  /** Sibling subtrees share no comment. */
  lemma {:induction false} SubtreesDisjoint(t: Table, list: seq<Id>, k: Id, m: Id, c: Id)
    requires WellFormed(t) && k in t && m in t && k != m && t[k].parent == t[m].parent
    ensures !(Reached(t, list, c, Some(k)) && (c == m || Reached(t, list, c, Some(m))))
    decreases if c in t then t[c].born else 0
  {
    if Reached(t, list, c, Some(k)) && (c == m || Reached(t, list, c, Some(m))) {
      if c == m {
        // then m hangs below k, so their common parent is k or younger than k
        if t[m].parent != Some(k) {
          ReachedIsYounger(t, list, t[m].parent.value, k);
        }
      } else if t[c].parent == Some(k) {
        SubtreesDisjoint(t, list, m, k, k);
      } else {
        SubtreesDisjoint(t, list, k, m, t[c].parent.value);
      }
    }
  }

  /** Nothing under the first child is that child, one of its siblings, or under one of them. */
  lemma FirstSubtreeApart(t: Table, list: seq<Id>, kids: seq<Id>, parent: Option<Id>, c: Id)
    requires WellFormed(t) && kids != [] && NoRepeats(kids)
    requires forall k | k in kids :: k in t && t[k].parent == parent
    requires c == kids[0] || Reached(t, list, c, Some(kids[0]))
    ensures !Covered(t, list, kids[1..], c)
    ensures Reached(t, list, c, Some(kids[0])) ==> c != kids[0]
  {
    var k := kids[0];
    forall m | m in kids[1..] ensures !(c == m || Reached(t, list, c, Some(m))) {
      SubtreesDisjoint(t, list, k, m, c);
      SubtreesDisjoint(t, list, m, k, k);
    }
    if Reached(t, list, c, Some(k)) {
      ReachedIsYounger(t, list, c, k);
    }
  }

  lemma {:induction false} FlattenNoRepeats(t: Table, list: seq<Id>, kids: seq<Id>, parent: Option<Id>)
    requires WellFormed(t) && NoRepeats(list) && NoRepeats(kids)
    requires forall k | k in kids :: k in t && t[k].parent == parent
    ensures NoRepeats(Flatten(Attach(t, list, kids, parent)))
    decreases Room(t, parent), |kids|
  {
    if kids != [] {
      var k := kids[0];
      RoomShrinks(t, k);
      WhereNoRepeats(list, c => c in t && t[c].parent == Some(k));
      FlattenNoRepeats(t, list, ChildrenOf(t, list, Some(k)), Some(k));
      FlattenNoRepeats(t, list, kids[1..], parent);
      var under := Flatten(BuildTree(t, list, Some(k)));
      var rest := Flatten(Attach(t, list, kids[1..], parent));
      FlattenStep(t, list, kids, parent);
      forall c | c in under || c == k ensures c !in rest && (c in under ==> c != k) {
        InUnder(t, list, k, c);
        FlattenCovers(t, list, kids[1..], parent, c);
        FirstSubtreeApart(t, list, kids, parent, c);
      }
      JoinNoRepeats(k, under, rest);
    }
  }

  lemma {:induction false} InUnder(t: Table, list: seq<Id>, k: Id, c: Id)
    requires WellFormed(t)
    ensures c in Flatten(BuildTree(t, list, Some(k))) <==> Reached(t, list, c, Some(k))
  {
    FlattenCovers(t, list, ChildrenOf(t, list, Some(k)), Some(k), c);
    ReachedThroughChild(t, list, c, Some(k));
  }

  lemma JoinNoRepeats(k: Id, under: seq<Id>, rest: seq<Id>)
    requires NoRepeats(under) && NoRepeats(rest) && k !in rest
    requires forall c | c in under :: c != k && c !in rest
    ensures NoRepeats([k] + under + rest)
  {
    var all := [k] + under + rest;
    forall i, j | 0 <= i < j < |all| ensures all[i] != all[j] {
      if 0 < i <= |under| < j {
        assert all[i] in under && all[j] in rest;
      } else if i == 0 {
        assert all[j] in under || all[j] in rest;
      }
    }
  }

  lemma {:induction false} WhereNoRepeats(s: seq<Id>, p: Id -> bool)
    requires NoRepeats(s)
    ensures NoRepeats(Where(s, p))
  {
    if s != [] {
      WhereNoRepeats(s[1..], p);
      assert s[0] !in s[1..];
    }
  }

  /** Sibling order is list order, and every node stands under the comment it answers, at every level. */
  ghost predicate Mirrors(t: Table, list: seq<Id>, nodes: seq<Node>, parent: Option<Id>) {
    && Ids(nodes) == ChildrenOf(t, list, parent)
    && forall n | n in nodes :: Mirrors(t, list, n.replies, Some(n.id))
  }

  lemma {:induction false} AttachAt(t: Table, list: seq<Id>, kids: seq<Id>, parent: Option<Id>, n: Node)
    requires WellFormed(t) && forall k | k in kids :: k in t && t[k].parent == parent
    requires n in Attach(t, list, kids, parent)
    ensures n.id in kids && n.replies == BuildTree(t, list, Some(n.id))
  {
    if n != Attach(t, list, kids, parent)[0] {
      assert n in Attach(t, list, kids[1..], parent);
      AttachAt(t, list, kids[1..], parent, n);
    }
  }

  lemma {:induction false} TreeMirrorsList(t: Table, list: seq<Id>, parent: Option<Id>)
    requires WellFormed(t)
    ensures Mirrors(t, list, BuildTree(t, list, parent), parent)
    decreases Room(t, parent)
  {
    forall n | n in BuildTree(t, list, parent) ensures Mirrors(t, list, n.replies, Some(n.id)) {
      AttachAt(t, list, ChildrenOf(t, list, parent), parent, n);
      RoomShrinks(t, n.id);
      TreeMirrorsList(t, list, Some(n.id));
    }
  }

  // ---- The query the tree is built from ----

  /** `list` is the live comments of a post, each once, oldest first. */
  ghost predicate LiveList(t: Table, postId: int, list: seq<Id>) {
    && NoRepeats(list)
    && (forall c :: c in list <==> c in t && t[c].postId == postId && !t[c].isDeleted)
    && (forall i, j | 0 <= i < j < |list| ::
        list[i] in t && list[j] in t
        && t[list[i]].createdAt <= t[list[j]].createdAt)
  }

  /** The comment and every comment above it is live and on the post. */
  ghost predicate ChainLive(t: Table, postId: int, c: Id)
    requires WellFormed(t) && c in t
    decreases t[c].born
  {
    && !t[c].isDeleted && t[c].postId == postId
    && (t[c].parent.Some? ==> ChainLive(t, postId, t[c].parent.value))
  }

  lemma {:induction false} ReachedIsChainLive(t: Table, postId: int, list: seq<Id>, c: Id)
    requires WellFormed(t) && LiveList(t, postId, list) && c in t
    ensures Reached(t, list, c, None) <==> ChainLive(t, postId, c)
    decreases t[c].born
  {
    if t[c].parent.Some? {
      ReachedIsChainLive(t, postId, list, t[c].parent.value);
    }
  }

  /**
   The nested view holds exactly the comments whose whole ancestor chain is live, each exactly once.
   */
  lemma {:induction false} NestedViewExact(t: Table, postId: int, list: seq<Id>)
    requires WellFormed(t) && LiveList(t, postId, list)
    ensures var view := Flatten(BuildTree(t, list, None));
            && NoRepeats(view)
            && (forall c :: c in view <==> c in t && ChainLive(t, postId, c))
  {
    var kids := ChildrenOf(t, list, None);
    WhereNoRepeats(list, c => c in t && t[c].parent == None);
    FlattenNoRepeats(t, list, kids, None);
    forall c ensures c in Flatten(BuildTree(t, list, None)) <==> c in t && ChainLive(t, postId, c) {
      FlattenCovers(t, list, kids, None, c);
      ReachedThroughChild(t, list, c, None);
      if c in t {
        ReachedIsChainLive(t, postId, list, c);
      }
    }
  }
}
