/**
 Cursor pagination.  A request views `limit + 1` rows below the cursor, keeps `limit` of them and hands
 back the last kept row as the next cursor.  A client follows cursors while the table keeps changing:
 `views[i]` is the set of sort keys the i-th request can see, and nothing relates one read to the next
 unless a lemma says so.
 */
module Chain {
  import opened Wrappers
  import opened Sets
  import opened Keyset

  datatype Page<+T> = Page(items: seq<T>, hasNext: bool, next: Option<T>)

  predicate Below<T>(lt: (T, T) -> bool, x: T, cursor: Option<T>) {
    cursor.Some? ==> lt(x, cursor.value)
  }

  function Visible<T(==,!new)>(lt: (T, T) -> bool, rows: set<T>, cursor: Option<T>): set<T> {
    set x | x in rows && Below(lt, x, cursor)
  }

  /** From up to `limit + 1` fetched rows: drop the surplus row, and point the next cursor at the last row kept. */
  function PageFrom<T>(fetched: seq<T>, limit: nat): Page<T> {
    var hasNext := |fetched| > limit;
    var items := if hasNext then fetched[..|fetched| - 1] else fetched;
    Page(items, hasNext, if hasNext && |items| > 0 then Some(items[|items| - 1]) else None)
  }

  function PageOf<T(==,!new)>(lt: (T, T) -> bool, rows: set<T>, cursor: Option<T>, limit: nat): Page<T>
    requires StrictTotal(lt)
  {
    PageFrom(Take(Desc(lt, Visible(lt, rows, cursor)), limit + 1), limit)
  }

  /** The pages a client gets by following next cursors, one per read, until a page has none. */
  function Follow<T(==,!new)>(lt: (T, T) -> bool, views: seq<set<T>>, cursor: Option<T>, limit: nat): seq<Page<T>>
    requires StrictTotal(lt)
  {
    if views == [] then []
    else
      var page := PageOf(lt, views[0], cursor, limit);
      [page] + if page.next.Some? then Follow(lt, views[1..], page.next, limit) else []
  }

  function Concat<T>(pages: seq<Page<T>>): seq<T> {
    if pages == [] then [] else pages[0].items + Concat(pages[1..])
  }

  /** The client reached a page with no next cursor. */
  predicate Complete<T>(pages: seq<Page<T>>) {
    pages != [] && pages[|pages| - 1].next.None?
  }

  /** Page i shows the key and no other page does. */
  ghost predicate OnlyOn<T(!new)>(pages: seq<Page<T>>, x: T, i: nat) {
    i < |pages| && x in pages[i].items && forall j | 0 <= j < |pages| && j != i :: x !in pages[j].items
  }

  ghost predicate OnExactlyOnePage<T(!new)>(pages: seq<Page<T>>, x: T) {
    exists i :: OnlyOn(pages, x, i)
  }

  /** A page holds exactly the visible rows from its cursor down to its next cursor. */
  ghost predicate IsWindow<T(!new)>(lt: (T, T) -> bool, rows: set<T>, cursor: Option<T>, limit: nat, page: Page<T>) {
    && Descending(lt, page.items)
    && |page.items| <= limit
    && (page.hasNext <==> page.next.Some?)
    && (forall x :: x in page.items <==>
        x in Visible(lt, rows, cursor) && (page.next.Some? ==> !lt(x, page.next.value)))
    && (page.next.Some? ==> |page.items| == limit && page.next.value in page.items)
  }

  /** What is kept of the fetched rows, and where the cursor points. */
  lemma CutPage<T>(all: seq<T>, limit: nat)
    requires limit >= 1
    ensures var page := PageFrom(Take(all, limit + 1), limit);
            if |all| > limit then page == Page(all[..limit], true, Some(all[limit - 1]))
                else page == Page(all, false, None)
  {
    assert |all| > limit ==> Take(all, limit + 1)[..limit] == all[..limit];
  }

  /** The rows kept are those a query for `limit` rows would return, and there is more when the table has more. */
  lemma PageIsTop<T>(all: seq<T>, limit: nat)
    ensures var page := PageFrom(Take(all, limit + 1), limit);
            && page.items == Take(all, limit)
            && (page.hasNext <==> |all| > limit)
            && page.next == if |all| > limit >= 1 then Some(all[limit - 1]) else None
  {
    assert |all| > limit ==> Take(all, limit + 1)[..limit] == all[..limit];
  }

  lemma CutWindow<T(!new)>(lt: (T, T) -> bool, all: seq<T>, limit: nat, x: T)
    requires StrictTotal(lt) && Descending(lt, all) && 1 <= limit < |all|
    ensures x in all[..limit] <==> x in all && !lt(x, all[limit - 1])
  {
    if x in all {
      var i :| 0 <= i < |all| && all[i] == x;
      assert i < limit ==> all[..limit][i] == x;
      assert i < limit - 1 ==> lt(all[limit - 1], all[i]);
    }
  }

  lemma PageWindow<T(!new)>(lt: (T, T) -> bool, rows: set<T>, cursor: Option<T>, limit: nat)
    requires StrictTotal(lt) && limit >= 1
    ensures IsWindow(lt, rows, cursor, limit, PageOf(lt, rows, cursor, limit))
  {
    var page := PageOf(lt, rows, cursor, limit);
    var all := Desc(lt, Visible(lt, rows, cursor));
    CutPage(all, limit);
    if |all| > limit {
      forall x ensures x in page.items <==> x in all && !lt(x, page.next.value) {
        CutWindow(lt, all, limit, x);
      }
    }
  }

  /** One step of following cursors. */
  lemma {:induction false} FollowStep<T(!new)>(lt: (T, T) -> bool, views: seq<set<T>>, cursor: Option<T>,
      limit: nat) returns (page: Page<T>, rest: seq<Page<T>>)
    requires StrictTotal(lt) && limit >= 1 && views != []
    ensures IsWindow(lt, views[0], cursor, limit, page)
    ensures rest == if page.next.Some? then Follow(lt, views[1..], page.next, limit) else []
    ensures Follow(lt, views, cursor, limit) == [page] + rest
    ensures Concat([page] + rest) == page.items + Concat(rest)
  {
    PageWindow(lt, views[0], cursor, limit);
    page := PageOf(lt, views[0], cursor, limit);
    rest := if page.next.Some? then Follow(lt, views[1..], page.next, limit) else [];
    assert ([page] + rest)[1..] == rest;
  }

  /** Every key of the page, its cursor included, is one the read could see. */
  ghost predicate WasRead<T(!new)>(page: Page<T>, rows: set<T>) {
    (forall x | x in page.items :: x in rows) && (page.next.Some? ==> page.next.value in rows)
  }

  /** The shape of one step, and that the read could see what it shows. */
  lemma FollowCursor<T(!new)>(lt: (T, T) -> bool, views: seq<set<T>>, cursor: Option<T>,
      limit: nat) returns (page: Page<T>, rest: seq<Page<T>>)
    requires StrictTotal(lt) && limit >= 1 && views != []
    ensures rest == if page.next.Some? then Follow(lt, views[1..], page.next, limit) else []
    ensures Follow(lt, views, cursor, limit) == [page] + rest
    ensures WasRead(page, views[0])
    ensures page.next.Some? ==> Below(lt, page.next.value, cursor)
    ensures rest != [] ==> page.next.Some?
  {
    page, rest := FollowStep(lt, views, cursor, limit);
    forall x | x in page.items ensures x in views[0] && Below(lt, x, cursor) {
      assert x in Visible(lt, views[0], cursor);
    }
  }

  lemma FollowHead<T(!new)>(lt: (T, T) -> bool, views: seq<set<T>>, cursor: Option<T>, limit: nat)
    requires StrictTotal(lt) && views != []
    ensures Follow(lt, views, cursor, limit) != []
    ensures Follow(lt, views, cursor, limit)[0] == PageOf(lt, views[0], cursor, limit)
  {
  }

  lemma JoinDescending<T(!new)>(lt: (T, T) -> bool, a: seq<T>, b: seq<T>, c: T)
    requires StrictTotal(lt) && Descending(lt, a) && Descending(lt, b)
    requires forall x | x in a :: !lt(x, c)
    requires forall y | y in b :: lt(y, c)
    ensures Descending(lt, a + b)
  {
    forall i, j | 0 <= i < j < |a + b| ensures lt((a + b)[j], (a + b)[i]) {
      if i < |a| <= j {
        assert (a + b)[i] in a && (a + b)[j] in b;
      }
    }
  }

  /** Whatever happens to the table, what the client sees strictly descends: no key is ever shown twice. */
  lemma {:induction false} PagesDescend<T(!new)>(lt: (T, T) -> bool, views: seq<set<T>>, cursor: Option<T>, limit: nat)
    requires StrictTotal(lt) && limit >= 1
    ensures Descending(lt, Concat(Follow(lt, views, cursor, limit)))
    ensures forall x | x in Concat(Follow(lt, views, cursor, limit)) :: Below(lt, x, cursor)
  {
    if views != [] {
      var page, rest := FollowStep(lt, views, cursor, limit);
      if page.next.Some? {
        PagesDescend(lt, views[1..], page.next, limit);
        assert page.next.value in Visible(lt, views[0], cursor);
        JoinDescending(lt, page.items, Concat(rest), page.next.value);
      }
    }
  }

  lemma {:induction false} InConcat<T(!new)>(pages: seq<Page<T>>, i: nat, x: T)
    requires i < |pages| && x in pages[i].items
    ensures x in Concat(pages)
  {
    if i > 0 {
      InConcat(pages[1..], i - 1, x);
    }
  }

  lemma {:induction false} FromConcat<T(!new)>(pages: seq<Page<T>>, x: T) returns (i: nat)
    requires x in Concat(pages)
    ensures i < |pages| && x in pages[i].items
  {
    if x in pages[0].items {
      i := 0;
    } else {
      i := FromConcat(pages[1..], x);
      i := i + 1;
    }
  }

  /** Where the client stands after the last page. */
  function LastCursor<T>(pages: seq<Page<T>>): Option<T>
    requires pages != []
  {
    pages[|pages| - 1].next
  }

  lemma OnceInHead<T(!new)>(page: Page<T>, rest: seq<Page<T>>, x: T)
    requires x in page.items && x !in Concat(rest)
    ensures OnExactlyOnePage([page] + rest, x)
  {
    var pages := [page] + rest;
    forall j | 0 <= j < |pages| && j != 0 ensures x !in pages[j].items {
      if x in pages[j].items {
        InConcat(rest, j - 1, x);
      }
    }
    assert OnlyOn(pages, x, 0);
  }

  lemma OnceInTail<T(!new)>(page: Page<T>, rest: seq<Page<T>>, x: T)
    requires x !in page.items && OnExactlyOnePage(rest, x)
    ensures OnExactlyOnePage([page] + rest, x)
  {
    var i: nat :| OnlyOn(rest, x, i);
    OnlyOnShifts(page, rest, x, i);
  }

  lemma OnlyOnShifts<T(!new)>(page: Page<T>, rest: seq<Page<T>>, x: T, i: nat)
    requires x !in page.items && OnlyOn(rest, x, i)
    ensures OnlyOn([page] + rest, x, i + 1)
  {
  }

  /** What a client that stopped after `pages` knows about a key every read saw. */
  ghost predicate ShownOnceUnlessBelow<T(!new)>(lt: (T, T) -> bool, pages: seq<Page<T>>, x: T)
    requires pages != []
  {
    if LastCursor(pages).Some? && lt(x, LastCursor(pages).value)
    then x !in Concat(pages)
    else OnExactlyOnePage(pages, x)
  }

  lemma StableCons<T(!new)>(lt: (T, T) -> bool, page: Page<T>, rest: seq<Page<T>>, x: T)
    requires StrictTotal(lt) && rest != [] && page.next.Some?
    requires x in page.items <==> !lt(x, page.next.value)
    requires LastCursor(rest).Some? ==> lt(LastCursor(rest).value, page.next.value)
    requires forall y | y in Concat(rest) :: lt(y, page.next.value)
    requires lt(x, page.next.value) ==> ShownOnceUnlessBelow(lt, rest, x)
    ensures ShownOnceUnlessBelow(lt, [page] + rest, x)
  {
    assert LastCursor([page] + rest) == LastCursor(rest);
    assert ([page] + rest)[1..] == rest;
    if x in page.items {
      OnceInHead(page, rest, x);
    } else if OnExactlyOnePage(rest, x) {
      OnceInTail(page, rest, x);
    }
  }

  /**
   A key that every read sees is on exactly one of the pages, unless the client stopped above it:
   it is missed exactly when the last cursor handed out is still above the key.
   */
  lemma {:induction false} StableKeyOnce<T(!new)>(lt: (T, T) -> bool, views: seq<set<T>>, cursor: Option<T>, limit: nat,
      x: T)
    requires StrictTotal(lt) && limit >= 1 && views != []
    requires Below(lt, x, cursor)
    requires forall rows | rows in views :: x in rows
    ensures ShownOnceUnlessBelow(lt, Follow(lt, views, cursor, limit), x)
  {
    var page, rest := FollowStep(lt, views, cursor, limit);
    assert x in Visible(lt, views[0], cursor);
    if rest != [] {
      PagesDescend(lt, views[1..], page.next, limit);
      PagesEndBelow(lt, views[1..], page.next, limit);
      if lt(x, page.next.value) {
        StableKeyOnce(lt, views[1..], page.next, limit, x);
      }
      StableCons(lt, page, rest, x);
    } else if x in page.items {
      OnceInHead(page, rest, x);
    }
  }

  /** Cursors only ever go down. */
  lemma {:induction false} PagesEndBelow<T(!new)>(lt: (T, T) -> bool, views: seq<set<T>>, cursor: Option<T>, limit: nat)
    requires StrictTotal(lt) && limit >= 1 && views != []
    ensures var pages := Follow(lt, views, cursor, limit);
            pages[|pages| - 1].next.Some? ==> Below(lt, pages[|pages| - 1].next.value, cursor)
  {
    var page, rest := FollowCursor(lt, views, cursor, limit);
    if rest != [] {
      PagesEndBelow(lt, views[1..], page.next, limit);
      assert LastCursor([page] + rest) == LastCursor(rest);
    }
  }

  ghost predicate PagesRead<T(!new)>(views: seq<set<T>>, pages: seq<Page<T>>) {
    |pages| <= |views| && forall i | 0 <= i < |pages| :: WasRead(pages[i], views[i])
  }

  lemma PagesReadCons<T(!new)>(views: seq<set<T>>, page: Page<T>, rest: seq<Page<T>>)
    requires views != [] && PagesRead(views[1..], rest) && WasRead(page, views[0])
    ensures PagesRead(views, [page] + rest)
  {
    forall i | 0 <= i < |[page] + rest| ensures WasRead(([page] + rest)[i], views[i]) {
      if i > 0 { assert ([page] + rest)[i] == rest[i - 1] && views[i] == views[1..][i - 1]; }
    }
  }

  /** Nothing is shown, and no cursor handed out, that was not visible when the page was read. */
  lemma {:induction false} FollowWasRead<T(!new)>(lt: (T, T) -> bool, views: seq<set<T>>, cursor: Option<T>, limit: nat,
      pages: seq<Page<T>>)
    requires StrictTotal(lt) && limit >= 1 && pages == Follow(lt, views, cursor, limit)
    ensures PagesRead(views, pages)
    decreases |views|
  {
    if views != [] {
      var page, rest := FollowCursor(lt, views, cursor, limit);
      if page.next.Some? {
        FollowWasRead(lt, views[1..], page.next, limit, rest);
      }
      PagesReadCons(views, page, rest);
    }
  }

  /** The cursor a chain ends with is a row that some read could see. */
  lemma LastCursorWasRead<T(!new)>(lt: (T, T) -> bool, views: seq<set<T>>, cursor: Option<T>, limit: nat,
      pages: seq<Page<T>>) returns (i: nat)
    requires StrictTotal(lt) && limit >= 1 && views != []
    requires pages == Follow(lt, views, cursor, limit)
    ensures pages != [] && i < |views|
    ensures LastCursor(pages).Some? ==> LastCursor(pages).value in views[i]
  {
    FollowHead(lt, views, cursor, limit);
    FollowWasRead(lt, views, cursor, limit, pages);
    i := |pages| - 1;
    assert WasRead(pages[i], views[i]);
  }

  /** Every key the reads can still meet below the cursor lies in one finite set. */
  ghost predicate Bounded<T(!new)>(lt: (T, T) -> bool, views: seq<set<T>>, cursor: Option<T>, universe: set<T>) {
    forall rows | rows in views :: Visible(lt, rows, cursor) <= universe
  }

  /** The keys of one page and the keys below its next cursor are disjoint parts of what lay below its own cursor. */
  lemma PageUsesUp<T(!new)>(lt: (T, T) -> bool, rows: set<T>, cursor: Option<T>, limit: nat, page: Page<T>,
      universe: set<T>)
    requires StrictTotal(lt) && limit >= 1 && Visible(lt, rows, cursor) <= universe
    requires IsWindow(lt, rows, cursor, limit, page) && page.next.Some?
    ensures limit + |Visible(lt, universe, page.next)| <= |Visible(lt, universe, cursor)|
  {
    var shown := set x | x in page.items;
    DescendingSize(lt, page.items);
    var later := Visible(lt, universe, page.next);
    assert page.next.value in Visible(lt, rows, cursor);
    assert shown !! later;
    assert shown + later <= Visible(lt, universe, cursor);
    SizeMonotone(shown + later, Visible(lt, universe, cursor));
  }

  lemma VisibleShrinks<T(!new)>(lt: (T, T) -> bool, rows: set<T>, high: Option<T>, low: Option<T>)
    requires StrictTotal(lt) && low.Some? && Below(lt, low.value, high)
    ensures Visible(lt, rows, low) <= Visible(lt, rows, high)
  {
  }

  lemma BoundedTail<T(!new)>(lt: (T, T) -> bool, views: seq<set<T>>, high: Option<T>, low: Option<T>, universe: set<T>)
    requires StrictTotal(lt) && views != [] && low.Some? && Below(lt, low.value, high)
        && Bounded(lt, views, high, universe)
    ensures Bounded(lt, views[1..], low, universe)
  {
    forall rows | rows in views[1..] ensures Visible(lt, rows, low) <= universe {
      assert rows in views;
      VisibleShrinks(lt, rows, high, low);
    }
  }

  /** Pages times limit, counting a last page that has no next cursor as free. */
  function Charged<T>(pages: seq<Page<T>>, limit: nat): int {
    if Complete(pages) then limit * (|pages| - 1) else limit * |pages|
  }

  lemma ChargedCons<T>(page: Page<T>, rest: seq<Page<T>>, limit: nat)
    ensures rest != [] ==> Charged([page] + rest, limit) == limit + Charged(rest, limit)
    ensures rest == [] ==> Charged([page] + rest, limit) == if page.next.None? then 0 else limit
  {
    if rest != [] {
      assert ([page] + rest)[|rest|] == rest[|rest| - 1];
    }
  }

  /** Every page but the last uses up `limit` keys of any finite set that holds all keys the client can still meet. */
  lemma {:induction false} PagesBounded<T(!new)>(lt: (T, T) -> bool, views: seq<set<T>>, cursor: Option<T>, limit: nat,
      universe: set<T>)
    requires StrictTotal(lt) && limit >= 1
    requires Bounded(lt, views, cursor, universe)
    ensures Charged(Follow(lt, views, cursor, limit), limit) <= |Visible(lt, universe, cursor)|
  {
    if views != [] {
      var page, rest := FollowStep(lt, views, cursor, limit);
      ChargedCons(page, rest, limit);
      if page.next.Some? {
        PageUsesUp(lt, views[0], cursor, limit, page, universe);
        assert page.next.value in Visible(lt, views[0], cursor);
        BoundedTail(lt, views, cursor, page.next, universe);
        PagesBounded(lt, views[1..], page.next, limit, universe);
      }
    }
  }

  lemma {:induction false} DescendingSize<T(!new)>(lt: (T, T) -> bool, s: seq<T>)
    requires StrictTotal(lt) && Descending(lt, s)
    ensures |set x | x in s| == |s|
  {
    if s != [] {
      DescendingSize(lt, s[1..]);
      assert (set x | x in s) == {s[0]} + set x | x in s[1..];
    }
  }

  /** A client that keeps asking reaches the end: more views than keys always complete the chain. */
  lemma {:induction false} ChainEnds<T(!new)>(lt: (T, T) -> bool, views: seq<set<T>>, cursor: Option<T>, limit: nat,
      universe: set<T>)
    requires StrictTotal(lt) && limit >= 1
    requires Bounded(lt, views, cursor, universe)
    requires |views| > |universe|
    ensures Complete(Follow(lt, views, cursor, limit))
  {
    var pages := Follow(lt, views, cursor, limit);
    PagesBounded(lt, views, cursor, limit, universe);
    SizeMonotone(Visible(lt, universe, cursor), universe);
    IncompleteUsesAllReads(lt, views, cursor, limit);
    if !Complete(pages) {
      LinearBound(limit, |pages|);
      assert false;
    }
  }

  lemma LinearBound(limit: nat, pages: nat)
    requires limit >= 1
    ensures limit * pages >= pages
  {
  }

  lemma {:induction false} IncompleteUsesAllReads<T(!new)>(lt: (T, T) -> bool, views: seq<set<T>>, cursor: Option<T>,
      limit: nat)
    requires StrictTotal(lt) && limit >= 1
    ensures var pages := Follow(lt, views, cursor, limit);
            |pages| <= |views| && (!Complete(pages) ==> |pages| == |views|)
  {
    if views != [] {
      var page, rest := FollowStep(lt, views, cursor, limit);
      if page.next.Some? {
        IncompleteUsesAllReads(lt, views[1..], page.next, limit);
        if rest != [] {
          assert LastCursor([page] + rest) == LastCursor(rest);
        }
      }
    }
  }

  ghost predicate Frozen<T>(views: seq<T>, rows: T) {
    forall i | 0 <= i < |views| :: views[i] == rows
  }

  /** On a table nobody changes, a completed chain is the sorted list of the rows below the first cursor. */
  lemma {:induction false} FrozenChainIsList<T(!new)>(lt: (T, T) -> bool, rows: set<T>, views: seq<set<T>>,
      cursor: Option<T>, limit: nat)
    requires StrictTotal(lt) && limit >= 1 && Frozen(views, rows)
    requires Complete(Follow(lt, views, cursor, limit))
    ensures Concat(Follow(lt, views, cursor, limit)) == Desc(lt, Visible(lt, rows, cursor))
  {
    var pages := Follow(lt, views, cursor, limit);
    PagesDescend(lt, views, cursor, limit);
    FollowWasRead(lt, views, cursor, limit, pages);
    forall x ensures x in Concat(pages) <==> x in Visible(lt, rows, cursor) {
      if x in Concat(pages) {
        var i := FromConcat(pages, x);
        assert WasRead(pages[i], views[i]);
      }
      if x in Visible(lt, rows, cursor) {
        StableKeyOnce(lt, views, cursor, limit, x);
        var i: nat :| OnlyOn(pages, x, i);
        InConcat(pages, i, x);
      }
    }
    DescendingUnique(lt, Concat(pages), Desc(lt, Visible(lt, rows, cursor)));
  }

  lemma {:induction false} FrozenChainFromStart<T(!new)>(lt: (T, T) -> bool, rows: set<T>, views: seq<set<T>>,
      limit: nat)
    requires StrictTotal(lt) && limit >= 1 && Frozen(views, rows)
    requires Complete(Follow(lt, views, None, limit))
    ensures Concat(Follow(lt, views, None, limit)) == Desc(lt, rows)
  {
    FrozenChainIsList(lt, rows, views, None, limit);
    assert Visible(lt, rows, None) == rows;
  }
}
