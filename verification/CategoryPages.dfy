/**
 Category pages: the list is computed afresh for each request, and a cursor is a value, looked up by its first
 occurrence.  No table and no key order are involved.
 */
module CategoryPages {
  import opened Wrappers

  datatype Category = Category(name: string, count: nat)

  datatype Page = Page(items: seq<Category>, hasMore: bool, nextCursor: Option<Category>)

  const DEFAULT_LIMIT: nat := 20
  const MAX_LIMIT: nat := 100

  /** A missing, non-positive or unreadable limit is the default; the rest is rounded down and capped. */
  function ParseLimit(query: Option<real>): (limit: nat)
    ensures limit <= MAX_LIMIT
    ensures limit == 0 <==> query.Some? && 0.0 < query.value < 1.0
  {
    if query.None? || query.value <= 0.0 then DEFAULT_LIMIT
    else if query.value.Floor < MAX_LIMIT then query.value.Floor else MAX_LIMIT
  }

  /** `findIndex`: the first position of the value, or the length when absent. */
  function First(cats: seq<Category>, x: Category): (i: nat)
    ensures i <= |cats|
    ensures i < |cats| ==> cats[i] == x
    ensures forall k | 0 <= k < i :: cats[k] != x
  {
    if cats == [] then 0
    else if cats[0] == x then 0
    else
      var i := First(cats[1..], x);
      assert forall k | 1 <= k < i + 1 :: cats[k] == cats[1..][k - 1];
      i + 1
  }

  /** An unknown cursor starts over. */
  function StartIndex(cats: seq<Category>, cursor: Option<Category>): (start: nat)
    ensures start <= |cats|
  {
    if cursor.Some? && First(cats, cursor.value) < |cats| then First(cats, cursor.value) + 1 else 0
  }

  function Slice(cats: seq<Category>, start: nat, limit: nat): seq<Category>
    requires start <= |cats|
  {
    if start + limit < |cats| then cats[start..start + limit] else cats[start..]
  }

  function PaginateCategoryResults(cats: seq<Category>, limit: nat, cursor: Option<Category>): Page {
    var start := StartIndex(cats, cursor);
    var items := Slice(cats, start, limit);
    var hasMore := start + |items| < |cats|;
    Page(items, hasMore, if hasMore && |items| > 0 then Some(items[|items| - 1]) else None)
  }

  /** Twenty without a usable limit, and otherwise the limit rounded down, but not more than a hundred. */
  lemma LimitMeans(query: Option<real>)
    ensures query == None || query.value <= 0.0 ==> ParseLimit(query) == 20
    ensures query != None && 0.0 < query.value < 100.0 ==>
              ParseLimit(query) as real <= query.value < ParseLimit(query) as real + 1.0
    ensures query != None && query.value >= 100.0 ==> ParseLimit(query) == 100
  {
  }

  lemma StartMeans(cats: seq<Category>, cursor: Option<Category>, start: nat)
    requires start <= |cats|
    requires cursor == None || cursor.value !in cats ==> start == 0
    requires cursor != None && cursor.value in cats ==>
               start > 0 && cats[start - 1] == cursor.value && forall k | 0 <= k < start - 1 :: cats[k] != cursor.value
    ensures StartIndex(cats, cursor) == start
  {
    if cursor != None && cursor.value in cats {
      assert First(cats, cursor.value) == start - 1;
    }
  }

  lemma PageFrom(cats: seq<Category>, limit: nat, cursor: Option<Category>, start: nat)
    requires start <= |cats| && StartIndex(cats, cursor) == start
    ensures var page := PaginateCategoryResults(cats, limit, cursor);
            && page.items == cats[start..if start + limit < |cats| then start + limit else |cats|]
            && (page.hasMore <==> start + limit < |cats|)
            && page.nextCursor == if start + limit < |cats| && limit > 0 then Some(cats[start + limit - 1]) else None
  {
  }

  /**
   A page holds up to `limit` entries from right after the first occurrence of the cursor, or from the start for a
   cursor that does not occur, and points at its last one when there are more.
   */
  lemma PageMeans(cats: seq<Category>, limit: nat, cursor: Option<Category>, start: nat)
    requires start <= |cats|
    requires cursor == None || cursor.value !in cats ==> start == 0
    requires cursor != None && cursor.value in cats ==>
               start > 0 && cats[start - 1] == cursor.value && forall k | 0 <= k < start - 1 :: cats[k] != cursor.value
    ensures var page := PaginateCategoryResults(cats, limit, cursor);
            && |page.items| == (if start + limit < |cats| then limit else |cats| - start)
            && (forall i | 0 <= i < |page.items| :: page.items[i] == cats[start + i])
            && (page.hasMore <==> start + limit < |cats|)
            && page.nextCursor == if start + limit < |cats| && limit > 0 then Some(cats[start + limit - 1]) else None
  {
    StartMeans(cats, cursor, start);
    PageFrom(cats, limit, cursor, start);
  }

  /** The requests of a reader, by the cursor sent. */
  function Pager(cats: seq<Category>, limit: nat): Option<Category> -> Page {
    cursor => PaginateCategoryResults(cats, limit, cursor)
  }

  /** What a reader has after up to `n` requests, and whether the last page said there is no more. */
  datatype Read = Read(items: seq<Category>, complete: bool)

  function Walk(pager: Option<Category> -> Page, cursor: Option<Category>, n: nat): Read
    decreases n
  {
    if n == 0 then Read([], false)
    else
      var page := pager(cursor);
      if page.nextCursor.None? then Read(page.items, !page.hasMore)
      else
        var rest := Walk(pager, page.nextCursor, n - 1);
        Read(page.items + rest.items, rest.complete)
  }

  /** Every full page from `start` on ends at the first occurrence of its last value. */
  predicate EndsFirst(cats: seq<Category>, limit: nat, start: nat)
    requires start <= |cats|
    decreases |cats| - start
  {
    if start + limit >= |cats| then true
    else
      && limit >= 1
      && First(cats, cats[start + limit - 1]) == start + limit - 1
      && EndsFirst(cats, limit, start + limit)
  }

  lemma NextStart(cats: seq<Category>, k: nat)
    requires k < |cats|
    ensures StartIndex(cats, Some(cats[k])) <= k + 1
    ensures First(cats, cats[k]) == k <==> StartIndex(cats, Some(cats[k])) == k + 1
  {
  }

  // ---- Walks by position ----

  /** A last page, a page that gets nowhere, or a full page whose cursor is its last entry. */
  function PageAt(cats: seq<Category>, limit: nat, start: nat): Page
    requires start <= |cats|
  {
    if start + limit >= |cats| then Page(cats[start..], false, None)
    else if limit == 0 then Page([], true, None)
    else Page(cats[start..start + limit], true, Some(cats[start + limit - 1]))
  }

  lemma PaginateByPosition(cats: seq<Category>, limit: nat, cursor: Option<Category>)
    ensures PaginateCategoryResults(cats, limit, cursor) == PageAt(cats, limit, StartIndex(cats, cursor))
  {
  }

  /** The same walk over positions; `next(k)` is where the page after one that ends at k starts. */
  function WalkFrom(cats: seq<Category>, limit: nat, next: nat -> nat, start: nat, n: nat): Read
    requires start <= |cats| && forall k: nat :: next(k) <= |cats|
    decreases n
  {
    if n == 0 then Read([], false)
    else if start + limit >= |cats| then Read(cats[start..], true)
    else if limit == 0 then Read([], false)
    else
      var rest := WalkFrom(cats, limit, next, next(start + limit - 1), n - 1);
      Read(cats[start..start + limit] + rest.items, rest.complete)
  }

  predicate EndsExact(size: nat, limit: nat, next: nat -> nat, start: nat)
    requires start <= size
    decreases size - start
  {
    if start + limit >= size then true
    else limit >= 1 && next(start + limit - 1) == start + limit && EndsExact(size, limit, next, start + limit)
  }

  /** A reader who reaches the end has at least everything from the first page on. */
  lemma {:induction false} WalkIsLong(cats: seq<Category>, limit: nat, next: nat -> nat, start: nat, n: nat)
    requires start <= |cats| && (forall k: nat :: next(k) <= |cats|) && forall k: nat :: next(k) <= k + 1
    requires WalkFrom(cats, limit, next, start, n).complete
    ensures |WalkFrom(cats, limit, next, start, n).items| >= |cats| - start
    decreases n
  {
    if start + limit < |cats| {
      WalkIsLong(cats, limit, next, next(start + limit - 1), n - 1);
    }
  }

  lemma {:induction false} WalkIsList(cats: seq<Category>, limit: nat, next: nat -> nat, start: nat, n: nat)
    requires start <= |cats| && forall k: nat :: next(k) <= |cats|
    requires EndsExact(|cats|, limit, next, start) && n > |cats| - start
    ensures WalkFrom(cats, limit, next, start, n) == Read(cats[start..], true)
    decreases n
  {
    if start + limit < |cats| {
      WalkIsList(cats, limit, next, start + limit, n - 1);
      assert cats[start..] == cats[start..start + limit] + cats[start + limit..];
    }
  }

  lemma {:induction false} WalkNeedsEnds(cats: seq<Category>, limit: nat, next: nat -> nat, start: nat, n: nat)
    requires start <= |cats| && (forall k: nat :: next(k) <= |cats|) && forall k: nat :: next(k) <= k + 1
    requires WalkFrom(cats, limit, next, start, n) == Read(cats[start..], true)
    ensures EndsExact(|cats|, limit, next, start)
    decreases n
  {
    if start + limit < |cats| {
      var rest := WalkFrom(cats, limit, next, next(start + limit - 1), n - 1);
      WalkIsLong(cats, limit, next, next(start + limit - 1), n - 1);
      assert rest.items == cats[start + limit..] by {
        assert cats[start..start + limit] + rest.items == cats[start..];
        assert cats[start..][limit..] == cats[start + limit..];
      }
      WalkNeedsEnds(cats, limit, next, start + limit, n - 1);
    }
  }

  function NextStarts(cats: seq<Category>): nat -> nat {
    (k: nat) => if k < |cats| then StartIndex(cats, Some(cats[k])) else 0
  }

  lemma NextStartsBounded(cats: seq<Category>)
    ensures forall k: nat :: NextStarts(cats)(k) <= |cats|
    ensures forall k: nat :: NextStarts(cats)(k) <= k + 1
  {
    forall k: nat ensures NextStarts(cats)(k) <= k + 1 && NextStarts(cats)(k) <= |cats| {
      if k < |cats| { NextStart(cats, k); }
    }
  }

  /** The pages of `pager` start where `at` says, and `next` is where the page after position k starts. */
  ghost predicate Follows(cats: seq<Category>, limit: nat, pager: Option<Category> -> Page, at: Option<Category> -> nat,
      next: nat -> nat) {
    && (forall c {:trigger pager(c)} :: at(c) <= |cats| && pager(c) == PageAt(cats, limit, at(c)))
    && (forall k: nat :: next(k) <= |cats|)
    && (forall k: nat {:trigger next(k)} | k < |cats| :: next(k) == at(Some(cats[k])))
  }

  lemma {:induction false} WalkByPosition(cats: seq<Category>, limit: nat, pager: Option<Category> -> Page,
      at: Option<Category> -> nat, next: nat -> nat, cursor: Option<Category>, n: nat)
    requires Follows(cats, limit, pager, at, next)
    ensures Walk(pager, cursor, n) == WalkFrom(cats, limit, next, at(cursor), n)
    decreases n
  {
    var start := at(cursor);
    if n > 0 && limit > 0 && start + limit < |cats| {
      var end := start + limit - 1;
      assert pager(cursor).nextCursor == Some(cats[end]);
      WalkByPosition(cats, limit, pager, at, next, Some(cats[end]), n - 1);
      assert next(end) == at(Some(cats[end]));
    }
  }

  function Starts(cats: seq<Category>): Option<Category> -> nat {
    cursor => StartIndex(cats, cursor)
  }

  lemma RequestsByPosition(cats: seq<Category>, limit: nat, n: nat)
    requires forall k: nat :: NextStarts(cats)(k) <= |cats|
    ensures Walk(Pager(cats, limit), None, n) == WalkFrom(cats, limit, NextStarts(cats), 0, n)
  {
    forall c ensures Pager(cats, limit)(c) == PageAt(cats, limit, Starts(cats)(c)) {
      PaginateByPosition(cats, limit, c);
    }
    WalkByPosition(cats, limit, Pager(cats, limit), Starts(cats), NextStarts(cats), None, n);
  }

  lemma {:induction false} EndsByPosition(cats: seq<Category>, limit: nat, start: nat)
    requires start <= |cats|
    ensures EndsFirst(cats, limit, start) <==> EndsExact(|cats|, limit, NextStarts(cats), start)
    decreases |cats| - start
  {
    if start + limit < |cats| && limit >= 1 {
      NextStart(cats, start + limit - 1);
      EndsByPosition(cats, limit, start + limit);
    }
  }

  lemma PagedNeedsEnds(cats: seq<Category>, limit: nat, n: nat)
    requires Walk(Pager(cats, limit), None, n) == Read(cats, true)
    ensures EndsFirst(cats, limit, 0)
  {
    NextStartsBounded(cats);
    RequestsByPosition(cats, limit, n);
    assert cats[0..] == cats;
    WalkNeedsEnds(cats, limit, NextStarts(cats), 0, n);
    EndsByPosition(cats, limit, 0);
  }

  lemma EndsArePaged(cats: seq<Category>, limit: nat)
    requires EndsFirst(cats, limit, 0)
    ensures Walk(Pager(cats, limit), None, |cats| + 1) == Read(cats, true)
  {
    NextStartsBounded(cats);
    EndsByPosition(cats, limit, 0);
    RequestsByPosition(cats, limit, |cats| + 1);
    WalkIsList(cats, limit, NextStarts(cats), 0, |cats| + 1);
    assert cats[0..] == cats;
  }

  /**
   Exactly when a reader can page through the whole list, each entry once and in order: when every full page ends at the
   first occurrence of its last entry.  With a limit of zero only an empty list qualifies.
   */
  lemma PagesAreListIff(cats: seq<Category>, limit: nat)
    ensures (exists n :: Walk(Pager(cats, limit), None, n) == Read(cats, true)) <==> EndsFirst(cats, limit, 0)
  {
    if n :| Walk(Pager(cats, limit), None, n) == Read(cats, true) {
      PagedNeedsEnds(cats, limit, n);
    }
    if EndsFirst(cats, limit, 0) {
      EndsArePaged(cats, limit);
    }
  }

  /** Distinct entries and a limit of at least one are enough. */
  lemma {:induction false} DistinctEndsFirst(cats: seq<Category>, limit: nat, start: nat)
    requires start <= |cats| && limit >= 1
    requires forall i, j | 0 <= i < j < |cats| :: cats[i] != cats[j]
    ensures EndsFirst(cats, limit, start)
    decreases |cats| - start
  {
    if start + limit < |cats| {
      DistinctEndsFirst(cats, limit, start + limit);
    }
  }

  /** A list that is not empty can be paged through only if the requested limit was not a fraction below one. */
  lemma FractionalLimitShowsNothing(cats: seq<Category>, query: Option<real>, n: nat)
    requires cats != [] && query.Some? && 0.0 < query.value < 1.0
    ensures Walk(Pager(cats, ParseLimit(query)), None, n) == Read([], false)
  {
  }
}
